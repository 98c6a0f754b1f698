/**
  The read-only view of the grid that every bot receives once per turn, and the
  vocabulary the strategies share: coordinates, the four directions in a
  fixed enumeration order (taken to be Up, Down, Left, Right, the order in
  which the game's direction enum is assumed to declare them), movement
  commands, and the filter "which directions lead to a neighbour of a given
  kind".
*/
module Grid {

  datatype Option<T> = None | Some(value: T)

  datatype Coord = Coord(x: int, y: int)

  datatype Direction = Up | Down | Left | Right

  /** The directions in their assumed enumeration order (the game's enum is not part of this model). */
  const Directions: seq<Direction> := [Up, Down, Left, Right]

  /** Position of a direction in the enumeration order. */
  function Rank(d: Direction): (r: nat)
    ensures r < |Directions| && Directions[r] == d
  {
    match d
    case Up => 0
    case Down => 1
    case Left => 2
    case Right => 3
  }

  /** Strictly increasing in enumeration order: no repeats, API order. */
  predicate InEnumOrder(ds: seq<Direction>)
  {
    forall i, j :: 0 <= i < j < |ds| ==> Rank(ds[i]) < Rank(ds[j])
  }

  /**
    An order in which a hash map keyed by directions may enumerate them:
    every direction exactly once. The order is fixed for a run but unknown.
  */
  predicate HashOrder(order: seq<Direction>)
  {
    && (forall d :: d in order)
    && (forall i, j :: 0 <= i < j < |order| ==> order[i] != order[j])
  }

  lemma DirectionsInEnumOrder()
    ensures InEnumOrder(Directions)
    ensures forall d: Direction :: d in Directions
  {
    forall d: Direction ensures d in Directions {
      assert Directions[Rank(d)] == d;
    }
  }

  /**
    One turn's view of the universe. The grid itself (its size, whether edges
    wrap) stays abstract: `step` is the neighbour lookup. `mine` answers
    "belongs to me", `occupied` is the finite set of non-empty cells.
    `expandAbove` and `saturateFrom` are the integer forms of two
    floating-point thresholds derived from the growth rate and the maximum
    population (see README).
  */
  datatype Snapshot = Snapshot(
    turn: int,
    myCells: seq<Coord>,
    mine: set<Coord>,
    occupied: set<Coord>,
    population: Coord -> nat,
    step: (Coord, Direction) -> Coord,
    universeSize: int,
    expandAbove: int,
    saturateFrom: int)

  predicate BelongsToMe(w: Snapshot, c: Coord) { c in w.mine }

  predicate IsEmpty(w: Snapshot, c: Coord) { c !in w.occupied }

  /** Non-empty and not ours: an enemy cell. */
  predicate IsHostile(w: Snapshot, c: Coord) { !IsEmpty(w, c) && !BelongsToMe(w, c) }

  function Population(w: Snapshot, c: Coord): nat { w.population(c) }

  function Neighbour(w: Snapshot, c: Coord, d: Direction): Coord { w.step(c, d) }

  /** The cell `i` steps away along `d` (the API's getUp(i), getDown(i), ...). */
  function Reach(w: Snapshot, c: Coord, d: Direction, i: nat): Coord
  {
    if i == 0 then c else Neighbour(w, Reach(w, c, d, i - 1), d)
  }

  lemma HostileIsOccupied(w: Snapshot, c: Coord)
    requires IsHostile(w, c)
    ensures |w.occupied| >= 1
  {
    assert {c} <= w.occupied;
  }

  /** The kinds of neighbour the strategies look for. */
  datatype Test =
    | Owned                  // belongs to me
    | NotOwned               // does not belong to me (empty or enemy)
    | Hostile                // non-empty and not mine
    | Vacant                 // empty
    | Open                   // empty, or not mine
    | HostileWith(pop: nat)  // hostile with exactly this population

  predicate Holds(w: Snapshot, t: Test, c: Coord)
  {
    match t
    case Owned => BelongsToMe(w, c)
    case NotOwned => !BelongsToMe(w, c)
    case Hostile => IsHostile(w, c)
    case Vacant => IsEmpty(w, c)
    case Open => IsEmpty(w, c) || !BelongsToMe(w, c)
    case HostileWith(p) => IsHostile(w, c) && Population(w, c) == p
  }

  /** The directions of `ds`, in their order, whose neighbour of `c` passes `t`. */
  function Matching(w: Snapshot, c: Coord, t: Test, ds: seq<Direction>): (r: seq<Direction>)
    ensures |r| <= |ds|
    decreases |ds|
  {
    if ds == [] then []
    else
      Matching(w, c, t, ds[..|ds| - 1])
      + (if Holds(w, t, Neighbour(w, c, ds[|ds| - 1])) then [ds[|ds| - 1]] else [])
  }

  /** Appending one direction extends the filter by that direction exactly when it passes. */
  lemma MatchingSnoc(w: Snapshot, c: Coord, t: Test, ds: seq<Direction>, d: Direction)
    ensures Matching(w, c, t, ds + [d])
         == Matching(w, c, t, ds) + (if Holds(w, t, Neighbour(w, c, d)) then [d] else [])
  {
    assert (ds + [d])[..|ds + [d]| - 1] == ds;
  }

  lemma {:induction false} MatchingMembers(w: Snapshot, c: Coord, t: Test, ds: seq<Direction>)
    ensures forall d :: d in Matching(w, c, t, ds) <==> d in ds && Holds(w, t, Neighbour(w, c, d))
  {
    if ds != [] {
      var init := ds[..|ds| - 1];
      MatchingMembers(w, c, t, init);
      assert ds == init + [ds[|ds| - 1]];
    }
  }

  lemma {:induction false} MatchingOrdered(w: Snapshot, c: Coord, t: Test, ds: seq<Direction>)
    requires InEnumOrder(ds)
    ensures InEnumOrder(Matching(w, c, t, ds))
  {
    if ds != [] {
      var init, last := ds[..|ds| - 1], ds[|ds| - 1];
      MatchingOrdered(w, c, t, init);
      MatchingMembers(w, c, t, init);
      var m := Matching(w, c, t, init);
      forall i | 0 <= i < |m| ensures Rank(m[i]) < Rank(last) {
        assert m[i] in init;
        var k :| 0 <= k < |init| && init[k] == m[i];
        assert ds[k] == m[i];
      }
    }
  }

  /** The filter keeps everything exactly when every direction passes. */
  lemma {:induction false} MatchingAll(w: Snapshot, c: Coord, t: Test, ds: seq<Direction>)
    ensures |Matching(w, c, t, ds)| == |ds|
        <==> forall i :: 0 <= i < |ds| ==> Holds(w, t, Neighbour(w, c, ds[i]))
  {
    if ds != [] {
      var init := ds[..|ds| - 1];
      MatchingAll(w, c, t, init);
      if forall i :: 0 <= i < |ds| ==> Holds(w, t, Neighbour(w, c, ds[i])) {
        forall i | 0 <= i < |init| ensures Holds(w, t, Neighbour(w, c, init[i])) {
          assert init[i] == ds[i];
        }
      }
      if |Matching(w, c, t, ds)| == |ds| {
        forall i | 0 <= i < |ds| ensures Holds(w, t, Neighbour(w, c, ds[i])) {
          if i < |ds| - 1 { assert ds[i] == init[i]; }
        }
      }
    }
  }

  /** For a repeat-free list, the filter's length is the number of passing directions. */
  lemma {:induction false} MatchingCardinality(w: Snapshot, c: Coord, t: Test, ds: seq<Direction>)
    requires InEnumOrder(ds)
    ensures |Matching(w, c, t, ds)| == |set d | d in ds && Holds(w, t, Neighbour(w, c, d))|
  {
    if ds == [] {
      assert (set d | d in ds && Holds(w, t, Neighbour(w, c, d))) == {};
    } else {
      var init, last := ds[..|ds| - 1], ds[|ds| - 1];
      assert InEnumOrder(init);
      MatchingCardinality(w, c, t, init);
      assert last !in init by {
        forall k | 0 <= k < |init| ensures init[k] != last {
          assert Rank(ds[k]) < Rank(ds[|ds| - 1]);
        }
      }
      assert ds == init + [last];
      PassingSnoc(w, c, t, init, last);
    }
  }

  lemma PassingSnoc(w: Snapshot, c: Coord, t: Test, init: seq<Direction>, last: Direction)
    requires last !in init
    ensures |set d | d in init + [last] && Holds(w, t, Neighbour(w, c, d))|
         == |set d | d in init && Holds(w, t, Neighbour(w, c, d))|
            + (if Holds(w, t, Neighbour(w, c, last)) then 1 else 0)
  {
    var s0 := set d | d in init && Holds(w, t, Neighbour(w, c, d));
    var s1 := set d | d in init + [last] && Holds(w, t, Neighbour(w, c, d));
    if Holds(w, t, Neighbour(w, c, last)) {
      assert s1 == s0 + {last};
    } else {
      assert s1 == s0;
    }
  }

  lemma {:induction false} MatchingNone(w: Snapshot, c: Coord, t: Test, ds: seq<Direction>)
    requires forall d :: d in ds ==> !Holds(w, t, Neighbour(w, c, d))
    ensures Matching(w, c, t, ds) == []
  {
    if ds != [] {
      assert ds[|ds| - 1] in ds;
      MatchingNone(w, c, t, ds[..|ds| - 1]);
    }
  }

  /** The directions of `c` whose neighbour passes `t`, in enumeration order. */
  lemma SelectedDirections(w: Snapshot, c: Coord, t: Test)
    ensures InEnumOrder(Matching(w, c, t, Directions))
    ensures forall d :: d in Matching(w, c, t, Directions) <==> Holds(w, t, Neighbour(w, c, d))
    ensures |Matching(w, c, t, Directions)| == |set d | d in Directions && Holds(w, t, Neighbour(w, c, d))|
  {
    DirectionsInEnumOrder();
    MatchingMembers(w, c, t, Directions);
    MatchingOrdered(w, c, t, Directions);
    MatchingCardinality(w, c, t, Directions);
  }

  /** A movement command: send `amount` population from `cell` towards `dir`. */
  datatype Command = Command(cell: Coord, dir: Direction, amount: int)

  lemma AppendAssoc(a: seq<Command>, b: seq<Command>, c: seq<Command>)
    ensures (a + b) + c == a + (b + c)
  {
  }

  /** Sum of the amounts of a list of commands. */
  function Total(cmds: seq<Command>): int
  {
    if cmds == [] then 0 else Total(cmds[..|cmds| - 1]) + cmds[|cmds| - 1].amount
  }

  lemma {:induction false} TotalConcat(a: seq<Command>, b: seq<Command>)
    ensures Total(a + b) == Total(a) + Total(b)
  {
    if b == [] {
      assert a + b == a;
    } else {
      var init := b[..|b| - 1];
      TotalConcat(a, init);
      assert (a + b)[..|a + b| - 1] == a + init;
    }
  }

  /** All commands of the list leave from `cell`. */
  predicate AllFrom(cmds: seq<Command>, cell: Coord)
  {
    forall k :: 0 <= k < |cmds| ==> cmds[k].cell == cell
  }

  /**
    The guarded send used by every strategy that moves a single share: a
    command is produced only for a positive amount.
  */
  function Move(cell: Coord, d: Direction, amount: int): (r: seq<Command>)
    ensures |r| <= 1 && AllFrom(r, cell)
    ensures r != [] <==> amount > 0
    ensures r != [] ==> r[0] == Command(cell, d, amount)
  {
    if amount > 0 then [Command(cell, d, amount)] else []
  }

  /** The element a random index `k` selects from a non-empty list (`k` modulo its length). */
  function Pick(ds: seq<Direction>, k: nat): (d: Direction)
    requires ds != []
    ensures d in ds
  {
    ds[k % |ds|]
  }

  /** `(int) (pop * num/den)` for the fixed fractions of the Frieren strategy. */
  function Scale(pop: nat, num: nat, den: nat): (r: nat)
    requires 0 < den && num <= den
    ensures r <= pop
  {
    MulMonotone(pop, num, den);
    DivAtMostBound(pop * num, den, pop);
    pop * num / den
  }

  lemma DivAtMost(n: nat, k: nat)
    requires k > 0
    ensures n / k <= n
  {
    var q := n / k;
    assert n == q * k + n % k;
    MulAtLeast(q, k);
  }

  lemma {:induction false} MulAtLeast(q: nat, k: nat)
    requires k >= 1
    ensures q <= q * k
  {
    if q > 0 {
      MulAtLeast(q - 1, k);
      assert q * k == (q - 1) * k + k;
    }
  }

  lemma MulMonotone(a: nat, b: nat, c: nat)
    requires b <= c
    ensures a * b <= a * c
  {
    assert a * c - a * b == a * (c - b);
  }

  /** A quotient by `k` of something at most `m * k` is at most `m`. */
  lemma DivAtMostBound(x: nat, k: nat, m: nat)
    requires k > 0 && x <= m * k
    ensures x / k <= m
  {
    var q := x / k;
    assert q * k <= x;
    assert (q - m) * k == q * k - m * k;
    MulSign(q - m, k);
  }

  /** The quotient is the only `q` that leaves a remainder in `[0, k)`. */
  lemma DivUnique(n: int, k: nat, q: int, r: int)
    requires k > 0 && n == q * k + r && 0 <= r < k
    ensures n / k == q
  {
    var q', r' := n / k, n % k;
    assert (q' - q) * k == r - r';
    MulSign(q' - q, k);
  }

  /** A multiple of a positive `k` by a non-zero integer is at least `k` away from zero. */
  lemma MulSign(a: int, k: nat)
    requires k >= 1
    ensures a >= 1 ==> a * k >= k
    ensures a <= -1 ==> a * k + k <= 0
  {
    if a >= 1 {
      MulAtLeast(k, a);
    } else if a <= -1 {
      var b: nat := -a;
      MulAtLeast(k, b);
      assert a * k + k * b == 0;
    }
  }
}
