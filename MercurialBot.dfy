/**
  The Mercurial bot. Before turn 16 (state 0) it opens with a fixed burst
  and then spreads each cell's usable population over its neighbours with a
  sequential, capped split. From turn 16 on (state 1) each sufficiently
  populated cell scans the four axes for the nearest enemy, attacks it with
  half its usable population, and then either saturates all four directions
  or expands according to where the cell lies relative to the base.
*/
module MercurialBot {
  import opened Grid

  /** After this turn the bot switches to state 1 for good. */
  const StateSwitchTurn := 15
  /** Smallest number of units a cell always keeps back. */
  const BaseReserve := 5
  /** A state-0 move never brings a destination above this population. */
  const DestinationCeiling := 100
  /** A state-0 move is made only if the destination reaches this population. */
  const ViabilityFloor := 5

  /* ---------------------------------------------------------------------- */
  /* Arithmetic                                                             */
  /* ---------------------------------------------------------------------- */

  function ISqrtFrom(n: nat, r: nat): (s: nat)
    requires r * r <= n
    ensures s * s <= n < (s + 1) * (s + 1)
    decreases n - r * r
  {
    if n < (r + 1) * (r + 1) then r
    else
      assert (r + 1) * (r + 1) == r * r + 2 * r + 1;
      ISqrtFrom(n, r + 1)
  }

  /** Integer square root: the floor of the real square root. */
  function ISqrt(n: nat): (s: nat)
    ensures s * s <= n < (s + 1) * (s + 1)
  {
    ISqrtFrom(n, 0)
  }

  /**
    The population a cell keeps back: the larger of 5 and the truncated
    square root of turn/4. For a negative turn the square root is undefined
    and its truncation is 0, so the reserve is 5.
  */
  function Reserve(turn: int): (r: nat)
    ensures r >= BaseReserve
    ensures r > BaseReserve ==> turn >= 0 && r * r <= turn / 4 < (r + 1) * (r + 1)
    ensures turn < 4 * 36 ==> r == BaseReserve
    ensures turn >= 4 * 25 ==> r * r <= turn / 4 < (r + 1) * (r + 1)
  {
    var root := if turn < 0 then 0 else ISqrt(turn / 4);
    if root > BaseReserve then root else BaseReserve
  }

  /** Division of integers rounding toward zero, as the JVM divides. */
  function TruncDiv(a: int, b: int): (q: int)
    requires b > 0
    ensures 0 <= a ==> 0 <= q && q * b <= a < q * b + b
    ensures a < 0 ==> q <= 0 && a <= q * b < a + b
  {
    if a >= 0 then a / b else -((-a) / b)
  }

  /** The population of `cell` beyond the reserve; negative when the cell is small. */
  function Usable(w: Snapshot, cell: Coord): (u: int)
    ensures u <= Population(w, cell) - BaseReserve
  {
    Population(w, cell) - Reserve(w.turn)
  }

  /* ---------------------------------------------------------------------- */
  /* Position relative to the base                                          */
  /* ---------------------------------------------------------------------- */

  /** The nine mutually exclusive positions of a cell relative to the base (y grows downwards). */
  datatype Quadrant =
    | Center
    | FacingRightDown | FacingRightUp | FacingLeftDown | FacingLeftUp
    | OnTop | OnBottom | OnTheRight | OnTheLeft

  function Classify(cell: Coord, base: Coord): (q: Quadrant)
    ensures q == Center <==> cell == base
    ensures q == FacingRightDown <==> cell.x > base.x && cell.y > base.y
    ensures q == FacingRightUp <==> cell.x > base.x && cell.y < base.y
    ensures q == FacingLeftDown <==> cell.x < base.x && cell.y > base.y
    ensures q == FacingLeftUp <==> cell.x < base.x && cell.y < base.y
    ensures q == OnTop <==> cell.x == base.x && cell.y < base.y
    ensures q == OnBottom <==> cell.x == base.x && cell.y > base.y
    ensures q == OnTheRight <==> cell.x > base.x && cell.y == base.y
    ensures q == OnTheLeft <==> cell.x < base.x && cell.y == base.y
  {
    if cell.x == base.x && cell.y == base.y then Center
    else if cell.x > base.x && cell.y > base.y then FacingRightDown
    else if cell.x > base.x && cell.y < base.y then FacingRightUp
    else if cell.x < base.x && cell.y > base.y then FacingLeftDown
    else if cell.x < base.x && cell.y < base.y then FacingLeftUp
    else if cell.x == base.x && cell.y < base.y then OnTop
    else if cell.x == base.x && cell.y > base.y then OnBottom
    else if cell.x > base.x && cell.y == base.y then OnTheRight
    else OnTheLeft
  }

  /* ---------------------------------------------------------------------- */
  /* Enemy scan and attack                                                  */
  /* ---------------------------------------------------------------------- */

  /** Which of the four axes shows an enemy cell at one distance. */
  datatype Sighting = Sighting(up: bool, down: bool, left: bool, right: bool)
  {
    predicate Any() { up || down || left || right }
  }

  const NoSighting := Sighting(false, false, false, false)

  /** What the four axes show `i` steps away from `cell`. */
  function SightingAt(w: Snapshot, cell: Coord, i: nat): Sighting
  {
    Sighting(
      IsHostile(w, Reach(w, cell, Up, i)),
      IsHostile(w, Reach(w, cell, Down, i)),
      IsHostile(w, Reach(w, cell, Left, i)),
      IsHostile(w, Reach(w, cell, Right, i)))
  }

  /** The sighting at the nearest distance in `i .. size-1` that shows an enemy, if any. */
  function FirstSighting(w: Snapshot, cell: Coord, i: nat, size: int): (s: Sighting)
    ensures s.Any() ==>
      exists k: nat :: i <= k < size && s == SightingAt(w, cell, k)
        && forall j: nat :: i <= j < k ==> !SightingAt(w, cell, j).Any()
    ensures !s.Any() ==> s == NoSighting && forall j: nat :: i <= j < size ==> !SightingAt(w, cell, j).Any()
    decreases size - i
  {
    if i >= size then NoSighting
    else if SightingAt(w, cell, i).Any() then SightingAt(w, cell, i)
    else FirstSighting(w, cell, i + 1, size)
  }

  /** Scans outwards up to the universe size and stops at the first distance showing an enemy. */
  method ScanForEnemy(w: Snapshot, cell: Coord) returns (s: Sighting)
    ensures s == FirstSighting(w, cell, 0, w.universeSize)
    ensures s.Any() ==>
      exists k: nat :: k < w.universeSize && s == SightingAt(w, cell, k)
        && forall j: nat :: j < k ==> !SightingAt(w, cell, j).Any()
    ensures !s.Any() ==> forall j: nat :: j < w.universeSize ==> !SightingAt(w, cell, j).Any()
  {
    s := NoSighting;
    var i: nat := 0;
    while i < w.universeSize
      invariant FirstSighting(w, cell, 0, w.universeSize) == FirstSighting(w, cell, i, w.universeSize)
      invariant !s.Any()
      decreases w.universeSize - i
    {
      s := SightingAt(w, cell, i);
      if s.Any() {
        return;
      }
      i := i + 1;
    }
    s := NoSighting;
  }

  predicate Flagged(s: Sighting, d: Direction)
  {
    match d
    case Up => s.up
    case Down => s.down
    case Left => s.left
    case Right => s.right
  }

  /** Attack priority: up, down, right, left. */
  function AttackRank(d: Direction): nat
  {
    match d
    case Up => 0
    case Down => 1
    case Right => 2
    case Left => 3
  }

  /** At most one attack, towards the highest-priority flagged axis, with half the usable population. */
  function Attack(cell: Coord, s: Sighting, usable: int): (r: seq<Command>)
    ensures |r| <= 1 && AllFrom(r, cell)
    ensures r == [] <==> !s.Any()
    ensures r != [] ==> r[0].amount == TruncDiv(usable, 2) && Flagged(s, r[0].dir)
    ensures r != [] ==> forall e :: AttackRank(e) < AttackRank(r[0].dir) ==> !Flagged(s, e)
  {
    var half := TruncDiv(usable, 2);
    if s.up then [Command(cell, Up, half)]
    else if s.down then [Command(cell, Down, half)]
    else if s.right then [Command(cell, Right, half)]
    else if s.left then [Command(cell, Left, half)]
    else []
  }

  /* ---------------------------------------------------------------------- */
  /* Uniform splits                                                         */
  /* ---------------------------------------------------------------------- */

  /** One command of `amount` from `cell` for each direction of `ds`, in order. */
  function Uniform(cell: Coord, ds: seq<Direction>, amount: int): (r: seq<Command>)
    ensures |r| == |ds| && AllFrom(r, cell)
    ensures forall k :: 0 <= k < |r| ==> r[k].dir == ds[k] && r[k].amount == amount
  {
    if ds == [] then []
    else Uniform(cell, ds[..|ds| - 1], amount) + [Command(cell, ds[|ds| - 1], amount)]
  }

  lemma {:induction false} TotalUniform(cell: Coord, ds: seq<Direction>, amount: int)
    ensures Total(Uniform(cell, ds, amount)) == |ds| * amount
  {
    if ds != [] {
      var init := ds[..|ds| - 1];
      TotalUniform(cell, init, amount);
      var u := Uniform(cell, ds, amount);
      assert u[..|u| - 1] == Uniform(cell, init, amount);
    }
  }

  /** A share of `u` split `n` ways, repeated `n` times, never exceeds `u`. */
  lemma SharesWithin(u: int, n: nat)
    requires u >= 0 && n > 0
    ensures 0 <= n * TruncDiv(u, n) <= u
  {
  }

  /** Sends the same amount along each direction of `ds`. */
  method SendEach(cell: Coord, ds: seq<Direction>, amount: int) returns (cmds: seq<Command>)
    ensures cmds == Uniform(cell, ds, amount)
    ensures Total(cmds) == |ds| * amount
  {
    cmds := [];
    for i := 0 to |ds|
      invariant cmds == Uniform(cell, ds[..i], amount)
    {
      assert ds[..i + 1][..i] == ds[..i];
      cmds := cmds + [Command(cell, ds[i], amount)];
    }
    assert ds[..|ds|] == ds;
    TotalUniform(cell, ds, amount);
  }

  /** Saturation: one command per direction of (usable - 1) / 4. */
  function Saturate(cell: Coord, usable: int): (r: seq<Command>)
    ensures |r| == 4 && AllFrom(r, cell)
    ensures forall k :: 0 <= k < 4 ==> r[k].dir == Directions[k] && r[k].amount == TruncDiv(usable - 1, 4)
  {
    Uniform(cell, Directions, TruncDiv(usable - 1, 4))
  }

  lemma SaturateWithin(cell: Coord, usable: int)
    requires usable >= 1
    ensures 0 <= Total(Saturate(cell, usable)) <= usable - 1
  {
    TotalUniform(cell, Directions, TruncDiv(usable - 1, 4));
  }

  /* ---------------------------------------------------------------------- */
  /* Inner / outer partition                                                */
  /* ---------------------------------------------------------------------- */

  /** Builds the lists of directions towards own cells (inner) and other cells (outer). */
  method SplitDirections(w: Snapshot, cell: Coord)
    returns (outerDirections: seq<Direction>, innerDirections: seq<Direction>, outerSplit: int, innerSplit: int)
    ensures innerDirections == Matching(w, cell, Owned, Directions) && innerSplit == |innerDirections|
    ensures outerDirections == Matching(w, cell, NotOwned, Directions) && outerSplit == |outerDirections|
    ensures innerSplit + outerSplit == 4
  {
    outerDirections, innerDirections := [], [];
    outerSplit, innerSplit := 0, 0;
    for i := 0 to |Directions|
      invariant innerDirections == Matching(w, cell, Owned, Directions[..i]) && innerSplit == |innerDirections|
      invariant outerDirections == Matching(w, cell, NotOwned, Directions[..i]) && outerSplit == |outerDirections|
    {
      var d := Directions[i];
      assert Directions[..i + 1] == Directions[..i] + [d];
      MatchingSnoc(w, cell, Owned, Directions[..i], d);
      MatchingSnoc(w, cell, NotOwned, Directions[..i], d);
      if !BelongsToMe(w, Neighbour(w, cell, d)) {
        outerSplit := outerSplit + 1;
        outerDirections := outerDirections + [d];
      } else {
        innerDirections := innerDirections + [d];
        innerSplit := innerSplit + 1;
      }
    }
    assert Directions[..|Directions|] == Directions;
    PartitionShape(w, cell);
  }

  lemma {:induction false} ComplementLengths(w: Snapshot, cell: Coord, ds: seq<Direction>)
    ensures |Matching(w, cell, Owned, ds)| + |Matching(w, cell, NotOwned, ds)| == |ds|
  {
    if ds != [] {
      ComplementLengths(w, cell, ds[..|ds| - 1]);
    }
  }

  /** The local shape of the territory around a cell. */
  datatype Shape = Corner | InnerHeavy | OuterHeavy

  function ShapeOf(innerSplit: int, outerSplit: int): Shape
  {
    if innerSplit == outerSplit then Corner
    else if innerSplit > outerSplit then InnerHeavy
    else OuterHeavy
  }

  /** Every direction is inner or outer and not both; the shape is decided by the 2-2, 3+ or 1- split. */
  lemma PartitionShape(w: Snapshot, cell: Coord)
    ensures var inner := Matching(w, cell, Owned, Directions);
      var outer := Matching(w, cell, NotOwned, Directions);
      && |inner| + |outer| == 4
      && (forall d :: d in inner <==> d !in outer)
      && (ShapeOf(|inner|, |outer|) == Corner <==> |inner| == 2 && |outer| == 2)
      && (ShapeOf(|inner|, |outer|) == InnerHeavy <==> |inner| >= 3)
      && (ShapeOf(|inner|, |outer|) == OuterHeavy <==> |outer| >= 3)
  {
    ComplementLengths(w, cell, Directions);
    SelectedDirections(w, cell, Owned);
    SelectedDirections(w, cell, NotOwned);
  }

  /* ---------------------------------------------------------------------- */
  /* State 1: attack, saturate or expand by quadrant                        */
  /* ---------------------------------------------------------------------- */

  /** The expansion of an inner cell, which depends on its quadrant. */
  function InnerPlan(cell: Coord, q: Quadrant, inner: seq<Direction>, u: int): (r: seq<Command>)
    requires |inner| > 0
    ensures AllFrom(r, cell)
  {
    var half := TruncDiv(u, 2);
    var third := TruncDiv(u, 3);
    match q
    case FacingLeftUp => [Command(cell, Left, half), Command(cell, Up, half)]
    case FacingLeftDown => [Command(cell, Left, half), Command(cell, Down, half)]
    case FacingRightUp => [Command(cell, Right, half), Command(cell, Up, half)]
    case FacingRightDown => [Command(cell, Right, half), Command(cell, Down, half)]
    case Center => if u > 4 then Uniform(cell, inner, TruncDiv(u, |inner|)) else [Command(cell, Up, u)]
    case OnTop => [Command(cell, Right, third), Command(cell, Up, third), Command(cell, Left, third)]
    case OnBottom => [Command(cell, Right, third), Command(cell, Down, third), Command(cell, Left, third)]
    case OnTheLeft => [Command(cell, Down, third), Command(cell, Up, third), Command(cell, Left, third)]
    case OnTheRight => [Command(cell, Right, third), Command(cell, Up, third), Command(cell, Down, third)]
  }

  /** The expansion once neither attack nor saturation consumed the turn. */
  function SplitPlan(w: Snapshot, cell: Coord, q: Quadrant, u: int): (r: seq<Command>)
    ensures AllFrom(r, cell)
  {
    var inner := Matching(w, cell, Owned, Directions);
    var outer := Matching(w, cell, NotOwned, Directions);
    match ShapeOf(|inner|, |outer|)
    case InnerHeavy => InnerPlan(cell, q, inner, u)
    case OuterHeavy => Uniform(cell, outer, TruncDiv(u, |outer|))
    case Corner => Uniform(cell, outer, TruncDiv(u, 2))
  }

  /** What a state-1 cell orders after the attack, with `u` units left: saturation or a split. */
  function RestPlan(w: Snapshot, cell: Coord, q: Quadrant, u: int): (r: seq<Command>)
    ensures AllFrom(r, cell)
  {
    if u >= w.saturateFrom then Saturate(cell, u) else SplitPlan(w, cell, q, u)
  }

  /** Everything a state-1 cell with `usable` spare units orders. */
  function State1Plan(w: Snapshot, cell: Coord, q: Quadrant, usable: int): (r: seq<Command>)
    ensures AllFrom(r, cell)
    ensures usable <= w.expandAbove ==> r == []
  {
    if usable <= w.expandAbove then []
    else AttackThenRest(w, cell, q, usable, FirstSighting(w, cell, 0, w.universeSize))
  }

  /** The attack on sighting `s`, then the rest of the plan with what the attack left. */
  function AttackThenRest(w: Snapshot, cell: Coord, q: Quadrant, usable: int, s: Sighting): (r: seq<Command>)
    ensures AllFrom(r, cell)
  {
    var attack := Attack(cell, s, usable);
    var u := usable - Total(attack);
    var rest := RestPlan(w, cell, q, u);
    AllFromConcat(attack, rest, cell);
    attack + rest
  }

  lemma AllFromConcat(a: seq<Command>, b: seq<Command>, cell: Coord)
    requires AllFrom(a, cell) && AllFrom(b, cell)
    ensures AllFrom(a + b, cell)
  {
  }

  predicate NonNegative(cmds: seq<Command>)
  {
    forall k :: 0 <= k < |cmds| ==> cmds[k].amount >= 0
  }

  lemma InnerPlanWithin(cell: Coord, q: Quadrant, inner: seq<Direction>, u: int)
    requires |inner| > 0 && u >= 0
    ensures NonNegative(InnerPlan(cell, q, inner, u))
    ensures Total(InnerPlan(cell, q, inner, u)) <= u
  {
    match q
    case Center =>
      if u > 4 {
        TotalUniform(cell, inner, TruncDiv(u, |inner|));
        SharesWithin(u, |inner|);
      } else {
        TotalOfOne(Command(cell, Up, u));
      }
    case FacingLeftUp => HalvesWithin(cell, Left, Up, u);
    case FacingLeftDown => HalvesWithin(cell, Left, Down, u);
    case FacingRightUp => HalvesWithin(cell, Right, Up, u);
    case FacingRightDown => HalvesWithin(cell, Right, Down, u);
    case OnTop => ThirdsWithin(cell, Right, Up, Left, u);
    case OnBottom => ThirdsWithin(cell, Right, Down, Left, u);
    case OnTheLeft => ThirdsWithin(cell, Down, Up, Left, u);
    case OnTheRight => ThirdsWithin(cell, Right, Up, Down, u);
  }

  /** Half of `u` along each of two directions. */
  lemma HalvesWithin(cell: Coord, a: Direction, b: Direction, u: int)
    requires u >= 0
    ensures NonNegative([Command(cell, a, TruncDiv(u, 2)), Command(cell, b, TruncDiv(u, 2))])
    ensures Total([Command(cell, a, TruncDiv(u, 2)), Command(cell, b, TruncDiv(u, 2))]) <= u
  {
    SharesWithin(u, 2);
    TotalOfTwo(Command(cell, a, TruncDiv(u, 2)), Command(cell, b, TruncDiv(u, 2)));
  }

  /** A third of `u` along each of three directions. */
  lemma ThirdsWithin(cell: Coord, a: Direction, b: Direction, c: Direction, u: int)
    requires u >= 0
    ensures NonNegative([Command(cell, a, TruncDiv(u, 3)), Command(cell, b, TruncDiv(u, 3)), Command(cell, c, TruncDiv(u, 3))])
    ensures Total([Command(cell, a, TruncDiv(u, 3)), Command(cell, b, TruncDiv(u, 3)), Command(cell, c, TruncDiv(u, 3))]) <= u
  {
    SharesWithin(u, 3);
    TotalOfThree(Command(cell, a, TruncDiv(u, 3)), Command(cell, b, TruncDiv(u, 3)), Command(cell, c, TruncDiv(u, 3)));
  }

  lemma TotalOfOne(a: Command)
    ensures Total([a]) == a.amount
  {
    assert [a][..0] == [];
  }

  lemma TotalOfTwo(a: Command, b: Command)
    ensures Total([a, b]) == a.amount + b.amount
  {
    assert [a, b][..1] == [a];
    TotalOfOne(a);
  }

  lemma TotalOfThree(a: Command, b: Command, c: Command)
    ensures Total([a, b, c]) == a.amount + b.amount + c.amount
  {
    assert [a, b, c][..2] == [a, b];
    TotalOfTwo(a, b);
  }

  lemma SplitPlanWithin(w: Snapshot, cell: Coord, q: Quadrant, u: int)
    requires u >= 0
    ensures NonNegative(SplitPlan(w, cell, q, u))
    ensures Total(SplitPlan(w, cell, q, u)) <= u
  {
    var inner := Matching(w, cell, Owned, Directions);
    var outer := Matching(w, cell, NotOwned, Directions);
    PartitionShape(w, cell);
    match ShapeOf(|inner|, |outer|)
    case InnerHeavy =>
      InnerPlanWithin(cell, q, inner, u);
    case OuterHeavy =>
      TotalUniform(cell, outer, TruncDiv(u, |outer|));
      SharesWithin(u, |outer|);
    case Corner =>
      TotalUniform(cell, outer, TruncDiv(u, 2));
      SharesWithin(u, 2);
  }

  lemma RestPlanWithin(w: Snapshot, cell: Coord, q: Quadrant, u: int)
    requires u >= 0
    ensures NonNegative(RestPlan(w, cell, q, u))
    ensures Total(RestPlan(w, cell, q, u)) <= u
  {
    if u >= w.saturateFrom {
      if u >= 1 {
        SaturateWithin(cell, u);
      } else {
        TotalUniform(cell, Directions, TruncDiv(u - 1, 4));
      }
    } else {
      SplitPlanWithin(w, cell, q, u);
    }
  }

  /**
    In state 1 a cell never orders more than its usable population, and no
    order is negative; the attack takes exactly half (rounded down) first.
  */
  lemma State1Within(w: Snapshot, cell: Coord, q: Quadrant, usable: int)
    requires usable >= 0
    ensures NonNegative(State1Plan(w, cell, q, usable))
    ensures Total(State1Plan(w, cell, q, usable)) <= usable
  {
    if usable > w.expandAbove {
      AttackThenRestWithin(w, cell, q, usable, FirstSighting(w, cell, 0, w.universeSize));
    }
  }

  /** The attack on sighting `s` followed by the rest of the plan stays within `usable`. */
  lemma AttackThenRestWithin(w: Snapshot, cell: Coord, q: Quadrant, usable: int, s: Sighting)
    requires usable >= 0
    ensures NonNegative(AttackThenRest(w, cell, q, usable, s))
    ensures Total(AttackThenRest(w, cell, q, usable, s)) <= usable
  {
    var attack := Attack(cell, s, usable);
    AttackWithin(cell, s, usable);
    var u := usable - Total(attack);
    var rest := RestPlan(w, cell, q, u);
    RestPlanWithin(w, cell, q, u);
    WithinConcat(attack, rest, Total(attack), u);
    assert AttackThenRest(w, cell, q, usable, s) == attack + rest;
  }

  /** Two lists of non-negative orders within their budgets stay, together, within the sum of the budgets. */
  lemma WithinConcat(a: seq<Command>, b: seq<Command>, ta: int, tb: int)
    requires NonNegative(a) && NonNegative(b) && Total(a) <= ta && Total(b) <= tb
    ensures NonNegative(a + b) && Total(a + b) <= ta + tb
  {
    TotalConcat(a, b);
    NonNegativeConcat(a, b);
  }

  lemma AttackWithin(cell: Coord, s: Sighting, usable: int)
    requires usable >= 0
    ensures NonNegative(Attack(cell, s, usable))
    ensures Total(Attack(cell, s, usable)) == if s.Any() then TruncDiv(usable, 2) else 0
  {
    var attack := Attack(cell, s, usable);
    if attack != [] {
      TotalOfOne(attack[0]);
    }
  }

  lemma NonNegativeConcat(a: seq<Command>, b: seq<Command>)
    requires NonNegative(a) && NonNegative(b)
    ensures NonNegative(a + b)
  {
    forall k | 0 <= k < |a + b| ensures (a + b)[k].amount >= 0 {
      if k >= |a| { assert (a + b)[k] == b[k - |a|]; }
    }
  }

  /* ---------------------------------------------------------------------- */
  /* State 0: sequential capped split                                       */
  /* ---------------------------------------------------------------------- */

  /** Population of the destination if it is one of our non-empty cells, else 0. */
  function DestinationPopulation(w: Snapshot, cell: Coord, d: Direction): nat
  {
    var n := Neighbour(w, cell, d);
    if BelongsToMe(w, n) && !IsEmpty(w, n) then Population(w, n) else 0
  }

  function Min(a: int, b: int): int { if a <= b then a else b }

  /**
    What direction `d` is offered when `remaining` units are still to be
    shared among `k` directions: an equal share, cut down so that the
    destination stays within the ceiling.
  */
  function Offer(w: Snapshot, cell: Coord, d: Direction, remaining: nat, k: nat): (m: int)
    requires k > 0
    ensures m <= remaining
    ensures m <= DestinationCeiling - DestinationPopulation(w, cell, d)
  {
    assert remaining / k <= remaining by { DivAtMost(remaining, k); }
    Min(remaining / k, DestinationCeiling - DestinationPopulation(w, cell, d))
  }

  /** An offer is taken only if it is positive and the destination ends up viable. */
  predicate Accepted(w: Snapshot, cell: Coord, d: Direction, m: int)
  {
    m > 0 && DestinationPopulation(w, cell, d) + m >= ViabilityFloor
  }

  /**
    The capped split of `remaining` over `ds`: each direction in turn is
    offered its share of what is left, and the offer is taken or passed on.
  */
  function CappedPlan(w: Snapshot, cell: Coord, ds: seq<Direction>, remaining: nat): (r: seq<Command>)
    ensures AllFrom(r, cell)
    decreases |ds|
  {
    if ds == [] then []
    else
      var m := Offer(w, cell, ds[0], remaining, |ds|);
      if Accepted(w, cell, ds[0], m) then
        [Command(cell, ds[0], m)] + CappedPlan(w, cell, ds[1..], remaining - m)
      else CappedPlan(w, cell, ds[1..], remaining)
  }

  /** A move the capped split can make. */
  predicate CappedMove(w: Snapshot, cell: Coord, c: Command)
  {
    && c.cell == cell
    && 0 < c.amount <= DestinationCeiling - DestinationPopulation(w, cell, c.dir)
    && DestinationPopulation(w, cell, c.dir) + c.amount >= ViabilityFloor
  }

  lemma TotalCons(c: Command, cmds: seq<Command>)
    ensures Total([c] + cmds) == c.amount + Total(cmds)
  {
    TotalConcat([c], cmds);
    assert [c][..0] == [];
  }

  /** Every capped move is positive, keeps its destination within the ceiling and makes it viable. */
  lemma {:induction false} CappedPlanMoves(w: Snapshot, cell: Coord, ds: seq<Direction>, remaining: nat)
    ensures forall c :: c in CappedPlan(w, cell, ds, remaining) ==> CappedMove(w, cell, c) && c.dir in ds
  {
    if ds != [] {
      var m := Offer(w, cell, ds[0], remaining, |ds|);
      var rest := if Accepted(w, cell, ds[0], m) then remaining - m else remaining;
      CappedPlanMoves(w, cell, ds[1..], rest);
      forall c | c in CappedPlan(w, cell, ds[1..], rest) ensures c.dir in ds {
        assert c.dir in ds[1..];
      }
    }
  }

  /** The capped moves never add up to more than was offered. */
  lemma {:induction false} CappedPlanTotal(w: Snapshot, cell: Coord, ds: seq<Direction>, remaining: nat)
    ensures 0 <= Total(CappedPlan(w, cell, ds, remaining)) <= remaining
  {
    if ds != [] {
      var m := Offer(w, cell, ds[0], remaining, |ds|);
      if Accepted(w, cell, ds[0], m) {
        CappedPlanTotal(w, cell, ds[1..], remaining - m);
        TotalCons(Command(cell, ds[0], m), CappedPlan(w, cell, ds[1..], remaining - m));
      } else {
        CappedPlanTotal(w, cell, ds[1..], remaining);
      }
    }
  }

  /** An equal share of at least the floor each leaves enough for the other directions. */
  lemma EqualShare(remaining: nat, k: nat)
    requires k >= 1 && ViabilityFloor * k <= remaining
    ensures ViabilityFloor <= remaining / k <= remaining
    ensures k == 1 ==> remaining / k == remaining
    ensures ViabilityFloor * (k - 1) <= remaining - remaining / k
  {
    // the share is the floor plus an equal share of the surplus
    var surplus := remaining - ViabilityFloor * k;
    DivAtMost(surplus, k);
    assert remaining == (surplus / k + ViabilityFloor) * k + surplus % k;
    DivUnique(remaining, k, surplus / k + ViabilityFloor, surplus % k);
  }

  /**
    When neither bound binds (no destination holds any of our units, every
    direction can be offered at least the viability floor, and the whole
    amount fits under the ceiling) the split hands out everything.
  */
  lemma {:induction false} CappedPlanExhausts(w: Snapshot, cell: Coord, ds: seq<Direction>, remaining: nat)
    requires ds != []
    requires forall d :: d in ds ==> DestinationPopulation(w, cell, d) == 0
    requires ViabilityFloor * |ds| <= remaining <= DestinationCeiling
    ensures Total(CappedPlan(w, cell, ds, remaining)) == remaining
    decreases |ds|
  {
    var k := |ds|;
    var m := remaining / k;
    assert ds[0] in ds;
    EqualShare(remaining, k);
    assert Offer(w, cell, ds[0], remaining, k) == m;
    var rest := CappedPlan(w, cell, ds[1..], remaining - m);
    TotalCons(Command(cell, ds[0], m), rest);
    if k == 1 {
      assert ds[1..] == [];
    } else {
      forall d | d in ds[1..] ensures DestinationPopulation(w, cell, d) == 0 {
        assert d in ds;
      }
      CappedPlanExhausts(w, cell, ds[1..], remaining - m);
    }
  }

  /** The loop of the capped split: what it emits and what it leaves. */
  method CappedSplit(w: Snapshot, cell: Coord, ds: seq<Direction>, usable: nat)
    returns (cmds: seq<Command>, remaining: nat)
    ensures cmds == CappedPlan(w, cell, ds, usable)
    ensures Total(cmds) + remaining == usable
  {
    cmds := [];
    remaining := usable;
    for i := 0 to |ds|
      invariant cmds + CappedPlan(w, cell, ds[i..], remaining) == CappedPlan(w, cell, ds, usable)
      invariant Total(cmds) + remaining == usable
    {
      var d := ds[i];
      ghost var suffix := ds[i..];
      assert suffix[0] == d && suffix[1..] == ds[i + 1..] && |suffix| == |ds| - i;
      var move := Offer(w, cell, d, remaining, |ds| - i);
      if Accepted(w, cell, d, move) {
        assert CappedPlan(w, cell, suffix, remaining)
            == [Command(cell, d, move)] + CappedPlan(w, cell, ds[i + 1..], remaining - move);
        remaining := remaining - move;
        TotalConcat(cmds, [Command(cell, d, move)]);
        assert [Command(cell, d, move)][..0] == [];
        cmds := cmds + [Command(cell, d, move)];
      } else {
        assert CappedPlan(w, cell, suffix, remaining) == CappedPlan(w, cell, ds[i + 1..], remaining);
      }
    }
    assert ds[|ds|..] == [];
    assert cmds + [] == cmds;
  }

  /** Everything a state-0 cell with `usable` spare units orders (outside the opening turns). */
  function State0Plan(w: Snapshot, cell: Coord, usable: int): (r: seq<Command>)
    ensures AllFrom(r, cell)
    ensures usable <= 0 ==> r == []
  {
    if usable <= 0 then []
    else
      var inner := Matching(w, cell, Owned, Directions);
      var outer := Matching(w, cell, NotOwned, Directions);
      if ShapeOf(|inner|, |outer|) == InnerHeavy then CappedPlan(w, cell, inner, usable)
      else CappedPlan(w, cell, outer, usable)
  }

  /**
    In state 0 every order is a capped move, and a cell orders at most its
    usable population: mostly to its own cells when it is surrounded by
    three or four of them, otherwise only to cells it does not own.
  */
  lemma State0Sound(w: Snapshot, cell: Coord, usable: int)
    ensures forall k :: 0 <= k < |State0Plan(w, cell, usable)| ==> CappedMove(w, cell, State0Plan(w, cell, usable)[k])
    ensures Total(State0Plan(w, cell, usable)) <= if usable < 0 then 0 else usable
    ensures |Matching(w, cell, Owned, Directions)| <= 2 ==>
      forall k :: 0 <= k < |State0Plan(w, cell, usable)| ==>
        !BelongsToMe(w, Neighbour(w, cell, State0Plan(w, cell, usable)[k].dir))
  {
    if usable > 0 {
      var inner := Matching(w, cell, Owned, Directions);
      var outer := Matching(w, cell, NotOwned, Directions);
      PartitionShape(w, cell);
      MatchingMembers(w, cell, NotOwned, Directions);
      var ds := if ShapeOf(|inner|, |outer|) == InnerHeavy then inner else outer;
      CappedPlanMoves(w, cell, ds, usable);
      CappedPlanTotal(w, cell, ds, usable);
      var r := State0Plan(w, cell, usable);
      assert r == CappedPlan(w, cell, ds, usable);
      forall k | 0 <= k < |r| ensures CappedMove(w, cell, r[k]) && r[k].dir in ds {
        assert r[k] in r;
      }
    }
  }

  /* ---------------------------------------------------------------------- */
  /* The turn                                                               */
  /* ---------------------------------------------------------------------- */

  /** The fixed opening burst of the first cell. */
  function Opening(cell: Coord): (r: seq<Command>)
    ensures |r| == 4 && AllFrom(r, cell)
    ensures forall k :: 0 <= k < 4 ==> r[k].dir == Directions[k]
  {
    [Command(cell, Up, 20), Command(cell, Down, 25), Command(cell, Left, 25), Command(cell, Right, 25)]
  }

  /** The opening sends 95 units, whatever the population of the cell. */
  lemma OpeningTotal(cell: Coord)
    ensures Total(Opening(cell)) == 95
  {
    var r := Opening(cell);
    assert r[..1][..0] == [];
    assert Total(r[..1]) == 20;
    assert r[..2][..1] == r[..1];
    assert Total(r[..2]) == 45;
    assert r[..3][..2] == r[..2];
    assert Total(r[..3]) == 70;
    assert r[..|r| - 1] == r[..3];
  }

  predicate IsOpeningTurn(w: Snapshot, state: int)
  {
    state != 1 && (w.turn == 1 || w.turn == 2)
  }

  /** The orders of one cell outside the opening turns. */
  function CellPlan(w: Snapshot, cell: Coord, base: Coord, state: int): (r: seq<Command>)
    ensures AllFrom(r, cell)
  {
    if state == 1 then State1Plan(w, cell, Classify(cell, base), Usable(w, cell))
    else State0Plan(w, cell, Usable(w, cell))
  }

  /** The orders of the cells of `cells`, in order. */
  function CellsPlan(w: Snapshot, base: Coord, state: int, cells: seq<Coord>): seq<Command>
  {
    if cells == [] then []
    else CellsPlan(w, base, state, cells[..|cells| - 1]) + CellPlan(w, cells[|cells| - 1], base, state)
  }

  lemma CellsPlanSnoc(w: Snapshot, base: Coord, state: int, cells: seq<Coord>, cell: Coord)
    ensures CellsPlan(w, base, state, cells + [cell]) == CellsPlan(w, base, state, cells) + CellPlan(w, cell, base, state)
  {
    assert (cells + [cell])[..|cells + [cell]| - 1] == cells;
  }

  /** The plan of one more cell of `cells` extends the plan of the cells before it. */
  lemma CellsPlanPrefix(w: Snapshot, base: Coord, state: int, cells: seq<Coord>, i: nat)
    requires i < |cells|
    ensures CellsPlan(w, base, state, cells[..i + 1]) == CellsPlan(w, base, state, cells[..i]) + CellPlan(w, cells[i], base, state)
  {
    assert cells[..i + 1] == cells[..i] + [cells[i]];
    CellsPlanSnoc(w, base, state, cells[..i], cells[i]);
  }

  /** All orders of a turn, given the base and the state after the update. */
  function TurnPlan(w: Snapshot, base: Coord, state: int): seq<Command>
  {
    if IsOpeningTurn(w, state) then
      if w.myCells == [] then [] else Opening(w.myCells[0])
    else CellsPlan(w, base, state, w.myCells)
  }

  /** Every order leaves from one of the listed cells. */
  lemma {:induction false} CellsPlanFromCells(w: Snapshot, base: Coord, state: int, cells: seq<Coord>)
    ensures forall c :: c in CellsPlan(w, base, state, cells) ==> c.cell in cells
  {
    if cells != [] {
      var init, last := cells[..|cells| - 1], cells[|cells| - 1];
      CellsPlanFromCells(w, base, state, init);
      var p := CellPlan(w, last, base, state);
      forall c | c in p ensures c.cell == last {
        var k :| 0 <= k < |p| && p[k] == c;
      }
    }
  }

  /**
    On an opening turn only the first cell moves, with the fixed burst;
    on every other turn every order leaves from one of our cells.
  */
  lemma TurnPlanOrigins(w: Snapshot, base: Coord, state: int)
    ensures IsOpeningTurn(w, state) && w.myCells != [] ==>
      TurnPlan(w, base, state) == Opening(w.myCells[0])
    ensures forall c :: c in TurnPlan(w, base, state) ==> c.cell in w.myCells
  {
    if IsOpeningTurn(w, state) {
      if w.myCells != [] {
        var r := Opening(w.myCells[0]);
        forall c | c in r ensures c.cell in w.myCells {
          var k :| 0 <= k < |r| && r[k] == c;
        }
      }
    } else {
      CellsPlanFromCells(w, base, state, w.myCells);
    }
  }

  /** The attack step: at most one command, and the usable population it leaves. */
  method AttackStep(cell: Coord, sighting: Sighting, usable: int) returns (cmds: seq<Command>, left: int)
    ensures cmds == Attack(cell, sighting, usable)
    ensures left == usable - Total(cmds)
  {
    var half := TruncDiv(usable, 2);
    cmds := [];
    left := usable;
    if sighting.up {
      cmds := [Command(cell, Up, half)];
    } else if sighting.down {
      cmds := [Command(cell, Down, half)];
    } else if sighting.right {
      cmds := [Command(cell, Right, half)];
    } else if sighting.left {
      cmds := [Command(cell, Left, half)];
    }
    if cmds != [] {
      assert Total(cmds) == Total(cmds[..0]) + cmds[0].amount;
      left := usable - half;
    }
  }

  /** After the attack: saturation, or the split chosen by the local shape and the quadrant. */
  method SaturateOrSplit(w: Snapshot, cell: Coord, quadrant: Quadrant, usablePopulation: int)
    returns (cmds: seq<Command>)
    ensures cmds == RestPlan(w, cell, quadrant, usablePopulation)
  {
    if usablePopulation >= w.saturateFrom {
      cmds := SendEach(cell, Directions, TruncDiv(usablePopulation - 1, 4));
    } else {
      var outerDirections, innerDirections, outerSplit, innerSplit := SplitDirections(w, cell);
      var shape := ShapeOf(innerSplit, outerSplit);
      if shape == InnerHeavy {
        cmds := ExpandInner(cell, quadrant, innerDirections, usablePopulation);
      } else if shape == OuterHeavy {
        cmds := SendEach(cell, outerDirections, TruncDiv(usablePopulation, outerSplit));
      } else {
        cmds := SendEach(cell, outerDirections, TruncDiv(usablePopulation, 2));
      }
    }
  }

  /** One state-1 cell: threshold, scan, attack, then saturation or split. */
  method PlanState1(w: Snapshot, cell: Coord, quadrant: Quadrant, usable: int) returns (cmds: seq<Command>)
    ensures cmds == State1Plan(w, cell, quadrant, usable)
  {
    if usable <= w.expandAbove {
      return [];
    }
    var sighting := ScanForEnemy(w, cell);
    var attack, usablePopulation := AttackStep(cell, sighting, usable);
    var rest := SaturateOrSplit(w, cell, quadrant, usablePopulation);
    cmds := attack + rest;
    assert AttackThenRest(w, cell, quadrant, usable, sighting) == attack + RestPlan(w, cell, quadrant, usablePopulation);
  }

  /** The quadrant branch of an inner cell in state 1. */
  method ExpandInner(cell: Coord, quadrant: Quadrant, innerDirections: seq<Direction>, usablePopulation: int)
    returns (cmds: seq<Command>)
    requires |innerDirections| > 0
    ensures cmds == InnerPlan(cell, quadrant, innerDirections, usablePopulation)
  {
    var half := TruncDiv(usablePopulation, 2);
    var third := TruncDiv(usablePopulation, 3);
    match quadrant
    case FacingLeftUp => cmds := [Command(cell, Left, half), Command(cell, Up, half)];
    case FacingLeftDown => cmds := [Command(cell, Left, half), Command(cell, Down, half)];
    case FacingRightUp => cmds := [Command(cell, Right, half), Command(cell, Up, half)];
    case FacingRightDown => cmds := [Command(cell, Right, half), Command(cell, Down, half)];
    case Center =>
      if usablePopulation > 4 {
        cmds := SendEach(cell, innerDirections, TruncDiv(usablePopulation, |innerDirections|));
      } else {
        cmds := [Command(cell, Up, usablePopulation)];
      }
    case OnTop => cmds := [Command(cell, Right, third), Command(cell, Up, third), Command(cell, Left, third)];
    case OnBottom => cmds := [Command(cell, Right, third), Command(cell, Down, third), Command(cell, Left, third)];
    case OnTheLeft => cmds := [Command(cell, Down, third), Command(cell, Up, third), Command(cell, Left, third)];
    case OnTheRight => cmds := [Command(cell, Right, third), Command(cell, Up, third), Command(cell, Down, third)];
  }

  /** One state-0 cell outside the opening turns. */
  method PlanState0(w: Snapshot, cell: Coord, usable: int) returns (cmds: seq<Command>)
    ensures cmds == State0Plan(w, cell, usable)
  {
    cmds := [];
    if usable > 0 {
      var outerDirections, innerDirections, outerSplit, innerSplit := SplitDirections(w, cell);
      var rest: nat;
      if ShapeOf(innerSplit, outerSplit) == InnerHeavy {
        cmds, rest := CappedSplit(w, cell, innerDirections, usable);
      } else {
        cmds, rest := CappedSplit(w, cell, outerDirections, usable);
      }
    }
  }

  /** One cell outside the opening turns, dispatched on the state. */
  method PlanCell(w: Snapshot, cell: Coord, base: Coord, state: int) returns (cmds: seq<Command>)
    ensures cmds == CellPlan(w, cell, base, state)
  {
    var usablePopulation := Population(w, cell) - Reserve(w.turn);
    if state == 1 {
      cmds := PlanState1(w, cell, Classify(cell, base), usablePopulation);
    } else {
      cmds := PlanState0(w, cell, usablePopulation);
    }
  }

  /** The loop over the cells; on an opening turn it stops after the first. */
  method PlanTurn(w: Snapshot, base: Coord, state: int, commandList: seq<Command>) returns (commands: seq<Command>)
    ensures commands == commandList + TurnPlan(w, base, state)
  {
    commands := commandList;
    var i := 0;
    while i < |w.myCells|
      invariant 0 <= i <= |w.myCells|
      invariant IsOpeningTurn(w, state) ==> i == 0 && commands == commandList
      invariant !IsOpeningTurn(w, state) ==> commands == commandList + CellsPlan(w, base, state, w.myCells[..i])
    {
      var cell := w.myCells[i];
      if state != 1 && (w.turn == 1 || w.turn == 2) {
        commands := commands + [Command(cell, Up, 20), Command(cell, Down, 25),
                                Command(cell, Left, 25), Command(cell, Right, 25)];
        assert commands == commandList + TurnPlan(w, base, state);
        break;
      }
      assert !IsOpeningTurn(w, state);
      var cellCommands := PlanCell(w, cell, base, state);
      CellsPlanPrefix(w, base, state, w.myCells, i);
      AppendAssoc(commandList, CellsPlan(w, base, state, w.myCells[..i]), cellCommands);
      commands := commands + cellCommands;
      i := i + 1;
    }
    if !IsOpeningTurn(w, state) {
      assert w.myCells[..|w.myCells|] == w.myCells;
    }
  }

  class Mercurial {
    /** The first cell the bot saw: the base the quadrants are relative to. */
    var initialCoordinates: Option<Coord>
    /** 0 during the opening phase, 1 once the turn has passed 15. */
    var state: int

    predicate Valid()
      reads this
    {
      state == 0 || state == 1
    }

    constructor()
      ensures Valid() && initialCoordinates.None? && state == 0
    {
      initialCoordinates := None;
      state := 0;
    }

    /**
      One turn. `ok` is false when the bot has no base yet and owns no cell,
      where the bot fails reading the first cell; nothing changes then.
    */
    method GetNextCommands(w: Snapshot, commandList: seq<Command>) returns (ok: bool, commands: seq<Command>)
      requires Valid()
      modifies this
      ensures Valid()
      ensures ok <==> old(initialCoordinates).Some? || w.myCells != []
      ensures !ok ==> commands == commandList && initialCoordinates == old(initialCoordinates) && state == old(state)
      ensures ok ==> initialCoordinates == if old(initialCoordinates).Some? then old(initialCoordinates) else Some(w.myCells[0])
      ensures ok ==> state == if w.turn > StateSwitchTurn then 1 else old(state)
      ensures old(state) == 1 ==> state == 1
      ensures ok ==> commands == commandList + TurnPlan(w, initialCoordinates.value, state)
    {
      if initialCoordinates.None? {
        if w.myCells == [] {
          return false, commandList;
        }
        initialCoordinates := Some(w.myCells[0]);
      }
      ok := true;
      if w.turn > StateSwitchTurn {
        state := 1;
      }
      commands := PlanTurn(w, initialCoordinates.value, state, commandList);
    }
  }
}
