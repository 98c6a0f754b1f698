/**
  The QuantumConqueror strategy. Every turn it records, for each of its
  cells, how many enemy cells surround it (its gravity), then lets every
  cell above ten units act: before turn 50 it expands 70% of its population
  (a truncated double product) towards a random neighbour that is not its
  own; afterwards a cell above fifty units attacks the first enemy
  neighbour with half of its population (or, with no enemy around, sends a
  third towards a random open neighbour), and a smaller cell sends a
  quarter towards a random open neighbour.
*/
module QuantumConquerorBot {
  import opened Grid
  import opened BotUtils

  const TurnThreshold := 50
  const MinimumPopulationThreshold := 10
  const AggressivePopulationThreshold := 50

  /** Number of enemy cells among the four neighbours. */
  function Gravity(w: Snapshot, cell: Coord): nat
  {
    |Matching(w, cell, Hostile, Directions)|
  }

  /* ---------------------------------------------------------------------- */
  /* The first enemy direction                                              */
  /* ---------------------------------------------------------------------- */

  /** The first direction of `ds` whose neighbour is an enemy cell. */
  function FirstHostile(w: Snapshot, cell: Coord, ds: seq<Direction>): Option<Direction>
    decreases |ds|
  {
    if ds == [] then None
    else
      var before := FirstHostile(w, cell, ds[..|ds| - 1]);
      if before.Some? then before
      else if IsHostile(w, Neighbour(w, cell, ds[|ds| - 1])) then Some(ds[|ds| - 1])
      else None
  }

  /**
    `FirstHostile` finds an enemy direction exactly when there is one, and the
    one it finds is preceded in `ds` by no enemy direction.
  */
  lemma {:induction false} FirstHostileIsFirst(w: Snapshot, cell: Coord, ds: seq<Direction>)
    ensures FirstHostile(w, cell, ds).None? <==> forall d :: d in ds ==> !IsHostile(w, Neighbour(w, cell, d))
    ensures FirstHostile(w, cell, ds).Some? ==>
              exists i :: 0 <= i < |ds| && ds[i] == FirstHostile(w, cell, ds).value
                && IsHostile(w, Neighbour(w, cell, ds[i]))
                && forall j :: 0 <= j < i ==> !IsHostile(w, Neighbour(w, cell, ds[j]))
    decreases |ds|
  {
    if ds != [] {
      var init, last := ds[..|ds| - 1], ds[|ds| - 1];
      FirstHostileIsFirst(w, cell, init);
      assert ds == init + [last];
      var before := FirstHostile(w, cell, init);
      if before.Some? {
        var i :| 0 <= i < |init| && init[i] == before.value
          && IsHostile(w, Neighbour(w, cell, init[i]))
          && forall j :: 0 <= j < i ==> !IsHostile(w, Neighbour(w, cell, init[j]));
        assert ds[i] == init[i];
        forall j | 0 <= j < i ensures !IsHostile(w, Neighbour(w, cell, ds[j])) {
          assert ds[j] == init[j];
        }
      } else if IsHostile(w, Neighbour(w, cell, last)) {
        forall j | 0 <= j < |ds| - 1 ensures !IsHostile(w, Neighbour(w, cell, ds[j])) {
          assert ds[j] in init;
        }
      }
    }
  }

  /**
    Every enemy neighbour is also one the bot may move to, so scanning the
    available directions finds the same enemy as scanning all four.
  */
  lemma {:induction false} FirstHostileAmongOpen(w: Snapshot, cell: Coord, ds: seq<Direction>)
    ensures FirstHostile(w, cell, Matching(w, cell, Open, ds)) == FirstHostile(w, cell, ds)
    decreases |ds|
  {
    if ds != [] {
      var init, last := ds[..|ds| - 1], ds[|ds| - 1];
      FirstHostileAmongOpen(w, cell, init);
      var m := Matching(w, cell, Open, init);
      if Holds(w, Open, Neighbour(w, cell, last)) {
        assert Matching(w, cell, Open, ds) == m + [last];
        assert (m + [last])[..|m + [last]| - 1] == m;
      } else {
        assert Matching(w, cell, Open, ds) == m;
      }
    }
  }

  /* ---------------------------------------------------------------------- */
  /* The early expansion share, (int) (population * 0.7)                     */
  /* ---------------------------------------------------------------------- */

  /*
    The bot multiplies by the double 0.7, which is not seven tenths: it is
    SevenTenths / 2^53, a little below. The product is rounded to the
    nearest double (ties to even) and then truncated to an int. Quantities
    below are counted in units of 2^-53.
  */

  const Two53: nat := 0x20_0000_0000_0000
  /** The double nearest to 0.7, times 2^53; ten times it is 7 * 2^53 - 4. */
  const SevenTenths: nat := 6305039478318694
  /** The largest Java int. */
  const MaxInt: nat := 0x7fff_ffff

  function Pow2(k: nat): (r: nat)
    ensures r >= 1
  {
    if k == 0 then 1 else 2 * Pow2(k - 1)
  }

  /** The binary exponent of `x`. */
  function Log2(x: nat): (k: nat)
    requires x >= 1
    ensures Pow2(k) <= x < 2 * Pow2(k)
  {
    if x < 2 then 0 else 1 + Log2(x / 2)
  }

  /**
    `q` rounded to a multiple of `u`: to the nearest one, and on a tie to the
    one whose quotient by `u` is even.
  */
  function RoundHalfEven(q: nat, u: nat): (x: nat)
    requires u >= 1
    ensures 2 * q <= 2 * x + u && 2 * x <= 2 * q + u
    ensures 2 * (q % u) != u ==> 2 * q < 2 * x + u && 2 * x < 2 * q + u
  {
    assert 0 <= q % u < u && q % u <= q;
    RoundFrom(q, q % u, u, (q / u) % 2 == 1)
  }

  /**
    `q` less its remainder `rem` modulo `u`, moved up by `u` when the
    remainder lies past the midpoint, or on it with an odd quotient.
  */
  function RoundFrom(q: nat, rem: nat, u: nat, odd: bool): (x: nat)
    requires rem <= q && rem < u
    ensures 2 * q <= 2 * x + u && 2 * x <= 2 * q + u
    ensures 2 * rem != u ==> 2 * q < 2 * x + u && 2 * x < 2 * q + u
  {
    if 2 * rem > u || (2 * rem == u && odd) then q - rem + u else q - rem
  }

  /**
    The double nearest to `p * 0.7`, in units of 2^-53, when it is at least
    one: the exact product lies in [2^e, 2^(e+1)) for `e == Log2(q / 2^53)`,
    where doubles are `2 * 2^e` units apart. It is off by less than `p`.
  */
  function RoundedProduct(p: nat): (x: nat)
    requires p * SevenTenths >= Two53
    ensures p * SevenTenths - p < x < p * SevenTenths + p
  {
    var q := p * SevenTenths;
    var e := Pow2(Log2(q / Two53));
    assert e * Two53 <= q < p * Two53;
    RoundHalfEven(q, 2 * e)
  }

  /** Java's `(int) (p * 0.7)`: the rounded product, truncated to an integer. */
  function SevenTenthsOf(p: nat): (r: nat)
    ensures r <= p
    ensures p >= 2 ==> r >= 1
  {
    if p * SevenTenths < Two53 then 0 else RoundedProduct(p) / Two53
  }

  /**
    For every int population the share is seven tenths rounded down, or one
    less when the population is a multiple of ten.
  */
  lemma SevenTenthsNearExact(p: nat)
    requires p <= MaxInt
    ensures p * 7 / 10 - 1 <= SevenTenthsOf(p) <= p * 7 / 10
    ensures p % 10 != 0 ==> SevenTenthsOf(p) == p * 7 / 10
  {
    var n := p * 7 / 10;
    assert 10 * n <= 7 * p <= 10 * n + 9;
    if p % 10 != 0 {
      SeventhMultipleNotTen(p);
    }
    if p * SevenTenths >= Two53 {
      var x := RoundedProduct(p);
      assert 10 * (p * SevenTenths) == 7 * p * Two53 - 4 * p;
      assert 10 * x < 10 * (n + 1) * Two53;
      assert p % 10 != 0 ==> 10 * x >= 10 * n * Two53;
      assert 10 * x >= 10 * (n - 1) * Two53;
    }
  }

  /** Seven times a number that is not a multiple of ten is not one either. */
  lemma SeventhMultipleNotTen(p: nat)
    requires p % 10 != 0
    ensures 10 * (p * 7 / 10) < 7 * p
  {
    var a, b := p / 10, p % 10;
    assert p == 10 * a + b && 1 <= b <= 9;
    DivUnique(7 * p, 10, 7 * a + 7 * b / 10, 7 * b % 10);
    assert 7 * b % 10 != 0;
  }

  /** At ninety units the share is 62, one below seven tenths. */
  lemma SevenTenthsOfNinety()
    ensures SevenTenthsOf(90) == 62 && 90 * 7 / 10 == 63
  {
    var q := 90 * SevenTenths;
    assert q / Two53 == 62;
    BinadeOfSixtyTwo();
    assert q % 64 == 28;
    assert RoundedProduct(90) == q - 28;
  }

  /** 62 lies in [2^5, 2^6). */
  lemma BinadeOfSixtyTwo()
    ensures Log2(62) == 5 && Pow2(5) == 32
  {
    assert Log2(1) == 0 && Log2(3) == 1 && Log2(7) == 2 && Log2(15) == 3 && Log2(31) == 4;
    assert Pow2(1) == 2 && Pow2(2) == 4 && Pow2(3) == 8 && Pow2(4) == 16;
  }

  /* ---------------------------------------------------------------------- */
  /* Plans                                                                  */
  /* ---------------------------------------------------------------------- */

  /** Early expansion: `(int) (population * 0.7)` towards a random open neighbour. */
  function ExpansionPlan(w: Snapshot, cell: Coord, population: nat, k: nat): seq<Command>
  {
    var directions := Matching(w, cell, Open, Directions);
    if directions == [] then [] else Move(cell, Pick(directions, k), SevenTenthsOf(population))
  }

  /** Half the population to the first enemy neighbour, otherwise a third to a random open neighbour. */
  function AggressivePlan(w: Snapshot, cell: Coord, population: nat, k: nat): seq<Command>
  {
    var directions := Matching(w, cell, Open, Directions);
    if directions == [] then []
    else
      match FirstHostile(w, cell, directions)
      case Some(d) => Move(cell, d, population / 2)
      case None => Move(cell, Pick(directions, k), population / 3)
  }

  /** A quarter of the cell's population towards a random open neighbour. */
  function ConsolidatePlan(w: Snapshot, cell: Coord, k: nat): seq<Command>
  {
    var directions := Matching(w, cell, Open, Directions);
    if directions == [] then [] else Move(cell, Pick(directions, k), Population(w, cell) / 4)
  }

  /** The decision of a cell that holds more than the minimum population. */
  function ExpandOrDefendPlan(w: Snapshot, cell: Coord, population: nat, k: nat): seq<Command>
  {
    if w.turn < TurnThreshold then ExpansionPlan(w, cell, population, k)
    else if population > AggressivePopulationThreshold then AggressivePlan(w, cell, population, k)
    else ConsolidatePlan(w, cell, k)
  }

  /** The orders of one cell this turn. */
  function CellPlan(w: Snapshot, cell: Coord, pick: Coord -> nat): seq<Command>
  {
    var population := Population(w, cell);
    if population > MinimumPopulationThreshold then ExpandOrDefendPlan(w, cell, population, pick(cell)) else []
  }

  function TurnPlan(w: Snapshot, cells: seq<Coord>, pick: Coord -> nat): seq<Command>
  {
    if cells == [] then []
    else TurnPlan(w, cells[..|cells| - 1], pick) + CellPlan(w, cells[|cells| - 1], pick)
  }

  lemma TurnPlanSnoc(w: Snapshot, cells: seq<Coord>, cell: Coord, pick: Coord -> nat)
    ensures TurnPlan(w, cells + [cell], pick) == TurnPlan(w, cells, pick) + CellPlan(w, cell, pick)
  {
    assert (cells + [cell])[..|cells + [cell]| - 1] == cells;
  }

  /**
    A cell orders at most one move. It stays silent exactly when it holds at
    most ten units or every neighbour is its own; otherwise it moves a
    positive amount, not above its population, towards a neighbour that is
    not its own. Before turn 50 it sends the truncated double product
    `population * 0.7`, which for an int population is seven tenths rounded
    down, or one less at a multiple of ten. After turn 50 a cell above fifty units with an enemy
    neighbour sends half its population to the first enemy neighbour in the
    API's direction order; without an enemy neighbour it sends a third.
  */
  lemma CellPlanSound(w: Snapshot, cell: Coord, pick: Coord -> nat)
    ensures var r := CellPlan(w, cell, pick);
      var population := Population(w, cell);
      && |r| <= 1 && AllFrom(r, cell)
      && (r == [] <==> population <= MinimumPopulationThreshold
                       || forall d :: !Holds(w, Open, Neighbour(w, cell, d)))
      && (r != [] ==> 0 < r[0].amount <= population && Holds(w, Open, Neighbour(w, cell, r[0].dir)))
      && (r != [] && w.turn < TurnThreshold ==>
            && r[0].amount == SevenTenthsOf(population)
            && (population <= MaxInt ==>
                  && population * 7 / 10 - 1 <= r[0].amount <= population * 7 / 10
                  && (population % 10 != 0 ==> r[0].amount == population * 7 / 10)))
      && (r != [] && w.turn >= TurnThreshold && population > AggressivePopulationThreshold ==>
            if FirstHostile(w, cell, Directions).Some?
            then r[0].dir == FirstHostile(w, cell, Directions).value && r[0].amount == population / 2
            else r[0].amount == population / 3)
      && (r != [] && w.turn >= TurnThreshold && population <= AggressivePopulationThreshold ==>
            r[0].amount == population / 4)
  {
    SelectedDirections(w, cell, Open);
    var population := Population(w, cell);
    var directions := Matching(w, cell, Open, Directions);
    if directions == [] {
      forall d ensures !Holds(w, Open, Neighbour(w, cell, d)) {
        assert d !in directions;
      }
    } else {
      assert directions[0] in directions;
      if w.turn < TurnThreshold {
        if population <= MaxInt {
          SevenTenthsNearExact(population);
        }
      } else if population > AggressivePopulationThreshold {
        FirstHostileAmongOpen(w, cell, Directions);
        var f := FirstHostile(w, cell, directions);
        if f.Some? {
          FirstHostileIsFirst(w, cell, directions);
          MatchingMembers(w, cell, Open, Directions);
        }
      }
    }
  }

  /** The turn's orders come one at most per listed cell, each from that cell to a neighbour that is not its own. */
  lemma {:induction false} TurnPlanSound(w: Snapshot, cells: seq<Coord>, pick: Coord -> nat)
    ensures |TurnPlan(w, cells, pick)| <= |cells|
    ensures forall c :: c in TurnPlan(w, cells, pick) ==>
              && c.cell in cells
              && 0 < c.amount <= Population(w, c.cell)
              && Holds(w, Open, Neighbour(w, c.cell, c.dir))
  {
    if cells != [] {
      var init, last := cells[..|cells| - 1], cells[|cells| - 1];
      TurnPlanSound(w, init, pick);
      CellPlanSound(w, last, pick);
      var p := CellPlan(w, last, pick);
      forall c | c in p ensures c.cell == last {
        var k :| 0 <= k < |p| && p[k] == c;
      }
    }
  }

  /* ---------------------------------------------------------------------- */
  /* Handler methods                                                        */
  /* ---------------------------------------------------------------------- */

  /** Scans the open directions in order and attacks the first enemy neighbour, if any. */
  method HandleAggressiveMove(w: Snapshot, cell: Coord, commandList: seq<Command>, currentPopulation: nat,
                              directions: seq<Direction>, k: nat)
    returns (commands: seq<Command>)
    requires directions == Matching(w, cell, Open, Directions)
    ensures commands == commandList + AggressivePlan(w, cell, currentPopulation, k)
  {
    commands := commandList;
    if directions != [] {
      for i := 0 to |directions|
        invariant FirstHostile(w, cell, directions[..i]).None?
      {
        var direction := directions[i];
        var neighbor := Neighbour(w, cell, direction);
        assert directions[..i + 1][..i] == directions[..i];
        assert directions[..i + 1][i] == direction;
        if !BelongsToMe(w, neighbor) && !IsEmpty(w, neighbor) {
          assert FirstHostile(w, cell, directions[..i + 1]) == Some(direction);
          FirstHostilePrefix(w, cell, directions, i + 1);
          commands := commands + Move(cell, direction, currentPopulation / 2);
          return;
        }
        assert FirstHostile(w, cell, directions[..i + 1]).None?;
      }
      assert directions[..|directions|] == directions;
      var expansionDir := directions[k % |directions|];
      commands := commands + Move(cell, expansionDir, currentPopulation / 3);
    } else {
      assert commands == commands + [];
    }
  }

  /** Once a prefix of `ds` holds an enemy direction, the whole list has the same first one. */
  lemma {:induction false} FirstHostilePrefix(w: Snapshot, cell: Coord, ds: seq<Direction>, n: nat)
    requires n <= |ds| && FirstHostile(w, cell, ds[..n]).Some?
    ensures FirstHostile(w, cell, ds) == FirstHostile(w, cell, ds[..n])
    decreases |ds| - n
  {
    if n < |ds| {
      assert ds[..n + 1][..n] == ds[..n];
      FirstHostilePrefix(w, cell, ds, n + 1);
    } else {
      assert ds[..n] == ds;
    }
  }

  method Consolidate(w: Snapshot, cell: Coord, commandList: seq<Command>, k: nat)
    returns (commands: seq<Command>)
    ensures commands == commandList + ConsolidatePlan(w, cell, k)
  {
    commands := commandList;
    var directions := GetAvailableDirections(w, cell);
    if directions != [] {
      var direction := directions[k % |directions|];
      var populationToMove := Population(w, cell) / 4;
      commands := commands + Move(cell, direction, populationToMove);
    } else {
      assert commands == commands + [];
    }
  }

  method ExpandOrDefend(w: Snapshot, cell: Coord, commandList: seq<Command>, currentPopulation: nat, k: nat)
    returns (commands: seq<Command>)
    ensures commands == commandList + ExpandOrDefendPlan(w, cell, currentPopulation, k)
  {
    commands := commandList;
    var directions := GetAvailableDirections(w, cell);
    if w.turn < TurnThreshold {
      if directions != [] {
        var selectedDirection := directions[k % |directions|];
        var expansionPopulation := SevenTenthsOf(currentPopulation);
        commands := commands + Move(cell, selectedDirection, expansionPopulation);
      } else {
        assert commands == commands + [];
      }
    } else {
      if currentPopulation > AggressivePopulationThreshold {
        commands := HandleAggressiveMove(w, cell, commands, currentPopulation, directions, k);
      } else {
        commands := Consolidate(w, cell, commands, k);
      }
    }
  }

  /** Lets every listed cell above the minimum population act, in order. */
  method PlanTurn(w: Snapshot, commandList: seq<Command>, pick: Coord -> nat) returns (commands: seq<Command>)
    ensures commands == commandList + TurnPlan(w, w.myCells, pick)
  {
    commands := commandList;
    for i := 0 to |w.myCells|
      invariant commands == commandList + TurnPlan(w, w.myCells[..i], pick)
    {
      var cell := w.myCells[i];
      assert w.myCells[..i + 1] == w.myCells[..i] + [cell];
      TurnPlanSnoc(w, w.myCells[..i], cell, pick);
      AppendAssoc(commandList, TurnPlan(w, w.myCells[..i], pick), CellPlan(w, cell, pick));
      var currentPopulation := Population(w, cell);
      if currentPopulation > MinimumPopulationThreshold {
        commands := ExpandOrDefend(w, cell, commands, currentPopulation, pick(cell));
      } else {
        assert commands == commands + [];
      }
    }
    assert w.myCells[..|w.myCells|] == w.myCells;
  }

  class QuantumConqueror {
    /** The first cell the bot saw. */
    var basePosition: Option<Coord>
    /** For each cell of the latest turn, the number of enemy cells around it. */
    var gravityMap: map<Coord, int>

    constructor()
      ensures basePosition.None? && gravityMap == map[]
    {
      basePosition := None;
      gravityMap := map[];
    }

    /**
      One turn. `ok` is false when the bot has no base yet and owns no cell,
      where the bot fails reading the first cell; nothing changes then.
      Otherwise the gravity map is rebuilt for exactly the cells of this turn.
    */
    method GetNextCommands(w: Snapshot, commandList: seq<Command>, pick: Coord -> nat)
      returns (ok: bool, commands: seq<Command>)
      modifies this
      ensures ok <==> old(basePosition).Some? || w.myCells != []
      ensures basePosition == if old(basePosition).Some? || !ok then old(basePosition) else Some(w.myCells[0])
      ensures !ok ==> gravityMap == old(gravityMap)
      ensures ok ==> forall c :: c in gravityMap <==> c in w.myCells
      ensures ok ==> forall c :: c in gravityMap ==> gravityMap[c] == Gravity(w, c) && 0 <= gravityMap[c] <= 4
      ensures commands == if ok then commandList + TurnPlan(w, w.myCells, pick) else commandList
    {
      if basePosition.None? {
        if w.myCells == [] {
          return false, commandList;
        }
        basePosition := Some(w.myCells[0]);
      }
      ok := true;
      gravityMap := map[];
      ghost var base := basePosition;
      for i := 0 to |w.myCells|
        invariant basePosition == base
        invariant forall c :: c in gravityMap <==> c in w.myCells[..i]
        invariant forall c :: c in gravityMap ==> gravityMap[c] == Gravity(w, c) && 0 <= gravityMap[c] <= 4
      {
        var cell := w.myCells[i];
        assert w.myCells[..i + 1] == w.myCells[..i] + [cell];
        var gravity := CountEnemyNeighbors(w, cell);
        gravityMap := gravityMap[cell := gravity];
      }
      assert w.myCells[..|w.myCells|] == w.myCells;
      commands := PlanTurn(w, commandList, pick);
    }
  }
}
