/**
  The Frieren bot. Every cell with more than 20 units runs exactly one of
  three handlers: expansion (early in the game, while the cell has fewer
  than three friendly neighbours) towards the empty neighbour with the best
  score, attack on one of the weakest enemy neighbours, or defense towards
  any neighbour that is not ours.

  Random choices are the parameter `pick`: the draw for a cell is
  `pick(cell)` reduced modulo the length of the list it indexes. The order
  in which the score map enumerates directions is `hashOrder`.
*/
module FrierenBot {
  import opened Grid
  import opened BotUtils

  /** From this turn on the bot no longer expands. */
  const TurnThreshold := 40
  /** Cells at or below this population stay put. */
  const DefensePopulationThreshold := 20
  /** Cells above this population attack when they do not expand. */
  const AttackPopulationThreshold := 50
  /** Radius of the search for nearby enemies. */
  const MaxClusterRadius := 3
  /** Cells closer than this to the base are pooling candidates. */
  const PoolingDistance := 5

  /* ---------------------------------------------------------------------- */
  /* Decisions                                                              */
  /* ---------------------------------------------------------------------- */

  /** Expand early in the game, and only from cells with fewer than three friendly neighbours. */
  predicate ShouldExpand(w: Snapshot, turn: int, cell: Coord)
  {
    turn < TurnThreshold && |Matching(w, cell, Owned, Directions)| < 3
  }

  /** The count is over distinct neighbouring directions: fewer than three of the four are own cells. */
  lemma ShouldExpandCounts(w: Snapshot, turn: int, cell: Coord)
    ensures ShouldExpand(w, turn, cell)
        <==> (turn < TurnThreshold && |set d | d in Directions && BelongsToMe(w, Neighbour(w, cell, d))| < 3)
  {
    SelectedDirections(w, cell, Owned);
    assert (set d | d in Directions && BelongsToMe(w, Neighbour(w, cell, d)))
        == (set d | d in Directions && Holds(w, Owned, Neighbour(w, cell, d)));
  }

  /** From turn 40 on, no cell expands, whatever its neighbours. */
  lemma NoExpansionLate(w: Snapshot, turn: int, cell: Coord)
    requires turn >= TurnThreshold
    ensures !ShouldExpand(w, turn, cell)
  {
  }

  datatype Handler = Expansion | Attack | Defense

  /** The handler a cell runs this turn, if any. */
  function HandlerFor(w: Snapshot, turn: int, cell: Coord): (h: Option<Handler>)
    ensures h.None? <==> Population(w, cell) <= DefensePopulationThreshold
    ensures h == Some(Expansion) <==> Population(w, cell) > DefensePopulationThreshold && ShouldExpand(w, turn, cell)
    ensures h == Some(Attack) <==> Population(w, cell) > AttackPopulationThreshold && !ShouldExpand(w, turn, cell)
    ensures h == Some(Defense) <==>
      DefensePopulationThreshold < Population(w, cell) <= AttackPopulationThreshold && !ShouldExpand(w, turn, cell)
  {
    var population := Population(w, cell);
    if population <= DefensePopulationThreshold then None
    else if ShouldExpand(w, turn, cell) then Some(Expansion)
    else if population > AttackPopulationThreshold then Some(Attack)
    else Some(Defense)
  }

  /** Whether a cell is close enough to the base to pool resources there. */
  function PrioritizeResourcePooling(cell: Coord, base: Coord): bool
  {
    ManhattanDistance(cell, base) < PoolingDistance
  }

  /** The base pools, pooling is symmetric, and every pooling cell lies within four steps on each axis. */
  lemma PoolingRegion(cell: Coord, base: Coord)
    ensures PrioritizeResourcePooling(base, base)
    ensures PrioritizeResourcePooling(cell, base) == PrioritizeResourcePooling(base, cell)
    ensures PrioritizeResourcePooling(cell, base) ==> Abs(cell.x - base.x) < 5 && Abs(cell.y - base.y) < 5
    ensures Abs(cell.x - base.x) + Abs(cell.y - base.y) >= 5 ==> !PrioritizeResourcePooling(cell, base)
  {
    ManhattanSymmetric(cell, base);
  }

  /* ---------------------------------------------------------------------- */
  /* Choosing the expansion direction                                       */
  /* ---------------------------------------------------------------------- */

  /** Twice the friendly neighbours of the destination, minus its enemy neighbours. */
  function Score(w: Snapshot, cell: Coord, d: Direction): int
  {
    var n := Neighbour(w, cell, d);
    2 * |Matching(w, n, Owned, Directions)| - |Matching(w, n, Hostile, Directions)|
  }

  /** The first direction of `ds` with the highest score. */
  function BestOf(w: Snapshot, cell: Coord, ds: seq<Direction>): (b: Direction)
    requires ds != []
    ensures b in ds
    ensures forall d :: d in ds ==> Score(w, cell, d) <= Score(w, cell, b)
  {
    if |ds| == 1 then ds[0]
    else
      var init, last := ds[..|ds| - 1], ds[|ds| - 1];
      var b := BestOf(w, cell, init);
      assert ds == init + [last];
      if Score(w, cell, last) > Score(w, cell, b) then last else b
  }

  function BestSoFar(w: Snapshot, cell: Coord, ds: seq<Direction>): Option<Direction>
  {
    if ds == [] then None else Some(BestOf(w, cell, ds))
  }

  /** The running maximum as the scan over the map updates it (a later entry wins only if strictly better). */
  lemma BestSoFarSnoc(w: Snapshot, cell: Coord, ds: seq<Direction>, d: Direction)
    ensures BestSoFar(w, cell, ds + [d])
         == if ds == [] || Score(w, cell, d) > Score(w, cell, BestOf(w, cell, ds)) then Some(d)
            else BestSoFar(w, cell, ds)
  {
    assert (ds + [d])[..|ds + [d]| - 1] == ds;
  }

  /** One step of the scan over `order`: the candidate after the first `i + 1` entries. */
  lemma ScanStep(w: Snapshot, cell: Coord, order: seq<Direction>, i: nat)
    requires i < |order|
    ensures var before := BestSoFar(w, cell, Matching(w, cell, Vacant, order[..i]));
            BestSoFar(w, cell, Matching(w, cell, Vacant, order[..i + 1]))
            == if IsEmpty(w, Neighbour(w, cell, order[i]))
                  && (before.None? || Score(w, cell, order[i]) > Score(w, cell, before.value))
               then Some(order[i]) else before
  {
    var prefix := Matching(w, cell, Vacant, order[..i]);
    assert order[..i + 1] == order[..i] + [order[i]];
    MatchingSnoc(w, cell, Vacant, order[..i], order[i]);
    if IsEmpty(w, Neighbour(w, cell, order[i])) {
      assert Matching(w, cell, Vacant, order[..i + 1]) == prefix + [order[i]];
      BestSoFarSnoc(w, cell, prefix, order[i]);
    } else {
      assert Matching(w, cell, Vacant, order[..i + 1]) == prefix + [];
      assert prefix + [] == prefix;
    }
  }

  /** The map from each direction of `ds` to its score. */
  method ScoreDirections(w: Snapshot, cell: Coord, ds: seq<Direction>) returns (directionScores: map<Direction, int>)
    ensures forall d :: d in directionScores <==> d in ds
    ensures forall d :: d in directionScores ==> directionScores[d] == Score(w, cell, d)
  {
    directionScores := map[];
    for i := 0 to |ds|
      invariant forall d :: d in directionScores <==> d in ds[..i]
      invariant forall d :: d in directionScores ==> directionScores[d] == Score(w, cell, d)
    {
      var d := ds[i];
      assert ds[..i + 1] == ds[..i] + [d];
      var neighbor := Neighbour(w, cell, d);
      var friendly := CountFriendlyNeighbors(w, neighbor);
      var enemy := CountEnemyNeighbors(w, neighbor);
      directionScores := directionScores[d := friendly * 2 - enemy];
    }
    assert ds[..|ds|] == ds;
  }

  /**
    The entry with the highest value, in the order the map enumerates its
    keys; a later entry replaces the candidate only if strictly greater.
  */
  method MaxEntry(w: Snapshot, cell: Coord, directionScores: map<Direction, int>, hashOrder: seq<Direction>)
    returns (candidate: Option<Direction>)
    requires forall d :: d in directionScores <==> IsEmpty(w, Neighbour(w, cell, d))
    requires forall d :: d in directionScores ==> directionScores[d] == Score(w, cell, d)
    ensures candidate == BestSoFar(w, cell, Matching(w, cell, Vacant, hashOrder))
  {
    candidate := None;
    for i := 0 to |hashOrder|
      invariant candidate == BestSoFar(w, cell, Matching(w, cell, Vacant, hashOrder[..i]))
      invariant candidate.Some? ==> candidate.value in directionScores
    {
      var d := hashOrder[i];
      ScanStep(w, cell, hashOrder, i);
      if d in directionScores {
        if candidate.None? || directionScores[d] > directionScores[candidate.value] {
          candidate := Some(d);
        }
      }
    }
    assert hashOrder[..|hashOrder|] == hashOrder;
  }

  /**
    Scores every empty direction into a map, then takes the maximum entry in
    the order the map enumerates its keys.
  */
  method SelectBestDirectionForExpansion(w: Snapshot, cell: Coord, emptyDirections: seq<Direction>,
                                         hashOrder: seq<Direction>)
    returns (best: Direction)
    requires emptyDirections == Matching(w, cell, Vacant, Directions) && emptyDirections != []
    requires HashOrder(hashOrder)
    ensures Matching(w, cell, Vacant, hashOrder) != []
    ensures best == BestOf(w, cell, Matching(w, cell, Vacant, hashOrder))
    ensures best in emptyDirections
    ensures forall d :: d in emptyDirections ==> Score(w, cell, d) <= Score(w, cell, best)
  {
    var directionScores := ScoreDirections(w, cell, emptyDirections);
    DirectionsInEnumOrder();
    VacantEverywhere(w, cell, Directions);
    VacantEverywhere(w, cell, hashOrder);
    var candidate := MaxEntry(w, cell, directionScores, hashOrder);
    assert emptyDirections[0] in Matching(w, cell, Vacant, hashOrder);
    best := candidate.value;
  }

  /** Over a list holding every direction, the empty directions are exactly those with an empty neighbour. */
  lemma VacantEverywhere(w: Snapshot, cell: Coord, order: seq<Direction>)
    requires forall d :: d in order
    ensures forall d :: d in Matching(w, cell, Vacant, order) <==> IsEmpty(w, Neighbour(w, cell, d))
  {
    MatchingMembers(w, cell, Vacant, order);
  }

  /* ---------------------------------------------------------------------- */
  /* Handlers                                                               */
  /* ---------------------------------------------------------------------- */

  /** Expansion: 60% of the population towards the best-scored empty neighbour. */
  function ExpansionPlan(w: Snapshot, cell: Coord, population: nat, hashOrder: seq<Direction>): seq<Command>
  {
    var candidates := Matching(w, cell, Vacant, hashOrder);
    if candidates == [] then [] else Move(cell, BestOf(w, cell, candidates), Scale(population, 3, 5))
  }

  /** Attack: half the population towards one of the weakest enemy neighbours. */
  function AttackPlan(w: Snapshot, cell: Coord, population: nat, k: nat): seq<Command>
  {
    var weakest := Weakest(w, cell);
    if weakest == [] then [] else Move(cell, Pick(weakest, k), Scale(population, 1, 2))
  }

  /** Defense: 30% of the population towards a random neighbour that is not ours. */
  function DefensePlan(w: Snapshot, cell: Coord, population: nat, k: nat): seq<Command>
  {
    var directions := Matching(w, cell, Open, Directions);
    if directions == [] then [] else Move(cell, Pick(directions, k), Scale(population, 3, 10))
  }

  /** Redistribution: 40% of a cell above 20 units towards a random neighbour that is not ours. */
  function RedistributePlan(w: Snapshot, cell: Coord, k: nat): seq<Command>
  {
    var directions := Matching(w, cell, Open, Directions);
    var population := Population(w, cell);
    if directions != [] && population > DefensePopulationThreshold then
      Move(cell, Pick(directions, k), Scale(population, 2, 5))
    else []
  }

  /**
    Redistribution orders at most one move, of 40% of the population rounded
    down, to a neighbour that is not ours; it stays silent exactly when the
    cell is too small or has no such neighbour.
  */
  lemma RedistributeSound(w: Snapshot, cell: Coord, k: nat)
    ensures var r := RedistributePlan(w, cell, k);
      && |r| <= 1 && AllFrom(r, cell)
      && (r == [] <==> Population(w, cell) <= DefensePopulationThreshold
                       || forall d :: !Holds(w, Open, Neighbour(w, cell, d)))
      && (r != [] ==> && r[0].amount == Population(w, cell) * 2 / 5
                      && Holds(w, Open, Neighbour(w, cell, r[0].dir)))
  {
    AllDirectionsFiltered(w, cell, Open);
  }

  /** The orders of one cell this turn. */
  function CellPlan(w: Snapshot, turn: int, cell: Coord, pick: Coord -> nat, hashOrder: seq<Direction>): seq<Command>
  {
    var population := Population(w, cell);
    match HandlerFor(w, turn, cell)
    case None => []
    case Some(Expansion) => ExpansionPlan(w, cell, population, hashOrder)
    case Some(Attack) => AttackPlan(w, cell, population, pick(cell))
    case Some(Defense) => DefensePlan(w, cell, population, pick(cell))
  }

  function TurnPlan(w: Snapshot, turn: int, cells: seq<Coord>, pick: Coord -> nat, hashOrder: seq<Direction>): seq<Command>
  {
    if cells == [] then []
    else TurnPlan(w, turn, cells[..|cells| - 1], pick, hashOrder) + CellPlan(w, turn, cells[|cells| - 1], pick, hashOrder)
  }

  lemma TurnPlanSnoc(w: Snapshot, turn: int, cells: seq<Coord>, cell: Coord, pick: Coord -> nat,
                     hashOrder: seq<Direction>)
    ensures TurnPlan(w, turn, cells + [cell], pick, hashOrder)
         == TurnPlan(w, turn, cells, pick, hashOrder) + CellPlan(w, turn, cell, pick, hashOrder)
  {
    assert (cells + [cell])[..|cells + [cell]| - 1] == cells;
  }

  /**
    A cell orders at most one move, of a positive amount not above its
    population. The expansion goes to an empty neighbour with a maximal
    score, the attack to a weakest enemy neighbour, the defense to a
    neighbour that is not ours; each handler stays silent exactly when it
    has no such neighbour.
  */
  lemma CellPlanSound(w: Snapshot, turn: int, cell: Coord, pick: Coord -> nat, hashOrder: seq<Direction>)
    requires HashOrder(hashOrder)
    ensures var r := CellPlan(w, turn, cell, pick, hashOrder);
      && |r| <= 1 && AllFrom(r, cell)
      && (r != [] ==> 0 < r[0].amount <= Population(w, cell))
      && (HandlerFor(w, turn, cell) == Some(Expansion) ==>
            (r == [] <==> forall d :: !IsEmpty(w, Neighbour(w, cell, d)))
            && (r != [] ==>
                  && IsEmpty(w, Neighbour(w, cell, r[0].dir))
                  && forall d :: IsEmpty(w, Neighbour(w, cell, d)) ==> Score(w, cell, d) <= Score(w, cell, r[0].dir)))
      && (HandlerFor(w, turn, cell) == Some(Attack) ==>
            (r == [] <==> forall d :: !IsHostile(w, Neighbour(w, cell, d)))
            && (r != [] ==> IsWeakestEnemy(w, cell, r[0].dir)))
      && (HandlerFor(w, turn, cell) == Some(Defense) ==>
            (r == [] <==> forall d :: BelongsToMe(w, Neighbour(w, cell, d)) && !IsEmpty(w, Neighbour(w, cell, d)))
            && (r != [] ==> Holds(w, Open, Neighbour(w, cell, r[0].dir))))
  {
    var population := Population(w, cell);
    match HandlerFor(w, turn, cell)
    case None =>
    case Some(Expansion) =>
      MatchingMembers(w, cell, Vacant, hashOrder);
      var candidates := Matching(w, cell, Vacant, hashOrder);
      if candidates != [] {
        var b := BestOf(w, cell, candidates);
        forall d | IsEmpty(w, Neighbour(w, cell, d)) ensures Score(w, cell, d) <= Score(w, cell, b) {
          assert d in candidates;
        }
      } else {
        forall d ensures !IsEmpty(w, Neighbour(w, cell, d)) {
          assert d !in candidates;
        }
      }
    case Some(Attack) =>
      WeakestIsTieComplete(w, cell);
    case Some(Defense) =>
      SelectedDirections(w, cell, Open);
  }

  /** Every order of the turn leaves from a listed cell, and there is at most one per cell. */
  lemma {:induction false} TurnPlanSound(w: Snapshot, turn: int, cells: seq<Coord>, pick: Coord -> nat,
                                         hashOrder: seq<Direction>)
    requires HashOrder(hashOrder)
    ensures |TurnPlan(w, turn, cells, pick, hashOrder)| <= |cells|
    ensures forall c :: c in TurnPlan(w, turn, cells, pick, hashOrder) ==> c.cell in cells
  {
    if cells != [] {
      var init, last := cells[..|cells| - 1], cells[|cells| - 1];
      TurnPlanSound(w, turn, init, pick, hashOrder);
      CellPlanSound(w, turn, last, pick, hashOrder);
      var p := CellPlan(w, turn, last, pick, hashOrder);
      forall c | c in p ensures c.cell == last {
        var k :| 0 <= k < |p| && p[k] == c;
      }
    }
  }

  /* ---------------------------------------------------------------------- */
  /* Handler methods                                                        */
  /* ---------------------------------------------------------------------- */

  method HandleExpansion(w: Snapshot, cell: Coord, commandList: seq<Command>, currentPopulation: nat,
                         hashOrder: seq<Direction>)
    returns (commands: seq<Command>)
    requires HashOrder(hashOrder)
    ensures commands == commandList + ExpansionPlan(w, cell, currentPopulation, hashOrder)
  {
    commands := commandList;
    var emptyDirections := GetEmptyNeighborDirections(w, cell);
    if emptyDirections != [] {
      var selectedDirection := SelectBestDirectionForExpansion(w, cell, emptyDirections, hashOrder);
      var populationToMove := Scale(currentPopulation, 3, 5);
      commands := commands + Move(cell, selectedDirection, populationToMove);
    } else {
      MatchingNone(w, cell, Vacant, hashOrder);
      assert commands == commands + [];
    }
  }

  method HandleAttack(w: Snapshot, cell: Coord, commandList: seq<Command>, currentPopulation: nat, k: nat)
    returns (commands: seq<Command>)
    ensures commands == commandList + AttackPlan(w, cell, currentPopulation, k)
  {
    commands := commandList;
    var weakEnemyDirections := GetWeakestEnemyDirections(w, cell);
    if weakEnemyDirections != [] {
      var attackDirection := weakEnemyDirections[k % |weakEnemyDirections|];
      var attackPopulation := Scale(currentPopulation, 1, 2);
      commands := commands + Move(cell, attackDirection, attackPopulation);
    } else {
      assert commands == commands + [];
    }
  }

  method HandleDefense(w: Snapshot, cell: Coord, commandList: seq<Command>, currentPopulation: nat, k: nat)
    returns (commands: seq<Command>)
    ensures commands == commandList + DefensePlan(w, cell, currentPopulation, k)
  {
    commands := commandList;
    var directions := GetAvailableDirections(w, cell);
    if directions != [] {
      var direction := directions[k % |directions|];
      var defensePopulation := Scale(currentPopulation, 3, 10);
      commands := commands + Move(cell, direction, defensePopulation);
    } else {
      assert commands == commands + [];
    }
  }

  method RedistributePopulation(w: Snapshot, cell: Coord, commandList: seq<Command>, k: nat)
    returns (commands: seq<Command>)
    ensures commands == commandList + RedistributePlan(w, cell, k)
  {
    commands := commandList;
    var friendlyDirections := GetAvailableDirections(w, cell);
    var currentPopulation := Population(w, cell);
    if friendlyDirections != [] && currentPopulation > DefensePopulationThreshold {
      var direction := friendlyDirections[k % |friendlyDirections|];
      var populationToRedistribute := Scale(currentPopulation, 2, 5);
      commands := commands + Move(cell, direction, populationToRedistribute);
    } else {
      assert commands == commands + [];
    }
  }

  /** Whether the bounded search finds any enemy: exactly when some neighbour other than the cell itself is an enemy. */
  method DetectEnemyClusters(w: Snapshot, cell: Coord) returns (found: bool)
    ensures found <==> exists d :: IsHostile(w, Neighbour(w, cell, d)) && Neighbour(w, cell, d) != cell
  {
    var enemiesInRadius := GetEnemiesInRadius(w, cell, MaxClusterRadius);
    found := enemiesInRadius != [];
    if found {
      assert enemiesInRadius[0] in enemiesInRadius;
    } else {
      forall d | IsHostile(w, Neighbour(w, cell, d)) ensures Neighbour(w, cell, d) == cell {
        assert ManhattanDistance(cell, cell) <= MaxClusterRadius;
      }
    }
  }

  class Frieren {
    /** The first cell the bot saw. */
    var basePosition: Option<Coord>
    /** The turn of the latest call. */
    var currentTurn: int

    constructor()
      ensures basePosition.None?
    {
      basePosition := None;
      currentTurn := 0;
    }

    method ShouldExpandCell(w: Snapshot, cell: Coord) returns (expand: bool)
      ensures expand == ShouldExpand(w, currentTurn, cell)
    {
      var friendlyNeighbors := CountFriendlyNeighbors(w, cell);
      expand := currentTurn < TurnThreshold && friendlyNeighbors < 3;
    }

    /** Runs the handler the cell calls for, appending its orders. */
    method PlanCell(w: Snapshot, cell: Coord, commandList: seq<Command>, pick: Coord -> nat, hashOrder: seq<Direction>)
      returns (commands: seq<Command>)
      requires HashOrder(hashOrder) && currentTurn == w.turn
      ensures commands == commandList + CellPlan(w, w.turn, cell, pick, hashOrder)
    {
      commands := commandList;
      var currentPopulation := Population(w, cell);
      if currentPopulation > DefensePopulationThreshold {
        var expand := ShouldExpandCell(w, cell);
        if expand {
          commands := HandleExpansion(w, cell, commands, currentPopulation, hashOrder);
        } else if currentPopulation > AttackPopulationThreshold {
          commands := HandleAttack(w, cell, commands, currentPopulation, pick(cell));
        } else {
          commands := HandleDefense(w, cell, commands, currentPopulation, pick(cell));
        }
      } else {
        assert commands == commands + [];
      }
    }

    /**
      One turn. The turn is recorded first; `ok` is false when the bot has no
      base yet and owns no cell, where the bot fails reading the first
      cell.
    */
    method GetNextCommands(w: Snapshot, commandList: seq<Command>, pick: Coord -> nat, hashOrder: seq<Direction>)
      returns (ok: bool, commands: seq<Command>)
      requires HashOrder(hashOrder)
      modifies this
      ensures currentTurn == w.turn
      ensures ok <==> old(basePosition).Some? || w.myCells != []
      ensures basePosition == if old(basePosition).Some? || !ok then old(basePosition) else Some(w.myCells[0])
      ensures commands == if ok then commandList + TurnPlan(w, w.turn, w.myCells, pick, hashOrder) else commandList
    {
      currentTurn := w.turn;
      if basePosition.None? {
        if w.myCells == [] {
          return false, commandList;
        }
        basePosition := Some(w.myCells[0]);
      }
      ok := true;
      commands := PlanCells(w, commandList, pick, hashOrder);
    }

    /** The loop over the cells of the turn, in order. */
    method PlanCells(w: Snapshot, commandList: seq<Command>, pick: Coord -> nat, hashOrder: seq<Direction>)
      returns (commands: seq<Command>)
      requires HashOrder(hashOrder) && currentTurn == w.turn
      ensures commands == commandList + TurnPlan(w, w.turn, w.myCells, pick, hashOrder)
    {
      commands := commandList;
      for i := 0 to |w.myCells|
        invariant commands == commandList + TurnPlan(w, w.turn, w.myCells[..i], pick, hashOrder)
      {
        var cell := w.myCells[i];
        assert w.myCells[..i + 1] == w.myCells[..i] + [cell];
        TurnPlanSnoc(w, w.turn, w.myCells[..i], cell, pick, hashOrder);
        AppendAssoc(commandList, TurnPlan(w, w.turn, w.myCells[..i], pick, hashOrder),
                    CellPlan(w, w.turn, cell, pick, hashOrder));
        commands := PlanCell(w, cell, commands, pick, hashOrder);
      }
      assert w.myCells[..|w.myCells|] == w.myCells;
    }
  }
}
