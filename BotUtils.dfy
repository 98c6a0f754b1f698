/**
  The neighbourhood analyser shared by the strategies: counts and sums over a
  cell's four neighbours, the weakest enemy directions, empty directions, the
  longest enemy runs, and a bounded breadth-first search for enemy cells.
  Each query is a method that walks the directions as the bot does, and
  is proved against a specification stated over the snapshot.
*/
module BotUtils {
  import opened Grid

  /* ---------------------------------------------------------------------- */
  /* Counting neighbours                                                    */
  /* ---------------------------------------------------------------------- */

  method CountFriendlyNeighbors(w: Snapshot, cell: Coord) returns (count: int)
    ensures count == |Matching(w, cell, Owned, Directions)|
    ensures count == |set d | d in Directions && Holds(w, Owned, Neighbour(w, cell, d))|
    ensures 0 <= count <= 4
  {
    count := 0;
    for i := 0 to |Directions|
      invariant count == |Matching(w, cell, Owned, Directions[..i])|
    {
      var neighbor := Neighbour(w, cell, Directions[i]);
      assert Directions[..i + 1] == Directions[..i] + [Directions[i]];
      MatchingSnoc(w, cell, Owned, Directions[..i], Directions[i]);
      if BelongsToMe(w, neighbor) {
        count := count + 1;
      }
    }
    assert Directions[..|Directions|] == Directions;
    SelectedDirections(w, cell, Owned);
  }

  method CountEnemyNeighbors(w: Snapshot, cell: Coord) returns (count: int)
    ensures count == |Matching(w, cell, Hostile, Directions)|
    ensures count == |set d | d in Directions && Holds(w, Hostile, Neighbour(w, cell, d))|
    ensures 0 <= count <= 4
  {
    count := 0;
    for i := 0 to |Directions|
      invariant count == |Matching(w, cell, Hostile, Directions[..i])|
    {
      var neighbor := Neighbour(w, cell, Directions[i]);
      assert Directions[..i + 1] == Directions[..i] + [Directions[i]];
      MatchingSnoc(w, cell, Hostile, Directions[..i], Directions[i]);
      if !IsEmpty(w, neighbor) && !BelongsToMe(w, neighbor) {
        count := count + 1;
      }
    }
    assert Directions[..|Directions|] == Directions;
    SelectedDirections(w, cell, Hostile);
  }

  /** Sum of the populations of the neighbours of `cell` along `ds`. */
  function PopulationSum(w: Snapshot, cell: Coord, ds: seq<Direction>): nat
  {
    if ds == [] then 0
    else PopulationSum(w, cell, ds[..|ds| - 1]) + Population(w, Neighbour(w, cell, ds[|ds| - 1]))
  }

  method CalculateNeighborPopulation(w: Snapshot, cell: Coord) returns (total: int)
    ensures total == PopulationSum(w, cell, Matching(w, cell, Owned, Directions))
    ensures (forall d :: !BelongsToMe(w, Neighbour(w, cell, d))) ==> total == 0
  {
    total := 0;
    for i := 0 to |Directions|
      invariant total == PopulationSum(w, cell, Matching(w, cell, Owned, Directions[..i]))
    {
      var neighbor := Neighbour(w, cell, Directions[i]);
      ghost var before := Matching(w, cell, Owned, Directions[..i]);
      assert Directions[..i + 1] == Directions[..i] + [Directions[i]];
      MatchingSnoc(w, cell, Owned, Directions[..i], Directions[i]);
      if BelongsToMe(w, neighbor) {
        PopulationSumSnoc(w, cell, before, Directions[i]);
        assert Matching(w, cell, Owned, Directions[..i + 1]) == before + [Directions[i]];
        total := total + Population(w, neighbor);
      } else {
        assert before + [] == before;
        assert Matching(w, cell, Owned, Directions[..i + 1]) == before;
      }
    }
    assert Directions[..|Directions|] == Directions;
    if forall d :: !BelongsToMe(w, Neighbour(w, cell, d)) {
      MatchingNone(w, cell, Owned, Directions);
    }
  }

  lemma PopulationSumSnoc(w: Snapshot, cell: Coord, ds: seq<Direction>, d: Direction)
    ensures PopulationSum(w, cell, ds + [d]) == PopulationSum(w, cell, ds) + Population(w, Neighbour(w, cell, d))
  {
    assert (ds + [d])[..|ds + [d]| - 1] == ds;
  }

  /**
    The owned neighbours' sum and the other neighbours' sum together make up
    the whole neighbourhood sum: every neighbour's population is counted on
    exactly one side, so the owned sum never exceeds the total.
  */
  lemma {:induction false} OwnedPopulationSplit(w: Snapshot, cell: Coord, ds: seq<Direction>)
    ensures PopulationSum(w, cell, Matching(w, cell, Owned, ds))
            + PopulationSum(w, cell, Matching(w, cell, NotOwned, ds))
         == PopulationSum(w, cell, ds)
    ensures PopulationSum(w, cell, Matching(w, cell, Owned, ds)) <= PopulationSum(w, cell, ds)
    decreases |ds|
  {
    if ds != [] {
      var init, d := ds[..|ds| - 1], ds[|ds| - 1];
      assert ds == init + [d];
      OwnedPopulationSplit(w, cell, init);
      MatchingSnoc(w, cell, Owned, init, d);
      MatchingSnoc(w, cell, NotOwned, init, d);
      var owned, other := Matching(w, cell, Owned, init), Matching(w, cell, NotOwned, init);
      if BelongsToMe(w, Neighbour(w, cell, d)) {
        PopulationSumSnoc(w, cell, owned, d);
        assert other + [] == other;
      } else {
        PopulationSumSnoc(w, cell, other, d);
        assert owned + [] == owned;
      }
    }
  }

  /* ---------------------------------------------------------------------- */
  /* Weakest enemy neighbours                                               */
  /* ---------------------------------------------------------------------- */

  /** Smallest population among the neighbours along a non-empty `ds`. */
  function MinPopulation(w: Snapshot, cell: Coord, ds: seq<Direction>): (m: nat)
    requires ds != []
    ensures forall d :: d in ds ==> m <= Population(w, Neighbour(w, cell, d))
    ensures exists d :: d in ds && m == Population(w, Neighbour(w, cell, d))
  {
    if |ds| == 1 then Population(w, Neighbour(w, cell, ds[0]))
    else
      var init := ds[..|ds| - 1];
      var m0 := MinPopulation(w, cell, init);
      var p := Population(w, Neighbour(w, cell, ds[|ds| - 1]));
      assert ds == init + [ds[|ds| - 1]];
      if p < m0 then p else m0
  }

  /** Smallest hostile population among the neighbours along `ds`, if any is hostile. */
  function MinSoFar(w: Snapshot, cell: Coord, ds: seq<Direction>): Option<nat>
  {
    var hostile := Matching(w, cell, Hostile, ds);
    if hostile == [] then None else Some(MinPopulation(w, cell, hostile))
  }

  /** The hostile neighbours along `ds` with the smallest population, in the order of `ds`. */
  function WeakestAlong(w: Snapshot, cell: Coord, ds: seq<Direction>): seq<Direction>
  {
    match MinSoFar(w, cell, ds)
    case None => []
    case Some(m) => Matching(w, cell, HostileWith(m), ds)
  }

  /** The hostile neighbours with the smallest population, in enumeration order. */
  function Weakest(w: Snapshot, cell: Coord): seq<Direction>
  {
    WeakestAlong(w, cell, Directions)
  }

  ghost predicate IsWeakestEnemy(w: Snapshot, cell: Coord, d: Direction)
  {
    && IsHostile(w, Neighbour(w, cell, d))
    && forall e :: IsHostile(w, Neighbour(w, cell, e)) ==>
         Population(w, Neighbour(w, cell, d)) <= Population(w, Neighbour(w, cell, e))
  }

  /** Tie-complete: every minimal hostile direction, and only those. */
  lemma WeakestIsTieComplete(w: Snapshot, cell: Coord)
    ensures InEnumOrder(Weakest(w, cell))
    ensures forall d :: d in Weakest(w, cell) <==> IsWeakestEnemy(w, cell, d)
    ensures Weakest(w, cell) == [] <==> forall d :: !IsHostile(w, Neighbour(w, cell, d))
  {
    var hostile := Matching(w, cell, Hostile, Directions);
    AllDirectionsFiltered(w, cell, Hostile);
    if hostile != [] {
      var m := MinPopulation(w, cell, hostile);
      HostileMinimum(w, cell);
      AllDirectionsFiltered(w, cell, HostileWith(m));
      DirectionsInEnumOrder();
      MatchingOrdered(w, cell, HostileWith(m), Directions);
      var e :| IsHostile(w, Neighbour(w, cell, e)) && Population(w, Neighbour(w, cell, e)) == m;
      var weakest := Matching(w, cell, HostileWith(m), Directions);
      assert Weakest(w, cell) == weakest;
      assert e in weakest;
      forall d ensures d in weakest <==> IsWeakestEnemy(w, cell, d) {
        var n := Neighbour(w, cell, d);
        if d in weakest {
          assert Holds(w, HostileWith(m), n);
        }
        if IsWeakestEnemy(w, cell, d) {
          assert Population(w, n) <= Population(w, Neighbour(w, cell, e));
          assert Holds(w, HostileWith(m), n);
        }
      }
    } else {
      assert Weakest(w, cell) == [];
    }
  }

  /** Over all four directions, the filter keeps exactly the directions whose neighbour passes. */
  lemma AllDirectionsFiltered(w: Snapshot, cell: Coord, t: Test)
    ensures forall d :: d in Matching(w, cell, t, Directions) <==> Holds(w, t, Neighbour(w, cell, d))
  {
    DirectionsInEnumOrder();
    MatchingMembers(w, cell, t, Directions);
  }

  /** The minimum over the hostile directions bounds every enemy neighbour and is attained by one. */
  lemma HostileMinimum(w: Snapshot, cell: Coord)
    requires Matching(w, cell, Hostile, Directions) != []
    ensures var m := MinPopulation(w, cell, Matching(w, cell, Hostile, Directions));
      && (forall d :: IsHostile(w, Neighbour(w, cell, d)) ==> m <= Population(w, Neighbour(w, cell, d)))
      && (exists e :: IsHostile(w, Neighbour(w, cell, e)) && Population(w, Neighbour(w, cell, e)) == m)
  {
    AllDirectionsFiltered(w, cell, Hostile);
    var hostile := Matching(w, cell, Hostile, Directions);
    var m := MinPopulation(w, cell, hostile);
    assert exists d :: d in hostile && m == Population(w, Neighbour(w, cell, d));
    var e :| e in hostile && m == Population(w, Neighbour(w, cell, e));
    assert IsHostile(w, Neighbour(w, cell, e));
  }

  /** No direction of `prefix` can match a population below the hostile minimum. */
  lemma NoneBelowMinimum(w: Snapshot, cell: Coord, prefix: seq<Direction>, p: nat)
    requires MinSoFar(w, cell, prefix).Some? ==> p < MinSoFar(w, cell, prefix).value
    ensures Matching(w, cell, HostileWith(p), prefix) == []
  {
    MatchingMembers(w, cell, Hostile, prefix);
    MatchingNone(w, cell, HostileWith(p), prefix);
  }

  /** One more direction: the running minimum as the scan updates it. */
  lemma MinSoFarSnoc(w: Snapshot, cell: Coord, prefix: seq<Direction>, d: Direction)
    ensures var m := MinSoFar(w, cell, prefix);
      var n := Neighbour(w, cell, d);
      MinSoFar(w, cell, prefix + [d])
        == (if IsHostile(w, n) && (m.None? || Population(w, n) < m.value) then Some(Population(w, n)) else m)
  {
    var hostile := Matching(w, cell, Hostile, prefix);
    MatchingSnoc(w, cell, Hostile, prefix, d);
    if IsHostile(w, Neighbour(w, cell, d)) {
      var grown := hostile + [d];
      assert Matching(w, cell, Hostile, prefix + [d]) == grown;
      assert grown[..|grown| - 1] == hostile && grown[|grown| - 1] == d;
    } else {
      assert Matching(w, cell, Hostile, prefix + [d]) == hostile;
    }
  }

  /** One more direction: the tied weakest directions as the scan updates them. */
  lemma WeakestAlongSnoc(w: Snapshot, cell: Coord, prefix: seq<Direction>, d: Direction)
    ensures var m := MinSoFar(w, cell, prefix);
      var n := Neighbour(w, cell, d);
      WeakestAlong(w, cell, prefix + [d])
        == (if !IsHostile(w, n) then WeakestAlong(w, cell, prefix)
            else if m.None? || Population(w, n) < m.value then [d]
            else if Population(w, n) == m.value then WeakestAlong(w, cell, prefix) + [d]
            else WeakestAlong(w, cell, prefix))
  {
    var m := MinSoFar(w, cell, prefix);
    var n := Neighbour(w, cell, d);
    var p := Population(w, n);
    MinSoFarSnoc(w, cell, prefix, d);
    if IsHostile(w, n) && (m.None? || p < m.value) {
      NoneBelowMinimum(w, cell, prefix, p);
      MatchingSnoc(w, cell, HostileWith(p), prefix, d);
      assert Matching(w, cell, HostileWith(p), prefix + [d]) == [] + [d];
    } else if m.Some? {
      var tied := Matching(w, cell, HostileWith(m.value), prefix);
      MatchingSnoc(w, cell, HostileWith(m.value), prefix, d);
      if IsHostile(w, n) && p == m.value {
        assert Matching(w, cell, HostileWith(m.value), prefix + [d]) == tied + [d];
      } else {
        assert Matching(w, cell, HostileWith(m.value), prefix + [d]) == tied + [];
      }
    }
  }

  /** The scan over `ds` after its first `i + 1` directions, in terms of the scan after `i`. */
  lemma WeakestStep(w: Snapshot, cell: Coord, ds: seq<Direction>, i: nat)
    requires i < |ds|
    ensures var m := MinSoFar(w, cell, ds[..i]);
      var n := Neighbour(w, cell, ds[i]);
      && MinSoFar(w, cell, ds[..i + 1])
           == (if IsHostile(w, n) && (m.None? || Population(w, n) < m.value) then Some(Population(w, n)) else m)
      && WeakestAlong(w, cell, ds[..i + 1])
           == (if !IsHostile(w, n) then WeakestAlong(w, cell, ds[..i])
               else if m.None? || Population(w, n) < m.value then [ds[i]]
               else if Population(w, n) == m.value then WeakestAlong(w, cell, ds[..i]) + [ds[i]]
               else WeakestAlong(w, cell, ds[..i]))
  {
    assert ds[..i + 1] == ds[..i] + [ds[i]];
    MinSoFarSnoc(w, cell, ds[..i], ds[i]);
    WeakestAlongSnoc(w, cell, ds[..i], ds[i]);
  }

  method GetWeakestEnemyDirections(w: Snapshot, cell: Coord) returns (weakestDirections: seq<Direction>)
    ensures weakestDirections == Weakest(w, cell)
    ensures InEnumOrder(weakestDirections)
    ensures forall d :: d in weakestDirections <==> IsWeakestEnemy(w, cell, d)
    ensures weakestDirections == [] <==> forall d :: !IsHostile(w, Neighbour(w, cell, d))
  {
    weakestDirections := [];
    var minEnemyPopulation: Option<nat> := None;
    for i := 0 to |Directions|
      invariant minEnemyPopulation == MinSoFar(w, cell, Directions[..i])
      invariant weakestDirections == WeakestAlong(w, cell, Directions[..i])
    {
      var d := Directions[i];
      var neighbor := Neighbour(w, cell, d);
      WeakestStep(w, cell, Directions, i);
      if !BelongsToMe(w, neighbor) && !IsEmpty(w, neighbor) {
        var enemyPopulation := Population(w, neighbor);
        if minEnemyPopulation.None? || enemyPopulation < minEnemyPopulation.value {
          minEnemyPopulation := Some(enemyPopulation);
          weakestDirections := [d];
        } else if enemyPopulation == minEnemyPopulation.value {
          weakestDirections := weakestDirections + [d];
        }
      }
    }
    assert Directions[..|Directions|] == Directions;
    WeakestIsTieComplete(w, cell);
  }

  /* ---------------------------------------------------------------------- */
  /* Distance and empty neighbours                                          */
  /* ---------------------------------------------------------------------- */

  function Abs(n: int): nat { if n < 0 then -n else n }

  function ManhattanDistance(a: Coord, b: Coord): (r: nat)
    ensures r == 0 <==> a == b
  {
    Abs(a.x - b.x) + Abs(a.y - b.y)
  }

  lemma ManhattanSymmetric(a: Coord, b: Coord)
    ensures ManhattanDistance(a, b) == ManhattanDistance(b, a)
  {
  }

  lemma ManhattanTriangle(a: Coord, b: Coord, c: Coord)
    ensures ManhattanDistance(a, c) <= ManhattanDistance(a, b) + ManhattanDistance(b, c)
  {
  }

  method GetEmptyNeighborDirections(w: Snapshot, cell: Coord) returns (emptyDirections: seq<Direction>)
    ensures emptyDirections == Matching(w, cell, Vacant, Directions)
    ensures InEnumOrder(emptyDirections)
    ensures forall d :: d in emptyDirections <==> IsEmpty(w, Neighbour(w, cell, d))
  {
    emptyDirections := [];
    for i := 0 to |Directions|
      invariant emptyDirections == Matching(w, cell, Vacant, Directions[..i])
    {
      var neighbor := Neighbour(w, cell, Directions[i]);
      assert Directions[..i + 1] == Directions[..i] + [Directions[i]];
      MatchingSnoc(w, cell, Vacant, Directions[..i], Directions[i]);
      if IsEmpty(w, neighbor) {
        emptyDirections := emptyDirections + [Directions[i]];
      }
    }
    assert Directions[..|Directions|] == Directions;
    SelectedDirections(w, cell, Vacant);
  }

  /**
    The directions a cell may move to: empty neighbours or neighbours that are
    not ours. Shared by the strategies that spread population at random.
  */
  method GetAvailableDirections(w: Snapshot, cell: Coord) returns (directions: seq<Direction>)
    ensures directions == Matching(w, cell, Open, Directions)
    ensures InEnumOrder(directions)
    ensures forall d :: d in directions <==> IsEmpty(w, Neighbour(w, cell, d)) || !BelongsToMe(w, Neighbour(w, cell, d))
  {
    directions := [];
    for i := 0 to |Directions|
      invariant directions == Matching(w, cell, Open, Directions[..i])
    {
      var neighbor := Neighbour(w, cell, Directions[i]);
      assert Directions[..i + 1] == Directions[..i] + [Directions[i]];
      MatchingSnoc(w, cell, Open, Directions[..i], Directions[i]);
      if IsEmpty(w, neighbor) || !BelongsToMe(w, neighbor) {
        directions := directions + [Directions[i]];
      }
    }
    assert Directions[..|Directions|] == Directions;
    SelectedDirections(w, cell, Open);
  }

  /* ---------------------------------------------------------------------- */
  /* Enemy runs                                                             */
  /* ---------------------------------------------------------------------- */

  /**
    Number of consecutive hostile cells met walking along `d` from `from`,
    counting at most `fuel` of them.
  */
  function RunLength(w: Snapshot, from: Coord, d: Direction, fuel: nat): (n: nat)
    ensures n <= fuel
    ensures n > 0 <==> fuel > 0 && IsHostile(w, from)
    decreases fuel
  {
    if fuel == 0 || !IsHostile(w, from) then 0
    else 1 + RunLength(w, Neighbour(w, from, d), d, fuel - 1)
  }

  /**
    The enemy run starting at the neighbour of `cell` along `d`. A run of
    distinct enemy cells never exceeds the number of occupied cells, so that
    number bounds the walk.
  */
  function ClusterRun(w: Snapshot, cell: Coord, d: Direction): nat
  {
    RunLength(w, Neighbour(w, cell, d), d, |w.occupied|)
  }

  lemma ClusterRunPositive(w: Snapshot, cell: Coord, d: Direction)
    ensures ClusterRun(w, cell, d) > 0 <==> IsHostile(w, Neighbour(w, cell, d))
  {
    if IsHostile(w, Neighbour(w, cell, d)) {
      HostileIsOccupied(w, Neighbour(w, cell, d));
    }
  }

  ghost predicate IsLargestCluster(w: Snapshot, cell: Coord, d: Direction)
  {
    ClusterRun(w, cell, d) > 0 && forall e :: ClusterRun(w, cell, e) <= ClusterRun(w, cell, d)
  }

  /**
    `iterationOrder` is the order in which the map of run lengths happens to
    be enumerated; it lists every direction once.
  */
  method GetEnemyClusterDirections(w: Snapshot, cell: Coord, iterationOrder: seq<Direction>)
    returns (resultDirections: seq<Direction>)
    requires HashOrder(iterationOrder)
    ensures forall d :: d in resultDirections <==> IsLargestCluster(w, cell, d)
    ensures forall i, j :: 0 <= i < j < |resultDirections| ==> resultDirections[i] != resultDirections[j]
    ensures resultDirections == [] <==> forall d :: !IsHostile(w, Neighbour(w, cell, d))
  {
    var clusterMap: map<Direction, nat> := map[];
    for i := 0 to |Directions|
      invariant forall e :: e in clusterMap <==> Rank(e) < i && ClusterRun(w, cell, e) > 0
      invariant forall e :: e in clusterMap ==> clusterMap[e] == ClusterRun(w, cell, e)
    {
      var d := Directions[i];
      var clusterSize := WalkRun(w, cell, d);
      if clusterSize > 0 {
        clusterMap := clusterMap[d := clusterSize];
      }
    }

    var maxClusterSize := LargestRun(w, cell, clusterMap);

    resultDirections := CollectLargest(w, cell, clusterMap, maxClusterSize, iterationOrder);

    forall d ensures ClusterRun(w, cell, d) > 0 <==> IsHostile(w, Neighbour(w, cell, d)) {
      ClusterRunPositive(w, cell, d);
    }
    if e :| IsHostile(w, Neighbour(w, cell, e)) {
      var top :| ClusterRun(w, cell, top) == maxClusterSize;
      assert IsLargestCluster(w, cell, top);
    }
    if resultDirections != [] {
      assert resultDirections[0] in resultDirections;
    }
  }

  /** The largest run recorded in the map, 0 for an empty map. */
  method LargestRun(w: Snapshot, cell: Coord, clusterMap: map<Direction, nat>) returns (maxClusterSize: nat)
    requires forall e :: e in clusterMap <==> ClusterRun(w, cell, e) > 0
    requires forall e :: e in clusterMap ==> clusterMap[e] == ClusterRun(w, cell, e)
    ensures forall e :: ClusterRun(w, cell, e) <= maxClusterSize
    ensures maxClusterSize == 0 || exists e :: ClusterRun(w, cell, e) == maxClusterSize
  {
    maxClusterSize := 0;
    for i := 0 to |Directions|
      invariant forall e :: Rank(e) < i ==> ClusterRun(w, cell, e) <= maxClusterSize
      invariant maxClusterSize == 0 || exists e :: ClusterRun(w, cell, e) == maxClusterSize
    {
      var d := Directions[i];
      if d in clusterMap && clusterMap[d] > maxClusterSize {
        maxClusterSize := clusterMap[d];
      }
    }
  }

  /** Walks from the neighbour along `d` while the cells are enemy cells, counting them. */
  method WalkRun(w: Snapshot, cell: Coord, d: Direction) returns (clusterSize: nat)
    ensures clusterSize == ClusterRun(w, cell, d)
  {
    var neighbor := Neighbour(w, cell, d);
    clusterSize := 0;
    var fuel: nat := |w.occupied|;
    while fuel > 0 && !IsEmpty(w, neighbor) && !BelongsToMe(w, neighbor)
      invariant clusterSize + RunLength(w, neighbor, d, fuel) == ClusterRun(w, cell, d)
      decreases fuel
    {
      clusterSize := clusterSize + 1;
      neighbor := Neighbour(w, neighbor, d);
      fuel := fuel - 1;
    }
  }

  /** The directions of the map whose run equals `maxClusterSize`, in the map's enumeration order. */
  method CollectLargest(w: Snapshot, cell: Coord, clusterMap: map<Direction, nat>, maxClusterSize: nat,
                        iterationOrder: seq<Direction>)
    returns (resultDirections: seq<Direction>)
    requires HashOrder(iterationOrder)
    ensures forall e :: e in resultDirections <==> e in clusterMap && clusterMap[e] == maxClusterSize
    ensures forall i, j :: 0 <= i < j < |resultDirections| ==> resultDirections[i] != resultDirections[j]
  {
    resultDirections := [];
    for i := 0 to |iterationOrder|
      invariant forall e :: e in resultDirections <==>
                  e in iterationOrder[..i] && e in clusterMap && clusterMap[e] == maxClusterSize
      invariant forall a, b :: 0 <= a < b < |resultDirections| ==> resultDirections[a] != resultDirections[b]
    {
      var d := iterationOrder[i];
      assert iterationOrder[..i + 1] == iterationOrder[..i] + [d];
      assert d !in iterationOrder[..i];
      if d in clusterMap && clusterMap[d] == maxClusterSize {
        resultDirections := resultDirections + [d];
      }
    }
    assert iterationOrder[..|iterationOrder|] == iterationOrder;
  }

  /* ---------------------------------------------------------------------- */
  /* Bounded breadth-first search for enemy cells                           */
  /* ---------------------------------------------------------------------- */

  /** Every hostile neighbour of `v` is in `found`. */
  ghost predicate Covers(w: Snapshot, v: Coord, found: set<Coord>)
  {
    forall d :: IsHostile(w, Neighbour(w, v, d)) ==> Neighbour(w, v, d) in found
  }

  /**
    The search is closed: the start and every recorded cell within `radius`
    of it have all their hostile neighbours either recorded or equal to the
    start.
  */
  ghost predicate ClosedWithin(w: Snapshot, start: Coord, radius: int, found: seq<Coord>)
  {
    forall v :: (v == start || v in found) && ManhattanDistance(start, v) <= radius ==>
      forall d :: IsHostile(w, Neighbour(w, v, d)) ==>
        Neighbour(w, v, d) == start || Neighbour(w, v, d) in found
  }

  /** `e` is the neighbour of some cell no farther than `radius` from `start`. */
  ghost predicate DiscoveredWithin(w: Snapshot, start: Coord, radius: int, e: Coord)
  {
    exists v, d :: ManhattanDistance(start, v) <= radius && Neighbour(w, v, d) == e
  }

  /**
    What the search keeps true between two dequeues: the visited cells are
    the start and the recorded enemies, each either searched (`done`) or
    still queued; the recorded enemies are distinct, hostile and discovered
    within the radius; every searched cell within the radius has all its
    enemy neighbours visited; the first recorded enemy neighbours the start.
  */
  ghost predicate SearchState(w: Snapshot, cell: Coord, radius: int, queue: seq<Coord>, visited: set<Coord>,
                              done: set<Coord>, enemyCells: seq<Coord>)
  {
    && (forall v :: v in visited <==> v == cell || v in enemyCells)
    && (forall v :: v in visited <==> v in done || v in queue)
    && cell !in enemyCells
    && (forall i, j :: 0 <= i < j < |enemyCells| ==> enemyCells[i] != enemyCells[j])
    && (forall e :: e in enemyCells ==> IsHostile(w, e) && DiscoveredWithin(w, cell, radius, e))
    && (forall v :: v in done && ManhattanDistance(cell, v) <= radius ==> Covers(w, v, visited))
    && (enemyCells != [] ==> exists d :: Neighbour(w, cell, d) == enemyCells[0])
  }

  method GetEnemiesInRadius(w: Snapshot, cell: Coord, radius: int) returns (enemyCells: seq<Coord>)
    ensures forall i, j :: 0 <= i < j < |enemyCells| ==> enemyCells[i] != enemyCells[j]
    ensures cell !in enemyCells
    ensures forall e :: e in enemyCells ==> IsHostile(w, e) && DiscoveredWithin(w, cell, radius, e)
    ensures ClosedWithin(w, cell, radius, enemyCells)
    ensures enemyCells != [] ==> exists d :: Neighbour(w, cell, d) == enemyCells[0]
  {
    enemyCells := [];
    var queue := [cell];
    var visited := {cell};
    ghost var done: set<Coord> := {};
    while queue != []
      invariant SearchState(w, cell, radius, queue, visited, done, enemyCells)
      decreases |w.occupied - visited|, |queue|
    {
      queue, visited, enemyCells, done := VisitNext(w, cell, radius, queue, visited, enemyCells, done);
    }
    SearchClosed(w, cell, radius, visited, done, enemyCells);
  }

  /** Once the queue is empty, the search is closed. */
  lemma SearchClosed(w: Snapshot, cell: Coord, radius: int, visited: set<Coord>, done: set<Coord>,
                     enemyCells: seq<Coord>)
    requires SearchState(w, cell, radius, [], visited, done, enemyCells)
    ensures ClosedWithin(w, cell, radius, enemyCells)
  {
    forall v | (v == cell || v in enemyCells) && ManhattanDistance(cell, v) <= radius
      ensures forall d :: IsHostile(w, Neighbour(w, v, d)) ==>
        Neighbour(w, v, d) == cell || Neighbour(w, v, d) in enemyCells
    {
      assert v in done;
      assert Covers(w, v, visited);
    }
  }

  /**
    One round of the search loop: dequeue the head; if it lies within the
    radius, record and enqueue its unvisited enemy neighbours.
  */
  method VisitNext(w: Snapshot, cell: Coord, radius: int, queue: seq<Coord>, visited: set<Coord>,
                   enemyCells: seq<Coord>, ghost done: set<Coord>)
    returns (queue': seq<Coord>, visited': set<Coord>, enemyCells': seq<Coord>, ghost done': set<Coord>)
    requires queue != [] && SearchState(w, cell, radius, queue, visited, done, enemyCells)
    ensures SearchState(w, cell, radius, queue', visited', done', enemyCells')
    ensures |w.occupied - visited'| < |w.occupied - visited|
         || (|w.occupied - visited'| == |w.occupied - visited| && |queue'| < |queue|)
  {
    var current := queue[0];
    assert current in visited;
    assert queue == [current] + queue[1..];
    queue' := queue[1..];
    done' := done + {current};
    var distance := ManhattanDistance(cell, current);
    if distance > radius {
      visited', enemyCells' := visited, enemyCells;
      return;
    }
    var added;
    added, visited' := ExpandNeighbours(w, cell, radius, current, visited);
    if enemyCells == [] && added != [] {
      assert current == cell;
    }
    DistinctConcat(enemyCells, added);
    enemyCells' := enemyCells + added;
    queue' := queue' + added;
    DoneCovered(w, cell, radius, done, visited, visited', current);
  }

  /**
    One expansion step of the search: the unvisited enemy neighbours of
    `current`, in enumeration order, each recorded once, and the grown
    visited set.
  */
  method ExpandNeighbours(w: Snapshot, cell: Coord, radius: int, current: Coord, visited: set<Coord>)
    returns (added: seq<Coord>, visited': set<Coord>)
    requires ManhattanDistance(cell, current) <= radius
    ensures forall v :: v in visited' <==> v in visited || v in added
    ensures forall v :: v in added ==> v !in visited && IsHostile(w, v) && DiscoveredWithin(w, cell, radius, v)
    ensures forall i, j :: 0 <= i < j < |added| ==> added[i] != added[j]
    ensures visited <= visited' && (added == [] ==> visited' == visited)
    ensures Covers(w, current, visited')
    ensures added != [] ==> exists d :: Neighbour(w, current, d) == added[0]
    ensures added != [] ==> |w.occupied - visited'| < |w.occupied - visited|
  {
    added := [];
    visited' := visited;
    for i := 0 to |Directions|
      invariant forall v :: v in visited' <==> v in visited || v in added
      invariant forall v :: v in added ==> v !in visited && IsHostile(w, v) && DiscoveredWithin(w, cell, radius, v)
      invariant forall a, b :: 0 <= a < b < |added| ==> added[a] != added[b]
      invariant forall j :: 0 <= j < i && IsHostile(w, Neighbour(w, current, Directions[j])) ==>
        Neighbour(w, current, Directions[j]) in visited'
      invariant visited <= visited' && (added == [] ==> visited' == visited)
      invariant added != [] ==> exists d :: Neighbour(w, current, d) == added[0]
    {
      var neighbor := Neighbour(w, current, Directions[i]);
      if neighbor !in visited' && !BelongsToMe(w, neighbor) && !IsEmpty(w, neighbor) {
        added := added + [neighbor];
        visited' := visited' + {neighbor};
      }
    }
    assert Covers(w, current, visited') by {
      forall d | IsHostile(w, Neighbour(w, current, d)) ensures Neighbour(w, current, d) in visited' {
        assert Directions[Rank(d)] == d;
      }
    }
    if added != [] {
      assert added[0] in added;
      FewerUnvisited(w.occupied, visited, visited', added[0]);
    }
  }

  /** Recording one more occupied cell shrinks the occupied cells still unvisited. */
  lemma FewerUnvisited(occupied: set<Coord>, visited: set<Coord>, visited': set<Coord>, x: Coord)
    requires visited <= visited' && x in visited' && x !in visited && x in occupied
    ensures |occupied - visited'| < |occupied - visited|
  {
    var rest := (occupied - visited) - {x};
    assert occupied - visited == rest + {x};
    SubsetCardinality(occupied - visited', rest);
  }

  lemma {:induction false} SubsetCardinality(a: set<Coord>, b: set<Coord>)
    requires a <= b
    ensures |a| <= |b|
    decreases |b|
  {
    if a != {} {
      var y :| y in a;
      assert b == (b - {y}) + {y};
      SubsetCardinality(a - {y}, b - {y});
    }
  }

  lemma DistinctConcat(a: seq<Coord>, b: seq<Coord>)
    requires forall i, j :: 0 <= i < j < |a| ==> a[i] != a[j]
    requires forall i, j :: 0 <= i < j < |b| ==> b[i] != b[j]
    requires forall x :: x in b ==> x !in a
    ensures forall i, j :: 0 <= i < j < |a + b| ==> (a + b)[i] != (a + b)[j]
  {
    forall i, j | 0 <= i < j < |a + b| ensures (a + b)[i] != (a + b)[j] {
      if j >= |a| && i < |a| {
        assert (a + b)[j] in b;
      }
    }
  }

  /** The searched cells within the radius stay covered as the visited set grows by the current cell's enemies. */
  lemma DoneCovered(w: Snapshot, cell: Coord, radius: int, done: set<Coord>, visited: set<Coord>,
                    visited': set<Coord>, current: Coord)
    requires forall v :: v in done && ManhattanDistance(cell, v) <= radius ==> Covers(w, v, visited)
    requires visited <= visited' && Covers(w, current, visited')
    ensures forall v :: v in done + {current} && ManhattanDistance(cell, v) <= radius ==> Covers(w, v, visited')
  {
    forall v | v in done + {current} && ManhattanDistance(cell, v) <= radius
      ensures Covers(w, v, visited')
    {
      if v != current {
        CoversGrow(w, v, visited, visited');
      }
    }
  }

  lemma CoversGrow(w: Snapshot, v: Coord, a: set<Coord>, b: set<Coord>)
    requires Covers(w, v, a) && a <= b
    ensures Covers(w, v, b)
  {
  }

  /** The cells one step away from `v`. */
  function Neighbours(w: Snapshot, v: Coord): set<Coord>
  {
    set d | d in Directions :: Neighbour(w, v, d)
  }

  /**
    A walk from `start` through hostile cells in which every cell but the last
    is within `radius` of `start`.
  */
  ghost predicate HostileChain(w: Snapshot, start: Coord, radius: int, p: seq<Coord>)
    decreases |p|
  {
    && |p| >= 1 && p[0] == start
    && (|p| > 1 ==>
         && HostileChain(w, start, radius, p[..|p| - 1])
         && ManhattanDistance(start, p[|p| - 2]) <= radius
         && IsHostile(w, p[|p| - 1])
         && p[|p| - 1] in Neighbours(w, p[|p| - 2]))
  }

  /** A closed search finds every enemy cell that a hostile chain reaches. */
  lemma {:induction false} ChainEndIsFound(w: Snapshot, start: Coord, radius: int, found: seq<Coord>, p: seq<Coord>)
    requires ClosedWithin(w, start, radius, found)
    requires HostileChain(w, start, radius, p)
    ensures p[|p| - 1] == start || p[|p| - 1] in found
  {
    if |p| > 1 {
      var q := p[..|p| - 1];
      ChainEndIsFound(w, start, radius, found, q);
      var v := q[|q| - 1];
      var d :| d in Directions && Neighbour(w, v, d) == p[|p| - 1];
      assert IsHostile(w, Neighbour(w, v, d));
    }
  }

  /** Every step of the grid moves by exactly one unit (no wrap-around). */
  ghost predicate UnitSteps(w: Snapshot)
  {
    forall c, d :: ManhattanDistance(c, Neighbour(w, c, d)) <= 1
  }

  /** On a grid without wrap-around, a recorded cell is at most one step beyond the radius. */
  lemma DiscoveredWithinRadiusPlusOne(w: Snapshot, start: Coord, radius: int, e: Coord)
    requires UnitSteps(w)
    requires DiscoveredWithin(w, start, radius, e)
    ensures ManhattanDistance(start, e) <= radius + 1
  {
    var v, d :| ManhattanDistance(start, v) <= radius && Neighbour(w, v, d) == e;
    ManhattanTriangle(start, v, e);
  }

  /* ---------------------------------------------------------------------- */
  /* Surrounded cells                                                       */
  /* ---------------------------------------------------------------------- */

  method IsSurroundedByFriendlyCells(w: Snapshot, cell: Coord) returns (surrounded: bool)
    ensures surrounded <==> forall d :: BelongsToMe(w, Neighbour(w, cell, d))
    ensures surrounded <==> |Matching(w, cell, Owned, Directions)| == 4
  {
    DirectionsInEnumOrder();
    MatchingAll(w, cell, Owned, Directions);
    for i := 0 to |Directions|
      invariant forall j :: 0 <= j < i ==> BelongsToMe(w, Neighbour(w, cell, Directions[j]))
    {
      var neighbor := Neighbour(w, cell, Directions[i]);
      if !BelongsToMe(w, neighbor) {
        return false;
      }
    }
    forall d ensures BelongsToMe(w, Neighbour(w, cell, d)) {
      assert Directions[Rank(d)] == d;
    }
    return true;
  }
}
