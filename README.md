# grid-wars strategy core in Dafny

Grid Wars is a turn-based game on a square grid. Every cell has an owner and
a population that grows each turn. Once per turn, every bot receives a
read-only view of the universe and appends movement commands to a list.
Each command says "send P units from cell C in direction D".

This project models the decision logic of three bots from the
`gridwars.starter` package, together with the shared neighbourhood helpers
they call:

- **BotUtils**: the neighbourhood analyser.
  - It counts friendly and enemy neighbours.
  - It sums the population of friendly neighbours.
  - It finds the weakest enemy neighbours and the directions of the longest
    run of enemy cells.
  - It runs a bounded breadth-first search for enemy cells.
  - It tests whether a cell is surrounded.
  - It provides the Manhattan distance.
- **Mercurial**: a two-state bot.
  - State 0 (up to turn 15) spreads population with a sequential split,
    capped at 100 units per destination. On turns 1 and 2 the first cell
    instead fires a fixed opening burst.
  - State 1 scans the four axes for the nearest enemy and attacks it. It
    then either saturates all four directions or splits the rest along
    its inner and outer neighbours. The split depends on where the cell
    lies relative to the base.
- **Frieren**: every cell above 20 units runs exactly one handler.
  - Expansion goes towards the best-scored empty neighbour.
  - Attack goes towards one of the weakest enemy neighbours.
  - Defense goes towards a random neighbour that is not its own.
- **QuantumConqueror**: a bot that does three things each turn.
  - It rebuilds a gravity map holding the number of enemy neighbours of
    each of its cells.
  - Before turn 50 it expands.
  - From turn 50 on, large cells attack the first enemy neighbour and
    small cells consolidate.

## Files and modules

- `Grid.dfy` (module `Grid`): the shared vocabulary.
  - The turn's view `Snapshot`. The neighbour step is a function field, so
    the grid topology stays abstract.
  - The four directions in an assumed enumeration order, Up, Down, Left,
    Right (see "## Left out").
  - `Matching`, a filter for "the directions whose neighbour passes a test".
  - Movement commands, the guarded `Move` and the random choice `Pick`.
- `BotUtils.dfy`: each static helper as a method with its loop, proved
  against a specification function or predicate.
- `MercurialBot.dfy`, `FrierenBot.dfy`, `QuantumConquerorBot.dfy`: one
  module per bot.
  - A class with the bot's fields.
  - A `GetNextCommands` method that updates those fields.
  - Loop methods for the per-cell work.
  - For each bot, a turn plan function `TurnPlan` that every method is
    proved against, and lemmas about that plan.

## Modelling conventions

- **The command list.** The list the bot appends to is a `seq<Command>`
  passed in and returned. Every method states that the returned list is
  the input list followed by exactly the commands its plan function
  prescribes.
- **Random choices.** `random.nextInt(n)` becomes a parameter. For the
  bots, `pick: Coord -> nat` gives each cell's draw. A list is indexed by
  `pick(cell) % |list|` (`Grid.Pick`). Every proved property holds for
  every draw.
- **Hash-map iteration order.** Collections whose order is unspecified in
  the source take an extra parameter: any enumeration of the four
  directions without repeats (`Grid.HashOrder`). This covers the cluster
  result list and Frieren's `Collections.max` over the score map.
- **Java int division.** Java's `/` truncates toward zero.
  - Mercurial's usable population can be negative, so its divisions go
    through `TruncDiv`, which rounds toward zero.
  - The other divisions only see non-negative operands, so Dafny's `/`
    agrees with Java's there.
- **Floating-point factors.** `(int) (pop * f)` multiplies by a double
  and truncates.
  - QuantumConqueror's 0.7 is modelled bit for bit by `SevenTenthsOf`. The
    double 0.7 is `6305039478318694 * 2^-53`, slightly below seven tenths.
    The product is rounded to the nearest double (ties to even) in its
    binade, then truncated.
  - For every int population this gives `pop * 7 / 10` when `pop` is not a
    multiple of ten, and that or one less when it is
    (`SevenTenthsNearExact`). At 90 it gives 62, not 63
    (`SevenTenthsOfNinety`).
  - Frieren's 0.6, 0.5, 0.3 and 0.4 become `Scale(pop, num, den) ==
    pop * num / den`, the exact truncation. For an int population the
    double product truncates to the same value. The error of the doubles
    0.6 and 0.3 (just below the true value) stays under half a unit in the
    last place of an exact result. The double 0.4 lies above 0.4, and 0.5
    is exact.
- **Mercurial's reserve.** `max(5, (int) sqrt(turn / 4.0))` is
  `Reserve(turn) == max(5, ISqrt(turn / 4))`.
  - `floor(sqrt(x)) == floor(sqrt(floor(x)))` for `x >= 0`, so this is
    exact.
  - For a negative turn the Java square root is NaN, which casts to 0, so
    the reserve is 5.
- **Mercurial's floating-point thresholds.** Two of the state-1
  comparisons are against floating-point thresholds. Their value depends
  only on the game's parameters, so the snapshot carries them as
  integers:
  - `usable > 0.55 / (growthRate - 1)` is `usable > w.expandAbove`, where
    `expandAbove` is the floor of the threshold;
  - `usable >= maximumPopulation / 4.90` is `usable >= w.saturateFrom`,
    where `saturateFrom` is its ceiling.

  For an integer `usable`, both comparisons are exact.
- **Missing helpers.** Frieren calls `BotUtils.move` and
  `BotUtils.getAvailableDirections`, which the BotUtils source does not
  define. The model gives them the meaning of QuantumConqueror's private
  methods of the same names (`QuantumConqueror.java:67-82`):
  - `Grid.Move` appends only a positive amount;
  - `BotUtils.GetAvailableDirections` returns the directions whose
    neighbour is empty or not owned, in enumeration order.

Three behaviours of the code differ from what a reader of the method names would expect. The model follows the code:

- **Mercurial's opening burst.** Only the first listed cell fires it. The
  loop then breaks, so no other cell orders anything that turn. It is not
  fired from every cell.
- **The search for enemies.** It checks the distance only before
  expanding a cell. A cell one step beyond the radius can therefore still
  be recorded (`DiscoveredWithinRadiusPlusOne`).
- **Frieren's enemy-cluster detection.** The search starts from the cell
  and only enqueues enemy cells. It therefore finds something exactly when
  an immediate neighbour is an enemy, whatever the radius
  (`DetectEnemyClusters`).

## Model

| member | source | states |
|---|---|---|
| Grid.Move | src/main/java/gridwars/starter/QuantumConqueror.java:78-82 | a command is appended exactly when the amount is positive, and it carries the given cell, direction and amount |
| Grid.Pick | src/main/java/gridwars/starter/QuantumConqueror.java:53 | a random index into a non-empty list always selects one of its members |
| Grid.Scale | src/main/java/gridwars/starter/Frieren.java:58 | the truncated fraction `(int) (pop * num/den)` of a population never exceeds that population |
| Grid.SelectedDirections | src/main/java/gridwars/starter/BotUtils.java:73-82 | filtering the four directions by a neighbour test yields, in enumeration order and without repeats, exactly the directions that pass, and its length is the number that pass |
| Grid.MatchingAll | src/main/java/gridwars/starter/BotUtils.java:144-152 | the filter keeps every direction exactly when every neighbour passes the test |
| BotUtils.CountFriendlyNeighbors | src/main/java/gridwars/starter/BotUtils.java:11-20 | the count is the number of directions whose neighbour belongs to the player, so it lies in 0..4 |
| BotUtils.CountEnemyNeighbors | src/main/java/gridwars/starter/BotUtils.java:23-32 | the count is the number of directions whose neighbour is non-empty and not owned, so it lies in 0..4 |
| BotUtils.CalculateNeighborPopulation | src/main/java/gridwars/starter/BotUtils.java:35-44 | the result is the sum of the populations of the owned neighbours, in enumeration order, and 0 when no neighbour is owned |
| BotUtils.OwnedPopulationSplit | src/main/java/gridwars/starter/BotUtils.java:37-43 | the owned neighbours' sum plus the other neighbours' sum is the whole neighbourhood sum, so each neighbour is counted on exactly one side and the owned sum never exceeds the total |
| BotUtils.MinPopulation | src/main/java/gridwars/starter/BotUtils.java:49-56 | the minimum over a non-empty direction list is attained by one of them and bounds all of them, replacing the `Integer.MAX_VALUE` sentinel |
| BotUtils.HostileMinimum | src/main/java/gridwars/starter/BotUtils.java:49-62 | the minimum over the hostile neighbours is attained by a hostile neighbour and bounds the population of every hostile neighbour |
| BotUtils.WeakestStep | src/main/java/gridwars/starter/BotUtils.java:51-63 | one loop step: a strictly weaker enemy restarts the list, an equally weak one is appended, anything else leaves list and minimum unchanged |
| BotUtils.WeakestIsTieComplete | src/main/java/gridwars/starter/BotUtils.java:47-65 | the weakest-enemy list holds, in enumeration order, exactly the hostile neighbours whose population equals the minimum over hostile neighbours; it is empty iff no neighbour is hostile |
| BotUtils.GetWeakestEnemyDirections | src/main/java/gridwars/starter/BotUtils.java:47-65 | the loop's list is the tie-complete weakest-enemy list: ordered, exactly the minimal hostile neighbours, empty iff no hostile neighbour |
| BotUtils.ManhattanDistance | src/main/java/gridwars/starter/BotUtils.java:68-70 | the distance is a natural number and is 0 exactly for equal coordinates |
| BotUtils.ManhattanSymmetric | src/main/java/gridwars/starter/BotUtils.java:68-70 | the distance is symmetric |
| BotUtils.ManhattanTriangle | src/main/java/gridwars/starter/BotUtils.java:68-70 | the distance obeys the triangle inequality |
| BotUtils.GetEmptyNeighborDirections | src/main/java/gridwars/starter/BotUtils.java:73-82 | exactly the directions with an empty neighbour, in enumeration order, no repeats |
| BotUtils.GetAvailableDirections | src/main/java/gridwars/starter/QuantumConqueror.java:67-76 | exactly the directions whose neighbour is empty or not owned, in enumeration order, no repeats |
| BotUtils.RunLength | src/main/java/gridwars/starter/BotUtils.java:92-96 | the walk counts at most its bound, and counts something exactly when its first cell is an enemy cell |
| BotUtils.ClusterRunPositive | src/main/java/gridwars/starter/BotUtils.java:88-100 | a direction enters the cluster map exactly when its immediate neighbour is an enemy cell |
| BotUtils.WalkRun | src/main/java/gridwars/starter/BotUtils.java:89-96 | the while loop counts the run of consecutive enemy cells along the direction |
| BotUtils.LargestRun | src/main/java/gridwars/starter/BotUtils.java:103 | the maximum of the map bounds every direction's run and is attained, or is 0 for an empty map |
| BotUtils.CollectLargest | src/main/java/gridwars/starter/BotUtils.java:105-110 | the collected directions are exactly the map keys whose run equals the maximum, each once, whatever the map's iteration order |
| BotUtils.GetEnemyClusterDirections | src/main/java/gridwars/starter/BotUtils.java:85-113 | as a set, exactly the directions whose enemy run is positive and maximal; no repeats; empty iff no immediate neighbour is an enemy |
| BotUtils.GetEnemiesInRadius | src/main/java/gridwars/starter/BotUtils.java:116-141 | results are distinct enemy cells, never the start, each a neighbour of a cell within the radius; every hostile neighbour of the start and of every result within the radius is itself recorded; the first result neighbours the start |
| BotUtils.VisitNext | src/main/java/gridwars/starter/BotUtils.java:123-137 | one dequeue keeps the search invariant and shrinks the unvisited enemy cells or the queue |
| BotUtils.ExpandNeighbours | src/main/java/gridwars/starter/BotUtils.java:130-137 | the enemy neighbours not yet visited are recorded, enqueued and marked visited, each once, after which every hostile neighbour of the expanded cell is visited |
| BotUtils.SearchClosed | src/main/java/gridwars/starter/BotUtils.java:123-138 | when the queue is empty, every cell within the radius that was searched has all its enemy neighbours recorded |
| BotUtils.ChainEndIsFound | src/main/java/gridwars/starter/BotUtils.java:116-141 | every enemy cell reached from the start through a chain of enemy cells, each but the last within the radius, is recorded |
| BotUtils.DiscoveredWithinRadiusPlusOne | src/main/java/gridwars/starter/BotUtils.java:125-133 | on a grid whose steps move one unit, every recorded cell is within radius + 1 of the start |
| BotUtils.IsSurroundedByFriendlyCells | src/main/java/gridwars/starter/BotUtils.java:144-152 | true exactly when all four neighbours are owned, i.e. when the friendly-neighbour count is 4 |
| MercurialBot.ISqrt | src/main/java/gridwars/starter/Mercurial.java:40 | the integer square root `s` satisfies `s*s <= n < (s+1)*(s+1)` |
| MercurialBot.Reserve | src/main/java/gridwars/starter/Mercurial.java:39-40 | the reserve is at least 5, exceeds 5 only as the integer square root of turn/4, is 5 for every turn before 144, and from turn 100 on its square is at most turn/4 while the next square is above it |
| MercurialBot.TruncDiv | src/main/java/gridwars/starter/Mercurial.java:111-112 | Java division: rounds toward zero for both signs of the dividend |
| MercurialBot.Usable | src/main/java/gridwars/starter/Mercurial.java:39-40 | a cell keeps at least 5 units back |
| MercurialBot.Classify | src/main/java/gridwars/starter/Mercurial.java:67-85 | exactly one of the nine quadrant flags holds, each for exactly its relative position to the base |
| MercurialBot.FirstSighting | src/main/java/gridwars/starter/Mercurial.java:93-105 | the scan stops at the smallest step at which some axis sees an enemy cell; no flag is set if no step within the universe size does |
| MercurialBot.ScanForEnemy | src/main/java/gridwars/starter/Mercurial.java:93-105 | the loop with its `break` returns the first step's sighting, or no sighting at all |
| MercurialBot.Attack | src/main/java/gridwars/starter/Mercurial.java:109-125 | at most one attack, present iff an enemy was sighted, of half the usable units, towards the first flagged direction in the order UP, DOWN, RIGHT, LEFT |
| MercurialBot.AttackWithin | src/main/java/gridwars/starter/Mercurial.java:109-125 | the attack is non-negative and takes exactly half the usable units when an enemy is sighted, nothing otherwise |
| MercurialBot.AttackStep | src/main/java/gridwars/starter/Mercurial.java:109-125 | the usable population is reduced by exactly the amount attacked |
| MercurialBot.Saturate | src/main/java/gridwars/starter/Mercurial.java:129-133 | four commands, one per direction in enumeration order, each `(usable-1)/4` |
| MercurialBot.SaturateWithin | src/main/java/gridwars/starter/Mercurial.java:129-133 | saturation sends at most `usable - 1` in total |
| MercurialBot.Uniform | src/main/java/gridwars/starter/Mercurial.java:180-183 | one command per listed direction, in order, all with the same amount |
| MercurialBot.TotalUniform | src/main/java/gridwars/starter/Mercurial.java:217-220 | an equal split over `n` directions sends `n` times the share |
| MercurialBot.SharesWithin | src/main/java/gridwars/starter/Mercurial.java:217-220 | `n` equal shares of a non-negative amount never exceed it |
| MercurialBot.SendEach | src/main/java/gridwars/starter/Mercurial.java:218-220 | the loop emits the uniform split, whose total is the number of directions times the share |
| MercurialBot.SplitDirections | src/main/java/gridwars/starter/Mercurial.java:138-148 | inner directions are exactly the owned neighbours, outer exactly the others, both in enumeration order; the split counters are their lengths and sum to 4 |
| MercurialBot.ComplementLengths | src/main/java/gridwars/starter/Mercurial.java:138-148 | every direction is counted on exactly one side |
| MercurialBot.PartitionShape | src/main/java/gridwars/starter/Mercurial.java:149-155 | inner and outer partition the four directions; `corner` iff the split is 2-2, `Inner` iff at least three inner, `Outer` iff at least three outer |
| MercurialBot.InnerPlanWithin | src/main/java/gridwars/starter/Mercurial.java:157-216 | every inner-branch plan (diagonal halves, axis thirds, centre shares or the single UP move) orders non-negative amounts totalling at most the usable units |
| MercurialBot.SplitPlanWithin | src/main/java/gridwars/starter/Mercurial.java:157-225 | the inner, outer and corner branches order non-negative amounts totalling at most the usable units |
| MercurialBot.RestPlanWithin | src/main/java/gridwars/starter/Mercurial.java:129-225 | saturation or the split orders non-negative amounts totalling at most the usable units |
| MercurialBot.State1Within | src/main/java/gridwars/starter/Mercurial.java:88-226 | a state-1 cell orders non-negative amounts totalling at most its usable units, and nothing at or below the expansion threshold |
| MercurialBot.AttackThenRestWithin | src/main/java/gridwars/starter/Mercurial.java:106-226 | whatever the scan sighted, the attack followed by the saturation or split of what it left orders non-negative amounts totalling at most the usable units |
| MercurialBot.SaturateOrSplit | src/main/java/gridwars/starter/Mercurial.java:129-225 | the branch emits the saturation or split plan for the units left after the attack |
| MercurialBot.ExpandInner | src/main/java/gridwars/starter/Mercurial.java:157-216 | the inner branch emits the inner plan for the cell's quadrant |
| MercurialBot.PlanState1 | src/main/java/gridwars/starter/Mercurial.java:88-226 | a state-1 cell emits its attack and then the plan for the remaining units, or nothing below the threshold |
| MercurialBot.Offer | src/main/java/gridwars/starter/Mercurial.java:257-309 | an offer never exceeds what remains nor the room left under the destination's ceiling of 100 |
| MercurialBot.CappedPlanMoves | src/main/java/gridwars/starter/Mercurial.java:257-309 | every capped move is positive, keeps its destination at or below 100 and brings it to at least 5 |
| MercurialBot.CappedPlanTotal | src/main/java/gridwars/starter/Mercurial.java:257-309 | the capped moves total between 0 and the units available |
| MercurialBot.EqualShare | src/main/java/gridwars/starter/Mercurial.java:257-309 | an equal share of at least 5 units per direction is itself at least 5, is everything when one direction is left, and leaves at least 5 for each other direction |
| MercurialBot.CappedPlanExhausts | src/main/java/gridwars/starter/Mercurial.java:257-309 | with every destination empty of own units, at least 5 units per direction and at most 100 in total, the capped split hands out exactly the units available |
| MercurialBot.CappedSplit | src/main/java/gridwars/starter/Mercurial.java:257-309 | the loop emits the capped plan, `remaining` never goes negative, and emitted plus remaining equals the initial usable population |
| MercurialBot.State0Sound | src/main/java/gridwars/starter/Mercurial.java:237-312 | every state-0 order is a capped move, the total is at most the usable units, and a cell with at most two owned neighbours only orders towards cells it does not own |
| MercurialBot.PlanState0 | src/main/java/gridwars/starter/Mercurial.java:237-312 | a state-0 cell emits its capped split, and nothing when it has no usable units |
| MercurialBot.Opening | src/main/java/gridwars/starter/Mercurial.java:230-234 | the opening burst is one command per direction, in enumeration order, from the given cell |
| MercurialBot.OpeningTotal | src/main/java/gridwars/starter/Mercurial.java:230-234 | the opening burst sends 20 + 25 + 25 + 25 = 95 units |
| MercurialBot.TurnPlanOrigins | src/main/java/gridwars/starter/Mercurial.java:36-315 | on turn 1 or 2 in state 0 the turn's orders are exactly the first cell's opening burst; every order leaves from an owned cell |
| MercurialBot.PlanCell | src/main/java/gridwars/starter/Mercurial.java:36-312 | a cell's orders follow its state: the state-1 plan for its quadrant or the state-0 capped split |
| MercurialBot.PlanTurn | src/main/java/gridwars/starter/Mercurial.java:36-315 | the cell loop, with its early exit after the opening burst, appends exactly the turn plan to the command list |
| MercurialBot.Mercurial.GetNextCommands | src/main/java/gridwars/starter/Mercurial.java:22-316 | fails exactly when no base is set and there are no cells; the base is set only on the first call; the state becomes 1 after turn 15 and never returns to 0; the turn plan is appended |
| FrierenBot.ShouldExpandCounts | src/main/java/gridwars/starter/Frieren.java:99-102 | a cell expands iff the turn is before 40 and fewer than three of its neighbours are owned |
| FrierenBot.NoExpansionLate | src/main/java/gridwars/starter/Frieren.java:99-102 | from turn 40 on no cell expands |
| FrierenBot.HandlerFor | src/main/java/gridwars/starter/Frieren.java:40-48 | no handler at 20 units or fewer; above that exactly one: expansion iff the cell should expand, otherwise attack iff above 50 units, otherwise defense |
| FrierenBot.PoolingRegion | src/main/java/gridwars/starter/Frieren.java:123-125 | the pooling test holds at the base, is symmetric, holds only within 5 on each axis and never at Manhattan distance 5 or more |
| FrierenBot.BestOf | src/main/java/gridwars/starter/Frieren.java:95 | the chosen direction is a member of the list and its score is maximal among them |
| FrierenBot.ScoreDirections | src/main/java/gridwars/starter/Frieren.java:87-93 | the score map has exactly the listed directions as keys, each mapped to twice its friendly count minus its enemy count |
| FrierenBot.ScanStep | src/main/java/gridwars/starter/Frieren.java:95 | one step of the maximum: an empty neighbour with a strictly higher score replaces the candidate, anything else leaves it |
| FrierenBot.MaxEntry | src/main/java/gridwars/starter/Frieren.java:95 | the scan over the map in its iteration order returns the first entry of maximal score |
| FrierenBot.SelectBestDirectionForExpansion | src/main/java/gridwars/starter/Frieren.java:86-96 | the result is one of the empty directions and no empty direction scores higher |
| FrierenBot.RedistributeSound | src/main/java/gridwars/starter/Frieren.java:111-120 | at most one move of 40% of the population to a neighbour that is not owned, absent exactly when the cell has at most 20 units or no such neighbour |
| FrierenBot.CellPlanSound | src/main/java/gridwars/starter/Frieren.java:37-83 | a cell orders at most one positive move within its population; expansion goes to a best-scored empty neighbour, attack to a weakest enemy, defense to a neighbour that is not owned, each silent exactly when it has no such neighbour |
| FrierenBot.TurnPlanSound | src/main/java/gridwars/starter/Frieren.java:37-49 | at most one order per cell, each leaving from a listed cell |
| FrierenBot.HandleExpansion | src/main/java/gridwars/starter/Frieren.java:53-61 | appends 60% of the population towards the best empty neighbour, or nothing when there is none |
| FrierenBot.HandleAttack | src/main/java/gridwars/starter/Frieren.java:64-72 | appends half the population towards a randomly chosen weakest enemy, or nothing when there is none |
| FrierenBot.HandleDefense | src/main/java/gridwars/starter/Frieren.java:75-83 | appends 30% of the population towards a random neighbour that is not owned, or nothing when there is none |
| FrierenBot.RedistributePopulation | src/main/java/gridwars/starter/Frieren.java:111-120 | appends the redistribution plan |
| FrierenBot.DetectEnemyClusters | src/main/java/gridwars/starter/Frieren.java:105-108 | true exactly when some neighbour other than the cell itself is an enemy cell |
| FrierenBot.Frieren.ShouldExpandCell | src/main/java/gridwars/starter/Frieren.java:99-102 | the method agrees with the expansion decision for the stored turn |
| FrierenBot.Frieren.PlanCell | src/main/java/gridwars/starter/Frieren.java:38-48 | the loop body appends that cell's plan |
| FrierenBot.Frieren.PlanCells | src/main/java/gridwars/starter/Frieren.java:37-49 | the cell loop appends the turn plan |
| FrierenBot.Frieren.GetNextCommands | src/main/java/gridwars/starter/Frieren.java:29-50 | the current turn is always stored; fails exactly when no base is set and there are no cells; the base is set only on the first call; the turn plan is appended |
| QuantumConquerorBot.FirstHostileIsFirst | src/main/java/gridwars/starter/QuantumConqueror.java:87-93 | the first enemy direction is absent iff no listed neighbour is an enemy, and otherwise is listed, hostile and preceded by no enemy |
| QuantumConquerorBot.FirstHostileAmongOpen | src/main/java/gridwars/starter/QuantumConqueror.java:84-93 | searching the available directions finds the same first enemy as searching all four, since every enemy neighbour is available |
| QuantumConquerorBot.FirstHostilePrefix | src/main/java/gridwars/starter/QuantumConqueror.java:87-93 | once an enemy is found in a prefix, it is the first enemy of the whole list |
| QuantumConquerorBot.RoundHalfEven | src/main/java/gridwars/starter/QuantumConqueror.java:54 | the rounded multiple of the spacing lies within half a spacing of the exact product, strictly unless the product sits exactly halfway |
| QuantumConquerorBot.RoundedProduct | src/main/java/gridwars/starter/QuantumConqueror.java:54 | the double nearest to `p * 0.7`, for products of at least one, is less than `p` units of 2^-53 away from the exact product `p * SevenTenths` |
| QuantumConquerorBot.SevenTenthsOf | src/main/java/gridwars/starter/QuantumConqueror.java:54 | `(int) (p * 0.7)` with the double 0.7: never above `p`, and at least 1 from `p = 2` on |
| QuantumConquerorBot.SevenTenthsNearExact | src/main/java/gridwars/starter/QuantumConqueror.java:54 | for every int population the share is `p * 7 / 10` or one less, and exactly `p * 7 / 10` when `p` is not a multiple of ten |
| QuantumConquerorBot.SevenTenthsOfNinety | src/main/java/gridwars/starter/QuantumConqueror.java:54 | at 90 units the share is 62, one below `90 * 7 / 10 == 63` |
| QuantumConquerorBot.CellPlanSound | src/main/java/gridwars/starter/QuantumConqueror.java:38-108 | at most one move per cell, absent iff the cell has at most 10 units or no available neighbour; otherwise a positive amount within the population to an available neighbour: before turn 50 the truncated double product `population * 0.7` (`SevenTenthsOf`), which for an int population is `population * 7 / 10`, or one less at a multiple of ten; then half to the first enemy or a third without one above 50 units, a quarter otherwise |
| QuantumConquerorBot.TurnPlanSound | src/main/java/gridwars/starter/QuantumConqueror.java:38-44 | at most one order per cell, each leaving from a listed cell with a positive amount within its population towards an available neighbour |
| QuantumConquerorBot.HandleAggressiveMove | src/main/java/gridwars/starter/QuantumConqueror.java:84-98 | the loop with its early return appends half the population to the first enemy, or a third towards a random available direction, or nothing |
| QuantumConquerorBot.Consolidate | src/main/java/gridwars/starter/QuantumConqueror.java:100-108 | appends a quarter of the population towards a random available direction, or nothing when there is none |
| QuantumConquerorBot.ExpandOrDefend | src/main/java/gridwars/starter/QuantumConqueror.java:47-65 | appends exactly the cell's plan: before turn 50, `SevenTenthsOf(population)` towards a random available direction (nothing without one); afterwards the aggressive move above 50 units and the consolidation otherwise |
| QuantumConquerorBot.PlanTurn | src/main/java/gridwars/starter/QuantumConqueror.java:38-44 | the cell loop appends the turn plan |
| QuantumConquerorBot.QuantumConqueror.GetNextCommands | src/main/java/gridwars/starter/QuantumConqueror.java:25-45 | fails exactly when no base is set and there are no cells; the base is set only on the first call; the gravity map's keys are exactly the current cells, each mapped to its number of enemy neighbours in 0..4; the turn plan is appended |

## Left out

- The game engine and `EmulatorRunner`, which only start a match: not
  part of this model.
- The direction order. The game's direction enum is not part of this
  model. Its values are assumed to enumerate as Up, Down, Left, Right
  (`Grid.Directions`). Every "in enumeration order" claim and the choice
  of the first enemy neighbour depend on that assumption.
- Grid topology. `Coordinates.getNeighbour` and `getUp(i)` and the rest
  are a function field of the snapshot, so the model does not know the
  size of the grid or whether its edges wrap.
  `DiscoveredWithinRadiusPlusOne` assumes, as its hypothesis, steps of one
  unit.
- BotUtils.RunLength: the Java walk along a run of enemy cells has no
  bound and never ends on a wrapping grid whose whole row is enemy. The
  model bounds it by the number of occupied cells, so on such a row it
  returns that number instead of diverging.
- Floating point.
  - Frieren's fractions are exact truncations (`Scale`). That the double
    products truncate to the same ints is argued under "Modelling
    conventions", not proved. QuantumConqueror's 0.7 is modelled exactly
    (`SevenTenthsOf`).
  - Mercurial's two threshold quotients are integer fields of the
    snapshot, `expandAbove` and `saturateFrom`. The model does not derive
    them from the growth rate and the maximum population.
  - Mercurial's `attackSplit` and the other split divisors are the
    integer constants they hold.
  - `populationSoftLimit` is the constant 0.55, folded into
    `expandAbove`.
- Integer overflow. Populations and amounts are unbounded integers. The
  model assumes the game's maximum population (a runtime value the bots
  read from the game) is far below the 32-bit limits; only Mercurial's
  capped split writes the ceiling 100 into its own code.
- The random number generator: its draws are the parameter `pick`.
- Hash-map iteration order: a parameter, `Grid.HashOrder`.
- BotUtils.GetEnemyClusterDirections: the order of the result is stated
  only as "each direction once", because it follows the hash map.
- FrierenBot.SelectBestDirectionForExpansion: a tie between equal scores
  goes to the first maximal entry in the map's iteration order. Its
  contract promises only a maximal empty direction, because that order
  is unspecified.
- Frieren's `applyWeightedDecisionSystem`: a weighted random choice over
  floating-point draws that nothing calls. It is left out, and so are the
  calls to `detectEnemyClusters` and `prioritizeResourcePooling` that
  only it makes. Those two are modelled on their own.
- QuantumConqueror's `gravityMap`: rebuilt every turn but never read by
  any decision, so it influences no command.
- `Grid.Move` and `BotUtils.GetAvailableDirections` stand for
  `BotUtils.move` and `BotUtils.getAvailableDirections`. The BotUtils
  source calls them but does not define them. The model gives them the
  semantics of the methods of the same name in `QuantumConqueror.java`.
- An exception from `myCells.get(0)` on the first call with no cells is
  the result `ok == false`, with the command list unchanged.
