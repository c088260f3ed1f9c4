# Tunnelman simulation engine, modelled in Dafny

This project models the simulation core of the Tunnelman digging game: the
64 x 60 earth grid and its blocking queries, the per-tick update of the
player and of every actor (boulders, oil barrels, gold nuggets, sonar kits,
water pools, squirts, regular and hardcore protesters), the protesters'
state machines and breadth-first searches, level setup, and the tick driver
`move()` with its sweep of dead actors.

Layout, one module per file:

- `geometry.dfy` (`Geometry`): the terrain extent, directions, and squared
  integer distances. Every `sqrt(pow..)` test against 3.0, 4.0, 6.0, 12.0 or M
  is modelled exactly as `dx*dx + dy*dy <= r*r`.
- `actors.dfy` (`Actors`): the closed set of actor kinds as one datatype, the
  player's record, the protester counters with their setters, and
  `annoy`/`bribeWithGold`. It also holds the boulder's stable/waiting/falling
  phase and the shout clock.
- `world.dfy` (`StudentWorld`): the class `World`. It holds the earth flags
  (`array2<bool>`), the actor list (`seq<Actor>`), the player, the counters
  and the random stream. It has the terrain queries, `annoyProtestersAt`,
  `revealHiddenObjects`, the sweep and `init`.
- `objects.dfy` (`Objects`): `doSomething` of the barrel, boulder, gold
  nugget, sonar kit, water pool and squirt.
- `player.dfy` (`Player`): `Tunnelman::doSomething` and its helpers.
- `paths.dfy` (`Paths`): what the breadth-first searches compute. It defines
  distance in open cells and the invariant both searches keep. Its lemmas
  prove that every label is the exact distance and that the queue never holds
  a cell twice.
- `pathfinding.dfy` (`Pathfinding`): `getPathToExit`/`getPathToTunnelman` and
  `canReachTunnelman` as imperative searches over arrays.
- `protesters.dfy` (`Protesters`): the regular and hardcore protester ticks.
  Each is a pure function describing one tick, with a method on the world
  that is proved to perform it.
- `tick.dfy` (`Tick`): `move()`, covering protester arrival, the actor loop,
  goodie spawning and the sweep.

`rand()` is modelled as a fixed stream `rng: nat -> nat` with a cursor
`drawn`. Each draw reads `rng(drawn)` and advances the cursor, so every
contract says which draws an operation consumed and in what order.

Behaviours of the code worth noting:

- A hardcore protester never sets its resting ticks after acting, its shout
  included (Actor.cpp:653-715).
- A wandering protester tries a perpendicular turn only when its run did not
  just end. This is an `else if` (Actor.cpp:494-499).

Two defects of the code are logged under Findings, each with a member for
the code as written and a corrected member. The rest of the model (the
actor updates and the tick) runs the corrected behaviour, as listed under
Left out: a falling boulder also hits the player, and the path step may
step up from row 59 into row 60.

## Model

| member | source | states |
|---|---|---|
| Geometry.Dist2 | StudentWorld.cpp:372-376 | the squared distance is never negative and is 0 exactly at the same cell |
| Geometry.WithinRadiusBoxed | StudentWorld.cpp:348-357 | a cell within radius r of another differs from it by at most r on each axis |
| Actors.ProtesterState.WithTicksSinceLastShout | Actor.h:160 | the setter sets ticksSinceLastShout and leaves every other protester field unchanged |
| Actors.ProtesterState.WithTicksSinceLastTurn | Actor.h:161 | the setter sets ticksSinceLastTurn and leaves every other protester field unchanged |
| Actors.ProtesterState.WithRestingTicks | Actor.h:162 | the setter sets restingTicks and leaves every other protester field unchanged |
| Actors.ProtesterState.WithNumSquaresToMove | Actor.h:163 | the setter sets numSquaresToMove and leaves every other protester field unchanged |
| Actors.Actor.IsProtester | Actor.h:18 | the protester capability holds exactly for the Protester kind (regular or hardcore) |
| Actors.RestTicks | Actor.cpp:470 | the post-action rest max(0, 3 - level/4) lies in 0..3 and equals 3 - level/4 below level 12 |
| Actors.StunTicks | Actor.cpp:523 | the stun after a non-fatal annoyance, max(50, 100 - 10*level), lies in 50..100 |
| Actors.GoodieLifetime | Actor.cpp:419 | a sonar kit's or water pool's lifetime max(100, 300 - 10*level) lies in 100..300 |
| Actors.SquaresToMove | Actor.cpp:498 | a new run length rand() % 53 + 8 lies in 8..60 |
| Actors.NewProtester | Actor.cpp:439-449 | a new protester starts alive and visible at the exit (60,60) facing left, not leaving, with shout and turn clocks 0, 5 or 20 hit points, a run length of `draw % 53 + 8` in [8, 60], the level's rest ticks, and for a hardcore one a stare timer of 0 |
| Actors.Annoy | Actor.cpp:505-525 | a no-op once leaving; otherwise subtracts the amount; at 0 or below it leaves with rest 0 and awards 500 if the amount is at least 100, else 100; otherwise it is stunned for max(50, 100 - 10*level) |
| Actors.AnnoyAwardsAtMostOnce | Actor.cpp:505-525 | over any run of annoyances a protester awards points at most once (100 or 500), only on the annoyance that makes it leave |
| Actors.Bribe | Actor.cpp:527-549 | a regular protester leaves with rest 0 for 25 points; a hardcore one keeps its state, starts a stare of max(50, 100 - 10*level) ticks, for 50 points |
| Actors.BoulderSettle | Actor.cpp:68-85 | a stable boulder starts waiting with counter 30 exactly when no earth is below; a waiting one counts down and falls when the counter reaches 0 or less; it never returns to stable |
| Actors.WaitLastsThirtyTicks | Actor.cpp:76-85 | a boulder that starts waiting keeps waiting for 29 ticks and is falling on the 30th |
| Actors.WaitCountdown | Actor.cpp:80-85 | a waiting boulder with counter t is still waiting after n < t ticks and falling after exactly t |
| Actors.Active | Actor.cpp:461-462 | the number of non-resting ticks in a run of protester ticks never exceeds the run's length |
| Actors.ClockBoundedByActive | Actor.cpp:461-480 | the shout clock after a run is at most its starting value plus the run's non-resting ticks |
| Actors.ShoutsAreSpaced | Actor.cpp:474-480 | in a legal run from clock 0, every shout comes at least 15 non-resting ticks after the start or the previous shout |
| Actors.ActiveSplit | Actor.cpp:461-462 | non-resting ticks add up over concatenated runs |
| Actors.AnnoyTunnelman | Actor.cpp:380-386 | annoying the player subtracts the amount from its hit points, and it dies exactly when they reach 0 or less; its cell, facing, water, sonar and gold are unchanged |
| StudentWorld.BoulderCount | StudentWorld.cpp:54 | B = min(level/2 + 2, 9) lies in 2..9 |
| StudentWorld.GoldCount | StudentWorld.cpp:52 | G = max(5 - level/2, 2) lies in 2..5 |
| StudentWorld.BarrelCount | StudentWorld.cpp:55 | L = min(2 + level, 21) lies in 2..21 |
| StudentWorld.SpawnInterval | StudentWorld.cpp:172 | T = max(25, 200 - level) lies in 25..200 |
| StudentWorld.ProtesterCap | StudentWorld.cpp:173 | P, in integer arithmetic, equals min(15, floor(2 + 1.5*level)) and lies in 2..15 |
| StudentWorld.HardcorePercent | StudentWorld.cpp:180 | the hardcore percentage min(90, 10*level + 30) lies in 30..90 |
| StudentWorld.GoodieOdds | StudentWorld.cpp:212 | the goodie odds 25*level + 300 are at least 300 |
| StudentWorld.BoulderAt | StudentWorld.cpp:325-333 | isBoulderAt holds exactly when some boulder's anchor is that cell |
| StudentWorld.BoulderCovers | StudentWorld.cpp:335-346 | the boulder part of isBlocked holds exactly when the cell lies in [bx, bx+4) x [by, by+4) of some boulder |
| StudentWorld.BoulderWithin | StudentWorld.cpp:348-357 | isBoulderNearby holds exactly when some boulder's anchor is within the radius |
| StudentWorld.AnchorIsCovered | StudentWorld.cpp:325-346 | a boulder's anchor cell is blocked by that boulder |
| StudentWorld.LiveProtesters | StudentWorld.cpp:175-177 | the live-protester count is at most the list length and is 0 exactly when no live protester is listed |
| StudentWorld.AnnoyOne | StudentWorld.cpp:24-31 | an actor is annoyed exactly when it is a protester within the radius; otherwise it and the score are untouched |
| StudentWorld.AnnoyAll | StudentWorld.cpp:22-34 | annoyProtestersAt annoys every listed actor independently and reports true exactly when some protester is within the radius |
| StudentWorld.AnnoyAllSnoc | StudentWorld.cpp:22-34 | the scan over a list ending in one more actor is the scan of the prefix followed by that actor's annoyance |
| StudentWorld.MissChangesNothing | StudentWorld.cpp:22-34 | a scan that reports false changes no actor and awards nothing, so repeating it also reports false |
| StudentWorld.Reveal | StudentWorld.cpp:363-371 | revealHiddenObjects makes visible exactly the actors within the radius and changes nothing else |
| StudentWorld.Survivors | StudentWorld.cpp:246-254 | the sweep keeps only live actors |
| StudentWorld.SurvivorsAppend | StudentWorld.cpp:246-254 | the sweep distributes over concatenation, so survivors keep their relative order |
| StudentWorld.SurvivorsKeepLive | StudentWorld.cpp:246-254 | every live actor survives the sweep as often as it was listed; every dead actor is removed |
| StudentWorld.SurvivorsAllAlive | StudentWorld.cpp:246-254 | a list of live actors is left as it is |
| StudentWorld.PlacedObject | StudentWorld.cpp:83-84 | a placed object sits at its placement and is alive; only a boulder starts visible |
| StudentWorld.PlacedObjects | StudentWorld.cpp:83-163 | placing a list of positions adds one object per position, in order |
| StudentWorld.AcceptKeepsSeparated | StudentWorld.cpp:69-75 | accepting a position more than 6 from every earlier one keeps all placed objects pairwise more than 6 apart |
| StudentWorld.CarveStep | StudentWorld.cpp:77-82 | carving one more boulder footprint keeps the earth equal to the initial earth minus every carved footprint |
| StudentWorld.World.constructor | StudentWorld.cpp:11-16 | a new world has an empty 64 x 60 earth grid and no actors |
| StudentWorld.World.Rand | StudentWorld.cpp:62 | a draw returns the next value of the stream and advances it by one |
| StudentWorld.World.IsEarthAt | StudentWorld.cpp:319-323 | there is earth only at cells inside [0,64) x [0,60) |
| StudentWorld.World.RemoveEarth | StudentWorld.cpp:308-317 | removeEarth returns whether the cell held earth and leaves it empty; no other cell changes, and off-grid cells change nothing |
| StudentWorld.World.RemoveEarthTwice | StudentWorld.cpp:308-317 | a second removeEarth on the same cell returns false |
| StudentWorld.World.AddActor | StudentWorld.cpp:359-361 | addActor appends the actor to the list |
| StudentWorld.World.DecrementBarrels | StudentWorld.h:33 | decrementBarrels lowers the oil count by exactly one and touches nothing else |
| StudentWorld.World.AnnoyProtestersAt | StudentWorld.cpp:22-34 | the loop performs AnnoyAll: new actor list, score increase and result |
| StudentWorld.World.RevealHiddenObjects | StudentWorld.cpp:363-371 | the loop performs Reveal on the actor list |
| StudentWorld.World.Sweep | StudentWorld.cpp:246-254 | the erase loop leaves exactly Survivors of the old list |
| StudentWorld.World.CheckPosition | StudentWorld.cpp:61-76 | the acceptance test holds exactly for x outside 27..33, more than 6 from every earlier object, and, for gold and barrels, a footprint that is all earth |
| StudentWorld.World.ClearFootprint | StudentWorld.cpp:77-82 | clearing a boulder's footprint removes earth exactly from its in-grid 4 x 4 cells |
| StudentWorld.World.DrawAnchor | StudentWorld.cpp:62-63 | one attempt's draws: x = rand() % 61, and y = rand() % 37 + 20 for a boulder or rand() % 57 otherwise, using up two draws |
| StudentWorld.World.TryBoulder | StudentWorld.cpp:61-84 | one boulder attempt places the boulder exactly when its position is acceptable and clears its footprint; the earth stays the initial earth minus the footprints of every boulder placed so far, this one included |
| StudentWorld.World.TryOnEarth | StudentWorld.cpp:90-123 | one gold or barrel attempt places the object exactly when its position is acceptable, earth under the whole footprint included; every object the loop placed, this one included, lies on all earth |
| StudentWorld.World.AllOnEarthSnoc | StudentWorld.cpp:98-111 | adding an anchor whose footprint is all earth keeps every anchor on all earth |
| StudentWorld.InBandSnoc | StudentWorld.cpp:62-68 | adding an anchor with x in [0, 60] outside columns 27..33 keeps every anchor in the band |
| StudentWorld.World.PlaceBoulders | StudentWorld.cpp:58-86 | placing up to B boulders keeps them in the band and pairwise more than 6 apart, appends exactly those boulders, and the earth loses exactly their footprints |
| StudentWorld.World.PlaceOnEarth | StudentWorld.cpp:88-164 | placing up to G nuggets (or L barrels) keeps every object placed so far in the band and pairwise more than 6 apart, appends exactly those objects, and every one of them has earth under its whole footprint |
| StudentWorld.World.Init | StudentWorld.cpp:36-166 | init starts the tick counters, sets the oil count to L and the player at its start, and places at most B boulders, G gold and L barrels, pairwise more than 6 apart; the earth is everywhere except the shaft and the boulder footprints, and every gold nugget and barrel has earth under its whole footprint |
| StudentWorld.World.Populate | StudentWorld.cpp:57-164 | boulders, then gold, then barrels are placed in that order under the band and separation rules; the earth is everywhere except the shaft and the boulder footprints, and every gold nugget and barrel has earth under its whole footprint |
| StudentWorld.World.FillEarth | StudentWorld.cpp:42-49 | earth fills the grid except columns 30..33, rows 4..59 |
| Objects.Countdown | Actor.cpp:176-178 | a pickup's lifetime drops by one, and it stays alive exactly while the lifetime is positive |
| Objects.LifetimeIsExact | Actor.cpp:176-178 | a pickup with lifetime t is still alive after n ticks exactly when n < t |
| Objects.BarrelTick | Actor.cpp:34-54 | a hidden barrel within 4 becomes visible without being collected; a visible barrel within 3 is collected and dies; a dead one does nothing |
| Objects.BarrelCollectedAtMostOnce | Actor.cpp:34-54 | over any run of ticks a barrel is collected at most once, and only if it started alive |
| Objects.HiddenBarrelNeedsTwoTicks | Actor.cpp:38-52 | a hidden barrel is never collected on its first tick; collecting it on the second needs distance 4 then 3 |
| Objects.BarrelDoSomething | Actor.cpp:34-54 | the tick performs BarrelTick; collection adds 1000 and lowers the oil count by one |
| Objects.ScanBelow | Actor.cpp:69-75 | the scan reports earth exactly when one of cells (x..x+3, y-1) has earth |
| Objects.ImpactAsWritten | Actor.cpp:92-97 | the impact as written annoys the protesters within 3 by 100 and leaves the player untouched |
| Objects.Impact | Actor.cpp:92-97 | the corrected impact also subtracts 100 from the player's hit points when the player is within 3 |
| Objects.BoulderSparesPlayerAsWritten | Actor.cpp:92-97 | a boulder landing on the player's cell leaves the player alive as written, and kills it in the corrected impact |
| Objects.BoulderDoSomething | Actor.cpp:61-100 | a dead boulder does nothing; a stable or waiting one settles; a falling one that is blocked or at row 0 dies in place; otherwise it applies the impact and moves down one row; a falling boulder stays falling |
| Objects.FirstNear | Actor.cpp:127-140 | the bribed protester is the first listed live protester within 3, or none |
| Objects.FindBribee | Actor.cpp:127-140 | the loop finds FirstNear |
| Objects.FirstNearIs | Actor.cpp:127-140 | FirstNear is the unique index that is near with no near protester before it |
| Objects.Bribed | Actor.cpp:101-108 | bribing a protester applies Bribe and keeps its place and liveness |
| Objects.GoldDoSomething | Actor.cpp:118-156 | hidden gold within 4 becomes visible; protester-claimable gold bribes the first protester within 3 and dies, or else ages; player gold within 3 gives +1 gold and +10 |
| Objects.SonarKitDoSomething | Actor.cpp:164-179 | a sonar kit within 3 gives +1 charge and +75 and dies; otherwise it ages and dies at lifetime 0 |
| Objects.WaterPoolDoSomething | Actor.cpp:422-437 | a water pool within 3 gives +5 water and +100 and dies; otherwise it ages and dies at lifetime 0 |
| Objects.SquirtAdvance | Actor.cpp:200-232 | a squirt moves one cell on with one less travel left while it has travel and the way is clear; otherwise it dies where it is |
| Objects.SquirtTravelBounded | Actor.cpp:200-232 | a squirt moves at most its travel distance, 4, cells in any run of ticks |
| Objects.SquirtDoSomething | Actor.cpp:186-233 | a squirt with a protester within 3 annoys it by 2 and dies; the duplicated second check never fires; otherwise it advances |
| Player.Dig | Actor.cpp:316-330 | digging removes earth exactly from the in-grid cells of the player's 4 x 4 footprint and reports whether any was there |
| Player.SquirtTarget | Actor.cpp:336-347 | the squirt starts 4 cells ahead, at squared distance 16 and outside the player's footprint |
| Player.FireSquirt | Actor.cpp:332-359 | with no water nothing changes; otherwise one unit is used, and a squirt is added exactly when the cell is in [0,60] x [0,60], has no earth and has no boulder within 3 |
| Player.Steered | Actor.cpp:257-288 | an arrow turns a player not facing that way; one already facing it steps one cell unless it would leave [0,60] x [0,60] or land on a boulder anchor |
| Player.MoveTo | Actor.cpp:305-314 | pMove moves exactly when the target is in [0,60] x [0,60] and is not a boulder anchor |
| Player.UseSonar | Actor.cpp:361-369 | with a charge left, everything within 12 becomes visible and one charge is used; otherwise nothing changes |
| Player.DropGold | Actor.cpp:371-373 | dropping gold adds a visible, protester-claimable, temporary nugget at the player's cell |
| Player.Turn | Actor.cpp:257-303 | the player's action on a key: only Escape kills it, its hit points never change, the actor list is unchanged or gains exactly one actor at its end, and its water, sonar and gold together drop by at most one |
| Player.TunnelmanDoSomething | Actor.cpp:241-303 | a dead player does nothing; a live one digs exactly the in-grid cells of its footprint, then its record and the actor list become Turn's result on the key: Escape kills it, Space fires, arrows steer, Z uses sonar, Tab drops gold, any other key does nothing |
| Paths.WithinMono | Actor.cpp:817-869 | reachability in k moves implies reachability in any larger budget |
| Paths.WithinStep | Actor.cpp:845-868 | one enterable move from a cell within k reaches a cell within k + 1 |
| Paths.WithinBelowTop | Actor.cpp:755 | a search rooted in the terrain reaches only terrain rows |
| Paths.InitInv | Actor.cpp:826-829 | the search invariant holds for the queue holding only the root, labelled 0 |
| Paths.DequeueInv | Actor.cpp:831-834 | dequeuing after a cell's four neighbours are examined keeps the invariant |
| Paths.EnqueueInv | Actor.cpp:845-868 | labelling an unlabelled open neighbour with its parent's label + 1 and enqueuing it keeps the invariant |
| Paths.SkipInv | Actor.cpp:845-868 | skipping a labelled or blocked neighbour keeps the invariant |
| Paths.BudgetSpentInv | Actor.cpp:746-748 | skipping a cell whose step count reached M keeps the budgeted invariant |
| Paths.Complete | Actor.cpp:831-869 | every cell within k of the root that the search has had a chance to reach is labelled with at most k |
| Paths.ExhaustedComplete | Actor.cpp:740-767 | when the queue empties, every cell within reach (and within the budget) was labelled |
| Paths.LabelExact | Actor.cpp:831-869 | a label j up to the current front's label exists exactly for the cells at exact distance j |
| Paths.LabelIsExact | Actor.cpp:836-837 | the label read at the protester's cell is its exact distance from the root |
| Paths.ExactIsLabel | Actor.cpp:836-842 | a cell at exact distance j, up to the front's label, is labelled j |
| Paths.DistinctCellsBound | Actor.cpp:819 | a queue holding each in-extent cell at most once never holds more than 64 entries per row |
| Pathfinding.Open | Actor.cpp:845 | the open set the searches use lies inside the search extent |
| Pathfinding.NextStepProgress | Actor.cpp:836-842 | at a cell at distance k > 0, the chosen direction leads to a cell at distance k - 1 |
| Pathfinding.UpNeverTakenFromRowFiftyNine | Actor.cpp:841 | with the as-written bound y < 59, a protester at (60,59) next to the exit turns left, away from it; with the bound 60 it steps up into the exit |
| Pathfinding.NotChosenAwayFromRoot | Actor.cpp:838-840 | at (60,59) one move from the exit, none of left, right or down is a step toward the exit |
| Pathfinding.RowSixtyAliases | Actor.cpp:818-829 | in a 64 x 60 array, slot [x][60] is slot [x+1][0], and [63][60] is past the end |
| Pathfinding.QueueRoom | Actor.cpp:819-867 | whenever the search enqueues a cell there is room in the 64 x 61 queue |
| Pathfinding.LabelTest | Actor.cpp:838-841 | the maze test "label == minDist - 1" is exactly a neighbour at one less distance |
| Pathfinding.ChooseStep | Actor.cpp:837-842 | the direction read from the maze is the first of left, right, down, up toward the root, else left |
| Pathfinding.FoundStep | Actor.cpp:836-843 | at the protester's cell the label is its exact distance and the direction is the one ChooseStep defines |
| Pathfinding.OrdersComplete | Actor.cpp:845-868 | both searches' neighbour orders cover all four directions |
| Pathfinding.PathStep | Actor.cpp:817-929 | the search returns the first of left, right, down, up leading one step closer to the root when the protester's cell is reachable, and left when it is not |
| Pathfinding.Search | Actor.cpp:831-870 | the search loop keeps the invariant and ends as PathStep states |
| Pathfinding.SearchStep | Actor.cpp:831-868 | one round either answers at the protester's cell or dequeues and expands one cell keeping the invariant |
| Pathfinding.NewSearch | Actor.cpp:822-829 | the search starts with every label -1 except the root's 0 and the root alone in the queue |
| Pathfinding.ReachTest | Actor.cpp:755-756 | the reachability test "in grid, not visited, not blocked" is exactly an enterable unlabelled neighbour |
| Pathfinding.Reach | Actor.cpp:728-769 | the budgeted search answers true exactly when the target is within M moves over open terrain |
| Pathfinding.CanReachTunnelman | Actor.cpp:718-770 | canReachTunnelman is true exactly when the player is within distance M in a straight line or within M moves over open terrain |
| Protesters.ExactDistUnique | Actor.cpp:836-837 | a cell has one exact distance from a root |
| Protesters.PathDirection | Actor.cpp:536-541 | the step toward a root is the direction PathStep defines |
| Protesters.OpeningsAt | Actor.cpp:551-563 | the four openings are exactly the directions canMoveInDirection allows |
| Protesters.CanMoveInDirection | Actor.cpp:551-563 | a protester can move exactly to a neighbour in [0,60] x [0,60] that is not blocked |
| Protesters.WithP | Actor.h:160-163 | replacing a protester's counters keeps its position, direction, liveness and variant |
| Protesters.Forward | Actor.cpp:628-643 | a protester steps one cell in its direction when open; otherwise it stays and its run ends (numSquaresToMove 0) |
| Protesters.MoveInCurrentDirection | Actor.cpp:628-643 | the method performs Forward on the world's openings |
| Protesters.ValidDirs | Actor.cpp:616-620 | the candidate list holds exactly the open directions |
| Protesters.TurnDirs | Actor.cpp:594-604 | the perpendicular candidates are exactly the open directions at right angles |
| Protesters.Heading | Actor.cpp:615-626 | with an open direction, one draw picks it and a second sets a run of 8..60; with none, nothing changes and nothing is drawn |
| Protesters.SetMoveDirection | Actor.cpp:615-626 | the method performs Heading with the next two draws |
| Protesters.Look | Actor.cpp:551-563 | the four openings are read from the world |
| Protesters.Turn | Actor.cpp:587-613 | a turn happens exactly when 200 ticks passed and a perpendicular way is open; it resets the turn clock and uses one draw |
| Protesters.TryPerpendicularTurn | Actor.cpp:587-613 | the method performs Turn with the next draw |
| Protesters.Reoriented | Actor.cpp:494-499 | after the run counter drops, a new heading or a perpendicular turn leaves hit points, leave flag, rest and shout clock alone and only picks open directions |
| Protesters.Wander | Actor.cpp:494-502 | the wandering tail moves at most one cell into an open neighbour and keeps hit points, leave flag, rest and shout clock |
| Protesters.Reorient | Actor.cpp:494-499 | the method performs Reoriented with the next draws |
| Protesters.WanderStep | Actor.cpp:494-501 | the method performs Wander with the next draws |
| Protesters.DirToCloses | Actor.cpp:783-790 | stepping in getDirectionToTunnelman's direction strictly shortens the distance to the player |
| Protesters.InLineOfSight | Actor.cpp:792-815 | the player is in sight exactly when on the same row or column with no blocked cell strictly between |
| Protesters.ChaseKeepsSight | Actor.cpp:482-491 | a step toward a player in sight stays in line with the player |
| Protesters.Rested | Actor.cpp:502 | resting after an action sets rest to max(0, 3 - level/4) and nothing else |
| Protesters.Counted | Actor.cpp:461-462 | an active tick adds one to both the shout and the turn clocks |
| Protesters.Pursue | Actor.cpp:482-502 | a player in sight, farther than 4, with the way open is approached one cell closer and the run ends; otherwise the protester wanders |
| Protesters.Leave | Actor.cpp:464-471 | a leaving protester at the exit dies; elsewhere it steps along the path to the exit |
| Protesters.RegularEngaged | Actor.cpp:474-502 | the protester shouts exactly when facing a player within 4 with shout clock at least 15, without moving or drawing |
| Protesters.RegularTick | Actor.cpp:452-503 | a regular protester's tick: a dead one does nothing, a resting one counts down; otherwise it shouts exactly under the shout rule, resetting the clock, and every active tick without a shout adds one to the clock |
| Protesters.Advance | Actor.cpp:686-714 | a hardcore protester farther than 4 that can reach the player within M steps takes the path step toward the player without drawing; otherwise it approaches in sight or wanders |
| Protesters.HardcoreEngaged | Actor.cpp:679-714 | the hardcore protester shouts exactly under the shout rule, without moving or drawing |
| Protesters.HardcoreTick | Actor.cpp:653-715 | a hardcore protester's tick: resting counts down, then the stare timer counts down, and it shouts exactly under the shout rule; it never resets its rest |
| Protesters.TicksFollowShoutClock | Actor.cpp:461-480 | every protester tick changes the shout clock as the shout clock model says and shouts only when allowed |
| Protesters.MoveToExit | Actor.cpp:536-541 | moveToExit faces the direction of the path to the exit and steps forward |
| Protesters.LeaveStep | Actor.cpp:464-471 | the method performs Leave |
| Protesters.PursueStep | Actor.cpp:482-502 | the method performs Pursue with the next draws |
| Protesters.ShouldStepToward | Actor.cpp:482-485 | the approach branch is taken exactly with the player in sight, farther than 4, and the way toward it open |
| Protesters.StepToward | Actor.cpp:486-488 | the approach faces the player, steps and ends the run |
| Protesters.RegularDoSomething | Actor.cpp:452-503 | the protester's entry in the actor list becomes RegularTick's protester on the view from its cell, a shout costs the player 2 hit points, and the draws advance by exactly those used |
| Protesters.RegularAct | Actor.cpp:464-502 | the method performs RegularTick with the world's view |
| Protesters.RegularEngage | Actor.cpp:474-502 | the method performs RegularEngaged with the world's view |
| Protesters.HardcoreDoSomething | Actor.cpp:653-715 | the protester's entry in the actor list becomes HardcoreTick's protester on the view from its cell, a shout costs the player 2 hit points, and the draws advance by exactly those used |
| Protesters.HardcoreAct | Actor.cpp:662-714 | the method performs HardcoreTick with the world's view |
| Protesters.HardcoreEngage | Actor.cpp:679-714 | the method performs HardcoreEngaged with the world's view |
| Protesters.AdvanceStep | Actor.cpp:686-714 | the method performs Advance with the next draws |
| Protesters.Chase | Actor.cpp:686-695 | the pursuit is taken exactly when the player is farther than 4 and reachable within M |
| Protesters.ShouldChase | Actor.cpp:686-689 | the pursuit test holds exactly when the player is farther than 4 and reachable within M = 16 + 2*level |
| Protesters.ChaseStep | Actor.cpp:690-693 | the pursuit faces the path direction toward the player and steps forward |
| Tick.Verdict | StudentWorld.cpp:196-206 | the status is player-died exactly when the player is dead, finished-level exactly when alive with no oil left, and continue otherwise |
| Tick.Arrival | StudentWorld.cpp:171-191 | a protester arrives exactly when T ticks have passed and fewer than P are alive; it is a hardcore one exactly when rand() % 100 is below the hardcore percentage |
| Tick.LiveProtestersSnoc | StudentWorld.cpp:175-177 | appending an actor adds one to the live-protester count exactly when it is a live protester |
| Tick.ArrivalRespectsCap | StudentWorld.cpp:171-191 | an arrival never takes the live-protester count above the cap P and adds at most one |
| Tick.SpawnProtester | StudentWorld.cpp:171-191 | the spawn step appends Arrival, draws twice and resets the counter exactly when a protester arrives |
| Tick.TryCell | StudentWorld.cpp:221-222 | every water-pool candidate lies in [0,60] x [0,60] |
| Tick.PoolSearch | StudentWorld.cpp:220-238 | a found water-pool cell is a candidate from the stream whose 4 x 4 area has no earth |
| Tick.PoolSearchFirst | StudentWorld.cpp:220-238 | every candidate tried before the found one, or all 100 if none is found, had earth in its area |
| Tick.CheckArea | StudentWorld.cpp:223-232 | the area test holds exactly when the in-grid 4 x 4 area has no earth |
| Tick.PoolTry | StudentWorld.cpp:221-232 | one try reads two draws and tests that candidate |
| Tick.FindPoolCell | StudentWorld.cpp:220-238 | the 100-try loop performs PoolSearch and consumes two draws per try |
| Tick.Goodie | StudentWorld.cpp:212-244 | a goodie is considered exactly when rand() % G is 0; it is a sonar kit at (0,60) or a water pool on a clear area |
| Tick.SpawnGoodie | StudentWorld.cpp:212-244 | the step appends Goodie's result and consumes its draws |
| Tick.UpdatedSteps | StudentWorld.cpp:199-211 | every kind's update keeps the list length, lowers the oil count only for a barrel and by one, keeps the player's cell and facing, never revives it, never shrinks its water, sonar or gold, and only advances the draws |
| Tick.ActorStep | StudentWorld.cpp:199-201 | one actor's update does exactly what its kind's doSomething does to the list, the player, the draws, the score and the oil count (`Updated`, one predicate per kind) |
| Tick.BoulderStep | Actor.cpp:61-100 | a boulder's update: a dead one changes nothing; a stable or waiting one settles on the earth below; a falling one dies when blocked below and otherwise applies the impact to the protesters and the player and moves down one row |
| Tick.BarrelStep | Actor.cpp:34-54 | a barrel's update is BarrelTick, with 1000 points and one barrel fewer on collection |
| Tick.GoldStep | Actor.cpp:118-156 | a nugget's update: revealed within 4 when hidden; a protester-claimable one bribes the first protester within 3 and dies, or ages; a player-claimable one within 3 gives the player a nugget and 10 points |
| Tick.GoodieStep | Actor.cpp:164-179 | a sonar kit's or water pool's update: within 3 of the player it dies and gives a sonar charge and 75 points, or 5 water and 100 points; otherwise it ages |
| Tick.SquirtStep | Actor.cpp:186-233 | a squirt's update: with a protester within 3 every such protester is annoyed by 2 and the squirt dies; otherwise it advances or dies where it is stopped or spent |
| Tick.RegularStep | Actor.cpp:452-503 | a regular protester's update is RegularTick on the view from its cell, with 2 hit points off the player on a shout and the draws it used |
| Tick.HardcoreStep | Actor.cpp:653-715 | a hardcore protester's update is HardcoreTick on the view from its cell, with 2 hit points off the player on a shout and the draws it used |
| Tick.TraceSnoc | StudentWorld.cpp:199-211 | visiting the next actor in list order (updating it as its kind does when alive, skipping it when dead) extends a run of the loop |
| Tick.TraceSteps | StudentWorld.cpp:199-211 | every visit of a run that updated an actor keeps the common step facts of UpdatedSteps, and every other visit changes nothing |
| Tick.StepsKeepPlayer | StudentWorld.cpp:199-211 | over the first n visits of such a run the player keeps its cell and facing, never revives and loses no water, sonar or gold, the oil count never rises and the draws only advance |
| Tick.RunKeepsPlayer | StudentWorld.cpp:199-211 | over any run of the actor loop the player keeps its cell and facing, never revives and loses no water, sonar or gold, the oil count never rises and the draws only advance |
| Tick.ActAll | StudentWorld.cpp:199-211 | the loop is a run from the entry state to the exit state visiting actors in list order, each live one updated as its kind's doSomething does and each dead one skipped; every update but the last left the game going; it stops exactly when the last update killed the player or took the last barrel, so no later actor is updated, and otherwise it visits every actor |
| Tick.CloseTick | StudentWorld.cpp:212-253 | the end of a tick that goes on: the list becomes the survivors of the loop's list with the goodie appended, the draws advance by the goodie's, and the player, score and oil count stay as the loop left them |
| Tick.ActorPhase | StudentWorld.cpp:199-264 | after a surviving player's turn: the actor run; on an early stop the run's last state is the final one and a death costs a life; otherwise every actor was visited, the player is alive, and the final world is the run's last one closed by the goodie and the sweep |
| Tick.Opened | StudentWorld.cpp:169-194 | the opening of a tick keeps the score and the oil count, never shrinks the actor list and only advances the draws |
| Tick.CountTick | StudentWorld.cpp:169-191 | both tick counters advance; the protester counter is reset exactly when a protester arrives, the arrival is appended and its two draws are used |
| Tick.OpenTick | StudentWorld.cpp:169-194 | the tick counters advance, a protester may arrive, and a live player digs exactly its in-grid footprint and acts on the key, leaving the world `Opened`; a dead player changes nothing |
| Tick.Move | StudentWorld.cpp:168-265 | move counts the tick, resets the spawn counter exactly on an arrival, lets only the player dig, and returns the verdict on the state it leaves; a life is lost exactly on player-died; the actor loop's run starts from the world after the arrival and the player's turn, stops early only on a death or the last barrel (leaving its last state as the final one), and otherwise visits every actor and is closed by the goodie and the sweep |

## Left out

- Sounds (`playSound`) and the status line (`updateDisplayText`, StudentWorld.cpp:267-287) are presentation only and are not modelled.
- Keyboard input: `getKey` becomes the `key` parameter of `Player.TunnelmanDoSomething` and `Tick.Move`.
- `rand()` is a fixed stream of naturals. The model is exact for any stream but says nothing about its distribution.
- StudentWorld.World.PlaceBoulders: the `do … while (!validPosition)` loop of `init` (StudentWorld.cpp:61-76) has no termination guarantee. The model makes at most `attempts` tries in all, so it may place fewer than B boulders.
- StudentWorld.World.PlaceOnEarth: the same holds for the gold and barrel loops (StudentWorld.cpp:90-120, 129-159). The model may place fewer than G nuggets or L barrels.
- Floating point: every `sqrt`/`pow` distance and the `getLevel() * 1.5` cast are replaced by the equal integer formulas.
- Memory management and framework glue are not modelled: `new`/`delete`, `cleanUp`, the destructor and `createStudentWorld`. The `GameWorld`/`GraphObject` bases are plain fields of `World` and `Actor`: level, score, lives, position, direction and visibility.
- Earth objects do nothing when updated (Actor.h:56-57), so each earth cell is a flag in `World.earth`.
- `isLeaving`, `getActors` and `getTunnelman` (Actor.h:155, StudentWorld.h:34-35) are plain field reads (`p.leaving`, `actors`, `player`) and have no members of their own.
- Tick.ActorStep: a hardcore protester is updated only while it and the player are on anchor cells ([0,60] x [0,60]). Every move in the model keeps both there. The model does not carry that invariant, so the step is skipped otherwise.
- Objects.BoulderDoSomething: a falling boulder applies the corrected impact `Objects.Impact`, which also annoys the player within 3 by 100. As written (Actor.cpp:92-97) the player is never hit; that behaviour is `Objects.ImpactAsWritten` (see Findings), and the tick uses the corrected one.
- Pathfinding.ChooseStep: up is taken when `y < 60` and the cell above is one step closer. Actor.cpp:841 and 899 test `y < 59`, so the model steps up from row 59 into row 60 where the program answers left (see Findings, `Pathfinding.UpNeverTakenFromRowFiftyNine`).
- Pathfinding.FoundStep: inherits the `y < 60` up test of `Pathfinding.ChooseStep`.
- Pathfinding.PathStep: inherits the `y < 60` up test of `Pathfinding.ChooseStep`; its contract states the corrected step `NextStep(..., 60)`.
- Pathfinding.Search: inherits the `y < 60` up test of `Pathfinding.ChooseStep`.
- Pathfinding.SearchStep: inherits the `y < 60` up test of `Pathfinding.ChooseStep`.
- Protesters.PathDirection: the direction is `NextStep` with the corrected `y < 60` up test, not the source's `y < 59`.
- Protesters.MoveToExit: follows `Protesters.PathDirection`, so a leaving protester at (60,59) steps up to the exit where the program turns left.
- Protesters.RegularDoSomething: the exit direction of a leaving protester uses the corrected `y < 60` up test.
- Protesters.HardcoreDoSomething: the exit and chase directions use the corrected `y < 60` up test.
- Rows at 60 and above, and negative coordinates, are treated as "no earth" by every query, as in the source. The searches' reads past the end of their 64 x 60 arrays are replaced by 64 x 61 arrays (see Findings).
- Pathfinding.PathStep: the hardcore protester's path toward the player uses the same search as the exit path. The searches are identical apart from the root.

## Findings

| source | as written | input that shows it | evidently intended | confidence | as-written member | corrected member |
|---|---|---|---|---|---|---|
| Actor.cpp:92-97 | the falling boulder's impact loops over `getActors()`, which never holds the Tunnelman, so the `TID_PLAYER` test never matches and the player is never hit | a boulder falling onto the player's cell with the player at 10 hit points: the player stays alive | the player within 3 of the impact is annoyed by 100 and dies | high, not executed | Objects.BoulderSparesPlayerAsWritten | Objects.Impact |
| Actor.cpp:841, 899 | the final neighbour test is `y < 59 && maze[x][y+1] == minDist - 1`, so a protester in row 59 never steps up into row 60, where the exit is | protester at (60,59), one move below the exit (60,60): getPathToExit returns left, away from the exit, whatever else is open (`Pathfinding.NotChosenAwayFromRoot` holds for every open set). On a real level, where row 60 is always open, the protester steps left to (59,59), gets right there (the first neighbour one step closer), and so shuttles between the two cells without reaching the exit | up is taken whenever the cell above is one step closer (bound y < 60) | high, not executed | Pathfinding.UpNeverTakenFromRowFiftyNine | Pathfinding.NextStepProgress |
| Actor.cpp:818-829, 874-887, 728-738 | the label arrays are `[64][60]` but the searches root at row 60: the exit (60,60), a player standing in row 60, or a protester starting at (60,60) | getPathToExit writes `maze[60][60] = 0`, which lands in `maze[61][0]` | label arrays with a row 60 (64 x 61) and queues of 64 * 61 | high, not executed | Pathfinding.RowSixtyAliases | Pathfinding.PathStep |
