# VCMI adventure-map pathfinding, modelled in Dafny

This project models the adventure-map pathfinder of VCMI, an open-source
engine for Heroes of Might and Magic III, together with the pieces of its
computer-player code that sit on top of it. It covers five parts.

- **The single-hero search** (`lib/CPathfinder.cpp`, `lib/CPathfinder.h`).
  - The node table holds one node per tile and movement layer (LAND, SAIL,
    WATER, AIR).
  - `initializeGraph` classifies every node's accessibility.
  - The priority-queue loop of `calculatePaths` pops the best node and
    relaxes its neighbours, rolling over to the next turn when points run
    out. It then relaxes teleporter exits.
  - The decision rules cover layer transitions, movement to and after the
    destination, the landing action, and the better-way test.
  - `CPathfinderHelper` provides the per-turn cache of movement points,
    the neighbour enumeration and the movement cost.
  - `CPathsInfo::getPath` walks predecessors back from a destination.
- **The hero-chain configuration** (`AI/VCAI/Analysers/CHeroChainConfig.cpp`).
  - A table holds ten chain slots per node.
  - Each chain of heroes, named by a bit mask, claims its own slot on every
    node.
  - A new chain is cancelled when another slot of the node dominates it.
  - A chain takes over its parent's army. A chain may fight through a
    guard and then carries the battle bit.
- **The AI node storage** (`AI/VCAI/Pathfinding/AINodeStorage.cpp`).
  - A second chain table, keyed by a chain mask.
  - Operations: slot claiming, reset, commit, the neighbour and teleport
    (including Town Portal) expansions, the better-chain test, and the
    read-out of paths by walking predecessors back to the hero.
- **TurnData** (`AI/VCAI/Analysers/TurnData.cpp`): hands each LAND chain
  slot of a tile out as a one-node chain path.
- **The ExecuteChain task** (`AI/VCAI/Tasks/ExecuteChain.cpp`).
  - It totals a chain path's movement, turns and army figures.
  - It turns the path into a reversed list of tile visits, inserting a
    hand-off visit wherever the hero changes.

The modules follow the source. PathTypes holds the node records and
enumerations; GameWorld the map, hero and index arithmetic; Rules the pure
decision rules. TurnHelper models `CPathfinderHelper`/`TurnInfo`, Paths
`CPathsInfo`, and Pathfinder the search engine and `CNodeHelper`. HeroChain
models the chain configuration and `CHeroChainInfo`, AINodes the node
storage and `AIPath`, and TurnData and Tasks the last two files.

Node tables are arrays, flattened from the source's multi-arrays. A
predecessor link is the index of the predecessor's slot. Objects whose
methods change their fields (`CPathsInfo`, `TPathfinder`,
`CPathfinderHelper`, `CHeroChainInfo`, `CVCAIHeroChainConfig`,
`AINodeStorage`, `TurnData`, `ExecuteChain`) are classes. Their methods
state the new state outright, most of them as a function of the old state:
every pop of the search, down to one layer of one neighbour and one teleport
exit, equals a function of the search state before it. The properties the
source relies on are proved about those functions:
- every pop writes only unlocked nodes and links them to the popped node;
  each relaxation writes only past the loop's checks and only improves on
  the route of the node it writes;
- the single-hero table stays acyclic and rooted at the start node (the AI
  storage's links are assumed acyclic, see "Left out");
- slot claiming is idempotent;
- the comparator is a strict order;
- a path read out of the table is a route of the hero.

The game state the code queries and does not define, and the hero's bonus
queries, are function-valued fields of the `World` and `Hero` records. The
game state covers guarding creatures, visitable objects, teleport channels,
fog of war, tile costs, loss and danger evaluation.

## Model

| member | source | states |
|---|---|---|
| PathTypes.ActionNumber | lib/CPathfinder.h:30-42 | the ten node actions are numbered below 10 and only UNKNOWN is 0, so `action != UNKNOWN` reads as "some chain reached this node" |
| PathTypes.DisembarkFlag | lib/CPathfinder.cpp:300-306 | `destAction - 1`, passed to movementPointsAfterEmbark, is 1 exactly when disembarking and 0 when embarking |
| PathTypes.U8 | lib/CPathfinder.h:54-59 | storing into the ui8 `turns` field keeps every value that fits unchanged |
| PathTypes.U32 | lib/CPathfinder.h:54-59 | storing into the ui32 `moveRemains` field keeps every value that fits unchanged |
| PathTypes.I32 | lib/CPathfinder.cpp:234 | reading the ui32 points into an `int` keeps values below 2^31 and yields a 32-bit signed value |
| PathTypes.U32RoundTrip | lib/CPathfinder.cpp:312 | an `int` stored into a ui32 and read back as an `int` is unchanged |
| PathTypes.CompareMeansBetter | lib/CPathfinder.cpp:1314-1322 | `a.compare(other)` holds exactly when `other` arrives in fewer turns, or in the same turn with more points left |
| PathTypes.CompareStrictOrder | lib/CPathfinder.h:192-199 | the heap comparator is irreflexive, transitive and asymmetric, as a priority queue requires |
| PathTypes.CompareIncomparableSameKey | lib/CPathfinder.cpp:1314-1322 | nodes the comparator cannot order have equal turns and points |
| PathTypes.ResetPathNode | lib/CPathfinder.cpp:1286-1294 | reset unlocks the node and forgets accessibility, points, predecessor and action; the node becomes unreachable and keeps its position and layer |
| PathTypes.UpdatePathNode | lib/CPathfinder.cpp:1296-1307 | a node with no layer yet takes the position and layer; one with a layer is reset instead; either way it gets the new accessibility |
| PathTypes.FreshUpdateUnreached | lib/CPathfinder.cpp:1275-1307 | a freshly constructed node, once updated, sits at the given position and layer, unlocked, unreached, with no predecessor and action UNKNOWN |
| PathTypes.HeroNodeIsLocked | lib/CPathfinder.h:86-87 | chain nodes never report locked |
| PathTypes.HeroNodeLock | lib/CPathfinder.h:86-87 | locking a chain node changes nothing |
| PathTypes.ResetHeroNode | lib/CPathfinder.cpp:1344-1353 | a reset chain slot is free, actor 0, NOT_SET, UNKNOWN, unreached and unlinked; its army fields and previous actor are kept |
| PathTypes.UpdateHeroNode | lib/CPathfinder.cpp:1355-1366 | the same place-or-reset rule as CGPathNode::update, applied to a chain slot |
| PathTypes.ChainIsHeroPatrolLocked | lib/CPathfinder.h:332-345 | the chain search's patrol hooks never lock a hero |
| PathTypes.ChainIsPatrolMovementAllowed | lib/CPathfinder.h:332-345 | the chain search's patrol hooks allow every destination |
| PathTypes.ChainIsPatrolEnabled | lib/CPathfinder.h:332-345 | the chain search's patrol hooks never enable a patrol |
| GameWorld.NodeIndexBound | lib/CPathfinder.cpp:1394-1399 | every in-map node has its own index inside the table of `x*y*z*4` nodes |
| GameWorld.NodeIndexInjective | lib/CPathfinder.cpp:1394-1399 | two in-map nodes with the same index are the same tile and layer |
| GameWorld.SlotIndexBound | lib/CPathfinder.cpp:1334-1338 | every slot of an in-bounds node lies inside the chain table |
| GameWorld.SlotIndexUnique | lib/CPathfinder.cpp:1334-1338 | a chain-table index determines its tile, layer and slot number |
| Rules.MoveOf | lib/CPathfinder.cpp:742-745 | a step's source counts as the initial position exactly when it is the hero's tile |
| Rules.PassOneTurnLimitCheck | lib/CPathfinder.cpp:183-199 | with the one-turn limit off every node may roll over; with it on, a WATER node never may, and an AIR node only over an ACCESSIBLE tile under the original movement rules |
| Rules.IsBetterWayMatchesCompare | lib/CPathfinder.cpp:201-211 | for a representable remainder, the better-way test means exactly: the node was never reached, or the queue order ranks the new route above the old |
| Rules.IsBetterWayStrict | lib/CPathfinder.cpp:201-211 | a route is never better than itself, so relaxation needs strict improvement |
| Rules.LayerTransitionTable | lib/CPathfinder.cpp:426-470 | after a battle no layer change is possible; otherwise the allowed changes are LAND to AIR/SAIL/WATER and SAIL/AIR/WATER to LAND, under their conditions (lightweight flying, water tile); every allowed change leaves or reaches LAND |
| Rules.LayerTransitionAccessibleMeaning | lib/CPathfinder.cpp:473-528 | the second transition check's condition for each source layer, in both directions |
| Rules.MovementToDestRules | lib/CPathfinder.cpp:531-588 | a permitted step never enters a BLOCKED node. It needs canMoveBetween on LAND, SAIL and WATER. From a guarded source it goes only to the guardian (or flies under the original rules, or embarks). Boarding needs a boat or hero. It never boards a boat from a boat. It walks on water only on a clear, unguarded tile |
| Rules.DestActionShape | lib/CPathfinder.cpp:646-723 | the landing action is never UNKNOWN or a teleport action. It is NORMAL off the LAND and SAIL layers, and DISEMBARK exactly for SAIL to LAND. It is EMBARK only for a boat, and VISIT or BLOCKING_VISIT only for a visitable object |
| Rules.DestActionBattleCause | lib/CPathfinder.cpp:646-723 | a BATTLE landing happens only at a guarded tile, at the source's guardian, or on an enemy hero, town or garrison |
| Rules.GetTeleportDestAction | lib/CPathfinder.cpp:726-739 | a teleport lands as TELEPORT_NORMAL unless a hero stands on the exit; an enemy hero there means TELEPORT_BATTLE, any other hero TELEPORT_BLOCKING_VISIT |
| Rules.AllowedTeleportEntranceNeedsOption | lib/CPathfinder.cpp:920-976 | a teleport entrance is usable only when it is passable and the option for its channel kind is on (a whirlpool also needs the protection bonus) |
| Rules.MovementAfterDestTable | lib/CPathfinder.cpp:591-643 | which landings the search continues from: NORMAL always, never blocking visits or teleport landings, a BATTLE only at a guarded tile, EMBARK and DISEMBARK only with the option (and DISEMBARK only unguarded), a VISIT of a non-teleporter only through garrisons and border gates |
| Rules.ObjectsAccessibility | lib/CPathfinder.cpp:837-897 | the object loop of evaluateAccessibility decides BLOCKVIS, ACCESSIBLE or VISITABLE, or leaves the tile undecided |
| Rules.ObjectsAccessibilityFirst | lib/CPathfinder.cpp:837-897 | when the objects before it are events that neither block visits nor let the hero pass, the first object that is not an event decides the tile |
| Rules.ObjectsAccessibilityEvents | lib/CPathfinder.cpp:837-897 | a tile whose objects are all such events is not decided by its objects |
| Rules.AccessibilityClasses | lib/CPathfinder.cpp:837-897 | rock or an unrevealed tile is BLOCKED. The WATER layer is ACCESSIBLE exactly on a revealed, clear sea tile, else BLOCKED. The AIR layer is FLYABLE exactly over blocked or sea tiles. LAND and SAIL are never FLYABLE and no node stays NOT_SET |
| Rules.EmptyTileAccessibility | lib/CPathfinder.cpp:837-897 | a revealed tile without objects is BLOCKED when blocked, BLOCKVIS when guarded, otherwise ACCESSIBLE |
| Rules.SanctuaryBlocks | lib/CPathfinder.cpp:837-897 | a sanctuary holding a hero of another player blocks the tile |
| TurnHelper.FillMaxMovePoints | lib/CPathfinder.cpp:1074-1082 | the land and water maximums are filled from the hero only where the cache is still -1 |
| TurnHelper.FillMaxMovePointsTransparent | lib/CPathfinder.cpp:1074-1082 | filling a valid cache keeps it valid, and the answer is what the hero reports for that turn and layer: the cache is invisible |
| TurnHelper.PathfinderHelper.constructor | lib/CPathfinder.cpp:1084-1089 | the helper starts at turn 0 with one fresh TurnInfo |
| TurnHelper.PathfinderHelper.UpdateTurnInfo | lib/CPathfinder.cpp:1097-1108 | switching to turn t appends a fresh TurnInfo exactly when t is one past the last |
| TurnHelper.PathfinderHelper.IsLayerAvailable | lib/CPathfinder.cpp:1110-1128 | AIR needs the flying option and FLYING_MOVEMENT on the current turn, WATER the water-walking option and WATER_WALKING; LAND and SAIL are always available |
| TurnHelper.PathfinderHelper.WhirlpoolProtection | lib/CPathfinder.cpp:1135-1138 | hasBonusOfType(WHIRLPOOL_PROTECTION) answers the hero's whirlpool protection on the helper's current turn |
| TurnHelper.PathfinderHelper.GetMaxMovePoints | lib/CPathfinder.cpp:1140-1143 | the answer is the hero's maximum for the current turn: the water value on SAIL, the land value elsewhere |
| TurnHelper.NeighbourTilesOfProps | lib/CPathfinder.cpp:1145-1186 | the kept tiles are exactly the steps in the directions that pass the filters, one per direction |
| TurnHelper.NeighbourTilesProps | lib/CPathfinder.cpp:1145-1186 | at most eight tiles. Each is in the map, adjacent, not rock and on the requested side of the coast. A diagonal sea move under the coast limit has sea on both sides. Every tile meeting the filters is kept |
| TurnHelper.GetNeighbours | lib/CPathfinder.cpp:1145-1186 | the loop appends exactly the tiles of the neighbour specification, in the source's direction order |
| TurnHelper.DiagonalBounds | lib/CPathfinder.cpp:1188-1268 | the diagonal cost is at least the straight cost and at most twice it |
| TurnHelper.CostToNextIsUnchecked | lib/CPathfinder.cpp:1188-1268 | the lookahead's inner cost is the same cost without the last-tile check |
| TurnHelper.MovementCostBasics | lib/CPathfinder.cpp:1188-1268 | staying on a tile is free and no cost is negative |
| TurnHelper.MovementCostCases | lib/CPathfinder.cpp:1188-1268 | the cost is the scaled tile cost, except when it equals all remaining points. That happens for a diagonal that fits only straight, and for a step leaving under 250 points with no affordable next step, exactly when no such step exists |
| TurnHelper.MovementCostAffordable | lib/CPathfinder.cpp:1188-1268 | a cost above the remaining points is only ever the plain scaled cost, outside both exceptions |
| TurnHelper.GetMovementCost | lib/CPathfinder.cpp:1188-1268 | the control flow, including the lookahead loop over the destination's neighbours, computes the cost specification |
| Paths.MeasureDecreases | lib/CPathfinder.cpp:1415-1431 | the lock-rank measure falls along every predecessor link, so the walk back ends |
| Paths.Chain | lib/CPathfinder.cpp:1415-1431 | the walk from i starts at i and stays in the table |
| Paths.ChainLinks | lib/CPathfinder.cpp:1415-1431 | the walk follows the links, ends at the one node without a predecessor, and every node after the first is locked |
| Paths.ChainMeasure | lib/CPathfinder.cpp:1415-1431 | the measure falls strictly along the walk |
| Paths.ChainProps | lib/CPathfinder.cpp:1415-1431 | the walk follows the links, ends at a node without a predecessor, and visits no node twice |
| Paths.WalkOutChain | lib/CPathfinder.cpp:1415-1431 | getPath's accumulating loop yields the accumulator followed by the nodes of the walk |
| Paths.AcyclicUnlinked | lib/CPathfinder.cpp:796-834 | a freshly initialised table without links is acyclic |
| Paths.AcyclicLock | lib/CPathfinder.cpp:227-229 | locking a node for the first time keeps the table acyclic |
| Paths.AcyclicWrite | lib/CPathfinder.cpp:308-319 | relinking an unlocked node to a locked one keeps the table acyclic |
| Paths.PathsInfo.constructor | lib/CPathfinder.cpp:1394-1399 | the table has no hero and only default nodes |
| Paths.PathsInfo.NodeAt | lib/CPathfinder.cpp:1453-1456 | getNode(coord, layer) lands inside the table |
| Paths.PathsInfo.GetNode | lib/CPathfinder.cpp:1444-1451 | getNode(coord) is the LAND node exactly when it is reachable, the SAIL node otherwise |
| Paths.PathsInfo.LandSailDistinct | lib/CPathfinder.cpp:1444-1451 | the LAND and SAIL nodes of a tile are distinct |
| Paths.PathsInfo.GetPath | lib/CPathfinder.cpp:1415-1431 | getPath yields a path exactly when the destination has a predecessor, and then the node walk from it, in order; otherwise an empty path |
| Paths.PathsInfo.GetDistance | lib/CPathfinder.cpp:1433-1442 | the distance is the number of nodes on the path, 255 when there is none |
| Paths.PathShape | lib/CPathfinder.cpp:1373-1431 | a path has at least two nodes, starts at the destination (endPos), ends at a node without predecessor (startPos), and repeats no node |
| Pathfinder.InitializePatrol | lib/CPathfinder.cpp:105-120 | a patrolling hero of a computer player is locked in place with radius 0, and limited to its tiles in range otherwise; every other hero is free |
| Pathfinder.PatrolHooks | lib/CPathfinder.cpp:89-125 | the hooks answer as initializePatrol set them. Movement is allowed exactly outside a patrol or inside its range, and no hero is both locked and patrolling |
| Pathfinder.PlacedAt | lib/CPathfinder.cpp:796-834 | a placed node found at the index of (c, l) is the node of (c, l) |
| Pathfinder.TableWrite | lib/CPathfinder.cpp:308-319 | a relaxation's write, keeping position, layer and accessibility and linking by a legal step, keeps the table invariant |
| Pathfinder.LockWrite | lib/CPathfinder.cpp:227-229 | locking a node keeps the table invariant |
| Pathfinder.LockKeepsRooted | lib/CPathfinder.cpp:227-229 | locking a queued node keeps the start node the only locked node without a predecessor |
| Pathfinder.RefreshOne | lib/CPathfinder.cpp:796-834 | writing one freshly placed node keeps the table prepared |
| Pathfinder.DoneStable | lib/CPathfinder.cpp:796-834 | initialising later tiles undoes no tile already done |
| Pathfinder.UpdateNode | lib/CPathfinder.cpp:84-87 | CNodeHelper::updateNode updates exactly the node of (c, l), with the tile's evaluated accessibility |
| Pathfinder.UpdateTile | lib/CPathfinder.cpp:796-834 | one tile of initializeGraph initialises every layer the tile has and touches nothing already done |
| Pathfinder.UpdateLayer | lib/CPathfinder.cpp:796-834 | one layer of a tile is initialised and the tile's other layers stay done |
| Pathfinder.InitializeGraph | lib/CPathfinder.cpp:796-834 | every existing layer of every map tile is initialised with its accessibility, the rest stays default, and the unlinked table is valid |
| Pathfinder.MovableFromMembers | lib/CPathfinder.cpp:360-375 | the neighbours kept off an object are exactly those from which it can be left |
| Pathfinder.SourceNeighboursProps | lib/CPathfinder.cpp:360-375 | each neighbour is an adjacent in-map tile, not rock; when the source visits an object, the object can be left towards it |
| Pathfinder.TeleportExitsProps | lib/CPathfinder.cpp:378-423 | teleport exits come only from LAND or SAIL outside a patrol and lead only where the object's channel or castle gate leads |
| Pathfinder.RemoveAt | lib/CPathfinder.cpp:227-228 | popping takes exactly one copy of the chosen entry off the queue |
| Pathfinder.Pathfinder.constructor | lib/CPathfinder.cpp:158-178 | construction runs initializeGraph, leaves an empty queue and a valid table, and sets up the single helper |
| Pathfinder.Pathfinder.RootPlaced | lib/CPathfinder.cpp:55-68 | the start node is the node of the hero's tile on SAIL in a boat and on LAND otherwise |
| Pathfinder.Pathfinder.PushInitialNode | lib/CPathfinder.cpp:220-223 | the start node gets turn 0 and the hero's movement, nothing else changes, and it is the only node queued |
| Pathfinder.Pathfinder.BestIndex | lib/CPathfinder.cpp:227 | the chosen entry is a heap top: no queued node compares better |
| Pathfinder.Pathfinder.Lock | lib/CPathfinder.cpp:229 | only the popped node's lock flag changes, and the table stays valid |
| Pathfinder.Pathfinder.PopBest | lib/CPathfinder.cpp:227-229 | the popped node is a best queued node, leaves the queue once, and is locked |
| Pathfinder.Pathfinder.AddNeighbours | lib/CPathfinder.cpp:360-375 | the neighbour list is the addNeighbours specification |
| Pathfinder.Pathfinder.RelaxLayer | lib/CPathfinder.cpp:261-320 | layer i of neighbour t is relaxed exactly when every check of the layers loop passes: the layer is open on the helper's turn, both layer-transition checks hold on a change of layer, the node is neither locked nor NOT_SET, and movement into it is possible. Otherwise the search state is unchanged |
| Pathfinder.Pathfinder.RelaxMove | lib/CPathfinder.cpp:288-319 | the landing action; the points and turn on arrival, from the next turn with a full day when the points do not suffice, leaving the helper on the arrival turn; then, when the way is better and the one-turn limit allows it, the node takes them and the link to the source, and is pushed exactly when movement after the destination is possible, with the teleport entrance judged under that turn's whirlpool protection |
| Pathfinder.Pathfinder.CommitIfBetter | lib/CPathfinder.cpp:308-319 | the write happens exactly when the way is better and the one-turn limit allows it; it stores the points, the turn, the action and the link, and pushes the node exactly when isMovementAfterDestPossible holds for the landing; otherwise nothing changes |
| Pathfinder.Pathfinder.ComputeRemains | lib/CPathfinder.cpp:289-306 | the remainder and turn are the step target. The current turn is kept if the points suffice; otherwise the next turn, with a full day for the destination layer. Embarking goes through movementPointsAfterEmbark. The helper's turn follows |
| Pathfinder.Pathfinder.Commit | lib/CPathfinder.cpp:311-319 | the destination node alone is written, and queued when the search continues after it |
| Pathfinder.Pathfinder.NeighbourPass | lib/CPathfinder.cpp:252-322 | the neighbours loop is the layers loop run, in order, on every neighbour the patrol allows; the rest are skipped |
| Pathfinder.Pathfinder.NeighbourStep | lib/CPathfinder.cpp:256-321 | a neighbour outside the patrol changes nothing; any other gets the layers loop |
| Pathfinder.Pathfinder.RelaxLayers | lib/CPathfinder.cpp:261-321 | the layers loop is the one-layer relaxation run on LAND, SAIL, WATER and AIR, in that order |
| Pathfinder.Pathfinder.RelaxExit | lib/CPathfinder.cpp:329-354 | one exit: its node on the source's layer, unless locked, BLOCKED or not reached by a better way, takes the source's points and turn, the teleport landing action and the link, and is queued exactly when it lands as TELEPORT_NORMAL |
| Pathfinder.Pathfinder.TeleportPass | lib/CPathfinder.cpp:324-355 | the teleport pass relaxes, in order, the exits addTeleportExits lists for the source under the helper's whirlpool protection |
| Pathfinder.Pathfinder.RelaxExits | lib/CPathfinder.cpp:326-355 | the loop over the exits is RelaxExit run on each, in order |
| Pathfinder.Pathfinder.ExitsOf | lib/CPathfinder.cpp:378-423 | every exit addTeleportExits lists lies in the map and is a target of the source's channel or castle gate |
| Pathfinder.Pathfinder.ProcessNode | lib/CPathfinder.cpp:231-355 | one pop: the node is expanded with its own points and turn, or with a full day on the next turn when it has no points; a node without points that may not wait only moves the helper to the next turn; otherwise the neighbours loop and then the teleport loop run |
| Pathfinder.Pathfinder.Expand | lib/CPathfinder.cpp:243-355 | the neighbours loop, then the teleport loop, with the points and turn the pop gave |
| Pathfinder.Pathfinder.RelaxedWrites | lib/CPathfinder.cpp:305-319 | a relaxation writes at most its unlocked node, linking it to the source on the current or next turn, and pushes only that node |
| Pathfinder.Pathfinder.LayerRelaxedWrites | lib/CPathfinder.cpp:261-320 | the same for one layer of a neighbour |
| Pathfinder.Pathfinder.LayersRelaxedWrites | lib/CPathfinder.cpp:261-321 | the same for the layers loop |
| Pathfinder.Pathfinder.NeighboursRelaxedWrites | lib/CPathfinder.cpp:252-322 | the same for the neighbours loop |
| Pathfinder.Pathfinder.ExitRelaxedWrites | lib/CPathfinder.cpp:329-354 | the same for one teleport exit |
| Pathfinder.Pathfinder.ExitsRelaxedWrites | lib/CPathfinder.cpp:326-355 | the same for the teleport loop |
| Pathfinder.Pathfinder.ProcessedWrites | lib/CPathfinder.cpp:225-356 | one pop writes only nodes that were unlocked, each linked to the popped node on the pop's turn or the next, and queues only such nodes; the queue only grows. A node without points that may not wait changes neither table nor queue |
| Pathfinder.Pathfinder.LayerRelaxedImproves | lib/CPathfinder.cpp:261-320 | a layer changes anything only past its checks: the layer is open, the transition is possible, the node is neither locked nor NOT_SET. Only its own node is written, linked to the source, and the queue order ranks the new route above the old one unless the node was never reached |
| Pathfinder.Pathfinder.ExitRelaxedImproves | lib/CPathfinder.cpp:329-354 | an exit changes at most its own node, only when that node is neither locked nor BLOCKED. The node takes the source's points and turn, linked to the source, improving on its old route unless never reached, and it is queued exactly when it lands as TELEPORT_NORMAL |
| Pathfinder.Pathfinder.PopTargetNeverAbove | lib/CPathfinder.cpp:234-241 | the pop rolls over exactly when the node has no points, then with a full day for its layer on the next turn; the key it is expanded with never ranks above its own |
| Pathfinder.Pathfinder.CalculatePaths | lib/CPathfinder.cpp:181-357 | the search keeps the table invariant. It reports whether the queue ran empty, and a patrol-locked hero leaves the table untouched |
| Pathfinder.FindPaths | lib/CPathfinder.cpp:128-148 | the hero and position are recorded. A hero outside the map is refused and the table is left alone. Otherwise the search leaves a valid, acyclic, rooted table of legal steps |
| Pathfinder.PathsAreRoutes | lib/CPathfinder.cpp:181-357 | every path read out after a search is a route of the hero. It ends at the hero's start node on the start layer, and each node was reached from the next by a legal step |
| HeroChain.ClearBattle | AI/VCAI/Analysers/CHeroChainConfig.cpp:72 | `mask & ~BATTLE_NODE` has no battle bit and changes the mask only when it had one |
| HeroChain.WithBattle | AI/VCAI/Analysers/CHeroChainConfig.cpp:271 | `mask \| BATTLE_NODE` has the battle bit, keeps the other bits, and changes the mask only when it lacked it |
| HeroChain.ActorBit | AI/VCAI/Analysers/CHeroChainConfig.cpp:27 | `1 << i` is a non-empty mask without the battle bit |
| HeroChain.CellUnique | lib/CPathfinder.cpp:1334-1338 | a chain slot belongs to one node only |
| HeroChain.ChainInfo.constructor | lib/CPathfinder.cpp:1334-1338 | the table holds ten value-initialised slots per node |
| HeroChain.AllocSlot | AI/VCAI/Analysers/CHeroChainConfig.cpp:120-139 | the slot returned is the first that is free and placed, or already the chain's; every slot before it is neither |
| HeroChain.AllocFound | AI/VCAI/Analysers/CHeroChainConfig.cpp:120-139 | once the scan stops at slot i, allocation returns it and writes the chain's mask and actor into it only if it was free |
| HeroChain.AllocNotFound | AI/VCAI/Analysers/CHeroChainConfig.cpp:120-139 | a scan that finds nothing returns null and leaves the table unchanged |
| HeroChain.AllocationResult | AI/VCAI/Analysers/CHeroChainConfig.cpp:120-139 | a slot is found exactly when one is free or the chain's. The found slot is then the chain's, and only a free slot ever changes, and only its mask and actor |
| HeroChain.AllocationIdempotent | AI/VCAI/Analysers/CHeroChainConfig.cpp:120-139 | asking again for the same chain returns the same slot and changes nothing more |
| HeroChain.AllocationKeepsCellOk | AI/VCAI/Analysers/CHeroChainConfig.cpp:120-139 | allocation keeps used slots first and keeps chains distinct. It fails only when every slot is used or the node was never placed |
| HeroChain.DominatesIsPareto | AI/VCAI/Analysers/CHeroChainConfig.cpp:41-67 | the corrected cancel test is strict Pareto dominance in army and in queue order |
| HeroChain.DominatesStrictOrder | AI/VCAI/Analysers/CHeroChainConfig.cpp:41-67 | dominance is irreflexive, transitive and asymmetric |
| HeroChain.NoSelfCancel | AI/VCAI/Analysers/CHeroChainConfig.cpp:41-67 | neither the written nor the corrected test lets a slot cancel itself |
| HeroChain.CancelsAsWrittenDiscardsBetter | AI/VCAI/Analysers/CHeroChainConfig.cpp:50-63 | as written, a slot with equal army and turn but fewer points cancels the strictly better node |
| HeroChain.CancelTestsAgreeAcrossTurns | AI/VCAI/Analysers/CHeroChainConfig.cpp:50-63 | across turns the written test is dominance: at least the army and an earlier turn; within a turn it is dominance with the two nodes' points swapped |
| HeroChain.BestIsKept | AI/VCAI/Analysers/CHeroChainConfig.cpp:41-67 | a slot that dominates every other slot of its node is never cancelled |
| HeroChain.ShouldCancelNode | AI/VCAI/Analysers/CHeroChainConfig.cpp:41-67 | the loop over the node's ten slots answers the test as written: some slot has at least the army and an earlier turn, or the same turn with fewer points (or, in the second clause, no more points and more army) |
| HeroChain.UpdatedCell | AI/VCAI/Analysers/CHeroChainConfig.cpp:100-108 | updateNode updates each of the ten slots with the place-or-reset rule |
| HeroChain.UpdatedCellIsFree | AI/VCAI/Analysers/CHeroChainConfig.cpp:100-108 | after updateNode every slot is a free node of (c, l) with the new accessibility. The cell is in shape, and with accessibility set the next chain gets the first slot |
| HeroChain.UpdateKeepsShape | AI/VCAI/Analysers/CHeroChainConfig.cpp:100-108 | updating the slots of one node splices the updated cell in and keeps the table in shape |
| HeroChain.ChainIsBetterWayArmyFirst | AI/VCAI/Analysers/CHeroChainConfig.cpp:141-153 | a stronger chain always wins; otherwise the single-hero better-way rule decides |
| HeroChain.ApplyNode | AI/VCAI/Analysers/CHeroChainConfig.cpp:155-188 | apply keeps the node's place, accessibility, link, mask and actor, and stores points and turns in range |
| HeroChain.ApplyHandsOff | AI/VCAI/Analysers/CHeroChainConfig.cpp:155-188 | the chain takes the parent's army and loss. The previous actor becomes the parent exactly when the parent was stopped by a guard standing on its own tile or its action is a visit or blocking visit; otherwise it stays the parent's. apply's assertions hold |
| HeroChain.Unshared | AI/VCAI/Analysers/CHeroChainConfig.cpp:260-263 | erase_if keeps exactly the destination guards that do not guard the source |
| HeroChain.GuardsBypassedMeansShared | AI/VCAI/Analysers/CHeroChainConfig.cpp:254-265 | guards count as bypassed exactly when the source has guards and they include every guard of the destination |
| HeroChain.BattleOnCellOutcome | AI/VCAI/Analysers/CHeroChainConfig.cpp:271-284 | the fight claims the battle chain's slot. It takes the slot only when the claim found one, and the slot then holds the battle chain with the surviving army (more than the slot had), the loss added, and the destination's points and turn. Every other slot only sees the claim |
| HeroChain.FightSetUp | AI/VCAI/Analysers/CHeroChainConfig.cpp:271-277 | when no slot is found or the fight does not pay, the table only sees the claim |
| HeroChain.FightWon | AI/VCAI/Analysers/CHeroChainConfig.cpp:278-283 | writing the fought slot completes the battle outcome |
| HeroChain.ChainConfig.constructor | AI/VCAI/Analysers/CHeroChainConfig.h:28 | a new configuration has no actors |
| HeroChain.ChainConfig.AddHero | AI/VCAI/Analysers/CHeroChainConfig.cpp:110-113 | addHero appends the hero as the next actor |
| HeroChain.ChainConfig.Reset | AI/VCAI/Analysers/CHeroChainConfig.cpp:115-118 | reset clears the actors |
| HeroChain.ChainConfig.GetNodeHero | AI/VCAI/Analysers/CHeroChainConfig.cpp:95-98 | the node's hero is one of the actors |
| HeroChain.ChainConfig.AllocateHeroNode | AI/VCAI/Analysers/CHeroChainConfig.cpp:120-139 | the table becomes the allocated cell spliced in, and the slot returned is the allocation's |
| HeroChain.ChainConfig.ScanHeroCell | AI/VCAI/Analysers/CHeroChainConfig.cpp:122-136 | the scan stops at the allocation's slot, or after the last slot |
| HeroChain.ChainConfig.GetNextNodes | AI/VCAI/Analysers/CHeroChainConfig.cpp:69-93 | a chain of several heroes with turns above 1 gets nothing and changes nothing. Otherwise its slot is claimed and offered unless the written cancel test fires on it |
| HeroChain.ChainConfig.ClaimNext | AI/VCAI/Analysers/CHeroChainConfig.cpp:79-92 | the claim, then the offer unless the written cancel test fires |
| HeroChain.ChainConfig.UpdateNode | AI/VCAI/Analysers/CHeroChainConfig.cpp:100-108 | exactly the ten slots of (c, l) are updated |
| HeroChain.ChainConfig.Apply | AI/VCAI/Analysers/CHeroChainConfig.cpp:155-188 | only the node is written, with apply's value; its army is positive and it is not its own previous actor |
| HeroChain.ChainConfig.FindCuttingGuard | AI/VCAI/Analysers/CHeroChainConfig.cpp:239-247 | the loop finds exactly a shared guard standing on neither tile |
| HeroChain.ChainConfig.Battle | AI/VCAI/Analysers/CHeroChainConfig.cpp:271-284 | the fight at a guarded destination has the battle outcome on the destination's node; it needs apply's assertions only for the slot the battle claim hands back |
| HeroChain.ChainConfig.TryBypassBlocker | AI/VCAI/Analysers/CHeroChainConfig.cpp:207-288 | the answer for each blocker kind. A blocking visit on a pickable object passes. A visit passes. A source guard passes for a battle chain unless a shared guard cuts it off. An unguarded destination does not pass. A guarded one passes for a battle chain whose guards are bypassed, otherwise the fight decides. Nothing else passes |
| HeroChain.ChainConfig.GetInitialNodes | AI/VCAI/Analysers/CHeroChainConfig.cpp:17-39 | actor i gets the start slot of its hero's tile and layer, with mask `1 << i`, the hero's points and army, turn 0 and no loss; every slot not returned keeps its old value |
| HeroChain.ChainConfig.StartActor | AI/VCAI/Analysers/CHeroChainConfig.cpp:23-35 | one round of the loop: actor i's slot is claimed and started, the earlier actors' start slots are kept, and no other slot changes; with no slot found the table is unchanged |
| HeroChain.Started | AI/VCAI/Analysers/CHeroChainConfig.cpp:21-36 | one actor's allocation leaves the earlier actors' slots alone and yields a new slot on the hero's tile and layer |
| HeroChain.StartedExtend | AI/VCAI/Analysers/CHeroChainConfig.cpp:21-36 | writing the next actor's start slot keeps the earlier ones |
| AINodes.BitOr | AI/VCAI/Pathfinding/AINodeStorage.cpp:243 | `a \| b` is zero exactly when both are, and covers both |
| AINodes.BitAnd | AI/VCAI/Pathfinding/AINodeStorage.cpp:41-44 | `a & b` is covered by both operands |
| AINodes.BitAndSelf | AI/VCAI/Pathfinding/AINodeStorage.cpp:41-44 | `a & a` is `a` |
| AINodes.BitOrKeeps | AI/VCAI/Pathfinding/AINodeStorage.cpp:243 | `chainMask \| CAST_CHAIN` keeps every bit of CAST_CHAIN |
| AINodes.BitOrKeepsShared | AI/VCAI/Pathfinding/AINodeStorage.cpp:41-44 | a battle chain stays a battle chain once CAST_CHAIN is added |
| AINodes.PortalNodesCast | AI/VCAI/Pathfinding/AINodeStorage.cpp:238-259 | every town-portal node carries the CAST_CHAIN bit, and one reached from a battle chain stays a battle chain |
| AINodes.FindSlot | AI/VCAI/Pathfinding/AINodeStorage.cpp:46-66 | the slot returned is the first that is free or already the chain's; every slot before it is another chain's |
| AINodes.ClaimResult | AI/VCAI/Pathfinding/AINodeStorage.cpp:46-66 | a slot is found exactly when one fits, and then carries the mask. Only the found free slot changes, and only its mask |
| AINodes.ClaimIdempotent | AI/VCAI/Pathfinding/AINodeStorage.cpp:46-66 | asking again for the same chain returns the same slot and changes nothing more |
| AINodes.ClaimKeepsPacked | AI/VCAI/Pathfinding/AINodeStorage.cpp:46-66 | claiming keeps used slots first with distinct masks, and fails only when every slot belongs to another chain |
| AINodes.ClaimInCell | AI/VCAI/Pathfinding/AINodeStorage.cpp:46-66 | the claim on the table is the claim on the node's cell spliced back |
| AINodes.ClaimInResult | AI/VCAI/Pathfinding/AINodeStorage.cpp:46-66 | on the whole table the found slot carries the mask, and only free slots change, only to carry it |
| AINodes.TaggedKeeps | AI/VCAI/Pathfinding/AINodeStorage.cpp:46-66 | a slot already carrying the mask is untouched by further claims for it |
| AINodes.ResetSlot | AI/VCAI/Pathfinding/AINodeStorage.cpp:82-94 | a reset slot is free, with no danger, mana or special action, and has the new accessibility under the place-or-reset rule |
| AINodes.ResetCellFree | AI/VCAI/Pathfinding/AINodeStorage.cpp:82-94 | after resetTile every slot is free and the next claim, for any chain, takes the first slot |
| AINodes.Started | AI/VCAI/Pathfinding/AINodeStorage.cpp:75-77 | the initial slot is reached at turn 0 with the hero's movement and no danger, keeping its chain and place |
| AINodes.CommitLinksPastSource | AI/VCAI/Pathfinding/AINodeStorage.cpp:96-113 | without a special action, commit takes points, turn and action from the destination info, and danger, mana and predecessor from the source. The link points at the source's predecessor, not at the source. Chain, place and accessibility are kept |
| AINodes.ClaimEachResult | AI/VCAI/Pathfinding/AINodeStorage.cpp:115-139 | a run of claims changes only free slots, to the chain's mask. Each slot returned carries the mask, lies in one target's cell and, where skipped, is not NOT_SET |
| AINodes.ClaimEachAppend | AI/VCAI/Pathfinding/AINodeStorage.cpp:125-136 | the run over two target lists is the first run followed by the second from the table it left |
| AINodes.LayersOf | AI/VCAI/Pathfinding/AINodeStorage.cpp:127 | each neighbour is tried on the four layers LAND to AIR in order |
| AINodes.ExitTargets | AI/VCAI/Pathfinding/AINodeStorage.cpp:178-186 | each exit is tried on the source's layer |
| AINodes.Friendly | AI/VCAI/Pathfinding/AINodeStorage.cpp:209-212 | erase_if keeps exactly the towns not owned by an enemy |
| AINodes.Nearest | AI/VCAI/Pathfinding/AINodeStorage.cpp:230-233 | minElementByFun picks the first town at the least squared distance |
| AINodes.PortalTownsChosen | AI/VCAI/Pathfinding/AINodeStorage.cpp:205-236 | the towns tried are friendly. None is tried without the spell, the mana or the movement the cast costs. Below ADVANCED only the nearest friendly town is tried |
| AINodes.Portal | AI/VCAI/Pathfinding/AINodeStorage.cpp:251-255 | the portal node links to the source, carries the town portal and the source's points |
| AINodes.PortalEachResult | AI/VCAI/Pathfinding/AINodeStorage.cpp:238-259 | every node returned is a portal node of the chain to a town without a visiting hero |
| AINodes.BeatsChainMeaning | AI/VCAI/Pathfinding/AINodeStorage.cpp:269-294 | only a chain-1 destination can be beaten, and only by a free slot some chain reached. That happens exactly when the slot is no more dangerous and the destination is not Better than it |
| AINodes.Walk | AI/VCAI/Pathfinding/AINodeStorage.cpp:329-345 | the walk follows predecessors, stops at the hero's tile or at a missing link, and never visits the hero's tile |
| AINodes.PointsUsedExact | AI/VCAI/Pathfinding/AINodeStorage.cpp:336 | away from the 32-bit limits the points used are turns times a day's land movement plus today's movement, minus the points left |
| AINodes.PathOfAppend | AI/VCAI/Pathfinding/AINodeStorage.cpp:333-342 | each slot walked appends its entry and sets the special action to its own |
| AINodes.WalkFromPath | AI/VCAI/Pathfinding/AINodeStorage.cpp:328-345 | the accumulating loop yields the path of the walk |
| AINodes.ReachedMembers | AI/VCAI/Pathfinding/AINodeStorage.cpp:321-326 | exactly the slots some chain reached are read out |
| AINodes.ChainPathsSlots | AI/VCAI/Pathfinding/AINodeStorage.cpp:315-351 | the paths emitted are the walks from the reached slots, in slot order |
| AINodes.ChainPathsAreReached | AI/VCAI/Pathfinding/AINodeStorage.cpp:315-351 | a path is emitted for a slot exactly when it was reached |
| AINodes.ChainPathEnds | AI/VCAI/Pathfinding/AINodeStorage.cpp:315-387 | a slot off the hero's tile yields a path starting at that slot, with its danger and cost, never entering the hero's tile. Its first tile to get is a slot linked to the hero's tile or to nothing |
| AINodes.ChainPathAtStart | AI/VCAI/Pathfinding/AINodeStorage.cpp:315-366 | a slot on the hero's tile yields the empty path, whose first tile is (-1, -1, -1) |
| AINodes.FirstTileToGet | AI/VCAI/Pathfinding/AINodeStorage.cpp:358-366 | the last node's tile, or (-1, -1, -1) for an empty path |
| AINodes.GetPathDanger | AI/VCAI/Pathfinding/AINodeStorage.cpp:368-376 | the destination's danger, or 0 for an empty path |
| AINodes.MovementCost | AI/VCAI/Pathfinding/AINodeStorage.cpp:378-387 | the destination's points used as a ui32, or 0 for an empty path |
| AINodes.GetTotalDanger | AI/VCAI/Pathfinding/AINodeStorage.cpp:389-396 | the larger of the path danger and the evaluated danger of the destination tile |
| AINodes.AINodeStorage.constructor | AI/VCAI/Pathfinding/AINodeStorage.cpp:19-23 | NUM_CHAINS default slots for every node, and no hero |
| AINodes.AINodeStorage.SetHero | AI/VCAI/Pathfinding/AINodeStorage.cpp:141-144 | the hero is set |
| AINodes.AINodeStorage.GetOrCreateNode | AI/VCAI/Pathfinding/AINodeStorage.cpp:46-66 | the slot returned and the new table are the claim's |
| AINodes.AINodeStorage.ScanCell | AI/VCAI/Pathfinding/AINodeStorage.cpp:50-63 | the scan stops at the claim's slot, or after the last slot |
| AINodes.AINodeStorage.GetInitialNode | AI/VCAI/Pathfinding/AINodeStorage.cpp:68-80 | the NORMAL_CHAIN slot of the hero's tile, on SAIL in a boat and on LAND otherwise, is claimed and started |
| AINodes.AINodeStorage.ResetTile | AI/VCAI/Pathfinding/AINodeStorage.cpp:82-94 | exactly the slots of (c, l) are reset |
| AINodes.AINodeStorage.Commit | AI/VCAI/Pathfinding/AINodeStorage.cpp:96-113 | only the destination slot changes, to the committed value |
| AINodes.AINodeStorage.CalculateNeighbours | AI/VCAI/Pathfinding/AINodeStorage.cpp:115-139 | the slots returned and the table are the run of claims over every neighbour and layer, skipping NOT_SET |
| AINodes.AINodeStorage.NeighbourLayers | AI/VCAI/Pathfinding/AINodeStorage.cpp:127-135 | one neighbour's four layers, as a run of claims |
| AINodes.AINodeStorage.CalculateTeleportations | AI/VCAI/Pathfinding/AINodeStorage.cpp:166-195 | the claims at every exit of a visitable source, then the town portal nodes when the source is the hero's tile |
| AINodes.AINodeStorage.ClaimTarget | AI/VCAI/Pathfinding/AINodeStorage.cpp:129-134 | one claim of the loop, keeping the slot unless skipped |
| AINodes.AINodeStorage.ExitsLoop | AI/VCAI/Pathfinding/AINodeStorage.cpp:178-186 | the exits loop, as a run of claims |
| AINodes.AINodeStorage.TownPortalTeleportations | AI/VCAI/Pathfinding/AINodeStorage.cpp:197-261 | the portal nodes of the chosen towns are appended, under the chain's mask with CAST_CHAIN |
| AINodes.AINodeStorage.PortalTownsLoop | AI/VCAI/Pathfinding/AINodeStorage.cpp:238-259 | the towns loop, as the portal run |
| AINodes.AINodeStorage.PortalTown | AI/VCAI/Pathfinding/AINodeStorage.cpp:240-258 | one town: skipped with a visiting hero, otherwise its LAND slot becomes a portal node when one is found |
| AINodes.AINodeStorage.HasBetterChain | AI/VCAI/Pathfinding/AINodeStorage.cpp:263-297 | true exactly when some LAND slot of the destination's tile beats the destination |
| AINodes.AINodeStorage.IsTileAccessible | AI/VCAI/Pathfinding/AINodeStorage.cpp:299-313 | true exactly when some slot of (pos, layer) was reached |
| AINodes.AINodeStorage.GetChainInfo | AI/VCAI/Pathfinding/AINodeStorage.cpp:315-351 | one path per reached slot of the node, each the walk back to the hero's tile |
| AINodes.AINodeStorage.EmitSlot | AI/VCAI/Pathfinding/AINodeStorage.cpp:321-347 | one slot: skipped when unreached, else its path appended |
| AINodes.AINodeStorage.WalkChain | AI/VCAI/Pathfinding/AINodeStorage.cpp:328-345 | the inner loop builds the slot's chain path |
| TurnData.SlotPointsUsedExact | AI/VCAI/Analysers/TurnData.cpp:39 | away from the 32-bit limits the points used are turns times a day's land movement plus today's movement, minus the points left |
| TurnData.SlotPathsPerSlot | AI/VCAI/Analysers/TurnData.cpp:32-44 | one path per slot, none skipped. Path k is a single node for slot k's actor, with the slot's points left, points used and turns, all else zero |
| TurnData.TurnData.constructor | AI/VCAI/Analysers/TurnData.cpp:17-20 | the chain table and configuration are fixed |
| TurnData.TurnData.GetChainInfo | AI/VCAI/Analysers/TurnData.cpp:27-47 | the ten one-node paths of the tile's LAND slots, in order |
| Tasks.ObjectTarget | AI/VCAI/Tasks/ExecuteChain.cpp:50 | a null object is no visit target; another object is visited by its id |
| Tasks.Reverse | AI/VCAI/Tasks/ExecuteChain.cpp:66 | std::reverse: element k of the result is element n - 1 - k |
| Tasks.LegsCount | AI/VCAI/Tasks/ExecuteChain.cpp:52-64 | one visit per node and one hand-off per change of hero |
| Tasks.LegsEnds | AI/VCAI/Tasks/ExecuteChain.cpp:52-64 | the first subtask pushed is the first node's visit, the last the last node's |
| Tasks.LegsVisitAt | AI/VCAI/Tasks/ExecuteChain.cpp:52-64 | node i's visit sits after the visits before it and the hand-offs up to it |
| Tasks.LegsShape | AI/VCAI/Tasks/ExecuteChain.cpp:52-64 | every subtask is a node's visit by its hero, or a hand-off into a node from the previous hero where the hero changes |
| Tasks.LegsOneHero | AI/VCAI/Tasks/ExecuteChain.cpp:52-64 | with one hero throughout, the subtasks are the nodes' visits, one each, in order |
| Tasks.ReversedEnds | AI/VCAI/Tasks/ExecuteChain.cpp:66 | after the reversal the last node's visit runs first and the first node's last |
| Tasks.Amax | AI/VCAI/Tasks/ExecuteChain.cpp:55 | vstd::amax yields the larger value |
| Tasks.ArmyLeft | AI/VCAI/Tasks/ExecuteChain.cpp:47 | `totalArmy - totalArmyLoss` in uint64_t: the difference, wrapping when the loss is larger |
| Tasks.SumUsedAppend | AI/VCAI/Tasks/ExecuteChain.cpp:54 | the points used add up over stretches of the chain |
| Tasks.MaxTurnsBounds | AI/VCAI/Tasks/ExecuteChain.cpp:55 | turns is at least 0 and every node's turns, and is 0 or one of them |
| Tasks.Executed | AI/VCAI/Tasks/ExecuteChain.cpp:71-78 | execute runs no more subtasks than there are |
| Tasks.ExecutedInOrder | AI/VCAI/Tasks/ExecuteChain.cpp:71-78 | execute runs some of the subtasks, in their order |
| Tasks.ExecutedAll | AI/VCAI/Tasks/ExecuteChain.cpp:71-78 | when every subtask can run, all run |
| Tasks.ExecutedNone | AI/VCAI/Tasks/ExecuteChain.cpp:71-78 | when none can run, none runs |
| Tasks.ExecuteChain.constructor | AI/VCAI/Tasks/ExecuteChain.cpp:29-69 | the totals of the chain, the army figures, and the subtasks as the chain's legs reversed |
| Tasks.ExecuteChain.CanExecute | AI/VCAI/Tasks/ExecuteChain.cpp:80-83 | whether the first subtask, the last node's visit by its hero, can run |
| Tasks.ExecuteChain.Execute | AI/VCAI/Tasks/ExecuteChain.cpp:71-78 | the subtasks run are those whose canExecute holds, in order |

## Left out

- Pathfinder.Pathfinder.CalculatePaths: the queue loop runs for at most `fuel` pops. `turns` is a ui8 whose 255 means "unreached", so strict improvement is not well-founded in the source's own terms. `finished` reports whether the queue ran empty.
- Pathfinder.Pathfinder.CalculatePaths: the whole run is not stated as one function of the start state, and the routes it leaves are not proved shortest. Each pop is stated exactly, by ProcessNode; the run promises the table invariants.
- Pathfinder.FindPaths: it runs calculatePaths and inherits the same gap. The table it leaves is valid, acyclic, rooted and made of legal steps, but its routes are not proved shortest.
- Pathfinder.FindPaths and Pathfinder.Pathfinder.constructor require `ExitsValid(w)`: every teleport exit lies in the map, off the rock, on the same side of the coast as its entrance. This is taken as a property of well-formed maps. The source indexes the node table with an exit it does not check, so an off-map exit would read outside the table. An exit across the coast would be written on a node whose layer the tile lacks. The model does not cover such maps.
- Pathfinder.FindPaths requires `HeroTileOk` for a hero on the map: the hero stands on sea exactly when it is in a boat. This is taken as a game invariant. Otherwise the source would start the search from a LAND node of a sea tile, or a SAIL node of a land tile, which initializeGraph never placed. The model does not cover that case.
- Pathfinder: the boost priority queue is a sequence of node indices. Popping takes a best node at pop time, so the heap's reordering of entries whose keys change after the push is not modelled.
- Pathfinder: only the single-hero instantiation `TPathfinder<CPathsInfo, CGPathNode, CNodeHelper>` drives the loop. The chain instantiation's callbacks are modelled one by one in HeroChain. `CHeroChainFinder::calculatePaths` (lib/CPathfinder.cpp:150-155) is not modelled as a loop.
- Pathfinder: getHelper creates the helper on first use; the model creates it in the constructor, which behaves the same with one hero. As in the source, the helper's turn is left at the last turn a neighbour needed.
- Pathfinder.FindPaths: the source throws for a hero outside the map; the model returns `ok == false`.
- TurnHelper.PathfinderHelper.UpdateTurnInfo: requires `t <= |turnsInfo|`. The source always appends at the end and then indexes `turnsInfo[t]`, so it relies on turns growing one at a time.
- TurnHelper: the floating-point terrain multipliers (flying, water walking, wind, road) are inside `Hero.tileCost`. The √2 diagonal factor is exact integer arithmetic, `ret * 1414213 / 1000000`.
- Rules: object, teleport-channel and guard queries into the game state are fields of `World` (guardingCreaturePosition, getTopObj, getGuardingCreatures, checkForVisitableDir, the channel exits). The game state code behind them is not part of this model.
- PathTypes: the fuzzy `priority` of ExecuteChain, `objInfo`, `toString` and logging are not modelled.
- PathTypes.HeroNode: lib/CPathfinder.h:79-89 declares the chain node with only its link, mask and actor number. The chain configuration also reads `armyValue`, `armyLoss` and `previousActor`, so the model's HeroNode carries those three fields as well.
- HeroChain: BATTLE_NODE masks are the unsigned readings of the 32-bit `int` masks; ClearBattle, WithBattle and ActorBit are written arithmetically. Their agreement with the bitwise operators is not proved.
- HeroChain.ChainConfig.GetInitialNodes: the source dereferences allocateHeroNode's result unchecked. With `!ok` the model reports that some actor found no slot.
- HeroChain.ChainConfig.GetInitialNodes requires at most 31 actors. The source shifts `1 << i` on a signed `int` for any count. A 32nd actor would shift into the sign bit, giving a mask equal to BATTLE_NODE (0x80000000), and further actors would be undefined shifts. The model does not cover more than 31 actors.
- HeroChain: `getGuardian` (AI/VCAI/Analysers/CHeroChainConfig.cpp:190-205) is a static helper that nothing in the core calls; it is not modelled.
- HeroChain: evaluateLoss is a field of `World`; the AI's danger evaluation is not part of this model.
- AINodes: NORMAL_CHAIN, CAST_CHAIN, BATTLE_CHAIN, NUM_CHAINS, BASE_MOVEMENT_COST and SecSkillLevel::ADVANCED are constructor parameters of the storage. AINodeStorage.h and GameConstants.h, which fix them, are not part of this model.
- AINodes: the whole hero is not modelled. What the town-portal code asks of it about the spell (canCast, mana, cost, school level) is the `Caster` record. `dist2dSQ` (int3.h) is a parameter.
- AINodes.Committed: a special action's `applyOnDestination` is a parameter; CommitLinksPastSource states commit without one.
- AINodes.AINodeStorage.GetInitialNode: the source calls `.get()` on the optional unchecked; the model returns None when no slot fits.
- AINodes.AINodeStorage.GetChainInfo: the walk stops at `hero->visitablePos()`, taken to equal the hero's position. The walk's termination is shown with a ghost ranking of the links.
- AINodes.AINodeStorage.GetChainInfo, EmitSlot and WalkChain require `Linked(nodes[..], rank)`: the predecessor links are acyclic, witnessed by a ghost ranking. No operation of the storage (ResetTile, Commit, the portal and neighbour expansions) is proved to keep the links acyclic. The model assumes the search leaves them so. The source's while loop follows the links unguarded and would not end on a cycle.
- AINodes.GetTotalDanger requires a non-empty path. The source calls `nodes.front()` without checking, which is undefined on an empty path; the model leaves that case out.
- Tasks.ExecuteChain.constructor requires a non-empty chain path. The source calls `front()` on the path's nodes without checking, which is undefined for an empty path; the model leaves that case out.
- AINodes: `TownPortalAction::whatToDo` builds an AI goal and is not modelled; a portal node records the town's id.
- TurnData: `update` runs `CHeroChainAnalyser::fill`, which is not part of this model. The table and configuration are given to the constructor.
- TurnData: the chain path node's `layer` field (read by getTurns) is not modelled; GameConstants.h is not part of this model.
- Tasks.ExecuteChain.constructor: `getTurns` divides in floating point and is a parameter. `turns` is the `real` maximum over its values.
- Tasks.ExecuteChain.Execute: the subtasks are VisitTile goals whose `canExecute` and `execute` change the game. `execute` is a parameter deciding, from the subtasks run before, whether the next can run.
- Tasks: heroes are compared by hero id, not by object identity.
- TurnData and AINodes: `movementPointsUsed` is computed exactly, with the ui32 wrap and the `int` reading made explicit. Overflow of the `int` subtraction is not modelled.
- Tasks.ExecuteChain.constructor: the sum of `movementPointsUsed` over the chain is an unbounded integer; the source's `int` total could overflow on a long chain, and that 32-bit wrap-around is not modelled.
- Mutexes, the thread-local callback objects and logging are left out.

## Findings

| source | as written | input that shows it | evidently intended | confidence | as-written member | corrected member |
|---|---|---|---|---|---|---|
| AI/VCAI/Analysers/CHeroChainConfig.cpp:50-63 | shouldCancelNode cancels a node when another slot has at least its army and arrives in the same turn with FEWER points left (`<`, and `<=` in the second clause) | other slot: turns 1, moveRemains 100, army 50; node: turns 1, moveRemains 200, army 50. The node is the faster route with the same army, and it is cancelled | cancel only nodes that are Pareto-dominated: `other.moveRemains > node.moveRemains` in the first clause and `>=` in the second | not executed | HeroChain.CancelsAsWrittenDiscardsBetter | HeroChain.DominatesIsPareto |
