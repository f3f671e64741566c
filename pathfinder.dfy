/**
 * The single-actor search, TPathfinder<CPathsInfo, CGPathNode, CNodeHelper>
 * (lib/CPathfinder.cpp): initializeGraph, the priority-queue loop of
 * calculatePaths with its rollover, relaxation and teleport pass, and the
 * CNodeHelper that supplies initial nodes and patrol limits.
 *
 * What the search keeps true of the node table (TableOk): every node is
 * either untouched or sits at the cell of its own position and layer with
 * the accessibility initializeGraph gave it; every predecessor link is a
 * legal step (adjacent or through a teleporter, changing layer only to or
 * from the land layer, carrying a real action); the links are acyclic; and
 * the only locked node without a predecessor is the hero's start node.
 */
module Pathfinder {
  import opened PathTypes
  import opened GameWorld
  import opened Rules
  import opened TurnHelper
  import opened Paths

  // ---------------------------------------------------------------------
  // CNodeHelper: patrol state

  datatype PatrolState = PatrolNone | PatrolLocked | PatrolRadius

  datatype NodeHelper = NodeHelper(patrolState: PatrolState, patrolTiles: set<Coord>)

  /**
   * initializePatrol: a patrolling hero of a computer player is locked in
   * place when its radius is 0 and limited to the tiles in range otherwise.
   * `tilesInRange` is what getTilesInRange reports around the patrol centre.
   */
  function InitializePatrol(patrolling: bool, ownerHuman: bool, patrolRadius: nat, tilesInRange: set<Coord>): (r: NodeHelper)
    ensures r.patrolState == PatrolLocked <==> patrolling && !ownerHuman && patrolRadius == 0
    ensures r.patrolState == PatrolRadius <==> patrolling && !ownerHuman && patrolRadius > 0
    ensures r.patrolTiles == if r.patrolState == PatrolRadius then tilesInRange else {}
  {
    if patrolling && !ownerHuman then
      if patrolRadius != 0 then NodeHelper(PatrolRadius, tilesInRange) else NodeHelper(PatrolLocked, {})
    else NodeHelper(PatrolNone, {})
  }

  predicate IsHeroPatrolLocked(nh: NodeHelper) { nh.patrolState == PatrolLocked }

  predicate IsPatrolMovementAllowed(nh: NodeHelper, dst: Coord)
  {
    nh.patrolState == PatrolRadius ==> dst in nh.patrolTiles
  }

  predicate IsPatrolEnabled(nh: NodeHelper) { nh.patrolState == PatrolRadius }

  /** A patrolling hero either stays put or moves only inside its range; others move freely. */
  lemma PatrolHooks(patrolling: bool, ownerHuman: bool, radius: nat, tiles: set<Coord>, dst: Coord)
    ensures var nh := InitializePatrol(patrolling, ownerHuman, radius, tiles);
      && (IsHeroPatrolLocked(nh) <==> patrolling && !ownerHuman && radius == 0)
      && (IsPatrolEnabled(nh) <==> patrolling && !ownerHuman && radius > 0)
      && (IsPatrolMovementAllowed(nh, dst) <==> !IsPatrolEnabled(nh) || dst in tiles)
      && !(IsHeroPatrolLocked(nh) && IsPatrolEnabled(nh))
  {
  }

  // ---------------------------------------------------------------------
  // The shape of the node table

  /** The layers initializeGraph creates on a tile. */
  predicate LayerExists(w: World, opts: PathfinderOptions, c: Coord, l: Layer)
  {
    match w.terrain(c)
      case Rock => false
      case Sea => l == Sail || (l == Air && opts.useFlying) || (l == Water && opts.useWaterWalking)
      case Ground => l == Land || (l == Air && opts.useFlying)
  }

  /** A node that belongs to the cell of its own position and layer. */
  ghost predicate NodePlaced(w: World, opts: PathfinderOptions, n: PathNode, j: int)
  {
    n.base.layer != Wrong && InMap(w, n.base.coord) && LayerExists(w, opts, n.base.coord, n.base.layer)
    && NodeIndex(w.sizes, n.base.coord, n.base.layer) == j
  }

  /** What initializeGraph needs of a table: fresh, or filled earlier for the same map and options. */
  ghost predicate Prepped(w: World, opts: PathfinderOptions, n: PathNode, j: int)
  {
    n == DefaultPathNode || NodePlaced(w, opts, n, j)
  }

  /** A node as initializeGraph leaves it. */
  ghost predicate FreshPlaced(w: World, opts: PathfinderOptions, n: PathNode, j: int)
  {
    NodePlaced(w, opts, n, j) && !n.locked && n.before.None?
    && n.base.turns == Unreached && n.base.moveRemains == 0 && n.base.action == Unknown
    && n.base.accessible == EvaluateAccessibility(w, n.base.coord, n.base.layer)
  }

  ghost predicate Shaped(w: World, opts: PathfinderOptions, n: PathNode, j: int)
  {
    n == DefaultPathNode
    || (NodePlaced(w, opts, n, j) && n.base.accessible == EvaluateAccessibility(w, n.base.coord, n.base.layer))
  }

  /** Every layer of every tile has its node. */
  ghost predicate Complete(w: World, opts: PathfinderOptions, s: seq<PathNode>)
  {
    forall c: Coord, l: Layer :: InMap(w, c) && l != Wrong && LayerExists(w, opts, c, l) ==>
      0 <= NodeIndex(w.sizes, c, l) < |s| && s[NodeIndex(w.sizes, c, l)].base.layer != Wrong
  }

  /** Where a teleporter (or a town with a castle gate) standing on c can send the hero. */
  function TeleportTargets(w: World, heroPos: Coord, c: Coord): seq<Coord>
  {
    match w.topVisitable(c, c == heroPos)
      case None => []
      case Some(o) => w.channelExits(o.id) + w.castleGateExits(o.id)
  }

  /** A step the search may record from `from` to `to`. */
  predicate LegalStep(w: World, heroPos: Coord, from: BaseNode, to: BaseNode)
  {
    from.layer != Wrong && to.layer != Wrong
    && LayerStep(from.layer, to.layer) && to.action != Unknown
    && (Adjacent(to.coord, from.coord) || to.coord in TeleportTargets(w, heroPos, from.coord))
  }

  ghost predicate PredOk(w: World, heroPos: Coord, s: seq<PathNode>, i: int)
    requires 0 <= i < |s|
  {
    s[i].before.Some? ==>
      s[i].before.value < |s| && LegalStep(w, heroPos, s[s[i].before.value].base, s[i].base)
  }

  ghost predicate TableOk(w: World, opts: PathfinderOptions, heroPos: Coord, s: seq<PathNode>)
  {
    SizesValid(w.sizes) && |s| == NodeCount(w.sizes)
    && (forall i :: 0 <= i < |s| ==> Shaped(w, opts, s[i], i))
    && Complete(w, opts, s)
    && (forall i :: 0 <= i < |s| ==> BaseValid(s[i].base))
    && (forall i :: 0 <= i < |s| ==> PredOk(w, heroPos, s, i))
  }

  /** The only locked node without a predecessor is the start node. */
  ghost predicate Rooted(s: seq<PathNode>, root: int)
  {
    forall i :: 0 <= i < |s| && s[i].locked && s[i].before.None? ==> i == root
  }

  /** Teleporter exits lie in the map, off the rock, on the same side of the coast as the entrance. */
  ghost predicate ExitsValid(w: World)
  {
    forall c: Coord, b: bool :: InMap(w, c) && w.topVisitable(c, b).Some? ==>
      ExitsMatch(w, c, w.topVisitable(c, b).value)
  }

  ghost predicate ExitsMatch(w: World, c: Coord, o: Obj)
  {
    forall e :: e in w.channelExits(o.id) + w.castleGateExits(o.id) ==>
      InMap(w, e) && w.terrain(e) != Rock && (w.terrain(e) == Sea <==> w.terrain(c) == Sea)
  }

  /** The hero stands on water exactly when it is in a boat. */
  predicate HeroTileOk(w: World, h: Hero)
  {
    w.terrain(h.position) == (if h.boat then Sea else Ground)
  }

  function InitialIndex(w: World, h: Hero): int
  {
    NodeIndex(w.sizes, h.position, InitialLayer(h))
  }

  // ---------------------------------------------------------------------
  // Lemmas about writes to the table

  /** A placed node with position c and layer l is the node of (c, l). */
  lemma PlacedAt(w: World, opts: PathfinderOptions, n: PathNode, c: Coord, l: Layer)
    requires SizesValid(w.sizes) && InMap(w, c) && l != Wrong
    requires NodePlaced(w, opts, n, NodeIndex(w.sizes, c, l))
    ensures n.base.coord == c && n.base.layer == l
  {
    NodeIndexInjective(w, n.base.coord, n.base.layer, c, l);
  }

  /**
   * Writing a node that keeps the position, layer and accessibility of a
   * placed node, stays in range and whose own link is legal keeps the table
   * shape.
   */
  lemma TableWrite(w: World, opts: PathfinderOptions, hp: Coord, s: seq<PathNode>, d: nat, n: PathNode)
    requires TableOk(w, opts, hp, s) && d < |s| && s[d].base.layer != Wrong
    requires n.base.coord == s[d].base.coord && n.base.layer == s[d].base.layer
    requires n.base.accessible == s[d].base.accessible && BaseValid(n.base)
    requires PredOk(w, hp, s[d := n], d)
    ensures TableOk(w, opts, hp, s[d := n])
  {
    var s' := s[d := n];
    assert Shaped(w, opts, s[d], d);
    forall j | 0 <= j < |s'|
      ensures PredOk(w, hp, s', j)
    {
      if j != d && s'[j].before.Some? {
        assert PredOk(w, hp, s, j);
        var p := s[j].before.value;
        assert s'[p].base == s[p].base || (p == d && s'[p].base.coord == s[p].base.coord && s'[p].base.layer == s[p].base.layer);
      }
    }
    forall c: Coord, l: Layer | InMap(w, c) && l != Wrong && LayerExists(w, opts, c, l)
      ensures 0 <= NodeIndex(w.sizes, c, l) < |s'| && s'[NodeIndex(w.sizes, c, l)].base.layer != Wrong
    {
    }
  }

  /** Locking a node changes no position, layer, accessibility or link. */
  lemma LockWrite(w: World, opts: PathfinderOptions, hp: Coord, s: seq<PathNode>, d: nat)
    requires TableOk(w, opts, hp, s) && d < |s| && s[d].base.layer != Wrong
    ensures TableOk(w, opts, hp, s[d := s[d].(locked := true)])
  {
    var s' := s[d := s[d].(locked := true)];
    assert forall i :: 0 <= i < |s| ==> s'[i].base == s[i].base && s'[i].before == s[i].before;
    forall i | 0 <= i < |s'|
      ensures Shaped(w, opts, s'[i], i) && PredOk(w, hp, s', i)
    {
      assert Shaped(w, opts, s[i], i) && PredOk(w, hp, s, i);
    }
    forall c: Coord, l: Layer | InMap(w, c) && l != Wrong && LayerExists(w, opts, c, l)
      ensures 0 <= NodeIndex(w.sizes, c, l) < |s'| && s'[NodeIndex(w.sizes, c, l)].base.layer != Wrong
    {
    }
  }

  /** Locking a queued node keeps every invariant of the table. */
  lemma LockKeepsRooted(s: seq<PathNode>, root: int, q: nat)
    requires Rooted(s, root) && q < |s| && (s[q].before.None? ==> q == root)
    ensures Rooted(s[q := s[q].(locked := true)], root)
  {
  }

  // ---------------------------------------------------------------------
  // initializeGraph

  /** The node of (c, l) has been (re)initialised. */
  ghost predicate LayerDone(w: World, opts: PathfinderOptions, s: seq<PathNode>, c: Coord, l: Layer)
    requires l != Wrong
  {
    0 <= NodeIndex(w.sizes, c, l) < |s| && FreshPlaced(w, opts, s[NodeIndex(w.sizes, c, l)], NodeIndex(w.sizes, c, l))
  }

  /** Every layer initializeGraph creates on c has been (re)initialised. */
  ghost predicate TileDone(w: World, opts: PathfinderOptions, s: seq<PathNode>, c: Coord)
  {
    forall l :: l != Wrong && LayerExists(w, opts, c, l) ==> LayerDone(w, opts, s, c, l)
  }

  /** Every node of the table is fresh or placed. */
  ghost predicate AllPrepped(w: World, opts: PathfinderOptions, s: seq<PathNode>)
  {
    forall j :: 0 <= j < |s| ==> Prepped(w, opts, s[j], j)
  }

  /** s differs from s0 only in nodes that have been freshly placed. */
  ghost predicate Refreshed(w: World, opts: PathfinderOptions, s0: seq<PathNode>, s: seq<PathNode>)
  {
    |s| == |s0| && forall j :: 0 <= j < |s| ==> s[j] == s0[j] || FreshPlaced(w, opts, s[j], j)
  }

  /** Writing one freshly placed node keeps both. */
  lemma RefreshOne(w: World, opts: PathfinderOptions, s0: seq<PathNode>, s: seq<PathNode>, k: int, v: PathNode)
    requires AllPrepped(w, opts, s) && Refreshed(w, opts, s0, s)
    requires 0 <= k < |s| && FreshPlaced(w, opts, v, k)
    ensures AllPrepped(w, opts, s[k := v]) && Refreshed(w, opts, s0, s[k := v])
  {
  }

  /** Writes of freshly placed nodes undo no tile already done. */
  lemma DoneStable(w: World, opts: PathfinderOptions, s: seq<PathNode>, s': seq<PathNode>)
    requires Refreshed(w, opts, s, s')
    ensures forall c :: TileDone(w, opts, s, c) ==> TileDone(w, opts, s', c)
  {
    forall c | TileDone(w, opts, s, c)
      ensures TileDone(w, opts, s', c)
    {
      forall l | l != Wrong && LayerExists(w, opts, c, l)
        ensures 0 <= NodeIndex(w.sizes, c, l) < |s'|
        ensures FreshPlaced(w, opts, s'[NodeIndex(w.sizes, c, l)], NodeIndex(w.sizes, c, l))
      {
      }
    }
  }

  /** The updateNode lambda of initializeGraph with CNodeHelper::updateNode. */
  method UpdateNode(out: PathsInfo, w: World, opts: PathfinderOptions, c: Coord, l: Layer)
    requires SizesValid(out.sizes) && out.sizes == w.sizes && out.nodes.Length == NodeCount(w.sizes)
    requires InMap(w, c) && l != Wrong && LayerExists(w, opts, c, l)
    requires Prepped(w, opts, out.nodes[out.NodeAt(c, l)], out.NodeAt(c, l))
    modifies out.nodes
    ensures out.nodes[..] == old(out.nodes[..])[out.NodeAt(c, l) := out.nodes[out.NodeAt(c, l)]]
    ensures out.nodes[out.NodeAt(c, l)]
        == UpdatePathNode(old(out.nodes[out.NodeAt(c, l)]), c, l, EvaluateAccessibility(w, c, l))
    ensures FreshPlaced(w, opts, out.nodes[out.NodeAt(c, l)], out.NodeAt(c, l))
  {
    var k := out.NodeAt(c, l);
    var n := out.nodes[k];
    if n != DefaultPathNode {
      PlacedAt(w, opts, n, c, l);
    }
    out.nodes[k] := UpdatePathNode(n, c, l, EvaluateAccessibility(w, c, l));
  }

  /** One tile of initializeGraph: the land node (ground) or the sail node (water), plus air and water-walking nodes when enabled. */
  method UpdateTile(out: PathsInfo, w: World, opts: PathfinderOptions, c: Coord)
    requires SizesValid(out.sizes) && out.sizes == w.sizes && out.nodes.Length == NodeCount(w.sizes)
    requires InMap(w, c)
    requires AllPrepped(w, opts, out.nodes[..])
    modifies out.nodes
    ensures AllPrepped(w, opts, out.nodes[..])
    ensures Refreshed(w, opts, old(out.nodes[..]), out.nodes[..])
    ensures TileDone(w, opts, out.nodes[..], c)
  {
    ghost var s0 := out.nodes[..];
    match w.terrain(c) {
      case Rock =>
      case Sea =>
        UpdateLayer(out, w, opts, c, Sail, s0);
        if opts.useFlying {
          UpdateLayer(out, w, opts, c, Air, s0);
        }
        if opts.useWaterWalking {
          UpdateLayer(out, w, opts, c, Water, s0);
        }
      case Ground =>
        UpdateLayer(out, w, opts, c, Land, s0);
        if opts.useFlying {
          UpdateLayer(out, w, opts, c, Air, s0);
        }
    }
  }

  /** UpdateNode inside UpdateTile: the node of layer l is fresh afterwards, and the other layers of c stay done. */
  method UpdateLayer(out: PathsInfo, w: World, opts: PathfinderOptions, c: Coord, l: Layer, ghost s0: seq<PathNode>)
    requires SizesValid(out.sizes) && out.sizes == w.sizes && out.nodes.Length == NodeCount(w.sizes)
    requires InMap(w, c) && l != Wrong && LayerExists(w, opts, c, l)
    requires AllPrepped(w, opts, out.nodes[..]) && Refreshed(w, opts, s0, out.nodes[..])
    modifies out.nodes
    ensures AllPrepped(w, opts, out.nodes[..]) && Refreshed(w, opts, s0, out.nodes[..])
    ensures LayerDone(w, opts, out.nodes[..], c, l)
    ensures forall l' :: l' != Wrong && l' != l && LayerDone(w, opts, old(out.nodes[..]), c, l') ==>
      LayerDone(w, opts, out.nodes[..], c, l')
  {
    ghost var s := out.nodes[..];
    NodeIndexBound(w, c, l);
    var k := out.NodeAt(c, l);
    assert Prepped(w, opts, s[k], k);
    UpdateNode(out, w, opts, c, l);
    RefreshOne(w, opts, s0, s, k, out.nodes[k]);
    assert out.nodes[..] == s[k := out.nodes[k]];
  }

  /**
   * initializeGraph: every node of every existing layer is (re)initialised
   * with the accessibility of its tile; the table is then unlinked, so it is
   * trivially acyclic.
   */
  method InitializeGraph(out: PathsInfo, w: World, opts: PathfinderOptions)
    requires SizesValid(out.sizes) && out.sizes == w.sizes && out.nodes.Length == NodeCount(w.sizes)
    requires forall j :: 0 <= j < out.nodes.Length ==> Prepped(w, opts, out.nodes[j], j)
    modifies out, out.nodes
    ensures out.Valid() && out.lockCount == 0
    ensures out.hero == old(out.hero) && out.hpos == old(out.hpos)
    ensures forall j :: 0 <= j < out.nodes.Length ==> out.nodes[j] == DefaultPathNode || FreshPlaced(w, opts, out.nodes[j], j)
    ensures Complete(w, opts, out.nodes[..])
  {
    assert AllPrepped(w, opts, out.nodes[..]) by {
      forall j | 0 <= j < out.nodes.Length
        ensures Prepped(w, opts, out.nodes[..][j], j)
      {
        assert out.nodes[..][j] == out.nodes[j];
      }
    }
    var x := 0;
    while x < out.sizes.x
      modifies out.nodes
      invariant 0 <= x <= out.sizes.x
      invariant AllPrepped(w, opts, out.nodes[..])
      invariant forall c :: InMap(w, c) && c.x < x ==> TileDone(w, opts, out.nodes[..], c)
    {
      var y := 0;
      while y < out.sizes.y
        modifies out.nodes
        invariant 0 <= y <= out.sizes.y
        invariant AllPrepped(w, opts, out.nodes[..])
        invariant forall c :: InMap(w, c) && (c.x < x || (c.x == x && c.y < y)) ==> TileDone(w, opts, out.nodes[..], c)
      {
        var z := 0;
        while z < out.sizes.z
          modifies out.nodes
          invariant 0 <= z <= out.sizes.z
          invariant AllPrepped(w, opts, out.nodes[..])
          invariant forall c :: InMap(w, c) && (c.x < x || (c.x == x && (c.y < y || (c.y == y && c.z < z)))) ==>
            TileDone(w, opts, out.nodes[..], c)
        {
          ghost var before := out.nodes[..];
          UpdateTile(out, w, opts, Coord(x, y, z));
          DoneStable(w, opts, before, out.nodes[..]);
          z := z + 1;
        }
        y := y + 1;
      }
      x := x + 1;
    }
    forall j | 0 <= j < out.nodes.Length
      ensures out.nodes[j] == DefaultPathNode || FreshPlaced(w, opts, out.nodes[j], j)
    {
      var n := out.nodes[j];
      if n != DefaultPathNode {
        assert TileDone(w, opts, out.nodes[..], n.base.coord);
        assert out.nodes[..][NodeIndex(w.sizes, n.base.coord, n.base.layer)] == n;
      }
    }
    forall c: Coord, l: Layer | InMap(w, c) && l != Wrong && LayerExists(w, opts, c, l)
      ensures 0 <= NodeIndex(w.sizes, c, l) < out.nodes.Length && out.nodes[NodeIndex(w.sizes, c, l)].base.layer != Wrong
    {
      assert TileDone(w, opts, out.nodes[..], c);
    }
    out.rank := seq(out.nodes.Length, _ => 0);
    out.lockCount := 0;
    AcyclicUnlinked(out.nodes[..]);
  }

  // ---------------------------------------------------------------------
  // Neighbours and teleport exits

  /** The tiles among `tiles` from which the object at `pos` can be left (checkForVisitableDir). */
  function MovableFrom(w: World, tiles: seq<Coord>, pos: Coord): seq<Coord>
  {
    if tiles == [] then []
    else
      var last := tiles[|tiles| - 1];
      MovableFrom(w, tiles[..|tiles| - 1], pos) + (if w.canMoveBetween(last, pos) then [last] else [])
  }

  lemma {:induction false} MovableFromMembers(w: World, tiles: seq<Coord>, pos: Coord)
    ensures forall t :: t in MovableFrom(w, tiles, pos) <==> t in tiles && w.canMoveBetween(t, pos)
  {
    if tiles != [] {
      var pre := tiles[..|tiles| - 1];
      MovableFromMembers(w, pre, pos);
      assert tiles == pre + [tiles[|tiles| - 1]];
    }
  }

  /** addNeighbours: the tiles around cp, cut down to the exits of the object cp is visiting. */
  function SourceNeighbours(w: World, cp: BaseNode, ctObj: Option<Obj>): seq<Coord>
  {
    var tiles := NeighbourTiles(w, cp.coord, None, cp.layer == Sail);
    if IsVisitableObj(ctObj, cp.layer) then MovableFrom(w, tiles, ctObj.value.visitablePos) else tiles
  }

  /** Every neighbour is a map tile next to cp; off an object only those from which the object can be left. */
  lemma SourceNeighboursProps(w: World, cp: BaseNode, ctObj: Option<Obj>)
    ensures forall t :: t in SourceNeighbours(w, cp, ctObj) ==>
      InMap(w, t) && Adjacent(t, cp.coord) && w.terrain(t) != Rock
      && (IsVisitableObj(ctObj, cp.layer) ==> w.canMoveBetween(t, ctObj.value.visitablePos))
  {
    NeighbourTilesProps(w, cp.coord, None, cp.layer == Sail);
    if IsVisitableObj(ctObj, cp.layer) {
      MovableFromMembers(w, NeighbourTiles(w, cp.coord, None, cp.layer == Sail), ctObj.value.visitablePos);
    }
  }

  /** addTeleportExits, with the channel's exits and the castle-gate towns taken from the world. */
  function TeleportExits(opts: PathfinderOptions, nh: NodeHelper, w: World, cp: BaseNode, ctObj: Option<Obj>, whirlpoolProtection: bool): seq<Coord>
  {
    if !IsVisitableObj(ctObj, cp.layer) || IsPatrolEnabled(nh) then []
    else
      var o := ctObj.value;
      (if AllowedTeleportEntrance(opts, ctObj, whirlpoolProtection) then w.channelExits(o.id) else [])
      + (if opts.useCastleGate && o.kind == Town && o.infernoTown && o.relation != Enemies then w.castleGateExits(o.id) else [])
  }

  /** Teleport exits come only from a visitable object on the land or sail layer, and only go where it leads. */
  lemma TeleportExitsProps(opts: PathfinderOptions, nh: NodeHelper, w: World, hp: Coord, cp: BaseNode, wp: bool)
    ensures var ex := TeleportExits(opts, nh, w, cp, w.topVisitable(cp.coord, cp.coord == hp), wp);
      && (ex != [] ==> (cp.layer == Land || cp.layer == Sail) && !IsPatrolEnabled(nh))
      && (forall e :: e in ex ==> e in TeleportTargets(w, hp, cp.coord))
  {
  }

  // ---------------------------------------------------------------------
  // The search

  /** The points left after stepping from src to dst with `move` points on the given turn. */
  function RemainsAfter(w: World, h: Hero, src: Coord, dst: Coord, a: NodeAction, move: int, turn: nat): int
  {
    var cost := MovementCost(w, h, src, dst, move, turn, true);
    if a == Embark || a == Disembark then h.afterEmbark(move, cost, DisembarkFlag(a), turn) else move - cost
  }

  /**
   * Points left and turn on arrival at dp: the current turn (with the
   * helper's turn information) when the points suffice, otherwise the next
   * turn with a full day of points on dp's layer.
   */
  function StepTarget(w: World, h: Hero, cp: BaseNode, dp: BaseNode, a: NodeAction, movement: int, turn: nat, helperTurn: nat): (int, int)
  {
    var c0 := MovementCost(w, h, cp.coord, dp.coord, movement, helperTurn, true);
    if movement - c0 >= 0 then (RemainsAfter(w, h, cp.coord, dp.coord, a, movement, helperTurn), turn)
    else (RemainsAfter(w, h, cp.coord, dp.coord, a, LayerMaxMovePoints(h, turn + 1, dp.layer), turn + 1), turn + 1)
  }

  /** The commit condition of the relaxation. */
  predicate ShouldCommit(opts: PathfinderOptions, cp: BaseNode, dp: BaseNode, remains: int, turnAtNextTile: int)
  {
    IsBetterWay(dp, remains, turnAtNextTile)
    && ((cp.turns == turnAtNextTile && remains != 0) || PassOneTurnLimitCheck(opts, cp))
  }

  /** The queue without its k-th entry. */
  function RemoveAt(s: seq<nat>, k: nat): (r: seq<nat>)
    requires k < |s|
    ensures multiset(r) == multiset(s) - multiset{s[k]}
    ensures forall x :: x in r ==> x in s
  {
    assert s == s[..k] + [s[k]] + s[k + 1..];
    s[..k] + s[k + 1..]
  }

  /** Teleport exits of a map tile lie in the map. */
  lemma TargetsInMap(w: World, hp: Coord, c: Coord)
    requires ExitsValid(w) && InMap(w, c)
    ensures forall e :: e in TeleportTargets(w, hp, c) ==> InMap(w, e)
  {
    if w.topVisitable(c, c == hp).Some? {
      assert ExitsMatch(w, c, w.topVisitable(c, c == hp).value);
    }
  }

  /** What one pop of the search changes: the node table, the queue and the helper's current turn. */
  datatype Search = Search(nodes: seq<PathNode>, queue: seq<nat>, hturn: nat)

  /**
   * From st to r only unlocked nodes were written, each with predecessor
   * cpi and turn `turn` or the one after; the queue only grew, and what
   * was added are such nodes.
   */
  ghost predicate WritesFrom(st: Search, r: Search, cpi: nat, turn: nat)
  {
    && |r.nodes| == |st.nodes| && |st.queue| <= |r.queue| && r.queue[..|st.queue|] == st.queue
    && (forall j :: 0 <= j < |r.nodes| && r.nodes[j] != st.nodes[j] ==>
          && !st.nodes[j].locked && !r.nodes[j].locked && r.nodes[j].before == Some(cpi)
          && (r.nodes[j].base.turns == U8(turn) || r.nodes[j].base.turns == U8(turn + 1)))
    && (forall k :: |st.queue| <= k < |r.queue| ==> r.queue[k] < |r.nodes| && r.nodes[r.queue[k]].before == Some(cpi))
  }

  lemma WritesFromRefl(st: Search, cpi: nat, turn: nat)
    ensures WritesFrom(st, st, cpi, turn)
  {
    assert st.queue[..|st.queue|] == st.queue;
  }

  /** Two rounds of writes from the same node are one. */
  lemma WritesFromTrans(a: Search, b: Search, c: Search, cpi: nat, turn: nat)
    requires WritesFrom(a, b, cpi, turn) && WritesFrom(b, c, cpi, turn)
    ensures WritesFrom(a, c, cpi, turn)
  {
    assert c.queue[..|a.queue|] == c.queue[..|b.queue|][..|a.queue|];
    forall k | |a.queue| <= k < |c.queue|
      ensures c.queue[k] < |c.nodes| && c.nodes[c.queue[k]].before == Some(cpi)
    {
      if k < |b.queue| {
        assert c.queue[k] == b.queue[k];
      }
    }
  }

  class Pathfinder {
    const out: PathsInfo
    const w: World
    const hero: Hero
    const opts: PathfinderOptions
    const nodeHelper: NodeHelper
    /** getHelper(hero): the search has one actor, so one helper. */
    const hlp: PathfinderHelper
    /** The priority queue, as the indices of the queued nodes (duplicates allowed). */
    var pq: seq<nat>
    /** The index of the hero's start node. */
    const root: nat

    ghost predicate QueueOk(q: nat)
      reads this, out, out.nodes, hlp
    {
      q < out.nodes.Length && out.nodes[q].base.layer != Wrong && out.nodes[q].base.turns < |hlp.turnsInfo|
      && (out.nodes[q].before.None? ==> q == root)
    }

    ghost predicate Valid()
      reads this, out, out.nodes, hlp
    {
      out.Valid() && out.sizes == w.sizes && out.hpos == hero.position
      && InMap(w, hero.position) && HeroTileOk(w, hero) && ExitsValid(w)
      && root == InitialIndex(w, hero)
      && hlp.Valid() && hlp.hero == hero && hlp.options == opts && hlp.turn >= 0
      && TableOk(w, opts, hero.position, out.nodes[..])
      && Rooted(out.nodes[..], root)
      && (forall q :: q in pq ==> QueueOk(q))
    }

    ghost predicate Initialised()
      reads this, out, out.nodes
    {
      forall j :: 0 <= j < out.nodes.Length ==> out.nodes[j] == DefaultPathNode || FreshPlaced(w, opts, out.nodes[j], j)
    }

    ghost function State(): Search
      reads this, out, out.nodes, hlp
      requires hlp.turn >= 0
    {
      Search(out.nodes[..], pq, hlp.turn)
    }

    // The search step by step, as functions of the state before it.

    /**
     * One relaxation from cp to node d (the body of the inner loop once dp
     * may be entered): the destination action; the points and turn on
     * arrival, after which the helper is on the turn of arrival; and, when
     * the new way is better and the one-turn limit allows it, the commit,
     * with a push when movement may go on from dp.
     */
    ghost function Relaxed(st: Search, cpi: nat, cp: BaseNode, d: nat, movement: int, turn: nat): (r: Search)
      requires d < |st.nodes|
      ensures |r.nodes| == |st.nodes|
    {
      var dp := st.nodes[d];
      var m := MoveOf(w, hero.position, cp, dp.base);
      var a := GetDestAction(opts, m);
      var t := StepTarget(w, hero, cp, dp.base, a, movement, turn, st.hturn);
      var ht := if t.1 == turn then st.hturn else turn + 1;
      if ShouldCommit(opts, cp, dp.base, t.0, t.1) then
        var entrance := AllowedTeleportEntrance(opts, m.dtObj, hero.whirlpoolProtection(ht));
        Search(st.nodes[d := dp.(base := dp.base.(moveRemains := U32(t.0), turns := U8(t.1), action := a), before := Some(cpi))],
               if MovementAfterDestPossible(opts, m, a, entrance) then st.queue + [d] else st.queue,
               ht)
      else st.(hturn := ht)
    }

    /**
     * The checks of the layers loop before the relaxation: the layer is
     * open on the helper's turn, the layer change is possible without and
     * then with the tiles' accessibility, dp is neither locked nor unset,
     * and movement into dp is possible.
     */
    ghost predicate LayerGates(st: Search, cp: BaseNode, t: Coord, i: Layer)
      requires SizesValid(w.sizes) && |st.nodes| == NodeCount(w.sizes) && InMap(w, t) && i != Wrong
    {
      NodeIndexBound(w, t, i);
      var dp := st.nodes[NodeIndex(w.sizes, t, i)];
      var m := MoveOf(w, hero.position, cp, dp.base);
      && LayerOpen(opts, hero, st.hturn, i)
      && (cp.layer != i ==> LayerTransitionPossible(opts, cp, i, IsWater(w, t), cp.coord == hero.position))
      && !dp.locked && dp.base.accessible != NotSet
      && (cp.layer != i ==> LayerTransitionAccessible(opts, m))
      && MovementToDestPossible(opts, m)
    }

    /** Layer i of neighbour t: the relaxation when the checks pass, otherwise nothing. */
    ghost function LayerRelaxed(st: Search, cpi: nat, cp: BaseNode, t: Coord, i: Layer, movement: int, turn: nat): (r: Search)
      requires SizesValid(w.sizes) && |st.nodes| == NodeCount(w.sizes) && InMap(w, t) && i != Wrong
      ensures |r.nodes| == |st.nodes|
    {
      NodeIndexBound(w, t, i);
      if LayerGates(st, cp, t, i) then Relaxed(st, cpi, cp, NodeIndex(w.sizes, t, i), movement, turn) else st
    }

    /** The movement layers of neighbour t from the n-th on, in order (LAND to AIR). */
    ghost function LayersRelaxed(st: Search, cpi: nat, cp: BaseNode, t: Coord, n: nat, movement: int, turn: nat): (r: Search)
      requires SizesValid(w.sizes) && |st.nodes| == NodeCount(w.sizes) && InMap(w, t)
      ensures |r.nodes| == |st.nodes|
      decreases |MovementLayers| - n
    {
      if n >= |MovementLayers| then st
      else LayersRelaxed(LayerRelaxed(st, cpi, cp, t, MovementLayers[n], movement, turn), cpi, cp, t, n + 1, movement, turn)
    }

    /** The neighbours loop over ns from the n-th on: every neighbour the patrol allows, all four layers of each, in order. */
    ghost function NeighboursRelaxed(st: Search, cpi: nat, cp: BaseNode, ns: seq<Coord>, n: nat, movement: int, turn: nat): (r: Search)
      requires SizesValid(w.sizes) && |st.nodes| == NodeCount(w.sizes)
      requires forall k :: 0 <= k < |ns| ==> InMap(w, ns[k])
      ensures |r.nodes| == |st.nodes|
      decreases |ns| - n
    {
      if n >= |ns| then st
      else
        var t := ns[n];
        var next := if IsPatrolMovementAllowed(nodeHelper, t) then LayersRelaxed(st, cpi, cp, t, 0, movement, turn) else st;
        NeighboursRelaxed(next, cpi, cp, ns, n + 1, movement, turn)
    }

    /**
     * One teleport exit e: its node on cp's layer, unless locked or
     * blocked, takes cp's points and turn when that is a better way, and is
     * queued when its action is a plain teleport.
     */
    ghost function ExitRelaxed(st: Search, cpi: nat, cp: BaseNode, e: Coord, movement: int, turn: nat): (r: Search)
      requires SizesValid(w.sizes) && |st.nodes| == NodeCount(w.sizes) && InMap(w, e) && cp.layer != Wrong
      ensures |r.nodes| == |st.nodes| && r.hturn == st.hturn
    {
      NodeIndexBound(w, e, cp.layer);
      var d := NodeIndex(w.sizes, e, cp.layer);
      var dp := st.nodes[d];
      if dp.locked || dp.base.accessible == Blocked || !IsBetterWay(dp.base, movement, turn) then st
      else
        var a := GetTeleportDestAction(w.topVisitable(e, false), dp.base.layer);
        Search(st.nodes[d := dp.(base := dp.base.(moveRemains := U32(movement), turns := U8(turn), action := a), before := Some(cpi))],
               if a == TeleportNormal then st.queue + [d] else st.queue,
               st.hturn)
    }

    /** addTeleportExits for cp, on the map; every exit is a map tile. */
    function ExitsOf(cp: BaseNode, whirlpoolProtection: bool): (es: seq<Coord>)
      requires ExitsValid(w) && InMap(w, cp.coord)
      ensures forall k :: 0 <= k < |es| ==> InMap(w, es[k]) && es[k] in TeleportTargets(w, hero.position, cp.coord)
    {
      TeleportExitsProps(opts, nodeHelper, w, hero.position, cp, whirlpoolProtection);
      TargetsInMap(w, hero.position, cp.coord);
      TeleportExits(opts, nodeHelper, w, cp, w.topVisitable(cp.coord, cp.coord == hero.position), whirlpoolProtection)
    }

    /** The teleport loop over the exits es, in order. */
    ghost function ExitsRelaxed(st: Search, cpi: nat, cp: BaseNode, es: seq<Coord>, n: nat, movement: int, turn: nat): (r: Search)
      requires SizesValid(w.sizes) && |st.nodes| == NodeCount(w.sizes) && cp.layer != Wrong
      requires forall k :: 0 <= k < |es| ==> InMap(w, es[k])
      ensures |r.nodes| == |st.nodes| && r.hturn == st.hturn
      decreases |es| - n
    {
      if n >= |es| then st
      else ExitsRelaxed(ExitRelaxed(st, cpi, cp, es[n], movement, turn), cpi, cp, es, n + 1, movement, turn)
    }

    /**
     * The points and turn a popped node is expanded with: its own, or,
     * when it has no points left, the next turn with a full day of points
     * for its layer.
     */
    function PopTarget(cp: BaseNode): (int, nat)
      requires BaseValid(cp)
    {
      if I32(cp.moveRemains) == 0 then (LayerMaxMovePoints(hero, cp.turns + 1, cp.layer), cp.turns + 1)
      else (I32(cp.moveRemains), cp.turns)
    }

    /**
     * The body of the queue loop for the popped node cpi: nothing but the
     * turn change when a node without points may not wait for the next
     * turn; otherwise the neighbours loop, then the teleport loop, with the
     * points and turn of PopTarget.
     */
    ghost function Processed(st: Search, cpi: nat, cp: BaseNode): (r: Search)
      requires SizesValid(w.sizes) && |st.nodes| == NodeCount(w.sizes) && cp.layer != Wrong
      requires BaseValid(cp) && InMap(w, cp.coord) && ExitsValid(w)
      ensures |r.nodes| == |st.nodes|
    {
      var mt := PopTarget(cp);
      if I32(cp.moveRemains) == 0 && !PassOneTurnLimitCheck(opts, cp) then st.(hturn := mt.1)
      else Expanded(st.(hturn := mt.1), cpi, cp, mt.0, mt.1)
    }

    /** The neighbours loop, then the teleport loop, from cp with the given points and turn. */
    ghost function Expanded(st: Search, cpi: nat, cp: BaseNode, movement: int, turn: nat): (r: Search)
      requires SizesValid(w.sizes) && |st.nodes| == NodeCount(w.sizes) && cp.layer != Wrong
      requires InMap(w, cp.coord) && ExitsValid(w)
      ensures |r.nodes| == |st.nodes|
    {
      var ctObj := w.topVisitable(cp.coord, cp.coord == hero.position);
      var ns := SourceNeighbours(w, cp, ctObj);
      SourceNeighboursProps(w, cp, ctObj);
      var st1 := NeighboursRelaxed(st, cpi, cp, ns, 0, movement, turn);
      var es := ExitsOf(cp, hero.whirlpoolProtection(st1.hturn));
      ExitsRelaxed(st1, cpi, cp, es, 0, movement, turn)
    }

    // What one pop writes: only unlocked nodes, each reached from the popped node.

    lemma RelaxedWrites(st: Search, cpi: nat, cp: BaseNode, d: nat, movement: int, turn: nat)
      requires d < |st.nodes| && !st.nodes[d].locked
      ensures WritesFrom(st, Relaxed(st, cpi, cp, d, movement, turn), cpi, turn)
    {
      var r := Relaxed(st, cpi, cp, d, movement, turn);
      if r.queue != st.queue {
        assert r.queue[..|st.queue|] == st.queue;
      } else {
        WritesFromRefl(st, cpi, turn);
      }
    }

    lemma LayerRelaxedWrites(st: Search, cpi: nat, cp: BaseNode, t: Coord, i: Layer, movement: int, turn: nat)
      requires SizesValid(w.sizes) && |st.nodes| == NodeCount(w.sizes) && InMap(w, t) && i != Wrong
      ensures WritesFrom(st, LayerRelaxed(st, cpi, cp, t, i, movement, turn), cpi, turn)
    {
      NodeIndexBound(w, t, i);
      if LayerGates(st, cp, t, i) {
        RelaxedWrites(st, cpi, cp, NodeIndex(w.sizes, t, i), movement, turn);
      } else {
        WritesFromRefl(st, cpi, turn);
      }
    }

    lemma {:induction false} LayersRelaxedWrites(st: Search, cpi: nat, cp: BaseNode, t: Coord, n: nat, movement: int, turn: nat)
      requires SizesValid(w.sizes) && |st.nodes| == NodeCount(w.sizes) && InMap(w, t)
      ensures WritesFrom(st, LayersRelaxed(st, cpi, cp, t, n, movement, turn), cpi, turn)
      decreases |MovementLayers| - n
    {
      if n >= |MovementLayers| {
        WritesFromRefl(st, cpi, turn);
      } else {
        var next := LayerRelaxed(st, cpi, cp, t, MovementLayers[n], movement, turn);
        LayerRelaxedWrites(st, cpi, cp, t, MovementLayers[n], movement, turn);
        LayersRelaxedWrites(next, cpi, cp, t, n + 1, movement, turn);
        WritesFromTrans(st, next, LayersRelaxed(st, cpi, cp, t, n, movement, turn), cpi, turn);
      }
    }

    lemma {:induction false} NeighboursRelaxedWrites(st: Search, cpi: nat, cp: BaseNode, ns: seq<Coord>, n: nat, movement: int, turn: nat)
      requires SizesValid(w.sizes) && |st.nodes| == NodeCount(w.sizes)
      requires forall k :: 0 <= k < |ns| ==> InMap(w, ns[k])
      ensures WritesFrom(st, NeighboursRelaxed(st, cpi, cp, ns, n, movement, turn), cpi, turn)
      decreases |ns| - n
    {
      if n >= |ns| {
        WritesFromRefl(st, cpi, turn);
      } else {
        var t := ns[n];
        var next := if IsPatrolMovementAllowed(nodeHelper, t) then LayersRelaxed(st, cpi, cp, t, 0, movement, turn) else st;
        if IsPatrolMovementAllowed(nodeHelper, t) {
          LayersRelaxedWrites(st, cpi, cp, t, 0, movement, turn);
        } else {
          WritesFromRefl(st, cpi, turn);
        }
        NeighboursRelaxedWrites(next, cpi, cp, ns, n + 1, movement, turn);
        WritesFromTrans(st, next, NeighboursRelaxed(st, cpi, cp, ns, n, movement, turn), cpi, turn);
      }
    }

    lemma ExitRelaxedWrites(st: Search, cpi: nat, cp: BaseNode, e: Coord, movement: int, turn: nat)
      requires SizesValid(w.sizes) && |st.nodes| == NodeCount(w.sizes) && InMap(w, e) && cp.layer != Wrong
      ensures WritesFrom(st, ExitRelaxed(st, cpi, cp, e, movement, turn), cpi, turn)
    {
      NodeIndexBound(w, e, cp.layer);
      var d := NodeIndex(w.sizes, e, cp.layer);
      var dp := st.nodes[d];
      if dp.locked || dp.base.accessible == Blocked || !IsBetterWay(dp.base, movement, turn) {
        WritesFromRefl(st, cpi, turn);
      } else {
        var a := GetTeleportDestAction(w.topVisitable(e, false), dp.base.layer);
        var n := dp.(base := dp.base.(moveRemains := U32(movement), turns := U8(turn), action := a), before := Some(cpi));
        var q := if a == TeleportNormal then st.queue + [d] else st.queue;
        assert ExitRelaxed(st, cpi, cp, e, movement, turn) == Search(st.nodes[d := n], q, st.hturn);
        assert q[..|st.queue|] == st.queue;
      }
    }

    lemma {:induction false} ExitsRelaxedWrites(st: Search, cpi: nat, cp: BaseNode, es: seq<Coord>, n: nat, movement: int, turn: nat)
      requires SizesValid(w.sizes) && |st.nodes| == NodeCount(w.sizes) && cp.layer != Wrong
      requires forall k :: 0 <= k < |es| ==> InMap(w, es[k])
      ensures WritesFrom(st, ExitsRelaxed(st, cpi, cp, es, n, movement, turn), cpi, turn)
      decreases |es| - n
    {
      if n >= |es| {
        WritesFromRefl(st, cpi, turn);
      } else {
        var next := ExitRelaxed(st, cpi, cp, es[n], movement, turn);
        ExitRelaxedWrites(st, cpi, cp, es[n], movement, turn);
        ExitsRelaxedWrites(next, cpi, cp, es, n + 1, movement, turn);
        WritesFromTrans(st, next, ExitsRelaxed(st, cpi, cp, es, n, movement, turn), cpi, turn);
      }
    }

    /**
     * One pop changes no locked node (the popped one included); every node
     * it changes has the popped node as predecessor and the expansion turn
     * or the one after; the queue only grows, by such nodes. A node without
     * points that may not wait changes nothing.
     */
    lemma ProcessedWrites(st: Search, cpi: nat, cp: BaseNode)
      requires SizesValid(w.sizes) && |st.nodes| == NodeCount(w.sizes) && cp.layer != Wrong
      requires BaseValid(cp) && InMap(w, cp.coord) && ExitsValid(w)
      ensures var r := Processed(st, cpi, cp);
        && WritesFrom(st, r, cpi, PopTarget(cp).1)
        && (I32(cp.moveRemains) == 0 && !PassOneTurnLimitCheck(opts, cp) ==> r.nodes == st.nodes && r.queue == st.queue)
    {
      var mt := PopTarget(cp);
      if I32(cp.moveRemains) == 0 && !PassOneTurnLimitCheck(opts, cp) {
        WritesFromRefl(st, cpi, mt.1);
      } else {
        var st0 := st.(hturn := mt.1);
        var ctObj := w.topVisitable(cp.coord, cp.coord == hero.position);
        var ns := SourceNeighbours(w, cp, ctObj);
        SourceNeighboursProps(w, cp, ctObj);
        var st1 := NeighboursRelaxed(st0, cpi, cp, ns, 0, mt.0, mt.1);
        NeighboursRelaxedWrites(st0, cpi, cp, ns, 0, mt.0, mt.1);
        var es := ExitsOf(cp, hero.whirlpoolProtection(st1.hturn));
        ExitsRelaxedWrites(st1, cpi, cp, es, 0, mt.0, mt.1);
        WritesFromTrans(st, st1, Processed(st, cpi, cp), cpi, mt.1);
      }
    }

    // What the checks of one relaxation guarantee about the node written.

    /**
     * A layer of a neighbour changes at most its own node and pushes at most
     * that node. It changes anything only past every check of the layers
     * loop, and then links the node to the source with a route the queue
     * order ranks above the old one, unless the node was never reached.
     */
    lemma LayerRelaxedImproves(st: Search, cpi: nat, cp: BaseNode, t: Coord, i: Layer, movement: int, turn: nat)
      requires SizesValid(w.sizes) && |st.nodes| == NodeCount(w.sizes) && InMap(w, t) && i != Wrong
      ensures NodeIndex(w.sizes, t, i) < |st.nodes|
      ensures var r := LayerRelaxed(st, cpi, cp, t, i, movement, turn);
        var d := NodeIndex(w.sizes, t, i);
        var dp := st.nodes[d];
        var tg := StepTarget(w, hero, cp, dp.base, GetDestAction(opts, MoveOf(w, hero.position, cp, dp.base)), movement, turn, st.hturn);
        && (forall j :: 0 <= j < |st.nodes| && j != d ==> r.nodes[j] == st.nodes[j])
        && (r.queue == st.queue || r.queue == st.queue + [d])
        && (r.nodes != st.nodes || r.queue != st.queue ==>
              && LayerOpen(opts, hero, st.hturn, i)
              && (cp.layer != i ==> LayerTransitionPossible(opts, cp, i, IsWater(w, t), cp.coord == hero.position))
              && !dp.locked && dp.base.accessible != NotSet
              && r.nodes[d].before == Some(cpi)
              && (0 <= tg.1 < TwoTo8 ==> dp.base.turns == Unreached || Better(r.nodes[d].base, dp.base)))
    {
      NodeIndexBound(w, t, i);
    }

    /**
     * A teleport exit changes at most its own node on the source's layer,
     * and only when that node is neither locked nor blocked. The node then
     * takes the source's points and turn, linked to the source, with a
     * route the queue order ranks above the old one unless it was never
     * reached; it is queued exactly when it lands as a plain teleport.
     */
    lemma ExitRelaxedImproves(st: Search, cpi: nat, cp: BaseNode, e: Coord, movement: int, turn: nat)
      requires SizesValid(w.sizes) && |st.nodes| == NodeCount(w.sizes) && InMap(w, e) && cp.layer != Wrong
      ensures NodeIndex(w.sizes, e, cp.layer) < |st.nodes|
      ensures var r := ExitRelaxed(st, cpi, cp, e, movement, turn);
        var d := NodeIndex(w.sizes, e, cp.layer);
        var dp := st.nodes[d];
        && (forall j :: 0 <= j < |st.nodes| && j != d ==> r.nodes[j] == st.nodes[j])
        && (r != st ==>
              && !dp.locked && dp.base.accessible != Blocked
              && r.nodes[d].before == Some(cpi)
              && (r.queue == st.queue + [d] <==> r.nodes[d].base.action == TeleportNormal)
              && (r.queue == st.queue <==> r.nodes[d].base.action != TeleportNormal)
              && (0 <= movement < TwoTo32 && turn < TwoTo8 ==>
                    && r.nodes[d].base.moveRemains == movement && r.nodes[d].base.turns == turn
                    && (dp.base.turns == Unreached || Better(r.nodes[d].base, dp.base))))
    {
      NodeIndexBound(w, e, cp.layer);
    }

    /**
     * The pop rolls over to the next turn exactly when the node has no
     * points left, and then with a full day for its layer. Either way the
     * node is expanded with a key the queue order never ranks above its own.
     */
    lemma PopTargetNeverAbove(cp: BaseNode)
      requires BaseValid(cp)
      ensures var mt := PopTarget(cp);
        && (mt.1 == cp.turns + 1 <==> cp.moveRemains == 0)
        && (mt.1 == cp.turns <==> cp.moveRemains != 0)
        && (cp.moveRemains == 0 ==> mt.0 == LayerMaxMovePoints(hero, cp.turns + 1, cp.layer))
        && (cp.moveRemains < TwoTo31 ==> cp.moveRemains != 0 ==> mt.0 == cp.moveRemains)
        && (mt.0 >= 0 ==> !Better(cp.(moveRemains := mt.0, turns := mt.1), cp))
    {
    }

    /** TPathfinder(out, gs, owner, nodeHelper): set up, then initializeGraph. */
    constructor (pathsInfo: PathsInfo, world: World, h: Hero, options: PathfinderOptions, helper: NodeHelper)
      requires SizesValid(pathsInfo.sizes) && pathsInfo.sizes == world.sizes
      requires pathsInfo.nodes.Length == NodeCount(world.sizes)
      requires forall j :: 0 <= j < pathsInfo.nodes.Length ==> Prepped(world, options, pathsInfo.nodes[j], j)
      requires pathsInfo.hpos == h.position && InMap(world, h.position) && HeroTileOk(world, h) && ExitsValid(world)
      modifies pathsInfo, pathsInfo.nodes
      ensures Valid() && Initialised() && pq == []
      ensures out == pathsInfo && w == world && hero == h && opts == options && nodeHelper == helper
      ensures out.hero == old(pathsInfo.hero) && out.lockCount == 0
      ensures fresh(hlp)
    {
      out := pathsInfo;
      w := world;
      hero := h;
      opts := options;
      nodeHelper := helper;
      NodeIndexBound(world, h.position, InitialLayer(h));
      root := NodeIndex(world.sizes, h.position, InitialLayer(h));
      pq := [];
      hlp := new PathfinderHelper(h, options);
      InitializeGraph(pathsInfo, world, options);
      new;
      forall i | 0 <= i < out.nodes.Length
        ensures Shaped(w, opts, out.nodes[..][i], i) && BaseValid(out.nodes[..][i].base)
        ensures PredOk(w, hero.position, out.nodes[..], i)
      {
      }
    }

    /** The start node is placed at the hero's tile on the hero's layer. */
    lemma RootPlaced()
      requires Valid()
      ensures root < out.nodes.Length
      ensures out.nodes[root].base.coord == hero.position && out.nodes[root].base.layer == InitialLayer(hero)
      ensures NodePlaced(w, opts, out.nodes[root], root)
    {
      var s := out.nodes[..];
      assert LayerExists(w, opts, hero.position, InitialLayer(hero));
      assert s[root].base.layer != Wrong;
      assert Shaped(w, opts, s[root], root);
      PlacedAt(w, opts, s[root], hero.position, InitialLayer(hero));
    }

    /**
     * getInitialNodes, then the push: the start node gets turn 0 and the
     * hero's movement points, and is queued.
     */
    method PushInitialNode()
      requires Valid() && Initialised() && pq == []
      modifies this, out.nodes
      ensures Valid() && pq == [root]
      ensures out.nodes[root] == old(out.nodes[root]).(base := old(out.nodes[root]).base.(turns := 0, moveRemains := U32(hero.movement)))
      ensures forall j :: 0 <= j < out.nodes.Length && j != root ==> out.nodes[j] == old(out.nodes[j])
    {
      RootPlaced();
      var n := out.nodes[root];
      assert FreshPlaced(w, opts, n, root);
      var m := n.(base := n.base.(turns := 0, moveRemains := U32(hero.movement)));
      TableWrite(w, opts, hero.position, out.nodes[..], root, m);
      AcyclicWrite(out.nodes[..], out.rank, out.lockCount, root, m);
      out.nodes[root] := m;
      pq := [root];
    }

    /** The position of a best node of the queue: no queued node compares better. */
    method BestIndex() returns (k: nat)
      requires pq != [] && forall j :: 0 <= j < |pq| ==> pq[j] < out.nodes.Length
      ensures k < |pq|
      ensures forall j :: 0 <= j < |pq| ==> !Compare(out.nodes[pq[k]].base, out.nodes[pq[j]].base)
    {
      k := 0;
      var j := 1;
      while j < |pq|
        invariant 0 <= k < j <= |pq|
        invariant forall i :: 0 <= i < j ==> !Compare(out.nodes[pq[k]].base, out.nodes[pq[i]].base)
      {
        assert pq[j] in pq;
        if Compare(out.nodes[pq[k]].base, out.nodes[pq[j]].base) {
          forall i | 0 <= i < j
            ensures !Compare(out.nodes[pq[j]].base, out.nodes[pq[i]].base)
          {
            CompareStrictOrder(out.nodes[pq[k]].base, out.nodes[pq[j]].base, out.nodes[pq[i]].base);
          }
          k := j;
        }
        j := j + 1;
      }
    }

    /** cp->lock(): the first lock gives the node the next rank. */
    method Lock(cpi: nat)
      requires Valid() && QueueOk(cpi)
      modifies out, out.nodes
      ensures Valid() && QueueOk(cpi) && out.hero == old(out.hero)
      ensures out.nodes[..] == old(out.nodes[..])[cpi := old(out.nodes[cpi]).(locked := true)]
    {
      var n := out.nodes[cpi];
      if !n.locked {
        AcyclicLock(out.nodes[..], out.rank, out.lockCount, cpi);
        out.rank := out.rank[cpi := out.lockCount];
        out.lockCount := out.lockCount + 1;
      } else {
        assert out.nodes[..][cpi := n.(locked := true)] == out.nodes[..];
      }
      var m := n.(locked := true);
      LockWrite(w, opts, hero.position, out.nodes[..], cpi);
      LockKeepsRooted(out.nodes[..], root, cpi);
      out.nodes[cpi] := m;
    }

    /** pq.top(), pq.pop(), cp->lock(). */
    method PopBest() returns (cpi: nat)
      requires Valid() && pq != []
      modifies this, out, out.nodes
      ensures Valid() && QueueOk(cpi) && out.nodes[cpi].locked && out.hero == old(out.hero)
      ensures cpi in old(pq) && multiset(pq) == multiset(old(pq)) - multiset{cpi}
      ensures forall q :: q in old(pq) ==> !Compare(old(out.nodes[cpi]).base, old(out.nodes[q]).base)
      ensures out.nodes[..] == old(out.nodes[..])[cpi := old(out.nodes[cpi]).(locked := true)]
    {
      forall j | 0 <= j < |pq|
        ensures pq[j] < out.nodes.Length
      {
        assert pq[j] in pq;
      }
      var k := BestIndex();
      cpi := pq[k];
      assert cpi in pq;
      pq := RemoveAt(pq, k);
      Lock(cpi);
    }

    /** addNeighbours. */
    method AddNeighbours(cp: BaseNode, ctObj: Option<Obj>) returns (ns: seq<Coord>)
      ensures ns == SourceNeighbours(w, cp, ctObj)
    {
      var tiles := GetNeighbours(w, cp.coord, None, cp.layer == Sail);
      if IsVisitableObj(ctObj, cp.layer) {
        ns := [];
        var k := 0;
        while k < |tiles|
          invariant 0 <= k <= |tiles|
          invariant ns == MovableFrom(w, tiles[..k], ctObj.value.visitablePos)
        {
          assert tiles[..k + 1][..k] == tiles[..k];
          if w.canMoveBetween(tiles[k], ctObj.value.visitablePos) {
            ns := ns + [tiles[k]];
          }
          k := k + 1;
        }
        assert tiles[..|tiles|] == tiles;
      } else {
        ns := tiles;
      }
    }

    /**
     * One layer of one neighbour: the checks of the inner loop of
     * calculatePaths, the cost with its rollover, and the commit.
     */
    method RelaxLayer(cpi: nat, cp: PathNode, t: Coord, i: Layer, movement: int, turn: int)
      requires Valid() && cpi < out.nodes.Length && out.nodes[cpi] == cp && cp.locked && cp.base.layer != Wrong
      requires InMap(w, t) && Adjacent(t, cp.base.coord) && i != Wrong
      requires 0 <= turn < |hlp.turnsInfo|
      modifies this, out.nodes, hlp
      ensures Valid() && out.nodes[cpi] == cp && |hlp.turnsInfo| >= old(|hlp.turnsInfo|)
      ensures State() == LayerRelaxed(old(State()), cpi, cp.base, t, i, movement, turn)
    {
      NodeIndexBound(w, t, i);
      if !hlp.IsLayerAvailable(i) {
        return;
      }
      var sourceInitial := cp.base.coord == hero.position;
      if cp.base.layer != i && !LayerTransitionPossible(opts, cp.base, i, IsWater(w, t), sourceInitial) {
        return;
      }
      var d := out.NodeAt(t, i);
      var dp := out.nodes[d];
      if dp.locked || dp.base.accessible == NotSet {
        return;
      }
      assert Shaped(w, opts, out.nodes[..][d], d);
      PlacedAt(w, opts, dp, t, i);
      var m := MoveOf(w, hero.position, cp.base, dp.base);
      if cp.base.layer != i && !LayerTransitionAccessible(opts, m) {
        return;
      }
      if !MovementToDestPossible(opts, m) {
        return;
      }
      if cp.base.layer != i {
        LayerTransitionTable(opts, cp.base, i, IsWater(w, t), sourceInitial);
      }
      RelaxMove(cpi, cp, d, m, movement, turn);
    }

    /**
     * The second half of a relaxation, once dp is known to be enterable:
     * the destination action, the cost with its rollover, and the commit
     * when the new way is better and the one-turn limit allows it.
     */
    method RelaxMove(cpi: nat, cp: PathNode, d: nat, m: Move, movement: int, turn: int)
      requires Valid() && cpi < out.nodes.Length && out.nodes[cpi] == cp && cp.locked
      requires d < out.nodes.Length && !out.nodes[d].locked && out.nodes[d].base.layer != Wrong
      requires m == MoveOf(w, hero.position, cp.base, out.nodes[d].base)
      requires cp.base.layer != Wrong && LayerStep(cp.base.layer, out.nodes[d].base.layer)
      requires Adjacent(out.nodes[d].base.coord, cp.base.coord)
      requires 0 <= turn < |hlp.turnsInfo|
      modifies this, out.nodes, hlp
      ensures Valid() && out.nodes[cpi] == cp && |hlp.turnsInfo| >= old(|hlp.turnsInfo|)
      ensures State() == Relaxed(old(State()), cpi, cp.base, d, movement, turn)
    {
      var dp := out.nodes[d];
      var destAction := GetDestAction(opts, m);
      var remains, turnAtNextTile := ComputeRemains(cp.base, dp.base, destAction, movement, turn);
      assert Valid();
      CommitIfBetter(cpi, cp, d, m, destAction, remains, turnAtNextTile);
    }

    /** The commit condition of the relaxation, and the commit when it holds. */
    method CommitIfBetter(cpi: nat, cp: PathNode, d: nat, m: Move, destAction: NodeAction, remains: int, turnAtNextTile: int)
      requires Valid() && cpi < out.nodes.Length && out.nodes[cpi] == cp && cp.locked
      requires d < out.nodes.Length && !out.nodes[d].locked && out.nodes[d].base.layer != Wrong
      requires m == MoveOf(w, hero.position, cp.base, out.nodes[d].base) && destAction == GetDestAction(opts, m)
      requires cp.base.layer != Wrong && LayerStep(cp.base.layer, out.nodes[d].base.layer)
      requires Adjacent(out.nodes[d].base.coord, cp.base.coord)
      requires 0 <= turnAtNextTile < |hlp.turnsInfo|
      modifies this, out.nodes
      ensures Valid() && out.nodes[cpi] == cp
      ensures var dp := old(out.nodes[d]);
        if ShouldCommit(opts, cp.base, dp.base, remains, turnAtNextTile) then
          && out.nodes[..] == old(out.nodes[..])[d := dp.(base := dp.base.(moveRemains := U32(remains), turns := U8(turnAtNextTile), action := destAction), before := Some(cpi))]
          && pq == if MovementAfterDestPossible(opts, m, destAction, AllowedTeleportEntrance(opts, m.dtObj, hero.whirlpoolProtection(hlp.turn)))
                   then old(pq) + [d] else old(pq)
        else out.nodes[..] == old(out.nodes[..]) && pq == old(pq)
    {
      var dp := out.nodes[d];
      if IsBetterWay(dp.base, remains, turnAtNextTile)
        && ((cp.base.turns == turnAtNextTile && remains != 0) || PassOneTurnLimitCheck(opts, cp.base))
      {
        var n := dp.(base := dp.base.(moveRemains := U32(remains), turns := U8(turnAtNextTile), action := destAction), before := Some(cpi));
        DestActionShape(opts, m);
        var entrance := AllowedTeleportEntrance(opts, m.dtObj, hlp.WhirlpoolProtection());
        Commit(cpi, cp, d, n, MovementAfterDestPossible(opts, m, destAction, entrance));
      }
    }

    /**
     * The cost of the step and what is left after it: on the current turn
     * if the points suffice, otherwise on the next turn with a full day of
     * points for the destination layer; embarking and disembarking go
     * through movementPointsAfterEmbark.
     */
    method ComputeRemains(cp: BaseNode, dp: BaseNode, destAction: NodeAction, movement: int, turn: int)
      returns (remains: int, turnAtNextTile: int)
      requires hlp.Valid() && hlp.hero == hero && hlp.turn >= 0 && 0 <= turn < |hlp.turnsInfo| && dp.layer != Wrong
      modifies hlp
      ensures hlp.Valid() && hlp.turn >= 0 && |hlp.turnsInfo| >= old(|hlp.turnsInfo|)
      ensures 0 <= turnAtNextTile < |hlp.turnsInfo|
      ensures (remains, turnAtNextTile) == StepTarget(w, hero, cp, dp, destAction, movement, turn, old(hlp.turn))
      ensures hlp.turn == if turnAtNextTile == turn then old(hlp.turn) else turn + 1
    {
      turnAtNextTile := turn;
      var moveAtNextTile := movement;
      var cost := GetMovementCost(w, hero, cp.coord, dp.coord, moveAtNextTile, hlp.turn, true);
      remains := moveAtNextTile - cost;
      if remains < 0 {
        turnAtNextTile := turnAtNextTile + 1;
        hlp.UpdateTurnInfo(turnAtNextTile);
        moveAtNextTile := hlp.GetMaxMovePoints(dp.layer);
        cost := GetMovementCost(w, hero, cp.coord, dp.coord, moveAtNextTile, hlp.turn, true);
        remains := moveAtNextTile - cost;
      }
      if destAction == Embark || destAction == Disembark {
        remains := hero.afterEmbark(moveAtNextTile, cost, DisembarkFlag(destAction), hlp.turn);
        cost := moveAtNextTile - remains;
      }
    }

    /**
     * The commit of a relaxation: dp takes the new points, turn, action and
     * cp as predecessor, and is queued when `push` holds.
     */
    method Commit(cpi: nat, cp: PathNode, d: nat, n: PathNode, push: bool)
      requires Valid() && cpi < out.nodes.Length && out.nodes[cpi] == cp && cp.locked
      requires d < out.nodes.Length && !out.nodes[d].locked && out.nodes[d].base.layer != Wrong
      requires n.base.coord == out.nodes[d].base.coord && n.base.layer == out.nodes[d].base.layer
      requires n.base.accessible == out.nodes[d].base.accessible && !n.locked
      requires BaseValid(n.base) && n.base.turns < |hlp.turnsInfo| && n.before == Some(cpi)
      requires LegalStep(w, hero.position, cp.base, n.base)
      modifies this, out.nodes
      ensures Valid() && out.nodes[cpi] == cp
      ensures out.nodes[..] == old(out.nodes[..])[d := n]
      ensures pq == if push then old(pq) + [d] else old(pq)
    {
      TableWrite(w, opts, hero.position, out.nodes[..], d, n);
      AcyclicWrite(out.nodes[..], out.rank, out.lockCount, d, n);
      out.nodes[d] := n;
      if push {
        pq := pq + [d];
      }
    }

    /** The neighbours loop of calculatePaths. */
    method NeighbourPass(cpi: nat, cp: PathNode, ns: seq<Coord>, movement: int, turn: int)
      requires Valid() && cpi < out.nodes.Length && out.nodes[cpi] == cp && cp.locked && cp.base.layer != Wrong
      requires forall t :: t in ns ==> InMap(w, t) && Adjacent(t, cp.base.coord)
      requires 0 <= turn < |hlp.turnsInfo|
      modifies this, out.nodes, hlp
      ensures Valid() && out.nodes[cpi] == cp && |hlp.turnsInfo| >= old(|hlp.turnsInfo|)
      ensures (forall k :: 0 <= k < |ns| ==> InMap(w, ns[k])) && State() == NeighboursRelaxed(old(State()), cpi, cp.base, ns, 0, movement, turn)
    {
      ghost var st0 := State();
      var k := 0;
      while k < |ns|
        invariant 0 <= k <= |ns|
        invariant Valid() && out.nodes[cpi] == cp && 0 <= turn < |hlp.turnsInfo| && |hlp.turnsInfo| >= old(|hlp.turnsInfo|)
        invariant NeighboursRelaxed(State(), cpi, cp.base, ns, k, movement, turn) == NeighboursRelaxed(st0, cpi, cp.base, ns, 0, movement, turn)
      {
        var t := ns[k];
        assert t in ns;
        NeighbourStep(cpi, cp, t, movement, turn);
        k := k + 1;
      }
    }

    /** One neighbour t of the neighbours loop: skipped unless the patrol allows it. */
    method NeighbourStep(cpi: nat, cp: PathNode, t: Coord, movement: int, turn: int)
      requires Valid() && cpi < out.nodes.Length && out.nodes[cpi] == cp && cp.locked && cp.base.layer != Wrong
      requires InMap(w, t) && Adjacent(t, cp.base.coord)
      requires 0 <= turn < |hlp.turnsInfo|
      modifies this, out.nodes, hlp
      ensures Valid() && out.nodes[cpi] == cp && |hlp.turnsInfo| >= old(|hlp.turnsInfo|)
      ensures State() == if IsPatrolMovementAllowed(nodeHelper, t) then LayersRelaxed(old(State()), cpi, cp.base, t, 0, movement, turn) else old(State())
    {
      if IsPatrolMovementAllowed(nodeHelper, t) {
        RelaxLayers(cpi, cp, t, movement, turn);
      }
    }

    /** The layers loop of calculatePaths for one neighbour tile t. */
    method RelaxLayers(cpi: nat, cp: PathNode, t: Coord, movement: int, turn: int)
      requires Valid() && cpi < out.nodes.Length && out.nodes[cpi] == cp && cp.locked && cp.base.layer != Wrong
      requires InMap(w, t) && Adjacent(t, cp.base.coord)
      requires 0 <= turn < |hlp.turnsInfo|
      modifies this, out.nodes, hlp
      ensures Valid() && out.nodes[cpi] == cp && |hlp.turnsInfo| >= old(|hlp.turnsInfo|)
      ensures State() == LayersRelaxed(old(State()), cpi, cp.base, t, 0, movement, turn)
    {
      ghost var st0 := State();
      var li := 0;
      while li < |MovementLayers|
        invariant 0 <= li <= |MovementLayers|
        invariant Valid() && out.nodes[cpi] == cp && 0 <= turn < |hlp.turnsInfo| && |hlp.turnsInfo| >= old(|hlp.turnsInfo|)
        invariant LayersRelaxed(State(), cpi, cp.base, t, li, movement, turn) == LayersRelaxed(st0, cpi, cp.base, t, 0, movement, turn)
      {
        RelaxLayer(cpi, cp, t, MovementLayers[li], movement, turn);
        li := li + 1;
      }
    }

    /** One exit of the teleport pass. */
    method RelaxExit(cpi: nat, cp: PathNode, e: Coord, movement: int, turn: int)
      requires Valid() && cpi < out.nodes.Length && out.nodes[cpi] == cp && cp.locked
      requires cp.base.layer == Land || cp.base.layer == Sail
      requires e in TeleportTargets(w, hero.position, cp.base.coord)
      requires 0 <= turn < |hlp.turnsInfo|
      modifies this, out.nodes
      ensures Valid() && out.nodes[cpi] == cp
      ensures InMap(w, e) && State() == ExitRelaxed(old(State()), cpi, cp.base, e, movement, turn)
    {
      var s := out.nodes[..];
      assert Shaped(w, opts, s[cpi], cpi);
      var c := cp.base.coord;
      var o := w.topVisitable(c, c == hero.position).value;
      assert ExitsMatch(w, c, o);
      assert InMap(w, e) && LayerExists(w, opts, e, cp.base.layer);
      NodeIndexBound(w, e, cp.base.layer);
      var d := out.NodeAt(e, cp.base.layer);
      var dp := out.nodes[d];
      assert dp.base.layer != Wrong;
      assert Shaped(w, opts, s[d], d);
      PlacedAt(w, opts, dp, e, cp.base.layer);
      if dp.locked || dp.base.accessible == Blocked {
        return;
      }
      if IsBetterWay(dp.base, movement, turn) {
        var action := GetTeleportDestAction(w.topVisitable(e, false), dp.base.layer);
        var n := dp.(base := dp.base.(moveRemains := U32(movement), turns := U8(turn), action := action), before := Some(cpi));
        Commit(cpi, cp, d, n, action == TeleportNormal);
      }
    }

    /** addTeleportExits and the loop over the exits. */
    method TeleportPass(cpi: nat, cp: PathNode, movement: int, turn: int)
      requires Valid() && cpi < out.nodes.Length && out.nodes[cpi] == cp && cp.locked
      requires cp.base.layer != Wrong && InMap(w, cp.base.coord)
      requires 0 <= turn < |hlp.turnsInfo|
      modifies this, out.nodes
      ensures Valid() && out.nodes[cpi] == cp
      ensures State() == ExitsRelaxed(old(State()), cpi, cp.base, ExitsOf(cp.base, hero.whirlpoolProtection(hlp.turn)), 0, movement, turn)
    {
      var ctObj := w.topVisitable(cp.base.coord, cp.base.coord == hero.position);
      var exits := TeleportExits(opts, nodeHelper, w, cp.base, ctObj, hlp.WhirlpoolProtection());
      TeleportExitsProps(opts, nodeHelper, w, hero.position, cp.base, hlp.WhirlpoolProtection());
      ghost var es := ExitsOf(cp.base, hero.whirlpoolProtection(hlp.turn));
      assert exits == es;
      RelaxExits(cpi, cp, exits, movement, turn);
    }

    /** The teleport loop over the exits es of cp, in order. */
    method RelaxExits(cpi: nat, cp: PathNode, es: seq<Coord>, movement: int, turn: int)
      requires Valid() && cpi < out.nodes.Length && out.nodes[cpi] == cp && cp.locked
      requires es != [] ==> cp.base.layer == Land || cp.base.layer == Sail
      requires cp.base.layer != Wrong
      requires forall k :: 0 <= k < |es| ==> InMap(w, es[k]) && es[k] in TeleportTargets(w, hero.position, cp.base.coord)
      requires 0 <= turn < |hlp.turnsInfo|
      modifies this, out.nodes
      ensures Valid() && out.nodes[cpi] == cp
      ensures State() == ExitsRelaxed(old(State()), cpi, cp.base, es, 0, movement, turn)
    {
      ghost var st0 := State();
      var k := 0;
      while k < |es|
        invariant 0 <= k <= |es|
        invariant Valid() && out.nodes[cpi] == cp
        invariant ExitsRelaxed(State(), cpi, cp.base, es, k, movement, turn) == ExitsRelaxed(st0, cpi, cp.base, es, 0, movement, turn)
      {
        RelaxExit(cpi, cp, es[k], movement, turn);
        k := k + 1;
      }
    }

    /** The body of the queue loop for the popped node cpi. */
    method ProcessNode(cpi: nat)
      requires Valid() && QueueOk(cpi) && out.nodes[cpi].locked
      modifies this, out.nodes, hlp
      ensures Valid()
      ensures var cp := old(out.nodes[cpi]).base;
        && BaseValid(cp) && InMap(w, cp.coord)
        && State() == Processed(old(State()), cpi, cp)
    {
      ghost var st0 := State();
      var cp := out.nodes[cpi];
      var movement := I32(cp.base.moveRemains);
      var turn: int := cp.base.turns;
      assert BaseValid(out.nodes[..][cpi].base);
      assert Shaped(w, opts, out.nodes[..][cpi], cpi);
      ghost var mt := PopTarget(cp.base);
      hlp.UpdateTurnInfo(turn);
      if movement == 0 {
        turn := turn + 1;
        hlp.UpdateTurnInfo(turn);
        movement := hlp.GetMaxMovePoints(cp.base.layer);
        if !PassOneTurnLimitCheck(opts, cp.base) {
          assert State() == st0.(hturn := mt.1);
          return;
        }
      }
      assert movement == mt.0 && turn == mt.1;
      assert State() == st0.(hturn := mt.1);
      Expand(cpi, cp, movement, turn);
    }

    /** The two loops of the queue loop's body, with the points and turn cp is expanded with. */
    method Expand(cpi: nat, cp: PathNode, movement: int, turn: int)
      requires Valid() && cpi < out.nodes.Length && out.nodes[cpi] == cp && cp.locked
      requires cp.base.layer != Wrong && InMap(w, cp.base.coord)
      requires 0 <= turn < |hlp.turnsInfo|
      modifies this, out.nodes, hlp
      ensures Valid()
      ensures State() == Expanded(old(State()), cpi, cp.base, movement, turn)
    {
      var ctObj := w.topVisitable(cp.base.coord, cp.base.coord == hero.position);
      var ns := AddNeighbours(cp.base, ctObj);
      SourceNeighboursProps(w, cp.base, ctObj);
      NeighbourPass(cpi, cp, ns, movement, turn);
      TeleportPass(cpi, cp, movement, turn);
    }

    /**
     * TPathfinder::calculatePaths, for at most `fuel` pops: nothing when the
     * hero is patrol-locked, otherwise from the start node until the queue
     * is empty. `finished` tells whether the queue ran empty.
     */
    method CalculatePaths(fuel: nat) returns (finished: bool)
      requires Valid() && Initialised() && pq == []
      modifies this, out, out.nodes, hlp
      ensures Valid() && out.hero == old(out.hero)
      ensures finished <==> pq == []
      ensures IsHeroPatrolLocked(nodeHelper) ==> out.nodes[..] == old(out.nodes[..])
    {
      if IsHeroPatrolLocked(nodeHelper) {
        return true;
      }
      PushInitialNode();
      var steps := 0;
      while pq != [] && steps < fuel
        invariant Valid() && out.hero == old(out.hero)
        decreases fuel - steps
      {
        var cpi := PopBest();
        ProcessNode(cpi);
        steps := steps + 1;
      }
      finished := pq == [];
    }
  }

  /**
   * CPathfinder::calculatePaths(pathsInfo, gs, hero): record the hero and
   * its position; refuse a hero outside the map (the source throws); set
   * up the patrol limits; build the search and run it. `fuel` bounds the
   * number of queue pops.
   */
  method FindPaths(pathsInfo: PathsInfo, w: World, h: Hero, opts: PathfinderOptions,
                   patrolling: bool, ownerHuman: bool, patrolRadius: nat, tilesInRange: set<Coord>, fuel: nat)
    returns (ok: bool, finished: bool)
    requires SizesValid(pathsInfo.sizes) && pathsInfo.sizes == w.sizes
    requires pathsInfo.nodes.Length == NodeCount(w.sizes)
    requires forall j :: 0 <= j < pathsInfo.nodes.Length ==> Prepped(w, opts, pathsInfo.nodes[j], j)
    requires InMap(w, h.position) ==> HeroTileOk(w, h)
    requires ExitsValid(w)
    modifies pathsInfo, pathsInfo.nodes
    ensures pathsInfo.hero == Some(h.id) && pathsInfo.hpos == h.position
    ensures ok <==> InMap(w, h.position)
    ensures !ok ==> pathsInfo.nodes[..] == old(pathsInfo.nodes[..])
    ensures ok ==> pathsInfo.Valid() && TableOk(w, opts, h.position, pathsInfo.nodes[..])
                   && Rooted(pathsInfo.nodes[..], InitialIndex(w, h))
  {
    pathsInfo.hero := Some(h.id);
    pathsInfo.hpos := h.position;
    if !InMap(w, h.position) {
      return false, false;
    }
    var nodeHelper := InitializePatrol(patrolling, ownerHuman, patrolRadius, tilesInRange);
    var p := new Pathfinder(pathsInfo, w, h, opts, nodeHelper);
    finished := p.CalculatePaths(fuel);
    ok := true;
  }

  /**
   * After a search, every path read out of the table is a route of the
   * hero: it ends at the hero's start node, and each node was reached from
   * the next one by a legal step.
   */
  lemma PathsAreRoutes(w: World, opts: PathfinderOptions, h: Hero, s: seq<PathNode>, rank: seq<nat>, lockCount: nat, i: nat)
    requires TableOk(w, opts, h.position, s) && Acyclic(s, rank, lockCount) && Rooted(s, InitialIndex(w, h))
    requires InMap(w, h.position) && HeroTileOk(w, h)
    requires i < |s| && s[i].before.Some?
    ensures var c := Chain(s, rank, lockCount, i);
      && |c| >= 2
      && s[c[|c| - 1]].base.coord == h.position && s[c[|c| - 1]].base.layer == InitialLayer(h)
      && forall k :: 0 <= k < |c| - 1 ==> LegalStep(w, h.position, s[c[k + 1]].base, s[c[k]].base)
  {
    ChainProps(s, rank, lockCount, i);
    var c := Chain(s, rank, lockCount, i);
    assert c == [i] + Chain(s, rank, lockCount, s[i].before.value);
    var last := c[|c| - 1];
    assert last == InitialIndex(w, h);
    assert LayerExists(w, opts, h.position, InitialLayer(h));
    NodeIndexBound(w, h.position, InitialLayer(h));
    assert s[last].base.layer != Wrong;
    assert Shaped(w, opts, s[last], last);
    PlacedAt(w, opts, s[last], h.position, InitialLayer(h));
    forall k | 0 <= k < |c| - 1
      ensures LegalStep(w, h.position, s[c[k + 1]].base, s[c[k]].base)
    {
      assert PredOk(w, h.position, s, c[k]);
    }
  }
}
