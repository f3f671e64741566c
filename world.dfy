/**
 * The read-only game state the pathfinder consults: map size, terrain,
 * tile flags, objects, guards, the fog of war, and the hero that moves.
 * Game-state queries that the pathfinder calls but does not define
 * (guardingCreaturePosition, checkForVisitableDir, getTopObj,
 * getGuardingCreatures, teleport-channel lookups, evaluateLoss,
 * evaluateDanger) are function-valued fields taken as given.
 */
module GameWorld {
  import opened PathTypes

  /**
   * ETerrainType: the search distinguishes only ROCK and WATER (here Sea,
   * to keep it apart from the WATER layer); every other terrain is Ground.
   */
  datatype Terrain = Rock | Sea | Ground

  /** Obj::ID values the core tests for. */
  datatype ObjKind =
    | Boat | HeroObj | Town | Garrison | Garrison2 | BorderGate | Sanctuary | Event | Monster
    | Resource | Artifact | TreasureChest | SeaChest | Campfire | PandorasBox | OtherKind

  /** getPlayerRelations between an object's owner and the player the search runs for. */
  datatype Relation = Enemies | Allies | SamePlayer

  /** What the teleport-channel queries report about a teleporter object. */
  datatype Teleport = Teleport(
    entrancePassable: bool,   // isTeleportEntrancePassable
    whirlpool: bool,          // the object is a CGWhirlpool
    bidirectional: bool,      // isTeleportChannelBidirectional
    unidirectional: bool,     // isTeleportChannelUnidirectional
    passableExits: nat)       // size of CGTeleport::getPassableExits

  datatype Obj = Obj(
    id: nat,
    kind: ObjKind,
    relation: Relation,
    passable: bool,           // passableFor(player)
    blockVisit: bool,
    visitablePos: Coord,
    teleport: Option<Teleport>,
    infernoTown: bool)        // a town of the INFERNO faction

  datatype World = World(
    sizes: Coord,
    terrain: Coord -> Terrain,
    blocked: Coord -> bool,
    /** The objects standing on a tile; a tile is `visitable` when there is at least one. */
    visitableObjects: Coord -> seq<Obj>,
    /** TerrainTile::topVisitableObj(excludeTop). */
    topVisitable: (Coord, bool) -> Option<Obj>,
    /** guardingCreaturePosition: the position of the monster guarding a tile, if any. */
    guard: Coord -> Option<Coord>,
    /** The player's fog-of-war map: true where the tile has been revealed. */
    fow: Coord -> bool,
    /** checkForVisitableDir. */
    canMoveBetween: (Coord, Coord) -> bool,
    /** The exits a teleporter's channel offers, by object id. */
    channelExits: nat -> seq<Coord>,
    /** The visitable positions of the player's other unvisited towns with a castle gate, by town id. */
    castleGateExits: nat -> seq<Coord>,
    /** getTopObj. */
    topObj: Coord -> Option<Obj>,
    /** getGuardingCreatures: the monsters (by object) guarding a tile. */
    guardians: Coord -> seq<Obj>,
    /** evaluateLoss(hero, tile, army). */
    evaluateLoss: (nat, Coord, int) -> int,
    /** evaluateDanger(tile, hero). */
    evaluateDanger: (Coord, nat) -> nat)

  /** The hero a search runs for, with the bonus-system queries it needs, by turn. */
  datatype Hero = Hero(
    id: nat,
    position: Coord,          // getPosition(false)
    boat: bool,
    movement: nat,            // ui32 movement points left today
    /** maxMovePoints(onLand, turn info of the given turn). */
    maxMovePoints: (bool, nat) -> nat,
    flying: nat -> bool,             // FLYING_MOVEMENT on that turn
    waterWalking: nat -> bool,       // WATER_WALKING on that turn
    whirlpoolProtection: nat -> bool,
    /** getTileCost(dst, src, turn info), already scaled by the flying, water-walking and wind multipliers. */
    tileCost: (Coord, Coord, nat) -> nat,
    /** movementPointsAfterEmbark(movement, cost, disembark flag, turn info). */
    afterEmbark: (int, int, int, nat) -> int,
    armyStrength: int)

  /** The layer a search starts on: SAIL for a hero in a boat, LAND otherwise. */
  function InitialLayer(h: Hero): (l: Layer)
    ensures l != Wrong
  {
    if h.boat then Sail else Land
  }

  predicate SizesValid(s: Coord) { s.x > 0 && s.y > 0 && s.z > 0 }

  /** CGameState::isInTheMap. */
  predicate InMap(w: World, c: Coord)
  {
    0 <= c.x < w.sizes.x && 0 <= c.y < w.sizes.y && 0 <= c.z < w.sizes.z
  }

  predicate IsWater(w: World, c: Coord) { w.terrain(c) == Sea }

  predicate TileVisitable(w: World, c: Coord) { |w.visitableObjects(c)| > 0 }

  /** Two different tiles on the same level at king-move distance. */
  predicate Adjacent(a: Coord, b: Coord)
  {
    a != b && a.z == b.z && -1 <= a.x - b.x <= 1 && -1 <= a.y - b.y <= 1
  }

  // ---------------------------------------------------------------------
  // Flattening of the multi_array node tables

  /** Position of a tile in a [w][h][level] array, row-major. */
  function TileIndex(sizes: Coord, c: Coord): int
  {
    (c.x * sizes.y + c.y) * sizes.z + c.z
  }

  function TileCount(sizes: Coord): nat
    requires SizesValid(sizes)
  {
    MulPos(sizes.x, sizes.y);
    MulPos(sizes.x * sizes.y, sizes.z);
    sizes.x * sizes.y * sizes.z
  }

  /** Position of node (c, l) in the flattened [w][h][level][layer] table. */
  function NodeIndex(sizes: Coord, c: Coord, l: Layer): int
    requires l != Wrong
  {
    TileIndex(sizes, c) * NumLayers + LayerIndex(l)
  }

  function NodeCount(sizes: Coord): nat
    requires SizesValid(sizes)
  {
    TileCount(sizes) * NumLayers
  }

  lemma MulPos(a: int, b: int)
    requires a > 0 && b > 0
    ensures a * b > 0
  {
  }

  /** a * m + b with 0 <= b < m lies in [0, n * m) when 0 <= a < n. */
  lemma {:induction false} MixedRadixBound(a: int, b: int, m: int, n: int)
    requires 0 <= a < n && 0 <= b < m
    ensures 0 <= a * m + b < n * m
  {
    assert a * m <= (n - 1) * m by {
      MulMono(a, n - 1, m);
    }
    assert (n - 1) * m + m == n * m;
  }

  lemma {:induction false} MulMono(a: int, b: int, m: int)
    requires 0 <= a <= b && m >= 0
    ensures 0 <= a * m <= b * m
  {
    assert b * m - a * m == (b - a) * m;
  }

  /** Mixed-radix digits are unique. */
  lemma {:induction false} MixedRadixUnique(a1: int, b1: int, a2: int, b2: int, m: int)
    requires 0 <= b1 < m && 0 <= b2 < m
    requires a1 * m + b1 == a2 * m + b2
    ensures a1 == a2 && b1 == b2
  {
    assert (a1 - a2) * m == b2 - b1;
    if a1 > a2 {
      MulMono(1, a1 - a2, m);
      assert false;
    } else if a1 < a2 {
      MulMono(1, a2 - a1, m);
      assert false;
    }
  }

  lemma TileIndexBound(sizes: Coord, c: Coord)
    requires SizesValid(sizes)
    requires 0 <= c.x < sizes.x && 0 <= c.y < sizes.y && 0 <= c.z < sizes.z
    ensures 0 <= TileIndex(sizes, c) < TileCount(sizes)
  {
    MixedRadixBound(c.x, c.y, sizes.y, sizes.x);
    MixedRadixBound(c.x * sizes.y + c.y, c.z, sizes.z, sizes.x * sizes.y);
  }

  /** Every in-map node has an index inside the table. */
  lemma NodeIndexBound(w: World, c: Coord, l: Layer)
    requires SizesValid(w.sizes) && InMap(w, c) && l != Wrong
    ensures 0 <= NodeIndex(w.sizes, c, l) < NodeCount(w.sizes)
  {
    TileIndexBound(w.sizes, c);
    MixedRadixBound(TileIndex(w.sizes, c), LayerIndex(l), NumLayers, TileCount(w.sizes));
  }

  /** A coordinate inside a table of the given sizes. */
  predicate InBounds(s: Coord, c: Coord)
  {
    0 <= c.x < s.x && 0 <= c.y < s.y && 0 <= c.z < s.z
  }

  /** Distinct in-bounds nodes occupy distinct cells of a table. */
  lemma NodeIndexUnique(s: Coord, c1: Coord, l1: Layer, c2: Coord, l2: Layer)
    requires SizesValid(s) && InBounds(s, c1) && InBounds(s, c2) && l1 != Wrong && l2 != Wrong
    requires NodeIndex(s, c1, l1) == NodeIndex(s, c2, l2)
    ensures c1 == c2 && l1 == l2
  {
    MixedRadixUnique(TileIndex(s, c1), LayerIndex(l1), TileIndex(s, c2), LayerIndex(l2), NumLayers);
    MixedRadixUnique(c1.x * s.y + c1.y, c1.z, c2.x * s.y + c2.y, c2.z, s.z);
    MixedRadixUnique(c1.x, c1.y, c2.x, c2.y, s.y);
  }

  /** Distinct in-map nodes occupy distinct cells of the table. */
  lemma NodeIndexInjective(w: World, c1: Coord, l1: Layer, c2: Coord, l2: Layer)
    requires SizesValid(w.sizes) && InMap(w, c1) && InMap(w, c2) && l1 != Wrong && l2 != Wrong
    requires NodeIndex(w.sizes, c1, l1) == NodeIndex(w.sizes, c2, l2)
    ensures c1 == c2 && l1 == l2
  {
    NodeIndexUnique(w.sizes, c1, l1, c2, l2);
  }

  /**
   * The position of the k-th of `perNode` slots of node (c, l) in a table
   * with `perNode` slots per node (the chain tables).
   */
  function SlotIndex(s: Coord, c: Coord, l: Layer, perNode: nat, k: nat): int
    requires l != Wrong
  {
    NodeIndex(s, c, l) * perNode + k
  }

  lemma SlotIndexBound(s: Coord, c: Coord, l: Layer, perNode: nat, k: nat)
    requires SizesValid(s) && InBounds(s, c) && l != Wrong && k < perNode
    ensures 0 <= SlotIndex(s, c, l, perNode, k) < NodeCount(s) * perNode
  {
    TileIndexBound(s, c);
    MixedRadixBound(TileIndex(s, c), LayerIndex(l), NumLayers, TileCount(s));
    MixedRadixBound(NodeIndex(s, c, l), k, perNode, NodeCount(s));
  }

  /** A slot index determines its node and its slot number. */
  lemma SlotIndexUnique(s: Coord, c1: Coord, l1: Layer, k1: nat, c2: Coord, l2: Layer, k2: nat, perNode: nat)
    requires SizesValid(s) && InBounds(s, c1) && InBounds(s, c2) && l1 != Wrong && l2 != Wrong
    requires k1 < perNode && k2 < perNode
    requires SlotIndex(s, c1, l1, perNode, k1) == SlotIndex(s, c2, l2, perNode, k2)
    ensures c1 == c2 && l1 == l2 && k1 == k2
  {
    MixedRadixUnique(NodeIndex(s, c1, l1), k1, NodeIndex(s, c2, l2), k2, perNode);
    NodeIndexUnique(s, c1, l1, c2, l2);
  }
}
