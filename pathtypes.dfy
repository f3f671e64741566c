/**
 * Node records, enumerations and fixed-width integer conversions of the
 * adventure-map pathfinder (the declarations of lib/CPathfinder.h and the
 * node members defined in lib/CPathfinder.cpp).
 */
module PathTypes {

  datatype Option<T> = None | Some(value: T)

  /** A map position (x, y, depth level); (-1, -1, -1) is the invalid position. */
  datatype Coord = Coord(x: int, y: int, z: int)

  const InvalidCoord: Coord := Coord(-1, -1, -1)

  /** EPathfindingLayer; Wrong is the layer of a node that was never initialised. */
  datatype Layer = Land | Sail | Water | Air | Wrong

  /** The four movement layers, in the order the search enumerates them (LAND..AIR). */
  const MovementLayers: seq<Layer> := [Land, Sail, Water, Air]

  const NumLayers: nat := 4

  /** Position of a movement layer inside a node table cell. */
  function LayerIndex(l: Layer): (r: nat)
    requires l != Wrong
    ensures r < NumLayers && MovementLayers[r] == l
  {
    match l
    case Land => 0
    case Sail => 1
    case Water => 2
    case Air => 3
  }

  /** CGBaseNode::ENodeAction, numbered as in the source. */
  datatype NodeAction =
    | Unknown | Embark | Disembark | Normal | Battle | Visit | BlockingVisit
    | TeleportNormal | TeleportBlockingVisit | TeleportBattle

  function ActionNumber(a: NodeAction): (r: nat)
    ensures r < 10
    ensures r == 0 <==> a == Unknown
  {
    match a
    case Unknown => 0
    case Embark => 1
    case Disembark => 2
    case Normal => 3
    case Battle => 4
    case Visit => 5
    case BlockingVisit => 6
    case TeleportNormal => 7
    case TeleportBlockingVisit => 8
    case TeleportBattle => 9
  }

  /**
   * The flag `destAction - 1` handed to the embark rule: 0 when embarking,
   * 1 when disembarking.
   */
  function DisembarkFlag(a: NodeAction): (r: int)
    requires a == Embark || a == Disembark
    ensures 0 <= r <= 1
    ensures r == 1 <==> a == Disembark
  {
    ActionNumber(a) - 1
  }

  /** CGBaseNode::EAccessibility. */
  datatype Accessibility = NotSet | Accessible | Visitable | BlockVis | Flyable | Blocked

  /** Whether a tile of this class may be entered at all, and whether a path may go on through it. */
  predicate MayEnter(a: Accessibility) { a == Accessible || a == Visitable || a == BlockVis || a == Flyable }

  /** ENodeBlocker: why a chain relaxation was stopped. */
  datatype NodeBlocker = NoBlocker | SourceGuarded | DestinationGuarded | DestinationBlockvis | DestinationVisit

  // ---------------------------------------------------------------------
  // Fixed-width integers

  const TwoTo8: nat := 0x100
  const TwoTo32: nat := 0x1_0000_0000
  const TwoTo31: int := 0x8000_0000

  /** Storing an int into a ui8 field keeps the low eight bits. */
  function U8(x: int): (r: nat)
    ensures r < TwoTo8
    ensures 0 <= x < TwoTo8 ==> r == x
  {
    x % TwoTo8
  }

  /** Storing an int into a ui32 field keeps the low 32 bits. */
  function U32(x: int): (r: nat)
    ensures r < TwoTo32
    ensures 0 <= x < TwoTo32 ==> r == x
  {
    x % TwoTo32
  }

  /** Reading a ui32 into an int reinterprets the upper half as negative. */
  function I32(u: nat): (r: int)
    requires u < TwoTo32
    ensures -TwoTo31 <= r < TwoTo31
    ensures u < TwoTo31 ==> r == u
  {
    if u < TwoTo31 then u else u - TwoTo32
  }

  lemma U32RoundTrip(x: int)
    requires -TwoTo31 <= x < TwoTo31
    ensures I32(U32(x)) == x
  {
  }

  /** `turns` is a ui8 in which 255 marks a node that was never reached. */
  const Unreached: nat := 255

  /** Slots per (x, y, level, layer) cell of the chain table. */
  const ChainLimit: nat := 10

  // ---------------------------------------------------------------------
  // CGBaseNode

  datatype BaseNode = BaseNode(
    coord: Coord,
    layer: Layer,
    accessible: Accessibility,
    action: NodeAction,
    moveRemains: nat,   // ui32
    turns: nat)         // ui8

  predicate BaseValid(b: BaseNode) { b.moveRemains < TwoTo32 && b.turns < TwoTo8 }

  /** CGBaseNode::reachable: the turn counter is below the sentinel. */
  predicate Reachable(b: BaseNode) { b.turns < 255 }

  /**
   * CGBaseNode::compare(a, other): the heap's "less than". It holds when
   * `other` is the better node, so the heap top is the best node.
   */
  function Compare(a: BaseNode, other: BaseNode): (r: bool)
  {
    if other.turns > a.turns then false
    else if other.turns == a.turns && other.moveRemains <= a.moveRemains then false
    else true
  }

  /** `other` arrives in fewer turns, or in as many turns with more points left. */
  predicate Better(other: BaseNode, a: BaseNode)
  {
    other.turns < a.turns || (other.turns == a.turns && other.moveRemains > a.moveRemains)
  }

  lemma CompareMeansBetter(a: BaseNode, other: BaseNode)
    ensures Compare(a, other) <==> Better(other, a)
  {
  }

  /** Compare is a strict order: irreflexive and transitive, as a heap comparator must be. */
  lemma CompareStrictOrder(a: BaseNode, b: BaseNode, c: BaseNode)
    ensures !Compare(a, a)
    ensures Compare(a, b) && Compare(b, c) ==> Compare(a, c)
    ensures Compare(a, b) ==> !Compare(b, a)
  {
  }

  /** Nodes the comparator cannot order have the same key. */
  lemma CompareIncomparableSameKey(a: BaseNode, b: BaseNode)
    requires !Compare(a, b) && !Compare(b, a)
    ensures a.turns == b.turns && a.moveRemains == b.moveRemains
  {
  }

  // ---------------------------------------------------------------------
  // CGPathNode: a node of the single-actor table

  datatype PathNode = PathNode(base: BaseNode, locked: bool, before: Option<nat>)

  /** CGPathNode(): invalid position, layer WRONG, then reset(). */
  const DefaultPathNode: PathNode :=
    PathNode(BaseNode(InvalidCoord, Wrong, NotSet, Unknown, 0, 255), false, None)

  /** CGPathNode::reset: unlock, forget accessibility, points, turns, predecessor and action. */
  function ResetPathNode(n: PathNode): (r: PathNode)
    ensures r.base.coord == n.base.coord && r.base.layer == n.base.layer
    ensures !r.locked && r.before == None && r.base.action == Unknown
    ensures r.base.accessible == NotSet && r.base.moveRemains == 0
    ensures !Reachable(r.base)
  {
    PathNode(n.base.(accessible := NotSet, moveRemains := 0, turns := 255, action := Unknown), false, None)
  }

  /**
   * CGPathNode::update: a node that has no layer yet takes the position and
   * layer; one that has is reset instead (its position and layer kept). In
   * both cases the accessibility is installed.
   */
  function UpdatePathNode(n: PathNode, c: Coord, l: Layer, acc: Accessibility): (r: PathNode)
    ensures r.base.accessible == acc
    ensures n.base.layer == Wrong ==>
      r.base.coord == c && r.base.layer == l && r.locked == n.locked && r.before == n.before
      && r.base.turns == n.base.turns && r.base.moveRemains == n.base.moveRemains
      && r.base.action == n.base.action
    ensures n.base.layer != Wrong ==> r == ResetPathNode(n).(base := ResetPathNode(n).base.(accessible := acc))
  {
    if n.base.layer == Wrong then n.(base := n.base.(coord := c, layer := l, accessible := acc))
    else var m := ResetPathNode(n); m.(base := m.base.(accessible := acc))
  }

  /** A freshly constructed node, once updated, is unreached and has no predecessor. */
  lemma FreshUpdateUnreached(c: Coord, l: Layer, acc: Accessibility)
    ensures var r := UpdatePathNode(DefaultPathNode, c, l, acc);
      r.base.coord == c && r.base.layer == l && r.before == None && !Reachable(r.base)
      && !r.locked && r.base.action == Unknown
  {
  }

  // ---------------------------------------------------------------------
  // CHeroNode: a slot of the chain table

  /** The 32 bits of a chain mask, read as an unsigned number. */
  type Mask = m: nat | m < 0x1_0000_0000

  datatype HeroNode = HeroNode(
    base: BaseNode,
    before: Option<nat>,
    mask: Mask,
    actorNumber: int,
    armyValue: int,
    armyLoss: int,
    previousActor: Option<nat>)

  /**
   * A slot as the chain table's resize leaves it: value-initialised, so every
   * field is zero (NOT_SET, UNKNOWN, turn 0) except the coordinate and layer
   * that the CGBaseNode constructor sets.
   */
  const DefaultHeroNode: HeroNode :=
    HeroNode(BaseNode(InvalidCoord, Wrong, NotSet, Unknown, 0, 0), None, 0, 0, 0, 0, None)

  /** CHeroNode::isInUse: the slot carries a chain mask. */
  predicate IsInUse(n: HeroNode) { n.mask != 0 }

  /** CHeroNode::isLocked: chain nodes are never locked. */
  function HeroNodeIsLocked(n: HeroNode): (r: bool)
    ensures !r
  {
    false
  }

  /** CHeroNode::lock is a no-op. */
  function HeroNodeLock(n: HeroNode): (r: HeroNode)
    ensures r == n && !HeroNodeIsLocked(r)
  {
    n
  }

  /**
   * CHeroNode::reset clears accessibility, points, turns, action, mask, actor
   * number and predecessor; army value, army loss and previous actor stay.
   */
  function ResetHeroNode(n: HeroNode): (r: HeroNode)
    ensures !IsInUse(r) && r.actorNumber == 0 && r.before == None
    ensures r.base.accessible == NotSet && r.base.action == Unknown && !Reachable(r.base)
    ensures r.base.coord == n.base.coord && r.base.layer == n.base.layer
    ensures r.armyValue == n.armyValue && r.armyLoss == n.armyLoss && r.previousActor == n.previousActor
  {
    n.(base := n.base.(accessible := NotSet, moveRemains := 0, turns := 255, action := Unknown),
       mask := 0, actorNumber := 0, before := None)
  }

  /** CHeroNode::update, the same rule as CGPathNode::update. */
  function UpdateHeroNode(n: HeroNode, c: Coord, l: Layer, acc: Accessibility): (r: HeroNode)
    ensures r.base.accessible == acc
    ensures n.base.layer == Wrong ==> r == n.(base := n.base.(coord := c, layer := l, accessible := acc))
    ensures n.base.layer != Wrong ==> r == ResetHeroNode(n).(base := ResetHeroNode(n).base.(accessible := acc))
  {
    if n.base.layer == Wrong then n.(base := n.base.(coord := c, layer := l, accessible := acc))
    else var m := ResetHeroNode(n); m.(base := m.base.(accessible := acc))
  }

  // ---------------------------------------------------------------------
  // PathfinderOptions (read from the settings file in the source)

  datatype PathfinderOptions = PathfinderOptions(
    useFlying: bool,
    useWaterWalking: bool,
    useEmbarkAndDisembark: bool,
    useTeleportTwoWay: bool,
    useTeleportOneWay: bool,
    useTeleportOneWayRandom: bool,
    useTeleportWhirlpool: bool,
    useCastleGate: bool,
    lightweightFlyingMode: bool,
    oneTurnSpecialLayersLimit: bool,
    originalMovementRules: bool)

  // ---------------------------------------------------------------------
  // CHeroChainConfig patrol hooks: the chain search never patrols

  function ChainIsHeroPatrolLocked(): (r: bool)
    ensures !r
  {
    false
  }

  function ChainIsPatrolMovementAllowed(dst: Coord): (r: bool)
    ensures r
  {
    true
  }

  function ChainIsPatrolEnabled(): (r: bool)
    ensures !r
  {
    false
  }
}
