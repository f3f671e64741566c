/**
 * The pure decision rules of the search (lib/CPathfinder.cpp): whether a
 * layer change is possible, whether the hero may step onto a destination
 * node, what happens when it lands there, whether the search goes on from
 * it, whether a new route is better, and the static accessibility of a node.
 *
 * The rules read the source node (cp), the destination node (dp) and a few
 * facts about the destination tile; `Move` carries exactly those facts.
 */
module Rules {
  import opened PathTypes
  import opened GameWorld

  /** What the rules know about one candidate step cp -> dp. */
  datatype Move = Move(
    cp: BaseNode,
    dp: BaseNode,
    dtBlocked: bool,          // dt->blocked
    dtVisitable: bool,        // dt->visitable
    dtWater: bool,            // dt->isWater()
    dtObj: Option<Obj>,       // dt->topVisitableObj()
    srcGuard: Option<Coord>,  // guardingCreaturePosition(cp->coord)
    dstGuard: Option<Coord>,  // guardingCreaturePosition(dp->coord)
    canMove: bool,            // canMoveBetween(cp->coord, dp->coord)
    sourceInitial: bool)      // cp is on the hero's own tile

  /** The facts of a step, read off the world. */
  function MoveOf(w: World, heroPos: Coord, cp: BaseNode, dp: BaseNode): (m: Move)
    ensures m.cp == cp && m.dp == dp
    ensures m.sourceInitial <==> cp.coord == heroPos
  {
    Move(cp, dp, w.blocked(dp.coord), TileVisitable(w, dp.coord), IsWater(w, dp.coord),
         w.topVisitable(dp.coord, false), w.guard(cp.coord), w.guard(dp.coord),
         w.canMoveBetween(cp.coord, dp.coord), cp.coord == heroPos)
  }

  // ---------------------------------------------------------------------
  // Object and guard queries

  /** canSeeObj: there is an object and it is not a placed event. */
  predicate CanSeeObj(o: Option<Obj>) { o.Some? && o.value.kind != Event }

  /** isVisitableObj: objects are visited only from the land and sail layers. */
  predicate IsVisitableObj(o: Option<Obj>, l: Layer)
  {
    CanSeeObj(o) && (l == Land || l == Sail)
  }

  predicate DestVisitableObj(m: Move) { IsVisitableObj(m.dtObj, m.dp.layer) }

  /** isSourceGuarded: a guard watches cp, unless the hero started there. */
  predicate SourceGuarded(m: Move) { m.srcGuard.Some? && !m.sourceInitial }

  /** isDestinationGuarded(ignoreAccessibility). */
  predicate DestinationGuarded(m: Move, ignoreAccessibility: bool)
  {
    m.dstGuard.Some? && (ignoreAccessibility || m.dp.accessible == BlockVis)
  }

  /** isDestinationGuardian: dp is the tile of the monster guarding cp. */
  predicate DestinationGuardian(m: Move) { m.srcGuard == Some(m.dp.coord) }

  // ---------------------------------------------------------------------
  // Turn limit and strict improvement

  /**
   * passOneTurnLimitCheck: with the one-turn limit on, a node on the water
   * layer, or in the air over a tile that is not ACCESSIBLE (always, unless
   * originalMovementRules), cannot wait for the next turn.
   */
  function PassOneTurnLimitCheck(opts: PathfinderOptions, cp: BaseNode): (r: bool)
    ensures !opts.oneTurnSpecialLayersLimit ==> r
    ensures opts.oneTurnSpecialLayersLimit ==>
      (r <==> (cp.layer != Water && cp.layer != Air)
              || (cp.layer == Air && opts.originalMovementRules && cp.accessible == Accessible))
  {
    if !opts.oneTurnSpecialLayersLimit then true
    else if cp.layer == Water then false
    else if cp.layer == Air then opts.originalMovementRules && cp.accessible == Accessible
    else true
  }

  /**
   * The isBetterWay lambda of TPathfinder::calculatePaths. `dp->moveRemains
   * < remains` compares a ui32 with an int, so `remains` is converted to
   * ui32 first.
   */
  function IsBetterWay(dp: BaseNode, remains: int, turn: int): bool
  {
    if dp.turns == 0xff then true
    else if dp.turns > turn then true
    else if dp.turns >= turn && dp.moveRemains < U32(remains) then true
    else false
  }

  /** The candidate node a relaxation would write. */
  function Candidate(dp: BaseNode, remains: nat, turn: nat): BaseNode
  {
    dp.(moveRemains := remains, turns := turn)
  }

  /**
   * For a remainder that fits a ui32, the relaxation test is exactly: dp was
   * never reached, or the queue order ranks the candidate above dp.
   */
  lemma IsBetterWayMatchesCompare(dp: BaseNode, remains: nat, turn: nat)
    requires remains < TwoTo32
    ensures IsBetterWay(dp, remains, turn) <==>
      (dp.turns == Unreached || Compare(dp, Candidate(dp, remains, turn)))
  {
  }

  /** A route is never better than itself. */
  lemma IsBetterWayStrict(dp: BaseNode)
    requires BaseValid(dp) && Reachable(dp)
    ensures !IsBetterWay(dp, dp.moveRemains, dp.turns)
  {
  }

  // ---------------------------------------------------------------------
  // Layer transitions

  /**
   * isLayerTransitionPossible(destLayer, hero): the check made before the
   * destination node is looked at. Only meaningful when the layers differ.
   */
  function LayerTransitionPossible(opts: PathfinderOptions, cp: BaseNode, destLayer: Layer, dtWater: bool, sourceInitial: bool): bool
  {
    if cp.action == Battle then false
    else match cp.layer
      case Land =>
        if destLayer == Air then !opts.lightweightFlyingMode || sourceInitial
        else if destLayer == Sail then dtWater
        else true
      case Sail => destLayer == Land && !dtWater
      case Air => destLayer == Land
      case Water => destLayer == Land
      case Wrong => false
  }

  /** The transitions a step may make: stay on the layer, or leave or reach the land layer. */
  predicate LayerStep(from: Layer, to: Layer)
  {
    from == to || from == Land || to == Land
  }

  /** The layer-change table of the first transition check. */
  lemma LayerTransitionTable(opts: PathfinderOptions, cp: BaseNode, d: Layer, dtWater: bool, initial: bool)
    requires cp.layer != d && cp.layer != Wrong && d != Wrong
    ensures var r := LayerTransitionPossible(opts, cp, d, dtWater, initial);
      && (cp.action == Battle ==> !r)
      && (cp.action != Battle ==>
          && (cp.layer == Land && d == Air ==> (r <==> !opts.lightweightFlyingMode || initial))
          && (cp.layer == Land && d == Sail ==> (r <==> dtWater))
          && (cp.layer == Land && d == Water ==> r)
          && (cp.layer == Sail && d == Land ==> (r <==> !dtWater))
          && (cp.layer == Air && d == Land ==> r)
          && (cp.layer == Water && d == Land ==> r))
      && (r ==> LayerStep(cp.layer, d))
  {
  }

  /**
   * isLayerTransitionPossible(): the second check, made with the
   * destination node's accessibility.
   */
  function LayerTransitionAccessible(opts: PathfinderOptions, m: Move): bool
  {
    match m.cp.layer
      case Land => !(m.dp.layer == Sail && m.dp.accessible == Accessible)
      case Sail =>
        !((m.dp.accessible != Accessible && (m.dp.accessible != BlockVis || m.dtBlocked)) || m.dtVisitable)
      case Air =>
        if opts.originalMovementRules then
          !((m.cp.accessible != Accessible && m.cp.accessible != Visitable)
            && (m.dp.accessible != Visitable && m.dp.accessible != Accessible))
        else !(m.cp.accessible != Accessible && m.dp.accessible != Accessible)
      case Water => m.dp.accessible == Accessible || m.dp.accessible == Visitable
      case Wrong => true
  }

  /** What the second check demands, layer by layer. */
  lemma LayerTransitionAccessibleMeaning(opts: PathfinderOptions, m: Move)
    ensures var r := LayerTransitionAccessible(opts, m);
      && (m.cp.layer == Land ==> (r <==> m.dp.layer != Sail || m.dp.accessible != Accessible))
      && (m.cp.layer == Sail ==>
          (r <==> !m.dtVisitable && (m.dp.accessible == Accessible || (m.dp.accessible == BlockVis && !m.dtBlocked))))
      && (m.cp.layer == Air && !opts.originalMovementRules ==>
          (r <==> m.cp.accessible == Accessible || m.dp.accessible == Accessible))
      && (m.cp.layer == Air && opts.originalMovementRules ==>
          (r <==> m.cp.accessible in {Accessible, Visitable} || m.dp.accessible in {Accessible, Visitable}))
      && (m.cp.layer == Water ==> (r <==> m.dp.accessible in {Accessible, Visitable}))
  {
  }

  // ---------------------------------------------------------------------
  // Entering the destination

  /** isMovementToDestPossible. */
  function MovementToDestPossible(opts: PathfinderOptions, m: Move): bool
  {
    if m.dp.accessible == Blocked then false
    else match m.dp.layer
      case Land =>
        if !m.canMove then false
        else if SourceGuarded(m) && !(opts.originalMovementRules && m.cp.layer == Air) && !DestinationGuardian(m) then false
        else true
      case Sail =>
        if !m.canMove then false
        else if SourceGuarded(m) && m.cp.action != Embark && !DestinationGuardian(m) then false
        else if m.cp.layer == Land then
          DestVisitableObj(m) && (m.dtObj.value.kind == Boat || m.dtObj.value.kind == HeroObj)
        else !(DestVisitableObj(m) && m.dtObj.value.kind == Boat)
      case Water =>
        m.canMove && m.dp.accessible == Accessible && !DestinationGuarded(m, true)
      case Air => true
      case Wrong => true
  }

  /** The guard and occupancy rules a step onto dp obeys. */
  lemma MovementToDestRules(opts: PathfinderOptions, m: Move)
    requires MovementToDestPossible(opts, m)
    ensures m.dp.accessible != Blocked
    ensures m.dp.layer in {Land, Sail, Water} ==> m.canMove
    ensures m.dp.layer == Land && SourceGuarded(m) ==>
      DestinationGuardian(m) || (opts.originalMovementRules && m.cp.layer == Air)
    ensures m.dp.layer == Sail && SourceGuarded(m) ==> DestinationGuardian(m) || m.cp.action == Embark
    ensures m.dp.layer == Sail && m.cp.layer == Land ==>
      m.dtObj.Some? && m.dtObj.value.kind in {Boat, HeroObj}
    ensures m.dp.layer == Sail && m.cp.layer != Land && DestVisitableObj(m) ==> m.dtObj.value.kind != Boat
    ensures m.dp.layer == Water ==> m.dp.accessible == Accessible && m.dstGuard.None?
  {
  }

  /** getDestAction for a visitable destination object, before the NORMAL fallback. */
  function ObjectAction(opts: PathfinderOptions, m: Move, o: Obj): NodeAction
  {
    match o.kind
      case Boat => Embark
      case HeroObj => if o.relation == Enemies then Battle else BlockingVisit
      case Town =>
        if o.passable then Visit
        else if o.relation == Enemies then Battle
        else Normal
      case Garrison => GarrisonAction(m, o)
      case Garrison2 => GarrisonAction(m, o)
      case BorderGate =>
        if o.passable then (if DestinationGuarded(m, true) then Battle else Normal)
        else BlockingVisit
      case _ =>
        if DestinationGuardian(m) then Battle
        else if o.blockVisit && !(opts.useCastleGate && o.kind == Town) then BlockingVisit
        else Normal
  }

  function GarrisonAction(m: Move, o: Obj): NodeAction
  {
    if o.passable then (if DestinationGuarded(m, true) then Battle else Normal)
    else if o.relation == Enemies then Battle
    else Normal
  }

  /** getDestAction: what the hero does on arriving at dp. */
  function GetDestAction(opts: PathfinderOptions, m: Move): NodeAction
  {
    if m.dp.layer == Land && m.cp.layer == Sail then Disembark
    else if m.dp.layer == Land || m.dp.layer == Sail then
      if DestVisitableObj(m) then
        var a := ObjectAction(opts, m, m.dtObj.value);
        if a != Normal then a
        else if opts.originalMovementRules && DestinationGuarded(m, true) then Battle
        else Visit
      else if DestinationGuarded(m, true) then Battle
      else Normal
    else Normal
  }

  /** The shape of every landing action. */
  lemma DestActionShape(opts: PathfinderOptions, m: Move)
    ensures var a := GetDestAction(opts, m);
      && a != Unknown
      && a !in {TeleportNormal, TeleportBlockingVisit, TeleportBattle}
      && (m.dp.layer !in {Land, Sail} ==> a == Normal)
      && (m.dp.layer == Land && m.cp.layer == Sail ==> a == Disembark)
      && (a == Disembark ==> m.dp.layer == Land && m.cp.layer == Sail)
      && (a == Embark ==> DestVisitableObj(m) && m.dtObj.value.kind == Boat)
      && (a in {Visit, BlockingVisit} ==> DestVisitableObj(m))
      && (m.dp.layer in {Land, Sail} && !(m.dp.layer == Land && m.cp.layer == Sail) && DestVisitableObj(m) ==> a != Normal)
  {
  }

  /** A battle happens only at a guarded tile, at cp's guardian, or against an enemy hero, town or garrison. */
  lemma DestActionBattleCause(opts: PathfinderOptions, m: Move)
    requires GetDestAction(opts, m) == Battle
    ensures DestinationGuarded(m, true) || DestinationGuardian(m)
      || (DestVisitableObj(m) && m.dtObj.value.relation == Enemies
          && m.dtObj.value.kind in {HeroObj, Town, Garrison, Garrison2})
  {
  }

  /** getTeleportDestAction: a hero on the exit is fought or visited. */
  function GetTeleportDestAction(dtObj: Option<Obj>, l: Layer): (a: NodeAction)
    ensures a in {TeleportNormal, TeleportBlockingVisit, TeleportBattle}
    ensures a != TeleportNormal <==> IsVisitableObj(dtObj, l) && dtObj.value.kind == HeroObj
    ensures a == TeleportBattle <==>
      IsVisitableObj(dtObj, l) && dtObj.value.kind == HeroObj && dtObj.value.relation == Enemies
  {
    if IsVisitableObj(dtObj, l) && dtObj.value.kind == HeroObj then
      if dtObj.value.relation == Enemies then TeleportBattle else TeleportBlockingVisit
    else TeleportNormal
  }

  // ---------------------------------------------------------------------
  // Teleporters

  /** isAllowedTeleportEntrance (with the addTeleport... option checks). */
  function AllowedTeleportEntrance(opts: PathfinderOptions, o: Option<Obj>, whirlpoolProtection: bool): bool
  {
    if o.None? || o.value.teleport.None? then false
    else
      var t := o.value.teleport.value;
      if !t.entrancePassable then false
      else if t.whirlpool then opts.useTeleportWhirlpool && whirlpoolProtection
      else
        (opts.useTeleportTwoWay && t.bidirectional)
        || (opts.useTeleportOneWay && t.unidirectional && t.passableExits == 1)
        || (opts.useTeleportOneWayRandom && t.unidirectional && t.passableExits > 1)
  }

  /** An entrance is usable only when the option for its channel kind is on. */
  lemma AllowedTeleportEntranceNeedsOption(opts: PathfinderOptions, o: Option<Obj>, p: bool)
    requires AllowedTeleportEntrance(opts, o, p)
    ensures o.Some? && o.value.teleport.Some? && o.value.teleport.value.entrancePassable
    ensures o.value.teleport.value.whirlpool ==> opts.useTeleportWhirlpool && p
    ensures !o.value.teleport.value.whirlpool ==>
      opts.useTeleportTwoWay || opts.useTeleportOneWay || opts.useTeleportOneWayRandom
  {
  }

  // ---------------------------------------------------------------------
  // Going on from the destination

  /**
   * isMovementAfterDestPossible: whether dp is queued. `entranceAllowed` is
   * isAllowedTeleportEntrance for the destination object.
   */
  function MovementAfterDestPossible(opts: PathfinderOptions, m: Move, a: NodeAction, entranceAllowed: bool): bool
  {
    match a
      case Visit =>
        entranceAllowed || (m.dtObj.Some? && m.dtObj.value.kind in {Garrison, Garrison2, BorderGate})
      case Normal => true
      case Embark => opts.useEmbarkAndDisembark
      case Disembark => opts.useEmbarkAndDisembark && !DestinationGuarded(m, true)
      case Battle => DestinationGuarded(m, true)
      case _ => false
  }

  /** Which landings the search continues from. */
  lemma MovementAfterDestTable(opts: PathfinderOptions, m: Move, a: NodeAction, e: bool)
    ensures var r := MovementAfterDestPossible(opts, m, a, e);
      && (a == Normal ==> r)
      && (a in {Unknown, BlockingVisit, TeleportNormal, TeleportBlockingVisit, TeleportBattle} ==> !r)
      && (a == Battle ==> (r <==> m.dstGuard.Some?))
      && (a == Embark ==> (r <==> opts.useEmbarkAndDisembark))
      && (a == Disembark ==> (r <==> opts.useEmbarkAndDisembark && m.dstGuard.None?))
      && (a == Visit && !e && m.dtObj.Some? ==> (r <==> m.dtObj.value.kind in {Garrison, Garrison2, BorderGate}))
  {
  }

  // ---------------------------------------------------------------------
  // Static accessibility

  /** The loop over a tile's visitable objects: the first object that decides wins. */
  function ObjectsAccessibility(objs: seq<Obj>): (r: Option<Accessibility>)
    ensures r.Some? ==> r.value in {BlockVis, Accessible, Visitable}
  {
    if objs == [] then None
    else if objs[0].blockVisit then Some(BlockVis)
    else if objs[0].passable then Some(Accessible)
    else if objs[0].kind != Event then Some(Visitable)
    else ObjectsAccessibility(objs[1..])
  }

  /** The first object that is not a placed event decides the tile. */
  lemma {:induction false} ObjectsAccessibilityFirst(objs: seq<Obj>, k: nat)
    requires k < |objs| && objs[k].kind != Event
    requires forall j :: 0 <= j < k ==> objs[j].kind == Event && !objs[j].blockVisit && !objs[j].passable
    ensures ObjectsAccessibility(objs) == Some(if objs[k].blockVisit then BlockVis
                                              else if objs[k].passable then Accessible else Visitable)
  {
    if k > 0 {
      ObjectsAccessibilityFirst(objs[1..], k - 1);
    }
  }

  /** A tile holding placed events only is decided by the tile, not by its objects. */
  lemma {:induction false} ObjectsAccessibilityEvents(objs: seq<Obj>)
    requires forall j :: 0 <= j < |objs| ==> objs[j].kind == Event && !objs[j].blockVisit && !objs[j].passable
    ensures ObjectsAccessibility(objs) == None
  {
    if objs != [] {
      ObjectsAccessibilityEvents(objs[1..]);
    }
  }

  /** evaluateAccessibility. */
  function EvaluateAccessibility(w: World, pos: Coord, l: Layer): Accessibility
  {
    var objs := w.visitableObjects(pos);
    if w.terrain(pos) == Rock || !w.fow(pos) then Blocked
    else match l
      case Land => LandAccessibility(w, pos, objs)
      case Sail => LandAccessibility(w, pos, objs)
      case Water => if w.blocked(pos) || w.terrain(pos) != Sea then Blocked else Accessible
      case Air => if w.blocked(pos) || w.terrain(pos) == Sea then Flyable else Accessible
      case Wrong => Accessible
  }

  function LandAccessibility(w: World, pos: Coord, objs: seq<Obj>): Accessibility
  {
    if |objs| > 0 then
      if objs[0].kind == Sanctuary && objs[|objs| - 1].kind == HeroObj && objs[|objs| - 1].relation != SamePlayer then Blocked
      else match ObjectsAccessibility(objs)
        case Some(a) => a
        case None => Accessible
    else if w.blocked(pos) then Blocked
    else if w.guard(pos).Some? then BlockVis
    else Accessible
  }

  /** The classes each layer can produce. */
  lemma AccessibilityClasses(w: World, pos: Coord, l: Layer)
    requires l != Wrong
    ensures var a := EvaluateAccessibility(w, pos, l);
      && a != NotSet
      && (w.terrain(pos) == Rock || !w.fow(pos) ==> a == Blocked)
      && (l == Water ==> (a == Accessible <==> w.terrain(pos) == Sea && w.fow(pos) && !w.blocked(pos)))
      && (l == Water ==> a in {Accessible, Blocked})
      && (l == Air && w.terrain(pos) != Rock && w.fow(pos) ==>
          (a == Flyable <==> w.blocked(pos) || w.terrain(pos) == Sea))
      && (l == Air ==> a in {Accessible, Flyable, Blocked})
      && (l in {Land, Sail} ==> a != Flyable)
  {
  }

  /** An empty revealed tile: blocked tiles are blocked, guarded ones can only be fought on. */
  lemma EmptyTileAccessibility(w: World, pos: Coord, l: Layer)
    requires l == Land || l == Sail
    requires w.terrain(pos) != Rock && w.fow(pos) && !TileVisitable(w, pos)
    ensures EvaluateAccessibility(w, pos, l) ==
      if w.blocked(pos) then Blocked else if w.guard(pos).Some? then BlockVis else Accessible
  {
  }

  /** A foreign hero resting in a sanctuary blocks the tile. */
  lemma SanctuaryBlocks(w: World, pos: Coord, l: Layer)
    requires l == Land || l == Sail
    requires w.terrain(pos) != Rock && w.fow(pos) && TileVisitable(w, pos)
    requires var objs := w.visitableObjects(pos);
      objs[0].kind == Sanctuary && objs[|objs| - 1].kind == HeroObj && objs[|objs| - 1].relation != SamePlayer
    ensures EvaluateAccessibility(w, pos, l) == Blocked
  {
  }
}
