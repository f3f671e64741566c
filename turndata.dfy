/**
 * TurnData (AI/VCAI/Analysers/TurnData.cpp): reads the chain table the hero
 * chain search filled and hands each chain slot of a tile out as a one-step
 * chain path (CHeroChainPath), the input of the ExecuteChain task.
 */
module TurnData {
  import opened PathTypes
  import opened GameWorld
  import opened HeroChain

  /**
   * CHeroChainPathNode. The hero is the Hero record; two nodes have
   * the same hero when the heroes' ids agree.
   */
  datatype ChainPathNode = ChainPathNode(
    hero: Hero,
    targetPosition: Coord,
    movementPointsLeft: int,
    movementPointsUsed: int,
    turns: int,
    armyLoss: nat,      // uint64_t
    armyValue: nat,     // uint64_t
    action: NodeAction)

  /** CHeroChainPath: the nodes of a chain, in order. */
  datatype ChainPath = ChainPath(nodes: seq<ChainPathNode>)

  /**
   * movementPointsUsed of a slot: the slot's turns times a full day of land
   * movement plus the hero's movement today, as a ui32 read back as an int,
   * minus the points the slot has left, read as an int.
   */
  function SlotPointsUsed(n: HeroNode, h: Hero): (r: int)
  {
    I32(U32(n.base.turns * h.maxMovePoints(true, 0) + h.movement)) - I32(U32(n.base.moveRemains))
  }

  /** Away from the 32-bit limits, the points used are the plain difference. */
  lemma SlotPointsUsedExact(n: HeroNode, h: Hero)
    requires 0 <= n.base.turns * h.maxMovePoints(true, 0) + h.movement < TwoTo31
    requires n.base.moveRemains < TwoTo31
    ensures SlotPointsUsed(n, h) == n.base.turns * h.maxMovePoints(true, 0) + h.movement - n.base.moveRemains
  {
  }

  /**
   * The path getChainInfo makes of one slot: a single node for the slot's
   * hero with its points and turns; every other field keeps the zero the
   * node starts with.
   */
  function SlotPath(n: HeroNode, h: Hero): (r: ChainPath)
  {
    ChainPath([ChainPathNode(h, Coord(0, 0, 0), I32(U32(n.base.moveRemains)), SlotPointsUsed(n, h), n.base.turns, 0, 0, Unknown)])
  }

  /** Every slot of the cell names one of the actors. */
  predicate ActorsKnown(cell: seq<HeroNode>, actors: seq<Hero>)
  {
    forall k :: 0 <= k < |cell| ==> 0 <= cell[k].actorNumber < |actors|
  }

  /**
   * The paths getChainInfo pushes back for the slots of a cell, in order:
   * one for every slot, used or not.
   */
  function SlotPaths(cell: seq<HeroNode>, actors: seq<Hero>): (r: seq<ChainPath>)
    requires ActorsKnown(cell, actors)
  {
    if |cell| == 0 then []
    else
      var n := cell[|cell| - 1];
      SlotPaths(cell[..|cell| - 1], actors) + [SlotPath(n, actors[n.actorNumber])]
  }

  /**
   * One path per slot, none skipped; path k is the slot k's path: a single
   * node for actor actorNumber's hero, movementPointsLeft the slot's points
   * left, movementPointsUsed its points used, turns copied.
   */
  lemma {:induction false} SlotPathsPerSlot(cell: seq<HeroNode>, actors: seq<Hero>)
    requires ActorsKnown(cell, actors)
    ensures var r := SlotPaths(cell, actors);
      && |r| == |cell|
      && forall k :: 0 <= k < |cell| ==>
           && |r[k].nodes| == 1
           && r[k].nodes[0].hero == actors[cell[k].actorNumber]
           && r[k].nodes[0].movementPointsLeft == I32(U32(cell[k].base.moveRemains))
           && r[k].nodes[0].movementPointsUsed == SlotPointsUsed(cell[k], actors[cell[k].actorNumber])
           && r[k].nodes[0].turns == cell[k].base.turns
           && r[k].nodes[0].action == Unknown && r[k].nodes[0].armyLoss == 0 && r[k].nodes[0].armyValue == 0
  {
    if |cell| > 0 {
      var c' := cell[..|cell| - 1];
      SlotPathsPerSlot(c', actors);
      var r := SlotPaths(cell, actors);
      forall k | 0 <= k < |c'|
        ensures r[k] == SlotPaths(c', actors)[k] && cell[k] == c'[k]
      {
      }
    }
  }

  /** TurnData: the chain table of the turn and the configuration that knows its actors. */
  class TurnData {
    const chainInfo: ChainInfo
    const chainConfig: ChainConfig

    /** chainInfo and chainConfig fixed; filling the table (update) is not part of this model. */
    constructor (info: ChainInfo, config: ChainConfig)
      ensures chainInfo == info && chainConfig == config
    {
      chainInfo := info;
      chainConfig := config;
    }

    /**
     * getChainInfo(pos): for each of the ten LAND slots of pos, in order,
     * the one-node path of that slot.
     */
    method GetChainInfo(pos: Coord) returns (paths: seq<ChainPath>)
      requires chainInfo.Valid() && InBounds(chainInfo.sizes, pos)
      requires ActorsKnown(chainInfo.Cell(pos, Land), chainConfig.actors)
      ensures paths == SlotPaths(chainInfo.Cell(pos, Land), chainConfig.actors)
      ensures |paths| == ChainLimit
    {
      var b := CellStart(chainInfo.sizes, pos, Land);
      ghost var cell := chainInfo.Cell(pos, Land);
      paths := [];
      for k := 0 to ChainLimit
        invariant paths == SlotPaths(cell[..k], chainConfig.actors)
      {
        var node := chainInfo.nodes[b + k];
        assert node == cell[k];
        assert cell[..k + 1][..k] == cell[..k];
        var hero := chainConfig.GetNodeHero(chainInfo, b + k);
        paths := paths + [SlotPath(node, hero)];
      }
      assert cell[..ChainLimit] == cell;
      SlotPathsPerSlot(cell, chainConfig.actors);
    }
  }
}
