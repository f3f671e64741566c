/**
 * CPathfinderHelper and TurnInfo (lib/CPathfinder.cpp): the per-turn memo of
 * a hero's movement points and layer bonuses, the enumeration of the tiles
 * around a tile, and the integer control flow of the movement cost.
 */
module TurnHelper {
  import opened PathTypes
  import opened GameWorld

  // ---------------------------------------------------------------------
  // TurnInfo

  /**
   * TurnInfo of one turn. The two maximums are the cache that
   * getMaxMovePoints fills on first use; -1 means "not computed yet".
   */
  datatype TurnInfo = TurnInfo(turn: nat, maxMovePointsLand: int, maxMovePointsWater: int)

  /** The movement points a layer gets on a turn: the water value on the sail layer, the land value elsewhere. */
  function LayerMaxMovePoints(h: Hero, turn: nat, l: Layer): nat
  {
    if l == Sail then h.maxMovePoints(false, turn) else h.maxMovePoints(true, turn)
  }

  /** A cache entry either is unset or holds what the hero reports for that turn. */
  predicate CacheEntryOk(h: Hero, ti: TurnInfo, k: nat)
  {
    ti.turn == k
    && (ti.maxMovePointsLand == -1 || ti.maxMovePointsLand == h.maxMovePoints(true, k))
    && (ti.maxMovePointsWater == -1 || ti.maxMovePointsWater == h.maxMovePoints(false, k))
  }

  /** TurnInfo::getMaxMovePoints: fill whichever half of the cache is unset. */
  function FillMaxMovePoints(h: Hero, ti: TurnInfo): (r: TurnInfo)
    ensures r.turn == ti.turn
    ensures r.maxMovePointsLand == (if ti.maxMovePointsLand == -1 then h.maxMovePoints(true, ti.turn) else ti.maxMovePointsLand)
    ensures r.maxMovePointsWater == (if ti.maxMovePointsWater == -1 then h.maxMovePoints(false, ti.turn) else ti.maxMovePointsWater)
  {
    var land := if ti.maxMovePointsLand == -1 then h.maxMovePoints(true, ti.turn) else ti.maxMovePointsLand;
    var water := if ti.maxMovePointsWater == -1 then h.maxMovePoints(false, ti.turn) else ti.maxMovePointsWater;
    ti.(maxMovePointsLand := land, maxMovePointsWater := water)
  }

  /** Filling a valid entry answers what the hero would report: the cache is invisible. */
  lemma FillMaxMovePointsTransparent(h: Hero, ti: TurnInfo, k: nat, l: Layer)
    requires CacheEntryOk(h, ti, k)
    ensures CacheEntryOk(h, FillMaxMovePoints(h, ti), k)
    ensures var f := FillMaxMovePoints(h, ti);
      (if l == Sail then f.maxMovePointsWater else f.maxMovePointsLand) == LayerMaxMovePoints(h, k, l)
  {
  }

  /** TurnInfo::isLayerAvailable: the air needs FLYING_MOVEMENT, the water layer WATER_WALKING. */
  function TurnLayerAvailable(h: Hero, ti: TurnInfo, l: Layer): bool
  {
    match l
      case Air => h.flying(ti.turn)
      case Water => h.waterWalking(ti.turn)
      case _ => true
  }

  /** Whether a layer is open on turn t: the option for it, then the hero's bonus for that turn. */
  predicate LayerOpen(opts: PathfinderOptions, h: Hero, t: nat, l: Layer)
  {
    match l
      case Air => opts.useFlying && h.flying(t)
      case Water => opts.useWaterWalking && h.waterWalking(t)
      case _ => true
  }

  // ---------------------------------------------------------------------
  // CPathfinderHelper

  class PathfinderHelper {
    var turn: int
    const hero: Hero
    var turnsInfo: seq<TurnInfo>
    const options: PathfinderOptions

    /** turnsInfo[k] describes turn k, and `turn` (once set) indexes it. */
    ghost predicate Valid()
      reads this
    {
      -1 <= turn < |turnsInfo|
      && forall k :: 0 <= k < |turnsInfo| ==> CacheEntryOk(hero, turnsInfo[k], k)
    }

    /** CPathfinderHelper(hero, options): start at turn -1, then move to turn 0. */
    constructor (h: Hero, opts: PathfinderOptions)
      ensures Valid() && hero == h && options == opts
      ensures turn == 0 && turnsInfo == [TurnInfo(0, -1, -1)]
    {
      turn := -1;
      hero := h;
      turnsInfo := [];
      options := opts;
      new;
      UpdateTurnInfo(0);
    }

    /**
     * updateTurnInfo: switch to turn t, appending a fresh TurnInfo when t is
     * one past the last. The source appends at the end whatever t is, and
     * then indexes turnsInfo[t]; it relies on turns growing one at a time,
     * which the requires states.
     */
    method UpdateTurnInfo(t: int)
      requires Valid() && 0 <= t <= |turnsInfo|
      modifies this
      ensures Valid() && turn == t
      ensures turnsInfo == if t < |old(turnsInfo)| then old(turnsInfo) else old(turnsInfo) + [TurnInfo(t, -1, -1)]
    {
      if turn != t {
        turn := t;
        if turn >= |turnsInfo| {
          turnsInfo := turnsInfo + [TurnInfo(t, -1, -1)];
        }
      }
    }

    /** CPathfinderHelper::isLayerAvailable: the option, then the bonus of the current turn. */
    function IsLayerAvailable(l: Layer): (r: bool)
      reads this
      requires Valid() && turn >= 0
      ensures r == LayerOpen(options, hero, turn, l)
    {
      if l == Air && !options.useFlying then false
      else if l == Water && !options.useWaterWalking then false
      else TurnLayerAvailable(hero, turnsInfo[turn], l)
    }

    /** hasBonusOfType(WHIRLPOOL_PROTECTION), read through the cache entry of the current turn. */
    function WhirlpoolProtection(): (r: bool)
      reads this
      requires Valid() && turn >= 0
      ensures r == hero.whirlpoolProtection(turn)
    {
      hero.whirlpoolProtection(turnsInfo[turn].turn)
    }

    /** getMaxMovePoints: the current turn's value for the layer, through the lazy cache. */
    method GetMaxMovePoints(l: Layer) returns (r: int)
      requires Valid() && turn >= 0
      modifies this
      ensures Valid() && turn == old(turn) && |turnsInfo| == |old(turnsInfo)|
      ensures r == LayerMaxMovePoints(hero, turn, l)
    {
      FillMaxMovePointsTransparent(hero, turnsInfo[turn], turn, l);
      var ti := FillMaxMovePoints(hero, turnsInfo[turn]);
      turnsInfo := turnsInfo[turn := ti];
      r := if l == Sail then ti.maxMovePointsWater else ti.maxMovePointsLand;
    }
  }

  // ---------------------------------------------------------------------
  // getNeighbours

  /** The eight directions, in the order the source lists them. */
  const Dirs: seq<(int, int)> := [(-1, 1), (0, 1), (1, 1), (-1, 0), (1, 0), (-1, -1), (0, -1), (1, -1)]

  function Step(tile: Coord, d: (int, int)): Coord
  {
    Coord(tile.x + d.0, tile.y + d.1, tile.z)
  }

  /** Sailing diagonally between two water tiles needs water on both sides. */
  predicate CoastCut(w: World, tile: Coord, d: (int, int), limitCoastSailing: bool)
  {
    var h := Step(tile, d);
    w.terrain(tile) == Sea && limitCoastSailing && w.terrain(h) == Sea && d.0 != 0 && d.1 != 0
    && (w.terrain(Coord(tile.x + d.0, tile.y, tile.z)) != Sea || w.terrain(Coord(tile.x, tile.y + d.1, tile.z)) != Sea)
  }

  /** Whether getNeighbours keeps the tile in direction d; `onLand` None is boost's indeterminate. */
  predicate NeighbourKept(w: World, tile: Coord, d: (int, int), onLand: Option<bool>, limitCoastSailing: bool)
  {
    var h := Step(tile, d);
    InMap(w, h) && w.terrain(h) != Rock && !CoastCut(w, tile, d, limitCoastSailing)
    && (onLand.None? || onLand.value == (w.terrain(h) != Sea))
  }

  /** The tiles kept for directions ds, in order. */
  function NeighbourTilesOf(w: World, tile: Coord, ds: seq<(int, int)>, onLand: Option<bool>, limit: bool): seq<Coord>
  {
    if ds == [] then []
    else
      var last := ds[|ds| - 1];
      NeighbourTilesOf(w, tile, ds[..|ds| - 1], onLand, limit)
      + (if NeighbourKept(w, tile, last, onLand, limit) then [Step(tile, last)] else [])
  }

  function NeighbourTiles(w: World, tile: Coord, onLand: Option<bool>, limit: bool): seq<Coord>
  {
    NeighbourTilesOf(w, tile, Dirs, onLand, limit)
  }

  predicate UnitDir(d: (int, int)) { -1 <= d.0 <= 1 && -1 <= d.1 <= 1 && (d.0 != 0 || d.1 != 0) }

  /** What NeighbourTilesOf keeps, both ways. */
  lemma {:induction false} NeighbourTilesOfProps(w: World, tile: Coord, ds: seq<(int, int)>, onLand: Option<bool>, limit: bool)
    requires forall k :: 0 <= k < |ds| ==> UnitDir(ds[k])
    ensures var r := NeighbourTilesOf(w, tile, ds, onLand, limit);
      && |r| <= |ds|
      && (forall c :: c in r ==> exists k :: 0 <= k < |ds| && NeighbourKept(w, tile, ds[k], onLand, limit) && c == Step(tile, ds[k]))
      && (forall k :: 0 <= k < |ds| && NeighbourKept(w, tile, ds[k], onLand, limit) ==> Step(tile, ds[k]) in r)
  {
    if ds != [] {
      var pre := ds[..|ds| - 1];
      NeighbourTilesOfProps(w, tile, pre, onLand, limit);
      var r := NeighbourTilesOf(w, tile, ds, onLand, limit);
      forall c | c in r
        ensures exists k :: 0 <= k < |ds| && NeighbourKept(w, tile, ds[k], onLand, limit) && c == Step(tile, ds[k])
      {
        if c in NeighbourTilesOf(w, tile, pre, onLand, limit) {
          var k :| 0 <= k < |pre| && NeighbourKept(w, tile, pre[k], onLand, limit) && c == Step(tile, pre[k]);
          assert ds[k] == pre[k];
        } else {
          assert NeighbourKept(w, tile, ds[|ds| - 1], onLand, limit) && c == Step(tile, ds[|ds| - 1]);
        }
      }
      forall k | 0 <= k < |ds| && NeighbourKept(w, tile, ds[k], onLand, limit)
        ensures Step(tile, ds[k]) in r
      {
        if k < |ds| - 1 {
          assert ds[k] == pre[k];
        }
      }
    }
  }

  /**
   * getNeighbours keeps at most eight tiles; each is in the map, next to
   * the tile, not rock, on the requested side of the coast when the side is
   * given, and not a diagonal sailing step past land; and it keeps every
   * tile that meets those conditions.
   */
  lemma NeighbourTilesProps(w: World, tile: Coord, onLand: Option<bool>, limit: bool)
    ensures var r := NeighbourTiles(w, tile, onLand, limit);
      && |r| <= 8
      && (forall c :: c in r ==>
            InMap(w, c) && Adjacent(c, tile) && w.terrain(c) != Rock
            && (onLand.Some? ==> onLand.value == (w.terrain(c) != Sea)))
      && (forall c :: (c in r && w.terrain(tile) == Sea && limit && w.terrain(c) == Sea
                        && c.x != tile.x && c.y != tile.y) ==>
            w.terrain(Coord(c.x, tile.y, tile.z)) == Sea && w.terrain(Coord(tile.x, c.y, tile.z)) == Sea)
      && (forall k :: 0 <= k < 8 && NeighbourKept(w, tile, Dirs[k], onLand, limit) ==> Step(tile, Dirs[k]) in r)
  {
    NeighbourTilesOfProps(w, tile, Dirs, onLand, limit);
    var r := NeighbourTiles(w, tile, onLand, limit);
    forall c | c in r
      ensures InMap(w, c) && Adjacent(c, tile) && w.terrain(c) != Rock
      ensures onLand.Some? ==> onLand.value == (w.terrain(c) != Sea)
      ensures w.terrain(tile) == Sea && limit && w.terrain(c) == Sea && c.x != tile.x && c.y != tile.y ==>
              w.terrain(Coord(c.x, tile.y, tile.z)) == Sea && w.terrain(Coord(tile.x, c.y, tile.z)) == Sea
    {
      var k :| 0 <= k < 8 && NeighbourKept(w, tile, Dirs[k], onLand, limit) && c == Step(tile, Dirs[k]);
      assert UnitDir(Dirs[k]);
    }
  }

  /**
   * CPathfinderHelper::getNeighbours: the tiles it appends to `vec`, in the
   * order of Dirs.
   */
  method GetNeighbours(w: World, tile: Coord, onLand: Option<bool>, limitCoastSailing: bool) returns (vec: seq<Coord>)
    ensures vec == NeighbourTiles(w, tile, onLand, limitCoastSailing)
  {
    vec := [];
    var k := 0;
    while k < |Dirs|
      invariant 0 <= k <= |Dirs|
      invariant vec == NeighbourTilesOf(w, tile, Dirs[..k], onLand, limitCoastSailing)
    {
      var dir := Dirs[k];
      var hlp := Step(tile, dir);
      assert Dirs[..k + 1][..k] == Dirs[..k];
      if InMap(w, hlp) && w.terrain(hlp) != Rock {
        var cut := false;
        if w.terrain(tile) == Sea && limitCoastSailing && w.terrain(hlp) == Sea && dir.0 != 0 && dir.1 != 0 {
          var hlp1 := Coord(tile.x + dir.0, tile.y, tile.z);
          var hlp2 := Coord(tile.x, tile.y + dir.1, tile.z);
          cut := w.terrain(hlp1) != Sea || w.terrain(hlp2) != Sea;
        }
        if !cut && (onLand.None? || onLand.value == (w.terrain(hlp) != Sea)) {
          vec := vec + [hlp];
        }
      }
      k := k + 1;
    }
    assert Dirs[..|Dirs|] == Dirs;
  }

  // ---------------------------------------------------------------------
  // getMovementCost

  /** `(int)(ret * 1.414213)` for a non-negative cost, in exact integer arithmetic. */
  function Diagonal(ret: nat): nat
  {
    ret * 1414213 / 1000000
  }

  lemma DiagonalBounds(ret: nat)
    ensures ret <= Diagonal(ret) <= 2 * ret
  {
  }

  predicate IsDiagonal(src: Coord, dst: Coord) { src.x != dst.x && src.y != dst.y }

  /** The tile cost, scaled by √2 on a diagonal step. */
  function ScaledCost(h: Hero, src: Coord, dst: Coord, turn: nat): nat
  {
    var ret := h.tileCost(dst, src, turn);
    if IsDiagonal(src, dst) then Diagonal(ret) else ret
  }

  /** The diagonal exception: the scaled step does not fit but the straight cost does. */
  predicate DiagonalAllowance(h: Hero, src: Coord, dst: Coord, remaining: int, turn: nat)
  {
    IsDiagonal(src, dst) && ScaledCost(h, src, dst, turn) > remaining && remaining >= h.tileCost(dst, src, turn)
  }

  /** The "last tile" window: after the step 0 < left < 250 points stay. */
  predicate LastTileWindow(h: Hero, src: Coord, dst: Coord, remaining: int, turn: nat)
  {
    var left := remaining - ScaledCost(h, src, dst, turn);
    0 < left < 250
  }

  /**
   * getMovementCost(h, src, dst, ct, dt, remainingMovePoints, ti, checkLast),
   * with ti the turn info of `turn`.
   */
  function MovementCost(w: World, h: Hero, src: Coord, dst: Coord, remaining: int, turn: nat, checkLast: bool): int
    decreases if checkLast then 1 else 0
  {
    if src == dst then 0
    else if DiagonalAllowance(h, src, dst, remaining, turn) then remaining
    else if checkLast && LastTileWindow(h, src, dst, remaining, turn) then
      var left := remaining - ScaledCost(h, src, dst, turn);
      if NextStepAffordable(w, h, src, dst, left, turn) then ScaledCost(h, src, dst, turn) else remaining
    else ScaledCost(h, src, dst, turn)
  }

  /** The lookahead: some tile next to dst (on src's side of the coast) costs at most `left`. */
  predicate NextStepAffordable(w: World, h: Hero, src: Coord, dst: Coord, left: int, turn: nat)
  {
    exists e :: e in NeighbourTiles(w, dst, Some(w.terrain(src) != Sea), true)
      && CostToNext(w, h, dst, e, left, turn) <= left
  }

  /** The lookahead's inner call, made with checkLast false. */
  function CostToNext(w: World, h: Hero, src: Coord, dst: Coord, remaining: int, turn: nat): int
  {
    if src == dst then 0
    else if DiagonalAllowance(h, src, dst, remaining, turn) then remaining
    else ScaledCost(h, src, dst, turn)
  }

  lemma CostToNextIsUnchecked(w: World, h: Hero, src: Coord, dst: Coord, remaining: int, turn: nat)
    ensures CostToNext(w, h, src, dst, remaining, turn) == MovementCost(w, h, src, dst, remaining, turn, false)
  {
  }

  /** Staying on the tile is free; every cost is non-negative. */
  lemma MovementCostBasics(w: World, h: Hero, src: Coord, dst: Coord, remaining: int, turn: nat, checkLast: bool)
    ensures src == dst ==> MovementCost(w, h, src, dst, remaining, turn, checkLast) == 0
    ensures MovementCost(w, h, src, dst, remaining, turn, checkLast) >= 0
  {
  }

  /**
   * The cost is the scaled tile cost except in the two cases where the
   * hero spends all remaining points: a diagonal that only fits straight,
   * and a step that leaves fewer than 250 points when no next step fits.
   */
  lemma MovementCostCases(w: World, h: Hero, src: Coord, dst: Coord, remaining: int, turn: nat, checkLast: bool)
    requires src != dst
    ensures var r := MovementCost(w, h, src, dst, remaining, turn, checkLast);
      && (DiagonalAllowance(h, src, dst, remaining, turn) ==> r == remaining && remaining < ScaledCost(h, src, dst, turn))
      && (!DiagonalAllowance(h, src, dst, remaining, turn) && checkLast && LastTileWindow(h, src, dst, remaining, turn) ==>
            (r == remaining <==> !NextStepAffordable(w, h, src, dst, remaining - ScaledCost(h, src, dst, turn), turn)))
      && (r != ScaledCost(h, src, dst, turn) ==> r == remaining)
      && (r == remaining && r != ScaledCost(h, src, dst, turn) ==>
            DiagonalAllowance(h, src, dst, remaining, turn)
            || (checkLast && LastTileWindow(h, src, dst, remaining, turn)))
  {
  }

  /** Whenever the cost is the remaining points, the hero can pay it: the remainder is exactly 0. */
  lemma MovementCostAffordable(w: World, h: Hero, src: Coord, dst: Coord, remaining: int, turn: nat, checkLast: bool)
    requires src != dst
    ensures var r := MovementCost(w, h, src, dst, remaining, turn, checkLast);
      r > remaining ==>
        (r == ScaledCost(h, src, dst, turn)
         && !DiagonalAllowance(h, src, dst, remaining, turn) && !LastTileWindow(h, src, dst, remaining, turn))
  {
  }

  /** getMovementCost as the source computes it, the lookahead scanning the neighbour list in order. */
  method GetMovementCost(w: World, h: Hero, src: Coord, dst: Coord, remaining: int, turn: nat, checkLast: bool) returns (r: int)
    ensures r == MovementCost(w, h, src, dst, remaining, turn, checkLast)
    decreases if checkLast then 1 else 0
  {
    if src == dst {
      return 0;
    }
    var ret: int := h.tileCost(dst, src, turn);
    if src.x != dst.x && src.y != dst.y {
      var old_ := ret;
      ret := Diagonal(ret);
      if ret > remaining && remaining >= old_ {
        return remaining;
      }
    }
    var left := remaining - ret;
    if checkLast && left > 0 && remaining - ret < 250 {
      var vec := GetNeighbours(w, dst, Some(w.terrain(src) != Sea), true);
      var k := 0;
      while k < |vec|
        invariant 0 <= k <= |vec|
        invariant forall j :: 0 <= j < k ==> CostToNext(w, h, dst, vec[j], left, turn) > left
      {
        var fcost := GetMovementCost(w, h, dst, vec[k], left, turn, false);
        CostToNextIsUnchecked(w, h, dst, vec[k], left, turn);
        if fcost <= left {
          assert vec[k] in vec && CostToNext(w, h, dst, vec[k], left, turn) <= left;
          return ret;
        }
        k := k + 1;
      }
      ret := remaining;
    }
    return ret;
  }
}
