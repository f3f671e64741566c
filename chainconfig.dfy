/**
 * The hero-chain search's configuration (CVCAIHeroChainConfig): a table of
 * ten chain slots per node, and how a chain of heroes claims a slot, reuses
 * it, compares routes, hands off between heroes and fights through guards.
 */
module HeroChain {
  import opened PathTypes
  import opened GameWorld
  import Rules

  /** BATTLE_NODE: the top mask bit, set on a chain that has fought through a guard. */
  const BattleNode: Mask := 0x8000_0000

  /** `(mask & BATTLE_NODE) > 0`. */
  predicate HasBattle(m: Mask) { m >= BattleNode }

  /** `mask & ~BATTLE_NODE`: the mask without its battle bit. */
  function ClearBattle(m: Mask): (r: Mask)
    ensures !HasBattle(r) && (r == m <==> !HasBattle(m))
  {
    if HasBattle(m) then m - BattleNode else m
  }

  /** `mask | BATTLE_NODE`: the mask with its battle bit set, the other bits kept. */
  function WithBattle(m: Mask): (r: Mask)
    ensures HasBattle(r) && ClearBattle(r) == ClearBattle(m)
    ensures r == m <==> HasBattle(m)
  {
    if HasBattle(m) then m else m + BattleNode
  }

  function Pow2(i: nat): (r: nat)
    ensures r > 0
  {
    if i == 0 then 1 else 2 * Pow2(i - 1)
  }

  lemma {:induction false} Pow2Mono(i: nat, j: nat)
    requires i <= j
    ensures Pow2(i) <= Pow2(j)
  {
    if i < j {
      Pow2Mono(i, j - 1);
    }
  }

  lemma {:induction false} Pow2Add(a: nat, b: nat)
    ensures Pow2(a + b) == Pow2(a) * Pow2(b)
  {
    if b > 0 {
      Pow2Add(a, b - 1);
      assert Pow2(a + b) == 2 * Pow2(a + b - 1);
    }
  }

  lemma Pow2Below(i: nat)
    requires i < 31
    ensures Pow2(i) < BattleNode
  {
    Pow2Mono(i, 30);
    assert Pow2(10) == 1024;
    Pow2Add(10, 10);
    Pow2Add(20, 10);
  }

  /** The mask of actor i, `1 << i`; the source shifts a signed int, so i stays below 31. */
  function ActorBit(i: nat): (r: Mask)
    requires i < 31
    ensures r != 0 && !HasBattle(r) && ClearBattle(r) == r
  {
    Pow2Below(i);
    Pow2(i)
  }

  /** A chain mask names a single hero: no bit but actor's own, the battle bit aside. */
  predicate SingleHero(n: HeroNode)
    requires 0 <= n.actorNumber < 31
  {
    ClearBattle(n.mask) == ActorBit(n.actorNumber)
  }

  // ---------------------------------------------------------------------
  // The chain table: nodes[x][y][z][layer][slot], flattened

  /** The first of the ten slots of node (c, l). */
  function CellStart(s: Coord, c: Coord, l: Layer): (r: int)
    requires l != Wrong
    ensures SizesValid(s) && InBounds(s, c) ==> 0 <= r && r + ChainLimit <= NodeCount(s) * ChainLimit
  {
    var r := SlotIndex(s, c, l, ChainLimit, 0);
    assert SizesValid(s) && InBounds(s, c) ==> 0 <= r && r + ChainLimit <= NodeCount(s) * ChainLimit by {
      if SizesValid(s) && InBounds(s, c) {
        SlotIndexBound(s, c, l, ChainLimit, 0);
        SlotIndexBound(s, c, l, ChainLimit, ChainLimit - 1);
      }
    }
    r
  }

  /** Slot j belongs to the cell of (c, l). */
  predicate InCell(s: Coord, c: Coord, l: Layer, j: int)
    requires l != Wrong
  {
    CellStart(s, c, l) <= j < CellStart(s, c, l) + ChainLimit
  }

  /** A slot belongs to one cell only. */
  lemma CellUnique(s: Coord, c1: Coord, l1: Layer, c2: Coord, l2: Layer, j: int)
    requires SizesValid(s) && InBounds(s, c1) && InBounds(s, c2) && l1 != Wrong && l2 != Wrong
    requires InCell(s, c1, l1, j) && InCell(s, c2, l2, j)
    ensures c1 == c2 && l1 == l2
  {
    var k1 := j - CellStart(s, c1, l1);
    var k2 := j - CellStart(s, c2, l2);
    SlotIndexUnique(s, c1, l1, k1, c2, l2, k2, ChainLimit);
  }

  /**
   * What every slot of the table looks like: a slot the search has not
   * placed yet is of layer WRONG, unused and NOT_SET; a placed slot lies in
   * the cell of its own coordinate and layer.
   */
  predicate SlotShaped(s: Coord, n: HeroNode, j: int)
  {
    && BaseValid(n.base)
    && if n.base.layer == Wrong then !IsInUse(n) && n.base.accessible == NotSet
       else InBounds(s, n.base.coord) && InCell(s, n.base.coord, n.base.layer, j)
  }

  /** Every slot of the table t is in shape. */
  predicate TableShaped(s: Coord, t: seq<HeroNode>)
  {
    forall j {:trigger SlotShaped(s, t[j], j)} :: 0 <= j < |t| ==> SlotShaped(s, t[j], j)
  }

  lemma ShapedAt(s: Coord, t: seq<HeroNode>, j: int)
    requires TableShaped(s, t) && 0 <= j < |t|
    ensures SlotShaped(s, t[j], j)
  {
  }

  lemma ShapedWrite(s: Coord, t: seq<HeroNode>, j: int, n: HeroNode)
    requires TableShaped(s, t) && 0 <= j < |t| && SlotShaped(s, n, j)
    ensures TableShaped(s, t[j := n])
  {
  }

  /** Claiming a slot that is not NOT_SET keeps the table in shape. */
  lemma ClaimShaped(s: Coord, t: seq<HeroNode>, j: int, mask: Mask, actor: int)
    requires TableShaped(s, t) && 0 <= j < |t| && t[j].base.accessible != NotSet
    ensures TableShaped(s, t[j := t[j].(mask := mask, actorNumber := actor)])
  {
    ShapedAt(s, t, j);
    ShapedWrite(s, t, j, t[j].(mask := mask, actorNumber := actor));
  }

  /** A placed slot found in the cell of (c, l) is a node of (c, l). */
  lemma SlotOfCell(s: Coord, n: HeroNode, j: int, c: Coord, l: Layer)
    requires SizesValid(s) && InBounds(s, c) && l != Wrong
    requires SlotShaped(s, n, j) && InCell(s, c, l, j) && n.base.layer != Wrong
    ensures n.base.coord == c && n.base.layer == l
  {
    CellUnique(s, n.base.coord, n.base.layer, c, l, j);
  }

  /** The table t with the slots from b on replaced by those of cell. */
  function Splice(t: seq<HeroNode>, b: int, cell: seq<HeroNode>): (r: seq<HeroNode>)
    requires 0 <= b && b + |cell| <= |t|
    ensures |r| == |t| && r[b..b + |cell|] == cell
    ensures forall j :: 0 <= j < |t| ==> r[j] == if b <= j < b + |cell| then cell[j - b] else t[j]
  {
    t[..b] + cell + t[b + |cell|..]
  }

  lemma SpliceSelf(t: seq<HeroNode>, b: int, n: nat)
    requires 0 <= b && b + n <= |t|
    ensures Splice(t, b, t[b..b + n]) == t
  {
  }

  lemma SpliceWrite(t: seq<HeroNode>, b: int, cell: seq<HeroNode>, k: int, v: HeroNode)
    requires 0 <= b && b + |cell| <= |t| && 0 <= k < |cell|
    ensures Splice(t, b, cell)[b + k := v] == Splice(t, b, cell[k := v])
  {
  }

  /** Allocating a slot of (c, l) leaves the table in shape. */
  lemma AllocKeepsShape(s: Coord, t: seq<HeroNode>, c: Coord, l: Layer, mask: Mask, actor: int)
    requires SizesValid(s) && InBounds(s, c) && l != Wrong
    requires |t| == NodeCount(s) * ChainLimit && TableShaped(s, t)
    ensures var b := CellStart(s, c, l);
      TableShaped(s, Splice(t, b, Allocated(t[b..b + ChainLimit], mask, actor)))
  {
    var b := CellStart(s, c, l);
    var cell := t[b..b + ChainLimit];
    var u := Splice(t, b, Allocated(cell, mask, actor));
    AllocationResult(cell, mask, actor);
    forall j | 0 <= j < |u|
      ensures SlotShaped(s, u[j], j)
    {
      ShapedAt(s, t, j);
    }
  }

  /** CHeroChainInfo: the table of chain slots. */
  class ChainInfo {
    const sizes: Coord
    const nodes: array<HeroNode>

    ghost predicate Valid()
      reads this, nodes
    {
      && SizesValid(sizes)
      && nodes.Length == NodeCount(sizes) * ChainLimit
      && TableShaped(sizes, nodes[..])
    }

    /** The table resized to ten value-initialised slots per node. */
    constructor (s: Coord)
      requires SizesValid(s)
      ensures Valid() && sizes == s && fresh(nodes)
      ensures forall j :: 0 <= j < nodes.Length ==> nodes[j] == DefaultHeroNode
    {
      sizes := s;
      nodes := new HeroNode[NodeCount(s) * ChainLimit](_ => DefaultHeroNode);
    }

    /** The ten slots of node (c, l). */
    ghost function Cell(c: Coord, l: Layer): (r: seq<HeroNode>)
      reads this, nodes
      requires Valid() && InBounds(sizes, c) && l != Wrong
      ensures |r| == ChainLimit
    {
      nodes[CellStart(sizes, c, l)..CellStart(sizes, c, l) + ChainLimit]
    }
  }

  // ---------------------------------------------------------------------
  // allocateHeroNode, on the ten slots of one cell

  /** A slot a new chain may take: no chain holds it and the search has placed it. */
  predicate Claimable(n: HeroNode) { !IsInUse(n) && n.base.accessible != NotSet }

  /** The slot already belongs to this chain. */
  predicate Holds(n: HeroNode, mask: Mask, actor: int) { n.mask == mask && n.actorNumber == actor }

  /** The slot allocateHeroNode returns, scanning from slot `from`: the first one that is free or already the chain's. */
  function AllocSlot(cell: seq<HeroNode>, mask: Mask, actor: int, from: nat): (r: Option<nat>)
    requires from <= |cell|
    decreases |cell| - from
    ensures r.Some? ==> from <= r.value < |cell| && (Claimable(cell[r.value]) || Holds(cell[r.value], mask, actor))
    ensures forall k :: from <= k < (if r.Some? then r.value else |cell|) ==>
      !Claimable(cell[k]) && !Holds(cell[k], mask, actor)
  {
    if from == |cell| then None
    else if Claimable(cell[from]) || Holds(cell[from], mask, actor) then Some(from)
    else AllocSlot(cell, mask, actor, from + 1)
  }

  /** A slot number within a cell, as an index of the table. */
  function Offset(slot: Option<nat>, b: int): (r: Option<nat>)
    requires b >= 0
  {
    match slot
    case None => None
    case Some(k) => Some(b + k)
  }

  /** The cell after allocateHeroNode: a free slot it returns now carries the chain's mask and actor. */
  function Allocated(cell: seq<HeroNode>, mask: Mask, actor: int): (r: seq<HeroNode>)
    ensures |r| == |cell|
  {
    match AllocSlot(cell, mask, actor, 0)
    case Some(i) =>
      if Claimable(cell[i]) then cell[i := cell[i].(mask := mask, actorNumber := actor)] else cell
    case None => cell
  }

  /** allocateHeroNode on the table, when the scan stops at slot i of the cell from b. */
  lemma AllocFound(t: seq<HeroNode>, b: int, mask: Mask, actor: int, i: nat)
    requires 0 <= b && b + ChainLimit <= |t| && i < ChainLimit
    requires AllocSlot(t[b..b + ChainLimit], mask, actor, i) == AllocSlot(t[b..b + ChainLimit], mask, actor, 0)
    requires Claimable(t[b + i]) || Holds(t[b + i], mask, actor)
    ensures Offset(AllocSlot(t[b..b + ChainLimit], mask, actor, 0), b) == Some(b + i)
    ensures Splice(t, b, Allocated(t[b..b + ChainLimit], mask, actor)) ==
      if Claimable(t[b + i]) then t[b + i := t[b + i].(mask := mask, actorNumber := actor)] else t
  {
    var cell := t[b..b + ChainLimit];
    assert cell[i] == t[b + i];
    SpliceSelf(t, b, ChainLimit);
    if Claimable(t[b + i]) {
      SpliceWrite(t, b, cell, i, cell[i].(mask := mask, actorNumber := actor));
    }
  }

  /** allocateHeroNode on the table, when the scan finds no slot in the cell from b. */
  lemma AllocNotFound(t: seq<HeroNode>, b: int, mask: Mask, actor: int)
    requires 0 <= b && b + ChainLimit <= |t|
    requires AllocSlot(t[b..b + ChainLimit], mask, actor, ChainLimit) == AllocSlot(t[b..b + ChainLimit], mask, actor, 0)
    ensures Offset(AllocSlot(t[b..b + ChainLimit], mask, actor, 0), b).None?
    ensures Splice(t, b, Allocated(t[b..b + ChainLimit], mask, actor)) == t
  {
    SpliceSelf(t, b, ChainLimit);
  }

  /**
   * A slot is found exactly when some slot is free or already the chain's;
   * the found slot then belongs to the chain; and the only slot that changes
   * is a free one, and it changes only its mask and actor.
   */
  lemma AllocationResult(cell: seq<HeroNode>, mask: Mask, actor: int)
    ensures var r := AllocSlot(cell, mask, actor, 0);
      r.Some? <==> exists k :: 0 <= k < |cell| && (Claimable(cell[k]) || Holds(cell[k], mask, actor))
    ensures var r := AllocSlot(cell, mask, actor, 0);
      r.Some? ==> Holds(Allocated(cell, mask, actor)[r.value], mask, actor)
    ensures var a := Allocated(cell, mask, actor);
      forall k :: 0 <= k < |cell| && a[k] != cell[k] ==>
        && Claimable(cell[k]) && AllocSlot(cell, mask, actor, 0) == Some(k)
        && a[k] == cell[k].(mask := mask, actorNumber := actor)
  {
  }

  /** Asking again for the same chain returns the same slot and changes nothing more. */
  lemma AllocationIdempotent(cell: seq<HeroNode>, mask: Mask, actor: int)
    ensures AllocSlot(Allocated(cell, mask, actor), mask, actor, 0) == AllocSlot(cell, mask, actor, 0)
    ensures Allocated(Allocated(cell, mask, actor), mask, actor) == Allocated(cell, mask, actor)
  {
    var a := Allocated(cell, mask, actor);
    match AllocSlot(cell, mask, actor, 0)
    case None =>
    case Some(i) =>
      var r := AllocSlot(a, mask, actor, 0);
      assert forall k :: 0 <= k < i ==> a[k] == cell[k];
      assert Claimable(a[i]) || Holds(a[i], mask, actor);
      if r.None? {
        assert false;
      } else if r.value < i {
        assert false;
      } else if r.value > i {
        assert false;
      }
  }

  /**
   * The shape allocation keeps in a cell: the used slots come first, no
   * two used slots belong to the same chain, and every slot of the cell has
   * the accessibility updateNode gave the node.
   */
  predicate CellOk(cell: seq<HeroNode>)
  {
    && (forall i, j :: 0 <= i < j < |cell| && IsInUse(cell[j]) ==> IsInUse(cell[i]))
    && (forall i, j :: 0 <= i < j < |cell| && IsInUse(cell[j]) ==>
          !Holds(cell[i], cell[j].mask, cell[j].actorNumber))
    && (forall i, j :: 0 <= i < |cell| && 0 <= j < |cell| ==>
          cell[i].base.accessible == cell[j].base.accessible)
  }

  /**
   * Allocating for a chain with a non-empty mask keeps the cell's shape, and
   * fails only when every slot is used or the node was never placed.
   */
  lemma AllocationKeepsCellOk(cell: seq<HeroNode>, mask: Mask, actor: int)
    requires CellOk(cell) && mask != 0
    ensures CellOk(Allocated(cell, mask, actor))
    ensures AllocSlot(cell, mask, actor, 0).None? ==>
      forall k :: 0 <= k < |cell| ==> IsInUse(cell[k]) || cell[k].base.accessible == NotSet
  {
    var a := Allocated(cell, mask, actor);
    match AllocSlot(cell, mask, actor, 0)
    case None =>
    case Some(i) =>
      if Claimable(cell[i]) {
        assert forall k :: 0 <= k < i ==> IsInUse(cell[k]) by {
          forall k | 0 <= k < i
            ensures IsInUse(cell[k])
          {
            assert cell[k].base.accessible == cell[i].base.accessible;
          }
        }
        assert forall k :: i < k < |cell| ==> !IsInUse(cell[k]);
        assert forall k :: 0 <= k < |cell| && k != i ==> a[k] == cell[k];
        assert IsInUse(a[i]) && a[i].base.accessible == cell[i].base.accessible;
      }
  }

  // ---------------------------------------------------------------------
  // shouldCancelNode

  /**
   * The test shouldCancelNode applies to another slot `o` of the node, as
   * written: `o` has at least the army and arrives earlier, or in the same
   * turn with FEWER points left; or `o` has more army and arrives in the same
   * turn with no more points left.
   */
  predicate CancelsAsWritten(o: HeroNode, n: HeroNode)
  {
    || (o.armyValue >= n.armyValue &&
        (o.base.turns < n.base.turns || (o.base.turns == n.base.turns && o.base.moveRemains < n.base.moveRemains)))
    || (o.armyValue > n.armyValue && o.base.turns == n.base.turns && o.base.moveRemains <= n.base.moveRemains)
  }

  /**
   * The corrected test: `o` has at least the army and arrives earlier or
   * with MORE points left, or has more army with at least as many points.
   */
  predicate Dominates(o: HeroNode, n: HeroNode)
  {
    || (o.armyValue >= n.armyValue &&
        (o.base.turns < n.base.turns || (o.base.turns == n.base.turns && o.base.moveRemains > n.base.moveRemains)))
    || (o.armyValue > n.armyValue && o.base.turns == n.base.turns && o.base.moveRemains >= n.base.moveRemains)
  }

  /**
   * The corrected test is strict Pareto dominance: `o` is no worse in army
   * and no worse in time (the queue order of the search), and strictly
   * better in one of them.
   */
  lemma DominatesIsPareto(o: HeroNode, n: HeroNode)
    ensures Dominates(o, n) <==>
      && o.armyValue >= n.armyValue
      && !Better(n.base, o.base)
      && (o.armyValue > n.armyValue || Better(o.base, n.base))
  {
  }

  /** Dominance is a strict order: no node dominates itself, and it chains. */
  lemma DominatesStrictOrder(a: HeroNode, b: HeroNode, c: HeroNode)
    ensures !Dominates(a, a)
    ensures Dominates(a, b) && Dominates(b, c) ==> Dominates(a, c)
    ensures Dominates(a, b) ==> !Dominates(b, a)
  {
    DominatesIsPareto(a, a);
    DominatesIsPareto(a, b);
    DominatesIsPareto(b, a);
    DominatesIsPareto(b, c);
    DominatesIsPareto(a, c);
  }

  /** Neither test lets a slot cancel itself. */
  lemma NoSelfCancel(n: HeroNode)
    ensures !CancelsAsWritten(n, n) && !Dominates(n, n)
  {
  }

  /**
   * As written, a slot with the same army and turn but fewer points left
   * cancels a node although that node is strictly the better route.
   */
  lemma CancelsAsWrittenDiscardsBetter()
    ensures var o := DefaultHeroNode.(base := DefaultHeroNode.base.(turns := 1, moveRemains := 100), armyValue := 50);
      var n := DefaultHeroNode.(base := DefaultHeroNode.base.(turns := 1, moveRemains := 200), armyValue := 50);
      && CancelsAsWritten(o, n)
      && Better(n.base, o.base) && n.armyValue == o.armyValue
      && !Dominates(o, n) && Dominates(n, o)
      && ShouldCancelAsWritten([o, n], n) && !ShouldCancel([o, n], n)
  {
    var o := DefaultHeroNode.(base := DefaultHeroNode.base.(turns := 1, moveRemains := 100), armyValue := 50);
    var n := DefaultHeroNode.(base := DefaultHeroNode.base.(turns := 1, moveRemains := 200), armyValue := 50);
    assert CancelsAsWritten([o, n][0], n);
  }

  /**
   * The written and the corrected test agree on slots of another turn. On
   * the same turn the written test is the corrected one with the two
   * nodes' points swapped.
   */
  lemma CancelTestsAgreeAcrossTurns(o: HeroNode, n: HeroNode)
    ensures o.base.turns != n.base.turns ==>
      (CancelsAsWritten(o, n) <==> Dominates(o, n)) && (Dominates(o, n) <==> o.armyValue >= n.armyValue && o.base.turns < n.base.turns)
    ensures o.base.turns == n.base.turns ==>
      (CancelsAsWritten(o, n) <==> Dominates(o.(base := n.base), n.(base := o.base)))
  {
  }

  /** shouldCancelNode as written: some slot of the node's cell passes the written test. */
  predicate ShouldCancelAsWritten(cell: seq<HeroNode>, n: HeroNode)
  {
    exists k :: 0 <= k < |cell| && CancelsAsWritten(cell[k], n)
  }

  /** The corrected shouldCancelNode: some slot of the node's cell dominates it. */
  predicate ShouldCancel(cell: seq<HeroNode>, n: HeroNode)
  {
    exists k :: 0 <= k < |cell| && Dominates(cell[k], n)
  }

  /** A node that dominates every other slot of its cell is never cancelled. */
  lemma BestIsKept(cell: seq<HeroNode>, i: nat)
    requires i < |cell|
    requires forall k :: 0 <= k < |cell| && k != i ==> Dominates(cell[i], cell[k])
    ensures !ShouldCancel(cell, cell[i])
  {
    forall k | 0 <= k < |cell|
      ensures !Dominates(cell[k], cell[i])
    {
      DominatesStrictOrder(cell[i], cell[k], cell[i]);
    }
  }

  /**
   * shouldCancelNode(pathsInfo, node): scan the ChainLimit slots of the
   * node's cell with the written test.
   */
  method ShouldCancelNode(paths: ChainInfo, n: nat) returns (r: bool)
    requires paths.Valid() && n < paths.nodes.Length && paths.nodes[n].base.layer != Wrong
    requires InBounds(paths.sizes, paths.nodes[n].base.coord)
    ensures var node := paths.nodes[n];
      r == ShouldCancelAsWritten(paths.Cell(node.base.coord, node.base.layer), node)
  {
    var node := paths.nodes[n];
    ShapedAt(paths.sizes, paths.nodes[..], n);
    var b := CellStart(paths.sizes, node.base.coord, node.base.layer);
    ghost var cell := paths.Cell(node.base.coord, node.base.layer);
    var i := 0;
    while i < ChainLimit
      invariant 0 <= i <= ChainLimit
      invariant forall k :: 0 <= k < i ==> !CancelsAsWritten(cell[k], node)
    {
      var other := paths.nodes[b + i];
      assert other == cell[i];
      if other.armyValue >= node.armyValue {
        if other.base.turns < node.base.turns
          || (other.base.turns == node.base.turns && other.base.moveRemains < node.base.moveRemains)
        {
          return true;
        }
      }
      if other.armyValue > node.armyValue
        && other.base.turns == node.base.turns && other.base.moveRemains <= node.base.moveRemains
      {
        return true;
      }
      i := i + 1;
    }
    return false;
  }

  // ---------------------------------------------------------------------
  // updateNode, on one cell

  /** The cell after updateNode(coord, layer, accessible): every slot updated. */
  function UpdatedCell(cell: seq<HeroNode>, c: Coord, l: Layer, acc: Accessibility): (r: seq<HeroNode>)
    ensures |r| == |cell|
    ensures forall k :: 0 <= k < |cell| ==> r[k] == UpdateHeroNode(cell[k], c, l, acc)
  {
    seq(|cell|, k requires 0 <= k < |cell| => UpdateHeroNode(cell[k], c, l, acc))
  }

  /**
   * After updateNode every slot of the cell is a free node of (c, l) with
   * the new accessibility, so the cell is in shape; when accessible is set,
   * the next chain to ask gets the first slot.
   */
  lemma UpdatedCellIsFree(cell: seq<HeroNode>, c: Coord, l: Layer, acc: Accessibility, mask: Mask, actor: int)
    requires |cell| > 0 && l != Wrong
    requires forall k :: 0 <= k < |cell| ==>
      if cell[k].base.layer == Wrong then !IsInUse(cell[k])
      else cell[k].base.coord == c && cell[k].base.layer == l
    ensures var u := UpdatedCell(cell, c, l, acc);
      && (forall k :: 0 <= k < |u| ==>
            !IsInUse(u[k]) && u[k].base.accessible == acc && u[k].base.coord == c && u[k].base.layer == l)
      && CellOk(u)
      && (acc != NotSet ==> AllocSlot(u, mask, actor, 0) == Some(0))
  {
    var u := UpdatedCell(cell, c, l, acc);
    assert forall k :: 0 <= k < |u| ==> !IsInUse(u[k]) by {
      forall k | 0 <= k < |u|
        ensures !IsInUse(u[k])
      {
        if cell[k].base.layer == Wrong {
          assert u[k].mask == cell[k].mask;
        }
      }
    }
  }

  /** Updating every slot of the cell of (c, l) splices the updated cell in and leaves the table in shape. */
  lemma UpdateKeepsShape(s: Coord, t0: seq<HeroNode>, t: seq<HeroNode>, c: Coord, l: Layer, acc: Accessibility)
    requires SizesValid(s) && InBounds(s, c) && l != Wrong && TableShaped(s, t0)
    requires |t| == |t0| == NodeCount(s) * ChainLimit
    requires var b := CellStart(s, c, l);
      && (forall j :: 0 <= j < |t| && !(b <= j < b + ChainLimit) ==> t[j] == t0[j])
      && (forall j :: b <= j < b + ChainLimit ==> t[j] == UpdateHeroNode(t0[j], c, l, acc))
    ensures TableShaped(s, t)
    ensures var b := CellStart(s, c, l);
      t == Splice(t0, b, UpdatedCell(t0[b..b + ChainLimit], c, l, acc))
  {
    var b := CellStart(s, c, l);
    forall j | 0 <= j < |t|
      ensures SlotShaped(s, t[j], j)
    {
      ShapedAt(s, t0, j);
      if b <= j < b + ChainLimit && t0[j].base.layer != Wrong {
        SlotOfCell(s, t0[j], j, c, l);
      }
    }
    var u := Splice(t0, b, UpdatedCell(t0[b..b + ChainLimit], c, l, acc));
    assert forall j :: 0 <= j < |t| ==> t[j] == u[j];
  }

  // ---------------------------------------------------------------------
  // isBetterWay and apply

  /** CVCAIHeroChainConfig::isBetterWay: a stronger chain always wins, otherwise the search's own rule. */
  predicate ChainIsBetterWay(target: HeroNode, source: HeroNode, remains: int, turn: int)
  {
    if source.armyValue > target.armyValue then true
    else if target.base.turns == 0xff then true
    else if target.base.turns > turn then true
    else if target.base.turns >= turn && target.base.moveRemains < U32(remains) then true
    else false
  }

  /** The chain rule is the single-hero rule with army strength tried first. */
  lemma ChainIsBetterWayArmyFirst(target: HeroNode, source: HeroNode, remains: int, turn: int)
    ensures ChainIsBetterWay(target, source, remains, turn) <==>
      source.armyValue > target.armyValue || Rules.IsBetterWay(target.base, remains, turn)
  {
  }

  /**
   * The parent node must be dealt with before the chain can go on: it stands
   * on its own guard's tile (when the move is source-guarded), or its action
   * visits an object.
   */
  predicate HandOff(w: World, parent: HeroNode, blocker: NodeBlocker)
  {
    || (blocker == SourceGuarded && w.guard(parent.base.coord) == Some(parent.base.coord))
    || parent.base.action == BlockingVisit
    || parent.base.action == Visit
  }

  /** CVCAIHeroChainConfig::apply on a node value: the node `parentIndex` leads to it. */
  function ApplyNode(w: World, node: HeroNode, turns: int, remains: int, destAction: NodeAction,
                     parent: HeroNode, parentIndex: nat, blocker: NodeBlocker): (r: HeroNode)
    ensures r.base.coord == node.base.coord && r.base.layer == node.base.layer
    ensures r.base.accessible == node.base.accessible && r.before == node.before
    ensures r.mask == node.mask && r.actorNumber == node.actorNumber
    ensures BaseValid(r.base)
  {
    node.(base := node.base.(moveRemains := U32(remains), turns := U8(turns), action := destAction),
          previousActor := if HandOff(w, parent, blocker) then Some(parentIndex) else parent.previousActor,
          armyValue := parent.armyValue,
          armyLoss := parent.armyLoss)
  }

  /**
   * apply's two assertions, as the caller must guarantee them: the parent has
   * an army, and the node does not end up as its own previous actor.
   */
  predicate ApplyAllowed(w: World, nodeIndex: nat, parent: HeroNode, parentIndex: nat, blocker: NodeBlocker)
  {
    && parent.armyValue > 0
    && (if HandOff(w, parent, blocker) then parentIndex != nodeIndex else parent.previousActor != Some(nodeIndex))
  }

  /**
   * The chain takes over the parent's army and loss; the previous actor is
   * the parent exactly when the parent must be dealt with first, otherwise
   * the parent's own; and apply's assertions then hold.
   */
  lemma ApplyHandsOff(w: World, node: HeroNode, nodeIndex: nat, turns: int, remains: int, destAction: NodeAction,
                      parent: HeroNode, parentIndex: nat, blocker: NodeBlocker)
    requires ApplyAllowed(w, nodeIndex, parent, parentIndex, blocker)
    ensures var r := ApplyNode(w, node, turns, remains, destAction, parent, parentIndex, blocker);
      && r.armyValue == parent.armyValue && r.armyLoss == parent.armyLoss
      && (HandOff(w, parent, blocker) ==> r.previousActor == Some(parentIndex))
      && (!HandOff(w, parent, blocker) ==> r.previousActor == parent.previousActor)
      && r.armyValue > 0 && r.previousActor != Some(nodeIndex)
      && (0 <= remains < TwoTo32 ==> r.base.moveRemains == remains)
      && (0 <= turns < TwoTo8 ==> r.base.turns == turns)
  {
  }

  // ---------------------------------------------------------------------
  // tryBypassBlocker's guard tests

  /** The object kinds a chain may pick up on its way through a blocking tile. */
  predicate Pickable(k: ObjKind)
  {
    k == Resource || k == Artifact || k == TreasureChest || k == SeaChest || k == Campfire || k == PandorasBox
  }

  /** A monster guarding both tiles that stands on neither: leaving the source still means a fight. */
  predicate GuardCutsOff(srcGuards: seq<Obj>, destGuards: seq<Obj>, s: Coord, d: Coord)
  {
    exists k :: 0 <= k < |srcGuards| && srcGuards[k] in destGuards &&
      srcGuards[k].visitablePos != s && srcGuards[k].visitablePos != d
  }

  /** The destination's guards after erasing those that also guard the source. */
  function Unshared(destGuards: seq<Obj>, srcGuards: seq<Obj>): (r: seq<Obj>)
    ensures forall g :: g in r <==> g in destGuards && g !in srcGuards
  {
    if destGuards == [] then []
    else if destGuards[0] in srcGuards then Unshared(destGuards[1..], srcGuards)
    else [destGuards[0]] + Unshared(destGuards[1..], srcGuards)
  }

  /** guardsAlreadyBypassed: the source has guards, and they include every guard of the destination. */
  predicate GuardsBypassed(destGuards: seq<Obj>, srcGuards: seq<Obj>)
  {
    |Unshared(destGuards, srcGuards)| == 0 && |srcGuards| > 0
  }

  lemma GuardsBypassedMeansShared(destGuards: seq<Obj>, srcGuards: seq<Obj>)
    ensures GuardsBypassed(destGuards, srcGuards) <==>
      (forall g :: g in destGuards ==> g in srcGuards) && |srcGuards| > 0
  {
    var u := Unshared(destGuards, srcGuards);
    if |u| > 0 {
      assert u[0] in u;
    }
  }

  /** The battle slot after the fight is won: apply from the source, then the loss taken off the army. */
  function Fought(w: World, node: HeroNode, d: HeroNode, so: HeroNode, src: nat, loss: int): (r: HeroNode)
    requires BaseValid(d.base)
  {
    ApplyNode(w, node, d.base.turns, I32(d.base.moveRemains), d.base.action, so, src, DestinationGuarded)
      .(armyLoss := so.armyLoss + loss, armyValue := so.armyValue - loss)
  }

  /**
   * The fight tryBypassBlocker arranges at a guarded destination `d`, on the
   * ten slots of d's cell: the chain claims the battle slot (d's mask with
   * BATTLE_NODE), and takes it, with the loss deducted, when the source
   * survives the fight with more army than the slot holds and the route is
   * better. The result is the slot taken, if any, and the cell afterwards.
   */
  function BattleOnCell(w: World, so: HeroNode, src: nat, d: HeroNode, cell: seq<HeroNode>, loss: int)
    : (r: (Option<nat>, seq<HeroNode>))
    requires BaseValid(d.base)
    ensures |r.1| == |cell|
  {
    var m := WithBattle(d.mask);
    var claimed := Allocated(cell, m, d.actorNumber);
    match AllocSlot(cell, m, d.actorNumber, 0)
    case Some(k) =>
      if so.armyValue > loss && claimed[k].armyValue < so.armyValue - loss
         && ChainIsBetterWay(claimed[k], so, I32(d.base.moveRemains), d.base.turns)
      then (Some(k), claimed[k := Fought(w, claimed[k], d, so, src, loss)])
      else (None, claimed)
    case None => (None, claimed)
  }

  /**
   * A won fight leaves the battle slot holding the battle chain with the
   * source's army less the loss, still positive, and its loss added; every
   * other slot only sees the claim. When no slot is taken the cell only sees
   * the claim. A slot is taken only if the claim found one.
   */
  lemma BattleOnCellOutcome(w: World, so: HeroNode, src: nat, d: HeroNode, cell: seq<HeroNode>, loss: int)
    requires BaseValid(d.base)
    ensures var r := BattleOnCell(w, so, src, d, cell, loss);
      var m := WithBattle(d.mask);
      var claimed := Allocated(cell, m, d.actorNumber);
      match r.0
      case Some(k) =>
        && AllocSlot(cell, m, d.actorNumber, 0) == Some(k)
        && k < |cell| && Holds(r.1[k], m, d.actorNumber)
        && r.1[k].armyValue == so.armyValue - loss > 0 && r.1[k].armyLoss == so.armyLoss + loss
        && r.1[k].armyValue > claimed[k].armyValue
        && r.1[k].base.moveRemains == d.base.moveRemains && r.1[k].base.turns == d.base.turns
        && (forall j :: 0 <= j < |cell| && j != k ==> r.1[j] == claimed[j])
      case None => r.1 == claimed
  {
    AllocationResult(cell, WithBattle(d.mask), d.actorNumber);
  }

  /**
   * BattleOnCell on the cell of `dest` in the table: `before` and `after`
   * are the table, `src` and `dest` slot indices, r the slot taken.
   */
  ghost predicate BattleDone(w: World, s: Coord, before: seq<HeroNode>, after: seq<HeroNode>,
                             src: nat, dest: nat, loss: int, r: Option<nat>)
    requires SizesValid(s) && |before| == NodeCount(s) * ChainLimit
    requires src < |before| && dest < |before|
    requires before[dest].base.layer != Wrong && InBounds(s, before[dest].base.coord) && BaseValid(before[dest].base)
  {
    var d := before[dest];
    var b := CellStart(s, d.base.coord, d.base.layer);
    var o := BattleOnCell(w, before[src], src, d, before[b..b + ChainLimit], loss);
    r == Offset(o.0, b) && after == Splice(before, b, o.1)
  }

  /**
   * apply's assertions for the fight at `dest`, on the one slot the battle
   * claim of dest's cell hands back (if any): the source may be anywhere
   * else, its previous actor included.
   */
  predicate BattleApplyAllowed(w: World, s: Coord, t: seq<HeroNode>, src: nat, dest: nat)
    requires SizesValid(s) && |t| == NodeCount(s) * ChainLimit && src < |t| && dest < |t|
  {
    var d := t[dest];
    d.base.layer != Wrong && InBounds(s, d.base.coord) ==>
      var b := CellStart(s, d.base.coord, d.base.layer);
      var slot := AllocSlot(t[b..b + ChainLimit], WithBattle(d.mask), d.actorNumber, 0);
      slot.Some? ==> ApplyAllowed(w, b + slot.value, t[src], src, DestinationGuarded)
  }

  /**
   * After the claim, the table is the claimed cell spliced in; the fight is
   * not taken (no slot, or it does not pay) exactly as BattleOnCell says.
   */
  lemma FightSetUp(w: World, s: Coord, before: seq<HeroNode>, t: seq<HeroNode>,
                   src: nat, dest: nat, loss: int, b: int, cell: seq<HeroNode>, r: Option<nat>)
    requires SizesValid(s) && |before| == NodeCount(s) * ChainLimit
    requires src < |before| && dest < |before|
    requires before[dest].base.layer != Wrong && InBounds(s, before[dest].base.coord) && BaseValid(before[dest].base)
    requires var d := before[dest];
      && b == CellStart(s, d.base.coord, d.base.layer)
      && cell == before[b..b + ChainLimit]
      && t == Splice(before, b, Allocated(cell, WithBattle(d.mask), d.actorNumber))
      && r == Offset(AllocSlot(cell, WithBattle(d.mask), d.actorNumber, 0), b)
    ensures r.Some? ==> b <= r.value < b + ChainLimit
    ensures var so := before[src];
      var d := before[dest];
      (r.None? || !(so.armyValue > loss && t[r.value].armyValue < so.armyValue - loss
                    && ChainIsBetterWay(t[r.value], so, I32(d.base.moveRemains), d.base.turns)))
      ==> BattleDone(w, s, before, t, src, dest, loss, None)
  {
  }

  /** The fight is taken: writing the fought slot completes BattleDone. */
  lemma FightWon(w: World, s: Coord, before: seq<HeroNode>, t: seq<HeroNode>,
                 src: nat, dest: nat, loss: int, b: int, cell: seq<HeroNode>, r: Option<nat>, v: HeroNode)
    requires SizesValid(s) && |before| == NodeCount(s) * ChainLimit
    requires src < |before| && dest < |before|
    requires before[dest].base.layer != Wrong && InBounds(s, before[dest].base.coord) && BaseValid(before[dest].base)
    requires var d := before[dest];
      && b == CellStart(s, d.base.coord, d.base.layer)
      && cell == before[b..b + ChainLimit]
      && t == Splice(before, b, Allocated(cell, WithBattle(d.mask), d.actorNumber))
      && r == Offset(AllocSlot(cell, WithBattle(d.mask), d.actorNumber, 0), b)
    requires r.Some? && r.value < |t|
    requires var so := before[src];
      var d := before[dest];
      && so.armyValue > loss && t[r.value].armyValue < so.armyValue - loss
      && ChainIsBetterWay(t[r.value], so, I32(d.base.moveRemains), d.base.turns)
      && v == Fought(w, t[r.value], d, so, src, loss)
    ensures BattleDone(w, s, before, t[r.value := v], src, dest, loss, r)
  {
    var d := before[dest];
    var claimed := Allocated(cell, WithBattle(d.mask), d.actorNumber);
    var k := r.value - b;
    assert t[r.value] == claimed[k];
    SpliceWrite(before, b, claimed, k, v);
    assert BattleOnCell(w, before[src], src, d, cell, loss) == (Some(k), claimed[k := v]);
  }

  // ---------------------------------------------------------------------
  // CVCAIHeroChainConfig

  class ChainConfig {
    /** actors: the heroes the chains are built from, by actor number. */
    var actors: seq<Hero>
    /** The game state the callbacks query. */
    const w: World

    constructor (world: World)
      ensures actors == [] && w == world
    {
      actors := [];
      w := world;
    }

    method AddHero(h: Hero)
      modifies this
      ensures actors == old(actors) + [h]
    {
      actors := actors + [h];
    }

    method Reset()
      modifies this
      ensures actors == []
    {
      actors := [];
    }

    /** getNodeHero: the hero behind a node's actor number. */
    function GetNodeHero(paths: ChainInfo, source: nat): (h: Hero)
      reads this, paths, paths.nodes
      requires source < paths.nodes.Length && 0 <= paths.nodes[source].actorNumber < |actors|
      ensures h in actors
    {
      actors[paths.nodes[source].actorNumber]
    }

    /** allocateHeroNode: the slot of (c, l) for the chain (mask, actor), claiming a free one if needed. */
    method AllocateHeroNode(paths: ChainInfo, c: Coord, l: Layer, mask: Mask, actor: int) returns (r: Option<nat>)
      requires paths.Valid() && InBounds(paths.sizes, c) && l != Wrong
      modifies paths.nodes
      ensures paths.Valid()
      ensures paths.nodes[..] ==
        Splice(old(paths.nodes[..]), CellStart(paths.sizes, c, l), Allocated(old(paths.Cell(c, l)), mask, actor))
      ensures r == Offset(AllocSlot(old(paths.Cell(c, l)), mask, actor, 0), CellStart(paths.sizes, c, l))
    {
      var b := CellStart(paths.sizes, c, l);
      ghost var t := paths.nodes[..];
      var i := ScanHeroCell(paths, b, mask, actor);
      if i == ChainLimit {
        AllocNotFound(t, b, mask, actor);
        return None;
      }
      var n := paths.nodes[b + i];
      AllocFound(t, b, mask, actor, i);
      if !IsInUse(n) && n.base.accessible != NotSet {
        var m := n.(mask := mask, actorNumber := actor);
        ClaimShaped(paths.sizes, t, b + i, mask, actor);
        paths.nodes[b + i] := m;
        assert paths.nodes[..] == t[b + i := m];
      }
      return Some(b + i);
    }

    /** The scan of allocateHeroNode over the cell from b: the first slot that is free or already the chain's, or ChainLimit. */
    method ScanHeroCell(paths: ChainInfo, b: int, mask: Mask, actor: int) returns (i: nat)
      requires paths.Valid() && 0 <= b && b + ChainLimit <= paths.nodes.Length
      ensures i <= ChainLimit
      ensures AllocSlot(paths.nodes[..][b..b + ChainLimit], mask, actor, i) == AllocSlot(paths.nodes[..][b..b + ChainLimit], mask, actor, 0)
      ensures i < ChainLimit ==> b + i < paths.nodes.Length && (Claimable(paths.nodes[b + i]) || Holds(paths.nodes[b + i], mask, actor))
    {
      ghost var cell := paths.nodes[..][b..b + ChainLimit];
      i := 0;
      while i < ChainLimit
        invariant 0 <= i <= ChainLimit
        invariant AllocSlot(cell, mask, actor, i) == AllocSlot(cell, mask, actor, 0)
      {
        var n := paths.nodes[b + i];
        assert n == cell[i];
        if !IsInUse(n) && n.base.accessible != NotSet {
          return;
        }
        if n.mask == mask && n.actorNumber == actor {
          return;
        }
        i := i + 1;
      }
    }

    /**
     * getNextNodes: the chain of `source` moving to (targetTile, layer). A
     * chain of several heroes stops after its second turn; otherwise it
     * claims its slot there, and offers it unless shouldCancelNode, with
     * its written test, cancels it.
     */
    method GetNextNodes(paths: ChainInfo, source: nat, targetTile: Coord, layer: Layer) returns (result: seq<nat>)
      requires paths.Valid() && source < paths.nodes.Length
      requires IsInUse(paths.nodes[source])
      requires 0 <= paths.nodes[source].actorNumber < 31 && paths.nodes[source].actorNumber < |actors|
      requires InBounds(paths.sizes, targetTile) && layer != Wrong
      modifies paths.nodes
      ensures paths.Valid() && |result| <= 1
      ensures var src := old(paths.nodes[source]);
        var b := CellStart(paths.sizes, targetTile, layer);
        var cell := old(paths.Cell(targetTile, layer));
        var slot := AllocSlot(cell, src.mask, src.actorNumber, 0);
        var now := Allocated(cell, src.mask, src.actorNumber);
        if src.base.turns > 1 && !SingleHero(src) then
          result == [] && paths.nodes[..] == old(paths.nodes[..])
        else
          && paths.nodes[..] == Splice(old(paths.nodes[..]), b, now)
          && (slot.None? ==> result == [])
          && (slot.Some? ==>
                && Holds(now[slot.value], src.mask, src.actorNumber)
                && result == (if ShouldCancelAsWritten(now, now[slot.value]) then [] else [b + slot.value]))
    {
      var src := paths.nodes[source];
      if src.base.turns > 1 && !(ClearBattle(src.mask) == ActorBit(src.actorNumber)) {
        return [];
      }
      result := ClaimNext(paths, src, targetTile, layer);
    }

    /** The second half of getNextNodes: claim the slot of src's chain on (targetTile, layer) and offer it unless cancelled. */
    method ClaimNext(paths: ChainInfo, src: HeroNode, targetTile: Coord, layer: Layer) returns (result: seq<nat>)
      requires paths.Valid() && IsInUse(src)
      requires 0 <= src.actorNumber < 31 && src.actorNumber < |actors|
      requires InBounds(paths.sizes, targetTile) && layer != Wrong
      modifies paths.nodes
      ensures paths.Valid() && |result| <= 1
      ensures var b := CellStart(paths.sizes, targetTile, layer);
        var cell := old(paths.Cell(targetTile, layer));
        var slot := AllocSlot(cell, src.mask, src.actorNumber, 0);
        var now := Allocated(cell, src.mask, src.actorNumber);
        && paths.nodes[..] == Splice(old(paths.nodes[..]), b, now)
        && (slot.None? ==> result == [])
        && (slot.Some? ==>
              && Holds(now[slot.value], src.mask, src.actorNumber)
              && result == (if ShouldCancelAsWritten(now, now[slot.value]) then [] else [b + slot.value]))
    {
      ghost var cell := paths.Cell(targetTile, layer);
      ghost var t := paths.nodes[..];
      var heroNode := AllocateHeroNode(paths, targetTile, layer, src.mask, src.actorNumber);
      if heroNode.None? {
        return [];
      }
      AllocationResult(cell, src.mask, src.actorNumber);
      var h := heroNode.value;
      ghost var b := CellStart(paths.sizes, targetTile, layer);
      ghost var k := h - b;
      ghost var now := Allocated(cell, src.mask, src.actorNumber);
      assert paths.Cell(targetTile, layer) == now;
      assert paths.nodes[h] == now[k];
      assert IsInUse(now[k]);
      ShapedAt(paths.sizes, t, h);
      ShapedAt(paths.sizes, paths.nodes[..], h);
      SlotOfCell(paths.sizes, paths.nodes[h], h, targetTile, layer);
      var cancel := ShouldCancelNode(paths, h);
      if !cancel {
        result := [h];
      } else {
        result := [];
      }
    }

    /** updateNode: every slot of (coord, layer) updated with the new accessibility. */
    method UpdateNode(paths: ChainInfo, c: Coord, l: Layer, acc: Accessibility)
      requires paths.Valid() && InBounds(paths.sizes, c) && l != Wrong
      modifies paths.nodes
      ensures paths.Valid()
      ensures paths.nodes[..] ==
        Splice(old(paths.nodes[..]), CellStart(paths.sizes, c, l), UpdatedCell(old(paths.Cell(c, l)), c, l, acc))
    {
      var b := CellStart(paths.sizes, c, l);
      for i := 0 to ChainLimit
        invariant forall j :: b <= j < b + i ==> paths.nodes[j] == UpdateHeroNode(old(paths.nodes[j]), c, l, acc)
        invariant forall j :: 0 <= j < paths.nodes.Length && !(b <= j < b + i) ==>
          paths.nodes[j] == old(paths.nodes[j])
      {
        paths.nodes[b + i] := UpdateHeroNode(paths.nodes[b + i], c, l, acc);
      }
      UpdateKeepsShape(paths.sizes, old(paths.nodes[..]), paths.nodes[..], c, l, acc);
    }

    /** apply(node, turns, remains, destAction, parent, blocker). */
    method Apply(paths: ChainInfo, node: nat, turns: int, remains: int, destAction: NodeAction,
                 parent: nat, blocker: NodeBlocker)
      requires paths.Valid() && node < paths.nodes.Length && parent < paths.nodes.Length
      requires ApplyAllowed(w, node, paths.nodes[parent], parent, blocker)
      modifies paths.nodes
      ensures paths.Valid()
      ensures paths.nodes[..] == old(paths.nodes[..])[node :=
        ApplyNode(w, old(paths.nodes[node]), turns, remains, destAction, old(paths.nodes[parent]), parent, blocker)]
      ensures paths.nodes[node].armyValue > 0 && paths.nodes[node].previousActor != Some(node)
    {
      var p := paths.nodes[parent];
      var n := paths.nodes[node];
      ShapedAt(paths.sizes, paths.nodes[..], node);
      ApplyHandsOff(w, n, node, turns, remains, destAction, p, parent, blocker);
      var m := n.(base := n.base.(moveRemains := U32(remains), turns := U8(turns), action := destAction),
                  previousActor := p.previousActor, armyValue := p.armyValue, armyLoss := p.armyLoss);
      if blocker == SourceGuarded {
        var srcGuardian := w.guard(p.base.coord);
        if srcGuardian == Some(p.base.coord) {
          m := m.(previousActor := Some(parent));
        }
      }
      if p.base.action == BlockingVisit || p.base.action == Visit {
        m := m.(previousActor := Some(parent));
      }
      ShapedWrite(paths.sizes, paths.nodes[..], node, m);
      paths.nodes[node] := m;
    }

    /** The source guard loop of tryBypassBlocker: is some shared guard standing off both tiles? */
    method FindCuttingGuard(srcGuards: seq<Obj>, destGuards: seq<Obj>, s: Coord, d: Coord) returns (cut: bool)
      ensures cut == GuardCutsOff(srcGuards, destGuards, s, d)
    {
      var i := 0;
      while i < |srcGuards|
        invariant 0 <= i <= |srcGuards|
        invariant forall k :: 0 <= k < i ==>
          !(srcGuards[k] in destGuards && srcGuards[k].visitablePos != s && srcGuards[k].visitablePos != d)
      {
        var g := srcGuards[i];
        if g in destGuards {
          var guardPos := g.visitablePos;
          if guardPos != s && guardPos != d {
            return true;
          }
        }
        i := i + 1;
      }
      return false;
    }

    /** The DESTINATION_GUARDED fight of tryBypassBlocker, once no shortcut applies. */
    method Battle(paths: ChainInfo, source: nat, dest: nat, loss: int) returns (r: Option<nat>)
      requires paths.Valid() && source < paths.nodes.Length && dest < paths.nodes.Length
      requires paths.nodes[dest].base.layer != Wrong
      requires paths.nodes[source].armyValue > 0
      requires BattleApplyAllowed(w, paths.sizes, paths.nodes[..], source, dest)
      modifies paths.nodes
      ensures paths.Valid()
      ensures SlotShaped(paths.sizes, old(paths.nodes[dest]), dest)
      ensures BattleDone(w, paths.sizes, old(paths.nodes[..]), paths.nodes[..], source, dest, loss, r)
    {
      var so := paths.nodes[source];
      var d := paths.nodes[dest];
      ShapedAt(paths.sizes, paths.nodes[..], dest);
      var b := CellStart(paths.sizes, d.base.coord, d.base.layer);
      ghost var before := paths.nodes[..];
      ghost var cell := paths.Cell(d.base.coord, d.base.layer);
      var battleNode := AllocateHeroNode(paths, d.base.coord, d.base.layer, WithBattle(d.mask), d.actorNumber);
      ghost var claimed := Allocated(cell, WithBattle(d.mask), d.actorNumber);
      FightSetUp(w, paths.sizes, before, paths.nodes[..], source, dest, loss, b, cell, battleNode);
      if battleNode.Some? {
        var bn := paths.nodes[battleNode.value];
        if so.armyValue > loss && bn.armyValue < so.armyValue - loss
          && ChainIsBetterWay(bn, so, I32(d.base.moveRemains), d.base.turns)
        {
          // apply(battleNode, dest->turns, dest->moveRemains, dest->action, source, blocker), then the loss
          assert ApplyAllowed(w, battleNode.value, so, source, DestinationGuarded);
          var fought := Fought(w, bn, d, so, source, loss);
          ghost var t := paths.nodes[..];
          FightWon(w, paths.sizes, before, t, source, dest, loss, b, cell, battleNode, fought);
          ShapedAt(paths.sizes, t, battleNode.value);
          ShapedWrite(paths.sizes, t, battleNode.value, fought);
          paths.nodes[battleNode.value] := fought;
          assert paths.nodes[..] == t[battleNode.value := fought];
          return battleNode;
        }
      }
      return None;
    }

    /**
     * tryBypassBlocker: whether the chain of `source` may still enter `dest`
     * although the move is blocked, and through which node.
     */
    method TryBypassBlocker(paths: ChainInfo, source: nat, dest: nat, blocker: NodeBlocker) returns (r: Option<nat>)
      requires paths.Valid() && source < paths.nodes.Length && dest < paths.nodes.Length
      requires 0 <= paths.nodes[source].actorNumber < |actors|
      requires paths.nodes[dest].base.layer != Wrong
      requires paths.nodes[source].armyValue > 0
      requires blocker == DestinationGuarded ==> BattleApplyAllowed(w, paths.sizes, paths.nodes[..], source, dest)
      modifies paths.nodes
      ensures paths.Valid()
      ensures var so := old(paths.nodes[source]);
        var d := old(paths.nodes[dest]);
        var srcGuards := w.guardians(so.base.coord);
        var destGuards := w.guardians(d.base.coord);
        var top := w.topObj(d.base.coord);
        var same := paths.nodes[..] == old(paths.nodes[..]);
        match blocker
        case DestinationBlockvis =>
          same && r == (if top.Some? && Pickable(top.value.kind) then Some(dest) else None)
        case DestinationVisit =>
          same && r == Some(dest)
        case SourceGuarded =>
          && same
          && r == (if HasBattle(so.mask) && !GuardCutsOff(srcGuards, destGuards, so.base.coord, d.base.coord)
                   then Some(dest) else None)
        case DestinationGuarded =>
          if |destGuards| == 0 then same && r == None
          else if GuardsBypassed(destGuards, srcGuards) && HasBattle(so.mask) then same && r == Some(dest)
          else
            && SlotShaped(paths.sizes, d, dest)
            && BattleDone(w, paths.sizes, old(paths.nodes[..]), paths.nodes[..], source, dest,
                          w.evaluateLoss(actors[so.actorNumber].id, d.base.coord, so.armyValue), r)
        case NoBlocker =>
          same && r == None
    {
      var hero := GetNodeHero(paths, source);
      var so := paths.nodes[source];
      var d := paths.nodes[dest];
      if blocker == DestinationBlockvis {
        var obj := w.topObj(d.base.coord);
        if obj.None? {
          return None;
        }
        if Pickable(obj.value.kind) {
          return Some(dest);
        }
      }
      if blocker == DestinationVisit {
        return Some(dest);
      }
      if blocker == SourceGuarded && HasBattle(so.mask) {
        var srcGuards := w.guardians(so.base.coord);
        var destGuards := w.guardians(d.base.coord);
        var cut := FindCuttingGuard(srcGuards, destGuards, so.base.coord, d.base.coord);
        if cut {
          return None;
        }
        return Some(dest);
      }
      if blocker == DestinationGuarded {
        var srcGuards := w.guardians(so.base.coord);
        var destGuards := w.guardians(d.base.coord);
        if |destGuards| == 0 {
          return None;
        }
        var remaining := Unshared(destGuards, srcGuards);
        var guardsAlreadyBypassed := |remaining| == 0 && |srcGuards| > 0;
        if guardsAlreadyBypassed && HasBattle(so.mask) {
          return Some(dest);
        }
        var loss := w.evaluateLoss(hero.id, d.base.coord, so.armyValue);
        r := Battle(paths, source, dest, loss);
        return r;
      }
      return None;
    }

    /**
     * getInitialNodes: actor i takes its hero's start node with the mask
     * `1 << i`, the hero's points and army, turn 0 and no loss. The source
     * dereferences the slot unchecked; here a missing slot ends with !ok.
     */
    method GetInitialNodes(paths: ChainInfo) returns (ok: bool, result: seq<nat>)
      requires paths.Valid() && |actors| <= 31
      requires forall i :: 0 <= i < |actors| ==> InBounds(paths.sizes, actors[i].position)
      modifies paths.nodes
      ensures paths.Valid()
      ensures ok ==>
        && |result| == |actors|
        && forall i :: 0 <= i < |actors| ==> StartSlot(paths.nodes[..], actors[i], i, result[i])
      ensures !ok ==>
        exists i :: 0 <= i < |actors| &&
          AllocSlot(paths.Cell(actors[i].position, InitialLayer(actors[i])), ActorBit(i), i, 0).None?
      ensures forall k :: 0 <= k < paths.nodes.Length && k !in result ==> paths.nodes[k] == old(paths.nodes[k])
    {
      result := [];
      var i := 0;
      while i < |actors|
        invariant 0 <= i <= |actors|
        invariant paths.Valid()
        invariant StartedSlots(paths.nodes[..], actors[..i], result)
        invariant forall k :: 0 <= k < paths.nodes.Length && k !in result ==> paths.nodes[k] == old(paths.nodes[k])
      {
        var h := StartActor(paths, i, result);
        if h.None? {
          return false, result;
        }
        assert actors[..i + 1] == actors[..i] + [actors[i]];
        result := result + [h.value];
        i := i + 1;
      }
      assert actors[..i] == actors;
      return true, result;
    }

    /**
     * One round of getInitialNodes' loop: actor i claims its start slot and
     * starts it, keeping the earlier actors' slots; when no slot is found
     * the table is unchanged.
     */
    method StartActor(paths: ChainInfo, i: nat, ghost result: seq<nat>) returns (h: Option<nat>)
      requires paths.Valid() && i < |actors| && i < 31
      requires InBounds(paths.sizes, actors[i].position)
      requires StartedSlots(paths.nodes[..], actors[..i], result)
      modifies paths.nodes
      ensures paths.Valid()
      ensures h.None? ==>
        && paths.nodes[..] == old(paths.nodes[..])
        && AllocSlot(paths.Cell(actors[i].position, InitialLayer(actors[i])), ActorBit(i), i, 0).None?
      ensures h.Some? ==>
        && h.value < paths.nodes.Length && h.value !in result
        && StartedSlots(paths.nodes[..], actors[..i] + [actors[i]], result + [h.value])
        && forall k :: 0 <= k < paths.nodes.Length && k != h.value ==> paths.nodes[k] == old(paths.nodes[k])
    {
      var hero := actors[i];
      var layer := InitialLayer(hero);
      ghost var cell := paths.Cell(hero.position, layer);
      ghost var prev := paths.nodes[..];
      var heroNode := AllocateHeroNode(paths, hero.position, layer, ActorBit(i), i);
      if heroNode.None? {
        assert paths.Cell(hero.position, layer) == cell;
        SpliceSelf(prev, CellStart(paths.sizes, hero.position, layer), ChainLimit);
        assert paths.nodes[..] == prev;
        return None;
      }
      var k := heroNode.value;
      Started(paths.sizes, prev, paths.nodes[..], actors[..i], result, hero, i, k);
      var n := paths.nodes[k];
      var started := n.(base := n.base.(moveRemains := U32(hero.movement), turns := 0),
                        armyValue := hero.armyStrength, armyLoss := 0);
      ghost var t := paths.nodes[..];
      ShapedWrite(paths.sizes, t, k, started);
      paths.nodes[k] := started;
      assert paths.nodes[..] == t[k := started];
      StartedExtend(t, actors[..i], result, hero, k, started);
      return Some(k);
    }
  }

  /**
   * Slot k of table t is actor i's starting node: of the hero's start tile
   * and layer, with the actor's mask, the hero's points and army, turn 0 and
   * no loss.
   */
  predicate StartSlot(t: seq<HeroNode>, h: Hero, i: nat, k: nat)
  {
    && k < |t|
    && var n := t[k];
    && n.base.coord == h.position && n.base.layer == InitialLayer(h)
    && i < 31 && n.mask == ActorBit(i) && n.actorNumber == i
    && n.base.moveRemains == U32(h.movement) && n.base.turns == 0
    && n.armyValue == h.armyStrength && n.armyLoss == 0
  }

  /**
   * One step of getInitialNodes: after allocating actor i's slot h, the
   * earlier actors' starting slots are untouched and h is none of them, and
   * h is a node of the hero's start tile and layer, and the only slot the
   * allocation may change.
   */
  lemma Started(s: Coord, prev: seq<HeroNode>, t: seq<HeroNode>, earlier: seq<Hero>, result: seq<nat>,
                hero: Hero, i: nat, h: nat)
    requires SizesValid(s) && |prev| == NodeCount(s) * ChainLimit && TableShaped(s, prev) && TableShaped(s, t)
    requires InBounds(s, hero.position) && i < 31 && |earlier| == |result| == i
    requires StartedSlots(prev, earlier, result)
    requires var b := CellStart(s, hero.position, InitialLayer(hero));
      var cell := prev[b..b + ChainLimit];
      var slot := AllocSlot(cell, ActorBit(i), i, 0);
      && t == Splice(prev, b, Allocated(cell, ActorBit(i), i))
      && slot.Some? && h == b + slot.value
    ensures h < |t| && Holds(t[h], ActorBit(i), i)
    ensures t[h].base.coord == hero.position && t[h].base.layer == InitialLayer(hero)
    ensures StartedSlots(t, earlier, result) && h !in result
    ensures forall j :: 0 <= j < |t| && j != h ==> t[j] == prev[j]
  {
    var b := CellStart(s, hero.position, InitialLayer(hero));
    var cell := prev[b..b + ChainLimit];
    AllocationResult(cell, ActorBit(i), i);
    var k := h - b;
    assert t[h] == Allocated(cell, ActorBit(i), i)[k];
    ShapedAt(s, t, h);
    SlotOfCell(s, t[h], h, hero.position, InitialLayer(hero));
    forall q | 0 <= q < i
      ensures result[q] != h && StartSlot(t, earlier[q], q, result[q])
    {
      var j := result[q];
      assert StartSlot(prev, earlier[q], q, j);
      assert IsInUse(prev[j]);
      if b <= j < b + ChainLimit {
        assert prev[j] == cell[j - b];
      }
      assert t[j] == prev[j];
    }
  }

  /** Actors 0 .. |heroes| - 1 have their starting slots, at the indices in result. */
  ghost predicate StartedSlots(t: seq<HeroNode>, heroes: seq<Hero>, result: seq<nat>)
  {
    |result| == |heroes| && forall q :: 0 <= q < |heroes| ==> StartSlot(t, heroes[q], q, result[q])
  }

  /** Writing the next actor's starting slot, away from the others, keeps theirs. */
  lemma StartedExtend(t: seq<HeroNode>, heroes: seq<Hero>, result: seq<nat>, hero: Hero, h: nat, n: HeroNode)
    requires StartedSlots(t, heroes, result) && h !in result && h < |t|
    requires StartSlot(t[h := n], hero, |heroes|, h)
    ensures StartedSlots(t[h := n], heroes + [hero], result + [h])
  {
    forall q | 0 <= q < |heroes|
      ensures StartSlot(t[h := n], (heroes + [hero])[q], q, (result + [h])[q])
    {
      assert StartSlot(t, heroes[q], q, result[q]);
      assert result[q] != h;
    }
  }

}
