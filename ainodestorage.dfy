/**
 * AINodeStorage (AI/VCAI/Pathfinding/AINodeStorage.cpp): the AI's own store
 * of chain slots, NUM_CHAINS of them per (x, y, level, layer) node. A slot
 * belongs to the chain whose mask it carries; mask 0 marks a free slot.
 *
 * The AIPathNode record and the NORMAL_CHAIN, CAST_CHAIN, BATTLE_CHAIN and
 * NUM_CHAINS constants are declared in AINodeStorage.h, which is not part of
 * this model; the constants are therefore fields fixed at construction.
 */
module AINodes {
  import opened PathTypes
  import opened GameWorld

  // ---------------------------------------------------------------------
  // Bitwise operations on chain masks

  /** `a | b` on non-negative masks, bit by bit from the lowest. */
  function BitOr(a: nat, b: nat): (r: nat)
    ensures r == 0 <==> a == 0 && b == 0
    ensures r >= a && r >= b
    decreases a + b
  {
    if a == 0 then b
    else if b == 0 then a
    else 2 * BitOr(a / 2, b / 2) + (if a % 2 == 1 || b % 2 == 1 then 1 else 0)
  }

  /** `a & b` on non-negative masks, bit by bit from the lowest. */
  function BitAnd(a: nat, b: nat): (r: nat)
    ensures r <= a && r <= b
    decreases a + b
  {
    if a == 0 || b == 0 then 0
    else 2 * BitAnd(a / 2, b / 2) + (if a % 2 == 1 && b % 2 == 1 then 1 else 0)
  }

  lemma {:induction false} BitAndSelf(a: nat)
    ensures BitAnd(a, a) == a
    decreases a
  {
    if a != 0 {
      BitAndSelf(a / 2);
    }
  }

  /** `m | c` carries every bit of `c`: `(m | c) & c == c`. */
  lemma {:induction false} BitOrKeeps(m: nat, c: nat)
    ensures BitAnd(BitOr(m, c), c) == c
    decreases m + c
  {
    if m == 0 {
      BitAndSelf(c);
    } else if c != 0 {
      var o := BitOr(m, c);
      BitOrKeeps(m / 2, c / 2);
      assert o / 2 == BitOr(m / 2, c / 2) && o % 2 == (if m % 2 == 1 || c % 2 == 1 then 1 else 0);
    }
  }

  /** A bit of `b` that `a` has survives `a | c`. */
  lemma {:induction false} BitOrKeepsShared(a: nat, c: nat, b: nat)
    requires BitAnd(a, b) > 0
    ensures BitAnd(BitOr(a, c), b) > 0
    decreases a + c + b
  {
    var o := BitOr(a, c);
    if c != 0 {
      assert o / 2 == BitOr(a / 2, c / 2) && o % 2 == (if a % 2 == 1 || c % 2 == 1 then 1 else 0);
      if !(a % 2 == 1 && b % 2 == 1) {
        BitOrKeepsShared(a / 2, c / 2, b / 2);
      }
    }
  }

  // ---------------------------------------------------------------------
  // AIPathNode

  /** ISpecialAction: the only special action this store creates is a town portal to a town. */
  datatype SpecialAction = TownPortal(town: nat)

  /**
   * AIPathNode: a CGPathNode (position, layer, accessibility, action, points,
   * turns, lock, predecessor) with the chain mask, the danger met on the way,
   * the mana spent and the special action that leads into it.
   */
  datatype AINode = AINode(
    node: PathNode,
    chainMask: nat,
    danger: nat,        // ui64
    manaCost: int,
    special: Option<SpecialAction>)

  /** A slot as the table's resize leaves it: CGPathNode() and everything else zero. */
  const DefaultAINode: AINode := AINode(DefaultPathNode, 0, 0, 0, None)

  /** The slot belongs to the chain `m`, or is free for it to take. */
  predicate Fits(n: AINode, m: nat) { n.chainMask == m || n.chainMask == 0 }

  /** The slot getOrCreateNode returns, scanning from slot `from`: the first that fits the chain. */
  function FindSlot(cell: seq<AINode>, m: nat, from: nat): (r: Option<nat>)
    requires from <= |cell|
    decreases |cell| - from
    ensures r.Some? ==> from <= r.value < |cell| && Fits(cell[r.value], m)
    ensures forall k :: from <= k < (if r.Some? then r.value else |cell|) ==> !Fits(cell[k], m)
  {
    if from == |cell| then None
    else if Fits(cell[from], m) then Some(from)
    else FindSlot(cell, m, from + 1)
  }

  /** The cell after getOrCreateNode: a free slot it returns now carries the mask. */
  function Claimed(cell: seq<AINode>, m: nat): (r: seq<AINode>)
    ensures |r| == |cell|
  {
    match FindSlot(cell, m, 0)
    case Some(k) => if cell[k].chainMask == m then cell else cell[k := cell[k].(chainMask := m)]
    case None => cell
  }

  /**
   * A slot is found exactly when some slot fits; the found slot then carries
   * the chain's mask; and the only slot that changes is a free one, which
   * changes only its mask.
   */
  lemma ClaimResult(cell: seq<AINode>, m: nat)
    ensures var r := FindSlot(cell, m, 0);
      r.Some? <==> exists k :: 0 <= k < |cell| && Fits(cell[k], m)
    ensures var r := FindSlot(cell, m, 0);
      r.Some? ==> Claimed(cell, m)[r.value].chainMask == m
    ensures var a := Claimed(cell, m);
      forall k :: 0 <= k < |cell| && a[k] != cell[k] ==>
        cell[k].chainMask == 0 && FindSlot(cell, m, 0) == Some(k) && a[k] == cell[k].(chainMask := m)
  {
  }

  /** Asking again for the same chain returns the same slot and changes nothing more. */
  lemma {:induction false} ClaimIdempotent(cell: seq<AINode>, m: nat)
    ensures FindSlot(Claimed(cell, m), m, 0) == FindSlot(cell, m, 0)
    ensures Claimed(Claimed(cell, m), m) == Claimed(cell, m)
  {
    var a := Claimed(cell, m);
    match FindSlot(cell, m, 0)
    case None =>
    case Some(i) =>
      var r := FindSlot(a, m, 0);
      assert forall k :: 0 <= k < i ==> a[k] == cell[k];
      assert a[i].chainMask == m;
      if r.None? {
        assert false;
      } else if r.value < i {
        assert false;
      } else if r.value > i {
        assert false;
      }
  }

  /** The shape claiming keeps in a cell: used slots come first and carry distinct masks. */
  predicate Packed(cell: seq<AINode>)
  {
    && (forall i, j :: 0 <= i < j < |cell| && cell[j].chainMask != 0 ==> cell[i].chainMask != 0)
    && (forall i, j :: 0 <= i < j < |cell| && cell[j].chainMask != 0 ==> cell[i].chainMask != cell[j].chainMask)
  }

  /**
   * Claiming for a non-empty mask keeps a cell packed, and fails only when
   * every slot already belongs to another chain.
   */
  lemma {:induction false} ClaimKeepsPacked(cell: seq<AINode>, m: nat)
    requires Packed(cell) && m != 0
    ensures Packed(Claimed(cell, m))
    ensures FindSlot(cell, m, 0).None? ==> forall k :: 0 <= k < |cell| ==> cell[k].chainMask != 0 && cell[k].chainMask != m
  {
    var a := Claimed(cell, m);
    match FindSlot(cell, m, 0)
    case None =>
    case Some(i) =>
      if cell[i].chainMask == 0 {
        assert forall k :: i < k < |cell| ==> cell[k].chainMask == 0;
        assert forall k :: 0 <= k < |cell| && k != i ==> a[k] == cell[k];
        assert forall k :: 0 <= k < i ==> a[k].chainMask != m;
      }
  }

  // ---------------------------------------------------------------------
  // The table: nodes[x][y][z][layer][chain], flattened

  /** The first of the `n` slots of node (c, l). */
  function CellBase(s: Coord, c: Coord, l: Layer, n: nat): (r: int)
    requires l != Wrong
    ensures SizesValid(s) && InBounds(s, c) && n > 0 ==> 0 <= r && r + n <= NodeCount(s) * n
  {
    var r := SlotIndex(s, c, l, n, 0);
    assert SizesValid(s) && InBounds(s, c) && n > 0 ==> 0 <= r && r + n <= NodeCount(s) * n by {
      if SizesValid(s) && InBounds(s, c) && n > 0 {
        SlotIndexBound(s, c, l, n, 0);
        SlotIndexBound(s, c, l, n, n - 1);
      }
    }
    r
  }

  /** The table t with the slots from b on replaced by those of cell. */
  function Splice(t: seq<AINode>, b: int, cell: seq<AINode>): (r: seq<AINode>)
    requires 0 <= b && b + |cell| <= |t|
    ensures |r| == |t| && r[b..b + |cell|] == cell
    ensures forall j :: 0 <= j < |t| ==> r[j] == if b <= j < b + |cell| then cell[j - b] else t[j]
  {
    t[..b] + cell + t[b + |cell|..]
  }

  /** What one getOrCreateNode yields: the slot found, if any, and the table after it. */
  datatype Claim = Claim(slot: Option<nat>, table: seq<AINode>)

  /**
   * getOrCreateNode on the whole table: the first slot of node (c, l) that
   * fits the chain, as a table index, and the table with that slot's mask set.
   */
  function ClaimIn(s: Coord, n: nat, t: seq<AINode>, c: Coord, l: Layer, m: nat): (r: Claim)
    requires SizesValid(s) && InBounds(s, c) && l != Wrong && n > 0 && |t| == NodeCount(s) * n
    ensures |r.table| == |t|
    ensures r.slot.Some? ==> CellBase(s, c, l, n) <= r.slot.value < CellBase(s, c, l, n) + n
  {
    ClaimAt(t, CellBase(s, c, l, n), n, m)
  }

  /** The claim on the cell of `n` slots from table index b. */
  function ClaimAt(t: seq<AINode>, b: int, n: nat, m: nat): (r: Claim)
    requires 0 <= b && b + n <= |t|
    ensures |r.table| == |t|
    ensures r.slot.Some? ==> b <= r.slot.value < b + n
  {
    match FindSlot(t[b..b + n], m, 0)
    case None => Claim(None, t)
    case Some(k) =>
      Claim(Some(b + k), if t[b + k].chainMask == m then t else t[b + k := t[b + k].(chainMask := m)])
  }

  /** ClaimIn once the scan of the cell has stopped at slot i (n when no slot fits). */
  lemma ClaimInScan(s: Coord, n: nat, t: seq<AINode>, c: Coord, l: Layer, m: nat, i: nat)
    requires SizesValid(s) && InBounds(s, c) && l != Wrong && n > 0 && |t| == NodeCount(s) * n && i <= n
    requires var b := CellBase(s, c, l, n); FindSlot(t[b..b + n], m, 0) == if i == n then None else Some(i)
    ensures var b := CellBase(s, c, l, n);
      ClaimIn(s, n, t, c, l, m) ==
        if i == n then Claim(None, t)
        else Claim(Some(b + i), if t[b + i].chainMask == m then t else t[b + i := t[b + i].(chainMask := m)])
  {
  }

  /**
   * The claim on the table is the claim on the node's cell: inside the cell
   * the table becomes Claimed(cell, m), outside it nothing changes.
   */
  lemma ClaimInCell(s: Coord, n: nat, t: seq<AINode>, c: Coord, l: Layer, m: nat)
    requires SizesValid(s) && InBounds(s, c) && l != Wrong && n > 0 && |t| == NodeCount(s) * n
    ensures var b := CellBase(s, c, l, n);
      ClaimIn(s, n, t, c, l, m).table == Splice(t, b, Claimed(t[b..b + n], m))
  {
    var b := CellBase(s, c, l, n);
    assert ClaimIn(s, n, t, c, l, m) == ClaimAt(t, b, n, m);
    ClaimSplice(t, b, n, m);
  }

  /** The claim at cell [b, b + n) of the table is the cell-level claim spliced back. */
  lemma ClaimSplice(t: seq<AINode>, b: int, n: nat, m: nat)
    requires 0 <= b && b + n <= |t|
    ensures ClaimAt(t, b, n, m).table == Splice(t, b, Claimed(t[b..b + n], m))
  {
    var cell := t[b..b + n];
    var r := FindSlot(cell, m, 0);
    if r.None? || cell[r.value].chainMask == m {
      SpliceCell(t, b, n);
    } else {
      SpliceCellWrite(t, b, n, r.value, cell[r.value].(chainMask := m));
    }
  }

  /** Splicing a cell back into the table it was cut from gives that table. */
  lemma SpliceCell(t: seq<AINode>, b: int, n: nat)
    requires 0 <= b && b + n <= |t|
    ensures Splice(t, b, t[b..b + n]) == t
  {
    assert t[..b] + t[b..b + n] + t[b + n..] == t;
  }

  /** Splicing a cell with one slot rewritten is writing that slot of the table. */
  lemma SpliceCellWrite(t: seq<AINode>, b: int, n: nat, k: nat, x: AINode)
    requires 0 <= b && b + n <= |t| && k < n
    ensures Splice(t, b, t[b..b + n][k := x]) == t[b + k := x]
  {
    var v := Splice(t, b, t[b..b + n][k := x]);
    assert forall j :: 0 <= j < |t| ==> v[j] == t[b + k := x][j];
  }

  /**
   * A claim on the table: the slot found carries the mask; every slot it
   * changes was free and now carries the mask, nothing else about it changed.
   */
  lemma ClaimInResult(s: Coord, n: nat, t: seq<AINode>, c: Coord, l: Layer, m: nat)
    requires SizesValid(s) && InBounds(s, c) && l != Wrong && n > 0 && |t| == NodeCount(s) * n
    ensures var r := ClaimIn(s, n, t, c, l, m);
      r.slot.Some? ==> r.table[r.slot.value].chainMask == m
    ensures Tagged(t, ClaimIn(s, n, t, c, l, m).table, m)
  {
    var b := CellBase(s, c, l, n);
    ClaimResult(t[b..b + n], m);
  }

  /** `u` is `t` with some free slots handed to chain `m`, and nothing else changed. */
  ghost predicate Tagged(t: seq<AINode>, u: seq<AINode>, m: nat)
  {
    |u| == |t|
    && forall j :: 0 <= j < |t| ==> u[j] == t[j] || (t[j].chainMask == 0 && u[j] == t[j].(chainMask := m))
  }

  lemma TaggedTrans(t: seq<AINode>, u: seq<AINode>, v: seq<AINode>, m: nat)
    requires Tagged(t, u, m) && Tagged(u, v, m)
    ensures Tagged(t, v, m)
  {
  }

  /** Slots that carry the mask keep it, and keep every other field, under further claims. */
  lemma TaggedKeeps(t: seq<AINode>, u: seq<AINode>, m: nat, j: nat)
    requires Tagged(t, u, m) && j < |t| && t[j].chainMask == m
    ensures u[j] == t[j]
  {
  }

  // ---------------------------------------------------------------------
  // resetTile, getInitialNode, commit, on one slot or one cell

  /** resetTile on one slot: free it, clear danger, mana and special action, then CGPathNode::update. */
  function ResetSlot(n: AINode, c: Coord, l: Layer, acc: Accessibility): (r: AINode)
    ensures r.chainMask == 0 && r.danger == 0 && r.manaCost == 0 && r.special.None?
    ensures r.node.base.accessible == acc
    ensures n.node.base.layer == Wrong ==> r.node.base.coord == c && r.node.base.layer == l
    ensures n.node.base.layer != Wrong ==> r.node.base.action == Unknown && !Reachable(r.node.base) && r.node.before.None?
  {
    AINode(UpdatePathNode(n.node, c, l, acc), 0, 0, 0, None)
  }

  function ResetCell(cell: seq<AINode>, c: Coord, l: Layer, acc: Accessibility): (r: seq<AINode>)
    ensures |r| == |cell|
    ensures forall k :: 0 <= k < |cell| ==> r[k] == ResetSlot(cell[k], c, l, acc)
  {
    seq(|cell|, k requires 0 <= k < |cell| => ResetSlot(cell[k], c, l, acc))
  }

  /**
   * After resetTile every slot of the node is free, so the cell is packed
   * and the next getOrCreateNode, whatever its chain, takes the first slot.
   */
  lemma ResetCellFree(cell: seq<AINode>, c: Coord, l: Layer, acc: Accessibility, m: nat)
    requires |cell| > 0
    ensures Packed(ResetCell(cell, c, l, acc))
    ensures FindSlot(ResetCell(cell, c, l, acc), m, 0) == Some(0)
  {
  }

  /** getInitialNode on the slot it found: turn 0, the hero's movement left, no danger. */
  function Started(n: AINode, h: Hero): (r: AINode)
    ensures r.node.base.turns == 0 && Reachable(r.node.base) && r.danger == 0
    ensures r.node.base.moveRemains < TwoTo32
    ensures h.movement < TwoTo32 ==> r.node.base.moveRemains == h.movement
    ensures r.chainMask == n.chainMask && r.node.base.coord == n.node.base.coord && r.node.base.layer == n.node.base.layer
  {
    n.(node := n.node.(base := n.node.base.(turns := 0, moveRemains := U32(h.movement))), danger := 0)
  }

  /** The parts of a CDestinationNodeInfo that commit reads. */
  datatype Destination = Destination(movementLeft: int, turn: int, action: NodeAction)

  /**
   * commit: the destination slot takes its points, turn and action from the
   * destination info, and its danger, mana cost and predecessor from the
   * source slot; a special action then has its say (applyOnDestination).
   */
  function Committed(d: AINode, s: AINode, info: Destination, onDest: (AINode, AINode) -> AINode): (r: AINode)
  {
    var n := d.(node := d.node.(base := d.node.base.(moveRemains := U32(info.movementLeft), turns := U8(info.turn),
                                                     action := info.action),
                                before := s.node.before),
                danger := s.danger, manaCost := s.manaCost);
    if n.special.Some? then onDest(n, s) else n
  }

  /**
   * Without a special action, the committed slot keeps its chain, position
   * and accessibility, and points where the source points: at the source's
   * predecessor, not at the source itself.
   */
  lemma CommitLinksPastSource(d: AINode, s: AINode, info: Destination, onDest: (AINode, AINode) -> AINode)
    requires d.special.None?
    ensures var r := Committed(d, s, info, onDest);
      && r.node.before == s.node.before && r.danger == s.danger && r.manaCost == s.manaCost
      && r.node.base.action == info.action
      && r.node.base.moveRemains == U32(info.movementLeft) && r.node.base.turns == U8(info.turn)
      && r.chainMask == d.chainMask && r.special == d.special && r.node.locked == d.node.locked
      && r.node.base.coord == d.node.base.coord && r.node.base.layer == d.node.base.layer
      && r.node.base.accessible == d.node.base.accessible
  {
  }

  // ---------------------------------------------------------------------
  // calculateNeighbours and calculateTeleportations: a run of getOrCreateNode

  /** A node getOrCreateNode is asked for: a tile and a layer. */
  datatype Target = Target(tile: Coord, layer: Layer)

  predicate TargetsOk(s: Coord, ts: seq<Target>)
  {
    forall i :: 0 <= i < |ts| ==> InBounds(s, ts[i].tile) && ts[i].layer != Wrong
  }

  /** Slot j is one of the n slots of target x. */
  predicate InTarget(s: Coord, n: nat, x: Target, j: int)
    requires x.layer != Wrong
  {
    CellBase(s, x.tile, x.layer, n) <= j < CellBase(s, x.tile, x.layer, n) + n
  }

  /** What a run of getOrCreateNode yields: the slots kept, in order, and the table after it. */
  datatype Run = Run(slots: seq<nat>, table: seq<AINode>)

  /**
   * getOrCreateNode for each target in turn, keeping the slots it returns;
   * with `skipNotSet`, a returned slot whose accessibility is NOT_SET is
   * passed over (but stays claimed).
   */
  function ClaimEach(s: Coord, n: nat, t: seq<AINode>, ts: seq<Target>, m: nat, skipNotSet: bool): (r: Run)
    requires SizesValid(s) && n > 0 && |t| == NodeCount(s) * n && TargetsOk(s, ts)
    ensures |r.table| == |t| && |r.slots| <= |ts|
    decreases |ts|
  {
    if |ts| == 0 then Run([], t)
    else ClaimStep(s, n, ClaimEach(s, n, t, ts[..|ts| - 1], m, skipNotSet), ts[|ts| - 1], m, skipNotSet)
  }

  /** One getOrCreateNode of the run: claim x's node and keep the slot unless it is skipped. */
  function ClaimStep(s: Coord, n: nat, p: Run, x: Target, m: nat, skipNotSet: bool): (r: Run)
    requires SizesValid(s) && n > 0 && |p.table| == NodeCount(s) * n && InBounds(s, x.tile) && x.layer != Wrong
    ensures |r.table| == |p.table| && |r.slots| <= |p.slots| + 1
  {
    var q := ClaimIn(s, n, p.table, x.tile, x.layer, m);
    if q.slot.None? || (skipNotSet && q.table[q.slot.value].node.base.accessible == NotSet) then Run(p.slots, q.table)
    else Run(p.slots + [q.slot.value], q.table)
  }

  /** A run over pre + [x] is the run over pre and then the step for x. */
  lemma ClaimEachLast(s: Coord, n: nat, t: seq<AINode>, ts: seq<Target>, pre: seq<Target>, x: Target, m: nat, skipNotSet: bool)
    requires SizesValid(s) && n > 0 && |t| == NodeCount(s) * n && TargetsOk(s, ts) && ts == pre + [x]
    ensures TargetsOk(s, pre) && InBounds(s, x.tile) && x.layer != Wrong
    ensures ClaimEach(s, n, t, ts, m, skipNotSet) == ClaimStep(s, n, ClaimEach(s, n, t, pre, m, skipNotSet), x, m, skipNotSet)
  {
    assert ts[..|ts| - 1] == pre;
    assert ts[|ts| - 1] == x;
    assert forall i :: 0 <= i < |pre| ==> pre[i] == ts[i];
  }

  /** The step only appends to the slots found so far. */
  lemma ClaimStepPrefix(s: Coord, n: nat, a: seq<nat>, p: Run, e: Run, x: Target, m: nat, skipNotSet: bool)
    requires SizesValid(s) && n > 0 && |p.table| == NodeCount(s) * n && InBounds(s, x.tile) && x.layer != Wrong
    requires e.slots == a + p.slots && e.table == p.table
    ensures var r := ClaimStep(s, n, p, x, m, skipNotSet);
      ClaimStep(s, n, e, x, m, skipNotSet) == Run(a + r.slots, r.table)
  {
    var q := ClaimIn(s, n, p.table, x.tile, x.layer, m);
    if !(q.slot.None? || (skipNotSet && q.table[q.slot.value].node.base.accessible == NotSet)) {
      ConcatAssoc(a, p.slots, [q.slot.value]);
    }
  }

  /**
   * What a run of claims yields: only free slots changed, and only to carry
   * the chain's mask; each slot returned carries the mask, lies in the cell
   * of one of the targets and, with `skipNotSet`, is not NOT_SET.
   */
  lemma {:induction false} ClaimEachResult(s: Coord, n: nat, t: seq<AINode>, ts: seq<Target>, m: nat, skipNotSet: bool)
    requires SizesValid(s) && n > 0 && |t| == NodeCount(s) * n && TargetsOk(s, ts)
    ensures var r := ClaimEach(s, n, t, ts, m, skipNotSet);
      && Tagged(t, r.table, m)
      && forall j :: 0 <= j < |r.slots| ==>
           && r.slots[j] < |t| && r.table[r.slots[j]].chainMask == m
           && (skipNotSet ==> r.table[r.slots[j]].node.base.accessible != NotSet)
           && exists i :: 0 <= i < |ts| && InTarget(s, n, ts[i], r.slots[j])
    decreases |ts|
  {
    if |ts| > 0 {
      var ts' := ts[..|ts| - 1];
      var p := ClaimEach(s, n, t, ts', m, skipNotSet);
      ClaimEachResult(s, n, t, ts', m, skipNotSet);
      var x := ts[|ts| - 1];
      var q := ClaimIn(s, n, p.table, x.tile, x.layer, m);
      ClaimInResult(s, n, p.table, x.tile, x.layer, m);
      TaggedTrans(t, p.table, q.table, m);
      var r := ClaimEach(s, n, t, ts, m, skipNotSet);
      forall j | 0 <= j < |r.slots|
        ensures && r.slots[j] < |t| && r.table[r.slots[j]].chainMask == m
                && (skipNotSet ==> r.table[r.slots[j]].node.base.accessible != NotSet)
                && exists i :: 0 <= i < |ts| && InTarget(s, n, ts[i], r.slots[j])
      {
        if j < |p.slots| {
          TaggedKeeps(p.table, q.table, m, p.slots[j]);
          var i :| 0 <= i < |ts'| && InTarget(s, n, ts'[i], p.slots[j]);
          assert ts[i] == ts'[i];
        } else {
          assert InTarget(s, n, ts[|ts| - 1], r.slots[j]);
        }
      }
    }
  }

  lemma TargetsOkAppend(s: Coord, ts1: seq<Target>, ts2: seq<Target>)
    requires TargetsOk(s, ts1) && TargetsOk(s, ts2)
    ensures TargetsOk(s, ts1 + ts2)
  {
    forall i | 0 <= i < |ts1 + ts2|
      ensures InBounds(s, (ts1 + ts2)[i].tile) && (ts1 + ts2)[i].layer != Wrong
    {
      if i >= |ts1| {
        assert (ts1 + ts2)[i] == ts2[i - |ts1|];
      }
    }
  }

  /** A run over ts1 + ts2 is the run over ts1 followed by the run over ts2 from where it left the table. */
  lemma {:induction false} ClaimEachAppend(s: Coord, n: nat, t: seq<AINode>, ts1: seq<Target>, ts2: seq<Target>,
                                           m: nat, skipNotSet: bool)
    requires SizesValid(s) && n > 0 && |t| == NodeCount(s) * n && TargetsOk(s, ts1) && TargetsOk(s, ts2)
    ensures TargetsOk(s, ts1 + ts2)
    ensures var p := ClaimEach(s, n, t, ts1, m, skipNotSet);
      var q := ClaimEach(s, n, p.table, ts2, m, skipNotSet);
      ClaimEach(s, n, t, ts1 + ts2, m, skipNotSet) == Run(p.slots + q.slots, q.table)
    decreases |ts2|
  {
    TargetsOkAppend(s, ts1, ts2);
    var p := ClaimEach(s, n, t, ts1, m, skipNotSet);
    if |ts2| == 0 {
      assert ts1 + ts2 == ts1;
      assert p.slots + [] == p.slots;
    } else {
      var ts2' := ts2[..|ts2| - 1];
      var x := ts2[|ts2| - 1];
      assert ts2 == ts2' + [x];
      ConcatAssoc(ts1, ts2', [x]);
      ClaimEachLast(s, n, p.table, ts2, ts2', x, m, skipNotSet);
      ClaimEachLast(s, n, t, ts1 + ts2, ts1 + ts2', x, m, skipNotSet);
      ClaimEachAppend(s, n, t, ts1, ts2', m, skipNotSet);
      var q' := ClaimEach(s, n, p.table, ts2', m, skipNotSet);
      var e := ClaimEach(s, n, t, ts1 + ts2', m, skipNotSet);
      ClaimStepPrefix(s, n, p.slots, q', e, x, m, skipNotSet);
    }
  }

  /** The four targets of one neighbour tile, layers LAND to AIR. */
  function LayersOf(c: Coord): (r: seq<Target>)
    ensures |r| == NumLayers
    ensures forall k :: 0 <= k < |r| ==> r[k] == Target(c, MovementLayers[k])
  {
    seq(NumLayers, k requires 0 <= k < NumLayers => Target(c, MovementLayers[k]))
  }

  /** The four targets of an in-bounds tile, and every prefix of them, are in bounds on a real layer. */
  lemma LayersOfOk(s: Coord, c: Coord)
    requires InBounds(s, c)
    ensures TargetsOk(s, LayersOf(c))
    ensures forall i :: 0 <= i <= NumLayers ==> TargetsOk(s, LayersOf(c)[..i])
  {
    var ts := LayersOf(c);
    forall k | 0 <= k < NumLayers
      ensures ts[k].tile == c && ts[k].layer != Wrong
    {
      assert MovementLayers[k] in MovementLayers;
    }
  }

  /** calculateNeighbours' targets: every neighbour tile, and on each every movement layer. */
  function NeighbourTargets(tiles: seq<Coord>): (r: seq<Target>)
    ensures |r| == NumLayers * |tiles|
  {
    if |tiles| == 0 then [] else NeighbourTargets(tiles[..|tiles| - 1]) + LayersOf(tiles[|tiles| - 1])
  }

  lemma {:induction false} NeighbourTargetsOk(s: Coord, tiles: seq<Coord>)
    requires forall i :: 0 <= i < |tiles| ==> InBounds(s, tiles[i])
    ensures TargetsOk(s, NeighbourTargets(tiles))
    decreases |tiles|
  {
    if |tiles| > 0 {
      NeighbourTargetsOk(s, tiles[..|tiles| - 1]);
    }
  }

  /** calculateTeleportations' targets: every exit, on the source's layer. */
  function ExitTargets(exits: seq<Coord>, l: Layer): (r: seq<Target>)
    ensures |r| == |exits|
    ensures forall k :: 0 <= k < |r| ==> r[k] == Target(exits[k], l)
  {
    seq(|exits|, k requires 0 <= k < |exits| => Target(exits[k], l))
  }
  lemma ExitTargetsOk(s: Coord, exits: seq<Coord>, l: Layer)
    requires l != Wrong && forall i :: 0 <= i < |exits| ==> InBounds(s, exits[i])
    ensures forall i :: 0 <= i <= |exits| ==> TargetsOk(s, ExitTargets(exits, l)[..i])
    ensures TargetsOk(s, ExitTargets(exits, l))
  {
    assert ExitTargets(exits, l)[..|exits|] == ExitTargets(exits, l);
  }


  // ---------------------------------------------------------------------
  // calculateTownPortalTeleportations

  /** What the town-portal code asks of a town. */
  datatype Town = Town(id: nat, visitablePos: Coord, relation: Relation, visitingHero: bool)

  /** What the town-portal code asks of the hero about the TOWN_PORTAL spell. */
  datatype Caster = Caster(
    canCast: bool,         // canCastThisSpell
    mana: int,
    spellCost: int,        // getSpellCost
    schoolLevel: int)      // getSpellSchoolLevel

  /** erase_if(towns, enemy): the towns not owned by an enemy, in their order. */
  function Friendly(towns: seq<Town>): (r: seq<Town>)
    ensures |r| <= |towns|
    ensures forall x :: x in r <==> x in towns && x.relation != Enemies
  {
    if |towns| == 0 then []
    else
      var p := Friendly(towns[..|towns| - 1]);
      var x := towns[|towns| - 1];
      assert towns == towns[..|towns| - 1] + [x];
      if x.relation == Enemies then p else p + [x]
  }

  /**
   * minElementByFun over the first k towns: the first one at the least
   * squared distance from `from`.
   */
  function Nearest(towns: seq<Town>, k: nat, from: Coord, dist2: (Coord, Coord) -> int): (r: nat)
    requires 0 < k <= |towns|
    ensures r < k
    ensures forall j :: 0 <= j < k ==> dist2(from, towns[r].visitablePos) <= dist2(from, towns[j].visitablePos)
    ensures forall j :: 0 <= j < r ==> dist2(from, towns[r].visitablePos) < dist2(from, towns[j].visitablePos)
  {
    if k == 1 then 0
    else
      var p := Nearest(towns, k - 1, from, dist2);
      if dist2(from, towns[k - 1].visitablePos) < dist2(from, towns[p].visitablePos) then k - 1 else p
  }

  /**
   * The towns a portal is tried to: none unless the hero can cast the spell,
   * has the mana, some town is not an enemy's and the hero has the movement
   * the cast takes; then every such town at ADVANCED level and above, or
   * just the nearest one below it.
   */
  function PortalTowns(h: Hero, towns: seq<Town>, caster: Caster, baseCost: int, advanced: int,
                       dist2: (Coord, Coord) -> int): (r: seq<Town>)
  {
    if !(caster.canCast && caster.mana >= caster.spellCost) then []
    else
      var f := Friendly(towns);
      if |f| == 0 then []
      else if h.movement < baseCost * (if caster.schoolLevel >= 3 then 2 else 3) then []
      else if caster.schoolLevel < advanced then [f[Nearest(f, |f|, h.position, dist2)]]
      else f
  }

  /**
   * The towns tried are friendly ones, and none is tried without the spell,
   * the mana or the movement; below ADVANCED only the nearest friendly town
   * is tried.
   */
  lemma PortalTownsChosen(h: Hero, towns: seq<Town>, caster: Caster, baseCost: int, advanced: int,
                          dist2: (Coord, Coord) -> int)
    ensures var r := PortalTowns(h, towns, caster, baseCost, advanced, dist2);
      && (forall x :: x in r ==> x in towns && x.relation != Enemies)
      && (!caster.canCast || caster.mana < caster.spellCost ==> r == [])
      && (h.movement < baseCost * (if caster.schoolLevel >= 3 then 2 else 3) ==> r == [])
      && (caster.schoolLevel < advanced ==> |r| <= 1)
      && (caster.schoolLevel < advanced && |r| == 1 ==>
            forall x :: x in towns && x.relation != Enemies ==>
              dist2(h.position, r[0].visitablePos) <= dist2(h.position, x.visitablePos))
  {
    var r := PortalTowns(h, towns, caster, baseCost, advanced, dist2);
    var f := Friendly(towns);
    if caster.schoolLevel < advanced && |r| == 1 {
      forall x | x in towns && x.relation != Enemies
        ensures dist2(h.position, r[0].visitablePos) <= dist2(h.position, x.visitablePos)
      {
        var j :| 0 <= j < |f| && f[j] == x;
      }
    }
  }

  lemma PortalTownsOk(s: Coord, h: Hero, towns: seq<Town>, caster: Caster, baseCost: int, advanced: int, dist2: (Coord, Coord) -> int)
    requires TownsOk(s, towns)
    ensures TownsOk(s, PortalTowns(h, towns, caster, baseCost, advanced, dist2))
  {
    var tried := PortalTowns(h, towns, caster, baseCost, advanced, dist2);
    PortalTownsChosen(h, towns, caster, baseCost, advanced, dist2);
    forall i | 0 <= i < |tried|
      ensures InBounds(s, tried[i].visitablePos)
    {
      assert tried[i] in towns;
    }
  }

  /** The portal node: reached from the source, by a town portal, with the source's points. */
  function Portal(n: AINode, src: nat, s: AINode, town: Town): (r: AINode)
    ensures r.chainMask == n.chainMask && r.node.before == Some(src)
    ensures r.special == Some(TownPortal(town.id)) && r.node.base.moveRemains == s.node.base.moveRemains
  {
    n.(node := n.node.(before := Some(src), base := n.node.base.(moveRemains := s.node.base.moveRemains)),
       special := Some(TownPortal(town.id)))
  }

  predicate TownsOk(s: Coord, towns: seq<Town>)
  {
    forall i :: 0 <= i < |towns| ==> InBounds(s, towns[i].visitablePos)
  }

  /**
   * The loop over the towns: a town with a visiting hero is skipped;
   * otherwise its LAND slot for the chain is claimed and, when there is one,
   * turned into a portal node from `src` and returned.
   */
  function PortalEach(s: Coord, n: nat, t: seq<AINode>, src: nat, towns: seq<Town>, m: nat): (r: Run)
    requires SizesValid(s) && n > 0 && |t| == NodeCount(s) * n && src < |t| && TownsOk(s, towns)
    ensures |r.table| == |t| && |r.slots| <= |towns|
    decreases |towns|
  {
    if |towns| == 0 then Run([], t)
    else PortalStep(s, n, PortalEach(s, n, t, src, towns[..|towns| - 1], m), src, towns[|towns| - 1], m)
  }

  /** One town of the loop. */
  function PortalStep(s: Coord, n: nat, p: Run, src: nat, x: Town, m: nat): (r: Run)
    requires SizesValid(s) && n > 0 && |p.table| == NodeCount(s) * n && src < |p.table| && InBounds(s, x.visitablePos)
    ensures |r.table| == |p.table| && |r.slots| <= |p.slots| + 1
  {
    if x.visitingHero then p
    else
      var q := ClaimIn(s, n, p.table, x.visitablePos, Land, m);
      if q.slot.None? then Run(p.slots, q.table)
      else Run(p.slots + [q.slot.value], q.table[q.slot.value := Portal(q.table[q.slot.value], src, q.table[src], x)])
  }

  /** The loop over pre + [x] is the loop over pre and then town x. */
  lemma PortalEachLast(s: Coord, n: nat, t: seq<AINode>, src: nat, towns: seq<Town>, pre: seq<Town>, x: Town, m: nat)
    requires SizesValid(s) && n > 0 && |t| == NodeCount(s) * n && src < |t| && TownsOk(s, towns) && towns == pre + [x]
    ensures TownsOk(s, pre) && InBounds(s, x.visitablePos)
    ensures PortalEach(s, n, t, src, towns, m) == PortalStep(s, n, PortalEach(s, n, t, src, pre, m), src, x, m)
  {
    assert towns[..|towns| - 1] == pre;
    assert towns[|towns| - 1] == x;
    assert forall i :: 0 <= i < |pre| ==> pre[i] == towns[i];
  }

  /** A town of the list, without a visiting hero, has this id. */
  predicate TriedTown(towns: seq<Town>, id: nat)
  {
    exists i :: 0 <= i < |towns| && !towns[i].visitingHero && towns[i].id == id
  }

  /** Slot j carries the chain's mask, a link to the source, and a portal to one of the towns tried. */
  predicate PortalNode(u: seq<AINode>, j: nat, src: nat, towns: seq<Town>, m: nat)
  {
    && j < |u| && u[j].chainMask == m && u[j].node.before == Some(src)
    && u[j].special.Some? && TriedTown(towns, u[j].special.value.town)
  }

  lemma PortalNodeWiden(u: seq<AINode>, js: seq<nat>, src: nat, towns: seq<Town>, x: Town, m: nat)
    requires AllPortal(u, js, src, towns, m)
    ensures AllPortal(u, js, src, towns + [x], m)
  {
    forall j | 0 <= j < |js|
      ensures PortalNode(u, js[j], src, towns + [x], m)
    {
      var i :| 0 <= i < |towns| && !towns[i].visitingHero && towns[i].id == u[js[j]].special.value.town;
      assert (towns + [x])[i] == towns[i];
    }
  }

  /** Claims and writes elsewhere keep the portal nodes already made. */
  lemma PortalNodesKept(u: seq<AINode>, v: seq<AINode>, js: seq<nat>, src: nat, towns: seq<Town>, m: nat)
    requires Tagged(u, v, m)
    requires AllPortal(u, js, src, towns, m)
    ensures AllPortal(v, js, src, towns, m)
  {
    forall j | 0 <= j < |js|
      ensures PortalNode(v, js[j], src, towns, m)
    {
      TaggedKeeps(u, v, m, js[j]);
    }
  }

  /** Every slot of js is a portal node in u. */
  predicate AllPortal(u: seq<AINode>, js: seq<nat>, src: nat, towns: seq<Town>, m: nat)
  {
    forall j :: 0 <= j < |js| ==> PortalNode(u, js[j], src, towns, m)
  }

  /** Every slot the run returns is a portal node to a town without a visiting hero. */
  lemma {:induction false} PortalEachResult(s: Coord, n: nat, t: seq<AINode>, src: nat, towns: seq<Town>, m: nat)
    requires SizesValid(s) && n > 0 && |t| == NodeCount(s) * n && src < |t| && TownsOk(s, towns)
    ensures var r := PortalEach(s, n, t, src, towns, m); AllPortal(r.table, r.slots, src, towns, m)
    decreases |towns|
  {
    if |towns| > 0 {
      var ts' := towns[..|towns| - 1];
      var x := towns[|towns| - 1];
      assert towns == ts' + [x];
      var p := PortalEach(s, n, t, src, ts', m);
      PortalEachResult(s, n, t, src, ts', m);
      PortalNodeWiden(p.table, p.slots, src, ts', x, m);
      if !x.visitingHero {
        var q := ClaimIn(s, n, p.table, x.visitablePos, Land, m);
        ClaimInResult(s, n, p.table, x.visitablePos, Land, m);
        PortalNodesKept(p.table, q.table, p.slots, src, towns, m);
        if q.slot.Some? {
          var k := q.slot.value;
          var v := Portal(q.table[k], src, q.table[src], x);
          assert TriedTown(towns, x.id) by {
            assert towns[|towns| - 1] == x;
          }
          assert PortalNode(q.table[k := v], k, src, towns, m);
          forall j | 0 <= j < |p.slots|
            ensures PortalNode(q.table[k := v], p.slots[j], src, towns, m)
          {
            assert PortalNode(q.table, p.slots[j], src, towns, m);
          }
        }
      }
    }
  }

  /**
   * The portal nodes carry the mask `chainMask | CAST_CHAIN`: every one has the
   * cast bit, and every one from a battle chain stays a battle chain.
   */
  lemma PortalNodesCast(s: Coord, n: nat, t: seq<AINode>, src: nat, towns: seq<Town>, cast: nat, battle: nat)
    requires SizesValid(s) && n > 0 && |t| == NodeCount(s) * n && src < |t| && TownsOk(s, towns)
    ensures var r := PortalEach(s, n, t, src, towns, BitOr(t[src].chainMask, cast));
      forall j :: 0 <= j < |r.slots| ==>
        && r.slots[j] < |r.table|
        && BitAnd(r.table[r.slots[j]].chainMask, cast) == cast
        && (BitAnd(t[src].chainMask, battle) > 0 ==> BitAnd(r.table[r.slots[j]].chainMask, battle) > 0)
  {
    var m := BitOr(t[src].chainMask, cast);
    PortalEachResult(s, n, t, src, towns, m);
    BitOrKeeps(t[src].chainMask, cast);
    if BitAnd(t[src].chainMask, battle) > 0 {
      BitOrKeepsShared(t[src].chainMask, cast, battle);
    }
  }

  // ---------------------------------------------------------------------
  // hasBetterChain and isTileAccessible

  /**
   * The test hasBetterChain applies to another LAND slot `o` against the
   * destination slot `d`, as written.
   */
  predicate BeatsChain(o: AINode, d: AINode)
  {
    && o.chainMask != d.chainMask && o.node.base.action != Unknown
    && o.danger <= d.danger && d.chainMask == 1 && o.chainMask == 0
    && (o.node.base.turns < d.node.base.turns
        || (o.node.base.turns == d.node.base.turns && o.node.base.moveRemains >= d.node.base.moveRemains))
  }

  /**
   * Only a destination of chain 1 can be beaten, only by a free slot that was
   * reached, and then exactly when that slot is no more dangerous and the
   * destination is not Better than it.
   */
  lemma BeatsChainMeaning(o: AINode, d: AINode)
    ensures BeatsChain(o, d) <==>
      && d.chainMask == 1 && o.chainMask == 0 && o.node.base.action != Unknown
      && o.danger <= d.danger && !Better(d.node.base, o.node.base)
  {
  }

  // ---------------------------------------------------------------------
  // getChainInfo

  /** An acyclic predecessor structure: every link lands in the table, at a lower rank. */
  ghost predicate Linked(t: seq<AINode>, rank: seq<nat>)
  {
    |rank| == |t|
    && forall j :: 0 <= j < |t| && t[j].node.before.Some? ==>
         t[j].node.before.value < |t| && rank[t[j].node.before.value] < rank[j]
  }

  /**
   * The slots the walk of getChainInfo visits from `cur`: each one and its
   * predecessor in turn, until there is none or one stands on `stop`.
   */
  function Walk(t: seq<AINode>, rank: seq<nat>, cur: Option<nat>, stop: Coord): (r: seq<nat>)
    requires Linked(t, rank) && (cur.Some? ==> cur.value < |t|)
    ensures forall k :: 0 <= k < |r| ==> r[k] < |t| && t[r[k]].node.base.coord != stop
    ensures |r| == 0 <==> cur.None? || t[cur.value].node.base.coord == stop
    ensures |r| > 0 ==> cur == Some(r[0])
    ensures forall k :: 0 <= k < |r| - 1 ==> t[r[k]].node.before == Some(r[k + 1])
    ensures |r| > 0 ==> var p := t[r[|r| - 1]].node.before; p.None? || t[p.value].node.base.coord == stop
    decreases if cur.Some? then rank[cur.value] + 1 else 0
  {
    if cur.None? || t[cur.value].node.base.coord == stop then []
    else [cur.value] + Walk(t, rank, t[cur.value].node.before, stop)
  }

  /** AIPathNodeInfo. */
  datatype PathNodeInfo = PathNodeInfo(
    movementPointsLeft: nat,
    movementPointsUsed: int,
    turns: nat,
    danger: nat,
    coord: Coord)

  /** AIPath: nodes[0] is the destination, the last node the first tile to step on. */
  datatype AIPath = AIPath(nodes: seq<PathNodeInfo>, special: Option<SpecialAction>)

  /** AIPath(): no nodes, no special action. */
  const EmptyPath: AIPath := AIPath([], None)

  /**
   * movementPointsUsed: the turns times a full day of land movement plus
   * today's movement, as a ui32 read back as an int, minus the points left.
   */
  function PointsUsed(n: AINode, h: Hero): (r: int)
  {
    I32(U32(n.node.base.turns * h.maxMovePoints(true, 0) + h.movement)) - I32(U32(n.node.base.moveRemains))
  }

  /** Away from the 32-bit limits, the points used are the plain difference. */
  lemma PointsUsedExact(n: AINode, h: Hero)
    requires 0 <= n.node.base.turns * h.maxMovePoints(true, 0) + h.movement < TwoTo31
    requires n.node.base.moveRemains < TwoTo31
    ensures PointsUsed(n, h) == n.node.base.turns * h.maxMovePoints(true, 0) + h.movement - n.node.base.moveRemains
  {
  }

  /** The entry getChainInfo writes for one slot of a chain. */
  function NodeInfo(n: AINode, h: Hero): (r: PathNodeInfo)
  {
    PathNodeInfo(n.node.base.moveRemains, PointsUsed(n, h), n.node.base.turns, n.danger, n.node.base.coord)
  }

  /** The path made of the slots w, in order: their entries, and the special action of the last. */
  function PathOf(t: seq<AINode>, w: seq<nat>, h: Hero): (r: AIPath)
    requires forall k :: 0 <= k < |w| ==> w[k] < |t|
    ensures |r.nodes| == |w|
  {
    AIPath(seq(|w|, k requires 0 <= k < |w| => NodeInfo(t[w[k]], h)),
           if |w| == 0 then None else t[w[|w| - 1]].special)
  }

  /** One more slot walked: one more entry, and that slot's special action. */
  lemma PathOfAppend(t: seq<AINode>, w: seq<nat>, j: nat, h: Hero)
    requires (forall k :: 0 <= k < |w| ==> w[k] < |t|) && j < |t|
    ensures forall k :: 0 <= k < |w + [j]| ==> (w + [j])[k] < |t|
    ensures PathOf(t, w + [j], h) == AIPath(PathOf(t, w, h).nodes + [NodeInfo(t[j], h)], t[j].special)
  {
    assert forall k :: 0 <= k < |w + [j]| ==> (w + [j])[k] == if k < |w| then w[k] else j;
  }

  /**
   * The walk as getChainInfo's loop performs it: from `cur`, each slot
   * appends its entry to `acc` and sets the special action, until there is
   * no slot or one stands on `stop`.
   */
  function WalkFrom(t: seq<AINode>, rank: seq<nat>, cur: Option<nat>, stop: Coord, h: Hero, acc: AIPath): (r: AIPath)
    requires Linked(t, rank) && (cur.Some? ==> cur.value < |t|)
    decreases if cur.Some? then rank[cur.value] + 1 else 0
  {
    if cur.None? || t[cur.value].node.base.coord == stop then acc
    else
      var n := t[cur.value];
      WalkFrom(t, rank, n.node.before, stop, h, AIPath(acc.nodes + [NodeInfo(n, h)], n.special))
  }

  /** The loop's walk, started from the path of slots w, yields the path of w followed by the walk. */
  lemma {:induction false} WalkFromPath(t: seq<AINode>, rank: seq<nat>, cur: Option<nat>, stop: Coord, h: Hero, w: seq<nat>)
    requires Linked(t, rank) && (cur.Some? ==> cur.value < |t|)
    requires forall k :: 0 <= k < |w| ==> w[k] < |t|
    ensures forall k :: 0 <= k < |w + Walk(t, rank, cur, stop)| ==> (w + Walk(t, rank, cur, stop))[k] < |t|
    ensures WalkFrom(t, rank, cur, stop, h, PathOf(t, w, h)) == PathOf(t, w + Walk(t, rank, cur, stop), h)
    decreases if cur.Some? then rank[cur.value] + 1 else 0
  {
    var r := Walk(t, rank, cur, stop);
    assert forall k :: 0 <= k < |w + r| ==> (w + r)[k] == if k < |w| then w[k] else r[k - |w|];
    if cur.None? || t[cur.value].node.base.coord == stop {
      assert w + r == w;
    } else {
      var j := cur.value;
      var n := t[j];
      PathOfAppend(t, w, j, h);
      var r' := Walk(t, rank, n.node.before, stop);
      assert r == [j] + r';
      WalkFromPath(t, rank, n.node.before, stop, h, w + [j]);
      ConcatAssoc(w, [j], r');
    }
  }

  lemma ConcatAssoc<T>(a: seq<T>, b: seq<T>, c: seq<T>)
    ensures a + (b + c) == (a + b) + c
  {
  }

  /**
   * The path getChainInfo builds from slot i: an entry for each slot of the
   * walk, and the special action of the last slot walked.
   */
  function ChainPath(t: seq<AINode>, rank: seq<nat>, i: nat, stop: Coord, h: Hero): (r: AIPath)
    requires Linked(t, rank) && i < |t|
  {
    PathOf(t, Walk(t, rank, Some(i), stop), h)
  }

  /** The slots among the k from b that some chain reached (action not UNKNOWN), in order. */
  function Reached(t: seq<AINode>, b: nat, k: nat): (r: seq<nat>)
    requires b + k <= |t|
    ensures |r| <= k && forall i :: 0 <= i < |r| ==> b <= r[i] < b + k
  {
    if k == 0 then []
    else Reached(t, b, k - 1) + (if t[b + k - 1].node.base.action == Unknown then [] else [b + k - 1])
  }

  /** Exactly the reached slots are listed. */
  lemma {:induction false} ReachedMembers(t: seq<AINode>, b: nat, k: nat)
    requires b + k <= |t|
    ensures forall j :: j in Reached(t, b, k) <==> b <= j < b + k && t[j].node.base.action != Unknown
  {
    if k > 0 {
      ReachedMembers(t, b, k - 1);
    }
  }

  /** The chain path of each slot of `slots`, in order. */
  function PathsOf(t: seq<AINode>, rank: seq<nat>, slots: seq<nat>, stop: Coord, h: Hero): (r: seq<AIPath>)
    requires Linked(t, rank) && forall i :: 0 <= i < |slots| ==> slots[i] < |t|
    ensures |r| == |slots|
  {
    seq(|slots|, i requires 0 <= i < |slots| => ChainPath(t, rank, slots[i], stop, h))
  }

  lemma PathsOfAppend(t: seq<AINode>, rank: seq<nat>, r: seq<nat>, j: nat, stop: Coord, h: Hero)
    requires Linked(t, rank) && (forall i :: 0 <= i < |r| ==> r[i] < |t|) && j < |t|
    ensures forall i :: 0 <= i < |r + [j]| ==> (r + [j])[i] < |t|
    ensures PathsOf(t, rank, r + [j], stop, h) == PathsOf(t, rank, r, stop, h) + [ChainPath(t, rank, j, stop, h)]
  {
    var r' := r + [j];
    assert forall i :: 0 <= i < |r'| ==> r'[i] == if i < |r| then r[i] else j;
    var u := PathsOf(t, rank, r', stop, h);
    var v := PathsOf(t, rank, r, stop, h) + [ChainPath(t, rank, j, stop, h)];
    forall i | 0 <= i < |u|
      ensures u[i] == v[i]
    {
    }
  }

  /** The paths getChainInfo emits for the first k slots from b: one for each slot that was reached. */
  function ChainPaths(t: seq<AINode>, rank: seq<nat>, b: nat, k: nat, stop: Coord, h: Hero): (r: seq<AIPath>)
    requires Linked(t, rank) && b + k <= |t|
    ensures |r| <= k
  {
    if k == 0 then []
    else
      var p := ChainPaths(t, rank, b, k - 1, stop, h);
      if t[b + k - 1].node.base.action == Unknown then p else p + [ChainPath(t, rank, b + k - 1, stop, h)]
  }

  /** Slot b + k adds its path to the ones before it exactly when it was reached. */
  lemma ChainPathsNext(t: seq<AINode>, rank: seq<nat>, b: nat, k: nat, stop: Coord, h: Hero)
    requires Linked(t, rank) && b + k < |t|
    ensures ChainPaths(t, rank, b, k + 1, stop, h) ==
      if t[b + k].node.base.action == Unknown then ChainPaths(t, rank, b, k, stop, h)
      else ChainPaths(t, rank, b, k, stop, h) + [ChainPath(t, rank, b + k, stop, h)]
  {
  }

  /** The emitted paths are the chain paths of the reached slots, in order. */
  lemma {:induction false} ChainPathsSlots(t: seq<AINode>, rank: seq<nat>, b: nat, k: nat, stop: Coord, h: Hero)
    requires Linked(t, rank) && b + k <= |t|
    ensures ChainPaths(t, rank, b, k, stop, h) == PathsOf(t, rank, Reached(t, b, k), stop, h)
  {
    if k > 0 {
      ChainPathsSlots(t, rank, b, k - 1, stop, h);
      var r := Reached(t, b, k - 1);
      var j := b + k - 1;
      if t[j].node.base.action == Unknown {
        assert Reached(t, b, k) == r;
      } else {
        assert Reached(t, b, k) == r + [j];
        PathsOfAppend(t, rank, r, j, stop, h);
      }
    }
  }

  /** A path is emitted for a slot exactly when the slot was reached, and only such paths are emitted. */
  lemma ChainPathsAreReached(t: seq<AINode>, rank: seq<nat>, b: nat, k: nat, stop: Coord, h: Hero)
    requires Linked(t, rank) && b + k <= |t|
    ensures forall j :: b <= j < b + k && t[j].node.base.action != Unknown ==>
      ChainPath(t, rank, j, stop, h) in ChainPaths(t, rank, b, k, stop, h)
    ensures forall p :: p in ChainPaths(t, rank, b, k, stop, h) ==>
      exists j :: b <= j < b + k && t[j].node.base.action != Unknown && p == ChainPath(t, rank, j, stop, h)
  {
    ReachedMembers(t, b, k);
    ChainPathsSlots(t, rank, b, k, stop, h);
    var r := Reached(t, b, k);
    var ps := ChainPaths(t, rank, b, k, stop, h);
    forall j | b <= j < b + k && t[j].node.base.action != Unknown
      ensures ChainPath(t, rank, j, stop, h) in ps
    {
      assert j in r;
      var i :| 0 <= i < |r| && r[i] == j;
      assert ps[i] == ChainPath(t, rank, j, stop, h);
    }
    forall p | p in ps
      ensures exists j :: b <= j < b + k && t[j].node.base.action != Unknown && p == ChainPath(t, rank, j, stop, h)
    {
      var i :| 0 <= i < |ps| && ps[i] == p;
      assert r[i] in r;
    }
  }

  /**
   * A slot off the start tile yields a path that starts at that slot (its
   * danger and cost are the slot's), never enters the start tile, and whose
   * first tile to get is a slot linked to the start tile or to nothing.
   */
  lemma ChainPathEnds(t: seq<AINode>, rank: seq<nat>, i: nat, stop: Coord, h: Hero)
    requires Linked(t, rank) && i < |t| && t[i].node.base.coord != stop
    ensures var p := ChainPath(t, rank, i, stop, h);
      && |p.nodes| > 0 && p.nodes[0].coord == t[i].node.base.coord
      && GetPathDanger(p) == t[i].danger && MovementCost(p) == U32(PointsUsed(t[i], h))
      && (forall k :: 0 <= k < |p.nodes| ==> p.nodes[k].coord != stop)
      && exists j :: 0 <= j < |t| && FirstTileToGet(p) == t[j].node.base.coord
           && (t[j].node.before.None? || t[t[j].node.before.value].node.base.coord == stop)
  {
    var w := Walk(t, rank, Some(i), stop);
    assert FirstTileToGet(ChainPath(t, rank, i, stop, h)) == t[w[|w| - 1]].node.base.coord;
  }

  /** A slot on the start tile yields the empty path. */
  lemma ChainPathAtStart(t: seq<AINode>, rank: seq<nat>, i: nat, stop: Coord, h: Hero)
    requires Linked(t, rank) && i < |t| && t[i].node.base.coord == stop
    ensures ChainPath(t, rank, i, stop, h) == EmptyPath
    ensures FirstTileToGet(ChainPath(t, rank, i, stop, h)) == InvalidCoord
  {
  }

  // ---------------------------------------------------------------------
  // AIPath accessors

  /** firstTileToGet: the last node's tile, or (-1, -1, -1) for an empty path. */
  function FirstTileToGet(p: AIPath): (c: Coord)
    ensures |p.nodes| == 0 ==> c == InvalidCoord
    ensures |p.nodes| > 0 ==> c == p.nodes[|p.nodes| - 1].coord
  {
    if |p.nodes| > 0 then p.nodes[|p.nodes| - 1].coord else InvalidCoord
  }

  /** getPathDanger: the danger at the destination, or 0 for an empty path. */
  function GetPathDanger(p: AIPath): (d: nat)
    ensures |p.nodes| == 0 ==> d == 0
    ensures |p.nodes| > 0 ==> d == p.nodes[0].danger
  {
    if |p.nodes| > 0 then p.nodes[0].danger else 0
  }

  /** movementCost: the destination's points used, as a ui32, or 0 for an empty path. */
  function MovementCost(p: AIPath): (r: nat)
    ensures r < TwoTo32
    ensures |p.nodes| == 0 ==> r == 0
    ensures |p.nodes| > 0 && 0 <= p.nodes[0].movementPointsUsed < TwoTo32 ==> r == p.nodes[0].movementPointsUsed
  {
    if |p.nodes| > 0 then U32(p.nodes[0].movementPointsUsed) else 0
  }

  /**
   * getTotalDanger: the larger of the path's danger and the danger the
   * evaluator sees at the destination tile (front() needs a node).
   */
  function GetTotalDanger(p: AIPath, w: World, hero: nat): (r: nat)
    requires |p.nodes| > 0
    ensures r >= GetPathDanger(p) && r >= w.evaluateDanger(p.nodes[0].coord, hero)
    ensures r == GetPathDanger(p) || r == w.evaluateDanger(p.nodes[0].coord, hero)
  {
    var pathDanger := GetPathDanger(p);
    var objDanger := w.evaluateDanger(p.nodes[0].coord, hero);
    if pathDanger > objDanger then pathDanger else objDanger
  }

  // ---------------------------------------------------------------------
  // AINodeStorage

  class AINodeStorage {
    const sizes: Coord
    /** NUM_CHAINS: slots per node. */
    const numChains: nat
    /** NORMAL_CHAIN, CAST_CHAIN and BATTLE_CHAIN. */
    const normalChain: nat
    const castChain: nat
    const battleChain: nat
    /** GameConstants::BASE_MOVEMENT_COST and SecSkillLevel::ADVANCED. */
    const baseMovementCost: int
    const advancedLevel: int
    const nodes: array<AINode>
    /** The hero set by setHero; None before the first call. */
    var hero: Option<Hero>

    ghost predicate Valid()
      reads this
    {
      SizesValid(sizes) && numChains > 0 && nodes.Length == NodeCount(sizes) * numChains
    }

    /** AINodeStorage(sizes): NUM_CHAINS default slots for every node. */
    constructor (s: Coord, chains: nat, normal: nat, cast: nat, battle: nat, baseCost: int, advanced: int)
      requires SizesValid(s) && chains > 0
      ensures Valid() && sizes == s && numChains == chains && hero == None
      ensures normalChain == normal && castChain == cast && battleChain == battle
      ensures baseMovementCost == baseCost && advancedLevel == advanced
      ensures fresh(nodes) && forall j :: 0 <= j < nodes.Length ==> nodes[j] == DefaultAINode
    {
      sizes := s;
      numChains := chains;
      normalChain := normal;
      castChain := cast;
      battleChain := battle;
      baseMovementCost := baseCost;
      advancedLevel := advanced;
      hero := None;
      nodes := new AINode[NodeCount(s) * chains](_ => DefaultAINode);
    }

    method SetHero(h: Hero)
      modifies this
      ensures hero == Some(h)
    {
      hero := Some(h);
    }

    /** isBattleNode: the slot's chain has the battle bit. */
    predicate IsBattleNode(i: nat)
      reads this, nodes
      requires i < nodes.Length
    {
      BitAnd(nodes[i].chainMask, battleChain) > 0
    }

    /** The slots of node (c, l). */
    ghost function Cell(c: Coord, l: Layer): (r: seq<AINode>)
      reads this, nodes
      requires Valid() && InBounds(sizes, c) && l != Wrong
      ensures |r| == numChains
    {
      var b := CellBase(sizes, c, l, numChains);
      nodes[b..b + numChains]
    }

    /**
     * getOrCreateNode(pos, layer, chainNumber): the scan stops at the first
     * slot that fits; a free one is then given the mask.
     */
    method GetOrCreateNode(c: Coord, l: Layer, m: nat) returns (r: Option<nat>)
      requires Valid() && InBounds(sizes, c) && l != Wrong
      modifies nodes
      ensures Claim(r, nodes[..]) == ClaimIn(sizes, numChains, old(nodes[..]), c, l, m)
    {
      var b := CellBase(sizes, c, l, numChains);
      ghost var t := nodes[..];
      ghost var cell := t[b..b + numChains];
      var i := ScanCell(b, m);
      ClaimInScan(sizes, numChains, t, c, l, m, i);
      if i == numChains {
        return None;
      }
      var n := nodes[b + i];
      assert n == cell[i] == t[b + i];
      if n.chainMask != m {
        nodes[b + i] := n.(chainMask := m);
      }
      return Some(b + i);
    }

    /** The scan of getOrCreateNode over the cell starting at b: the first slot that fits, or numChains. */
    method ScanCell(b: nat, m: nat) returns (i: nat)
      requires Valid() && b + numChains <= nodes.Length
      ensures i <= numChains
      ensures FindSlot(nodes[..][b..b + numChains], m, 0) == if i == numChains then None else Some(i)
    {
      ghost var cell := nodes[..][b..b + numChains];
      i := 0;
      while i < numChains && !Fits(nodes[b + i], m)
        invariant 0 <= i <= numChains
        invariant FindSlot(cell, m, i) == FindSlot(cell, m, 0)
      {
        assert nodes[b + i] == cell[i];
        i := i + 1;
      }
      if i < numChains {
        assert nodes[b + i] == cell[i];
      }
    }

    /**
     * getInitialNode: the NORMAL_CHAIN slot of the hero's tile, on SAIL in a
     * boat and on LAND otherwise, started with the hero's movement. None
     * stands for the source's `.get()` on an empty optional.
     */
    method GetInitialNode() returns (r: Option<nat>)
      requires Valid() && hero.Some? && InBounds(sizes, hero.value.position)
      modifies nodes
      ensures var h := hero.value;
        var q := ClaimIn(sizes, numChains, old(nodes[..]), h.position, InitialLayer(h), normalChain);
        && r == q.slot
        && (r.None? ==> nodes[..] == q.table)
        && (r.Some? ==> r.value < nodes.Length && nodes[..] == q.table[r.value := Started(q.table[r.value], h)])
    {
      var h := hero.value;
      r := GetOrCreateNode(h.position, InitialLayer(h), normalChain);
      if r.Some? {
        nodes[r.value] := Started(nodes[r.value], h);
      }
    }

    /** resetTile(coord, layer, accessibility). */
    method ResetTile(c: Coord, l: Layer, acc: Accessibility)
      requires Valid() && InBounds(sizes, c) && l != Wrong
      modifies nodes
      ensures var b := CellBase(sizes, c, l, numChains);
        nodes[..] == Splice(old(nodes[..]), b, ResetCell(old(nodes[..])[b..b + numChains], c, l, acc))
    {
      var b := CellBase(sizes, c, l, numChains);
      ghost var t := nodes[..];
      for i := 0 to numChains
        invariant forall j :: 0 <= j < nodes.Length ==>
          nodes[j] == if b <= j < b + i then ResetSlot(t[j], c, l, acc) else t[j]
      {
        nodes[b + i] := ResetSlot(nodes[b + i], c, l, acc);
      }
      ghost var u := Splice(t, b, ResetCell(t[b..b + numChains], c, l, acc));
      assert forall j :: 0 <= j < nodes.Length ==> nodes[j] == u[j];
    }

    /** commit(destination, source). */
    method Commit(dest: nat, src: nat, info: Destination, onDest: (AINode, AINode) -> AINode)
      requires Valid() && dest < nodes.Length && src < nodes.Length
      modifies nodes
      ensures nodes[..] == old(nodes[..])[dest := Committed(old(nodes[dest]), old(nodes[src]), info, onDest)]
    {
      nodes[dest] := Committed(nodes[dest], nodes[src], info, onDest);
    }

    /**
     * calculateNeighbours: for each neighbour tile and each layer LAND..AIR,
     * the slot of the source's chain, unless there is none or it is NOT_SET.
     */
    method CalculateNeighbours(src: nat, tiles: seq<Coord>) returns (result: seq<nat>)
      requires Valid() && src < nodes.Length
      requires forall i :: 0 <= i < |tiles| ==> InBounds(sizes, tiles[i])
      modifies nodes
      ensures TargetsOk(sizes, NeighbourTargets(tiles))
      ensures Run(result, nodes[..]) ==
        ClaimEach(sizes, numChains, old(nodes[..]), NeighbourTargets(tiles), old(nodes[src].chainMask), true)
    {
      var m := nodes[src].chainMask;
      ghost var t := nodes[..];
      NeighbourTargetsOk(sizes, tiles);
      result := [];
      var i := 0;
      while i < |tiles|
        invariant 0 <= i <= |tiles|
        invariant TargetsOk(sizes, NeighbourTargets(tiles[..i]))
        invariant Run(result, nodes[..]) == ClaimEach(sizes, numChains, t, NeighbourTargets(tiles[..i]), m, true)
      {
        ghost var pre := NeighbourTargets(tiles[..i]);
        assert tiles[..i + 1][..i] == tiles[..i];
        ClaimEachAppend(sizes, numChains, t, pre, LayersOf(tiles[i]), m, true);
        var found := NeighbourLayers(tiles[i], m);
        result := result + found;
        i := i + 1;
      }
      assert tiles[..|tiles|] == tiles;
    }

    /** The inner loop of calculateNeighbours: one neighbour tile, layers LAND to AIR. */
    method NeighbourLayers(c: Coord, m: nat) returns (found: seq<nat>)
      requires Valid() && InBounds(sizes, c)
      modifies nodes
      ensures TargetsOk(sizes, LayersOf(c))
      ensures Run(found, nodes[..]) == ClaimEach(sizes, numChains, old(nodes[..]), LayersOf(c), m, true)
    {
      ghost var t := nodes[..];
      ghost var ts := LayersOf(c);
      LayersOfOk(sizes, c);
      found := [];
      for li := 0 to NumLayers
        invariant Run(found, nodes[..]) == ClaimEach(sizes, numChains, t, ts[..li], m, true)
      {
        assert ts[..li + 1] == ts[..li] + [ts[li]];
        ClaimEachLast(sizes, numChains, t, ts[..li + 1], ts[..li], ts[li], m, true);
        found := ClaimTarget(Target(c, MovementLayers[li]), m, true, found);
      }
      assert ts[..NumLayers] == ts;
    }

    /**
     * calculateTeleportations: from a visitable source, the slot of the
     * source's chain at every exit on the source's layer; then, from the
     * hero's own tile, the town portal nodes.
     */
    method CalculateTeleportations(src: nat, visitable: bool, exits: seq<Coord>, towns: seq<Town>,
                                   caster: Caster, dist2: (Coord, Coord) -> int) returns (result: seq<nat>)
      requires Valid() && src < nodes.Length && hero.Some?
      requires visitable ==> nodes[src].node.base.layer != Wrong
      requires forall i :: 0 <= i < |exits| ==> InBounds(sizes, exits[i])
      requires TownsOk(sizes, towns)
      modifies nodes
      ensures var l := old(nodes[src].node.base.layer);
        var e := if visitable then ClaimEach(sizes, numChains, old(nodes[..]), ExitTargets(exits, l), old(nodes[src].chainMask), false)
                 else Run([], old(nodes[..]));
        var p := if hero.value.position == old(nodes[src].node.base.coord)
                 then PortalEach(sizes, numChains, e.table, src, PortalTowns(hero.value, towns, caster, baseMovementCost, advancedLevel, dist2),
                                 BitOr(old(nodes[src].chainMask), castChain))
                 else Run([], e.table);
        result == e.slots + p.slots && nodes[..] == p.table
    {
      result := [];
      var l := nodes[src].node.base.layer;
      var m := nodes[src].chainMask;
      var c := nodes[src].node.base.coord;
      ghost var t := nodes[..];
      if visitable {
        result := ExitsLoop(exits, l, m);
      }
      assert nodes[src].chainMask == m && nodes[src].node.base.coord == c by {
        if visitable {
          ClaimEachResult(sizes, numChains, t, ExitTargets(exits, l), m, false);
        }
      }
      if hero.value.position == c {
        result := TownPortalTeleportations(src, towns, caster, dist2, result);
      }
    }

    /** One getOrCreateNode of a loop over targets: the slot is kept unless it is skipped. */
    method ClaimTarget(x: Target, m: nat, skipNotSet: bool, found: seq<nat>) returns (result: seq<nat>)
      requires Valid() && InBounds(sizes, x.tile) && x.layer != Wrong
      modifies nodes
      ensures Run(result, nodes[..]) == ClaimStep(sizes, numChains, Run(found, old(nodes[..])), x, m, skipNotSet)
    {
      result := found;
      var r := GetOrCreateNode(x.tile, x.layer, m);
      if r.Some? && !(skipNotSet && nodes[r.value].node.base.accessible == NotSet) {
        result := found + [r.value];
      }
    }

    /** The exits loop of calculateTeleportations: the chain's slot at every exit, on layer l. */
    method ExitsLoop(exits: seq<Coord>, l: Layer, m: nat) returns (result: seq<nat>)
      requires Valid() && l != Wrong
      requires forall i :: 0 <= i < |exits| ==> InBounds(sizes, exits[i])
      modifies nodes
      ensures TargetsOk(sizes, ExitTargets(exits, l))
      ensures Run(result, nodes[..]) == ClaimEach(sizes, numChains, old(nodes[..]), ExitTargets(exits, l), m, false)
    {
      ghost var t := nodes[..];
      var ts := ExitTargets(exits, l);
      ExitTargetsOk(sizes, exits, l);
      result := [];
      var i := 0;
      while i < |exits|
        invariant 0 <= i <= |exits|
        invariant Run(result, nodes[..]) == ClaimEach(sizes, numChains, t, ts[..i], m, false)
      {
        assert ts[..i + 1] == ts[..i] + [ts[i]];
        ClaimEachLast(sizes, numChains, t, ts[..i + 1], ts[..i], ts[i], m, false);
        result := ClaimTarget(ts[i], m, false, result);
        i := i + 1;
      }
      assert ts[..|exits|] == ts;
    }

    /** calculateTownPortalTeleportations: appends the portal nodes to `neighbours`. */
    method TownPortalTeleportations(src: nat, towns: seq<Town>, caster: Caster, dist2: (Coord, Coord) -> int,
                                    neighbours: seq<nat>) returns (result: seq<nat>)
      requires Valid() && src < nodes.Length && hero.Some? && TownsOk(sizes, towns)
      modifies nodes
      ensures var p := PortalEach(sizes, numChains, old(nodes[..]), src,
                                  PortalTowns(hero.value, towns, caster, baseMovementCost, advancedLevel, dist2),
                                  BitOr(old(nodes[src].chainMask), castChain));
        result == neighbours + p.slots && nodes[..] == p.table
    {
      var h := hero.value;
      var m := BitOr(nodes[src].chainMask, castChain);
      ghost var t := nodes[..];
      var tried := PortalTowns(h, towns, caster, baseMovementCost, advancedLevel, dist2);
      PortalTownsOk(sizes, h, towns, caster, baseMovementCost, advancedLevel, dist2);
      var added := PortalTownsLoop(src, tried, m);
      result := neighbours + added;
    }

    /** The towns loop of calculateTownPortalTeleportations: the portal nodes, in the order of the towns. */
    method PortalTownsLoop(src: nat, tried: seq<Town>, m: nat) returns (added: seq<nat>)
      requires Valid() && src < nodes.Length && TownsOk(sizes, tried)
      modifies nodes
      ensures Run(added, nodes[..]) == PortalEach(sizes, numChains, old(nodes[..]), src, tried, m)
    {
      ghost var t := nodes[..];
      added := [];
      var i := 0;
      while i < |tried|
        invariant 0 <= i <= |tried|
        invariant Run(added, nodes[..]) == PortalEach(sizes, numChains, t, src, tried[..i], m)
      {
        var x := tried[i];
        assert tried[..i + 1] == tried[..i] + [x];
        PortalEachLast(sizes, numChains, t, src, tried[..i + 1], tried[..i], x, m);
        added := PortalTown(src, x, m, added);
        i := i + 1;
      }
      assert tried[..|tried|] == tried;
    }

    /** One town of calculateTownPortalTeleportations: unless a hero visits it, its LAND slot becomes a portal node. */
    method PortalTown(src: nat, x: Town, m: nat, added: seq<nat>) returns (result: seq<nat>)
      requires Valid() && src < nodes.Length && InBounds(sizes, x.visitablePos)
      modifies nodes
      ensures Run(result, nodes[..]) == PortalStep(sizes, numChains, Run(added, old(nodes[..])), src, x, m)
    {
      result := added;
      if !x.visitingHero {
        var r := GetOrCreateNode(x.visitablePos, Land, m);
        if r.Some? {
          nodes[r.value] := Portal(nodes[r.value], src, nodes[src], x);
          result := added + [r.value];
        }
      }
    }

    /**
     * hasBetterChain: some LAND slot at the destination's tile beats the
     * destination slot.
     */
    method HasBetterChain(pos: Coord, dest: nat) returns (r: bool)
      requires Valid() && InBounds(sizes, pos) && dest < nodes.Length
      ensures var b := CellBase(sizes, pos, Land, numChains);
        r <==> exists k :: b <= k < b + numChains && BeatsChain(nodes[k], nodes[dest])
    {
      var b := CellBase(sizes, pos, Land, numChains);
      var d := nodes[dest];
      for i := 0 to numChains
        invariant forall k :: b <= k < b + i ==> !BeatsChain(nodes[k], d)
      {
        var n := nodes[b + i];
        if n.chainMask == d.chainMask || n.node.base.action == Unknown {
          continue;
        }
        if n.danger <= d.danger && d.chainMask == 1 && n.chainMask == 0 {
          if n.node.base.turns < d.node.base.turns
            || (n.node.base.turns == d.node.base.turns && n.node.base.moveRemains >= d.node.base.moveRemains)
          {
            return true;
          }
        }
      }
      return false;
    }

    /** isTileAccessible: some slot of (pos, layer) has been reached. */
    method IsTileAccessible(pos: Coord, l: Layer) returns (r: bool)
      requires Valid() && InBounds(sizes, pos) && l != Wrong
      ensures var b := CellBase(sizes, pos, l, numChains);
        r <==> exists k :: b <= k < b + numChains && nodes[k].node.base.action != Unknown
    {
      var b := CellBase(sizes, pos, l, numChains);
      for i := 0 to numChains
        invariant forall k :: b <= k < b + i ==> nodes[k].node.base.action == Unknown
      {
        if nodes[b + i].node.base.action != Unknown {
          return true;
        }
      }
      return false;
    }

    /**
     * getChainInfo(pos, isOnLand): for each reached slot of the node (LAND
     * or SAIL), the walk back along predecessors to the hero's tile. The
     * walk ends because the links are ranked (`rank` is a proof device).
     */
    method GetChainInfo(pos: Coord, isOnLand: bool, ghost rank: seq<nat>) returns (paths: seq<AIPath>)
      requires Valid() && hero.Some? && InBounds(sizes, pos) && Linked(nodes[..], rank)
      ensures paths == ChainPaths(nodes[..], rank, CellBase(sizes, pos, if isOnLand then Land else Sail, numChains),
                                  numChains, hero.value.position, hero.value)
    {
      var l := if isOnLand then Land else Sail;
      var b := CellBase(sizes, pos, l, numChains);
      paths := [];
      for k := 0 to numChains
        invariant paths == ChainPaths(nodes[..], rank, b, k, hero.value.position, hero.value)
      {
        paths := EmitSlot(b, k, rank, paths);
      }
    }

    /** One slot of getChainInfo: skipped when no chain reached it, otherwise its path is appended. */
    method EmitSlot(b: nat, k: nat, ghost rank: seq<nat>, paths: seq<AIPath>) returns (r: seq<AIPath>)
      requires Valid() && hero.Some? && b + k < nodes.Length && Linked(nodes[..], rank)
      requires paths == ChainPaths(nodes[..], rank, b, k, hero.value.position, hero.value)
      ensures r == ChainPaths(nodes[..], rank, b, k + 1, hero.value.position, hero.value)
    {
      ChainPathsNext(nodes[..], rank, b, k, hero.value.position, hero.value);
      if nodes[b + k].node.base.action == Unknown {
        return paths;
      }
      var path := WalkChain(b + k, rank);
      r := paths + [path];
    }

    /** The inner loop of getChainInfo: from slot i back along the links until the hero's tile. */
    method WalkChain(i: nat, ghost rank: seq<nat>) returns (path: AIPath)
      requires Valid() && hero.Some? && i < nodes.Length && Linked(nodes[..], rank)
      ensures path == ChainPath(nodes[..], rank, i, hero.value.position, hero.value)
    {
      var h := hero.value;
      var initialPos := h.position;
      ghost var t := nodes[..];
      var infos: seq<PathNodeInfo> := [];
      var special: Option<SpecialAction> := None;
      var current: Option<nat> := Some(i);
      while current.Some? && nodes[current.value].node.base.coord != initialPos
        invariant current.Some? ==> current.value < nodes.Length
        invariant WalkFrom(t, rank, current, initialPos, h, AIPath(infos, special)) ==
                  WalkFrom(t, rank, Some(i), initialPos, h, EmptyPath)
        decreases if current.Some? then rank[current.value] + 1 else 0
      {
        var n := nodes[current.value];
        assert n == t[current.value];
        infos := infos + [NodeInfo(n, h)];
        special := n.special;
        current := n.node.before;
      }
      WalkFromPath(t, rank, Some(i), initialPos, h, []);
      assert [] + Walk(t, rank, Some(i), initialPos) == Walk(t, rank, Some(i), initialPos);
      path := AIPath(infos, special);
    }
  }
}
