/**
 * CPathsInfo (lib/CPathfinder.cpp, lib/CPathfinder.h): the table of
 * single-actor nodes the search fills in, and the walk back along
 * predecessors that turns a table entry into a path.
 *
 * The walk terminates because predecessor links never form a cycle. The
 * search only ever links a node to a locked node, and nodes are locked one
 * at a time; the order in which they were first locked (a ghost ranking)
 * decreases along every link out of a locked node.
 */
module Paths {
  import opened PathTypes
  import opened GameWorld

  /** CGPath: nodes[0] is the destination, the last node the start. */
  datatype GPath = GPath(nodes: seq<PathNode>)

  /** CGPath::startPos. */
  function StartPos(p: GPath): Coord
    requires |p.nodes| > 0
  {
    p.nodes[|p.nodes| - 1].base.coord
  }

  /** CGPath::endPos. */
  function EndPos(p: GPath): Coord
    requires |p.nodes| > 0
  {
    p.nodes[0].base.coord
  }

  // ---------------------------------------------------------------------
  // Predecessor links without cycles

  /**
   * Every predecessor is a locked node of the table; a locked node's
   * predecessor was locked earlier; every lock rank is below `lockCount`.
   */
  ghost predicate Acyclic(s: seq<PathNode>, rank: seq<nat>, lockCount: nat)
  {
    |rank| == |s|
    && forall i :: 0 <= i < |s| ==>
      (s[i].locked ==> rank[i] < lockCount)
      && (s[i].before.Some? ==>
            s[i].before.value < |s| && s[s[i].before.value].locked
            && (s[i].locked ==> rank[s[i].before.value] < rank[i]))
  }

  /** Decreases along every predecessor link. */
  ghost function Measure(s: seq<PathNode>, rank: seq<nat>, lockCount: nat, i: nat): nat
    requires |rank| == |s| && i < |s|
  {
    if s[i].locked then rank[i] else lockCount
  }

  lemma MeasureDecreases(s: seq<PathNode>, rank: seq<nat>, lockCount: nat, i: nat)
    requires Acyclic(s, rank, lockCount) && i < |s| && s[i].before.Some?
    ensures Measure(s, rank, lockCount, s[i].before.value) < Measure(s, rank, lockCount, i)
  {
  }

  /** The indices visited from i: i, its predecessor, and so on until a node without one. */
  ghost function Chain(s: seq<PathNode>, rank: seq<nat>, lockCount: nat, i: nat): (r: seq<nat>)
    requires Acyclic(s, rank, lockCount) && i < |s|
    ensures |r| > 0 && r[0] == i
    ensures forall k :: 0 <= k < |r| ==> r[k] < |s|
    decreases Measure(s, rank, lockCount, i)
  {
    if s[i].before.None? then [i]
    else
      MeasureDecreases(s, rank, lockCount, i);
      [i] + Chain(s, rank, lockCount, s[i].before.value)
  }

  /** The chain follows the links, ends at the one node without a predecessor, and all but its first node are locked. */
  lemma {:induction false} ChainLinks(s: seq<PathNode>, rank: seq<nat>, lockCount: nat, i: nat)
    requires Acyclic(s, rank, lockCount) && i < |s|
    ensures var c := Chain(s, rank, lockCount, i);
      && (forall k :: 0 <= k < |c| - 1 ==> s[c[k]].before == Some(c[k + 1]))
      && s[c[|c| - 1]].before.None?
      && (forall k :: 0 < k < |c| ==> s[c[k]].locked)
    decreases Measure(s, rank, lockCount, i)
  {
    var c := Chain(s, rank, lockCount, i);
    if s[i].before.Some? {
      var p := s[i].before.value;
      MeasureDecreases(s, rank, lockCount, i);
      ChainLinks(s, rank, lockCount, p);
      var t := Chain(s, rank, lockCount, p);
      assert c == [i] + t;
      forall k | 0 < k < |c|
        ensures s[c[k]].locked
      {
        if k == 1 {
        } else {
          assert c[k] == t[k - 1];
        }
      }
    }
  }

  /** The measure falls strictly along c. */
  ghost predicate Falls(s: seq<PathNode>, rank: seq<nat>, lockCount: nat, c: seq<nat>)
    requires |rank| == |s| && forall k :: 0 <= k < |c| ==> c[k] < |s|
  {
    forall k, j :: 0 <= k < j < |c| ==> Measure(s, rank, lockCount, c[j]) < Measure(s, rank, lockCount, c[k])
  }

  /** The measure falls strictly along the chain. */
  lemma {:induction false} ChainMeasure(s: seq<PathNode>, rank: seq<nat>, lockCount: nat, i: nat)
    requires Acyclic(s, rank, lockCount) && i < |s|
    ensures Falls(s, rank, lockCount, Chain(s, rank, lockCount, i))
    decreases Measure(s, rank, lockCount, i)
  {
    var c := Chain(s, rank, lockCount, i);
    if s[i].before.Some? {
      var p := s[i].before.value;
      MeasureDecreases(s, rank, lockCount, i);
      ChainMeasure(s, rank, lockCount, p);
      var t := Chain(s, rank, lockCount, p);
      assert c == [i] + t;
      forall k, j | 0 <= k < j < |c|
        ensures Measure(s, rank, lockCount, c[j]) < Measure(s, rank, lockCount, c[k])
      {
        assert c[j] == t[j - 1];
        if k == 0 {
          if j > 1 {
            assert Measure(s, rank, lockCount, t[j - 1]) < Measure(s, rank, lockCount, t[0]);
          }
        } else {
          assert c[k] == t[k - 1];
        }
      }
    }
  }

  /**
   * The chain stays in the table, follows the links, ends at the one node
   * without a predecessor, visits no node twice, and all but its first
   * node are locked.
   */
  lemma {:induction false} ChainProps(s: seq<PathNode>, rank: seq<nat>, lockCount: nat, i: nat)
    requires Acyclic(s, rank, lockCount) && i < |s|
    ensures var c := Chain(s, rank, lockCount, i);
      && (forall k :: 0 <= k < |c| - 1 ==> s[c[k]].before == Some(c[k + 1]))
      && s[c[|c| - 1]].before.None?
      && (forall k :: 0 < k < |c| ==> s[c[k]].locked)
      && (forall k, j :: 0 <= k < j < |c| ==> c[k] != c[j])
      && (forall k :: 0 <= k < |c| ==> Measure(s, rank, lockCount, c[k]) <= Measure(s, rank, lockCount, i))
      && (forall k :: 0 < k < |c| ==> Measure(s, rank, lockCount, c[k]) < Measure(s, rank, lockCount, i))
  {
    ChainLinks(s, rank, lockCount, i);
    ChainMeasure(s, rank, lockCount, i);
    var c := Chain(s, rank, lockCount, i);
    assert Falls(s, rank, lockCount, c);
    forall k, j | 0 <= k < j < |c|
      ensures c[k] != c[j]
    {
      assert Measure(s, rank, lockCount, c[j]) < Measure(s, rank, lockCount, c[k]);
    }
  }

  /** getPath's loop: from cur, each node is appended to acc and its predecessor followed. */
  ghost function WalkOut(s: seq<PathNode>, rank: seq<nat>, lockCount: nat, cur: Option<nat>, acc: seq<PathNode>): seq<PathNode>
    requires Acyclic(s, rank, lockCount) && (cur.Some? ==> cur.value < |s|)
    decreases if cur.Some? then Measure(s, rank, lockCount, cur.value) + 1 else 0
  {
    if cur.None? then acc
    else
      var i := cur.value;
      if s[i].before.Some? then
        MeasureDecreases(s, rank, lockCount, i);
        WalkOut(s, rank, lockCount, s[i].before, acc + [s[i]])
      else acc + [s[i]]
  }

  /** The loop's walk from i yields acc followed by the nodes of the chain from i. */
  lemma {:induction false} WalkOutChain(s: seq<PathNode>, rank: seq<nat>, lockCount: nat, i: nat, acc: seq<PathNode>)
    requires Acyclic(s, rank, lockCount) && i < |s|
    ensures var c := Chain(s, rank, lockCount, i);
      var r := WalkOut(s, rank, lockCount, Some(i), acc);
      && |r| == |acc| + |c|
      && (forall k :: 0 <= k < |acc| ==> r[k] == acc[k])
      && (forall k :: 0 <= k < |c| ==> r[|acc| + k] == s[c[k]])
    decreases Measure(s, rank, lockCount, i)
  {
    var c := Chain(s, rank, lockCount, i);
    if s[i].before.Some? {
      var p := s[i].before.value;
      MeasureDecreases(s, rank, lockCount, i);
      WalkOutChain(s, rank, lockCount, p, acc + [s[i]]);
      var c' := Chain(s, rank, lockCount, p);
      assert c == [i] + c';
      var r := WalkOut(s, rank, lockCount, Some(i), acc);
      forall k | 0 <= k < |c|
        ensures r[|acc| + k] == s[c[k]]
      {
        if k > 0 {
          assert c[k] == c'[k - 1];
          assert |acc| + k == |acc + [s[i]]| + (k - 1);
        }
      }
    }
  }

  /** A table of unlocked nodes without predecessors is acyclic for any ranking. */
  lemma AcyclicUnlinked(s: seq<PathNode>)
    requires forall i :: 0 <= i < |s| ==> !s[i].locked && s[i].before.None?
    ensures Acyclic(s, seq(|s|, _ => 0), 0)
  {
  }

  /** Locking node i for the first time ranks it after every locked node. */
  lemma AcyclicLock(s: seq<PathNode>, rank: seq<nat>, lockCount: nat, i: nat)
    requires Acyclic(s, rank, lockCount) && i < |s| && !s[i].locked
    ensures Acyclic(s[i := s[i].(locked := true)], rank[i := lockCount], lockCount + 1)
  {
    var s' := s[i := s[i].(locked := true)];
    var rank' := rank[i := lockCount];
    forall j | 0 <= j < |s'|
      ensures (s'[j].locked ==> rank'[j] < lockCount + 1)
      ensures s'[j].before.Some? ==>
            s'[j].before.value < |s'| && s'[s'[j].before.value].locked
            && (s'[j].locked ==> rank'[s'[j].before.value] < rank'[j])
    {
      if s'[j].before.Some? {
        var p := s'[j].before.value;
        assert p != i;
      }
    }
  }

  /** Writing an unlocked node that links to a locked node keeps the table acyclic. */
  lemma AcyclicWrite(s: seq<PathNode>, rank: seq<nat>, lockCount: nat, d: nat, n: PathNode)
    requires Acyclic(s, rank, lockCount) && d < |s| && !s[d].locked && !n.locked
    requires n.before.Some? ==> n.before.value < |s| && s[n.before.value].locked
    ensures Acyclic(s[d := n], rank, lockCount)
  {
    var s' := s[d := n];
    forall j | 0 <= j < |s'|
      ensures (s'[j].locked ==> rank[j] < lockCount)
      ensures s'[j].before.Some? ==>
            s'[j].before.value < |s'| && s'[s'[j].before.value].locked
            && (s'[j].locked ==> rank[s'[j].before.value] < rank[j])
    {
      if s'[j].before.Some? {
        assert s'[j].before.value != d;
      }
    }
  }

  // ---------------------------------------------------------------------
  // CPathsInfo

  class PathsInfo {
    const sizes: Coord
    /** The [w][h][level][layer] multi_array, flattened by NodeIndex. */
    const nodes: array<PathNode>
    /** The hero the table was computed for (by id), and its position. */
    var hero: Option<nat>
    var hpos: Coord
    ghost var rank: seq<nat>
    ghost var lockCount: nat

    ghost predicate Valid()
      reads this, nodes
    {
      SizesValid(sizes) && nodes.Length == NodeCount(sizes)
      && Acyclic(nodes[..], rank, lockCount)
    }

    /** CPathsInfo(Sizes): no hero yet, every node default-constructed. */
    constructor (s: Coord)
      requires SizesValid(s)
      ensures Valid() && sizes == s && hero == None
      ensures fresh(nodes)
      ensures forall i :: 0 <= i < nodes.Length ==> nodes[i] == DefaultPathNode
    {
      sizes := s;
      hero := None;
      hpos := InvalidCoord;
      nodes := new PathNode[NodeCount(s)](_ => DefaultPathNode);
      rank := seq(NodeCount(s), _ => 0);
      lockCount := 0;
      new;
      AcyclicUnlinked(nodes[..]);
    }

    /** getNode(coord, layer). */
    function NodeAt(c: Coord, l: Layer): (r: nat)
      reads this
      requires SizesValid(sizes) && 0 <= c.x < sizes.x && 0 <= c.y < sizes.y && 0 <= c.z < sizes.z && l != Wrong
      ensures r < NodeCount(sizes)
    {
      TileIndexBound(sizes, c);
      MixedRadixBound(TileIndex(sizes, c), LayerIndex(l), NumLayers, TileCount(sizes));
      NodeIndex(sizes, c, l)
    }

    /** getNode(coord): the land node when it is reachable, the sail node otherwise. */
    function GetNode(c: Coord): (r: nat)
      reads this, nodes
      requires SizesValid(sizes) && nodes.Length == NodeCount(sizes)
      requires 0 <= c.x < sizes.x && 0 <= c.y < sizes.y && 0 <= c.z < sizes.z
      ensures r < nodes.Length
      ensures r == NodeAt(c, Land) <==> Reachable(nodes[NodeAt(c, Land)].base)
      ensures r != NodeAt(c, Land) ==> r == NodeAt(c, Sail)
    {
      LandSailDistinct(c);
      var land := NodeAt(c, Land);
      if Reachable(nodes[land].base) then land else NodeAt(c, Sail)
    }

    lemma LandSailDistinct(c: Coord)
      requires SizesValid(sizes) && 0 <= c.x < sizes.x && 0 <= c.y < sizes.y && 0 <= c.z < sizes.z
      ensures NodeAt(c, Land) != NodeAt(c, Sail)
    {
    }

    /**
     * getPath(out, dst): false, with an empty path, when dst's node has no
     * predecessor; otherwise the nodes from dst back to the start.
     */
    method GetPath(dst: Coord) returns (ok: bool, path: GPath)
      requires Valid()
      requires 0 <= dst.x < sizes.x && 0 <= dst.y < sizes.y && 0 <= dst.z < sizes.z
      ensures ok <==> nodes[GetNode(dst)].before.Some?
      ensures !ok ==> path.nodes == []
      ensures ok ==>
        var c := Chain(nodes[..], rank, lockCount, GetNode(dst));
        |path.nodes| == |c| && forall k :: 0 <= k < |c| ==> path.nodes[k] == nodes[c[k]]
    {
      var idx := GetNode(dst);
      if nodes[idx].before.None? {
        return false, GPath([]);
      }
      ghost var s := nodes[..];
      var out: seq<PathNode> := [];
      var cur: Option<nat> := Some(idx);
      while cur.Some?
        invariant cur.Some? ==> cur.value < nodes.Length
        invariant WalkOut(s, rank, lockCount, cur, out) == WalkOut(s, rank, lockCount, Some(idx), [])
        decreases if cur.Some? then Measure(s, rank, lockCount, cur.value) + 1 else 0
      {
        var cpn := nodes[cur.value];
        if cpn.before.Some? {
          MeasureDecreases(s, rank, lockCount, cur.value);
        }
        cur := cpn.before;
        out := out + [cpn];
      }
      WalkOutChain(s, rank, lockCount, idx, []);
      return true, GPath(out);
    }

    /** getDistance: the number of nodes on the path, 255 when there is none. */
    method GetDistance(tile: Coord) returns (d: int)
      requires Valid()
      requires 0 <= tile.x < sizes.x && 0 <= tile.y < sizes.y && 0 <= tile.z < sizes.z
      ensures d == if nodes[GetNode(tile)].before.Some? then |Chain(nodes[..], rank, lockCount, GetNode(tile))| else 255
    {
      var ok, ret := GetPath(tile);
      if ok {
        d := |ret.nodes|;
      } else {
        d := 255;
      }
    }
  }

  /**
   * The path read-out, summarised: a path exists exactly when the
   * destination has a predecessor; it then starts at the destination
   * (endPos), ends at a node without predecessor (startPos), has at least
   * two nodes and no repeated node, and each node is the predecessor of the
   * one before it.
   */
  lemma PathShape(s: seq<PathNode>, rank: seq<nat>, lockCount: nat, i: nat)
    requires Acyclic(s, rank, lockCount) && i < |s| && s[i].before.Some?
    ensures var c := Chain(s, rank, lockCount, i);
      var p := GPath(seq(|c|, k requires 0 <= k < |c| => s[c[k]]));
      && |p.nodes| >= 2
      && EndPos(p) == s[i].base.coord
      && p.nodes[|p.nodes| - 1].before.None?
      && StartPos(p) == s[c[|c| - 1]].base.coord
      && (forall k :: 0 <= k < |c| - 1 ==> s[c[k]].before == Some(c[k + 1]))
      && (forall k, j :: 0 <= k < j < |c| ==> c[k] != c[j])
  {
    ChainProps(s, rank, lockCount, i);
    var c := Chain(s, rank, lockCount, i);
    assert c == [i] + Chain(s, rank, lockCount, s[i].before.value);
  }
}
