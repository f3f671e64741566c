/**
 * ExecuteChain (AI/VCAI/Tasks/ExecuteChain.cpp): the goal that carries out
 * a hero chain. It totals the chain's movement, turns and army figures and
 * turns the chain's nodes into VisitTile subtasks: each node's hero visits
 * the node's tile, and where the hero changes from one node to the next the
 * earlier node's hero first meets the new one there. The list is built from
 * the chain's first node (its destination) on and then reversed, so that the
 * leg nearest to the heroes runs first.
 */
module Tasks {
  import opened PathTypes
  import opened GameWorld
  import opened TurnData

  const TwoTo64: nat := 0x1_0000_0000_0000_0000

  /** What a VisitTile subtask is sent to: no object, a hero (by id) or another object (by id). */
  datatype Visitee = NoObject | HeroObject(hero: nat) | Object(id: nat)

  /** VisitTile(tile, hero, target): hero `hero` (by id) goes to `tile` and visits `target` there. */
  datatype Subtask = VisitTile(tile: Coord, hero: nat, target: Visitee)

  /** The object the chain is for, as a subtask target: a null object is no object. */
  function ObjectTarget(obj: Option<nat>): (r: Visitee)
    ensures r.NoObject? <==> obj.None?
    ensures obj.Some? ==> r == Object(obj.value)
  {
    if obj.Some? then Object(obj.value) else NoObject
  }

  /** A node's own subtask: its hero visits its tile and the chain's object. */
  function NodeVisit(n: ChainPathNode, t: Visitee): Subtask
  {
    VisitTile(n.targetPosition, n.hero.id, t)
  }

  /** The hand-off before node n: the previous node's hero goes to n's tile to meet n's hero. */
  function HandOff(previous: ChainPathNode, n: ChainPathNode): Subtask
  {
    VisitTile(n.targetPosition, previous.hero.id, HeroObject(n.hero.id))
  }

  /** The hero changes between node i - 1 and node i. */
  predicate HeroChanges(ns: seq<ChainPathNode>, i: int)
    requires 0 < i < |ns|
  {
    ns[i - 1].hero.id != ns[i].hero.id
  }

  /** The subtasks the constructor's loop pushes for the nodes ns, in order, before the reversal. */
  function Legs(ns: seq<ChainPathNode>, t: Visitee): (r: seq<Subtask>)
  {
    if |ns| == 0 then []
    else
      var p := ns[..|ns| - 1];
      var n := ns[|ns| - 1];
      Legs(p, t) + (if |p| > 0 && p[|p| - 1].hero.id != n.hero.id then [HandOff(p[|p| - 1], n)] else []) + [NodeVisit(n, t)]
  }

  /** The number of hero changes along the chain. */
  function HandOffs(ns: seq<ChainPathNode>): (r: nat)
    ensures r < |ns| || r == 0
  {
    if |ns| <= 1 then 0
    else HandOffs(ns[..|ns| - 1]) + (if HeroChanges(ns, |ns| - 1) then 1 else 0)
  }

  /** std::reverse. */
  function Reverse<T>(s: seq<T>): (r: seq<T>)
    ensures |r| == |s|
    ensures forall k :: 0 <= k < |s| ==> r[k] == s[|s| - 1 - k]
  {
    if |s| == 0 then [] else [s[|s| - 1]] + Reverse(s[..|s| - 1])
  }

  /** movementPointsUsed: the nodes' points used, added up from 0. */
  function SumUsed(ns: seq<ChainPathNode>): int
  {
    if |ns| == 0 then 0 else SumUsed(ns[..|ns| - 1]) + ns[|ns| - 1].movementPointsUsed
  }

  /** vstd::amax(a, b): a, raised to b when a < b. */
  function Amax(a: real, b: real): (r: real)
    ensures r >= a && r >= b && (r == a || r == b)
  {
    if a < b then b else a
  }

  /** turns: the largest getTurns over the nodes, starting from 0. */
  function MaxTurns(ns: seq<ChainPathNode>, getTurns: ChainPathNode -> real): real
  {
    if |ns| == 0 then 0.0 else Amax(MaxTurns(ns[..|ns| - 1], getTurns), getTurns(ns[|ns| - 1]))
  }

  /** armyLeft: totalArmy - totalArmyLoss in uint64_t arithmetic. */
  function ArmyLeft(total: nat, loss: nat): (r: nat)
    requires total < TwoTo64 && loss < TwoTo64
    ensures r < TwoTo64
    ensures loss <= total ==> r == total - loss
    ensures loss > total ==> r == total + TwoTo64 - loss
  {
    (total - loss) % TwoTo64
  }

  /** The subtasks execute runs: in order, each one whose canExecute holds after those run before it. */
  function Executed(ts: seq<Subtask>, can: (Subtask, seq<Subtask>) -> bool): (r: seq<Subtask>)
    ensures |r| <= |ts|
  {
    if |ts| == 0 then []
    else
      var p := Executed(ts[..|ts| - 1], can);
      if can(ts[|ts| - 1], p) then p + [ts[|ts| - 1]] else p
  }

  /** a is b with some elements left out, the rest in their order. */
  predicate SubsequenceOf<T(==)>(a: seq<T>, b: seq<T>)
    decreases |b|
  {
    if |a| == 0 then true
    else if |b| == 0 then false
    else (a[|a| - 1] == b[|b| - 1] && SubsequenceOf(a[..|a| - 1], b[..|b| - 1])) || SubsequenceOf(a, b[..|b| - 1])
  }

  // ---------------------------------------------------------------------
  // What the subtask list holds

  /** Prefix of a chain: Legs only ever appends. */
  lemma {:induction false} LegsPrefix(ns: seq<ChainPathNode>, t: Visitee, i: nat)
    requires i <= |ns|
    ensures |Legs(ns[..i], t)| <= |Legs(ns, t)| && Legs(ns[..i], t) == Legs(ns, t)[..|Legs(ns[..i], t)|]
    decreases |ns|
  {
    if i < |ns| {
      var p := ns[..|ns| - 1];
      assert p[..i] == ns[..i];
      LegsPrefix(p, t, i);
    } else {
      assert ns[..i] == ns;
    }
  }

  /** One subtask per node and one more per change of hero. */
  lemma {:induction false} LegsCount(ns: seq<ChainPathNode>, t: Visitee)
    ensures |Legs(ns, t)| == |ns| + HandOffs(ns)
  {
    if |ns| > 0 {
      LegsCount(ns[..|ns| - 1], t);
      if |ns| > 1 {
        assert ns[..|ns| - 1][|ns| - 2] == ns[|ns| - 2];
      }
    }
  }

  /**
   * The first subtask pushed is the first node's visit, and the last pushed
   * is the last node's visit.
   */
  lemma {:induction false} LegsEnds(ns: seq<ChainPathNode>, t: Visitee)
    requires |ns| > 0
    ensures |Legs(ns, t)| > 0
    ensures Legs(ns, t)[0] == NodeVisit(ns[0], t)
    ensures Legs(ns, t)[|Legs(ns, t)| - 1] == NodeVisit(ns[|ns| - 1], t)
  {
    if |ns| > 1 {
      var p := ns[..|ns| - 1];
      LegsEnds(p, t);
      assert p[0] == ns[0];
    }
  }

  /** Node i's visit sits after the visits of the nodes before it and the hand-offs up to node i. */
  lemma {:induction false} LegsVisitAt(ns: seq<ChainPathNode>, t: Visitee, i: nat)
    requires i < |ns|
    ensures i + HandOffs(ns[..i + 1]) < |Legs(ns, t)|
    ensures Legs(ns, t)[i + HandOffs(ns[..i + 1])] == NodeVisit(ns[i], t)
  {
    var q := ns[..i + 1];
    LegsCount(q, t);
    LegsPrefix(ns, t, i + 1);
    assert q[..|q| - 1] == ns[..i];
    assert Legs(q, t)[|Legs(q, t)| - 1] == NodeVisit(ns[i], t);
  }

  /** x is node i's visit, or the hand-off into node i where the hero changes. */
  predicate LegOf(ns: seq<ChainPathNode>, t: Visitee, i: int, x: Subtask)
  {
    0 <= i < |ns| && (x == NodeVisit(ns[i], t) || (0 < i && HeroChanges(ns, i) && x == HandOff(ns[i - 1], ns[i])))
  }

  /** x belongs to some node of ns. */
  ghost predicate IsLeg(ns: seq<ChainPathNode>, t: Visitee, x: Subtask)
  {
    exists i :: LegOf(ns, t, i, x)
  }

  /** Every subtask of r belongs to some node of ns. */
  ghost predicate AllLegs(r: seq<Subtask>, ns: seq<ChainPathNode>, t: Visitee)
  {
    forall j :: 0 <= j < |r| ==> IsLeg(ns, t, r[j])
  }

  /** What belongs to a node of a prefix belongs to that node of the whole chain. */
  lemma LegOfWiden(p: seq<ChainPathNode>, ns: seq<ChainPathNode>, t: Visitee, i: int, x: Subtask)
    requires |p| <= |ns| && p == ns[..|p|] && LegOf(p, t, i, x)
    ensures LegOf(ns, t, i, x)
  {
    assert p[i] == ns[i];
    if 0 < i {
      assert p[i - 1] == ns[i - 1];
    }
  }

  /**
   * Every subtask is some node's visit, by that node's hero, or a hand-off
   * into some node from the previous node's hero where the hero changes.
   */
  lemma {:induction false} LegsShape(ns: seq<ChainPathNode>, t: Visitee)
    ensures AllLegs(Legs(ns, t), ns, t)
  {
    if |ns| > 0 {
      var p := ns[..|ns| - 1];
      LegsShape(p, t);
      var r := Legs(ns, t);
      forall j | 0 <= j < |r|
        ensures IsLeg(ns, t, r[j])
      {
        LegsShapeStep(ns, t, j);
      }
    }
  }

  /** Subtask j of the chain belongs to a node, given that the prefix's subtasks do. */
  lemma LegsShapeStep(ns: seq<ChainPathNode>, t: Visitee, j: nat)
    requires |ns| > 0 && AllLegs(Legs(ns[..|ns| - 1], t), ns[..|ns| - 1], t) && j < |Legs(ns, t)|
    ensures IsLeg(ns, t, Legs(ns, t)[j])
  {
    var p := ns[..|ns| - 1];
    var r := Legs(ns, t);
    var lp := Legs(p, t);
    if j < |lp| {
      assert r[j] == lp[j];
      var i :| LegOf(p, t, i, lp[j]);
      LegOfWiden(p, ns, t, i, lp[j]);
    } else if j == |r| - 1 {
      assert LegOf(ns, t, |ns| - 1, r[j]);
    } else {
      assert |p| > 0 && p[|p| - 1] == ns[|ns| - 2];
      assert LegOf(ns, t, |ns| - 1, r[j]);
    }
  }

  /** With one hero all along, the subtasks are the nodes' visits, one each, in order. */
  lemma {:induction false} LegsOneHero(ns: seq<ChainPathNode>, t: Visitee)
    requires forall i :: 0 < i < |ns| ==> !HeroChanges(ns, i)
    ensures Legs(ns, t) == seq(|ns|, i requires 0 <= i < |ns| => NodeVisit(ns[i], t))
  {
    if |ns| > 0 {
      var p := ns[..|ns| - 1];
      forall i | 0 < i < |p|
        ensures !HeroChanges(p, i)
      {
        assert !HeroChanges(ns, i);
      }
      LegsOneHero(p, t);
      if |p| > 0 {
        assert !HeroChanges(ns, |ns| - 1);
      }
    }
  }

  /** The reversed list starts with the last node's visit and ends with the first node's. */
  lemma ReversedEnds(ns: seq<ChainPathNode>, t: Visitee)
    requires |ns| > 0
    ensures var r := Reverse(Legs(ns, t));
      |r| == |ns| + HandOffs(ns) && r[0] == NodeVisit(ns[|ns| - 1], t) && r[|r| - 1] == NodeVisit(ns[0], t)
  {
    LegsEnds(ns, t);
    LegsCount(ns, t);
  }

  // ---------------------------------------------------------------------
  // The totals

  /** The points used of two stretches of a chain add up. */
  lemma {:induction false} SumUsedAppend(a: seq<ChainPathNode>, b: seq<ChainPathNode>)
    ensures SumUsed(a + b) == SumUsed(a) + SumUsed(b)
    decreases |b|
  {
    if |b| == 0 {
      assert a + b == a;
    } else {
      var b' := b[..|b| - 1];
      SumUsedAppend(a, b');
      assert (a + b)[..|a + b| - 1] == a + b';
    }
  }

  /** turns is at least 0 and every node's turns, and it is 0 or some node's turns. */
  lemma {:induction false} MaxTurnsBounds(ns: seq<ChainPathNode>, getTurns: ChainPathNode -> real)
    ensures MaxTurns(ns, getTurns) >= 0.0
    ensures forall i :: 0 <= i < |ns| ==> getTurns(ns[i]) <= MaxTurns(ns, getTurns)
    ensures MaxTurns(ns, getTurns) == 0.0 || exists i :: 0 <= i < |ns| && MaxTurns(ns, getTurns) == getTurns(ns[i])
  {
    if |ns| > 0 {
      var p := ns[..|ns| - 1];
      MaxTurnsBounds(p, getTurns);
      assert forall i :: 0 <= i < |p| ==> p[i] == ns[i];
      if MaxTurns(ns, getTurns) != 0.0 && MaxTurns(ns, getTurns) != getTurns(ns[|ns| - 1]) {
        var i :| 0 <= i < |p| && MaxTurns(p, getTurns) == getTurns(p[i]);
        assert MaxTurns(ns, getTurns) == getTurns(ns[i]);
      }
    }
  }

  // ---------------------------------------------------------------------
  // execute

  /** execute runs some of the subtasks, in their order. */
  lemma {:induction false} ExecutedInOrder(ts: seq<Subtask>, can: (Subtask, seq<Subtask>) -> bool)
    ensures SubsequenceOf(Executed(ts, can), ts)
  {
    if |ts| > 0 {
      var p := ts[..|ts| - 1];
      ExecutedInOrder(p, can);
      var e := Executed(p, can);
      if can(ts[|ts| - 1], e) {
        assert (e + [ts[|ts| - 1]])[..|e|] == e;
      } else {
        SubsequenceDrop(e, ts);
      }
    }
  }

  lemma SubsequenceDrop<T>(a: seq<T>, b: seq<T>)
    requires |b| > 0 && SubsequenceOf(a, b[..|b| - 1])
    ensures SubsequenceOf(a, b)
  {
  }

  /** When every subtask can always run, execute runs all of them. */
  lemma {:induction false} ExecutedAll(ts: seq<Subtask>, can: (Subtask, seq<Subtask>) -> bool)
    requires forall x, p :: can(x, p)
    ensures Executed(ts, can) == ts
  {
    if |ts| > 0 {
      ExecutedAll(ts[..|ts| - 1], can);
    }
  }

  /** When no subtask can run, execute runs none. */
  lemma {:induction false} ExecutedNone(ts: seq<Subtask>, can: (Subtask, seq<Subtask>) -> bool)
    requires forall x, p :: !can(x, p)
    ensures Executed(ts, can) == []
  {
    if |ts| > 0 {
      ExecutedNone(ts[..|ts| - 1], can);
    }
  }

  // ---------------------------------------------------------------------
  // The ExecuteChain goal

  class ExecuteChain {
    var movementPointsUsed: int
    var turns: real
    var complexity: int
    var armyLoss: nat      // uint64_t
    var armyLeft: nat      // uint64_t
    var armyTotal: nat     // uint64_t
    var subTasks: seq<Subtask>
    /** The chain this goal was made from and the target of its visits. */
    ghost var chain: seq<ChainPathNode>
    ghost var target: Visitee

    /** The subtasks are the chain's legs, reversed. */
    ghost predicate Valid()
      reads this
    {
      |chain| > 0 && subTasks == Reverse(Legs(chain, target))
    }

    /**
     * ExecuteChain(chainPath, totalArmy, totalArmyLoss, obj): the totals of
     * the chain and its subtasks. getTurns, a floating-point division, is
     * taken as given.
     */
    constructor (chainPath: ChainPath, totalArmy: nat, totalArmyLoss: nat, obj: Option<nat>,
                 getTurns: ChainPathNode -> real)
      requires |chainPath.nodes| > 0 && totalArmy < TwoTo64 && totalArmyLoss < TwoTo64
      ensures Valid() && chain == chainPath.nodes && target == ObjectTarget(obj)
      ensures movementPointsUsed == SumUsed(chainPath.nodes)
      ensures turns == MaxTurns(chainPath.nodes, getTurns)
      ensures complexity == |chainPath.nodes|
      ensures armyLoss == totalArmyLoss && armyTotal == totalArmy && armyLeft == ArmyLeft(totalArmy, totalArmyLoss)
    {
      var ns := chainPath.nodes;
      var used := 0;
      var tr: real := 0.0;
      var tasks: seq<Subtask> := [];
      var previousHero: Option<nat> := None;
      var currentObj := ObjectTarget(obj);
      for i := 0 to |ns|
        invariant used == SumUsed(ns[..i])
        invariant tr == MaxTurns(ns[..i], getTurns)
        invariant tasks == Legs(ns[..i], currentObj)
        invariant previousHero == if i == 0 then None else Some(ns[i - 1].hero.id)
      {
        assert ns[..i + 1][..i] == ns[..i];
        var node := ns[i];
        used := used + node.movementPointsUsed;
        tr := Amax(tr, getTurns(node));
        if previousHero.Some? && previousHero.value != node.hero.id {
          tasks := tasks + [VisitTile(node.targetPosition, previousHero.value, HeroObject(node.hero.id))];
        }
        tasks := tasks + [VisitTile(node.targetPosition, node.hero.id, currentObj)];
        previousHero := Some(node.hero.id);
      }
      assert ns[..|ns|] == ns;
      movementPointsUsed := used;
      turns := tr;
      complexity := |ns|;
      armyLoss := totalArmyLoss;
      armyTotal := totalArmy;
      armyLeft := ArmyLeft(totalArmy, totalArmyLoss);
      subTasks := Reverse(tasks);
      chain := ns;
      target := currentObj;
    }

    /**
     * canExecute: whether the first subtask can run, which is the visit of
     * the chain's last node by its hero.
     */
    function CanExecute(can: Subtask -> bool): (r: bool)
      reads this
      requires Valid()
      ensures r == can(NodeVisit(chain[|chain| - 1], target))
    {
      ReversedEnds(chain, target);
      can(subTasks[0])
    }

    /**
     * execute: each subtask in turn runs when its canExecute holds, judged
     * after the subtasks run before it.
     */
    method Execute(can: (Subtask, seq<Subtask>) -> bool) returns (done: seq<Subtask>)
      ensures done == Executed(subTasks, can)
    {
      done := [];
      for i := 0 to |subTasks|
        invariant done == Executed(subTasks[..i], can)
      {
        assert subTasks[..i + 1][..i] == subTasks[..i];
        if can(subTasks[i], done) {
          done := done + [subTasks[i]];
        }
      }
      assert subTasks[..|subTasks|] == subTasks;
    }
  }
}
