/**
 The linked nodes of a skip list (`minikv/src/core/skip_list.h`): what every forward pointer must
 be, and the loops of `put` and `del` that relink a node level by level.
 */
module SkipLinks {
  import opened Bytes
  import opened SkipLevels

  const MAX_LEVEL := 32

  class SkipNode {
    const key: bytes
    var value: bytes
    const forward: array<SkipNode?>

    constructor (key: bytes, value: bytes, level: nat)
      ensures this.key == key && this.value == value
      ensures fresh(forward) && forward.Length == level + 1
      ensures forall i :: 0 <= i <= level ==> forward[i] == null
    {
      this.key, this.value := key, value;
      forward := new SkipNode?[level + 1](_ => null);
    }
  }

  // ---- Nodes in level-0 order, the head first; row p of a link table is the forward array of node p ----

  type Nodes = seq<SkipNode>
  type Table = seq<seq<SkipNode?>>

  ghost function Heights(nodes: Nodes): (h: seq<nat>)
    ensures |h| == |nodes|
    ensures forall p :: 0 <= p < |h| ==> h[p] == nodes[p].forward.Length
  {
    seq(|nodes|, p requires 0 <= p < |nodes| => nodes[p].forward.Length)
  }

  ghost function At(nodes: Nodes, q: nat): SkipNode? {
    if q < |nodes| then nodes[q] else null
  }

  /** The node a level-`i` link at position `p` must lead to. */
  ghost function Target(nodes: Nodes, p: nat, i: nat): SkipNode?
    requires p < |nodes|
  {
    At(nodes, Next(Heights(nodes), p, i))
  }

  ghost predicate Shape(nodes: Nodes) {
    && |nodes| > 0
    && nodes[0].forward.Length == MAX_LEVEL + 1
    && (forall p :: 0 <= p < |nodes| ==> 1 <= nodes[p].forward.Length <= MAX_LEVEL + 1)
    && (forall p, q :: 0 <= p < q < |nodes| ==> nodes[p] != nodes[q])
    && (forall p, q :: 0 <= p < q < |nodes| ==> nodes[p].forward != nodes[q].forward)
  }

  ghost predicate Sized(nodes: Nodes, m: Table) {
    |m| == |nodes| && forall p :: 0 <= p < |nodes| ==> |m[p]| == nodes[p].forward.Length
  }

  /** Level `i` threads, in order, exactly the nodes that are tall enough. */
  ghost predicate LevelLinked(nodes: Nodes, m: Table, i: nat)
    requires Sized(nodes, m)
  {
    forall p :: 0 <= p < |nodes| && i < |m[p]| ==> m[p][i] == Target(nodes, p, i)
  }

  ghost predicate Linked(nodes: Nodes, m: Table)
    requires Sized(nodes, m)
  {
    forall p, i :: 0 <= p < |nodes| && 0 <= i < |m[p]| ==> m[p][i] == Target(nodes, p, i)
  }

  ghost function Arrays(nodes: Nodes): set<object> {
    set n | n in nodes :: n.forward
  }

  /** The heap holds the link table. */
  ghost predicate Coupled(nodes: Nodes, m: Table)
    reads Arrays(nodes)
  {
    |m| == |nodes| && forall p :: 0 <= p < |nodes| ==> nodes[p].forward[..] == m[p]
  }

  // ---- Inserting a node after position k ----

  lemma InsertHeights(nodes: Nodes, k: nat, node: SkipNode)
    requires k < |nodes|
    ensures Heights(Insert<SkipNode>(nodes, k, node)) == Insert<nat>(Heights(nodes), k, node.forward.Length)
  {
  }

  lemma InsertAt(nodes: Nodes, k: nat, node: SkipNode, q: nat)
    requires k < |nodes|
    ensures At(Insert<SkipNode>(nodes, k, node), Moved(k, q)) == At(nodes, q)
    ensures At(Insert<SkipNode>(nodes, k, node), k + 1) == node
  {
  }

  /** The position a node had before the insertion after `k`. */
  function Unmoved(k: nat, p: nat): nat
    requires p != k + 1
  {
    if p <= k then p else p - 1
  }

  lemma TargetOfInserted(nodes: Nodes, k: nat, node: SkipNode, i: nat, u: nat)
    requires Predecessor(Heights(nodes), k, i, u)
    ensures Target(Insert<SkipNode>(nodes, k, node), k + 1, i) == Target(nodes, u, i)
  {
    hide Heights, Next, At, Insert;
    var h := Heights(nodes);
    InsertHeights(nodes, k, node);
    NextOfInserted(h, k, node.forward.Length, i);
    PredecessorNext(h, k, i, u);
    InsertAt(nodes, k, node, Next(h, u, i));
  }

  /** Below its height the new node takes over one link, its predecessor's. */
  lemma TargetOfOther(nodes: Nodes, k: nat, node: SkipNode, i: nat, u: nat, p: nat)
    requires Predecessor(Heights(nodes), k, i, u) && node.forward.Length > i
    requires p <= |nodes| && p != k + 1 && nodes[Unmoved(k, p)].forward.Length > i
    ensures Target(Insert<SkipNode>(nodes, k, node), p, i) == if p == u then node else Target(nodes, Unmoved(k, p), i)
  {
    hide Heights, Next, At, Insert;
    var h, o := Heights(nodes), Unmoved(k, p);
    InsertHeights(nodes, k, node);
    NextOfOther(h, k, node.forward.Length, i, o);
    InsertAt(nodes, k, node, Next(h, o, i));
    if o <= k && o != u { PredecessorUnique(h, k, i, u, o); }
  }

  /** From its height up it takes over none. */
  lemma TargetAbove(nodes: Nodes, k: nat, node: SkipNode, i: nat, p: nat)
    requires k < |nodes| && node.forward.Length <= i && p <= |nodes| && p != k + 1
    ensures Target(Insert<SkipNode>(nodes, k, node), p, i) == Target(nodes, Unmoved(k, p), i)
  {
    hide Heights, Next, At, Insert;
    InsertHeights(nodes, k, node);
    NextOfOther(Heights(nodes), k, node.forward.Length, i, Unmoved(k, p));
    InsertAt(nodes, k, node, Next(Heights(nodes), Unmoved(k, p), i));
  }

  /** Links still as they were before the node at `k + 1` came in. */
  ghost predicate OldLevel(nodes: Nodes, m: Table, k: nat, i: nat)
    requires |m| == |nodes| + 1 && k < |nodes|
  {
    forall p :: 0 <= p <= |nodes| && p != k + 1 && i < |m[p]| ==> m[p][i] == Target(nodes, Unmoved(k, p), i)
  }

  /** Rows of the grown list: levels below `i` relinked, the others not yet. */
  ghost predicate Splicing(nodes: Nodes, m: Table, k: nat, node: SkipNode, i: nat)
    requires k < |nodes|
  {
    var nodes' := Insert<SkipNode>(nodes, k, node);
    && Sized(nodes', m)
    && (forall j :: 0 <= j < i ==> LevelLinked(nodes', m, j))
    && (forall j :: i <= j <= MAX_LEVEL ==> OldLevel(nodes, m, k, j))
  }

  /** The table after the two assignments of one round of the relinking loop. */
  function Relink(m: Table, k: nat, u: nat, i: nat, node: SkipNode): Table
    requires k + 1 < |m| && u <= k && i < |m[u]| && i < |m[k + 1]|
  {
    m[k + 1 := m[k + 1][i := m[u][i]]][u := m[u][i := node]]
  }

  lemma RelinkLevel(nodes: Nodes, m: Table, k: nat, node: SkipNode, i: nat, u: nat)
    requires Predecessor(Heights(nodes), k, i, u) && i < node.forward.Length
    requires Sized(Insert<SkipNode>(nodes, k, node), m) && OldLevel(nodes, m, k, i)
    ensures Sized(Insert<SkipNode>(nodes, k, node), Relink(m, k, u, i, node))
    ensures LevelLinked(Insert<SkipNode>(nodes, k, node), Relink(m, k, u, i, node), i)
  {
    hide Heights, At, Target, Insert;
    var nodes', m' := Insert<SkipNode>(nodes, k, node), Relink(m, k, u, i, node);
    forall p | 0 <= p < |nodes'| && i < |m'[p]|
      ensures m'[p][i] == Target(nodes', p, i)
    {
      if p == k + 1 { TargetOfInserted(nodes, k, node, i, u); }
      else { TargetOfOther(nodes, k, node, i, u, p); }
    }
  }

  lemma RelinkOther(nodes: Nodes, m: Table, k: nat, node: SkipNode, i: nat, u: nat, j: nat)
    requires k < |nodes| && u <= k && Sized(Insert<SkipNode>(nodes, k, node), m)
    requires i < |m[u]| && i < |m[k + 1]| && j != i
    ensures Sized(Insert<SkipNode>(nodes, k, node), Relink(m, k, u, i, node))
    ensures LevelLinked(Insert<SkipNode>(nodes, k, node), m, j)
        ==> LevelLinked(Insert<SkipNode>(nodes, k, node), Relink(m, k, u, i, node), j)
    ensures OldLevel(nodes, m, k, j) ==> OldLevel(nodes, Relink(m, k, u, i, node), k, j)
  {
    hide Heights, At, Target, Insert;
  }

  lemma SpliceStep(nodes: Nodes, m: Table, k: nat, node: SkipNode, i: nat, u: nat)
    requires Predecessor(Heights(nodes), k, i, u) && i < node.forward.Length && i <= MAX_LEVEL
    requires Splicing(nodes, m, k, node, i)
    ensures Splicing(nodes, Relink(m, k, u, i, node), k, node, i + 1)
  {
    hide Heights, At, Target, Insert, LevelLinked, OldLevel, Relink;
    RelinkLevel(nodes, m, k, node, i, u);
    forall j | 0 <= j < i
      ensures LevelLinked(Insert<SkipNode>(nodes, k, node), Relink(m, k, u, i, node), j)
    {
      RelinkOther(nodes, m, k, node, i, u, j);
    }
    forall j | i < j <= MAX_LEVEL
      ensures OldLevel(nodes, Relink(m, k, u, i, node), k, j)
    {
      RelinkOther(nodes, m, k, node, i, u, j);
    }
  }

  lemma SpliceDone(nodes: Nodes, m: Table, k: nat, node: SkipNode)
    requires k < |nodes| && Shape(nodes) && node.forward.Length <= MAX_LEVEL + 1
    requires Splicing(nodes, m, k, node, node.forward.Length)
    ensures Sized(Insert<SkipNode>(nodes, k, node), m) && Linked(Insert<SkipNode>(nodes, k, node), m)
  {
    hide Heights, At, Target;
    var nodes' := Insert<SkipNode>(nodes, k, node);
    forall p, i | 0 <= p < |nodes'| && 0 <= i < |m[p]|
      ensures m[p][i] == Target(nodes', p, i)
    {
      if i < node.forward.Length {
        assert LevelLinked(nodes', m, i);
      } else {
        TargetAbove(nodes, k, node, i, p);
        assert OldLevel(nodes, m, k, i);
      }
    }
  }

  /** One round of the relinking loop on the heap. */
  method RelinkNode(pred: SkipNode, node: SkipNode, i: nat,
                    ghost nodes: Nodes, ghost m: Table, ghost k: nat, ghost u: nat)
    requires Shape(nodes) && Sized(nodes, m) && Coupled(nodes, m)
    requires u <= k < |nodes| - 1 && pred == nodes[u] && node == nodes[k + 1]
    requires i < |m[u]| && i < |m[k + 1]|
    modifies pred.forward, node.forward
    ensures Coupled(nodes, Relink(m, k, u, i, node))
  {
    assert pred.forward != node.forward;
    node.forward[i] := pred.forward[i];
    pred.forward[i] := node;
  }

  /** The relinking loop of `put`. */
  method Splice(update: seq<SkipNode>, node: SkipNode,
                ghost nodes: Nodes, ghost m: Table, ghost k: nat, ghost us: seq<nat>)
    returns (ghost m': Table)
    requires k < |nodes| && Shape(Insert<SkipNode>(nodes, k, node))
    requires node.forward.Length <= MAX_LEVEL + 1
    requires node.forward.Length <= |update| && node.forward.Length <= |us|
    requires forall i :: 0 <= i < node.forward.Length ==>
               Predecessor(Heights(nodes), k, i, us[i]) && update[i] == nodes[us[i]]
    requires Splicing(nodes, m, k, node, 0) && Coupled(Insert<SkipNode>(nodes, k, node), m)
    modifies Arrays(Insert<SkipNode>(nodes, k, node))
    ensures Splicing(nodes, m', k, node, node.forward.Length) && Coupled(Insert<SkipNode>(nodes, k, node), m')
  {
    hide Heights, At, Target, Insert, LevelLinked, OldLevel, Coupled, Shape;
    m' := m;
    ghost var nodes' := Insert<SkipNode>(nodes, k, node);
    for i := 0 to node.forward.Length
      invariant Splicing(nodes, m', k, node, i) && Coupled(nodes', m')
    {
      assert update[i] in nodes' && node in nodes' by { assert update[i] == nodes'[us[i]] && node == nodes'[k + 1]; }
      RelinkNode(update[i], node, i, nodes', m', k, us[i]);
      SpliceStep(nodes, m', k, node, i, us[i]);
      m' := Relink(m', k, us[i], i, node);
    }
  }

  // ---- Removing the node at position k + 1 ----

  /** Levels below `i` skip the node already, the others still run through it. */
  ghost predicate Unlinking(nodes: Nodes, m: Table, k: nat, x: SkipNode, i: nat)
    requires k < |nodes|
  {
    var nodes' := Insert<SkipNode>(nodes, k, x);
    && Sized(nodes', m)
    && (forall j :: 0 <= j < i ==> OldLevel(nodes, m, k, j))
    && (forall j :: i <= j <= MAX_LEVEL ==> LevelLinked(nodes', m, j))
  }

  function Unlink(m: Table, k: nat, u: nat, i: nat): Table
    requires k + 1 < |m| && u <= k && i < |m[u]| && i < |m[k + 1]|
  {
    m[u := m[u][i := m[k + 1][i]]]
  }

  lemma UnlinkLevel(nodes: Nodes, m: Table, k: nat, x: SkipNode, i: nat, u: nat)
    requires Predecessor(Heights(nodes), k, i, u) && i < x.forward.Length
    requires Sized(Insert<SkipNode>(nodes, k, x), m) && LevelLinked(Insert<SkipNode>(nodes, k, x), m, i)
    ensures Sized(Insert<SkipNode>(nodes, k, x), Unlink(m, k, u, i))
    ensures OldLevel(nodes, Unlink(m, k, u, i), k, i)
  {
    hide Heights, At, Target, Insert;
    var m' := Unlink(m, k, u, i);
    forall p | 0 <= p <= |nodes| && p != k + 1 && i < |m'[p]|
      ensures m'[p][i] == Target(nodes, Unmoved(k, p), i)
    {
      if p == u { TargetOfInserted(nodes, k, x, i, u); }
      else { TargetOfOther(nodes, k, x, i, u, p); }
    }
  }

  lemma UnlinkOther(nodes: Nodes, m: Table, k: nat, x: SkipNode, i: nat, u: nat, j: nat)
    requires k < |nodes| && u <= k && Sized(Insert<SkipNode>(nodes, k, x), m) && i < |m[u]| && i < |m[k + 1]| && j != i
    ensures Sized(Insert<SkipNode>(nodes, k, x), Unlink(m, k, u, i))
    ensures LevelLinked(Insert<SkipNode>(nodes, k, x), m, j)
        ==> LevelLinked(Insert<SkipNode>(nodes, k, x), Unlink(m, k, u, i), j)
    ensures OldLevel(nodes, m, k, j) ==> OldLevel(nodes, Unlink(m, k, u, i), k, j)
  {
    hide Heights, At, Target, Insert;
  }

  lemma UnlinkStep(nodes: Nodes, m: Table, k: nat, x: SkipNode, i: nat, u: nat)
    requires Predecessor(Heights(nodes), k, i, u) && i < x.forward.Length && i <= MAX_LEVEL
    requires Unlinking(nodes, m, k, x, i)
    ensures Unlinking(nodes, Unlink(m, k, u, i), k, x, i + 1)
  {
    hide Heights, At, Target, Insert, LevelLinked, OldLevel, Unlink;
    UnlinkLevel(nodes, m, k, x, i, u);
    forall j | 0 <= j < i
      ensures OldLevel(nodes, Unlink(m, k, u, i), k, j)
    {
      UnlinkOther(nodes, m, k, x, i, u, j);
    }
    forall j | i < j <= MAX_LEVEL
      ensures LevelLinked(Insert<SkipNode>(nodes, k, x), Unlink(m, k, u, i), j)
    {
      UnlinkOther(nodes, m, k, x, i, u, j);
    }
  }

  /** The loop's exit test finds the removed node exactly at the levels it has. */
  lemma UnlinkGuard(nodes: Nodes, m: Table, k: nat, x: SkipNode, i: nat, u: nat)
    requires Predecessor(Heights(nodes), k, i, u) && x !in nodes
    requires Sized(Insert<SkipNode>(nodes, k, x), m) && LevelLinked(Insert<SkipNode>(nodes, k, x), m, i)
    ensures i < |m[u]| && (m[u][i] == x <==> i < x.forward.Length)
  {
    hide Heights, At, Target, Insert;
    if i < x.forward.Length { TargetOfOther(nodes, k, x, i, u, u); }
    else { TargetAbove(nodes, k, x, i, u); TargetInList(nodes, u, i); }
  }

  lemma TargetInList(nodes: Nodes, p: nat, i: nat)
    requires p < |nodes|
    ensures Target(nodes, p, i) == null || Target(nodes, p, i) in nodes
  {
    hide Heights;
  }

  /** A table without the row of the removed node. */
  function DropRow(m: Table, k: nat): Table
    requires k + 1 < |m|
  {
    m[..k + 1] + m[k + 2..]
  }

  lemma DropRowSized(nodes: Nodes, m: Table, k: nat, x: SkipNode)
    requires k < |nodes| && Sized(Insert<SkipNode>(nodes, k, x), m)
    ensures Sized(nodes, DropRow(m, k))
    ensures forall p :: 0 <= p < |nodes| ==> DropRow(m, k)[p] == m[Moved(k, p)]
  {
    forall p | 0 <= p < |nodes|
      ensures DropRow(m, k)[p] == m[Moved(k, p)] && nodes[p] == Insert<SkipNode>(nodes, k, x)[Moved(k, p)]
    {
    }
  }

  lemma UnlinkedTarget(nodes: Nodes, m: Table, k: nat, x: SkipNode, p: nat, i: nat)
    requires k < |nodes| && i <= MAX_LEVEL && Unlinking(nodes, m, k, x, x.forward.Length)
    requires p < |nodes| && i < |m[Moved(k, p)]|
    ensures m[Moved(k, p)][i] == Target(nodes, p, i)
  {
    hide Heights, At, Target, Insert;
    if i < x.forward.Length {
      assert OldLevel(nodes, m, k, i);
    } else {
      TargetAbove(nodes, k, x, i, Moved(k, p));
      assert LevelLinked(Insert<SkipNode>(nodes, k, x), m, i);
    }
  }

  lemma UnlinkDone(nodes: Nodes, m: Table, k: nat, x: SkipNode)
    requires k < |nodes| && Shape(nodes) && x.forward.Length <= MAX_LEVEL + 1
    requires Unlinking(nodes, m, k, x, x.forward.Length)
    ensures Sized(nodes, DropRow(m, k)) && Linked(nodes, DropRow(m, k))
  {
    hide Heights, At, Target, Insert, LevelLinked, OldLevel, DropRow;
    DropRowSized(nodes, m, k, x);
    forall p, i | 0 <= p < |nodes| && 0 <= i < |DropRow(m, k)[p]|
      ensures DropRow(m, k)[p][i] == Target(nodes, p, i)
    {
      UnlinkedTarget(nodes, m, k, x, p, i);
    }
  }

  /** The unlinking loop of `del`, which stops at the first level that does not hold the node. */
  method UnlinkLevels(update: seq<SkipNode>, x: SkipNode, maxLevel: nat,
                      ghost nodes: Nodes, ghost m: Table, ghost k: nat, ghost us: seq<nat>)
    returns (ghost m': Table)
    requires k < |nodes| && Shape(Insert<SkipNode>(nodes, k, x)) && x !in nodes
    requires x.forward.Length <= maxLevel + 1 <= MAX_LEVEL + 1 && maxLevel < |update| == |us|
    requires forall i :: 0 <= i <= maxLevel ==>
               Predecessor(Heights(nodes), k, i, us[i]) && update[i] == nodes[us[i]]
    requires Unlinking(nodes, m, k, x, 0) && Coupled(Insert<SkipNode>(nodes, k, x), m)
    modifies Arrays(nodes)
    ensures Unlinking(nodes, m', k, x, x.forward.Length) && Coupled(Insert<SkipNode>(nodes, k, x), m')
  {
    hide Heights, At, Target, Insert, LevelLinked, OldLevel, Coupled, Shape;
    m' := m;
    ghost var nodes' := Insert<SkipNode>(nodes, k, x);
    var i := 0;
    while i <= maxLevel
      invariant 0 <= i <= x.forward.Length
      invariant Unlinking(nodes, m', k, x, i) && Coupled(nodes', m')
      decreases maxLevel - i
    {
      ghost var u := us[i];
      assert update[i] in nodes && update[i] == nodes'[u];
      UnlinkGuard(nodes, m', k, x, i, u);
      RowOf(nodes', m', u);
      if update[i].forward[i] != x { break; }
      UnlinkNode(update[i], x, i, nodes', m', k, u);
      UnlinkStep(nodes, m', k, x, i, u);
      m' := Unlink(m', k, u, i);
      i := i + 1;
    }
  }

  lemma RowOf(nodes: Nodes, m: Table, p: nat)
    requires Coupled(nodes, m) && p < |nodes|
    ensures nodes[p].forward[..] == m[p]
  {
  }

  method UnlinkNode(pred: SkipNode, x: SkipNode, i: nat, ghost nodes: Nodes, ghost m: Table, ghost k: nat, ghost u: nat)
    requires Shape(nodes) && Sized(nodes, m) && Coupled(nodes, m)
    requires u <= k < |nodes| - 1 && pred == nodes[u] && x == nodes[k + 1]
    requires i < |m[u]| && i < |m[k + 1]|
    modifies pred.forward
    ensures Coupled(nodes, Unlink(m, k, u, i))
  {
    pred.forward[i] := x.forward[i];
  }
}
