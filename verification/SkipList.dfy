/**
 The memtable's skip list (`minikv/src/core/skip_list.h`), proved to behave as a sorted association
 list whatever levels are drawn for new nodes.
 */
module SkipList {
  import opened Bytes
  import opened InternalKey
  import opened Entries
  import opened SkipLevels
  import opened SkipLinks

  // sizeof(SkipNode): two strings and a vector on a 64-bit libstdc++
  const NODE_SIZE := 88

  /** What the list charges for its nodes. */
  function Memory(es: seq<Entry>): nat {
    if |es| == 0 then 0 else NODE_SIZE + |es[0].key| + |es[0].value| + Memory(es[1..])
  }

  lemma {:induction false} MemoryConcat(a: seq<Entry>, b: seq<Entry>)
    ensures Memory(a + b) == Memory(a) + Memory(b)
  {
    if |a| == 0 {
      assert a + b == b;
    } else {
      assert (a + b)[1..] == a[1..] + b;
      MemoryConcat(a[1..], b);
    }
  }

  lemma MemoryAt(es: seq<Entry>, r: nat)
    requires r < |es|
    ensures Memory(es) == Memory(es[..r]) + NODE_SIZE + |es[r].key| + |es[r].value| + Memory(es[r + 1..])
  {
    assert es == es[..r] + ([es[r]] + es[r + 1..]);
    MemoryConcat(es[..r], [es[r]] + es[r + 1..]);
    MemoryConcat([es[r]], es[r + 1..]);
  }

  /** The position of the last node below `key`. */
  ghost predicate Cut(nodes: Nodes, key: bytes, k: nat) {
    && k < |nodes|
    && (forall q :: 1 <= q <= k ==> Less(nodes[q].key, key))
    && (forall q :: k < q < |nodes| ==> !Less(nodes[q].key, key))
  }

  ghost function Listing(nodes: Nodes): (es: seq<Entry>)
    requires |nodes| > 0
    reads nodes
    ensures |es| == |nodes| - 1
    ensures forall i :: 0 <= i < |es| ==> es[i] == Entry(nodes[i + 1].key, nodes[i + 1].value)
  {
    seq(|nodes| - 1, i requires 0 <= i < |nodes| - 1 reads nodes => Entry(nodes[i + 1].key, nodes[i + 1].value))
  }

  lemma RankIsCut(nodes: Nodes, key: bytes)
    requires |nodes| > 0 && Sorted(Listing(nodes)) && Internal(key)
    ensures Cut(nodes, key, Rank(Listing(nodes), key))
  {
    hide Less, Rank, Sorted;
    var es := Listing(nodes);
    forall q | 1 <= q < |nodes|
      ensures nodes[q].key == es[q - 1].key
      ensures q > Rank(es, key) ==> !Less(nodes[q].key, key)
    {
      RankSplits(es, key, q - 1);
    }
  }

  /** No node but the head is taller than `maxLevel`, and some node is that tall. */
  ghost predicate Top(nodes: Nodes, maxLevel: nat) {
    && |nodes| > 0 && maxLevel <= MAX_LEVEL
    && (forall p :: 1 <= p < |nodes| ==> nodes[p].forward.Length <= maxLevel + 1)
    && (maxLevel > 0 ==> exists p :: 1 <= p < |nodes| && nodes[p].forward.Length == maxLevel + 1)
  }

  /** The inner loop of every search: run along level `i` while the next key is below. */
  method RunLevel(start: SkipNode, i: nat, key: bytes,
                  ghost nodes: Nodes, ghost m: Table, ghost k: nat, ghost from: nat)
    returns (x: SkipNode, ghost p: nat)
    requires Sized(nodes, m) && Linked(nodes, m) && Coupled(nodes, m) && Cut(nodes, key, k)
    requires from <= k && start == nodes[from] && i < start.forward.Length
    ensures Predecessor(Heights(nodes), k, i, p) && x == nodes[p]
  {
    hide Heights, Less;
    x, p := start, from;
    while x.forward[i] != null && CompareKeys(x.forward[i].key, key) < 0
      invariant p <= k && x == nodes[p] && i < x.forward.Length
      decreases k - p
    {
      LinkTarget(nodes, m, p, i);
      BelowCut(nodes, key, k, Next(Heights(nodes), p, i));
      x, p := x.forward[i], Next(Heights(nodes), p, i);
    }
    LinkTarget(nodes, m, p, i);
    if Next(Heights(nodes), p, i) < |nodes| { BelowCut(nodes, key, k, Next(Heights(nodes), p, i)); }
  }

  lemma LinkTarget(nodes: Nodes, m: Table, p: nat, i: nat)
    requires Sized(nodes, m) && Linked(nodes, m) && Coupled(nodes, m)
    requires p < |nodes| && i < nodes[p].forward.Length
    ensures nodes[p].forward[i] == At(nodes, Next(Heights(nodes), p, i))
  {
    hide Heights, At, Next;
    RowOf(nodes, m, p);
    assert nodes[p].forward[i] == m[p][i] == Target(nodes, p, i);
  }

  lemma BelowCut(nodes: Nodes, key: bytes, k: nat, q: nat)
    requires Cut(nodes, key, k) && 1 <= q < |nodes|
    ensures CompareKeys(nodes[q].key, key) < 0 <==> q <= k
  {
    hide CompareKeys;
    assert Less(nodes[q].key, key) <==> q <= k;
  }

  /** Every pointer of every node is what it must be. */
  ghost predicate Wired(nodes: Nodes, table: Table)
    reads Arrays(nodes)
  {
    Shape(nodes) && Sized(nodes, table) && Linked(nodes, table) && Coupled(nodes, table)
  }

  /** Predecessors of the cut at consecutive levels from `base` up, as the search loop collects them. */
  ghost predicate FoundFrom(nodes: Nodes, k: nat, base: nat, update: seq<SkipNode>, us: seq<nat>) {
    && |us| == |update|
    && forall j :: 0 <= j < |update| ==> Predecessor(Heights(nodes), k, base + j, us[j]) && update[j] == nodes[us[j]]
  }

  ghost predicate Found(nodes: Nodes, k: nat, update: seq<SkipNode>, us: seq<nat>) {
    FoundFrom(nodes, k, 0, update, us)
  }

  lemma FoundBelow(nodes: Nodes, k: nat, base: nat, update: seq<SkipNode>, us: seq<nat>, x: SkipNode, p: nat)
    requires FoundFrom(nodes, k, base + 1, update, us)
    requires Predecessor(Heights(nodes), k, base, p) && x == nodes[p]
    ensures FoundFrom(nodes, k, base, [x] + update, [p] + us)
  {
    hide Heights, Next;
    var update', us' := [x] + update, [p] + us;
    forall j | 0 <= j < |update'|
      ensures Predecessor(Heights(nodes), k, base + j, us'[j]) && update'[j] == nodes[us'[j]]
    {
      if j > 0 { assert Predecessor(Heights(nodes), k, base + 1 + (j - 1), us[j - 1]); }
    }
  }

  lemma FoundNone(nodes: Nodes, k: nat, base: nat)
    ensures FoundFrom(nodes, k, base, [], [])
  {
  }

  /** The head precedes every position at a level no other node reaches. */
  lemma HeadPrecedes(nodes: Nodes, maxLevel: nat, k: nat, i: nat)
    requires Shape(nodes) && Top(nodes, maxLevel) && k < |nodes| && maxLevel < i <= MAX_LEVEL
    ensures Predecessor(Heights(nodes), k, i, 0)
  {
    hide Heights;
    NextUnique(Heights(nodes), 0, i, |nodes|);
  }

  /** At level 0 the predecessor is the cut itself. */
  lemma BottomPredecessor(nodes: Nodes, k: nat, u: nat)
    requires Shape(nodes) && Predecessor(Heights(nodes), k, 0, u)
    ensures u == k && Next(Heights(nodes), k, 0) == k + 1
  {
    hide Heights;
    assert u == k;
    NextUnique(Heights(nodes), k, 0, k + 1);
  }

  // ---- Growing and shrinking ----

  lemma InsertShape(nodes: Nodes, k: nat, node: SkipNode)
    requires Shape(nodes) && k < |nodes| && node !in nodes && node.forward !in Arrays(nodes)
    requires 1 <= node.forward.Length <= MAX_LEVEL + 1
    ensures Shape(Insert<SkipNode>(nodes, k, node))
  {
    hide Insert, Arrays;
    var out := Insert<SkipNode>(nodes, k, node);
    forall p, q | 0 <= p < q < |out|
      ensures out[p] != out[q] && out[p].forward != out[q].forward
    {
      InsertApart(nodes, k, node, p, q);
    }
  }

  lemma InsertApart(nodes: Nodes, k: nat, node: SkipNode, p: nat, q: nat)
    requires Shape(nodes) && k < |nodes| && node !in nodes && node.forward !in Arrays(nodes)
    requires p < q < |Insert<SkipNode>(nodes, k, node)|
    ensures var out := Insert<SkipNode>(nodes, k, node);
            out[p] != out[q] && out[p].forward != out[q].forward
  {
    hide Insert, Arrays;
    var out := Insert<SkipNode>(nodes, k, node);
    if p == k + 1 {
      StrangerApart(nodes, node, q - 1);
    } else if q == k + 1 {
      StrangerApart(nodes, node, p);
    } else {
      assert out[p] == nodes[Unmoved(k, p)] && out[q] == nodes[Unmoved(k, q)];
    }
  }

  lemma StrangerApart(nodes: Nodes, node: SkipNode, p: nat)
    requires node !in nodes && node.forward !in Arrays(nodes) && p < |nodes|
    ensures nodes[p] != node && nodes[p].forward != node.forward
  {
    assert nodes[p] in nodes && nodes[p].forward in Arrays(nodes);
  }

  lemma InsertCoupled(nodes: Nodes, m: Table, k: nat, node: SkipNode)
    requires k < |nodes| && Coupled(nodes, m)
    ensures |m| == |nodes| && Coupled(Insert<SkipNode>(nodes, k, node), Insert<seq<SkipNode?>>(m, k, node.forward[..]))
  {
    var nodes', m' := Insert<SkipNode>(nodes, k, node), Insert<seq<SkipNode?>>(m, k, node.forward[..]);
    forall p | 0 <= p < |nodes'|
      ensures nodes'[p].forward[..] == m'[p]
    {
      if p > k + 1 { assert nodes[p - 1].forward[..] == m[p - 1]; }
    }
  }

  lemma InsertSplicing(nodes: Nodes, m: Table, k: nat, node: SkipNode)
    requires k < |nodes| && Sized(nodes, m) && Linked(nodes, m)
    ensures Splicing(nodes, Insert<seq<SkipNode?>>(m, k, node.forward[..]), k, node, 0)
  {
    hide Heights, Next, At, Target;
    var nodes', m' := Insert<SkipNode>(nodes, k, node), Insert<seq<SkipNode?>>(m, k, node.forward[..]);
    forall p | 0 <= p < |nodes'|
      ensures |m'[p]| == nodes'[p].forward.Length
      ensures p != k + 1 ==> m'[p] == m[Unmoved(k, p)]
    {
    }
  }

  lemma InsertListing(nodes: Nodes, k: nat, node: SkipNode, es: seq<Entry>)
    requires k < |nodes| && es == Listing(nodes)
    ensures Listing(Insert<SkipNode>(nodes, k, node)) == es[..k] + [Entry(node.key, node.value)] + es[k..]
  {
  }

  lemma InsertTop(nodes: Nodes, k: nat, node: SkipNode, maxLevel: nat, maxLevel': nat)
    requires Top(nodes, maxLevel) && k < |nodes| && 1 <= node.forward.Length <= MAX_LEVEL + 1
    requires maxLevel' == if node.forward.Length - 1 > maxLevel then node.forward.Length - 1 else maxLevel
    ensures Top(Insert<SkipNode>(nodes, k, node), maxLevel')
  {
    var nodes' := Insert<SkipNode>(nodes, k, node);
    if node.forward.Length - 1 > maxLevel {
      assert nodes'[k + 1].forward.Length == maxLevel' + 1;
    } else if maxLevel > 0 {
      var p :| 1 <= p < |nodes| && nodes[p].forward.Length == maxLevel + 1;
      assert nodes'[Moved(k, p)].forward.Length == maxLevel' + 1;
    }
  }

  lemma MemoryOfPut(es: seq<Entry>, r: nat, e: Entry)
    requires r <= |es|
    ensures Memory(es[..r] + [e] + es[r..]) == Memory(es) + NODE_SIZE + |e.key| + |e.value|
  {
    assert es == es[..r] + es[r..];
    MemoryConcat(es[..r], es[r..]);
    MemoryConcat(es[..r] + [e], es[r..]);
    MemoryConcat(es[..r], [e]);
    assert Memory([e]) == NODE_SIZE + |e.key| + |e.value|;
  }

  lemma MemoryOfUpdate(es: seq<Entry>, r: nat, v: bytes)
    requires r < |es|
    ensures Memory(es[r := Entry(es[r].key, v)]) == Memory(es) - |es[r].value| + |v|
    ensures Memory(es) >= |es[r].value|
  {
    var out := es[r := Entry(es[r].key, v)];
    MemoryAt(es, r);
    MemoryAt(out, r);
    assert out[..r] == es[..r] && out[r + 1..] == es[r + 1..];
  }

  function DropNode(nodes: Nodes, k: nat): Nodes
    requires k + 1 < |nodes|
  {
    nodes[..k + 1] + nodes[k + 2..]
  }

  lemma DropInsert(nodes: Nodes, k: nat)
    requires k + 1 < |nodes|
    ensures k < |DropNode(nodes, k)| && nodes == Insert<SkipNode>(DropNode(nodes, k), k, nodes[k + 1])
  {
  }

  lemma DropShape(nodes: Nodes, k: nat)
    requires Shape(nodes) && k + 1 < |nodes|
    ensures Shape(DropNode(nodes, k)) && nodes[k + 1] !in DropNode(nodes, k)
  {
    var nodes', x := DropNode(nodes, k), nodes[k + 1];
    forall p | 0 <= p < |nodes'|
      ensures nodes'[p] == nodes[Moved(k, p)]
    {
    }
  }

  /** A predecessor of the cut stays one when the node after the cut goes. */
  lemma DropPredecessor(nodes: Nodes, k: nat, i: nat, u: nat)
    requires k + 1 < |nodes| && Predecessor(Heights(nodes), k, i, u)
    ensures Predecessor(Heights(DropNode(nodes, k)), k, i, u)
  {
    var h, h' := Heights(nodes), Heights(DropNode(nodes, k));
    assert forall p :: 0 <= p <= k ==> h'[p] == h[p];
    assert Next(h', u, i) > k;
  }

  lemma DropFound(nodes: Nodes, k: nat, update: seq<SkipNode>, us: seq<nat>)
    requires k + 1 < |nodes| && Found(nodes, k, update, us)
    ensures Found(DropNode(nodes, k), k, update, us)
  {
    hide Heights, Next;
    forall j | 0 <= j < |update|
      ensures Predecessor(Heights(DropNode(nodes, k)), k, j, us[j]) && update[j] == DropNode(nodes, k)[us[j]]
    {
      assert Predecessor(Heights(nodes), k, 0 + j, us[j]);
      DropPredecessor(nodes, k, j, us[j]);
    }
  }

  lemma DropCoupled(nodes: Nodes, m: Table, k: nat)
    requires k + 1 < |nodes| && Coupled(nodes, m)
    ensures |m| == |nodes| && Coupled(DropNode(nodes, k), DropRow(m, k))
  {
    var nodes', m' := DropNode(nodes, k), DropRow(m, k);
    forall p | 0 <= p < |nodes'|
      ensures nodes'[p].forward[..] == m'[p]
    {
      assert nodes'[p] == nodes[Moved(k, p)] && m'[p] == m[Moved(k, p)];
    }
  }

  lemma DropListing(nodes: Nodes, k: nat, es: seq<Entry>)
    requires k + 1 < |nodes| && es == Listing(nodes)
    ensures Listing(DropNode(nodes, k)) == es[..k] + es[k + 1..]
  {
  }

  lemma MemoryOfDel(es: seq<Entry>, r: nat)
    requires r < |es|
    ensures Memory(es[..r] + es[r + 1..]) == Memory(es) - (NODE_SIZE + |es[r].key| + |es[r].value|)
  {
    MemoryAt(es, r);
    MemoryConcat(es[..r], es[r + 1..]);
  }

  /** No node but the head is taller than `maxLevel`. */
  ghost predicate Below(nodes: Nodes, maxLevel: nat) {
    maxLevel <= MAX_LEVEL && forall p :: 1 <= p < |nodes| ==> nodes[p].forward.Length <= maxLevel + 1
  }

  lemma DropBelow(nodes: Nodes, k: nat, maxLevel: nat)
    requires k + 1 < |nodes| && Top(nodes, maxLevel)
    ensures Below(DropNode(nodes, k), maxLevel)
  {
    var nodes' := DropNode(nodes, k);
    forall p | 0 <= p < |nodes'|
      ensures nodes'[p] == nodes[Moved(k, p)]
    {
    }
  }

  lemma LevelEmpty(nodes: Nodes, maxLevel: nat, link: SkipNode?)
    requires Shape(nodes) && Below(nodes, maxLevel) && maxLevel > 0 && link == Target(nodes, 0, maxLevel)
    ensures link == null ==> Below(nodes, maxLevel - 1)
    ensures link != null ==> Top(nodes, maxLevel)
  {
    hide Heights;
    var q := Next(Heights(nodes), 0, maxLevel);
    if link != null { assert nodes[q].forward.Length == maxLevel + 1; }
  }

  class SkipList {
    const head: SkipNode
    var maxLevel: nat
    var memUsage: nat
    ghost var nodes: Nodes
    ghost var table: Table

    ghost predicate Valid()
      reads this, nodes, Arrays(nodes)
    {
      && |nodes| > 0 && nodes[0] == head
      && Wired(nodes, table) && Top(nodes, maxLevel)
      && Sorted(Listing(nodes)) && memUsage == Memory(Listing(nodes))
    }

    /** The abstract value: all entries in key order. */
    ghost function Contents(): seq<Entry>
      requires |nodes| > 0
      reads this, nodes
    {
      Listing(nodes)
    }

    constructor ()
      ensures Valid() && Contents() == []
      ensures forall n :: n in nodes ==> fresh(n) && fresh(n.forward)
    {
      var h := new SkipNode([], [], MAX_LEVEL);
      head, maxLevel, memUsage := h, 0, 0;
      nodes, table := [h], [h.forward[..]];
    }

    /** The search loop shared by `put`, `get` and `del`. */
    method Search(key: bytes) returns (update: seq<SkipNode>, ghost us: seq<nat>)
      requires Valid() && Internal(key)
      ensures |update| == maxLevel + 1
      ensures Found(nodes, Rank(Contents(), key), update, us)
    {
      hide Less, Rank, Heights, Next, FoundFrom, Sorted;
      ghost var k := Rank(Contents(), key);
      RankIsCut(nodes, key);
      var x := head;
      ghost var p: nat := 0;
      update, us := [], [];
      FoundNone(nodes, k, maxLevel + 1);
      var i := maxLevel + 1;
      while i > 0
        invariant 0 <= i <= maxLevel + 1
        invariant p <= k && x == nodes[p] && i <= x.forward.Length
        invariant |update| == maxLevel + 1 - i && FoundFrom(nodes, k, i, update, us)
      {
        i := i - 1;
        x, p := RunLevel(x, i, key, nodes, table, k, p);
        FoundBelow(nodes, k, i, update, us, x, p);
        update, us := [x] + update, [p] + us;
      }
    }

    /** The node after the cut: the only one that can hold `key`. */
    lemma AfterCut(key: bytes, update: seq<SkipNode>, us: seq<nat>)
      requires Valid() && Internal(key) && |update| > 0 && Found(nodes, Rank(Contents(), key), update, us)
      ensures update[0].forward.Length > 0
      ensures update[0].forward[0] == At(nodes, Rank(Contents(), key) + 1)
    {
      hide Less, Rank, Heights, Next;
      var k := Rank(Contents(), key);
      BottomPredecessor(nodes, k, us[0]);
      LinkTarget(nodes, table, k, 0);
    }

    method Get(key: bytes) returns (r: Option<bytes>)
      requires Valid() && Internal(key)
      ensures r == Entries.Get(Contents(), key)
    {
      hide Less, Rank;
      var update, us := Search(key);
      AfterCut(key, update, us);
      var x := update[0].forward[0];
      if x != null && x.key == key { return Some(x.value); }
      return None;
    }

    /** `randomLevel`: any level may be drawn. */
    method RandomLevel() returns (level: nat)
      ensures level <= MAX_LEVEL
    {
      level :| 0 <= level <= MAX_LEVEL;
    }

    method Put(key: bytes, value: bytes)
      requires Valid() && Internal(key)
      modifies this, nodes, Arrays(nodes)
      ensures Valid() && Contents() == Entries.Put(old(Contents()), key, value)
      ensures forall n :: n in nodes && n !in old(nodes) ==> fresh(n) && fresh(n.forward)
    {
      hide Less, Rank, Wired, Top, Memory, Sorted, FoundFrom;
      var update, us := Search(key);
      AfterCut(key, update, us);
      var x := update[0].forward[0];
      if x != null && x.key == key {
        Overwrite(x, value, Rank(Contents(), key));
      } else {
        var level := RandomLevel();
        InsertNode(key, value, level, update, us);
      }
    }

    /** Levels above the current maximum hang off the head. */
    method Pad(update: seq<SkipNode>, ghost us: seq<nat>, level: nat, ghost k: nat)
      returns (update': seq<SkipNode>, ghost us': seq<nat>)
      requires Valid() && level <= MAX_LEVEL && k < |nodes|
      requires |update| == maxLevel + 1 && Found(nodes, k, update, us)
      ensures |update'| > level && Found(nodes, k, update', us')
    {
      hide Less, Heights, Next, Sorted, Linked;
      update', us' := update, us;
      while |update'| <= level
        invariant Found(nodes, k, update', us') && |update'| > maxLevel
      {
        HeadPrecedes(nodes, maxLevel, k, |update'|);
        update', us' := update' + [head], us' + [0];
      }
    }

    /** The else-branch of `put`: a new node of the drawn height is linked in after the cut. */
    method InsertNode(key: bytes, value: bytes, level: nat, update: seq<SkipNode>, ghost us: seq<nat>)
      requires Valid() && Internal(key) && level <= MAX_LEVEL
      requires |update| == maxLevel + 1 && Found(nodes, Rank(Contents(), key), update, us)
      requires Rank(Contents(), key) < |Contents()| ==> Contents()[Rank(Contents(), key)].key != key
      modifies this, nodes, Arrays(nodes)
      ensures Valid() && Contents() == Entries.Put(old(Contents()), key, value)
      ensures forall n :: n in nodes && n !in old(nodes) ==> fresh(n) && fresh(n.forward)
    {
      hide Less, Rank, Sorted, Wired, Top, FoundFrom, Memory, Insert;
      ghost var es, k := Contents(), Rank(Contents(), key);
      PutSorted(es, key, value);
      MemoryOfPut(es, k, Entry(key, value));
      var update', us' := Pad(update, us, level, k);
      ghost var top := maxLevel;
      if level > maxLevel { maxLevel := level; }
      var node := new SkipNode(key, value, level);
      InsertTop(nodes, k, node, top, maxLevel);
      memUsage := memUsage + NODE_SIZE + |key| + |value|;
      LinkIn(node, update', us', k);
    }

    method LinkIn(node: SkipNode, update: seq<SkipNode>, ghost us: seq<nat>, ghost k: nat)
      requires Wired(nodes, table) && k < |nodes|
      requires node !in nodes && node.forward !in Arrays(nodes) && 1 <= node.forward.Length <= MAX_LEVEL + 1
      requires |update| >= node.forward.Length && Found(nodes, k, update, us)
      modifies `nodes, `table, Arrays(nodes), node.forward
      ensures nodes == Insert<SkipNode>(old(nodes), k, node)
      ensures Wired(nodes, table)
      ensures Listing(nodes) == old(Listing(nodes))[..k] + [Entry(node.key, node.value)] + old(Listing(nodes))[k..]
    {
      hide Less, Heights, Next, Sorted, Linked, Top, Target, At, Insert, Splicing, Shape, Sized, Listing;
      ghost var m := Insert<seq<SkipNode?>>(table, k, node.forward[..]);
      InsertShape(nodes, k, node);
      InsertCoupled(nodes, table, k, node);
      InsertSplicing(nodes, table, k, node);
      InsertListing(nodes, k, node, Listing(nodes));
      m := Splice(update, node, nodes, m, k, us);
      SpliceDone(nodes, m, k, node);
      nodes, table := Insert<SkipNode>(nodes, k, node), m;
    }

    method Del(key: bytes)
      requires Valid() && Internal(key)
      modifies this, Arrays(nodes)
      ensures Valid() && Contents() == Entries.Del(old(Contents()), key)
      ensures forall n :: n in nodes ==> n in old(nodes)
    {
      hide Less, Rank, Wired, Top, Memory, Sorted, FoundFrom;
      var update, us := Search(key);
      AfterCut(key, update, us);
      var x := update[0].forward[0];
      if x != null && x.key == key {
        RemoveNode(x, update, us, Rank(Contents(), key));
      }
    }

    method RemoveNode(x: SkipNode, update: seq<SkipNode>, ghost us: seq<nat>, ghost k: nat)
      requires Valid() && k + 1 < |nodes| && x == nodes[k + 1]
      requires |update| == maxLevel + 1 && Found(nodes, k, update, us)
      modifies this, Arrays(nodes)
      ensures Valid() && nodes == DropNode(old(nodes), k)
      ensures Contents() == old(Contents())[..k] + old(Contents())[k + 1..]
    {
      hide Less, Sorted, Wired, Top, FoundFrom, Memory, Below, Insert;
      ghost var es := Contents();
      MemoryOfDel(es, k);
      RemovalSorted(es, k);
      DropListing(nodes, k, es);
      DropBelow(nodes, k, maxLevel);
      memUsage := memUsage - (NODE_SIZE + |x.key| + |x.value|);
      LinkOut(x, update, us, k);
      Shrink();
    }

    method LinkOut(x: SkipNode, update: seq<SkipNode>, ghost us: seq<nat>, ghost k: nat)
      requires Wired(nodes, table) && Top(nodes, maxLevel) && k + 1 < |nodes| && x == nodes[k + 1]
      requires |update| == maxLevel + 1 && Found(nodes, k, update, us)
      modifies `nodes, `table, Arrays(nodes)
      ensures nodes == DropNode(old(nodes), k) && Wired(nodes, table)
    {
      hide Less, Heights, Next, Linked, Target, At, Insert, Unlinking, DropNode, DropRow;
      ghost var nodes' := DropNode(nodes, k);
      DropInsert(nodes, k);
      DropShape(nodes, k);
      DropFound(nodes, k, update, us);
      StartUnlinking(nodes', table, k, x);
      DropArrays(nodes, k);
      ghost var m := UnlinkLevels(update, x, maxLevel, nodes', table, k, us);
      UnlinkDone(nodes', m, k, x);
      DropCoupled(nodes, m, k);
      nodes, table := nodes', DropRow(m, k);
    }

    /** Empty top levels are dropped. */
    method Shrink()
      requires |nodes| > 0 && nodes[0] == head && Wired(nodes, table) && Below(nodes, maxLevel)
      modifies `maxLevel
      ensures Top(nodes, maxLevel) && Wired(nodes, table)
    {
      hide Heights, Next, Linked, Top;
      while maxLevel > 0 && head.forward[maxLevel] == null
        invariant Below(nodes, maxLevel) && maxLevel <= MAX_LEVEL
      {
        LinkTarget(nodes, table, 0, maxLevel);
        LevelEmpty(nodes, maxLevel, head.forward[maxLevel]);
        maxLevel := maxLevel - 1;
      }
      if maxLevel > 0 {
        LinkTarget(nodes, table, 0, maxLevel);
        LevelEmpty(nodes, maxLevel, head.forward[maxLevel]);
      } else {
        FlatTop(nodes);
      }
    }

    /** `entries`: the walk along level 0. */
    method ListEntries() returns (result: seq<Entry>)
      requires Valid()
      ensures result == Contents()
    {
      hide Less, Sorted, Top, Memory, Linked;
      result := [];
      ghost var p: nat := 0;
      LinkTarget(nodes, table, 0, 0);
      BottomNext(nodes, 0);
      var x := head.forward[0];
      while x != null
        invariant p < |nodes| && x == At(nodes, p + 1) && result == Contents()[..p]
        decreases |nodes| - p
      {
        result := result + [Entry(x.key, x.value)];
        p := p + 1;
        LinkTarget(nodes, table, p, 0);
        BottomNext(nodes, p);
        x := x.forward[0];
      }
    }

    method IsEmpty() returns (b: bool)
      requires Valid()
      ensures b <==> Contents() == []
    {
      hide Less, Sorted, Top, Memory, Linked;
      LinkTarget(nodes, table, 0, 0);
      BottomNext(nodes, 0);
      b := head.forward[0] == null;
    }

    method Overwrite(x: SkipNode, value: bytes, ghost k: nat)
      requires Valid() && k + 1 < |nodes| && x == nodes[k + 1]
      modifies `memUsage, x
      ensures Valid() && Contents() == old(Contents())[k := Entry(x.key, value)]
    {
      hide Linked, Sized, Top, Sorted, Memory;
      ghost var es := Contents();
      MemoryOfUpdate(es, k, value);
      SortedUpdate(es, k, value);
      memUsage := memUsage - |x.value|;
      x.value := value;
      memUsage := memUsage + |value|;
      UpdatedListing(nodes, es, k, value);
    }
  }

  lemma SortedUpdate(es: seq<Entry>, r: nat, v: bytes)
    requires Sorted(es) && r < |es|
    ensures Sorted(es[r := Entry(es[r].key, v)])
  {
    hide Less;
  }

  lemma UpdatedListing(nodes: Nodes, es: seq<Entry>, k: nat, v: bytes)
    requires k + 1 < |nodes| == |es| + 1 && nodes[k + 1].value == v && es[k].key == nodes[k + 1].key
    requires forall i :: 0 <= i < |es| && i != k ==> es[i] == Entry(nodes[i + 1].key, nodes[i + 1].value)
    ensures Listing(nodes) == es[k := Entry(es[k].key, v)]
  {
  }

  lemma RemovalSorted(es: seq<Entry>, r: nat)
    requires Sorted(es) && r < |es|
    ensures Sorted(es[..r] + es[r + 1..])
  {
    hide Less;
  }

  lemma FlatTop(nodes: Nodes)
    requires |nodes| > 0 && Below(nodes, 0)
    ensures Top(nodes, 0)
  {
  }

  lemma BottomNext(nodes: Nodes, p: nat)
    requires Shape(nodes) && p < |nodes|
    ensures Next(Heights(nodes), p, 0) == p + 1
  {
    NextUnique(Heights(nodes), p, 0, p + 1);
  }

  lemma StartUnlinking(nodes: Nodes, m: Table, k: nat, x: SkipNode)
    requires k < |nodes| && Sized(Insert<SkipNode>(nodes, k, x), m) && Linked(Insert<SkipNode>(nodes, k, x), m)
    ensures Unlinking(nodes, m, k, x, 0)
  {
    hide Heights, Next, At, Target, Insert;
  }

  lemma DropArrays(nodes: Nodes, k: nat)
    requires k + 1 < |nodes|
    ensures Arrays(DropNode(nodes, k)) <= Arrays(nodes)
  {
  }
}
