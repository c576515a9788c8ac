/**
  When a `get` on a database at rest returns the last write: memtables are read newest first, but a tombstone does not
  stop the search and level 0 is read oldest first (`minikv/src/core/db_impl.cpp`).
 */
module LastWrite {
  import opened Bytes
  import opened Entries
  import opened InternalKey
  import opened Lookup
  import opened MemTable
  import opened Wal
  import opened LogMeaning
  import opened Durability
  import opened DurabilityLimits

  // ---- `get` without interference ----

  /** Frozen memtables, the newest first. */
  function FromQueue(queue: seq<Gen>, n: nat, k: bytes): Option<bytes>
    requires n <= |queue|
  {
    if n == 0 then None
    else if Find(queue[n - 1].entries, k).Some? then Find(queue[n - 1].entries, k)
    else FromQueue(queue, n - 1, k)
  }

  /** The tables of level 0 from the `i`-th on, in the order they were listed. */
  function FromTables(tables: seq<Table>, i: nat, k: bytes): Option<bytes>
    requires i <= |tables|
    decreases |tables| - i
  {
    if i == |tables| then None
    else if Find(tables[i].entries, k).Some? then Find(tables[i].entries, k)
    else FromTables(tables, i + 1, k)
  }

  function Get(s: State, k: bytes): Option<bytes> {
    if Find(s.mem.entries, k).Some? then Find(s.mem.entries, k)
    else
      var frozen := FromQueue(s.queue, |s.queue|, k);
      if frozen.Some? then frozen else FromTables(s.base + s.tables, 0, k)
  }

  /** The value the last operation on the key gave it among the first `n` groups. */
  function LastOf(groups: seq<Group>, n: nat, k: bytes): Option<bytes>
    requires n <= |groups|
  {
    LastValue(AllOps(groups[..n]), k, None)
  }

  function Last(s: State, k: bytes): Option<bytes> {
    LastOf(s.groups, |s.groups|, k)
  }

  // ---- What decides a key ----

  ghost predicate Touches(ops: seq<Op>, k: bytes) {
    exists i :: 0 <= i < |ops| && ops[i].key == k
  }

  lemma {:induction false} TouchDecides(ops: seq<Op>, k: bytes, before: Option<bytes>)
    ensures LastValue(ops, k, before) == if Touches(ops, k) then LastValue(ops, k, None) else before
    decreases |ops|
  {
    if |ops| > 0 {
      var rest := ops[1..];
      var now := if ops[0].key != k then before else if ops[0].isDelete then None else Some(ops[0].value);
      var none := if ops[0].key != k then None else now;
      TouchDecides(rest, k, now);
      TouchDecides(rest, k, none);
      if i :| 0 <= i < |rest| && rest[i].key == k { assert ops[i + 1].key == k; }
      if i :| 0 <= i < |ops| && ops[i].key == k && ops[0].key != k { assert rest[i - 1].key == k; }
    }
  }

  lemma {:induction false} AllOpsConcat(a: seq<Group>, b: seq<Group>)
    ensures AllOps(a + b) == AllOps(a) + AllOps(b)
  {
    hide Ops;
    if |a| == 0 {
      assert a + b == b;
    } else {
      assert (a + b)[1..] == a[1..] + b;
      AllOpsConcat(a[1..], b);
    }
  }

  lemma SpanDecides(groups: seq<Group>, lo: nat, hi: nat, k: bytes)
    requires lo <= hi <= |groups|
    ensures var ops := OpsIn(groups, lo, hi);
            LastOf(groups, hi, k) == if Touches(ops, k) then LastValue(ops, k, None) else LastOf(groups, lo, k)
  {
    hide AllOps, LastValue, Touches;
    assert groups[..hi] == groups[..lo] + groups[lo..hi];
    AllOpsConcat(groups[..lo], groups[lo..hi]);
    LastValueConcat(AllOps(groups[..lo]), OpsIn(groups, lo, hi), k, None);
    TouchDecides(OpsIn(groups, lo, hi), k, LastOf(groups, lo, k));
  }

  lemma UntouchedPart(groups: seq<Group>, lo: nat, p: nat, hi: nat, k: bytes)
    requires lo <= p <= hi <= |groups| && !Touches(OpsIn(groups, lo, hi), k)
    ensures !Touches(OpsIn(groups, lo, p), k)
  {
    hide AllOps;
    assert groups[lo..hi] == groups[lo..p] + groups[p..hi];
    AllOpsConcat(groups[lo..p], groups[p..hi]);
    UntouchedFront(OpsIn(groups, lo, p), OpsIn(groups, p, hi), k);
  }

  lemma UntouchedFront(a: seq<Op>, b: seq<Op>, k: bytes)
    requires !Touches(a + b, k)
    ensures !Touches(a, k)
  {
    assert forall i :: 0 <= i < |a| ==> (a + b)[i] == a[i];
  }

  ghost predicate Mentions(groups: seq<Group>, t: Table, k: bytes) {
    t.lo <= t.hi <= |groups| && Touches(OpsIn(groups, t.lo, t.hi), k)
  }

  /** A layer that mentions the key decides it up to its end; one that does not leaves it as it was. */
  lemma LayerDecides(groups: seq<Group>, t: Table, p: nat, k: bytes)
    requires Holds(groups, {}, t) && t.lo <= p <= t.hi
    ensures Mentions(groups, t, k) ==> LastOf(groups, t.hi, k) == Find(t.entries, k)
    ensures !Mentions(groups, t, k) ==> LastOf(groups, t.hi, k) == LastOf(groups, p, k) && Find(t.entries, k).None?
  {
    hide AllOps, LastValue, Touches, Find, LastOf;
    assert t.held == groups[t.lo..t.hi];
    SpanDecides(groups, t.lo, t.hi, k);
    SpanDecides(groups, t.lo, p, k);
    TouchDecides(OpsIn(groups, t.lo, t.hi), k, None);
    if !Mentions(groups, t, k) { UntouchedPart(groups, t.lo, p, t.hi, k); }
  }

  // ---- Frozen memtables ----

  ghost predicate QueueMentions(s: State, n: nat, k: bytes)
    requires n <= |s.queue|
  {
    exists i :: 0 <= i < n && Mentions(s.groups, Frozen(s.queue[i]), k)
  }

  /** The first `n` frozen memtables, read newest first, give the last value if they mention the key. */
  lemma {:induction false} QueueDecides(s: State, n: nat, k: bytes)
    requires Layered(s) && n <= |s.queue|
    ensures QueueEnd(s, n) <= |s.groups|
    ensures !QueueMentions(s, n, k) ==>
              && FromQueue(s.queue, n, k) == None
              && LastOf(s.groups, QueueEnd(s, n), k) == LastOf(s.groups, QueueEnd(s, 0), k)
    ensures QueueMentions(s, n, k) && LastOf(s.groups, QueueEnd(s, n), k).Some? ==>
              FromQueue(s.queue, n, k) == LastOf(s.groups, QueueEnd(s, n), k)
    decreases n
  {
    hide Find, LastOf, Mentions, Holds;
    if n > 0 {
      QueueDecides(s, n - 1, k);
      var t := Frozen(s.queue[n - 1]);
      LayerSpan(s.groups, t);
      LayerDecides(s.groups, t, QueueEnd(s, n - 1), k);
      if i :| 0 <= i < n && Mentions(s.groups, Frozen(s.queue[i]), k) && i != n - 1 {
        assert QueueMentions(s, n - 1, k);
      }
    }
  }

  lemma LayerSpan(groups: seq<Group>, t: Table)
    requires Holds(groups, {}, t)
    ensures t.lo <= t.hi <= |groups|
  {
    hide AllOps, Answers;
  }

  /** The layers of a state without failed syncs: each holds its span, and each span begins within the one before. */
  ghost predicate Layered(s: State) {
    && (forall i :: 0 <= i < |s.queue| ==>
          Holds(s.groups, {}, Frozen(s.queue[i])) && s.queue[i].lo <= QueueEnd(s, i) <= s.queue[i].hi)
    && (forall i :: 0 <= i < |s.tables| ==>
          Holds(s.groups, {}, s.tables[i]) && s.tables[i].lo <= Covered(s.tables, i) <= s.tables[i].hi)
    && Holds(s.groups, {}, Frozen(s.mem)) && s.mem.lo <= QueueEnd(s, |s.queue|) <= s.mem.hi == |s.groups|
    && QueueEnd(s, 0) <= |s.groups|
  }

  lemma InvLayered(s: State)
    requires Inv(s) && s.failed == {}
    ensures Layered(s)
  {
    hide Holds, Active, Retired, Loggable, Ownership, FlushSound, Sorted, OlderThan;
    assert QueueEnd(s, |s.queue|) <= s.logs[Current(s)].lo;
    assert QueueEnd(s, 0) <= s.logs[Current(s)].lo;
  }

  // ---- Tables ----

  ghost predicate Live(entries: seq<Entry>, k: bytes) {
    Find(entries, k).Some?
  }

  /** Reading the tables finds nothing exactly when none has a live value, and otherwise the oldest one's. */
  lemma {:induction false} TablesRead(tables: seq<Table>, i: nat, k: bytes)
    requires i <= |tables|
    ensures FromTables(tables, i, k).None? <==> forall j :: i <= j < |tables| ==> !Live(tables[j].entries, k)
    ensures FromTables(tables, i, k).Some? ==>
              exists j: nat :: Oldest(tables, i, j, k) && FromTables(tables, i, k) == Find(tables[j].entries, k)
    decreases |tables| - i
  {
    hide Find;
    if i < |tables| {
      if Live(tables[i].entries, k) {
        assert Oldest(tables, i, i, k);
      } else {
        TablesRead(tables, i + 1, k);
        if j: nat :| Oldest(tables, i + 1, j, k) && FromTables(tables, i + 1, k) == Find(tables[j].entries, k) {
          assert Oldest(tables, i, j, k);
        }
      }
    }
  }

  /** From the `i`-th table on, the `j`-th is the oldest with a live value. */
  ghost predicate Oldest(tables: seq<Table>, i: nat, j: nat, k: bytes) {
    i <= j < |tables| && Live(tables[j].entries, k) && forall h :: i <= h < j ==> !Live(tables[h].entries, k)
  }

  lemma {:induction false} NothingLive(s: State, n: nat, k: bytes)
    requires Layered(s) && n <= |s.tables| && forall j :: 0 <= j < n ==> !Live(s.tables[j].entries, k)
    ensures Covered(s.tables, n) <= |s.groups| && LastOf(s.groups, Covered(s.tables, n), k) == None
    decreases n
  {
    hide Find, Mentions, Holds;
    if n > 0 {
      NothingLive(s, n - 1, k);
      var t := s.tables[n - 1];
      LayerSpan(s.groups, t);
      hide LastOf;
      LayerDecides(s.groups, t, Covered(s.tables, n - 1), k);
    } else {
      assert s.groups[..0] == [];
    }
  }

  lemma {:induction false} QueueRead(queue: seq<Gen>, n: nat, k: bytes)
    requires n <= |queue|
    ensures FromQueue(queue, n, k).None? <==> forall i :: 0 <= i < n ==> !Live(queue[i].entries, k)
    decreases n
  {
    hide Find;
    if n > 0 { QueueRead(queue, n - 1, k); }
  }

  // ---- The condition ----

  /** Some layer still has a live value of the key. */
  ghost predicate SomeLive(s: State, k: bytes) {
    || Live(s.mem.entries, k)
    || (exists i :: 0 <= i < |s.queue| && Live(s.queue[i].entries, k))
    || (exists i :: 0 <= i < |s.tables| && Live(s.tables[i].entries, k))
  }

  /** A memtable, current or frozen, mentions the key. */
  ghost predicate InMemory(s: State, k: bytes) {
    Mentions(s.groups, Frozen(s.mem), k) || QueueMentions(s, |s.queue|, k)
  }

  /** The oldest table with a live value of the key has one that was overwritten since. */
  ghost predicate Stale(s: State, k: bytes) {
    exists j: nat :: Oldest(s.tables, 0, j, k) && Find(s.tables[j].entries, k) != Last(s, k)
  }

  lemma GetNothingIff(s: State, k: bytes)
    requires s.base == []
    ensures Get(s, k).None? <==> !SomeLive(s, k)
  {
    hide Find, FromQueue, FromTables;
    assert s.base + s.tables == s.tables;
    QueueRead(s.queue, |s.queue|, k);
    TablesRead(s.tables, 0, k);
  }

  lemma MemoryDecides(s: State, k: bytes)
    requires Layered(s) && Last(s, k).Some? && InMemory(s, k)
    ensures Get(s, k) == Last(s, k)
  {
    hide Find, LastOf, Mentions, Holds, FromQueue, FromTables;
    LayerSpan(s.groups, Frozen(s.mem));
    LayerDecides(s.groups, Frozen(s.mem), QueueEnd(s, |s.queue|), k);
    QueueDecides(s, |s.queue|, k);
  }

  lemma TablesDecide(s: State, k: bytes)
    requires Layered(s) && Last(s, k).Some? && !InMemory(s, k) && s.base == []
    ensures Get(s, k) == Last(s, k) <==> !Stale(s, k)
  {
    hide Find, LastOf, Mentions, Holds, FromQueue, FromTables;
    assert s.base + s.tables == s.tables;
    LayerDecides(s.groups, Frozen(s.mem), QueueEnd(s, |s.queue|), k);
    QueueDecides(s, |s.queue|, k);
    TablesRead(s.tables, 0, k);
    if FromTables(s.tables, 0, k).None? { NothingLive(s, |s.tables|, k); }
    forall i: nat, j: nat | Oldest(s.tables, 0, i, k) && Oldest(s.tables, 0, j, k) ensures i == j {
    }
  }

  /**
    At rest, a `get` returns the last write if and only if no deleted key still has a live value in some layer, and no
    key that is in tables only has an overwritten value in the oldest of them that has a live one.
   */
  lemma GetIsLastWriteIff(states: seq<State>, steps: seq<Step>, i: nat, k: bytes)
    requires Run(states, steps) && i < |states| && states[i].failed == {} && states[i].base == []
    ensures var s := states[i];
            Get(s, k) == Last(s, k) <==>
            if Last(s, k).None? then !SomeLive(s, k) else InMemory(s, k) || !Stale(s, k)
  {
    hide Run, Inv, Layered, Get, Last, SomeLive, InMemory, Stale;
    var s := states[i];
    RunKeeps(states, steps, i);
    InvLayered(s);
    GetNothingIff(s, k);
    if Last(s, k).Some? {
      if InMemory(s, k) { MemoryDecides(s, k); } else { TablesDecide(s, k); }
    }
  }

  // ---- Both ways to fail, from an empty database ----

  function DeleteGroup(k: bytes): Group {
    [[Op(true, k, [])]]
  }

  predicate Small(g: Group) {
    |EncodeGroup(g)| < U32
  }

  lemma OneDelete(k: bytes)
    ensures Ops(DeleteGroup(k)) == [Op(true, k, [])]
  {
    OneOp(Op(true, k, []));
  }

  /** A single operation in an empty memtable. */
  lemma OneAnswer(op: Op, first: nat)
    requires first < SEQ_LIMIT
    ensures Find(Apply([], [op], first), op.key) == if op.isDelete then None else Some(op.value)
  {
    hide Apply, Find;
    assert [op][1..] == [];
    EmptyFind(op.key);
    ApplyMeans([], [op], first, op.key);
  }

  /** A put, flushed. */
  lemma PutFlushed(k: bytes, a: bytes) returns (states: seq<State>, steps: seq<Step>)
    requires Small(PutGroup(k, a))
    ensures Run(states, steps) && |steps| == 9
    ensures var s := states[9];
            && Settled(s) && s.groups == [PutGroup(k, a)] && s.failed == {} && s.base == [] && s.seqNo == 1
            && |s.tables| == 1 && Find(s.tables[0].entries, k) == Some(a) && s.mem == Gen(1, 1, [], [], 1)
  {
    hide EncodeGroup, Apply, Ops, Enabled, After, PutGroup, Find;
    OnePut(k, a);
    PutAnswers(k, a, 1);
    OneAnswer(Op(false, k, a), 1);
    var p, x := Write(Init(), PutGroup(k, a), true);
    var q, y := FlushMem(p[1]);
    PathJoin(p, x, q, y);
    states, steps := p + q[1..], x + y;
    assert states[9] == q[8] && q[8].tables == [Frozen(p[1].mem)];
  }

  /** A value is put and flushed, then deleted: the tombstone does not stop the `get`, which returns the value. */
  lemma DeletedIsRead(k: bytes, a: bytes) returns (states: seq<State>, steps: seq<Step>)
    requires Small(PutGroup(k, a)) && Small(DeleteGroup(k))
    ensures Run(states, steps) && |steps| == 10 && states[10].failed == {} && states[10].base == []
    ensures Get(states[10], k) == Some(a) && Last(states[10], k) == None
  {
    hide EncodeGroup, Apply, Ops, Enabled, After, PutGroup, DeleteGroup, Find;
    OneDelete(k);
    OneAnswer(Op(true, k, []), 2);
    var p, x := PutFlushed(k, a);
    var q, y := Write(p[9], DeleteGroup(k), true);
    PathJoin(p, x, q, y);
    states, steps := p + q[1..], x + y;
    assert states[10] == q[1];
    LastOfTwo(q[1], PutGroup(k, a), DeleteGroup(k), Op(true, k, []), k);
  }

  lemma LastOfTwo(s: State, g: Group, h: Group, op: Op, k: bytes)
    requires s.groups == [g] + [h] && Ops(h) == [op] && op.key == k
    ensures Last(s, k) == if op.isDelete then None else Some(op.value)
  {
    hide Ops;
    assert s.groups[..2] == [g] + [h];
    AllOpsSnoc([g], h);
    LastValueConcat(AllOps([g]), [op], k, None);
    assert [op][1..] == [];
  }

  /** Two values are put, each flushed: the `get` returns the first. */
  lemma OverwrittenIsRead(k: bytes, a: bytes, b: bytes) returns (states: seq<State>, steps: seq<Step>)
    requires Small(PutGroup(k, a)) && Small(PutGroup(k, b))
    ensures Run(states, steps) && |steps| == 18 && states[18].failed == {} && states[18].base == []
    ensures Get(states[18], k) == Some(a) && Last(states[18], k) == Some(b)
  {
    hide EncodeGroup, Apply, Ops, Enabled, After, PutGroup, Find;
    OnePut(k, b);
    PutAnswers(k, b, 2);
    var p, x := PutFlushed(k, a);
    var q, y := Write(p[9], PutGroup(k, b), true);
    var r, z := FlushMem(q[1]);
    PathJoin(p, x, q, y);
    PathJoin(p + q[1..], x + y, r, z);
    states, steps := p + q[1..] + r[1..], x + y + z;
    assert states[18] == r[8] && r[8].tables[0] == p[9].tables[0];
    EmptyFind(k);
    LastOfTwo(r[8], PutGroup(k, a), PutGroup(k, b), Op(false, k, b), k);
  }
}
