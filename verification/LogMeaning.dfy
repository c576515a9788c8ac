/**
 What a log says: groups of write batches encoded as one record each (`doWriteGroup`), replayed into
 a memtable after a crash (`replayWalFile`), in `minikv/src/core/db_impl.cpp`.
 */
module LogMeaning {
  import opened Bytes
  import opened Coding
  import opened InternalKey
  import opened Entries
  import opened Lookup
  import opened MemTable
  import opened Wal
  import opened WalTail

  datatype Op = Op(isDelete: bool, key: bytes, value: bytes)

  type Batch = seq<Op>
  type Group = seq<Batch>

  function Ops(g: Group): seq<Op> {
    if |g| == 0 then [] else g[0] + Ops(g[1..])
  }

  function AllOps(groups: seq<Group>): seq<Op> {
    if |groups| == 0 then [] else Ops(groups[0]) + AllOps(groups[1..])
  }

  // ---- The record of a group ----

  function EncodeOp(op: Op): (b: bytes)
    ensures |b| == 9 + |op.key| + |op.value|
  {
    [OpType(op.isDelete)] + Fixed32(|op.key|) + Fixed32(|op.value|) + op.key + op.value
  }

  function EncodeOps(ops: seq<Op>): bytes {
    if |ops| == 0 then [] else EncodeOp(ops[0]) + EncodeOps(ops[1..])
  }

  function EncodeGroup(g: Group): bytes {
    EncodeOps(Ops(g))
  }

  /** The operation at the front of a record; None where the source would read past its end. */
  function DecodeOp(r: bytes): (o: Option<Op>)
    ensures o.Some? ==> 9 + |o.value.key| + |o.value.value| <= |r|
  {
    if |r| < 9 then None
    else
      var klen, vlen := DecodeLE(r[1..5]), DecodeLE(r[5..9]);
      if |r| < 9 + klen + vlen then None
      else Some(Op(r[0] == 2, r[9..9 + klen], r[9 + klen..9 + klen + vlen]))
  }

  /** The decoding loop of `replayWalFile`. */
  function DecodeOps(r: bytes): Option<seq<Op>>
    decreases |r|
  {
    if |r| == 0 then Some([])
    else
      match DecodeOp(r)
      case None => None
      case Some(op) =>
        match DecodeOps(r[9 + |op.key| + |op.value|..])
        case None => None
        case Some(ops) => Some([op] + ops)
  }

  lemma DecodeEncodeOp(op: Op, rest: bytes)
    requires |op.key| < U32 && |op.value| < U32
    ensures DecodeOp(EncodeOp(op) + rest) == Some(op)
    ensures (EncodeOp(op) + rest)[9 + |op.key| + |op.value|..] == rest
  {
    hide Fixed32, DecodeLE;
    var r, k, v := EncodeOp(op) + rest, |op.key|, |op.value|;
    Fixed32RoundTrip(k);
    Fixed32RoundTrip(v);
    assert r[1..5] == Fixed32(k);
    assert r[5..9] == Fixed32(v);
    assert r[9..9 + k] == op.key;
    assert r[9 + k..9 + k + v] == op.value;
  }

  /** A record decodes to the operations it was made of. */
  lemma {:induction false} DecodeEncodeOps(ops: seq<Op>)
    requires |EncodeOps(ops)| < U32
    ensures DecodeOps(EncodeOps(ops)) == Some(ops)
  {
    hide EncodeOp, DecodeOp;
    if |ops| > 0 {
      DecodeEncodeOp(ops[0], EncodeOps(ops[1..]));
      DecodeEncodeOps(ops[1..]);
      assert ops == [ops[0]] + ops[1..];
    }
  }

  // ---- Applying operations to a memtable ----

  /** Operations applied in order under consecutive sequence numbers from `first`. */
  function Apply(es: seq<Entry>, ops: seq<Op>, first: nat): seq<Entry>
    decreases |ops|
  {
    if |ops| == 0 then es
    else Apply(MemPut(es, ops[0].key, ops[0].value, first, ops[0].isDelete), ops[1..], first + 1)
  }

  /** The meaning of a list of operations for one key: the last one decides. */
  function LastValue(ops: seq<Op>, key: bytes, before: Option<bytes>): Option<bytes>
    decreases |ops|
  {
    if |ops| == 0 then before
    else LastValue(ops[1..], key,
                   if ops[0].key != key then before else if ops[0].isDelete then None else Some(ops[0].value))
  }

  /** A memtable fed with increasing sequence numbers answers every key with its last operation. */
  lemma {:induction false} ApplyMeans(es: seq<Entry>, ops: seq<Op>, first: nat, key: bytes)
    requires Sorted(es) && OlderThan(es, first) && first + |ops| <= SEQ_LIMIT
    ensures Find(Apply(es, ops, first), key) == LastValue(ops, key, Find(es, key))
    ensures Sorted(Apply(es, ops, first)) && OlderThan(Apply(es, ops, first), first + |ops|)
    decreases |ops|
  {
    hide MemPut, Find, Sorted, OlderThan;
    if |ops| > 0 {
      var op := ops[0];
      MemPutLookup(es, op.key, op.value, first, op.isDelete, key);
      MemPutKeeps(es, op.key, op.value, first, op.isDelete);
      ApplyMeans(MemPut(es, op.key, op.value, first, op.isDelete), ops[1..], first + 1, key);
    }
  }

  lemma {:induction false} ApplyConcat(es: seq<Entry>, a: seq<Op>, b: seq<Op>, first: nat)
    ensures Apply(es, a + b, first) == Apply(Apply(es, a, first), b, first + |a|)
    decreases |a|
  {
    hide MemPut;
    if |a| == 0 {
      assert a + b == b;
    } else {
      assert (a + b)[1..] == a[1..] + b;
      ApplyConcat(MemPut(es, a[0].key, a[0].value, first, a[0].isDelete), a[1..], b, first + 1);
    }
  }

  // ---- The log of a generation ----

  function Records(groups: seq<Group>): (rs: seq<bytes>)
    ensures |rs| == |groups|
    ensures forall i :: 0 <= i < |groups| ==> rs[i] == EncodeGroup(groups[i])
  {
    seq(|groups|, i requires 0 <= i < |groups| => EncodeGroup(groups[i]))
  }

  predicate Loggable(groups: seq<Group>) {
    forall i :: 0 <= i < |groups| ==> |EncodeGroup(groups[i])| < U32
  }

  /** All operations of a list of records; None if one is malformed. */
  function DecodeRecords(rs: seq<bytes>): Option<seq<Op>> {
    if |rs| == 0 then Some([])
    else
      match (DecodeOps(rs[0]), DecodeRecords(rs[1..]))
      case (Some(a), Some(b)) => Some(a + b)
      case _ => None
  }

  lemma {:induction false} DecodeRecordsOf(groups: seq<Group>)
    requires Loggable(groups)
    ensures DecodeRecords(Records(groups)) == Some(AllOps(groups))
  {
    hide EncodeOps, DecodeOps, Ops;
    if |groups| > 0 {
      DecodeEncodeOps(Ops(groups[0]));
      DecodeRecordsOf(groups[1..]);
      assert Records(groups)[1..] == Records(groups[1..]);
    }
  }

  /** `replayWalFile` on a fresh database: sequence numbers restart at 0. */
  function Recovered(file: bytes): Option<seq<Entry>> {
    match DecodeRecords(Replay(file))
    case None => None
    case Some(ops) => Some(Apply([], ops, 0))
  }

  /**
   For every byte-prefix of the log of a list of groups, the replayed memtable answers each key with the
   last operation among the groups that survived whole, and so does the memtable that was live when they
   were written, although its sequence numbers start elsewhere.
   */
  lemma ReplayMeansLastOperation(groups: seq<Group>, n: nat, first: nat, key: bytes)
    requires Loggable(groups) && n <= |Log(Records(groups))|
    requires first + |AllOps(groups)| <= SEQ_LIMIT
    ensures var w := Whole(Records(groups), n);
            var ops := AllOps(groups[..w]);
            var r := Recovered(Log(Records(groups))[..n]);
            && r.Some?
            && Find(r.value, key) == LastValue(ops, key, None)
            && Find(Apply([], ops, first), key) == Find(r.value, key)
  {
    hide Replay, Log, Whole, Apply, LastValue, DecodeRecords, AllOps, Find;
    var w := Whole(Records(groups), n);
    ReplayPrefix(Records(groups), n);
    assert Records(groups)[..w] == Records(groups[..w]);
    DecodeRecordsOf(groups[..w]);
    var ops := AllOps(groups[..w]);
    AllOpsPrefix(groups, w);
    EmptyFind(key);
    ApplyMeans([], ops, 0, key);
    ApplyMeans([], ops, first, key);
  }

  lemma EmptyFind(key: bytes)
    ensures Find([], key) == None
  {
  }

  lemma {:induction false} AllOpsPrefix(groups: seq<Group>, w: nat)
    requires w <= |groups|
    ensures |AllOps(groups[..w])| <= |AllOps(groups)|
  {
    hide Ops;
    if w > 0 {
      AllOpsPrefix(groups[1..], w - 1);
      assert groups[..w][1..] == groups[1..][..w - 1];
    }
  }

  /** Two groups of one operation, with records of nine and ten bytes. */
  lemma ShortGroups() returns (g: Group, h: Group)
    ensures |EncodeGroup(g)| == 9 && |EncodeGroup(h)| == 10
  {
    hide EncodeOp, EncodeGroup;
    var a, b := Op(false, [], []), Op(false, [], [0]);
    g, h := [[a]], [[b]];
    OneOp(a);
    OneOp(b);
  }

  lemma OneOp(op: Op)
    ensures Ops([[op]]) == [op] && EncodeGroup([[op]]) == EncodeOp(op)
  {
    hide EncodeOp;
    assert [[op]][1..] == [] && [op][1..] == [];
    assert Ops([]) == [] && EncodeOps([]) == [];
    assert [op] + [] == [op] && EncodeOp(op) + [] == EncodeOp(op);
  }

  ghost predicate GroupsReplay(file: bytes) {
    forall gs :: Loggable(gs) ==> Replay(file + Log(Records(gs))) == Replay(file) + Records(gs)
  }

  lemma OneGroup(g: Group)
    ensures Records([g]) == [EncodeGroup(g)]
  {
  }

  /** The groups appended to a log file are all replayed, whatever they are, exactly when the file was whole. */
  lemma GroupsReplayIffWhole(file: bytes)
    ensures GroupsReplay(file) <==> IsWhole(file)
  {
    hide Log, Replay, EncodeGroup, Records;
    if IsWhole(file) {
      WholeAppends(file);
      forall gs | Loggable(gs) ensures Replay(file + Log(Records(gs))) == Replay(file) + Records(gs) {
        assert AllFit(Records(gs)) by { RecordsFitted(gs); }
      }
    } else {
      Leftover(file);
      var tail := file[|Log(Replay(file))|..];
      assert file == Log(Replay(file)) + tail;
      var g, h := ShortGroups();
      OneGroup(g);
      OneGroup(h);
      TailHidesOneOf(tail, EncodeGroup(g), EncodeGroup(h));
      if Replay(tail + Log(Records([g]))) != Records([g]) {
        LostGroup(file, tail, [g]);
      } else {
        LostGroup(file, tail, [h]);
      }
      assert Loggable([g]) && Loggable([h]);
    }
  }

  lemma RecordsFitted(gs: seq<Group>)
    requires Loggable(gs)
    ensures AllFit(Records(gs))
  {
    hide EncodeGroup;
  }

  lemma LostGroup(file: bytes, tail: bytes, gs: seq<Group>)
    requires file == Log(Replay(file)) + tail && Replay(tail + Log(Records(gs))) != Records(gs)
    ensures Replay(file + Log(Records(gs))) != Replay(file) + Records(gs)
  {
    hide Log, Replay, Records;
    var rs, log := Replay(file), Log(Records(gs));
    ReplayReadsPrefix(file);
    ReplayAfter(rs, tail + log);
    assert Log(rs) + (tail + log) == file + log;
    Cancel(rs, Replay(tail + log), Records(gs));
  }

  // ---- The replay loops ----

  /** The inner loop: operations off one record, each under the next sequence number. */
  method ReplayRecord(record: bytes, mem: MemTable, seqNo: nat) returns (seqNo': nat)
    requires mem.Valid() && DecodeOps(record).Some?
    modifies mem.Repr
    ensures mem.Valid() && fresh(mem.Repr - old(mem.Repr))
    ensures var ops := DecodeOps(record).value;
            mem.Contents() == Apply(old(mem.Contents()), ops, seqNo) && seqNo' == seqNo + |ops|
  {
    hide DecodeOp, DecodeOps, Apply, MemPut, MemTable.Valid, MemTable.Contents;
    seqNo' := seqNo;
    var p := 0;
    ghost var all, done, start := DecodeOps(record).value, [], mem.Contents();
    assert record[0..] == record;
    ApplyNone(start, seqNo);
    while p < |record|
      invariant 0 <= p <= |record| && mem.Valid()
      invariant fresh(mem.Repr - old(mem.Repr))
      invariant DecodeOps(record[p..]).Some? && done + DecodeOps(record[p..]).value == all
      invariant seqNo' == seqNo + |done| && mem.Contents() == Apply(start, done, seqNo)
    {
      DecodeStep(record[p..]);
      var op := DecodeOp(record[p..]).value;
      var step := 9 + |op.key| + |op.value|;
      assert record[p..][step..] == record[p + step..];
      mem.Put(op.key, op.value, seqNo', op.isDelete);
      ApplySnoc(start, done, op, seqNo);
      done := done + [op];
      seqNo' := seqNo' + 1;
      p := p + step;
    }
    DecodeEnd(record[p..]);
    assert done == done + [] == all;
    assert mem.Contents() == Apply(start, all, seqNo);
  }

  /** `replayWalFile`: every record of the file in turn. */
  method ReplayFile(wal: WAL, mem: MemTable, seqNo: nat) returns (seqNo': nat)
    requires mem.Valid() && wal !in mem.Repr
    requires DecodeRecords(Replay(wal.content)).Some?
    modifies mem.Repr
    ensures mem.Valid() && fresh(mem.Repr - old(mem.Repr))
    ensures var ops := DecodeRecords(Replay(wal.content)).value;
            mem.Contents() == Apply(old(mem.Contents()), ops, seqNo) && seqNo' == seqNo + |ops|
  {
    hide DecodeRecords, DecodeOps, Apply, MemTable.Valid, MemTable.Contents;
    var records := wal.ReplayAll();
    seqNo' := seqNo;
    ghost var all, done, start := DecodeRecords(records).value, [], mem.Contents();
    assert records[0..] == records;
    ApplyNone(start, seqNo);
    for i := 0 to |records|
      invariant mem.Valid() && fresh(mem.Repr - old(mem.Repr))
      invariant DecodeRecords(records[i..]).Some? && done + DecodeRecords(records[i..]).value == all
      invariant seqNo' == seqNo + |done| && mem.Contents() == Apply(start, done, seqNo)
    {
      RecordsStep(records[i..]);
      assert records[i..][1..] == records[i + 1..];
      ghost var ops := DecodeOps(records[i]).value;
      ApplyConcat(start, done, ops, seqNo);
      seqNo' := ReplayRecord(records[i], mem, seqNo');
      done := done + ops;
    }
    RecordsEnd(records[|records|..]);
    assert done == done + [] == all;
  }

  lemma RecordsStep(rs: seq<bytes>)
    requires |rs| > 0 && DecodeRecords(rs).Some?
    ensures DecodeOps(rs[0]).Some? && DecodeRecords(rs[1..]).Some?
    ensures DecodeRecords(rs).value == DecodeOps(rs[0]).value + DecodeRecords(rs[1..]).value
  {
    hide DecodeOps;
  }

  lemma RecordsEnd(rs: seq<bytes>)
    requires |rs| == 0
    ensures DecodeRecords(rs) == Some([])
  {
  }

  lemma ApplyNone(es: seq<Entry>, first: nat)
    ensures Apply(es, [], first) == es
  {
  }

  lemma DecodeEnd(r: bytes)
    requires |r| == 0
    ensures DecodeOps(r) == Some([])
  {
  }

  lemma DecodeStep(r: bytes)
    requires |r| > 0 && DecodeOps(r).Some?
    ensures DecodeOp(r).Some?
    ensures var op := DecodeOp(r).value;
            var rest := DecodeOps(r[9 + |op.key| + |op.value|..]);
            rest.Some? && DecodeOps(r).value == [op] + rest.value
  {
    hide DecodeOp;
  }

  lemma ApplySnoc(es: seq<Entry>, ops: seq<Op>, op: Op, first: nat)
    ensures Apply(es, ops + [op], first) == MemPut(Apply(es, ops, first), op.key, op.value, first + |ops|, op.isDelete)
  {
    hide MemPut;
    ApplyConcat(es, ops, [op], first);
    assert [op][1..] == [];
  }
}
