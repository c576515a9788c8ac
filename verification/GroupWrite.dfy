/** Writing one formed group: reserve, log, sync, apply (`doWriteGroup` in `minikv/src/core/db_impl.cpp`). */
module GroupWrite {
  import opened Bytes
  import opened Coding
  import opened Entries
  import opened MemTable
  import opened Wal
  import opened LogMeaning

  datatype Request = Request(batch: Batch, sync: bool)

  datatype Status = Ok | AppendError | SyncError

  function Batches(group: seq<Request>): (g: Group)
    ensures |g| == |group| && forall i :: 0 <= i < |g| ==> g[i] == group[i].batch
  {
    seq(|group|, i requires 0 <= i < |group| => group[i].batch)
  }

  ghost predicate NeedsSync(group: seq<Request>) {
    exists i :: 0 <= i < |group| && group[i].sync
  }

  lemma {:induction false} OpsSnoc(g: Group, b: Batch)
    ensures Ops(g + [b]) == Ops(g) + b
  {
    if |g| == 0 {
      assert g + [b] == [b];
      assert [b][1..] == [];
    } else {
      assert (g + [b])[1..] == g[1..] + [b];
      OpsSnoc(g[1..], b);
    }
  }

  lemma OpsStep(g: Group, i: nat)
    requires i < |g|
    ensures Ops(g[..i + 1]) == Ops(g[..i]) + g[i]
  {
    hide Ops;
    assert g[..i + 1] == g[..i] + [g[i]];
    OpsSnoc(g[..i], g[i]);
  }

  lemma {:induction false} EncodeSnoc(ops: seq<Op>, op: Op)
    ensures EncodeOps(ops + [op]) == EncodeOps(ops) + EncodeOp(op)
  {
    hide EncodeOp;
    if |ops| == 0 {
      assert ops + [op] == [op];
      assert [op][1..] == [];
    } else {
      assert (ops + [op])[1..] == ops[1..] + [op];
      EncodeSnoc(ops[1..], op);
    }
  }

  class Writer {
    const wal: WAL
    const memtable: MemTable
    const walSync: bool
    var seqNo: nat

    ghost predicate Valid()
      reads this, wal, memtable, memtable.Repr
    {
      wal.Valid() && memtable.Valid() && wal !in memtable.Repr && this !in memtable.Repr
    }

    constructor (wal: WAL, memtable: MemTable, walSync: bool, seqNo: nat)
      requires wal.Valid() && memtable.Valid() && wal !in memtable.Repr
      ensures Valid() && this.wal == wal && this.memtable == memtable
      ensures this.walSync == walSync && this.seqNo == seqNo
    {
      this.wal, this.memtable, this.walSync, this.seqNo := wal, memtable, walSync, seqNo;
    }

    /** One `fetch_add` per batch: each batch's range starts where the one before it ends. */
    method Reserve(group: seq<Request>) returns (bases: seq<nat>)
      modifies this`seqNo
      ensures |bases| == |group|
      ensures forall i :: 0 <= i < |group| ==> bases[i] == old(seqNo) + |Ops(Batches(group)[..i])|
      ensures seqNo == old(seqNo) + |Ops(Batches(group))|
    {
      hide Ops;
      ghost var g := Batches(group);
      bases := [];
      NoOps(g[..0]);
      for i := 0 to |group|
        invariant |bases| == i && seqNo == old(seqNo) + |Ops(g[..i])|
        invariant forall j :: 0 <= j < i ==> bases[j] == old(seqNo) + |Ops(g[..j])|
      {
        OpsStep(g, i);
        bases := bases + [seqNo];
        seqNo := seqNo + |group[i].batch|;
      }
      assert g[..|group|] == g;
    }

    /** The buffer handed to the log. */
    method EncodeRecord(group: seq<Request>) returns (data: bytes)
      ensures data == EncodeGroup(Batches(group))
    {
      hide Ops, EncodeOps, EncodeOp;
      ghost var g := Batches(group);
      data := [];
      NoOps(g[..0]);
      for i := 0 to |group|
        invariant data == EncodeOps(Ops(g[..i]))
      {
        var batch := group[i].batch;
        assert Ops(g[..i]) + batch[..0] == Ops(g[..i]);
        for j := 0 to |batch|
          invariant data == EncodeOps(Ops(g[..i]) + batch[..j])
        {
          data := EncodeInto(data, batch[j]);
          EncodeSnoc(Ops(g[..i]) + batch[..j], batch[j]);
          assert Ops(g[..i]) + batch[..j + 1] == (Ops(g[..i]) + batch[..j]) + [batch[j]];
        }
        assert batch[..|batch|] == batch;
        OpsStep(g, i);
      }
      assert g[..|group|] == g;
    }

    static method EncodeInto(data: bytes, op: Op) returns (r: bytes)
      ensures r == data + EncodeOp(op)
    {
      hide Fixed32;
      r := data + [OpType(op.isDelete)];
      r := r + Fixed32(|op.key|);
      r := r + Fixed32(|op.value|);
      r := r + op.key;
      r := r + op.value;
    }

    /** The operations of one batch under the range it reserved. */
    method ApplyBatch(batch: Batch, base: nat)
      requires Valid()
      modifies memtable.Repr
      ensures Valid() && fresh(memtable.Repr - old(memtable.Repr))
      ensures memtable.Contents() == Apply(old(memtable.Contents()), batch, base + 1)
    {
      hide Apply, MemPut, MemTable.Valid, MemTable.Contents;
      ghost var start := memtable.Contents();
      ApplyNone(start, base + 1);
      assert batch[..0] == [];
      for j := 0 to |batch|
        invariant Valid() && fresh(memtable.Repr - old(memtable.Repr))
        invariant memtable.Contents() == Apply(start, batch[..j], base + 1)
      {
        var op := batch[j];
        ApplySnoc(start, batch[..j], op, base + 1);
        assert batch[..j + 1] == batch[..j] + [op];
        memtable.Put(op.key, op.value, base + 1 + j, op.isDelete);
      }
      assert batch[..|batch|] == batch;
    }

    method ApplyGroup(group: seq<Request>, bases: seq<nat>, first: nat)
      requires Valid() && |bases| == |group|
      requires forall i :: 0 <= i < |group| ==> bases[i] == first + |Ops(Batches(group)[..i])|
      modifies memtable.Repr
      ensures Valid() && fresh(memtable.Repr - old(memtable.Repr))
      ensures memtable.Contents() == Apply(old(memtable.Contents()), Ops(Batches(group)), first + 1)
    {
      hide Ops, Apply, MemTable.Valid, MemTable.Contents;
      ghost var g, start := Batches(group), memtable.Contents();
      NoOps(g[..0]);
      ApplyNone(start, first + 1);
      for i := 0 to |group|
        invariant Valid() && fresh(memtable.Repr - old(memtable.Repr))
        invariant memtable.Contents() == Apply(start, Ops(g[..i]), first + 1)
      {
        OpsStep(g, i);
        ApplyConcat(start, Ops(g[..i]), g[i], first + 1);
        ApplyBatch(group[i].batch, bases[i]);
      }
      assert g[..|group|] == g;
    }

    method AnySync(group: seq<Request>) returns (b: bool)
      ensures b <==> NeedsSync(group)
    {
      for i := 0 to |group|
        invariant forall j :: 0 <= j < i ==> !group[j].sync
      {
        if group[i].sync { return true; }
      }
      return false;
    }

    /**
      `doWriteGroup`. The group becomes one record; nothing is applied unless the record was accepted
      whole and, when some writer asked for it, synced; the operations take the next contiguous range
      of sequence numbers in log order.
     */
    method DoWriteGroup(group: seq<Request>, accepted: nat, syncWorks: bool) returns (st: Status)
      requires Valid()
      modifies this, wal, memtable.Repr
      ensures Valid() && fresh(memtable.Repr - old(memtable.Repr))
      ensures |group| == 0 ==> st == Ok && seqNo == old(seqNo) && wal.content == old(wal.content)
      ensures |group| > 0 ==>
                var record := Frame(EncodeGroup(Batches(group)));
                && seqNo == old(seqNo) + |Ops(Batches(group))|
                && wal.content == old(wal.content) + (if accepted >= |record| then record else record[..accepted])
                && (st == AppendError <==> accepted < |record|)
                && (st == SyncError <==> accepted >= |record| && walSync && NeedsSync(group) && !syncWorks)
                && wal.synced == (if st == Ok && walSync && NeedsSync(group) then |wal.content| else old(wal.synced))
      ensures st == Ok ==> memtable.Contents() == Apply(old(memtable.Contents()), Ops(Batches(group)), old(seqNo) + 1)
      ensures st != Ok ==> memtable.Contents() == old(memtable.Contents())
    {
      hide Ops, Apply, EncodeGroup, Frame, MemTable.Valid, MemTable.Contents, NeedsSync;
      st := Ok;
      if |group| == 0 {
        NoOps(Batches(group));
        ApplyNone(memtable.Contents(), seqNo + 1);
        return;
      }
      var needSync := AnySync(group);
      var first := seqNo;
      var bases := Reserve(group);
      var data := EncodeRecord(group);
      var ok := wal.Append(data, accepted);
      if !ok { return AppendError; }
      if walSync && needSync {
        ok := wal.Sync(syncWorks);
        if !ok { return SyncError; }
      }
      ApplyGroup(group, bases, first);
    }
  }

  lemma NoOps(g: Group)
    requires |g| == 0
    ensures Ops(g) == [] && EncodeGroup(g) == []
  {
  }
}
