/** How the versions of one key fare through memtable writes and merges. */
module KeyLife {
  import opened Bytes
  import opened InternalKey
  import opened Entries
  import opened Lookup
  import opened MemTable
  import opened LogMeaning
  import opened TableLookup
  import opened Compaction

  ghost predicate Has(es: seq<Entry>, k: bytes) {
    exists e :: e in es && UserKey(e.key) == k
  }

  /** No version of `k` is a tombstone, and every one carries a value from `values`. */
  ghost predicate Clean(es: seq<Entry>, k: bytes, values: set<bytes>) {
    forall e :: e in es && UserKey(e.key) == k ==> !IsDeletion(e.key) && e.value in values
  }

  lemma CleanMore(es: seq<Entry>, k: bytes, a: set<bytes>, b: set<bytes>)
    requires Clean(es, k, a) && a <= b
    ensures Clean(es, k, b)
  {
    hide UserKey, IsDeletion;
  }

  /** A clean table that has the key answers with one of its values; one that has it not answers nothing. */
  lemma CleanFinds(es: seq<Entry>, k: bytes, values: set<bytes>)
    requires Clean(es, k, values)
    ensures Find(es, k).Some? <==> Has(es, k)
    ensures Find(es, k).Some? ==> Find(es, k).value in values
  {
    hide UserKey, IsDeletion;
    if e :| e in es && UserKey(e.key) == k {
      var i :| 0 <= i < |es| && es[i] == e;
      FirstWithFinds(es, k, i);
    }
  }

  lemma PutMembers(es: seq<Entry>, key: bytes, value: bytes, e: Entry)
    ensures e in Entries.Put(es, key, value) ==> e in es || e == Entry(key, value)
    ensures e in es ==> exists e' :: e' in Entries.Put(es, key, value) && e'.key == e.key
    ensures Entry(key, value) in Entries.Put(es, key, value)
  {
    hide Rank;
    var r, out := Rank(es, key), Entries.Put(es, key, value);
    if r < |es| && es[r].key == key {
      assert out[r] == Entry(key, value);
      if e in es {
        var i :| 0 <= i < |es| && es[i] == e;
        assert out[i].key == e.key && out[i] in out;
      }
    } else {
      assert out == es[..r] + [Entry(key, value)] + es[r..];
      assert out[r] == Entry(key, value);
      if e in es {
        assert es == es[..r] + es[r..];
        assert e in out;
      }
    }
  }

  lemma PutHas(es: seq<Entry>, userKey: bytes, value: bytes, seqNo: nat, isDelete: bool, k: bytes)
    ensures Has(es, k) ==> Has(MemPut(es, userKey, value, seqNo, isDelete), k)
    ensures userKey == k ==> Has(MemPut(es, userKey, value, seqNo, isDelete), k)
  {
    hide UserKey, Encode, Entries.Put;
    var ik := Encode(userKey, seqNo, OpType(isDelete));
    var v := if isDelete then [] else value;
    EncodeRoundTrip(userKey, seqNo, OpType(isDelete));
    PutMembers(es, ik, v, Entry(ik, v));
    if e :| e in es && UserKey(e.key) == k {
      PutMembers(es, ik, v, e);
    }
  }

  lemma PutClean(es: seq<Entry>, userKey: bytes, value: bytes, seqNo: nat, isDelete: bool, k: bytes, values: set<bytes>)
    requires Clean(es, k, values) && (userKey == k ==> !isDelete && value in values)
    ensures Clean(MemPut(es, userKey, value, seqNo, isDelete), k, values)
  {
    hide UserKey, Encode, Entries.Put, TypeOf;
    var ik := Encode(userKey, seqNo, OpType(isDelete));
    var v := if isDelete then [] else value;
    EncodeRoundTrip(userKey, seqNo, OpType(isDelete));
    forall e | e in MemPut(es, userKey, value, seqNo, isDelete) && UserKey(e.key) == k
      ensures !IsDeletion(e.key) && e.value in values
    {
      PutMembers(es, ik, v, e);
    }
  }

  /** The operations never delete `k` and put only values from `values`. */
  ghost predicate Puts(ops: seq<Op>, k: bytes, values: set<bytes>) {
    forall i :: 0 <= i < |ops| && ops[i].key == k ==> !ops[i].isDelete && ops[i].value in values
  }

  ghost predicate Touches(ops: seq<Op>, k: bytes) {
    exists i :: 0 <= i < |ops| && ops[i].key == k
  }

  lemma {:induction false} ApplyHas(es: seq<Entry>, ops: seq<Op>, first: nat, k: bytes)
    ensures Has(es, k) || Touches(ops, k) ==> Has(Apply(es, ops, first), k)
    decreases |ops|
  {
    hide Has, MemPut;
    if |ops| > 0 {
      var op := ops[0];
      PutHas(es, op.key, op.value, first, op.isDelete, k);
      ApplyHas(MemPut(es, op.key, op.value, first, op.isDelete), ops[1..], first + 1, k);
      if i :| 0 <= i < |ops| && ops[i].key == k {
        assert i > 0 ==> ops[1..][i - 1].key == k;
      }
    }
  }

  lemma {:induction false} ApplyClean(es: seq<Entry>, ops: seq<Op>, first: nat, k: bytes, values: set<bytes>)
    requires Clean(es, k, values) && Puts(ops, k, values)
    ensures Clean(Apply(es, ops, first), k, values)
    decreases |ops|
  {
    hide Clean, MemPut;
    if |ops| > 0 {
      var op := ops[0];
      PutClean(es, op.key, op.value, first, op.isDelete, k, values);
      ApplyClean(MemPut(es, op.key, op.value, first, op.isDelete), ops[1..], first + 1, k, values);
    }
  }

  // ---- Merges ----

  lemma {:induction false} FlattenMember(files: seq<seq<Entry>>, e: Entry)
    ensures e in Flatten(files) <==> exists i :: 0 <= i < |files| && e in files[i]
  {
    if |files| > 0 {
      FlattenMember(files[1..], e);
      if i :| 0 <= i < |files| && e in files[i] {
        assert i > 0 ==> e in files[1..][i - 1];
      }
      if i :| 0 <= i < |files[1..]| && e in files[1..][i] {
        assert e in files[i + 1];
      }
    }
  }

  lemma FlattenClean(files: seq<seq<Entry>>, k: bytes, values: set<bytes>)
    requires forall i :: 0 <= i < |files| ==> Clean(files[i], k, values)
    ensures Clean(Flatten(files), k, values)
  {
    hide UserKey, IsDeletion, Flatten;
    forall e | e in Flatten(files) && UserKey(e.key) == k
      ensures !IsDeletion(e.key) && e.value in values
    {
      FlattenMember(files, e);
      var i :| 0 <= i < |files| && e in files[i];
      assert Clean(files[i], k, values);
    }
  }

  /** A merge of clean files is clean, and keeps a non-empty key that some input has. */
  lemma MergeKeepsKey(files: seq<seq<Entry>>, sorted: seq<Entry>, k: bytes, values: set<bytes>)
    requires forall i :: 0 <= i < |files| ==> Clean(files[i], k, values)
    requires Ordered(sorted) && multiset(sorted) == multiset(Flatten(files)) && k != []
    ensures Clean(Keep(sorted, []), k, values)
    ensures (exists i :: 0 <= i < |files| && Has(files[i], k)) ==> Has(Keep(sorted, []), k)
  {
    hide UserKey, IsDeletion, Flatten, Ordered, Keep, Find;
    FlattenClean(files, k, values);
    SameElements(sorted, Flatten(files));
    KeepMembers(sorted, []);
    assert Clean(sorted, k, values);
    assert Clean(Keep(sorted, []), k, values);
    OutputFinds(sorted, k);
    CleanFinds(sorted, k, values);
    CleanFinds(Keep(sorted, []), k, values);
    if i :| 0 <= i < |files| && Has(files[i], k) {
      var e :| e in files[i] && UserKey(e.key) == k;
      FlattenMember(files, e);
      assert e in sorted;
    }
  }
}
