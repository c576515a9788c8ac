/** Lookup of a user key among versioned entries, and the memtable (`minikv/src/core/memtable.cpp`). */
module Lookup {
  import opened Bytes
  import opened InternalKey
  import opened Entries

  /** The first entry for a user key; in sorted entries, its newest version. */
  function FirstWith(es: seq<Entry>, userKey: bytes): (r: Option<Entry>)
    ensures r.Some? ==> r.value in es && UserKey(r.value.key) == userKey
  {
    if |es| == 0 then None
    else if UserKey(es[0].key) == userKey then Some(es[0])
    else FirstWith(es[1..], userKey)
  }

  /** A tombstone reads as absent. */
  function Visible(e: Option<Entry>): Option<bytes> {
    if e.Some? && !IsDeletion(e.value.key) then Some(e.value.value) else None
  }

  /** The reference lookup: a flat search for the first match. */
  function Find(es: seq<Entry>, userKey: bytes): Option<bytes> {
    Visible(FirstWith(es, userKey))
  }

  /** The scan of the source, which stops at the first larger user key. */
  function Scan(es: seq<Entry>, userKey: bytes): Option<bytes> {
    if |es| == 0 then None
    else
      var c := Compare(UserKey(es[0].key), userKey);
      if c < 0 then Scan(es[1..], userKey)
      else if c > 0 then None
      else if IsDeletion(es[0].key) then None else Some(es[0].value)
  }

  lemma SortedUserKeys(es: seq<Entry>, i: nat, j: nat)
    requires Sorted(es) && i < j < |es|
    ensures Compare(UserKey(es[i].key), UserKey(es[j].key)) <= 0
  {
    assert Less(es[i].key, es[j].key);
  }

  lemma {:induction false} NoneAbove(es: seq<Entry>, userKey: bytes)
    requires forall i :: 0 <= i < |es| ==> UserKey(es[i].key) != userKey
    ensures FirstWith(es, userKey) == None
  {
    if |es| > 0 { NoneAbove(es[1..], userKey); }
  }

  lemma AboveDiffers(a: bytes, b: bytes, c: bytes)
    requires Compare(a, c) > 0 && Compare(a, b) <= 0
    ensures b != c
  {
    CompareAntisymmetric(a, b);
    CompareAntisymmetric(a, c);
  }

  /** Stopping early loses nothing in sorted entries. */
  lemma {:induction false} ScanIsFind(es: seq<Entry>, userKey: bytes)
    requires Sorted(es)
    ensures Scan(es, userKey) == Find(es, userKey)
  {
    hide Compare, IsDeletion, UserKey, Sorted;
    if |es| > 0 {
      CompareZero(UserKey(es[0].key), userKey);
      if Compare(UserKey(es[0].key), userKey) > 0 {
        forall i | 0 <= i < |es|
          ensures UserKey(es[i].key) != userKey
        {
          if i > 0 {
            SortedUserKeys(es, 0, i);
            AboveDiffers(UserKey(es[0].key), UserKey(es[i].key), userKey);
          }
        }
        NoneAbove(es, userKey);
      } else {
        TailSorted(es);
        ScanIsFind(es[1..], userKey);
      }
    }
  }

  lemma TailSorted(es: seq<Entry>)
    requires Sorted(es) && |es| > 0
    ensures Sorted(es[1..])
  {
    hide Less;
  }

  lemma {:induction false} FirstWithConcat(a: seq<Entry>, b: seq<Entry>, userKey: bytes)
    ensures FirstWith(a + b, userKey)
            == if FirstWith(a, userKey).Some? then FirstWith(a, userKey) else FirstWith(b, userKey)
  {
    hide UserKey;
    if |a| == 0 {
      assert a + b == b;
    } else {
      assert (a + b)[1..] == a[1..] + b;
      FirstWithConcat(a[1..], b, userKey);
    }
  }

  lemma {:induction false} FirstWithFinds(es: seq<Entry>, userKey: bytes, i: nat)
    requires i < |es| && UserKey(es[i].key) == userKey
    ensures FirstWith(es, userKey).Some?
  {
    hide UserKey;
    if i > 0 && UserKey(es[0].key) != userKey { FirstWithFinds(es[1..], userKey, i - 1); }
  }
}

module MemTable {
  import opened Bytes
  import opened InternalKey
  import opened Entries
  import opened Lookup
  import opened SkipLinks
  import SkipList

  function OpType(isDelete: bool): byte {
    if isDelete then DELETION else VALUE
  }

  /** What one `put` call does to the entries. */
  function MemPut(es: seq<Entry>, userKey: bytes, value: bytes, seqNo: nat, isDelete: bool): seq<Entry> {
    Entries.Put(es, Encode(userKey, seqNo, OpType(isDelete)), if isDelete then [] else value)
  }

  predicate OlderThan(es: seq<Entry>, seqNo: nat) {
    forall i :: 0 <= i < |es| ==> Sequence(es[i].key) < seqNo
  }

  /** A new version lands before every older version of its user key and after all smaller user keys. */
  lemma NewestRank(es: seq<Entry>, userKey: bytes, seqNo: nat, typ: byte, i: nat)
    requires Sorted(es) && OlderThan(es, seqNo) && seqNo < SEQ_LIMIT && i < |es|
    ensures i < Rank(es, Encode(userKey, seqNo, typ)) ==> UserKey(es[i].key) != userKey
    ensures es[i].key != Encode(userKey, seqNo, typ)
  {
    hide *;
    var b := Encode(userKey, seqNo, typ);
    assert Internal(es[i].key) by { SortedInternal(es, i); }
    assert Sequence(es[i].key) < seqNo by { OlderAt(es, seqNo, i); }
    EncodeSequence(userKey, seqNo, typ);
    if i < Rank(es, b) { OlderBefore(es[i].key, b); }
  }

  lemma SortedInternal(es: seq<Entry>, i: nat)
    requires Sorted(es) && i < |es|
    ensures Internal(es[i].key)
  {
  }

  lemma OlderAt(es: seq<Entry>, seqNo: nat, i: nat)
    requires OlderThan(es, seqNo) && i < |es|
    ensures Sequence(es[i].key) < seqNo
  {
  }

  lemma EncodeSequence(userKey: bytes, seqNo: nat, typ: byte)
    requires seqNo < SEQ_LIMIT
    ensures Internal(Encode(userKey, seqNo, typ))
    ensures UserKey(Encode(userKey, seqNo, typ)) == userKey
    ensures Sequence(Encode(userKey, seqNo, typ)) == seqNo
  {
    hide Encode, UserKey, Sequence;
    EncodeRoundTrip(userKey, seqNo, typ);
  }

  lemma OlderBefore(a: bytes, b: bytes)
    requires Internal(a) && Internal(b) && Sequence(a) < Sequence(b) && Less(a, b)
    ensures UserKey(a) != UserKey(b)
  {
    CompareZero(UserKey(a), UserKey(b));
  }

  /** The newest operation on a key decides its lookup; other keys are unaffected. */
  lemma MemPutLookup(es: seq<Entry>, userKey: bytes, value: bytes, seqNo: nat, isDelete: bool, k: bytes)
    requires Sorted(es) && OlderThan(es, seqNo) && seqNo < SEQ_LIMIT
    ensures Find(MemPut(es, userKey, value, seqNo, isDelete), k)
         == if k == userKey then (if isDelete then None else Some(value)) else Find(es, k)
  {
    hide Encode, UserKey, Sequence, TypeOf, Rank, Sorted, FirstWith;
    var typ := OpType(isDelete);
    var ik := Encode(userKey, seqNo, typ);
    var r := Rank(es, ik);
    var e := Entry(ik, if isDelete then [] else value);
    EncodeRoundTrip(userKey, seqNo, typ);
    forall i | 0 <= i < |es|
      ensures i < r ==> UserKey(es[i].key) != userKey
      ensures es[i].key != ik
    {
      NewestRank(es, userKey, seqNo, typ, i);
    }
    assert MemPut(es, userKey, value, seqNo, isDelete) == es[..r] + [e] + es[r..];
    FirstWithInserted(es, r, e, k);
    if k == userKey { NoneAbove(es[..r], userKey); }
  }

  lemma FirstWithInserted(es: seq<Entry>, r: nat, e: Entry, k: bytes)
    requires r <= |es|
    ensures FirstWith(es[..r] + [e] + es[r..], k)
         == if UserKey(e.key) != k then FirstWith(es, k)
            else if FirstWith(es[..r], k).Some? then FirstWith(es[..r], k) else Some(e)
  {
    FirstWithConcat(es[..r] + [e], es[r..], k);
    FirstWithConcat(es[..r], [e], k);
    FirstWithConcat(es[..r], es[r..], k);
    assert es == es[..r] + es[r..];
    FirstOfOne(e, k);
  }

  lemma FirstOfOne(e: Entry, k: bytes)
    ensures FirstWith([e], k) == if UserKey(e.key) == k then Some(e) else None
  {
    hide UserKey;
    assert [e][1..] == [];
  }

  lemma MemPutKeeps(es: seq<Entry>, userKey: bytes, value: bytes, seqNo: nat, isDelete: bool)
    requires Sorted(es) && OlderThan(es, seqNo) && seqNo < SEQ_LIMIT
    ensures Sorted(MemPut(es, userKey, value, seqNo, isDelete))
    ensures OlderThan(MemPut(es, userKey, value, seqNo, isDelete), seqNo + 1)
  {
    hide Encode, UserKey, Sequence, Rank, Sorted;
    PutSorted(es, Encode(userKey, seqNo, OpType(isDelete)), if isDelete then [] else value);
    EncodeRoundTrip(userKey, seqNo, OpType(isDelete));
  }

  class MemTable {
    const table: SkipList.SkipList
    const maxSize: nat
    ghost var Repr: set<object>

    ghost predicate Valid()
      reads this, Repr
    {
      && this in Repr && table in Repr
      && (forall n :: n in table.nodes ==> n in Repr && n.forward in Repr)
      && this as object != table
      && table.Valid()
    }

    ghost function Contents(): seq<Entry>
      requires Valid()
      reads this, Repr
    {
      table.Contents()
    }

    constructor (maxSize: nat)
      ensures Valid() && Contents() == [] && this.maxSize == maxSize && fresh(Repr)
    {
      table := new SkipList.SkipList();
      this.maxSize := maxSize;
      new;
      Repr := {this, table} + (set n | n in table.nodes :: n as object) + Arrays(table.nodes);
    }

    method Put(userKey: bytes, value: bytes, seqNo: nat, isDelete: bool)
      requires Valid()
      modifies Repr
      ensures Valid() && fresh(Repr - old(Repr))
      ensures Contents() == MemPut(old(Contents()), userKey, value, seqNo, isDelete)
    {
      hide Encode, Entries.Put, Sorted, SkipList.Wired, SkipList.Top, SkipList.Memory, SkipList.Listing;
      var ikey := Encode(userKey, seqNo, OpType(isDelete));
      table.Put(ikey, if isDelete then [] else value);
      Repr := Repr + (set n | n in table.nodes :: n as object) + Arrays(table.nodes);
    }

    /** `get` walks the entries; its sequence argument plays no part. */
    method Get(userKey: bytes) returns (r: Option<bytes>)
      requires Valid()
      ensures r == Find(Contents(), userKey)
    {
      hide Compare, UserKey, IsDeletion;
      var entries := table.ListEntries();
      ScanIsFind(entries, userKey);
      var i := 0;
      while i < |entries|
        invariant 0 <= i <= |entries| && Scan(entries[i..], userKey) == Scan(entries, userKey)
      {
        assert entries[i..][1..] == entries[i + 1..];
        var cmp := Compare(UserKey(entries[i].key), userKey);
        if cmp > 0 { return None; }
        if cmp == 0 { return if IsDeletion(entries[i].key) then None else Some(entries[i].value); }
        i := i + 1;
      }
      return None;
    }

    /** `shouldFlush` compares the accounted memory with the limit. */
    method ShouldFlush() returns (b: bool)
      requires Valid()
      ensures b <==> SkipList.Memory(Contents()) >= maxSize
    {
      b := table.memUsage >= maxSize;
    }
  }
}
