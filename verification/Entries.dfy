/** Entries in internal-key order: the reference that memtables, skip lists and tables are held to. */
module Entries {
  import opened Bytes
  import opened InternalKey

  datatype Entry = Entry(key: bytes, value: bytes)

  predicate Less(a: bytes, b: bytes) {
    CompareKeys(a, b) < 0
  }

  /** Strictly ascending internal keys. */
  predicate Sorted(es: seq<Entry>) {
    && (forall i :: 0 <= i < |es| ==> Internal(es[i].key))
    && (forall i, j :: 0 <= i < j < |es| ==> Less(es[i].key, es[j].key))
  }

  /** How many entries, from the front, are below `key`. */
  function Rank(es: seq<Entry>, key: bytes): (r: nat)
    ensures r <= |es|
    ensures forall i :: 0 <= i < r ==> Less(es[i].key, key)
    ensures r < |es| ==> !Less(es[r].key, key)
  {
    if |es| == 0 || !Less(es[0].key, key) then 0
    else
      assert forall i :: 1 <= i < |es| ==> es[i] == es[1..][i - 1];
      1 + Rank(es[1..], key)
  }

  function Put(es: seq<Entry>, key: bytes, value: bytes): seq<Entry> {
    var r := Rank(es, key);
    if r < |es| && es[r].key == key then es[r := Entry(key, value)]
    else es[..r] + [Entry(key, value)] + es[r..]
  }

  function Get(es: seq<Entry>, key: bytes): Option<bytes> {
    var r := Rank(es, key);
    if r < |es| && es[r].key == key then Some(es[r].value) else None
  }

  function Del(es: seq<Entry>, key: bytes): seq<Entry> {
    var r := Rank(es, key);
    if r < |es| && es[r].key == key then es[..r] + es[r + 1..] else es
  }

  // ---- The same operations on maps ----

  ghost predicate Represents(es: seq<Entry>, m: map<bytes, bytes>) {
    && (forall i :: 0 <= i < |es| ==> es[i].key in m && m[es[i].key] == es[i].value)
    && (forall k :: k in m ==> exists i :: 0 <= i < |es| && es[i].key == k)
  }

  lemma LessIrreflexive(a: bytes)
    ensures !Less(a, a)
  {
    CompareKeysAntisymmetric(a, a);
  }

  lemma LessTransitive(a: bytes, b: bytes, c: bytes)
    requires Internal(a) && Internal(b) && Internal(c) && Less(a, b) && Less(b, c)
    ensures Less(a, c)
  {
    CompareKeysTransitive(a, b, c);
  }

  lemma LessTotal(a: bytes, b: bytes)
    requires Internal(a) && Internal(b) && !Less(a, b) && a != b
    ensures Less(b, a)
  {
    CompareKeysZero(a, b);
    CompareKeysAntisymmetric(a, b);
  }

  /** The rank splits a sorted list into what is below the key, the key itself, and what is above. */
  lemma RankSplits(es: seq<Entry>, key: bytes, i: nat)
    requires Sorted(es) && Internal(key) && i < |es|
    ensures i >= Rank(es, key) ==> !Less(es[i].key, key)
    ensures i > Rank(es, key) ==> Less(key, es[i].key)
    ensures i == Rank(es, key) && es[i].key != key ==> Less(key, es[i].key)
    ensures i != Rank(es, key) ==> es[i].key != key
  {
    hide CompareKeys, Less, Rank;
    var r := Rank(es, key);
    LessIrreflexive(key);
    if i >= r {
      if es[r].key != key { LessTotal(es[r].key, key); }
      if i > r && es[r].key != key { LessTransitive(key, es[r].key, es[i].key); }
      if Less(es[i].key, key) && Less(key, es[i].key) {
        LessTransitive(key, es[i].key, key);
      }
    }
  }

  lemma PutSorted(es: seq<Entry>, key: bytes, value: bytes)
    requires Sorted(es) && Internal(key)
    ensures Sorted(Put(es, key, value))
  {
    hide CompareKeys, Less, Rank;
    var r, out := Rank(es, key), Put(es, key, value);
    forall i | 0 <= i < |es|
      ensures i > r ==> Less(key, es[i].key)
      ensures i == r && es[i].key != key ==> Less(key, es[i].key)
    {
      RankSplits(es, key, i);
    }
  }

  /** The list operations are the map operations. */
  lemma PutIsUpdate(es: seq<Entry>, key: bytes, value: bytes, m: map<bytes, bytes>)
    requires Sorted(es) && Internal(key) && Represents(es, m)
    ensures Represents(Put(es, key, value), m[key := value])
  {
    hide CompareKeys, Less, Rank, Sorted;
    var r, out, m' := Rank(es, key), Put(es, key, value), m[key := value];
    forall i | 0 <= i < |es|
      ensures i != r ==> es[i].key != key
    {
      RankSplits(es, key, i);
    }
    forall k | k in m'
      ensures exists i :: 0 <= i < |out| && out[i].key == k
    {
      if k == key {
        assert out[r].key == k;
      } else {
        var i :| 0 <= i < |es| && es[i].key == k;
        assert out[if |out| == |es| || i < r then i else i + 1].key == k;
      }
    }
  }

  lemma GetIsLookup(es: seq<Entry>, key: bytes, m: map<bytes, bytes>)
    requires Sorted(es) && Internal(key) && Represents(es, m)
    ensures Get(es, key) == if key in m then Some(m[key]) else None
  {
    hide CompareKeys, Less, Rank, Sorted;
    if key in m {
      var i :| 0 <= i < |es| && es[i].key == key;
      RankSplits(es, key, i);
    }
  }

  lemma DelIsRemoval(es: seq<Entry>, key: bytes, m: map<bytes, bytes>)
    requires Sorted(es) && Internal(key) && Represents(es, m)
    ensures Represents(Del(es, key), m - {key})
  {
    hide CompareKeys, Less, Rank, Sorted, Represents;
    var r := Rank(es, key);
    forall i | 0 <= i < |es|
      ensures i != r ==> es[i].key != key
    {
      RankSplits(es, key, i);
    }
    if r < |es| && es[r].key == key {
      OneRemoved(es, r, m);
    } else {
      NoneRemoved(es, key, m);
    }
  }

  lemma OneRemoved(es: seq<Entry>, r: nat, m: map<bytes, bytes>)
    requires Represents(es, m) && r < |es| && forall i :: 0 <= i < |es| && i != r ==> es[i].key != es[r].key
    ensures Represents(es[..r] + es[r + 1..], m - {es[r].key})
  {
    var out, m' := es[..r] + es[r + 1..], m - {es[r].key};
    forall k | k in m'
      ensures exists i :: 0 <= i < |out| && out[i].key == k
    {
      var i :| 0 <= i < |es| && es[i].key == k;
      assert out[if i < r then i else i - 1] == es[i];
    }
    forall i | 0 <= i < |out| ensures out[i].key in m' && m'[out[i].key] == out[i].value {
      assert out[i] == es[if i < r then i else i + 1];
    }
  }

  lemma NoneRemoved(es: seq<Entry>, key: bytes, m: map<bytes, bytes>)
    requires Represents(es, m) && forall i :: 0 <= i < |es| ==> es[i].key != key
    ensures Represents(es, m - {key})
  {
  }

  /** A map has only one sorted listing. */
  lemma {:induction false} SortedUnique(es: seq<Entry>, fs: seq<Entry>, m: map<bytes, bytes>)
    requires Sorted(es) && Sorted(fs) && Represents(es, m) && Represents(fs, m)
    ensures es == fs
  {
    hide Sorted, Represents;
    if |fs| > 0 { InhabitedAlike(es, fs, m); }
    if |es| > 0 {
      InhabitedAlike(fs, es, m);
      FirstSame(es, fs, m);
      TailRepresents(es, m);
      TailRepresents(fs, m);
      SortedUnique(es[1..], fs[1..], m - {es[0].key});
      assert es == [es[0]] + es[1..] && fs == [fs[0]] + fs[1..];
    }
  }

  lemma InhabitedAlike(es: seq<Entry>, fs: seq<Entry>, m: map<bytes, bytes>)
    requires Represents(es, m) && Represents(fs, m) && |fs| > 0
    ensures |es| > 0
  {
    assert fs[0].key in m;
  }

  lemma FirstIsLeast(es: seq<Entry>, fs: seq<Entry>, m: map<bytes, bytes>)
    requires Sorted(es) && Sorted(fs) && Represents(es, m) && Represents(fs, m) && |es| > 0 && |fs| > 0
    ensures es[0].key == fs[0].key || Less(es[0].key, fs[0].key)
  {
    hide CompareKeys, Less;
    assert fs[0].key in m;
    var i :| 0 <= i < |es| && es[i].key == fs[0].key;
  }

  lemma FirstSame(es: seq<Entry>, fs: seq<Entry>, m: map<bytes, bytes>)
    requires Sorted(es) && Sorted(fs) && Represents(es, m) && Represents(fs, m) && |es| > 0 && |fs| > 0
    ensures es[0] == fs[0]
  {
    hide CompareKeys, Less;
    FirstIsLeast(es, fs, m);
    FirstIsLeast(fs, es, m);
    if Less(es[0].key, fs[0].key) && Less(fs[0].key, es[0].key) {
      LessTransitive(es[0].key, fs[0].key, es[0].key);
      LessIrreflexive(es[0].key);
    }
  }

  lemma TailRepresents(es: seq<Entry>, m: map<bytes, bytes>)
    requires Sorted(es) && Represents(es, m) && |es| > 0
    ensures Sorted(es[1..]) && Represents(es[1..], m - {es[0].key})
  {
    hide CompareKeys, Less;
    LessIrreflexive(es[0].key);
    var m' := m - {es[0].key};
    forall k | k in m'
      ensures exists i :: 0 <= i < |es[1..]| && es[1..][i].key == k
    {
      var i :| 0 <= i < |es| && es[i].key == k;
      assert es[1..][i - 1].key == k;
    }
  }
}
