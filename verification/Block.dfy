/** Prefix-compressed blocks of key/value pairs (`minikv/src/core/block.cpp`). */
module Block {
  import opened Bytes
  import opened Coding
  import opened InternalKey
  import opened Entries
  import opened Lookup

  const RESTART_INTERVAL := 16

  // ---- Format ----

  function CommonPrefix(a: bytes, b: bytes): (n: nat)
    ensures n <= |a| && n <= |b| && a[..n] == b[..n]
    ensures n < |a| && n < |b| ==> a[n] != b[n]
  {
    if |a| == 0 || |b| == 0 || a[0] != b[0] then 0
    else
      var n := CommonPrefix(a[1..], b[1..]);
      assert a[..n + 1] == [a[0]] + a[1..][..n] && b[..n + 1] == [b[0]] + b[1..][..n];
      n + 1
  }

  /** How many bytes of the previous key an entry reuses: none at a restart point. */
  function SharedLength(last: bytes, counter: nat, key: bytes): (n: nat)
    ensures n <= |last| && n <= |key| && last[..n] == key[..n]
  {
    if counter < RESTART_INTERVAL && last != [] then CommonPrefix(last, key) else 0
  }

  function EncodeEntry(shared: nat, e: Entry): (b: bytes)
    requires shared <= |e.key|
  {
    EncodeVarint(shared) + EncodeVarint(|e.key| - shared) + EncodeVarint(|e.value|) + e.key[shared..] + e.value
  }

  function NextCounter(counter: nat): nat {
    if counter >= RESTART_INTERVAL then 1 else counter + 1
  }

  /** The entry area for `es`, following a key `last` with `counter` entries since the restart point. */
  function EncodeAll(es: seq<Entry>, last: bytes, counter: nat): bytes
    decreases |es|
  {
    if |es| == 0 then []
    else EncodeEntry(SharedLength(last, counter, es[0].key), es[0]) +
         EncodeAll(es[1..], es[0].key, NextCounter(counter))
  }

  function EncodeRestarts(rs: seq<nat>): (b: bytes)
    ensures |b| == 4 * |rs|
  {
    if |rs| == 0 then [] else Fixed32(rs[0]) + EncodeRestarts(rs[1..])
  }

  function Trailer(rs: seq<nat>): (b: bytes)
    ensures |b| == 4 * |rs| + 4
  {
    EncodeRestarts(rs) + Fixed32(|rs|)
  }

  /** Where the restart array starts, as `BlockReader` computes it in 32 bits. */
  function RestartsOffset(data: bytes): nat {
    if |data| < 4 then 0
    else (|data| - 4 - DecodeLE(data[|data| - 4..]) * 4 % U32) % U32
  }

  /** One step of the reading loops; None where they stop, or would run off the data. */
  function DecodeEntry(data: bytes, offset: nat, limit: nat, last: bytes): (r: Option<(Entry, nat)>)
    requires offset <= limit <= |data|
    ensures r.Some? ==> offset < r.value.1 <= |data|
  {
    match DecodeVarint(data[offset..limit])
    case None => None
    case Some((shared, n1)) =>
      match DecodeVarint(data[offset + n1..limit])
      case None => None
      case Some((nonShared, n2)) =>
        match DecodeVarint(data[offset + n1 + n2..limit])
        case None => None
        case Some((valLen, n3)) =>
          var p := offset + n1 + n2 + n3;
          if p + nonShared + valLen > |data| then None
          else
            var prefix := if shared <= |last| then last[..shared] else last;
            Some((Entry(prefix + data[p..p + nonShared], data[p + nonShared..p + nonShared + valLen]),
                  p + nonShared + valLen))
  }

  /** What `forEach` passes to its callback. */
  function ReadAll(data: bytes, offset: nat, limit: nat, last: bytes): seq<Entry>
    requires limit <= |data|
    decreases |data| - offset
  {
    if offset >= limit then []
    else
      match DecodeEntry(data, offset, limit, last)
      case None => []
      case Some((e, next)) => [e] + ReadAll(data, next, limit, e.key)
  }

  function Read(data: bytes): seq<Entry> {
    if RestartsOffset(data) <= |data| then ReadAll(data, 0, RestartsOffset(data), []) else []
  }

  // ---- Round trip ----

  lemma VarintAt(data: bytes, offset: nat, limit: nat, v: nat)
    requires v < U32 && offset + |EncodeVarint(v)| <= limit <= |data|
    requires data[offset..offset + |EncodeVarint(v)|] == EncodeVarint(v)
    ensures DecodeVarint(data[offset..limit]) == Some((v, |EncodeVarint(v)|))
  {
    hide EncodeVarint, DecodeVarint;
    var n := |EncodeVarint(v)|;
    assert data[offset..limit] == EncodeVarint(v) + data[offset + n..limit];
    VarintRoundTrip(v, data[offset + n..limit]);
  }

  lemma FiveParts(a: bytes, b: bytes, c: bytes, d: bytes, e: bytes)
    ensures var s := a + b + c + d + e;
            var h := |a| + |b| + |c|;
            && s[0..|a|] == a && s[|a|..|a| + |b|] == b && s[|a| + |b|..h] == c
            && s[h..h + |d|] == d && s[h + |d|..h + |d| + |e|] == e
  {
  }

  lemma EntryParts(shared: nat, e: Entry)
    requires shared <= |e.key|
    ensures var a, b, c := EncodeVarint(shared), EncodeVarint(|e.key| - shared), EncodeVarint(|e.value|);
            var s, h, k := EncodeEntry(shared, e), |a| + |b| + |c|, |e.key| - shared;
            && |s| == h + k + |e.value| && s[0..|a|] == a && s[|a|..|a| + |b|] == b && s[|a| + |b|..h] == c
            && s[h..h + k] == e.key[shared..] && s[h + k..h + k + |e.value|] == e.value
  {
    hide EncodeVarint;
    FiveParts(EncodeVarint(shared), EncodeVarint(|e.key| - shared), EncodeVarint(|e.value|), e.key[shared..], e.value);
  }

  /** The five fields of an encoded entry, in place. */
  lemma EntryFields(data: bytes, offset: nat, shared: nat, e: Entry)
    requires shared <= |e.key| && offset + |EncodeEntry(shared, e)| <= |data|
    requires data[offset..offset + |EncodeEntry(shared, e)|] == EncodeEntry(shared, e)
    ensures var a, b, c := EncodeVarint(shared), EncodeVarint(|e.key| - shared), EncodeVarint(|e.value|);
            var p, k := offset + |a| + |b| + |c|, |e.key| - shared;
            && p + k + |e.value| == offset + |EncodeEntry(shared, e)|
            && data[offset..offset + |a|] == a
            && data[offset + |a|..offset + |a| + |b|] == b
            && data[offset + |a| + |b|..p] == c
            && data[p..p + k] == e.key[shared..]
            && data[p + k..p + k + |e.value|] == e.value
  {
    hide EncodeVarint, EncodeEntry;
    var enc := EncodeEntry(shared, e);
    var a, b, c := EncodeVarint(shared), EncodeVarint(|e.key| - shared), EncodeVarint(|e.value|);
    var h, k := |a| + |b| + |c|, |e.key| - shared;
    EntryParts(shared, e);
    SliceOfSlice(data, offset, enc, 0, |a|);
    SliceOfSlice(data, offset, enc, |a|, |a| + |b|);
    SliceOfSlice(data, offset, enc, |a| + |b|, h);
    SliceOfSlice(data, offset, enc, h, h + k);
    SliceOfSlice(data, offset, enc, h + k, h + k + |e.value|);
  }

  lemma DecodeEntryOf(data: bytes, offset: nat, limit: nat, last: bytes, shared: nat, e: Entry)
    requires shared <= |e.key| && shared <= |last| && last[..shared] == e.key[..shared]
    requires |e.key| < U32 && |e.value| < U32
    requires offset + |EncodeEntry(shared, e)| <= limit <= |data|
    requires data[offset..offset + |EncodeEntry(shared, e)|] == EncodeEntry(shared, e)
    ensures DecodeEntry(data, offset, limit, last) == Some((e, offset + |EncodeEntry(shared, e)|))
  {
    hide EncodeVarint, DecodeVarint, EncodeEntry;
    EntryFields(data, offset, shared, e);
    var a, b := EncodeVarint(shared), EncodeVarint(|e.key| - shared);
    VarintAt(data, offset, limit, shared);
    VarintAt(data, offset + |a|, limit, |e.key| - shared);
    VarintAt(data, offset + |a| + |b|, limit, |e.value|);
    assert e.key == last[..shared] + e.key[shared..];
  }

  lemma SliceOfSlice(data: bytes, offset: nat, part: bytes, i: nat, j: nat)
    requires offset + |part| <= |data| && data[offset..offset + |part|] == part && i <= j <= |part|
    ensures data[offset + i..offset + j] == part[i..j]
  {
    forall t | 0 <= t < j - i
      ensures data[offset + i..offset + j][t] == part[i..j][t]
    {
      assert part[i + t] == data[offset..offset + |part|][i + t];
    }
  }

  predicate Small(es: seq<Entry>) {
    forall i :: 0 <= i < |es| ==> |es[i].key| < U32 && |es[i].value| < U32
  }

  lemma {:induction false} ReadEncoded(data: bytes, offset: nat, es: seq<Entry>, last: bytes, counter: nat)
    requires Small(es)
    requires offset + |EncodeAll(es, last, counter)| <= |data|
    requires data[offset..offset + |EncodeAll(es, last, counter)|] == EncodeAll(es, last, counter)
    ensures ReadAll(data, offset, offset + |EncodeAll(es, last, counter)|, last) == es
    decreases |es|
  {
    hide EncodeEntry, DecodeEntry, SharedLength;
    if |es| > 0 {
      var e, shared := es[0], SharedLength(last, counter, es[0].key);
      var all, head := EncodeAll(es, last, counter), EncodeEntry(shared, e);
      var rest := EncodeAll(es[1..], e.key, NextCounter(counter));
      assert all[..|head|] == head && all[|head|..] == rest;
      SliceOfSlice(data, offset, all, 0, |head|);
      SliceOfSlice(data, offset, all, |head|, |all|);
      EntryNonEmpty(shared, e);
      DecodeEntryOf(data, offset, offset + |all|, last, shared, e);
      ReadEncoded(data, offset + |head|, es[1..], e.key, NextCounter(counter));
      assert es == [e] + es[1..];
    }
  }

  lemma EntryNonEmpty(shared: nat, e: Entry)
    requires shared <= |e.key|
    ensures |EncodeEntry(shared, e)| > 0
  {
  }

  /** The whole block: entries, restart offsets, restart count. */
  function EncodeBlock(es: seq<Entry>, rs: seq<nat>): bytes {
    EncodeAll(es, [], 0) + Trailer(rs)
  }

  /** A key is no longer than all encodings up to its own, so small blocks hold small keys and values. */
  lemma {:induction false} EncodedEntriesFit(es: seq<Entry>, last: bytes, counter: nat)
    requires |last| + |EncodeAll(es, last, counter)| < U32
    ensures Small(es)
    decreases |es|
  {
    hide SharedLength, EncodeEntry;
    if |es| > 0 {
      VarintsCoverShared(es[0], SharedLength(last, counter, es[0].key));
      EncodedEntriesFit(es[1..], es[0].key, NextCounter(counter));
      assert es == [es[0]] + es[1..];
    }
  }

  lemma VarintsCoverShared(e: Entry, shared: nat)
    requires shared <= |e.key|
    ensures |EncodeEntry(shared, e)| >= |e.key| - shared + |e.value|
  {
  }

  lemma TrailerLocates(area: bytes, rs: seq<nat>)
    requires |area + Trailer(rs)| < U32
    ensures RestartsOffset(area + Trailer(rs)) == |area|
  {
    hide Fixed32, DecodeLE, EncodeRestarts;
    var data := area + Trailer(rs);
    assert data[|data| - 4..] == Fixed32(|rs|);
    Fixed32RoundTrip(|rs|);
  }

  /** Reading a finished block yields exactly the entries that were added. */
  lemma RoundTrip(es: seq<Entry>, rs: seq<nat>)
    requires |EncodeBlock(es, rs)| < U32
    ensures Read(EncodeBlock(es, rs)) == es
  {
    hide EncodeAll, ReadAll, Trailer, RestartsOffset;
    var area, data := EncodeAll(es, [], 0), EncodeBlock(es, rs);
    TrailerLocates(area, rs);
    EncodedEntriesFit(es, [], 0);
    assert data[0..|area|] == area;
    ReadEncoded(data, 0, es, [], 0);
  }

  // ---- The builder ----

  /** The key and counter an encoder has reached after `es`. */
  function LastOf(es: seq<Entry>): bytes {
    if |es| == 0 then [] else es[|es| - 1].key
  }

  function CounterOf(n: nat): nat {
    if n == 0 then 0 else (n - 1) % RESTART_INTERVAL + 1
  }

  lemma {:induction false} EncodeSnoc(es: seq<Entry>, e: Entry, last: bytes, counter: nat)
    ensures EncodeAll(es + [e], last, counter)
         == EncodeAll(es, last, counter) +
            EncodeEntry(SharedLength(if |es| == 0 then last else LastOf(es), Advance(counter, |es|), e.key), e)
    decreases |es|
  {
    hide EncodeEntry, SharedLength;
    if |es| == 0 {
      assert (es + [e])[1..] == [];
    } else {
      assert (es + [e])[1..] == es[1..] + [e];
      EncodeSnoc(es[1..], e, es[0].key, NextCounter(counter));
      assert |es| > 1 ==> LastOf(es[1..]) == LastOf(es);
    }
  }

  function Advance(counter: nat, n: nat): nat
    decreases n
  {
    if n == 0 then counter else Advance(NextCounter(counter), n - 1)
  }

  lemma {:induction false} AdvanceSnoc(counter: nat, n: nat)
    ensures Advance(counter, n + 1) == NextCounter(Advance(counter, n))
    decreases n
  {
    if n > 0 { AdvanceSnoc(NextCounter(counter), n - 1); }
  }

  lemma {:induction false} AdvanceIsCounter(n: nat)
    ensures Advance(0, n) == CounterOf(n)
  {
    if n > 0 {
      AdvanceIsCounter(n - 1);
      AdvanceSnoc(0, n - 1);
    }
  }

  lemma BuilderStep(es: seq<Entry>, e: Entry)
    ensures EncodeAll(es + [e], [], 0)
         == EncodeAll(es, [], 0) + EncodeEntry(SharedLength(LastOf(es), CounterOf(|es|), e.key), e)
  {
    hide EncodeEntry, SharedLength, EncodeAll, Advance;
    EncodeSnoc(es, e, [], 0);
    AdvanceIsCounter(|es|);
  }

  /** Every sixteenth entry starts at a recorded offset. */
  ghost predicate RestartsOf(es: seq<Entry>, rs: seq<nat>) {
    && |rs| == (if |es| == 0 then 1 else (|es| - 1) / RESTART_INTERVAL + 1)
    && forall j :: 0 <= j < |rs| ==> RestartAt(es, rs[j], j)
  }

  ghost predicate RestartAt(es: seq<Entry>, offset: nat, j: nat) {
    RESTART_INTERVAL * j <= |es| && offset == |EncodeAll(es[..RESTART_INTERVAL * j], [], 0)|
  }

  lemma RestartsGrow(es: seq<Entry>, rs: seq<nat>, e: Entry)
    requires RestartsOf(es, rs)
    ensures RestartsOf(es + [e], if CounterOf(|es|) >= RESTART_INTERVAL then rs + [|EncodeAll(es, [], 0)|] else rs)
  {
    hide EncodeAll;
    var es', rs' := es + [e], if CounterOf(|es|) >= RESTART_INTERVAL then rs + [|EncodeAll(es, [], 0)|] else rs;
    forall j | 0 <= j < |rs'|
      ensures RestartAt(es', rs'[j], j)
    {
      if j < |rs| {
        assert RestartAt(es, rs[j], j);
        assert es'[..RESTART_INTERVAL * j] == es[..RESTART_INTERVAL * j];
      } else {
        assert es'[..RESTART_INTERVAL * j] == es;
      }
    }
  }

  class BlockBuilder {
    var buffer: bytes
    var lastKey: bytes
    var restarts: seq<nat>
    var restartCounter: nat
    ghost var entries: seq<Entry>

    /** Before `finish`: the fields are those of an encoder that has seen exactly `entries`. */
    ghost predicate Building()
      reads this
    {
      && buffer == EncodeAll(entries, [], 0)
      && lastKey == LastOf(entries) && restartCounter == CounterOf(|entries|)
      && RestartsOf(entries, restarts)
    }

    constructor ()
      ensures Building() && entries == []
    {
      buffer, lastKey, restarts, restartCounter, entries := [], [], [0], 0, [];
    }

    method Add(key: bytes, value: bytes)
      requires Building()
      modifies this
      ensures Building() && entries == old(entries) + [Entry(key, value)]
    {
      hide EncodeAll, EncodeEntry, EncodeVarint, RestartsOf, CommonPrefix;
      ghost var e := Entry(key, value);
      BuilderStep(entries, e);
      RestartsGrow(entries, restarts, e);
      ghost var counter := restartCounter;
      var shared := 0;
      if restartCounter < RESTART_INTERVAL && lastKey != [] {
        shared := SharedPrefix(lastKey, key);
      } else if restartCounter >= RESTART_INTERVAL {
        restarts := restarts + [|buffer|];
        restartCounter := 0;
      }
      assert shared == SharedLength(lastKey, counter, key);
      var header := EncodeVarint(shared) + EncodeVarint(|key| - shared) + EncodeVarint(|value|);
      AppendParts(buffer, header, key[shared..], value);
      EntryIs(shared, e);
      buffer := buffer + header;
      buffer := buffer + key[shared..];
      buffer := buffer + value;
      lastKey := key;
      restartCounter := restartCounter + 1;
      entries := entries + [e];
    }

    method Finish() returns (data: bytes)
      requires Building()
      modifies `buffer
      ensures data == buffer == EncodeBlock(entries, restarts)
    {
      hide Fixed32, EncodeAll;
      ghost var area := buffer;
      assert restarts[..0] == [];
      for i := 0 to |restarts|
        invariant buffer == area + EncodeRestarts(restarts[..i])
      {
        RestartsSnoc(restarts[..i], restarts[i]);
        assert restarts[..i + 1] == restarts[..i] + [restarts[i]];
        buffer := buffer + Fixed32(restarts[i]);
      }
      assert restarts[..|restarts|] == restarts;
      buffer := buffer + Fixed32(|restarts|);
      data := buffer;
    }
  }

  lemma AppendParts(a: bytes, b: bytes, c: bytes, d: bytes)
    ensures a + b + c + d == a + (b + c + d)
  {
  }

  lemma EntryIs(shared: nat, e: Entry)
    requires shared <= |e.key|
    ensures EncodeEntry(shared, e)
         == EncodeVarint(shared) + EncodeVarint(|e.key| - shared) + EncodeVarint(|e.value|) + e.key[shared..] + e.value
  {
  }

  lemma {:induction false} RestartsSnoc(rs: seq<nat>, r: nat)
    ensures EncodeRestarts(rs + [r]) == EncodeRestarts(rs) + Fixed32(r)
  {
    hide Fixed32;
    if |rs| == 0 {
      assert (rs + [r])[1..] == [];
    } else {
      assert (rs + [r])[1..] == rs[1..] + [r];
      RestartsSnoc(rs[1..], r);
    }
  }

  /** The prefix loop of `add`. */
  method SharedPrefix(a: bytes, b: bytes) returns (n: nat)
    ensures n == CommonPrefix(a, b)
  {
    n := 0;
    var minLen := if |a| < |b| then |a| else |b|;
    assert a[0..] == a && b[0..] == b;
    while n < minLen && a[n] == b[n]
      invariant n <= minLen && CommonPrefix(a, b) == n + CommonPrefix(a[n..], b[n..])
    {
      assert a[n..][1..] == a[n + 1..] && b[n..][1..] == b[n + 1..];
      n := n + 1;
    }
  }

  // ---- The reader ----

  /** `forEach`, collecting what it passes on; a restart array outside the data is not followed. */
  method ForEach(data: bytes) returns (out: seq<Entry>)
    ensures out == Read(data)
  {
    hide DecodeEntry, RestartsOffset;
    out := [];
    var limit := RestartsOffset(data);
    if limit > |data| { return; }
    var offset: nat, lastKey := 0, [];
    while offset < limit
      invariant offset <= |data| && Read(data) == out + ReadAll(data, offset, limit, lastKey)
      decreases |data| - offset
    {
      var r := DecodeEntry(data, offset, limit, lastKey);
      if r.None? { return; }
      out := out + [r.value.0];
      lastKey, offset := r.value.0.key, r.value.1;
    }
  }

  /** `getByUserKey`: decodes entry by entry and stops at the first user key that is not smaller. */
  method GetByUserKey(data: bytes, userKey: bytes) returns (r: Option<bytes>)
    ensures r == Scan(Read(data), userKey)
  {
    hide DecodeEntry, RestartsOffset, Compare, IsDeletion, UserKey;
    var limit := RestartsOffset(data);
    if limit > |data| { return None; }
    var offset: nat, lastKey := 0, [];
    while offset < limit
      invariant offset <= |data| && Scan(Read(data), userKey) == Scan(ReadAll(data, offset, limit, lastKey), userKey)
      decreases |data| - offset
    {
      var d := DecodeEntry(data, offset, limit, lastKey);
      if d.None? { return None; }
      var (e, next) := d.value;
      assert ReadAll(data, offset, limit, lastKey)[1..] == ReadAll(data, next, limit, e.key);
      var cmp := Compare(UserKey(e.key), userKey);
      if cmp == 0 { return if IsDeletion(e.key) then None else Some(e.value); }
      if cmp > 0 { return None; }
      lastKey, offset := e.key, next;
    }
    return None;
  }
}
