/**
 The bytes of a table file: sealed data blocks, an index block and a 48-byte footer
 (`minikv/src/core/sstable_builder.cpp`, `minikv/src/core/sstable_reader.cpp`).
 */
module TableFormat {
  import opened Bytes
  import opened Coding
  import opened Crc32c

  const BLOCK_HEADER := 13
  const FOOTER := 48
  const MAGIC := 0x4D4B_5353_5441_424C
  const VERSION: byte := 1

  /** A compression scheme, 0 meaning none; `decompress` is told the scheme and the original size. */
  datatype Codec = Codec(kind: byte, compress: bytes -> Option<bytes>, decompress: (byte, bytes, nat) -> Option<bytes>)

  /** What is asked of the compression library. */
  ghost predicate Inverse(c: Codec) {
    forall x {:trigger c.compress(x)} :: c.compress(x).Some? ==>
      c.compress(x).value != [] && c.decompress(c.kind, c.compress(x).value, |x|) == Some(x)
  }

  // ---- One data block ----

  /** The stored form: compressed only if that makes it smaller. */
  function Stored(c: Codec, raw: bytes): (bytes, byte) {
    if c.kind != 0 && c.compress(raw).Some? && |c.compress(raw).value| < |raw|
    then (c.compress(raw).value, c.kind) else (raw, 0)
  }

  function Header(c: Codec, raw: bytes): (h: bytes)
    ensures |h| == BLOCK_HEADER
  {
    var (payload, used) := Stored(c, raw);
    Fixed32(Checksum(payload)) + Fixed32(|payload|) + Fixed32(|raw|) + [used]
  }

  function Seal(c: Codec, raw: bytes): (b: bytes)
    ensures |b| == BLOCK_HEADER + |Stored(c, raw).0|
  {
    Header(c, raw) + Stored(c, raw).0
  }

  function Decompress(c: Codec, typ: byte, payload: bytes, size: nat): Option<bytes> {
    if typ == 0 then Some(payload) else c.decompress(typ, payload, size)
  }

  /** `readBlock` without a cache. */
  function Unseal(c: Codec, file: bytes, offset: nat, size: nat): Option<bytes> {
    if size < BLOCK_HEADER || offset + BLOCK_HEADER > |file| then None
    else
      var h := file[offset..offset + BLOCK_HEADER];
      var n := DecodeLE(h[4..8]);
      if n == 0 then Some([])
      else if offset + BLOCK_HEADER + n > |file| then None
      else
        var payload := file[offset + BLOCK_HEADER..offset + BLOCK_HEADER + n];
        if Checksum(payload) != DecodeLE(h[..4]) then None
        else Decompress(c, h[12], payload, DecodeLE(h[8..12]))
  }

  lemma HeaderFields(c: Codec, raw: bytes)
    requires |raw| < U32
    ensures var h := Header(c, raw);
            var (payload, used) := Stored(c, raw);
            DecodeLE(h[..4]) == Checksum(payload) && DecodeLE(h[4..8]) == |payload| &&
            DecodeLE(h[8..12]) == |raw| && h[12] == used
  {
    hide Checksum, Fixed32, DecodeLE;
    var h := Header(c, raw);
    var (payload, used) := Stored(c, raw);
    Fixed32RoundTrip(Checksum(payload));
    Fixed32RoundTrip(|payload|);
    Fixed32RoundTrip(|raw|);
    assert h[..4] == Fixed32(Checksum(payload));
    assert h[4..8] == Fixed32(|payload|);
    assert h[8..12] == Fixed32(|raw|);
  }

  lemma StoredRestores(c: Codec, raw: bytes)
    requires Inverse(c) && raw != []
    ensures var (payload, used) := Stored(c, raw);
            payload != [] && |payload| <= |raw| && Decompress(c, used, payload, |raw|) == Some(raw)
  {
  }

  /** A sealed block reads back as the raw block, wherever it lies in the file. */
  lemma UnsealSealed(c: Codec, raw: bytes, before: bytes, after: bytes)
    requires Inverse(c) && raw != [] && |raw| < U32
    ensures Unseal(c, before + Seal(c, raw) + after, |before|, |Seal(c, raw)|) == Some(raw)
  {
    hide Checksum, DecodeLE, Header, Stored, Decompress, Inverse;
    var file, off := before + Seal(c, raw) + after, |before|;
    var payload := Stored(c, raw).0;
    assert file[off..off + BLOCK_HEADER] == Header(c, raw);
    HeaderFields(c, raw);
    assert file[off + BLOCK_HEADER..off + BLOCK_HEADER + |payload|] == payload;
    StoredRestores(c, raw);
  }

  // ---- The index ----

  datatype IndexEntry = IndexEntry(lastKey: bytes, offset: nat, size: nat)

  function EncodeIndexEntry(e: IndexEntry): (b: bytes)
    ensures |b| > 0
  {
    EncodeVarint(|e.lastKey|) + e.lastKey + Fixed64(e.offset) + Fixed64(e.size)
  }

  function EncodeIndex(es: seq<IndexEntry>): bytes {
    if |es| == 0 then [] else EncodeIndexEntry(es[0]) + EncodeIndex(es[1..])
  }

  /** The entry at the front of index data; None where the parser stops or would overrun. */
  function DecodeIndexEntry(d: bytes): (r: Option<(IndexEntry, nat)>)
    ensures r.Some? ==> 0 < r.value.1 <= |d|
  {
    match DecodeVarint(d)
    case None => None
    case Some((n, used)) =>
      if used + n + 16 > |d| then None
      else Some((IndexEntry(d[used..used + n], DecodeLE(d[used + n..used + n + 8]),
                            DecodeLE(d[used + n + 8..used + n + 16])),
                 used + n + 16))
  }

  /** The parse loop of `open`. */
  function ParseIndex(d: bytes): seq<IndexEntry>
    decreases |d|
  {
    if |d| == 0 then []
    else
      match DecodeIndexEntry(d)
      case None => []
      case Some((e, n)) => [e] + ParseIndex(d[n..])
  }

  predicate Representable(e: IndexEntry) {
    |e.lastKey| < U32 && e.offset < U64 && e.size < U64
  }

  lemma DecodeEncodeIndexEntry(e: IndexEntry, rest: bytes)
    requires Representable(e)
    ensures DecodeIndexEntry(EncodeIndexEntry(e) + rest) == Some((e, |EncodeIndexEntry(e)|))
  {
    hide EncodeVarint, DecodeVarint, Fixed64, DecodeLE;
    var d := EncodeIndexEntry(e) + rest;
    var v, n := EncodeVarint(|e.lastKey|), |e.lastKey|;
    assert d == v + (e.lastKey + Fixed64(e.offset) + Fixed64(e.size) + rest);
    VarintRoundTrip(n, e.lastKey + Fixed64(e.offset) + Fixed64(e.size) + rest);
    Fixed64RoundTrip(e.offset);
    Fixed64RoundTrip(e.size);
    assert d[|v|..|v| + n] == e.lastKey;
    assert d[|v| + n..|v| + n + 8] == Fixed64(e.offset);
    assert d[|v| + n + 8..|v| + n + 16] == Fixed64(e.size);
  }

  lemma {:induction false} ParseEncodedIndex(es: seq<IndexEntry>)
    requires forall i :: 0 <= i < |es| ==> Representable(es[i])
    ensures ParseIndex(EncodeIndex(es)) == es
  {
    hide EncodeIndexEntry, DecodeIndexEntry, Representable;
    if |es| > 0 {
      var first, rest := EncodeIndexEntry(es[0]), EncodeIndex(es[1..]);
      DecodeEncodeIndexEntry(es[0], rest);
      assert (first + rest)[|first|..] == rest;
      ParseEncodedIndex(es[1..]);
      assert es == [es[0]] + es[1..];
    }
  }

  // ---- The file ----

  function Zeros(n: nat): (b: bytes)
    ensures |b| == n
  {
    seq(n, _ => 0)
  }

  function Footer(indexOffset: nat, indexLength: nat): (f: bytes)
    ensures |f| == FOOTER
  {
    Fixed64(indexOffset) + Fixed64(indexLength + 8) + [VERSION] + Zeros(23) + Fixed64(MAGIC)
  }

  function IndexBlock(index: bytes): (b: bytes)
    ensures |b| == 8 + |index|
  {
    Fixed32(Checksum(index)) + Fixed32(|index|) + index
  }

  function TableFile(data: bytes, index: bytes): bytes {
    data + IndexBlock(index) + Footer(|data|, |index|)
  }

  /** `open`: the parsed index, or None if the file is not a table. */
  function Open(file: bytes): Option<seq<IndexEntry>> {
    if |file| < FOOTER then None
    else
      var f := file[|file| - FOOTER..];
      if DecodeLE(f[40..48]) != MAGIC || f[16] > VERSION then None
      else
        var at := DecodeLE(f[..8]);
        if at + 8 > |file| then None
        else
          var n := DecodeLE(file[at + 4..at + 8]);
          if at + 8 + n > |file| then None else Some(ParseIndex(file[at + 8..at + 8 + n]))
  }

  /** The index-parse loop of `open`. */
  method ReadIndex(data: bytes) returns (entries: seq<IndexEntry>)
    ensures entries == ParseIndex(data)
  {
    hide DecodeIndexEntry, ParseIndex;
    entries := [];
    var offset := 0;
    assert data[0..] == data;
    while offset < |data|
      invariant 0 <= offset <= |data|
      invariant entries + ParseIndex(data[offset..]) == ParseIndex(data)
      decreases |data| - offset
    {
      ParseNext(data[offset..]);
      match DecodeIndexEntry(data[offset..])
      case None =>
        return entries;
      case Some((e, n)) =>
        assert data[offset..][n..] == data[offset + n..];
        entries, offset := entries + [e], offset + n;
    }
    ParseNext(data[offset..]);
  }

  lemma ParseNext(d: bytes)
    ensures |d| == 0 ==> ParseIndex(d) == []
    ensures |d| > 0 && DecodeIndexEntry(d).None? ==> ParseIndex(d) == []
    ensures |d| > 0 && DecodeIndexEntry(d).Some? ==>
              ParseIndex(d) == [DecodeIndexEntry(d).value.0] + ParseIndex(d[DecodeIndexEntry(d).value.1..])
  {
    hide DecodeIndexEntry;
  }

  /** `open`, up to the bloom filter: footer checks, then the index block. */
  method OpenTable(file: bytes) returns (index: Option<seq<IndexEntry>>)
    ensures index == Open(file)
  {
    hide DecodeLE, ParseIndex;
    if |file| < FOOTER { return None; }
    var footer := file[|file| - FOOTER..];
    if DecodeLE(footer[40..48]) != MAGIC { return None; }
    if footer[16] > VERSION { return None; }
    var at := DecodeLE(footer[..8]);
    if at + 8 > |file| { return None; }
    var n := DecodeLE(file[at + 4..at + 8]);
    if at + 8 + n > |file| { return None; }
    var entries := ReadIndex(file[at + 8..at + 8 + n]);
    return Some(entries);
  }

  lemma FooterFields(at: nat, len: nat)
    requires at < U64
    ensures var f := Footer(at, len);
            DecodeLE(f[..8]) == at && f[16] == VERSION && DecodeLE(f[40..48]) == MAGIC
  {
    hide Fixed64, DecodeLE;
    var f := Footer(at, len);
    Fixed64RoundTrip(at);
    Fixed64RoundTrip(MAGIC);
    assert f[..8] == Fixed64(at);
    assert f[40..48] == Fixed64(MAGIC);
  }

  lemma TableFileParts(data: bytes, index: bytes)
    ensures var file, at := TableFile(data, index), |data|;
            && |file| == at + 8 + |index| + FOOTER
            && file[|file| - FOOTER..] == Footer(at, |index|)
            && file[at + 4..at + 8] == Fixed32(|index|)
            && file[at + 8..at + 8 + |index|] == index
  {
    hide Fixed32, Checksum, Footer;
    var file, at := TableFile(data, index), |data|;
    assert file[at + 4..at + 8] == Fixed32(|index|);
    assert file[at + 8..at + 8 + |index|] == index;
    assert file[|file| - FOOTER..] == Footer(at, |index|);
  }

  /** Opening a finished file finds its index. */
  lemma OpenFile(data: bytes, es: seq<IndexEntry>)
    requires |data| < U64 && |EncodeIndex(es)| < U32
    requires forall i :: 0 <= i < |es| ==> Representable(es[i])
    ensures Open(TableFile(data, EncodeIndex(es))) == Some(es)
  {
    hide Fixed32, DecodeLE, Checksum, EncodeIndex, ParseIndex, Footer;
    var index, at := EncodeIndex(es), |data|;
    var file := TableFile(data, index);
    TableFileParts(data, index);
    FooterFields(at, |index|);
    Fixed32RoundTrip(|index|);
    ParseEncodedIndex(es);
  }

  // ---- Blocks and their index entries ----

  function SealAll(c: Codec, raws: seq<bytes>): bytes {
    if |raws| == 0 then [] else SealAll(c, raws[..|raws| - 1]) + Seal(c, raws[|raws| - 1])
  }

  /** The index the builder writes: last key, offset and total size of each block. */
  function IndexOf(c: Codec, raws: seq<bytes>, lastKeys: seq<bytes>): (r: seq<IndexEntry>)
    requires |raws| == |lastKeys|
    ensures |r| == |raws|
  {
    if |raws| == 0 then []
    else
      var n := |raws| - 1;
      IndexOf(c, raws[..n], lastKeys[..n]) + [IndexEntry(lastKeys[n], |SealAll(c, raws[..n])|, |Seal(c, raws[n])|)]
  }

  lemma {:induction false} IndexEntryAt(c: Codec, raws: seq<bytes>, lastKeys: seq<bytes>, i: nat)
    requires |raws| == |lastKeys| && i < |raws|
    ensures IndexOf(c, raws, lastKeys)[i] == IndexEntry(lastKeys[i], |SealAll(c, raws[..i])|, |Seal(c, raws[i])|)
    decreases |raws|
  {
    hide Seal, SealAll;
    var n := |raws| - 1;
    if i < n {
      IndexEntryAt(c, raws[..n], lastKeys[..n], i);
      assert raws[..n][..i] == raws[..i];
    }
  }

  /** Each block lies where its index entry says. */
  lemma {:induction false} SealedAt(c: Codec, raws: seq<bytes>, i: nat) returns (after: bytes)
    requires i < |raws|
    ensures SealAll(c, raws) == SealAll(c, raws[..i]) + Seal(c, raws[i]) + after
    decreases |raws|
  {
    hide Seal;
    var n := |raws| - 1;
    if i < n {
      var a := SealedAt(c, raws[..n], i);
      assert raws[..n][..i] == raws[..i];
      after := a + Seal(c, raws[n]);
    } else {
      after := [];
    }
  }

  lemma {:induction false} SealAllLonger(c: Codec, raws: seq<bytes>, i: nat)
    requires i < |raws|
    ensures |SealAll(c, raws[..i])| + |Seal(c, raws[i])| <= |SealAll(c, raws)|
  {
    hide Seal, SealAll;
    var after := SealedAt(c, raws, i);
  }

  lemma {:induction false} IndexKeyFits(es: seq<IndexEntry>, i: nat)
    requires i < |es|
    ensures |es[i].lastKey| <= |EncodeIndex(es)|
  {
    if i > 0 { IndexKeyFits(es[1..], i - 1); }
  }

  /** The index the builder writes is representable when the file is. */
  lemma IndexRepresentable(c: Codec, raws: seq<bytes>, lastKeys: seq<bytes>)
    requires |raws| == |lastKeys|
    requires |SealAll(c, raws)| < U64 && |EncodeIndex(IndexOf(c, raws, lastKeys))| < U32
    ensures forall i :: 0 <= i < |raws| ==> Representable(IndexOf(c, raws, lastKeys)[i])
  {
    hide Seal, SealAll, IndexOf, EncodeIndex;
    forall i | 0 <= i < |raws|
      ensures Representable(IndexOf(c, raws, lastKeys)[i])
    {
      IndexEntryAt(c, raws, lastKeys, i);
      SealAllLonger(c, raws, i);
      IndexKeyFits(IndexOf(c, raws, lastKeys), i);
    }
  }

  /** Reading through the i-th index entry yields the i-th raw block. */
  lemma ReadThroughIndex(c: Codec, raws: seq<bytes>, lastKeys: seq<bytes>, index: bytes, i: nat)
    requires Inverse(c) && |raws| == |lastKeys| && i < |raws|
    requires raws[i] != [] && |raws[i]| < U32
    ensures var e := IndexOf(c, raws, lastKeys)[i];
            Unseal(c, TableFile(SealAll(c, raws), index), e.offset, e.size) == Some(raws[i])
  {
    hide Seal, SealAll, IndexOf, Unseal, IndexBlock, Footer, Inverse;
    IndexEntryAt(c, raws, lastKeys, i);
    var after := SealedAt(c, raws, i);
    var before := SealAll(c, raws[..i]);
    var data := SealAll(c, raws);
    var tail := IndexBlock(index) + Footer(|data|, |index|);
    assert TableFile(data, index) == before + Seal(c, raws[i]) + (after + tail);
    UnsealSealed(c, raws[i], before, after + tail);
  }
}
