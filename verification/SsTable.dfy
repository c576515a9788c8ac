/**
 Building a table file entry by entry and looking user keys up in it
 (`minikv/src/core/sstable_builder.cpp`, `minikv/src/core/sstable_reader.cpp`).
 */
module SsTable {
  import opened Bytes
  import opened Coding
  import opened Crc32c
  import opened InternalKey
  import opened Entries
  import opened Lookup
  import opened Block
  import opened Bloom
  import opened BlockCache
  import opened TableLookup
  import opened TableFormat

  // ---- What the builder writes for blocks of entries ----

  function Raws(blocks: seq<seq<Entry>>, rs: seq<seq<nat>>): (r: seq<bytes>)
    requires |blocks| == |rs|
    ensures |r| == |blocks|
    ensures forall i :: 0 <= i < |blocks| ==> r[i] == EncodeBlock(blocks[i], rs[i])
  {
    seq(|blocks|, i requires 0 <= i < |blocks| => EncodeBlock(blocks[i], rs[i]))
  }

  function LastKeys(blocks: seq<seq<Entry>>): (r: seq<bytes>)
    requires NonEmpty(blocks)
    ensures |r| == |blocks|
    ensures forall i :: 0 <= i < |blocks| ==> r[i] == blocks[i][|blocks[i]| - 1].key
  {
    seq(|blocks|, i requires 0 <= i < |blocks| => blocks[i][|blocks[i]| - 1].key)
  }

  function UserKeys(es: seq<Entry>): (r: seq<bytes>)
    ensures |r| == |es|
  {
    seq(|es|, i requires 0 <= i < |es| => UserKey(es[i].key))
  }

  function Index(c: Codec, blocks: seq<seq<Entry>>, rs: seq<seq<nat>>): (r: seq<IndexEntry>)
    requires NonEmpty(blocks) && |blocks| == |rs|
    ensures |r| == |blocks|
  {
    IndexOf(c, Raws(blocks, rs), LastKeys(blocks))
  }

  function File(c: Codec, blocks: seq<seq<Entry>>, rs: seq<seq<nat>>): bytes
    requires NonEmpty(blocks) && |blocks| == |rs|
  {
    TableFile(SealAll(c, Raws(blocks, rs)), EncodeIndex(Index(c, blocks, rs)))
  }

  /** Sizes that the format's 32- and 64-bit fields can hold. */
  predicate WithinLimits(c: Codec, blocks: seq<seq<Entry>>, rs: seq<seq<nat>>)
    requires NonEmpty(blocks) && |blocks| == |rs|
  {
    && (forall i :: 0 <= i < |blocks| ==> |EncodeBlock(blocks[i], rs[i])| < U32)
    && |SealAll(c, Raws(blocks, rs))| < U64 && |EncodeIndex(Index(c, blocks, rs))| < U32
  }

  // ---- Lookup ----

  /** `std::lower_bound` over the index: the first entry whose last user key is not below `k`. */
  predicate LowerBound(index: seq<IndexEntry>, k: bytes, i: nat) {
    && i <= |index|
    && (forall j :: 0 <= j < i ==> Compare(UserKey(index[j].lastKey), k) < 0)
    && (i < |index| ==> Compare(UserKey(index[i].lastKey), k) >= 0)
  }

  lemma IndexKeys(c: Codec, blocks: seq<seq<Entry>>, rs: seq<seq<nat>>, i: nat)
    requires NonEmpty(blocks) && |blocks| == |rs| && i < |blocks|
    ensures UserKey(Index(c, blocks, rs)[i].lastKey) == LastUserKey(blocks[i])
  {
    hide IndexOf, UserKey, EncodeBlock;
    IndexEntryAt(c, Raws(blocks, rs), LastKeys(blocks), i);
  }

  lemma LowerBoundIsCandidate(c: Codec, blocks: seq<seq<Entry>>, rs: seq<seq<nat>>, k: bytes, i: nat)
    requires NonEmpty(blocks) && |blocks| == |rs| && LowerBound(Index(c, blocks, rs), k, i)
    ensures Candidate(blocks, k, i)
  {
    hide Index, UserKey, LastUserKey, Compare;
    forall j | 0 <= j < |blocks|
      ensures UserKey(Index(c, blocks, rs)[j].lastKey) == LastUserKey(blocks[j])
    {
      IndexKeys(c, blocks, rs, j);
    }
  }

  /** `SSTableReader::get` over an opened index: lower bound `i`, one block read, one scan. */
  function GetAt(c: Codec, file: bytes, index: seq<IndexEntry>, i: nat, k: bytes): Option<bytes> {
    if i >= |index| then None
    else
      match Unseal(c, file, index[i].offset, index[i].size)
      case None => None
      case Some(block) => Scan(Read(block), k)
  }

  /**
   For entries in strictly ascending internal-key order, cut into blocks in any way: opening the file the
   builder writes, searching its index and scanning the one block found equals a flat search of all entries.
   */
  lemma TableRefinesFlatList(c: Codec, blocks: seq<seq<Entry>>, rs: seq<seq<nat>>, k: bytes, i: nat)
    requires Inverse(c) && NonEmpty(blocks) && |blocks| == |rs| && Sorted(Flatten(blocks))
    requires WithinLimits(c, blocks, rs)
    requires LowerBound(Index(c, blocks, rs), k, i)
    ensures Open(File(c, blocks, rs)) == Some(Index(c, blocks, rs))
    ensures GetAt(c, File(c, blocks, rs), Index(c, blocks, rs), i, k) == Find(Flatten(blocks), k)
  {
    hide Sorted, Find, Scan, Flatten, SealAll, IndexOf, EncodeIndex, Inverse, Unseal, Read, EncodeBlock, Candidate,
         Open;
    var raws := Raws(blocks, rs);
    IndexRepresentable(c, raws, LastKeys(blocks));
    OpenFile(SealAll(c, raws), Index(c, blocks, rs));
    LowerBoundIsCandidate(c, blocks, rs, k, i);
    OneBlockSuffices(blocks, k, i);
    if i < |blocks| {
      BlockNonEmpty(blocks[i], rs[i]);
      ReadThroughIndex(c, raws, LastKeys(blocks), EncodeIndex(Index(c, blocks, rs)), i);
      RoundTrip(blocks[i], rs[i]);
    }
  }

  lemma BlockNonEmpty(es: seq<Entry>, rs: seq<nat>)
    ensures EncodeBlock(es, rs) != []
  {
  }

  /** A filter that was given every user key never turns a present key away. */
  lemma FilterAdmits(h: Hashes, zero: seq<bv8>, n: nat, es: seq<Entry>, k: bytes)
    requires |zero| > 0 && FirstWith(es, k).Some?
    ensures HasProbes(h, AddAll(h, zero, UserKeys(es), n), k, n)
  {
    hide AddAll, HasProbes, UserKey;
    var e := FirstWith(es, k).value;
    var i :| 0 <= i < |es| && es[i] == e;
    assert UserKeys(es)[i] == k;
    NoFalseNegative(h, zero, UserKeys(es), n, k);
  }

  // ---- The builder ----

  lemma RawsSnoc(blocks: seq<seq<Entry>>, rs: seq<seq<nat>>, b: seq<Entry>, r: seq<nat>)
    requires |blocks| == |rs|
    ensures Raws(blocks + [b], rs + [r]) == Raws(blocks, rs) + [EncodeBlock(b, r)]
  {
    hide EncodeBlock;
  }

  lemma SealSnoc(c: Codec, raws: seq<bytes>, raw: bytes)
    ensures SealAll(c, raws + [raw]) == SealAll(c, raws) + Seal(c, raw)
  {
    hide Seal;
    assert (raws + [raw])[..|raws|] == raws;
  }

  lemma IndexSnoc(c: Codec, blocks: seq<seq<Entry>>, rs: seq<seq<nat>>, b: seq<Entry>, r: seq<nat>)
    requires NonEmpty(blocks) && |blocks| == |rs| && |b| > 0
    ensures NonEmpty(blocks + [b])
    ensures Index(c, blocks + [b], rs + [r]) == Index(c, blocks, rs) +
            [IndexEntry(b[|b| - 1].key, |SealAll(c, Raws(blocks, rs))|, |Seal(c, EncodeBlock(b, r))|)]
  {
    hide Seal, SealAll, EncodeBlock;
    RawsSnoc(blocks, rs, b, r);
    var keys := LastKeys(blocks + [b]);
    assert keys == LastKeys(blocks) + [b[|b| - 1].key];
    IndexOfSnoc(c, Raws(blocks, rs), LastKeys(blocks), EncodeBlock(b, r), b[|b| - 1].key);
  }

  lemma IndexOfSnoc(c: Codec, raws: seq<bytes>, keys: seq<bytes>, raw: bytes, key: bytes)
    requires |raws| == |keys|
    ensures IndexOf(c, raws + [raw], keys + [key])
         == IndexOf(c, raws, keys) + [IndexEntry(key, |SealAll(c, raws)|, |Seal(c, raw)|)]
  {
    hide Seal, SealAll;
    assert (raws + [raw])[..|raws|] == raws && (keys + [key])[..|keys|] == keys;
  }

  lemma {:induction false} EncodeIndexSnoc(es: seq<IndexEntry>, e: IndexEntry)
    ensures EncodeIndex(es + [e]) == EncodeIndex(es) + EncodeIndexEntry(e)
  {
    hide EncodeIndexEntry;
    if |es| == 0 {
      assert (es + [e])[1..] == [];
    } else {
      assert (es + [e])[1..] == es[1..] + [e];
      EncodeIndexSnoc(es[1..], e);
    }
  }

  lemma FlattenSnoc(blocks: seq<seq<Entry>>, b: seq<Entry>)
    ensures Flatten(blocks + [b]) == Flatten(blocks) + b
  {
    FlattenConcat(blocks, [b]);
    assert [b][1..] == [] && Flatten([b]) == b + [];
  }

  lemma FilterSnoc(h: Hashes, zero: seq<bv8>, es: seq<Entry>, e: Entry, n: nat)
    requires |zero| > 0
    ensures AddAll(h, zero, UserKeys(es + [e]), n) == AddProbes(h, AddAll(h, zero, UserKeys(es), n), UserKey(e.key), n)
  {
    hide AddProbes, UserKey;
    var keys := UserKeys(es + [e]);
    assert keys[..|keys| - 1] == UserKeys(es) && keys[|keys| - 1] == UserKey(e.key);
  }

  /** What has reached the file: the sealed blocks so far and the index collected for them. */
  ghost predicate Written(c: Codec, content: bytes, index: bytes, blocks: seq<seq<Entry>>, rs: seq<seq<nat>>) {
    && NonEmpty(blocks) && |blocks| == |rs|
    && content == SealAll(c, Raws(blocks, rs)) && index == EncodeIndex(Index(c, blocks, rs))
  }

  lemma WrittenSnoc(c: Codec, content: bytes, index: bytes, blocks: seq<seq<Entry>>, rs: seq<seq<nat>>,
                    b: seq<Entry>, r: seq<nat>)
    requires Written(c, content, index, blocks, rs) && |b| > 0
    ensures var sealed := Seal(c, EncodeBlock(b, r));
            Written(c, content + sealed, index + EncodeIndexEntry(IndexEntry(b[|b| - 1].key, |content|, |sealed|)),
                    blocks + [b], rs + [r])
  {
    hide Seal, SealAll, EncodeBlock, EncodeIndex, EncodeIndexEntry, Index;
    RawsSnoc(blocks, rs, b, r);
    SealSnoc(c, Raws(blocks, rs), EncodeBlock(b, r));
    IndexSnoc(c, blocks, rs, b, r);
    EncodeIndexSnoc(Index(c, blocks, rs), IndexEntry(b[|b| - 1].key, |content|, |Seal(c, EncodeBlock(b, r))|));
  }

  class SSTableBuilder {
    const codec: Codec
    const blockSize: nat
    const hashes: Hashes
    const bloom: BloomFilter
    var content: bytes
    var dataBlock: BlockBuilder
    var indexBlock: bytes
    var lastKey: bytes
    ghost var blocks: seq<seq<Entry>>
    ghost var restarts: seq<seq<nat>>
    ghost var added: seq<Entry>

    ghost predicate Valid()
      reads this, dataBlock, bloom, bloom.bits
    {
      && dataBlock.Building() && bloom.Valid()
      && Written(codec, content, indexBlock, blocks, restarts)
      && added == Flatten(blocks) + dataBlock.entries
      && (dataBlock.entries != [] ==> lastKey == LastOf(dataBlock.entries))
      && bloom.bits[..] == AddAll(hashes, seq(bloom.bits.Length, _ => 0 as bv8), UserKeys(added), bloom.numHashes)
    }

    constructor (codec: Codec, blockSize: nat, hashes: Hashes, numHashes: nat, bitsPerKey: nat, bloomBytes: nat)
      requires 0 < bloomBytes && bloomBytes * 8 < U32
      ensures Valid() && added == [] && this.codec == codec && this.blockSize == blockSize && this.hashes == hashes
      ensures fresh(dataBlock) && fresh(bloom) && fresh(bloom.bits)
      ensures bloom.numHashes == numHashes && bloom.bitsPerKey == bitsPerKey
    {
      this.codec, this.blockSize, this.hashes := codec, blockSize, hashes;
      bloom := new BloomFilter(numHashes, bitsPerKey, bloomBytes);
      dataBlock := new BlockBuilder();
      content, indexBlock, lastKey, blocks, restarts, added := [], [], [], [], [], [];
    }

    /** `add`: the block is cut as soon as it reaches the block size. */
    method Add(internalKey: bytes, userKey: bytes, value: bytes)
      requires Valid() && userKey == UserKey(internalKey)
      modifies this, dataBlock, bloom.bits
      ensures Valid() && added == old(added) + [Entry(internalKey, value)]
      ensures dataBlock == old(dataBlock) || fresh(dataBlock)
    {
      hide AddAll, AddProbes, BlockBuilder.Building, Written, LastOf, UserKeys, UserKey, Flatten;
      ghost var e := Entry(internalKey, value);
      FilterSnoc(hashes, seq(bloom.bits.Length, _ => 0 as bv8), added, e, bloom.numHashes);
      dataBlock.Add(internalKey, value);
      bloom.Add(hashes, userKey);
      lastKey := internalKey;
      added := added + [e];
      LastAdded(dataBlock.entries);
      assert added == Flatten(blocks) + dataBlock.entries;
      if |dataBlock.buffer| >= blockSize { FlushDataBlock(); }
    }

    /** `flushDataBlock`: seals the block and records its index entry. */
    method FlushDataBlock()
      requires Valid()
      modifies `content, `indexBlock, `dataBlock, `blocks, `restarts, dataBlock
      ensures Valid() && dataBlock.entries == []
      ensures dataBlock == old(dataBlock) || fresh(dataBlock)
      ensures blocks == old(blocks) + (if old(dataBlock.entries) == [] then [] else [old(dataBlock.entries)])
    {
      hide AddAll, Written, UserKeys, Flatten, Seal, EncodeIndexEntry, EncodeBlock, EncodeAll, RestartsOf;
      EmptyBuffer(dataBlock.entries);
      if dataBlock.buffer == [] { return; }
      ghost var b, r := dataBlock.entries, dataBlock.restarts;
      WrittenSnoc(codec, content, indexBlock, blocks, restarts, b, r);
      FlattenSnoc(blocks, b);
      LastAdded(b);
      var raw := dataBlock.Finish();
      WriteBlock(raw);
      blocks, restarts := blocks + [b], restarts + [r];
      dataBlock := new BlockBuilder();
    }

    /** Header, payload and index entry of one block. */
    method WriteBlock(raw: bytes)
      modifies `content, `indexBlock
      ensures content == old(content) + Seal(codec, raw)
      ensures indexBlock == old(indexBlock) + EncodeIndexEntry(IndexEntry(lastKey, |old(content)|, |Seal(codec, raw)|))
    {
      hide Stored, Header, EncodeIndexEntry;
      var payload := Stored(codec, raw).0;
      var blockOffset := |content|;
      content := content + Header(codec, raw);
      content := content + payload;
      indexBlock := indexBlock + EncodeIndexEntry(IndexEntry(lastKey, blockOffset, BLOCK_HEADER + |payload|));
    }

    /** `finish`: the last block, the index block and the footer. */
    method Finish()
      requires Valid()
      modifies `content, `indexBlock, `dataBlock, `blocks, `restarts, dataBlock
      ensures NonEmpty(blocks) && |blocks| == |restarts|
      ensures content == File(codec, blocks, restarts) && Flatten(blocks) == added == old(added)
      ensures bloom.bits[..] == AddAll(hashes, seq(bloom.bits.Length, _ => 0 as bv8), UserKeys(added), bloom.numHashes)
    {
      hide AddAll, UserKeys, Flatten, Index, SealAll, EncodeIndex, IndexBlock, Footer;
      FlushDataBlock();
      var indexOffset := |content|;
      content := content + IndexBlock(indexBlock);
      content := content + Footer(indexOffset, |indexBlock|);
    }
  }

  lemma LastAdded(es: seq<Entry>)
    requires |es| > 0
    ensures LastOf(es) == es[|es| - 1].key
  {
  }

  lemma EmptyBuffer(es: seq<Entry>)
    ensures EncodeAll(es, [], 0) == [] <==> es == []
  {
    if es != [] { EntryNonEmpty(SharedLength([], 0, es[0].key), es[0]); }
  }

  // ---- The reader ----

  predicate Below(e: IndexEntry, k: bytes) {
    Compare(UserKey(e.lastKey), k) < 0
  }

  /** `std::lower_bound` needs the entries below `k` to come first. */
  ghost predicate Partitioned(index: seq<IndexEntry>, k: bytes) {
    forall i, j :: 0 <= i < j < |index| && Below(index[j], k) ==> Below(index[i], k)
  }

  method SearchIndex(index: seq<IndexEntry>, k: bytes) returns (i: nat)
    requires Partitioned(index, k)
    ensures i <= |index| && LowerBound(index, k, i)
  {
    hide Compare, UserKey;
    var lo, hi := 0, |index|;
    while lo < hi
      invariant 0 <= lo <= hi <= |index|
      invariant forall j :: 0 <= j < lo ==> Below(index[j], k)
      invariant forall j :: hi <= j < |index| ==> !Below(index[j], k)
    {
      var mid := (lo + hi) / 2;
      if Below(index[mid], k) { lo := mid + 1; } else { hi := mid; }
    }
    i := lo;
    assert forall j :: 0 <= j < i ==> Below(index[j], k);
    assert i < |index| ==> !Below(index[i], k);
  }

  /** Cached blocks are what an uncached read of their (immutable) file would return. */
  ghost predicate Sound(c: Codec, disk: map<bytes, bytes>, list: seq<Item>) {
    forall x :: x in list ==>
      x.key.path in disk && Unseal(c, disk[x.key.path], x.key.offset, BLOCK_HEADER) == Some(x.data)
  }

  lemma UnsealIgnoresSize(c: Codec, file: bytes, offset: nat, size: nat)
    requires size >= BLOCK_HEADER
    ensures Unseal(c, file, offset, size) == Unseal(c, file, offset, BLOCK_HEADER)
  {
    hide Decompress, Checksum;
  }

  lemma SoundFitting(c: Codec, disk: map<bytes, bytes>, list: seq<Item>, p: CacheKey -> bool, x: Item, capacity: nat)
    requires Sound(c, disk, list) && Distinct(list) && Measured(list)
    requires x.key.path in disk && Unseal(c, disk[x.key.path], x.key.offset, BLOCK_HEADER) == Some(x.data)
    ensures Sound(c, disk, Fitting([x] + Without(list, p), capacity))
    ensures Sound(c, disk, Without(list, p))
  {
    hide Unseal, Without, Fitting, Distinct, Measured;
    WithoutProperties(list, p);
    var all := [x] + Without(list, p);
    assert forall y :: y in Fitting(all, capacity) ==> y in all;
  }

  /** Invalidation drops items and adds none, so what is left is still what the disk holds. */
  lemma InvalidationKeepsSound(c: Codec, disk: map<bytes, bytes>, list: seq<Item>, path: bytes)
    requires Sound(c, disk, list) && Distinct(list) && Measured(list)
    ensures Sound(c, disk, Without(list, OnPath(path)))
    ensures forall x :: x in Without(list, OnPath(path)) ==> x.key.path != path
  {
    hide Unseal, Without, Distinct, Measured;
    WithoutProperties(list, OnPath(path));
  }

  /** `invalidatePath` under the readers' invariant; a file that is then rewritten or removed leaves the cache sound. */
  method Invalidate(c: Codec, cache: BlockCache, path: bytes, ghost disk: map<bytes, bytes>)
    requires cache.Valid() && Sound(c, disk, cache.list)
    modifies cache
    ensures cache.Valid() && Sound(c, disk, cache.list) && Sound(c, disk - {path}, cache.list)
  {
    hide Unseal, Without, Distinct, Measured, Indexes, Total;
    InvalidationKeepsSound(c, disk, cache.list, path);
    cache.InvalidatePath(path);
  }

  /** `readBlock`: with or without a cache, in any state of it, the caller sees the uncached read. */
  method ReadBlock(c: Codec, cache: BlockCache?, path: bytes, file: bytes, offset: nat, size: nat,
                   ghost disk: map<bytes, bytes>) returns (r: Option<bytes>)
    requires path in disk && disk[path] == file
    requires cache != null ==> cache.Valid() && Sound(c, disk, cache.list)
    modifies cache
    ensures r == Unseal(c, file, offset, size)
    ensures cache != null ==> cache.Valid() && Sound(c, disk, cache.list)
  {
    hide Unseal, BlockCache.Valid, Without, Fitting;
    UnsealSmall(c, file, offset, size);
    if size < BLOCK_HEADER { return None; }
    UnsealIgnoresSize(c, file, offset, size);
    ghost var before := if cache != null then cache.list else [];
    if cache != null {
      r := cache.Get(CacheKey(path, offset));
      if r.Some? {
        FrontSound(c, disk, before, cache.list, CacheKey(path, offset));
        return;
      }
    }
    r := Unseal(c, file, offset, size);
    if r.Some? && cache != null && !EmptyPayload(file, offset) {
      ListOk(cache);
      SoundFitting(c, disk, cache.list, IsKey(CacheKey(path, offset)),
                   Item(CacheKey(path, offset), r.value, |r.value|), cache.capacity);
      cache.Put(CacheKey(path, offset), r.value);
    }
  }

  /** A stored size of zero is answered without caching. */
  predicate EmptyPayload(file: bytes, offset: nat) {
    offset + BLOCK_HEADER <= |file| && DecodeLE(file[offset + 4..offset + 8]) == 0
  }

  lemma UnsealSmall(c: Codec, file: bytes, offset: nat, size: nat)
    ensures size < BLOCK_HEADER ==> Unseal(c, file, offset, size) == None
  {
    hide Decompress, Checksum;
  }

  lemma ListOk(cache: BlockCache)
    requires cache.Valid()
    ensures Distinct(cache.list) && Measured(cache.list)
  {
  }

  lemma FrontSound(c: Codec, disk: map<bytes, bytes>, before: seq<Item>, after: seq<Item>, key: CacheKey)
    requires Sound(c, disk, before) && |after| > 0 && after[0] in before && after[1..] == Without(before, IsKey(key))
    ensures Sound(c, disk, after)
  {
    hide Unseal;
    WithoutMembers(before, IsKey(key));
    assert after == [after[0]] + after[1..];
  }

  lemma {:induction false} WithoutMembers(list: seq<Item>, p: CacheKey -> bool)
    ensures forall x :: x in Without(list, p) ==> x in list
  {
    if |list| > 0 {
      WithoutMembers(list[1..], p);
      assert list == [list[0]] + list[1..];
    }
  }

  class SSTableReader {
    const codec: Codec
    const hashes: Hashes
    const path: bytes
    const file: bytes
    const index: seq<IndexEntry>
    const bloom: Option<Filter>

    /** What `open` leaves behind when it does not return null. */
    constructor (codec: Codec, hashes: Hashes, path: bytes, file: bytes, sidecar: Option<bytes>)
      requires Open(file).Some?
      ensures this.codec == codec && this.hashes == hashes && this.path == path && this.file == file
      ensures index == Open(file).value
      ensures bloom == if sidecar.None? then None else Load(sidecar.value)
    {
      this.codec, this.hashes, this.path, this.file := codec, hashes, path, file;
      var parsed := OpenTable(file);
      index := parsed.value;
      bloom := if sidecar.None? then None else Load(sidecar.value);
    }

    ghost predicate Admits(k: bytes) {
      bloom.Some? && |bloom.value.bits| > 0 ==> HasProbes(hashes, bloom.value.bits, k, bloom.value.numHashes)
    }

    method Get(k: bytes, cache: BlockCache?, ghost disk: map<bytes, bytes>) returns (r: Option<bytes>)
      requires path in disk && disk[path] == file && Partitioned(index, k)
      requires cache != null ==> cache.Valid() && Sound(codec, disk, cache.list)
      modifies cache
      ensures cache != null ==> cache.Valid() && Sound(codec, disk, cache.list)
      ensures !Admits(k) ==> r == None
      ensures Admits(k) ==> forall i :: LowerBound(index, k, i) ==> r == GetAt(codec, file, index, i, k)
    {
      hide Unseal, BlockCache.Valid, Sound, HasProbes, Scan, Read, LowerBound;
      if index == [] {
        EmptyIndex(codec, file, k);
        return None;
      }
      if bloom.Some? && |bloom.value.bits| > 0 && !HasProbes(hashes, bloom.value.bits, k, bloom.value.numHashes) {
        return None;
      }
      var i := SearchIndex(index, k);
      forall j | LowerBound(index, k, j)
        ensures j == i
      {
        LowerBoundUnique(index, k, i, j);
      }
      if i == |index| { return None; }
      var block := ReadBlock(codec, cache, path, file, index[i].offset, index[i].size, disk);
      if block.None? { return None; }
      r := GetByUserKey(block.value, k);
    }
  }

  lemma EmptyIndex(c: Codec, file: bytes, k: bytes)
    ensures forall i :: LowerBound([], k, i) ==> GetAt(c, file, [], i, k) == None
  {
  }

  lemma LowerBoundUnique(index: seq<IndexEntry>, k: bytes, i: nat, j: nat)
    requires LowerBound(index, k, i) && LowerBound(index, k, j)
    ensures i == j
  {
    hide Compare, UserKey;
  }

  // ---- From builder to reader ----

  /** Last user keys of a sorted table ascend, so its index is fit for binary search. */
  lemma IndexPartitioned(c: Codec, blocks: seq<seq<Entry>>, rs: seq<seq<nat>>, k: bytes)
    requires NonEmpty(blocks) && |blocks| == |rs| && Sorted(Flatten(blocks))
    ensures Partitioned(Index(c, blocks, rs), k)
  {
    hide Index, UserKey, Compare, Sorted, LastUserKey;
    var index := Index(c, blocks, rs);
    forall i, j | 0 <= i < j < |index| && Below(index[j], k)
      ensures Below(index[i], k)
    {
      IndexKeys(c, blocks, rs, i);
      IndexKeys(c, blocks, rs, j);
      LastsAscend(blocks, i, j);
      CompareTransitive(LastUserKey(blocks[i]), LastUserKey(blocks[j]), k);
    }
  }

  lemma {:induction false} LastsAscend(blocks: seq<seq<Entry>>, i: nat, j: nat)
    requires NonEmpty(blocks) && Sorted(Flatten(blocks)) && i < j < |blocks|
    ensures Compare(LastUserKey(blocks[i]), LastUserKey(blocks[j])) <= 0
    decreases i
  {
    hide UserKey, Compare, Sorted, Less;
    var first, rest := blocks[0], Flatten(blocks[1..]);
    SortedParts(first, rest);
    if i == 0 {
      var p := LastInFlat(blocks[1..], j - 1);
      KeysInternal(first, |first| - 1);
      KeysInternal(rest, p);
      LessUserKeys(first[|first| - 1].key, rest[p].key);
    } else {
      assert blocks[1..][i - 1] == blocks[i] && blocks[1..][j - 1] == blocks[j];
      LastsAscend(blocks[1..], i - 1, j - 1);
    }
  }

  lemma {:induction false} LastInFlat(blocks: seq<seq<Entry>>, i: nat) returns (p: nat)
    requires NonEmpty(blocks) && i < |blocks|
    ensures p < |Flatten(blocks)| && Flatten(blocks)[p] == blocks[i][|blocks[i]| - 1]
    decreases i
  {
    if i == 0 {
      p := |blocks[0]| - 1;
    } else {
      var q := LastInFlat(blocks[1..], i - 1);
      p := |blocks[0]| + q;
    }
  }

  lemma {:induction false} FirstNotBelow(index: seq<IndexEntry>, k: bytes) returns (i: nat)
    ensures i <= |index| && LowerBound(index, k, i)
  {
    hide Compare, UserKey;
    i := 0;
    while i < |index| && Below(index[i], k)
      invariant i <= |index| && forall j :: 0 <= j < i ==> Below(index[j], k)
    {
      i := i + 1;
    }
    assert forall j :: 0 <= j < i ==> Compare(UserKey(index[j].lastKey), k) < 0 by {
      assert forall j :: 0 <= j < i ==> Below(index[j], k);
    }
  }

  /** The filter the builder persists, or no filter when its sidecar file is missing. */
  ghost predicate FilterOf(bloom: Option<Filter>, h: Hashes, es: seq<Entry>) {
    bloom.Some? ==>
      exists zero: seq<bv8> :: |zero| > 0 && bloom.value.bits == AddAll(h, zero, UserKeys(es), bloom.value.numHashes)
  }

  lemma TurnedAway(bloom: Option<Filter>, h: Hashes, es: seq<Entry>, k: bytes)
    requires FilterOf(bloom, h, es) && bloom.Some?
    requires |bloom.value.bits| > 0 && !HasProbes(h, bloom.value.bits, k, bloom.value.numHashes)
    ensures Find(es, k) == None
  {
    hide AddAll, HasProbes, UserKeys;
    var zero: seq<bv8> :| |zero| > 0 && bloom.value.bits == AddAll(h, zero, UserKeys(es), bloom.value.numHashes);
    if FirstWith(es, k).Some? { FilterAdmits(h, zero, bloom.value.numHashes, es, k); }
  }

  /**
   End to end: filter, index search, cached block read and scan together answer every user key as a flat
   search of the entries that were added, whatever the block cut, the codec and the cache.
   */
  method LookUp(reader: SSTableReader, k: bytes, cache: BlockCache?, ghost disk: map<bytes, bytes>,
                ghost blocks: seq<seq<Entry>>, ghost rs: seq<seq<nat>>) returns (r: Option<bytes>)
    requires Inverse(reader.codec) && NonEmpty(blocks) && |blocks| == |rs| && Sorted(Flatten(blocks))
    requires WithinLimits(reader.codec, blocks, rs)
    requires reader.file == File(reader.codec, blocks, rs) && Some(reader.index) == Open(reader.file)
    requires FilterOf(reader.bloom, reader.hashes, Flatten(blocks))
    requires reader.path in disk && disk[reader.path] == reader.file
    requires cache != null ==> cache.Valid() && Sound(reader.codec, disk, cache.list)
    modifies cache
    ensures r == Find(Flatten(blocks), k)
    ensures cache != null ==> cache.Valid() && Sound(reader.codec, disk, cache.list)
  {
    hide Inverse, Sorted, Flatten, File, WithinLimits, Open, FilterOf, BlockCache.Valid, Sound, GetAt, Find,
         LowerBound, Index, Partitioned, HasProbes;
    OpensAs(reader.codec, blocks, rs);
    IndexPartitioned(reader.codec, blocks, rs, k);
    ghost var bloom := reader.bloom;
    if bloom.Some? && |bloom.value.bits| > 0 && !HasProbes(reader.hashes, bloom.value.bits, k, bloom.value.numHashes) {
      TurnedAway(bloom, reader.hashes, Flatten(blocks), k);
    }
    ghost var i := FirstNotBelow(reader.index, k);
    TableRefinesFlatList(reader.codec, blocks, rs, k, i);
    r := reader.Get(k, cache, disk);
  }

  lemma OpensAs(c: Codec, blocks: seq<seq<Entry>>, rs: seq<seq<nat>>)
    requires NonEmpty(blocks) && |blocks| == |rs| && WithinLimits(c, blocks, rs)
    ensures Open(File(c, blocks, rs)) == Some(Index(c, blocks, rs))
  {
    hide SealAll, IndexOf, EncodeIndex, EncodeBlock, Open;
    IndexRepresentable(c, Raws(blocks, rs), LastKeys(blocks));
    OpenFile(SealAll(c, Raws(blocks, rs)), Index(c, blocks, rs));
  }
}
