/** The per-table Bloom filter and its sidecar file (`minikv/src/core/bloom_filter.h`). */
module Bloom {
  import opened Bytes
  import opened Coding

  /** The two seeded hashes; only their 32-bit range matters. */
  datatype Hashes = Hashes(h1: bytes -> nat, h2: bytes -> nat)

  predicate Usable(bits: seq<bv8>) {
    0 < |bits| && |bits| * 8 < U32
  }

  /** `(h1 + i * h2) % bits` in 32-bit arithmetic. */
  function Position(h: Hashes, key: bytes, i: nat, nbits: nat): (p: nat)
    requires nbits > 0
    ensures p < nbits
  {
    (h.h1(key) + i * h.h2(key)) % U32 % nbits
  }

  function Mask(j: nat): bv8 {
    if j == 0 then 1 else if j == 1 then 2 else if j == 2 then 4 else if j == 3 then 8
    else if j == 4 then 16 else if j == 5 then 32 else if j == 6 then 64 else 128
  }

  predicate BitSet(bits: seq<bv8>, p: nat)
    requires p < |bits| * 8
  {
    bits[p / 8] & Mask(p % 8) != 0
  }

  function SetBit(bits: seq<bv8>, p: nat): (r: seq<bv8>)
    requires p < |bits| * 8
    ensures |r| == |bits|
  {
    bits[p / 8 := bits[p / 8] | Mask(p % 8)]
  }

  lemma OrKeeps(x: bv8, m: bv8, n: bv8)
    ensures x & n != 0 ==> (x | m) & n != 0
    ensures m != 0 ==> (x | m) & m != 0
  {
  }

  lemma MaskNonZero(j: nat)
    ensures Mask(j) != 0
  {
  }

  lemma SetBitSets(bits: seq<bv8>, p: nat, q: nat)
    requires p < |bits| * 8 && q < |bits| * 8
    ensures BitSet(SetBit(bits, p), p)
    ensures BitSet(bits, q) ==> BitSet(SetBit(bits, p), q)
  {
    hide Mask;
    MaskNonZero(p % 8);
    OrKeeps(bits[p / 8], Mask(p % 8), Mask(q % 8));
    OrKeeps(bits[p / 8], Mask(p % 8), Mask(p % 8));
  }

  /** The first `n` probes of `add`. */
  function AddProbes(h: Hashes, bits: seq<bv8>, key: bytes, n: nat): (r: seq<bv8>)
    requires |bits| > 0
    ensures |r| == |bits|
    decreases n
  {
    if n == 0 then bits
    else SetBit(AddProbes(h, bits, key, n - 1), Position(h, key, n - 1, |bits| * 8))
  }

  predicate HasProbes(h: Hashes, bits: seq<bv8>, key: bytes, n: nat)
    requires |bits| > 0
  {
    forall i :: 0 <= i < n ==> BitSet(bits, Position(h, key, i, |bits| * 8))
  }

  lemma {:induction false} AddedIsFound(h: Hashes, bits: seq<bv8>, key: bytes, n: nat)
    requires |bits| > 0
    ensures HasProbes(h, AddProbes(h, bits, key, n), key, n)
    decreases n
  {
    hide Position, SetBit, BitSet;
    if n > 0 {
      AddedIsFound(h, bits, key, n - 1);
      var b, p := AddProbes(h, bits, key, n - 1), Position(h, key, n - 1, |bits| * 8);
      forall i | 0 <= i < n
        ensures BitSet(SetBit(b, p), Position(h, key, i, |bits| * 8))
      {
        SetBitSets(b, p, Position(h, key, i, |bits| * 8));
      }
    }
  }

  /** Adding keys never hides another. */
  lemma {:induction false} AddedKeeps(h: Hashes, bits: seq<bv8>, key: bytes, n: nat, other: bytes, m: nat)
    requires |bits| > 0 && HasProbes(h, bits, other, m)
    ensures HasProbes(h, AddProbes(h, bits, key, n), other, m)
    decreases n
  {
    hide Position, SetBit, BitSet;
    if n > 0 {
      AddedKeeps(h, bits, key, n - 1, other, m);
      var b, p := AddProbes(h, bits, key, n - 1), Position(h, key, n - 1, |bits| * 8);
      forall i | 0 <= i < m
        ensures BitSet(SetBit(b, p), Position(h, other, i, |bits| * 8))
      {
        SetBitSets(b, p, Position(h, other, i, |bits| * 8));
      }
    }
  }

  /** All keys added so far. */
  function AddAll(h: Hashes, bits: seq<bv8>, keys: seq<bytes>, n: nat): (r: seq<bv8>)
    requires |bits| > 0
    ensures |r| == |bits|
  {
    if |keys| == 0 then bits
    else AddProbes(h, AddAll(h, bits, keys[..|keys| - 1], n), keys[|keys| - 1], n)
  }

  /** No false negatives: every key ever added is reported, in whatever order keys were added. */
  lemma {:induction false} NoFalseNegative(h: Hashes, bits: seq<bv8>, keys: seq<bytes>, n: nat, key: bytes)
    requires |bits| > 0 && key in keys
    ensures HasProbes(h, AddAll(h, bits, keys, n), key, n)
    decreases |keys|
  {
    hide Position, BitSet, HasProbes, AddProbes;
    var before, last := AddAll(h, bits, keys[..|keys| - 1], n), keys[|keys| - 1];
    if key == last {
      AddedIsFound(h, before, last, n);
    } else {
      assert key in keys[..|keys| - 1];
      NoFalseNegative(h, bits, keys[..|keys| - 1], n, key);
      AddedKeeps(h, before, last, n, key, n);
    }
  }

  // ---- The object ----

  class BloomFilter {
    const numHashes: nat
    const bitsPerKey: nat
    const bits: array<bv8>

    ghost predicate Valid()
      reads bits
    {
      Usable(bits[..])
    }

    constructor (numHashes: nat, bitsPerKey: nat, size: nat)
      requires 0 < size && size * 8 < U32
      ensures Valid() && bits[..] == seq(size, _ => 0 as bv8) && fresh(bits)
      ensures this.numHashes == numHashes && this.bitsPerKey == bitsPerKey
    {
      this.numHashes, this.bitsPerKey := numHashes, bitsPerKey;
      bits := new bv8[size](_ => 0 as bv8);
    }

    method Add(h: Hashes, key: bytes)
      requires Valid()
      modifies bits
      ensures Valid() && bits[..] == AddProbes(h, old(bits[..]), key, numHashes)
    {
      hide Mask, Position;
      ghost var start := bits[..];
      var nbits := bits.Length * 8;
      for i := 0 to numHashes
        invariant bits[..] == AddProbes(h, start, key, i)
      {
        var pos := Position(h, key, i, nbits);
        ghost var before := bits[..];
        bits[pos / 8] := bits[pos / 8] | Mask(pos % 8);
        assert bits[..] == SetBit(before, pos);
      }
    }

    method MightContain(h: Hashes, key: bytes) returns (b: bool)
      requires Valid()
      ensures b == HasProbes(h, bits[..], key, numHashes)
    {
      hide Mask, Position;
      var nbits := bits.Length * 8;
      for i := 0 to numHashes
        invariant HasProbes(h, bits[..], key, i)
      {
        var pos := Position(h, key, i, nbits);
        if bits[pos / 8] & Mask(pos % 8) == 0 {
          assert !BitSet(bits[..], pos);
          return false;
        }
      }
      return true;
    }
  }

  // ---- The sidecar file ----

  datatype Filter = Filter(numHashes: nat, bitsPerKey: nat, bits: seq<bv8>)

  function ToBytes(bits: seq<bv8>): (r: bytes)
    ensures |r| == |bits|
  {
    seq(|bits|, i requires 0 <= i < |bits| => bits[i] as byte)
  }

  function FromBytes(b: bytes): (r: seq<bv8>)
    ensures |r| == |b|
  {
    seq(|b|, i requires 0 <= i < |b| => b[i] as bv8)
  }

  /** `persist`: two ints, a 64-bit size and the bit array. */
  function Persist(f: Filter): bytes {
    Fixed32(f.numHashes) + Fixed32(f.bitsPerKey) + Fixed64(|f.bits|) + ToBytes(f.bits)
  }

  /** `load` of a complete file. */
  function Load(file: bytes): Option<Filter> {
    if |file| < 16 then None
    else
      var size := DecodeLE(file[8..16]);
      if |file| < 16 + size then None
      else Some(Filter(DecodeLE(file[..4]), DecodeLE(file[4..8]), FromBytes(file[16..16 + size])))
  }

  lemma OctetRoundTrip(x: bv8)
    ensures (x as byte) as bv8 == x
  {
  }

  lemma PersistLoad(f: Filter)
    requires f.numHashes < U32 && f.bitsPerKey < U32 && |f.bits| < U64
    ensures Load(Persist(f)) == Some(f)
  {
    hide Fixed32, Fixed64, DecodeLE;
    var file := Persist(f);
    Fixed32RoundTrip(f.numHashes);
    Fixed32RoundTrip(f.bitsPerKey);
    Fixed64RoundTrip(|f.bits|);
    assert file[..4] == Fixed32(f.numHashes);
    assert file[4..8] == Fixed32(f.bitsPerKey);
    assert file[8..16] == Fixed64(|f.bits|);
    assert file[16..16 + |f.bits|] == ToBytes(f.bits);
    BitsRoundTrip(f.bits);
  }

  lemma BitsRoundTrip(bits: seq<bv8>)
    ensures FromBytes(ToBytes(bits)) == bits
  {
    forall i | 0 <= i < |bits|
      ensures FromBytes(ToBytes(bits))[i] == bits[i]
    {
      OctetRoundTrip(bits[i]);
    }
  }
}
