/**
 Internal keys: user key followed by an 8-byte trailer packing a 56-bit sequence
 number and a value type (`minikv/src/core/internal_key.{h,cpp}`).
 */
module InternalKey {
  import opened Bytes
  import opened Coding

  const TRAILER := 8
  const SEQ_LIMIT := 0x100_0000_0000_0000

  const VALUE: byte := 1
  const DELETION: byte := 2

  /** `(seq << kTypeBits) | type` in 64 bits: sequence bits above 56 are shifted out. */
  function PackTrailer(seqNo: nat, typ: byte): (t: nat)
    ensures t < U64
  {
    seqNo * 256 % U64 + typ
  }

  function Encode(userKey: bytes, seqNo: nat, typ: byte): (ik: bytes)
    ensures |ik| == |userKey| + TRAILER
  {
    userKey + Fixed64(PackTrailer(seqNo, typ))
  }

  function UserKey(ik: bytes): bytes {
    if |ik| < TRAILER then [] else ik[..|ik| - TRAILER]
  }

  function Trailer(ik: bytes): nat
    requires |ik| >= TRAILER
  {
    DecodeLE(ik[|ik| - TRAILER..])
  }

  function Sequence(ik: bytes): nat {
    if |ik| < TRAILER then 0 else Trailer(ik) / 256
  }

  function TypeOf(ik: bytes): byte {
    if |ik| < TRAILER then 0 else Trailer(ik) % 256
  }

  predicate IsDeletion(ik: bytes) {
    TypeOf(ik) == DELETION
  }

  /** `InternalKeyCompare`: user key ascending, sequence descending, type ascending. */
  function CompareKeys(a: bytes, b: bytes): (r: int)
    ensures -1 <= r <= 1
  {
    if |a| < TRAILER || |b| < TRAILER then Compare(a, b)
    else if Compare(UserKey(a), UserKey(b)) != 0 then Compare(UserKey(a), UserKey(b))
    else if Sequence(a) != Sequence(b) then (if Sequence(a) > Sequence(b) then -1 else 1)
    else if TypeOf(a) != TypeOf(b) then (if TypeOf(a) < TypeOf(b) then -1 else 1)
    else 0
  }

  /** The three parts of an internal key read back what was encoded, up to 56 sequence bits. */
  lemma EncodeRoundTrip(userKey: bytes, seqNo: nat, typ: byte)
    ensures UserKey(Encode(userKey, seqNo, typ)) == userKey
    ensures Sequence(Encode(userKey, seqNo, typ)) == seqNo % SEQ_LIMIT
    ensures TypeOf(Encode(userKey, seqNo, typ)) == typ
  {
    hide Fixed64, DecodeLE;
    var ik := Encode(userKey, seqNo, typ);
    var t := PackTrailer(seqNo, typ);
    assert ik[|ik| - TRAILER..] == Fixed64(t);
    Fixed64RoundTrip(t);
    ShiftKeeps56Bits(seqNo);
  }

  lemma ShiftKeeps56Bits(seqNo: nat)
    ensures seqNo * 256 % U64 == seqNo % SEQ_LIMIT * 256
  {
    var q, r := seqNo / SEQ_LIMIT, seqNo % SEQ_LIMIT;
    assert seqNo * 256 == q * U64 + r * 256;
  }

  predicate Internal(ik: bytes) {
    |ik| >= TRAILER
  }

  /** Zero exactly on byte-equal keys. */
  lemma CompareKeysZero(a: bytes, b: bytes)
    requires Internal(a) && Internal(b)
    ensures CompareKeys(a, b) == 0 <==> a == b
  {
    CompareZero(UserKey(a), UserKey(b));
    if CompareKeys(a, b) == 0 {
      EncodeDecode(a[|a| - TRAILER..]);
      EncodeDecode(b[|b| - TRAILER..]);
      assert a == UserKey(a) + a[|a| - TRAILER..];
      assert b == UserKey(b) + b[|b| - TRAILER..];
    }
  }

  lemma CompareKeysAntisymmetric(a: bytes, b: bytes)
    ensures CompareKeys(a, b) == -CompareKeys(b, a)
  {
    CompareAntisymmetric(a, b);
    CompareAntisymmetric(UserKey(a), UserKey(b));
  }

  lemma CompareKeysTransitive(a: bytes, b: bytes, c: bytes)
    requires Internal(a) && Internal(b) && Internal(c)
    requires CompareKeys(a, b) <= 0 && CompareKeys(b, c) <= 0
    ensures CompareKeys(a, c) <= 0
    ensures CompareKeys(a, b) < 0 || CompareKeys(b, c) < 0 ==> CompareKeys(a, c) < 0
  {
    var ua, ub, uc := UserKey(a), UserKey(b), UserKey(c);
    CompareTransitive(ua, ub, uc);
    CompareZero(ua, ub);
    CompareZero(ub, uc);
    CompareZero(ua, uc);
  }

  // ---- Keys too short for a trailer ----

  ghost predicate Chained(a: bytes, b: bytes, c: bytes) {
    CompareKeys(a, b) <= 0 && CompareKeys(b, c) <= 0 ==>
      CompareKeys(a, c) <= 0 && (CompareKeys(a, b) < 0 || CompareKeys(b, c) < 0 ==> CompareKeys(a, c) < 0)
  }

  /** Transitivity on three keys, in every order. */
  ghost predicate Transitive(a: bytes, b: bytes, c: bytes) {
    && Chained(a, b, c) && Chained(a, c, b) && Chained(b, a, c)
    && Chained(b, c, a) && Chained(c, a, b) && Chained(c, b, a)
  }

  /** A key of length `n` is compared raw, and within the user keys of both others. */
  predicate Within(n: nat, x: nat, y: nat) {
    n + TRAILER <= x && n + TRAILER <= y
  }

  /** All three lengths leave room for a trailer or at most one does, or the one short key lies within the others. */
  predicate SafeLengths(x: nat, y: nat, z: nat) {
    if x < TRAILER then (if y < TRAILER || z < TRAILER then true else Within(x, y, z))
    else if y < TRAILER then (if z < TRAILER then true else Within(y, x, z))
    else z < TRAILER ==> Within(z, x, y)
  }

  lemma {:induction false} CompareFront(a: bytes, u: bytes, t: bytes)
    requires |a| <= |u| && |t| > 0
    ensures Compare(a, u + t) == if Compare(a, u) <= 0 then -1 else 1
  {
    if |a| > 0 {
      assert (u + t)[1..] == u[1..] + t;
      CompareFront(a[1..], u[1..], t);
    }
  }

  /** Raw comparison with a longer internal key is comparison with its user key. */
  lemma ShortAgainst(a: bytes, p: bytes)
    requires |a| < TRAILER && |a| + TRAILER <= |p|
    ensures CompareKeys(a, p) == if Compare(a, UserKey(p)) <= 0 then -1 else 1
    ensures CompareKeys(p, a) == if Compare(a, UserKey(p)) <= 0 then 1 else -1
  {
    hide Compare;
    assert p == UserKey(p) + p[|p| - TRAILER..];
    CompareFront(a, UserKey(p), p[|p| - TRAILER..]);
    CompareAntisymmetric(a, p);
  }

  lemma UserKeysOrdered(p: bytes, q: bytes)
    requires Internal(p) && Internal(q)
    ensures CompareKeys(p, q) <= 0 ==> Compare(UserKey(p), UserKey(q)) <= 0
    ensures Compare(UserKey(p), UserKey(q)) < 0 ==> CompareKeys(p, q) < 0
  {
    hide Compare;
  }

  lemma OneShort(a: bytes, p: bytes, q: bytes)
    requires |a| < TRAILER && Within(|a|, |p|, |q|)
    ensures Chained(a, p, q) && Chained(p, a, q) && Chained(p, q, a)
  {
    hide Compare, CompareKeys, UserKey;
    var u, v := UserKey(p), UserKey(q);
    ShortAgainst(a, p);
    ShortAgainst(a, q);
    UserKeysOrdered(p, q);
    CompareAntisymmetric(a, u);
    CompareAntisymmetric(a, v);
    if Compare(a, u) <= 0 && Compare(u, v) <= 0 { CompareTransitive(a, u, v); }
    if Compare(u, a) <= 0 && Compare(a, v) <= 0 { CompareTransitive(u, a, v); }
  }

  lemma RawChained(a: bytes, b: bytes, c: bytes)
    requires CompareKeys(a, b) == Compare(a, b) && CompareKeys(b, c) == Compare(b, c)
    requires CompareKeys(a, c) == Compare(a, c)
    ensures Chained(a, b, c)
  {
    hide Compare, CompareKeys;
    if Compare(a, b) <= 0 && Compare(b, c) <= 0 { CompareTransitive(a, b, c); }
  }

  lemma SafeChained(a: bytes, b: bytes, c: bytes)
    requires SafeLengths(|a|, |b|, |c|)
    ensures Chained(a, b, c)
  {
    hide Compare;
    if Internal(a) && Internal(b) && Internal(c) {
      hide CompareKeys;
      if CompareKeys(a, b) <= 0 && CompareKeys(b, c) <= 0 { CompareKeysTransitive(a, b, c); }
    } else if !Internal(a) && Internal(b) && Internal(c) {
      OneShort(a, b, c);
    } else if Internal(a) && !Internal(b) && Internal(c) {
      OneShort(b, a, c);
    } else if Internal(a) && Internal(b) {
      OneShort(c, a, b);
    } else {
      RawChained(a, b, c);
    }
  }

  function Zeros(n: nat): (z: bytes)
    ensures |z| == n && forall i :: 0 <= i < n ==> z[i] == 0
  {
    seq(n, _ => 0)
  }

  lemma {:induction false} CompareAfter(n: nat, a: bytes, b: bytes)
    ensures Compare(Zeros(n) + a, Zeros(n) + b) == Compare(a, b)
  {
    if n == 0 {
      assert Zeros(0) + a == a && Zeros(0) + b == b;
    } else {
      assert (Zeros(n) + a)[1..] == Zeros(n - 1) + a && (Zeros(n) + b)[1..] == Zeros(n - 1) + b;
      CompareAfter(n - 1, a, b);
    }
  }

  /**
    Keys too short for a trailer are compared raw. Whenever one is longer than the shorter of two user keys, there
    are such keys of these lengths that break transitivity.
   */
  lemma ShortKeysBreakTransitivity(x: nat, y: nat, z: nat) returns (a: bytes, b: bytes, c: bytes)
    requires y < TRAILER <= z <= x && z < y + TRAILER
    ensures |a| == x && |b| == y && |c| == z
    ensures CompareKeys(a, b) < 0 && CompareKeys(b, c) < 0 && CompareKeys(a, c) > 0
  {
    hide Compare;
    var d := z - TRAILER;
    a := Zeros(x);                                // sequence 0
    b := Zeros(d) + ([5] + Zeros(y - d - 1));     // too short
    c := Zeros(d) + ([9, 1] + Zeros(6));          // sequence 1, user key no longer than the first one's
    assert a == Zeros(d) + ([0] + Zeros(x - d - 1));
    FirstByte(0, Zeros(x - d - 1), 5, Zeros(y - d - 1));
    CompareAfter(d, [0] + Zeros(x - d - 1), [5] + Zeros(y - d - 1));
    assert [9, 1] + Zeros(6) == [9] + ([1] + Zeros(6));
    FirstByte(5, Zeros(y - d - 1), 9, [1] + Zeros(6));
    CompareAfter(d, [5] + Zeros(y - d - 1), [9, 1] + Zeros(6));
    LaterSequence(x, z, a, c);
  }

  lemma FirstByte(x: byte, a: bytes, y: byte, b: bytes)
    requires x < y
    ensures Compare([x] + a, [y] + b) == -1
  {
  }

  lemma LaterSequence(x: nat, z: nat, a: bytes, c: bytes)
    requires TRAILER <= z <= x && a == Zeros(x) && c == Zeros(z - TRAILER) + ([9, 1] + Zeros(6))
    ensures CompareKeys(a, c) > 0
  {
    hide Compare, DecodeLE;
    var d := z - TRAILER;
    assert c[|c| - TRAILER..] == [9, 1] + Zeros(6) && UserKey(c) == Zeros(d);
    assert a[|a| - TRAILER..] == Zeros(TRAILER) && UserKey(a) == Zeros(d) + Zeros(x - z);
    TwoByteTrailer(9, 1, Zeros(6));
    AllZero(Zeros(TRAILER));
    CompareAfter(d, Zeros(x - z), []);
    assert Zeros(d) + [] == Zeros(d);
    NothingIsLeast(Zeros(x - z));
  }

  lemma NothingIsLeast(a: bytes)
    ensures Compare(a, []) == if a == [] then 0 else 1
  {
  }

  /** Three lengths, each way round, with a triple of keys that breaks transitivity. */
  lemma BreakAny(x: nat, y: nat, z: nat)
    requires y < TRAILER <= x && TRAILER <= z && !Within(y, x, z)
    ensures exists a: bytes, b: bytes, c: bytes :: |a| == x && |b| == y && |c| == z && !Transitive(a, b, c)
  {
    hide CompareKeys;
    if z <= x {
      var a, b, c := ShortKeysBreakTransitivity(x, y, z);
      assert !Chained(a, b, c);
    } else {
      var c, b, a := ShortKeysBreakTransitivity(z, y, x);
      assert !Chained(c, b, a);
      assert !Transitive(a, b, c);
    }
  }

  /** All keys of three lengths are transitively ordered, in every order, if and only if the lengths are safe. */
  lemma TransitiveIffSafeLengths(x: nat, y: nat, z: nat)
    ensures (forall a: bytes, b: bytes, c: bytes :: |a| == x && |b| == y && |c| == z ==> Transitive(a, b, c))
            <==> SafeLengths(x, y, z)
  {
    hide CompareKeys, Chained;
    if SafeLengths(x, y, z) {
      forall a: bytes, b: bytes, c: bytes | |a| == x && |b| == y && |c| == z ensures Transitive(a, b, c) {
        SafeChained(a, b, c);
        SafeChained(a, c, b);
        SafeChained(b, a, c);
        SafeChained(b, c, a);
        SafeChained(c, a, b);
        SafeChained(c, b, a);
      }
    } else if y < TRAILER {
      BreakAny(x, y, z);
    } else if x < TRAILER {
      BreakAny(y, x, z);
      var b: bytes, a: bytes, c: bytes :| |b| == y && |a| == x && |c| == z && !Transitive(b, a, c);
      assert !Transitive(a, b, c);
    } else {
      BreakAny(x, z, y);
      var a: bytes, c: bytes, b: bytes :| |a| == x && |c| == z && |b| == y && !Transitive(a, c, b);
      assert !Transitive(a, b, c);
    }
  }

  lemma TwoByteTrailer(lo: byte, hi: byte, zeros: bytes)
    requires forall i :: 0 <= i < |zeros| ==> zeros[i] == 0
    ensures DecodeLE([lo, hi] + zeros) == lo + 256 * hi
  {
    AllZero(zeros);
    var b := [lo, hi] + zeros;
    assert b[1..] == [hi] + zeros;
    assert b[1..][1..] == zeros;
  }

  lemma {:induction false} AllZero(b: bytes)
    requires forall i :: 0 <= i < |b| ==> b[i] == 0
    ensures DecodeLE(b) == 0
  {
    if |b| > 0 { AllZero(b[1..]); }
  }
}
