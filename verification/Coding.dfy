/** Fixed-width little-endian integers and base-128 varints (`minikv/src/utils/coding.h`). */
module Coding {
  import opened Bytes

  function Pow256(n: nat): (r: nat)
    ensures r > 0
  {
    if n == 0 then 1 else 256 * Pow256(n - 1)
  }

  function EncodeLE(v: nat, n: nat): (b: bytes)
    ensures |b| == n
    decreases n, v
  {
    if n == 0 then [] else [v % 256] + EncodeLE(v / 256, n - 1)
  }

  function DecodeLE(b: bytes): nat {
    if |b| == 0 then 0 else b[0] + 256 * DecodeLE(b[1..])
  }

  lemma {:induction false} DecodeBound(b: bytes)
    ensures DecodeLE(b) < Pow256(|b|)
  {
    if |b| > 0 { DecodeBound(b[1..]); }
  }

  /** Decoding inverts encoding on every value that fits. */
  lemma {:induction false} DecodeEncode(v: nat, n: nat)
    requires v < Pow256(n)
    ensures DecodeLE(EncodeLE(v, n)) == v
    decreases n
  {
    if n > 0 {
      DecodeEncode(v / 256, n - 1);
      assert EncodeLE(v, n)[1..] == EncodeLE(v / 256, n - 1);
    }
  }

  /** Encoding inverts decoding on every byte string, so decoding is injective at one width. */
  lemma {:induction false} EncodeDecode(b: bytes)
    ensures EncodeLE(DecodeLE(b), |b|) == b
  {
    if |b| > 0 {
      EncodeDecode(b[1..]);
      assert DecodeLE(b) / 256 == DecodeLE(b[1..]);
      assert DecodeLE(b) % 256 == b[0];
      assert b == [b[0]] + b[1..];
    }
  }

  /** `static_cast<uint32_t>` followed by `encodeFixed32`. */
  function Fixed32(v: nat): (b: bytes)
    ensures |b| == 4
  {
    EncodeLE(v % U32, 4)
  }

  function Fixed64(v: nat): (b: bytes)
    ensures |b| == 8
  {
    EncodeLE(v % U64, 8)
  }

  lemma Widths()
    ensures Pow256(1) == 256 && Pow256(2) == U16 && Pow256(4) == U32 && Pow256(8) == U64
  {
    assert Pow256(1) == 256 * Pow256(0);
    assert Pow256(2) == 256 * Pow256(1);
    assert Pow256(3) == 256 * Pow256(2);
    assert Pow256(4) == 256 * Pow256(3);
    assert Pow256(5) == 256 * Pow256(4);
    assert Pow256(6) == 256 * Pow256(5);
    assert Pow256(7) == 256 * Pow256(6);
    assert Pow256(8) == 256 * Pow256(7);
  }

  lemma Fixed32RoundTrip(v: nat)
    ensures DecodeLE(Fixed32(v)) == v % U32
  {
    Widths();
    DecodeEncode(v % U32, 4);
  }

  lemma Fixed64RoundTrip(v: nat)
    ensures DecodeLE(Fixed64(v)) == v % U64
  {
    Widths();
    DecodeEncode(v % U64, 8);
  }

  /** The encoding loop over a caller's buffer, as wide as the buffer. */
  method EncodeFixed(buf: array<byte>, val: nat)
    modifies buf
    ensures buf[..] == EncodeLE(val, buf.Length)
  {
    var n, v := buf.Length, val;
    for i := 0 to n
      invariant EncodeLE(val, n) == buf[..i] + EncodeLE(v, n - i)
    {
      ghost var done := buf[..i];
      ghost var rest := EncodeLE(v / 256, n - i - 1);
      assert done + EncodeLE(v, n - i) == done + [v % 256] + rest;
      buf[i] := v % 256;
      assert buf[..i + 1] == done + [v % 256];
      v := v / 256;
    }
    assert buf[..n] == buf[..];
  }

  /** The decoding loop; adding the shifted byte is the source's `|=`, the bits being disjoint. */
  method DecodeFixed(buf: seq<byte>, n: nat) returns (result: nat)
    requires n <= |buf|
    ensures result == DecodeLE(buf[..n])
  {
    hide DecodeLE;
    result := 0;
    var scale: nat := 1;
    assert buf[0..n] == buf[..n];
    for i := 0 to n
      invariant DecodeLE(buf[..n]) == result + scale * DecodeLE(buf[i..n])
    {
      DecodeFirst(buf[i..n]);
      assert buf[i..n][1..] == buf[i + 1..n];
      DistributeScale(scale, buf[i], DecodeLE(buf[i + 1..n]));
      result := result + scale * buf[i];
      scale := scale * 256;
    }
    DecodeNone(buf[n..n]);
  }

  lemma DecodeFirst(b: bytes)
    requires |b| > 0
    ensures DecodeLE(b) == b[0] + 256 * DecodeLE(b[1..])
  {
  }

  lemma DecodeNone(b: bytes)
    requires |b| == 0
    ensures DecodeLE(b) == 0
  {
  }

  lemma DistributeScale(scale: nat, b: nat, rest: nat)
    ensures scale * (b + 256 * rest) == scale * b + (scale * 256) * rest
  {
  }

  // ---- varint32 ----

  function Pow2(n: nat): (r: nat)
    ensures r > 0
  {
    if n == 0 then 1 else 2 * Pow2(n - 1)
  }

  function EncodeVarint(v: nat): (b: bytes)
    ensures 1 <= |b|
  {
    if v >= 0x80 then [v % 0x80 + 0x80] + EncodeVarint(v / 0x80) else [v]
  }

  /** Reads a varint off the front of `s`: the value and the number of bytes consumed. */
  function DecodeVarintFrom(s: bytes, shift: nat, value: nat): (r: Option<(nat, nat)>)
    ensures r.Some? ==> 1 <= r.value.1 <= |s|
    decreases |s|
  {
    if |s| == 0 || shift >= 32 then None
    else
      var v := value + (s[0] % 0x80 * Pow2(shift)) % U32;
      if s[0] < 0x80 then Some((v, 1))
      else
        match DecodeVarintFrom(s[1..], shift + 7, v)
        case None => None
        case Some((x, n)) => Some((x, n + 1))
  }

  function DecodeVarint(s: bytes): (r: Option<(nat, nat)>)
    ensures r.Some? ==> 1 <= r.value.1 <= |s|
  {
    DecodeVarintFrom(s, 0, 0)
  }

  lemma {:induction false} Pow2Add(a: nat, b: nat)
    ensures Pow2(a + b) == Pow2(a) * Pow2(b)
    decreases b
  {
    if b > 0 {
      Pow2Add(a, b - 1);
      assert Pow2(a + b) == 2 * Pow2(a + b - 1);
    }
  }

  lemma Pow2At32()
    ensures Pow2(7) == 0x80 && Pow2(32) == U32
  {
    assert Pow2(8) == 0x100;
    hide Pow2;
    Pow2Add(8, 8);
    Pow2Add(16, 16);
  }

  lemma {:induction false} Pow2Grows(n: nat)
    requires n >= 32
    ensures Pow2(n) >= U32
    decreases n
  {
    Pow2At32();
    if n > 32 { Pow2Grows(n - 1); }
  }

  lemma VarintStep(v: nat, p: nat, q: nat)
    requires v >= 0x80 && p > 0 && q == p * 0x80
    ensures v * p == v % 0x80 * p + v / 0x80 * q
    ensures 0 <= v % 0x80 * p <= v * p
    ensures q <= v / 0x80 * q <= v * p
  {
    var lo, hi := v % 0x80, v / 0x80;
    assert v == lo + hi * 0x80;
    assert v * p == lo * p + hi * 0x80 * p;
    assert hi * 0x80 * p == hi * q;
    assert hi * q == q + (hi - 1) * q;
  }

  /** A value of several bytes whose scaled value fits 32 bits leaves room for another shift. */
  lemma ShiftFits(v: nat, shift: nat)
    requires v >= 0x80 && v * Pow2(shift) < U32
    ensures shift + 7 < 32 && Pow2(shift + 7) == Pow2(shift) * 0x80
  {
    hide Pow2;
    Pow2At32();
    Pow2Add(shift, 7);
    VarintStep(v, Pow2(shift), Pow2(shift + 7));
    if shift + 7 >= 32 { Pow2Grows(shift + 7); }
  }

  lemma VarintLast(v: nat, rest: bytes, shift: nat, acc: nat)
    requires v < 0x80 && shift < 32 && v * Pow2(shift) < U32
    ensures DecodeVarintFrom(EncodeVarint(v) + rest, shift, acc) == Some((acc + v * Pow2(shift), 1))
    ensures |EncodeVarint(v)| == 1
  {
    hide Pow2;
    assert (EncodeVarint(v) + rest)[0] == v && v % 0x80 == v;
  }

  lemma {:induction false} VarintDecodes(v: nat, rest: bytes, shift: nat, acc: nat)
    requires shift < 32
    requires v * Pow2(shift) < U32
    ensures DecodeVarintFrom(EncodeVarint(v) + rest, shift, acc)
         == Some((acc + v * Pow2(shift), |EncodeVarint(v)|))
    decreases v
  {
    hide Pow2, EncodeVarint, DecodeVarintFrom;
    if v < 0x80 {
      VarintLast(v, rest, shift, acc);
    } else {
      var p, q := Pow2(shift), Pow2(shift + 7);
      ShiftFits(v, shift);
      VarintStep(v, p, q);
      var acc' := acc + v % 0x80 * p;
      VarintDecodes(v / 0x80, rest, shift + 7, acc');
      VarintUnfold(v, rest, shift, acc, acc');
    }
  }

  lemma VarintUnfold(v: nat, rest: bytes, shift: nat, acc: nat, acc': nat)
    requires v >= 0x80 && shift < 32 && 0 <= v % 0x80 * Pow2(shift) < U32
    requires acc' == acc + v % 0x80 * Pow2(shift)
    ensures |EncodeVarint(v)| == 1 + |EncodeVarint(v / 0x80)|
    ensures DecodeVarintFrom(EncodeVarint(v) + rest, shift, acc)
         == match DecodeVarintFrom(EncodeVarint(v / 0x80) + rest, shift + 7, acc')
            case None => None
            case Some((x, n)) => Some((x, n + 1))
  {
    hide Pow2, EncodeVarint;
    VarintFirst(v);
    var s := EncodeVarint(v) + rest;
    assert s[1..] == EncodeVarint(v / 0x80) + rest;
    assert s[0] == v % 0x80 + 0x80;
    LowBits(v % 0x80, Pow2(shift));
  }

  lemma VarintFirst(v: nat)
    requires v >= 0x80
    ensures EncodeVarint(v) == [v % 0x80 + 0x80] + EncodeVarint(v / 0x80)
  {
  }

  lemma LowBits(x: nat, p: nat)
    requires x < 0x80 && 0 <= x * p < U32
    ensures (x + 0x80) % 0x80 == x && ((x + 0x80) % 0x80 * p) % U32 == x * p
  {
    assert (x + 0x80) % 0x80 == x;
  }

  /** `decodeVariant32` inverts `encodeVariant32` for every 32-bit value, whatever bytes follow. */
  lemma VarintRoundTrip(v: nat, rest: bytes)
    requires v < U32
    ensures DecodeVarint(EncodeVarint(v) + rest) == Some((v, |EncodeVarint(v)|))
  {
    VarintDecodes(v, rest, 0, 0);
  }

  method EncodeVariant32(dst: bytes, val: nat) returns (out: bytes)
    requires val < U32
    ensures out == dst + EncodeVarint(val)
  {
    var v := val;
    out := dst;
    while v >= 0x80
      invariant out + EncodeVarint(v) == dst + EncodeVarint(val)
    {
      assert EncodeVarint(v) == [v % 0x80 + 0x80] + EncodeVarint(v / 0x80);
      out := out + [v % 0x80 + 0x80];
      v := v / 0x80;
    }
    out := out + [v];
  }

  method DecodeVariant32(data: seq<byte>, start: nat, limit: nat) returns (ok: bool, value: nat, consumed: nat)
    requires start <= limit <= |data|
    ensures ok <==> DecodeVarint(data[start..limit]).Some?
    ensures ok ==> DecodeVarint(data[start..limit]) == Some((value, consumed))
  {
    value := 0;
    consumed := 0;
    var shift, scale := 0, 1;
    var p := start;
    while p < limit
      invariant start <= p <= limit && consumed == p - start && scale == Pow2(shift)
      invariant match DecodeVarintFrom(data[p..limit], shift, value)
                case None => DecodeVarint(data[start..limit]) == None
                case Some((x, n)) => DecodeVarint(data[start..limit]) == Some((x, consumed + n))
    {
      var c := data[p];
      assert data[p..limit][1..] == data[p + 1..limit];
      p := p + 1;
      consumed := consumed + 1;
      if shift >= 32 { return false, value, consumed; }
      value := value + (c % 0x80 * scale) % U32;
      if c < 0x80 { return true, value, consumed; }
      scale := scale * 128;
      Pow2Add(shift, 7);
      assert Pow2(7) == 0x80;
      shift := shift + 7;
    }
    ok := false;
  }
}
