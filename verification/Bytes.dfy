/** Byte strings, and the unsigned byte order that `Slice::compare` computes. */
module Bytes {

  type byte = x: int | 0 <= x < 256
  type bytes = seq<byte>

  const U16 := 0x1_0000
  const U32 := 0x1_0000_0000
  const U64 := 0x1_0000_0000_0000_0000

  datatype Option<+T> = None | Some(value: T)

  /** The sign of `memcmp` over the common length, ties broken by length. */
  function Compare(a: bytes, b: bytes): (r: int)
    ensures -1 <= r <= 1
  {
    if |a| == 0 || |b| == 0 then
      if |a| < |b| then -1 else if |a| > |b| then 1 else 0
    else if a[0] < b[0] then -1
    else if a[0] > b[0] then 1
    else Compare(a[1..], b[1..])
  }

  lemma {:induction false} CompareZero(a: bytes, b: bytes)
    ensures Compare(a, b) == 0 <==> a == b
  {
    if |a| > 0 && |b| > 0 {
      CompareZero(a[1..], b[1..]);
      assert a == [a[0]] + a[1..] && b == [b[0]] + b[1..];
    }
  }

  lemma {:induction false} CompareAntisymmetric(a: bytes, b: bytes)
    ensures Compare(a, b) == -Compare(b, a)
  {
    if |a| > 0 && |b| > 0 {
      CompareAntisymmetric(a[1..], b[1..]);
    }
  }

  lemma {:induction false} CompareTransitive(a: bytes, b: bytes, c: bytes)
    requires Compare(a, b) <= 0 && Compare(b, c) <= 0
    ensures Compare(a, c) <= 0
    ensures Compare(a, b) < 0 || Compare(b, c) < 0 ==> Compare(a, c) < 0
  {
    if |a| > 0 && |b| > 0 && |c| > 0 && a[0] == b[0] == c[0] {
      CompareTransitive(a[1..], b[1..], c[1..]);
    }
  }
}
