/**
 The CRC-32C shift register (section 12.1 of RFC 3720): feeding a message bit by bit, advancing
 the register a byte at a time, and why changes confined to four bytes cannot go unnoticed.
 */
module CrcRegister {

  type octets = seq<bv8>

  function Xor(a: bv32, b: bv32): bv32 {
    a ^ b
  }

  predicate Odd(c: bv32) {
    c & 1 == 1
  }

  /** Shifts one message bit into the register; 0x82F63B78 is the reflected Castagnoli polynomial. */
  function FeedBit(crc: bv32, bit: bv32): bv32 {
    if Odd(Xor(crc, bit)) then Xor(crc >> 1, 0x82F63B78) else crc >> 1
  }

  /** Feeds the `n` low bits of `b`, least significant first. */
  function FeedBits(crc: bv32, b: bv32, n: nat): bv32
    decreases n, b
  {
    if n == 0 then crc else FeedBits(FeedBit(crc, b & 1), b >> 1, n - 1)
  }

  function BitSerial(crc: bv32, data: octets): bv32
    decreases |data|
  {
    if |data| == 0 then crc else BitSerial(FeedBits(crc, data[0] as bv32, 8), data[1..])
  }

  /** One conditional shift, as the table is filled. */
  function Shift1(c: bv32): bv32 {
    if Odd(c) then Xor(0x82F63B78, c >> 1) else c >> 1
  }

  function ShiftN(c: bv32, n: nat): bv32
    decreases n, c
  {
    if n == 0 then c else ShiftN(Shift1(c), n - 1)
  }

  /** Advances the register by one byte. */
  function ByteStep(crc: bv32, b: bv8): bv32 {
    ShiftN(Xor(crc, b as bv32), 8)
  }

  function Update(crc: bv32, data: octets): bv32
    decreases |data|
  {
    if |data| == 0 then crc else Update(ByteStep(crc, data[0]), data[1..])
  }

  // ---- Linearity of the shifts ----

  lemma XorShift(x: bv32, y: bv32)
    ensures Xor(x, y) >> 1 == Xor(x >> 1, y >> 1)
  {
    calc {
      Xor(x, y) >> 1;
      (x ^ y) >> 1;
      { RawXorShift(x, y); }
      (x >> 1) ^ (y >> 1);
      Xor(x >> 1, y >> 1);
    }
  }

  lemma RawXorShift(x: bv32, y: bv32)
    ensures (x ^ y) >> 1 == (x >> 1) ^ (y >> 1)
  {
  }

  lemma XorOdd(x: bv32, y: bv32)
    ensures Odd(Xor(x, y)) == (Odd(x) != Odd(y))
  {
    assert (x ^ y) & 1 == (x & 1) ^ (y & 1);
    assert x & 1 == 0 || x & 1 == 1;
    assert y & 1 == 0 || y & 1 == 1;
  }

  lemma XorAssociative(x: bv32, y: bv32, z: bv32)
    ensures Xor(Xor(x, y), z) == Xor(x, Xor(y, z))
  {
  }

  lemma XorCommutes(x: bv32, y: bv32)
    ensures Xor(x, y) == Xor(y, x)
  {
  }

  lemma XorCancels(x: bv32, y: bv32)
    ensures Xor(x, Xor(x, y)) == y
  {
  }

  lemma Shift1Linear(x: bv32, y: bv32)
    ensures Shift1(Xor(x, y)) == Xor(Shift1(x), Shift1(y))
  {
    hide Xor, Odd;
    var p, a, b := 0x82F63B78, x >> 1, y >> 1;
    XorShift(x, y);
    XorOdd(x, y);
    XorAssociative(p, a, b);                  // (p a) b
    XorMoves(a, p, b);                        // a (p b)
    XorPair(p, a, b);                         // (p a) (p b)
  }

  lemma XorMoves(x: bv32, p: bv32, y: bv32)
    ensures Xor(Xor(x, p), y) == Xor(p, Xor(x, y)) == Xor(x, Xor(p, y))
  {
    hide Xor;
    XorAssociative(x, p, y);
    XorCommutes(x, p);
    XorAssociative(p, x, y);
  }

  lemma XorPair(p: bv32, a: bv32, b: bv32)
    ensures Xor(Xor(p, a), Xor(p, b)) == Xor(a, b)
  {
    hide Xor;
    XorCommutes(p, a);
    XorAssociative(a, p, Xor(p, b));
    XorCancels(p, b);
  }

  lemma {:induction false} ShiftNLinear(x: bv32, y: bv32, n: nat)
    ensures ShiftN(Xor(x, y), n) == Xor(ShiftN(x, n), ShiftN(y, n))
    decreases n
  {
    hide Xor, Shift1;
    if n > 0 {
      Shift1Linear(x, y);
      ShiftNLinear(Shift1(x), Shift1(y), n - 1);
    }
  }

  lemma Shift2(c: bv32, n: nat)
    requires n >= 2 && c & 3 == 0
    ensures ShiftN(c, n) == ShiftN(c >> 2, n - 2)
  {
    assert !Odd(c) && !Odd(c >> 1) && (c >> 1) >> 1 == c >> 2;
  }

  lemma Shift4(c: bv32, n: nat)
    requires n >= 4 && c & 15 == 0
    ensures ShiftN(c, n) == ShiftN(c >> 4, n - 4)
  {
    hide ShiftN;
    assert c & 3 == 0 && (c >> 2) & 3 == 0 && (c >> 2) >> 2 == c >> 4;
    Shift2(c, n);
    Shift2(c >> 2, n - 2);
  }

  /** Eight shifts of a register with a clear low byte just move it down. */
  lemma ShiftClearLow(c: bv32)
    requires c & 0xFF == 0
    ensures ShiftN(c, 8) == c >> 8
  {
    assert ShiftN(c >> 8, 0) == c >> 8;
    hide ShiftN;
    assert c & 15 == 0 && (c >> 4) & 15 == 0 && (c >> 4) >> 4 == c >> 8;
    Shift4(c, 8);
    Shift4(c >> 4, 4);
  }

  // ---- One byte step is eight message bits ----

  /** Only the low `n` bits of `b` may be set. */
  predicate LowBits(b: bv32, n: nat)
    decreases n, b
  {
    if n == 0 then b == 0 else LowBits(b >> 1, n - 1)
  }

  lemma OctetIsLow(b: bv8)
    ensures LowBits(b as bv32, 8)
  {
    var x := b as bv32;
    assert LowBits(x >> 8, 0);
    assert LowBits(x >> 7, 1);
    assert LowBits(x >> 6, 2);
    assert LowBits(x >> 5, 3);
    assert LowBits(x >> 4, 4);
    assert LowBits(x >> 3, 5);
    assert LowBits(x >> 2, 6);
    assert LowBits(x >> 1, 7);
  }

  lemma FeedBitShifts(crc: bv32, b: bv32)
    ensures Xor(FeedBit(crc, b & 1), b >> 1) == Shift1(Xor(crc, b))
  {
    hide Xor, Odd;
    SameLowBit(crc, b);
    XorShift(crc, b);
    XorMoves(crc >> 1, 0x82F63B78, b >> 1);
  }

  lemma SameLowBit(crc: bv32, b: bv32)
    ensures Odd(Xor(crc, b & 1)) <==> Odd(Xor(crc, b))
  {
  }

  /** Feeding bits one by one is xoring them in first and then shifting. */
  lemma {:induction false} FeedBitsShifts(crc: bv32, b: bv32, n: nat)
    requires LowBits(b, n)
    ensures FeedBits(crc, b, n) == ShiftN(Xor(crc, b), n)
    decreases n
  {
    if n > 0 {
      hide Xor, Shift1, FeedBit;
      FeedBitsShifts(FeedBit(crc, b & 1), b >> 1, n - 1);
      FeedBitShifts(crc, b);
    } else {
      XorZero(crc);
    }
  }

  lemma XorZero(s: bv32)
    ensures Xor(s, 0) == s
  {
  }

  lemma ByteStepFeedsBits(crc: bv32, b: bv8)
    ensures ByteStep(crc, b) == FeedBits(crc, b as bv32, 8)
  {
    hide Xor, ShiftN, FeedBits, LowBits;
    OctetIsLow(b);
    FeedBitsShifts(crc, b as bv32, 8);
  }

  lemma {:induction false} UpdateIsBitSerial(crc: bv32, data: octets)
    ensures Update(crc, data) == BitSerial(crc, data)
    decreases |data|
  {
    hide ByteStep, FeedBits;
    if |data| > 0 {
      ByteStepFeedsBits(crc, data[0]);
      UpdateIsBitSerial(ByteStep(crc, data[0]), data[1..]);
    }
  }

  // ---- One table lookup is one byte step ----

  function TableIndex(crc: bv32, b: bv8): bv32 {
    Xor(crc, b as bv32) & 0xFF
  }

  lemma SplitBytes(crc: bv32, b: bv8)
    ensures Xor(crc, b as bv32) == Xor(TableIndex(crc, b), crc & 0xFFFFFF00)
    ensures (crc & 0xFFFFFF00) & 0xFF == 0
    ensures (crc & 0xFFFFFF00) >> 8 == crc >> 8
  {
  }

  /** Looking up the low byte and moving the rest down advances the register by a whole byte. */
  lemma TableStep(crc: bv32, b: bv8)
    ensures Xor(ShiftN(TableIndex(crc, b), 8), crc >> 8) == ByteStep(crc, b)
  {
    hide Xor, ShiftN, TableIndex;
    SplitBytes(crc, b);
    ShiftNLinear(TableIndex(crc, b), crc & 0xFFFFFF00, 8);
    ShiftClearLow(crc & 0xFFFFFF00);
  }

  // ---- Error detection ----

  lemma {:induction false} UpdateConcat(crc: bv32, a: octets, b: octets)
    ensures Update(crc, a + b) == Update(Update(crc, a), b)
    decreases |a|
  {
    hide ByteStep;
    if |a| == 0 {
      assert a + b == b;
    } else {
      assert (a + b)[1..] == a[1..] + b;
      UpdateConcat(ByteStep(crc, a[0]), a[1..], b);
    }
  }

  lemma Shift1Injective(x: bv32, y: bv32)
    requires Shift1(x) == Shift1(y)
    ensures x == y
  {
  }

  lemma {:induction false} ShiftNInjective(x: bv32, y: bv32, n: nat)
    requires ShiftN(x, n) == ShiftN(y, n)
    ensures x == y
    decreases n
  {
    hide Shift1;
    if n > 0 {
      ShiftNInjective(Shift1(x), Shift1(y), n - 1);
      Shift1Injective(x, y);
    }
  }

  lemma XorInjective(s: bv32, t: bv32, b: bv32)
    requires Xor(s, b) == Xor(t, b) || Xor(b, s) == Xor(b, t)
    ensures s == t
  {
  }

  /** Distinct registers stay distinct however long a common message is. */
  lemma {:induction false} UpdateInjective(s: bv32, t: bv32, data: octets)
    requires Update(s, data) == Update(t, data)
    ensures s == t
    decreases |data|
  {
    hide Xor, ShiftN;
    if |data| > 0 {
      UpdateInjective(ByteStep(s, data[0]), ByteStep(t, data[0]), data[1..]);
      var b := data[0] as bv32;
      ShiftNInjective(Xor(s, b), Xor(t, b), 8);
      XorInjective(s, t, b);
    }
  }

  /** Puts an octet below a word. */
  function Join(b: bv8, w: bv32): bv32 {
    Xor(b as bv32, w << 8)
  }

  /** Up to four octets as one little-endian register word. */
  function Word(x: octets): bv32 {
    if |x| == 0 then 0 else Join(x[0], Word(x[1..]))
  }

  /** All but the low `k` bytes are clear. */
  predicate Fits(w: bv32, k: nat) {
    w & (if k == 0 then 0xFFFFFFFF else if k == 1 then 0xFFFFFF00 else if k == 2 then 0xFFFF0000
         else if k == 3 then 0xFF000000 else 0) == 0
  }

  lemma JoinFits(b: bv8, w: bv32, k: nat)
    requires Fits(w, k)
    ensures Fits(Join(b, w), k + 1)
  {
  }

  lemma UnJoin(b: bv8, w: bv32)
    requires Fits(w, 3)
    ensures Join(b, w) & 0xFF == b as bv32 && Join(b, w) >> 8 == w
  {
  }

  lemma OctetInjective(b: bv8, c: bv8)
    requires b as bv32 == c as bv32
    ensures b == c
  {
  }

  lemma JoinInjective(b: bv8, w: bv32, c: bv8, v: bv32)
    requires Fits(w, 3) && Fits(v, 3) && Join(b, w) == Join(c, v)
    ensures b == c && w == v
  {
    hide Join, Fits;
    UnJoin(b, w);
    UnJoin(c, v);
    OctetInjective(b, c);
  }

  lemma {:induction false} WordFits(x: octets)
    ensures Fits(Word(x), |x|)
  {
    if |x| > 0 {
      WordFits(x[1..]);
      JoinFits(x[0], Word(x[1..]), |x| - 1);
    }
  }

  lemma FitsMore(w: bv32, k: nat)
    requires Fits(w, k) && k <= 3
    ensures Fits(w, 3)
  {
  }

  lemma {:induction false} WordInjective(x: octets, y: octets)
    requires |x| == |y| <= 4 && Word(x) == Word(y)
    ensures x == y
  {
    hide Join, Fits;
    if |x| > 0 {
      WordFits(x[1..]);
      WordFits(y[1..]);
      FitsMore(Word(x[1..]), |x| - 1);
      FitsMore(Word(y[1..]), |x| - 1);
      JoinInjective(x[0], Word(x[1..]), y[0], Word(y[1..]));
      WordInjective(x[1..], y[1..]);
      assert x == [x[0]] + x[1..] && y == [y[0]] + y[1..];
    }
  }

  lemma {:induction false} ShiftNAdd(c: bv32, n: nat, m: nat)
    ensures ShiftN(ShiftN(c, n), m) == ShiftN(c, n + m)
    decreases n
  {
    hide Shift1;
    if n > 0 { ShiftNAdd(Shift1(c), n - 1, m); }
  }

  lemma ShiftUpDown(w: bv32)
    requires Fits(w, 3)
    ensures (w << 8) & 0xFF == 0 && (w << 8) >> 8 == w
  {
  }

  lemma XorJoin(s: bv32, b: bv8, w: bv32)
    ensures Xor(Xor(s, b as bv32), w << 8) == Xor(s, Join(b, w))
  {
    hide Xor;
    XorAssociative(s, b as bv32, w << 8);
  }

  /** Xoring a word in after a byte step is xoring it in, one byte higher, before. */
  lemma LiftByte(s: bv32, b: bv8, w: bv32)
    requires Fits(w, 3)
    ensures Xor(ByteStep(s, b), w) == ShiftN(Xor(s, Join(b, w)), 8)
  {
    hide Xor, ShiftN, Join, Fits;
    ShiftUpDown(w);
    ShiftNLinear(Xor(s, b as bv32), w << 8, 8);
    ShiftClearLow(w << 8);
    XorJoin(s, b, w);
  }

  /** Up to four octets act on the register as a single word. */
  lemma {:induction false} UpdateWord(s: bv32, x: octets)
    requires |x| <= 4
    ensures Update(s, x) == ShiftN(Xor(s, Word(x)), 8 * |x|)
    decreases |x|
  {
    if |x| > 0 {
      hide Xor, ShiftN, Join, Fits, ByteStep;
      var w := Word(x[1..]);
      UpdateWord(ByteStep(s, x[0]), x[1..]);
      WordFits(x[1..]);
      FitsMore(w, |x| - 1);
      LiftByte(s, x[0], w);
      ShiftNAdd(Xor(s, Word(x)), 8, 8 * (|x| - 1));
    } else {
      XorZero(s);
    }
  }

  lemma BurstWord(s: bv32, x: octets, y: octets)
    requires |x| == |y| <= 4 && Update(s, x) == Update(s, y)
    ensures x == y
  {
    hide Update, Xor, ShiftN, Word;
    UpdateWord(s, x);
    UpdateWord(s, y);
    ShiftNInjective(Xor(s, Word(x)), Xor(s, Word(y)), 8 * |x|);
    XorInjective(Word(x), Word(y), s);
    WordInjective(x, y);
  }

  /** Replacing up to four consecutive octets changes the register for good. */
  lemma BurstSeen(crc: bv32, pre: octets, x: octets, y: octets, post: octets)
    requires |x| == |y| <= 4 && x != y
    ensures Update(crc, pre + x + post) != Update(crc, pre + y + post)
  {
    hide Update;
    if Update(crc, pre + x + post) == Update(crc, pre + y + post) {
      UpdateConcat(crc, pre + x, post);
      UpdateConcat(crc, pre + y, post);
      UpdateConcat(crc, pre, x);
      UpdateConcat(crc, pre, y);
      var s := Update(crc, pre);
      UpdateInjective(Update(s, x), Update(s, y), post);
      BurstWord(s, x, y);
    }
  }
}

/** The checksum the engine stores (`minikv/src/utils/crc32.cpp`). */
module Crc32c {
  import opened Bytes
  import opened CrcRegister

  function Octets(data: bytes): (r: octets)
    ensures |r| == |data|
  {
    seq(|data|, i requires 0 <= i < |data| => data[i] as bv8)
  }

  /** The standard's checksum: every message bit through the register, one at a time. */
  function Reference(data: bytes): nat {
    Finish(BitSerial(0xFFFFFFFF, Octets(data)))
  }

  function Finish(crc: bv32): (r: nat)
    ensures r < U32
  {
    Xor(crc, 0xFFFFFFFF) as int
  }

  /** What the loop returns, as an unsigned integer; nothing is read when `len` is negative. */
  function Crc(data: bytes, len: int): (r: nat)
    requires len <= |data|
    ensures r < U32
  {
    Finish(Update(0xFFFFFFFF, Octets(if len < 0 then [] else data[..len])))
  }

  // ---- The code ----

  ghost predicate IsTable(table: seq<bv32>) {
    |table| == 256 && forall i {:trigger table[i]} :: 0 <= i < 256 ==> table[i] == ShiftN(i as bv32, 8)
  }

  /** The inner loop of `initCRC`: eight conditional shifts. */
  method FillEntry(i: bv32) returns (c: bv32)
    ensures c == ShiftN(i, 8)
  {
    c := i;
    for k := 0 to 8
      invariant ShiftN(c, 8 - k) == ShiftN(i, 8)
    {
      if Odd(c) { c := Xor(0x82F63B78, c >> 1); } else { c := c >> 1; }
    }
  }

  /** `initCRC`. */
  method InitCrc() returns (table: array<bv32>)
    ensures fresh(table) && IsTable(table[..])
  {
    table := new bv32[256];
    for i := 0 to 256
      invariant forall j {:trigger table[j]} :: 0 <= j < i ==> table[j] == ShiftN(j as bv32, 8)
    {
      table[i] := FillEntry(i as bv32);
    }
  }

  lemma BackFromInt(x: bv32)
    ensures (x as int) as bv32 == x
  {
  }

  lemma LowByteBelow256(x: bv32)
    ensures (x & 0xFF) as int < 256
  {
    assert x & 0xFF < 256;
  }

  lemma TableLookup(table: seq<bv32>, crc: bv32, b: bv8)
    requires IsTable(table)
    ensures TableIndex(crc, b) as int < 256
    ensures table[TableIndex(crc, b) as int] == ShiftN(TableIndex(crc, b), 8)
  {
    hide ShiftN;
    var i := TableIndex(crc, b);
    LowByteBelow256(Xor(crc, b as bv32));
    BackFromInt(i);
  }

  /** `crc32c`. */
  method Compute(table: array<bv32>, data: bytes, len: int) returns (crc: bv32)
    requires IsTable(table[..])
    requires len <= |data|
    ensures crc as int == Crc(data, len)
  {
    hide Xor, ByteStep, ShiftN, TableIndex;
    crc := 0xFFFFFFFF;
    var i := 0;
    ghost var msg := Octets(if len < 0 then [] else data[..len]);
    assert msg[0..] == msg;
    while i < len
      invariant 0 <= i <= |msg| && Update(crc, msg[i..]) == Update(0xFFFFFFFF, msg)
    {
      var b := data[i] as bv8;
      assert msg[i] == b && msg[i..][1..] == msg[i + 1..];
      TableLookup(table[..], crc, b);
      TableStep(crc, b);
      crc := Xor(table[TableIndex(crc, b) as int], crc >> 8);
      i := i + 1;
    }
    crc := Xor(crc, 0xFFFFFFFF);
  }

  /** The table-driven checksum is the bit-serial one, for every byte string. */
  lemma CrcIsBitSerial(data: bytes)
    ensures Crc(data, |data|) == Reference(data)
  {
    hide Finish, Update, BitSerial;
    assert data[..|data|] == data;
    UpdateIsBitSerial(0xFFFFFFFF, Octets(data));
  }

  lemma OctetsConcat(a: bytes, b: bytes)
    ensures Octets(a + b) == Octets(a) + Octets(b)
  {
  }

  lemma OctetBack(b: int)
    requires 0 <= b < 256
    ensures (b as bv8) as int == b
  {
    assert b % 256 == b;
  }

  lemma OctetsInjective(a: bytes, b: bytes)
    requires Octets(a) == Octets(b)
    ensures a == b
  {
    assert |a| == |Octets(a)| == |Octets(b)| == |b|;
    forall i | 0 <= i < |a|
      ensures a[i] == b[i]
    {
      OctetBack(a[i]);
      OctetBack(b[i]);
      assert Octets(a)[i] == Octets(b)[i];
    }
  }

  lemma FinishInjective(x: bv32, y: bv32)
    requires Finish(x) == Finish(y)
    ensures x == y
  {
    hide Xor;
    BackFromInt(Xor(x, 0xFFFFFFFF));
    BackFromInt(Xor(y, 0xFFFFFFFF));
    XorInjective(x, y, 0xFFFFFFFF);
  }

  /** Any change confined to four consecutive bytes, in particular to one byte, changes the checksum. */
  lemma BurstDetected(pre: bytes, x: bytes, y: bytes, post: bytes)
    requires |x| == |y| <= 4 && x != y
    ensures Crc(pre + x + post, |pre + x + post|) != Crc(pre + y + post, |pre + y + post|)
  {
    hide Update, Octets, Finish;
    var d, e := pre + x + post, pre + y + post;
    assert d[..|d|] == d && e[..|e|] == e;
    if Crc(d, |d|) == Crc(e, |e|) {
      FinishInjective(Update(0xFFFFFFFF, Octets(d)), Update(0xFFFFFFFF, Octets(e)));
      OctetsConcat(pre + x, post);
      OctetsConcat(pre, x);
      OctetsConcat(pre + y, post);
      OctetsConcat(pre, y);
      if Octets(x) == Octets(y) { OctetsInjective(x, y); }
      BurstSeen(0xFFFFFFFF, Octets(pre), Octets(x), Octets(y), Octets(post));
    }
  }

  // ---- The engine's calls: `crc32c(s.data(), static_cast<int>(s.size()))` ----

  /** `static_cast<int>` of a size: its low 32 bits read as a signed number. */
  function AsInt(n: nat): (r: int)
    ensures r <= n
  {
    var m := n % U32;
    if m < 0x8000_0000 then m else m - U32
  }

  function Checksum(data: bytes): (r: nat)
    ensures r < U32
  {
    Crc(data, AsInt(|data|))
  }
}
