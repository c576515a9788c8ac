/** The names of table files: a directory as it was spelled, a level directory, a number (`core/version.cpp`). */
module FileNames {
  import opened Bytes

  const SLASH: byte := 47
  const DOT: byte := 46
  const ZERO: byte := 48

  /** Start of the last path component. */
  function BaseStart(path: bytes): (i: nat)
    ensures i <= |path| && SLASH !in path[i..]
  {
    if |path| == 0 then 0
    else if path[|path| - 1] == SLASH then |path|
    else BaseStart(path[..|path| - 1])
  }

  function FirstDot(base: bytes): (i: nat)
    ensures i <= |base| && DOT !in base[..i]
  {
    if |base| == 0 || base[0] == DOT then 0 else 1 + FirstDot(base[1..])
  }

  predicate AllDigits(s: bytes) {
    forall i :: 0 <= i < |s| ==> ZERO <= s[i] <= ZERO + 9
  }

  function Value(s: bytes): nat
    requires AllDigits(s)
  {
    if |s| == 0 then 0 else Value(s[..|s| - 1]) * 10 + (s[|s| - 1] - ZERO) as nat
  }

  /** The number `addLevelFile` reads out of a path: digits up to the first dot of the last component. */
  function NumberInPath(path: bytes): Option<nat> {
    var base := path[BaseStart(path)..];
    var dot := FirstDot(base);
    if dot < |base| && dot > 0 && AllDigits(base[..dot]) then Some(Value(base[..dot]) % U64) else None
  }

  /** `std::to_string`. */
  function Digits(n: nat): (s: bytes)
    ensures |s| > 0 && AllDigits(s)
  {
    if n < 10 then [ZERO + n as byte] else Digits(n / 10) + [ZERO + (n % 10) as byte]
  }

  lemma {:induction false} ValueOfDigits(n: nat)
    ensures Value(Digits(n)) == n
  {
    if n >= 10 {
      ValueOfDigits(n / 10);
      var s := Digits(n);
      assert s[..|s| - 1] == Digits(n / 10);
    }
  }

  lemma {:induction false} BaseAfterSlash(dir: bytes, base: bytes)
    requires SLASH !in base
    ensures BaseStart(dir + [SLASH] + base) == |dir| + 1
    decreases |base|
  {
    var path := dir + [SLASH] + base;
    if |base| > 0 {
      var n := |base| - 1;
      assert path[..|path| - 1] == dir + [SLASH] + base[..n];
      BaseAfterSlash(dir, base[..n]);
    }
  }

  lemma {:induction false} DotAfter(stem: bytes, rest: bytes)
    requires DOT !in stem
    ensures FirstDot(stem + [DOT] + rest) == |stem|
  {
    if |stem| > 0 {
      assert (stem + [DOT] + rest)[1..] == stem[1..] + [DOT] + rest;
      DotAfter(stem[1..], rest);
    }
  }

  /** A table file named after a reserved number is read back as that number. */
  lemma NumberRoundTrip(dir: bytes, n: nat, suffix: bytes)
    requires n < U64 && SLASH !in suffix
    ensures NumberInPath(dir + [SLASH] + (Digits(n) + [DOT] + suffix)) == Some(n)
  {
    hide Digits, Value, BaseStart, FirstDot;
    var base := Digits(n) + [DOT] + suffix;
    var path := dir + [SLASH] + base;
    BaseAfterSlash(dir, base);
    assert path[|dir| + 1..] == base;
    DotAfter(Digits(n), suffix);
    assert base[..|Digits(n)|] == Digits(n);
    ValueOfDigits(n);
  }

  // ---- Table files ----

  const LEVEL: bytes := [108, 101, 118, 101, 108, 45]
  const SST: bytes := [115, 115, 116]

  function LevelName(level: nat): (b: bytes)
    ensures SLASH !in b
  {
    assert forall x :: x in LEVEL ==> x != SLASH;
    LEVEL + Digits(level)
  }

  function TableName(n: nat): (b: bytes)
    ensures SLASH !in b
  {
    Digits(n) + [DOT] + SST
  }

  /** `level-<i>/<n>.sst`: which file it is, however the database directory is spelled. */
  function TableTail(level: nat, n: nat): bytes {
    LevelName(level) + [SLASH] + TableName(n)
  }

  function TablePath(dir: bytes, level: nat, n: nat): bytes {
    dir + [SLASH] + TableTail(level, n)
  }

  /** The last two components of a path. */
  function Tail(path: bytes): bytes {
    var b := BaseStart(path);
    if b == 0 then path else path[BaseStart(path[..b - 1])..]
  }

  lemma PathParts(dir: bytes, level: nat, n: nat)
    ensures TablePath(dir, level, n) == dir + [SLASH] + LevelName(level) + [SLASH] + TableName(n)
    ensures BaseStart(TablePath(dir, level, n)) == |dir| + 2 + |LevelName(level)|
    ensures BaseStart(dir + [SLASH] + LevelName(level)) == |dir| + 1
  {
    hide BaseStart, LevelName, TableName;
    var front := dir + [SLASH] + LevelName(level);
    Reassociate(dir, LevelName(level), TableName(n));
    BaseAfterSlash(front, TableName(n));
    BaseAfterSlash(dir, LevelName(level));
  }

  lemma Reassociate(dir: bytes, x: bytes, y: bytes)
    ensures dir + [SLASH] + (x + [SLASH] + y) == (dir + [SLASH] + x) + [SLASH] + y
  {
  }

  /** Whatever the directory, the last two components say which file it is. */
  lemma TailOfPath(dir: bytes, level: nat, n: nat)
    ensures Tail(TablePath(dir, level, n)) == TableTail(level, n)
  {
    hide BaseStart, LevelName, TableName;
    PathParts(dir, level, n);
    var path := TablePath(dir, level, n);
    var b := BaseStart(path);
    assert path[..b - 1] == dir + [SLASH] + LevelName(level);
    assert path[|dir| + 1..] == TableTail(level, n);
  }

  /** A path made from a reserved number is read back as that number. */
  lemma NumberOfPath(dir: bytes, level: nat, n: nat)
    requires n < U64
    ensures NumberInPath(TablePath(dir, level, n)) == Some(n)
  {
    hide NumberInPath, LevelName, Digits;
    var front := dir + [SLASH] + LevelName(level);
    NumberRoundTrip(front, n, SST);
    Reassociate(dir, LevelName(level), TableName(n));
  }

  lemma DigitsInjective(a: nat, b: nat)
    requires Digits(a) == Digits(b)
    ensures a == b
  {
    hide Digits, Value;
    ValueOfDigits(a);
    ValueOfDigits(b);
  }

  lemma TailInjective(a: nat, m: nat, b: nat, n: nat)
    requires TableTail(a, m) == TableTail(b, n)
    ensures a == b && m == n
  {
    hide BaseStart, Digits, LevelName, TableName;
    var s, t := TableTail(a, m), TableTail(b, n);
    SlashPosition(a, m);
    SlashPosition(b, n);
    assert s[..|LevelName(a)|] == LevelName(a) && t[..|LevelName(b)|] == LevelName(b);
    assert s[|LevelName(a)| + 1..] == TableName(m) && t[|LevelName(b)| + 1..] == TableName(n);
    NamesInjective(a, b, m, n);
  }

  lemma SlashPosition(level: nat, n: nat)
    ensures BaseStart(TableTail(level, n)) == |LevelName(level)| + 1
  {
    hide BaseStart, LevelName, TableName;
    BaseAfterSlash(LevelName(level), TableName(n));
  }

  lemma NamesInjective(a: nat, b: nat, m: nat, n: nat)
    requires LevelName(a) == LevelName(b) && TableName(m) == TableName(n)
    ensures a == b && m == n
  {
    hide Digits;
    assert LevelName(a)[|LEVEL|..] == Digits(a) && LevelName(b)[|LEVEL|..] == Digits(b);
    assert TableName(m)[..|Digits(m)|] == Digits(m) && |TableName(m)| == |Digits(m)| + 4;
    assert TableName(n)[..|Digits(n)|] == Digits(n) && |TableName(n)| == |Digits(n)| + 4;
    DigitsInjective(a, b);
    DigitsInjective(m, n);
  }

  /** A path tells its directory as spelled, its level and its number. */
  lemma PathInjective(d: bytes, a: nat, m: nat, e: bytes, b: nat, n: nat)
    requires TablePath(d, a, m) == TablePath(e, b, n)
    ensures d == e && a == b && m == n
  {
    hide Tail, TableTail;
    TailOfPath(d, a, m);
    TailOfPath(e, b, n);
    TailInjective(a, m, b, n);
    var p, q := TablePath(d, a, m), TablePath(e, b, n);
    assert p[..|d|] == d && q[..|e|] == e && |d| == |e|;
  }
}
