/** Snapshot-aware compaction (`practice/module08_compaction_mvcc/main.cpp`). */
module MvccCompaction {
  import opened Bytes
  import opened Coding

  const VALUE: byte := 1
  const DELETION: byte := 0

  datatype KvEntry = KvEntry(userKey: bytes, seqNo: nat, typ: byte, value: bytes)

  predicate Wellformed(e: KvEntry) {
    e.seqNo < U64
  }

  // ---- Internal keys: user key, inverted big-endian sequence number, type ----

  function EncodeBE(v: nat, n: nat): (b: bytes)
    ensures |b| == n
    decreases n, v
  {
    if n == 0 then [] else EncodeBE(v / 256, n - 1) + [v % 256]
  }

  function DecodeBE(b: bytes): nat {
    if |b| == 0 then 0 else DecodeBE(b[..|b| - 1]) * 256 + b[|b| - 1]
  }

  lemma {:induction false} DecodeEncodeBE(v: nat, n: nat)
    requires v < Pow256(n)
    ensures DecodeBE(EncodeBE(v, n)) == v
    decreases n
  {
    if n > 0 {
      DecodeEncodeBE(v / 256, n - 1);
      assert EncodeBE(v, n)[..n - 1] == EncodeBE(v / 256, n - 1);
    }
  }

  function EncodeKey(e: KvEntry): (b: bytes)
    requires Wellformed(e)
    ensures |b| == |e.userKey| + 9
  {
    e.userKey + EncodeBE(U64 - 1 - e.seqNo, 8) + [e.typ]
  }

  datatype Key = Key(userKey: bytes, seqNo: int, typ: byte)

  function DecodeKey(b: bytes): Key
    requires |b| >= 9
  {
    Key(b[..|b| - 9], U64 - 1 - DecodeBE(b[|b| - 9..|b| - 1]), b[|b| - 1])
  }

  /** `Decode` inverts `Encode` over the full 64-bit sequence range. */
  lemma KeyRoundTrip(e: KvEntry)
    requires Wellformed(e)
    ensures DecodeKey(EncodeKey(e)) == Key(e.userKey, e.seqNo, e.typ)
  {
    hide EncodeBE, DecodeBE;
    var b := EncodeKey(e);
    Widths();
    DecodeEncodeBE(U64 - 1 - e.seqNo, 8);
    assert b[|b| - 9..|b| - 1] == EncodeBE(U64 - 1 - e.seqNo, 8);
    assert b[..|b| - 9] == e.userKey;
  }

  /** `InternalKey::Compare` on encoded keys. */
  function CompareEncoded(a: bytes, b: bytes): int
    requires |a| >= 9 && |b| >= 9
  {
    var ka, kb := DecodeKey(a), DecodeKey(b);
    if Compare(ka.userKey, kb.userKey) < 0 then -1
    else if Compare(ka.userKey, kb.userKey) > 0 then 1
    else if ka.seqNo > kb.seqNo then -1
    else if ka.seqNo < kb.seqNo then 1
    else if ka.typ < kb.typ then -1
    else if ka.typ > kb.typ then 1
    else 0
  }

  predicate KeyLess(x: KvEntry, y: KvEntry)
    requires Wellformed(x) && Wellformed(y)
  {
    CompareEncoded(EncodeKey(x), EncodeKey(y)) < 0
  }

  /** On encodings the order is: user key up, sequence number down, type up. */
  lemma KeyLessMeans(x: KvEntry, y: KvEntry)
    requires Wellformed(x) && Wellformed(y)
    ensures KeyLess(x, y) <==>
            || Compare(x.userKey, y.userKey) < 0
            || (x.userKey == y.userKey && x.seqNo > y.seqNo)
            || (x.userKey == y.userKey && x.seqNo == y.seqNo && x.typ < y.typ)
  {
    hide EncodeKey, DecodeKey, Compare;
    KeyRoundTrip(x);
    KeyRoundTrip(y);
    CompareZero(x.userKey, y.userKey);
  }

  // ---- Runs ----

  ghost predicate AllWellformed(es: seq<KvEntry>) {
    forall i :: 0 <= i < |es| ==> Wellformed(es[i])
  }

  /** A run in internal-key order. */
  ghost predicate Run(es: seq<KvEntry>) {
    && AllWellformed(es)
    && forall i, j :: 0 <= i < j < |es| ==> !KeyLess(es[j], es[i])
  }

  /** The merge loop: on ties the second run goes first. */
  function Merge(a: seq<KvEntry>, b: seq<KvEntry>): seq<KvEntry>
    requires AllWellformed(a) && AllWellformed(b)
    decreases |a| + |b|
  {
    if |a| == 0 && |b| == 0 then []
    else if |b| == 0 || (|a| > 0 && KeyLess(a[0], b[0])) then [a[0]] + Merge(a[1..], b)
    else [b[0]] + Merge(a, b[1..])
  }

  lemma NotLessTransitive(x: KvEntry, y: KvEntry, z: KvEntry)
    requires Wellformed(x) && Wellformed(y) && Wellformed(z)
    requires !KeyLess(y, x) && !KeyLess(z, y)
    ensures !KeyLess(z, x)
  {
    hide KeyLess, Compare;
    KeyLessMeans(y, x);
    KeyLessMeans(z, y);
    KeyLessMeans(z, x);
    CompareAntisymmetric(x.userKey, y.userKey);
    CompareAntisymmetric(y.userKey, z.userKey);
    CompareAntisymmetric(x.userKey, z.userKey);
    CompareZero(x.userKey, y.userKey);
    CompareZero(y.userKey, z.userKey);
    CompareZero(x.userKey, z.userKey);
    if Compare(x.userKey, y.userKey) <= 0 && Compare(y.userKey, z.userKey) <= 0 {
      CompareTransitive(x.userKey, y.userKey, z.userKey);
    }
  }

  lemma LessAsymmetric(x: KvEntry, y: KvEntry)
    requires Wellformed(x) && Wellformed(y) && KeyLess(x, y)
    ensures !KeyLess(y, x)
  {
    hide KeyLess, Compare;
    KeyLessMeans(x, y);
    KeyLessMeans(y, x);
    CompareAntisymmetric(x.userKey, y.userKey);
    CompareZero(x.userKey, y.userKey);
  }

  /** Everything in `es` comes no earlier than `x`. */
  ghost predicate FloorOf(x: KvEntry, es: seq<KvEntry>)
    requires Wellformed(x) && AllWellformed(es)
  {
    forall i :: 0 <= i < |es| ==> !KeyLess(es[i], x)
  }

  lemma RunTail(es: seq<KvEntry>)
    requires Run(es) && |es| > 0
    ensures Run(es[1..]) && FloorOf(es[0], es[1..])
  {
    hide KeyLess;
  }

  lemma RunCons(x: KvEntry, es: seq<KvEntry>)
    requires Wellformed(x) && Run(es) && FloorOf(x, es)
    ensures Run([x] + es)
  {
    hide KeyLess;
  }

  lemma FloorOfRun(x: KvEntry, es: seq<KvEntry>)
    requires Wellformed(x) && Run(es) && (|es| > 0 ==> !KeyLess(es[0], x))
    ensures FloorOf(x, es)
  {
    hide KeyLess;
    forall i | 0 <= i < |es|
      ensures !KeyLess(es[i], x)
    {
      if i > 0 { NotLessTransitive(x, es[0], es[i]); }
    }
  }

  /** Merging runs gives a run. */
  lemma {:induction false} MergeIsRun(a: seq<KvEntry>, b: seq<KvEntry>)
    requires Run(a) && Run(b)
    ensures Run(Merge(a, b))
    ensures forall x :: Wellformed(x) && FloorOf(x, a) && FloorOf(x, b) ==> FloorOf(x, Merge(a, b))
    decreases |a| + |b|
  {
    hide KeyLess;
    if |a| == 0 && |b| == 0 {
    } else if |b| == 0 || (|a| > 0 && KeyLess(a[0], b[0])) {
      RunTail(a);
      if |b| > 0 { LessAsymmetric(a[0], b[0]); }
      FloorOfRun(a[0], b);
      MergeIsRun(a[1..], b);
      RunCons(a[0], Merge(a[1..], b));
      MergedFloors(a, b, a[0], a[1..], b);
    } else {
      RunTail(b);
      FloorOfRun(b[0], a);
      MergeIsRun(a, b[1..]);
      RunCons(b[0], Merge(a, b[1..]));
      MergedFloors(a, b, b[0], a, b[1..]);
    }
  }

  lemma MergedFloors(a: seq<KvEntry>, b: seq<KvEntry>, first: KvEntry, a': seq<KvEntry>, b': seq<KvEntry>)
    requires AllWellformed(a) && AllWellformed(b) && AllWellformed(a') && AllWellformed(b') && Wellformed(first)
    requires || (|a| > 0 && first == a[0] && a' == a[1..] && b' == b)
             || (|b| > 0 && first == b[0] && a' == a && b' == b[1..])
    requires Run(Merge(a', b'))
    requires forall x :: Wellformed(x) && FloorOf(x, a') && FloorOf(x, b') ==> FloorOf(x, Merge(a', b'))
    ensures AllWellformed([first] + Merge(a', b'))
    ensures forall x :: Wellformed(x) && FloorOf(x, a) && FloorOf(x, b) ==> FloorOf(x, [first] + Merge(a', b'))
  {
    hide KeyLess, Merge;
    forall x | Wellformed(x) && FloorOf(x, a) && FloorOf(x, b)
      ensures FloorOf(x, [first] + Merge(a', b'))
    {
      assert FloorOf(x, a') && FloorOf(x, b');
      assert FloorOf(x, Merge(a', b'));
    }
  }

  // ---- Snapshot reads ----

  /** The version `Get` settles on: highest sequence number at or below the snapshot, the first one on ties. */
  function BestAt(es: seq<KvEntry>, k: bytes, snapshot: nat): (r: Option<KvEntry>)
    ensures r.Some? ==> r.value in es && r.value.userKey == k && r.value.seqNo <= snapshot
  {
    if |es| == 0 then None
    else Better(if es[0].userKey == k && es[0].seqNo <= snapshot then Some(es[0]) else None,
                BestAt(es[1..], k, snapshot))
  }

  function Better(a: Option<KvEntry>, b: Option<KvEntry>): Option<KvEntry> {
    if a.None? then b else if b.None? then a else if b.value.seqNo > a.value.seqNo then b else a
  }

  function Shown(e: Option<KvEntry>): Option<bytes> {
    if e.None? || e.value.typ == DELETION then None else Some(e.value.value)
  }

  function ReadAt(es: seq<KvEntry>, k: bytes, snapshot: nat): Option<bytes> {
    Shown(BestAt(es, k, snapshot))
  }

  lemma {:induction false} BestConcat(a: seq<KvEntry>, b: seq<KvEntry>, k: bytes, s: nat)
    ensures BestAt(a + b, k, s) == Better(BestAt(a, k, s), BestAt(b, k, s))
  {
    if |a| == 0 {
      assert a + b == b;
    } else {
      assert (a + b)[1..] == a[1..] + b;
      BestConcat(a[1..], b, k, s);
    }
  }

  lemma {:induction false} NoVersion(es: seq<KvEntry>, k: bytes, s: nat)
    requires forall i :: 0 <= i < |es| ==> es[i].userKey != k
    ensures BestAt(es, k, s) == None
  {
    if |es| > 0 { NoVersion(es[1..], k, s); }
  }

  // ---- One group of versions ----

  /** The versions of one user key, newest first. */
  ghost predicate Group(g: seq<KvEntry>, k: bytes) {
    && (forall i :: 0 <= i < |g| ==> g[i].userKey == k)
    && (forall i, j :: 0 <= i < j < |g| ==> g[i].seqNo >= g[j].seqNo)
  }

  /** The filter loop: everything at or above the line, and the newest version below it. */
  function KeepIn(g: seq<KvEntry>, line: nat, keptBelow: bool): seq<KvEntry>
    decreases |g|
  {
    if |g| == 0 then []
    else if g[0].seqNo >= line then [g[0]] + KeepIn(g[1..], line, keptBelow)
    else if !keptBelow then [g[0]] + KeepIn(g[1..], line, true)
    else KeepIn(g[1..], line, keptBelow)
  }

  predicate LoneTombstone(keep: seq<KvEntry>, line: nat) {
    |keep| == 1 && keep[0].typ == DELETION && keep[0].seqNo < line
  }

  function KeptGroup(g: seq<KvEntry>, line: nat): seq<KvEntry> {
    var keep := KeepIn(g, line, false);
    if LoneTombstone(keep, line) then [] else keep
  }

  lemma {:induction false} KeepInMembers(g: seq<KvEntry>, line: nat, keptBelow: bool)
    ensures forall e :: e in KeepIn(g, line, keptBelow) ==> e in g
    decreases |g|
  {
    if |g| > 0 {
      assert g == [g[0]] + g[1..];
      KeepInMembers(g[1..], line, keptBelow || g[0].seqNo < line);
    }
  }

  /** Below the line nothing but the first version matters to a snapshot that sees all versions there. */
  lemma {:induction false} KeepInReads(g: seq<KvEntry>, k: bytes, line: nat, s: nat, keptBelow: bool)
    requires Group(g, k) && s + 1 >= line
    ensures !keptBelow ==> BestAt(KeepIn(g, line, keptBelow), k, s) == BestAt(g, k, s)
    ensures keptBelow && (forall i :: 0 <= i < |g| ==> g[i].seqNo < line) ==> KeepIn(g, line, keptBelow) == []
    decreases |g|
  {
    if |g| > 0 {
      assert Group(g[1..], k);
      KeepInReads(g[1..], k, line, s, keptBelow || g[0].seqNo < line);
      if g[0].seqNo < line {
        assert forall i :: 0 <= i < |g[1..]| ==> g[1..][i].seqNo < line;
        BestOfDescending(g, k, s);
        if !keptBelow { BestOfDescending([g[0]], k, s); assert KeepIn(g, line, keptBelow) == [g[0]]; }
      } else {
        assert ([g[0]] + KeepIn(g[1..], line, keptBelow))[1..] == KeepIn(g[1..], line, keptBelow);
      }
    }
  }

  /** In a group whose first version is visible, that version is the one read. */
  lemma BestOfDescending(g: seq<KvEntry>, k: bytes, s: nat)
    requires Group(g, k) && |g| > 0 && g[0].seqNo <= s
    ensures BestAt(g, k, s) == Some(g[0])
  {
    var rest := BestAt(g[1..], k, s);
    if rest.Some? {
      var i :| 0 <= i < |g[1..]| && g[1..][i] == rest.value;
      assert g[i + 1] == rest.value;
    }
  }

  lemma KeptGroupReads(g: seq<KvEntry>, k: bytes, line: nat, s: nat)
    requires Group(g, k) && s + 1 >= line
    ensures Shown(BestAt(KeptGroup(g, line), k, s)) == Shown(BestAt(g, k, s))
  {
    hide KeepIn;
    var keep := KeepIn(g, line, false);
    KeepInReads(g, k, line, s, false);
    if LoneTombstone(keep, line) {
      KeepInMembers(g, line, false);
      assert keep[0] in g;
      assert keep[1..] == [];
      assert BestAt(keep, k, s) == Some(keep[0]);
    }
  }

  // ---- All groups ----

  /** How many leading entries share the first one's user key. */
  function Span(es: seq<KvEntry>): (n: nat)
    requires |es| > 0
    ensures 1 <= n <= |es|
    ensures forall i :: 0 <= i < n ==> es[i].userKey == es[0].userKey
    ensures n < |es| ==> es[n].userKey != es[0].userKey
  {
    if |es| == 1 || es[1].userKey != es[0].userKey then 1
    else
      var n := Span(es[1..]);
      assert forall i :: 1 <= i < n + 1 ==> es[i] == es[1..][i - 1];
      n + 1
  }

  /** The grouping loop over the merged run. */
  function Compact(es: seq<KvEntry>, line: nat): seq<KvEntry>
    decreases |es|
  {
    if |es| == 0 then [] else KeptGroup(es[..Span(es)], line) + Compact(es[Span(es)..], line)
  }

  lemma RunDescends(es: seq<KvEntry>, p: nat, q: nat)
    requires Run(es) && p < q < |es|
    ensures Compare(es[p].userKey, es[q].userKey) <= 0
    ensures es[p].userKey == es[q].userKey ==> es[p].seqNo >= es[q].seqNo
  {
    hide KeyLess, Compare;
    KeyLessMeans(es[q], es[p]);
    CompareAntisymmetric(es[p].userKey, es[q].userKey);
  }

  lemma FirstGroup(es: seq<KvEntry>)
    requires Run(es) && |es| > 0
    ensures Group(es[..Span(es)], es[0].userKey) && Run(es[Span(es)..])
  {
    hide KeyLess, Compare, Run, Span;
    var n := Span(es);
    forall p, q | 0 <= p < q < n
      ensures es[p].seqNo >= es[q].seqNo
    {
      RunDescends(es, p, q);
    }
    RunSuffix(es, n);
  }

  lemma RunSuffix(es: seq<KvEntry>, n: nat)
    requires Run(es) && n <= |es|
    ensures Run(es[n..])
  {
    hide KeyLess;
  }

  lemma RestIsLarger(es: seq<KvEntry>, i: nat)
    requires Run(es) && |es| > 0 && Span(es) <= i < |es|
    ensures Compare(es[0].userKey, es[i].userKey) < 0
  {
    hide KeyLess, Compare, Run, Span;
    var n := Span(es);
    RunDescends(es, 0, n);
    CompareZero(es[0].userKey, es[n].userKey);
    if n < i {
      RunDescends(es, n, i);
      CompareTransitive(es[0].userKey, es[n].userKey, es[i].userKey);
    }
  }

  lemma {:induction false} CompactMembers(es: seq<KvEntry>, line: nat)
    ensures forall e :: e in Compact(es, line) ==> e in es
    decreases |es|
  {
    hide KeptGroup, Span;
    if |es| > 0 {
      var n := Span(es);
      KeptGroupMembers(es[..n], line);
      CompactMembers(es[n..], line);
      assert es == es[..n] + es[n..];
    }
  }

  lemma KeptGroupMembers(g: seq<KvEntry>, line: nat)
    ensures forall e :: e in KeptGroup(g, line) ==> e in g
  {
    KeepInMembers(g, line, false);
  }

  /** Every read at a snapshot at, above or just below the line is the same after compaction. */
  lemma {:induction false} CompactReads(es: seq<KvEntry>, k: bytes, line: nat, s: nat)
    requires Run(es) && s + 1 >= line
    ensures ReadAt(Compact(es, line), k, s) == ReadAt(es, k, s)
    decreases |es|
  {
    hide KeptGroup, Span, KeyLess, Compare, BestAt;
    if |es| > 0 {
      var n := Span(es);
      var g, rest := es[..n], es[n..];
      forall i | 0 <= i < |rest|
        ensures rest[i].userKey != es[0].userKey
      {
        RestIsLarger(es, n + i);
        CompareZero(es[0].userKey, rest[i].userKey);
      }
      FirstGroup(es);
      assert es == g + rest;
      BestConcat(g, rest, k, s);
      BestConcat(KeptGroup(g, line), Compact(rest, line), k, s);
      KeptGroupMembers(g, line);
      CompactMembers(rest, line);
      if k == es[0].userKey {
        NoVersion(rest, k, s);
        NoVersionLeft(Compact(rest, line), rest, k, s);
        KeptGroupReads(g, k, line, s);
      } else {
        NoVersion(g, k, s);
        NoVersionLeft(KeptGroup(g, line), g, k, s);
        CompactReads(rest, k, line, s);
      }
    }
  }

  lemma NoVersionLeft(es: seq<KvEntry>, from: seq<KvEntry>, k: bytes, s: nat)
    requires forall e :: e in es ==> e in from
    requires forall i :: 0 <= i < |from| ==> from[i].userKey != k
    ensures BestAt(es, k, s) == None
  {
    hide BestAt;
    forall i | 0 <= i < |es|
      ensures es[i].userKey != k
    {
      assert es[i] in from;
    }
    NoVersion(es, k, s);
  }

  // ---- The output is again a run ----

  predicate Subsequence(a: seq<KvEntry>, b: seq<KvEntry>)
    decreases |b|
  {
    if |a| == 0 then true
    else |b| > 0 && ((a[0] == b[0] && Subsequence(a[1..], b[1..])) || Subsequence(a, b[1..]))
  }

  lemma {:induction false} SubsequenceMembers(a: seq<KvEntry>, b: seq<KvEntry>)
    requires Subsequence(a, b)
    ensures forall e :: e in a ==> e in b
    decreases |b|
  {
    if |a| > 0 {
      assert b == [b[0]] + b[1..] && a == [a[0]] + a[1..];
      if a[0] == b[0] && Subsequence(a[1..], b[1..]) { SubsequenceMembers(a[1..], b[1..]); }
      else { SubsequenceMembers(a, b[1..]); }
    }
  }

  lemma {:induction false} SubsequenceIsRun(a: seq<KvEntry>, b: seq<KvEntry>)
    requires Subsequence(a, b) && Run(b)
    ensures Run(a)
    decreases |b|
  {
    hide KeyLess;
    if |a| > 0 {
      RunTail(b);
      if a[0] == b[0] && Subsequence(a[1..], b[1..]) {
        SubsequenceIsRun(a[1..], b[1..]);
        SubsequenceMembers(a[1..], b[1..]);
        FloorOfMembers(a[0], a[1..], b[1..]);
        RunCons(a[0], a[1..]);
        assert a == [a[0]] + a[1..];
      } else {
        SubsequenceIsRun(a, b[1..]);
      }
    }
  }

  lemma FloorOfMembers(x: KvEntry, a: seq<KvEntry>, b: seq<KvEntry>)
    requires Wellformed(x) && AllWellformed(a) && AllWellformed(b) && FloorOf(x, b)
    requires forall e :: e in a ==> e in b
    ensures FloorOf(x, a)
  {
    hide KeyLess;
    forall i | 0 <= i < |a|
      ensures !KeyLess(a[i], x)
    {
      assert a[i] in b;
    }
  }

  lemma {:induction false} SubsequenceConcat(a: seq<KvEntry>, b: seq<KvEntry>, c: seq<KvEntry>, d: seq<KvEntry>)
    requires Subsequence(a, b) && Subsequence(c, d)
    ensures Subsequence(a + c, b + d)
    decreases |b|
  {
    if |b| == 0 {
      assert a + c == c && b + d == d;
    } else {
      assert (b + d)[1..] == b[1..] + d;
      if |a| > 0 && a[0] == b[0] && Subsequence(a[1..], b[1..]) {
        SubsequenceConcat(a[1..], b[1..], c, d);
        assert (a + c)[1..] == a[1..] + c;
      } else {
        SubsequenceConcat(a, b[1..], c, d);
      }
    }
  }

  lemma {:induction false} KeepInSubsequence(g: seq<KvEntry>, line: nat, keptBelow: bool)
    ensures Subsequence(KeepIn(g, line, keptBelow), g)
    decreases |g|
  {
    if |g| > 0 {
      KeepInSubsequence(g[1..], line, keptBelow || g[0].seqNo < line);
      var rest := KeepIn(g[1..], line, keptBelow || g[0].seqNo < line);
      assert ([g[0]] + rest)[1..] == rest;
    }
  }

  lemma {:induction false} CompactSubsequence(es: seq<KvEntry>, line: nat)
    ensures Subsequence(Compact(es, line), es)
    decreases |es|
  {
    hide KeepIn, Span;
    if |es| > 0 {
      var n := Span(es);
      KeepInSubsequence(es[..n], line, false);
      CompactSubsequence(es[n..], line);
      SubsequenceConcat(KeptGroup(es[..n], line), es[..n], Compact(es[n..], line), es[n..]);
      assert es == es[..n] + es[n..];
    }
  }

  // ---- Two runs ----

  /** No version number of a key occurs in both runs. */
  ghost predicate DistinctAcross(a: seq<KvEntry>, b: seq<KvEntry>) {
    forall x, y :: x in a && y in b && x.userKey == y.userKey ==> x.seqNo != y.seqNo
  }

  function Candidate(e: KvEntry, k: bytes, s: nat): Option<KvEntry> {
    if e.userKey == k && e.seqNo <= s then Some(e) else None
  }

  lemma BestCons(e: KvEntry, es: seq<KvEntry>, k: bytes, s: nat)
    ensures BestAt([e] + es, k, s) == Better(Candidate(e, k, s), BestAt(es, k, s))
  {
    assert ([e] + es)[1..] == es;
  }

  lemma BetterMoves(h: Option<KvEntry>, x: Option<KvEntry>, y: Option<KvEntry>)
    ensures Better(h, Better(x, y)) == Better(Better(h, x), y)
    ensures h.None? || x.None? || h.value.seqNo != x.value.seqNo ==> Better(h, Better(x, y)) == Better(x, Better(h, y))
  {
  }

  lemma MergeLeft(a: seq<KvEntry>, b: seq<KvEntry>)
    requires AllWellformed(a) && AllWellformed(b) && |a| > 0 && (|b| == 0 || KeyLess(a[0], b[0]))
    ensures AllWellformed(a[1..]) && Merge(a, b) == [a[0]] + Merge(a[1..], b)
  {
    hide KeyLess;
  }

  lemma MergeRight(a: seq<KvEntry>, b: seq<KvEntry>)
    requires AllWellformed(a) && AllWellformed(b) && |b| > 0 && (|a| == 0 || !KeyLess(a[0], b[0]))
    ensures AllWellformed(b[1..]) && Merge(a, b) == [b[0]] + Merge(a, b[1..])
  {
    hide KeyLess;
  }

  lemma TailsDistinct(a: seq<KvEntry>, b: seq<KvEntry>)
    requires DistinctAcross(a, b)
    ensures |a| > 0 ==> DistinctAcross(a[1..], b)
    ensures |b| > 0 ==> DistinctAcross(a, b[1..])
  {
    if |a| > 0 { assert forall x :: x in a[1..] ==> x in a; }
    if |b| > 0 { assert forall x :: x in b[1..] ==> x in b; }
  }

  lemma {:induction false} MergeBest(a: seq<KvEntry>, b: seq<KvEntry>, k: bytes, s: nat)
    requires AllWellformed(a) && AllWellformed(b) && DistinctAcross(a, b)
    ensures BestAt(Merge(a, b), k, s) == Better(BestAt(a, k, s), BestAt(b, k, s))
    decreases |a| + |b|
  {
    hide KeyLess, BestAt, Better, Merge, DistinctAcross;
    if |a| == 0 && |b| == 0 {
      BestOfNothing(a, b, k, s);
    } else if |b| == 0 || (|a| > 0 && KeyLess(a[0], b[0])) {
      MergeLeft(a, b);
      TailsDistinct(a, b);
      MergeBest(a[1..], b, k, s);
      BestCons(a[0], Merge(a[1..], b), k, s);
      BestCons(a[0], a[1..], k, s);
      assert a == [a[0]] + a[1..];
      BetterMoves(Candidate(a[0], k, s), BestAt(a[1..], k, s), BestAt(b, k, s));
    } else {
      HeadDiffers(a, b, k, s);
      MergeRight(a, b);
      TailsDistinct(a, b);
      MergeBest(a, b[1..], k, s);
      BestCons(b[0], Merge(a, b[1..]), k, s);
      BestCons(b[0], b[1..], k, s);
      assert b == [b[0]] + b[1..];
      BetterMoves(Candidate(b[0], k, s), BestAt(a, k, s), BestAt(b[1..], k, s));
    }
  }

  lemma BestOfNothing(a: seq<KvEntry>, b: seq<KvEntry>, k: bytes, s: nat)
    requires |a| == 0 && |b| == 0
    ensures BestAt(Merge(a, b), k, s) == Better(BestAt(a, k, s), BestAt(b, k, s))
  {
  }

  lemma HeadDiffers(a: seq<KvEntry>, b: seq<KvEntry>, k: bytes, s: nat)
    requires DistinctAcross(a, b) && |b| > 0
    ensures var h, x := Candidate(b[0], k, s), BestAt(a, k, s);
            h.None? || x.None? || h.value.seqNo != x.value.seqNo
  {
    hide BestAt;
    assert b[0] in b;
  }

  /** `CompactMerge`. */
  function CompactMerge(a: seq<KvEntry>, b: seq<KvEntry>, line: nat): seq<KvEntry>
    requires AllWellformed(a) && AllWellformed(b)
  {
    Compact(Merge(a, b), line)
  }

  /**
   Compaction of two runs is a run again, and every snapshot that sees all versions below the line reads the same
   before and after, lone old tombstones included.
   */
  lemma SnapshotsSurvive(a: seq<KvEntry>, b: seq<KvEntry>, line: nat, k: bytes, s: nat)
    requires Run(a) && Run(b) && DistinctAcross(a, b) && s + 1 >= line
    ensures AllWellformed(a) && AllWellformed(b) && Run(CompactMerge(a, b, line))
    ensures ReadAt(CompactMerge(a, b, line), k, s) == ReadAt(a + b, k, s)
  {
    hide KeyLess, BestAt, Merge, Compact, Run, AllWellformed;
    RunWellformed(a);
    RunWellformed(b);
    MergeIsRun(a, b);
    CompactSubsequence(Merge(a, b), line);
    SubsequenceIsRun(Compact(Merge(a, b), line), Merge(a, b));
    CompactReads(Merge(a, b), k, line, s);
    MergeBest(a, b, k, s);
    BestConcat(a, b, k, s);
  }

  lemma RunWellformed(es: seq<KvEntry>)
    requires Run(es)
    ensures AllWellformed(es)
  {
  }

  /** Two versions of a key, just above and at a snapshot. */
  function TwoVersions(k: bytes, s: nat, value: bytes): seq<KvEntry> {
    [KvEntry(k, s + 1, VALUE, value), KvEntry(k, s, VALUE, value)]
  }

  lemma TwoVersionsRun(k: bytes, s: nat, value: bytes)
    requires s + 1 < U64
    ensures Run(TwoVersions(k, s, value)) && AllWellformed(TwoVersions(k, s, value))
    ensures Merge(TwoVersions(k, s, value), []) == TwoVersions(k, s, value)
  {
    hide KeyLess;
    var a := TwoVersions(k, s, value);
    KeyLessMeans(a[1], a[0]);
    assert Compare(k, k) == 0 by { CompareZero(k, k); }
    assert a[1..] == [a[1]] && a[1..][1..] == [];
    assert Merge(a[1..][1..], []) == [];
    assert Merge(a[1..], []) == a[1..];
  }

  lemma TwoVersionsKept(k: bytes, s: nat, value: bytes, line: nat)
    requires s + 1 < line
    ensures Compact(TwoVersions(k, s, value), line) == [KvEntry(k, s + 1, VALUE, value)]
  {
    var a := TwoVersions(k, s, value);
    assert a[1..] == [a[1]] && a[1..][1..] == [];
    assert Span(a[1..]) == 1 && Span(a) == 2;
    assert a[..2] == a && a[2..] == [];
    assert KeepIn(a[1..], line, true) == [];
    assert KeepIn(a, line, false) == [a[0]];
  }

  /**
   Further below the line history is really dropped: at every snapshot there, for every key and value, two versions
   read as the older one before and as nothing after.
   */
  lemma OldSnapshotsMayNot(k: bytes, s: nat, value: bytes, line: nat)
    requires s + 1 < line < U64
    ensures var a := TwoVersions(k, s, value);
            && Run(a) && AllWellformed(a) && Run([]) && DistinctAcross(a, [])
            && ReadAt(a + [], k, s) == Some(value) && ReadAt(CompactMerge(a, [], line), k, s) == None
  {
    hide KeyLess, Compact, Merge;
    var a := TwoVersions(k, s, value);
    TwoVersionsRun(k, s, value);
    TwoVersionsKept(k, s, value, line);
    assert a + [] == a && a[1..] == [a[1]] && a[1..][1..] == [];
    assert BestAt(a[1..], k, s) == Some(a[1]);
    assert [a[0]][1..] == [];
  }

  /** The read of `k` at `s` is the same before and after these two runs are compacted. */
  ghost predicate ReadSurvives(a: seq<KvEntry>, b: seq<KvEntry>, line: nat, k: bytes, s: nat) {
    Run(a) && Run(b) && DistinctAcross(a, b) ==>
      AllWellformed(a) && AllWellformed(b) && ReadAt(CompactMerge(a, b, line), k, s) == ReadAt(a + b, k, s)
  }

  /** All reads at a snapshot survive all compactions if and only if the snapshot is at most one below the line. */
  lemma SnapshotsSurviveIff(line: nat, s: nat)
    requires line < U64
    ensures (forall a, b, k :: ReadSurvives(a, b, line, k, s)) <==> s + 1 >= line
  {
    hide KeyLess, Compact, Merge, Run, ReadAt, AllWellformed, DistinctAcross;
    if s + 1 >= line {
      forall a, b, k ensures ReadSurvives(a, b, line, k, s) {
        if Run(a) && Run(b) && DistinctAcross(a, b) { SnapshotsSurvive(a, b, line, k, s); }
      }
    } else {
      OldSnapshotsMayNot([], s, [], line);
      assert !ReadSurvives(TwoVersions([], s, []), [], line, [], s);
    }
  }

  // ---- The code ----

  method MergeRuns(a: seq<KvEntry>, b: seq<KvEntry>) returns (merged: seq<KvEntry>)
    requires AllWellformed(a) && AllWellformed(b)
    ensures merged == Merge(a, b)
  {
    hide KeyLess, Merge;
    merged := [];
    var i, j := 0, 0;
    assert a[0..] == a && b[0..] == b;
    while i < |a| || j < |b|
      invariant 0 <= i <= |a| && 0 <= j <= |b|
      invariant merged + Merge(a[i..], b[j..]) == Merge(a, b)
      decreases |a| - i + |b| - j
    {
      if j >= |b| || (i < |a| && KeyLess(a[i], b[j])) {
        MergeLeft(a[i..], b[j..]);
        assert a[i..][1..] == a[i + 1..];
        merged := merged + [a[i]];
        i := i + 1;
      } else {
        MergeRight(a[i..], b[j..]);
        assert b[j..][1..] == b[j + 1..];
        merged := merged + [b[j]];
        j := j + 1;
      }
    }
    MergeEnd(a[i..], b[j..]);
  }

  lemma MergeEnd(a: seq<KvEntry>, b: seq<KvEntry>)
    requires |a| == 0 && |b| == 0
    ensures Merge(a, b) == []
  {
  }

  /** The inner loop over one group. */
  method FilterGroup(g: seq<KvEntry>, line: nat) returns (keep: seq<KvEntry>)
    ensures keep == KeptGroup(g, line)
  {
    keep := [];
    var keptBelow := false;
    assert g[0..] == g;
    for n := 0 to |g|
      invariant keep + KeepIn(g[n..], line, keptBelow) == KeepIn(g, line, false)
    {
      assert g[n..][1..] == g[n + 1..];
      if g[n].seqNo >= line {
        keep := keep + [g[n]];
      } else if !keptBelow {
        keep := keep + [g[n]];
        keptBelow := true;
      }
    }
    if |keep| == 1 && keep[0].typ == DELETION && keep[0].seqNo < line { keep := []; }
  }

  lemma SpanIs(es: seq<KvEntry>, n: nat)
    requires 1 <= n <= |es|
    requires forall i :: 0 <= i < n ==> es[i].userKey == es[0].userKey
    requires n < |es| ==> es[n].userKey != es[0].userKey
    ensures Span(es) == n
  {
    hide Span;
    assert !(Span(es) < n) && !(n < Span(es));
  }

  lemma CompactStep(es: seq<KvEntry>, line: nat)
    requires |es| > 0
    ensures Compact(es, line) == KeptGroup(es[..Span(es)], line) + Compact(es[Span(es)..], line)
  {
    hide KeptGroup, Span;
  }

  lemma CompactEnd(es: seq<KvEntry>, line: nat)
    requires |es| == 0
    ensures Compact(es, line) == []
  {
  }

  method CompactRuns(a: seq<KvEntry>, b: seq<KvEntry>, line: nat) returns (out: seq<KvEntry>)
    requires AllWellformed(a) && AllWellformed(b)
    ensures out == CompactMerge(a, b, line)
  {
    hide KeptGroup, Span, Merge, Compact, AllWellformed;
    var merged := MergeRuns(a, b);
    out := [];
    var idx := 0;
    assert merged[0..] == merged;
    while idx < |merged|
      invariant 0 <= idx <= |merged| && out + Compact(merged[idx..], line) == Compact(merged, line)
    {
      var start := idx;
      idx := idx + 1;
      while idx < |merged| && merged[idx].userKey == merged[start].userKey
        invariant start < idx <= |merged|
        invariant forall i :: start <= i < idx ==> merged[i].userKey == merged[start].userKey
      {
        idx := idx + 1;
      }
      SpanIs(merged[start..], idx - start);
      assert merged[start..][..idx - start] == merged[start..idx] && merged[start..][idx - start..] == merged[idx..];
      CompactStep(merged[start..], line);
      var keep := FilterGroup(merged[start..idx], line);
      out := out + keep;
    }
    CompactEnd(merged[idx..], line);
  }

  datatype Version = Version(seqNo: nat, value: bytes, deleted: bool)

  /** The versions a store holds for `k` after the entries were put or deleted in order. */
  function VersionsOf(es: seq<KvEntry>, k: bytes): seq<Version> {
    if |es| == 0 then []
    else
      var n := |es| - 1;
      VersionsOf(es[..n], k) + if es[n].userKey == k then [VersionOf(es[n])] else []
  }

  function VersionOf(e: KvEntry): Version {
    Version(e.seqNo, if e.typ == DELETION then [] else e.value, e.typ == DELETION)
  }

  class MvccStore {
    var versions: map<bytes, seq<Version>>
    ghost var log: seq<KvEntry>

    ghost predicate Valid()
      reads this
    {
      forall k :: (if k in versions then versions[k] else []) == VersionsOf(log, k)
    }

    constructor ()
      ensures Valid() && log == []
    {
      versions, log := map[], [];
    }

    /** `Put` and `Delete`. */
    method Write(key: bytes, seqNo: nat, value: bytes, deleted: bool)
      requires Valid()
      modifies this
      ensures Valid() && log == old(log) + [KvEntry(key, seqNo, if deleted then DELETION else VALUE, value)]
    {
      ghost var e := KvEntry(key, seqNo, if deleted then DELETION else VALUE, value);
      var v := Version(seqNo, if deleted then [] else value, deleted);
      assert forall k :: VersionsOf(log + [e], k) == VersionsOf(log, k) + if k == key then [v] else [] by {
        assert (log + [e])[..|log|] == log;
      }
      versions := versions[key := (if key in versions then versions[key] else []) + [v]];
      log := log + [e];
    }

    /** `Get`: the loop keeps the best version seen so far. */
    method Get(key: bytes, snapshot: nat) returns (r: Option<bytes>)
      requires Valid()
      ensures r == ReadAt(log, key, snapshot)
    {
      hide ReadAt, BestAt;
      var vs := if key in versions then versions[key] else [];
      var best: Option<Version> := None;
      assert vs[..0] == [];
      for n := 0 to |vs|
        invariant best == BestVersion(vs[..n], snapshot)
      {
        assert vs[..n + 1][..n] == vs[..n];
        if vs[n].seqNo <= snapshot && (best.None? || vs[n].seqNo > best.value.seqNo) { best := Some(vs[n]); }
      }
      assert vs[..|vs|] == vs;
      BestVersionReads(log, key, snapshot);
      return if best.None? || best.value.deleted then None else Some(best.value.value);
    }
  }

  /** What the loop of `Get` holds after reading `vs`. */
  function BestVersion(vs: seq<Version>, snapshot: nat): Option<Version> {
    if |vs| == 0 then None
    else
      var best, v := BestVersion(vs[..|vs| - 1], snapshot), vs[|vs| - 1];
      if v.seqNo <= snapshot && (best.None? || v.seqNo > best.value.seqNo) then Some(v) else best
  }

  /** A store answers like a search of everything written to it. */
  lemma {:induction false} BestVersionReads(es: seq<KvEntry>, k: bytes, s: nat)
    ensures var best := BestVersion(VersionsOf(es, k), s);
            best == (match BestAt(es, k, s) case None => None case Some(e) => Some(VersionOf(e)))
    ensures var best := BestVersion(VersionsOf(es, k), s);
            ReadAt(es, k, s) == if best.None? || best.value.deleted then None else Some(best.value.value)
  {
    if |es| > 0 {
      var n := |es| - 1;
      var e, before := es[n], VersionsOf(es[..n], k);
      BestVersionReads(es[..n], k, s);
      BestConcat(es[..n], [e], k, s);
      assert es == es[..n] + [e] && [e][1..] == [];
      assert (before + [VersionOf(e)])[..|before|] == before;
      assert before + [] == before;
    }
  }
}
