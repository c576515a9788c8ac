/** The roster of table files per level and the edit log that records it (`minikv/src/core/manifest.cpp`). */
module ManifestLog {
  import opened Bytes
  import opened Coding
  import opened Wal

  datatype Meta = Meta(path: bytes, fileNo: nat)

  type Levels = seq<seq<Meta>>

  const RESET: byte := 0
  const ADD: byte := 1
  const DEL: byte := 2

  datatype Edit = Edit(kind: byte, level: nat, path: bytes, fileNo: nat)

  /** `assign(8, {})`. */
  function NoFiles(): (l: Levels)
    ensures |l| == 8 && forall i :: 0 <= i < 8 ==> l[i] == []
  {
    seq(8, _ => [])
  }

  /** The files of a level; levels past the end hold none. */
  function FilesAt(l: Levels, i: nat): seq<Meta> {
    if i < |l| then l[i] else []
  }

  /** The same files in the same order, up to trailing empty levels. */
  ghost predicate SameRoster(a: Levels, b: Levels) {
    forall i: nat :: FilesAt(a, i) == FilesAt(b, i)
  }

  /** `resize(n)` when the vector is shorter. */
  function Grown(l: Levels, n: nat): (r: Levels)
    ensures |r| == if |l| < n then n else |l|
    ensures forall i: nat :: FilesAt(r, i) == FilesAt(l, i)
  {
    if |l| < n then l + seq(n - |l|, _ => []) else l
  }

  /** `remove_if` by path. */
  function WithoutPath(files: seq<Meta>, path: bytes): seq<Meta> {
    if |files| == 0 then []
    else if files[0].path == path then WithoutPath(files[1..], path)
    else [files[0]] + WithoutPath(files[1..], path)
  }

  function AddFile(l: Levels, level: nat, m: Meta): (r: Levels)
    ensures forall i: nat :: FilesAt(r, i) == if i == level then FilesAt(l, i) + [m] else FilesAt(l, i)
  {
    var g := Grown(l, level + 1);
    assert FilesAt(g, level) == g[level];
    g[level := g[level] + [m]]
  }

  function RemoveFile(l: Levels, level: nat, path: bytes): (r: Levels)
    ensures forall i: nat :: FilesAt(r, i) == if i == level then WithoutPath(FilesAt(l, i), path) else FilesAt(l, i)
  {
    if level < |l| then l[level := WithoutPath(l[level], path)] else l
  }

  function ApplyEdit(l: Levels, e: Edit): Levels {
    if e.kind == RESET then NoFiles()
    else if e.kind == ADD then AddFile(l, e.level, Meta(e.path, e.fileNo))
    else RemoveFile(Grown(l, e.level + 1), e.level, e.path)
  }

  function Fold(l: Levels, edits: seq<Edit>): Levels
    decreases |edits|
  {
    if |edits| == 0 then l else ApplyEdit(Fold(l, edits[..|edits| - 1]), edits[|edits| - 1])
  }

  lemma FoldSnoc(l: Levels, edits: seq<Edit>, e: Edit)
    ensures Fold(l, edits + [e]) == ApplyEdit(Fold(l, edits), e)
  {
    hide ApplyEdit;
    assert (edits + [e])[..|edits|] == edits;
  }

  lemma {:induction false} FoldConcat(l: Levels, a: seq<Edit>, b: seq<Edit>)
    ensures Fold(l, a + b) == Fold(Fold(l, a), b)
    decreases |b|
  {
    hide ApplyEdit;
    if |b| == 0 {
      assert a + b == a;
    } else {
      var n := |b| - 1;
      FoldConcat(l, a, b[..n]);
      FoldSnoc(l, a + b[..n], b[n]);
      assert a + b == (a + b[..n]) + [b[n]];
      FoldSnoc(Fold(l, a), b[..n], b[n]);
      assert b == b[..n] + [b[n]];
    }
  }

  lemma SameRefl(l: Levels)
    ensures SameRoster(l, l)
  {
  }

  lemma SameGrown(l: Levels, n: nat)
    ensures SameRoster(l, Grown(l, n)) && SameRoster(Grown(l, n), l)
  {
  }

  lemma SameTrans(a: Levels, b: Levels, c: Levels)
    requires SameRoster(a, b) && SameRoster(b, c)
    ensures SameRoster(a, c)
  {
  }

  lemma SameSym(a: Levels, b: Levels)
    requires SameRoster(a, b)
    ensures SameRoster(b, a)
  {
  }

  lemma ApplySame(a: Levels, b: Levels, e: Edit)
    requires SameRoster(a, b)
    ensures SameRoster(ApplyEdit(a, e), ApplyEdit(b, e))
  {
    hide WithoutPath, Grown, AddFile, RemoveFile;
  }

  lemma {:induction false} FoldSame(a: Levels, b: Levels, edits: seq<Edit>)
    requires SameRoster(a, b)
    ensures SameRoster(Fold(a, edits), Fold(b, edits))
    decreases |edits|
  {
    hide ApplyEdit, SameRoster;
    if |edits| > 0 {
      FoldSame(a, b, edits[..|edits| - 1]);
      ApplySame(Fold(a, edits[..|edits| - 1]), Fold(b, edits[..|edits| - 1]), edits[|edits| - 1]);
    }
  }

  // ---- Records ----

  function Payload(e: Edit): (b: bytes)
    ensures |b| == 17 + |e.path|
  {
    [e.kind] + Fixed32(e.level) + Fixed64(e.fileNo) + Fixed32(|e.path|) + e.path
  }

  /** What one payload makes the replay loop do. */
  datatype Decoded = Stop | Skip | Do(edit: Edit)

  const MAX_PAYLOAD := 0x100_0000

  function DecodePayload(p: bytes): Decoded {
    if |p| == 0 || |p| > MAX_PAYLOAD then Stop
    else if p[0] == RESET then Do(Edit(RESET, 0, [], 0))
    else if |p| < 17 then Skip
    else
      var n := DecodeLE(p[13..17]);
      if 17 + n > |p| then Stop
      else Do(Edit(p[0], DecodeLE(p[1..5]), p[17..17 + n], DecodeLE(p[5..13])))
  }

  /** Edits of a list of payloads, up to the first that stops the loop. */
  function EditsOf(ps: seq<bytes>): seq<Edit> {
    if |ps| == 0 then []
    else
      match DecodePayload(ps[0])
      case Stop => []
      case Skip => EditsOf(ps[1..])
      case Do(e) => [e] + EditsOf(ps[1..])
  }

  /** `Manifest::replay` of a file. */
  function ReplayManifest(file: bytes): Levels {
    Fold(NoFiles(), EditsOf(Replay(file)))
  }

  /** Edits the engine writes: additions and removals with sizes the fields can hold. */
  predicate Recordable(e: Edit) {
    && (e.kind == ADD || e.kind == DEL)
    && e.level < U32 && e.fileNo < U64 && 17 + |e.path| <= MAX_PAYLOAD
  }

  lemma DecodePayloadOf(e: Edit)
    requires Recordable(e)
    ensures DecodePayload(Payload(e)) == Do(e)
  {
    hide Fixed32, Fixed64, DecodeLE;
    var p := Payload(e);
    Fixed32RoundTrip(e.level);
    Fixed64RoundTrip(e.fileNo);
    Fixed32RoundTrip(|e.path|);
    assert p[0] == e.kind;
    assert p[1..5] == Fixed32(e.level);
    assert p[5..13] == Fixed64(e.fileNo);
    assert p[13..17] == Fixed32(|e.path|);
    assert p[17..17 + |e.path|] == e.path;
  }

  function Payloads(edits: seq<Edit>): (ps: seq<bytes>)
    ensures |ps| == |edits|
    ensures forall i :: 0 <= i < |edits| ==> ps[i] == Payload(edits[i])
  {
    seq(|edits|, i requires 0 <= i < |edits| => Payload(edits[i]))
  }

  ghost predicate AllRecordable(edits: seq<Edit>) {
    forall i :: 0 <= i < |edits| ==> Recordable(edits[i])
  }

  /** The bytes the engine appends for a list of edits. */
  function EditLog(edits: seq<Edit>): bytes {
    Log(Payloads(edits))
  }

  lemma {:induction false} EditsOfPayloads(edits: seq<Edit>)
    requires AllRecordable(edits)
    ensures EditsOf(Payloads(edits)) == edits
  {
    hide Payload, DecodePayload, Recordable;
    if |edits| > 0 {
      DecodePayloadOf(edits[0]);
      EditsOfPayloads(edits[1..]);
      assert Payloads(edits)[1..] == Payloads(edits[1..]);
      assert edits == [edits[0]] + edits[1..];
    }
  }

  lemma PayloadsFit(edits: seq<Edit>)
    requires AllRecordable(edits)
    ensures AllFit(Payloads(edits))
  {
  }

  /** Replaying any byte-prefix of an edit log yields the roster after the edits whose records survived whole. */
  lemma ReplayEdits(edits: seq<Edit>, n: nat)
    requires AllRecordable(edits) && n <= |EditLog(edits)|
    ensures EditsOf(Replay(EditLog(edits)[..n])) == edits[..Whole(Payloads(edits), n)]
  {
    hide Log, Replay, Whole, Payload, EditsOf, Recordable;
    PayloadsFit(edits);
    ReplayPrefix(Payloads(edits), n);
    var w := Whole(Payloads(edits), n);
    assert Payloads(edits)[..w] == Payloads(edits[..w]);
    EditsOfPayloads(edits[..w]);
  }

  lemma WholeCovers(a: seq<Edit>, b: seq<Edit>, n: nat)
    requires |EditLog(a)| <= n
    ensures Whole(Payloads(a + b), n) >= |a|
  {
    hide Payload, Log, Whole;
    assert Payloads(a + b) == Payloads(a) + Payloads(b);
    WholeAtLeast(Payloads(a), Payloads(b), n);
  }

  lemma ReplayAllEdits(edits: seq<Edit>)
    requires AllRecordable(edits)
    ensures ReplayManifest(EditLog(edits)) == Fold(NoFiles(), edits)
  {
    hide Log, Replay, Whole, EditsOf, Fold, Recordable;
    PayloadsFit(edits);
    ReplayLog(Payloads(edits));
    EditsOfPayloads(edits);
  }

  lemma EditLogConcat(a: seq<Edit>, b: seq<Edit>)
    ensures EditLog(a + b) == EditLog(a) + EditLog(b)
  {
    hide Log, Payload;
    assert Payloads(a + b) == Payloads(a) + Payloads(b);
    LogConcat(Payloads(a), Payloads(b));
  }

  // ---- Snapshots ----

  function LevelEdits(files: seq<Meta>, level: nat): (r: seq<Edit>)
    ensures |r| == |files|
  {
    seq(|files|, i requires 0 <= i < |files| => Edit(ADD, level, files[i].path, files[i].fileNo))
  }

  /** One addition per live file, level by level: what `rewriteSnapshot` writes. */
  function SnapshotEdits(l: Levels, n: nat): seq<Edit>
    requires n <= |l|
  {
    if n == 0 then [] else SnapshotEdits(l, n - 1) + LevelEdits(l[n - 1], n - 1)
  }

  lemma {:induction false} FoldLevel(base: Levels, files: seq<Meta>, level: nat)
    ensures forall i: nat :: FilesAt(Fold(base, LevelEdits(files, level)), i)
                          == if i == level then FilesAt(base, i) + files else FilesAt(base, i)
    decreases |files|
  {
    hide AddFile;
    if |files| > 0 {
      var n := |files| - 1;
      FoldLevel(base, files[..n], level);
      var edits := LevelEdits(files, level);
      assert edits == LevelEdits(files[..n], level) + [edits[n]];
      FoldSnoc(base, LevelEdits(files[..n], level), edits[n]);
      assert files[..n] + [files[n]] == files;
    }
  }

  lemma {:induction false} FoldSnapshot(l: Levels, n: nat)
    requires n <= |l|
    ensures forall i: nat :: FilesAt(Fold(NoFiles(), SnapshotEdits(l, n)), i) == if i < n then l[i] else []
  {
    hide ApplyEdit;
    if n > 0 {
      FoldSnapshot(l, n - 1);
      var before := SnapshotEdits(l, n - 1);
      FoldConcat(NoFiles(), before, LevelEdits(l[n - 1], n - 1));
      FoldLevel(Fold(NoFiles(), before), l[n - 1], n - 1);
    }
  }

  ghost predicate Storable(l: Levels) {
    && |l| <= U32
    && forall i, j :: 0 <= i < |l| && 0 <= j < |l[i]| ==> 17 + |l[i][j].path| <= MAX_PAYLOAD && l[i][j].fileNo < U64
  }

  lemma GrownStorable(l: Levels, n: nat)
    requires Storable(l) && n <= U32
    ensures Storable(Grown(l, n))
  {
    var g: Levels := Grown(l, n);
    forall i: nat, j: nat | i < |g| && j < |g[i]| ensures 17 + |g[i][j].path| <= MAX_PAYLOAD && g[i][j].fileNo < U64 {
      assert FilesAt(g, i) == FilesAt(l, i);
      assert i < |l| && l[i][j] == g[i][j];
    }
  }

  lemma {:induction false} SnapshotRecordable(l: Levels, n: nat)
    requires Storable(l) && n <= |l|
    ensures AllRecordable(SnapshotEdits(l, n))
  {
    if n > 0 { SnapshotRecordable(l, n - 1); }
  }

  /** A replayed snapshot is the roster it was taken of. */
  lemma SnapshotReplays(l: Levels)
    requires Storable(l)
    ensures SameRoster(ReplayManifest(EditLog(SnapshotEdits(l, |l|))), l)
  {
    hide EditLog, ReplayManifest, Fold, SnapshotEdits;
    SnapshotRecordable(l, |l|);
    ReplayAllEdits(SnapshotEdits(l, |l|));
    FoldSnapshot(l, |l|);
  }

  // ---- Whatever is replayed can be written again ----

  ghost predicate Small(e: Edit) {
    e.level < U32 && e.fileNo < U64 && 17 + |e.path| <= MAX_PAYLOAD
  }

  lemma DecodedSmall(p: bytes)
    ensures DecodePayload(p).Do? ==> Small(DecodePayload(p).edit)
  {
    hide DecodeLE;
    if |p| >= 17 {
      Widths();
      DecodeBound(p[1..5]);
      DecodeBound(p[5..13]);
    }
  }

  lemma {:induction false} EditsSmall(ps: seq<bytes>)
    ensures forall i :: 0 <= i < |EditsOf(ps)| ==> Small(EditsOf(ps)[i])
  {
    hide DecodePayload, Small;
    if |ps| > 0 {
      DecodedSmall(ps[0]);
      EditsSmall(ps[1..]);
    }
  }

  lemma {:induction false} WithoutSubset(files: seq<Meta>, path: bytes, m: Meta)
    ensures m in WithoutPath(files, path) <==> m in files && m.path != path
  {
    if |files| > 0 {
      WithoutSubset(files[1..], path, m);
      assert m in files <==> m == files[0] || m in files[1..];
    }
  }

  ghost predicate StorableMeta(m: Meta) {
    17 + |m.path| <= MAX_PAYLOAD && m.fileNo < U64
  }

  ghost predicate StorableFiles(files: seq<Meta>) {
    forall m :: m in files ==> StorableMeta(m)
  }

  ghost predicate StorableAt(l: Levels) {
    |l| <= U32 && forall i: nat :: StorableFiles(FilesAt(l, i))
  }

  lemma WithoutStorable(files: seq<Meta>, path: bytes)
    requires StorableFiles(files)
    ensures StorableFiles(WithoutPath(files, path))
  {
    hide WithoutPath, StorableMeta;
    forall m | m in WithoutPath(files, path) ensures StorableMeta(m) {
      WithoutSubset(files, path, m);
    }
  }

  lemma ApplyStorable(l: Levels, e: Edit)
    requires StorableAt(l) && Small(e)
    ensures StorableAt(ApplyEdit(l, e))
  {
    hide WithoutPath, StorableMeta;
    WithoutStorable(FilesAt(l, e.level), e.path);
    assert StorableMeta(Meta(e.path, e.fileNo)) by { StorableSmall(e); }
  }

  lemma StorableSmall(e: Edit)
    requires Small(e)
    ensures StorableMeta(Meta(e.path, e.fileNo))
  {
  }

  lemma {:induction false} FoldStorable(l: Levels, edits: seq<Edit>)
    requires StorableAt(l) && forall i :: 0 <= i < |edits| ==> Small(edits[i])
    ensures StorableAt(Fold(l, edits))
    decreases |edits|
  {
    hide ApplyEdit, StorableAt, Small;
    if |edits| > 0 {
      FoldStorable(l, edits[..|edits| - 1]);
      ApplyStorable(Fold(l, edits[..|edits| - 1]), edits[|edits| - 1]);
    }
  }

  /** Every roster that can be replayed, from any bytes at all, fits a snapshot. */
  lemma ReplayedIsStorable(file: bytes)
    ensures Storable(ReplayManifest(file))
  {
    hide Fold, EditsOf, Replay, Small;
    EditsSmall(Replay(file));
    FoldStorable(NoFiles(), EditsOf(Replay(file)));
    var l := ReplayManifest(file);
    forall i, j | 0 <= i < |l| && 0 <= j < |l[i]| ensures StorableMeta(l[i][j]) {
      assert StorableFiles(FilesAt(l, i));
      assert l[i][j] in FilesAt(l, i);
    }
  }
}
