/**
  Runs of the roster: tables built, listed, merged, removed and unlinked, logs rotated and dropped, MANIFEST synced,
  cut by a crash at any byte, replayed, purged after and written anew
  (`minikv/src/core/version.cpp`, `manifest.cpp`, `db_impl.cpp`, `compaction.cpp`).
 */
module RosterRuns {
  import opened Bytes
  import opened FileNames
  import opened Wal
  import opened ManifestLog
  import opened RosterSpec

  /** The flush thread: idle, table built under a number, listed. */
  datatype Flush = Idle | Built(fileNo: nat) | Listed

  /** The compaction thread; `out` is None when nothing survived the merge and its file was unlinked at once. */
  datatype Compact =
    | NoCompaction
    | Merged(src: nat, inputs: seq<Meta>, out: Option<nat>)
    | Adding(src: nat, inputs: seq<Meta>)
    | Added(src: nat, inputs: seq<Meta>)
    | Removed(src: nat, inputs: seq<Meta>)
    | Dropping(src: nat, inputs: seq<Meta>, gone: nat)

  /**
    The database directory as this session spells it; the rosters of `Version` and `Manifest`; the bytes of MANIFEST
    and how many are synced; the edits they hold and how many of those are synced; the table files that exist, by
    level directory and name; the log files by number; the counter; the two threads; and whether recovery is under way.
   */
  datatype State = State(
    dir: bytes, version: Levels, manifest: Levels, content: bytes, synced: nat, edits: seq<Edit>, durable: nat,
    tables: set<bytes>, logs: seq<nat>, next: nat, flush: Flush, compaction: Compact, opening: bool)

  datatype Step =
    | Build | ListBuilt | SyncBuilt
    | Merge(src: nat, keeps: bool) | ListOutput | SyncOutput | RemoveInputs | SyncRemoval | UnlinkInput | Finish
    | Rotate | DropLog
    | Crash(cut: nat, dir: bytes) | Purge(tail: bytes) | Snapshot

  function Roster(s: State): Levels {
    Fold(NoFiles(), s.edits)
  }

  /** The roster after the first `n` edits: for `n` from `durable` on, one that a crash may bring back. */
  function RosterAt(s: State, n: nat): Levels
    requires n <= |s.edits|
  {
    Fold(NoFiles(), s.edits[..n])
  }

  function PathsOf(files: seq<Meta>): (r: seq<bytes>)
    ensures |r| == |files| && forall i :: 0 <= i < |r| ==> r[i] == files[i].path
  {
    seq(|files|, i requires 0 <= i < |files| => files[i].path)
  }

  ghost predicate ListedPath(l: Levels, path: bytes) {
    exists i: nat, m :: m in FilesAt(l, i) && m.path == path
  }

  // ---- Steps ----

  /** The edit that lists table `n`, under the path the session builds from its number. */
  function Addition(dir: bytes, level: nat, n: nat): Edit {
    Edit(ADD, level, TablePath(dir, level, n), n)
  }

  /** The counter has not run out and the path fits a record. */
  predicate HasRoom(s: State, level: nat) {
    s.next + 1 < U64 && level < 0x8000_0000 && 17 + |TablePath(s.dir, level, s.next)| <= MAX_PAYLOAD
  }

  ghost predicate Enabled(s: State, step: Step) {
    var c := s.compaction;
    match step
    case Build => !s.opening && s.flush.Idle? && HasRoom(s, 0)
    case ListBuilt => s.flush.Built?
    case SyncBuilt => s.flush.Listed?
    case Merge(src, keeps) =>
      !s.opening && c.NoCompaction? && src < |s.version| && |s.version[src]| > 0 && HasRoom(s, src + 1)
    case ListOutput => c.Merged?
    case SyncOutput => c.Adding?
    case RemoveInputs => c.Added?
    case SyncRemoval => c.Removed?
    case UnlinkInput => c.Dropping? && c.gone < |c.inputs|
    case Finish => c.Dropping? && c.gone == |c.inputs|
    case Rotate => !s.opening
    case DropLog => !s.opening && |s.logs| > 1
    case Crash(cut, _) => s.synced <= cut <= |s.content|
    case Purge(tail) => s.opening && tail in s.tables && !ListedPath(s.manifest, s.dir + [SLASH] + tail)
    case Snapshot => s.opening
  }

  /** Edits reach both rosters in memory and MANIFEST. */
  function Append(s: State, es: seq<Edit>): State {
    s.(edits := s.edits + es, content := s.content + EditLog(es))
  }

  /** `addLevelFile` up to its sync. */
  function List(s: State, level: nat, n: nat): State {
    var m := Meta(TablePath(s.dir, level, n), n);
    Append(s.(version := AddFile(s.version, level, m), manifest := AddFile(s.manifest, level, m)),
           [Addition(s.dir, level, n)])
  }

  /** `removeLevelFiles` up to its sync. */
  function Unlist(s: State, level: nat, paths: seq<bytes>): State
    requires level < |s.version|
  {
    var dels := Removals(s.version[level], level, paths);
    Append(s.(version := s.version[level := WithoutPaths(s.version[level], paths)],
              manifest := Fold(s.manifest, dels)), dels)
  }

  function Synced(s: State): State {
    s.(synced := |s.content|, durable := |s.edits|)
  }

  function Made(s: State, level: nat): State {
    s.(tables := s.tables + {TableTail(level, s.next)}, next := s.next + 1)
  }

  /** A crash at a byte of MANIFEST, and the first part of `recover`: replay, `restoreFrom`, the numbers of the logs. */
  function Restart(s: State, cut: nat, dir: bytes): State
    requires cut <= |s.content|
  {
    var left := s.content[..cut];
    var edits := EditsOf(Replay(left));
    var l := Fold(NoFiles(), edits);
    var version := Grown(l, 7);
    State(dir, version, l, left, cut, edits, |edits|, s.tables, s.logs, AboveLogs(Restored(1, version), s.logs),
          Idle, NoCompaction, true)
  }

  /** `rewriteSnapshot`, and the first log of a fresh database. */
  function Snapshotted(s: State): State {
    var es := SnapshotEdits(s.manifest, |s.manifest|);
    var t := s.(manifest := Grown(s.manifest, 8), content := EditLog(es), synced := |EditLog(es)|,
                edits := es, durable := |es|, opening := false);
    if |s.logs| == 0 then t.(logs := [s.next], next := s.next + 1) else t
  }

  ghost function After(s: State, step: Step): State
    requires Enabled(s, step)
  {
    var c := s.compaction;
    match step
    case Build => Made(s, 0).(flush := Built(s.next))
    case ListBuilt => List(s, 0, s.flush.fileNo).(flush := Listed)
    case SyncBuilt => Synced(s).(flush := Idle)
    case Merge(src, keeps) =>
      var inputs := s.version[src];
      if keeps then Made(s, src + 1).(compaction := Merged(src, inputs, Some(s.next)))
      else s.(next := s.next + 1, compaction := Merged(src, inputs, None))
    case ListOutput =>
      if c.out.Some? then List(s, c.src + 1, c.out.value).(compaction := Adding(c.src, c.inputs))
      else s.(compaction := Added(c.src, c.inputs))
    case SyncOutput => Synced(s).(compaction := Added(c.src, c.inputs))
    case RemoveInputs =>
      (if c.src < |s.version| then Unlist(s, c.src, PathsOf(c.inputs)) else s).(compaction := Removed(c.src, c.inputs))
    case SyncRemoval => Synced(s).(compaction := Dropping(c.src, c.inputs, 0))
    case UnlinkInput =>
      s.(tables := s.tables - {Tail(c.inputs[c.gone].path)}, compaction := c.(gone := c.gone + 1))
    case Finish => s.(compaction := NoCompaction)
    case Rotate => s.(logs := s.logs + [s.next], next := s.next + 1)
    case DropLog => s.(logs := s.logs[1..])
    case Crash(cut, dir) => Restart(s, cut, dir)
    case Purge(tail) => s.(tables := s.tables - {tail})
    case Snapshot => Snapshotted(s)
  }

  // ---- Rosters ----

  /** The file was listed under a path made from its level and its number, in some spelling of the directory. */
  ghost predicate Placed(m: Meta, level: nat) {
    exists dir :: m.path == TablePath(dir, level, m.fileNo)
  }

  ghost predicate Unlisted(l: Levels, n: nat) {
    forall i: nat, m :: m in FilesAt(l, i) ==> m.fileNo != n
  }

  /** Files in their places, numbers below the counter, no number twice. */
  ghost predicate Good(l: Levels, next: nat) {
    && (forall i: nat, m :: m in FilesAt(l, i) ==> Placed(m, i) && m.fileNo < next)
    && (forall i: nat, j: nat, x, y ::
          x in FilesAt(l, i) && y in FilesAt(l, j) && x.fileNo == y.fileNo ==> i == j && x == y)
  }

  ghost predicate SubRoster(a: Levels, b: Levels) {
    forall i: nat, m :: m in FilesAt(a, i) ==> m in FilesAt(b, i)
  }

  lemma GoodSub(a: Levels, b: Levels, m: nat, n: nat)
    requires SubRoster(a, b) && Good(b, m) && AllBelow(a, n)
    ensures Good(a, n)
  {
    hide Placed, FilesAt;
  }

  lemma GoodMore(l: Levels, m: nat, n: nat)
    requires Good(l, m) && m <= n
    ensures Good(l, n) && AllBelow(l, m)
  {
    hide Placed, FilesAt;
  }

  lemma GoodSame(a: Levels, b: Levels, n: nat)
    requires SameRoster(a, b) && Good(b, n)
    ensures Good(a, n)
  {
    hide Placed, FilesAt;
  }

  lemma UnlistedSub(a: Levels, b: Levels, n: nat)
    requires SubRoster(a, b) && Unlisted(b, n)
    ensures Unlisted(a, n)
  {
    hide FilesAt;
  }

  /** A number taken from the counter is not in use. */
  lemma NextIsUnlisted(l: Levels, next: nat)
    requires Good(l, next)
    ensures Unlisted(l, next)
  {
    hide Placed, FilesAt;
  }

  lemma AddGood(l: Levels, dir: bytes, level: nat, n: nat, next: nat)
    requires Good(l, next) && Unlisted(l, n) && n < next
    ensures Good(ApplyEdit(l, Addition(dir, level, n)), next)
  {
    hide AddFile, FilesAt, TablePath;
    var m := Meta(TablePath(dir, level, n), n);
    assert Placed(m, level);
    AddMembers(l, level, m);
    hide Placed;
    var r := AddFile(l, level, m);
    forall i: nat, x | x in FilesAt(r, i) ensures Placed(x, i) && x.fileNo < next {
      assert x in FilesAt(l, i) || (i == level && x == m);
    }
  }

  lemma AddMembers(l: Levels, level: nat, m: Meta)
    ensures forall i: nat, x :: x in FilesAt(AddFile(l, level, m), i) <==> x in FilesAt(l, i) || (i == level && x == m)
  {
    hide AddFile, FilesAt;
    var r := AddFile(l, level, m);
    forall i: nat, x ensures x in FilesAt(r, i) <==> x in FilesAt(l, i) || (i == level && x == m) {
      assert FilesAt(r, i) == if i == level then FilesAt(l, i) + [m] else FilesAt(l, i);
    }
  }

  lemma AddUnlisted(l: Levels, dir: bytes, level: nat, n: nat, k: nat)
    requires Unlisted(l, k) && k != n
    ensures Unlisted(ApplyEdit(l, Addition(dir, level, n)), k)
  {
    hide AddFile, FilesAt, TablePath;
    AddMembers(l, level, Meta(TablePath(dir, level, n), n));
  }

  lemma DelSub(l: Levels, e: Edit)
    requires e.kind == DEL
    ensures SubRoster(ApplyEdit(l, e), l)
  {
    hide RemoveFile, Grown, FilesAt, WithoutPath;
    var r := ApplyEdit(l, e);
    forall i: nat, m | m in FilesAt(r, i) ensures m in FilesAt(l, i) {
      assert FilesAt(Grown(l, e.level + 1), i) == FilesAt(l, i);
      WithoutSubset(FilesAt(l, i), e.path, m);
    }
  }

  lemma SubTrans(a: Levels, b: Levels, c: Levels)
    requires SubRoster(a, b) && SubRoster(b, c)
    ensures SubRoster(a, c)
  {
    hide FilesAt;
  }

  lemma {:induction false} DelsSub(l: Levels, dels: seq<Edit>)
    requires forall i :: 0 <= i < |dels| ==> dels[i].kind == DEL
    ensures SubRoster(Fold(l, dels), l)
    decreases |dels|
  {
    hide ApplyEdit, SubRoster;
    if |dels| == 0 {
      assert SubRoster(l, l) by { SubRefl(l); }
    } else {
      var n := |dels| - 1;
      DelsSub(l, dels[..n]);
      DelSub(Fold(l, dels[..n]), dels[n]);
      SubTrans(Fold(l, dels), Fold(l, dels[..n]), l);
    }
  }

  lemma SubRefl(l: Levels)
    ensures SubRoster(l, l)
  {
  }

  lemma {:induction false} RemovalsAreDels(files: seq<Meta>, level: nat, paths: seq<bytes>)
    ensures forall i :: 0 <= i < |Removals(files, level, paths)| ==> Removals(files, level, paths)[i].kind == DEL
    decreases |files|
  {
    if |files| > 0 { RemovalsAreDels(files[..|files| - 1], level, paths); }
  }

  // ---- Invariant ----

  /** Memory agrees with what MANIFEST replays to. */
  ghost predicate Copies(s: State) {
    && SameRoster(s.version, Roster(s)) && SameRoster(s.manifest, Roster(s))
    && Storable(s.version) && (s.opening ==> Storable(s.manifest))
  }

  /** The edits are those the bytes hold, and `durable` of them lie in the synced part. */
  ghost predicate BytesOk(s: State) {
    && s.durable <= |s.edits|
    && (if s.opening then s.synced == |s.content| && s.edits == EditsOf(Replay(s.content)) && s.durable == |s.edits|
        else s.content == EditLog(s.edits) && AllRecordable(s.edits) && s.synced == |EditLog(s.edits[..s.durable])|)
  }

  ghost predicate Rosters(s: State) {
    s.durable <= |s.edits| && forall n :: s.durable <= n <= |s.edits| ==> Good(RosterAt(s, n), s.next)
  }

  ghost predicate Inputs(c: Compact, n: nat) {
    c.NoCompaction? || forall m :: m in c.inputs ==> m.fileNo != n
  }

  /** A number reserved for a table that is not listed yet. */
  ghost predicate Reserved(s: State, level: nat, n: nat) {
    n < s.next && Unlisted(Roster(s), n) && Inputs(s.compaction, n) && Recordable(Addition(s.dir, level, n))
  }

  ghost predicate ThreadsOk(s: State) {
    var c := s.compaction;
    && (s.opening ==> s.flush.Idle? && c.NoCompaction?)
    && (s.flush.Built? ==> Reserved(s, 0, s.flush.fileNo))
    && (!c.NoCompaction? ==> forall m :: m in c.inputs ==> Placed(m, c.src) && m.fileNo < s.next)
    && (c.Merged? || c.Adding? || c.Added? ==> forall m :: m in c.inputs ==> m in FilesAt(Roster(s), c.src))
    && (c.Merged? && c.out.Some? ==>
          Reserved(s, c.src + 1, c.out.value) && (s.flush.Built? ==> s.flush.fileNo != c.out.value))
    && (c.Removed? ==> forall m :: m in c.inputs ==> Unlisted(Roster(s), m.fileNo))
    && (c.Dropping? && s.durable <= |s.edits| ==>
          forall n, m :: s.durable <= n <= |s.edits| && m in c.inputs ==> Unlisted(RosterAt(s, n), m.fileNo))
  }

  ghost predicate LogsBelow(s: State) {
    forall i :: 0 <= i < |s.logs| ==> s.logs[i] < s.next
  }

  ghost predicate Inv(s: State) {
    Copies(s) && BytesOk(s) && Rosters(s) && ThreadsOk(s) && LogsBelow(s)
  }

  lemma RosterIs(s: State)
    ensures RosterAt(s, |s.edits|) == Roster(s)
  {
    hide Fold, NoFiles;
    assert s.edits[..|s.edits|] == s.edits;
  }

  lemma SameRosters(s: State, t: State)
    requires t.edits == s.edits
    ensures Roster(t) == Roster(s) && forall n :: 0 <= n <= |s.edits| ==> RosterAt(t, n) == RosterAt(s, n)
  {
  }

  // ---- Steps that leave the edits alone ----

  lemma NumberTaken(s: State, t: State)
    requires Rosters(s) && t.edits == s.edits && t.durable == s.durable && t.next == s.next + 1
    ensures Rosters(t) && Unlisted(Roster(t), s.next)
  {
    hide RosterAt, Roster, Good, Unlisted;
    SameRosters(s, t);
    forall n | t.durable <= n <= |t.edits| ensures Good(RosterAt(t, n), t.next) {
      GoodMore(RosterAt(s, n), s.next, t.next);
    }
    RosterIs(s);
    NextIsUnlisted(RosterAt(s, |s.edits|), s.next);
  }

  lemma RostersStay(s: State, t: State)
    requires Rosters(s) && t.edits == s.edits && t.durable == s.durable && t.next == s.next
    ensures Rosters(t)
  {
    hide RosterAt, Good;
    SameRosters(s, t);
  }

  lemma BuildKeeps(s: State)
    requires Inv(s) && Enabled(s, Build)
    ensures Inv(After(s, Build))
  {
    hide RosterAt, Roster, Rosters, Good, Unlisted, SameRoster, Storable, EditLog, Replay, EditsOf, TablePath,
         TableTail, Placed;
    var t := After(s, Build);
    SameRosters(s, t);
    NumberTaken(s, t);
  }

  lemma MergeKeeps(s: State, src: nat, keeps: bool)
    requires Inv(s) && Enabled(s, Merge(src, keeps))
    ensures Inv(After(s, Merge(src, keeps)))
  {
    hide RosterAt, Roster, Rosters, Unlisted, Storable, EditLog, Replay, EditsOf, TablePath, TableTail, Good, Placed;
    var t := After(s, Merge(src, keeps));
    SameRosters(s, t);
    NumberTaken(s, t);
    assert FilesAt(s.version, src) == FilesAt(Roster(s), src);
    RosterIs(s);
    InputsGood(s, src);
  }

  lemma InputsGood(s: State, src: nat)
    requires Rosters(s)
    ensures forall m :: m in FilesAt(Roster(s), src) ==> Placed(m, src) && m.fileNo < s.next
    ensures s.flush.Built? && Unlisted(Roster(s), s.flush.fileNo) ==>
              forall m :: m in FilesAt(Roster(s), src) ==> m.fileNo != s.flush.fileNo
  {
    hide RosterAt, Roster, Placed, FilesAt;
    RosterIs(s);
    assert Good(RosterAt(s, |s.edits|), s.next);
  }

  lemma RotateKeeps(s: State)
    requires Inv(s) && Enabled(s, Rotate)
    ensures Inv(After(s, Rotate))
  {
    hide RosterAt, Roster, Rosters, Unlisted, SameRoster, Storable, EditLog, Replay, EditsOf, TablePath, Good, Placed;
    var t := After(s, Rotate);
    SameRosters(s, t);
    NumberTaken(s, t);
  }

  /** Syncs, unlinks, the end of a compaction, retired logs and purges. */
  lemma QuietKeeps(s: State, step: Step)
    requires Inv(s) && Enabled(s, step)
    requires step.SyncBuilt? || step.SyncOutput? || step.SyncRemoval? || step.UnlinkInput? || step.Finish?
          || step.DropLog? || step.Purge?
    ensures Inv(After(s, step))
  {
    hide RosterAt, Roster, Unlisted, SameRoster, Storable, EditLog, Replay, EditsOf, TablePath, Good, Placed, FilesAt;
    var t := After(s, step);
    SameRosters(s, t);
    RosterIs(s);
    assert !s.opening ==> s.edits[..|s.edits|] == s.edits;
  }

  // ---- Listing a table ----

  /** Rosters after more edits: the old ones, and folds of the last one. */
  lemma Appended(s: State, t: State, es: seq<Edit>)
    requires t.edits == s.edits + es
    ensures forall n :: 0 <= n <= |s.edits| ==> RosterAt(t, n) == RosterAt(s, n)
    ensures forall k :: 0 <= k <= |es| ==> RosterAt(t, |s.edits| + k) == Fold(Roster(s), es[..k])
    ensures Roster(t) == Fold(Roster(s), es)
  {
    hide Fold, NoFiles;
    forall n | 0 <= n <= |s.edits| ensures RosterAt(t, n) == RosterAt(s, n) {
      assert t.edits[..n] == s.edits[..n];
    }
    forall k | 0 <= k <= |es| ensures RosterAt(t, |s.edits| + k) == Fold(Roster(s), es[..k]) {
      assert t.edits[..|s.edits| + k] == s.edits + es[..k];
      FoldConcat(NoFiles(), s.edits, es[..k]);
    }
    FoldConcat(NoFiles(), s.edits, es);
  }

  lemma AppendedOne(s: State, t: State, e: Edit)
    requires t.edits == s.edits + [e]
    ensures forall n :: 0 <= n <= |s.edits| ==> RosterAt(t, n) == RosterAt(s, n)
    ensures RosterAt(t, |t.edits|) == Roster(t) == ApplyEdit(Roster(s), e)
  {
    hide Fold, ApplyEdit, NoFiles, RosterAt, Roster;
    Appended(s, t, [e]);
    RosterIs(t);
    FoldSnoc(Roster(s), [], e);
    FoldNone(Roster(s));
    assert [] + [e] == [e];
  }

  lemma FoldNone(l: Levels)
    ensures Fold(l, []) == l
  {
  }

  lemma ListRosters(s: State, t: State, level: nat, n: nat)
    requires Rosters(s)
    requires t.edits == s.edits + [Addition(s.dir, level, n)] && t.durable == s.durable && t.next == s.next
    requires n < s.next && Unlisted(Roster(s), n)
    ensures Rosters(t)
  {
    hide RosterAt, Roster, Good, Unlisted, ApplyEdit, Addition;
    AppendedOne(s, t, Addition(s.dir, level, n));
    RosterIs(s);
    AddGood(Roster(s), s.dir, level, n, s.next);
  }

  lemma ListCopies(s: State, level: nat, n: nat)
    requires Copies(s) && !s.opening && Recordable(Addition(s.dir, level, n))
    ensures Copies(List(s, level, n))
  {
    hide Fold, NoFiles, SameRoster, Storable, AddFile, TablePath, EditLog;
    var m := Meta(TablePath(s.dir, level, n), n);
    FoldSnoc(NoFiles(), s.edits, Addition(s.dir, level, n));
    AddedSame(s.version, Roster(s), level, m);
    AddedSame(s.manifest, Roster(s), level, m);
    AddedStorable(s.version, level, m);
  }

  lemma AppendBytes(s: State, t: State, es: seq<Edit>)
    requires BytesOk(s) && !s.opening && !t.opening && AllRecordable(es)
    requires t.edits == s.edits + es && t.content == s.content + EditLog(es)
    requires t.durable == s.durable && t.synced == s.synced
    ensures BytesOk(t)
  {
    hide EditLog, Recordable, Replay, EditsOf;
    EditLogConcat(s.edits, es);
    assert t.edits[..t.durable] == s.edits[..s.durable];
  }

  /** Listing one reserved number leaves every other number's standing as it was. */
  lemma ListReserved(s: State, t: State, level: nat, n: nat, other: nat, k: nat)
    requires t.edits == s.edits + [Addition(s.dir, level, n)] && t.next == s.next && t.dir == s.dir
    requires Reserved(s, other, k) && k != n
    requires t.compaction.NoCompaction? || (!s.compaction.NoCompaction? && t.compaction.inputs == s.compaction.inputs)
    ensures Reserved(t, other, k)
  {
    hide RosterAt, Roster, Unlisted, ApplyEdit, Addition, Recordable;
    AppendedOne(s, t, Addition(s.dir, level, n));
    AddUnlisted(Roster(s), s.dir, level, n, k);
  }

  /** ... and the inputs of a compaction where they were. */
  lemma ListInputs(s: State, t: State, level: nat, n: nat)
    requires t.edits == s.edits + [Addition(s.dir, level, n)] && t.durable == s.durable
    requires ThreadsOk(s) && Rosters(s) && !s.compaction.NoCompaction? && Inputs(s.compaction, n)
    ensures var c := s.compaction;
            && (c.Merged? || c.Adding? || c.Added? ==> forall m :: m in c.inputs ==> m in FilesAt(Roster(t), c.src))
            && (c.Removed? ==> forall m :: m in c.inputs ==> Unlisted(Roster(t), m.fileNo))
            && (c.Dropping? ==>
                  forall k, m :: t.durable <= k <= |t.edits| && m in c.inputs ==> Unlisted(RosterAt(t, k), m.fileNo))
  {
    hide RosterAt, Roster, Unlisted, AddFile, TablePath, FilesAt, Placed, Reserved, Good;
    var c := s.compaction;
    AppendedOne(s, t, Addition(s.dir, level, n));
    RosterIs(s);
    AddMembers(Roster(s), level, Meta(TablePath(s.dir, level, n), n));
    forall m | m in c.inputs && Unlisted(Roster(s), m.fileNo) ensures Unlisted(Roster(t), m.fileNo) {
      AddUnlisted(Roster(s), s.dir, level, n, m.fileNo);
    }
  }

  lemma ListBuiltKeeps(s: State)
    requires Inv(s) && Enabled(s, ListBuilt)
    ensures Inv(After(s, ListBuilt))
  {
    hide RosterAt, Roster, Unlisted, SameRoster, Storable, EditLog, Replay, EditsOf, TablePath, Good, Placed, FilesAt,
      Rosters, Copies, BytesOk, Recordable, AddFile, Addition;
    var t, n, c := After(s, ListBuilt), s.flush.fileNo, s.compaction;
    ListCopies(s, 0, n);
    SameCopies(List(s, 0, n), t);
    assert AllRecordable([Addition(s.dir, 0, n)]);
    AppendBytes(s, t, [Addition(s.dir, 0, n)]);
    ListRosters(s, t, 0, n);
    if !c.NoCompaction? { ListInputs(s, t, 0, n); }
    if c.Merged? && c.out.Some? { ListReserved(s, t, 0, n, c.src + 1, c.out.value); }
  }

  lemma SameCopies(s: State, t: State)
    requires Copies(s)
    requires t.edits == s.edits && t.version == s.version && t.manifest == s.manifest && t.opening == s.opening
    ensures Copies(t)
  {
    hide Fold, SameRoster, Storable;
  }

  lemma ListOutputKeeps(s: State)
    requires Inv(s) && Enabled(s, ListOutput)
    ensures Inv(After(s, ListOutput))
  {
    hide RosterAt, Roster, Unlisted, SameRoster, Storable, EditLog, Replay, EditsOf, TablePath, Good, Placed, FilesAt,
      Rosters, Copies, BytesOk, Recordable, AddFile, Addition;
    var t, c := After(s, ListOutput), s.compaction;
    if c.out.Some? {
      var n := c.out.value;
      ListCopies(s, c.src + 1, n);
      SameCopies(List(s, c.src + 1, n), t);
      assert AllRecordable([Addition(s.dir, c.src + 1, n)]);
      AppendBytes(s, t, [Addition(s.dir, c.src + 1, n)]);
      ListRosters(s, t, c.src + 1, n);
      ListInputs(s, t, c.src + 1, n);
      if s.flush.Built? { ListReserved(s, t, c.src + 1, n, 0, s.flush.fileNo); }
    } else {
      SameRosters(s, t);
      SameCopies(s, t);
      RostersStay(s, t);
      BytesAgain(s, t);
    }
  }

  lemma BytesAgain(s: State, t: State)
    requires BytesOk(s) && t.edits == s.edits && t.durable == s.durable && t.opening == s.opening
    requires t.content == s.content && t.synced == s.synced
    ensures BytesOk(t)
  {
    hide EditLog, Replay, EditsOf;
  }

  // ---- Removing the inputs of a compaction ----

  lemma RemoveRosters(s: State, t: State, dels: seq<Edit>)
    requires Rosters(s) && t.edits == s.edits + dels && t.durable == s.durable && t.next == s.next
    requires forall i :: 0 <= i < |dels| ==> dels[i].kind == DEL
    ensures Rosters(t)
    ensures forall n :: |s.edits| <= n <= |t.edits| ==> SubRoster(RosterAt(t, n), Roster(s))
  {
    hide RosterAt, Roster, Good, SubRoster, Fold;
    Appended(s, t, dels);
    RosterIs(s);
    forall n | |s.edits| <= n <= |t.edits|
      ensures SubRoster(RosterAt(t, n), Roster(s)) && Good(RosterAt(t, n), t.next)
    {
      DelsSub(Roster(s), dels[..n - |s.edits|]);
      SubGood(RosterAt(t, n), Roster(s), s.next);
    }
    forall n | t.durable <= n <= |t.edits| ensures Good(RosterAt(t, n), t.next) {
      if n <= |s.edits| { assert RosterAt(t, n) == RosterAt(s, n); }
    }
  }

  lemma SubGood(a: Levels, b: Levels, n: nat)
    requires SubRoster(a, b) && Good(b, n)
    ensures Good(a, n)
  {
    hide Placed, FilesAt;
  }

  lemma UnlistCopies(s: State, level: nat, paths: seq<bytes>)
    requires Copies(s) && !s.opening && level < |s.version|
    ensures Copies(Unlist(s, level, paths))
    ensures forall i: nat :: FilesAt(Roster(Unlist(s, level, paths)), i) ==
              if i == level then WithoutPaths(FilesAt(Roster(s), i), paths) else FilesAt(Roster(s), i)
  {
    hide Fold, NoFiles, Storable, WithoutPaths, Removals, EditLog;
    var t, dels := Unlist(s, level, paths), Removals(s.version[level], level, paths);
    assert s.version[level] == FilesAt(s.version, level) == FilesAt(Roster(s), level) == FilesAt(s.manifest, level);
    FoldConcat(NoFiles(), s.edits, dels);
    RemovalsFold(Roster(s), level, paths);
    RemovalsFold(s.manifest, level, paths);
    RemovedStorable(s.version, level, paths);
    FoldSame(s.manifest, Roster(s), dels);
  }

  /** No number may be listed twice, so removing the inputs' paths takes their numbers off the roster. */
  lemma InputsGone(l: Levels, r: Levels, src: nat, inputs: seq<Meta>, next: nat)
    requires Good(l, next) && forall m :: m in inputs ==> m in FilesAt(l, src)
    requires forall i: nat :: FilesAt(r, i) ==
               if i == src then WithoutPaths(FilesAt(l, i), PathsOf(inputs)) else FilesAt(l, i)
    ensures forall m :: m in inputs ==> Unlisted(r, m.fileNo)
  {
    hide Placed, WithoutPaths, FilesAt;
    forall m, i: nat, x | m in inputs && x in FilesAt(r, i) ensures x.fileNo != m.fileNo {
      WithoutMeans(FilesAt(l, src), PathsOf(inputs), x);
      var j :| 0 <= j < |inputs| && inputs[j] == m;
      assert PathsOf(inputs)[j] == m.path;
    }
  }

  lemma UnlistRecordable(s: State, level: nat, paths: seq<bytes>)
    requires Storable(s.version) && level < |s.version|
    ensures AllRecordable(Removals(s.version[level], level, paths))
  {
    hide Removals, Recordable;
    forall m | m in s.version[level] ensures StorableMeta(m) {
      var j :| 0 <= j < |s.version[level]| && s.version[level][j] == m;
    }
    RemovalsRecordable(s.version[level], level, paths);
  }

  lemma RemoveKeeps(s: State)
    requires Inv(s) && Enabled(s, RemoveInputs)
    ensures Inv(After(s, RemoveInputs))
  {
    hide RosterAt, Roster, Unlisted, SameRoster, Storable, EditLog, Replay, EditsOf, Good, Placed, FilesAt, SubRoster,
      Rosters, Copies, BytesOk, AllRecordable, Recordable, Removals, WithoutPaths, TablePath;
    var t, c := After(s, RemoveInputs), s.compaction;
    var paths := PathsOf(c.inputs);
    if c.src < |s.version| {
      var dels, u := Removals(s.version[c.src], c.src, paths), Unlist(s, c.src, paths);
      UnlistCopies(s, c.src, paths);
      SameCopies(u, t);
      SameRosters(u, t);
      assert Storable(s.version) by { CopiesStorable(s); }
      UnlistRecordable(s, c.src, paths);
      AppendBytes(s, t, dels);
      RemovalsAreDels(s.version[c.src], c.src, paths);
      RemoveRosters(s, t, dels);
      RosterIs(s);
      RosterIs(t);
      GoodNow(s);
      InputsGone(Roster(s), Roster(t), c.src, c.inputs, s.next);
      if s.flush.Built? { UnlistedSub(Roster(t), Roster(s), s.flush.fileNo); }
    } else {
      NoInputs(s);
      SameRosters(s, t);
      SameCopies(s, t);
      RostersStay(s, t);
      BytesAgain(s, t);
    }
  }

  lemma CopiesStorable(s: State)
    requires Copies(s)
    ensures Storable(s.version)
  {
  }

  lemma GoodNow(s: State)
    requires Rosters(s)
    ensures Good(Roster(s), s.next)
  {
    hide RosterAt, Roster, Good;
    RosterIs(s);
  }

  lemma NoInputs(s: State)
    requires Copies(s) && ThreadsOk(s) && s.compaction.Added? && s.compaction.src >= |s.version|
    ensures forall m :: m !in s.compaction.inputs
  {
    hide Roster, Storable, Unlisted, Placed, RosterAt;
    assert FilesAt(s.version, s.compaction.src) == FilesAt(Roster(s), s.compaction.src);
  }

  // ---- Crash and recovery ----

  /** What MANIFEST holds after a crash: the synced edits and some of the others. */
  lemma CrashEdits(s: State, cut: nat) returns (k: nat)
    requires BytesOk(s) && s.synced <= cut <= |s.content|
    ensures s.durable <= k <= |s.edits| && EditsOf(Replay(s.content[..cut])) == s.edits[..k]
  {
    hide EditLog, Replay, EditsOf, AllRecordable, Whole;
    if s.opening {
      k := |s.edits|;
      assert s.content[..cut] == s.content;
    } else {
      ReplayEdits(s.edits, cut);
      k := Whole(Payloads(s.edits), cut);
      var a, b := s.edits[..s.durable], s.edits[s.durable..];
      assert a + b == s.edits;
      WholeCovers(a, b, cut);
    }
  }

  lemma RestartGood(l: Levels, next: nat, logs: seq<nat>)
    requires Good(l, next)
    ensures Good(l, AboveLogs(Restored(1, Grown(l, 7)), logs))
  {
    hide Good, AllBelow, Grown, Restored, SubRoster, SameRoster;
    var n := Restored(1, Grown(l, 7));
    RestoredAbove(1, Grown(l, 7));
    SameGrown(l, 7);
    SameBelow(Grown(l, 7), l, n);
    SubRefl(l);
    GoodSub(l, l, next, n);
    GoodMore(l, n, AboveLogs(n, logs));
  }

  lemma CrashKeeps(s: State, cut: nat, dir: bytes)
    requires Inv(s) && Enabled(s, Crash(cut, dir))
    ensures Inv(After(s, Crash(cut, dir)))
  {
    hide Fold, NoFiles, SameRoster, Storable, EditLog, Replay, EditsOf, Good, Grown, Restored, ThreadsOk, LogsBelow,
         Copies;
    var t := After(s, Crash(cut, dir));
    var k := CrashEdits(s, cut);
    var l := Roster(t);
    assert l == RosterAt(s, k);
    RestartGood(l, s.next, s.logs);
    RosterIs(t);
    ReplayedIsStorable(t.content);
    RestartCopies(t);
    assert ThreadsOk(t) by { IdleOk(t); }
    assert LogsBelow(t) by { RestartLogs(s, cut, dir); }
  }

  lemma RestartCopies(t: State)
    requires t.manifest == Roster(t) && t.version == Grown(t.manifest, 7) && Storable(t.manifest)
    ensures Copies(t)
  {
    hide Roster, SameRoster, Storable, Grown;
    SameGrown(t.manifest, 7);
    SameRefl(t.manifest);
    GrownStorable(t.manifest, 7);
  }

  lemma IdleOk(t: State)
    requires t.flush.Idle? && t.compaction.NoCompaction?
    ensures ThreadsOk(t)
  {
  }

  lemma RestartLogs(s: State, cut: nat, dir: bytes)
    requires cut <= |s.content|
    ensures LogsBelow(Restart(s, cut, dir))
  {
    hide AboveLogs, Restored, Fold, EditsOf, Replay, Grown;
  }

  lemma SnapshotKeeps(s: State)
    requires Inv(s) && Enabled(s, Snapshot)
    ensures Inv(After(s, Snapshot))
  {
    hide Fold, NoFiles, SameRoster, Storable, EditLog, Replay, EditsOf, Good, Grown, SnapshotEdits, RosterAt,
         AllRecordable;
    var t, es := After(s, Snapshot), SnapshotEdits(s.manifest, |s.manifest|);
    assert es[..|es|] == es;
    SnapshotRecordable(s.manifest, |s.manifest|);
    SnapshotSame(s.manifest);
    SnapshotCopies(s, t);
    GoodNow(s);
    GoodSame(Roster(t), Roster(s), s.next);
    GoodMore(Roster(t), s.next, t.next);
    RosterIs(t);
    assert ThreadsOk(t) by { IdleOk(t); }
  }

  lemma SnapshotSame(l: Levels)
    ensures SameRoster(Fold(NoFiles(), SnapshotEdits(l, |l|)), l)
  {
    hide Fold, SnapshotEdits, NoFiles;
    FoldSnapshot(l, |l|);
  }

  lemma SnapshotCopies(s: State, t: State)
    requires Copies(s) && SameRoster(Roster(t), s.manifest)
    requires t.version == s.version && t.manifest == Grown(s.manifest, 8) && !t.opening
    ensures Copies(t) && SameRoster(Roster(t), Roster(s))
  {
    hide Roster, SameRoster, Storable, Grown;
    SameTrans(Roster(t), s.manifest, Roster(s));
    SameSym(Roster(t), Roster(s));
    SameTrans(s.version, Roster(s), Roster(t));
    SameGrown(s.manifest, 8);
    SameSym(Roster(t), s.manifest);
    SameTrans(t.manifest, s.manifest, Roster(t));
  }

  // ---- Whole runs ----

  lemma StepKeeps(s: State, step: Step)
    requires Inv(s) && Enabled(s, step)
    ensures Inv(After(s, step))
  {
    hide Inv, Enabled, After;
    match step
    case Build => BuildKeeps(s);
    case ListBuilt => ListBuiltKeeps(s);
    case Merge(src, keeps) => MergeKeeps(s, src, keeps);
    case ListOutput => ListOutputKeeps(s);
    case RemoveInputs => RemoveKeeps(s);
    case Rotate => RotateKeeps(s);
    case Crash(cut, dir) => CrashKeeps(s, cut, dir);
    case Snapshot => SnapshotKeeps(s);
    case _ => QuietKeeps(s, step);
  }

  /** The first opening of an empty directory. */
  function Init(dir: bytes): State {
    State(dir, Grown(NoFiles(), 7), NoFiles(), [], 0, [], 0, {}, [], 1, Idle, NoCompaction, true)
  }

  ghost predicate Run(states: seq<State>, steps: seq<Step>, dir: bytes) {
    && |states| == |steps| + 1
    && states[0] == Init(dir)
    && forall i :: 0 <= i < |steps| ==> Enabled(states[i], steps[i]) && states[i + 1] == After(states[i], steps[i])
  }

  lemma InitKeeps(dir: bytes)
    ensures Inv(Init(dir))
  {
    hide Grown, NoFiles, SameRoster, Storable;
    var s := Init(dir);
    EmptyFile([]);
    assert Replay([]) == [];
    ReplayedIsStorable([]);
    RestartCopies(s);
    RosterIs(s);
    NothingGood();
  }

  lemma NothingGood()
    ensures Good(NoFiles(), 1)
  {
    hide NoFiles, Placed;
    assert forall i: nat :: FilesAt(NoFiles(), i) == [];
  }

  lemma {:induction false} RunKeeps(states: seq<State>, steps: seq<Step>, dir: bytes, i: nat)
    requires Run(states, steps, dir) && i < |states|
    ensures Inv(states[i])
  {
    hide Inv, Enabled, After, Init;
    if i == 0 {
      InitKeeps(dir);
    } else {
      RunKeeps(states, steps, dir, i - 1);
      StepKeeps(states[i - 1], steps[i - 1]);
    }
  }

  /**
    Roster agreement: in every state of every run, `Version`, `Manifest` and the bytes of MANIFEST list the same files
    in the same order, up to trailing empty levels.
   */
  lemma RostersAgree(states: seq<State>, steps: seq<Step>, dir: bytes, i: nat)
    requires Run(states, steps, dir) && i < |states|
    ensures SameRoster(states[i].version, states[i].manifest)
    ensures SameRoster(states[i].version, ReplayManifest(states[i].content))
  {
    hide Run, Rosters, ThreadsOk, LogsBelow, SameRoster, Fold, EditLog, NoFiles, Storable, AllRecordable;
    RunKeeps(states, steps, dir, i);
    var s := states[i];
    if !s.opening { ReplayAllEdits(s.edits); }
    SameSym(s.manifest, Roster(s));
    SameTrans(s.version, Roster(s), s.manifest);
  }

  /**
    File numbers: in every state of every run the counter, which is the next number handed out, lies above every log
    file and above every table in memory and in every roster a crash may bring back.
   */
  lemma NextNumberIsFresh(states: seq<State>, steps: seq<Step>, dir: bytes, i: nat, kept: nat)
    requires Run(states, steps, dir) && i < |states| && states[i].durable <= kept <= |states[i].edits|
    ensures forall w :: w in states[i].logs ==> w < states[i].next
    ensures AllBelow(states[i].version, states[i].next) && AllBelow(RosterAt(states[i], kept), states[i].next)
  {
    hide Run, BytesOk, ThreadsOk, SameRoster, Storable, Fold, Good, AllBelow, NoFiles, RosterAt, Roster;
    RunKeeps(states, steps, dir, i);
    var s := states[i];
    GoodMore(RosterAt(s, kept), s.next, s.next);
    GoodNow(s);
    GoodMore(Roster(s), s.next, s.next);
    SameSym(s.version, Roster(s));
    SameBelow(Roster(s), s.version, s.next);
  }

  // ---- Listed files exist ----

  /** The roster's files are spelled as this session spells the directory, and exist. */
  ghost predicate Stored(l: Levels, dir: bytes, tables: set<bytes>) {
    forall i: nat, m :: m in FilesAt(l, i) ==> m.path == TablePath(dir, i, m.fileNo) && TableTail(i, m.fileNo) in tables
  }

  ghost predicate Backed(s: State) {
    && s.durable <= |s.edits|
    && (forall n :: s.durable <= n <= |s.edits| ==> Stored(RosterAt(s, n), s.dir, s.tables))
    && (s.flush.Built? ==> TableTail(0, s.flush.fileNo) in s.tables)
    && (s.compaction.Merged? && s.compaction.out.Some? ==>
          TableTail(s.compaction.src + 1, s.compaction.out.value) in s.tables)
  }

  /** A crash after which the directory is spelled as before. */
  predicate SameSpelling(s: State, step: Step) {
    step.Crash? ==> step.dir == s.dir
  }

  lemma StoredSub(a: Levels, b: Levels, dir: bytes, tables: set<bytes>, more: set<bytes>)
    requires SubRoster(a, b) && Stored(b, dir, tables) && tables <= more
    ensures Stored(a, dir, more)
  {
    hide FilesAt, TablePath, TableTail;
  }

  lemma AddStored(l: Levels, dir: bytes, level: nat, n: nat, tables: set<bytes>)
    requires Stored(l, dir, tables) && TableTail(level, n) in tables
    ensures Stored(ApplyEdit(l, Addition(dir, level, n)), dir, tables)
  {
    hide FilesAt, TablePath, TableTail, AddFile;
    AddMembers(l, level, Meta(TablePath(dir, level, n), n));
  }

  lemma ListBacked(s: State, t: State, level: nat, n: nat)
    requires Backed(s) && t.edits == s.edits + [Addition(s.dir, level, n)] && TableTail(level, n) in s.tables
    requires t.durable == s.durable && t.dir == s.dir && t.tables == s.tables
    ensures forall k :: t.durable <= k <= |t.edits| ==> Stored(RosterAt(t, k), t.dir, t.tables)
  {
    hide RosterAt, Roster, Stored, ApplyEdit, Addition, TableTail;
    AppendedOne(s, t, Addition(s.dir, level, n));
    RosterIs(s);
    AddStored(Roster(s), s.dir, level, n, s.tables);
  }

  lemma GrowBacked(s: State, t: State)
    requires Backed(s) && t.edits == s.edits && s.durable <= t.durable <= |t.edits| && t.dir == s.dir
    requires s.tables <= t.tables
    ensures forall k :: t.durable <= k <= |t.edits| ==> Stored(RosterAt(t, k), t.dir, t.tables)
  {
    hide RosterAt, Stored, SubRoster;
    SameRosters(s, t);
    forall k | t.durable <= k <= |t.edits| ensures Stored(RosterAt(t, k), t.dir, t.tables) {
      SubRefl(RosterAt(s, k));
      StoredSub(RosterAt(s, k), RosterAt(s, k), s.dir, s.tables, t.tables);
    }
  }

  lemma RemoveBacked(s: State)
    requires Inv(s) && Backed(s) && Enabled(s, RemoveInputs)
    ensures Backed(After(s, RemoveInputs))
  {
    hide RosterAt, Roster, Stored, SubRoster, Rosters, Removals, WithoutPaths, EditLog, Copies, BytesOk, ThreadsOk,
         Fold, TableTail;
    var t, c := After(s, RemoveInputs), s.compaction;
    var paths := PathsOf(c.inputs);
    if c.src < |s.version| {
      var dels := Removals(s.version[c.src], c.src, paths);
      RemovalsAreDels(s.version[c.src], c.src, paths);
      RemoveRosters(s, t, dels);
      Appended(s, t, dels);
      RosterIs(s);
      forall n | t.durable <= n <= |t.edits| ensures Stored(RosterAt(t, n), t.dir, t.tables) {
        if n > |s.edits| { StoredSub(RosterAt(t, n), Roster(s), s.dir, s.tables, t.tables); }
      }
    } else {
      GrowBacked(s, t);
    }
  }

  lemma PlacedTail(m: Meta, level: nat)
    requires Placed(m, level)
    ensures Tail(m.path) == TableTail(level, m.fileNo)
  {
    hide TablePath, TableTail, Tail;
    var dir :| m.path == TablePath(dir, level, m.fileNo);
    TailOfPath(dir, level, m.fileNo);
  }

  /** An unlinked input is in no roster a crash may bring back, because its number is in none. */
  lemma UnlinkBacked(s: State)
    requires Inv(s) && Backed(s) && Enabled(s, UnlinkInput)
    ensures Backed(After(s, UnlinkInput))
  {
    hide RosterAt, Roster, Rosters, EditLog, Copies, BytesOk, Tail, TableTail, TablePath, FilesAt, Placed, Good;
    var t, c := After(s, UnlinkInput), s.compaction;
    var m := c.inputs[c.gone];
    assert m in c.inputs;
    SameRosters(s, t);
    PlacedTail(m, c.src);
    forall n, i: nat, x | t.durable <= n <= |t.edits| && x in FilesAt(RosterAt(t, n), i)
      ensures TableTail(i, x.fileNo) != TableTail(c.src, m.fileNo)
    {
      assert x in FilesAt(RosterAt(s, n), i) && Unlisted(RosterAt(s, n), m.fileNo);
      OtherTail(i, x.fileNo, c.src, m.fileNo);
    }
    if s.flush.Built? { OtherTail(0, s.flush.fileNo, c.src, m.fileNo); }
  }

  lemma OtherTail(i: nat, a: nat, j: nat, b: nat)
    requires a != b
    ensures TableTail(i, a) != TableTail(j, b)
  {
    hide TableTail;
    if TableTail(i, a) == TableTail(j, b) { TailInjective(i, a, j, b); }
  }

  lemma CrashBacked(s: State, cut: nat)
    requires Inv(s) && Backed(s) && Enabled(s, Crash(cut, s.dir))
    ensures Backed(After(s, Crash(cut, s.dir)))
  {
    hide Fold, NoFiles, Stored, EditLog, Replay, EditsOf, Grown, Restored, ThreadsOk, LogsBelow, Copies, BytesOk,
         Rosters;
    var t := After(s, Crash(cut, s.dir));
    var k := CrashEdits(s, cut);
    RosterIs(t);
    assert Roster(t) == RosterAt(s, k);
  }

  lemma PurgeBacked(s: State, tail: bytes)
    requires Inv(s) && Backed(s) && Enabled(s, Purge(tail))
    ensures Backed(After(s, Purge(tail)))
  {
    hide RosterAt, Roster, Rosters, EditLog, Storable, BytesOk, ThreadsOk, FilesAt, TableTail;
    var t := After(s, Purge(tail));
    SameRosters(s, t);
    RosterIs(s);
    OpeningIsIdle(s);
    forall i: nat, m | m in FilesAt(Roster(s), i) ensures TableTail(i, m.fileNo) != tail {
      assert m in FilesAt(RosterAt(s, |s.edits|), i);
      assert m in FilesAt(s.manifest, i);
    }
  }

  lemma OpeningIsIdle(s: State)
    requires Inv(s) && s.opening
    ensures s.durable == |s.edits| && s.flush.Idle? && s.compaction.NoCompaction?
  {
    hide Copies, Rosters, LogsBelow, RosterAt, Roster, Replay, EditsOf;
  }

  lemma SnapshotBacked(s: State)
    requires Inv(s) && Backed(s) && Enabled(s, Snapshot)
    ensures Backed(After(s, Snapshot))
  {
    hide Fold, NoFiles, Storable, EditLog, Grown, SnapshotEdits, RosterAt, BytesOk, Rosters, FilesAt, TablePath,
         TableTail;
    var t := After(s, Snapshot);
    SnapshotSame(s.manifest);
    SnapshotCopies(s, t);
    RosterIs(s);
    RosterIs(t);
    assert t.flush.Idle? && t.compaction.NoCompaction?;
    assert Stored(Roster(s), s.dir, s.tables);
  }

  lemma StepBacked(s: State, step: Step)
    requires Inv(s) && Backed(s) && Enabled(s, step) && SameSpelling(s, step)
    ensures Backed(After(s, step))
  {
    hide Inv, Stored, RosterAt, Fold, EditLog, EditsOf, Replay, TableTail, TablePath, WithoutPaths, Removals, Addition,
      AddFile, Grown, Restored;
    match step
    case RemoveInputs => RemoveBacked(s);
    case UnlinkInput => UnlinkBacked(s);
    case Crash(cut, _) => CrashBacked(s, cut);
    case Purge(tail) => PurgeBacked(s, tail);
    case Snapshot => SnapshotBacked(s);
    case ListBuilt => ListBacked(s, After(s, step), 0, s.flush.fileNo);
    case ListOutput =>
      if s.compaction.out.Some? {
        ListBacked(s, After(s, step), s.compaction.src + 1, s.compaction.out.value);
      } else {
        GrowBacked(s, After(s, step));
      }
    case _ => GrowBacked(s, After(s, step));
  }

  lemma {:induction false} RunBacked(states: seq<State>, steps: seq<Step>, dir: bytes, i: nat)
    requires Run(states, steps, dir) && i < |states|
    requires forall j :: 0 <= j < |steps| ==> SameSpelling(states[j], steps[j])
    ensures Backed(states[i])
  {
    hide Inv, Enabled, After, Init, Backed, SameSpelling;
    if i == 0 {
      InitBacked(dir);
    } else {
      RunBacked(states, steps, dir, i - 1);
      RunKeeps(states, steps, dir, i - 1);
      StepBacked(states[i - 1], steps[i - 1]);
    }
  }

  lemma InitBacked(dir: bytes)
    ensures Backed(Init(dir))
  {
    hide Grown;
    RosterIs(Init(dir));
  }

  /**
    In every run in which the directory keeps its spelling, the roster in memory and every roster that a crash could
    leave in MANIFEST list only files that exist.
   */
  lemma ListedFilesExist(states: seq<State>, steps: seq<Step>, dir: bytes, i: nat, kept: nat, level: nat, m: Meta)
    requires Run(states, steps, dir) && i < |states|
    requires forall j :: 0 <= j < |steps| ==> SameSpelling(states[j], steps[j])
    requires states[i].durable <= kept <= |states[i].edits| && m in FilesAt(RosterAt(states[i], kept), level)
    ensures Tail(m.path) in states[i].tables
  {
    hide Run, RosterAt, FilesAt, Tail, TableTail, TablePath, SameSpelling;
    RunBacked(states, steps, dir, i);
    TailOfPath(states[i].dir, level, m.fileNo);
  }

  // ---- The purge ----

  ghost predicate OnDisk(s: State) {
    forall i: nat, m :: m in FilesAt(Roster(s), i) ==> Tail(m.path) in s.tables
  }

  ghost predicate SpelledHere(s: State) {
    forall i: nat, m :: m in FilesAt(Roster(s), i) ==> m.path == TablePath(s.dir, i, m.fileNo)
  }

  /** The purge of an opening spares every listed file exactly when all are recorded in this session's spelling. */
  lemma PurgeSparesIff(s: State)
    requires Inv(s) && s.opening && OnDisk(s)
    ensures (forall i: nat, m :: m in FilesAt(Roster(s), i) ==> !Enabled(s, Purge(Tail(m.path)))) <==> SpelledHere(s)
  {
    hide Roster, RosterAt, Storable, BytesOk, ThreadsOk, LogsBelow, FilesAt, Tail, TableTail, Good, Rosters;
    GoodNow(s);
    forall i: nat, m | m in FilesAt(Roster(s), i)
      ensures !Enabled(s, Purge(Tail(m.path))) <==> m.path == TablePath(s.dir, i, m.fileNo)
    {
      SparedIff(s, i, m);
    }
  }

  lemma SparedIff(s: State, i: nat, m: Meta)
    requires Copies(s) && Good(Roster(s), s.next) && s.opening && OnDisk(s) && m in FilesAt(Roster(s), i)
    ensures !Enabled(s, Purge(Tail(m.path))) <==> m.path == TablePath(s.dir, i, m.fileNo)
  {
    hide Roster, Storable, FilesAt, Tail, TableTail;
    PlacedTail(m, i);
    assert FilesAt(s.manifest, i) == FilesAt(Roster(s), i);
    var path := TablePath(s.dir, i, m.fileNo);
    assert path == s.dir + [SLASH] + Tail(m.path);
    if j: nat, x :| x in FilesAt(s.manifest, j) && x.path == path {
      assert x in FilesAt(Roster(s), j) by { assert FilesAt(s.manifest, j) == FilesAt(Roster(s), j); }
      var dir :| x.path == TablePath(dir, j, x.fileNo);
      PathInjective(s.dir, i, m.fileNo, dir, j, x.fileNo);
    }
  }

  /** The failing family: opened under another spelling, a listed file is purged and stays listed. */
  lemma RespelledPurge(s: State, dir: bytes, level: nat, n: nat)
    requires Inv(s) && s.opening && OnDisk(s) && dir != s.dir
    requires Meta(TablePath(dir, level, n), n) in FilesAt(Roster(s), level)
    ensures Enabled(s, Purge(TableTail(level, n)))
    ensures var t := After(s, Purge(TableTail(level, n)));
            Roster(t) == Roster(s) && TableTail(level, n) !in t.tables
  {
    hide Roster, RosterAt, Storable, BytesOk, ThreadsOk, LogsBelow, FilesAt, Tail, TableTail, Good, Rosters, TablePath;
    GoodNow(s);
    var m := Meta(TablePath(dir, level, n), n);
    SparedIff(s, level, m);
    TailOfPath(dir, level, n);
    if TablePath(dir, level, n) == TablePath(s.dir, level, n) { PathInjective(dir, level, n, s.dir, level, n); }
    SameRosters(s, After(s, Purge(TableTail(level, n))));
  }

  /** A flush lists its table, durably, under the session's spelling. */
  lemma FlushLists(s: State) returns (t: State, u: State, v: State)
    requires Inv(s) && Backed(s) && !s.opening && s.flush.Idle? && HasRoom(s, 0)
    ensures Enabled(s, Build) && t == After(s, Build)
    ensures Enabled(t, ListBuilt) && u == After(t, ListBuilt)
    ensures Enabled(u, SyncBuilt) && v == After(u, SyncBuilt)
    ensures Inv(v) && Backed(v) && v.dir == s.dir && v.durable == |v.edits|
    ensures Meta(TablePath(s.dir, 0, s.next), s.next) in FilesAt(Roster(v), 0)
  {
    hide Inv, Backed, Roster, RosterAt, TablePath, TableTail, AddFile, FilesAt, ApplyEdit;
    t := After(s, Build);
    StepKeeps(s, Build);
    StepBacked(s, Build);
    u := After(t, ListBuilt);
    StepKeeps(t, ListBuilt);
    StepBacked(t, ListBuilt);
    v := After(u, SyncBuilt);
    StepKeeps(u, SyncBuilt);
    StepBacked(u, SyncBuilt);
    SameRosters(s, t);
    AppendedOne(t, u, Addition(s.dir, 0, s.next));
    SameRosters(u, v);
    AddedLast(Roster(t), s.dir, 0, s.next);
  }

  lemma AddedLast(l: Levels, dir: bytes, level: nat, n: nat)
    ensures Meta(TablePath(dir, level, n), n) in FilesAt(ApplyEdit(l, Addition(dir, level, n)), level)
  {
    hide FilesAt, TablePath, AddFile;
    AddMembers(l, level, Meta(TablePath(dir, level, n), n));
  }

  /** A crash that loses nothing, and an opening under another spelling. */
  lemma Respelled(s: State, dir: bytes) returns (t: State)
    requires Inv(s) && Backed(s) && s.durable == |s.edits|
    ensures Enabled(s, Crash(|s.content|, dir)) && t == After(s, Crash(|s.content|, dir))
    ensures Inv(t) && t.opening && t.dir == dir && Roster(t) == Roster(s) && OnDisk(t)
  {
    hide Fold, NoFiles, EditLog, Replay, EditsOf, Grown, Restored, ThreadsOk, LogsBelow, Copies, Rosters, FilesAt,
         TablePath, TableTail, Tail, AllRecordable;
    assert s.edits[..|s.edits|] == s.edits;
    t := After(s, Crash(|s.content|, dir));
    StepKeeps(s, Crash(|s.content|, dir));
    var k := CrashEdits(s, |s.content|);
    RosterIs(s);
    forall i: nat, m | m in FilesAt(Roster(t), i) ensures Tail(m.path) in t.tables {
      assert m in FilesAt(RosterAt(s, |s.edits|), i);
      TailOfPath(s.dir, i, m.fileNo);
    }
  }

  /**
    The run that fails, from an empty directory: open under one spelling, flush, crash, open under another. The purge
    unlinks the table, and MANIFEST goes on listing it.
   */
  lemma RespelledRun(dir: bytes, other: bytes) returns (states: seq<State>, steps: seq<Step>)
    requires dir != other && 17 + |TablePath(dir, 0, 2)| <= MAX_PAYLOAD
    ensures Run(states, steps, dir) && |steps| == 6 && states[5].dir == other
    ensures Meta(TablePath(dir, 0, 2), 2) in FilesAt(Roster(states[6]), 0) && TableTail(0, 2) !in states[6].tables
  {
    hide Inv, Backed, Roster, RosterAt, TablePath, TableTail, FilesAt, OnDisk, ListedPath, Grown, NoFiles,
         SnapshotEdits, EditLog;
    var a := Init(dir);
    InitKeeps(dir);
    InitBacked(dir);
    var b := After(a, Snapshot);
    StepKeeps(a, Snapshot);
    StepBacked(a, Snapshot);
    var c, d, e := FlushLists(b);
    var f := Respelled(e, other);
    RespelledPurge(f, dir, 0, 2);
    var purge := Purge(TableTail(0, 2));
    steps := [Snapshot, Build, ListBuilt, SyncBuilt, Crash(|e.content|, other), purge];
    states := [a, b, c, d, e, f, After(f, purge)];
  }

  predicate IsTableName(path: bytes) {
    |path| >= 4 && path[|path| - 4..] == [DOT] + SST
  }

  /** The paths listed in the first `i` levels and the first `j` files of the next. */
  ghost predicate ListedUpTo(l: Levels, i: nat, j: nat, path: bytes)
    requires i < |l| ==> j <= |l[i]|
  {
    || (exists a, b :: 0 <= a < i && a < |l| && 0 <= b < |l[a]| && l[a][b].path == path)
    || (i < |l| && exists b :: 0 <= b < j && l[i][b].path == path)
  }

  lemma ListedUpToAll(l: Levels, path: bytes)
    ensures ListedUpTo(l, |l|, 0, path) <==> ListedPath(l, path)
  {
    if a, b :| 0 <= a < |l| && 0 <= b < |l[a]| && l[a][b].path == path {
      assert l[a][b] in FilesAt(l, a);
    }
    if level: nat, m :| m in FilesAt(l, level) && m.path == path {
      var b :| 0 <= b < |l[level]| && l[level][b] == m;
    }
  }

  lemma ListedNext(l: Levels, i: nat, j: nat, path: bytes)
    requires i < |l| && j < |l[i]|
    ensures ListedUpTo(l, i, j + 1, path) <==> ListedUpTo(l, i, j, path) || l[i][j].path == path
  {
  }

  lemma ListedLevel(l: Levels, i: nat, path: bytes)
    requires i < |l|
    ensures ListedUpTo(l, i, |l[i]|, path) <==> ListedUpTo(l, i + 1, 0, path)
  {
  }

  method LivePaths(l: Levels) returns (live: set<bytes>)
    ensures forall path :: path in live <==> ListedPath(l, path)
  {
    hide ListedUpTo;
    live := {};
    var i := 0;
    NothingBefore(l);
    while i < |l|
      invariant 0 <= i <= |l| && forall path :: path in live <==> ListedUpTo(l, i, 0, path)
    {
      var j := 0;
      while j < |l[i]|
        invariant 0 <= i < |l| && 0 <= j <= |l[i]| && forall path :: path in live <==> ListedUpTo(l, i, j, path)
      {
        forall path ensures ListedUpTo(l, i, j + 1, path) <==> path in live + {l[i][j].path} {
          ListedNext(l, i, j, path);
        }
        live := live + {l[i][j].path};
        j := j + 1;
      }
      forall path ensures path in live <==> ListedUpTo(l, i + 1, 0, path) {
        ListedLevel(l, i, path);
      }
      i := i + 1;
    }
    forall path ensures path in live <==> ListedPath(l, path) {
      ListedUpToAll(l, path);
    }
  }

  lemma NothingBefore(l: Levels)
    ensures forall path :: !ListedUpTo(l, 0, 0, path)
  {
  }

  /**
    `purgeOrphanSSTables` over the files found under the level directories: of the table files exactly those stay
    whose path, in this session's spelling, is listed.
   */
  method PurgeOrphans(l: Levels, dir: bytes, found: seq<bytes>) returns (kept: seq<bytes>)
    ensures forall tail :: tail in kept <==>
              tail in found && (IsTableName(dir + [SLASH] + tail) ==> ListedPath(l, dir + [SLASH] + tail))
  {
    hide ListedPath, IsTableName;
    var live := LivePaths(l);
    kept := [];
    for i := 0 to |found|
      invariant forall tail :: tail in kept <==>
                  tail in found[..i] && (IsTableName(dir + [SLASH] + tail) ==> ListedPath(l, dir + [SLASH] + tail))
    {
      assert found[..i + 1] == found[..i] + [found[i]];
      var full := dir + [SLASH] + found[i];
      if !IsTableName(full) || full in live {
        kept := kept + [found[i]];
      }
    }
    assert found[..|found|] == found;
  }
}
