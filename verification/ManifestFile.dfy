/**
  MANIFEST, MANIFEST.new and MANIFEST.bak on a disk that may lose unsynced bytes
  (`minikv/src/core/manifest.cpp`).
 */
module ManifestFile {
  import opened Bytes
  import opened Coding
  import opened Crc32c
  import opened Wal
  import opened ManifestLog

  /** A file: its bytes, of which the first `synced` are known to be on the medium. */
  datatype File = File(content: bytes, synced: nat)

  datatype Disk = Disk(active: Option<File>, neu: Option<File>, bak: Option<File>)

  /** What a crash may leave of a file: the synced bytes and any part of what follows. */
  ghost predicate FileAfterCrash(f: Option<File>, g: Option<File>) {
    match f
    case None => g.None?
    case Some(f) =>
      g.Some? && f.synced <= |g.value.content| && g.value.content <= f.content && g.value.synced == |g.value.content|
  }

  ghost predicate AfterCrash(d: Disk, e: Disk) {
    FileAfterCrash(d.active, e.active) && FileAfterCrash(d.neu, e.neu) && FileAfterCrash(d.bak, e.bak)
  }

  /** `recoverActivePathUnlocked`: keep MANIFEST, else promote `.new`, else restore `.bak`. */
  function Recovered(d: Disk): Disk {
    if d.active.Some? then d.(neu := None)
    else if d.neu.Some? then Disk(d.neu, None, d.bak)
    else if d.bak.Some? then Disk(d.bak, None, None)
    else d
  }

  /** The roster the next `open` reads. */
  function RosterOnDisk(d: Disk): Levels {
    var active := Recovered(d).active;
    if active.Some? then ReplayManifest(active.value.content) else NoFiles()
  }

  /** Whatever a crash does to the disk now, reopening reads the roster `l`. */
  ghost predicate CrashSafe(d: Disk, l: Levels) {
    forall e :: AfterCrash(d, e) ==> SameRoster(RosterOnDisk(e), l)
  }

  ghost predicate Holds(f: File, l: Levels) {
    f.synced == |f.content| && SameRoster(ReplayManifest(f.content), l)
  }

  /** The inductive form of `CrashSafe`: where the roster is safely stored. */
  ghost predicate Secured(d: Disk, l: Levels) {
    if d.active.Some? then Holds(d.active.value, l)
    else if d.neu.Some? then Holds(d.neu.value, l)
    else if d.bak.Some? then Holds(d.bak.value, l)
    else SameRoster(NoFiles(), l)
  }

  lemma SecuredIsCrashSafe(d: Disk, l: Levels)
    requires Secured(d, l)
    ensures CrashSafe(d, l)
  {
    hide ReplayManifest, SameRoster, NoFiles;
    forall e | AfterCrash(d, e) ensures SameRoster(RosterOnDisk(e), l) {
      if d.active.Some? {
        assert e.active.value.content == d.active.value.content;
      } else if d.neu.Some? {
        assert e.neu.value.content == d.neu.value.content;
      } else if d.bak.Some? {
        assert e.bak.value.content == d.bak.value.content;
      }
    }
  }

  /** A crash and the first step of the next open both keep the roster secured, so any number of them do. */
  lemma SecuredThroughCrash(d: Disk, e: Disk, l: Levels)
    requires Secured(d, l) && AfterCrash(d, e)
    ensures Secured(e, l) && Secured(Recovered(e), l)
  {
    hide ReplayManifest, SameRoster, NoFiles;
    if d.active.Some? {
      assert e.active.value.content == d.active.value.content;
    } else if d.neu.Some? {
      assert e.neu.value.content == d.neu.value.content;
    } else if d.bak.Some? {
      assert e.bak.value.content == d.bak.value.content;
    }
  }

  /** After any crash at all, what the next open will read is secured. */
  lemma CrashLeavesSecured(d: Disk, e: Disk)
    requires AfterCrash(d, e)
    ensures Secured(e, RosterOnDisk(e))
  {
    hide ReplayManifest, NoFiles;
  }

  ghost predicate AllSecured(trail: seq<Disk>, l: Levels) {
    forall i :: 0 <= i < |trail| ==> Secured(trail[i], l)
  }

  lemma SecuredSame(d: Disk, a: Levels, b: Levels)
    requires Secured(d, a) && SameRoster(a, b)
    ensures Secured(d, b)
  {
    hide ReplayManifest, SameRoster, NoFiles;
    if d.active.Some? {
      SameTrans(ReplayManifest(d.active.value.content), a, b);
    } else if d.neu.Some? {
      SameTrans(ReplayManifest(d.neu.value.content), a, b);
    } else if d.bak.Some? {
      SameTrans(ReplayManifest(d.bak.value.content), a, b);
    } else {
      SameTrans(NoFiles(), a, b);
    }
  }

  lemma EmptyFileHolds()
    ensures ReplayManifest([]) == NoFiles()
  {
    hide NoFiles;
    EmptyFile([]);
    assert Replay([]) == [];
  }

  /** `Manifest::replay`: fold records into a fresh roster until one is short, damaged or malformed. */
  method ReadRoster(file: bytes) returns (tmp: Levels)
    ensures tmp == ReplayManifest(file)
  {
    hide Checksum, DecodeLE, Fold, ApplyEdit, NoFiles, DecodePayload, EditsOf, Replay;
    tmp := NoFiles();
    var p := 0;
    assert file[0..] == file;
    while true
      invariant 0 <= p <= |file|
      invariant ReplayManifest(file) == Fold(tmp, EditsOf(Replay(file[p..])))
      decreases |file| - p
    {
      ghost var f := file[p..];
      NoMoreEdits(f, tmp);
      if |file| - p < 8 { break; }
      var crc, len := DecodeLE(file[p..p + 4]), DecodeLE(file[p + 4..p + 8]);
      assert f[..4] == file[p..p + 4] && f[4..8] == file[p + 4..p + 8];
      if len == 0 || len > MAX_PAYLOAD { break; }
      if |file| - p - 8 < len { break; }
      var payload := file[p + 8..p + 8 + len];
      assert f[8..8 + len] == payload;
      if Checksum(payload) != crc { break; }
      NextRecord(f, payload, tmp);
      assert f[8 + len..] == file[p + 8 + len..];
      p := p + 8 + len;
      match DecodePayload(payload)
      case Stop => break;
      case Skip =>
      case Do(e) => tmp := ApplyEdit(tmp, e);
    }
  }

  /** A file whose first record is missing, empty or oversized adds nothing to the roster. */
  lemma NoMoreEdits(f: bytes, l: Levels)
    ensures FirstRecord(f).None? ==> Fold(l, EditsOf(Replay(f))) == l
    ensures FirstRecord(f).Some? && (|FirstRecord(f).value| == 0 || |FirstRecord(f).value| > MAX_PAYLOAD) ==>
              Fold(l, EditsOf(Replay(f))) == l
  {
    hide FirstRecord, ApplyEdit;
    var rs := Replay(f);
    if FirstRecord(f).Some? {
      assert rs[0] == FirstRecord(f).value;
    }
  }

  lemma NextRecord(f: bytes, payload: bytes, l: Levels)
    requires FirstRecord(f) == Some(payload)
    ensures var rest := EditsOf(Replay(f[8 + |payload|..]));
            Fold(l, EditsOf(Replay(f))) ==
              match DecodePayload(payload)
              case Stop => l
              case Skip => Fold(l, rest)
              case Do(e) => Fold(ApplyEdit(l, e), rest)
  {
    hide FirstRecord, ApplyEdit, DecodePayload;
    var tail := Replay(f[8 + |payload|..]);
    assert Replay(f) == [payload] + tail;
    assert ([payload] + tail)[1..] == tail;
    var rest := EditsOf(tail);
    match DecodePayload(payload)
    case Stop =>
    case Skip =>
    case Do(e) =>
      assert EditsOf(Replay(f)) == [e] + rest;
      FoldConcat(l, [e], rest);
      FoldSnoc(l, [], e);
      assert [] + [e] == [e];
  }

  // ---- File operations that fail ----

  /** Which operations of `open` succeed: the unlink of a stale `.new`, the recovery rename, the final open. */
  datatype OpenOps = OpenOps(unlinks: bool, renames: bool, creates: bool)

  /** `recoverActivePathUnlocked`, which ignores its results. */
  function ChosenPath(d: Disk, ops: OpenOps): Disk {
    if d.active.Some? then (if ops.unlinks then d.(neu := None) else d)
    else if ops.renames then Recovered(d)
    else d
  }

  /** Then MANIFEST is opened, and created if there is none. */
  function OpenedDisk(d: Disk, ops: OpenOps): Disk {
    var e := ChosenPath(d, ops);
    if ops.creates && e.active.None? then e.(active := Some(File([], 0))) else e
  }

  /** MANIFEST exists, or the rename to it succeeds, or there is nothing to rename, or none is created. */
  predicate OpenSafe(d: Disk, ops: OpenOps) {
    d.active.Some? || ops.renames || (d.neu.None? && d.bak.None?) || !ops.creates
  }

  /** Opening keeps the roster exactly when it is safe in that sense, or the roster lists nothing. */
  lemma OpenKeepsIff(d: Disk, ops: OpenOps, l: Levels)
    requires Secured(d, l)
    ensures SameRoster(RosterOnDisk(OpenedDisk(d, ops)), l) <==> OpenSafe(d, ops) || SameRoster(NoFiles(), l)
    ensures OpenSafe(d, ops) ==> Secured(ChosenPath(d, ops), l) && Secured(OpenedDisk(d, ops), l)
  {
    hide ReplayManifest, SameRoster, NoFiles;
    EmptyFileHolds();
  }

  /** The failing family: the rename fails, an empty MANIFEST is created, and every later open prefers it. */
  lemma FailedRecoveryForgets(d: Disk, ops: OpenOps, again: OpenOps)
    requires d.active.None? && (d.neu.Some? || d.bak.Some?) && !ops.renames && ops.creates
    ensures RosterOnDisk(OpenedDisk(d, ops)) == NoFiles()
    ensures RosterOnDisk(OpenedDisk(OpenedDisk(d, ops), again)) == NoFiles()
  {
    hide ReplayManifest, NoFiles;
    EmptyFileHolds();
  }

  /**
    Which operations of `rewriteSnapshot` succeed: creating `.new`, its record writes (all, or the first few and
    then a torn one), its sync, the unlink of a failed `.new`, the unlink of `.bak`, the rename that archives, the
    rename that promotes, the rename that rolls back, the reopen.
   */
  datatype SnapshotOps = SnapshotOps(
    creates: bool, writes: Option<nat>, torn: nat, syncs: bool, cleans: bool,
    unlinks: bool, archives: bool, promotes: bool, rolls: bool, reopens: bool)

  predicate AllSucceed(ops: SnapshotOps) {
    ops.creates && ops.writes.None? && ops.syncs && ops.promotes && ops.reopens
  }

  function Unlinked(d: Disk, ops: SnapshotOps): Disk {
    if ops.unlinks then d.(bak := None) else d
  }

  function Archived(d: Disk, ops: SnapshotOps): Disk {
    var e := Unlinked(d, ops);
    if ops.archives then Disk(None, e.neu, e.active) else e
  }

  function Published(d: Disk, ops: SnapshotOps): Disk {
    var e := Archived(d, ops);
    if ops.promotes then Disk(e.neu, None, e.bak)
    else if ops.rolls && e.bak.Some? then Disk(e.bak, e.neu, None)
    else e
  }

  /** An old `.bak` was not unlinked, MANIFEST not archived, `.new` not promoted, and the rollback works. */
  predicate RollsBackStale(d: Disk, ops: SnapshotOps) {
    d.bak.Some? && !ops.unlinks && !ops.archives && !ops.promotes && ops.rolls
  }

  /** Publishing keeps the roster exactly when it does not roll back to a stale archive, or that lists the same. */
  lemma PublishKeepsIff(d: Disk, ops: SnapshotOps, l: Levels)
    requires d.active.Some? && d.neu.Some? && Holds(d.active.value, l) && Holds(d.neu.value, l)
    ensures SameRoster(RosterOnDisk(Published(d, ops)), l) <==>
            !RollsBackStale(d, ops) || SameRoster(ReplayManifest(d.bak.value.content), l)
    ensures !RollsBackStale(d, ops) ==> Secured(Published(d, ops), l)
    ensures Secured(Unlinked(d, ops), l) && Secured(Archived(d, ops), l)
  {
    hide ReplayManifest, SameRoster, NoFiles;
  }

  /** The failing family: the roster that comes back is that of the old archive. */
  lemma StaleArchiveReturns(d: Disk, ops: SnapshotOps)
    requires d.active.Some? && d.neu.Some? && RollsBackStale(d, ops)
    ensures RosterOnDisk(Published(d, ops)) == ReplayManifest(d.bak.value.content)
  {
    hide ReplayManifest;
  }

  class Manifest {
    var disk: Disk
    var levels: Levels
    // Every disk state passed through, in order.
    ghost var trail: seq<Disk>
    // The edits behind the bytes of MANIFEST, once a snapshot has been written.
    ghost var edits: seq<Edit>

    /** MANIFEST is exactly a log of edits. */
    ghost predicate IsLog()
      reads this
    {
      && disk.active.Some?
      && disk.active.value.content == EditLog(edits)
      && disk.active.value.synced <= |EditLog(edits)|
      && AllRecordable(edits)
    }

    /** ... and they fold to the roster in memory. */
    ghost predicate Logged()
      reads this
    {
      IsLog() && SameRoster(levels, Fold(NoFiles(), edits))
    }

    constructor (existing: Disk)
      ensures disk == existing && trail == [existing]
    {
      disk := existing;
      levels := [];
      trail := [existing];
      edits := [];
    }

    /** `Manifest::open`, whichever of its file operations succeed. */
    method Open(ops: OpenOps) returns (ok: bool)
      modifies this
      ensures disk == OpenedDisk(old(disk), ops) && ok == ops.creates && (ok ==> disk.active.Some?)
      ensures levels == if ok then ReplayManifest(disk.active.value.content) else NoFiles()
      ensures trail == old(trail) + [ChosenPath(old(disk), ops), disk]
    {
      hide ReplayManifest, NoFiles;
      levels := NoFiles();
      if disk.active.Some? {
        if ops.unlinks { disk := disk.(neu := None); }
      } else if disk.neu.Some? {
        if ops.renames { disk := Disk(disk.neu, None, disk.bak); }
      } else if disk.bak.Some? {
        if ops.renames { disk := Disk(disk.bak, None, None); }
      }
      trail := trail + [disk];
      if ops.creates && disk.active.None? {
        disk := disk.(active := Some(File([], 0)));
      }
      trail := trail + [disk];
      if !ops.creates { return false; }
      levels := ReadRoster(disk.active.value.content);
      ok := true;
    }

    /** The two nested loops of `rewriteSnapshot` that fill the new file. */
    method WriteSnapshot(ops: SnapshotOps) returns (ok: bool)
      requires disk.active.Some? && disk.neu == Some(File([], 0))
      requires Secured(disk, levels) && Storable(levels)
      modifies this
      ensures levels == old(levels) && disk.active == old(disk.active) && disk.bak == old(disk.bak)
      ensures old(trail) <= trail && AllSecured(trail[|old(trail)|..], levels)
      ensures ok ==> disk.neu == Some(File(EditLog(SnapshotEdits(levels, |levels|)), 0))
      ensures !ok ==> ops.writes.Some?
    {
      hide EditLog, SnapshotEdits, SameRoster, ReplayManifest, Storable, Payload, Frame;
      var wrote, i := 0, 0;
      EmptyLog(levels);
      while i < |levels|
        invariant 0 <= i <= |levels| && levels == old(levels)
        invariant disk == Disk(old(disk.active), Some(File(EditLog(SnapshotEdits(levels, i)), 0)), old(disk.bak))
        invariant old(trail) <= trail && AllSecured(trail[|old(trail)|..], levels)
      {
        var j := 0;
        NoEdits(levels, i);
        while j < |levels[i]|
          invariant 0 <= i < |levels| && 0 <= j <= |levels[i]| && levels == old(levels)
          invariant disk == Disk(old(disk.active), Some(File(PartialSnapshot(levels, i, j), 0)), old(disk.bak))
          invariant old(trail) <= trail && AllSecured(trail[|old(trail)|..], levels)
        {
          var record := Frame(Payload(Edit(ADD, i, levels[i][j].path, levels[i][j].fileNo)));
          var so := disk.neu.value.content;
          if ops.writes == Some(wrote) {
            var torn := if ops.torn <= |record| then record[..ops.torn] else record;
            disk := disk.(neu := Some(File(so + torn, 0)));
            Step();
            if ops.cleans { disk := disk.(neu := None); }
            Step();
            return false;
          }
          disk := disk.(neu := Some(File(so + record, 0)));
          NextEdit(levels, i, j);
          Step();
          wrote, j := wrote + 1, j + 1;
        }
        LevelDone(levels, i);
        i := i + 1;
      }
      ok := true;
    }

    ghost method Step()
      requires disk.active.Some? && Secured(disk, levels)
      modifies this`trail
      ensures trail == old(trail) + [disk]
      ensures forall n: nat :: n <= |old(trail)| && AllSecured(old(trail)[n..], levels) ==>
                AllSecured(trail[n..], levels)
    {
      hide Secured;
      trail := trail + [disk];
    }

    /**
      `Manifest::rewriteSnapshot`. Unless it rolls back to a stale archive, the roster is secured at every step,
      whichever operations fail; if it does, that archive's roster is what is on disk.
     */
    method RewriteSnapshot(ops: SnapshotOps) returns (ok: bool)
      requires disk.active.Some? && Secured(disk, levels) && Storable(levels)
      modifies this
      ensures SameRoster(levels, old(levels)) && Storable(levels)
      ensures old(trail) <= trail && (ok <== AllSucceed(ops))
      ensures !Secured(disk, levels) ==>
                RollsBackStale(old(disk), ops) && RosterOnDisk(disk) == ReplayManifest(old(disk).bak.value.content)
      ensures !RollsBackStale(old(disk), ops) ==>
                Secured(disk, levels) && AllSecured(trail[|old(trail)|..], old(levels))
      ensures ok ==> Secured(disk, levels) && AllSecured(trail[|old(trail)|..], old(levels))
      ensures ok ==> Logged() && disk.active.value.synced == |disk.active.value.content|
    {
      hide EditLog, SnapshotEdits, SameRoster, ReplayManifest, Storable, AllRecordable, Fold, NoFiles, RosterOnDisk;
      var was := levels;
      SameRefl(was);
      NoneSecured(levels);
      if !ops.creates { assert trail[|old(trail)|..] == []; return false; }
      disk := disk.(neu := Some(File([], 0)));
      Step();
      ok := WriteSnapshot(ops);
      if !ok { return false; }
      if !ops.syncs {
        if ops.cleans { disk := disk.(neu := None); }
        Step();
        return false;
      }
      var neu := disk.neu.value.content;
      disk := disk.(neu := Some(File(neu, |neu|)));
      Step();
      SnapshotReplays(was);
      ok := Publish(ops);
      if ok && !ops.reopens { return false; }
      if ok {
        levels := Grown(levels, 8);
        SameGrown(was, 8);
        GrownStorable(was, 8);
        SecuredSame(disk, was, levels);
        edits := SnapshotEdits(was, |was|);
        SnapshotFolds(was, levels);
      }
    }

    /** `writeRecord` to the active file. */
    method Append(e: Edit)
      requires IsLog() && Recordable(e)
      modifies this`disk, this`edits
      ensures IsLog() && edits == old(edits) + [e]
      ensures disk == old(disk).(active := Some(File(EditLog(edits), old(disk).active.value.synced)))
    {
      hide EditLog, SameRoster, Fold, NoFiles, Payload, Frame, Recordable;
      EditLogConcat(edits, [e]);
      OneEdit(e);
      disk := disk.(active := Some(disk.active.value.(content := disk.active.value.content + Frame(Payload(e)))));
      edits := edits + [e];
    }

    method RecordAddFile(level: nat, path: bytes, fileNo: nat)
      requires Logged() && Recordable(Edit(ADD, level, path, fileNo))
      modifies this`disk, this`edits, this`levels
      ensures Logged() && edits == old(edits) + [Edit(ADD, level, path, fileNo)]
      ensures levels == AddFile(old(levels), level, Meta(path, fileNo))
      ensures disk.active.value.synced == old(disk).active.value.synced
    {
      hide EditLog, SameRoster, Fold, NoFiles, AddFile, Recordable;
      ghost var folded := Fold(NoFiles(), edits);
      FoldSnoc(NoFiles(), edits, Edit(ADD, level, path, fileNo));
      ApplySame(levels, folded, Edit(ADD, level, path, fileNo));
      levels := AddFile(levels, level, Meta(path, fileNo));
      Append(Edit(ADD, level, path, fileNo));
    }

    method RecordRemoveFile(level: nat, path: bytes, fileNo: nat)
      requires Logged() && Recordable(Edit(DEL, level, path, fileNo))
      modifies this`disk, this`edits, this`levels
      ensures Logged() && edits == old(edits) + [Edit(DEL, level, path, fileNo)]
      ensures levels == RemoveFile(old(levels), level, path)
      ensures disk.active.value.synced == old(disk).active.value.synced
    {
      hide EditLog, SameRoster, Fold, NoFiles, RemoveFile, Recordable;
      ghost var e := Edit(DEL, level, path, fileNo);
      FoldSnoc(NoFiles(), edits, e);
      RemoveAgrees(levels, Fold(NoFiles(), edits), e);
      levels := RemoveFile(levels, level, path);
      Append(Edit(DEL, level, path, fileNo));
    }

    method Sync()
      requires Logged()
      modifies this`disk
      ensures Logged() && disk == old(disk).(active := Some(File(EditLog(edits), |EditLog(edits)|)))
    {
      hide EditLog, SameRoster, Fold, NoFiles, AllRecordable;
      disk := disk.(active := Some(disk.active.value.(synced := |disk.active.value.content|)));
    }

    /** Archive the old log, then promote the new one; results of the first two operations are ignored. */
    method Publish(ops: SnapshotOps) returns (ok: bool)
      requires disk.active.Some? && disk.neu.Some? && Holds(disk.active.value, levels) && Holds(disk.neu.value, levels)
      modifies this`disk, this`trail
      ensures disk == Published(old(disk), ops) && ok == ops.promotes
      ensures old(trail) <= trail
      ensures !RollsBackStale(old(disk), ops) ==> Secured(disk, levels)
      ensures !RollsBackStale(old(disk), ops) ==>
                forall n: nat :: n <= |old(trail)| && AllSecured(old(trail)[n..], levels) ==>
                  AllSecured(trail[n..], levels)
      ensures RollsBackStale(old(disk), ops) ==> RosterOnDisk(disk) == ReplayManifest(old(disk).bak.value.content)
    {
      hide Holds, AllSecured, ReplayManifest, Secured;
      ghost var start, before := disk, trail;
      PublishKeepsIff(start, ops, levels);
      if RollsBackStale(start, ops) { StaleArchiveReturns(start, ops); }
      if ops.unlinks { disk := disk.(bak := None); }
      trail := trail + [disk];
      if ops.archives { disk := Disk(None, disk.neu, disk.active); }
      trail := trail + [disk];
      if ops.promotes {
        disk := Disk(disk.neu, None, disk.bak);
      } else if ops.rolls && disk.bak.Some? {
        disk := Disk(disk.bak, disk.neu, None);
      }
      trail := trail + [disk];
      ok := ops.promotes;
      assert trail == before + [Unlinked(start, ops), Archived(start, ops), disk];
      if !RollsBackStale(start, ops) {
        ThreeSecured(before, Unlinked(start, ops), Archived(start, ops), disk, levels);
      }
    }
  }

  /** `recordRemoveFile` does not grow the roster in memory; replay does, and the files are the same. */
  lemma RemoveAgrees(l: Levels, folded: Levels, e: Edit)
    requires SameRoster(l, folded) && e.kind == DEL
    ensures SameRoster(RemoveFile(l, e.level, e.path), ApplyEdit(folded, e))
  {
    hide WithoutPath, Grown, RemoveFile;
  }

  /**
    A crash of a log of edits of which the first `a` are synced: reopening reads the roster after those
    and some of the edits that followed, in order.
   */
  lemma CrashKeepsSyncedEdits(a: seq<Edit>, b: seq<Edit>, d: Disk, e: Disk)
    requires AllRecordable(a + b) && d.active.Some? && d.active.value.content == EditLog(a + b)
    requires |EditLog(a)| <= d.active.value.synced && AfterCrash(d, e)
    ensures exists k: nat {:trigger b[..k]} :: k <= |b| && RosterOnDisk(e) == Fold(NoFiles(), a + b[..k])
  {
    hide EditLog, Fold, NoFiles, AllRecordable, Replay, EditsOf;
    var left := e.active.value.content;
    var n := |left|;
    assert left == EditLog(a + b)[..n];
    ReplayEdits(a + b, n);
    var w := Whole(Payloads(a + b), n);
    WholeCovers(a, b, n);
    assert (a + b)[..w] == a + b[..w - |a|];
  }

  lemma SnapshotFolds(was: Levels, l: Levels)
    requires Storable(was) && SameRoster(l, was)
    ensures AllRecordable(SnapshotEdits(was, |was|))
    ensures SameRoster(l, Fold(NoFiles(), SnapshotEdits(was, |was|)))
  {
    hide Fold, SnapshotEdits, NoFiles;
    SnapshotRecordable(was, |was|);
    FoldSnapshot(was, |was|);
  }

  lemma ThreeSecured(before: seq<Disk>, a: Disk, b: Disk, c: Disk, l: Levels)
    requires Secured(a, l) && Secured(b, l) && Secured(c, l)
    ensures forall n: nat :: n <= |before| && AllSecured(before[n..], l) ==> AllSecured((before + [a, b, c])[n..], l)
  {
    hide Secured;
    forall n: nat | n <= |before| && AllSecured(before[n..], l) ensures AllSecured((before + [a, b, c])[n..], l) {
      assert (before + [a, b, c])[n..] == before[n..] + [a, b, c];
    }
  }

  lemma NoneSecured(l: Levels)
    ensures AllSecured([], l)
  {
  }

  /** The snapshot file when the first `i` levels and the first `j` files of the next are written. */
  ghost function PartialSnapshot(l: Levels, i: nat, j: nat): bytes
    requires i < |l| && j <= |l[i]|
  {
    EditLog(SnapshotEdits(l, i) + LevelEdits(l[i][..j], i))
  }

  lemma EmptyLog(l: Levels)
    ensures EditLog(SnapshotEdits(l, 0)) == []
  {
  }

  lemma NoEdits(l: Levels, i: nat)
    requires i < |l|
    ensures PartialSnapshot(l, i, 0) == EditLog(SnapshotEdits(l, i))
  {
    hide EditLog, SnapshotEdits;
    assert SnapshotEdits(l, i) + LevelEdits(l[i][..0], i) == SnapshotEdits(l, i);
  }

  lemma NextEdit(l: Levels, i: nat, j: nat)
    requires i < |l| && j < |l[i]|
    ensures PartialSnapshot(l, i, j + 1)
         == PartialSnapshot(l, i, j) + Frame(Payload(Edit(ADD, i, l[i][j].path, l[i][j].fileNo)))
  {
    hide EditLog, SnapshotEdits, Payload, Frame;
    var e := Edit(ADD, i, l[i][j].path, l[i][j].fileNo);
    assert LevelEdits(l[i][..j + 1], i) == LevelEdits(l[i][..j], i) + [e];
    assert SnapshotEdits(l, i) + LevelEdits(l[i][..j + 1], i) == (SnapshotEdits(l, i) + LevelEdits(l[i][..j], i)) + [e];
    EditLogConcat(SnapshotEdits(l, i) + LevelEdits(l[i][..j], i), [e]);
    OneEdit(e);
  }

  lemma OneEdit(e: Edit)
    ensures EditLog([e]) == Frame(Payload(e))
  {
    hide Payload, Frame;
    assert Payloads([e]) == [Payload(e)];
    assert Log([Payload(e)][1..]) == [];
    assert Log([Payload(e)]) == Frame(Payload(e)) + [];
  }

  lemma LevelDone(l: Levels, i: nat)
    requires i < |l|
    ensures PartialSnapshot(l, i, |l[i]|) == EditLog(SnapshotEdits(l, i + 1))
  {
    hide EditLog;
    assert l[i][..|l[i]|] == l[i];
  }
}
