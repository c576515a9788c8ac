/** The roster in memory, its agreement with MANIFEST, and file numbers (`minikv/src/core/version.cpp`). */
module Roster {
  import opened Bytes
  import opened FileNames
  import opened ManifestLog
  import opened ManifestFile
  import opened RosterSpec

  class Version {
    var levels: Levels
    var nextFileNumber: nat
    const manifest: Manifest

    constructor (manifest: Manifest)
      ensures this.manifest == manifest && nextFileNumber == 1
    {
      this.manifest := manifest;
      levels := seq(7, _ => []);
      nextFileNumber := 1;
    }

    /**
      Memory, the manifest object and the bytes of MANIFEST list the same files in the same order; they fit a
      snapshot; and the counter lies above all of them.
     */
    ghost predicate Valid()
      reads this, manifest
    {
      manifest.Logged() && SameRoster(levels, manifest.levels) && Storable(levels) && AllBelow(levels, nextFileNumber)
    }

    /** `restoreFrom`. */
    method RestoreFrom(snapshot: Levels)
      modifies this
      ensures levels == Grown(snapshot, 7) && nextFileNumber == Restored(old(nextFileNumber), Grown(snapshot, 7))
      ensures AllBelow(levels, nextFileNumber)
    {
      hide Grown, Highest, HighestIn, AllBelow;
      var all := Grown(snapshot, 7);
      levels := all;
      var max, i := 0, 0;
      HighestNone(all[..0], []);
      while i < |all|
        invariant 0 <= i <= |all| && max == Highest(all[..i])
        invariant levels == all && nextFileNumber == old(nextFileNumber)
      {
        var j, files := 0, all[i];
        HighestNone([], files[..0]);
        ghost var before := max;
        while j < |files|
          invariant 0 <= j <= |files| && max == Max(before, HighestIn(files[..j]))
          invariant levels == all && nextFileNumber == old(nextFileNumber)
        {
          HighestNext(files, j);
          if files[j].fileNo > max { max := files[j].fileNo; }
          j := j + 1;
        }
        assert files[..j] == files;
        HighestLevel(all, i);
        i := i + 1;
      }
      assert all[..i] == all;
      if max >= nextFileNumber { nextFileNumber := max + 1; }
      RestoredAbove(old(nextFileNumber), levels);
    }

    /** `nextFileNumber`: every number handed out lies above all live tables. */
    method NextFileNumber() returns (n: nat)
      requires Valid()
      modifies this`nextFileNumber
      ensures Valid() && n == old(nextFileNumber) && nextFileNumber == n + 1 && AllBelow(levels, n)
    {
      n := nextFileNumber;
      nextFileNumber := n + 1;
    }

    method EnsureNextFileNumberAtLeast(min: nat)
      requires Valid()
      modifies this`nextFileNumber
      ensures Valid() && nextFileNumber == Max(old(nextFileNumber), min)
    {
      if nextFileNumber < min { nextFileNumber := min; }
    }

    /** `addLevelFile`: memory first, then the record, then the sync. */
    method AddLevelFile(level: int, path: bytes)
      requires Valid()
      requires level < 0x8000_0000 && 17 + |path| <= MAX_PAYLOAD && nextFileNumber < U64
      modifies this, manifest
      ensures Valid()
      ensures level < 0 ==>
                levels == old(levels) && nextFileNumber == old(nextFileNumber) && manifest.edits == old(manifest.edits)
      ensures level >= 0 ==>
                var found := NumberInPath(path);
                var n := if found.Some? then found.value else old(nextFileNumber);
                && levels == AddFile(old(levels), level, Meta(path, n))
                && nextFileNumber == Max(old(nextFileNumber), n + 1)
                && manifest.edits == old(manifest.edits) + [Edit(ADD, level, path, n)]
                && manifest.disk.active.value.synced == |manifest.disk.active.value.content|
    {
      hide SameRoster, AllBelow, AddFile, Grown, NumberInPath, Manifest.Logged, Storable;
      if level < 0 { return; }
      var fileNo;
      var found := NumberInPath(path);
      if found.Some? {
        fileNo := found.value;
        if fileNo + 1 > nextFileNumber { nextFileNumber := fileNo + 1; }
      } else {
        fileNo := nextFileNumber;
        nextFileNumber := nextFileNumber + 1;
      }
      NumberSmall(path);
      AddedBelow(levels, level, Meta(path, fileNo), old(nextFileNumber), nextFileNumber);
      AddedSame(levels, manifest.levels, level, Meta(path, fileNo));
      AddedStorable(levels, level, Meta(path, fileNo));
      levels := AddFile(levels, level, Meta(path, fileNo));
      manifest.RecordAddFile(level, path, fileNo);
      manifest.Sync();
      LoggedActive(manifest);
    }

    /** `removeLevelFiles`: one record per file that goes, then one sync. */
    method RemoveLevelFiles(level: int, paths: seq<bytes>)
      requires Valid()
      modifies this, manifest
      ensures Valid() && nextFileNumber == old(nextFileNumber)
      ensures !(0 <= level < |old(levels)|) ==> levels == old(levels) && manifest.edits == old(manifest.edits)
      ensures 0 <= level < |old(levels)| ==>
                && levels == old(levels)[level := WithoutPaths(old(levels)[level], paths)]
                && manifest.edits == old(manifest.edits) + Removals(old(levels)[level], level, paths)
                && manifest.disk.active.value.synced == |manifest.disk.active.value.content|
    {
      hide WithoutPaths, WithoutPath, AllBelow, Manifest.Logged, RemoveFile, Removals, GonePaths, Storable;
      if level < 0 || level >= |levels| { return; }
      var files := levels[level];
      var kept: seq<Meta>, k := [], 0;
      ghost var base, edits := manifest.levels, manifest.edits;
      ghost var gone: seq<bytes> := [];
      NothingYet(files, level, paths);
      WithoutNone(files);
      RemovedStorable(levels, level, paths);
      RemovedBelow(levels, level, paths, nextFileNumber);
      while k < |files|
        invariant 0 <= k <= |files| && manifest.Logged()
        invariant levels == old(levels) && nextFileNumber == old(nextFileNumber)
        invariant kept == WithoutPaths(files[..k], paths) && gone == GonePaths(files[..k], paths)
        invariant manifest.edits == edits + Removals(files[..k], level, paths)
        invariant forall i: nat :: FilesAt(manifest.levels, i)
                                == if i == level then WithoutPaths(files, gone) else FilesAt(base, i)
      {
        var m := files[k];
        KeptNext(files, k, paths);
        GoneNext(files, k, level, paths);
        if m.path in paths {
          WithoutOneMore(files, gone, m.path);
          FileRecordable(levels, level, k);
          manifest.RecordRemoveFile(level, m.path, m.fileNo);
          gone := gone + [m.path];
        } else {
          kept := kept + [m];
        }
        k := k + 1;
      }
      assert files[..k] == files;
      GoneSuffices(files, paths);
      levels := levels[level := kept];
      manifest.Sync();
      LoggedActive(manifest);
    }
  }

  lemma HighestNone(l: Levels, files: seq<Meta>)
    requires |l| == 0 && |files| == 0
    ensures Highest(l) == 0 && HighestIn(files) == 0
  {
  }

  lemma HighestNext(files: seq<Meta>, j: nat)
    requires j < |files|
    ensures HighestIn(files[..j + 1]) == Max(HighestIn(files[..j]), files[j].fileNo)
  {
    assert files[..j + 1][..j] == files[..j];
  }

  lemma HighestLevel(l: Levels, i: nat)
    requires i < |l|
    ensures Highest(l[..i + 1]) == Max(Highest(l[..i]), HighestIn(l[i]))
  {
    hide HighestIn;
    assert l[..i + 1][..i] == l[..i];
  }

  lemma NothingYet(files: seq<Meta>, level: nat, paths: seq<bytes>)
    ensures WithoutPaths(files[..0], paths) == [] && GonePaths(files[..0], paths) == []
    ensures Removals(files[..0], level, paths) == []
  {
  }

  lemma GoneNext(files: seq<Meta>, k: nat, level: nat, paths: seq<bytes>)
    requires k < |files|
    ensures var m := files[k];
            && GonePaths(files[..k + 1], paths)
               == GonePaths(files[..k], paths) + (if m.path in paths then [m.path] else [])
            && Removals(files[..k + 1], level, paths)
               == Removals(files[..k], level, paths)
                  + (if m.path in paths then [Edit(DEL, level, m.path, m.fileNo)] else [])
  {
    assert files[..k + 1][..k] == files[..k];
  }

  lemma FileRecordable(l: Levels, level: nat, k: nat)
    requires Storable(l) && level < |l| && k < |l[level]|
    ensures Recordable(Edit(DEL, level, l[level][k].path, l[level][k].fileNo))
  {
  }

  lemma LoggedActive(m: Manifest)
    requires m.Logged()
    ensures m.disk.active.Some? && m.disk.active.value.content == EditLog(m.edits)
  {
  }

  lemma NumberSmall(path: bytes)
    ensures NumberInPath(path).Some? ==> NumberInPath(path).value < U64
  {
    hide Value, AllDigits;
  }

  /** The bytes of MANIFEST replay to the roster in memory. */
  lemma BytesAgree(v: Version)
    requires v.Valid()
    ensures SameRoster(v.levels, ReplayManifest(v.manifest.disk.active.value.content))
  {
    hide ReplayManifest, EditLog, Fold, NoFiles, SameRoster, AllRecordable, AllBelow, Storable;
    ReplayAllEdits(v.manifest.edits);
    SameTrans(v.levels, v.manifest.levels, Fold(NoFiles(), v.manifest.edits));
  }

  // ---- The database around it ----

  /** The roster and the numbers of the live log files, oldest first. */
  class Store {
    const version: Version
    var logs: seq<nat>

    ghost predicate Valid()
      reads this, version, version.manifest
    {
      version.Valid() && forall w :: w in logs ==> w < version.nextFileNumber
    }

    constructor (version: Version, logs: seq<nat>)
      requires version.Valid() && forall w :: w in logs ==> w < version.nextFileNumber
      ensures Valid() && this.version == version && this.logs == logs
    {
      this.version, this.logs := version, logs;
    }

    /** `rotateWal`, and `openWal` on an empty directory: the new log's number lies above every live table and log. */
    method RotateWal() returns (n: nat)
      requires Valid()
      modifies this, version`nextFileNumber
      ensures Valid() && logs == old(logs) + [n] && version.levels == old(version.levels)
      ensures AllBelow(version.levels, n) && forall w :: w in old(logs) ==> w < n
    {
      hide Version.Valid, AllBelow;
      n := version.NextFileNumber();
      logs := logs + [n];
    }

    /** Logs retired by a flush. */
    method DropLogs(k: nat)
      requires Valid() && k <= |logs|
      modifies this
      ensures Valid() && logs == old(logs)[k..]
    {
      assert forall w :: w in logs[k..] ==> w in logs;
      logs := logs[k..];
    }

    /** A table of a flush or a compaction: reserve a number, build under it, list it. */
    method ListTable(dir: bytes, level: nat) returns (n: nat)
      requires Valid() && level < 0x8000_0000 && version.nextFileNumber + 1 < U64
      requires 17 + |TablePath(dir, level, version.nextFileNumber)| <= MAX_PAYLOAD
      modifies version, version.manifest
      ensures Valid() && logs == old(logs)
      ensures AllBelow(old(version.levels), n) && forall w :: w in logs ==> w < n
      ensures version.levels == AddFile(old(version.levels), level, Meta(TablePath(dir, level, n), n))
      ensures version.nextFileNumber == n + 1
    {
      hide Version.Valid, AllBelow, TablePath, NumberInPath, AddFile;
      n := version.NextFileNumber();
      NumberOfPath(dir, level, n);
      version.AddLevelFile(level, TablePath(dir, level, n));
    }

    /** The removal at the end of a compaction. */
    method Retire(level: nat, paths: seq<bytes>)
      requires Valid()
      modifies version, version.manifest
      ensures Valid() && logs == old(logs)
      ensures forall i: nat :: FilesAt(version.levels, i) ==
                if i == level then WithoutPaths(FilesAt(old(version.levels), i), paths)
                else FilesAt(old(version.levels), i)
    {
      hide Version.Valid, WithoutPaths, Removals;
      KeptNone(paths);
      version.RemoveLevelFiles(level, paths);
    }
  }

  /** The log-file part of `recover`: continue the newest log, or open one with a fresh number. */
  method RecoverWal(v: Version, wals: seq<nat>) returns (logs: seq<nat>)
    requires v.Valid()
    modifies v`nextFileNumber
    ensures v.Valid() && logs == if |wals| == 0 then [AboveLogs(old(v.nextFileNumber), wals)] else wals
    ensures v.nextFileNumber == AboveLogs(old(v.nextFileNumber), logs)
  {
    hide AllBelow, AboveLogs, Version.Valid;
    var i := 0;
    LogsNone(v.nextFileNumber, wals[..0]);
    while i < |wals|
      invariant 0 <= i <= |wals| && v.Valid()
      invariant v.nextFileNumber == AboveLogs(old(v.nextFileNumber), wals[..i])
    {
      LogsNext(old(v.nextFileNumber), wals, i);
      v.EnsureNextFileNumberAtLeast(wals[i] + 1);
      i := i + 1;
    }
    assert wals[..i] == wals;
    logs := wals;
    if |wals| == 0 {
      var n := v.NextFileNumber();
      logs := [n];
      LogsNext(n, logs, 0);
      assert logs[..0] == [] && logs[..1] == logs;
    }
  }

  lemma LogsNone(next: nat, logs: seq<nat>)
    requires |logs| == 0
    ensures AboveLogs(next, logs) == next
  {
  }

  lemma LogsNext(next: nat, logs: seq<nat>, i: nat)
    requires i < |logs|
    ensures AboveLogs(next, logs[..i + 1]) == Max(AboveLogs(next, logs[..i]), logs[i] + 1)
    ensures |logs| == 1 ==> AboveLogs(next, logs) == Max(next, logs[0] + 1)
  {
    assert logs[..i + 1][..i] == logs[..i];
  }

  /**
    `recover`, on whatever a crash left and whichever file operations succeed. When opening is safe the roster on disk
    is the one restored, and unless the snapshot rolls back to a stale archive every disk state on the way still reads
    as that roster after a further crash. On success all three copies agree and the counter is above every live
    table and log.
   */
  method Recover(v: Version, wals: seq<nat>, open: OpenOps, snap: SnapshotOps) returns (ok: bool, logs: seq<nat>)
    requires Secured(v.manifest.disk, RosterOnDisk(v.manifest.disk))
    modifies v, v.manifest
    ensures open.creates && AllSucceed(snap) ==> ok
    ensures ok ==> v.Valid() && |logs| > 0 && forall w :: w in logs ==> w < v.nextFileNumber
    ensures ok ==> logs == wals || (|wals| == 0 && |logs| == 1 && AllBelow(v.levels, logs[0]))
    ensures ok ==>
              SameRoster(v.levels,
                         if OpenSafe(old(v.manifest.disk), open) then RosterOnDisk(old(v.manifest.disk)) else NoFiles())
    ensures old(v.manifest.trail) <= v.manifest.trail
    ensures OpenSafe(old(v.manifest.disk), open) && !RollsBackStale(OpenedDisk(old(v.manifest.disk), open), snap) ==>
              && Secured(v.manifest.disk, RosterOnDisk(old(v.manifest.disk)))
              && AllSecured(v.manifest.trail[|old(v.manifest.trail)|..], RosterOnDisk(old(v.manifest.disk)))
  {
    hide RosterOnDisk, Secured, SameRoster, AllBelow, AllSecured, Storable, Manifest.Logged, NoFiles, ReplayManifest,
      OpenedDisk, ChosenPath, OpenSafe, RollsBackStale, Grown;
    ghost var d, l, start := v.manifest.disk, RosterOnDisk(v.manifest.disk), v.manifest.trail;
    logs := [];
    ok := v.manifest.Open(open);
    OpenKeepsIff(d, open, l);
    OpenTrail(start, v.manifest.trail, d, open, l);
    if !ok { return; }
    ghost var read, middle, opened' := v.manifest.levels, v.manifest.trail, v.manifest.disk;
    OpenReads(d, open, l, read);
    v.RestoreFrom(v.manifest.levels);
    ReplayedIsStorable(v.manifest.disk.active.value.content);
    GrownStorable(read, 7);
    SameGrown(read, 7);
    ok := v.manifest.RewriteSnapshot(snap);
    RosterChain(v.levels, read, v.manifest.levels, if OpenSafe(d, open) then l else NoFiles());
    if OpenSafe(d, open) && !RollsBackStale(opened', snap) {
      Joined(start, middle, v.manifest.trail, read, l);
      SecuredAs(v.manifest.disk, v.manifest.levels, l);
    }
    if !ok { return; }
    logs := RecoverWal(v, wals);
  }

  lemma OpenTrail(start: seq<Disk>, trail: seq<Disk>, d: Disk, open: OpenOps, l: Levels)
    requires trail == start + [ChosenPath(d, open), OpenedDisk(d, open)]
    requires OpenSafe(d, open) ==> Secured(ChosenPath(d, open), l) && Secured(OpenedDisk(d, open), l)
    ensures start <= trail
    ensures OpenSafe(d, open) ==> AllSecured(trail[|start|..], l)
  {
    hide Secured, ChosenPath, OpenedDisk, OpenSafe;
    assert trail[|start|..] == [ChosenPath(d, open), OpenedDisk(d, open)];
  }

  /** What is read is the roster on the opened disk, and it is secured there. */
  lemma OpenReads(d: Disk, open: OpenOps, l: Levels, read: Levels)
    requires Secured(d, l) && open.creates && OpenedDisk(d, open).active.Some?
    requires read == ReplayManifest(OpenedDisk(d, open).active.value.content)
    ensures Secured(OpenedDisk(d, open), read)
    ensures SameRoster(read, if OpenSafe(d, open) then l else NoFiles())
  {
    hide ReplayManifest, NoFiles;
    SameRefl(read);
    EmptyFileHolds();
  }

  /** A reopening after any crash of any disk: the precondition of recovery is met by what a crash leaves. */
  method Reopen(ghost before: Disk, left: Disk, wals: seq<nat>, open: OpenOps, snap: SnapshotOps)
    returns (store: Store?)
    requires AfterCrash(before, left)
    ensures open.creates && AllSucceed(snap) ==> store != null
    ensures store != null ==> store.Valid() && |store.logs| > 0
    ensures store != null ==>
              SameRoster(store.version.levels, if OpenSafe(left, open) then RosterOnDisk(left) else NoFiles())
    ensures store != null ==>
              forall l :: Secured(before, l) && OpenSafe(left, open) ==> SameRoster(store.version.levels, l)
  {
    hide RosterOnDisk, Secured, SameRoster, AllBelow, AllSecured, NoFiles, OpenSafe, AfterCrash, Version.Valid,
         AllSucceed, RollsBackStale, OpenedDisk;
    CrashLeavesSecured(before, left);
    var manifest := new Manifest(left);
    var version := new Version(manifest);
    var ok, logs := Recover(version, wals, open, snap);
    if !ok { return null; }
    store := new Store(version, logs);
    forall l | Secured(before, l) && OpenSafe(left, open) ensures SameRoster(version.levels, l) {
      CrashReads(before, left, l);
      SameTrans(version.levels, RosterOnDisk(left), l);
    }
  }

  lemma CrashReads(before: Disk, left: Disk, l: Levels)
    requires Secured(before, l) && AfterCrash(before, left)
    ensures SameRoster(RosterOnDisk(left), l)
  {
    hide Secured, SameRoster, RosterOnDisk, AfterCrash;
    SecuredIsCrashSafe(before, l);
  }

  lemma SecuredAs(d: Disk, a: Levels, b: Levels)
    requires Secured(d, a) && SameRoster(a, b)
    ensures Secured(d, b)
  {
    hide Secured, SameRoster;
    SecuredSame(d, a, b);
  }

  lemma RosterChain(v: Levels, read: Levels, now: Levels, l: Levels)
    requires SameRoster(v, read) && SameRoster(now, read) && SameRoster(read, l)
    ensures SameRoster(v, l) && SameRoster(v, now) && SameRoster(now, l)
  {
    hide SameRoster;
    SameTrans(v, read, l);
    SameSym(now, read);
    SameTrans(v, read, now);
    SameTrans(now, read, l);
  }

  lemma Joined(start: seq<Disk>, middle: seq<Disk>, last: seq<Disk>, read: Levels, l: Levels)
    requires start <= middle <= last && SameRoster(read, l)
    requires AllSecured(middle[|start|..], l) && AllSecured(last[|middle|..], read)
    ensures AllSecured(last[|start|..], l)
  {
    hide Secured, SameRoster;
    forall i | 0 <= i < |last| - |start| ensures Secured(last[|start|..][i], l) {
      if i < |middle| - |start| {
        assert last[|start|..][i] == middle[|start|..][i];
      } else {
        assert last[|start|..][i] == last[|middle|..][i - (|middle| - |start|)];
        SecuredSame(last[|start|..][i], read, l);
      }
    }
  }
}
