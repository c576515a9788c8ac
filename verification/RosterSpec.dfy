/** What the operations on the roster do to its lists and to the file counter (`minikv/src/core/version.cpp`). */
module RosterSpec {
  import opened Bytes
  import opened ManifestLog

  // ---- Removing several paths ----

  function WithoutPaths(files: seq<Meta>, paths: seq<bytes>): seq<Meta> {
    if |files| == 0 then []
    else if files[0].path in paths then WithoutPaths(files[1..], paths)
    else [files[0]] + WithoutPaths(files[1..], paths)
  }

  lemma {:induction false} WithoutOneMore(files: seq<Meta>, paths: seq<bytes>, p: bytes)
    ensures WithoutPath(WithoutPaths(files, paths), p) == WithoutPaths(files, paths + [p])
  {
    if |files| > 0 {
      WithoutOneMore(files[1..], paths, p);
      var tail := WithoutPaths(files[1..], paths);
      assert ([files[0]] + tail)[1..] == tail;
    }
  }

  lemma {:induction false} WithoutNone(files: seq<Meta>)
    ensures WithoutPaths(files, []) == files
  {
    if |files| > 0 {
      WithoutNone(files[1..]);
      assert files == [files[0]] + files[1..];
    }
  }

  lemma {:induction false} WithoutAgrees(files: seq<Meta>, a: seq<bytes>, b: seq<bytes>)
    requires forall i :: 0 <= i < |files| ==> (files[i].path in a <==> files[i].path in b)
    ensures WithoutPaths(files, a) == WithoutPaths(files, b)
  {
    if |files| > 0 {
      WithoutAgrees(files[1..], a, b);
    }
  }

  /** What `remove_if` leaves: no file with a listed path, and every other file, in order. */
  lemma {:induction false} WithoutMeans(files: seq<Meta>, paths: seq<bytes>, m: Meta)
    ensures m in WithoutPaths(files, paths) <==> m in files && m.path !in paths
  {
    if |files| > 0 {
      WithoutMeans(files[1..], paths, m);
      assert m in files <==> m == files[0] || m in files[1..];
    }
  }

  lemma KeptNone(paths: seq<bytes>)
    ensures WithoutPaths([], paths) == []
  {
  }

  lemma KeptNext(files: seq<Meta>, k: nat, paths: seq<bytes>)
    requires k < |files|
    ensures WithoutPaths(files[..k + 1], paths)
         == WithoutPaths(files[..k], paths) + if files[k].path in paths then [] else [files[k]]
  {
    assert files[..k + 1] == files[..k] + [files[k]];
    WithoutConcat(files[..k], [files[k]], paths);
    assert [files[k]][1..] == [];
  }

  lemma {:induction false} WithoutConcat(a: seq<Meta>, b: seq<Meta>, paths: seq<bytes>)
    ensures WithoutPaths(a + b, paths) == WithoutPaths(a, paths) + WithoutPaths(b, paths)
  {
    if |a| == 0 {
      assert a + b == b;
    } else {
      assert (a + b)[1..] == a[1..] + b;
      WithoutConcat(a[1..], b, paths);
    }
  }

  // ---- The records of a removal ----

  /** One record per file that goes, in list order. */
  function Removals(files: seq<Meta>, level: nat, paths: seq<bytes>): seq<Edit> {
    if |files| == 0 then []
    else
      var m := files[|files| - 1];
      Removals(files[..|files| - 1], level, paths)
      + if m.path in paths then [Edit(DEL, level, m.path, m.fileNo)] else []
  }

  function GonePaths(files: seq<Meta>, paths: seq<bytes>): seq<bytes> {
    if |files| == 0 then []
    else
      var m := files[|files| - 1];
      GonePaths(files[..|files| - 1], paths) + if m.path in paths then [m.path] else []
  }

  lemma {:induction false} GoneMeans(files: seq<Meta>, paths: seq<bytes>, p: bytes)
    ensures p in GonePaths(files, paths) <==> p in paths && exists i :: 0 <= i < |files| && files[i].path == p
    decreases |files|
  {
    if |files| > 0 {
      var n := |files| - 1;
      GoneMeans(files[..n], paths, p);
      if i :| 0 <= i < |files| && files[i].path == p {
        assert i < n ==> files[..n][i].path == p;
      }
    }
  }

  lemma GoneSuffices(files: seq<Meta>, paths: seq<bytes>)
    ensures WithoutPaths(files, GonePaths(files, paths)) == WithoutPaths(files, paths)
  {
    hide WithoutPaths, GonePaths;
    forall i | 0 <= i < |files| ensures files[i].path in GonePaths(files, paths) <==> files[i].path in paths {
      GoneMeans(files, paths, files[i].path);
    }
    WithoutAgrees(files, GonePaths(files, paths), paths);
  }

  /** Replaying the removals of some files of a level takes exactly those paths out of it. */
  lemma {:induction false} FoldRemovals(l: Levels, files: seq<Meta>, level: nat, paths: seq<bytes>)
    ensures forall i: nat :: FilesAt(Fold(l, Removals(files, level, paths)), i)
                          == if i == level then WithoutPaths(FilesAt(l, i), GonePaths(files, paths)) else FilesAt(l, i)
    decreases |files|
  {
    hide Grown, RemoveFile, WithoutPath, WithoutPaths, FilesAt;
    if |files| == 0 {
      WithoutNone(FilesAt(l, level));
    } else {
      var n := |files| - 1;
      var m := files[n];
      FoldRemovals(l, files[..n], level, paths);
      if m.path in paths {
        FoldSnoc(l, Removals(files[..n], level, paths), Edit(DEL, level, m.path, m.fileNo));
        WithoutOneMore(FilesAt(l, level), GonePaths(files[..n], paths), m.path);
      } else {
        assert Removals(files, level, paths) == Removals(files[..n], level, paths);
        assert GonePaths(files, paths) == GonePaths(files[..n], paths);
      }
    }
  }

  lemma RemovalsFold(l: Levels, level: nat, paths: seq<bytes>)
    ensures forall i: nat :: FilesAt(Fold(l, Removals(FilesAt(l, level), level, paths)), i)
                          == if i == level then WithoutPaths(FilesAt(l, i), paths) else FilesAt(l, i)
  {
    hide Fold, FilesAt, Removals, GonePaths, WithoutPaths;
    FoldRemovals(l, FilesAt(l, level), level, paths);
    GoneSuffices(FilesAt(l, level), paths);
  }

  lemma {:induction false} RemovalsRecordable(files: seq<Meta>, level: nat, paths: seq<bytes>)
    requires level < U32 && StorableFiles(files)
    ensures AllRecordable(Removals(files, level, paths))
    decreases |files|
  {
    if |files| > 0 {
      var n := |files| - 1;
      assert files[n] in files && forall m :: m in files[..n] ==> m in files;
      RemovalsRecordable(files[..n], level, paths);
    }
  }

  // ---- File numbers ----

  ghost predicate AllBelow(l: Levels, n: nat) {
    forall i: nat, m :: m in FilesAt(l, i) ==> m.fileNo < n
  }

  function Max(a: nat, b: nat): nat {
    if a < b then b else a
  }

  /** The largest number in a list of files. */
  function HighestIn(files: seq<Meta>): (h: nat)
    ensures forall i :: 0 <= i < |files| ==> files[i].fileNo <= h
  {
    if |files| == 0 then 0 else Max(HighestIn(files[..|files| - 1]), files[|files| - 1].fileNo)
  }

  function Highest(l: Levels): (h: nat)
    ensures forall i, j :: 0 <= i < |l| && 0 <= j < |l[i]| ==> l[i][j].fileNo <= h
  {
    if |l| == 0 then 0 else Max(Highest(l[..|l| - 1]), HighestIn(l[|l| - 1]))
  }

  /** The counter after `restoreFrom`. */
  function Restored(next: nat, l: Levels): nat {
    Max(next, Highest(l) + 1)
  }

  lemma RestoredAbove(next: nat, l: Levels)
    ensures AllBelow(l, Restored(next, l))
  {
    hide Highest;
    forall i: nat, m | m in FilesAt(l, i) ensures m.fileNo < Restored(next, l) {
      var j :| 0 <= j < |l[i]| && l[i][j] == m;
    }
  }

  /** The counter after `ensureNextFileNumberAtLeast` for every log found. */
  function AboveLogs(next: nat, logs: seq<nat>): (n: nat)
    ensures n >= next && forall i :: 0 <= i < |logs| ==> logs[i] < n
  {
    if |logs| == 0 then next else Max(AboveLogs(next, logs[..|logs| - 1]), logs[|logs| - 1] + 1)
  }

  lemma SameBelow(a: Levels, b: Levels, n: nat)
    requires SameRoster(a, b) && AllBelow(a, n)
    ensures AllBelow(b, n)
  {
  }

  lemma AddedBelow(l: Levels, level: nat, m: Meta, before: nat, after: nat)
    requires AllBelow(l, before) && before <= after && m.fileNo < after
    ensures AllBelow(AddFile(l, level, m), after)
  {
    hide AddFile;
  }

  lemma AddedSame(a: Levels, b: Levels, level: nat, m: Meta)
    requires SameRoster(a, b)
    ensures SameRoster(AddFile(a, level, m), AddFile(b, level, m))
  {
    hide AddFile;
  }

  lemma AddedStorable(l: Levels, level: nat, m: Meta)
    requires Storable(l) && level < U32 && 17 + |m.path| <= MAX_PAYLOAD && m.fileNo < U64
    ensures Storable(AddFile(l, level, m))
  {
  }

  lemma RemovedStorable(l: Levels, level: nat, paths: seq<bytes>)
    requires Storable(l) && level < |l|
    ensures Storable(l[level := WithoutPaths(l[level], paths)])
  {
    hide WithoutPaths;
    var out := WithoutPaths(l[level], paths);
    forall j | 0 <= j < |out| ensures 17 + |out[j].path| <= MAX_PAYLOAD && out[j].fileNo < U64 {
      WithoutMeans(l[level], paths, out[j]);
    }
  }

  lemma RemovedBelow(l: Levels, level: nat, paths: seq<bytes>, n: nat)
    requires AllBelow(l, n) && level < |l|
    ensures AllBelow(l[level := WithoutPaths(l[level], paths)], n)
  {
    hide WithoutPaths;
    var r := l[level := WithoutPaths(l[level], paths)];
    forall i: nat, m | m in FilesAt(r, i) ensures m.fileNo < n {
      WithoutMeans(l[level], paths, m);
      assert m in FilesAt(l, i);
    }
  }
}
