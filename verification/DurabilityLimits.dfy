/**
  Where prefix durability ends, and what holds beyond: groups behind the bytes of failed appends, and groups whose
  sync failed (`minikv/src/core/db_impl.cpp`).
 */
module DurabilityLimits {
  import opened Bytes
  import opened Entries
  import opened InternalKey
  import opened Lookup
  import opened MemTable
  import opened Wal
  import opened WalTail
  import opened LogMeaning
  import opened Durability

  // ---- Behind torn bytes ----

  /** Every live log, hindered or not, gives back its sound groups first when all of it survives. */
  lemma SoundGroupsReplay(states: seq<State>, steps: seq<Step>, i: nat, j: nat)
    requires Run(states, steps) && i < |states| && j <= Current(states[i])
    ensures Current(states[i]) < |states[i].logs|
    ensures var log := states[i].logs[j];
            && log.lo <= log.sound <= log.hi <= |states[i].groups|
            && RecordsIn(states[i].groups, log.lo, log.sound) <= Replay(log.content)
            && (log.tail != Behind ==>
                  log.sound == log.hi && Replay(log.content) == RecordsIn(states[i].groups, log.lo, log.hi))
  {
    hide Run, ContentsSound, Coverage, Ownership, FlushSound, RecordsIn, Replay, Log, TornBytes, Loggable;
    RunKeeps(states, steps, i);
    var s := states[i];
    if j == Current(s) { ReplaySound(s.logs[j], s.groups, s.acked); }
  }

  /** Group `n` is past all acknowledged groups that were appended to the log before the bytes of any failed append. */
  ghost predicate SoundUpTo(s: State, j: nat, n: nat)
    requires j < |s.logs|
  {
    var log := s.logs[j];
    log.lo <= n <= log.sound <= |s.groups| && (n >= s.acked || n == log.sound || s.acked <= log.lo)
  }

  /** The records of one span of groups come first among those of another. */
  ghost predicate FirstOf(groups: seq<Group>, lo: nat, n: nat, others: seq<Group>, from: nat, to: nat) {
    lo <= n <= |groups| && from <= to <= |others| && RecordsIn(groups, lo, n) <= RecordsIn(others, from, to)
  }

  /**
    Whatever a crash keeps of a log, hindered or not, it replays first a run of its groups that includes all
    acknowledged ones appended before the bytes of any failed append.
   */
  lemma SoundAcknowledgedReplay(s: State, kept: nat, cuts: seq<nat>, j: nat) returns (n: nat)
    requires Inv(s) && CrashOf(s, kept, cuts) && j <= Current(s) < |s.logs|
    ensures SoundUpTo(s, j, n) && RecordsIn(s.groups, s.logs[j].lo, n) <= Replay(s.logs[j].content[..cuts[j]])
  {
    hide ContentsSound, Coverage, Ownership, FlushSound, RecordsIn, Replay, Log, TornBytes, Loggable, Whole;
    var log := s.logs[j];
    if j < Current(s) {
      n := log.sound;
      assert log.content[..cuts[j]] == log.content;
    } else {
      var rs := RecordsIn(s.groups, log.lo, log.sound);
      n := log.lo + Whole(rs, cuts[j]);
      RecordsFit(s.groups, log.lo, log.sound);
      CutReplays(log.content, rs, cuts[j]);
      RecordsSplit(s.groups, log.lo, n, log.sound);
      assert rs[..n - log.lo] == RecordsIn(s.groups, log.lo, n);
      var a := Min(s.acked, log.sound);
      if a > log.lo {
        RecordsSplit(s.groups, log.lo, a, log.sound);
        WholeAtLeast(RecordsIn(s.groups, log.lo, a), RecordsIn(s.groups, a, log.sound), cuts[j]);
      }
    }
  }

  /** A recovery from hindered logs keeps those groups, each log's first among what it then holds, and the tables. */
  lemma SalvageKeepsSound(s: State, kept: nat, cuts: seq<nat>, back: seq<Group>, j: nat) returns (n: nat, t: State)
    requires Inv(s) && Enabled(s, Salvage(kept, cuts, back)) && j <= Current(s) < |s.logs|
    ensures t == After(s, Salvage(kept, cuts, back)) && t.groups == back && j < |t.logs|
    ensures SoundUpTo(s, j, n) && FirstOf(s.groups, s.logs[j].lo, n, t.groups, t.logs[j].lo, t.logs[j].hi)
    ensures kept <= |s.tables| && t.base == s.base + s.tables[..kept]
  {
    hide Inv, RecordsIn, Replay, ReplayFiles, Records, Count, IsWhole, Enabled, After, CrashOf;
    t := SalvageShape(s, kept, cuts, back);
    n := SoundAcknowledgedReplay(s, kept, cuts, j);
    FileSalvaged(LeftOf(s, cuts), back, j);
  }

  lemma SalvageShape(s: State, kept: nat, cuts: seq<nat>, back: seq<Group>) returns (t: State)
    requires Enabled(s, Salvage(kept, cuts, back))
    ensures t == After(s, Salvage(kept, cuts, back)) && CrashOf(s, kept, cuts)
    ensures |cuts| == |s.logs| && forall j :: 0 <= j < |s.logs| ==> cuts[j] <= |s.logs[j].content|
    ensures t.groups == back && t.logs == SalvagedLogs(LeftOf(s, cuts)) && Records(back) == ReplayFiles(LeftOf(s, cuts))
    ensures kept <= |s.tables| && t.base == s.base + s.tables[..kept]
  {
    hide ReplayFiles, Records, Loggable, AllOps, Apply, Count, IsWhole, Unhindered;
    t := After(s, Salvage(kept, cuts, back));
  }

  /**
    All groups that may be appended to the current log later are replayed, whatever they are, if and only if no bytes
    of a failed append lie at its end.
   */
  lemma LaterGroupsReplayIff(s: State)
    requires Inv(s) && s.logs[Current(s)].tail != Behind
    ensures var log := s.logs[Current(s)];
            (forall gs :: Loggable(gs) ==>
               Replay(log.content + Log(Records(gs))) == RecordsIn(s.groups, log.lo, log.hi) + Records(gs))
            <==> log.tail.Clean?
  {
    hide ContentsSound, Coverage, Ownership, FlushSound, RecordsIn, Replay, Log, TornBytes, Loggable, Records, Retired;
    var log := s.logs[Current(s)];
    ReplaySound(log, s.groups, s.acked);
    CleanIsWhole(log, s.groups, s.acked);
    GroupsReplayIffWhole(log.content);
  }

  lemma CleanIsWhole(log: LogFile, groups: seq<Group>, acked: nat)
    requires log.lo <= log.hi <= |groups| && Active(log, groups, acked) && log.tail != Behind
    requires Replay(log.content) == RecordsIn(groups, log.lo, log.hi)
    ensures IsWhole(log.content) <==> log.tail.Clean?
  {
    hide RecordsIn, Replay, Log;
    var front := Log(RecordsIn(groups, log.lo, log.hi));
    assert log.content == front + log.content[|front|..];
  }

  /**
    The failing family: an append that fails behind its header, then a group that is accepted, synced and acknowledged,
    but too short to fill the promised length. Nothing of it is replayed, though every byte survives.
   */
  lemma AcknowledgedAndLost(s: State, failed: Group, accepted: nat, t: State, g: Group, u: State, v: State)
    requires Inv(s) && Enabled(s, AppendFails(failed, accepted)) && t == After(s, AppendFails(failed, accepted))
    requires Enabled(t, Issue(g, true)) && u == After(t, Issue(g, true))
    requires Enabled(u, SyncLog) && v == After(u, SyncLog)
    requires s.logs[Current(s)].tail.Clean?
    requires 8 <= accepted && accepted + |Frame(EncodeGroup(g))| < |Frame(EncodeGroup(failed))|
    ensures v.acked == |v.groups| && v.groups == s.groups + [g] && Current(s) < |v.logs|
    ensures var log := v.logs[Current(s)];
            && log.synced == |log.content| && log.lo <= |s.groups|
            && Replay(log.content) == RecordsIn(s.groups, log.lo, |s.groups|)
  {
    hide ContentsSound, Coverage, Ownership, FlushSound, RecordsIn, Replay, Loggable, Retired, EncodeGroup, Took, Ops,
         Frame, TornBytes;
    var log := s.logs[Current(s)];
    LostBehind(log, s.groups, s.acked, failed, accepted, g);
  }

  lemma LostBehind(log: LogFile, groups: seq<Group>, acked: nat, failed: Group, accepted: nat, g: Group)
    requires log.lo <= log.hi <= |groups| && Loggable(groups) && Active(log, groups, acked) && log.tail.Clean?
    requires |EncodeGroup(failed)| < U32
    requires 8 <= accepted && accepted + |Frame(EncodeGroup(g))| < |Frame(EncodeGroup(failed))|
    ensures Replay(Extended(Frayed(log, failed, accepted), g).content) == RecordsIn(groups, log.lo, log.hi)
  {
    hide RecordsIn, Replay, Loggable, EncodeGroup, Frame, TornBytes;
    var rs := RecordsIn(groups, log.lo, log.hi);
    RecordsFit(groups, log.lo, log.hi);
    var torn := Frame(EncodeGroup(failed))[..accepted];
    OneRecord(groups, g);
    TornTailHidesAppends(rs, EncodeGroup(failed), accepted, [EncodeGroup(g)]);
    assert log.content == Log(rs);
    assert log.content + torn + Frame(EncodeGroup(g)) == Log(rs) + (torn + Frame(EncodeGroup(g)));
  }

  // ---- Runs built by hand ----

  lemma PathJoin(a: seq<State>, x: seq<Step>, b: seq<State>, y: seq<Step>)
    requires Path(a, x) && Path(b, y) && a[|x|] == b[0]
    ensures Path(a + b[1..], x + y)
  {
    hide Enabled, After;
    var states, steps := a + b[1..], x + y;
    forall i | 0 <= i < |steps| ensures Enabled(states[i], steps[i]) && states[i + 1] == After(states[i], steps[i]) {
      if i >= |x| {
        assert states[i] == b[i - |x|] && states[i + 1] == b[i - |x| + 1] && steps[i] == y[i - |x|];
      } else {
        assert states[i] == a[i] && states[i + 1] == a[i + 1] && steps[i] == x[i];
      }
    }
  }

  /** Nothing frozen, nothing under way, one log, none of its bytes torn. */
  ghost predicate Settled(s: State) {
    |s.logs| == 1 && !s.spare && s.queue == [] && s.flush.Idle? && s.durable == |s.tables| && s.mem.logs == 1
  }

  /** One group, applied or not. */
  lemma Write(s: State, g: Group, applied: bool) returns (states: seq<State>, steps: seq<Step>)
    requires Settled(s) && |EncodeGroup(g)| < U32 && s.seqNo + 1 + |Ops(g)| <= SEQ_LIMIT
    ensures Path(states, steps) && |steps| == 1 && states[0] == s
    ensures var t := states[1];
            && Settled(t) && t.groups == s.groups + [g] && t.tables == s.tables && t.base == s.base
            && t.failed == (if applied then s.failed else s.failed + {|s.groups|})
            && t.seqNo == s.seqNo + |Ops(g)| && t.mem == Took(s.mem, g, applied, s.seqNo + 1)
  {
    hide EncodeGroup, Frame, Ops, Extended, Apply;
    states, steps := [s, After(s, Issue(g, applied))], [Issue(g, applied)];
  }

  lemma Rotate(s: State) returns (a: State, b: State)
    requires Settled(s)
    ensures Enabled(s, RotateCreate) && a == After(s, RotateCreate)
    ensures Enabled(a, RotateSwitch) && b == After(a, RotateSwitch)
    ensures b.groups == s.groups && b.failed == s.failed && b.acked == |s.groups| && b.seqNo == s.seqNo && !b.spare
    ensures |b.logs| == 2 && b.logs[1..] == [FreshLog(|s.groups|)] && b.queue == [s.mem]
    ensures b.mem == Gen(|s.groups|, |s.groups|, [], [], 1)
    ensures b.tables == s.tables && b.durable == s.durable && b.flush == s.flush && b.base == s.base
  {
    a := After(s, RotateCreate);
    b := After(a, RotateSwitch);
  }

  lemma FlushOne(s: State) returns (states: seq<State>, steps: seq<Step>)
    requires |s.logs| > 0 && s.flush.Idle? && |s.queue| == 1 && s.queue[0].entries != [] && s.queue[0].logs == 1
    ensures Path(states, steps) && |steps| == 6 && states[0] == s
    ensures states[6] == s.(logs := s.logs[1..], queue := [], tables := s.tables + [Frozen(s.queue[0])],
                            durable := |s.tables| + 1, flush := Idle)
  {
    hide Frozen;
    var a := After(s, FlushBuild);
    var b := After(a, FlushRecord);
    var c := After(b, FlushSync);
    var d := After(c, FlushErase);
    var e := After(d, UnlinkLog);
    steps := [FlushBuild, FlushRecord, FlushSync, FlushErase, UnlinkLog, FlushDone];
    states := [s, a, b, c, d, e, After(e, FlushDone)];
  }

  /** A whole rotation and flush. */
  lemma FlushMem(s: State) returns (states: seq<State>, steps: seq<Step>)
    requires Settled(s) && s.mem.entries != []
    ensures Path(states, steps) && |steps| == 8 && states[0] == s
    ensures var t := states[8];
            && Settled(t) && t.groups == s.groups && t.failed == s.failed && t.acked == |s.groups| && t.base == s.base
            && t.logs == [FreshLog(|s.groups|)] && t.tables == s.tables + [Frozen(s.mem)] && t.seqNo == s.seqNo
            && t.mem == Gen(|s.groups|, |s.groups|, [], [], 1)
  {
    hide Enabled, After;
    var a, b := Rotate(s);
    var c, x := FlushOne(b);
    states, steps := [s, a] + c, [RotateCreate, RotateSwitch] + x;
    forall i | 0 <= i < |steps| ensures Enabled(states[i], steps[i]) && states[i + 1] == After(states[i], steps[i]) {
      if i >= 2 { assert states[i] == c[i - 2] && states[i + 1] == c[i - 1] && steps[i] == x[i - 2]; }
    }
  }

  function PutGroup(key: bytes, value: bytes): Group {
    [[Op(false, key, value)]]
  }

  lemma OnePut(key: bytes, value: bytes)
    ensures Ops(PutGroup(key, value)) == [Op(false, key, value)]
  {
    OneOp(Op(false, key, value));
  }

  lemma PutAnswers(key: bytes, value: bytes, first: nat)
    requires first < SEQ_LIMIT
    ensures Apply([], [Op(false, key, value)], first) != []
  {
    hide Apply, Find;
    var op := Op(false, key, value);
    assert [op][1..] == [];
    EmptyFind(key);
    ApplyMeans([], [op], first, key);
  }

  /**
    The failing family: the sync of a group fails, a later one is written, the memtable is flushed. The later group is
    in a table, the earlier one is nowhere, though the rotation had synced it.
   */
  lemma FailedSyncVanishes(g: Group, key: bytes, value: bytes) returns (states: seq<State>, steps: seq<Step>)
    requires g != [] && |EncodeGroup(g)| < U32 && |EncodeGroup(PutGroup(key, value))| < U32 && |Ops(g)| + 2 <= SEQ_LIMIT
    ensures Run(states, steps) && |states| == 11
    ensures var s := states[10];
            && Unhindered(s) && s.groups == [g, PutGroup(key, value)] && s.acked == 2
            && s.durable == |s.tables| && Dropped(s, s.durable, 0) && InTable(s, s.durable, 1)
  {
    hide EncodeGroup, Apply, Ops, Enabled, After, PutGroup;
    OnePut(key, value);
    var a, x := Write(Init(), g, false);
    var b, y := Write(a[1], PutGroup(key, value), true);
    NoOpsHeld();
    ApplyNone([], 1);
    PutAnswers(key, value, |Ops(g)| + 1);
    var c, z := FlushMem(b[1]);
    PathJoin(a, x, b, y);
    PathJoin(a + b[1..], x + y, c, z);
    states, steps := a + b[1..] + c[1..], x + y + z;
    assert states[10] == c[8] && states[0] == Init();
    assert c[8].tables == [Frozen(b[1].mem)] && b[1].mem.held == [[], PutGroup(key, value)];
    assert HoldsGroup(c[8], c[8].tables[0], 1);
  }
}
