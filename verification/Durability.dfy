/**
  What a crash leaves of the writes: group writes, log syncs, log rotations and flushes, stopped at any step and
  any byte, reopened and run on (`minikv/src/core/db_impl.cpp`).
 */
module Durability {
  import opened Bytes
  import opened Entries
  import opened InternalKey
  import opened Lookup
  import opened MemTable
  import opened Wal
  import opened WalTail
  import opened LogMeaning

  /**
    What lies behind the last group that replays: nothing, the bytes of failed appends that replay to nothing, or
    more, that is a group appended behind such bytes, or bytes of failed appends that form a record by chance.
   */
  datatype Tail = Clean | Torn | Behind

  /**
    A log file: its bytes, how many are synced, the groups `lo .. hi` appended to it, and those of them, `lo .. sound`,
    that lie before the bytes of any failed append.
   */
  datatype LogFile = LogFile(content: bytes, synced: nat, lo: nat, hi: nat, sound: nat, tail: Tail)

  /**
    A table file listed in MANIFEST: the span of groups it was made for, what it holds of each of them, and its
    entries. An empty memtable is retired without a file; it stands here as an empty one.
   */
  datatype Table = Table(lo: nat, hi: nat, held: seq<Group>, entries: seq<Entry>)

  /** A memtable, as the table it will become, and the number of log files it will retire. */
  datatype Gen = Gen(lo: nat, hi: nat, held: seq<Group>, entries: seq<Entry>, logs: nat)

  datatype Flush = Idle | Built | Recorded | Synced | Unlinking(left: nat)

  /**
    `groups` are the groups written so far, the first `acked` of them synced, those numbered in `failed` answered with
    an error because their own sync failed. `logs` are the existing log files, oldest first; the last is the current
    one, or with `spare` the one just created by a rotation under way. `queue` holds the frozen memtables, oldest
    first; the first `durable` of `tables` are synced in MANIFEST. `base` are tables from before `groups` begins.
   */
  datatype State = State(
    groups: seq<Group>, acked: nat, failed: set<nat>, seqNo: nat, logs: seq<LogFile>, spare: bool,
    mem: Gen, queue: seq<Gen>, tables: seq<Table>, durable: nat, flush: Flush, base: seq<Table>)

  /**
    A group is logged and applied, or logged only because its sync failed; `Reopen` and `Salvage` are a crash and the
    recovery from it, without and with a log that is hindered.
   */
  datatype Step =
    | Issue(group: Group, applied: bool) | AppendFails(group: Group, accepted: nat)
    | SyncLog | RotateCreate | RotateSwitch
    | FlushBuild | FlushEmpty | FlushRecord | FlushSync | FlushErase | UnlinkLog | FlushDone
    | Reopen(kept: nat, cuts: seq<nat>) | Salvage(kept: nat, cuts: seq<nat>, back: seq<Group>)

  function FreshLog(n: nat): LogFile {
    LogFile([], 0, n, n, n, Clean)
  }

  function Init(): State {
    State([], 0, {}, 0, [FreshLog(0)], false, Gen(0, 0, [], [], 1), [], [], 0, Idle, [])
  }

  /** Groups `lo .. hi`, as operations. */
  function OpsIn(groups: seq<Group>, lo: nat, hi: nat): seq<Op>
    requires lo <= hi <= |groups|
  {
    AllOps(groups[lo..hi])
  }

  function RecordsIn(groups: seq<Group>, lo: nat, hi: nat): (rs: seq<bytes>)
    requires lo <= hi <= |groups|
    ensures |rs| == hi - lo
  {
    Records(groups[lo..hi])
  }

  /** Index of the log that is written to. */
  function Current(s: State): int {
    |s.logs| - (if s.spare then 2 else 1)
  }

  /** End of the groups held by the first `n` tables. */
  function Covered(tables: seq<Table>, n: nat): nat
    requires n <= |tables|
  {
    if n == 0 then 0 else tables[n - 1].hi
  }

  // ---- Crashes ----

  /** What a crash may leave: synced tables and some others, and of each log its synced bytes and some of the rest. */
  ghost predicate CrashOf(s: State, kept: nat, cuts: seq<nat>) {
    && s.durable <= kept <= |s.tables|
    && |cuts| == |s.logs|
    && forall j :: 0 <= j < |s.logs| ==> s.logs[j].synced <= cuts[j] <= |s.logs[j].content|
  }

  function LeftOf(s: State, cuts: seq<nat>): (r: seq<bytes>)
    requires |cuts| == |s.logs| && forall j :: 0 <= j < |s.logs| ==> cuts[j] <= |s.logs[j].content|
    ensures |r| == |s.logs| && forall j :: 0 <= j < |r| ==> r[j] == s.logs[j].content[..cuts[j]]
  {
    seq(|s.logs|, j requires 0 <= j < |s.logs| => s.logs[j].content[..cuts[j]])
  }

  /** `recover` replays the files in number order. */
  function ReplayFiles(files: seq<bytes>): seq<bytes> {
    if |files| == 0 then [] else ReplayFiles(files[..|files| - 1]) + Replay(files[|files| - 1])
  }

  /** How many groups are back after a crash: all before the current log, and those whole in it. */
  function Reached(s: State, cuts: seq<nat>): nat
    requires 0 <= Current(s) < |s.logs| == |cuts|
    requires s.logs[Current(s)].lo <= s.logs[Current(s)].hi <= |s.groups|
  {
    var cur := s.logs[Current(s)];
    cur.lo + Whole(RecordsIn(s.groups, cur.lo, cur.hi), cuts[Current(s)])
  }

  /** No live log is hindered: none has a group behind the bytes of failed appends, or a record formed by such bytes. */
  predicate Unhindered(s: State) {
    forall j :: 0 <= j < |s.logs| ==> s.logs[j].tail != Behind
  }

  // ---- Steps ----

  ghost predicate Enabled(s: State, step: Step) {
    match step
    case Issue(group, _) =>
      0 <= Current(s) < |s.logs| && !s.spare && |EncodeGroup(group)| < U32 && s.seqNo + 1 + |Ops(group)| <= SEQ_LIMIT
    case AppendFails(group, accepted) =>
      && 0 <= Current(s) < |s.logs| && !s.spare && |EncodeGroup(group)| < U32 && s.seqNo + 1 + |Ops(group)| <= SEQ_LIMIT
      && accepted < |Frame(EncodeGroup(group))|
    case SyncLog => 0 <= Current(s) < |s.logs| && !s.spare
    case RotateCreate => !s.spare
    case RotateSwitch => 0 <= Current(s) < |s.logs| && s.spare
    case FlushBuild => s.flush.Idle? && |s.queue| > 0 && s.queue[0].entries != []
    case FlushEmpty => s.flush.Idle? && |s.queue| > 0 && s.queue[0].entries == []
    case FlushRecord => s.flush.Built? && |s.queue| > 0
    case FlushSync => s.flush.Recorded?
    case FlushErase => s.flush.Synced? && |s.queue| > 0
    case UnlinkLog => s.flush.Unlinking? && s.flush.left > 0 && |s.logs| > 0
    case FlushDone => s.flush.Unlinking? && s.flush.left == 0
    case Reopen(kept, cuts) =>
      && 0 <= Current(s) < |s.logs|
      && s.logs[Current(s)].lo <= s.logs[Current(s)].hi <= |s.groups|
      && CrashOf(s, kept, cuts) && Unhindered(s)
      && s.logs[0].lo <= Reached(s, cuts) <= |s.groups|
      && |OpsIn(s.groups, s.logs[0].lo, Reached(s, cuts))| + 1 <= SEQ_LIMIT
    case Salvage(kept, cuts, back) =>
      && |s.logs| > 0 && CrashOf(s, kept, cuts) && !Unhindered(s)
      && Loggable(back) && Records(back) == ReplayFiles(LeftOf(s, cuts)) && |AllOps(back)| + 1 <= SEQ_LIMIT
  }

  function Under(failed: set<nat>, w: nat): set<nat> {
    set g | g in failed && g < w
  }

  function Min(a: nat, b: nat): nat {
    if a < b then a else b
  }

  /** A log cut by a crash, seen from the point reached; the newest is appended to as it is. */
  function CutLog(log: LogFile, cut: nat, w: nat, newest: bool): LogFile
    requires cut <= |log.content|
  {
    var left := log.content[..cut];
    LogFile(left, cut, Min(log.lo, w), Min(log.hi, w), Min(log.sound, w),
            if !newest then log.tail else if IsWhole(left) then Clean else Torn)
  }

  function CutLogs(s: State, cuts: seq<nat>, w: nat): (r: seq<LogFile>)
    requires |cuts| == |s.logs| && forall j :: 0 <= j < |s.logs| ==> cuts[j] <= |s.logs[j].content|
    ensures |r| == |s.logs|
    ensures forall j :: 0 <= j < |r| ==> r[j] == CutLog(s.logs[j], cuts[j], w, j + 1 == |s.logs|)
  {
    seq(|s.logs|, j requires 0 <= j < |s.logs| => CutLog(s.logs[j], cuts[j], w, j + 1 == |s.logs|))
  }

  /** A group appended whole. */
  function Extended(log: LogFile, g: Group): LogFile {
    log.(content := log.content + Frame(EncodeGroup(g)), hi := log.hi + 1,
         sound := if log.tail.Clean? then log.sound + 1 else log.sound,
         tail := if log.tail.Clean? then Clean else Behind)
  }

  /** A failed append leaves the bytes that were accepted. */
  function Frayed(log: LogFile, g: Group, accepted: nat): LogFile
    requires accepted < |Frame(EncodeGroup(g))|
  {
    if accepted == 0 then log
    else
      var content := log.content + Frame(EncodeGroup(g))[..accepted];
      log.(content := content,
           tail := if log.tail != Behind && Replay(content) == Replay(log.content) then Torn else Behind)
  }

  /** The memtable after a group: unless it was applied, nothing of it is held. */
  function Took(m: Gen, g: Group, applied: bool, first: nat): Gen {
    var h := if applied then g else [];
    m.(hi := m.hi + 1, held := m.held + [h], entries := Apply(m.entries, Ops(h), first))
  }

  function Frozen(g: Gen): Table {
    Table(g.lo, g.hi, g.held, g.entries)
  }

  /** `recover`: replay every log into a fresh memtable, which then owns all of them; append to the newest. */
  ghost function Reopened(s: State, kept: nat, cuts: seq<nat>): State
    requires Enabled(s, Reopen(kept, cuts))
  {
    var lo, w := s.logs[0].lo, Reached(s, cuts);
    var ops := OpsIn(s.groups, lo, w);
    State(s.groups[..w], w, Under(s.failed, w), |ops|, CutLogs(s, cuts, w), false,
          Gen(lo, w, s.groups[lo..w], Apply([], ops, 0), |s.logs|), [], s.tables[..kept], kept, Idle, s.base)
  }

  /** How many records the first `n` files replay to. */
  function Count(files: seq<bytes>, n: nat): nat
    requires n <= |files|
  {
    |ReplayFiles(files[..n])|
  }

  function SalvagedLog(left: bytes, lo: nat, hi: nat): LogFile {
    LogFile(left, |left|, lo, hi, hi, if IsWhole(left) then Clean else Torn)
  }

  function SalvagedLogs(files: seq<bytes>): (r: seq<LogFile>)
    ensures |r| == |files|
    ensures forall j :: 0 <= j < |r| ==> r[j] == SalvagedLog(files[j], Count(files, j), Count(files, j + 1))
  {
    seq(|files|, j requires 0 <= j < |files| => SalvagedLog(files[j], Count(files, j), Count(files, j + 1)))
  }

  /** `recover` on hindered logs: what replays is where a new count of groups begins, over the tables there are. */
  ghost function Salvaged(s: State, kept: nat, cuts: seq<nat>, back: seq<Group>): State
    requires Enabled(s, Salvage(kept, cuts, back))
  {
    State(back, |back|, {}, |AllOps(back)|, SalvagedLogs(LeftOf(s, cuts)), false,
          Gen(0, |back|, back, Apply([], AllOps(back), 0), |s.logs|), [], [], 0, Idle, s.base + s.tables[..kept])
  }

  ghost function After(s: State, step: Step): State
    requires Enabled(s, step)
  {
    match step
    case Issue(group, applied) =>
      var c := Current(s);
      s.(groups := s.groups + [group],
         failed := if applied then s.failed else s.failed + {|s.groups|},
         seqNo := s.seqNo + |Ops(group)|,
         logs := s.logs[c := Extended(s.logs[c], group)],
         mem := Took(s.mem, group, applied, s.seqNo + 1))
    case AppendFails(group, accepted) =>
      var c := Current(s);
      s.(seqNo := s.seqNo + |Ops(group)|, logs := s.logs[c := Frayed(s.logs[c], group, accepted)])
    case SyncLog =>
      var c := Current(s);
      s.(acked := |s.groups|, logs := s.logs[c := s.logs[c].(synced := |s.logs[c].content|)])
    case RotateCreate => s.(spare := true, logs := s.logs + [FreshLog(|s.groups|)])
    case RotateSwitch =>
      var c := Current(s);
      s.(acked := |s.groups|, spare := false,
         logs := s.logs[c := s.logs[c].(synced := |s.logs[c].content|)],
         queue := s.queue + [s.mem], mem := Gen(|s.groups|, |s.groups|, [], [], 1))
    case FlushBuild => s.(flush := Built)
    case FlushEmpty =>
      var g := s.queue[0];
      s.(tables := s.tables + [Frozen(g)], durable := |s.tables| + 1,
         queue := s.queue[1..], flush := Unlinking(g.logs))
    case FlushRecord => s.(tables := s.tables + [Frozen(s.queue[0])], flush := Recorded)
    case FlushSync => s.(durable := |s.tables|, flush := Synced)
    case FlushErase => s.(queue := s.queue[1..], flush := Unlinking(s.queue[0].logs))
    case UnlinkLog => s.(logs := s.logs[1..], flush := Unlinking(s.flush.left - 1))
    case FlushDone => s.(flush := Idle)
    case Reopen(kept, cuts) => Reopened(s, kept, cuts)
    case Salvage(kept, cuts, back) => Salvaged(s, kept, cuts, back)
  }

  // ---- Log files ----

  ghost predicate Spans(s: State) {
    && 0 <= Current(s) < |s.logs|
    && (forall j :: 0 <= j < |s.logs| ==> s.logs[j].lo <= s.logs[j].hi <= |s.groups|)
    && (forall j :: 0 <= j < |s.logs| - 1 ==> s.logs[j].hi == s.logs[j + 1].lo)
    && s.logs[|s.logs| - 1].hi == |s.groups|
  }

  /** Bytes that replay to nothing. */
  predicate TornBytes(rest: bytes) {
    |rest| > 0 && Replay(rest) == []
  }

  ghost predicate TailOk(tail: Tail, rest: bytes) {
    (tail.Clean? ==> rest == []) && (tail.Torn? ==> TornBytes(rest))
  }

  ghost predicate SoundSpan(log: LogFile) {
    log.lo <= log.sound <= log.hi && (log.tail != Behind ==> log.sound == log.hi)
  }

  /** A log that is no longer written to: all synced, and it replays to its sound groups first. */
  ghost predicate Retired(log: LogFile, groups: seq<Group>)
    requires log.lo <= log.hi <= |groups|
  {
    && SoundSpan(log) && log.synced == |log.content|
    && RecordsIn(groups, log.lo, log.sound) <= Replay(log.content)
    && (log.tail != Behind ==> Replay(log.content) == RecordsIn(groups, log.lo, log.hi))
  }

  /** The log that is written to: the records of its sound groups, those acknowledged synced, and its tail. */
  ghost predicate Active(log: LogFile, groups: seq<Group>, acked: nat)
    requires log.lo <= log.hi <= |groups|
  {
    && SoundSpan(log) && log.synced <= |log.content| && acked <= log.hi
    && Log(RecordsIn(groups, log.lo, log.sound)) <= log.content
    && TailOk(log.tail, log.content[|Log(RecordsIn(groups, log.lo, log.sound))|..])
    && var a := Min(acked, log.sound);
       (a > log.lo ==> |Log(RecordsIn(groups, log.lo, a))| <= log.synced)
  }

  ghost predicate LogsSound(s: State) {
    && Spans(s)
    && Loggable(s.groups)
    && (forall j :: 0 <= j < Current(s) ==> Retired(s.logs[j], s.groups))
    && Active(s.logs[Current(s)], s.groups, s.acked)
    && (s.spare ==> s.logs[|s.logs| - 1] == FreshLog(|s.groups|))
  }

  lemma RecordsSame(a: seq<Group>, b: seq<Group>, lo: nat, hi: nat)
    requires lo <= hi <= |a| && hi <= |b| && a[..hi] == b[..hi]
    ensures RecordsIn(a, lo, hi) == RecordsIn(b, lo, hi) && OpsIn(a, lo, hi) == OpsIn(b, lo, hi)
  {
    hide Records, AllOps;
    assert a[lo..hi] == a[..hi][lo..] == b[..hi][lo..] == b[lo..hi];
  }

  lemma RecordsSplit(groups: seq<Group>, lo: nat, mid: nat, hi: nat)
    requires lo <= mid <= hi <= |groups|
    ensures RecordsIn(groups, lo, hi) == RecordsIn(groups, lo, mid) + RecordsIn(groups, mid, hi)
  {
    hide EncodeGroup;
    assert groups[lo..hi] == groups[lo..mid] + groups[mid..hi];
  }

  lemma RecordsFit(groups: seq<Group>, lo: nat, hi: nat)
    requires Loggable(groups) && lo <= hi <= |groups|
    ensures AllFit(RecordsIn(groups, lo, hi))
  {
    hide EncodeGroup;
  }

  lemma OneRecord(groups: seq<Group>, g: Group)
    ensures RecordsIn(groups + [g], |groups|, |groups| + 1) == [EncodeGroup(g)]
    ensures Log([EncodeGroup(g)]) == Frame(EncodeGroup(g))
  {
    hide EncodeGroup, Frame;
    assert (groups + [g])[|groups|..|groups| + 1] == [g];
    assert [EncodeGroup(g)][1..] == [];
    assert Log([]) == [];
    assert Frame(EncodeGroup(g)) + [] == Frame(EncodeGroup(g));
  }

  lemma TornReplay(rest: bytes, n: nat)
    requires TornBytes(rest) && n <= |rest|
    ensures Replay(rest[..n]) == []
  {
    hide FirstRecord;
    NothingFirst(rest, n);
  }

  /** Appending the frame of a new group keeps a clean log exact, and leaves the sound part of any other. */
  lemma ActiveGrows(log: LogFile, groups: seq<Group>, acked: nat, g: Group)
    requires log.lo <= log.hi == |groups| && Active(log, groups, acked)
    ensures Active(Extended(log, g), groups + [g], acked)
  {
    hide Log, RecordsIn, EncodeGroup, Frame, TornBytes;
    var n, more := |groups|, groups + [g];
    var front := Log(RecordsIn(groups, log.lo, log.sound));
    RecordsSame(groups, more, log.lo, log.sound);
    var a := Min(acked, log.sound);
    if a > log.lo { RecordsSame(groups, more, log.lo, a); }
    if log.tail.Clean? {
      RecordsSplit(more, log.lo, n, n + 1);
      OneRecord(groups, g);
      LogConcat(RecordsIn(groups, log.lo, n), [EncodeGroup(g)]);
      assert log.content == front;
    } else {
      assert log.content + Frame(EncodeGroup(g)) == front + (log.content[|front|..] + Frame(EncodeGroup(g)));
    }
  }

  lemma ActiveFrays(log: LogFile, groups: seq<Group>, acked: nat, g: Group, accepted: nat)
    requires log.lo <= log.hi <= |groups| && Loggable(groups) && Active(log, groups, acked)
    requires |EncodeGroup(g)| < U32 && accepted < |Frame(EncodeGroup(g))|
    ensures Active(Frayed(log, g, accepted), groups, acked)
  {
    hide Log, RecordsIn, EncodeGroup, Frame, Replay, Loggable;
    if accepted > 0 {
      var rs, torn := RecordsIn(groups, log.lo, log.sound), Frame(EncodeGroup(g))[..accepted];
      var front, content := Log(rs), log.content + torn;
      var rest := content[|front|..];
      assert rest == log.content[|front|..] + torn;
      assert content == front + rest;
      RecordsFit(groups, log.lo, log.sound);
      ReplayAfter(rs, rest);
      ReplaySound(log, groups, acked);
      assert Frayed(log, g, accepted).tail.Torn? ==> |rs + Replay(rest)| == |rs|;
    }
  }

  /** One failed append does not hinder a log. */
  lemma OneFailureLeavesTorn(log: LogFile, groups: seq<Group>, acked: nat, g: Group, accepted: nat)
    requires log.lo <= log.hi <= |groups| && Loggable(groups) && Active(log, groups, acked) && log.tail.Clean?
    requires |EncodeGroup(g)| < U32 && accepted < |Frame(EncodeGroup(g))|
    ensures Frayed(log, g, accepted).tail == if accepted == 0 then Clean else Torn
  {
    hide Log, RecordsIn, EncodeGroup, Frame, Replay, Loggable;
    var rs, torn := RecordsIn(groups, log.lo, log.sound), Frame(EncodeGroup(g))[..accepted];
    assert log.content == Log(rs);
    RecordsFit(groups, log.lo, log.sound);
    ReplayAfter(rs, torn);
    ReplayAfter(rs, []);
    assert log.content + [] == log.content;
    EmptyReplay();
    FramePart(EncodeGroup(g), accepted);
  }

  /** Nor does a second one, if the first left its header and both do not fill the length it promises. */
  lemma TwoFailuresLeaveTorn(log: LogFile, groups: seq<Group>, acked: nat, g: Group, n: nat, h: Group, m: nat)
    requires log.lo <= log.hi <= |groups| && Loggable(groups) && Active(log, groups, acked) && log.tail.Clean?
    requires |EncodeGroup(g)| < U32 && |EncodeGroup(h)| < U32 && m < |Frame(EncodeGroup(h))|
    requires 8 <= n && n + m < |Frame(EncodeGroup(g))|
    ensures Frayed(Frayed(log, g, n), h, m).tail == Torn
  {
    hide Log, RecordsIn, EncodeGroup, Frame, Replay, Loggable;
    OneFailureLeavesTorn(log, groups, acked, g, n);
    var rs, a, b := RecordsIn(groups, log.lo, log.sound), Frame(EncodeGroup(g))[..n], Frame(EncodeGroup(h))[..m];
    assert log.content == Log(rs);
    RecordsFit(groups, log.lo, log.sound);
    ReplayAfter(rs, a);
    ReplayAfter(rs, a + b);
    assert log.content + a + b == Log(rs) + (a + b);
    FramePart(EncodeGroup(g), n);
    TornTailHides(EncodeGroup(g), n, b);
  }

  lemma RetiredSame(log: LogFile, a: seq<Group>, b: seq<Group>)
    requires log.lo <= log.hi <= |a| && log.hi <= |b| && a[..log.hi] == b[..log.hi] && Retired(log, a)
    ensures Retired(log, b)
  {
    hide Replay, RecordsIn;
    RecordsSame(a, b, log.lo, log.hi);
    assert a[..log.sound] == a[..log.hi][..log.sound] == b[..log.hi][..log.sound] == b[..log.sound];
    RecordsSame(a, b, log.lo, log.sound);
  }

  lemma IssueLogs(s: State, g: Group, applied: bool)
    requires LogsSound(s) && Enabled(s, Issue(g, applied))
    ensures LogsSound(After(s, Issue(g, applied)))
  {
    hide Log, RecordsIn, EncodeGroup, Frame, Replay, Ops, Apply, Active, Retired;
    var t := After(s, Issue(g, applied));
    ActiveGrows(s.logs[Current(s)], s.groups, s.acked, g);
    forall j | 0 <= j < Current(t) ensures Retired(t.logs[j], t.groups) {
      var hi := s.logs[j].hi;
      assert t.groups[..hi] == s.groups[..hi];
      RetiredSame(s.logs[j], s.groups, t.groups);
    }
  }

  lemma FrayLogs(s: State, g: Group, accepted: nat)
    requires LogsSound(s) && Enabled(s, AppendFails(g, accepted))
    ensures LogsSound(After(s, AppendFails(g, accepted)))
  {
    hide Log, RecordsIn, EncodeGroup, Frame, Replay, Ops, Active, Retired, Loggable;
    ActiveFrays(s.logs[Current(s)], s.groups, s.acked, g, accepted);
  }

  /** Whole or not, a log replays to its sound groups first; with a clean or torn tail to nothing else. */
  lemma ReplaySound(log: LogFile, groups: seq<Group>, acked: nat)
    requires log.lo <= log.hi <= |groups| && Loggable(groups) && Active(log, groups, acked)
    ensures RecordsIn(groups, log.lo, log.sound) <= Replay(log.content)
    ensures log.tail != Behind ==> Replay(log.content) == RecordsIn(groups, log.lo, log.hi)
  {
    hide Log, RecordsIn, Replay, TornBytes;
    var rs := RecordsIn(groups, log.lo, log.sound);
    var rest := log.content[|Log(rs)|..];
    RecordsFit(groups, log.lo, log.sound);
    assert log.content == Log(rs) + rest;
    ReplayAfter(rs, rest);
    EmptyReplay();
    if log.tail.Torn? {
      TornReplay(rest, |rest|);
      assert rest[..|rest|] == rest;
    }
    assert rs + [] == rs;
  }

  lemma ActiveRetires(log: LogFile, groups: seq<Group>, acked: nat)
    requires log.lo <= log.hi <= |groups| && Loggable(groups) && Active(log, groups, acked)
    ensures Retired(log.(synced := |log.content|), groups)
    ensures Active(log.(synced := |log.content|), groups, log.hi)
  {
    hide Log, RecordsIn, Replay, TornBytes, TailOk;
    ReplaySound(log, groups, acked);
  }

  lemma FreshActive(groups: seq<Group>)
    ensures Active(FreshLog(|groups|), groups, |groups|)
  {
    assert groups[|groups|..|groups|] == [];
  }

  lemma RotateLogs(s: State)
    requires LogsSound(s) && Enabled(s, RotateSwitch)
    ensures LogsSound(After(s, RotateSwitch))
  {
    hide Active, Retired, Loggable;
    var t := After(s, RotateSwitch);
    ActiveRetires(s.logs[Current(s)], s.groups, s.acked);
    FreshActive(s.groups);
  }

  predicate Recovery(step: Step) {
    step.Reopen? || step.Salvage?
  }

  lemma StepLogs(s: State, step: Step)
    requires LogsSound(s) && Enabled(s, step) && !Recovery(step) && !step.UnlinkLog?
    ensures LogsSound(After(s, step))
  {
    hide Active, Retired, Loggable, Took, Ops, EncodeGroup, Frame, Extended, Frayed, LogsSound, Enabled, After;
    match step
    case Issue(g, applied) => IssueLogs(s, g, applied);
    case AppendFails(g, accepted) => FrayLogs(s, g, accepted);
    case SyncLog => SyncLogs(s);
    case RotateSwitch => RotateLogs(s);
    case RotateCreate => CreateLogs(s);
    case _ => FlushLogs(s, step);
  }

  lemma SyncLogs(s: State)
    requires LogsSound(s) && Enabled(s, SyncLog)
    ensures LogsSound(After(s, SyncLog))
  {
    hide Active, Retired, Loggable;
    ActiveRetires(s.logs[Current(s)], s.groups, s.acked);
  }

  lemma CreateLogs(s: State)
    requires LogsSound(s) && Enabled(s, RotateCreate)
    ensures LogsSound(After(s, RotateCreate))
  {
    hide Active, Retired, Loggable;
  }

  lemma SameLogs(s: State, t: State)
    requires LogsSound(s) && t.groups == s.groups && t.acked == s.acked && t.logs == s.logs && t.spare == s.spare
    ensures LogsSound(t)
  {
    hide Active, Retired, Loggable;
  }

  /** The steps of a flush but one leave the logs alone. */
  lemma FlushLogs(s: State, step: Step)
    requires LogsSound(s) && Enabled(s, step)
    requires step.FlushBuild? || step.FlushEmpty? || step.FlushRecord? || step.FlushSync? || step.FlushErase?
          || step.FlushDone?
    ensures LogsSound(After(s, step))
  {
    hide LogsSound;
    SameLogs(s, After(s, step));
  }

  lemma UnlinkLogs(s: State)
    requires LogsSound(s) && Enabled(s, UnlinkLog) && Current(s) > 0
    ensures LogsSound(After(s, UnlinkLog))
  {
    hide Active, Retired, Loggable;
  }

  // ---- What the logs replay to after a crash ----

  lemma {:induction false} RetiredReplay(s: State, cuts: seq<nat>, n: nat)
    requires LogsSound(s) && Unhindered(s) && CrashOf(s, s.durable, cuts) && n <= Current(s)
    requires s.logs[0].lo <= s.logs[n].lo
    ensures ReplayFiles(LeftOf(s, cuts)[..n]) == RecordsIn(s.groups, s.logs[0].lo, s.logs[n].lo)
    decreases n
  {
    hide Replay, RecordsIn, Active, Loggable;
    var files := LeftOf(s, cuts);
    if n > 0 {
      SpansBelow(s, n - 1);
      RetiredReplay(s, cuts, n - 1);
      assert files[..n][..n - 1] == files[..n - 1];
      assert Retired(s.logs[n - 1], s.groups);
      assert files[n - 1] == s.logs[n - 1].content;
      RecordsSplit(s.groups, s.logs[0].lo, s.logs[n - 1].lo, s.logs[n].lo);
    }
  }

  lemma {:induction false} SpansBelow(s: State, n: nat)
    requires Spans(s) && n < |s.logs|
    ensures s.logs[0].lo <= s.logs[n].lo <= |s.groups|
    decreases n
  {
    if n > 0 { SpansBelow(s, n - 1); }
  }

  /** Cut at any byte past its synced part, a log that is not hindered replays to whole groups with all synced ones. */
  lemma ActiveReplay(log: LogFile, groups: seq<Group>, acked: nat, cut: nat)
    requires log.lo <= log.hi <= |groups| && Loggable(groups) && Active(log, groups, acked) && log.tail != Behind
    requires log.synced <= cut <= |log.content|
    ensures var w := Whole(RecordsIn(groups, log.lo, log.hi), cut);
            && log.lo + w <= log.hi && acked <= log.lo + w
            && Replay(log.content[..cut]) == RecordsIn(groups, log.lo, log.lo + w)
  {
    hide Log, RecordsIn, Replay, Whole, Loggable, TornBytes;
    var rs := RecordsIn(groups, log.lo, log.hi);
    var w := Whole(rs, cut);
    RecordsFit(groups, log.lo, log.hi);
    CutReplay(log.content, rs, log.tail, cut);
    RecordsSplit(groups, log.lo, log.lo + w, log.hi);
    assert rs[..w] == RecordsIn(groups, log.lo, log.lo + w);
    if acked > log.lo {
      RecordsSplit(groups, log.lo, acked, log.hi);
      WholeAtLeast(RecordsIn(groups, log.lo, acked), RecordsIn(groups, acked, log.hi), cut);
    }
  }

  lemma CutReplay(content: bytes, rs: seq<bytes>, tail: Tail, cut: nat)
    requires AllFit(rs) && Log(rs) <= content && cut <= |content|
    requires tail != Behind && TailOk(tail, content[|Log(rs)|..])
    ensures Replay(content[..cut]) == rs[..Whole(rs, cut)]
  {
    hide Log, Replay, Whole, TornBytes;
    var front := Log(rs);
    if cut <= |front| {
      assert content[..cut] == front[..cut];
      ReplayPrefix(rs, cut);
    } else {
      var rest := content[|front|..];
      assert content[..cut] == front + rest[..cut - |front|];
      ReplayAfter(rs, rest[..cut - |front|]);
      TornReplay(rest, cut - |front|);
      WholeAtLeast(rs, [], cut);
      assert rs + [] == rs && rs[..|rs|] == rs;
    }
  }

  lemma EmptyReplay()
    ensures Replay([]) == []
  {
    EmptyFile([]);
  }

  /**
    After any crash, if no group lies behind torn bytes, the logs replay to a run of whole groups, from the oldest log
    on, with all synced ones.
   */
  lemma CrashReplay(s: State, cuts: seq<nat>)
    requires LogsSound(s) && Unhindered(s) && CrashOf(s, s.durable, cuts)
    ensures s.logs[0].lo <= s.logs[Current(s)].lo <= Reached(s, cuts) <= |s.groups| && s.acked <= Reached(s, cuts)
    ensures ReplayFiles(LeftOf(s, cuts)) == RecordsIn(s.groups, s.logs[0].lo, Reached(s, cuts))
  {
    hide Replay, RecordsIn, Active, Retired, Loggable, Whole;
    var c, files, w := Current(s), LeftOf(s, cuts), Reached(s, cuts);
    SpansBelow(s, c);
    RetiredReplay(s, cuts, c);
    ActiveReplay(s.logs[c], s.groups, s.acked, cuts[c]);
    RecordsSplit(s.groups, s.logs[0].lo, s.logs[c].lo, w);
    assert files[..c + 1][..c] == files[..c];
    assert ReplayFiles(files[..c + 1]) == RecordsIn(s.groups, s.logs[0].lo, w);
    if s.spare {
      EmptyReplay();
      assert files[..|files| - 1] == files[..c + 1];
      assert ReplayFiles(files[..c + 1]) + [] == ReplayFiles(files[..c + 1]);
    } else {
      assert files[..c + 1] == files;
    }
  }

  // ---- Logs through a reopen ----

  /** The first bytes of a log are whole records and, past them, nothing or part of one frame. */
  lemma {:induction false} LogPrefixTail(rs: seq<bytes>, n: nat)
    requires AllFit(rs) && n <= |Log(rs)|
    ensures var front := Log(rs[..Whole(rs, n)]);
            front <= Log(rs)[..n] && (n == |front| || TornBytes(Log(rs)[..n][|front|..]))
    decreases |rs|
  {
    hide Frame, TornBytes;
    if |rs| == 0 {
      assert rs[..0] == [];
    } else if n < |Frame(rs[0])| {
      assert rs[..0] == [];
      FramePart(rs[0], n);
      assert Log(rs)[..n] == Frame(rs[0])[..n];
      assert Log(rs)[..n][0..] == Log(rs)[..n];
    } else {
      var size, tail := |Frame(rs[0])|, rs[1..];
      var m := n - size;
      LogPrefixTail(tail, m);
      var w := Whole(tail, m);
      assert rs[..w + 1][1..] == tail[..w];
      assert Log(rs)[..n] == Frame(rs[0]) + Log(tail)[..m];
      assert Log(rs)[..n][|Log(rs[..w + 1])|..] == Log(tail)[..m][|Log(tail[..w])|..];
    }
  }

  lemma FramePart(data: bytes, n: nat)
    requires Fits(data) && n < |Frame(data)|
    ensures Replay(Frame(data)[..n]) == [] && (n > 0 ==> TornBytes(Frame(data)[..n]))
  {
    hide Frame, FirstRecord;
    TornFrame(data, n);
  }

  /** A cut of a log that is not hindered leaves a log that is clean or torn at the point reached. */
  lemma CutTail(content: bytes, rs: seq<bytes>, tail: Tail, cut: nat)
    requires AllFit(rs) && Log(rs) <= content && cut <= |content|
    requires tail != Behind && TailOk(tail, content[|Log(rs)|..])
    ensures var front, left := Log(rs[..Whole(rs, cut)]), content[..cut];
            front <= left && (left == front || TornBytes(left[|front|..]))
  {
    hide Log, Whole, TornBytes;
    var front := Log(rs);
    if cut <= |front| {
      assert content[..cut] == front[..cut];
      LogPrefixTail(rs, cut);
    } else {
      WholeAtLeast(rs, [], cut);
      assert rs + [] == rs && rs[..|rs|] == rs;
      var rest := content[|front|..];
      assert content[..cut] == front + rest[..cut - |front|];
      TornPart(rest, cut - |front|);
    }
  }

  lemma TornPart(rest: bytes, n: nat)
    requires TornBytes(rest) && 0 < n <= |rest|
    ensures TornBytes(rest[..n])
  {
    TornReplay(rest, n);
  }

  lemma CutRetired(s: State, cuts: seq<nat>, j: nat)
    requires LogsSound(s) && CrashOf(s, s.durable, cuts) && j < Current(s)
    requires s.logs[j].hi <= Reached(s, cuts) <= |s.groups|
    ensures CutLogs(s, cuts, Reached(s, cuts))[j] == s.logs[j]
    ensures Retired(s.logs[j], s.groups[..Reached(s, cuts)])
  {
    hide Replay, RecordsIn, Active, Loggable, Reached, TailOk;
    var w := Reached(s, cuts);
    assert Retired(s.logs[j], s.groups);
    assert s.logs[j].content[..cuts[j]] == s.logs[j].content;
    assert s.groups[..s.logs[j].hi] == s.groups[..w][..s.logs[j].hi];
    RetiredSame(s.logs[j], s.groups, s.groups[..w]);
  }

  /** The log that was current reads as its groups up to the point reached, and can be written to as it is. */
  lemma CutCurrent(s: State, cuts: seq<nat>)
    requires LogsSound(s) && Unhindered(s) && CrashOf(s, s.durable, cuts)
    requires s.logs[Current(s)].lo <= Reached(s, cuts) <= |s.groups|
    ensures var w := Reached(s, cuts);
            var log := CutLogs(s, cuts, w)[Current(s)];
            && log.lo == s.logs[Current(s)].lo && log.hi == w
            && Retired(log, s.groups[..w]) && (!s.spare ==> Active(log, s.groups[..w], w))
  {
    hide Replay, RecordsIn, Loggable, Whole, Log, TornBytes, IsWhole;
    var w, c := Reached(s, cuts), Current(s);
    var log, was := CutLogs(s, cuts, w)[c], s.logs[c];
    var rs := RecordsIn(s.groups, was.lo, was.hi);
    ActiveReplay(was, s.groups, s.acked, cuts[c]);
    assert s.groups[..w] == s.groups[..w][..w];
    RecordsSame(s.groups, s.groups[..w], log.lo, w);
    RecordsFit(s.groups, was.lo, was.hi);
    CutTail(was.content, rs, was.tail, cuts[c]);
    RecordsSplit(s.groups, was.lo, w, was.hi);
    assert rs[..Whole(rs, cuts[c])] == RecordsIn(s.groups, was.lo, w);
    TailOfCut(log.content, RecordsIn(s.groups[..w], log.lo, w));
  }

  lemma TailOfCut(left: bytes, rs: seq<bytes>)
    requires Replay(left) == rs && Log(rs) <= left && (left == Log(rs) || TornBytes(left[|Log(rs)|..]))
    ensures TailOk(if IsWhole(left) then Clean else Torn, left[|Log(rs)|..])
  {
    hide Replay, Log, TornBytes;
  }

  lemma SpansAbove(s: State, j: nat)
    requires Spans(s) && j < Current(s)
    ensures s.logs[j].hi <= s.logs[Current(s)].lo
    decreases Current(s) - j
  {
    if j + 1 < Current(s) {
      SpansAbove(s, j + 1);
    }
  }

  lemma CutSpan(log: LogFile, cut: nat, w: nat, newest: bool)
    requires cut <= |log.content| && log.lo <= log.hi
    ensures var r := CutLog(log, cut, w, newest); r.lo <= r.hi <= w && r.hi == Min(log.hi, w) && r.lo == Min(log.lo, w)
  {
  }

  lemma ReopenSpans(s: State, kept: nat, cuts: seq<nat>)
    requires LogsSound(s) && Enabled(s, Reopen(kept, cuts)) && s.logs[Current(s)].lo <= Reached(s, cuts)
    ensures Spans(After(s, Reopen(kept, cuts)))
  {
    hide Replay, RecordsIn, Active, Retired, Loggable, Reached, OpsIn, Apply, IsWhole, CutLog, Unhindered;
    var t, w := After(s, Reopen(kept, cuts)), Reached(s, cuts);
    forall j | 0 <= j < |t.logs|
      ensures t.logs[j].lo == Min(s.logs[j].lo, w) && t.logs[j].hi == Min(s.logs[j].hi, w)
      ensures t.logs[j].lo <= t.logs[j].hi <= |t.groups|
    {
      CutSpan(s.logs[j], cuts[j], w, j + 1 == |s.logs|);
    }
    forall j | 0 <= j < |t.logs| - 1 ensures t.logs[j].hi == t.logs[j + 1].lo {
      assert s.logs[j].hi == s.logs[j + 1].lo;
    }
  }

  lemma LoggablePrefix(groups: seq<Group>, w: nat)
    requires Loggable(groups) && w <= |groups|
    ensures Loggable(groups[..w])
  {
    hide EncodeGroup;
  }

  lemma ReopenLogs(s: State, kept: nat, cuts: seq<nat>)
    requires LogsSound(s) && Enabled(s, Reopen(kept, cuts))
    ensures LogsSound(After(s, Reopen(kept, cuts)))
  {
    hide Replay, RecordsIn, Active, Retired, Loggable, Reached, OpsIn, Apply, IsWhole, Log;
    var t, w := After(s, Reopen(kept, cuts)), Reached(s, cuts);
    CrashReplay(s, cuts);
    ReopenSpans(s, kept, cuts);
    LoggablePrefix(s.groups, w);
    CutCurrent(s, cuts);
    forall j | 0 <= j < Current(t) ensures Retired(t.logs[j], t.groups) {
      if j < Current(s) {
        SpansAbove(s, j);
        CutRetired(s, cuts, j);
      }
    }
    if s.spare {
      FreshActive(t.groups);
      EmptyIsWhole();
    }
  }

  lemma EmptyIsWhole()
    ensures IsWhole([])
  {
    EmptyReplay();
  }

  // ---- What memtables and tables answer ----

  /** The entries answer every key as the operations would. */
  ghost predicate Answers(entries: seq<Entry>, ops: seq<Op>) {
    forall key :: Find(entries, key) == LastValue(ops, key, None)
  }

  /** What is held of a group is the group, or nothing when its sync failed. */
  ghost predicate Holds(groups: seq<Group>, failed: set<nat>, t: Table) {
    && t.lo <= t.hi <= |groups| && |t.held| == t.hi - t.lo
    && Answers(t.entries, AllOps(t.held))
    && forall i :: 0 <= i < |t.held| ==> t.held[i] == groups[t.lo + i] || (t.held[i] == [] && t.lo + i in failed)
  }

  ghost predicate ContentsSound(s: State) {
    && Holds(s.groups, s.failed, Frozen(s.mem)) && s.mem.hi == |s.groups|
    && Sorted(s.mem.entries) && OlderThan(s.mem.entries, s.seqNo + 1) && s.seqNo + 1 <= SEQ_LIMIT
    && (forall i :: 0 <= i < |s.queue| ==> Holds(s.groups, s.failed, Frozen(s.queue[i])))
    && (forall i :: 0 <= i < |s.tables| ==> Holds(s.groups, s.failed, s.tables[i]))
  }

  lemma HoldsSame(a: seq<Group>, e: set<nat>, b: seq<Group>, f: set<nat>, t: Table)
    requires Holds(a, e, t) && t.hi <= |b| && a[..t.hi] == b[..t.hi]
    requires forall g :: g in e && g < t.hi ==> g in f
    ensures Holds(b, f, t)
  {
    hide Answers, AllOps;
    forall n | t.lo <= n < t.hi ensures a[n] == b[n] {
      assert a[..t.hi][n] == b[..t.hi][n];
    }
  }

  lemma {:induction false} LastValueConcat(a: seq<Op>, b: seq<Op>, key: bytes, before: Option<bytes>)
    ensures LastValue(a + b, key, before) == LastValue(b, key, LastValue(a, key, before))
    decreases |a|
  {
    if |a| == 0 {
      assert a + b == b;
    } else {
      assert (a + b)[1..] == a[1..] + b;
      LastValueConcat(a[1..], b, key,
                      if a[0].key != key then before else if a[0].isDelete then None else Some(a[0].value));
    }
  }

  lemma {:induction false} AllOpsSnoc(groups: seq<Group>, g: Group)
    ensures AllOps(groups + [g]) == AllOps(groups) + Ops(g)
  {
    hide Ops;
    if |groups| == 0 {
      assert groups + [g] == [g];
      assert [g][1..] == [];
    } else {
      assert (groups + [g])[1..] == groups[1..] + [g];
      AllOpsSnoc(groups[1..], g);
    }
  }

  lemma MemGrows(groups: seq<Group>, e: set<nat>, m: Gen, g: Group, applied: bool, seqNo: nat, f: set<nat>)
    requires Holds(groups, e, Frozen(m)) && m.hi == |groups| && Sorted(m.entries) && OlderThan(m.entries, seqNo + 1)
    requires seqNo + 1 + |Ops(g)| <= SEQ_LIMIT && e <= f && (applied || |groups| in f)
    ensures var after := Took(m, g, applied, seqNo + 1);
            && Holds(groups + [g], f, Frozen(after))
            && Sorted(after.entries) && OlderThan(after.entries, seqNo + 1 + |Ops(g)|)
  {
    hide Apply, Ops, AllOps, Find, Sorted, OlderThan, LastValue;
    var h := if applied then g else [];
    NoOpsHeld();
    var after := Apply(m.entries, Ops(h), seqNo + 1);
    AllOpsSnoc(m.held, h);
    forall key ensures Find(after, key) == LastValue(AllOps(m.held + [h]), key, None) {
      ApplyMeans(m.entries, Ops(h), seqNo + 1, key);
      LastValueConcat(AllOps(m.held), Ops(h), key, None);
    }
    ApplyMeans(m.entries, Ops(h), seqNo + 1, []);
    OlderMore(after, seqNo + 1 + |Ops(h)|, seqNo + 1 + |Ops(g)|);
  }

  lemma NoOpsHeld()
    ensures Ops([]) == []
  {
  }

  lemma IssueContents(s: State, g: Group, applied: bool)
    requires ContentsSound(s) && Enabled(s, Issue(g, applied))
    ensures ContentsSound(After(s, Issue(g, applied)))
  {
    hide Took, Ops, Holds, Sorted, OlderThan, EncodeGroup, Frame;
    var t := After(s, Issue(g, applied));
    MemGrows(s.groups, s.failed, s.mem, g, applied, s.seqNo, t.failed);
    TookSpan(s.mem, g, applied, s.seqNo + 1);
    forall i | 0 <= i < |t.queue| ensures Holds(t.groups, t.failed, Frozen(t.queue[i])) {
      HoldsGrows(s.groups, s.failed, g, t.failed, Frozen(s.queue[i]));
    }
    forall i | 0 <= i < |t.tables| ensures Holds(t.groups, t.failed, t.tables[i]) {
      HoldsGrows(s.groups, s.failed, g, t.failed, s.tables[i]);
    }
  }

  lemma TookSpan(m: Gen, g: Group, applied: bool, first: nat)
    ensures var after := Took(m, g, applied, first);
            after.lo == m.lo && after.hi == m.hi + 1 && after.logs == m.logs
  {
  }

  lemma HoldsGrows(groups: seq<Group>, e: set<nat>, g: Group, f: set<nat>, t: Table)
    requires Holds(groups, e, t) && e <= f
    ensures Holds(groups + [g], f, t)
  {
    hide Answers, AllOps;
    assert groups[..t.hi] == (groups + [g])[..t.hi];
    HoldsSame(groups, e, groups + [g], f, t);
  }

  lemma NothingHeld(groups: seq<Group>, failed: set<nat>)
    ensures Holds(groups, failed, Table(|groups|, |groups|, [], []))
    ensures Sorted([]) && forall n: nat :: OlderThan([], n)
  {
    hide Find;
    forall key ensures Find([], key) == LastValue([], key, None) {
      EmptyFind(key);
    }
  }

  lemma ReplayedHolds(groups: seq<Group>, failed: set<nat>, lo: nat, hi: nat)
    requires lo <= hi <= |groups| && |OpsIn(groups, lo, hi)| + 1 <= SEQ_LIMIT
    ensures var ops := OpsIn(groups, lo, hi);
            var entries := Apply([], ops, 0);
            && Holds(groups, failed, Table(lo, hi, groups[lo..hi], entries))
            && Sorted(entries) && OlderThan(entries, |ops| + 1)
  {
    hide Apply, AllOps, Find, LastValue;
    var ops := OpsIn(groups, lo, hi);
    var entries := Apply([], ops, 0);
    forall key ensures Find(entries, key) == LastValue(ops, key, None) {
      EmptyFind(key);
      ApplyMeans([], ops, 0, key);
    }
    ApplyMeans([], ops, 0, []);
  }

  lemma ReopenContents(s: State, kept: nat, cuts: seq<nat>)
    requires ContentsSound(s) && LogsSound(s) && Enabled(s, Reopen(kept, cuts))
    requires forall i :: 0 <= i < kept ==> s.tables[i].hi <= Reached(s, cuts)
    ensures ContentsSound(After(s, Reopen(kept, cuts)))
  {
    hide Apply, Holds, Sorted, OlderThan, OpsIn, Reached, IsWhole, LogsSound;
    var t, w := After(s, Reopen(kept, cuts)), Reached(s, cuts);
    ReplayedHolds(s.groups, s.failed, s.logs[0].lo, w);
    HoldsPrefix(s.groups, s.failed, w, Frozen(t.mem));
    forall i | 0 <= i < |t.tables| ensures Holds(t.groups, t.failed, t.tables[i]) {
      HoldsPrefix(s.groups, s.failed, w, s.tables[i]);
    }
  }

  lemma HoldsPrefix(groups: seq<Group>, failed: set<nat>, w: nat, t: Table)
    requires Holds(groups, failed, t) && t.hi <= w <= |groups|
    ensures Holds(groups[..w], Under(failed, w), t)
  {
    hide Answers, AllOps;
    assert groups[..t.hi] == groups[..w][..t.hi];
    HoldsSame(groups, failed, groups[..w], Under(failed, w), t);
  }

  lemma StepContents(s: State, step: Step)
    requires ContentsSound(s) && Enabled(s, step) && !Recovery(step)
    ensures ContentsSound(After(s, step))
  {
    hide Took, Holds, Sorted, OlderThan, Ops, EncodeGroup, Frame, Frayed;
    if step.Issue? {
      IssueContents(s, step.group, step.applied);
    } else if step.AppendFails? {
      OlderMore(s.mem.entries, s.seqNo + 1, After(s, step).seqNo + 1);
    } else if step.RotateSwitch? {
      NothingHeld(s.groups, s.failed);
    }
  }

  lemma OlderMore(entries: seq<Entry>, a: nat, b: nat)
    requires OlderThan(entries, a) && a <= b
    ensures OlderThan(entries, b)
  {
    hide Sequence;
  }

  // ---- Coverage and ownership ----

  /** Each table starts within what the tables before it hold and does not end before it. */
  ghost predicate TableChain(tables: seq<Table>) {
    forall i :: 0 <= i < |tables| ==> tables[i].lo <= Covered(tables, i) <= tables[i].hi
  }

  function QueueEnd(s: State, i: nat): nat
    requires i <= |s.queue|
  {
    if i == 0 then Covered(s.tables, |s.tables|) else s.queue[i - 1].hi
  }

  ghost predicate Coverage(s: State) {
    && 0 <= Current(s) < |s.logs|
    && TableChain(s.tables)
    && (forall i :: 0 <= i < |s.queue| ==> s.queue[i].lo <= QueueEnd(s, i) <= s.queue[i].hi)
    && s.mem.lo <= QueueEnd(s, |s.queue|)
    && (forall i :: 0 <= i <= |s.queue| ==> QueueEnd(s, i) <= s.logs[Current(s)].lo)
  }

  /** Log files owned by the first `i` frozen memtables. */
  function Owned(queue: seq<Gen>, i: nat): nat
    requires i <= |queue|
  {
    if i == 0 then 0 else Owned(queue, i - 1) + queue[i - 1].logs
  }

  function Left(f: Flush): nat {
    if f.Unlinking? then f.left else 0
  }

  ghost predicate Ownership(s: State) {
    && Left(s.flush) + Owned(s.queue, |s.queue|) + s.mem.logs + (if s.spare then 1 else 0) == |s.logs|
    && s.mem.logs >= 1
    && (forall i, j :: 0 <= i < |s.queue| && 0 <= j < Left(s.flush) + Owned(s.queue, i + 1) && j < |s.logs| ==>
          s.logs[j].hi <= s.queue[i].hi)
  }

  ghost predicate FlushSound(s: State) {
    && s.durable <= |s.tables|
    && |s.logs| > 0
    && (s.flush.Built? || s.flush.Recorded? || s.flush.Synced? ==> |s.queue| > 0)
    && (s.flush.Recorded? || s.flush.Synced? ==> Covered(s.tables, |s.tables|) == s.queue[0].hi)
    && (!s.flush.Recorded? ==> s.durable == |s.tables|)
    && (forall j :: 0 <= j < Left(s.flush) && j < |s.logs| ==> s.logs[j].hi <= Covered(s.tables, s.durable))
    && s.logs[0].lo <= Covered(s.tables, s.durable)
  }

  lemma {:induction false} OwnedTail(queue: seq<Gen>, i: nat)
    requires |queue| > 0 && i < |queue|
    ensures Owned(queue, i + 1) == queue[0].logs + Owned(queue[1..], i)
    decreases i
  {
    if i > 0 { OwnedTail(queue, i - 1); }
  }

  lemma {:induction false} OwnedPrefix(a: seq<Gen>, g: Gen, i: nat)
    requires i <= |a|
    ensures Owned(a + [g], i) == Owned(a, i)
    decreases i
  {
    if i > 0 { OwnedPrefix(a, g, i - 1); }
  }

  lemma {:induction false} OwnedMonotone(queue: seq<Gen>, i: nat)
    requires i <= |queue|
    ensures Owned(queue, i) <= Owned(queue, |queue|)
    decreases |queue| - i
  {
    if i < |queue| { OwnedMonotone(queue, i + 1); }
  }

  lemma ChainSnoc(tables: seq<Table>, t: Table)
    requires TableChain(tables) && t.lo <= Covered(tables, |tables|) <= t.hi
    ensures TableChain(tables + [t]) && Covered(tables + [t], |tables| + 1) == t.hi
    ensures forall i :: 0 <= i <= |tables| ==> Covered(tables + [t], i) == Covered(tables, i)
  {
  }

  lemma {:induction false} ChainGrows(tables: seq<Table>, i: nat, j: nat)
    requires TableChain(tables) && i <= j <= |tables|
    ensures Covered(tables, i) <= Covered(tables, j)
    decreases j
  {
    if i < j {
      ChainGrows(tables, i, j - 1);
      assert Covered(tables, j - 1) <= tables[j - 1].hi;
    }
  }

  lemma QueueSame(s: State, t: State)
    requires t.tables == s.tables && t.queue == s.queue
    ensures forall i :: 0 <= i <= |s.queue| ==> QueueEnd(t, i) == QueueEnd(s, i)
  {
  }

  lemma QueuePushed(s: State, t: State, g: Gen)
    requires t.tables == s.tables && t.queue == s.queue + [g]
    ensures forall i :: 0 <= i <= |s.queue| ==> QueueEnd(t, i) == QueueEnd(s, i)
    ensures QueueEnd(t, |t.queue|) == g.hi
  {
  }

  lemma QueuePopped(s: State, t: State)
    requires |s.queue| > 0 && t.queue == s.queue[1..] && Covered(t.tables, |t.tables|) == s.queue[0].hi
    ensures forall i :: 0 <= i <= |t.queue| ==> QueueEnd(t, i) == QueueEnd(s, i + 1)
  {
    hide Covered;
  }

  lemma TableRecorded(s: State, t: State)
    requires |s.queue| > 0 && t.queue == s.queue
    requires t.tables == s.tables + [Frozen(s.queue[0])]
    ensures QueueEnd(t, 0) == Covered(t.tables, |t.tables|) == QueueEnd(s, 1) == s.queue[0].hi
    ensures forall i :: 1 <= i <= |s.queue| ==> QueueEnd(t, i) == QueueEnd(s, i)
  {
  }

  lemma RecordCoverage(s: State)
    requires Coverage(s) && Enabled(s, FlushRecord)
    ensures Coverage(After(s, FlushRecord))
  {
    hide QueueEnd, TableChain;
    var t, g := After(s, FlushRecord), s.queue[0];
    TableRecorded(s, t);
    RecordChain(s);
    assert g.lo <= QueueEnd(s, 0) <= g.hi;
    assert QueueEnd(s, 1) <= s.logs[Current(s)].lo;
  }

  lemma RecordChain(s: State)
    requires Coverage(s) && |s.queue| > 0
    ensures TableChain(s.tables + [Frozen(s.queue[0])])
  {
    hide TableChain;
    assert s.queue[0].lo <= QueueEnd(s, 0) <= s.queue[0].hi;
    ChainSnoc(s.tables, Frozen(s.queue[0]));
  }

  lemma EraseCoverage(s: State)
    requires Coverage(s) && FlushSound(s) && Enabled(s, FlushErase)
    ensures Coverage(After(s, FlushErase))
  {
    hide TableChain, QueueEnd;
    QueuePopped(s, After(s, FlushErase));
  }

  lemma EmptyCoverage(s: State)
    requires Coverage(s) && Enabled(s, FlushEmpty)
    ensures Coverage(After(s, FlushEmpty))
  {
    hide TableChain, QueueEnd;
    RecordChain(s);
    QueuePopped(s, After(s, FlushEmpty));
  }

  lemma RotateCoverage(s: State)
    requires Coverage(s) && Enabled(s, RotateSwitch) && s.mem.hi == |s.groups|
    requires s.logs[Current(s)].lo <= |s.groups| == s.logs[|s.logs| - 1].lo
    ensures Coverage(After(s, RotateSwitch))
  {
    hide TableChain, QueueEnd;
    QueuePushed(s, After(s, RotateSwitch), s.mem);
  }

  lemma StepCoverage(s: State, step: Step)
    requires Coverage(s) && LogsSound(s) && ContentsSound(s) && FlushSound(s) && Ownership(s)
    requires Enabled(s, step) && !Recovery(step)
    ensures Coverage(After(s, step))
  {
    hide Holds, Sorted, OlderThan, Coverage, After, Active, Retired, Loggable, Ownership, FlushSound;
    match step
    case FlushRecord => RecordCoverage(s);
    case FlushErase => EraseCoverage(s);
    case FlushEmpty => EmptyCoverage(s);
    case RotateSwitch => RotateCoverage(s);
    case UnlinkLog => UnlinkCoverage(s);
    case _ => PlainCoverage(s, step);
  }

  lemma UnlinkCoverage(s: State)
    requires Coverage(s) && Enabled(s, UnlinkLog) && Ownership(s)
    ensures Current(s) > 0 && Coverage(After(s, UnlinkLog))
  {
    hide TableChain, QueueEnd, Owned;
    var t := After(s, UnlinkLog);
    assert t.logs[Current(t)] == s.logs[Current(s)];
    QueueSame(s, t);
  }

  lemma PlainCoverage(s: State, step: Step)
    requires Coverage(s) && Enabled(s, step)
    requires step.Issue? || step.AppendFails? || step.SyncLog? || step.RotateCreate?
          || step.FlushBuild? || step.FlushSync? || step.FlushDone?
    ensures Coverage(After(s, step))
  {
    hide TableChain, Took, Ops, EncodeGroup, Frame, QueueEnd, Replay;
    var t := After(s, step);
    if step.Issue? { TookSpan(s.mem, step.group, step.applied, s.seqNo + 1); }
    assert t.logs[Current(t)].lo == s.logs[Current(s)].lo;
    QueueSame(s, t);
  }

  // ---- Ownership ----

  /** The current log belongs to the current memtable. */
  lemma CurrentNotOwned(s: State, i: nat)
    requires Ownership(s) && i <= |s.queue| && |s.logs| > 0
    ensures Left(s.flush) + Owned(s.queue, i) <= Current(s)
  {
    OwnedMonotone(s.queue, i);
  }

  lemma IssueOwnership(s: State, g: Group, applied: bool)
    requires Ownership(s) && Enabled(s, Issue(g, applied))
    ensures Ownership(After(s, Issue(g, applied)))
  {
    hide Took, Ops, EncodeGroup, Frame, Owned;
    var t := After(s, Issue(g, applied));
    TookSpan(s.mem, g, applied, s.seqNo + 1);
    forall i, j | 0 <= i < |t.queue| && 0 <= j < Left(t.flush) + Owned(t.queue, i + 1) && j < |t.logs|
      ensures t.logs[j].hi <= t.queue[i].hi
    {
      CurrentNotOwned(s, i + 1);
      assert t.logs[j] == s.logs[j];
    }
  }

  lemma RotateOwnership(s: State)
    requires Ownership(s) && Spans(s) && s.mem.hi == |s.groups| && Enabled(s, RotateSwitch)
    ensures Ownership(After(s, RotateSwitch))
  {
    var t := After(s, RotateSwitch);
    OwnedPrefix(s.queue, s.mem, |s.queue|);
    forall i, j | 0 <= i < |t.queue| && 0 <= j < Left(t.flush) + Owned(t.queue, i + 1) && j < |t.logs|
      ensures t.logs[j].hi <= t.queue[i].hi
    {
      if i < |s.queue| { OwnedPrefix(s.queue, s.mem, i + 1); }
      assert t.logs[j].hi == s.logs[j].hi;
    }
  }

  lemma PopOwnership(s: State, t: State)
    requires Ownership(s) && |s.queue| > 0 && Left(s.flush) == 0
    requires t.queue == s.queue[1..] && t.flush == Unlinking(s.queue[0].logs)
    requires t.logs == s.logs && t.mem == s.mem && t.spare == s.spare
    ensures Ownership(t)
    ensures forall j :: 0 <= j < s.queue[0].logs && j < |s.logs| ==> s.logs[j].hi <= s.queue[0].hi
  {
    hide Owned;
    OwnedTail(s.queue, |s.queue| - 1);
    forall i, j | 0 <= i < |t.queue| && 0 <= j < Left(t.flush) + Owned(t.queue, i + 1) && j < |t.logs|
      ensures t.logs[j].hi <= t.queue[i].hi
    {
      OwnedTail(s.queue, i + 1);
      assert s.logs[j].hi <= s.queue[i + 1].hi;
    }
    forall j | 0 <= j < s.queue[0].logs && j < |s.logs| ensures s.logs[j].hi <= s.queue[0].hi {
      FirstOwned(s.queue);
    }
  }

  lemma FirstOwned(queue: seq<Gen>)
    requires |queue| > 0
    ensures Owned(queue, 1) == queue[0].logs
  {
  }

  lemma UnlinkOwnership(s: State)
    requires Ownership(s) && Enabled(s, UnlinkLog)
    ensures Ownership(After(s, UnlinkLog))
  {
    hide Owned;
    var t := After(s, UnlinkLog);
    forall i, j | 0 <= i < |t.queue| && 0 <= j < Left(t.flush) + Owned(t.queue, i + 1) && j < |t.logs|
      ensures t.logs[j].hi <= t.queue[i].hi
    {
      assert t.logs[j] == s.logs[j + 1];
    }
  }

  lemma SameOwnership(s: State, t: State)
    requires Ownership(s) && t.queue == s.queue && Left(t.flush) == Left(s.flush) && t.mem == s.mem
    requires |t.logs| == |s.logs| + (if t.spare then 1 else 0) - (if s.spare then 1 else 0)
    requires |s.logs| <= |t.logs| && forall j :: 0 <= j < |s.logs| ==> t.logs[j].hi == s.logs[j].hi
    ensures Ownership(t)
  {
    hide Owned;
    forall i, j | 0 <= i < |t.queue| && 0 <= j < Left(t.flush) + Owned(t.queue, i + 1) && j < |t.logs|
      ensures t.logs[j].hi <= t.queue[i].hi
    {
      OwnedMonotone(s.queue, i + 1);
      assert j < |s.logs|;
    }
  }

  lemma StepOwnership(s: State, step: Step)
    requires Ownership(s) && LogsSound(s) && ContentsSound(s) && Enabled(s, step) && !Recovery(step)
    ensures Ownership(After(s, step))
  {
    hide Ownership, Active, Retired, Loggable, Holds, Sorted, OlderThan, Took, Ops, EncodeGroup, Frame, Replay;
    var t := After(s, step);
    match step
    case Issue(g, applied) => IssueOwnership(s, g, applied);
    case RotateSwitch => RotateOwnership(s);
    case FlushErase => PopOwnership(s, t);
    case FlushEmpty => PopOwnership(s, t);
    case UnlinkLog => UnlinkOwnership(s);
    case _ => SameOwnership(s, t);
  }

  // ---- The flush thread ----

  lemma EmptyFlush(s: State)
    requires FlushSound(s) && Ownership(s) && Coverage(s) && Enabled(s, FlushEmpty)
    ensures FlushSound(After(s, FlushEmpty))
  {
    hide Owned, TableChain;
    var t, g := After(s, FlushEmpty), s.queue[0];
    PopOwnership(s, s.(queue := s.queue[1..], flush := Unlinking(g.logs)));
    ChainSnoc(s.tables, Frozen(g));
    assert Covered(s.tables, |s.tables|) == QueueEnd(s, 0) <= g.hi;
  }

  lemma EraseFlush(s: State)
    requires FlushSound(s) && Ownership(s) && Enabled(s, FlushErase)
    ensures FlushSound(After(s, FlushErase))
  {
    hide Owned;
    PopOwnership(s, After(s, FlushErase));
  }

  lemma UnlinkFlush(s: State)
    requires FlushSound(s) && Spans(s) && Current(s) > 0 && Enabled(s, UnlinkLog)
    ensures FlushSound(After(s, UnlinkLog))
  {
    var t := After(s, UnlinkLog);
    assert t.logs[0] == s.logs[1] && s.logs[0].hi == s.logs[1].lo;
    assert forall j :: 0 <= j < |t.logs| ==> t.logs[j] == s.logs[j + 1];
  }

  lemma IssueFlush(s: State, g: Group, applied: bool)
    requires FlushSound(s) && Ownership(s) && Enabled(s, Issue(g, applied))
    ensures FlushSound(After(s, Issue(g, applied)))
  {
    hide Owned, Ops, Took, EncodeGroup, Frame;
    CurrentNotOwned(s, 0);
  }

  lemma StepFlush(s: State, step: Step)
    requires FlushSound(s) && Ownership(s) && Coverage(s) && LogsSound(s) && Enabled(s, step) && !Recovery(step)
    ensures FlushSound(After(s, step))
  {
    hide Ownership, Coverage, FlushSound, Enabled, After, Active, Retired, Loggable;
    CurrentNotOwned(s, 0);
    match step
    case Issue(g, applied) => IssueFlush(s, g, applied);
    case FlushEmpty => EmptyFlush(s);
    case FlushErase => EraseFlush(s);
    case UnlinkLog =>
      UnlinkCoverage(s);
      UnlinkFlush(s);
    case FlushSync => SyncFlush(s);
    case _ => PlainFlush(s, step);
  }

  lemma SyncFlush(s: State)
    requires FlushSound(s) && Coverage(s) && Enabled(s, FlushSync)
    ensures FlushSound(After(s, FlushSync))
  {
    hide TableChain, QueueEnd;
    ChainGrows(s.tables, s.durable, |s.tables|);
  }

  lemma PlainFlush(s: State, step: Step)
    requires FlushSound(s) && Enabled(s, step) && Left(s.flush) <= |s.logs|
    requires step.AppendFails? || step.SyncLog? || step.RotateCreate? || step.RotateSwitch?
          || step.FlushBuild? || step.FlushRecord? || step.FlushDone?
    ensures FlushSound(After(s, step))
  {
  }

  // ---- Everything together ----

  ghost predicate Inv(s: State) {
    LogsSound(s) && ContentsSound(s) && Coverage(s) && Ownership(s) && FlushSound(s)
  }

  lemma TablesReached(s: State, cuts: seq<nat>, kept: nat, i: nat)
    requires Coverage(s) && LogsSound(s) && CrashOf(s, kept, cuts) && i < kept
    ensures s.tables[i].hi <= Reached(s, cuts)
  {
    hide Active, Retired, Loggable, TableChain, Whole, RecordsIn;
    ChainGrows(s.tables, i + 1, |s.tables|);
    assert QueueEnd(s, 0) <= s.logs[Current(s)].lo;
  }

  lemma ReopenTables(s: State, kept: nat)
    requires TableChain(s.tables) && s.durable <= kept <= |s.tables|
    ensures TableChain(s.tables[..kept])
    ensures Covered(s.tables, s.durable) <= Covered(s.tables[..kept], kept) <= Covered(s.tables, |s.tables|)
  {
    var front := s.tables[..kept];
    assert forall i :: 0 <= i <= kept ==> Covered(front, i) == Covered(s.tables, i);
    ChainGrows(s.tables, s.durable, kept);
    ChainGrows(s.tables, kept, |s.tables|);
  }

  lemma ReopenRest(s: State, t: State, w: nat)
    requires Coverage(s) && FlushSound(s) && s.durable <= |t.tables| <= |s.tables|
    requires s.logs[Current(s)].lo <= w && |t.logs| == |s.logs| > 0
    requires t.logs[0].lo == t.mem.lo == s.logs[0].lo && t.logs[|t.logs| - 1].lo >= s.logs[Current(s)].lo
    requires t.queue == [] && t.flush == Idle && !t.spare && t.mem.logs == |t.logs|
    requires t.tables == s.tables[..|t.tables|] && t.durable == |t.tables|
    ensures Coverage(t) && Ownership(t) && FlushSound(t)
  {
    hide TableChain, Covered, Owned;
    ReopenTables(s, |t.tables|);
    assert QueueEnd(s, 0) <= s.logs[Current(s)].lo;
    NoneOwned();
  }

  lemma NoneOwned()
    ensures Owned([], 0) == 0
  {
  }

  lemma ReopenKeeps(s: State, kept: nat, cuts: seq<nat>)
    requires Inv(s) && Enabled(s, Reopen(kept, cuts))
    ensures Inv(After(s, Reopen(kept, cuts)))
  {
    hide LogsSound, ContentsSound, Coverage, Ownership, FlushSound, After, Reached;
    assert CrashOf(s, s.durable, cuts);
    CrashReplay(s, cuts);
    ReopenLogs(s, kept, cuts);
    forall i | 0 <= i < kept ensures s.tables[i].hi <= Reached(s, cuts) {
      TablesReached(s, cuts, kept, i);
    }
    ReopenContents(s, kept, cuts);
    ReopenFrame(s, kept, cuts);
    ReopenRest(s, After(s, Reopen(kept, cuts)), Reached(s, cuts));
  }

  lemma ReopenFrame(s: State, kept: nat, cuts: seq<nat>)
    requires LogsSound(s) && Enabled(s, Reopen(kept, cuts)) && s.logs[Current(s)].lo <= Reached(s, cuts)
    ensures var t := After(s, Reopen(kept, cuts));
            && |t.logs| == |s.logs| > 0 && t.logs[0].lo == t.mem.lo == s.logs[0].lo
            && t.logs[|t.logs| - 1].lo >= s.logs[Current(s)].lo
            && t.queue == [] && t.flush == Idle && !t.spare && t.mem.logs == |t.logs|
            && t.tables == s.tables[..kept] && |t.tables| == kept && t.durable == kept
  {
    hide Active, Retired, Loggable, RecordsIn, OpsIn, Apply, IsWhole, Reached;
  }

  // ---- Recovery from hindered logs ----

  lemma {:induction false} FilesPart(files: seq<bytes>, n: nat)
    requires n <= |files|
    ensures ReplayFiles(files[..n]) <= ReplayFiles(files)
    decreases |files|
  {
    hide Replay;
    if n == |files| {
      assert files[..n] == files;
    } else {
      var front := files[..|files| - 1];
      FilesPart(front, n);
      assert front[..n] == files[..n];
    }
  }

  lemma FileSlice(files: seq<bytes>, j: nat)
    requires j < |files|
    ensures Count(files, j) <= Count(files, j + 1) <= |ReplayFiles(files)|
    ensures ReplayFiles(files)[Count(files, j)..Count(files, j + 1)] == Replay(files[j])
  {
    hide Replay;
    FilesPart(files, j + 1);
    assert files[..j + 1][..j] == files[..j];
  }

  lemma SalvagedSound(left: bytes, groups: seq<Group>, lo: nat, hi: nat)
    requires lo <= hi <= |groups| && Replay(left) == RecordsIn(groups, lo, hi)
    ensures Retired(SalvagedLog(left, lo, hi), groups) && Active(SalvagedLog(left, lo, hi), groups, hi)
  {
    hide Replay, Log, RecordsIn;
    var rs := Replay(left);
    ReplayReadsPrefix(left);
    var rest := left[|Log(rs)|..];
    assert left == Log(rs) + rest;
    ReplayAfter(rs, rest);
    assert |rs + Replay(rest)| == |rs|;
    if rest == [] { assert left == Log(rs); }
  }

  /** Of the groups that are back, each log holds a span, and the spans follow one another. */
  lemma FileSalvaged(files: seq<bytes>, back: seq<Group>, j: nat)
    requires Records(back) == ReplayFiles(files) && j < |files|
    ensures Count(files, j) <= Count(files, j + 1) <= |back|
    ensures Replay(files[j]) == RecordsIn(back, Count(files, j), Count(files, j + 1))
    ensures Count(files, 0) == 0 && Count(files, |files|) == |back|
  {
    hide Replay, RecordsIn, EncodeGroup;
    FileSlice(files, j);
    RecordsSlice(back, Count(files, j), Count(files, j + 1));
    assert files[..|files|] == files;
  }

  lemma RecordsSlice(groups: seq<Group>, lo: nat, hi: nat)
    requires lo <= hi <= |groups|
    ensures Records(groups)[lo..hi] == RecordsIn(groups, lo, hi)
  {
    hide EncodeGroup;
  }

  lemma LogSalvaged(files: seq<bytes>, groups: seq<Group>, j: nat)
    requires Records(groups) == ReplayFiles(files) && j < |files|
    ensures var log := SalvagedLogs(files)[j];
            && log.lo == Count(files, j) && log.hi == Count(files, j + 1) && log.tail != Behind
            && log.lo <= log.hi <= |groups|
            && Retired(log, groups) && Active(log, groups, log.hi)
  {
    hide Retired, Active, ReplayFiles, Records, RecordsIn, Count, Replay, IsWhole;
    FileSalvaged(files, groups, j);
    SalvagedSound(files[j], groups, Count(files, j), Count(files, j + 1));
  }

  lemma SalvageSpans(files: seq<bytes>, t: State)
    requires Records(t.groups) == ReplayFiles(files) && |files| > 0
    requires t.logs == SalvagedLogs(files) && !t.spare
    ensures Spans(t) && t.logs[0].lo == 0
  {
    hide ReplayFiles, Records, Count, Replay, IsWhole, RecordsIn, SalvagedLogs;
    forall j | 0 <= j < |files|
      ensures t.logs[j].lo == Count(files, j) && t.logs[j].hi == Count(files, j + 1)
      ensures t.logs[j].lo <= t.logs[j].hi <= |t.groups|
    {
      SpanSalvaged(files, j);
      FileSalvaged(files, t.groups, j);
    }
    FileSalvaged(files, t.groups, 0);
  }

  lemma SpanSalvaged(files: seq<bytes>, j: nat)
    requires j < |files|
    ensures SalvagedLogs(files)[j].lo == Count(files, j) && SalvagedLogs(files)[j].hi == Count(files, j + 1)
  {
    hide Count, IsWhole;
  }

  lemma SalvageLogs(files: seq<bytes>, t: State)
    requires Records(t.groups) == ReplayFiles(files) && Loggable(t.groups) && |files| > 0
    requires t.logs == SalvagedLogs(files) && t.acked == |t.groups| && !t.spare
    ensures LogsSound(t) && Unhindered(t) && t.logs[0].lo == 0
  {
    hide Retired, Active, ReplayFiles, Records, RecordsIn, Loggable, Count, Replay, IsWhole, SalvagedLogs;
    SalvageSpans(files, t);
    forall j | 0 <= j < |files|
      ensures t.logs[j].tail != Behind && t.logs[j].lo <= t.logs[j].hi <= |t.groups|
      ensures Retired(t.logs[j], t.groups) && Active(t.logs[j], t.groups, t.logs[j].hi)
    {
      LogSalvaged(files, t.groups, j);
    }
  }

  lemma SalvageKeeps(s: State, kept: nat, cuts: seq<nat>, back: seq<Group>)
    requires Enabled(s, Salvage(kept, cuts, back))
    ensures Inv(After(s, Salvage(kept, cuts, back)))
    ensures Unhindered(After(s, Salvage(kept, cuts, back)))
  {
    hide LogsSound, ContentsSound, Coverage, Ownership, FlushSound, Retired, Active, ReplayFiles, Records, AllOps,
         Apply, Loggable;
    var t := After(s, Salvage(kept, cuts, back));
    SalvageLogs(LeftOf(s, cuts), t);
    SalvageContents(t);
    SalvageRest(t);
  }

  lemma SalvageContents(t: State)
    requires |AllOps(t.groups)| + 1 <= SEQ_LIMIT && t.seqNo == |AllOps(t.groups)| && t.queue == [] && t.tables == []
    requires t.mem.lo == 0 && t.mem.hi == |t.groups| && t.mem.held == t.groups
    requires t.mem.entries == Apply([], AllOps(t.groups), 0)
    ensures ContentsSound(t)
  {
    hide Holds, Apply, Sorted, OlderThan, AllOps;
    assert t.groups[0..|t.groups|] == t.groups;
    ReplayedHolds(t.groups, t.failed, 0, |t.groups|);
  }

  lemma SalvageRest(t: State)
    requires |t.logs| > 0 && t.logs[0].lo == 0 && t.mem.lo == 0 && t.mem.logs == |t.logs|
    requires t.queue == [] && t.tables == [] && t.durable == 0 && t.flush == Idle && !t.spare
    ensures Coverage(t) && Ownership(t) && FlushSound(t)
  {
    NoneOwned();
  }

  lemma StepKeeps(s: State, step: Step)
    requires Inv(s) && Enabled(s, step)
    ensures Inv(After(s, step))
  {
    hide LogsSound, ContentsSound, Coverage, Ownership, FlushSound, Enabled, After;
    if step.Reopen? {
      ReopenKeeps(s, step.kept, step.cuts);
    } else if step.Salvage? {
      SalvageKeeps(s, step.kept, step.cuts, step.back);
    } else {
      StepContents(s, step);
      StepCoverage(s, step);
      StepOwnership(s, step);
      StepFlush(s, step);
      if step.UnlinkLog? {
        UnlinkCoverage(s);
        UnlinkLogs(s);
      } else {
        StepLogs(s, step);
      }
    }
  }

  /** States joined by enabled steps. */
  ghost predicate Path(states: seq<State>, steps: seq<Step>) {
    && |states| == |steps| + 1
    && forall i :: 0 <= i < |steps| ==> Enabled(states[i], steps[i]) && states[i + 1] == After(states[i], steps[i])
  }

  ghost predicate Run(states: seq<State>, steps: seq<Step>) {
    Path(states, steps) && states[0] == Init()
  }

  lemma InitKeeps()
    ensures Inv(Init())
  {
    hide Apply, Holds, Active, Sorted, OlderThan;
    var s := Init();
    NothingHeld([], {});
    FreshActive([]);
  }

  lemma {:induction false} RunKeeps(states: seq<State>, steps: seq<Step>, i: nat)
    requires Run(states, steps) && i < |states|
    ensures Inv(states[i])
  {
    hide Inv, Enabled, After, Init;
    if i == 0 {
      InitKeeps();
    } else {
      RunKeeps(states, steps, i - 1);
      StepKeeps(states[i - 1], steps[i - 1]);
    }
  }

  // ---- Prefix durability ----

  /** A listed table holds the group. */
  ghost predicate InTable(s: State, kept: nat, g: nat)
    requires kept <= |s.tables|
  {
    exists i :: 0 <= i < kept && HoldsGroup(s, s.tables[i], g)
  }

  ghost predicate HoldsGroup(s: State, t: Table, g: nat) {
    t.lo <= g < t.hi && g < |s.groups| && g - t.lo < |t.held| && t.held[g - t.lo] == s.groups[g]
  }

  /** A group whose sync failed is gone: no log has it any more, and no listed table got it. */
  ghost predicate Dropped(s: State, kept: nat, g: nat)
    requires kept <= |s.tables|
  {
    |s.logs| > 0 && g in s.failed && g < s.logs[0].lo && !InTable(s, kept, g)
  }

  /**
    The first `w` groups, and nothing else, are back, but for dropped ones: the replayed records are whole groups up to
    `w`, every table listed holds whole groups below `w`, and each group below `w` that is not dropped is in a listed
    table or in the records.
   */
  ghost predicate Survived(s: State, kept: nat, cuts: seq<nat>, w: nat)
    requires CrashOf(s, kept, cuts)
  {
    && |s.logs| > 0 && s.logs[0].lo <= w <= |s.groups|
    && ReplayFiles(LeftOf(s, cuts)) == RecordsIn(s.groups, s.logs[0].lo, w)
    && DecodeRecords(ReplayFiles(LeftOf(s, cuts))) == Some(OpsIn(s.groups, s.logs[0].lo, w))
    && (forall i :: 0 <= i < kept ==> s.tables[i].hi <= w && Holds(s.groups, s.failed, s.tables[i]))
    && (forall g :: 0 <= g < w && !Dropped(s, kept, g) ==> s.logs[0].lo <= g || InTable(s, kept, g))
  }

  ghost predicate InSpan(s: State, kept: nat, g: nat)
    requires kept <= |s.tables|
  {
    exists i :: 0 <= i < kept && s.tables[i].lo <= g < s.tables[i].hi
  }

  lemma {:induction false} InSomeSpan(s: State, kept: nat, g: nat)
    requires TableChain(s.tables) && kept <= |s.tables| && g < Covered(s.tables, kept)
    ensures InSpan(s, kept, g)
    decreases kept
  {
    hide TableChain;
    if kept > 0 {
      assert s.tables[kept - 1].lo <= Covered(s.tables, kept - 1) by { ChainAt(s.tables, kept - 1); }
      if g < Covered(s.tables, kept - 1) {
        InSomeSpan(s, kept - 1, g);
        var i :| 0 <= i < kept - 1 && s.tables[i].lo <= g < s.tables[i].hi;
        assert 0 <= i < kept;
      } else {
        assert s.tables[kept - 1].lo <= g < s.tables[kept - 1].hi;
      }
    }
  }

  lemma InSomeTable(s: State, kept: nat, g: nat)
    requires TableChain(s.tables) && kept <= |s.tables| && g < Covered(s.tables, kept) && g !in s.failed
    requires forall i :: 0 <= i < kept ==> Holds(s.groups, s.failed, s.tables[i])
    ensures InTable(s, kept, g)
  {
    hide TableChain, Covered, Answers, AllOps;
    InSomeSpan(s, kept, g);
    var i :| 0 <= i < kept && s.tables[i].lo <= g < s.tables[i].hi;
    assert Holds(s.groups, s.failed, s.tables[i]);
    assert s.groups[s.tables[i].lo + (g - s.tables[i].lo)] == s.groups[g];
    assert HoldsGroup(s, s.tables[i], g);
  }

  lemma ChainAt(tables: seq<Table>, i: nat)
    requires TableChain(tables) && i < |tables|
    ensures tables[i].lo <= Covered(tables, i) <= tables[i].hi
  {
  }

  lemma DecodeIn(groups: seq<Group>, lo: nat, hi: nat)
    requires Loggable(groups) && lo <= hi <= |groups|
    ensures DecodeRecords(RecordsIn(groups, lo, hi)) == Some(OpsIn(groups, lo, hi))
  {
    hide EncodeGroup, AllOps, DecodeRecords;
    DecodeRecordsOf(groups[lo..hi]);
  }

  lemma InvSurvives(s: State, kept: nat, cuts: seq<nat>)
    requires Inv(s) && Unhindered(s) && CrashOf(s, kept, cuts)
    ensures Survived(s, kept, cuts, Reached(s, cuts)) && s.acked <= Reached(s, cuts) <= |s.groups|
  {
    hide Active, Retired, Holds, RecordsIn, OpsIn, Whole, ReplayFiles, DecodeRecords, Ownership, TableChain, Sorted,
         OlderThan, Reached, InTable, Loggable;
    CrashReplay(s, cuts);
    var w := Reached(s, cuts);
    DecodeIn(s.groups, s.logs[0].lo, w);
    forall i | 0 <= i < kept ensures s.tables[i].hi <= w {
      TablesReached(s, cuts, kept, i);
    }
    ChainGrows(s.tables, s.durable, kept);
    forall g | 0 <= g < w && !Dropped(s, kept, g) ensures s.logs[0].lo <= g || InTable(s, kept, g) {
      if g < s.logs[0].lo && g !in s.failed { InSomeTable(s, kept, g); }
    }
  }

  lemma StepKeepsAcked(s: State, step: Step)
    requires Inv(s) && Enabled(s, step) && !step.Salvage?
    ensures var t := After(s, step);
            && s.acked <= t.acked && s.acked <= |s.groups| && s.acked <= |t.groups|
            && t.groups[..s.acked] == s.groups[..s.acked]
  {
    hide Active, Retired, Loggable, ContentsSound, Coverage, Ownership, FlushSound, Apply, Ops, OpsIn, EncodeGroup,
         Frame, Reached, IsWhole, Took, Frayed;
    AckedBound(s);
    if step.Reopen? {
      CrashReplay(s, step.cuts);
    }
  }

  lemma AckedBound(s: State)
    requires LogsSound(s)
    ensures s.acked <= |s.groups|
  {
    hide Log, RecordsIn, Replay, Retired;
  }

  /** No recovery from hindered logs between two points of a run: all groups are counted from one beginning. */
  ghost predicate Unbroken(steps: seq<Step>, i: nat, j: nat) {
    forall r :: i <= r < j && r < |steps| ==> !steps[r].Salvage?
  }

  lemma {:induction false} AckedStays(states: seq<State>, steps: seq<Step>, i: nat, j: nat)
    requires Run(states, steps) && i <= j < |states| && Unbroken(steps, i, j)
    ensures states[i].acked <= states[j].acked
    ensures states[i].acked <= |states[i].groups| && states[i].acked <= |states[j].groups|
    ensures states[j].groups[..states[i].acked] == states[i].groups[..states[i].acked]
    decreases j
  {
    hide Inv, Enabled, After, Init;
    RunKeeps(states, steps, i);
    if i == j {
      BoundOf(states[i]);
    } else {
      AckedStays(states, steps, i, j - 1);
      RunKeeps(states, steps, j - 1);
      StepKeepsAcked(states[j - 1], steps[j - 1]);
      var n := states[i].acked;
      assert states[j].groups[..states[j - 1].acked][..n] == states[j].groups[..n];
      assert states[j - 1].groups[..states[j - 1].acked][..n] == states[j - 1].groups[..n];
    }
  }

  lemma BoundOf(s: State)
    requires Inv(s)
    ensures s.acked <= |s.groups|
  {
    hide LogsSound, ContentsSound, Coverage, Ownership, FlushSound;
    AckedBound(s);
  }

  /**
    Prefix durability: in every run of writes, failed appends, failed syncs, syncs, rotations, flushes and earlier
    reopenings, whatever a crash keeps while no log is hindered, what comes back is exactly a prefix of the groups
    written, by whole groups and but for dropped ones, and it includes every group synced at this point of the run or
    any earlier one, as far back as no recovery found a hindered log.
   */
  lemma CrashLeavesPrefix(states: seq<State>, steps: seq<Step>, i: nat, j: nat, kept: nat, cuts: seq<nat>)
    requires Run(states, steps) && i <= j < |states| && Unbroken(steps, i, j)
    requires CrashOf(states[j], kept, cuts) && Unhindered(states[j])
    ensures exists w: nat ::
              && Survived(states[j], kept, cuts, w)
              && states[i].acked <= w <= |states[j].groups| && states[i].acked <= |states[i].groups|
              && states[j].groups[..states[i].acked] == states[i].groups[..states[i].acked]
  {
    hide Run, Inv, Survived, Reached, CrashOf, Unhindered, Unbroken;
    RunKeeps(states, steps, j);
    AckedStays(states, steps, i, j);
    ReachedDefined(states[j], kept, cuts);
    InvSurvives(states[j], kept, cuts);
    var w := Reached(states[j], cuts);
    assert Survived(states[j], kept, cuts, w);
  }

  /** What comes back is a whole prefix if and only if no group whose sync failed was dropped. */
  lemma WholePrefixIff(s: State, kept: nat, cuts: seq<nat>)
    requires Inv(s) && Unhindered(s) && CrashOf(s, kept, cuts)
    ensures 0 <= Current(s) < |s.logs| == |cuts| && s.logs[Current(s)].lo <= s.logs[Current(s)].hi <= |s.groups|
    ensures (forall g :: 0 <= g < Reached(s, cuts) ==> s.logs[0].lo <= g || InTable(s, kept, g))
            <==> (forall g :: g in s.failed ==> !Dropped(s, kept, g))
  {
    hide Inv, Reached, InTable, CrashOf, Unhindered, ReplayFiles, DecodeRecords, RecordsIn, OpsIn, Holds;
    ReachedDefined(s, kept, cuts);
    InvSurvives(s, kept, cuts);
  }

  /** Without a failed sync in the run there is none to drop. */
  lemma {:induction false} NoneFailed(states: seq<State>, steps: seq<Step>, i: nat)
    requires Run(states, steps) && i < |states|
    requires forall r :: 0 <= r < |steps| && steps[r].Issue? ==> steps[r].applied
    ensures states[i].failed == {}
  {
    hide Enabled, After;
    if i > 0 {
      NoneFailed(states, steps, i - 1);
      FailedStep(states[i - 1], steps[i - 1]);
    }
  }

  lemma FailedStep(s: State, step: Step)
    requires Enabled(s, step) && (step.Issue? ==> step.applied) && s.failed == {}
    ensures After(s, step).failed == {}
  {
    hide Took, Frayed, Extended, CutLogs, SalvagedLogs, Apply, OpsIn, AllOps, Reached, Records, ReplayFiles, Loggable,
         EncodeGroup, Frame, Ops, Unhindered;
  }

  lemma ReachedDefined(s: State, kept: nat, cuts: seq<nat>)
    requires Inv(s) && CrashOf(s, kept, cuts)
    ensures 0 <= Current(s) < |s.logs| == |cuts|
    ensures s.logs[Current(s)].lo <= s.logs[Current(s)].hi <= |s.groups|
  {
    hide Active, Retired, ContentsSound, Coverage, Ownership, FlushSound, Loggable;
  }
}
