/**
  A `get` racing writes, rotations, flushes and compactions. Each lock-protected section, file operation and
  level-list fetch is one step (`minikv/src/core/db_impl.cpp`, `compaction.cpp`, `version.cpp`).
  Readers change nothing that other threads see, so one reader stands for any number of them.
 */
module NoLostRead {
  import opened Bytes
  import opened Entries
  import opened Lookup
  import opened LogMeaning
  import opened TableLookup
  import opened Compaction
  import opened KeyLife

  /** The flush thread: idle, table file built, table file listed. */
  datatype Flush = NoFlush | Built(table: nat, file: nat) | Listed(table: nat, file: nat)

  /** The compaction thread; `out` is None when the merge kept nothing. */
  datatype Compact =
    | NoCompaction
    | Picked(src: nat, inputs: seq<nat>)
    | Merged(src: nat, inputs: seq<nat>, out: Option<nat>)
    | Added(src: nat, inputs: seq<nat>, out: Option<nat>)
    | Dropping(src: nat, inputs: seq<nat>, out: Option<nat>, gone: nat)

  /** `promised` records whether the key had been put when the read began. */
  datatype Reader =
    | NoReader
    | Reading(promised: bool, tables: seq<nat>, remaining: seq<nat>, next: nat)
    | Found(promised: bool, value: bytes)
    | NotFound(promised: bool)

  /**
    Memtables and table files are numbered and never forgotten: `mem` and `imms` say which memtables are
    current, `levels` which files are listed, `linked` which still exist. `puts` is the set of values put for
    the observed key; `known` says that it has been put and no crash has lost it since.
   */
  datatype State = State(
    tables: seq<seq<Entry>>, mem: nat, imms: seq<nat>, seqNo: nat,
    files: seq<seq<Entry>>, home: seq<nat>, linked: set<nat>, levels: seq<seq<nat>>,
    flush: Flush, compaction: Compact, reader: Reader, puts: set<bytes>, known: bool)

  datatype Step =
    | Write(ops: seq<Op>) | Rotate
    | FlushBuild | FlushEmpty | FlushList | FlushErase
    | Pick(src: nat) | Merge(sorted: seq<Entry>) | Abandon | AddOutput | RemoveInputs | UnlinkNext | Finish
    | Begin | ReadTable | Fetch | OpenFile

  function Init(levels: nat): State {
    State([[]], 0, [], 0, [], [], {}, seq(levels, _ => []), NoFlush, NoCompaction, NoReader, {}, false)
  }

  function ValuesFor(ops: seq<Op>, k: bytes): set<bytes> {
    set i | 0 <= i < |ops| && ops[i].key == k :: ops[i].value
  }

  function Contents(s: State, ids: seq<nat>): (r: seq<seq<Entry>>)
    requires forall i :: 0 <= i < |ids| ==> ids[i] < |s.files|
    ensures |r| == |ids| && forall i :: 0 <= i < |r| ==> r[i] == s.files[ids[i]]
  {
    seq(|ids|, i requires 0 <= i < |ids| => s.files[ids[i]])
  }

  function Except(ids: seq<nat>, gone: seq<nat>): (r: seq<nat>)
    ensures forall x :: x in r <==> x in ids && x !in gone
  {
    if |ids| == 0 then []
    else if ids[0] in gone then Except(ids[1..], gone)
    else [ids[0]] + Except(ids[1..], gone)
  }

  function Reversed(ids: seq<nat>): (r: seq<nat>)
    ensures forall x :: x in r <==> x in ids
  {
    if |ids| == 0 then [] else [ids[|ids| - 1]] + Reversed(ids[..|ids| - 1])
  }

  /** A new table file: contents, level, existing. */
  function Created(s: State, es: seq<Entry>, level: nat): State {
    s.(files := s.files + [es], home := s.home + [level], linked := s.linked + {|s.files|})
  }

  // ---- Steps ----

  ghost predicate Enabled(s: State, step: Step, k: bytes) {
    match step
    case Write(ops) => s.mem < |s.tables| && forall i :: 0 <= i < |ops| && ops[i].key == k ==> !ops[i].isDelete
    case Rotate => true
    case FlushBuild => s.flush.NoFlush? && |s.imms| > 0 && s.imms[0] < |s.tables| && s.tables[s.imms[0]] != []
    case FlushEmpty => s.flush.NoFlush? && |s.imms| > 0 && s.imms[0] < |s.tables| && s.tables[s.imms[0]] == []
    case FlushList => s.flush.Built? && |s.levels| > 0
    case FlushErase => s.flush.Listed?
    case Pick(src) => s.compaction.NoCompaction? && src + 1 < |s.levels| && |s.levels[src]| > 0
    case Merge(sorted) =>
      && s.compaction.Picked?
      && (forall i :: 0 <= i < |s.compaction.inputs| ==> s.compaction.inputs[i] < |s.files|)
      && Ordered(sorted) && multiset(sorted) == multiset(Flatten(Contents(s, s.compaction.inputs)))
    case Abandon => s.compaction.Picked?
    case AddOutput => s.compaction.Merged? && s.compaction.src + 1 < |s.levels|
    case RemoveInputs => s.compaction.Added? && s.compaction.src < |s.levels|
    case UnlinkNext => s.compaction.Dropping? && s.compaction.gone < |s.compaction.inputs|
    case Finish => s.compaction.Dropping? && s.compaction.gone == |s.compaction.inputs|
    case Begin => s.reader.NoReader?
    case ReadTable => s.reader.Reading? && |s.reader.tables| > 0 && s.reader.tables[0] < |s.tables|
    case Fetch => s.reader.Reading? && s.reader.tables == [] && s.reader.remaining == []
    case OpenFile =>
      s.reader.Reading? && s.reader.tables == [] && |s.reader.remaining| > 0 && s.reader.remaining[0] < |s.files|
  }

  ghost function After(s: State, step: Step, k: bytes): State
    requires Enabled(s, step, k)
  {
    match step
    case Write(ops) =>
      s.(tables := s.tables[s.mem := Apply(s.tables[s.mem], ops, s.seqNo + 1)],
         seqNo := s.seqNo + |ops|, puts := s.puts + ValuesFor(ops, k), known := s.known || ValuesFor(ops, k) != {})
    case Rotate => s.(tables := s.tables + [[]], imms := s.imms + [s.mem], mem := |s.tables|)
    case FlushBuild => Created(s, s.tables[s.imms[0]], 0).(flush := Built(s.imms[0], |s.files|))
    case FlushEmpty => s.(imms := s.imms[1..])
    case FlushList =>
      s.(levels := s.levels[0 := s.levels[0] + [s.flush.file]], flush := Listed(s.flush.table, s.flush.file))
    case FlushErase => s.(imms := Except(s.imms, [s.flush.table]), flush := NoFlush)
    case Pick(src) => s.(compaction := Picked(src, s.levels[src]))
    case Merge(sorted) =>
      var c, kept := s.compaction, Keep(sorted, []);
      if kept == [] then s.(compaction := Merged(c.src, c.inputs, None))
      else Created(s, kept, c.src + 1).(compaction := Merged(c.src, c.inputs, Some(|s.files|)))
    case Abandon => s.(compaction := NoCompaction)
    case AddOutput =>
      var c := s.compaction;
      var level := c.src + 1;
      s.(levels := if c.out.Some? then s.levels[level := s.levels[level] + [c.out.value]] else s.levels,
         compaction := Added(c.src, c.inputs, c.out))
    case RemoveInputs =>
      var c := s.compaction;
      s.(levels := s.levels[c.src := Except(s.levels[c.src], c.inputs)],
         compaction := Dropping(c.src, c.inputs, c.out, 0))
    case UnlinkNext =>
      var c := s.compaction;
      s.(linked := s.linked - {c.inputs[c.gone]}, compaction := c.(gone := c.gone + 1))
    case Finish => s.(compaction := NoCompaction)
    case _ => s.(reader := ReaderAfter(s, step, k))
  }

  /** `get`: the snapshot, the memtables newest first, then level by level and file by file. */
  ghost function ReaderAfter(s: State, step: Step, k: bytes): Reader
    requires Enabled(s, step, k)
  {
    var r := s.reader;
    match step
    case Begin => Reading(s.known, [s.mem] + Reversed(s.imms), [], 0)
    case ReadTable =>
      var v := Find(s.tables[r.tables[0]], k);
      if v.Some? then Found(r.promised, v.value) else r.(tables := r.tables[1..])
    case Fetch =>
      if r.next < |s.levels| then r.(remaining := s.levels[r.next], next := r.next + 1) else NotFound(r.promised)
    case OpenFile =>
      var v := if r.remaining[0] in s.linked then Find(s.files[r.remaining[0]], k) else None;
      if v.Some? then Found(r.promised, v.value) else r.(remaining := r.remaining[1..])
    case _ => r
  }

  // ---- Invariants ----

  ghost predicate FilesAt(s: State, ids: seq<nat>, level: nat)
    requires |s.home| == |s.files|
  {
    forall f :: f in ids ==> f < |s.files| && s.home[f] == level
  }

  ghost predicate TablesSound(s: State) {
    && s.mem < |s.tables|
    && (forall t :: t in s.imms ==> t < |s.tables| && t != s.mem)
    && (!s.flush.NoFlush? ==> s.flush.table in s.imms)
  }

  ghost predicate FilesSound(s: State) {
    && |s.home| == |s.files|
    && (forall f :: f in s.linked ==> f < |s.files|)
    && (forall i :: 0 <= i < |s.levels| ==> FilesAt(s, s.levels[i], i))
    && (forall i, f :: 0 <= i < |s.levels| && f in s.levels[i] ==> f in s.linked)
  }

  ghost predicate FlushSound(s: State)
    requires |s.home| == |s.files|
  {
    !s.flush.NoFlush? ==>
      && s.flush.table < |s.tables| && s.flush.file < |s.files|
      && s.home[s.flush.file] == 0 && s.files[s.flush.file] == s.tables[s.flush.table]
      && (s.flush.Built? ==>
            && s.flush.file in s.linked
            && (forall i :: 0 <= i < |s.levels| ==> s.flush.file !in s.levels[i])
            && (!s.compaction.NoCompaction? ==> s.flush.file !in s.compaction.inputs))
  }

  ghost predicate OutSound(s: State, src: nat, out: Option<nat>)
    requires |s.home| == |s.files|
  {
    out.Some? ==> out.value < |s.files| && s.home[out.value] == src + 1 && out.value in s.linked
  }

  ghost predicate CompactSound(s: State)
    requires |s.home| == |s.files|
  {
    var c := s.compaction;
    !c.NoCompaction? ==>
      && c.src + 1 < |s.levels|
      && FilesAt(s, c.inputs, c.src)
      && (!c.Picked? ==> OutSound(s, c.src, c.out))
      && ((c.Added? || c.Dropping?) && c.out.Some? ==> c.out.value in s.levels[c.src + 1])
      && (c.Dropping? ==> forall f :: f in c.inputs ==> f !in s.levels[c.src])
  }

  ghost predicate ReaderSound(s: State)
    requires |s.home| == |s.files|
  {
    s.reader.Reading? ==>
      && (forall t :: t in s.reader.tables ==> t < |s.tables|)
      && s.reader.next <= |s.levels|
      && (forall f :: f in s.reader.remaining ==> f < |s.files| && s.home[f] + 1 == s.reader.next)
  }

  ghost predicate Shape(s: State) {
    TablesSound(s) && FilesSound(s) && FlushSound(s) && CompactSound(s) && ReaderSound(s)
  }

  /** Every version of the key anywhere is one of the values put. */
  ghost predicate AllClean(s: State, k: bytes) {
    && (forall t :: 0 <= t < |s.tables| ==> Clean(s.tables[t], k, s.puts))
    && (forall f :: 0 <= f < |s.files| ==> Clean(s.files[f], k, s.puts))
  }

  ghost predicate HasFile(s: State, f: nat, k: bytes) {
    f < |s.files| && Has(s.files[f], k)
  }

  ghost predicate HasTable(s: State, t: nat, k: bytes) {
    t < |s.tables| && Has(s.tables[t], k)
  }

  /** Level `i` lists file `f`, and it has the key. */
  ghost predicate LevelHas(s: State, i: nat, f: nat, k: bytes) {
    i < |s.levels| && f in s.levels[i] && HasFile(s, f, k)
  }

  /** Some level from `from` on lists a file with the key. */
  ghost predicate LevelsHave(s: State, from: nat, k: bytes) {
    exists i: nat, f: nat :: from <= i && LevelHas(s, i, f, k)
  }

  /** A merge result stands in for its inputs. */
  ghost predicate Covered(s: State, k: bytes) {
    var c := s.compaction;
    c.Merged? || c.Added? || c.Dropping? ==>
      forall f :: f in c.inputs && HasFile(s, f, k) ==> c.out.Some? && HasFile(s, c.out.value, k)
  }

  /** A key that has been put is in a current memtable or a listed file. */
  ghost predicate Present(s: State, k: bytes) {
    HasTable(s, s.mem, k) || (exists t :: t in s.imms && HasTable(s, t, k)) || LevelsHave(s, 0, k)
  }

  ghost predicate Kept(s: State, k: bytes) {
    && (s.known ==> Present(s, k))
    && (s.flush.Listed? && HasTable(s, s.flush.table, k) ==> LevelsHave(s, 0, k))
  }

  /** The read still has the key ahead of it. */
  ghost predicate Ahead(s: State, k: bytes)
    requires s.reader.Reading?
  {
    || (exists t :: t in s.reader.tables && HasTable(s, t, k))
    || (exists f :: f in s.reader.remaining && f in s.linked && HasFile(s, f, k))
    || LevelsHave(s, s.reader.next, k)
  }

  ghost predicate ReadKept(s: State, k: bytes) {
    match s.reader
    case NoReader => true
    case Reading(promised, _, _, _) => promised ==> Ahead(s, k)
    case Found(_, value) => value in s.puts
    case NotFound(promised) => !promised
  }

  ghost predicate Inv(s: State, k: bytes) {
    Shape(s) && AllClean(s, k) && Covered(s, k) && Kept(s, k) && ReadKept(s, k)
  }

  // ---- Shape ----

  ghost predicate SharedStep(step: Step) {
    !(step.Begin? || step.ReadTable? || step.Fetch? || step.OpenFile?)
  }

  lemma TablesKept(s: State, step: Step, k: bytes)
    requires Shape(s) && Enabled(s, step, k)
    ensures TablesSound(After(s, step, k))
  {
    hide Apply, Keep, Ordered, Flatten, Find, ValuesFor, FilesSound, CompactSound, ReaderSound, Contents;
    assert |s.imms| > 0 ==> s.imms[0] in s.imms;
    assert |s.imms| > 0 ==> forall t :: t in s.imms[1..] ==> t in s.imms;
  }

  lemma FilesKept(s: State, step: Step, k: bytes)
    requires Shape(s) && Enabled(s, step, k)
    ensures FilesSound(After(s, step, k))
  {
    hide Apply, Keep, Ordered, Flatten, Find, ValuesFor, TablesSound, ReaderSound, Contents;
    if step.UnlinkNext? {
      UnlinkKeepsFiles(s, k);
    }
  }

  lemma UnlinkKeepsFiles(s: State, k: bytes)
    requires Shape(s) && Enabled(s, UnlinkNext, k)
    ensures FilesSound(After(s, UnlinkNext, k))
  {
    hide TablesSound, ReaderSound;
    var c := s.compaction;
    var gone := c.inputs[c.gone];
    assert gone in c.inputs;
    forall i, f | 0 <= i < |s.levels| && f in s.levels[i] ensures f != gone {
      assert FilesAt(s, s.levels[i], i) && s.home[f] == i;
    }
  }

  ghost predicate FlushStep(step: Step) {
    step.FlushBuild? || step.FlushEmpty? || step.FlushList? || step.FlushErase?
  }

  ghost predicate CompactStep(step: Step) {
    || step.Pick? || step.Merge? || step.Abandon? || step.AddOutput?
    || step.RemoveInputs? || step.UnlinkNext? || step.Finish?
  }

  lemma FlushKept(s: State, step: Step, k: bytes)
    requires Shape(s) && Enabled(s, step, k)
    ensures |After(s, step, k).home| == |After(s, step, k).files| && FlushSound(After(s, step, k))
  {
    hide Enabled, After, TablesSound, FilesSound, FlushSound, CompactSound, ReaderSound;
    if FlushStep(step) {
      FlushMoves(s, step, k);
    } else if CompactStep(step) {
      FlushUnderCompaction(s, step, k);
    } else {
      FlushUntouched(s, step, k);
    }
  }

  lemma FlushMoves(s: State, step: Step, k: bytes)
    requires Shape(s) && Enabled(s, step, k) && FlushStep(step)
    ensures |After(s, step, k).home| == |After(s, step, k).files| && FlushSound(After(s, step, k))
  {
    hide Apply, Keep, Ordered, Flatten, Find, ValuesFor, ReaderSound, Contents, ReaderAfter, Reversed, Except;
    assert |s.imms| > 0 ==> s.imms[0] in s.imms;
  }

  lemma FlushUnderCompaction(s: State, step: Step, k: bytes)
    requires Shape(s) && Enabled(s, step, k) && CompactStep(step)
    ensures |After(s, step, k).home| == |After(s, step, k).files| && FlushSound(After(s, step, k))
  {
    hide Apply, Keep, Ordered, Flatten, Find, ValuesFor, ReaderSound, TablesSound, Contents, ReaderAfter, Reversed;
  }

  lemma FlushUntouched(s: State, step: Step, k: bytes)
    requires Shape(s) && Enabled(s, step, k) && !FlushStep(step) && !CompactStep(step)
    ensures |After(s, step, k).home| == |After(s, step, k).files| && FlushSound(After(s, step, k))
  {
    hide Apply, Find, ValuesFor, ReaderSound, CompactSound, ReaderAfter, Reversed;
  }

  lemma CompactKept(s: State, step: Step, k: bytes)
    requires Shape(s) && Enabled(s, step, k)
    ensures |After(s, step, k).home| == |After(s, step, k).files| && CompactSound(After(s, step, k))
  {
    hide Enabled, After, TablesSound, FilesSound, FlushSound, CompactSound, ReaderSound;
    if CompactStep(step) {
      CompactMoves(s, step, k);
    } else {
      CompactUntouched(s, step, k);
    }
  }

  lemma CompactMoves(s: State, step: Step, k: bytes)
    requires Shape(s) && Enabled(s, step, k) && CompactStep(step)
    ensures |After(s, step, k).home| == |After(s, step, k).files| && CompactSound(After(s, step, k))
  {
    hide Apply, Keep, Ordered, Flatten, Find, ValuesFor, TablesSound, ReaderSound, FlushSound, Contents, ReaderAfter,
         Reversed;
  }

  lemma CompactUntouched(s: State, step: Step, k: bytes)
    requires Shape(s) && Enabled(s, step, k) && !CompactStep(step)
    ensures |After(s, step, k).home| == |After(s, step, k).files| && CompactSound(After(s, step, k))
  {
    hide Apply, Find, ValuesFor, TablesSound, ReaderSound, ReaderAfter, Reversed, Except;
  }

  lemma ReaderKept(s: State, step: Step, k: bytes)
    requires Shape(s) && Enabled(s, step, k)
    ensures |After(s, step, k).home| == |After(s, step, k).files| && ReaderSound(After(s, step, k))
  {
    hide Enabled, After, TablesSound, FilesSound, FlushSound, CompactSound, ReaderSound;
    if SharedStep(step) {
      ReaderUntouched(s, step, k);
    } else {
      ReaderMoves(s, step, k);
    }
  }

  lemma ReaderUntouched(s: State, step: Step, k: bytes)
    requires Shape(s) && Enabled(s, step, k) && SharedStep(step)
    ensures |After(s, step, k).home| == |After(s, step, k).files| && ReaderSound(After(s, step, k))
  {
    hide Apply, Keep, Ordered, Flatten, Find, ValuesFor, CompactSound, FlushSound, TablesSound, Contents, ReaderAfter,
         Except, Reversed;
  }

  lemma ReaderMoves(s: State, step: Step, k: bytes)
    requires Shape(s) && Enabled(s, step, k) && !SharedStep(step)
    ensures |After(s, step, k).home| == |After(s, step, k).files| && ReaderSound(After(s, step, k))
  {
    hide Apply, Keep, Ordered, Flatten, Find, ValuesFor, CompactSound, FlushSound, Contents, Except;
    var r := s.reader;
    assert r.Reading? && |r.tables| > 0 ==> forall t :: t in r.tables[1..] ==> t in r.tables;
    assert r.Reading? && |r.remaining| > 0 ==> forall f :: f in r.remaining[1..] ==> f in r.remaining;
  }

  lemma ShapeKept(s: State, step: Step, k: bytes)
    requires Shape(s) && Enabled(s, step, k)
    ensures Shape(After(s, step, k))
  {
    hide Enabled, After, TablesSound, FilesSound, FlushSound, CompactSound, ReaderSound;
    TablesKept(s, step, k);
    FilesKept(s, step, k);
    FlushKept(s, step, k);
    CompactKept(s, step, k);
    ReaderKept(s, step, k);
  }

  // ---- Contents ----

  lemma ValuesAreFor(ops: seq<Op>, k: bytes)
    requires forall i :: 0 <= i < |ops| && ops[i].key == k ==> !ops[i].isDelete
    ensures Puts(ops, k, ValuesFor(ops, k))
    ensures ValuesFor(ops, k) != {} ==> Touches(ops, k)
  {
    if v :| v in ValuesFor(ops, k) {
      var i :| 0 <= i < |ops| && ops[i].key == k && ops[i].value == v;
    }
  }

  lemma WriteClean(s: State, ops: seq<Op>, k: bytes)
    requires Shape(s) && AllClean(s, k) && Enabled(s, Write(ops), k)
    ensures AllClean(After(s, Write(ops), k), k)
  {
    hide Apply, ValuesFor, Clean, Shape, Puts;
    var t := After(s, Write(ops), k);
    ValuesAreFor(ops, k);
    PutsMore(ops, k, ValuesFor(ops, k), t.puts);
    forall i | 0 <= i < |t.tables| ensures Clean(t.tables[i], k, t.puts) {
      CleanMore(s.tables[i], k, s.puts, t.puts);
      if i == s.mem { ApplyClean(s.tables[i], ops, s.seqNo + 1, k, t.puts); }
    }
    forall f | 0 <= f < |t.files| ensures Clean(t.files[f], k, t.puts) {
      CleanMore(s.files[f], k, s.puts, t.puts);
    }
  }

  lemma PutsMore(ops: seq<Op>, k: bytes, a: set<bytes>, b: set<bytes>)
    requires Puts(ops, k, a) && a <= b
    ensures Puts(ops, k, b)
  {
  }

  lemma EmptyClean(k: bytes, values: set<bytes>)
    ensures Clean([], k, values) && !Has([], k)
  {
  }

  lemma MergeClean(s: State, sorted: seq<Entry>, k: bytes)
    requires AllClean(s, k) && Enabled(s, Merge(sorted), k) && k != []
    ensures AllClean(After(s, Merge(sorted), k), k)
  {
    hide Keep, Ordered, Flatten, Clean, Has;
    MergeKeepsKey(Contents(s, s.compaction.inputs), sorted, k, s.puts);
  }

  lemma CleanKept(s: State, step: Step, k: bytes)
    requires Shape(s) && AllClean(s, k) && Enabled(s, step, k) && k != []
    ensures AllClean(After(s, step, k), k)
  {
    hide Apply, Keep, Ordered, Flatten, Find, ValuesFor, Clean, Shape, Contents;
    EmptyClean(k, s.puts);
    if step.Write? {
      WriteClean(s, step.ops, k);
    } else if step.Merge? {
      MergeClean(s, step.sorted, k);
    }
  }

  // ---- Files only gain and are replaced by their merges ----

  lemma HasFileKept(s: State, step: Step, k: bytes, f: nat)
    requires Enabled(s, step, k) && HasFile(s, f, k)
    ensures HasFile(After(s, step, k), f, k)
  {
    hide Apply, Keep, Ordered, Flatten, Find, ValuesFor, Has, Contents;
  }

  lemma HasFileBefore(s: State, step: Step, k: bytes, f: nat)
    requires Enabled(s, step, k) && f < |s.files| && HasFile(After(s, step, k), f, k)
    ensures HasFile(s, f, k)
  {
    hide Apply, Keep, Ordered, Flatten, Find, ValuesFor, Has, Contents;
  }

  lemma HasTableKept(s: State, step: Step, k: bytes, t: nat)
    requires Enabled(s, step, k) && HasTable(s, t, k)
    ensures HasTable(After(s, step, k), t, k)
  {
    hide Apply, Keep, Ordered, Flatten, Find, ValuesFor, Has, Contents;
    if step.Write? { ApplyHas(s.tables[s.mem], step.ops, s.seqNo + 1, k); }
  }

  lemma MergeCovers(s: State, sorted: seq<Entry>, k: bytes)
    requires Shape(s) && AllClean(s, k) && Enabled(s, Merge(sorted), k) && k != []
    ensures Covered(After(s, Merge(sorted), k), k)
  {
    hide Keep, Ordered, Flatten, Clean, Has, TablesSound, FlushSound, ReaderSound;
    var t, inputs := After(s, Merge(sorted), k), s.compaction.inputs;
    var contents := Contents(s, inputs);
    MergeKeepsKey(contents, sorted, k, s.puts);
    EmptyClean(k, {});
    forall f | f in inputs && HasFile(t, f, k) ensures t.compaction.out.Some? && HasFile(t, t.compaction.out.value, k) {
      var i :| 0 <= i < |inputs| && inputs[i] == f;
      assert f < |s.files|;
      assert Has(contents[i], k);
    }
  }

  lemma CoveredKept(s: State, step: Step, k: bytes)
    requires Shape(s) && AllClean(s, k) && Covered(s, k) && Enabled(s, step, k) && k != []
    ensures Covered(After(s, step, k), k)
  {
    hide Apply, Keep, Ordered, Flatten, Find, ValuesFor, HasFile, AllClean, Contents, TablesSound, FlushSound,
         ReaderSound;
    var t, c := After(s, step, k), s.compaction;
    if step.Merge? {
      MergeCovers(s, step.sorted, k);
    } else if c.Merged? || c.Added? || c.Dropping? {
      forall f | f in c.inputs && HasFile(t, f, k) ensures c.out.Some? && HasFile(t, c.out.value, k) {
        HasFileBefore(s, step, k, f);
        HasFileKept(s, step, k, c.out.value);
      }
    }
  }

  /** A listed file may leave its level only after the merge that holds its keys is listed one level down. */
  lemma LevelKept(s: State, step: Step, k: bytes, i: nat, f: nat)
    requires Shape(s) && Covered(s, k) && Enabled(s, step, k) && LevelHas(s, i, f, k)
    ensures LevelsHave(After(s, step, k), i, k)
  {
    hide Apply, Keep, Ordered, Flatten, Find, ValuesFor, HasFile, Contents, TablesSound, FlushSound, ReaderSound,
         FilesSound;
    var t, c := After(s, step, k), s.compaction;
    HasFileKept(s, step, k, f);
    if step.RemoveInputs? && i == c.src && f in c.inputs {
      HasFileKept(s, step, k, c.out.value);
      assert LevelHas(t, i + 1, c.out.value, k);
    } else {
      assert LevelHas(t, i, f, k);
    }
  }

  lemma LevelsKept(s: State, step: Step, k: bytes, from: nat)
    requires Shape(s) && Covered(s, k) && Enabled(s, step, k) && LevelsHave(s, from, k)
    ensures LevelsHave(After(s, step, k), from, k)
  {
    hide Shape, Covered, Enabled, After, LevelHas;
    var i: nat, f: nat :| from <= i && LevelHas(s, i, f, k);
    LevelKept(s, step, k, i, f);
    var i': nat, f': nat :| i <= i' && LevelHas(After(s, step, k), i', f', k);
    assert from <= i' && LevelHas(After(s, step, k), i', f', k);
  }

  // ---- A key that has been put stays ----

  lemma HasTableBefore(s: State, step: Step, k: bytes, t: nat)
    requires Enabled(s, step, k) && t < |s.tables| && t != s.mem && HasTable(After(s, step, k), t, k)
    ensures HasTable(s, t, k)
  {
    hide Apply, Keep, Ordered, Flatten, Find, ValuesFor, Has, Contents;
  }

  lemma ListingShows(s: State, k: bytes)
    requires Shape(s) && Enabled(s, FlushList, k) && HasTable(s, s.flush.table, k)
    ensures LevelsHave(After(s, FlushList, k), 0, k)
  {
    hide Has, TablesSound, CompactSound, ReaderSound;
    var t := After(s, FlushList, k);
    assert LevelHas(t, 0, s.flush.file, k);
  }

  lemma FlushCovered(s: State, step: Step, k: bytes)
    requires Shape(s) && Covered(s, k) && Kept(s, k) && Enabled(s, step, k)
    ensures var t := After(s, step, k);
            t.flush.Listed? && HasTable(t, t.flush.table, k) ==> LevelsHave(t, 0, k)
  {
    hide Apply, Keep, Ordered, Flatten, Find, ValuesFor, HasTable, LevelsHave, Contents, FilesSound, CompactSound,
         ReaderSound, Covered, Present;
    var t := After(s, step, k);
    if t.flush.Listed? && HasTable(t, t.flush.table, k) {
      HasTableBefore(s, step, k, t.flush.table);
      if step.FlushList? {
        ListingShows(s, k);
      } else {
        LevelsKept(s, step, k, 0);
      }
    }
  }

  lemma WriteShows(s: State, ops: seq<Op>, k: bytes)
    requires Shape(s) && Enabled(s, Write(ops), k) && ValuesFor(ops, k) != {}
    ensures HasTable(After(s, Write(ops), k), s.mem, k)
  {
    hide Apply, ValuesFor, Has, Touches, Puts;
    ValuesAreFor(ops, k);
    ApplyHas(s.tables[s.mem], ops, s.seqNo + 1, k);
  }

  lemma MemKept(s: State, step: Step, k: bytes)
    requires Enabled(s, step, k) && HasTable(s, s.mem, k)
    ensures Present(After(s, step, k), k)
  {
    hide Apply, Keep, Ordered, Flatten, Find, ValuesFor, HasTable, LevelsHave, Contents;
    HasTableKept(s, step, k, s.mem);
    var t := After(s, step, k);
    if step.Rotate? {
      assert t.imms[|s.imms|] == s.mem;
      assert s.mem in t.imms;
    }
  }

  lemma ImmKept(s: State, step: Step, k: bytes, imm: nat)
    requires Shape(s) && Covered(s, k) && Kept(s, k) && Enabled(s, step, k) && imm in s.imms && HasTable(s, imm, k)
    ensures Present(After(s, step, k), k)
  {
    hide Apply, Keep, Ordered, Flatten, Find, ValuesFor, HasTable, LevelsHave, Contents, Shape, Covered;
    HasTableKept(s, step, k, imm);
    var t := After(s, step, k);
    if step.FlushErase? && imm == s.flush.table {
      LevelsKept(s, step, k, 0);
    } else if step.FlushEmpty? {
      EmptyHasNot(s, k);
      assert imm in s.imms[1..];
    } else {
      assert imm in t.imms;
    }
  }

  lemma EmptyHasNot(s: State, k: bytes)
    requires Enabled(s, FlushEmpty, k)
    ensures !HasTable(s, s.imms[0], k)
  {
    EmptyClean(k, {});
  }

  lemma PresentKept(s: State, step: Step, k: bytes)
    requires Shape(s) && Covered(s, k) && Kept(s, k) && Enabled(s, step, k)
    ensures After(s, step, k).known ==> Present(After(s, step, k), k)
  {
    hide Apply, Keep, Ordered, Flatten, Find, ValuesFor, HasTable, LevelsHave, Contents, Shape, Covered;
    if step.Write? && ValuesFor(step.ops, k) != {} {
      WriteShows(s, step.ops, k);
    } else if s.known {
      if HasTable(s, s.mem, k) {
        MemKept(s, step, k);
      } else if imm :| imm in s.imms && HasTable(s, imm, k) {
        ImmKept(s, step, k, imm);
      } else {
        LevelsKept(s, step, k, 0);
      }
    }
  }

  // ---- The read ----

  /** A file unlinked under a reader has been merged into a level the reader has not fetched yet. */
  lemma RemainingKept(s: State, step: Step, k: bytes, f: nat)
    requires Shape(s) && Covered(s, k) && Enabled(s, step, k) && SharedStep(step) && s.reader.Reading?
    requires f in s.reader.remaining && f in s.linked && HasFile(s, f, k)
    ensures Ahead(After(s, step, k), k)
  {
    hide Apply, Keep, Ordered, Flatten, Find, ValuesFor, HasFile, HasTable, Contents, TablesSound, FlushSound;
    var t, c := After(s, step, k), s.compaction;
    HasFileKept(s, step, k, f);
    if step.UnlinkNext? && f == c.inputs[c.gone] {
      assert f in c.inputs;
      HasFileKept(s, step, k, c.out.value);
      assert LevelHas(t, s.reader.next, c.out.value, k);
    } else {
      assert f in t.reader.remaining && f in t.linked;
    }
  }

  lemma SharedKeepsAhead(s: State, step: Step, k: bytes)
    requires Shape(s) && Covered(s, k) && Enabled(s, step, k) && SharedStep(step) && s.reader.Reading? && Ahead(s, k)
    ensures After(s, step, k).reader == s.reader && Ahead(After(s, step, k), k)
  {
    hide Apply, Keep, Ordered, Flatten, Find, ValuesFor, HasFile, HasTable, LevelsHave, Contents, Shape, Covered;
    if t :| t in s.reader.tables && HasTable(s, t, k) {
      HasTableKept(s, step, k, t);
    } else if f :| f in s.reader.remaining && f in s.linked && HasFile(s, f, k) {
      RemainingKept(s, step, k, f);
    } else {
      LevelsKept(s, step, k, s.reader.next);
    }
  }

  lemma BeginAhead(s: State, k: bytes)
    requires Kept(s, k) && Enabled(s, Begin, k) && s.known
    ensures Ahead(After(s, Begin, k), k)
  {
    hide Find, HasTable, HasFile;
    var t := After(s, Begin, k);
    if HasTable(s, s.mem, k) {
      assert t.reader.tables[0] == s.mem;
      assert s.mem in t.reader.tables && HasTable(t, s.mem, k) by { SameTables(s, t, k, s.mem); }
    } else if imm :| imm in s.imms && HasTable(s, imm, k) {
      assert imm in Reversed(s.imms);
      assert imm in t.reader.tables && HasTable(t, imm, k) by { SameTables(s, t, k, imm); }
    } else {
      SameLevels(s, t, k, 0);
    }
  }

  lemma SameTables(s: State, t: State, k: bytes, id: nat)
    requires s.tables == t.tables && HasTable(s, id, k)
    ensures HasTable(t, id, k)
  {
    hide Has;
  }

  lemma SameLevels(s: State, t: State, k: bytes, from: nat)
    requires s.files == t.files && s.levels == t.levels && LevelsHave(s, from, k)
    ensures LevelsHave(t, from, k)
  {
    hide Has;
    var i: nat, f: nat :| from <= i && LevelHas(s, i, f, k);
    assert LevelHas(t, i, f, k);
  }

  lemma ReadTableKept(s: State, k: bytes)
    requires AllClean(s, k) && ReadKept(s, k) && Enabled(s, ReadTable, k)
    ensures ReadKept(After(s, ReadTable, k), k)
  {
    hide Find, Clean, Has, LevelsHave;
    var t, id := After(s, ReadTable, k), s.reader.tables[0];
    CleanFinds(s.tables[id], k, s.puts);
    if s.reader.promised && t.reader.Reading? {
      if x :| x in s.reader.tables && HasTable(s, x, k) {
        assert x in s.reader.tables[1..];
        assert HasTable(t, x, k);
      } else if f :| f in s.reader.remaining && f in s.linked && HasFile(s, f, k) {
        assert HasFile(t, f, k);
      } else {
        SameLevels(s, t, k, s.reader.next);
      }
    }
  }

  lemma OpenFileKept(s: State, k: bytes)
    requires AllClean(s, k) && ReadKept(s, k) && Enabled(s, OpenFile, k)
    ensures ReadKept(After(s, OpenFile, k), k)
  {
    hide Find, Clean, Has, LevelsHave;
    var t, id := After(s, OpenFile, k), s.reader.remaining[0];
    CleanFinds(s.files[id], k, s.puts);
    if s.reader.promised && t.reader.Reading? {
      if f :| f in s.reader.remaining && f in s.linked && HasFile(s, f, k) {
        assert f in s.reader.remaining[1..];
        assert HasFile(t, f, k);
      } else {
        SameLevels(s, t, k, s.reader.next);
      }
    }
  }

  lemma FetchKept(s: State, k: bytes)
    requires Shape(s) && ReadKept(s, k) && Enabled(s, Fetch, k)
    ensures ReadKept(After(s, Fetch, k), k)
  {
    hide Find, Has, TablesSound, FlushSound, CompactSound;
    var t, next := After(s, Fetch, k), s.reader.next;
    if s.reader.promised {
      var i: nat, f: nat :| next <= i && LevelHas(s, i, f, k);
      if i == next {
        assert f in t.reader.remaining && f in t.linked && HasFile(t, f, k);
      } else {
        assert LevelHas(t, i, f, k);
      }
    }
  }

  lemma ReadKeptAfter(s: State, step: Step, k: bytes)
    requires Inv(s, k) && Enabled(s, step, k)
    ensures ReadKept(After(s, step, k), k)
  {
    hide Shape, Covered, Kept, AllClean, Ahead, Apply, Keep, Ordered, Flatten, Find, ValuesFor, Contents;
    match step
    case Begin => if s.known { BeginAhead(s, k); }
    case ReadTable => ReadTableKept(s, k);
    case Fetch => FetchKept(s, k);
    case OpenFile => OpenFileKept(s, k);
    case _ =>
      if s.reader.Reading? && s.reader.promised { SharedKeepsAhead(s, step, k); }
  }

  // ---- Whole runs ----

  lemma StepKeeps(s: State, step: Step, k: bytes)
    requires Inv(s, k) && Enabled(s, step, k) && k != []
    ensures Inv(After(s, step, k), k)
  {
    hide Shape, Covered, AllClean, Enabled, After, ReadKept, Present, LevelsHave, HasTable;
    ShapeKept(s, step, k);
    CleanKept(s, step, k);
    CoveredKept(s, step, k);
    PresentKept(s, step, k);
    FlushCovered(s, step, k);
    ReadKeptAfter(s, step, k);
  }

  /**
    A database just opened: no thread at work, every listed file there and at its level, every version of the key
    among the values put, and the key in the memtable or a listed file if it is known.
   */
  ghost predicate Opened(s: State, k: bytes) {
    && s.mem < |s.tables| && s.imms == []
    && FilesSound(s) && AllClean(s, k)
    && s.flush.NoFlush? && s.compaction.NoCompaction? && s.reader.NoReader?
    && (s.known ==> Present(s, k))
  }

  lemma OpenedKeeps(s: State, k: bytes)
    requires Opened(s, k)
    ensures Inv(s, k)
  {
    hide FilesSound, AllClean, Present;
  }

  lemma FreshIsOpened(levels: nat, k: bytes)
    ensures Opened(Init(levels), k)
  {
    hide Has, Clean;
    EmptyClean(k, {});
  }

  ghost predicate InRoster(roster: seq<seq<nat>>, f: nat) {
    exists i :: 0 <= i < |roster| && f in roster[i]
  }

  /** A crash and a recovery: the roster and the logs that survived, with orphans purged. */
  ghost function Reopened(s: State, roster: seq<seq<nat>>, replayed: seq<Entry>, k: bytes): State {
    var kept := set f | f in s.linked && InRoster(roster, f);
    var r := s.(tables := [replayed], mem := 0, imms := [], levels := roster, linked := kept,
                flush := NoFlush, compaction := NoCompaction, reader := NoReader);
    r.(known := Present(r, k))
  }

  /** Every file of the roster exists, at its level. */
  ghost predicate RosterThere(s: State, roster: seq<seq<nat>>)
    requires |s.home| == |s.files|
  {
    forall i, f :: 0 <= i < |roster| && f in roster[i] ==> f in s.linked && f < |s.files| && s.home[f] == i
  }

  /**
    Whatever roster of existing files comes back, with whatever part of the writes is replayed, the database is open
    again in the sense above; so runs continue across crashes.
   */
  lemma ReopenedIsOpened(s: State, roster: seq<seq<nat>>, replayed: seq<Entry>, k: bytes)
    requires Inv(s, k) && Clean(replayed, k, s.puts) && RosterThere(s, roster)
    ensures Opened(Reopened(s, roster, replayed, k), k)
  {
    hide AllClean, FilesSound, RosterThere, Present, Clean, Covered, Kept, ReadKept, TablesSound, FlushSound,
         CompactSound, ReaderSound;
    ReopenedFiles(s, roster, replayed, k);
    ReopenedClean(s, roster, replayed, k);
    SamePresent(Reopened(s, roster, replayed, k), k);
  }

  lemma ReopenedFiles(s: State, roster: seq<seq<nat>>, replayed: seq<Entry>, k: bytes)
    requires FilesSound(s) && RosterThere(s, roster)
    ensures FilesSound(Reopened(s, roster, replayed, k))
  {
    hide Present, InRoster, RosterThere;
    var r := Reopened(s, roster, replayed, k);
    assert r.levels == roster && r.files == s.files && r.home == s.home;
    forall i, f | 0 <= i < |r.levels| && f in r.levels[i] ensures f in r.linked {
      OnRoster(s, roster, i, f);
    }
    forall i | 0 <= i < |r.levels| ensures FilesAt(r, r.levels[i], i) {
      forall f | f in r.levels[i] ensures f < |r.files| && r.home[f] == i {
        OnRoster(s, roster, i, f);
      }
    }
  }

  lemma OnRoster(s: State, roster: seq<seq<nat>>, i: nat, f: nat)
    requires |s.home| == |s.files| && RosterThere(s, roster) && i < |roster| && f in roster[i]
    ensures InRoster(roster, f) && f in s.linked && f < |s.files| && s.home[f] == i
  {
  }

  lemma ReopenedClean(s: State, roster: seq<seq<nat>>, replayed: seq<Entry>, k: bytes)
    requires AllClean(s, k) && Clean(replayed, k, s.puts)
    ensures AllClean(Reopened(s, roster, replayed, k), k)
  {
    hide Present, Clean;
  }

  lemma SamePresent(r: State, k: bytes)
    ensures Present(r, k) <==> Present(r.(known := false), k)
    ensures Present(r, k) <==> Present(r.(known := true), k)
  {
    var a, b := r.(known := false), r.(known := true);
    if LevelsHave(r, 0, k) { SameLevels(r, a, k, 0); SameLevels(r, b, k, 0); }
    if LevelsHave(a, 0, k) { SameLevels(a, r, k, 0); }
    if LevelsHave(b, 0, k) { SameLevels(b, r, k, 0); }
    assert forall t: nat :: HasTable(r, t, k) == HasTable(a, t, k) == HasTable(b, t, k);
  }

  /** A run of an open database in which no write deletes `k`. */
  ghost predicate Run(states: seq<State>, steps: seq<Step>, k: bytes) {
    && |states| == |steps| + 1
    && Opened(states[0], k)
    && forall i :: 0 <= i < |steps| ==>
         Enabled(states[i], steps[i], k) && states[i + 1] == After(states[i], steps[i], k)
  }

  lemma {:induction false} RunKeeps(states: seq<State>, steps: seq<Step>, k: bytes, i: nat)
    requires Run(states, steps, k) && i < |states| && k != []
    ensures Inv(states[i], k)
  {
    hide Inv, Enabled, After, Opened;
    if i == 0 {
      OpenedKeeps(states[0], k);
    } else {
      RunKeeps(states, steps, k, i - 1);
      StepKeeps(states[i - 1], steps[i - 1], k);
    }
  }

  lemma {:induction false} PromiseStays(states: seq<State>, steps: seq<Step>, k: bytes, b: nat, i: nat)
    requires Run(states, steps, k) && b < i < |states| && steps[b] == Begin && states[b].known
    ensures !states[i].reader.NoReader? && states[i].reader.promised
    decreases i
  {
    hide Enabled, After, Opened;
    assert states[i] == After(states[i - 1], steps[i - 1], k) && Enabled(states[i - 1], steps[i - 1], k);
    PromiseStep(states[i - 1], steps[i - 1], k);
    if b + 1 < i {
      PromiseStays(states, steps, k, b, i - 1);
    }
  }

  /** A read that has begun stays under the promise it began with. */
  lemma PromiseStep(s: State, step: Step, k: bytes)
    requires Enabled(s, step, k)
    ensures step == Begin && s.known ==> !After(s, step, k).reader.NoReader? && After(s, step, k).reader.promised
    ensures !s.reader.NoReader? ==>
              !After(s, step, k).reader.NoReader? && After(s, step, k).reader.promised == s.reader.promised
  {
    hide Apply, Keep, Ordered, Flatten, Find, ValuesFor, Contents, Except, Reversed;
  }

  /**
    No lost read, in any run of any open database, fresh or reopened: a non-empty key that was put before the `get`
    began and is never deleted is never answered with NotFound, and the answer is a value that was put for it.
   */
  lemma NoReadIsLost(states: seq<State>, steps: seq<Step>, k: bytes, b: nat, i: nat)
    requires Run(states, steps, k) && k != []
    requires b < i < |states| && steps[b] == Begin && states[b].known
    ensures states[i].reader.Reading? || states[i].reader.Found?
    ensures states[i].reader.Found? ==> states[i].reader.value in states[i].puts
  {
    hide Run, Shape, Covered, AllClean, Kept, Ahead;
    RunKeeps(states, steps, k, i);
    PromiseStays(states, steps, k, b, i);
  }

  /** Every key written in a session is known from then on. */
  lemma WriteIsKnown(s: State, ops: seq<Op>, k: bytes, j: nat)
    requires Enabled(s, Write(ops), k) && j < |ops| && ops[j].key == k
    ensures After(s, Write(ops), k).known && ops[j].value in After(s, Write(ops), k).puts
  {
    hide Apply;
    assert ops[j].value in ValuesFor(ops, k);
  }
}
