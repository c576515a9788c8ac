/**
  Group commit as a state machine: writers queue under the lock, one of them leads, and each formed group
  goes through `DoWriteGroup` while the lock is held (`write` in `minikv/src/core/db_impl.cpp`).
 */
module GroupCommit {
  import opened Bytes
  import opened Entries
  import opened Wal
  import opened LogMeaning
  import opened GroupWrite
  import MemTable

  datatype Phase =
    | Invoked                    // the caller is inside `write`, before the lock
    | Queued                     // its entry is in `group_entries_`
    | Done(status: Status)       // `entry->done`
    | Returned(status: Status)

  datatype Call = Call(request: Request, phase: Phase)

  /** A reserved range: operations of call `id` take `base + 1 ..= base + count`. */
  datatype Slot = Slot(id: nat, base: nat, count: nat, status: Status)

  /**
    Calls are numbered in the order they are invoked. `slots` lists reservations in the order made, `log`
    the records (as the calls they hold), `applied` the reservations whose operations reached the memtable,
    and `synced` how many records are synced. `groups` are the records' contents, `file` the bytes of the log with the
    first `fileSynced` synced, `torn` says how many records lie before the bytes of the first failed append, if there
    are such bytes, and `mem` is the memtable.
   */
  datatype State = State(
    calls: seq<Call>, pending: seq<nat>, leader: Option<nat>,
    seqNo: nat, slots: seq<Slot>, log: seq<seq<nat>>, applied: seq<Slot>, synced: nat,
    groups: seq<Group>, file: bytes, fileSynced: nat, torn: Option<nat>, mem: seq<Entry>)

  /** `accepted` is how many bytes of the record the log file takes. */
  datatype Step = Invoke(request: Request) | Enter(id: nat) | Commit(status: Status, accepted: nat) | Return(id: nat)

  function Init(seqNo: nat): State {
    State([], [], None, seqNo, [], [], [], 0, [], [], 0, None, [])
  }

  function Members(s: State, group: seq<nat>): (r: seq<Request>)
    requires forall i :: 0 <= i < |group| ==> group[i] < |s.calls|
    ensures |r| == |group| && forall i :: 0 <= i < |r| ==> r[i] == s.calls[group[i]].request
  {
    seq(|group|, i requires 0 <= i < |group| => s.calls[group[i]].request)
  }

  /** The reservations of a group, one `fetch_add` after another. */
  function Reservations(group: seq<nat>, requests: seq<Request>, base: nat, status: Status): (r: seq<Slot>)
    requires |group| == |requests|
    ensures |r| == |group| && forall i :: 0 <= i < |r| ==> r[i].id == group[i] && r[i].status == status
    decreases |group|
  {
    if |group| == 0 then []
    else
      var count := |requests[0].batch|;
      [Slot(group[0], base, count, status)] + Reservations(group[1..], requests[1..], base + count, status)
  }

  function Finished(calls: seq<Call>, group: seq<nat>, status: Status): (r: seq<Call>)
    ensures |r| == |calls|
    ensures forall i :: 0 <= i < |r| ==> r[i].request == calls[i].request
    ensures forall i :: 0 <= i < |r| ==> r[i].phase == if i in group then Done(status) else calls[i].phase
  {
    seq(|calls|, i requires 0 <= i < |calls| => if i in group then calls[i].(phase := Done(status)) else calls[i])
  }

  /** The frame of a group. */
  function RecordOf(requests: seq<Request>): bytes {
    Frame(EncodeGroup(Batches(requests)))
  }

  ghost predicate Enabled(s: State, step: Step, walSync: bool) {
    match step
    case Invoke(_) => true
    case Enter(id) => id < |s.calls| && s.calls[id].phase == Invoked
    case Commit(status, accepted) =>
      && s.leader.Some?
      && (forall i :: 0 <= i < |s.pending| ==> s.pending[i] < |s.calls|)
      && (status == AppendError <==> accepted < |RecordOf(Members(s, s.pending))|)
      && (status == SyncError ==> walSync && NeedsSync(Members(s, s.pending)))
    case Return(id) => id < |s.calls| && s.calls[id].phase.Done?
  }

  ghost function After(s: State, step: Step, walSync: bool): State
    requires Enabled(s, step, walSync)
  {
    match step
    case Invoke(request) => s.(calls := s.calls + [Call(request, Invoked)])
    case Enter(id) =>
      s.(calls := s.calls[id := s.calls[id].(phase := Queued)],
         pending := s.pending + [id],
         leader := if s.leader.Some? then s.leader else Some(id))
    case Commit(status, accepted) =>
      var group := s.pending;
      var requests := Members(s, group);
      var slots, record := Reservations(group, requests, s.seqNo, status), RecordOf(requests);
      var log := if status == AppendError then s.log else s.log + [group];
      var file := s.file + if accepted < |record| then record[..accepted] else record;
      var syncs := status == Ok && walSync && NeedsSync(requests);
      State(Finished(s.calls, group, status), [], None,
            s.seqNo + |Ops(Batches(requests))|, s.slots + slots, log,
            if status == Ok then s.applied + slots else s.applied,
            if syncs then |log| else s.synced,
            if status == AppendError then s.groups else s.groups + [Batches(requests)],
            file, if syncs then |file| else s.fileSynced,
            if s.torn.None? && 0 < accepted < |record| then Some(|s.groups|) else s.torn,
            if status == Ok then Apply(s.mem, Ops(Batches(requests)), s.seqNo + 1) else s.mem)
    case Return(id) => s.(calls := s.calls[id := s.calls[id].(phase := Returned(s.calls[id].phase.status))])
  }

  // ---- What every step keeps ----

  function Flat(log: seq<seq<nat>>): seq<nat> {
    if |log| == 0 then [] else Flat(log[..|log| - 1]) + log[|log| - 1]
  }

  /** Ids of the reservations that did not fail to be logged, in order. */
  function LoggedIds(slots: seq<Slot>): seq<nat> {
    if |slots| == 0 then []
    else
      var last := slots[|slots| - 1];
      LoggedIds(slots[..|slots| - 1]) + if last.status == AppendError then [] else [last.id]
  }

  function Succeeded(slots: seq<Slot>): seq<Slot> {
    if |slots| == 0 then []
    else
      var last := slots[|slots| - 1];
      Succeeded(slots[..|slots| - 1]) + if last.status == Ok then [last] else []
  }

  /** Ranges follow one another without gap or overlap, from `from` up to `to`. */
  ghost predicate Contiguous(slots: seq<Slot>, from: nat, to: nat) {
    if |slots| == 0 then from == to
    else
      var last := slots[|slots| - 1];
      last.base + last.count == to && Contiguous(slots[..|slots| - 1], from, last.base)
  }

  ghost predicate Distinct(ids: seq<nat>) {
    forall i, j :: 0 <= i < j < |ids| ==> ids[i] != ids[j]
  }

  ghost predicate DistinctSlots(slots: seq<Slot>) {
    forall i, j :: 0 <= i < j < |slots| ==> slots[i].id != slots[j].id
  }

  predicate Settled(p: Phase) {
    p.Done? || p.Returned?
  }

  /** The queue holds exactly the queued calls, once each, and has a leader at its head iff it is not empty. */
  ghost predicate QueueSound(s: State) {
    && (forall i :: 0 <= i < |s.pending| ==> s.pending[i] < |s.calls|)
    && Distinct(s.pending)
    && (forall id :: 0 <= id < |s.calls| ==> (s.calls[id].phase == Queued <==> id in s.pending))
    && s.leader == if |s.pending| == 0 then None else Some(s.pending[0])
  }

  /** Exactly the settled calls hold a reservation, one each, with their size and their status. */
  ghost predicate SlotsSound(s: State) {
    && (forall i :: 0 <= i < |s.slots| ==> SlotMatches(s, s.slots[i]))
    && DistinctSlots(s.slots)
    && (forall id :: 0 <= id < |s.calls| && Settled(s.calls[id].phase) ==> HasSlot(s, id))
  }

  ghost predicate SlotMatches(s: State, slot: Slot) {
    && slot.id < |s.calls|
    && Settled(s.calls[slot.id].phase)
    && s.calls[slot.id].phase.status == slot.status
    && slot.count == |s.calls[slot.id].request.batch|
  }

  ghost predicate HasSlot(s: State, id: nat) {
    exists k :: 0 <= k < |s.slots| && s.slots[k].id == id
  }

  /** Log and memtable hold exactly the reservations that succeeded so far, in reservation order. */
  ghost predicate EffectsSound(s: State, start: nat) {
    && Flat(s.log) == LoggedIds(s.slots)
    && s.applied == Succeeded(s.slots)
    && Contiguous(s.slots, start, s.seqNo)
  }

  ghost predicate SyncSound(s: State, walSync: bool) {
    && s.synced <= |s.log|
    && (walSync ==> forall id :: 0 <= id < |s.calls| && SyncedOk(s.calls[id]) ==> InSynced(s, id))
  }

  predicate SyncedOk(c: Call) {
    c.request.sync && Settled(c.phase) && c.phase.status == Ok
  }

  ghost predicate InSynced(s: State, id: nat)
    requires s.synced <= |s.log|
  {
    exists r :: 0 <= r < s.synced && id in s.log[r]
  }

  /** Each record holds the batches of the calls it logs, in order. */
  ghost predicate GroupMatches(s: State, ids: seq<nat>, g: Group) {
    |g| == |ids| && forall j :: 0 <= j < |ids| ==> ids[j] < |s.calls| && g[j] == s.calls[ids[j]].request.batch
  }

  /** Until a failed append leaves bytes behind, the file is exactly the log of the groups, synced as counted. */
  /** How many records lie before the bytes of any failed append. */
  function Sound(s: State): nat {
    if s.torn.Some? then s.torn.value else |s.groups|
  }

  ghost predicate FileSound(s: State) {
    && |s.groups| == |s.log| && s.synced <= |s.log|
    && (forall r :: 0 <= r < |s.log| ==> GroupMatches(s, s.log[r], s.groups[r]))
    && BytesSound(s.file, s.fileSynced, s.groups, s.synced, Sound(s))
    && (s.torn.None? ==> s.file == Log(Records(s.groups)))
  }

  /** The file begins with the sound records, and of those the synced ones lie in its synced part. */
  ghost predicate BytesSound(file: bytes, fileSynced: nat, groups: seq<Group>, synced: nat, sound: nat) {
    && sound <= |groups| && synced <= |groups| && fileSynced <= |file|
    && Log(Records(groups[..sound])) <= file
    && |Log(Records(groups[..if synced < sound then synced else sound]))| <= fileSynced
  }

  ghost predicate Inv(s: State, start: nat, walSync: bool) {
    QueueSound(s) && SlotsSound(s) && EffectsSound(s, start) && SyncSound(s, walSync) && FileSound(s)
  }

  // ---- Lists ----

  lemma {:induction false} FlatSnoc(log: seq<seq<nat>>, g: seq<nat>)
    ensures Flat(log + [g]) == Flat(log) + g
  {
    assert (log + [g])[..|log|] == log;
  }

  lemma {:induction false} LoggedConcat(a: seq<Slot>, b: seq<Slot>)
    ensures LoggedIds(a + b) == LoggedIds(a) + LoggedIds(b)
    decreases |b|
  {
    if |b| == 0 {
      assert a + b == a;
    } else {
      assert (a + b)[..|a + b| - 1] == a + b[..|b| - 1];
      LoggedConcat(a, b[..|b| - 1]);
    }
  }

  lemma {:induction false} SucceededConcat(a: seq<Slot>, b: seq<Slot>)
    ensures Succeeded(a + b) == Succeeded(a) + Succeeded(b)
    decreases |b|
  {
    if |b| == 0 {
      assert a + b == a;
    } else {
      assert (a + b)[..|a + b| - 1] == a + b[..|b| - 1];
      SucceededConcat(a, b[..|b| - 1]);
    }
  }

  lemma {:induction false} ContiguousConcat(a: seq<Slot>, b: seq<Slot>, from: nat, mid: nat, to: nat)
    requires Contiguous(a, from, mid) && Contiguous(b, mid, to)
    ensures Contiguous(a + b, from, to)
    decreases |b|
  {
    if |b| == 0 {
      assert a + b == a;
    } else {
      assert (a + b)[..|a + b| - 1] == a + b[..|b| - 1];
      ContiguousConcat(a, b[..|b| - 1], from, mid, b[|b| - 1].base);
    }
  }

  ghost predicate SlotsFor(slots: seq<Slot>, group: seq<nat>, status: Status) {
    |slots| == |group| && forall i :: 0 <= i < |slots| ==> slots[i].id == group[i] && slots[i].status == status
  }

  lemma SlotsForFront(slots: seq<Slot>, group: seq<nat>, status: Status)
    requires SlotsFor(slots, group, status) && |slots| > 0
    ensures var n := |slots| - 1;
            && n < |group| && SlotsFor(slots[..n], group[..n], status)
            && slots[n].id == group[n] && slots[n].status == status
            && slots == slots[..n] + [slots[n]] && group == group[..n] + [group[n]]
  {
  }

  lemma {:induction false} GroupLogged(slots: seq<Slot>, group: seq<nat>, status: Status)
    requires SlotsFor(slots, group, status)
    ensures LoggedIds(slots) == if status == AppendError then [] else group
    decreases |slots|
  {
    if |slots| > 0 {
      hide SlotsFor;
      SlotsForFront(slots, group, status);
      var n := |slots| - 1;
      GroupLogged(slots[..n], group[..n], status);
    }
  }

  lemma {:induction false} GroupSucceeded(slots: seq<Slot>, group: seq<nat>, status: Status)
    requires SlotsFor(slots, group, status)
    ensures Succeeded(slots) == if status == Ok then slots else []
    decreases |slots|
  {
    if |slots| > 0 {
      hide SlotsFor;
      SlotsForFront(slots, group, status);
      var n := |slots| - 1;
      GroupSucceeded(slots[..n], group[..n], status);
    }
  }

  lemma ReservationsHead(group: seq<nat>, requests: seq<Request>, base: nat, status: Status)
    requires |group| == |requests| && |group| > 0
    ensures var count := |requests[0].batch|;
            Reservations(group, requests, base, status)
            == [Slot(group[0], base, count, status)] + Reservations(group[1..], requests[1..], base + count, status)
  {
  }

  lemma ReservationsFor(group: seq<nat>, requests: seq<Request>, base: nat, status: Status)
    requires |group| == |requests|
    ensures SlotsFor(Reservations(group, requests, base, status), group, status)
  {
    hide Reservations;
  }

  lemma OneContiguous(slot: Slot)
    ensures Contiguous([slot], slot.base, slot.base + slot.count) && Contiguous([], slot.base, slot.base)
  {
    assert [slot][..0] == [];
  }

  lemma {:induction false} GroupContiguous(group: seq<nat>, requests: seq<Request>, base: nat, status: Status)
    requires |group| == |requests|
    ensures Contiguous(Reservations(group, requests, base, status), base, base + |Ops(Batches(requests))|)
    decreases |group|
  {
    hide Reservations, Contiguous, Ops;
    if |group| == 0 {
      NoOps(Batches(requests));
      OneContiguous(Slot(0, base, 0, status));
    } else {
      var slot := Slot(group[0], base, |requests[0].batch|, status);
      GroupContiguous(group[1..], requests[1..], base + slot.count, status);
      ReservationsHead(group, requests, base, status);
      OneContiguous(slot);
      OpsHead(requests);
      ContiguousConcat([slot], Reservations(group[1..], requests[1..], base + slot.count, status),
                       base, base + slot.count, base + |Ops(Batches(requests))|);
    }
  }

  lemma OpsHead(requests: seq<Request>)
    requires |requests| > 0
    ensures |Ops(Batches(requests))| == |requests[0].batch| + |Ops(Batches(requests[1..]))|
  {
    assert Batches(requests)[1..] == Batches(requests[1..]);
  }

  lemma {:induction false} ReservationSizes(group: seq<nat>, requests: seq<Request>, base: nat, status: Status, i: nat)
    requires |group| == |requests| && i < |group|
    ensures Reservations(group, requests, base, status)[i].count == |requests[i].batch|
    decreases |group|
  {
    if i > 0 {
      ReservationSizes(group[1..], requests[1..], base + |requests[0].batch|, status, i - 1);
    }
  }

  // ---- Commit ----

  lemma CommitShape(s: State, status: Status, accepted: nat, walSync: bool)
    requires Enabled(s, Commit(status, accepted), walSync)
    ensures var t := After(s, Commit(status, accepted), walSync);
            var requests := Members(s, s.pending);
            var slots := Reservations(s.pending, requests, s.seqNo, status);
            && t.calls == Finished(s.calls, s.pending, status)
            && t.slots == s.slots + slots
            && t.seqNo == s.seqNo + |Ops(Batches(requests))|
            && t.log == (if status == AppendError then s.log else s.log + [s.pending])
            && t.applied == (if status == Ok then s.applied + slots else s.applied)
  {
    hide Reservations, Ops, NeedsSync, Finished;
  }

  lemma LogGrows(log: seq<seq<nat>>, before: seq<Slot>, group: seq<nat>, slots: seq<Slot>, status: Status)
    requires Flat(log) == LoggedIds(before) && SlotsFor(slots, group, status)
    ensures Flat(if status == AppendError then log else log + [group]) == LoggedIds(before + slots)
  {
    hide Flat, LoggedIds, SlotsFor;
    GroupLogged(slots, group, status);
    LoggedConcat(before, slots);
    FlatSnoc(log, group);
    assert LoggedIds(before) + [] == LoggedIds(before);
  }

  lemma AppliedGrows(before: seq<Slot>, group: seq<nat>, slots: seq<Slot>, status: Status)
    requires SlotsFor(slots, group, status)
    ensures (if status == Ok then Succeeded(before) + slots else Succeeded(before)) == Succeeded(before + slots)
  {
    hide Succeeded, SlotsFor;
    GroupSucceeded(slots, group, status);
    SucceededConcat(before, slots);
    assert Succeeded(before) + [] == Succeeded(before);
  }

  lemma EffectsGrow(s: State, t: State, group: seq<nat>, slots: seq<Slot>, status: Status, start: nat)
    requires EffectsSound(s, start) && SlotsFor(slots, group, status) && Contiguous(slots, s.seqNo, t.seqNo)
    requires t.slots == s.slots + slots
    requires t.log == (if status == AppendError then s.log else s.log + [group])
    requires t.applied == (if status == Ok then s.applied + slots else s.applied)
    ensures EffectsSound(t, start)
  {
    hide Flat, LoggedIds, Succeeded, Contiguous, SlotsFor;
    LogGrows(s.log, s.slots, group, slots, status);
    AppliedGrows(s.slots, group, slots, status);
    ContiguousConcat(s.slots, slots, start, s.seqNo, t.seqNo);
  }

  lemma CommitEffects(s: State, status: Status, accepted: nat, start: nat, walSync: bool)
    requires EffectsSound(s, start) && Enabled(s, Commit(status, accepted), walSync)
    ensures EffectsSound(After(s, Commit(status, accepted), walSync), start)
  {
    hide EffectsSound, Contiguous, Reservations, Ops, NeedsSync, After, Batches, RecordOf, SlotsFor, Finished, Members;
    CommitShape(s, status, accepted, walSync);
    var requests := Members(s, s.pending);
    GroupContiguous(s.pending, requests, s.seqNo, status);
    ReservationsFor(s.pending, requests, s.seqNo, status);
    EffectsGrow(s, After(s, Commit(status, accepted), walSync), s.pending,
                Reservations(s.pending, requests, s.seqNo, status), status, start);
  }

  lemma CommitQueue(s: State, status: Status, accepted: nat, walSync: bool)
    requires QueueSound(s) && Enabled(s, Commit(status, accepted), walSync)
    ensures QueueSound(After(s, Commit(status, accepted), walSync))
  {
    hide Reservations, Ops, NeedsSync;
  }

  lemma OldSlotMatches(s: State, status: Status, slot: Slot)
    requires QueueSound(s) && SlotMatches(s, slot)
    ensures slot.id !in s.pending
    ensures SlotMatches(s.(calls := Finished(s.calls, s.pending, status)), slot)
  {
  }

  lemma NewSlotMatches(s: State, status: Status, k: nat)
    requires QueueSound(s) && k < |s.pending|
    ensures SlotMatches(s.(calls := Finished(s.calls, s.pending, status)),
                        Reservations(s.pending, Members(s, s.pending), s.seqNo, status)[k])
  {
    hide Reservations;
    assert s.pending[k] in s.pending;
    ReservationSizes(s.pending, Members(s, s.pending), s.seqNo, status, k);
  }

  lemma CommitMatches(s: State, status: Status, accepted: nat, walSync: bool, i: nat)
    requires QueueSound(s) && SlotsSound(s) && Enabled(s, Commit(status, accepted), walSync)
    requires i < |After(s, Commit(status, accepted), walSync).slots|
    ensures var t := After(s, Commit(status, accepted), walSync); SlotMatches(t, t.slots[i])
  {
    hide Reservations, Ops, NeedsSync, After, QueueSound, Finished, DistinctSlots, HasSlot, Batches, RecordOf;
    CommitShape(s, status, accepted, walSync);
    if i < |s.slots| {
      OldSlotMatches(s, status, s.slots[i]);
    } else {
      NewSlotMatches(s, status, i - |s.slots|);
    }
  }

  lemma DistinctConcat(a: seq<Slot>, b: seq<Slot>)
    requires DistinctSlots(a) && DistinctSlots(b)
    requires forall i, j :: 0 <= i < |a| && 0 <= j < |b| ==> a[i].id != b[j].id
    ensures DistinctSlots(a + b)
  {
  }

  lemma CommitDistinct(s: State, status: Status, accepted: nat, walSync: bool)
    requires QueueSound(s) && SlotsSound(s) && Enabled(s, Commit(status, accepted), walSync)
    ensures DistinctSlots(After(s, Commit(status, accepted), walSync).slots)
  {
    hide Reservations, Ops, NeedsSync, After, Finished, SlotMatches;
    CommitShape(s, status, accepted, walSync);
    var fresh' := Reservations(s.pending, Members(s, s.pending), s.seqNo, status);
    forall i, j | 0 <= i < |s.slots| && 0 <= j < |fresh'| ensures s.slots[i].id != fresh'[j].id {
      OldSlotMatches(s, status, s.slots[i]);
      assert s.pending[j] in s.pending;
    }
    DistinctConcat(s.slots, fresh');
  }

  lemma CommitCovers(s: State, status: Status, accepted: nat, walSync: bool, id: nat)
    requires QueueSound(s) && SlotsSound(s) && Enabled(s, Commit(status, accepted), walSync)
    requires id < |s.calls| && Settled(After(s, Commit(status, accepted), walSync).calls[id].phase)
    ensures HasSlot(After(s, Commit(status, accepted), walSync), id)
  {
    hide Reservations, Ops, NeedsSync, After, QueueSound, SlotMatches, DistinctSlots, HasSlot, Batches, RecordOf;
    CommitShape(s, status, accepted, walSync);
    var t := After(s, Commit(status, accepted), walSync);
    if id in s.pending {
      GroupHasSlot(s, t, id);
    } else {
      KeepsSlot(s, t, id);
    }
  }

  lemma KeepsSlot(s: State, t: State, id: nat)
    requires HasSlot(s, id) && s.slots <= t.slots
    ensures HasSlot(t, id)
  {
    var k :| 0 <= k < |s.slots| && s.slots[k].id == id;
    assert t.slots[k] == s.slots[k];
  }

  lemma GroupHasSlot(s: State, t: State, id: nat)
    requires |t.slots| == |s.slots| + |s.pending| && id in s.pending
    requires forall k :: 0 <= k < |s.pending| ==> t.slots[|s.slots| + k].id == s.pending[k]
    ensures HasSlot(t, id)
  {
    var k :| 0 <= k < |s.pending| && s.pending[k] == id;
    assert t.slots[|s.slots| + k].id == id;
  }

  lemma CommitSlots(s: State, status: Status, accepted: nat, walSync: bool)
    requires QueueSound(s) && SlotsSound(s) && Enabled(s, Commit(status, accepted), walSync)
    ensures SlotsSound(After(s, Commit(status, accepted), walSync))
  {
    hide QueueSound, SlotMatches, HasSlot, After, Settled;
    var t := After(s, Commit(status, accepted), walSync);
    forall i | 0 <= i < |t.slots| ensures SlotMatches(t, t.slots[i]) {
      CommitMatches(s, status, accepted, walSync, i);
    }
    CommitDistinct(s, status, accepted, walSync);
    CommitKeepsCalls(s, status, accepted, walSync);
    forall id | 0 <= id < |t.calls| && Settled(t.calls[id].phase) ensures HasSlot(t, id) {
      CommitCovers(s, status, accepted, walSync, id);
    }
  }

  lemma CommitKeepsCalls(s: State, status: Status, accepted: nat, walSync: bool)
    requires Enabled(s, Commit(status, accepted), walSync)
    ensures |After(s, Commit(status, accepted), walSync).calls| == |s.calls|
  {
    hide Reservations, Ops, NeedsSync;
  }

  lemma CommitSync(s: State, status: Status, accepted: nat, walSync: bool)
    requires QueueSound(s) && SyncSound(s, walSync) && Enabled(s, Commit(status, accepted), walSync)
    ensures SyncSound(After(s, Commit(status, accepted), walSync), walSync)
  {
    hide Reservations, Ops, NeedsSync;
    var t, requests := After(s, Commit(status, accepted), walSync), Members(s, s.pending);
    if walSync {
      forall id | 0 <= id < |t.calls| && SyncedOk(t.calls[id]) ensures InSynced(t, id) {
        if id in s.pending {
          SyncWanted(s, id);
          assert t.log[|s.log|] == s.pending;
        } else {
          assert SyncedOk(s.calls[id]);
          var r :| 0 <= r < s.synced && id in s.log[r];
          assert id in t.log[r];
        }
      }
    }
  }

  lemma SyncWanted(s: State, id: nat)
    requires QueueSound(s) && id in s.pending && s.calls[id].request.sync
    ensures NeedsSync(Members(s, s.pending))
  {
    var k :| 0 <= k < |s.pending| && s.pending[k] == id;
    assert Members(s, s.pending)[k].sync;
  }

  lemma RecordsMore(groups: seq<Group>, g: Group)
    ensures Log(Records(groups + [g])) == Log(Records(groups)) + Frame(EncodeGroup(g))
  {
    hide Log, EncodeGroup, Frame;
    assert Records(groups + [g]) == Records(groups) + [EncodeGroup(g)];
    LogConcat(Records(groups), [EncodeGroup(g)]);
    OneFrame(EncodeGroup(g));
  }

  lemma OneFrame(data: bytes)
    ensures Log([data]) == Frame(data)
  {
    hide Frame;
    assert [data][1..] == [];
    assert Log([]) == [];
    assert Frame(data) + [] == Frame(data);
  }

  /** More bytes, and perhaps another group behind the sound ones, synced or not. */
  lemma BytesGrow(file: bytes, fileSynced: nat, groups: seq<Group>, synced: nat, sound: nat,
                  more: bytes, gs: seq<Group>)
    requires BytesSound(file, fileSynced, groups, synced, sound)
    ensures BytesSound(file + more, fileSynced, groups + gs, synced, sound)
    ensures BytesSound(file + more, |file + more|, groups + gs, |groups + gs|, sound)
  {
    hide Log, Records;
    assert (groups + gs)[..sound] == groups[..sound];
    var a := if synced < sound then synced else sound;
    assert (groups + gs)[..a] == groups[..a];
  }

  /** A whole frame behind whole frames. */
  lemma WholeGrows(file: bytes, fileSynced: nat, groups: seq<Group>, synced: nat, g: Group)
    requires BytesSound(file, fileSynced, groups, synced, |groups|) && file == Log(Records(groups))
    ensures var more, f := groups + [g], file + Frame(EncodeGroup(g));
            && f == Log(Records(more)) && BytesSound(f, fileSynced, more, synced, |more|)
            && BytesSound(f, |f|, more, |more|, |more|)
  {
    hide Log, Records, Frame, EncodeGroup;
    var more := groups + [g];
    RecordsMore(groups, g);
    assert more[..|more|] == more && more[..synced] == groups[..synced] && groups[..|groups|] == groups;
  }

  lemma CommitMatchesGroups(s: State, status: Status, accepted: nat, walSync: bool)
    requires FileSound(s) && Enabled(s, Commit(status, accepted), walSync)
    ensures var t := After(s, Commit(status, accepted), walSync);
            |t.groups| == |t.log| && forall r :: 0 <= r < |t.log| ==> GroupMatches(t, t.log[r], t.groups[r])
  {
    hide Reservations, Ops, NeedsSync, Log, Records, Frame, EncodeGroup, Apply, RecordOf;
    var t := After(s, Commit(status, accepted), walSync);
    forall r | 0 <= r < |t.log| ensures GroupMatches(t, t.log[r], t.groups[r]) {
      if r < |s.log| { assert GroupMatches(s, s.log[r], s.groups[r]); }
    }
  }

  lemma CommitFile(s: State, status: Status, accepted: nat, walSync: bool)
    requires FileSound(s) && SyncSound(s, walSync) && Enabled(s, Commit(status, accepted), walSync)
    ensures FileSound(After(s, Commit(status, accepted), walSync))
  {
    hide Reservations, Ops, NeedsSync, Log, Records, Frame, EncodeGroup, Apply, GroupMatches, Batches, Finished;
    CommitMatchesGroups(s, status, accepted, walSync);
    var g := Batches(Members(s, s.pending));
    var record := RecordOf(Members(s, s.pending));
    var bytes := if accepted < |record| then record[..accepted] else record;
    BytesGrow(s.file, s.fileSynced, s.groups, s.synced, Sound(s), bytes, [g]);
    BytesGrow(s.file, s.fileSynced, s.groups, s.synced, Sound(s), bytes, []);
    assert s.groups + [] == s.groups && s.file + [] == s.file;
    if s.torn.None? { WholeGrows(s.file, s.fileSynced, s.groups, s.synced, g); }
  }

  lemma CallFile(s: State, t: State)
    requires FileSound(s) && |s.calls| <= |t.calls|
    requires forall i :: 0 <= i < |s.calls| ==> t.calls[i].request == s.calls[i].request
    requires t.groups == s.groups && t.log == s.log && t.synced == s.synced
    requires t.file == s.file && t.fileSynced == s.fileSynced && t.torn == s.torn
    ensures FileSound(t)
  {
    hide Log, Records;
    forall r | 0 <= r < |t.log| ensures GroupMatches(t, t.log[r], t.groups[r]) {
      assert GroupMatches(s, s.log[r], s.groups[r]);
    }
  }

  // ---- Every step ----

  lemma CallStepKeeps(s: State, step: Step, start: nat, walSync: bool)
    requires Inv(s, start, walSync) && Enabled(s, step, walSync) && !step.Commit?
    ensures Inv(After(s, step, walSync), start, walSync)
  {
    hide EffectsSound, NeedsSync, FileSound;
    var t := After(s, step, walSync);
    CallFile(s, t);
    assert EffectsSound(t, start) by { SameEffects(s, t, start); }
    QueueKept(s, step, walSync);
    SlotsKept(s, step, walSync);
    forall id | 0 <= id < |t.calls| && SyncedOk(t.calls[id]) && walSync ensures InSynced(t, id) {
      assert SyncedOk(s.calls[id]);
      assert InSynced(s, id);
    }
  }

  lemma SameEffects(s: State, t: State, start: nat)
    requires EffectsSound(s, start)
    requires t.slots == s.slots && t.log == s.log && t.applied == s.applied && t.seqNo == s.seqNo
    ensures EffectsSound(t, start)
  {
  }

  lemma QueueKept(s: State, step: Step, walSync: bool)
    requires QueueSound(s) && Enabled(s, step, walSync) && !step.Commit?
    ensures QueueSound(After(s, step, walSync))
  {
  }

  lemma SlotsKept(s: State, step: Step, walSync: bool)
    requires SlotsSound(s) && Enabled(s, step, walSync) && !step.Commit?
    ensures SlotsSound(After(s, step, walSync))
  {
    var t := After(s, step, walSync);
    forall i | 0 <= i < |t.slots| ensures SlotMatches(t, t.slots[i]) {
      assert SlotMatches(s, s.slots[i]);
    }
    forall id | 0 <= id < |t.calls| && Settled(t.calls[id].phase) ensures HasSlot(t, id) {
      assert HasSlot(s, id);
    }
  }

  lemma StepKeeps(s: State, step: Step, start: nat, walSync: bool)
    requires Inv(s, start, walSync) && Enabled(s, step, walSync)
    ensures Inv(After(s, step, walSync), start, walSync)
  {
    hide QueueSound, SlotsSound, EffectsSound, SyncSound, FileSound, Enabled, After;
    if step.Commit? {
      CommitFile(s, step.status, step.accepted, walSync);
      CommitQueue(s, step.status, step.accepted, walSync);
      CommitSlots(s, step.status, step.accepted, walSync);
      CommitEffects(s, step.status, step.accepted, start, walSync);
      CommitSync(s, step.status, step.accepted, walSync);
    } else {
      CallStepKeeps(s, step, start, walSync);
    }
  }

  // ---- Whole runs ----

  ghost predicate Run(states: seq<State>, steps: seq<Step>, start: nat, walSync: bool) {
    && |states| == |steps| + 1
    && states[0] == Init(start)
    && forall i :: 0 <= i < |steps| ==>
         Enabled(states[i], steps[i], walSync) && states[i + 1] == After(states[i], steps[i], walSync)
  }

  lemma {:induction false} RunKeeps(states: seq<State>, steps: seq<Step>, start: nat, walSync: bool, i: nat)
    requires Run(states, steps, start, walSync) && i < |states|
    ensures Inv(states[i], start, walSync)
  {
    hide Inv, Enabled, After;
    if i == 0 {
      InitKeeps(start, walSync);
    } else {
      RunKeeps(states, steps, start, walSync, i - 1);
      StepKeeps(states[i - 1], steps[i - 1], start, walSync);
    }
  }

  lemma InitKeeps(start: nat, walSync: bool)
    ensures Inv(Init(start), start, walSync)
  {
  }

  function Count(ids: seq<nat>, id: nat): nat {
    multiset(ids)[id]
  }

  function Ids(slots: seq<Slot>): (r: seq<nat>)
    ensures |r| == |slots| && forall i :: 0 <= i < |r| ==> r[i] == slots[i].id
  {
    seq(|slots|, i requires 0 <= i < |slots| => slots[i].id)
  }

  lemma CountNone(id: nat)
    ensures Count([], id) == 0
  {
  }

  lemma CountSnoc(ids: seq<nat>, x: nat, id: nat)
    ensures Count(ids + [x], id) == Count(ids, id) + if x == id then 1 else 0
  {
  }

  lemma {:induction false} CountLogged(slots: seq<Slot>, id: nat)
    requires DistinctSlots(slots)
    ensures (exists k :: 0 <= k < |slots| && slots[k].id == id && slots[k].status != AppendError)
            ==> Count(LoggedIds(slots), id) == 1
    ensures (forall k :: 0 <= k < |slots| && slots[k].id == id ==> slots[k].status == AppendError)
            ==> Count(LoggedIds(slots), id) == 0
    decreases |slots|
  {
    hide Count;
    if |slots| == 0 {
      CountNone(id);
    } else {
      var n := |slots| - 1;
      CountLogged(slots[..n], id);
      var last := slots[n];
      CountSnoc(LoggedIds(slots[..n]), last.id, id);
      assert LoggedIds(slots[..n]) + [] == LoggedIds(slots[..n]);
      if last.id == id {
        assert forall k :: 0 <= k < n ==> slots[..n][k].id != id;
      } else if k :| 0 <= k < |slots| && slots[k].id == id && slots[k].status != AppendError {
        assert slots[..n][k] == slots[k];
      }
    }
  }

  lemma {:induction false} CountApplied(slots: seq<Slot>, id: nat)
    requires DistinctSlots(slots)
    ensures (exists k :: 0 <= k < |slots| && slots[k].id == id && slots[k].status == Ok)
            ==> Count(Ids(Succeeded(slots)), id) == 1
    ensures (forall k :: 0 <= k < |slots| && slots[k].id == id ==> slots[k].status != Ok)
            ==> Count(Ids(Succeeded(slots)), id) == 0
    decreases |slots|
  {
    hide Count;
    if |slots| == 0 {
      CountNone(id);
    } else {
      var n := |slots| - 1;
      CountApplied(slots[..n], id);
      var last := slots[n];
      IdsSnoc(Succeeded(slots[..n]), last);
      CountSnoc(Ids(Succeeded(slots[..n])), last.id, id);
      if last.id == id {
        assert forall k :: 0 <= k < n ==> slots[..n][k].id != id;
      } else if k :| 0 <= k < |slots| && slots[k].id == id && slots[k].status == Ok {
        assert slots[..n][k] == slots[k];
      }
      assert Succeeded(slots[..n]) + [] == Succeeded(slots[..n]);
    }
  }

  lemma IdsSnoc(slots: seq<Slot>, last: Slot)
    ensures Ids(slots + [last]) == Ids(slots) + [last.id]
  {
  }

  /**
    In every interleaving: a call that has been answered Ok is in the log exactly once and in the memtable
    exactly once; one answered with a failed append is in neither; one answered with a failed sync is logged
    once and not applied; one not yet answered is in neither.
   */
  lemma ExactlyOnce(states: seq<State>, steps: seq<Step>, start: nat, walSync: bool, i: nat, id: nat)
    requires Run(states, steps, start, walSync) && i < |states| && id < |states[i].calls|
    ensures var s := states[i];
            var p := s.calls[id].phase;
            && Count(Flat(s.log), id) == (if Settled(p) && p.status != AppendError then 1 else 0)
            && Count(Ids(s.applied), id) == (if Settled(p) && p.status == Ok then 1 else 0)
  {
    hide Run, Flat, LoggedIds, Succeeded, Contiguous, QueueSound, SyncSound, FileSound, Count, Ids;
    RunKeeps(states, steps, start, walSync, i);
    var s := states[i];
    CountLogged(s.slots, id);
    CountApplied(s.slots, id);
    OneSlot(s, id);
  }

  lemma OneSlot(s: State, id: nat)
    requires SlotsSound(s) && id < |s.calls|
    ensures Settled(s.calls[id].phase) <==> HasSlot(s, id)
    ensures forall k :: 0 <= k < |s.slots| && s.slots[k].id == id ==> s.slots[k].status == s.calls[id].phase.status
  {
    forall k | 0 <= k < |s.slots| && s.slots[k].id == id
      ensures Settled(s.calls[id].phase) && s.slots[k].status == s.calls[id].phase.status
    {
      assert SlotMatches(s, s.slots[k]);
    }
  }

  lemma {:induction false} ContiguousFollows(slots: seq<Slot>, from: nat, to: nat, i: nat)
    requires Contiguous(slots, from, to) && i < |slots|
    ensures from <= slots[i].base && slots[i].base + slots[i].count <= to
    ensures i == 0 ==> slots[i].base == from
    ensures i + 1 == |slots| ==> slots[i].base + slots[i].count == to
    ensures i + 1 < |slots| ==> slots[i + 1].base == slots[i].base + slots[i].count
    decreases |slots|
  {
    var n := |slots| - 1;
    if i < n {
      ContiguousFollows(slots[..n], from, slots[n].base, i);
      assert slots[..n][i] == slots[i];
    } else if n > 0 {
      ContiguousFollows(slots[..n], from, slots[n].base, n - 1);
    }
  }

  /**
    Sequence ranges: the k-th reservation starts exactly where the one before it ended, and the log holds the
    reservations in that order, so log order is sequence order.
   */
  lemma LogOrderIsSequenceOrder(states: seq<State>, steps: seq<Step>, start: nat, walSync: bool, i: nat, k: nat)
    requires Run(states, steps, start, walSync) && i < |states| && k < |states[i].slots|
    ensures var s := states[i];
            && Flat(s.log) == LoggedIds(s.slots)
            && s.applied == Succeeded(s.slots)
            && s.slots[k].id < |s.calls| && s.slots[k].count == |s.calls[s.slots[k].id].request.batch|
            && s.slots[k].base == (if k == 0 then start else s.slots[k - 1].base + s.slots[k - 1].count)
            && (k + 1 == |s.slots| ==> s.slots[k].base + s.slots[k].count == s.seqNo)
  {
    hide Run, Flat, LoggedIds, Succeeded, Contiguous, QueueSound, SyncSound, FileSound;
    RunKeeps(states, steps, start, walSync, i);
    var s := states[i];
    ContiguousFollows(s.slots, start, s.seqNo, k);
    if k > 0 { ContiguousFollows(s.slots, start, s.seqNo, k - 1); }
    assert SlotMatches(s, s.slots[k]);
  }

  /** Entries are pending exactly when a leader is active, and the leader's own entry is the first of them. */
  lemma PendingIffLeader(states: seq<State>, steps: seq<Step>, start: nat, walSync: bool, i: nat)
    requires Run(states, steps, start, walSync) && i < |states|
    ensures var s := states[i];
            && (s.leader.Some? <==> |s.pending| > 0)
            && (s.leader.Some? ==> s.leader.value == s.pending[0])
            && (forall id :: 0 <= id < |s.calls| ==> (s.calls[id].phase == Queued <==> id in s.pending))
            && (forall i :: 0 <= i < |s.pending| ==> s.pending[i] < |s.calls|)
            && (s.leader.Some? ==> Enabled(s, Commit(Ok, |RecordOf(Members(s, s.pending))|), walSync))
  {
    hide Run, SlotsSound, EffectsSound, SyncSound, FileSound;
    RunKeeps(states, steps, start, walSync, i);
  }

  /** A call answered Ok that asked for sync has its record in the synced part of the log. */
  lemma OkWithSyncIsSynced(states: seq<State>, steps: seq<Step>, start: nat, i: nat, id: nat)
    requires Run(states, steps, start, true) && i < |states| && id < |states[i].calls|
    requires SyncedOk(states[i].calls[id])
    ensures states[i].synced <= |states[i].log| && InSynced(states[i], id)
  {
    hide Run, SlotsSound, EffectsSound, QueueSound, FileSound;
    RunKeeps(states, steps, start, true, i);
  }

  /**
    And that part replays: while no failed append has left bytes in the log, a crash that keeps its synced bytes and
    anything more gives back, among whole groups, the record with the batch of every call answered Ok with sync.
   */
  lemma OkWithSyncIsReplayed(states: seq<State>, steps: seq<Step>, start: nat, i: nat, id: nat, cut: nat)
    returns (r: nat)
    requires Run(states, steps, start, true) && i < |states| && id < |states[i].calls|
    requires SyncedOk(states[i].calls[id]) && Loggable(states[i].groups)
    requires states[i].fileSynced <= cut <= |states[i].file|
    ensures r < |states[i].log| == |states[i].groups| && id in states[i].log[r]
    ensures states[i].calls[id].request.batch in states[i].groups[r]
    ensures r < Sound(states[i]) ==>
              var records := Replay(states[i].file[..cut]);
              r < |records| && records[r] == EncodeGroup(states[i].groups[r])
  {
    hide Run, SlotsSound, EffectsSound, QueueSound, Log, Replay, Whole, Loggable, EncodeGroup;
    OkWithSyncIsSynced(states, steps, start, i, id);
    RunKeeps(states, steps, start, true, i);
    var s := states[i];
    r :| 0 <= r < s.synced && id in s.log[r];
    var j :| 0 <= j < |s.log[r]| && s.log[r][j] == id;
    assert GroupMatches(s, s.log[r], s.groups[r]);
    assert s.groups[r][j] == s.calls[id].request.batch;
    if r < Sound(s) { SyncedReplays(s.file, s.fileSynced, s.groups, s.synced, Sound(s), cut, r); }
  }

  lemma SyncedReplays(file: bytes, fileSynced: nat, groups: seq<Group>, synced: nat, sound: nat, cut: nat, r: nat)
    requires BytesSound(file, fileSynced, groups, synced, sound) && Loggable(groups)
    requires fileSynced <= cut <= |file| && r < synced && r < sound
    ensures r < |Replay(file[..cut])| && Replay(file[..cut])[r] == EncodeGroup(groups[r])
  {
    hide Log, Replay, Whole, EncodeGroup;
    var rs, n := Records(groups[..sound]), if synced < sound then synced else sound;
    var a, b := Records(groups[..n]), Records(groups[n..sound]);
    assert rs == a + b;
    RecordsFitted(groups[..sound]);
    WholeAtLeast(a, b, cut);
    CutReplays(file, rs, cut);
  }

  // ---- The code of a commit ----

  /** The writer object holds the bytes, the counter and the memtable of the state. */
  ghost predicate Coupled(w: Writer, s: State)
    reads w, w.wal, w.memtable, w.memtable.Repr
  {
    && w.Valid()
    && w.wal.content == s.file && w.wal.synced == s.fileSynced && w.seqNo == s.seqNo && w.memtable.Contents() == s.mem
  }

  /** `doWriteGroup` on the pending group is the `Commit` step: same status, same bytes, same counter, same memtable. */
  method CommitPending(w: Writer, group: seq<Request>, accepted: nat, syncWorks: bool, ghost s: State)
    returns (st: Status)
    requires Coupled(w, s) && QueueSound(s) && s.leader.Some? && group == Members(s, s.pending)
    modifies w, w.wal, w.memtable.Repr
    ensures Enabled(s, Commit(st, accepted), w.walSync)
    ensures Coupled(w, After(s, Commit(st, accepted), w.walSync))
  {
    hide MemTable.MemTable.Valid, MemTable.MemTable.Contents, Apply, Ops, Frame, EncodeGroup, NeedsSync, Distinct,
         After, QueueSound;
    PendingCalls(s);
    st := w.DoWriteGroup(group, accepted, syncWorks);
    CommitBytes(s, st, accepted, w.walSync);
  }

  lemma PendingCalls(s: State)
    requires QueueSound(s)
    ensures forall i :: 0 <= i < |s.pending| ==> s.pending[i] < |s.calls|
    ensures s.leader.Some? ==> |s.pending| > 0
  {
    hide Distinct;
    assert forall i :: 0 <= i < |s.pending| ==> s.pending[i] in s.pending;
  }

  lemma CommitBytes(s: State, status: Status, accepted: nat, walSync: bool)
    requires Enabled(s, Commit(status, accepted), walSync)
    ensures var t, requests := After(s, Commit(status, accepted), walSync), Members(s, s.pending);
            var record := RecordOf(requests);
            && t.file == s.file + (if accepted < |record| then record[..accepted] else record)
            && t.fileSynced == (if status == Ok && walSync && NeedsSync(requests) then |t.file| else s.fileSynced)
            && t.seqNo == s.seqNo + |Ops(Batches(requests))|
            && t.mem == if status == Ok then Apply(s.mem, Ops(Batches(requests)), s.seqNo + 1) else s.mem
  {
    hide Apply, Ops, RecordOf, NeedsSync, Reservations, Finished, Batches;
  }

  // ---- Real-time order ----

  lemma {:induction false} SlotsGrow(states: seq<State>, steps: seq<Step>, start: nat, walSync: bool, i: nat, j: nat)
    requires Run(states, steps, start, walSync) && i <= j < |states|
    ensures states[i].slots <= states[j].slots
    decreases j
  {
    hide Enabled, After;
    if i < j {
      SlotsGrow(states, steps, start, walSync, i, j - 1);
      assert states[j] == After(states[j - 1], steps[j - 1], walSync) && Enabled(states[j - 1], steps[j - 1], walSync);
      SlotsStep(states[j - 1], steps[j - 1], walSync);
    }
  }

  lemma SlotsStep(s: State, step: Step, walSync: bool)
    requires Enabled(s, step, walSync)
    ensures s.slots <= After(s, step, walSync).slots
  {
    hide Reservations, Ops, NeedsSync, Finished, Batches, RecordOf;
  }

  /**
    When call `a` has returned before call `b` is invoked, every reservation of `a` precedes every
    reservation of `b`, at any later time; so do their sequence numbers.
   */
  lemma RealTimeOrder(states: seq<State>, steps: seq<Step>, start: nat, walSync: bool,
                      i: nat, j: nat, a: nat, b: nat, ka: nat, kb: nat)
    requires Run(states, steps, start, walSync) && i <= j < |states|
    requires a < |states[i].calls| && states[i].calls[a].phase.Returned? && |states[i].calls| <= b
    requires ka < |states[j].slots| && states[j].slots[ka].id == a
    requires kb < |states[j].slots| && states[j].slots[kb].id == b
    ensures ka < kb
    ensures states[j].slots[ka].base + states[j].slots[ka].count <= states[j].slots[kb].base
  {
    hide Run, Contiguous, Flat, LoggedIds, Succeeded, QueueSound, SyncSound, FileSound;
    RunKeeps(states, steps, start, walSync, i);
    RunKeeps(states, steps, start, walSync, j);
    SlotsGrow(states, steps, start, walSync, i, j);
    OneSlot(states[i], a);
    var k :| 0 <= k < |states[i].slots| && states[i].slots[k].id == a;
    assert states[j].slots[k] == states[i].slots[k];
    assert forall m :: 0 <= m < |states[i].slots| ==> states[i].slots[m].id < |states[i].calls| by {
      forall m | 0 <= m < |states[i].slots| ensures states[i].slots[m].id < |states[i].calls| {
        assert SlotMatches(states[i], states[i].slots[m]);
      }
    }
    assert forall m :: 0 <= m < |states[i].slots| ==> states[j].slots[m] == states[i].slots[m];
    assert kb >= |states[i].slots|;
    RangesOrdered(states[j].slots, start, states[j].seqNo, ka, kb);
  }

  lemma {:induction false} RangesOrdered(slots: seq<Slot>, from: nat, to: nat, i: nat, j: nat)
    requires Contiguous(slots, from, to) && i < j < |slots|
    ensures slots[i].base + slots[i].count <= slots[j].base
    decreases |slots|
  {
    var n := |slots| - 1;
    if j < n {
      RangesOrdered(slots[..n], from, slots[n].base, i, j);
    } else {
      ContiguousFollows(slots[..n], from, slots[n].base, i);
    }
  }
}
