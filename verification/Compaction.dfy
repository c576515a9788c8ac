/** Merging the files of a level into one file of the next (`mergeLevelFiles` in `minikv/src/core/compaction.cpp`). */
module Compaction {
  import opened Bytes
  import opened InternalKey
  import opened Entries
  import opened Lookup
  import opened TableLookup
  import SsTable

  /** What `std::sort` leaves: ascending internal keys, equal keys in any order. */
  predicate Ordered(es: seq<Entry>) {
    && (forall i :: 0 <= i < |es| ==> Internal(es[i].key))
    && (forall i, j :: 0 <= i < j < |es| ==> !Less(es[j].key, es[i].key))
  }

  /** The dedup loop: the first version of each user key, unless that is a tombstone. */
  function Keep(es: seq<Entry>, lastUser: bytes): seq<Entry>
    decreases |es|
  {
    if |es| == 0 then []
    else
      var uk := UserKey(es[0].key);
      if uk == lastUser then Keep(es[1..], lastUser)
      else if IsDeletion(es[0].key) then Keep(es[1..], uk)
      else [es[0]] + Keep(es[1..], uk)
  }

  lemma OrderedTail(es: seq<Entry>)
    requires Ordered(es) && |es| > 0
    ensures Ordered(es[1..])
  {
    hide Less;
  }

  lemma OrderedUserKeys(es: seq<Entry>, i: nat, j: nat)
    requires Ordered(es) && i <= j < |es|
    ensures Compare(UserKey(es[i].key), UserKey(es[j].key)) <= 0
  {
    CompareAntisymmetric(UserKey(es[i].key), UserKey(es[j].key));
    CompareZero(UserKey(es[i].key), UserKey(es[i].key));
    if i < j { assert !Less(es[j].key, es[i].key); }
  }

  /** `u` comes no later than any user key of `es`. */
  predicate Floor(u: bytes, es: seq<Entry>) {
    forall i :: 0 <= i < |es| ==> Compare(u, UserKey(es[i].key)) <= 0
  }

  lemma FloorOfFirst(es: seq<Entry>)
    requires Ordered(es) && |es| > 0
    ensures Floor(UserKey(es[0].key), es)
  {
    hide Compare, UserKey, Ordered;
    forall i | 0 <= i < |es|
      ensures Compare(UserKey(es[0].key), UserKey(es[i].key)) <= 0
    {
      OrderedUserKeys(es, 0, i);
    }
  }

  function Live(e: Option<Entry>): Option<Entry> {
    if e.Some? && IsDeletion(e.value.key) then None else e
  }

  /** Every user key but the last one written keeps its first version, if that is live. */
  lemma {:induction false} KeepFirst(es: seq<Entry>, lastUser: bytes, k: bytes)
    requires Ordered(es) && Floor(lastUser, es)
    ensures FirstWith(Keep(es, lastUser), k) == if k == lastUser then None else Live(FirstWith(es, k))
    decreases |es|
  {
    hide Compare, UserKey, Less, IsDeletion, Ordered, Floor;
    if |es| > 0 {
      var uk := UserKey(es[0].key);
      OrderedTail(es);
      FloorOfFirst(es);
      FloorTail(uk, es);
      FloorTail(lastUser, es);
      if uk == lastUser {
        KeepFirst(es[1..], lastUser, k);
      } else {
        KeepFirst(es[1..], uk, k);
        FirstOfRest(es, lastUser);
        assert ([es[0]] + Keep(es[1..], uk))[1..] == Keep(es[1..], uk);
      }
    }
  }

  lemma FloorTail(u: bytes, es: seq<Entry>)
    requires Floor(u, es) && |es| > 0
    ensures Floor(u, es[1..])
  {
    hide Compare, UserKey;
  }

  /** Once a larger user key was seen, the previous one cannot return. */
  lemma FirstOfRest(es: seq<Entry>, lastUser: bytes)
    requires Ordered(es) && Floor(lastUser, es) && |es| > 0 && UserKey(es[0].key) != lastUser
    ensures forall i :: 0 <= i < |es| ==> UserKey(es[i].key) != lastUser
    ensures FirstWith(Keep(es[1..], UserKey(es[0].key)), lastUser) == None
  {
    hide Compare, UserKey, Less, IsDeletion, Ordered;
    forall i | 0 <= i < |es|
      ensures UserKey(es[i].key) != lastUser
    {
      OrderedUserKeys(es, 0, i);
      CompareZero(lastUser, UserKey(es[0].key));
      CompareTransitive(lastUser, UserKey(es[0].key), UserKey(es[i].key));
      CompareZero(lastUser, UserKey(es[i].key));
    }
    KeepMembers(es[1..], UserKey(es[0].key));
    NoneAbove(Keep(es[1..], UserKey(es[0].key)), lastUser);
  }

  lemma {:induction false} KeepMembers(es: seq<Entry>, lastUser: bytes)
    ensures forall e :: e in Keep(es, lastUser) ==> e in es && !IsDeletion(e.key)
    decreases |es|
  {
    hide UserKey, IsDeletion;
    if |es| > 0 {
      assert es == [es[0]] + es[1..];
      KeepMembers(es[1..], if UserKey(es[0].key) == lastUser then lastUser else UserKey(es[0].key));
    }
  }

  lemma EmptyIsFloor(es: seq<Entry>)
    ensures Floor([], es)
  {
  }

  predicate AscendingUserKeys(es: seq<Entry>) {
    forall i, j :: 0 <= i < j < |es| ==> Compare(UserKey(es[i].key), UserKey(es[j].key)) < 0
  }

  lemma {:induction false} KeepAscends(es: seq<Entry>, lastUser: bytes)
    requires Ordered(es) && Floor(lastUser, es)
    ensures AscendingUserKeys(Keep(es, lastUser))
    ensures forall i :: 0 <= i < |Keep(es, lastUser)| ==> Compare(lastUser, UserKey(Keep(es, lastUser)[i].key)) < 0
    decreases |es|
  {
    hide Compare, UserKey, Less, IsDeletion, Ordered, Floor;
    if |es| > 0 {
      var uk := UserKey(es[0].key);
      OrderedTail(es);
      FloorOfFirst(es);
      FloorTail(uk, es);
      FloorTail(lastUser, es);
      if uk == lastUser {
        KeepAscends(es[1..], lastUser);
      } else {
        KeepAscends(es[1..], uk);
        FloorBelow(lastUser, es);
        var rest := Keep(es[1..], uk);
        forall i | 0 <= i < |rest|
          ensures Compare(lastUser, UserKey(rest[i].key)) < 0
        {
          CompareTransitive(lastUser, uk, UserKey(rest[i].key));
        }
      }
    }
  }

  lemma FloorBelow(u: bytes, es: seq<Entry>)
    requires Floor(u, es) && |es| > 0 && UserKey(es[0].key) != u
    ensures Compare(u, UserKey(es[0].key)) < 0
  {
    hide Compare, UserKey;
    CompareZero(u, UserKey(es[0].key));
  }

  /** The output of a compaction: ascending user keys, one live entry each, fit for a table. */
  lemma OutputIsTable(es: seq<Entry>)
    requires Ordered(es)
    ensures AscendingUserKeys(Keep(es, [])) && Sorted(Keep(es, []))
    ensures forall e :: e in Keep(es, []) ==> e in es && !IsDeletion(e.key)
  {
    hide IsDeletion, Keep;
    EmptyIsFloor(es);
    KeepAscends(es, []);
    KeepMembers(es, []);
    var out := Keep(es, []);
    forall i | 0 <= i < |out|
      ensures Internal(out[i].key)
    {
      assert out[i] in es;
    }
    forall i, j | 0 <= i < j < |out|
      ensures Less(out[i].key, out[j].key)
    {
    }
  }

  /** Lookup in the output equals lookup in the merged inputs, for every non-empty user key. */
  lemma OutputFinds(es: seq<Entry>, k: bytes)
    requires Ordered(es)
    ensures k != [] ==> Find(Keep(es, []), k) == Find(es, k)
    ensures k == [] ==> Find(Keep(es, []), k) == None
  {
    hide Keep, FirstWith, Ordered, Floor, IsDeletion;
    EmptyIsFloor(es);
    KeepFirst(es, [], k);
  }

  /** An empty user key equals the initial `last_user`: a stored value for it is lost. */
  lemma EmptyKeyIsLost() returns (es: seq<Entry>)
    ensures Ordered(es) && Find(es, []) == Some([7]) && Find(Keep(es, []), []) == None
  {
    var ik := Encode([], 1, VALUE);
    EncodeRoundTrip([], 1, VALUE);
    hide Encode, UserKey, TypeOf, Keep;
    es := [Entry(ik, [7])];
    OutputFinds(es, []);
    assert FirstWith(es, []) == Some(es[0]);
  }

  /** All lookups survive exactly when the inputs hold no live value for the empty user key. */
  lemma AllKeysSurviveIff(es: seq<Entry>)
    requires Ordered(es)
    ensures (forall k :: Find(Keep(es, []), k) == Find(es, k)) <==> Find(es, []) == None
  {
    hide Keep, Find, Ordered;
    forall k
      ensures k != [] ==> Find(Keep(es, []), k) == Find(es, k)
      ensures k == [] ==> Find(Keep(es, []), k) == None
    {
      OutputFinds(es, k);
    }
  }

  // ---- Newest versions over whole file sets ----

  /** The version that comes first in internal-key order: highest sequence number, then lowest type. */
  function Newest(es: seq<Entry>, k: bytes): (r: Option<Entry>)
    ensures r.Some? ==> r.value in es && UserKey(r.value.key) == k
  {
    if |es| == 0 then None
    else Newer(if UserKey(es[0].key) == k then Some(es[0]) else None, Newest(es[1..], k))
  }

  function Newer(a: Option<Entry>, b: Option<Entry>): Option<Entry> {
    if a.None? then b else if b.None? then a else if Less(b.value.key, a.value.key) then b else a
  }

  ghost predicate AllInternal(es: seq<Entry>) {
    forall i :: 0 <= i < |es| ==> Internal(es[i].key)
  }

  lemma {:induction false} NewestIsLeast(es: seq<Entry>, k: bytes, i: nat)
    requires AllInternal(es) && i < |es| && UserKey(es[i].key) == k
    ensures Newest(es, k).Some? && !Less(es[i].key, Newest(es, k).value.key)
  {
    hide UserKey, Less;
    LessIrreflexive(es[i].key);
    assert AllInternal(es[1..]);
    if i > 0 { NewestIsLeast(es[1..], k, i - 1); }
    var rest := Newest(es[1..], k);
    if rest.Some? && UserKey(es[0].key) == k {
      assert rest.value in es;
      NotLessTransitive(es[i].key, rest.value.key, es[0].key);
      NotLessTransitive(es[i].key, es[0].key, rest.value.key);
    }
  }

  lemma NotLessTransitive(a: bytes, b: bytes, c: bytes)
    requires Internal(a) && Internal(b) && Internal(c)
    ensures !Less(a, b) && !Less(b, c) ==> !Less(a, c)
    ensures !Less(a, b) && Less(c, b) ==> !Less(a, c)
  {
    hide CompareKeys;
    CompareKeysAntisymmetric(a, b);
    CompareKeysAntisymmetric(b, c);
    CompareKeysAntisymmetric(a, c);
    if CompareKeys(b, a) <= 0 && CompareKeys(c, b) <= 0 { CompareKeysTransitive(c, b, a); }
  }

  lemma NewerAssociative(a: Option<Entry>, b: Option<Entry>, c: Option<Entry>)
    requires a.Some? ==> Internal(a.value.key)
    requires b.Some? ==> Internal(b.value.key)
    requires c.Some? ==> Internal(c.value.key)
    ensures Newer(a, Newer(b, c)) == Newer(Newer(a, b), c)
  {
    hide Less;
    if a.Some? && b.Some? && c.Some? {
      var x, y, z := a.value.key, b.value.key, c.value.key;
      if Less(z, y) && Less(y, x) { LessTransitive(z, y, x); }
      NotLessTransitive(z, y, x);
    }
  }

  lemma {:induction false} NewestConcat(a: seq<Entry>, b: seq<Entry>, k: bytes)
    requires AllInternal(a) && AllInternal(b)
    ensures Newest(a + b, k) == Newer(Newest(a, k), Newest(b, k))
  {
    hide UserKey, Newer;
    if |a| == 0 {
      assert a + b == b;
      NewerNone(Newest(b, k));
    } else {
      assert (a + b)[1..] == a[1..] + b;
      assert AllInternal(a[1..]);
      NewestConcat(a[1..], b, k);
      var first := if UserKey(a[0].key) == k then Some(a[0]) else None;
      NewestInternal(a[1..], k);
      NewestInternal(b, k);
      NewerAssociative(first, Newest(a[1..], k), Newest(b, k));
    }
  }

  lemma NewerNone(a: Option<Entry>)
    ensures Newer(None, a) == a
  {
  }

  lemma NewestInternal(es: seq<Entry>, k: bytes)
    requires AllInternal(es)
    ensures Newest(es, k).Some? ==> Internal(Newest(es, k).value.key)
  {
    hide UserKey;
  }

  /** In sorted entries the newest version is the first. */
  lemma {:induction false} NewestIsFirst(es: seq<Entry>, k: bytes)
    requires Ordered(es)
    ensures Newest(es, k) == FirstWith(es, k)
  {
    hide UserKey, Less;
    if |es| > 0 {
      OrderedTail(es);
      NewestIsFirst(es[1..], k);
      var rest := Newest(es[1..], k);
      if rest.Some? {
        var j :| 0 <= j < |es[1..]| && es[1..][j] == rest.value;
        assert es[j + 1] == rest.value;
      }
    }
  }

  ghost predicate DistinctKeys(es: seq<Entry>) {
    forall e, f :: e in es && f in es && e.key == f.key ==> e == f
  }

  lemma {:induction false} NewestFindsSome(es: seq<Entry>, k: bytes)
    ensures Newest(es, k).None? ==> forall e :: e in es ==> UserKey(e.key) != k
  {
    hide UserKey, Less;
    if |es| > 0 {
      NewestFindsSome(es[1..], k);
      assert es == [es[0]] + es[1..];
    }
  }

  /** Sorting does not change which version of a key is newest. */
  lemma NewestOfPermutation(all: seq<Entry>, sorted: seq<Entry>, k: bytes)
    requires AllInternal(all) && DistinctKeys(all) && multiset(sorted) == multiset(all)
    ensures AllInternal(sorted) && Newest(sorted, k) == Newest(all, k)
  {
    hide UserKey, Less, Newest;
    SameElements(all, sorted);
    forall i | 0 <= i < |sorted|
      ensures Internal(sorted[i].key)
    {
      assert sorted[i] in all;
    }
    NewestFindsSome(all, k);
    NewestFindsSome(sorted, k);
    if Newest(all, k).Some? && Newest(sorted, k).Some? {
      var a, b := Newest(all, k).value, Newest(sorted, k).value;
      var i :| 0 <= i < |all| && all[i] == b;
      var j :| 0 <= j < |sorted| && sorted[j] == a;
      NewestIsLeast(all, k, i);
      NewestIsLeast(sorted, k, j);
      if a.key != b.key { LessTotal(a.key, b.key); }
    }
  }

  lemma SameElements(a: seq<Entry>, b: seq<Entry>)
    requires multiset(a) == multiset(b)
    ensures forall e :: e in a <==> e in b
  {
    forall e
      ensures e in a <==> e in b
    {
      assert e in a <==> e in multiset(a);
      assert e in b <==> e in multiset(b);
    }
  }

  /** Newest-version view of a set of files. */
  function View(es: seq<Entry>, k: bytes): Option<bytes> {
    Visible(Newest(es, k))
  }

  /** A tombstone that compaction drops hides an older live version kept in some other file. */
  predicate Uncovers(outside: seq<Entry>, sorted: seq<Entry>, k: bytes) {
    var a, b := Newest(sorted, k), Newest(outside, k);
    a.Some? && b.Some? && IsDeletion(a.value.key) && !IsDeletion(b.value.key) && Less(a.value.key, b.value.key)
  }

  /** Swapping the inputs for the output keeps the view of a key exactly when no dropped tombstone uncovers it. */
  lemma SwapKeepsViewIff(outside: seq<Entry>, sorted: seq<Entry>, k: bytes)
    requires AllInternal(outside) && Ordered(sorted) && k != []
    ensures View(outside + Keep(sorted, []), k) == View(outside + sorted, k) <==> !Uncovers(outside, sorted, k)
  {
    hide Keep, Newest, FirstWith, Less, IsDeletion, Sorted, AllInternal;
    var out := Keep(sorted, []);
    OutputIsTable(sorted);
    SortedIsOrdered(out);
    OrderedInternal(sorted);
    OrderedInternal(out);
    NewestConcat(outside, sorted, k);
    NewestConcat(outside, out, k);
    NewestIsFirst(sorted, k);
    NewestIsFirst(out, k);
    EmptyIsFloor(sorted);
    KeepFirst(sorted, [], k);
    var a, b := Newest(sorted, k), Newest(outside, k);
    if a.Some? && b.Some? {
      NewestInternal(sorted, k);
      NewestInternal(outside, k);
      if !Less(a.value.key, b.value.key) && !Less(b.value.key, a.value.key) {
        if a.value.key != b.value.key { LessTotal(a.value.key, b.value.key); }
      }
    }
  }

  lemma SortedIsOrdered(es: seq<Entry>)
    requires Sorted(es)
    ensures Ordered(es)
  {
    hide Less;
    forall i, j | 0 <= i < j < |es|
      ensures !Less(es[j].key, es[i].key)
    {
      if Less(es[j].key, es[i].key) {
        LessTransitive(es[i].key, es[j].key, es[i].key);
        LessIrreflexive(es[i].key);
      }
    }
  }

  lemma OrderedInternal(es: seq<Entry>)
    requires Ordered(es)
    ensures AllInternal(es)
  {
    hide Less;
  }

  /** The same for the unsorted inputs, whose internal keys are distinct within a session. */
  lemma CompactionKeepsViewIff(outside: seq<Entry>, inputs: seq<Entry>, sorted: seq<Entry>, k: bytes)
    requires AllInternal(outside) && AllInternal(inputs) && DistinctKeys(inputs) && k != []
    requires Ordered(sorted) && multiset(sorted) == multiset(inputs)
    ensures View(outside + Keep(sorted, []), k) == View(outside + inputs, k) <==> !Uncovers(outside, inputs, k)
    ensures Find(Keep(sorted, []), k) == View(inputs, k)
  {
    hide Keep, Newest, FirstWith, Less, IsDeletion, AllInternal, Ordered;
    NewestOfPermutation(inputs, sorted, k);
    NewestConcat(outside, sorted, k);
    NewestConcat(outside, inputs, k);
    SwapKeepsViewIff(outside, sorted, k);
    OutputFinds(sorted, k);
    NewestIsFirst(sorted, k);
  }

  // ---- The code ----

  lemma InsertOrdered(es: seq<Entry>, i: nat, e: Entry)
    requires Ordered(es) && Internal(e.key) && i <= |es|
    requires forall j :: 0 <= j < i ==> !Less(e.key, es[j].key)
    requires i < |es| ==> Less(e.key, es[i].key)
    ensures Ordered(es[..i] + [e] + es[i..])
  {
    hide Less;
    forall j | i <= j < |es|
      ensures !Less(es[j].key, e.key)
    {
      LessIrreflexive(e.key);
      if Less(es[j].key, e.key) {
        if j > i { LessTransitive(es[j].key, e.key, es[i].key); }
        else { LessTransitive(e.key, es[i].key, e.key); }
      }
    }
  }

  /** A sort by `InternalKeyCompare`; the source calls `std::sort`. */
  method Sort(all: seq<Entry>) returns (sorted: seq<Entry>)
    requires AllInternal(all)
    ensures Ordered(sorted) && multiset(sorted) == multiset(all)
  {
    hide Less;
    sorted := [];
    assert all[..0] == [];
    for n := 0 to |all|
      invariant Ordered(sorted) && multiset(sorted) == multiset(all[..n])
    {
      var e, i := all[n], 0;
      while i < |sorted| && !Less(e.key, sorted[i].key)
        invariant 0 <= i <= |sorted|
        invariant forall j :: 0 <= j < i ==> !Less(e.key, sorted[j].key)
      {
        i := i + 1;
      }
      InsertOrdered(sorted, i, e);
      InsertMultiset(sorted, i, e);
      assert all[..n + 1] == all[..n] + [e];
      sorted := sorted[..i] + [e] + sorted[i..];
    }
    assert all[..|all|] == all;
  }

  lemma InsertMultiset(es: seq<Entry>, i: nat, e: Entry)
    requires i <= |es|
    ensures multiset(es[..i] + [e] + es[i..]) == multiset(es) + multiset{e}
  {
    assert es == es[..i] + es[i..];
  }

  lemma {:induction false} FlattenInternal(files: seq<seq<Entry>>)
    requires forall i :: 0 <= i < |files| ==> Sorted(files[i])
    ensures AllInternal(Flatten(files))
  {
    hide Sorted;
    if |files| > 0 {
      FlattenInternal(files[1..]);
      FileInternal(files[0]);
    }
  }

  lemma FileInternal(es: seq<Entry>)
    requires Sorted(es)
    ensures AllInternal(es)
  {
  }

  lemma KeepStep(es: seq<Entry>, lastUser: bytes)
    requires |es| > 0
    ensures var uk := UserKey(es[0].key);
            Keep(es, lastUser) == if uk == lastUser then Keep(es[1..], lastUser)
                                  else if IsDeletion(es[0].key) then Keep(es[1..], uk)
                                  else [es[0]] + Keep(es[1..], uk)
  {
    hide UserKey, IsDeletion;
  }

  /** `mergeLevelFiles`: gather, sort, then feed the builder the surviving versions. */
  method MergeFiles(files: seq<seq<Entry>>, builder: SsTable.SSTableBuilder)
    returns (kept: nat, ghost sorted: seq<Entry>)
    requires forall i :: 0 <= i < |files| ==> Sorted(files[i])
    requires builder.Valid() && builder.added == []
    modifies builder, builder.dataBlock, builder.bloom.bits
    ensures Ordered(sorted) && multiset(sorted) == multiset(Flatten(files))
    ensures builder.Valid() && builder.added == Keep(sorted, []) && kept == |builder.added|
  {
    hide UserKey, IsDeletion, Less, Keep, Flatten, Sorted, Ordered, AllInternal, SsTable.SSTableBuilder.Valid;
    var all := Gather(files);
    FlattenInternal(files);
    var merged := Sort(all);
    sorted := merged;
    var lastUser: bytes := [];
    kept := 0;
    assert sorted[0..] == sorted;
    for n := 0 to |merged|
      invariant builder.Valid() && kept == |builder.added|
      invariant builder.dataBlock == old(builder.dataBlock) || fresh(builder.dataBlock)
      invariant builder.added + Keep(merged[n..], lastUser) == Keep(merged, [])
    {
      KeepStep(merged[n..], lastUser);
      assert merged[n..][1..] == merged[n + 1..];
      var e := merged[n];
      var uk := UserKey(e.key);
      if uk == lastUser { continue; }
      lastUser := uk;
      if IsDeletion(e.key) { continue; }
      builder.Add(e.key, uk, e.value);
      kept := kept + 1;
    }
    KeepEnd(merged[|merged|..], lastUser);
    assert builder.added == Keep(merged, []);
  }

  lemma KeepEnd(es: seq<Entry>, lastUser: bytes)
    requires |es| == 0
    ensures Keep(es, lastUser) == []
  {
  }

  /** The reading loop over the source files. */
  method Gather(files: seq<seq<Entry>>) returns (all: seq<Entry>)
    ensures all == Flatten(files)
  {
    all := [];
    assert files[..0] == [];
    for n := 0 to |files|
      invariant all == Flatten(files[..n])
    {
      SsTable.FlattenSnoc(files[..n], files[n]);
      assert files[..n + 1] == files[..n] + [files[n]];
      all := all + files[n];
    }
    assert files[..|files|] == files;
  }
}
