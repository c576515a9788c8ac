/** Why searching one block of a table is enough. */
module TableLookup {
  import opened Bytes
  import opened InternalKey
  import opened Entries
  import opened Lookup

  function Flatten(blocks: seq<seq<Entry>>): seq<Entry> {
    if |blocks| == 0 then [] else blocks[0] + Flatten(blocks[1..])
  }

  predicate NonEmpty(blocks: seq<seq<Entry>>) {
    forall i :: 0 <= i < |blocks| ==> |blocks[i]| > 0
  }

  function LastUserKey(block: seq<Entry>): bytes
    requires |block| > 0
  {
    UserKey(block[|block| - 1].key)
  }

  lemma {:induction false} FlattenConcat(a: seq<seq<Entry>>, b: seq<seq<Entry>>)
    ensures Flatten(a + b) == Flatten(a) + Flatten(b)
  {
    if |a| == 0 {
      assert a + b == b;
    } else {
      assert (a + b)[1..] == a[1..] + b;
      FlattenConcat(a[1..], b);
    }
  }

  lemma SortedParts(a: seq<Entry>, b: seq<Entry>)
    requires Sorted(a + b)
    ensures Sorted(a) && Sorted(b)
    ensures forall i, j :: 0 <= i < |a| && 0 <= j < |b| ==> Less(a[i].key, b[j].key)
  {
    hide Less;
    var s := a + b;
    forall i | 0 <= i < |a| ensures s[i] == a[i] {}
    forall j | 0 <= j < |b| ensures s[|a| + j] == b[j] {}
  }

  lemma LessUserKeys(a: bytes, b: bytes)
    requires Internal(a) && Internal(b) && Less(a, b)
    ensures Compare(UserKey(a), UserKey(b)) <= 0
  {
  }

  /** All user keys of a sorted run that ends below `k` differ from `k`. */
  lemma RunBelow(block: seq<Entry>, k: bytes)
    requires Sorted(block) && |block| > 0 && Compare(LastUserKey(block), k) < 0
    ensures FirstWith(block, k) == None
  {
    hide Compare, UserKey, Less;
    var last := |block| - 1;
    forall i | 0 <= i < |block|
      ensures UserKey(block[i].key) != k
    {
      if i < last {
        LessUserKeys(block[i].key, block[last].key);
        CompareTransitive(UserKey(block[i].key), UserKey(block[last].key), k);
      }
      CompareZero(UserKey(block[i].key), k);
    }
    NoneAbove(block, k);
  }

  /** If a block ends above `k`, nothing after it can match. */
  lemma RestAbove(block: seq<Entry>, rest: seq<Entry>, k: bytes)
    requires Sorted(block + rest) && |block| > 0 && Compare(LastUserKey(block), k) > 0
    ensures FirstWith(rest, k) == None
  {
    hide Compare, UserKey, Less, Sorted;
    SortedParts(block, rest);
    var last := block[|block| - 1].key;
    forall j | 0 <= j < |rest|
      ensures UserKey(rest[j].key) != k
    {
      KeysInternal(block + rest, |block| - 1);
      KeysInternal(block + rest, |block| + j);
      LessUserKeys(last, rest[j].key);
      AboveDiffers(UserKey(last), UserKey(rest[j].key), k);
    }
    NoneAbove(rest, k);
  }

  lemma KeysInternal(es: seq<Entry>, i: nat)
    requires Sorted(es) && i < |es|
    ensures Internal(es[i].key)
  {
  }

  /** The first block whose last user key is not below `k`, as the index search finds it. */
  predicate Candidate(blocks: seq<seq<Entry>>, k: bytes, i: nat)
    requires NonEmpty(blocks)
  {
    && i <= |blocks|
    && (forall j :: 0 <= j < i ==> Compare(LastUserKey(blocks[j]), k) < 0)
    && (i < |blocks| ==> Compare(LastUserKey(blocks[i]), k) >= 0)
  }

  /** The user key at the end of a block is found in it. */
  lemma LastFound(block: seq<Entry>, k: bytes)
    requires |block| > 0 && LastUserKey(block) == k
    ensures FirstWith(block, k).Some?
  {
    FirstWithFinds(block, k, |block| - 1);
  }

  /**
   Scanning the candidate block gives what a flat search of all entries gives, even when versions of one
   user key straddle block boundaries.
   */
  lemma {:induction false} OneBlockSuffices(blocks: seq<seq<Entry>>, k: bytes, i: nat)
    requires NonEmpty(blocks) && Sorted(Flatten(blocks)) && Candidate(blocks, k, i)
    ensures Find(Flatten(blocks), k) == if i == |blocks| then None else Scan(blocks[i], k)
    decreases i
  {
    hide Compare, UserKey, Less, Sorted, FirstWith, Scan, LastUserKey;
    if |blocks| == 0 {
      NoneAbove([], k);
    } else {
      var first, rest := blocks[0], Flatten(blocks[1..]);
      assert Flatten(blocks) == first + rest;
      SortedParts(first, rest);
      FirstWithConcat(first, rest, k);
      if i > 0 {
        RunBelow(first, k);
        assert forall j :: 0 <= j < |blocks[1..]| ==> blocks[1..][j] == blocks[j + 1];
        OneBlockSuffices(blocks[1..], k, i - 1);
      } else {
        ScanIsFind(first, k);
        CompareZero(LastUserKey(first), k);
        if LastUserKey(first) == k { LastFound(first, k); } else { RestAbove(first, rest, k); }
      }
    }
  }
}
