/** The byte-bounded LRU cache of decompressed blocks (`minikv/src/core/block_cache.h`). */
module BlockCache {
  import opened Bytes

  datatype CacheKey = CacheKey(path: bytes, offset: nat)
  datatype Item = Item(key: CacheKey, data: bytes, size: nat)

  function Total(list: seq<Item>): nat {
    if |list| == 0 then 0 else list[0].size + Total(list[1..])
  }

  predicate Distinct(list: seq<Item>) {
    forall i, j :: 0 <= i < j < |list| ==> list[i].key != list[j].key
  }

  predicate Measured(list: seq<Item>) {
    forall i :: 0 <= i < |list| ==> list[i].size == |list[i].data|
  }

  function IsKey(key: CacheKey): CacheKey -> bool {
    k => k == key
  }

  function OnPath(path: bytes): CacheKey -> bool {
    (k: CacheKey) => k.path == path
  }

  /** The list without the items of some keys, order kept. */
  function Without(list: seq<Item>, p: CacheKey -> bool): seq<Item> {
    if |list| == 0 then []
    else if p(list[0].key) then Without(list[1..], p)
    else [list[0]] + Without(list[1..], p)
  }

  /** The longest prefix that fits the capacity. */
  function Fitting(list: seq<Item>, capacity: nat): (r: seq<Item>)
    ensures r <= list
  {
    if |list| == 0 || list[0].size > capacity then []
    else [list[0]] + Fitting(list[1..], capacity - list[0].size)
  }

  lemma {:induction false} TotalConcat(a: seq<Item>, b: seq<Item>)
    ensures Total(a + b) == Total(a) + Total(b)
  {
    if |a| == 0 {
      assert a + b == b;
    } else {
      assert (a + b)[1..] == a[1..] + b;
      TotalConcat(a[1..], b);
    }
  }

  /** It fits, and every longer prefix does not. */
  lemma {:induction false} FittingIsLongest(list: seq<Item>, capacity: nat, n: nat)
    requires n <= |list|
    ensures Total(Fitting(list, capacity)) <= capacity
    ensures n > |Fitting(list, capacity)| ==> Total(list[..n]) > capacity
  {
    if |list| > 0 {
      if list[0].size > capacity {
        if n > 0 { assert list[..n][0] == list[0]; }
      } else {
        if n > 0 { assert list[..n][1..] == list[1..][..n - 1]; }
        FittingIsLongest(list[1..], capacity - list[0].size, if n > 0 then n - 1 else 0);
      }
    }
  }

  lemma {:induction false} WithoutProperties(list: seq<Item>, p: CacheKey -> bool)
    requires Distinct(list) && Measured(list)
    ensures Distinct(Without(list, p)) && Measured(Without(list, p))
    ensures forall x :: x in Without(list, p) <==> x in list && !p(x.key)
  {
    if |list| > 0 {
      WithoutProperties(list[1..], p);
      assert list == [list[0]] + list[1..];
      assert forall x :: x in list[1..] ==> x.key != list[0].key;
    }
  }

  lemma {:induction false} WithoutOne(list: seq<Item>, i: nat)
    requires Distinct(list) && i < |list|
    ensures Without(list, IsKey(list[i].key)) == list[..i] + list[i + 1..]
  {
    var key, rest := list[i].key, list[1..];
    if i == 0 {
      NoneMatch(rest, IsKey(key));
      assert list[..0] + rest == rest;
    } else {
      assert rest[i - 1] == list[i];
      WithoutOne(rest, i - 1);
      WithoutCut(list, i);
    }
  }

  lemma WithoutCut(list: seq<Item>, i: nat)
    requires 0 < i < |list|
    ensures list[..i] + list[i + 1..] == [list[0]] + (list[1..][..i - 1] + list[1..][i..])
  {
    assert list[..i] == [list[0]] + list[1..][..i - 1];
    assert list[i + 1..] == list[1..][i..];
  }

  lemma {:induction false} NoneMatch(list: seq<Item>, p: CacheKey -> bool)
    requires forall i :: 0 <= i < |list| ==> !p(list[i].key)
    ensures Without(list, p) == list
  {
    if |list| > 0 {
      NoneMatch(list[1..], p);
      assert list == [list[0]] + list[1..];
    }
  }

  /** The map holds, for every key of the list, that key's list position, here its item. */
  ghost predicate Indexes(m: map<CacheKey, Item>, list: seq<Item>) {
    && (forall x :: x in list ==> x.key in m && m[x.key] == x)
    && (forall k :: k in m ==> m[k] in list && m[k].key == k)
  }

  class BlockCache {
    const capacity: nat
    var used: nat
    var list: seq<Item>
    var index: map<CacheKey, Item>

    ghost predicate Valid()
      reads this
    {
      && Distinct(list) && Measured(list)
      && Indexes(index, list)
      && used == Total(list)
    }

    constructor (capacity: nat)
      ensures Valid() && list == [] && this.capacity == capacity
    {
      this.capacity, used, list, index := capacity, 0, [], map[];
    }

    /** A hit moves the item to the front. */
    method Get(key: CacheKey) returns (r: Option<bytes>)
      requires Valid()
      modifies `list
      ensures Valid()
      ensures r.Some? <==> exists x :: x in old(list) && x.key == key
      ensures r.Some? ==> |list| > 0 && list[0].key == key && list[0].data == r.value && list[0] in old(list)
      ensures r.Some? ==> list[1..] == Without(old(list), IsKey(key))
      ensures r.None? ==> list == old(list)
    {
      hide Distinct, Measured, Indexes, Total, Without;
      Located(list, index, key);
      if key !in index { return None; }
      var x := index[key];
      var i :| 0 <= i < |list| && list[i] == x;
      MoveToFront(list, index, i);
      WithoutOne(list, i);
      list := [x] + (list[..i] + list[i + 1..]);
      assert list[1..] == old(list[..i] + list[i + 1..]);
      return Some(x.data);
    }

    method Put(key: CacheKey, data: bytes)
      requires Valid()
      modifies this
      ensures Valid()
      ensures list == Fitting([Item(key, data, |data|)] + Without(old(list), IsKey(key)), capacity)
    {
      Erase(key);
      var x := Item(key, data, |data|);
      PushFront(list, index, x);
      used := used + |data|;
      index := index[key := x];
      list := [x] + list;
      Evict();
    }

    /** The erasing branch of `put`. */
    method Erase(key: CacheKey)
      requires Valid()
      modifies `list, `index, `used
      ensures Valid() && list == Without(old(list), IsKey(key)) && key !in index
    {
      WithoutProperties(list, IsKey(key));
      if key in index {
        var x := index[key];
        var i :| 0 <= i < |list| && list[i] == x;
        WithoutOne(list, i);
        EraseAt(i);
      } else {
        assert forall x :: x in list ==> x.key != key;
        NoneMatch(list, IsKey(key));
      }
    }

    method EvictLast()
      requires Valid() && |list| > 0
      modifies `list, `index, `used
      ensures Valid() && list == old(list)[..|old(list)| - 1]
    {
      hide Distinct, Measured, Indexes, Total;
      var last := list[|list| - 1];
      TotalAt(list, |list| - 1);
      DropLast(list, index);
      assert list[..|list| - 1] + list[|list|..] == list[..|list| - 1];
      used := used - last.size;
      index := index - {last.key};
      list := list[..|list| - 1];
    }

    /** Drops items from the back until the rest fits. */
    method Evict()
      requires Valid()
      modifies `list, `index, `used
      ensures Valid() && list == Fitting(old(list), capacity)
    {
      hide Distinct, Measured, Indexes, Total, Fitting;
      ghost var all := list;
      FittingIsLongest(all, capacity, |Fitting(all, capacity)|);
      while used > capacity && |list| > 0
        invariant Valid() && |Fitting(all, capacity)| <= |list| <= |all| && list == all[..|list|]
        decreases |list|
      {
        ghost var n := |list|;
        assert Fitting(all, capacity) == all[..|Fitting(all, capacity)|];
        assert |Fitting(all, capacity)| != n;
        EvictLast();
        assert list == all[..n - 1];
      }
      FittingIsLongest(all, capacity, |list|);
    }

    /** The erasing loop of `invalidatePath`. */
    method InvalidatePath(path: bytes)
      requires Valid()
      modifies `list, `index, `used
      ensures Valid() && list == Without(old(list), OnPath(path))
    {
      hide Distinct, Measured, Indexes, Total, Without;
      ghost var all := list;
      var i := 0;
      assert list[..0] + Without(list, OnPath(path)) == Without(list, OnPath(path)) && list[0..] == list;
      while i < |list|
        invariant 0 <= i <= |list| && Valid()
        invariant list[..i] + Without(list[i..], OnPath(path)) == Without(all, OnPath(path))
        decreases |list| - i
      {
        if list[i].key.path == path {
          WithoutErased(list, i, OnPath(path));
          EraseAt(i);
        } else {
          WithoutKept(list, i, OnPath(path));
          i := i + 1;
        }
      }
      WithoutEnd(list, OnPath(path));
    }

    method EraseAt(i: nat)
      requires Valid() && i < |list|
      modifies `list, `index, `used
      ensures Valid() && list == old(list)[..i] + old(list)[i + 1..]
    {
      hide Total, Without, Distinct, Measured, Indexes;
      var x := list[i];
      TotalAt(list, i);
      WithoutOne(list, i);
      WithoutProperties(list, IsKey(x.key));
      ErasedIndex(index, list, Without(list, IsKey(x.key)), x.key);
      used := used - x.size;
      index := index - {x.key};
      list := list[..i] + list[i + 1..];
    }
  }

  lemma ErasedIndex(m: map<CacheKey, Item>, list: seq<Item>, list': seq<Item>, key: CacheKey)
    requires Indexes(m, list) && forall x :: x in list' <==> x in list && x.key != key
    ensures Indexes(m - {key}, list')
  {
  }

  lemma TotalAt(list: seq<Item>, i: nat)
    requires i < |list|
    ensures Total(list) == Total(list[..i] + list[i + 1..]) + list[i].size
  {
    hide Total;
    assert list == list[..i] + ([list[i]] + list[i + 1..]);
    TotalConcat(list[..i], [list[i]] + list[i + 1..]);
    TotalFront(list[i], list[i + 1..]);
    TotalConcat(list[..i], list[i + 1..]);
  }

  lemma Located(list: seq<Item>, m: map<CacheKey, Item>, key: CacheKey)
    requires Indexes(m, list)
    ensures key in m ==> m[key] in list && m[key].key == key
    ensures key !in m ==> forall x :: x in list ==> x.key != key
  {
  }

  lemma MoveToFront(list: seq<Item>, m: map<CacheKey, Item>, i: nat)
    requires Distinct(list) && Measured(list) && Indexes(m, list) && i < |list|
    ensures var list' := [list[i]] + (list[..i] + list[i + 1..]);
            Distinct(list') && Measured(list') && Indexes(m, list') && Total(list') == Total(list)
  {
    hide Total, Indexes;
    TotalAt(list, i);
    var rest := list[..i] + list[i + 1..];
    TotalFront(list[i], rest);
    SameItems(list, i);
    SameIndex(m, list, [list[i]] + rest);
  }

  lemma SameItems(list: seq<Item>, i: nat)
    requires i < |list|
    ensures forall x :: x in [list[i]] + (list[..i] + list[i + 1..]) <==> x in list
  {
    assert list == list[..i] + ([list[i]] + list[i + 1..]);
  }

  lemma SameIndex(m: map<CacheKey, Item>, list: seq<Item>, list': seq<Item>)
    requires Indexes(m, list) && forall x :: x in list' <==> x in list
    ensures Indexes(m, list')
  {
  }

  lemma TotalFront(x: Item, rest: seq<Item>)
    ensures Total([x] + rest) == x.size + Total(rest)
  {
    assert ([x] + rest)[1..] == rest;
  }

  lemma WithoutErased(list: seq<Item>, i: nat, p: CacheKey -> bool)
    requires i < |list| && p(list[i].key)
    ensures var list' := list[..i] + list[i + 1..];
            list'[..i] + Without(list'[i..], p) == list[..i] + Without(list[i..], p)
  {
    assert list[i..][1..] == list[i + 1..];
    assert (list[..i] + list[i + 1..])[i..] == list[i + 1..];
  }

  lemma WithoutKept(list: seq<Item>, i: nat, p: CacheKey -> bool)
    requires i < |list| && !p(list[i].key)
    ensures list[..i + 1] + Without(list[i + 1..], p) == list[..i] + Without(list[i..], p)
  {
    assert list[i..][1..] == list[i + 1..];
  }

  lemma WithoutEnd(list: seq<Item>, p: CacheKey -> bool)
    ensures list[..|list|] + Without(list[|list|..], p) == list
  {
  }

  lemma PushFront(list: seq<Item>, m: map<CacheKey, Item>, x: Item)
    requires Distinct(list) && Measured(list) && Indexes(m, list) && x.key !in m && x.size == |x.data|
    ensures Distinct([x] + list) && Measured([x] + list) && Indexes(m[x.key := x], [x] + list)
    ensures Total([x] + list) == x.size + Total(list)
  {
    hide Total;
    TotalFront(x, list);
    PushIndex(list, m, x);
    assert forall i :: 0 <= i < |list| ==> list[i] in list && list[i].key != x.key;
  }

  lemma PushIndex(list: seq<Item>, m: map<CacheKey, Item>, x: Item)
    requires Indexes(m, list) && x.key !in m
    ensures Indexes(m[x.key := x], [x] + list)
  {
    assert forall y :: y in [x] + list <==> y == x || y in list;
  }

  lemma DropLast(list: seq<Item>, m: map<CacheKey, Item>)
    requires Distinct(list) && Measured(list) && Indexes(m, list) && |list| > 0
    ensures var list' := list[..|list| - 1];
            Distinct(list') && Measured(list') && Indexes(m - {list[|list| - 1].key}, list')
  {
    hide Indexes;
    DropIndex(list, m);
    assert forall x :: x in list[..|list| - 1] ==> x in list;
  }

  lemma DropIndex(list: seq<Item>, m: map<CacheKey, Item>)
    requires Distinct(list) && Indexes(m, list) && |list| > 0
    ensures Indexes(m - {list[|list| - 1].key}, list[..|list| - 1])
  {
    var n := |list| - 1;
    assert list == list[..n] + [list[n]];
  }
}
