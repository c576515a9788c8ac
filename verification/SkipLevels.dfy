/**
 The shape of a skip list, without pointers: `h[p]` is the number of levels the node at position
 `p` takes part in, and `Next(h, p, i)` is where its level-`i` link must lead.
 */
module SkipLevels {

  /** The first position after `p` whose node reaches level `i`, or `|h|`. */
  function Next(h: seq<nat>, p: nat, i: nat): (q: nat)
    requires p < |h|
    ensures p < q <= |h|
    ensures forall r :: p < r < q ==> h[r] <= i
    ensures q < |h| ==> h[q] > i
    decreases |h| - p
  {
    if p + 1 == |h| || h[p + 1] > i then p + 1 else Next(h, p + 1, i)
  }

  /** Those three facts pin the position down. */
  lemma {:induction false} NextUnique(h: seq<nat>, p: nat, i: nat, q: nat)
    requires p < q <= |h|
    requires forall r :: p < r < q ==> h[r] <= i
    requires q < |h| ==> h[q] > i
    ensures Next(h, p, i) == q
  {
    var n := Next(h, p, i);
    assert !(n < q) && !(q < n);
  }

  /** A node of height `t` inserted right after position `k`. */
  function Insert<T>(s: seq<T>, k: nat, t: T): (r: seq<T>)
    requires k < |s|
    ensures |r| == |s| + 1 && r[k + 1] == t
    ensures forall p :: 0 <= p <= k ==> r[p] == s[p]
    ensures forall p :: k + 1 < p < |r| ==> r[p] == s[p - 1]
  {
    s[..k + 1] + [t] + s[k + 1..]
  }

  /** Where a position goes when a node is inserted after `k`. */
  function Moved(k: nat, p: nat): nat {
    if p <= k then p else p + 1
  }

  lemma NextOfInserted(h: seq<nat>, k: nat, t: nat, i: nat)
    requires k < |h|
    ensures Next(Insert<nat>(h, k, t), k + 1, i) == Next(h, k, i) + 1
  {
    var h' := Insert<nat>(h, k, t);
    var q := Next(h, k, i) + 1;
    forall r | k + 1 < r < q ensures h'[r] <= i { assert h'[r] == h[r - 1]; }
    NextUnique(h', k + 1, i, q);
  }

  /** Links of other nodes keep their target unless they jump over the new node at a level it has. */
  lemma NextOfOther(h: seq<nat>, k: nat, t: nat, i: nat, p: nat)
    requires k < |h| && p < |h|
    ensures Next(Insert<nat>(h, k, t), Moved(k, p), i)
         == if p <= k < Next(h, p, i) && t > i then k + 1 else Moved(k, Next(h, p, i))
  {
    var h' := Insert<nat>(h, k, t);
    var n := Next(h, p, i);
    var q := if p <= k < n && t > i then k + 1 else Moved(k, n);
    forall r | Moved(k, p) < r < q
      ensures h'[r] <= i
    {
      if r <= k { assert h'[r] == h[r]; }
      else if r > k + 1 { assert h'[r] == h[r - 1]; }
    }
    NextUnique(h', Moved(k, p), i, q);
  }

  /** `u` is the last position up to `k` that reaches level `i`. */
  predicate Predecessor(h: seq<nat>, k: nat, i: nat, u: nat) {
    u <= k < |h| && h[u] > i && Next(h, u, i) > k
  }

  lemma PredecessorNext(h: seq<nat>, k: nat, i: nat, u: nat)
    requires Predecessor(h, k, i, u)
    ensures Next(h, k, i) == Next(h, u, i)
  {
    NextUnique(h, k, i, Next(h, u, i));
  }

  lemma PredecessorUnique(h: seq<nat>, k: nat, i: nat, u: nat, p: nat)
    requires Predecessor(h, k, i, u) && p <= k && h[p] > i && p != u
    ensures Next(h, p, i) <= u
  {
    var n, m := Next(h, p, i), Next(h, u, i);
    assert p < u;
  }
}
