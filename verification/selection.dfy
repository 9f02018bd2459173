/** `Array.prototype.filter` over sequences, the order-preserving sub-sequence
    relation it establishes, and the algebra of chaining filters. */
module Selection {

  /** `s.filter(p)`: the elements of `s` that satisfy `p`, in their original
      order. */
  function Filter<T(!new)>(s: seq<T>, p: T -> bool): (r: seq<T>)
    ensures |r| <= |s|
    ensures forall x :: x in r <==> x in s && p(x)
    decreases |s|
  {
    if |s| == 0 then []
    else if p(s[0]) then [s[0]] + Filter(s[1..], p)
    else Filter(s[1..], p)
  }

  /** Filtering keeps every copy of a passing element and no copy of a
      failing one. */
  lemma {:induction false} FilterCounts<T(!new)>(s: seq<T>, p: T -> bool, x: T)
    ensures multiset(Filter(s, p))[x] == if p(x) then multiset(s)[x] else 0
    decreases |s|
  {
    if |s| > 0 {
      FilterCounts(s[1..], p, x);
      assert s == [s[0]] + s[1..];
      assert multiset(s) == multiset([s[0]]) + multiset(s[1..]);
      if p(s[0]) {
        assert multiset(Filter(s, p)) == multiset([s[0]]) + multiset(Filter(s[1..], p));
      }
    }
  }

  /** `idx` lists strictly increasing positions of `s` whose elements, read in
      that order, spell out `r`. */
  ghost predicate Embeds<T>(r: seq<T>, s: seq<T>, idx: seq<int>) {
    && |idx| == |r|
    && (forall k :: 0 <= k < |idx| ==> 0 <= idx[k] < |s| && s[idx[k]] == r[k])
    && (forall k, l :: 0 <= k < l < |idx| ==> idx[k] < idx[l])
  }

  /** `r` is obtained from `s` by deleting elements: every element comes from
      `s` and the relative order is kept. */
  ghost predicate IsSubsequence<T>(r: seq<T>, s: seq<T>) {
    exists idx :: Embeds(r, s, idx)
  }

  /** Every position in `t`, moved one to the right. */
  function Shift(t: seq<int>): (r: seq<int>)
    ensures |r| == |t|
    ensures forall k :: 0 <= k < |t| ==> r[k] == t[k] + 1
  {
    seq(|t|, k requires 0 <= k < |t| => t[k] + 1)
  }

  /** An embedding of `r` in the tail of `s` is, shifted right, an embedding
      in `s`, and can be extended by the head of `s`. */
  lemma EmbedsInTail<T>(r: seq<T>, s: seq<T>, t: seq<int>)
    requires |s| > 0 && Embeds(r, s[1..], t)
    ensures Embeds(r, s, Shift(t))
    ensures Embeds([s[0]] + r, s, [0] + Shift(t))
  {
    var shifted := Shift(t);
    var idx := [0] + shifted;
    forall k | 0 <= k < |shifted|
      ensures 0 <= shifted[k] < |s| && s[shifted[k]] == r[k]
    {
      assert s[1..][t[k]] == s[t[k] + 1];
    }
    forall k | 1 <= k < |idx|
      ensures idx[k] == shifted[k - 1] && ([s[0]] + r)[k] == r[k - 1]
    {
    }
  }

  /** The positions of `s` whose elements `Filter(s, p)` keeps; they embed
      the result in `s`. */
  function Kept<T(!new)>(s: seq<T>, p: T -> bool): (idx: seq<int>)
    ensures Embeds(Filter(s, p), s, idx)
    decreases |s|
  {
    if |s| == 0 then []
    else
      var tail := Kept(s[1..], p);
      EmbedsInTail(Filter(s[1..], p), s, tail);
      if p(s[0]) then [0] + Shift(tail) else Shift(tail)
  }

  /** Whatever `p` is, `Filter(s, p)` is a sub-sequence of `s`. */
  lemma FilterIsSubsequence<T(!new)>(s: seq<T>, p: T -> bool)
    ensures IsSubsequence(Filter(s, p), s)
  {
    var idx := Kept(s, p);
    assert Embeds(Filter(s, p), s, idx);
  }

  /** Filtering keeps a sequence unchanged exactly when all of its elements
      already satisfy the predicate. */
  lemma {:induction false} FilterUnchangedIff<T(!new)>(s: seq<T>, p: T -> bool)
    ensures Filter(s, p) == s <==> forall x :: x in s ==> p(x)
    decreases |s|
  {
    if |s| > 0 {
      var tail := Filter(s[1..], p);
      FilterUnchangedIff(s[1..], p);
      if !p(s[0]) {
        assert Filter(s, p) == tail;
        assert |tail| < |s|;
      } else {
        assert Filter(s, p) == [s[0]] + tail;
        assert s == [s[0]] + s[1..];
        assert Filter(s, p) == s <==> tail == s[1..];
      }
    }
  }

  /** Two filters in a row are one filter by their conjunction `r`. */
  lemma {:induction false} FilterFuse<T(!new)>(s: seq<T>, p: T -> bool, q: T -> bool, r: T -> bool)
    requires forall x :: x in s ==> r(x) == (p(x) && q(x))
    ensures Filter(Filter(s, p), q) == Filter(s, r)
    decreases |s|
  {
    if |s| > 0 {
      FilterFuse(s[1..], p, q, r);
      if p(s[0]) {
        assert Filter(s, p) == [s[0]] + Filter(s[1..], p);
        assert Filter(s, p)[1..] == Filter(s[1..], p);
      }
    }
  }

  /** Filtering depends only on which elements the predicate accepts. */
  lemma {:induction false} FilterExt<T(!new)>(s: seq<T>, p: T -> bool, q: T -> bool)
    requires forall x :: x in s ==> p(x) == q(x)
    ensures Filter(s, p) == Filter(s, q)
    decreases |s|
  {
    if |s| > 0 {
      FilterExt(s[1..], p, q);
    }
  }

  /** Filtering twice by the same predicate is filtering once. */
  lemma FilterIdempotent<T(!new)>(s: seq<T>, p: T -> bool)
    ensures Filter(Filter(s, p), p) == Filter(s, p)
  {
    FilterUnchangedIff(Filter(s, p), p);
  }

  /** The order in which two filters are chained does not matter. */
  lemma FilterCommute<T(!new)>(s: seq<T>, p: T -> bool, q: T -> bool)
    ensures Filter(Filter(s, p), q) == Filter(Filter(s, q), p)
  {
    var both := x => p(x) && q(x);
    FilterFuse(s, p, q, both);
    FilterFuse(s, q, p, both);
  }
}
