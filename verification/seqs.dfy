/** Sequence operations shared by the models: order-preserving filtering, the
    subsequence relation, and JavaScript's `Array.prototype.slice` index rules. */
module Seqs {

  function Min(a: int, b: int): int { if a <= b then a else b }

  function Max(a: int, b: int): int { if a >= b then a else b }

  /** `a` is obtained from `b` by deleting elements without reordering the rest.
      Matching greedily from the front is complete for this relation. */
  predicate IsSubseq<T(==)>(a: seq<T>, b: seq<T>)
    decreases |b|
  {
    if |a| == 0 then true
    else if |b| == 0 then false
    else if a[0] == b[0] then IsSubseq(a[1..], b[1..])
    else IsSubseq(a, b[1..])
  }

  /** Putting one more element in front of the larger sequence keeps the relation. */
  lemma {:induction false} SubseqCons<T>(a: seq<T>, t: seq<T>, x: T)
    requires IsSubseq(a, t)
    ensures IsSubseq(a, [x] + t)
    decreases |t|, 1
  {
    var b := [x] + t;
    assert b[1..] == t;
    if |a| > 0 && a[0] == x {
      SubseqTail(a, t);
    }
  }

  /** Dropping the first element of the smaller sequence keeps the relation. */
  lemma {:induction false} SubseqTail<T>(a: seq<T>, b: seq<T>)
    requires |a| > 0 && IsSubseq(a, b)
    ensures IsSubseq(a[1..], b)
    decreases |b|, 0
  {
    assert b == [b[0]] + b[1..];
    if a[0] == b[0] {
      SubseqCons(a[1..], b[1..], b[0]);
    } else {
      SubseqTail(a, b[1..]);
      SubseqCons(a[1..], b[1..], b[0]);
    }
  }

  /** Every sequence is a subsequence of itself. */
  lemma {:induction false} SubseqRefl<T>(s: seq<T>)
    ensures IsSubseq(s, s)
    decreases |s|
  {
    if |s| > 0 {
      SubseqRefl(s[1..]);
    }
  }

  /** `Array.prototype.filter`: the elements of `s` that satisfy `p`, in their
      original order, each as often as it occurs in `s`. */
  function Filter<T(==,!new)>(s: seq<T>, p: T -> bool): (r: seq<T>)
    ensures |r| <= |s|
    ensures forall x :: multiset(r)[x] == if p(x) then multiset(s)[x] else 0
    ensures IsSubseq(r, s)
    decreases |s|
  {
    if |s| == 0 then []
    else
      assert s == [s[0]] + s[1..];
      var rest := Filter(s[1..], p);
      if p(s[0]) then
        assert ([s[0]] + rest)[1..] == rest;
        [s[0]] + rest
      else
        SubseqCons(rest, s[1..], s[0]);
        rest
  }

  /** Filtering with a predicate every element satisfies changes nothing. */
  lemma {:induction false} FilterAll<T(!new)>(s: seq<T>, p: T -> bool)
    requires forall i :: 0 <= i < |s| ==> p(s[i])
    ensures Filter(s, p) == s
    decreases |s|
  {
    if |s| > 0 {
      FilterAll(s[1..], p);
    }
  }

  /** Filtering with a predicate no element satisfies leaves nothing. */
  lemma {:induction false} FilterNone<T(!new)>(s: seq<T>, p: T -> bool)
    requires forall i :: 0 <= i < |s| ==> !p(s[i])
    ensures Filter(s, p) == []
    decreases |s|
  {
    if |s| > 0 {
      FilterNone(s[1..], p);
    }
  }

  /** Two predicates that agree on the elements of `s` filter it alike. */
  lemma {:induction false} FilterCongruent<T(!new)>(s: seq<T>, p: T -> bool, q: T -> bool)
    requires forall i :: 0 <= i < |s| ==> p(s[i]) == q(s[i])
    ensures Filter(s, p) == Filter(s, q)
    decreases |s|
  {
    if |s| > 0 {
      FilterCongruent(s[1..], p, q);
    }
  }

  /** The position of the first occurrence of `x` in `s`. */
  function FirstIndex<T(==)>(s: seq<T>, x: T): (i: nat)
    requires x in s
    ensures i < |s| && s[i] == x && x !in s[..i]
    decreases |s|
  {
    if s[0] == x then 0
    else
      var j := FirstIndex(s[1..], x);
      assert s[..j + 1] == [s[0]] + s[1..][..j];
      j + 1
  }

  /** Appending an element leaves the first occurrence of every element
      already present where it was, and puts a new one last. */
  lemma {:induction false} FirstIndexSnoc<T>(s: seq<T>, t: T, x: T)
    requires x in s + [t]
    ensures x in s ==> FirstIndex(s + [t], x) == FirstIndex(s, x)
    ensures x !in s ==> FirstIndex(s + [t], x) == |s|
    decreases |s|
  {
    if |s| > 0 && s[0] != x {
      assert (s + [t])[1..] == s[1..] + [t];
      FirstIndexSnoc(s[1..], t, x);
    }
  }

  /** `s.slice(-n)` for n >= 1: the last `min(n, |s|)` elements. */
  function LastN<T>(s: seq<T>, n: nat): (r: seq<T>)
    ensures |r| == Min(n, |s|)
    ensures s == s[..|s| - |r|] + r
  {
    s[|s| - Min(n, |s|)..]
  }

  /** `s.slice(0, end)`: a negative `end` counts back from the end, and an `end`
      past the length stops at the length. */
  function SliceTo<T>(s: seq<T>, end: int): (r: seq<T>)
    ensures end >= 0 ==> |r| == Min(end, |s|)
    ensures end < 0 ==> |r| == Max(0, |s| + end)
    ensures r == s[..|r|]
  {
    if end < 0 then s[..Max(0, |s| + end)] else s[..Min(end, |s|)]
  }
}
