/** Array.prototype.filter over sequences, with the facts the model relies on. */
module Seqs {

  /** The elements of `s` that satisfy `p`, in their original order. */
  function Filter<T(!new)>(s: seq<T>, p: T -> bool): (r: seq<T>)
    ensures |r| <= |s|
    ensures forall x :: x in r <==> x in s && p(x)
    ensures multiset(r) <= multiset(s)
    ensures (forall x :: x in s ==> p(x)) ==> r == s
    decreases |s|
  {
    if s == [] then []
    else
      assert s == [s[0]] + s[1..];
      (if p(s[0]) then [s[0]] else []) + Filter(s[1..], p)
  }

  /** Filtering distributes over concatenation: the kept elements stay in their relative order. */
  lemma {:induction false} FilterConcat<T(!new)>(a: seq<T>, b: seq<T>, p: T -> bool)
    ensures Filter(a + b, p) == Filter(a, p) + Filter(b, p)
    decreases |a|
  {
    if a == [] {
      assert a + b == b;
    } else {
      assert (a + b)[0] == a[0];
      assert (a + b)[1..] == a[1..] + b;
      FilterConcat(a[1..], b, p);
    }
  }

  /** Filtering twice with the same predicate is filtering once. */
  lemma {:induction false} FilterIdempotent<T(!new)>(s: seq<T>, p: T -> bool)
    ensures Filter(Filter(s, p), p) == Filter(s, p)
  {
    var r := Filter(s, p);
    assert forall x :: x in r ==> p(x);
  }

  /** A predicate implied by another keeps at least as many elements. */
  lemma {:induction false} FilterWeaker<T(!new)>(s: seq<T>, p: T -> bool, q: T -> bool)
    requires forall x :: x in s && p(x) ==> q(x)
    ensures |Filter(s, p)| <= |Filter(s, q)|
    decreases |s|
  {
    if s != [] {
      FilterWeaker(s[1..], p, q);
    }
  }

  /** Complementary predicates split a sequence: the two counts add up to its length. */
  lemma {:induction false} FilterSplit<T(!new)>(s: seq<T>, p: T -> bool, q: T -> bool)
    requires forall x :: x in s ==> (p(x) <==> !q(x))
    ensures |Filter(s, p)| + |Filter(s, q)| == |s|
    decreases |s|
  {
    if s != [] {
      FilterSplit(s[1..], p, q);
    }
  }

  /** A predicate that holds exactly when one of two exclusive ones does keeps both their counts together. */
  lemma {:induction false} FilterDisjointUnion<T(!new)>(s: seq<T>, p: T -> bool, q: T -> bool, r: T -> bool)
    requires forall x :: (r(x) <==> p(x) || q(x)) && !(p(x) && q(x))
    ensures |Filter(s, r)| == |Filter(s, p)| + |Filter(s, q)|
    decreases |s|
  {
    if s != [] {
      FilterDisjointUnion(s[1..], p, q, r);
    }
  }

  /** Nothing is kept exactly when no element satisfies `p`. */
  lemma FilterEmpty<T(!new)>(s: seq<T>, p: T -> bool)
    ensures |Filter(s, p)| == 0 <==> forall x :: x in s ==> !p(x)
  {
    var r := Filter(s, p);
    if |r| != 0 {
      assert r[0] in r;
    }
  }
}
