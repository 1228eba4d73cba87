/** Order-preserving filters over sequences (`Array.prototype.filter`, SQL WHERE over ordered rows). */
module Seqs {

  /** The elements of `xs` that satisfy `p`, in their original order. */
  function Keep<T(!new)>(xs: seq<T>, p: T -> bool): (r: seq<T>)
    ensures |r| <= |xs|
    ensures forall x :: x in r <==> x in xs && p(x)
    ensures multiset(r) <= multiset(xs)
  {
    if xs == [] then []
    else
      var rest := Keep(xs[..|xs| - 1], p);
      assert xs == xs[..|xs| - 1] + [xs[|xs| - 1]];
      if p(xs[|xs| - 1]) then rest + [xs[|xs| - 1]] else rest
  }

  /** Filtering commutes with concatenation: the kept elements keep their relative order. */
  lemma {:induction false} KeepConcat<T(!new)>(a: seq<T>, b: seq<T>, p: T -> bool)
    ensures Keep(a + b, p) == Keep(a, p) + Keep(b, p)
    decreases |b|
  {
    if b == [] {
      assert a + b == a;
    } else {
      var b' := b[..|b| - 1];
      assert (a + b)[..|a + b| - 1] == a + b';
      assert (a + b)[|a + b| - 1] == b[|b| - 1];
      KeepConcat(a, b', p);
    }
  }

  /** Splitting by a predicate and its negation loses and duplicates nothing. */
  lemma {:induction false} KeepPartition<T(!new)>(xs: seq<T>, p: T -> bool, q: T -> bool)
    requires forall x :: q(x) == !p(x)
    ensures multiset(Keep(xs, p) + Keep(xs, q)) == multiset(xs)
  {
    if xs != [] {
      var init, x := xs[..|xs| - 1], xs[|xs| - 1];
      KeepPartition(init, p, q);
      var kp, kq := Keep(init, p), Keep(init, q);
      MultisetSnoc(xs);
      assert multiset(kp + kq) == multiset(kp) + multiset(kq);
      assert multiset(Keep(xs, p) + Keep(xs, q)) == multiset(Keep(xs, p)) + multiset(Keep(xs, q));
      if p(x) {
        assert Keep(xs, p) == kp + [x] && Keep(xs, q) == kq;
        assert multiset(kp + [x]) == multiset(kp) + multiset{x};
      } else {
        assert Keep(xs, p) == kp && Keep(xs, q) == kq + [x];
        assert multiset(kq + [x]) == multiset(kq) + multiset{x};
      }
    }
  }

  /** Filtering by a predicate every element satisfies keeps the whole sequence. */
  lemma {:induction false} KeepAll<T(!new)>(xs: seq<T>, p: T -> bool)
    requires forall i :: 0 <= i < |xs| ==> p(xs[i])
    ensures Keep(xs, p) == xs
  {
    if xs != [] {
      var init := xs[..|xs| - 1];
      KeepAll(init, p);
      assert p(xs[|xs| - 1]);
      assert init + [xs[|xs| - 1]] == xs;
    }
  }

  /** Taking off the last element takes one copy of it out of the multiset. */
  lemma MultisetSnoc<T>(xs: seq<T>)
    requires xs != []
    ensures multiset(xs) == multiset(xs[..|xs| - 1]) + multiset{xs[|xs| - 1]}
  {
    assert xs == xs[..|xs| - 1] + [xs[|xs| - 1]];
  }
}
