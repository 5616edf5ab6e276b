/**
 * The JavaScript array primitives the board is built from: `filter`, with the
 * order-preservation it promises, and `indexOf`.
 */
module Arrays {

  /** The elements of `a` occur in `b` in the same order, possibly with gaps. */
  predicate Subsequence<T(==)>(a: seq<T>, b: seq<T>)
    decreases |b|
  {
    || a == []
    || (b != [] && ((a[0] == b[0] && Subsequence(a[1..], b[1..])) || Subsequence(a, b[1..])))
  }

  /**
   * `xs.filter(p)`: the elements of `xs` that satisfy `p`, each as often as it
   * occurs in `xs`, in their order in `xs`.
   */
  function Filter<T(==,!new)>(xs: seq<T>, p: T -> bool): (r: seq<T>)
    ensures Subsequence(r, xs)
    ensures forall x :: multiset(r)[x] == if p(x) then multiset(xs)[x] else 0
    ensures forall x :: x in r <==> x in xs && p(x)
  {
    if xs == [] then
      []
    else
      var rest := Filter(xs[1..], p);
      assert xs == [xs[0]] + xs[1..];
      if p(xs[0]) then
        assert ([xs[0]] + rest)[1..] == rest;
        [xs[0]] + rest
      else
        rest
  }

  /** Filtering with a test every element passes gives back the same array. */
  lemma {:induction false} FilterKeepsAll<T(!new)>(xs: seq<T>, p: T -> bool)
    requires forall x :: x in xs ==> p(x)
    ensures Filter(xs, p) == xs
  {
    if xs != [] {
      FilterKeepsAll(xs[1..], p);
    }
  }

  /** Filtering twice with the same test is filtering once. */
  lemma FilterIdempotent<T(!new)>(xs: seq<T>, p: T -> bool)
    ensures Filter(Filter(xs, p), p) == Filter(xs, p)
  {
    FilterKeepsAll(Filter(xs, p), p);
  }

  /** A subsequence never holds an element more often than the whole. */
  lemma {:induction false} SubsequenceMultiset<T>(a: seq<T>, b: seq<T>)
    requires Subsequence(a, b)
    ensures multiset(a) <= multiset(b)
    decreases |b|
  {
    if a != [] {
      assert b == [b[0]] + b[1..];
      if a[0] == b[0] && Subsequence(a[1..], b[1..]) {
        SubsequenceMultiset(a[1..], b[1..]);
        assert a == [a[0]] + a[1..];
      } else {
        SubsequenceMultiset(a, b[1..]);
      }
    }
  }

  /**
   * The contract of `Filter` determines its result: an order-preserving
   * selection of `xs` that holds exactly the elements passing `p`, as often as
   * `xs` holds them, is `Filter(xs, p)`.
   */
  lemma {:induction false} FilterUnique<T(!new)>(xs: seq<T>, p: T -> bool, r: seq<T>)
    requires Subsequence(r, xs)
    requires forall x :: multiset(r)[x] == if p(x) then multiset(xs)[x] else 0
    ensures r == Filter(xs, p)
    decreases |xs|
  {
    if xs == [] {
      assert r == [];
    } else {
      var x0 := xs[0];
      assert xs == [x0] + xs[1..];
      if r != [] && r[0] == x0 && Subsequence(r[1..], xs[1..]) {
        assert r == [x0] + r[1..];
        assert p(x0) by {
          assert multiset(r)[x0] > 0;
        }
        FilterUnique(xs[1..], p, r[1..]);
      } else {
        assert Subsequence(r, xs[1..]);
        SubsequenceMultiset(r, xs[1..]);
        assert !p(x0) by {
          assert multiset(r)[x0] <= multiset(xs[1..])[x0] < multiset(xs)[x0];
        }
        FilterUnique(xs[1..], p, r);
      }
    }
  }

  /** `xs.indexOf(x)`: the first position of `x` in `xs`, or -1 when absent. */
  function IndexOf<T(==)>(xs: seq<T>, x: T): (r: int)
    ensures -1 <= r < |xs|
    ensures r == -1 <==> x !in xs
    ensures 0 <= r ==> xs[r] == x && x !in xs[..r]
  {
    if xs == [] then
      -1
    else if xs[0] == x then
      0
    else
      var k := IndexOf(xs[1..], x);
      assert k >= 0 ==> xs[..k + 1] == [xs[0]] + xs[1..][..k];
      if k == -1 then -1 else k + 1
  }
}
