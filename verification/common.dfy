/**
  Small generic building blocks shared by every module of the model:
  an optional value (the source's `T | null` and `field?: T`), an
  order-preserving filter (the source's `Array.prototype.filter`), and the
  subsequence relation used to state what filtering keeps.
 */
module Common {

  /** An optional value: JavaScript's `null`/`undefined` versus a present value. */
  datatype Option<+T> = None | Some(value: T)

  /** `a` can be obtained from `b` by deleting elements, keeping the order. */
  predicate IsSubsequence<T(==)>(a: seq<T>, b: seq<T>)
    decreases |b|
  {
    if a == [] then true
    else if b == [] then false
    else (a[0] == b[0] && IsSubsequence(a[1..], b[1..])) || IsSubsequence(a, b[1..])
  }

  /** Deleting elements never makes a sequence longer. */
  lemma {:induction false} SubsequenceLength<T>(a: seq<T>, b: seq<T>)
    requires IsSubsequence(a, b)
    ensures |a| <= |b|
    decreases |b|
  {
    if a != [] {
      if a[0] == b[0] && IsSubsequence(a[1..], b[1..]) {
        SubsequenceLength(a[1..], b[1..]);
      } else {
        SubsequenceLength(a, b[1..]);
      }
    }
  }

  /**
    The elements of `xs` that satisfy `keep`, in their original order, as
    JavaScript's `Array.prototype.filter` returns them.
   */
  function Filter<T(!new)>(xs: seq<T>, keep: T -> bool): (r: seq<T>)
    ensures |r| <= |xs|
    ensures IsSubsequence(r, xs)
    ensures forall x :: x in r <==> x in xs && keep(x)
    ensures forall x :: multiset(r)[x] == if keep(x) then multiset(xs)[x] else 0
    decreases |xs|
  {
    if xs == [] then []
    else
      var rest := Filter(xs[1..], keep);
      assert xs == [xs[0]] + xs[1..];
      assert forall x :: x in xs <==> x == xs[0] || x in xs[1..];
      assert multiset(xs) == multiset([xs[0]]) + multiset(xs[1..]);
      if keep(xs[0]) then
        assert multiset([xs[0]] + rest) == multiset([xs[0]]) + multiset(rest);
        [xs[0]] + rest
      else
        rest
  }

  /** A filter that every element passes returns its input unchanged. */
  lemma {:induction false} FilterKeepsAll<T(!new)>(xs: seq<T>, keep: T -> bool)
    requires forall i :: 0 <= i < |xs| ==> keep(xs[i])
    ensures Filter(xs, keep) == xs
    decreases |xs|
  {
    if xs != [] {
      FilterKeepsAll(xs[1..], keep);
    }
  }

  /**
    Filtering with a stricter predicate keeps a subsequence of what the looser
    predicate keeps.
   */
  lemma {:induction false} FilterMonotone<T(!new)>(xs: seq<T>, strict: T -> bool, loose: T -> bool)
    requires forall i :: 0 <= i < |xs| && strict(xs[i]) ==> loose(xs[i])
    ensures IsSubsequence(Filter(xs, strict), Filter(xs, loose))
    ensures |Filter(xs, strict)| <= |Filter(xs, loose)|
    decreases |xs|
  {
    if xs != [] {
      FilterMonotone(xs[1..], strict, loose);
      var s, l := Filter(xs[1..], strict), Filter(xs[1..], loose);
      if strict(xs[0]) {
        assert Filter(xs, strict) == [xs[0]] + s && Filter(xs, loose) == [xs[0]] + l;
        assert ([xs[0]] + s)[1..] == s;
        assert ([xs[0]] + l)[1..] == l;
      } else if loose(xs[0]) {
        assert Filter(xs, loose) == [xs[0]] + l;
        assert ([xs[0]] + l)[1..] == l;
        SubsequenceSkipHead(s, xs[0], l);
      }
      SubsequenceLength(Filter(xs, strict), Filter(xs, loose));
    }
  }

  /** A subsequence of `b` is also a subsequence of `[x] + b`. */
  lemma SubsequenceSkipHead<T>(a: seq<T>, x: T, b: seq<T>)
    requires IsSubsequence(a, b)
    ensures IsSubsequence(a, [x] + b)
  {
    assert ([x] + b)[1..] == b;
  }
}
