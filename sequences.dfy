/**
 * Order-preserving filtering of sequences (`Array.prototype.filter` and the
 * push-if loops of the program), with the facts the model needs about it.
 */
module Sequences {

  /** The elements of `xs` that satisfy `p`, in order, each as often as it occurs. */
  function Keep<T>(xs: seq<T>, p: T -> bool): (r: seq<T>)
    ensures |r| <= |xs|
  {
    if xs == [] then []
    else Keep(xs[..|xs| - 1], p) + (if p(xs[|xs| - 1]) then [xs[|xs| - 1]] else [])
  }

  /** Filtering a concatenation filters each part. */
  lemma {:induction false} KeepAppend<T>(a: seq<T>, b: seq<T>, p: T -> bool)
    ensures Keep(a + b, p) == Keep(a, p) + Keep(b, p)
  {
    if b == [] {
      assert a + b == a;
    } else {
      var init := b[..|b| - 1];
      assert (a + b)[..|a + b| - 1] == a + init;
      KeepAppend(a, init, p);
    }
  }

  /** Filtering a sequence extended by one element. */
  lemma KeepSnoc<T>(xs: seq<T>, x: T, p: T -> bool)
    ensures Keep(xs + [x], p) == Keep(xs, p) + if p(x) then [x] else []
  {
    assert (xs + [x])[..|xs|] == xs;
  }

  /** Filtering one element. */
  lemma KeepOne<T>(x: T, p: T -> bool)
    ensures Keep([x], p) == if p(x) then [x] else []
  {
    assert [x][..0] == [];
  }

  /** A kept element keeps all its occurrences; a dropped one keeps none. */
  lemma {:induction false} KeepCount<T>(xs: seq<T>, p: T -> bool, x: T)
    ensures multiset(Keep(xs, p))[x] == if p(x) then multiset(xs)[x] else 0
  {
    if xs != [] {
      var init := xs[..|xs| - 1];
      assert xs == init + [xs[|xs| - 1]];
      KeepCount(init, p, x);
    }
  }

  /** Nothing is kept when nothing satisfies the filter. */
  lemma {:induction false} KeepNone<T>(xs: seq<T>, p: T -> bool)
    requires forall i :: 0 <= i < |xs| ==> !p(xs[i])
    ensures Keep(xs, p) == []
  {
    if xs != [] {
      KeepNone(xs[..|xs| - 1], p);
    }
  }

  /** An element that satisfies the filter is kept. */
  lemma KeepsAt<T>(xs: seq<T>, p: T -> bool, i: int)
    requires 0 <= i < |xs| && p(xs[i])
    ensures xs[i] in Keep(xs, p)
  {
    KeepCount(xs, p, xs[i]);
    assert xs[i] in multiset(xs);
    assert xs[i] in multiset(Keep(xs, p));
  }

  /** Two positions that satisfy the filter leave at least two elements. */
  lemma KeepTwo<T>(xs: seq<T>, p: T -> bool, i: int, j: int)
    requires 0 <= i < j < |xs| && p(xs[i]) && p(xs[j])
    ensures |Keep(xs, p)| >= 2
  {
    var front, back := xs[..j], xs[j..];
    assert xs == front + back;
    KeepAppend(front, back, p);
    assert front[i] == xs[i] && back[0] == xs[j];
    KeepsAt(front, p, i);
    KeepsAt(back, p, 0);
  }

  /** Filtering first by `q` can only lower how many elements satisfy `p`. */
  lemma {:induction false} KeepOfKeep<T>(xs: seq<T>, q: T -> bool, p: T -> bool)
    ensures |Keep(Keep(xs, q), p)| <= |Keep(xs, p)|
  {
    if xs != [] {
      var init, last := xs[..|xs| - 1], xs[|xs| - 1];
      assert xs == init + [last];
      KeepOfKeep(init, q, p);
      KeepSnoc(init, last, q);
      KeepSnoc(init, last, p);
      if q(last) {
        KeepSnoc(Keep(init, q), last, p);
      } else {
        assert Keep(init, q) + [] == Keep(init, q);
      }
    }
  }

  /** `a` is `b` with some elements left out, the rest in their order. */
  predicate IsSubsequence<T(==)>(a: seq<T>, b: seq<T>)
    decreases |b|
  {
    if a == [] then true
    else if b == [] then false
    else if a[|a| - 1] == b[|b| - 1] then IsSubsequence(a[..|a| - 1], b[..|b| - 1])
    else IsSubsequence(a, b[..|b| - 1])
  }

  /** A subsequence may be extended by an element at the end of both. */
  lemma {:induction false} SubsequenceSnoc<T>(a: seq<T>, b: seq<T>, x: T)
    requires IsSubsequence(a, b)
    ensures IsSubsequence(a + [x], b + [x])
  {
    assert (a + [x])[..|a|] == a;
    assert (b + [x])[..|b|] == b;
  }

  /** A subsequence of `b` is one of every extension of `b`. */
  lemma {:induction false} SubsequenceOfLonger<T>(a: seq<T>, b: seq<T>, x: T)
    requires IsSubsequence(a, b)
    ensures IsSubsequence(a, b + [x])
    decreases |b|, 1
  {
    assert (b + [x])[..|b|] == b;
    if a != [] && a[|a| - 1] == x {
      // match the last element of `a` against the earlier match in `b`
      var init := a[..|a| - 1];
      assert a == init + [x];
      SubsequenceDropLast(a, b);
      SubsequenceSnoc(init, b, x);
    }
  }

  /** Dropping the last element of a subsequence leaves a subsequence. */
  lemma {:induction false} SubsequenceDropLast<T>(a: seq<T>, b: seq<T>)
    requires a != [] && IsSubsequence(a, b)
    ensures IsSubsequence(a[..|a| - 1], b)
    decreases |b|, 0
  {
    var init := b[..|b| - 1];
    if a[|a| - 1] == b[|b| - 1] {
      SubsequenceOfLonger(a[..|a| - 1], init, b[|b| - 1]);
      assert init + [b[|b| - 1]] == b;
    } else {
      SubsequenceDropLast(a, init);
      SubsequenceOfLonger(a[..|a| - 1], init, b[|b| - 1]);
      assert init + [b[|b| - 1]] == b;
    }
  }

  /** What a filter keeps is a subsequence of its input. */
  lemma {:induction false} KeepIsSubsequence<T>(xs: seq<T>, p: T -> bool)
    ensures IsSubsequence(Keep(xs, p), xs)
  {
    if xs == [] {
    } else {
      var init, last := xs[..|xs| - 1], xs[|xs| - 1];
      assert xs == init + [last];
      KeepIsSubsequence(init, p);
      if p(last) {
        SubsequenceSnoc(Keep(init, p), init, last);
      } else {
        assert Keep(init, p) + [] == Keep(init, p);
        SubsequenceOfLonger(Keep(init, p), init, last);
      }
    }
  }

  lemma PrefixSnoc<T>(xs: seq<T>, i: int)
    requires 0 <= i < |xs|
    ensures xs[..i + 1] == xs[..i] + [xs[i]]
  {
  }

  lemma SeqAssoc<T>(x: seq<T>, y: seq<T>, z: seq<T>)
    ensures (x + y) + z == x + (y + z)
  {
  }
}
