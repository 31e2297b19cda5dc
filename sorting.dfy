/**
 * `Array.prototype.sort` with a comparator, modelled as insertion sort:
 * each element, taken in array order, is placed before the first element
 * of the already sorted prefix that it compares below, and after all the
 * others. With a consistent comparator this is the stable sort the
 * language requires; with an inconsistent one the order is the engine's
 * choice, and this is the order binary insertion produces.
 */
module Sorting {
  import opened Sequences

  /** `x` inserted into `s` before the first element it compares below. */
  function Insert<T>(x: T, s: seq<T>, cmp: (T, T) -> int): seq<T>
  {
    if s == [] then [x]
    else if cmp(x, s[0]) < 0 then [x] + s
    else [s[0]] + Insert(x, s[1..], cmp)
  }

  /** The elements of `xs`, inserted one after the other from the first. */
  function Sort<T>(xs: seq<T>, cmp: (T, T) -> int): seq<T>
  {
    if xs == [] then []
    else Insert(xs[|xs| - 1], Sort(xs[..|xs| - 1], cmp), cmp)
  }

  /** Inserting places `x` somewhere in `s` and moves nothing else. */
  lemma {:induction false} InsertShape<T>(x: T, s: seq<T>, cmp: (T, T) -> int) returns (k: nat)
    ensures k <= |s| && Insert(x, s, cmp) == s[..k] + [x] + s[k..]
  {
    if s == [] {
      k := 0;
    } else if cmp(x, s[0]) < 0 {
      k := 0;
      assert s[..0] + [x] + s[0..] == [x] + s;
    } else {
      var tail := s[1..];
      var k' := InsertShape(x, tail, cmp);
      k := k' + 1;
      assert s[..k] == [s[0]] + tail[..k'];
      assert s[k..] == tail[k'..];
      assert [s[0]] + (tail[..k'] + [x] + tail[k'..]) == [s[0]] + tail[..k'] + [x] + tail[k'..];
    }
  }

  /** Sorting rearranges: every element keeps its number of occurrences. */
  lemma {:induction false} SortPermutes<T>(xs: seq<T>, cmp: (T, T) -> int)
    ensures multiset(Sort(xs, cmp)) == multiset(xs)
  {
    if xs != [] {
      var init, last := xs[..|xs| - 1], xs[|xs| - 1];
      assert xs == init + [last];
      SortPermutes(init, cmp);
      var s := Sort(init, cmp);
      var k := InsertShape(last, s, cmp);
      assert s == s[..k] + s[k..];
    }
  }

  /** Sorting keeps how many elements satisfy any filter. */
  lemma {:induction false} SortKeepsCount<T>(xs: seq<T>, cmp: (T, T) -> int, p: T -> bool)
    ensures |Keep(Sort(xs, cmp), p)| == |Keep(xs, p)|
  {
    if xs != [] {
      var init, last := xs[..|xs| - 1], xs[|xs| - 1];
      assert xs == init + [last];
      SortKeepsCount(init, cmp, p);
      var s := Sort(init, cmp);
      var k := InsertShape(last, s, cmp);
      assert s == s[..k] + s[k..];
      KeepAppend(s[..k], s[k..], p);
      KeepAppend(s[..k] + [last], s[k..], p);
      KeepAppend(s[..k], [last], p);
      KeepSnoc(init, last, p);
      KeepOne(last, p);
    }
  }

  /** `cmp` orders its arguments consistently: a total preorder, as the language asks of a comparator. */
  ghost predicate Consistent<T(!new)>(cmp: (T, T) -> int)
  {
    (forall a, b :: cmp(a, b) < 0 <==> cmp(b, a) > 0)
    && (forall a, b, c :: cmp(a, b) <= 0 && cmp(b, c) <= 0 ==> cmp(a, c) <= 0)
  }

  /** No element of `s` compares above a later one. */
  ghost predicate SortedBy<T>(s: seq<T>, cmp: (T, T) -> int)
  {
    forall i, j :: 0 <= i < j < |s| ==> cmp(s[i], s[j]) <= 0
  }

  /** The tail of a sorted sequence is sorted. */
  lemma SortedTail<T>(s: seq<T>, cmp: (T, T) -> int)
    requires s != [] && SortedBy(s, cmp)
    ensures SortedBy(s[1..], cmp)
  {
    var tail := s[1..];
    forall i, j | 0 <= i < j < |tail| ensures cmp(tail[i], tail[j]) <= 0 {
      assert tail[i] == s[i + 1] && tail[j] == s[j + 1];
    }
  }

  /** An element below the head of a sorted sequence may go in front of it. */
  lemma SortedCons<T>(x: T, s: seq<T>, cmp: (T, T) -> int)
    requires SortedBy(s, cmp)
    requires forall j :: 0 <= j < |s| ==> cmp(x, s[j]) <= 0
    ensures SortedBy([x] + s, cmp)
  {
    var r := [x] + s;
    forall i, j | 0 <= i < j < |r| ensures cmp(r[i], r[j]) <= 0 {
      assert r[j] == s[j - 1];
      if i > 0 {
        assert r[i] == s[i - 1];
      }
    }
  }

  /** An element below the head of a sorted sequence is below all of it. */
  lemma BelowHead<T(!new)>(x: T, s: seq<T>, cmp: (T, T) -> int)
    requires Consistent(cmp) && SortedBy(s, cmp)
    requires s != [] && cmp(x, s[0]) < 0
    ensures forall j :: 0 <= j < |s| ==> cmp(x, s[j]) <= 0
  {
    forall j | 0 <= j < |s| ensures cmp(x, s[j]) <= 0 {
      if j > 0 {
        assert cmp(s[0], s[j]) <= 0;
      }
    }
  }

  /** The head of a sorted sequence stays below everything after inserting an element not below it. */
  lemma HeadBelowRest<T>(x: T, s: seq<T>, cmp: (T, T) -> int)
    requires SortedBy(s, cmp) && s != [] && cmp(s[0], x) <= 0
    ensures forall j :: 0 <= j < |Insert(x, s[1..], cmp)| ==> cmp(s[0], Insert(x, s[1..], cmp)[j]) <= 0
  {
    var tail := s[1..];
    var k := InsertShape(x, tail, cmp);
    var rest := Insert(x, tail, cmp);
    forall j | 0 <= j < |rest| ensures cmp(s[0], rest[j]) <= 0 {
      if j < k {
        assert rest[j] == tail[j] == s[j + 1];
      } else if j > k {
        assert rest[j] == tail[j - 1] == s[j];
      }
    }
  }

  lemma {:induction false} InsertSorted<T(!new)>(x: T, s: seq<T>, cmp: (T, T) -> int)
    requires Consistent(cmp) && SortedBy(s, cmp)
    ensures SortedBy(Insert(x, s, cmp), cmp)
  {
    if s != [] {
      if cmp(x, s[0]) < 0 {
        BelowHead(x, s, cmp);
        SortedCons(x, s, cmp);
      } else {
        assert cmp(s[0], x) <= 0;
        SortedTail(s, cmp);
        InsertSorted(x, s[1..], cmp);
        HeadBelowRest(x, s, cmp);
        SortedCons(s[0], Insert(x, s[1..], cmp), cmp);
      }
    }
  }

  /** With a consistent comparator the result is sorted. */
  lemma {:induction false} SortSorted<T(!new)>(xs: seq<T>, cmp: (T, T) -> int)
    requires Consistent(cmp)
    ensures SortedBy(Sort(xs, cmp), cmp)
  {
    if xs != [] {
      SortSorted(xs[..|xs| - 1], cmp);
      InsertSorted(xs[|xs| - 1], Sort(xs[..|xs| - 1], cmp), cmp);
    }
  }
}
