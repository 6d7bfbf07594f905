/** Sequence operations shared by the server and the client: removing one position
    (`filter((_, i) => i !== index)`) and de-duplication (`Array.from(new Set(xs))`). */
module Seqs {

  predicate NoDups<T(==)>(xs: seq<T>) {
    forall i, j :: 0 <= i < j < |xs| ==> xs[i] != xs[j]
  }

  /** The position of the first occurrence of `x`. */
  function FirstIndex<T(==)>(xs: seq<T>, x: T): (k: nat)
    requires x in xs
    ensures k < |xs| && xs[k] == x
    ensures forall j :: 0 <= j < k ==> xs[j] != x
  {
    if xs[0] == x then 0 else 1 + FirstIndex(xs[1..], x)
  }

  lemma {:induction false} FirstIndexInPrefix<T>(a: seq<T>, b: seq<T>, x: T)
    requires x in a
    ensures FirstIndex(a + b, x) == FirstIndex(a, x)
  {
    var k := FirstIndex(a, x);
    var m := FirstIndex(a + b, x);
    assert (a + b)[k] == x;
    assert m <= k;
    assert a[m] == x;
  }

  /** `xs.filter((_, i) => i !== k)`: the element at position `k` is dropped, every other
      element keeps its relative order; an index outside the sequence changes nothing. */
  function RemoveAt<T>(xs: seq<T>, k: int): (r: seq<T>)
    ensures 0 <= k < |xs| ==> r == xs[..k] + xs[k + 1..]
    ensures !(0 <= k < |xs|) ==> r == xs
  {
    if |xs| == 0 then []
    else
      var last := xs[|xs| - 1];
      var front := RemoveAt(xs[..|xs| - 1], k);
      if k == |xs| - 1 then front else front + [last]
  }

  /** `Array.from(new Set(xs))`: the first occurrence of each value, in the order the
      first occurrences appear. */
  function Dedup<T(==)>(xs: seq<T>): (r: seq<T>)
    ensures NoDups(r)
    ensures forall i :: 0 <= i < |r| ==> r[i] in xs
    ensures forall i :: 0 <= i < |xs| ==> xs[i] in r
    ensures |r| <= |xs|
  {
    if |xs| == 0 then []
    else
      var front := Dedup(xs[..|xs| - 1]);
      var last := xs[|xs| - 1];
      if last in front then front else front + [last]
  }

  /** The kept values are listed in the order of their first occurrence. */
  lemma {:induction false} DedupKeepsFirstOccurrenceOrder<T>(xs: seq<T>)
    ensures forall i, j :: 0 <= i < j < |Dedup(xs)| ==>
      FirstIndex(xs, Dedup(xs)[i]) < FirstIndex(xs, Dedup(xs)[j])
  {
    if |xs| > 0 {
      var init := xs[..|xs| - 1];
      var last := xs[|xs| - 1];
      assert xs == init + [last];
      DedupKeepsFirstOccurrenceOrder(init);
      FirstIndicesAfterAppend(init, last);
      if last !in Dedup(init) {
        NewLastKeepsOrder(init, last);
      }
    }
  }

  /** Appending a value leaves the first occurrences of the values already present where
      they were; a new value first occurs at the end. */
  lemma FirstIndicesAfterAppend<T>(init: seq<T>, last: T)
    ensures forall y :: y in init ==> FirstIndex(init + [last], y) == FirstIndex(init, y)
    ensures last !in init ==> FirstIndex(init + [last], last) == |init|
  {
    forall y | y in init
      ensures FirstIndex(init + [last], y) == FirstIndex(init, y)
    {
      FirstIndexInPrefix(init, [last], y);
    }
  }

  /** One step of the order proof: a new last value joins the end of the kept values. */
  lemma NewLastKeepsOrder<T>(init: seq<T>, last: T)
    requires last !in Dedup(init)
    requires forall i, j :: 0 <= i < j < |Dedup(init)| ==>
      FirstIndex(init, Dedup(init)[i]) < FirstIndex(init, Dedup(init)[j])
    requires forall y :: y in init ==> FirstIndex(init + [last], y) == FirstIndex(init, y)
    requires last !in init ==> FirstIndex(init + [last], last) == |init|
    ensures forall i, j :: 0 <= i < j < |Dedup(init) + [last]| ==>
      FirstIndex(init + [last], (Dedup(init) + [last])[i]) < FirstIndex(init + [last], (Dedup(init) + [last])[j])
  {
    var xs := init + [last];
    var front := Dedup(init);
    var r := front + [last];
    assert last !in init;
    forall i, j | 0 <= i < j < |r|
      ensures FirstIndex(xs, r[i]) < FirstIndex(xs, r[j])
    {
      assert r[i] == front[i] && front[i] in init;
      if j < |front| {
        assert r[j] == front[j] && front[j] in init;
      }
    }
  }

  /** A sequence without duplicates is its own de-duplication. */
  lemma {:induction false} DedupOfDistinct<T>(xs: seq<T>)
    requires NoDups(xs)
    ensures Dedup(xs) == xs
  {
    if |xs| > 0 {
      var init := xs[..|xs| - 1];
      DedupOfDistinct(init);
      assert xs[|xs| - 1] !in init;
      assert xs == init + [xs[|xs| - 1]];
    }
  }

  /** De-duplicating `a + b` for a duplicate-free `a` keeps `a` in front, unchanged. */
  lemma {:induction false} DedupKeepsDistinctPrefix<T>(a: seq<T>, b: seq<T>)
    requires NoDups(a)
    ensures |Dedup(a + b)| >= |a| && Dedup(a + b)[..|a|] == a
    decreases |b|
  {
    if |b| == 0 {
      assert a + b == a;
      DedupOfDistinct(a);
    } else {
      var init := b[..|b| - 1];
      DedupKeepsDistinctPrefix(a, init);
      assert (a + b)[..|a + b| - 1] == a + init;
    }
  }

  /** Appending under a cap: a list already holding `cap` or more elements stays as it is. */
  function AppendBelowCap<T>(xs: seq<T>, x: T, cap: nat): (r: seq<T>)
    ensures |xs| >= cap ==> r == xs
    ensures |xs| < cap ==> r == xs + [x]
  {
    if |xs| >= cap then xs else xs + [x]
  }

  /** A value appended below the cap is the last element, so removing that position (the
      dialogs' remove button) gives the list back. */
  lemma AppendBelowCapUndone<T>(xs: seq<T>, x: T, cap: nat)
    requires |xs| < cap
    ensures |AppendBelowCap(xs, x, cap)| == |xs| + 1
    ensures RemoveAt(AppendBelowCap(xs, x, cap), |xs|) == xs
  {
    assert (xs + [x])[..|xs|] == xs;
  }

  /** Appending several values one at a time under the same cap. */
  function AppendAllBelowCap<T>(xs: seq<T>, ys: seq<T>, cap: nat): seq<T>
    decreases |ys|
  {
    if |ys| == 0 then xs else AppendAllBelowCap(AppendBelowCap(xs, ys[0], cap), ys[1..], cap)
  }

  /** A list that starts within the cap stays within it, keeps what it held in front, and
      fills up to the cap or takes every value. */
  lemma {:induction false} AppendAllStaysCapped<T>(xs: seq<T>, ys: seq<T>, cap: nat)
    requires |xs| <= cap
    ensures var r := AppendAllBelowCap(xs, ys, cap);
      && |xs| <= |r| <= cap
      && r[..|xs|] == xs
      && |r| == if |xs| + |ys| <= cap then |xs| + |ys| else cap
    decreases |ys|
  {
    if |ys| > 0 {
      var next := AppendBelowCap(xs, ys[0], cap);
      AppendAllStaysCapped(next, ys[1..], cap);
      var r := AppendAllBelowCap(next, ys[1..], cap);
      assert next[..|xs|] == xs;
      assert r[..|xs|] == r[..|next|][..|xs|];
    }
  }

  /** `xs.filter((a) => a !== x)`: every occurrence of `x` goes, every other element keeps
      its multiplicity and its order. */
  function RemoveAll<T(==)>(xs: seq<T>, x: T): (r: seq<T>)
    ensures x !in r
    ensures |r| <= |xs|
  {
    if |xs| == 0 then []
    else
      var front := RemoveAll(xs[..|xs| - 1], x);
      var last := xs[|xs| - 1];
      if last == x then front else front + [last]
  }

  lemma {:induction false} RemoveAllCounts<T>(xs: seq<T>, x: T)
    ensures multiset(RemoveAll(xs, x)) == multiset(xs)[x := 0]
  {
    if |xs| > 0 {
      RemoveAllCounts(xs[..|xs| - 1], x);
      assert xs == xs[..|xs| - 1] + [xs[|xs| - 1]];
    }
  }

  lemma {:induction false} RemoveAllKeepsOrder<T>(a: seq<T>, b: seq<T>, x: T)
    ensures RemoveAll(a + b, x) == RemoveAll(a, x) + RemoveAll(b, x)
    decreases |b|
  {
    if |b| == 0 {
      assert a + b == a;
    } else {
      var ab := a + b;
      var b' := b[..|b| - 1];
      var y := b[|b| - 1];
      assert ab[..|ab| - 1] == a + b';
      assert ab[|ab| - 1] == y;
      RemoveAllKeepsOrder(a, b', x);
      var left, right := RemoveAll(a, x), RemoveAll(b', x);
      if y != x {
        assert RemoveAll(ab, x) == (left + right) + [y];
        assert RemoveAll(b, x) == right + [y];
        assert (left + right) + [y] == left + (right + [y]);
      } else {
        assert RemoveAll(ab, x) == left + right;
        assert RemoveAll(b, x) == right;
      }
    }
  }

  /** `xs.filter(p)`: the elements that satisfy `p`, in their order. */
  function Filter<T>(xs: seq<T>, p: T -> bool): (r: seq<T>)
    ensures |r| <= |xs|
  {
    if |xs| == 0 then []
    else
      var front := Filter(xs[..|xs| - 1], p);
      var last := xs[|xs| - 1];
      if p(last) then front + [last] else front
  }

  lemma {:induction false} FilterMembers<T>(xs: seq<T>, p: T -> bool)
    ensures forall x :: x in Filter(xs, p) <==> x in xs && p(x)
  {
    if |xs| > 0 {
      FilterMembers(xs[..|xs| - 1], p);
      assert xs == xs[..|xs| - 1] + [xs[|xs| - 1]];
    }
  }

  /** Each element that satisfies `p` is kept as often as it occurs; the others vanish. */
  lemma {:induction false} FilterCounts<T>(xs: seq<T>, p: T -> bool)
    ensures forall x :: multiset(Filter(xs, p))[x] == if p(x) then multiset(xs)[x] else 0
  {
    if |xs| > 0 {
      FilterCounts(xs[..|xs| - 1], p);
      assert xs == xs[..|xs| - 1] + [xs[|xs| - 1]];
    }
  }

  /** Filtering a concatenation filters each part and keeps them in order. */
  lemma {:induction false} FilterKeepsOrder<T>(a: seq<T>, b: seq<T>, p: T -> bool)
    ensures Filter(a + b, p) == Filter(a, p) + Filter(b, p)
    decreases |b|
  {
    if |b| == 0 {
      assert a + b == a;
    } else {
      var ab := a + b;
      var b' := b[..|b| - 1];
      var x := b[|b| - 1];
      assert ab[..|ab| - 1] == a + b';
      assert ab[|ab| - 1] == x;
      FilterKeepsOrder(a, b', p);
      var left, right := Filter(a, p), Filter(b', p);
      if p(x) {
        assert (left + right) + [x] == left + (right + [x]);
      }
    }
  }

  /** A one-element list is kept iff its element satisfies `p`. */
  lemma FilterSingle<T>(x: T, p: T -> bool)
    ensures Filter([x], p) == if p(x) then [x] else []
  {
    assert [x][..0] == [];
  }
}
