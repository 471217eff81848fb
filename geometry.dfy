/**
 * Pointer/rectangle containment, the two drag-confirmation thresholds, and
 * the order-preserving filters that the drop-zone code builds from them.
 */
module Geometry {
  import opened Dom

  /** Minimum pointer displacement, in pixels, that turns a press into a drag. */
  const DragThreshold: int := 5

  function Abs(n: int): (r: nat)
    ensures r == n || r == -n
  {
    if n < 0 then -n else n
  }

  /** Inclusive on all four edges: touching an edge counts as a collision. */
  predicate Contains(r: Rect, x: int, y: int) {
    r.left <= x <= r.right && r.top <= y <= r.bottom
  }

  /** Legacy policy: the sum of the axis deltas reaches the threshold. */
  predicate SumThreshold(press: MouseEvent, e: MouseEvent) {
    Abs(e.clientX - press.clientX) + Abs(e.clientY - press.clientY) >= DragThreshold
  }

  /** Current policy: each axis delta reaches the threshold on its own. */
  predicate PerAxisThreshold(press: MouseEvent, e: MouseEvent) {
    Abs(e.clientX - press.clientX) >= DragThreshold && Abs(e.clientY - press.clientY) >= DragThreshold
  }

  /** `a` can be obtained from `b` by deleting elements (matched greedily from the end). */
  predicate IsSubsequence<T(==)>(a: seq<T>, b: seq<T>)
    decreases |b|
  {
    if a == [] then true
    else if b == [] then false
    else if a[|a| - 1] == b[|b| - 1] then IsSubsequence(a[..|a| - 1], b[..|b| - 1])
    else IsSubsequence(a, b[..|b| - 1])
  }

  predicate NoDuplicates<T(==)>(s: seq<T>) {
    forall i, j :: 0 <= i < j < |s| ==> s[i] != s[j]
  }

  lemma {:induction false} SubsequenceMembers<T>(a: seq<T>, b: seq<T>)
    requires IsSubsequence(a, b)
    ensures forall x :: x in a ==> x in b
    decreases |b|
  {
    if a != [] && b != [] {
      var a', b' := a[..|a| - 1], b[..|b| - 1];
      assert b == b' + [b[|b| - 1]];
      if a[|a| - 1] == b[|b| - 1] {
        SubsequenceMembers(a', b');
        assert a == a' + [a[|a| - 1]];
      } else {
        SubsequenceMembers(a, b');
      }
    }
  }

  lemma {:induction false} SubsequenceDropLast<T>(a: seq<T>, b: seq<T>)
    requires a != [] && IsSubsequence(a, b)
    ensures IsSubsequence(a[..|a| - 1], b)
    decreases |b|, 0
  {
    var b' := b[..|b| - 1];
    if a[..|a| - 1] != [] {
      if a[|a| - 1] == b[|b| - 1] {
        // a[..|a|-1] is a subsequence of b', hence of b
        SubsequenceAppend(a[..|a| - 1], b', b[|b| - 1]);
        assert b' + [b[|b| - 1]] == b;
      } else {
        SubsequenceDropLast(a, b');
        SubsequenceAppend(a[..|a| - 1], b', b[|b| - 1]);
        assert b' + [b[|b| - 1]] == b;
      }
    }
  }

  /** Appending to the longer sequence keeps a subsequence a subsequence. */
  lemma {:induction false} SubsequenceAppend<T>(a: seq<T>, b: seq<T>, x: T)
    requires IsSubsequence(a, b)
    ensures IsSubsequence(a, b + [x])
    decreases |b|, 1
  {
    var b2 := b + [x];
    assert b2[..|b2| - 1] == b;
    if a != [] && a[|a| - 1] == x {
      SubsequenceDropLast(a, b);
    }
  }

  /** Appending the same element to both keeps a subsequence a subsequence. */
  lemma SubsequenceAppendBoth<T>(a: seq<T>, b: seq<T>, x: T)
    requires IsSubsequence(a, b)
    ensures IsSubsequence(a + [x], b + [x])
  {
    assert (a + [x])[..|a|] == a;
    assert (b + [x])[..|b|] == b;
  }

  /**
   * The drop zones under the pointer: the order-preserving filter of `zones`
   * by inclusive containment of the event's client coordinates.
   */
  function Colliding(e: MouseEvent, zones: seq<ElemId>, rect: ElemId -> Rect): (r: seq<ElemId>)
    ensures forall z :: z in r <==> z in zones && Contains(rect(z), e.clientX, e.clientY)
    ensures IsSubsequence(r, zones)
  {
    if zones == [] then []
    else
      var last := zones[|zones| - 1];
      var init := Colliding(e, zones[..|zones| - 1], rect);
      assert zones == zones[..|zones| - 1] + [last];
      if Contains(rect(last), e.clientX, e.clientY) then
        SubsequenceAppendBoth(init, zones[..|zones| - 1], last);
        init + [last]
      else
        SubsequenceAppend(init, zones[..|zones| - 1], last);
        init
  }

  /**
   * The elements of `xs` that are not in `ys`, in `xs` order: what the source
   * computes with `forEach` plus `find(item => item.isSameNode(...))`.
   */
  function Without(xs: seq<ElemId>, ys: seq<ElemId>): (r: seq<ElemId>)
    ensures forall z :: z in r <==> z in xs && z !in ys
    ensures IsSubsequence(r, xs)
  {
    if xs == [] then []
    else
      var last := xs[|xs| - 1];
      var init := Without(xs[..|xs| - 1], ys);
      assert xs == xs[..|xs| - 1] + [last];
      if last in ys then
        SubsequenceAppend(init, xs[..|xs| - 1], last);
        init
      else
        SubsequenceAppendBoth(init, xs[..|xs| - 1], last);
        init + [last]
  }

  /** `Without` keeps every element of `xs` outside `ys` as often as `xs` holds it, and drops the rest. */
  lemma {:induction false} WithoutCounts(xs: seq<ElemId>, ys: seq<ElemId>)
    ensures forall z :: multiset(Without(xs, ys))[z] == if z in ys then 0 else multiset(xs)[z]
    decreases |xs|
  {
    if xs != [] {
      var init := xs[..|xs| - 1];
      WithoutCounts(init, ys);
      assert xs == init + [xs[|xs| - 1]];
      assert multiset(xs) == multiset(init) + multiset{xs[|xs| - 1]};
    }
  }

  /** Filters of a duplicate-free sequence are duplicate-free. */
  lemma {:induction false} SubsequenceNoDuplicates<T>(a: seq<T>, b: seq<T>)
    requires IsSubsequence(a, b) && NoDuplicates(b)
    ensures NoDuplicates(a)
    decreases |b|
  {
    if a != [] && b != [] {
      var a', b' := a[..|a| - 1], b[..|b| - 1];
      assert NoDuplicates(b');
      if a[|a| - 1] == b[|b| - 1] {
        SubsequenceNoDuplicates(a', b');
        SubsequenceMembers(a', b');
        assert forall i :: 0 <= i < |a'| ==> a'[i] in b';
      } else {
        SubsequenceNoDuplicates(a, b');
      }
    }
  }
}
