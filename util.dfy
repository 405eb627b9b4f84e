/** Generic building blocks: an optional value and the ordered searches and
    filters that the scraper's early-return loops and comprehensions perform. */
module Util {

  datatype Option<T> = None | Some(value: T)

  /** Index of the first element of `xs` that satisfies `p` (a `for ... : if ...: return`
      loop over a list). */
  function FirstIndex<T>(xs: seq<T>, p: T -> bool): (r: Option<nat>)
    ensures r.Some? ==> r.value < |xs| && p(xs[r.value])
    ensures r.Some? ==> forall j :: 0 <= j < r.value ==> !p(xs[j])
    ensures r.None? ==> forall j :: 0 <= j < |xs| ==> !p(xs[j])
    decreases |xs|
  {
    if |xs| == 0 then None
    else if p(xs[0]) then Some(0)
    else
      match FirstIndex(xs[1..], p)
      case None => None
      case Some(i) => Some(i + 1)
  }

  /** Searches with predicates that agree on every element find the same index. */
  lemma {:induction false} FirstIndexSame<T>(xs: seq<T>, p: T -> bool, q: T -> bool)
    requires forall x :: p(x) == q(x)
    ensures FirstIndex(xs, p) == FirstIndex(xs, q)
    decreases |xs|
  {
    if |xs| > 0 {
      FirstIndexSame(xs[1..], p, q);
    }
  }

  /** The least `n` in `[lo, hi)` satisfying `p`: how a regular-expression engine
      tries start positions and lazy end positions in increasing order. */
  function FirstNat(lo: nat, hi: nat, p: nat -> bool): (r: Option<nat>)
    ensures r.Some? ==> lo <= r.value < hi && p(r.value)
    ensures r.Some? ==> forall k :: lo <= k < r.value ==> !p(k)
    ensures r.None? ==> forall k :: lo <= k < hi ==> !p(k)
    decreases hi - lo
  {
    if lo >= hi then None
    else if p(lo) then Some(lo)
    else FirstNat(lo + 1, hi, p)
  }

  /** `[x for x in xs if p(x)]`. */
  function Filter<T(!new)>(xs: seq<T>, p: T -> bool): (r: seq<T>)
    ensures |r| <= |xs|
    ensures forall x :: x in r <==> x in xs && p(x)
    decreases |xs|
  {
    if |xs| == 0 then []
    else (if p(xs[0]) then [xs[0]] else []) + Filter(xs[1..], p)
  }

  /** `[f(x) for x in xs if p(x)]`, built from the back as an appending loop builds it. */
  function MapFilter<A, B>(xs: seq<A>, p: A -> bool, f: A -> B): seq<B>
  {
    if xs == [] then []
    else MapFilter(xs[..|xs| - 1], p, f) + (if p(xs[|xs| - 1]) then [f(xs[|xs| - 1])] else [])
  }

  /** Mapping and filtering keep relative order: they distribute over concatenation. */
  lemma {:induction false} MapFilterConcat<A, B>(a: seq<A>, b: seq<A>, p: A -> bool, f: A -> B)
    ensures MapFilter(a + b, p, f) == MapFilter(a, p, f) + MapFilter(b, p, f)
    decreases |b|
  {
    if b == [] {
      assert a + b == a;
    } else {
      var b' := b[..|b| - 1];
      var x := b[|b| - 1];
      var tail := if p(x) then [f(x)] else [];
      assert (a + b)[..|a + b| - 1] == a + b';
      assert (a + b)[|a + b| - 1] == x;
      MapFilterConcat(a, b', p, f);
      calc {
        MapFilter(a + b, p, f);
        MapFilter(a + b', p, f) + tail;
        (MapFilter(a, p, f) + MapFilter(b', p, f)) + tail;
        MapFilter(a, p, f) + (MapFilter(b', p, f) + tail);
        MapFilter(a, p, f) + MapFilter(b, p, f);
      }
    }
  }

  /** Extending the input by one element extends the result by at most that element's image. */
  lemma MapFilterPrefix<A, B>(xs: seq<A>, p: A -> bool, f: A -> B, k: nat)
    requires k < |xs|
    ensures MapFilter(xs[..k + 1], p, f) == MapFilter(xs[..k], p, f) + (if p(xs[k]) then [f(xs[k])] else [])
  {
    assert xs[..k + 1][..k] == xs[..k];
    assert xs[..k + 1][k] == xs[k];
  }

  /** Every element of the result is the image of an element satisfying `p`. */
  lemma {:induction false} MapFilterSound<A, B>(xs: seq<A>, p: A -> bool, f: A -> B, y: B)
    requires y in MapFilter(xs, p, f)
    ensures exists k :: 0 <= k < |xs| && p(xs[k]) && y == f(xs[k])
  {
    var init := xs[..|xs| - 1];
    if y in MapFilter(init, p, f) {
      MapFilterSound(init, p, f, y);
      var k :| 0 <= k < |init| && p(init[k]) && y == f(init[k]);
      assert init[k] == xs[k];
    } else {
      assert y == f(xs[|xs| - 1]);
    }
  }

  /** The image of every element satisfying `p` is in the result. */
  lemma {:induction false} MapFilterComplete<A, B>(xs: seq<A>, p: A -> bool, f: A -> B, k: nat)
    requires k < |xs| && p(xs[k])
    ensures f(xs[k]) in MapFilter(xs, p, f)
  {
    if k < |xs| - 1 {
      var init := xs[..|xs| - 1];
      assert init[k] == xs[k];
      MapFilterComplete(init, p, f, k);
    }
  }

  /** Filtering keeps relative order: it distributes over concatenation. */
  lemma {:induction false} FilterConcat<T(!new)>(a: seq<T>, b: seq<T>, p: T -> bool)
    ensures Filter(a + b, p) == Filter(a, p) + Filter(b, p)
    decreases |a|
  {
    if |a| == 0 {
      assert a + b == b;
    } else {
      assert (a + b)[1..] == a[1..] + b;
      FilterConcat(a[1..], b, p);
    }
  }

  /** When exactly one element satisfies `p`, the filter is that element alone. */
  lemma {:induction false} FilterSingleton<T(!new)>(xs: seq<T>, p: T -> bool, i: nat)
    requires i < |xs| && p(xs[i])
    requires forall j :: 0 <= j < |xs| && j != i ==> !p(xs[j])
    ensures Filter(xs, p) == [xs[i]]
    decreases |xs|
  {
    if i == 0 {
      FilterNone(xs[1..], p);
    } else {
      FilterSingleton(xs[1..], p, i - 1);
    }
  }

  /** When no element satisfies `p`, the filter is empty. */
  lemma {:induction false} FilterNone<T(!new)>(xs: seq<T>, p: T -> bool)
    requires forall j :: 0 <= j < |xs| ==> !p(xs[j])
    ensures Filter(xs, p) == []
    decreases |xs|
  {
    if |xs| > 0 {
      FilterNone(xs[1..], p);
    }
  }

  /** The head of a non-empty filter is the first element satisfying `p`. */
  lemma {:induction false} FilterHead<T(!new)>(xs: seq<T>, p: T -> bool)
    requires Filter(xs, p) != []
    ensures FirstIndex(xs, p).Some?
    ensures Filter(xs, p)[0] == xs[FirstIndex(xs, p).value]
    decreases |xs|
  {
    if |xs| > 0 && !p(xs[0]) {
      FilterHead(xs[1..], p);
    }
  }
}
