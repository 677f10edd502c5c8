/**
 * The array updates every page and form of the application performs on its
 * local lists: `filter` by a predicate, `filter((_, j) => j !== i)`, and
 * `map(x => cond ? f(x) : x)`, with the facts the rest of the model uses.
 */
module Lists {

  // ---------------------------------------------------------------------------
  // filter(p)
  // ---------------------------------------------------------------------------

  /** `xs.filter(p)`: the elements satisfying `p`, in their original order. */
  function Filter<T>(xs: seq<T>, p: T -> bool): (r: seq<T>)
    ensures |r| <= |xs|
    ensures forall k :: 0 <= k < |r| ==> r[k] in xs && p(r[k])
    ensures forall k :: 0 <= k < |xs| && p(xs[k]) ==> xs[k] in r
    decreases |xs|
  {
    if |xs| == 0 then []
    else if p(xs[0]) then [xs[0]] + Filter(xs[1..], p)
    else Filter(xs[1..], p)
  }

  /** Filtering distributes over concatenation, so the relative order of the kept elements is the input's. */
  lemma {:induction false} FilterAppend<T>(a: seq<T>, b: seq<T>, p: T -> bool)
    ensures Filter(a + b, p) == Filter(a, p) + Filter(b, p)
    decreases |a|
  {
    if |a| > 0 {
      assert (a + b)[1..] == a[1..] + b;
      FilterAppend(a[1..], b, p);
    } else {
      assert a + b == b;
    }
  }

  /** A filter that every element passes returns the list unchanged. */
  lemma {:induction false} FilterKeepsAll<T>(xs: seq<T>, p: T -> bool)
    requires forall k :: 0 <= k < |xs| ==> p(xs[k])
    ensures Filter(xs, p) == xs
    decreases |xs|
  {
    if |xs| > 0 {
      FilterKeepsAll(xs[1..], p);
      assert xs == [xs[0]] + xs[1..];
    }
  }

  /** Filtering by a stronger predicate after a weaker one is filtering by the stronger one alone:
      the narrower result is an order-preserving sub-list of the wider one. */
  lemma {:induction false} FilterNarrowing<T>(xs: seq<T>, p: T -> bool, q: T -> bool)
    requires forall k :: 0 <= k < |xs| && p(xs[k]) ==> q(xs[k])
    ensures Filter(Filter(xs, q), p) == Filter(xs, p)
    decreases |xs|
  {
    if |xs| > 0 {
      FilterNarrowing(xs[1..], p, q);
      if q(xs[0]) {
        assert Filter(xs, q) == [xs[0]] + Filter(xs[1..], q);
        assert ([xs[0]] + Filter(xs[1..], q))[1..] == Filter(xs[1..], q);
      }
    }
  }

  /** Filtering twice by the same predicate is filtering once. */
  lemma FilterIdempotent<T>(xs: seq<T>, p: T -> bool)
    ensures Filter(Filter(xs, p), p) == Filter(xs, p)
  {
    FilterNarrowing(xs, p, p);
  }

  /** No element occurs twice. */
  ghost predicate Distinct<T>(xs: seq<T>) {
    forall i, j :: 0 <= i < j < |xs| ==> xs[i] != xs[j]
  }

  /** Filtering a list without repetitions leaves it without repetitions. */
  lemma {:induction false} FilterDistinct<T>(xs: seq<T>, p: T -> bool)
    requires Distinct(xs)
    ensures Distinct(Filter(xs, p))
    decreases |xs|
  {
    if |xs| > 0 {
      FilterDistinct(xs[1..], p);
      var rest := Filter(xs[1..], p);
      if p(xs[0]) {
        assert xs[0] !in xs[1..];
        assert xs[0] !in rest;
        var r := [xs[0]] + rest;
        forall i, j | 0 <= i < j < |r|
          ensures r[i] != r[j]
        {
          if i == 0 {
            assert r[j] == rest[j - 1];
          } else {
            assert r[i] == rest[i - 1] && r[j] == rest[j - 1];
          }
        }
      }
    }
  }

  /** The number of elements of `xs` that satisfy `p`. */
  function Count<T>(xs: seq<T>, p: T -> bool): nat {
    |Filter(xs, p)|
  }

  /** Every element is counted by exactly one of `p` and its negation. */
  lemma {:induction false} CountSplit<T>(xs: seq<T>, p: T -> bool, notP: T -> bool)
    requires forall k :: 0 <= k < |xs| ==> (notP(xs[k]) <==> !p(xs[k]))
    ensures Count(xs, p) + Count(xs, notP) == |xs|
    decreases |xs|
  {
    if |xs| > 0 {
      CountSplit(xs[1..], p, notP);
    }
  }

  // ---------------------------------------------------------------------------
  // filter((_, j) => j !== i)
  // ---------------------------------------------------------------------------

  /** Removal of the element at index `i`; an index outside the list removes nothing. */
  function RemoveAt<T>(xs: seq<T>, i: int): (r: seq<T>)
    ensures 0 <= i < |xs| ==> |r| == |xs| - 1
    ensures 0 <= i < |xs| ==> forall j :: 0 <= j < i ==> r[j] == xs[j]
    ensures 0 <= i < |xs| ==> forall j :: i <= j < |r| ==> r[j] == xs[j + 1]
    ensures !(0 <= i < |xs|) ==> r == xs
  {
    if 0 <= i < |xs| then xs[..i] + xs[i + 1..] else xs
  }

  /** `filter((_, j) => j !== i)` as CourseForm.tsx and TestForm.tsx write it, element by element:
      keep every element whose index is not `i`. */
  function FilterIndexNot<T>(xs: seq<T>, i: int): seq<T>
    decreases |xs|
  {
    if |xs| == 0 then []
    else if i == 0 then FilterIndexNot(xs[1..], i - 1)
    else [xs[0]] + FilterIndexNot(xs[1..], i - 1)
  }

  /** Removal at a position after the head keeps the head and removes from the tail. */
  lemma RemoveAtCons<T>(xs: seq<T>, i: int)
    requires |xs| > 0 && i != 0
    ensures RemoveAt(xs, i) == [xs[0]] + RemoveAt(xs[1..], i - 1)
  {
    var t := xs[1..];
    if 0 < i < |xs| {
      assert xs[..i] == [xs[0]] + t[..i - 1];
      assert xs[i + 1..] == t[i..];
    } else {
      assert xs == [xs[0]] + t;
    }
  }

  /** The slice-based removal agrees with the index filter `filter((_, j) => j !== i)`. */
  lemma {:induction false} RemoveAtIsIndexFilter<T>(xs: seq<T>, i: int)
    ensures RemoveAt(xs, i) == FilterIndexNot(xs, i)
    decreases |xs|
  {
    if |xs| > 0 {
      RemoveAtIsIndexFilter(xs[1..], i - 1);
      if i == 0 {
        assert RemoveAt(xs[1..], -1) == xs[1..];
      } else {
        RemoveAtCons(xs, i);
      }
    }
  }

  /** Inserting `x` before index `i`. */
  function InsertAt<T>(xs: seq<T>, i: int, x: T): seq<T>
    requires 0 <= i <= |xs|
  {
    xs[..i] + [x] + xs[i..]
  }

  /** Putting the removed element back where it was restores the list. */
  lemma RemoveAtInverse<T>(xs: seq<T>, i: int)
    requires 0 <= i < |xs|
    ensures InsertAt(RemoveAt(xs, i), i, xs[i]) == xs
  {
    var r := RemoveAt(xs, i);
    assert r[..i] == xs[..i];
    assert r[i..] == xs[i + 1..];
    assert xs == xs[..i] + [xs[i]] + xs[i + 1..];
  }

  // ---------------------------------------------------------------------------
  // map(x => sel(x) ? f(x) : x)
  // ---------------------------------------------------------------------------

  /** Rewrites, in place, the elements `sel` picks out. */
  function MapWhere<T>(xs: seq<T>, sel: T -> bool, f: T -> T): (r: seq<T>)
    ensures |r| == |xs|
    ensures forall j :: 0 <= j < |xs| && !sel(xs[j]) ==> r[j] == xs[j]
    ensures forall j :: 0 <= j < |xs| && sel(xs[j]) ==> r[j] == f(xs[j])
  {
    seq(|xs|, j requires 0 <= j < |xs| => if sel(xs[j]) then f(xs[j]) else xs[j])
  }

  // ---------------------------------------------------------------------------
  // map(f)
  // ---------------------------------------------------------------------------

  /** `xs.map(f)`: one image per element, position by position. */
  function Map<A, B>(xs: seq<A>, f: A -> B): (r: seq<B>)
    ensures |r| == |xs| && forall j :: 0 <= j < |xs| ==> r[j] == f(xs[j])
  {
    seq(|xs|, j requires 0 <= j < |xs| => f(xs[j]))
  }
}
