/** What every module shares: an optional value (JavaScript's `null`/`undefined`),
    the result of an operation that can throw, and the array methods `findIndex`
    and `filter`. */
module Common {

  datatype Option<+T> = None | Some(value: T)

  /** A thrown exception becomes `Err`; a returned value becomes `Ok`. */
  datatype Result<+T, +E> = Ok(value: T) | Err(error: E)

  /** `xs.findIndex(p)`: the first index whose element satisfies `p`, or -1 when
      there is none. */
  function FindIndex<X>(xs: seq<X>, p: X -> bool): (k: int)
    ensures -1 <= k < |xs|
    ensures k == -1 <==> forall j :: 0 <= j < |xs| ==> !p(xs[j])
    ensures 0 <= k ==> p(xs[k]) && forall j :: 0 <= j < k ==> !p(xs[j])
  {
    if |xs| == 0 then -1
    else if p(xs[0]) then 0
    else
      var k := FindIndex(xs[1..], p);
      if k == -1 then -1 else k + 1
  }

  /** `xs.filter(keep)`: the elements `keep` accepts, in their order. */
  function Filter<X(!new)>(xs: seq<X>, keep: X -> bool): (r: seq<X>)
    ensures |r| <= |xs|
    ensures forall e :: e in r <==> e in xs && keep(e)
  {
    if |xs| == 0 then []
    else if keep(xs[0]) then [xs[0]] + Filter(xs[1..], keep)
    else Filter(xs[1..], keep)
  }

  /** A filter that accepts every element keeps the sequence. */
  lemma {:induction false} FilterKeepsAll<X(!new)>(xs: seq<X>, keep: X -> bool)
    requires forall e :: e in xs ==> keep(e)
    ensures Filter(xs, keep) == xs
  {
    if |xs| > 0 {
      assert xs[0] in xs;
      assert forall e :: e in xs[1..] ==> e in xs;
      FilterKeepsAll(xs[1..], keep);
      assert xs == [xs[0]] + xs[1..];
    }
  }

  /** An appended element the filter rejects leaves the result as it was. */
  lemma {:induction false} FilterAppendRejected<X(!new)>(xs: seq<X>, e: X, keep: X -> bool)
    requires !keep(e)
    ensures Filter(xs + [e], keep) == Filter(xs, keep)
  {
    if |xs| > 0 {
      assert (xs + [e])[1..] == xs[1..] + [e];
      FilterAppendRejected(xs[1..], e, keep);
    } else {
      assert [e][1..] == [];
    }
  }

  /** Filtering distributes over concatenation. */
  lemma {:induction false} FilterConcat<X(!new)>(xs: seq<X>, ys: seq<X>, keep: X -> bool)
    ensures Filter(xs + ys, keep) == Filter(xs, keep) + Filter(ys, keep)
  {
    if |xs| > 0 {
      assert (xs + ys)[0] == xs[0];
      assert (xs + ys)[1..] == xs[1..] + ys;
      FilterConcat(xs[1..], ys, keep);
    } else {
      assert xs + ys == ys;
    }
  }

  /** A single element is kept exactly when it passes. With FilterConcat this fixes
      `Filter` on every input: the kept elements in their order, with repeats. */
  lemma FilterSingleton<X(!new)>(x: X, keep: X -> bool)
    ensures Filter([x], keep) == if keep(x) then [x] else []
  {
    assert [x][1..] == [];
  }
}
