/** `NumberUtils`: average, maximum and minimum of a list of `Long`s.
    A `null` list is `None`, a `null` element is a `None` entry, and the
    exceptions they raise are an `Err`. */
module NumberUtils {
  import opened Wrappers
  import opened JavaInt

  const LIST_IS_NULL: string := "List is null"
  const NULL_POINTER: string := "NullPointerException"

  predicate AllLongs(xs: seq<int>) {
    forall i :: 0 <= i < |xs| ==> IsInt64(xs[i])
  }

  /** Every element that is not `null` is a `long`. */
  predicate AllLongsOrNull(xs: seq<Option<int>>) {
    forall i :: 0 <= i < |xs| && xs[i].Some? ==> IsInt64(xs[i].value)
  }

  predicate NoNulls(xs: seq<Option<int>>) {
    forall i :: 0 <= i < |xs| ==> xs[i].Some?
  }

  /** The unboxed values of a list without `null`s. */
  function Unboxed(xs: seq<Option<int>>): (ys: seq<int>)
    requires NoNulls(xs)
    ensures |ys| == |xs| && forall i :: 0 <= i < |xs| ==> ys[i] == xs[i].value
  {
    seq(|xs|, i requires 0 <= i < |xs| => xs[i].value)
  }

  /** The exact sum of the elements. */
  function Sum(xs: seq<int>): int {
    if |xs| == 0 then 0 else Sum(xs[..|xs| - 1]) + xs[|xs| - 1]
  }

  /** `getAverageValue`: the `long` running total divided by the size,
      truncated toward zero; 0 for an empty list. Unboxing a `null`
      element throws. */
  method AverageValue(numberList: Option<seq<Option<int>>>) returns (r: Result<int, string>)
    requires numberList.Some? ==> AllLongsOrNull(numberList.value)
    ensures numberList.None? <==> r == Err(LIST_IS_NULL)
    ensures numberList.Some? && |numberList.value| == 0 ==> r == Ok(0)
    ensures numberList.Some? && !NoNulls(numberList.value) ==> r == Err(NULL_POINTER)
    ensures numberList.Some? && |numberList.value| > 0 && NoNulls(numberList.value) ==>
              r == Ok(TruncDiv(Wrap64(Sum(Unboxed(numberList.value))), |numberList.value|))
  {
    if numberList.None? {
      return Err(LIST_IS_NULL);
    }
    var xs := numberList.value;
    if |xs| == 0 {
      return Ok(0);
    }
    var cumulated := 0;
    var i := 0;
    while i < |xs|
      invariant 0 <= i <= |xs|
      invariant NoNulls(xs[..i])
      invariant cumulated == Wrap64(Sum(Unboxed(xs[..i])))
    {
      if xs[i].None? {
        return Err(NULL_POINTER);
      }
      assert xs[..i + 1][..i] == xs[..i];
      assert Unboxed(xs[..i + 1])[..i] == Unboxed(xs[..i]);
      Wrap64Add(Sum(Unboxed(xs[..i])), xs[i].value);
      cumulated := Wrap64(cumulated + xs[i].value);
      i := i + 1;
    }
    assert xs[..|xs|] == xs;
    return Ok(TruncDiv(cumulated, |xs|));
  }

  /** `Collections.max`. */
  function MaxOf(xs: seq<int>): (m: int)
    requires |xs| > 0
    ensures m in xs
    ensures forall i :: 0 <= i < |xs| ==> xs[i] <= m
  {
    if |xs| == 1 then xs[0]
    else
      var rest := MaxOf(xs[..|xs| - 1]);
      assert forall i :: 0 <= i < |xs| - 1 ==> xs[..|xs| - 1][i] == xs[i];
      if xs[|xs| - 1] > rest then xs[|xs| - 1] else rest
  }

  /** `Collections.min`. */
  function MinOf(xs: seq<int>): (m: int)
    requires |xs| > 0
    ensures m in xs
    ensures forall i :: 0 <= i < |xs| ==> m <= xs[i]
  {
    if |xs| == 1 then xs[0]
    else
      var rest := MinOf(xs[..|xs| - 1]);
      assert forall i :: 0 <= i < |xs| - 1 ==> xs[..|xs| - 1][i] == xs[i];
      if xs[|xs| - 1] < rest then xs[|xs| - 1] else rest
  }

  /** `getMaxValue`: an element no smaller than any other, `null` for an
      empty list. `Collections.max` compares every later element with the
      candidate, so a `null` throws once there are two elements, while the
      one element of a singleton list is returned as it is. */
  function MaxValue(numberList: Option<seq<Option<int>>>): (r: Result<Option<int>, string>)
    ensures numberList.None? <==> r == Err(LIST_IS_NULL)
    ensures numberList.Some? && |numberList.value| == 0 ==> r == Ok(None)
    ensures numberList.Some? && |numberList.value| == 1 ==> r == Ok(numberList.value[0])
    ensures numberList.Some? && |numberList.value| >= 2 && !NoNulls(numberList.value) ==> r == Err(NULL_POINTER)
    ensures numberList.Some? && |numberList.value| > 0 && NoNulls(numberList.value) ==>
              r.Ok? && r.value.Some? && r.value.value in Unboxed(numberList.value)
              && forall i :: 0 <= i < |numberList.value| ==> numberList.value[i].value <= r.value.value
  {
    match numberList
    case None => Err(LIST_IS_NULL)
    case Some(xs) =>
      if |xs| == 0 then Ok(None)
      else if |xs| == 1 then Ok(xs[0])
      else if !NoNulls(xs) then Err(NULL_POINTER)
      else Ok(Some(MaxOf(Unboxed(xs))))
  }

  /** `getMinValue`: an element no larger than any other, `null` for an
      empty list; `null` elements behave as in `getMaxValue`. */
  function MinValue(numberList: Option<seq<Option<int>>>): (r: Result<Option<int>, string>)
    ensures numberList.None? <==> r == Err(LIST_IS_NULL)
    ensures numberList.Some? && |numberList.value| == 0 ==> r == Ok(None)
    ensures numberList.Some? && |numberList.value| == 1 ==> r == Ok(numberList.value[0])
    ensures numberList.Some? && |numberList.value| >= 2 && !NoNulls(numberList.value) ==> r == Err(NULL_POINTER)
    ensures numberList.Some? && |numberList.value| > 0 && NoNulls(numberList.value) ==>
              r.Ok? && r.value.Some? && r.value.value in Unboxed(numberList.value)
              && forall i :: 0 <= i < |numberList.value| ==> r.value.value <= numberList.value[i].value
  {
    match numberList
    case None => Err(LIST_IS_NULL)
    case Some(xs) =>
      if |xs| == 0 then Ok(None)
      else if |xs| == 1 then Ok(xs[0])
      else if !NoNulls(xs) then Err(NULL_POINTER)
      else Ok(Some(MinOf(Unboxed(xs))))
  }

  lemma {:induction false} SumBounds(xs: seq<int>, lo: int, hi: int)
    requires forall i :: 0 <= i < |xs| ==> lo <= xs[i] <= hi
    ensures |xs| * lo <= Sum(xs) <= |xs| * hi
  {
    if |xs| > 0 {
      var init := xs[..|xs| - 1];
      assert forall i :: 0 <= i < |init| ==> init[i] == xs[i];
      SumBounds(init, lo, hi);
      assert |xs| * lo == |init| * lo + lo;
      assert |xs| * hi == |init| * hi + hi;
    }
  }

  /** Multiplying by a positive factor keeps the order of the factors. */
  lemma MulCancel(a: int, b: int, n: int)
    requires n > 0
    ensures a * n <= b * n ==> a <= b
    ensures a * n < b * n ==> a < b
  {
    if a > b {
      assert a * n - b * n == (a - b) * n;
    }
    if a == b {
    }
  }

  /** A truncated quotient of a value between `n*lo` and `n*hi` stays
      between `lo` and `hi`. */
  lemma TruncDivBetween(s: int, n: int, lo: int, hi: int)
    requires n > 0 && n * lo <= s <= n * hi
    ensures lo <= TruncDiv(s, n) <= hi
  {
    var q := TruncDiv(s, n);
    if s >= 0 {
      MulCancel(q, hi, n);
      MulCancel(lo, q + 1, n);
    } else {
      MulCancel(lo, q, n);
      MulCancel(q - 1, hi, n);
    }
  }

  /** Without `long` overflow of the total, the average lies between the
      minimum and the maximum. */
  lemma AverageBetweenMinAndMax(xs: seq<int>)
    requires |xs| > 0 && AllLongs(xs) && IsInt64(Sum(xs))
    ensures MinOf(xs) <= TruncDiv(Wrap64(Sum(xs)), |xs|) <= MaxOf(xs)
  {
    SumBounds(xs, MinOf(xs), MaxOf(xs));
    TruncDivBetween(Sum(xs), |xs|, MinOf(xs), MaxOf(xs));
  }
}
