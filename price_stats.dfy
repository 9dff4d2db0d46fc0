/** The price statistics: the `prices` list of `main`, `calculateAverage` and
    `calculateMedian`. Averages and medians are exact reals. */
module PriceStats {
  import opened Results
  import opened Tickets
  import opened ListOps

  /** The `prices` ArrayList<Integer> of `main`: grown by `add` in the main
      loop and sorted in place by `calculateMedian`. */
  class PriceList {
    var elems: seq<int>

    constructor ()
      ensures elems == []
    {
      elems := [];
    }

    method Add(price: int)
      modifies this
      ensures elems == old(elems) + [price]
    {
      elems := elems + [price];
    }

    /** `get(index)`: the element, or an IndexOutOfBoundsException. */
    method Get(index: int) returns (r: Result<int>)
      ensures 0 <= index < |elems| ==> r == Success(elems[index])
      ensures !(0 <= index < |elems|) ==> r == Failure(IndexOutOfBounds(index))
    {
      if 0 <= index < |elems| {
        r := Success(elems[index]);
      } else {
        r := Failure(IndexOutOfBounds(index));
      }
    }

    /** `Collections.sort(prices)`: the list becomes an ascending arrangement
        of the same prices. */
    method Sort()
      modifies this
      ensures SortedAsc(elems) && multiset(elems) == multiset(old(elems))
    {
      elems := ListOps.Sort(elems);
    }
  }

  /** `calculateAverage`: the arithmetic mean, and 0 for an empty list. */
  function Average(prices: seq<int>): (avg: real)
    ensures |prices| == 0 ==> avg == 0.0
    ensures |prices| > 0 ==> avg * (|prices| as real) == Sum(prices) as real
  {
    if |prices| == 0 then 0.0 else Sum(prices) as real / (|prices| as real)
  }

  /** The mean of a non-empty list lies between its least and greatest price. */
  lemma AverageBounds(prices: seq<int>)
    requires |prices| > 0
    ensures Min(prices) as real <= Average(prices) <= Max(prices) as real
  {
    var n, lo, hi := |prices|, Min(prices), Max(prices);
    SumBounds(prices, lo, hi);
    QuotientBounds(Sum(prices), n, lo, hi);
  }

  /** A mean of n values bounded by lo and hi is bounded by lo and hi. */
  lemma QuotientBounds(sum: int, n: int, lo: int, hi: int)
    requires n > 0 && n * lo <= sum <= n * hi
    ensures lo as real <= sum as real / n as real <= hi as real
  {
    var q := sum as real / n as real;
    assert q * n as real == sum as real;
    assert (n * lo) as real == n as real * lo as real;
    assert (n * hi) as real == n as real * hi as real;
  }

  /** What `calculateMedian` reads off the list once it is sorted: the
      middle element for an odd size; for an even size the two middle
      elements added as `int`, with 32-bit wrap-around, then halved by
      `/ 2.0`. An empty list takes the even branch and fails on `get(-1)`. */
  function MedianOfSorted(sorted: seq<int>): (r: Result<real>)
    ensures r.Failure? <==> |sorted| == 0
  {
    var size := |sorted|;
    if size % 2 == 0 then
      if size == 0 then Failure(IndexOutOfBounds(size / 2 - 1))
      else Success(Wrap32(sorted[size / 2 - 1] + sorted[size / 2]) as real / 2.0)
    else Success(sorted[size / 2] as real)
  }

  /** `calculateMedian` on the list's contents before the call. */
  function MedianOf(prices: seq<int>): (r: Result<real>)
    ensures r.Failure? <==> |prices| == 0
    ensures r.Failure? ==> r.error == IndexOutOfBounds(-1)
  {
    var sorted := Sort(prices);
    assert |sorted| == |multiset(sorted)| == |prices|;
    MedianOfSorted(sorted)
  }

  /** `calculateMedian` itself: sorts the caller's list in place, then reads
      the middle element or the two middle elements. */
  method CalculateMedian(prices: PriceList) returns (r: Result<real>)
    modifies prices
    ensures SortedAsc(prices.elems) && multiset(prices.elems) == multiset(old(prices.elems))
    ensures r == MedianOf(old(prices.elems))
  {
    prices.Sort();
    ghost var sorted := prices.elems;
    MedianFromSorted(old(prices.elems), sorted);
    var size := |prices.elems|;
    if size % 2 == 0 {
      var lower := prices.Get(size / 2 - 1);
      if lower.Failure? {
        return Failure(lower.error);
      }
      var upper := prices.Get(size / 2);
      r := Success(Wrap32(lower.value + upper.value) as real / 2.0);
    } else {
      var middle := prices.Get(size / 2);
      r := Success(middle.value as real);
    }
  }

  /** For a non-empty list, the median is read off ANY ascending arrangement
      of its prices: the middle one for an odd count, the wrapped int sum of
      the two middle ones halved for an even count. */
  lemma MedianFromSorted(prices: seq<int>, sorted: seq<int>)
    requires SortedAsc(sorted) && multiset(sorted) == multiset(prices)
    ensures |sorted| == |prices|
    ensures MedianOf(prices) == MedianOfSorted(sorted)
    ensures |prices| % 2 == 1 ==> MedianOf(prices) == Success(sorted[|prices| / 2] as real)
    ensures |prices| % 2 == 0 && |prices| > 0 ==>
      MedianOf(prices) == Success(Wrap32(sorted[|prices| / 2 - 1] + sorted[|prices| / 2]) as real / 2.0)
  {
    assert |sorted| == |multiset(sorted)| == |prices|;
    SortedPermutationUnique(Sort(prices), sorted);
    assert MedianOf(prices) == MedianOfSorted(sorted);
  }

  /** The median depends only on which prices there are, not on their order. */
  lemma MedianPermutationInvariant(a: seq<int>, b: seq<int>)
    requires multiset(a) == multiset(b)
    ensures MedianOf(a) == MedianOf(b)
  {
    SortedPermutationUnique(Sort(a), Sort(b));
  }

  /** The two middle prices of an even-length list add up within Java `int`. */
  predicate MiddleSumFits(prices: seq<int>) {
    var sorted := Sort(prices);
    |sorted| % 2 == 0 && |sorted| > 0 ==>
      -0x8000_0000 <= sorted[|sorted| / 2 - 1] + sorted[|sorted| / 2] < 0x8000_0000
  }

  /** When the middle sum does not overflow, the median lies between the least
      and the greatest price. */
  lemma MedianBounds(prices: seq<int>)
    requires |prices| > 0 && MiddleSumFits(prices)
    ensures MedianOf(prices).Success?
    ensures Min(prices) as real <= MedianOf(prices).value <= Max(prices) as real
  {
    var sorted := Sort(prices);
    var n := |prices|;
    assert |sorted| == |multiset(sorted)| == n;
    ElementBounds(prices, sorted, n / 2);
    if n % 2 == 0 {
      ElementBounds(prices, sorted, n / 2 - 1);
      HalfSumBounds(sorted[n / 2 - 1], sorted[n / 2], Min(prices), Max(prices));
    }
  }

  lemma ElementBounds(prices: seq<int>, sorted: seq<int>, k: int)
    requires |prices| > 0 && multiset(sorted) == multiset(prices)
    requires 0 <= k < |sorted|
    ensures Min(prices) <= sorted[k] <= Max(prices)
  {
    assert sorted[k] in multiset(prices);
    assert sorted[k] in prices;
  }

  lemma HalfSumBounds(a: int, b: int, lo: int, hi: int)
    requires lo <= a <= hi && lo <= b <= hi
    requires -0x8000_0000 <= a + b < 0x8000_0000
    ensures lo as real <= Wrap32(a + b) as real / 2.0 <= hi as real
  {
    assert Wrap32(a + b) == a + b;
  }

  /** Without that condition the bound fails: two prices of 2147483647 wrap
      to -2 and give a median of -1.0, below every price. */
  lemma MedianWrapsOnOverflow()
    ensures var prices := [0x7FFF_FFFF, 0x7FFF_FFFF];
      MedianOf(prices) == Success(-1.0) && Min(prices) == 0x7FFF_FFFF
  {
    var prices := [0x7FFF_FFFF, 0x7FFF_FFFF];
    MedianFromSorted(prices, prices);
    assert Wrap32(0xFFFF_FFFE) == -2;
    assert MedianOfSorted(prices) == Success(-2.0 / 2.0);
  }
}
