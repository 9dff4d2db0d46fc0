/** Operations on integer lists: the library calls the analysis makes
    (`Collections.min`, `Collections.sort` and the summation inside
    `IntStream.average`), and the maximum, which only states bounds. */
module ListOps {

  /** The exact sum of a list, as `IntStream.average` accumulates it. */
  function Sum(s: seq<int>): int {
    if s == [] then 0 else s[0] + Sum(s[1..])
  }

  /** `Collections.min` on a non-empty list. */
  function Min(s: seq<int>): (m: int)
    requires |s| > 0
    ensures m in s
    ensures forall x :: x in s ==> m <= x
  {
    if |s| == 1 then s[0]
    else
      var rest := Min(s[1..]);
      assert s == [s[0]] + s[1..];
      if s[0] <= rest then s[0] else rest
  }

  /** The greatest element of a non-empty list; the analysis never computes
      it, the bounds on the mean and the median are stated with it. */
  function Max(s: seq<int>): (m: int)
    requires |s| > 0
    ensures m in s
    ensures forall x :: x in s ==> x <= m
  {
    if |s| == 1 then s[0]
    else
      var rest := Max(s[1..]);
      assert s == [s[0]] + s[1..];
      if s[0] >= rest then s[0] else rest
  }

  /** The sum of a list lies between its length times any lower bound and
      its length times any upper bound of its elements. */
  lemma {:induction false} SumBounds(s: seq<int>, lo: int, hi: int)
    requires forall x :: x in s ==> lo <= x <= hi
    ensures |s| * lo <= Sum(s) <= |s| * hi
  {
    if s != [] {
      assert s == [s[0]] + s[1..];
      assert forall x :: x in s[1..] ==> x in s;
      SumBounds(s[1..], lo, hi);
      assert s[0] in s;
      MulSucc(|s| - 1, lo);
      MulSucc(|s| - 1, hi);
    }
  }

  lemma MulSucc(n: int, x: int)
    ensures (n + 1) * x == n * x + x
  {
  }

  predicate SortedAsc(s: seq<int>) {
    forall i, j :: 0 <= i < j < |s| ==> s[i] <= s[j]
  }

  function Insert(x: int, s: seq<int>): (r: seq<int>)
    requires SortedAsc(s)
    ensures SortedAsc(r)
    ensures multiset(r) == multiset(s) + multiset{x}
  {
    if s == [] || x <= s[0] then
      SortedCons(x, s);
      [x] + s
    else
      assert s == [s[0]] + s[1..];
      var rest := Insert(x, s[1..]);
      assert forall y :: y in rest ==> s[0] <= y by {
        SortedHeadIsLeast(s);
        forall y | y in rest ensures s[0] <= y {
          assert y in multiset(rest);
          assert y == x || y in multiset(s[1..]);
        }
      }
      SortedCons(s[0], rest);
      [s[0]] + rest
  }

  /** Putting a lower bound of an ascending list in front keeps it ascending. */
  lemma SortedCons(h: int, t: seq<int>)
    requires SortedAsc(t)
    requires forall y :: y in t ==> h <= y
    ensures SortedAsc([h] + t)
  {
    forall i, j | 0 <= i < j < |[h] + t| ensures ([h] + t)[i] <= ([h] + t)[j] {
      if i > 0 {
        assert ([h] + t)[i] == t[i - 1];
      }
      assert ([h] + t)[j] == t[j - 1] && t[j - 1] in t;
    }
  }

  /** The first element of an ascending list is its least element. */
  lemma SortedHeadIsLeast(s: seq<int>)
    requires SortedAsc(s) && |s| > 0
    ensures forall x :: x in s ==> s[0] <= x
  {
    forall x | x in s ensures s[0] <= x {
      var k :| 0 <= k < |s| && s[k] == x;
      assert k == 0 || s[0] <= s[k];
    }
  }

  /** `Collections.sort` on a list of integers: ascending, same elements. */
  function Sort(s: seq<int>): (r: seq<int>)
    ensures SortedAsc(r)
    ensures multiset(r) == multiset(s)
  {
    if s == [] then []
    else
      assert s == [s[0]] + s[1..];
      Insert(s[0], Sort(s[1..]))
  }

  /** There is only one ascending arrangement of a multiset, so whatever
      algorithm the library sort uses, its result equals `Sort`. */
  lemma {:induction false} SortedPermutationUnique(a: seq<int>, b: seq<int>)
    requires SortedAsc(a) && SortedAsc(b)
    requires multiset(a) == multiset(b)
    ensures a == b
  {
    assert |a| == |multiset(a)| == |multiset(b)| == |b|;
    if a != [] {
      SortedHeadIsLeast(a);
      SortedHeadIsLeast(b);
      assert a[0] in multiset(b) && b[0] in multiset(a);
      assert a[0] == b[0];
      assert a == [a[0]] + a[1..];
      assert b == [b[0]] + b[1..];
      assert multiset(a[1..]) == multiset(a) - multiset{a[0]};
      assert multiset(b[1..]) == multiset(b) - multiset{b[0]};
      SortedPermutationUnique(a[1..], b[1..]);
    }
  }
}
