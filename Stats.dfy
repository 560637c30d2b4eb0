/** Integer sums and floor averages shared by the two result reducers. */
module Stats {

  /** Python's `sum(xs)`, folded from the left. */
  function Sum(xs: seq<int>): int
  {
    if xs == [] then 0 else Sum(xs[..|xs| - 1]) + xs[|xs| - 1]
  }

  /** Python's `sum(xs) // len(xs)`. For a positive divisor Python's floor
      division and Dafny's Euclidean division agree, so `/` is exact here. */
  function FloorAverage(xs: seq<int>): int
    requires |xs| > 0
  {
    Sum(xs) / |xs|
  }

  function Min(xs: seq<int>): (m: int)
    requires |xs| > 0
    ensures m in xs
    ensures forall k :: 0 <= k < |xs| ==> m <= xs[k]
  {
    if |xs| == 1 then xs[0]
    else
      var m' := Min(xs[..|xs| - 1]);
      assert m' in xs[..|xs| - 1];
      if xs[|xs| - 1] < m' then xs[|xs| - 1] else m'
  }

  function Max(xs: seq<int>): (m: int)
    requires |xs| > 0
    ensures m in xs
    ensures forall k :: 0 <= k < |xs| ==> xs[k] <= m
  {
    if |xs| == 1 then xs[0]
    else
      var m' := Max(xs[..|xs| - 1]);
      assert m' in xs[..|xs| - 1];
      if xs[|xs| - 1] > m' then xs[|xs| - 1] else m'
  }

  /** A lower bound on every element bounds the sum from below. */
  lemma {:induction false} SumAtLeast(xs: seq<int>, lo: int)
    requires forall k :: 0 <= k < |xs| ==> lo <= xs[k]
    ensures |xs| * lo <= Sum(xs)
  {
    if xs != [] {
      SumAtLeast(xs[..|xs| - 1], lo);
    }
  }

  /** An upper bound on every element bounds the sum from above. */
  lemma {:induction false} SumAtMost(xs: seq<int>, hi: int)
    requires forall k :: 0 <= k < |xs| ==> xs[k] <= hi
    ensures Sum(xs) <= |xs| * hi
  {
    if xs != [] {
      SumAtMost(xs[..|xs| - 1], hi);
    }
  }

  lemma MulLeft(a: int, b: int, n: int)
    requires a <= b && 0 <= n
    ensures a * n <= b * n
  {
  }

  /** Floor division by a positive count is monotone against a bound times that count. */
  lemma DivAtLeast(s: int, n: int, lo: int)
    requires 0 < n && lo * n <= s
    ensures lo <= s / n
  {
    var q, r := s / n, s % n;
    assert s == q * n + r && 0 <= r < n;
    if q < lo {
      MulLeft(q, lo - 1, n);
    }
  }

  lemma DivAtMost(s: int, n: int, hi: int)
    requires 0 < n && s <= hi * n
    ensures s / n <= hi
  {
    var q, r := s / n, s % n;
    assert s == q * n + r && 0 <= r < n;
    if q > hi {
      MulLeft(hi + 1, q, n);
    }
  }

  /** The floor average of a non-empty sequence lies between its least and
      its greatest element. */
  lemma FloorAverageBounds(xs: seq<int>)
    requires |xs| > 0
    ensures Min(xs) <= FloorAverage(xs) <= Max(xs)
  {
    SumAtLeast(xs, Min(xs));
    SumAtMost(xs, Max(xs));
    DivAtLeast(Sum(xs), |xs|, Min(xs));
    DivAtMost(Sum(xs), |xs|, Max(xs));
  }
}
