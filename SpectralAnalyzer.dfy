/** The scalar measures the graph wrapper derives from a Laplacian spectrum:
    the bulk index, Reduced Spectral Similarity (RSS), Irreconcilable
    Spectral Dissimilarity (ISD, whose target-reading form lives on the
    wrapper class), Total Spectral Similarity (TSS) and the normalised
    eigencentrality. Spectra are given as real sequences; the eigen-solver
    is not part of this model. */
module SpectralAnalyzer {

  /** numpy `sum`, accumulated from the front. */
  function Sum(s: seq<real>): real {
    if s == [] then 0.0 else Sum(s[..|s| - 1]) + s[|s| - 1]
  }

  /** The element-wise squares of a vector. */
  function Squares(s: seq<real>): (q: seq<real>)
    ensures |q| == |s|
  {
    seq(|s|, i requires 0 <= i < |s| => s[i] * s[i])
  }

  /** The sum of squares, the square of the Euclidean norm. */
  function SumSq(s: seq<real>): real {
    Sum(Squares(s))
  }

  /** What `numpy.linalg.norm` computes on a vector: the non-negative square
      root of the sum of squares. The model takes the norm as a parameter
      constrained by this predicate, since the square root is not available. */
  ghost predicate IsEuclideanNorm(norm: seq<real> -> real) {
    forall s :: norm(s) >= 0.0 && norm(s) * norm(s) == SumSq(s)
  }

  /** The share of the spectral mass the bulk must strictly exceed. */
  const BulkFraction: real := 0.95

  /** Python's `s[:b]`, including a negative `b` (count from the end) and a
      `b` past the end. */
  function PrefixSlice<T>(s: seq<T>, b: int): (r: seq<T>)
    ensures |r| <= |s| && r == s[..|r|]
    ensures 0 <= b <= |s| ==> |r| == b
    ensures b < 0 && -b <= |s| ==> |r| == |s| + b
    ensures b >= |s| ==> r == s
    ensures b < -|s| ==> r == []
  {
    if b >= 0 then s[..if b <= |s| then b else |s|]
    else s[..if |s| + b >= 0 then |s| + b else 0]
  }

  /** Element-wise difference of two numpy vectors of one length. */
  function Diff(a: seq<real>, b: seq<real>): (d: seq<real>)
    requires |a| == |b|
    ensures |d| == |a|
  {
    seq(|a|, i requires 0 <= i < |a| => a[i] - b[i])
  }

  /** Element-wise division by a scalar. */
  function Divided(e: seq<real>, c: real): (r: seq<real>)
    requires c != 0.0
    ensures |r| == |e|
  {
    seq(|e|, i requires 0 <= i < |e| => e[i] / c)
  }

  // ---------------------------------------------------------------------------
  // Sums and norms.

  lemma SumSnoc(s: seq<real>, k: nat)
    requires k < |s|
    ensures Sum(s[..k + 1]) == Sum(s[..k]) + s[k]
  {
    assert s[..k + 1][..k] == s[..k];
  }

  predicate NonNegative(s: seq<real>) {
    forall i :: 0 <= i < |s| ==> s[i] >= 0.0
  }

  lemma {:induction false} SumNonNegative(s: seq<real>)
    ensures NonNegative(s) ==> Sum(s) >= 0.0
  {
    if s != [] {
      var t := s[..|s| - 1];
      assert forall i :: 0 <= i < |t| ==> t[i] == s[i];
      SumNonNegative(t);
    }
  }

  /** A non-negative vector with a positive entry has a positive sum. */
  lemma {:induction false} SumPositive(s: seq<real>, k: nat)
    requires NonNegative(s) && k < |s| && s[k] > 0.0
    ensures Sum(s) > 0.0
  {
    var t := s[..|s| - 1];
    assert forall i :: 0 <= i < |t| ==> t[i] == s[i];
    SumNonNegative(t);
    if k < |t| {
      SumPositive(t, k);
    }
  }

  lemma {:induction false} SumZeros(s: seq<real>)
    requires forall i :: 0 <= i < |s| ==> s[i] == 0.0
    ensures Sum(s) == 0.0
  {
    if s != [] {
      var t := s[..|s| - 1];
      assert forall i :: 0 <= i < |t| ==> t[i] == s[i];
      SumZeros(t);
    }
  }

  /** On a non-negative vector a prefix never sums to more than the whole. */
  lemma {:induction false} SumPrefix(s: seq<real>, k: nat)
    requires NonNegative(s) && k <= |s|
    ensures Sum(s[..k]) <= Sum(s)
  {
    if k < |s| {
      var t := s[..|s| - 1];
      assert t[..k] == s[..k];
      assert forall i :: 0 <= i < |t| ==> t[i] == s[i];
      SumPrefix(t, k);
    } else {
      assert s[..k] == s;
    }
  }

  lemma SquareStrict(a: real, b: real)
    requires a >= 0.0 && b >= 0.0
    ensures a > b ==> a * a > b * b
  {
    if a > b {
      var d := a - b;
      assert a * d > 0.0;
      assert b * d >= 0.0;
      assert a * a - b * b == a * d + b * d;
    }
  }

  lemma SquareFacts(x: real)
    ensures x * x >= 0.0
    ensures x < 0.0 || x > 0.0 ==> x * x > 0.0
  {
    if x < 0.0 {
      assert x * x > 0.0;
    } else if x > 0.0 {
      assert x * x > 0.0;
    }
  }

  /** `m`, the square of `x`, is positive when `x` is non-zero. */
  lemma SquareValue(x: real, m: real)
    requires m == x * x
    ensures x != 0.0 ==> m > 0.0
  {
    var a := if x < 0.0 then -x else x;
    assert a * a == x * x;
    SquareStrict(a, 0.0);
  }

  lemma SquaresNonNegative(s: seq<real>)
    ensures NonNegative(Squares(s))
  {
    forall i | 0 <= i < |s|
      ensures Squares(s)[i] >= 0.0
    {
      SquareFacts(s[i]);
    }
  }

  /** The sum of squares vanishes exactly on the zero vector. */
  lemma SumSqZero(s: seq<real>)
    ensures SumSq(s) == 0.0 <==> forall i :: 0 <= i < |s| ==> s[i] == 0.0
  {
    var q := Squares(s);
    SquaresNonNegative(s);
    if k :| 0 <= k < |s| && s[k] != 0.0 {
      SquareValue(s[k], q[k]);
      SumPositive(q, k);
    } else {
      assert forall i :: 0 <= i < |q| ==> q[i] == 0.0;
      SumZeros(q);
    }
  }

  lemma SquaresPrefix(s: seq<real>, k: nat)
    requires k <= |s|
    ensures Squares(s[..k]) == Squares(s)[..k]
  {
    assert forall i :: 0 <= i < k ==> Squares(s[..k])[i] == Squares(s)[..k][i];
  }

  /** A prefix never has a larger sum of squares than the whole. */
  lemma SumSqPrefix(s: seq<real>, k: nat)
    requires k <= |s|
    ensures SumSq(s[..k]) <= SumSq(s)
  {
    SquaresPrefix(s, k);
    SquaresNonNegative(s);
    SumPrefix(Squares(s), k);
  }

  /** Dropping a trailing zero leaves the sum of squares unchanged. */
  lemma SumSqDropZero(s: seq<real>)
    requires |s| > 0 && s[|s| - 1] == 0.0
    ensures SumSq(s[..|s| - 1]) == SumSq(s)
  {
    var q := Squares(s);
    SquaresPrefix(s, |s| - 1);
    assert q[|q| - 1] == 0.0;
  }

  lemma SquareMonotone(a: real, b: real)
    requires a >= 0.0 && b >= 0.0 && a * a <= b * b
    ensures a <= b
  {
    SquareStrict(a, b);
  }

  /** The norm is zero exactly on the zero vector. */
  lemma NormZero(norm: seq<real> -> real, s: seq<real>)
    requires IsEuclideanNorm(norm)
    ensures norm(s) == 0.0 <==> forall i :: 0 <= i < |s| ==> s[i] == 0.0
  {
    var n := norm(s);
    assert n >= 0.0 && n * n == SumSq(s);
    SumSqZero(s);
    if n > 0.0 {
      SquareStrict(n, 0.0);
      assert SumSq(s) > 0.0;
    }
  }

  /** A prefix never has a larger norm than the whole. */
  lemma NormOfPrefix(norm: seq<real> -> real, s: seq<real>, k: nat)
    requires IsEuclideanNorm(norm) && k <= |s|
    ensures norm(s[..k]) <= norm(s)
  {
    assert norm(s) >= 0.0 && norm(s) * norm(s) == SumSq(s);
    assert norm(s[..k]) >= 0.0 && norm(s[..k]) * norm(s[..k]) == SumSq(s[..k]);
    SumSqPrefix(s, k);
    SquareMonotone(norm(s[..k]), norm(s));
  }

  /** Dropping a trailing zero does not change the norm. */
  lemma NormDropZero(norm: seq<real> -> real, s: seq<real>)
    requires IsEuclideanNorm(norm) && |s| > 0 && s[|s| - 1] == 0.0
    ensures norm(s[..|s| - 1]) == norm(s)
  {
    var t := s[..|s| - 1];
    assert norm(s) >= 0.0 && norm(s) * norm(s) == SumSq(s);
    assert norm(t) >= 0.0 && norm(t) * norm(t) == SumSq(t);
    SumSqDropZero(s);
    SquareMonotone(norm(t), norm(s));
    SquareMonotone(norm(s), norm(t));
  }

  // ---------------------------------------------------------------------------
  // Bulk index.

  /** The running sum after adding entry `i` (inclusive). */
  function RunningSum(s: seq<real>, i: nat): real
    requires i < |s|
  {
    Sum(s[..i + 1])
  }

  /** `r` is what `get_bulk_index` returns: the first 0-based index at which
      the running sum strictly exceeds 95% of the total, or the length when no
      index does. The crossing element is at index `r`, so the prefix
      `s[:r]` that RSS and ISD use leaves it out. */
  ghost predicate IsBulkIndex(s: seq<real>, r: int) {
    && 0 <= r <= |s|
    && (forall j :: 0 <= j < r ==> RunningSum(s, j) <= BulkFraction * Sum(s))
    && (r < |s| ==> RunningSum(s, r) > BulkFraction * Sum(s))
  }

  /** `get_bulk_index`: a running-sum scan with an early return. */
  method GetBulkIndex(spectrum: seq<real>) returns (bulk: nat)
    ensures IsBulkIndex(spectrum, bulk)
    ensures Sum(spectrum) > 0.0 ==> bulk < |spectrum|
  {
    var spectralSum := Sum(spectrum);
    var cutOff := BulkFraction * spectralSum;
    var runningSum := 0.0;
    var i := 0;
    while i < |spectrum|
      invariant 0 <= i <= |spectrum|
      invariant runningSum == Sum(spectrum[..i])
      invariant forall j :: 0 <= j < i ==> RunningSum(spectrum, j) <= cutOff
    {
      SumSnoc(spectrum, i);
      runningSum := runningSum + spectrum[i];
      if runningSum > cutOff {
        return i;
      }
      i := i + 1;
    }
    if |spectrum| > 0 {
      assert spectrum[..|spectrum|] == spectrum;
      assert RunningSum(spectrum, |spectrum| - 1) <= cutOff;
    }
    return |spectrum|;
  }

  /** The bulk index is determined by the spectrum. */
  lemma BulkIndexUnique(s: seq<real>, r1: int, r2: int)
    requires IsBulkIndex(s, r1) && IsBulkIndex(s, r2)
    ensures r1 == r2
  {
  }

  /** The Laplacian spectrum [2, 0] of the two-node path: the first eigenvalue
      already holds 100% of the mass, so the bulk index is 0 (not 1). */
  lemma PathTwoBulkIndex()
    ensures IsBulkIndex([2.0, 0.0], 0)
  {
    var s := [2.0, 0.0];
    assert s[..1] == [2.0];
    assert s[..1][..0] == [];
    assert s[..2] == s;
    assert s[..1] == s[..|s| - 1];
    assert RunningSum(s, 0) == 2.0;
    assert Sum(s) == 2.0;
  }

  // ---------------------------------------------------------------------------
  // RSS, TSS, eigencentrality.

  /** The difference vanishes exactly when the vectors are equal. */
  lemma DiffZero(a: seq<real>, b: seq<real>)
    requires |a| == |b|
    ensures (forall i :: 0 <= i < |a| ==> Diff(a, b)[i] == 0.0) <==> a == b
  {
    var d := Diff(a, b);
    assert forall i :: 0 <= i < |a| ==> d[i] == a[i] - b[i];
  }

  /** `get_rss`: 1 - |p[:b] - t[:b]| / |t[:b]|, or 0 when |t[:b]| is 0. */
  function GetRss(perturbedSpectrum: seq<real>, targetSpectrum: seq<real>, bulkIndex: int,
                  norm: seq<real> -> real): (rss: real)
    requires IsEuclideanNorm(norm)
    requires |PrefixSlice(perturbedSpectrum, bulkIndex)| == |PrefixSlice(targetSpectrum, bulkIndex)|
    ensures rss <= 1.0
    ensures norm(PrefixSlice(targetSpectrum, bulkIndex)) == 0.0 ==> rss == 0.0
    ensures bulkIndex == 0 ==> rss == 0.0
    ensures norm(PrefixSlice(targetSpectrum, bulkIndex)) > 0.0 ==>
      (rss == 1.0 <==> PrefixSlice(perturbedSpectrum, bulkIndex) == PrefixSlice(targetSpectrum, bulkIndex))
  {
    var reducedPerturbed := PrefixSlice(perturbedSpectrum, bulkIndex);
    var reducedTarget := PrefixSlice(targetSpectrum, bulkIndex);
    var discrepancy := Diff(reducedPerturbed, reducedTarget);
    var normReducedTarget := norm(reducedTarget);
    NormZero(norm, discrepancy);
    NormZero(norm, reducedTarget);
    DiffZero(reducedPerturbed, reducedTarget);
    assert norm(discrepancy) >= 0.0;
    if normReducedTarget > 0.0 then
      assert norm(discrepancy) / normReducedTarget >= 0.0;
      assert norm(discrepancy) / normReducedTarget == 0.0 <==> norm(discrepancy) == 0.0;
      1.0 - norm(discrepancy) / normReducedTarget
    else
      0.0
  }

  /** TSS = (1 - ISD) * RSS. */
  function TotalSpectralSimilarity(isd: real, rss: real): (tss: real)
    ensures isd == 0.0 ==> tss == rss
    ensures isd == 1.0 ==> tss == 0.0
    ensures 0.0 <= isd <= 1.0 && 0.0 <= rss ==> 0.0 <= tss <= rss
    ensures 0.0 <= isd <= 1.0 && rss <= 1.0 ==> tss <= 1.0
  {
    var w := 1.0 - isd;
    assert 0.0 <= w <= 1.0 && 0.0 <= rss ==> 0.0 <= w * rss <= rss by {
      if 0.0 <= w <= 1.0 && 0.0 <= rss {
        assert w * rss <= 1.0 * rss;
      }
    }
    assert 0.0 <= w <= 1.0 && rss <= 1.0 ==> w * rss <= 1.0 by {
      if 0.0 <= w <= 1.0 && rss <= 1.0 {
        if rss >= 0.0 {
          assert w * rss <= w * 1.0;
        } else {
          assert w * rss <= 0.0;
        }
      }
    }
    w * rss
  }

  lemma {:induction false} SumDivided(e: seq<real>, c: real)
    requires c != 0.0
    ensures Sum(Divided(e, c)) == Sum(e) / c
  {
    if e != [] {
      var t := e[..|e| - 1];
      var d := Divided(e, c);
      assert d[..|d| - 1] == Divided(t, c);
      SumDivided(t, c);
      assert Sum(d) == Sum(t) / c + e[|e| - 1] / c;
    }
  }

  lemma DivTimes(a: real, c: real)
    requires c != 0.0
    ensures (a / c) * c == a
  {
  }

  lemma DivNonNegative(a: real, c: real)
    requires a >= 0.0 && c > 0.0
    ensures a / c >= 0.0
  {
  }

  lemma DivSelf(c: real)
    requires c > 0.0
    ensures c / c == 1.0
  {
    assert (c / c) * c == c;
  }

  /** A ratio of a part to a positive whole lies in [0, 1]. */
  lemma RatioBounds(a: real, c: real)
    requires 0.0 <= a <= c && c > 0.0
    ensures 0.0 <= a / c <= 1.0
  {
    DivTimes(a, c);
    DivNonNegative(a, c);
  }

  /** Dividing a vector by its own non-zero sum makes it sum to one. */
  lemma NormalizedSum(raw: seq<real>)
    requires Sum(raw) != 0.0
    ensures Sum(Divided(raw, Sum(raw))) == 1.0
  {
    var total := Sum(raw);
    SumDivided(raw, total);
    DivTimes(1.0, total);
    assert total / total == 1.0;
  }

  /** Each normalised entry times the sum gives back the raw entry. */
  lemma NormalizedScale(raw: seq<real>, c: real)
    requires c != 0.0
    ensures forall i :: 0 <= i < |raw| ==> Divided(raw, c)[i] * c == raw[i]
  {
    var e := Divided(raw, c);
    forall i | 0 <= i < |raw|
      ensures e[i] * c == raw[i]
    {
      DivTimes(raw[i], c);
    }
  }

  /** Normalising a non-negative vector keeps it non-negative. */
  lemma NormalizedNonNegative(raw: seq<real>)
    requires Sum(raw) != 0.0
    ensures NonNegative(raw) ==> NonNegative(Divided(raw, Sum(raw)))
  {
    var total := Sum(raw);
    var e := Divided(raw, total);
    SumNonNegative(raw);
    if NonNegative(raw) {
      forall i | 0 <= i < |raw|
        ensures e[i] >= 0.0
      {
        DivNonNegative(raw[i], total);
      }
    }
  }

  /** `e / sum(e)` for a vector whose sum is non-zero. */
  function Normalized(raw: seq<real>): (e: seq<real>)
    requires Sum(raw) != 0.0
    ensures |e| == |raw| && Sum(e) == 1.0
    ensures forall i :: 0 <= i < |e| ==> e[i] * Sum(raw) == raw[i]
    ensures NonNegative(raw) ==> NonNegative(e)
  {
    NormalizedSum(raw);
    NormalizedScale(raw, Sum(raw));
    NormalizedNonNegative(raw);
    Divided(raw, Sum(raw))
  }

  /** The centralities used for a graph with fewer than two edges. */
  const FallbackCentralities: seq<real> := [0.5, 0.5]

  lemma FallbackCentralitiesNormalized()
    ensures Sum(FallbackCentralities) == 1.0
    ensures NonNegative(FallbackCentralities)
    ensures Normalized(FallbackCentralities) == FallbackCentralities
  {
    var f := FallbackCentralities;
    assert f[..1] == [0.5] && f[..1][..0] == [];
    assert Sum(f) == 1.0;
    var d := Normalized(f);
    assert d[0] * 1.0 == 0.5 && d[1] * 1.0 == 0.5;
  }

  /** `get_normalized_eigencentrality` after the graph is chosen: the fixed
      [0.5, 0.5] when the graph has fewer than two edges, otherwise the
      solver's centralities; either divided by their sum. */
  function NormalizedEigencentrality(numberOfEdges: nat, centralities: seq<real>): (e: seq<real>)
    requires numberOfEdges >= 2 ==> Sum(centralities) != 0.0
    ensures Sum(e) == 1.0
    ensures numberOfEdges < 2 ==> e == [0.5, 0.5]
    ensures numberOfEdges >= 2 ==>
      |e| == |centralities| && forall i :: 0 <= i < |e| ==> e[i] * Sum(centralities) == centralities[i]
    ensures numberOfEdges < 2 || NonNegative(centralities) ==> NonNegative(e)
  {
    FallbackCentralitiesNormalized();
    var raw := if numberOfEdges < 2 then FallbackCentralities else centralities;
    Normalized(raw)
  }
}
