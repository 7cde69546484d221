/**
 * The colour-histogram fingerprint of a cropped detection and the cosine
 * similarity between two fingerprints.
 *
 * Pixels are Kotlin `Int`s holding ARGB. `(pixel shr k) and 0xFF` is written
 * `(pixel / 2^k) % 256`: an arithmetic right shift is division rounded down,
 * and masking the low eight bits of a two's-complement value is its
 * non-negative remainder modulo 256, which is exactly what Dafny's Euclidean
 * `/` and `%` compute, negative pixels (alpha >= 0x80) included.
 *
 * Histogram entries and the similarity are `Float`s in the source; here they
 * are exact `real`s, and `sqrt` is a parameter (see `IsSqrt`).
 */
module FeatureExtractor {
  import opened Graphics

  const BinsPerChannel: int := 4
  const TotalBins: int := BinsPerChannel * BinsPerChannel * BinsPerChannel
  const BinSize: int := 256 / BinsPerChannel

  // ---------------------------------------------------------------------------
  // Quantisation of one pixel

  function Red(pixel: Int32): (c: int)
    ensures 0 <= c < 256
  {
    (pixel / 0x1_0000) % 0x100
  }

  function Green(pixel: Int32): (c: int)
    ensures 0 <= c < 256
  {
    (pixel / 0x100) % 0x100
  }

  function Blue(pixel: Int32): (c: int)
    ensures 0 <= c < 256
  {
    pixel % 0x100
  }

  /** `(channel / binSize).coerceAtMost(BINS_PER_CHANNEL - 1)`; the clamp never changes the value. */
  function Bin(channel: int): (b: int)
    requires 0 <= channel < 256
    ensures 0 <= b < BinsPerChannel
    ensures b == channel / BinSize
  {
    var q := channel / BinSize;
    if q > BinsPerChannel - 1 then BinsPerChannel - 1 else q
  }

  /** The flat bin `rBin * 16 + gBin * 4 + bBin` of a pixel; the three channel bins can be read back from it. */
  function BinIndex(pixel: Int32): (index: int)
    ensures 0 <= index < TotalBins
    ensures index / 16 == Bin(Red(pixel))
    ensures index / 4 % 4 == Bin(Green(pixel))
    ensures index % 4 == Bin(Blue(pixel))
  {
    var r, g, b := Bin(Red(pixel)), Bin(Green(pixel)), Bin(Blue(pixel));
    assert r * BinsPerChannel * BinsPerChannel + g * BinsPerChannel + b == 16 * r + 4 * g + b;
    BaseFourDigits(r, g, b);
    r * BinsPerChannel * BinsPerChannel + g * BinsPerChannel + b
  }

  lemma BaseFourDigits(r: int, g: int, b: int)
    requires 0 <= r < 4 && 0 <= g < 4 && 0 <= b < 4
    ensures 0 <= 16 * r + 4 * g + b < 64
    ensures (16 * r + 4 * g + b) / 16 == r
    ensures (16 * r + 4 * g + b) / 4 % 4 == g
    ensures (16 * r + 4 * g + b) % 4 == b
  {
  }

  /** Two pixels share a bin exactly when all three of their channel bins agree. */
  lemma SameBinIffSameChannelBins(p: Int32, q: Int32)
    ensures BinIndex(p) == BinIndex(q) <==>
      Bin(Red(p)) == Bin(Red(q)) && Bin(Green(p)) == Bin(Green(q)) && Bin(Blue(p)) == Bin(Blue(q))
  {
    if BinIndex(p) == BinIndex(q) {
      assert Bin(Red(p)) == BinIndex(p) / 16 == Bin(Red(q));
      assert Bin(Green(p)) == BinIndex(p) / 4 % 4 == Bin(Green(q));
      assert Bin(Blue(p)) == BinIndex(p) % 4 == Bin(Blue(q));
    }
  }

  // ---------------------------------------------------------------------------
  // Specification of the histogram

  /** The bin counts after the counting loop has seen `pixels`. */
  function Counts(pixels: seq<Int32>): (counts: seq<nat>)
    ensures |counts| == TotalBins
    decreases |pixels|
  {
    if pixels == [] then seq(TotalBins, _ => 0)
    else
      var counts := Counts(pixels[..|pixels| - 1]);
      var index := BinIndex(pixels[|pixels| - 1]);
      counts[index := counts[index] + 1]
  }

  /** The normalisation step: every count divided by `total`, or the counts unchanged when `total` is 0. */
  function Normalise(counts: seq<nat>, total: nat): (h: seq<real>)
    ensures |h| == |counts|
  {
    if total > 0 then seq(|counts|, i requires 0 <= i < |counts| => counts[i] as real / total as real)
    else seq(|counts|, i requires 0 <= i < |counts| => counts[i] as real)
  }

  /** What `extractColorHistogram` returns for an image with these pixels. */
  function Histogram(pixels: seq<Int32>): (h: seq<real>)
    ensures |h| == TotalBins
  {
    Normalise(Counts(pixels), |pixels|)
  }

  /** The flat bin of every pixel, in pixel order. */
  function BinIndices(pixels: seq<Int32>): (indices: seq<int>)
    ensures |indices| == |pixels|
  {
    seq(|pixels|, j requires 0 <= j < |pixels| => BinIndex(pixels[j]))
  }

  function Total(s: seq<nat>): nat {
    if s == [] then 0 else s[0] + Total(s[1..])
  }

  function SumReal(s: seq<real>): real {
    if s == [] then 0.0 else s[0] + SumReal(s[1..])
  }

  function OneHot(k: int): (h: seq<real>)
    ensures |h| == TotalBins
  {
    seq(TotalBins, i => if i == k then 1.0 else 0.0)
  }

  // ---------------------------------------------------------------------------
  // The method

  /**
   * Counts every pixel into its bin of a fresh 64-entry array, then divides
   * every entry by the pixel count when there is at least one pixel.
   */
  method ExtractColorHistogram(bitmap: Bitmap) returns (histogram: array<real>)
    ensures fresh(histogram)
    ensures histogram[..] == Histogram(bitmap.pixels)
  {
    histogram := new real[TotalBins](_ => 0.0);
    var pixels := bitmap.pixels;
    for i := 0 to |pixels|
      invariant forall k :: 0 <= k < TotalBins ==> histogram[k] == Counts(pixels[..i])[k] as real
    {
      var index := BinIndex(pixels[i]);
      histogram[index] := histogram[index] + 1.0;
      assert pixels[..i + 1][..i] == pixels[..i];
    }
    assert pixels[..|pixels|] == pixels;
    ghost var counts := Counts(pixels);
    var total := |pixels| as real;
    if total > 0.0 {
      for i := 0 to histogram.Length
        invariant forall k :: 0 <= k < i ==> histogram[k] == counts[k] as real / total
        invariant forall k :: i <= k < TotalBins ==> histogram[k] == counts[k] as real
      {
        histogram[i] := histogram[i] / total;
      }
    }
    assert histogram[..] == Histogram(pixels) by {
      forall k | 0 <= k < TotalBins
        ensures histogram[k] == Histogram(pixels)[k]
      {
      }
    }
  }

  // ---------------------------------------------------------------------------
  // Properties of the histogram

  lemma {:induction false} TotalIncrement(s: seq<nat>, k: int)
    requires 0 <= k < |s|
    ensures Total(s[k := s[k] + 1]) == Total(s) + 1
  {
    if k > 0 {
      assert s[k := s[k] + 1][1..] == s[1..][k - 1 := s[1..][k - 1] + 1];
      TotalIncrement(s[1..], k - 1);
    } else {
      assert s[k := s[k] + 1][1..] == s[1..];
    }
  }

  /** Before normalisation the bin counts add up to the number of pixels. */
  lemma {:induction false} CountsTotal(pixels: seq<Int32>)
    ensures Total(Counts(pixels)) == |pixels|
    decreases |pixels|
  {
    if pixels == [] {
      TotalOfZeros(TotalBins);
    } else {
      var prefix := pixels[..|pixels| - 1];
      CountsTotal(prefix);
      TotalIncrement(Counts(prefix), BinIndex(pixels[|pixels| - 1]));
    }
  }

  /** Each pixel adds exactly one to exactly one bin: bin `k` counts the pixels whose flat bin is `k`. */
  lemma {:induction false} CountsAreBinMultiplicities(pixels: seq<Int32>, k: int)
    requires 0 <= k < TotalBins
    ensures Counts(pixels)[k] == multiset(BinIndices(pixels))[k]
    decreases |pixels|
  {
    if pixels != [] {
      var prefix := pixels[..|pixels| - 1];
      CountsAreBinMultiplicities(prefix, k);
      assert BinIndices(pixels) == BinIndices(prefix) + [BinIndex(pixels[|pixels| - 1])];
    }
  }

  lemma {:induction false} TotalOfZeros(n: nat)
    ensures Total(seq(n, _ => 0)) == 0
  {
    if n > 0 {
      assert seq(n, _ => 0)[1..] == seq(n - 1, _ => 0);
      TotalOfZeros(n - 1);
    }
  }

  lemma {:induction false} SumOfScaled(counts: seq<nat>, total: nat)
    requires total > 0
    ensures SumReal(Normalise(counts, total)) == Total(counts) as real / total as real
  {
    if counts != [] {
      var h := Normalise(counts, total);
      assert h[1..] == Normalise(counts[1..], total);
      SumOfScaled(counts[1..], total);
      assert h[0] == counts[0] as real / total as real;
      AddQuotients(counts[0] as real, Total(counts[1..]) as real, total as real);
    }
  }

  lemma AddQuotients(a: real, b: real, d: real)
    requires d > 0.0
    ensures a / d + b / d == (a + b) / d
  {
  }

  /** A non-empty image's histogram is a probability distribution: its entries add up to 1. */
  lemma HistogramSumsToOne(pixels: seq<Int32>)
    requires |pixels| > 0
    ensures SumReal(Histogram(pixels)) == 1.0
  {
    var counts, n := Counts(pixels), |pixels|;
    CountsTotal(pixels);
    SumOfScaled(counts, n);
    SelfQuotient(n as real);
  }

  lemma SelfQuotient(r: real)
    requires r > 0.0
    ensures r / r == 1.0
  {
  }

  /** Each entry of a non-empty image's histogram is the fraction of pixels in that bin. */
  lemma HistogramEntriesAreFractions(pixels: seq<Int32>, k: int)
    requires |pixels| > 0 && 0 <= k < TotalBins
    ensures Histogram(pixels)[k] == multiset(BinIndices(pixels))[k] as real / |pixels| as real
    ensures 0.0 <= Histogram(pixels)[k] <= 1.0
  {
    var counts, n := Counts(pixels), |pixels|;
    CountsAreBinMultiplicities(pixels, k);
    CountsTotal(pixels);
    CountWithinTotal(counts, k);
    FractionAtMostOne(counts[k], n);
  }

  lemma FractionAtMostOne(part: nat, whole: nat)
    requires 0 < whole && part <= whole
    ensures 0.0 <= part as real / whole as real <= 1.0
  {
    var p, w := part as real, whole as real;
    assert p / w * w == p;
  }

  lemma {:induction false} CountWithinTotal(s: seq<nat>, k: int)
    requires 0 <= k < |s|
    ensures s[k] <= Total(s)
  {
    if k > 0 {
      CountWithinTotal(s[1..], k - 1);
    }
  }

  /** A zero-pixel image yields the all-zero histogram, whose entries add up to 0. */
  lemma EmptyImageHistogram()
    ensures Histogram([]) == seq(TotalBins, _ => 0.0)
    ensures SumReal(Histogram([])) == 0.0
  {
    assert Histogram([]) == seq(TotalBins, _ => 0.0);
    ZerosSum(TotalBins);
  }

  lemma {:induction false} ZerosSum(n: nat)
    ensures SumReal(seq(n, _ => 0.0)) == 0.0
  {
    if n > 0 {
      assert seq(n, _ => 0.0)[1..] == seq(n - 1, _ => 0.0);
      ZerosSum(n - 1);
    }
  }

  lemma {:induction false} CountsOfOneBin(pixels: seq<Int32>, k: int)
    requires forall j :: 0 <= j < |pixels| ==> BinIndex(pixels[j]) == k
    requires 0 <= k < TotalBins
    ensures Counts(pixels) == seq(TotalBins, i => if i == k then |pixels| else 0)
    decreases |pixels|
  {
    if pixels != [] {
      CountsOfOneBin(pixels[..|pixels| - 1], k);
    }
  }

  /** An image of a single colour puts all of its mass in that colour's bin. */
  lemma SingleColourHistogram(pixels: seq<Int32>, colour: Int32)
    requires |pixels| > 0
    requires forall j :: 0 <= j < |pixels| ==> pixels[j] == colour
    ensures Histogram(pixels) == OneHot(BinIndex(colour))
  {
    var k, n := BinIndex(colour), |pixels|;
    CountsOfOneBin(pixels, k);
    var counts := seq(TotalBins, i => if i == k then n else 0);
    forall i | 0 <= i < TotalBins
      ensures Normalise(counts, n)[i] == OneHot(k)[i]
    {
      NormalisedOneBin(n, k, i);
    }
  }

  lemma NormalisedOneBin(n: nat, k: int, i: int)
    requires n > 0 && 0 <= i < TotalBins
    ensures Normalise(seq(TotalBins, j => if j == k then n else 0), n)[i] == OneHot(k)[i]
  {
    if i == k {
      SelfQuotient(n as real);
    }
  }

  // ---------------------------------------------------------------------------
  // Cosine similarity

  /** `sqrt` is the square root on non-negative arguments: 0 at 0, and the positive root of every positive number. */
  ghost predicate IsSqrt(sqrt: real -> real) {
    && sqrt(0.0) == 0.0
    && forall x: real :: 0.0 < x ==> 0.0 < sqrt(x) && sqrt(x) * sqrt(x) == x
  }

  /** Sum of the pairwise products, accumulated from the first index up. */
  function Dot(a: seq<real>, b: seq<real>): real
    requires |a| == |b|
    decreases |a|
  {
    if |a| == 0 then 0.0 else Dot(a[..|a| - 1], b[..|b| - 1]) + a[|a| - 1] * b[|b| - 1]
  }

  /** What `cosineSimilarity` returns, with `sqrt` for the square root. */
  function Cosine(a: seq<real>, b: seq<real>, sqrt: real -> real): real {
    if |a| != |b| then 0.0
    else
      var denominator := sqrt(Dot(a, a)) * sqrt(Dot(b, b));
      if denominator > 0.0 then Dot(a, b) / denominator else 0.0
  }

  /**
   * Length guard, then one pass accumulating the dot product and both squared
   * norms, then the guarded division.
   */
  method CosineSimilarity(a: seq<real>, b: seq<real>, sqrt: real -> real) returns (similarity: real)
    ensures |a| != |b| ==> similarity == 0.0
    ensures similarity == Cosine(a, b, sqrt)
  {
    if |a| != |b| {
      return 0.0;
    }
    var dotProduct, normA, normB := 0.0, 0.0, 0.0;
    for i := 0 to |a|
      invariant dotProduct == Dot(a[..i], b[..i])
      invariant normA == Dot(a[..i], a[..i])
      invariant normB == Dot(b[..i], b[..i])
    {
      assert a[..i + 1][..i] == a[..i];
      assert b[..i + 1][..i] == b[..i];
      dotProduct := dotProduct + a[i] * b[i];
      normA := normA + a[i] * a[i];
      normB := normB + b[i] * b[i];
    }
    assert a[..|a|] == a;
    assert b[..|b|] == b;
    var denominator := sqrt(normA) * sqrt(normB);
    similarity := if denominator > 0.0 then dotProduct / denominator else 0.0;
  }

  lemma {:induction false} DotSymmetric(a: seq<real>, b: seq<real>)
    requires |a| == |b|
    ensures Dot(a, b) == Dot(b, a)
    decreases |a|
  {
    if |a| > 0 {
      DotSymmetric(a[..|a| - 1], b[..|b| - 1]);
    }
  }

  /** Similarity does not depend on the order of its arguments. */
  lemma CosineSymmetric(a: seq<real>, b: seq<real>, sqrt: real -> real)
    ensures Cosine(a, b, sqrt) == Cosine(b, a, sqrt)
  {
    if |a| == |b| {
      DotSymmetric(a, b);
    }
  }

  /** The squared norm is zero for the all-zero vector and positive for every other vector. */
  lemma {:induction false} SquaredNormSign(a: seq<real>)
    ensures Dot(a, a) >= 0.0
    ensures (forall i :: 0 <= i < |a| ==> a[i] == 0.0) ==> Dot(a, a) == 0.0
    ensures (exists i :: 0 <= i < |a| && a[i] != 0.0) ==> Dot(a, a) > 0.0
    decreases |a|
  {
    if |a| > 0 {
      var prefix, last := a[..|a| - 1], a[|a| - 1];
      SquaredNormSign(prefix);
      AddSquare(Dot(prefix, prefix), last);
      if exists i :: 0 <= i < |a| && a[i] != 0.0 {
        var i :| 0 <= i < |a| && a[i] != 0.0;
        if i < |a| - 1 {
          assert prefix[i] != 0.0;
        }
      }
      if forall i :: 0 <= i < |a| ==> a[i] == 0.0 {
        assert forall i :: 0 <= i < |prefix| ==> prefix[i] == a[i];
      }
    }
  }

  /** Adding a square to a non-negative sum keeps it non-negative, and positive when either part is. */
  lemma AddSquare(p: real, x: real)
    requires p >= 0.0
    ensures p + x * x >= 0.0
    ensures p > 0.0 || x != 0.0 ==> p + x * x > 0.0
    ensures p == 0.0 && x == 0.0 ==> p + x * x == 0.0
  {
    if x > 0.0 {
      PositiveProduct(x, x);
      AddPositive(p, x, x);
    } else if x < 0.0 {
      PositiveProduct(-x, -x);
      AddPositive(p, x, x);
    }
  }

  lemma PositiveProduct(x: real, y: real)
    requires x > 0.0 && y > 0.0
    ensures x * y > 0.0
  {
  }

  lemma AddPositive(p: real, x: real, y: real)
    requires p >= 0.0 && x * y > 0.0
    ensures p + x * y > 0.0
  {
  }

  /** The zero-denominator guard: an all-zero vector on either side gives similarity 0. */
  lemma CosineOfZeroVector(a: seq<real>, b: seq<real>, sqrt: real -> real)
    requires IsSqrt(sqrt)
    requires (forall i :: 0 <= i < |a| ==> a[i] == 0.0) || (forall i :: 0 <= i < |b| ==> b[i] == 0.0)
    ensures Cosine(a, b, sqrt) == 0.0
  {
    if |a| == |b| {
      SquaredNormSign(a);
      SquaredNormSign(b);
    }
  }

  /** A non-zero vector is perfectly similar to itself. */
  lemma CosineSelf(a: seq<real>, sqrt: real -> real)
    requires IsSqrt(sqrt)
    requires exists i :: 0 <= i < |a| && a[i] != 0.0
    ensures Cosine(a, a, sqrt) == 1.0
  {
    SquaredNormSign(a);
    var n := Dot(a, a);
    assert n > 0.0;
    var root := sqrt(n);
    assert root * root == n;
    SelfQuotient(n);
  }

  lemma {:induction false} DotOfPrefixOneHots(n: nat, j: int, k: int)
    requires n <= TotalBins
    ensures Dot(OneHot(j)[..n], OneHot(k)[..n]) == if j == k && 0 <= j < n then 1.0 else 0.0
  {
    if n > 0 {
      assert OneHot(j)[..n][..n - 1] == OneHot(j)[..n - 1];
      assert OneHot(k)[..n][..n - 1] == OneHot(k)[..n - 1];
      DotOfPrefixOneHots(n - 1, j, k);
    }
  }

  lemma CosineOfOneHots(j: int, k: int, sqrt: real -> real)
    requires IsSqrt(sqrt)
    requires 0 <= j < TotalBins && 0 <= k < TotalBins
    ensures Cosine(OneHot(j), OneHot(k), sqrt) == if j == k then 1.0 else 0.0
  {
    assert OneHot(j)[..TotalBins] == OneHot(j);
    assert OneHot(k)[..TotalBins] == OneHot(k);
    DotOfPrefixOneHots(TotalBins, j, j);
    DotOfPrefixOneHots(TotalBins, k, k);
    DotOfPrefixOneHots(TotalBins, j, k);
    var one := sqrt(1.0);
    assert one > 0.0 && one * one == 1.0;
    SquareOne(one);
  }

  lemma SquareOne(x: real)
    requires x > 0.0 && x * x == 1.0
    ensures x == 1.0
  {
    if x < 1.0 {
      SquareBelowOne(x);
    } else if x > 1.0 {
      SquareAboveOne(x);
    }
  }

  lemma SquareBelowOne(x: real)
    requires 0.0 <= x < 1.0
    ensures x * x < 1.0
  {
    assert x * x <= x;
  }

  lemma SquareAboveOne(x: real)
    requires x > 1.0
    ensures x * x > 1.0
  {
    assert x * x >= x;
  }

  lemma {:induction false} NonZeroSumHasNonZeroEntry(s: seq<real>)
    requires SumReal(s) != 0.0
    ensures exists i :: 0 <= i < |s| && s[i] != 0.0
  {
    if s[0] == 0.0 {
      NonZeroSumHasNonZeroEntry(s[1..]);
      var i :| 0 <= i < |s[1..]| && s[1..][i] != 0.0;
      assert s[i + 1] != 0.0;
    }
  }

  /** The histogram of a non-empty image is perfectly similar to itself. */
  lemma HistogramSelfSimilar(pixels: seq<Int32>, sqrt: real -> real)
    requires IsSqrt(sqrt)
    requires |pixels| > 0
    ensures Cosine(Histogram(pixels), Histogram(pixels), sqrt) == 1.0
  {
    HistogramSumsToOne(pixels);
    NonZeroSumHasNonZeroEntry(Histogram(pixels));
    CosineSelf(Histogram(pixels), sqrt);
  }

  /**
   * Two non-empty single-colour images have similarity 1 when their colours
   * fall in the same bin and 0 otherwise.
   */
  lemma SingleColourSimilarity(p: seq<Int32>, q: seq<Int32>, colourP: Int32, colourQ: Int32, sqrt: real -> real)
    requires IsSqrt(sqrt)
    requires |p| > 0 && forall j :: 0 <= j < |p| ==> p[j] == colourP
    requires |q| > 0 && forall j :: 0 <= j < |q| ==> q[j] == colourQ
    ensures Cosine(Histogram(p), Histogram(q), sqrt) == if BinIndex(colourP) == BinIndex(colourQ) then 1.0 else 0.0
  {
    SingleColourHistogram(p, colourP);
    SingleColourHistogram(q, colourQ);
    CosineOfOneHots(BinIndex(colourP), BinIndex(colourQ), sqrt);
  }
}
