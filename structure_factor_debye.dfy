/**
 * freud's StaticStructureFactorDebye: S(k) from the Debye scattering
 * equation, accumulated frame by frame into a histogram over k and normalised
 * on demand.
 *
 * Each frame adds, to every k bin, the sum over all point/query-point
 * distances d of sinc(k d), divided by the total number of points; it also
 * lowers the smallest k at which the result is meaningful for the box seen.
 * `reduce` copies the histogram out and divides by the number of frames when
 * there is more than one.
 *
 * The floating-point services the code calls (sinc, nextafter, the box's
 * distance computation) are parameters; the model states only what the code
 * relies on about them.
 */
module StaticStructureFactorDebye {
  import opened Wrappers
  import opened Numbers
  import opened Geometry

  /** freud::constants::TWO_PI as a float. */
  const TWO_PI: real := 6.2831853071795864769

  // ---------------------------------------------------------------------------
  // Constructor validation
  // ---------------------------------------------------------------------------

  /** The constructor's invalid_argument cases, one per check. */
  datatype DebyeError = ZeroBins | NonPositiveKMax | NegativeKMin | EmptyKRange

  /** The constructor's checks, in the order the code makes them: the first failing one is reported. */
  function Validate(bins: u32, kMax: real, kMin: real): (r: Option<DebyeError>)
    ensures r.None? <==> bins > 0 && kMax > 0.0 && kMin >= 0.0 && kMax > kMin
    ensures bins == 0 ==> r == Some(ZeroBins)
    ensures r == Some(NonPositiveKMax) <==> bins > 0 && kMax <= 0.0
    ensures r == Some(NegativeKMin) <==> bins > 0 && kMax > 0.0 && kMin < 0.0
    ensures r == Some(EmptyKRange) <==> bins > 0 && kMax > 0.0 && kMin >= 0.0 && kMax <= kMin
  {
    if bins == 0 then Some(ZeroBins)
    else if kMax <= 0.0 then Some(NonPositiveKMax)
    else if kMin < 0.0 then Some(NegativeKMin)
    else if kMax <= kMin then Some(EmptyKRange)
    else None
  }

  /** Multiplying by a non-negative factor keeps the order. */
  lemma ScaleMono(a: real, b: real, c: real)
    requires a <= b && c >= 0.0
    ensures a * c <= b * c
  {
    assert b * c - a * c == (b - a) * c;
  }

  /** The width of each of `bins` equal bins on `[kMin, kMax)`: positive, and `bins` of them span the range. */
  function BinWidth(kMin: real, kMax: real, bins: nat): (w: real)
    requires bins > 0 && kMin < kMax
    ensures w > 0.0 && w * bins as real == kMax - kMin
  {
    (kMax - kMin) / bins as real
  }

  /**
   * The centre of k bin `i` of `bins` equal-width bins on `[kMin, kMax)`,
   * halfway between the bin's edges: strictly inside the range.
   */
  function KCenter(kMin: real, kMax: real, bins: nat, i: nat): (k: real)
    requires bins > 0 && kMin < kMax && i < bins
    ensures kMin < k < kMax
  {
    var w := BinWidth(kMin, kMax, bins);
    ScaleMono(0.0, i as real, w);
    ScaleMono(i as real + 1.0, bins as real, w);
    kMin + (i as real + 0.5) * w
  }

  /** The bin centres increase strictly with the bin index, one bin width apart. */
  lemma KCentersIncrease(kMin: real, kMax: real, bins: nat, i: nat, j: nat)
    requires bins > 0 && kMin < kMax && i < j < bins
    ensures KCenter(kMin, kMax, bins, i) + BinWidth(kMin, kMax, bins) <= KCenter(kMin, kMax, bins, j)
  {
    ScaleMono(i as real + 1.0, j as real, BinWidth(kMin, kMax, bins));
  }

  // ---------------------------------------------------------------------------
  // The cutoff and the smallest valid k
  // ---------------------------------------------------------------------------

  /** An extended real: the running minimum starts at +infinity. */
  datatype ExtReal = Finite(value: real) | PosInf

  predicate AtMost(a: ExtReal, b: ExtReal)
  {
    b.PosInf? || (a.Finite? && a.value <= b.value)
  }

  /** `std::min` on extended reals. */
  function ExtMin(a: ExtReal, b: ExtReal): (m: ExtReal)
    ensures AtMost(m, a) && AtMost(m, b)
    ensures m == a || m == b
  {
    if b.PosInf? then a
    else if a.PosInf? then b
    else if b.value < a.value then b else a
  }

  /** The smallest side length: Lx and Ly in 2D, all three in 3D. */
  function MinSide(box: Box): (m: real)
    requires ValidBox(box)
    ensures m > 0.0
    ensures m <= box.lx && m <= box.ly && (!box.is2D ==> m <= box.lz)
    ensures m == box.lx || m == box.ly || (!box.is2D && m == box.lz)
  {
    var xy := if box.ly < box.lx then box.ly else box.lx;
    if box.is2D || xy <= box.lz then xy else box.lz
  }

  /** `std::nextafter(x, 0)` for positive `x`: the next value toward zero, still positive. */
  ghost predicate StepsDown(below: real -> real)
  {
    forall x :: x > 0.0 ==> 0.0 < below(x) < x
  }

  /** The cutoff of a frame: just less than half the smallest side length, and positive. */
  function RMax(box: Box, below: real -> real): (r: real)
    requires ValidBox(box) && StepsDown(below)
    ensures 0.0 < r < 0.5 * MinSide(box)
    ensures r < 0.5 * box.lx && r < 0.5 * box.ly && (!box.is2D ==> r < 0.5 * box.lz)
  {
    below(0.5 * MinSide(box))
  }

  /** The smallest k for which this frame's result is valid, `2π / r_max`. */
  function FrameMinK(box: Box, below: real -> real): (k: real)
    requires ValidBox(box) && StepsDown(below)
    ensures k > 0.0
  {
    TWO_PI / RMax(box, below)
  }

  /** `m_min_valid_k` after a run of frames with the given validity bounds, starting from `init`. */
  function MinValidKAfter(init: ExtReal, bounds: seq<real>): ExtReal
  {
    if bounds == [] then init else ExtMin(MinValidKAfter(init, bounds[..|bounds| - 1]), Finite(bounds[|bounds| - 1]))
  }

  /**
   * After any run of frames the running minimum is no larger than where it
   * started nor than any frame's bound, and it is one of those values.
   */
  lemma {:induction false} MinValidKIsMinimum(init: ExtReal, bounds: seq<real>)
    ensures AtMost(MinValidKAfter(init, bounds), init)
    ensures forall n :: 0 <= n < |bounds| ==> AtMost(MinValidKAfter(init, bounds), Finite(bounds[n]))
    ensures MinValidKAfter(init, bounds) == init || exists n :: 0 <= n < |bounds| && MinValidKAfter(init, bounds) == Finite(bounds[n])
  {
    if bounds != [] {
      var front := bounds[..|bounds| - 1];
      MinValidKIsMinimum(init, front);
      var m := MinValidKAfter(init, front);
      var last := Finite(bounds[|bounds| - 1]);
      forall n | 0 <= n < |bounds|
        ensures AtMost(MinValidKAfter(init, bounds), Finite(bounds[n]))
      {
        if n < |front| {
          assert front[n] == bounds[n];
        }
      }
      if MinValidKAfter(init, bounds) != init && MinValidKAfter(init, bounds) != last {
        var n :| 0 <= n < |front| && m == Finite(front[n]);
        assert front[n] == bounds[n];
      }
    }
  }

  /** Adding a frame never raises the smallest valid k. */
  lemma MinValidKNeverIncreases(init: ExtReal, bounds: seq<real>, b: real)
    ensures AtMost(MinValidKAfter(init, bounds + [b]), MinValidKAfter(init, bounds))
  {
    assert (bounds + [b])[..|bounds|] == bounds;
  }

  // ---------------------------------------------------------------------------
  // One frame's contribution
  // ---------------------------------------------------------------------------

  /**
   * The floating-point services accumulate calls: the box's distance between
   * a point and a query point, `util::sinc`, and `std::nextafter(x, 0)`.
   */
  datatype Numerics = Numerics(dist: (Box, Vec3, Vec3) -> real, sinc: real -> real, below: real -> real)

  /**
   * The distances between every point and every query point, as the box
   * computes them: the query points of the first point, then of the second,
   * and so on.
   */
  function AllDistances(box: Box, dist: (Box, Vec3, Vec3) -> real, points: seq<Vec3>, queries: seq<Vec3>): (ds: seq<real>)
    ensures |ds| == |points| * |queries|
  {
    if points == [] then []
    else
      var front := AllDistances(box, dist, points[..|points| - 1], queries);
      assert |front| + |queries| == |points| * |queries|;
      front + seq(|queries|, q requires 0 <= q < |queries| => dist(box, points[|points| - 1], queries[q]))
  }

  /** Entry `n * |queries| + q` is the distance from point `n` to query point `q`. */
  lemma {:induction false} AllDistancesEntry(box: Box, dist: (Box, Vec3, Vec3) -> real, points: seq<Vec3>, queries: seq<Vec3>, n: nat, q: nat)
    requires n < |points| && q < |queries|
    ensures n * |queries| + q < |points| * |queries|
    ensures AllDistances(box, dist, points, queries)[n * |queries| + q] == dist(box, points[n], queries[q])
  {
    var np := |points|;
    var nq := |queries|;
    var front := points[..np - 1];
    var ds := AllDistances(box, dist, points, queries);
    var fr := AllDistances(box, dist, front, queries);
    var row := seq(nq, q' requires 0 <= q' < nq => dist(box, points[np - 1], queries[q']));
    assert ds == fr + row;
    MulMono(n + 1, np, nq);
    assert (n + 1) * nq == n * nq + nq;
    if n < np - 1 {
      MulMono(n + 1, np - 1, nq);
      AllDistancesEntry(box, dist, front, queries, n, q);
      assert front[n] == points[n];
      assert ds[n * nq + q] == fr[n * nq + q];
    } else {
      assert n * nq + q == |fr| + q;
      assert ds[|fr| + q] == row[q];
    }
  }

  /** One term of the Debye sum: sinc(k d). */
  function Term(sinc: real -> real, k: real, d: real): real
  {
    sinc(k * d)
  }

  /** `S_k` before the division: the sum of sinc(k d) over the distances, in order. */
  function SincSum(sinc: real -> real, k: real, ds: seq<real>): real
  {
    if ds == [] then 0.0 else SincSum(sinc, k, ds[..|ds| - 1]) + Term(sinc, k, ds[|ds| - 1])
  }

  /**
   * Coincident points: when every distance is 0, every term is sinc(0) = 1
   * whatever k is, so the sum counts the distances.
   */
  lemma {:induction false} SincSumCoincident(sinc: real -> real, k: real, ds: seq<real>)
    requires sinc(0.0) == 1.0
    requires forall n :: 0 <= n < |ds| ==> ds[n] == 0.0
    ensures SincSum(sinc, k, ds) == |ds| as real
  {
    if ds != [] {
      SincSumCoincident(sinc, k, ds[..|ds| - 1]);
      assert ds[|ds| - 1] == 0.0;
      assert k * ds[|ds| - 1] == 0.0;
    }
  }

  /** With |sinc| <= 1 the sum is bounded by the number of distances. */
  lemma {:induction false} SincSumBounded(sinc: real -> real, k: real, ds: seq<real>)
    requires forall x :: -1.0 <= sinc(x) <= 1.0
    ensures -(|ds| as real) <= SincSum(sinc, k, ds) <= |ds| as real
  {
    if ds != [] {
      SincSumBounded(sinc, k, ds[..|ds| - 1]);
    }
  }

  /** One more distance adds its own term to the sum. */
  lemma SincSumSnoc(sinc: real -> real, k: real, ds: seq<real>, d: real)
    ensures SincSum(sinc, k, ds + [d]) == SincSum(sinc, k, ds) + Term(sinc, k, d)
  {
    assert (ds + [d])[..|ds|] == ds;
  }

  /** The inner loop of accumulate: `S_k += sinc(k * distance)` over every distance. */
  method SumSinc(sinc: real -> real, k: real, ds: seq<real>) returns (s: real)
    ensures s == SincSum(sinc, k, ds)
  {
    s := 0.0;
    var n := 0;
    while n < |ds|
      invariant 0 <= n <= |ds|
      invariant s == SincSum(sinc, k, ds[..n])
    {
      var term := sinc(k * ds[n]);
      SincSumSnoc(sinc, k, ds[..n], ds[n]);
      assert ds[..n + 1] == ds[..n] + [ds[n]];
      assert term == Term(sinc, k, ds[n]);
      s := s + term;
      n := n + 1;
    }
    assert ds[..n] == ds;
  }

  /** What one frame adds to each k bin: `S_k / n_total`. */
  function FrameValues(kMin: real, kMax: real, bins: nat, sinc: real -> real, ds: seq<real>, nTotal: nat): (v: seq<real>)
    requires bins > 0 && kMin < kMax && nTotal > 0
    ensures |v| == bins
    ensures forall i :: 0 <= i < bins ==> v[i] == SincSum(sinc, KCenter(kMin, kMax, bins, i), ds) / nTotal as real
  {
    seq(bins, i requires 0 <= i < bins => SincSum(sinc, KCenter(kMin, kMax, bins, i), ds) / nTotal as real)
  }

  /**
   * A frame whose distances are all 0 adds the same value, the number of
   * pairs over n_total, to every k bin.
   */
  lemma FrameValuesCoincident(kMin: real, kMax: real, bins: nat, sinc: real -> real, ds: seq<real>, nTotal: nat)
    requires bins > 0 && kMin < kMax && nTotal > 0
    requires sinc(0.0) == 1.0
    requires forall n :: 0 <= n < |ds| ==> ds[n] == 0.0
    ensures forall i :: 0 <= i < bins ==>
      FrameValues(kMin, kMax, bins, sinc, ds, nTotal)[i] == |ds| as real / nTotal as real
  {
    forall i | 0 <= i < bins
      ensures FrameValues(kMin, kMax, bins, sinc, ds, nTotal)[i] == |ds| as real / nTotal as real
    {
      SincSumCoincident(sinc, KCenter(kMin, kMax, bins, i), ds);
    }
  }

  /**
   * With |sinc| <= 1, no k bin gains more than the number of pairs over
   * n_total from one frame, in either direction.
   */
  lemma FrameValuesBounded(kMin: real, kMax: real, bins: nat, sinc: real -> real, ds: seq<real>, nTotal: nat)
    requires bins > 0 && kMin < kMax && nTotal > 0
    requires forall x :: -1.0 <= sinc(x) <= 1.0
    ensures forall i :: 0 <= i < bins ==>
      -(|ds| as real / nTotal as real) <= FrameValues(kMin, kMax, bins, sinc, ds, nTotal)[i] <= |ds| as real / nTotal as real
  {
    var n := nTotal as real;
    forall i | 0 <= i < bins
      ensures -(|ds| as real / n) <= FrameValues(kMin, kMax, bins, sinc, ds, nTotal)[i] <= |ds| as real / n
    {
      var sk := SincSum(sinc, KCenter(kMin, kMax, bins, i), ds);
      SincSumBounded(sinc, KCenter(kMin, kMax, bins, i), ds);
      DivMono(-(|ds| as real), sk, n);
      DivMono(sk, |ds| as real, n);
    }
  }

  /** Division by a positive number keeps order. */
  lemma DivMono(a: real, b: real, n: real)
    requires a <= b && n > 0.0
    ensures a / n <= b / n
  {
    assert (b - a) / n >= 0.0;
  }

  /**
   * The k loop of accumulate: adds `S_k / n_total` for every bin's centre k
   * to that bin of the histogram.
   */
  method AddFrame(h: array<real>, kMin: real, kMax: real, sinc: real -> real, ds: seq<real>, nTotal: nat)
    requires h.Length > 0 && kMin < kMax && nTotal > 0
    modifies h
    ensures h[..] == Plus(old(h[..]), FrameValues(kMin, kMax, h.Length, sinc, ds, nTotal))
  {
    ghost var frame := FrameValues(kMin, kMax, h.Length, sinc, ds, nTotal);
    var kIndex := 0;
    while kIndex < h.Length
      invariant 0 <= kIndex <= h.Length
      invariant forall i :: 0 <= i < kIndex ==> h[i] == old(h[i]) + frame[i]
      invariant forall i :: kIndex <= i < h.Length ==> h[i] == old(h[i])
    {
      var k := KCenter(kMin, kMax, h.Length, kIndex);
      var sk := SumSinc(sinc, k, ds);
      sk := sk / nTotal as real;
      assert sk == frame[kIndex];
      h[kIndex] := h[kIndex] + sk;
      kIndex := kIndex + 1;
    }
  }

  // ---------------------------------------------------------------------------
  // Normalisation
  // ---------------------------------------------------------------------------

  /** Element-wise sum of equally long vectors. */
  function Plus(a: seq<real>, b: seq<real>): (c: seq<real>)
    requires |a| == |b|
    ensures |c| == |a|
    ensures forall i :: 0 <= i < |a| ==> c[i] == a[i] + b[i]
  {
    seq(|a|, i requires 0 <= i < |a| => a[i] + b[i])
  }

  /** What `reduce` writes: the histogram, divided by the frame count only when it exceeds 1. */
  function Normalized(h: seq<real>, frames: nat): (r: seq<real>)
    ensures |r| == |h|
    ensures frames <= 1 ==> r == h
    ensures frames > 1 ==> forall i :: 0 <= i < |h| ==> r[i] * frames as real == h[i]
  {
    if frames > 1 then seq(|h|, i requires 0 <= i < |h| => h[i] / frames as real) else h
  }

  /** The histogram after a run of frames, starting from zero. */
  function Accumulated(bins: nat, frames: seq<seq<real>>): (h: seq<real>)
    requires forall f :: 0 <= f < |frames| ==> |frames[f]| == bins
    ensures |h| == bins
  {
    if frames == [] then seq(bins, i => 0.0)
    else Plus(Accumulated(bins, frames[..|frames| - 1]), frames[|frames| - 1])
  }

  /** Adding vectors bin by bin is associative. */
  lemma PlusAssociative(a: seq<real>, b: seq<real>, c: seq<real>)
    requires |a| == |b| == |c|
    ensures Plus(Plus(a, b), c) == Plus(a, Plus(b, c))
  {
    var l := Plus(Plus(a, b), c);
    var r := Plus(a, Plus(b, c));
    assert forall i :: 0 <= i < |a| ==> l[i] == r[i];
  }

  /**
   * Frames may be summed into two separate histograms and the histograms
   * added afterwards (as the per-thread histograms are reduced into one):
   * the result is the histogram of all the frames.
   */
  lemma {:induction false} AccumulatedSplit(bins: nat, fs: seq<seq<real>>, gs: seq<seq<real>>)
    requires forall f :: 0 <= f < |fs| ==> |fs[f]| == bins
    requires forall f :: 0 <= f < |gs| ==> |gs[f]| == bins
    ensures forall f :: 0 <= f < |fs + gs| ==> |(fs + gs)[f]| == bins
    ensures Accumulated(bins, fs + gs) == Plus(Accumulated(bins, fs), Accumulated(bins, gs))
  {
    assert forall f :: 0 <= f < |fs + gs| ==> (fs + gs)[f] == if f < |fs| then fs[f] else gs[f - |fs|];
    if gs == [] {
      assert fs + gs == fs;
      var a := Accumulated(bins, fs);
      assert forall i :: 0 <= i < bins ==> Plus(a, Accumulated(bins, gs))[i] == a[i];
    } else {
      var front := gs[..|gs| - 1];
      var last := gs[|gs| - 1];
      assert (fs + gs)[..|fs + gs| - 1] == fs + front;
      AccumulatedSplit(bins, fs, front);
      PlusAssociative(Accumulated(bins, fs), Accumulated(bins, front), last);
    }
  }

  /** After n identical frames each bin holds n times the frame's value. */
  lemma {:induction false} AccumulatedIdentical(bins: nat, frames: seq<seq<real>>, v: seq<real>)
    requires |v| == bins && forall f :: 0 <= f < |frames| ==> frames[f] == v
    ensures forall i :: 0 <= i < bins ==> Accumulated(bins, frames)[i] == |frames| as real * v[i]
  {
    if frames != [] {
      AccumulatedIdentical(bins, frames[..|frames| - 1], v);
    }
  }

  /**
   * Averaging is consistent: after any positive number of identical frames,
   * `reduce` gives back that one frame's values, whether or not it divides.
   */
  lemma ReduceOfIdenticalFrames(bins: nat, frames: seq<seq<real>>, v: seq<real>)
    requires |v| == bins && |frames| >= 1 && forall f :: 0 <= f < |frames| ==> frames[f] == v
    ensures Normalized(Accumulated(bins, frames), |frames|) == v
  {
    AccumulatedIdentical(bins, frames, v);
    var r := Normalized(Accumulated(bins, frames), |frames|);
    forall i | 0 <= i < bins
      ensures r[i] == v[i]
    {
      if |frames| > 1 {
        assert r[i] * |frames| as real == |frames| as real * v[i];
      }
    }
  }

  /** With at most one frame `reduce` hands back the raw sums undivided. */
  lemma ReduceLeavesOneFrame(bins: nat, frames: seq<seq<real>>)
    requires |frames| <= 1 && forall f :: 0 <= f < |frames| ==> |frames[f]| == bins
    ensures |frames| == 0 ==> Normalized(Accumulated(bins, frames), |frames|) == seq(bins, i => 0.0)
    ensures |frames| == 1 ==> Normalized(Accumulated(bins, frames), |frames|) == frames[0]
  {
    if |frames| == 1 {
      assert frames[..0] == [];
      var zero := Accumulated(bins, frames[..0]);
      assert zero == seq(bins, i => 0.0);
      var h := Accumulated(bins, frames);
      assert h == Plus(zero, frames[0]);
      forall i | 0 <= i < bins
        ensures h[i] == frames[0][i]
      {
        assert zero[i] == 0.0;
      }
    }
  }

  // ---------------------------------------------------------------------------
  // The accumulator object
  // ---------------------------------------------------------------------------

  class StructureFactorDebye {
    const bins: nat
    const kMin: real
    const kMax: real
    /** `m_min_valid_k`. */
    var minValidK: ExtReal
    /** `m_frame_counter`. */
    var frameCounter: nat
    /** `m_reduce`: set when new frames await reduction. */
    var reduceFlag: bool
    /** The k histogram the frames are summed into (the thread-local histograms, reduced). */
    var hist: array<real>
    /** `m_structure_factor`, the output. */
    var structureFactor: array<real>

    ghost predicate Valid()
      reads this
    {
      && bins > 0 && kMin >= 0.0 && kMax > kMin
      && hist.Length == bins && structureFactor.Length == bins && hist != structureFactor
    }

    constructor (bins: u32, kMax: real, kMin: real)
      requires Validate(bins, kMax, kMin).None?
      ensures Valid()
      ensures this.bins == bins && this.kMax == kMax && this.kMin == kMin
      ensures minValidK == PosInf && frameCounter == 0 && reduceFlag
      ensures fresh(hist) && fresh(structureFactor)
      ensures hist[..] == seq(bins, i => 0.0) && structureFactor[..] == seq(bins, i => 0.0)
    {
      this.bins := bins;
      this.kMax := kMax;
      this.kMin := kMin;
      minValidK := PosInf;
      frameCounter := 0;
      reduceFlag := true;
      hist := new real[bins](i => 0.0);
      structureFactor := new real[bins](i => 0.0);
    }

    /** The constructor with its checks: the first failing check is thrown, in the code's order. */
    static method Create(bins: u32, kMax: real, kMin: real) returns (r: Result<StructureFactorDebye, DebyeError>)
      ensures r.Failure? <==> Validate(bins, kMax, kMin).Some?
      ensures r.Failure? ==> Validate(bins, kMax, kMin) == Some(r.error)
      ensures r.Success? ==> fresh(r.value) && r.value.Valid() && r.value.minValidK == PosInf
      ensures r.Success? ==> r.value.bins == bins && r.value.kMax == kMax && r.value.kMin == kMin
      ensures r.Success? ==> r.value.frameCounter == 0 && r.value.reduceFlag
      ensures r.Success? ==> fresh(r.value.hist) && fresh(r.value.structureFactor)
      ensures r.Success? ==> r.value.hist[..] == seq(bins, i => 0.0)
      ensures r.Success? ==> r.value.structureFactor[..] == seq(bins, i => 0.0)
    {
      var check := Validate(bins, kMax, kMin);
      if check.Some? {
        return Failure(check.value);
      }
      var s := new StructureFactorDebye(bins, kMax, kMin);
      return Success(s);
    }

    /**
     * Folds one frame in: lowers the smallest valid k to this box's bound,
     * adds `S_k / n_total` to every k bin, counts the frame and marks the
     * result for reduction.
     */
    method Accumulate(box: Box, points: seq<Vec3>, queries: seq<Vec3>, nTotal: nat, num: Numerics)
      requires Valid() && ValidBox(box) && StepsDown(num.below) && nTotal > 0
      modifies this, hist
      ensures Valid() && hist == old(hist) && structureFactor == old(structureFactor)
      ensures minValidK == ExtMin(old(minValidK), Finite(FrameMinK(box, num.below)))
      ensures frameCounter == old(frameCounter) + 1 && reduceFlag
      ensures hist[..] == Plus(old(hist[..]),
        FrameValues(kMin, kMax, bins, num.sinc, AllDistances(box, num.dist, points, queries), nTotal))
    {
      var rMax := RMax(box, num.below);
      minValidK := ExtMin(minValidK, Finite(TWO_PI / rMax));
      var ds := AllDistances(box, num.dist, points, queries);
      AddFrame(hist, kMin, kMax, num.sinc, ds, nTotal);
      frameCounter := frameCounter + 1;
      reduceFlag := true;
    }

    /**
     * Writes the output: a fresh array holding the histogram, divided by the
     * frame count when more than one frame was accumulated. The histogram,
     * the frame count and the smallest valid k are left as they are.
     */
    method Reduce()
      requires Valid()
      modifies this
      ensures Valid() && fresh(structureFactor) && hist == old(hist) && unchanged(hist)
      ensures frameCounter == old(frameCounter) && minValidK == old(minValidK) && reduceFlag == old(reduceFlag)
      ensures structureFactor[..] == Normalized(hist[..], frameCounter)
    {
      var out := new real[bins](i => 0.0);
      forall i | 0 <= i < bins {
        out[i] := out[i] + hist[i];
      }
      if frameCounter > 1 {
        var i := 0;
        while i < bins
          modifies out
          invariant 0 <= i <= bins
          invariant forall j :: 0 <= j < i ==> out[j] == hist[j] / frameCounter as real
          invariant forall j :: i <= j < bins ==> out[j] == hist[j]
        {
          out[i] := out[i] / frameCounter as real;
          i := i + 1;
        }
      }
      structureFactor := out;
    }
  }
}
