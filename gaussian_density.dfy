/**
 * freud's GaussianDensity: every point spreads a Gaussian weight onto the bins
 * of a regular grid that lie within `r_max` of it. For each point the kernel
 * finds its home bin, enumerates the box of candidate bins `±bin_cut` around it
 * per axis, skips candidates outside the grid on non-periodic axes, wraps the
 * storage index on periodic ones, and adds a weight to every candidate whose
 * box-wrapped squared distance is below `r_max²`.
 *
 * The grid a call produces is specified by the list of deposits (bin and
 * weight) the loops make, in loop order: each bin holds the sum of the weights
 * deposited there.
 */
module GaussianDensity {
  import opened Wrappers
  import opened Numbers
  import opened Geometry

  /** The constructor's invalid_argument. */
  datatype ConfigError = NonPositiveRMax

  // ---------------------------------------------------------------------------
  // Per-call grid constants
  // ---------------------------------------------------------------------------

  /**
   * The constants compute derives before its loops: the configured widths,
   * the box, `r_max`, the grid spacing per axis and the number of bins within
   * `r_max` per axis (`bin_cut`).
   */
  datatype Grid = Grid(wx: u32, wy: u32, wz: u32, box: Box, rMax: real, rMaxSq: real,
                       gx: real, gy: real, gz: real,
                       cutX: int, cutY: int, cutZ: int)

  predicate GridOk(g: Grid)
  {
    && g.wx > 0 && g.wy > 0 && g.wz > 0 && ValidBox(g.box) && g.rMax > 0.0
    && g.gx > 0.0 && g.gy > 0.0 && (g.box.is2D || g.gz > 0.0)
    && g.cutX >= 0 && g.cutY >= 0 && g.cutZ >= 0
    && (g.box.is2D ==> g.cutZ == 0)
  }

  /**
   * Grid spacing is side length over width (zero along z in 2D) and `bin_cut`
   * is `r_max / spacing` truncated (zero along z in 2D).
   */
  function MakeGrid(wx: u32, wy: u32, wz: u32, box: Box, rMax: real): (g: Grid)
    requires wx > 0 && wy > 0 && wz > 0 && ValidBox(box) && rMax > 0.0
    ensures GridOk(g)
    ensures g.wx == wx && g.wy == wy && g.wz == wz && g.box == box && g.rMax == rMax
    ensures g.rMaxSq == rMax * rMax
    ensures g.gx == box.lx / wx as real && g.gy == box.ly / wy as real
    ensures box.is2D ==> g.gz == 0.0 && g.cutZ == 0
    ensures !box.is2D ==> g.gz == box.lz / wz as real
    ensures g.cutX as real <= rMax / g.gx < g.cutX as real + 1.0
    ensures g.cutY as real <= rMax / g.gy < g.cutY as real + 1.0
    ensures !box.is2D ==> g.cutZ as real <= rMax / g.gz < g.cutZ as real + 1.0
  {
    var gx := box.lx / wx as real;
    var gy := box.ly / wy as real;
    var gz := if box.is2D then 0.0 else box.lz / wz as real;
    Grid(wx, wy, wz, box, rMax, rMax * rMax, gx, gy, gz,
         Trunc(rMax / gx), Trunc(rMax / gy), if box.is2D then 0 else Trunc(rMax / gz))
  }

  /** The z extent of the density array: 1 in 2D, the configured width otherwise. */
  function DepthZ(g: Grid): u32
  {
    if g.box.is2D then 1 else g.wz
  }

  /** A bin coordinate along the three axes. */
  datatype Bin = Bin(x: int, y: int, z: int)

  /**
   * The bin a point falls in: `int((coord + L/2) / spacing)` per axis; in 2D
   * the z bin is forced to 0, so only the plane z = 0 is visited.
   */
  function HomeBin(g: Grid, p: Vec3): (h: Bin)
    requires GridOk(g)
    ensures InsideAxis(p.x, g.box.lx, g.wx, g.gx) ==> 0 <= h.x < g.wx
    ensures InsideAxis(p.y, g.box.ly, g.wy, g.gy) ==> 0 <= h.y < g.wy
    ensures g.box.is2D ==> h.z == 0
    ensures !g.box.is2D && InsideAxis(p.z, g.box.lz, g.wz, g.gz) ==> 0 <= h.z < g.wz
  {
    AxisBinInRange(p.x, g.box.lx, g.wx, g.gx);
    AxisBinInRange(p.y, g.box.ly, g.wy, g.gy);
    if g.box.is2D then
      Bin(Trunc((p.x + g.box.lx / 2.0) / g.gx), Trunc((p.y + g.box.ly / 2.0) / g.gy), 0)
    else
      AxisBinInRange(p.z, g.box.lz, g.wz, g.gz);
      Bin(Trunc((p.x + g.box.lx / 2.0) / g.gx),
          Trunc((p.y + g.box.ly / 2.0) / g.gy),
          Trunc((p.z + g.box.lz / 2.0) / g.gz))
  }

  /**
   * A coordinate inside the box along one axis, `[-L/2, L/2)`, on a grid whose
   * spacing is the side over the width (as MakeGrid builds it).
   */
  predicate InsideAxis(coord: real, side: real, w: u32, spacing: real)
  {
    w > 0 && side > 0.0 && spacing == side / w as real && -side / 2.0 <= coord < side / 2.0
  }

  /** A coordinate inside the box falls in one of the `w` bins along that axis. */
  lemma AxisBinInRange(coord: real, side: real, w: u32, spacing: real)
    ensures InsideAxis(coord, side, w, spacing) ==> 0 <= Trunc((coord + side / 2.0) / spacing) < w
  {
    if InsideAxis(coord, side, w, spacing) {
      var t := (coord + side / 2.0) / spacing;
      assert spacing > 0.0;
      assert spacing * w as real == side;
      assert coord + side / 2.0 < spacing * w as real;
      assert t * spacing == coord + side / 2.0;
      assert t < w as real;
    }
  }

  // ---------------------------------------------------------------------------
  // Candidate bins, skipping and wrapping
  // ---------------------------------------------------------------------------

  /** A candidate index outside `[0, width)` on a non-periodic axis is skipped. */
  predicate Skip(n: int, w: u32, periodic: bool)
  {
    !periodic && (n < 0 || n >= w)
  }

  /**
   * The storage index of candidate `n` along an axis of width `w`: `n` modulo
   * `w`, so bin -1 is bin w - 1.
   */
  function Wrap(n: int, w: u32): (r: u32)
    requires w > 0
    ensures 0 <= r < w
  {
    n % w
  }

  /**
   * Wrapping leaves an index inside the grid alone and moves an index one
   * width below or above the grid by one width: bin -1 is bin w - 1.
   */
  lemma WrapFacts(n: int, w: u32)
    requires w > 0
    ensures 0 <= n < w ==> Wrap(n, w) == n
    ensures -(w as int) <= n < 0 ==> Wrap(n, w) == n + w
    ensures w <= n < 2 * w ==> Wrap(n, w) == n - w
  {
    if 0 <= n < w {
      DivModOf(0, w, n);
    } else if -(w as int) <= n < 0 {
      ModPeriod(n, 1, w);
      DivModOf(0, w, n + w);
    } else if w <= n < 2 * w {
      ModPeriod(n, -1, w);
      DivModOf(0, w, n - w);
    }
  }

  /**
   * The storage index as the C++ code computes it, `(i + m_width) % m_width`:
   * `i` is converted to unsigned, so the sum is taken modulo 2^32.
   */
  function WrapAsWritten(n: int, w: u32): (r: u32)
    requires w > 0
    ensures r < w
  {
    ((n + w) % TWO_TO_THE_32) % w
  }

  /** Where the sum does not leave the unsigned range, the C++ formula is `n mod w`. */
  lemma WrapAsWrittenAgrees(n: int, w: u32)
    requires w > 0 && 0 <= n + w < TWO_TO_THE_32
    ensures WrapAsWritten(n, w) == Wrap(n, w)
  {
    DivModOf(0, TWO_TO_THE_32, n + w);
    ModPeriod(n, 1, w);
  }

  /**
   * Below `-w` the unsigned sum wraps around 2^32 and the weight lands in the
   * wrong bin unless `w` divides 2^32: with 30 bins, bin -31 is stored in
   * bin 15 instead of bin 29.
   */
  lemma WrapAsWrittenMisplaces()
    ensures WrapAsWritten(-31, 30) == 15
    ensures Wrap(-31, 30) == 29
  {
  }

  /** The candidate box `±bin_cut` around home bin `h` along each axis, minus skipped indices. */
  predicate Candidate(g: Grid, h: Bin, i: int, j: int, k: int)
  {
    && h.x - g.cutX <= i <= h.x + g.cutX && !Skip(i, g.wx, g.box.periodicX)
    && h.y - g.cutY <= j <= h.y + g.cutY && !Skip(j, g.wy, g.box.periodicY)
    && h.z - g.cutZ <= k <= h.z + g.cutZ && !Skip(k, g.wz, g.box.periodicZ)
  }

  /**
   * A configuration that reaches the misplacement: a periodic 30-bin box of
   * side 30 with `r_max = 70`, point at the origin. Bin -31 along x is a
   * candidate; with any minimum-image distance (each wrapped component at
   * most 15, so r² <= 3 * 15² = 675 < 70²) it passes the cutoff and is
   * deposited, and the C++ formula stores it in the wrong bin.
   */
  lemma WrapMisplacementReachable(kern: Kernel)
    requires forall dx, dy, dz :: kern.dist2(dx, dy, dz) <= 675.0
    ensures var box := Box(30.0, 30.0, 30.0, true, true, true, false);
      var g := MakeGrid(30, 30, 30, box, 70.0);
      var p := Vec3(0.0, 0.0, 0.0);
      && Candidate(g, HomeBin(g, p), -31, 15, 15)
      && Accepted(g, kern, p, -31, 15, 15)
      && DepositAt(g, kern, p, -31, 15, 15) in PointDeposits(g, kern, p)
      && WrapAsWritten(-31, g.wx) != Wrap(-31, g.wx)
  {
    var box := Box(30.0, 30.0, 30.0, true, true, true, false);
    var g := MakeGrid(30, 30, 30, box, 70.0);
    assert g.gx == 1.0 && g.gy == 1.0 && g.gz == 1.0;
    assert g.cutX == 70 && g.cutY == 70 && g.cutZ == 70;
    assert g.rMaxSq == 4900.0;
    var p := Vec3(0.0, 0.0, 0.0);
    assert HomeBin(g, p) == Bin(15, 15, 15);
    assert SquaredDistance(g, kern, p, -31, 15, 15) <= 675.0;
    var d := DepositAt(g, kern, p, -31, 15, 15);
    PointDepositsExactly(g, kern, p, d);
  }

  // ---------------------------------------------------------------------------
  // Deposits
  // ---------------------------------------------------------------------------

  /**
   * The floating-point parts of the splat, left abstract: the squared length
   * of the box-wrapped displacement (Box::wrap and a dot product), and the
   * Gaussian weight for a squared distance (A * exp(-r² / 2σ²)).
   */
  datatype Kernel = Kernel(dist2: (real, real, real) -> real, gauss: real -> real)

  /** One `+=` of the kernel: the candidate (i, j, k), its storage bin and the weight. */
  datatype Deposit = Deposit(i: int, j: int, k: int, ni: int, nj: int, nk: int, weight: real)

  /** Displacement from a point to the centre of bin `n` along one axis. */
  function Offset(spacing: real, n: int, coord: real, side: real): real
  {
    (spacing * n as real + spacing / 2.0) - coord - side / 2.0
  }

  function SquaredDistance(g: Grid, kern: Kernel, p: Vec3, i: int, j: int, k: int): real
  {
    kern.dist2(Offset(g.gx, i, p.x, g.box.lx), Offset(g.gy, j, p.y, g.box.ly), Offset(g.gz, k, p.z, g.box.lz))
  }

  /** The cutoff test `r_sq < r_max_sq`. */
  predicate Accepted(g: Grid, kern: Kernel, p: Vec3, i: int, j: int, k: int)
  {
    SquaredDistance(g, kern, p, i, j, k) < g.rMaxSq
  }

  /**
   * The deposit of candidate (i, j, k): it remembers the candidate, is stored
   * inside the array, and weighs the kernel at the candidate's squared distance.
   */
  function DepositAt(g: Grid, kern: Kernel, p: Vec3, i: int, j: int, k: int): (d: Deposit)
    requires GridOk(g)
    ensures d.i == i && d.j == j && d.k == k
    ensures 0 <= d.ni < g.wx && 0 <= d.nj < g.wy && 0 <= d.nk < g.wz
    ensures d.weight == kern.gauss(SquaredDistance(g, kern, p, i, j, k))
  {
    Deposit(i, j, k, Wrap(i, g.wx), Wrap(j, g.wy), Wrap(k, g.wz),
            kern.gauss(SquaredDistance(g, kern, p, i, j, k)))
  }

  /** What candidate (i, j, k) deposits: one weight if it passes the cutoff, else nothing. */
  function CellDeposits(g: Grid, kern: Kernel, p: Vec3, i: int, j: int, k: int): (ds: seq<Deposit>)
    requires GridOk(g)
    ensures |ds| <= 1
    ensures ds != [] <==> Accepted(g, kern, p, i, j, k)
    ensures forall d :: d in ds ==> d == DepositAt(g, kern, p, i, j, k)
  {
    if Accepted(g, kern, p, i, j, k) then [DepositAt(g, kern, p, i, j, k)] else []
  }

  // The three candidate loops of one point. Axis 0 is the innermost loop
  // (over i, for fixed j and k), axis 1 the middle loop (over j, for fixed k),
  // axis 2 the outer loop (over k); an outer loop ignores the fixed indices
  // it sets itself.

  /** The deposits of loop `axis` over `lo, lo + 1, ..., hi - 1`, in order. */
  function Sweep(g: Grid, kern: Kernel, p: Vec3, h: Bin, axis: nat, j: int, k: int, lo: int, hi: int): seq<Deposit>
    requires GridOk(g) && axis <= 2
    decreases axis, 1, hi - lo
  {
    if hi <= lo then [] else Sweep(g, kern, p, h, axis, j, k, lo, hi - 1) + Visit(g, kern, p, h, axis, hi - 1, j, k)
  }

  /**
   * One iteration of loop `axis` at index `n`: nothing if `n` is skipped,
   * otherwise the candidate's deposit (axis 0) or the whole inner loop.
   */
  function Visit(g: Grid, kern: Kernel, p: Vec3, h: Bin, axis: nat, n: int, j: int, k: int): seq<Deposit>
    requires GridOk(g) && axis <= 2
    decreases axis, 0, 0
  {
    if axis == 0 then
      (if Skip(n, g.wx, g.box.periodicX) then [] else CellDeposits(g, kern, p, n, j, k))
    else if axis == 1 then
      (if Skip(n, g.wy, g.box.periodicY) then [] else FullRow(g, kern, p, h, n, k))
    else
      (if Skip(n, g.wz, g.box.periodicZ) then [] else FullPlane(g, kern, p, h, n))
  }

  /** The innermost loop, over `i` within `bin_cut_x` of the home bin. */
  function FullRow(g: Grid, kern: Kernel, p: Vec3, h: Bin, j: int, k: int): seq<Deposit>
    requires GridOk(g)
    decreases 0, 2, 0
  {
    Sweep(g, kern, p, h, 0, j, k, h.x - g.cutX, h.x + g.cutX + 1)
  }

  /** The middle loop, over `j` within `bin_cut_y` of the home bin. */
  function FullPlane(g: Grid, kern: Kernel, p: Vec3, h: Bin, k: int): seq<Deposit>
    requires GridOk(g)
    decreases 1, 2, 0
  {
    Sweep(g, kern, p, h, 1, 0, k, h.y - g.cutY, h.y + g.cutY + 1)
  }

  /** Everything one point deposits, in loop order: the outer loop over `k` within `bin_cut_z`. */
  function PointDeposits(g: Grid, kern: Kernel, p: Vec3): seq<Deposit>
    requires GridOk(g)
  {
    var h := HomeBin(g, p);
    Sweep(g, kern, p, h, 2, 0, 0, h.z - g.cutZ, h.z + g.cutZ + 1)
  }

  /** One more iteration appends its deposits. */
  lemma SweepStep(g: Grid, kern: Kernel, p: Vec3, h: Bin, axis: nat, j: int, k: int, lo: int, hi: int, pre: seq<Deposit>)
    requires GridOk(g) && axis <= 2 && lo <= hi
    ensures pre + Sweep(g, kern, p, h, axis, j, k, lo, hi + 1)
         == (pre + Sweep(g, kern, p, h, axis, j, k, lo, hi)) + Visit(g, kern, p, h, axis, hi, j, k)
  {
  }

  /** Deposit `d` is made by iteration `n` of loop `axis`. */
  predicate VisitMakes(g: Grid, kern: Kernel, p: Vec3, h: Bin, axis: nat, n: int, j: int, k: int, d: Deposit)
    requires GridOk(g) && axis <= 2
  {
    d in Visit(g, kern, p, h, axis, n, j, k)
  }

  /** A loop deposits exactly what its iterations deposit. */
  lemma {:induction false} SweepMembers(g: Grid, kern: Kernel, p: Vec3, h: Bin, axis: nat, j: int, k: int, lo: int, hi: int, d: Deposit)
    requires GridOk(g) && axis <= 2
    ensures d in Sweep(g, kern, p, h, axis, j, k, lo, hi) <==>
      exists n :: lo <= n < hi && VisitMakes(g, kern, p, h, axis, n, j, k, d)
    decreases hi - lo
  {
    if hi > lo {
      SweepMembers(g, kern, p, h, axis, j, k, lo, hi - 1, d);
      if d in Sweep(g, kern, p, h, axis, j, k, lo, hi) && d !in Sweep(g, kern, p, h, axis, j, k, lo, hi - 1) {
        assert VisitMakes(g, kern, p, h, axis, hi - 1, j, k, d);
      }
      if exists n :: lo <= n < hi && VisitMakes(g, kern, p, h, axis, n, j, k, d) {
        var n :| lo <= n < hi && VisitMakes(g, kern, p, h, axis, n, j, k, d);
        if n < hi - 1 {
          assert d in Sweep(g, kern, p, h, axis, j, k, lo, hi - 1);
        }
      }
    }
  }

  /** The lists `f` gives for the elements of `xs`, concatenated in order. */
  function ConcatMap<T, U>(f: T -> seq<U>, xs: seq<T>): seq<U>
  {
    if |xs| == 0 then [] else ConcatMap(f, xs[..|xs| - 1]) + f(xs[|xs| - 1])
  }

  lemma {:induction false} ConcatMapMembers<T, U>(f: T -> seq<U>, xs: seq<T>, u: U)
    ensures u in ConcatMap(f, xs) <==> exists n :: 0 <= n < |xs| && u in f(xs[n])
  {
    if |xs| > 0 {
      var front := xs[..|xs| - 1];
      ConcatMapMembers(f, front, u);
      if u in ConcatMap(f, front) {
        var n :| 0 <= n < |front| && u in f(front[n]);
        assert front[n] == xs[n];
      }
      if exists n :: 0 <= n < |xs| && u in f(xs[n]) {
        var n :| 0 <= n < |xs| && u in f(xs[n]);
        if n < |front| {
          assert front[n] == xs[n];
        }
      }
    }
  }

  /** Everything the points deposit, point by point. */
  function AllDeposits(g: Grid, kern: Kernel, pts: seq<Vec3>): seq<Deposit>
  {
    ConcatMap(p => if GridOk(g) then PointDeposits(g, kern, p) else [], pts)
  }

  lemma AllDepositsSnoc(g: Grid, kern: Kernel, pts: seq<Vec3>, p: Vec3)
    requires GridOk(g)
    ensures AllDeposits(g, kern, pts + [p]) == AllDeposits(g, kern, pts) + PointDeposits(g, kern, p)
  {
    assert (pts + [p])[..|pts|] == pts;
  }

  // ---------------------------------------------------------------------------
  // Which deposits a point makes
  // ---------------------------------------------------------------------------

  lemma RowMembers(g: Grid, kern: Kernel, p: Vec3, h: Bin, j: int, k: int, d: Deposit)
    requires GridOk(g)
    ensures d in FullRow(g, kern, p, h, j, k) <==>
      && h.x - g.cutX <= d.i <= h.x + g.cutX && !Skip(d.i, g.wx, g.box.periodicX)
      && Accepted(g, kern, p, d.i, j, k) && d == DepositAt(g, kern, p, d.i, j, k)
  {
    SweepMembers(g, kern, p, h, 0, j, k, h.x - g.cutX, h.x + g.cutX + 1, d);
    if d in FullRow(g, kern, p, h, j, k) {
      var n :| h.x - g.cutX <= n < h.x + g.cutX + 1 && VisitMakes(g, kern, p, h, 0, n, j, k, d);
      assert d in CellDeposits(g, kern, p, n, j, k);
    }
    if h.x - g.cutX <= d.i <= h.x + g.cutX && !Skip(d.i, g.wx, g.box.periodicX)
       && Accepted(g, kern, p, d.i, j, k) && d == DepositAt(g, kern, p, d.i, j, k)
    {
      assert VisitMakes(g, kern, p, h, 0, d.i, j, k, d);
    }
  }

  /** A deposit of row (j, k) is made at candidate row j of plane k. */
  lemma RowIndices(g: Grid, kern: Kernel, p: Vec3, h: Bin, j: int, k: int, d: Deposit)
    requires GridOk(g) && d in FullRow(g, kern, p, h, j, k)
    ensures d.j == j && d.k == k
  {
    RowMembers(g, kern, p, h, j, k, d);
  }

  lemma PlaneMembers(g: Grid, kern: Kernel, p: Vec3, h: Bin, k: int, d: Deposit)
    requires GridOk(g)
    ensures d in FullPlane(g, kern, p, h, k) <==>
      && h.y - g.cutY <= d.j <= h.y + g.cutY && !Skip(d.j, g.wy, g.box.periodicY)
      && d in FullRow(g, kern, p, h, d.j, k)
  {
    SweepMembers(g, kern, p, h, 1, 0, k, h.y - g.cutY, h.y + g.cutY + 1, d);
    if d in FullPlane(g, kern, p, h, k) {
      var n :| h.y - g.cutY <= n < h.y + g.cutY + 1 && VisitMakes(g, kern, p, h, 1, n, 0, k, d);
      RowIndices(g, kern, p, h, n, k, d);
    }
    if h.y - g.cutY <= d.j <= h.y + g.cutY && !Skip(d.j, g.wy, g.box.periodicY) && d in FullRow(g, kern, p, h, d.j, k) {
      assert VisitMakes(g, kern, p, h, 1, d.j, 0, k, d);
    }
  }

  /** A deposit of plane k is made at candidate plane k. */
  lemma PlaneIndex(g: Grid, kern: Kernel, p: Vec3, h: Bin, k: int, d: Deposit)
    requires GridOk(g) && d in FullPlane(g, kern, p, h, k)
    ensures d.k == k
  {
    PlaneMembers(g, kern, p, h, k, d);
    RowIndices(g, kern, p, h, d.j, k, d);
  }

  lemma BlockMembers(g: Grid, kern: Kernel, p: Vec3, h: Bin, d: Deposit)
    requires GridOk(g)
    ensures d in Sweep(g, kern, p, h, 2, 0, 0, h.z - g.cutZ, h.z + g.cutZ + 1) <==>
      && h.z - g.cutZ <= d.k <= h.z + g.cutZ && !Skip(d.k, g.wz, g.box.periodicZ)
      && d in FullPlane(g, kern, p, h, d.k)
  {
    SweepMembers(g, kern, p, h, 2, 0, 0, h.z - g.cutZ, h.z + g.cutZ + 1, d);
    if d in Sweep(g, kern, p, h, 2, 0, 0, h.z - g.cutZ, h.z + g.cutZ + 1) {
      var n :| h.z - g.cutZ <= n < h.z + g.cutZ + 1 && VisitMakes(g, kern, p, h, 2, n, 0, 0, d);
      assert !Skip(n, g.wz, g.box.periodicZ) && d in FullPlane(g, kern, p, h, n);
      PlaneIndex(g, kern, p, h, n, d);
    }
    if h.z - g.cutZ <= d.k <= h.z + g.cutZ && !Skip(d.k, g.wz, g.box.periodicZ) && d in FullPlane(g, kern, p, h, d.k) {
      assert VisitMakes(g, kern, p, h, 2, d.k, 0, 0, d);
    }
  }

  /**
   * A point deposits a weight at a candidate bin exactly when the candidate is
   * within `±bin_cut` of its home bin, is not skipped and passes the cutoff;
   * the weight goes to the wrapped storage bin. (That no candidate deposits
   * twice is PointDepositsDistinct.)
   */
  lemma PointDepositsExactly(g: Grid, kern: Kernel, p: Vec3, d: Deposit)
    requires GridOk(g)
    ensures d in PointDeposits(g, kern, p) <==>
      Candidate(g, HomeBin(g, p), d.i, d.j, d.k) && Accepted(g, kern, p, d.i, d.j, d.k)
      && d == DepositAt(g, kern, p, d.i, d.j, d.k)
  {
    var h := HomeBin(g, p);
    BlockMembers(g, kern, p, h, d);
    PlaneMembers(g, kern, p, h, d.k, d);
    RowMembers(g, kern, p, h, d.j, d.k, d);
  }

  // ---------------------------------------------------------------------------
  // Each candidate is visited once
  // ---------------------------------------------------------------------------

  /** Two deposits made at the same candidate (i, j, k). */
  predicate SameCandidate(a: Deposit, b: Deposit)
  {
    a.i == b.i && a.j == b.j && a.k == b.k
  }

  /** No two deposits of `ds` come from the same candidate. */
  predicate DistinctCandidates(ds: seq<Deposit>)
  {
    forall a, b :: 0 <= a < b < |ds| ==> !SameCandidate(ds[a], ds[b])
  }

  /** The index loop `axis` runs over: i for axis 0, j for axis 1, k for axis 2. */
  function AxisIndex(d: Deposit, axis: nat): int
  {
    if axis == 0 then d.i else if axis == 1 then d.j else d.k
  }

  lemma DistinctConcat(xs: seq<Deposit>, ys: seq<Deposit>)
    requires DistinctCandidates(xs) && DistinctCandidates(ys)
    requires forall x, y :: x in xs && y in ys ==> !SameCandidate(x, y)
    ensures DistinctCandidates(xs + ys)
  {
    var zs := xs + ys;
    forall a, b | 0 <= a < b < |zs|
      ensures !SameCandidate(zs[a], zs[b])
    {
      if b < |xs| {
        assert zs[a] == xs[a] && zs[b] == xs[b];
      } else if a < |xs| {
        assert zs[a] in xs && zs[b] in ys;
      } else {
        assert zs[a] == ys[a - |xs|] && zs[b] == ys[b - |xs|];
      }
    }
  }

  /** Iteration `n` of loop `axis` only deposits at index `n` along that axis. */
  lemma VisitIndex(g: Grid, kern: Kernel, p: Vec3, h: Bin, axis: nat, n: int, j: int, k: int, d: Deposit)
    requires GridOk(g) && axis <= 2 && d in Visit(g, kern, p, h, axis, n, j, k)
    ensures AxisIndex(d, axis) == n
  {
    if axis == 1 {
      RowIndices(g, kern, p, h, n, k, d);
    } else if axis == 2 {
      PlaneIndex(g, kern, p, h, n, d);
    }
  }

  /** Loop `axis` over `[lo, hi)` only deposits at indices in that range along its axis. */
  lemma {:induction false} SweepIndex(g: Grid, kern: Kernel, p: Vec3, h: Bin, axis: nat, j: int, k: int, lo: int, hi: int, d: Deposit)
    requires GridOk(g) && axis <= 2 && d in Sweep(g, kern, p, h, axis, j, k, lo, hi)
    ensures lo <= AxisIndex(d, axis) < hi
    decreases hi - lo
  {
    if d in Sweep(g, kern, p, h, axis, j, k, lo, hi - 1) {
      SweepIndex(g, kern, p, h, axis, j, k, lo, hi - 1, d);
    } else {
      VisitIndex(g, kern, p, h, axis, hi - 1, j, k, d);
    }
  }

  /** A loop visits each of its indices once, so no candidate deposits twice. */
  lemma {:induction false} SweepDistinct(g: Grid, kern: Kernel, p: Vec3, h: Bin, axis: nat, j: int, k: int, lo: int, hi: int)
    requires GridOk(g) && axis <= 2
    ensures DistinctCandidates(Sweep(g, kern, p, h, axis, j, k, lo, hi))
    decreases axis, 1, hi - lo
  {
    if hi > lo {
      var front := Sweep(g, kern, p, h, axis, j, k, lo, hi - 1);
      var last := Visit(g, kern, p, h, axis, hi - 1, j, k);
      SweepDistinct(g, kern, p, h, axis, j, k, lo, hi - 1);
      VisitDistinct(g, kern, p, h, axis, hi - 1, j, k);
      forall x, y | x in front && y in last
        ensures !SameCandidate(x, y)
      {
        SweepIndex(g, kern, p, h, axis, j, k, lo, hi - 1, x);
        VisitIndex(g, kern, p, h, axis, hi - 1, j, k, y);
      }
      DistinctConcat(front, last);
    }
  }

  lemma {:induction false} VisitDistinct(g: Grid, kern: Kernel, p: Vec3, h: Bin, axis: nat, n: int, j: int, k: int)
    requires GridOk(g) && axis <= 2
    ensures DistinctCandidates(Visit(g, kern, p, h, axis, n, j, k))
    decreases axis, 0, 0
  {
    if axis == 1 {
      SweepDistinct(g, kern, p, h, 0, n, k, h.x - g.cutX, h.x + g.cutX + 1);
    } else if axis == 2 {
      SweepDistinct(g, kern, p, h, 1, 0, n, h.y - g.cutY, h.y + g.cutY + 1);
    }
  }

  /**
   * The loops of one point visit every candidate at most once: no two of its
   * deposits share a candidate (i, j, k). With PointDepositsExactly, each
   * accepted candidate deposits exactly one weight.
   */
  lemma PointDepositsDistinct(g: Grid, kern: Kernel, p: Vec3)
    requires GridOk(g)
    ensures DistinctCandidates(PointDeposits(g, kern, p))
  {
    var h := HomeBin(g, p);
    SweepDistinct(g, kern, p, h, 2, 0, 0, h.z - g.cutZ, h.z + g.cutZ + 1);
  }

  lemma AllDepositsMembers(g: Grid, kern: Kernel, pts: seq<Vec3>, d: Deposit)
    requires GridOk(g)
    ensures d in AllDeposits(g, kern, pts) <==> exists n :: 0 <= n < |pts| && d in PointDeposits(g, kern, pts[n])
  {
    ConcatMapMembers(p => if GridOk(g) then PointDeposits(g, kern, p) else [], pts, d);
  }

  /**
   * Every deposit lands inside the density array: the wrapped indices are below
   * the widths, and in 2D only the plane k = 0 is visited, stored at z = 0.
   */
  lemma DepositsInGrid(g: Grid, kern: Kernel, pts: seq<Vec3>, d: Deposit)
    requires GridOk(g) && d in AllDeposits(g, kern, pts)
    ensures 0 <= d.ni < g.wx && 0 <= d.nj < g.wy && 0 <= d.nk < DepthZ(g)
    ensures g.box.is2D ==> d.k == 0 && d.nk == 0
  {
    AllDepositsMembers(g, kern, pts, d);
    var n :| 0 <= n < |pts| && d in PointDeposits(g, kern, pts[n]);
    PointDepositsExactly(g, kern, pts[n], d);
    assert Candidate(g, HomeBin(g, pts[n]), d.i, d.j, d.k);
    assert d.ni == Wrap(d.i, g.wx) && d.nj == Wrap(d.j, g.wy) && d.nk == Wrap(d.k, g.wz);
    WrapFacts(d.k, g.wz);
  }

  /** The cutoff test passed for the deposit's candidate and the weight is the kernel's at that distance. */
  predicate Explains(g: Grid, kern: Kernel, p: Vec3, d: Deposit)
  {
    Accepted(g, kern, p, d.i, d.j, d.k) && d.weight == kern.gauss(SquaredDistance(g, kern, p, d.i, d.j, d.k))
  }

  /** Every deposit passed the cutoff for one of the points and carries the kernel's weight for that distance. */
  lemma DepositsWithinCutoff(g: Grid, kern: Kernel, pts: seq<Vec3>, d: Deposit)
    requires GridOk(g) && d in AllDeposits(g, kern, pts)
    ensures exists n :: 0 <= n < |pts| && Explains(g, kern, pts[n], d)
  {
    AllDepositsMembers(g, kern, pts, d);
    var n :| 0 <= n < |pts| && d in PointDeposits(g, kern, pts[n]);
    PointDepositsExactly(g, kern, pts[n], d);
  }

  // ---------------------------------------------------------------------------
  // The grid the deposits build
  // ---------------------------------------------------------------------------

  /** The total weight deposited at bin (a, b, c). */
  ghost function GridValue(ds: seq<Deposit>, a: int, b: int, c: int): real
  {
    if ds == [] then 0.0
    else (GridValue(ds[..|ds| - 1], a, b, c)
      + (var d := ds[|ds| - 1]; if d.ni == a && d.nj == b && d.nk == c then d.weight else 0.0))
  }

  lemma GridValueSnoc(ds: seq<Deposit>, d: Deposit, a: int, b: int, c: int)
    ensures GridValue(ds + [d], a, b, c)
      == GridValue(ds, a, b, c) + (if d.ni == a && d.nj == b && d.nk == c then d.weight else 0.0)
  {
    assert (ds + [d])[..|ds|] == ds;
  }

  /** A bin no deposit targets holds exactly zero. */
  lemma {:induction false} GridValueUntouched(ds: seq<Deposit>, a: int, b: int, c: int)
    requires forall n :: 0 <= n < |ds| ==> !(ds[n].ni == a && ds[n].nj == b && ds[n].nk == c)
    ensures GridValue(ds, a, b, c) == 0.0
  {
    if ds != [] {
      GridValueUntouched(ds[..|ds| - 1], a, b, c);
    }
  }

  /** With non-negative weights every bin is non-negative. */
  lemma {:induction false} GridValueNonNegative(ds: seq<Deposit>, a: int, b: int, c: int)
    requires forall n :: 0 <= n < |ds| ==> ds[n].weight >= 0.0
    ensures GridValue(ds, a, b, c) >= 0.0
  {
    if ds != [] {
      GridValueNonNegative(ds[..|ds| - 1], a, b, c);
    }
  }

  /**
   * With a non-negative Gaussian, the density is non-negative everywhere, and a
   * bin that no point reaches within the cutoff is exactly zero.
   */
  lemma DensityFacts(g: Grid, kern: Kernel, pts: seq<Vec3>, a: int, b: int, c: int)
    requires GridOk(g)
    requires forall r :: kern.gauss(r) >= 0.0
    ensures GridValue(AllDeposits(g, kern, pts), a, b, c) >= 0.0
    ensures (forall n, i, j, k :: 0 <= n < |pts| && Candidate(g, HomeBin(g, pts[n]), i, j, k) && Accepted(g, kern, pts[n], i, j, k)
               ==> !(Wrap(i, g.wx) == a && Wrap(j, g.wy) == b && Wrap(k, g.wz) == c))
            ==> GridValue(AllDeposits(g, kern, pts), a, b, c) == 0.0
  {
    var ds := AllDeposits(g, kern, pts);
    forall n | 0 <= n < |ds| ensures ds[n].weight >= 0.0 {
      DepositsWithinCutoff(g, kern, pts, ds[n]);
    }
    GridValueNonNegative(ds, a, b, c);
    if forall n, i, j, k :: 0 <= n < |pts| && Candidate(g, HomeBin(g, pts[n]), i, j, k) && Accepted(g, kern, pts[n], i, j, k)
               ==> !(Wrap(i, g.wx) == a && Wrap(j, g.wy) == b && Wrap(k, g.wz) == c)
    {
      forall m | 0 <= m < |ds| ensures !(ds[m].ni == a && ds[m].nj == b && ds[m].nk == c) {
        var d := ds[m];
        AllDepositsMembers(g, kern, pts, d);
        var n :| 0 <= n < |pts| && d in PointDeposits(g, kern, pts[n]);
        PointDepositsExactly(g, kern, pts[n], d);
      }
      GridValueUntouched(ds, a, b, c);
    }
  }

  /** The grid holds, at every bin, the weight the deposits `ds` put there. */
  ghost predicate Holds(grid: array3<real>, ds: seq<Deposit>)
    reads grid
  {
    forall a, b, c :: 0 <= a < grid.Length0 && 0 <= b < grid.Length1 && 0 <= c < grid.Length2 ==>
      grid[a, b, c] == GridValue(ds, a, b, c)
  }

  // ---------------------------------------------------------------------------
  // The kernel object
  // ---------------------------------------------------------------------------

  class GaussianDensity {
    const wx: u32
    const wy: u32
    const wz: u32
    const rMax: real
    const sigma: real
    var box: Box
    var density: array3<real>

    ghost predicate Valid()
      reads this
    {
      rMax > 0.0
    }

    constructor (wx: u32, wy: u32, wz: u32, rMax: real, sigma: real)
      requires rMax > 0.0
      ensures Valid()
      ensures this.wx == wx && this.wy == wy && this.wz == wz
      ensures this.rMax == rMax && this.sigma == sigma
      ensures density.Length0 == 0
    {
      this.wx := wx;
      this.wy := wy;
      this.wz := wz;
      this.rMax := rMax;
      this.sigma := sigma;
      box := Box(0.0, 0.0, 0.0, true, true, true, false);
      density := new real[0, 0, 0];
    }

    /** The constructor with its check: invalid_argument exactly when `r_max <= 0`; sigma is not checked. */
    static method Create(wx: u32, wy: u32, wz: u32, rMax: real, sigma: real)
      returns (r: Result<GaussianDensity, ConfigError>)
      ensures r.Failure? <==> rMax <= 0.0
      ensures r.Failure? ==> r.error == NonPositiveRMax
      ensures r.Success? ==> fresh(r.value) && r.value.Valid()
      ensures r.Success? ==> r.value.wx == wx && r.value.wy == wy && r.value.wz == wz
      ensures r.Success? ==> r.value.rMax == rMax && r.value.sigma == sigma
    {
      if rMax <= 0.0 {
        return Failure(NonPositiveRMax);
      }
      var gd := new GaussianDensity(wx, wy, wz, rMax, sigma);
      return Success(gd);
    }

    /**
     * Splats every point onto a fresh grid: each bin of the new density array
     * holds the sum of the weights the points deposit there, and nothing of
     * the previous result survives.
     */
    method Compute(box: Box, points: seq<Vec3>, kern: Kernel)
      requires Valid() && ValidBox(box) && wx > 0 && wy > 0 && wz > 0
      modifies this
      ensures Valid() && this.box == box && fresh(density)
      ensures var g := MakeGrid(wx, wy, wz, box, rMax);
        && density.Length0 == wx && density.Length1 == wy && density.Length2 == DepthZ(g)
        && Holds(density, AllDeposits(g, kern, points))
    {
      var g := MakeGrid(wx, wy, wz, box, rMax);
      var depth := if box.is2D then 1 else wz;
      var local := new real[wx, wy, depth]((a, b, c) => 0.0);
      ghost var done: seq<Deposit> := [];
      var idx := 0;
      while idx < |points|
        invariant 0 <= idx <= |points|
        invariant fresh(local)
        invariant local.Length0 == wx && local.Length1 == wy && local.Length2 == DepthZ(g)
        invariant done == AllDeposits(g, kern, points[..idx])
        invariant Holds(local, done)
      {
        done := SplatPoint(local, g, kern, points[idx], done);
        AllDepositsSnoc(g, kern, points[..idx], points[idx]);
        assert points[..idx + 1] == points[..idx] + [points[idx]];
        idx := idx + 1;
      }
      assert points[..idx] == points;
      var out := new real[wx, wy, depth]((a, b, c) => 0.0);
      ReduceInto(local, out);
      assert Holds(out, done);
      this.box := box;
      density := out;
    }
  }

  /** The thread-local grid summed into the (zeroed) output, element by element. */
  method ReduceInto(local: array3<real>, out: array3<real>)
    requires local != out
    requires out.Length0 == local.Length0 && out.Length1 == local.Length1 && out.Length2 == local.Length2
    modifies out
    ensures forall a, b, c :: 0 <= a < out.Length0 && 0 <= b < out.Length1 && 0 <= c < out.Length2 ==>
      out[a, b, c] == old(out[a, b, c]) + local[a, b, c]
  {
    forall a, b, c | 0 <= a < out.Length0 && 0 <= b < out.Length1 && 0 <= c < out.Length2 {
      out[a, b, c] := out[a, b, c] + local[a, b, c];
    }
  }

  /** `local(ni, nj, nk) += gaussian` for one accepted candidate. */
  method AddDeposit(grid: array3<real>, ghost done: seq<Deposit>, d: Deposit)
    requires Holds(grid, done)
    requires 0 <= d.ni < grid.Length0 && 0 <= d.nj < grid.Length1 && 0 <= d.nk < grid.Length2
    modifies grid
    ensures Holds(grid, done + [d])
  {
    grid[d.ni, d.nj, d.nk] := grid[d.ni, d.nj, d.nk] + d.weight;
    forall a, b, c | 0 <= a < grid.Length0 && 0 <= b < grid.Length1 && 0 <= c < grid.Length2
      ensures grid[a, b, c] == GridValue(done + [d], a, b, c)
    {
      GridValueSnoc(done, d, a, b, c);
    }
  }

  /** The candidate loops of compute for one point: its home bin, then the loops around it. */
  method SplatPoint(local: array3<real>, g: Grid, kern: Kernel, p: Vec3, ghost done: seq<Deposit>)
    returns (ghost done': seq<Deposit>)
    requires GridOk(g) && Holds(local, done)
    requires local.Length0 == g.wx && local.Length1 == g.wy && local.Length2 == DepthZ(g)
    modifies local
    ensures done' == done + PointDeposits(g, kern, p) && Holds(local, done')
  {
    var h := HomeBin(g, p);
    done' := SplatBlock(local, g, kern, p, h, done);
  }

  /** The outer loop of compute: planes along z around home bin `h`. */
  method SplatBlock(local: array3<real>, g: Grid, kern: Kernel, p: Vec3, h: Bin, ghost done: seq<Deposit>)
    returns (ghost done': seq<Deposit>)
    requires GridOk(g) && Holds(local, done) && (g.box.is2D ==> h.z == 0)
    requires local.Length0 == g.wx && local.Length1 == g.wy && local.Length2 == DepthZ(g)
    modifies local
    ensures done' == done + Sweep(g, kern, p, h, 2, 0, 0, h.z - g.cutZ, h.z + g.cutZ + 1) && Holds(local, done')
  {
    done' := done;
    var k := h.z - g.cutZ;
    while k <= h.z + g.cutZ
      invariant h.z - g.cutZ <= k <= h.z + g.cutZ + 1
      invariant done' == done + Sweep(g, kern, p, h, 2, 0, 0, h.z - g.cutZ, k) && Holds(local, done')
    {
      SweepStep(g, kern, p, h, 2, 0, 0, h.z - g.cutZ, k, done);
      if !Skip(k, g.wz, g.box.periodicZ) {
        done' := SplatPlane(local, g, kern, p, h, k, done');
      }
      k := k + 1;
    }
  }

  /** The middle loop of compute: rows along y for fixed k. */
  method SplatPlane(local: array3<real>, g: Grid, kern: Kernel, p: Vec3, h: Bin, k: int, ghost done: seq<Deposit>)
    returns (ghost done': seq<Deposit>)
    requires GridOk(g) && Holds(local, done) && (g.box.is2D ==> h.z == 0)
    requires local.Length0 == g.wx && local.Length1 == g.wy && local.Length2 == DepthZ(g)
    requires h.z - g.cutZ <= k <= h.z + g.cutZ && !Skip(k, g.wz, g.box.periodicZ)
    modifies local
    ensures done' == done + FullPlane(g, kern, p, h, k) && Holds(local, done')
  {
    done' := done;
    var j := h.y - g.cutY;
    while j <= h.y + g.cutY
      invariant h.y - g.cutY <= j <= h.y + g.cutY + 1
      invariant done' == done + Sweep(g, kern, p, h, 1, 0, k, h.y - g.cutY, j) && Holds(local, done')
    {
      SweepStep(g, kern, p, h, 1, 0, k, h.y - g.cutY, j, done);
      if !Skip(j, g.wy, g.box.periodicY) {
        done' := SplatRow(local, g, kern, p, h, j, k, done');
      }
      j := j + 1;
    }
  }

  /** The innermost loop of compute: candidates along x for fixed j and k. */
  method SplatRow(local: array3<real>, g: Grid, kern: Kernel, p: Vec3, h: Bin, j: int, k: int, ghost done: seq<Deposit>)
    returns (ghost done': seq<Deposit>)
    requires GridOk(g) && Holds(local, done) && (g.box.is2D ==> h.z == 0)
    requires local.Length0 == g.wx && local.Length1 == g.wy && local.Length2 == DepthZ(g)
    requires !Skip(j, g.wy, g.box.periodicY)
    requires h.z - g.cutZ <= k <= h.z + g.cutZ && !Skip(k, g.wz, g.box.periodicZ)
    modifies local
    ensures done' == done + FullRow(g, kern, p, h, j, k) && Holds(local, done')
  {
    WrapFacts(k, g.wz);
    done' := done;
    var i := h.x - g.cutX;
    while i <= h.x + g.cutX
      invariant h.x - g.cutX <= i <= h.x + g.cutX + 1
      invariant done' == done + Sweep(g, kern, p, h, 0, j, k, h.x - g.cutX, i) && Holds(local, done')
    {
      SweepStep(g, kern, p, h, 0, j, k, h.x - g.cutX, i, done);
      if !Skip(i, g.wx, g.box.periodicX) {
        var r2 := SquaredDistance(g, kern, p, i, j, k);
        if r2 < g.rMaxSq {
          var d := Deposit(i, j, k, Wrap(i, g.wx), Wrap(j, g.wy), Wrap(k, g.wz), kern.gauss(r2));
          AddDeposit(local, done', d);
          done' := done' + [d];
        }
      }
      i := i + 1;
    }
  }
}
