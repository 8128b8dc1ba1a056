/** What the driver hands to code outside its two files: correlation and
    grid construction, spline resampling, point sampling of order >= 1,
    the mask-on-grid sampling, validation, outlier replacement and
    smoothing. Each is an uninterpreted function; `WellBehaved` collects the
    shape contracts the driver relies on. */
module Collab {
  import opened Outcome
  import opened Mats
  import opened Sampling
  import GridPad
  import Reconcile

  /** A rectilinear grid of window centres, kept as its two 1-D vectors:
      `xs` is `x[0, :]` and `ys` is `y[:, 0]` of the meshgrid. */
  datatype Grid = Grid(xs: seq<real>, ys: seq<real>)

  function GridShape(g: Grid): (nat, nat) {
    (|g.ys|, |g.xs|)
  }

  /** `np.meshgrid(xs, ys)[0]`: every row is `xs`. */
  function MeshX(g: Grid): (m: Mat<real>)
    ensures Shape(m) == GridShape(g)
    ensures forall r, c | InBounds(m, r, c) :: At(m, r, c) == g.xs[c]
  {
    Array2(|g.ys|, |g.xs|, seq(|g.ys|, _ => g.xs))
  }

  /** `np.meshgrid(xs, ys)[1]`: every column is `ys`. */
  function MeshY(g: Grid): (m: Mat<real>)
    ensures Shape(m) == GridShape(g)
    ensures forall r, c | InBounds(m, r, c) :: At(m, r, c) == g.ys[r]
  {
    Array2(|g.ys|, |g.xs|, seq(|g.ys|, r requires 0 <= r < |g.ys| => seq(|g.xs|, _ => g.ys[r])))
  }

  /** `np.arange(n)` as coordinates. */
  function Range(n: nat): (v: seq<real>)
    ensures |v| == n
    ensures forall k | 0 <= k < n :: v[k] == k as real
  {
    seq(n, k => k as real)
  }

  /** Signal-to-noise method of the correlation; `Disabled` is `None`. */
  datatype S2N = Peak2Peak | Peak2Mean | Disabled

  /** The arguments of one `extended_search_area_piv` call that the driver
      chooses; the remaining ones come unchanged from the settings. */
  datatype CorrRequest = CorrRequest(windowSize: int, overlap: int, searchArea: Option<int>, s2n: S2N)

  /** Correlation output, already reshaped to the field shape. */
  datatype Correlation = Correlation(u: Mat<real>, v: Mat<real>, s2n: Mat<real>)

  datatype Collaborators = Collaborators(
    /** `get_rect_coordinates(shape, window_size, overlap)`; `None` when it
        rejects the window. */
    rectGrid: (nat, nat, int, int) -> Option<Grid>,
    /** `extended_search_area_piv` followed by the reshape. */
    correlate: (Mat<real>, Mat<real>, CorrRequest) -> Correlation,
    /** `RectBivariateSpline(ys, xs, m, kx=k, ky=k)(ys2, xs2)`; `None` when
        the fit raises. */
    spline: (seq<real>, seq<real>, Mat<real>, nat, seq<real>, seq<real>) -> Option<Mat<real>>,
    /** `map_coordinates` of order >= 1 at one point. */
    interp: Interp,
    /** `map_coordinates(image_mask, [y, x]).astype(bool)`. */
    maskOnGrid: (Mat<bool>, Grid) -> Mat<bool>,
    /** `validation.typical_validation(u, v, s2n, settings)`. */
    validate: (Masked, Masked, Mat<real>) -> Mat<bool>,
    /** `filters.replace_outliers(u, v, flags, ...)`. */
    replaceOutliers: (Masked, Masked, Mat<bool>) -> (Masked, Masked),
    /** `smoothn.smoothn(u, s=smoothn_p)[0]`. */
    smooth: Masked -> Masked
  )

  /** The shape contracts of the collaborators: grids are uniform with
      non-negative first centres and a positive step, correlation and
      validation produce fields of the grid's shape, the spline fits only
      degrees 1 to 5 and evaluates on the requested product grid, repair and
      smoothing keep shapes. */
  ghost predicate WellBehaved(c: Collaborators) {
    && (forall h: nat, w: nat, ws: int, ov: int | c.rectGrid(h, w, ws, ov).Some? ::
          var g := c.rectGrid(h, w, ws, ov).value;
          && ws - ov > 0
          && |g.xs| > 0 && |g.ys| > 0
          && g.xs[0] >= 0.0 && g.ys[0] >= 0.0
          && GridPad.UniformStep(g.xs, (ws - ov) as real)
          && GridPad.UniformStep(g.ys, (ws - ov) as real))
    && (forall a: Mat<real>, b: Mat<real>, req: CorrRequest | c.rectGrid(a.height, a.width, req.windowSize, req.overlap).Some? ::
          var shape := GridShape(c.rectGrid(a.height, a.width, req.windowSize, req.overlap).value);
          var corr := c.correlate(a, b, req);
          Shape(corr.u) == shape && Shape(corr.v) == shape && Shape(corr.s2n) == shape)
    && SplineWellBehaved(c)
    && (forall mask: Mat<bool>, g: Grid :: Shape(c.maskOnGrid(mask, g)) == GridShape(g))
    && (forall u: Masked, v: Masked, s2n: Mat<real> :: Shape(c.validate(u, v, s2n)) == Shape(u.data))
    && (forall u: Masked, v: Masked, flags: Mat<bool> ::
          Shape(c.replaceOutliers(u, v, flags).0.data) == Shape(u.data) &&
          Shape(c.replaceOutliers(u, v, flags).1.data) == Shape(v.data))
    && (forall u: Masked :: Shape(c.smooth(u).data) == Shape(u.data))
  }

  /** The spline fits only degrees 1 to 5 and evaluates on the requested
      product grid. */
  ghost predicate SplineWellBehaved(c: Collaborators) {
    forall ys: seq<real>, xs: seq<real>, m: Mat<real>, k: nat, ys2: seq<real>, xs2: seq<real> | c.spline(ys, xs, m, k, ys2, xs2).Some? ::
      Shape(c.spline(ys, xs, m, k, ys2, xs2).value) == (|ys2|, |xs2|) && 1 <= k <= 5
  }

  /** The settings the driver reads. `numIterations` is an `int`, as in the
      source, where values below 1 leave the pass loop empty. */
  datatype Settings = Settings(
    windowSizes: seq<int>,
    overlaps: seq<int>,
    numIterations: int,
    s2nMethod: S2N,
    s2nValidate: bool,
    validationFirstPass: bool,
    replaceVectors: bool,
    smoothn: bool,
    interpolationOrder: nat,
    staticMask: Option<Mat<bool>>,
    roi: Reconcile.Roi
  )
}
