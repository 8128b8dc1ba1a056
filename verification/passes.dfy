/** One evaluation pass of the window-deformation driver, for both
    back ends: the first pass (`first_pass` and the code after it in
    `multipass`) and a refining pass (`multipass_img_deform`). A pass maps
    the driver's state to the next state or to the exception it raises, and
    appends what it did to a trace of events. */
module Passes {
  import opened Outcome
  import opened Mats
  import opened Collab
  import Warp
  import Tiling
  import GridPad

  datatype Backend = Cpu | Gpu

  /** What the driver did, tagged with the pass (0 is the first pass). */
  datatype Event =
    | Correlated(pass: nat, request: CorrRequest)
    | Deformed(pass: nat)
    | Smoothed(pass: nat)
    | Validated(pass: nat)
    | Repaired(pass: nat)

  /** The driver's variables between passes: the grid `x, y`, the field
      `u, v`, `grid_mask`, `flags`, the current `settings.sig2noise_method`
      (a pass may overwrite it) and the events so far. */
  datatype State = State(grid: Grid, u: Masked, v: Masked, gridMask: Mat<bool>, flags: Mat<bool>,
                         s2nMethod: S2N, trace: seq<Event>)

  /** The field, the mask and the flags all have the grid's shape. */
  predicate Coshaped(st: State) {
    var sh := GridShape(st.grid);
    Shape(st.u.data) == sh && Shape(st.v.data) == sh && Shape(st.gridMask) == sh && Shape(st.flags) == sh
  }

  /** `g` is the grid `get_rect_coordinates` builds for pass `k` on frame `fa`. */
  predicate PassGrid(c: Collaborators, s: Settings, fa: Mat<int>, k: nat, g: Grid) {
    k < |s.windowSizes| && k < |s.overlaps| &&
    c.rectGrid(fa.height, fa.width, s.windowSizes[k], s.overlaps[k]) == Some(g)
  }

  /** The exceptions a pass can raise when its collaborators keep their
      shape contracts: a too short schedule, a rejected grid, a failing
      spline fit, or a validation that flags everything. */
  predicate PassError(e: Error) {
    e.ScheduleTooShort? || e.GridRejected? || e.SplineFailure? || e.ValidationExhausted?
  }

  /** The correlation request of pass `k`: the first pass searches an area
      of one window and uses the configured signal-to-noise method; a later
      pass has no search area and, unless `sig2noise_validate` holds, no
      signal-to-noise method. */
  function Request(s: Settings, k: nat): CorrRequest
    requires k < |s.windowSizes| && k < |s.overlaps|
  {
    if k == 0 then CorrRequest(s.windowSizes[0], s.overlaps[0], Some(s.windowSizes[0]), s.s2nMethod)
    else CorrRequest(s.windowSizes[k], s.overlaps[k], None, if s.s2nValidate then s.s2nMethod else Disabled)
  }

  /** Reference schedule, read off the settings alone: whether a complete
      run with `n = num_iterations` records event `e`. */
  predicate Scheduled(s: Settings, e: Event) {
    var n := s.numIterations;
    match e
    case Correlated(k, req) =>
      (k == 0 || k < n) && k < |s.windowSizes| && k < |s.overlaps| && req == Request(s, k)
    case Deformed(k) => 1 <= k < n
    case Smoothed(k) => s.smoothn && (k == 0 || k + 1 < n)
    case Validated(k) => (k == 0 && s.validationFirstPass) || 1 <= k < n
    case Repaired(k) => (k == 0 && ((n == 1 && s.replaceVectors) || n > 1)) || (1 <= k && k + 1 < n)
  }

  /** `settings.sig2noise_method` after a refining pass: it is cleared for
      good once `sig2noise_validate` is false. */
  function S2NAfter(s: Settings, current: S2N): (m: S2N)
    ensures !s.s2nValidate ==> m == Disabled
    ensures s.s2nValidate ==> m == current
  {
    if !s.s2nValidate then Disabled else current
  }

  /** `settings.windowsizes[i]`, `settings.overlap[i]`. */
  function Window(s: Settings, i: nat): (r: Result<(int, int)>)
    ensures r.Ok? <==> i < |s.windowSizes| && i < |s.overlaps|
    ensures r.Ok? ==> r.value == (s.windowSizes[i], s.overlaps[i])
    ensures r.Err? ==> r.error == ScheduleTooShort(i)
  {
    if i < |s.windowSizes| && i < |s.overlaps| then Ok((s.windowSizes[i], s.overlaps[i]))
    else Err(ScheduleTooShort(i))
  }

  /** `get_rect_coordinates(frame_a.shape, window_size, overlap)`. */
  function GridFor(c: Collaborators, fa: Mat<int>, ws: int, ov: int, i: nat): (r: Result<Grid>)
    ensures r.Err? <==> c.rectGrid(fa.height, fa.width, ws, ov).None?
    ensures r.Err? ==> r.error == GridRejected(i)
    ensures r.Ok? ==> c.rectGrid(fa.height, fa.width, ws, ov) == Some(r.value)
  {
    match c.rectGrid(fa.height, fa.width, ws, ov)
    case None => Err(GridRejected(i))
    case Some(g) => Ok(g)
  }

  /** `RectBivariateSpline(from.ys, from.xs, m)(onto.ys, onto.xs)`. */
  function Resample(c: Collaborators, from: Grid, m: Mat<real>, order: nat, onto: Grid, i: nat): (r: Result<Mat<real>>)
    ensures r.Err? <==> c.spline(from.ys, from.xs, m, order, onto.ys, onto.xs).None?
    ensures r.Err? ==> r.error == SplineFailure(i)
    ensures SplineWellBehaved(c) && r.Ok? ==> Shape(r.value) == GridShape(onto)
  {
    match c.spline(from.ys, from.xs, m, order, onto.ys, onto.xs)
    case None => Err(SplineFailure(i))
    case Some(p) => Ok(p)
  }

  /** `u += pre`: numpy broadcasts `pre` onto the field or raises; with
      equal shapes every vector gains its own predictor. */
  function Accumulate(u: Mat<real>, pre: Mat<real>, i: nat): (r: Result<Mat<real>>)
    ensures r.Ok? <==> Broadcastable(u, pre)
    ensures r.Err? ==> r.error == BroadcastMismatch(i)
    ensures r.Ok? ==> Shape(r.value) == Shape(u)
    ensures r.Ok? && Shape(pre) == Shape(u) ==>
              forall a, b | InBounds(u, a, b) :: At(r.value, a, b) == At(u, a, b) + At(pre, a, b)
  {
    if Broadcastable(u, pre) then Ok(AddInPlace(u, pre)) else Err(BroadcastMismatch(i))
  }

  /** Removal of the extension rows and columns from a predictor given on
      the extended grid: exactly `ya` rows and `xa` columns are dropped at
      each end; a predictor too small for that cannot be added. */
  function Unpad(m: Mat<real>, ya: (int, int), xa: (int, int), i: nat): (r: Result<Mat<real>>)
    ensures r.Ok? <==> GridPad.Pos(ya.0) + GridPad.Pos(ya.1) <= m.height && GridPad.Pos(xa.0) + GridPad.Pos(xa.1) <= m.width
    ensures r.Err? ==> r.error == BroadcastMismatch(i)
    ensures r.Ok? ==> r.value == GridPad.StripMat(m, ya, xa)
  {
    if GridPad.Pos(ya.0) + GridPad.Pos(ya.1) <= m.height && GridPad.Pos(xa.0) + GridPad.Pos(xa.1) <= m.width
    then Ok(GridPad.StripMat(m, ya, xa))
    else Err(BroadcastMismatch(i))
  }

  /** The outcome of validation and repair at the end of a refining pass. */
  datatype Screened = Screened(u: Masked, v: Masked, flags: Mat<bool>, repaired: bool)

  /** `typical_validation`, the abort when `np.all(flags)`, and
      `replace_outliers` on every pass but the last; the GPU driver also
      resets the flags after a repair (`resetFlags`). */
  function Screen(c: Collaborators, n: int, i: nat, u: Masked, v: Masked, s2n: Mat<real>, resetFlags: bool): (r: Result<Screened>)
    ensures r.Err? <==> All(c.validate(u, v, s2n))
    ensures r.Err? ==> r.error == ValidationExhausted(i)
    ensures r.Ok? ==> (r.value.repaired <==> i + 1 != n)
    ensures r.Ok? && r.value.repaired ==> (r.value.u, r.value.v) == c.replaceOutliers(u, v, c.validate(u, v, s2n))
    ensures r.Ok? && !r.value.repaired ==> r.value.u == u && r.value.v == v
    ensures r.Ok? && !(resetFlags && r.value.repaired) ==> r.value.flags == c.validate(u, v, s2n)
    ensures r.Ok? && resetFlags && r.value.repaired ==> !Any(r.value.flags)
    ensures WellBehaved(c) && r.Ok? ==>
              Shape(r.value.u.data) == Shape(u.data) && Shape(r.value.v.data) == Shape(v.data) &&
              Shape(r.value.flags) == Shape(u.data)
  {
    var flags := c.validate(u, v, s2n);
    if All(flags) then Err(ValidationExhausted(i))
    else if i + 1 != n then
      var uv := c.replaceOutliers(u, v, flags);
      Ok(Screened(uv.0, uv.1, if resetFlags then Zeros(uv.0.data.height, uv.0.data.width) else flags, true))
    else Ok(Screened(u, v, flags, false))
  }

  /** Whether the first pass replaces outliers: always when more passes
      follow, and for a single pass only with `replace_vectors`. */
  predicate FirstRepair(s: Settings) {
    (s.numIterations == 1 && s.replaceVectors) || s.numIterations > 1
  }

  function OptEvent(b: bool, e: Event): (es: seq<Event>)
    ensures e in es <==> b
    ensures forall e' | e' in es :: e' == e
  {
    if b then [e] else []
  }

  /** `smoothn` when `smooth` holds, the field itself otherwise. */
  function SmoothIf(c: Collaborators, smooth: bool, m: Masked): Masked {
    if smooth then c.smooth(m) else m
  }

  /** The first pass and what `multipass` does with its result before the
      pass loop: correlate with a search area of one window, smooth if
      asked, build the grid mask (CPU only), validate if asked, and replace
      outliers as `FirstRepair` says. */
  function FirstPass(c: Collaborators, s: Settings, be: Backend, fa: Mat<int>, fb: Mat<int>,
                     imageMask: Option<Mat<bool>>): (r: Result<State>)
    ensures r.Err? ==> r.error.ScheduleTooShort? || r.error.GridRejected?
    ensures r.Ok? ==> r.value.s2nMethod == s.s2nMethod
    ensures r.Ok? ==> forall e :: e in r.value.trace <==> e.pass == 0 && Scheduled(s, e)
    ensures r.Ok? ==> PassGrid(c, s, fa, 0, r.value.grid)
    ensures WellBehaved(c) && r.Ok? ==> Coshaped(r.value)
    ensures r.Ok? && !s.validationFirstPass ==> !Any(r.value.flags)
    ensures r.Ok? && (be.Gpu? || imageMask.None?) ==> !Any(r.value.gridMask)
  {
    var w :- Window(s, 0);
    var req := CorrRequest(w.0, w.1, Some(w.0), s.s2nMethod);
    var corr := c.correlate(ToReal(fa), ToReal(fb), req);
    var grid :- GridFor(c, fa, w.0, w.1, 0);
    var u0 := NoMask(corr.u);
    var v0 := NoMask(corr.v);
    var u1 := SmoothIf(c, s.smoothn, u0);
    var v1 := SmoothIf(c, s.smoothn, v0);
    var gridMask := if be.Cpu? && imageMask.Some? then c.maskOnGrid(imageMask.value, grid)
                    else Zeros(u1.data.height, u1.data.width);
    var flags := if s.validationFirstPass then c.validate(u1, v1, corr.s2n)
                 else Zeros(u1.data.height, u1.data.width);
    var uv := if FirstRepair(s) then c.replaceOutliers(u1, v1, flags) else (u1, v1);
    Ok(State(grid, uv.0, uv.1, gridMask, flags, s.s2nMethod,
             [Correlated(0, req)] + OptEvent(s.smoothn, Smoothed(0)) +
             OptEvent(s.validationFirstPass, Validated(0)) + OptEvent(FirstRepair(s), Repaired(0))))
  }

  /** The field the first pass leaves: the correlation output of frame A
      against frame B with a search area of one window, smoothed if asked,
      validated if asked, and repaired as `FirstRepair` says. */
  lemma {:induction false} FirstPassField(c: Collaborators, s: Settings, be: Backend, fa: Mat<int>, fb: Mat<int>,
                                          imageMask: Option<Mat<bool>>)
    requires FirstPass(c, s, be, fa, fb, imageMask).Ok?
    ensures var r := FirstPass(c, s, be, fa, fb, imageMask).value;
            var corr := c.correlate(ToReal(fa), ToReal(fb), Request(s, 0));
            var u1 := SmoothIf(c, s.smoothn, NoMask(corr.u));
            var v1 := SmoothIf(c, s.smoothn, NoMask(corr.v));
            && (s.validationFirstPass ==> r.flags == c.validate(u1, v1, corr.s2n))
            && (r.u, r.v) == (if FirstRepair(s) then c.replaceOutliers(u1, v1, r.flags) else (u1, v1))
  {
  }

  /** The events a refining pass `i` records, apart from smoothing. */
  function PassEvents(i: nat, req: CorrRequest, repaired: bool): (es: seq<Event>)
    ensures forall e | e in es :: e.pass == i
  {
    [Deformed(i), Correlated(i, req), Validated(i)] + OptEvent(repaired, Repaired(i))
  }

  /** `multipass_img_deform` of the CPU driver, pass `i >= 1`: predict the
      field on the new grid from the previous one (masked vectors read 0),
      deform frame B by the predictor, correlate, and settle. */
  function CpuPass(c: Collaborators, s: Settings, fa: Mat<int>, fb: Mat<int>, i: nat, st: State): (r: Result<State>)
    requires i >= 1
    ensures r.Ok? ==> i < |s.windowSizes| && i < |s.overlaps|
    ensures r.Ok? ==> r.value.s2nMethod == S2NAfter(s, st.s2nMethod)
    ensures r.Ok? ==> r.value.trace == st.trace + PassEvents(i, CorrRequest(s.windowSizes[i], s.overlaps[i], None, r.value.s2nMethod),
                                                          i + 1 != s.numIterations)
    ensures WellBehaved(c) && r.Ok? ==> Coshaped(r.value) && PassGrid(c, s, fa, i, r.value.grid)
    ensures WellBehaved(c) && r.Err? ==> PassError(r.error)
    ensures r.Ok? && s.staticMask.None? ==> !Any(r.value.gridMask)
    ensures r.Ok? && s.staticMask.Some? ==> r.value.gridMask == c.maskOnGrid(s.staticMask.value, r.value.grid)
  {
    var w :- Window(s, i);
    var grid :- GridFor(c, fa, w.0, w.1, i);
    var order := s.interpolationOrder;
    var uPre :- Resample(c, st.grid, Filled(st.u, 0.0), order, grid, i);
    var vPre :- Resample(c, st.grid, Filled(st.v, 0.0), order, grid, i);
    var fbDef :- Warp.DeformWindows(c, fb, grid, uPre, Neg(vPre), order, order, i);
    var req := CorrRequest(w.0, w.1, None, S2NAfter(s, st.s2nMethod));
    var corr := c.correlate(ToReal(fa), fbDef, req);
    CpuSettle(c, s.numIterations, i, grid, corr, uPre, vPre, s.staticMask, req, st.trace)
  }

  /** `grid_mask` of a CPU pass: the static mask sampled on the pass grid,
      or all false in the field's shape. */
  function GridMaskOf(c: Collaborators, staticMask: Option<Mat<bool>>, grid: Grid, h: nat, w: nat): (m: Mat<bool>)
    ensures staticMask.None? ==> Shape(m) == (h, w) && !Any(m)
    ensures staticMask.Some? ==> m == c.maskOnGrid(staticMask.value, grid)
  {
    match staticMask
    case Some(mask) => c.maskOnGrid(mask, grid)
    case None => Zeros(h, w)
  }

  /** The end of a CPU pass: add the predictor to the correlation output,
      mask the field with `grid_mask`, validate, repair unless this is the
      last pass, and record the pass's events. */
  function CpuSettle(c: Collaborators, n: int, i: nat, grid: Grid, corr: Correlation, uPre: Mat<real>, vPre: Mat<real>,
                     staticMask: Option<Mat<bool>>, req: CorrRequest, trace: seq<Event>): (r: Result<State>)
    ensures r.Ok? ==> r.value.grid == grid && r.value.s2nMethod == req.s2n
    ensures r.Ok? ==> r.value.trace == trace + PassEvents(i, req, i + 1 != n)
    ensures r.Ok? ==> r.value.gridMask == GridMaskOf(c, staticMask, grid, corr.u.height, corr.u.width)
    ensures WellBehaved(c) && Shape(corr.u) == GridShape(grid) && Shape(corr.v) == GridShape(grid) &&
            Shape(uPre) == GridShape(grid) && Shape(vPre) == GridShape(grid) ==>
              (r.Ok? ==> Coshaped(r.value)) && (r.Err? ==> r.error == ValidationExhausted(i))
  {
    var u :- Accumulate(corr.u, uPre, i);
    var v :- Accumulate(corr.v, vPre, i);
    var gridMask := GridMaskOf(c, staticMask, grid, u.height, u.width);
    if Shape(gridMask) != Shape(u) || Shape(gridMask) != Shape(v) then Err(MaskShapeMismatch)
    else
      var chk :- Screen(c, n, i, MaskedArray(u, gridMask), MaskedArray(v, gridMask), corr.s2n, false);
      Ok(State(grid, chk.u, chk.v, gridMask, chk.flags, req.s2n, trace + PassEvents(i, req, chk.repaired)))
  }

  /** The field a CPU pass leaves: the correlation output plus the
      predictor, masked by `grid_mask`; it is repaired on every pass but the
      last, the pass raises exactly when validation flags every vector, and
      the flags returned are `typical_validation`'s. */
  lemma {:induction false} CpuSettleField(c: Collaborators, n: int, i: nat, grid: Grid, corr: Correlation, uPre: Mat<real>, vPre: Mat<real>,
                                          staticMask: Option<Mat<bool>>, req: CorrRequest, trace: seq<Event>)
    ensures var r := CpuSettle(c, n, i, grid, corr, uPre, vPre, staticMask, req, trace);
            var u := Accumulate(corr.u, uPre, i);
            var v := Accumulate(corr.v, vPre, i);
            var gm := GridMaskOf(c, staticMask, grid, corr.u.height, corr.u.width);
            u.Ok? && v.Ok? && Shape(gm) == Shape(corr.u) && Shape(gm) == Shape(corr.v) ==>
              && (r.Err? <==> All(c.validate(MaskedArray(u.value, gm), MaskedArray(v.value, gm), corr.s2n)))
              && (r.Ok? && i + 1 == n ==> r.value.u == MaskedArray(u.value, gm) && r.value.v == MaskedArray(v.value, gm))
              && (r.Ok? && i + 1 != n ==>
                    (r.value.u, r.value.v) == c.replaceOutliers(MaskedArray(u.value, gm), MaskedArray(v.value, gm),
                                                                c.validate(MaskedArray(u.value, gm), MaskedArray(v.value, gm), corr.s2n)))
              && (r.Ok? ==> r.value.flags == c.validate(MaskedArray(u.value, gm), MaskedArray(v.value, gm), corr.s2n))
    ensures var r := CpuSettle(c, n, i, grid, corr, uPre, vPre, staticMask, req, trace);
            r.Ok? ==> Accumulate(corr.u, uPre, i).Ok? && Accumulate(corr.v, vPre, i).Ok? &&
                      Shape(r.value.gridMask) == Shape(corr.u) && Shape(r.value.gridMask) == Shape(corr.v)
  {
  }

  /** On the last pass the CPU field is, vector by vector, the correlation
      output plus the predictor of the same grid point. */
  lemma {:induction false} CpuSettleSum(c: Collaborators, n: int, i: nat, grid: Grid, corr: Correlation, uPre: Mat<real>, vPre: Mat<real>,
                                        staticMask: Option<Mat<bool>>, req: CorrRequest, trace: seq<Event>)
    requires CpuSettle(c, n, i, grid, corr, uPre, vPre, staticMask, req, trace).Ok? && i + 1 == n
    requires Shape(uPre) == Shape(corr.u) && Shape(vPre) == Shape(corr.v)
    ensures var r := CpuSettle(c, n, i, grid, corr, uPre, vPre, staticMask, req, trace).value;
            && (forall a, b | InBounds(corr.u, a, b) :: At(r.u.data, a, b) == At(corr.u, a, b) + At(uPre, a, b))
            && (forall a, b | InBounds(corr.v, a, b) :: At(r.v.data, a, b) == At(corr.v, a, b) + At(vPre, a, b))
  {
    CpuSettleField(c, n, i, grid, corr, uPre, vPre, staticMask, req, trace);
  }

  /** How a GPU pass removes the padding from the predictor and from the
      grid: exactly the added rows and columns (`Intended`), or with the
      slice `[y_add[0] : -y_add[1], x_add[0] : -x_add[1]]` as written, which
      keeps nothing on an axis whose trailing count is 0 (`AsWritten`). */
  datatype Unpadding = Intended | AsWritten

  /** `multipass_img_deform` of the GPU driver, pass `i >= 1`: stage the
      pass (extend the grid, predict, deform, correlate), then add the
      unpadded predictor, validate, repair and reset the flags. The static
      mask plays no part. */
  function GpuPass(c: Collaborators, s: Settings, fa: Mat<int>, fb: Mat<int>, i: nat, st: State, un: Unpadding): (r: Result<State>)
    requires i >= 1
    ensures r.Ok? ==> i < |s.windowSizes| && i < |s.overlaps|
    ensures r.Ok? ==> r.value.s2nMethod == S2NAfter(s, st.s2nMethod)
    ensures r.Ok? ==> r.value.trace == st.trace + PassEvents(i, CorrRequest(s.windowSizes[i], s.overlaps[i], None, r.value.s2nMethod),
                                                          i + 1 != s.numIterations)
    ensures WellBehaved(c) && r.Ok? && un.Intended? ==> Coshaped(r.value) && PassGrid(c, s, fa, i, r.value.grid)
    ensures WellBehaved(c) && r.Err? ==> PassError(r.error) || (un.AsWritten? && r.error == BroadcastMismatch(i))
    ensures r.Ok? ==> !Any(r.value.gridMask)
    ensures r.Ok? && i + 1 != s.numIterations ==> !Any(r.value.flags)
    ensures r.Ok? && i + 1 == s.numIterations ==> !Any(r.value.u.mask) && !Any(r.value.v.mask)
  {
    var g :- GpuStage(c, s, fa, fb, i, st);
    match un
    case Intended =>
      GpuSettle(c, s.numIterations, i, Grid(GridPad.Strip(g.pre.ext.xs, g.pre.xa), GridPad.Strip(g.pre.ext.ys, g.pre.ya)),
                g.pre, g.corr, g.req, st.trace)
    case AsWritten =>
      GpuSettleAsWritten(c, s.numIterations, i,
                         Grid(GridPad.StripAsWritten(g.pre.ext.xs, g.pre.xa), GridPad.StripAsWritten(g.pre.ext.ys, g.pre.ya)),
                         g.pre, g.corr, g.req, st.trace)
  }

  /** What a GPU pass has computed before the predictor is added: the pass
      grid, the prediction on the extended grid, and the correlation of
      frame A with frame B deformed by that prediction. */
  datatype Staged = Staged(grid: Grid, pre: Prediction, corr: Correlation, req: CorrRequest)

  /** The first part of a GPU pass: plan it, deform frame B tile by tile
      by the prediction, and correlate frame A with the result. */
  function GpuStage(c: Collaborators, s: Settings, fa: Mat<int>, fb: Mat<int>, i: nat, st: State): (r: Result<Staged>)
    ensures r.Ok? ==> GpuPlan(c, s, fa, i, st) == Ok((r.value.grid, r.value.pre))
    ensures r.Ok? ==> r.value.req == CorrRequest(s.windowSizes[i], s.overlaps[i], None, S2NAfter(s, st.s2nMethod))
    ensures r.Ok? ==> var pre := r.value.pre;
                      var field := Tiling.GpuField(pre.ext, pre.u, Neg(pre.v), s.windowSizes[i] - s.overlaps[i]);
                      && Tiling.ValidField(field)
                      && r.value.corr == c.correlate(ToReal(fa),
                                                     ToReal(Tiling.DeformGpu(c.interp, ToReal(fb), field, s.interpolationOrder, s.interpolationOrder)),
                                                     r.value.req)
    ensures WellBehaved(c) && r.Ok? ==>
              Shape(r.value.corr.u) == GridShape(r.value.grid) && Shape(r.value.corr.v) == GridShape(r.value.grid)
    ensures r.Err? ==> GpuPlan(c, s, fa, i, st).Err? && r.error == GpuPlan(c, s, fa, i, st).error
  {
    var plan :- GpuPlan(c, s, fa, i, st);
    var pre := plan.1;
    var order := s.interpolationOrder;
    var field := Tiling.GpuField(pre.ext, pre.u, Neg(pre.v), s.windowSizes[i] - s.overlaps[i]);
    assert Tiling.ValidField(field);
    var req := CorrRequest(s.windowSizes[i], s.overlaps[i], None, S2NAfter(s, st.s2nMethod));
    Ok(Staged(plan.0, pre, c.correlate(ToReal(fa), ToReal(Tiling.DeformGpu(c.interp, ToReal(fb), field, order, order)), req), req))
  }

  /** The plan of GPU pass `i`: its grid, extended by whole steps until it
      covers the frame, with the previous field predicted on the extended
      grid. It pads with the pass grid's own counts; with well-behaved
      collaborators the predictors lose exactly the padding. */
  function GpuPlan(c: Collaborators, s: Settings, fa: Mat<int>, i: nat, st: State): (r: Result<(Grid, Prediction)>)
    ensures r.Ok? ==> PassGrid(c, s, fa, i, r.value.0) && |r.value.0.xs| > 0 && |r.value.0.ys| > 0
    ensures r.Ok? ==> var (grid, pre) := r.value;
                      && s.windowSizes[i] - s.overlaps[i] != 0
                      && |pre.ext.xs| == GridPad.Pos(pre.xa.0) + |grid.xs| + GridPad.Pos(pre.xa.1)
                      && |pre.ext.ys| == GridPad.Pos(pre.ya.0) + |grid.ys| + GridPad.Pos(pre.ya.1)
    ensures r.Ok? ==> GridPad.Strip(r.value.1.ext.xs, r.value.1.xa) == r.value.0.xs &&
                      GridPad.Strip(r.value.1.ext.ys, r.value.1.ya) == r.value.0.ys
    ensures SplineWellBehaved(c) && r.Ok? ==> Fits(r.value.1, r.value.0, i)
    ensures WellBehaved(c) && r.Err? ==> PassError(r.error)
  {
    var w :- Window(s, i);
    var grid :- GridFor(c, fa, w.0, w.1, i);
    if |grid.ys| == 0 || |grid.xs| == 0 then Err(EmptyGrid(i))
    else if w.0 - w.1 == 0 then Err(ZeroStep(i))
    else
      var step := s.windowSizes[i] - s.overlaps[i];
      assert step == w.0 - w.1;
      var pre :- GpuPredict(c, st, grid, fa.height, fa.width, step, s.interpolationOrder, i);
      Ok((grid, pre))
  }

  /** A planned GPU pass pads with the counts of its own grid. */
  lemma {:induction false} GpuPlanPadding(c: Collaborators, s: Settings, fa: Mat<int>, i: nat, st: State)
    requires GpuPlan(c, s, fa, i, st).Ok?
    ensures PassPadding(c, s, fa, i) == Some((GpuPlan(c, s, fa, i, st).value.1.ya, GpuPlan(c, s, fa, i, st).value.1.xa))
  {
    var w := Window(s, i).value;
    var grid := GridFor(c, fa, w.0, w.1, i).value;
    assert GpuPlan(c, s, fa, i, st).value.0 == grid;
  }

  /** The padding counts `(y_add, x_add)` of GPU pass `i`, when its grid
      exists and can be extended. */
  function PassPadding(c: Collaborators, s: Settings, fa: Mat<int>, i: nat): Option<((int, int), (int, int))> {
    if i < |s.windowSizes| && i < |s.overlaps| then
      match c.rectGrid(fa.height, fa.width, s.windowSizes[i], s.overlaps[i])
      case None => None
      case Some(g) =>
        var step := s.windowSizes[i] - s.overlaps[i];
        if |g.ys| == 0 || |g.xs| == 0 || step == 0 then None
        else Some((GridPad.PadCounts(g.ys, fa.height, step), GridPad.PadCounts(g.xs, fa.width, step)))
    else None
  }

  /** The slice as written removes exactly the padding of GPU pass `i`:
      both leading counts are non-negative and both trailing counts
      positive, that is, the last centres lie before the last pixel row and
      column. */
  predicate SliceExact(c: Collaborators, s: Settings, fa: Mat<int>, i: nat) {
    match PassPadding(c, s, fa, i)
    case None => true
    case Some((ya, xa)) => 0 <= ya.0 && 1 <= ya.1 && 0 <= xa.0 && 1 <= xa.1
  }

  /** `u += u_pre[...]` with the padding removed as intended: the
      correlation output plus the predictor read past the leading padding. */
  function AddUnpadded(u: Mat<real>, pre: Mat<real>, ya: (int, int), xa: (int, int), i: nat): (r: Result<Mat<real>>)
    ensures r.Err? ==> r.error == BroadcastMismatch(i)
    ensures r.Ok? ==> Shape(r.value) == Shape(u)
    ensures Unpad(pre, ya, xa, i).Ok? && Shape(Unpad(pre, ya, xa, i).value) == Shape(u) ==>
              && r.Ok?
              && forall a, b | InBounds(u, a, b) ::
                   At(r.value, a, b) == At(u, a, b) + At(pre, a + GridPad.Pos(ya.0), b + GridPad.Pos(xa.0))
  {
    var cut :- Unpad(pre, ya, xa, i);
    Accumulate(u, cut, i)
  }

  /** The end of a GPU pass: add the unpadded predictor to the correlation
      output, validate, repair and reset the flags unless this is the last
      pass, and record the pass's events. */
  function GpuSettle(c: Collaborators, n: int, i: nat, grid: Grid, pre: Prediction, corr: Correlation,
                     req: CorrRequest, trace: seq<Event>): (r: Result<State>)
    ensures r.Ok? ==> r.value.grid == grid && r.value.s2nMethod == req.s2n
    ensures r.Ok? ==> r.value.trace == trace + PassEvents(i, req, i + 1 != n)
    ensures r.Ok? ==> !Any(r.value.gridMask)
    ensures r.Ok? && i + 1 != n ==> !Any(r.value.flags)
    ensures var u := AddUnpadded(corr.u, pre.u, pre.ya, pre.xa, i);
            var v := AddUnpadded(corr.v, pre.v, pre.ya, pre.xa, i);
            u.Ok? && v.Ok? ==> (r.Err? <==> All(c.validate(NoMask(u.value), NoMask(v.value), corr.s2n)))
    ensures r.Ok? ==>
              var u := AddUnpadded(corr.u, pre.u, pre.ya, pre.xa, i);
              var v := AddUnpadded(corr.v, pre.v, pre.ya, pre.xa, i);
              && u.Ok? && v.Ok?
              && (i + 1 == n ==> r.value.u == NoMask(u.value) && r.value.v == NoMask(v.value))
              && (i + 1 == n ==> r.value.flags == c.validate(NoMask(u.value), NoMask(v.value), corr.s2n))
              && (i + 1 != n ==>
                    (r.value.u, r.value.v) == c.replaceOutliers(NoMask(u.value), NoMask(v.value),
                                                                c.validate(NoMask(u.value), NoMask(v.value), corr.s2n)))
    ensures Fits(pre, grid, i) && Shape(corr.u) == GridShape(grid) && r.Ok? && i + 1 == n ==>
              forall a, b | InBounds(corr.u, a, b) ::
                At(r.value.u.data, a, b) == At(corr.u, a, b) + At(pre.u, a + GridPad.Pos(pre.ya.0), b + GridPad.Pos(pre.xa.0))
    ensures Fits(pre, grid, i) && Shape(corr.v) == GridShape(grid) && r.Ok? && i + 1 == n ==>
              forall a, b | InBounds(corr.v, a, b) ::
                At(r.value.v.data, a, b) == At(corr.v, a, b) + At(pre.v, a + GridPad.Pos(pre.ya.0), b + GridPad.Pos(pre.xa.0))
    ensures WellBehaved(c) && Fits(pre, grid, i) && Shape(corr.u) == GridShape(grid) && Shape(corr.v) == GridShape(grid) ==>
              (r.Ok? ==> Coshaped(r.value)) && (r.Err? ==> r.error == ValidationExhausted(i))
  {
    var u :- AddUnpadded(corr.u, pre.u, pre.ya, pre.xa, i);
    var v :- AddUnpadded(corr.v, pre.v, pre.ya, pre.xa, i);
    var chk :- Screen(c, n, i, NoMask(u), NoMask(v), corr.s2n, true);
    Ok(State(grid, chk.u, chk.v, Zeros(u.height, u.width), chk.flags, req.s2n, trace + PassEvents(i, req, chk.repaired)))
  }

  /** The end of a GPU pass with the slice as written: the predictor loses
      `[y_add[0] : -y_add[1], x_add[0] : -x_add[1]]`, so a zero trailing
      count leaves an empty predictor that a non-empty field cannot take. */
  function GpuSettleAsWritten(c: Collaborators, n: int, i: nat, grid: Grid, pre: Prediction, corr: Correlation,
                              req: CorrRequest, trace: seq<Event>): (r: Result<State>)
    ensures r.Ok? ==> r.value.grid == grid && r.value.s2nMethod == req.s2n
    ensures r.Ok? ==> r.value.trace == trace + PassEvents(i, req, i + 1 != n)
    ensures r.Ok? ==> !Any(r.value.gridMask)
    ensures r.Ok? && i + 1 != n ==> !Any(r.value.flags)
    ensures r.Err? ==> r.error == BroadcastMismatch(i) || r.error == ValidationExhausted(i)
    ensures (pre.ya.1 == 0 && corr.u.height > 0) || (pre.xa.1 == 0 && corr.u.width > 0) ==> r == Err(BroadcastMismatch(i))
    ensures r.Ok? && i + 1 == n ==> !Any(r.value.u.mask) && !Any(r.value.v.mask)
  {
    var u :- Accumulate(corr.u, GridPad.StripMatAsWritten(pre.u, pre.ya, pre.xa), i);
    var v :- Accumulate(corr.v, GridPad.StripMatAsWritten(pre.v, pre.ya, pre.xa), i);
    var chk :- Screen(c, n, i, NoMask(u), NoMask(v), corr.s2n, true);
    Ok(State(grid, chk.u, chk.v, Zeros(u.height, u.width), chk.flags, req.s2n, trace + PassEvents(i, req, chk.repaired)))
  }

  /** When the slice as written removes exactly the padding, both ends of a
      GPU pass agree. */
  lemma {:induction false} SettleAgrees(c: Collaborators, n: int, i: nat, grid: Grid, pre: Prediction, corr: Correlation,
                                        req: CorrRequest, trace: seq<Event>)
    requires 0 <= pre.ya.0 && 1 <= pre.ya.1 && 0 <= pre.xa.0 && 1 <= pre.xa.1
    requires Fits(pre, grid, i)
    ensures GpuSettleAsWritten(c, n, i, grid, pre, corr, req, trace) == GpuSettle(c, n, i, grid, pre, corr, req, trace)
  {
    GridPad.StripMatAsWrittenAgrees(pre.u, pre.ya, pre.xa);
    GridPad.StripMatAsWrittenAgrees(pre.v, pre.ya, pre.xa);
  }

  /** A GPU pass whose slice is exact is the same pass as written and as
      intended, grid included. */
  lemma {:induction false} GpuPassAgrees(c: Collaborators, s: Settings, fa: Mat<int>, fb: Mat<int>, i: nat, st: State)
    requires i >= 1 && SplineWellBehaved(c) && SliceExact(c, s, fa, i)
    ensures GpuPass(c, s, fa, fb, i, st, AsWritten) == GpuPass(c, s, fa, fb, i, st, Intended)
  {
    var g := GpuStage(c, s, fa, fb, i, st);
    if g.Ok? {
      var pre := g.value.pre;
      GpuPlanPadding(c, s, fa, i, st);
      GridPad.StripAsWrittenAgrees(pre.ext.xs, pre.xa);
      GridPad.StripAsWrittenAgrees(pre.ext.ys, pre.ya);
      SettleAgrees(c, s.numIterations, i, g.value.grid, pre, g.value.corr, g.value.req, st.trace);
    }
  }

  /** When a trailing count of pass `i` is 0, the pass as written raises on
      `u += u_pre[...]` wherever the intended pass completes. */
  lemma {:induction false} GpuPassAsWrittenFails(c: Collaborators, s: Settings, fa: Mat<int>, fb: Mat<int>, i: nat, st: State)
    requires i >= 1 && WellBehaved(c) && GpuPass(c, s, fa, fb, i, st, Intended).Ok?
    requires PassPadding(c, s, fa, i).Some?
    requires PassPadding(c, s, fa, i).value.0.1 == 0 || PassPadding(c, s, fa, i).value.1.1 == 0
    ensures GpuPass(c, s, fa, fb, i, st, AsWritten) == Err(BroadcastMismatch(i))
  {
    var g := GpuStage(c, s, fa, fb, i, st).value;
    GpuPlanPadding(c, s, fa, i, st);
    assert g.corr.u.height > 0 && g.corr.u.width > 0;
    var grid := Grid(GridPad.StripAsWritten(g.pre.ext.xs, g.pre.xa), GridPad.StripAsWritten(g.pre.ext.ys, g.pre.ya));
    assert GpuSettleAsWritten(c, s.numIterations, i, grid, g.pre, g.corr, g.req, st.trace) == Err(BroadcastMismatch(i));
  }

  /** Both predictors lose exactly the padding and then have the shape of
      the pass grid. */
  predicate Fits(pre: Prediction, grid: Grid, i: nat) {
    && Unpad(pre.u, pre.ya, pre.xa, i).Ok? && Shape(Unpad(pre.u, pre.ya, pre.xa, i).value) == GridShape(grid)
    && Unpad(pre.v, pre.ya, pre.xa, i).Ok? && Shape(Unpad(pre.v, pre.ya, pre.xa, i).value) == GridShape(grid)
  }

  /** The predictor of a GPU pass: the extended grid, its padding counts
      `(y_add, x_add)` and the previous field resampled on it. */
  datatype Prediction = Prediction(ext: Grid, ya: (int, int), xa: (int, int), u: Mat<real>, v: Mat<real>)

  /** Extend the pass grid by whole steps on each side and resample the
      previous field `u_old, v_old` on the extended grid. Stripping the
      padding gives back the pass grid, and a predictor of the extended
      grid's shape loses exactly the padding. */
  function GpuPredict(c: Collaborators, st: State, grid: Grid, height: nat, width: nat, step: int, order: nat, i: nat): (r: Result<Prediction>)
    requires |grid.xs| > 0 && |grid.ys| > 0 && step != 0
    ensures r.Err? ==> r.error == SplineFailure(i)
    ensures r.Ok? ==> r.value.ya == GridPad.PadCounts(grid.ys, height, step) && r.value.xa == GridPad.PadCounts(grid.xs, width, step)
    ensures r.Ok? ==> r.value.ext == Grid(GridPad.Extend(grid.xs, r.value.xa, step), GridPad.Extend(grid.ys, r.value.ya, step))
    ensures r.Ok? ==> GridPad.Strip(r.value.ext.xs, r.value.xa) == grid.xs && GridPad.Strip(r.value.ext.ys, r.value.ya) == grid.ys
    ensures SplineWellBehaved(c) && r.Ok? ==> Fits(r.value, grid, i)
  {
    var ya := GridPad.PadCounts(grid.ys, height, step);
    var xa := GridPad.PadCounts(grid.xs, width, step);
    var ext := Grid(GridPad.Extend(grid.xs, xa, step), GridPad.Extend(grid.ys, ya, step));
    GridPad.StripRecovers(grid.xs, xa, step);
    GridPad.StripRecovers(grid.ys, ya, step);
    var uPre :- Resample(c, st.grid, st.u.data, order, ext, i);
    var vPre :- Resample(c, st.grid, st.v.data, order, ext, i);
    Ok(Prediction(ext, ya, xa, uPre, vPre))
  }

  /** A refining pass on either back end; the unpadding only matters on
      the GPU. */
  function Pass(c: Collaborators, s: Settings, be: Backend, fa: Mat<int>, fb: Mat<int>, i: nat, st: State, un: Unpadding): (r: Result<State>)
    requires i >= 1
    ensures WellBehaved(c) && r.Ok? && (be.Cpu? || un.Intended?) ==> Coshaped(r.value) && PassGrid(c, s, fa, i, r.value.grid)
    ensures WellBehaved(c) && r.Err? ==> PassError(r.error) || (un.AsWritten? && r.error == BroadcastMismatch(i))
  {
    if be.Cpu? then CpuPass(c, s, fa, fb, i, st) else GpuPass(c, s, fa, fb, i, st, un)
  }

  /** A refining pass `i < n` records exactly the scheduled events of pass
      `i` other than smoothing, and clears the signal-to-noise method for
      good when `sig2noise_validate` is false. */
  lemma {:induction false} PassTrace(c: Collaborators, s: Settings, be: Backend, fa: Mat<int>, fb: Mat<int>, i: nat, st: State, un: Unpadding)
    requires 1 <= i < s.numIterations
    requires Pass(c, s, be, fa, fb, i, st, un).Ok?
    ensures Pass(c, s, be, fa, fb, i, st, un).value.s2nMethod == S2NAfter(s, st.s2nMethod)
    ensures (s.s2nValidate ==> st.s2nMethod == s.s2nMethod) ==>
              forall e :: e in Pass(c, s, be, fa, fb, i, st, un).value.trace <==>
                            e in st.trace || (e.pass == i && !e.Smoothed? && Scheduled(s, e))
  {
    var r := Pass(c, s, be, fa, fb, i, st, un).value;
    if s.s2nValidate ==> st.s2nMethod == s.s2nMethod {
        PassEventsScheduled(s, i, CorrRequest(s.windowSizes[i], s.overlaps[i], None, r.s2nMethod), i + 1 != s.numIterations);
    }
  }

  /** The events of one refining pass are the scheduled ones of that pass,
      smoothing aside. */
  lemma {:induction false} PassEventsScheduled(s: Settings, i: nat, req: CorrRequest, repaired: bool)
    requires 1 <= i < s.numIterations && i < |s.windowSizes| && i < |s.overlaps|
    requires req == Request(s, i) && (repaired <==> i + 1 != s.numIterations)
    ensures forall e :: e in PassEvents(i, req, repaired) <==> e.pass == i && !e.Smoothed? && Scheduled(s, e)
  {
    forall e
      ensures e in PassEvents(i, req, repaired) <==> e.pass == i && !e.Smoothed? && Scheduled(s, e)
    {
      if e.pass == i && !e.Smoothed? && Scheduled(s, e) {
        match e
        case Correlated(_, _) =>
        case Deformed(_) =>
        case Validated(_) =>
        case Repaired(_) =>
      }
    }
  }
}
