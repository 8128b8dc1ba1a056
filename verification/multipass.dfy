/** `multipass` of both drivers for one image pair: prepare the frames, run
    the first pass, run the refining passes `1 .. num_iterations - 1` with
    smoothing between them, and build what is handed to `tools.save`. */
module Multipass {
  import opened Outcome
  import opened Mats
  import opened Collab
  import opened Passes
  import Reconcile

  /** The arguments of `tools.save(path, x, y, -u[::-1], -v[::-1], flags,
      grid_mask)`. */
  datatype Export = Export(x: Mat<real>, y: Mat<real>, u: Masked, v: Masked, flags: Mat<bool>, gridMask: Mat<bool>)

  /** What one image pair produces: the saved arrays and the events of the
      run. */
  datatype Report = Report(saved: Export, trace: seq<Event>)

  /** The index of the pass whose grid the saved field lives on. */
  function LastPass(s: Settings): (k: nat)
    ensures s.numIterations >= 1 ==> k + 1 == s.numIterations
    ensures s.numIterations < 1 ==> k == 0
  {
    if s.numIterations <= 1 then 0 else s.numIterations - 1
  }

  /** `smoothn` of both components after pass `i`. */
  function Smoothen(c: Collaborators, st: State, i: nat): (r: State)
    ensures r.grid == st.grid && r.gridMask == st.gridMask && r.flags == st.flags && r.s2nMethod == st.s2nMethod
    ensures r.trace == st.trace + [Smoothed(i)]
    ensures WellBehaved(c) && Coshaped(st) ==> Coshaped(r)
  {
    st.(u := c.smooth(st.u), v := c.smooth(st.v), trace := st.trace + [Smoothed(i)])
  }

  /** The pass loop `for i in range(i, num_iterations)`, smoothing after
      every pass but the last. */
  function Loop(c: Collaborators, s: Settings, be: Backend, fa: Mat<int>, fb: Mat<int>, i: nat, st: State, un: Unpadding): (r: Result<State>)
    requires i >= 1
    ensures r.Ok? && (s.s2nValidate ==> st.s2nMethod == s.s2nMethod) ==>
              forall e :: e in r.value.trace <==> e in st.trace || (e.pass >= i && Scheduled(s, e))
    ensures WellBehaved(c) && r.Ok? && Coshaped(st) && PassGrid(c, s, fa, i - 1, st.grid) && (i <= s.numIterations || i == 1) &&
            (be.Cpu? || un.Intended?) ==>
              Coshaped(r.value) && PassGrid(c, s, fa, LastPass(s), r.value.grid)
    ensures WellBehaved(c) && r.Err? ==> PassError(r.error) || (un.AsWritten? && r.error.BroadcastMismatch?)
    ensures r.Ok? && be.Gpu? && i < s.numIterations ==> !Any(r.value.u.mask) && !Any(r.value.v.mask)
    decreases if i < s.numIterations then s.numIterations - i else 0
  {
    if i >= s.numIterations then Ok(st)
    else
      var st1 :- Step(c, s, be, fa, fb, i, st, un);
      Loop(c, s, be, fa, fb, i + 1, st1, un)
  }

  /** One turn of the loop: pass `i < n`, then the smoothing after it. */
  function Step(c: Collaborators, s: Settings, be: Backend, fa: Mat<int>, fb: Mat<int>, i: nat, st: State, un: Unpadding): (r: Result<State>)
    requires 1 <= i < s.numIterations
    ensures r.Ok? ==> r.value.s2nMethod == S2NAfter(s, st.s2nMethod)
    ensures r.Ok? && (s.s2nValidate ==> st.s2nMethod == s.s2nMethod) ==>
              forall e :: e in r.value.trace <==> e in st.trace || (e.pass == i && Scheduled(s, e))
    ensures WellBehaved(c) && r.Ok? && (be.Cpu? || un.Intended?) ==> Coshaped(r.value) && PassGrid(c, s, fa, i, r.value.grid)
    ensures WellBehaved(c) && r.Err? ==> PassError(r.error) || (un.AsWritten? && r.error == BroadcastMismatch(i))
    ensures r.Ok? && be.Gpu? && i + 1 == s.numIterations ==> !Any(r.value.u.mask) && !Any(r.value.v.mask)
  {
    var st1 :- Pass(c, s, be, fa, fb, i, st, un);
    PassTrace(c, s, be, fa, fb, i, st, un);
    Ok(SmoothenIf(c, s, st1, i))
  }

  /** The smoothing between passes: after pass `i` unless it is the last. */
  function SmoothenIf(c: Collaborators, s: Settings, st: State, i: nat): State {
    if s.smoothn && i + 1 != s.numIterations then Smoothen(c, st, i) else st
  }

  /** `-m[::-1]` of a masked array: rows reversed and values negated, the
      mask reversed with them. */
  function FlipNeg(m: Masked): (r: Masked)
    ensures r.data == Neg(FlipRows(m.data)) && r.mask == FlipRows(m.mask)
  {
    MaskedArray(Neg(FlipRows(m.data)), FlipRows(m.mask))
  }

  /** The saved form `-f[::-1]` of a field after `f.filled(0.)` and
      `np.ma.masked_array(f, mask)`: a masked vector is saved as 0, every
      other one negated, rows reversed; reversing and negating again gives
      back the filled field. */
  function Saved(f: Masked, mask: Mat<bool>): (r: Masked)
    requires Shape(mask) == Shape(f.data)
    ensures Shape(r.data) == Shape(f.data)
    ensures forall i, j | InBounds(f.data, i, j) ::
      var k := f.data.height - 1 - i;
      At(r.data, i, j) == (if At(f.mask, k, j) then 0.0 else -At(f.data, k, j)) && At(r.mask, i, j) == At(mask, k, j)
    ensures Neg(FlipRows(r.data)) == Filled(f, 0.0)
  {
    var filled := Filled(f, 0.0);
    var r := FlipNeg(MaskedArray(filled, mask));
    SavedCells(f, mask, filled, r);
    FlipNegRoundTrip(filled);
    r
  }

  lemma {:induction false} SavedCells(f: Masked, mask: Mat<bool>, filled: Mat<real>, r: Masked)
    requires Shape(mask) == Shape(f.data) && filled == Filled(f, 0.0) && r == FlipNeg(MaskedArray(filled, mask))
    ensures r.data == Neg(FlipRows(filled))
    ensures forall i, j | InBounds(f.data, i, j) ::
      var k := f.data.height - 1 - i;
      At(r.data, i, j) == (if At(f.mask, k, j) then 0.0 else -At(f.data, k, j)) && At(r.mask, i, j) == At(mask, k, j)
  {
    forall i, j | InBounds(f.data, i, j)
      ensures var k := f.data.height - 1 - i;
              At(r.data, i, j) == (if At(f.mask, k, j) then 0.0 else -At(f.data, k, j)) && At(r.mask, i, j) == At(mask, k, j)
    {
      var k := f.data.height - 1 - i;
      assert At(r.data, i, j) == -At(FlipRows(filled), i, j) == -At(filled, k, j);
      assert At(r.mask, i, j) == At(mask, k, j);
    }
  }

  /** The CPU driver after its loop: masked vectors become 0; the image
      mask, when there is one, is sampled on the final grid again and masks
      the saved field. */
  function FinalizeCpu(c: Collaborators, st: State, imageMask: Option<Mat<bool>>): (r: Result<Export>)
    ensures r.Err? ==> r.error == MaskShapeMismatch && imageMask.Some?
    ensures WellBehaved(c) && Coshaped(st) ==> r.Ok?
    ensures r.Ok? ==> r.value.x == MeshX(st.grid) && r.value.y == MeshY(st.grid) && r.value.flags == st.flags
    ensures r.Ok? && imageMask.Some? ==> Shape(r.value.gridMask) == Shape(st.u.data) == Shape(st.v.data)
    ensures r.Ok? ==> r.value.u == Saved(st.u, if imageMask.Some? then r.value.gridMask else Zeros(st.u.data.height, st.u.data.width))
    ensures r.Ok? ==> r.value.v == Saved(st.v, if imageMask.Some? then r.value.gridMask else Zeros(st.v.data.height, st.v.data.width))
    ensures r.Ok? && imageMask.None? ==> r.value.gridMask == st.gridMask
    ensures r.Ok? && imageMask.Some? ==> r.value.gridMask == c.maskOnGrid(imageMask.value, st.grid)
  {
    match imageMask
    case None =>
      Ok(Export(MeshX(st.grid), MeshY(st.grid), Saved(st.u, Zeros(st.u.data.height, st.u.data.width)),
                Saved(st.v, Zeros(st.v.data.height, st.v.data.width)), st.flags, st.gridMask))
    case Some(mask) =>
      var gm := c.maskOnGrid(mask, st.grid);
      if Shape(gm) != Shape(st.u.data) || Shape(gm) != Shape(st.v.data) then Err(MaskShapeMismatch)
      else Ok(Export(MeshX(st.grid), MeshY(st.grid), Saved(st.u, gm), Saved(st.v, gm), st.flags, gm))
  }

  /** The GPU driver after its loop: no fill, an all-false grid mask, and
      `-u[::-1]` of the field as it is, its mask reversed with it. */
  function FinalizeGpu(st: State): (r: Export)
    ensures r.x == MeshX(st.grid) && r.y == MeshY(st.grid) && r.flags == st.flags
    ensures !Any(r.gridMask) && Shape(r.gridMask) == Shape(st.u.data)
    ensures r.u.mask == FlipRows(st.u.mask) && r.v.mask == FlipRows(st.v.mask)
    ensures (Any(r.u.mask) <==> Any(st.u.mask)) && (Any(r.v.mask) <==> Any(st.v.mask))
    ensures Neg(FlipRows(r.u.data)) == st.u.data && Neg(FlipRows(r.v.data)) == st.v.data
  {
    FlipNegRoundTrip(st.u.data);
    FlipNegRoundTrip(st.v.data);
    FlipRowsAny(st.u.mask);
    FlipRowsAny(st.v.mask);
    Export(MeshX(st.grid), MeshY(st.grid), FlipNeg(st.u), FlipNeg(st.v), st.flags,
           Zeros(st.u.data.height, st.u.data.width))
  }

  /** One image pair from the two frames as read: the corrected driver,
      which saves after a single pass too. */
  function Run(c: Collaborators, s: Settings, be: Backend, a: Mat<int>, b: Mat<int>): (r: Result<Report>)
  {
    var prep :- if be.Cpu? then Reconcile.PrepareImages(a, b, s.roi, s.staticMask)
                else Reconcile.PrepareImagesGpu(a, b, s.roi);
    var st0 :- FirstPass(c, s, be, prep.frameA, prep.frameB, prep.imageMask);
    var st :- Loop(c, s, be, prep.frameA, prep.frameB, 1, st0, Intended);
    var out :- if be.Cpu? then FinalizeCpu(c, st, prep.imageMask) else Ok(FinalizeGpu(st));
    Ok(Report(out, st.trace))
  }

  /** The drivers as written: on the GPU the refining passes remove the
      padding with the slice as written (the CPU passes pad nothing, so
      their loop is the corrected one), and on the CPU the progress message
      after the loop reads the loop variable, which a loop over
      `range(1, n)` with `n <= 1` never binds. */
  function RunAsWritten(c: Collaborators, s: Settings, be: Backend, a: Mat<int>, b: Mat<int>): (r: Result<Report>)
  {
    var prep :- if be.Cpu? then Reconcile.PrepareImages(a, b, s.roi, s.staticMask)
                else Reconcile.PrepareImagesGpu(a, b, s.roi);
    var st0 :- FirstPass(c, s, be, prep.frameA, prep.frameB, prep.imageMask);
    var st :- Loop(c, s, be, prep.frameA, prep.frameB, 1, st0, if be.Gpu? then AsWritten else Intended);
    if be.Cpu? && s.numIterations <= 1 then Err(PassIndexUnbound)
    else
      var out :- if be.Cpu? then FinalizeCpu(c, st, prep.imageMask) else Ok(FinalizeGpu(st));
      Ok(Report(out, st.trace))
  }

  /** A run records exactly the events of the reference schedule. */
  lemma {:induction false} RunTrace(c: Collaborators, s: Settings, be: Backend, a: Mat<int>, b: Mat<int>)
    requires Run(c, s, be, a, b).Ok?
    ensures forall e :: e in Run(c, s, be, a, b).value.trace <==> Scheduled(s, e)
  {
    var prep := (if be.Cpu? then Reconcile.PrepareImages(a, b, s.roi, s.staticMask)
                 else Reconcile.PrepareImagesGpu(a, b, s.roi)).value;
    var st0 := FirstPass(c, s, be, prep.frameA, prep.frameB, prep.imageMask).value;
    assert Loop(c, s, be, prep.frameA, prep.frameB, 1, st0, Intended).Ok?;
  }

  /** With well-behaved collaborators a run saves the grid of the last
      pass, built on the frame cropped to the region of interest, and a
      field, flags and grid mask of that grid's shape. */
  lemma {:induction false} RunShapes(c: Collaborators, s: Settings, be: Backend, a: Mat<int>, b: Mat<int>)
    requires WellBehaved(c) && Run(c, s, be, a, b).Ok?
    ensures var fa := Reconcile.CropRoi(a, s.roi);
            var k := LastPass(s);
            && k < |s.windowSizes| && k < |s.overlaps|
            && c.rectGrid(fa.height, fa.width, s.windowSizes[k], s.overlaps[k]).Some?
            && var g := c.rectGrid(fa.height, fa.width, s.windowSizes[k], s.overlaps[k]).value;
               var out := Run(c, s, be, a, b).value.saved;
               && out.x == MeshX(g) && out.y == MeshY(g)
               && Shape(out.u.data) == GridShape(g) && Shape(out.v.data) == GridShape(g)
               && Shape(out.flags) == GridShape(g) && Shape(out.gridMask) == GridShape(g)
  {
    var prep := (if be.Cpu? then Reconcile.PrepareImages(a, b, s.roi, s.staticMask)
                 else Reconcile.PrepareImagesGpu(a, b, s.roi)).value;
    var st0 := FirstPass(c, s, be, prep.frameA, prep.frameB, prep.imageMask).value;
    var st := Loop(c, s, be, prep.frameA, prep.frameB, 1, st0, Intended).value;
    assert Coshaped(st) && PassGrid(c, s, prep.frameA, LastPass(s), st.grid);
  }

  /** With well-behaved collaborators a run fails only as a pass can fail,
      or, on the CPU, because the static mask does not have the shape of
      the cropped frame. */
  lemma {:induction false} RunErrors(c: Collaborators, s: Settings, be: Backend, a: Mat<int>, b: Mat<int>)
    requires WellBehaved(c) && Run(c, s, be, a, b).Err?
    ensures var e := Run(c, s, be, a, b).error;
            || PassError(e)
            || (&& e == MaskShapeMismatch && be.Cpu? && s.staticMask.Some?
                && Shape(s.staticMask.value) != Shape(Reconcile.CropRoi(a, s.roi)))
  {
    var p := if be.Cpu? then Reconcile.PrepareImages(a, b, s.roi, s.staticMask) else Reconcile.PrepareImagesGpu(a, b, s.roi);
    if p.Ok? {
      var prep := p.value;
      var f := FirstPass(c, s, be, prep.frameA, prep.frameB, prep.imageMask);
      if f.Ok? {
        var l := Loop(c, s, be, prep.frameA, prep.frameB, 1, f.value, Intended);
      }
    }
  }

  /** A failing pass ends the loop with its error. */
  lemma {:induction false} LoopStops(c: Collaborators, s: Settings, be: Backend, fa: Mat<int>, fb: Mat<int>, i: nat, st: State,
                                     un: Unpadding)
    requires 1 <= i < s.numIterations && Pass(c, s, be, fa, fb, i, st, un).Err?
    ensures Loop(c, s, be, fa, fb, i, st, un) == Err(Pass(c, s, be, fa, fb, i, st, un).error)
  {
  }

  /** One turn of the loop: a completed pass, then the rest of the loop on
      the (possibly smoothed) result. */
  lemma {:induction false} LoopStep(c: Collaborators, s: Settings, be: Backend, fa: Mat<int>, fb: Mat<int>, i: nat, st: State,
                                    un: Unpadding, p: State)
    requires 1 <= i < s.numIterations && Pass(c, s, be, fa, fb, i, st, un) == Ok(p)
    ensures Loop(c, s, be, fa, fb, i, st, un) == Loop(c, s, be, fa, fb, i + 1, SmoothenIf(c, s, p, i), un)
  {
  }

  /** The CPU driver as written agrees with the corrected one whenever
      there is more than one pass. */
  lemma {:induction false} AsWrittenAgrees(c: Collaborators, s: Settings, a: Mat<int>, b: Mat<int>)
    requires s.numIterations >= 2
    ensures RunAsWritten(c, s, Cpu, a, b) == Run(c, s, Cpu, a, b)
  {
  }

  /** The two-pass GPU driver as written agrees with the corrected one
      when the last centres of the second grid lie before the last pixel
      row and column of the cropped frame A. */
  lemma {:induction false} GpuAsWrittenAgrees(c: Collaborators, s: Settings, a: Mat<int>, b: Mat<int>)
    requires SplineWellBehaved(c) && s.numIterations == 2
    requires SliceExact(c, s, Reconcile.CropRoi(a, s.roi), 1)
    ensures RunAsWritten(c, s, Gpu, a, b) == Run(c, s, Gpu, a, b)
  {
    var p := Reconcile.PrepareImagesGpu(a, b, s.roi);
    if p.Ok? {
      var f := FirstPass(c, s, Gpu, p.value.frameA, p.value.frameB, p.value.imageMask);
      if f.Ok? {
        var fa, fb, st0 := p.value.frameA, p.value.frameB, f.value;
        GpuPassAgrees(c, s, fa, fb, 1, st0);
        var q := Pass(c, s, Gpu, fa, fb, 1, st0, Intended);
        if q.Ok? {
          LoopStep(c, s, Gpu, fa, fb, 1, st0, AsWritten, q.value);
          LoopStep(c, s, Gpu, fa, fb, 1, st0, Intended, q.value);
        } else {
          LoopStops(c, s, Gpu, fa, fb, 1, st0, AsWritten);
          LoopStops(c, s, Gpu, fa, fb, 1, st0, Intended);
        }
      }
    }
  }

  /** A two-pass GPU run that the corrected driver completes, and whose
      second grid has a last centre on the last pixel row or column, raises
      in the driver as written at `u += u_pre[...]`. */
  lemma {:induction false} GpuAsWrittenFails(c: Collaborators, s: Settings, a: Mat<int>, b: Mat<int>)
    requires WellBehaved(c) && s.numIterations == 2 && Run(c, s, Gpu, a, b).Ok?
    requires var p := PassPadding(c, s, Reconcile.CropRoi(a, s.roi), 1);
             p.Some? && (p.value.0.1 == 0 || p.value.1.1 == 0)
    ensures RunAsWritten(c, s, Gpu, a, b) == Err(BroadcastMismatch(1))
  {
    var prep := Reconcile.PrepareImagesGpu(a, b, s.roi).value;
    var st0 := FirstPass(c, s, Gpu, prep.frameA, prep.frameB, prep.imageMask).value;
    assert Loop(c, s, Gpu, prep.frameA, prep.frameB, 1, st0, Intended).Ok?;
    GpuPassAsWrittenFails(c, s, prep.frameA, prep.frameB, 1, st0);
  }

  /** Every single-pass CPU run that the corrected driver completes raises
      in the driver as written, before anything is saved. */
  lemma {:induction false} SinglePassAsWrittenFails(c: Collaborators, s: Settings, a: Mat<int>, b: Mat<int>)
    requires s.numIterations <= 1 && Run(c, s, Cpu, a, b).Ok?
    ensures RunAsWritten(c, s, Cpu, a, b) == Err(PassIndexUnbound)
  {
  }

  /** In the corrected driver a single-pass run with well-behaved
      collaborators saves exactly when the frames are prepared and the
      first pass succeeds; its events are those of the first pass. */
  lemma {:induction false} SinglePassSaves(c: Collaborators, s: Settings, be: Backend, a: Mat<int>, b: Mat<int>)
    requires WellBehaved(c) && s.numIterations <= 1
    ensures var p := if be.Cpu? then Reconcile.PrepareImages(a, b, s.roi, s.staticMask) else Reconcile.PrepareImagesGpu(a, b, s.roi);
            Run(c, s, be, a, b).Ok? <==> p.Ok? && FirstPass(c, s, be, p.value.frameA, p.value.frameB, p.value.imageMask).Ok?
    ensures Run(c, s, be, a, b).Ok? ==> forall e | e in Run(c, s, be, a, b).value.trace :: e.pass == 0
  {
    var p := if be.Cpu? then Reconcile.PrepareImages(a, b, s.roi, s.staticMask) else Reconcile.PrepareImagesGpu(a, b, s.roi);
    if p.Ok? {
      var f := FirstPass(c, s, be, p.value.frameA, p.value.frameB, p.value.imageMask);
      if f.Ok? {
        assert Loop(c, s, be, p.value.frameA, p.value.frameB, 1, f.value, Intended) == Ok(f.value);
      }
    }
    if Run(c, s, be, a, b).Ok? {
      RunTrace(c, s, be, a, b);
    }
  }

  /** The GPU driver saves an all-false grid mask, and after a refining
      pass unmasked fields: the last pass returns the plain sum of
      correlation output and predictor. */
  lemma {:induction false} GpuSavesNoMask(c: Collaborators, s: Settings, a: Mat<int>, b: Mat<int>)
    requires Run(c, s, Gpu, a, b).Ok?
    ensures !Any(Run(c, s, Gpu, a, b).value.saved.gridMask)
    ensures s.numIterations >= 2 ==> var out := Run(c, s, Gpu, a, b).value.saved;
                                      !Any(out.u.mask) && !Any(out.v.mask)
  {
  }
}
