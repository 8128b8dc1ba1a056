/** Frame deformation of the CPU pass (`deform_windows` with
    `create_deformation_field`): the window-level displacement guess is
    resampled onto every pixel, and output pixel `(r, c)` samples the frame
    at `(r - vt[r, c], c + ut[r, c])`, clamping to the edge. */
module Warp {
  import opened Outcome
  import opened Mats
  import opened Sampling
  import opened Collab

  /** `map_coordinates(frame, (y - vt, x + ut), order=order, mode='nearest')`
      on the pixel mesh of the frame. */
  function WarpFrame(interp: Interp, f: Mat<real>, ut: Mat<real>, vt: Mat<real>, order: nat): (out: Mat<real>)
    requires Shape(ut) == Shape(f) && Shape(vt) == Shape(f)
    ensures Shape(out) == Shape(f)
    ensures forall r, c | InBounds(f, r, c) ::
      At(out, r, c) == Sample(interp, f, (r as real) - At(vt, r, c), (c as real) + At(ut, r, c), order, Nearest, true)
  {
    Array2(f.height, f.width,
      seq(f.height, r requires 0 <= r < f.height =>
        seq(f.width, c requires 0 <= c < f.width =>
          Sample(interp, f, (r as real) - vt.cells[r][c], (c as real) + ut.cells[r][c], order, Nearest, true))))
  }

  /** Reference deformation with integer displacements: pixel `(r, c)`
      reads the frame at `(r - dv, c + du)` clamped into the frame. */
  function DeformNearest(f: Mat<int>, du: Mat<int>, dv: Mat<int>): (out: Mat<int>)
    requires Shape(du) == Shape(f) && Shape(dv) == Shape(f)
    ensures Shape(out) == Shape(f)
    ensures forall r, c | InBounds(f, r, c) ::
      At(out, r, c) == At(f, Clamp(r - At(dv, r, c), f.height), Clamp(c + At(du, r, c), f.width))
  {
    Array2(f.height, f.width,
      seq(f.height, r requires 0 <= r < f.height =>
        seq(f.width, c requires 0 <= c < f.width =>
          f.cells[Clamp(r - dv.cells[r][c], f.height)][Clamp(c + du.cells[r][c], f.width)])))
  }

  /** Every output pixel of the reference deformation is a frame pixel whose
      indices are the displaced ones clamped into the frame; where the
      displaced position is inside the frame it is read unchanged. */
  lemma {:induction false} DeformNearestClamps(f: Mat<int>, du: Mat<int>, dv: Mat<int>, r: nat, c: nat)
    requires Shape(du) == Shape(f) && Shape(dv) == Shape(f) && InBounds(f, r, c)
    ensures var sr := r - At(dv, r, c);
            var sc := c + At(du, r, c);
            && At(DeformNearest(f, du, dv), r, c) == At(f, Clamp(sr, f.height), Clamp(sc, f.width))
            && (InBounds(f, sr, sc) ==> At(DeformNearest(f, du, dv), r, c) == At(f, sr, sc))
  {
  }

  /** With order-0 sampling and integral displacement fields, the warp is
      the reference deformation. */
  lemma {:induction false} WarpIsDeformNearest(interp: Interp, f: Mat<int>, du: Mat<int>, dv: Mat<int>)
    requires Shape(du) == Shape(f) && Shape(dv) == Shape(f)
    ensures WarpFrame(interp, ToReal(f), ToReal(du), ToReal(dv), 0) == ToReal(DeformNearest(f, du, dv))
  {
    var a := WarpFrame(interp, ToReal(f), ToReal(du), ToReal(dv), 0);
    var b := ToReal(DeformNearest(f, du, dv));
    forall r, c | InBounds(a, r, c)
      ensures At(a, r, c) == At(b, r, c)
    {
      WarpCell(interp, f, du, dv, r, c);
    }
    Ext(a, b);
  }

  /** An order-0 warp whose displaced position `(y, x)` of pixel `(r, c)`
      is integral reads the frame at that position clamped into it. */
  lemma {:induction false} WarpAtIntegral(interp: Interp, f: Mat<real>, ut: Mat<real>, vt: Mat<real>, r: nat, c: nat, y: int, x: int)
    requires Shape(ut) == Shape(f) && Shape(vt) == Shape(f) && InBounds(f, r, c)
    requires (r as real) - At(vt, r, c) == y as real && (c as real) + At(ut, r, c) == x as real
    ensures At(WarpFrame(interp, f, ut, vt, 0), r, c) == At(f, Clamp(y, f.height), Clamp(x, f.width))
  {
    RoundIntegral(y);
    RoundIntegral(x);
  }

  /** One pixel of `WarpIsDeformNearest`. */
  lemma {:induction false} WarpCell(interp: Interp, f: Mat<int>, du: Mat<int>, dv: Mat<int>, r: nat, c: nat)
    requires Shape(du) == Shape(f) && Shape(dv) == Shape(f) && InBounds(f, r, c)
    ensures At(WarpFrame(interp, ToReal(f), ToReal(du), ToReal(dv), 0), r, c) == At(ToReal(DeformNearest(f, du, dv)), r, c)
  {
    var d := DeformNearest(f, du, dv);
    var x := At(f, Clamp(r - At(dv, r, c), f.height), Clamp(c + At(du, r, c), f.width));
    assert At(d, r, c) == x;
    assert At(ToReal(d), r, c) == x as real;
    WarpIntegerField(interp, f, du, dv, r, c);
  }

  /** `WarpAtIntegral` for integer frames and displacements. */
  lemma {:induction false} WarpIntegerField(interp: Interp, f: Mat<int>, du: Mat<int>, dv: Mat<int>, r: nat, c: nat)
    requires Shape(du) == Shape(f) && Shape(dv) == Shape(f) && InBounds(f, r, c)
    ensures At(WarpFrame(interp, ToReal(f), ToReal(du), ToReal(dv), 0), r, c) ==
            At(f, Clamp(r - At(dv, r, c), f.height), Clamp(c + At(du, r, c), f.width)) as real
  {
    WarpAtIntegral(interp, ToReal(f), ToReal(du), ToReal(dv), r, c, r - At(dv, r, c), c + At(du, r, c));
  }

  /** A zero displacement field leaves the frame unchanged. */
  lemma {:induction false} DeformNearestZero(f: Mat<int>)
    ensures DeformNearest(f, Const(f.height, f.width, 0), Const(f.height, f.width, 0)) == f
  {
    var z := Const(f.height, f.width, 0);
    var d := DeformNearest(f, z, z);
    forall r, c | InBounds(d, r, c)
      ensures At(d, r, c) == At(f, r, c)
    {
      DeformNearestClamps(f, z, z, r, c);
    }
    Ext(d, f);
  }

  /** An order-0 warp by a zero displacement field gives back the frame. */
  lemma {:induction false} WarpZero(interp: Interp, f: Mat<int>)
    ensures var z := Const(f.height, f.width, 0);
            WarpFrame(interp, ToReal(f), ToReal(z), ToReal(z), 0) == ToReal(f)
  {
    var z := Const(f.height, f.width, 0);
    WarpIsDeformNearest(interp, f, z, z);
    DeformNearestZero(f);
  }

  /** `deform_windows` of the CPU driver: resample the displacement guess
      `(u, v)`, given on `grid`, onto every pixel with a spline of order
      `order2`, then warp the frame with sampling order `order`. */
  function DeformWindows(c: Collaborators, f: Mat<int>, grid: Grid, u: Mat<real>, v: Mat<real>,
                         order: nat, order2: nat, pass: nat): (r: Result<Mat<real>>)
    ensures r.Ok? ==> Shape(r.value) == Shape(f)
    ensures r.Err? ==> r.error in {SplineFailure(pass), BroadcastMismatch(pass)}
    ensures r.Ok? <==> (&& c.spline(grid.ys, grid.xs, u, order2, Range(f.height), Range(f.width)).Some?
                        && c.spline(grid.ys, grid.xs, v, order2, Range(f.height), Range(f.width)).Some?
                        && Shape(c.spline(grid.ys, grid.xs, u, order2, Range(f.height), Range(f.width)).value) == Shape(f)
                        && Shape(c.spline(grid.ys, grid.xs, v, order2, Range(f.height), Range(f.width)).value) == Shape(f))
    ensures r.Ok? ==> r.value == WarpFrame(c.interp, ToReal(f),
                                           c.spline(grid.ys, grid.xs, u, order2, Range(f.height), Range(f.width)).value,
                                           c.spline(grid.ys, grid.xs, v, order2, Range(f.height), Range(f.width)).value, order)
  {
    match (c.spline(grid.ys, grid.xs, u, order2, Range(f.height), Range(f.width)),
           c.spline(grid.ys, grid.xs, v, order2, Range(f.height), Range(f.width)))
    case (None, _) => Err(SplineFailure(pass))
    case (_, None) => Err(SplineFailure(pass))
    case (Some(ut), Some(vt)) =>
      if Shape(ut) != Shape(f) || Shape(vt) != Shape(f) then Err(BroadcastMismatch(pass))
      else Ok(WarpFrame(c.interp, ToReal(f), ut, vt, order))
  }

  /** With well-behaved collaborators only a failing spline fit stops the
      deformation. */
  lemma {:induction false} DeformWindowsFailsOnlyInSpline(c: Collaborators, f: Mat<int>, grid: Grid, u: Mat<real>, v: Mat<real>,
                                                          order: nat, order2: nat, pass: nat)
    requires WellBehaved(c)
    ensures var r := DeformWindows(c, f, grid, u, v, order, order2, pass);
            r.Err? <==> r == Err(SplineFailure(pass))
    ensures var r := DeformWindows(c, f, grid, u, v, order, order2, pass);
            r.Err? <==> (|| c.spline(grid.ys, grid.xs, u, order2, Range(f.height), Range(f.width)).None?
                         || c.spline(grid.ys, grid.xs, v, order2, Range(f.height), Range(f.width)).None?)
  {
  }
}
