/** Frame-shape reconciliation of `prepare_images` (CPU and GPU copies):
    frame B is centre-cropped and then centre-padded with zeros until it has
    frame A's shape; both frames are then cut to the region of interest and,
    on the CPU path, zeroed under the static mask. */
module Reconcile {
  import opened Outcome
  import opened Mats

  /** Offset of the centred crop of a longer axis: `(nb - na) // 2`. The kept
      range `[offset, offset + na)` always lies inside `[0, nb)`. */
  function CropOffset(na: nat, nb: nat): (offset: nat)
    requires na < nb
    ensures offset + na <= nb
    ensures offset <= (nb - na) - offset <= offset + 1
  {
    (nb - na) / 2
  }

  /** Width crop: `frame_b[:, offset : offset + wa]` when B is wider. */
  function CropWidth(wa: nat, b: Mat<int>): (r: Mat<int>)
    ensures b.width > wa ==> Shape(r) == (b.height, wa)
    ensures b.width > wa ==> forall i, j | InBounds(r, i, j) ::
      At(r, i, j) == At(b, i, j + CropOffset(wa, b.width))
    ensures b.width <= wa ==> r == b
  {
    if b.width > wa then
      var offset := CropOffset(wa, b.width);
      Block(b, 0, b.height, offset, offset + wa)
    else b
  }

  /** Height crop: `frame_b[offset : offset + ha, :]` when B is taller. */
  function CropHeight(ha: nat, b: Mat<int>): (r: Mat<int>)
    ensures b.height > ha ==> Shape(r) == (ha, b.width)
    ensures b.height > ha ==> forall i, j | InBounds(r, i, j) ::
      At(r, i, j) == At(b, i + CropOffset(ha, b.height), j)
    ensures b.height <= ha ==> r == b
  {
    if b.height > ha then
      var offset := CropOffset(ha, b.height);
      Block(b, offset, offset + ha, 0, b.width)
    else b
  }

  /** Pad widths `(a, aa)` of one axis: `a = -(nb - na) // 2` (Python's unary
      minus binds before `//`) and `aa = -a + na - nb`. Both are
      non-negative, they add up to the missing length, and the trailing one
      is never smaller than the leading one. */
  function PadAmounts(na: nat, nb: nat): (p: (nat, nat))
    requires nb <= na
    ensures p.0 + p.1 == na - nb
    ensures p.0 <= p.1 <= p.0 + 1
  {
    var a := (-(nb - na)) / 2;
    var aa := -a + na - nb;
    (a, aa)
  }

  /** `np.pad(m, ((top, bottom), (left, right)), mode='constant')`. */
  function Pad(m: Mat<int>, top: nat, bottom: nat, left: nat, right: nat): (n: Mat<int>)
    ensures Shape(n) == (top + m.height + bottom, left + m.width + right)
    ensures forall i, j | InBounds(n, i, j) ::
      At(n, i, j) == if top <= i < top + m.height && left <= j < left + m.width
                     then At(m, i - top, j - left) else 0
  {
    var h := top + m.height + bottom;
    var w := left + m.width + right;
    Array2(h, w,
      seq(h, i requires 0 <= i < h =>
        seq(w, j requires 0 <= j < w =>
          if top <= i < top + m.height && left <= j < left + m.width
          then m.cells[i - top][j - left] else 0)))
  }

  /** Leading pad width of one axis of length `nb <= na`. */
  function PadLead(na: nat, nb: nat): nat
    requires nb <= na
  {
    PadAmounts(na, nb).0
  }

  /** The pad step, taken when B is shorter or narrower than A: B's pixels
      land at rows `[a, a + hb)` and columns `[b, b + wb)`, zeros elsewhere.
      An axis that already has A's length gets zero padding. */
  function PadTo(ha: nat, wa: nat, b: Mat<int>): (r: Mat<int>)
    requires b.height <= ha && b.width <= wa
    ensures Shape(r) == (ha, wa)
    ensures forall i, j | InBounds(r, i, j) ::
      var lr := PadLead(ha, b.height);
      var lc := PadLead(wa, b.width);
      At(r, i, j) == if lr <= i < lr + b.height && lc <= j < lc + b.width
                     then At(b, i - lr, j - lc) else 0
  {
    if b.height < ha || b.width < wa then
      var p := PadAmounts(ha, b.height);
      var q := PadAmounts(wa, b.width);
      Pad(b, p.0, p.1, q.0, q.1)
    else b
  }

  /** The three reconciliation steps in the order of the source. */
  function Reconcile(ha: nat, wa: nat, b: Mat<int>): (r: Mat<int>)
    ensures Shape(r) == (ha, wa)
  {
    PadTo(ha, wa, CropHeight(ha, CropWidth(wa, b)))
  }

  /** Where an index of the longer-or-equal target axis reads on B's axis:
      a crop shifts forward by the crop offset, a pad shifts back by the
      leading pad width. */
  function Shift(na: nat, nb: nat): int {
    if nb > na then (nb - na) / 2 else -((na - nb) / 2)
  }

  /** Independent description of the reconciled frame: B re-centred on an
      `ha x wa` canvas, zero where the canvas reaches past B. */
  function Centered(b: Mat<int>, ha: nat, wa: nat): (r: Mat<int>)
    ensures Shape(r) == (ha, wa)
    ensures forall i, j | InBounds(r, i, j) :: At(r, i, j) == CenteredCell(b, ha, wa, i, j)
  {
    var dr := Shift(ha, b.height);
    var dc := Shift(wa, b.width);
    Array2(ha, wa,
      seq(ha, i requires 0 <= i < ha =>
        seq(wa, j requires 0 <= j < wa =>
          if 0 <= i + dr < b.height && 0 <= j + dc < b.width
          then b.cells[i + dr][j + dc] else 0)))
  }

  function CenteredCell(b: Mat<int>, ha: nat, wa: nat, i: int, j: int): int {
    var si := i + Shift(ha, b.height);
    var sj := j + Shift(wa, b.width);
    if 0 <= si < b.height && 0 <= sj < b.width then At(b, si, sj) else 0
  }

  /** The crop-crop-pad sequence of the source centres B on A's canvas. */
  lemma {:induction false} ReconcileIsCentered(ha: nat, wa: nat, b: Mat<int>)
    ensures Reconcile(ha, wa, b) == Centered(b, ha, wa)
  {
    var b1 := CropWidth(wa, b);
    var b2 := CropHeight(ha, b1);
    var r := Reconcile(ha, wa, b);
    var z := Centered(b, ha, wa);
    forall i, j | InBounds(r, i, j)
      ensures At(r, i, j) == At(z, i, j)
    {
      CellOfReconcile(ha, wa, b, i, j);
    }
    Ext(r, z);
  }

  /** Leading crop of one axis (0 when the axis is not longer than A's). */
  function CropLead(na: nat, nb: nat): nat {
    if nb > na then CropOffset(na, nb) else 0
  }

  /** After both crops, B has the shorter of the two lengths on each axis and
      reads B at the crop offsets. */
  lemma {:induction false} CropsCell(ha: nat, wa: nat, b: Mat<int>, p: nat, q: nat)
    requires p < Min(ha, b.height) && q < Min(wa, b.width)
    ensures Shape(CropHeight(ha, CropWidth(wa, b))) == (Min(ha, b.height), Min(wa, b.width))
    ensures At(CropHeight(ha, CropWidth(wa, b)), p, q) ==
            At(b, p + CropLead(ha, b.height), q + CropLead(wa, b.width))
  {
    var b1 := CropWidth(wa, b);
    assert Shape(b1) == (b.height, Min(wa, b.width));
    assert At(b1, p + CropLead(ha, b.height), q) == At(b, p + CropLead(ha, b.height), q + CropLead(wa, b.width));
  }

  lemma {:induction false} PadToCell(ha: nat, wa: nat, b: Mat<int>, i: nat, j: nat)
    requires b.height <= ha && b.width <= wa
    requires i < ha && j < wa
    ensures var lr := PadLead(ha, b.height);
            var lc := PadLead(wa, b.width);
            At(PadTo(ha, wa, b), i, j) == if lr <= i < lr + b.height && lc <= j < lc + b.width
                                          then At(b, i - lr, j - lc) else 0
  {
    assert InBounds(PadTo(ha, wa, b), i, j);
  }

  /** One axis of the reconciliation: after the crop the axis has length
      `Min(na, nb)`, the pad puts it at `PadLead`, and together they read B
      at `i + Shift(na, nb)`. */
  lemma {:induction false} AxisMap(na: nat, nb: nat, i: nat)
    requires i < na
    ensures PadLead(na, Min(na, nb)) <= i < PadLead(na, Min(na, nb)) + Min(na, nb)
            <==> 0 <= i + Shift(na, nb) < nb
    ensures i - PadLead(na, Min(na, nb)) + CropLead(na, nb) == i + Shift(na, nb)
  {
  }

  /** A canvas cell inside the padded-in region reads the cropped frame,
      which reads B at the shifted position. */
  lemma {:induction false} CropsCellCanvas(ha: nat, wa: nat, b: Mat<int>, i: nat, j: nat)
    requires i < ha && j < wa
    requires PadLead(ha, Min(ha, b.height)) <= i < PadLead(ha, Min(ha, b.height)) + Min(ha, b.height)
    requires PadLead(wa, Min(wa, b.width)) <= j < PadLead(wa, Min(wa, b.width)) + Min(wa, b.width)
    ensures InBounds(b, i + Shift(ha, b.height), j + Shift(wa, b.width))
    ensures At(CropHeight(ha, CropWidth(wa, b)), i - PadLead(ha, Min(ha, b.height)), j - PadLead(wa, Min(wa, b.width)))
         == At(b, i + Shift(ha, b.height), j + Shift(wa, b.width))
  {
    AxisMap(ha, b.height, i);
    AxisMap(wa, b.width, j);
    CropsCell(ha, wa, b, i - PadLead(ha, Min(ha, b.height)), j - PadLead(wa, Min(wa, b.width)));
  }

  lemma {:induction false} CropsShape(ha: nat, wa: nat, b: Mat<int>)
    ensures Shape(CropHeight(ha, CropWidth(wa, b))) == (Min(ha, b.height), Min(wa, b.width))
  {
    var b1 := CropWidth(wa, b);
    assert Shape(b1) == (b.height, Min(wa, b.width));
  }

  /** A canvas cell inside the pad region reads B at the shifted position. */
  lemma {:induction false} InsideCell(ha: nat, wa: nat, b: Mat<int>, i: nat, j: nat)
    requires i < ha && j < wa
    requires PadLead(ha, Min(ha, b.height)) <= i < PadLead(ha, Min(ha, b.height)) + Min(ha, b.height)
    requires PadLead(wa, Min(wa, b.width)) <= j < PadLead(wa, Min(wa, b.width)) + Min(wa, b.width)
    ensures At(PadTo(ha, wa, CropHeight(ha, CropWidth(wa, b))), i, j) == CenteredCell(b, ha, wa, i, j)
  {
    var b2 := CropHeight(ha, CropWidth(wa, b));
    CropsShape(ha, wa, b);
    CropsCellCanvas(ha, wa, b, i, j);
    PaddedCell(ha, wa, b, b2, i, j);
  }

  /** The pad step applied to any frame of the cropped shape whose cell at
      the canvas position matches B at the shifted position. */
  lemma {:induction false} PaddedCell(ha: nat, wa: nat, b: Mat<int>, b2: Mat<int>, i: nat, j: nat)
    requires i < ha && j < wa
    requires Shape(b2) == (Min(ha, b.height), Min(wa, b.width))
    requires PadLead(ha, b2.height) <= i < PadLead(ha, b2.height) + b2.height
    requires PadLead(wa, b2.width) <= j < PadLead(wa, b2.width) + b2.width
    requires InBounds(b, i + Shift(ha, b.height), j + Shift(wa, b.width))
    requires At(b2, i - PadLead(ha, b2.height), j - PadLead(wa, b2.width))
          == At(b, i + Shift(ha, b.height), j + Shift(wa, b.width))
    ensures At(PadTo(ha, wa, b2), i, j) == CenteredCell(b, ha, wa, i, j)
  {
    PadToCell(ha, wa, b2, i, j);
  }

  /** A canvas cell outside the pad region is zero, and so is the centred
      description there. */
  lemma {:induction false} OutsideCell(ha: nat, wa: nat, b: Mat<int>, i: nat, j: nat)
    requires i < ha && j < wa
    requires !(PadLead(ha, Min(ha, b.height)) <= i < PadLead(ha, Min(ha, b.height)) + Min(ha, b.height) &&
               PadLead(wa, Min(wa, b.width)) <= j < PadLead(wa, Min(wa, b.width)) + Min(wa, b.width))
    ensures At(Reconcile(ha, wa, b), i, j) == CenteredCell(b, ha, wa, i, j)
  {
    var b2 := CropHeight(ha, CropWidth(wa, b));
    CropsShape(ha, wa, b);
    PadToCell(ha, wa, b2, i, j);
    AxisMap(ha, b.height, i);
    AxisMap(wa, b.width, j);
    assert At(PadTo(ha, wa, b2), i, j) == 0;
  }

  lemma {:induction false} CellOfReconcile(ha: nat, wa: nat, b: Mat<int>, i: nat, j: nat)
    requires i < ha && j < wa
    ensures At(Reconcile(ha, wa, b), i, j) == CenteredCell(b, ha, wa, i, j)
  {
    if PadLead(ha, Min(ha, b.height)) <= i < PadLead(ha, Min(ha, b.height)) + Min(ha, b.height) &&
       PadLead(wa, Min(wa, b.width)) <= j < PadLead(wa, Min(wa, b.width)) + Min(wa, b.width) {
      InsideCell(ha, wa, b, i, j);
    } else {
      OutsideCell(ha, wa, b, i, j);
    }
  }

  /** Region of interest: `"full"` or `(row_start, row_end, col_start,
      col_end)` applied as Python slices. */
  datatype Roi = Full | Box(rowStart: int, rowEnd: int, colStart: int, colEnd: int)

  function CropRoi<T>(m: Mat<T>, roi: Roi): (r: Mat<T>)
    ensures roi.Full? ==> r == m
  {
    match roi
    case Full => m
    case Box(r0, r1, c0, c1) => Block(m, r0, r1, c0, c1)
  }

  lemma {:induction false} CropRoiShape<T, U>(m: Mat<T>, n: Mat<U>, roi: Roi)
    requires Shape(m) == Shape(n)
    ensures Shape(CropRoi(m, roi)) == Shape(CropRoi(n, roi))
  {
  }

  datatype Prepared = Prepared(frameA: Mat<int>, frameB: Mat<int>, imageMask: Option<Mat<bool>>)

  /** `prepare_images` of the CPU driver, after the two frames are read:
      reconcile B with A, check the shapes, crop both to the region of
      interest, zero both under the static mask. */
  function PrepareImages(a: Mat<int>, b: Mat<int>, roi: Roi, staticMask: Option<Mat<bool>>): (r: Result<Prepared>)
    ensures r != Err(DifferentSizes)
    ensures r.Err? <==> staticMask.Some? && Shape(staticMask.value) != Shape(CropRoi(a, roi))
    ensures r.Err? ==> r.error == MaskShapeMismatch
    ensures r.Ok? ==> r.value.imageMask == staticMask
    ensures r.Ok? ==> Shape(r.value.frameA) == Shape(r.value.frameB) == Shape(CropRoi(a, roi))
    ensures r.Ok? ==> forall i, j | InBounds(r.value.frameA, i, j) ::
      var masked := staticMask.Some? && At(staticMask.value, i, j);
      && At(r.value.frameA, i, j) == (if masked then 0 else At(CropRoi(a, roi), i, j))
      && At(r.value.frameB, i, j) == (if masked then 0 else At(CropRoi(Centered(b, a.height, a.width), roi), i, j))
  {
    var b1 := Reconcile(a.height, a.width, b);
    if Shape(b1) != Shape(a) then Err(DifferentSizes)
    else
      ReconcileIsCentered(a.height, a.width, b);
      CropRoiShape(a, b1, roi);
      var a2 := CropRoi(a, roi);
      var b2 := CropRoi(b1, roi);
      match staticMask
      case None => Ok(Prepared(a2, b2, None))
      case Some(m) =>
        if Shape(m) != Shape(a2) then Err(MaskShapeMismatch)
        else Ok(Prepared(Where(m, 0, a2), Where(m, 0, b2), Some(m)))
  }

  /** `prepare_images` of the GPU driver: the same reconciliation and region
      of interest, no masking. It never raises. */
  function PrepareImagesGpu(a: Mat<int>, b: Mat<int>, roi: Roi): (r: Result<Prepared>)
    ensures r.Ok?
    ensures r.value.imageMask == None
    ensures Shape(r.value.frameA) == Shape(r.value.frameB) == Shape(CropRoi(a, roi))
    ensures r.value.frameA == CropRoi(a, roi)
    ensures r.value.frameB == CropRoi(Centered(b, a.height, a.width), roi)
  {
    var b1 := Reconcile(a.height, a.width, b);
    if Shape(b1) != Shape(a) then Err(DifferentSizes)
    else
      ReconcileIsCentered(a.height, a.width, b);
      CropRoiShape(a, b1, roi);
      Ok(Prepared(CropRoi(a, roi), CropRoi(b1, roi), None))
  }
}
