# Multi-pass window deformation PIV driver, in Dafny

This project models the driver of OpenPIV's window-deformation PIV
evaluation, for one image pair, in both of its variants:

- the CPU driver `openpiv/windef.py`;
- the GPU driver `openpiv/windef_gpu.py`.

A run goes through these steps:

1. Prepare the two frames (`prepare_images`). Frame B is cropped and
   zero-padded onto frame A's canvas. Both frames are cut to the region of
   interest. On the CPU, both are also zeroed under the static mask.
2. Run a first correlation pass with a search area of one window
   (`first_pass`).
3. Smooth, validate and repair the first field as the settings say.
4. Run the refining passes `1 .. num_iterations - 1`
   (`multipass_img_deform`). Each refining pass:
   - predicts the field on the new grid with a spline;
   - deforms frame B by that prediction;
   - correlates again and adds the prediction;
   - validates and repairs the field.
5. Hand `x, y, -u[::-1], -v[::-1], flags, grid_mask` to `tools.save`.

Some calls leave the driver's two files: correlation, grid construction,
splines, higher-order `map_coordinates`, validation, outlier replacement and
smoothing. Each of these is an uninterpreted function in `Collab.Collaborators`.
The predicate `Collab.WellBehaved` collects the shape contracts the driver
relies on. The model works out what the driver does with their results:

- which calls happen and in which pass (a trace of events, checked against a
  reference schedule read off the settings alone);
- what shapes the arrays have;
- which exceptions can be raised.

Everything the driver computes itself is modelled exactly:

- frame reconciliation and Python slicing;
- order-0 `map_coordinates` with both boundary modes;
- the grid extension and un-padding of the GPU pass;
- the tiled GPU deformer and its `uint8` output;
- masking, filling and the row flip with negation of the export.

Modules:

- `Outcome`: errors, `Option`, `Result`.
- `PySlice`: Python slices.
- `Mats`: 2-D arrays and masked arrays.
- `Sampling`: `map_coordinates` at one point.
- `Collab`: collaborators and settings.
- `Reconcile`: `prepare_images`.
- `Warp`: the CPU `deform_windows`.
- `GridPad`: the GPU grid extension and strip.
- `Tiling`: the GPU `deform_windows`.
- `Passes`: one pass.
- `Multipass`: the whole `multipass`.

The driver is modelled twice where the source has a slip (see "## Findings"):

- `Multipass.Run` is the corrected driver;
- `Multipass.RunAsWritten` is the driver as written.

The GPU refining pass takes an `Unpadding` argument. With `Intended` it removes
exactly the padding. With `AsWritten` it uses the slice
`[y_add[0]:-y_add[1], x_add[0]:-x_add[1]]` of openpiv/windef_gpu.py:637-638
and 671-672. A CPU pass pads nothing, so both CPU drivers run the same loop.

## Model

| member | source | states |
|---|---|---|
| `PySlice.MinusZeroIsEmpty` | openpiv/windef_gpu.py:637-638 | a slice whose upper bound is written `-0` is empty for every lower bound |
| `PySlice.DropBothEnds` | openpiv/windef_gpu.py:637-638 | `s[lo:-k]` with `k >= 1` keeps exactly the elements between the first `lo` and the last `k` |
| `Mats.FlipNegRoundTrip` | openpiv/windef.py:306 | reversing the rows and negating again gives back the field from its exported form `-u[::-1]` |
| `Mats.FlipRowsAny` | openpiv/windef_gpu.py:239 | reversing the rows of a mask, as `u[::-1]` does to `u`'s mask, keeps `np.any` of it |
| `Mats.Filled` | openpiv/windef.py:291-292 | `u.filled(0.)` is 0 on every masked cell and the value elsewhere, with the same shape |
| `Reconcile.ReconcileIsCentered` | openpiv/windef.py:47-66 | the width crop, height crop and pad of frame B equal an independent definition: B re-centred on A's canvas, 0 where the canvas reaches past B |
| `Reconcile.CellOfReconcile` | openpiv/windef.py:47-66 | each pixel of the reconciled frame is the re-centred pixel of B, or 0 off B |
| `Reconcile.PrepareImages` | openpiv/windef.py:47-98 | never "different sizes"; fails exactly when the static mask's shape differs from the region of interest; both frames have that shape, and each pixel is 0 under the mask and otherwise the cropped pixel of A or of re-centred B |
| `Reconcile.PrepareImagesGpu` | openpiv/windef_gpu.py:48-84 | never raises; frame A is cut to the region of interest, frame B is re-centred and then cut; there is no image mask |
| `Sampling.SampleAtNode` | openpiv/windef_gpu.py:318-323 | order-0 sampling at a node reads that node in either boundary mode |
| `Sampling.NearestReadsACell` | openpiv/windef.py:419-420 | order-0 sampling with `mode='nearest'` always reads some cell of the frame |
| `Warp.WarpIsDeformNearest` | openpiv/windef.py:412-420 | with order 0 and integral displacements, the warp equals a reference deformation that reads the frame at `(r - dv, c + du)` clamped to the edge |
| `Warp.DeformNearestZero` | openpiv/windef.py:412-420 | a zero displacement leaves the frame unchanged |
| `Warp.WarpZero` | openpiv/windef.py:412-420 | an order-0 warp by a zero displacement field gives back the frame |
| `Warp.DeformWindows` | openpiv/windef.py:312-420 | succeeds exactly when both spline fits succeed and evaluate on the pixel mesh; the deformed frame has the frame's shape and is `map_coordinates` of the frame at `(y - vt, x + ut)`, `ut` and `vt` being the two splines evaluated on the pixel mesh; failures are spline or broadcast errors |
| `Warp.DeformWindowsFailsOnlyInSpline` | openpiv/windef.py:354-358 | with well-behaved collaborators, the deformation fails only when a spline fit fails |
| `GridPad.ExtendUniform` | openpiv/windef_gpu.py:552-561 | the extended centre vector is uniform with the pass step and starts `y_add[0]` steps before the first centre |
| `GridPad.UniformIncreasing` | openpiv/windef_gpu.py:533-561 | a uniform vector with a positive step is strictly increasing with consecutive differences equal to the step, as the spline fit needs |
| `GridPad.ExtendStart` | openpiv/windef_gpu.py:543-561 | when the first centre lies after `-s`, the extended vector starts in `(-s, 0]` |
| `GridPad.ExtendEnd` | openpiv/windef_gpu.py:543-561 | the extended vector ends at or after the last pixel, and less than one step past it when it was extended |
| `GridPad.LeadingCountPositive` | openpiv/windef_gpu.py:543-546 | the leading count is at least 1 exactly when the first centre lies after pixel 0 |
| `GridPad.TrailingCountPositive` | openpiv/windef_gpu.py:543-546 | the trailing count is at least 1 exactly when the last centre lies before the last pixel |
| `GridPad.ExtendedCovers` | openpiv/windef_gpu.py:543-561 | every pixel of the axis has a coarse index `(p - ext[0]) / s` inside the extended grid's extent |
| `GridPad.StripRecovers` | openpiv/windef_gpu.py:671-672 | stripping the counts that were added gives back the pass's own centres (inverse of the extension) |
| `GridPad.StripAsWrittenAgrees` | openpiv/windef_gpu.py:671-672 | the slice `[a:-b]` as written equals the intended strip when `b >= 1` |
| `GridPad.EmptyStripWitness` | openpiv/windef_gpu.py:543-561 | 4 rows with 2-pixel windows and no overlap: the trailing count is 0, the slice as written is empty, and the intended strip recovers the centres |
| `GridPad.StripMat` | openpiv/windef_gpu.py:637-638 | the intended strip removes exactly the added rows and columns: its shape shrinks by the counts and each cell is the shifted cell of the predictor |
| `GridPad.AsWrittenBreaksAccumulation` | openpiv/windef_gpu.py:637-638 | with a zero trailing count, the predictor stripped as written cannot be added to a non-empty field |
| `GridPad.StripMatAsWrittenAgrees` | openpiv/windef_gpu.py:637-638 | with positive trailing counts, the matrix strip as written is the intended one |
| `Tiling.TilesPartition` | openpiv/windef_gpu.py:301-304 | the tiles of an axis are non-empty, at most `tile_size` long, ordered without overlap, and cover the axis |
| `Tiling.TilesExactlyOnce` | openpiv/windef_gpu.py:301-304 | every position of an axis lies in exactly one tile |
| `Tiling.ToUint8` | openpiv/windef_gpu.py:298-336 | a value stored in the `uint8` output lies in `[0, 256)` and equals the floor of a value already in range |
| `Tiling.DeformTiled` | openpiv/windef_gpu.py:285-342 | the tile loops produce exactly the pixel-by-pixel reference deformation, whatever the uninitialised output held |
| `Tiling.NodePixelReadsNode` | openpiv/windef_gpu.py:315-323 | a pixel on node `(k, l)` of the extended grid has coarse index `(k, l)` and reads node `(k, l)`'s displacement |
| `Tiling.OffGridReadsZero` | openpiv/windef_gpu.py:318-323 | a coarse index off the grid reads displacement 0 |
| `Tiling.FrameOnGrid` | openpiv/windef_gpu.py:315-323 | when the extended grid spans the frame, no pixel's coarse index falls off the grid, so the fill value is never read |
| `Tiling.GpuPixelIsFramePixel` | openpiv/windef_gpu.py:325-336 | with order-0 sampling and grey levels in `[0, 255]`, every output pixel is one of the frame's grey levels |
| `Passes.Resample` | openpiv/windef.py:636-644 | fails exactly when the spline fit fails; under well-behaved collaborators the predictor has the new grid's shape |
| `Passes.Accumulate` | openpiv/windef.py:688-689 | `u += u_pre` succeeds exactly when numpy can broadcast; the shape is kept, and with equal shapes every vector gains its own predictor |
| `Passes.Unpad` | openpiv/windef_gpu.py:637-638 | the intended removal of the padding from `u_pre[...]` (and from `x`, `y` at lines 671-672): exactly `y_add` rows and `x_add` columns leave at each end when the predictor is big enough, otherwise a broadcast error (the slice as written is `GridPad.StripMatAsWritten`, used by `Passes.GpuSettleAsWritten`) |
| `Passes.Screen` | openpiv/windef.py:703-723 | raises exactly when every vector is flagged; repairs exactly when the pass is not the last; the repaired field is `replace_outliers` of the flagged one; the GPU resets the flags after a repair |
| `Passes.FirstPass` | openpiv/windef.py:190-252 | fails only for a short schedule or a rejected grid; records exactly the scheduled pass-0 events; the grid is pass 0's; arrays are co-shaped; without validation the flags are clear; without an image mask, or on the GPU, the grid mask is clear |
| `Passes.FirstPassField` | openpiv/windef.py:231-252 | the first field is the correlation output with a search area of one window, smoothed if asked; with `validation_first_pass` the flags are `typical_validation`'s; the field is `replace_outliers` of it exactly when the first pass repairs |
| `Passes.CpuPass` | openpiv/windef.py:616-735 | records deform, correlate (no search area, method after clearing), validate and, unless last, repair; under well-behaved collaborators the grid is the pass's and arrays are co-shaped, and errors are pass errors; the grid mask is the static mask sampled on the grid, or clear |
| `Passes.CpuSettle` | openpiv/windef.py:688-735 | keeps the pass grid, records the pass's events, and uses the static mask sampled on the grid, or a clear mask, as `grid_mask`; with grid-shaped correlation output and predictors and well-behaved collaborators the arrays are co-shaped and the only error is a validation that flags everything |
| `Passes.CpuSettleField` | openpiv/windef.py:688-735 | the CPU field is the correlation output plus the predictor, masked by `grid_mask`; the pass raises exactly when validation flags every vector; it is `replace_outliers` of that field on every pass but the last and that field itself on the last; the flags returned are `typical_validation`'s of that field |
| `Passes.CpuSettleSum` | openpiv/windef.py:688-689 | on the last pass, each vector is its correlation output plus the predictor at the same grid point |
| `Passes.GpuPredict` | openpiv/windef_gpu.py:539-578 | the extended grid uses the rounded-up counts, stripping it gives back the pass grid, and both predictors lose exactly the padding and then have the pass grid's shape |
| `Passes.AddUnpadded` | openpiv/windef_gpu.py:637-638 | with the padding removed as intended, `u += u_pre[...]` succeeds when the unpadded predictor has the field's shape, and each vector gains the predictor of the extended-grid node `y_add[0]` rows and `x_add[0]` columns further on |
| `Passes.GpuSettle` | openpiv/windef_gpu.py:637-674 | with the intended strip: records the pass's events; grid mask clear; raises exactly when validation flags every vector; the field is correlation output plus unpadded predictor, repaired and with the flags reset on every pass but the last, and unrepaired, unmasked and with `typical_validation`'s raw flags on the last; with fitting predictors each vector gains the predictor of its own node, arrays are co-shaped, and the only error is a validation that flags everything |
| `Passes.GpuSettleAsWritten` | openpiv/windef_gpu.py:637-674 | with the slice `[y_add[0]:-y_add[1], x_add[0]:-x_add[1]]` as written: raises only on broadcast or on a validation that flags everything; with a zero trailing count and a non-empty field it raises on `u += ...`; the last pass returns unmasked fields |
| `Passes.SettleAgrees` | openpiv/windef_gpu.py:637-638 | with both leading counts non-negative and both trailing counts positive, the end of the pass as written equals the intended one |
| `Passes.GpuPass` | openpiv/windef_gpu.py:525-674 | as `Passes.CpuPass`, with an all-false grid mask and flags reset after a repair; with the intended strip the returned grid is the pass's own grid and the arrays are co-shaped, while with the slice as written a broadcast error is possible as well |
| `Passes.GpuStage` | openpiv/windef_gpu.py:525-636 | the staged pass is the plan, the tiled deformation of frame B by the predictor on the extended grid, and the correlation of frame A with it using the cleared signal-to-noise method; with well-behaved collaborators the correlation has the pass grid's shape |
| `Passes.GpuPlan` | openpiv/windef_gpu.py:525-580 | the plan's grid is the pass's grid, non-empty and with a non-zero step; the extended grid is longer by the padding counts, stripping it gives back the pass grid, and the predictors fit |
| `Passes.GpuPlanPadding` | openpiv/windef_gpu.py:543-550 | a planned pass pads with the counts computed from its own grid and the frame's shape |
| `Passes.GpuPassAgrees` | openpiv/windef_gpu.py:637-638 | when every padding count of the pass is non-negative and both trailing counts are positive, the pass as written equals the intended pass, grid included |
| `Passes.GpuPassAsWrittenFails` | openpiv/windef_gpu.py:637-638 | when a trailing count of the pass is 0, the pass as written raises a broadcast error wherever the intended pass completes |
| `Passes.Pass` | openpiv/windef.py:262-272 | either back end keeps arrays co-shaped on the pass's grid and raises only pass errors under well-behaved collaborators; the GPU pass with the slice as written can also raise a broadcast error |
| `Passes.PassTrace` | openpiv/windef.py:616-723 | a refining pass adds exactly the scheduled events of its index other than smoothing, and clears the method for good when `sig2noise_validate` is false |
| `Multipass.Smoothen` | openpiv/windef.py:274-280 | smoothing changes only the field, keeps its shape, and records one event |
| `Multipass.Loop` | openpiv/windef.py:254-280 | the loop adds exactly the scheduled events of its passes; with the intended strip it ends on the last pass's grid with co-shaped arrays; it raises only pass errors, or a broadcast error with the slice as written; a GPU loop that runs at least one pass ends with unmasked fields |
| `Multipass.Step` | openpiv/windef.py:254-280 | one turn of the loop adds exactly the scheduled events of pass `i`, smoothing included, keeps the signal-to-noise method for good once it is cleared, and leaves the arrays co-shaped on pass `i`'s grid; the last GPU pass leaves unmasked fields |
| `Multipass.Saved` | openpiv/windef.py:291-306 | each saved cell is the row-flipped, negated value, or 0 where masked; flipping and negating again gives back the filled field |
| `Multipass.FinalizeCpu` | openpiv/windef.py:291-306 | saves the final grid's meshes and flags; re-samples the image mask on the final grid and masks the field with it; fails only on a mask of the wrong shape, never under well-behaved collaborators |
| `Multipass.FinalizeGpu` | openpiv/windef_gpu.py:228-239 | saves the meshes and flags with an all-false grid mask, and `-u[::-1]` of the field as it is: data that flip back to the final field, and the field's own mask with its rows reversed, set somewhere exactly when the field's mask is |
| `Multipass.RunTrace` | openpiv/windef.py:160-306 | a completed run records exactly the events of the reference schedule |
| `Multipass.RunShapes` | openpiv/windef.py:160-306 | under well-behaved collaborators the saved grid is the last pass's grid on the cropped frame, and field, flags and grid mask have its shape |
| `Multipass.RunErrors` | openpiv/windef.py:160-306 | under well-behaved collaborators a run fails only with a pass error or, on the CPU, a static mask of the wrong shape |
| `Multipass.SinglePassSaves` | openpiv/windef.py:231-306 | with one pass, the corrected driver saves exactly when the frames are prepared and the first pass succeeds; all events are pass 0's |
| `Multipass.SinglePassAsWrittenFails` | openpiv/windef.py:254-285 | every single-pass CPU run that the corrected driver completes raises in the driver as written |
| `Multipass.AsWrittenAgrees` | openpiv/windef.py:254-285 | with at least two passes, the CPU driver as written equals the corrected one |
| `Multipass.GpuAsWrittenAgrees` | openpiv/windef_gpu.py:192-239 | a two-pass GPU run as written equals the corrected one when the slice of its refining pass is exact |
| `Multipass.GpuAsWrittenFails` | openpiv/windef_gpu.py:637-638 | a two-pass GPU run that the corrected driver completes raises a broadcast error as written when a trailing count of its refining pass is 0 |
| `Multipass.GpuSavesNoMask` | openpiv/windef_gpu.py:192-239 | the GPU driver saves an all-false grid mask; with at least one refining pass the saved fields are unmasked, because the last pass returns the plain sum of correlation output and predictor |

## Left out

- File reading and writing (`tools.imread`, `tools.save`), plotting, progress messages, clocks, the `Multiprocesser` driver `piv`, and the CuPy memory pool. The model takes the frames as read and returns the arguments of `tools.save`.
- `invert` and dynamic masking in `prepare_images`. They are image filters of other modules; the model keeps the static mask only.
- The numerics of correlation, `get_rect_coordinates`, `get_field_shape`, splines, `map_coordinates` of order >= 1, validation, outlier replacement and `smoothn`. They are collaborators, constrained only by `Collab.WellBehaved`. The field shape of the reshape is taken to be the grid shape of `get_rect_coordinates`.
- A failing `get_rect_coordinates` is modelled as one error case, `GridRejected`.
- Collaborators are taken to return masked arrays. The source calls `.filled` on them, which a plain ndarray does not have.
- `float32` casts and floating-point rounding. Coordinates and grey levels are exact reals.
- Sampling.SampleNearestNode: exact ties are rounded half up. scipy's order-0 rounding of a coordinate exactly halfway between nodes is not modelled.
- Tiling.ToUint8: a value outside `[0, 256)` is truncated toward zero and wrapped modulo 256. C leaves this conversion undefined, and only in-range values are stated exactly.
- Reconcile.PrepareImages: a static mask of a different shape is an error. numpy's broadcasting of a mask of length 1 along an axis is not modelled.
- Passes.Accumulate: the cellwise sum is stated for equal shapes only. The broadcast of a one-row or one-column predictor is in the body but not in the contract.
- The grid is kept as its two centre vectors, not as meshgrid arrays. `Collab.MeshX` and `Collab.MeshY` rebuild the arrays for the export.
- The mutation of `settings.sig2noise_method` is modelled within one image pair. Its persistence into the next image pair of a batch is not modelled.
- Passes.CpuPass: a `grid_mask` whose shape differs from the field's is the error `MaskShapeMismatch`. numpy's `masked_array` would reshape a mask of the same size, repeat a one-element mask, and raise only otherwise. Under `Collab.WellBehaved` the mask always has the field's shape.
- Multipass.FinalizeCpu: the same simplification for the mask sampled on the final grid at openpiv/windef.py:297-298.
- Multipass.GpuAsWrittenAgrees: the run-level agreement of the GPU driver as written is stated for two-pass runs only. For longer runs, agreement is stated pass by pass by `Passes.GpuPassAgrees`.
- Multipass.GpuSavesNoMask: unmasked saved fields are promised only when a refining pass ran. After a single GPU pass the saved mask is the mask of `replace_outliers` or `smoothn` output, which the collaborators leave unconstrained.
- Passes.GpuSettleAsWritten: it promises no shapes. Its predictor may be cut shorter than the field, and numpy would then broadcast a one-row or one-column remainder.
- Passes.GpuPass: co-shaped arrays on the pass grid are promised for the intended strip only, for the same reason.
- The order-0 lemmas `Sampling.SampleAtNode`, `Sampling.NearestReadsACell`, `Warp.WarpIsDeformNearest`, `Warp.DeformNearestZero` and `Tiling.GpuPixelIsFramePixel` describe `deform_windows` as a library function. Inside `multipass`, `interpolation_order` is also the spline degree, and `RectBivariateSpline` accepts only degrees 1 to 5 (`Collab.SplineWellBehaved`), so no refining pass samples with order 0.
- The GPU pass uses the pixel-by-pixel reference `Tiling.DeformGpu`, which `Tiling.DeformTiled` is proved to equal. The tile loop itself is modelled as a method.

## Findings

| source | as written | input that shows it | evidently intended | confidence | as-written member | corrected member |
|---|---|---|---|---|---|---|
| openpiv/windef.py:254-285 | after `for i in range(1, num_iterations)`, the progress message reads `i` | `num_iterations = 1`: the loop body never runs, so `i` is unbound and the driver raises before `tools.save` | report the completed passes without the loop variable, as the GPU driver does at openpiv/windef_gpu.py:222, and save the single-pass result | medium, not executed | `Multipass.SinglePassAsWrittenFails` | `Multipass.SinglePassSaves` |
| openpiv/windef_gpu.py:637-638 | the padding is stripped with `u_pre[y_add[0]:-y_add[1], x_add[0]:-x_add[1]]` (and `x`, `y` at lines 671-672) | a 4-row frame with 2-pixel windows and no overlap: the centres are 1 and 3, so `y_add[1] = 0`, and `[1:-0]` is empty; `u += ...` then cannot broadcast | remove exactly `y_add[1]` trailing rows, `[y_add[0]:len - y_add[1]]` | medium, not executed | `GridPad.AsWrittenBreaksAccumulation`, `Passes.GpuPassAsWrittenFails`, `Multipass.GpuAsWrittenFails` | `GridPad.StripRecovers`, `Passes.GpuSettle`, `Multipass.RunShapes` |
