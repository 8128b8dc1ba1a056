/** Failure-compatible result types shared by the whole model.
    Every exception the PIV driver can raise becomes one `Error` case. */
module Outcome {

  /** The exceptions of the driver, each tagged with the pass that raised it
      where the source raises inside a pass. */
  datatype Error =
    | DifferentSizes                // prepare_images: frames still differ after crop/pad
    | MaskShapeMismatch             // np.where / masked_array with a mask of another shape
    | ScheduleTooShort(pass: nat)   // windowsizes[i] or overlap[i] out of range
    | GridRejected(pass: nat)       // get_rect_coordinates rejected the window
    | ZeroStep(pass: nat)           // window_size == overlap: int(ceil(c / 0)) raises
    | EmptyGrid(pass: nat)          // y_int[0] / x_int[0] on an empty centre vector
    | SplineFailure(pass: nat)      // RectBivariateSpline rejected its input
    | BroadcastMismatch(pass: nat)  // u += u_pre with shapes numpy cannot broadcast
    | ValidationExhausted(pass: nat)// every vector of the pass was flagged invalid
    | PassIndexUnbound              // the loop variable of the pass loop is read unbound

  datatype Option<+T> = None | Some(value: T)

  datatype Result<+T> = Ok(value: T) | Err(error: Error) {
    predicate IsFailure() { Err? }

    function PropagateFailure<U>(): Result<U>
      requires Err?
    {
      Err(error)
    }

    function Extract(): T
      requires Ok?
    {
      value
    }
  }
}
