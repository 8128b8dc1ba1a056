/** Point sampling of a two-dimensional array, as `map_coordinates` does it.
    Order 0 (nearest node) is modelled exactly, with the two boundary modes
    the drivers use; higher spline orders are delegated to a collaborator. */
module Sampling {
  import opened Mats

  /** Boundary mode: `mode='nearest'` repeats the edge node, and
      `mode='constant'` reads `cval` for a coordinate outside `[0, n-1]`. */
  datatype Boundary = Nearest | Constant(cval: real)

  /** Spline resampling of order >= 1 at one point, with or without the
      spline prefilter; its numerics are not part of this model. */
  type Interp = (Mat<real>, real, real, nat, Boundary, bool) -> real

  /** Index of the node nearest to coordinate `q`. */
  function Round(q: real): (k: int)
    ensures k as real - 0.5 <= q < k as real + 0.5
  {
    (q + 0.5).Floor
  }

  /** An integral coordinate reads its own node. */
  lemma RoundIntegral(k: int)
    ensures Round(k as real) == k
  {
  }

  /** Clamp-to-edge of an index into `[0, n)`. */
  function Clamp(k: int, n: nat): (c: nat)
    requires n > 0
    ensures c < n
    ensures 0 <= k < n ==> c == k
    ensures k < 0 ==> c == 0
    ensures k >= n ==> c == n - 1
  {
    if k < 0 then 0 else if k >= n then n - 1 else k
  }

  /** Whether a coordinate lies on the sampled extent `[0, n-1]` of an axis. */
  predicate OnAxis(q: real, n: nat) {
    0.0 <= q <= (n as real) - 1.0
  }

  /** Order-0 sample at `(y, x)`. With `Nearest` the array must have a cell;
      with `Constant` an empty array reads `cval` everywhere. */
  function SampleNearestNode(m: Mat<real>, y: real, x: real, mode: Boundary): (v: real)
    requires mode.Nearest? ==> m.height > 0 && m.width > 0
    ensures mode.Nearest? ==> v == At(m, Clamp(Round(y), m.height), Clamp(Round(x), m.width))
    ensures mode.Constant? && !(OnAxis(y, m.height) && OnAxis(x, m.width)) ==> v == mode.cval
    ensures mode.Constant? && OnAxis(y, m.height) && OnAxis(x, m.width) ==>
              InBounds(m, Round(y), Round(x)) && v == At(m, Round(y), Round(x))
  {
    match mode
    case Nearest =>
      m.cells[Clamp(Round(y), m.height)][Clamp(Round(x), m.width)]
    case Constant(cval) =>
      if OnAxis(y, m.height) && OnAxis(x, m.width) then m.cells[Round(y)][Round(x)] else cval
  }

  /** `map_coordinates(m, [[y], [x]], order, mode, prefilter)` at one point. */
  function Sample(interp: Interp, m: Mat<real>, y: real, x: real, order: nat, mode: Boundary, prefilter: bool): (v: real)
    requires mode.Nearest? ==> m.height > 0 && m.width > 0
    ensures order == 0 ==> v == SampleNearestNode(m, y, x, mode)
    ensures order > 0 ==> v == interp(m, y, x, order, mode, prefilter)
  {
    if order == 0 then SampleNearestNode(m, y, x, mode) else interp(m, y, x, order, mode, prefilter)
  }

  /** At a node, order-0 sampling returns the node's value in either mode. */
  lemma {:induction false} SampleAtNode(interp: Interp, m: Mat<real>, r: int, c: int, mode: Boundary, prefilter: bool)
    requires InBounds(m, r, c)
    ensures Sample(interp, m, r as real, c as real, 0, mode, prefilter) == At(m, r, c)
  {
    RoundIntegral(r);
    RoundIntegral(c);
  }

  /** Order-0 sampling with `Nearest` always reads a cell of the array,
      whatever the coordinate. */
  lemma {:induction false} NearestReadsACell(interp: Interp, m: Mat<real>, y: real, x: real, prefilter: bool)
    requires m.height > 0 && m.width > 0
    ensures exists r, c | InBounds(m, r, c) :: Sample(interp, m, y, x, 0, Nearest, prefilter) == At(m, r, c)
  {
    var r := Clamp(Round(y), m.height);
    var c := Clamp(Round(x), m.width);
    assert InBounds(m, r, c);
  }
}
