/** Rectangular two-dimensional arrays with numpy's shape semantics: an
    array carries its shape even when it has no rows, so `(0, 5)` and
    `(0, 3)` are different arrays, as they are for numpy. */
module Mats {
  import PySlice

  datatype Array2<T> = Array2(height: nat, width: nat, cells: seq<seq<T>>) {
    predicate Wf() {
      |cells| == height && forall r | 0 <= r < |cells| :: |cells[r]| == width
    }
  }

  /** A well-formed array: `height` rows of `width` cells each. */
  type Mat<T> = m: Array2<T> | m.Wf() witness Array2(0, 0, [])

  function Shape<T>(m: Mat<T>): (nat, nat) {
    (m.height, m.width)
  }

  predicate InBounds<T>(m: Mat<T>, r: int, c: int) {
    0 <= r < m.height && 0 <= c < m.width
  }

  function At<T>(m: Mat<T>, r: int, c: int): T
    requires InBounds(m, r, c)
  {
    m.cells[r][c]
  }

  /** Two arrays of one shape that agree on every cell are equal. */
  lemma Ext<T>(m: Mat<T>, n: Mat<T>)
    requires Shape(m) == Shape(n)
    requires forall r, c | InBounds(m, r, c) :: At(m, r, c) == At(n, r, c)
    ensures m == n
  {
    forall r | 0 <= r < m.height
      ensures m.cells[r] == n.cells[r]
    {
      forall c | 0 <= c < m.width
        ensures m.cells[r][c] == n.cells[r][c]
      {
        assert InBounds(m, r, c);
      }
    }
  }

  function Min(x: nat, y: nat): nat {
    if x <= y then x else y
  }

  /** `np.full((h, w), x)`. */
  function Const<T>(h: nat, w: nat, x: T): (m: Mat<T>)
    ensures Shape(m) == (h, w)
    ensures forall r, c | InBounds(m, r, c) :: At(m, r, c) == x
  {
    Array2(h, w, seq(h, _ => seq(w, _ => x)))
  }

  /** `np.zeros(shape, dtype=bool)`. */
  function Zeros(h: nat, w: nat): (m: Mat<bool>)
    ensures Shape(m) == (h, w)
    ensures forall r, c | InBounds(m, r, c) :: !At(m, r, c)
  {
    Const(h, w, false)
  }

  /** `np.all(m)`: vacuously true of an array with no cells. */
  predicate All(m: Mat<bool>) {
    forall r, c | 0 <= r < m.height && 0 <= c < m.width :: m.cells[r][c]
  }

  /** `np.any(m)`. */
  predicate Any(m: Mat<bool>) {
    exists r, c | 0 <= r < m.height && 0 <= c < m.width :: m.cells[r][c]
  }

  /** Elementwise negation, `-m`. */
  function Neg(m: Mat<real>): (n: Mat<real>)
    ensures Shape(n) == Shape(m)
    ensures forall r, c | InBounds(m, r, c) :: At(n, r, c) == -At(m, r, c)
  {
    Array2(m.height, m.width,
      seq(m.height, r requires 0 <= r < m.height =>
        seq(m.width, c requires 0 <= c < m.width => -m.cells[r][c])))
  }

  /** `m.astype(float)` of an integer array. */
  function ToReal(m: Mat<int>): (n: Mat<real>)
    ensures Shape(n) == Shape(m)
    ensures forall r, c | InBounds(m, r, c) :: At(n, r, c) == At(m, r, c) as real
  {
    Array2(m.height, m.width,
      seq(m.height, r requires 0 <= r < m.height =>
        seq(m.width, c requires 0 <= c < m.width => m.cells[r][c] as real)))
  }

  /** `m[::-1]`: the rows in reverse order. */
  function FlipRows<T>(m: Mat<T>): (n: Mat<T>)
    ensures Shape(n) == Shape(m)
    ensures forall r, c | InBounds(m, r, c) :: At(n, r, c) == At(m, m.height - 1 - r, c)
  {
    Array2(m.height, m.width, seq(m.height, r requires 0 <= r < m.height => m.cells[m.height - 1 - r]))
  }

  /** Reversing the rows sets no cell and clears none: `np.any(m[::-1])`
      is `np.any(m)`. */
  lemma {:induction false} FlipRowsAny(m: Mat<bool>)
    ensures Any(FlipRows(m)) <==> Any(m)
  {
    var n := FlipRows(m);
    if Any(m) {
      var r, c :| 0 <= r < m.height && 0 <= c < m.width && m.cells[r][c];
      assert At(n, m.height - 1 - r, c);
    }
    if Any(n) {
      var r, c :| 0 <= r < n.height && 0 <= c < n.width && n.cells[r][c];
      assert At(m, m.height - 1 - r, c);
    }
  }

  /** `np.where(mask, x, m)`: `x` where the mask is set, `m` elsewhere. */
  function Where<T>(mask: Mat<bool>, x: T, m: Mat<T>): (n: Mat<T>)
    requires Shape(mask) == Shape(m)
    ensures Shape(n) == Shape(m)
    ensures forall r, c | InBounds(m, r, c) :: At(n, r, c) == if At(mask, r, c) then x else At(m, r, c)
  {
    Array2(m.height, m.width,
      seq(m.height, r requires 0 <= r < m.height =>
        seq(m.width, c requires 0 <= c < m.width =>
          if mask.cells[r][c] then x else m.cells[r][c])))
  }

  /** `m[r0:r1, c0:c1]` with Python's slice rules on both axes. */
  function Block<T>(m: Mat<T>, r0: int, r1: int, c0: int, c1: int): (n: Mat<T>)
    ensures Shape(n) == (PySlice.SliceLen(m.height, r0, r1), PySlice.SliceLen(m.width, c0, c1))
    ensures forall r, c | InBounds(n, r, c) ::
      InBounds(m, PySlice.Bound(m.height, r0) + r, PySlice.Bound(m.width, c0) + c) &&
      At(n, r, c) == At(m, PySlice.Bound(m.height, r0) + r, PySlice.Bound(m.width, c0) + c)
  {
    var h := PySlice.SliceLen(m.height, r0, r1);
    var w := PySlice.SliceLen(m.width, c0, c1);
    var br := PySlice.Bound(m.height, r0);
    var bc := PySlice.Bound(m.width, c0);
    Array2(h, w,
      seq(h, r requires 0 <= r < h =>
        seq(w, c requires 0 <= c < w => m.cells[br + r][bc + c])))
  }

  /** Whether numpy can broadcast `b` onto the shape of `a` for `a += b`:
      on each axis the lengths agree or `b` has length one. */
  predicate Broadcastable<T, U>(a: Mat<T>, b: Mat<U>) {
    (b.height == a.height || b.height == 1) && (b.width == a.width || b.width == 1)
  }

  /** `a += b` with numpy broadcasting of `b`. */
  function AddInPlace(a: Mat<real>, b: Mat<real>): (n: Mat<real>)
    requires Broadcastable(a, b)
    ensures Shape(n) == Shape(a)
    ensures forall r, c | InBounds(a, r, c) ::
      At(n, r, c) == At(a, r, c) + At(b, if b.height == 1 then 0 else r, if b.width == 1 then 0 else c)
  {
    Array2(a.height, a.width,
      seq(a.height, r requires 0 <= r < a.height =>
        seq(a.width, c requires 0 <= c < a.width =>
          a.cells[r][c] + b.cells[if b.height == 1 then 0 else r][if b.width == 1 then 0 else c])))
  }

  /** A numpy masked array: values plus a co-shaped mask (true = masked). */
  datatype MaskedArray = MaskedArray(data: Mat<real>, mask: Mat<bool>)

  type Masked = m: MaskedArray | Shape(m.mask) == Shape(m.data)
    witness MaskedArray(Array2(0, 0, []), Array2(0, 0, []))

  /** `np.ma.masked_array(d, np.ma.nomask)`. */
  function NoMask(d: Mat<real>): (m: Masked)
    ensures m.data == d && !Any(m.mask)
  {
    MaskedArray(d, Zeros(d.height, d.width))
  }

  /** `m.filled(x)`: the values with every masked cell replaced by `x`. */
  function Filled(m: Masked, x: real): (d: Mat<real>)
    ensures Shape(d) == Shape(m.data)
    ensures forall r, c | InBounds(d, r, c) ::
      At(d, r, c) == if At(m.mask, r, c) then x else At(m.data, r, c)
  {
    Where(m.mask, x, m.data)
  }

  /** Flipping the rows and negating are both involutions, so the exported
      `-u[::-1]` determines the field it came from. */
  lemma {:induction false} FlipNegRoundTrip(m: Mat<real>)
    ensures Neg(FlipRows(Neg(FlipRows(m)))) == m
  {
    var n := Neg(FlipRows(Neg(FlipRows(m))));
    forall r, c | InBounds(m, r, c)
      ensures At(n, r, c) == At(m, r, c)
    {
      assert InBounds(FlipRows(m), m.height - 1 - r, c);
    }
    Ext(n, m);
  }
}
