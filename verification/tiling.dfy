/** Frame deformation of the GPU pass: the frame is walked in square tiles
    of `TileSize` pixels; each pixel reads the displacement guess at its
    fractional coarse-grid index `(p - x0) / s` (zero outside the grid),
    samples the frame at the displaced position with clamp-to-edge, and is
    stored as an unsigned byte. */
module Tiling {
  import opened Mats
  import opened Sampling
  import opened Collab
  import GridPad

  /** `tile_size` of the GPU deformer. */
  const TileSize: nat := 8192

  /** The tiles of one axis: `(start, min(start + t, n))` for `start` in
      `range(from, n, t)`. */
  function Tiles(n: nat, t: nat, from: nat): (ts: seq<(nat, nat)>)
    requires t > 0
    decreases n - from
  {
    if from >= n then [] else [(from, Min(from + t, n))] + Tiles(n, t, from + t)
  }

  /** Tile `k` of the list contains position `p`. */
  predicate InTile(ts: seq<(nat, nat)>, k: int, p: int) {
    0 <= k < |ts| && ts[k].0 <= p < ts[k].1
  }

  /** Some tile among the first `i` contains `p`. */
  predicate Covered(ts: seq<(nat, nat)>, i: int, p: int) {
    exists k :: 0 <= k < i && InTile(ts, k, p)
  }

  /** Every tile is non-empty, at most `t` long and inside `[from, n)`; the
      tiles are in order without overlap; together they cover `[from, n)`. */
  lemma {:induction false} TilesPartition(n: nat, t: nat, from: nat)
    requires t > 0
    ensures forall k | 0 <= k < |Tiles(n, t, from)| ::
              var tile := Tiles(n, t, from)[k];
              from <= tile.0 < tile.1 <= n && tile.1 - tile.0 <= t
    ensures forall j, k | 0 <= j < k < |Tiles(n, t, from)| :: Tiles(n, t, from)[j].1 <= Tiles(n, t, from)[k].0
    ensures forall p | from <= p < n :: Covered(Tiles(n, t, from), |Tiles(n, t, from)|, p)
    decreases n - from
  {
    var ts := Tiles(n, t, from);
    if from < n {
      var head := (from, Min(from + t, n));
      var rest := Tiles(n, t, from + t);
      TilesPartition(n, t, from + t);
      assert ts == [head] + rest;
      forall k | 0 <= k < |ts|
        ensures from <= ts[k].0 < ts[k].1 <= n && ts[k].1 - ts[k].0 <= t
      {
        if k > 0 {
          assert ts[k] == rest[k - 1];
        }
      }
      forall j, k | 0 <= j < k < |ts|
        ensures ts[j].1 <= ts[k].0
      {
        assert ts[k] == rest[k - 1];
        if j > 0 {
          assert ts[j] == rest[j - 1];
        }
      }
      forall p | from <= p < n
        ensures Covered(ts, |ts|, p)
      {
        if p < from + t {
          assert InTile(ts, 0, p);
        } else {
          assert Covered(rest, |rest|, p);
          var k :| 0 <= k < |rest| && InTile(rest, k, p);
          assert ts[k + 1] == rest[k];
          assert InTile(ts, k + 1, p);
        }
      }
    }
  }

  /** Each position of `[0, n)` lies in exactly one tile. */
  lemma {:induction false} TilesExactlyOnce(n: nat, t: nat, p: nat)
    requires t > 0 && p < n
    ensures exists k :: InTile(Tiles(n, t, 0), k, p) && forall k' | InTile(Tiles(n, t, 0), k', p) :: k' == k
  {
    var ts := Tiles(n, t, 0);
    TilesPartition(n, t, 0);
    assert Covered(ts, |ts|, p);
    var k :| 0 <= k < |ts| && InTile(ts, k, p);
    assert forall k' | InTile(ts, k', p) :: k' == k;
  }

  /** Storing a `float32` value into a `uint8` array: truncation toward zero,
      then wrap-around modulo 256. */
  function ToUint8(x: real): (b: int)
    ensures 0 <= b < 256
    ensures 0.0 <= x < 256.0 ==> b == x.Floor
  {
    var t := if x >= 0.0 then x.Floor else -((-x).Floor);
    t % 256
  }

  /** The displacement guess and the frame a GPU deformation works on:
      `u`, `v` are given on the extended grid `ext` of step `s`. */
  datatype GpuField = GpuField(ext: Grid, u: Mat<real>, v: Mat<real>, s: int)

  predicate ValidField(g: GpuField) {
    g.s != 0 && |g.ext.xs| > 0 && |g.ext.ys| > 0
  }

  /** Fractional coarse-grid index of pixel coordinate `p` on an axis whose
      first node is at `p0`. */
  function CoarseIndex(p: int, p0: real, s: int): real
    requires s != 0
  {
    ((p as real) - p0) / (s as real)
  }

  /** One output pixel of the GPU deformer. */
  function GpuPixel(interp: Interp, f: Mat<real>, g: GpuField, order: nat, order2: nat, r: nat, c: nat): (b: int)
    requires ValidField(g) && InBounds(f, r, c)
    ensures 0 <= b < 256
  {
    var cy := CoarseIndex(r, g.ext.ys[0], g.s);
    var cx := CoarseIndex(c, g.ext.xs[0], g.s);
    var ut := Sample(interp, g.u, cy, cx, order2, Constant(0.0), true);
    var vt := Sample(interp, g.v, cy, cx, order2, Constant(0.0), true);
    ToUint8(Sample(interp, f, (r as real) - vt, (c as real) + ut, order, Nearest, false))
  }

  /** Reference: the deformed frame, pixel by pixel, without tiles. */
  function DeformGpu(interp: Interp, f: Mat<real>, g: GpuField, order: nat, order2: nat): (out: Mat<int>)
    requires ValidField(g)
    ensures Shape(out) == Shape(f)
    ensures forall r, c | InBounds(f, r, c) :: At(out, r, c) == GpuPixel(interp, f, g, order, order2, r, c)
  {
    Array2(f.height, f.width,
      seq(f.height, r requires 0 <= r < f.height =>
        seq(f.width, c requires 0 <= c < f.width => GpuPixel(interp, f, g, order, order2, r, c))))
  }

  /** `frame_def[r0:r1, c0:c1] = tile`. */
  function WriteTile(out: Mat<int>, r0: nat, r1: nat, c0: nat, c1: nat, tile: Mat<int>): (n: Mat<int>)
    requires r0 <= r1 <= out.height && c0 <= c1 <= out.width && Shape(tile) == (r1 - r0, c1 - c0)
    ensures Shape(n) == Shape(out)
    ensures forall r, c | InBounds(out, r, c) ::
      At(n, r, c) == if r0 <= r < r1 && c0 <= c < c1 then At(tile, r - r0, c - c0) else At(out, r, c)
  {
    Array2(out.height, out.width,
      seq(out.height, r requires 0 <= r < out.height =>
        seq(out.width, c requires 0 <= c < out.width =>
          if r0 <= r < r1 && c0 <= c < c1 then tile.cells[r - r0][c - c0] else out.cells[r][c])))
  }

  /** `frame_def_tile` for rows `[r0, r1)` and columns `[c0, c1)`. */
  function TileValues(interp: Interp, f: Mat<real>, g: GpuField, order: nat, order2: nat,
                      r0: nat, r1: nat, c0: nat, c1: nat): (tile: Mat<int>)
    requires ValidField(g) && r0 <= r1 <= f.height && c0 <= c1 <= f.width
    ensures Shape(tile) == (r1 - r0, c1 - c0)
    ensures forall i, j | InBounds(tile, i, j) :: At(tile, i, j) == GpuPixel(interp, f, g, order, order2, r0 + i, c0 + j)
  {
    Array2(r1 - r0, c1 - c0,
      seq(r1 - r0, i requires 0 <= i < r1 - r0 =>
        seq(c1 - c0, j requires 0 <= j < c1 - c0 => GpuPixel(interp, f, g, order, order2, r0 + i, c0 + j))))
  }

  /** The tiles of an axis of length `n`: non-empty, inside the axis, in
      order without overlap, and covering it. */
  ghost predicate TileList(ts: seq<(nat, nat)>, n: nat) {
    && (forall k | 0 <= k < |ts| :: ts[k].0 < ts[k].1 <= n)
    && (forall j, k | 0 <= j < k < |ts| :: ts[j].1 <= ts[k].0)
    && (forall p | 0 <= p < n :: Covered(ts, |ts|, p))
  }

  lemma {:induction false} TilesAreTileList(n: nat, t: nat)
    requires t > 0
    ensures TileList(Tiles(n, t, 0), n)
  {
    TilesPartition(n, t, 0);
  }

  /** `out` already agrees with `ref` on the rows of the first `i` row
      tiles, and on the rows of `band` within the first `j` column tiles. */
  ghost predicate Done(out: Mat<int>, ref: Mat<int>, rows: seq<(nat, nat)>, i: int,
                 band: (nat, nat), cols: seq<(nat, nat)>, j: int) {
    && Shape(out) == Shape(ref)
    && forall r, c | InBounds(out, r, c) && (Covered(rows, i, r) || (band.0 <= r < band.1 && Covered(cols, j, c))) ::
         At(out, r, c) == At(ref, r, c)
  }

  /** Writing column tile `j` of the band extends the agreement by one tile. */
  lemma {:induction false} TileStep(prev: Mat<int>, ref: Mat<int>, rows: seq<(nat, nat)>, i: int,
                                    band: (nat, nat), cols: seq<(nat, nat)>, j: nat, tile: Mat<int>)
    requires Done(prev, ref, rows, i, band, cols, j)
    requires j < |cols|
    requires band.0 <= band.1 <= prev.height && cols[j].0 <= cols[j].1 <= prev.width
    requires Shape(tile) == (band.1 - band.0, cols[j].1 - cols[j].0)
    requires forall a, b | InBounds(tile, a, b) :: InBounds(ref, band.0 + a, cols[j].0 + b) && At(tile, a, b) == At(ref, band.0 + a, cols[j].0 + b)
    ensures Done(WriteTile(prev, band.0, band.1, cols[j].0, cols[j].1, tile), ref, rows, i, band, cols, j + 1)
  {
    var out := WriteTile(prev, band.0, band.1, cols[j].0, cols[j].1, tile);
    forall r, c | InBounds(out, r, c) && (Covered(rows, i, r) || (band.0 <= r < band.1 && Covered(cols, j + 1, c)))
      ensures At(out, r, c) == At(ref, r, c)
    {
      if band.0 <= r < band.1 && cols[j].0 <= c < cols[j].1 {
        assert At(out, r, c) == At(tile, r - band.0, c - cols[j].0);
      } else if !Covered(rows, i, r) {
        var k :| 0 <= k < j + 1 && InTile(cols, k, c);
        assert k != j;
        assert Covered(cols, j, c);
      }
    }
  }

  /** Once every column tile of row tile `i` is written, row tile `i` is done. */
  lemma {:induction false} BandStep(out: Mat<int>, ref: Mat<int>, rows: seq<(nat, nat)>, i: nat, cols: seq<(nat, nat)>)
    requires i < |rows| && TileList(cols, out.width)
    requires Done(out, ref, rows, i, rows[i], cols, |cols|)
    ensures Done(out, ref, rows, i + 1, (0, 0), cols, 0)
  {
    forall r, c | InBounds(out, r, c) && Covered(rows, i + 1, r)
      ensures At(out, r, c) == At(ref, r, c)
    {
      if !Covered(rows, i, r) {
        var k :| 0 <= k < i + 1 && InTile(rows, k, r);
        assert k == i;
        assert Covered(cols, |cols|, c);
      }
    }
  }

  /** When every row tile is done the array is the reference. */
  lemma {:induction false} AllDone(out: Mat<int>, ref: Mat<int>, rows: seq<(nat, nat)>, cols: seq<(nat, nat)>)
    requires TileList(rows, out.height)
    requires Done(out, ref, rows, |rows|, (0, 0), cols, 0)
    ensures out == ref
  {
    forall r, c | InBounds(out, r, c)
      ensures At(out, r, c) == At(ref, r, c)
    {
      assert Covered(rows, |rows|, r);
    }
    Ext(out, ref);
  }

  /** The tile computed for a window holds the reference pixels there. */
  lemma {:induction false} TileIsReference(interp: Interp, f: Mat<real>, g: GpuField, order: nat, order2: nat,
                                           r0: nat, r1: nat, c0: nat, c1: nat)
    requires ValidField(g) && r0 <= r1 <= f.height && c0 <= c1 <= f.width
    ensures var tile := TileValues(interp, f, g, order, order2, r0, r1, c0, c1);
            var ref := DeformGpu(interp, f, g, order, order2);
            forall a, b | InBounds(tile, a, b) :: InBounds(ref, r0 + a, c0 + b) && At(tile, a, b) == At(ref, r0 + a, c0 + b)
  {
  }

  /** `deform_windows` of the GPU driver: the tile loops. `scratch` is the
      uninitialised `cp.empty` array; the result does not depend on it,
      because every pixel is written by exactly one tile. */
  method DeformTiled(interp: Interp, f: Mat<real>, g: GpuField, order: nat, order2: nat, scratch: Mat<int>)
    returns (out: Mat<int>)
    requires ValidField(g) && Shape(scratch) == Shape(f)
    ensures out == DeformGpu(interp, f, g, order, order2)
  {
    var rows := Tiles(f.height, TileSize, 0);
    var cols := Tiles(f.width, TileSize, 0);
    TilesAreTileList(f.height, TileSize);
    TilesAreTileList(f.width, TileSize);
    ghost var ref := DeformGpu(interp, f, g, order, order2);
    out := scratch;
    var i := 0;
    while i < |rows|
      invariant 0 <= i <= |rows|
      invariant Done(out, ref, rows, i, (0, 0), cols, 0)
    {
      var band := rows[i];
      var j := 0;
      while j < |cols|
        invariant 0 <= j <= |cols|
        invariant Done(out, ref, rows, i, band, cols, j)
      {
        var tile := TileValues(interp, f, g, order, order2, band.0, band.1, cols[j].0, cols[j].1);
        TileIsReference(interp, f, g, order, order2, band.0, band.1, cols[j].0, cols[j].1);
        TileStep(out, ref, rows, i, band, cols, j, tile);
        out := WriteTile(out, band.0, band.1, cols[j].0, cols[j].1, tile);
        j := j + 1;
      }
      BandStep(out, ref, rows, i, cols);
      i := i + 1;
    }
    AllDone(out, ref, rows, cols);
  }

  /** A pixel on node `(k, l)` of the extended grid reads, with order-0
      sampling, exactly the displacement stored at node `(k, l)`. */
  lemma {:induction false} NodePixelReadsNode(interp: Interp, g: GpuField, r: nat, c: nat, k: nat, l: nat)
    requires ValidField(g) && InBounds(g.u, k, l)
    requires k < |g.ext.ys| && l < |g.ext.xs|
    requires GridPad.UniformStep(g.ext.ys, g.s as real) && GridPad.UniformStep(g.ext.xs, g.s as real)
    requires g.ext.ys[k] == r as real && g.ext.xs[l] == c as real
    ensures CoarseIndex(r, g.ext.ys[0], g.s) == k as real
    ensures CoarseIndex(c, g.ext.xs[0], g.s) == l as real
    ensures Sample(interp, g.u, CoarseIndex(r, g.ext.ys[0], g.s), CoarseIndex(c, g.ext.xs[0], g.s), 0, Constant(0.0), true)
            == At(g.u, k, l)
  {
    GridPad.NodeIndex(g.ext.ys, g.s, k);
    GridPad.NodeIndex(g.ext.xs, g.s, l);
    SampleAtNode(interp, g.u, k, l, Constant(0.0), true);
  }

  /** A coarse index off the grid reads displacement 0 with order-0
      sampling (`mode='constant', cval=0`). */
  lemma {:induction false} OffGridReadsZero(interp: Interp, m: Mat<real>, cy: real, cx: real)
    requires !(OnAxis(cy, m.height) && OnAxis(cx, m.width))
    ensures Sample(interp, m, cy, cx, 0, Constant(0.0), true) == 0.0
  {
  }

  /** When the extended grid spans the frame and the field has the grid's
      shape, no pixel of the frame falls off the grid: the constant fill is
      never used. */
  lemma {:induction false} FrameOnGrid(g: GpuField, h: nat, w: nat, r: nat, c: nat)
    requires ValidField(g) && g.s > 0
    requires GridPad.UniformStep(g.ext.ys, g.s as real) && GridPad.UniformStep(g.ext.xs, g.s as real)
    requires g.ext.ys[0] <= 0.0 && g.ext.ys[|g.ext.ys| - 1] >= (h as real) - 1.0
    requires g.ext.xs[0] <= 0.0 && g.ext.xs[|g.ext.xs| - 1] >= (w as real) - 1.0
    requires Shape(g.u) == GridShape(g.ext)
    requires r < h && c < w
    ensures OnAxis(CoarseIndex(r, g.ext.ys[0], g.s), g.u.height)
    ensures OnAxis(CoarseIndex(c, g.ext.xs[0], g.s), g.u.width)
  {
    GridPad.UniformCovers(g.ext.ys, g.s as real, r, h);
    GridPad.UniformCovers(g.ext.xs, g.s as real, c, w);
  }

  /** With order-0 frame sampling and grey levels in `[0, 255]`, every
      output pixel is one of the frame's grey levels. */
  lemma {:induction false} GpuPixelIsFramePixel(interp: Interp, f: Mat<real>, g: GpuField, order2: nat, r: nat, c: nat)
    requires ValidField(g) && InBounds(f, r, c)
    requires forall i, j | InBounds(f, i, j) :: 0.0 <= At(f, i, j) < 256.0 && At(f, i, j) == (At(f, i, j).Floor) as real
    ensures exists i, j | InBounds(f, i, j) :: GpuPixel(interp, f, g, 0, order2, r, c) as real == At(f, i, j)
  {
    var cy := CoarseIndex(r, g.ext.ys[0], g.s);
    var cx := CoarseIndex(c, g.ext.xs[0], g.s);
    var ut := Sample(interp, g.u, cy, cx, order2, Constant(0.0), true);
    var vt := Sample(interp, g.v, cy, cx, order2, Constant(0.0), true);
    var i := Clamp(Round((r as real) - vt), f.height);
    var j := Clamp(Round((c as real) + ut), f.width);
    assert InBounds(f, i, j);
    assert GpuPixel(interp, f, g, 0, order2, r, c) == At(f, i, j).Floor;
  }
}
