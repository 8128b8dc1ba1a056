/** Grid padding of the GPU pass: the window-centre vectors of the new pass
    are extended by whole steps `s = window_size - overlap` on both sides so
    that they span the frame, the displacement guess is resampled on the
    extended grid, and the padding is stripped again after correlation. */
module GridPad {
  import opened Mats
  import PySlice

  /** `int(np.ceil(q))`. */
  function Ceil(q: real): (c: int)
    ensures c as real - 1.0 < q <= c as real
  {
    -((-q).Floor)
  }

  function Pos(k: int): nat {
    if k < 0 then 0 else k
  }

  /** A uniform centre vector: entry `k` lies `k` steps of `s` after the first. */
  predicate UniformStep(v: seq<real>, s: real) {
    forall k | 0 <= k < |v| :: v[k] == v[0] + (k as real) * s
  }

  /** `(y_add[0], y_add[1])`: the number of whole steps that fit between the
      frame's first pixel and the first centre, and between the last centre
      and the frame's last pixel, rounded up. */
  function PadCounts(cs: seq<real>, extent: nat, s: int): (add: (int, int))
    requires |cs| > 0 && s != 0
  {
    (Ceil(cs[0] / (s as real)), Ceil(((extent as real) - cs[|cs| - 1] - 1.0) / (s as real)))
  }

  /** `c0 - np.arange(k, 0, -1) * s`: `k` centres before `c0`, nearest last. */
  function Prefix(c0: real, k: int, s: int): (p: seq<real>)
    ensures |p| == Pos(k)
    ensures forall j | 0 <= j < |p| :: p[j] == c0 - ((k - j) as real) * (s as real)
  {
    seq(Pos(k), j requires 0 <= j < Pos(k) => c0 - ((k - j) as real) * (s as real))
  }

  /** `cl + np.arange(1, k + 1) * s`: `k` centres after `cl`. */
  function Suffix(cl: real, k: int, s: int): (p: seq<real>)
    ensures |p| == Pos(k)
    ensures forall j | 0 <= j < |p| :: p[j] == cl + ((j + 1) as real) * (s as real)
  {
    seq(Pos(k), j requires 0 <= j < Pos(k) => cl + ((j + 1) as real) * (s as real))
  }

  /** The `np.hstack` of prefix, original centres and suffix. The original
      centres sit in the middle as one contiguous block. */
  function Extend(cs: seq<real>, add: (int, int), s: int): (ext: seq<real>)
    requires |cs| > 0
    ensures |ext| == Pos(add.0) + |cs| + Pos(add.1)
    ensures ext[Pos(add.0)..Pos(add.0) + |cs|] == cs
  {
    var ext := Prefix(cs[0], add.0, s) + cs + Suffix(cs[|cs| - 1], add.1, s);
    assert ext[Pos(add.0)..Pos(add.0) + |cs|] == cs;
    ext
  }

  /** The extended vector of the GPU pass for centres `cs` on an axis of
      `extent` pixels. */
  function Extended(cs: seq<real>, extent: nat, s: int): (ext: seq<real>)
    requires |cs| > 0 && s != 0
    ensures |ext| >= |cs|
  {
    Extend(cs, PadCounts(cs, extent, s), s)
  }

  lemma MulMonotone(a: real, b: real, s: real)
    requires s > 0.0 && a < b
    ensures a * s < b * s
  {
    assert b * s - a * s == (b - a) * s;
  }

  /** `c * s >= q` exactly when `c >= q / s`, for a positive step. */
  lemma ScaleBound(c: real, q: real, s: real)
    requires s > 0.0
    ensures c * s >= q <==> c >= q / s
    ensures c * s > q <==> c > q / s
  {
    var t := q / s;
    assert t * s == q;
    assert c * s - q == (c - t) * s;
    if c > t {
      MulMonotone(t, c, s);
    } else if c < t {
      MulMonotone(c, t, s);
    }
  }

  lemma Distrib(a: real, b: real, s: real)
    ensures (a - b) * s == a * s - b * s
    ensures (a + b) * s == a * s + b * s
  {
  }

  /** Where entry `k` of the extended vector comes from. */
  lemma {:induction false} ExtendAt(cs: seq<real>, add: (int, int), s: int, k: nat)
    requires |cs| > 0 && k < Pos(add.0) + |cs| + Pos(add.1)
    ensures var ext := Extend(cs, add, s);
            var p := Pos(add.0);
            var n := |cs|;
            && (k < p ==> ext[k] == cs[0] - ((p - k) as real) * (s as real))
            && (p <= k < p + n ==> ext[k] == cs[k - p])
            && (p + n <= k ==> ext[k] == cs[n - 1] + ((k - p - n + 1) as real) * (s as real))
  {
    var p := Pos(add.0);
    if k < p {
      ExtendPrefixAt(cs, add, s, k);
    } else if k < p + |cs| {
      ExtendBlockAt(cs, add, s, k);
    } else {
      ExtendSuffixAt(cs, add, s, k);
    }
  }

  lemma {:induction false} ExtendPrefixAt(cs: seq<real>, add: (int, int), s: int, k: nat)
    requires |cs| > 0 && k < Pos(add.0)
    ensures Extend(cs, add, s)[k] == cs[0] - ((Pos(add.0) - k) as real) * (s as real)
  {
    var pre := Prefix(cs[0], add.0, s);
    assert Extend(cs, add, s) == pre + cs + Suffix(cs[|cs| - 1], add.1, s);
    assert (pre + cs + Suffix(cs[|cs| - 1], add.1, s))[k] == pre[k];
  }

  lemma {:induction false} ExtendBlockAt(cs: seq<real>, add: (int, int), s: int, k: nat)
    requires |cs| > 0 && Pos(add.0) <= k < Pos(add.0) + |cs|
    ensures Extend(cs, add, s)[k] == cs[k - Pos(add.0)]
  {
    var ext := Extend(cs, add, s);
    assert ext[k] == ext[Pos(add.0)..Pos(add.0) + |cs|][k - Pos(add.0)];
  }

  lemma {:induction false} ExtendSuffixAt(cs: seq<real>, add: (int, int), s: int, k: nat)
    requires |cs| > 0 && Pos(add.0) + |cs| <= k < Pos(add.0) + |cs| + Pos(add.1)
    ensures Extend(cs, add, s)[k] == cs[|cs| - 1] + ((k - Pos(add.0) - |cs| + 1) as real) * (s as real)
  {
    var pre := Prefix(cs[0], add.0, s);
    var suf := Suffix(cs[|cs| - 1], add.1, s);
    assert Extend(cs, add, s) == pre + cs + suf;
    assert (pre + cs + suf)[k] == suf[k - |pre| - |cs|];
  }

  /** The three closed forms of `ExtendAt` agree with `e0 + k * s`. */
  lemma PrefixArith(c0: real, p: real, k: real, s: real)
    ensures c0 - (p - k) * s == (c0 - p * s) + k * s
  {
    Distrib(p, k, s);
  }

  lemma BlockArith(c0: real, p: real, k: real, s: real)
    ensures c0 + (k - p) * s == (c0 - p * s) + k * s
  {
    Distrib(k, p, s);
  }

  lemma SuffixArith(c0: real, n: real, p: real, k: real, s: real)
    ensures (c0 + (n - 1.0) * s) + (k - p - n + 1.0) * s == (c0 - p * s) + k * s
  {
    Distrib(n - 1.0, k - p - n + 1.0, s);
    Distrib(k, p, s);
  }

  /** Extending a uniform vector keeps it uniform with the same step. */
  lemma {:induction false} ExtendUniform(cs: seq<real>, add: (int, int), s: int)
    requires |cs| > 0 && UniformStep(cs, s as real)
    ensures var ext := Extend(cs, add, s);
            && ext[0] == cs[0] - (Pos(add.0) as real) * (s as real)
            && UniformStep(ext, s as real)
  {
    var ext := Extend(cs, add, s);
    var e0 := cs[0] - (Pos(add.0) as real) * (s as real);
    forall k | 0 <= k < |ext|
      ensures ext[k] == e0 + (k as real) * (s as real)
    {
      ExtendEntry(cs, add, s, k);
    }
    ExtendEntry(cs, add, s, 0);
  }

  /** One entry of `ExtendUniform`. */
  lemma {:induction false} ExtendEntry(cs: seq<real>, add: (int, int), s: int, k: nat)
    requires |cs| > 0 && UniformStep(cs, s as real) && k < |Extend(cs, add, s)|
    ensures Extend(cs, add, s)[k] == (cs[0] - (Pos(add.0) as real) * (s as real)) + (k as real) * (s as real)
  {
    ExtendAt(cs, add, s, k);
    var e := Extend(cs, add, s)[k];
    var p := Pos(add.0);
    var n := |cs|;
    if k < p {
      PrefixEntry(cs[0], p, k, s as real, e);
    } else if k < p + n {
      UniformAt(cs, s as real, k - p);
      BlockEntry(cs[0], p, k, s as real, e);
    } else {
      UniformAt(cs, s as real, n - 1);
      SuffixEntry(cs[0], n, p, k, s as real, e);
    }
  }

  lemma PrefixEntry(c0: real, p: int, k: int, sr: real, e: real)
    requires e == c0 - ((p - k) as real) * sr
    ensures e == (c0 - (p as real) * sr) + (k as real) * sr
  {
    assert ((p - k) as real) == p as real - k as real;
    PrefixArith(c0, p as real, k as real, sr);
  }

  lemma BlockEntry(c0: real, p: int, k: int, sr: real, e: real)
    requires e == c0 + ((k - p) as real) * sr
    ensures e == (c0 - (p as real) * sr) + (k as real) * sr
  {
    assert ((k - p) as real) == k as real - p as real;
    BlockArith(c0, p as real, k as real, sr);
  }

  lemma SuffixEntry(c0: real, n: int, p: int, k: int, sr: real, e: real)
    requires e == (c0 + ((n - 1) as real) * sr) + ((k - p - n + 1) as real) * sr
    ensures e == (c0 - (p as real) * sr) + (k as real) * sr
  {
    assert ((n - 1) as real) == n as real - 1.0;
    assert ((k - p - n + 1) as real) == k as real - p as real - n as real + 1.0;
    SuffixArith(c0, n as real, p as real, k as real, sr);
  }

  /** A uniform vector with a positive step is strictly increasing, and
      consecutive entries differ by exactly the step. */
  lemma {:induction false} UniformIncreasing(v: seq<real>, s: int)
    requires s > 0 && UniformStep(v, s as real)
    ensures forall j, k | 0 <= j < k < |v| :: v[j] < v[k]
    ensures forall k | 0 <= k < |v| - 1 :: v[k + 1] - v[k] == s as real
  {
    forall j, k | 0 <= j < k < |v|
      ensures v[j] < v[k]
    {
      UniformPair(v, s as real, j, k);
    }
    forall k | 0 <= k < |v| - 1
      ensures v[k + 1] - v[k] == s as real
    {
      UniformAt(v, s as real, k);
      UniformAt(v, s as real, k + 1);
      assert (k + 1) as real == k as real + 1.0;
      StepDiff(v[0], k as real, s as real);
    }
  }

  lemma UniformPair(v: seq<real>, s: real, j: nat, k: nat)
    requires s > 0.0 && UniformStep(v, s) && j < k < |v|
    ensures v[j] < v[k]
  {
    UniformAt(v, s, j);
    UniformAt(v, s, k);
    StepOrder(v[0], j as real, k as real, s);
  }

  lemma StepOrder(a: real, j: real, k: real, s: real)
    requires j < k && s > 0.0
    ensures a + j * s < a + k * s
  {
    MulMonotone(j, k, s);
  }

  lemma StepDiff(a: real, k: real, s: real)
    ensures (a + (k + 1.0) * s) - (a + k * s) == s
  {
    Distrib(k, 1.0, s);
  }

  /** The extended vector starts in `(-s, 0]` when the first centre lies
      after `-s` (in particular when it is not negative). */
  lemma {:induction false} ExtendStart(cs: seq<real>, extent: nat, s: int)
    requires |cs| > 0 && s > 0 && UniformStep(cs, s as real)
    requires cs[0] > -(s as real)
    ensures var ext := Extended(cs, extent, s);
            -(s as real) < ext[0] <= 0.0
  {
    var add := PadCounts(cs, extent, s);
    var k := add.0;
    var sr := s as real;
    ExtendUniform(cs, add, s);
    assert k as real - 1.0 < cs[0] / sr <= k as real;
    if k >= 1 {
      ScaleBound(k as real, cs[0], sr);
      ScaleBound(k as real - 1.0, cs[0], sr);
      assert (k as real - 1.0) * sr == (k as real) * sr - sr;
    } else {
      ScaleBound(0.0, cs[0], sr);
    }
  }

  /** The extended vector ends at or after the last pixel `extent - 1`, and
      less than a step past it when it had to be extended at all. */
  lemma {:induction false} ExtendEnd(cs: seq<real>, extent: nat, s: int)
    requires |cs| > 0 && s > 0 && UniformStep(cs, s as real)
    ensures var ext := Extended(cs, extent, s);
            && ext[|ext| - 1] >= (extent as real) - 1.0
            && (cs[|cs| - 1] < (extent as real) - 1.0 ==> ext[|ext| - 1] < (extent as real) - 1.0 + (s as real))
  {
    var add := PadCounts(cs, extent, s);
    var ext := Extended(cs, extent, s);
    var k := add.1;
    var cl := cs[|cs| - 1];
    if k >= 1 {
      ExtendSuffixAt(cs, add, s, |ext| - 1);
      assert (|ext| - 1 - Pos(add.0) - |cs| + 1) == k;
    } else {
      ExtendBlockAt(cs, add, s, |ext| - 1);
    }
    EndArith(cl, extent as real, k, s as real, ext[|ext| - 1]);
  }

  /** The arithmetic of `ExtendEnd`: `e` is the last centre `cl` moved by
      `k` steps, with `k` the rounded-up number of steps to the last pixel. */
  lemma EndArith(cl: real, extent: real, k: int, sr: real, e: real)
    requires sr > 0.0 && k as real - 1.0 < (extent - cl - 1.0) / sr <= k as real
    requires (k >= 1 ==> e == cl + (k as real) * sr) && (k < 1 ==> e == cl)
    ensures e >= extent - 1.0
    ensures cl < extent - 1.0 ==> e < extent - 1.0 + sr
  {
    var q := extent - cl - 1.0;
    if k >= 1 {
      ScaleBound(k as real, q, sr);
      ScaleBound(k as real - 1.0, q, sr);
      assert (k as real - 1.0) * sr == (k as real) * sr - sr;
    } else {
      ScaleBound(0.0, q, sr);
    }
  }

  /** The trailing count is at least one exactly when the last centre lies
      before the frame's last pixel. */
  lemma {:induction false} TrailingCountPositive(cs: seq<real>, extent: nat, s: int)
    requires |cs| > 0 && s > 0
    ensures PadCounts(cs, extent, s).1 >= 1 <==> cs[|cs| - 1] < (extent as real) - 1.0
  {
    var q := (extent as real) - cs[|cs| - 1] - 1.0;
    ScaleBound(0.0, q, s as real);
  }

  /** The leading count is at least one exactly when the first centre lies
      after the frame's first pixel. */
  lemma {:induction false} LeadingCountPositive(cs: seq<real>, extent: nat, s: int)
    requires |cs| > 0 && s > 0
    ensures PadCounts(cs, extent, s).0 >= 1 <==> cs[0] > 0.0
  {
    ScaleBound(0.0, cs[0], s as real);
  }

  /** Every pixel `p` of the axis has a coarse index `(p - ext[0]) / s` on
      the extended grid's extent `[0, |ext| - 1]`. */
  lemma {:induction false} ExtendedCovers(cs: seq<real>, extent: nat, s: int, p: nat)
    requires |cs| > 0 && s > 0 && UniformStep(cs, s as real)
    requires cs[0] > -(s as real)
    requires p < extent
    ensures var ext := Extended(cs, extent, s);
            0.0 <= ((p as real) - ext[0]) / (s as real) <= (|ext| as real) - 1.0
  {
    var ext := Extended(cs, extent, s);
    ExtendStart(cs, extent, s);
    ExtendEnd(cs, extent, s);
    ExtendUniform(cs, PadCounts(cs, extent, s), s);
    UniformCovers(ext, s as real, p, extent);
  }

  /** A uniform vector from at most `0` to at least `extent - 1` gives every
      pixel of the axis a coarse index on its extent. */
  lemma {:induction false} UniformCovers(ext: seq<real>, s: real, p: nat, extent: nat)
    requires |ext| > 0 && s > 0.0 && UniformStep(ext, s)
    requires ext[0] <= 0.0 && ext[|ext| - 1] >= (extent as real) - 1.0
    requires p < extent
    ensures 0.0 <= ((p as real) - ext[0]) / s <= (|ext| as real) - 1.0
  {
    var n := |ext| - 1;
    UniformAt(ext, s, n);
    CoverArith(ext[0], ext[n], n as real, s, p as real, extent as real);
  }

  lemma UniformAt(v: seq<real>, s: real, k: nat)
    requires UniformStep(v, s) && k < |v|
    ensures v[k] == v[0] + (k as real) * s
  {
  }

  lemma CoverArith(e0: real, el: real, n: real, s: real, p: real, extent: real)
    requires s > 0.0 && e0 <= 0.0 && 0.0 <= p <= extent - 1.0 <= el && el == e0 + n * s
    ensures 0.0 <= (p - e0) / s <= n
  {
    ScaleBound(n, p - e0, s);
    ScaleBound(0.0, p - e0, s);
  }

  /** A pixel on node `k` of a uniform grid has coarse index exactly `k`. */
  lemma {:induction false} NodeIndex(ext: seq<real>, s: int, k: nat)
    requires s != 0 && UniformStep(ext, s as real) && k < |ext|
    ensures (ext[k] - ext[0]) / (s as real) == k as real
  {
  }

  /** The un-padding slice as written, `v[add[0] : -add[1]]`. */
  function StripAsWritten<T>(v: seq<T>, add: (int, int)): (r: seq<T>)
    ensures add.1 == 0 ==> r == []
  {
    PySlice.MinusZeroIsEmpty(v, add.0);
    PySlice.Slice(v, add.0, -add.1)
  }

  /** The un-padding slice as intended, `v[add[0] : len(v) - add[1]]`, with
      the counts that were actually added. */
  function Strip<T>(v: seq<T>, add: (int, int)): (r: seq<T>)
    requires Pos(add.0) + Pos(add.1) <= |v|
    ensures |r| == |v| - Pos(add.0) - Pos(add.1)
    ensures forall k | 0 <= k < |r| :: r[k] == v[Pos(add.0) + k]
  {
    v[Pos(add.0)..|v| - Pos(add.1)]
  }

  /** Stripping what was added recovers the original centres. */
  lemma {:induction false} StripRecovers(cs: seq<real>, add: (int, int), s: int)
    requires |cs| > 0
    ensures Strip(Extend(cs, add, s), add) == cs
  {
    var ext := Extend(cs, add, s);
    assert Strip(ext, add) == ext[Pos(add.0)..Pos(add.0) + |cs|];
  }

  /** The slice as written agrees with the intended one when both counts are
      non-negative and the trailing count is at least one. */
  lemma {:induction false} StripAsWrittenAgrees<T>(v: seq<T>, add: (int, int))
    requires 0 <= add.0 && 1 <= add.1 && add.0 + add.1 <= |v|
    ensures StripAsWritten(v, add) == Strip(v, add)
  {
    PySlice.DropBothEnds(v, add.0, add.1);
  }

  /** A frame of 4 rows, windows of 2 pixels without overlap: the centres are
      1 and 3, the last centre is on the last pixel, so the trailing count is
      0 and the slice as written is empty, while the intended strip gives the
      centres back. */
  lemma EmptyStripWitness()
    ensures var cs := [1.0, 3.0];
            var add := PadCounts(cs, 4, 2);
            && add == (1, 0)
            && Extended(cs, 4, 2) == [-1.0, 1.0, 3.0]
            && StripAsWritten(Extended(cs, 4, 2), add) == []
            && Strip(Extended(cs, 4, 2), add) == cs
  {
    var cs := [1.0, 3.0];
    var add := PadCounts(cs, 4, 2);
    assert add == (1, 0);
    var ext := Extended(cs, 4, 2);
    assert Prefix(1.0, 1, 2) == [-1.0];
    assert Suffix(3.0, 0, 2) == [];
    assert ext == [-1.0, 1.0, 3.0];
    StripRecovers(cs, add, 2);
  }

  /** `m[ya[0] : -ya[1], xa[0] : -xa[1]]` as written. */
  function StripMatAsWritten<T>(m: Mat<T>, ya: (int, int), xa: (int, int)): (r: Mat<T>)
    ensures ya.1 == 0 ==> r.height == 0
    ensures xa.1 == 0 ==> r.width == 0
  {
    Block(m, ya.0, -ya.1, xa.0, -xa.1)
  }

  /** The intended matrix strip, removing exactly the added rows and columns. */
  function StripMat<T>(m: Mat<T>, ya: (int, int), xa: (int, int)): (r: Mat<T>)
    requires Pos(ya.0) + Pos(ya.1) <= m.height && Pos(xa.0) + Pos(xa.1) <= m.width
    ensures Shape(r) == (m.height - Pos(ya.0) - Pos(ya.1), m.width - Pos(xa.0) - Pos(xa.1))
    ensures forall i, j | InBounds(r, i, j) :: At(r, i, j) == At(m, i + Pos(ya.0), j + Pos(xa.0))
  {
    Block(m, Pos(ya.0), m.height - Pos(ya.1), Pos(xa.0), m.width - Pos(xa.1))
  }

  /** A field resampled on the extended grid, once stripped, has the shape
      of the unpadded grid, so it can be added to the correlation output. */
  lemma {:induction false} StripMatShape<T>(m: Mat<T>, ys: seq<real>, xs: seq<real>, ya: (int, int), xa: (int, int), s: int)
    requires |ys| > 0 && |xs| > 0
    requires Shape(m) == (|Extend(ys, ya, s)|, |Extend(xs, xa, s)|)
    ensures Pos(ya.0) + Pos(ya.1) <= m.height && Pos(xa.0) + Pos(xa.1) <= m.width
    ensures Shape(StripMat(m, ya, xa)) == (|ys|, |xs|)
  {
  }

  /** With a zero trailing count the strip as written leaves no rows (or no
      columns), and a field with rows (columns) cannot take `+=` from it. */
  lemma {:induction false} AsWrittenBreaksAccumulation(u: Mat<real>, m: Mat<real>, ya: (int, int), xa: (int, int))
    requires (ya.1 == 0 && u.height > 0) || (xa.1 == 0 && u.width > 0)
    ensures !Broadcastable(u, StripMatAsWritten(m, ya, xa))
  {
  }

  /** With positive trailing counts the strip as written is the intended one. */
  lemma {:induction false} StripMatAsWrittenAgrees<T>(m: Mat<T>, ya: (int, int), xa: (int, int))
    requires 0 <= ya.0 && 1 <= ya.1 && ya.0 + ya.1 <= m.height
    requires 0 <= xa.0 && 1 <= xa.1 && xa.0 + xa.1 <= m.width
    ensures StripMatAsWritten(m, ya, xa) == StripMat(m, ya, xa)
  {
    var a := StripMatAsWritten(m, ya, xa);
    var b := StripMat(m, ya, xa);
    assert Shape(a) == Shape(b);
    Ext(a, b);
  }
}
