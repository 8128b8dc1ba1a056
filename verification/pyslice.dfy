/** Python's basic slicing `s[lo:hi]` (step 1) on sequences: negative bounds
    count from the end, and bounds are clamped into `[0, len]`. */
module PySlice {

  /** Normalises one slice bound against a length `n`, as CPython does. */
  function Bound(n: nat, i: int): (b: nat)
    ensures b <= n
    ensures 0 <= i <= n ==> b == i
    ensures -(n as int) <= i < 0 ==> b == n + i
    ensures i < -(n as int) ==> b == 0
    ensures i > n ==> b == n
  {
    if i < 0 then (if i + n < 0 then 0 else i + n)
    else if i > n then n
    else i
  }

  /** Length of `s[lo:hi]` for a sequence of length `n`. */
  function SliceLen(n: nat, lo: int, hi: int): (k: nat)
    ensures k <= n
    ensures k == 0 <==> Bound(n, hi) <= Bound(n, lo)
  {
    if Bound(n, lo) <= Bound(n, hi) then Bound(n, hi) - Bound(n, lo) else 0
  }

  /** `s[lo:hi]`. */
  function Slice<T>(s: seq<T>, lo: int, hi: int): (r: seq<T>)
    ensures |r| == SliceLen(|s|, lo, hi)
    ensures forall k | 0 <= k < |r| :: r[k] == s[Bound(|s|, lo) + k]
  {
    var a := Bound(|s|, lo);
    var b := Bound(|s|, hi);
    if a <= b then s[a..b] else []
  }

  /** A slice whose upper bound is written `-0` is `s[lo:0]`: it is empty
      whatever `lo` is, although `-k` for `k >= 1` drops the last `k`
      elements. */
  lemma {:induction false} MinusZeroIsEmpty<T>(s: seq<T>, lo: int)
    ensures Slice(s, lo, -0) == []
  {
  }

  /** For `0 <= lo` and `1 <= k`, `s[lo:-k]` keeps exactly the elements
      between the first `lo` and the last `k`. */
  lemma {:induction false} DropBothEnds<T>(s: seq<T>, lo: nat, k: nat)
    requires 1 <= k && lo + k <= |s|
    ensures Slice(s, lo, -(k as int)) == s[lo..|s| - k]
  {
  }
}
