/**
 * Images as numpy holds them: an array indexed by row, then column, then
 * channel, and numpy's basic slicing with non-negative bounds.
 */
module Frames {

  type Frame<T> = seq<seq<seq<T>>>

  /** One sample of a frame decoded from RAW as 16-bit linear data (numpy `uint16`). */
  type Sample = x: int | 0 <= x < 0x1_0000

  type RawFrame = Frame<Sample>

  function Min(a: int, b: int): int {
    if a <= b then a else b
  }

  /** The sum of a vector's entries (`np.sum` of a 1-D array). */
  function Sum(s: seq<real>): real {
    if s == [] then 0.0 else s[0] + Sum(s[1..])
  }

  /** `f` is an `h x w x c` array. */
  predicate HasShape<T>(f: Frame<T>, h: nat, w: nat, c: nat) {
    && |f| == h
    && (forall y :: 0 <= y < h ==> |f[y]| == w)
    && (forall y, x :: 0 <= y < h && 0 <= x < w ==> |f[y][x]| == c)
  }

  /** The number of columns, read off the first row (numpy's `shape[1]`). */
  function Width<T>(f: Frame<T>): nat {
    if |f| == 0 then 0 else |f[0]|
  }

  /** The number of channels, read off the first pixel (numpy's `shape[2]`). */
  function Channels<T>(f: Frame<T>): nat {
    if |f| == 0 || |f[0]| == 0 then 0 else |f[0][0]|
  }

  /** Every numpy array is rectangular: all rows as wide, all pixels as deep. */
  predicate Rectangular<T>(f: Frame<T>) {
    HasShape(f, |f|, Width(f), Channels(f))
  }

  /** The dimensions of a non-empty array are read off its first row and pixel. */
  lemma {:induction false} ShapeIsRead<T>(f: Frame<T>, h: nat, w: nat, c: nat)
    requires HasShape(f, h, w, c) && h > 0 && w > 0
    ensures Rectangular(f) && Width(f) == w && Channels(f) == c
  {
  }

  /** Two arrays of the same layout, pixel for pixel (element-wise operations keep it). */
  predicate SameLayout<A, B>(a: Frame<A>, b: Frame<B>) {
    && |a| == |b|
    && (forall y :: 0 <= y < |a| ==> |a[y]| == |b[y]|)
    && (forall y, x :: 0 <= y < |a| && 0 <= x < |a[y]| ==> |a[y][x]| == |b[y][x]|)
  }

  /**
   * Python's `s[lo:hi]` for non-negative bounds: bounds past the end are
   * clamped to the length, and an empty range gives an empty sequence.
   */
  function Slice<T>(s: seq<T>, lo: nat, hi: nat): (r: seq<T>)
    ensures |r| == if lo < hi && lo < |s| then Min(hi, |s|) - lo else 0
    ensures forall k :: 0 <= k < |r| ==> r[k] == s[lo + k]
  {
    if lo < hi && lo < |s| then s[lo..Min(hi, |s|)] else []
  }

  /** numpy's `f[r0:r1, c0:c1]`: half-open row and column ranges, all channels kept. */
  function SubFrame<T>(f: Frame<T>, r0: nat, r1: nat, c0: nat, c1: nat): (r: Frame<T>)
    ensures |r| == |Slice(f, r0, r1)|
    ensures forall i :: 0 <= i < |r| ==> r[i] == Slice(f[r0 + i], c0, c1)
  {
    var rows := Slice(f, r0, r1);
    seq(|rows|, i requires 0 <= i < |rows| => Slice(rows[i], c0, c1))
  }

  /**
   * A slice that lies inside an `h x w x c` array has the size of its ranges,
   * the same channel count, and pixel `(i, j)` is pixel `(r0 + i, c0 + j)`.
   */
  lemma {:induction false} SubFrameInBounds<T>(f: Frame<T>, h: nat, w: nat, c: nat, r0: nat, r1: nat, c0: nat, c1: nat)
    requires HasShape(f, h, w, c)
    requires r0 <= r1 <= h && c0 <= c1 <= w
    ensures HasShape(SubFrame(f, r0, r1, c0, c1), r1 - r0, c1 - c0, c)
    ensures forall i, j :: 0 <= i < r1 - r0 && 0 <= j < c1 - c0 ==>
              SubFrame(f, r0, r1, c0, c1)[i][j] == f[r0 + i][c0 + j]
  {
  }

  /** Slicing the full ranges gives the array back. */
  lemma {:induction false} SubFrameWhole<T>(f: Frame<T>, h: nat, w: nat, c: nat)
    requires HasShape(f, h, w, c)
    ensures SubFrame(f, 0, h, 0, w) == f
  {
    var r := SubFrame(f, 0, h, 0, w);
    SubFrameInBounds(f, h, w, c, 0, h, 0, w);
    assert |r| == |f|;
    forall i | 0 <= i < h
      ensures r[i] == f[i]
    {
      assert |r[i]| == |f[i]|;
    }
  }

  /** An array laid out like an `h x w x c` array has that shape too. */
  lemma {:induction false} LayoutKeepsShape<A, B>(a: Frame<A>, b: Frame<B>, h: nat, w: nat, c: nat)
    requires HasShape(a, h, w, c) && SameLayout(a, b)
    ensures HasShape(b, h, w, c)
  {
  }

  /** Two arrays of one shape have the same layout. */
  lemma {:induction false} ShapesGiveLayout<A, B>(a: Frame<A>, b: Frame<B>, h: nat, w: nat, c: nat)
    requires HasShape(a, h, w, c) && HasShape(b, h, w, c)
    ensures SameLayout(a, b)
  {
  }

  /** An element-wise numpy operation: `g` applied to every sample. */
  function Map<A, B>(f: Frame<A>, g: A -> B): (r: Frame<B>)
    ensures SameLayout(f, r)
    ensures forall y, x, k :: 0 <= y < |f| && 0 <= x < |f[y]| && 0 <= k < |f[y][x]| ==> r[y][x][k] == g(f[y][x][k])
  {
    seq(|f|, y requires 0 <= y < |f| =>
      seq(|f[y]|, x requires 0 <= x < |f[y]| =>
        seq(|f[y][x]|, k requires 0 <= k < |f[y][x]| => g(f[y][x][k]))))
  }
}
