/**
 * The field cropper: the bounding box of the flat-field's bright region,
 * computed on the decoded 16-bit flat-field before colour conversion, and the
 * inclusive crop it is applied with to every frame of the roll.
 */
module FieldCrop {
  import opened Frames

  /** A non-empty numpy image: at least one row and one column. */
  predicate NonEmpty<T>(f: Frame<T>) {
    Rectangular(f) && |f| > 0 && Width(f) > 0
  }

  predicate RowsNonEmpty<T>(f: Frame<T>) {
    |f| > 0 && forall y :: 0 <= y < |f| ==> |f[y]| > 0
  }

  /** `np.sum(pixel)`; numpy sums uint16 in a 64-bit accumulator, so nothing wraps. */
  function ChannelSum(p: seq<Sample>): nat {
    if p == [] then 0 else p[0] + ChannelSum(p[1..])
  }

  function RowMax(row: seq<seq<Sample>>): (m: nat)
    requires |row| > 0
    ensures forall x :: 0 <= x < |row| ==> ChannelSum(row[x]) <= m
    ensures exists x :: 0 <= x < |row| && ChannelSum(row[x]) == m
  {
    if |row| == 1 then ChannelSum(row[0])
    else
      var rest := RowMax(row[1..]);
      assert forall x :: 1 <= x < |row| ==> row[x] == row[1..][x - 1];
      if ChannelSum(row[0]) >= rest then ChannelSum(row[0]) else rest
  }

  /** `np.max(np.sum(flat, axis=2))`: the largest channel sum of any pixel. */
  function MaxSum(f: RawFrame): (m: nat)
    requires RowsNonEmpty(f)
    ensures forall y, x :: 0 <= y < |f| && 0 <= x < |f[y]| ==> ChannelSum(f[y][x]) <= m
    ensures exists y, x :: 0 <= y < |f| && 0 <= x < |f[y]| && ChannelSum(f[y][x]) == m
  {
    var first := RowMax(f[0]);
    if |f| == 1 then first
    else
      var rest := MaxSum(f[1..]);
      assert forall y :: 1 <= y < |f| ==> f[y] == f[1..][y - 1];
      if first >= rest then first else rest
  }

  /** The pixel is in the crop mask: its channel sum exceeds half the maximum. */
  predicate Selected(f: RawFrame, y: nat, x: nat)
    requires RowsNonEmpty(f) && y < |f| && x < |f[y]|
  {
    2 * ChannelSum(f[y][x]) > MaxSum(f)
  }

  /**
   * `np.sum(flat, axis=2) > np.max(...)/2`. The sums are integers, so the
   * halved float threshold is exact and the test is `2 * sum > max`.
   */
  function CropMask(f: RawFrame): (mask: seq<seq<bool>>)
    requires RowsNonEmpty(f)
    ensures |mask| == |f|
    ensures forall y :: 0 <= y < |f| ==> |mask[y]| == |f[y]|
  {
    seq(|f|, y requires 0 <= y < |f| =>
      seq(|f[y]|, x requires 0 <= x < |f[y]| => 2 * ChannelSum(f[y][x]) > MaxSum(f)))
  }

  /** `np.any(v)`: the logical-or reduction of a boolean vector. */
  function AnyTrue(v: seq<bool>): bool {
    if v == [] then false else v[0] || AnyTrue(v[1..])
  }

  /** The or of column `x` down the rows of the mask. */
  function AnyInColumn(mask: seq<seq<bool>>, x: nat): bool {
    if mask == [] then false else (x < |mask[0]| && mask[0][x]) || AnyInColumn(mask[1..], x)
  }

  /** `np.any(mask, axis=0)`: one entry per column. */
  function AnyPerColumn(mask: seq<seq<bool>>, w: nat): (r: seq<bool>)
    ensures |r| == w
  {
    seq(w, x requires 0 <= x < w => AnyInColumn(mask, x))
  }

  /** `np.any(mask, axis=1)`: one entry per row. */
  function AnyPerRow(mask: seq<seq<bool>>): (r: seq<bool>)
    ensures |r| == |mask|
  {
    seq(|mask|, y requires 0 <= y < |mask| => AnyTrue(mask[y]))
  }

  /** The reduction is true exactly when some entry is. */
  lemma {:induction false} AnyTrueMeansSomeEntry(v: seq<bool>)
    ensures AnyTrue(v) <==> exists k :: 0 <= k < |v| && v[k]
  {
    if v != [] {
      AnyTrueMeansSomeEntry(v[1..]);
      assert forall k :: 1 <= k < |v| ==> v[k] == v[1..][k - 1];
    }
  }

  /** The column reduction is true exactly when some row has `true` in that column. */
  lemma {:induction false} AnyInColumnMeansSomeRow(mask: seq<seq<bool>>, x: nat)
    ensures AnyInColumn(mask, x) <==> exists y :: 0 <= y < |mask| && x < |mask[y]| && mask[y][x]
  {
    if mask != [] {
      AnyInColumnMeansSomeRow(mask[1..], x);
      assert forall y :: 1 <= y < |mask| ==> mask[y] == mask[1..][y - 1];
    }
  }

  /** The index of the first `true`, or `|v|` when there is none. */
  function FirstTrue(v: seq<bool>): (r: nat)
    ensures r <= |v|
    ensures forall k :: 0 <= k < r ==> !v[k]
    ensures r < |v| ==> v[r]
  {
    if |v| == 0 then 0 else if v[0] then 0 else 1 + FirstTrue(v[1..])
  }

  /**
   * `np.argmax` of a boolean vector: the first `true`, or 0 when all are
   * false (the maximum `false` is first met at index 0).
   */
  function ArgMax(v: seq<bool>): (r: nat)
    requires |v| > 0
    ensures r < |v|
    ensures (exists k :: 0 <= k < |v| && v[k]) ==> v[r] && forall k :: 0 <= k < r ==> !v[k]
    ensures (forall k :: 0 <= k < |v| ==> !v[k]) ==> r == 0
  {
    var i := FirstTrue(v);
    if i < |v| then i else 0
  }

  /** numpy's `v[::-1]`. */
  function Reverse<T>(v: seq<T>): (r: seq<T>)
    ensures |r| == |v|
  {
    seq(|v|, k requires 0 <= k < |v| => v[|v| - 1 - k])
  }

  /**
   * `len(v) - 1 - np.argmax(v[::-1])`: the last `true`, or `len(v) - 1` when
   * all are false.
   */
  function LastTrue(v: seq<bool>): (r: nat)
    requires |v| > 0
    ensures r < |v|
    ensures (exists k :: 0 <= k < |v| && v[k]) ==> v[r] && forall k :: r < k < |v| ==> !v[k]
    ensures (forall k :: 0 <= k < |v| ==> !v[k]) ==> r == |v| - 1
  {
    var rv := Reverse(v);
    assert forall k :: 0 <= k < |v| ==> rv[|v| - 1 - k] == v[k];
    |v| - 1 - ArgMax(rv)
  }

  /** Inclusive row and column bounds of the crop. */
  datatype Box = Box(rowMin: nat, rowMax: nat, colMin: nat, colMax: nat)

  /** The bounding box of the crop mask, exactly as the argmax chain computes it. */
  function FindBox(f: RawFrame): (b: Box)
    requires NonEmpty(f)
  {
    var mask := CropMask(f);
    var cols := AnyPerColumn(mask, Width(f));
    var rows := AnyPerRow(mask);
    Box(ArgMax(rows), LastTrue(rows), ArgMax(cols), LastTrue(cols))
  }

  /** `f[rowMin:rowMax+1, colMin:colMax+1,]`: the inclusive crop, applied to any frame. */
  function CropTo<T>(f: Frame<T>, b: Box): Frame<T> {
    SubFrame(f, b.rowMin, b.rowMax + 1, b.colMin, b.colMax + 1)
  }

  predicate Fits(b: Box, h: nat, w: nat) {
    b.rowMin <= b.rowMax < h && b.colMin <= b.colMax < w
  }

  predicate AnySelected(f: RawFrame)
    requires NonEmpty(f)
  {
    exists y, x :: 0 <= y < |f| && 0 <= x < Width(f) && Selected(f, y, x)
  }

  /** Row `y` holds a selected pixel. */
  predicate RowTouched(f: RawFrame, y: nat)
    requires NonEmpty(f) && y < |f|
  {
    exists x :: 0 <= x < Width(f) && Selected(f, y, x)
  }

  /** Column `x` holds a selected pixel. */
  predicate ColumnTouched(f: RawFrame, x: nat)
    requires NonEmpty(f) && x < Width(f)
  {
    exists y :: 0 <= y < |f| && Selected(f, y, x)
  }

  predicate InBox(b: Box, y: nat, x: nat) {
    b.rowMin <= y <= b.rowMax && b.colMin <= x <= b.colMax
  }

  /** Any value that is at least every channel sum and is attained is the maximum. */
  lemma {:induction false} MaxSumIsTheMaximum(f: RawFrame, m: nat)
    requires RowsNonEmpty(f)
    requires forall y, x :: 0 <= y < |f| && 0 <= x < |f[y]| ==> ChannelSum(f[y][x]) <= m
    requires exists y, x :: 0 <= y < |f| && 0 <= x < |f[y]| && ChannelSum(f[y][x]) == m
    ensures MaxSum(f) == m
  {
  }

  /**
   * The crop mask selects exactly the pixels whose channel sum `s` has
   * `2 * s > m`, where `m` is the largest channel sum of the frame.
   */
  lemma {:induction false} MaskSelectsAboveHalfMax(f: RawFrame, m: nat)
    requires RowsNonEmpty(f)
    requires forall y, x :: 0 <= y < |f| && 0 <= x < |f[y]| ==> ChannelSum(f[y][x]) <= m
    requires exists y, x :: 0 <= y < |f| && 0 <= x < |f[y]| && ChannelSum(f[y][x]) == m
    ensures forall y, x :: 0 <= y < |f| && 0 <= x < |f[y]| ==>
              (CropMask(f)[y][x] <==> 2 * ChannelSum(f[y][x]) > m)
  {
    MaxSumIsTheMaximum(f, m);
  }

  /** The mask is non-empty exactly when some pixel is not black (the maximum sum is positive). */
  lemma {:induction false} MaskNonEmptyIffLit(f: RawFrame)
    requires NonEmpty(f)
    ensures AnySelected(f) <==> MaxSum(f) > 0
    ensures MaxSum(f) == 0 ==> forall y, x :: 0 <= y < |f| && 0 <= x < Width(f) ==> ChannelSum(f[y][x]) == 0
  {
    var m := MaxSum(f);
    var y, x :| 0 <= y < |f| && 0 <= x < |f[y]| && ChannelSum(f[y][x]) == m;
    if m > 0 {
      assert Selected(f, y, x);
    }
  }

  /** The row summary of the mask says whether the row holds a selected pixel. */
  lemma {:induction false} RowSummary(f: RawFrame)
    requires NonEmpty(f)
    ensures |AnyPerRow(CropMask(f))| == |f|
    ensures forall y :: 0 <= y < |f| ==>
              (AnyPerRow(CropMask(f))[y] <==> exists x :: 0 <= x < Width(f) && Selected(f, y, x))
  {
    var mask := CropMask(f);
    forall y | 0 <= y < |f|
      ensures AnyPerRow(mask)[y] <==> exists x :: 0 <= x < Width(f) && Selected(f, y, x)
    {
      AnyTrueMeansSomeEntry(mask[y]);
      assert forall x :: 0 <= x < Width(f) ==> (mask[y][x] <==> Selected(f, y, x));
    }
  }

  /** The column summary of the mask says whether the column holds a selected pixel. */
  lemma {:induction false} ColumnSummary(f: RawFrame)
    requires NonEmpty(f)
    ensures |AnyPerColumn(CropMask(f), Width(f))| == Width(f)
    ensures forall x :: 0 <= x < Width(f) ==>
              (AnyPerColumn(CropMask(f), Width(f))[x] <==> exists y :: 0 <= y < |f| && Selected(f, y, x))
  {
    var mask := CropMask(f);
    forall x | 0 <= x < Width(f)
      ensures AnyPerColumn(mask, Width(f))[x] <==> exists y :: 0 <= y < |f| && Selected(f, y, x)
    {
      AnyInColumnMeansSomeRow(mask, x);
      assert forall y :: 0 <= y < |f| ==> (mask[y][x] <==> Selected(f, y, x));
    }
  }

  /**
   * The box lies in the frame. When the mask is non-empty it is the tightest
   * box around it: every selected pixel lies inside, and each of its four
   * edges touches a selected pixel.
   */
  lemma {:induction false} BoxIsTight(f: RawFrame)
    requires NonEmpty(f)
    ensures Fits(FindBox(f), |f|, Width(f))
    ensures AnySelected(f) ==>
              && (forall y, x :: 0 <= y < |f| && 0 <= x < Width(f) && Selected(f, y, x) ==> InBox(FindBox(f), y, x))
              && RowTouched(f, FindBox(f).rowMin) && RowTouched(f, FindBox(f).rowMax)
              && ColumnTouched(f, FindBox(f).colMin) && ColumnTouched(f, FindBox(f).colMax)
  {
    RowSummary(f);
    ColumnSummary(f);
    var b := FindBox(f);
    var rows := AnyPerRow(CropMask(f));
    var cols := AnyPerColumn(CropMask(f), Width(f));
    if AnySelected(f) {
      var y0, x0 :| 0 <= y0 < |f| && 0 <= x0 < Width(f) && Selected(f, y0, x0);
      assert rows[y0] && cols[x0];
      assert rows[b.rowMin] && rows[b.rowMax] && cols[b.colMin] && cols[b.colMax];
      forall y, x | 0 <= y < |f| && 0 <= x < Width(f) && Selected(f, y, x)
        ensures InBox(b, y, x)
      {
        assert rows[y] && cols[x];
      }
    }
  }

  /** A black frame selects nothing, so no row of its mask holds a pixel. */
  lemma {:induction false} DarkRowsEmpty(f: RawFrame)
    requires NonEmpty(f) && MaxSum(f) == 0
    ensures forall k :: 0 <= k < |AnyPerRow(CropMask(f))| ==> !AnyPerRow(CropMask(f))[k]
  {
    MaskNonEmptyIffLit(f);
    RowSummary(f);
  }

  /** A black frame selects nothing, so no column of its mask holds a pixel. */
  lemma {:induction false} DarkColumnsEmpty(f: RawFrame)
    requires NonEmpty(f) && MaxSum(f) == 0
    ensures forall k :: 0 <= k < |AnyPerColumn(CropMask(f), Width(f))| ==> !AnyPerColumn(CropMask(f), Width(f))[k]
  {
    MaskNonEmptyIffLit(f);
    ColumnSummary(f);
  }

  /**
   * A frame that is black everywhere has an empty mask; the argmax chain then
   * gives the whole frame as the box (not a single pixel), and the crop
   * leaves the frame as it was.
   */
  lemma {:induction false} DarkFrameKeepsWholeFrame(f: RawFrame)
    requires NonEmpty(f)
    requires MaxSum(f) == 0
    ensures FindBox(f) == Box(0, |f| - 1, 0, Width(f) - 1)
    ensures CropTo(f, FindBox(f)) == f
  {
    DarkRowsEmpty(f);
    DarkColumnsEmpty(f);
    OwnBoxKeepsFrame(f);
  }

  /**
   * The crop with a box that fits has `rowMax - rowMin + 1` rows and
   * `colMax - colMin + 1` columns, the same channels, and its pixel `(i, j)` is
   * the frame's pixel `(rowMin + i, colMin + j)`.
   */
  lemma {:induction false} CropShape<T>(f: Frame<T>, b: Box, h: nat, w: nat, c: nat)
    requires HasShape(f, h, w, c) && Fits(b, h, w)
    ensures HasShape(CropTo(f, b), b.rowMax - b.rowMin + 1, b.colMax - b.colMin + 1, c)
    ensures forall i, j :: 0 <= i <= b.rowMax - b.rowMin && 0 <= j <= b.colMax - b.colMin ==>
              CropTo(f, b)[i][j] == f[b.rowMin + i][b.colMin + j]
  {
    SubFrameInBounds(f, h, w, c, b.rowMin, b.rowMax + 1, b.colMin, b.colMax + 1);
  }

  /**
   * A box that fits the frame and holds every selected pixel keeps the
   * brightest pixel (it is selected whenever the frame is not black), hence
   * the crop has the same maximum.
   */
  lemma {:induction false} CropKeepsMaximum(f: RawFrame, b: Box, c: RawFrame)
    requires NonEmpty(f) && MaxSum(f) > 0 && Fits(b, |f|, Width(f))
    requires forall y, x :: 0 <= y < |f| && 0 <= x < Width(f) && Selected(f, y, x) ==> InBox(b, y, x)
    requires c == CropTo(f, b)
    ensures NonEmpty(c)
    ensures |c| == b.rowMax - b.rowMin + 1 && Width(c) == b.colMax - b.colMin + 1
    ensures forall i, j :: 0 <= i < |c| && 0 <= j < Width(c) ==> c[i][j] == f[b.rowMin + i][b.colMin + j]
    ensures MaxSum(c) == MaxSum(f)
    ensures TightCrop(f, b, c)
  {
    CropShape(f, b, |f|, Width(f), Channels(f));
    ShapeIsRead(c, b.rowMax - b.rowMin + 1, b.colMax - b.colMin + 1, Channels(f));
    MaximumCarries(f, b, c);
  }

  /** The maximum carries over to a copy of a region that holds a brightest pixel. */
  lemma {:induction false} MaximumCarries(f: RawFrame, b: Box, c: RawFrame)
    requires NonEmpty(f) && MaxSum(f) > 0 && NonEmpty(c) && Fits(b, |f|, Width(f))
    requires forall y, x :: 0 <= y < |f| && 0 <= x < Width(f) && Selected(f, y, x) ==> InBox(b, y, x)
    requires |c| == b.rowMax - b.rowMin + 1 && Width(c) == b.colMax - b.colMin + 1
    requires forall i, j :: 0 <= i < |c| && 0 <= j < Width(c) ==> c[i][j] == f[b.rowMin + i][b.colMin + j]
    ensures MaxSum(c) == MaxSum(f)
  {
    var m := MaxSum(f);
    assert forall i, j :: 0 <= i < |c| && 0 <= j < |c[i]| ==> ChannelSum(c[i][j]) <= m by {
      forall i, j | 0 <= i < |c| && 0 <= j < |c[i]|
        ensures ChannelSum(c[i][j]) <= m
      {
        assert c[i][j] == f[b.rowMin + i][b.colMin + j];
      }
    }
    assert exists i, j :: 0 <= i < |c| && 0 <= j < |c[i]| && ChannelSum(c[i][j]) == m by {
      var ym, xm :| 0 <= ym < |f| && 0 <= xm < |f[ym]| && ChannelSum(f[ym][xm]) == m;
      assert Selected(f, ym, xm);
      assert c[ym - b.rowMin][xm - b.colMin] == f[ym][xm];
    }
    MaxSumIsTheMaximum(c, m);
  }

  /** A crop pixel is selected exactly when the frame pixel it copies is, once the maxima agree. */
  lemma {:induction false} SelectionCarries(f: RawFrame, c: RawFrame, y: nat, x: nat, i: nat, j: nat)
    requires NonEmpty(f) && NonEmpty(c) && MaxSum(c) == MaxSum(f)
    requires y < |f| && x < Width(f) && i < |c| && j < Width(c) && c[i][j] == f[y][x]
    ensures Selected(c, i, j) == Selected(f, y, x)
  {
  }

  /**
   * `c` is the crop of `f` by a box that fits and holds every selected pixel,
   * and the two have the same maximum.
   */
  predicate TightCrop(f: RawFrame, b: Box, c: RawFrame) {
    && NonEmpty(f) && NonEmpty(c) && Fits(b, |f|, Width(f))
    && |c| == b.rowMax - b.rowMin + 1 && Width(c) == b.colMax - b.colMin + 1
    && (forall i, j :: 0 <= i < |c| && 0 <= j < Width(c) ==> c[i][j] == f[b.rowMin + i][b.colMin + j])
    && MaxSum(c) == MaxSum(f)
    && (forall y, x :: 0 <= y < |f| && 0 <= x < Width(f) && Selected(f, y, x) ==> InBox(b, y, x))
  }

  /** Pixel `(y, x)` of the box is pixel `(y - rowMin, x - colMin)` of the crop. */
  lemma {:induction false} PixelOfTightCrop(f: RawFrame, b: Box, c: RawFrame, y: nat, x: nat, i: nat, j: nat)
    requires TightCrop(f, b, c) && InBox(b, y, x)
    requires i == y - b.rowMin && j == x - b.colMin
    ensures i < |c| && j < Width(c) && c[i][j] == f[y][x]
  {
  }

  /** A row of the frame that holds a selected pixel holds one in the crop too. */
  lemma {:induction false} CropRowTouched(f: RawFrame, b: Box, c: RawFrame, y: nat, i: nat)
    requires TightCrop(f, b, c) && b.rowMin <= y <= b.rowMax && RowTouched(f, y) && i == y - b.rowMin
    ensures RowTouched(c, i)
  {
    var x :| 0 <= x < Width(f) && Selected(f, y, x);
    var j := x - b.colMin;
    assert InBox(b, y, x);
    PixelOfTightCrop(f, b, c, y, x, i, j);
    SelectionCarries(f, c, y, x, i, j);
  }

  /** A column of the frame that holds a selected pixel holds one in the crop too. */
  lemma {:induction false} CropColumnTouched(f: RawFrame, b: Box, c: RawFrame, x: nat, j: nat)
    requires TightCrop(f, b, c) && b.colMin <= x <= b.colMax && ColumnTouched(f, x) && j == x - b.colMin
    ensures ColumnTouched(c, j)
  {
    var y :| 0 <= y < |f| && Selected(f, y, x);
    var i := y - b.rowMin;
    assert InBox(b, y, x);
    PixelOfTightCrop(f, b, c, y, x, i, j);
    SelectionCarries(f, c, y, x, i, j);
  }

  /** A frame whose top and bottom rows each hold a selected pixel spans its box's rows. */
  lemma {:induction false} EdgeRowsGiveBoxRows(c: RawFrame)
    requires NonEmpty(c)
    requires RowTouched(c, 0) && RowTouched(c, |c| - 1)
    ensures FindBox(c).rowMin == 0 && FindBox(c).rowMax == |c| - 1
  {
    BoxIsTight(c);
    var xt :| 0 <= xt < Width(c) && Selected(c, 0, xt);
    var xb :| 0 <= xb < Width(c) && Selected(c, |c| - 1, xb);
    assert InBox(FindBox(c), 0, xt) && InBox(FindBox(c), |c| - 1, xb);
  }

  /** A frame whose first and last columns each hold a selected pixel spans its box's columns. */
  lemma {:induction false} EdgeColumnsGiveBoxColumns(c: RawFrame)
    requires NonEmpty(c)
    requires ColumnTouched(c, 0) && ColumnTouched(c, Width(c) - 1)
    ensures FindBox(c).colMin == 0 && FindBox(c).colMax == Width(c) - 1
  {
    BoxIsTight(c);
    var yl :| 0 <= yl < |c| && Selected(c, yl, 0);
    var yr :| 0 <= yr < |c| && Selected(c, yr, Width(c) - 1);
    assert InBox(FindBox(c), yl, 0) && InBox(FindBox(c), yr, Width(c) - 1);
  }

  /**
   * When the flat-field is not black, its box fits, holds every selected
   * pixel, and each of its edges touches one.
   */
  lemma {:induction false} LitBoxIsTight(f: RawFrame)
    requires NonEmpty(f) && MaxSum(f) > 0
    ensures Fits(FindBox(f), |f|, Width(f))
    ensures forall y, x :: 0 <= y < |f| && 0 <= x < Width(f) && Selected(f, y, x) ==> InBox(FindBox(f), y, x)
    ensures RowTouched(f, FindBox(f).rowMin) && RowTouched(f, FindBox(f).rowMax)
    ensures ColumnTouched(f, FindBox(f).colMin) && ColumnTouched(f, FindBox(f).colMax)
  {
    BoxIsTight(f);
    MaskNonEmptyIffLit(f);
  }

  lemma {:induction false} BoxFromEdges(c: RawFrame)
    requires NonEmpty(c)
    requires FindBox(c).rowMin == 0 && FindBox(c).rowMax == |c| - 1
    requires FindBox(c).colMin == 0 && FindBox(c).colMax == Width(c) - 1
    ensures FindBox(c) == Box(0, |c| - 1, 0, Width(c) - 1)
  {
  }

  /**
   * The crop of a flat-field that is not black is a tight crop, and each edge
   * of the box touches a selected pixel.
   */
  lemma {:induction false} LitCropIsTight(f: RawFrame, b: Box, c: RawFrame)
    requires NonEmpty(f) && MaxSum(f) > 0
    requires b == FindBox(f) && c == CropTo(f, b)
    ensures TightCrop(f, b, c)
    ensures RowTouched(f, b.rowMin) && RowTouched(f, b.rowMax)
    ensures ColumnTouched(f, b.colMin) && ColumnTouched(f, b.colMax)
  {
    LitBoxIsTight(f);
    CropKeepsMaximum(f, b, c);
  }

  /** The top and bottom rows of a tight crop touch a selected pixel when the box's do. */
  lemma {:induction false} TightCropRows(f: RawFrame, b: Box, c: RawFrame)
    requires TightCrop(f, b, c)
    requires RowTouched(f, b.rowMin) && RowTouched(f, b.rowMax)
    ensures RowTouched(c, 0) && RowTouched(c, |c| - 1)
  {
    CropRowTouched(f, b, c, b.rowMin, 0);
    CropRowTouched(f, b, c, b.rowMax, |c| - 1);
  }

  /** The first and last columns of a tight crop touch a selected pixel when the box's do. */
  lemma {:induction false} TightCropColumns(f: RawFrame, b: Box, c: RawFrame)
    requires TightCrop(f, b, c)
    requires ColumnTouched(f, b.colMin) && ColumnTouched(f, b.colMax)
    ensures ColumnTouched(c, 0) && ColumnTouched(c, Width(c) - 1)
  {
    CropColumnTouched(f, b, c, b.colMin, 0);
    CropColumnTouched(f, b, c, b.colMax, Width(c) - 1);
  }

  /** The crop of a flat-field that is not black is its own box. */
  lemma {:induction false} LitCropIsWhole(f: RawFrame, b: Box, c: RawFrame)
    requires NonEmpty(f) && MaxSum(f) > 0
    requires b == FindBox(f) && c == CropTo(f, b)
    ensures NonEmpty(c)
    ensures FindBox(c) == Box(0, |c| - 1, 0, Width(c) - 1)
  {
    LitCropIsTight(f, b, c);
    TightCropRows(f, b, c);
    TightCropColumns(f, b, c);
    EdgeRowsGiveBoxRows(c);
    EdgeColumnsGiveBoxColumns(c);
    BoxFromEdges(c);
  }

  /** A frame that is its own box is left as it was by its crop. */
  lemma {:induction false} OwnBoxKeepsFrame(c: RawFrame)
    requires NonEmpty(c) && FindBox(c) == Box(0, |c| - 1, 0, Width(c) - 1)
    ensures CropTo(c, FindBox(c)) == c
  {
    SubFrameWhole(c, |c|, Width(c), Channels(c));
  }

  /** The crop of any flat-field is its own box. */
  lemma {:induction false} CropIsOwnBox(f: RawFrame)
    requires NonEmpty(f)
    ensures var c := CropTo(f, FindBox(f));
      NonEmpty(c) && FindBox(c) == Box(0, |c| - 1, 0, Width(c) - 1)
  {
    if MaxSum(f) == 0 {
      DarkFrameKeepsWholeFrame(f);
    } else {
      LitCropIsWhole(f, FindBox(f), CropTo(f, FindBox(f)));
    }
  }

  /**
   * Cropping the cropped flat-field again changes nothing: the box of the
   * cropped frame is the whole cropped frame. The brightest pixel is selected
   * and lies in the box, so the maximum and the mask carry over.
   */
  lemma {:induction false} CropIsIdempotent(f: RawFrame)
    requires NonEmpty(f)
    ensures var c := CropTo(f, FindBox(f));
      && NonEmpty(c)
      && FindBox(c) == Box(0, |c| - 1, 0, Width(c) - 1)
      && CropTo(c, FindBox(c)) == c
  {
    CropIsOwnBox(f);
    var c := CropTo(f, FindBox(f));
    OwnBoxKeepsFrame(c);
  }
}
