/**
 * Calibration from the half-exposed leader and the flat-field: the leader is
 * split into an exposed band and a base (unexposed) band, their mean
 * intensities are measured on both frames, and each band's density is
 * `log10(I0 / I)` per channel.
 */
module Calibration {
  import opened Frames
  import opened Ext

  /** `x` lies exactly half-way between two integers. */
  predicate IsTie(x: real) {
    x - x.Floor as real == 0.5
  }

  /** Python's `round(x)`: the nearest integer, ties to the even one. */
  function Round(x: real): (n: int)
    ensures x - 0.5 <= n as real <= x + 0.5
    ensures IsTie(x) ==> n % 2 == 0
    ensures !IsTie(x) ==> x - 0.5 < n as real < x + 0.5
  {
    var fl := x.Floor;
    var frac := x - fl as real;
    if frac < 0.5 then fl
    else if frac > 0.5 then fl + 1
    else if fl % 2 == 0 then fl
    else fl + 1
  }

  /** Any integer within a half of `x`, and even when `x` is a tie, is `Round(x)`. */
  lemma {:induction false} RoundIsUnique(x: real, n: int)
    requires x - 0.5 <= n as real <= x + 0.5
    requires IsTie(x) ==> n % 2 == 0
    ensures n == Round(x)
  {
    var r := Round(x);
    if !IsTie(x) {
      assert x - 0.5 < n as real < x + 0.5;
    } else {
      assert n == x.Floor || n == x.Floor + 1;
      assert r == x.Floor || r == x.Floor + 1;
    }
  }

  lemma {:induction false} RoundIsMonotone(x: real, y: real)
    requires x <= y
    ensures Round(x) <= Round(y)
  {
  }

  /** Values at least one apart, not both ties, round to different integers. */
  lemma {:induction false} RoundSeparates(x: real, y: real)
    requires x + 1.0 <= y && !(IsTie(x) && IsTie(y))
    ensures Round(x) < Round(y)
  {
  }

  /**
   * The reference bands of an `h x w` leader, as half-open slice bounds: the
   * exposed band is columns `[w/6, 2w/6)`, the base band `[4w/6, 5w/6)`,
   * both over rows `[h/3, 2h/3)`, every bound rounded half to even.
   */
  datatype Bands = Bands(exposedColMin: nat, exposedColMax: nat, baseColMin: nat, baseColMax: nat,
                         rowMin: nat, rowMax: nat)

  function BandsOf(h: nat, w: nat): (b: Bands)
    ensures b.exposedColMin <= b.exposedColMax <= b.baseColMin <= b.baseColMax <= w
    ensures b.rowMin <= b.rowMax <= h
  {
    var wr := w as real;
    var hr := h as real;
    RoundIsMonotone(0.0, wr / 6.0);
    RoundIsMonotone(wr / 6.0, 2.0 * wr / 6.0);
    RoundIsMonotone(2.0 * wr / 6.0, 4.0 * wr / 6.0);
    RoundIsMonotone(4.0 * wr / 6.0, 5.0 * wr / 6.0);
    RoundIsMonotone(5.0 * wr / 6.0, wr);
    RoundIsMonotone(0.0, hr / 3.0);
    RoundIsMonotone(hr / 3.0, 2.0 * hr / 3.0);
    RoundIsMonotone(2.0 * hr / 3.0, hr);
    assert Round(0.0) == 0 && Round(wr) == w && Round(hr) == h;
    Bands(Round(wr / 6.0), Round(2.0 * wr / 6.0), Round(4.0 * wr / 6.0), Round(5.0 * wr / 6.0),
          Round(hr / 3.0), Round(2.0 * hr / 3.0))
  }


  /** A third of an integer is never half-way between integers. */
  lemma {:induction false} ThirdsAreNoTies(m: nat)
    ensures !IsTie(m as real / 3.0)
  {
    var q, r := m / 3, m % 3;
    var x := m as real / 3.0;
    assert m as real == 3.0 * q as real + r as real;
    assert q as real <= x < q as real + 1.0;
    assert x.Floor == q;
    assert x - q as real == r as real / 3.0;
  }

  /** The reference rows `[h/3, 2h/3)` of a leader with `h >= 1` rows are empty exactly when `h == 2`. */
  lemma {:induction false} RowBandEmptyIff(h: nat)
    requires h >= 1
    ensures BandsOf(h, 0).rowMin < BandsOf(h, 0).rowMax <==> h != 2
  {
    var hr := h as real;
    if h == 1 {
      assert Round(1.0 / 3.0) == 0 && Round(2.0 / 3.0) == 1;
    } else if h == 2 {
      assert Round(2.0 / 3.0) == 1 && Round(4.0 / 3.0) == 1;
    } else {
      ThirdsAreNoTies(h);
      RoundSeparates(hr / 3.0, 2.0 * hr / 3.0);
    }
  }
  /**
   * Both reference column bands of a leader with `w >= 1` columns hold a
   * column exactly when `w` is not 1, 3 or 4.
   */
  lemma {:induction false} ColumnBandsEmptyIff(w: nat)
    requires w >= 1
    ensures (BandsOf(0, w).exposedColMin < BandsOf(0, w).exposedColMax
             && BandsOf(0, w).baseColMin < BandsOf(0, w).baseColMax) <==> w != 1 && w != 3 && w != 4
  {
    var wr := w as real;
    if w == 1 {
      assert Round(1.0 / 6.0) == 0 && Round(2.0 / 6.0) == 0;
    } else if w == 2 {
      assert Round(2.0 / 6.0) == 0 && Round(4.0 / 6.0) == 1;
      assert Round(8.0 / 6.0) == 1 && Round(10.0 / 6.0) == 2;
    } else if w == 3 {
      assert Round(12.0 / 6.0) == 2 && Round(15.0 / 6.0) == 2;
    } else if w == 4 {
      assert Round(4.0 / 6.0) == 1 && Round(8.0 / 6.0) == 1;
    } else if w == 5 {
      assert Round(5.0 / 6.0) == 1 && Round(10.0 / 6.0) == 2;
      assert Round(20.0 / 6.0) == 3 && Round(25.0 / 6.0) == 4;
    } else {
      ThirdsAreNoTies(w);
      ThirdsAreNoTies(2 * w);
      assert 2.0 * wr / 6.0 == wr / 3.0 && 4.0 * wr / 6.0 == (2 * w) as real / 3.0;
      RoundSeparates(wr / 6.0, 2.0 * wr / 6.0);
      RoundSeparates(4.0 * wr / 6.0, 5.0 * wr / 6.0);
    }
  }

  /** Every pixel of the region has at least `c` channels. */
  predicate HasChannels(region: Frame<real>, c: nat) {
    forall y, x :: 0 <= y < |region| && 0 <= x < |region[y]| ==> c <= |region[y][x]|
  }

  /** The number of pixels in the region. */
  function PixelCount(region: Frame<real>): nat {
    if region == [] then 0 else |region[0]| + PixelCount(region[1..])
  }

  /** Channel `k` of every pixel, row after row (numpy's flattening order). */
  function Samples(region: Frame<real>, k: nat): (s: seq<real>)
    requires HasChannels(region, k + 1)
    ensures |s| == PixelCount(region)
  {
    if region == [] then []
    else
      var row := region[0];
      assert HasChannels(region[1..], k + 1);
      seq(|row|, x requires 0 <= x < |row| => row[x][k]) + Samples(region[1..], k)
  }

  /**
   * `np.mean(region[..., k])`: the sum over the number of pixels, and NaN
   * for an empty region (numpy's mean of an empty slice).
   */
  function ChannelMean(region: Frame<real>, k: nat): (v: Value)
    requires HasChannels(region, k + 1)
    ensures v.NaN? <==> PixelCount(region) == 0
    ensures v.NaN? || v.Finite?
  {
    if PixelCount(region) == 0 then NaN
    else Finite(Sum(Samples(region, k)) / PixelCount(region) as real)
  }

  /** `np.mean(region, axis=(0, 1))`: one mean per channel. */
  function Means(region: Frame<real>, channels: nat): (m: seq<Value>)
    requires HasChannels(region, channels)
    ensures |m| == channels
    ensures forall k :: 0 <= k < channels ==> m[k] == ChannelMean(region, k)
  {
    seq(channels, k requires 0 <= k < channels => ChannelMean(region, k))
  }

  /** Bounds on every pixel's channel `k` are bounds on every flattened sample. */
  lemma {:induction false} SamplesBounded(region: Frame<real>, k: nat, lo: real, hi: real)
    requires HasChannels(region, k + 1)
    requires forall y, x :: 0 <= y < |region| && 0 <= x < |region[y]| ==> lo <= region[y][x][k] <= hi
    ensures forall i :: 0 <= i < |Samples(region, k)| ==> lo <= Samples(region, k)[i] <= hi
  {
    if region != [] {
      var rest := region[1..];
      assert HasChannels(rest, k + 1);
      SamplesBounded(rest, k, lo, hi);
      var head := seq(|region[0]|, x requires 0 <= x < |region[0]| => region[0][x][k]);
      assert Samples(region, k) == head + Samples(rest, k);
    }
  }

  /** Lower and upper bounds on the entries bound the sum. */
  lemma {:induction false} SumBounds(s: seq<real>, lo: real, hi: real)
    requires forall i :: 0 <= i < |s| ==> lo <= s[i] <= hi
    ensures |s| as real * lo <= Sum(s) <= |s| as real * hi
  {
    if s != [] {
      SumBounds(s[1..], lo, hi);
    }
  }

  /** `n * lo <= t <= n * hi` with `n > 0` bounds the quotient `t / n`. */
  lemma {:induction false} QuotientBounds(t: real, n: real, lo: real, hi: real)
    requires n > 0.0 && n * lo <= t <= n * hi
    ensures lo <= t / n <= hi
  {
    var q := t / n;
    assert q * n == t;
  }

  /** The mean of a non-empty region lies between the smallest and largest sample. */
  lemma {:induction false} MeanWithinBounds(region: Frame<real>, k: nat, lo: real, hi: real)
    requires HasChannels(region, k + 1) && PixelCount(region) > 0
    requires forall y, x :: 0 <= y < |region| && 0 <= x < |region[y]| ==> lo <= region[y][x][k] <= hi
    ensures ChannelMean(region, k).Finite?
    ensures lo <= ChannelMean(region, k).r <= hi
  {
    var s := Samples(region, k);
    SamplesBounded(region, k, lo, hi);
    SumBounds(s, lo, hi);
    QuotientBounds(Sum(s), |s| as real, lo, hi);
  }

  /** A non-empty region with channel `k` equal to `v` everywhere has mean `v`. */
  lemma {:induction false} MeanOfUniformRegion(region: Frame<real>, k: nat, v: real)
    requires HasChannels(region, k + 1) && PixelCount(region) > 0
    requires forall y, x :: 0 <= y < |region| && 0 <= x < |region[y]| ==> region[y][x][k] == v
    ensures ChannelMean(region, k) == Finite(v)
  {
    MeanWithinBounds(region, k, v, v);
  }
  /** A sub-frame's pixels are pixels of the frame, so it keeps their channels. */
  lemma {:induction false} SubFrameHasChannels(f: Frame<real>, c: nat, r0: nat, r1: nat, c0: nat, c1: nat)
    requires HasChannels(f, c)
    ensures HasChannels(SubFrame(f, r0, r1, c0, c1), c)
  {
    var r := SubFrame(f, r0, r1, c0, c1);
    forall y, x | 0 <= y < |r| && 0 <= x < |r[y]|
      ensures c <= |r[y][x]|
    {
      assert r[y] == Slice(f[r0 + y], c0, c1);
      assert r[y][x] == f[r0 + y][c0 + x];
    }
  }

  /** A non-empty `h x w x c` array has `c` channels in every pixel. */
  lemma {:induction false} ShapeHasChannels(f: Frame<real>, h: nat, w: nat, c: nat)
    requires HasShape(f, h, w, c) && h > 0 && w > 0
    ensures |f| == h && Width(f) == w && Channels(f) == c && HasChannels(f, c)
  {
  }

  /** An `h x w` frame has `h * w` pixels. */
  lemma {:induction false} PixelCountOfShape(f: Frame<real>, h: nat, w: nat, c: nat)
    requires HasShape(f, h, w, c)
    ensures PixelCount(f) == h * w
  {
    if h > 0 {
      assert HasShape(f[1..], h - 1, w, c);
      PixelCountOfShape(f[1..], h - 1, w, c);
    }
  }

  /** The mean intensity of each channel over one band of a frame. */
  function BandMeans(f: Frame<real>, rows: (nat, nat), cols: (nat, nat), c: nat): (m: seq<Value>)
    requires HasChannels(f, c)
    ensures |m| == c
  {
    SubFrameHasChannels(f, c, rows.0, rows.1, cols.0, cols.1);
    Means(SubFrame(f, rows.0, rows.1, cols.0, cols.1), c)
  }

  /** `np.log10(i0 / i)`, entry by entry. */
  function Densities(i0: seq<Value>, i: seq<Value>, log10: real -> real): (d: seq<Value>)
    requires |i0| == |i|
    ensures |d| == |i|
    ensures forall k :: 0 <= k < |i| ==> d[k] == Log10(log10, Div(i0[k], i[k]))
  {
    seq(|i|, k requires 0 <= k < |i| => Log10(log10, Div(i0[k], i[k])))
  }

  /** The base and exposed densities, one per channel. */
  datatype References = References(base: seq<Value>, exposed: seq<Value>)

  /**
   * Both bands are measured on the leader and on the flat-field with the
   * leader's band bounds; the density of a band is `log10(I0 / I)`.
   */
  function MeasureReferences(flat: Frame<real>, leader: Frame<real>, log10: real -> real): (refs: References)
    requires HasChannels(leader, Channels(leader)) && HasChannels(flat, Channels(leader))
    ensures |refs.base| == Channels(leader) && |refs.exposed| == Channels(leader)
  {
    var c := Channels(leader);
    var b := BandsOf(|leader|, Width(leader));
    var rows := (b.rowMin, b.rowMax);
    var exposed := (b.exposedColMin, b.exposedColMax);
    var base := (b.baseColMin, b.baseColMax);
    References(
      Densities(BandMeans(flat, rows, base, c), BandMeans(leader, rows, base, c), log10),
      Densities(BandMeans(flat, rows, exposed, c), BandMeans(leader, rows, exposed, c), log10))
  }

  /** A band of a frame over which channel `k` is `v` everywhere has mean `v` there. */
  lemma {:induction false} UniformBandMean(f: Frame<real>, h: nat, w: nat, c: nat, rows: (nat, nat), cols: (nat, nat), k: nat, v: real)
    requires HasShape(f, h, w, c) && k < c
    requires rows.0 < rows.1 <= h && cols.0 < cols.1 <= w
    requires forall y, x :: rows.0 <= y < rows.1 && cols.0 <= x < cols.1 ==> f[y][x][k] == v
    ensures HasChannels(f, c)
    ensures BandMeans(f, rows, cols, c)[k] == Finite(v)
  {
    var r := SubFrame(f, rows.0, rows.1, cols.0, cols.1);
    SubFrameInBounds(f, h, w, c, rows.0, rows.1, cols.0, cols.1);
    PixelCountOfShape(r, rows.1 - rows.0, cols.1 - cols.0, c);
    assert forall y, x :: 0 <= y < |r| && 0 <= x < |r[y]| ==> r[y][x][k] == v by {
      forall y, x | 0 <= y < |r| && 0 <= x < |r[y]|
        ensures r[y][x][k] == v
      {
        assert r[y][x] == f[rows.0 + y][cols.0 + x];
      }
    }
    MeanOfUniformRegion(r, k, v);
  }

  /** A band over which the flat-field is `v0 > 0` and the leader `v > 0` in channel `k` has density `log10(v0 / v)`. */
  lemma {:induction false} UniformBandDensity(flat: Frame<real>, leader: Frame<real>, h: nat, w: nat, c: nat,
                                             rows: (nat, nat), cols: (nat, nat), log10: real -> real, k: nat, v0: real, v: real)
    requires HasShape(flat, h, w, c) && HasShape(leader, h, w, c) && k < c
    requires rows.0 < rows.1 <= h && cols.0 < cols.1 <= w && v0 > 0.0 && v > 0.0
    requires forall y, x :: rows.0 <= y < rows.1 && cols.0 <= x < cols.1 ==> flat[y][x][k] == v0 && leader[y][x][k] == v
    ensures HasChannels(flat, c) && HasChannels(leader, c)
    ensures Densities(BandMeans(flat, rows, cols, c), BandMeans(leader, rows, cols, c), log10)[k] == Finite(log10(v0 / v))
  {
    UniformBandMean(flat, h, w, c, rows, cols, k, v0);
    UniformBandMean(leader, h, w, c, rows, cols, k, v);
  }

  /**
   * When, over the base band, channel `k` of the flat-field is `v0 > 0` and of
   * the leader `vb > 0`, the base density of channel `k` is `log10(v0 / vb)`;
   * likewise for the exposed band with `ve`.
   */
  lemma {:induction false} UniformBandsGiveDensities(flat: Frame<real>, leader: Frame<real>, h: nat, w: nat, c: nat,
                                                    log10: real -> real, k: nat, v0: real, vb: real, ve: real)
    requires HasShape(flat, h, w, c) && HasShape(leader, h, w, c) && h > 0 && w > 0 && k < c
    requires var b := BandsOf(h, w);
      && b.rowMin < b.rowMax && b.exposedColMin < b.exposedColMax && b.baseColMin < b.baseColMax
      && v0 > 0.0 && vb > 0.0 && ve > 0.0
      && (forall y, x :: b.rowMin <= y < b.rowMax && b.baseColMin <= x < b.baseColMax ==>
            flat[y][x][k] == v0 && leader[y][x][k] == vb)
      && (forall y, x :: b.rowMin <= y < b.rowMax && b.exposedColMin <= x < b.exposedColMax ==>
            flat[y][x][k] == v0 && leader[y][x][k] == ve)
    ensures HasChannels(leader, Channels(leader)) && HasChannels(flat, Channels(leader))
    ensures MeasureReferences(flat, leader, log10).base[k] == Finite(log10(v0 / vb))
    ensures MeasureReferences(flat, leader, log10).exposed[k] == Finite(log10(v0 / ve))
  {
    ShapeIsRead(leader, h, w, c);
    var b := BandsOf(h, w);
    var rows := (b.rowMin, b.rowMax);
    UniformBandDensity(flat, leader, h, w, c, rows, (b.baseColMin, b.baseColMax), log10, k, v0, vb);
    UniformBandDensity(flat, leader, h, w, c, rows, (b.exposedColMin, b.exposedColMax), log10, k, v0, ve);
  }

  /** Rows that are all empty hold no pixels. */
  lemma {:induction false} EmptyRowsHaveNoPixels(region: Frame<real>)
    requires forall y :: 0 <= y < |region| ==> |region[y]| == 0
    ensures PixelCount(region) == 0
  {
    if region != [] {
      assert forall y :: 0 <= y < |region[1..]| ==> region[1..][y] == region[y + 1];
      EmptyRowsHaveNoPixels(region[1..]);
    }
  }

  /** An empty band has no pixels, so each of its means, and each density measured on it, is NaN. */
  lemma {:induction false} EmptyBandDensity(flat: Frame<real>, leader: Frame<real>, rows: (nat, nat), cols: (nat, nat),
                                           c: nat, log10: real -> real)
    requires HasChannels(flat, c) && HasChannels(leader, c)
    requires rows.0 >= rows.1 || cols.0 >= cols.1
    ensures forall k :: 0 <= k < c ==>
              Densities(BandMeans(flat, rows, cols, c), BandMeans(leader, rows, cols, c), log10)[k] == NaN
  {
    EmptyRowsHaveNoPixels(SubFrame(flat, rows.0, rows.1, cols.0, cols.1));
    EmptyRowsHaveNoPixels(SubFrame(leader, rows.0, rows.1, cols.0, cols.1));
  }

  /** A reference band that is empty gives NaN densities in every channel. */
  lemma {:induction false} EmptyBandGivesNaN(flat: Frame<real>, leader: Frame<real>, log10: real -> real)
    requires HasChannels(leader, Channels(leader)) && HasChannels(flat, Channels(leader))
    ensures var b := BandsOf(|leader|, Width(leader));
      var refs := MeasureReferences(flat, leader, log10);
      && ((b.rowMin == b.rowMax || b.baseColMin == b.baseColMax) ==> forall k :: 0 <= k < |refs.base| ==> refs.base[k] == NaN)
      && ((b.rowMin == b.rowMax || b.exposedColMin == b.exposedColMax) ==> forall k :: 0 <= k < |refs.exposed| ==> refs.exposed[k] == NaN)
  {
    var b := BandsOf(|leader|, Width(leader));
    var c := Channels(leader);
    var rows := (b.rowMin, b.rowMax);
    if b.rowMin == b.rowMax || b.baseColMin == b.baseColMax {
      EmptyBandDensity(flat, leader, rows, (b.baseColMin, b.baseColMax), c, log10);
    }
    if b.rowMin == b.rowMax || b.exposedColMin == b.exposedColMax {
      EmptyBandDensity(flat, leader, rows, (b.exposedColMin, b.exposedColMax), c, log10);
    }
  }

  /** A leader two rows high has an empty row band: every reference density is NaN. */
  lemma {:induction false} TwoRowLeaderGivesNaN(flat: Frame<real>, leader: Frame<real>, log10: real -> real)
    requires HasChannels(leader, Channels(leader)) && HasChannels(flat, Channels(leader))
    requires |leader| == 2
    ensures var refs := MeasureReferences(flat, leader, log10);
      && (forall k :: 0 <= k < |refs.base| ==> refs.base[k] == NaN)
      && (forall k :: 0 <= k < |refs.exposed| ==> refs.exposed[k] == NaN)
  {
    RowBandEmptyIff(2);
    assert BandsOf(2, Width(leader)).rowMin == BandsOf(2, 0).rowMin;
    assert BandsOf(2, Width(leader)).rowMax == BandsOf(2, 0).rowMax;
    EmptyBandGivesNaN(flat, leader, log10);
  }
}
