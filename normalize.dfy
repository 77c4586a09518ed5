/**
 * Per-sample inversion of a scan: density against the flat-field, rescaling
 * between the base and exposed densities, the output base curve, and the
 * clean-up and 16-bit quantisation before export.
 */
module Normalize {
  import opened Frames
  import opened Ext

  /** `np.log10(flat / scan)` for one sample: the optical density of the film there. */
  function SampleDensity(i0: real, i: real, log10: real -> real): Value {
    Log10(log10, Div(Finite(i0), Finite(i)))
  }

  /** `(d - base) / (exposed - base)`: base density goes to 0, exposed density to 1. */
  function Rescale(d: Value, base: Value, exposed: Value): Value {
    Div(Sub(d, base), Sub(exposed, base))
  }

  /** `(10^(n * gamma) - 1) / (10^gamma - 1)`: the output base curve. */
  function Curve(n: Value, gamma: real, pow10: real -> Value): Value {
    Div(Sub(Pow10(pow10, Scale(n, gamma)), Finite(1.0)), Sub(Pow10(pow10, Finite(gamma)), Finite(1.0)))
  }

  /** `scan[np.isnan(scan)] = 0` followed by `np.clip(scan, 0, 1)`. */
  function Clean(v: Value): (r: real)
    ensures 0.0 <= r <= 1.0
  {
    match v
    case NaN => 0.0
    case PosInf => 1.0
    case NegInf => 0.0
    case Finite(x) => if x < 0.0 then 0.0 else if x > 1.0 then 1.0 else x
  }

  /** `(v * 65535).astype(np.uint16)` for a cleaned sample: truncation toward zero. */
  function ToUint16(v: real): (q: int)
    requires 0.0 <= v <= 1.0
    ensures 0 <= q <= 65535
  {
    assert 0.0 <= v * 65535.0 <= 65535.0;
    (v * 65535.0).Floor
  }

  /** With distinct finite references, rescaling is the affine map taking base to 0 and exposed to 1. */
  lemma {:induction false} RescaleIsAffine(d: real, base: real, exposed: real)
    requires base != exposed
    ensures Rescale(Finite(d), Finite(base), Finite(exposed)) == Finite((d - base) / (exposed - base))
    ensures Rescale(Finite(base), Finite(base), Finite(exposed)) == Finite(0.0)
    ensures Rescale(Finite(exposed), Finite(base), Finite(exposed)) == Finite(1.0)
  {
    var span := exposed - base;
    assert span / span == 1.0;
  }

  /**
   * Equal references make every finite density an infinity of the sign of
   * `d - base`, or NaN at `d == base`; cleaned, that is white above the
   * base and black at or below it.
   */
  lemma {:induction false} RescaleDegenerate(d: real, base: real)
    ensures d > base ==> Rescale(Finite(d), Finite(base), Finite(base)) == PosInf
    ensures d < base ==> Rescale(Finite(d), Finite(base), Finite(base)) == NegInf
    ensures d == base ==> Rescale(Finite(d), Finite(base), Finite(base)) == NaN
    ensures Clean(Rescale(Finite(d), Finite(base), Finite(base))) == if d > base then 1.0 else 0.0
  {
  }

  /** A NaN reference makes every rescaled value NaN, which cleans to black. */
  lemma {:induction false} NaNReferenceGivesBlack(d: Value, other: Value, gamma: real, pow10: real -> Value)
    ensures Rescale(d, NaN, other) == NaN && Rescale(d, other, NaN) == NaN
    ensures Clean(Curve(Rescale(d, NaN, other), gamma, pow10)) == 0.0
    ensures Clean(Curve(Rescale(d, other, NaN), gamma, pow10)) == 0.0
  {
  }

  /** Cleaning keeps values already in `[0, 1]` and maps the special values to 0 or 1. */
  lemma {:induction false} CleanKeepsUnitValues(x: real)
    ensures 0.0 <= x <= 1.0 ==> Clean(Finite(x)) == x
    ensures x < 0.0 ==> Clean(Finite(x)) == 0.0
    ensures x > 1.0 ==> Clean(Finite(x)) == 1.0
    ensures Clean(NaN) == 0.0 && Clean(NegInf) == 0.0 && Clean(PosInf) == 1.0
  {
  }

  /**
   * The curve fixes 0 and 1 whenever `10^0 == 1` and `10^gamma != 1`: base
   * stays black and the exposed leader stays white for every gamma.
   */
  lemma {:induction false} CurveFixesEndpoints(gamma: real, pow10: real -> Value, p: real)
    requires pow10(0.0) == Finite(1.0) && pow10(gamma) == Finite(p) && p != 1.0
    ensures Curve(Finite(0.0), gamma, pow10) == Finite(0.0)
    ensures Curve(Finite(1.0), gamma, pow10) == Finite(1.0)
  {
    assert 0.0 * gamma == 0.0 && 1.0 * gamma == gamma;
  }

  /** 0 quantises to 0 and 1 to 65535, and the quantisation keeps order. */
  lemma {:induction false} QuantisationKeepsOrder(u: real, v: real)
    requires 0.0 <= u <= v <= 1.0
    ensures ToUint16(0.0) == 0 && ToUint16(1.0) == 65535
    ensures ToUint16(u) <= ToUint16(v)
  {
    assert u * 65535.0 <= v * 65535.0;
  }
  /** The inversion of one sample when the scan is not resized. */
  function InvertSample(i0: real, i: real, base: Value, exposed: Value, gamma: real,
                        log10: real -> real, pow10: real -> Value): (r: real)
    ensures 0.0 <= r <= 1.0
  {
    Clean(Curve(Rescale(SampleDensity(i0, i, log10), base, exposed), gamma, pow10))
  }

  /**
   * A scan sample of zero under a lit flat-field has infinite density and
   * comes out white (1), whatever the references, as long as they are
   * finite with the exposed density above the base one and the curve rises.
   */
  lemma {:induction false} ZeroScanSampleIsWhite(i0: real, base: real, exposed: real, gamma: real,
                                                log10: real -> real, pow10: real -> Value, p: real)
    requires i0 > 0.0 && base < exposed && gamma > 0.0 && pow10(gamma) == Finite(p) && p > 1.0
    ensures SampleDensity(i0, 0.0, log10) == PosInf
    ensures InvertSample(i0, 0.0, Finite(base), Finite(exposed), gamma, log10, pow10) == 1.0
  {
  }

  /**
   * A flat-field sample of zero over a lit scan sample has density -inf and
   * comes out black (0) under the same conditions.
   */
  lemma {:induction false} DarkFlatSampleIsBlack(i: real, base: real, exposed: real, gamma: real,
                                                log10: real -> real, pow10: real -> Value, p: real)
    requires i > 0.0 && base < exposed && gamma > 0.0 && pow10(gamma) == Finite(p) && p > 1.0
    ensures SampleDensity(0.0, i, log10) == NegInf
    ensures InvertSample(0.0, i, Finite(base), Finite(exposed), gamma, log10, pow10) == 0.0
  {
    assert Div(Finite(0.0 - 1.0), Finite(p - 1.0)).r < 0.0;
  }

  /** Where the scan lets all the light of the flat-field through, the density is 0 and rescales to `-base / (exposed - base)`. */
  lemma {:induction false} ClearFilmDensity(i: real, base: real, exposed: real, log10: real -> real)
    requires i > 0.0 && log10(1.0) == 0.0 && base != exposed
    ensures SampleDensity(i, i, log10) == Finite(0.0)
    ensures Rescale(SampleDensity(i, i, log10), Finite(base), Finite(exposed)) == Finite(-base / (exposed - base))
  {
    assert i / i == 1.0;
    RescaleIsAffine(0.0, base, exposed);
  }

  /** `np.log10(flat / scan)` over two arrays of the same layout. */
  function DensityFrame(flat: Frame<real>, scan: Frame<real>, log10: real -> real): (d: Frame<Value>)
    requires SameLayout(flat, scan)
    ensures SameLayout(scan, d)
    ensures forall y, x, k :: 0 <= y < |scan| && 0 <= x < |scan[y]| && 0 <= k < |scan[y][x]| ==>
              d[y][x][k] == SampleDensity(flat[y][x][k], scan[y][x][k], log10)
  {
    seq(|scan|, y requires 0 <= y < |scan| =>
      seq(|scan[y]|, x requires 0 <= x < |scan[y]| =>
        seq(|scan[y][x]|, k requires 0 <= k < |scan[y][x]| => SampleDensity(flat[y][x][k], scan[y][x][k], log10))))
  }

  /** Every pixel has exactly `c` channels (numpy broadcasting of a length-`c` vector). */
  predicate ChannelsAre<T>(f: Frame<T>, c: nat) {
    forall y, x :: 0 <= y < |f| && 0 <= x < |f[y]| ==> |f[y][x]| == c
  }

  /** `(d - base) / (exposed - base)` with the references broadcast along the channel axis. */
  function RescaleFrame(d: Frame<Value>, base: seq<Value>, exposed: seq<Value>): (n: Frame<Value>)
    requires |base| == |exposed| && ChannelsAre(d, |base|)
    ensures SameLayout(d, n)
    ensures forall y, x, k :: 0 <= y < |d| && 0 <= x < |d[y]| && 0 <= k < |d[y][x]| ==>
              n[y][x][k] == Rescale(d[y][x][k], base[k], exposed[k])
  {
    seq(|d|, y requires 0 <= y < |d| =>
      seq(|d[y]|, x requires 0 <= x < |d[y]| =>
        seq(|d[y][x]|, k requires 0 <= k < |d[y][x]| => Rescale(d[y][x][k], base[k], exposed[k]))))
  }

  /** The base curve on every sample. */
  function CurveFrame(n: Frame<Value>, gamma: real, pow10: real -> Value): (c: Frame<Value>)
    ensures SameLayout(n, c)
    ensures forall y, x, k :: 0 <= y < |n| && 0 <= x < |n[y]| && 0 <= k < |n[y][x]| ==>
              c[y][x][k] == Curve(n[y][x][k], gamma, pow10)
  {
    Map(n, v => Curve(v, gamma, pow10))
  }

  /** NaN to 0, then clipping: every sample of the result is in `[0, 1]`. */
  function CleanFrame(v: Frame<Value>): (r: Frame<real>)
    ensures SameLayout(v, r)
    ensures forall y, x, k :: 0 <= y < |v| && 0 <= x < |v[y]| && 0 <= k < |v[y][x]| ==>
              r[y][x][k] == Clean(v[y][x][k]) && 0.0 <= r[y][x][k] <= 1.0
  {
    Map(v, Clean)
  }

  /** Every sample lies in `[0, 1]`. */
  predicate InUnitRange(f: Frame<real>) {
    forall y, x, k :: 0 <= y < |f| && 0 <= x < |f[y]| && 0 <= k < |f[y][x]| ==> 0.0 <= f[y][x][k] <= 1.0
  }

  /** `(scan * 65535).astype(np.uint16)`: every sample in `[0, 65535]`. */
  function QuantizeFrame(f: Frame<real>): (q: Frame<int>)
    requires InUnitRange(f)
    ensures SameLayout(f, q)
    ensures forall y, x, k :: 0 <= y < |f| && 0 <= x < |f[y]| && 0 <= k < |f[y][x]| ==>
              q[y][x][k] == ToUint16(f[y][x][k]) && 0 <= q[y][x][k] <= 65535
  {
    seq(|f|, y requires 0 <= y < |f| =>
      seq(|f[y]|, x requires 0 <= x < |f[y]| =>
        seq(|f[y][x]|, k requires 0 <= k < |f[y][x]| => ToUint16(f[y][x][k]))))
  }
}
