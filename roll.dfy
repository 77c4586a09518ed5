/**
 * Processing a roll: the first two RAW files of the sorted roll calibrate the
 * inversion (the flat-field gives the crop and the light source, the leader
 * the base and exposed densities), and every later file is inverted with that
 * calibration and written as a 16-bit image.
 */
module Roll {
  import opened Wrappers
  import opened Frames
  import opened Ext
  import opened FieldCrop
  import opened ColorConversion
  import opened Calibration
  import opened Normalize
  import opened Files

  /** The command-line options that reach the processing. */
  datatype Options = Options(
    rawExtension: string,
    gamma: real,
    processRaw: bool,
    processBw: bool,
    noAutoCrop: bool,
    megapixels: real)

  /**
   * What rawpy reports about the files of one roll, shot with one camera at
   * one setting: each file decodes to a `height x width` 16-bit linear camera
   * RGB image, and `cameraToXyz` is the inverse of the file's
   * `rgb_xyz_matrix[0:3,0:3]`, or None when that matrix is singular.
   */
  datatype Camera = Camera(
    height: nat,
    width: nat,
    decode: string -> RawFrame,
    cameraToXyz: string -> Option<Matrix>)
  {
    ghost predicate Valid() {
      && height > 0 && width > 0
      && (forall name :: HasShape(decode(name), height, width, 3))
      && (forall name :: cameraToXyz(name).Some? ==> IsMatrix(cameraToXyz(name).value, 3, 3))
    }
  }

  /**
   * numpy's `log10` and `power(10, .)` on finite values, `np.sqrt`, and
   * `cv2.resize` with area interpolation to a `(width, height)` target.
   */
  datatype Library = Library(
    log10: real -> real,
    pow10: real -> Value,
    sqrt: real -> real,
    resize: (Frame<Value>, nat, nat) -> Frame<Value>)

  /** `sqrt` never gives a negative root of a non-negative number. */
  ghost predicate SqrtIsNonNegative(sqrt: real -> real) {
    forall x :: 0.0 <= x ==> 0.0 <= sqrt(x)
  }

  /** `sqrt` is the square root on the non-negative reals. */
  ghost predicate SqrtIsExact(sqrt: real -> real) {
    SqrtIsNonNegative(sqrt) && forall x :: 0.0 <= x ==> sqrt(x) * sqrt(x) == x
  }

  datatype RollError =
    | TooFewFiles           // `raw_files[0]` or `raw_files[1]` raises IndexError
    | SingularCameraMatrix  // `np.linalg.inv` raises LinAlgError
    | ZeroDimension         // `megapixels*1e6/dimensions[0]/dimensions[1]` divides by zero
    | ScaleUndefined        // a negative ratio has a NaN square root, and `round(nan)` raises ValueError
    | EmptyTarget           // `cv2.resize` refuses a target with a zero or negative side

  /** Whether and how far the inverted scans are scaled down. */
  datatype Resize = Keep | Shrink(width: int, height: int)

  lemma {:induction false} DivideTwice(t: real, h: nat, w: nat)
    requires h > 0 && w > 0
    ensures (h * w) as real == h as real * w as real > 0.0
    ensures t / h as real / w as real == t / (h * w) as real
  {
  }

  lemma {:induction false} QuotientSigns(t: real, a: real)
    requires a > 0.0
    ensures t / a < 0.0 <==> t < 0.0
    ensures t / a >= 1.0 <==> t >= a
  {
    var q := t / a;
    assert q * a == t;
    if q >= 1.0 {
      assert q * a >= 1.0 * a;
    } else {
      assert q * a < 1.0 * a;
    }
  }

  /** `megapixels*1e6/dimensions[0]/dimensions[1]`: the wanted share of the frame's pixel count. */
  function ScaleRatio(mp: real, h: nat, w: nat): (ratio: real)
    requires h > 0 && w > 0
    ensures ratio < 0.0 <==> mp < 0.0
    ensures ratio >= 1.0 <==> mp * 1000000.0 >= (h * w) as real
  {
    DivideTwice(mp * 1000000.0, h, w);
    QuotientSigns(mp * 1000000.0, (h * w) as real);
    mp * 1000000.0 / h as real / w as real
  }

  lemma {:induction false} ScaledBelow(a: real, s: real)
    requires a >= 0.0 && 0.0 <= s < 1.0
    ensures 0.0 <= a * s <= a
  {
    var d := 1.0 - s;
    assert d > 0.0;
    assert a * d >= 0.0;
    assert a * s + a * d == a;
  }

  lemma {:induction false} RoundBetween(x: real, n: nat)
    requires 0.0 <= x <= n as real
    ensures 0 <= Round(x) <= n
  {
  }

  lemma {:induction false} ScaledSideBounds(n: nat, s: real)
    requires 0.0 <= s < 1.0
    ensures 0 <= Round(n as real * s) <= n
  {
    ScaledBelow(n as real, s);
    RoundBetween(n as real * s, n);
  }

  /** `round(n * s)`: a side scaled by a factor in `[0, 1)` is neither negative nor longer than before. */
  function ScaledSide(n: nat, s: real): (r: int)
    ensures 0.0 <= s < 1.0 ==> 0 <= r <= n
  {
    if 0.0 <= s < 1.0 then
      ScaledSideBounds(n, s);
      Round(n as real * s)
    else Round(n as real * s)
  }

  /** The `--mp` plan for an `h x w` frame. */
  function PlanResize(mp: real, h: nat, w: nat, sqrt: real -> real): (r: Result<Resize, RollError>)
    ensures r.Failure? <==> mp != 0.0 && (h == 0 || w == 0 || mp < 0.0)
    ensures r.Failure? ==> r.error == if h == 0 || w == 0 then ZeroDimension else ScaleUndefined
    ensures r == Success(Keep) <==> mp == 0.0 || (mp > 0.0 && h > 0 && w > 0 && sqrt(ScaleRatio(mp, h, w)) >= 1.0)
  {
    if mp == 0.0 then Success(Keep)
    else if h == 0 || w == 0 then Failure(ZeroDimension)
    else
      var ratio := ScaleRatio(mp, h, w);
      if ratio < 0.0 then Failure(ScaleUndefined)
      else
        var s := sqrt(ratio);
        if s >= 1.0 then Success(Keep)
        else Success(Shrink(ScaledSide(w, s), ScaledSide(h, s)))
  }

  lemma {:induction false} RootAtLeastOne(sqrt: real -> real, x: real)
    requires SqrtIsExact(sqrt) && x >= 0.0
    ensures sqrt(x) >= 1.0 <==> x >= 1.0
  {
    var s := sqrt(x);
    if s >= 1.0 {
      assert s * s >= s * 1.0;
    } else {
      assert s * s <= s * 1.0;
    }
  }

  /**
   * With the true square root, the scans are scaled down exactly when a
   * positive megapixel target is below the frame's pixel count.
   */
  lemma {:induction false} ShrinksOnlyBelowTarget(mp: real, h: nat, w: nat, sqrt: real -> real)
    requires SqrtIsExact(sqrt) && h > 0 && w > 0
    ensures var r := PlanResize(mp, h, w, sqrt);
      r.Success? && r.value.Shrink? <==> mp > 0.0 && mp * 1000000.0 < (h * w) as real
  {
    if mp > 0.0 {
      RootAtLeastOne(sqrt, ScaleRatio(mp, h, w));
    }
  }

  /** A shrunk target is never larger than the frame. */
  lemma {:induction false} ShrinkNeverEnlarges(mp: real, h: nat, w: nat, sqrt: real -> real)
    requires SqrtIsNonNegative(sqrt)
    ensures var r := PlanResize(mp, h, w, sqrt);
      r.Success? && r.value.Shrink? ==> 0 <= r.value.width <= w && 0 <= r.value.height <= h
  {
    if mp != 0.0 && h > 0 && w > 0 && ScaleRatio(mp, h, w) >= 0.0 {
      assert 0.0 <= sqrt(ScaleRatio(mp, h, w));
    }
  }

  /** `flat[ymin:ymax+1, xmin:xmax+1,]` when auto-crop is on, the frame as it is otherwise. */
  function CropBy<T>(f: Frame<T>, box: Option<Box>): Frame<T> {
    match box
    case None => f
    case Some(b) => CropTo(f, b)
  }

  function CropRows(cam: Camera, box: Option<Box>): nat {
    match box
    case None => cam.height
    case Some(b) => if b.rowMin <= b.rowMax then b.rowMax - b.rowMin + 1 else 0
  }

  function CropColumns(cam: Camera, box: Option<Box>): nat {
    match box
    case None => cam.width
    case Some(b) => if b.colMin <= b.colMax then b.colMax - b.colMin + 1 else 0
  }

  /** The state computed from the flat-field and the leader before the scans. */
  datatype Setup = Setup(
    box: Option<Box>,
    matrix: Matrix,
    flat: Frame<real>,
    base: seq<Value>,
    exposed: seq<Value>,
    plan: Resize)

  /** The shapes agree: a converted crop of any frame of the roll lines up with the flat-field. */
  predicate Ready(s: Setup, cam: Camera) {
    && (s.box.Some? ==> Fits(s.box.value, cam.height, cam.width))
    && IsMatrix(s.matrix, |s.matrix|, 3)
    && HasShape(s.flat, CropRows(cam, s.box), CropColumns(cam, s.box), |s.matrix|)
    && |s.base| == |s.matrix| && |s.exposed| == |s.matrix|
  }

  /** A decoded frame of the roll as floating point, cropped by a box inside it: it has the box's size. */
  function Decoded(cam: Camera, box: Option<Box>, name: string): (f: Frame<real>)
    requires cam.Valid() && (box.Some? ==> Fits(box.value, cam.height, cam.width))
    ensures HasShape(f, CropRows(cam, box), CropColumns(cam, box), 3)
    ensures SameLayout(CropBy(cam.decode(name), box), f)
    ensures forall y, x, k :: 0 <= y < |f| && 0 <= x < |f[y]| && 0 <= k < |f[y][x]| ==>
              f[y][x][k] == CropBy(cam.decode(name), box)[y][x][k] as real
  {
    var raw := cam.decode(name);
    var h, w := CropRows(cam, box), CropColumns(cam, box);
    assert HasShape(CropBy(raw, box), h, w, 3) by {
      assert HasShape(raw, cam.height, cam.width, 3);
      if box.Some? {
        CropShape(raw, box.value, cam.height, cam.width, 3);
      }
    }
    LayoutKeepsShape(CropBy(raw, box), ToReal(CropBy(raw, box)), h, w, 3);
    ToReal(CropBy(raw, box))
  }

  /** A decoded frame of the roll, cropped by `box` and converted by `m`. */
  function Converted(cam: Camera, box: Option<Box>, m: Matrix, name: string): (f: Frame<real>)
    requires cam.Valid() && (box.Some? ==> Fits(box.value, cam.height, cam.width)) && IsMatrix(m, |m|, 3)
    ensures HasShape(f, CropRows(cam, box), CropColumns(cam, box), |m|)
    ensures forall y, x :: 0 <= y < |f| && 0 <= x < |f[y]| ==>
              f[y][x] == Apply(m, Decoded(cam, box, name)[y][x])
  {
    var r := Decoded(cam, box, name);
    ConvertShape(r, m, CropRows(cam, box), CropColumns(cam, box), 3);
    Convert(r, m)
  }

  /** The crop box of the roll: none with `--noautocrop`, the flat-field's box otherwise. */
  function ChooseBox(noAutoCrop: bool, cam: Camera, flatName: string): (box: Option<Box>)
    requires cam.Valid()
    ensures box.Some? ==> Fits(box.value, cam.height, cam.width)
  {
    var flatRaw := cam.decode(flatName);
    ShapeIsRead(flatRaw, cam.height, cam.width, 3);
    if noAutoCrop then None
    else
      BoxIsTight(flatRaw);
      Some(FindBox(flatRaw))
  }

  /**
   * The flat-field and the leader cropped by `box` and converted by `m`, the
   * references measured on them, and the resize plan for the cropped size.
   * Only a negative `--mp` fails here.
   */
  function Measure(opts: Options, cam: Camera, lib: Library, box: Option<Box>, m: Matrix, flatName: string, leaderName: string)
    : (r: Result<Setup, RollError>)
    requires cam.Valid() && (box.Some? ==> Fits(box.value, cam.height, cam.width)) && IsMatrix(m, |m|, 3)
    ensures r.Failure? <==> opts.megapixels < 0.0
    ensures r.Failure? ==> r.error == ScaleUndefined
    ensures r.Success? ==> Ready(r.value, cam) && r.value.box == box && r.value.matrix == m
    ensures r.Success? ==> r.value.flat == Converted(cam, box, m, flatName)
    ensures r.Success? ==>
              var leader := Converted(cam, box, m, leaderName);
              && HasChannels(leader, Channels(leader)) && HasChannels(r.value.flat, Channels(leader))
              && References(r.value.base, r.value.exposed) == MeasureReferences(r.value.flat, leader, lib.log10)
    ensures r.Success? ==> PlanResize(opts.megapixels, CropRows(cam, box), CropColumns(cam, box), lib.sqrt) == Success(r.value.plan)
  {
    var flat := Converted(cam, box, m, flatName);
    var leader := Converted(cam, box, m, leaderName);
    var h, w := CropRows(cam, box), CropColumns(cam, box);
    assert h > 0 && w > 0;
    ShapeHasChannels(flat, h, w, |m|);
    ShapeHasChannels(leader, h, w, |m|);
    var refs := MeasureReferences(flat, leader, lib.log10);
    var plan := PlanResize(opts.megapixels, |leader|, Width(leader), lib.sqrt);
    if plan.Failure? then Failure(plan.error)
    else Success(Setup(box, m, flat, refs.base, refs.exposed, plan.value))
  }

  /**
   * Choosing the crop box on the flat-field and the conversion matrix, then
   * measuring. It fails when ProPhoto output needs a singular camera matrix
   * (checked first) or when `--mp` is negative.
   */
  function Calibrate(opts: Options, cam: Camera, lib: Library, flatName: string, leaderName: string): (r: Result<Setup, RollError>)
    requires cam.Valid()
    ensures r.Failure? <==>
              (!opts.processBw && !opts.processRaw && cam.cameraToXyz(leaderName).None?) || opts.megapixels < 0.0
    ensures r.Failure? ==>
              r.error == if !opts.processBw && !opts.processRaw && cam.cameraToXyz(leaderName).None?
                         then SingularCameraMatrix else ScaleUndefined
    ensures r.Success? ==> Ready(r.value, cam)
    ensures r.Success? ==> r.value.box == if opts.noAutoCrop then None else Some(FindBox(cam.decode(flatName)))
    ensures r.Success? ==> |r.value.matrix| == if opts.processBw then 1 else 3
    ensures r.Success? ==> ConversionMatrix(opts.processBw, opts.processRaw, cam.cameraToXyz(leaderName)) == Some(r.value.matrix)
    ensures r.Success? ==> r == Measure(opts, cam, lib, r.value.box, r.value.matrix, flatName, leaderName)
  {
    var box := ChooseBox(opts.noAutoCrop, cam, flatName);
    var chosen := ConversionMatrix(opts.processBw, opts.processRaw, cam.cameraToXyz(leaderName));
    if chosen.None? then Failure(SingularCameraMatrix)
    else Measure(opts, cam, lib, box, chosen.value, flatName, leaderName)
  }

  /**
   * With the true square root, the scans of a calibrated roll are scaled
   * down exactly when a positive megapixel target is below the pixel count
   * of the cropped frame.
   */
  lemma {:induction false} CalibratedShrinksOnlyBelowTarget(opts: Options, cam: Camera, lib: Library, flatName: string, leaderName: string)
    requires cam.Valid() && SqrtIsExact(lib.sqrt)
    requires Calibrate(opts, cam, lib, flatName, leaderName).Success?
    ensures var s := Calibrate(opts, cam, lib, flatName, leaderName).value;
      s.plan.Shrink? <==>
        opts.megapixels > 0.0 && opts.megapixels * 1000000.0 < (CropRows(cam, s.box) * CropColumns(cam, s.box)) as real
  {
    var s := Calibrate(opts, cam, lib, flatName, leaderName).value;
    var h, w := CropRows(cam, s.box), CropColumns(cam, s.box);
    assert h > 0 && w > 0;
    ShrinksOnlyBelowTarget(opts.megapixels, h, w, lib.sqrt);
  }

  /**
   * `--mp 0` (the default) keeps every scan at the cropped size, so no scan
   * of the roll fails and each is inverted sample by sample.
   */
  lemma {:induction false} ZeroTargetKeepsSize(opts: Options, cam: Camera, lib: Library, flatName: string, leaderName: string)
    requires cam.Valid() && opts.megapixels == 0.0
    requires Calibrate(opts, cam, lib, flatName, leaderName).Success?
    ensures Calibrate(opts, cam, lib, flatName, leaderName).value.plan == Keep
    ensures forall name :: InvertScan(Calibrate(opts, cam, lib, flatName, leaderName).value, opts, cam, lib, name).Success?
  {
  }

  /** The density of every sample of the scan, rescaled by the references. */
  function Normalized(s: Setup, cam: Camera, lib: Library, name: string): (n: Frame<Value>)
    requires cam.Valid() && Ready(s, cam)
    ensures HasShape(n, CropRows(cam, s.box), CropColumns(cam, s.box), |s.matrix|)
    ensures forall y, x, k :: 0 <= y < |n| && 0 <= x < |n[y]| && 0 <= k < |n[y][x]| ==>
              n[y][x][k] == Rescale(SampleDensity(s.flat[y][x][k], Converted(cam, s.box, s.matrix, name)[y][x][k], lib.log10),
                                    s.base[k], s.exposed[k])
  {
    var h, w, c := CropRows(cam, s.box), CropColumns(cam, s.box), |s.matrix|;
    var scan := Converted(cam, s.box, s.matrix, name);
    ShapesGiveLayout(s.flat, scan, h, w, c);
    var d := DensityFrame(s.flat, scan, lib.log10);
    LayoutKeepsShape(scan, d, h, w, c);
    var n := RescaleFrame(d, s.base, s.exposed);
    LayoutKeepsShape(d, n, h, w, c);
    n
  }

  /**
   * The base curve, cleaning for export and 16-bit quantisation, sample by
   * sample: every sample ends up in `[0, 65535]`.
   */
  function Develop(v: Frame<Value>, gamma: real, pow10: real -> Value): (q: Frame<int>)
    ensures SameLayout(v, q)
    ensures forall y, x, k :: 0 <= y < |v| && 0 <= x < |v[y]| && 0 <= k < |v[y][x]| ==>
              q[y][x][k] == ToUint16(Clean(Curve(v[y][x][k], gamma, pow10))) && 0 <= q[y][x][k] <= 65535
  {
    var curved := CurveFrame(v, gamma, pow10);
    var cleaned := CleanFrame(curved);
    var q := QuantizeFrame(cleaned);
    assert SameLayout(v, q) by {
      assert SameLayout(v, curved) && SameLayout(curved, cleaned) && SameLayout(cleaned, q);
    }
    q
  }

  /**
   * One scan of the roll, inverted: density, rescaling, the optional resize,
   * then `Develop`. It fails only when the resize target has an empty side.
   */
  function InvertScan(s: Setup, opts: Options, cam: Camera, lib: Library, name: string): (r: Result<Frame<int>, RollError>)
    requires cam.Valid() && Ready(s, cam)
    ensures r.Failure? <==> s.plan.Shrink? && (s.plan.width <= 0 || s.plan.height <= 0)
    ensures r.Failure? ==> r.error == EmptyTarget
    ensures s.plan == Keep ==> r == Success(Develop(Normalized(s, cam, lib, name), opts.gamma, lib.pow10))
    ensures s.plan.Shrink? && s.plan.width > 0 && s.plan.height > 0 ==>
              r == Success(Develop(lib.resize(Normalized(s, cam, lib, name), s.plan.width, s.plan.height), opts.gamma, lib.pow10))
  {
    var n := Normalized(s, cam, lib, name);
    var sized :- match s.plan
      case Keep => Success(n)
      case Shrink(w, h) => if w <= 0 || h <= 0 then Failure(EmptyTarget) else Success(lib.resize(n, w, h));
    Success(Develop(sized, opts.gamma, lib.pow10))
  }

  /** Every sample of an inverted scan is a 16-bit value. */
  lemma {:induction false} InvertedScanIsSixteenBit(s: Setup, opts: Options, cam: Camera, lib: Library, name: string)
    requires cam.Valid() && Ready(s, cam)
    ensures var r := InvertScan(s, opts, cam, lib, name);
      r.Success? ==> forall y, x, k :: 0 <= y < |r.value| && 0 <= x < |r.value[y]| && 0 <= k < |r.value[y][x]| ==>
        0 <= r.value[y][x][k] <= 65535
  {
  }

  /**
   * Without a resize the inverted scan has the cropped shape, and each
   * sample is the per-sample inversion of the flat-field and scan samples
   * at that place.
   */
  lemma {:induction false} UnresizedScanIsPerSample(s: Setup, opts: Options, cam: Camera, lib: Library, name: string)
    requires cam.Valid() && Ready(s, cam) && s.plan == Keep
    ensures InvertScan(s, opts, cam, lib, name).Success?
    ensures var q := InvertScan(s, opts, cam, lib, name).value;
      && HasShape(q, CropRows(cam, s.box), CropColumns(cam, s.box), |s.matrix|)
      && forall y, x, k :: 0 <= y < |q| && 0 <= x < |q[y]| && 0 <= k < |q[y][x]| ==>
           q[y][x][k] == ToUint16(InvertSample(s.flat[y][x][k], Converted(cam, s.box, s.matrix, name)[y][x][k],
                                               s.base[k], s.exposed[k], opts.gamma, lib.log10, lib.pow10))
  {
    var n := Normalized(s, cam, lib, name);
    var q := Develop(n, opts.gamma, lib.pow10);
    assert InvertScan(s, opts, cam, lib, name) == Success(q);
    LayoutKeepsShape(n, q, CropRows(cam, s.box), CropColumns(cam, s.box), |s.matrix|);
  }

  /**
   * Under a lit flat-field sample, a scan sample of zero is written as
   * white (65535) when the references are finite, the exposed density is
   * above the base density and the base curve rises.
   */
  lemma {:induction false} ClearScanSampleIsWhite(s: Setup, opts: Options, cam: Camera, lib: Library, name: string,
                                                 y: nat, x: nat, k: nat, b: real, e: real, p: real)
    requires cam.Valid() && Ready(s, cam) && s.plan == Keep
    requires y < CropRows(cam, s.box) && x < CropColumns(cam, s.box) && k < |s.matrix|
    requires s.flat[y][x][k] > 0.0 && Converted(cam, s.box, s.matrix, name)[y][x][k] == 0.0
    requires s.base[k] == Finite(b) && s.exposed[k] == Finite(e) && b < e
    requires opts.gamma > 0.0 && lib.pow10(opts.gamma) == Finite(p) && p > 1.0
    ensures InvertScan(s, opts, cam, lib, name).Success?
    ensures InvertScan(s, opts, cam, lib, name).value[y][x][k] == 65535
  {
    UnresizedScanIsPerSample(s, opts, cam, lib, name);
    ZeroScanSampleIsWhite(s.flat[y][x][k], b, e, opts.gamma, lib.log10, lib.pow10, p);
  }

  /** Where the flat-field sample is zero over a lit scan sample, the output is black (0). */
  lemma {:induction false} UnlitSampleIsBlack(s: Setup, opts: Options, cam: Camera, lib: Library, name: string,
                                             y: nat, x: nat, k: nat, b: real, e: real, p: real)
    requires cam.Valid() && Ready(s, cam) && s.plan == Keep
    requires y < CropRows(cam, s.box) && x < CropColumns(cam, s.box) && k < |s.matrix|
    requires s.flat[y][x][k] == 0.0 && Converted(cam, s.box, s.matrix, name)[y][x][k] > 0.0
    requires s.base[k] == Finite(b) && s.exposed[k] == Finite(e) && b < e
    requires opts.gamma > 0.0 && lib.pow10(opts.gamma) == Finite(p) && p > 1.0
    ensures InvertScan(s, opts, cam, lib, name).Success?
    ensures InvertScan(s, opts, cam, lib, name).value[y][x][k] == 0
  {
    UnresizedScanIsPerSample(s, opts, cam, lib, name);
    DarkFlatSampleIsBlack(Converted(cam, s.box, s.matrix, name)[y][x][k], b, e, opts.gamma, lib.log10, lib.pow10, p);
  }

  /** One `tifffile.imwrite`: the path and the 16-bit samples written there. */
  datatype Output = Output(path: string, image: Frame<int>)

  datatype Outcome = Completed | Failed(error: RollError)

  /** `o` is what the roll writes for the scan `name`. */
  predicate WrittenFor(s: Setup, opts: Options, cam: Camera, lib: Library, name: string, o: Output)
    requires cam.Valid() && Ready(s, cam)
  {
    var r := InvertScan(s, opts, cam, lib, name);
    r.Success? && o == Output(OutputName(name), r.value)
  }

  /** Appending the output of the next scan keeps the outputs in step with the scans. */
  lemma {:induction false} WrittenExtends(s: Setup, opts: Options, cam: Camera, lib: Library, scans: seq<string>,
                                          written: seq<Output>, o: Output)
    requires cam.Valid() && Ready(s, cam) && |written| < |scans|
    requires forall k :: 0 <= k < |written| ==> WrittenFor(s, opts, cam, lib, scans[k], written[k])
    requires WrittenFor(s, opts, cam, lib, scans[|written|], o)
    ensures forall k :: 0 <= k < |written + [o]| ==> WrittenFor(s, opts, cam, lib, scans[k], (written + [o])[k])
  {
    forall k | 0 <= k < |written + [o]|
      ensures WrittenFor(s, opts, cam, lib, scans[k], (written + [o])[k])
    {
      if k < |written| {
        assert (written + [o])[k] == written[k];
      }
    }
  }

  /**
   * The scans of the roll, inverted one after another in order and written
   * under their output names, stopping at the first scan that fails.
   */
  method InvertScans(s: Setup, opts: Options, cam: Camera, lib: Library, scans: seq<string>)
    returns (outcome: Outcome, written: seq<Output>)
    requires cam.Valid() && Ready(s, cam)
    ensures |written| <= |scans|
    ensures forall k :: 0 <= k < |written| ==> WrittenFor(s, opts, cam, lib, scans[k], written[k])
    ensures outcome == Completed <==> |written| == |scans|
    ensures outcome != Completed ==>
              && InvertScan(s, opts, cam, lib, scans[|written|]).Failure?
              && outcome == Failed(InvertScan(s, opts, cam, lib, scans[|written|]).error)
  {
    written := [];
    var i := 0;
    while i < |scans|
      invariant 0 <= i <= |scans|
      invariant |written| == i
      invariant forall k :: 0 <= k < |written| ==> WrittenFor(s, opts, cam, lib, scans[k], written[k])
    {
      var r := InvertScan(s, opts, cam, lib, scans[i]);
      if r.Failure? {
        return Failed(r.error), written;
      }
      var o := Output(OutputName(scans[i]), r.value);
      assert WrittenFor(s, opts, cam, lib, scans[i], o);
      WrittenExtends(s, opts, cam, lib, scans, written, o);
      written := written + [o];
      i := i + 1;
    }
    outcome := Completed;
  }

  /**
   * The whole roll: the sorted matching files, the first two as flat-field
   * and leader, and the rest inverted with the calibration they give.
   */
  method InvertRoll(entries: seq<string>, opts: Options, cam: Camera, lib: Library)
    returns (outcome: Outcome, written: seq<Output>)
    requires cam.Valid()
    ensures var files := RollFiles(entries, opts.rawExtension);
      |files| < 2 <==> outcome == Failed(TooFewFiles) && written == []
    ensures var files := RollFiles(entries, opts.rawExtension);
      |files| >= 2 && Calibrate(opts, cam, lib, files[0], files[1]).Failure? ==>
        outcome == Failed(Calibrate(opts, cam, lib, files[0], files[1]).error) && written == []
    ensures var files := RollFiles(entries, opts.rawExtension);
      |files| >= 2 && Calibrate(opts, cam, lib, files[0], files[1]).Success? ==>
        var s, scans := Calibrate(opts, cam, lib, files[0], files[1]).value, files[2..];
        && |written| <= |scans|
        && (forall k :: 0 <= k < |written| ==> WrittenFor(s, opts, cam, lib, scans[k], written[k]))
        && (outcome == Completed <==> |written| == |scans|)
        && (outcome != Completed ==>
              && InvertScan(s, opts, cam, lib, scans[|written|]).Failure?
              && outcome == Failed(InvertScan(s, opts, cam, lib, scans[|written|]).error))
  {
    var files := RollFiles(entries, opts.rawExtension);
    if |files| < 2 {
      return Failed(TooFewFiles), [];
    }
    var setup := Calibrate(opts, cam, lib, files[0], files[1]);
    if setup.Failure? {
      return Failed(setup.error), [];
    }
    outcome, written := InvertScans(setup.value, opts, cam, lib, files[2..]);
  }
}
