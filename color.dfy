/**
 * The colour conversion applied to every frame after decoding: each pixel is
 * multiplied by a conversion matrix (numpy's `frame @ matrix.T`). The matrix
 * converts camera RGB to linear ProPhoto, keeps camera RGB, or sums the three
 * channels into one for black-and-white film.
 */
module ColorConversion {
  import opened Wrappers
  import opened Frames

  /** A matrix as a sequence of rows. */
  type Matrix = seq<seq<real>>

  /** `rows x cols`. */
  predicate IsMatrix(m: Matrix, rows: nat, cols: nat) {
    |m| == rows && forall r :: 0 <= r < rows ==> |m[r]| == cols
  }

  /** The Bradford chromatic adaptation from the D65 white point to D50. */
  const BradfordD65ToD50: Matrix := [
    [1.0478112, 0.0228866, -0.0501270],
    [0.0295424, 0.9904844, -0.0170491],
    [-0.0092345, 0.0150436, 0.7521316]]

  /** CIE XYZ (D50) to linear ProPhoto RGB. */
  const XyzToProPhoto: Matrix := [
    [1.3459433, -0.2556075, -0.0511118],
    [-0.5445989, 1.5081673, 0.0205351],
    [0.0, 0.0, 1.2118128]]

  /** `np.eye(3)`: camera RGB is kept. */
  const Identity3: Matrix := [[1.0, 0.0, 0.0], [0.0, 1.0, 0.0], [0.0, 0.0, 1.0]]

  /** `np.array([1.0, 1.0, 1.0])`: black-and-white film, one channel holding the sum. */
  const ChannelWeights: Matrix := [[1.0, 1.0, 1.0]]

  /** The inner product of two vectors of the same length. */
  function Dot(u: seq<real>, v: seq<real>): real
    requires |u| == |v|
  {
    if |u| == 0 then 0.0 else u[0] * v[0] + Dot(u[1..], v[1..])
  }

  /** The inner product of two three-vectors written out. */
  lemma {:induction false} Dot3(u: seq<real>, v: seq<real>)
    requires |u| == 3 && |v| == 3
    ensures Dot(u, v) == u[0] * v[0] + u[1] * v[1] + u[2] * v[2]
  {
    assert Dot(u[2..], v[2..]) == u[2] * v[2] + Dot(u[3..], v[3..]);
    assert Dot(u[1..], v[1..]) == u[1] * v[1] + Dot(u[2..], v[2..]);
  }

  /** `m @ p`: the matrix applied to one pixel. */
  function Apply(m: Matrix, p: seq<real>): (q: seq<real>)
    requires forall r :: 0 <= r < |m| ==> |m[r]| == |p|
    ensures |q| == |m|
  {
    seq(|m|, r requires 0 <= r < |m| => Dot(m[r], p))
  }

  /** Column `j` of a matrix. */
  function Column(m: Matrix, j: nat): (col: seq<real>)
    requires forall r :: 0 <= r < |m| ==> j < |m[r]|
    ensures |col| == |m|
  {
    seq(|m|, r requires 0 <= r < |m| => m[r][j])
  }

  /** `a @ b` for an `n x k` and a `k x c` matrix. */
  function Product(a: Matrix, b: Matrix, c: nat): (m: Matrix)
    requires forall r :: 0 <= r < |a| ==> |a[r]| == |b|
    requires forall k :: 0 <= k < |b| ==> |b[k]| == c
    ensures IsMatrix(m, |a|, c)
  {
    seq(|a|, r requires 0 <= r < |a| =>
      seq(c, j requires 0 <= j < c => Dot(a[r], Column(b, j))))
  }

  /**
   * The conversion matrix of the roll. Colour film is converted to ProPhoto
   * through XYZ unless camera RGB is asked for; `cameraToXyz` is the inverse
   * of the camera's XYZ-to-camera matrix, read from the leader, or None when
   * that matrix cannot be inverted, which only matters for ProPhoto.
   * Black-and-white film takes precedence over the choice of colour space.
   */
  function ConversionMatrix(processBw: bool, processRaw: bool, cameraToXyz: Option<Matrix>): (m: Option<Matrix>)
    requires cameraToXyz.Some? ==> IsMatrix(cameraToXyz.value, 3, 3)
    ensures m.None? <==> !processBw && !processRaw && cameraToXyz.None?
    ensures processBw ==> m == Some(ChannelWeights)
    ensures !processBw && processRaw ==> m == Some(Identity3)
    ensures !processBw && !processRaw && cameraToXyz.Some? ==>
              m == Some(Product(XyzToProPhoto, Product(BradfordD65ToD50, cameraToXyz.value, 3), 3))
    ensures m.Some? ==> IsMatrix(m.value, if processBw then 1 else 3, 3)
  {
    if !processBw then
      if !processRaw then
        match cameraToXyz
        case None => None
        case Some(inverse) => Some(Product(XyzToProPhoto, Product(BradfordD65ToD50, inverse, 3), 3))
      else Some(Identity3)
    else Some(ChannelWeights)
  }

  /** The samples of a decoded frame as float64 values. */
  function ToReal(f: RawFrame): (r: Frame<real>)
    ensures SameLayout(f, r)
    ensures forall y, x, k :: 0 <= y < |f| && 0 <= x < |f[y]| && 0 <= k < |f[y][x]| ==>
              r[y][x][k] == f[y][x][k] as real
  {
    seq(|f|, y requires 0 <= y < |f| =>
      seq(|f[y]|, x requires 0 <= x < |f[y]| =>
        seq(|f[y][x]|, k requires 0 <= k < |f[y][x]| => f[y][x][k] as real)))
  }

  /** `f @ m.T`: every pixel is replaced by the matrix applied to it. */
  function Convert(f: Frame<real>, m: Matrix): (r: Frame<real>)
    requires forall y, x, j :: 0 <= y < |f| && 0 <= x < |f[y]| && 0 <= j < |m| ==> |m[j]| == |f[y][x]|
    ensures |r| == |f|
    ensures forall y :: 0 <= y < |f| ==> |r[y]| == |f[y]|
    ensures forall y, x :: 0 <= y < |f| && 0 <= x < |f[y]| ==> r[y][x] == Apply(m, f[y][x])
  {
    seq(|f|, y requires 0 <= y < |f| =>
      seq(|f[y]|, x requires 0 <= x < |f[y]| => Apply(m, f[y][x])))
  }

  /** Converting an `h x w x c` frame with an `r x c` matrix gives an `h x w x r` frame. */
  lemma {:induction false} ConvertShape(f: Frame<real>, m: Matrix, h: nat, w: nat, c: nat)
    requires HasShape(f, h, w, c) && IsMatrix(m, |m|, c)
    ensures forall y, x, j :: 0 <= y < |f| && 0 <= x < |f[y]| && 0 <= j < |m| ==> |m[j]| == |f[y][x]|
    ensures HasShape(Convert(f, m), h, w, |m|)
  {
  }

  /** The identity matrix leaves a three-channel pixel as it is. */
  lemma {:induction false} IdentityKeepsPixel(p: seq<real>)
    requires |p| == 3
    ensures Apply(Identity3, p) == p
  {
    Dot3(Identity3[0], p);
    Dot3(Identity3[1], p);
    Dot3(Identity3[2], p);
  }

  /** With camera RGB kept, the conversion changes no pixel of a three-channel frame. */
  lemma {:induction false} ConvertIdentity(f: Frame<real>)
    requires forall y, x :: 0 <= y < |f| && 0 <= x < |f[y]| ==> |f[y][x]| == 3
    ensures Convert(f, Identity3) == f
  {
    var r := Convert(f, Identity3);
    forall y | 0 <= y < |f|
      ensures r[y] == f[y]
    {
      forall x | 0 <= x < |f[y]|
        ensures r[y][x] == f[y][x]
      {
        IdentityKeepsPixel(f[y][x]);
      }
    }
  }

  /** Weights of one give one channel holding the sum of the pixel's channels. */
  lemma {:induction false} WeightsSumChannels(p: seq<real>)
    requires |p| == 3
    ensures Apply(ChannelWeights, p) == [p[0] + p[1] + p[2]]
    ensures Apply(ChannelWeights, p) == [Sum(p)]
  {
    Dot3(ChannelWeights[0], p);
    assert Sum(p) == p[0] + Sum(p[1..]);
    assert Sum(p[1..]) == p[1] + Sum(p[2..]);
    assert Sum(p[2..]) == p[2] + Sum(p[3..]);
  }
  /** `alpha * x + y`, entry by entry. */
  function AddScaled(alpha: real, x: seq<real>, y: seq<real>): (z: seq<real>)
    requires |x| == |y|
    ensures |z| == |x|
    ensures forall j :: 0 <= j < |x| ==> z[j] == alpha * x[j] + y[j]
  {
    seq(|x|, j requires 0 <= j < |x| => alpha * x[j] + y[j])
  }

  /** The tail of `alpha * x + y` is `alpha * x[1..] + y[1..]`. */
  lemma {:induction false} AddScaledTail(alpha: real, x: seq<real>, y: seq<real>)
    requires |x| == |y| > 0
    ensures AddScaled(alpha, x, y)[1..] == AddScaled(alpha, x[1..], y[1..])
  {
    var z := AddScaled(alpha, x, y);
    var z' := AddScaled(alpha, x[1..], y[1..]);
    forall j | 0 <= j < |z'|
      ensures z[1..][j] == z'[j]
    {
      assert x[1..][j] == x[j + 1] && y[1..][j] == y[j + 1];
    }
  }

  lemma {:induction false} Distribute(alpha: real, a: real, b: real, c: real, dx: real, dy: real)
    ensures (alpha * a + b) * c + (alpha * dx + dy) == alpha * (a * c + dx) + (b * c + dy)
  {
    assert (alpha * a + b) * c == alpha * (a * c) + b * c;
  }

  /** The inner product is linear in its first argument. */
  lemma {:induction false} DotIsLinear(alpha: real, x: seq<real>, y: seq<real>, p: seq<real>)
    requires |x| == |y| == |p|
    ensures Dot(AddScaled(alpha, x, y), p) == alpha * Dot(x, p) + Dot(y, p)
  {
    if |x| > 0 {
      var z := AddScaled(alpha, x, y);
      AddScaledTail(alpha, x, y);
      DotIsLinear(alpha, x[1..], y[1..], p[1..]);
      assert Dot(z, p) == z[0] * p[0] + Dot(z[1..], p[1..]);
      Distribute(alpha, x[0], y[0], p[0], Dot(x[1..], p[1..]), Dot(y[1..], p[1..]));
    }
  }


  /** The inner product with a zero vector is zero. */
  lemma {:induction false} DotZero(z: seq<real>, p: seq<real>)
    requires |z| == |p| && forall j :: 0 <= j < |z| ==> z[j] == 0.0
    ensures Dot(z, p) == 0.0
  {
    if |z| > 0 {
      DotZero(z[1..], p[1..]);
    }
  }

  /** The `u`-weighted sum of the rows of `b`: entry `j` is `u . column j`. */
  function Weighted(u: seq<real>, b: Matrix, n: nat): (w: seq<real>)
    requires |u| == |b| && forall k :: 0 <= k < |b| ==> |b[k]| == n
    ensures |w| == n
    ensures forall j :: 0 <= j < n ==> w[j] == Dot(u, Column(b, j))
  {
    seq(n, j requires 0 <= j < n => Dot(u, Column(b, j)))
  }

  /** Peeling the first row off a weighted sum of rows. */
  lemma {:induction false} WeightedSplits(u: seq<real>, b: Matrix, n: nat)
    requires |u| == |b| > 0 && forall k :: 0 <= k < |b| ==> |b[k]| == n
    ensures Weighted(u, b, n) == AddScaled(u[0], b[0], Weighted(u[1..], b[1..], n))
  {
    var w := Weighted(u, b, n);
    var w' := Weighted(u[1..], b[1..], n);
    forall j | 0 <= j < n
      ensures w[j] == u[0] * b[0][j] + w'[j]
    {
      assert Column(b, j)[1..] == Column(b[1..], j);
    }
  }

  /** Peeling the first row off a matrix applied to a pixel. */
  lemma {:induction false} ApplySplits(b: Matrix, p: seq<real>)
    requires |b| > 0 && forall k :: 0 <= k < |b| ==> |b[k]| == |p|
    ensures Apply(b, p) == [Dot(b[0], p)] + Apply(b[1..], p)
  {
    var q := Apply(b, p);
    var q' := Apply(b[1..], p);
    assert forall k :: 0 <= k < |q'| ==> q[k + 1] == q'[k];
  }

  /**
   * Exchanging the order of summation: weighting the rows of `b` applied to
   * `p` by `u` is applying to `p` the `u`-weighted sum of the rows of `b`.
   */
  lemma {:induction false} DotInterchange(u: seq<real>, b: Matrix, p: seq<real>)
    requires |u| == |b| && forall k :: 0 <= k < |b| ==> |b[k]| == |p|
    ensures Dot(u, Apply(b, p)) == Dot(Weighted(u, b, |p|), p)
  {
    if |u| == 0 {
      DotZero(Weighted(u, b, |p|), p);
    } else {
      var w' := Weighted(u[1..], b[1..], |p|);
      ApplySplits(b, p);
      DotInterchange(u[1..], b[1..], p);
      WeightedSplits(u, b, |p|);
      DotIsLinear(u[0], b[0], w', p);
    }
  }

  /**
   * Converting with the product `a @ b` is converting with `b`, then with
   * `a`: numpy's `(f @ b.T) @ a.T == f @ (a @ b).T`. So the ProPhoto matrix
   * takes camera RGB to XYZ, adapts the white point, and takes XYZ to ProPhoto.
   */
  lemma {:induction false} ProductComposes(a: Matrix, b: Matrix, p: seq<real>)
    requires forall r :: 0 <= r < |a| ==> |a[r]| == |b|
    requires forall k :: 0 <= k < |b| ==> |b[k]| == |p|
    ensures Apply(Product(a, b, |p|), p) == Apply(a, Apply(b, p))
  {
    var m := Product(a, b, |p|);
    forall r | 0 <= r < |a|
      ensures Dot(m[r], p) == Dot(a[r], Apply(b, p))
    {
      DotInterchange(a[r], b, p);
    }
  }

  /** The ProPhoto conversion of a pixel is the three conversions one after another. */
  lemma {:induction false} ProPhotoConversionChains(cameraToXyz: Matrix, p: seq<real>)
    requires IsMatrix(cameraToXyz, 3, 3) && |p| == 3
    ensures Apply(ConversionMatrix(false, false, Some(cameraToXyz)).value, p)
         == Apply(XyzToProPhoto, Apply(BradfordD65ToD50, Apply(cameraToXyz, p)))
  {
    var adapt := Product(BradfordD65ToD50, cameraToXyz, 3);
    ProductComposes(XyzToProPhoto, adapt, p);
    ProductComposes(BradfordD65ToD50, cameraToXyz, p);
  }
}
