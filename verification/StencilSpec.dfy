// Grayscale, sharpen and Sobel, sample by sample.
module StencilSpec {
  import opened Common
  import opened Convolution
  import opened Raster
  import opened Pixels
  import opened BlurSpec

  type BytePlane = (int, int) -> byte

  // What a buffer shows at a sample.
  function Shown(s: seq<byte>, w: int): (int, int, int) -> byte {
    (y, x, c) => if 0 <= Offset(w, y, x, c) < |s| then s[Offset(w, y, x, c)] else 0
  }

  predicate Interior(w: int, h: int, y: int, x: int) {
    1 <= y < h - 1 && 1 <= x < w - 1
  }

  // One image inside, another on the one-pixel border.
  function Over(w: int, h: int, inner: (int, int, int) -> byte, border: (int, int, int) -> byte)
    : (int, int, int) -> byte
  {
    (y, x, c) => if Interior(w, h, y, x) then inner(y, x, c) else border(y, x, c)
  }

  // ---- grayscale

  function GrayAt(input: seq<byte>, idx: int): byte {
    if 0 <= idx && idx + 2 < |input| then Gray(input[idx], input[idx + 1], input[idx + 2]) else 0
  }

  function GrayPlane(input: seq<byte>, w: int): BytePlane {
    (y, x) => GrayAt(input, Offset(w, y, x, 0))
  }

  function GrayImage(input: seq<byte>, w: int): (int, int, int) -> byte {
    (y, x, c) => GrayPlane(input, w)(y, x)
  }

  // Gray depends on a pixel only through the three samples it shows.
  lemma GrayOfShown(input: seq<byte>, w: nat, h: nat, y: int, x: int)
    requires |input| == 3 * (w * h) && Inside(w, h, y, x, 0)
    ensures GrayPlane(input, w)(y, x)
         == Gray(Shown(input, w)(y, x, 0), Shown(input, w)(y, x, 1), Shown(input, w)(y, x, 2))
  {
    OffsetInside(w, h, y, x);
    assert Offset(w, y, x, 1) == Offset(w, y, x, 0) + 1;
    assert Offset(w, y, x, 2) == Offset(w, y, x, 0) + 2;
  }

  // Converting a gray picture changes nothing.
  lemma GrayscaleIdempotent(input: seq<byte>, output: seq<byte>, again: seq<byte>, w: nat, h: nat)
    requires |input| == 3 * (w * h)
    requires Renders(output, w, h, GrayImage(input, w)) && Renders(again, w, h, GrayImage(output, w))
    ensures again == output
  {
    forall y, x, c | Inside(w, h, y, x, c)
      ensures GrayImage(output, w)(y, x, c) == GrayImage(input, w)(y, x, c)
    {
      hide Gray;
      var v := GrayImage(input, w)(y, x, c);
      RenderedAt(output, w, h, GrayImage(input, w), y, x, 0);
      RenderedAt(output, w, h, GrayImage(input, w), y, x, 1);
      RenderedAt(output, w, h, GrayImage(input, w), y, x, 2);
      GrayOfShown(output, w, h, y, x);
      GrayOfGray(v);
    }
    RendersUnique(again, output, w, h, GrayImage(output, w), GrayImage(input, w));
  }

  lemma GrayOfGray(v: byte)
    ensures Gray(v, v, v) == v
  {
    GrayBounds(v, v, v);
  }

  // ---- sharpen: the centre raised, its four neighbours subtracted

  function Stencil(f: Plane, a: real, y: int, x: int): real {
    (1.0 + 4.0 * a) * f(y, x) - a * (f(y - 1, x) + f(y, x - 1) + f(y, x + 1) + f(y + 1, x))
  }

  function SharpenImage(input: seq<byte>, w: int, a: real): (int, int, int) -> byte {
    (y, x, c) => ClampByte(Stencil(ByteChannel(input, w, c), a, y, x))
  }

  // Intensity zero is the identity; flat neighbourhoods are fixed at any intensity.
  lemma SharpenFixedPoints(input: seq<byte>, w: int, a: real, y: int, x: int, c: int)
    ensures a == 0.0 ==> SharpenImage(input, w, a)(y, x, c) == Shown(input, w)(y, x, c)
    ensures var f := ByteChannel(input, w, c);
            f(y - 1, x) == f(y, x) && f(y + 1, x) == f(y, x) && f(y, x - 1) == f(y, x) && f(y, x + 1) == f(y, x)
            ==> SharpenImage(input, w, a)(y, x, c) == Shown(input, w)(y, x, c)
  {
    var f := ByteChannel(input, w, c);
    var v := f(y, x);
    assert v == Shown(input, w)(y, x, c) as real;
    FlatStencil(a, v);
  }

  lemma FlatStencil(a: real, v: real)
    ensures (1.0 + 4.0 * a) * v - a * (v + v + v + v) == v
  {
    assert (1.0 + 4.0 * a) * v == v + 4.0 * (a * v);
    assert a * (v + v + v + v) == a * v + a * v + a * v + a * v;
  }

  // ---- Sobel

  function Gx(g: BytePlane, y: int, x: int): int {
    (g(y - 1, x + 1) + 2 * g(y, x + 1) + g(y + 1, x + 1)) - (g(y - 1, x - 1) + 2 * g(y, x - 1) + g(y + 1, x - 1))
  }

  function Gy(g: BytePlane, y: int, x: int): int {
    (g(y + 1, x - 1) + 2 * g(y + 1, x) + g(y + 1, x + 1)) - (g(y - 1, x - 1) + 2 * g(y - 1, x) + g(y - 1, x + 1))
  }

  // Each gradient is the difference across the centre, smoothed 1 : 2 : 1 along it.
  lemma GradientsAreSmoothedDifferences(g: BytePlane, y: int, x: int)
    ensures Gx(g, y, x) == (g(y - 1, x + 1) - g(y - 1, x - 1)) + 2 * (g(y, x + 1) - g(y, x - 1))
                         + (g(y + 1, x + 1) - g(y + 1, x - 1))
    ensures Gy(g, y, x) == (g(y + 1, x - 1) - g(y - 1, x - 1)) + 2 * (g(y + 1, x) - g(y - 1, x))
                         + (g(y + 1, x + 1) - g(y - 1, x + 1))
  {
  }

  // A single bright pixel among black ones, seen from each of the nine places
  // around and on it.
  lemma GradientsOfOnePixel(g: BytePlane, v: byte, y: int, x: int, dy: int, dx: int)
    requires -1 <= dy <= 1 && -1 <= dx <= 1
    requires forall y', x' :: g(y', x') == if y' == y + dy && x' == x + dx then v else 0
    ensures Gx(g, y, x) == dx * (if dy == 0 then 2 else 1) * v
    ensures Gy(g, y, x) == dy * (if dx == 0 then 2 else 1) * v
  {
  }

  // Truncated square root.
  function Isqrt(n: nat): (r: nat)
    ensures r * r <= n < (r + 1) * (r + 1)
  {
    if n == 0 then 0 else
      var r := Isqrt(n - 1);
      if (r + 1) * (r + 1) <= n then r + 1 else r
  }

  function Magnitude(gx: int, gy: int): byte {
    Squares(gx, gy);
    Min(255, Isqrt(gx * gx + gy * gy))
  }

  lemma Squares(gx: int, gy: int)
    ensures gx * gx + gy * gy >= 0
    ensures gx * gx == (-gx) * (-gx) && gy * gy == (-gy) * (-gy)
  {
  }

  function EdgeAt(g: BytePlane, y: int, x: int): byte {
    Magnitude(Gx(g, y, x), Gy(g, y, x))
  }

  function EdgeImage(input: seq<byte>, w: int): (int, int, int) -> byte {
    (y, x, c) => EdgeAt(GrayPlane(input, w), y, x)
  }

  // The intermediate values fit the 32-bit integers of the source, and the
  // result is the square root cut off at 255.
  lemma SobelBounds(g: BytePlane, y: int, x: int)
    ensures -1020 <= Gx(g, y, x) <= 1020 && -1020 <= Gy(g, y, x) <= 1020
    ensures 0 <= Gx(g, y, x) * Gx(g, y, x) + Gy(g, y, x) * Gy(g, y, x) < 0x8000_0000
    ensures var n, m := Gx(g, y, x) * Gx(g, y, x) + Gy(g, y, x) * Gy(g, y, x), EdgeAt(g, y, x);
            if n >= 255 * 255 then m == 255 else m * m <= n < (m + 1) * (m + 1)
  {
    var gx, gy := Gx(g, y, x), Gy(g, y, x);
    SquareBound(gx, 1020);
    SquareBound(gy, 1020);
    Squares(gx, gy);
    var r := Isqrt(gx * gx + gy * gy);
    if r < 255 {
      SquareBound(r + 1, 255);
    } else if r > 255 {
      SquareBound(256, r);
    }
  }

  lemma SquareBound(a: int, b: int)
    requires -b <= a <= b
    ensures 0 <= a * a <= b * b
  {
    assert (b - a) * (b + a) >= 0;
    assert (b - a) * (b + a) == b * b - a * a;
  }

  function MirrorBytes(g: BytePlane, w: int): BytePlane {
    (y, x) => g(y, w - 1 - x)
  }

  function TransposeBytes(g: BytePlane): BytePlane {
    (y, x) => g(x, y)
  }

  lemma MagnitudeSymmetric(gx: int, gy: int)
    ensures Magnitude(-gx, gy) == Magnitude(gx, gy) == Magnitude(gy, gx)
  {
    hide Isqrt;
    Squares(gx, gy);
    assert gx * gx + gy * gy == gy * gy + gx * gx;
  }

  // Mirroring negates the horizontal gradient; transposing swaps the two.
  lemma GradientSymmetries(g: BytePlane, w: int, y: int, x: int)
    ensures Gx(MirrorBytes(g, w), y, x) == -Gx(g, y, w - 1 - x)
    ensures Gy(MirrorBytes(g, w), y, x) == Gy(g, y, w - 1 - x)
    ensures Gx(TransposeBytes(g), x, y) == Gy(g, y, x) && Gy(TransposeBytes(g), x, y) == Gx(g, y, x)
  {
    assert w - 1 - (x + 1) == w - 1 - x - 1;
    assert w - 1 - (x - 1) == w - 1 - x + 1;
  }

  lemma EdgeSymmetries(g: BytePlane, w: int, y: int, x: int)
    ensures EdgeAt(MirrorBytes(g, w), y, x) == EdgeAt(g, y, w - 1 - x)
    ensures EdgeAt(TransposeBytes(g), x, y) == EdgeAt(g, y, x)
  {
    hide Gx;
    hide Gy;
    hide Magnitude;
    GradientSymmetries(g, w, y, x);
    MagnitudeSymmetric(Gx(g, y, w - 1 - x), Gy(g, y, w - 1 - x));
    MagnitudeSymmetric(Gy(g, y, x), Gx(g, y, x));
  }

  lemma EdgeExt(g: BytePlane, g': BytePlane, y: int, x: int)
    requires forall y', x' :: y - 1 <= y' <= y + 1 && x - 1 <= x' <= x + 1 ==> g(y', x') == g'(y', x')
    ensures EdgeAt(g, y, x) == EdgeAt(g', y, x)
  {
  }

  lemma EdgeCommutesWithMirror(input: seq<byte>, mirrored: seq<byte>, w: nat, h: nat, y: int, x: int, c: int)
    requires |input| == |mirrored| == 3 * (w * h) && Interior(w, h, y, x)
    requires forall y', x', c' :: Inside(w, h, y', x', c') ==>
               Shown(mirrored, w)(y', x', c') == Shown(input, w)(y', w - 1 - x', c')
    ensures EdgeImage(mirrored, w)(y, x, c) == EdgeImage(input, w)(y, w - 1 - x, c)
  {
    hide Gray;
    hide Gx;
    hide Gy;
    var g, g' := GrayPlane(input, w), GrayPlane(mirrored, w);
    forall y', x' | y - 1 <= y' <= y + 1 && x - 1 <= x' <= x + 1
      ensures g'(y', x') == MirrorBytes(g, w)(y', x')
    {
      GrayOfShown(mirrored, w, h, y', x');
      GrayOfShown(input, w, h, y', w - 1 - x');
      assert forall c' :: 0 <= c' < 3 ==> Inside(w, h, y', x', c');
    }
    EdgeExt(g', MirrorBytes(g, w), y, x);
    EdgeSymmetries(g, w, y, x);
  }

  lemma EdgeCommutesWithTranspose(input: seq<byte>, transposed: seq<byte>, w: nat, h: nat, y: int, x: int, c: int)
    requires |input| == 3 * (w * h) && |transposed| == 3 * (h * w) && Interior(w, h, y, x)
    requires forall y', x', c' :: Inside(w, h, y', x', c') ==>
               Shown(transposed, h)(x', y', c') == Shown(input, w)(y', x', c')
    ensures EdgeImage(transposed, h)(x, y, c) == EdgeImage(input, w)(y, x, c)
  {
    hide Gray;
    hide Gx;
    hide Gy;
    var g, g' := GrayPlane(input, w), GrayPlane(transposed, h);
    forall x', y' | x - 1 <= x' <= x + 1 && y - 1 <= y' <= y + 1
      ensures g'(x', y') == TransposeBytes(g)(x', y')
    {
      GrayOfShown(transposed, h, w, x', y');
      GrayOfShown(input, w, h, y', x');
      assert forall c' :: 0 <= c' < 3 ==> Inside(w, h, y', x', c');
    }
    EdgeExt(g', TransposeBytes(g), x, y);
    EdgeSymmetries(g, w, y, x);
  }
}
