// The loops of grayscale, sharpen and edge detection, and the arena, heap and Go
// entry points around them. The loops are the same in all three; what differs is
// what the output buffer holds before they start.
module StencilLoops {
  import opened Common
  import opened Sums
  import opened Convolution
  import opened Raster
  import opened Pixels
  import opened BlurSpec
  import opened StencilSpec

  // ---- grayscale

  // The three writes for pixel number i.
  lemma GrayWritten(input: seq<byte>, s: seq<byte>, t: seq<byte>, w: nat, h: nat, i: nat)
    requires |input| == |s| == 3 * (w * h) && i < w * h
    requires Filled(s, w, 3 * i, GrayImage(input, w))
    requires t == s[3 * i := GrayAt(input, 3 * i)][3 * i + 1 := GrayAt(input, 3 * i)][3 * i + 2 := GrayAt(input, 3 * i)]
    ensures Filled(t, w, 3 * (i + 1), GrayImage(input, w))
  {
    hide GrayAt;
    var y, x, c := Locate(w, h, 3 * i);
    assert Offset(w, y, x, 0) == 3 * i;
    assert Offset(w, y, x, 1) == 3 * i + 1 && Offset(w, y, x, 2) == 3 * i + 2;
    assert Offset(w, y, x + 1, 0) == 3 * (i + 1);
    assert GrayPlane(input, w)(y, x) == GrayAt(input, 3 * i);
    FilledPixel(s, t, w, h, y, x, GrayImage(input, w));
  }

  // The three output bytes of pixel number p are the luminance of its input bytes.
  predicate IsGrayPixel(input: seq<byte>, output: seq<byte>, p: nat)
    requires 3 * p + 2 < |input| == |output|
  {
    var r, g, b := input[3 * p], input[3 * p + 1], input[3 * p + 2];
    Luminance(output[3 * p], r, g, b) && Luminance(output[3 * p + 1], r, g, b) && Luminance(output[3 * p + 2], r, g, b)
  }

  ghost predicate IsGrayscale(input: seq<byte>, output: seq<byte>, w: nat, h: nat) {
    && |input| == |output| == 3 * (w * h)
    && forall p :: 0 <= p < w * h ==> IsGrayPixel(input, output, p)
  }

  lemma GrayIsLuminance(r: byte, g: byte, b: byte)
    ensures Luminance(Gray(r, g, b), r, g, b)
  {
  }

  lemma SamePixel(w: nat, y: int, x: int, z: int, p: nat, c: nat)
    requires 0 <= z < 3 && c < 3 && Offset(w, y, x, z) == 3 * p + c
    ensures z == c && Offset(w, y, x, 0) == 3 * p
  {
    var q := y * w + x;
    assert 3 * q + z == 3 * p + c;
  }

  lemma GrayByte(input: seq<byte>, output: seq<byte>, w: nat, h: nat, p: nat, c: nat)
    requires |input| == 3 * (w * h) && Renders(output, w, h, GrayImage(input, w)) && p < w * h && c < 3
    ensures Luminance(output[3 * p + c], input[3 * p], input[3 * p + 1], input[3 * p + 2])
  {
    GrayIsLuminance(input[3 * p], input[3 * p + 1], input[3 * p + 2]);
    var y, x, z := Locate(w, h, 3 * p + c);
    SamePixel(w, y, x, z, p, c);
    RenderedAt(output, w, h, GrayImage(input, w), y, x, z);
    hide Gray;
    assert GrayImage(input, w)(y, x, z) == GrayPlane(input, w)(y, x) == GrayAt(input, 3 * p);
  }

  lemma GrayscaleShows(input: seq<byte>, output: seq<byte>, w: nat, h: nat)
    requires |input| == 3 * (w * h) && Renders(output, w, h, GrayImage(input, w))
    ensures IsGrayscale(input, output, w, h)
  {
    hide Luminance;
    forall p | 0 <= p < w * h
      ensures IsGrayPixel(input, output, p)
    {
      GrayByte(input, output, w, h, p, 0);
      GrayByte(input, output, w, h, p, 1);
      GrayByte(input, output, w, h, p, 2);
    }
  }

  method Grayscale(input: seq<byte>, output: array<byte>, w: nat, h: nat)
    requires |input| == output.Length == 3 * (w * h)
    modifies output
    ensures Renders(output[..], w, h, GrayImage(input, w))
    ensures IsGrayscale(input, output[..], w, h)
  {
    hide Gray;
    hide Filled;
    hide GrayImage;
    ghost var image := GrayImage(input, w);
    var size := w * h;
    FilledStart(output[..], w, image);
    var i := 0;
    while i < size
      invariant 0 <= i <= size
      invariant Filled(output[..], w, 3 * i, image)
    {
      var idx := i * 3;
      var gray := Gray(input[idx], input[idx + 1], input[idx + 2]);
      ghost var before := output[..];
      output[idx] := gray;
      output[idx + 1] := gray;
      output[idx + 2] := gray;
      GrayWritten(input, before, output[..], w, h, i);
      i := i + 1;
    }
    assert Offset(w, h, 0, 0) == 3 * size by {
      assert h * w == w * h;
    }
    FilledAll(output[..], w, h, image);
    GrayscaleShows(input, output[..], w, h);
  }

  method GoGrayscale(input: seq<byte>, w: nat, h: nat) returns (output: array<byte>)
    requires |input| == 3 * (w * h)
    ensures fresh(output) && Renders(output[..], w, h, GrayImage(input, w))
    ensures IsGrayscale(input, output[..], w, h)
  {
    output := new byte[|input|](_ => 0);
    Grayscale(input, output, w, h);
  }

  ghost predicate IsGray(gray: seq<byte>, input: seq<byte>, w: nat, h: nat) {
    |gray| == w * h && forall p :: 0 <= p < w * h ==> gray[p] == GrayAt(input, 3 * p)
  }

  // The separate gray buffer of the edge detector, one byte per pixel.
  method GrayBuffer(input: seq<byte>, w: nat, h: nat) returns (gray: array<byte>)
    requires |input| == 3 * (w * h)
    ensures fresh(gray) && IsGray(gray[..], input, w, h)
    ensures forall p :: 0 <= p < w * h ==> Luminance(gray[p], input[3 * p], input[3 * p + 1], input[3 * p + 2])
  {
    hide Gray;
    gray := new byte[w * h](_ => 0);
    var i := 0;
    while i < w * h
      invariant 0 <= i <= w * h
      invariant forall p :: 0 <= p < i ==> gray[p] == GrayAt(input, 3 * p)
      invariant forall p :: 0 <= p < i ==> Luminance(gray[p], input[3 * p], input[3 * p + 1], input[3 * p + 2])
    {
      var idx := i * 3;
      gray[i] := Gray(input[idx], input[idx + 1], input[idx + 2]);
      i := i + 1;
    }
  }

  // ---- loops over interior pixels

  predicate Before(y': int, x': int, c': int, y: int, x: int, c: int) {
    y' < y || (y' == y && (x' < x || (x' == x && c' < c)))
  }

  // Interior samples before (y, x, c) hold `inner`; everything else shows `border`.
  ghost predicate Patched(s: seq<byte>, w: nat, h: nat, y: int, x: int, c: int,
                          inner: (int, int, int) -> byte, border: (int, int, int) -> byte)
  {
    && |s| == 3 * (w * h)
    && forall y', x', c' :: Inside(w, h, y', x', c') ==>
         Shown(s, w)(y', x', c') ==
           if Interior(w, h, y', x') && Before(y', x', c', y, x, c) then inner(y', x', c') else border(y', x', c')
  }

  lemma PatchedStart(s: seq<byte>, w: nat, h: nat, inner: (int, int, int) -> byte)
    requires |s| == 3 * (w * h)
    ensures Patched(s, w, h, 1, 1, 0, inner, Shown(s, w))
  {
  }

  // From the last interior column to the next row, or to the next pixel.
  lemma PatchedAdvance(s: seq<byte>, w: nat, h: nat, y: int, x: int,
                       inner: (int, int, int) -> byte, border: (int, int, int) -> byte)
    ensures Patched(s, w, h, y, x, 3, inner, border) ==> Patched(s, w, h, y, x + 1, 0, inner, border)
    ensures x >= w - 1 && Patched(s, w, h, y, x, 0, inner, border) ==> Patched(s, w, h, y + 1, 1, 0, inner, border)
  {
  }

  lemma PatchStep(s: seq<byte>, t: seq<byte>, w: nat, h: nat, y: int, x: int, c: int,
                  inner: (int, int, int) -> byte, border: (int, int, int) -> byte)
    requires Patched(s, w, h, y, x, c, inner, border) && Interior(w, h, y, x) && 0 <= c < 3
    requires 0 <= Offset(w, y, x, c) < |s| && t == s[Offset(w, y, x, c) := inner(y, x, c)]
    ensures Patched(t, w, h, y, x, c + 1, inner, border)
  {
    forall y', x', c' | Inside(w, h, y', x', c')
      ensures Shown(t, w)(y', x', c') ==
        if Interior(w, h, y', x') && Before(y', x', c', y, x, c + 1) then inner(y', x', c') else border(y', x', c')
    {
      OffsetInside(w, h, y', x');
      if Offset(w, y', x', c') == Offset(w, y, x, c) {
        OffsetInjective(w, y', x', c', y, x, c);
      } else {
        assert Shown(t, w)(y', x', c') == Shown(s, w)(y', x', c');
      }
    }
  }

  lemma PatchedAll(s: seq<byte>, w: nat, h: nat, y: int,
                   inner: (int, int, int) -> byte, border: (int, int, int) -> byte)
    requires Patched(s, w, h, y, 1, 0, inner, border) && y >= h - 1
    ensures Renders(s, w, h, Over(w, h, inner, border))
  {
    forall y', x', c' | Inside(w, h, y', x', c') && 0 <= Offset(w, y', x', c') < |s|
      ensures s[Offset(w, y', x', c')] == Over(w, h, inner, border)(y', x', c')
    {
      assert Shown(s, w)(y', x', c') == s[Offset(w, y', x', c')];
    }
  }

  // ---- sharpen

  function SharpenKernel(a: real): (kernel: seq<real>)
    ensures |kernel| == 9
  {
    [0.0, -a, 0.0, -a, 1.0 + 4.0 * a, -a, 0.0, -a, 0.0]
  }

  function SharpenTerms(f: Plane, a: real, y: int, x: int): Terms {
    i => f(y + i / 3 - 1, x + i % 3 - 1) * Coeff(SharpenKernel(a), i)
  }

  lemma NineTerms(t: Terms)
    ensures SumTo(t, 9) == t(0) + t(1) + t(2) + t(3) + t(4) + t(5) + t(6) + t(7) + t(8)
  {
    assert SumTo(t, 3) == t(0) + t(1) + t(2);
    assert SumTo(t, 6) == SumTo(t, 3) + t(3) + t(4) + t(5);
  }

  // The nine products are the five-point stencil.
  lemma SharpenSumIsStencil(f: Plane, a: real, y: int, x: int)
    ensures SumTo(SharpenTerms(f, a, y, x), 9) == Stencil(f, a, y, x)
  {
    var t := SharpenTerms(f, a, y, x);
    NineTerms(t);
    var n, l, r, s, v := f(y - 1, x), f(y, x - 1), f(y, x + 1), f(y + 1, x), f(y, x);
    assert t(0) == 0.0 && t(2) == 0.0 && t(6) == 0.0 && t(8) == 0.0;
    assert t(1) == n * -a && t(3) == l * -a && t(5) == r * -a && t(7) == s * -a;
    assert t(4) == v * (1.0 + 4.0 * a);
    FourNeighbours(a, n, l, r, s);
  }

  lemma FourNeighbours(a: real, n: real, l: real, r: real, s: real)
    ensures n * -a + l * -a + r * -a + s * -a == -(a * (n + l + r + s))
  {
    assert a * (n + l + r + s) == a * n + a * l + a * r + a * s;
  }

  lemma SharpenTermAt(input: seq<byte>, w: nat, h: nat, a: real, y: int, x: int, c: int, ky: int, kx: int)
    requires |input| == 3 * (w * h) && Interior(w, h, y, x) && 0 <= c < 3 && -1 <= ky <= 1 && -1 <= kx <= 1
    ensures var i, idx := (ky + 1) * 3 + (kx + 1), ((y + ky) * w + (x + kx)) * 3 + c;
      && 0 <= idx < |input|
      && SharpenTerms(ByteChannel(input, w, c), a, y, x)(i) == input[idx] as real * SharpenKernel(a)[i]
  {
    var i := (ky + 1) * 3 + (kx + 1);
    assert i / 3 - 1 == ky && i % 3 - 1 == kx;
    OffsetInside(w, h, y + ky, x + kx);
    assert Offset(w, y + ky, x + kx, c) == Offset(w, y + ky, x + kx, 0) + c;
    assert ByteChannel(input, w, c)(y + ky, x + kx) == input[Offset(w, y + ky, x + kx, c)] as real;
  }

  method SharpenSample(input: seq<byte>, w: nat, h: nat, a: real, y: int, x: int, c: int) returns (v: byte)
    requires |input| == 3 * (w * h) && Interior(w, h, y, x) && 0 <= c < 3
    ensures v == SharpenImage(input, w, a)(y, x, c)
  {
    hide SharpenTerms;
    hide SharpenKernel;
    hide Stencil;
    hide ByteChannel;
    hide ClampByte;
    var kernel := SharpenKernel(a);
    ghost var terms := SharpenTerms(ByteChannel(input, w, c), a, y, x);
    var sum := 0.0;
    var ky := -1;
    while ky <= 1
      invariant -1 <= ky <= 2
      invariant sum == SumTo(terms, (ky + 1) * 3)
    {
      var kx := -1;
      while kx <= 1
        invariant -1 <= kx <= 2
        invariant sum == SumTo(terms, (ky + 1) * 3 + (kx + 1))
      {
        SharpenTermAt(input, w, h, a, y, x, c, ky, kx);
        var idx := ((y + ky) * w + (x + kx)) * 3 + c;
        var term := input[idx] as real * kernel[(ky + 1) * 3 + (kx + 1)];
        assert term == terms((ky + 1) * 3 + (kx + 1));
        sum := sum + term;
        kx := kx + 1;
      }
      ky := ky + 1;
    }
    SharpenSumIsStencil(ByteChannel(input, w, c), a, y, x);
    v := ClampByte(sum);
  }

  method SharpenInterior(input: seq<byte>, output: array<byte>, w: nat, h: nat, a: real)
    requires |input| == output.Length == 3 * (w * h)
    modifies output
    ensures Renders(output[..], w, h, Over(w, h, SharpenImage(input, w, a), Shown(old(output[..]), w)))
  {
    ghost var inner, border := SharpenImage(input, w, a), Shown(output[..], w);
    var y := 1;
    while y < h - 1
      invariant 1 <= y
      invariant Patched(output[..], w, h, y, 1, 0, inner, border)
    {
      var x := 1;
      while x < w - 1
        invariant 1 <= x
        invariant Patched(output[..], w, h, y, x, 0, inner, border)
      {
        var c := 0;
        while c < 3
          invariant 0 <= c <= 3
          invariant Patched(output[..], w, h, y, x, c, inner, border)
        {
          var v := SharpenSample(input, w, h, a, y, x, c);
          ghost var before := output[..];
          OffsetInside(w, h, y, x);
          output[(y * w + x) * 3 + c] := v;
          PatchStep(before, output[..], w, h, y, x, c, inner, border);
          c := c + 1;
        }
        x := x + 1;
      }
      y := y + 1;
    }
    PatchedAll(output[..], w, h, y, inner, border);
  }

  method ArenaSharpen(input: seq<byte>, output: array<byte>, w: nat, h: nat, a: real)
    requires |input| == output.Length == 3 * (w * h)
    modifies output
    ensures Renders(output[..], w, h, Over(w, h, SharpenImage(input, w, a), Shown(old(output[..]), w)))
  {
    SharpenInterior(input, output, w, h, a);
  }

  // The heap version copies the input first.
  method HeapSharpen(input: seq<byte>, output: array<byte>, w: nat, h: nat, a: real)
    requires |input| == output.Length == 3 * (w * h)
    modifies output
    ensures Renders(output[..], w, h, Over(w, h, SharpenImage(input, w, a), Shown(input, w)))
  {
    forall i | 0 <= i < output.Length {
      output[i] := input[i];
    }
    assert output[..] == input;
    SharpenInterior(input, output, w, h, a);
  }

  // The Go version starts from a zeroed slice.
  method GoSharpen(input: seq<byte>, w: nat, h: nat, a: real) returns (output: array<byte>)
    requires |input| == 3 * (w * h)
    ensures fresh(output)
    ensures Renders(output[..], w, h, Over(w, h, SharpenImage(input, w, a), Black()))
  {
    output := new byte[|input|](_ => 0);
    ghost var zeros := output[..];
    SharpenInterior(input, output, w, h, a);
    SameBorder(output[..], w, h, SharpenImage(input, w, a), Shown(zeros, w), Black());
  }

  function Black(): (int, int, int) -> byte {
    (y, x, c) => 0
  }

  lemma SameBorder(s: seq<byte>, w: nat, h: nat, inner: (int, int, int) -> byte,
                   border: (int, int, int) -> byte, border': (int, int, int) -> byte)
    requires Renders(s, w, h, Over(w, h, inner, border))
    requires forall y, x, c :: Inside(w, h, y, x, c) ==> border(y, x, c) == border'(y, x, c)
    ensures Renders(s, w, h, Over(w, h, inner, border'))
  {
  }

  // ---- edge detection

  const SOBEL_X: seq<int> := [-1, 0, 1, -2, 0, 2, -1, 0, 1]
  const SOBEL_Y: seq<int> := [-1, -2, -1, 0, 0, 0, 1, 2, 1]

  function TableAt(table: seq<int>, i: int): int {
    if 0 <= i < |table| then table[i] else 0
  }

  function Product(g: BytePlane, table: seq<int>, y: int, x: int, i: int): int {
    g(y + i / 3 - 1, x + i % 3 - 1) * TableAt(table, i)
  }

  // The first n of the nine products.
  function Products(g: BytePlane, table: seq<int>, y: int, x: int, n: nat): int
    decreases n
  {
    if n == 0 then 0 else Products(g, table, y, x, n - 1) + Product(g, table, y, x, n - 1)
  }

  lemma NineProducts(g: BytePlane, table: seq<int>, y: int, x: int)
    ensures Products(g, table, y, x, 9)
         == Product(g, table, y, x, 0) + Product(g, table, y, x, 1) + Product(g, table, y, x, 2)
          + Product(g, table, y, x, 3) + Product(g, table, y, x, 4) + Product(g, table, y, x, 5)
          + Product(g, table, y, x, 6) + Product(g, table, y, x, 7) + Product(g, table, y, x, 8)
  {
    hide Product;
    assert Products(g, table, y, x, 3)
        == Product(g, table, y, x, 0) + Product(g, table, y, x, 1) + Product(g, table, y, x, 2);
    assert Products(g, table, y, x, 6) == Products(g, table, y, x, 3)
          + Product(g, table, y, x, 3) + Product(g, table, y, x, 4) + Product(g, table, y, x, 5);
  }

  lemma ProductsAreGradients(g: BytePlane, y: int, x: int)
    ensures Products(g, SOBEL_X, y, x, 9) == Gx(g, y, x)
    ensures Products(g, SOBEL_Y, y, x, 9) == Gy(g, y, x)
  {
    hide Products;
    NineProducts(g, SOBEL_X, y, x);
    NineProducts(g, SOBEL_Y, y, x);
  }

  lemma SobelTermAt(input: seq<byte>, gray: seq<byte>, w: nat, h: nat, table: seq<int>,
                    y: int, x: int, ky: int, kx: int)
    requires |input| == 3 * (w * h) && IsGray(gray, input, w, h) && Interior(w, h, y, x)
    requires |table| == 9 && -1 <= ky <= 1 && -1 <= kx <= 1
    ensures var i, at := (ky + 1) * 3 + (kx + 1), (y + ky) * w + (x + kx);
      && 0 <= at < |gray|
      && Product(GrayPlane(input, w), table, y, x, i) == gray[at] * table[i]
  {
    hide GrayAt;
    var i := (ky + 1) * 3 + (kx + 1);
    assert i / 3 - 1 == ky && i % 3 - 1 == kx;
    OffsetInside(w, h, y + ky, x + kx);
    var at := (y + ky) * w + (x + kx);
    assert Offset(w, y + ky, x + kx, 0) == 3 * at;
    assert GrayPlane(input, w)(y + ky, x + kx) == gray[at];
  }

  method SobelSample(input: seq<byte>, gray: seq<byte>, w: nat, h: nat, y: int, x: int) returns (magnitude: byte)
    requires |input| == 3 * (w * h) && IsGray(gray, input, w, h) && Interior(w, h, y, x)
    ensures magnitude == EdgeAt(GrayPlane(input, w), y, x)
  {
    hide GrayPlane;
    hide Product;
    ghost var g := GrayPlane(input, w);
    var gx, gy := 0, 0;
    var ky := -1;
    while ky <= 1
      invariant -1 <= ky <= 2
      invariant gx == Products(g, SOBEL_X, y, x, (ky + 1) * 3)
      invariant gy == Products(g, SOBEL_Y, y, x, (ky + 1) * 3)
    {
      var kx := -1;
      while kx <= 1
        invariant -1 <= kx <= 2
        invariant gx == Products(g, SOBEL_X, y, x, (ky + 1) * 3 + (kx + 1))
        invariant gy == Products(g, SOBEL_Y, y, x, (ky + 1) * 3 + (kx + 1))
      {
        SobelTermAt(input, gray, w, h, SOBEL_X, y, x, ky, kx);
        SobelTermAt(input, gray, w, h, SOBEL_Y, y, x, ky, kx);
        var pixel := gray[(y + ky) * w + (x + kx)];
        gx := gx + pixel * SOBEL_X[(ky + 1) * 3 + (kx + 1)];
        gy := gy + pixel * SOBEL_Y[(ky + 1) * 3 + (kx + 1)];
        kx := kx + 1;
      }
      ky := ky + 1;
    }
    ProductsAreGradients(g, y, x);
    Squares(gx, gy);
    magnitude := Min(255, Isqrt(gx * gx + gy * gy));
  }

  method EdgeInterior(input: seq<byte>, output: array<byte>, w: nat, h: nat)
    requires |input| == output.Length == 3 * (w * h)
    modifies output
    ensures Renders(output[..], w, h, Over(w, h, EdgeImage(input, w), Shown(old(output[..]), w)))
  {
    hide IsGray;
    hide Patched;
    var gray := GrayBuffer(input, w, h);
    ghost var inner, border := EdgeImage(input, w), Shown(output[..], w);
    PatchedStart(output[..], w, h, inner);
    var y := 1;
    while y < h - 1
      invariant 1 <= y && IsGray(gray[..], input, w, h)
      invariant Patched(output[..], w, h, y, 1, 0, inner, border)
    {
      var x := 1;
      while x < w - 1
        invariant 1 <= x && IsGray(gray[..], input, w, h)
        invariant Patched(output[..], w, h, y, x, 0, inner, border)
      {
        var magnitude := SobelSample(input, gray[..], w, h, y, x);
        OffsetInside(w, h, y, x);
        var outIdx := (y * w + x) * 3;
        ghost var s0 := output[..];
        output[outIdx] := magnitude;
        ghost var s1 := output[..];
        output[outIdx + 1] := magnitude;
        ghost var s2 := output[..];
        output[outIdx + 2] := magnitude;
        PatchStep(s0, s1, w, h, y, x, 0, inner, border);
        PatchStep(s1, s2, w, h, y, x, 1, inner, border);
        PatchStep(s2, output[..], w, h, y, x, 2, inner, border);
        PatchedAdvance(output[..], w, h, y, x, inner, border);
        x := x + 1;
      }
      PatchedAdvance(output[..], w, h, y, x, inner, border);
      y := y + 1;
    }
    PatchedAll(output[..], w, h, y, inner, border);
  }

  method ArenaEdgeDetect(input: seq<byte>, output: array<byte>, w: nat, h: nat)
    requires |input| == output.Length == 3 * (w * h)
    modifies output
    ensures Renders(output[..], w, h, Over(w, h, EdgeImage(input, w), Shown(old(output[..]), w)))
  {
    EdgeInterior(input, output, w, h);
  }

  // The heap version zero-fills first; its gray buffer does not touch the output.
  method HeapEdgeDetect(input: seq<byte>, output: array<byte>, w: nat, h: nat)
    requires |input| == output.Length == 3 * (w * h)
    modifies output
    ensures Renders(output[..], w, h, Over(w, h, EdgeImage(input, w), Black()))
  {
    forall i | 0 <= i < output.Length {
      output[i] := 0;
    }
    ghost var zeros := output[..];
    EdgeInterior(input, output, w, h);
    SameBorder(output[..], w, h, EdgeImage(input, w), Shown(zeros, w), Black());
  }

  method GoEdgeDetect(input: seq<byte>, w: nat, h: nat) returns (output: array<byte>)
    requires |input| == 3 * (w * h)
    ensures fresh(output)
    ensures Renders(output[..], w, h, Over(w, h, EdgeImage(input, w), Black()))
  {
    output := new byte[|input|](_ => 0);
    ghost var zeros := output[..];
    EdgeInterior(input, output, w, h);
    SameBorder(output[..], w, h, EdgeImage(input, w), Shown(zeros, w), Black());
  }
}
