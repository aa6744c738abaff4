// The loops of the four blur implementations, each proved to render the blur:
// arena scalar, arena AVX2, heap and Go.
module BlurLoops {
  import opened Common
  import opened Sums
  import opened Convolution
  import opened Raster
  import opened Pixels
  import opened BlurSpec

  // ---- arena, scalar

  // The scalar tap loop, started at tap `from`: the whole kernel in the scalar
  // version, what the blocks of eight leave over in the AVX2 one.
  method AddTaps(input: seq<byte>, w: nat, h: nat, kernel: seq<real>, y: int, x: int, from: nat,
                 r0: real, g0: real, b0: real)
    returns (r: real, g: real, b: real)
    requires |input| == 3 * (w * h) && 0 <= y < h && 0 <= x < w && from <= |kernel|
    requires r0 == SumTo(HTerms(ByteChannel(input, w, 0), w, kernel, y, x), from)
    requires g0 == SumTo(HTerms(ByteChannel(input, w, 1), w, kernel, y, x), from)
    requires b0 == SumTo(HTerms(ByteChannel(input, w, 2), w, kernel, y, x), from)
    ensures r == HImage(input, w, kernel)(y, x, 0)
    ensures g == HImage(input, w, kernel)(y, x, 1)
    ensures b == HImage(input, w, kernel)(y, x, 2)
  {
    hide HTerms;
    ghost var red := HTerms(ByteChannel(input, w, 0), w, kernel, y, x);
    ghost var green := HTerms(ByteChannel(input, w, 1), w, kernel, y, x);
    ghost var blue := HTerms(ByteChannel(input, w, 2), w, kernel, y, x);
    var half := |kernel| / 2;
    r, g, b := r0, g0, b0;
    var k := from;
    while k < |kernel|
      invariant 0 <= k <= |kernel|
      invariant r == SumTo(red, k) && g == SumTo(green, k) && b == SumTo(blue, k)
    {
      var kx := Max(0, Min(x - half + k, w - 1));
      HTermAt(input, w, h, kernel, y, x, 0, k);
      HTermAt(input, w, h, kernel, y, x, 1, k);
      HTermAt(input, w, h, kernel, y, x, 2, k);
      var idx := (y * w + kx) * 3;
      r := r + input[idx] as real * kernel[k];
      g := g + input[idx + 1] as real * kernel[k];
      b := b + input[idx + 2] as real * kernel[k];
      k := k + 1;
    }
  }

  method ConvolveHorizontal(input: seq<byte>, temp: array<real>, w: nat, h: nat, kernel: seq<real>)
    requires |input| == temp.Length == 3 * (w * h)
    modifies temp
    ensures Renders(temp[..], w, h, HImage(input, w, kernel))
  {
    ghost var image := HImage(input, w, kernel);
    var y := 0;
    while y < h
      invariant 0 <= y <= h
      invariant Filled(temp[..], w, Offset(w, y, 0, 0), image)
    {
      var x := 0;
      while x < w
        invariant 0 <= x <= w
        invariant Filled(temp[..], w, Offset(w, y, x, 0), image)
      {
        var r, g, b := AddTaps(input, w, h, kernel, y, x, 0, 0.0, 0.0, 0.0);
        WritePixel(temp, w, h, y, x, r, g, b, image);
        x := x + 1;
      }
      FilledRow(temp[..], w, y, image);
      y := y + 1;
    }
    FilledAll(temp[..], w, h, image);
  }

  // The three assignments that end every loop over pixels.
  method WritePixel<T>(buffer: array<T>, w: nat, h: nat, y: int, x: int, r: T, g: T, b: T,
                       ghost image: (int, int, int) -> T)
    requires buffer.Length == 3 * (w * h) && 0 <= y < h && 0 <= x < w
    requires Filled(buffer[..], w, Offset(w, y, x, 0), image)
    requires r == image(y, x, 0) && g == image(y, x, 1) && b == image(y, x, 2)
    modifies buffer
    ensures Filled(buffer[..], w, Offset(w, y, x + 1, 0), image)
  {
    ghost var before := buffer[..];
    OffsetInside(w, h, y, x);
    var outIdx := (y * w + x) * 3;
    buffer[outIdx] := r;
    buffer[outIdx + 1] := g;
    buffer[outIdx + 2] := b;
    FilledPixel(before, buffer[..], w, h, y, x, image);
  }

  method VerticalPixel(temp: seq<real>, w: nat, h: nat, kernel: seq<real>, y: int, x: int)
    returns (r: byte, g: byte, b: byte)
    requires |temp| == 3 * (w * h) && 0 <= y < h && 0 <= x < w
    ensures r == VImage(temp, w, h, kernel)(y, x, 0)
    ensures g == VImage(temp, w, h, kernel)(y, x, 1)
    ensures b == VImage(temp, w, h, kernel)(y, x, 2)
  {
    hide VTerms;
    var sumR, sumG, sumB := 0.0, 0.0, 0.0;
    var half := |kernel| / 2;
    ghost var red := VTerms(RealChannel(temp, w, 0), h, kernel, y, x);
    ghost var green := VTerms(RealChannel(temp, w, 1), h, kernel, y, x);
    ghost var blue := VTerms(RealChannel(temp, w, 2), h, kernel, y, x);
    var k := 0;
    while k < |kernel|
      invariant 0 <= k <= |kernel|
      invariant sumR == SumTo(red, k) && sumG == SumTo(green, k) && sumB == SumTo(blue, k)
    {
      var ky := Max(0, Min(y - half + k, h - 1));
      VTermAt(temp, w, h, kernel, y, x, 0, k);
      VTermAt(temp, w, h, kernel, y, x, 1, k);
      VTermAt(temp, w, h, kernel, y, x, 2, k);
      var idx := (ky * w + x) * 3;
      sumR := sumR + temp[idx] * kernel[k];
      sumG := sumG + temp[idx + 1] * kernel[k];
      sumB := sumB + temp[idx + 2] * kernel[k];
      k := k + 1;
    }
    r, g, b := ClampByte(sumR), ClampByte(sumG), ClampByte(sumB);
  }

  method ConvolveVertical(temp: seq<real>, output: array<byte>, w: nat, h: nat, kernel: seq<real>)
    requires |temp| == output.Length == 3 * (w * h)
    modifies output
    ensures Renders(output[..], w, h, VImage(temp, w, h, kernel))
  {
    ghost var image := VImage(temp, w, h, kernel);
    var y := 0;
    while y < h
      invariant 0 <= y <= h
      invariant Filled(output[..], w, Offset(w, y, 0, 0), image)
    {
      var x := 0;
      while x < w
        invariant 0 <= x <= w
        invariant Filled(output[..], w, Offset(w, y, x, 0), image)
      {
        var r, g, b := VerticalPixel(temp, w, h, kernel, y, x);
        WritePixel(output, w, h, y, x, r, g, b, image);
        x := x + 1;
      }
      FilledRow(output[..], w, y, image);
      y := y + 1;
    }
    FilledAll(output[..], w, h, image);
  }

  // ---- arena, AVX2: registers of eight lanes

  type Register = v: seq<real> | |v| == 8 witness [0.0, 0.0, 0.0, 0.0, 0.0, 0.0, 0.0, 0.0]

  const ZERO: Register := [0.0, 0.0, 0.0, 0.0, 0.0, 0.0, 0.0, 0.0]

  // _mm256_fmadd_ps: a * b + c in every lane
  function Fmadd(a: Register, b: Register, c: Register): Register {
    seq(8, i requires 0 <= i < 8 => a[i] * b[i] + c[i])
  }

  function Lanes(v: Register): Terms {
    Coeffs(v)
  }

  // Lane by lane, a register gains one product.
  lemma FmaddLanes(terms: Terms, a: Register, b: Register, c: Register)
    requires forall i :: 0 <= i < 8 ==> a[i] * b[i] == terms(i)
    ensures SumTo(Lanes(Fmadd(a, b, c)), 8) == SumTo(terms, 8) + SumTo(Lanes(c), 8)
  {
    hide SumTo;
    var result := Lanes(Fmadd(a, b, c));
    forall i | 0 <= i < 8
      ensures result(i) == Plus(terms, Lanes(c))(i)
    {
      assert Fmadd(a, b, c)[i] == a[i] * b[i] + c[i];
    }
    SumExt(result, Plus(terms, Lanes(c)), 8);
    SumAdd(terms, Lanes(c), 8);
  }

  // One block of eight taps: the lanes together gain the eight terms.
  lemma BlockStep(terms: Terms, k: nat, a: Register, b: Register, c: Register)
    requires SumTo(Lanes(c), 8) == SumTo(terms, k)
    requires forall i :: 0 <= i < 8 ==> a[i] * b[i] == terms(k + i)
    ensures SumTo(Lanes(Fmadd(a, b, c)), 8) == SumTo(terms, k + 8)
  {
    hide SumTo;
    hide Lanes;
    FmaddLanes(Shift(terms, k), a, b, c);
    SumSplit(terms, k, 8);
  }

  lemma ZeroLanes()
    ensures SumTo(Lanes(ZERO), 8) == 0.0
  {
    SumOfZeros(Lanes(ZERO), 8);
  }

  // The loop that adds the eight lanes of a stored register.
  method AddLanes(v: Register) returns (total: real)
    ensures total == SumTo(Lanes(v), 8)
  {
    total := 0.0;
    var i := 0;
    while i < 8
      invariant 0 <= i <= 8
      invariant total == SumTo(Lanes(v), i)
    {
      total := total + v[i];
      i := i + 1;
    }
  }

  // Gather eight neighbouring samples of a row, clamping each column.
  method LoadRow(input: seq<byte>, w: nat, h: nat, kernel: seq<real>, y: int, x: int, c: int, k: nat)
    returns (v: Register)
    requires |input| == 3 * (w * h) && Inside(w, h, y, x, c) && k + 7 < |kernel|
    ensures forall i :: 0 <= i < 8 ==>
              v[i] * kernel[k + i] == HTerms(ByteChannel(input, w, c), w, kernel, y, x)(k + i)
  {
    v := ZERO;
    var kx := x - |kernel| / 2 + k;
    var i := 0;
    while i < 8
      invariant 0 <= i <= 8
      invariant forall j :: 0 <= j < i ==>
                  v[j] * kernel[k + j] == HTerms(ByteChannel(input, w, c), w, kernel, y, x)(k + j)
    {
      var px := Max(0, Min(kx + i, w - 1));
      HTermAt(input, w, h, kernel, y, x, c, k + i);
      var idx := (y * w + px) * 3;
      v := v[i := input[idx + c] as real];
      i := i + 1;
    }
  }

  // Load, multiply and accumulate one block of one channel.
  method AccumulateBlock(input: seq<byte>, w: nat, h: nat, kernel: seq<real>, y: int, x: int, c: int, k: nat,
                         sum: Register)
    returns (sum': Register)
    requires |input| == 3 * (w * h) && Inside(w, h, y, x, c) && k + 7 < |kernel|
    requires SumTo(Lanes(sum), 8) == SumTo(HTerms(ByteChannel(input, w, c), w, kernel, y, x), k)
    ensures SumTo(Lanes(sum'), 8) == SumTo(HTerms(ByteChannel(input, w, c), w, kernel, y, x), k + 8)
  {
    hide HTerms;
    hide SumTo;
    hide Lanes;
    var kvals: Register := kernel[k..k + 8];
    var v := LoadRow(input, w, h, kernel, y, x, c, k);
    sum' := Fmadd(v, kvals, sum);
    BlockStep(HTerms(ByteChannel(input, w, c), w, kernel, y, x), k, v, kvals, sum);
  }

  method HorizontalPixelAvx2(input: seq<byte>, w: nat, h: nat, kernel: seq<real>, y: int, x: int)
    returns (r: real, g: real, b: real)
    requires |input| == 3 * (w * h) && 0 <= y < h && 0 <= x < w
    ensures r == HImage(input, w, kernel)(y, x, 0)
    ensures g == HImage(input, w, kernel)(y, x, 1)
    ensures b == HImage(input, w, kernel)(y, x, 2)
  {
    hide HTerms;
    hide Lanes;
    ghost var red := HTerms(ByteChannel(input, w, 0), w, kernel, y, x);
    ghost var green := HTerms(ByteChannel(input, w, 1), w, kernel, y, x);
    ghost var blue := HTerms(ByteChannel(input, w, 2), w, kernel, y, x);
    var sumR, sumG, sumB := ZERO, ZERO, ZERO;
    ZeroLanes();
    var k := 0;
    while k + 7 < |kernel|
      invariant 0 <= k <= |kernel|
      invariant SumTo(Lanes(sumR), 8) == SumTo(red, k)
      invariant SumTo(Lanes(sumG), 8) == SumTo(green, k)
      invariant SumTo(Lanes(sumB), 8) == SumTo(blue, k)
    {
      sumR := AccumulateBlock(input, w, h, kernel, y, x, 0, k, sumR);
      sumG := AccumulateBlock(input, w, h, kernel, y, x, 1, k, sumG);
      sumB := AccumulateBlock(input, w, h, kernel, y, x, 2, k, sumB);
      k := k + 8;
    }
    var finalR := AddLanes(sumR);
    var finalG := AddLanes(sumG);
    var finalB := AddLanes(sumB);
    r, g, b := AddTaps(input, w, h, kernel, y, x, k, finalR, finalG, finalB);
  }

  method ConvolveHorizontalAvx2(input: seq<byte>, temp: array<real>, w: nat, h: nat, kernel: seq<real>)
    requires |input| == temp.Length == 3 * (w * h)
    modifies temp
    ensures Renders(temp[..], w, h, HImage(input, w, kernel))
  {
    ghost var image := HImage(input, w, kernel);
    var y := 0;
    while y < h
      invariant 0 <= y <= h
      invariant Filled(temp[..], w, Offset(w, y, 0, 0), image)
    {
      var x := 0;
      while x < w
        invariant 0 <= x <= w
        invariant Filled(temp[..], w, Offset(w, y, x, 0), image)
      {
        var r, g, b := HorizontalPixelAvx2(input, w, h, kernel, y, x);
        WritePixel(temp, w, h, y, x, r, g, b, image);
        x := x + 1;
      }
      FilledRow(temp[..], w, y, image);
      y := y + 1;
    }
    FilledAll(temp[..], w, h, image);
  }

  // Eight neighbouring columns of one channel at once; lane i sums column x + i.
  method VerticalColumns(temp: seq<real>, w: nat, h: nat, kernel: seq<real>, y: int, x: int, c: int)
    returns (sum: Register)
    requires |temp| == 3 * (w * h) && 0 <= y < h && 0 <= x && x + 8 <= w && 0 <= c < 3
    ensures forall i :: 0 <= i < 8 ==> ClampByte(sum[i]) == VImage(temp, w, h, kernel)(y, x + i, c)
  {
    hide VTerms;
    hide RealChannel;
    ghost var channel := RealChannel(temp, w, c);
    var half := |kernel| / 2;
    sum := ZERO;
    var k := 0;
    while k < |kernel|
      invariant 0 <= k <= |kernel|
      invariant forall i :: 0 <= i < 8 ==> sum[i] == SumTo(VTerms(channel, h, kernel, y, x + i), k)
    {
      var ky := Max(0, Min(y - half + k, h - 1));
      var kval: Register := seq(8, _ => kernel[k]);
      var v := ZERO;
      var i := 0;
      while i < 8
        invariant 0 <= i <= 8
        invariant forall j :: 0 <= j < i ==> v[j] * kernel[k] == VTerms(channel, h, kernel, y, x + j)(k)
      {
        VTermAt(temp, w, h, kernel, y, x + i, c, k);
        var idx := (ky * w + x + i) * 3;
        v := v[i := temp[idx + c]];
        i := i + 1;
      }
      sum := Fmadd(v, kval, sum);
      k := k + 1;
    }
  }

  method ConvolveVerticalAvx2(temp: seq<real>, output: array<byte>, w: nat, h: nat, kernel: seq<real>)
    requires |temp| == output.Length == 3 * (w * h)
    modifies output
    ensures Renders(output[..], w, h, VImage(temp, w, h, kernel))
  {
    hide Filled;
    hide Offset;
    hide VImage;
    hide Renders;
    ghost var image := VImage(temp, w, h, kernel);
    FilledStart(output[..], w, image);
    var y := 0;
    while y < h
      invariant 0 <= y <= h
      invariant Filled(output[..], w, Offset(w, y, 0, 0), image)
    {
      var x := 0;
      while x < w - 7
        invariant 0 <= x <= w && x % 8 == 0
        invariant Filled(output[..], w, Offset(w, y, x, 0), image)
      {
        var resultR := VerticalColumns(temp, w, h, kernel, y, x, 0);
        var resultG := VerticalColumns(temp, w, h, kernel, y, x, 1);
        var resultB := VerticalColumns(temp, w, h, kernel, y, x, 2);
        var i := 0;
        while i < 8
          invariant 0 <= i <= 8
          invariant Filled(output[..], w, Offset(w, y, x + i, 0), image)
        {
          WritePixel(output, w, h, y, x + i,
                     ClampByte(resultR[i]), ClampByte(resultG[i]), ClampByte(resultB[i]), image);
          i := i + 1;
        }
        x := x + 8;
      }
      assert x == w / 8 * 8;
      x := w / 8 * 8;
      while x < w
        invariant 0 <= x <= w
        invariant Filled(output[..], w, Offset(w, y, x, 0), image)
      {
        var r, g, b := VerticalPixel(temp, w, h, kernel, y, x);
        WritePixel(output, w, h, y, x, r, g, b, image);
        x := x + 1;
      }
      FilledRow(output[..], w, y, image);
      y := y + 1;
    }
    FilledAll(output[..], w, h, image);
  }
}
