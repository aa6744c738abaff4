// The heap and Go blurs, and the three entry points side by side.
module BlurRivals {
  import opened Common
  import opened Sums
  import opened Convolution
  import opened GaussianKernel
  import opened Raster
  import opened Pixels
  import opened BlurSpec
  import opened BlurLoops

  // The blur every implementation is measured against.
  ghost function ExpectedBlur(exp: Exponential, input: seq<byte>, w: int, h: int, radius: real): (int, int, int) -> byte
    requires Positive(exp) && radius > 0.0
  {
    BlurImage(input, w, h, Gaussian(exp, KernelSize(radius), radius))
  }

  // ---- heap: one accumulator, channel by channel

  method HeapRowSum(input: seq<byte>, w: nat, h: nat, kernel: seq<real>, y: int, x: int, c: int) returns (acc: real)
    requires |input| == 3 * (w * h) && Inside(w, h, y, x, c)
    ensures acc == HImage(input, w, kernel)(y, x, c)
  {
    hide HTerms;
    ghost var terms := HTerms(ByteChannel(input, w, c), w, kernel, y, x);
    var half := |kernel| / 2;
    acc := 0.0;
    var k := 0;
    while k < |kernel|
      invariant 0 <= k <= |kernel|
      invariant acc == SumTo(terms, k)
    {
      var px := Max(0, Min(x - half + k, w - 1));
      HTermAt(input, w, h, kernel, y, x, c, k);
      acc := acc + input[(y * w + px) * 3 + c] as real * kernel[k];
      k := k + 1;
    }
  }

  method HeapColumnSum(temp: seq<real>, w: nat, h: nat, kernel: seq<real>, y: int, x: int, c: int) returns (v: byte)
    requires |temp| == 3 * (w * h) && Inside(w, h, y, x, c)
    ensures v == VImage(temp, w, h, kernel)(y, x, c)
  {
    hide VTerms;
    ghost var terms := VTerms(RealChannel(temp, w, c), h, kernel, y, x);
    var half := |kernel| / 2;
    var acc := 0.0;
    var k := 0;
    while k < |kernel|
      invariant 0 <= k <= |kernel|
      invariant acc == SumTo(terms, k)
    {
      var py := Max(0, Min(y - half + k, h - 1));
      VTermAt(temp, w, h, kernel, y, x, c, k);
      acc := acc + temp[(py * w + x) * 3 + c] * kernel[k];
      k := k + 1;
    }
    v := ClampByte(acc);
  }

  method WriteSample<T>(buffer: array<T>, w: nat, h: nat, y: int, x: int, c: int, v: T,
                        ghost image: (int, int, int) -> T)
    requires buffer.Length == 3 * (w * h) && Inside(w, h, y, x, c)
    requires Filled(buffer[..], w, Offset(w, y, x, c), image) && v == image(y, x, c)
    modifies buffer
    ensures Filled(buffer[..], w, Offset(w, y, x, c) + 1, image)
  {
    ghost var before := buffer[..];
    OffsetInside(w, h, y, x);
    buffer[(y * w + x) * 3 + c] := v;
    FilledStep(before, buffer[..], w, y, x, c, image);
  }

  method HeapHorizontal(input: seq<byte>, temp: array<real>, w: nat, h: nat, kernel: seq<real>)
    requires |input| == temp.Length == 3 * (w * h)
    modifies temp
    ensures Renders(temp[..], w, h, HImage(input, w, kernel))
  {
    ghost var image := HImage(input, w, kernel);
    var y := 0;
    while y < h
      invariant 0 <= y <= h
      invariant Filled(temp[..], w, Offset(w, y, 0, 0), image)
    {
      var x := 0;
      while x < w
        invariant 0 <= x <= w
        invariant Filled(temp[..], w, Offset(w, y, x, 0), image)
      {
        var c := 0;
        while c < 3
          invariant 0 <= c <= 3
          invariant Filled(temp[..], w, Offset(w, y, x, c), image)
        {
          var acc := HeapRowSum(input, w, h, kernel, y, x, c);
          WriteSample(temp, w, h, y, x, c, acc, image);
          c := c + 1;
        }
        x := x + 1;
      }
      FilledRow(temp[..], w, y, image);
      y := y + 1;
    }
    FilledAll(temp[..], w, h, image);
  }

  method HeapVertical(temp: seq<real>, output: array<byte>, w: nat, h: nat, kernel: seq<real>)
    requires |temp| == output.Length == 3 * (w * h)
    modifies output
    ensures Renders(output[..], w, h, VImage(temp, w, h, kernel))
  {
    ghost var image := VImage(temp, w, h, kernel);
    var y := 0;
    while y < h
      invariant 0 <= y <= h
      invariant Filled(output[..], w, Offset(w, y, 0, 0), image)
    {
      var x := 0;
      while x < w
        invariant 0 <= x <= w
        invariant Filled(output[..], w, Offset(w, y, x, 0), image)
      {
        var c := 0;
        while c < 3
          invariant 0 <= c <= 3
          invariant Filled(output[..], w, Offset(w, y, x, c), image)
        {
          var v := HeapColumnSum(temp, w, h, kernel, y, x, c);
          WriteSample(output, w, h, y, x, c, v, image);
          c := c + 1;
        }
        x := x + 1;
      }
      FilledRow(output[..], w, y, image);
      y := y + 1;
    }
    FilledAll(output[..], w, h, image);
  }

  // ---- Go: explicit edge tests, and length guards that never fail

  method GoRowSum(input: seq<byte>, w: nat, h: nat, kernel: seq<real>, y: int, x: int)
    returns (sumR: real, sumG: real, sumB: real)
    requires |input| == 3 * (w * h) && 0 <= y < h && 0 <= x < w
    ensures sumR == HImage(input, w, kernel)(y, x, 0)
    ensures sumG == HImage(input, w, kernel)(y, x, 1)
    ensures sumB == HImage(input, w, kernel)(y, x, 2)
  {
    hide HTerms;
    ghost var red := HTerms(ByteChannel(input, w, 0), w, kernel, y, x);
    ghost var green := HTerms(ByteChannel(input, w, 1), w, kernel, y, x);
    ghost var blue := HTerms(ByteChannel(input, w, 2), w, kernel, y, x);
    var half := |kernel| / 2;
    sumR, sumG, sumB := 0.0, 0.0, 0.0;
    var k := 0;
    while k < |kernel|
      invariant 0 <= k <= |kernel|
      invariant sumR == SumTo(red, k) && sumG == SumTo(green, k) && sumB == SumTo(blue, k)
    {
      var kx := x - half + k;
      if kx < 0 {
        kx := 0;
      }
      if kx >= w {
        kx := w - 1;
      }
      HTermAt(input, w, h, kernel, y, x, 0, k);
      HTermAt(input, w, h, kernel, y, x, 1, k);
      HTermAt(input, w, h, kernel, y, x, 2, k);
      var idx := (y * w + kx) * 3;
      if idx + 2 < |input| {
        sumR := sumR + input[idx] as real * kernel[k];
        sumG := sumG + input[idx + 1] as real * kernel[k];
        sumB := sumB + input[idx + 2] as real * kernel[k];
      }
      k := k + 1;
    }
  }

  method GoColumnSum(temp: seq<real>, w: nat, h: nat, kernel: seq<real>, y: int, x: int)
    returns (r: byte, g: byte, b: byte)
    requires |temp| == 3 * (w * h) && 0 <= y < h && 0 <= x < w
    ensures r == VImage(temp, w, h, kernel)(y, x, 0)
    ensures g == VImage(temp, w, h, kernel)(y, x, 1)
    ensures b == VImage(temp, w, h, kernel)(y, x, 2)
  {
    hide VTerms;
    ghost var red := VTerms(RealChannel(temp, w, 0), h, kernel, y, x);
    ghost var green := VTerms(RealChannel(temp, w, 1), h, kernel, y, x);
    ghost var blue := VTerms(RealChannel(temp, w, 2), h, kernel, y, x);
    var half := |kernel| / 2;
    var sumR, sumG, sumB := 0.0, 0.0, 0.0;
    var k := 0;
    while k < |kernel|
      invariant 0 <= k <= |kernel|
      invariant sumR == SumTo(red, k) && sumG == SumTo(green, k) && sumB == SumTo(blue, k)
    {
      var ky := y - half + k;
      if ky < 0 {
        ky := 0;
      }
      if ky >= h {
        ky := h - 1;
      }
      VTermAt(temp, w, h, kernel, y, x, 0, k);
      VTermAt(temp, w, h, kernel, y, x, 1, k);
      VTermAt(temp, w, h, kernel, y, x, 2, k);
      var idx := (ky * w + x) * 3;
      if idx + 2 < |temp| {
        sumR := sumR + temp[idx] * kernel[k];
        sumG := sumG + temp[idx + 1] * kernel[k];
        sumB := sumB + temp[idx + 2] * kernel[k];
      }
      k := k + 1;
    }
    r, g, b := GoClampToByte(sumR), GoClampToByte(sumG), GoClampToByte(sumB);
  }

  method GoHorizontal(input: seq<byte>, temp: array<real>, w: nat, h: nat, kernel: seq<real>)
    requires |input| == temp.Length == 3 * (w * h)
    modifies temp
    ensures Renders(temp[..], w, h, HImage(input, w, kernel))
  {
    ghost var image := HImage(input, w, kernel);
    var y := 0;
    while y < h
      invariant 0 <= y <= h
      invariant Filled(temp[..], w, Offset(w, y, 0, 0), image)
    {
      var x := 0;
      while x < w
        invariant 0 <= x <= w
        invariant Filled(temp[..], w, Offset(w, y, x, 0), image)
      {
        var sumR, sumG, sumB := GoRowSum(input, w, h, kernel, y, x);
        OffsetInside(w, h, y, x);
        if (y * w + x) * 3 + 2 < temp.Length {
          WritePixel(temp, w, h, y, x, sumR, sumG, sumB, image);
        }
        x := x + 1;
      }
      FilledRow(temp[..], w, y, image);
      y := y + 1;
    }
    FilledAll(temp[..], w, h, image);
  }

  method GoVertical(temp: seq<real>, output: array<byte>, w: nat, h: nat, kernel: seq<real>)
    requires |temp| == output.Length == 3 * (w * h)
    modifies output
    ensures Renders(output[..], w, h, VImage(temp, w, h, kernel))
  {
    ghost var image := VImage(temp, w, h, kernel);
    var y := 0;
    while y < h
      invariant 0 <= y <= h
      invariant Filled(output[..], w, Offset(w, y, 0, 0), image)
    {
      var x := 0;
      while x < w
        invariant 0 <= x <= w
        invariant Filled(output[..], w, Offset(w, y, x, 0), image)
      {
        var r, g, b := GoColumnSum(temp, w, h, kernel, y, x);
        OffsetInside(w, h, y, x);
        if (y * w + x) * 3 + 2 < output.Length {
          WritePixel(output, w, h, y, x, r, g, b, image);
        }
        x := x + 1;
      }
      FilledRow(output[..], w, y, image);
      y := y + 1;
    }
    FilledAll(output[..], w, h, image);
  }

  // ---- the three entry points

  method ArenaGaussianBlur(exp: Exponential, input: seq<byte>, output: array<byte>, w: nat, h: nat, radius: real,
                           avx2: bool)
    requires |input| == output.Length == 3 * (w * h) && Positive(exp) && radius > 0.0
    modifies output
    ensures Renders(output[..], w, h, ExpectedBlur(exp, input, w, h, radius))
  {
    KernelSizeOddAndBounded(radius);
    var kernel := new real[KernelSize(radius)];
    GenerateGaussianKernel(exp, kernel, radius);
    var temp := new real[3 * (w * h)];
    if avx2 {
      ConvolveHorizontalAvx2(input, temp, w, h, kernel[..]);
      ConvolveVerticalAvx2(temp[..], output, w, h, kernel[..]);
    } else {
      ConvolveHorizontal(input, temp, w, h, kernel[..]);
      ConvolveVertical(temp[..], output, w, h, kernel[..]);
    }
    TwoPasses(input, temp[..], output[..], w, h, kernel[..]);
  }

  method HeapGaussianBlur(exp: Exponential, input: seq<byte>, output: array<byte>, w: nat, h: nat, radius: real)
    requires |input| == output.Length == 3 * (w * h) && Positive(exp) && radius > 0.0
    modifies output
    ensures Renders(output[..], w, h, ExpectedBlur(exp, input, w, h, radius))
  {
    KernelSizeOddAndBounded(radius);
    var kernel := new real[KernelSize(radius)];
    var temp := new real[3 * (w * h)];
    GenerateGaussianKernel(exp, kernel, radius);
    HeapHorizontal(input, temp, w, h, kernel[..]);
    HeapVertical(temp[..], output, w, h, kernel[..]);
    TwoPasses(input, temp[..], output[..], w, h, kernel[..]);
  }

  method GoGaussianBlur(exp: Exponential, input: seq<byte>, w: nat, h: nat, radius: real) returns (output: array<byte>)
    requires |input| == 3 * (w * h) && Positive(exp) && radius > 0.0
    ensures fresh(output) && Renders(output[..], w, h, ExpectedBlur(exp, input, w, h, radius))
  {
    output := new byte[3 * (w * h)];
    var temp := new real[3 * (w * h)];
    var kernelSize := OrOne(Ceil(radius * 6.0));
    if kernelSize < 3 {
      kernelSize := 3;
    }
    if kernelSize > 31 {
      kernelSize := 31;
    }
    assert kernelSize == KernelSize(radius);
    var kernel := new real[kernelSize];
    GenerateGaussianKernel(exp, kernel, radius);
    GoHorizontal(input, temp, w, h, kernel[..]);
    GoVertical(temp[..], output, w, h, kernel[..]);
    TwoPasses(input, temp[..], output[..], w, h, kernel[..]);
  }

  // A blurred frame, for any radius: every byte is the truncated 2-D convolution
  // with a positive, symmetric, unit-sum kernel of odd size 3..31, whose taps stand
  // to each other as a bell of that radius.
  lemma ExpectedBlurMeaning(exp: Exponential, input: seq<byte>, w: nat, h: nat, radius: real, y: int, x: int, c: int)
    requires |input| == 3 * (w * h) && Positive(exp) && radius > 0.0 && Inside(w, h, y, x, c)
    ensures var kernel := Gaussian(exp, KernelSize(radius), radius);
      && Weights(kernel) && 3 <= |kernel| <= 31
      && ExpectedBlur(exp, input, w, h, radius)(y, x, c)
         == Conv2D(ByteChannel(input, w, c), w, h, kernel, y, x).Floor
    ensures IsBell(exp, Gaussian(exp, KernelSize(radius), radius), radius)
  {
    hide IsBell;
    GaussianIsBell(exp, KernelSize(radius), radius);
    KernelSizeOddAndBounded(radius);
    GaussianIsWeights(exp, KernelSize(radius), radius);
    BlurByteIsConvolutionAlways(input, w, h, Gaussian(exp, KernelSize(radius), radius), y, x, c);
  }
}
