// What the blur of an RGB buffer is, sample by sample.
module BlurSpec {
  import opened Common
  import opened Sums
  import opened Convolution
  import opened Raster
  import opened Pixels

  function ByteChannel(input: seq<byte>, w: int, c: int): Plane {
    (y, x) => if 0 <= Offset(w, y, x, c) < |input| then input[Offset(w, y, x, c)] as real else 0.0
  }

  function RealChannel(temp: seq<real>, w: int, c: int): Plane {
    (y, x) => if 0 <= Offset(w, y, x, c) < |temp| then temp[Offset(w, y, x, c)] else 0.0
  }

  // The image in `temp` after the first pass.
  function HImage(input: seq<byte>, w: int, kernel: seq<real>): (int, int, int) -> real {
    (y, x, c) => HAt(ByteChannel(input, w, c), w, kernel, y, x)
  }

  // The image in `output` after the second pass.
  function VImage(temp: seq<real>, w: int, h: int, kernel: seq<real>): (int, int, int) -> byte {
    (y, x, c) => ClampByte(VAt(RealChannel(temp, w, c), h, kernel, y, x))
  }

  function BlurImage(input: seq<byte>, w: int, h: int, kernel: seq<real>): (int, int, int) -> byte {
    (y, x, c) => ClampByte(Blur(ByteChannel(input, w, c), w, h, kernel)(y, x))
  }

  lemma HTermAt(input: seq<byte>, w: nat, h: nat, kernel: seq<real>, y: int, x: int, c: int, k: int)
    requires |input| == 3 * (w * h) && Inside(w, h, y, x, c) && 0 <= k < |kernel|
    ensures var idx := Offset(w, y, Clamp(x - |kernel| / 2 + k, w), c);
      && 0 <= idx < |input|
      && HTerms(ByteChannel(input, w, c), w, kernel, y, x)(k) == input[idx] as real * kernel[k]
  {
    var kx := Clamp(x - |kernel| / 2 + k, w);
    OffsetInside(w, h, y, kx);
    assert Offset(w, y, kx, c) == Offset(w, y, kx, 0) + c;
    assert HTaps(ByteChannel(input, w, c), w, |kernel| / 2, y, x)(k) == input[Offset(w, y, kx, c)] as real;
    assert Coeff(kernel, k) == kernel[k];
  }

  lemma VTermAt(temp: seq<real>, w: nat, h: nat, kernel: seq<real>, y: int, x: int, c: int, k: int)
    requires |temp| == 3 * (w * h) && Inside(w, h, y, x, c) && 0 <= k < |kernel|
    ensures var idx := Offset(w, Clamp(y - |kernel| / 2 + k, h), x, c);
      && 0 <= idx < |temp|
      && VTerms(RealChannel(temp, w, c), h, kernel, y, x)(k) == temp[idx] * kernel[k]
  {
    var ky := Clamp(y - |kernel| / 2 + k, h);
    OffsetInside(w, h, ky, x);
    assert Offset(w, ky, x, c) == Offset(w, ky, x, 0) + c;
    assert VTaps(RealChannel(temp, w, c), h, |kernel| / 2, y, x)(k) == temp[Offset(w, ky, x, c)];
    assert Coeff(kernel, k) == kernel[k];
  }

  lemma FirstPassSample(input: seq<byte>, temp: seq<real>, w: nat, h: nat, kernel: seq<real>, y: int, x: int, c: int)
    requires Renders(temp, w, h, HImage(input, w, kernel)) && Inside(w, h, y, x, c)
    ensures RealChannel(temp, w, c)(y, x) == Horizontal(ByteChannel(input, w, c), w, kernel)(y, x)
  {
    hide HAt;
    RenderedAt(temp, w, h, HImage(input, w, kernel), y, x, c);
  }

  lemma WeighSame(taps: Terms, taps': Terms, kernel: seq<real>)
    requires forall k :: 0 <= k < |kernel| ==> taps(k) == taps'(k)
    ensures SumTo(Weigh(taps, kernel), |kernel|) == SumTo(Weigh(taps', kernel), |kernel|)
  {
    SumExt(Weigh(taps, kernel), Weigh(taps', kernel), |kernel|);
  }

  lemma SecondPassSample(input: seq<byte>, temp: seq<real>, w: nat, h: nat, kernel: seq<real>, y: int, x: int, c: int)
    requires Renders(temp, w, h, HImage(input, w, kernel)) && Inside(w, h, y, x, c)
    ensures VImage(temp, w, h, kernel)(y, x, c) == BlurImage(input, w, h, kernel)(y, x, c)
  {
    hide Renders;
    hide HImage;
    hide RealChannel;
    hide Horizontal;
    hide Weigh;
    var half := |kernel| / 2;
    var f, g := RealChannel(temp, w, c), Horizontal(ByteChannel(input, w, c), w, kernel);
    forall k | 0 <= k < |kernel|
      ensures VTaps(f, h, half, y, x)(k) == VTaps(g, h, half, y, x)(k)
    {
      FirstPassSample(input, temp, w, h, kernel, Clamp(y - half + k, h), x, c);
    }
    WeighSame(VTaps(f, h, half, y, x), VTaps(g, h, half, y, x), kernel);
    assert VAt(f, h, kernel, y, x) == VAt(g, h, kernel, y, x);
    BlurIsSecondPass(ByteChannel(input, w, c), w, h, kernel, y, x);
  }

  lemma BlurIsSecondPass(f: Plane, w: int, h: int, kernel: seq<real>, y: int, x: int)
    ensures Blur(f, w, h, kernel)(y, x) == VAt(Horizontal(f, w, kernel), h, kernel, y, x)
  {
  }

  // The second pass over the result of the first is the blur.
  lemma TwoPasses(input: seq<byte>, temp: seq<real>, output: seq<byte>, w: nat, h: nat, kernel: seq<real>)
    requires Renders(temp, w, h, HImage(input, w, kernel))
    requires Renders(output, w, h, VImage(temp, w, h, kernel))
    ensures Renders(output, w, h, BlurImage(input, w, h, kernel))
  {
    forall y, x, c | Inside(w, h, y, x, c) && 0 <= Offset(w, y, x, c) < |output|
      ensures output[Offset(w, y, x, c)] == BlurImage(input, w, h, kernel)(y, x, c)
    {
      SecondPassSample(input, temp, w, h, kernel, y, x, c);
    }
  }

  // An output byte is the truncated two-dimensional convolution: the final clamp
  // never changes a value, and no byte leaves the range of its window.
  lemma BlurByteIsConvolution(input: seq<byte>, w: nat, h: nat, kernel: seq<real>, y: int, x: int, c: int,
                              lo: byte, hi: byte)
    requires |input| == 3 * (w * h) && Inside(w, h, y, x, c) && Weights(kernel)
    requires WindowWithin(ByteChannel(input, w, c), w, h, |kernel| / 2, y, x, lo as real, hi as real)
    ensures BlurImage(input, w, h, kernel)(y, x, c)
         == Conv2D(ByteChannel(input, w, c), w, h, kernel, y, x).Floor
    ensures lo <= BlurImage(input, w, h, kernel)(y, x, c) <= hi
  {
    var f := ByteChannel(input, w, c);
    SeparableIsConv2D(f, w, h, kernel, y, x);
    BlurWithinWindow(f, w, h, kernel, y, x, lo as real, hi as real);
    ClampIdleInRange(Blur(f, w, h, kernel)(y, x));
  }

  // With no bounds known the range of a byte will do.
  lemma BlurByteIsConvolutionAlways(input: seq<byte>, w: nat, h: nat, kernel: seq<real>, y: int, x: int, c: int)
    requires |input| == 3 * (w * h) && Inside(w, h, y, x, c) && Weights(kernel)
    ensures BlurImage(input, w, h, kernel)(y, x, c)
         == Conv2D(ByteChannel(input, w, c), w, h, kernel, y, x).Floor
  {
    BlurByteIsConvolution(input, w, h, kernel, y, x, c, 0, 255);
  }

  // Blurring a mirrored frame mirrors the blurred frame.
  lemma BlurFrameMirrors(input: seq<byte>, mirrored: seq<byte>, w: nat, h: nat, kernel: seq<real>,
                         y: int, x: int, c: int)
    requires Weights(kernel) && Inside(w, h, y, x, c)
    requires forall y', x' :: 0 <= y' < h && 0 <= x' < w ==>
               ByteChannel(mirrored, w, c)(y', x') == ByteChannel(input, w, c)(y', w - 1 - x')
    ensures BlurImage(mirrored, w, h, kernel)(y, x, c) == BlurImage(input, w, h, kernel)(y, w - 1 - x, c)
  {
    hide ByteChannel;
    hide Blur;
    var f, g := ByteChannel(input, w, c), ByteChannel(mirrored, w, c);
    BlurExtInside(g, MirrorX(f, w), w, h, kernel, y, x);
    BlurCommutesWithMirror(f, w, h, kernel, y, x);
  }

  // A channel of one value keeps it.
  lemma ConstantChannelIsFixed(input: seq<byte>, w: nat, h: nat, kernel: seq<real>, y: int, x: int, c: int, v: byte)
    requires |input| == 3 * (w * h) && Inside(w, h, y, x, c) && Weights(kernel)
    requires forall y', x' :: 0 <= y' < h && 0 <= x' < w ==> ByteChannel(input, w, c)(y', x') == v as real
    ensures BlurImage(input, w, h, kernel)(y, x, c) == v
  {
    hide ByteChannel;
    ConstantIsFixed(ByteChannel(input, w, c), w, h, kernel, y, x, v as real);
    ClampIdleInRange(v as real);
  }
}
