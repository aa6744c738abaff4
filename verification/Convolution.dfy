// The separable blur on one channel, as mathematics: two one-dimensional passes
// with replicated edges, and what they compute together.
module Convolution {
  import opened Common
  import opened Sums

  // A channel: the sample at row y, column x.
  type Plane = (int, int) -> real

  // std::max(0, std::min(i, n - 1))
  function Clamp(i: int, n: int): int {
    Max(0, Min(i, n - 1))
  }

  function Coeff(kernel: seq<real>, k: int): real {
    if 0 <= k < |kernel| then kernel[k] else 0.0
  }

  // The samples one output sample looks at, tap by tap.
  function HTaps(f: Plane, w: int, half: int, y: int, x: int): Terms {
    k => f(y, Clamp(x - half + k, w))
  }

  function VTaps(f: Plane, h: int, half: int, y: int, x: int): Terms {
    k => f(Clamp(y - half + k, h), x)
  }

  function Coeffs(kernel: seq<real>): Terms {
    k => Coeff(kernel, k)
  }

  function Weigh(taps: Terms, kernel: seq<real>): Terms {
    Times(taps, Coeffs(kernel))
  }

  function HTerms(f: Plane, w: int, kernel: seq<real>, y: int, x: int): Terms {
    Weigh(HTaps(f, w, |kernel| / 2, y, x), kernel)
  }

  function VTerms(f: Plane, h: int, kernel: seq<real>, y: int, x: int): Terms {
    Weigh(VTaps(f, h, |kernel| / 2, y, x), kernel)
  }

  function HAt(f: Plane, w: int, kernel: seq<real>, y: int, x: int): real {
    SumTo(HTerms(f, w, kernel, y, x), |kernel|)
  }

  function VAt(f: Plane, h: int, kernel: seq<real>, y: int, x: int): real {
    SumTo(VTerms(f, h, kernel, y, x), |kernel|)
  }

  function Horizontal(f: Plane, w: int, kernel: seq<real>): Plane {
    (y, x) => HAt(f, w, kernel, y, x)
  }

  function Vertical(f: Plane, h: int, kernel: seq<real>): Plane {
    (y, x) => VAt(f, h, kernel, y, x)
  }

  function Blur(f: Plane, w: int, h: int, kernel: seq<real>): Plane {
    Vertical(Horizontal(f, w, kernel), h, kernel)
  }

  // ---- the reference: a double sum over the square window

  function Term2D(f: Plane, w: int, h: int, kernel: seq<real>, y: int, x: int, i: int, j: int): real {
    (Coeff(kernel, i) * Coeff(kernel, j))
    * f(Clamp(y - |kernel| / 2 + i, h), Clamp(x - |kernel| / 2 + j, w))
  }

  function Window(f: Plane, w: int, h: int, kernel: seq<real>, y: int, x: int): (int, int) -> real {
    (i, j) => Term2D(f, w, h, kernel, y, x, i, j)
  }

  function Conv2D(f: Plane, w: int, h: int, kernel: seq<real>, y: int, x: int): real {
    SumTo(RowSums(Window(f, w, h, kernel, y, x), |kernel|), |kernel|)
  }

  lemma Rearrange(a: real, p: real, b: real)
    ensures a * (p * b) == (a * b) * p
    ensures a * (p * b) == (b * a) * p
  {
  }

  lemma RowTerm(f: Plane, w: int, h: int, kernel: seq<real>, y: int, x: int, i: int, j: int)
    ensures Coeff(kernel, i) * HTerms(f, w, kernel, Clamp(y - |kernel| / 2 + i, h), x)(j)
         == Term2D(f, w, h, kernel, y, x, i, j)
  {
    Rearrange(Coeff(kernel, i), f(Clamp(y - |kernel| / 2 + i, h), Clamp(x - |kernel| / 2 + j, w)), Coeff(kernel, j));
  }

  lemma ColumnTerm(f: Plane, w: int, h: int, kernel: seq<real>, y: int, x: int, i: int, j: int)
    ensures Coeff(kernel, j) * VTerms(f, h, kernel, y, Clamp(x - |kernel| / 2 + j, w))(i)
         == Term2D(f, w, h, kernel, y, x, i, j)
  {
    Rearrange(Coeff(kernel, j), f(Clamp(y - |kernel| / 2 + i, h), Clamp(x - |kernel| / 2 + j, w)), Coeff(kernel, i));
  }

  // One row of the window: the horizontal pass, times the row's coefficient.
  lemma RowOfWindow(f: Plane, w: int, h: int, kernel: seq<real>, y: int, x: int, i: int)
    ensures Coeff(kernel, i) * HAt(f, w, kernel, Clamp(y - |kernel| / 2 + i, h), x)
         == SumTo(RowOf(Window(f, w, h, kernel, y, x), i), |kernel|)
  {
    hide HTerms;
    hide Term2D;
    var n, c := |kernel|, Coeff(kernel, i);
    var terms, row := HTerms(f, w, kernel, Clamp(y - n / 2 + i, h), x), RowOf(Window(f, w, h, kernel, y, x), i);
    SumScale(c, terms, n);
    forall j | 0 <= j < n
      ensures Scale(c, terms)(j) == row(j)
    {
      RowTerm(f, w, h, kernel, y, x, i, j);
    }
    SumExt(Scale(c, terms), row, n);
  }

  lemma ColumnOfWindow(f: Plane, w: int, h: int, kernel: seq<real>, y: int, x: int, j: int)
    ensures Coeff(kernel, j) * VAt(f, h, kernel, y, Clamp(x - |kernel| / 2 + j, w))
         == SumTo(ColumnOf(Window(f, w, h, kernel, y, x), j), |kernel|)
  {
    hide VTerms;
    hide Term2D;
    var n, c := |kernel|, Coeff(kernel, j);
    var terms, column := VTerms(f, h, kernel, y, Clamp(x - n / 2 + j, w)), ColumnOf(Window(f, w, h, kernel, y, x), j);
    SumScale(c, terms, n);
    forall i | 0 <= i < n
      ensures Scale(c, terms)(i) == column(i)
    {
      ColumnTerm(f, w, h, kernel, y, x, i, j);
    }
    SumExt(Scale(c, terms), column, n);
  }

  // Two passes are one two-dimensional convolution, at every sample.
  lemma SeparableIsConv2D(f: Plane, w: int, h: int, kernel: seq<real>, y: int, x: int)
    ensures Blur(f, w, h, kernel)(y, x) == Conv2D(f, w, h, kernel, y, x)
  {
    hide HAt;
    hide Window;
    var n := |kernel|;
    var terms, rows := VTerms(Horizontal(f, w, kernel), h, kernel, y, x), RowSums(Window(f, w, h, kernel, y, x), n);
    forall i | 0 <= i < n
      ensures terms(i) == rows(i)
    {
      RowOfWindow(f, w, h, kernel, y, x, i);
    }
    SumExt(terms, rows, n);
  }

  // The passes may be run in either order.
  lemma PassesCommute(f: Plane, w: int, h: int, kernel: seq<real>, y: int, x: int)
    ensures Horizontal(Vertical(f, h, kernel), w, kernel)(y, x) == Blur(f, w, h, kernel)(y, x)
  {
    hide VAt;
    hide Window;
    var n := |kernel|;
    var terms, columns := HTerms(Vertical(f, h, kernel), w, kernel, y, x), ColumnSums(Window(f, w, h, kernel, y, x), n);
    forall j | 0 <= j < n
      ensures terms(j) == columns(j)
    {
      ColumnOfWindow(f, w, h, kernel, y, x, j);
    }
    SumExt(terms, columns, n);
    SumSwap(Window(f, w, h, kernel, y, x), n, n);
    SeparableIsConv2D(f, w, h, kernel, y, x);
  }

  // ---- blur is a weighted mean

  ghost predicate Weights(kernel: seq<real>) {
    && |kernel| % 2 == 1
    && (forall k :: 0 <= k < |kernel| ==> kernel[k] > 0.0)
    && (forall k :: 0 <= k < |kernel| ==> kernel[k] == kernel[|kernel| - 1 - k])
    && SumTo(Coeffs(kernel), |kernel|) == 1.0
  }

  // All samples the blur of (y, x) looks at lie between lo and hi.
  ghost predicate WindowWithin(f: Plane, w: int, h: int, half: int, y: int, x: int, lo: real, hi: real) {
    forall y', x' ::
      && Clamp(y - half, h) <= y' <= Clamp(y + half, h)
      && Clamp(x - half, w) <= x' <= Clamp(x + half, w)
      ==> lo <= f(y', x') <= hi
  }

  lemma MeanBounds(kernel: seq<real>, t: Terms, lo: real, hi: real)
    requires Weights(kernel)
    requires forall k :: 0 <= k < |kernel| ==> lo <= t(k) <= hi
    ensures lo <= SumTo(Weigh(t, kernel), |kernel|) <= hi
  {
    SumBounds(t, Coeffs(kernel), lo, hi, |kernel|);
  }

  lemma ClampMonotone(i: int, j: int, n: int)
    requires i <= j
    ensures Clamp(i, n) <= Clamp(j, n)
  {
  }

  lemma HWithin(f: Plane, w: int, kernel: seq<real>, y: int, x: int, lo: real, hi: real)
    requires Weights(kernel)
    requires forall x' :: Clamp(x - |kernel| / 2, w) <= x' <= Clamp(x + |kernel| / 2, w) ==> lo <= f(y, x') <= hi
    ensures lo <= HAt(f, w, kernel, y, x) <= hi
  {
    var half := |kernel| / 2;
    forall k | 0 <= k < |kernel|
      ensures lo <= HTaps(f, w, half, y, x)(k) <= hi
    {
      ClampMonotone(x - half, x - half + k, w);
      ClampMonotone(x - half + k, x + half, w);
    }
    MeanBounds(kernel, HTaps(f, w, half, y, x), lo, hi);
  }

  // A blurred sample never leaves the range of its window.
  lemma BlurWithinWindow(f: Plane, w: int, h: int, kernel: seq<real>, y: int, x: int, lo: real, hi: real)
    requires Weights(kernel)
    requires WindowWithin(f, w, h, |kernel| / 2, y, x, lo, hi)
    ensures lo <= Blur(f, w, h, kernel)(y, x) <= hi
  {
    var half := |kernel| / 2;
    var taps := VTaps(Horizontal(f, w, kernel), h, half, y, x);
    forall k | 0 <= k < |kernel|
      ensures lo <= taps(k) <= hi
    {
      ClampMonotone(y - half, y - half + k, h);
      ClampMonotone(y - half + k, y + half, h);
      HWithin(f, w, kernel, Clamp(y - half + k, h), x, lo, hi);
    }
    MeanBounds(kernel, taps, lo, hi);
  }

  lemma ConstantIsFixed(f: Plane, w: int, h: int, kernel: seq<real>, y: int, x: int, c: real)
    requires Weights(kernel) && w >= 1 && h >= 1
    requires forall y', x' :: 0 <= y' < h && 0 <= x' < w ==> f(y', x') == c
    ensures Blur(f, w, h, kernel)(y, x) == c
  {
    BlurWithinWindow(f, w, h, kernel, y, x, c, c);
  }

  // ---- blur respects the symmetries of the image

  function Transpose(f: Plane): Plane {
    (y, x) => f(x, y)
  }

  function MirrorX(f: Plane, w: int): Plane {
    (y, x) => f(y, w - 1 - x)
  }

  function MirrorY(f: Plane, h: int): Plane {
    (y, x) => f(h - 1 - y, x)
  }

  lemma MirrorClamp(a: int, w: int)
    requires w >= 1
    ensures w - 1 - Clamp(a, w) == Clamp(w - 1 - a, w)
  {
  }

  lemma HMirror(f: Plane, w: int, kernel: seq<real>, y: int, x: int)
    requires Weights(kernel) && w >= 1
    ensures HAt(MirrorX(f, w), w, kernel, y, x) == HAt(f, w, kernel, y, w - 1 - x)
  {
    var n, half := |kernel|, |kernel| / 2;
    var terms, mirrored := HTerms(f, w, kernel, y, w - 1 - x), HTerms(MirrorX(f, w), w, kernel, y, x);
    SumReverse(terms, n);
    forall k | 0 <= k < n
      ensures mirrored(k) == Reversed(terms, n)(k)
    {
      MirrorClamp(x - half + k, w);
      assert w - 1 - (x - half + k) == w - 1 - x - half + (n - 1 - k);
      assert Coeff(kernel, k) == Coeff(kernel, n - 1 - k);
    }
    SumExt(mirrored, Reversed(terms, n), n);
  }

  lemma BlurCommutesWithMirror(f: Plane, w: int, h: int, kernel: seq<real>, y: int, x: int)
    requires Weights(kernel) && w >= 1
    ensures Blur(MirrorX(f, w), w, h, kernel)(y, x) == MirrorX(Blur(f, w, h, kernel), w)(y, x)
  {
    var n := |kernel|;
    var g, g' := Horizontal(f, w, kernel), Horizontal(MirrorX(f, w), w, kernel);
    forall k | 0 <= k < n
      ensures VTerms(g', h, kernel, y, x)(k) == VTerms(g, h, kernel, y, w - 1 - x)(k)
    {
      HMirror(f, w, kernel, Clamp(y - n / 2 + k, h), x);
    }
    SumExt(VTerms(g', h, kernel, y, x), VTerms(g, h, kernel, y, w - 1 - x), n);
  }

  lemma HTransposed(f: Plane, h: int, kernel: seq<real>, y: int, x: int)
    ensures HAt(Transpose(f), h, kernel, x, y) == VAt(f, h, kernel, y, x)
  {
    SumExt(HTerms(Transpose(f), h, kernel, x, y), VTerms(f, h, kernel, y, x), |kernel|);
  }

  lemma BlurCommutesWithTranspose(f: Plane, w: int, h: int, kernel: seq<real>, y: int, x: int)
    ensures Blur(Transpose(f), h, w, kernel)(x, y) == Blur(f, w, h, kernel)(y, x)
  {
    hide HAt;
    hide VAt;
    PassesCommute(f, w, h, kernel, y, x);
    var g, g' := Vertical(f, h, kernel), Horizontal(Transpose(f), h, kernel);
    forall y', x'
      ensures g'(x', y') == Transpose(g)(x', y')
    {
      HTransposed(f, h, kernel, y', x');
    }
    VExt(g', Transpose(g), w, kernel, x, y);
    HTransposed(Transpose(g), w, kernel, x, y);
    HExt(Transpose(Transpose(g)), g, w, kernel, y, x);
  }

  lemma HExt(f: Plane, g: Plane, w: int, kernel: seq<real>, y: int, x: int)
    requires forall y', x' :: f(y', x') == g(y', x')
    ensures HAt(f, w, kernel, y, x) == HAt(g, w, kernel, y, x)
  {
    SumExt(HTerms(f, w, kernel, y, x), HTerms(g, w, kernel, y, x), |kernel|);
  }

  lemma VExt(f: Plane, g: Plane, h: int, kernel: seq<real>, y: int, x: int)
    requires forall y', x' :: f(y', x') == g(y', x')
    ensures VAt(f, h, kernel, y, x) == VAt(g, h, kernel, y, x)
  {
    SumExt(VTerms(f, h, kernel, y, x), VTerms(g, h, kernel, y, x), |kernel|);
  }

  lemma BlurCommutesWithFlip(f: Plane, w: int, h: int, kernel: seq<real>, y: int, x: int)
    requires Weights(kernel) && h >= 1
    ensures Blur(MirrorY(f, h), w, h, kernel)(y, x) == MirrorY(Blur(f, w, h, kernel), h)(y, x)
  {
    BlurCommutesWithTranspose(MirrorY(f, h), w, h, kernel, y, x);
    BlurCommutesWithMirror(Transpose(f), h, w, kernel, x, y);
    BlurCommutesWithTranspose(f, w, h, kernel, h - 1 - y, x);
    BlurExt(Transpose(MirrorY(f, h)), MirrorX(Transpose(f), h), h, w, kernel, x, y);
  }

  lemma BlurExt(f: Plane, g: Plane, w: int, h: int, kernel: seq<real>, y: int, x: int)
    requires forall y', x' :: f(y', x') == g(y', x')
    ensures Blur(f, w, h, kernel)(y, x) == Blur(g, w, h, kernel)(y, x)
  {
    hide HAt;
    var p, q := Horizontal(f, w, kernel), Horizontal(g, w, kernel);
    forall y', x'
      ensures p(y', x') == q(y', x')
    {
      HExt(f, g, w, kernel, y', x');
    }
    VExt(p, q, h, kernel, y, x);
  }

  // Only the samples of the image matter.
  lemma BlurExtInside(f: Plane, g: Plane, w: int, h: int, kernel: seq<real>, y: int, x: int)
    requires w >= 1 && h >= 1 && 0 <= x < w
    requires forall y', x' :: 0 <= y' < h && 0 <= x' < w ==> f(y', x') == g(y', x')
    ensures Blur(f, w, h, kernel)(y, x) == Blur(g, w, h, kernel)(y, x)
  {
    hide HAt;
    var half := |kernel| / 2;
    var p, q := Horizontal(f, w, kernel), Horizontal(g, w, kernel);
    var terms, terms' := VTerms(p, h, kernel, y, x), VTerms(q, h, kernel, y, x);
    forall k | 0 <= k < |kernel|
      ensures terms(k) == terms'(k)
    {
      HExtInside(f, g, w, kernel, Clamp(y - half + k, h), x);
    }
    SumExt(terms, terms', |kernel|);
  }

  lemma HExtInside(f: Plane, g: Plane, w: int, kernel: seq<real>, y: int, x: int)
    requires w >= 1
    requires forall x' :: 0 <= x' < w ==> f(y, x') == g(y, x')
    ensures HAt(f, w, kernel, y, x) == HAt(g, w, kernel, y, x)
  {
    var half := |kernel| / 2;
    forall k | 0 <= k < |kernel|
      ensures HTerms(f, w, kernel, y, x)(k) == HTerms(g, w, kernel, y, x)(k)
    {
      var cx := Clamp(x - half + k, w);
      assert f(y, cx) == g(y, cx);
      assert HTaps(f, w, half, y, x)(k) == HTaps(g, w, half, y, x)(k);
    }
    SumExt(HTerms(f, w, kernel, y, x), HTerms(g, w, kernel, y, x), |kernel|);
  }
}
