// Size and coefficients of the blur kernel. The exponential is a parameter: any
// function that is positive everywhere.
module GaussianKernel {
  import opened Common
  import opened Sums
  import opened Convolution

  type Exponential = real -> real

  ghost predicate Positive(exp: Exponential) {
    forall t: real :: exp(t) > 0.0
  }

  function Ceil(r: real): int {
    -((-r).Floor)
  }

  // n | 1
  function OrOne(n: int): int {
    if n % 2 == 0 then n + 1 else n
  }

  // max(3, min(ceil(radius * 6) | 1, 31))
  function KernelSize(radius: real): int {
    Max(3, Min(OrOne(Ceil(radius * 6.0)), 31))
  }

  // Whatever the radius, the size is odd and in 3..31; between those limits it
  // covers six radii with at most two taps to spare.
  lemma KernelSizeOddAndBounded(radius: real)
    ensures KernelSize(radius) % 2 == 1 && 3 <= KernelSize(radius) <= 31
    ensures 3 < KernelSize(radius) < 31 ==>
              radius * 6.0 <= KernelSize(radius) as real < radius * 6.0 + 2.0
    ensures KernelSize(radius) == 3 ==> radius * 6.0 <= 3.0
    ensures KernelSize(radius) == 31 ==> radius * 6.0 > 29.0
  {
    var n := Ceil(radius * 6.0);
    assert n as real - 1.0 < radius * 6.0 <= n as real;
  }

  // exp(-(x * x) / sigma2)
  function Bell(exp: Exponential, x: real, sigma2: real): real
    requires sigma2 != 0.0
  {
    exp(-(x * x) / sigma2)
  }

  lemma BellSymmetric(exp: Exponential, x: real, sigma2: real)
    requires sigma2 != 0.0
    ensures Bell(exp, x, sigma2) == Bell(exp, -x, sigma2)
  {
    assert x * x == (-x) * (-x);
  }

  lemma BellPositive(exp: Exponential, x: real, sigma2: real)
    requires Positive(exp) && sigma2 != 0.0
    ensures Bell(exp, x, sigma2) > 0.0
  {
    var t := -(x * x) / sigma2;
    assert exp(t) > 0.0;
  }

  // 2 * sigma * sigma
  function Sigma2(sigma: real): real {
    2.0 * sigma * sigma
  }

  lemma Sigma2Positive(sigma: real)
    requires sigma != 0.0
    ensures Sigma2(sigma) > 0.0
  {
    var p := 2.0 * sigma;
    assert Sigma2(sigma) == p * sigma;
    if sigma > 0.0 {
      assert p * sigma > 0.0;
    } else {
      assert p * sigma == (-p) * (-sigma);
      assert (-p) * (-sigma) > 0.0;
    }
  }

  function Raw(exp: Exponential, size: int, sigma2: real): Terms
    requires sigma2 != 0.0
  {
    i => Bell(exp, (i - size / 2) as real, sigma2)
  }

  function Share(p: real, s: real): real
    requires s > 0.0
  {
    p / s
  }

  lemma ShareFacts(p: real, s: real)
    requires s > 0.0
    ensures p > 0.0 ==> Share(p, s) > 0.0
    ensures Share(p, s) == (1.0 / s) * p
    ensures (1.0 / s) * s == 1.0
  {
  }

  lemma RawPositive(exp: Exponential, size: nat, sigma2: real)
    requires Positive(exp) && sigma2 != 0.0 && size > 0
    ensures SumTo(Raw(exp, size, sigma2), size) > 0.0
    ensures forall k :: 0 <= k < size ==> Raw(exp, size, sigma2)(k) > 0.0
  {
    forall k | 0 <= k < size
      ensures Raw(exp, size, sigma2)(k) > 0.0
    {
      BellPositive(exp, (k - size / 2) as real, sigma2);
    }
    SumPositive(Raw(exp, size, sigma2), size);
  }

  ghost function Gaussian(exp: Exponential, size: nat, sigma: real): (kernel: seq<real>)
    requires Positive(exp) && sigma != 0.0
    ensures |kernel| == size
  {
    if size == 0 then [] else
      Sigma2Positive(sigma);
      var raw := Raw(exp, size, Sigma2(sigma));
      RawPositive(exp, size, Sigma2(sigma));
      Normalised(raw, size)
  }

  ghost function Normalised(raw: Terms, size: nat): (kernel: seq<real>)
    requires SumTo(raw, size) > 0.0
    ensures |kernel| == size
    ensures forall k :: 0 <= k < size ==> kernel[k] == Share(raw(k), SumTo(raw, size))
  {
    seq(size, i requires 0 <= i < size => Share(raw(i), SumTo(raw, size)))
  }

  lemma NormalisedSumsToOne(raw: Terms, size: nat)
    requires SumTo(raw, size) > 0.0
    ensures SumTo(Coeffs(Normalised(raw, size)), size) == 1.0
  {
    hide Share;
    var kernel, s := Normalised(raw, size), SumTo(raw, size);
    var scaled := Scale(1.0 / s, raw);
    SumScale(1.0 / s, raw, size);
    forall k | 0 <= k < size
      ensures Coeffs(kernel)(k) == scaled(k)
    {
      ShareFacts(raw(k), s);
    }
    SumExt(Coeffs(kernel), scaled, size);
    ShareFacts(s, s);
  }

  // The kernel is positive, symmetric and sums to one.
  lemma GaussianIsWeights(exp: Exponential, size: nat, sigma: real)
    requires Positive(exp) && sigma != 0.0 && size % 2 == 1
    ensures Weights(Gaussian(exp, size, sigma))
  {
    hide Bell;
    hide Sigma2;
    Sigma2Positive(sigma);
    var sigma2 := Sigma2(sigma);
    var raw := Raw(exp, size, sigma2);
    var kernel := Gaussian(exp, size, sigma);
    RawPositive(exp, size, sigma2);
    var s := SumTo(raw, size);
    NormalisedSumsToOne(raw, size);
    forall k | 0 <= k < size
      ensures kernel[k] > 0.0
      ensures kernel[k] == kernel[size - 1 - k]
    {
      ShareFacts(raw(k), s);
      assert (size - 1 - k - size / 2) as real == -((k - size / 2) as real);
      BellSymmetric(exp, (k - size / 2) as real, sigma2);
    }
  }

  // ---- the shape of the kernel

  // The exponential of minus the squared distance over twice the squared radius.
  ghost function Decay(exp: Exponential, distance: int, sigma: real): real
    requires sigma != 0.0
  {
    Sigma2Positive(sigma);
    exp(-((distance * distance) as real) / (2.0 * sigma * sigma))
  }

  // Two taps stand to each other as those exponentials of their distances from
  // the centre.
  ghost predicate Proportionate(exp: Exponential, kernel: seq<real>, sigma: real, i: int, j: int)
    requires sigma != 0.0 && 0 <= i < |kernel| && 0 <= j < |kernel|
  {
    kernel[i] * Decay(exp, j - |kernel| / 2, sigma) == kernel[j] * Decay(exp, i - |kernel| / 2, sigma)
  }

  ghost predicate IsBell(exp: Exponential, kernel: seq<real>, sigma: real)
    requires sigma != 0.0
  {
    forall i, j :: 0 <= i < |kernel| && 0 <= j < |kernel| ==> Proportionate(exp, kernel, sigma, i, j)
  }

  lemma BellDecays(exp: Exponential, d: int, sigma: real)
    requires sigma != 0.0
    ensures Sigma2(sigma) > 0.0 && Bell(exp, d as real, Sigma2(sigma)) == Decay(exp, d, sigma)
  {
    Sigma2Positive(sigma);
    SquareAsReal(d);
  }

  lemma SquareAsReal(k: int)
    ensures (k * k) as real == k as real * k as real
  {
  }

  lemma CrossShares(p: real, q: real, s: real)
    requires s > 0.0
    ensures Share(p, s) * q == Share(q, s) * p
  {
    ShareFacts(p, s);
    ShareFacts(q, s);
    hide Share;
    var r := 1.0 / s;
    assert (r * p) * q == (r * q) * p;
  }

  // Each tap is its exponential's share of a common total.
  lemma Taps(exp: Exponential, size: nat, sigma: real) returns (total: real)
    requires Positive(exp) && sigma != 0.0 && size > 0
    ensures total > 0.0
    ensures forall k :: 0 <= k < size ==> Gaussian(exp, size, sigma)[k] == Share(Decay(exp, k - size / 2, sigma), total)
  {
    Sigma2Positive(sigma);
    var raw := Raw(exp, size, Sigma2(sigma));
    RawPositive(exp, size, Sigma2(sigma));
    total := SumTo(raw, size);
    hide Bell;
    hide Decay;
    hide Share;
    hide Sigma2;
    hide SumTo;
    forall k | 0 <= k < size
      ensures Gaussian(exp, size, sigma)[k] == Share(Decay(exp, k - size / 2, sigma), total)
    {
      BellDecays(exp, k - size / 2, sigma);
    }
  }

  lemma TapsProportionate(exp: Exponential, size: nat, sigma: real, i: int, j: int)
    requires Positive(exp) && sigma != 0.0 && 0 <= i < size && 0 <= j < size
    ensures Proportionate(exp, Gaussian(exp, size, sigma), sigma, i, j)
  {
    hide Gaussian;
    hide Decay;
    hide Share;
    var total := Taps(exp, size, sigma);
    CrossShares(Decay(exp, i - size / 2, sigma), Decay(exp, j - size / 2, sigma), total);
  }

  lemma GaussianIsBell(exp: Exponential, size: nat, sigma: real)
    requires Positive(exp) && sigma != 0.0
    ensures IsBell(exp, Gaussian(exp, size, sigma), sigma)
  {
    hide Gaussian;
    hide Proportionate;
    forall i, j | 0 <= i < size && 0 <= j < size
      ensures Proportionate(exp, Gaussian(exp, size, sigma), sigma, i, j)
    {
      TapsProportionate(exp, size, sigma, i, j);
    }
  }

  ghost predicate Increasing(exp: Exponential) {
    forall t: real, u: real :: t < u ==> exp(t) < exp(u)
  }

  function Abs(d: int): nat {
    if d < 0 then -d else d
  }

  lemma LessSquare(a: nat, b: nat)
    requires a < b
    ensures a * a < b * b
  {
    assert b * b == a * a + (b - a) * (b + a);
    assert (b - a) * (b + a) > 0;
  }

  lemma LessShare(p: real, q: real, s: real)
    requires s > 0.0 && p < q
    ensures p / s < q / s
  {
    assert (q / s - p / s) * s == q - p;
  }

  lemma SquareOfAbs(d: int)
    ensures Abs(d) * Abs(d) == d * d
  {
  }

  lemma DecayFalls(exp: Exponential, d: int, e: int, sigma: real)
    requires Increasing(exp) && sigma != 0.0 && Abs(d) < Abs(e)
    ensures Decay(exp, e, sigma) < Decay(exp, d, sigma)
  {
    Sigma2Positive(sigma);
    LessSquare(Abs(d), Abs(e));
    SquareOfAbs(d);
    SquareOfAbs(e);
    var s2 := 2.0 * sigma * sigma;
    LessShare(-((e * e) as real), -((d * d) as real), s2);
  }

  // For a strictly increasing exponential the taps fall strictly from the centre.
  lemma GaussianFalls(exp: Exponential, size: nat, sigma: real, i: int, j: int)
    requires Positive(exp) && Increasing(exp) && sigma != 0.0 && 0 <= i < size && 0 <= j < size
    requires Abs(i - size / 2) < Abs(j - size / 2)
    ensures Gaussian(exp, size, sigma)[i] > Gaussian(exp, size, sigma)[j]
  {
    hide Gaussian;
    hide Decay;
    hide Abs;
    var total := Taps(exp, size, sigma);
    DecayFalls(exp, i - size / 2, j - size / 2, sigma);
    LessShare(Decay(exp, j - size / 2, sigma), Decay(exp, i - size / 2, sigma), total);
  }

  // Both loops of the kernel generator.
  method GenerateGaussianKernel(exp: Exponential, kernel: array<real>, sigma: real)
    requires Positive(exp) && sigma != 0.0
    modifies kernel
    ensures kernel[..] == Gaussian(exp, kernel.Length, sigma)
    ensures IsBell(exp, kernel[..], sigma)
  {
    hide Share;
    hide Bell;
    hide Sigma2;
    hide IsBell;
    Sigma2Positive(sigma);
    var size := kernel.Length;
    var sum := 0.0;
    var half := size / 2;
    var sigma2 := Sigma2(sigma);
    ghost var raw := Raw(exp, size, sigma2);
    var i := 0;
    while i < size
      invariant 0 <= i <= size
      invariant forall k :: 0 <= k < i ==> kernel[k] == raw(k)
      invariant sum == SumTo(raw, i)
    {
      var x := (i - half) as real;
      kernel[i] := Bell(exp, x, sigma2);
      sum := sum + kernel[i];
      i := i + 1;
    }
    if size > 0 {
      RawPositive(exp, size, sigma2);
    }
    i := 0;
    while i < size
      invariant 0 <= i <= size
      invariant forall k :: 0 <= k < i ==> kernel[k] == Share(raw(k), sum)
      invariant forall k :: i <= k < size ==> kernel[k] == raw(k)
    {
      kernel[i] := Share(kernel[i], sum);
      i := i + 1;
    }
    assert kernel[..] == Gaussian(exp, size, sigma);
    GaussianIsBell(exp, size, sigma);
  }
}
