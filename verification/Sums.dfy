// Finite sums of real-valued terms.
module Sums {

  type Terms = int -> real

  function SumTo(g: Terms, n: nat): real {
    if n == 0 then 0.0 else SumTo(g, n - 1) + g(n - 1)
  }

  // ---- term by term

  function Plus(g: Terms, h: Terms): Terms {
    k => g(k) + h(k)
  }

  function Scale(c: real, g: Terms): Terms {
    k => c * g(k)
  }

  function Times(g: Terms, h: Terms): Terms {
    k => g(k) * h(k)
  }

  function Shift(g: Terms, n: int): Terms {
    k => g(n + k)
  }

  function Reversed(g: Terms, n: int): Terms {
    k => g(n - 1 - k)
  }

  function RowOf(f: (int, int) -> real, i: int): Terms {
    j => f(i, j)
  }

  function ColumnOf(f: (int, int) -> real, j: int): Terms {
    i => f(i, j)
  }

  function RowSums(f: (int, int) -> real, m: nat): Terms {
    i => SumTo(RowOf(f, i), m)
  }

  function ColumnSums(f: (int, int) -> real, n: nat): Terms {
    j => SumTo(ColumnOf(f, j), n)
  }

  // ---- laws

  lemma {:induction false} SumExt(g: Terms, h: Terms, n: nat)
    requires forall k :: 0 <= k < n ==> g(k) == h(k)
    ensures SumTo(g, n) == SumTo(h, n)
  {
    if n > 0 {
      SumExt(g, h, n - 1);
    }
  }

  lemma {:induction false} SumAdd(g: Terms, h: Terms, n: nat)
    ensures SumTo(Plus(g, h), n) == SumTo(g, n) + SumTo(h, n)
  {
    if n > 0 {
      SumAdd(g, h, n - 1);
    }
  }

  lemma {:induction false} SumScale(c: real, g: Terms, n: nat)
    ensures SumTo(Scale(c, g), n) == c * SumTo(g, n)
  {
    if n > 0 {
      SumScale(c, g, n - 1);
      assert c * (SumTo(g, n - 1) + g(n - 1)) == c * SumTo(g, n - 1) + c * g(n - 1);
    }
  }

  // Two nested sums may be exchanged.
  lemma {:induction false} SumSwap(f: (int, int) -> real, n: nat, m: nat)
    ensures SumTo(RowSums(f, m), n) == SumTo(ColumnSums(f, n), m)
  {
    if n == 0 {
      SumOfZeros(ColumnSums(f, 0), m);
    } else {
      SumSwap(f, n - 1, m);
      SumAdd(ColumnSums(f, n - 1), RowOf(f, n - 1), m);
      SumExt(Plus(ColumnSums(f, n - 1), RowOf(f, n - 1)), ColumnSums(f, n), m);
    }
  }

  lemma {:induction false} SumOfZeros(g: Terms, n: nat)
    requires forall k :: 0 <= k < n ==> g(k) == 0.0
    ensures SumTo(g, n) == 0.0
  {
    if n > 0 {
      SumOfZeros(g, n - 1);
    }
  }

  // A sum over n + m terms splits at n.
  lemma {:induction false} SumSplit(g: Terms, n: nat, m: nat)
    ensures SumTo(g, n + m) == SumTo(g, n) + SumTo(Shift(g, n), m)
  {
    if m > 0 {
      SumSplit(g, n, m - 1);
    }
  }

  lemma {:induction false} SumReverse(g: Terms, n: nat)
    ensures SumTo(Reversed(g, n), n) == SumTo(g, n)
  {
    if n > 0 {
      SumSplit(Reversed(g, n), 1, n - 1);
      assert SumTo(Reversed(g, n), 1) == g(n - 1);
      SumExt(Shift(Reversed(g, n), 1), Reversed(g, n - 1), n - 1);
      SumReverse(g, n - 1);
    }
  }

  // A sum of values times weights lies between the bounds of the values.
  lemma {:induction false} SumBounds(t: Terms, w: Terms, lo: real, hi: real, n: nat)
    requires forall k :: 0 <= k < n ==> w(k) >= 0.0 && lo <= t(k) <= hi
    ensures lo * SumTo(w, n) <= SumTo(Times(t, w), n) <= hi * SumTo(w, n)
  {
    if n > 0 {
      SumBounds(t, w, lo, hi, n - 1);
      BoundStep(lo, t(n - 1), hi, SumTo(w, n - 1), w(n - 1), SumTo(Times(t, w), n - 1));
    }
  }

  lemma BoundStep(lo: real, v: real, hi: real, s: real, a: real, p: real)
    requires lo <= v <= hi && a >= 0.0 && lo * s <= p <= hi * s
    ensures lo * (s + a) <= p + v * a <= hi * (s + a)
  {
    Scaled(lo, v, a);
    Scaled(v, hi, a);
    Distribute(lo, s, a);
    Distribute(hi, s, a);
  }

  lemma Distribute(c: real, s: real, a: real)
    ensures c * (s + a) == c * s + c * a
  {
  }

  lemma Scaled(p: real, q: real, a: real)
    requires p <= q && a >= 0.0
    ensures p * a <= q * a
  {
    assert (q - p) * a >= 0.0;
  }

  lemma {:induction false} SumPositive(g: Terms, n: nat)
    requires forall k :: 0 <= k < n ==> g(k) > 0.0
    ensures n > 0 ==> SumTo(g, n) > 0.0
  {
    if n > 1 {
      SumPositive(g, n - 1);
    }
  }
}
