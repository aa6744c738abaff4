// The 64-bit bit tricks of the arena header: the power-of-two test and the
// mask form of align_up, against their arithmetic meaning.
module Bits {
  import opened Common

  const SIZE_MODULUS: nat := 0x1_0000_0000_0000_0000

  function Pow2(n: nat): (p: nat)
    ensures p >= 1
  {
    if n == 0 then 1 else 2 * Pow2(n - 1)
  }

  ghost predicate IsPow2(a: nat) {
    exists k: nat :: Pow2(k) == a
  }

  function AndBit(p: nat, q: nat): nat {
    if p == 1 && q == 1 then 1 else 0
  }

  // Bitwise conjunction, one binary digit at a time.
  function And(x: nat, y: nat): nat
    decreases x
  {
    if x == 0 then 0 else And(x / 2, y / 2) * 2 + AndBit(x % 2, y % 2)
  }

  // Complement of a 64-bit word.
  function Not(x: nat): nat
    requires x < SIZE_MODULUS
  {
    SIZE_MODULUS - 1 - x
  }

  // size_t subtraction of one, which wraps at zero.
  function Pred(x: nat): nat {
    if x == 0 then SIZE_MODULUS - 1 else x - 1
  }

  // align_up as written: an addition that wraps, then a mask.
  function AlignUp(value: nat, alignment: nat): nat
    requires alignment < SIZE_MODULUS
  {
    And((value + Pred(alignment)) % SIZE_MODULUS, Not(Pred(alignment)))
  }

  // The test used by allocate: no bit shared between a and a - 1.
  predicate PassesPowerTest(alignment: nat) {
    And(alignment, Pred(alignment)) == 0
  }

  // ---- arithmetic helpers

  lemma ModDouble(x: nat, m: nat)
    requires m > 0
    ensures x % (2 * m) == 2 * ((x / 2) % m) + x % 2
  {
    var h := x / 2;
    var q, r := h / m, h % m;
    assert h == q * m + r;
    assert x == q * (2 * m) + (2 * r + x % 2) by {
      assert q * (2 * m) == 2 * (q * m);
    }
    DivModUnique(x, 2 * m, q, 2 * r + x % 2);
  }

  lemma {:induction false} Pow2Monotone(k: nat, n: nat)
    requires k <= n
    ensures Pow2(k) <= Pow2(n)
  {
    if k < n {
      Pow2Monotone(k, n - 1);
    }
  }

  lemma Pow2Width()
    ensures Pow2(64) == SIZE_MODULUS
  {
    assert Pow2(8) == 0x100;
    assert Pow2(16) == 0x1_0000;
    assert Pow2(24) == 0x100_0000;
    assert Pow2(32) == 0x1_0000_0000;
    assert Pow2(40) == 0x100_0000_0000;
    assert Pow2(48) == 0x1_0000_0000_0000;
    assert Pow2(56) == 0x100_0000_0000_0000;
  }

  // ---- the two bit tricks

  lemma Pow2Half(n: nat, k: nat)
    requires 0 < k <= n && Pow2(k) <= Pow2(n) && Pow2(k - 1) <= Pow2(n - 1)
    ensures (Pow2(n) - Pow2(k)) % 2 == 0
    ensures (Pow2(n) - Pow2(k)) / 2 == Pow2(n - 1) - Pow2(k - 1)
  {
  }

  lemma {:induction false} AndAllOnes(x: nat, n: nat)
    requires x < Pow2(n)
    ensures And(x, Pow2(n) - 1) == x
  {
    if x != 0 && n > 0 {
      assert (Pow2(n) - 1) / 2 == Pow2(n - 1) - 1;
      AndAllOnes(x / 2, n - 1);
    }
  }

  lemma AndEvenMask(x: nat, y: nat)
    requires y % 2 == 0
    ensures And(x, y) == 2 * And(x / 2, y / 2)
  {
  }

  // x with its k low digits cleared.
  function DropLow(x: nat, k: nat): nat {
    if k == 0 then x else 2 * DropLow(x / 2, k - 1)
  }

  lemma {:induction false} DropLowIsRoundDown(x: nat, k: nat)
    ensures DropLow(x, k) == x - x % Pow2(k)
  {
    if k > 0 {
      DropLowIsRoundDown(x / 2, k - 1);
      ModDouble(x, Pow2(k - 1));
    }
  }

  // Masking with the ones of positions k..n-1 clears the k low digits.
  lemma {:induction false} AndHighMask(x: nat, n: nat, k: nat)
    requires k <= n && x < Pow2(n)
    ensures Pow2(k) <= Pow2(n)
    ensures And(x, Pow2(n) - Pow2(k)) == DropLow(x, k)
  {
    Pow2Monotone(k, n);
    if k == 0 {
      AndAllOnes(x, n);
    } else {
      Pow2Monotone(k - 1, n - 1);
      Pow2Half(n, k);
      AndHighMask(x / 2, n - 1, k - 1);
      AndEvenMask(x, Pow2(n) - Pow2(k));
    }
  }

  lemma {:induction false} AndSelf(x: nat)
    ensures And(x, x) == x
  {
    if x != 0 {
      AndSelf(x / 2);
    }
  }

  lemma OddPowerTest(a: nat)
    requires a % 2 == 1
    ensures And(a, a - 1) == 2 * (a / 2)
    ensures IsPow2(a) <==> a == 1
  {
    assert (a - 1) / 2 == a / 2;
    AndSelf(a / 2);
    assert Pow2(0) == 1;
    forall k: nat | k > 0
      ensures Pow2(k) % 2 == 0
    {
    }
  }

  lemma EvenPowerTest(a: nat)
    requires a > 0 && a % 2 == 0
    ensures And(a, a - 1) == 2 * And(a / 2, a / 2 - 1)
  {
    assert (a - 1) / 2 == a / 2 - 1;
  }

  lemma EvenPow2(a: nat)
    requires a > 0 && a % 2 == 0
    ensures IsPow2(a) <==> IsPow2(a / 2)
  {
    if IsPow2(a / 2) {
      var k: nat :| Pow2(k) == a / 2;
      assert Pow2(k + 1) == a;
    }
    if IsPow2(a) {
      var k: nat :| Pow2(k) == a;
      assert Pow2(k - 1) == a / 2;
    }
  }

  // Among positive values the test accepts exactly the powers of two.
  lemma {:induction false} PowerTestExact(a: nat)
    requires 0 < a < SIZE_MODULUS
    ensures PassesPowerTest(a) <==> IsPow2(a)
  {
    if a % 2 == 1 {
      OddPowerTest(a);
    } else {
      EvenPowerTest(a);
      EvenPow2(a);
      PowerTestExact(a / 2);
    }
  }

  // Zero passes the test too, and align_up then answers address zero.
  lemma PowerTestLetsZeroThrough(value: nat)
    ensures PassesPowerTest(0)
    ensures !IsPow2(0)
    ensures AlignUp(value, 0) == 0
  {
    AndZero((value + Pred(0)) % SIZE_MODULUS);
  }

  lemma {:induction false} AndZero(x: nat)
    ensures And(x, 0) == 0
  {
    if x != 0 {
      AndZero(x / 2);
    }
  }

  // The mask drops the remainder of value + alignment - 1.
  lemma AlignUpDropsRemainder(value: nat, alignment: nat)
    requires IsPow2(alignment) && alignment < SIZE_MODULUS
    requires value + alignment <= SIZE_MODULUS
    ensures AlignUp(value, alignment)
         == (value + alignment - 1) - (value + alignment - 1) % alignment
  {
    var k: nat :| Pow2(k) == alignment;
    Pow2Width();
    if k > 64 {
      Pow2Monotone(64, k);
      assert false;
    }
    var v := value + (alignment - 1);
    assert Pred(alignment) == alignment - 1;
    assert v % SIZE_MODULUS == v;
    assert Not(Pred(alignment)) == Pow2(64) - Pow2(k);
    AndHighMask(v, 64, k);
    DropLowIsRoundDown(v, k);
  }

  // The mask form is the least multiple of the alignment not below the value,
  // so the padding is always smaller than the alignment.
  lemma AlignUpIsLeastMultiple(value: nat, alignment: nat)
    requires IsPow2(alignment) && alignment < SIZE_MODULUS
    requires value + alignment <= SIZE_MODULUS
    ensures AlignUp(value, alignment) % alignment == 0
    ensures value <= AlignUp(value, alignment) < value + alignment
    ensures forall m: nat :: m % alignment == 0 && m >= value ==> AlignUp(value, alignment) <= m
  {
    AlignUpDropsRemainder(value, alignment);
    RoundDownIsLeast(value, alignment);
  }

  lemma RoundDownIsLeast(value: nat, a: nat)
    requires a > 0
    ensures var r := (value + a - 1) - (value + a - 1) % a;
      && r % a == 0
      && value <= r < value + a
      && forall m: nat :: m % a == 0 && m >= value ==> r <= m
  {
    var v := value + a - 1;
    var q := v / a;
    var r := v - v % a;
    assert r == q * a;
    DivModUnique(r, a, q, 0);
    forall m: nat | m % a == 0 && m >= value
      ensures r <= m
    {
      var p := m / a;
      assert m == p * a;
      if p < q {
        MulOrder(p, q, a);
      } else if q < p {
        MulOrder(q, p, a);
      }
    }
  }

  // ---- the arithmetic meaning, one multiple at a time

  // The least multiple of a not below v.
  function RoundUp(v: int, a: nat): (r: nat)
    ensures a > 0 ==> v <= r && (v >= 0 ==> r < v + a)
    decreases if v < 0 then 0 else v
  {
    if v <= 0 || a == 0 then 0 else a + RoundUp(v - a, a)
  }

  lemma {:induction false} RoundUpIsMultiple(v: int, a: nat)
    requires a > 0
    ensures RoundUp(v, a) % a == 0
    decreases if v < 0 then 0 else v
  {
    if v > 0 {
      RoundUpIsMultiple(v - a, a);
      var r := RoundUp(v - a, a);
      DivModUnique(r + a, a, r / a + 1, 0);
    }
  }

  lemma MultiplesClose(p: int, q: int, a: nat)
    requires a > 0 && p % a == 0 && q % a == 0 && p - q < a && q - p < a
    ensures p == q
  {
    var m, n := p / a, q / a;
    assert p == m * a && q == n * a;
    if m < n {
      MulOrder(m, n, a);
    } else if n < m {
      MulOrder(n, m, a);
    }
  }

  // The bit form computes it.
  lemma AlignUpIsRoundUp(value: nat, alignment: nat)
    requires IsPow2(alignment) && alignment < SIZE_MODULUS
    requires value + alignment <= SIZE_MODULUS
    ensures AlignUp(value, alignment) == RoundUp(value, alignment)
  {
    hide AlignUp;
    AlignUpIsLeastMultiple(value, alignment);
    RoundUpIsMultiple(value, alignment);
    MultiplesClose(AlignUp(value, alignment), RoundUp(value, alignment), alignment);
  }
}
