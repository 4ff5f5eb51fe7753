/** Bitwise operations on natural numbers, bit by bit, and their arithmetic meaning. */
module Bits {

  function Pow2(n: nat): (r: nat)
    ensures r > 0
  {
    if n == 0 then 1 else 2 * Pow2(n - 1)
  }

  function And(a: nat, b: nat): nat
  {
    if a == 0 || b == 0 then 0
    else (if a % 2 == 1 && b % 2 == 1 then 1 else 0) + 2 * And(a / 2, b / 2)
  }

  function Or(a: nat, b: nat): nat
    decreases a + b
  {
    if a == 0 then b
    else if b == 0 then a
    else (if a % 2 == 1 || b % 2 == 1 then 1 else 0) + 2 * Or(a / 2, b / 2)
  }

  function Xor(a: nat, b: nat): nat
    decreases a + b
  {
    if a == 0 then b
    else if b == 0 then a
    else (if a % 2 != b % 2 then 1 else 0) + 2 * Xor(a / 2, b / 2)
  }

  /** A left shift in a 64-bit word. */
  function Shl64(a: nat, shift: nat): nat
  {
    a * Pow2(shift) % 0x1_0000_0000_0000_0000
  }

  lemma {:induction false} Pow2Add(m: nat, n: nat)
    ensures Pow2(m + n) == Pow2(m) * Pow2(n)
  {
    if m == 0 {
    } else {
      Pow2Add(m - 1, n);
      assert Pow2(m + n) == 2 * Pow2(m - 1 + n);
    }
  }

  lemma {:induction false} Pow2Monotone(m: nat, n: nat)
    requires m <= n
    ensures Pow2(m) <= Pow2(n)
  {
    if m < n {
      Pow2Monotone(m, n - 1);
    }
  }

  lemma Pow2Small()
    ensures Pow2(4) == 0x10 && Pow2(6) == 0x40 && Pow2(7) == 0x80 && Pow2(8) == 0x100
  {
    assert Pow2(4) == 0x10;
    assert Pow2(8) == 0x100;
  }

  lemma Pow2Values()
    ensures Pow2(4) == 0x10 && Pow2(6) == 0x40 && Pow2(7) == 0x80 && Pow2(8) == 0x100
    ensures Pow2(28) == 0x1000_0000
    ensures Pow2(63) == 0x8000_0000_0000_0000 && Pow2(64) == 0x1_0000_0000_0000_0000
  {
    Pow2Small();
    Pow2Add(8, 8);
    Pow2Add(16, 8);
    Pow2Add(24, 4);
    Pow2Add(16, 16);
    Pow2Add(32, 32);
    Pow2Add(63, 1);
    assert Pow2(1) == 2;
  }

  /** An `or` of numbers that share no bit is a sum. */
  lemma {:induction false} OrDisjoint(a: nat, b: nat, k: nat, p: nat)
    requires p == Pow2(k) && a < p
    ensures Or(a, b * p) == a + b * p
  {
    if k == 0 {
    } else {
      DoubleProduct(b, p / 2);
      OrDisjoint(a / 2, b, k - 1, p / 2);
      OrHalves(a, b * p);
    }
  }

  lemma OrHalves(a: nat, b: nat)
    ensures Or(a, b) == (if a % 2 == 1 || b % 2 == 1 then 1 else 0) + 2 * Or(a / 2, b / 2)
  {
  }

  /** Masking with `2^k - 1` is the remainder by `2^k`. */
  lemma {:induction false} AndMask(a: nat, k: nat)
    ensures And(a, Pow2(k) - 1) == a % Pow2(k)
  {
    if k == 0 {
    } else if a == 0 {
    } else {
      AndMask(a / 2, k - 1);
      var p := Pow2(k - 1);
      assert Pow2(k) - 1 == 2 * (p - 1) + 1;
      HalfRemainder(a, p);
    }
  }

  lemma HalfRemainder(a: nat, p: nat)
    requires p > 0
    ensures a % (2 * p) == a % 2 + 2 * (a / 2 % p)
  {
    var h := a / 2;
    var q := h / p;
    assert a == 2 * p * q + (a % 2 + 2 * (h % p));
    assert 0 <= a % 2 + 2 * (h % p) < 2 * p;
    DivModUnique(a, 2 * p, q, a % 2 + 2 * (h % p));
  }

  lemma DivModUnique(a: int, d: int, q: int, r: int)
    requires d > 0 && 0 <= r < d && a == d * q + r
    ensures a / d == q && a % d == r
  {
    var k := a / d - q;
    assert d * k == r - a % d by {
      assert d * k == d * (a / d) - d * q;
    }
    if k > 0 {
      MulStep(d, k);
    } else if k < 0 {
      MulStep(d, -k);
    }
  }

  lemma MulStep(d: int, n: int)
    requires d > 0 && n > 0
    ensures d * n >= d
  {
  }

  /** Masking with `2^k` isolates bit `k`. */
  lemma {:induction false} AndBit(a: nat, k: nat)
    ensures And(a, Pow2(k)) == (if a / Pow2(k) % 2 == 1 then Pow2(k) else 0)
  {
    if a == 0 {
    } else if k == 0 {
    } else {
      AndBit(a / 2, k - 1);
      var p := Pow2(k - 1);
      HalfQuotient(a, p);
    }
  }

  lemma HalfQuotient(a: nat, p: nat)
    requires p > 0
    ensures a / (2 * p) == a / 2 / p
  {
    var h := a / 2;
    var q, r := h / p, h % p;
    assert a == 2 * p * q + (a % 2 + 2 * r);
    DivModUnique(a, 2 * p, q, a % 2 + 2 * r);
  }

  /** A mask without bits below `k` sees only the bits from `k` up. */
  lemma {:induction false} AndHigh(a: nat, a1: nat, a0: nat, b: nat, b1: nat, v: nat, k: nat, p: nat)
    requires p == Pow2(k) && a0 < p && And(a1, b1) == v
    requires a == a1 * p + a0 && b == b1 * p
    ensures And(a, b) == v * p
  {
    hide And, Pow2;
    Pow2Step(k);
    if k == 0 {
      assert a == a1 && b == b1;
    } else {
      var h := p / 2;
      HalfSplit(a, a1, a0, h);
      HalfSplit(b, b1, 0, h);
      AndHigh(a / 2, a1, a0 / 2, b / 2, b1, v, k - 1, h);
      AndEven(a, b);
      DoubleProduct(v, h);
    }
  }

  /** A mask of all bits below `k` that is disjoint above leaves the bits below. */
  lemma {:induction false} AndLow(a: nat, a1: nat, a0: nat, b: nat, b1: nat, k: nat, p: nat)
    requires p == Pow2(k) && a0 < p && And(a1, b1) == 0
    requires a == a1 * p + a0 && b == b1 * p + (p - 1)
    ensures And(a, b) == a0
  {
    hide And, Pow2;
    Pow2Step(k);
    if k == 0 {
      assert a == a1 && b == b1;
    } else {
      var h := p / 2;
      HalfSplit(a, a1, a0, h);
      HalfSplit(b, b1, p - 1, h);
      AndLow(a / 2, a1, a0 / 2, b / 2, b1, k - 1, h);
      AndHalves(a, b);
    }
  }

  lemma Pow2Step(k: nat)
    ensures k == 0 ==> Pow2(k) == 1
    ensures k > 0 ==> Pow2(k) == 2 * Pow2(k - 1)
  {
  }

  lemma AndEven(a: nat, b: nat)
    requires b % 2 == 0
    ensures And(a, b) == 2 * And(a / 2, b / 2)
  {
  }

  lemma DoubleProduct(x: nat, p: nat)
    ensures x * (2 * p) == 2 * (x * p)
  {
  }

  lemma AndHalves(a: nat, b: nat)
    ensures And(a, b) == (if a % 2 == 1 && b % 2 == 1 then 1 else 0) + 2 * And(a / 2, b / 2)
  {
  }

  lemma HalfSplit(a: nat, a1: nat, a0: nat, h: nat)
    requires a == a1 * (2 * h) + a0
    ensures a / 2 == a1 * h + a0 / 2
    ensures a % 2 == a0 % 2
  {
    DoubleProduct(a1, h);
  }

  lemma {:induction false} XorBound(a: nat, b: nat, k: nat)
    requires a < Pow2(k) && b < Pow2(k)
    ensures Xor(a, b) < Pow2(k)
  {
    if k == 0 {
    } else {
      XorBound(a / 2, b / 2, k - 1);
      XorHalves(a, b);
    }
  }

  /** Flipping bits below bit `k` leaves the rest alone. */
  lemma {:induction false} XorLow(a: nat, a1: nat, a0: nat, b: nat, k: nat, p: nat)
    requires p == Pow2(k) && a0 < p && b < p
    requires a == a1 * p + a0
    ensures Xor(a, b) == a1 * p + Xor(a0, b)
  {
    if k == 0 {
    } else {
      var h := p / 2;
      HalfSplit(a, a1, a0, h);
      XorLow(a / 2, a1, a0 / 2, b / 2, k - 1, h);
      DoubleProduct(a1, h);
      XorHalves(a, b);
      XorHalves(a0, b);
    }
  }

  lemma XorHalves(a: nat, b: nat)
    ensures Xor(a, b) == (if a % 2 != b % 2 then 1 else 0) + 2 * Xor(a / 2, b / 2)
  {
  }

  /** A number shares no bit with its complement. */
  lemma {:induction false} AndComplement(a: nat, k: nat)
    requires a < Pow2(k)
    ensures And(a, Pow2(k) - 1 - a) == 0
  {
    if k == 0 {
    } else {
      AndComplement(a / 2, k - 1);
      AndHalves(a, Pow2(k) - 1 - a);
    }
  }
}
