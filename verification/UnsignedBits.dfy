/** The bit operators of an unsigned machine word, on its numeric value. */
module UnsignedBits {
  function And(a: nat, b: nat): nat {
    if a == 0 || b == 0 then 0
    else 2 * And(a / 2, b / 2) + if a % 2 == 1 && b % 2 == 1 then 1 else 0
  }

  function Or(a: nat, b: nat): nat {
    if a == 0 && b == 0 then 0
    else 2 * Or(a / 2, b / 2) + if a % 2 == 1 || b % 2 == 1 then 1 else 0
  }

  function Xor(a: nat, b: nat): nat {
    if a == 0 && b == 0 then 0
    else 2 * Xor(a / 2, b / 2) + if a % 2 != b % 2 then 1 else 0
  }

  function Pow2(k: nat): nat
    ensures Pow2(k) > 0
  {
    if k == 0 then 1 else 2 * Pow2(k - 1)
  }

  lemma {:induction false} AndTopBit(w: nat, k: nat)
    requires w < Pow2(k + 1)
    ensures And(w, Pow2(k)) == if w >= Pow2(k) then Pow2(k) else 0
  {
    if k == 0 {
      assert Pow2(1) == 2;
    } else {
      AndTopBit(w / 2, k - 1);
      assert Pow2(k) / 2 == Pow2(k - 1) && Pow2(k) % 2 == 0;
    }
  }

  lemma {:induction false} AndLowBits(w: nat, k: nat)
    requires w < Pow2(k + 1)
    ensures And(w, Pow2(k) - 1) == if w >= Pow2(k) then w - Pow2(k) else w
  {
    if k == 0 {
      assert Pow2(1) == 2;
    } else {
      AndLowBits(w / 2, k - 1);
      assert (Pow2(k) - 1) / 2 == Pow2(k - 1) - 1 && (Pow2(k) - 1) % 2 == 1;
    }
  }

  lemma {:induction false} OrZero(n: nat)
    ensures Or(0, n) == Or(n, 0) == n
  {
    if n != 0 {
      OrZero(n / 2);
    }
  }

  /** A bit above a number is set by adding it, and stays set. */
  lemma {:induction false} OrTopBit(n: nat, k: nat)
    requires n < Pow2(k + 1)
    ensures var r := if n >= Pow2(k) then n else n + Pow2(k);
      Or(Pow2(k), n) == Or(n, Pow2(k)) == r
  {
    if k == 0 {
      assert Pow2(1) == 2;
      OrZero(n / 2);
    } else {
      OrTopBit(n / 2, k - 1);
      assert Pow2(k) / 2 == Pow2(k - 1) && Pow2(k) % 2 == 0;
    }
  }

  lemma {:induction false} XorZero(a: nat)
    ensures Xor(a, 0) == Xor(0, a) == a
  {
    if a != 0 {
      XorZero(a / 2);
    }
  }

  /** XOR with the same number undoes itself. */
  lemma {:induction false} XorTwice(a: nat, b: nat)
    ensures Xor(Xor(a, b), b) == a
  {
    if a != 0 || b != 0 {
      XorTwice(a / 2, b / 2);
      assert Xor(a, b) / 2 == Xor(a / 2, b / 2);
      if Xor(a, b) == 0 && b == 0 {
        XorZero(a);
      }
    }
  }

  lemma {:induction false} XorBound(a: nat, b: nat, k: nat)
    requires a < Pow2(k) && b < Pow2(k)
    ensures Xor(a, b) < Pow2(k)
  {
    if k > 0 {
      XorBound(a / 2, b / 2, k - 1);
    }
  }

  lemma XorHalves(a: nat, b: nat)
    ensures Xor(a, b) == 2 * Xor(a / 2, b / 2) + if a % 2 != b % 2 then 1 else 0
  {
  }

  lemma Half(a: nat, u: nat)
    ensures (a + 2 * u) / 2 == a / 2 + u && (a + 2 * u) % 2 == a % 2
  {
  }

  /** Shifted left by `k` bits. */
  function Shift(x: nat, k: nat): nat {
    if k == 0 then x else 2 * Shift(x, k - 1)
  }

  lemma XorCarry(a: nat, u: nat, b: nat, v: nat, high: nat)
    requires Xor(a / 2 + u, b / 2 + v) == Xor(a / 2, b / 2) + high
    ensures Xor(a + 2 * u, b + 2 * v) == Xor(a, b) + 2 * high
  {
    Half(a, u);
    Half(b, v);
    XorHalves(a, b);
    XorHalves(a + 2 * u, b + 2 * v);
  }

  lemma HalfBelow(a: nat, k: nat)
    requires k > 0 && a < Pow2(k)
    ensures a / 2 < Pow2(k - 1)
  {
  }

  /** XOR works on the low bits and on the rest separately. */
  lemma {:induction false} XorSplit(a: nat, x: nat, b: nat, y: nat, k: nat)
    requires a < Pow2(k) && b < Pow2(k)
    ensures Xor(a + Shift(x, k), b + Shift(y, k)) == Xor(a, b) + Shift(Xor(x, y), k)
  {
    if k > 0 {
      HalfBelow(a, k);
      HalfBelow(b, k);
      XorSplit(a / 2, x, b / 2, y, k - 1);
      XorCarry(a, Shift(x, k - 1), b, Shift(y, k - 1), Shift(Xor(x, y), k - 1));
    }
  }

  lemma ShiftByte(x: nat)
    ensures Shift(x, 8) == 256 * x && Pow2(8) == 256
  {
    assert Pow2(4) == 16;
    assert Shift(x, 1) == 2 * x;
    assert Shift(x, 3) == 8 * x;
    assert Shift(x, 5) == 32 * x;
    assert Shift(x, 7) == 128 * x;
  }

  lemma XorSplit256(a: nat, x: nat, b: nat, y: nat)
    requires a < 256 && b < 256
    ensures Xor(a + 256 * x, b + 256 * y) == Xor(a, b) + 256 * Xor(x, y)
  {
    ShiftByte(x);
    ShiftByte(y);
    ShiftByte(Xor(x, y));
    XorSplit(a, x, b, y, 8);
  }
}
