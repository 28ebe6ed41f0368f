/** Powers of two, masks and uniqueness of division. */
module Arithmetic {
  function Pow2(k: nat): (p: nat)
    ensures p >= 1
  {
    if k == 0 then 1 else 2 * Pow2(k - 1)
  }

  /** Bitwise and. */
  function And(a: nat, b: nat): nat
    decreases a
  {
    if a == 0 || b == 0 then 0 else (a % 2) * (b % 2) + 2 * And(a / 2, b / 2)
  }

  /** Masking off the low k bits of a w-bit number rounds down to a multiple of 2^k. */
  lemma {:induction false} MaskRoundsDown(a: nat, w: nat, k: nat)
    requires k <= w && a < Pow2(w)
    ensures Pow2(w) - Pow2(k) >= 0 && And(a, Pow2(w) - Pow2(k)) == a - a % Pow2(k)
    decreases w
  {
    hide And;
    Pow2Grows(w, k);
    if a == 0 {
      AndZero(Pow2(w) - Pow2(k));
    } else if w == k {
      SmallMod(a, Pow2(k));
      AndZero(a);
    } else if k == 0 {
      AndOnes(a, w);
      assert a % 1 == 0;
    } else {
      MaskRoundsDown(a / 2, w - 1, k - 1);
      HalfMod(a, Pow2(k - 1));
      AndEven(a, Pow2(w - 1) - Pow2(k - 1));
    }
  }

  lemma AndZero(a: nat)
    ensures And(0, a) == 0 && And(a, 0) == 0
  {
  }

  lemma AndEven(a: nat, m: nat)
    ensures And(a, 2 * m) == 2 * And(a / 2, m)
  {
    assert (2 * m) / 2 == m && (2 * m) % 2 == 0;
  }

  lemma {:induction false} Pow2Grows(w: nat, k: nat)
    requires k <= w
    ensures Pow2(k) <= Pow2(w)
    decreases w
  {
    if k < w {
      Pow2Grows(w - 1, k);
    }
  }

  lemma AndOdd(a: nat, m: nat)
    ensures And(a, 2 * m + 1) == a % 2 + 2 * And(a / 2, m)
  {
    assert (2 * m + 1) / 2 == m && (2 * m + 1) % 2 == 1;
    if a == 0 {
      AndZero(m);
    }
  }

  /** A mask of the low w bits takes the remainder. */
  lemma {:induction false} AndMod(a: nat, w: nat)
    ensures And(a, Pow2(w) - 1) == a % Pow2(w)
    decreases w
  {
    hide And;
    if w == 0 {
      AndZero(a);
    } else {
      AndMod(a / 2, w - 1);
      AndOdd(a, Pow2(w - 1) - 1);
      HalfMod(a, Pow2(w - 1));
    }
  }

  lemma AndOnes(a: nat, w: nat)
    requires a < Pow2(w)
    ensures And(a, Pow2(w) - 1) == a
  {
    hide And, Pow2;
    AndMod(a, w);
    SmallMod(a, Pow2(w));
  }

  lemma DivTwice(a: nat, p: nat)
    requires p >= 1
    ensures a / 2 / p == a / (2 * p)
  {
    HalfMod(a, p);
    var q := a / 2 / p;
    DivModOf(a / 2, p);
    assert q * (2 * p) == 2 * (q * p);
    DivModUnique(a, 2 * p, q, a % (2 * p));
  }

  /** A mask of w bits from bit k on takes those bits, in their place; `mask` is (2^w - 1) * 2^k. */
  lemma {:induction false} AndField(a: nat, w: nat, k: nat, mask: nat)
    requires mask == (Pow2(w) - 1) * Pow2(k)
    ensures And(a, mask) == a / Pow2(k) % Pow2(w) * Pow2(k)
    decreases k
  {
    hide And;
    if k == 0 {
      AndMod(a, w);
    } else {
      var m := (Pow2(w) - 1) * Pow2(k - 1);
      assert mask == 2 * m;
      AndEven(a, m);
      AndField(a / 2, w, k - 1, m);
      DivTwice(a, Pow2(k - 1));
      var f := a / Pow2(k) % Pow2(w);
      assert f * Pow2(k) == 2 * (f * Pow2(k - 1));
    }
  }

  /** Bitwise or. */
  function Or(a: nat, b: nat): nat
    decreases a
  {
    if a == 0 then b else (if a % 2 == 1 || b % 2 == 1 then 1 else 0) + 2 * Or(a / 2, b / 2)
  }

  /** A number shifted up by k bits and one of k bits are joined; `high` is x * 2^k. */
  lemma {:induction false} OrJoins(x: nat, k: nat, high: nat, b: nat)
    requires high == x * Pow2(k) && b < Pow2(k)
    ensures Or(high, b) == high + b
    decreases k
  {
    if k == 0 {
      OrZero(high);
    } else if high > 0 {
      assert high == 2 * (x * Pow2(k - 1));
      OrJoins(x, k - 1, x * Pow2(k - 1), b / 2);
      assert high / 2 == x * Pow2(k - 1) && high % 2 == 0;
    }
  }

  lemma {:induction false} OrZero(a: nat)
    ensures Or(a, 0) == a
  {
    if a > 0 {
      OrZero(a / 2);
    }
  }

  lemma SmallMod(a: nat, p: nat)
    requires a < p
    ensures a % p == a
  {
  }

  lemma HalfMod(a: nat, p: nat)
    requires p >= 1
    ensures a % (2 * p) == 2 * ((a / 2) % p) + a % 2
  {
    var h := a / 2;
    var q, r := h / p, h % p;
    DivModOf(h, p);
    assert a == 2 * h + a % 2;
    assert q * (2 * p) == 2 * (q * p);
    DivModUnique(a, 2 * p, q, 2 * r + a % 2);
  }

  lemma MulMinus(x: int, y: int, p: int)
    ensures (x - y) * p == x * p - y * p
  {
  }

  lemma MulAtLeast(x: int, p: nat)
    requires x >= 1
    ensures x * p >= p
  {
    MulMinus(x, 1, p);
    MulNat(x - 1, p);
  }

  lemma MulNat(x: nat, p: nat)
    ensures x * p >= 0
  {
  }

  lemma QuotientUnique(p: nat, q: int, s: nat, q': int, s': nat)
    requires s < p && s' < p && q * p + s == q' * p + s'
    ensures q == q'
  {
    MulMinus(q, q', p);
    MulMinus(q', q, p);
    if q > q' {
      MulAtLeast(q - q', p);
    } else if q < q' {
      MulAtLeast(q' - q, p);
    }
  }

  lemma DivModUnique(a: nat, p: nat, q: nat, s: nat)
    requires p >= 1 && a == q * p + s && s < p
    ensures a / p == q && a % p == s
  {
    DivModOf(a, p);
    QuotientUnique(p, q, s, a / p, a % p);
  }

  lemma DivModOf(a: nat, p: nat)
    requires p >= 1
    ensures a == (a / p) * p + a % p && 0 <= a % p < p
  {
  }

  lemma Pow2Of32()
    ensures Pow2(32) == 0x1_0000_0000
  {
    assert Pow2(8) == 0x100;
    assert Pow2(16) == 0x100 * Pow2(8);
    assert Pow2(24) == 0x100 * Pow2(16);
    assert Pow2(32) == 0x100 * Pow2(24);
  }

  lemma ModAdd(a: nat, b: nat, p: nat)
    requires p >= 1 && a % p == 0 && b % p == 0
    ensures (a + b) % p == 0
  {
    DivModOf(a, p);
    DivModOf(b, p);
    var q := a / p + b / p;
    MulMinus(q, b / p, p);
    DivModUnique(a + b, p, q, 0);
  }

  lemma ModRound(a: nat, p: nat)
    requires p >= 1
    ensures 0 <= a - a % p && (a - a % p) % p == 0
  {
    DivModOf(a, p);
    MulNat(a / p, p);
    DivModUnique(a - a % p, p, a / p, 0);
  }
}
