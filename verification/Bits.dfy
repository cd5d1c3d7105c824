/**
 Bitwise operators on unsigned machine words, read as natural numbers, and what the idioms of
 the source compute: masking with 2^k - 1, masking with ~15, clearing the lowest set bit.
 */
module Bits {
  import opened Machine

  function Pow2(n: nat): (r: nat)
    ensures r > 0
  {
    if n == 0 then 1 else 2 * Pow2(n - 1)
  }

  function And(a: nat, b: nat): (r: nat)
    ensures r <= a && r <= b
  {
    if a == 0 || b == 0 then 0 else 2 * And(a / 2, b / 2) + Min(a % 2, b % 2)
  }

  function Or(a: nat, b: nat): nat
    decreases a + b
  {
    if a == 0 then b
    else if b == 0 then a
    else 2 * Or(a / 2, b / 2) + Max(a % 2, b % 2)
  }

  function Xor(a: nat, b: nat): nat
    decreases a + b
  {
    if a == 0 then b
    else if b == 0 then a
    else 2 * Xor(a / 2, b / 2) + (a % 2 + b % 2) % 2
  }

  predicate Bit(w: nat, k: nat) {
    if k == 0 then w % 2 == 1 else Bit(w / 2, k - 1)
  }

  /** x & (2^k - 1) is x mod 2^k. */
  lemma {:induction false} MaskIsMod(x: nat, k: nat)
    ensures And(x, Pow2(k) - 1) == x % Pow2(k)
  {
    hide And, Pow2;
    Pow2Step(k);
    AndZero(x);
    if k > 0 && x > 0 {
      MaskIsMod(x / 2, k - 1);
      var m := Pow2(k - 1);
      HalfMask(x, m);
      ModHalf(x, m);
    } else if k > 0 {
      AndZero(Pow2(k) - 1);
      ModOfZero(Pow2(k));
    }
  }

  lemma Pow2Step(k: nat)
    ensures Pow2(k) == if k == 0 then 1 else 2 * Pow2(k - 1)
  {
  }

  lemma AndZero(x: nat)
    ensures And(x, 0) == 0 && And(0, x) == 0
  {
  }

  lemma ModOfZero(m: nat)
    requires m > 0
    ensures 0 % m == 0
  {
  }

  /** x & ~(2^k - 1), in n bits, is x rounded down to a multiple of 2^k. */
  lemma {:induction false} HighMaskRounds(x: nat, n: nat, k: nat)
    requires k <= n && x < Pow2(n)
    ensures Pow2(k) <= Pow2(n)
    ensures And(x, Pow2(n) - Pow2(k)) == x - x % Pow2(k)
  {
    hide And, Pow2;
    Pow2Mono(k, n);
    Pow2Step(k);
    Pow2Step(n);
    if k == 0 {
      MaskIsMod(x, n);
      ModBelow(x, Pow2(n));
    } else {
      var m, mask := Pow2(k - 1), Pow2(n - 1) - Pow2(k - 1);
      HighMaskRounds(x / 2, n - 1, k - 1);
      AndEven(x, mask);
      ModHalf(x, m);
    }
  }

  lemma AndEven(x: nat, m: nat)
    ensures And(x, 2 * m) == 2 * And(x / 2, m)
  {
  }

  lemma ModBelow(x: nat, m: nat)
    requires x < m
    ensures x % m == x
  {
  }

  lemma HalfMask(x: nat, m: nat)
    requires m > 0 && x > 0
    ensures And(x, 2 * m - 1) == 2 * And(x / 2, m - 1) + x % 2
  {
    assert (2 * m - 1) / 2 == m - 1 && (2 * m - 1) % 2 == 1;
  }

  lemma ModHalf(x: nat, m: nat)
    requires m > 0
    ensures x % (2 * m) == 2 * (x / 2 % m) + x % 2
  {
    var q, r := x / 2 / m, x / 2 % m;
    assert x / 2 == q * m + r;
    assert x == 2 * (q * m + r) + x % 2;
    var s := 2 * r + x % 2;
    assert 0 <= s < 2 * m;
    assert x == q * (2 * m) + s;
    DivModUnique(x, 2 * m, q, s);
  }

  lemma {:induction false} MulAtLeast(a: nat, d: nat)
    requires a >= 1
    ensures a * d >= d
  {
    if a > 1 {
      MulAtLeast(a - 1, d);
      assert a * d == (a - 1) * d + d;
    }
  }

  lemma SmallerQuotient(d: nat, q: nat, r: nat, q2: nat, r2: nat)
    requires r < d && q < q2
    ensures q * d + r < q2 * d + r2
  {
    MulAtLeast(q2 - q, d);
    assert (q2 - q) * d == q2 * d - q * d;
  }

  lemma DivModUnique(x: nat, d: nat, q: nat, r: nat)
    requires d > 0 && r < d && x == q * d + r
    ensures x / d == q && x % d == r
  {
    if q < x / d {
      SmallerQuotient(d, q, r, x / d, x % d);
    }
    if x / d < q {
      SmallerQuotient(d, x / d, x % d, q, r);
    }
  }

  /** w & (w - 1) clears the lowest set bit and no other. */
  lemma {:induction false} ClearLowest(w: nat, low: nat)
    requires Bit(w, low) && forall k: nat :: k < low ==> !Bit(w, k)
    ensures w > 0 && And(w, w - 1) < w
    ensures forall k: nat :: Bit(And(w, w - 1), k) <==> Bit(w, k) && k != low
  {
    if low == 0 {
      AndSame(w / 2);
      assert (w - 1) / 2 == w / 2;
      assert And(w, w - 1) == w - 1 by {
        if w == 1 {
        } else {
          assert And(w, w - 1) == 2 * And(w / 2, (w - 1) / 2) + Min(w % 2, (w - 1) % 2);
        }
      }
      forall k: nat
        ensures Bit(w - 1, k) <==> Bit(w, k) && k != 0
      {
        if k > 0 {
          assert Bit(w - 1, k) == Bit((w - 1) / 2, k - 1);
        }
      }
    } else {
      assert !Bit(w, 0);
      var h := w / 2;
      forall k: nat | k < low - 1
        ensures !Bit(h, k)
      {
        assert !Bit(w, k + 1);
      }
      ClearLowest(h, low - 1);
      assert w == 2 * h && (w - 1) / 2 == h - 1;
      assert And(w, w - 1) == 2 * And(h, h - 1);
      forall k: nat
        ensures Bit(And(w, w - 1), k) <==> Bit(w, k) && k != low
      {
        if k > 0 {
          assert Bit(And(w, w - 1), k) == Bit(And(h, h - 1), k - 1);
        }
      }
    }
  }

  lemma {:induction false} AndSame(w: nat)
    ensures And(w, w) == w
  {
    if w > 0 {
      AndSame(w / 2);
    }
  }

  lemma {:induction false} ZeroHasNoBits(k: nat)
    ensures !Bit(0, k)
  {
    if k > 0 {
      ZeroHasNoBits(k - 1);
    }
  }

  lemma {:induction false} OrBits(a: nat, b: nat, k: nat)
    ensures Bit(Or(a, b), k) <==> Bit(a, k) || Bit(b, k)
  {
    if a == 0 || b == 0 {
      ZeroHasNoBits(k);
    } else if k > 0 {
      OrBits(a / 2, b / 2, k - 1);
    }
  }

  lemma {:induction false} XorBits(a: nat, b: nat, k: nat)
    ensures Bit(Xor(a, b), k) <==> Bit(a, k) != Bit(b, k)
    decreases k
  {
    if a == 0 || b == 0 {
      ZeroHasNoBits(k);
    } else if k > 0 {
      XorBits(a / 2, b / 2, k - 1);
    }
  }

  lemma {:induction false} AndBits(a: nat, b: nat, k: nat)
    ensures Bit(And(a, b), k) <==> Bit(a, k) && Bit(b, k)
    decreases k
  {
    if a == 0 || b == 0 {
      ZeroHasNoBits(k);
    } else if k > 0 {
      AndBits(a / 2, b / 2, k - 1);
    }
  }

  lemma {:induction false} OrBound(a: nat, b: nat, n: nat)
    requires a < Pow2(n) && b < Pow2(n)
    ensures Or(a, b) < Pow2(n)
    decreases n
  {
    if a != 0 && b != 0 {
      OrBound(a / 2, b / 2, n - 1);
    }
  }

  /** 1 << n has bit n and no other. */
  lemma {:induction false} ShiftedOne(n: nat, k: nat)
    ensures Bit(Pow2(n), k) <==> k == n
  {
    if k == 0 {
    } else if n == 0 {
      assert Pow2(0) / 2 == 0;
      ZeroHasNoBits(k - 1);
    } else {
      assert Pow2(n) / 2 == Pow2(n - 1);
      ShiftedOne(n - 1, k - 1);
    }
  }

  /** A word below 2^n has no bits from n on. */
  lemma {:induction false} BitsBelow(w: nat, n: nat, k: nat)
    requires w < Pow2(n) && n <= k
    ensures !Bit(w, k)
    decreases n
  {
    if n == 0 {
      ZeroHasNoBits(k);
    } else {
      BitsBelow(w / 2, n - 1, k - 1);
    }
  }

  lemma {:induction false} Pow2Mono(a: nat, b: nat)
    requires a <= b
    ensures Pow2(a) <= Pow2(b)
  {
    if a < b {
      Pow2Mono(a, b - 1);
    }
  }

  lemma {:induction false} Pow2Add(a: nat, b: nat)
    ensures Pow2(a + b) == Pow2(a) * Pow2(b)
  {
    if a > 0 {
      Pow2Add(a - 1, b);
    }
  }

  /** The powers the source names. */
  lemma PowerValues()
    ensures Pow2(4) == 16 && Pow2(12) == 4096 && Pow2(32) == U32_END && Pow2(64) == U64_END
  {
    hide Pow2;
    Pow2Step(0);
    Pow2Step(1);
    Pow2Add(1, 1);
    Pow2Add(2, 2);
    Pow2Add(4, 4);
    Pow2Add(8, 4);
    Pow2Add(8, 8);
    Pow2Add(16, 16);
    Pow2Add(32, 32);
  }

  /** x / d, counted out. */
  function Quotient(x: nat, d: nat): nat
    requires d > 0
    decreases x
  {
    if x < d then 0 else 1 + Quotient(x - d, d)
  }

  lemma {:induction false} QuotientIs(x: nat, d: nat)
    requires d > 0
    ensures x == Quotient(x, d) * d + x % d
    ensures Quotient(x, d) == x / d
    decreases x
  {
    if x < d {
      DivModUnique(x, d, 0, x);
    } else {
      var q, r := Quotient(x - d, d), (x - d) % d;
      QuotientIs(x - d, d);
      assert x == (q + 1) * d + r;
      DivModUnique(x, d, q + 1, r);
    }
  }
}
