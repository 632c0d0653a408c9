/** Binary digits of numbers, and what the C operators do to them. */
module Bits {
  import opened CBytes

  /** Digit `k` of `n`, counted from the lowest. */
  function Bit(n: nat, k: nat): nat {
    if k == 0 then n % 2 else Bit(n / 2, k - 1)
  }

  lemma {:induction false} BitRange(n: nat, k: nat)
    ensures Bit(n, k) < 2
  {
    if k > 0 {
      BitRange(n / 2, k - 1);
    }
  }

  lemma {:induction false} BitOfZero(k: nat)
    ensures Bit(0, k) == 0
  {
    if k > 0 {
      BitOfZero(k - 1);
    }
  }

  lemma {:induction false} OrBit(a: nat, b: nat, k: nat)
    ensures Bit(BitOr(a, b), k) == if Bit(a, k) == 1 || Bit(b, k) == 1 then 1 else 0
  {
    BitOfZero(k);
    BitRange(a, k);
    BitRange(b, k);
    if a != 0 && b != 0 && k > 0 {
      OrBit(a / 2, b / 2, k - 1);
    }
  }

  lemma {:induction false} XorBit(a: nat, b: nat, k: nat)
    ensures Bit(BitXor(a, b), k) == (Bit(a, k) + Bit(b, k)) % 2
  {
    BitOfZero(k);
    BitRange(a, k);
    BitRange(b, k);
    if a != 0 && b != 0 && k > 0 {
      XorBit(a / 2, b / 2, k - 1);
    }
  }

  // ------------------------------------------------------------------- shifts

  function Halved(n: nat, m: nat): nat {
    if m == 0 then n else Halved(n / 2, m - 1)
  }

  function Doubled(n: nat, m: nat): nat {
    if m == 0 then n else 2 * Doubled(n, m - 1)
  }

  /** The lowest `w` digits. */
  function Lowest(n: nat, w: nat): nat {
    if w == 0 then 0 else n % 2 + 2 * Lowest(n / 2, w - 1)
  }

  lemma {:induction false} HalvedAtMost(n: nat, m: nat)
    ensures Halved(n, m) <= n
  {
    if m > 0 {
      HalvedAtMost(n / 2, m - 1);
    }
  }

  lemma {:induction false} HalvedBit(n: nat, m: nat, k: nat)
    ensures Bit(Halved(n, m), k) == Bit(n, k + m)
  {
    if m > 0 {
      HalvedBit(n / 2, m - 1, k);
    }
  }

  lemma {:induction false} DoubledBit(n: nat, m: nat, k: nat)
    ensures Bit(Doubled(n, m), k) == if k < m then 0 else Bit(n, k - m)
  {
    if m > 0 {
      TwiceBit(Doubled(n, m - 1), k);
      if k > 0 {
        DoubledBit(n, m - 1, k - 1);
      }
    }
  }

  lemma TwiceBit(n: nat, k: nat)
    ensures Bit(2 * n, k) == if k == 0 then 0 else Bit(n, k - 1)
  {
    assert (2 * n) % 2 == 0 && (2 * n) / 2 == n;
  }

  lemma {:induction false} LowestBit(n: nat, w: nat, k: nat)
    ensures Bit(Lowest(n, w), k) == if k < w then Bit(n, k) else 0
  {
    if w == 0 {
      BitOfZero(k);
    } else if k > 0 {
      var rest := Lowest(n / 2, w - 1);
      assert (n % 2 + 2 * rest) / 2 == rest;
      LowestBit(n / 2, w - 1, k - 1);
    }
  }

  /** Numbers with the same digits are equal. */
  lemma {:induction false} SameBits(a: nat, b: nat, w: nat)
    requires a < Pow2(w) && b < Pow2(w)
    requires forall k :: 0 <= k < w ==> Bit(a, k) == Bit(b, k)
    ensures a == b
  {
    if w > 0 {
      assert Bit(a, 0) == Bit(b, 0);
      forall k | 0 <= k < w - 1 ensures Bit(a / 2, k) == Bit(b / 2, k) {
        assert Bit(a, k + 1) == Bit(b, k + 1);
      }
      SameBits(a / 2, b / 2, w - 1);
    }
  }

  /** Halving, doubling and cutting are division, multiplication and remainder. */
  lemma {:induction false} DoubledIs(n: nat, m: nat)
    ensures Doubled(n, m) == n * Pow2(m)
  {
    if m > 0 {
      DoubledIs(n, m - 1);
      Twice(n, Pow2(m - 1));
    }
  }

  lemma Twice(x: nat, y: nat)
    ensures x * (2 * y) == 2 * (x * y)
  {
  }

  lemma {:induction false} Parts(n: nat, m: nat)
    ensures n == Halved(n, m) * Pow2(m) + Lowest(n, m)
    ensures Lowest(n, m) < Pow2(m)
  {
    if m > 0 {
      Parts(n / 2, m - 1);
      Twice(Halved(n / 2, m - 1), Pow2(m - 1));
    }
  }

  lemma Multiple(e: int, d: int)
    requires d >= 0
    ensures e >= 1 ==> e * d >= d
    ensures e <= -1 ==> e * d <= -d
  {
  }

  lemma DivMod(n: nat, q: nat, d: nat, r: nat)
    requires n == q * d + r && r < d
    ensures n / d == q && n % d == r
  {
    var e := n / d - q;
    assert n == (n / d) * d + n % d;
    assert e * d == (n / d) * d - q * d;
    Multiple(e, d);
  }

  lemma ShiftsAre(n: nat, m: nat, d: nat)
    requires d == Pow2(m)
    ensures d > 0 && n / d == Halved(n, m) && n % d == Lowest(n, m)
  {
    Parts(n, m);
    DivMod(n, Halved(n, m), d, Lowest(n, m));
  }

  lemma {:induction false} HighBits(n: nat, w: nat, k: nat)
    requires n < Pow2(w) && k >= w
    ensures Bit(n, k) == 0
  {
    if w == 0 {
      BitOfZero(k);
    } else {
      HighBits(n / 2, w - 1, k - 1);
    }
  }

  /** Right and left parts of a rotation by `r` on `w` digits, put together by "or". */
  lemma RotationBit(a: nat, w: nat, r: nat, k: nat, right: nat, left: nat)
    requires a < Pow2(w) && r < w && k < w
    requires Bit(right, k) == Bit(a, k + r)
    requires Bit(left, k) == if k < w - r then 0 else Bit(a, k - (w - r))
    ensures Bit(BitOr(right, left), k) == Bit(a, if k + r < w then k + r else k + r - w)
  {
    OrBit(right, left, k);
    BitRange(a, k + r);
    if k + r >= w {
      HighBits(a, w, k + r);
      BitRange(a, k + r - w);
    }
  }
}
