/** Naturals as bit strings. */
module Bits {
  import opened RegIr

  /** Bit k of a natural. */
  predicate BitOf(x: nat, k: nat) {
    if k == 0 then x % 2 == 1 else BitOf(x / 2, k - 1)
  }

  lemma {:induction false} OnesBits(w: nat, k: nat)
    ensures BitOf(Pow2(w) - 1, k) <==> k < w
  {
    if w == 0 {
      ZeroBits(k);
    } else if k > 0 {
      assert (Pow2(w) - 1) / 2 == Pow2(w - 1) - 1;
      OnesBits(w - 1, k - 1);
    }
  }

  lemma {:induction false} ZeroBits(k: nat)
    ensures !BitOf(0, k)
  {
    if k > 0 {
      ZeroBits(k - 1);
    }
  }

  lemma {:induction false} ShiftedBits(x: nat, b: nat, k: nat)
    ensures BitOf(x * Pow2(b), k) <==> k >= b && BitOf(x, k - b)
  {
    if b > 0 {
      var half := x * Pow2(b - 1);
      assert x * Pow2(b) == 2 * half;
      if k > 0 {
        ShiftedBits(x, b - 1, k - 1);
        assert (2 * half) / 2 == half;
      }
    }
  }

  lemma {:induction false} NoSharedBit(a: nat, b: nat)
    requires forall k: nat :: !(BitOf(a, k) && BitOf(b, k))
    ensures BitAnd(a, b) == 0
  {
    if a > 0 && b > 0 {
      assert !(BitOf(a, 0) && BitOf(b, 0));
      forall k: nat ensures !(BitOf(a / 2, k) && BitOf(b / 2, k)) {
        assert BitOf(a, k + 1) == BitOf(a / 2, k) && BitOf(b, k + 1) == BitOf(b / 2, k);
      }
      NoSharedBit(a / 2, b / 2);
    }
  }

  lemma {:induction false} AndBits(a: nat, b: nat, k: nat)
    ensures BitOf(BitAnd(a, b), k) <==> BitOf(a, k) && BitOf(b, k)
  {
    if a == 0 || b == 0 {
      ZeroBits(k);
    } else if k > 0 {
      AndBits(a / 2, b / 2, k - 1);
      assert BitAnd(a, b) / 2 == BitAnd(a / 2, b / 2);
    }
  }

  /** The low w bits, which is what a cast to an unsigned type of w bits keeps. */
  function Low(x: nat, w: nat): (r: nat)
    ensures r < Pow2(w)
  {
    x % Pow2(w)
  }

  lemma {:induction false} LowBits(x: nat, w: nat, k: nat)
    ensures BitOf(Low(x, w), k) <==> k < w && BitOf(x, k)
  {
    if w == 0 {
      ZeroBits(k);
    } else {
      LowHalf(x, w);
      if k > 0 {
        LowBits(x / 2, w - 1, k - 1);
      }
    }
  }

  lemma LowHalf(x: nat, w: nat)
    requires w > 0
    ensures Low(x, w) % 2 == x % 2 && Low(x, w) / 2 == Low(x / 2, w - 1)
  {
    var p := Pow2(w - 1);
    var q, r := x / (2 * p), x % (2 * p);
    assert x == 2 * p * q + r;
    assert x == 2 * (p * q) + r;
    assert x / 2 == p * q + r / 2 && x % 2 == r % 2;
    ModUnique(x / 2, p, q, r / 2);
  }

  lemma ModUnique(x: nat, p: nat, q: nat, r: nat)
    requires p > 0 && x == p * q + r && r < p
    ensures x % p == r
  {
    var q', r' := x / p, x % p;
    assert x == p * q' + r';
    if q' > q {
      MulGap(p, q, q');
    } else if q > q' {
      MulGap(p, q', q);
    }
  }

  lemma MulGap(p: nat, a: nat, b: nat)
    requires a < b
    ensures p * a + p <= p * b
  {
    assert p * b == p * a + p * (b - a);
    assert p * (b - a) >= p by {
      if b - a > 1 {
        assert p * (b - a) == p + p * (b - a - 1);
      }
    }
  }

  /** The complement within n bits. */
  lemma {:induction false} NotBits(x: nat, n: nat, k: nat)
    requires x < Pow2(n)
    ensures BitOf(Pow2(n) - 1 - x, k) <==> k < n && !BitOf(x, k)
  {
    if n == 0 {
      ZeroBits(k);
    } else {
      var y := Pow2(n) - 1 - x;
      assert y == 2 * (Pow2(n - 1) - 1 - x / 2) + (1 - x % 2);
      assert y / 2 == Pow2(n - 1) - 1 - x / 2 && y % 2 == 1 - x % 2;
      if k > 0 {
        NotBits(x / 2, n - 1, k - 1);
      }
    }
  }

  lemma {:induction false} SameBits(a: nat, b: nat)
    requires forall k: nat :: BitOf(a, k) <==> BitOf(b, k)
    ensures a == b
    decreases a + b
  {
    if a != 0 || b != 0 {
      assert BitOf(a, 0) <==> BitOf(b, 0);
      forall k: nat ensures BitOf(a / 2, k) <==> BitOf(b / 2, k) {
        assert BitOf(a, k + 1) == BitOf(a / 2, k) && BitOf(b, k + 1) == BitOf(b / 2, k);
      }
      SameBits(a / 2, b / 2);
    }
  }
}
