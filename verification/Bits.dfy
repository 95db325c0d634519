/** Powers of two and the unsigned bit operations the C code uses, stated on
    natural numbers. Everything recurses one bit at a time. */
module Bits {

  /** 2 to the n. */
  function Pow2(n: nat): (p: nat)
    ensures p > 0
  {
    if n == 0 then 1 else 2 * Pow2(n - 1)
  }

  lemma {:induction false} Pow2Add(m: nat, n: nat)
    ensures Pow2(m + n) == Pow2(m) * Pow2(n)
  {
    if m == 0 {
    } else {
      Pow2Add(m - 1, n);
      assert Pow2(m + n) == 2 * Pow2(m - 1 + n);
      assert 2 * (Pow2(m - 1) * Pow2(n)) == (2 * Pow2(m - 1)) * Pow2(n);
    }
  }

  lemma {:induction false} Pow2Monotone(m: nat, n: nat)
    requires m <= n
    ensures Pow2(m) <= Pow2(n)
  {
    if m == 0 {
    } else {
      Pow2Monotone(m - 1, n - 1);
    }
  }

  lemma Pow2Values()
    ensures Pow2(0) == 1 && Pow2(8) == 0x100 && Pow2(16) == 0x1_0000 && Pow2(24) == 0x100_0000
    ensures Pow2(32) == 0x1_0000_0000
  {
    assert Pow2(8) == 0x100;
    assert Pow2(16) == 0x1_0000;
    assert Pow2(24) == 0x100_0000;
    assert Pow2(32) == 0x1_0000_0000;
  }

  lemma Pow2Wide()
    ensures Pow2(64) == 0x1_0000_0000_0000_0000
    ensures Pow2(128) == 0x1_0000_0000_0000_0000_0000_0000_0000_0000
  {
    Pow2Values();
    Pow2Add(32, 32);
    Pow2Add(64, 64);
  }

  /** `a & ~(2^k - 1)`: a with its k low bits cleared. */
  function ClearLow(a: nat, k: nat): (r: nat)
    ensures r <= a
    decreases k
  {
    if k == 0 then a else 2 * ClearLow(a / 2, k - 1)
  }

  /** The k low bits of a are zero. */
  predicate Aligned(a: nat, k: nat)
    decreases k
  {
    k == 0 || (a % 2 == 0 && Aligned(a / 2, k - 1))
  }

  lemma {:induction false} ClearLowAligned(a: nat, k: nat)
    ensures Aligned(ClearLow(a, k), k)
    decreases k
  {
    if k == 0 {
    } else {
      ClearLowAligned(a / 2, k - 1);
    }
  }

  /** Masking gives an aligned base exactly on the block of 2^k addresses at that base. */
  lemma {:induction false} ClearLowIsBlock(a: nat, k: nat, base: nat)
    requires Aligned(base, k)
    ensures ClearLow(a, k) == base <==> base <= a < base + Pow2(k)
    decreases k
  {
    if k == 0 {
    } else {
      ClearLowIsBlock(a / 2, k - 1, base / 2);
    }
  }

  /** Two aligned blocks are nested or disjoint. */
  lemma {:induction false} BlocksNestOrDisjoint(a: nat, j: nat, b: nat, k: nat)
    requires j <= k && Aligned(a, j) && Aligned(b, k)
    ensures (b <= a && a + Pow2(j) <= b + Pow2(k)) || a + Pow2(j) <= b || b + Pow2(k) <= a
    decreases j
  {
    if j == 0 {
    } else {
      BlocksNestOrDisjoint(a / 2, j - 1, b / 2, k - 1);
    }
  }

  /** An aligned block that starts below an aligned limit ends at or below it. */
  lemma {:induction false} BlockFits(a: nat, k: nat, n: nat)
    requires Aligned(a, k) && k <= n && a < Pow2(n)
    ensures a + Pow2(k) <= Pow2(n)
    decreases k
  {
    if k == 0 {
    } else {
      BlockFits(a / 2, k - 1, n - 1);
    }
  }

  /** The k low bits of a. */
  function Low(a: nat, k: nat): (r: nat)
    ensures r < Pow2(k)
    decreases k
  {
    if k == 0 then 0 else 2 * Low(a / 2, k - 1) + a % 2
  }

  lemma {:induction false} LowAndClear(a: nat, k: nat)
    ensures ClearLow(a, k) + Low(a, k) == a
    decreases k
  {
    if k == 0 {
    } else {
      LowAndClear(a / 2, k - 1);
    }
  }

  function Shl(a: nat, n: nat): (r: nat)
    decreases n
  {
    if n == 0 then a else 2 * Shl(a, n - 1)
  }

  function Shr(a: nat, n: nat): (r: nat)
    decreases n
  {
    if n == 0 then a else Shr(a / 2, n - 1)
  }

  lemma {:induction false} ShlBound(a: nat, k: nat, n: nat)
    requires a < Pow2(k)
    ensures Shl(a, n) < Pow2(k + n)
    decreases n
  {
    if n == 0 {
    } else {
      ShlBound(a, k, n - 1);
    }
  }

  lemma {:induction false} ShrBound(a: nat, k: nat, n: nat)
    requires a < Pow2(k + n)
    ensures Shr(a, n) < Pow2(k)
    decreases n
  {
    if n == 0 {
    } else {
      ShrBound(a / 2, k, n - 1);
    }
  }

  lemma {:induction false} ShlPull(a: nat, n: nat)
    ensures Shl(2 * a, n) == 2 * Shl(a, n)
    decreases n
  {
    if n == 0 {
    } else {
      ShlPull(a, n - 1);
    }
  }

  lemma {:induction false} ShrOfShl(a: nat, n: nat)
    ensures Shr(Shl(a, n), n) == a
    decreases n
  {
    if n == 0 {
    } else {
      ShrOfShl(a, n - 1);
    }
  }

  /** Low bits of an aligned base plus an offset below the alignment are the offset. */
  lemma {:induction false} LowOfSum(base: nat, x: nat, k: nat)
    requires Aligned(base, k) && x < Pow2(k)
    ensures Low(base + x, k) == x && ClearLow(base + x, k) == base
    decreases k
  {
    if k == 0 {
    } else {
      LowOfSum(base / 2, x / 2, k - 1);
      assert (base + x) / 2 == base / 2 + x / 2;
      assert (base + x) % 2 == x % 2;
    }
  }

  lemma {:induction false} AlignedIsMultiple(a: nat, k: nat) returns (q: nat)
    requires Aligned(a, k)
    ensures a == q * Pow2(k)
    decreases k
  {
    if k == 0 {
      q := a;
    } else {
      q := AlignedIsMultiple(a / 2, k - 1);
      assert 2 * (q * Pow2(k - 1)) == q * (2 * Pow2(k - 1));
    }
  }

  /** Reading back the two parts of c followed by k bits. */
  lemma {:induction false} JoinParts(c: nat, r: nat, k: nat)
    requires r < Pow2(k)
    ensures Shr(Shl(c, k) + r, k) == c && Low(Shl(c, k) + r, k) == r
    decreases k
  {
    if k == 0 {
    } else {
      var n := Shl(c, k) + r;
      assert n / 2 == Shl(c, k - 1) + r / 2 && n % 2 == r % 2;
      JoinParts(c, r / 2, k - 1);
    }
  }

  lemma {:induction false} PartsJoin(n: nat, k: nat)
    ensures n == Shl(Shr(n, k), k) + Low(n, k)
    decreases k
  {
    if k == 0 {
    } else {
      PartsJoin(n / 2, k - 1);
      assert Shl(Shr(n, k), k) == 2 * Shl(Shr(n / 2, k - 1), k - 1);
    }
  }

  lemma {:induction false} ShrOfLow(b: nat, m: nat, n: nat)
    ensures Shr(Low(b, m + n), n) == Low(Shr(b, n), m)
    ensures Low(Low(b, m + n), n) == Low(b, n)
    decreases n
  {
    if n == 0 {
    } else {
      ShrOfLow(b / 2, m, n - 1);
      assert Low(b, m + n) / 2 == Low(b / 2, m + n - 1);
    }
  }

  lemma {:induction false} JoinBound(c: nat, j: nat, r: nat, k: nat)
    requires c < Pow2(j) && r < Pow2(k)
    ensures Shl(c, k) + r < Pow2(j + k)
    decreases k
  {
    if k == 0 {
    } else {
      JoinBound(c, j, r / 2, k - 1);
    }
  }

  lemma {:induction false} ShrShr(a: nat, m: nat, n: nat)
    ensures Shr(Shr(a, m), n) == Shr(a, m + n)
    decreases m
  {
    if m == 0 {
    } else {
      ShrShr(a / 2, m - 1, n);
    }
  }

  lemma JoinIff(n: nat, c: nat, r: nat, k: nat)
    requires r < Pow2(k)
    ensures n == Shl(c, k) + r <==> (c == Shr(n, k) && r == Low(n, k))
  {
    JoinParts(c, r, k);
    PartsJoin(n, k);
  }

  /** Quotient and remainder are unique. */
  lemma DivModIs(n: nat, d: nat, q: nat, r: nat)
    requires d > 0 && n == d * q + r && r < d
    ensures n / d == q && n % d == r
  {
    var x := n / d - q;
    assert n == d * (n / d) + n % d;
    assert d * (n / d) - d * q == d * x;
    if x >= 1 {
      TimesAtLeast(d, x);
    } else if x <= -1 {
      TimesAtLeast(d, -x);
    }
  }

  lemma TimesAtLeast(d: nat, x: nat)
    requires x >= 1
    ensures d * x >= d && d * (0 - x) <= 0 - d
  {
    assert d * x == d * (x - 1) + d;
  }
}
