/**
  Integer facts shared by the other modules.  Remainders, shifts and bit masks are
  defined by recursion, so that everything proved about them is linear arithmetic.
 */
module Arith {

  // ---------------------------------------------------------------------
  // Remainders
  // ---------------------------------------------------------------------

  function Mod(x: nat, m: nat): (r: nat)
    requires m > 0
    ensures r < m
  {
    if x < m then x else Mod(x - m, m)
  }

  lemma ModShift(x: nat, m: nat)
    requires m > 0
    ensures Mod(x + m, m) == Mod(x, m)
  {
  }

  /** Two numbers with the same remainder that are less than m apart are equal. */
  lemma {:induction false} ModClose(p: nat, q: nat, m: nat)
    requires m > 0 && Mod(p, m) == Mod(q, m)
    requires p < q + m && q < p + m
    ensures p == q
    decreases p
  {
    if p >= m && q >= m { ModClose(p - m, q - m, m); }
  }

  lemma {:induction false} ModAdd(a: nat, n: nat, m: nat)
    requires a < m
    ensures Mod(a + n, m) == if a + Mod(n, m) < m then a + Mod(n, m) else a + Mod(n, m) - m
    decreases n
  {
    if n >= m {
      ModAdd(a, n - m, m);
      ModShift(a + (n - m), m);
    }
  }

  lemma {:induction false} ModStep(x: nat, m: nat)
    requires m > 0
    ensures Mod(x + 1, m) == if Mod(x, m) + 1 == m then 0 else Mod(x, m) + 1
  {
    if x >= m { ModStep(x - m, m); }
  }

  // ---------------------------------------------------------------------
  // Bits
  // ---------------------------------------------------------------------

  function Shl(x: nat, k: nat): nat { if k == 0 then x else 2 * Shl(x, k - 1) }

  function Shr(x: nat, k: nat): nat { if k == 0 then x else Shr(x / 2, k - 1) }

  function Pow2(k: nat): (r: nat)
    ensures r >= 1
  {
    if k == 0 then 1 else 2 * Pow2(k - 1)
  }

  /** The word with k one bits. */
  function Ones(k: nat): (r: nat)
    ensures r == Pow2(k) - 1
  {
    if k == 0 then 0 else 2 * Ones(k - 1) + 1
  }

  /** The low k bits of x: truncation to k bits. */
  function Low(x: nat, k: nat): nat { if k == 0 then 0 else 2 * Low(x / 2, k - 1) + x % 2 }

  function BitAnd(a: nat, b: nat): nat {
    if a == 0 || b == 0 then 0
    else 2 * BitAnd(a / 2, b / 2) + (if a % 2 == 1 && b % 2 == 1 then 1 else 0)
  }

  function BitOr(a: nat, b: nat): nat {
    if a == 0 then b else if b == 0 then a
    else 2 * BitOr(a / 2, b / 2) + (if a % 2 == 1 || b % 2 == 1 then 1 else 0)
  }

  lemma {:induction false} LowZero(k: nat)
    ensures Low(0, k) == 0
  {
    if k > 0 { LowZero(k - 1); }
  }

  /** Masking keeps the low bits. */
  lemma {:induction false} AndOnes(x: nat, k: nat)
    ensures BitAnd(x, Ones(k)) == Low(x, k)
  {
    if k > 0 {
      AndOnes(x / 2, k - 1);
      LowZero(k - 1);
      assert Ones(k) / 2 == Ones(k - 1) && Ones(k) % 2 == 1;
    }
  }

  lemma {:induction false} LowSmall(x: nat, k: nat)
    requires x <= Ones(k)
    ensures Low(x, k) == x && Shr(x, k) == 0
  {
    if k > 0 { LowSmall(x / 2, k - 1); }
  }

  /** One past the largest k-bit word wraps to zero. */
  lemma {:induction false} LowWraps(k: nat)
    ensures Low(Ones(k) + 1, k) == 0
  {
    if k > 0 {
      LowWraps(k - 1);
      assert (Ones(k) + 1) / 2 == Ones(k - 1) + 1;
    }
  }

  lemma {:induction false} ShlZero(k: nat)
    ensures Shl(0, k) == 0
  {
    if k > 0 { ShlZero(k - 1); }
  }

  /** Or-ing into cleared low bits is addition. */
  lemma {:induction false} OrLow(a: nat, b: nat, k: nat)
    requires b <= Ones(k)
    ensures BitOr(Shl(a, k), b) == Shl(a, k) + b
  {
    if k > 0 {
      OrLow(a, b / 2, k - 1);
      assert Shl(a, k) / 2 == Shl(a, k - 1) && Shl(a, k) % 2 == 0;
    }
  }

  /** A word put together from two parts comes apart again. */
  lemma {:induction false} Unsplit(a: nat, b: nat, k: nat)
    requires b <= Ones(k)
    ensures Shr(Shl(a, k) + b, k) == a && Low(Shl(a, k) + b, k) == b
  {
    if k > 0 {
      Unsplit(a, b / 2, k - 1);
      var x := Shl(a, k) + b;
      assert x / 2 == Shl(a, k - 1) + b / 2 && x % 2 == b % 2;
    }
  }

  lemma {:induction false} Split(x: nat, k: nat)
    ensures x == Shl(Shr(x, k), k) + Low(x, k) && Low(x, k) <= Ones(k)
  {
    if k > 0 { Split(x / 2, k - 1); }
  }

  lemma {:induction false} ShrOnes(w: nat, k: nat)
    requires k <= w
    ensures Shr(Ones(w), k) == Ones(w - k)
  {
    if k > 0 {
      ShrOnes(w - 1, k - 1);
      assert Ones(w) / 2 == Ones(w - 1);
    }
  }

  lemma {:induction false} ShrMono(x: nat, y: nat, k: nat)
    requires x <= y
    ensures Shr(x, k) <= Shr(y, k)
  {
    if k > 0 { ShrMono(x / 2, y / 2, k - 1); }
  }

  /** A value that fits the upper bits, shifted up, leaves room for the lower ones. */
  lemma {:induction false} ShlFits(a: nat, k: nat, w: nat)
    requires k <= w && a <= Ones(w - k)
    ensures Shl(a, k) + Ones(k) <= Ones(w)
    decreases k
  {
    if k > 0 { ShlFits(a, k - 1, w - 1); }
  }

  lemma {:induction false} ShlGrows(a: nat, k: nat)
    ensures Shl(a, k) >= a
  {
    if k > 0 { ShlGrows(a, k - 1); }
  }

  lemma {:induction false} OnesMono(j: nat, k: nat)
    requires j <= k
    ensures Ones(j) <= Ones(k)
  {
    if j < k { OnesMono(j, k - 1); }
  }

  lemma {:induction false} ModDouble(x: nat, m: nat)
    requires m > 0
    ensures Mod(x, 2 * m) == 2 * Mod(x / 2, m) + x % 2
  {
    if x >= 2 * m {
      ModDouble(x - 2 * m, m);
      assert (x - 2 * m) / 2 == x / 2 - m;
    }
  }

  /** `x & (2^k - 1)` is the remainder of x by 2^k. */
  lemma {:induction false} MaskIsMod(x: nat, k: nat)
    ensures BitAnd(x, Pow2(k) - 1) == Low(x, k) == Mod(x, Pow2(k))
  {
    AndOnes(x, k);
    LowIsMod(x, k);
  }

  lemma {:induction false} LowIsMod(x: nat, k: nat)
    ensures Low(x, k) == Mod(x, Pow2(k))
  {
    if k > 0 {
      LowIsMod(x / 2, k - 1);
      ModDouble(x, Pow2(k - 1));
    } else {
      ModOne(x);
    }
  }

  lemma {:induction false} ModOne(x: nat)
    ensures Mod(x, 1) == 0
  {
    if x > 0 { ModOne(x - 1); }
  }
}
