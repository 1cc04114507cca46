/** Powers of two, masks and segment indices.

    A mask that the source writes `(1<<k)-1` is represented by its width `k`,
    so that `h & mask` is `Low(h, k)`. */
module Bits {

  function Pow2(k: nat): (p: nat)
    ensures p > 0
  {
    if k == 0 then 1 else 2 * Pow2(k - 1)
  }

  /** Index of the topmost set bit (`__TBB_Log2`). */
  function Log2(n: nat): (k: nat)
    requires n > 0
    ensures Pow2(k) <= n < Pow2(k + 1)
  {
    if n == 1 then 0 else 1 + Log2(n / 2)
  }

  /** `h & ((1<<k)-1)`. */
  function Low(h: nat, k: nat): (r: nat)
    ensures r < Pow2(k)
  {
    h % Pow2(k)
  }

  /** `h >> k`. */
  function Shr(h: nat, k: nat): nat {
    if k == 0 then h else Shr(h / 2, k - 1)
  }

  lemma {:induction false} Pow2Monotone(i: nat, j: nat)
    requires i <= j
    ensures Pow2(i) <= Pow2(j)
  {
    if i < j {
      Pow2Monotone(i, j - 1);
    }
  }

  lemma {:induction false} Pow2StrictlyMonotone(i: nat, j: nat)
    requires i < j
    ensures 2 * Pow2(i) <= Pow2(j)
  {
    Pow2Monotone(i + 1, j);
  }

  /** The topmost bit is the only index whose powers bracket the number. */
  lemma Log2Unique(n: nat, k: nat)
    requires Pow2(k) <= n < Pow2(k + 1)
    ensures n > 0 && Log2(n) == k
  {
    var l := Log2(n);
    if l < k {
      Pow2StrictlyMonotone(l, k);
    } else if k < l {
      Pow2StrictlyMonotone(k, l);
    }
  }

  /** Widening a mask by one bit keeps the low part or adds exactly that bit. */
  lemma LowStep(h: nat, k: nat)
    ensures Low(h, k + 1) == Low(h, k) || Low(h, k + 1) == Low(h, k) + Pow2(k)
  {
    var d := Pow2(k + 1);
    DivMod(h, d);
    ModHalf(h, Pow2(k), d, h / d, h % d);
  }

  lemma DivMod(n: nat, d: nat)
    requires d > 0
    ensures n == d * (n / d) + n % d && n % d < d && n / d >= 0
  {
  }

  lemma ModHalf(h: nat, p: nat, d: nat, q: nat, r: nat)
    requires p > 0 && d == 2 * p && h == d * q + r && r < d
    ensures h % p == if r < p then r else r - p
  {
    MulShift(p, q);
    if r < p {
      ModUnique(h, p, 2 * q, r);
    } else {
      ModUnique(h, p, 2 * q + 1, r - p);
    }
  }

  lemma MulShift(p: nat, q: nat)
    ensures 2 * p * q == p * (2 * q) && p * (2 * q + 1) == p * (2 * q) + p
  {
  }

  lemma {:induction false} MulAtLeast(d: nat, k: nat)
    requires k > 0
    ensures d * k >= d
  {
    if k > 1 {
      MulAtLeast(d, k - 1);
      assert d * k == d * (k - 1) + d;
    }
  }

  /** Euclidean division has one quotient and one remainder. */
  lemma ModUnique(n: nat, d: nat, q: nat, r: nat)
    requires d > 0 && r < d && n == d * q + r
    ensures n % d == r && n / d == q
  {
    var q', r' := n / d, n % d;
    assert n == d * q' + r';
    if q < q' {
      assert d * q' == d * q + d * (q' - q);
      MulAtLeast(d, q' - q);
    } else if q > q' {
      assert d * q == d * q' + d * (q - q');
      MulAtLeast(d, q - q');
    }
  }

  /** Masking twice is masking with the smaller mask. */
  lemma {:induction false} LowLow(h: nat, i: nat, j: nat)
    requires j <= i
    ensures Low(Low(h, i), j) == Low(h, j)
    decreases i - j
  {
    if j == i {
      assert Low(h, i) < Pow2(i);
      ModUnique(Low(h, i), Pow2(i), 0, Low(h, i));
    } else {
      LowLow(h, i, j + 1);
      LowLowStep(Low(h, i), j);
      LowLowStep(h, j);
    }
  }

  lemma LowLowStep(h: nat, k: nat)
    ensures Low(Low(h, k + 1), k) == Low(h, k)
  {
    LowStep(h, k);
    var p, a := Pow2(k), Low(h, k);
    if Low(h, k + 1) == a {
      ModUnique(a, p, 0, a);
    } else {
      ModUnique(a + p, p, 1, a);
    }
  }

  lemma LowSmall(h: nat, k: nat)
    requires h < Pow2(k)
    ensures Low(h, k) == h
  {
    ModUnique(h, Pow2(k), 0, h);
  }

  /** Two numbers less than `n` apart have different remainders. */
  lemma ModApart(x: nat, y: nat, n: nat)
    requires x < y < x + n
    ensures x % n != y % n
  {
    var a, b := x / n, y / n;
    assert x == n * a + x % n && y == n * b + y % n;
    if a < b {
      assert n * b == n * a + n * (b - a);
      MulAtLeast(n, b - a);
    } else {
      assert n * a == n * b + n * (a - b);
    }
  }
}
