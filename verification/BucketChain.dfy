/** The ancestry of hash buckets.

    Bucket `b` is split off its parent, the bucket whose index is `b` without its top bit.
    The buckets that may hold a hash code `h` form a chain: `h` under every mask. */
module BucketChain {
  import opened Bits

  /** Width of the smallest mask that has bucket `b`; the two lowest buckets are embedded. */
  function Depth(b: nat): (d: nat)
    ensures d > 0
  {
    if b < 2 then 1 else Log2(b) + 1
  }

  /** The bucket that `b` is split from: its index without the topmost bit. */
  function Parent(b: nat): (p: nat)
    requires b >= 2
    ensures p < b
  {
    Low(b, Log2(b))
  }

  /** Bucket `b` is `h` under some mask. */
  predicate OnChain(h: nat, b: nat) {
    Low(h, Depth(b)) == b
  }

  lemma DepthBounds(b: nat)
    ensures b < Pow2(Depth(b))
  {
    assert Pow2(1) == 2 * Pow2(0) == 2;
  }

  /** Every masked hash code is on its chain, no deeper than the mask. */
  lemma LowOnChain(h: nat, k: nat)
    requires k >= 1
    ensures OnChain(h, Low(h, k)) && Depth(Low(h, k)) <= k
  {
    var b := Low(h, k);
    var d := Depth(b);
    DepthBounds(b);
    if d > k {
      Pow2Monotone(k, d - 1);
      assert false;
    }
    LowLow(h, k, d);
    LowSmall(b, d);
  }

  lemma ParentShallower(b: nat)
    requires b >= 2
    ensures Depth(Parent(b)) < Depth(b)
  {
    var p := Parent(b);
    if p >= 2 && Log2(p) >= Log2(b) {
      Pow2Monotone(Log2(b), Log2(p));
      assert false;
    }
  }

  lemma ParentOnChain(h: nat, b: nat)
    requires b >= 2 && OnChain(h, b)
    ensures OnChain(h, Parent(b)) && Parent(b) == Low(h, Log2(b))
  {
    ParentShallower(b);
    LowLow(h, Depth(b), Log2(b));
    LowOnChain(h, Log2(b));
  }

  /** No bucket of a chain lies strictly between a bucket and its parent. */
  lemma ParentAdjacent(h: nat, x: nat, b: nat)
    requires OnChain(h, x) && OnChain(h, b) && Depth(x) < Depth(b)
    ensures b >= 2 && OnChain(h, Parent(b)) && Depth(x) <= Depth(Parent(b)) < Depth(b)
    ensures x == Parent(b) || Depth(x) < Depth(Parent(b))
  {
    ParentShallower(b);
    ParentOnChain(h, b);
    var p := Parent(b);
    LowLow(h, Log2(b), Depth(x));
    assert x == Low(p, Depth(x));
    if Depth(p) <= Depth(x) {
      DepthBounds(p);
      Pow2Monotone(Depth(p), Depth(x));
      LowSmall(p, Depth(x));
    }
  }

  /** `check_rehashing_collision`: the first bucket of the chain of `h` beyond mask width `k`. */
  function NextChild(h: nat, k: nat, m: nat): (c: nat)
    requires 1 <= k <= m && Low(h, k) != Low(h, m)
    decreases m - k
  {
    if Low(h, k + 1) != Low(h, k) then Low(h, k + 1) else NextChild(h, k + 1, m)
  }

  lemma {:induction false} NextChildIsChild(h: nat, k: nat, m: nat)
    requires 1 <= k <= m && Low(h, k) != Low(h, m)
    ensures var c := NextChild(h, k, m);
            c >= 2 && OnChain(h, c) && Parent(c) == Low(h, k) && c < Pow2(m)
    decreases m - k
  {
    LowStep(h, k);
    if Low(h, k + 1) != Low(h, k) {
      var c := Low(h, k + 1);
      assert Pow2(1) == 2 * Pow2(0) == 2;
      Pow2Monotone(1, k);
      Log2Unique(c, k);
      LowLowStep(h, k);
      Pow2Monotone(k + 1, m);
    } else {
      NextChildIsChild(h, k + 1, m);
    }
  }

  /** Everything deeper than `x` on the chain is at least as deep as the child of `x` on it. */
  lemma {:induction false} DeeperThanChild(h: nat, x: nat, c: nat, b: nat)
    requires c >= 2 && OnChain(h, c) && Parent(c) == x && OnChain(h, x)
    requires OnChain(h, b) && Depth(x) < Depth(b)
    ensures Depth(c) <= Depth(b)
  {
    if Depth(b) < Depth(c) {
      ParentAdjacent(h, b, c);
    }
  }

  /** When two masks agree on `h`, its chain has nothing between them. */
  lemma NothingBetween(h: nat, k: nat, m: nat, b: nat)
    requires 1 <= k <= m && Low(h, k) == Low(h, m)
    requires OnChain(h, b) && b < Pow2(m)
    ensures Depth(b) <= Depth(Low(h, k))
  {
    LowOnChain(h, k);
    LowOnChain(h, m);
    if b >= 2 && Log2(b) + 1 > m {
      Pow2Monotone(m, Log2(b));
      assert false;
    }
    LowLow(h, m, Depth(b));
    var x := Low(h, m);
    assert b == Low(x, Depth(b));
    if Depth(x) <= Depth(b) {
      DepthBounds(x);
      Pow2Monotone(Depth(x), Depth(b));
      LowSmall(x, Depth(b));
    }
  }

  /** A chain has one bucket of each depth. */
  lemma ChainUnique(h: nat, a: nat, b: nat)
    requires OnChain(h, a) && OnChain(h, b) && Depth(a) == Depth(b)
    ensures a == b
  {
  }
}
