/** How the table of the concurrent hash map grows. */
module HashMapGrowth {
  import opened Options
  import opened Bits
  import opened HashMapProtocol
  import opened HashMapSafety
  import opened HashMapLinearizability

  /** Only `enable_segment` adds buckets, and only the claim of a segment says who is to do so. */
  lemma GrowthStep(s: State, t: Tid, l: Label, s': State)
    requires Inv(s) && Next(s, t, l, s')
    ensures |s'.threads| == |s.threads|
    ensures if EnableSegment(s, t, s') then s.threads[t].pc == Grow(s.level, s.threads[t].pc.result) else Steady(s, s')
    ensures s'.growing == s.growing || EnableSegment(s, t, s') || (s.growing.None? && s'.growing == Some(t))
  {
    assert PcInv(s, t) by { assert ThreadInv(s, t); }
    if InternalStep(s, t, l, s') {
      if CallStep(s, t, s') {
        CallGrowth(s, t, s');
      } else if WriterStep(s, t, s') {
        WriterSteady(s, t, s');
      } else {
        RehashSteady(s, t, s');
      }
    } else if CheckStep(s, t, l, s') {
    } else {
      NodeSteady(s, t, l, s');
    }
  }

  predicate Steady(s: State, s': State) {
    s'.level == s.level && |s'.buckets| == |s.buckets|
  }

  lemma CallGrowth(s: State, t: Tid, s': State)
    requires t < |s.threads| && CallStep(s, t, s')
    ensures |s'.threads| == |s.threads|
    ensures if EnableSegment(s, t, s') then s.threads[t].pc.Grow? else Steady(s, s')
    ensures s'.growing == s.growing || EnableSegment(s, t, s') || (s.growing.None? && s'.growing == Some(t))
  {
  }

  lemma WriterSteady(s: State, t: Tid, s': State)
    requires t < |s.threads| && WriterStep(s, t, s')
    ensures |s'.threads| == |s.threads| && Steady(s, s') && s'.growing == s.growing && !s.threads[t].pc.Grow?
  {
  }

  lemma RehashSteady(s: State, t: Tid, s': State)
    requires t < |s.threads| && (AcquireStep(s, t, s') || RehashStep(s, t, s'))
    ensures |s'.threads| == |s.threads| && Steady(s, s') && s'.growing == s.growing && !s.threads[t].pc.Grow?
  {
  }

  lemma NodeSteady(s: State, t: Tid, l: Label, s': State)
    requires t < |s.threads| && NodeStep(s, t, l, s')
    ensures |s'.threads| == |s.threads| && Steady(s, s') && s'.growing == s.growing && !s.threads[t].pc.Grow?
  {
  }

  // ---------------------------------------------------------------- the numbers of buckets

  /** The embedded buckets, or those with at least the first block. */
  predicate Sized(s: State) {
    s.level == 1 || s.level >= 8
  }

  lemma SizedStep(s: State, t: Tid, l: Label, s': State)
    requires Inv(s) && Next(s, t, l, s') && Sized(s)
    ensures Sized(s')
  {
    GrowthStep(s, t, l, s');
  }

  lemma {:induction false} SizedInRun(ss: seq<State>, es: seq<Event>, j: nat)
    requires Run(ss, es) && j < |ss|
    ensures Inv(ss[j]) && Sized(ss[j])
  {
    RunInv(ss, es, j);
    if j > 0 {
      SizedInRun(ss, es, j - 1);
      SizedStep(ss[j - 1], es[j - 1].t, es[j - 1].l, ss[j]);
    }
  }

  /** In any run a step keeps the number of buckets, or it raises it from 2 to 256, or from 256 or more
      to twice as many. */
  lemma GrowsBySegments(ss: seq<State>, es: seq<Event>, j: nat)
    requires Run(ss, es) && j < |es|
    ensures var n, n' := |ss[j].buckets|, |ss[j + 1].buckets|;
            n' == n || (n == 2 && n' == 256) || (n >= 256 && n' == 2 * n)
  {
    var s, s', t := ss[j], ss[j + 1], es[j].t;
    SizedInRun(ss, es, j);
    SizedInRun(ss, es, j + 1);
    GrowthStep(s, t, es[j].l, s');
    if EnableSegment(s, t, s') {
      assert PcInv(s, t) by { assert ThreadInv(s, t); }
      assert |s.buckets| == Pow2(s.level) && |s'.buckets| == Pow2(s'.level);
      EnabledSize(s.level);
    }
  }

  lemma EnabledSize(k: nat)
    requires k == 1 || k >= 8
    ensures Pow2(EnabledLevel(k)) == if k == 1 then 256 else 2 * Pow2(k)
    ensures k == 1 ==> Pow2(k) == 2
    ensures k >= 8 ==> Pow2(k) >= 256
  {
    assert Pow2(2) == 4 && Pow2(4) == 16 && Pow2(6) == 64 && Pow2(8) == 256;
    if k >= 8 {
      Pow2Monotone(8, k);
    }
  }

  // ---------------------------------------------------------------- who grows the table

  /** The table is larger than mask `m`, or thread `t` is about to make it so. */
  predicate Larger(s: State, t: Tid, m: nat)
    requires t < |s.threads|
  {
    || s.level > m
    || (s.threads[t].pc.Returning? && s.threads[t].pc.grow == m && m > 0)
    || (s.threads[t].pc.Grow? && s.threads[t].pc.grow == m)
  }

  lemma OwnCallLarger(s: State, t: Tid, s': State, m: nat)
    requires t < |s.threads| && CallStep(s, t, s') && Larger(s, t, m)
    requires s.threads[t].pc.Returning? || s.threads[t].pc.Grow?
    requires s.threads[t].pc.Grow? ==> s.threads[t].pc.grow == s.level
    ensures |s'.threads| == |s.threads| && Larger(s', t, m)
  {
  }

  lemma LargerStep(s: State, u: Tid, l: Label, s': State, t: Tid, m: nat)
    requires Inv(s) && Inv(s') && Next(s, u, l, s') && t < |s.threads| && Larger(s, t, m)
    ensures t < |s'.threads| && Larger(s', t, m)
  {
    GrowthStep(s, u, l, s');
    PhaseStep(s, u, l, s');
    assert PcInv(s, t) by { assert ThreadInv(s, t); }
    if s.level <= m && u == t {
      if InternalStep(s, t, l, s') && CallStep(s, t, s') {
        OwnCallLarger(s, t, s', m);
      } else {
        NotThere(s, t, l, s');
      }
    }
  }

  /** Leaving the lock and growing the table are steps of the call as a whole. */
  lemma NotThere(s: State, t: Tid, l: Label, s': State)
    requires Next(s, t, l, s') && !CallStep(s, t, s')
    ensures !s.threads[t].pc.Returning? && !s.threads[t].pc.Grow?
  {
  }

  lemma {:induction false} LargerInRun(ss: seq<State>, es: seq<Event>, t: Tid, m: nat, i: nat, j: nat)
    requires Run(ss, es) && i <= j < |ss| && t < |ss[i].threads| && Larger(ss[i], t, m)
    ensures t < |ss[j].threads| && Larger(ss[j], t, m)
  {
    if i < j {
      var k := j - 1;
      LargerInRun(ss, es, t, m, i, k);
      RunInv(ss, es, k);
      RunInv(ss, es, j);
      assert Next(ss[k], es[k].t, es[k].l, ss[k + 1]);
      LargerStep(ss[k], es[k].t, es[k].l, ss[j], t, m);
    }
  }

  /** An insertion that finds the load factor reached for its mask returns when the table has more
      buckets than that mask, unless it found that more were being added. */
  lemma LoadedTableGrows(ss: seq<State>, es: seq<Event>, k: nat, t: Tid, j: nat)
    requires Run(ss, es) && k < |es| && k < j < |ss| && t < |ss[k].threads| && t < |ss[j].threads|
    requires ClaimSegment(ss[k], t, true, ss[k + 1]) && ss[j].threads[t].pc.Done?
    ensures |ss[j].buckets| == Pow2(ss[j].level)
    ensures ss[j].level > ss[k].threads[t].m || ss[k].growing.Some?
  {
    RunInv(ss, es, k);
    assert ThreadInv(ss[k], t);
    RunInv(ss, es, j);
    if ss[k].growing.None? {
      LargerInRun(ss, es, t, ss[k].threads[t].m, k + 1, j);
    }
  }
}
