/** What the steps of the per-thread table keep, for any number of threads. */
module ThreadTableSafety {
  import opened Bits
  import opened ThreadTable

  /** Array sizes strictly decrease along the list. */
  ghost predicate SizesGrow(s: State) {
    forall p, q :: 0 <= p < q < |s.chain| ==> s.chain[p].lg < s.chain[q].lg
  }

  /** A claimed slot belongs to a thread whose count is at most half the array's size. */
  predicate SlotInv(s: State, p: nat, i: nat)
    requires p < |s.chain| && i < |s.chain[p].slots|
  {
    var key := s.chain[p].slots[i].key;
    key != 0 ==>
      && key - 1 < |s.threads|
      && var th := s.threads[key - 1];
      th.rank >= 1 && HasRoom(s.chain[p].lg, th.rank) && th.at.In? && p <= th.at.p
  }

  ghost predicate SlotsInv(s: State) {
    forall p, i :: 0 <= p < |s.chain| && 0 <= i < |s.chain[p].slots| ==> SlotInv(s, p, i)
  }

  /** A key is at most once in an array. */
  ghost predicate NoDuplicates(a: Arr) {
    forall i, j :: 0 <= i < j < |a.slots| && a.slots[i].key != 0 ==> a.slots[i].key != a.slots[j].key
  }

  ghost predicate RanksDistinct(s: State) {
    && (forall t :: 0 <= t < |s.threads| ==> s.threads[t].rank <= s.count)
    && (forall t, u :: 0 <= t < u < |s.threads| && s.threads[t].rank > 0 ==> s.threads[t].rank != s.threads[u].rank)
  }

  /** The probe sequence for hash `h` has no empty slot among its first `d`. */
  ghost predicate PathFull(s: State, p: nat, h: nat, d: nat)
    requires Shaped(s) && p < |s.chain|
  {
    forall e :: 0 <= e < d ==> At(s, p, h, e).key != 0
  }

  /** The thread's key was last claimed in array `p`, `d` slots along its probe sequence. */
  ghost predicate Present(s: State, t: nat, p: nat, d: nat)
    requires Shaped(s) && t < |s.threads|
  {
    var th := s.threads[t];
    && p < |s.chain| && d < Size(s.chain[p])
    && th.at == In(p, d) && th.rank >= 1
    && At(s, p, th.h, d).key == t + 1
    && PathFull(s, p, th.h, d)
    && (th.pc.Store? || At(s, p, th.h, d).ptr == th.own)
  }

  /** Outside an insertion: the key is in the table, or the thread has no element yet. */
  predicate AtRest(th: Thread) {
    th.at.In? || th.rank == 0
  }

  ghost predicate PcInv(s: State, t: nat)
    requires Shaped(s) && t < |s.threads|
  {
    var th := s.threads[t];
    match th.pc
    case Idle => AtRest(th)
    case LoadRoot => AtRest(th)
    case Probe(p, d) =>
      && AtRest(th)
      && p < |s.chain| && d <= Size(s.chain[p]) && PathFull(s, p, th.h, d)
      && (th.at.In? ==> th.at.p < p || (th.at.p == p && d <= th.at.d))
    case Matched(p, ptr) => th.at.In? && th.at.p == p && ptr == th.own
    case Create => th.rank == 0
    case Count(found) => th.rank == 0 && found == th.own
    case LoadSize(found) => th.rank >= 1 && th.at.Nowhere? && found == th.own
    case Publish(found, lg, r) =>
      && th.rank >= 1 && th.at.Nowhere? && found == th.own
      && lg >= 2 && HasRoom(lg, th.rank) && (lg == 2 || !HasRoom(lg - 1, th.rank))
      && -1 <= r < |s.chain| && (r >= 0 ==> s.chain[r].lg < lg)
    case LoadTop(found) =>
      && th.rank >= 1 && found == th.own
      && s.chain != [] && HasRoom(s.chain[|s.chain| - 1].lg, th.rank)
      && (th.at.In? ==> th.at.p < |s.chain| - 1)
    case Place(found, p, d) => Placing(s, t, found, p, d)
    case Claim(found, p, d) => Placing(s, t, found, p, d)
    case Store(found, p, d) => th.at == In(p, d) && found == th.own
    case Done(ptr) => th.at.In? && ptr == th.own
  }

  /** The key is not yet in array `p`, which has room for it. */
  ghost predicate Placing(s: State, t: nat, found: Ptr, p: nat, d: nat)
    requires Shaped(s) && t < |s.threads|
  {
    var th := s.threads[t];
    && th.rank >= 1 && found == th.own
    && p < |s.chain| && HasRoom(s.chain[p].lg, th.rank)
    && d <= Size(s.chain[p]) && PathFull(s, p, th.h, d)
    && (th.at.In? ==> th.at.p < p)
  }

  ghost predicate ThreadInv(s: State, t: nat)
    requires Shaped(s) && t < |s.threads|
  {
    && (s.threads[t].at.In? ==> Present(s, t, s.threads[t].at.p, s.threads[t].at.d))
    && PcInv(s, t)
  }

  ghost predicate TableInv(s: State) {
    && Shaped(s) && SizesGrow(s) && SlotsInv(s) && RanksDistinct(s)
    && forall p :: 0 <= p < |s.chain| ==> NoDuplicates(s.chain[p])
  }

  ghost predicate Inv(s: State) {
    TableInv(s) && forall t :: 0 <= t < |s.threads| ==> ThreadInv(s, t)
  }

  // ---------------------------------------------------------------- density

  ghost function Occupied(a: Arr): set<nat> {
    set i: nat | i < |a.slots| && a.slots[i].key != 0
  }

  /** Distinct numbers from 1 to `n`, one for each element: there are at most `n` elements. */
  lemma {:induction false} Pigeonhole(m: map<nat, nat>, n: nat)
    requires forall i :: i in m ==> 1 <= m[i] <= n
    requires forall i, j :: i in m && j in m && m[i] == m[j] ==> i == j
    ensures |m| <= n
  {
    if n > 0 {
      if i :| i in m && m[i] == n {
        var m' := m - {i};
        assert m == m'[i := n];
        Pigeonhole(m', n - 1);
      } else {
        Pigeonhole(m, n - 1);
      }
    } else {
      assert m.Keys == {};
    }
  }

  /** The count drawn by the thread whose key is in slot `i`. */
  function RankAt(s: State, a: Arr, i: nat): nat {
    if i < |a.slots| && 0 < a.slots[i].key <= |s.threads| then s.threads[a.slots[i].key - 1].rank else 0
  }

  /** No array is ever more than half full. */
  lemma AtMostHalfFull(s: State, p: nat)
    requires TableInv(s) && p < |s.chain|
    ensures 2 * |Occupied(s.chain[p])| <= Size(s.chain[p])
  {
    var a := s.chain[p];
    var m := map i: nat | i in Occupied(a) :: RankAt(s, a, i);
    var half := Size(a) / 2;
    forall i | i in m
      ensures 1 <= m[i] <= half
    {
      assert SlotInv(s, p, i);
    }
    forall i, j | i in m && j in m && m[i] == m[j]
      ensures i == j
    {
      assert SlotInv(s, p, i) && SlotInv(s, p, j);
    }
    Pigeonhole(m, half);
    assert m.Keys == Occupied(a);
  }

  lemma IndexInjective(h: nat, lg: nat, d: nat, e: nat)
    requires d < e < Pow2(lg)
    ensures Index(h, lg, d) != Index(h, lg, e)
  {
    ModApart(Start(h, lg) + d, Start(h, lg) + e, Pow2(lg));
  }

  ghost function Visited(h: nat, lg: nat, d: nat): set<nat> {
    if d == 0 then {} else Visited(h, lg, d - 1) + {Index(h, lg, d - 1)}
  }

  lemma {:induction false} VisitedSize(h: nat, lg: nat, d: nat)
    requires d <= Pow2(lg)
    ensures |Visited(h, lg, d)| == d
    ensures forall i :: i in Visited(h, lg, d) ==> exists e :: 0 <= e < d && i == Index(h, lg, e)
  {
    if d > 0 {
      VisitedSize(h, lg, d - 1);
      if e :| 0 <= e < d - 1 && Index(h, lg, d - 1) == Index(h, lg, e) {
        IndexInjective(h, lg, e, d - 1);
      }
    }
  }

  /** A probe meets an empty slot or its key within half the array: every probe loop ends,
      however other threads claim slots meanwhile. */
  lemma ProbeBounded(s: State, p: nat, h: nat, d: nat)
    requires TableInv(s) && p < |s.chain| && d <= Size(s.chain[p]) && PathFull(s, p, h, d)
    ensures 2 * d <= Size(s.chain[p])
  {
    var a := s.chain[p];
    VisitedSize(h, a.lg, d);
    forall i | i in Visited(h, a.lg, d)
      ensures i in Occupied(a)
    {
      var e :| 0 <= e < d && i == Index(h, a.lg, e);
      assert At(s, p, h, e).key != 0;
    }
    SubsetSize(Visited(h, a.lg, d), Occupied(a));
    AtMostHalfFull(s, p);
  }

  lemma {:induction false} SubsetSize(a: set<nat>, b: set<nat>)
    requires a <= b
    ensures |a| <= |b|
  {
    assert b == a + (b - a);
  }

  // ---------------------------------------------------------------- other threads

  /** A step of `t` only adds arrays and claims, and writes only the pointer of its own slots. */
  predicate ArrayGuarantee(a: Arr, a': Arr, t: nat) {
    && a'.lg == a.lg && |a'.slots| == |a.slots|
    && forall i :: 0 <= i < |a.slots| ==>
      && (a.slots[i].key != 0 ==> a'.slots[i].key == a.slots[i].key)
      && (a.slots[i].key != 0 && a.slots[i].key != t + 1 ==> a'.slots[i] == a.slots[i])
  }

  ghost predicate Guarantee(s: State, s': State, t: nat) {
    && |s.chain| <= |s'.chain| && |s'.threads| == |s.threads|
    && (forall u :: 0 <= u < |s.threads| && u != t ==> s'.threads[u] == s.threads[u])
    && (forall p :: 0 <= p < |s.chain| ==> ArrayGuarantee(s.chain[p], s'.chain[p], t))
  }

  lemma PathStays(s: State, s': State, t: nat, p: nat, h: nat, d: nat)
    requires Shaped(s) && Shaped(s') && Guarantee(s, s', t) && p < |s.chain| && PathFull(s, p, h, d)
    ensures PathFull(s', p, h, d)
  {
    forall e | 0 <= e < d
      ensures At(s', p, h, e).key != 0
    {
      assert ArrayGuarantee(s.chain[p], s'.chain[p], t);
      assert At(s, p, h, e).key != 0;
    }
  }

  lemma PresentStays(s: State, s': State, t: nat, u: nat)
    requires Shaped(s) && Shaped(s') && Guarantee(s, s', t) && u < |s.threads| && u != t
    requires s.threads[u].at.In? && Present(s, u, s.threads[u].at.p, s.threads[u].at.d)
    ensures Present(s', u, s.threads[u].at.p, s.threads[u].at.d)
  {
    var th := s.threads[u];
    PathStays(s, s', t, th.at.p, th.h, th.at.d);
    assert ArrayGuarantee(s.chain[th.at.p], s'.chain[th.at.p], t);
  }

  lemma OthersKeepThreadInv(s: State, s': State, t: nat, u: nat)
    requires Inv(s) && Shaped(s') && SizesGrow(s') && Guarantee(s, s', t) && u < |s.threads| && u != t
    ensures ThreadInv(s', u)
  {
    var th := s.threads[u];
    assert ThreadInv(s, u);
    if th.at.In? {
      PresentStays(s, s', t, u);
    }
    assert forall p :: 0 <= p < |s.chain| ==> ArrayGuarantee(s.chain[p], s'.chain[p], t);
    if th.pc.Probe? || th.pc.Place? || th.pc.Claim? {
      PathStays(s, s', t, th.pc.p, th.h, th.pc.d);
    }
    if th.pc.LoadTop? && |s.chain| < |s'.chain| {
      Pow2Monotone(s'.chain[|s.chain| - 1].lg, s'.chain[|s'.chain| - 1].lg);
    }
  }

  lemma StepKeepsInv(s: State, s': State, t: nat)
    requires Inv(s) && t < |s.threads| && Guarantee(s, s', t) && TableInv(s') && ThreadInv(s', t)
    ensures Inv(s')
  {
    forall u | 0 <= u < |s'.threads|
      ensures ThreadInv(s', u)
    {
      if u != t {
        OthersKeepThreadInv(s, s', t, u);
      }
    }
  }

  // ---------------------------------------------------------------- steps that touch no array

  lemma LocalStep(s: State, s': State, t: nat)
    requires Inv(s) && t < |s.threads| && |s'.threads| == |s.threads|
    requires s' == s.(threads := s.threads[t := s'.threads[t]], created := s'.created)
    requires s'.threads[t].rank == s.threads[t].rank && s'.threads[t].at == s.threads[t].at
    requires ThreadInv(s', t)
    ensures Inv(s')
  {
    forall p, i | 0 <= p < |s'.chain| && 0 <= i < |s'.chain[p].slots|
      ensures SlotInv(s', p, i)
    {
      assert SlotInv(s, p, i);
    }
    StepKeepsInv(s, s', t);
  }

  /** What a thread's own step leaves of its claim. */
  lemma OwnPresent(s: State, s': State, t: nat)
    requires Inv(s) && t < |s.threads| == |s'.threads| && s'.chain == s.chain
    requires var th, th' := s.threads[t], s'.threads[t];
      th'.h == th.h && th'.at == th.at && th'.rank == th.rank && th'.own == th.own && (th.pc.Store? ==> th'.pc.Store?)
    ensures s.threads[t].at.In? ==> Present(s', t, s.threads[t].at.p, s.threads[t].at.d)
  {
    assert ThreadInv(s, t);
    if s.threads[t].at.In? {
      var p, d, h := s.threads[t].at.p, s.threads[t].at.d, s.threads[t].h;
      assert forall e :: At(s', p, h, e) == At(s, p, h, e);
    }
  }

  lemma ProbeKeepsInv(s: State, t: nat, s': State)
    requires Inv(s) && t < |s.threads| && ProbeSlot(s, t, s')
    ensures Inv(s')
  {
    assert ThreadInv(s, t);
    var th := s.threads[t];
    var p, d := th.pc.p, th.pc.d;
    ProbeBounded(s, p, th.h, d);
    var slot := At(s, p, th.h, d);
    OwnPresent(s, s', t);
    if slot.key == t + 1 {
      OwnKeyIsAtHome(s, t, p, d);
    }
    assert forall q, e :: 0 <= q < |s.chain| ==> At(s', q, th.h, e) == At(s, q, th.h, e);
    LocalStep(s, s', t);
  }

  /** The slot a thread's probe finds its key in is the one it claimed last. */
  lemma OwnKeyIsAtHome(s: State, t: nat, p: nat, d: nat)
    requires Inv(s) && t < |s.threads| && s.threads[t].pc == Probe(p, d)
    requires p < |s.chain| && d < Size(s.chain[p]) && At(s, p, s.threads[t].h, d).key == t + 1
    ensures s.threads[t].at == In(p, d)
  {
    var th := s.threads[t];
    assert ThreadInv(s, t);
    var i := Index(th.h, s.chain[p].lg, d);
    assert SlotInv(s, p, i);
    var j := Index(th.h, s.chain[p].lg, th.at.d);
    assert NoDuplicates(s.chain[p]);
    assert i == j;
    if d < th.at.d {
      IndexInjective(th.h, s.chain[p].lg, d, th.at.d);
    }
  }

  lemma ControlKeepsInv(s: State, t: nat, s': State)
    requires Inv(s) && t < |s.threads|
    requires Begin(s, t, s') || FirstArray(s, t, s') || CompareRoot(s, t, s') || CreateLocal(s, t, s')
             || CheckSize(s, t, s') || TopArray(s, t, s') || End(s, t, s')
    ensures Inv(s')
  {
    assert ThreadInv(s, t);
    var th := s.threads[t];
    if !th.pc.Create? {
      OwnPresent(s, s', t);
    }
    if th.pc.Matched? {
      var p := th.at.p;
      assert SlotInv(s, p, Index(th.h, s.chain[p].lg, th.at.d));
      Pow2Monotone(s.chain[p].lg, s.chain[|s.chain| - 1].lg);
    }
    LocalStep(s, s', t);
  }

  lemma TestEmptyKeepsInv(s: State, t: nat, s': State)
    requires Inv(s) && t < |s.threads| && TestEmpty(s, t, s')
    ensures Inv(s')
  {
    assert ThreadInv(s, t);
    var th := s.threads[t];
    var p, d := th.pc.p, th.pc.d;
    ProbeBounded(s, p, th.h, d);
    OwnPresent(s, s', t);
    assert forall e :: At(s', p, th.h, e) == At(s, p, th.h, e);
    LocalStep(s, s', t);
  }

  lemma DrawKeepsInv(s: State, t: nat, s': State)
    requires Inv(s) && t < |s.threads| && DrawCount(s, t, s')
    ensures Inv(s')
  {
    assert ThreadInv(s, t);
    forall p, i | 0 <= p < |s'.chain| && 0 <= i < |s'.chain[p].slots|
      ensures SlotInv(s', p, i)
    {
      assert SlotInv(s, p, i);
    }
    StepKeepsInv(s, s', t);
  }

  lemma FreshIsEmpty(lg: nat)
    ensures |Fresh(lg).slots| == Pow2(lg) && forall i :: 0 <= i < Pow2(lg) ==> Fresh(lg).slots[i].key == 0
  {
  }

  lemma PublishTable(s: State, t: nat, s': State)
    requires Inv(s) && t < |s.threads| && PublishArray(s, t, s') && s.threads[t].pc.r == |s.chain| - 1
    ensures TableInv(s')
  {
    assert ThreadInv(s, t);
    FreshIsEmpty(s.threads[t].pc.s);
    forall p, i | 0 <= p < |s'.chain| && 0 <= i < |s'.chain[p].slots|
      ensures SlotInv(s', p, i)
    {
      if p < |s.chain| {
        assert SlotInv(s, p, i);
      }
    }
  }

  lemma PublishKeepsInv(s: State, t: nat, s': State)
    requires Inv(s) && t < |s.threads| && PublishArray(s, t, s') && s.threads[t].pc.r == |s.chain| - 1
    ensures Inv(s')
  {
    PublishTable(s, t, s');
    assert ThreadInv(s', t) by { assert ThreadInv(s, t); }
    StepKeepsInv(s, s', t);
  }

  lemma PublishRetryKeepsInv(s: State, t: nat, s': State)
    requires Inv(s) && t < |s.threads| && PublishArray(s, t, s') && s.threads[t].pc.r != |s.chain| - 1
    ensures Inv(s')
  {
    assert ThreadInv(s, t);
    if s.chain[|s.chain| - 1].lg >= s.threads[t].pc.s {
      Pow2Monotone(s.threads[t].pc.s, s.chain[|s.chain| - 1].lg);
    }
    LocalStep(s, s', t);
  }

  lemma ClaimTable(s: State, t: nat, s': State)
    requires Inv(s) && t < |s.threads| && ClaimSlot(s, t, s')
    requires At(s, s.threads[t].pc.p, s.threads[t].h, s.threads[t].pc.d).key == 0
    ensures TableInv(s')
  {
    assert ThreadInv(s, t);
    var p := s.threads[t].pc.p;
    var i := Index(s.threads[t].h, s.chain[p].lg, s.threads[t].pc.d);
    forall q, j | 0 <= q < |s'.chain| && 0 <= j < |s'.chain[q].slots|
      ensures SlotInv(s', q, j)
    {
      assert SlotInv(s, q, j);
    }
    forall j, k | 0 <= j < k < |s'.chain[p].slots| && s'.chain[p].slots[j].key != 0
      ensures s'.chain[p].slots[j].key != s'.chain[p].slots[k].key
    {
      assert SlotInv(s, p, j) && SlotInv(s, p, k);
      assert NoDuplicates(s.chain[p]);
    }
  }

  lemma ClaimKeepsInv(s: State, t: nat, s': State)
    requires Inv(s) && t < |s.threads| && ClaimSlot(s, t, s')
    ensures Inv(s')
  {
    assert ThreadInv(s, t);
    var th := s.threads[t];
    ProbeBounded(s, th.pc.p, th.h, th.pc.d);
    if At(s, th.pc.p, th.h, th.pc.d).key == 0 {
      ClaimTable(s, t, s');
      assert Guarantee(s, s', t);
      PathStays(s, s', t, th.pc.p, th.h, th.pc.d);
      StepKeepsInv(s, s', t);
    } else {
      OwnPresent(s, s', t);
      assert forall q, e :: 0 <= q < |s.chain| ==> At(s', q, th.h, e) == At(s, q, th.h, e);
      LocalStep(s, s', t);
    }
  }

  lemma StoreKeepsInv(s: State, t: nat, s': State)
    requires Inv(s) && t < |s.threads| && StorePtr(s, t, s')
    ensures Inv(s')
  {
    assert ThreadInv(s, t);
    var th := s.threads[t];
    forall q, j | 0 <= q < |s'.chain| && 0 <= j < |s'.chain[q].slots|
      ensures SlotInv(s', q, j)
    {
      assert SlotInv(s, q, j);
    }
    assert Guarantee(s, s', t);
    PathStays(s, s', t, th.pc.p, th.h, th.pc.d);
    StepKeepsInv(s, s', t);
  }

  lemma InitHasInv(s: State)
    requires Init(s)
    ensures Inv(s)
  {
  }

  lemma NextKeepsInv(s: State, t: nat, s': State)
    requires Inv(s) && Next(s, t, s')
    ensures Inv(s')
  {
    match s.threads[t].pc
    case Probe(_, _) => ProbeKeepsInv(s, t, s');
    case Count(_) => DrawKeepsInv(s, t, s');
    case Publish(_, _, r) =>
      if r == |s.chain| - 1 { PublishKeepsInv(s, t, s'); } else { PublishRetryKeepsInv(s, t, s'); }
    case Place(_, _, _) => TestEmptyKeepsInv(s, t, s');
    case Claim(_, _, _) => ClaimKeepsInv(s, t, s');
    case Store(_, _, _) => StoreKeepsInv(s, t, s');
    case _ => ControlKeepsInv(s, t, s');
  }

  // ---------------------------------------------------------------- what a caller sees

  /** The thread has been given its element. */
  predicate HasElement(th: Thread) {
    th.rank > 0 || th.pc.Count?
  }

  ghost predicate Run(ss: seq<State>, ts: seq<nat>) {
    && |ss| == |ts| + 1 && Init(ss[0])
    && forall i :: 0 <= i < |ts| ==> Next(ss[i], ts[i], ss[i + 1])
  }

  lemma {:induction false} RunInv(ss: seq<State>, ts: seq<nat>, j: nat)
    requires Run(ss, ts) && j < |ss|
    ensures Inv(ss[j]) && |ss[j].threads| == |ss[0].threads|
  {
    if j == 0 {
      InitHasInv(ss[0]);
    } else {
      RunInv(ss, ts, j - 1);
      NextKeepsInv(ss[j - 1], ts[j - 1], ss[j]);
    }
  }

  /** Once a thread has its element, no step takes it away, replaces it or creates another. */
  lemma ElementStays(s: State, t: nat, s': State, u: nat)
    requires Inv(s) && Next(s, t, s') && u < |s.threads| == |s'.threads| && HasElement(s.threads[u])
    ensures HasElement(s'.threads[u]) && s'.threads[u].own == s.threads[u].own
    ensures t == u ==> !CreateLocal(s, t, s')
  {
    assert ThreadInv(s, u);
  }

  lemma {:induction false} ElementForever(ss: seq<State>, ts: seq<nat>, u: nat, i: nat, j: nat)
    requires Run(ss, ts) && i <= j < |ss| && u < |ss[0].threads|
    requires u < |ss[i].threads| && HasElement(ss[i].threads[u])
    ensures u < |ss[j].threads| && HasElement(ss[j].threads[u]) && ss[j].threads[u].own == ss[i].threads[u].own
  {
    RunInv(ss, ts, j);
    if i < j {
      ElementForever(ss, ts, u, i, j - 1);
      RunInv(ss, ts, j - 1);
      ElementStays(ss[j - 1], ts[j - 1], ss[j], u);
    }
  }

  /** `create_local` runs at most once for each thread. */
  lemma CreatedOnce(ss: seq<State>, ts: seq<nat>, t: nat, i: nat, j: nat)
    requires Run(ss, ts) && i < j < |ts| && ts[i] == t && ts[j] == t
    requires t < |ss[i].threads| && CreateLocal(ss[i], t, ss[i + 1])
    requires t < |ss[j].threads|
    ensures !CreateLocal(ss[j], t, ss[j + 1])
  {
    RunInv(ss, ts, i);
    RunInv(ss, ts, i + 1);
    RunInv(ss, ts, j);
    RunInv(ss, ts, j + 1);
    ElementForever(ss, ts, t, i + 1, j);
    ElementStays(ss[j], t, ss[j + 1], t);
  }

  /** Every lookup of a thread returns the same pointer, across all root replacements and
      migrations of its key to newer arrays. */
  lemma SamePointer(ss: seq<State>, ts: seq<nat>, t: nat, i: nat, j: nat)
    requires Run(ss, ts) && i <= j < |ss| && t < |ss[0].threads|
    requires t < |ss[i].threads| && ss[i].threads[t].pc.Done? && t < |ss[j].threads| && ss[j].threads[t].pc.Done?
    ensures ss[i].threads[t].pc.ptr == ss[j].threads[t].pc.ptr
  {
    RunInv(ss, ts, i);
    RunInv(ss, ts, j);
    assert ThreadInv(ss[i], t) && ThreadInv(ss[j], t);
    ElementForever(ss, ts, t, i, j);
  }

  // ---------------------------------------------------------------- every call ends

  datatype Measure = Measure(phase: nat, outer: int, inner: int)

  predicate Less(m: Measure, n: Measure) {
    || m.phase < n.phase
    || (m.phase == n.phase && 0 <= m.outer < n.outer)
    || (m.phase == n.phase && m.outer == n.outer && 0 <= m.inner < n.inner)
  }

  /** What is left of a call: arrays and slots to probe, sizes to overtake, slots to try. */
  function Remaining(s: State, th: Thread): Measure {
    match th.pc
    case Idle => Measure(0, 0, 0)
    case LoadRoot => Measure(12, 0, 0)
    case Probe(p, d) => Measure(11, p, if p < |s.chain| then Size(s.chain[p]) - d else 0)
    case Matched(_, _) => Measure(10, 0, 0)
    case Create => Measure(9, 0, 0)
    case Count(_) => Measure(8, 0, 0)
    case LoadSize(_) => Measure(7, 0, 0)
    case Publish(_, lg, r) => Measure(6, if 0 <= r < |s.chain| then lg - s.chain[r].lg else lg, 0)
    case LoadTop(_) => Measure(5, 0, 0)
    case Place(_, p, d) => Measure(4, if p < |s.chain| then Size(s.chain[p]) - d else 0, 1)
    case Claim(_, p, d) => Measure(4, if p < |s.chain| then Size(s.chain[p]) - d else 0, 0)
    case Store(_, _, _) => Measure(3, 0, 0)
    case Done(_) => Measure(2, 0, 0)
  }

  lemma ProbingAdvances(s: State, t: nat, s': State)
    requires Inv(s) && t < |s.threads|
    requires ProbeSlot(s, t, s') || TestEmpty(s, t, s') || ClaimSlot(s, t, s')
    ensures |s'.threads| == |s.threads| && Less(Remaining(s', s'.threads[t]), Remaining(s, s.threads[t]))
  {
    assert ThreadInv(s, t);
    var th := s.threads[t];
    ProbeBounded(s, th.pc.p, th.h, th.pc.d);
  }

  lemma PublishAdvances(s: State, t: nat, s': State)
    requires Inv(s) && t < |s.threads| && PublishArray(s, t, s')
    ensures |s'.threads| == |s.threads| && Less(Remaining(s', s'.threads[t]), Remaining(s, s.threads[t]))
  {
    assert ThreadInv(s, t);
    var r := s.threads[t].pc.r;
    if 0 <= r < |s.chain| - 1 {
      assert s.chain[r].lg < s.chain[|s.chain| - 1].lg;
    }
  }

  /** Each step of a thread in a call brings the call nearer to its end. */
  lemma CallAdvances(s: State, t: nat, s': State)
    requires Inv(s) && Next(s, t, s') && !s.threads[t].pc.Idle?
    ensures |s'.threads| == |s.threads| && Less(Remaining(s', s'.threads[t]), Remaining(s, s.threads[t]))
  {
    var pc := s.threads[t].pc;
    if pc.Probe? || pc.Place? || pc.Claim? {
      ProbingAdvances(s, t, s');
    } else if pc.Publish? {
      PublishAdvances(s, t, s');
    } else {
      PhaseAdvances(s, t, s');
    }
  }

  /** The steps outside the loops. */
  lemma PhaseAdvances(s: State, t: nat, s': State)
    requires Inv(s) && Next(s, t, s')
    requires var pc := s.threads[t].pc; !pc.Idle? && !pc.Probe? && !pc.Place? && !pc.Claim? && !pc.Publish?
    ensures |s'.threads| == |s.threads| && s'.threads[t].pc != s.threads[t].pc
    ensures Less(Remaining(s', s'.threads[t]), Remaining(s, s.threads[t]))
  {
    assert ThreadInv(s, t);
  }

  /** No step of another thread sets a call back: `table_lookup` is wait-free. */
  lemma OthersDoNotDelay(s: State, t: nat, s': State, u: nat)
    requires Inv(s) && Next(s, t, s') && u < |s.threads| && u != t
    ensures |s'.threads| == |s.threads| && s'.threads[u] == s.threads[u]
    ensures Remaining(s', s'.threads[u]) == Remaining(s, s.threads[u])
  {
    assert ThreadInv(s, u);
  }

  /** A call can always take its next step. */
  lemma NeverStuck(s: State, t: nat)
    requires Inv(s) && t < |s.threads|
    ensures exists s' :: Next(s, t, s')
  {
    assert ThreadInv(s, t);
    var th := s.threads[t];
    var pc := th.pc;
    var s' :=
      if pc.Idle? then With(s, t, LoadRoot)
      else if pc.LoadRoot? then With(s, t, if s.chain == [] then Create else Probe(|s.chain| - 1, 0))
      else if pc.Probe? then
        var slot := At(s, pc.p, th.h, pc.d);
        With(s, t, if slot.key == 0 then (if pc.p == 0 then Create else Probe(pc.p - 1, 0))
                   else if slot.key == t + 1 then Matched(pc.p, slot.ptr) else Probe(pc.p, pc.d + 1))
      else if pc.Matched? then
        s.(threads := s.threads[t := th.(hit := true,
          pc := if pc.p == |s.chain| - 1 then Done(pc.ptr) else LoadTop(pc.ptr))])
      else if pc.Create? then
        s.(created := s.created + 1,
          threads := s.threads[t := th.(hit := false, own := s.created, pc := Count(s.created))])
      else if pc.Count? then
        s.(count := s.count + 1, threads := s.threads[t := th.(rank := s.count + 1, pc := LoadSize(pc.found))])
      else if pc.LoadSize? then
        With(s, t, if s.chain == [] then Publish(pc.found, GrownLg(2, th.rank), -1)
                   else var r := s.chain[|s.chain| - 1];
                     if HasRoom(r.lg, th.rank) then LoadTop(pc.found)
                     else Publish(pc.found, GrownLg(r.lg, th.rank), |s.chain| - 1))
      else if pc.Publish? then
        if pc.r == |s.chain| - 1 then With(s, t, LoadTop(pc.found)).(chain := s.chain + [Fresh(pc.s)])
        else With(s, t, if s.chain[|s.chain| - 1].lg >= pc.s then LoadTop(pc.found)
                        else Publish(pc.found, pc.s, |s.chain| - 1))
      else if pc.LoadTop? then With(s, t, Place(pc.found, |s.chain| - 1, 0))
      else if pc.Place? then
        With(s, t, if At(s, pc.p, th.h, pc.d).key == 0 then Claim(pc.found, pc.p, pc.d)
                   else Place(pc.found, pc.p, pc.d + 1))
      else if pc.Claim? then
        var a := s.chain[pc.p];
        var i := Index(th.h, a.lg, pc.d);
        if a.slots[i].key == 0 then
          s.(chain := s.chain[pc.p := a.(slots := a.slots[i := a.slots[i].(key := t + 1)])],
             threads := s.threads[t := th.(at := In(pc.p, pc.d), pc := Store(pc.found, pc.p, pc.d))])
        else With(s, t, Place(pc.found, pc.p, pc.d + 1))
      else if pc.Store? then
        var a := s.chain[pc.p];
        var i := Index(th.h, a.lg, pc.d);
        With(s, t, Done(pc.found)).(
          chain := s.chain[pc.p := a.(slots := a.slots[i := a.slots[i].(ptr := pc.found)])])
      else With(s, t, Idle);
    assert Next(s, t, s');
  }

  // ---------------------------------------------------------------- sizes along the list

  /** Step `k` of the run publishes array `p` of the table. */
  ghost predicate Publishes(ss: seq<State>, ts: seq<nat>, k: nat, p: nat) {
    && k < |ts| && k + 1 < |ss| && ts[k] < |ss[k].threads|
    && PublishArray(ss[k], ts[k], ss[k + 1]) && ss[k].threads[ts[k]].pc.r == |ss[k].chain| - 1
    && p == |ss[k].chain| && |ss[k + 1].chain| == p + 1
  }

  /** Arrays stay, with their sizes, and only publishing adds one. */
  lemma ChainStep(s: State, t: nat, s': State)
    requires Inv(s) && Next(s, t, s')
    ensures |s.chain| <= |s'.chain| && forall p :: 0 <= p < |s.chain| ==> s'.chain[p].lg == s.chain[p].lg
    ensures |s'.chain| > |s.chain| ==>
      PublishArray(s, t, s') && s.threads[t].pc.r == |s.chain| - 1 && |s'.chain| == |s.chain| + 1
  {
    assert ThreadInv(s, t);
  }

  /** An array that is published has the least size with room for the count of its thread, whatever
      arrays were published since the thread chose that size. */
  lemma PublishedSize(s: State, t: nat, s': State)
    requires Inv(s) && t < |s.threads| && PublishArray(s, t, s')
    requires s.threads[t].pc.r == |s.chain| - 1 && s.chain != []
    ensures |s'.chain| == |s.chain| + 1
    ensures var root := s.chain[|s.chain| - 1];
      s'.chain[|s.chain|].lg == root.lg + 1 <==> s.threads[t].rank <= Size(root)
  {
    assert ThreadInv(s, t);
    var root, lg, c := s.chain[|s.chain| - 1].lg, s.threads[t].pc.s, s.threads[t].rank;
    assert Pow2(root + 1) == 2 * Pow2(root);
    if lg > root + 1 {
      Pow2Monotone(root + 1, lg - 1);
    }
  }

  /** The comment on `my_root` says that each array in the list is half the size of its predecessor.
      An array of the list is twice as large as the one it points to exactly if the thread that
      published it had drawn a count that is at most the size of that one. */
  lemma {:induction false} SizeDoublesIff(ss: seq<State>, ts: seq<nat>, j: nat, p: nat) returns (k: nat)
    requires Run(ss, ts) && j < |ss| && 1 <= p < |ss[j].chain|
    ensures k < j && Publishes(ss, ts, k, p)
    ensures ss[j].chain[p].lg == ss[j].chain[p - 1].lg + 1 <==>
              ss[k].threads[ts[k]].rank <= Size(ss[j].chain[p - 1])
  {
    var i := j - 1;
    RunInv(ss, ts, i);
    ChainStep(ss[i], ts[i], ss[j]);
    if p < |ss[i].chain| {
      k := SizeDoublesIff(ss, ts, i, p);
    } else {
      k := i;
      PublishedSize(ss[i], ts[i], ss[j]);
    }
  }

  // ---------------------------------------------------------------- a run that skips sizes

  /** `n` of the threads have drawn their counts, and nobody has published an array. */
  ghost predicate Drawn(s: State, n: nat) {
    && n <= |s.threads| && s.count == n && s.created == n && s.chain == []
    && (forall t :: 0 <= t < n ==> s.threads[t].pc == LoadSize(t) && s.threads[t].rank == t + 1)
    && (forall t :: n <= t < |s.threads| ==>
         s.threads[t].pc.Idle? && s.threads[t].rank == 0 && s.threads[t].at.Nowhere?)
  }

  lemma RunStep(ss: seq<State>, ts: seq<nat>, t: nat, s': State)
    requires Run(ss, ts) && Next(ss[|ss| - 1], t, s')
    ensures Run(ss + [s'], ts + [t])
  {
    var ss', ts' := ss + [s'], ts + [t];
    forall i | 0 <= i < |ts'|
      ensures Next(ss'[i], ts'[i], ss'[i + 1])
    {
      if i < |ts| {
        assert Next(ss[i], ts[i], ss[i + 1]);
      }
    }
  }

  /** The next thread finds no table, creates its element and draws its count. */
  lemma DrawNext(ss: seq<State>, ts: seq<nat>, n: nat) returns (ss': seq<State>, ts': seq<nat>)
    requires Run(ss, ts) && Drawn(ss[|ss| - 1], n) && n < |ss[|ss| - 1].threads|
    ensures Run(ss', ts') && ss'[0] == ss[0] && Drawn(ss'[|ss'| - 1], n + 1)
    ensures |ss'[|ss'| - 1].threads| == |ss[|ss| - 1].threads|
  {
    var s := ss[|ss| - 1];
    var s1 := With(s, n, LoadRoot);
    RunStep(ss, ts, n, s1);
    var s2 := With(s1, n, Create);
    RunStep(ss + [s1], ts + [n], n, s2);
    var s3 := s2.(created := n + 1, threads := s2.threads[n := s2.threads[n].(hit := false, own := n, pc := Count(n))]);
    RunStep(ss + [s1] + [s2], ts + [n] + [n], n, s3);
    var s4 := s3.(count := n + 1, threads := s3.threads[n := s3.threads[n].(rank := n + 1, pc := LoadSize(n))]);
    RunStep(ss + [s1] + [s2] + [s3], ts + [n] + [n] + [n], n, s4);
    ss', ts' := ss + [s1] + [s2] + [s3] + [s4], ts + [n] + [n] + [n] + [n];
  }

  lemma {:induction false} DrawAll(s: State, n: nat) returns (ss: seq<State>, ts: seq<nat>)
    requires Init(s) && n <= |s.threads|
    ensures Run(ss, ts) && ss[0] == s && Drawn(ss[|ss| - 1], n) && |ss[|ss| - 1].threads| == |s.threads|
  {
    if n == 0 {
      ss, ts := [s], [];
    } else {
      ss, ts := DrawAll(s, n - 1);
      ss, ts := DrawNext(ss, ts, n - 1);
    }
  }

  /** The first thread publishes an array of 4 slots. */
  lemma PublishFirst(ss: seq<State>, ts: seq<nat>, n: nat) returns (ss': seq<State>, ts': seq<nat>)
    requires Run(ss, ts) && Drawn(ss[|ss| - 1], n) && n == |ss[|ss| - 1].threads| >= 3
    ensures Run(ss', ts') && ss'[0] == ss[0] && ss'[|ss'| - 1].chain == [Fresh(2)]
    ensures var threads := ss'[|ss'| - 1].threads;
      |threads| == n && threads[n - 1] == ss[|ss| - 1].threads[n - 1]
  {
    var s := ss[|ss| - 1];
    assert Pow2(2) == 2 * Pow2(1) == 4 * Pow2(0) == 4;
    var s1 := With(s, 0, Publish(0, 2, -1));
    RunStep(ss, ts, 0, s1);
    var s2 := With(s1, 0, LoadTop(0)).(chain := [Fresh(2)]);
    assert s1.chain + [Fresh(2)] == [Fresh(2)];
    RunStep(ss + [s1], ts + [0], 0, s2);
    ss', ts' := ss + [s1] + [s2], ts + [0] + [0];
  }

  /** A thread that drew count `n` before publishes one with room for that many. */
  lemma PublishLast(ss: seq<State>, ts: seq<nat>, n: nat) returns (ss': seq<State>, ts': seq<nat>)
    requires Run(ss, ts) && n == |ss[|ss| - 1].threads| >= 3 && ss[|ss| - 1].chain == [Fresh(2)]
    requires var th := ss[|ss| - 1].threads[n - 1]; th.pc == LoadSize(n - 1) && th.rank == n
    ensures Run(ss', ts') && ss'[0] == ss[0]
    ensures ss'[|ss'| - 1].chain == [Fresh(2), Fresh(GrownLg(2, n))]
  {
    var s := ss[|ss| - 1];
    assert Pow2(2) == 2 * Pow2(1) == 4 * Pow2(0) == 4;
    FreshIsEmpty(2);
    var lg := GrownLg(2, n);
    var s1 := With(s, n - 1, Publish(n - 1, lg, 0));
    RunStep(ss, ts, n - 1, s1);
    FreshIsEmpty(lg);
    var s2 := With(s1, n - 1, LoadTop(n - 1)).(chain := [Fresh(2), Fresh(lg)]);
    assert s1.chain + [Fresh(lg)] == [Fresh(2), Fresh(lg)];
    RunStep(ss + [s1], ts + [n - 1], n - 1, s2);
    ss', ts' := ss + [s1] + [s2], ts + [n - 1] + [n - 1];
  }

  /** As many sizes are skipped as there are threads for: the first one publishes an array of 4
      slots, and the last one the next, by the count that it has drawn before. */
  lemma SkippingRun(s: State) returns (ss: seq<State>, ts: seq<nat>)
    requires Init(s) && |s.threads| >= 3
    ensures Run(ss, ts) && ss[0] == s
    ensures ss[|ss| - 1].chain == [Fresh(2), Fresh(GrownLg(2, |s.threads|))]
  {
    ss, ts := DrawAll(s, |s.threads|);
    ss, ts := PublishFirst(ss, ts, |s.threads|);
    ss, ts := PublishLast(ss, ts, |s.threads|);
  }

  /** The comment does not hold: five threads can make a table of 16 slots that points to one of 4. */
  lemma SizesMaySkip() returns (ss: seq<State>, ts: seq<nat>)
    ensures Run(ss, ts) && |ss[0].threads| == 5
    ensures var chain := ss[|ss| - 1].chain; |chain| == 2 && chain[0].lg == 2 && chain[1].lg == 4
  {
    var s := State(0, [], seq(5, _ => Thread(0, Idle, false, 0, 0, Nowhere)), 0);
    ss, ts := SkippingRun(s);
    assert Pow2(4) == 2 * Pow2(3) == 4 * Pow2(2) == 8 * Pow2(1) == 16;
    assert HasRoom(4, 5) && !HasRoom(3, 5) && !HasRoom(2, 5);
  }
}
