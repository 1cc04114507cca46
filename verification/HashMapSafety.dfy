/** The invariant of the hash map protocol and its preservation by every step. */
module HashMapSafety {
  import opened Options
  import opened Bits
  import opened BucketChain
  import opened HashMapProtocol

  /** The bucket locked through the program counter, and whether as writer. */
  function Held(pc: Pc): Option<(nat, bool)> {
    match pc
    case Recheck(b) => Some((b, true))
    case Scan(b, w) => Some((b, w))
    case Search(b, w) => Some((b, w))
    case MaskCheck(b, w, _) => Some((b, w))
    case FlagLoad(b, w, _, _) => Some((b, w))
    case Link(b) => Some((b, true))
    case Claim(b) => Some((b, true))
    case Unlink(b) => Some((b, true))
    case Returning(b, w, _, _) => Some((b, w))
    case _ => None
  }

  predicate HoldsW(th: Thread, b: nat) {
    b in th.stack || Held(th.pc) == Some((b, true))
  }

  predicate HoldsR(th: Thread, b: nat) {
    Held(th.pc) == Some((b, false))
  }

  predicate IsSettled(bs: seq<Bucket>, b: nat) {
    b < |bs| && bs[b].flag == Settled
  }

  /** No complete bucket lies below `x` on the chain of `h`. */
  ghost predicate NoDeeper(bs: seq<Bucket>, h: nat, x: nat) {
    forall b {:trigger OnChain(h, b)} :: 0 <= b < |bs| && OnChain(h, b) && Depth(x) < Depth(b) ==> bs[b].flag != Settled
  }

  // ---------------------------------------------------------------- the shared state

  /** Complete buckets are closed under parents. */
  ghost predicate ParentClosed(bs: seq<Bucket>) {
    && |bs| >= 2 && bs[0].flag == Settled && bs[1].flag == Settled
    && forall b {:trigger Parent(b)} :: 2 <= b < |bs| && bs[b].flag == Settled ==> bs[Parent(b)].flag == Settled
  }

  /** A node lives on the chain of its hash code, at or below the last complete bucket of it. */
  ghost predicate NodeAtHome(bs: seq<Bucket>, b: nat, n: Node)
    requires b < |bs|
  {
    bs[b].flag != RehashReq && OnChain(n.key.hash, b) && NoDeeper(bs, n.key.hash, b)
  }

  ghost predicate NodesAtHome(bs: seq<Bucket>) {
    forall b, n {:trigger NodeAtHome(bs, b, n)} :: 0 <= b < |bs| && n in bs[b].nodes ==> NodeAtHome(bs, b, n)
  }

  /** A bucket that is being filled has its parent write-locked by the splitting thread. */
  ghost predicate FillsUnderLock(bs: seq<Bucket>) {
    forall b {:trigger FillsAt(bs, b)} :: 0 <= b < |bs| ==> FillsAt(bs, b)
  }

  ghost predicate FillsAt(bs: seq<Bucket>, b: nat)
    requires b < |bs|
  {
    bs[b].flag.Marked? && bs[b].nodes != {} ==>
      && b >= 2
      && bs[Parent(b)].flag == Settled
      && bs[Parent(b)].writer == Some(bs[b].flag.owner)
  }

  ghost predicate KeysUnique(bs: seq<Bucket>) {
    forall a, b, n, m :: 0 <= a < |bs| && 0 <= b < |bs| && n in bs[a].nodes && m in bs[b].nodes && n.key == m.key
      ==> a == b && n == m
  }

  ghost predicate LocksExclusive(bs: seq<Bucket>) {
    forall b :: 0 <= b < |bs| && bs[b].writer.Some? ==> bs[b].readers == {}
  }

  ghost predicate SharedInv(s: State) {
    && s.level >= 1 && |s.buckets| == Pow2(s.level)
    && ParentClosed(s.buckets)
    && NodesAtHome(s.buckets)
    && FillsUnderLock(s.buckets)
    && KeysUnique(s.buckets)
    && LocksExclusive(s.buckets)
  }

  // ---------------------------------------------------------------- threads

  /** Every lock and every mark belongs to the thread it names. */
  ghost predicate BucketOwners(s: State, b: nat)
    requires b < |s.buckets|
  {
    var k := s.buckets[b];
    && (k.writer.Some? ==> k.writer.value < |s.threads| && HoldsW(s.threads[k.writer.value], b))
    && (forall u :: u in k.readers ==> u < |s.threads| && HoldsR(s.threads[u], b))
    && (k.flag.Marked? ==> k.flag.owner < |s.threads| && b in s.threads[k.flag.owner].stack)
  }

  ghost predicate OwnersHold(s: State) {
    forall b {:trigger BucketOwners(s, b)} :: 0 <= b < |s.buckets| ==> BucketOwners(s, b)
  }

  ghost predicate LocksHeld(s: State, u: Tid)
    requires u < |s.threads|
  {
    var th := s.threads[u];
    && (forall b: nat :: HoldsW(th, b) ==> b < |s.buckets| && s.buckets[b].writer == Some(u))
    && (forall b: nat :: HoldsR(th, b) ==> b < |s.buckets| && u in s.buckets[b].readers)
  }

  /** The buckets being split: each is the parent of the one before it. */
  ghost predicate StackInv(s: State, u: Tid)
    requires u < |s.threads|
  {
    var th := s.threads[u];
    && (forall i :: 0 <= i < |th.stack| ==>
         && 2 <= th.stack[i] < |s.buckets|
         && s.buckets[th.stack[i]].flag == Marked(u)
         && OnChain(th.op.key.hash, th.stack[i]))
    && (forall i :: 1 <= i < |th.stack| ==> th.stack[i] == Parent(th.stack[i - 1]))
    && (th.stack != [] ==> th.stack[0] == Low(th.op.key.hash, th.m))
  }

  /** The bucket the thread is about to acquire. */
  function Target(th: Thread): nat {
    if th.stack == [] then Low(th.op.key.hash, th.m)
    else if th.stack[|th.stack| - 1] >= 2 then Parent(th.stack[|th.stack| - 1])
    else 0
  }

  /** The bucket a call works on is the home of its key, or was when the mask was read. */
  ghost predicate Anchored(s: State, th: Thread, b: nat, w: bool) {
    && th.stack == []
    && IsSettled(s.buckets, b)
    && OnChain(th.op.key.hash, b)
    && (b == Low(th.op.key.hash, th.m) || (w && NoDeeper(s.buckets, th.op.key.hash, b)))
  }

  /** Nodes are moved into bucket `c` only once its parent is locked as writer. */
  predicate Empty(bs: seq<Bucket>, c: nat, w: bool) {
    c < |bs| && (!w ==> bs[c].nodes == {})
  }

  ghost predicate PcInv(s: State, u: Tid)
    requires u < |s.threads|
  {
    var th := s.threads[u];
    var h := th.op.key.hash;
    match th.pc
    case Idle => th.stack == []
    case ReadMask => th.stack == []
    case FlagCheck(b) => b == Target(th) && b < |s.buckets|
    case TryLock(b) => b == Target(th) && b < |s.buckets|
    case Recheck(b) => b == Target(th) && b < |s.buckets|
    case Block(b) =>
      && b == Target(th) && b < |s.buckets|
      && (s.buckets[b].flag != RehashReq || s.buckets[b].writer.Some?)
    case Scan(b, w) =>
      && th.stack != [] && b == Target(th) && IsSettled(s.buckets, b)
      && Empty(s.buckets, th.stack[|th.stack| - 1], w)
    case ScanWait(b) =>
      && th.stack != [] && b == Target(th) && IsSettled(s.buckets, b)
      && Empty(s.buckets, th.stack[|th.stack| - 1], false)
    case Search(b, w) => Anchored(s, th, b, w)
    case UpgradeWait(b) => !th.op.Find? && Anchored(s, th, b, false)
    case MaskCheck(b, w, absent) =>
      && Anchored(s, th, b, w)
      && (absent ==> !s.buckets[b].Has(th.op.key))
      && (!absent || th.op.Insert? ==> w)
      && (!absent ==> th.op.Erase?)
    case FlagLoad(b, w, absent, c) =>
      && th.stack == []
      && IsSettled(s.buckets, b) && OnChain(h, b)
      && c < |s.buckets|
      && ((c >= 2 && OnChain(h, c) && Parent(c) == b) || (w && NoDeeper(s.buckets, h, b)))
      && (absent ==> !s.buckets[b].Has(th.op.key))
      && (!absent || th.op.Insert? ==> w)
      && (!absent ==> th.op.Erase?)
    case Link(b) =>
      && th.op.Insert? && th.stack == []
      && IsSettled(s.buckets, b) && OnChain(h, b) && NoDeeper(s.buckets, h, b)
      && !s.buckets[b].Has(th.op.key)
    case Claim(b) => th.op.Insert? && th.stack == [] && IsSettled(s.buckets, b)
    case Unlink(b) =>
      && th.op.Erase? && th.stack == []
      && IsSettled(s.buckets, b) && s.buckets[b].Has(th.op.key)
    case Returning(b, w, result, grow) =>
      && th.stack == [] && IsSettled(s.buckets, b)
      && (grow != 0 ==> s.growing == Some(u) && grow == s.level)
    case Grow(grow, result) => th.stack == [] && s.growing == Some(u) && grow == s.level
    case Done(result) => th.stack == []
  }

  ghost predicate ThreadInv(s: State, u: Tid)
    requires u < |s.threads|
  {
    && 1 <= s.threads[u].m <= s.level
    && LocksHeld(s, u)
    && StackInv(s, u)
    && PcInv(s, u)
  }

  ghost predicate Inv(s: State) {
    && SharedInv(s)
    && OwnersHold(s)
    && forall u {:trigger ThreadInv(s, u)} :: 0 <= u < |s.threads| ==> ThreadInv(s, u)
  }

  // ---------------------------------------------------------------- what a step may do to others

  /** A step of `t` changes marks, locks and nodes only as their owner. */
  ghost predicate BucketGuarantee(s: State, s': State, t: Tid, b: nat)
    requires b < |s.buckets| <= |s'.buckets|
  {
    var k, k' := s.buckets[b], s'.buckets[b];
    && (|| k.flag == k'.flag
        || (k.flag == RehashReq && k'.flag == Marked(t) && k.writer == Some(t))
        || (k.flag == Marked(t) && k'.flag == Settled && 2 <= b
            && IsSettled(s.buckets, Parent(b)) && s.buckets[Parent(b)].HeldBy(t)))
    && (k.writer != k'.writer ==> (k.writer.None? || k.writer == Some(t)) && (k'.writer.None? || k'.writer == Some(t)))
    && (forall u :: u != t ==> (u in k.readers <==> u in k'.readers))
    && (k.nodes != k'.nodes ==> k.writer == Some(t))
    && (k.flag == RehashReq && k.writer.Some? ==> k'.flag != RehashReq || k'.writer.Some?)
  }

  ghost predicate Guarantee(s: State, s': State, t: Tid) {
    && |s.threads| == |s'.threads| && |s.buckets| <= |s'.buckets| && s.level <= s'.level
    && (forall u :: 0 <= u < |s.threads| && u != t ==> s.threads[u] == s'.threads[u])
    && (forall b :: 0 <= b < |s.buckets| ==> BucketGuarantee(s, s', t, b))
    && (forall b :: |s.buckets| <= b < |s'.buckets| ==> s'.buckets[b] == EmptyBucket)
    && (forall u :: u != t && s.growing == Some(u) ==> s'.growing == Some(u) && s'.level == s.level)
  }

  /** A writer keeps the deeper buckets of its bucket incomplete. */
  lemma NoDeeperStable(s: State, s': State, t: Tid, h: nat, x: nat, u: Tid)
    requires SharedInv(s) && Guarantee(s, s', t) && u != t
    requires x < |s.buckets| && s.buckets[x].writer == Some(u)
    requires OnChain(h, x) && NoDeeper(s.buckets, h, x)
    ensures NoDeeper(s'.buckets, h, x)
  {
    forall b | 0 <= b < |s'.buckets| && OnChain(h, b) && Depth(x) < Depth(b)
      ensures s'.buckets[b].flag != Settled
    {
      if b < |s.buckets| && s.buckets[b].flag != s'.buckets[b].flag && s'.buckets[b].flag == Settled {
        assert BucketGuarantee(s, s', t, b);
        ParentAdjacent(h, x, b);
        assert false;
      }
    }
  }

  lemma OthersKeepLocks(s: State, s': State, t: Tid, u: Tid)
    requires Guarantee(s, s', t)
    requires u < |s.threads| && u != t && LocksHeld(s, u)
    ensures LocksHeld(s', u)
  {
    var th := s.threads[u];
    forall b: nat | HoldsW(th, b)
      ensures b < |s'.buckets| && s'.buckets[b].writer == Some(u)
    {
      assert BucketGuarantee(s, s', t, b);
    }
    forall b: nat | HoldsR(th, b)
      ensures b < |s'.buckets| && u in s'.buckets[b].readers
    {
      assert BucketGuarantee(s, s', t, b);
    }
  }

  lemma OthersKeepStack(s: State, s': State, t: Tid, u: Tid)
    requires Guarantee(s, s', t)
    requires u < |s.threads| && u != t && StackInv(s, u)
    ensures StackInv(s', u)
  {
    var th := s.threads[u];
    forall i | 0 <= i < |th.stack|
      ensures s'.buckets[th.stack[i]].flag == Marked(u)
    {
      assert BucketGuarantee(s, s', t, th.stack[i]);
    }
  }

  /** Facts about one bucket that survive the steps of others. */
  lemma OthersKeepBucket(s: State, s': State, t: Tid, u: Tid, b: nat)
    requires Guarantee(s, s', t) && u != t && b < |s.buckets|
    ensures IsSettled(s.buckets, b) ==> IsSettled(s'.buckets, b)
    ensures s.buckets[b].flag == Marked(u) ==> s'.buckets[b].flag == Marked(u)
    ensures LocksExclusive(s.buckets) && s.buckets[b].HeldBy(u) ==> s'.buckets[b].nodes == s.buckets[b].nodes
    ensures s.buckets[b].flag != RehashReq ==> s'.buckets[b].flag != RehashReq
    ensures s.buckets[b].flag == RehashReq && s.buckets[b].writer.Some? && s'.buckets[b].flag == RehashReq
            ==> s'.buckets[b].writer.Some?
  {
    assert BucketGuarantee(s, s', t, b);
  }

  lemma OthersKeepAnchored(s: State, s': State, t: Tid, u: Tid, b: nat, w: bool)
    requires SharedInv(s) && Guarantee(s, s', t)
    requires u < |s.threads| && u != t && Anchored(s, s.threads[u], b, w)
    requires w ==> s.buckets[b].writer == Some(u)
    ensures Anchored(s', s.threads[u], b, w)
  {
    OthersKeepBucket(s, s', t, u, b);
    if w && NoDeeper(s.buckets, s.threads[u].op.key.hash, b) {
      NoDeeperStable(s, s', t, s.threads[u].op.key.hash, b, u);
    }
  }

  lemma OthersKeepPc(s: State, s': State, t: Tid, u: Tid)
    requires SharedInv(s) && Guarantee(s, s', t)
    requires u < |s.threads| && u != t && LocksHeld(s, u) && StackInv(s, u) && PcInv(s, u)
    ensures PcInv(s', u)
  {
    var th := s.threads[u];
    var h := th.op.key.hash;
    match th.pc
    case Idle =>
    case ReadMask =>
    case FlagCheck(b) =>
    case TryLock(b) =>
    case Recheck(b) =>
    case Block(b) => OthersKeepBucket(s, s', t, u, b);
    case Scan(b, w) =>
      OthersKeepBucket(s, s', t, u, b);
      var c := th.stack[|th.stack| - 1];
      assert HoldsW(th, c);
      OthersKeepBucket(s, s', t, u, c);
    case ScanWait(b) =>
      OthersKeepBucket(s, s', t, u, b);
      var c := th.stack[|th.stack| - 1];
      assert HoldsW(th, c);
      OthersKeepBucket(s, s', t, u, c);
    case Search(b, w) => 
      assert w ==> HoldsW(th, b);
      OthersKeepAnchored(s, s', t, u, b, w);
    case UpgradeWait(b) => OthersKeepAnchored(s, s', t, u, b, false);
    case MaskCheck(b, w, absent) =>
      assert if w then HoldsW(th, b) else HoldsR(th, b);
      OthersKeepBucket(s, s', t, u, b);
      OthersKeepAnchored(s, s', t, u, b, w);
    case FlagLoad(b, w, absent, c) =>
      assert if w then HoldsW(th, b) else HoldsR(th, b);
      OthersKeepBucket(s, s', t, u, b);
      if w && NoDeeper(s.buckets, h, b) {
        NoDeeperStable(s, s', t, h, b, u);
      }
    case Link(b) =>
      assert HoldsW(th, b);
      OthersKeepBucket(s, s', t, u, b);
      NoDeeperStable(s, s', t, h, b, u);
    case Claim(b) => OthersKeepBucket(s, s', t, u, b);
    case Unlink(b) =>
      assert HoldsW(th, b);
      OthersKeepBucket(s, s', t, u, b);
    case Returning(b, w, result, grow) => OthersKeepBucket(s, s', t, u, b);
    case Grow(grow, result) =>
    case Done(result) =>
  }

  lemma OthersKeepThreadInv(s: State, s': State, t: Tid, u: Tid)
    requires SharedInv(s) && Guarantee(s, s', t)
    requires u < |s.threads| && u != t && ThreadInv(s, u)
    ensures ThreadInv(s', u)
  {
    OthersKeepLocks(s, s', t, u);
    OthersKeepStack(s, s', t, u);
    OthersKeepPc(s, s', t, u);
  }

  lemma StepKeepsInv(s: State, s': State, t: Tid)
    requires Inv(s) && t < |s.threads| && Guarantee(s, s', t)
    requires SharedInv(s') && OwnersHold(s') && ThreadInv(s', t)
    ensures Inv(s')
  {
    forall u | 0 <= u < |s'.threads|
      ensures ThreadInv(s', u)
    {
      if u != t {
        OthersKeepThreadInv(s, s', t, u);
      }
    }
  }

  // ---------------------------------------------------------------- steps that touch no bucket

  lemma LocalStep(s: State, s': State, t: Tid)
    requires Inv(s) && t < |s.threads|
    requires s' == s.(threads := s'.threads, growing := s'.growing)
    requires |s'.threads| == |s.threads| && forall u :: 0 <= u < |s.threads| && u != t ==> s'.threads[u] == s.threads[u]
    requires forall u :: u != t && s.growing == Some(u) ==> s'.growing == Some(u)
    requires s'.threads[t].stack == s.threads[t].stack && Held(s'.threads[t].pc) == Held(s.threads[t].pc)
    requires ThreadInv(s', t)
    ensures Inv(s')
  {
    forall b | 0 <= b < |s'.buckets|
      ensures BucketOwners(s', b)
    {
      assert BucketOwners(s, b);
    }
    StepKeepsInv(s, s', t);
  }

  lemma ControlStepsKeepInv(s: State, t: Tid, s': State)
    requires Inv(s) && t < |s.threads|
    requires (exists op :: Begin(s, t, op, s')) || End(s, t, s') || LoadMask(s, t, s') || CheckFlag(s, t, s')
    ensures Inv(s')
  {
    assert ThreadInv(s, t);
    var th := s.threads[t];
    assert Pow2(1) == 2 * Pow2(0) == 2;
    Pow2Monotone(1, s.level);
    if LoadMask(s, t, s') {
      LowOnChain(th.op.key.hash, s.level);
    }
    LocalStep(s, s', t);
  }

  // ---------------------------------------------------------------- acquiring a bucket

  lemma TargetFacts(s: State, t: Tid)
    requires Inv(s) && t < |s.threads|
    ensures var th := s.threads[t];
            OnChain(th.op.key.hash, Target(th)) && Target(th) < |s.buckets| && Target(th) !in th.stack
  {
    var th := s.threads[t];
    var h := th.op.key.hash;
    assert ThreadInv(s, t);
    LowOnChain(h, th.m);
    Pow2Monotone(th.m, s.level);
    if th.stack != [] {
      ParentOnChain(h, th.stack[|th.stack| - 1]);
      StackDecreases(s, t);
    }
  }

  lemma StackDecreases(s: State, t: Tid)
    requires t < |s.threads| && StackInv(s, t)
    ensures var st := s.threads[t].stack; forall i, j :: 0 <= i < j < |st| ==> st[j] < st[i]
  {
    var st := s.threads[t].stack;
    forall i, j | 0 <= i < j < |st|
      ensures st[j] < st[i]
    {
      StackDecreasesFrom(s, t, i, j);
    }
  }

  lemma {:induction false} StackDecreasesFrom(s: State, t: Tid, i: nat, j: nat)
    requires t < |s.threads| && StackInv(s, t)
    requires i < j < |s.threads[t].stack|
    ensures s.threads[t].stack[j] < s.threads[t].stack[i]
  {
    assert s.threads[t].stack[j] == Parent(s.threads[t].stack[j - 1]);
    if i < j - 1 {
      StackDecreasesFrom(s, t, i, j - 1);
    }
  }

  // ---------------------------------------------------------------- steps that change one lock

  /** Thread `t` goes from `s` to `s'` by changing only the lock word of bucket `b`. */
  ghost predicate LockChange(s: State, s': State, t: Tid, b: nat)
    requires t < |s.threads|
  {
    && b < |s.buckets|
    && |s'.threads| == |s.threads| && |s'.buckets| == |s.buckets|
    && s' == s.(buckets := s.buckets[b := s'.buckets[b]], threads := s.threads[t := s'.threads[t]])
    && var k, k', th, th' := s.buckets[b], s'.buckets[b], s.threads[t], s'.threads[t];
    && k'.flag == k.flag && k'.nodes == k.nodes && th'.stack == th.stack
    && (Held(th.pc).Some? ==> Held(th.pc).value.0 == b)
    && (Held(th'.pc).Some? ==> Held(th'.pc).value.0 == b)
    && (k.writer != k'.writer ==> (k.writer.None? || k.writer == Some(t)) && (k'.writer.None? || k'.writer == Some(t)))
    && (forall u :: u != t ==> (u in k.readers <==> u in k'.readers))
    && (k'.writer.Some? ==> k'.readers == {})
    && (k'.writer == Some(t) <==> HoldsW(th', b))
    && (t in k'.readers <==> HoldsR(th', b))
    && (k.writer == Some(t) && k'.writer.None? ==> th.stack == [] && k.flag != RehashReq)
  }

  /** Only locks differ. */
  ghost predicate SameContents(bs: seq<Bucket>, bs': seq<Bucket>) {
    && |bs| == |bs'|
    && forall b :: 0 <= b < |bs| ==> bs[b].flag == bs'[b].flag && bs[b].nodes == bs'[b].nodes
  }

  lemma NoDeeperSame(bs: seq<Bucket>, bs': seq<Bucket>, h: nat, x: nat)
    requires SameContents(bs, bs') && NoDeeper(bs, h, x)
    ensures NoDeeper(bs', h, x)
  {
  }

  lemma SameContentsKeeps(bs: seq<Bucket>, bs': seq<Bucket>)
    requires SameContents(bs, bs') && ParentClosed(bs) && NodesAtHome(bs) && KeysUnique(bs)
    ensures ParentClosed(bs') && NodesAtHome(bs') && KeysUnique(bs')
  {
    forall c, n | 0 <= c < |bs'| && n in bs'[c].nodes
      ensures NodeAtHome(bs', c, n)
    {
      assert NodeAtHome(bs, c, n);
      NoDeeperSame(bs, bs', n.key.hash, c);
    }
  }

  lemma LockChangeFills(s: State, s': State, t: Tid, b: nat)
    requires Inv(s) && t < |s.threads| && LockChange(s, s', t, b)
    ensures FillsUnderLock(s'.buckets)
  {
    forall c | 0 <= c < |s'.buckets|
      ensures FillsAt(s'.buckets, c)
    {
      assert s.buckets[c].flag == s'.buckets[c].flag && s.buckets[c].nodes == s'.buckets[c].nodes;
      assert FillsAt(s.buckets, c) && BucketOwners(s, c);
    }
  }

  lemma LockChangeShared(s: State, s': State, t: Tid, b: nat)
    requires Inv(s) && t < |s.threads| && LockChange(s, s', t, b)
    ensures SharedInv(s')
  {
    SameContentsKeeps(s.buckets, s'.buckets);
    LockChangeFills(s, s', t, b);
  }

  lemma LockChangeGuarantee(s: State, s': State, t: Tid, b: nat)
    requires Inv(s) && t < |s.threads| && LockChange(s, s', t, b)
    ensures Guarantee(s, s', t)
  {
  }

  lemma LockChangeOwners(s: State, s': State, t: Tid, b: nat)
    requires Inv(s) && t < |s.threads| && LockChange(s, s', t, b)
    ensures OwnersHold(s') && LocksHeld(s', t)
  {
    var th, th' := s.threads[t], s'.threads[t];
    assert ThreadInv(s, t);
    forall c | 0 <= c < |s'.buckets|
      ensures BucketOwners(s', c)
    {
      assert BucketOwners(s, c);
      if c != b {
        assert HoldsW(th, c) <==> HoldsW(th', c);
        assert HoldsR(th, c) <==> HoldsR(th', c);
      }
    }
    forall c: nat | HoldsW(th', c)
      ensures c < |s'.buckets| && s'.buckets[c].writer == Some(t)
    {
      if c != b {
        assert HoldsW(th, c);
      }
    }
  }

  lemma LockStep(s: State, s': State, t: Tid, b: nat)
    requires Inv(s) && t < |s.threads| && LockChange(s, s', t, b)
    requires 1 <= s'.threads[t].m <= s'.level && StackInv(s', t) && PcInv(s', t)
    ensures Inv(s')
  {
    LockChangeShared(s, s', t, b);
    LockChangeGuarantee(s, s', t, b);
    LockChangeOwners(s, s', t, b);
    StepKeepsInv(s, s', t);
  }

  /** A read lock is only ever held on a complete bucket. */
  lemma ReadersSeeSettled(s: State, b: nat)
    requires Inv(s) && b < |s.buckets| && s.buckets[b].readers != {}
    ensures s.buckets[b].flag == Settled
  {
    var u :| u in s.buckets[b].readers;
    assert BucketOwners(s, b);
    assert ThreadInv(s, u) && HoldsR(s.threads[u], b);
  }

  lemma TryAcquireWins(s: State, t: Tid, s': State)
    requires Inv(s) && t < |s.threads| && TryAcquire(s, t, s') && Free(s.buckets[s.threads[t].pc.b])
    ensures Inv(s')
  {
    assert ThreadInv(s, t);
    TargetFacts(s, t);
    LockStep(s, s', t, s.threads[t].pc.b);
  }

  lemma TryAcquireLoses(s: State, t: Tid, s': State)
    requires Inv(s) && t < |s.threads| && TryAcquire(s, t, s') && !Free(s.buckets[s.threads[t].pc.b])
    ensures Inv(s')
  {
    assert ThreadInv(s, t);
    var b := s.threads[t].pc.b;
    if s.buckets[b].readers != {} {
      ReadersSeeSettled(s, b);
    }
    LocalStep(s, s', t);
  }

  /** A bucket not marked for rehashing that `t` could lock has no one splitting it. */
  lemma UnlockedIsSettled(s: State, t: Tid, b: nat)
    requires Inv(s) && t < |s.threads| && b < |s.buckets|
    requires s.buckets[b].flag != RehashReq && b !in s.threads[t].stack
    requires s.buckets[b].writer.None? || s.buckets[b].writer == Some(t)
    ensures s.buckets[b].flag == Settled
  {
    if s.buckets[b].flag.Marked? {
      var u := s.buckets[b].flag.owner;
      assert BucketOwners(s, b);
      assert ThreadInv(s, u) && HoldsW(s.threads[u], b);
    }
  }

  lemma AcquireReadKeepsInv(s: State, t: Tid, s': State)
    requires Inv(s) && t < |s.threads| && AcquireRead(s, t, s')
    ensures Inv(s')
  {
    AcquireReadThread(s, t, s');
    assert ThreadInv(s, t);
    LockStep(s, s', t, s.threads[t].pc.b);
  }

  lemma AcquireReadThread(s: State, t: Tid, s': State)
    requires Inv(s) && t < |s.threads| && AcquireRead(s, t, s')
    ensures |s'.threads| == |s.threads| && 1 <= s'.threads[t].m <= s'.level && StackInv(s', t) && PcInv(s', t)
  {
    var th, b := s.threads[t], s.threads[t].pc.b;
    assert StackInv(s, t) && PcInv(s, t) && 1 <= th.m <= s.level by { assert ThreadInv(s, t); }
    TargetFacts(s, t);
    UnlockedIsSettled(s, t, b);
    if th.stack != [] {
      FilledNotYet(s, t);
    }
  }

  /** Until the parent is locked, the bucket that is split from it has no node. */
  lemma FilledNotYet(s: State, t: Tid)
    requires Inv(s) && t < |s.threads| && s.threads[t].stack != [] && s.threads[t].pc.Block?
    requires s.threads[t].pc.b < |s.buckets| && s.buckets[s.threads[t].pc.b].writer.None?
    ensures Empty(s.buckets, s.threads[t].stack[|s.threads[t].stack| - 1], false)
  {
    assert ThreadInv(s, t);
    var c := s.threads[t].stack[|s.threads[t].stack| - 1];
    assert s.buckets[c].flag == Marked(t);
    assert FillsAt(s.buckets, c) && Parent(c) == s.threads[t].pc.b;
  }

  lemma RecheckUses(s: State, t: Tid, s': State)
    requires Inv(s) && t < |s.threads| && RecheckFlag(s, t, s') && !s.buckets[s.threads[t].pc.b].flag.RehashReq?
    ensures Inv(s')
  {
    assert ThreadInv(s, t);
    TargetFacts(s, t);
    var b := s.threads[t].pc.b;
    assert HoldsW(s.threads[t], b);
    UnlockedIsSettled(s, t, b);
    LocalStep(s, s', t);
  }

  // ---------------------------------------------------------------- marking and splitting

  /** Locks stay as they are; a mark set by `t` is on its stack. */
  lemma OwnersFrame(s: State, s': State, t: Tid)
    requires OwnersHold(s) && t < |s.threads| == |s'.threads| && |s.buckets| == |s'.buckets|
    requires forall u :: 0 <= u < |s.threads| && u != t ==> s'.threads[u] == s.threads[u]
    requires forall c :: 0 <= c < |s.buckets| ==>
      && s'.buckets[c].writer == s.buckets[c].writer && s'.buckets[c].readers == s.buckets[c].readers
      && (s'.buckets[c].flag == s.buckets[c].flag || s'.buckets[c].flag == Marked(t))
    requires forall c: nat :: HoldsW(s.threads[t], c) ==> HoldsW(s'.threads[t], c)
    requires forall c: nat :: HoldsR(s.threads[t], c) ==> HoldsR(s'.threads[t], c)
    requires forall c :: 0 <= c < |s.buckets| && s'.buckets[c].flag == Marked(t) ==> c in s'.threads[t].stack
    ensures OwnersHold(s')
  {
    forall c | 0 <= c < |s'.buckets|
      ensures BucketOwners(s', c)
    {
      assert BucketOwners(s, c);
    }
  }

  lemma MarkBuckets(bs: seq<Bucket>, bs': seq<Bucket>, b: nat, t: Tid)
    requires b < |bs| && bs' == bs[b := bs[b].(flag := Marked(t))] && bs[b].flag == RehashReq
    requires ParentClosed(bs) && NodesAtHome(bs) && FillsUnderLock(bs)
    ensures ParentClosed(bs') && NodesAtHome(bs') && FillsUnderLock(bs')
  {
    forall c, n | 0 <= c < |bs'| && n in bs'[c].nodes
      ensures NodeAtHome(bs', c, n)
    {
      assert NodeAtHome(bs, c, n);
    }
    assert forall n :: n in bs[b].nodes ==> NodeAtHome(bs, b, n);
    assert bs[b].nodes == {};
    forall c | 0 <= c < |bs'|
      ensures FillsAt(bs', c)
    {
      assert FillsAt(bs, c);
    }
  }

  lemma SameNodesUnique(bs: seq<Bucket>, bs': seq<Bucket>)
    requires KeysUnique(bs) && |bs| == |bs'| && forall b :: 0 <= b < |bs| ==> bs'[b].nodes == bs[b].nodes
    ensures KeysUnique(bs')
  {
  }

  lemma MarkShared(s: State, t: Tid, s': State)
    requires Inv(s) && t < |s.threads| && RecheckFlag(s, t, s') && s.buckets[s.threads[t].pc.b].flag.RehashReq?
    ensures SharedInv(s')
  {
    var b := s.threads[t].pc.b;
    MarkBuckets(s.buckets, s'.buckets, b, t);
    SameNodesUnique(s.buckets, s'.buckets);
  }

  lemma MarkGuarantee(s: State, t: Tid, s': State)
    requires Inv(s) && t < |s.threads| && RecheckFlag(s, t, s') && s.buckets[s.threads[t].pc.b].flag.RehashReq?
    ensures Guarantee(s, s', t)
  {
    assert LocksHeld(s, t) by { assert ThreadInv(s, t); }
    assert HoldsW(s.threads[t], s.threads[t].pc.b);
  }

  lemma MarkOwners(s: State, t: Tid, s': State)
    requires Inv(s) && t < |s.threads| && RecheckFlag(s, t, s') && s.buckets[s.threads[t].pc.b].flag.RehashReq?
    ensures OwnersHold(s') && LocksHeld(s', t)
  {
    assert LocksHeld(s, t) by { assert ThreadInv(s, t); }
    var th, th' := s.threads[t], s'.threads[t];
    assert th'.stack == th.stack + [th.pc.b];
    assert forall c: nat :: HoldsW(th, c) <==> HoldsW(th', c);
    assert forall c: nat :: !HoldsR(th, c) && !HoldsR(th', c);
    assert forall c :: 0 <= c < |s.buckets| && s.buckets[c].flag == Marked(t) ==> BucketOwners(s, c);
    OwnersFrame(s, s', t);
  }

  lemma MarkKeepsInv(s: State, t: Tid, s': State)
    requires Inv(s) && t < |s.threads| && RecheckFlag(s, t, s') && s.buckets[s.threads[t].pc.b].flag.RehashReq?
    ensures Inv(s')
  {
    TargetFacts(s, t);
    MarkShared(s, t, s');
    MarkGuarantee(s, t, s');
    MarkOwners(s, t, s');
    MarkThread(s, t, s');
    StepKeepsInv(s, s', t);
  }

  lemma MarkThread(s: State, t: Tid, s': State)
    requires Inv(s) && t < |s.threads| && RecheckFlag(s, t, s') && s.buckets[s.threads[t].pc.b].flag.RehashReq?
    requires LocksHeld(s', t)
    ensures |s'.threads| == |s.threads| && ThreadInv(s', t)
  {
    MarkStack(s, t, s');
    assert PcInv(s', t) by {
      TargetFacts(s, t);
      assert PcInv(s, t) by { assert ThreadInv(s, t); }
    }
  }

  lemma MarkStack(s: State, t: Tid, s': State)
    requires Inv(s) && t < |s.threads| && RecheckFlag(s, t, s') && s.buckets[s.threads[t].pc.b].flag.RehashReq?
    ensures |s'.threads| == |s.threads| && StackInv(s', t) && 1 <= s'.threads[t].m <= s'.level
  {
    TargetFacts(s, t);
    var th, b := s.threads[t], s.threads[t].pc.b;
    assert StackInv(s, t) && PcInv(s, t) && 1 <= th.m <= s.level by { assert ThreadInv(s, t); }
    var stack := s'.threads[t].stack;
    assert stack == th.stack + [b] && b == Target(th) && b >= 2;
    forall i | 0 <= i < |stack|
      ensures 2 <= stack[i] < |s'.buckets| && s'.buckets[stack[i]].flag == Marked(t)
          && OnChain(th.op.key.hash, stack[i])
    {
      assert i < |th.stack| ==> stack[i] == th.stack[i] && s.buckets[th.stack[i]].flag == Marked(t);
    }
    forall i | 1 <= i < |stack|
      ensures stack[i] == Parent(stack[i - 1])
    {
      assert stack[i - 1] == th.stack[i - 1] && (i < |th.stack| ==> stack[i] == th.stack[i]);
    }
  }

  /** What a thread that scans the parent `b` of the bucket `c` knows. */
  predicate ScanState(s: State, t: Tid, b: nat, c: nat)
    requires t < |s.threads|
  {
    var th := s.threads[t];
    && th.stack != [] && c == th.stack[|th.stack| - 1]
    && b < |s.buckets| && 2 <= c < |s.buckets| && b == Parent(c) && c != b && b !in th.stack
    && s.buckets[b].flag == Settled && s.buckets[c].flag == Marked(t)
    && s.buckets[c].writer == Some(t) && s.buckets[c].readers == {}
    && Depth(b) < Depth(c)
  }

  lemma ScanFacts(s: State, t: Tid)
    requires Inv(s) && t < |s.threads| && (s.threads[t].pc.Scan? || s.threads[t].pc.ScanWait?)
    ensures s.threads[t].stack != []
    ensures ScanState(s, t, s.threads[t].pc.b, s.threads[t].stack[|s.threads[t].stack| - 1])
    ensures s.threads[t].pc.Scan? ==> s.buckets[s.threads[t].pc.b].HeldBy(t)
    ensures s.threads[t].pc.Scan? && s.threads[t].pc.w ==> s.buckets[s.threads[t].pc.b].writer == Some(t)
  {
    assert ThreadInv(s, t);
    var th := s.threads[t];
    var b, c := th.pc.b, th.stack[|th.stack| - 1];
    assert c in th.stack && HoldsW(th, c);
    ParentShallower(c);
    if th.pc.Scan? {
      assert if th.pc.w then HoldsW(th, b) else HoldsR(th, b);
    }
    assert forall d :: d in th.stack ==> s.buckets[d].flag == Marked(t);
  }

  /** Moving a node `n` from `b` to its child `c`. */
  predicate Moved(bs: seq<Bucket>, bs': seq<Bucket>, b: nat, c: nat, n: Node) {
    && b < |bs| && c < |bs| && b != c && n in bs[b].nodes
    && bs' == bs[b := bs[b].(nodes := bs[b].nodes - {n})][c := bs[c].(nodes := bs[c].nodes + {n})]
  }

  lemma MovedNodesAtHome(bs: seq<Bucket>, bs': seq<Bucket>, b: nat, c: nat, n: Node)
    requires Moved(bs, bs', b, c, n) && NodesAtHome(bs)
    requires bs[c].flag != RehashReq && OnChain(n.key.hash, c) && Depth(b) < Depth(c)
    ensures NodesAtHome(bs')
  {
    forall d, m | 0 <= d < |bs'| && m in bs'[d].nodes
      ensures NodeAtHome(bs', d, m)
    {
      if d == c && m == n {
        assert NodeAtHome(bs, b, n);
      } else {
        assert NodeAtHome(bs, d, m);
      }
    }
  }

  lemma MovedUnique(bs: seq<Bucket>, bs': seq<Bucket>, b: nat, c: nat, n: Node)
    requires Moved(bs, bs', b, c, n) && KeysUnique(bs)
    ensures KeysUnique(bs')
  {
    forall x, y, p, q | 0 <= x < |bs'| && 0 <= y < |bs'| && p in bs'[x].nodes && q in bs'[y].nodes && p.key == q.key
      ensures x == y && p == q
    {
      var x0 := if x == c && p == n then b else x;
      var y0 := if y == c && q == n then b else y;
      assert p in bs[x0].nodes && q in bs[y0].nodes;
    }
  }

  lemma MovedShape(bs: seq<Bucket>, bs': seq<Bucket>, b: nat, c: nat, n: Node)
    requires Moved(bs, bs', b, c, n) && ParentClosed(bs) && LocksExclusive(bs)
    ensures ParentClosed(bs') && LocksExclusive(bs')
  {
  }

  lemma MovedFills(bs: seq<Bucket>, bs': seq<Bucket>, b: nat, c: nat, n: Node, t: Tid)
    requires Moved(bs, bs', b, c, n) && FillsUnderLock(bs)
    requires c >= 2 && b == Parent(c) && bs[b].flag == Settled && bs[b].writer == Some(t) && bs[c].flag == Marked(t)
    ensures FillsUnderLock(bs')
  {
    forall d | 0 <= d < |bs'|
      ensures FillsAt(bs', d)
    {
      assert FillsAt(bs, d);
      if d != c && d != b {
        assert bs'[d] == bs[d];
      }
    }
  }

  lemma MoveShared(s: State, t: Tid, n: Node, s': State)
    requires Inv(s) && t < |s.threads| && MoveNode(s, t, n, s')
    ensures SharedInv(s')
  {
    ScanFacts(s, t);
    var b, c := s.threads[t].pc.b, s.threads[t].stack[|s.threads[t].stack| - 1];
    assert ScanState(s, t, b, c);
    MovedShape(s.buckets, s'.buckets, b, c, n);
    MovedNodesAtHome(s.buckets, s'.buckets, b, c, n);
    MovedUnique(s.buckets, s'.buckets, b, c, n);
    MovedFills(s.buckets, s'.buckets, b, c, n, t);
  }

  lemma MoveOwners(s: State, t: Tid, n: Node, s': State)
    requires Inv(s) && t < |s.threads| && MoveNode(s, t, n, s')
    ensures OwnersHold(s')
  {
    assert forall c :: 0 <= c < |s.buckets| && s.buckets[c].flag == Marked(t) ==> BucketOwners(s, c);
    OwnersFrame(s, s', t);
  }

  lemma MoveGuarantee(s: State, t: Tid, n: Node, s': State)
    requires Inv(s) && t < |s.threads| && MoveNode(s, t, n, s')
    ensures Guarantee(s, s', t)
  {
    ScanFacts(s, t);
    assert ScanState(s, t, s.threads[t].pc.b, s.threads[t].stack[|s.threads[t].stack| - 1]);
  }

  lemma MoveThread(s: State, t: Tid, n: Node, s': State)
    requires Inv(s) && t < |s.threads| && MoveNode(s, t, n, s')
    ensures ThreadInv(s', t)
  {
    assert ThreadInv(s, t);
    assert LocksHeld(s', t);
    assert StackInv(s', t);
  }

  lemma MoveKeepsInv(s: State, t: Tid, n: Node, s': State)
    requires Inv(s) && t < |s.threads| && MoveNode(s, t, n, s')
    ensures Inv(s')
  {
    MoveShared(s, t, n, s');
    MoveOwners(s, t, n, s');
    MoveGuarantee(s, t, n, s');
    MoveThread(s, t, n, s');
    StepKeepsInv(s, s', t);
  }

  /** A reader of bucket `b` becomes its writer, or gives the lock up. */
  lemma UpgradeIsLockChange(s: State, s': State, t: Tid, b: nat, th': Thread)
    requires Inv(s) && t < |s.threads| && b < |s.buckets|
    requires Held(s.threads[t].pc) == Some((b, false)) && b !in s.threads[t].stack
    requires th'.stack == s.threads[t].stack
    requires s'.threads == s.threads[t := th'] && s' == s.(buckets := s'.buckets, threads := s'.threads)
    requires || (&& s'.buckets == s.buckets[b := s.buckets[b].(writer := Some(t), readers := {})]
                 && OnlyReader(s.buckets[b], t) && Held(th'.pc) == Some((b, true)))
             || (&& s'.buckets == s.buckets[b := Release(s.buckets[b], t, false)]
                 && Held(th'.pc) == None)
    ensures LockChange(s, s', t, b)
  {
    assert LocksHeld(s, t) by { assert ThreadInv(s, t); }
    assert HoldsR(s.threads[t], b);
  }

  lemma ScanUpgradeKeepsInv(s: State, t: Tid, s': State)
    requires Inv(s) && t < |s.threads| && ScanUpgrade(s, t, s')
    ensures Inv(s')
  {
    ScanFacts(s, t);
    var b := s.threads[t].pc.b;
    UpgradeIsLockChange(s, s', t, b, s'.threads[t]);
    assert StackInv(s', t) && PcInv(s', t) && 1 <= s'.threads[t].m <= s'.level by {
      assert ThreadInv(s, t);
    }
    LockStep(s, s', t, b);
  }

  lemma ScanRelockKeepsInv(s: State, t: Tid, s': State)
    requires Inv(s) && t < |s.threads| && ScanRelock(s, t, s')
    ensures Inv(s')
  {
    ScanFacts(s, t);
    ScanRelockThread(s, t, s');
    LockStep(s, s', t, s.threads[t].pc.b);
  }

  lemma ScanRelockThread(s: State, t: Tid, s': State)
    requires Inv(s) && t < |s.threads| && ScanRelock(s, t, s')
    ensures |s'.threads| == |s.threads| && StackInv(s', t) && PcInv(s', t) && 1 <= s'.threads[t].m <= s'.level
  {
    ScanFacts(s, t);
    assert StackInv(s', t) && 1 <= s'.threads[t].m <= s'.level by {
      assert ThreadInv(s, t);
    }
    assert PcInv(s', t) by {
      assert PcInv(s, t) by {
        assert ThreadInv(s, t);
      }
    }
  }

  /** A complete bucket makes the shallower ones of its chain complete. */
  lemma {:induction false} SettledUpward(bs: seq<Bucket>, h: nat, x: nat, b: nat)
    requires ParentClosed(bs) && IsSettled(bs, b)
    requires OnChain(h, x) && OnChain(h, b) && Depth(x) <= Depth(b)
    ensures IsSettled(bs, x)
    decreases b
  {
    if Depth(x) < Depth(b) {
      ParentAdjacent(h, x, b);
      SettledUpward(bs, h, x, Parent(b));
    } else {
      ChainUnique(h, x, b);
    }
  }

  /** While `c` is not complete, nothing below it is. */
  lemma ChildBlocks(bs: seq<Bucket>, h: nat, x: nat, c: nat)
    requires ParentClosed(bs)
    requires c >= 2 && OnChain(h, c) && Parent(c) == x && OnChain(h, x) && !IsSettled(bs, c)
    ensures NoDeeper(bs, h, x)
  {
    forall b | 0 <= b < |bs| && OnChain(h, b) && Depth(x) < Depth(b)
      ensures bs[b].flag != Settled
    {
      DeeperThanChild(h, x, c, b);
      if bs[b].flag == Settled {
        SettledUpward(bs, h, c, b);
      }
    }
  }

  // ---------------------------------------------------------------- completing a bucket

  /** After a fruitless scan of its parent, a bucket holds every node of its part of the hash space. */
  lemma ChildHasItsNodes(bs: seq<Bucket>, b: nat, c: nat, d: nat, m: Node)
    requires ParentClosed(bs) && NodesAtHome(bs) && FillsUnderLock(bs)
    requires b < |bs| && 2 <= c < |bs| && b == Parent(c) && bs[b].flag == Settled && bs[c].flag.Marked?
    requires forall n :: n in bs[b].nodes ==> !Belongs(n, c)
    requires d < |bs| && m in bs[d].nodes && Belongs(m, c)
    ensures d == c
  {
    var h := m.key.hash;
    assert NodeAtHome(bs, d, m);
    ParentOnChain(h, c);
    ParentShallower(c);
    ChildBlocks(bs, h, b, c);
    if bs[d].flag == Settled {
      ChainUnique(h, d, b);
    } else {
      var p := Parent(d);
      assert FillsAt(bs, d);
      ParentOnChain(h, d);
      ParentShallower(d);
      ParentAdjacent(h, b, d);
      assert bs[p].flag == Settled;
      DeeperThanChild(h, b, c, d);
      DeeperThanChild(h, b, d, c);
      ChainUnique(h, d, c);
    }
  }

  /** Bucket `c` becomes complete and its parent `b` is released. */
  predicate Completed(bs: seq<Bucket>, bs': seq<Bucket>, b: nat, c: nat, t: Tid, w: bool) {
    && b < |bs| && 2 <= c < |bs| && b == Parent(c) && b != c
    && bs[b].flag == Settled && bs[c].flag == Marked(t)
    && bs' == bs[b := Release(bs[b], t, w)][c := bs[c].(flag := Settled)]
  }

  lemma CompletedNodes(bs: seq<Bucket>, bs': seq<Bucket>, b: nat, c: nat, t: Tid, w: bool)
    requires Completed(bs, bs', b, c, t, w)
    requires ParentClosed(bs) && NodesAtHome(bs) && FillsUnderLock(bs)
    requires forall n :: n in bs[b].nodes ==> !Belongs(n, c)
    ensures NodesAtHome(bs')
  {
    forall d, m | 0 <= d < |bs'| && m in bs'[d].nodes
      ensures NodeAtHome(bs', d, m)
    {
      assert NodeAtHome(bs, d, m);
      if Belongs(m, c) {
        ChildHasItsNodes(bs, b, c, d, m);
      }
    }
  }

  lemma CompletedShape(bs: seq<Bucket>, bs': seq<Bucket>, b: nat, c: nat, t: Tid, w: bool)
    requires Completed(bs, bs', b, c, t, w) && ParentClosed(bs) && KeysUnique(bs) && LocksExclusive(bs)
    ensures ParentClosed(bs') && KeysUnique(bs') && LocksExclusive(bs')
  {
    SameNodesUnique(bs, bs');
  }

  lemma CompletedFills(bs: seq<Bucket>, bs': seq<Bucket>, b: nat, c: nat, t: Tid, w: bool)
    requires Completed(bs, bs', b, c, t, w) && FillsUnderLock(bs) && LocksExclusive(bs)
    requires if w then bs[b].writer == Some(t) else t in bs[b].readers
    requires forall d :: 2 <= d < |bs| && bs[d].flag == Marked(t) && Parent(d) == b ==> d == c
    ensures FillsUnderLock(bs')
  {
    forall d | 0 <= d < |bs'|
      ensures FillsAt(bs', d)
    {
      assert FillsAt(bs, d);
      assert d != c ==> bs'[d].flag == bs[d].flag && bs'[d].nodes == bs[d].nodes;
    }
  }

  lemma StackHasParent(s: State, t: Tid, i: nat)
    requires t < |s.threads| && StackInv(s, t) && i + 1 < |s.threads[t].stack|
    ensures Parent(s.threads[t].stack[i]) in s.threads[t].stack
  {
    assert s.threads[t].stack[i + 1] == Parent(s.threads[t].stack[i]);
  }

  /** No other bucket that `t` is splitting has the same parent. */
  lemma OnlyChild(s: State, t: Tid, b: nat, c: nat, d: nat)
    requires OwnersHold(s) && t < |s.threads| && StackInv(s, t) && ScanState(s, t, b, c)
    requires 2 <= d < |s.buckets| && s.buckets[d].flag == Marked(t) && Parent(d) == b
    ensures d == c
  {
    assert BucketOwners(s, d);
    var st := s.threads[t].stack;
    var i :| 0 <= i < |st| && st[i] == d;
    if i < |st| - 1 {
      StackHasParent(s, t, i);
    }
  }

  lemma SettleShared(s: State, t: Tid, s': State)
    requires Inv(s) && t < |s.threads| && Settle(s, t, s')
    ensures SharedInv(s')
  {
    ScanFacts(s, t);
    var th := s.threads[t];
    var b, c, w := th.pc.b, th.stack[|th.stack| - 1], th.pc.w;
    assert ScanState(s, t, b, c);
    assert Completed(s.buckets, s'.buckets, b, c, t, w);
    assert StackInv(s, t) && LocksHeld(s, t) by { assert ThreadInv(s, t); }
    assert if w then HoldsW(th, b) else HoldsR(th, b);
    forall d | 2 <= d < |s.buckets| && s.buckets[d].flag == Marked(t) && Parent(d) == b
      ensures d == c
    {
      OnlyChild(s, t, b, c, d);
    }
    CompletedNodes(s.buckets, s'.buckets, b, c, t, w);
    CompletedShape(s.buckets, s'.buckets, b, c, t, w);
    CompletedFills(s.buckets, s'.buckets, b, c, t, w);
  }

  lemma SettleOwners(s: State, t: Tid, s': State)
    requires Inv(s) && t < |s.threads| && Settle(s, t, s')
    ensures OwnersHold(s')
  {
    ScanFacts(s, t);
    var th, th' := s.threads[t], s'.threads[t];
    var b, c := th.pc.b, th.stack[|th.stack| - 1];
    assert ScanState(s, t, b, c);
    assert th.stack == th'.stack + [c];
    assert Held(th'.pc) == Some((c, true));
    forall d | 0 <= d < |s'.buckets|
      ensures BucketOwners(s', d)
    {
      assert BucketOwners(s, d);
    }
  }

  lemma SettleThread(s: State, t: Tid, s': State)
    requires Inv(s) && t < |s.threads| && Settle(s, t, s')
    ensures ThreadInv(s', t)
  {
    ScanFacts(s, t);
    assert ThreadInv(s, t);
    var th, th' := s.threads[t], s'.threads[t];
    var b, c := th.pc.b, th.stack[|th.stack| - 1];
    assert ScanState(s, t, b, c);
    StackDecreases(s, t);
    SettleLocks(s, t, s');
    assert StackInv(s', t);
    assert PcInv(s', t);
  }

  lemma SettleLocks(s: State, t: Tid, s': State)
    requires Inv(s) && t < |s.threads| && Settle(s, t, s')
    ensures LocksHeld(s', t)
  {
    ScanFacts(s, t);
    assert ThreadInv(s, t);
    var th, th' := s.threads[t], s'.threads[t];
    var b, c := th.pc.b, th.stack[|th.stack| - 1];
    assert ScanState(s, t, b, c);
    StackDecreases(s, t);
    forall d: nat | HoldsW(th', d)
      ensures d < |s'.buckets| && s'.buckets[d].writer == Some(t)
    {
      assert d == c || d in th.stack;
      assert HoldsW(th, d);
    }
  }

  lemma SettleGuarantee(s: State, t: Tid, s': State)
    requires Inv(s) && t < |s.threads| && Settle(s, t, s')
    ensures Guarantee(s, s', t)
  {
    ScanFacts(s, t);
    assert ScanState(s, t, s.threads[t].pc.b, s.threads[t].stack[|s.threads[t].stack| - 1]);
    assert LocksHeld(s, t) by { assert ThreadInv(s, t); }
    var b := s.threads[t].pc.b;
    assert if s.threads[t].pc.w then HoldsW(s.threads[t], b) else HoldsR(s.threads[t], b);
  }

  lemma SettleKeepsInv(s: State, t: Tid, s': State)
    requires Inv(s) && t < |s.threads| && Settle(s, t, s')
    ensures Inv(s')
  {
    SettleShared(s, t, s');
    SettleOwners(s, t, s');
    SettleThread(s, t, s');
    SettleGuarantee(s, t, s');
    StepKeepsInv(s, s', t);
  }

  // ---------------------------------------------------------------- looking a key up

  /** The bucket a thread has locked holds every node of hash code `h`,
      if no deeper bucket of the chain of `h` is complete. */
  lemma HomeHasItsNodes(s: State, t: Tid, b: nat, h: nat, d: nat, m: Node)
    requires SharedInv(s) && OwnersHold(s) && t < |s.threads| && s.threads[t].stack == []
    requires IsSettled(s.buckets, b) && s.buckets[b].HeldBy(t)
    requires OnChain(h, b) && NoDeeper(s.buckets, h, b)
    requires d < |s.buckets| && m in s.buckets[d].nodes && m.key.hash == h
    ensures d == b
  {
    assert NodeAtHome(s.buckets, d, m);
    if s.buckets[d].flag == Settled || Depth(d) <= Depth(b) {
      ChainUnique(h, d, b);
    } else {
      assert BucketOwners(s, d) && FillsAt(s.buckets, d);
      ParentAdjacent(h, b, d);
      assert false;
    }
  }

  /** Once `check_mask_race` says no, the locked bucket is the home of the key. */
  lemma NoRaceAtHome(s: State, t: Tid)
    requires Inv(s) && t < |s.threads|
    requires var th := s.threads[t]; var h := th.op.key.hash;
      || (th.pc.MaskCheck? && Low(h, th.m) == Low(h, s.level))
      || (th.pc.FlagLoad? && th.pc.c < |s.buckets| && s.buckets[th.pc.c].flag.RehashReq?)
    ensures var th := s.threads[t]; var b := th.pc.b;
      && IsSettled(s.buckets, b) && s.buckets[b].HeldBy(t) && th.stack == []
      && OnChain(th.op.key.hash, b) && NoDeeper(s.buckets, th.op.key.hash, b)
  {
    assert ThreadInv(s, t);
    var th := s.threads[t];
    var h, b := th.op.key.hash, th.pc.b;
    assert if th.pc.w then HoldsW(th, b) else HoldsR(th, b);
    if th.pc.MaskCheck? {
      if b == Low(h, th.m) {
        forall d | 0 <= d < |s.buckets| && OnChain(h, d)
          ensures Depth(d) <= Depth(b)
        {
          NothingBetween(h, th.m, s.level, d);
        }
      }
    } else if th.pc.c >= 2 && OnChain(h, th.pc.c) && Parent(th.pc.c) == b {
      ChildBlocks(s.buckets, h, b, th.pc.c);
    }
  }

  /** The search step leaves the lock alone, or upgrades it. */
  lemma SearchLocalKeepsInv(s: State, t: Tid, s': State)
    requires Inv(s) && t < |s.threads| && s.threads[t].pc.Search?
    requires |s'.threads| == |s.threads| && s' == SetPc(s, t, s'.threads[t].pc)
    requires Held(s'.threads[t].pc) == Held(s.threads[t].pc)
    requires PcInv(s', t)
    ensures Inv(s')
  {
    assert ThreadInv(s, t);
    LocalStep(s, s', t);
  }

  lemma SearchUpgradeKeepsInv(s: State, t: Tid, s': State)
    requires Inv(s) && t < |s.threads| && s.threads[t].pc.Search? && !s.threads[t].pc.w
    requires |s'.threads| == |s.threads| && PcInv(s', t)
    requires s.threads[t].pc.b < |s.buckets|
    requires var b, pc' := s.threads[t].pc.b, s'.threads[t].pc; var k := s.buckets[b];
      || (OnlyReader(k, t) && s' == SetPc(SetBucket(s, b, k.(writer := Some(t), readers := {})), t, pc')
          && Held(pc') == Some((b, true)))
      || (s' == SetPc(SetBucket(s, b, Release(k, t, false)), t, pc') && Held(pc') == None)
    ensures Inv(s')
  {
    assert ThreadInv(s, t);
    UpgradeIsLockChange(s, s', t, s.threads[t].pc.b, s'.threads[t]);
    LockStep(s, s', t, s.threads[t].pc.b);
  }

  lemma HitKeepsInv(s: State, t: Tid, n: Node, l: Label, s': State)
    requires Inv(s) && t < |s.threads| && SearchHit(s, t, n, l, s')
    ensures Inv(s')
  {
    HitPc(s, t, n, l, s');
    if s.threads[t].op.Erase? && !s.threads[t].pc.w {
      SearchUpgradeKeepsInv(s, t, s');
    } else {
      SearchLocalKeepsInv(s, t, s');
    }
  }

  lemma HitPc(s: State, t: Tid, n: Node, l: Label, s': State)
    requires Inv(s) && t < |s.threads| && SearchHit(s, t, n, l, s')
    ensures |s'.threads| == |s.threads| && PcInv(s', t)
  {
    assert ThreadInv(s, t);
  }

  lemma MissKeepsInv(s: State, t: Tid, s': State)
    requires Inv(s) && t < |s.threads| && SearchMiss(s, t, s')
    ensures Inv(s')
  {
    var th := s.threads[t];
    assert PcInv(s', t) by { assert ThreadInv(s, t); }
    if th.op.Insert? && !th.pc.w {
      SearchUpgradeKeepsInv(s, t, s');
    } else {
      SearchLocalKeepsInv(s, t, s');
    }
  }

  lemma RelockKeepsInv(s: State, t: Tid, s': State)
    requires Inv(s) && t < |s.threads| && Relock(s, t, s')
    ensures Inv(s')
  {
    assert ThreadInv(s, t);
    LockStep(s, s', t, s.threads[t].pc.b);
  }

  lemma ReleaseIsLockChange(s: State, s': State, t: Tid, b: nat, w: bool)
    requires Inv(s) && t < |s.threads| && b < |s.buckets|
    requires s.threads[t].stack == [] && Held(s.threads[t].pc) == Some((b, w)) && s.buckets[b].flag == Settled
    requires |s'.threads| == |s.threads| && Held(s'.threads[t].pc) == None
    requires s' == SetPc(SetBucket(s, b, Release(s.buckets[b], t, w)), t, s'.threads[t].pc)
    ensures LockChange(s, s', t, b)
  {
    assert LocksHeld(s, t) by { assert ThreadInv(s, t); }
    assert if w then HoldsW(s.threads[t], b) else HoldsR(s.threads[t], b);
  }

  lemma SameMaskKeepsInv(s: State, t: Tid, l: Label, s': State)
    requires Inv(s) && t < |s.threads| && CheckMask(s, t, l, s')
    requires var th := s.threads[t]; Low(th.op.key.hash, th.m) == Low(th.op.key.hash, s.level)
    ensures Inv(s')
  {
    NoRaceAtHome(s, t);
    assert PcInv(s, t) by { assert ThreadInv(s, t); }
    assert Held(s'.threads[t].pc) == Held(s.threads[t].pc);
    assert ThreadInv(s', t) by { assert ThreadInv(s, t); }
    LocalStep(s, s', t);
  }

  lemma NoCollisionKeepsInv(s: State, t: Tid, l: Label, s': State)
    requires Inv(s) && t < |s.threads| && CheckCollision(s, t, l, s') && s.buckets[s.threads[t].pc.c].flag.RehashReq?
    ensures Inv(s')
  {
    NoRaceAtHome(s, t);
    assert PcInv(s, t) by { assert ThreadInv(s, t); }
    assert Held(s'.threads[t].pc) == Held(s.threads[t].pc);
    assert ThreadInv(s', t) by { assert ThreadInv(s, t); }
    LocalStep(s, s', t);
  }

  lemma LoadChildKeepsInv(s: State, t: Tid, l: Label, s': State)
    requires Inv(s) && t < |s.threads| && CheckMask(s, t, l, s')
    requires var th := s.threads[t]; Low(th.op.key.hash, th.m) != Low(th.op.key.hash, s.level)
    ensures Inv(s')
  {
    var th := s.threads[t];
    NextChildIsChild(th.op.key.hash, th.m, s.level);
    assert ThreadInv(s', t) by { assert ThreadInv(s, t); }
    LocalStep(s, s', t);
  }

  lemma RestartKeepsInv(s: State, t: Tid, l: Label, s': State)
    requires Inv(s) && t < |s.threads| && CheckCollision(s, t, l, s') && !s.buckets[s.threads[t].pc.c].flag.RehashReq?
    ensures Inv(s')
  {
    var th := s.threads[t];
    assert ThreadInv(s, t);
    LowOnChain(th.op.key.hash, th.m);
    Pow2Monotone(th.m, s.level);
    ReleaseIsLockChange(s, s', t, th.pc.b, th.pc.w);
    LockStep(s, s', t, th.pc.b);
  }

  lemma ClaimKeepsInv(s: State, t: Tid, loaded: bool, s': State)
    requires Inv(s) && t < |s.threads| && ClaimSegment(s, t, loaded, s')
    ensures Inv(s')
  {
    assert ThreadInv(s, t);
    LocalStep(s, s', t);
  }

  lemma LeaveKeepsInv(s: State, t: Tid, s': State)
    requires Inv(s) && t < |s.threads| && LeaveScope(s, t, s')
    ensures Inv(s')
  {
    assert ThreadInv(s, t);
    ReleaseIsLockChange(s, s', t, s.threads[t].pc.b, s.threads[t].pc.w);
    LockStep(s, s', t, s.threads[t].pc.b);
  }

  // ---------------------------------------------------------------- adding and removing nodes

  /** The locked home bucket gains or loses one node. */
  predicate NodesChanged(bs: seq<Bucket>, bs': seq<Bucket>, b: nat, nodes: set<Node>) {
    b < |bs| && bs[b].flag == Settled && bs' == bs[b := bs[b].(nodes := nodes)]
  }

  lemma NodesChangedShape(bs: seq<Bucket>, bs': seq<Bucket>, b: nat, nodes: set<Node>)
    requires NodesChanged(bs, bs', b, nodes) && ParentClosed(bs) && FillsUnderLock(bs) && LocksExclusive(bs)
    ensures ParentClosed(bs') && FillsUnderLock(bs') && LocksExclusive(bs')
  {
    forall d | 0 <= d < |bs'|
      ensures FillsAt(bs', d)
    {
      assert FillsAt(bs, d);
    }
  }

  lemma LinkedNodesAtHome(bs: seq<Bucket>, bs': seq<Bucket>, b: nat, n: Node)
    requires b < |bs| && NodesChanged(bs, bs', b, bs[b].nodes + {n}) && NodesAtHome(bs)
    requires OnChain(n.key.hash, b) && NoDeeper(bs, n.key.hash, b)
    ensures NodesAtHome(bs')
  {
    forall d, m | 0 <= d < |bs'| && m in bs'[d].nodes
      ensures NodeAtHome(bs', d, m)
    {
      if d != b || m in bs[b].nodes {
        assert NodeAtHome(bs, d, m);
      }
    }
  }

  lemma UnlinkedKeeps(bs: seq<Bucket>, bs': seq<Bucket>, b: nat, n: Node)
    requires b < |bs| && NodesChanged(bs, bs', b, bs[b].nodes - {n}) && NodesAtHome(bs) && KeysUnique(bs)
    ensures NodesAtHome(bs') && KeysUnique(bs')
  {
    forall d, m | 0 <= d < |bs'| && m in bs'[d].nodes
      ensures NodeAtHome(bs', d, m)
    {
      assert NodeAtHome(bs, d, m);
    }
  }

  lemma LinkedUnique(bs: seq<Bucket>, bs': seq<Bucket>, b: nat, n: Node)
    requires b < |bs| && NodesChanged(bs, bs', b, bs[b].nodes + {n}) && KeysUnique(bs)
    requires forall d, m :: 0 <= d < |bs| && m in bs[d].nodes ==> m.key != n.key
    ensures KeysUnique(bs')
  {
    forall x, y, p, q | 0 <= x < |bs'| && 0 <= y < |bs'| && p in bs'[x].nodes && q in bs'[y].nodes && p.key == q.key
      ensures x == y && p == q
    {
      assert p in bs[x].nodes || (x == b && p == n);
      assert q in bs[y].nodes || (y == b && q == n);
    }
  }

  /** When a node is linked, its key is nowhere in the table. */
  lemma LinkedKeyIsNew(s: State, t: Tid)
    requires Inv(s) && t < |s.threads| && s.threads[t].pc.Link?
    ensures forall d, m :: 0 <= d < |s.buckets| && m in s.buckets[d].nodes ==> m.key != s.threads[t].op.key
  {
    assert ThreadInv(s, t);
    var th := s.threads[t];
    assert HoldsW(th, th.pc.b);
    forall d, m | 0 <= d < |s.buckets| && m in s.buckets[d].nodes
      ensures m.key != th.op.key
    {
      if m.key == th.op.key {
        HomeHasItsNodes(s, t, th.pc.b, th.op.key.hash, d, m);
      }
    }
  }

  lemma LinkShared(s: State, t: Tid, l: Label, s': State)
    requires Inv(s) && t < |s.threads| && LinkNode(s, t, l, s')
    ensures SharedInv(s')
  {
    var th := s.threads[t];
    var n := Node(th.op.key, th.op.val);
    LinkedKeyIsNew(s, t);
    assert PcInv(s, t) by { assert ThreadInv(s, t); }
    NodesChangedShape(s.buckets, s'.buckets, th.pc.b, s.buckets[th.pc.b].nodes + {n});
    LinkedNodesAtHome(s.buckets, s'.buckets, th.pc.b, n);
    LinkedUnique(s.buckets, s'.buckets, th.pc.b, n);
  }

  lemma UnlinkShared(s: State, t: Tid, n: Node, l: Label, s': State)
    requires Inv(s) && t < |s.threads| && UnlinkNode(s, t, n, l, s')
    ensures SharedInv(s')
  {
    var th := s.threads[t];
    assert PcInv(s, t) by { assert ThreadInv(s, t); }
    NodesChangedShape(s.buckets, s'.buckets, th.pc.b, s.buckets[th.pc.b].nodes - {n});
    UnlinkedKeeps(s.buckets, s'.buckets, th.pc.b, n);
  }

  /** A writer that changes the nodes of its bucket and nothing else. */
  lemma NodeStepOwners(s: State, s': State, t: Tid, b: nat, nodes: set<Node>)
    requires Inv(s) && t < |s.threads| && b < |s.buckets| && |s'.threads| == |s.threads|
    requires s' == SetPc(SetBucket(s, b, s.buckets[b].(nodes := nodes)), t, s'.threads[t].pc)
    requires Held(s.threads[t].pc) == Some((b, true)) && Held(s'.threads[t].pc) == Some((b, true))
    ensures OwnersHold(s') && Guarantee(s, s', t)
  {
    assert forall c :: 0 <= c < |s.buckets| && s.buckets[c].flag == Marked(t) ==> BucketOwners(s, c);
    assert LocksHeld(s, t) by { assert ThreadInv(s, t); }
    assert HoldsW(s.threads[t], b);
    OwnersFrame(s, s', t);
  }

  lemma LinkKeepsInv(s: State, t: Tid, l: Label, s': State)
    requires Inv(s) && t < |s.threads| && LinkNode(s, t, l, s')
    ensures Inv(s')
  {
    var b := s.threads[t].pc.b;
    LinkShared(s, t, l, s');
    NodeStepOwners(s, s', t, b, s'.buckets[b].nodes);
    assert ThreadInv(s', t) by { assert ThreadInv(s, t); }
    StepKeepsInv(s, s', t);
  }

  lemma UnlinkKeepsInv(s: State, t: Tid, n: Node, l: Label, s': State)
    requires Inv(s) && t < |s.threads| && UnlinkNode(s, t, n, l, s')
    ensures Inv(s')
  {
    var b := s.threads[t].pc.b;
    UnlinkShared(s, t, n, l, s');
    NodeStepOwners(s, s', t, b, s'.buckets[b].nodes);
    assert ThreadInv(s', t) by { assert ThreadInv(s, t); }
    StepKeepsInv(s, s', t);
  }

  // ---------------------------------------------------------------- growth

  lemma GrownNodes(bs: seq<Bucket>, bs': seq<Bucket>)
    requires bs <= bs' && forall b :: |bs| <= b < |bs'| ==> bs'[b] == EmptyBucket
    requires ParentClosed(bs) && NodesAtHome(bs) && FillsUnderLock(bs) && KeysUnique(bs) && LocksExclusive(bs)
    ensures ParentClosed(bs') && NodesAtHome(bs') && FillsUnderLock(bs') && KeysUnique(bs') && LocksExclusive(bs')
  {
    GrownNodesAtHome(bs, bs');
    GrownKeysUnique(bs, bs');
    GrownLocks(bs, bs');
  }

  lemma GrownLocks(bs: seq<Bucket>, bs': seq<Bucket>)
    requires bs <= bs' && forall b :: |bs| <= b < |bs'| ==> bs'[b] == EmptyBucket
    requires ParentClosed(bs) && FillsUnderLock(bs) && LocksExclusive(bs)
    ensures ParentClosed(bs') && FillsUnderLock(bs') && LocksExclusive(bs')
  {
    assert forall b :: 0 <= b < |bs| ==> bs'[b] == bs[b];
    forall b | 0 <= b < |bs'|
      ensures FillsAt(bs', b)
    {
      if b < |bs| {
        assert FillsAt(bs, b);
      }
    }
  }

  lemma GrownNodesAtHome(bs: seq<Bucket>, bs': seq<Bucket>)
    requires bs <= bs' && (forall b :: |bs| <= b < |bs'| ==> bs'[b] == EmptyBucket) && NodesAtHome(bs)
    ensures NodesAtHome(bs')
  {
    assert forall b :: 0 <= b < |bs| ==> bs'[b] == bs[b];
    forall d, m | 0 <= d < |bs'| && m in bs'[d].nodes
      ensures NodeAtHome(bs', d, m)
    {
      assert NodeAtHome(bs, d, m);
    }
  }

  lemma GrownKeysUnique(bs: seq<Bucket>, bs': seq<Bucket>)
    requires bs <= bs' && (forall b :: |bs| <= b < |bs'| ==> bs'[b] == EmptyBucket) && KeysUnique(bs)
    ensures KeysUnique(bs')
  {
    assert forall b :: 0 <= b < |bs| ==> bs'[b] == bs[b];
    assert forall b :: |bs| <= b < |bs'| ==> bs'[b].nodes == {};
  }

  lemma GrowKeepsInv(s: State, t: Tid, s': State)
    requires Inv(s) && t < |s.threads| && EnableSegment(s, t, s')
    ensures Inv(s')
  {
    GrownNodes(s.buckets, s'.buckets);
    assert s.growing == Some(t) by { assert ThreadInv(s, t); }
    forall b | 0 <= b < |s'.buckets|
      ensures BucketOwners(s', b)
    {
      if b < |s.buckets| {
        assert BucketOwners(s, b);
      }
    }
    assert ThreadInv(s', t) by { assert ThreadInv(s, t); }
    StepKeepsInv(s, s', t);
  }

  // ---------------------------------------------------------------- every step

  lemma InitHasInv(s: State)
    requires Init(s)
    ensures Inv(s)
  {
    assert Pow2(1) == 2 * Pow2(0) == 2;
  }

  lemma NextKeepsInv(s: State, t: Tid, l: Label, s': State)
    requires Inv(s) && Next(s, t, l, s')
    ensures Inv(s')
  {
    if CheckStep(s, t, l, s') {
      var th := s.threads[t];
      if CheckMask(s, t, l, s') {
        if Low(th.op.key.hash, th.m) == Low(th.op.key.hash, s.level) {
          SameMaskKeepsInv(s, t, l, s');
        } else {
          LoadChildKeepsInv(s, t, l, s');
        }
      } else if s.buckets[th.pc.c].flag.RehashReq? {
        NoCollisionKeepsInv(s, t, l, s');
      } else {
        RestartKeepsInv(s, t, l, s');
      }
    } else if NodeStep(s, t, l, s') {
      if LinkNode(s, t, l, s') {
        LinkKeepsInv(s, t, l, s');
      } else if n :| SearchHit(s, t, n, l, s') {
        HitKeepsInv(s, t, n, l, s');
      } else {
        var n :| UnlinkNode(s, t, n, l, s');
        UnlinkKeepsInv(s, t, n, l, s');
      }
    } else {
      InternalKeepsInv(s, t, l, s');
    }
  }

  lemma InternalKeepsInv(s: State, t: Tid, l: Label, s': State)
    requires Inv(s) && t < |s.threads| && InternalStep(s, t, l, s')
    ensures Inv(s')
  {
    match s.threads[t].pc
    case FlagCheck(_) => ControlStepsKeepInv(s, t, s');
    case TryLock(b) =>
      if Free(s.buckets[b]) { TryAcquireWins(s, t, s'); } else { TryAcquireLoses(s, t, s'); }
    case Recheck(b) =>
      if s.buckets[b].flag.RehashReq? { MarkKeepsInv(s, t, s'); } else { RecheckUses(s, t, s'); }
    case Block(_) => AcquireReadKeepsInv(s, t, s');
    case Scan(_, _) =>
      if n :| MoveNode(s, t, n, s') { MoveKeepsInv(s, t, n, s'); }
      else if ScanUpgrade(s, t, s') { ScanUpgradeKeepsInv(s, t, s'); }
      else { SettleKeepsInv(s, t, s'); }
    case ScanWait(_) => ScanRelockKeepsInv(s, t, s');
    case Search(_, _) => MissKeepsInv(s, t, s');
    case UpgradeWait(_) => RelockKeepsInv(s, t, s');
    case Claim(_) => { var loaded :| ClaimSegment(s, t, loaded, s'); ClaimKeepsInv(s, t, loaded, s'); }
    case Returning(_, _, _, _) => LeaveKeepsInv(s, t, s');
    case Grow(_, _) => GrowKeepsInv(s, t, s');
    case _ => ControlStepsKeepInv(s, t, s');
  }
}
