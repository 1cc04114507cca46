/** The threads of the hash map protocol never all wait for one another, and a table at rest
    has every node where a serial search looks for it. */
module HashMapProgress {
  import opened Options
  import opened Bits
  import opened BucketChain
  import opened HashMapProtocol
  import opened HashMapSafety

  /** The thread waits for a lock that another thread holds. */
  predicate WaitsForLock(s: State, t: Tid)
    requires t < |s.threads|
  {
    match s.threads[t].pc
    case Block(b) => b < |s.buckets| && s.buckets[b].writer.Some?
    case ScanWait(b) => b < |s.buckets| && !Free(s.buckets[b])
    case UpgradeWait(b) => b < |s.buckets| && !Free(s.buckets[b])
    case _ => false
  }

  lemma SearchProceeds(s: State, t: Tid)
    requires Inv(s) && t < |s.threads| && s.threads[t].pc.Search?
    ensures exists l, s' :: Next(s, t, l, s')
  {
    var th := s.threads[t];
    var b, w := th.pc.b, th.pc.w;
    assert PcInv(s, t) by { assert ThreadInv(s, t); }
    var k := s.buckets[b];
    if k.Has(th.op.key) {
      var n :| n in k.nodes && n.key == th.op.key;
      var s' := match th.op
        case Find(_) => SetPc(s, t, Returning(b, w, true, 0))
        case Insert(_, _) => SetPc(s, t, Returning(b, w, false, 0))
        case Erase(_) => if w then SetPc(s, t, Unlink(b))
                         else SetPc(SetBucket(s, b, Release(k, t, false)), t, UpgradeWait(b));
      var l := match th.op
        case Find(key) => Read(key, Some(n.val))
        case Insert(key, val) => Inserted(key, val, false)
        case Erase(_) => Tau;
      assert SearchHit(s, t, n, l, s');
      assert Next(s, t, l, s');
    } else {
      var s' := if !th.op.Insert? || w then SetPc(s, t, MaskCheck(b, w, true))
                else SetPc(SetBucket(s, b, Release(k, t, false)), t, UpgradeWait(b));
      assert SearchMiss(s, t, s');
      assert Next(s, t, Tau, s');
    }
  }

  lemma ScanProceeds(s: State, t: Tid)
    requires Inv(s) && t < |s.threads| && s.threads[t].pc.Scan?
    ensures exists l, s' :: Next(s, t, l, s')
  {
    ScanFacts(s, t);
    var th := s.threads[t];
    var b, c := th.pc.b, th.stack[|th.stack| - 1];
    assert ScanState(s, t, b, c);
    var k, k' := s.buckets[b], s.buckets[c];
    if n :| n in k.nodes && Belongs(n, c) {
      if th.pc.w {
        var s' := SetBucket(SetBucket(s, b, k.(nodes := k.nodes - {n})), c, k'.(nodes := k'.nodes + {n}));
        assert MoveNode(s, t, n, s');
        assert Next(s, t, Tau, s');
      } else {
        var s' := SetPc(SetBucket(s, b, Release(k, t, false)), t, ScanWait(b));
        assert ScanUpgrade(s, t, s');
        assert Next(s, t, Tau, s');
      }
    } else {
      var s' := SetBucket(SetBucket(s, b, Release(k, t, th.pc.w)), c, s.buckets[c].(flag := Settled)).(
                  threads := s.threads[t := Acquired(th.(stack := th.stack[..|th.stack| - 1]), c, true)]);
      assert Settle(s, t, s');
      assert Next(s, t, Tau, s');
    }
  }

  lemma AcquireProceeds(s: State, t: Tid)
    requires Inv(s) && t < |s.threads| && !WaitsForLock(s, t)
    requires var pc := s.threads[t].pc; pc.FlagCheck? || pc.TryLock? || pc.Recheck? || pc.Block? || pc.ScanWait?
    ensures exists l, s' :: Next(s, t, l, s')
  {
    var th := s.threads[t];
    assert PcInv(s, t) by { assert ThreadInv(s, t); }
    var b := th.pc.b;
    var k := s.buckets[b];
    var s' :=
      if th.pc.FlagCheck? then
        SetPc(s, t, if k.flag.RehashReq? then TryLock(b) else Block(b))
      else if th.pc.TryLock? then
        if Free(k) then SetPc(SetBucket(s, b, k.(writer := Some(t))), t, Recheck(b)) else SetPc(s, t, Block(b))
      else if th.pc.Recheck? then
        if k.flag.RehashReq? then
          SetBucket(s, b, k.(flag := Marked(t))).(threads := s.threads[t := Push(th, b).(pc := FlagCheck(Parent(b)))])
        else s.(threads := s.threads[t := Acquired(th, b, true)])
      else if th.pc.Block? then
        SetBucket(s, b, k.(readers := k.readers + {t})).(threads := s.threads[t := Acquired(th, b, false)])
      else
        SetPc(SetBucket(s, b, k.(writer := Some(t))), t, Scan(b, true));
    assert AcquireStep(s, t, s') || ScanRelock(s, t, s');
    assert Next(s, t, Tau, s');
  }

  /** What the code does when `check_mask_race` returns false, as a state. */
  lemma NoRaceHasSuccessor(s: State, t: Tid, th: Thread, b: nat, w: bool, absent: bool) returns (l: Label, s': State)
    requires t < |s.threads|
    ensures NoRace(s, t, th, b, w, absent, l, s')
  {
    var pc := if !absent then Search(b, w) else if th.op.Insert? then Link(b) else Returning(b, w, false, 0);
    s' := s.(threads := s.threads[t := th.(pc := pc)]);
    l := if !absent || th.op.Insert? then Tau
         else if th.op.Find? then Read(th.op.key, None)
         else Erased(th.op.key, false);
  }

  lemma CheckProceeds(s: State, t: Tid)
    requires Inv(s) && t < |s.threads| && (s.threads[t].pc.MaskCheck? || s.threads[t].pc.FlagLoad?)
    ensures exists l, s' :: Next(s, t, l, s')
  {
    assert ThreadInv(s, t);
    var th := s.threads[t];
    var h, pc := th.op.key.hash, th.pc;
    var l, s' := Tau, s;
    if pc.MaskCheck? {
      if Low(h, th.m) == Low(h, s.level) {
        l, s' := NoRaceHasSuccessor(s, t, th.(m := s.level), pc.b, pc.w, pc.absent);
      } else {
        s' := s.(threads := s.threads[t :=
                th.(m := s.level, pc := FlagLoad(pc.b, pc.w, pc.absent, NextChild(h, th.m, s.level)))]);
      }
      assert CheckMask(s, t, l, s');
    } else {
      if s.buckets[pc.c].flag.RehashReq? {
        l, s' := NoRaceHasSuccessor(s, t, th, pc.b, pc.w, pc.absent);
      } else {
        s' := SetPc(SetBucket(s, pc.b, Release(s.buckets[pc.b], t, pc.w)), t, FlagCheck(Low(h, th.m)));
      }
      assert CheckCollision(s, t, l, s');
    }
    assert Next(s, t, l, s');
  }

  lemma NodeProceeds(s: State, t: Tid)
    requires Inv(s) && t < |s.threads| && (s.threads[t].pc.Link? || s.threads[t].pc.Unlink?)
    ensures exists l, s' :: Next(s, t, l, s')
  {
    assert PcInv(s, t) by { assert ThreadInv(s, t); }
    var th := s.threads[t];
    var b := th.pc.b;
    var k := s.buckets[b];
    if th.pc.Link? {
      var l := Inserted(th.op.key, th.op.val, true);
      var s' := SetPc(SetBucket(s, b, k.(nodes := k.nodes + {Node(th.op.key, th.op.val)})), t, Claim(b));
      assert LinkNode(s, t, l, s');
      assert Next(s, t, l, s');
    } else {
      var n :| n in k.nodes && n.key == th.op.key;
      var l := Erased(th.op.key, true);
      var s' := SetPc(SetBucket(s, b, k.(nodes := k.nodes - {n})), t, Returning(b, true, true, 0));
      assert UnlinkNode(s, t, n, l, s');
      assert Next(s, t, l, s');
    }
  }

  lemma CallProceeds(s: State, t: Tid)
    requires Inv(s) && t < |s.threads| && !WaitsForLock(s, t)
    requires var pc := s.threads[t].pc;
             pc.ReadMask? || pc.Claim? || pc.Returning? || pc.Grow? || pc.Done? || pc.UpgradeWait?
    ensures exists l, s' :: Next(s, t, l, s')
  {
    assert PcInv(s, t) by { assert ThreadInv(s, t); }
    var th := s.threads[t];
    var pc := th.pc;
    if pc.Grow? {
      Pow2Monotone(s.level, EnabledLevel(pc.grow));
    }
    var s' :=
      if pc.ReadMask? then
        s.(threads := s.threads[t := th.(m := s.level, pc := FlagCheck(Low(th.op.key.hash, s.level)))])
      else if pc.Claim? then
        SetPc(s, t, Returning(pc.b, true, true, 0))
      else if pc.Returning? then
        SetPc(SetBucket(s, pc.b, Release(s.buckets[pc.b], t, pc.w)), t,
              if pc.grow != 0 then Grow(pc.grow, pc.result) else Done(pc.result))
      else if pc.Grow? then
        SetPc(s, t, Done(pc.result)).(level := EnabledLevel(pc.grow), growing := None,
          buckets := s.buckets + seq(Pow2(EnabledLevel(pc.grow)) - |s.buckets|, _ => EmptyBucket))
      else if pc.UpgradeWait? then
        SetPc(SetBucket(s, pc.b, s.buckets[pc.b].(writer := Some(t))), t,
              if th.op.Erase? then MaskCheck(pc.b, true, false) else Search(pc.b, true))
      else
        SetPc(s, t, Idle);
    assert pc.Claim? ==> ClaimSegment(s, t, false, s');
    assert CallStep(s, t, s') || Relock(s, t, s');
    assert Next(s, t, Tau, s');
  }

  /** In every reachable state a thread in a call can take a step, unless it waits for a lock.
      So no guard fails that the code only asserts: a bucket used is always rehashed, a bucket
      rehashed is never one of the two lowest, and growth always adds the next segment. */
  lemma ProceedsUnlessWaiting(s: State, t: Tid)
    requires Inv(s) && t < |s.threads| && !s.threads[t].pc.Idle? && !WaitsForLock(s, t)
    ensures exists l, s' :: Next(s, t, l, s')
  {
    match s.threads[t].pc
    case Search(_, _) => SearchProceeds(s, t);
    case Scan(_, _) => ScanProceeds(s, t);
    case FlagCheck(_) => AcquireProceeds(s, t);
    case TryLock(_) => AcquireProceeds(s, t);
    case Recheck(_) => AcquireProceeds(s, t);
    case Block(_) => AcquireProceeds(s, t);
    case ScanWait(_) => AcquireProceeds(s, t);
    case MaskCheck(_, _, _) => CheckProceeds(s, t);
    case FlagLoad(_, _, _, _) => CheckProceeds(s, t);
    case Link(_) => NodeProceeds(s, t);
    case Unlink(_) => NodeProceeds(s, t);
    case _ => CallProceeds(s, t);
  }

  /** The bucket whose lock a waiting thread waits for. */
  function Awaited(pc: Pc): nat {
    match pc
    case Block(b) => b
    case ScanWait(b) => b
    case UpgradeWait(b) => b
    case _ => 0
  }

  /** Some other thread holds the lock that a thread waits for. */
  lemma HolderOf(s: State, t: Tid) returns (u: Tid)
    requires Inv(s) && t < |s.threads| && WaitsForLock(s, t)
    ensures u < |s.threads| && Awaited(s.threads[t].pc) < |s.buckets|
    ensures HoldsW(s.threads[u], Awaited(s.threads[t].pc)) || HoldsR(s.threads[u], Awaited(s.threads[t].pc))
  {
    var b := Awaited(s.threads[t].pc);
    assert BucketOwners(s, b);
    if s.buckets[b].writer.Some? {
      u := s.buckets[b].writer.value;
    } else {
      u :| u in s.buckets[b].readers;
    }
  }

  lemma {:induction false} StackBelow(s: State, u: Tid, i: nat)
    requires u < |s.threads| && StackInv(s, u) && i < |s.threads[u].stack|
    ensures s.threads[u].stack[|s.threads[u].stack| - 1] <= s.threads[u].stack[i]
    decreases |s.threads[u].stack| - i
  {
    var stack := s.threads[u].stack;
    if i + 1 < |stack| {
      assert stack[i + 1] == Parent(stack[i]);
      StackBelow(s, u, i + 1);
    }
  }

  /** A thread that holds a lock and waits for another one waits for a bucket of smaller index. */
  lemma WaitsBelow(s: State, u: Tid, b: nat)
    requires Inv(s) && u < |s.threads| && WaitsForLock(s, u)
    requires HoldsW(s.threads[u], b) || HoldsR(s.threads[u], b)
    ensures Awaited(s.threads[u].pc) < b
  {
    assert StackInv(s, u) && PcInv(s, u) by { assert ThreadInv(s, u); }
    var stack := s.threads[u].stack;
    assert b in stack;
    var i :| 0 <= i < |stack| && stack[i] == b;
    StackBelow(s, u, i);
    assert stack[|stack| - 1] >= 2;
  }

  /** Behind every waiting thread there is one in a call that does not wait. */
  lemma {:induction false} BehindEveryWait(s: State, t: Tid) returns (u: Tid)
    requires Inv(s) && t < |s.threads| && WaitsForLock(s, t)
    ensures u < |s.threads| && !s.threads[u].pc.Idle? && !WaitsForLock(s, u)
    decreases Awaited(s.threads[t].pc)
  {
    var b := Awaited(s.threads[t].pc);
    u := HolderOf(s, t);
    if WaitsForLock(s, u) {
      WaitsBelow(s, u, b);
      u := BehindEveryWait(s, u);
    } else if s.threads[u].pc.Idle? {
      assert PcInv(s, u) by { assert ThreadInv(s, u); }
      assert false;
    }
  }

  /** There is no deadlock: unless all threads are idle, one that is not can take a step. */
  lemma NeverStuck(s: State, t: Tid) returns (u: Tid)
    requires Inv(s) && t < |s.threads| && !s.threads[t].pc.Idle?
    ensures u < |s.threads| && !s.threads[u].pc.Idle? && exists l, s' :: Next(s, u, l, s')
  {
    u := t;
    if WaitsForLock(s, t) {
      u := BehindEveryWait(s, t);
    }
    ProceedsUnlessWaiting(s, u);
  }

  // ---------------------------------------------------------------- a table at rest

  /** `internal_equal_range`: the first rehashed bucket on the way up from `b`. */
  function HomeFrom(bs: seq<Bucket>, b: nat): nat
    requires b < |bs|
  {
    if b < 2 || !bs[b].flag.RehashReq? then b else HomeFrom(bs, Parent(b))
  }

  lemma AtRestUnmarked(s: State, b: nat)
    requires Inv(s) && b < |s.buckets|
    requires forall t :: 0 <= t < |s.threads| ==> s.threads[t].pc.Idle?
    ensures !s.buckets[b].flag.Marked? && Free(s.buckets[b])
  {
    forall u | 0 <= u < |s.threads|
      ensures s.threads[u].stack == []
    {
      assert ThreadInv(s, u);
    }
    assert BucketOwners(s, b);
  }

  lemma {:induction false} HomeFromIsHome(bs: seq<Bucket>, h: nat, x: nat, b: nat)
    requires ParentClosed(bs) && x < |bs| && OnChain(h, x)
    requires IsSettled(bs, b) && OnChain(h, b) && NoDeeper(bs, h, b) && Depth(b) <= Depth(x)
    requires forall c :: 0 <= c < |bs| ==> !bs[c].flag.Marked?
    ensures HomeFrom(bs, x) == b
    decreases x
  {
    if Depth(b) < Depth(x) {
      ParentAdjacent(h, b, x);
      HomeFromIsHome(bs, h, Parent(x), b);
    } else {
      ChainUnique(h, b, x);
    }
  }

  /** When no call is in progress, every bucket is free and every node is in the bucket
      where a serial search of its key ends. */
  lemma AtRestNodesAreHome(s: State, b: nat, n: Node)
    requires Inv(s) && b < |s.buckets| && n in s.buckets[b].nodes
    requires forall t :: 0 <= t < |s.threads| ==> s.threads[t].pc.Idle?
    ensures Low(n.key.hash, s.level) < |s.buckets|
    ensures HomeFrom(s.buckets, Low(n.key.hash, s.level)) == b
  {
    forall c | 0 <= c < |s.buckets|
      ensures !s.buckets[c].flag.Marked?
    {
      AtRestUnmarked(s, c);
    }
    var h := n.key.hash;
    assert NodeAtHome(s.buckets, b, n);
    LowOnChain(h, s.level);
    var x := Low(h, s.level);
    if Depth(x) < Depth(b) {
      NothingBetween(h, s.level, s.level, b);
      assert false;
    }
    HomeFromIsHome(s.buckets, h, x, b);
  }
}
