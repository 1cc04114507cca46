/** `concurrent_hash_map` under concurrency: threads, bucket locks, lazy splitting, growth.

    Each step is one access to shared memory, or a scan of a bucket whose lock is held
    for its whole duration.  Bucket locks are taken as given: many readers or one writer,
    `try_acquire` fails only while the lock is held, and an upgrade either waits for the
    other readers to leave or gives up the lock and takes it again. */
module HashMapProtocol {
  import opened Options
  import opened Bits
  import opened BucketChain

  type Tid = nat

  /** A key with its hash code; equal keys have equal hash codes. */
  datatype Key = Key(id: nat, hash: nat)
  datatype Node = Node(key: Key, val: int)

  /** `node_list == rehash_req` is `RehashReq`.  The code does not tell the other two apart:
      `Marked` is a bucket whose splitting thread has not yet finished. */
  datatype Flag = RehashReq | Marked(owner: Tid) | Settled

  datatype Bucket = Bucket(flag: Flag, nodes: set<Node>, writer: Option<Tid>, readers: set<Tid>) {
    predicate HeldBy(t: Tid) {
      writer == Some(t) || t in readers
    }
    predicate Has(k: Key) {
      exists n :: n in nodes && n.key == k
    }
  }

  datatype Op = Find(key: Key) | Insert(key: Key, val: int) | Erase(key: Key)

  datatype Pc =
    | Idle
    | ReadMask                                            // m = my_mask
    | FlagCheck(b: nat)                                   // node_list == rehash_req, without the lock
    | TryLock(b: nat)                                     // try_acquire( mutex, write )
    | Recheck(b: nat)                                     // node_list == rehash_req, as writer
    | Block(b: nat)                                       // acquire( mutex, read )
    | Scan(b: nat, w: bool)                               // rehash_bucket: scanning the parent
    | ScanWait(b: nat)                                    // rehash_bucket: contended upgrade
    | Search(b: nat, w: bool)                             // search_bucket
    | UpgradeWait(b: nat)                                 // contended upgrade
    | MaskCheck(b: nat, w: bool, absent: bool)            // check_mask_race: reload the mask
    | FlagLoad(b: nat, w: bool, absent: bool, c: nat)     // check_rehashing_collision: flag of c
    | Link(b: nat)                                        // add_to_bucket
    | Claim(b: nat)                                       // load factor, claim of the next segment
    | Unlink(b: nat)                                      // *p = n->next
    | Returning(b: nat, w: bool, result: bool, grow: nat) // leaving the lock scope
    | Grow(grow: nat, result: bool)                       // enable_segment( grow )
    | Done(result: bool)

  datatype Thread = Thread(op: Op, m: nat, stack: seq<nat>, pc: Pc)

  datatype State = State(level: nat, growing: Option<Tid>, buckets: seq<Bucket>, threads: seq<Thread>)

  /** What a step does to the abstract map, if it is the point at which a call takes effect. */
  datatype Label =
    | Tau
    | Read(key: Key, found: Option<int>)
    | Inserted(key: Key, val: int, isNew: bool)
    | Erased(key: Key, removed: bool)

  function Push(th: Thread, b: nat): Thread {
    th.(stack := th.stack + [b])
  }

  function SetPc(s: State, t: Tid, pc: Pc): State
    requires t < |s.threads|
  {
    s.(threads := s.threads[t := s.threads[t].(pc := pc)])
  }

  function SetBucket(s: State, b: nat, k: Bucket): State
    requires b < |s.buckets|
  {
    s.(buckets := s.buckets[b := k])
  }

  function Release(k: Bucket, t: Tid, w: bool): Bucket {
    if w then k.(writer := None) else k.(readers := k.readers - {t})
  }

  predicate Free(k: Bucket) {
    k.writer.None? && k.readers == {}
  }

  /** The only lock on the bucket is a read lock of `t`. */
  predicate OnlyReader(k: Bucket, t: Tid) {
    k.writer.None? && k.readers == {t}
  }

  /** Mask width once segment `k` is enabled: segments 1 to 7 are allocated together. */
  function EnabledLevel(k: nat): nat {
    if k < 8 then 8 else k + 1
  }

  // ---------------------------------------------------------------- steps

  predicate Begin(s: State, t: Tid, op: Op, s': State)
    requires t < |s.threads|
  {
    && s.threads[t].pc.Idle?
    && s' == s.(threads := s.threads[t := Thread(op, 1, [], ReadMask)])
  }

  predicate End(s: State, t: Tid, s': State)
    requires t < |s.threads|
  {
    s.threads[t].pc.Done? && s' == SetPc(s, t, Idle)
  }

  predicate LoadMask(s: State, t: Tid, s': State)
    requires t < |s.threads|
  {
    var th := s.threads[t];
    && th.pc.ReadMask?
    && s' == s.(threads := s.threads[t := th.(m := s.level, pc := FlagCheck(Low(th.op.key.hash, s.level)))])
  }

  /** `bucket_accessor::acquire`, the first look at the flag. */
  predicate CheckFlag(s: State, t: Tid, s': State)
    requires t < |s.threads|
  {
    var pc := s.threads[t].pc;
    && pc.FlagCheck? && pc.b < |s.buckets|
    && s' == SetPc(s, t, if s.buckets[pc.b].flag.RehashReq? then TryLock(pc.b) else Block(pc.b))
  }

  predicate TryAcquire(s: State, t: Tid, s': State)
    requires t < |s.threads|
  {
    var pc := s.threads[t].pc;
    && pc.TryLock? && pc.b < |s.buckets|
    && var k := s.buckets[pc.b];
    s' == if Free(k)
          then SetPc(SetBucket(s, pc.b, k.(writer := Some(t))), t, Recheck(pc.b))
          else SetPc(s, t, Block(pc.b))
  }

  /** What follows once the accessor for bucket `b` is ready. */
  function Acquired(th: Thread, b: nat, w: bool): Thread {
    th.(pc := if th.stack == [] then Search(b, w) else Scan(b, w))
  }

  /** The double-checked flag: mark the bucket and go on to its parent, or use the bucket. */
  predicate RecheckFlag(s: State, t: Tid, s': State)
    requires t < |s.threads|
  {
    var th := s.threads[t];
    && th.pc.Recheck? && th.pc.b < |s.buckets|
    && var b := th.pc.b;
    var k := s.buckets[b];
    if k.flag.RehashReq? then
      && b >= 2
      && s' == SetBucket(s, b, k.(flag := Marked(t))).(
                 threads := s.threads[t := Push(th, b).(pc := FlagCheck(Parent(b)))])
    else
      s' == s.(threads := s.threads[t := Acquired(th, b, true)])
  }

  predicate AcquireRead(s: State, t: Tid, s': State)
    requires t < |s.threads|
  {
    var th := s.threads[t];
    && th.pc.Block? && th.pc.b < |s.buckets|
    && var b := th.pc.b;
    var k := s.buckets[b];
    && k.writer.None?
    && s' == SetBucket(s, b, k.(readers := k.readers + {t})).(
               threads := s.threads[t := Acquired(th, b, false)])
  }

  /** The node test of `rehash_bucket`: `(c & mask) == h`. */
  predicate Belongs(n: Node, b: nat) {
    OnChain(n.key.hash, b)
  }

  predicate MoveNode(s: State, t: Tid, n: Node, s': State)
    requires t < |s.threads|
  {
    var th := s.threads[t];
    && th.pc.Scan? && th.pc.w && th.stack != [] && th.pc.b < |s.buckets|
    && var c := th.stack[|th.stack| - 1];
    && c < |s.buckets| && c != th.pc.b
    && n in s.buckets[th.pc.b].nodes && Belongs(n, c)
    && var k := s.buckets[th.pc.b];
    var k' := s.buckets[c];
    s' == SetBucket(SetBucket(s, th.pc.b, k.(nodes := k.nodes - {n})), c, k'.(nodes := k'.nodes + {n}))
  }

  /** Upgrade inside `rehash_bucket`, uninterrupted or by giving up the read lock. */
  predicate ScanUpgrade(s: State, t: Tid, s': State)
    requires t < |s.threads|
  {
    var th := s.threads[t];
    && th.pc.Scan? && !th.pc.w && th.stack != [] && th.pc.b < |s.buckets|
    && var k := s.buckets[th.pc.b];
    && (exists n :: n in k.nodes && Belongs(n, th.stack[|th.stack| - 1]))
    && (|| (OnlyReader(k, t)
            && s' == SetPc(SetBucket(s, th.pc.b, k.(writer := Some(t), readers := {})), t, Scan(th.pc.b, true)))
        || s' == SetPc(SetBucket(s, th.pc.b, Release(k, t, false)), t, ScanWait(th.pc.b)))
  }

  predicate ScanRelock(s: State, t: Tid, s': State)
    requires t < |s.threads|
  {
    var pc := s.threads[t].pc;
    && pc.ScanWait? && pc.b < |s.buckets|
    && Free(s.buckets[pc.b])
    && s' == SetPc(SetBucket(s, pc.b, s.buckets[pc.b].(writer := Some(t))), t, Scan(pc.b, true))
  }

  /** The scan is over: the parent is released and the new bucket is complete. */
  predicate Settle(s: State, t: Tid, s': State)
    requires t < |s.threads|
  {
    var th := s.threads[t];
    && th.pc.Scan? && th.stack != [] && th.pc.b < |s.buckets|
    && var c := th.stack[|th.stack| - 1];
    && c < |s.buckets| && c != th.pc.b
    && var k := s.buckets[th.pc.b];
    && (forall n :: n in k.nodes ==> !Belongs(n, c))
    && s' == SetBucket(SetBucket(s, th.pc.b, Release(k, t, th.pc.w)), c, s.buckets[c].(flag := Settled)).(
               threads := s.threads[t := Acquired(th.(stack := th.stack[..|th.stack| - 1]), c, true)])
  }

  /** `search_bucket` found node `n`. */
  predicate SearchHit(s: State, t: Tid, n: Node, l: Label, s': State)
    requires t < |s.threads|
  {
    var th := s.threads[t];
    && th.pc.Search? && th.pc.b < |s.buckets|
    && var b, w := th.pc.b, th.pc.w;
    var k := s.buckets[b];
    && n in k.nodes && n.key == th.op.key
    && match th.op
       case Find(key) =>
         l == Read(key, Some(n.val)) && s' == SetPc(s, t, Returning(b, w, true, 0))
       case Insert(key, val) =>
         l == Inserted(key, val, false) && s' == SetPc(s, t, Returning(b, w, false, 0))
       case Erase(key) =>
         && l == Tau
         && if w then s' == SetPc(s, t, Unlink(b))
            else || (OnlyReader(k, t)
                     && s' == SetPc(SetBucket(s, b, k.(writer := Some(t), readers := {})), t, Unlink(b)))
                 || s' == SetPc(SetBucket(s, b, Release(k, t, false)), t, UpgradeWait(b))
  }

  /** `search_bucket` found nothing; an insertion becomes a writer before it checks the mask. */
  predicate SearchMiss(s: State, t: Tid, s': State)
    requires t < |s.threads|
  {
    var th := s.threads[t];
    && th.pc.Search? && th.pc.b < |s.buckets|
    && var b, w := th.pc.b, th.pc.w;
    var k := s.buckets[b];
    && !k.Has(th.op.key)
    && if !th.op.Insert? || w then s' == SetPc(s, t, MaskCheck(b, w, true))
       else || (OnlyReader(k, t)
                && s' == SetPc(SetBucket(s, b, k.(writer := Some(t), readers := {})), t, MaskCheck(b, true, true)))
            || s' == SetPc(SetBucket(s, b, Release(k, t, false)), t, UpgradeWait(b))
  }

  /** End of a contended upgrade: an insertion searches again, an erasure checks the mask. */
  predicate Relock(s: State, t: Tid, s': State)
    requires t < |s.threads|
  {
    var th := s.threads[t];
    && th.pc.UpgradeWait? && th.pc.b < |s.buckets|
    && Free(s.buckets[th.pc.b])
    && s' == SetPc(SetBucket(s, th.pc.b, s.buckets[th.pc.b].(writer := Some(t))), t,
                   if th.op.Erase? then MaskCheck(th.pc.b, true, false) else Search(th.pc.b, true))
  }

  /** Where the code goes when `check_mask_race` returned false. */
  predicate NoRace(s: State, t: Tid, th: Thread, b: nat, w: bool, absent: bool, l: Label, s': State)
    requires t < |s.threads|
  {
    if !absent then
      l == Tau && s' == s.(threads := s.threads[t := th.(pc := Search(b, w))])
    else match th.op
      case Find(key) =>
        && l == Read(key, None)
        && s' == s.(threads := s.threads[t := th.(pc := Returning(b, w, false, 0))])
      case Erase(key) =>
        && l == Erased(key, false)
        && s' == s.(threads := s.threads[t := th.(pc := Returning(b, w, false, 0))])
      case Insert(_, _) =>
        l == Tau && s' == s.(threads := s.threads[t := th.(pc := Link(b))])
  }

  /** `check_mask_race`: reload the mask; a changed mask is remembered in any case. */
  predicate CheckMask(s: State, t: Tid, l: Label, s': State)
    requires t < |s.threads|
  {
    var th := s.threads[t];
    && th.pc.MaskCheck? && 1 <= th.m <= s.level
    && var h := th.op.key.hash;
    if Low(h, th.m) == Low(h, s.level) then
      NoRace(s, t, th.(m := s.level), th.pc.b, th.pc.w, th.pc.absent, l, s')
    else
      && l == Tau
      && s' == s.(threads := s.threads[t :=
                 th.(m := s.level, pc := FlagLoad(th.pc.b, th.pc.w, th.pc.absent, NextChild(h, th.m, s.level)))])
  }

  /** `check_rehashing_collision`: was the next applicable bucket rehashed meanwhile? */
  predicate CheckCollision(s: State, t: Tid, l: Label, s': State)
    requires t < |s.threads|
  {
    var th := s.threads[t];
    && th.pc.FlagLoad? && th.pc.c < |s.buckets| && th.pc.b < |s.buckets|
    && if s.buckets[th.pc.c].flag.RehashReq? then
         NoRace(s, t, th, th.pc.b, th.pc.w, th.pc.absent, l, s')
       else
         && l == Tau
         && s' == SetPc(SetBucket(s, th.pc.b, Release(s.buckets[th.pc.b], t, th.pc.w)), t,
                        FlagCheck(Low(th.op.key.hash, th.m)))
  }

  predicate LinkNode(s: State, t: Tid, l: Label, s': State)
    requires t < |s.threads|
  {
    var th := s.threads[t];
    && th.pc.Link? && th.op.Insert? && th.pc.b < |s.buckets|
    && var k := s.buckets[th.pc.b];
    && l == Inserted(th.op.key, th.op.val, true)
    && s' == SetPc(SetBucket(s, th.pc.b, k.(nodes := k.nodes + {Node(th.op.key, th.op.val)})), t, Claim(th.pc.b))
  }

  /** If the load factor is reached, claim the segment after mask `m`: the claim fails
      when that segment is there already or is being allocated. */
  predicate ClaimSegment(s: State, t: Tid, loaded: bool, s': State)
    requires t < |s.threads|
  {
    var th := s.threads[t];
    && th.pc.Claim?
    && if loaded && th.m == s.level && s.growing.None?
       then s' == SetPc(s, t, Returning(th.pc.b, true, true, th.m)).(growing := Some(t))
       else s' == SetPc(s, t, Returning(th.pc.b, true, true, 0))
  }

  predicate UnlinkNode(s: State, t: Tid, n: Node, l: Label, s': State)
    requires t < |s.threads|
  {
    var th := s.threads[t];
    && th.pc.Unlink? && th.op.Erase? && th.pc.b < |s.buckets|
    && var k := s.buckets[th.pc.b];
    && n in k.nodes && n.key == th.op.key
    && l == Erased(th.op.key, true)
    && s' == SetPc(SetBucket(s, th.pc.b, k.(nodes := k.nodes - {n})), t, Returning(th.pc.b, true, true, 0))
  }

  predicate LeaveScope(s: State, t: Tid, s': State)
    requires t < |s.threads|
  {
    var pc := s.threads[t].pc;
    && pc.Returning? && pc.b < |s.buckets|
    && s' == SetPc(SetBucket(s, pc.b, Release(s.buckets[pc.b], t, pc.w)), t,
                   if pc.grow != 0 then Grow(pc.grow, pc.result) else Done(pc.result))
  }

  const EmptyBucket := Bucket(RehashReq, {}, None, {})

  /** `enable_segment`: the new buckets wait to be rehashed; then the mask is published. */
  predicate EnableSegment(s: State, t: Tid, s': State)
    requires t < |s.threads|
  {
    var pc := s.threads[t].pc;
    && pc.Grow?
    && |s.buckets| <= Pow2(EnabledLevel(pc.grow))
    && s' == SetPc(s, t, Done(pc.result)).(
               level := EnabledLevel(pc.grow), growing := None,
               buckets := s.buckets + seq(Pow2(EnabledLevel(pc.grow)) - |s.buckets|, _ => EmptyBucket))
  }

  ghost predicate Next(s: State, t: Tid, l: Label, s': State) {
    && t < |s.threads|
    && (InternalStep(s, t, l, s') || CheckStep(s, t, l, s') || NodeStep(s, t, l, s'))
  }

  ghost predicate InternalStep(s: State, t: Tid, l: Label, s': State)
    requires t < |s.threads|
  {
    l == Tau && (CallStep(s, t, s') || AcquireStep(s, t, s') || RehashStep(s, t, s') || WriterStep(s, t, s'))
  }

  ghost predicate CallStep(s: State, t: Tid, s': State)
    requires t < |s.threads|
  {
    || (exists op :: Begin(s, t, op, s'))
    || End(s, t, s')
    || LoadMask(s, t, s')
    || (exists loaded :: ClaimSegment(s, t, loaded, s'))
    || LeaveScope(s, t, s')
    || EnableSegment(s, t, s')
  }

  predicate AcquireStep(s: State, t: Tid, s': State)
    requires t < |s.threads|
  {
    CheckFlag(s, t, s') || TryAcquire(s, t, s') || RecheckFlag(s, t, s') || AcquireRead(s, t, s')
  }

  ghost predicate RehashStep(s: State, t: Tid, s': State)
    requires t < |s.threads|
  {
    (exists n :: MoveNode(s, t, n, s')) || ScanUpgrade(s, t, s') || ScanRelock(s, t, s') || Settle(s, t, s')
  }

  predicate WriterStep(s: State, t: Tid, s': State)
    requires t < |s.threads|
  {
    SearchMiss(s, t, s') || Relock(s, t, s')
  }

  predicate CheckStep(s: State, t: Tid, l: Label, s': State)
    requires t < |s.threads|
  {
    CheckMask(s, t, l, s') || CheckCollision(s, t, l, s')
  }

  ghost predicate NodeStep(s: State, t: Tid, l: Label, s': State)
    requires t < |s.threads|
  {
    || (exists n :: SearchHit(s, t, n, l, s'))
    || LinkNode(s, t, l, s')
    || (exists n :: UnlinkNode(s, t, n, l, s'))
  }

  ghost predicate Init(s: State) {
    && s.level == 1 && s.growing.None?
    && s.buckets == [Bucket(Settled, {}, None, {}), Bucket(Settled, {}, None, {})]
    && forall t :: 0 <= t < |s.threads| ==> s.threads[t].pc.Idle? && s.threads[t].stack == [] && s.threads[t].m == 1
  }
}
