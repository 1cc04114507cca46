/** Every run of the hash map protocol behaves like a finite map.

    A step refines at most one operation of a map, and every call takes effect in exactly one
    step between its begin and its end. */
module HashMapLinearizability {
  import opened Options
  import opened Bits
  import opened BucketChain
  import opened HashMapProtocol
  import opened HashMapSafety

  ghost function Contents(bs: seq<Bucket>): set<Node> {
    set b, n | 0 <= b < |bs| && n in bs[b].nodes :: n
  }

  ghost predicate UniqueKeys(c: set<Node>) {
    forall n, m :: n in c && m in c && n.key == m.key ==> n == m
  }

  ghost function ValueIn(c: set<Node>, k: Key): int
    requires exists n :: n in c && n.key == k
  {
    var n :| n in c && n.key == k; n.val
  }

  /** The finite map with one entry for each node. */
  ghost function MapOf(c: set<Node>): map<Key, int> {
    map k | k in (set n | n in c :: n.key) :: ValueIn(c, k)
  }

  lemma MapEntries(c: set<Node>)
    requires UniqueKeys(c)
    ensures forall n :: n in c ==> n.key in MapOf(c) && MapOf(c)[n.key] == n.val
    ensures forall k :: k in MapOf(c) ==> Node(k, MapOf(c)[k]) in c
  {
    forall k | k in MapOf(c)
      ensures Node(k, MapOf(c)[k]) in c
    {
      var n :| n in c && n.key == k;
      assert n == Node(k, n.val);
    }
  }

  lemma AddEntry(c: set<Node>, n: Node)
    requires UniqueKeys(c) && forall m :: m in c ==> m.key != n.key
    ensures UniqueKeys(c + {n}) && n.key !in MapOf(c) && MapOf(c + {n}) == MapOf(c)[n.key := n.val]
  {
    MapEntries(c);
    MapEntries(c + {n});
    var a, a' := MapOf(c)[n.key := n.val], MapOf(c + {n});
    forall k | k in a
      ensures k in a' && a'[k] == a[k]
    {
      assert Node(k, a[k]) in c + {n};
    }
    forall k | k in a'
      ensures k in a
    {
      assert Node(k, a'[k]) in c + {n};
    }
  }

  lemma RemoveEntry(c: set<Node>, n: Node)
    requires UniqueKeys(c) && n in c
    ensures UniqueKeys(c - {n}) && n.key in MapOf(c) && MapOf(c - {n}) == MapOf(c) - {n.key}
  {
    MapEntries(c);
    MapEntries(c - {n});
    var a, a' := MapOf(c) - {n.key}, MapOf(c - {n});
    forall k | k in a
      ensures k in a' && a'[k] == a[k]
    {
      assert Node(k, a[k]) in c - {n};
    }
    forall k | k in a'
      ensures k in a
    {
      assert Node(k, a'[k]) in c - {n};
    }
  }

  /** The finite map that a table stands for. */
  ghost function Table(bs: seq<Bucket>): map<Key, int> {
    MapOf(Contents(bs))
  }

  lemma ContentsUnique(bs: seq<Bucket>)
    requires KeysUnique(bs)
    ensures UniqueKeys(Contents(bs))
  {
  }

  /** A map operation and its result. */
  ghost predicate MapStep(a: map<Key, int>, l: Label, a': map<Key, int>) {
    match l
    case Tau => a' == a
    case Read(k, found) => a' == a && found == if k in a then Some(a[k]) else None
    case Inserted(k, v, isNew) => isNew == (k !in a) && a' == if isNew then a[k := v] else a
    case Erased(k, removed) => removed == (k in a) && a' == a - {k}
  }

  lemma SameNodesSameContents(bs: seq<Bucket>, bs': seq<Bucket>)
    requires |bs| <= |bs'|
    requires forall b :: 0 <= b < |bs| ==> bs'[b].nodes == bs[b].nodes
    requires forall b :: |bs| <= b < |bs'| ==> bs'[b].nodes == {}
    ensures Contents(bs) == Contents(bs')
  {
    forall n | n in Contents(bs)
      ensures n in Contents(bs')
    {
      var b :| 0 <= b < |bs| && n in bs[b].nodes;
      assert n in bs'[b].nodes;
    }
    forall n | n in Contents(bs')
      ensures n in Contents(bs)
    {
      var b :| 0 <= b < |bs'| && n in bs'[b].nodes;
      assert b < |bs|;
    }
  }

  lemma MovedSameContents(bs: seq<Bucket>, bs': seq<Bucket>, b: nat, c: nat, n: Node)
    requires Moved(bs, bs', b, c, n)
    ensures Contents(bs) == Contents(bs')
  {
    forall m | m in Contents(bs)
      ensures m in Contents(bs')
    {
      var d :| 0 <= d < |bs| && m in bs[d].nodes;
      assert m in bs'[if m == n then c else d].nodes;
    }
    forall m | m in Contents(bs')
      ensures m in Contents(bs)
    {
      var d :| 0 <= d < |bs'| && m in bs'[d].nodes;
      assert m in bs[if m == n then b else d].nodes;
    }
  }

  lemma LinkedContents(bs: seq<Bucket>, bs': seq<Bucket>, b: nat, n: Node)
    requires b < |bs| && NodesChanged(bs, bs', b, bs[b].nodes + {n})
    ensures Contents(bs') == Contents(bs) + {n}
  {
    forall m | m in Contents(bs')
      ensures m in Contents(bs) + {n}
    {
      var d :| 0 <= d < |bs'| && m in bs'[d].nodes;
      assert m == n || m in bs[d].nodes;
    }
    forall m | m in Contents(bs) + {n}
      ensures m in Contents(bs')
    {
      if m == n {
        assert m in bs'[b].nodes;
      } else {
        var d :| 0 <= d < |bs| && m in bs[d].nodes;
        assert m in bs'[d].nodes;
      }
    }
  }

  lemma UnlinkedContents(bs: seq<Bucket>, bs': seq<Bucket>, b: nat, n: Node)
    requires b < |bs| && NodesChanged(bs, bs', b, bs[b].nodes - {n}) && n in bs[b].nodes && KeysUnique(bs)
    ensures Contents(bs') == Contents(bs) - {n}
  {
    forall m | m in Contents(bs')
      ensures m in Contents(bs) - {n}
    {
      var d :| 0 <= d < |bs'| && m in bs'[d].nodes;
      assert m in bs[d].nodes;
    }
    forall m | m in Contents(bs) - {n}
      ensures m in Contents(bs')
    {
      var d :| 0 <= d < |bs| && m in bs[d].nodes;
      assert m in bs'[d].nodes;
    }
  }

  // ---------------------------------------------------------------- each step refines a map operation

  lemma LinkRefines(s: State, t: Tid, l: Label, s': State)
    requires Inv(s) && t < |s.threads| && LinkNode(s, t, l, s')
    ensures MapStep(Table(s.buckets), l, Table(s'.buckets))
  {
    var th := s.threads[t];
    var n := Node(th.op.key, th.op.val);
    assert PcInv(s, t) by { assert ThreadInv(s, t); }
    LinkedKeyIsNew(s, t);
    LinkedContents(s.buckets, s'.buckets, th.pc.b, n);
    ContentsUnique(s.buckets);
    AddEntry(Contents(s.buckets), n);
  }

  lemma UnlinkRefines(s: State, t: Tid, n: Node, l: Label, s': State)
    requires Inv(s) && t < |s.threads| && UnlinkNode(s, t, n, l, s')
    ensures MapStep(Table(s.buckets), l, Table(s'.buckets))
  {
    assert PcInv(s, t) by { assert ThreadInv(s, t); }
    UnlinkedContents(s.buckets, s'.buckets, s.threads[t].pc.b, n);
    ContentsUnique(s.buckets);
    RemoveEntry(Contents(s.buckets), n);
  }

  lemma HitSameNodes(s: State, t: Tid, n: Node, l: Label, s': State)
    requires t < |s.threads| && SearchHit(s, t, n, l, s')
    ensures Contents(s.buckets) == Contents(s'.buckets) && n in Contents(s.buckets)
  {
    SameNodesSameContents(s.buckets, s'.buckets);
  }

  lemma HitRefines(s: State, t: Tid, n: Node, l: Label, s': State)
    requires KeysUnique(s.buckets) && t < |s.threads| && SearchHit(s, t, n, l, s')
    ensures MapStep(Table(s.buckets), l, Table(s'.buckets))
  {
    ContentsUnique(s.buckets);
    MapEntries(Contents(s.buckets));
    HitSameNodes(s, t, n, l, s');
  }

  lemma KeyHasNode(bs: seq<Bucket>, k: Key) returns (d: nat, m: Node)
    requires KeysUnique(bs) && k in Table(bs)
    ensures d < |bs| && m in bs[d].nodes && m.key == k
  {
    ContentsUnique(bs);
    MapEntries(Contents(bs));
    m := Node(k, Table(bs)[k]);
    d :| 0 <= d < |bs| && m in bs[d].nodes;
  }

  lemma AbsentInBucket(s: State, t: Tid)
    requires Inv(s) && t < |s.threads|
    requires (s.threads[t].pc.MaskCheck? || s.threads[t].pc.FlagLoad?) && s.threads[t].pc.absent
    ensures s.threads[t].pc.b < |s.buckets| && !s.buckets[s.threads[t].pc.b].Has(s.threads[t].op.key)
  {
    assert ThreadInv(s, t);
  }

  /** The key of a call that finds no race after an unsuccessful search is not in the table. */
  lemma AbsentIsRight(s: State, t: Tid)
    requires Inv(s) && t < |s.threads|
    requires var th := s.threads[t]; var h := th.op.key.hash;
      || (th.pc.MaskCheck? && Low(h, th.m) == Low(h, s.level) && th.pc.absent)
      || (th.pc.FlagLoad? && th.pc.c < |s.buckets| && s.buckets[th.pc.c].flag.RehashReq? && th.pc.absent)
    ensures s.threads[t].op.key !in Table(s.buckets)
  {
    var th := s.threads[t];
    NoRaceAtHome(s, t);
    if th.op.key in Table(s.buckets) {
      var d, m := KeyHasNode(s.buckets, th.op.key);
      HomeHasItsNodes(s, t, th.pc.b, th.op.key.hash, d, m);
      AbsentInBucket(s, t);
    }
  }

  lemma CheckRefines(s: State, t: Tid, l: Label, s': State)
    requires Inv(s) && t < |s.threads| && CheckStep(s, t, l, s')
    ensures MapStep(Table(s.buckets), l, Table(s'.buckets))
  {
    SameNodesSameContents(s.buckets, s'.buckets);
    if !l.Tau? {
      AbsentIsRight(s, t);
      assert Table(s.buckets) - {s.threads[t].op.key} == Table(s.buckets);
    }
  }

  lemma MoveRefines(s: State, t: Tid, n: Node, s': State)
    requires Inv(s) && t < |s.threads| && MoveNode(s, t, n, s')
    ensures Table(s'.buckets) == Table(s.buckets)
  {
    MovedSameContents(s.buckets, s'.buckets, s.threads[t].pc.b, s.threads[t].stack[|s.threads[t].stack| - 1], n);
  }

  lemma InternalSameNodes(s: State, t: Tid, l: Label, s': State)
    requires t < |s.threads| && InternalStep(s, t, l, s') && !exists n :: MoveNode(s, t, n, s')
    ensures |s.buckets| <= |s'.buckets|
    ensures forall b :: 0 <= b < |s.buckets| ==> s'.buckets[b].nodes == s.buckets[b].nodes
    ensures forall b :: |s.buckets| <= b < |s'.buckets| ==> s'.buckets[b].nodes == {}
  {
  }

  lemma InternalRefines(s: State, t: Tid, l: Label, s': State)
    requires Inv(s) && t < |s.threads| && InternalStep(s, t, l, s')
    ensures MapStep(Table(s.buckets), l, Table(s'.buckets))
  {
    if n :| MoveNode(s, t, n, s') {
      MoveRefines(s, t, n, s');
    } else {
      InternalSameNodes(s, t, l, s');
      SameNodesSameContents(s.buckets, s'.buckets);
    }
  }

  /** The table refines a finite map: every step is an operation of the map or leaves it alone. */
  lemma StepRefines(s: State, t: Tid, l: Label, s': State)
    requires Inv(s) && Next(s, t, l, s')
    ensures Inv(s') && MapStep(Table(s.buckets), l, Table(s'.buckets))
  {
    NextKeepsInv(s, t, l, s');
    if CheckStep(s, t, l, s') {
      CheckRefines(s, t, l, s');
    } else if InternalStep(s, t, l, s') {
      InternalRefines(s, t, l, s');
    } else if LinkNode(s, t, l, s') {
      LinkRefines(s, t, l, s');
    } else if n :| SearchHit(s, t, n, l, s') {
      HitRefines(s, t, n, l, s');
    } else {
      var n :| UnlinkNode(s, t, n, l, s');
      UnlinkRefines(s, t, n, l, s');
    }
  }

  // ---------------------------------------------------------------- calls

  /** 0: outside a call, 1: the call has not taken effect, 2: it has. */
  function Phase(pc: Pc): nat {
    match pc
    case Idle => 0
    case Claim(_) => 2
    case Returning(_, _, _, _) => 2
    case Grow(_, _) => 2
    case Done(_) => 2
    case _ => 1
  }

  /** What a call will return, once it has taken effect. */
  function Result(pc: Pc): bool {
    match pc
    case Returning(_, _, r, _) => r
    case Grow(_, r) => r
    case Done(r) => r
    case _ => true
  }

  /** Label `l` is operation `op` with result `r`. */
  predicate Effect(l: Label, op: Op, r: bool) {
    match op
    case Find(k) => l.Read? && l.key == k && r == l.found.Some?
    case Insert(k, v) => l == Inserted(k, v, r)
    case Erase(k) => l == Erased(k, r)
  }

  /** A step of `t` starts a call, keeps it in its phase, gives it its effect, or ends it. */
  predicate PhaseChange(th: Thread, l: Label, th': Thread) {
    || (Phase(th.pc) == 0 && l == Tau && th' == Thread(th'.op, 1, [], ReadMask))
    || (Phase(th.pc) == 1 && th'.op == th.op && l == Tau && Phase(th'.pc) == 1)
    || (Phase(th.pc) == 1 && th'.op == th.op && Phase(th'.pc) == 2 && Effect(l, th.op, Result(th'.pc)))
    || (Phase(th.pc) == 2 && th'.op == th.op && l == Tau && Phase(th'.pc) == 2 && Result(th'.pc) == Result(th.pc))
    || (Phase(th.pc) == 2 && l == Tau && th.pc.Done? && Phase(th'.pc) == 0)
  }

  /** Only the thread that steps moves. */
  predicate OnlyMoves(s: State, t: Tid, s': State)
    requires t < |s.threads|
  {
    |s'.threads| == |s.threads| && s'.threads == s.threads[t := s'.threads[t]]
  }

  lemma CallPhase(s: State, t: Tid, s': State)
    requires t < |s.threads| && CallStep(s, t, s')
    ensures OnlyMoves(s, t, s') && PhaseChange(s.threads[t], Tau, s'.threads[t])
  {
  }

  lemma RehashPhase(s: State, t: Tid, s': State)
    requires t < |s.threads| && (AcquireStep(s, t, s') || RehashStep(s, t, s'))
    ensures OnlyMoves(s, t, s') && PhaseChange(s.threads[t], Tau, s'.threads[t])
  {
  }

  lemma WriterPhase(s: State, t: Tid, s': State)
    requires t < |s.threads| && WriterStep(s, t, s')
    ensures OnlyMoves(s, t, s') && PhaseChange(s.threads[t], Tau, s'.threads[t])
  {
  }

  lemma CheckPhase(s: State, t: Tid, l: Label, s': State)
    requires t < |s.threads| && PcInv(s, t) && CheckStep(s, t, l, s')
    ensures OnlyMoves(s, t, s') && PhaseChange(s.threads[t], l, s'.threads[t])
  {
  }

  lemma NodePhase(s: State, t: Tid, l: Label, s': State)
    requires t < |s.threads| && NodeStep(s, t, l, s')
    ensures OnlyMoves(s, t, s') && PhaseChange(s.threads[t], l, s'.threads[t])
  {
  }

  lemma PhaseStep(s: State, t: Tid, l: Label, s': State)
    requires Inv(s) && Next(s, t, l, s')
    ensures OnlyMoves(s, t, s') && PhaseChange(s.threads[t], l, s'.threads[t])
    ensures Phase(s.threads[t].pc) == 0 ==> Begin(s, t, s'.threads[t].op, s')
  {
    if InternalStep(s, t, l, s') {
      if CallStep(s, t, s') {
        CallPhase(s, t, s');
      } else if WriterStep(s, t, s') {
        WriterPhase(s, t, s');
      } else {
        RehashPhase(s, t, s');
      }
    } else if CheckStep(s, t, l, s') {
      assert PcInv(s, t) by { assert ThreadInv(s, t); }
      CheckPhase(s, t, l, s');
    } else {
      NodePhase(s, t, l, s');
    }
  }

  datatype Event = Event(t: Tid, l: Label)

  ghost predicate Run(ss: seq<State>, es: seq<Event>) {
    && |ss| == |es| + 1
    && Init(ss[0])
    && forall i :: 0 <= i < |es| ==> Next(ss[i], es[i].t, es[i].l, ss[i + 1])
  }

  lemma {:induction false} RunInv(ss: seq<State>, es: seq<Event>, j: nat)
    requires Run(ss, es) && j < |ss|
    ensures Inv(ss[j]) && |ss[j].threads| == |ss[0].threads|
  {
    if j == 0 {
      InitHasInv(ss[0]);
    } else {
      var i := j - 1;
      RunInv(ss, es, i);
      assert Next(ss[i], es[i].t, es[i].l, ss[i + 1]);
      NextKeepsInv(ss[i], es[i].t, es[i].l, ss[j]);
      PhaseStep(ss[i], es[i].t, es[i].l, ss[j]);
    }
  }

  /** The events of a run, in order, are the history of a map that starts empty. */
  lemma RunIsMapHistory(ss: seq<State>, es: seq<Event>, j: nat)
    requires Run(ss, es) && j < |es|
    ensures Inv(ss[0]) && Inv(ss[j]) && Inv(ss[j + 1])
    ensures Table(ss[0].buckets) == map[]
    ensures MapStep(Table(ss[j].buckets), es[j].l, Table(ss[j + 1].buckets))
  {
    RunInv(ss, es, 0);
    RunInv(ss, es, j);
    StepRefines(ss[j], es[j].t, es[j].l, ss[j + 1]);
    assert Contents(ss[0].buckets) == {};
  }

  /** The part of a run that thread `t` sees of itself. */
  ghost predicate OwnSteps(ss: seq<State>, es: seq<Event>, t: Tid) {
    && |ss| == |es| + 1
    && (forall x :: 0 <= x < |ss| ==> t < |ss[x].threads|)
    && Phase(ss[0].threads[t].pc) == 0
    && forall i :: 0 <= i < |es| ==>
      var th, th' := ss[i].threads[t], ss[i + 1].threads[t];
      if es[i].t == t then PhaseChange(th, es[i].l, th') else th' == th
  }

  lemma RunOwnSteps(ss: seq<State>, es: seq<Event>, t: Tid)
    requires Run(ss, es) && t < |ss[0].threads|
    ensures OwnSteps(ss, es, t)
  {
    forall x | 0 <= x < |ss|
      ensures t < |ss[x].threads|
    {
      RunInv(ss, es, x);
    }
    forall i | 0 <= i < |es|
      ensures if es[i].t == t then PhaseChange(ss[i].threads[t], es[i].l, ss[i + 1].threads[t])
              else ss[i + 1].threads[t] == ss[i].threads[t]
    {
      RunInv(ss, es, i);
      PhaseStep(ss[i], es[i].t, es[i].l, ss[i + 1]);
    }
  }

  /** Thread `t` began its present call at step `i` and is still in it at state `j`. */
  ghost predicate InCall(ss: seq<State>, es: seq<Event>, t: Tid, i: nat, j: nat) {
    && i < j < |ss| && j <= |es|
    && (forall x :: 0 <= x < |ss| ==> t < |ss[x].threads|)
    && es[i].t == t && ss[i].threads[t].pc.Idle?
    && forall x :: i < x <= j ==> !ss[x].threads[t].pc.Idle? && ss[x].threads[t].op == ss[j].threads[t].op
  }

  ghost predicate NoEffect(es: seq<Event>, t: Tid, i: nat, j: nat) {
    forall x :: i <= x < j && x < |es| && es[x].t == t ==> es[x].l == Tau
  }

  /** A call that has not taken effect has had none since it began. */
  lemma {:induction false} PendingCall(ss: seq<State>, es: seq<Event>, t: Tid, j: nat) returns (i: nat)
    requires OwnSteps(ss, es, t) && j < |ss| && Phase(ss[j].threads[t].pc) == 1
    ensures InCall(ss, es, t, i, j) && NoEffect(es, t, i, j)
  {
    if es[j - 1].t == t && Phase(ss[j - 1].threads[t].pc) == 0 {
      i := j - 1;
    } else {
      i := PendingCall(ss, es, t, j - 1);
    }
  }

  /** The call of `t` that began at `i` takes effect at step `k`, and only there. */
  ghost predicate TakesEffectOnce(ss: seq<State>, es: seq<Event>, t: Tid, i: nat, k: nat, j: nat) {
    && InCall(ss, es, t, i, j)
    && i < k < j && k < |es| && es[k].t == t
    && Effect(es[k].l, ss[j].threads[t].op, Result(ss[j].threads[t].pc))
    && NoEffect(es, t, i, k) && NoEffect(es, t, k + 1, j)
  }

  lemma {:induction false} EffectOf(ss: seq<State>, es: seq<Event>, t: Tid, j: nat) returns (i: nat, k: nat)
    requires OwnSteps(ss, es, t) && j < |ss| && Phase(ss[j].threads[t].pc) == 2
    ensures TakesEffectOnce(ss, es, t, i, k, j)
  {
    if es[j - 1].t == t && Phase(ss[j - 1].threads[t].pc) == 1 {
      k := j - 1;
      i := PendingCall(ss, es, t, k);
    } else {
      i, k := EffectOf(ss, es, t, j - 1);
    }
  }

  /** Linearizability: a call that returns has taken effect in exactly one step since it began,
      with the result that it returns. */
  lemma Linearizable(ss: seq<State>, es: seq<Event>, t: Tid, j: nat) returns (i: nat, k: nat)
    requires Run(ss, es) && t < |ss[0].threads| && j < |ss|
    requires t < |ss[j].threads| && ss[j].threads[t].pc.Done?
    ensures TakesEffectOnce(ss, es, t, i, k, j)
    ensures Inv(ss[k]) && MapStep(Table(ss[k].buckets), es[k].l, Table(ss[k + 1].buckets))
  {
    RunOwnSteps(ss, es, t);
    i, k := EffectOf(ss, es, t, j);
    RunIsMapHistory(ss, es, k);
  }

  /** A lookup that returns "not found" was right at some moment of the call. */
  lemma NotFoundWasRight(ss: seq<State>, es: seq<Event>, t: Tid, j: nat) returns (i: nat, k: nat)
    requires Run(ss, es) && t < |ss[0].threads| && j < |ss|
    requires t < |ss[j].threads| && ss[j].threads[t].op.Find? && ss[j].threads[t].pc == Done(false)
    ensures InCall(ss, es, t, i, j) && i < k < j
    ensures ss[j].threads[t].op.key !in Table(ss[k].buckets)
  {
    i, k := Linearizable(ss, es, t, j);
  }
}
