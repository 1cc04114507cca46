/** What the calls of `table_lookup` tell their callers, and where they leave the keys. */
module ThreadTableCalls {
  import opened ThreadTable
  import opened ThreadTableSafety

  /** An earlier lookup of thread `t` has returned. */
  ghost predicate Returned(ss: seq<State>, t: nat, j: nat)
    requires j < |ss|
  {
    exists i, k :: 0 <= i < k <= j && DoneAt(ss[i], t) && IdleAt(ss[k], t)
  }

  predicate DoneAt(s: State, t: nat) {
    t < |s.threads| && s.threads[t].pc.Done?
  }

  predicate IdleAt(s: State, t: nat) {
    t < |s.threads| && s.threads[t].pc.Idle?
  }

  /** What `exists` will be, by how far the call is: before the search has ended it depends on whether
      the thread has an element, then it is in `hit`. */
  predicate Answers(th: Thread, before: bool) {
    match th.pc
    case Idle => HasElement(th) == before
    case LoadRoot => HasElement(th) == before
    case Probe(_, _) => HasElement(th) == before
    case Matched(_, _) => HasElement(th) == before
    case Create => HasElement(th) == before
    case _ => th.hit == before
  }

  /** Only the end of a call makes a thread idle. */
  lemma BecomesIdle(s: State, u: nat, s': State, t: nat)
    requires Next(s, u, s') && t < |s.threads|
    ensures |s'.threads| == |s.threads|
    ensures IdleAt(s', t) ==> IdleAt(s, t) || DoneAt(s, t)
  {
  }

  lemma ReturnedStep(ss: seq<State>, ts: seq<nat>, t: nat, j: nat)
    requires j + 1 < |ss| && (IdleAt(ss[j + 1], t) ==> IdleAt(ss[j], t) || DoneAt(ss[j], t))
    ensures Returned(ss, t, j + 1) <==> Returned(ss, t, j) || (DoneAt(ss[j], t) && IdleAt(ss[j + 1], t))
  {
    if Returned(ss, t, j + 1) {
      var i, k :| 0 <= i < k <= j + 1 && DoneAt(ss[i], t) && IdleAt(ss[k], t);
      if k == j + 1 && i < j && !DoneAt(ss[j], t) {
        assert IdleAt(ss[j], t);
      }
      if k == j + 1 && i == j {
        assert DoneAt(ss[j], t);
      }
    }
  }

  lemma StepInRun(ss: seq<State>, ts: seq<nat>, t: nat, j: nat)
    requires Run(ss, ts) && j < |ts| && t < |ss[0].threads|
    ensures Inv(ss[j]) && Next(ss[j], ts[j], ss[j + 1]) && t < |ss[j].threads|
    ensures Returned(ss, t, j + 1) <==> Returned(ss, t, j) || (DoneAt(ss[j], t) && IdleAt(ss[j + 1], t))
  {
    RunInv(ss, ts, j);
    BecomesIdle(ss[j], ts[j], ss[j + 1], t);
    ReturnedStep(ss, ts, t, j);
  }

  /** The answer does not change while a call lasts; the next one will be that the element exists. */
  lemma AnswersStep(s: State, u: nat, s': State, t: nat, before: bool)
    requires Inv(s) && Next(s, u, s') && t < |s.threads| && Answers(s.threads[t], before)
    ensures t < |s'.threads|
    ensures Answers(s'.threads[t], before || (DoneAt(s, t) && IdleAt(s', t)))
  {
    if t != u {
      OthersDoNotDelay(s, u, s', t);
    } else {
      assert ThreadInv(s, t);
    }
  }

  lemma {:induction false} AnswersInRun(ss: seq<State>, ts: seq<nat>, t: nat, j: nat)
    requires Run(ss, ts) && t < |ss[0].threads| && j < |ss|
    ensures t < |ss[j].threads| && Answers(ss[j].threads[t], Returned(ss, t, j))
  {
    if j > 0 {
      AnswersInRun(ss, ts, t, j - 1);
      StepInRun(ss, ts, t, j - 1);
      AnswersStep(ss[j - 1], ts[j - 1], ss[j], t, Returned(ss, t, j - 1));
    }
  }

  /** Exactly the first lookup of a thread reports that its element did not exist. */
  lemma ExistsAfterFirst(ss: seq<State>, ts: seq<nat>, t: nat, j: nat)
    requires Run(ss, ts) && t < |ss[0].threads| && j < |ss| && DoneAt(ss[j], t)
    ensures ss[j].threads[t].hit <==> exists i, k :: 0 <= i < k <= j && DoneAt(ss[i], t) && IdleAt(ss[k], t)
  {
    AnswersInRun(ss, ts, t, j);
  }

  // ---------------------------------------------------------------- one call

  /** Thread `t` begins a call after state `i`, and the call has not ended in state `j`. */
  ghost predicate InCall(ss: seq<State>, t: nat, i: nat, j: nat) {
    && i < j < |ss| && IdleAt(ss[i], t)
    && forall m :: i < m <= j ==> t < |ss[m].threads| && !ss[m].threads[t].pc.Idle?
  }

  /** The array that the call will leave the key in is no older than `top`. */
  predicate Lands(s: State, th: Thread, top: int) {
    && top < |s.chain|
    && match th.pc
       case Place(_, p, _) => top <= p
       case Claim(_, p, _) => top <= p
       case Store(_, p, _) => top <= p
       case Done(_) => th.at.In? && top <= th.at.p
       case _ => true
  }

  lemma LandsStep(s: State, u: nat, s': State, t: nat, top: int)
    requires Inv(s) && Next(s, u, s') && t < |s.threads| && Lands(s, s.threads[t], top)
    ensures t < |s'.threads| && Lands(s', s'.threads[t], top)
  {
    ChainStep(s, u, s');
    if t != u {
      OthersDoNotDelay(s, u, s', t);
    } else {
      assert ThreadInv(s, t);
    }
  }

  lemma {:induction false} CallInRun(ss: seq<State>, ts: seq<nat>, t: nat, i: nat, j: nat)
    requires Run(ss, ts) && t < |ss[0].threads| && InCall(ss, t, i, j)
    ensures Returned(ss, t, j) == Returned(ss, t, i)
    decreases j
  {
    StepInRun(ss, ts, t, j - 1);
    if i < j - 1 {
      CallInRun(ss, ts, t, i, j - 1);
    }
  }

  lemma {:induction false} LandsInRun(ss: seq<State>, ts: seq<nat>, t: nat, i: nat, j: nat, top: int)
    requires Run(ss, ts) && t < |ss[0].threads| && InCall(ss, t, i, j) && top == |ss[i].chain| - 1
    ensures t < |ss[j].threads| && Lands(ss[j], ss[j].threads[t], top)
    decreases j
  {
    var k := j - 1;
    RunInv(ss, ts, k);
    if i < k {
      LandsInRun(ss, ts, t, i, k, top);
    }
    assert t < |ss[k].threads| && Lands(ss[k], ss[k].threads[t], top);
    assert Next(ss[k], ts[k], ss[k + 1]);
    LandsStep(ss[k], ts[k], ss[j], t, top);
  }

  /** A call reports that the element exists exactly if the thread had it when the call began. */
  lemma ExistsIfAtBegin(ss: seq<State>, ts: seq<nat>, t: nat, i: nat, j: nat)
    requires Run(ss, ts) && t < |ss[0].threads| && InCall(ss, t, i, j) && DoneAt(ss[j], t)
    ensures ss[j].threads[t].hit <==> HasElement(ss[i].threads[t])
  {
    AnswersInRun(ss, ts, t, i);
    AnswersInRun(ss, ts, t, j);
    CallInRun(ss, ts, t, i, j);
  }

  /** A probe for the thread's key in array `p` finds it, with the pointer that the call returns, after
      `d` occupied slots. */
  ghost predicate FoundAt(s: State, t: nat, p: nat, d: nat) {
    && Shaped(s) && p < |s.chain| && DoneAt(s, t)
    && var th := s.threads[t];
      At(s, p, th.h, d) == Slot(t + 1, th.pc.ptr) && PathFull(s, p, th.h, d)
  }

  /** When a call ends, the key of the thread is in an array no older than the one that was the root
      when the call began: a key found further down the list has been inserted again. */
  lemma KeyMovesUp(ss: seq<State>, ts: seq<nat>, t: nat, i: nat, j: nat)
    requires Run(ss, ts) && t < |ss[0].threads| && InCall(ss, t, i, j) && DoneAt(ss[j], t)
    ensures exists p: nat, d: nat :: |ss[i].chain| - 1 <= p && FoundAt(ss[j], t, p, d)
  {
    RunInv(ss, ts, j);
    LandsInRun(ss, ts, t, i, j, |ss[i].chain| - 1);
    assert ThreadInv(ss[j], t);
    var at := ss[j].threads[t].at;
    assert Present(ss[j], t, at.p, at.d);
    assert FoundAt(ss[j], t, at.p, at.d);
  }

  // ---------------------------------------------------------------- counts

  /** The threads that have drawn a count, and those that have been given an element. */
  ghost function Counted(s: State): set<nat> {
    set t: nat | t < |s.threads| && s.threads[t].rank > 0
  }

  ghost function Owners(s: State): set<nat> {
    set t: nat | t < |s.threads| && HasElement(s.threads[t])
  }

  /** `my_count` is the number of threads that have drawn, and there are as many elements as threads
      that have been given one. */
  lemma {:induction false} CountsAre(ss: seq<State>, ts: seq<nat>, j: nat)
    requires Run(ss, ts) && j < |ss|
    ensures ss[j].count == |Counted(ss[j])| && ss[j].created == |Owners(ss[j])|
  {
    if j == 0 {
      assert Counted(ss[0]) == {} && Owners(ss[0]) == {};
    } else {
      CountsAre(ss, ts, j - 1);
      RunInv(ss, ts, j - 1);
      CountsStep(ss[j - 1], ts[j - 1], ss[j]);
    }
  }

  lemma CountsStep(s: State, t: nat, s': State)
    requires Inv(s) && Next(s, t, s')
    ensures s'.count - s.count == |Counted(s')| - |Counted(s)|
    ensures s'.created - s.created == |Owners(s')| - |Owners(s)|
  {
    OnlyOwn(s, t, s');
    CountsAdd(s, t, s', s.threads[t].pc.Count?, s.threads[t].pc.Create?);
  }

  lemma CountsAdd(s: State, t: nat, s': State, drew: bool, given: bool)
    requires t < |s.threads| == |s'.threads|
    requires forall u :: 0 <= u < |s.threads| && u != t ==> s'.threads[u] == s.threads[u]
    requires (s'.threads[t].rank > 0) == (s.threads[t].rank > 0 || drew) && (drew ==> s.threads[t].rank == 0)
    requires HasElement(s'.threads[t]) == (HasElement(s.threads[t]) || given) && (given ==> !HasElement(s.threads[t]))
    ensures |Counted(s')| == |Counted(s)| + if drew then 1 else 0
    ensures |Owners(s')| == |Owners(s)| + if given then 1 else 0
  {
    OneMore(Counted(s), Counted(s'), t, drew);
    OneMore(Owners(s), Owners(s'), t, given);
  }

  lemma OneMore(a: set<nat>, b: set<nat>, t: nat, more: bool)
    requires forall u: nat :: u != t ==> (u in b <==> u in a)
    requires (t in b <==> t in a || more) && (more ==> t !in a)
    ensures |b| == |a| + if more then 1 else 0
  {
    assert b == if more then a + {t} else a;
  }

  /** Counts and elements are given out in two places. */
  lemma OnlyOwn(s: State, t: nat, s': State)
    requires Inv(s) && Next(s, t, s')
    ensures |s'.threads| == |s.threads|
    ensures forall u :: 0 <= u < |s.threads| && u != t ==> s'.threads[u] == s.threads[u]
    ensures s'.count == s.count + if s.threads[t].pc.Count? then 1 else 0
    ensures s'.created == s.created + if s.threads[t].pc.Create? then 1 else 0
    ensures (s'.threads[t].rank > 0) == (s.threads[t].rank > 0 || s.threads[t].pc.Count?)
    ensures HasElement(s'.threads[t]) == (HasElement(s.threads[t]) || s.threads[t].pc.Create?)
    ensures s.threads[t].pc.Count? ==> s.threads[t].rank == 0
    ensures s.threads[t].pc.Create? ==> !HasElement(s.threads[t])
  {
    assert ThreadInv(s, t);
  }

  // ---------------------------------------------------------------- whose elements they are

  ghost predicate OwnApart(s: State) {
    && (forall t :: 0 <= t < |s.threads| && HasElement(s.threads[t]) ==> s.threads[t].own < s.created)
    && forall t, u :: 0 <= t < u < |s.threads| && HasElement(s.threads[t]) && HasElement(s.threads[u]) ==>
         s.threads[t].own != s.threads[u].own
  }

  lemma {:induction false} OwnApartInRun(ss: seq<State>, ts: seq<nat>, j: nat)
    requires Run(ss, ts) && j < |ss|
    ensures OwnApart(ss[j])
  {
    if j > 0 {
      OwnApartInRun(ss, ts, j - 1);
      RunInv(ss, ts, j - 1);
      OwnApartStep(ss[j - 1], ts[j - 1], ss[j]);
    }
  }

  lemma OwnApartStep(s: State, t: nat, s': State)
    requires Inv(s) && Next(s, t, s') && OwnApart(s)
    ensures OwnApart(s')
  {
    OnlyOwn(s, t, s');
    OwnGiven(s, t, s');
  }

  lemma OwnGiven(s: State, t: nat, s': State)
    requires Next(s, t, s')
    ensures t < |s'.threads|
    ensures s'.threads[t].own == if s.threads[t].pc.Create? then s.created else s.threads[t].own
  {
  }

  /** No two threads are ever given the same element. */
  lemma ElementsApart(ss: seq<State>, ts: seq<nat>, t: nat, i: nat, u: nat, j: nat)
    requires Run(ss, ts) && i <= j < |ss| && t < |ss[0].threads| && u < |ss[0].threads| && t != u
    requires DoneAt(ss[i], t) && DoneAt(ss[j], u)
    ensures ss[i].threads[t].pc.ptr != ss[j].threads[u].pc.ptr
  {
    RunInv(ss, ts, i);
    RunInv(ss, ts, j);
    assert ThreadInv(ss[i], t) && ThreadInv(ss[j], u);
    ElementForever(ss, ts, t, i, j);
    OwnApartInRun(ss, ts, j);
  }
}
