/** `aggregator`: threads put operations into a mailbox; whoever finds it empty handles what
    gathers there.  Each step is one access to shared memory. */
module Aggregator {
  import opened Options

  type Tid = nat

  datatype Pc =
    | Idle
    | ReadMailbox                         // op.my_next = res = mailbox
    | Swap(res: Option<Tid>)              // compare_and_swap( &op, res )
    | AwaitStatus                         // not first: wait for op to be finished
    | AwaitBusy                           // first: wait until no handler is busy
    | SetBusy                             // handler_busy = 1
    | Grab                                // mailbox.fetch_and_store( NULL )
    | ReadNext(list: Option<Tid>)          // op_list = op_list->next()
    | Apply(op: Tid, rest: Option<Tid>)   // apply_body()
    | Finish(op: Tid, rest: Option<Tid>)  // finish()
    | ClearBusy                           // handler_busy = 0
    | Done                                // execute_impl returns

  /** A thread and its operation, which lives while the thread is neither `Idle` nor `Done`.
      `submitted` and `applied` count the thread's operations; they are not in the code. */
  datatype Thread = Thread(pc: Pc, finished: bool, next: Option<Tid>, submitted: nat, applied: nat)

  /** The last four say what the mailbox and the active handler's list hold, who is to handle the
      mailbox, and who is the active handler; they are not in the code. */
  datatype State = State(mailbox: Option<Tid>, busy: bool, threads: seq<Thread>,
                         inbox: seq<Tid>, batch: seq<Tid>, pending: Option<Tid>, active: Option<Tid>)

  function SetThread(s: State, t: Tid, th: Thread): State
    requires t < |s.threads|
  {
    s.(threads := s.threads[t := th])
  }

  function SetPc(s: State, t: Tid, pc: Pc): State
    requires t < |s.threads|
  {
    SetThread(s, t, s.threads[t].(pc := pc))
  }

  /** What thread `t` does next; a waiting thread may find that it has to wait on. */
  ghost predicate Step(s: State, t: Tid, s': State)
    requires t < |s.threads|
  {
    var th := s.threads[t];
    match th.pc
    case Idle =>
      s' == SetThread(s, t, th.(pc := ReadMailbox, finished := false, submitted := th.submitted + 1))
    case ReadMailbox =>
      s' == SetThread(s, t, th.(next := s.mailbox, pc := Swap(s.mailbox)))
    case Swap(res) =>
      if s.mailbox != res then s' == SetPc(s, t, ReadMailbox)
      else if res.None? then
        s' == SetPc(s, t, AwaitBusy).(mailbox := Some(t), inbox := [t] + s.inbox, pending := Some(t))
      else s' == SetPc(s, t, AwaitStatus).(mailbox := Some(t), inbox := [t] + s.inbox)
    case AwaitStatus =>
      th.finished && s' == SetPc(s, t, Done)
    case AwaitBusy =>
      !s.busy && s' == SetPc(s, t, SetBusy)
    case SetBusy =>
      s' == SetPc(s, t, Grab).(busy := true, active := Some(t))
    case Grab =>
      s' == SetPc(s, t, ReadNext(s.mailbox)).(mailbox := None, inbox := [], batch := s.inbox, pending := None)
    case ReadNext(None) =>
      s' == SetPc(s, t, ClearBusy)
    case ReadNext(Some(o)) =>
      o < |s.threads| && s' == SetPc(s, t, Apply(o, s.threads[o].next))
    case Apply(o, rest) =>
      o < |s.threads|
      && s' == SetPc(SetThread(s, o, s.threads[o].(applied := s.threads[o].applied + 1)), t, Finish(o, rest))
    case Finish(o, rest) =>
      o < |s.threads| && |s.batch| > 0
      && s' == SetPc(SetThread(s, o, s.threads[o].(finished := true)), t, ReadNext(rest)).(batch := s.batch[1..])
    case ClearBusy =>
      s' == SetPc(s, t, Done).(busy := false, active := None)
    case Done =>
      s' == SetPc(s, t, Idle)
  }

  ghost predicate Init(s: State) {
    && s.mailbox.None? && !s.busy && s.inbox == [] && s.batch == [] && s.pending.None? && s.active.None?
    && forall t :: 0 <= t < |s.threads| ==> s.threads[t].pc.Idle? && s.threads[t].submitted == s.threads[t].applied == 0
  }

  // ---------------------------------------------------------------- invariant

  predicate IsPending(pc: Pc) {
    pc.AwaitBusy? || pc.SetBusy? || pc.Grab?
  }

  predicate IsActive(pc: Pc) {
    pc.Grab? || pc.ReadNext? || pc.Apply? || pc.Finish? || pc.ClearBusy?
  }

  /** The operation can be used by others. */
  predicate Alive(th: Thread) {
    !th.pc.Idle? && !th.pc.ReadMailbox? && !th.pc.Swap? && !th.pc.Done?
  }

  /** The operations from `head` on are those in `s`. */
  ghost predicate Linked(threads: seq<Thread>, head: Option<Tid>, s: seq<Tid>)
    decreases |s|
  {
    if s == [] then head.None?
    else head == Some(s[0]) && s[0] < |threads| && Linked(threads, threads[s[0]].next, s[1..])
  }

  /** Where a thread's operation is, and how often it has been applied. */
  ghost predicate ThreadInv(s: State, t: Tid)
    requires t < |s.threads|
  {
    var th := s.threads[t];
    && (IsPending(th.pc) <==> s.pending == Some(t))
    && (IsActive(th.pc) <==> s.active == Some(t))
    && (t in s.inbox ==> (th.pc.AwaitStatus? || s.pending == Some(t)) && !th.finished)
    && (t in s.batch ==> Alive(th) && !IsPending(th.pc) && !th.finished)
    && (Alive(th) && !th.finished ==> t in s.inbox || t in s.batch)
    && (th.pc.Swap? ==> th.next == th.pc.res && !th.finished)
    && (th.pc.ReadMailbox? ==> !th.finished)
    && (th.pc.Done? ==> th.finished)
    && th.submitted == th.applied + (if th.pc.Idle? || th.finished || BeingFinished(s, t) then 0 else 1)
  }

  /** The handler has applied the operation, but not marked it finished yet. */
  ghost predicate BeingFinished(s: State, t: Tid) {
    s.active.Some? && s.active.value < |s.threads| && s.threads[s.active.value].pc.Finish?
    && s.threads[s.active.value].pc.op == t
  }

  /** What the active handler holds. */
  ghost predicate HandlerInv(s: State) {
    match s.active
    case None => !s.busy && s.batch == []
    case Some(h) =>
      && s.busy && h < |s.threads|
      && match s.threads[h].pc
         case Grab => s.batch == []
         case ReadNext(list) => Linked(s.threads, list, s.batch)
         case Apply(op, rest) => Linked(s.threads, Some(op), s.batch) && s.threads[op].next == rest
         case Finish(op, rest) => Linked(s.threads, Some(op), s.batch) && s.threads[op].next == rest
         case ClearBusy => s.batch == []
         case _ => false
  }

  ghost predicate Apart(s: State) {
    && (forall i, j :: 0 <= i < j < |s.inbox| ==> s.inbox[i] != s.inbox[j])
    && (forall i, j :: 0 <= i < j < |s.batch| ==> s.batch[i] != s.batch[j])
    && (forall i, j :: 0 <= i < |s.inbox| && 0 <= j < |s.batch| ==> s.inbox[i] != s.batch[j])
  }

  /** The mailbox is not empty exactly when a thread is to handle it, which came first. */
  ghost predicate PendingInv(s: State) {
    && (s.inbox == [] <==> s.pending.None?)
    && (s.pending.Some? ==> s.pending.value < |s.threads| && s.inbox[|s.inbox| - 1] == s.pending.value)
    && (s.pending.Some? && s.pending.value < |s.threads| && s.threads[s.pending.value].pc.SetBusy? ==> s.active.None?)
  }

  ghost predicate Inv(s: State) {
    && (forall t :: 0 <= t < |s.threads| ==> ThreadInv(s, t))
    && Linked(s.threads, s.mailbox, s.inbox)
    && HandlerInv(s) && Apart(s) && PendingInv(s)
  }

  // ---------------------------------------------------------------- lists

  lemma {:induction false} LinkedIn(threads: seq<Thread>, head: Option<Tid>, s: seq<Tid>)
    requires Linked(threads, head, s)
    ensures forall i :: 0 <= i < |s| ==> s[i] < |threads|
    ensures s == [] <==> head.None?
    decreases |s|
  {
    if s != [] {
      LinkedIn(threads, threads[s[0]].next, s[1..]);
      assert forall i :: 1 <= i < |s| ==> s[i] == s[1..][i - 1];
    }
  }

  /** A list depends on its own operations' links only. */
  lemma {:induction false} LinkedFrame(threads: seq<Thread>, threads': seq<Thread>, head: Option<Tid>, s: seq<Tid>)
    requires Linked(threads, head, s) && |threads'| == |threads|
    requires forall i :: 0 <= i < |s| && s[i] < |threads| ==> threads'[s[i]].next == threads[s[i]].next
    ensures Linked(threads', head, s)
    decreases |s|
  {
    if s != [] {
      LinkedFrame(threads, threads', threads[s[0]].next, s[1..]);
    }
  }

  lemma InitHasInv(s: State)
    requires Init(s)
    ensures Inv(s)
  {
  }

  // ---------------------------------------------------------------- steps keep the invariant

  lemma OutsideThread(s: State, t: Tid, s': State, x: Tid)
    requires t < |s.threads| && Inv(s) && Step(s, t, s')
    requires !Alive(s.threads[t]) && s'.mailbox == s.mailbox
    requires x < |s.threads|
    ensures ThreadInv(s', x) && |s'.threads| == |s.threads|
  {
    assert ThreadInv(s, t);
    assert ThreadInv(s, x);
  }

  /** Steps of a thread outside the lists, which only change its own operation. */
  lemma OutsideKeepsInv(s: State, t: Tid, s': State)
    requires t < |s.threads| && Inv(s) && Step(s, t, s')
    requires !Alive(s.threads[t]) && s'.mailbox == s.mailbox
    ensures Inv(s')
  {
    assert ThreadInv(s, t);
    LinkedIn(s.threads, s.mailbox, s.inbox);
    LinkedFrame(s.threads, s'.threads, s.mailbox, s.inbox);
    HandlerStays(s, t, s');
    forall x | 0 <= x < |s'.threads|
      ensures ThreadInv(s', x)
    {
      OutsideThread(s, t, s', x);
    }
  }

  /** The handler does not notice what happens to operations that it does not have. */
  lemma HandlerStays(s: State, t: Tid, s': State)
    requires t < |s.threads| && HandlerInv(s) && s.active != Some(t) && |s'.threads| == |s.threads|
    requires s'.active == s.active && s'.busy == s.busy && s'.batch == s.batch
    requires forall x :: 0 <= x < |s.threads| && x != t ==> s'.threads[x] == s.threads[x]
    requires t in s.batch ==> s'.threads[t].next == s.threads[t].next
    ensures HandlerInv(s')
  {
    if s.active.Some? {
      var pc := s.threads[s.active.value].pc;
      if pc.ReadNext? {
        LinkedFrame(s.threads, s'.threads, pc.list, s.batch);
      } else if pc.Apply? {
        LinkedFrame(s.threads, s'.threads, Some(pc.op), s.batch);
      } else if pc.Finish? {
        LinkedFrame(s.threads, s'.threads, Some(pc.op), s.batch);
      }
    }
  }

  lemma SwapThread(s: State, t: Tid, s': State, x: Tid)
    requires t < |s.threads| && Inv(s) && Step(s, t, s')
    requires s.threads[t].pc.Swap? && s.mailbox == s.threads[t].pc.res
    requires x < |s.threads|
    ensures ThreadInv(s', x) && |s'.threads| == |s.threads|
  {
    assert ThreadInv(s, t);
    assert ThreadInv(s, x);
  }

  /** An operation enters the mailbox. */
  lemma SwapKeepsInv(s: State, t: Tid, s': State)
    requires t < |s.threads| && Inv(s) && Step(s, t, s')
    requires s.threads[t].pc.Swap? && s.mailbox == s.threads[t].pc.res
    ensures Inv(s')
  {
    assert ThreadInv(s, t);
    LinkedIn(s.threads, s.mailbox, s.inbox);
    LinkedFrame(s.threads, s'.threads, s.mailbox, s.inbox);
    assert s'.inbox[1..] == s.inbox;
    HandlerStays(s, t, s');
    forall x | 0 <= x < |s'.threads|
      ensures ThreadInv(s', x)
    {
      SwapThread(s, t, s', x);
    }
  }

  /** Waiting ends, for the operation to be finished or for the handler to become free. */
  lemma AwaitKeepsInv(s: State, t: Tid, s': State)
    requires t < |s.threads| && Inv(s) && Step(s, t, s')
    requires s.threads[t].pc.AwaitStatus? || s.threads[t].pc.AwaitBusy?
    ensures Inv(s')
  {
    assert ThreadInv(s, t);
    LinkedIn(s.threads, s.mailbox, s.inbox);
    LinkedFrame(s.threads, s'.threads, s.mailbox, s.inbox);
    HandlerStays(s, t, s');
    forall x | 0 <= x < |s'.threads|
      ensures ThreadInv(s', x)
    {
      assert ThreadInv(s, x);
    }
  }

  /** The waiting handler becomes the active one, and takes all of the mailbox. */
  lemma TakeOverKeepsInv(s: State, t: Tid, s': State)
    requires t < |s.threads| && Inv(s) && Step(s, t, s')
    requires s.threads[t].pc.SetBusy? || s.threads[t].pc.Grab?
    ensures Inv(s')
  {
    assert ThreadInv(s, t);
    LinkedIn(s.threads, s.mailbox, s.inbox);
    LinkedFrame(s.threads, s'.threads, s.mailbox, s.inbox);
    forall x | 0 <= x < |s'.threads|
      ensures ThreadInv(s', x)
    {
      assert ThreadInv(s, x);
    }
  }

  /** The handler moves along its list. */
  lemma ReadNextKeepsInv(s: State, t: Tid, s': State)
    requires t < |s.threads| && Inv(s) && Step(s, t, s') && s.threads[t].pc.ReadNext?
    ensures Inv(s')
  {
    assert ThreadInv(s, t);
    LinkedIn(s.threads, s.mailbox, s.inbox);
    LinkedFrame(s.threads, s'.threads, s.mailbox, s.inbox);
    LinkedIn(s.threads, s.threads[t].pc.list, s.batch);
    LinkedFrame(s.threads, s'.threads, s.threads[t].pc.list, s.batch);
    forall x | 0 <= x < |s'.threads|
      ensures ThreadInv(s', x)
    {
      assert ThreadInv(s, x);
    }
  }

  lemma ApplyThread(s: State, t: Tid, s': State, x: Tid)
    requires t < |s.threads| && Inv(s) && Step(s, t, s') && s.threads[t].pc.Apply?
    requires x < |s.threads|
    ensures ThreadInv(s', x) && |s'.threads| == |s.threads|
  {
    assert ThreadInv(s, t);
    assert ThreadInv(s, x);
  }

  lemma ApplyKeepsInv(s: State, t: Tid, s': State)
    requires t < |s.threads| && Inv(s) && Step(s, t, s') && s.threads[t].pc.Apply?
    ensures Inv(s')
  {
    assert ThreadInv(s, t);
    var o := s.threads[t].pc.op;
    LinkedIn(s.threads, s.mailbox, s.inbox);
    LinkedFrame(s.threads, s'.threads, s.mailbox, s.inbox);
    LinkedIn(s.threads, Some(o), s.batch);
    LinkedFrame(s.threads, s'.threads, Some(o), s.batch);
    assert o in s.batch;
    forall x | 0 <= x < |s'.threads|
      ensures ThreadInv(s', x)
    {
      ApplyThread(s, t, s', x);
    }
  }

  lemma FinishThread(s: State, t: Tid, s': State, x: Tid)
    requires t < |s.threads| && Inv(s) && Step(s, t, s') && s.threads[t].pc.Finish?
    requires x < |s.threads|
    ensures ThreadInv(s', x) && |s'.threads| == |s.threads|
  {
    assert ThreadInv(s, t);
    assert ThreadInv(s, x);
    var o := s.threads[t].pc.op;
    assert s.batch[0] == o && s.batch == [o] + s'.batch;
    assert x in s'.batch ==> x in s.batch && x != o;
  }

  lemma FinishKeepsInv(s: State, t: Tid, s': State)
    requires t < |s.threads| && Inv(s) && Step(s, t, s') && s.threads[t].pc.Finish?
    ensures Inv(s')
  {
    assert ThreadInv(s, t);
    var o := s.threads[t].pc.op;
    LinkedIn(s.threads, s.mailbox, s.inbox);
    LinkedFrame(s.threads, s'.threads, s.mailbox, s.inbox);
    LinkedFrame(s.threads, s'.threads, Some(o), s.batch);
    assert s.batch[0] == o && s.batch == [o] + s'.batch;
    forall x | 0 <= x < |s'.threads|
      ensures ThreadInv(s', x)
    {
      FinishThread(s, t, s', x);
    }
  }

  lemma ClearBusyKeepsInv(s: State, t: Tid, s': State)
    requires t < |s.threads| && Inv(s) && Step(s, t, s') && s.threads[t].pc.ClearBusy?
    ensures Inv(s')
  {
    assert ThreadInv(s, t);
    LinkedIn(s.threads, s.mailbox, s.inbox);
    LinkedFrame(s.threads, s'.threads, s.mailbox, s.inbox);
    forall x | 0 <= x < |s'.threads|
      ensures ThreadInv(s', x)
    {
      assert ThreadInv(s, x);
    }
  }

  lemma StepKeepsInv(s: State, t: Tid, s': State)
    requires t < |s.threads| && Inv(s) && Step(s, t, s')
    ensures Inv(s') && |s'.threads| == |s.threads|
  {
    var pc := s.threads[t].pc;
    if pc.Idle? || pc.ReadMailbox? || pc.Done? || (pc.Swap? && s.mailbox != pc.res) {
      OutsideKeepsInv(s, t, s');
    } else if pc.Swap? {
      SwapKeepsInv(s, t, s');
    } else if pc.AwaitStatus? || pc.AwaitBusy? {
      AwaitKeepsInv(s, t, s');
    } else if pc.SetBusy? || pc.Grab? {
      TakeOverKeepsInv(s, t, s');
    } else if pc.ReadNext? {
      ReadNextKeepsInv(s, t, s');
    } else if pc.Apply? {
      ApplyKeepsInv(s, t, s');
    } else if pc.Finish? {
      FinishKeepsInv(s, t, s');
    } else {
      ClearBusyKeepsInv(s, t, s');
    }
  }

  // ---------------------------------------------------------------- what holds in every run

  ghost predicate IsRun(run: seq<State>) {
    && |run| > 0 && Init(run[0])
    && forall i :: 0 <= i < |run| - 1 ==> Next(run[i], run[i + 1])
  }

  ghost predicate Next(s: State, s': State) {
    exists t: Tid :: t < |s.threads| && Step(s, t, s')
  }

  lemma {:induction false} RunHasInv(run: seq<State>, n: nat)
    requires IsRun(run) && n < |run|
    ensures Inv(run[n])
  {
    if n == 0 {
      InitHasInv(run[0]);
    } else {
      RunHasInv(run, n - 1);
      assert Next(run[n - 1], run[n - 1 + 1]);
      var t: Tid :| t < |run[n - 1].threads| && Step(run[n - 1], t, run[n]);
      StepKeepsInv(run[n - 1], t, run[n]);
    }
  }

  /** One thread at most waits to handle the mailbox, one at most handles operations. */
  lemma OneHandler(run: seq<State>, n: nat, t: Tid, u: Tid)
    requires IsRun(run) && n < |run| && t < |run[n].threads| && u < |run[n].threads|
    ensures IsPending(run[n].threads[t].pc) && IsPending(run[n].threads[u].pc) ==> t == u
    ensures IsActive(run[n].threads[t].pc) && IsActive(run[n].threads[u].pc) ==> t == u
  {
    RunHasInv(run, n);
    assert ThreadInv(run[n], t) && ThreadInv(run[n], u);
  }

  /** Every operation is applied exactly once before `execute_impl` returns, and no other is. */
  lemma AppliedOnce(run: seq<State>, n: nat, t: Tid)
    requires IsRun(run) && n < |run| && t < |run[n].threads|
    ensures var th := run[n].threads[t];
            && th.applied <= th.submitted <= th.applied + 1
            && (th.pc.Idle? || th.pc.Done? ==> th.applied == th.submitted)
            && (th.pc.ReadMailbox? || th.pc.Swap? ==> th.applied + 1 == th.submitted)
  {
    RunHasInv(run, n);
    var s := run[n];
    assert ThreadInv(s, t);
    if BeingFinished(s, t) {
      assert t in s.batch;
    }
  }

  /** The handler only uses operations whose threads have not been told that they are finished,
      and so have not returned. */
  lemma HandlerUsesLiveOperations(run: seq<State>, n: nat, h: Tid)
    requires IsRun(run) && n < |run| && h < |run[n].threads|
    ensures var pc := run[n].threads[h].pc;
            var used := if pc.ReadNext? then pc.list else if pc.Apply? || pc.Finish? then Some(pc.op) else None;
            used.Some? ==>
              used.value < |run[n].threads|
              && Alive(run[n].threads[used.value]) && !run[n].threads[used.value].finished
  {
    RunHasInv(run, n);
    var s := run[n];
    assert ThreadInv(s, h);
    var pc := s.threads[h].pc;
    var used := if pc.ReadNext? then pc.list else if pc.Apply? || pc.Finish? then Some(pc.op) else None;
    if used.Some? {
      assert used.value == s.batch[0] && used.value in s.batch;
      assert ThreadInv(s, used.value);
    }
  }

  /** The mailbox is not empty exactly when a thread is about to handle it; and what the code
      asserts after handling holds. */
  lemma MailboxHasHandler(run: seq<State>, n: nat)
    requires IsRun(run) && n < |run|
    ensures run[n].mailbox.Some? <==> exists t :: 0 <= t < |run[n].threads| && IsPending(run[n].threads[t].pc)
    ensures forall t :: 0 <= t < |run[n].threads| && run[n].threads[t].pc.ClearBusy? ==> run[n].threads[t].finished
  {
    RunHasInv(run, n);
    var s := run[n];
    LinkedIn(s.threads, s.mailbox, s.inbox);
    if s.pending.Some? {
      assert ThreadInv(s, s.pending.value);
    }
    forall t | 0 <= t < |s.threads|
      ensures IsPending(s.threads[t].pc) ==> s.pending == Some(t)
      ensures s.threads[t].pc.ClearBusy? ==> s.threads[t].finished
    {
      assert ThreadInv(s, t);
    }
  }

  /** Unless all threads are idle, one that is not can take a step. */
  lemma NeverStuck(run: seq<State>, n: nat, u: Tid) returns (t: Tid, s': State)
    requires IsRun(run) && n < |run| && u < |run[n].threads| && !run[n].threads[u].pc.Idle?
    ensures t < |run[n].threads| && !run[n].threads[t].pc.Idle? && Step(run[n], t, s')
  {
    RunHasInv(run, n);
    var s := run[n];
    assert ThreadInv(s, u);
    if s.active.Some? {
      t := s.active.value;
      HandlerUsesLiveOperations(run, n, t);
      assert ThreadInv(s, t);
      s' := HandlerStep(s, t);
    } else if s.pending.Some? {
      t := s.pending.value;
      assert ThreadInv(s, t);
      s' := if s.threads[t].pc.AwaitBusy? then SetPc(s, t, SetBusy)
            else SetPc(s, t, Grab).(busy := true, active := Some(t));
    } else {
      t := u;
      var th := s.threads[t];
      if th.pc.ReadMailbox? {
        s' := SetThread(s, t, th.(next := s.mailbox, pc := Swap(s.mailbox)));
      } else if th.pc.Swap? {
        s' := if s.mailbox != th.pc.res then SetPc(s, t, ReadMailbox)
              else SetPc(s, t, AwaitBusy).(mailbox := Some(t), inbox := [t] + s.inbox, pending := Some(t));
      } else if th.pc.AwaitStatus? {
        s' := SetPc(s, t, Done);
      } else {
        s' := SetPc(s, t, Idle);
      }
    }
  }

  lemma HandlerStep(s: State, t: Tid) returns (s': State)
    requires t < |s.threads| && Inv(s) && IsActive(s.threads[t].pc)
    ensures Step(s, t, s')
  {
    assert ThreadInv(s, t);
    var th := s.threads[t];
    if th.pc.Grab? {
      s' := SetPc(s, t, ReadNext(s.mailbox)).(mailbox := None, inbox := [], batch := s.inbox, pending := None);
    } else if th.pc.ReadNext? {
      LinkedIn(s.threads, th.pc.list, s.batch);
      if th.pc.list.None? {
        s' := SetPc(s, t, ClearBusy);
      } else {
        var o := th.pc.list.value;
        s' := SetPc(s, t, Apply(o, s.threads[o].next));
      }
    } else if th.pc.Apply? {
      var o := th.pc.op;
      s' := SetPc(SetThread(s, o, s.threads[o].(applied := s.threads[o].applied + 1)), t, Finish(o, th.pc.rest));
    } else if th.pc.Finish? {
      var o := th.pc.op;
      s' := SetPc(SetThread(s, o, s.threads[o].(finished := true)), t, ReadNext(th.pc.rest)).(batch := s.batch[1..]);
    } else {
      s' := SetPc(s, t, Done).(busy := false, active := None);
    }
  }
}
