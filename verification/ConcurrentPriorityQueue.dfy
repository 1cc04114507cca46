/** `concurrent_priority_queue`: a batch of operations is applied to a vector that is a heap up
    to `mark`, followed by elements that were pushed but are not in the heap yet.

    Between batches every element is in the heap.  Inside a batch the abstract queue is the heap
    alone: an element of the tail counts as pushed only when it is popped or enters the heap. */
module ConcurrentPriorityQueue {
  import opened Orders
  import opened BinaryHeap
  import opened PriorityQueueHistory

  datatype Operation<T> = Push(elem: T) | Pop

  datatype Outcome<T> = Waiting | Stored | Got(elem: T) | Failed

  /** The operation with this outcome is this event. */
  ghost predicate Is<T>(op: Operation<T>, outcome: Outcome<T>, e: Event<T>) {
    match e
    case Pushed(x) => op == Push(x) && outcome == Stored
    case Popped(x) => op == Pop && outcome == Got(x)
    case PopFailed => op == Pop && outcome == Failed
  }

  ghost function Upto(n: nat): multiset<nat> {
    if n == 0 then multiset{} else Upto(n - 1) + multiset{n - 1}
  }

  lemma {:induction false} UptoCounts(n: nat, i: nat)
    ensures Upto(n)[i] == if i < n then 1 else 0
  {
    if n > 0 {
      UptoCounts(n - 1, i);
    }
  }

  // ---------------------------------------------------------------- the batch as a sequence

  /** `order` lists every operation once, and in that order the operations, with the outcomes
      they had, take the queue from `q` to `to`. */
  ghost predicate IsSequence<T>(less: (T, T) -> bool, ops: seq<Operation<T>>, outcomes: seq<Outcome<T>>,
                                q: multiset<T>, to: multiset<T>, order: seq<nat>, events: seq<Event<T>>)
  {
    && |outcomes| == |ops|
    && multiset(order) == Upto(|ops|)
    && Matches(ops, outcomes, order, events)
    && Legal(less, q, events, to)
  }

  ghost predicate Linearizable<T(!new)>(less: (T, T) -> bool, ops: seq<Operation<T>>, outcomes: seq<Outcome<T>>,
                                  q: multiset<T>, to: multiset<T>)
  {
    exists order: seq<nat>, events: seq<Event<T>> :: IsSequence(less, ops, outcomes, q, to, order, events)
  }

  ghost predicate Matches<T>(ops: seq<Operation<T>>, outcomes: seq<Outcome<T>>, order: seq<nat>, events: seq<Event<T>>)
    requires |outcomes| == |ops|
  {
    && |events| == |order|
    && forall j :: 0 <= j < |order| ==> order[j] < |ops| && Is(ops[order[j]], outcomes[order[j]], events[j])
  }

  // ---------------------------------------------------------------- during a batch

  /** The operations so far: those in the sequence, with their events; the pushes whose elements
      are in the tail; and the pops put off to the second pass. */
  datatype Ledger<T> = Ledger(order: seq<nat>, events: seq<Event<T>>, tail: seq<nat>, pops: seq<nat>)

  ghost predicate TailIsPushed<T>(ops: seq<Operation<T>>, outcomes: seq<Outcome<T>>, tail: seq<nat>, elems: seq<T>)
    requires |outcomes| == |ops|
  {
    && |tail| == |elems|
    && forall j :: 0 <= j < |tail| ==> tail[j] < |ops| && ops[tail[j]] == Push(elems[j]) && outcomes[tail[j]] == Stored
  }

  ghost predicate PopsWait<T>(ops: seq<Operation<T>>, pops: seq<nat>) {
    forall j :: 0 <= j < |pops| ==> pops[j] < |ops| && ops[pops[j]] == Pop
  }

  ghost predicate Kept<T>(less: (T, T) -> bool, q: multiset<T>, ops: seq<Operation<T>>, outcomes: seq<Outcome<T>>,
                          done: nat, l: Ledger<T>, data: seq<T>, mark: nat)
  {
    && |outcomes| == |ops| && done <= |ops| && mark <= |data|
    && multiset(l.order) + multiset(l.tail) + multiset(l.pops) == Upto(done)
    && Matches(ops, outcomes, l.order, l.events)
    && TailIsPushed(ops, outcomes, l.tail, data[mark..])
    && PopsWait(ops, l.pops)
    && Legal(less, q, l.events, multiset(data[..mark]))
    && Heap(less, data, mark)
  }

  /** An operation is in one place only. */
  lemma OnePlace<T>(l: Ledger<T>, done: nat, i: nat)
    requires multiset(l.order) + multiset(l.tail) + multiset(l.pops) == Upto(done)
    ensures i >= done ==> i !in l.order && i !in l.tail && i !in l.pops
    ensures i in l.pops ==> i !in l.order && i !in l.tail
  {
    UptoCounts(done, i);
    assert multiset(l.order)[i] + multiset(l.tail)[i] + multiset(l.pops)[i] == Upto(done)[i];
  }

  lemma PushKept<T>(less: (T, T) -> bool, q: multiset<T>, ops: seq<Operation<T>>, outcomes: seq<Outcome<T>>,
                    done: nat, l: Ledger<T>, data: seq<T>, mark: nat)
    requires Kept(less, q, ops, outcomes, done, l, data, mark) && done < |ops| && ops[done].Push?
    ensures Kept(less, q, ops, outcomes[done := Stored], done + 1, l.(tail := l.tail + [done]),
                 data + [ops[done].elem], mark)
  {
    var x := ops[done].elem;
    OnePlace(l, done, done);
    OutcomeKept(ops, outcomes, l.order, l.events, done, Stored);
    assert (data + [x])[mark..] == data[mark..] + [x];
    assert (data + [x])[..mark] == data[..mark];
    TailPushed(ops, outcomes, l.tail, data[mark..], done, x);
  }

  lemma TailPushed<T>(ops: seq<Operation<T>>, outcomes: seq<Outcome<T>>, tail: seq<nat>, elems: seq<T>, id: nat, x: T)
    requires |outcomes| == |ops| && TailIsPushed(ops, outcomes, tail, elems)
    requires id < |ops| && ops[id] == Push(x) && id !in tail
    ensures TailIsPushed(ops, outcomes[id := Stored], tail + [id], elems + [x])
  {
  }

  lemma PostponeKept<T>(less: (T, T) -> bool, q: multiset<T>, ops: seq<Operation<T>>, outcomes: seq<Outcome<T>>,
                        done: nat, l: Ledger<T>, data: seq<T>, mark: nat)
    requires Kept(less, q, ops, outcomes, done, l, data, mark) && done < |ops| && ops[done].Pop?
    ensures Kept(less, q, ops, outcomes, done + 1, l.(pops := l.pops + [done]), data, mark)
  {
  }

  lemma OutcomeKept<T>(ops: seq<Operation<T>>, outcomes: seq<Outcome<T>>, order: seq<nat>, events: seq<Event<T>>,
                       id: nat, outcome: Outcome<T>)
    requires |outcomes| == |ops| && id < |ops| && id !in order && Matches(ops, outcomes, order, events)
    ensures Matches(ops, outcomes[id := outcome], order, events)
  {
  }

  lemma MatchesJoin<T>(ops: seq<Operation<T>>, outcomes: seq<Outcome<T>>, order: seq<nat>, events: seq<Event<T>>,
                       more: seq<nat>, moreEvents: seq<Event<T>>)
    requires |outcomes| == |ops| && Matches(ops, outcomes, order, events) && Matches(ops, outcomes, more, moreEvents)
    ensures Matches(ops, outcomes, order + more, events + moreEvents)
  {
  }

  lemma CommitIds<T>(l: Ledger<T>, done: nat, rest: seq<nat>, id: nat, used: seq<nat>, tail: seq<nat>)
    requires multiset(l.order) + multiset(l.tail) + multiset(l.pops) == Upto(done) && l.pops == rest + [id]
    requires multiset(used) + multiset(tail) == multiset(l.tail) + multiset{id}
    ensures multiset(l.order + used) + multiset(tail) + multiset(rest) == Upto(done)
  {
    assert multiset(l.pops) == multiset(rest) + multiset{id};
    assert multiset(l.order + used) == multiset(l.order) + multiset(used);
    assert multiset(l.order) + (multiset(used) + multiset(tail)) + multiset(rest) == Upto(done);
  }

  /** The last waiting pop gets its outcome: it and some pushes of the tail join the sequence. */
  lemma CommitKept<T>(less: (T, T) -> bool, q: multiset<T>, ops: seq<Operation<T>>, outcomes: seq<Outcome<T>>,
                      done: nat, l: Ledger<T>, rest: seq<nat>, id: nat, data: seq<T>, mark: nat, outcome: Outcome<T>,
                      used: seq<nat>, events: seq<Event<T>>, tail: seq<nat>, data2: seq<T>, mark2: nat)
    returns (l2: Ledger<T>)
    requires Kept(less, q, ops, outcomes, done, l, data, mark)
    requires l.pops == rest + [id] && mark2 <= |data2|
    requires multiset(used) + multiset(tail) == multiset(l.tail) + multiset{id}
    requires id < |outcomes| == |ops| && Matches(ops, outcomes[id := outcome], used, events)
    requires TailIsPushed(ops, outcomes[id := outcome], tail, data2[mark2..])
    requires Legal(less, multiset(data[..mark]), events, multiset(data2[..mark2])) && Heap(less, data2, mark2)
    ensures l2 == Ledger(l.order + used, l.events + events, tail, rest)
    ensures Kept(less, q, ops, outcomes[id := outcome], done, l2, data2, mark2)
  {
    l2 := Ledger(l.order + used, l.events + events, tail, rest);
    OnePlace(l, done, id);
    CommitIds(l, done, rest, id, used, tail);
    OutcomeKept(ops, outcomes, l.order, l.events, id, outcome);
    MatchesJoin(ops, outcomes[id := outcome], l.order, l.events, used, events);
    LegalJoin(less, q, l.events, multiset(data[..mark]), events, multiset(data2[..mark2]));
    assert PopsWait(ops, rest) by {
      assert forall j :: 0 <= j < |rest| ==> rest[j] == l.pops[j];
    }
  }

  lemma DropLast<T>(data: seq<T>, mark: nat)
    requires mark < |data|
    ensures var n := |data| - 1;
            data[..n][mark..] == data[mark..n] == data[mark..][..n - mark] && data[..n][..mark] == data[..mark]
  {
  }

  lemma DropLastPushed<T>(ops: seq<Operation<T>>, outcomes: seq<Outcome<T>>, tail: seq<nat>, elems: seq<T>)
    requires |outcomes| == |ops| && TailIsPushed(ops, outcomes, tail, elems) && tail != []
    ensures TailIsPushed(ops, outcomes, tail[..|tail| - 1], elems[..|elems| - 1])
    ensures multiset(tail) == multiset(tail[..|tail| - 1]) + multiset{tail[|tail| - 1]}
  {
    assert tail == tail[..|tail| - 1] + [tail[|tail| - 1]];
  }

  /** The last element is above the heap: its push and the pop that takes it follow each other. */
  lemma PopLastKept<T(!new)>(less: (T, T) -> bool, q: multiset<T>, ops: seq<Operation<T>>, outcomes: seq<Outcome<T>>,
                             done: nat, l: Ledger<T>, rest: seq<nat>, id: nat, data: seq<T>, mark: nat)
    returns (l2: Ledger<T>)
    requires StrictWeak(less) && Kept(less, q, ops, outcomes, done, l, data, mark) && l.pops == rest + [id]
    requires mark < |data| && less(data[0], data[|data| - 1])
    ensures l2.pops == rest && id < |ops|
    ensures Kept(less, q, ops, outcomes[id := Got(data[|data| - 1])], done, l2, data[..|data| - 1], mark)
  {
    var t, n := |l.tail| - 1, |data| - 1;
    var x := data[n];
    var pushed := TakePushed(less, q, ops, outcomes, done, l, rest, id, data, mark, t, Got(x));
    DropLastPushed(ops, outcomes[id := Got(x)], l.tail, data[mark..]);
    DropLast(data, mark);
    LastIsLegal(less, data, mark);
    PairOfIds(pushed, id);
    DroppedIds(l.tail, t, pushed, id);
    HeapPrefix(less, data, mark, data[..n], mark);
    l2 := CommitKept(less, q, ops, outcomes, done, l, rest, id, data, mark, Got(x), [pushed, id],
                     [Pushed(x), Popped(x)], l.tail[..t], data[..n], mark);
  }

  lemma DroppedIds(tail: seq<nat>, t: nat, pushed: nat, id: nat)
    requires t < |tail| && multiset(tail) == multiset(tail[..t]) + multiset{pushed}
    ensures multiset([pushed, id]) + multiset(tail[..t]) == multiset(tail) + multiset{id}
  {
    PairOfIds(pushed, id);
  }

  lemma PairOfIds(a: nat, b: nat)
    ensures multiset([a, b]) == multiset([b, a]) == multiset{a, b}
  {
    assert [a, b] == [a] + [b] && [b, a] == [b] + [a];
  }

  /** A push of the tail and the last waiting pop, with the outcome it gets now. */
  lemma TakePushed<T>(less: (T, T) -> bool, q: multiset<T>, ops: seq<Operation<T>>, outcomes: seq<Outcome<T>>,
                      done: nat, l: Ledger<T>, rest: seq<nat>, id: nat, data: seq<T>, mark: nat, j: nat,
                      outcome: Outcome<T>)
    returns (pushed: nat)
    requires Kept(less, q, ops, outcomes, done, l, data, mark) && l.pops == rest + [id] && j < |l.tail| && outcome.Got?
    ensures pushed == l.tail[j] && pushed < |ops| && id < |ops| && pushed != id
    ensures Matches(ops, outcomes[id := outcome], [pushed, id], [Pushed(data[mark + j]), Popped(outcome.elem)])
    ensures Matches(ops, outcomes[id := outcome], [id, pushed], [Popped(outcome.elem), Pushed(data[mark + j])])
    ensures multiset([pushed, id]) == multiset([id, pushed]) == multiset{pushed, id}
    ensures TailIsPushed(ops, outcomes[id := outcome], l.tail, data[mark..])
  {
    pushed := l.tail[j];
    assert l.pops[|rest|] == id;
    assert data[mark..][j] == data[mark + j];
    PairOfIds(pushed, id);
  }

  lemma LastIsLegal<T(!new)>(less: (T, T) -> bool, data: seq<T>, mark: nat)
    requires StrictWeak(less) && mark < |data| && Heap(less, data, mark) && less(data[0], data[|data| - 1])
    ensures var x, heap := data[|data| - 1], multiset(data[..mark]); Legal(less, heap, [Pushed(x), Popped(x)], heap)
  {
    LastIsMaximal(less, data, mark);
    LegalTwo(less, multiset(data[..mark]), Pushed(data[|data| - 1]), Popped(data[|data| - 1]));
  }

  lemma LastIsMaximal<T(!new)>(less: (T, T) -> bool, data: seq<T>, mark: nat)
    requires StrictWeak(less) && mark < |data| && Heap(less, data, mark) && less(data[0], data[|data| - 1])
    ensures Maximal(less, multiset(data[..mark]) + multiset{data[|data| - 1]}, data[|data| - 1])
    ensures multiset(data[..mark]) + multiset{data[|data| - 1]} - multiset{data[|data| - 1]} == multiset(data[..mark])
  {
    var x := data[|data| - 1];
    forall y | y in multiset(data[..mark]) + multiset{x}
      ensures !less(x, y)
    {
      if y in data[..mark] {
        var i :| 0 <= i < mark && data[i] == y;
        TopIsMaximal(less, data, mark, i);
      }
    }
  }

  lemma TopIsMaximalInHeap<T(!new)>(less: (T, T) -> bool, data: seq<T>, mark: nat)
    requires StrictWeak(less) && 0 < mark <= |data| && Heap(less, data, mark)
    ensures Maximal(less, multiset(data[..mark]), data[0])
  {
    assert data[..mark][0] == data[0];
    forall y | y in multiset(data[..mark])
      ensures !less(data[0], y)
    {
      var i :| 0 <= i < mark && data[i] == y;
      TopIsMaximal(less, data, mark, i);
    }
  }

  /** A pop of the top of the heap; the last element of the tail, if any, then enters the heap. */
  lemma ExtractTopKept<T(!new)>(less: (T, T) -> bool, q: multiset<T>, ops: seq<Operation<T>>, outcomes: seq<Outcome<T>>,
                                done: nat, l: Ledger<T>, rest: seq<nat>, id: nat, data: seq<T>, mark: nat,
                                data2: seq<T>)
    returns (l2: Ledger<T>)
    requires StrictWeak(less) && Kept(less, q, ops, outcomes, done, l, data, mark) && l.pops == rest + [id]
    requires data != [] && PushedDown(less, data, mark, data2)
    ensures l2.pops == rest && id < |ops|
    ensures Kept(less, q, ops, outcomes[id := Got(data[0])], done, l2, data2,
                 if mark < |data| then mark else |data| - 1)
  {
    if mark == 0 {
      l2 := ExtractPushedKept(less, q, ops, outcomes, done, l, rest, id, data, data2);
    } else if mark < |data| {
      l2 := ExtractAndRefillKept(less, q, ops, outcomes, done, l, rest, id, data, mark, data2);
    } else {
      l2 := ExtractOnlyKept(less, q, ops, outcomes, done, l, rest, id, data, data2);
    }
  }

  lemma ExtractOnlyKept<T(!new)>(less: (T, T) -> bool, q: multiset<T>, ops: seq<Operation<T>>,
                                 outcomes: seq<Outcome<T>>,
                                 done: nat, l: Ledger<T>, rest: seq<nat>, id: nat, data: seq<T>, data2: seq<T>)
    returns (l2: Ledger<T>)
    requires StrictWeak(less) && Kept(less, q, ops, outcomes, done, l, data, |data|) && l.pops == rest + [id]
    requires data != [] && PushedDown(less, data, |data|, data2)
    ensures l2.pops == rest && id < |ops|
    ensures Kept(less, q, ops, outcomes[id := Got(data[0])], done, l2, data2, |data| - 1)
  {
    assert l.pops[|rest|] == id;
    TopIsMaximalInHeap(less, data, |data|);
    WholeHeapPopped(less, data, data2);
    assert data[..|data|] == data && data2[..|data| - 1] == data2;
    LegalOne(less, multiset(data), Popped(data[0]));
    l2 := CommitKept(less, q, ops, outcomes, done, l, rest, id, data, |data|, Got(data[0]), [id],
                     [Popped(data[0])], [], data2, |data| - 1);
  }

  lemma ExtractAndRefillKept<T(!new)>(less: (T, T) -> bool, q: multiset<T>, ops: seq<Operation<T>>,
                                      outcomes: seq<Outcome<T>>,
                                      done: nat, l: Ledger<T>, rest: seq<nat>, id: nat, data: seq<T>, mark: nat,
                                      data2: seq<T>)
    returns (l2: Ledger<T>)
    requires StrictWeak(less) && Kept(less, q, ops, outcomes, done, l, data, mark) && l.pops == rest + [id]
    requires 0 < mark < |data| && PushedDown(less, data, mark, data2)
    ensures l2.pops == rest && id < |ops|
    ensures Kept(less, q, ops, outcomes[id := Got(data[0])], done, l2, data2, mark)
  {
    var t, x := |l.tail| - 1, data[|data| - 1];
    var pushed := TakePushed(less, q, ops, outcomes, done, l, rest, id, data, mark, t, Got(data[0]));
    DropLastPushed(ops, outcomes[id := Got(data[0])], l.tail, data[mark..]);
    DropLast(data, mark);
    TopIsMaximalInHeap(less, data, mark);
    LegalTwo(less, multiset(data[..mark]), Popped(data[0]), Pushed(x));
    l2 := CommitKept(less, q, ops, outcomes, done, l, rest, id, data, mark, Got(data[0]), [id, pushed],
                     [Popped(data[0]), Pushed(x)], l.tail[..t], data2, mark);
  }

  /** With an empty heap the first element is one that was just pushed. */
  lemma ExtractPushedKept<T(!new)>(less: (T, T) -> bool, q: multiset<T>, ops: seq<Operation<T>>,
                                   outcomes: seq<Outcome<T>>,
                                   done: nat, l: Ledger<T>, rest: seq<nat>, id: nat, data: seq<T>, data2: seq<T>)
    returns (l2: Ledger<T>)
    requires StrictWeak(less) && Kept(less, q, ops, outcomes, done, l, data, 0) && l.pops == rest + [id]
    requires data != [] && PushedDown(less, data, 0, data2)
    ensures l2.pops == rest && id < |ops|
    ensures Kept(less, q, ops, outcomes[id := Got(data[0])], done, l2, data2, 0)
  {
    var t, x := |l.tail| - 1, data[0];
    var pushed := TakePushed(less, q, ops, outcomes, done, l, rest, id, data, 0, 0, Got(x));
    var tail := LastToFrontPushed(less, ops, outcomes[id := Got(x)], l.tail, data, data2);
    assert data[..0] == data2[..0] == [];
    assert multiset{x} - multiset{x} == multiset{};
    LegalTwo(less, multiset{}, Pushed(x), Popped(x));
    l2 := CommitKept(less, q, ops, outcomes, done, l, rest, id, data, 0, Got(x), [pushed, id],
                     [Pushed(x), Popped(x)], tail, data2, 0);
  }

  /** With no heap, the last element of the tail goes where the first was. */
  lemma LastToFrontPushed<T>(less: (T, T) -> bool, ops: seq<Operation<T>>, outcomes: seq<Outcome<T>>, tail: seq<nat>,
                             data: seq<T>, data2: seq<T>)
    returns (tail2: seq<nat>)
    requires |outcomes| == |ops| && TailIsPushed(ops, outcomes, tail, data[0..]) && data != []
    requires PushedDown(less, data, 0, data2)
    ensures TailIsPushed(ops, outcomes, tail2, data2[0..])
    ensures multiset(tail) == multiset(tail2) + multiset{tail[0]}
  {
    var t := |tail| - 1;
    assert data[0..] == data && data2[0..] == data2;
    if t == 0 {
      tail2 := [];
      assert tail == [tail[0]];
    } else {
      tail2 := [tail[t]] + tail[1..t];
      assert tail == [tail[0]] + tail[1..t] + [tail[t]];
      forall j | 0 <= j < |tail2|
        ensures tail2[j] < |ops| && ops[tail2[j]] == Push(data2[j]) && outcomes[tail2[j]] == Stored
      {
        assert j > 0 ==> tail2[j] == tail[j] && data2[j] == data[j];
      }
    }
  }

  lemma FailKept<T>(less: (T, T) -> bool, q: multiset<T>, ops: seq<Operation<T>>, outcomes: seq<Outcome<T>>,
                    done: nat, l: Ledger<T>, rest: seq<nat>, id: nat)
    returns (l2: Ledger<T>)
    requires Kept(less, q, ops, outcomes, done, l, [], 0) && l.pops == rest + [id]
    ensures l2.pops == rest && id < |ops|
    ensures Kept(less, q, ops, outcomes[id := Failed], done, l2, [], 0)
  {
    assert l.pops[|rest|] == id;
    var none: seq<T> := [];
    assert none[..0] == none && none[0..] == none;
    LegalOne(less, multiset{}, PopFailed);
    l2 := CommitKept(less, q, ops, outcomes, done, l, rest, id, none, 0, Failed, [id], [PopFailed], [], none, 0);
  }

  lemma {:induction false} LegalPushes<T>(less: (T, T) -> bool, q: multiset<T>, elems: seq<T>)
    ensures Legal(less, q, seq(|elems|, i requires 0 <= i < |elems| => Pushed(elems[i])), q + multiset(elems))
    decreases |elems|
  {
    var events := seq(|elems|, i requires 0 <= i < |elems| => Pushed(elems[i]));
    if elems != [] {
      var rest := elems[1..];
      assert elems == [elems[0]] + rest;
      assert events[1..] == seq(|rest|, i requires 0 <= i < |rest| => Pushed(rest[i]));
      LegalPushes(less, q + multiset{elems[0]}, rest);
      assert q + multiset{elems[0]} + multiset(rest) == q + multiset(elems);
    }
  }

  lemma NothingDone<T>(less: (T, T) -> bool, ops: seq<Operation<T>>, outcomes: seq<Outcome<T>>, data: seq<T>)
    requires |outcomes| == |ops| && Heap(less, data, |data|)
    ensures Kept(less, multiset(data), ops, outcomes, 0, Ledger([], [], [], []), data, |data|)
  {
    assert data[..|data|] == data;
  }

  /** What is left in the tail joins the heap. */
  lemma HeapifyKept<T(!new)>(less: (T, T) -> bool, q: multiset<T>, ops: seq<Operation<T>>, outcomes: seq<Outcome<T>>,
                       l: Ledger<T>, data: seq<T>, mark: nat)
    requires Kept(less, q, ops, outcomes, |ops|, l, data, mark) && l.pops == []
    ensures Linearizable(less, ops, outcomes, q, multiset(data))
  {
    var rest := data[mark..];
    var pushes := seq(|rest|, i requires 0 <= i < |rest| => Pushed(rest[i]));
    PushedAtEnd(less, q, l.events, data, mark, pushes);
    TailMatches(ops, outcomes, l.tail, rest, pushes);
    MatchesJoin(ops, outcomes, l.order, l.events, l.tail, pushes);
    AllInOrder(l, |ops|);
    assert IsSequence(less, ops, outcomes, q, multiset(data), l.order + l.tail, l.events + pushes);
  }

  lemma PushedAtEnd<T>(less: (T, T) -> bool, q: multiset<T>, events: seq<Event<T>>, data: seq<T>, mark: nat,
                       pushes: seq<Event<T>>)
    requires mark <= |data| && Legal(less, q, events, multiset(data[..mark]))
    requires |pushes| == |data| - mark && forall i :: 0 <= i < |pushes| ==> pushes[i] == Pushed(data[mark + i])
    ensures Legal(less, q, events + pushes, multiset(data))
  {
    var rest := data[mark..];
    LegalPushes(less, multiset(data[..mark]), rest);
    assert pushes == seq(|rest|, i requires 0 <= i < |rest| => Pushed(rest[i]));
    MultisetOfSplit(data, mark);
    LegalJoin(less, q, events, multiset(data[..mark]), pushes, multiset(data));
  }

  lemma AllInOrder<T>(l: Ledger<T>, n: nat)
    requires multiset(l.order) + multiset(l.tail) + multiset(l.pops) == Upto(n) && l.pops == []
    ensures multiset(l.order + l.tail) == Upto(n)
  {
  }

  lemma TailMatches<T>(ops: seq<Operation<T>>, outcomes: seq<Outcome<T>>, tail: seq<nat>, elems: seq<T>,
                       pushes: seq<Event<T>>)
    requires |outcomes| == |ops| && TailIsPushed(ops, outcomes, tail, elems)
    requires |pushes| == |elems| && forall i :: 0 <= i < |elems| ==> pushes[i] == Pushed(elems[i])
    ensures Matches(ops, outcomes, tail, pushes)
  {
  }

  // ---------------------------------------------------------------- the handler

  class PriorityQueue<T(!new)> {
    var data: seq<T>
    var mark: nat
    var size: nat
    const less: (T, T) -> bool

    ghost predicate Valid()
      reads this
    {
      StrictWeak(less) && mark == |data| == size && Heap(less, data, mark)
    }

    constructor (less: (T, T) -> bool)
      requires StrictWeak(less)
      ensures Valid() && data == [] && this.less == less
    {
      data, mark, size := [], 0, 0;
      this.less := less;
    }

    method Heapify()
      requires StrictWeak(less) && mark <= |data| && Heap(less, data, mark)
      modifies this`data, this`mark
      ensures mark == |data| == |old(data)| && Heap(less, data, mark)
      ensures multiset(data) == multiset(old(data))
    {
      if mark == 0 && |data| > 0 {
        mark := 1;
      }
      while mark < |data|
        invariant mark <= |data| == |old(data)| && (mark == 0 ==> data == [])
        invariant Heap(less, data, mark) && multiset(data) == multiset(old(data))
      {
        var was := data;
        data := PushUp(less, data, mark);
        MultisetOfSplit(was, mark + 1);
        MultisetOfSplit(data, mark + 1);
        mark := mark + 1;
      }
    }

    method Reheap()
      requires StrictWeak(less) && 0 < |data| && mark <= |data| && Heap(less, data, mark)
      modifies this`data, this`mark
      ensures PushedDown(less, old(data), old(mark), data)
      ensures mark == if old(mark) < |old(data)| then old(mark) else |old(data)| - 1
    {
      data := PushDown(less, data, mark);
      if mark > |data| {
        mark := |data|;
      }
    }

    /** The state inside a batch. */
    ghost predicate InBatch(q: multiset<T>, ops: seq<Operation<T>>, outcomes: seq<Outcome<T>>, done: nat, l: Ledger<T>)
      reads this
    {
      StrictWeak(less) && size == |data| && Kept(less, q, ops, outcomes, done, l, data, mark)
    }

    /** There are elements behind the heap, and the last of them is above the top. */
    predicate LastIsAbove()
      requires mark <= |data|
      reads this
    {
      mark < |data| && less(data[0], data[|data| - 1])
    }

    /** The new last element goes to a pop at once. */
    method PopLast(ghost q: multiset<T>, ops: seq<Operation<T>>, outcomes: seq<Outcome<T>>, ghost done: nat,
                   ghost l: Ledger<T>, ghost rest: seq<nat>, id: nat)
      returns (after: seq<Outcome<T>>, ghost l2: Ledger<T>)
      requires InBatch(q, ops, outcomes, done, l) && l.pops == rest + [id] && id < |outcomes|
      requires LastIsAbove()
      modifies this
      ensures InBatch(q, ops, after, done, l2) && l2.pops == rest
      ensures after == outcomes[id := Got(old(data)[|old(data)| - 1])] && data == old(data)[..|old(data)| - 1]
    {
      l2 := PopLastKept(less, q, ops, outcomes, done, l, rest, id, data, mark);
      after := outcomes[id := Got(data[|data| - 1])];
      data, size := data[..|data| - 1], size - 1;
    }

    /** The top of the heap goes to a pop. */
    method PopTop(ghost q: multiset<T>, ops: seq<Operation<T>>, outcomes: seq<Outcome<T>>, ghost done: nat,
                  ghost l: Ledger<T>, ghost rest: seq<nat>, id: nat)
      returns (after: seq<Outcome<T>>, ghost l2: Ledger<T>)
      requires InBatch(q, ops, outcomes, done, l) && l.pops == rest + [id] && id < |outcomes|
      requires data != []
      modifies this
      ensures InBatch(q, ops, after, done, l2) && l2.pops == rest
      ensures after == outcomes[id := Got(old(data)[0])] && |data| == |old(data)| - 1
    {
      ghost var was, markWas := data, mark;
      after := outcomes[id := Got(data[0])];
      size := size - 1;
      Reheap();
      assert PushedDown(less, was, markWas, data);
      l2 := ExtractTopKept(less, q, ops, outcomes, done, l, rest, id, was, markWas, data);
    }

    static lemma FailedStays(outcomes: seq<Outcome<T>>, id: nat, x: Outcome<T>)
      requires id < |outcomes|
      ensures Failed in outcomes[id := x] ==> Failed in outcomes || x.Failed?
    {
      var after := outcomes[id := x];
      if Failed in after && !x.Failed? {
        var k :| 0 <= k < |after| && after[k] == Failed;
        assert outcomes[k] == Failed;
      }
    }

    /** A push of the first pass waits behind the heap. */
    method PushWaits(ghost q: multiset<T>, ops: seq<Operation<T>>, outcomes: seq<Outcome<T>>, i: nat,
                     ghost l: Ledger<T>)
      returns (after: seq<Outcome<T>>, ghost l2: Ledger<T>)
      requires InBatch(q, ops, outcomes, i, l) && i < |ops| && ops[i].Push?
      modifies this`data, this`size
      ensures InBatch(q, ops, after, i + 1, l2) && l2.pops == l.pops
      ensures after == outcomes[i := Stored] && data == old(data) + [ops[i].elem]
    {
      PushKept(less, q, ops, outcomes, i, l, data, mark);
      l2 := l.(tail := l.tail + [i]);
      data, size := data + [ops[i].elem], size + 1;
      after := outcomes[i := Stored];
    }

    /** A pop of the first pass takes the last element if that is above the top, or is put off. */
    method PopOrPutOff(ghost q: multiset<T>, ops: seq<Operation<T>>, outcomes: seq<Outcome<T>>, i: nat,
                       ghost l: Ledger<T>, popList: seq<nat>)
      returns (after: seq<Outcome<T>>, ghost l2: Ledger<T>, popList2: seq<nat>)
      requires InBatch(q, ops, outcomes, i, l) && l.pops == popList && i < |ops| && ops[i].Pop?
      modifies this
      ensures InBatch(q, ops, after, i + 1, l2) && l2.pops == popList2
      ensures if old(LastIsAbove()) then
                && after == outcomes[i := Got(old(data)[|old(data)| - 1])]
                && data == old(data)[..|old(data)| - 1] && popList2 == popList
              else
                after == outcomes && data == old(data) && popList2 == popList + [i]
    {
      PostponeKept(less, q, ops, outcomes, i, l, data, mark);
      l2 := l.(pops := l.pops + [i]);
      if LastIsAbove() {
        after, l2 := PopLast(q, ops, outcomes, i + 1, l2, popList, i);
        popList2 := popList;
      } else {
        after, popList2 := outcomes, popList + [i];
      }
    }

    /** An operation of the first pass: no pop fails. */
    method FirstPass(ghost q: multiset<T>, ops: seq<Operation<T>>, outcomes: seq<Outcome<T>>, i: nat,
                     ghost l: Ledger<T>, popList: seq<nat>)
      returns (after: seq<Outcome<T>>, ghost l2: Ledger<T>, popList2: seq<nat>)
      requires InBatch(q, ops, outcomes, i, l) && l.pops == popList && i < |ops| && Failed !in outcomes
      modifies this
      ensures InBatch(q, ops, after, i + 1, l2) && l2.pops == popList2 && Failed !in after
    {
      popList2 := popList;
      if ops[i].Push? {
        after, l2 := PushWaits(q, ops, outcomes, i, l);
        FailedStays(outcomes, i, Stored);
      } else {
        ghost var was := data;
        after, l2, popList2 := PopOrPutOff(q, ops, outcomes, i, l, popList);
        if was != [] {
          FailedStays(outcomes, i, Got(was[|was| - 1]));
        }
      }
    }

    /** A pop of the second pass. */
    method SecondPass(ghost q: multiset<T>, ops: seq<Operation<T>>, outcomes: seq<Outcome<T>>,
                      ghost l: Ledger<T>, popList: seq<nat>)
      returns (after: seq<Outcome<T>>, ghost l2: Ledger<T>, popList2: seq<nat>)
      requires InBatch(q, ops, outcomes, |ops|, l) && l.pops == popList != []
      modifies this
      ensures InBatch(q, ops, after, |ops|, l2) && l2.pops == popList2 == popList[..|popList| - 1]
      ensures var id := popList[|popList| - 1];
              && id < |outcomes|
              && after == outcomes[id := if old(data) == [] then Failed
                                         else if old(LastIsAbove()) then Got(old(data)[|old(data)| - 1])
                                         else Got(old(data)[0])]
      ensures |data| == if old(data) == [] then 0 else |old(data)| - 1
    {
      var id := popList[|popList| - 1];
      popList2 := popList[..|popList| - 1];
      assert popList == popList2 + [id] && ops[id].Pop?;
      if |data| == 0 {
        l2 := FailKept(less, q, ops, outcomes, |ops|, l, popList2, id);
        after := outcomes[id := Failed];
      } else if LastIsAbove() {
        after, l2 := PopLast(q, ops, outcomes, |ops|, l, popList2, id);
      } else {
        after, l2 := PopTop(q, ops, outcomes, |ops|, l, popList2, id);
      }
    }

    /** The first pass: no pop fails. */
    method FirstPasses(ghost q: multiset<T>, ops: seq<Operation<T>>)
      returns (outcomes: seq<Outcome<T>>, ghost l: Ledger<T>, popList: seq<nat>)
      requires Valid() && q == multiset(data)
      modifies this
      ensures InBatch(q, ops, outcomes, |ops|, l) && l.pops == popList && Failed !in outcomes
    {
      outcomes := seq(|ops|, _ => Waiting);
      popList, l := [], Ledger([], [], [], []);
      NothingDone(less, ops, outcomes, data);
      for i := 0 to |ops|
        invariant InBatch(q, ops, outcomes, i, l) && l.pops == popList && Failed !in outcomes
      {
        outcomes, l, popList := FirstPass(q, ops, outcomes, i, l, popList);
      }
    }

    /** The second pass: once a pop has failed there is nothing left. */
    method SecondPasses(ghost q: multiset<T>, ops: seq<Operation<T>>, outcomes: seq<Outcome<T>>,
                        ghost l: Ledger<T>, popList: seq<nat>)
      returns (after: seq<Outcome<T>>, ghost l2: Ledger<T>)
      requires InBatch(q, ops, outcomes, |ops|, l) && l.pops == popList && Failed !in outcomes
      modifies this
      ensures InBatch(q, ops, after, |ops|, l2) && l2.pops == [] && (Failed in after ==> data == [])
    {
      after, l2 := outcomes, l;
      var rest := popList;
      while rest != []
        invariant InBatch(q, ops, after, |ops|, l2) && l2.pops == rest && (Failed in after ==> data == [])
        decreases |rest|
      {
        ghost var was, id := after, rest[|rest| - 1];
        after, l2, rest := SecondPass(q, ops, after, l2, rest);
        FailedStays(was, id, after[id]);
      }
    }

    /** `handle_operations`: the operations of the batch have outcomes that they would have one
        after the other in some order, and so has the queue; and the heap is whole again.  A pop only
        fails if nothing is left of what was there and of all that the batch pushes. */
    method HandleOperations(ops: seq<Operation<T>>) returns (outcomes: seq<Outcome<T>>)
      requires Valid()
      modifies this
      ensures Valid()
      ensures Linearizable(less, ops, outcomes, old(multiset(data)), multiset(data))
      ensures Failed in outcomes ==> data == []
    {
      ghost var q := multiset(data);
      var popList: seq<nat>;
      ghost var l;
      outcomes, l, popList := FirstPasses(q, ops);
      outcomes, l := SecondPasses(q, ops, outcomes, l, popList);
      JoinTail(q, ops, outcomes, l);
    }

    /** The end of a batch: what was pushed and not taken joins the heap. */
    method JoinTail(ghost q: multiset<T>, ghost ops: seq<Operation<T>>, ghost outcomes: seq<Outcome<T>>,
                    ghost l: Ledger<T>)
      requires InBatch(q, ops, outcomes, |ops|, l) && l.pops == []
      modifies this`data, this`mark
      ensures Valid() && multiset(data) == old(multiset(data)) && |data| == |old(data)|
      ensures Linearizable(less, ops, outcomes, q, multiset(data))
    {
      HeapifyKept(less, q, ops, outcomes, l, data, mark);
      if mark < |data| {
        Heapify();
      }
    }
  }
}
