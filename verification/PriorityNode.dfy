/** `priority_queue_node` of the flow graph: a buffer that hands out items by priority, to callers,
    to successors, or on reservation.

    Operations come in batches.  As in the concurrent priority queue, items wait behind the heap
    until they are handed out or the batch ends. */
module PriorityNode {
  import opened Options
  import opened Orders
  import opened BinaryHeap

  // ---------------------------------------------------------------- the simple node

  /** What the node holds: items, and possibly one that is reserved. */
  datatype Pool<T> = Pool(items: multiset<T>, held: Option<T>)

  datatype Event<T> =
    | Put(elem: T) | Got(elem: T) | Forwarded(elem: T) | Reserved(elem: T)
    | Refused | Consumed | Released

  /** The event takes an item out of the pool. */
  predicate Takes<T>(e: Event<T>) {
    e.Got? || e.Forwarded? || e.Reserved?
  }

  ghost predicate Allowed<T>(less: (T, T) -> bool, q: Pool<T>, e: Event<T>) {
    match e
    case Put(_) => true
    case Refused => q.held.Some? || q.items == multiset{}
    case Consumed => q.held.Some?
    case Released => q.held.Some?
    case _ => q.held.None? && e.elem in q.items && forall y :: y in q.items ==> !less(e.elem, y)
  }

  ghost function After<T>(q: Pool<T>, e: Event<T>): Pool<T> {
    match e
    case Put(x) => q.(items := q.items + multiset{x})
    case Got(x) => q.(items := q.items - multiset{x})
    case Forwarded(x) => q.(items := q.items - multiset{x})
    case Reserved(x) => Pool(q.items - multiset{x}, Some(x))
    case Refused => q
    case Consumed => q.(held := None)
    case Released => if q.held.Some? then Pool(q.items + multiset{q.held.value}, None) else q
  }

  ghost predicate Legal<T>(less: (T, T) -> bool, q: Pool<T>, events: seq<Event<T>>, to: Pool<T>)
    decreases |events|
  {
    if events == [] then q == to
    else Allowed(less, q, events[0]) && Legal(less, After(q, events[0]), events[1..], to)
  }

  lemma {:induction false} LegalMore<T>(less: (T, T) -> bool, q: Pool<T>, events: seq<Event<T>>, mid: Pool<T>,
                                        e: Event<T>)
    requires Legal(less, q, events, mid) && Allowed(less, mid, e)
    ensures Legal(less, q, events + [e], After(mid, e))
    decreases |events|
  {
    if events == [] {
      assert (events + [e])[1..] == [];
    } else {
      assert (events + [e])[1..] == events[1..] + [e];
      LegalMore(less, After(q, events[0]), events[1..], mid, e);
    }
  }

  lemma {:induction false} LegalJoin<T>(less: (T, T) -> bool, q: Pool<T>, a: seq<Event<T>>, mid: Pool<T>,
                                        b: seq<Event<T>>, to: Pool<T>)
    requires Legal(less, q, a, mid) && Legal(less, mid, b, to)
    ensures Legal(less, q, a + b, to)
    decreases |a|
  {
    if a == [] {
      assert a + b == b;
    } else {
      assert (a + b)[1..] == a[1..] + b;
      LegalJoin(less, After(q, a[0]), a[1..], mid, b, to);
    }
  }

  /** Everything in the pool, reserved or not. */
  ghost function Everything<T>(q: Pool<T>): multiset<T> {
    q.items + if q.held.Some? then multiset{q.held.value} else multiset{}
  }

  /** What an event brings in, and what it takes out for good. */
  ghost function Incoming<T>(events: seq<Event<T>>): multiset<T> {
    if events == [] then multiset{} else
      (if events[0].Put? then multiset{events[0].elem} else multiset{}) + Incoming(events[1..])
  }

  /** What leaves: items got or forwarded, and those consumed; `held` is reserved at the beginning. */
  ghost function Outgoing<T>(events: seq<Event<T>>, held: Option<T>): multiset<T>
    decreases |events|
  {
    if events == [] then multiset{}
    else match events[0]
      case Got(x) => multiset{x} + Outgoing(events[1..], held)
      case Forwarded(x) => multiset{x} + Outgoing(events[1..], held)
      case Consumed => (if held.Some? then multiset{held.value} else multiset{}) + Outgoing(events[1..], None)
      case Reserved(x) => Outgoing(events[1..], Some(x))
      case Released => Outgoing(events[1..], None)
      case _ => Outgoing(events[1..], held)
  }

  /** Puts equal what is still there and what has been got, forwarded or consumed. */
  lemma {:induction false} NothingLost<T>(less: (T, T) -> bool, q: Pool<T>, events: seq<Event<T>>, to: Pool<T>)
    requires Legal(less, q, events, to)
    ensures Everything(q) + Incoming(events) == Everything(to) + Outgoing(events, q.held)
    decreases |events|
  {
    if events != [] {
      var next := After(q, events[0]);
      NothingLost(less, next, events[1..], to);
      OneStep(less, q, events[0]);
      assert [events[0]][1..] == [];
      Rearrange(Everything(q), Everything(next), Incoming([events[0]]), Outgoing([events[0]], q.held),
                Incoming(events[1..]), Outgoing(events[1..], next.held), Everything(to));
    }
  }

  lemma OneStep<T>(less: (T, T) -> bool, q: Pool<T>, e: Event<T>)
    requires Allowed(less, q, e)
    ensures Everything(q) + Incoming([e]) == Everything(After(q, e)) + Outgoing([e], q.held)
  {
    assert [e][1..] == [];
  }

  lemma Rearrange<T>(q: multiset<T>, next: multiset<T>, i: multiset<T>, o: multiset<T>, ii: multiset<T>,
                     oo: multiset<T>, to: multiset<T>)
    requires q + i == next + o && next + ii == to + oo
    ensures q + (i + ii) == to + (o + oo)
  {
    assert q + (i + ii) == (q + i) + ii == (next + ii) + o == to + (o + oo);
  }

  // ---------------------------------------------------------------- during a batch

  ghost function PutSeq<T>(s: seq<T>): (r: seq<Event<T>>)
    ensures |r| == |s| && forall i :: 0 <= i < |s| ==> r[i] == Put(s[i])
  {
    seq(|s|, i requires 0 <= i < |s| => Put(s[i]))
  }

  /** The puts of items. */
  ghost function Puts<T>(s: seq<T>): multiset<Event<T>> {
    multiset(PutSeq(s))
  }

  lemma PutsJoin<T>(s: seq<T>, r: seq<T>)
    ensures Puts(s + r) == Puts(s) + Puts(r)
  {
    assert PutSeq(s + r) == PutSeq(s) + PutSeq(r);
  }

  lemma PutsOne<T>(x: T)
    ensures Puts([x]) == multiset{Put(x)}
  {
    assert PutSeq([x]) == [Put(x)];
  }

  lemma PutsLast<T>(s: seq<T>, x: T)
    ensures Puts(s + [x]) == Puts(s) + multiset{Put(x)}
  {
    PutsJoin(s, [x]);
    PutsOne(x);
  }

  /** `log` is a legal order of the events `done`, but for the puts of the items that wait; it
      leads to what the heap and the reservation hold. */
  ghost predicate Kept<T>(less: (T, T) -> bool, q: Pool<T>, log: seq<Event<T>>, done: multiset<Event<T>>,
                          data: seq<T>, mark: nat, held: Option<T>)
  {
    && mark <= |data| && Heap(less, data, mark)
    && Legal(less, q, log, Pool(multiset(data[..mark]), held))
    && multiset(log) + Puts(data[mark..]) == done
  }

  lemma PutKept<T>(less: (T, T) -> bool, q: Pool<T>, log: seq<Event<T>>, done: multiset<Event<T>>,
                   data: seq<T>, mark: nat, held: Option<T>, x: T)
    requires Kept(less, q, log, done, data, mark, held)
    ensures Kept(less, q, log, done + multiset{Put(x)}, data + [x], mark, held)
  {
    assert (data + [x])[..mark] == data[..mark];
    assert (data + [x])[mark..] == data[mark..] + [x];
    PutsLast(data[mark..], x);
  }

  /** An event that leaves the items alone. */
  lemma OtherKept<T>(less: (T, T) -> bool, q: Pool<T>, log: seq<Event<T>>, done: multiset<Event<T>>,
                     data: seq<T>, mark: nat, held: Option<T>, e: Event<T>)
    requires Kept(less, q, log, done, data, mark, held)
    requires (e.Refused? && (held.Some? || data == [])) || (e.Consumed? && held.Some?)
    ensures Kept(less, q, log + [e], done + multiset{e}, data, mark, if e.Consumed? then None else held)
  {
    LegalMore(less, q, log, Pool(multiset(data[..mark]), held), e);
  }

  lemma TopIsAllowed<T(!new)>(less: (T, T) -> bool, data: seq<T>, mark: nat, e: Event<T>)
    requires StrictWeak(less) && 0 < mark <= |data| && Heap(less, data, mark) && Takes(e) && e.elem == data[0]
    ensures Allowed(less, Pool(multiset(data[..mark]), None), e)
  {
    assert data[..mark][0] == data[0];
    forall y | y in multiset(data[..mark])
      ensures !less(data[0], y)
    {
      var i :| 0 <= i < mark && data[i] == y;
      TopIsMaximal(less, data, mark, i);
    }
  }

  lemma LastIsAllowed<T(!new)>(less: (T, T) -> bool, data: seq<T>, mark: nat, e: Event<T>)
    requires StrictWeak(less) && mark < |data| && Heap(less, data, mark) && Takes(e) && e.elem == data[|data| - 1]
    requires mark == 0 || less(data[0], data[|data| - 1])
    ensures Allowed(less, Pool(multiset(data[..mark]) + multiset{data[|data| - 1]}, None), e)
  {
    forall y | y in multiset(data[..mark]) + multiset{e.elem}
      ensures !less(e.elem, y)
    {
      if y in data[..mark] {
        var i :| 0 <= i < mark && data[i] == y;
        TopIsMaximal(less, data, mark, i);
      }
    }
  }

  ghost function HeldAfter<T>(e: Event<T>): Option<T> {
    if e.Reserved? then Some(e.elem) else None
  }

  lemma TakeAfter<T>(items: multiset<T>, e: Event<T>)
    requires Takes(e)
    ensures After(Pool(items, None), e) == Pool(items - multiset{e.elem}, HeldAfter(e))
  {
  }

  /** A waiting item is put and taken at once. */
  lemma PutAndTake<T>(less: (T, T) -> bool, q: Pool<T>, log: seq<Event<T>>, items: multiset<T>, e: Event<T>)
    returns (log2: seq<Event<T>>)
    requires Legal(less, q, log, Pool(items, None)) && Takes(e)
    requires Allowed(less, Pool(items + multiset{e.elem}, None), e)
    ensures Legal(less, q, log2, Pool(items, HeldAfter(e)))
    ensures multiset(log2) == multiset(log) + multiset{Put(e.elem)} + multiset{e}
  {
    LegalMore(less, q, log, Pool(items, None), Put(e.elem));
    LegalMore(less, q, log + [Put(e.elem)], Pool(items + multiset{e.elem}, None), e);
    TakeAfter(items + multiset{e.elem}, e);
    assert items + multiset{e.elem} - multiset{e.elem} == items;
    log2 := log + [Put(e.elem)] + [e];
  }

  lemma PopLastKept<T(!new)>(less: (T, T) -> bool, q: Pool<T>, log: seq<Event<T>>, done: multiset<Event<T>>,
                             data: seq<T>, mark: nat)
    returns (log2: seq<Event<T>>)
    requires StrictWeak(less) && Kept(less, q, log, done, data, mark, None)
    requires mark < |data| && less(data[0], data[|data| - 1])
    ensures Kept(less, q, log2, done + multiset{Got(data[|data| - 1])}, data[..|data| - 1], mark, None)
  {
    var n := |data| - 1;
    LastIsAllowed(less, data, mark, Got(data[n]));
    log2 := PutAndTake(less, q, log, multiset(data[..mark]), Got(data[n]));
    assert data[mark..] == data[mark..n] + [data[n]];
    assert data[..n][mark..] == data[mark..n] && data[..n][..mark] == data[..mark];
    PutsLast(data[mark..n], data[n]);
  }

  /** The first item is taken, and the last takes its place in the heap. */
  lemma TakeTopKept<T(!new)>(less: (T, T) -> bool, q: Pool<T>, log: seq<Event<T>>, done: multiset<Event<T>>,
                             data: seq<T>, mark: nat, data2: seq<T>, e: Event<T>)
    returns (log2: seq<Event<T>>)
    requires StrictWeak(less) && Kept(less, q, log, done, data, mark, None)
    requires data != [] && PushedDown(less, data, mark, data2) && Takes(e) && e.elem == data[0]
    ensures Kept(less, q, log2, done + multiset{e}, data2, if mark < |data| then mark else |data| - 1, HeldAfter(e))
  {
    if mark == 0 {
      log2 := TakePutKept(less, q, log, done, data, data2, e);
    } else if mark < |data| {
      log2 := TakeAndRefillKept(less, q, log, done, data, mark, data2, e);
    } else {
      log2 := TakeOnlyKept(less, q, log, done, data, data2, e);
    }
  }

  lemma TakePutKept<T(!new)>(less: (T, T) -> bool, q: Pool<T>, log: seq<Event<T>>, done: multiset<Event<T>>,
                             data: seq<T>, data2: seq<T>, e: Event<T>)
    returns (log2: seq<Event<T>>)
    requires StrictWeak(less) && Kept(less, q, log, done, data, 0, None)
    requires data != [] && PushedDown(less, data, 0, data2) && Takes(e) && e.elem == data[0]
    ensures Kept(less, q, log2, done + multiset{e}, data2, 0, HeldAfter(e))
  {
    assert data[..0] == data2[..0] == [] && data[0..] == data && data2[0..] == data2;
    assert forall y :: y in multiset{} + multiset{e.elem} ==> y == e.elem;
    log2 := PutAndTake(less, q, log, multiset{}, e);
    RotatedPuts(data, data2);
  }

  lemma PutsRotated<T>(x: T, mid: seq<T>, z: T)
    ensures Puts([x] + (mid + [z])) == multiset{Put(x)} + Puts([z] + mid)
  {
    PutsJoin([x], mid + [z]);
    PutsJoin(mid, [z]);
    PutsJoin([z], mid);
    PutsOne(x);
  }

  /** The first waiting item is gone, and the last is in its place. */
  lemma RotatedPuts<T>(data: seq<T>, data2: seq<T>)
    requires data != [] && data2 == if |data| == 1 then [] else [data[|data| - 1]] + data[1..|data| - 1]
    ensures Puts(data) == multiset{Put(data[0])} + Puts(data2)
  {
    if |data| == 1 {
      assert data == [data[0]];
      PutsOne(data[0]);
      assert PutSeq(data2) == [];
    } else {
      var n := |data| - 1;
      assert data == [data[0]] + (data[1..n] + [data[n]]) && data2 == [data[n]] + data[1..n];
      PutsRotated(data[0], data[1..n], data[n]);
    }
  }

  lemma TakeAndRefillKept<T(!new)>(less: (T, T) -> bool, q: Pool<T>, log: seq<Event<T>>, done: multiset<Event<T>>,
                                   data: seq<T>, mark: nat, data2: seq<T>, e: Event<T>)
    returns (log2: seq<Event<T>>)
    requires StrictWeak(less) && Kept(less, q, log, done, data, mark, None)
    requires 0 < mark < |data| && PushedDown(less, data, mark, data2) && Takes(e) && e.elem == data[0]
    ensures Kept(less, q, log2, done + multiset{e}, data2, mark, HeldAfter(e))
  {
    var n, items := |data| - 1, multiset(data[..mark]);
    TopIsAllowed(less, data, mark, e);
    TakeAfter(items, e);
    log2 := TakeThenPut(less, q, log, items, e, data[n]);
    WaitingPuts(data, mark, data2);
    Regroup(multiset(log), multiset{e}, multiset{Put(data[n])}, Puts(data2[mark..]));
  }

  lemma WaitingPuts<T>(data: seq<T>, mark: nat, data2: seq<T>)
    requires mark < |data| && |data2| == |data| - 1 && data2[mark..] == data[mark..|data| - 1]
    ensures Puts(data[mark..]) == Puts(data2[mark..]) + multiset{Put(data[|data| - 1])}
  {
    var n := |data| - 1;
    assert data[mark..] == data[mark..n] + [data[n]];
    PutsLast(data[mark..n], data[n]);
  }

  lemma TakeThenPut<T>(less: (T, T) -> bool, q: Pool<T>, log: seq<Event<T>>, items: multiset<T>, e: Event<T>, x: T)
    returns (log2: seq<Event<T>>)
    requires Legal(less, q, log, Pool(items, None)) && Takes(e) && Allowed(less, Pool(items, None), e)
    ensures Legal(less, q, log2, Pool(items - multiset{e.elem} + multiset{x}, HeldAfter(e)))
    ensures multiset(log2) == multiset(log) + multiset{e} + multiset{Put(x)}
  {
    LegalMore(less, q, log, Pool(items, None), e);
    TakeAfter(items, e);
    LegalMore(less, q, log + [e], Pool(items - multiset{e.elem}, HeldAfter(e)), Put(x));
    log2 := log + [e] + [Put(x)];
  }

  lemma Regroup<T>(a: multiset<T>, b: multiset<T>, c: multiset<T>, d: multiset<T>)
    ensures a + b + c + d == a + (d + c) + b
  {
  }

  lemma TakeOnlyKept<T(!new)>(less: (T, T) -> bool, q: Pool<T>, log: seq<Event<T>>, done: multiset<Event<T>>,
                              data: seq<T>, data2: seq<T>, e: Event<T>)
    returns (log2: seq<Event<T>>)
    requires StrictWeak(less) && Kept(less, q, log, done, data, |data|, None)
    requires data != [] && PushedDown(less, data, |data|, data2) && Takes(e) && e.elem == data[0]
    ensures Kept(less, q, log2, done + multiset{e}, data2, |data| - 1, HeldAfter(e))
  {
    TopIsAllowed(less, data, |data|, e);
    WholeHeapPopped(less, data, data2);
    assert data[..|data|] == data && data2[..|data| - 1] == data2;
    assert data[|data|..] == data2[|data| - 1..] == [];
    LegalMore(less, q, log, Pool(multiset(data), None), e);
    TakeAfter(multiset(data), e);
    log2 := log + [e];
  }

  /** The waiting items are put, one after the other. */
  lemma {:induction false} PutAllKept<T>(less: (T, T) -> bool, q: Pool<T>, log: seq<Event<T>>, items: multiset<T>,
                                         held: Option<T>, rest: seq<T>)
    returns (log2: seq<Event<T>>)
    requires Legal(less, q, log, Pool(items, held))
    ensures Legal(less, q, log2, Pool(items + multiset(rest), held))
    ensures multiset(log2) == multiset(log) + Puts(rest)
    decreases |rest|
  {
    if rest == [] {
      log2 := log;
      assert items + multiset(rest) == items && PutSeq(rest) == [];
    } else {
      var k := |rest| - 1;
      var before := items + multiset(rest[..k]);
      var log1 := PutAllKept(less, q, log, items, held, rest[..k]);
      LegalMore(less, q, log1, Pool(before, held), Put(rest[k]));
      log2 := log1 + [Put(rest[k])];
      assert rest == rest[..k] + [rest[k]];
      PutsLast(rest[..k], rest[k]);
      assert before + multiset{rest[k]} == items + multiset(rest);
    }
  }

  lemma HeapifyKept<T>(less: (T, T) -> bool, q: Pool<T>, log: seq<Event<T>>, done: multiset<Event<T>>,
                       data: seq<T>, mark: nat, held: Option<T>, data2: seq<T>)
    returns (log2: seq<Event<T>>)
    requires Kept(less, q, log, done, data, mark, held)
    requires Heap(less, data2, |data2|) && multiset(data2) == multiset(data)
    ensures Kept(less, q, log2, done, data2, |data2|, held)
  {
    log2 := PutAllKept(less, q, log, multiset(data[..mark]), held, data[mark..]);
    MultisetOfSplit(data, mark);
    assert data2[..|data2|] == data2;
  }

  /** Release: the waiting items are put, and the reserved one comes back. */
  lemma ReleaseKept<T>(less: (T, T) -> bool, q: Pool<T>, log: seq<Event<T>>, done: multiset<Event<T>>,
                       data: seq<T>, mark: nat, x: T, data2: seq<T>)
    returns (log2: seq<Event<T>>)
    requires Kept(less, q, log, done, data, mark, Some(x))
    requires Heap(less, data2, |data2|) && multiset(data2) == multiset(data + [x])
    ensures Kept(less, q, log2, done + multiset{Released}, data2, |data2|, None)
  {
    var log1 := PutAllKept(less, q, log, multiset(data[..mark]), Some(x), data[mark..]);
    MultisetOfSplit(data, mark);
    LegalMore(less, q, log1, Pool(multiset(data), Some(x)), Released);
    log2 := log1 + [Released];
    assert data2[..|data2|] == data2;
  }

  // ---------------------------------------------------------------- the node

  /** An operation; a forwarding task offers items to successors, which answer whether they take one. */
  datatype Operation<T> =
    | PutItem(elem: T) | RequestItem | ReserveItem | ConsumeReserved | ReleaseReserved
    | ForwardTask(answers: seq<bool>)

  /** The event is one of those that the operation may have. */
  ghost predicate Answers<T>(op: Operation<T>, e: Event<T>) {
    match op
    case PutItem(x) => e == Put(x)
    case RequestItem => e.Got? || e.Refused?
    case ReserveItem => e.Reserved? || e.Refused?
    case ConsumeReserved => e.Consumed?
    case ReleaseReserved => e.Released?
    case ForwardTask(_) => e.Forwarded? || e.Refused?
  }

  /** How often the operations consume or release. */
  function Ends<T>(ops: seq<Operation<T>>): nat {
    if ops == [] then 0 else (if ops[0].ConsumeReserved? || ops[0].ReleaseReserved? then 1 else 0) + Ends(ops[1..])
  }

  /** How many of the answers are that the item is taken. */
  function Accepted(answers: seq<bool>): (n: nat)
    ensures n <= |answers|
  {
    if answers == [] then 0
    else Accepted(answers[..|answers| - 1]) + if answers[|answers| - 1] then 1 else 0
  }

  /** How many items the node has besides a reserved one, and whether there is one. */
  datatype Stock = Stock(count: int, reserved: bool)

  function AfterEvent<T>(s: Stock, e: Event<T>): Stock {
    match e
    case Put(_) => s.(count := s.count + 1)
    case Got(_) => s.(count := s.count - 1)
    case Forwarded(_) => s.(count := s.count - 1)
    case Reserved(_) => Stock(s.count - 1, true)
    case Refused => s
    case Consumed => s.(reserved := false)
    case Released => Stock(s.count + 1, false)
  }

  function AfterEvents<T>(s: Stock, events: seq<Event<T>>): Stock {
    if events == [] then s else AfterEvent(AfterEvents(s, events[..|events| - 1]), events[|events| - 1])
  }

  function AfterAll<T>(s: Stock, outcomes: seq<seq<Event<T>>>): Stock {
    if outcomes == [] then s
    else AfterEvents(AfterAll(s, outcomes[..|outcomes| - 1]), outcomes[|outcomes| - 1])
  }

  /** How many items a forwarding task hands out. */
  function Taken(answers: seq<bool>, s: Stock): int {
    if s.reserved then 0 else if Accepted(answers) <= s.count then Accepted(answers) else s.count
  }

  /** What the operation does to a node with stock `s`: something is handed out exactly if nothing is
      reserved and there is an item; a forwarding task hands out an item for each successor that takes
      one, and is refused one if there are not enough. */
  ghost predicate Outcome<T>(op: Operation<T>, events: seq<Event<T>>, s: Stock) {
    && (forall k :: 0 <= k < |events| ==> Answers(op, events[k]))
    && if op.ForwardTask? then
         var n := Taken(op.answers, s);
         && |events| == n + (if n < Accepted(op.answers) then 1 else 0)
         && forall k :: 0 <= k < |events| ==> (events[k].Forwarded? <==> k < n)
       else
         |events| == 1 && (events[0].Refused? ==> s.reserved || s.count == 0)
         && (op.RequestItem? || op.ReserveItem? ==> (s.reserved || s.count == 0 ==> events[0].Refused?))
  }

  lemma OneAfter<T>(s: Stock, e: Event<T>)
    ensures AfterEvents(s, [e]) == AfterEvent(s, e)
  {
    assert [e][..0] == [];
  }

  lemma AfterMore<T>(s: Stock, outcomes: seq<seq<Event<T>>>, events: seq<Event<T>>)
    ensures AfterAll(s, outcomes + [events]) == AfterEvents(AfterAll(s, outcomes), events)
  {
    assert (outcomes + [events])[..|outcomes|] == outcomes;
  }

  /** Items forwarded, and a refusal that may follow them. */
  lemma {:induction false} AfterForwards<T>(s: Stock, events: seq<Event<T>>, n: nat)
    requires n <= |events| <= n + 1
    requires forall k :: 0 <= k < |events| ==> if k < n then events[k].Forwarded? else events[k].Refused?
    ensures AfterEvents(s, events) == s.(count := s.count - n)
    decreases |events|
  {
    if events != [] {
      var rest := events[..|events| - 1];
      AfterForwards(s, rest, if |events| == n then n - 1 else n);
    }
  }

  lemma ForwardOutcome<T>(answers: seq<bool>, forwarded: seq<Event<T>>, events: seq<Event<T>>, s: Stock)
    requires s.count >= 0 && |forwarded| == Taken(answers, s)
    requires forall k :: 0 <= k < |forwarded| ==> forwarded[k].Forwarded?
    requires events == if |forwarded| < Accepted(answers) then forwarded + [Refused] else forwarded
    ensures Outcome(ForwardTask(answers), events, s)
    ensures AfterEvents(s, events) == s.(count := s.count - |forwarded|)
  {
    AfterForwards(s, events, |forwarded|);
  }

  lemma AcceptedNext(answers: seq<bool>, n: nat)
    requires n < |answers|
    ensures Accepted(answers[..n + 1]) == Accepted(answers[..n]) + if answers[n] then 1 else 0
  {
    assert answers[..n + 1][..n] == answers[..n];
  }

  lemma OneEventMore<T>(done: multiset<Event<T>>, events: seq<Event<T>>, e: Event<T>)
    ensures done + multiset(events + [e]) == done + multiset(events) + multiset{e}
  {
  }

  lemma {:induction false} AcceptedMonotone(answers: seq<bool>, n: nat)
    requires n <= |answers|
    ensures Accepted(answers[..n]) <= Accepted(answers)
    ensures n < |answers| ==> Accepted(answers[..n]) <= Accepted(answers[..|answers| - 1])
  {
    if n < |answers| {
      var rest := answers[..|answers| - 1];
      AcceptedMonotone(rest, n);
      assert rest[..n] == answers[..n];
    } else {
      assert answers[..n] == answers;
    }
  }

  ghost function AllEvents<T>(outcomes: seq<seq<Event<T>>>): multiset<Event<T>> {
    if outcomes == [] then multiset{} else AllEvents(outcomes[..|outcomes| - 1]) + multiset(outcomes[|outcomes| - 1])
  }

  lemma AllEventsMore<T>(outcomes: seq<seq<Event<T>>>, events: seq<Event<T>>)
    ensures AllEvents(outcomes + [events]) == AllEvents(outcomes) + multiset(events)
  {
    assert (outcomes + [events])[..|outcomes|] == outcomes;
  }

  /** The events could have happened one after the other in some order, leading from `q` to `to`. */
  ghost predicate Linearizable<T(!new)>(less: (T, T) -> bool, q: Pool<T>, done: multiset<Event<T>>, to: Pool<T>) {
    exists log: seq<Event<T>> :: multiset(log) == done && Legal(less, q, log, to)
  }

  lemma FirstReplaced<T>(items: seq<T>, m: nat, x: T)
    requires 0 < m <= |items|
    ensures multiset(items[0 := x][..m]) == multiset(items[..m]) - multiset{items[0]} + multiset{x}
  {
    assert items[0 := x][..m] == items[..m][0 := x];
  }

  // ---------------------------------------------------------------- one batch after the other

  ghost predicate IsBatch<T(!new)>(less: (T, T) -> bool, pools: seq<Pool<T>>, batches: seq<multiset<Event<T>>>, i: nat)
    requires |pools| == |batches| + 1 && i < |batches|
  {
    Linearizable(less, pools[i], batches[i], pools[i + 1])
  }

  /** What was held before and after each of the batches with these events. */
  ghost predicate AreBatches<T(!new)>(less: (T, T) -> bool, pools: seq<Pool<T>>, batches: seq<multiset<Event<T>>>) {
    && |pools| == |batches| + 1
    && forall i {:trigger IsBatch(less, pools, batches, i)} :: 0 <= i < |batches| ==> IsBatch(less, pools, batches, i)
  }

  ghost function Concat<T>(logs: seq<seq<Event<T>>>): seq<Event<T>> {
    if logs == [] then [] else Concat(logs[..|logs| - 1]) + logs[|logs| - 1]
  }

  /** The events of all batches could have happened one after the other, those of each batch in
      some order. */
  lemma {:induction false} BatchesAreHistory<T(!new)>(less: (T, T) -> bool, pools: seq<Pool<T>>,
                                                      batches: seq<multiset<Event<T>>>)
    returns (logs: seq<seq<Event<T>>>)
    requires AreBatches(less, pools, batches)
    ensures |logs| == |batches| && forall i :: 0 <= i < |batches| ==> multiset(logs[i]) == batches[i]
    ensures Legal(less, pools[0], Concat(logs), pools[|batches|])
    decreases |batches|
  {
    if batches == [] {
      logs := [];
    } else {
      var n := |batches| - 1;
      EarlierBatches(less, pools, batches);
      var earlier := BatchesAreHistory(less, pools[..n + 1], batches[..n]);
      var log := LogOfBatch(less, pools, batches, n);
      LegalJoin(less, pools[0], Concat(earlier), pools[n], log, pools[n + 1]);
      logs := earlier + [log];
      assert logs[..n] == earlier;
    }
  }

  lemma LogOfBatch<T(!new)>(less: (T, T) -> bool, pools: seq<Pool<T>>, batches: seq<multiset<Event<T>>>, i: nat)
    returns (log: seq<Event<T>>)
    requires AreBatches(less, pools, batches) && i < |batches|
    ensures multiset(log) == batches[i] && Legal(less, pools[i], log, pools[i + 1])
  {
    assert IsBatch(less, pools, batches, i);
    log :| multiset(log) == batches[i] && Legal(less, pools[i], log, pools[i + 1]);
  }

  /** Nothing is lost over any sequence of batches. */
  lemma NothingLostOverBatches<T(!new)>(less: (T, T) -> bool, pools: seq<Pool<T>>, batches: seq<multiset<Event<T>>>)
    returns (logs: seq<seq<Event<T>>>)
    requires AreBatches(less, pools, batches)
    ensures |logs| == |batches| && forall i :: 0 <= i < |batches| ==> multiset(logs[i]) == batches[i]
    ensures Everything(pools[0]) + Incoming(Concat(logs))
         == Everything(pools[|batches|]) + Outgoing(Concat(logs), pools[0].held)
  {
    logs := BatchesAreHistory(less, pools, batches);
    NothingLost(less, pools[0], Concat(logs), pools[|batches|]);
  }

  lemma EarlierBatches<T(!new)>(less: (T, T) -> bool, pools: seq<Pool<T>>, batches: seq<multiset<Event<T>>>)
    requires AreBatches(less, pools, batches) && batches != []
    ensures AreBatches(less, pools[..|batches|], batches[..|batches| - 1])
  {
    var ps, bs := pools[..|batches|], batches[..|batches| - 1];
    forall i: nat {:trigger IsBatch(less, ps, bs, i)} | i < |bs|
      ensures IsBatch(less, ps, bs, i)
    {
      assert IsBatch(less, pools, batches, i);
    }
  }

  lemma OneBatchMore<T(!new)>(less: (T, T) -> bool, pools: seq<Pool<T>>, batches: seq<multiset<Event<T>>>,
                              batch: multiset<Event<T>>, to: Pool<T>)
    requires AreBatches(less, pools, batches) && Linearizable(less, pools[|batches|], batch, to)
    ensures AreBatches(less, pools + [to], batches + [batch])
  {
    var ps, bs := pools + [to], batches + [batch];
    forall i: nat {:trigger IsBatch(less, ps, bs, i)} | i < |bs|
      ensures IsBatch(less, ps, bs, i)
    {
      assert i < |batches| ==> IsBatch(less, pools, batches, i);
    }
  }

  /** The last of `items[..tail + 1]` goes into the first place and down the heap, whether the
      first one has been overwritten with it or not. */
  lemma PushedDownAnyway<T>(less: (T, T) -> bool, items: seq<T>, mark: nat, r: seq<T>)
    requires items != [] && mark <= |items|
    requires PushedDown(less, items[0 := items[|items| - 1]], if mark == |items| then mark - 1 else mark, r)
    ensures PushedDown(less, items, mark, r)
  {
    if mark > 0 && |items| > 1 {
      IntoHeapAnyway(less, items, mark, r);
    } else {
      var n := |items| - 1;
      assert n > 0 ==> items[0 := items[n]][1..n] == items[1..n];
    }
  }

  lemma IntoHeapAnyway<T>(less: (T, T) -> bool, items: seq<T>, mark: nat, r: seq<T>)
    requires |items| > 1 && 0 < mark <= |items|
    requires PushedDown(less, items[0 := items[|items| - 1]], if mark == |items| then mark - 1 else mark, r)
    ensures PushedDown(less, items, mark, r)
  {
    var n := |items| - 1;
    var s := items[0 := items[n]];
    var m: nat := if mark < |items| then mark else n;
    SameBesideFirst(items, m);
    TakenAndPut(multiset(items[..m]) - multiset{items[0]}, items[n]);
  }

  lemma SameBesideFirst<T>(items: seq<T>, m: nat)
    requires |items| > 1 && 0 < m < |items|
    ensures var n := |items| - 1;
            var s := items[0 := items[n]];
            && multiset(s[..m]) == multiset(items[..m]) - multiset{items[0]} + multiset{items[n]}
            && s[m..n] == items[m..n]
  {
    var n := |items| - 1;
    FirstReplaced(items, m, items[n]);
    assert items[0 := items[n]][m..n] == items[m..n];
  }

  lemma TakenAndPut<T>(a: multiset<T>, x: T)
    ensures a + multiset{x} - multiset{x} + multiset{x} == a + multiset{x}
  {
  }

  class Node<T(!new)> {
    var items: seq<T>
    var tail: nat
    var mark: nat
    var reserved: bool
    var reservedItem: T
    const less: (T, T) -> bool

    /** What is held in reserve. */
    function Held(): Option<T>
      reads this
    {
      if reserved then Some(reservedItem) else None
    }

    function Stocked(): Stock
      reads this
    {
      Stock(tail, reserved)
    }

    ghost predicate InBatch(q: Pool<T>, log: seq<Event<T>>, done: multiset<Event<T>>)
      reads this
    {
      StrictWeak(less) && tail <= |items| && Kept(less, q, log, done, items[..tail], mark, Held())
    }

    /** Between batches all items are in the heap. */
    ghost predicate Valid()
      reads this
    {
      StrictWeak(less) && mark == tail <= |items| && Heap(less, items[..tail], tail)
    }

    ghost function Contents(): Pool<T>
      requires tail <= |items|
      reads this
    {
      Pool(multiset(items[..tail]), Held())
    }

    constructor (less: (T, T) -> bool, any: T)
      requires StrictWeak(less)
      ensures Valid() && Contents() == Pool(multiset{}, None) && this.less == less
    {
      items, tail, mark, reserved, reservedItem := [], 0, 0, false, any;
      this.less := less;
    }

    /** Storing an item behind all others; the array grows if it is full. */
    method Append(x: T)
      requires tail <= |items|
      modifies this`items, this`tail
      ensures tail == old(tail) + 1 <= |items| && items[..tail] == old(items[..tail]) + [x]
    {
      if tail >= |items| {
        items := items + [x];
      } else {
        items := items[tail := x];
      }
      tail := tail + 1;
    }

    method Heapify()
      requires StrictWeak(less) && 0 < tail <= |items| && mark <= tail && Heap(less, items[..tail], mark)
      modifies this`items, this`mark
      ensures mark == tail == old(tail) <= |items| && Heap(less, items[..tail], tail)
      ensures multiset(items[..tail]) == multiset(old(items[..tail]))
    {
      if mark == 0 {
        mark := 1;
      }
      while mark < tail
        invariant 1 <= mark <= tail <= |items| && Heap(less, items[..tail], mark)
        invariant multiset(items[..tail]) == multiset(old(items[..tail]))
      {
        var was := items[..tail];
        var r := PushUp(less, was, mark);
        MultisetOfSplit(was, mark + 1);
        MultisetOfSplit(r, mark + 1);
        items := r + items[tail..];
        assert items[..tail] == r;
        mark := mark + 1;
      }
    }

    /** Takes the first item out, as `internal_pop`, `internal_reserve` and the forwarding task do. */
    method TakeFirst()
      requires StrictWeak(less) && 0 < tail <= |items| && mark <= tail && Heap(less, items[..tail], mark)
      modifies this`items, this`tail, this`mark
      ensures tail == old(tail) - 1 && tail <= |items|
      ensures mark == if old(mark) < old(tail) then old(mark) else old(tail) - 1
      ensures PushedDown(less, old(items[..tail]), old(mark), items[..tail])
    {
      ghost var was, markWas := items[..tail], mark;
      if mark == tail {
        mark := mark - 1;
      }
      tail := tail - 1;
      items := items[0 := items[tail]];
      ghost var s := was[0 := was[tail]];
      assert items[..tail + 1] == s;
      OrderBelowFirst(less, was, markWas, mark, was[tail]);
      if tail > 1 {
        Reheap();
      } else {
        SmallHeap(less, s, mark, items[..tail]);
      }
      PushedDownAnyway(less, was, markWas, items[..tail]);
    }

    /** The element behind the last one goes into the first place, and down the heap. */
    method Reheap()
      requires StrictWeak(less) && 1 < tail < |items| && mark <= tail && HeapFrom(less, items[..tail + 1], 3, mark)
      modifies this`items
      ensures tail <= |items| && PushedDown(less, old(items[..tail + 1]), mark, items[..tail])
    {
      var r := PushDown(less, items[..tail + 1], mark);
      items := r + items[tail..];
      assert items[..tail] == r;
    }

    /** Only the order around the first item may be broken. */
    static lemma OrderBelowFirst(less: (T, T) -> bool, s: seq<T>, mark: nat, n: nat, x: T)
      requires n <= mark <= |s| && s != [] && Heap(less, s, mark)
      ensures HeapFrom(less, s[0 := x], 3, n)
    {
    }

    static lemma SmallHeap(less: (T, T) -> bool, s: seq<T>, mark: nat, r: seq<T>)
      requires 1 <= |s| <= 2 && mark < |s| && s[0] == s[|s| - 1] && r == s[..|s| - 1]
      ensures PushedDown(less, s, mark, r)
    {
      if |s| == 2 {
        assert r == [s[0]] && s[..1] == [s[0]] && s[1..1] == [];
      }
    }

    method InternalPush(x: T, ghost q: Pool<T>, ghost log: seq<Event<T>>, ghost done: multiset<Event<T>>)
      requires InBatch(q, log, done)
      modifies this
      ensures InBatch(q, log, done + multiset{Put(x)}) && reserved == old(reserved) && tail == old(tail) + 1
    {
      PutKept(less, q, log, done, items[..tail], mark, Held(), x);
      Append(x);
    }

    /** The first item leaves with the event `e`. */
    method HandOut(e: Event<T>, ghost q: Pool<T>, ghost log: seq<Event<T>>, ghost done: multiset<Event<T>>)
      returns (ghost log2: seq<Event<T>>)
      requires InBatch(q, log, done) && !reserved && tail > 0 && Takes(e) && e.elem == items[0]
      modifies this
      ensures InBatch(q, log2, done + multiset{e}) && reserved == e.Reserved? && tail == old(tail) - 1
    {
      ghost var was, markWas := items[..tail], mark;
      if e.Reserved? {
        reserved, reservedItem := true, items[0];
      }
      ghost var held := Held();
      assert held == HeldAfter(e);
      TakeFirst();
      assert Held() == held;
      log2 := TakeTopKept(less, q, log, done, was, markWas, items[..tail], e);
      assert mark == (if markWas < |was| then markWas else |was| - 1);
      assert Kept(less, q, log2, done + multiset{e}, items[..tail], mark, Held());
    }

    /** Nothing can be handed out. */
    method Refuse(ghost q: Pool<T>, ghost log: seq<Event<T>>, ghost done: multiset<Event<T>>)
      returns (e: Event<T>, ghost log2: seq<Event<T>>)
      requires InBatch(q, log, done) && (reserved || tail == 0)
      ensures e.Refused? && InBatch(q, log2, done + multiset{e})
    {
      e := Refused;
      OtherKept(less, q, log, done, items[..tail], mark, Held(), e);
      log2 := log + [e];
    }

    method InternalPop(ghost q: Pool<T>, ghost log: seq<Event<T>>, ghost done: multiset<Event<T>>)
      returns (e: Event<T>, ghost log2: seq<Event<T>>)
      requires InBatch(q, log, done)
      modifies this
      ensures (e.Refused? || e.Got?) && (e.Refused? <==> old(reserved) || old(tail) == 0)
      ensures e.Got? ==> e.elem == if old(mark) < old(tail) && less(old(items)[0], old(items)[old(tail) - 1])
                                   then old(items)[old(tail) - 1] else old(items)[0]
      ensures InBatch(q, log2, done + multiset{e}) && reserved == old(reserved)
      ensures tail == old(tail) - if e.Got? then 1 else 0
    {
      if reserved || tail == 0 {
        e, log2 := Refuse(q, log, done);
      } else if mark < tail && less(items[0], items[tail - 1]) {
        e := Got(items[tail - 1]);
        log2 := PopLastKept(less, q, log, done, items[..tail], mark);
        tail := tail - 1;
        assert items[..tail] == old(items[..tail])[..tail];
      } else {
        e := Got(items[0]);
        log2 := HandOut(e, q, log, done);
      }
    }

    method InternalReserve(ghost q: Pool<T>, ghost log: seq<Event<T>>, ghost done: multiset<Event<T>>)
      returns (e: Event<T>, ghost log2: seq<Event<T>>)
      requires InBatch(q, log, done)
      modifies this
      ensures (e.Refused? || e.Reserved?) && (e.Refused? <==> old(reserved) || old(tail) == 0)
      ensures e.Reserved? ==> e.elem == old(items)[0]
      ensures InBatch(q, log2, done + multiset{e}) && reserved == (old(reserved) || e.Reserved?)
      ensures tail == old(tail) - if e.Reserved? then 1 else 0
    {
      if reserved || tail == 0 {
        e, log2 := Refuse(q, log, done);
      } else {
        e := Reserved(items[0]);
        log2 := HandOut(e, q, log, done);
      }
    }

    method InternalConsume(ghost q: Pool<T>, ghost log: seq<Event<T>>, ghost done: multiset<Event<T>>)
      returns (ghost log2: seq<Event<T>>)
      requires InBatch(q, log, done) && reserved
      modifies this
      ensures InBatch(q, log2, done + multiset{Consumed}) && !reserved && tail == old(tail)
    {
      OtherKept(less, q, log, done, items[..tail], mark, Held(), Consumed);
      log2 := log + [Consumed];
      reserved := false;
    }

    /** Release restores a full heap. */
    method InternalRelease(ghost q: Pool<T>, ghost log: seq<Event<T>>, ghost done: multiset<Event<T>>)
      returns (ghost log2: seq<Event<T>>)
      requires InBatch(q, log, done) && reserved
      modifies this
      ensures InBatch(q, log2, done + multiset{Released}) && !reserved && Valid() && tail == old(tail) + 1
    {
      ghost var was, markWas := items[..tail], mark;
      Append(reservedItem);
      HeapOfMore(less, was, items[..tail], mark);
      reserved := false;
      Heapify();
      log2 := ReleaseKept(less, q, log, done, was, markWas, reservedItem, items[..tail]);
    }

    static lemma HeapOfMore(less: (T, T) -> bool, s: seq<T>, r: seq<T>, n: nat)
      requires n <= |s| <= |r| && r[..|s|] == s && Heap(less, s, n)
      ensures Heap(less, r, n)
    {
      assert forall i: nat :: i < |s| ==> r[i] == r[..|s|][i] == s[i];
    }

    /** The successors are offered the first item in turn.  Each one that takes it gets the next one,
        as long as there are any and none is reserved; the task has succeeded if all have been asked
        and one has taken an item. */
    method InternalForwardTask(answers: seq<bool>, ghost q: Pool<T>, ghost log: seq<Event<T>>,
                               ghost done: multiset<Event<T>>)
      returns (events: seq<Event<T>>, ok: bool, ghost log2: seq<Event<T>>)
      requires InBatch(q, log, done)
      modifies this
      ensures forall k :: 0 <= k < |events| ==> events[k].Forwarded?
      ensures |events| == if old(reserved) then 0
                          else if Accepted(answers) <= old(tail) then Accepted(answers) else old(tail)
      ensures ok <==> events != [] && Accepted(answers[..|answers| - 1]) < old(tail)
      ensures InBatch(q, log2, done + multiset(events)) && reserved == old(reserved) && tail == old(tail) - |events|
    {
      events, ok, log2 := [], false, log;
      assert done + multiset(events) == done;
      if reserved || tail == 0 {
        return;
      }
      var n := 0;
      while n < |answers| && tail > 0
        invariant n <= |answers| && !reserved && |events| == Accepted(answers[..n]) && tail == old(tail) - |events|
        invariant n > 0 ==> Accepted(answers[..n - 1]) < old(tail)
        invariant forall k :: 0 <= k < |events| ==> events[k].Forwarded?
        invariant InBatch(q, log2, done + multiset(events))
      {
        AcceptedNext(answers, n);
        if answers[n] {
          var e := Forwarded(items[0]);
          log2 := HandOut(e, q, log2, done + multiset(events));
          OneEventMore(done, events, e);
          events := events + [e];
        }
        n := n + 1;
      }
      AcceptedMonotone(answers, n);
      assert answers[..|answers|] == answers;
      ok := events != [] && n == |answers|;
    }

    /** The same with a refusal, if a successor would have taken an item that there is not. */
    method Forward(answers: seq<bool>, ghost q: Pool<T>, ghost log: seq<Event<T>>, ghost done: multiset<Event<T>>)
      returns (events: seq<Event<T>>, ghost log2: seq<Event<T>>)
      requires InBatch(q, log, done)
      modifies this
      ensures Outcome(ForwardTask(answers), events, old(Stocked()))
      ensures AfterEvents(old(Stocked()), events) == Stocked()
      ensures InBatch(q, log2, done + multiset(events))
    {
      var ok;
      events, ok, log2 := InternalForwardTask(answers, q, log, done);
      ghost var forwarded := events;
      if |events| < Accepted(answers) {
        var e;
        e, log2 := Refuse(q, log2, done + multiset(events));
        OneEventMore(done, events, e);
        events := events + [e];
      }
      ForwardOutcome(answers, forwarded, events, old(Stocked()));
    }

    /** One operation that has one event. */
    method HandleOne(op: Operation<T>, ghost q: Pool<T>, ghost log: seq<Event<T>>, ghost done: multiset<Event<T>>)
      returns (e: Event<T>, ghost log2: seq<Event<T>>)
      requires InBatch(q, log, done) && (op.ConsumeReserved? || op.ReleaseReserved? ==> reserved) && !op.ForwardTask?
      modifies this
      ensures Answers(op, e) && AfterEvent(old(Stocked()), e) == Stocked()
      ensures e.Refused? <==> (op.RequestItem? || op.ReserveItem?) && (old(reserved) || old(tail) == 0)
      ensures InBatch(q, log2, done + multiset{e})
    {
      if op.PutItem? {
        InternalPush(op.elem, q, log, done);
        e, log2 := Put(op.elem), log;
      } else if op.RequestItem? {
        e, log2 := InternalPop(q, log, done);
      } else if op.ReserveItem? {
        e, log2 := InternalReserve(q, log, done);
      } else {
        e, log2 := EndReservation(op.ConsumeReserved?, q, log, done);
      }
    }

    /** The reserved item is consumed, or released. */
    method EndReservation(consumed: bool, ghost q: Pool<T>, ghost log: seq<Event<T>>, ghost done: multiset<Event<T>>)
      returns (e: Event<T>, ghost log2: seq<Event<T>>)
      requires InBatch(q, log, done) && reserved
      modifies this
      ensures e == (if consumed then Consumed else Released) && AfterEvent(old(Stocked()), e) == Stocked()
      ensures InBatch(q, log2, done + multiset{e})
    {
      if consumed {
        log2 := InternalConsume(q, log, done);
        e := Consumed;
      } else {
        log2 := InternalRelease(q, log, done);
        e := Released;
      }
    }

    /** One operation of a batch.  Whoever consumes or releases holds the reservation. */
    method Handle(op: Operation<T>, ghost q: Pool<T>, ghost log: seq<Event<T>>, ghost done: multiset<Event<T>>)
      returns (events: seq<Event<T>>, ghost log2: seq<Event<T>>)
      requires InBatch(q, log, done) && (op.ConsumeReserved? || op.ReleaseReserved? ==> reserved)
      modifies this
      ensures Outcome(op, events, old(Stocked())) && AfterEvents(old(Stocked()), events) == Stocked()
      ensures InBatch(q, log2, done + multiset(events))
      ensures (op.ConsumeReserved? || op.ReleaseReserved? ==> !reserved)
      ensures !op.ConsumeReserved? && !op.ReleaseReserved? && old(reserved) ==> reserved
    {
      if op.ForwardTask? {
        events, log2 := Forward(op.answers, q, log, done);
      } else {
        var e;
        e, log2 := HandleOne(op, q, log, done);
        OneAfter(old(Stocked()), e);
        events := [e];
        assert multiset(events) == multiset{e};
      }
    }

    /** `handle_operations`: every operation has the outcome that the ones before it leave it, and the
        events could have happened one after the other in some order; the heap is whole again. */
    method HandleOperations(ops: seq<Operation<T>>) returns (outcomes: seq<seq<Event<T>>>)
      requires Valid() && Ends(ops) <= if reserved then 1 else 0
      modifies this
      ensures Valid() && |outcomes| == |ops|
      ensures forall i :: 0 <= i < |ops| ==> Outcome(ops[i], outcomes[i], AfterAll(old(Stocked()), outcomes[..i]))
      ensures Linearizable(less, old(Contents()), AllEvents(outcomes), Contents())
    {
      ghost var q, log, stock := Contents(), [], Stocked();
      outcomes := [];
      assert items[..tail][..tail] == items[..tail];
      assert ops[0..] == ops;
      for i := 0 to |ops|
        invariant |outcomes| == i && InBatch(q, log, AllEvents(outcomes))
        invariant Ends(ops[i..]) <= if reserved then 1 else 0
        invariant Stocked() == AfterAll(stock, outcomes)
        invariant forall k :: 0 <= k < i ==> Outcome(ops[k], outcomes[k], AfterAll(stock, outcomes[..k]))
      {
        assert ops[i..][1..] == ops[i + 1..];
        var events;
        events, log := Handle(ops[i], q, log, AllEvents(outcomes));
        AllEventsMore(outcomes, events);
        AfterMore(stock, outcomes, events);
        OutcomeMore(ops, outcomes, events, stock);
        outcomes := outcomes + [events];
      }
      EndBatch(q, log, AllEvents(outcomes));
    }

    static lemma OutcomeMore(ops: seq<Operation<T>>, outcomes: seq<seq<Event<T>>>, events: seq<Event<T>>, stock: Stock)
      requires |outcomes| < |ops| && Outcome(ops[|outcomes|], events, AfterAll(stock, outcomes))
      requires forall k :: 0 <= k < |outcomes| ==> Outcome(ops[k], outcomes[k], AfterAll(stock, outcomes[..k]))
      ensures var more := outcomes + [events];
              forall k :: 0 <= k < |more| ==> Outcome(ops[k], more[k], AfterAll(stock, more[..k]))
    {
      var more := outcomes + [events];
      forall k | 0 <= k < |more|
        ensures Outcome(ops[k], more[k], AfterAll(stock, more[..k]))
      {
        assert more[..k] == outcomes[..k];
        assert outcomes[..|outcomes|] == outcomes;
      }
    }

    /** What still waits joins the heap. */
    method EndBatch(ghost q: Pool<T>, ghost log: seq<Event<T>>, ghost done: multiset<Event<T>>)
      requires InBatch(q, log, done)
      modifies this
      ensures Valid() && Linearizable(less, q, done, Contents())
    {
      ghost var log2 := log;
      if mark < tail {
        ghost var was, markWas := items[..tail], mark;
        Heapify();
        log2 := HeapifyKept(less, q, log, done, was, markWas, Held(), items[..tail]);
      }
      AllInHeap(less, q, log2, done, items[..tail], Held());
    }

    static lemma AllInHeap(less: (T, T) -> bool, q: Pool<T>, log: seq<Event<T>>, done: multiset<Event<T>>,
                           data: seq<T>, held: Option<T>)
      requires Kept(less, q, log, done, data, |data|, held)
      ensures Linearizable(less, q, done, Pool(multiset(data), held))
    {
      assert data[..|data|] == data && data[|data|..] == [];
      assert multiset(log) == done;
    }

    /** Any number of batches, of any operations that whoever holds the reservation may ask for. */
    method HandleBatches(rounds: nat) returns (ghost pools: seq<Pool<T>>, ghost batches: seq<multiset<Event<T>>>)
      requires Valid()
      modifies this
      ensures Valid() && |batches| == rounds && AreBatches(less, pools, batches)
      ensures pools[0] == old(Contents()) && pools[rounds] == Contents()
    {
      pools, batches := [Contents()], [];
      for i := 0 to rounds
        invariant Valid() && |batches| == i && AreBatches(less, pools, batches)
        invariant pools[0] == old(Contents()) && pools[i] == Contents()
      {
        var ops: seq<Operation<T>> := *;
        if Ends(ops) > if reserved then 1 else 0 {
          ops := [];
        }
        var outcomes := HandleOperations(ops);
        OneBatchMore(less, pools, batches, AllEvents(outcomes), Contents());
        pools, batches := pools + [Contents()], batches + [AllEvents(outcomes)];
      }
    }
  }
}
