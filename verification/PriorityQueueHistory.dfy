/** The sequential priority queue, which the batched one must look like: a multiset, from which
    a pop takes a maximal element, and fails only on an empty queue. */
module PriorityQueueHistory {

  datatype Event<T> = Pushed(elem: T) | Popped(elem: T) | PopFailed

  ghost predicate Maximal<T>(less: (T, T) -> bool, q: multiset<T>, x: T) {
    x in q && forall y :: y in q ==> !less(x, y)
  }

  ghost predicate Allowed<T>(less: (T, T) -> bool, q: multiset<T>, e: Event<T>) {
    match e
    case Pushed(_) => true
    case Popped(x) => Maximal(less, q, x)
    case PopFailed => q == multiset{}
  }

  ghost function After<T>(q: multiset<T>, e: Event<T>): multiset<T> {
    match e
    case Pushed(x) => q + multiset{x}
    case Popped(x) => q - multiset{x}
    case PopFailed => q
  }

  /** The events can happen one after the other, and lead from `q` to `to`. */
  ghost predicate Legal<T>(less: (T, T) -> bool, q: multiset<T>, events: seq<Event<T>>, to: multiset<T>)
    decreases |events|
  {
    if events == [] then q == to
    else Allowed(less, q, events[0]) && Legal(less, After(q, events[0]), events[1..], to)
  }

  lemma {:induction false} LegalJoin<T>(less: (T, T) -> bool, q: multiset<T>, a: seq<Event<T>>, mid: multiset<T>,
                                        b: seq<Event<T>>, to: multiset<T>)
    requires Legal(less, q, a, mid) && Legal(less, mid, b, to)
    ensures Legal(less, q, a + b, to)
    decreases |a|
  {
    if a == [] {
      assert a + b == b;
    } else {
      var e, rest := a[0], a[1..];
      LegalJoin(less, After(q, e), rest, mid, b, to);
      assert (a + b)[0] == e && (a + b)[1..] == rest + b;
    }
  }

  lemma LegalOne<T>(less: (T, T) -> bool, q: multiset<T>, e: Event<T>)
    requires Allowed(less, q, e)
    ensures Legal(less, q, [e], After(q, e))
  {
    assert [e][1..] == [];
  }

  lemma LegalTwo<T>(less: (T, T) -> bool, q: multiset<T>, e: Event<T>, f: Event<T>)
    requires Allowed(less, q, e) && Allowed(less, After(q, e), f)
    ensures Legal(less, q, [e, f], After(After(q, e), f))
  {
    LegalOne(less, After(q, e), f);
    assert [e, f][1..] == [f];
  }

  // ---------------------------------------------------------------- conservation

  ghost function AllPushed<T>(events: seq<Event<T>>): multiset<T> {
    if events == [] then multiset{}
    else (if events[0].Pushed? then multiset{events[0].elem} else multiset{}) + AllPushed(events[1..])
  }

  ghost function AllPopped<T>(events: seq<Event<T>>): multiset<T> {
    if events == [] then multiset{}
    else (if events[0].Popped? then multiset{events[0].elem} else multiset{}) + AllPopped(events[1..])
  }

  /** What was there and what was pushed is what was popped and what is there. */
  lemma {:induction false} NothingLost<T>(less: (T, T) -> bool, q: multiset<T>, events: seq<Event<T>>, to: multiset<T>)
    requires Legal(less, q, events, to)
    ensures q + AllPushed(events) == AllPopped(events) + to
    decreases |events|
  {
    if events != [] {
      NothingLost(less, After(q, events[0]), events[1..], to);
    }
  }
}
