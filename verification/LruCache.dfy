/** `concurrent_lru_cache`: values that are computed once while somebody uses them, and a bounded
    history of those that nobody uses.

    The aggregator runs `retrieve_serial` and `signal_end_of_usage_serial` one at a time; the
    clients' own accesses to a record happen in between.  Each method of the cache is one such
    step of a client, so that a run is any sequence of calls. */
module LruCache {

  type Tid = nat
  type Key = nat

  /** `map_value_type`.  `linked` says that `my_lru_list_iterator` is not the list's end.  The last
      three are not in the code: they identify the record, and say when it was last released and
      which client was to compute its value. */
  datatype Record<V> = Record(value: V, refs: nat, linked: bool, ready: bool, id: nat, released: nat, supplier: Tid)

  /** How far a client has come with a record. */
  datatype Client =
    | Idle
    | Computing(key: Key, id: nat)  // a new value is needed
    | Storing(key: Key, id: nat)    // the value is stored, but not marked ready
    | Waiting(key: Key, id: nat)    // spins until the value is ready
    | Holding(key: Key, id: nat)    // has a handle

  predicate Uses(c: Client, k: Key) {
    !c.Idle? && c.key == k
  }

  type Storage<V> = map<Key, Record<V>>
  type Clients = map<Tid, Client>

  ghost function Users(clients: Clients, k: Key): set<Tid> {
    set t | t in clients && Uses(clients[t], k)
  }

  // ---------------------------------------------------------------- what holds between steps

  /** A record is in the history exactly if nobody uses it; a value that is ready is right; one
      that is not is about to be supplied. */
  ghost predicate RecordOk<V>(f: Key -> V, storage: Storage<V>, lru: seq<Key>, clients: Clients, clock: nat, k: Key)
    requires k in storage
  {
    var r := storage[k];
    && r.refs == |Users(clients, k)|
    && r.linked == (k in lru) == (r.refs == 0)
    && (if r.ready then r.value == f(k)
        else r.supplier in clients && Uses(clients[r.supplier], k)
             && (clients[r.supplier].Computing? || clients[r.supplier].Storing?))
    && r.id < clock && r.released < clock
  }

  /** The record that a client uses is there, and is the one that the client was given. */
  ghost predicate ClientOk<V>(f: Key -> V, storage: Storage<V>, clients: Clients, t: Tid)
    requires t in clients
  {
    var c := clients[t];
    c.Idle? ||
      (&& c.key in storage && storage[c.key].id == c.id
       && (c.Holding? ==> storage[c.key].ready)
       && (c.Computing? || c.Storing? ==> !storage[c.key].ready && storage[c.key].supplier == t)
       && (c.Storing? ==> storage[c.key].value == f(c.key)))
  }

  /** The list is in order of release, the latest first. */
  ghost predicate Descending<V>(s: seq<Key>, storage: Storage<V>) {
    && (forall i :: 0 <= i < |s| ==> s[i] in storage)
    && (forall i, j :: 0 <= i < j < |s| ==>
        s[i] in storage && s[j] in storage && storage[s[i]].released > storage[s[j]].released)
  }

  ghost predicate Consistent<V>(f: Key -> V, storage: Storage<V>, lru: seq<Key>, clients: Clients, clock: nat) {
    && (forall k {:trigger RecordOk(f, storage, lru, clients, clock, k)} ::
        k in storage ==> RecordOk(f, storage, lru, clients, clock, k))
    && (forall t {:trigger ClientOk(f, storage, clients, t)} :: t in clients ==> ClientOk(f, storage, clients, t))
    && Descending(lru, storage)
  }

  // ---------------------------------------------------------------- users and lists

  /** A client changes from or to `k`. */
  ghost predicate Moves(clients: Clients, t: Tid, c: Client, k: Key) {
    t in clients && (clients[t].Idle? || clients[t].key == k) && (c.Idle? || c.key == k)
  }

  lemma UsersAfter(clients: Clients, t: Tid, c: Client, k: Key)
    requires Moves(clients, t, c, k)
    ensures forall l :: l != k ==> Users(clients[t := c], l) == Users(clients, l)
    ensures !Uses(clients[t], k) && Uses(c, k) ==> |Users(clients[t := c], k)| == |Users(clients, k)| + 1
    ensures Uses(clients[t], k) && !Uses(c, k) ==> |Users(clients[t := c], k)| == |Users(clients, k)| - 1
    ensures Uses(clients[t], k) && Uses(c, k) ==> Users(clients[t := c], k) == Users(clients, k)
  {
    var after := clients[t := c];
    forall l | l != k
      ensures Users(after, l) == Users(clients, l)
    {
      assert forall u :: u in Users(after, l) <==> u in Users(clients, l);
    }
    var before, now := Users(clients, k), Users(after, k);
    if Uses(clients[t], k) && Uses(c, k) {
      assert now == before;
    } else if Uses(clients[t], k) {
      assert now == before - {t};
    } else if Uses(c, k) {
      assert now == before + {t};
    }
  }

  /** The list without `k`. */
  function Erase(s: seq<Key>, k: Key): seq<Key> {
    if s == [] then [] else if s[0] == k then s[1..] else [s[0]] + Erase(s[1..], k)
  }

  lemma {:induction false} EraseKeeps<V>(s: seq<Key>, k: Key, storage: Storage<V>)
    requires Descending(s, storage)
    ensures Descending(Erase(s, k), storage) && |Erase(s, k)| <= |s|
    ensures forall l :: l in Erase(s, k) <==> l in s && l != k
  {
    if s != [] {
      assert s == [s[0]] + s[1..];
      if s[0] != k {
        EraseKeeps(s[1..], k, storage);
        var r := Erase(s[1..], k);
        forall j | 0 <= j < |r|
          ensures r[j] in storage && storage[s[0]].released > storage[r[j]].released
        {
          assert r[j] in s[1..];
        }
      } else {
        assert forall j :: 0 < j < |s| ==> s[j] != k;
      }
    }
  }

  // ---------------------------------------------------------------- steps keep it

  /** Client `t` goes to `c` on `k`; of the records only that of `k` changes, or comes. */
  ghost predicate OnlyFor<V>(storage: Storage<V>, storage2: Storage<V>, k: Key) {
    k in storage2 && storage2 == storage[k := storage2[k]]
  }

  lemma OthersStay<V>(f: Key -> V, storage: Storage<V>, lru: seq<Key>, clients: Clients, clock: nat,
                      storage2: Storage<V>, lru2: seq<Key>, clock2: nat, t: Tid, c: Client, k: Key)
    requires Consistent(f, storage, lru, clients, clock) && Moves(clients, t, c, k)
    requires OnlyFor(storage, storage2, k) && clock <= clock2
    requires forall l :: l != k ==> (l in lru2 <==> l in lru)
    requires RecordOk(f, storage2, lru2, clients[t := c], clock2, k)
    requires ClientOk(f, storage2, clients[t := c], t)
    requires forall u :: u in clients && u != t && Uses(clients[u], k) ==> ClientOk(f, storage2, clients, u)
    requires Descending(lru2, storage2)
    ensures Consistent(f, storage2, lru2, clients[t := c], clock2)
  {
    var after := clients[t := c];
    UsersAfter(clients, t, c, k);
    forall l | l in storage2
      ensures RecordOk(f, storage2, lru2, after, clock2, l)
    {
      if l != k {
        assert RecordOk(f, storage, lru, clients, clock, l);
      }
    }
    forall u | u in after
      ensures ClientOk(f, storage2, after, u)
    {
      if u != t {
        assert ClientOk(f, storage, clients, u);
        assert Uses(clients[u], k) ==> ClientOk(f, storage2, clients, u);
      }
    }
  }

  lemma RetrieveNewKeeps<V>(f: Key -> V, storage: Storage<V>, lru: seq<Key>, clients: Clients, clock: nat, t: Tid,
                            k: Key, v: V)
    requires Consistent(f, storage, lru, clients, clock)
    requires t in clients && clients[t].Idle? && k !in storage
    ensures Consistent(f, storage[k := Record(v, 1, false, false, clock, clock, t)], lru,
                       clients[t := Computing(k, clock)], clock + 1)
  {
    var storage2 := storage[k := Record(v, 1, false, false, clock, clock, t)];
    var c := Computing(k, clock);
    forall u | u in clients
      ensures !Uses(clients[u], k)
    {
      assert ClientOk(f, storage, clients, u);
    }
    assert Users(clients, k) == {};
    UsersAfter(clients, t, c, k);
    assert forall i :: 0 <= i < |lru| ==> lru[i] != k;
    OthersStay(f, storage, lru, clients, clock, storage2, lru, clock + 1, t, c, k);
  }

  lemma RetrieveOldKeeps<V>(f: Key -> V, storage: Storage<V>, lru: seq<Key>, clients: Clients, clock: nat, t: Tid,
                            k: Key)
    requires Consistent(f, storage, lru, clients, clock)
    requires t in clients && clients[t].Idle? && k in storage
    ensures Consistent(f, storage[k := storage[k].(refs := storage[k].refs + 1, linked := false)],
                       if storage[k].linked then Erase(lru, k) else lru, clients[t := Waiting(k, storage[k].id)], clock)
    ensures storage[k].linked ==> |Erase(lru, k)| <= |lru|
  {
    var r := storage[k];
    assert RecordOk(f, storage, lru, clients, clock, k);
    var storage2 := storage[k := r.(refs := r.refs + 1, linked := false)];
    var c := Waiting(k, r.id);
    EraseKeeps(lru, k, storage);
    var lru2 := if r.linked then Erase(lru, k) else lru;
    UsersAfter(clients, t, c, k);
    forall u | u in clients && u != t && Uses(clients[u], k)
      ensures ClientOk(f, storage2, clients, u)
    {
      assert ClientOk(f, storage, clients, u);
    }
    OthersStay(f, storage, lru, clients, clock, storage2, lru2, clock, t, c, k);
  }

  /** The value of a record is stored, or marked ready, or found ready. */
  lemma AdvanceKeeps<V>(f: Key -> V, storage: Storage<V>, lru: seq<Key>, clients: Clients, clock: nat, t: Tid,
                        c: Client, r: Record<V>)
    requires Consistent(f, storage, lru, clients, clock)
    requires t in clients && !clients[t].Idle? && clients[t].key in storage
    requires var k := clients[t].key;
      || (clients[t].Computing? && c == Storing(k, clients[t].id) && r == storage[k].(value := f(k)))
      || (clients[t].Storing? && c == Holding(k, clients[t].id) && r == storage[k].(ready := true))
      || (clients[t].Waiting? && c == Holding(k, clients[t].id) && r == storage[k] && r.ready)
    ensures Consistent(f, storage[clients[t].key := r], lru, clients[t := c], clock)
  {
    var k := clients[t].key;
    assert RecordOk(f, storage, lru, clients, clock, k) && ClientOk(f, storage, clients, t);
    var storage2 := storage[k := r];
    UsersAfter(clients, t, c, k);
    forall u | u in clients && u != t && Uses(clients[u], k)
      ensures ClientOk(f, storage2, clients, u)
    {
      assert ClientOk(f, storage, clients, u);
    }
    OthersStay(f, storage, lru, clients, clock, storage2, lru, clock, t, c, k);
  }

  /** A handle goes away while others remain. */
  lemma ReleaseKeeps<V>(f: Key -> V, storage: Storage<V>, lru: seq<Key>, clients: Clients, clock: nat, t: Tid)
    requires Consistent(f, storage, lru, clients, clock)
    requires t in clients && clients[t].Holding? && clients[t].key in storage && storage[clients[t].key].refs > 1
    ensures var k := clients[t].key;
      Consistent(f, storage[k := storage[k].(refs := storage[k].refs - 1)], lru, clients[t := Idle], clock)
  {
    var k := clients[t].key;
    assert RecordOk(f, storage, lru, clients, clock, k) && ClientOk(f, storage, clients, t);
    var storage2 := storage[k := storage[k].(refs := storage[k].refs - 1)];
    UsersAfter(clients, t, Idle, k);
    forall u | u in clients && u != t && Uses(clients[u], k)
      ensures ClientOk(f, storage2, clients, u)
    {
      assert ClientOk(f, storage, clients, u);
    }
    OthersStay(f, storage, lru, clients, clock, storage2, lru, clock, t, Idle, k);
  }

  /** The last handle goes away: the record is the first of the history. */
  lemma LastReleaseKeeps<V>(f: Key -> V, storage: Storage<V>, lru: seq<Key>, clients: Clients, clock: nat, t: Tid)
    requires Consistent(f, storage, lru, clients, clock)
    requires t in clients && clients[t].Holding? && clients[t].key in storage && storage[clients[t].key].refs == 1
    ensures var k := clients[t].key;
      && k !in lru
      && Consistent(f, storage[k := storage[k].(refs := 0, linked := true, released := clock)],
                      [k] + lru, clients[t := Idle], clock + 1)
  {
    var k := clients[t].key;
    assert RecordOk(f, storage, lru, clients, clock, k) && ClientOk(f, storage, clients, t);
    var storage2 := storage[k := storage[k].(refs := 0, linked := true, released := clock)];
    UsersAfter(clients, t, Idle, k);
    NoOtherUsers(clients, t, k);
    var lru2 := [k] + lru;
    forall j | 0 <= j < |lru|
      ensures storage2[lru[j]] == storage[lru[j]] && storage[lru[j]].released < clock
    {
      assert RecordOk(f, storage, lru, clients, clock, lru[j]);
    }
    OthersStay(f, storage, lru, clients, clock, storage2, lru2, clock + 1, t, Idle, k);
  }

  lemma NoOtherUsers(clients: Clients, t: Tid, k: Key)
    requires t in clients && Uses(clients[t], k) && |Users(clients, k)| == 1
    ensures forall u :: u in clients && u != t ==> !Uses(clients[u], k)
  {
    var rest := Users(clients, k) - {t};
    assert t in Users(clients, k) && |rest| == 0;
    forall u | u in clients && u != t
      ensures !Uses(clients[u], k)
    {
      assert u !in rest;
    }
  }

  /** The last of the history is evicted: nobody uses it, and all others were released later. */
  lemma EvictKeeps<V>(f: Key -> V, storage: Storage<V>, lru: seq<Key>, clients: Clients, clock: nat)
    requires Consistent(f, storage, lru, clients, clock) && lru != []
    ensures var e := lru[|lru| - 1];
      && e in storage && storage[e].refs == 0 && Users(clients, e) == {}
      && (forall k :: k in lru && k != e ==> k in storage && storage[k].released > storage[e].released)
      && Consistent(f, storage - {e}, lru[..|lru| - 1], clients, clock)
  {
    var n := |lru| - 1;
    var e := lru[n];
    var storage2, lru2 := storage - {e}, lru[..n];
    assert lru == lru2 + [e];
    assert e in storage && RecordOk(f, storage, lru, clients, clock, e);
    assert Users(clients, e) == {};
    forall l | l in storage2
      ensures RecordOk(f, storage2, lru2, clients, clock, l)
    {
      assert RecordOk(f, storage, lru, clients, clock, l);
    }
    forall u | u in clients
      ensures ClientOk(f, storage2, clients, u)
    {
      assert ClientOk(f, storage, clients, u);
      assert u !in Users(clients, e);
    }
    assert forall i :: 0 <= i < n ==> lru[i] != e;
  }

  // ---------------------------------------------------------------- the cache

  class Cache<V> {
    const f: Key -> V
    const history: nat
    var storage: Storage<V>
    var lru: seq<Key>
    var clock: nat
    ghost var clients: Clients

    ghost predicate Valid()
      reads this
    {
      history >= 1 && |lru| <= history && Consistent(f, storage, lru, clients, clock)
    }

    constructor (f: Key -> V, history: nat, ghost clients: set<Tid>)
      requires history >= 1
      ensures Valid() && this.f == f && this.history == history && storage == map[]
      ensures this.clients == map t | t in clients :: Idle
    {
      this.f, this.history := f, history;
      storage, lru, clock := map[], [], 0;
      this.clients := map t | t in clients :: Idle;
    }

    /** `retrieve_serial`: a record that is there leaves the history; a client that finds none is
        to compute the value. */
    method Retrieve(t: Tid, k: Key, any: V) returns (isNew: bool)
      requires Valid() && t in clients && clients[t].Idle?
      modifies this
      ensures Valid() && isNew == (k !in old(storage))
      ensures clients == old(clients)[t := if isNew then Computing(k, old(clock)) else Waiting(k, old(storage)[k].id)]
      ensures storage.Keys == old(storage).Keys + {k}
      ensures forall l :: l in old(storage) && l != k ==> storage[l] == old(storage)[l]
      ensures k in old(storage) ==>
              storage[k].value == old(storage)[k].value && storage[k].ready == old(storage)[k].ready
      ensures k in old(storage) ==> storage[k].refs == old(storage)[k].refs + 1
    {
      isNew := k !in storage;
      if isNew {
        RetrieveNewKeeps(f, storage, lru, clients, clock, t, k, any);
        clients := clients[t := Computing(k, clock)];
        storage, clock := storage[k := Record(any, 1, false, false, clock, clock, t)], clock + 1;
      } else {
        RetrieveOldKeeps(f, storage, lru, clients, clock, t, k);
        clients := clients[t := Waiting(k, storage[k].id)];
        if storage[k].linked {
          lru := Erase(lru, k);
        }
        storage := storage[k := storage[k].(refs := storage[k].refs + 1, linked := false)];
      }
    }

    /** `operator[]` for a new record: the value is computed and stored, outside the aggregator. */
    method StoreValue(t: Tid, k: Key)
      requires Valid() && t in clients && clients[t].Computing? && clients[t].key == k
      modifies this`storage, this`clients
      ensures Valid() && clients == old(clients)[t := Storing(k, old(clients)[t].id)]
      ensures k in old(storage) && storage == old(storage)[k := old(storage)[k].(value := f(k))]
    {
      assert ClientOk(f, storage, clients, t);
      AdvanceKeeps(f, storage, lru, clients, clock, t, Storing(k, clients[t].id), storage[k].(value := f(k)));
      clients := clients[t := Storing(k, clients[t].id)];
      storage := storage[k := storage[k].(value := f(k))];
    }

    method MarkReady(t: Tid, k: Key)
      requires Valid() && t in clients && clients[t].Storing? && clients[t].key == k
      modifies this`storage, this`clients
      ensures Valid() && clients == old(clients)[t := Holding(k, old(clients)[t].id)]
      ensures k in old(storage) && storage == old(storage)[k := old(storage)[k].(ready := true)]
    {
      assert ClientOk(f, storage, clients, t);
      AdvanceKeeps(f, storage, lru, clients, clock, t, Holding(k, clients[t].id), storage[k].(ready := true));
      clients := clients[t := Holding(k, clients[t].id)];
      storage := storage[k := storage[k].(ready := true)];
    }

    /** `operator[]` for another record: one look at `my_is_ready`. */
    method LookReady(t: Tid, k: Key) returns (ready: bool)
      requires Valid() && t in clients && clients[t].Waiting? && clients[t].key == k
      modifies this`clients
      ensures Valid() && k in storage && ready == storage[k].ready
      ensures clients == if ready then old(clients)[t := Holding(k, old(clients)[t].id)] else old(clients)
    {
      assert ClientOk(f, storage, clients, t);
      ready := storage[k].ready;
      if ready {
        AdvanceKeeps(f, storage, lru, clients, clock, t, Holding(k, clients[t].id), storage[k]);
        assert storage[k := storage[k]] == storage;
        clients := clients[t := Holding(k, clients[t].id)];
      }
    }

    /** Whoever has a handle sees the value of the key. */
    method Value(t: Tid, k: Key) returns (v: V)
      requires Valid() && t in clients && clients[t].Holding? && clients[t].key == k
      ensures v == f(k)
    {
      assert ClientOk(f, storage, clients, t);
      assert RecordOk(f, storage, lru, clients, clock, k);
      v := storage[k].value;
    }

    /** `signal_end_of_usage_serial`: when the last handle goes away the record enters the history,
        from which the one is evicted that was released least recently if it is full. */
    method Release(t: Tid, k: Key)
      requires Valid() && t in clients && clients[t].Holding? && clients[t].key == k
      modifies this
      ensures Valid() && clients == old(clients)[t := Idle] && k in old(storage)
      ensures old(storage)[k].refs > 1 ==>
        storage == old(storage)[k := old(storage)[k].(refs := old(storage)[k].refs - 1)] && lru == old(lru)
      ensures old(storage)[k].refs == 1 ==>
        && lru == [k] + (if |old(lru)| < history then old(lru) else old(lru)[..history - 1])
        && storage.Keys ==
            if |old(lru)| < history then old(storage).Keys else old(storage).Keys - {old(lru)[history - 1]}
      ensures forall l :: l in storage && l != k ==> l in old(storage) && storage[l] == old(storage)[l]
    {
      assert ClientOk(f, storage, clients, t);
      assert RecordOk(f, storage, lru, clients, clock, k);
      UserCounts(clients, t, k);
      if storage[k].refs > 1 {
        ReleaseKeeps(f, storage, lru, clients, clock, t);
        storage := storage[k := storage[k].(refs := storage[k].refs - 1)];
        clients := clients[t := Idle];
        return;
      }
      MakeSpace(t, k);
      LastReleaseKeeps(f, storage, lru, clients, clock, t);
      storage := storage[k := storage[k].(refs := 0, linked := true, released := clock)];
      lru := [k] + lru;
      clients, clock := clients[t := Idle], clock + 1;
    }

    static lemma UserCounts(clients: Clients, t: Tid, k: Key)
      requires t in clients && Uses(clients[t], k)
      ensures |Users(clients, k)| >= 1
    {
      assert t in Users(clients, k);
    }

    /** The eviction loop, which runs once at most. */
    method MakeSpace(t: Tid, k: Key)
      requires Valid() && t in clients && clients[t].Holding? && clients[t].key == k
      modifies this`storage, this`lru
      ensures Valid() && k in old(storage) && k in storage && storage[k] == old(storage)[k]
      ensures lru == if |old(lru)| < history then old(lru) else old(lru)[..history - 1]
      ensures storage == if |old(lru)| < history then old(storage) else old(storage) - {old(lru)[history - 1]}
    {
      assert ClientOk(f, storage, clients, t);
      if |lru| >= history {
        var count := 1 + |lru| - history;
        var i := 0;
        while i < count
          invariant 0 <= i <= count == 1
          invariant Consistent(f, storage, lru, clients, clock)
          invariant i == 0 ==> storage == old(storage) && lru == old(lru)
          invariant i == 1 ==> lru == old(lru)[..history - 1] && storage == old(storage) - {old(lru)[history - 1]}
        {
          var evicted := lru[|lru| - 1];
          EvictKeeps(f, storage, lru, clients, clock);
          lru := lru[..|lru| - 1];
          storage := storage - {evicted};
          i := i + 1;
        }
        assert ClientOk(f, storage, clients, t);
      }
    }
  }
}
