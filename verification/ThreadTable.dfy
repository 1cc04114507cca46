/** `ets_base::table_lookup`: the lock-free table that maps each thread to its own element.

    The table is a list of open-addressed arrays of growing size.  An array is published by a
    compare-and-swap of the root from the array it points to, so the published arrays are the
    sequence `chain`: the root is its last element and `next` is the element before. */
module ThreadTable {
  import opened Bits

  type Ptr = nat

  /** Key 0 is an empty slot; thread `t` has key `t + 1`. */
  datatype Slot = Slot(key: nat, ptr: Ptr)
  datatype Arr = Arr(lg: nat, slots: seq<Slot>)

  datatype Pc =
    | Idle
    | LoadRoot                                  // r = my_root
    | Probe(p: nat, d: nat)                     // slot d of the probe sequence in array p
    | Matched(p: nat, ptr: Ptr)                 // r == my_root ?
    | Create                                    // create_local
    | Count(found: Ptr)                         // ++my_count
    | LoadSize(found: Ptr)                      // r = my_root, compare the size
    | Publish(found: Ptr, s: nat, r: int)       // my_root.compare_and_swap( a, r )
    | LoadTop(found: Ptr)                       // ir = my_root
    | Place(found: Ptr, p: nat, d: nat)         // s.empty()
    | Claim(found: Ptr, p: nat, d: nat)         // s.claim( k )
    | Store(found: Ptr, p: nat, d: nat)         // s.ptr = found
    | Done(ptr: Ptr)

  /** `h` is the hash of the key and `hit` the value of `exists`.  What the thread was given by `create_local`,
      the count it drew, and where its key was last claimed are recorded for the proof. */
  datatype Thread = Thread(h: nat, pc: Pc, hit: bool, rank: nat, own: Ptr, at: Place)
  datatype Place = Nowhere | In(p: nat, d: nat)

  datatype State = State(count: nat, chain: seq<Arr>, threads: seq<Thread>, created: nat)

  function Size(a: Arr): nat { Pow2(a.lg) }

  /** `array::start`: the upper bits of the hash. */
  function Start(h: nat, lg: nat): nat {
    Low(if lg <= 64 then Shr(h, 64 - lg) else h, lg)
  }

  /** The slot that a probe visits after `d` others. */
  function Index(h: nat, lg: nat, d: nat): (i: nat)
    ensures i < Pow2(lg)
  {
    (Start(h, lg) + d) % Pow2(lg)
  }

  function Fresh(lg: nat): Arr {
    Arr(lg, seq(Pow2(lg), _ => Slot(0, 0)))
  }

  /** The size chosen for a new array: the least that is at least `s` and has room for `c`. */
  function GrownLg(s: nat, c: nat): (r: nat)
    ensures r >= s && HasRoom(r, c)
    ensures forall q :: s <= q < r ==> !HasRoom(q, c)
    decreases 2 * c - Pow2(s)
  {
    if HasRoom(s, c) then s else GrownLg(s + 1, c)
  }

  /** An array of width `lg` stays at most half full with `c` keys. */
  predicate HasRoom(lg: nat, c: nat) {
    2 * c <= Pow2(lg)
  }

  function With(s: State, t: nat, pc: Pc): State
    requires t < |s.threads|
  {
    s.(threads := s.threads[t := s.threads[t].(pc := pc)])
  }

  function At(s: State, p: nat, h: nat, d: nat): Slot
    requires p < |s.chain| && |s.chain[p].slots| == Size(s.chain[p])
  {
    s.chain[p].slots[Index(h, s.chain[p].lg, d)]
  }

  predicate Shaped(s: State) {
    forall p :: 0 <= p < |s.chain| ==> s.chain[p].lg >= 2 && |s.chain[p].slots| == Size(s.chain[p])
  }

  // ---------------------------------------------------------------- steps of thread t

  predicate Begin(s: State, t: nat, s': State) requires t < |s.threads| {
    s.threads[t].pc.Idle? && s' == With(s, t, LoadRoot)
  }

  predicate FirstArray(s: State, t: nat, s': State) requires t < |s.threads| {
    && s.threads[t].pc.LoadRoot?
    && s' == With(s, t, if s.chain == [] then Create else Probe(|s.chain| - 1, 0))
  }

  predicate ProbeSlot(s: State, t: nat, s': State) requires t < |s.threads| && Shaped(s) {
    var th := s.threads[t];
    && th.pc.Probe? && th.pc.p < |s.chain|
    && var p, d := th.pc.p, th.pc.d;
    var slot := At(s, p, th.h, d);
    s' == With(s, t,
      if slot.key == 0 then (if p == 0 then Create else Probe(p - 1, 0))
      else if slot.key == t + 1 then Matched(p, slot.ptr)
      else Probe(p, d + 1))
  }

  predicate CompareRoot(s: State, t: nat, s': State) requires t < |s.threads| {
    var th := s.threads[t];
    && th.pc.Matched?
    && s' == s.(threads := s.threads[t := th.(hit := true,
               pc := if th.pc.p == |s.chain| - 1 then Done(th.pc.ptr) else LoadTop(th.pc.ptr))])
  }

  predicate CreateLocal(s: State, t: nat, s': State) requires t < |s.threads| {
    var th := s.threads[t];
    && th.pc.Create?
    && s' == s.(created := s.created + 1,
                threads := s.threads[t := th.(hit := false, own := s.created, pc := Count(s.created))])
  }

  predicate DrawCount(s: State, t: nat, s': State) requires t < |s.threads| {
    var th := s.threads[t];
    && th.pc.Count?
    && s' == s.(count := s.count + 1,
                threads := s.threads[t := th.(rank := s.count + 1, pc := LoadSize(th.pc.found))])
  }

  /** Is the root array there and large enough for `c`?  If not, allocate one that is. */
  predicate CheckSize(s: State, t: nat, s': State) requires t < |s.threads| && Shaped(s) {
    var th := s.threads[t];
    && th.pc.LoadSize?
    && s' == With(s, t,
      if s.chain == [] then Publish(th.pc.found, GrownLg(2, th.rank), -1)
      else
        var r := s.chain[|s.chain| - 1];
        if HasRoom(r.lg, th.rank) then LoadTop(th.pc.found)
        else Publish(th.pc.found, GrownLg(r.lg, th.rank), |s.chain| - 1))
  }

  predicate PublishArray(s: State, t: nat, s': State) requires t < |s.threads| {
    var pc := s.threads[t].pc;
    && pc.Publish?
    && if pc.r == |s.chain| - 1 then
         s' == With(s, t, LoadTop(pc.found)).(chain := s.chain + [Fresh(pc.s)])
       else
         && s.chain != []
         && s' == With(s, t, if s.chain[|s.chain| - 1].lg >= pc.s then LoadTop(pc.found)
                             else Publish(pc.found, pc.s, |s.chain| - 1))
  }

  predicate TopArray(s: State, t: nat, s': State) requires t < |s.threads| {
    var pc := s.threads[t].pc;
    && pc.LoadTop? && s.chain != []
    && s' == With(s, t, Place(pc.found, |s.chain| - 1, 0))
  }

  predicate TestEmpty(s: State, t: nat, s': State) requires t < |s.threads| && Shaped(s) {
    var th := s.threads[t];
    && th.pc.Place? && th.pc.p < |s.chain|
    && s' == With(s, t, if At(s, th.pc.p, th.h, th.pc.d).key == 0 then Claim(th.pc.found, th.pc.p, th.pc.d)
                        else Place(th.pc.found, th.pc.p, th.pc.d + 1))
  }

  predicate ClaimSlot(s: State, t: nat, s': State) requires t < |s.threads| && Shaped(s) {
    var th := s.threads[t];
    && th.pc.Claim? && th.pc.p < |s.chain|
    && var p, d := th.pc.p, th.pc.d;
    var a := s.chain[p];
    var i := Index(th.h, a.lg, d);
    if a.slots[i].key == 0 then
      s' == s.(chain := s.chain[p := a.(slots := a.slots[i := a.slots[i].(key := t + 1)])],
               threads := s.threads[t := th.(at := In(p, d), pc := Store(th.pc.found, p, d))])
    else
      s' == With(s, t, Place(th.pc.found, p, d + 1))
  }

  predicate StorePtr(s: State, t: nat, s': State) requires t < |s.threads| && Shaped(s) {
    var th := s.threads[t];
    && th.pc.Store? && th.pc.p < |s.chain|
    && var a := s.chain[th.pc.p];
    var i := Index(th.h, a.lg, th.pc.d);
    s' == With(s, t, Done(th.pc.found)).(
            chain := s.chain[th.pc.p := a.(slots := a.slots[i := a.slots[i].(ptr := th.pc.found)])])
  }

  predicate End(s: State, t: nat, s': State) requires t < |s.threads| {
    s.threads[t].pc.Done? && s' == With(s, t, Idle)
  }

  predicate Next(s: State, t: nat, s': State) {
    && t < |s.threads| && Shaped(s)
    && (|| Begin(s, t, s') || FirstArray(s, t, s') || ProbeSlot(s, t, s') || CompareRoot(s, t, s')
        || CreateLocal(s, t, s') || DrawCount(s, t, s') || CheckSize(s, t, s') || PublishArray(s, t, s')
        || TopArray(s, t, s') || TestEmpty(s, t, s') || ClaimSlot(s, t, s') || StorePtr(s, t, s') || End(s, t, s'))
  }

  predicate Init(s: State) {
    && s.count == 0 && s.chain == [] && s.created == 0
    && forall t :: 0 <= t < |s.threads| ==>
      s.threads[t].pc.Idle? && s.threads[t].rank == 0 && s.threads[t].at.Nowhere?
  }
}
