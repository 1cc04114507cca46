/** `parallel_deterministic_reduce`: every division of a `blocked_range` gives the right child a
    body of its own, so that the shape of the computation depends on the range alone. */
module DeterministicReduce {
  import opened FreshIds
  import opened Monoids

  type BodyId = nat

  datatype Task =
    | Running(lo: nat, hi: nat, body: BodyId)
    | Finished(body: BodyId)
    | Split(left: Task, right: Task, leftBody: BodyId, rightBody: BodyId) // `finish_deterministic_reduce`

  /** The user's body: what the splitting constructor leaves in the body it splits and what it puts
      into the new one, what running a body on a range does, and how two are joined.  Nothing is
      assumed of these. */
  datatype Reduction<!V> = Reduction(split: V -> (V, V), run: (V, nat, nat) -> V, join: (V, V) -> V)

  /** `blocked_range::is_divisible` */
  predicate Divisible(lo: nat, hi: nat, grain: nat) {
    lo <= hi && grain < hi - lo
  }

  /** `blocked_range::do_split` */
  function Middle(lo: nat, hi: nat): nat
    requires lo <= hi
  {
    lo + (hi - lo) / 2
  }

  /** The value that the range determines, from a body that holds `v`. */
  function Value<V>(r: Reduction<V>, grain: nat, v: V, lo: nat, hi: nat): V
    requires grain >= 1
    decreases if lo <= hi then hi - lo else 0
  {
    if !Divisible(lo, hi, grain) then r.run(v, lo, hi)
    else
      var m := Middle(lo, hi);
      r.join(Value(r, grain, r.split(v).0, lo, m), Value(r, grain, r.split(v).1, m, hi))
  }

  type Bodies<V> = map<BodyId, V>

  ghost predicate Divide<V>(r: Reduction<V>, grain: nat, t: Task, h: Bodies<V>, t': Task, h': Bodies<V>) {
    && t.Running? && Divisible(t.lo, t.hi, grain) && t'.Split?
    && t.body in h && t'.rightBody !in h
    && t'.left == Running(t.lo, Middle(t.lo, t.hi), t.body)
    && t'.right == Running(Middle(t.lo, t.hi), t.hi, t'.rightBody)
    && t'.leftBody == t.body
    && h' == h[t.body := r.split(h[t.body]).0][t'.rightBody := r.split(h[t.body]).1]
  }

  ghost predicate RunBody<V>(r: Reduction<V>, grain: nat, t: Task, h: Bodies<V>, t': Task, h': Bodies<V>) {
    && t.Running? && !Divisible(t.lo, t.hi, grain) && t' == Finished(t.body)
    && t.body in h && h' == h[t.body := r.run(h[t.body], t.lo, t.hi)]
  }

  ghost predicate Join<V>(r: Reduction<V>, t: Task, h: Bodies<V>, t': Task, h': Bodies<V>) {
    && t.Split? && t.left.Finished? && t.right.Finished? && t' == Finished(t.leftBody)
    && t.leftBody in h && t.rightBody in h && h' == h[t.leftBody := r.join(h[t.leftBody], h[t.rightBody])]
  }

  /** One step of some task. */
  ghost predicate Step<V>(r: Reduction<V>, grain: nat, t: Task, h: Bodies<V>, t': Task, h': Bodies<V>)
    decreases t
  {
    || Divide(r, grain, t, h, t', h')
    || RunBody(r, grain, t, h, t', h')
    || Join(r, t, h, t', h')
    || (t.Split? && t'.Split? && t' == t.(left := t'.left) && Step(r, grain, t.left, h, t'.left, h'))
    || (t.Split? && t'.Split? && t' == t.(right := t'.right) && Step(r, grain, t.right, h, t'.right, h'))
  }

  function Ids(t: Task): set<BodyId> {
    match t
    case Running(_, _, b) => {b}
    case Finished(b) => {b}
    case Split(l, r, _, _) => Ids(l) + Ids(r)
  }

  /** The task is to bring body `b` from `v` to the value that its range determines. */
  ghost predicate Good<V>(r: Reduction<V>, grain: nat, t: Task, h: Bodies<V>, lo: nat, hi: nat, b: BodyId, v: V)
    requires grain >= 1
    decreases t
  {
    lo <= hi && Ids(t) <= h.Keys && b in Ids(t) &&
    match t
    case Running(_, _, _) => t == Running(lo, hi, b) && h[b] == v
    case Finished(_) => t == Finished(b) && h[b] == Value(r, grain, v, lo, hi)
    case Split(left, right, lb, rb) =>
      && Divisible(lo, hi, grain) && lb == b && Ids(left) !! Ids(right)
      && Good(r, grain, left, h, lo, Middle(lo, hi), b, r.split(v).0)
      && Good(r, grain, right, h, Middle(lo, hi), hi, rb, r.split(v).1)
  }

  lemma {:induction false} OwnBodies<V>(r: Reduction<V>, grain: nat, t: Task, h: Bodies<V>, h': Bodies<V>, lo: nat,
                                        hi: nat, b: BodyId, v: V)
    requires grain >= 1 && Good(r, grain, t, h, lo, hi, b, v)
    requires forall x :: x in Ids(t) ==> x in h' && h'[x] == h[x]
    ensures Good(r, grain, t, h', lo, hi, b, v)
  {
    if t.Split? {
      OwnBodies(r, grain, t.left, h, h', lo, Middle(lo, hi), b, r.split(v).0);
      OwnBodies(r, grain, t.right, h, h', Middle(lo, hi), hi, t.rightBody, r.split(v).1);
    }
  }

  /** A step changes bodies of its own task only, and new ones. */
  ghost predicate Local<V>(t: Task, h: Bodies<V>, t': Task, h': Bodies<V>) {
    && h.Keys <= h'.Keys
    && (forall x :: x in h && x !in Ids(t) ==> h'[x] == h[x])
    && (forall x :: x in Ids(t') ==> x in Ids(t) || x !in h)
  }

  lemma {:induction false} StepKeepsGood<V>(r: Reduction<V>, grain: nat, t: Task, h: Bodies<V>, t': Task, h': Bodies<V>,
                                            lo: nat, hi: nat, b: BodyId, v: V)
    requires grain >= 1 && Good(r, grain, t, h, lo, hi, b, v) && Step(r, grain, t, h, t', h')
    ensures Good(r, grain, t', h', lo, hi, b, v) && Local(t, h, t', h')
    decreases t
  {
    if t.Split? && t'.Split? {
      var m := Middle(lo, hi);
      if t' == t.(left := t'.left) && Step(r, grain, t.left, h, t'.left, h') {
        StepKeepsGood(r, grain, t.left, h, t'.left, h', lo, m, b, r.split(v).0);
        OwnBodies(r, grain, t.right, h, h', m, hi, t.rightBody, r.split(v).1);
      } else {
        StepKeepsGood(r, grain, t.right, h, t'.right, h', m, hi, t.rightBody, r.split(v).1);
        OwnBodies(r, grain, t.left, h, h', lo, m, b, r.split(v).0);
      }
    }
  }

  /** A run over `[lo, hi)` with body 0, which holds `v`. */
  ghost predicate IsRun<V>(r: Reduction<V>, grain: nat, v: V, lo: nat, hi: nat, tasks: seq<Task>,
                           bodies: seq<Bodies<V>>) {
    && |tasks| == |bodies| > 0
    && tasks[0] == Running(lo, hi, 0) && bodies[0] == map[0 := v]
    && forall i :: 0 <= i < |tasks| - 1 ==> Step(r, grain, tasks[i], bodies[i], tasks[i + 1], bodies[i + 1])
  }

  lemma {:induction false} RunIsGood<V>(r: Reduction<V>, grain: nat, v: V, lo: nat, hi: nat, tasks: seq<Task>,
                                        bodies: seq<Bodies<V>>, n: nat)
    requires grain >= 1 && lo <= hi && IsRun(r, grain, v, lo, hi, tasks, bodies) && n < |tasks|
    ensures Good(r, grain, tasks[n], bodies[n], lo, hi, 0, v)
  {
    if n > 0 {
      RunIsGood(r, grain, v, lo, hi, tasks, bodies, n - 1);
      assert Step(r, grain, tasks[n - 1], bodies[n - 1], tasks[n - 1 + 1], bodies[n - 1 + 1]);
      StepKeepsGood(r, grain, tasks[n - 1], bodies[n - 1], tasks[n], bodies[n], lo, hi, 0, v);
    }
  }

  /** Any two runs give the same result, whatever the body does. */
  lemma Deterministic<V>(r: Reduction<V>, grain: nat, v: V, lo: nat, hi: nat,
                         tasks: seq<Task>, bodies: seq<Bodies<V>>, tasks2: seq<Task>, bodies2: seq<Bodies<V>>)
    requires grain >= 1 && lo <= hi
    requires IsRun(r, grain, v, lo, hi, tasks, bodies) && tasks[|tasks| - 1].Finished?
    requires IsRun(r, grain, v, lo, hi, tasks2, bodies2) && tasks2[|tasks2| - 1].Finished?
    ensures 0 in bodies[|bodies| - 1] && 0 in bodies2[|bodies2| - 1]
    ensures bodies[|bodies| - 1][0] == bodies2[|bodies2| - 1][0] == Value(r, grain, v, lo, hi)
  {
    RunIsGood(r, grain, v, lo, hi, tasks, bodies, |tasks| - 1);
    RunIsGood(r, grain, v, lo, hi, tasks2, bodies2, |tasks2| - 1);
  }

  // ---------------------------------------------------------------- what the value is

  /** A chunk of the range that a body was called with. */
  datatype Chunk = Chunk(lo: nat, hi: nat)

  /** The body that keeps the chunks it was called with, in order. */
  function Recorder(): Reduction<seq<Chunk>> {
    Reduction(v => (v, []), (v, lo, hi) => v + [Chunk(lo, hi)], (v, w) => v + w)
  }

  /** The chunks follow each other from `lo` to `hi`. */
  ghost predicate InOrder(s: seq<Chunk>, lo: nat, hi: nat) {
    if s == [] then lo == hi else s[0].lo == lo <= s[0].hi && InOrder(s[1..], s[0].hi, hi)
  }

  /** A chunk is not divisible; if it is only part of the range, it has at least half the grain size. */
  predicate GoodChunk(c: Chunk, grain: nat, lo: nat, hi: nat) {
    c.lo <= c.hi <= c.lo + grain && (c == Chunk(lo, hi) || 2 * (c.hi - c.lo) >= grain)
  }

  lemma {:induction false} InOrderJoin(s: seq<Chunk>, t: seq<Chunk>, lo: nat, mid: nat, hi: nat)
    requires InOrder(s, lo, mid) && InOrder(t, mid, hi)
    ensures InOrder(s + t, lo, hi)
  {
    if s == [] {
      assert s + t == t;
    } else {
      InOrderJoin(s[1..], t, s[0].hi, mid, hi);
      assert (s + t)[1..] == s[1..] + t;
    }
  }

  /** The value of the recording body: the chunks of the range from left to right. */
  lemma {:induction false} RecordedChunks(grain: nat, v: seq<Chunk>, lo: nat, hi: nat) returns (s: seq<Chunk>)
    requires grain >= 1 && lo <= hi
    ensures Value(Recorder(), grain, v, lo, hi) == v + s && InOrder(s, lo, hi)
    ensures forall c :: c in s ==> GoodChunk(c, grain, lo, hi)
    decreases hi - lo
  {
    if Divisible(lo, hi, grain) {
      var m := Middle(lo, hi);
      var left := RecordedChunks(grain, v, lo, m);
      var right := RecordedChunks(grain, [], m, hi);
      InOrderJoin(left, right, lo, m, hi);
      s := left + right;
      assert v + left + ([] + right) == v + s;
    } else {
      s := [Chunk(lo, hi)];
      assert s[1..] == [];
    }
  }

  /** At the end of any run the body has been given the whole range from left to right, in chunks
      that are not divisible and, if the range was divided, of at least half the grain size. */
  lemma ChunksInOrder(grain: nat, v: seq<Chunk>, lo: nat, hi: nat,
                      tasks: seq<Task>, bodies: seq<Bodies<seq<Chunk>>>)
    returns (s: seq<Chunk>)
    requires grain >= 1 && lo <= hi
    requires IsRun(Recorder(), grain, v, lo, hi, tasks, bodies) && tasks[|tasks| - 1].Finished?
    ensures 0 in bodies[|bodies| - 1] && bodies[|bodies| - 1][0] == v + s
    ensures InOrder(s, lo, hi) && forall c :: c in s ==> GoodChunk(c, grain, lo, hi)
  {
    Deterministic(Recorder(), grain, v, lo, hi, tasks, bodies, tasks, bodies);
    s := RecordedChunks(grain, v, lo, hi);
  }

  /** Combining the elements of `[lo, hi)` one after the other, from the left. */
  function Fold<V>(op: (V, V) -> V, elem: nat -> V, v: V, lo: nat, hi: nat): V
    decreases if lo < hi then hi - lo else 0
  {
    if lo < hi then Fold(op, elem, op(v, elem(lo)), lo + 1, hi) else v
  }

  /** The body that combines elements: its splitting constructor starts from the unit. */
  function Combiner<V>(op: (V, V) -> V, elem: nat -> V, unit: V): Reduction<V> {
    Reduction(v => (v, unit), (v, lo, hi) => Fold(op, elem, v, lo, hi), op)
  }

  lemma {:induction false} FoldSplits<V>(op: (V, V) -> V, elem: nat -> V, v: V, lo: nat, mid: nat, hi: nat)
    requires lo <= mid <= hi
    ensures Fold(op, elem, Fold(op, elem, v, lo, mid), mid, hi) == Fold(op, elem, v, lo, hi)
    decreases mid - lo
  {
    if lo < mid {
      FoldSplits(op, elem, op(v, elem(lo)), lo + 1, mid, hi);
    }
  }

  lemma {:induction false} FoldFromUnit<V(!new)>(op: (V, V) -> V, elem: nat -> V, unit: V, v: V, w: V, lo: nat, hi: nat)
    requires Associative(op, unit)
    ensures op(v, Fold(op, elem, w, lo, hi)) == Fold(op, elem, op(v, w), lo, hi)
    decreases if lo < hi then hi - lo else 0
  {
    if lo < hi {
      FoldFromUnit(op, elem, unit, v, op(w, elem(lo)), lo + 1, hi);
      assert op(v, op(w, elem(lo))) == op(op(v, w), elem(lo));
    }
  }

  lemma {:induction false} CombinedInOrder<V(!new)>(op: (V, V) -> V, elem: nat -> V, unit: V, grain: nat, v: V,
                                                    lo: nat, hi: nat)
    requires grain >= 1 && lo <= hi && Associative(op, unit)
    ensures Value(Combiner(op, elem, unit), grain, v, lo, hi) == Fold(op, elem, v, lo, hi)
    decreases hi - lo
  {
    if Divisible(lo, hi, grain) {
      var m := Middle(lo, hi);
      CombinedInOrder(op, elem, unit, grain, v, lo, m);
      CombinedInOrder(op, elem, unit, grain, unit, m, hi);
      FoldFromUnit(op, elem, unit, Fold(op, elem, v, lo, m), unit, m, hi);
      FoldSplits(op, elem, v, lo, m, hi);
    }
  }

  /** For an associative operation with a unit, any run gives what a loop from left to right gives. */
  lemma FoldsLeftToRight<V(!new)>(op: (V, V) -> V, elem: nat -> V, unit: V, grain: nat, v: V, lo: nat, hi: nat,
                                  tasks: seq<Task>, bodies: seq<Bodies<V>>)
    requires grain >= 1 && lo <= hi && Associative(op, unit)
    requires IsRun(Combiner(op, elem, unit), grain, v, lo, hi, tasks, bodies) && tasks[|tasks| - 1].Finished?
    ensures 0 in bodies[|bodies| - 1] && bodies[|bodies| - 1][0] == Fold(op, elem, v, lo, hi)
  {
    Deterministic(Combiner(op, elem, unit), grain, v, lo, hi, tasks, bodies, tasks, bodies);
    CombinedInOrder(op, elem, unit, grain, v, lo, hi);
  }

  // ---------------------------------------------------------------- runs end

  function Measure(t: Task): nat {
    match t
    case Running(lo, hi, _) => if lo < hi then 3 * (hi - lo) - 2 else 1
    case Finished(_) => 0
    case Split(l, r, _, _) => Measure(l) + Measure(r) + 1
  }

  /** No run goes on forever. */
  lemma {:induction false} StepDecreases<V>(r: Reduction<V>, grain: nat, t: Task, h: Bodies<V>, t': Task, h': Bodies<V>)
    requires grain >= 1 && Step(r, grain, t, h, t', h')
    ensures Measure(t') < Measure(t)
    decreases t
  {
    if t.Split? && t'.Split? {
      if t' == t.(left := t'.left) && Step(r, grain, t.left, h, t'.left, h') {
        StepDecreases(r, grain, t.left, h, t'.left, h');
      } else {
        StepDecreases(r, grain, t.right, h, t'.right, h');
      }
    }
  }

  /** A run can only stop at its end. */
  lemma {:induction false} NeverStuck<V>(r: Reduction<V>, grain: nat, t: Task, h: Bodies<V>, lo: nat, hi: nat,
                                         b: BodyId, v: V)
    returns (t': Task, h': Bodies<V>)
    requires grain >= 1 && Good(r, grain, t, h, lo, hi, b, v) && !t.Finished?
    ensures Step(r, grain, t, h, t', h')
    decreases t
  {
    if t.Running? && Divisible(lo, hi, grain) {
      var z := FreshId(h.Keys);
      t' := Split(Running(lo, Middle(lo, hi), b), Running(Middle(lo, hi), hi, z), b, z);
      h' := h[b := r.split(h[b]).0][z := r.split(h[b]).1];
      assert Divide(r, grain, t, h, t', h');
    } else if t.Running? {
      t', h' := Finished(b), h[b := r.run(h[b], lo, hi)];
    } else if !t.left.Finished? {
      var l: Task;
      l, h' := NeverStuck(r, grain, t.left, h, lo, Middle(lo, hi), b, r.split(v).0);
      t' := t.(left := l);
    } else if !t.right.Finished? {
      var q: Task;
      q, h' := NeverStuck(r, grain, t.right, h, Middle(lo, hi), hi, t.rightBody, r.split(v).1);
      t' := t.(right := q);
    } else {
      t', h' := Finished(b), h[b := r.join(h[b], h[t.rightBody])];
      assert Join(r, t, h, t', h');
    }
  }
}
