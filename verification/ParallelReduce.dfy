/** `parallel_reduce`: tasks that split their ranges, bodies that are shared along the left
    edge of the task tree, and joins.

    A run is any interleaving of the steps of the tasks.  A body accumulates the elements it is
    given, so its state is a sequence of elements, and `join` appends another body's sequence. */
module ParallelReduce {
  import opened Options
  import opened FreshIds

  type BodyId = nat

  /** What has become of a task and of the tasks split off it. */
  datatype Task =
    | Spawned(lo: nat, hi: nat, body: BodyId)   // a right child that has not begun
    | Running(lo: nat, hi: nat, body: BodyId)   // the range is what is left to do
    | Finished(body: BodyId)
    | Split(mid: nat, left: Task, right: Task, myBody: Option<BodyId>, zombie: Option<BodyId>)
                                                // under a `finish_reduce`; `mid` is where it was split

  type Bodies<T> = map<BodyId, seq<T>>

  /** A task gives the right part of what is left to a new task. */
  predicate SplitOff(t: Task, t': Task) {
    && t.Running? && t'.Split?
    && t'.left.Running? && t'.right.Spawned?
    && t.lo == t'.left.lo < t'.left.hi == t'.mid == t'.right.lo < t'.right.hi == t.hi
    && t'.left.body == t.body == t'.right.body
    && t'.myBody.None? && t'.zombie.None?
  }

  /** A task runs its body on the leftmost part of what is left. */
  ghost predicate RunBody<T>(input: seq<T>, t: Task, h: Bodies<T>, t': Task, h': Bodies<T>) {
    && t.Running? && t'.Running? && t'.body == t.body && t'.hi == t.hi
    && t.lo < t'.lo <= t.hi <= |input|
    && t.body in h && h' == h[t.body := h[t.body] + input[t.lo..t'.lo]]
  }

  /** A task has nothing left; if it is a left child its continuation learns of its body. */
  predicate Finish(t: Task, t': Task) {
    t.Running? && t.lo == t.hi && t' == Finished(t.body)
  }

  /** A right child begins: with a body of its own unless its left sibling has finished. */
  ghost predicate BeginRight<T>(t: Task, h: Bodies<T>, t': Task, h': Bodies<T>) {
    && t.Split? && t.right.Spawned? && t'.Split? && t'.right.Running?
    && t'.zombie == (if t.myBody.None? then Some(t'.right.body) else t.zombie)
    && t' == t.(right := Running(t.right.lo, t.right.hi, t'.right.body), zombie := t'.zombie)
    && if t.myBody.None? then t'.right.body !in h && h' == h[t'.right.body := []]
       else t'.right.body == t.right.body && h' == h
  }

  /** `finish_reduce::execute`: both children have finished. */
  ghost predicate Join<T>(t: Task, h: Bodies<T>, t': Task, h': Bodies<T>) {
    && t.Split? && t.left.Finished? && t.right.Finished? && t.myBody.Some?
    && t' == Finished(t.myBody.value)
    && if t.zombie.Some? then
         && t.myBody.value in h && t.zombie.value in h
         && h' == h[t.myBody.value := h[t.myBody.value] + h[t.zombie.value]]
       else h' == h
  }

  /** The continuation, given what has become of its left child. */
  function WithLeft(t: Task, left: Task): Task
    requires t.Split?
  {
    t.(left := left, myBody := if left.Finished? then Some(left.body) else t.myBody)
  }

  /** One step of some task. */
  ghost predicate Step<T>(input: seq<T>, t: Task, h: Bodies<T>, t': Task, h': Bodies<T>)
    decreases t
  {
    || (SplitOff(t, t') && h' == h)
    || RunBody(input, t, h, t', h')
    || (Finish(t, t') && h' == h)
    || BeginRight(t, h, t', h')
    || Join(t, h, t', h')
    || (t.Split? && t'.Split? && t' == WithLeft(t, t'.left) && Step(input, t.left, h, t'.left, h'))
    || (t.Split? && t'.Split? && t' == t.(right := t'.right) && Step(input, t.right, h, t'.right, h'))
  }

  // ---------------------------------------------------------------- the invariant

  function Ids(t: Task): set<BodyId> {
    match t
    case Spawned(_, _, b) => {}
    case Running(_, _, b) => {b}
    case Finished(b) => {b}
    case Split(_, l, r, _, _) => Ids(l) + Ids(r)
  }

  /** The right child has no body of its own: it goes on with the body of the left one. */
  predicate Continues(t: Task)
    requires t.Split?
  {
    t.zombie.None? && !t.right.Spawned?
  }

  /** The task is to add the elements of `[lo, hi)` to body `b`, which held `base` before. */
  ghost predicate Good<T>(input: seq<T>, t: Task, h: Bodies<T>, lo: nat, hi: nat, b: BodyId, base: seq<T>)
    decreases t
  {
    lo <= hi <= |input| && Ids(t) <= h.Keys &&
    match t
    case Spawned(_, _, _) => false
    case Running(l, r, body) => body == b && lo <= l <= r == hi && h[b] == base + input[lo..l]
    case Finished(body) => body == b && h[b] == base + input[lo..hi]
    case Split(m, l, r, my, z) =>
      && lo < m < hi && my == (if l.Finished? then Some(b) else None)
      && if Continues(t) then
           l == Finished(b) && Good(input, r, h, m, hi, b, base + input[lo..m])
         else
           && Good(input, l, h, lo, m, b, base)
           && if z.None? then r == Spawned(m, hi, b)
              else z.value !in Ids(l) && Ids(l) !! Ids(r) && Good(input, r, h, m, hi, z.value, [])
  }

  /** A task's bodies include the one it is to fill. */
  lemma {:induction false} HasBody<T>(input: seq<T>, t: Task, h: Bodies<T>, lo: nat, hi: nat, b: BodyId, base: seq<T>)
    requires Good(input, t, h, lo, hi, b, base)
    ensures b in Ids(t)
  {
    if t.Split? {
      if !Continues(t) {
        HasBody(input, t.left, h, lo, t.mid, b, base);
      }
    }
  }

  /** What a task does depends on its own bodies only. */
  lemma {:induction false} OwnBodies<T>(input: seq<T>, t: Task, h: Bodies<T>, h': Bodies<T>, lo: nat, hi: nat,
                                        b: BodyId, base: seq<T>)
    requires Good(input, t, h, lo, hi, b, base)
    requires forall x :: x in Ids(t) ==> x in h' && h'[x] == h[x]
    ensures Good(input, t, h', lo, hi, b, base)
  {
    HasBody(input, t, h, lo, hi, b, base);
    if t.Split? {
      if Continues(t) {
        OwnBodies(input, t.right, h, h', t.mid, hi, b, base + input[lo..t.mid]);
      } else {
        OwnBodies(input, t.left, h, h', lo, t.mid, b, base);
        if t.zombie.Some? {
          OwnBodies(input, t.right, h, h', t.mid, hi, t.zombie.value, []);
        }
      }
    }
  }

  /** A step changes bodies of its own task only, and new ones. */
  ghost predicate Local<T>(t: Task, h: Bodies<T>, t': Task, h': Bodies<T>) {
    && h.Keys <= h'.Keys
    && (forall x :: x in h && x !in Ids(t) ==> h'[x] == h[x])
    && (forall x :: x in Ids(t') ==> x in Ids(t) || x !in h)
  }

  lemma {:induction false} StepKeepsGood<T>(input: seq<T>, t: Task, h: Bodies<T>, t': Task, h': Bodies<T>,
                                            lo: nat, hi: nat, b: BodyId, base: seq<T>)
    requires Good(input, t, h, lo, hi, b, base) && Step(input, t, h, t', h')
    ensures Good(input, t', h', lo, hi, b, base) && Local(t, h, t', h')
    decreases t
  {
    HasBody(input, t, h, lo, hi, b, base);
    if SplitOff(t, t') && h' == h {
    } else if RunBody(input, t, h, t', h') {
      assert input[lo..t.lo] + input[t.lo..t'.lo] == input[lo..t'.lo];
      assert h[b] + input[t.lo..t'.lo] == base + input[lo..t'.lo];
    } else if Finish(t, t') && h' == h {
    } else if BeginRight(t, h, t', h') {
      BeginKeepsGood(input, t, h, t', h', lo, hi, b, base);
    } else if Join(t, h, t', h') {
      JoinKeepsGood(input, t, h, t', h', lo, hi, b, base);
    } else if t' == WithLeft(t, t'.left) && Step(input, t.left, h, t'.left, h') {
      StepKeepsGood(input, t.left, h, t'.left, h', lo, t.mid, b, base);
      LeftKeepsGood(input, t, h, t'.left, h', lo, hi, b, base);
    } else if Continues(t) {
      StepKeepsGood(input, t.right, h, t'.right, h', t.mid, hi, b, base + input[lo..t.mid]);
    } else {
      StepKeepsGood(input, t.right, h, t'.right, h', t.mid, hi, t.zombie.value, []);
      OwnBodies(input, t.left, h, h', lo, t.mid, b, base);
    }
  }

  lemma LeftKeepsGood<T>(input: seq<T>, t: Task, h: Bodies<T>, left: Task, h': Bodies<T>, lo: nat, hi: nat, b: BodyId,
                         base: seq<T>)
    requires t.Split? && !Continues(t) && !t.left.Finished? && Good(input, t, h, lo, hi, b, base)
    requires Good(input, left, h', lo, t.mid, b, base) && Local(t.left, h, left, h')
    ensures Good(input, WithLeft(t, left), h', lo, hi, b, base) && Local(t, h, WithLeft(t, left), h')
  {
    HasBody(input, left, h', lo, t.mid, b, base);
    if t.zombie.Some? {
      HasBody(input, t.right, h, t.mid, hi, t.zombie.value, []);
      OwnBodies(input, t.right, h, h', t.mid, hi, t.zombie.value, []);
    }
  }

  lemma BeginKeepsGood<T>(input: seq<T>, t: Task, h: Bodies<T>, t': Task, h': Bodies<T>,
                          lo: nat, hi: nat, b: BodyId, base: seq<T>)
    requires Good(input, t, h, lo, hi, b, base) && BeginRight(t, h, t', h')
    ensures Good(input, t', h', lo, hi, b, base) && Local(t, h, t', h')
  {
    if t.myBody.None? {
      OwnBodies(input, t.left, h, h', lo, t.mid, b, base);
    } else {
      assert base + input[lo..t.mid] + input[t.mid..t.mid] == base + input[lo..t.mid];
    }
  }

  lemma JoinKeepsGood<T>(input: seq<T>, t: Task, h: Bodies<T>, t': Task, h': Bodies<T>,
                         lo: nat, hi: nat, b: BodyId, base: seq<T>)
    requires Good(input, t, h, lo, hi, b, base) && Join(t, h, t', h')
    ensures Good(input, t', h', lo, hi, b, base) && Local(t, h, t', h')
  {
    assert input[lo..t.mid] + input[t.mid..hi] == input[lo..hi];
    if t.zombie.Some? {
      assert h'[b] == base + input[lo..t.mid] + ([] + input[t.mid..hi]) == base + input[lo..hi];
    } else {
      assert base + input[lo..t.mid] + input[t.mid..hi] == base + input[lo..hi];
    }
  }

  // ---------------------------------------------------------------- whole runs

  /** A run of `parallel_reduce` over the whole input with body 0, which holds `base`. */
  ghost predicate IsRun<T>(input: seq<T>, base: seq<T>, tasks: seq<Task>, bodies: seq<Bodies<T>>) {
    && |tasks| == |bodies| > 0
    && tasks[0] == Running(0, |input|, 0) && bodies[0] == map[0 := base]
    && forall i :: 0 <= i < |tasks| - 1 ==> Step(input, tasks[i], bodies[i], tasks[i + 1], bodies[i + 1])
  }

  lemma {:induction false} RunIsGood<T>(input: seq<T>, base: seq<T>, tasks: seq<Task>, bodies: seq<Bodies<T>>, n: nat)
    requires IsRun(input, base, tasks, bodies) && n < |tasks|
    ensures Good(input, tasks[n], bodies[n], 0, |input|, 0, base)
  {
    if n == 0 {
      assert base + input[0..0] == base;
    } else {
      RunIsGood(input, base, tasks, bodies, n - 1);
      assert Step(input, tasks[n - 1], bodies[n - 1], tasks[n - 1 + 1], bodies[n - 1 + 1]);
      StepKeepsGood(input, tasks[n - 1], bodies[n - 1], tasks[n], bodies[n], 0, |input|, 0, base);
    }
  }

  /** However the tasks are split and interleaved, and whichever right children find their left
      siblings finished, the user's body has received all elements in order at the end. */
  lemma ReduceIsOrdered<T>(input: seq<T>, base: seq<T>, tasks: seq<Task>, bodies: seq<Bodies<T>>)
    requires IsRun(input, base, tasks, bodies) && tasks[|tasks| - 1].Finished?
    ensures tasks[|tasks| - 1].body == 0 && 0 in bodies[|tasks| - 1]
    ensures bodies[|tasks| - 1][0] == base + input
  {
    RunIsGood(input, base, tasks, bodies, |tasks| - 1);
    assert input[0..|input|] == input;
  }

  // ---------------------------------------------------------------- runs end

  function Work(n: nat): nat {
    if n == 0 then 1 else 10 * n - 5
  }

  function Measure(t: Task): nat {
    match t
    case Spawned(lo, hi, _) => Work(if lo <= hi then hi - lo else 0) + 1
    case Running(lo, hi, _) => Work(if lo <= hi then hi - lo else 0)
    case Finished(_) => 0
    case Split(_, l, r, _, _) => Measure(l) + Measure(r) + 1
  }

  /** No run goes on forever. */
  lemma {:induction false} StepDecreases<T>(input: seq<T>, t: Task, h: Bodies<T>, t': Task, h': Bodies<T>)
    requires Step(input, t, h, t', h')
    ensures Measure(t') < Measure(t)
    decreases t
  {
    if t.Split? && t'.Split? {
      if t' == WithLeft(t, t'.left) && Step(input, t.left, h, t'.left, h') {
        StepDecreases(input, t.left, h, t'.left, h');
      } else if t' == t.(right := t'.right) && Step(input, t.right, h, t'.right, h') {
        StepDecreases(input, t.right, h, t'.right, h');
      }
    }
  }

  /** A run can only stop at its end. */
  lemma {:induction false} NeverStuck<T>(input: seq<T>, t: Task, h: Bodies<T>, lo: nat, hi: nat, b: BodyId,
                                         base: seq<T>)
    returns (t': Task, h': Bodies<T>)
    requires Good(input, t, h, lo, hi, b, base) && !t.Finished?
    ensures Step(input, t, h, t', h')
    decreases t
  {
    if t.Running? {
      if t.lo < t.hi {
        t', h' := Running(t.hi, t.hi, b), h[b := h[b] + input[t.lo..t.hi]];
      } else {
        t', h' := Finished(b), h;
      }
    } else if t.right.Spawned? {
      if t.myBody.Some? {
        t', h' := t.(right := Running(t.mid, hi, b)), h;
      } else {
        var z := FreshId(h.Keys);
        t', h' := t.(right := Running(t.mid, hi, z), zombie := Some(z)), h[z := []];
      }
      assert BeginRight(t, h, t', h');
    } else if !t.right.Finished? {
      var r: Task;
      if Continues(t) {
        r, h' := NeverStuck(input, t.right, h, t.mid, hi, b, base + input[lo..t.mid]);
      } else {
        r, h' := NeverStuck(input, t.right, h, t.mid, hi, t.zombie.value, []);
      }
      t' := t.(right := r);
    } else if !t.left.Finished? {
      var l: Task;
      l, h' := NeverStuck(input, t.left, h, lo, t.mid, b, base);
      t' := WithLeft(t, l);
    } else {
      t' := Finished(b);
      h' := if t.zombie.Some? then h[b := h[b] + h[t.zombie.value]] else h;
      assert Join(t, h, t', h');
    }
  }

  // ---------------------------------------------------------------- runs without overlap

  /** No right child has a body of its own: each one began after its left sibling had finished. */
  predicate InTurn(t: Task) {
    t.Split? ==> t.zombie.None? && InTurn(t.left) && InTurn(t.right)
  }

  /** Bodies are only made for right children that overlap with their left siblings. */
  lemma {:induction false} InTurnMakesNone<T>(input: seq<T>, t: Task, h: Bodies<T>, t': Task, h': Bodies<T>)
    requires Step(input, t, h, t', h') && InTurn(t) && InTurn(t')
    ensures h'.Keys == h.Keys
    decreases t
  {
    if t.Split? && t'.Split? && !BeginRight(t, h, t', h') {
      if t' == WithLeft(t, t'.left) && Step(input, t.left, h, t'.left, h') {
        InTurnMakesNone(input, t.left, h, t'.left, h');
      } else {
        InTurnMakesNone(input, t.right, h, t'.right, h');
      }
    }
  }

  /** In a run without overlap the user's body is the only one. */
  lemma {:induction false} OneBodyInTurn<T>(input: seq<T>, base: seq<T>, tasks: seq<Task>, bodies: seq<Bodies<T>>,
                                            n: nat)
    requires IsRun(input, base, tasks, bodies) && n < |tasks|
    requires forall k :: 0 <= k <= n ==> InTurn(tasks[k])
    ensures bodies[n].Keys == {0}
  {
    if n > 0 {
      OneBodyInTurn(input, base, tasks, bodies, n - 1);
      assert Step(input, tasks[n - 1], bodies[n - 1], tasks[n - 1 + 1], bodies[n - 1 + 1]);
      InTurnMakesNone(input, tasks[n - 1], bodies[n - 1], tasks[n], bodies[n]);
    }
  }

  /** A run can always go on without overlap. */
  lemma {:induction false} NextInTurn<T>(input: seq<T>, t: Task, h: Bodies<T>, lo: nat, hi: nat, b: BodyId,
                                         base: seq<T>)
    returns (t': Task, h': Bodies<T>)
    requires Good(input, t, h, lo, hi, b, base) && InTurn(t) && !t.Finished?
    ensures Step(input, t, h, t', h') && InTurn(t')
    decreases t
  {
    if t.Running? {
      t', h' := NeverStuck(input, t, h, lo, hi, b, base);
    } else if !t.left.Finished? {
      var l: Task;
      l, h' := NextInTurn(input, t.left, h, lo, t.mid, b, base);
      t' := WithLeft(t, l);
    } else if t.right.Spawned? {
      t', h' := t.(right := Running(t.mid, hi, b)), h;
      assert BeginRight(t, h, t', h');
    } else if !t.right.Finished? {
      var r: Task;
      r, h' := NextInTurn(input, t.right, h, t.mid, hi, b, base + input[lo..t.mid]);
      t' := t.(right := r);
    } else {
      t', h' := Finished(b), h;
      assert Join(t, h, t', h');
    }
  }
}
