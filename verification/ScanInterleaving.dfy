/** `parallel_scan` step by step: any interleaving of the tasks of the two passes, with bodies
    read and written while other tasks run.

    The first pass is a tree of `start_scan` tasks and `finish_scan` continuations, the second
    one of `sum_node` and `final_sum` tasks.  A body is called for one element at a time. */
module ScanInterleaving {
  import opened Options
  import opened FreshIds
  import opened ParallelScan

  type BodyId = nat
  type Bodies<T> = map<BodyId, seq<T>>
  type SumTree = Option<SumNode<BodyId>>

  /** The final scan of an element, and what the body held before it. */
  datatype Call<T> = Call(index: nat, before: seq<T>)

  // ---------------------------------------------------------------- first pass

  /** What has become of a `start_scan` task and of those split off it. */
  datatype Scan =
    | Begin(lo: nat, hi: nat, body: BodyId, isFinal: bool)
    | RightChild(lo: nat, hi: nat, body: BodyId, isFinal: bool)             // spawned, not begun
    | Running(lo: nat, next: nat, hi: nat, body: BodyId, isFinal: bool)     // in a call of the body
    | Scanned(lo: nat, hi: nat, isFinal: bool, sum: BodyId, node: SumTree)
    | Divided(lo: nat, mid: nat, hi: nat, isFinal: bool, left: Scan, right: Scan, zombie: Option<BodyId>)
                                                                            // under a `finish_scan`

  /** The range is divided; the right child is spawned with the same body. */
  predicate Divide(split: Splitter, t: Scan, t': Scan) {
    && t.Begin?
    && var m := split(t.lo, t.hi);
      && t.lo < m < t.hi
      && t' == Divided(t.lo, m, t.hi, t.isFinal, Begin(t.lo, m, t.body, t.isFinal),
                    RightChild(m, t.hi, t.body, t.isFinal), None)
  }

  /** The range is executed; nothing is called if neither a final scan nor a sum is wanted. */
  function Executed(wantSum: bool, lo: nat, hi: nat, body: BodyId, isFinal: bool): Scan {
    if isFinal || wantSum then Running(lo, lo, hi, body, isFinal) else Scanned(lo, hi, isFinal, body, None)
  }

  /** The body takes one more element. */
  ghost predicate NextElement<T>(input: seq<T>, t: Scan, h: Bodies<T>, c: Option<Call<T>>, t': Scan, h': Bodies<T>) {
    && t.Running? && t.next < t.hi <= |input| && t.body in h
    && t' == t.(next := t.next + 1)
    && h' == h[t.body := h[t.body] + [input[t.next]]]
    && c == if t.isFinal then Some(Call(t.next, h[t.body])) else None
  }

  predicate Return(t: Scan, t': Scan) {
    t.Running? && t.next == t.hi && t' == Scanned(t.lo, t.hi, t.isFinal, t.body, None)
  }

  /** A right child begins that is stolen or treated so: with a new body. */
  ghost predicate BeginStolen<T>(t: Scan, h: Bodies<T>, t': Scan, h': Bodies<T>) {
    && t.Divided? && t.right.RightChild? && t'.Divided? && t'.zombie.Some?
    && var z := t'.zombie.value;
      && z !in h && h' == h[z := []]
      && t' == t.(right := Begin(t.right.lo, t.right.hi, z, false), zombie := Some(z))
  }

  /** A right child begins that is not stolen, so that its left sibling has finished: it goes on
      with the same body if that is the sum of its sibling, and does not divide its range. */
  predicate BeginUnstolen(wantSum: bool, t: Scan, t': Scan) {
    && t.Divided? && t.right.RightChild? && t.left.Scanned? && t.left.sum == t.right.body
    && t' == t.(right := Executed(wantSum, t.right.lo, t.right.hi, t.right.body, t.right.isFinal))
  }

  /** `finish_scan::execute` */
  ghost predicate FinishScan<T>(wantSum: bool, t: Scan, h: Bodies<T>, t': Scan, h': Bodies<T>) {
    && t.Divided? && t.left.Scanned? && t.right.Scanned?
    && t' == Scanned(t.lo, t.hi, t.isFinal, t.right.sum, Result(t))
    && if t.zombie.Some? && wantSum then
         && t.left.sum in h && t.right.sum in h
         && h' == h[t.right.sum := h[t.left.sum] + h[t.right.sum]]
       else h' == h
  }

  /** What `finish_scan` puts into its return slot. */
  function Result(t: Scan): SumTree
    requires t.Divided? && t.left.Scanned? && t.right.Scanned?
  {
    if t.zombie.Some? || t.right.node.Some? then
      Some(SumNode(t.lo, t.mid, t.hi, t.left.sum, t.left.node, t.right.node, t.isFinal && t.left.node.None?))
    else
      None
  }

  /** A step of a task or of its continuation.  `wantSum` says whether it has somewhere to store its
      sum, and `c` is the final scan that it makes, if any. */
  ghost predicate Act1<T>(input: seq<T>, split: Splitter, wantSum: bool,
                          t: Scan, h: Bodies<T>, c: Option<Call<T>>, t': Scan, h': Bodies<T>)
  {
    || NextElement(input, t, h, c, t', h')
    || (c.None? && h' == h && Divide(split, t, t'))
    || (c.None? && h' == h && t.Begin? && t' == Executed(wantSum, t.lo, t.hi, t.body, t.isFinal))
    || (c.None? && h' == h && Return(t, t'))
    || (c.None? && h' == h && BeginUnstolen(wantSum, t, t'))
    || (c.None? && BeginStolen(t, h, t', h'))
    || (c.None? && FinishScan(wantSum, t, h, t', h'))
  }

  /** One step of the first pass. */
  ghost predicate Step1<T>(input: seq<T>, split: Splitter, wantSum: bool,
                           t: Scan, h: Bodies<T>, c: Option<Call<T>>, t': Scan, h': Bodies<T>)
    decreases t
  {
    || Act1(input, split, wantSum, t, h, c, t', h')
    || (t.Divided? && t'.Divided? && t' == t.(left := t'.left)
        && Step1(input, split, true, t.left, h, c, t'.left, h'))
    || (t.Divided? && t'.Divided? && t' == t.(right := t'.right)
        && Step1(input, split, wantSum, t.right, h, c, t'.right, h'))
  }

  // ---------------------------------------------------------------- what the tasks of the first pass owe

  ghost function Ids1(t: Scan): set<BodyId> {
    match t
    case Begin(_, _, b, _) => {b}
    case RightChild(_, _, _, _) => {}
    case Running(_, _, _, b, _) => {b}
    case Scanned(_, _, _, sum, node) => {sum} + ParallelScan.Bodies(node)
    case Divided(_, _, _, _, l, r, _) => Ids1(l) + Ids1(r)
  }

  /** Element `i` has had its final scan. */
  ghost predicate Made1(t: Scan, i: nat) {
    match t
    case Begin(_, _, _, _) => false
    case RightChild(_, _, _, _) => false
    case Running(lo, next, _, _, f) => f && lo <= i < next
    case Scanned(lo, hi, f, _, node) => f && lo <= i < if node.None? then hi else FinalEnd(node.value)
    case Divided(_, _, _, _, l, r, _) => Made1(l, i) || Made1(r, i)
  }

  /** The left sums hold the elements of the left parts, those of the left spine after `base`. */
  ghost predicate SumsIn<T>(n: SumTree, h: Bodies<T>, input: seq<T>, base: seq<T>) {
    match n
    case None => true
    case Some(nd) =>
      && nd.lo < nd.mid <= |input|
      && nd.leftSum in h && h[nd.leftSum] == base + input[nd.lo..nd.mid]
      && SumsIn(nd.left, h, input, base) && SumsIn(nd.right, h, input, [])
  }

  /** What a task was given: a range and a body, which held `base`. */
  datatype Work<T> = Work(lo: nat, hi: nat, body: BodyId, base: seq<T>, isFinal: bool, wantSum: bool)

  /** The work of the children of a task that divides its range at `m`. */
  function LeftWork<T>(w: Work<T>, m: nat): Work<T> {
    w.(hi := m, wantSum := true)
  }

  function StolenWork<T>(w: Work<T>, m: nat, z: BodyId): Work<T> {
    Work(m, w.hi, z, [], false, w.wantSum)
  }

  function UnstolenWork<T>(input: seq<T>, w: Work<T>, m: nat): Work<T>
    requires w.lo <= m <= |input|
  {
    w.(lo := m, base := w.base + input[w.lo..m])
  }

  /** What the first pass leaves of its work. */
  ghost predicate LeftBehind<T>(input: seq<T>, split: Splitter, w: Work<T>, sum: BodyId, n: SumTree, h: Bodies<T>)
    requires w.lo <= w.hi <= |input| && sum in h
  {
    && Shape(n, split, w.lo, w.hi) && Distinct(n) && SumsIn(n, h, input, w.base)
    && (if w.isFinal then FirstPartFinal(n) else NothingFinal(n))
    && (if n.None? then sum == w.body else w.body in ParallelScan.Bodies(n) && sum !in ParallelScan.Bodies(n))
    && (w.wantSum || (w.isFinal && n.None?) ==> h[sum] == w.base + input[w.lo..w.hi])
  }

  /** The right child goes on with the body of the left one. */
  predicate Continues(t: Scan)
    requires t.Divided?
  {
    t.zombie.None? && !t.right.RightChild?
  }

  ghost predicate Good1<T>(input: seq<T>, split: Splitter, w: Work<T>, t: Scan, h: Bodies<T>)
    decreases t
  {
    && w.lo < w.hi <= |input| && (w.isFinal ==> w.base == input[..w.lo])
    && w.body in Ids1(t) && Ids1(t) <= h.Keys
    && match t
      case Begin(_, _, _, _) => t == Begin(w.lo, w.hi, w.body, w.isFinal) && h[w.body] == w.base
      case RightChild(_, _, _, _) => false
      case Running(_, next, _, _, _) =>
        && t == Running(w.lo, next, w.hi, w.body, w.isFinal) && w.lo <= next <= w.hi && (w.isFinal || w.wantSum)
        && h[w.body] == w.base + input[w.lo..next]
      case Scanned(_, _, _, sum, node) =>
        t == Scanned(w.lo, w.hi, w.isFinal, sum, node) && LeftBehind(input, split, w, sum, node, h)
      case Divided(_, m, _, _, l, r, z) =>
        && t == Divided(w.lo, m, w.hi, w.isFinal, l, r, z) && m == split(w.lo, w.hi) && w.lo < m < w.hi
        && if Continues(t) then
             && l == Scanned(w.lo, m, w.isFinal, w.body, None) && (r.Running? || (r.Scanned? && r.node.None?))
             && Good1(input, split, UnstolenWork(input, w, m), r, h)
           else
             && Good1(input, split, LeftWork(w, m), l, h)
             && if z.None? then r == RightChild(m, w.hi, w.body, w.isFinal)
                else Ids1(l) !! Ids1(r) && Good1(input, split, StolenWork(w, m, z.value), r, h)
  }

  /** The work that the right child is doing, once it has begun. */
  function RightWork<T>(input: seq<T>, w: Work<T>, t: Scan): Work<T>
    requires t.Divided? && !t.right.RightChild? && w.lo <= t.mid <= |input|
  {
    if t.zombie.None? then UnstolenWork(input, w, t.mid) else StolenWork(w, t.mid, t.zombie.value)
  }

  lemma {:induction false} SumsElsewhere<T>(n: SumTree, h: Bodies<T>, h': Bodies<T>, input: seq<T>, base: seq<T>)
    requires SumsIn(n, h, input, base)
    requires forall x :: x in ParallelScan.Bodies(n) && x in h ==> x in h' && h'[x] == h[x]
    ensures SumsIn(n, h', input, base)
  {
    if n.Some? {
      SumsElsewhere(n.value.left, h, h', input, base);
      SumsElsewhere(n.value.right, h, h', input, []);
    }
  }

  /** What a task does depends on its own bodies only. */
  lemma {:induction false} OwnBodies1<T>(input: seq<T>, split: Splitter, w: Work<T>, t: Scan, h: Bodies<T>,
                                         h': Bodies<T>)
    requires Good1(input, split, w, t, h)
    requires forall x :: x in Ids1(t) ==> x in h' && h'[x] == h[x]
    ensures Good1(input, split, w, t, h')
    decreases t
  {
    if t.Scanned? {
      SumsElsewhere(t.node, h, h', input, w.base);
    } else if t.Divided? {
      if !Continues(t) {
        OwnBodies1(input, split, LeftWork(w, t.mid), t.left, h, h');
      }
      if !t.right.RightChild? {
        OwnBodies1(input, split, RightWork(input, w, t), t.right, h, h');
      }
    }
  }

  /** The elements scanned by a task lie in its range. */
  lemma {:induction false} MadeWithin<T>(input: seq<T>, split: Splitter, w: Work<T>, t: Scan, h: Bodies<T>, i: nat)
    requires Good1(input, split, w, t, h) && Made1(t, i)
    ensures w.isFinal && w.lo <= i < w.hi
    decreases t
  {
    if t.Scanned? {
      if t.node.Some? {
        SpineEnd(t.node.value, split);
      }
    } else if t.Divided? {
      if Made1(t.right, i) {
        MadeWithin(input, split, RightWork(input, w, t), t.right, h, i);
      } else if !Continues(t) {
        MadeWithin(input, split, LeftWork(w, t.mid), t.left, h, i);
      }
    }
  }

  // ---------------------------------------------------------------- steps of the first pass

  /** A step changes bodies of its own task only, and new ones. */
  ghost predicate Local<T>(ids: set<BodyId>, h: Bodies<T>, ids': set<BodyId>, h': Bodies<T>) {
    && h.Keys <= h'.Keys
    && (forall x :: x in h && x !in ids ==> h'[x] == h[x])
    && (forall x :: x in ids' ==> x in ids || x !in h)
  }

  /** A final scan is made by a body that holds all that comes before the element. */
  ghost predicate Prefix<T>(input: seq<T>, c: Option<Call<T>>) {
    c.Some? ==> c.value.index < |input| && c.value.before == input[..c.value.index]
  }

  /** The elements scanned are those that were, and the one of `c`, which was not. */
  ghost predicate Adds1<T>(t: Scan, c: Option<Call<T>>, t': Scan) {
    && (forall i: nat :: Made1(t', i) <==> Made1(t, i) || (c.Some? && c.value.index == i))
    && (c.Some? ==> !Made1(t, c.value.index))
  }

  lemma {:induction false} StepKeepsGood1<T>(input: seq<T>, split: Splitter, w: Work<T>,
                                             t: Scan, h: Bodies<T>, c: Option<Call<T>>, t': Scan, h': Bodies<T>)
    requires Good1(input, split, w, t, h) && Step1(input, split, w.wantSum, t, h, c, t', h')
    ensures Good1(input, split, w, t', h') && Local(Ids1(t), h, Ids1(t'), h')
    ensures Prefix(input, c) && Adds1(t, c, t')
    decreases t
  {
    if Act1(input, split, w.wantSum, t, h, c, t', h') {
      ActKeepsGood1(input, split, w, t, h, c, t', h');
    } else if t' == t.(left := t'.left) && Step1(input, split, true, t.left, h, c, t'.left, h') {
      var wl := LeftWork(w, t.mid);
      StepKeepsGood1(input, split, wl, t.left, h, c, t'.left, h');
      LeftKeepsGood(input, split, w, t, h, c, t'.left, h');
    } else {
      var wr := RightWork(input, w, t);
      StepKeepsGood1(input, split, wr, t.right, h, c, t'.right, h');
      RightKeepsGood(input, split, w, t, h, c, t'.right, h');
    }
  }

  lemma ActKeepsGood1<T>(input: seq<T>, split: Splitter, w: Work<T>, t: Scan, h: Bodies<T>, c: Option<Call<T>>,
                         t': Scan, h': Bodies<T>)
    requires Good1(input, split, w, t, h) && Act1(input, split, w.wantSum, t, h, c, t', h')
    ensures Good1(input, split, w, t', h') && Local(Ids1(t), h, Ids1(t'), h')
    ensures Prefix(input, c) && Adds1(t, c, t')
  {
    if NextElement(input, t, h, c, t', h') {
      NextKeepsGood1(input, split, w, t, h, c, t', h');
    } else if BeginUnstolen(w.wantSum, t, t') && h' == h {
      UnstolenKeepsGood(input, split, w, t, h, t');
    } else if BeginStolen(t, h, t', h') {
      OwnBodies1(input, split, LeftWork(w, t.mid), t.left, h, h');
    } else if FinishScan(w.wantSum, t, h, t', h') {
      FinishKeepsGood(input, split, w, t, h, t', h');
    }
  }

  lemma NextKeepsGood1<T>(input: seq<T>, split: Splitter, w: Work<T>, t: Scan, h: Bodies<T>, c: Option<Call<T>>,
                          t': Scan, h': Bodies<T>)
    requires Good1(input, split, w, t, h) && NextElement(input, t, h, c, t', h')
    ensures Good1(input, split, w, t', h') && Local(Ids1(t), h, Ids1(t'), h')
    ensures Prefix(input, c) && Adds1(t, c, t')
  {
    assert input[w.lo..t.next] + [input[t.next]] == input[w.lo..t.next + 1];
    assert h'[w.body] == w.base + input[w.lo..t.next + 1];
    assert w.isFinal ==> input[..w.lo] + input[w.lo..t.next] == input[..t.next];
  }

  lemma UnstolenKeepsGood<T>(input: seq<T>, split: Splitter, w: Work<T>, t: Scan, h: Bodies<T>, t': Scan)
    requires Good1(input, split, w, t, h) && BeginUnstolen(w.wantSum, t, t')
    ensures Good1(input, split, w, t', h) && Ids1(t') <= Ids1(t) && Adds1<T>(t, None, t')
  {
    var v := w.base + input[w.lo..t.mid];
    assert v + input[t.mid..t.mid] == v;
    assert w.isFinal ==> v == input[..t.mid];
  }

  lemma FinishKeepsGood<T>(input: seq<T>, split: Splitter, w: Work<T>, t: Scan, h: Bodies<T>,
                           t': Scan, h': Bodies<T>)
    requires Good1(input, split, w, t, h) && FinishScan(w.wantSum, t, h, t', h')
    ensures Good1(input, split, w, t', h') && Local(Ids1(t), h, Ids1(t'), h') && Adds1<T>(t, None, t')
  {
    if Continues(t) {
      var v := w.base + input[w.lo..t.mid];
      assert v + input[t.mid..w.hi] == w.base + input[w.lo..w.hi];
    } else {
      FinishApart(input, split, w, t, h, t', h');
      FinishMakesNothing(input, split, w, t, h, t');
    }
  }

  /** The right child had a body of its own. */
  lemma FinishApart<T>(input: seq<T>, split: Splitter, w: Work<T>, t: Scan, h: Bodies<T>,
                       t': Scan, h': Bodies<T>)
    requires Good1(input, split, w, t, h) && FinishScan(w.wantSum, t, h, t', h') && !Continues(t)
    ensures Good1(input, split, w, t', h')
  {
    var v := w.base + input[w.lo..t.mid];
    assert h[t.left.sum] == v;
    SumsElsewhere(t.left.node, h, h', input, w.base);
    SumsElsewhere(t.right.node, h, h', input, []);
    assert v + ([] + input[t.mid..w.hi]) == w.base + input[w.lo..w.hi];
  }

  lemma FinishMakesNothing<T>(input: seq<T>, split: Splitter, w: Work<T>, t: Scan, h: Bodies<T>, t': Scan)
    requires t.Divided? && !Continues(t) && t.left.Scanned? && t.right.Scanned? && Good1(input, split, w, t, h)
    requires t'.Scanned? && t' == Scanned(t.lo, t.hi, t.isFinal, t'.sum, Result(t))
    ensures Adds1<T>(t, None, t')
  {
    if t.isFinal && t.left.node.Some? {
      SpineEnd(t.left.node.value, split);
    }
  }

  lemma LeftKeepsGood<T>(input: seq<T>, split: Splitter, w: Work<T>, t: Scan, h: Bodies<T>, c: Option<Call<T>>,
                         left: Scan, h': Bodies<T>)
    requires t.Divided? && !Continues(t) && Good1(input, split, w, t, h)
    requires Good1(input, split, LeftWork(w, t.mid), left, h') && Local(Ids1(t.left), h, Ids1(left), h')
    requires Adds1(t.left, c, left)
    ensures Good1(input, split, w, t.(left := left), h') && Local(Ids1(t), h, Ids1(t.(left := left)), h')
    ensures Adds1(t, c, t.(left := left))
  {
    if t.zombie.Some? {
      OwnBodies1(input, split, RightWork(input, w, t), t.right, h, h');
      if c.Some? && Made1(t.right, c.value.index) {
        MadeWithin(input, split, RightWork(input, w, t), t.right, h, c.value.index);
      }
    }
  }

  lemma RightKeepsGood<T>(input: seq<T>, split: Splitter, w: Work<T>, t: Scan, h: Bodies<T>, c: Option<Call<T>>,
                          right: Scan, h': Bodies<T>)
    requires t.Divided? && !t.right.RightChild? && Good1(input, split, w, t, h)
    requires Good1(input, split, RightWork(input, w, t), right, h') && Local(Ids1(t.right), h, Ids1(right), h')
    requires Step1(input, split, w.wantSum, t.right, h, c, right, h') && Adds1(t.right, c, right)
    ensures Good1(input, split, w, t.(right := right), h') && Local(Ids1(t), h, Ids1(t.(right := right)), h')
    ensures Adds1(t, c, t.(right := right))
  {
    if c.Some? {
      assert Made1(right, c.value.index);
      MadeWithin(input, split, RightWork(input, w, t), right, h', c.value.index);
    }
    if !Continues(t) {
      OwnBodies1(input, split, LeftWork(w, t.mid), t.left, h, h');
    }
  }

  // ---------------------------------------------------------------- second pass

  /** A task of the second pass.  The one with `last` hands its body to the user. */
  datatype Final =
    | Pending(nd: SumNode<BodyId>, body: BodyId, incoming: Option<BodyId>, last: bool)    // `sum_node`
    | Part(lo: nat, next: nat, hi: nat, body: BodyId, last: bool)                         // `final_sum`
    | Both(mid: nat, left: Final, right: Final)
    | Done(last: bool)

  /** The body of the caller, and the one that `run` makes. */
  const User: BodyId := 0
  const Temp: BodyId := 1

  /** `create_child` */
  function Child(n: SumTree, lo: nat, hi: nat, body: BodyId, incoming: Option<BodyId>, last: bool): Final {
    if n.None? then Part(lo, lo, hi, body, last) else Pending(n.value, body, incoming, last)
  }

  /** `sum_node::execute` */
  ghost predicate Descend<T>(t: Final, h: Bodies<T>, t': Final, h': Bodies<T>) {
    && t.Pending?
    && var nd := t.nd;
      && t' == Both(nd.mid,
                    if nd.leftIsFinal then Done(false) else Child(nd.left, nd.lo, nd.mid, t.body, t.incoming, false),
                    Child(nd.right, nd.mid, nd.hi, nd.leftSum, Some(nd.leftSum), t.last))
      && if t.incoming.None? then h' == h else
           && nd.leftSum in h && t.incoming.value in h
           && h' == h[nd.leftSum := h[t.incoming.value] + h[nd.leftSum]]
  }

  ghost predicate NextFinal<T>(input: seq<T>, t: Final, h: Bodies<T>, c: Option<Call<T>>, t': Final, h': Bodies<T>) {
    && t.Part? && t.next < t.hi <= |input| && t.body in h
    && t' == t.(next := t.next + 1)
    && h' == h[t.body := h[t.body] + [input[t.next]]]
    && c == Some(Call(t.next, h[t.body]))
  }

  /** A part is finished; the last one is assigned to the body of the caller. */
  ghost predicate HandOver<T>(t: Final, h: Bodies<T>, t': Final, h': Bodies<T>) {
    && t.Part? && t.next == t.hi && t.body in h
    && t' == Done(t.last) && h' == if t.last then h[User := h[t.body]] else h
  }

  predicate BothDone(t: Final, t': Final) {
    t.Both? && t.left.Done? && t.right.Done? && t' == Done(t.right.last)
  }

  ghost predicate Act2<T>(input: seq<T>, t: Final, h: Bodies<T>, c: Option<Call<T>>, t': Final, h': Bodies<T>) {
    || NextFinal(input, t, h, c, t', h')
    || (c.None? && Descend(t, h, t', h'))
    || (c.None? && HandOver(t, h, t', h'))
    || (c.None? && h' == h && BothDone(t, t'))
  }

  /** One step of the second pass. */
  ghost predicate Step2<T>(input: seq<T>, t: Final, h: Bodies<T>, c: Option<Call<T>>, t': Final, h': Bodies<T>)
    decreases t
  {
    || Act2(input, t, h, c, t', h')
    || (t.Both? && t'.Both? && t' == t.(left := t'.left) && Step2(input, t.left, h, c, t'.left, h'))
    || (t.Both? && t'.Both? && t' == t.(right := t'.right) && Step2(input, t.right, h, c, t'.right, h'))
  }

  // ---------------------------------------------------------------- what the tasks of the second pass owe

  ghost function Ids2(t: Final): set<BodyId> {
    match t
    case Pending(nd, b, incoming, last) =>
      ParallelScan.Bodies(Some(nd)) + (if incoming.Some? then {b} else {}) + (if last then {User} else {})
    case Part(_, _, _, b, last) => {b} + if last then {User} else {}
    case Both(_, l, r) => Ids2(l) + Ids2(r)
    case Done(last) => if last then {User} else {}
  }

  /** Element `i` has yet to have its final scan. */
  ghost predicate Owed(t: Final, i: nat) {
    match t
    case Pending(nd, _, incoming, _) => (if incoming.Some? then nd.lo else FinalEnd(nd)) <= i < nd.hi
    case Part(_, next, hi, _, _) => next <= i < hi
    case Both(_, l, r) => Owed(l, i) || Owed(r, i)
    case Done(_) => false
  }

  /** What came into a node is all that is left of it; nothing comes in on the left spine, where
      a first part has been scanned. */
  ghost predicate GoodNode<T>(input: seq<T>, nd: SumNode<BodyId>, body: BodyId, incoming: Option<BodyId>,
                              h: Bodies<T>, last: bool)
    requires nd.lo <= |input| && (incoming.Some? ==> body in h)
  {
    if incoming.Some? then
      && incoming.value == body && body !in ParallelScan.Bodies(Some(nd)) && (last ==> body != User)
      && h[body] == input[..nd.lo]
      && NothingFinal(Some(nd)) && SumsIn(Some(nd), h, input, [])
    else
      FirstPartFinal(Some(nd)) && SumsIn(Some(nd), h, input, input[..nd.lo])
  }

  ghost predicate Good2<T>(input: seq<T>, split: Splitter, t: Final, h: Bodies<T>, lo: nat, hi: nat, last: bool)
    decreases t
  {
    && lo < hi <= |input| && Ids2(t) <= h.Keys
    && match t
      case Pending(nd, body, incoming, la) =>
        && la == last && Shape(Some(nd), split, lo, hi) && Distinct(Some(nd))
        && (last ==> User !in ParallelScan.Bodies(Some(nd)))
        && GoodNode(input, nd, body, incoming, h, last)
      case Part(l, next, r, body, la) =>
        && t == Part(lo, next, hi, body, last) && lo <= next <= hi
        && h[body] == input[..next] && (last ==> body != User)
      case Both(m, l, r) =>
        && lo < m < hi && Ids2(l) !! Ids2(r)
        && Good2(input, split, l, h, lo, m, false) && Good2(input, split, r, h, m, hi, last)
      case Done(la) => la == last && (last ==> h[User] == input[..hi])
  }

  lemma {:induction false} OwnBodies2<T>(input: seq<T>, split: Splitter, t: Final, h: Bodies<T>, h': Bodies<T>,
                                         lo: nat, hi: nat, last: bool)
    requires Good2(input, split, t, h, lo, hi, last)
    requires forall x :: x in Ids2(t) ==> x in h' && h'[x] == h[x]
    ensures Good2(input, split, t, h', lo, hi, last)
    decreases t
  {
    if t.Pending? {
      SumsElsewhere(Some(t.nd), h, h', input, if t.incoming.Some? then [] else input[..t.nd.lo]);
    } else if t.Both? {
      OwnBodies2(input, split, t.left, h, h', lo, t.mid, false);
      OwnBodies2(input, split, t.right, h, h', t.mid, hi, last);
    }
  }

  lemma {:induction false} OwedWithin<T>(input: seq<T>, split: Splitter, t: Final, h: Bodies<T>,
                                         lo: nat, hi: nat, last: bool, i: nat)
    requires Good2(input, split, t, h, lo, hi, last) && Owed(t, i)
    ensures lo <= i < hi
    decreases t
  {
    if t.Pending? {
      if t.incoming.None? {
        SpineEnd(t.nd, split);
      }
    } else if t.Both? {
      if Owed(t.left, i) {
        OwedWithin(input, split, t.left, h, lo, t.mid, false, i);
      } else {
        OwedWithin(input, split, t.right, h, t.mid, hi, last, i);
      }
    }
  }

  // ---------------------------------------------------------------- steps of the second pass

  /** The element of `c` was owed, and no longer is. */
  ghost predicate Pays<T>(t: Final, c: Option<Call<T>>, t': Final) {
    && (forall i: nat :: Owed(t, i) <==> Owed(t', i) || (c.Some? && c.value.index == i))
    && (c.Some? ==> !Owed(t', c.value.index))
  }

  lemma {:induction false} StepKeepsGood2<T>(input: seq<T>, split: Splitter, t: Final, h: Bodies<T>,
                                             c: Option<Call<T>>, t': Final, h': Bodies<T>,
                                             lo: nat, hi: nat, last: bool)
    requires Good2(input, split, t, h, lo, hi, last) && Step2(input, t, h, c, t', h')
    ensures Good2(input, split, t', h', lo, hi, last) && Local(Ids2(t), h, Ids2(t'), h')
    ensures Prefix(input, c) && Pays(t, c, t')
    decreases t
  {
    if Act2(input, t, h, c, t', h') {
      ActKeepsGood2(input, split, t, h, c, t', h', lo, hi, last);
    } else if t' == t.(left := t'.left) && Step2(input, t.left, h, c, t'.left, h') {
      StepKeepsGood2(input, split, t.left, h, c, t'.left, h', lo, t.mid, false);
      OwnBodies2(input, split, t.right, h, h', t.mid, hi, last);
      if c.Some? {
        SidesApart(input, split, t, h, lo, hi, last, c.value.index);
      }
    } else {
      StepKeepsGood2(input, split, t.right, h, c, t'.right, h', t.mid, hi, last);
      OwnBodies2(input, split, t.left, h, h', lo, t.mid, false);
      if c.Some? {
        SidesApart(input, split, t, h, lo, hi, last, c.value.index);
      }
    }
  }

  lemma ActKeepsGood2<T>(input: seq<T>, split: Splitter, t: Final, h: Bodies<T>, c: Option<Call<T>>,
                         t': Final, h': Bodies<T>, lo: nat, hi: nat, last: bool)
    requires Good2(input, split, t, h, lo, hi, last) && Act2(input, t, h, c, t', h')
    ensures Good2(input, split, t', h', lo, hi, last) && Local(Ids2(t), h, Ids2(t'), h')
    ensures Prefix(input, c) && Pays(t, c, t')
  {
    if t.Pending? {
      DescendKeepsGood(input, split, t, h, t', h', lo, hi, last);
    }
  }

  /** No element is owed by both sides. */
  lemma SidesApart<T>(input: seq<T>, split: Splitter, t: Final, h: Bodies<T>, lo: nat, hi: nat, last: bool, i: nat)
    requires t.Both? && lo < t.mid < hi && Good2(input, split, t.left, h, lo, t.mid, false)
    requires Good2(input, split, t.right, h, t.mid, hi, last)
    ensures Owed(t.left, i) ==> !Owed(t.right, i)
  {
    if Owed(t.left, i) && Owed(t.right, i) {
      OwedWithin(input, split, t.left, h, lo, t.mid, false, i);
      OwedWithin(input, split, t.right, h, t.mid, hi, last, i);
    }
  }

  lemma DescendKeepsGood<T>(input: seq<T>, split: Splitter, t: Final, h: Bodies<T>, t': Final, h': Bodies<T>,
                            lo: nat, hi: nat, last: bool)
    requires Good2(input, split, t, h, lo, hi, last) && Descend(t, h, t', h')
    ensures Good2(input, split, t', h', lo, hi, last) && Local(Ids2(t), h, Ids2(t'), h') && Pays<T>(t, None, t')
  {
    LeftChildIsGood(input, split, t, h, t', h', lo, hi, last);
    RightChildIsGood(input, split, t, h, t', h', lo, hi, last);
  }

  /** The left child gets what came in; on the left spine there is none if the part is final. */
  lemma LeftChildIsGood<T>(input: seq<T>, split: Splitter, t: Final, h: Bodies<T>, t': Final, h': Bodies<T>,
                           lo: nat, hi: nat, last: bool)
    requires Good2(input, split, t, h, lo, hi, last) && Descend(t, h, t', h')
    ensures var l := t'.left; var nd := t.nd;
            && lo < nd.mid < hi && Good2(input, split, l, h', lo, nd.mid, false)
            && Ids2(l) == ParallelScan.Bodies(nd.left) + (if t.incoming.Some? then {t.body} else {})
            && (t.incoming.None? ==> lo < FinalEnd(nd) <= nd.mid)
            && forall i: nat :: Owed(l, i) <==> (if t.incoming.Some? then lo else FinalEnd(nd)) <= i < nd.mid
  {
    var nd := t.nd;
    if t.incoming.Some? {
      SumsElsewhere(nd.left, h, h', input, []);
      NewChild(input, split, nd.left, h', lo, nd.mid, t.body, t.incoming, false);
    } else {
      SpineEnd(nd, split);
      if nd.left.Some? {
        NewChild(input, split, nd.left, h', lo, nd.mid, t.body, None, false);
      }
    }
  }

  /** The left sum has become what is left of the right child. */
  lemma RightChildIsGood<T>(input: seq<T>, split: Splitter, t: Final, h: Bodies<T>, t': Final, h': Bodies<T>,
                            lo: nat, hi: nat, last: bool)
    requires Good2(input, split, t, h, lo, hi, last) && Descend(t, h, t', h')
    ensures var r := t'.right; var nd := t.nd;
            && Good2(input, split, r, h', nd.mid, hi, last)
            && Ids2(r) == ParallelScan.Bodies(nd.right) + {nd.leftSum} + (if last then {User} else {})
            && forall i: nat :: Owed(r, i) <==> nd.mid <= i < hi
  {
    var nd := t.nd;
    SumsElsewhere(nd.right, h, h', input, []);
    assert input[..lo] + ([] + input[lo..nd.mid]) == input[..lo] + input[lo..nd.mid] == input[..nd.mid];
    NewChild(input, split, nd.right, h', nd.mid, hi, nd.leftSum, Some(nd.leftSum), last);
  }

  /** A child that was just created. */
  lemma NewChild<T>(input: seq<T>, split: Splitter, n: SumTree, h: Bodies<T>, lo: nat, hi: nat,
                    body: BodyId, incoming: Option<BodyId>, last: bool)
    requires lo < hi <= |input| && Shape(n, split, lo, hi) && Distinct(n) && ParallelScan.Bodies(n) <= h.Keys
    requires last ==> User in h && User !in ParallelScan.Bodies(n)
    requires if incoming.Some? then
               && incoming.value == body && body in h && body !in ParallelScan.Bodies(n) && (last ==> body != User)
               && h[body] == input[..lo] && NothingFinal(n) && SumsIn(n, h, input, [])
             else
               n.Some? && FirstPartFinal(n) && SumsIn(n, h, input, input[..lo])
    ensures var t := Child(n, lo, hi, body, incoming, last);
            && Good2(input, split, t, h, lo, hi, last)
            && Ids2(t) == ParallelScan.Bodies(n) + (if incoming.Some? then {body} else {})
                        + (if last then {User} else {})
            && forall i: nat :: Owed(t, i) <==> (if incoming.Some? then lo else FinalEnd(n.value)) <= i < hi
  {
    if n.Some? {
      assert Some(n.value) == n;
    }
  }

  // ---------------------------------------------------------------- both passes

  datatype Phase = First(scan: Scan) | Second(final: Final)

  /** One step of `run`, which waits for the first pass and then begins the second if there is
      anything left to do. */
  ghost predicate Step<T>(input: seq<T>, split: Splitter,
                          p: Phase, h: Bodies<T>, c: Option<Call<T>>, p': Phase, h': Bodies<T>)
  {
    if p.First? && p.scan.Scanned? then
      && c.None?
      && if p.scan.node.Some? then p' == Second(Pending(p.scan.node.value, Temp, None, true)) && h' == h
         else Temp in h && p' == Second(Done(true)) && h' == h[User := h[Temp]]
    else if p.First? then
      p'.First? && Step1(input, split, false, p.scan, h, c, p'.scan, h')
    else
      p'.Second? && Step2(input, p.final, h, c, p'.final, h')
  }

  ghost predicate Good<T>(input: seq<T>, split: Splitter, p: Phase, h: Bodies<T>) {
    if p.First? then
      && Good1(input, split, Work(0, |input|, Temp, [], true, false), p.scan, h)
      && User in h && User !in Ids1(p.scan)
    else
      Good2(input, split, p.final, h, 0, |input|, true)
  }

  /** Element `i` has had its final scan. */
  ghost predicate Made<T>(input: seq<T>, p: Phase, i: nat) {
    if p.First? then Made1(p.scan, i) else i < |input| && !Owed(p.final, i)
  }

  ghost predicate Adds<T>(input: seq<T>, p: Phase, c: Option<Call<T>>, p': Phase) {
    && (forall i: nat :: Made(input, p', i) <==> Made(input, p, i) || (c.Some? && c.value.index == i))
    && (c.Some? ==> !Made(input, p, c.value.index))
  }

  /** Every step keeps what the tasks owe.  A final scan is only made by a body that holds exactly
      the elements before, and only of an element that has had none. */
  lemma StepKeepsGood<T>(input: seq<T>, split: Splitter,
                         p: Phase, h: Bodies<T>, c: Option<Call<T>>, p': Phase, h': Bodies<T>)
    requires Good(input, split, p, h) && Step(input, split, p, h, c, p', h')
    ensures Good(input, split, p', h') && Prefix(input, c) && Adds(input, p, c, p')
  {
    var w := Work(0, |input|, Temp, [], true, false);
    if p.Second? {
      StepKeepsGood2(input, split, p.final, h, c, p'.final, h', 0, |input|, true);
    } else if !p.scan.Scanned? {
      StepKeepsGood1(input, split, w, p.scan, h, c, p'.scan, h');
    } else if p.scan.node.Some? {
      assert Some(p.scan.node.value) == p.scan.node;
      SpineEnd(p.scan.node.value, split);
    } else {
      assert [] + input[0..|input|] == input[..|input|];
    }
  }

  // ---------------------------------------------------------------- whole runs

  /** A run over a nonempty range; step `k` goes from state `k` to the next and makes `calls[k]`. */
  ghost predicate IsRun<T>(input: seq<T>, split: Splitter, was: seq<T>,
                           phases: seq<Phase>, bodies: seq<Bodies<T>>, calls: seq<Option<Call<T>>>)
  {
    && |input| > 0 && |phases| == |bodies| == |calls| + 1
    && phases[0] == First(Begin(0, |input|, Temp, true)) && bodies[0] == map[User := was, Temp := []]
    && forall k :: 0 <= k < |calls| ==>
        Step(input, split, phases[k], bodies[k], calls[k], phases[k + 1], bodies[k + 1])
  }

  lemma {:induction false} RunIsGood<T>(input: seq<T>, split: Splitter, was: seq<T>, phases: seq<Phase>,
                                        bodies: seq<Bodies<T>>, calls: seq<Option<Call<T>>>, n: nat)
    requires IsRun(input, split, was, phases, bodies, calls) && n <= |calls|
    ensures Good(input, split, phases[n], bodies[n])
    ensures n > 0 ==> Prefix(input, calls[n - 1]) && Adds(input, phases[n - 1], calls[n - 1], phases[n])
  {
    if n > 0 {
      RunIsGood(input, split, was, phases, bodies, calls, n - 1);
      var k := n - 1;
      assert Step(input, split, phases[k], bodies[k], calls[k], phases[k + 1], bodies[k + 1]);
      StepKeepsGood(input, split, phases[k], bodies[k], calls[k], phases[k + 1], bodies[k + 1]);
    }
  }

  predicate Scans<T>(c: Option<Call<T>>, i: nat) {
    c.Some? && c.value.index == i
  }

  /** An element is scanned once up to any moment of a run, or not yet. */
  lemma {:induction false} ScannedOnce<T>(input: seq<T>, split: Splitter, was: seq<T>, phases: seq<Phase>,
                                          bodies: seq<Bodies<T>>, calls: seq<Option<Call<T>>>, n: nat, i: nat)
    requires IsRun(input, split, was, phases, bodies, calls) && n <= |calls|
    ensures !Made(input, phases[n], i) ==> forall k :: 0 <= k < n ==> !Scans(calls[k], i)
    ensures Made(input, phases[n], i) ==>
              exists k :: 0 <= k < n && Scans(calls[k], i) && forall l :: 0 <= l < n && l != k ==> !Scans(calls[l], i)
  {
    if n > 0 {
      ScannedOnce(input, split, was, phases, bodies, calls, n - 1, i);
      RunIsGood(input, split, was, phases, bodies, calls, n);
      if Scans(calls[n - 1], i) {
        assert forall l :: 0 <= l < n && l != n - 1 ==> !Scans(calls[l], i);
      }
    }
  }

  /** At the end of any run the body of the caller holds all of the input, and each element has
      had one final scan, by a body that held exactly the elements before it. */
  lemma ScanIsOrdered<T>(input: seq<T>, split: Splitter, was: seq<T>, phases: seq<Phase>,
                         bodies: seq<Bodies<T>>, calls: seq<Option<Call<T>>>)
    requires IsRun(input, split, was, phases, bodies, calls) && phases[|calls|].Second? && phases[|calls|].final.Done?
    ensures User in bodies[|calls|] && bodies[|calls|][User] == input
    ensures forall i :: 0 <= i < |input| ==>
              exists k :: 0 <= k < |calls| && calls[k] == Some(Call(i, input[..i]))
                          && forall l :: 0 <= l < |calls| && l != k ==> !Scans(calls[l], i)
    ensures forall k :: 0 <= k < |calls| && calls[k].Some? ==> calls[k].value.index < |input|
  {
    var n := |calls|;
    RunIsGood(input, split, was, phases, bodies, calls, n);
    assert input[..|input|] == input;
    forall k | 0 <= k < n && calls[k].Some?
      ensures calls[k].value.index < |input| && calls[k].value.before == input[..calls[k].value.index]
    {
      RunIsGood(input, split, was, phases, bodies, calls, k + 1);
    }
    forall i | 0 <= i < |input|
      ensures exists k :: 0 <= k < n && calls[k] == Some(Call(i, input[..i]))
                          && forall l :: 0 <= l < n && l != k ==> !Scans(calls[l], i)
    {
      ScannedOnce(input, split, was, phases, bodies, calls, n, i);
      assert Made(input, phases[n], i);
      var k :| 0 <= k < n && Scans(calls[k], i) && forall l :: 0 <= l < n && l != k ==> !Scans(calls[l], i);
      assert calls[k] == Some(Call(i, input[..i]));
    }
  }

  // ---------------------------------------------------------------- runs end

  function Len(lo: nat, hi: nat): nat {
    if lo <= hi then hi - lo else 0
  }

  function Work1(n: nat): nat {
    if n == 0 then 2 else 10 * n - 5
  }

  function Measure1(t: Scan): nat {
    match t
    case Begin(lo, hi, _, _) => Work1(Len(lo, hi))
    case RightChild(lo, hi, _, _) => Work1(Len(lo, hi)) + 1
    case Running(_, next, hi, _, _) => Len(next, hi) + 1
    case Scanned(_, _, _, _, _) => 0
    case Divided(_, _, _, _, l, r, _) => Measure1(l) + Measure1(r) + 1
  }

  function NodeWork(n: SumTree, lo: nat, hi: nat): nat {
    match n
    case None => Len(lo, hi) + 1
    case Some(nd) => NodeWork(nd.left, nd.lo, nd.mid) + NodeWork(nd.right, nd.mid, nd.hi) + 2
  }

  function Measure2(t: Final): nat {
    match t
    case Pending(nd, _, _, _) => NodeWork(Some(nd), nd.lo, nd.hi)
    case Part(_, next, hi, _, _) => Len(next, hi) + 1
    case Both(_, l, r) => Measure2(l) + Measure2(r) + 1
    case Done(_) => 0
  }

  /** A later state: in the second pass, or in the same one with less to do. */
  predicate Nearer(p: Phase, p': Phase) {
    match (p, p')
    case (First(t), First(t')) => Measure1(t') < Measure1(t)
    case (First(_), Second(_)) => true
    case (Second(t), Second(t')) => Measure2(t') < Measure2(t)
    case (Second(_), First(_)) => false
  }

  lemma {:induction false} StepDecreases1<T>(input: seq<T>, split: Splitter, wantSum: bool, t: Scan, h: Bodies<T>,
                                             c: Option<Call<T>>, t': Scan, h': Bodies<T>)
    requires Step1(input, split, wantSum, t, h, c, t', h')
    ensures Measure1(t') < Measure1(t)
    decreases t
  {
    if Act1(input, split, wantSum, t, h, c, t', h') {
      ActDecreases1(input, split, wantSum, t, h, c, t', h');
    } else if t' == t.(left := t'.left) && Step1(input, split, true, t.left, h, c, t'.left, h') {
      StepDecreases1(input, split, true, t.left, h, c, t'.left, h');
    } else {
      StepDecreases1(input, split, wantSum, t.right, h, c, t'.right, h');
    }
  }

  lemma ActDecreases1<T>(input: seq<T>, split: Splitter, wantSum: bool, t: Scan, h: Bodies<T>,
                         c: Option<Call<T>>, t': Scan, h': Bodies<T>)
    requires Act1(input, split, wantSum, t, h, c, t', h')
    ensures Measure1(t') < Measure1(t)
  {
    if t.Begin? {
      BeginDecreases(split, wantSum, t, t');
    }
  }

  lemma BeginDecreases(split: Splitter, wantSum: bool, t: Scan, t': Scan)
    requires t.Begin? && (Divide(split, t, t') || t' == Executed(wantSum, t.lo, t.hi, t.body, t.isFinal))
    ensures Measure1(t') < Measure1(t)
  {
  }

  lemma {:induction false} StepDecreases2<T>(input: seq<T>, t: Final, h: Bodies<T>, c: Option<Call<T>>,
                                             t': Final, h': Bodies<T>)
    requires Step2(input, t, h, c, t', h')
    ensures Measure2(t') < Measure2(t)
    decreases t
  {
    if Act2(input, t, h, c, t', h') {
      if t.Pending? {
        ChildWork(t.nd.left, t.nd.lo, t.nd.mid, t.body, t.incoming, false);
        ChildWork(t.nd.right, t.nd.mid, t.nd.hi, t.nd.leftSum, Some(t.nd.leftSum), t.last);
      }
    } else if t' == t.(left := t'.left) && Step2(input, t.left, h, c, t'.left, h') {
      StepDecreases2(input, t.left, h, c, t'.left, h');
    } else {
      StepDecreases2(input, t.right, h, c, t'.right, h');
    }
  }

  lemma ChildWork(n: SumTree, lo: nat, hi: nat, body: BodyId, incoming: Option<BodyId>, last: bool)
    ensures Measure2(Child(n, lo, hi, body, incoming, last)) == NodeWork(n, lo, hi)
  {
    if n.Some? {
      assert n == Some(n.value);
    }
  }

  /** No run goes on forever. */
  lemma StepDecreases<T>(input: seq<T>, split: Splitter,
                         p: Phase, h: Bodies<T>, c: Option<Call<T>>, p': Phase, h': Bodies<T>)
    requires Step(input, split, p, h, c, p', h')
    ensures Nearer(p, p')
  {
    if p.Second? {
      StepDecreases2(input, p.final, h, c, p'.final, h');
    } else if !p.scan.Scanned? {
      StepDecreases1(input, split, false, p.scan, h, c, p'.scan, h');
    }
  }

  /** A call of the body for the next element. */
  function CallNext<T>(input: seq<T>, i: nat, b: BodyId, h: Bodies<T>): Bodies<T>
    requires i < |input| && b in h
  {
    h[b := h[b] + [input[i]]]
  }

  lemma {:induction false} NeverStuck1<T>(input: seq<T>, split: Splitter, w: Work<T>, t: Scan, h: Bodies<T>)
    returns (c: Option<Call<T>>, t': Scan, h': Bodies<T>)
    requires Good1(input, split, w, t, h) && !t.Scanned?
    ensures Step1(input, split, w.wantSum, t, h, c, t', h')
    decreases t
  {
    c, h' := None, h;
    if t.Begin? {
      t' := Executed(w.wantSum, t.lo, t.hi, t.body, t.isFinal);
    } else if t.Running? {
      if t.next < t.hi {
        c := if t.isFinal then Some(Call(t.next, h[t.body])) else None;
        t', h' := t.(next := t.next + 1), CallNext(input, t.next, t.body, h);
        assert NextElement(input, t, h, c, t', h');
      } else {
        t' := Scanned(t.lo, t.hi, t.isFinal, t.body, None);
      }
    } else if t.right.RightChild? {
      var z := FreshId(h.Keys);
      t', h' := t.(right := Begin(t.right.lo, t.right.hi, z, false), zombie := Some(z)), h[z := []];
      assert BeginStolen(t, h, t', h');
    } else if !t.right.Scanned? {
      var right: Scan;
      c, right, h' := NeverStuck1(input, split, RightWork(input, w, t), t.right, h);
      t' := t.(right := right);
    } else if !t.left.Scanned? {
      var left: Scan;
      c, left, h' := NeverStuck1(input, split, LeftWork(w, t.mid), t.left, h);
      t' := t.(left := left);
    } else {
      t' := Scanned(t.lo, t.hi, t.isFinal, t.right.sum, Result(t));
      if t.zombie.Some? && w.wantSum {
        h' := h[t.right.sum := h[t.left.sum] + h[t.right.sum]];
      }
      assert FinishScan(w.wantSum, t, h, t', h');
    }
  }

  lemma {:induction false} NeverStuck2<T>(input: seq<T>, split: Splitter, t: Final, h: Bodies<T>,
                                          lo: nat, hi: nat, last: bool)
    returns (c: Option<Call<T>>, t': Final, h': Bodies<T>)
    requires Good2(input, split, t, h, lo, hi, last) && !t.Done?
    ensures Step2(input, t, h, c, t', h')
    decreases t
  {
    c, h' := None, h;
    if t.Pending? {
      var nd := t.nd;
      t' := Both(nd.mid,
                 if nd.leftIsFinal then Done(false) else Child(nd.left, nd.lo, nd.mid, t.body, t.incoming, false),
                 Child(nd.right, nd.mid, nd.hi, nd.leftSum, Some(nd.leftSum), t.last));
      if t.incoming.Some? {
        h' := h[nd.leftSum := h[t.body] + h[nd.leftSum]];
      }
      assert Descend(t, h, t', h');
    } else if t.Part? {
      if t.next < t.hi {
        c, t', h' := Some(Call(t.next, h[t.body])), t.(next := t.next + 1), CallNext(input, t.next, t.body, h);
        assert NextFinal(input, t, h, c, t', h');
      } else {
        t', h' := Done(t.last), if t.last then h[User := h[t.body]] else h;
        assert HandOver(t, h, t', h');
      }
    } else if !t.left.Done? {
      var left: Final;
      c, left, h' := NeverStuck2(input, split, t.left, h, lo, t.mid, false);
      t' := t.(left := left);
    } else if !t.right.Done? {
      var right: Final;
      c, right, h' := NeverStuck2(input, split, t.right, h, t.mid, hi, last);
      t' := t.(right := right);
    } else {
      t' := Done(t.right.last);
    }
  }

  /** A run can only stop at its end. */
  lemma NeverStuck<T>(input: seq<T>, split: Splitter, p: Phase, h: Bodies<T>)
    returns (c: Option<Call<T>>, p': Phase, h': Bodies<T>)
    requires Good(input, split, p, h) && !(p.Second? && p.final.Done?)
    ensures Step(input, split, p, h, c, p', h')
  {
    if p.Second? {
      var t: Final;
      c, t, h' := NeverStuck2(input, split, p.final, h, 0, |input|, true);
      p' := Second(t);
    } else if !p.scan.Scanned? {
      var w := Work(0, |input|, Temp, [], true, false);
      var t: Scan;
      c, t, h' := NeverStuck1(input, split, w, p.scan, h);
      p' := First(t);
      assert Step1(input, split, w.wantSum, p.scan, h, c, t, h');
    } else if p.scan.node.Some? {
      c, p', h' := None, Second(Pending(p.scan.node.value, Temp, None, true)), h;
      assert Step(input, split, p, h, c, p', h');
    } else {
      c, p', h' := None, Second(Done(true)), h[User := h[Temp]];
      assert Step(input, split, p, h, c, p', h');
    }
  }

  // ---------------------------------------------------------------- runs without theft

  /** No right child has been given a body of its own, and nothing is left for a second pass. */
  predicate OnePass(t: Scan) {
    match t
    case Scanned(_, _, _, _, node) => node.None?
    case Divided(_, _, _, _, l, r, z) => z.None? && OnePass(l) && OnePass(r)
    case _ => true
  }

  /** All calls of the body are final scans. */
  predicate AllFinal(t: Scan) {
    match t
    case Begin(_, _, _, f) => f
    case RightChild(_, _, _, f) => f
    case Running(_, _, _, _, f) => f
    case Scanned(_, _, f, _, _) => f
    case Divided(_, _, _, f, l, r, _) => f && AllFinal(l) && AllFinal(r)
  }

  lemma {:induction false} OnePassIsFinal<T>(input: seq<T>, split: Splitter, w: Work<T>, t: Scan, h: Bodies<T>)
    requires Good1(input, split, w, t, h) && OnePass(t) && w.isFinal
    ensures AllFinal(t)
    decreases t
  {
    if t.Divided? {
      if Continues(t) {
        OnePassIsFinal(input, split, UnstolenWork(input, w, t.mid), t.right, h);
      } else {
        OnePassIsFinal(input, split, LeftWork(w, t.mid), t.left, h);
      }
    }
  }

  lemma {:induction false} OnePassMakesNoBody<T>(input: seq<T>, split: Splitter, wantSum: bool, t: Scan, h: Bodies<T>,
                                                 c: Option<Call<T>>, t': Scan, h': Bodies<T>)
    requires Step1(input, split, wantSum, t, h, c, t', h') && OnePass(t) && OnePass(t')
    ensures h'.Keys == h.Keys
    decreases t
  {
    if !Act1(input, split, wantSum, t, h, c, t', h') {
      if t' == t.(left := t'.left) && Step1(input, split, true, t.left, h, c, t'.left, h') {
        OnePassMakesNoBody(input, split, true, t.left, h, c, t'.left, h');
      } else {
        OnePassMakesNoBody(input, split, wantSum, t.right, h, c, t'.right, h');
      }
    }
  }

  /** If no right child is stolen or treated so, the body that `run` makes is the only one besides the
      caller's, it is called for final scans only, and there is nothing to do in a second pass. */
  lemma {:induction false} OnePassIsEnough<T>(input: seq<T>, split: Splitter, was: seq<T>, phases: seq<Phase>,
                                              bodies: seq<Bodies<T>>, calls: seq<Option<Call<T>>>, n: nat)
    requires IsRun(input, split, was, phases, bodies, calls) && n <= |calls|
    requires forall k :: 0 <= k <= n && phases[k].First? ==> OnePass(phases[k].scan)
    ensures bodies[n].Keys == {User, Temp}
    ensures if phases[n].First? then AllFinal(phases[n].scan) else phases[n].final.Done?
  {
    RunIsGood(input, split, was, phases, bodies, calls, n);
    if n > 0 {
      var k := n - 1;
      OnePassIsEnough(input, split, was, phases, bodies, calls, k);
      RunIsGood(input, split, was, phases, bodies, calls, k);
      assert Step(input, split, phases[k], bodies[k], calls[k], phases[k + 1], bodies[k + 1]);
      if phases[k].First? && !phases[k].scan.Scanned? {
        OnePassMakesNoBody(input, split, false, phases[k].scan, bodies[k], calls[k], phases[n].scan, bodies[n]);
      }
    }
    if phases[n].First? {
      OnePassIsFinal(input, split, Work(0, |input|, Temp, [], true, false), phases[n].scan, bodies[n]);
    }
  }

  /** The first pass can always go on without theft. */
  lemma {:induction false} NextOnePass<T>(input: seq<T>, split: Splitter, w: Work<T>, t: Scan, h: Bodies<T>)
    returns (c: Option<Call<T>>, t': Scan, h': Bodies<T>)
    requires Good1(input, split, w, t, h) && OnePass(t) && !t.Scanned?
    ensures Step1(input, split, w.wantSum, t, h, c, t', h') && OnePass(t')
    decreases t
  {
    if !t.Divided? {
      c, t', h' := NeverStuck1(input, split, w, t, h);
    } else if !t.left.Scanned? {
      var left: Scan;
      c, left, h' := NextOnePass(input, split, LeftWork(w, t.mid), t.left, h);
      t' := t.(left := left);
    } else if t.right.RightChild? {
      c, h' := None, h;
      t' := t.(right := Executed(w.wantSum, t.right.lo, t.right.hi, t.right.body, t.right.isFinal));
      assert BeginUnstolen(w.wantSum, t, t');
    } else if !t.right.Scanned? {
      var right: Scan;
      c, right, h' := NextOnePass(input, split, RightWork(input, w, t), t.right, h);
      t' := t.(right := right);
    } else {
      c, h' := None, h;
      t' := Scanned(t.lo, t.hi, t.isFinal, t.right.sum, Result(t));
      assert FinishScan(w.wantSum, t, h, t', h');
    }
  }
}
