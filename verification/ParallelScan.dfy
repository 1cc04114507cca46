/** `parallel_scan`: prefix sums in two passes over a tree of tasks that share body objects.

    A body accumulates the elements it has been given, so its state is a sequence of elements
    and `reverse_join` puts another body's sequence in front; `MonoidFold` relates this to any
    associative operation.  Which ranges are split and which right children are stolen is given
    by a tree that is arbitrary but for fitting the range. */
module ParallelScan {
  import opened Monoids
  import opened Options

  /** `final_sum`: the body that a chain of tasks shares. */
  class FinalSum<T> {
    var value: seq<T>

    /** The splitting constructor: accumulate separately. */
    constructor Split()
      ensures value == []
    {
      value := [];
    }
  }

  /** What the user's body was called with under `final_scan_tag`: for each element, what the
      body had accumulated before it. */
  class Recorder<T> {
    var seen: map<nat, seq<T>>

    constructor ()
      ensures seen == map[]
    {
      seen := map[];
    }
  }

  /** Decisions of the first pass: execute the range, or split it. */
  datatype Tree = Leaf | Fork(stolen: bool, left: Tree, right: Tree)

  /** `sum_node`, left behind by the first pass where a second pass is needed; bodies are objects
      here, and names of objects in `ScanInterleaving`. */
  datatype SumNode<Body> = SumNode(lo: nat, mid: nat, hi: nat, leftSum: Body,
                                   left: Option<SumNode>, right: Option<SumNode>, leftIsFinal: bool)

  type Node<T> = SumNode<FinalSum<T>>

  type Splitter = (nat, nat) -> nat

  predicate Fits(t: Tree, split: Splitter, lo: nat, hi: nat) {
    lo < hi && match t
    case Leaf => true
    case Fork(_, l, r) =>
      var m := split(lo, hi);
      lo < m < hi && Fits(l, split, lo, m) && Fits(r, split, m, hi)
  }

  // ---------------------------------------------------------------- what the first pass leaves behind

  ghost function Bodies<Body>(n: Option<SumNode<Body>>): set<Body> {
    match n
    case None => {}
    case Some(nd) => {nd.leftSum} + Bodies(nd.left) + Bodies(nd.right)
  }

  /** A node only refers to objects that exist. */
  lemma {:induction false} BodiesExist<T>(n: Option<Node<T>>)
    ensures forall b :: b in Bodies(n) ==> allocated(b)
  {
    if n.Some? {
      BodiesExist(n.value.left);
      BodiesExist(n.value.right);
    }
  }

  /** The node covers `[lo, hi)` and was split where its range splits. */
  ghost predicate Shape<Body>(n: Option<SumNode<Body>>, split: Splitter, lo: nat, hi: nat) {
    match n
    case None => true
    case Some(nd) =>
      && nd.lo == lo && nd.hi == hi && nd.mid == split(lo, hi) && lo < nd.mid < hi
      && Shape(nd.left, split, lo, nd.mid) && Shape(nd.right, split, nd.mid, hi)
  }

  /** No two nodes share a body. */
  ghost predicate Distinct<Body>(n: Option<SumNode<Body>>) {
    match n
    case None => true
    case Some(nd) =>
      && nd.leftSum !in Bodies(nd.left) && nd.leftSum !in Bodies(nd.right)
      && Bodies(nd.left) !! Bodies(nd.right)
      && Distinct(nd.left) && Distinct(nd.right)
  }

  /** The left sums hold the elements of the left parts, those of the left spine after `base`. */
  ghost predicate Sums<T>(n: Option<Node<T>>, input: seq<T>, base: seq<T>)
    reads Bodies(n)
  {
    match n
    case None => true
    case Some(nd) =>
      && nd.lo < nd.mid <= |input|
      && nd.leftSum.value == base + input[nd.lo..nd.mid]
      && Sums(nd.left, input, base) && Sums(nd.right, input, [])
  }

  /** Nothing of the node's range has had its final scan. */
  ghost predicate NothingFinal<Body>(n: Option<SumNode<Body>>) {
    match n
    case None => true
    case Some(nd) => !nd.leftIsFinal && NothingFinal(nd.left) && NothingFinal(nd.right)
  }

  /** Exactly a first part of the node's range has had its final scan. */
  ghost predicate FirstPartFinal<Body>(n: Option<SumNode<Body>>) {
    match n
    case None => true
    case Some(nd) =>
      && (if nd.left.None? then nd.leftIsFinal else !nd.leftIsFinal && FirstPartFinal(nd.left))
      && NothingFinal(nd.right)
  }

  /** Where the first part ends. */
  ghost function FinalEnd<Body>(nd: SumNode<Body>): nat {
    match nd.left
    case None => if nd.leftIsFinal then nd.mid else nd.lo
    case Some(l) => FinalEnd(l)
  }

  /** The prefixes that the final scan of `[lo, hi)` must see. */
  ghost function Prefixes<T>(input: seq<T>, lo: nat, hi: nat): map<nat, seq<T>>
    requires hi <= |input|
  {
    map i: nat | lo <= i < hi :: input[..i]
  }

  /** Two adjacent parts of the range, recorded in either order, are one. */
  lemma PrefixesJoin<T>(was: map<nat, seq<T>>, input: seq<T>, lo: nat, mid: nat, hi: nat)
    requires lo <= mid <= hi <= |input|
    ensures was + Prefixes(input, lo, mid) + Prefixes(input, mid, hi) == was + Prefixes(input, lo, hi)
    ensures was + Prefixes(input, mid, hi) + Prefixes(input, lo, mid) == was + Prefixes(input, lo, hi)
  {
  }

  // ---------------------------------------------------------------- calls of the user's body

  /** `body( range, final_scan_tag() )`; no element may be given a final scan twice. */
  method FinalScan<T>(input: seq<T>, body: FinalSum<T>, lo: nat, hi: nat, rec: Recorder<T>)
    requires lo <= hi <= |input|
    requires forall i :: lo <= i < hi ==> i !in rec.seen
    modifies body, rec
    ensures body.value == old(body.value) + input[lo..hi]
    ensures rec.seen == old(rec.seen) + map i: nat | lo <= i < hi :: old(body.value) + input[lo..i]
  {
    for i := lo to hi
      invariant body.value == old(body.value) + input[lo..i]
      invariant rec.seen == old(rec.seen) + map j: nat | lo <= j < i :: old(body.value) + input[lo..j]
    {
      rec.seen := rec.seen[i := body.value];
      body.value := body.value + [input[i]];
    }
  }

  /** `body( range, pre_scan_tag() )` */
  method PreScan<T>(input: seq<T>, body: FinalSum<T>, lo: nat, hi: nat)
    requires lo <= hi <= |input|
    modifies body
    ensures body.value == old(body.value) + input[lo..hi]
  {
    body.value := body.value + input[lo..hi];
  }

  method ReverseJoin<T>(body: FinalSum<T>, left: FinalSum<T>)
    modifies body
    ensures body.value == old(left.value) + old(body.value)
  {
    body.value := left.value + body.value;
  }

  // ---------------------------------------------------------------- first pass

  /** What `start_scan` does with a range it does not split. */
  method ExecuteRange<T>(input: seq<T>, body: FinalSum<T>, isFinal: bool, wantSum: bool, lo: nat, hi: nat,
                         rec: Recorder<T>)
    requires lo <= hi <= |input|
    requires isFinal ==> body.value == input[..lo] && forall i :: lo <= i < hi ==> i !in rec.seen
    modifies body, rec
    ensures isFinal ==> body.value == input[..hi] && rec.seen == old(rec.seen) + Prefixes(input, lo, hi)
    ensures !isFinal ==> rec.seen == old(rec.seen)
    ensures isFinal || wantSum ==> body.value == old(body.value) + input[lo..hi]
  {
    if isFinal {
      FinalScan(input, body, lo, hi, rec);
      assert forall i :: lo <= i <= hi ==> input[..lo] + input[lo..i] == input[..i];
    } else if wantSum {
      PreScan(input, body, lo, hi);
    }
  }

  /** `finish_scan`: both halves of a range that needs a second pass have had their first one. */
  method FinishScan<T>(input: seq<T>, split: Splitter, lo: nat, hi: nat, ghost v: seq<T>,
                       leftSum: FinalSum<T>, left: Option<Node<T>>, isFinal: bool,
                       sum: FinalSum<T>, right: Option<Node<T>>, wantSum: bool)
    returns (node: Option<Node<T>>)
    requires lo < split(lo, hi) < hi <= |input|
    requires Shape(left, split, lo, split(lo, hi)) && Shape(right, split, split(lo, hi), hi)
    requires Distinct(left) && Distinct(right) && Bodies(left) !! Bodies(right)
    requires leftSum !in Bodies(left) && leftSum !in Bodies(right)
    requires leftSum.value == v + input[lo..split(lo, hi)]
    requires Sums(left, input, v) && Sums(right, input, [])
    requires sum !in Bodies(left) && sum !in Bodies(right) && sum != leftSum
    requires wantSum ==> sum.value == input[split(lo, hi)..hi]
    modifies sum
    ensures node == Some(SumNode(lo, split(lo, hi), hi, leftSum, left, right, isFinal && left.None?))
    ensures Shape(node, split, lo, hi) && Distinct(node) && Sums(node, input, v)
    ensures sum !in Bodies(node)
    ensures wantSum ==> sum.value == v + input[lo..hi]
  {
    var m := split(lo, hi);
    node := Some(SumNode(lo, m, hi, leftSum, left, right, isFinal && left.None?));
    if wantSum {
      BodiesExist(left);
      BodiesExist(right);
      assert v + input[lo..m] + input[m..hi] == v + input[lo..hi];
      ReverseJoin(sum, leftSum);
    }
  }

  /** A `start_scan` task that is not a right child, or is one that was just given a new body;
      with all the tasks below it and their `finish_scan` continuations.
      `sum` is what the task stores through `my_sum`, if that is not null (`wantSum`). */
  method Start<T>(input: seq<T>, split: Splitter, body: FinalSum<T>, isFinal: bool, wantSum: bool,
                  lo: nat, hi: nat, t: Tree, rec: Recorder<T>)
    returns (sum: FinalSum<T>, node: Option<Node<T>>)
    requires Fits(t, split, lo, hi) && hi <= |input|
    requires isFinal ==> body.value == input[..lo] && forall i :: lo <= i < hi ==> i !in rec.seen
    modifies body, rec
    ensures node.None? ==> sum == body
    ensures node.None? && (isFinal || wantSum) ==> body.value == old(body.value) + input[lo..hi]
    ensures node.Some? ==> fresh(sum) && sum !in Bodies(node)
    ensures wantSum ==> sum.value == old(body.value) + input[lo..hi]
    ensures forall b :: b in Bodies(node) ==> b == body || fresh(b)
    ensures Shape(node, split, lo, hi) && Distinct(node)
    ensures Sums(node, input, old(body.value))
    ensures if isFinal then FirstPartFinal(node) else NothingFinal(node)
    ensures isFinal && node.Some? ==> lo <= FinalEnd(node.value) <= hi
    ensures rec.seen == if !isFinal then old(rec.seen)
                        else old(rec.seen) + Prefixes(input, lo, if node.None? then hi else FinalEnd(node.value))
    decreases t, 0
  {
    if t.Leaf? {
      ExecuteRange(input, body, isFinal, wantSum, lo, hi, rec);
      sum, node := body, None;
    } else {
      var m := split(lo, hi);
      ghost var v := body.value;
      var leftSum, leftNode := Start(input, split, body, isFinal, true, lo, m, t.left, rec);
      if t.stolen || leftSum != body {
        sum, node := StolenRight(input, split, lo, hi, v, leftSum, leftNode, isFinal, wantSum, t.right, rec);
      } else {
        assert v + input[lo..m] + input[m..hi] == v + input[lo..hi];
        if isFinal {
          PrefixesJoin(old(rec.seen), input, lo, m, hi);
        }
        ExecuteRange(input, body, isFinal, wantSum, m, hi, rec);
        sum, node := body, None;
      }
    }
  }

  /** A right child that is stolen, or treated so because its left sibling was split among
      bodies: it gets a new body, and no final scan. */
  method StolenRight<T>(input: seq<T>, split: Splitter, lo: nat, hi: nat, ghost v: seq<T>,
                        leftSum: FinalSum<T>, left: Option<Node<T>>, isFinal: bool,
                        wantSum: bool, t: Tree, rec: Recorder<T>)
    returns (sum: FinalSum<T>, node: Option<Node<T>>)
    requires lo < split(lo, hi) < hi <= |input| && Fits(t, split, split(lo, hi), hi)
    requires Shape(left, split, lo, split(lo, hi)) && Distinct(left) && leftSum !in Bodies(left)
    requires leftSum.value == v + input[lo..split(lo, hi)] && Sums(left, input, v)
    modifies rec
    ensures node.Some? && node.value.leftSum == leftSum && node.value.left == left
    ensures node.value.leftIsFinal == (isFinal && left.None?) && NothingFinal(node.value.right)
    ensures forall b :: b in Bodies(node.value.right) ==> fresh(b)
    ensures Shape(node, split, lo, hi) && Distinct(node) && Sums(node, input, v)
    ensures fresh(sum) && sum !in Bodies(node)
    ensures wantSum ==> sum.value == v + input[lo..hi]
    ensures rec.seen == old(rec.seen)
    decreases t, 1
  {
    BodiesExist(left);
    var zombie := new FinalSum<T>.Split();
    var right: Option<Node<T>>;
    sum, right := Start(input, split, zombie, false, wantSum, split(lo, hi), hi, t, rec);
    assert Sums(left, input, v);
    node := FinishScan(input, split, lo, hi, v, leftSum, left, isFinal, sum, right, wantSum);
  }

  // ---------------------------------------------------------------- second pass

  /** A final scan of one part of the range; the last one hands its body to the caller. */
  method FinishPart<T>(input: seq<T>, body: FinalSum<T>, lo: nat, hi: nat, stuffLast: FinalSum?<T>, rec: Recorder<T>)
    requires lo <= hi <= |input| && body.value == input[..lo]
    requires forall i :: lo <= i < hi ==> i !in rec.seen
    requires stuffLast != body
    modifies body, rec, stuffLast
    ensures rec.seen == old(rec.seen) + Prefixes(input, lo, hi)
    ensures stuffLast != null ==> stuffLast.value == input[..hi]
  {
    ExecuteRange(input, body, true, true, lo, hi, rec);
    if stuffLast != null {
      stuffLast.value := body.value;
    }
  }

  /** A `sum_node` task inside the range: `body` holds all that is left of the node, and
      is also what came in.  The two children may run in either order. */
  method Finish<T>(input: seq<T>, split: Splitter, nd: Node<T>, body: FinalSum<T>,
                   stuffLast: FinalSum?<T>, rec: Recorder<T>)
    requires Shape(Some(nd), split, nd.lo, nd.hi) && nd.hi <= |input|
    requires Distinct(Some(nd)) && NothingFinal(Some(nd)) && Sums(Some(nd), input, [])
    requires body !in Bodies(Some(nd)) && body.value == input[..nd.lo]
    requires stuffLast != body && stuffLast !in Bodies(Some(nd))
    requires forall i :: nd.lo <= i < nd.hi ==> i !in rec.seen
    modifies body, rec, stuffLast, Bodies(Some(nd))
    ensures rec.seen == old(rec.seen) + Prefixes(input, nd.lo, nd.hi)
    ensures stuffLast != null ==> stuffLast.value == input[..nd.hi]
    decreases nd
  {
    BodiesExist(nd.left);
    BodiesExist(nd.right);
    assert Sums(nd.left, input, []) && Sums(nd.right, input, []);
    ReverseJoin(nd.leftSum, body);
    assert input[..nd.lo] + ([] + input[nd.lo..nd.mid]) == input[..nd.mid];
    PrefixesJoin(rec.seen, input, nd.lo, nd.mid, nd.hi);
    if * {
      FinishRight(input, split, nd, stuffLast, rec);
      FinishLeft(input, split, nd, body, rec);
    } else {
      FinishLeft(input, split, nd, body, rec);
      FinishRight(input, split, nd, stuffLast, rec);
    }
  }

  method FinishLeft<T>(input: seq<T>, split: Splitter, nd: Node<T>, body: FinalSum<T>, rec: Recorder<T>)
    requires Shape(Some(nd), split, nd.lo, nd.hi) && nd.hi <= |input|
    requires Distinct(nd.left) && NothingFinal(nd.left) && Sums(nd.left, input, [])
    requires body !in Bodies(nd.left) && body.value == input[..nd.lo]
    requires forall i :: nd.lo <= i < nd.mid ==> i !in rec.seen
    modifies body, rec, Bodies(nd.left)
    ensures rec.seen == old(rec.seen) + Prefixes(input, nd.lo, nd.mid)
    decreases nd, 0
  {
    match nd.left
    case None => FinishPart(input, body, nd.lo, nd.mid, null, rec);
    case Some(l) => Finish(input, split, l, body, null, rec);
  }

  method FinishRight<T>(input: seq<T>, split: Splitter, nd: Node<T>, stuffLast: FinalSum?<T>, rec: Recorder<T>)
    requires Shape(Some(nd), split, nd.lo, nd.hi) && nd.hi <= |input|
    requires Distinct(nd.right) && NothingFinal(nd.right) && Sums(nd.right, input, [])
    requires nd.leftSum !in Bodies(nd.right) && nd.leftSum.value == input[..nd.mid]
    requires stuffLast != nd.leftSum && stuffLast !in Bodies(nd.right)
    requires forall i :: nd.mid <= i < nd.hi ==> i !in rec.seen
    modifies nd.leftSum, rec, stuffLast, Bodies(nd.right)
    ensures rec.seen == old(rec.seen) + Prefixes(input, nd.mid, nd.hi)
    ensures stuffLast != null ==> stuffLast.value == input[..nd.hi]
    decreases nd, 0
  {
    match nd.right
    case None => FinishPart(input, nd.leftSum, nd.mid, nd.hi, stuffLast, rec);
    case Some(r) => Finish(input, split, r, nd.leftSum, stuffLast, rec);
  }

  /** A `sum_node` task on the left spine: nothing comes in, and a first part of the range is
      done already. */
  method FinishSpine<T>(input: seq<T>, split: Splitter, nd: Node<T>, stuffLast: FinalSum?<T>, rec: Recorder<T>)
    requires Shape(Some(nd), split, nd.lo, nd.hi) && nd.hi <= |input|
    requires Distinct(Some(nd)) && FirstPartFinal(Some(nd)) && Sums(Some(nd), input, input[..nd.lo])
    requires stuffLast !in Bodies(Some(nd))
    requires nd.lo <= FinalEnd(nd) <= nd.hi
    requires forall i :: FinalEnd(nd) <= i < nd.hi ==> i !in rec.seen
    modifies rec, stuffLast, Bodies(Some(nd))
    ensures rec.seen == old(rec.seen) + Prefixes(input, FinalEnd(nd), nd.hi)
    ensures stuffLast != null ==> stuffLast.value == input[..nd.hi]
    decreases nd
  {
    assert input[..nd.lo] + input[nd.lo..nd.mid] == input[..nd.mid];
    assert Sums(nd.left, input, input[..nd.lo]) && Sums(nd.right, input, []);
    SpineEnd(nd, split);
    PrefixesJoin(rec.seen, input, FinalEnd(nd), nd.mid, nd.hi);
    BodiesExist(nd.left);
    BodiesExist(nd.right);
    if nd.left.None? {
      FinishRight(input, split, nd, stuffLast, rec);
    } else if * {
      FinishRight(input, split, nd, stuffLast, rec);
      FinishSpine(input, split, nd.left.value, null, rec);
    } else {
      FinishSpine(input, split, nd.left.value, null, rec);
      FinishRight(input, split, nd, stuffLast, rec);
    }
  }

  lemma {:induction false} SpineEnd<Body>(nd: SumNode<Body>, split: Splitter)
    requires Shape(Some(nd), split, nd.lo, nd.hi) && FirstPartFinal(Some(nd))
    ensures nd.lo < FinalEnd(nd) <= nd.mid
  {
    if nd.left.Some? {
      SpineEnd(nd.left.value, split);
    }
  }

  // ---------------------------------------------------------------- the algorithm

  /** `start_scan::run`: for every splitting of the range and every pattern of stealing, each
      element is passed to a body for its final scan exactly once, with the body holding exactly
      the elements before it, and the user's body ends with all of them. */
  method Run<T>(input: seq<T>, split: Splitter, body: FinalSum<T>, t: Tree, rec: Recorder<T>)
    requires |input| > 0 ==> Fits(t, split, 0, |input|)
    requires rec.seen == map[]
    modifies body, rec
    ensures rec.seen == Prefixes(input, 0, |input|)
    ensures body.value == if input == [] then old(body.value) else input
  {
    if |input| > 0 {
      var temp := new FinalSum<T>.Split();
      var sum, root := Start(input, split, temp, true, false, 0, |input|, t, rec);
      assert input[0..|input|] == input[..|input|] == input;
      if root.Some? {
        assert input[..0] == [];
        FinishSpine(input, split, root.value, body, rec);
        PrefixesJoin(map[], input, 0, FinalEnd(root.value), |input|);
      } else {
        body.value := temp.value;
      }
    }
  }

  // ---------------------------------------------------------------- bodies that keep a combined value

  /** What a body holds that combines the elements with `op` as they come. */
  function Combined<S>(op: (S, S) -> S, unit: S, s: seq<S>): S {
    if s == [] then unit else op(Combined(op, unit, s[..|s| - 1]), s[|s| - 1])
  }

  /** Joining two such bodies combines all their elements in order, so that a body may keep the
      combined value where this model keeps the elements. */
  lemma {:induction false} MonoidFold<S(!new)>(op: (S, S) -> S, unit: S, a: seq<S>, b: seq<S>)
    requires Associative(op, unit)
    ensures Combined(op, unit, a + b) == op(Combined(op, unit, a), Combined(op, unit, b))
  {
    if b == [] {
      assert a + b == a;
    } else {
      var init, x := b[..|b| - 1], b[|b| - 1];
      assert a + b == (a + init) + [x];
      MonoidFold(op, unit, a, init);
      assert op(op(Combined(op, unit, a), Combined(op, unit, init)), x)
          == op(Combined(op, unit, a), op(Combined(op, unit, init), x));
    }
  }
}
