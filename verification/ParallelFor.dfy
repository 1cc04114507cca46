/** `parallel_for`: every index is handed to the body exactly once, however the work is divided. */
module ParallelFor {
  import opened Bits
  import opened RangePool
  import opened Partitioner

  // ---------------------------------------------------------------- what has been covered

  /** How many of the ranges have index `i`. */
  ghost function Times(s: seq<Range>, i: nat): nat {
    if s == [] then 0 else (if s[0].lo <= i < s[0].hi then 1 else 0) + Times(s[1..], i)
  }

  /** The ranges lie within `[lo, hi)`, and each of its indices is in exactly one of them. */
  ghost predicate CoversOnce(s: seq<Range>, lo: nat, hi: nat) {
    && (forall k :: 0 <= k < |s| ==> s[k].Ok() && lo <= s[k].lo && s[k].hi <= hi)
    && (forall i: nat :: Times(s, i) == if lo <= i < hi then 1 else 0)
  }

  lemma {:induction false} TimesJoin(s: seq<Range>, t: seq<Range>, i: nat)
    ensures Times(s + t, i) == Times(s, i) + Times(t, i)
  {
    if s == [] {
      assert s + t == t;
    } else {
      TimesJoin(s[1..], t, i);
      assert (s + t)[1..] == s[1..] + t;
    }
  }

  lemma {:induction false} TilesTimes(s: seq<Range>, lo: nat, hi: nat, i: nat)
    requires Tiles(s, lo, hi)
    ensures Times(s, i) == (if lo <= i < hi then 1 else 0) && lo <= hi
  {
    if s != [] {
      TilesTimes(s[1..], s[0].hi, hi, i);
    }
  }

  lemma {:induction false} TilesInside(s: seq<Range>, lo: nat, hi: nat)
    requires Tiles(s, lo, hi)
    ensures forall k :: 0 <= k < |s| ==> s[k].Ok() && lo <= s[k].lo && s[k].hi <= hi
  {
    if s != [] {
      TilesInside(s[1..], s[0].hi, hi);
      assert forall k :: 1 <= k < |s| ==> s[k] == s[1..][k - 1];
    }
  }

  lemma TilesCover(s: seq<Range>, lo: nat, hi: nat)
    requires Tiles(s, lo, hi)
    ensures CoversOnce(s, lo, hi)
  {
    TilesInside(s, lo, hi);
    forall i: nat
      ensures Times(s, i) == if lo <= i < hi then 1 else 0
    {
      TilesTimes(s, lo, hi, i);
    }
  }

  lemma CoverMore(ran: seq<Range>, more: seq<Range>, lo: nat, x: nat, y: nat)
    requires CoversOnce(ran, lo, x) && CoversOnce(more, x, y) && lo <= x <= y
    ensures CoversOnce(ran + more, lo, y)
  {
    forall i: nat
      ensures Times(ran + more, i) == if lo <= i < y then 1 else 0
    {
      TimesJoin(ran, more, i);
    }
  }

  // ---------------------------------------------------------------- tasks

  lemma {:induction false} LeftToRightAt(spawned: seq<Spawned>, i: nat)
    requires i < |spawned|
    ensures LeftToRight(spawned)[i] == spawned[|spawned| - 1 - i].range
  {
    if i > 0 {
      LeftToRightAt(spawned[..|spawned| - 1], i - 1);
    }
  }

  /** The ranges run so far cover `[lo, x)`, and `todo` tiles the rest. */
  ghost predicate Progress(ran: seq<Range>, todo: seq<Range>, lo: nat, x: nat, hi: nat) {
    CoversOnce(ran, lo, x) && lo <= x && Tiles(todo, x, hi)
  }

  lemma ProgressMade(ran: seq<Range>, todo: seq<Range>, lo: nat, x: nat, hi: nat, more: seq<Range>)
    requires todo != [] && Progress(ran, todo, lo, x, hi) && CoversOnce(more, todo[0].lo, todo[0].hi)
    ensures Progress(ran + more, todo[1..], lo, todo[0].hi, hi)
  {
    CoverMore(ran, more, lo, x, todo[0].hi);
  }

  /** A task and all that are spawned from it under an automatic or an affinity partitioner: every
      chunk is indivisible, or has been halved as often as the partition says. */
  method RunTask(range: Range, p: Partition, log: Log) returns (ghost ran: seq<Range>)
    requires range.Ok() && p.Ready()
    modifies p, log
    ensures log.ran == old(log.ran) + ran
    ensures CoversOnce(ran, range.lo, range.hi) && AllSmall(range, old(p.Save().Halvings()), ran)
    decreases range.hi - range.lo, 1
  {
    var stolen: bool := *;
    p.CheckBeingStolen(stolen);
    ghost var need := p.Save().Halvings();
    var spawned;
    spawned, ran := Execute(range, p, log);
    ghost var x: nat :| Tiles(ran, range.lo, x) && Tiles(LeftToRight(spawned), x, range.hi);
    TilesCover(ran, range.lo, x);
    TilesUp(ran, range.lo, x);
    ran := RunSpawned(range, need, spawned, log, old(log.ran), ran, x);
    StillSmall(range, need, old(p.Save().Halvings()), ran);
  }

  lemma StillSmall(o: Range, more: nat, need: nat, ran: seq<Range>)
    requires AllSmall(o, more, ran) && need <= more
    ensures AllSmall(o, need, ran)
  {
    forall k | 0 <= k < |ran|
      ensures Small(o, need, ran[k])
    {
      assert Small(o, more, ran[k]);
      if ran[k].IsDivisible() {
        PartOfFewer(o, ran[k], need, more);
      }
    }
  }

  /** The tasks spawned from a task on a range. */
  method RunSpawned(ghost range: Range, ghost need: nat, spawned: seq<Spawned>, log: Log,
                    ghost before: seq<Range>, ghost done: seq<Range>, ghost from: nat)
    returns (ghost ran: seq<Range>)
    requires log.ran == before + done && range.lo < from
    requires Progress(done, LeftToRight(spawned), range.lo, from, range.hi)
    requires Fine(range, need, done, spawned)
    modifies log
    ensures log.ran == before + ran && CoversOnce(ran, range.lo, range.hi) && AllSmall(range, need, ran)
    decreases range.hi - range.lo, 0
  {
    ran := done;
    ghost var x, todo := from, LeftToRight(spawned);
    var i := |spawned|;
    while i > 0
      invariant 0 <= i <= |spawned| && todo == LeftToRight(spawned)[|spawned| - i..]
      invariant log.ran == before + ran && range.lo < x && Progress(ran, todo, range.lo, x, range.hi)
      invariant AllSmall(range, need, ran)
    {
      i := i - 1;
      LeftToRightAt(spawned, |spawned| - 1 - i);
      assert todo[0] == spawned[i].range;
      TilesUp(todo[1..], todo[0].hi, range.hi);
      var q := new Partition(spawned[i].partition);
      ghost var more := RunTask(spawned[i].range, q, log);
      ProgressMade(ran, todo, range.lo, x, range.hi, more);
      SmallOfPart(range, need, spawned[i].range, spawned[i].partition.Halvings(), more);
      ran := ran + more;
      x := todo[0].hi;
      todo := todo[1..];
    }
  }

  // ---------------------------------------------------------------- the simple partitioner

  /** Chunks have at most the grain size, and at least half of it if the range was divided. */
  ghost predicate ChunksFit(range: Range, ran: seq<Range>) {
    forall k :: 0 <= k < |ran| ==> !ran[k].IsDivisible() && PartOf(range, ran[k], 0)
  }

  /** Dividing a range until its left part is not divisible; the parts given away, from left to right. */
  method DivideFully(range: Range) returns (rest: Range, spawned: seq<Range>)
    requires range.Ok()
    ensures rest.Ok() && rest.lo == range.lo && !rest.IsDivisible() && ChunksFit(range, [rest])
    ensures Tiles(spawned, rest.hi, range.hi)
    ensures forall k :: 0 <= k < |spawned| ==> SmallerPart(range, spawned[k])
  {
    rest, spawned := range, [];
    while rest.IsDivisible()
      invariant rest.Ok() && rest.lo == range.lo && rest.grain == range.grain
      invariant Tiles(spawned, rest.hi, range.hi)
      invariant PartOf(range, rest, 0)
      invariant forall k :: 0 <= k < |spawned| ==> SmallerPart(range, spawned[k])
      decreases rest.hi - rest.lo
    {
      var right := rest.RightHalf();
      TilesUp(spawned, rest.hi, range.hi);
      assert ([right] + spawned)[1..] == spawned;
      spawned := [right] + spawned;
      rest := rest.LeftHalf();
    }
  }

  /** A task and all that are spawned from it under a `simple_partitioner`, which divides ranges
      as far as they go. */
  method RunSimple(range: Range, log: Log) returns (ghost ran: seq<Range>)
    requires range.Ok()
    modifies log
    ensures log.ran == old(log.ran) + ran
    ensures CoversOnce(ran, range.lo, range.hi) && ChunksFit(range, ran)
    decreases range.hi - range.lo
  {
    var rest, spawned := DivideFully(range);
    log.RunBody(rest);
    ran := [rest];
    TilesOne(rest);
    TilesCover(ran, rest.lo, rest.hi);
    ghost var x := rest.hi;
    assert spawned[0..] == spawned;
    for i := 0 to |spawned|
      invariant log.ran == old(log.ran) + ran && Progress(ran, spawned[i..], range.lo, x, range.hi)
      invariant ChunksFit(range, ran)
    {
      assert SmallerPart(range, spawned[i]);
      ghost var more := RunSimple(spawned[i], log);
      PartsFit(range, spawned[i], more);
      ProgressMade(ran, spawned[i..], range.lo, x, range.hi, more);
      assert spawned[i..][1..] == spawned[i + 1..];
      ran := ran + more;
      x := spawned[i].hi;
    }
  }

  lemma PartsFit(range: Range, q: Range, more: seq<Range>)
    requires PartOf(range, q, 0) && ChunksFit(q, more)
    ensures ChunksFit(range, more)
  {
    forall k | 0 <= k < |more|
      ensures PartOf(range, more[k], 0)
    {
      PartOfPart(range, q, more[k], 0, 0);
    }
  }

  /** A part that was split off: smaller than the range, and no smaller than half the grain size. */
  ghost predicate SmallerPart(range: Range, r: Range) {
    r.Ok() && r.hi - r.lo < range.hi - range.lo && PartOf(range, r, 0)
  }

  datatype Kind = Simple | Auto(divisor: nat) | Affinity(workers: nat)

  /** How often the range is halved before the body is run: 5 is the initial depth of the pool. */
  function Halvings(kind: Kind): nat
    requires !kind.Simple?
  {
    5 + match kind
        case Auto(d) => if d > 0 then Log2(d) else 0
        case Affinity(w) => if w > 0 then Log2(w) else 0
  }

  /** `parallel_for` over a range: each index once, in chunks that have at least half the grain size if
      the range was divided at all.  Chunks have at most the grain size under the simple partitioner;
      under the others they have that or a part of the range that becomes smaller with the number of
      workers. */
  method ForRange(range: Range, kind: Kind, log: Log) returns (ghost ran: seq<Range>)
    requires range.grain >= 1 && (kind.Affinity? ==> kind.workers >= 1)
    modifies log
    ensures log.ran == old(log.ran) + ran
    ensures CoversOnce(ran, range.lo, range.hi)
    ensures forall c :: c in ran ==> c == range || 2 * (c.hi - c.lo) >= range.grain
    ensures forall c :: c in ran ==>
              c.hi - c.lo <= range.grain
              || (!kind.Simple? && (c.hi - c.lo - 1) * Pow2(Halvings(kind)) < range.hi - range.lo)
  {
    ran := [];
    if range.lo < range.hi {
      if kind.Simple? {
        ran := RunSimple(range, log);
        assert forall c :: c in ran ==> !c.IsDivisible() && PartOf(range, c, 0);
      } else {
        var p;
        if kind.Auto? {
          p := new Partition.Auto(kind.divisor);
        } else {
          p := new Partition.Affinity(kind.workers);
        }
        ran := RunTask(range, p, log);
        ChunksBound(range, Halvings(kind), ran);
      }
    }
  }

  lemma ChunksBound(range: Range, need: nat, ran: seq<Range>)
    requires range.lo < range.hi && AllSmall(range, need, ran)
    ensures forall c :: c in ran ==> c == range || 2 * (c.hi - c.lo) >= range.grain
    ensures forall c :: c in ran ==>
              c.hi - c.lo <= range.grain || (c.hi - c.lo - 1) * Pow2(need) < range.hi - range.lo
  {
    forall c | c in ran
      ensures c == range || 2 * (c.hi - c.lo) >= range.grain
      ensures c.hi - c.lo <= range.grain || (c.hi - c.lo - 1) * Pow2(need) < range.hi - range.lo
    {
      var k :| 0 <= k < |ran| && c == ran[k];
      assert Small(range, need, ran[k]);
      if c.IsDivisible() {
        var q := HalvedUp(range.hi - range.lo, need);
        HalvedUpIs(range.hi - range.lo, need);
        TimesMonotone(c.hi - c.lo - 1, q - 1, Pow2(need));
      }
    }
  }

  // ---------------------------------------------------------------- loops with a step

  datatype Result<T> = Ok(value: T) | NonpositiveStep

  lemma StepApart(step: nat, i: int, j: int)
    requires step > 0 && i < j
    ensures i * step < j * step
  {
    assert (j - i) * step >= step by {
      MulGrows(step, j - i);
    }
    assert j * step == i * step + (j - i) * step;
  }

  lemma {:induction false} MulGrows(step: nat, d: nat)
    requires d >= 1
    ensures d * step >= step
  {
    if d > 1 {
      MulGrows(step, d - 1);
      assert d * step == (d - 1) * step + step;
    }
  }

  /** The argument of the call for index `i`. */
  function At(begin: int, step: nat, i: nat): int {
    begin + i * step
  }

  /** `parallel_for_body`: the calls for one range. */
  method RunStepped(r: Range, begin: int, step: nat) returns (calls: seq<int>)
    requires step > 0
    ensures forall i: nat :: multiset(calls)[At(begin, step, i)] == if r.lo <= i < r.hi then 1 else 0
    ensures forall k :: k in calls ==> exists i: nat :: k == At(begin, step, i)
  {
    calls := [];
    var k := At(begin, step, r.lo);
    var i := r.lo;
    while i < r.hi
      invariant r.lo <= i && (i <= r.hi || i == r.lo) && k == At(begin, step, i)
      invariant forall j: nat :: multiset(calls)[At(begin, step, j)] == if r.lo <= j < i then 1 else 0
      invariant forall k :: k in calls ==> exists j: nat :: k == At(begin, step, j)
    {
      forall j: nat
        ensures At(begin, step, j) == k <==> j == i
      {
        if j < i {
          StepApart(step, j, i);
        } else if i < j {
          StepApart(step, i, j);
        }
      }
      calls := calls + [k];
      assert (i + 1) * step == i * step + step;
      i, k := i + 1, k + step;
    }
  }

  /** Calls for ranges that cover `[0, n)` call for each index once. */
  method RunAll(ran: seq<Range>, begin: int, step: nat, ghost n: nat) returns (calls: seq<int>)
    requires step > 0 && CoversOnce(ran, 0, n)
    ensures forall i: nat :: multiset(calls)[At(begin, step, i)] == if i < n then 1 else 0
    ensures forall k :: k in calls ==> exists i: nat :: k == At(begin, step, i)
  {
    calls := [];
    for m := 0 to |ran|
      invariant forall i: nat :: multiset(calls)[At(begin, step, i)] == Times(ran[..m], i)
      invariant forall k :: k in calls ==> exists i: nat :: k == At(begin, step, i)
    {
      var more := RunStepped(ran[m], begin, step);
      assert ran[..m + 1] == ran[..m] + [ran[m]];
      forall i: nat
        ensures Times(ran[..m + 1], i) == Times(ran[..m], i) + if ran[m].lo <= i < ran[m].hi then 1 else 0
      {
        TimesJoin(ran[..m], [ran[m]], i);
      }
      assert [ran[m]][1..] == [];
      calls := calls + more;
    }
    assert ran[..|ran|] == ran;
    assert forall i: nat :: multiset(calls)[At(begin, step, i)] == Times(ran, i);
  }

  /** `parallel_for_impl`: a step that is not positive is an error; otherwise the function is
      called exactly once for each of `first`, `first + step`, ... below `last`. */
  method ForStepped(first: int, last: int, step: int, kind: Kind) returns (r: Result<seq<int>>)
    requires kind.Affinity? ==> kind.workers >= 1
    ensures step <= 0 ==> r == NonpositiveStep
    ensures step > 0 ==> r.Ok?
    ensures step > 0 ==> forall k ::
              multiset(r.value)[k] == if first <= k < last && (k - first) % step == 0 then 1 else 0
  {
    if step <= 0 {
      return NonpositiveStep;
    }
    if last <= first {
      return Ok([]);
    }
    var end := (last - first - 1) / step + 1;
    var log := new Log();
    ghost var ran := ForRange(Range(0, end, 1), kind, log);
    assert log.ran == ran;
    var calls := RunAll(log.ran, first, step, end);
    forall k
      ensures multiset(calls)[k] == if first <= k < last && (k - first) % step == 0 then 1 else 0
    {
      CountCalls(first, last, step, end, calls, k);
    }
    r := Ok(calls);
  }

  lemma CountCalls(first: int, last: int, step: nat, end: nat, calls: seq<int>, k: int)
    requires step > 0 && first < last && end == (last - first - 1) / step + 1
    requires forall i: nat :: multiset(calls)[At(first, step, i)] == if i < end then 1 else 0
    requires forall k :: k in calls ==> exists i: nat :: k == At(first, step, i)
    ensures multiset(calls)[k] == if first <= k < last && (k - first) % step == 0 then 1 else 0
  {
    if k >= first && (k - first) % step == 0 {
      var i: nat := (k - first) / step;
      assert k == At(first, step, i);
      BelowEnd(last - first, step, i);
    } else if k in calls {
      var i: nat :| k == At(first, step, i);
      Multiple(step, i, k - first);
    }
  }

  /** The number of steps below a limit. */
  lemma BelowEnd(n: nat, step: nat, i: nat)
    requires step > 0 && n > 0
    ensures i < (n - 1) / step + 1 <==> i * step < n
  {
    var q := (n - 1) / step;
    assert n - 1 == q * step + (n - 1) % step;
    if i < q {
      StepApart(step, i, q);
    } else if i > q {
      if i > q + 1 {
        StepApart(step, q + 1, i);
      }
      assert (q + 1) * step == q * step + step;
    }
  }

  lemma Multiple(step: nat, i: nat, d: int)
    requires step > 0 && d == i * step
    ensures d >= 0 && d % step == 0
  {
    assert d >= 0 by {
      if i > 0 {
        MulGrows(step, i);
      }
    }
    ModUnique(d, step, i, 0);
  }
}
