/** Division of work by the partitioners, and `parallel_for` with a step.

    Whether a task was stolen, and whether its peer was, is arbitrary wherever a partitioner asks. */
module Partitioner {
  import opened Bits
  import opened RangePool
  import opened AffinityMap

  function Shallow(depth: nat): nat {
    if depth < 7 then depth else 7
  }

  function HalvingsOf(divisor: nat, maxDepth: nat): nat {
    (if divisor > 0 then Log2(divisor) else 0) + Shallow(maxDepth)
  }

  /** Half of the divisor, rounded either way, is one power of two less. */
  lemma LogOfHalves(d: nat)
    requires d >= 2
    ensures Log2(d / 2) + 1 == Log2(d) <= Log2(d - d / 2) + 1
  {
    Log2Unique(d / 2, Log2(d) - 1);
    if Log2(d - d / 2) + 1 < Log2(d) {
      Pow2Monotone(Log2(d - d / 2) + 1, Log2(d) - 1);
    }
  }

  /** A division takes one of the halvings off, or none if it took one off the depth before. */
  lemma HalvingsAfterSplit(d: nat, m: nat, half: nat, m': nat)
    requires (half == d / 2 || half == d - d / 2) && m <= m'
    ensures HalvingsOf(d, m) <= HalvingsOf(half, m') + if d > 1 then 1 else 0
  {
    if d > 1 {
      LogOfHalves(d);
    } else if d == 1 {
      Log2Unique(1, 0);
    }
  }

  /** The fields of a partition: what a task has before it runs. */
  datatype Fields = Fields(affinity: bool, divisor: nat, maxDepth: nat, delay: bool, mapBegin: nat, mapMid: nat,
                           mapEnd: nat) {

    /** How often the work is halved before the body is run, unless it is not divisible before; the
        pool holds eight ranges, so it does not go below depth 7 for certain. */
    function Halvings(): nat {
      HalvingsOf(divisor, maxDepth)
    }

    /** Whether the task will give away work, if it is asked for some or if its map says so. */
    predicate Wants(peerStolen: bool) {
      if affinity && delay then false
      else (affinity && mapMid < mapEnd) || peerStolen
    }

    /** For an affinity partition: there are 16 cells of the map for each worker that is left to
        divide for; and later, enough depth to halve the map to one cell. */
    ghost predicate Ready() {
      affinity ==>
        && mapBegin <= mapEnd && mapMid == Mid(mapBegin, mapEnd)
        && if delay then divisor >= 1 && mapEnd - mapBegin == Factor * divisor && maxDepth >= 5
           else divisor <= 1 && mapEnd - mapBegin <= Factor
                && (mapEnd - mapBegin <= 1 || mapEnd - mapBegin <= Pow2(maxDepth))
    }
  }

  /** `auto_partition_type`, or `affinity_partition_type` if `affinity` is set; the last four
      fields are those of the latter. */
  class Partition {
    const affinity: bool
    var divisor: nat
    var maxDepth: nat
    var delay: bool
    var mapBegin: nat
    var mapMid: nat
    var mapEnd: nat

    function Save(): Fields
      reads this
    {
      Fields(affinity, divisor, maxDepth, delay, mapBegin, mapMid, mapEnd)
    }

    ghost predicate Ready()
      reads this
    {
      Save().Ready()
    }

    /** The partition of a task that begins. */
    constructor (f: Fields)
      ensures Save() == f
    {
      affinity, divisor, maxDepth, delay := f.affinity, f.divisor, f.maxDepth, f.delay;
      mapBegin, mapMid, mapEnd := f.mapBegin, f.mapMid, f.mapEnd;
    }

    constructor Auto(divisor: nat)
      ensures !affinity && this.divisor == divisor && maxDepth == 5 && Ready()
    {
      affinity, this.divisor, maxDepth := false, divisor, 5;
      delay, mapBegin, mapMid, mapEnd := false, 0, 0, 0;
    }

    /** For `workers` workers, with the array that `resize` gives them. */
    constructor Affinity(workers: nat)
      requires workers >= 1
      ensures affinity && divisor == workers && maxDepth == 5 && Ready()
    {
      affinity, divisor, maxDepth := true, workers, 5;
      delay, mapBegin, mapMid, mapEnd := true, 0, Mid(0, Factor * workers), Factor * workers;
    }

    constructor Copy(src: Partition, divisor: nat, mapBegin: nat, mapEnd: nat)
      requires mapBegin <= mapEnd
      ensures affinity == src.affinity && this.divisor == divisor && maxDepth == src.maxDepth && delay == src.delay
      ensures this.mapBegin == mapBegin && this.mapEnd == mapEnd && mapMid == Mid(mapBegin, mapEnd)
    {
      affinity, this.divisor, maxDepth, delay := src.affinity, divisor, src.maxDepth, src.delay;
      this.mapBegin, this.mapEnd, mapMid := mapBegin, mapEnd, Mid(mapBegin, mapEnd);
    }

    /** The splitting constructor, as a method of the partition `src` that is split. */
    method Split() returns (p: Partition)
      requires affinity ==> mapBegin <= mapEnd && mapMid == Mid(mapBegin, mapEnd)
      modifies this
      ensures fresh(p) && p.affinity == affinity && p.maxDepth == old(maxDepth)
      ensures maxDepth == old(maxDepth) + if old(divisor) == 3 then 1 else 0
      ensures divisor + p.divisor == old(divisor) && p.divisor <= divisor <= p.divisor + 1
      ensures delay == old(delay) == p.delay
      ensures affinity ==>
        && p.mapBegin == mapEnd == old(mapMid) && p.mapEnd == old(mapEnd) && mapBegin == old(mapBegin)
        && mapMid == Mid(mapBegin, mapEnd) && p.mapMid == Mid(p.mapBegin, p.mapEnd)
    {
      if affinity {
        p := new Partition.Copy(this, divisor / 2, mapMid, mapEnd);
        mapEnd := mapMid;
        mapMid := Mid(mapBegin, mapEnd);
      } else {
        p := new Partition.Copy(this, divisor / 2, 0, 0);
      }
      divisor := divisor - p.divisor;
      if p.divisor > 0 {
        RatioIs(divisor, p.divisor);
        LogOfSmall();
        maxDepth := maxDepth + Log2(divisor / p.divisor);
      }
    }

    static lemma LogOfSmall()
      ensures Log2(1) == 0 && Log2(2) == 1
    {
      assert Pow2(1) == 2 && Pow2(2) == 4;
      Log2Unique(1, 0);
      Log2Unique(2, 1);
    }

    /** The quotient of the two halves of a divisor is 1, but for 2 and 1. */
    static lemma RatioIs(a: nat, b: nat)
      requires 0 < b <= a <= b + 1
      ensures a / b == if a == 2 && b == 1 then 2 else 1
    {
      if a == b {
        ModUnique(a, b, 1, 0);
      } else if b == 1 {
        ModUnique(a, b, 2, 0);
      } else {
        ModUnique(a, b, 1, 1);
      }
    }

    method CheckBeingStolen(stolen: bool)
      requires Ready()
      modifies this`divisor, this`maxDepth
      ensures Ready() && divisor == if old(divisor) == 0 then 1 else old(divisor)
      ensures maxDepth == old(maxDepth) + if old(divisor) == 0 && stolen then 1 else 0
    {
      if divisor == 0 {
        divisor := 1;
        if stolen {
          maxDepth := maxDepth + 1;
          assert Pow2(maxDepth) == 2 * Pow2(maxDepth - 1);
        }
      }
    }

    method DivisionsLeft() returns (left: bool)
      requires Ready()
      modifies this`divisor, this`maxDepth
      ensures Ready() && delay == old(delay)
      ensures divisor == (if !affinity && old(divisor) == 1 && left then 0 else old(divisor))
      ensures maxDepth == old(maxDepth) - (if !affinity && old(divisor) == 1 && left then 1 else 0)
      ensures affinity ==> divisor == old(divisor) && maxDepth == old(maxDepth) && left == (divisor > 1)
      ensures !affinity ==> left == (old(divisor) > 1 || (old(divisor) == 1 && old(maxDepth) > 1))
    {
      if divisor > 1 {
        return true;
      }
      if !affinity && divisor != 0 && maxDepth > 1 {
        maxDepth := maxDepth - 1;
        divisor := 0;
        return true;
      }
      return false;
    }

    method CheckForDemand(peerStolen: bool) returns (demand: bool)
      modifies this`delay, this`maxDepth
      ensures demand == old(Save().Wants(peerStolen))
      ensures delay == (old(delay) && !affinity)
      ensures affinity && old(delay) ==> !demand && maxDepth == old(maxDepth)
      ensures affinity && !old(delay) && mapMid < mapEnd ==> demand && maxDepth == old(maxDepth)
      ensures !(affinity && (old(delay) || mapMid < mapEnd)) ==>
        demand == peerStolen && maxDepth == old(maxDepth) + if peerStolen then 1 else 0
    {
      if affinity {
        if delay {
          delay := false;
          return false;
        }
        if mapMid < mapEnd {
          return true;
        }
      }
      if peerStolen {
        maxDepth := maxDepth + 1;
      }
      demand := peerStolen;
    }

    method AlignDepth(base: nat)
      requires base <= maxDepth
      modifies this`maxDepth
      ensures maxDepth == old(maxDepth) - base
    {
      maxDepth := maxDepth - base;
    }
  }

  /** The ranges that bodies were run on, in the order of the runs. */
  class Log {
    var ran: seq<Range>

    constructor ()
      ensures ran == []
    {
      ran := [];
    }

    method RunBody(r: Range)
      modifies this
      ensures ran == old(ran) + [r]
    {
      ran := ran + [r];
    }
  }

  /** A task that was spawned, with its part of the work. */
  datatype Spawned = Spawned(range: Range, partition: Fields)

  /** The ranges of spawned tasks from left to right: each was split off left of the one before. */
  ghost function LeftToRight(spawned: seq<Spawned>): (s: seq<Range>)
    ensures |s| == |spawned|
  {
    if spawned == [] then [] else [spawned[|spawned| - 1].range] + LeftToRight(spawned[..|spawned| - 1])
  }

  lemma LeftToRightAdd(spawned: seq<Spawned>, x: Spawned)
    ensures LeftToRight(spawned + [x]) == [x.range] + LeftToRight(spawned)
  {
    assert (spawned + [x])[..|spawned|] == spawned;
  }

  lemma {:induction false} LeftToRightJoin(a: seq<Spawned>, b: seq<Spawned>)
    ensures LeftToRight(a + b) == LeftToRight(b) + LeftToRight(a)
  {
    if b == [] {
      assert a + b == a;
    } else {
      var rest, x := b[..|b| - 1], b[|b| - 1];
      assert b == rest + [x] && a + b == (a + rest) + [x];
      LeftToRightAdd(a + rest, x);
      LeftToRightAdd(rest, x);
      LeftToRightJoin(a, rest);
      assert [x.range] + (LeftToRight(rest) + LeftToRight(a)) == [x.range] + LeftToRight(rest) + LeftToRight(a);
    }
  }

  /** Work is divided: `ran` from `lo` on in order, `kept` next, and the spawned tasks the rest. */
  ghost predicate Divided(ran: seq<Range>, kept: seq<Range>, spawned: seq<Spawned>, lo: nat, a: nat, e: nat, hi: nat) {
    Tiles(ran, lo, a) && Tiles(kept, a, e) && Tiles(LeftToRight(spawned), e, hi)
  }

  /** Giving the rightmost kept range to a new task. */
  lemma GiveAway(ran: seq<Range>, kept: seq<Range>, spawned: seq<Spawned>, x: Spawned, lo: nat, a: nat, e: nat, hi: nat)
    requires Divided(ran, kept, spawned, lo, a, e, hi) && kept != [] && x.range == kept[|kept| - 1]
    ensures Divided(ran, kept[..|kept| - 1], spawned + [x], lo, a, x.range.lo, hi)
  {
    TilesButLast(kept, a, e);
    TilesOne(x.range);
    LeftToRightAdd(spawned, x);
    TilesJoin([x.range], LeftToRight(spawned), x.range.lo, e, hi);
  }

  /** Running the leftmost kept range. */
  lemma RunLeft(ran: seq<Range>, kept: seq<Range>, spawned: seq<Spawned>, lo: nat, a: nat, e: nat, hi: nat)
    requires Divided(ran, kept, spawned, lo, a, e, hi) && kept != []
    ensures Divided(ran + [kept[0]], kept[1..], spawned, lo, kept[0].hi, e, hi)
  {
    TilesOne(kept[0]);
    TilesJoin(ran, [kept[0]], lo, a, kept[0].hi);
  }

  /** What a task is left with, or gives away: a part of its range, halved as often as need be for the
      halvings that are still to come. */
  ghost predicate Due(o: Range, need: nat, r: Range, coming: nat) {
    PartOf(o, r, if need > coming then need - coming else 0)
  }

  ghost predicate AllDue(o: Range, need: nat, spawned: seq<Spawned>) {
    forall k :: 0 <= k < |spawned| ==> Due(o, need, spawned[k].range, spawned[k].partition.Halvings())
  }

  /** A chunk is not divisible, or it has been halved as often as need be. */
  ghost predicate Small(o: Range, need: nat, r: Range) {
    PartOf(o, r, 0) && (r.IsDivisible() ==> PartOf(o, r, need))
  }

  ghost predicate AllSmall(o: Range, need: nat, ran: seq<Range>) {
    forall k :: 0 <= k < |ran| ==> Small(o, need, ran[k])
  }

  ghost predicate AllReady(spawned: seq<Spawned>) {
    forall k :: 0 <= k < |spawned| ==> spawned[k].partition.Ready()
  }

  /** What a task has run and what it has given away is as small as it is to be. */
  ghost predicate Fine(o: Range, need: nat, ran: seq<Range>, spawned: seq<Spawned>) {
    AllSmall(o, need, ran) && AllDue(o, need, spawned) && AllReady(spawned)
  }

  lemma FineMore(o: Range, need: nat, ran: seq<Range>, spawned: seq<Spawned>, ran': seq<Range>, spawned': seq<Spawned>)
    requires Fine(o, need, ran, spawned)
    requires ran' == ran || (|ran'| == |ran| + 1 && ran'[..|ran|] == ran && Small(o, need, ran'[|ran|]))
    requires spawned' == spawned
             || (Added(spawned, spawned')
                 && var x := spawned'[|spawned|]; Due(o, need, x.range, x.partition.Halvings()))
    ensures Fine(o, need, ran', spawned')
  {
    forall k | 0 <= k < |spawned'|
      ensures Due(o, need, spawned'[k].range, spawned'[k].partition.Halvings()) && spawned'[k].partition.Ready()
    {
      assert k < |spawned| ==> spawned'[k] == spawned[k];
    }
    forall k | 0 <= k < |ran'|
      ensures Small(o, need, ran'[k])
    {
      assert k < |ran| ==> ran'[k] == ran[k];
    }
  }

  /** A chunk of a part that was given away is a chunk of the whole. */
  lemma SmallOfPart(o: Range, need: nat, q: Range, coming: nat, more: seq<Range>)
    requires Due(o, need, q, coming) && AllSmall(q, coming, more)
    ensures AllSmall(o, need, more)
  {
    var h := if need > coming then need - coming else 0;
    forall k | 0 <= k < |more|
      ensures Small(o, need, more[k])
    {
      PartOfPart(o, q, more[k], h, 0);
      PartOfFewer(o, more[k], 0, h);
      if more[k].IsDivisible() {
        PartOfPart(o, q, more[k], h, coming);
        PartOfFewer(o, more[k], need, h + coming);
      }
    }
  }

  lemma HalvedOnce(o: Range, need: nat, r: Range, coming: nat, coming': nat)
    requires Due(o, need, r, coming) && r.IsDivisible() && coming <= coming' + 1
    ensures Due(o, need, r.LeftHalf(), coming') && Due(o, need, r.RightHalf(), coming')
  {
    var h := if need > coming then need - coming else 0;
    var h' := if need > coming' then need - coming' else 0;
    HalvesAreParts(o, r, h);
    PartOfFewer(o, r.LeftHalf(), h', h + 1);
    PartOfFewer(o, r.RightHalf(), h', h + 1);
  }

  /** Halving the only kept range, and giving away its right half. */
  lemma HalfGivenAway(range: Range, spawned: seq<Spawned>, x: Spawned, lo: nat, hi: nat)
    requires Divided([], [range], spawned, lo, lo, range.hi, hi) && range.IsDivisible()
    requires x.range == range.RightHalf()
    ensures Divided([], [range.LeftHalf()], spawned + [x], lo, lo, range.LeftHalf().hi, hi)
  {
    var left, right := range.LeftHalf(), range.RightHalf();
    assert [left, right][1..] == [right] && [right][1..] == [];
    assert Tiles([left, right], lo, range.hi);
    GiveAway([], [left, right], spawned, x, lo, lo, range.hi, hi);
    assert [left, right][..1] == [left];
  }

  /** The partition is divided between the two halves of a range. */
  method SplitPartition(p: Partition) returns (given: Fields)
    requires p.Ready() && (p.affinity ==> p.delay && p.divisor > 1)
    modifies p
    ensures p.Ready() && given.Ready() && p.delay == old(p.delay)
    ensures p.divisor == old(p.divisor) - old(p.divisor) / 2 && given.divisor == old(p.divisor) / 2
    ensures p.maxDepth >= old(p.maxDepth) == given.maxDepth
  {
    if p.affinity {
      SplitPerWorker(Map(p.mapBegin, p.mapEnd), p.divisor);
    }
    var q := p.Split();
    given := q.Save();
  }

  method SplitWork(range: Range, p: Partition, spawned: seq<Spawned>, ghost lo: nat, ghost hi: nat,
                   ghost o: Range, ghost need: nat, ghost coming: nat)
    returns (left: Range, spawned': seq<Spawned>)
    requires Divided([], [range], spawned, lo, lo, range.hi, hi) && range.IsDivisible()
    requires p.Ready() && (p.affinity ==> p.delay && p.divisor > 1)
    requires Due(o, need, range, coming) && AllDue(o, need, spawned)
    requires coming <= p.Save().Halvings() + if p.divisor > 1 then 0 else 1
    modifies p
    ensures p.Ready() && p.delay == old(p.delay) && p.divisor == old(p.divisor) - old(p.divisor) / 2
    ensures Due(o, need, left, p.Save().Halvings()) && AllDue(o, need, spawned')
    ensures left == range.LeftHalf() && left.Ok()
    ensures Divided([], [left], spawned', lo, lo, left.hi, hi) && Added(spawned, spawned')
  {
    left := range.LeftHalf();
    var given := SplitPartition(p);
    HalvingsAfterSplit(old(p.divisor), old(p.maxDepth), p.divisor, p.maxDepth);
    HalvingsAfterSplit(old(p.divisor), old(p.maxDepth), given.divisor, given.maxDepth);
    HalvedOnce(o, need, range, coming, p.Save().Halvings());
    HalvedOnce(o, need, range, coming, given.Halvings());
    HalfGivenAway(range, spawned, Spawned(range.RightHalf(), given), lo, hi);
    spawned' := spawned + [Spawned(range.RightHalf(), given)];
  }

  /** An affinity partition halves its map with each range that it gives away; it will not be
      asked to when it cannot. */
  ghost predicate EnoughTurns(p: Fields, c: seq<Piece>)
    requires c != [] && Depths(c, p.maxDepth)
  {
    p.affinity ==>
      && p.mapBegin <= p.mapEnd <= p.mapBegin + Factor && p.mapMid == Mid(p.mapBegin, p.mapEnd) && p.divisor <= 1
      && (p.mapEnd - p.mapBegin <= 1
          || (p.delay && p.divisor == 1 && Turns(c, p.maxDepth) >= 5)
          || (!p.delay && p.mapEnd - p.mapBegin <= Pow2(Turns(c, p.maxDepth))))
  }

  /** What a task was given, how often it is to be halved, and how often it had been when the pool was
      made. */
  datatype Share = Share(range: Range, need: nat, base: nat)

  /** The pieces are parts of what the task was given, and the depth left will do. */
  ghost predicate Shared(g: Share, maxDepth: nat, c: seq<Piece>) {
    g.need <= g.base + Shallow(maxDepth) && Pieces(g.range, g.base, c)
  }

  /** The work of a task: the pool between what has been run and what has been given away. */
  ghost predicate Pooling(c: seq<Piece>, p: Fields, ran: seq<Range>, spawned: seq<Spawned>,
                          lo: nat, a: nat, e: nat, hi: nat, g: Share)
  {
    && Depths(c, p.maxDepth) && Shared(g, p.maxDepth, c)
    && (c != [] ==> EnoughTurns(p, c))
    && Divided(ran, Ranges(c), spawned, lo, a, e, hi) && a <= e
  }

  ghost predicate Pooled(pool: RangeVector, p: Partition, ran: seq<Range>, spawned: seq<Spawned>,
                         lo: nat, a: nat, e: nat, hi: nat, g: Share)
    reads pool, pool.pool, pool.depth, p
  {
    pool.Valid() && Pooling(pool.contents, p.Save(), ran, spawned, lo, a, e, hi, g)
  }

  /** Between the turns of the pool loop. */
  ghost predicate InPool(pool: RangeVector, p: Partition, ran: seq<Range>, spawned: seq<Spawned>,
                         lo: nat, a: nat, e: nat, hi: nat, g: Share)
    reads pool, pool.pool, pool.depth, p
  {
    && Pooled(pool, p, ran, spawned, lo, a, e, hi, g) && Fine(g.range, g.need, ran, spawned)
    && pool.pool.Length == 8 && (pool.size == 0 ==> ran != [])
  }

  /** One range that can be divided, and depth left to do so. */
  ghost predicate MayGrow(pool: RangeVector, p: Partition)
    requires pool.Valid()
    reads pool, pool.pool, pool.depth, p
  {
    pool.size == 1 && pool.contents[0].depth < p.maxDepth && pool.contents[0].range.IsDivisible()
  }

  // ---------------------------------------------------------------- halving the map

  lemma HalfTheMap(begin: nat, end: nat, turns: nat)
    requires 2 <= end - begin <= Factor && end - begin <= Pow2(turns)
    ensures turns > 0
    ensures Mid(begin, end) - begin <= Pow2(turns - 1) && end - Mid(begin, end) <= Pow2(turns - 1)
  {
    assert Pow2(turns) == if turns == 0 then 1 else 2 * Pow2(turns - 1);
  }

  /** What `check_for_demand` asserts when it asks for work because of the map. */
  lemma DepthExceedsMap(p: Fields, c: seq<Piece>)
    requires c != [] && Depths(c, p.maxDepth) && EnoughTurns(p, c)
    requires p.affinity && !p.delay && p.mapMid < p.mapEnd
    ensures p.maxDepth > Log2(p.mapEnd - p.mapMid)
  {
    var turns := Turns(c, p.maxDepth);
    HalfTheMap(p.mapBegin, p.mapEnd, turns);
    if |c| > 1 {
      DepthsApart(c, p.maxDepth, |c| - 1);
    }
    var log := Log2(p.mapEnd - p.mapMid);
    if log >= turns {
      Pow2StrictlyMonotone(turns - 1, log);
    }
  }

  /** The task that is given the front has depth enough for its half of the map. */
  lemma FrontHasTurns(c: seq<Piece>, max: nat, length: nat)
    requires |c| > 1 && Depths(c, max) && Turns(c, max) > 0 && length <= Pow2(Turns(c, max) - 1)
    ensures length <= Pow2(max - c[|c| - 1].depth)
  {
    DepthsApart(c, max, |c| - 1);
    Pow2Monotone(Turns(c, max) - 1, max - c[|c| - 1].depth);
  }

  lemma FrontGone(c: seq<Piece>, max: nat)
    requires |c| > 1 && Depths(c, max)
    ensures Depths(c[..|c| - 1], max) && Turns(c[..|c| - 1], max) == Turns(c, max) - 1
  {
    var c' := c[..|c| - 1];
    assert |c| > 2 ==> Rises(c, |c| - 2);
    forall k | 1 <= k < |c'| - 1
      ensures Rises(c', k)
    {
      assert Rises(c, k);
    }
  }

  lemma BackGone(c: seq<Piece>, max: nat)
    requires |c| > 1 && Depths(c, max)
    ensures Depths(c[1..], max) && Turns(c[1..], max) >= Turns(c, max) - 1
  {
    var c' := c[1..];
    assert |c'| >= 2 ==> Rises(c, 1);
    forall k | 1 <= k < |c'| - 1
      ensures Rises(c', k)
    {
      assert Rises(c, k + 1);
    }
  }

  // ---------------------------------------------------------------- turns of the pool loop

  /** After filling the pool its back is as small as it is to be: a full pool has a depth of 7. */
  lemma BackIsSmall(c: seq<Piece>, max: nat, g: Share)
    requires c != [] && Depths(c, max) && Shared(g, max, c)
    requires |c| == 8 || c[0].depth == max || !c[0].range.IsDivisible()
    ensures Small(g.range, g.need, c[0].range)
  {
    var h := g.base + c[0].depth;
    PartOfFewer(g.range, c[0].range, 0, h);
    if c[0].range.IsDivisible() {
      if |c| == 8 {
        DepthsApart(c, max, 7);
      }
      PartOfFewer(g.range, c[0].range, g.need, h);
    }
  }

  /** `split_to_fill` in the middle of the work. */
  method Fill(pool: RangeVector, p: Partition, ghost ran: seq<Range>, ghost spawned: seq<Spawned>,
              ghost lo: nat, ghost a: nat, ghost e: nat, ghost hi: nat, ghost g: Share)
    requires Pooled(pool, p, ran, spawned, lo, a, e, hi, g) && pool.size > 0 && pool.pool.Length == 8
    modifies pool, pool.pool, pool.depth
    ensures Pooled(pool, p, ran, spawned, lo, a, e, hi, g) && pool.size > 0
    ensures pool.size == 1 ==> pool.contents[0].depth == p.maxDepth || !pool.contents[0].range.IsDivisible()
    ensures pool.size == 1 ==> !old(MayGrow(pool, p))
    ensures Small(g.range, g.need, pool.contents[0].range)
  {
    pool.SplitToFill(p.maxDepth, a, e, g.range, g.base);
    BackIsSmall(pool.contents, p.maxDepth, g);
  }

  /** The rightmost range goes to a new task, as deep as it was in the pool. */
  method GiveFront(pool: RangeVector, p: Partition, ghost ran: seq<Range>, spawned: seq<Spawned>,
                   ghost lo: nat, ghost a: nat, ghost e: nat, ghost hi: nat, ghost g: Share)
    returns (spawned': seq<Spawned>, ghost e': nat)
    requires InPool(pool, p, ran, spawned, lo, a, e, hi, g) && pool.size > 1 && (p.affinity ==> !p.delay)
    modifies pool, p
    ensures InPool(pool, p, ran, spawned', lo, a, e', hi, g) && e' < e && pool.size == old(pool.size) - 1
    ensures Added(spawned, spawned')
  {
    ghost var c := pool.contents;
    var front, depth := pool.Front();
    var q := GivePartition(p, depth, c);
    FrontIsDue(c, g, q.divisor, q.maxDepth);
    FrontGivenAway(c, p.Save(), ran, spawned, Spawned(front, q), lo, a, e, hi, g);
    spawned' := spawned + [Spawned(front, q)];
    FineMore(g.range, g.need, ran, spawned, ran, spawned');
    pool.PopFront();
    e' := front.lo;
  }

  lemma FrontGivenAway(c: seq<Piece>, p: Fields, ran: seq<Range>, spawned: seq<Spawned>, x: Spawned,
                       lo: nat, a: nat, e: nat, hi: nat, g: Share)
    requires |c| > 1 && Divided(ran, Ranges(c), spawned, lo, a, e, hi) && x.range == c[|c| - 1].range
    requires Shared(g, p.maxDepth, c) && Depths(c[..|c| - 1], p.maxDepth) && EnoughTurns(p, c[..|c| - 1])
    ensures Pooling(c[..|c| - 1], p, ran, spawned + [x], lo, a, x.range.lo, hi, g) && x.range.lo < e
  {
    var kept := Ranges(c);
    TilesButLast(kept, a, e);
    TilesUp(kept[..|kept| - 1], a, x.range.lo);
    GiveAway(ran, kept, spawned, x, lo, a, e, hi);
    assert Ranges(c[..|c| - 1]) == kept[..|kept| - 1];
  }

  lemma FrontIsDue(c: seq<Piece>, g: Share, divisor: nat, maxDepth: nat)
    requires |c| > 1 && Pieces(g.range, g.base, c)
    requires g.need <= g.base + Shallow(maxDepth + c[|c| - 1].depth)
    ensures Due(g.range, g.need, c[|c| - 1].range, HalvingsOf(divisor, maxDepth))
  {
    var coming := HalvingsOf(divisor, maxDepth);
    var h := if g.need > coming then g.need - coming else 0;
    PartOfFewer(g.range, c[|c| - 1].range, h, g.base + c[|c| - 1].depth);
  }

  /** The partition of the task that gets the front. */
  method GivePartition(p: Partition, depth: nat, ghost c: seq<Piece>) returns (given: Fields)
    requires |c| > 1 && Depths(c, p.maxDepth) && EnoughTurns(p.Save(), c) && depth == c[|c| - 1].depth
    requires p.affinity ==> !p.delay
    modifies p
    ensures given.Ready() && p.maxDepth >= old(p.maxDepth)
    ensures given.maxDepth == old(p.maxDepth) - depth
    ensures p.affinity ==> p.maxDepth == old(p.maxDepth)
    ensures Depths(c[..|c| - 1], p.maxDepth) && EnoughTurns(p.Save(), c[..|c| - 1])
  {
    ghost var begin, end, max := p.mapBegin, p.mapEnd, p.maxDepth;
    var q := p.Split();
    q.AlignDepth(depth);
    given := q.Save();
    FrontGone(c, max);
    if p.affinity && end - begin >= 2 {
      HalfTheMap(begin, end, Turns(c, max));
      DepthsApart(c, max, |c| - 1);
      FrontHasTurns(c, max, q.mapEnd - q.mapBegin);
      Pow2Monotone(Turns(c, max) - 1, max);
    }
  }

  /** One task more, which can be run. */
  ghost predicate Added(spawned: seq<Spawned>, spawned': seq<Spawned>)
  {
    |spawned'| == |spawned| + 1 && spawned'[..|spawned|] == spawned && spawned'[|spawned|].partition.Ready()
  }

  /** The body can be run on the back of the pool: it is small enough, and what is left has enough turns. */
  ghost predicate Runnable(c: seq<Piece>, p: Fields, ran: seq<Range>, spawned: seq<Spawned>,
                           lo: nat, a: nat, e: nat, hi: nat, g: Share)
  {
    && c != [] && Depths(c, p.maxDepth) && (|c| == 1 || KeepsTurns(p, c))
    && Shared(g, p.maxDepth, c) && Small(g.range, g.need, c[0].range)
    && Divided(ran, Ranges(c), spawned, lo, a, e, hi) && a <= e && Fine(g.range, g.need, ran, spawned)
  }

  /** The body runs on the leftmost range: because nobody asked for work, or as the last one. */
  method RunBack(pool: RangeVector, p: Partition, log: Log, ghost ran: seq<Range>, ghost spawned: seq<Spawned>,
                 ghost lo: nat, ghost a: nat, ghost e: nat, ghost hi: nat, ghost g: Share)
    returns (back: Range)
    requires pool.Valid() && pool.pool.Length == 8
    requires Runnable(pool.contents, p.Save(), ran, spawned, lo, a, e, hi, g)
    modifies pool, log
    ensures InPool(pool, p, ran + [back], spawned, lo, back.hi, e, hi, g) && a < back.hi
    ensures log.ran == old(log.ran) + [back] && back == old(pool.contents[0].range)
    ensures pool.size == old(pool.size) - 1
  {
    ghost var c := pool.contents;
    back := pool.Back();
    log.RunBody(back);
    BackRun(c, p.Save(), ran, spawned, lo, a, e, hi, g);
    FineMore(g.range, g.need, ran, spawned, ran + [back], spawned);
    pool.PopBack();
  }

  lemma BackRun(c: seq<Piece>, p: Fields, ran: seq<Range>, spawned: seq<Spawned>,
                lo: nat, a: nat, e: nat, hi: nat, g: Share)
    requires Runnable(c, p, ran, spawned, lo, a, e, hi, g)
    ensures Pooling(c[1..], p, ran + [c[0].range], spawned, lo, c[0].range.hi, e, hi, g) && a < c[0].range.hi
  {
    var kept := Ranges(c);
    RunLeft(ran, kept, spawned, lo, a, e, hi);
    TilesUp(kept[1..], c[0].range.hi, e);
    assert Ranges(c[1..]) == kept[1..];
  }

  /** Enough turns are left without the back of the pool. */
  ghost predicate KeepsTurns(p: Fields, c: seq<Piece>)
    requires c != [] && Depths(c, p.maxDepth)
  {
    |c| > 1 ==> Depths(c[1..], p.maxDepth) && EnoughTurns(p, c[1..])
  }

  /** If the map may be divided, the partition asks for work from the second time on. */
  method AskForDemand(p: Partition, ghost c: seq<Piece>, peerStolen: bool) returns (demand: bool)
    requires c != [] && Depths(c, p.maxDepth) && EnoughTurns(p.Save(), c)
    modifies p
    ensures Depths(c, p.maxDepth) && p.maxDepth >= old(p.maxDepth)
    ensures demand == old(p.Save().Wants(peerStolen))
    ensures demand ==> EnoughTurns(p.Save(), c) && (p.affinity ==> !p.delay)
    ensures !demand ==> KeepsTurns(p.Save(), c)
    ensures demand && |c| == 1 && c[0].depth == old(p.maxDepth) ==> p.maxDepth == old(p.maxDepth) + 1
  {
    ghost var max := p.maxDepth;
    demand := p.CheckForDemand(peerStolen);
    assert Pow2(max + 1) == 2 * Pow2(max);
    if |c| > 1 {
      BackGone(c, max);
      BackGone(c, p.maxDepth);
    }
    if p.affinity && p.mapEnd - p.mapBegin >= 2 && !old(p.delay) {
      assert p.mapMid < p.mapEnd;
    } else if p.affinity && p.mapEnd - p.mapBegin >= 2 && |c| > 1 {
      assert Pow2(4) == 16;
      Pow2Monotone(4, Turns(c[1..], max));
    }
  }

  method FillAndAsk(pool: RangeVector, p: Partition, ghost ran: seq<Range>, ghost spawned: seq<Spawned>,
                    ghost lo: nat, ghost a: nat, ghost e: nat, ghost hi: nat, ghost g: Share, peerStolen: bool)
    returns (demand: bool)
    requires InPool(pool, p, ran, spawned, lo, a, e, hi, g) && pool.size > 0
    modifies pool, pool.pool, pool.depth, p
    ensures pool.Valid() && pool.size > 0 && pool.pool.Length == 8
    ensures demand == old(p.Save().Wants(peerStolen))
    ensures demand ==> InPool(pool, p, ran, spawned, lo, a, e, hi, g) && (p.affinity ==> !p.delay)
    ensures !demand || pool.size == 1 ==> Runnable(pool.contents, p.Save(), ran, spawned, lo, a, e, hi, g)
    ensures demand && pool.size == 1 && pool.contents[0].range.IsDivisible() ==>
              MayGrow(pool, p) && !old(MayGrow(pool, p))
  {
    Fill(pool, p, ran, spawned, lo, a, e, hi, g);
    demand := AskForDemand(p, pool.contents, peerStolen);
  }

  /** One turn of the pool loop.  If it neither runs nor gives away anything, the next one will. */
  method PoolTurn(pool: RangeVector, p: Partition, log: Log, ghost ran: seq<Range>, spawned: seq<Spawned>,
                  ghost lo: nat, ghost a: nat, ghost e: nat, ghost hi: nat, ghost g: Share, peerStolen: bool)
    returns (spawned': seq<Spawned>, ghost now: seq<Range>, ghost a': nat, ghost e': nat)
    requires InPool(pool, p, ran, spawned, lo, a, e, hi, g) && pool.size > 0
    modifies pool, pool.pool, pool.depth, p, log
    ensures InPool(pool, p, ran + now, spawned', lo, a', e', hi, g) && a <= a' && e' <= e
    ensures log.ran == old(log.ran) + now && |now| <= 1
    ensures spawned' == spawned || Added(spawned, spawned')
    ensures !old(p.Save().Wants(peerStolen)) ==> |now| == 1 && spawned' == spawned
    ensures old(p.Save().Wants(peerStolen)) && |now| == 1 ==>
              spawned' == spawned && !now[0].IsDivisible() && pool.size == 0
    ensures a < a' || e' < e || (MayGrow(pool, p) && !old(MayGrow(pool, p)))
  {
    spawned', now, a', e' := spawned, [], a, e;
    assert ran + [] == ran;
    var demand := FillAndAsk(pool, p, ran, spawned, lo, a, e, hi, g, peerStolen);
    var back := pool.Back();
    if demand && pool.size > 1 {
      spawned', e' := GiveFront(pool, p, ran, spawned, lo, a, e, hi, g);
    } else if !(demand && back.IsDivisible()) {
      back := RunBack(pool, p, log, ran, spawned, lo, a, e, hi, g);
      now, a' := [back], back.hi;
    }
  }

  /** The pool loop: a full pool is run down from the left; on demand the rightmost range goes to a new
      task, or else the pool is divided further. */
  method RunTurns(pool: RangeVector, p: Partition, log: Log, ghost lo: nat, ghost hi: nat, ghost g: Share)
    returns (spawned: seq<Spawned>, ghost ran: seq<Range>, ghost a: nat, ghost e: nat)
    requires InPool(pool, p, [], [], lo, lo, hi, hi, g) && pool.size > 0
    modifies pool, pool.pool, pool.depth, p, log
    ensures InPool(pool, p, ran, spawned, lo, a, e, hi, g) && pool.size == 0
    ensures log.ran == old(log.ran) + ran
  {
    spawned, ran, a, e := [], [], lo, hi;
    while pool.size > 0
      invariant InPool(pool, p, ran, spawned, lo, a, e, hi, g)
      invariant log.ran == old(log.ran) + ran
      decreases e - a, if MayGrow(pool, p) then 0 else 1
    {
      var peerStolen: bool := *;
      ghost var now;
      spawned, now, a, e := PoolTurn(pool, p, log, ran, spawned, lo, a, e, hi, g, peerStolen);
      MoreWasRun(old(log.ran), ran, now);
      ran := ran + now;
    }
  }

  lemma MoreWasRun(before: seq<Range>, ran: seq<Range>, now: seq<Range>)
    ensures before + ran + now == before + (ran + now)
  {
  }

  method RunPool(rest: Range, p: Partition, log: Log, ghost g: Share)
    returns (spawned: seq<Spawned>, ghost ran: seq<Range>, ghost e: nat)
    requires rest.Ok() && p.Ready() && (p.affinity ==> p.divisor <= 1)
    requires PartOf(g.range, rest, g.base) && g.need <= g.base + Shallow(p.maxDepth)
    modifies p, log
    ensures log.ran == old(log.ran) + ran && ran != []
    ensures Tiles(ran, rest.lo, e) && Tiles(LeftToRight(spawned), e, rest.hi)
    ensures Fine(g.range, g.need, ran, spawned)
  {
    var pool := new RangeVector(rest, 8);
    PoolBegins(rest, p.Save(), g);
    ghost var a;
    spawned, ran, a, e := RunTurns(pool, p, log, rest.lo, rest.hi, g);
    PoolEnds(p.Save(), ran, spawned, rest.lo, a, e, rest.hi, g);
  }

  lemma PoolBegins(rest: Range, p: Fields, g: Share)
    requires rest.Ok() && p.Ready() && (p.affinity ==> p.divisor <= 1)
    requires PartOf(g.range, rest, g.base) && g.need <= g.base + Shallow(p.maxDepth)
    ensures Pooling([Piece(rest, 0)], p, [], [], rest.lo, rest.lo, rest.hi, rest.hi, g)
    ensures Fine(g.range, g.need, [], [])
  {
    TilesOne(rest);
    assert Ranges([Piece(rest, 0)]) == [rest];
  }

  lemma PoolEnds(p: Fields, ran: seq<Range>, spawned: seq<Spawned>, lo: nat, a: nat, e: nat, hi: nat, g: Share)
    requires Pooling([], p, ran, spawned, lo, a, e, hi, g)
    ensures Tiles(ran, lo, e) && Tiles(LeftToRight(spawned), e, hi)
  {
    assert Ranges([]) == [];
  }

  /** The divisor after `n` divisions: each one halves it, rounded up, as long as it is above 1; an
      automatic partition drops it with one division more. */
  ghost predicate Divisor(affinity: bool, d: nat, n: nat, now: nat) {
    || (now == HalvedUp(d, n) && (n >= 1 ==> HalvedUp(d, n - 1) > 1))
    || (!affinity && now == 0 && n >= 1 && HalvedUp(d, n - 1) == 1 && (n >= 2 ==> HalvedUp(d, n - 2) > 1))
  }

  /** There are no more divisions than bring the divisor down to 1, and one more for an automatic
      partition. */
  ghost predicate FewDivisions(affinity: bool, d: nat, n: nat) {
    var least := if affinity then 1 else 2;
    (d == 0 ==> n == 0) && (n >= least ==> HalvedUp(d, n - least) > 1)
  }

  lemma {:induction false} NothingHalved(n: nat)
    ensures HalvedUp(0, n) == 0
  {
    if n > 0 {
      NothingHalved(n - 1);
    }
  }

  lemma DivisionsAreFew(affinity: bool, d: nat, n: nat, now: nat)
    requires Divisor(affinity, d, n, now)
    ensures FewDivisions(affinity, d, n)
  {
    if n >= 1 {
      NothingHalved(n - 1);
    }
    if n >= 2 {
      HalvedUpMore(d, n - 2, n - 1);
    }
  }

  /** Between initial divisions: what is left of the range, and what has been given away. */
  ghost predicate Spreading(range: Range, need: nat, d: nat, rest: Range, spawned: seq<Spawned>, p: Fields) {
    && p.Ready() && rest.Ok() && Divided([], [rest], spawned, range.lo, range.lo, rest.hi, range.hi)
    && Fine(range, need, [], spawned) && Due(range, need, rest, p.Halvings())
    && Divisor(p.affinity, d, |spawned|, p.divisor)
  }

  /** One initial division, if there are any left. */
  method DivideOnce(range: Range, ghost need: nat, ghost d: nat, rest: Range, spawned: seq<Spawned>, p: Partition)
    returns (left: bool, rest': Range, spawned': seq<Spawned>)
    requires Spreading(range, need, d, rest, spawned, p.Save()) && rest.IsDivisible()
    modifies p
    ensures Spreading(range, need, d, rest', spawned', p.Save())
    ensures left ==> rest' == rest.LeftHalf() && |spawned'| == |spawned| + 1
    ensures !left ==> rest' == rest && spawned' == spawned && p.Save() == old(p.Save())
    ensures !left ==> p.divisor <= 1 && (p.affinity || p.divisor == 0 || p.maxDepth <= 1)
  {
    rest', spawned' := rest, spawned;
    ghost var coming := p.Save().Halvings();
    left := p.DivisionsLeft();
    if left {
      if old(p.divisor) == 1 {
        HalvingsLeft(old(p.divisor), old(p.maxDepth));
      }
      rest', spawned' := SplitWork(rest, p, spawned, range.lo, range.hi, range, need, coming);
      FineMore(range, need, [], spawned, [], spawned');
      DivisorHalved(p.affinity, d, |spawned|, old(p.divisor), p.divisor);
    }
  }

  lemma HalvingsLeft(d: nat, m: nat)
    requires d == 1 && m > 1
    ensures HalvingsOf(d, m) <= HalvingsOf(0, m - 1) + 1
  {
    Log2Unique(1, 0);
  }

  lemma DivisorHalved(affinity: bool, d: nat, n: nat, was: nat, now: nat)
    requires Divisor(affinity, d, n, was) && (was > 1 || (was == 1 && !affinity))
    requires now == if was > 1 then was - was / 2 else 0
    ensures Divisor(affinity, d, n + 1, now)
  {
  }

  /** The part before the pool: the initial divisions. */
  method SpreadWork(range: Range, p: Partition) returns (spawned: seq<Spawned>, rest: Range)
    requires range.Ok() && p.Ready()
    modifies p
    ensures p.Ready() && rest.Ok() && Divided([], [rest], spawned, range.lo, range.lo, rest.hi, range.hi)
    ensures rest.IsDivisible() ==> p.divisor <= 1 && (p.affinity || p.divisor == 0 || p.maxDepth <= 1)
    ensures FewDivisions(p.affinity, old(p.divisor), |spawned|)
    ensures Fine(range, old(p.Save().Halvings()), [], spawned)
    ensures Due(range, old(p.Save().Halvings()), rest, p.Save().Halvings())
  {
    spawned, rest := [], range;
    TilesOne(range);
    ghost var need, d := p.Save().Halvings(), p.divisor;
    while rest.IsDivisible()
      invariant Spreading(range, need, d, rest, spawned, p.Save())
      decreases rest.hi - rest.lo
    {
      var left;
      left, rest, spawned := DivideOnce(range, need, d, rest, spawned, p);
      if !left {
        break;
      }
    }
    DivisionsAreFew(p.affinity, d, |spawned|, p.divisor);
  }

  /** `partition_type_base::execute` for the automatic and the affinity partitioner: the task runs
      its body on a left part of its range, from left to right, and has spawned tasks for the rest. */
  method Execute(range: Range, p: Partition, log: Log) returns (spawned: seq<Spawned>, ghost ran: seq<Range>)
    requires range.Ok() && p.Ready()
    modifies p, log
    ensures log.ran == old(log.ran) + ran && ran != []
    ensures exists e: nat :: Tiles(ran, range.lo, e) && Tiles(LeftToRight(spawned), e, range.hi)
    ensures Fine(range, old(p.Save().Halvings()), ran, spawned)
  {
    ghost var need := p.Save().Halvings();
    var rest: Range;
    spawned, rest := SpreadWork(range, p);
    ghost var coming := p.Save().Halvings();
    ghost var base: nat := if need > coming then need - coming else 0;
    PartOfFewer(range, rest, 0, base);
    if !rest.IsDivisible() || p.maxDepth == 0 {
      log.RunBody(rest);
      ran := [rest];
      TilesOne(rest);
    } else {
      ghost var e;
      var more;
      more, ran, e := RunPool(rest, p, log, Share(range, need, base));
      LeftToRightJoin(spawned, more);
      TilesJoin(LeftToRight(more), LeftToRight(spawned), e, rest.hi, range.hi);
      spawned := spawned + more;
    }
  }
}
