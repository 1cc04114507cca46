/** `blocked_range`, and the circular pool of ranges that a task divides its work in. */
module RangePool {
  import opened Bits

  /** `blocked_range` */
  datatype Range = Range(lo: nat, hi: nat, grain: nat) {
    predicate Ok() {
      grain >= 1 && lo < hi
    }
    predicate IsDivisible() {
      lo <= hi && grain < hi - lo
    }
    /** `do_split` */
    function Middle(): nat
      requires lo <= hi
    {
      lo + (hi - lo) / 2
    }
    function LeftHalf(): Range
      requires lo <= hi
    {
      this.(hi := Middle())
    }
    function RightHalf(): Range
      requires lo <= hi
    {
      this.(lo := Middle())
    }
  }

  // ---------------------------------------------------------------- how small the parts are

  /** Halving `h` times, rounded up each time. */
  function HalvedUp(n: nat, h: nat): nat {
    if h == 0 then n else (HalvedUp(n, h - 1) + 1) / 2
  }

  lemma {:induction false} HalvedUpMore(n: nat, g: nat, h: nat)
    requires g <= h
    ensures HalvedUp(n, h) <= HalvedUp(n, g) <= n
  {
    if g < h {
      HalvedUpMore(n, g, h - 1);
    } else if h > 0 {
      HalvedUpMore(n, g - 1, h - 1);
    }
  }

  lemma {:induction false} HalvedUpAgain(m: nat, n: nat, g: nat, h: nat)
    requires m <= HalvedUp(n, g)
    ensures HalvedUp(m, h) <= HalvedUp(n, g + h)
  {
    if h > 0 {
      HalvedUpAgain(m, n, g, h - 1);
      assert g + h - 1 == g + (h - 1);
    }
  }

  /** It is the quotient by a power of two, rounded up. */
  lemma {:induction false} HalvedUpIs(n: nat, h: nat)
    requires n > 0
    ensures HalvedUp(n, h) > 0 && (HalvedUp(n, h) - 1) * Pow2(h) < n <= HalvedUp(n, h) * Pow2(h)
  {
    if h > 0 {
      HalvedUpIs(n, h - 1);
      HalfOfQuotient(n, HalvedUp(n, h), HalvedUp(n, h - 1), Pow2(h - 1), Pow2(h));
    }
  }

  lemma HalfOfQuotient(n: nat, q: nat, r: nat, p: nat, p2: nat)
    requires r > 0 && q == (r + 1) / 2 && p2 == 2 * p && (r - 1) * p < n <= r * p
    ensures q > 0 && (q - 1) * p2 < n <= q * p2
  {
    TimesMonotone(2 * (q - 1), r - 1, p);
    TimesMonotone(r, 2 * q, p);
    assert (q - 1) * p2 == 2 * (q - 1) * p && q * p2 == 2 * q * p;
  }

  lemma TimesMonotone(a: int, b: int, p: nat)
    requires a <= b
    ensures a * p <= b * p
  {
    assert (b - a) * p >= 0;
  }

  /** `r` is `o` halved at least `h` times; unless it is `o` itself it has half the grain size. */
  ghost predicate PartOf(o: Range, r: Range, h: nat) {
    && o.lo <= o.hi && r.lo <= r.hi && r.grain == o.grain
    && (r == o || 2 * (r.hi - r.lo) >= r.grain)
    && r.hi - r.lo <= HalvedUp(o.hi - o.lo, h)
  }

  lemma HalvesAreParts(o: Range, r: Range, h: nat)
    requires PartOf(o, r, h) && r.IsDivisible()
    ensures PartOf(o, r.LeftHalf(), h + 1) && PartOf(o, r.RightHalf(), h + 1)
  {
  }

  lemma PartOfFewer(o: Range, r: Range, g: nat, h: nat)
    requires PartOf(o, r, h) && g <= h
    ensures PartOf(o, r, g)
  {
    HalvedUpMore(o.hi - o.lo, g, h);
  }

  lemma PartOfPart(o: Range, q: Range, r: Range, g: nat, h: nat)
    requires PartOf(o, q, g) && PartOf(q, r, h)
    ensures PartOf(o, r, g + h)
  {
    HalvedUpAgain(q.hi - q.lo, o.hi - o.lo, g, h);
  }

  /** A range in the pool, and how often it was halved there. */
  datatype Piece = Piece(range: Range, depth: nat)

  /** Nonempty ranges that follow each other from `lo` to `hi`. */
  ghost predicate Tiles(s: seq<Range>, lo: nat, hi: nat) {
    if s == [] then lo == hi
    else s[0].lo == lo && s[0].Ok() && s[0].hi <= hi && Tiles(s[1..], s[0].hi, hi)
  }

  lemma {:induction false} TilesJoin(s: seq<Range>, t: seq<Range>, lo: nat, mid: nat, hi: nat)
    requires Tiles(s, lo, mid) && Tiles(t, mid, hi)
    ensures Tiles(s + t, lo, hi) && lo <= mid <= hi
  {
    TilesUp(t, mid, hi);
    if s == [] {
      assert s + t == t;
    } else {
      TilesJoin(s[1..], t, s[0].hi, mid, hi);
      assert (s + t)[1..] == s[1..] + t;
    }
  }

  lemma {:induction false} TilesUp(s: seq<Range>, lo: nat, hi: nat)
    requires Tiles(s, lo, hi)
    ensures lo <= hi && (s != [] ==> lo < hi)
  {
    if s != [] {
      TilesUp(s[1..], s[0].hi, hi);
    }
  }

  /** The last of the ranges ends at `hi`, and the others end where it begins. */
  lemma {:induction false} TilesButLast(s: seq<Range>, lo: nat, hi: nat)
    requires Tiles(s, lo, hi) && s != []
    ensures var last := s[|s| - 1]; last.hi == hi && last.Ok() && Tiles(s[..|s| - 1], lo, last.lo)
  {
    if |s| > 1 {
      TilesButLast(s[1..], s[0].hi, hi);
      assert s[..|s| - 1][1..] == s[1..][..|s| - 2];
      TilesUp(s[..|s| - 1][1..], s[0].hi, s[|s| - 1].lo);
    } else {
      assert s[1..] == [];
    }
  }

  lemma TilesOne(r: Range)
    requires r.Ok()
    ensures Tiles([r], r.lo, r.hi)
  {
    assert [r][1..] == [];
  }

  /** The ranges of the pieces, in the same order. */
  ghost function Ranges(c: seq<Piece>): (s: seq<Range>)
    ensures |s| == |c| && forall k :: 0 <= k < |c| ==> s[k] == c[k].range
  {
    seq(|c|, k requires 0 <= k < |c| => c[k].range)
  }

  /** The pool's depths: within the limit, and rising by one or more from the front to the back;
      only the two at the back may be the same. */
  ghost predicate Depths(c: seq<Piece>, max: nat) {
    && (forall k :: 0 <= k < |c| ==> c[k].depth <= max)
    && (|c| >= 2 ==> c[0].depth >= c[1].depth && c[|c| - 1].depth > 0)
    && (forall k {:trigger Rises(c, k)} :: 1 <= k < |c| - 1 ==> Rises(c, k))
  }

  ghost predicate Rises(c: seq<Piece>, k: int)
    requires 0 <= k < |c| - 1
  {
    c[k].depth > c[k + 1].depth
  }

  /** There are at least as many depths between the front and the back as there are ranges between. */
  lemma {:induction false} DepthsApart(c: seq<Piece>, max: nat, k: nat)
    requires Depths(c, max) && 1 <= k < |c|
    ensures c[0].depth >= c[k].depth + (k - 1)
  {
    if k > 1 {
      assert Rises(c, k - 1);
      DepthsApart(c, max, k - 1);
    }
  }

  /** How often the front can be given away, if the pool is filled whenever it can be. */
  ghost function Turns(c: seq<Piece>, max: nat): nat
    requires c != [] && Depths(c, max)
  {
    |c| - 1 + (max - c[0].depth)
  }

  /** `split_to_fill` keeps the number of turns. */
  lemma SplitKeepsTurns(c: seq<Piece>, max: nat, r: Range, q: Range)
    requires c != [] && Depths(c, max) && c[0].depth < max
    ensures var d := c[0].depth + 1;
            var c' := [Piece(r, d), Piece(q, d)] + c[1..];
            Depths(c', max) && Turns(c', max) == Turns(c, max)
  {
    var d := c[0].depth + 1;
    var c' := [Piece(r, d), Piece(q, d)] + c[1..];
    forall k | 1 <= k < |c'| - 1
      ensures Rises(c', k)
    {
      assert c'[k + 1] == c[k] && (k > 1 ==> c'[k] == c[k - 1] && Rises(c, k - 1));
    }
  }

  /** `(i + 1) % n` */
  lemma NextSlot(i: nat, n: nat)
    requires i < n
    ensures (i + 1) % n == if i + 1 == n then 0 else i + 1
  {
  }

  /** `(i + n - 1) % n` */
  lemma PreviousSlot(i: nat, n: nat)
    requires i < n
    ensures (i + n - 1) % n == if i == 0 then n - 1 else i - 1
  {
    if i > 0 {
      assert i + n - 1 == n * 1 + (i - 1);
    }
  }

  /** The slot `k` before `head` in a circle of `n`. */
  function SlotFrom(head: nat, n: nat, k: nat): (i: nat)
    requires k < n && head < n
    ensures i < n
  {
    if k <= head then head - k else head + n - k
  }

  /** Moving the head moves all slots along. */
  lemma SlotAfter(head: nat, n: nat, k: nat)
    requires head < n && k + 1 < n
    ensures SlotFrom((head + 1) % n, n, k + 1) == SlotFrom(head, n, k)
    ensures SlotFrom((head + n - 1) % n, n, k) == SlotFrom(head, n, k + 1)
  {
    NextSlot(head, n);
    PreviousSlot(head, n);
  }

  /** The pieces are in the slots from `head` back. */
  ghost predicate Laid(ranges: seq<Range>, depths: seq<nat>, head: nat, c: seq<Piece>) {
    && head < |ranges| == |depths| && |c| <= |ranges|
    && forall k: nat {:trigger SlotFrom(head, |ranges|, k)} :: k < |c| ==>
         ranges[SlotFrom(head, |ranges|, k)] == c[k].range && depths[SlotFrom(head, |ranges|, k)] == c[k].depth
  }

  /** The pieces after the back has been halved: the left half is the new back. */
  ghost function Halved(c: seq<Piece>): (r: seq<Piece>)
    requires c != [] && c[0].range.lo <= c[0].range.hi
    ensures |r| == |c| + 1 && forall k :: 2 <= k < |r| ==> r[k] == c[k - 1]
  {
    [Piece(c[0].range.LeftHalf(), c[0].depth + 1), Piece(c[0].range.RightHalf(), c[0].depth + 1)] + c[1..]
  }

  /** Each piece is `o` halved as often as its depth says, `base` halvings apart. */
  ghost predicate Pieces(o: Range, base: nat, c: seq<Piece>) {
    forall k :: 0 <= k < |c| ==> PartOf(o, c[k].range, base + c[k].depth)
  }

  lemma HalvedPieces(o: Range, base: nat, c: seq<Piece>)
    requires c != [] && c[0].range.IsDivisible() && Pieces(o, base, c)
    ensures Pieces(o, base, Halved(c))
  {
    HalvesAreParts(o, c[0].range, base + c[0].depth);
    assert base + c[0].depth + 1 == base + (c[0].depth + 1);
  }

  /** When the head moves on, the old one is second, and the others are one further away. */
  lemma SlotsAfterSplit(head: nat, n: nat, k: nat)
    requires k < n && n >= 2 && head < n
    ensures var next := (head + 1) % n;
      && next != head && next < n
      && SlotFrom(next, n, k) == (if k == 0 then next else SlotFrom(head, n, k - 1))
      && (k >= 2 ==> SlotFrom(next, n, k) != next && SlotFrom(next, n, k) != head)
      && SlotFrom(head, n, 0) == head
  {
    NextSlot(head, n);
  }

  /** Halving the back writes its left half to the next slot and its right half to its own. */
  lemma SplitLaid(ranges: seq<Range>, depths: seq<nat>, head: nat, c: seq<Piece>)
    requires Laid(ranges, depths, head, c) && 0 < |c| < |ranges| && c[0].range.lo <= c[0].range.hi
    ensures var next, p := (head + 1) % |ranges|, c[0];
      && ranges[head] == p.range && depths[head] == p.depth && next < |ranges| && next != head
      && Laid(ranges[next := p.range.LeftHalf()][head := p.range.RightHalf()],
              depths[next := p.depth + 1][head := p.depth + 1], next, Halved(c))
  {
    var n, p := |ranges|, c[0];
    SlotsAfterSplit(head, n, 0);
    var next := (head + 1) % n;
    var ranges', depths' := ranges[next := p.range.LeftHalf()][head := p.range.RightHalf()],
        depths[next := p.depth + 1][head := p.depth + 1];
    forall k: nat | k < |c| + 1
      ensures ranges'[SlotFrom(next, n, k)] == Halved(c)[k].range && depths'[SlotFrom(next, n, k)] == Halved(c)[k].depth
    {
      SlotsAfterSplit(head, n, k);
      if k >= 2 {
        assert Halved(c)[k] == c[k - 1];
        assert SlotFrom(next, n, k) == SlotFrom(head, n, k - 1);
      }
    }
  }

  /** `range_vector`.  Its contents are listed from the back, where `head` points, to the front,
      where `tail` does. */
  class RangeVector {
    const pool: array<Range>
    const depth: array<nat>
    var head: nat
    var tail: nat
    var size: nat
    ghost var contents: seq<Piece>

    /** Where the piece is that has `k` others between it and the back. */
    function Slot(k: nat): nat
      requires k < pool.Length && head < pool.Length
      reads this
    {
      SlotFrom(head, pool.Length, k)
    }

    ghost predicate Valid()
      reads this, pool, depth
    {
      && pool.Length == depth.Length >= 1
      && head < pool.Length && tail < pool.Length && size <= pool.Length
      && |contents| == size
      && Laid(pool[..], depth[..], head, contents)
      && (size > 0 ==> tail == Slot(size - 1))
    }

    constructor (elem: Range, capacity: nat)
      requires capacity >= 1
      ensures Valid() && fresh(pool) && fresh(depth) && pool.Length == capacity
      ensures contents == [Piece(elem, 0)]
    {
      pool := new Range[capacity](_ => elem);
      depth := new nat[capacity](_ => 0);
      head, tail, size := 0, 0, 1;
      contents := [Piece(elem, 0)];
    }

    method Back() returns (r: Range)
      requires Valid() && size > 0
      ensures r == contents[0].range
    {
      assert Slot(0) == head;
      r := pool[head];
    }

    method Front() returns (r: Range, d: nat)
      requires Valid() && size > 0
      ensures r == contents[size - 1].range && d == contents[size - 1].depth
    {
      r, d := pool[tail], depth[tail];
    }

    method PopBack()
      requires Valid() && size > 0
      modifies this
      ensures Valid() && contents == old(contents)[1..]
    {
      ghost var c, h := contents, head;
      size := size - 1;
      PreviousSlot(head, pool.Length);
      head := (head + pool.Length - 1) % pool.Length;
      contents := contents[1..];
      forall k: nat | k < size
        ensures Slot(k) == SlotFrom(h, pool.Length, k + 1) && contents[k] == c[k + 1]
      {
        SlotAfter(h, pool.Length, k);
      }
    }

    method PopFront()
      requires Valid() && size > 0
      modifies this
      ensures Valid() && contents == old(contents)[..old(size) - 1]
    {
      NextSlot(tail, pool.Length);
      size := size - 1;
      tail := (tail + 1) % pool.Length;
      contents := contents[..size];
    }

    /** One turn of `split_to_fill`: the back is halved, and its left half is the new back. */
    method SplitBack()
      requires Valid() && 0 < size < pool.Length && contents[0].range.IsDivisible()
      modifies this, pool, depth
      ensures Valid() && size == old(size) + 1
      ensures contents == Halved(old(contents))
    {
      ghost var c, h, ranges, depths: seq<nat> := contents, head, pool[..], depth[..];
      SplitLaid(ranges, depths, h, c);
      SlotsAfterSplit(h, pool.Length, size);
      var prev := head;
      head := (head + 1) % pool.Length;
      pool[head] := pool[prev];
      pool[prev] := pool[head].RightHalf();
      pool[head] := pool[head].LeftHalf();
      depth[prev] := depth[prev] + 1;
      depth[head] := depth[prev];
      size := size + 1;
      contents := Halved(c);
      assert pool[..] == ranges[head := c[0].range.LeftHalf()][prev := c[0].range.RightHalf()];
      assert depth[..] == depths[head := c[0].depth + 1][prev := c[0].depth + 1];
    }

    method FillOnce(maxDepth: nat, ghost lo: nat, ghost hi: nat, ghost turns: nat, ghost o: Range, ghost base: nat)
      requires Valid() && Filling(contents, lo, hi, maxDepth, turns) && size < pool.Length
      requires depth[head] < maxDepth && pool[head].IsDivisible() && Pieces(o, base, contents)
      modifies this, pool, depth
      ensures Valid() && Filling(contents, lo, hi, maxDepth, turns) && size == old(size) + 1
      ensures Pieces(o, base, contents)
    {
      assert Slot(0) == head;
      HalvesFill(contents, lo, hi, maxDepth, turns);
      HalvedPieces(o, base, contents);
      SplitBack();
    }

    /** `split_to_fill`: the ranges stay the same elements in the same order, each halved as often as
        its depth says. */
    method SplitToFill(maxDepth: nat, ghost lo: nat, ghost hi: nat, ghost o: Range, ghost base: nat)
      requires Valid() && size > 0 && Tiles(Ranges(contents), lo, hi) && Depths(contents, maxDepth)
      requires Pieces(o, base, contents)
      modifies this, pool, depth
      ensures Valid() && size > 0 && Tiles(Ranges(contents), lo, hi) && Pieces(o, base, contents)
      ensures Depths(contents, maxDepth) && Turns(contents, maxDepth) == old(Turns(contents, maxDepth))
      ensures size == pool.Length || contents[0].depth == maxDepth || !contents[0].range.IsDivisible()
      ensures size == 1 ==> contents == old(contents)
    {
      ghost var turns := Turns(contents, maxDepth);
      while size < pool.Length && depth[head] < maxDepth && pool[head].IsDivisible()
        invariant Valid() && Filling(contents, lo, hi, maxDepth, turns) && Pieces(o, base, contents)
        invariant size > old(size) || contents == old(contents)
        decreases pool.Length - size
      {
        FillOnce(maxDepth, lo, hi, turns, o, base);
      }
      assert Slot(0) == head;
    }
  }

  /** What filling the pool keeps. */
  ghost predicate Filling(c: seq<Piece>, lo: nat, hi: nat, max: nat, turns: nat) {
    c != [] && Tiles(Ranges(c), lo, hi) && Depths(c, max) && Turns(c, max) == turns
  }

  lemma HalvesFill(c: seq<Piece>, lo: nat, hi: nat, max: nat, turns: nat)
    requires Filling(c, lo, hi, max, turns) && c[0].range.IsDivisible() && c[0].depth < max
    ensures var p := c[0];
            Filling(Halved(c), lo, hi, max, turns)
  {
    HalvesTile(c, lo, hi);
    SplitKeepsTurns(c, max, c[0].range.LeftHalf(), c[0].range.RightHalf());
  }

  lemma HalvesTile(c: seq<Piece>, lo: nat, hi: nat)
    requires c != [] && Tiles(Ranges(c), lo, hi) && c[0].range.IsDivisible()
    ensures var p := c[0];
            Tiles(Ranges(Halved(c)), lo, hi)
  {
    var r, d := c[0].range, c[0].depth + 1;
    var left, right := r.LeftHalf(), r.RightHalf();
    var s := Ranges([Piece(left, d), Piece(right, d)] + c[1..]);
    assert s == [left] + ([right] + Ranges(c)[1..]);
    TilesOne(left);
    TilesOne(right);
    TilesUp(Ranges(c)[1..], r.hi, hi);
    TilesJoin([right], Ranges(c)[1..], right.lo, r.hi, hi);
    TilesJoin([left], [right] + Ranges(c)[1..], lo, right.lo, hi);
  }
}
