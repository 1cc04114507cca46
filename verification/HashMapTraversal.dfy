/** Walking through the buckets of a hash map that nobody changes: the iterator, and ranges that
    split for parallel traversal. */
module HashMapTraversal {
  import opened Bits
  import opened Segments
  import opened HashMapProtocol
  import opened BucketTable

  // ---------------------------------------------------------------- the iterator

  /** The nodes of bucket `b` and all after it. */
  ghost function NodesFrom(bs: seq<Slot>, b: nat): seq<Node>
    decreases |bs| - b
  {
    if b >= |bs| then [] else Nodes(bs[b]) + NodesFrom(bs, b + 1)
  }

  lemma {:induction false} NodesFromAre(bs: seq<Slot>, b: nat)
    requires Unique(bs)
    ensures KeysDiffer(NodesFrom(bs, b))
    ensures forall n :: n in NodesFrom(bs, b) <==> exists c :: b <= c < |bs| && n in Nodes(bs[c])
    decreases |bs| - b
  {
    if b < |bs| {
      NodesFromAre(bs, b + 1);
      var s, t := Nodes(bs[b]), NodesFrom(bs, b + 1);
      assert KeysDiffer(s);
      assert Apart(s, t) by {
        forall n, m | n in s && m in t
          ensures n.key != m.key
        {
          var c :| b + 1 <= c < |bs| && m in Nodes(bs[c]);
          assert Apart(Nodes(bs[b]), Nodes(bs[c]));
        }
      }
      assert forall i :: 0 <= i < |s| ==> (s + t)[i] in s;
      assert forall i :: |s| <= i < |s + t| ==> (s + t)[i] in t;
    }
  }

  /** A full traversal passes each node once. */
  lemma AllNodesOnce(bs: seq<Slot>)
    requires Unique(bs)
    ensures KeysDiffer(NodesFrom(bs, 0))
    ensures forall n :: n in NodesFrom(bs, 0) <==> n in Contents(bs)
  {
    NodesFromAre(bs, 0);
  }

  ghost predicate NoNodes(bs: seq<Slot>, a: nat, b: nat)
    requires b <= |bs|
  {
    forall c :: a <= c < b ==> Nodes(bs[c]) == []
  }

  /** Bucket `b` is the first from `a` on that has nodes, or there is none. */
  ghost predicate FirstFrom(bs: seq<Slot>, a: nat, b: nat) {
    && a <= b <= |bs| && (b < |bs| ==> Nodes(bs[b]) != [])
    && NodesFrom(bs, a) == NodesFrom(bs, b)
    && NoNodes(bs, a, b)
  }

  lemma NoNodesMore(bs: seq<Slot>, a: nat, b: nat)
    requires a <= b < |bs| && NoNodes(bs, a, b) && Nodes(bs[b]) == []
    ensures NoNodes(bs, a, b + 1) && NodesFrom(bs, b + 1) == NodesFrom(bs, b)
  {
  }

  /** The pointer to bucket `k`, from the one to the bucket before it. */
  method NextBucket(k: nat, width: nat, bucket: Address) returns (next: Address)
    requires width >= 1 && 1 <= k < Pow2(width)
    requires bucket == GetBucket(k - 1)
    ensures next == GetBucket(k)
  {
    FollowingBucket(k);
    SegmentStartTest(k, width);
    next := if And(k, MinusTwo(k, width)) != 0 then Following(bucket) else GetBucket(k);
  }

  lemma StepInChain(bs: seq<Slot>, b: nat, pos: nat)
    requires b < |bs| && pos < |Nodes(bs[b])|
    ensures var s := NodesFrom(bs, b);
            && pos < |s| && s[pos] == Nodes(bs[b])[pos] && s[pos..] == [s[pos]] + s[pos + 1..]
            && s[pos..][1..] == s[pos + 1..]
            && (pos + 1 == |Nodes(bs[b])| ==> s[pos + 1..] == NodesFrom(bs, b + 1))
  {
  }

  /** `hash_map_iterator`.  `pos` counts the nodes of the chain before the current one. */
  class Iterator {
    const buckets: seq<Slot>
    const width: nat
    var index: nat
    var bucket: Address
    var pos: nat

    ghost predicate Valid()
      reads this
    {
      && width >= 1 && 1 <= |buckets| < Pow2(width) && index <= |buckets|
      && if index == |buckets| then pos == 0 else pos < |Nodes(buckets[index])| && bucket == GetBucket(index)
    }

    predicate AtEnd()
      reads this
    {
      index == |buckets|
    }

    /** The current node and all after it. */
    ghost function Rest(): seq<Node>
      requires Valid()
      reads this
    {
      NodesFrom(buckets, index)[pos..]
    }

    /** The iterator at a bucket; it moves on if that is empty. */
    constructor (buckets: seq<Slot>, width: nat, b: nat)
      requires 1 <= |buckets| < Pow2(width) && width >= 1 && b < |buckets|
      ensures Valid() && this.buckets == buckets && this.width == width
      ensures pos == 0 && FirstFrom(buckets, b, index)
    {
      this.buckets, this.width := buckets, width;
      index, bucket, pos := b, GetBucket(b), 0;
      new;
      if Nodes(buckets[b]) == [] {
        AdvanceToNextBucket();
      }
    }

    /** `advance_to_next_bucket` */
    method AdvanceToNextBucket()
      requires width >= 1 && 1 <= |buckets| < Pow2(width) && index < |buckets| && bucket == GetBucket(index)
      modifies this
      ensures Valid() && pos == 0 && FirstFrom(buckets, old(index) + 1, index)
    {
      var k := index + 1;
      pos := 0;
      while k < |buckets|
        invariant old(index) < k <= |buckets| && pos == 0 && bucket == GetBucket(k - 1)
        invariant NodesFrom(buckets, k) == NodesFrom(buckets, old(index) + 1) && NoNodes(buckets, old(index) + 1, k)
      {
        bucket := NextBucket(k, width, bucket);
        if Nodes(buckets[k]) != [] {
          break;
        }
        NoNodesMore(buckets, old(index) + 1, k);
        k := k + 1;
      }
      index := k;
    }

    /** `operator*` */
    method Current() returns (n: Node)
      requires Valid() && !AtEnd()
      ensures Rest() != [] && n == Rest()[0]
    {
      n := Nodes(buckets[index])[pos];
    }

    /** `operator++` */
    method Advance()
      requires Valid() && !AtEnd()
      modifies this
      ensures Valid() && old(Rest()) != [] && Rest() == old(Rest())[1..]
    {
      StepInChain(buckets, index, pos);
      ghost var rest := NodesFrom(buckets, index)[pos + 1..];
      pos := pos + 1;
      if pos == |Nodes(buckets[index])| {
        AdvanceToNextBucket();
        assert NodesFrom(buckets, index)[0..] == NodesFrom(buckets, index) == rest;
      }
      assert Rest() == rest;
    }
  }

  /** A loop from `begin()` to `end()` passes every node of the table exactly once. */
  method Traverse(buckets: seq<Slot>, width: nat) returns (visited: seq<Node>)
    requires 1 <= |buckets| < Pow2(width) && width >= 1 && Unique(buckets)
    ensures KeysDiffer(visited)
    ensures forall n :: n in visited <==> n in Contents(buckets)
  {
    visited := Walk(buckets, width);
    AllNodesOnce(buckets);
  }

  lemma VisitNext(visited: seq<Node>, n: Node, rest: seq<Node>)
    requires rest != [] && n == rest[0]
    ensures visited + rest == visited + [n] + rest[1..]
  {
  }

  /** The loop itself. */
  method Walk(buckets: seq<Slot>, width: nat) returns (visited: seq<Node>)
    requires 1 <= |buckets| < Pow2(width) && width >= 1
    ensures visited == NodesFrom(buckets, 0)
  {
    var it := new Iterator(buckets, width, 0);
    visited := [];
    while !it.AtEnd()
      invariant fresh(it) && it.Valid() && it.buckets == buckets
      invariant visited + it.Rest() == NodesFrom(buckets, 0)
      decreases |it.Rest()|
    {
      ghost var rest := it.Rest();
      var n := it.Current();
      it.Advance();
      VisitNext(visited, n, rest);
      visited := visited + [n];
    }
    assert visited + [] == visited;
  }

  // ---------------------------------------------------------------- ranges

  /** The nodes of buckets `a` up to `b`. */
  ghost function NodesBetween(bs: seq<Slot>, a: nat, b: nat): seq<Node>
    requires b <= |bs|
    decreases |bs| - a
  {
    if a >= b then [] else Nodes(bs[a]) + NodesBetween(bs, a + 1, b)
  }

  lemma {:induction false} BetweenJoins(bs: seq<Slot>, a: nat, m: nat, b: nat)
    requires a <= m <= b <= |bs|
    ensures NodesBetween(bs, a, b) == NodesBetween(bs, a, m) + NodesBetween(bs, m, b)
    decreases m - a
  {
    if a < m {
      BetweenJoins(bs, a + 1, m, b);
    }
  }

  lemma {:induction false} EmptyBetween(bs: seq<Slot>, a: nat, b: nat)
    requires a <= b <= |bs| && NoNodes(bs, a, b)
    ensures NodesBetween(bs, a, b) == []
    decreases b - a
  {
    if a < b {
      EmptyBetween(bs, a + 1, b);
      assert Nodes(bs[a]) == [];
    }
  }

  lemma AllFromFirst(bs: seq<Slot>, first: nat)
    requires FirstFrom(bs, 0, first)
    ensures NodesBetween(bs, 0, |bs|) == NodesBetween(bs, first, |bs|) && IsPlace(bs, first)
  {
    EmptyBetween(bs, 0, first);
    BetweenJoins(bs, 0, first, |bs|);
  }

  /** A place where a range may begin or end: the first node of a bucket, or the end. */
  ghost predicate IsPlace(bs: seq<Slot>, b: nat) {
    b == |bs| || (b < |bs| && Nodes(bs[b]) != [])
  }

  /** The midpoint of a large range is the first bucket with nodes in its second half. */
  ghost predicate IsMid(bs: seq<Slot>, begin: nat, end: nat, grainsize: nat, mid: nat) {
    if end - begin > grainsize then FirstFrom(bs, begin + (end - begin) / 2, mid) else mid == end
  }

  lemma MidIs(bs: seq<Slot>, begin: nat, end: nat, grainsize: nat, mid: nat)
    requires begin <= end <= |bs| && grainsize >= 1 && IsPlace(bs, end) && IsMid(bs, begin, end, grainsize, mid)
    ensures begin <= mid <= end && IsPlace(bs, mid) && (begin == mid ==> begin == end)
    ensures mid != end <==>
              end - begin > grainsize && exists b :: begin + (end - begin) / 2 <= b < end && Nodes(bs[b]) != []
  {
    if end - begin > grainsize {
      MidWithin(bs, begin + (end - begin) / 2, end, mid);
    }
  }

  /** The search for a midpoint ends at the end of the range if not before. */
  lemma MidWithin(bs: seq<Slot>, half: nat, end: nat, mid: nat)
    requires half < end <= |bs| && IsPlace(bs, end) && FirstFrom(bs, half, mid)
    ensures half <= mid <= end && IsPlace(bs, mid)
    ensures mid != end <==> exists b :: half <= b < end && Nodes(bs[b]) != []
  {
    assert mid < end ==> Nodes(bs[mid]) != [];
  }

  /** `hash_map_range`, its iterators given by their bucket indices. */
  class Range {
    const buckets: seq<Slot>
    const width: nat
    const grainsize: nat
    var begin: nat
    var end: nat
    var mid: nat

    ghost predicate Valid()
      reads this
    {
      && 1 <= |buckets| < Pow2(width) && width >= 1 && grainsize >= 1
      && begin <= mid <= end <= |buckets|
      && IsPlace(buckets, begin) && IsPlace(buckets, end) && IsPlace(buckets, mid)
      && (begin == mid ==> begin == end) && Halfway()
    }

    /** The midpoint is the first bucket with nodes in the second half, if the range is large enough. */
    ghost predicate Halfway()
      reads this
    {
      IsMid(buckets, begin, end, grainsize, mid)
    }

    ghost function Elements(): seq<Node>
      requires Valid()
      reads this
    {
      NodesBetween(buckets, begin, end)
    }

    predicate IsEmpty()
      reads this
    {
      begin == end
    }

    predicate IsDivisible()
      reads this
    {
      mid != end
    }

    /** A range is divisible exactly if it has more buckets than the grain size, and nodes in its
        second half; it is then divided at the first bucket there that has any. */
    lemma DivisibleWhen()
      requires Valid()
      ensures IsDivisible() <==>
                end - begin > grainsize && exists b :: begin + (end - begin) / 2 <= b < end && Nodes(buckets[b]) != []
      ensures IsDivisible() ==> begin + (end - begin) / 2 <= mid < end && Nodes(buckets[mid]) != []
      ensures IsDivisible() ==> forall b :: begin + (end - begin) / 2 <= b < mid ==> Nodes(buckets[b]) == []
    {
      MidIs(buckets, begin, end, grainsize, mid);
    }

    /** Only the empty range has no nodes. */
    lemma EmptyMeansNone()
      requires Valid()
      ensures IsEmpty() <==> Elements() == []
    {
    }

    /** The range of a whole table. */
    constructor (buckets: seq<Slot>, width: nat, grainsize: nat)
      requires 1 <= |buckets| < Pow2(width) && width >= 1 && grainsize >= 1
      ensures Valid() && this.buckets == buckets && this.width == width && this.grainsize == grainsize
      ensures FirstFrom(buckets, 0, begin) && end == |buckets| && Elements() == NodesBetween(buckets, 0, |buckets|)
    {
      this.buckets, this.width, this.grainsize := buckets, width, grainsize;
      var first := new Iterator(buckets, width, 0);
      AllFromFirst(buckets, first.index);
      begin, end, mid := first.index, |buckets|, |buckets|;
      new;
      SetMidpoint();
    }

    /** `set_midpoint` */
    method SetMidpoint()
      requires 1 <= |buckets| < Pow2(width) && width >= 1 && grainsize >= 1
      requires begin <= end <= |buckets| && IsPlace(buckets, begin) && IsPlace(buckets, end)
      modifies this`mid
      ensures Valid()
      ensures IsDivisible() <==>
                end - begin > grainsize && exists b :: begin + (end - begin) / 2 <= b < end && Nodes(buckets[b]) != []
      ensures IsMid(buckets, begin, end, grainsize, mid)
    {
      mid := FindMidpoint();
      MidIs(buckets, begin, end, grainsize, mid);
    }

    method FindMidpoint() returns (m: nat)
      requires 1 <= |buckets| < Pow2(width) && width >= 1 && grainsize >= 1 && begin <= end <= |buckets|
      ensures IsMid(buckets, begin, end, grainsize, m)
    {
      var size := end - begin;
      if size > grainsize {
        var it := new Iterator(buckets, width, begin + size / 2);
        m := it.index;
      } else {
        m := end;
      }
    }

    /** The splitting constructor, as a method of the range `r` that is split. */
    method Split() returns (second: Range)
      requires Valid() && IsDivisible()
      modifies this
      ensures fresh(second) && Valid() && second.Valid() && second.buckets == buckets
      ensures second.width == width && second.grainsize == grainsize
      ensures begin == old(begin) && end == old(mid) == second.begin && second.end == old(end)
      ensures !IsEmpty() && !second.IsEmpty()
      ensures Elements() + second.Elements() == old(Elements())
    {
      BetweenJoins(buckets, begin, mid, end);
      second := new Range.Part(buckets, width, grainsize, mid, end);
      end := mid;
      SetMidpoint();
    }

    constructor Part(buckets: seq<Slot>, width: nat, grainsize: nat, begin: nat, end: nat)
      requires 1 <= |buckets| < Pow2(width) && width >= 1 && grainsize >= 1
      requires begin <= end <= |buckets| && IsPlace(buckets, begin) && IsPlace(buckets, end)
      ensures Valid() && this.buckets == buckets && this.begin == begin && this.end == end
      ensures this.width == width && this.grainsize == grainsize
    {
      this.buckets, this.width, this.grainsize := buckets, width, grainsize;
      this.begin, this.end, this.mid := begin, end, end;
      new;
      SetMidpoint();
    }
  }
}
