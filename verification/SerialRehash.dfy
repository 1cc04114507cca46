/** What `mark_rehashed_levels` and the redistribution in `rehash()` do to a table. */
module SerialRehash {
  import opened Bits
  import opened BucketChain
  import opened HashMapProtocol
  import opened BucketTable
  import opened BucketSplitting

  ghost predicate ChildrenOpen(bs: seq<Slot>, h: nat) {
    forall c: nat {:trigger Parent(c)} :: 2 <= c < |bs| && Parent(c) == h ==> bs[c].Chain?
  }

  ghost predicate IsNew(before: seq<Slot>, bs: seq<Slot>, b: nat)
    requires b < |before| == |bs|
  {
    before[b].Unsplit? && bs[b].Chain?
  }

  /** Bucket `b` is as it was, or it is one that marking below `h` has opened. */
  ghost predicate MarkedAt(before: seq<Slot>, bs: seq<Slot>, h: nat, b: nat)
    requires b < |before| == |bs|
  {
    || bs[b] == before[b]
    || (&& before[b].Unsplit? && bs[b] == Chain([]) && b >= 2
        && (Parent(b) == h || IsNew(before, bs, Parent(b)))
        && ChildrenOpen(bs, b))
  }

  /** The children of `h` in segments below `s` are open. */
  ghost predicate MarkedBelow(before: seq<Slot>, bs: seq<Slot>, h: nat, s: nat) {
    && |bs| == |before|
    && (forall b: nat {:trigger MarkedAt(before, bs, h, b)} :: b < |bs| ==> MarkedAt(before, bs, h, b))
    && (forall c: nat {:trigger Parent(c)} :: 2 <= c < |bs| && Parent(c) == h && Log2(c) < s ==> bs[c].Chain?)
  }

  /** The outcome of `mark_rehashed_levels( h )`. */
  ghost predicate LevelsMarked(before: seq<Slot>, bs: seq<Slot>, h: nat) {
    && |bs| == |before|
    && (forall b: nat {:trigger MarkedAt(before, bs, h, b)} :: b < |bs| ==> MarkedAt(before, bs, h, b))
    && ChildrenOpen(bs, h)
  }

  /** The bucket at offset `h` of segment `s` is the child of `h` in that segment, the only one. */
  lemma ChildInSegment(h: nat, s: nat)
    requires 1 <= s && h < Pow2(s)
    ensures var c := Pow2(s) + h; c >= 2 && Log2(c) == s && Parent(c) == h
    ensures forall c: nat {:trigger Parent(c)} :: 2 <= c && Log2(c) == s && Parent(c) == h ==> c == Pow2(s) + h
  {
    ChildAt(h, s);
    forall c: nat {:trigger Parent(c)} | 2 <= c && Log2(c) == s && Parent(c) == h
      ensures c == Pow2(s) + h
    {
      ParentOffset(c);
    }
  }

  lemma ChildAt(h: nat, s: nat)
    requires 1 <= s && h < Pow2(s)
    ensures var c := Pow2(s) + h; c >= 2 && Log2(c) == s && Parent(c) == h
  {
    var c := Pow2(s) + h;
    assert Pow2(1) == 2 * Pow2(0) == 2;
    Pow2Monotone(1, s);
    Log2Unique(c, s);
    ModUnique(c, Pow2(s), 1, h);
  }

  lemma ParentOffset(c: nat)
    requires c >= 2
    ensures c == Pow2(Log2(c)) + Parent(c)
  {
    ModUnique(c, Pow2(Log2(c)), 1, c - Pow2(Log2(c)));
  }

  lemma MarkChild(before: seq<Slot>, bs: seq<Slot>, h: nat, s: nat, c: nat, mid: seq<Slot>, after: seq<Slot>)
    requires 1 <= s && h < Pow2(s) && c == Pow2(s) + h < |bs| && MarkedBelow(before, bs, h, s)
    requires bs[c].Unsplit? && mid == bs[c := Chain([])] && LevelsMarked(mid, after, c)
    ensures MarkedBelow(before, after, h, s + 1)
  {
    ChildAt(h, s);
    MarkedAgain(before, bs, h, c, mid, after);
    MarkedNextSegment(before, bs, h, s, c, mid, after);
  }

  lemma MarkedAgain(before: seq<Slot>, bs: seq<Slot>, h: nat, c: nat, mid: seq<Slot>, after: seq<Slot>)
    requires |before| == |bs| && c < |bs| && bs[c].Unsplit? && c >= 2 && Parent(c) == h
    requires mid == bs[c := Chain([])] && LevelsMarked(mid, after, c)
    requires forall b: nat {:trigger MarkedAt(before, bs, h, b)} :: b < |bs| ==> MarkedAt(before, bs, h, b)
    ensures |after| == |before|
    ensures forall b: nat {:trigger MarkedAt(before, after, h, b)} :: b < |bs| ==> MarkedAt(before, after, h, b)
  {
    MarkedOpens(mid, after, c);
    forall b: nat | b < |bs|
      ensures MarkedAt(before, after, h, b)
    {
      MarkChildAt(before, bs, h, c, after, b);
    }
  }

  lemma MarkedNextSegment(before: seq<Slot>, bs: seq<Slot>, h: nat, s: nat, c: nat, mid: seq<Slot>, after: seq<Slot>)
    requires 1 <= s && h < Pow2(s) && c == Pow2(s) + h < |bs| && MarkedBelow(before, bs, h, s)
    requires mid == bs[c := Chain([])] && LevelsMarked(mid, after, c)
    ensures forall d: nat {:trigger Parent(d)} ::
      2 <= d < |after| && Parent(d) == h && Log2(d) < s + 1 ==> after[d].Chain?
  {
    ChildInSegment(h, s);
    MarkedOpens(mid, after, c);
    forall d: nat {:trigger Parent(d)} | 2 <= d < |bs| && Parent(d) == h && Log2(d) < s + 1
      ensures after[d].Chain?
    {
      assert Log2(d) == s ==> d == c;
    }
  }

  lemma MarkedOpens(before: seq<Slot>, bs: seq<Slot>, h: nat)
    requires LevelsMarked(before, bs, h)
    ensures forall b: nat :: b < |bs| && before[b].Chain? ==> bs[b].Chain?
  {
    forall b: nat | b < |bs| && before[b].Chain?
      ensures bs[b].Chain?
    {
      assert MarkedAt(before, bs, h, b);
    }
  }

  lemma MarkChildAt(before: seq<Slot>, bs: seq<Slot>, h: nat, c: nat, after: seq<Slot>, b: nat)
    requires |before| == |bs| && c < |bs| && bs[c].Unsplit? && c >= 2 && Parent(c) == h && b < |bs|
    requires LevelsMarked(bs[c := Chain([])], after, c)
    requires forall b: nat {:trigger MarkedAt(before, bs, h, b)} :: b < |bs| ==> MarkedAt(before, bs, h, b)
    requires forall b: nat :: b < |bs| && bs[b].Chain? ==> after[b].Chain?
    ensures MarkedAt(before, after, h, b)
  {
    var mid := bs[c := Chain([])];
    assert MarkedAt(before, bs, h, b) && MarkedAt(mid, after, c, b) && MarkedAt(mid, after, c, c);
    assert MarkedAt(before, bs, h, c);
    if b != c && bs[b].Unsplit? && after[b].Chain? && Parent(b) != c {
      assert MarkedAt(before, bs, h, Parent(b));
    }
  }

  // ---------------------------------------------------------------- what marking means for nodes

  /** A bucket that was open and lies above a newly opened one on a chain lies above `h`. */
  lemma {:induction false} NewIsBelow(before: seq<Slot>, bs: seq<Slot>, h: nat, code: nat, c: nat, b: nat)
    requires LevelsMarked(before, bs, h) && c < |bs| && IsNew(before, bs, c) && OnChain(code, c)
    requires b < |bs| && before[b].Chain? && b != h && OnChain(code, b) && Depth(b) < Depth(c)
    ensures OnChain(code, h) && Depth(b) < Depth(h)
    decreases c
  {
    assert MarkedAt(before, bs, h, c);
    ParentAdjacent(code, b, c);
    if Parent(c) != h {
      NewIsBelow(before, bs, h, code, Parent(c), b);
    }
  }

  /** Marking leaves the nodes of all other buckets at home. */
  lemma MarkedStayHome(before: seq<Slot>, bs: seq<Slot>, h: nat, b: nat)
    requires LevelsMarked(before, bs, h) && h < |bs| && before[h].Chain? && Placed(before, {})
    requires b < |bs| && b != h
    ensures AllHome(bs, {}, b, Nodes(bs[b]))
  {
    assert MarkedAt(before, bs, h, b);
    assert AllHome(before, {}, b, Nodes(before[b]));
    forall n | n in Nodes(bs[b])
      ensures IsHome(bs, {}, n.key.hash, b)
    {
      var code := n.key.hash;
      assert IsHome(before, {}, code, b);
      forall c: nat | c < |bs| && OnChain(code, c) && Depth(b) < Depth(c)
        ensures Shut(bs, {}, c)
      {
        assert Shut(before, {}, c);
        if IsNew(before, bs, c) {
          NewIsBelow(before, bs, h, code, c, b);
        }
      }
    }
  }

  /** Every bucket of a chain below `h` that was not open all the way down is open now. */
  lemma {:induction false} OpenBelow(before: seq<Slot>, bs: seq<Slot>, h: nat, code: nat, c: nat)
    requires LevelsMarked(before, bs, h) && h < |bs| && before[h].Chain? && bs[h].Chain?
    requires c < |bs| && OnChain(code, c) && OnChain(code, h) && Depth(h) <= Depth(c)
    requires forall d: nat :: d < |bs| && OnChain(code, d) && Depth(h) < Depth(d) <= Depth(c) ==> before[d].Unsplit?
    ensures bs[c].Chain?
    decreases c
  {
    if Depth(h) == Depth(c) {
      ChainUnique(code, h, c);
    } else {
      ParentAdjacent(code, h, c);
      var p := Parent(c);
      if p != h {
        OpenBelow(before, bs, h, code, p);
        assert MarkedAt(before, bs, h, p);
      }
    }
  }

  // ---------------------------------------------------------------- redistribution

  /** The nodes of `h` are being handed to the buckets that the mask selects; the first `i` that
      are left belong to `h`. */
  ghost predicate Spreading(before: seq<Slot>, marked: seq<Slot>, bs: seq<Slot>, h: nat, i: nat, k: nat)
  {
    && h < |bs| == |marked| == |before| == Pow2(k) && k >= 1
    && LevelsMarked(before, marked, h) && before[h].Chain? && Placed(before, {})
    && (forall b :: 0 <= b < |bs| ==> bs[b].Chain? == marked[b].Chain?)
    && (forall b: nat {:trigger AllHome(bs, {}, b, Nodes(bs[b]))} ::
        b < |bs| && b != h ==> AllHome(bs, {}, b, Nodes(bs[b])))
    && bs[h].Chain? && i <= |bs[h].nodes|
    && (forall n :: n in bs[h].nodes ==> n in before[h].nodes)
    && (forall j :: 0 <= j < i ==> Low(bs[h].nodes[j].key.hash, k) == h)
    && Unique(bs) && Contents(bs) == Contents(before)
  }

  /** The bucket that the mask selects is open for the nodes of `h`. */
  lemma SpreadTarget(before: seq<Slot>, marked: seq<Slot>, h: nat, k: nat, n: Node)
    requires h < |marked| == |before| == Pow2(k) && k >= 1
    requires LevelsMarked(before, marked, h) && before[h].Chain? && Placed(before, {}) && n in before[h].nodes
    ensures Low(n.key.hash, k) < |before| && marked[Low(n.key.hash, k)].Chain?
  {
    var code := n.key.hash;
    assert AllHome(before, {}, h, Nodes(before[h]));
    assert IsHome(before, {}, code, h);
    LowIsDeepest(before, k, code, h);
    assert MarkedAt(before, marked, h, h);
    forall d: nat | d < |before| && OnChain(code, d) && Depth(h) < Depth(d) <= Depth(Low(code, k))
      ensures before[d].Unsplit?
    {
      assert Shut(before, {}, d);
    }
    OpenBelow(before, marked, h, code, Low(code, k));
  }

  lemma SpreadOne(before: seq<Slot>, marked: seq<Slot>, bs: seq<Slot>, h: nat, i: nat, k: nat)
    requires Spreading(before, marked, bs, h, i, k) && i < |bs[h].nodes|
    ensures var t := Low(bs[h].nodes[i].key.hash, k);
            && t < |bs| && bs[t].Chain?
            && (t != h ==> Spreading(before, marked, Relink(bs, h, i, t), h, i, k))
  {
    var n := bs[h].nodes[i];
    var t := Low(n.key.hash, k);
    assert n in bs[h].nodes;
    SpreadTarget(before, marked, h, k, n);
    if t != h {
      var r := Relink(bs, h, i, t);
      RelinkKeeps(bs, h, i, t);
      assert KeysDiffer(Nodes(bs[h]));
      WithoutFacts(bs[h].nodes, i);
      forall b: nat | b < |bs| && b != h
        ensures AllHome(r, {}, b, Nodes(r[b]))
      {
        assert AllHome(bs, {}, b, Nodes(bs[b]));
        SameFlagsSameHome(bs, r, {}, b);
        LowIsHome(r, {}, k, n.key.hash);
      }
    }
  }

  lemma SpreadDone(before: seq<Slot>, marked: seq<Slot>, bs: seq<Slot>, h: nat, k: nat)
    requires h < |bs| && Spreading(before, marked, bs, h, |Nodes(bs[h])|, k)
    ensures Placed(bs, {})
  {
    forall b | 0 <= b < |bs|
      ensures AllHome(bs, {}, b, Nodes(bs[b]))
    {
      if b == h {
        forall n | n in Nodes(bs[h])
          ensures IsHome(bs, {}, n.key.hash, h)
        {
          var j :| 0 <= j < |bs[h].nodes| && bs[h].nodes[j] == n;
          LowIsHome(bs, {}, k, n.key.hash);
        }
      }
    }
  }

  // ---------------------------------------------------------------- steps of `rehash()`

  lemma SegmentsAbove(bs: seq<Slot>, h: nat, k: nat)
    requires k >= 1 && h < Pow2(k)
    ensures var s := 1 + if h < 2 then 0 else Log2(h); s <= k && h < Pow2(s) && MarkedBelow(bs, bs, h, s)
  {
    assert Pow2(1) == 2 * Pow2(0) == 2;
    var s := 1 + if h < 2 then 0 else Log2(h);
    if s > k {
      Pow2Monotone(k, s - 1);
    }
    forall c: nat {:trigger Parent(c)} | 2 <= c < |bs| && Parent(c) == h
      ensures Log2(c) >= s
    {
      if h >= 2 && Log2(c) <= Log2(h) {
        Pow2Monotone(Log2(c), Log2(h));
      }
    }
  }

  lemma SkipChild(before: seq<Slot>, bs: seq<Slot>, h: nat, s: nat)
    requires 1 <= s && h < Pow2(s) && Pow2(s) + h < |bs| && MarkedBelow(before, bs, h, s)
    requires bs[Pow2(s) + h].Chain?
    ensures MarkedBelow(before, bs, h, s + 1)
  {
    ChildInSegment(h, s);
    forall d: nat {:trigger Parent(d)} | 2 <= d < |bs| && Parent(d) == h && Log2(d) < s + 1
      ensures bs[d].Chain?
    {
      assert Log2(d) == s ==> d == Pow2(s) + h;
    }
  }

  lemma MarkedToTheEnd(before: seq<Slot>, bs: seq<Slot>, h: nat, s: nat, k: nat)
    requires MarkedBelow(before, bs, h, s) && |bs| == Pow2(k) && k <= s
    ensures LevelsMarked(before, bs, h)
  {
    forall c: nat {:trigger Parent(c)} | 2 <= c < |bs| && Parent(c) == h
      ensures bs[c].Chain?
    {
      if Log2(c) >= s {
        Pow2Monotone(k, Log2(c));
      }
    }
  }

  lemma OnOwnChain(b: nat)
    ensures OnChain(b, b)
  {
    DepthBounds(b);
    LowSmall(b, Depth(b));
  }

  lemma UnsplitAbove(bs: seq<Slot>, code: nat, h: nat)
    requires 2 <= h < |bs| && bs[h].Unsplit? && OnChain(code, h)
    ensures forall d: nat :: d < |bs| && OnChain(code, d) && Depth(Parent(h)) < Depth(d) <= Depth(h) ==> bs[d].Unsplit?
  {
    forall d: nat | d < |bs| && OnChain(code, d) && Depth(Parent(h)) < Depth(d) <= Depth(h)
      ensures bs[d].Unsplit?
    {
      if Depth(d) < Depth(h) {
        ParentAdjacent(code, d, h);
      } else {
        ChainUnique(code, d, h);
      }
    }
  }

  lemma MarkedIsSpreading(before: seq<Slot>, marked: seq<Slot>, h: nat, k: nat)
    requires k >= 1 && Table(before, k, {}) && h < |before| && before[h].Chain? && LevelsMarked(before, marked, h)
    ensures Spreading(before, marked, marked, h, 0, k)
  {
    assert MarkedAt(before, marked, h, h);
    forall b: nat | b < |marked|
      ensures Nodes(marked[b]) == Nodes(before[b])
    {
      assert MarkedAt(before, marked, h, b);
    }
    SameNodesSameContents(before, marked);
    SameNodesUnique(before, marked);
    forall b: nat | b < |marked| && b != h
      ensures AllHome(marked, {}, b, Nodes(marked[b]))
    {
      MarkedStayHome(before, marked, h, b);
    }
  }

  lemma SameNodesUnique(bs: seq<Slot>, r: seq<Slot>)
    requires |bs| == |r| && Unique(bs) && forall b: nat :: b < |bs| ==> Nodes(r[b]) == Nodes(bs[b])
    ensures Unique(r)
  {
    forall b | 0 <= b < |r|
      ensures KeysDiffer(Nodes(r[b]))
    {
      assert KeysDiffer(Nodes(bs[b]));
    }
    forall b, c | 0 <= b < c < |r|
      ensures Apart(Nodes(r[b]), Nodes(r[c]))
    {
      assert Apart(Nodes(bs[b]), Nodes(bs[c]));
    }
  }

  lemma SpreadIsTable(before: seq<Slot>, marked: seq<Slot>, bs: seq<Slot>, h: nat, k: nat)
    requires h < |bs| && Spreading(before, marked, bs, h, |Nodes(bs[h])|, k)
    requires Table(before, k, {}) && LastSegment(before, k)
    ensures Table(bs, k, {}) && LastSegment(bs, k) && OpensUpTo(before, bs)
    ensures forall b :: 0 <= b < |bs| && marked[b].Chain? ==> bs[b].Chain?
  {
    SpreadDone(before, marked, bs, h, k);
    MarkedOpens(before, marked, h);
    forall b: nat | b < |bs| && before[b].Unsplit?
      ensures ParentOpen(bs, b)
    {
      assert MarkedAt(before, marked, h, b);
    }
    OpensKeepsLastSegment(before, bs, k);
  }

  lemma OpensTwice(a: seq<Slot>, b: seq<Slot>, c: seq<Slot>)
    requires OpensUpTo(a, b) && OpensUpTo(b, c)
    ensures OpensUpTo(a, c)
  {
    forall d: nat | d < |c| && a[d].Unsplit?
      ensures ParentOpen(c, d)
    {
      if b[d].Chain? {
        assert ParentOpen(b, d);
      }
    }
  }

  /** When `reserve` leaves the last segment closed. */
  lemma ReservedClosed(was: seq<Slot>, bs: seq<Slot>, n: nat, size: nat)
    requires |was| >= 2 && |was| <= |bs| && bs[..|was|] == was
    requires n <= |was| ==> bs == was
    requires n > |was| ==> |was| * 2 <= |bs|
    requires forall b :: |was| <= b < |bs| ==> bs[b] == Fresh(size == 0)
    requires exists k: nat :: k >= 1 && |bs| == Pow2(k)
    ensures LastClosed(bs) <==> if n > |was| then size > 0 || AllSplit(was) else LastClosed(was)
  {
    if n > |was| && size == 0 {
      ReservedInitial(was, bs);
    } else if n > |was| {
      assert forall b: nat :: |bs| / 2 <= b < |bs| ==> ParentOpen(bs, b);
    }
  }

  lemma ParentInLast(bs: seq<Slot>, k: nat, x: nat)
    requires k >= 1 && |bs| == Pow2(k) && x < |bs| / 2 && |bs| / 2 + x >= 2
    ensures Parent(|bs| / 2 + x) == x
  {
    assert |bs| == 2 * Pow2(k - 1);
    Log2Unique(|bs| / 2 + x, k - 1);
    ModUnique(|bs| / 2 + x, Pow2(k - 1), 1, x);
  }

  lemma ReservedInitial(was: seq<Slot>, bs: seq<Slot>)
    requires |was| >= 2 && |was| * 2 <= |bs| && bs[..|was|] == was
    requires forall b :: |was| <= b < |bs| ==> bs[b] == Chain([])
    requires exists k: nat :: k >= 1 && |bs| == Pow2(k)
    ensures LastClosed(bs) <==> AllSplit(was)
  {
    var k: nat :| k >= 1 && |bs| == Pow2(k);
    assert forall b :: 0 <= b < |was| ==> bs[b] == bs[..|was|][b] == was[b];
    if LastClosed(bs) {
      forall x | 0 <= x < |was|
        ensures was[x].Chain?
      {
        ParentInLast(bs, k, x);
        assert ParentOpen(bs, |bs| / 2 + x);
      }
    }
    if AllSplit(was) {
      assert forall b: nat :: b < |bs| ==> bs[b].Chain?;
      assert forall b: nat :: |bs| / 2 <= b < |bs| ==> ParentOpen(bs, b);
    }
  }

  lemma RehashOutcome(reserved: seq<Slot>, bs: seq<Slot>, k: nat)
    requires Table(bs, k, {}) && OpensUpTo(reserved, bs) && LastFull(bs) && LastSegment(reserved, k)
    requires LastSegment(bs, k) && (LastFull(reserved) ==> bs == reserved)
    ensures AllSplit(bs) <==> LastClosed(reserved)
    ensures AllInPlace(bs, k)
  {
    if LastClosed(reserved) {
      OpensKeepsClosed(reserved, bs);
      forall x | 0 <= x < |bs|
        ensures bs[x].Chain?
      {
        if x < |bs| / 2 && x >= 2 {
          ParentInLast(bs, k, x);
          assert ParentOpen(bs, |bs| / 2 + x);
        }
      }
      SplitInPlace(bs, k);
    } else {
      assert bs == reserved;
      var b: nat :| |bs| / 2 <= b < |bs| && !ParentOpen(bs, b);
      assert bs[Parent(b)].Unsplit?;
    }
  }

  lemma SplitInPlace(bs: seq<Slot>, k: nat)
    requires Table(bs, k, {}) && AllSplit(bs)
    ensures AllInPlace(bs, k)
  {
    forall b, n | 0 <= b < |bs| && n in Nodes(bs[b])
      ensures Low(n.key.hash, k) == b
    {
      assert n in Contents(bs);
      assert AllHome(bs, {}, b, Nodes(bs[b]));
      LowIsDeepest(bs, k, n.key.hash, b);
      FoundInLow(bs, k, n);
      SamePlace(bs, Low(n.key.hash, k), b, n, n);
    }
  }
}
