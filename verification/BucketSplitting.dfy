/** What the operations of the hash map do to its table: a bucket takes its nodes from its
    parent, nodes come and go, the table grows. */
module BucketSplitting {
  import opened Bits
  import opened BucketChain
  import opened HashMapProtocol
  import opened BucketTable

  // ---------------------------------------------------------------- splitting one bucket

  /** While bucket `h` is being filled from its parent `p`: `before` is the table when the scan
      began, and the first `i` nodes of `p` have been looked at. */
  ghost predicate Filling(before: seq<Slot>, bs: seq<Slot>, h: nat, p: nat, i: nat)
  {
    && p < h < |bs| == |before|
    && (forall b :: 0 <= b < |bs| && b != h && b != p ==> bs[b] == before[b])
    && bs[h].Chain? && bs[p].Chain? && before[p].Chain? && before[h] == Chain([])
    && i <= |bs[p].nodes|
    && (forall n :: n in bs[p].nodes ==> n in before[p].nodes)
    && (forall n :: n in bs[h].nodes ==> n in before[p].nodes && OnChain(n.key.hash, h))
    && (forall j :: 0 <= j < i ==> !OnChain(bs[p].nodes[j].key.hash, h))
    && Unique(bs) && Contents(bs) == Contents(before)
  }

  lemma MoveKeepsFilling(before: seq<Slot>, bs: seq<Slot>, h: nat, p: nat, i: nat)
    requires Filling(before, bs, h, p, i) && i < |bs[p].nodes| && OnChain(bs[p].nodes[i].key.hash, h)
    ensures Filling(before, Relink(bs, p, i, h), h, p, i)
  {
    RelinkKeeps(bs, p, i, h);
    assert KeysDiffer(Nodes(bs[p]));
    WithoutFacts(bs[p].nodes, i);
    assert bs[p].nodes[i] in bs[p].nodes;
  }

  /** Once the parent has been scanned, the new bucket takes part. */
  lemma FilledIsPlaced(before: seq<Slot>, bs: seq<Slot>, h: nat, pending: set<nat>)
    requires 2 <= h < |bs| && Filling(before, bs, h, Parent(h), |Nodes(bs[Parent(h)])|) && Parent(h) !in pending
    requires Placed(before, pending + {h})
    ensures Placed(bs, pending)
  {
    var p := Parent(h);
    forall b, n | 0 <= b < |bs| && n in Nodes(bs[b])
      ensures IsHome(bs, pending, n.key.hash, b)
    {
      var from := if b == h then p else b;
      assert AllHome(before, pending + {h}, from, Nodes(before[from]));
      assert IsHome(before, pending + {h}, n.key.hash, from);
      if b == h {
        FromParent(before, bs, pending, h, n.key.hash);
      } else {
        StaysHome(before, bs, pending, h, b, n);
      }
    }
    forall b | 0 <= b < |bs|
      ensures AllHome(bs, pending, b, Nodes(bs[b]))
    {
    }
  }

  lemma FromParent(before: seq<Slot>, bs: seq<Slot>, pending: set<nat>, h: nat, code: nat)
    requires 2 <= h < |bs| == |before| && OnChain(code, h)
    requires forall b :: 0 <= b < |bs| && bs[b].Chain? ==> before[b].Chain?
    requires IsHome(before, pending + {h}, code, Parent(h))
    ensures IsHome(bs, pending, code, h)
  {
    ParentShallower(h);
    forall c: nat | c < |bs| && OnChain(code, c) && Depth(h) < Depth(c)
      ensures Shut(bs, pending, c)
    {
      assert Shut(before, pending + {h}, c);
    }
  }

  lemma StaysHome(before: seq<Slot>, bs: seq<Slot>, pending: set<nat>, h: nat, b: nat, n: Node)
    requires 2 <= h < |bs| && Filling(before, bs, h, Parent(h), |Nodes(bs[Parent(h)])|) && Parent(h) !in pending
    requires b < |bs| && b != h && n in Nodes(bs[b])
    requires IsHome(before, pending + {h}, n.key.hash, b)
    ensures IsHome(bs, pending, n.key.hash, b)
  {
    var code, p := n.key.hash, Parent(h);
    forall c: nat | c < |bs| && OnChain(code, c) && Depth(b) < Depth(c)
      ensures Shut(bs, pending, c)
    {
      assert Shut(before, pending + {h}, c);
      if c == h {
        // h is on the chain below b, so b can only be the parent, and n would have moved
        ParentAdjacent(code, b, h);
        assert false;
      }
    }
  }

  /** Marking `h` as split off, with nothing in it yet, moves no node. */
  lemma MarkPlaced(bs: seq<Slot>, pending: set<nat>, h: nat)
    requires h < |bs| && bs[h].Unsplit? && Placed(bs, pending) && Unique(bs)
    ensures Placed(bs[h := Chain([])], pending + {h}) && Unique(bs[h := Chain([])])
    ensures Contents(bs[h := Chain([])]) == Contents(bs)
  {
    var r := bs[h := Chain([])];
    assert forall b :: 0 <= b < |bs| ==> Nodes(r[b]) == Nodes(bs[b]);
    forall b | 0 <= b < |r|
      ensures AllHome(r, pending + {h}, b, Nodes(r[b]))
    {
      assert AllHome(bs, pending, b, Nodes(bs[b]));
      forall n | n in Nodes(r[b])
        ensures IsHome(r, pending + {h}, n.key.hash, b)
      {
        assert IsHome(bs, pending, n.key.hash, b);
        assert forall c: nat :: c < |bs| && Shut(bs, pending, c) ==> Shut(r, pending + {h}, c);
      }
    }
    assert forall b, c :: 0 <= b < c < |bs| ==> Apart(Nodes(bs[b]), Nodes(bs[c])) ==> Apart(Nodes(r[b]), Nodes(r[c]));
    SameNodesSameContents(bs, r);
  }

  lemma SameNodesSameContents(bs: seq<Slot>, r: seq<Slot>)
    requires |bs| <= |r| && forall b :: 0 <= b < |bs| ==> Nodes(r[b]) == Nodes(bs[b])
    requires forall b :: |bs| <= b < |r| ==> Nodes(r[b]) == []
    ensures Contents(r) == Contents(bs)
  {
    forall n
      ensures n in Contents(r) <==> n in Contents(bs)
    {
      if n in Contents(bs) {
        var b :| 0 <= b < |bs| && n in Nodes(bs[b]);
        assert n in Nodes(r[b]);
      }
      if n in Contents(r) {
        var b :| 0 <= b < |r| && n in Nodes(r[b]);
        assert n in Nodes(bs[b]);
      }
    }
  }

  /** What has been split stays so; what is new has an open parent. */
  ghost predicate OpensUpTo(before: seq<Slot>, bs: seq<Slot>) {
    && |bs| == |before|
    && (forall b :: 0 <= b < |bs| && before[b].Chain? ==> bs[b].Chain?)
    && (forall b: nat :: b < |bs| && before[b].Unsplit? ==> ParentOpen(bs, b))
  }

  lemma OpensThrough(was: seq<Slot>, bs: seq<Slot>, h: nat)
    requires 2 <= h < |was| && was[h].Unsplit? && OpensUpTo(was[h := Chain([])], bs) && bs[Parent(h)].Chain?
    ensures OpensUpTo(was, bs)
  {
  }

  lemma SameFlagsOpens(was: seq<Slot>, a: seq<Slot>, b: seq<Slot>)
    requires OpensUpTo(was, a) && |a| == |b| && forall c :: 0 <= c < |a| ==> a[c].Chain? == b[c].Chain?
    ensures OpensUpTo(was, b)
  {
    forall c: nat | c < |b| && was[c].Unsplit?
      ensures ParentOpen(b, c)
    {
      assert ParentOpen(a, c);
    }
  }

  ghost predicate AllSplit(bs: seq<Slot>) {
    forall b :: 0 <= b < |bs| ==> bs[b].Chain?
  }

  /** Every node is in the bucket that the mask of `k` bits selects. */
  ghost predicate AllInPlace(bs: seq<Slot>, k: nat) {
    forall b, n :: 0 <= b < |bs| && n in Nodes(bs[b]) ==> Low(n.key.hash, k) == b
  }

  ghost predicate LastClosed(bs: seq<Slot>) {
    forall b: nat :: |bs| / 2 <= b < |bs| ==> ParentOpen(bs, b)
  }

  ghost predicate LastFull(bs: seq<Slot>) {
    forall b :: |bs| / 2 <= b < |bs| ==> bs[b].Chain?
  }

  /** In the last segment only buckets with open parents are open; or all are, after `reserve`
      on an empty table. */
  ghost predicate LastSegment(bs: seq<Slot>, k: nat) {
    LastClosed(bs) || (LastFull(bs) && AllInPlace(bs, k))
  }

  /** With the bucket open that the mask selects, a node that is anywhere is there. */
  lemma FoundInLow(bs: seq<Slot>, k: nat, n: Node)
    requires k >= 1 && |bs| == Pow2(k) && Placed(bs, {}) && n in Contents(bs)
    requires bs[Low(n.key.hash, k)].Chain?
    ensures n in Nodes(bs[Low(n.key.hash, k)])
  {
    var h := n.key.hash;
    LowOnChain(h, k);
    forall c: nat | c < |bs| && OnChain(h, c)
      ensures Depth(c) <= Depth(Low(h, k))
    {
      LowIsDeepest(bs, k, h, c);
    }
    FoundAtHome(bs, {}, n, Low(h, k));
  }

  lemma OpensKeepsClosed(before: seq<Slot>, bs: seq<Slot>)
    requires OpensUpTo(before, bs)
    ensures Closed(before) ==> Closed(bs)
    ensures LastClosed(before) ==> LastClosed(bs)
    ensures LastFull(before) ==> LastFull(bs)
  {
    forall b: nat | b < |bs| && ParentOpen(before, b)
      ensures ParentOpen(bs, b)
    {
    }
    if Closed(before) {
      assert forall b: nat :: b < |bs| ==> ParentOpen(before, b);
    }
    if LastClosed(before) {
      assert forall b: nat :: |bs| / 2 <= b < |bs| ==> ParentOpen(before, b);
    }
  }

  lemma InPlaceStays(before: seq<Slot>, bs: seq<Slot>, k: nat)
    requires k >= 1 && |bs| == |before| == Pow2(k) && Placed(bs, {}) && Unique(bs)
    requires Contents(bs) == Contents(before) && AllInPlace(before, k)
    requires forall b :: 0 <= b < |bs| && before[b].Chain? ==> bs[b].Chain?
    ensures AllInPlace(bs, k)
  {
    forall b, n | 0 <= b < |bs| && n in Nodes(bs[b])
      ensures Low(n.key.hash, k) == b
    {
      assert n in Contents(before);
      var a :| 0 <= a < |before| && n in Nodes(before[a]);
      FoundInLow(bs, k, n);
      SamePlace(bs, Low(n.key.hash, k), b, n, n);
    }
  }

  lemma OpensKeepsLastSegment(before: seq<Slot>, bs: seq<Slot>, k: nat)
    requires k >= 1 && |bs| == Pow2(k) && Placed(bs, {}) && Unique(bs)
    requires Contents(bs) == Contents(before) && OpensUpTo(before, bs) && LastSegment(before, k)
    ensures LastSegment(bs, k)
  {
    OpensKeepsClosed(before, bs);
    if !LastClosed(before) {
      InPlaceStays(before, bs, k);
    }
  }

  lemma OneHome(bs: seq<Slot>, h: nat, b: nat, c: nat)
    requires b < |bs| && c < |bs| && bs[b].Chain? && bs[c].Chain?
    requires IsHome(bs, {}, h, b) && IsHome(bs, {}, h, c)
    ensures b == c
  {
    if Depth(b) == Depth(c) {
      ChainUnique(h, b, c);
    }
  }

  /** A table whose mask has `k` bits: the embedded buckets, or those and all segments below `k`. */
  ghost predicate Table(bs: seq<Slot>, k: nat, pending: set<nat>) {
    && (k == 1 || k >= 8) && |bs| == Pow2(k) >= 2
    && bs[0].Chain? && bs[1].Chain?
    && Placed(bs, pending) && Unique(bs)
  }

  // ---------------------------------------------------------------- adding and removing a node

  lemma AddKeeps(bs: seq<Slot>, b: nat, n: Node)
    requires b < |bs| && bs[b].Chain? && Unique(bs) && Placed(bs, {}) && IsHome(bs, {}, n.key.hash, b)
    requires forall m :: m in Contents(bs) ==> m.key != n.key
    ensures var r := bs[b := Chain([n] + bs[b].nodes)];
            Unique(r) && Placed(r, {}) && Contents(r) == Contents(bs) + {n}
  {
    var r := bs[b := Chain([n] + bs[b].nodes)];
    assert forall c, m :: 0 <= c < |bs| && m in Nodes(bs[c]) ==> m in Contents(bs);
    assert forall m :: m in Nodes(r[b]) <==> m == n || m in bs[b].nodes;
    forall c | 0 <= c < |r|
      ensures AllHome(r, {}, c, Nodes(r[c])) && KeysDiffer(Nodes(r[c]))
    {
      assert AllHome(bs, {}, c, Nodes(bs[c])) && KeysDiffer(Nodes(bs[c]));
      SameFlagsSameHome(bs, r, {}, c);
    }
    forall c, d | 0 <= c < d < |r|
      ensures Apart(Nodes(r[c]), Nodes(r[d]))
    {
      assert Apart(Nodes(bs[c]), Nodes(bs[d]));
    }
    AddedContents(bs, b, n);
  }

  lemma AddedContents(bs: seq<Slot>, b: nat, n: Node)
    requires b < |bs| && bs[b].Chain?
    ensures Contents(bs[b := Chain([n] + bs[b].nodes)]) == Contents(bs) + {n}
  {
    var r := bs[b := Chain([n] + bs[b].nodes)];
    assert forall m :: m in Nodes(r[b]) <==> m == n || m in Nodes(bs[b]);
    forall m
      ensures m in Contents(r) <==> m in Contents(bs) + {n}
    {
      if m in Contents(bs) {
        var c :| 0 <= c < |bs| && m in Nodes(bs[c]);
        assert m in Nodes(r[c]);
      }
      assert n in Nodes(r[b]);
    }
  }

  lemma RemoveKeeps(bs: seq<Slot>, b: nat, i: nat)
    requires b < |bs| && bs[b].Chain? && i < |bs[b].nodes| && Unique(bs) && Placed(bs, {})
    ensures var r := bs[b := Chain(Without(bs[b].nodes, i))];
            Unique(r) && Placed(r, {}) && Contents(r) == Contents(bs) - {bs[b].nodes[i]}
  {
    var n := bs[b].nodes[i];
    var r := bs[b := Chain(Without(bs[b].nodes, i))];
    assert KeysDiffer(Nodes(bs[b]));
    WithoutFacts(bs[b].nodes, i);
    forall c | 0 <= c < |r|
      ensures AllHome(r, {}, c, Nodes(r[c])) && KeysDiffer(Nodes(r[c]))
    {
      assert AllHome(bs, {}, c, Nodes(bs[c])) && KeysDiffer(Nodes(bs[c]));
      SameFlagsSameHome(bs, r, {}, c);
    }
    forall c, d | 0 <= c < d < |r|
      ensures Apart(Nodes(r[c]), Nodes(r[d]))
    {
      assert Apart(Nodes(bs[c]), Nodes(bs[d]));
    }
    RemovedContents(bs, b, i);
  }

  lemma RemovedContents(bs: seq<Slot>, b: nat, i: nat)
    requires b < |bs| && bs[b].Chain? && i < |bs[b].nodes| && Unique(bs)
    ensures Contents(bs[b := Chain(Without(bs[b].nodes, i))]) == Contents(bs) - {bs[b].nodes[i]}
  {
    var n := bs[b].nodes[i];
    var r := bs[b := Chain(Without(bs[b].nodes, i))];
    assert KeysDiffer(Nodes(bs[b]));
    WithoutFacts(bs[b].nodes, i);
    forall m
      ensures m in Contents(r) <==> m in Contents(bs) - {n}
    {
      if m in Contents(bs) && m != n {
        var c :| 0 <= c < |bs| && m in Nodes(bs[c]);
        assert m in Nodes(r[c]);
      }
      if m in Contents(r) {
        var c :| 0 <= c < |r| && m in Nodes(r[c]);
        assert m in Nodes(bs[c]);
        if c != b {
          assert Apart(Nodes(bs[if b < c then b else c]), Nodes(bs[if b < c then c else b]));
          assert n in bs[b].nodes;
        }
      }
    }
  }

  // ---------------------------------------------------------------- growth

  function Fresh(initial: bool): Slot {
    if initial then Chain([]) else Unsplit
  }

  lemma GrowKeeps(bs: seq<Slot>, more: nat, initial: bool)
    requires Unique(bs) && Placed(bs, {}) && (initial ==> Contents(bs) == {})
    ensures var r := bs + seq(more, _ => Fresh(initial)); Unique(r) && Placed(r, {}) && Contents(r) == Contents(bs)
  {
    var r := bs + seq(more, _ => Fresh(initial));
    assert forall b :: |bs| <= b < |r| ==> Nodes(r[b]) == [];
    SameNodesSameContents(bs, r);
    forall b | 0 <= b < |r|
      ensures AllHome(r, {}, b, Nodes(r[b])) && KeysDiffer(Nodes(r[b]))
    {
      if b < |bs| {
        assert AllHome(bs, {}, b, Nodes(bs[b])) && KeysDiffer(Nodes(bs[b]));
        forall n | n in Nodes(r[b])
          ensures IsHome(r, {}, n.key.hash, b)
        {
          assert n in Contents(bs);
          assert IsHome(bs, {}, n.key.hash, b);
          assert forall c: nat :: c < |bs| ==> Shut(r, {}, c) == Shut(bs, {}, c);
        }
      }
    }
    forall b, c | 0 <= b < c < |r|
      ensures Apart(Nodes(r[b]), Nodes(r[c]))
    {
      if c < |bs| {
        assert Apart(Nodes(bs[b]), Nodes(bs[c]));
      }
    }
  }

  lemma SomethingThere(bs: seq<Slot>, b: nat)
    requires b < |bs| && Nodes(bs[b]) != []
    ensures Contents(bs) != {}
  {
    var n := Nodes(bs[b])[0];
    assert n in Nodes(bs[b]);
    assert n in Contents(bs);
  }

  lemma NothingAnywhere(bs: seq<Slot>)
    requires Contents(bs) == {}
    ensures forall b :: 0 <= b < |bs| ==> Nodes(bs[b]) == []
  {
    forall b | 0 <= b < |bs|
      ensures Nodes(bs[b]) == []
    {
      if Nodes(bs[b]) != [] {
        SomethingThere(bs, b);
      }
    }
  }

  lemma GrownLastSegment(before: seq<Slot>, bs: seq<Slot>, initial: bool, k: nat)
    requires 2 * |before| <= |bs| && (initial ==> Contents(bs) == {})
    requires bs == before + seq(|bs| - |before|, _ => Fresh(initial))
    ensures LastSegment(bs, k)
  {
    assert forall b :: |before| <= b < |bs| ==> bs[b] == Fresh(initial);
    if initial {
      NothingAnywhere(bs);
    } else {
      forall b: nat | |bs| / 2 <= b < |bs|
        ensures ParentOpen(bs, b)
      {
        assert bs[b] == Fresh(initial);
      }
    }
  }

  lemma SameFlagsSameSegment(bs: seq<Slot>, r: seq<Slot>, k: nat)
    requires |r| == |bs| && forall c :: 0 <= c < |bs| ==> bs[c].Chain? == r[c].Chain?
    requires k >= 1 && |bs| == Pow2(k) && LastSegment(bs, k)
    requires forall b, n :: 0 <= b < |bs| && n in Nodes(r[b]) ==> n in Nodes(bs[b]) || Low(n.key.hash, k) == b
    ensures LastSegment(r, k) && (Closed(bs) ==> Closed(r))
  {
    assert forall b: nat :: b < |bs| ==> ParentOpen(bs, b) == ParentOpen(r, b);
    if LastClosed(bs) {
      assert LastClosed(r);
    } else {
      assert LastFull(r);
      assert AllInPlace(r, k);
    }
  }

  lemma AddKeepsSegment(bs: seq<Slot>, b: nat, n: Node, k: nat)
    requires b < |bs| && bs[b].Chain? && Low(n.key.hash, k) == b
    requires k >= 1 && |bs| == Pow2(k) && LastSegment(bs, k)
    ensures var r := bs[b := Chain([n] + bs[b].nodes)]; LastSegment(r, k) && (Closed(bs) ==> Closed(r))
  {
    var r := bs[b := Chain([n] + bs[b].nodes)];
    forall c, m | 0 <= c < |bs| && m in Nodes(r[c])
      ensures m in Nodes(bs[c]) || Low(m.key.hash, k) == c
    {
      if c == b {
        assert m == n || m in bs[b].nodes;
      }
    }
    SameFlagsSameSegment(bs, r, k);
  }

  lemma AddKeepsTable(bs: seq<Slot>, b: nat, n: Node, k: nat)
    requires Table(bs, k, {}) && LastSegment(bs, k)
    requires b == Low(n.key.hash, k) < |bs| && bs[b].Chain?
    requires forall m :: m in Contents(bs) ==> m.key != n.key
    ensures var r := bs[b := Chain([n] + bs[b].nodes)];
            && Table(r, k, {}) && LastSegment(r, k) && (Closed(bs) ==> Closed(r))
            && Contents(r) == Contents(bs) + {n} && |Contents(r)| == |Contents(bs)| + 1
  {
    LowIsHome(bs, {}, k, n.key.hash);
    AddKeeps(bs, b, n);
    AddKeepsSegment(bs, b, n, k);
    assert n !in Contents(bs);
  }

  lemma GrownClosed(before: seq<Slot>, bs: seq<Slot>)
    requires |before| <= |bs| && bs[..|before|] == before
    requires forall b :: |before| <= b < |bs| ==> bs[b].Unsplit?
    ensures Closed(before) ==> Closed(bs)
  {
    if Closed(before) {
      forall b: nat | b < |bs|
        ensures ParentOpen(bs, b)
      {
        if b < |before| {
          assert ParentOpen(before, b);
          assert bs[b] == bs[..|before|][b];
          assert b >= 2 ==> bs[Parent(b)] == bs[..|before|][Parent(b)];
        }
      }
    }
  }
}
