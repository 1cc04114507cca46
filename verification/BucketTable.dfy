/** A table of buckets, of which some have not been split off their parents yet, and what it
    means that every node can be found. */
module BucketTable {
  import opened Bits
  import opened BucketChain
  import opened HashMapProtocol

  /** `Unsplit` is a bucket whose `node_list` is `rehash_req`. */
  datatype Slot = Unsplit | Chain(nodes: seq<Node>)

  function Nodes(s: Slot): seq<Node> {
    if s.Chain? then s.nodes else []
  }

  ghost function Contents(bs: seq<Slot>): set<Node> {
    set b, n | 0 <= b < |bs| && n in Nodes(bs[b]) :: n
  }

  /** Keys differ within a chain. */
  ghost predicate KeysDiffer(s: seq<Node>) {
    forall i, j :: 0 <= i < j < |s| ==> s[i].key != s[j].key
  }

  ghost predicate Apart(s: seq<Node>, t: seq<Node>) {
    forall n, m :: n in s && m in t ==> n.key != m.key
  }

  ghost predicate Unique(bs: seq<Slot>) {
    && (forall b {:trigger KeysDiffer(Nodes(bs[b]))} :: 0 <= b < |bs| ==> KeysDiffer(Nodes(bs[b])))
    && (forall b, c {:trigger Apart(Nodes(bs[b]), Nodes(bs[c]))} ::
        0 <= b < c < |bs| ==> Apart(Nodes(bs[b]), Nodes(bs[c])))
  }

  /** A bucket that does not take part: not split off, or about to be filled. */
  predicate Shut(bs: seq<Slot>, pending: set<nat>, c: nat)
    requires c < |bs|
  {
    bs[c].Unsplit? || c in pending
  }

  /** Bucket `b` is the deepest one that takes part on the chain of `h`. */
  ghost predicate IsHome(bs: seq<Slot>, pending: set<nat>, h: nat, b: nat) {
    OnChain(h, b) && forall c: nat {:trigger OnChain(h, c)} ::
      c < |bs| && OnChain(h, c) && Depth(b) < Depth(c) ==> Shut(bs, pending, c)
  }

  ghost predicate AllHome(bs: seq<Slot>, pending: set<nat>, b: nat, nodes: seq<Node>) {
    forall n :: n in nodes ==> IsHome(bs, pending, n.key.hash, b)
  }

  ghost predicate Placed(bs: seq<Slot>, pending: set<nat>) {
    forall b {:trigger AllHome(bs, pending, b, Nodes(bs[b]))} :: 0 <= b < |bs| ==> AllHome(bs, pending, b, Nodes(bs[b]))
  }

  /** A bucket that has been split off has a parent that has. */
  ghost predicate ParentOpen(bs: seq<Slot>, b: nat)
    requires b < |bs|
  {
    b >= 2 && bs[b].Chain? ==> bs[Parent(b)].Chain?
  }

  ghost predicate Closed(bs: seq<Slot>) {
    forall b: nat :: b < |bs| ==> ParentOpen(bs, b)
  }

  lemma SamePlace(bs: seq<Slot>, a: nat, b: nat, n: Node, m: Node)
    requires Unique(bs) && a < |bs| && b < |bs| && n in Nodes(bs[a]) && m in Nodes(bs[b]) && n.key == m.key
    ensures a == b && n == m
  {
    assert KeysDiffer(Nodes(bs[a]));
    assert a < b ==> Apart(Nodes(bs[a]), Nodes(bs[b]));
    assert b < a ==> Apart(Nodes(bs[b]), Nodes(bs[a]));
  }

  // ---------------------------------------------------------------- moving nodes

  function Without(s: seq<Node>, i: nat): seq<Node>
    requires i < |s|
  {
    s[..i] + s[i + 1..]
  }

  lemma WithoutFacts(s: seq<Node>, i: nat)
    requires i < |s| && KeysDiffer(s)
    ensures KeysDiffer(Without(s, i))
    ensures forall n :: n in Without(s, i) <==> n in s && n != s[i]
    ensures forall n :: n in Without(s, i) ==> n.key != s[i].key
  {
    var r := Without(s, i);
    forall n | n in s && n != s[i]
      ensures n in r
    {
      var j :| 0 <= j < |s| && s[j] == n;
      assert r[if j < i then j else j - 1] == n;
    }
    forall n | n in r
      ensures n in s && n.key != s[i].key
    {
      var j :| 0 <= j < |r| && r[j] == n;
      assert n == s[if j < i then j else j + 1];
    }
  }

  /** The node at `i` of bucket `p` goes to the front of bucket `t`. */
  function Relink(bs: seq<Slot>, p: nat, i: nat, t: nat): seq<Slot>
    requires p < |bs| && t < |bs| && p != t && bs[p].Chain? && bs[t].Chain? && i < |bs[p].nodes|
  {
    bs[p := Chain(Without(bs[p].nodes, i))][t := Chain([bs[p].nodes[i]] + bs[t].nodes)]
  }

  lemma RelinkKeeps(bs: seq<Slot>, p: nat, i: nat, t: nat)
    requires p < |bs| && t < |bs| && p != t && bs[p].Chain? && bs[t].Chain? && i < |bs[p].nodes|
    requires Unique(bs)
    ensures Unique(Relink(bs, p, i, t))
    ensures Contents(Relink(bs, p, i, t)) == Contents(bs)
  {
    var r, x := Relink(bs, p, i, t), bs[p].nodes[i];
    var s := bs[p].nodes;
    assert KeysDiffer(Nodes(bs[p])) && KeysDiffer(Nodes(bs[t]));
    WithoutFacts(s, i);
    assert Nodes(r[p]) == Without(s, i) && Nodes(r[t]) == [x] + bs[t].nodes;
    assert forall n :: n in Nodes(r[p]) ==> n in s && n.key != x.key;
    assert forall n :: n in Nodes(r[t]) <==> n == x || n in bs[t].nodes;
    assert Apart(bs[t].nodes, s) by {
      assert Apart(Nodes(bs[if p < t then p else t]), Nodes(bs[if p < t then t else p]));
    }
    MoveKeepsApart(bs, p, i, t);
    MoveKeepsContents(bs, p, i, t);
    assert x in s;
    assert KeysDiffer(Nodes(r[t]));
  }

  lemma MoveKeepsApart(bs: seq<Slot>, p: nat, i: nat, t: nat)
    requires p < |bs| && t < |bs| && p != t && bs[p].Chain? && bs[t].Chain? && i < |bs[p].nodes|
    requires Unique(bs)
    ensures var r := Relink(bs, p, i, t);
            forall b, c :: 0 <= b < c < |r| ==> Apart(Nodes(r[b]), Nodes(r[c]))
  {
    var r, x := Relink(bs, p, i, t), bs[p].nodes[i];
    assert KeysDiffer(Nodes(bs[p]));
    WithoutFacts(bs[p].nodes, i);
    forall b, c | 0 <= b < c < |r|
      ensures Apart(Nodes(r[b]), Nodes(r[c]))
    {
      assert Apart(Nodes(bs[b]), Nodes(bs[c]));
      forall n, m | n in Nodes(r[b]) && m in Nodes(r[c])
        ensures n.key != m.key
      {
        if b == t && n == x && c != p {
          assert Apart(Nodes(bs[if p < c then p else c]), Nodes(bs[if p < c then c else p]));
          assert x in bs[p].nodes && m in Nodes(bs[c]);
        } else if c == t && m == x && b != p {
          assert Apart(Nodes(bs[if p < b then p else b]), Nodes(bs[if p < b then b else p]));
          assert x in bs[p].nodes && n in Nodes(bs[b]);
        }
      }
    }
  }

  lemma MoveKeepsContents(bs: seq<Slot>, p: nat, i: nat, t: nat)
    requires p < |bs| && t < |bs| && p != t && bs[p].Chain? && bs[t].Chain? && i < |bs[p].nodes|
    requires Unique(bs)
    ensures Contents(Relink(bs, p, i, t)) == Contents(bs)
  {
    var r, x := Relink(bs, p, i, t), bs[p].nodes[i];
    assert KeysDiffer(Nodes(bs[p]));
    WithoutFacts(bs[p].nodes, i);
    forall n
      ensures n in Contents(r) <==> n in Contents(bs)
    {
      if n in Contents(bs) {
        var b :| 0 <= b < |bs| && n in Nodes(bs[b]);
        assert n in Nodes(r[if b == p && n == x then t else b]);
      }
      if n in Contents(r) {
        var b :| 0 <= b < |r| && n in Nodes(r[b]);
        assert n in Nodes(bs[if b == t && n == x then p else b]);
      }
    }
  }

  /** Where a node is found: nowhere but in its home, and under no other value. */
  lemma FoundAtHome(bs: seq<Slot>, pending: set<nat>, n: Node, h: nat)
    requires Placed(bs, pending) && n in Contents(bs)
    requires h < |bs| && bs[h].Chain? && h !in pending && OnChain(n.key.hash, h)
    requires forall c: nat :: c < |bs| && OnChain(n.key.hash, c) ==> Depth(c) <= Depth(h)
    ensures n in Nodes(bs[h])
  {
    var b :| 0 <= b < |bs| && n in Nodes(bs[b]);
    assert AllHome(bs, pending, b, Nodes(bs[b]));
    assert IsHome(bs, pending, n.key.hash, b);
    if Depth(b) < Depth(h) {
      assert false;
    } else {
      ChainUnique(n.key.hash, b, h);
    }
  }

  /** No chain has a bucket deeper than the one that the mask selects. */
  lemma LowIsDeepest(bs: seq<Slot>, k: nat, h: nat, c: nat)
    requires k >= 1 && |bs| == Pow2(k) && c < |bs| && OnChain(h, c)
    ensures Low(h, k) < |bs| && OnChain(h, Low(h, k)) && Depth(c) <= Depth(Low(h, k))
  {
    LowOnChain(h, k);
    NothingBetween(h, k, k, c);
  }

  lemma LowIsHome(bs: seq<Slot>, pending: set<nat>, k: nat, h: nat)
    requires k >= 1 && |bs| == Pow2(k)
    ensures IsHome(bs, pending, h, Low(h, k))
  {
    LowOnChain(h, k);
    forall c: nat | c < |bs| && OnChain(h, c)
      ensures Depth(c) <= Depth(Low(h, k))
    {
      LowIsDeepest(bs, k, h, c);
    }
  }

  lemma SameFlagsSameHome(bs: seq<Slot>, r: seq<Slot>, pending: set<nat>, b: nat)
    requires |r| == |bs| && forall c :: 0 <= c < |bs| ==> bs[c].Chain? == r[c].Chain?
    ensures forall h :: IsHome(bs, pending, h, b) ==> IsHome(r, pending, h, b)
  {
    assert forall c: nat :: c < |bs| ==> Shut(bs, pending, c) == Shut(r, pending, c);
  }
}
