/** `concurrent_hash_map` used by one thread: buckets split when they are first used, growth,
    `reserve`, `rehash()`. */
module SerialHashMap {
  import opened Options
  import opened Bits
  import opened BucketChain
  import opened HashMapProtocol
  import opened BucketTable
  import opened BucketSplitting
  import opened SerialRehash

  class HashMap {
    var level: nat
    var buckets: seq<Slot>
    var size: nat

    ghost predicate Sound(pending: set<nat>)
      reads this
    {
      Table(buckets, level, pending)
    }

    ghost predicate Valid()
      reads this
    {
      Sound({}) && size == |Contents(buckets)| && LastSegment(buckets, level) && (level == 1 || level >= 8)
    }

    constructor ()
      ensures Valid() && Contents(buckets) == {} && level == 1 && Closed(buckets)
    {
      level, size := 1, 0;
      buckets := [Chain([]), Chain([])];
    }

    /** `rehash_bucket`: bucket `h` takes its nodes from its parent, which is split first if need be. */
    method RehashBucket(h: nat, ghost pending: set<nat>)
      requires Sound(pending) && 2 <= h < |buckets| && buckets[h].Unsplit?
      requires forall c :: c in pending ==> h < c
      modifies this`buckets
      ensures Sound(pending) && buckets[h].Chain? && OpensUpTo(old(buckets), buckets)
      ensures Contents(buckets) == old(Contents(buckets))
      ensures forall c :: h < c < |buckets| ==> buckets[c] == old(buckets)[c]
      decreases h
    {
      MarkPlaced(buckets, pending, h);
      buckets := buckets[h := Chain([])];
      var p := Parent(h);
      if buckets[p].Unsplit? {
        RehashBucket(p, pending + {h});
      }
      assert buckets[p].Chain? && OpensUpTo(old(buckets)[h := Chain([])], buckets);
      OpensThrough(old(buckets), buckets, h);
      ghost var marked := buckets;
      TakeFromParent(h, pending);
      SameFlagsOpens(old(buckets), marked, buckets);
    }

    /** The scan of the parent chain. */
    method TakeFromParent(h: nat, ghost pending: set<nat>)
      requires Sound(pending + {h}) && 2 <= h < |buckets| && buckets[h] == Chain([])
      requires buckets[Parent(h)].Chain? && Parent(h) !in pending
      modifies this`buckets
      ensures Sound(pending) && |buckets| == |old(buckets)|
      ensures Contents(buckets) == old(Contents(buckets))
      ensures forall c :: 0 <= c < |buckets| ==> buckets[c].Chain? == old(buckets)[c].Chain?
      ensures forall c :: 0 <= c < |buckets| && c != h && c != Parent(h) ==> buckets[c] == old(buckets)[c]
    {
      var p := Parent(h);
      ghost var before := buckets;
      var i := 0;
      while i < |buckets[p].nodes|
        invariant Filling(before, buckets, h, p, i)
        decreases if buckets[p].Chain? then |buckets[p].nodes| - i else 0
      {
        if OnChain(buckets[p].nodes[i].key.hash, h) {
          MoveKeepsFilling(before, buckets, h, p, i);
          buckets := Relink(buckets, p, i, h);
        } else {
          i := i + 1;
        }
      }
      FilledIsPlaced(before, buckets, h, pending);
    }

    /** `bucket_accessor`: the bucket that the mask selects, split off if it has not been. */
    method Acquire(code: nat) returns (b: nat)
      requires Valid()
      modifies this`buckets
      ensures Valid() && Contents(buckets) == old(Contents(buckets))
      ensures b == Low(code, level) < |buckets| && buckets[b].Chain?
      ensures OpensUpTo(old(buckets), buckets)
      ensures old(buckets)[Low(code, level)].Chain? ==> buckets == old(buckets)
    {
      b := Low(code, level);
      if buckets[b].Unsplit? {
        RehashBucket(b, {});
        OpensKeepsLastSegment(old(buckets), buckets, level);
      }
    }

    /** `search_bucket`: where the key is in a chain, or the chain's length. */
    static method SearchBucket(key: Key, s: seq<Node>) returns (i: nat)
      ensures i <= |s| && (i < |s| ==> s[i].key == key)
      ensures i == |s| ==> forall n :: n in s ==> n.key != key
    {
      i := 0;
      while i < |s| && s[i].key != key
        invariant i <= |s| && forall j :: 0 <= j < i ==> s[j].key != key
      {
        i := i + 1;
      }
    }

    lemma AbsentFromLow(key: Key)
      requires Valid()
      requires buckets[Low(key.hash, level)].Chain?
      requires forall n :: n in buckets[Low(key.hash, level)].nodes ==> n.key != key
      ensures forall n :: n in Contents(buckets) ==> n.key != key
    {
      forall n | n in Contents(buckets)
        ensures n.key != key
      {
        if n.key == key {
          FoundInLow(buckets, level, n);
        }
      }
    }

    lemma OneNodePerKey(b: nat, n: Node)
      requires Valid() && b < |buckets| && n in Nodes(buckets[b])
      ensures forall m :: m in Contents(buckets) && m.key == n.key ==> m == n
    {
      forall m | m in Contents(buckets) && m.key == n.key
        ensures m == n
      {
        var c :| 0 <= c < |buckets| && m in Nodes(buckets[c]);
        SamePlace(buckets, b, c, n, m);
      }
    }

    /** `find`: the value under the key, whatever has been split so far. */
    method Find(key: Key) returns (r: Option<int>)
      requires Valid()
      modifies this`buckets
      ensures Valid() && Contents(buckets) == old(Contents(buckets))
      ensures r.Some? ==> Node(key, r.value) in Contents(buckets)
      ensures r.None? ==> forall n :: n in Contents(buckets) ==> n.key != key
      ensures OpensUpTo(old(buckets), buckets) && (old(Closed(buckets)) ==> Closed(buckets))
    {
      var b := Acquire(key.hash);
      OpensKeepsClosed(old(buckets), buckets);
      var i := SearchBucket(key, buckets[b].nodes);
      if i < |buckets[b].nodes| {
        r := Some(buckets[b].nodes[i].val);
        assert buckets[b].nodes[i] in Nodes(buckets[b]);
      } else {
        r := None;
        AbsentFromLow(key);
      }
    }

    /** `internal_equal_range`: the same without splitting anything. */
    method EqualRange(key: Key) returns (r: Option<int>)
      requires Valid()
      ensures r.Some? ==> Node(key, r.value) in Contents(buckets)
      ensures r.None? ==> forall n :: n in Contents(buckets) ==> n.key != key
    {
      var b := HomeBucket(key.hash);
      var i := SearchBucket(key, buckets[b].nodes);
      if i < |buckets[b].nodes| {
        r := Some(buckets[b].nodes[i].val);
        assert buckets[b].nodes[i] in Nodes(buckets[b]);
      } else {
        r := None;
        AbsentFromHome(key, b);
      }
    }

    /** The first bucket that has been split off, from the one that the mask selects up. */
    method HomeBucket(code: nat) returns (b: nat)
      requires Valid()
      ensures b < |buckets| && buckets[b].Chain? && IsHome(buckets, {}, code, b)
    {
      b := Low(code, level);
      LowIsHome(buckets, {}, level, code);
      while buckets[b].Unsplit?
        invariant b < |buckets| && IsHome(buckets, {}, code, b)
        decreases b
      {
        ParentIsNext(code, b);
        b := Parent(b);
      }
    }

    lemma ParentIsNext(code: nat, b: nat)
      requires Valid() && b < |buckets| && buckets[b].Unsplit? && IsHome(buckets, {}, code, b)
      ensures b >= 2 && IsHome(buckets, {}, code, Parent(b))
    {
      ParentOnChain(code, b);
      forall c: nat | c < |buckets| && OnChain(code, c) && Depth(Parent(b)) < Depth(c)
        ensures Shut(buckets, {}, c)
      {
        if Depth(b) < Depth(c) {
          assert Shut(buckets, {}, c);
        } else if Depth(c) < Depth(b) {
          ParentAdjacent(code, c, b);
          assert false;
        } else {
          ChainUnique(code, b, c);
        }
      }
    }

    lemma AbsentFromHome(key: Key, b: nat)
      requires Valid() && b < |buckets| && buckets[b].Chain? && IsHome(buckets, {}, key.hash, b)
      requires forall n :: n in buckets[b].nodes ==> n.key != key
      ensures forall n :: n in Contents(buckets) ==> n.key != key
    {
      forall n | n in Contents(buckets)
        ensures n.key != key
      {
        var c :| 0 <= c < |buckets| && n in Nodes(buckets[c]);
        assert AllHome(buckets, {}, c, Nodes(buckets[c]));
        if n.key == key {
          OneHome(buckets, key.hash, b, c);
        }
      }
    }

    /** `enable_segment` */
    method EnableSegment(initial: bool)
      requires Valid() && (initial ==> size == 0)
      modifies this`buckets, this`level
      ensures Valid() && level == EnabledLevel(old(level)) && |buckets| == Pow2(level) > |old(buckets)|
      ensures Contents(buckets) == old(Contents(buckets))
      ensures |buckets| == if |old(buckets)| == 2 then 256 else 2 * |old(buckets)|
      ensures buckets == old(buckets) + seq(|buckets| - |old(buckets)|, _ => Fresh(initial))
    {
      var k := EnabledLevel(level);
      Pow2StrictlyMonotone(level, k);
      GrowKeeps(buckets, Pow2(k) - |buckets|, initial);
      buckets := buckets + seq(Pow2(k) - |buckets|, _ => Fresh(initial));
      level := k;
      GrownLastSegment(old(buckets), buckets, initial, level);
    }

    /** `insert`: adds the node unless its key is there, and may grow the table; `insert_new_node`
        decides so by the number of nodes. */
    method Insert(key: Key, val: int) returns (isNew: bool)
      requires Valid()
      modifies this
      ensures Valid()
      ensures isNew <==> forall n :: n in old(Contents(buckets)) ==> n.key != key
      ensures Contents(buckets) == if isNew then old(Contents(buckets)) + {Node(key, val)} else old(Contents(buckets))
      ensures |buckets| == if !isNew || |old(Contents(buckets))| + 1 < |old(buckets)| - 1 then |old(buckets)|
                           else if |old(buckets)| == 2 then 256 else 2 * |old(buckets)|
      ensures old(Closed(buckets)) ==> Closed(buckets)
      ensures forall b :: |old(buckets)| <= b < |buckets| ==> buckets[b].Unsplit?
    {
      var b := Acquire(key.hash);
      OpensKeepsClosed(old(buckets), buckets);
      var i := SearchBucket(key, buckets[b].nodes);
      if i < |buckets[b].nodes| {
        assert buckets[b].nodes[i] in Nodes(buckets[b]);
        return false;
      }
      AbsentFromLow(key);
      isNew := true;
      InsertNewNode(b, Node(key, val));
    }

    /** `insert_new_node`, and the growth that it asks for. */
    method InsertNewNode(b: nat, n: Node)
      requires Valid() && b == Low(n.key.hash, level) < |buckets| && buckets[b].Chain?
      requires forall m :: m in Contents(buckets) ==> m.key != n.key
      modifies this
      ensures Valid() && Contents(buckets) == old(Contents(buckets)) + {n}
      ensures |buckets| == if |old(Contents(buckets))| + 1 < |old(buckets)| - 1 then |old(buckets)|
                           else if |old(buckets)| == 2 then 256 else 2 * |old(buckets)|
      ensures old(Closed(buckets)) ==> Closed(buckets)
      ensures forall b :: |old(buckets)| <= b < |buckets| ==> buckets[b].Unsplit?
    {
      AddToBucket(b, n);
      if size >= |buckets| - 1 {
        ghost var was := buckets;
        EnableSegment(false);
        GrownClosed(was, buckets);
      }
    }

    /** `add_to_bucket`, and the count. */
    method AddToBucket(b: nat, n: Node)
      requires Valid() && b == Low(n.key.hash, level) < |buckets| && buckets[b].Chain?
      requires forall m :: m in Contents(buckets) ==> m.key != n.key
      modifies this`buckets, this`size
      ensures Valid() && |buckets| == |old(buckets)| && size == old(size) + 1
      ensures Contents(buckets) == old(Contents(buckets)) + {n}
      ensures old(Closed(buckets)) ==> Closed(buckets)
    {
      var r := buckets[b := Chain([n] + buckets[b].nodes)];
      AddKeepsTable(buckets, b, n, level);
      size := size + 1;
      buckets := r;
      assert Table(buckets, level, {});
    }

    /** `erase` */
    method Erase(key: Key) returns (removed: bool)
      requires Valid()
      modifies this`buckets, this`size
      ensures Valid()
      ensures removed <==> exists n :: n in old(Contents(buckets)) && n.key == key
      ensures Contents(buckets) == set n | n in old(Contents(buckets)) && n.key != key
      ensures old(Closed(buckets)) ==> Closed(buckets)
      ensures old(buckets)[Low(key.hash, level)].Chain? ==>
                |buckets| == |old(buckets)|
                && forall b :: 0 <= b < |buckets| ==> buckets[b].Chain? == old(buckets)[b].Chain?
    {
      var b := Acquire(key.hash);
      OpensKeepsClosed(old(buckets), buckets);
      var i := SearchBucket(key, buckets[b].nodes);
      removed := i < |buckets[b].nodes|;
      if removed {
        RemoveFromBucket(b, i);
      } else {
        AbsentFromLow(key);
      }
    }

    method RemoveFromBucket(b: nat, i: nat)
      requires Valid() && b < |buckets| && buckets[b].Chain? && i < |buckets[b].nodes|
      modifies this`buckets, this`size
      ensures Valid()
      ensures old(buckets[b].nodes[i]) in old(Contents(buckets))
      ensures Contents(buckets) == set n | n in old(Contents(buckets)) && n.key != old(buckets[b].nodes[i].key)
      ensures old(Closed(buckets)) ==> Closed(buckets)
      ensures |buckets| == |old(buckets)|
              && forall b :: 0 <= b < |buckets| ==> buckets[b].Chain? == old(buckets)[b].Chain?
    {
      ghost var n := buckets[b].nodes[i];
      assert n in Nodes(buckets[b]);
      OneNodePerKey(b, n);
      assert n in Contents(buckets);
      RemoveKeeps(buckets, b, i);
      size := size - 1;
      buckets := buckets[b := Chain(Without(buckets[b].nodes, i))];
      SameFlagsSameSegment(old(buckets), buckets, level);
    }

    /** `reserve` */
    method Reserve(n: nat)
      requires Valid()
      modifies this`buckets, this`level
      ensures Valid() && Contents(buckets) == old(Contents(buckets))
      ensures |buckets| >= n && |buckets| >= |old(buckets)| && buckets[..|old(buckets)|] == old(buckets)
      ensures n <= |old(buckets)| ==> buckets == old(buckets)
      ensures n > |old(buckets)| ==> |old(buckets)| * 2 <= |buckets| && (|buckets| == 256 || |buckets| < 2 * n)
      ensures forall b :: |old(buckets)| <= b < |buckets| ==> buckets[b] == Fresh(size == 0)
    {
      var initial := size == 0;
      while n > |buckets|
        invariant Valid() && Contents(buckets) == old(Contents(buckets))
        invariant |buckets| >= |old(buckets)| && buckets[..|old(buckets)|] == old(buckets)
        invariant n <= |old(buckets)| ==> buckets == old(buckets)
        invariant buckets == old(buckets)
               || (|old(buckets)| * 2 <= |buckets| && (|buckets| == 256 || |buckets| < 2 * n))
        invariant forall b :: |old(buckets)| <= b < |buckets| ==> buckets[b] == Fresh(initial)
        decreases n - |buckets|
      {
        EnableSegment(initial);
      }
    }

    /** `mark_rehashed_levels`: opens everything below bucket `h` that is reached through buckets
        that were not open. */
    method MarkRehashedLevels(h: nat)
      requires level >= 1 && h < |buckets| == Pow2(level)
      modifies this`buckets
      ensures LevelsMarked(old(buckets), buckets, h)
      decreases |buckets| - h
    {
      var s := 1 + if h < 2 then 0 else Log2(h);
      ghost var before := buckets;
      SegmentsAbove(before, h, level);
      while s < level
        invariant 1 <= s && h < Pow2(s) && s <= level
        invariant MarkedBelow(before, buckets, h, s) && |before| == Pow2(level)
        decreases level - s
      {
        var c := Pow2(s) + h;
        Pow2StrictlyMonotone(s, level);
        if buckets[c].Unsplit? {
          ghost var was := buckets;
          buckets := buckets[c := Chain([])];
          ghost var mid := buckets;
          MarkRehashedLevels(c);
          MarkChild(before, was, h, s, c, mid, buckets);
        } else {
          SkipChild(before, buckets, h, s);
        }
        s := s + 1;
      }
      MarkedToTheEnd(before, buckets, h, s, level);
    }

    /** The nearest open bucket above `b`. */
    method RootOf(b: nat) returns (h: nat)
      requires Valid() && b < |buckets| && buckets[b].Unsplit?
      ensures h < |buckets| && buckets[h].Chain? && OnChain(b, h) && OnChain(b, b) && Depth(h) < Depth(b)
      ensures forall d: nat :: d < |buckets| && OnChain(b, d) && Depth(h) < Depth(d) <= Depth(b) ==> buckets[d].Unsplit?
    {
      OnOwnChain(b);
      h := b;
      while buckets[h].Unsplit?
        invariant h < |buckets| && OnChain(b, h) && Depth(h) <= Depth(b)
        invariant h != b ==> Depth(h) < Depth(b)
        invariant forall d: nat ::
                d < |buckets| && OnChain(b, d) && Depth(h) < Depth(d) <= Depth(b) ==> buckets[d].Unsplit?
        decreases h
      {
        ParentShallower(h);
        ParentOnChain(b, h);
        UnsplitAbove(buckets, b, h);
        h := Parent(h);
      }
    }

    /** `rehash()` on a bucket of the last segment that is not open: opens the buckets below its
        nearest open ancestor, and hands them the nodes of that ancestor. */
    method OpenLast(b: nat)
      requires Valid() && b < |buckets| && buckets[b].Unsplit?
      modifies this`buckets
      ensures Valid() && Contents(buckets) == old(Contents(buckets))
      ensures OpensUpTo(old(buckets), buckets) && buckets[b].Chain?
    {
      ghost var before := buckets;
      var h := RootOf(b);
      MarkRehashedLevels(h);
      ghost var marked := buckets;
      MarkedOpens(before, marked, h);
      OpenBelow(before, marked, h, b, b);
      MarkedIsSpreading(before, marked, h, level);
      var i := 0;
      while i < |buckets[h].nodes|
        invariant h < |buckets| && Spreading(before, marked, buckets, h, i, level)
        decreases |Nodes(buckets[h])| - i
      {
        SpreadOne(before, marked, buckets, h, i, level);
        var t := Low(buckets[h].nodes[i].key.hash, level);
        if t != h {
          buckets := Relink(buckets, h, i, t);
        } else {
          i := i + 1;
        }
      }
      SpreadIsTable(before, marked, buckets, h, level);
    }

    /** `rehash()`: the items stay, every node is in the bucket that the mask selects, and all
        buckets are open, unless they were closed below a segment that `reserve` opened. */
    method Rehash(n: nat)
      requires Valid()
      modifies this`buckets, this`level
      ensures Valid() && Contents(buckets) == old(Contents(buckets))
      ensures |buckets| >= n && if n <= |old(buckets)| then |buckets| == |old(buckets)|
                                else |buckets| > |old(buckets)| && (|buckets| == 256 || |buckets| < 2 * n)
      ensures AllInPlace(buckets, level)
      ensures AllSplit(buckets) <==> if n > |old(buckets)| then old(size) > 0 || old(AllSplit(buckets))
                                     else old(LastClosed(buckets))
    {
      Reserve(n);
      ghost var reserved := buckets;
      ReservedClosed(old(buckets), reserved, n, size);
      var b := |buckets| / 2;
      while b < |buckets|
        invariant |buckets| / 2 <= b <= |buckets| == |reserved| && Valid()
        invariant Contents(buckets) == old(Contents(buckets))
        invariant OpensUpTo(reserved, buckets) && (LastFull(reserved) ==> buckets == reserved)
        invariant forall c :: |buckets| / 2 <= c < b ==> buckets[c].Chain?
      {
        if buckets[b].Unsplit? {
          ghost var was := buckets;
          OpenLast(b);
          OpensTwice(reserved, was, buckets);
        }
        b := b + 1;
      }
      RehashOutcome(reserved, buckets, level);
    }

    /** `rehash()` need not open all buckets: a table grows, is emptied, and is given more buckets. */
    static method RehashMayLeaveUnsplit(key: Key, val: int) returns (m: HashMap)
      requires key.hash == 0
      ensures fresh(m) && m.Valid() && !AllSplit(m.buckets)
    {
      m := new HashMap();
      var b := m.Insert(key, val);
      assert |m.buckets| == 256;
      assert m.buckets[200].Unsplit?;
      LowSmall(0, m.level);
      b := m.Erase(key);
      assert Contents(m.buckets) == {};
      m.Rehash(512);
    }
  }
}
