/** `parallel_sort`: quicksort whose ranges are split in place, and a test whether there is
    anything to sort. */
module ParallelSort {
  import opened Orders
  import opened RangePool
  import opened Partitioner
  import opened ParallelFor

  // ---------------------------------------------------------------- elements that stay within a range

  /** Only elements of `[b, e)` have changed places, among themselves. */
  ghost predicate Permuted<T>(s: seq<T>, r: seq<T>, b: nat, e: nat) {
    && b <= e <= |s| == |r|
    && (forall k :: 0 <= k < b || e <= k < |s| ==> r[k] == s[k])
    && multiset(r[b..e]) == multiset(s[b..e])
  }

  lemma SwapPermuted<T>(s: seq<T>, b: nat, e: nat, i: nat, j: nat)
    requires b <= i < e <= |s| && b <= j < e
    ensures Permuted(s, Exchanged(s, i, j), b, e)
  {
    var r := Exchanged(s, i, j);
    var q := s[b..e];
    assert r[b..e] == q[i - b := q[j - b]][j - b := q[i - b]];
  }

  // ---------------------------------------------------------------- the splitting constructor

  ghost predicate NoneAbove<T>(less: (T, T) -> bool, s: seq<T>, lo: nat, hi: nat, x: T)
    requires hi <= |s|
  {
    forall k :: lo <= k < hi ==> !less(x, s[k])
  }

  ghost predicate NoneBelow<T>(less: (T, T) -> bool, s: seq<T>, lo: nat, hi: nat, x: T)
    requires hi <= |s|
  {
    forall k :: lo <= k < hi ==> !less(s[k], x)
  }

  /** The elements of the interval come before `x`, and after it. */
  ghost predicate AllBelow<T>(less: (T, T) -> bool, s: seq<T>, lo: nat, hi: nat, x: T)
    requires hi <= |s|
  {
    forall k :: lo <= k < hi ==> less(s[k], x)
  }

  ghost predicate AllAbove<T>(less: (T, T) -> bool, s: seq<T>, lo: nat, hi: nat, x: T)
    requires hi <= |s|
  {
    forall k :: lo <= k < hi ==> less(x, s[k])
  }

  function MedianOfThree<T>(less: (T, T) -> bool, s: seq<T>, l: nat, m: nat, r: nat): (x: nat)
    requires l < |s| && m < |s| && r < |s|
    ensures x == l || x == m || x == r
  {
    if less(s[l], s[m]) then
      if less(s[m], s[r]) then m else if less(s[l], s[r]) then r else l
    else
      if less(s[r], s[m]) then m else if less(s[r], s[l]) then r else l
  }

  predicate Pair(p: nat, q: nat, i: nat, j: nat) {
    (p == i && q == j) || (p == j && q == i)
  }

  /** `x` is one of three places, and the others are `p` and `q`, one on each side of it. */
  ghost predicate Between<T>(less: (T, T) -> bool, s: seq<T>, l: nat, m: nat, r: nat, x: nat, p: nat, q: nat)
    requires l < |s| && m < |s| && r < |s|
  {
    && ((x == l && Pair(p, q, m, r)) || (x == m && Pair(p, q, l, r)) || (x == r && Pair(p, q, l, m)))
    && !less(s[x], s[p]) && !less(s[q], s[x])
  }

  /** The others of three are one on each side of their median. */
  lemma MedianSplits<T(!new)>(less: (T, T) -> bool, s: seq<T>, l: nat, m: nat, r: nat) returns (p: nat, q: nat)
    requires StrictWeak(less) && l < |s| && m < |s| && r < |s| && l != m && l != r && m != r
    ensures Between(less, s, l, m, r, MedianOfThree(less, s, l, m, r), p, q)
  {
    var x := MedianOfThree(less, s, l, m, r);
    p, q := if x == l then m else l, if x == r then m else r;
    if less(s[x], s[p]) || less(s[q], s[x]) {
      p, q := q, p;
    }
  }

  function PseudoMedianOfNine<T>(less: (T, T) -> bool, s: seq<T>): (x: nat)
    requires |s| > 0
    ensures x < |s|
  {
    var offset := |s| / 8;
    MedianOfThree(less, s, MedianOfThree(less, s, 0, offset, offset * 2),
                  MedianOfThree(less, s, offset * 3, offset * 4, offset * 5),
                  MedianOfThree(less, s, offset * 6, offset * 7, |s| - 1))
  }

  /** A sample with the two others of its three: one not above it, and one not below. */
  datatype Three = Three(x: nat, below: nat, above: nat)

  ghost predicate Samples<T>(less: (T, T) -> bool, s: seq<T>, t: Three, lo: nat, hi: nat) {
    && hi <= |s| && lo <= t.x < hi && lo <= t.below < hi && lo <= t.above < hi
    && t.x != t.below && t.x != t.above && t.below != t.above
    && !less(s[t.x], s[t.below]) && !less(s[t.above], s[t.x])
  }

  /** Three of the other samples are not above the pseudo median, and three are not below. */
  lemma PseudoMedianSplits<T(!new)>(less: (T, T) -> bool, s: seq<T>) returns (below: set<nat>, above: set<nat>)
    requires StrictWeak(less) && |s| >= 16
    ensures OnSides(less, s, PseudoMedianOfNine(less, s), below, above)
  {
    var o := |s| / 8;
    var t1 := MedianOf(less, s, 0, o, o * 2);
    var t2 := MedianOf(less, s, o * 3, o * 4, o * 5);
    var t3 := MedianOf(less, s, o * 6, o * 7, |s| - 1);
    below, above := MedianOfMedians(less, s, t1, t2, t3, o * 3, o * 6);
  }

  lemma MedianOf<T(!new)>(less: (T, T) -> bool, s: seq<T>, l: nat, m: nat, r: nat) returns (t: Three)
    requires StrictWeak(less) && l < m < r < |s|
    ensures t.x == MedianOfThree(less, s, l, m, r) && Samples(less, s, t, l, r + 1)
  {
    var p, q := MedianSplits(less, s, l, m, r);
    t := Three(MedianOfThree(less, s, l, m, r), p, q);
  }

  lemma MedianOfMedians<T(!new)>(less: (T, T) -> bool, s: seq<T>, t1: Three, t2: Three, t3: Three, i: nat, j: nat)
    returns (below: set<nat>, above: set<nat>)
    requires StrictWeak(less) && i <= j <= |s|
    requires Samples(less, s, t1, 0, i) && Samples(less, s, t2, i, j) && Samples(less, s, t3, j, |s|)
    ensures OnSides(less, s, MedianOfThree(less, s, t1.x, t2.x, t3.x), below, above)
  {
    InParts(less, s, t1, t2, t3, i, j);
    var x := MedianOfThree(less, s, t1.x, t2.x, t3.x);
    var p, q := MedianSplits(less, s, t1.x, t2.x, t3.x);
    if x == t1.x {
      below, above := EitherWay(less, s, t1, t2, t3, p, q);
    } else if x == t2.x {
      below, above := EitherWay(less, s, t2, t1, t3, p, q);
    } else {
      below, above := EitherWay(less, s, t3, t1, t2, p, q);
    }
  }

  lemma EitherWay<T(!new)>(less: (T, T) -> bool, s: seq<T>, t: Three, u: Three, v: Three, p: nat, q: nat)
    returns (below: set<nat>, above: set<nat>)
    requires StrictWeak(less) && Samples(less, s, t, 0, |s|) && Samples(less, s, u, 0, |s|)
    requires Samples(less, s, v, 0, |s|) && Differ(t, u) && Differ(t, v) && Differ(u, v) && Differ(v, u)
    requires Pair(p, q, u.x, v.x) && !less(s[t.x], s[p]) && !less(s[q], s[t.x])
    ensures OnSides(less, s, t.x, below, above)
  {
    if p == u.x {
      below, above := ThreeEachSide(less, s, t, u, v);
    } else {
      below, above := ThreeEachSide(less, s, t, v, u);
    }
  }

  lemma InParts<T>(less: (T, T) -> bool, s: seq<T>, t1: Three, t2: Three, t3: Three, i: nat, j: nat)
    requires i <= j <= |s|
    requires Samples(less, s, t1, 0, i) && Samples(less, s, t2, i, j) && Samples(less, s, t3, j, |s|)
    ensures Samples(less, s, t1, 0, |s|) && Samples(less, s, t2, 0, |s|) && Samples(less, s, t3, 0, |s|)
    ensures Differ(t1, t2) && Differ(t1, t3) && Differ(t2, t3)
    ensures Differ(t2, t1) && Differ(t3, t1) && Differ(t3, t2)
  {
  }

  /** No sample of the one three is one of the other. */
  predicate Differ(t: Three, u: Three) {
    && t.x != u.x && t.x != u.below && t.x != u.above
    && t.below != u.x && t.below != u.below && t.below != u.above
    && t.above != u.x && t.above != u.below && t.above != u.above
  }

  lemma ThreeEachSide<T(!new)>(less: (T, T) -> bool, s: seq<T>, t: Three, u: Three, v: Three)
    returns (below: set<nat>, above: set<nat>)
    requires StrictWeak(less) && Samples(less, s, t, 0, |s|) && Samples(less, s, u, 0, |s|)
    requires Samples(less, s, v, 0, |s|) && Differ(t, u) && Differ(t, v) && Differ(u, v)
    requires !less(s[t.x], s[u.x]) && !less(s[v.x], s[t.x])
    ensures OnSides(less, s, t.x, below, above)
  {
    below, above := {t.below, u.x, u.below}, {t.above, v.x, v.above};
  }

  ghost predicate OnSides<T>(less: (T, T) -> bool, s: seq<T>, x: nat, below: set<nat>, above: set<nat>)
    requires x < |s|
  {
    && |below| == |above| == 3 && below !! above && x !in below + above
    && (forall p :: p in below ==> p < |s| && !less(s[x], s[p]))
    && (forall q :: q in above ==> q < |s| && !less(s[q], s[x]))
  }

  /** `std::swap` of two elements of `[b, e)` */
  method Swap<T>(a: array<T>, i: nat, j: nat, ghost b: nat, ghost e: nat)
    requires b <= i < e <= a.Length && b <= j < e
    modifies a
    ensures a[..] == Exchanged(old(a[..]), i, j)
    ensures multiset(a[b..e]) == old(multiset(a[b..e]))
    ensures forall k :: 0 <= k < b || e <= k < a.Length ==> a[k] == old(a[k])
  {
    ghost var s, r := a[..], Exchanged(a[..], i, j);
    SwapPermuted(s, b, e, i, j);
    assert s[b..e] == a[b..e];
    a[i], a[j] := a[j], a[i];
    assert a[..] == r;
    assert r[b..e] == a[b..e];
  }

  ghost function Exchanged<T>(s: seq<T>, i: nat, j: nat): (r: seq<T>)
    requires i < |s| && j < |s|
    ensures |r| == |s|
  {
    s[i := s[j]][j := s[i]]
  }

  /** `do --j; while( comp( key, array[j] ) )`; `array[i]` stops it. */
  method ScanDown<T(!new)>(less: (T, T) -> bool, a: array<T>, b: nat, size: nat, i: nat, j: nat) returns (j': nat)
    requires StrictWeak(less) && b + size <= a.Length && i < j <= size
    requires !less(a[b], a[b + i]) && NoneBelow(less, a[..], b + j, b + size, a[b])
    ensures i <= j' < j && !less(a[b], a[b + j']) && NoneBelow(less, a[..], b + j' + 1, b + size, a[b])
    ensures AllAbove(less, a[..], b + j' + 1, b + j, a[b])
  {
    j' := j - 1;
    while less(a[b], a[b + j'])
      invariant i <= j' < j && NoneBelow(less, a[..], b + j' + 1, b + size, a[b])
      invariant AllAbove(less, a[..], b + j' + 1, b + j, a[b])
      decreases j'
    {
      j' := j' - 1;
    }
  }

  /** `do ++i; while( comp( array[i], key ) )`, which ends at `j` if not before. */
  method ScanUp<T(!new)>(less: (T, T) -> bool, a: array<T>, b: nat, size: nat, i: nat, j: nat)
    returns (i': nat, met: bool)
    requires StrictWeak(less) && b + size <= a.Length && i <= j < size
    requires !less(a[b], a[b + j]) && NoneAbove(less, a[..], b, b + i + 1, a[b])
    ensures i <= i' <= j && NoneAbove(less, a[..], b, b + i' + (if met then 1 else 0), a[b])
    ensures (met <==> i' == j) && (!met ==> i' > 0)
    ensures !met ==> !less(a[b + i'], a[b])
    ensures i < j ==> i < i' && AllBelow(less, a[..], b + i + 1, b + i', a[b])
  {
    i' := i;
    if i == j {
      return i, true;
    }
    i' := i' + 1;
    while less(a[b + i'], a[b])
      invariant i < i' <= j && NoneAbove(less, a[..], b, b + i', a[b])
      invariant AllBelow(less, a[..], b + i + 1, b + i', a[b])
      decreases j - i'
    {
      if i' == j {
        return i', true;
      }
      i' := i' + 1;
    }
    met := i' == j;
  }

  /** The splitting constructor: the range is left with `j` elements that are not above the pivot,
      which stands at `j` now, and the new range has the elements behind it, none of them below. */
  method Split<T(!new)>(less: (T, T) -> bool, a: array<T>, b: nat, size: nat) returns (j: nat)
    requires StrictWeak(less) && b + size <= a.Length && size > 0
    modifies a
    ensures j < size && multiset(a[b..b + size]) == old(multiset(a[b..b + size]))
    ensures forall k :: 0 <= k < b || b + size <= k < a.Length ==> a[k] == old(a[k])
    ensures NoneAbove(less, a[..], b, b + j, a[b + j]) && NoneBelow(less, a[..], b + j + 1, b + size, a[b + j])
    ensures a[b + j] == old(a[b + PseudoMedianOfNine(less, a[b..b + size])])
    ensures old(AllAlike(less, a[..], b, b + size)) ==> j == size / 2
  {
    ghost var was, elems := a[..], multiset(a[b..b + size]);
    ChoosePivot(less, a, b, size);
    assert multiset(a[b..b + size]) == elems;
    if AllAlike(less, was, b, b + size) {
      assert a[..][b..b + size] == a[b..b + size] && was[b..b + size] == old(a[b..b + size]);
      AlikePermuted(less, was, a[..], b, b + size);
    }
    j := PartitionLoop(less, a, b, size);
    assert multiset(a[b..b + size]) == elems;
    PlacePivot(less, a, b, j, size);
    assert multiset(a[b..b + size]) == elems;
  }

  /** The pivot goes where the scans met. */
  method PlacePivot<T(!new)>(less: (T, T) -> bool, a: array<T>, b: nat, j: nat, size: nat)
    requires StrictWeak(less) && j < size && b + size <= a.Length
    requires NoneAbove(less, a[..], b, b + j + 1, a[b]) && NoneBelow(less, a[..], b + j + 1, b + size, a[b])
    modifies a
    ensures multiset(a[b..b + size]) == old(multiset(a[b..b + size]))
    ensures forall k :: 0 <= k < b || b + size <= k < a.Length ==> a[k] == old(a[k])
    ensures NoneAbove(less, a[..], b, b + j, a[b + j]) && NoneBelow(less, a[..], b + j + 1, b + size, a[b + j])
    ensures a[b + j] == old(a[b])
  {
    ghost var r := a[..];
    PivotPlaced(less, r, b, j, size);
    Swap(a, b + j, b, b, b + size);
    assert a[..][b + j] == Exchanged(r, b + j, b)[b + j];
  }

  /** The pivot goes to the front. */
  method ChoosePivot<T>(less: (T, T) -> bool, a: array<T>, b: nat, size: nat)
    requires b + size <= a.Length && size > 0
    modifies a
    ensures multiset(a[b..b + size]) == old(multiset(a[b..b + size]))
    ensures forall k :: 0 <= k < b || b + size <= k < a.Length ==> a[k] == old(a[k])
    ensures a[b] == old(a[b + PseudoMedianOfNine(less, a[b..b + size])])
  {
    ToFront(a, b, size, PseudoMedianOfNine(less, a[b..b + size]));
  }

  method ToFront<T>(a: array<T>, b: nat, size: nat, m: nat)
    requires b + size <= a.Length && m < size
    modifies a
    ensures multiset(a[b..b + size]) == old(multiset(a[b..b + size]))
    ensures forall k :: 0 <= k < b || b + size <= k < a.Length ==> a[k] == old(a[k])
    ensures a[b] == old(a[b + m])
  {
    if m > 0 {
      ghost var s := a[..];
      Swap(a, b, b + m, b, b + size);
      assert a[..][b] == s[b + m];
    }
  }

  lemma PivotPlaced<T(!new)>(less: (T, T) -> bool, s: seq<T>, b: nat, j: nat, size: nat)
    requires StrictWeak(less) && j < size && b + size <= |s|
    requires NoneAbove(less, s, b, b + j + 1, s[b]) && NoneBelow(less, s, b + j + 1, b + size, s[b])
    ensures var r := Exchanged(s, b + j, b);
            NoneAbove(less, r, b, b + j, r[b + j]) && NoneBelow(less, r, b + j + 1, b + size, r[b + j])
  {
  }

  /** Exchanging an element that is not below the pivot with a later one that is not above. */
  lemma SidesExchanged<T>(less: (T, T) -> bool, s: seq<T>, b: nat, i: nat, j: nat, size: nat)
    requires 0 < i < j < size && b + size <= |s|
    requires NoneAbove(less, s, b, b + i, s[b]) && NoneBelow(less, s, b + j + 1, b + size, s[b])
    requires !less(s[b], s[b + j]) && !less(s[b + i], s[b])
    ensures var r := Exchanged(s, b + i, b + j);
            NoneAbove(less, r, b, b + i + 1, r[b]) && NoneBelow(less, r, b + j, b + size, r[b]) && r[b] == s[b]
  {
  }

  /** Exchanges the two elements at which the scans stopped. */
  method ExchangeSides<T>(less: (T, T) -> bool, a: array<T>, b: nat, i: nat, j: nat, size: nat)
    requires 0 < i < j < size && b + size <= a.Length
    requires NoneAbove(less, a[..], b, b + i, a[b]) && NoneBelow(less, a[..], b + j + 1, b + size, a[b])
    requires !less(a[b], a[b + j]) && !less(a[b + i], a[b])
    modifies a
    ensures multiset(a[b..b + size]) == old(multiset(a[b..b + size]))
    ensures forall k :: 0 <= k < b || b + size <= k < a.Length ==> a[k] == old(a[k])
    ensures NoneAbove(less, a[..], b, b + i + 1, a[b]) && NoneBelow(less, a[..], b + j, b + size, a[b])
    ensures a[b] == old(a[b])
    ensures old(AllAlike(less, a[..], b, b + size)) ==> AllAlike(less, a[..], b, b + size)
  {
    ghost var s := a[..];
    SidesExchanged(less, s, b, i, j, size);
    Swap(a, b + i, b + j, b, b + size);
    assert a[..][b] == s[b];
    AlikeExchanged(less, s, b, b + size, b + i, b + j);
  }

  lemma AlikeExchanged<T>(less: (T, T) -> bool, s: seq<T>, b: nat, e: nat, i: nat, j: nat)
    requires b <= i < j < e <= |s|
    ensures AllAlike(less, s, b, e) ==> AllAlike(less, Exchanged(s, i, j), b, e)
  {
    var r := Exchanged(s, i, j);
    if AllAlike(less, s, b, e) {
      SwapPermuted(s, b, e, i, j);
      AlikePermuted(less, s, r, b, e);
    }
  }

  /** No element of the interval comes before another one of it. */
  ghost predicate AllAlike<T>(less: (T, T) -> bool, s: seq<T>, b: nat, e: nat)
    requires b <= e <= |s|
  {
    forall x, y :: x in s[b..e] && y in s[b..e] ==> !less(x, y)
  }

  lemma AlikePermuted<T>(less: (T, T) -> bool, s: seq<T>, r: seq<T>, b: nat, e: nat)
    requires b <= e <= |s| && e <= |r| && multiset(s[b..e]) == multiset(r[b..e]) && AllAlike(less, s, b, e)
    ensures AllAlike(less, r, b, e)
  {
    forall x, y | x in r[b..e] && y in r[b..e]
      ensures !less(x, y)
    {
      assert x in multiset(r[b..e]) && y in multiset(r[b..e]);
      assert x in multiset(s[b..e]) && y in multiset(s[b..e]);
    }
  }

  lemma AlikeAt<T>(less: (T, T) -> bool, s: seq<T>, b: nat, e: nat, k: nat, l: nat)
    requires e <= |s| && b <= k < e && b <= l < e && AllAlike(less, s, b, e)
    ensures !less(s[k], s[l])
  {
    assert s[b..e][k - b] == s[k] && s[b..e][l - b] == s[l];
  }

  /** Both scans.  If no element comes before another, each of them goes on by one. */
  method ScanBoth<T(!new)>(less: (T, T) -> bool, a: array<T>, b: nat, size: nat, i: nat, j: nat)
    returns (i': nat, j': nat, met: bool)
    requires StrictWeak(less) && b + size <= a.Length && i < j <= size
    requires NoneAbove(less, a[..], b, b + i + 1, a[b]) && NoneBelow(less, a[..], b + j, b + size, a[b])
    ensures i <= i' <= j' < j && (met <==> i' == j')
    ensures NoneAbove(less, a[..], b, b + i' + (if met then 1 else 0), a[b])
    ensures NoneBelow(less, a[..], b + j' + 1, b + size, a[b])
    ensures !met ==> i' > 0 && !less(a[b + i'], a[b]) && !less(a[b], a[b + j'])
    ensures AllAlike(less, a[..], b, b + size) && i + j == size ==> if met then j' == size / 2 else i' + j' == size
  {
    ghost var s := a[..];
    j' := ScanDown(less, a, b, size, i, j);
    i', met := ScanUp(less, a, b, size, i, j');
    assert a[..] == s;
    if AllAlike(less, s, b, b + size) {
      if j' + 1 < j {
        AlikeAt(less, s, b, b + size, b, b + j' + 1);
      }
      if i + 1 < i' {
        AlikeAt(less, s, b, b + size, b + i + 1, b);
      }
    }
  }

  /** The loop, with the pivot at `b`; the two scans meet at `j`.  Elements that are like the pivot stop
      them, so that they meet in the middle if all are. */
  method PartitionLoop<T(!new)>(less: (T, T) -> bool, a: array<T>, b: nat, size: nat) returns (j: nat)
    requires StrictWeak(less) && b + size <= a.Length && size > 0
    modifies a
    ensures j < size && multiset(a[b..b + size]) == old(multiset(a[b..b + size]))
    ensures forall k :: 0 <= k < b || b + size <= k < a.Length ==> a[k] == old(a[k])
    ensures NoneAbove(less, a[..], b, b + j + 1, a[b]) && NoneBelow(less, a[..], b + j + 1, b + size, a[b])
    ensures a[b] == old(a[b]) && (old(AllAlike(less, a[..], b, b + size)) ==> j == size / 2)
  {
    ghost var elems, alike := multiset(a[b..b + size]), AllAlike(less, a[..], b, b + size);
    var i: nat := 0;
    j := size;
    while true
      invariant i < j <= size && multiset(a[b..b + size]) == elems && a[b] == old(a[b])
      invariant forall k :: 0 <= k < b || b + size <= k < a.Length ==> a[k] == old(a[k])
      invariant NoneAbove(less, a[..], b, b + i + 1, a[b]) && NoneBelow(less, a[..], b + j, b + size, a[b])
      invariant alike ==> AllAlike(less, a[..], b, b + size) && i + j == size
      decreases j
    {
      var met;
      i, j, met := ScanBoth(less, a, b, size, i, j);
      if met {
        break;
      }
      ExchangeSides(less, a, b, i, j, size);
    }
  }

  // ---------------------------------------------------------------- sorting ranges

  /** `std::sort`: any function that sorts. */
  ghost predicate IsSort<T(!new)>(less: (T, T) -> bool, sort: seq<T> -> seq<T>) {
    forall s :: Sorted(less, sort(s)) && multiset(sort(s)) == multiset(s)
  }

  method StdSort<T(!new)>(less: (T, T) -> bool, sort: seq<T> -> seq<T>, a: array<T>, b: nat, size: nat)
    requires IsSort(less, sort) && b + size <= a.Length
    modifies a
    ensures Sorted(less, a[b..b + size]) && multiset(a[b..b + size]) == old(multiset(a[b..b + size]))
    ensures forall k :: 0 <= k < b || b + size <= k < a.Length ==> a[k] == old(a[k])
  {
    var r := sort(a[b..b + size]);
    SameSize(r, a[b..b + size]);
    forall k | b <= k < b + size {
      a[k] := r[k - b];
    }
    assert a[b..b + size] == r;
  }

  lemma SameSize<T>(s: seq<T>, r: seq<T>)
    requires multiset(s) == multiset(r)
    ensures |s| == |r|
  {
    assert |multiset(s)| == |multiset(r)|;
  }

  /** Two sorted parts with a pivot between them that neither crosses. */
  lemma JoinSorted<T(!new)>(less: (T, T) -> bool, s: seq<T>, j: nat)
    requires StrictWeak(less) && j < |s| && Sorted(less, s[..j]) && Sorted(less, s[j + 1..])
    requires NoneAbove(less, s, 0, j, s[j]) && NoneBelow(less, s, j + 1, |s|, s[j])
    ensures Sorted(less, s)
  {
    forall k, l | 0 <= k < l < |s|
      ensures !less(s[l], s[k])
    {
      if l < j {
        assert !less(s[..j][l], s[..j][k]);
      } else if k > j {
        assert !less(s[j + 1..][l - j - 1], s[j + 1..][k - j - 1]);
      } else if k < j && l > j {
        assert !less(s[l], s[j]) && !less(s[j], s[k]);
      }
    }
  }

  /** Sorting a part keeps its elements on their side of the pivot. */
  lemma SidesKept<T>(less: (T, T) -> bool, s: seq<T>, r: seq<T>, lo: nat, hi: nat, x: T)
    requires lo <= hi <= |s| == |r| && multiset(r[lo..hi]) == multiset(s[lo..hi])
    ensures NoneAbove(less, s, lo, hi, x) ==> NoneAbove(less, r, lo, hi, x)
    ensures NoneBelow(less, s, lo, hi, x) ==> NoneBelow(less, r, lo, hi, x)
  {
    forall k | lo <= k < hi
      ensures exists l :: lo <= l < hi && s[l] == r[k]
    {
      assert r[lo..hi][k - lo] in multiset(s[lo..hi]);
      assert r[k] in s[lo..hi];
      var l :| 0 <= l < hi - lo && s[lo..hi][l] == r[k];
      assert s[lo + l] == r[k];
    }
  }

  /** From the split range `s` to `r`, both parts have been sorted and nothing else has changed. */
  lemma PartsMakeWhole<T(!new)>(less: (T, T) -> bool, s: seq<T>, r: seq<T>, b: nat, j: nat, size: nat)
    requires StrictWeak(less) && j < size && b + size <= |s| == |r|
    requires NoneAbove(less, s, b, b + j, s[b + j]) && NoneBelow(less, s, b + j + 1, b + size, s[b + j])
    requires Sorted(less, r[b..b + j]) && multiset(r[b..b + j]) == multiset(s[b..b + j])
    requires Sorted(less, r[b + j + 1..b + size])
          && multiset(r[b + j + 1..b + size]) == multiset(s[b + j + 1..b + size])
    requires r[b + j] == s[b + j]
    ensures Sorted(less, r[b..b + size]) && multiset(r[b..b + size]) == multiset(s[b..b + size])
  {
    SidesKept(less, s, r, b, b + j, s[b + j]);
    SidesKept(less, s, r, b + j + 1, b + size, s[b + j]);
    PartsSorted(less, r, b, j, size);
    WholeOfParts(s, b, j, size);
    WholeOfParts(r, b, j, size);
  }

  lemma WholeOfParts<T>(s: seq<T>, b: nat, j: nat, size: nat)
    requires j < size && b + size <= |s|
    ensures multiset(s[b..b + size]) == multiset(s[b..b + j]) + multiset{s[b + j]} + multiset(s[b + j + 1..b + size])
  {
    assert s[b..b + size] == s[b..b + j] + [s[b + j]] + s[b + j + 1..b + size];
  }

  lemma PartsSorted<T(!new)>(less: (T, T) -> bool, r: seq<T>, b: nat, j: nat, size: nat)
    requires StrictWeak(less) && j < size && b + size <= |r|
    requires NoneAbove(less, r, b, b + j, r[b + j]) && NoneBelow(less, r, b + j + 1, b + size, r[b + j])
    requires Sorted(less, r[b..b + j]) && Sorted(less, r[b + j + 1..b + size])
    ensures Sorted(less, r[b..b + size])
  {
    var q := r[b..b + size];
    assert q[..j] == r[b..b + j] && q[j + 1..] == r[b + j + 1..b + size];
    assert NoneAbove(less, q, 0, j, q[j]) && NoneBelow(less, q, j + 1, |q|, q[j]);
    JoinSorted(less, q, j);
  }

  const Grainsize: nat := 500

  /** A `parallel_for` over a quicksort range: any division of divisible ranges into tasks. */
  method SortRange<T(!new)>(less: (T, T) -> bool, sort: seq<T> -> seq<T>, a: array<T>, b: nat, size: nat)
    requires StrictWeak(less) && IsSort(less, sort) && b + size <= a.Length
    modifies a
    ensures Sorted(less, a[b..b + size]) && multiset(a[b..b + size]) == old(multiset(a[b..b + size]))
    ensures forall k :: 0 <= k < b || b + size <= k < a.Length ==> a[k] == old(a[k])
    decreases size, 1
  {
    var divide: bool := *;
    if size < Grainsize || !divide {
      StdSort(less, sort, a, b, size);
    } else {
      ghost var elems := multiset(a[b..b + size]);
      var j := Split(less, a, b, size);
      ghost var s := a[..];
      assert s[b..b + size] == a[b..b + size];
      SortParts(less, sort, a, b, j, size);
      ghost var r := a[..];
      assert r[b..b + j] == a[b..b + j] && r[b + j + 1..b + size] == a[b + j + 1..b + size];
      assert s[b + j + 1..b + size] == s[b + j + 1..b + size] && r[b..b + size] == a[b..b + size];
      PartsMakeWhole(less, s, r, b, j, size);
    }
  }

  /** The two tasks of a split range, in either order; they have no element in common. */
  method SortParts<T(!new)>(less: (T, T) -> bool, sort: seq<T> -> seq<T>, a: array<T>, b: nat, j: nat, size: nat)
    requires StrictWeak(less) && IsSort(less, sort) && j < size && b + size <= a.Length
    modifies a
    ensures Sorted(less, a[b..b + j]) && multiset(a[b..b + j]) == old(multiset(a[b..b + j]))
    ensures Sorted(less, a[b + j + 1..b + size])
            && multiset(a[b + j + 1..b + size]) == old(multiset(a[b + j + 1..b + size]))
    ensures a[b + j] == old(a[b + j])
    ensures forall k :: 0 <= k < b || b + size <= k < a.Length ==> a[k] == old(a[k])
    decreases size, 0
  {
    ghost var left, right := a[b..b + j], a[b + j + 1..b + size];
    var rightFirst: bool := *;
    if rightFirst {
      SortRange(less, sort, a, b + j + 1, size - j - 1);
      assert a[b..b + j] == left;
      ghost var sorted := a[b + j + 1..b + size];
      SortRange(less, sort, a, b, j);
      assert a[b + j + 1..b + size] == sorted;
    } else {
      SortRange(less, sort, a, b, j);
      assert a[b + j + 1..b + size] == right;
      ghost var sorted := a[b..b + j];
      SortRange(less, sort, a, b + j + 1, size - j - 1);
      assert a[b..b + j] == sorted;
    }
  }

  // ---------------------------------------------------------------- the test for sorted input

  /** Whether the element at `k` comes before its predecessor. */
  predicate Inverted<T>(less: (T, T) -> bool, s: seq<T>, k: nat)
    requires 1 <= k < |s|
  {
    less(s[k], s[k - 1])
  }

  lemma {:induction false} NoInversionSorted<T(!new)>(less: (T, T) -> bool, s: seq<T>)
    requires StrictWeak(less) && forall k: nat :: 1 <= k < |s| ==> !Inverted(less, s, k)
    ensures Sorted(less, s)
  {
    forall i, j | 0 <= i < j < |s|
      ensures !less(s[j], s[i])
    {
      NoInversionBetween(less, s, i, j);
    }
  }

  lemma {:induction false} NoInversionBetween<T(!new)>(less: (T, T) -> bool, s: seq<T>, i: nat, j: nat)
    requires StrictWeak(less) && i < j < |s| && forall k: nat :: 1 <= k < |s| ==> !Inverted(less, s, k)
    ensures !less(s[j], s[i])
    decreases j - i
  {
    assert !Inverted(less, s, j);
    if i + 1 < j {
      NoInversionBetween(less, s, i, j - 1);
    }
  }

  predicate HasInversion<T>(less: (T, T) -> bool, s: seq<T>, range: Range)
    requires 1 <= range.lo && range.hi <= |s|
  {
    exists k: nat :: range.lo <= k < range.hi && Inverted(less, s, k)
  }

  /** Whether a chunk other than chunk `c` has an inversion, so that its test may cancel the group. */
  predicate InversionElsewhere<T>(less: (T, T) -> bool, s: seq<T>, chunks: seq<Range>, c: nat)
    requires forall d :: 0 <= d < |chunks| ==> 1 <= chunks[d].lo && chunks[d].hi <= |s|
  {
    exists d :: 0 <= d < |chunks| && d != c && HasInversion(less, s, chunks[d])
  }

  /**
   * `quick_sort_pretest_body`: gives up at an inversion, or when it finds the group cancelled. The tests of the
   * other chunks run meanwhile; if one of them has an inversion, it may cancel the group at any time.
   */
  method PretestBody<T(==)>(less: (T, T) -> bool, a: array<T>, range: Range, cancelled: bool, elsewhere: bool)
    returns (cancel: bool)
    requires 1 <= range.lo <= range.hi <= a.Length
    ensures cancelled ==> cancel
    ensures cancel && !cancelled ==> elsewhere || HasInversion(less, a[..], range)
    ensures !cancel ==> !HasInversion(less, a[..], range)
  {
    cancel := cancelled;
    var i := 0;
    var k := range.lo;
    while k != range.hi
      invariant range.lo <= k <= range.hi
      invariant cancelled ==> cancel
      invariant cancel && !cancelled ==> elsewhere
      invariant forall l: nat :: range.lo <= l < k ==> !Inverted(less, a[..], l)
      decreases range.hi - k
    {
      var now: bool := *;
      cancel := cancel || (elsewhere && now);
      if i % 64 == 0 && cancel {
        break;
      }
      if less(a[k], a[k - 1]) {
        assert Inverted(less, a[..], k);
        cancel := true;
        break;
      }
      k, i := k + 1, i + 1;
    }
  }

  /** An index that the ranges cover is in one of them. */
  lemma {:induction false} InSomeRange(s: seq<Range>, i: nat)
    requires Times(s, i) > 0
    ensures exists k :: 0 <= k < |s| && s[k].lo <= i < s[k].hi
  {
    if !(s[0].lo <= i < s[0].hi) {
      InSomeRange(s[1..], i);
      var k :| 0 <= k < |s[1..]| && s[1..][k].lo <= i < s[1..][k].hi;
      assert s[k + 1].lo <= i < s[k + 1].hi;
    }
  }

  /** The test of the chunks that `parallel_for` makes, all in one group that is cancelled as a whole. */
  method PretestChunks<T(==)>(less: (T, T) -> bool, a: array<T>, chunks: seq<Range>, from: nat)
    returns (cancelled: bool)
    requires 1 <= from <= a.Length && CoversOnce(chunks, from, a.Length)
    ensures cancelled <==> exists k: nat :: from <= k < a.Length && Inverted(less, a[..], k)
  {
    cancelled := false;
    ghost var s := a[..];
    for c := 0 to |chunks|
      invariant a[..] == s
      invariant cancelled ==> exists k: nat :: from <= k < a.Length && Inverted(less, s, k)
      invariant !cancelled ==> forall d :: 0 <= d < c ==> !HasInversion(less, s, chunks[d])
    {
      var elsewhere := InversionElsewhere(less, a[..], chunks, c);
      cancelled := PretestBody(less, a, chunks[c], cancelled, elsewhere);
    }
    if !cancelled {
      forall k: nat | from <= k < a.Length
        ensures !Inverted(less, s, k)
      {
        InSomeRange(chunks, k);
      }
    }
  }

  /** The serial and the parallel part of the test: together they look at all pairs. */
  method Pretest<T(==)>(less: (T, T) -> bool, a: array<T>) returns (unsorted: bool)
    requires a.Length > 10
    ensures unsorted <==> exists k: nat :: 1 <= k < a.Length && Inverted(less, a[..], k)
  {
    var k := 0;
    while k != 9
      invariant 0 <= k <= 9
      invariant forall l: nat :: 1 <= l <= k ==> !Inverted(less, a[..], l)
      decreases 9 - k
    {
      if less(a[k + 1], a[k]) {
        assert Inverted(less, a[..], k + 1);
        return true;
      }
      k := k + 1;
    }
    var chunks := new Log();
    var divisor: nat := *;
    ghost var ran := ForRange(Range(k + 1, a.Length, 1), Auto(divisor), chunks);
    assert chunks.ran == ran;
    unsorted := PretestChunks(less, a, chunks.ran, k + 1);
  }

  // ---------------------------------------------------------------- the algorithm

  /** `parallel_quick_sort`: skips the sort if the test finds no inversion. */
  method ParallelQuickSort<T(!new, ==)>(less: (T, T) -> bool, sort: seq<T> -> seq<T>, a: array<T>)
    requires StrictWeak(less) && IsSort(less, sort) && a.Length > 10
    modifies a
    ensures Sorted(less, a[..]) && multiset(a[..]) == multiset(old(a[..]))
    ensures old(Sorted(less, a[..])) ==> a[..] == old(a[..])
  {
    var unsorted := Pretest(less, a);
    if unsorted {
      ghost var k: nat :| 1 <= k < a.Length && Inverted(less, a[..], k);
      assert a[0..a.Length] == a[..];
      SortRange(less, sort, a, 0, a.Length);
      assert a[0..a.Length] == a[..];
    } else {
      NoInversionSorted(less, a[..]);
    }
  }

  /** `parallel_sort` */
  method Sort<T(!new, ==)>(less: (T, T) -> bool, sort: seq<T> -> seq<T>, a: array<T>)
    requires StrictWeak(less) && IsSort(less, sort)
    modifies a
    ensures Sorted(less, a[..]) && multiset(a[..]) == multiset(old(a[..]))
  {
    if a.Length > 0 {
      if a.Length < 500 {
        assert a[0..a.Length] == a[..];
        StdSort(less, sort, a, 0, a.Length);
        assert a[0..a.Length] == a[..];
      } else {
        ParallelQuickSort(less, sort, a);
      }
    }
  }
}
