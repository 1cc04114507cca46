/** Segments that double in size, as the concurrent hash map and the concurrent vector have them. */
module Segments {
  import opened Bits

  // ---------------------------------------------------------------- segments

  /** `segment_index_of`: `__TBB_Log2( index|1 )` */
  function SegmentOf(index: nat): nat {
    Log2(if index % 2 == 0 then index + 1 else index)
  }

  /** `segment_base`: `1<<k & ~1` */
  function SegmentBase(k: nat): (b: nat)
    ensures b <= Pow2(k)
  {
    Pow2(k) - Pow2(k) % 2
  }

  /** Where a bucket or an element is: a segment, and an offset in it. */
  datatype Address = Address(segment: nat, offset: nat)

  /** `get_bucket` */
  function GetBucket(h: nat): (a: Address) {
    InSegment(h);
    Address(SegmentOf(h), h - SegmentBase(SegmentOf(h)))
  }

  /** `++ptr` */
  function Following(a: Address): Address {
    a.(offset := a.offset + 1)
  }

  lemma BaseIs(k: nat)
    ensures SegmentBase(k) == if k == 0 then 0 else Pow2(k)
  {
    if k > 0 {
      assert Pow2(k) == 2 * Pow2(k - 1);
    }
  }

  lemma SegmentIs(h: nat)
    ensures SegmentOf(h) == if h < 2 then 0 else Log2(h)
  {
    if h >= 2 && h % 2 == 0 {
      var k := Log2(h);
      assert k > 0 && Pow2(k + 1) == 2 * Pow2(k);
      Log2Unique(h + 1, k);
    }
  }

  /** Every bucket lies in its segment. */
  lemma InSegment(h: nat)
    ensures SegmentBase(SegmentOf(h)) <= h
    ensures h - SegmentBase(SegmentOf(h)) < if SegmentOf(h) == 0 then 2 else Pow2(SegmentOf(h))
  {
    SegmentIs(h);
    BaseIs(SegmentOf(h));
    assert Pow2(0) == 1;
  }

  /** The first bucket of a segment, other than the embedded one. */
  ghost predicate StartsSegment(k: nat) {
    exists j: nat :: j >= 1 && k == Pow2(j)
  }

  /** Within a segment a bucket is the next one after its predecessor; at its start it is not. */
  lemma FollowingBucket(k: nat)
    requires k >= 1
    ensures GetBucket(k) == Following(GetBucket(k - 1)) <==> !StartsSegment(k)
  {
    InSegment(k);
    InSegment(k - 1);
    SegmentIs(k);
    SegmentIs(k - 1);
    BaseIs(SegmentOf(k));
    BaseIs(SegmentOf(k - 1));
    StartOrSameSegment(k);
  }

  lemma StartOrSameSegment(k: nat)
    requires k >= 1
    ensures StartsSegment(k) ==> k >= 2 && k == Pow2(Log2(k))
    ensures !StartsSegment(k) && k >= 2 ==> k >= 3 && Log2(k - 1) == Log2(k)
  {
    assert Pow2(1) == 2 * Pow2(0) == 2;
    if j: nat :| j >= 1 && k == Pow2(j) {
      Pow2Monotone(1, j);
      assert Pow2(j + 1) == 2 * Pow2(j);
      Log2Unique(k, j);
    } else if k >= 2 {
      assert k != Pow2(Log2(k)) && k != 2;
      Log2Unique(k - 1, Log2(k));
    }
  }

  // ---------------------------------------------------------------- the test for the start of a segment

  /** Bitwise and. */
  function And(a: nat, b: nat): (r: nat)
    decreases a
  {
    if a == 0 || b == 0 then 0 else 2 * And(a / 2, b / 2) + if a % 2 == 1 && b % 2 == 1 then 1 else 0
  }

  /** `k-2` in an unsigned word of `w` bits. */
  function MinusTwo(k: nat, w: nat): nat
    requires w >= 1 && k < Pow2(w)
  {
    assert Pow2(w) == 2 * Pow2(w - 1);
    if k >= 2 then k - 2 else k + Pow2(w) - 2
  }

  lemma OddNotPower(x: nat)
    requires x % 2 == 1
    ensures forall j: nat :: x == Pow2(j) ==> j == 0
  {
    forall j: nat
      ensures x == Pow2(j) ==> j == 0
    {
      assert j > 0 ==> Pow2(j) == 2 * Pow2(j - 1);
    }
  }

  lemma HalfPower(y: nat)
    requires y >= 1
    ensures (exists j: nat :: 2 * y == Pow2(j)) <==> exists j: nat :: y == Pow2(j)
  {
    if j: nat :| y == Pow2(j) {
      assert 2 * y == Pow2(j + 1);
    }
    if j: nat :| 2 * y == Pow2(j) {
      assert j > 0;
      assert y == Pow2(j - 1);
    }
  }

  lemma AndHalves(y: nat)
    requires y >= 1
    ensures And(2 * y, 2 * y - 1) == 2 * And(y, y - 1)
  {
    assert (2 * y - 1) / 2 == y - 1 && 2 * y / 2 == y && (2 * y) % 2 == 0;
  }

  lemma AndOdd(x: nat)
    requires x > 1 && x % 2 == 1
    ensures And(x, x - 1) != 0 && forall j: nat :: x != Pow2(j)
  {
    AndEven(x);
    OddNotPower(x);
    var j: nat := 0;
    assert x != Pow2(j);
  }

  lemma IsPower(x: nat, j: nat)
    requires x == Pow2(j)
    ensures exists i: nat :: x == Pow2(i)
  {
  }

  lemma {:induction false} AndPredecessor(x: nat)
    requires x >= 1
    ensures And(x, x - 1) == 0 <==> exists j: nat :: x == Pow2(j)
  {
    if x == 1 {
      IsPower(x, 0);
    } else if x % 2 == 1 {
      AndOdd(x);
    } else {
      var y := x / 2;
      AndPredecessor(y);
      HalfPower(y);
      AndHalves(y);
    }
  }

  lemma {:induction false} AndSelf(x: nat)
    requires x >= 1
    ensures And(x, x) >= 1
  {
    if x > 1 {
      AndSelf(x / 2);
    }
  }

  /** Below its lowest bit an odd number agrees with its predecessor. */
  lemma AndEven(x: nat)
    requires x > 1 && x % 2 == 1
    ensures And(x, x - 1) > 0
  {
    assert (x - 1) / 2 == x / 2;
    AndSelf(x / 2);
  }

  /** `k & (k-2)` is zero exactly at the start of a segment. */
  lemma SegmentStartTest(k: nat, w: nat)
    requires w >= 1 && 1 <= k < Pow2(w)
    ensures And(k, MinusTwo(k, w)) == 0 <==> StartsSegment(k)
  {
    if k % 2 == 1 {
      assert Pow2(w) == 2 * Pow2(w - 1);
      assert MinusTwo(k, w) % 2 == 1;
      assert And(k, MinusTwo(k, w)) > 0;
      OddNotPower(k);
    } else {
      var x := k / 2;
      assert (k - 2) / 2 == x - 1;
      AndPredecessor(x);
      HalfPower(x);
      assert And(k, k - 2) == 2 * And(x, x - 1);
      if j: nat :| 2 * x == Pow2(j) {
        assert j >= 1 && k == Pow2(j);
      }
    }
  }
}
