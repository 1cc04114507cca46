/** Where the buckets of the concurrent hash map are in memory. */
module BucketMemory {
  import opened Bits
  import opened Segments

  /** A place in memory: an allocation, and an offset in it. */
  datatype Location = Location(allocation: nat, offset: nat)

  /** What `enable_segment` puts into `my_table`: the embedded buckets are in the table itself, those of
      segments 1 to 7 in one allocation, and those of each later segment in one of their own. */
  function InMemory(a: Address): Location {
    if a.segment == 0 then Location(0, a.offset)
    else if a.segment < 8 then
      BaseIs(a.segment);
      assert Pow2(a.segment) == 2 * Pow2(a.segment - 1);
      Location(1, SegmentBase(a.segment) - 2 + a.offset)
    else Location(a.segment, a.offset)
  }

  /** `++ptr` in memory */
  function Plus(l: Location): Location {
    l.(offset := l.offset + 1)
  }

  /** A bucket follows the one before it in memory unless it is the first of an allocation; so the
      starts of segments 2 to 7 would not need the pointer to be loaded again. */
  lemma FollowsInMemory(k: nat)
    requires k >= 1
    ensures InMemory(GetBucket(k)) == Plus(InMemory(GetBucket(k - 1))) <==> k != 2 && (k < 256 || !StartsSegment(k))
  {
    PlaceIs(k);
    PlaceIs(k - 1);
    if k >= 256 {
      StartOrSameSegment(k);
      if StartsSegment(k) {
        assert InMemory(GetBucket(k)).offset == 0;
      } else {
        assert k > 256 by {
          Pow2OfEight(k);
        }
        assert Log2(k - 1) == Log2(k);
      }
    }
  }

  lemma Pow2OfEight(k: nat)
    ensures k == 256 ==> StartsSegment(k)
  {
    assert Pow2(8) == 256;
    IsStart(Pow2(8), 8);
  }

  lemma IsStart(k: nat, j: nat)
    requires j >= 1 && k == Pow2(j)
    ensures StartsSegment(k)
  {
  }

  /** How many buckets an allocation has. */
  function Allocated(allocation: nat): nat {
    if allocation == 0 then 2 else if allocation == 1 then 254 else Pow2(allocation)
  }

  /** A bucket lies within its allocation, and no two lie at the same place. */
  lemma DifferentBuckets(k: nat, l: nat)
    ensures InMemory(GetBucket(k)).offset < Allocated(InMemory(GetBucket(k)).allocation)
    ensures k != l ==> InMemory(GetBucket(k)) != InMemory(GetBucket(l))
  {
    PlaceIs(k);
    PlaceIs(l);
  }

  lemma PlaceIs(k: nat)
    ensures InMemory(GetBucket(k)) == if k < 2 then Location(0, k) else if k < 256 then Location(1, k - 2)
                                      else Location(Log2(k), k - Pow2(Log2(k)))
    ensures k >= 256 ==> Log2(k) >= 8 && k < 2 * Pow2(Log2(k))
  {
    SegmentIs(k);
    BaseIs(SegmentOf(k));
    InSegment(k);
    assert Pow2(8) == 256;
    if k >= 2 {
      var j := Log2(k);
      if j < 8 {
        Pow2Monotone(j + 1, 8);
      } else {
        Pow2Monotone(8, j);
      }
    }
  }
}
