/** The parts of the affinity array that tasks under an `affinity_partitioner` remember their
    workers in. */
module AffinityMap {

  const Factor: nat := 16

  /** `set_mid`: half the map from the right, in whole multiples of the factor if it is larger. */
  function Mid(begin: nat, end: nat): (m: nat)
    requires begin <= end
    ensures begin <= m <= end
  {
    var d := (end - begin) / 2;
    if d > Factor then end - (d - d % Factor) else end - d
  }

  /** What the splitting constructor asserts of the map it splits. */
  predicate Fits(length: nat) {
    length < Factor || length % Factor == 0
  }

  datatype Map = Map(begin: nat, end: nat)

  function Left(m: Map): Map
    requires m.begin <= m.end
  {
    Map(m.begin, Mid(m.begin, m.end))
  }

  function Right(m: Map): Map
    requires m.begin <= m.end
  {
    Map(Mid(m.begin, m.end), m.end)
  }

  lemma MultipleDifference(a: nat, b: nat)
    requires b <= a && a % 16 == 0 && b % 16 == 0
    ensures (a - b) % 16 == 0
  {
  }

  /** Both parts of a map fit again, and the map is only left whole if it has one cell at most. */
  lemma SplitFits(m: Map)
    requires m.begin <= m.end && Fits(m.end - m.begin)
    ensures Fits(Left(m).end - Left(m).begin) && Fits(Right(m).end - Right(m).begin)
    ensures Mid(m.begin, m.end) == m.end <==> m.end - m.begin <= 1
  {
    var n := m.end - m.begin;
    var d := n / 2;
    if d > Factor {
      MultipleDifference(n, d - d % Factor);
    }
  }

  /** Work for `p` workers that is halved on `16 * p` cells leaves 16 cells for each. */
  lemma SplitPerWorker(m: Map, p: nat)
    requires m.begin <= m.end && p >= 2 && m.end - m.begin == Factor * p
    ensures m.end - Mid(m.begin, m.end) == Factor * (p / 2)
    ensures Mid(m.begin, m.end) - m.begin == Factor * (p - p / 2)
  {
    var d := (m.end - m.begin) / 2;
    assert d == 8 * p;
  }

  /** The maps follow each other from `lo` to `hi`, and fit. */
  ghost predicate Live(s: seq<Map>, lo: nat, hi: nat) {
    if s == [] then lo == hi
    else s[0].begin == lo <= s[0].end && Fits(s[0].end - s[0].begin) && Live(s[1..], s[0].end, hi)
  }

  /** The task with the `i`-th map is split. */
  function SplitAt(s: seq<Map>, i: nat): seq<Map>
    requires i < |s| && s[i].begin <= s[i].end
  {
    s[..i] + [Left(s[i]), Right(s[i])] + s[i + 1..]
  }

  lemma {:induction false} LiveAt(s: seq<Map>, lo: nat, hi: nat, i: nat)
    requires Live(s, lo, hi) && i < |s|
    ensures lo <= s[i].begin <= s[i].end <= hi
  {
    LiveUp(s, lo, hi);
    LiveUp(s[1..], s[0].end, hi);
    if i > 0 {
      LiveAt(s[1..], s[0].end, hi, i - 1);
    }
  }

  lemma {:induction false} LiveUp(s: seq<Map>, lo: nat, hi: nat)
    requires Live(s, lo, hi)
    ensures lo <= hi
  {
    if s != [] {
      LiveUp(s[1..], s[0].end, hi);
    }
  }

  lemma {:induction false} SplitStaysLive(s: seq<Map>, lo: nat, hi: nat, i: nat)
    requires Live(s, lo, hi) && i < |s|
    ensures s[i].begin <= s[i].end && Live(SplitAt(s, i), lo, hi)
  {
    LiveAt(s, lo, hi, i);
    var r := SplitAt(s, i);
    if i == 0 {
      SplitFits(s[0]);
      assert r[1..][1..] == s[1..];
      assert r[1..][0] == Right(s[0]);
    } else {
      SplitStaysLive(s[1..], s[0].end, hi, i - 1);
      assert r[1..] == SplitAt(s[1..], i - 1);
    }
  }

  /** The maps after a sequence of splits. */
  ghost predicate Reached(s: seq<Map>, size: nat, splits: seq<nat>)
    decreases |splits|
  {
    if splits == [] then s == [Map(0, size)]
    else exists before: seq<Map> ::
      && Reached(before, size, splits[..|splits| - 1])
      && splits[|splits| - 1] < |before|
      && before[splits[|splits| - 1]].begin <= before[splits[|splits| - 1]].end
      && s == SplitAt(before, splits[|splits| - 1])
  }

  function Owners(s: seq<Map>, cell: nat): nat {
    if s == [] then 0 else (if s[0].begin <= cell < s[0].end then 1 else 0) + Owners(s[1..], cell)
  }

  lemma {:induction false} LiveOwners(s: seq<Map>, lo: nat, hi: nat, cell: nat)
    requires Live(s, lo, hi)
    ensures Owners(s, cell) == if lo <= cell < hi then 1 else 0
  {
    LiveUp(s, lo, hi);
    if s != [] {
      LiveUp(s[1..], s[0].end, hi);
      LiveOwners(s[1..], s[0].end, hi, cell);
    }
  }

  lemma {:induction false} ReachedIsLive(s: seq<Map>, size: nat, splits: seq<nat>)
    requires Fits(size) && Reached(s, size, splits)
    ensures Live(s, 0, size)
    decreases |splits|
  {
    if splits == [] {
      assert s[1..] == [];
    } else {
      var i := splits[|splits| - 1];
      var before: seq<Map> :| Reached(before, size, splits[..|splits| - 1]) && i < |before|
                              && before[i].begin <= before[i].end && s == SplitAt(before, i);
      ReachedIsLive(before, size, splits[..|splits| - 1]);
      SplitStaysLive(before, 0, size, i);
    }
  }

  /** Whatever is split, every cell of the array is in the map of exactly one task, and every map
      can be split again. */
  lemma MapsPartition(s: seq<Map>, size: nat, splits: seq<nat>, cell: nat)
    requires Fits(size) && Reached(s, size, splits)
    ensures Owners(s, cell) == if cell < size then 1 else 0
    ensures Live(s, 0, size)
  {
    ReachedIsLive(s, size, splits);
    LiveOwners(s, 0, size, cell);
  }
}
