/** Binary heaps in a sequence under any strict weak order: the loops shared by the concurrent
    priority queue and the priority node of the flow graph. */
module BinaryHeap {
  import opened Orders

  function Parent(i: nat): (p: nat)
    requires i > 0
    ensures i == 2 * p + 1 || i == 2 * p + 2
  {
    (i - 1) / 2
  }

  /** No element from `from` on, below `n`, is above its parent. */
  ghost predicate HeapFrom<T>(less: (T, T) -> bool, s: seq<T>, from: nat, n: nat)
    requires 1 <= from && n <= |s|
  {
    forall i: nat {:trigger Parent(i)} :: from <= i < n ==> !less(s[Parent(i)], s[i])
  }

  ghost predicate Heap<T>(less: (T, T) -> bool, s: seq<T>, n: nat)
    requires n <= |s|
  {
    HeapFrom(less, s, 1, n)
  }

  lemma {:induction false} TopIsMaximal<T(!new)>(less: (T, T) -> bool, s: seq<T>, n: nat, i: nat)
    requires StrictWeak(less) && n <= |s| && Heap(less, s, n) && i < n
    ensures !less(s[0], s[i])
  {
    if i > 0 {
      TopIsMaximal(less, s, n, Parent(i));
    }
  }

  lemma MultisetOfSplit<T>(s: seq<T>, k: nat)
    requires k <= |s|
    ensures multiset(s) == multiset(s[..k]) + multiset(s[k..])
  {
    assert s == s[..k] + s[k..];
  }

  lemma Cancel<T>(a: multiset<T>, b: multiset<T>, c: multiset<T>)
    requires a + c == b + c
    ensures a == b
  {
    assert a == (a + c) - c && b == (b + c) - c;
  }

  lemma Exchange<T>(a: multiset<T>, b: multiset<T>, x: T, y: T)
    requires a + multiset{x} == b + multiset{y} && x in b
    ensures a == b - multiset{x} + multiset{y}
  {
    Cancel(a, b - multiset{x} + multiset{y}, multiset{x});
  }

  lemma PrefixPermuted<T>(s: seq<T>, r: seq<T>, k: nat)
    requires k <= |s| == |r| && multiset(r) == multiset(s) && r[k..] == s[k..]
    ensures multiset(r[..k]) == multiset(s[..k])
  {
    MultisetOfSplit(r, k);
    MultisetOfSplit(s, k);
    Cancel(multiset(r[..k]), multiset(s[..k]), multiset(s[k..]));
  }

  /** Moving the hole at `i` to `j` only moves an element. */
  lemma MoveHole<T>(s: seq<T>, i: nat, j: nat, x: T)
    requires i < |s| && j < |s| && i != j
    ensures multiset(s[i := s[j]][j := x]) == multiset(s[i := x])
  {
  }

  // ---------------------------------------------------------------- pushing an element up

  /** The heap of `n` elements is in order but for the element at `cur`, which may be above its parent. */
  ghost predicate OrderedBut<T>(less: (T, T) -> bool, s: seq<T>, n: nat, cur: nat)
    requires cur < n <= |s|
  {
    && (forall i: nat :: 1 <= i < n && i != cur ==> !less(s[Parent(i)], s[i]))
    && (forall i: nat {:trigger Parent(i)} :: 1 <= i < n && Parent(i) == cur && cur > 0 ==> !less(s[Parent(cur)], s[i]))
  }

  lemma RaiseKeepsOrder<T(!new)>(less: (T, T) -> bool, s: seq<T>, n: nat, cur: nat)
    requires StrictWeak(less) && 0 < cur < n <= |s| && OrderedBut(less, s, n, cur)
    requires less(s[Parent(cur)], s[cur])
    ensures OrderedBut(less, s[cur := s[Parent(cur)]][Parent(cur) := s[cur]], n, Parent(cur))
  {
  }

  lemma NothingToRaise<T>(less: (T, T) -> bool, s: seq<T>, n: nat, cur: nat)
    requires cur < n <= |s| && OrderedBut(less, s, n, cur)
    requires cur > 0 ==> !less(s[Parent(cur)], s[cur])
    ensures Heap(less, s, n)
  {
  }

  /** The hole moves up, its parent down. */
  method RaiseOnce<T(!new)>(less: (T, T) -> bool, s: seq<T>, mark: nat, cur: nat, x: T) returns (r: seq<T>, next: nat)
    requires StrictWeak(less) && 0 < cur <= mark < |s|
    requires OrderedBut(less, s[cur := x], mark + 1, cur) && less(s[Parent(cur)], x)
    ensures |r| == |s| && next == Parent(cur) && r[mark + 1..] == s[mark + 1..]
    ensures OrderedBut(less, r[next := x], mark + 1, next)
    ensures multiset(r[next := x]) == multiset(s[cur := x])
  {
    next := Parent(cur);
    r := s[cur := s[next]];
    RaiseKeepsOrder(less, s[cur := x], mark + 1, cur);
    MoveHole(s, cur, next, x);
    assert r[next := x] == s[cur := x][cur := s[next]][next := x];
  }

  /** One element of `heapify`: the element at `mark` joins the heap before it. */
  method PushUp<T(!new)>(less: (T, T) -> bool, s: seq<T>, mark: nat) returns (r: seq<T>)
    requires StrictWeak(less) && 1 <= mark < |s| && Heap(less, s, mark)
    ensures |r| == |s| && Heap(less, r, mark + 1)
    ensures multiset(r[..mark + 1]) == multiset(s[..mark + 1])
    ensures r[mark + 1..] == s[mark + 1..]
  {
    r := s;
    var cur: nat := mark;
    var toPlace := s[mark];
    while cur > 0 && less(r[Parent(cur)], toPlace)
      invariant cur <= mark && |r| == |s| && r[mark + 1..] == s[mark + 1..]
      invariant OrderedBut(less, r[cur := toPlace], mark + 1, cur)
      invariant multiset(r[cur := toPlace]) == multiset(s)
      decreases cur
    {
      r, cur := RaiseOnce(less, r, mark, cur, toPlace);
    }
    NothingToRaise(less, r[cur := toPlace], mark + 1, cur);
    r := r[cur := toPlace];
    PrefixPermuted(s, r, mark + 1);
  }

  // ---------------------------------------------------------------- pushing an element down

  /** The heap below `n` is in order around a hole at `cur`, into which `x` may go as far as
      the hole's parent is concerned. */
  ghost predicate OrderedAround<T>(less: (T, T) -> bool, s: seq<T>, n: nat, cur: nat, x: T)
    requires n <= |s| && cur < |s|
  {
    && (forall i: nat {:trigger Parent(i)} :: 1 <= i < n && i != cur && Parent(i) != cur ==> !less(s[Parent(i)], s[i]))
    && (forall i: nat {:trigger Parent(i)} :: 1 <= i < n && Parent(i) == cur && cur > 0 ==> !less(s[Parent(cur)], s[i]))
    && (cur > 0 ==> !less(s[Parent(cur)], x))
  }

  /** `x` is not below a child of `cur`. */
  ghost predicate AboveChildren<T>(less: (T, T) -> bool, x: T, s: seq<T>, n: nat, cur: nat)
    requires n <= |s|
  {
    && (2 * cur + 1 < n ==> !less(x, s[2 * cur + 1]))
    && (2 * cur + 2 < n ==> !less(x, s[2 * cur + 2]))
  }

  lemma LowerKeepsOrder<T(!new)>(less: (T, T) -> bool, s: seq<T>, n: nat, cur: nat, x: T, target: nat)
    requires StrictWeak(less) && n <= |s| && cur < target < n && Parent(target) == cur
    requires OrderedAround(less, s, n, cur, x) && !less(s[target], x)
    requires AboveChildren(less, s[target], s, n, cur)
    ensures OrderedAround(less, s[cur := s[target]], n, target, x)
  {
    var r := s[cur := s[target]];
    forall i: nat | 1 <= i < n && i != target && Parent(i) != target
      ensures !less(r[Parent(i)], r[i])
    {
      StillOrdered(less, s, n, cur, x, target, i);
    }
    forall i: nat | 1 <= i < n && Parent(i) == target
      ensures !less(r[Parent(target)], r[i])
    {
      assert i > target && !less(s[target], s[i]);
    }
  }

  lemma StillOrdered<T(!new)>(less: (T, T) -> bool, s: seq<T>, n: nat, cur: nat, x: T, target: nat, i: nat)
    requires StrictWeak(less) && n <= |s| && cur < target < n && Parent(target) == cur
    requires OrderedAround(less, s, n, cur, x) && AboveChildren(less, s[target], s, n, cur)
    requires 1 <= i < n && i != target && Parent(i) != target
    ensures var r := s[cur := s[target]]; !less(r[Parent(i)], r[i])
  {
    if Parent(i) == cur {
      assert i == 2 * cur + 1 || i == 2 * cur + 2;
    } else if i == cur {
      assert !less(s[Parent(cur)], s[target]);
    } else {
      assert !less(s[Parent(i)], s[i]);
    }
  }

  lemma FilledAt<T>(less: (T, T) -> bool, s: seq<T>, n: nat, cur: nat, x: T, i: nat)
    requires n <= |s| && cur < |s| && OrderedAround(less, s, n, cur, x) && AboveChildren(less, x, s, n, cur)
    requires 1 <= i < n
    ensures var r := s[cur := x]; !less(r[Parent(i)], r[i])
  {
    if i != cur {
      if Parent(i) == cur {
        assert i == 2 * cur + 1 || i == 2 * cur + 2;
      } else {
        assert !less(s[Parent(i)], s[i]);
      }
    }
  }

  lemma FillHole<T>(less: (T, T) -> bool, s: seq<T>, n: nat, cur: nat, x: T)
    requires n <= |s| && cur < |s| && OrderedAround(less, s, n, cur, x)
    requires AboveChildren(less, x, s, n, cur)
    ensures Heap(less, s[cur := x], n)
  {
    var r := s[cur := x];
    forall i: nat | 1 <= i < n
      ensures !less(r[Parent(i)], r[i])
    {
      FilledAt(less, s, n, cur, x, i);
    }
  }

  lemma SplitOffLast<T>(s: seq<T>, r: seq<T>, m: nat)
    requires 1 <= m && |s| == |r| + 1 && m <= |r|
    requires multiset(r) + multiset{s[0]} == multiset(s)
    requires r[m..] == s[m..|r|]
    ensures multiset(r[..m]) == multiset(s[..m]) - multiset{s[0]} + multiset{s[|r|]}
  {
    var x, tail := s[|r|], r[m..];
    MultisetOfSplit(r, m);
    assert s == s[..m] + tail + [x];
    var before, after := multiset(s[..m]), multiset(r[..m]);
    assert (before + multiset{x}) + multiset(tail) == multiset(s);
    assert (after + multiset{s[0]}) + multiset(tail) == multiset(s);
    Cancel(before + multiset{x}, after + multiset{s[0]}, multiset(tail));
    assert s[0] == s[..m][0];
    Exchange(after, before, s[0], x);
  }

  /** The outcome of `reheap`: the first element is gone, the last one has gone into the heap
      of `mark` elements, and nothing else has. */
  ghost predicate PushedDown<T>(less: (T, T) -> bool, s: seq<T>, mark: nat, r: seq<T>)
    requires |s| > 0 && mark <= |s|
  {
    var last := s[|s| - 1];
    var m: nat := if mark < |s| then mark else |s| - 1;
    && |r| == |s| - 1 && Heap(less, r, m)
    && if m == 0 then r == (if |s| == 1 then [] else [last] + s[1..|s| - 1])
       else
         && multiset(r[..m]) == multiset(s[..m]) - multiset{s[0]} + multiset{last}
         && r[m..] == s[m..|s| - 1]
  }

  /** With its first element put into the hole at `cur`, `r` is a permutation of `s`; the
      elements from `mark` on are where they were. */
  ghost predicate Carried<T>(s: seq<T>, mark: nat, r: seq<T>, cur: nat)
    requires |s| > 0 && mark <= |s|
  {
    && |r| == |s| && cur < |s| && (cur == 0 || cur < mark)
    && (forall i :: mark <= i < |s| ==> r[i] == s[i])
    && r[|s| - 1] == s[|s| - 1]
    && multiset(r[cur := s[0]]) == multiset(s)
  }

  lemma LowerCarries<T>(s: seq<T>, mark: nat, r: seq<T>, cur: nat, target: nat)
    requires |s| > 0 && mark <= |s| && Carried(s, mark, r, cur) && cur < target < mark
    ensures Carried(s, mark, r[cur := r[target]], target)
  {
    MoveHole(r, cur, target, s[0]);
  }

  lemma HeapPrefix<T>(less: (T, T) -> bool, s: seq<T>, n: nat, r: seq<T>, m: nat)
    requires m <= n <= |s| && m <= |r| && Heap(less, s, n) && r[..m] == s[..m]
    ensures Heap(less, r, m)
  {
    assert forall i: nat :: i < m ==> r[i] == r[..m][i] == s[i];
  }

  lemma TargetIsAbove<T(!new)>(less: (T, T) -> bool, s: seq<T>, n: nat, cur: nat, target: nat, x: T)
    requires StrictWeak(less) && n <= |s|
    requires target == 2 * cur + 1 || target == 2 * cur + 2
    requires target < n
    requires target == 2 * cur + 1 ==> target + 1 < n ==> !less(s[target], s[target + 1])
    requires target == 2 * cur + 2 ==> less(s[target - 1], s[target])
    ensures AboveChildren(less, s[target], s, n, cur)
    ensures less(s[target], x) ==> AboveChildren(less, x, s, n, cur)
  {
  }

  lemma CarriedIsPermuted<T>(s: seq<T>, mark: nat, r: seq<T>, cur: nat)
    requires |s| > 0 && mark <= |s| && Carried(s, mark, r, cur)
    ensures multiset(r[cur := s[|s| - 1]][..|s| - 1]) + multiset{s[0]} == multiset(s)
  {
    var full := r[cur := s[|s| - 1]];
    assert full == full[..|s| - 1] + [s[|s| - 1]];
    assert full[cur := s[0]] == r[cur := s[0]];
    var a, b, c := multiset(full), multiset{s[|s| - 1]}, multiset{s[0]};
    assert multiset(full[..|s| - 1]) + b == a;
    assert a - b + c == multiset(s);
  }

  /** The last element has been put into the hole, and its old place is gone. */
  lemma PlaceLast<T>(s: seq<T>, mark: nat, r: seq<T>, cur: nat, m: nat)
    requires |s| > 1 && 0 < mark <= |s| && Carried(s, mark, r, cur)
    requires m == if mark < |s| then mark else |s| - 1
    ensures var out := r[cur := s[|s| - 1]][..|s| - 1];
            multiset(out[..m]) == multiset(s[..m]) - multiset{s[0]} + multiset{s[|s| - 1]}
            && out[m..] == s[m..|s| - 1]
  {
    CarriedIsPermuted(s, mark, r, cur);
    var out := r[cur := s[|s| - 1]][..|s| - 1];
    assert forall i :: m <= i < |s| - 1 ==> out[i] == s[i];
    assert out[m..] == s[m..|s| - 1];
    SplitOffLast(s, out, m);
  }

  lemma PushedDownAtEnd<T>(less: (T, T) -> bool, s: seq<T>, mark: nat, r: seq<T>, cur: nat)
    requires |s| > 0 && mark <= |s| && Carried(s, mark, r, cur)
    requires OrderedAround(less, r, mark, cur, s[|s| - 1]) && AboveChildren(less, s[|s| - 1], r, mark, cur)
    ensures PushedDown(less, s, mark, r[cur := s[|s| - 1]][..|s| - 1])
  {
    var n, last := |s|, s[|s| - 1];
    var full := r[cur := last];
    var m: nat := if mark < n then mark else n - 1;
    assert Heap(less, full[..n - 1], m) by {
      FillHole(less, r, mark, cur, last);
      HeapPrefix(less, full, mark, full[..n - 1], m);
    }
    if m >= 1 {
      PlaceLast(s, mark, r, cur, m);
    }
  }

  /** One turn of the loop of `reheap`: either the last element belongs into the hole, or the
      child of higher priority moves up and the hole down. */
  method LowerOnce<T(!new)>(less: (T, T) -> bool, s: seq<T>, mark: nat, r: seq<T>, cur: nat)
    returns (fits: bool, next: seq<T>, target: nat)
    requires StrictWeak(less) && |s| > 0 && mark <= |s| && 2 * cur + 1 < mark
    requires Carried(s, mark, r, cur) && OrderedAround(less, r, mark, cur, s[|s| - 1])
    ensures fits ==> AboveChildren(less, s[|s| - 1], r, mark, cur)
    ensures !fits ==>
              cur < target && Carried(s, mark, next, target)
              && OrderedAround(less, next, mark, target, s[|s| - 1])
  {
    var child, last := 2 * cur + 1, s[|s| - 1];
    target := child;
    if child + 1 < mark && less(r[child], r[child + 1]) {
      target := target + 1;
    }
    TargetIsAbove(less, r, mark, cur, target, last);
    fits, next := less(r[target], last), r;
    if !fits {
      LowerKeepsOrder(less, r, mark, cur, last, target);
      LowerCarries(s, mark, r, cur, target);
      next := r[cur := r[target]];
    }
  }

  /** `reheap`: the first element is gone, and the last takes its place, going down the heap. */
  method PushDown<T(!new)>(less: (T, T) -> bool, s: seq<T>, mark: nat) returns (r: seq<T>)
    requires StrictWeak(less) && |s| > 0 && mark <= |s| && HeapFrom(less, s, 3, mark)
    ensures PushedDown(less, s, mark, r)
  {
    var cur: nat := 0;
    r := s;
    while 2 * cur + 1 < mark
      invariant Carried(s, mark, r, cur) && OrderedAround(less, r, mark, cur, s[|s| - 1])
      decreases |s| - cur
    {
      var fits, next, target := LowerOnce(less, s, mark, r, cur);
      if fits {
        break;
      }
      r, cur := next, target;
    }
    PushedDownAtEnd(less, s, mark, r, cur);
    r := r[cur := s[|s| - 1]][..|s| - 1];
  }

  /** If all is in the heap, just the first element is gone. */
  lemma WholeHeapPopped<T>(less: (T, T) -> bool, data: seq<T>, data2: seq<T>)
    requires data != [] && PushedDown(less, data, |data|, data2)
    ensures multiset(data2) == multiset(data) - multiset{data[0]}
  {
    var n := |data| - 1;
    assert data == data[..n] + [data[n]];
    assert multiset(data) == multiset(data[..n]) + multiset{data[n]};
    assert data2[..n] == data2;
    assert n > 0 ==> data[..n][0] == data[0];
  }
}
