/** Binary min-heaps in a sequence: sifting up and down, and what follows from it
    for insertion, removal and building. */
module Heaps {

  /** Always true; naming three elements brings up the order laws for them. */
  ghost predicate Three<T>(a: T, b: T, c: T) {
    true
  }

  /** `less` is a strict weak order. */
  ghost predicate IsOrder<T(!new)>(less: (T, T) -> bool) {
    && (forall a, b, c {:trigger Three(a, b, c)} :: Three(a, b, c) && !less(b, a) && !less(c, b) ==> !less(c, a))
    && (forall a, b {:trigger less(a, b)} :: less(a, b) ==> !less(b, a))
  }

  function Parent(i: nat): (p: nat)
    ensures 0 < i ==> p < i
  {
    if i == 0 then 0 else (i - 1) / 2
  }

  /** Every element of the first `n` whose parent is at `lo` or later is no less
      than its parent. */
  ghost predicate HeapFrom<T(!new)>(s: seq<T>, n: nat, lo: nat, less: (T, T) -> bool)
    requires n <= |s|
  {
    forall k: nat {:trigger s[k]} :: 0 < k < n && lo <= Parent(k) ==> !less(s[k], s[Parent(k)])
  }

  ghost predicate IsHeap<T(!new)>(s: seq<T>, less: (T, T) -> bool) {
    HeapFrom(s, |s|, 0, less)
  }

  function Swap<T>(s: seq<T>, i: nat, j: nat): (r: seq<T>)
    requires i < |s| && j < |s|
    ensures |r| == |s|
  {
    s[i := s[j]][j := s[i]]
  }

  lemma SwapMultiset<T>(s: seq<T>, i: nat, j: nat)
    requires i < |s| && j < |s|
    ensures multiset(Swap(s, i, j)) == multiset(s)
  {
  }

  // ------------------------------------------------------------------ sifting up

  function Up<T>(s: seq<T>, j: nat, less: (T, T) -> bool): (r: seq<T>)
    requires j < |s|
    ensures |r| == |s|
    decreases j
  {
    if j == 0 || !less(s[j], s[Parent(j)]) then s
    else Up(Swap(s, Parent(j), j), Parent(j), less)
  }

  /** A heap but for the element at `j`, which may be too small for its place. */
  ghost predicate TooSmallAt<T(!new)>(s: seq<T>, j: nat, less: (T, T) -> bool) {
    && (forall k: nat {:trigger s[k]} :: 0 < k < |s| && k != j ==> !less(s[k], s[Parent(k)]))
    && (forall k: nat {:trigger s[k]} :: 0 < k < |s| && Parent(k) == j && 0 < j ==> !less(s[k], s[Parent(j)]))
  }

  lemma TooSmallUp<T(!new)>(s: seq<T>, j: nat, less: (T, T) -> bool)
    requires IsOrder(less) && 0 < j < |s|
    requires TooSmallAt(s, j, less) && less(s[j], s[Parent(j)])
    ensures TooSmallAt(Swap(s, Parent(j), j), Parent(j), less)
  {
    var i := Parent(j);
    var r := Swap(s, i, j);
    forall k: nat | 0 < k < |s| && k != i ensures !less(r[k], r[Parent(k)]) {
      if k == j {
        assert less(s[j], s[i]);
      } else if Parent(k) == i {
        assert Three(s[j], s[i], s[k]);
      } else if Parent(k) == j {
        assert r[k] == s[k];
      }
    }
    forall k: nat | 0 < k < |s| && Parent(k) == i && 0 < i ensures !less(r[k], r[Parent(i)]) {
      assert !less(s[i], s[Parent(i)]);
      if k != j {
        assert Three(s[Parent(i)], s[i], s[k]);
      }
    }
  }

  lemma {:induction false} UpHeap<T(!new)>(s: seq<T>, j: nat, less: (T, T) -> bool)
    requires IsOrder(less) && j < |s|
    requires TooSmallAt(s, j, less)
    ensures IsHeap(Up(s, j, less), less)
    ensures multiset(Up(s, j, less)) == multiset(s)
    decreases j
  {
    if 0 < j && less(s[j], s[Parent(j)]) {
      TooSmallUp(s, j, less);
      SwapMultiset(s, Parent(j), j);
      UpHeap(Swap(s, Parent(j), j), Parent(j), less);
    }
  }

  // ---------------------------------------------------------------- sifting down

  /** The child that moves up when sifting down: the lesser one; `rightOnTie`
      says which one that is when neither is less. */
  function LesserChild<T>(s: seq<T>, i: nat, n: nat, less: (T, T) -> bool, rightOnTie: bool): (j: nat)
    requires 2 * i + 1 < n <= |s|
    ensures j < n && Parent(j) == i && i < j
  {
    var left, right := 2 * i + 1, 2 * i + 2;
    if right < n && (if rightOnTie then !less(s[left], s[right]) else less(s[right], s[left])) then right else left
  }

  predicate Sinks<T>(s: seq<T>, i: nat, n: nat, less: (T, T) -> bool, rightOnTie: bool)
    requires n <= |s|
  {
    2 * i + 1 < n && less(s[LesserChild(s, i, n, less, rightOnTie)], s[i])
  }

  /** Sifts the element at `i` down within the first `n`. */
  function Down<T>(s: seq<T>, i: nat, n: nat, less: (T, T) -> bool, rightOnTie: bool): (r: seq<T>)
    requires n <= |s|
    ensures |r| == |s|
    ensures forall k :: n <= k < |s| ==> r[k] == s[k]
    decreases if i < n then n - i else 0
  {
    if !Sinks(s, i, n, less, rightOnTie) then s
    else
      var j := LesserChild(s, i, n, less, rightOnTie);
      Down(Swap(s, i, j), j, n, less, rightOnTie)
  }

  /** A heap from `lo` on but for the element at `i`, which may be too large. */
  ghost predicate TooLargeAt<T(!new)>(s: seq<T>, i: nat, n: nat, lo: nat, less: (T, T) -> bool)
    requires n <= |s|
  {
    && (forall k: nat {:trigger s[k]} :: 0 < k < n && lo <= Parent(k) != i ==> !less(s[k], s[Parent(k)]))
    && (forall k: nat {:trigger s[k]} :: 0 < k < n && Parent(k) == i && 0 < i && lo <= Parent(i) ==>
          !less(s[k], s[Parent(i)]))
  }

  lemma LesserChildIsLeast<T(!new)>(s: seq<T>, i: nat, n: nat, less: (T, T) -> bool, rightOnTie: bool)
    requires IsOrder(less) && 2 * i + 1 < n <= |s|
    ensures forall k: nat {:trigger s[k]} :: 0 < k < n && Parent(k) == i ==>
      !less(s[k], s[LesserChild(s, i, n, less, rightOnTie)])
  {
  }

  lemma TooLargeDown<T(!new)>(s: seq<T>, i: nat, n: nat, lo: nat, less: (T, T) -> bool, rightOnTie: bool)
    requires IsOrder(less) && n <= |s| && lo <= i
    requires TooLargeAt(s, i, n, lo, less) && Sinks(s, i, n, less, rightOnTie)
    ensures
      var j := LesserChild(s, i, n, less, rightOnTie);
      TooLargeAt(Swap(s, i, j), j, n, lo, less)
  {
    LesserChildIsLeast(s, i, n, less, rightOnTie);
    var j := LesserChild(s, i, n, less, rightOnTie);
    var r := Swap(s, i, j);
    forall k: nat | 0 < k < n && lo <= Parent(k) != j ensures !less(r[k], r[Parent(k)]) {
      if Parent(k) == i {
        assert k == j || r[k] == s[k];
      } else if k == i {
        assert !less(s[j], s[Parent(i)]);
      }
    }
    forall k: nat | 0 < k < n && Parent(k) == j && 0 < j && lo <= Parent(j) ensures !less(r[k], r[Parent(j)]) {
      assert r[k] == s[k] && r[i] == s[j];
    }
  }

  lemma {:induction false} DownHeap<T(!new)>(s: seq<T>, i: nat, n: nat, lo: nat, less: (T, T) -> bool, rightOnTie: bool)
    requires IsOrder(less) && n <= |s| && lo <= i
    requires TooLargeAt(s, i, n, lo, less)
    ensures HeapFrom(Down(s, i, n, less, rightOnTie), n, lo, less)
    ensures multiset(Down(s, i, n, less, rightOnTie)) == multiset(s)
    decreases if i < n then n - i else 0
  {
    if Sinks(s, i, n, less, rightOnTie) {
      var j := LesserChild(s, i, n, less, rightOnTie);
      TooLargeDown(s, i, n, lo, less, rightOnTie);
      SwapMultiset(s, i, j);
      DownHeap(Swap(s, i, j), j, n, lo, less, rightOnTie);
    } else if 2 * i + 1 < n {
      LesserChildIsLeast(s, i, n, less, rightOnTie);
      var j := LesserChild(s, i, n, less, rightOnTie);
      forall k: nat | 0 < k < n && Parent(k) == i ensures !less(s[k], s[i]) {
        assert Three(s[i], s[j], s[k]);
      }
    }
  }

  // -------------------------------------------------------------- heap operations

  /** The first element of a heap is a least one. */
  lemma {:induction false} TopIsLeast<T(!new)>(s: seq<T>, k: nat, less: (T, T) -> bool)
    requires IsOrder(less) && IsHeap(s, less) && k < |s|
    ensures !less(s[k], s[0])
  {
    if k == 0 {
      assert !less(s[0], s[0]);
    } else {
      TopIsLeast(s, Parent(k), less);
      assert Three(s[0], s[Parent(k)], s[k]);
    }
  }

  function Push<T>(h: seq<T>, x: T, less: (T, T) -> bool): (r: seq<T>) {
    Up(h + [x], |h|, less)
  }

  lemma PushHeap<T(!new)>(h: seq<T>, x: T, less: (T, T) -> bool)
    requires IsOrder(less) && IsHeap(h, less)
    ensures IsHeap(Push(h, x, less), less)
    ensures multiset(Push(h, x, less)) == multiset(h) + multiset{x}
  {
    var s := h + [x];
    forall k: nat | 0 < k < |h| ensures !less(s[k], s[Parent(k)]) {
      assert h[k] == s[k];
    }
    UpHeap(s, |h|, less);
  }

  /** What is left of a heap after taking out its first element. */
  function Pop<T>(h: seq<T>, less: (T, T) -> bool, rightOnTie: bool): (r: seq<T>)
    requires h != []
    ensures |r| == |h| - 1
  {
    var n := |h| - 1;
    Down(Swap(h, 0, n), 0, n, less, rightOnTie)[..n]
  }

  lemma PrefixHeap<T(!new)>(s: seq<T>, n: nat, less: (T, T) -> bool)
    requires n <= |s| && HeapFrom(s, n, 0, less)
    ensures IsHeap(s[..n], less)
  {
  }

  lemma AllLeast<T(!new)>(h: seq<T>, less: (T, T) -> bool)
    requires IsOrder(less) && IsHeap(h, less) && h != []
    ensures forall x :: x in h ==> !less(x, h[0])
  {
    forall x | x in h ensures !less(x, h[0]) {
      var k :| 0 <= k < |h| && h[k] == x;
      TopIsLeast(h, k, less);
    }
  }

  lemma PopHeap<T(!new)>(h: seq<T>, less: (T, T) -> bool, rightOnTie: bool)
    requires IsOrder(less) && IsHeap(h, less) && h != []
    ensures IsHeap(Pop(h, less, rightOnTie), less)
    ensures multiset(h) == multiset{h[0]} + multiset(Pop(h, less, rightOnTie))
  {
    var n := |h| - 1;
    var s := Swap(h, 0, n);
    assert TooLargeAt(s, 0, n, 0, less) by {
      forall k: nat | 0 < k < n && Parent(k) != 0 ensures !less(s[k], s[Parent(k)]) {
        assert h[k] == s[k];
      }
    }
    DownHeap(s, 0, n, 0, less, rightOnTie);
    PrefixHeap(Down(s, 0, n, less, rightOnTie), n, less);
    PopMultiset(h, less, rightOnTie);
  }

  lemma PopMultiset<T(!new)>(h: seq<T>, less: (T, T) -> bool, rightOnTie: bool)
    requires h != []
    requires multiset(Down(Swap(h, 0, |h| - 1), 0, |h| - 1, less, rightOnTie)) == multiset(Swap(h, 0, |h| - 1))
    ensures multiset(h) == multiset{h[0]} + multiset(Pop(h, less, rightOnTie))
  {
    var n := |h| - 1;
    var r := Down(Swap(h, 0, n), 0, n, less, rightOnTie);
    SwapMultiset(h, 0, n);
    assert r == r[..n] + [h[0]];
  }

  /** Sifts down every element before `k`, last first. */
  function InitFrom<T>(s: seq<T>, k: nat, less: (T, T) -> bool, rightOnTie: bool): (r: seq<T>)
    ensures |r| == |s|
    decreases k
  {
    if k == 0 then s
    else InitFrom(Down(s, k - 1, |s|, less, rightOnTie), k - 1, less, rightOnTie)
  }

  function Init<T>(s: seq<T>, less: (T, T) -> bool, rightOnTie: bool): (r: seq<T>) {
    InitFrom(s, |s| / 2, less, rightOnTie)
  }

  lemma {:induction false} InitFromHeap<T(!new)>(s: seq<T>, k: nat, less: (T, T) -> bool, rightOnTie: bool)
    requires IsOrder(less) && HeapFrom(s, |s|, k, less)
    ensures IsHeap(InitFrom(s, k, less, rightOnTie), less)
    ensures multiset(InitFrom(s, k, less, rightOnTie)) == multiset(s)
    decreases k
  {
    if k != 0 {
      DownHeap(s, k - 1, |s|, k - 1, less, rightOnTie);
      InitFromHeap(Down(s, k - 1, |s|, less, rightOnTie), k - 1, less, rightOnTie);
    }
  }

  lemma InitHeap<T(!new)>(s: seq<T>, less: (T, T) -> bool, rightOnTie: bool)
    requires IsOrder(less)
    ensures IsHeap(Init(s, less, rightOnTie), less)
    ensures multiset(Init(s, less, rightOnTie)) == multiset(s)
  {
    InitFromHeap(s, |s| / 2, less, rightOnTie);
  }

  /** What is left of a heap after taking out the element at `i`: the last element
      takes its place and is sifted down, or up if it does not sink. */
  function RemoveAt<T>(h: seq<T>, i: nat, less: (T, T) -> bool): (r: seq<T>)
    requires i < |h|
    ensures |r| == |h| - 1
  {
    var n := |h| - 1;
    if i == n then h[..n] else Sifted(h[..n][i := h[n]], i, less)
  }

  /** Sifts an element down, or up if it does not sink. */
  function Sifted<T>(s: seq<T>, i: nat, less: (T, T) -> bool): (r: seq<T>)
    requires i < |s|
    ensures |r| == |s|
  {
    if Sinks(s, i, |s|, less, false) then Down(s, i, |s|, less, false) else Up(s, i, less)
  }

  lemma ReplaceMultiset<T>(h: seq<T>, i: nat, x: T)
    requires i < |h|
    ensures multiset(h[i := x]) + multiset{h[i]} == multiset(h) + multiset{x}
  {
  }

  lemma RemoveAtHeap<T(!new)>(h: seq<T>, i: nat, less: (T, T) -> bool)
    requires IsOrder(less) && IsHeap(h, less) && i < |h|
    ensures IsHeap(RemoveAt(h, i, less), less)
    ensures multiset(h) == multiset{h[i]} + multiset(RemoveAt(h, i, less))
  {
    RemoveAtSifted(h, i, less);
    RemovedMultiset(h, i, RemoveAt(h, i, less));
  }

  lemma RemoveAtSifted<T(!new)>(h: seq<T>, i: nat, less: (T, T) -> bool)
    requires IsOrder(less) && IsHeap(h, less) && i < |h|
    ensures IsHeap(RemoveAt(h, i, less), less)
    ensures i < |h| - 1 ==> multiset(RemoveAt(h, i, less)) == multiset(h[..|h| - 1][i := h[|h| - 1]])
  {
    var n := |h| - 1;
    var front := h[..n];
    PrefixHeap(h, n, less);
    if i == n {
      assert RemoveAt(h, i, less) == front;
    } else {
      ReplacedInHeap(front, i, h[n], less);
      assert RemoveAt(h, i, less) == Sifted(front[i := h[n]], i, less);
    }
  }

  lemma RemovedMultiset<T>(h: seq<T>, i: nat, r: seq<T>)
    requires i < |h| && (i < |h| - 1 ==> multiset(r) == multiset(h[..|h| - 1][i := h[|h| - 1]]))
    requires (i == |h| - 1 ==> r == h[..i])
    ensures multiset(h) == multiset{h[i]} + multiset(r)
  {
    var n := |h| - 1;
    var front := h[..n];
    assert h == front + [h[n]];
    if i < n {
      ReplaceMultiset(front, i, h[n]);
    }
  }

  /** Restoring a heap after one element was replaced by an arbitrary one. */
  lemma ReplacedInHeap<T(!new)>(h: seq<T>, i: nat, x: T, less: (T, T) -> bool)
    requires IsOrder(less) && IsHeap(h, less) && i < |h|
    ensures IsHeap(Sifted(h[i := x], i, less), less)
    ensures multiset(Sifted(h[i := x], i, less)) == multiset(h[i := x])
  {
    var s := h[i := x];
    forall k: nat | 0 < k < |s| && k != i && Parent(k) != i ensures !less(s[k], s[Parent(k)]) {
      assert h[k] == s[k];
    }
    forall k: nat | 0 < k < |s| && Parent(k) == i && 0 < i ensures !less(s[k], s[Parent(i)]) {
      assert s[k] == h[k] && !less(h[k], h[i]) && !less(h[i], h[Parent(i)]);
      assert Three(h[Parent(i)], h[i], h[k]);
    }
    if Sinks(s, i, |s|, less, false) {
      var j := LesserChild(s, i, |s|, less, false);
      if 0 < i {
        assert !less(s[j], s[Parent(i)]) && !less(x, s[j]);
        assert Three(s[Parent(i)], s[j], x);
      }
      DownHeap(s, i, |s|, 0, less, false);
    } else {
      if 2 * i + 1 < |s| {
        LesserChildIsLeast(s, i, |s|, less, false);
        var j := LesserChild(s, i, |s|, less, false);
        forall k: nat | 0 < k < |s| && Parent(k) == i ensures !less(s[k], s[i]) {
          assert Three(s[i], s[j], s[k]);
        }
      }
      UpHeap(s, i, less);
    }
  }
}
