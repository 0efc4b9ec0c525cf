/**
  Binary heaps over sequences, as container/heap keeps them for core/tx_list.go: the nonce
  index of a transaction list and the price index of the pool. Elements are ordered by a key.
 */
module Heaps {

  function Parent(k: nat): nat
    requires k > 0
  {
    (k - 1) / 2
  }

  predicate Edge<T>(h: seq<T>, key: T -> int, k: nat)
    requires 0 < k < |h|
  {
    key(h[Parent(k)]) <= key(h[k])
  }

  ghost predicate IsHeap<T>(h: seq<T>, key: T -> int) {
    forall k | 0 < k < |h| :: Edge(h, key, k)
  }

  /** The first element of a heap is a least one. */
  lemma {:induction false} HeapMin<T>(h: seq<T>, key: T -> int, k: nat)
    requires IsHeap(h, key) && k < |h|
    ensures key(h[0]) <= key(h[k])
  {
    if k > 0 {
      assert Edge(h, key, k);
      HeapMin(h, key, Parent(k));
    }
  }

  /**
    A heap from lo on in its first n elements, but for the edge above bad and those below loose. The
    elements below a loose place are not less than the one above it.
   */
  ghost predicate HeapBut<T>(h: seq<T>, key: T -> int, n: nat, lo: nat, bad: int, loose: int) {
    && n <= |h|
    && (forall k | 0 < k < n :: Parent(k) >= lo && k != bad && Parent(k) != loose ==> Edge(h, key, k))
  }

  ghost predicate Grand<T>(h: seq<T>, key: T -> int, n: nat, lo: nat, i: nat) {
    && i < n <= |h|
    && (i > 0 && Parent(i) >= lo ==> forall k | 0 < k < n && Parent(k) == i :: key(h[Parent(i)]) <= key(h[k]))
  }

  function Swap<T>(h: seq<T>, i: nat, j: nat): (r: seq<T>)
    requires i < |h| && j < |h|
    ensures |r| == |h|
    ensures forall k | 0 <= k < |h| :: r[k] == if k == j then h[i] else if k == i then h[j] else h[k]
  {
    h[i := h[j]][j := h[i]]
  }

  lemma SwapKeepsAll<T>(h: seq<T>, i: nat, j: nat)
    requires i < |h| && j < |h|
    ensures multiset(Swap(h, i, j)) == multiset(h)
  {
    assert multiset(h[i := h[j]]) == multiset(h) - multiset{h[i]} + multiset{h[j]};
  }

  // ---------- Moving one element ----------

  lemma UpStep<T>(h: seq<T>, key: T -> int, n: nat, j: nat)
    requires 0 < j && HeapBut(h, key, n, 0, j, -1) && Grand(h, key, n, 0, j) && key(h[j]) < key(h[Parent(j)])
    ensures var r := Swap(h, Parent(j), j); HeapBut(r, key, n, 0, Parent(j), -1) && Grand(r, key, n, 0, Parent(j))
  {
    var i := Parent(j);
    var r := Swap(h, i, j);
    forall k | 0 < k < n && k != i
      ensures Edge(r, key, k)
    {
      if k != j {
        assert Edge(h, key, k);
      }
    }
    if i > 0 {
      assert Edge(h, key, i);
      forall k | 0 < k < n && Parent(k) == i
        ensures key(r[Parent(i)]) <= key(r[k])
      {
        if k != j {
          assert Edge(h, key, k);
        }
      }
    }
  }

  /** heap.up. */
  method Up<T>(h: seq<T>, key: T -> int, j0: nat) returns (r: seq<T>)
    requires j0 < |h| && HeapBut(h, key, |h|, 0, j0, -1) && Grand(h, key, |h|, 0, j0)
    ensures IsHeap(r, key) && multiset(r) == multiset(h)
  {
    r := h;
    var j := j0;
    while j > 0 && key(r[j]) < key(r[Parent(j)])
      invariant |r| == |h| && 0 <= j < |r| && HeapBut(r, key, |r|, 0, j, -1) && Grand(r, key, |r|, 0, j)
      invariant multiset(r) == multiset(h)
      decreases j
    {
      UpStep(r, key, |r|, j);
      SwapKeepsAll(r, Parent(j), j);
      r := Swap(r, Parent(j), j);
      j := Parent(j);
    }
  }

  lemma DownStep<T>(h: seq<T>, key: T -> int, n: nat, lo: nat, i: nat, j: nat)
    requires HeapBut(h, key, n, lo, -1, i) && Grand(h, key, n, lo, i) && lo <= i
    requires 0 < j < n && Parent(j) == i && key(h[j]) < key(h[i])
    requires forall k | 0 < k < n && Parent(k) == i :: key(h[j]) <= key(h[k])
    ensures var r := Swap(h, i, j); HeapBut(r, key, n, lo, -1, j) && Grand(r, key, n, lo, j)
  {
    var r := Swap(h, i, j);
    forall k | 0 < k < n && Parent(k) >= lo && Parent(k) != j
      ensures Edge(r, key, k)
    {
      if Parent(k) != i {
        assert Edge(h, key, k);
      }
    }
    forall k | 0 < k < n && Parent(k) == j
      ensures key(r[Parent(j)]) <= key(r[k])
    {
      assert Edge(h, key, k);
    }
  }

  /** The lesser of the children of i. */
  method LesserChild<T>(h: seq<T>, key: T -> int, n: nat, i: nat) returns (j: nat)
    requires n <= |h| && 2 * i + 1 < n
    ensures 0 < j < n && Parent(j) == i && forall k | 0 < k < n && Parent(k) == i :: key(h[j]) <= key(h[k])
  {
    j := 2 * i + 1;
    if j + 1 < n && key(h[j + 1]) < key(h[j]) {
      j := j + 1;
    }
    assert forall k | 0 < k < n && Parent(k) == i :: k == 2 * i + 1 || k == 2 * i + 2;
  }

  /** heap.down in the first n elements. With a bad edge above i0, the element there is least and stays. */
  method Down<T>(h: seq<T>, key: T -> int, n: nat, lo: nat, i0: nat, ghost bad: int) returns (r: seq<T>, moved: bool)
    requires lo <= i0 < n && HeapBut(h, key, n, lo, bad, i0) && Grand(h, key, n, lo, i0)
    requires bad == -1 || forall k | 0 < k < n && Parent(k) == i0 :: Edge(h, key, k)
    ensures |r| == |h| && HeapBut(r, key, n, lo, bad, -1) && multiset(r) == multiset(h)
    ensures r[n..] == h[n..] && (!moved ==> r == h) && (bad != -1 ==> !moved)
  {
    r := h;
    var i := i0;
    while 2 * i + 1 < n
      invariant |r| == |h| && i0 <= i < n && HeapBut(r, key, n, lo, bad, i) && Grand(r, key, n, lo, i)
      invariant multiset(r) == multiset(h) && r[n..] == h[n..] && (i == i0 ==> r == h) && (bad != -1 ==> i == i0)
      decreases n - i
    {
      var j := LesserChild(r, key, n, i);
      assert bad != -1 ==> Edge(h, key, j);
      if !(key(r[j]) < key(r[i])) {
        break;
      }
      DownStep(r, key, n, lo, i, j);
      SwapKeepsAll(r, i, j);
      r := Swap(r, i, j);
      i := j;
    }
    moved := i > i0;
  }

  // ---------- The operations ----------

  /** heap.Push. */
  method Push<T>(h: seq<T>, key: T -> int, x: T) returns (r: seq<T>)
    requires IsHeap(h, key)
    ensures IsHeap(r, key) && multiset(r) == multiset(h) + multiset{x}
  {
    var more := h + [x];
    forall k | 0 < k < |more| - 1
      ensures Edge(more, key, k)
    {
      assert Edge(h, key, k);
    }
    r := Up(more, key, |h|);
  }

  lemma LastToFront<T>(h: seq<T>, key: T -> int, i: nat)
    requires IsHeap(h, key) && i < |h| - 1
    ensures var r := Swap(h, i, |h| - 1);
            HeapBut(r, key, |h| - 1, 0, i, i) && Grand(r, key, |h| - 1, 0, i) && r[|h| - 1..] == [h[i]]
  {
    var r, n := Swap(h, i, |h| - 1), |h| - 1;
    forall k | 0 < k < n && k != i && Parent(k) != i
      ensures Edge(r, key, k)
    {
      assert Edge(h, key, k);
    }
    if i > 0 {
      assert Edge(h, key, i);
      forall k | 0 < k < n && Parent(k) == i
        ensures key(r[Parent(i)]) <= key(r[k])
      {
        assert Edge(h, key, k);
      }
    }
  }

  lemma CutLast<T>(h: seq<T>, key: T -> int, n: nat, bad: int)
    requires |h| == n + 1 && HeapBut(h, key, n, 0, bad, -1)
    ensures HeapBut(h[..n], key, n, 0, bad, -1) && multiset(h[..n]) + multiset{h[n]} == multiset(h)
  {
    assert h == h[..n] + [h[n]];
    var r := h[..n];
    forall k | 0 < k < n && k != bad
      ensures Edge(r, key, k)
    {
      assert Edge(h, key, k);
    }
  }

  /** heap.Remove: takes out the element at i; with i == 0, heap.Pop. */
  method Remove<T>(h: seq<T>, key: T -> int, i: nat) returns (x: T, r: seq<T>)
    requires IsHeap(h, key) && i < |h|
    ensures x == h[i] && IsHeap(r, key) && multiset(r) + multiset{x} == multiset(h)
  {
    x := h[i];
    var n := |h| - 1;
    if i == n {
      assert HeapBut(h, key, n, 0, -1, -1);
      CutLast(h, key, n, -1);
      return x, h[..n];
    }
    var s := Swap(h, i, n);
    LastToFront(h, key, i);
    SwapKeepsAll(h, i, n);
    ghost var bad := if i > 0 && !Edge(s, key, i) then i as int else -1;
    var t, moved := Down(s, key, n, 0, i, bad);
    assert t[n] == t[n..][0] == x;
    CutLast(t, key, n, bad);
    if moved {
      r := t[..n];
    } else {
      assert t == s;
      LooseEnd(s, key, n, i);
      r := Up(t[..n], key, i);
    }
  }

  lemma LooseEnd<T>(s: seq<T>, key: T -> int, n: nat, i: nat)
    requires |s| == n + 1 && Grand(s, key, n, 0, i)
    ensures Grand(s[..n], key, n, 0, i)
  {
  }

  /** heap.Pop: a least element comes out. */
  method Pop<T>(h: seq<T>, key: T -> int) returns (x: T, r: seq<T>)
    requires IsHeap(h, key) && h != []
    ensures x == h[0] && IsHeap(r, key) && multiset(r) + multiset{x} == multiset(h)
    ensures forall y | y in h :: key(x) <= key(y)
  {
    forall y | y in h
      ensures key(h[0]) <= key(y)
    {
      var k :| 0 <= k < |h| && h[k] == y;
      HeapMin(h, key, k);
    }
    x, r := Remove(h, key, 0);
  }

  /** heap.Init. */
  method Init<T>(h: seq<T>, key: T -> int) returns (r: seq<T>)
    ensures IsHeap(r, key) && multiset(r) == multiset(h)
  {
    r := h;
    var i := |h| / 2;
    while i > 0
      invariant |r| == |h| && 0 <= i <= |h| / 2 && HeapBut(r, key, |r|, i, -1, -1) && multiset(r) == multiset(h)
    {
      i := i - 1;
      var moved;
      r, moved := Down(r, key, |r|, i, i, -1);
    }
  }

  predicate Sorted<T>(s: seq<T>, key: T -> int) {
    forall i, j | 0 <= i < j < |s| :: key(s[i]) <= key(s[j])
  }

  /** sort.Sort: any sorting will do, here by taking least elements from a heap. */
  method Sort<T>(s: seq<T>, key: T -> int) returns (r: seq<T>)
    ensures Sorted(r, key) && multiset(r) == multiset(s)
  {
    var h := Init(s, key);
    r := [];
    while h != []
      invariant IsHeap(h, key) && Sorted(r, key) && multiset(r) + multiset(h) == multiset(s)
      invariant forall x, y | x in r && y in h :: key(x) <= key(y)
      decreases |h|
    {
      ghost var before := h;
      var x;
      x, h := Pop(h, key);
      assert |before| == |multiset(before)| && |h| == |multiset(h)|;
      assert forall y | y in h :: y in multiset(before);
      r := r + [x];
    }
  }
}
