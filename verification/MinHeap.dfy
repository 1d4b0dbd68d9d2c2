/**
 * Binary min-heaps over a sequence, ordered by an integer key, with the sift-up and sift-down
 * operations of Go's container/heap. The nonce index of a transaction list and the dial
 * history are such heaps.
 */
module MinHeap {

  function Parent(i: nat): nat
    requires i > 0
  {
    (i - 1) / 2
  }

  ghost predicate Ordered<T>(h: seq<T>, key: T -> int, i: nat) {
    0 < i < |h| ==> key(h[Parent(i)]) <= key(h[i])
  }

  ghost predicate IsHeap<T>(h: seq<T>, key: T -> int) {
    forall i: nat {:trigger Ordered(h, key, i)} :: Ordered(h, key, i)
  }

  /** The children of `i` are no smaller than the parent of `i`. */
  ghost predicate Bridged<T>(h: seq<T>, key: T -> int, i: nat, c: nat) {
    0 < i && 0 < c < |h| && Parent(c) == i && i < |h| ==> key(h[Parent(i)]) <= key(h[c])
  }

  function Swap<T>(h: seq<T>, i: nat, j: nat): (s: seq<T>)
    requires i < |h| && j < |h|
    ensures |s| == |h| && multiset(s) == multiset(h)
  {
    h[i := h[j]][j := h[i]]
  }

  /** The first element of a heap has the smallest key. */
  lemma {:induction false} HeapMin<T>(h: seq<T>, key: T -> int, i: nat)
    requires IsHeap(h, key) && i < |h|
    ensures key(h[0]) <= key(h[i])
    decreases i
  {
    if i > 0 {
      assert Ordered(h, key, i);
      HeapMin(h, key, Parent(i));
    }
  }

  /** Moves element `j0` up until its parent is no larger. */
  method Up<T>(h0: seq<T>, j0: nat, key: T -> int) returns (h: seq<T>)
    requires j0 < |h0|
    requires forall i: nat {:trigger Ordered(h0, key, i)} :: i != j0 ==> Ordered(h0, key, i)
    requires forall c: nat {:trigger Bridged(h0, key, j0, c)} :: Bridged(h0, key, j0, c)
    ensures IsHeap(h, key) && |h| == |h0| && multiset(h) == multiset(h0)
  {
    h := h0;
    var j: nat := j0;
    while j > 0 && key(h[j]) < key(h[Parent(j)])
      invariant j < |h| == |h0| && multiset(h) == multiset(h0)
      invariant forall i: nat {:trigger Ordered(h, key, i)} :: i != j ==> Ordered(h, key, i)
      invariant forall c: nat {:trigger Bridged(h, key, j, c)} :: Bridged(h, key, j, c)
      decreases j
    {
      UpStep(h, j, key);
      h := Swap(h, Parent(j), j);
      j := Parent(j);
    }
    forall i: nat ensures Ordered(h, key, i) {
    }
  }

  lemma UpStep<T>(h: seq<T>, j: nat, key: T -> int)
    requires 0 < j < |h| && key(h[j]) < key(h[Parent(j)])
    requires forall i: nat {:trigger Ordered(h, key, i)} :: i != j ==> Ordered(h, key, i)
    requires forall c: nat {:trigger Bridged(h, key, j, c)} :: Bridged(h, key, j, c)
    ensures var s := Swap(h, Parent(j), j);
            && (forall i: nat {:trigger Ordered(s, key, i)} :: i != Parent(j) ==> Ordered(s, key, i))
            && (forall c: nat {:trigger Bridged(s, key, Parent(j), c)} :: Bridged(s, key, Parent(j), c))
  {
    var s, p := Swap(h, Parent(j), j), Parent(j);
    forall i: nat | i != p ensures Ordered(s, key, i) {
      assert i != j ==> Ordered(h, key, i);
      assert Bridged(h, key, j, i);
    }
    forall c: nat ensures Bridged(s, key, p, c) {
      assert Ordered(h, key, p) && (c != j ==> Ordered(h, key, c));
    }
  }

  /** The heap property below the elements from `lo` on. */
  ghost predicate HeapFrom<T>(h: seq<T>, key: T -> int, lo: nat) {
    forall k: nat {:trigger Ordered(h, key, k)} :: k > 0 && Parent(k) >= lo ==> Ordered(h, key, k)
  }

  /** The heap property from `lo` on, but for the children of `i`. */
  ghost predicate HeapBut<T>(h: seq<T>, key: T -> int, lo: nat, i: nat) {
    && (forall k: nat {:trigger Ordered(h, key, k)} :: k > 0 && Parent(k) >= lo && Parent(k) != i ==>
        Ordered(h, key, k))
    && (forall c: nat {:trigger Bridged(h, key, i, c)} :: i > 0 && Parent(i) >= lo ==> Bridged(h, key, i, c))
  }

  /** Moves element `i0` down until its children are no smaller. */
  method Down<T>(h0: seq<T>, i0: nat, key: T -> int, ghost lo: nat) returns (h: seq<T>)
    requires lo <= i0 < |h0| && HeapBut(h0, key, lo, i0)
    ensures HeapFrom(h, key, lo) && |h| == |h0| && multiset(h) == multiset(h0)
  {
    h := h0;
    var i: nat := i0;
    while 2 * i + 1 < |h|
      invariant lo <= i < |h| == |h0| && multiset(h) == multiset(h0)
      invariant HeapBut(h, key, lo, i)
      decreases |h| - i
    {
      var j := SmallerChild(h, i, key);
      if key(h[i]) <= key(h[j]) {
        DownDone(h, i, key, lo);
        return;
      }
      DownStep(h, i, j, key, lo);
      h := Swap(h, i, j);
      i := j;
    }
    forall k: nat | k > 0 && Parent(k) >= lo ensures Ordered(h, key, k) {
    }
  }

  function SmallerChild<T>(h: seq<T>, i: nat, key: T -> int): (j: nat)
    requires 2 * i + 1 < |h|
    ensures j < |h| && j > 0 && Parent(j) == i
    ensures forall k: nat :: 0 < k < |h| && Parent(k) == i ==> key(h[j]) <= key(h[k])
  {
    var a, b := 2 * i + 1, 2 * i + 2;
    assert forall k: nat :: k > 0 && Parent(k) == i ==> k == a || k == b;
    if b < |h| && key(h[b]) <= key(h[a]) then b else a
  }

  lemma DownDone<T>(h: seq<T>, i: nat, key: T -> int, lo: nat)
    requires 2 * i + 1 < |h| && key(h[i]) <= key(h[SmallerChild(h, i, key)]) && HeapBut(h, key, lo, i)
    ensures HeapFrom(h, key, lo)
  {
    forall k: nat | k > 0 && Parent(k) >= lo ensures Ordered(h, key, k) {
    }
  }

  lemma DownStep<T>(h: seq<T>, i: nat, j: nat, key: T -> int, lo: nat)
    requires 2 * i + 1 < |h| && j == SmallerChild(h, i, key) && key(h[j]) < key(h[i])
    requires lo <= i && HeapBut(h, key, lo, i)
    ensures HeapBut(Swap(h, i, j), key, lo, j)
  {
    var s := Swap(h, i, j);
    forall k: nat | k > 0 && Parent(k) >= lo && Parent(k) != j ensures Ordered(s, key, k) {
      assert Parent(k) != i ==> Ordered(h, key, k);
      assert i > 0 && Parent(i) >= lo ==> Bridged(h, key, i, j);
    }
    forall c: nat ensures Bridged(s, key, j, c) {
      assert c > 0 && Parent(c) == j ==> Ordered(h, key, c);
    }
  }

  /** Makes any sequence a heap. */
  method Init<T>(h0: seq<T>, key: T -> int) returns (h: seq<T>)
    ensures IsHeap(h, key) && |h| == |h0| && multiset(h) == multiset(h0)
  {
    h := h0;
    var i := |h| / 2;
    while i > 0
      invariant 0 <= i <= |h| / 2 && |h| == |h0| && multiset(h) == multiset(h0)
      invariant HeapFrom(h, key, i)
    {
      i := i - 1;
      h := Down(h, i, key, i);
    }
    forall k: nat ensures Ordered(h, key, k) {
    }
  }

  method Push<T>(h0: seq<T>, x: T, key: T -> int) returns (h: seq<T>)
    requires IsHeap(h0, key)
    ensures IsHeap(h, key) && multiset(h) == multiset(h0) + multiset{x} && |h| == |h0| + 1
  {
    h := h0 + [x];
    forall i: nat | i != |h0| ensures Ordered(h, key, i) {
      assert Ordered(h0, key, i);
    }
    h := Up(h, |h0|, key);
  }

  /** Takes out the element with the smallest key. */
  method Pop<T>(h0: seq<T>, key: T -> int) returns (x: T, h: seq<T>)
    requires IsHeap(h0, key) && h0 != []
    ensures x == h0[0] && IsHeap(h, key) && multiset(h) == multiset(h0) - multiset{x} && |h| == |h0| - 1
    ensures forall y :: y in h0 ==> key(x) <= key(y)
  {
    var n := |h0| - 1;
    x := h0[0];
    forall y | y in h0 ensures key(x) <= key(y) {
      var i :| 0 <= i < |h0| && h0[i] == y;
      HeapMin(h0, key, i);
    }
    h := Cut(h0, 0);
    if n > 0 {
      forall k: nat | k > 0 && Parent(k) >= 0 && Parent(k) != 0 ensures Ordered(h, key, k) {
        assert Ordered(h0, key, k);
      }
      h := Down(h, 0, key, 0);
    }
    forall k: nat ensures Ordered(h, key, k) {
    }
  }

  /** Takes out element `i`. */
  method Remove<T>(h0: seq<T>, i: nat, key: T -> int) returns (h: seq<T>)
    requires IsHeap(h0, key) && i < |h0|
    ensures IsHeap(h, key) && multiset(h) == multiset(h0) - multiset{h0[i]} && |h| == |h0| - 1
  {
    h := Cut(h0, i);
    forall k: nat | k != i && (k > 0 ==> Parent(k) != i) ensures Ordered(h, key, k) {
      assert Ordered(h0, key, k);
    }
    forall c: nat ensures Bridged(h, key, i, c) {
      assert Ordered(h0, key, c) && Ordered(h0, key, i);
    }
    if i < |h| {
      if key(h[i]) < key(h0[i]) {
        forall k: nat | k != i ensures Ordered(h, key, k) {
          assert Ordered(h0, key, k);
        }
        h := Up(h, i, key);
      } else {
        assert Ordered(h0, key, i) && Ordered(h, key, i);
        h := Down(h, i, key, 0);
      }
    }
    forall k: nat ensures Ordered(h, key, k) {
    }
  }

  /** Element `i` replaced by the last one, which is dropped. */
  function Cut<T>(h: seq<T>, i: nat): (s: seq<T>)
    requires i < |h|
    ensures |s| == |h| - 1 && multiset(s) == multiset(h) - multiset{h[i]}
  {
    var n := |h| - 1;
    assert h == h[..n] + [h[n]];
    if i == n then h[..n]
    else
      assert multiset(h[..n][i := h[n]]) == multiset(h[..n]) - multiset{h[i]} + multiset{h[n]};
      h[..n][i := h[n]]
  }
}
