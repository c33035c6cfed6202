/** The binary heap of Go's `container/heap`, and a sort, for any strict weak order. The sift
    loops are those of metrics/sample.go; slices are values here. */
module Heap {

  ghost predicate WeakOrder<T(!new)>(less: (T, T) -> bool)
  {
    && (forall a, b :: less(a, b) ==> !less(b, a))
    && (forall a, b, c :: !less(b, a) && !less(c, b) ==> !less(c, a))
  }

  function Parent(i: nat): (p: nat)
    requires i > 0
    ensures p < i
  {
    (i - 1) / 2
  }

  /** Entry c is in order with its parent. */
  predicate Fits<T>(h: seq<T>, less: (T, T) -> bool, c: nat)
    requires 0 < c < |h|
  {
    !less(h[c], h[Parent(c)])
  }

  ghost predicate IsHeap<T>(h: seq<T>, less: (T, T) -> bool)
  {
    forall c :: 0 < c < |h| ==> Fits(h, less, c)
  }

  /** The first n entries, as far as parents from `lo` on are concerned. */
  ghost predicate HeapFrom<T>(h: seq<T>, less: (T, T) -> bool, lo: nat, n: nat)
    requires n <= |h|
  {
    forall c :: 0 < c < n && lo <= Parent(c) ==> Fits(h, less, c)
  }

  /** In order apart from entry i, whose children are in order with its parent. */
  ghost predicate Hole<T>(h: seq<T>, less: (T, T) -> bool, lo: nat, n: nat, i: nat)
    requires n <= |h|
  {
    && (forall c :: 0 < c < n && lo <= Parent(c) && Parent(c) != i && c != i ==> Fits(h, less, c))
    && (forall c :: 0 < c < n && Parent(c) == i && i > 0 && lo <= Parent(i) ==> !less(h[c], h[Parent(i)]))
  }

  function Swap<T>(h: seq<T>, i: nat, j: nat): (s: seq<T>)
    requires i < |h| && j < |h|
    ensures |s| == |h| && multiset(s) == multiset(h)
  {
    h[i := h[j]][j := h[i]]
  }

  /** Nothing in a heap is less than its root. */
  lemma {:induction false} RootIsLeast<T(!new)>(h: seq<T>, less: (T, T) -> bool, k: nat)
    requires WeakOrder(less) && IsHeap(h, less) && k < |h|
    ensures !less(h[k], h[0])
  {
    if k > 0 {
      assert Fits(h, less, k);
      RootIsLeast(h, less, Parent(k));
    }
  }

  method Up<T(!new)>(h: seq<T>, less: (T, T) -> bool, j0: nat) returns (r: seq<T>)
    requires WeakOrder(less) && j0 < |h| && Hole(h, less, 0, |h|, j0)
    requires forall c :: 0 < c < |h| && Parent(c) == j0 ==> Fits(h, less, c)
    ensures |r| == |h| && multiset(r) == multiset(h) && IsHeap(r, less)
  {
    var j: nat := j0;
    r := h;
    while j > 0 && less(r[j], r[Parent(j)])
      invariant |r| == |h| && multiset(r) == multiset(h) && j < |r|
      invariant Hole(r, less, 0, |r|, j)
      invariant forall c :: 0 < c < |r| && Parent(c) == j ==> Fits(r, less, c)
    {
      UpStep(r, less, j);
      r := Swap(r, Parent(j), j);
      j := Parent(j);
    }
  }

  lemma UpStep<T(!new)>(h: seq<T>, less: (T, T) -> bool, j: nat)
    requires WeakOrder(less) && 0 < j < |h| && Hole(h, less, 0, |h|, j) && less(h[j], h[Parent(j)])
    requires forall c :: 0 < c < |h| && Parent(c) == j ==> Fits(h, less, c)
    ensures var s, p := Swap(h, Parent(j), j), Parent(j);
            Hole(s, less, 0, |s|, p) && forall c :: 0 < c < |s| && Parent(c) == p ==> Fits(s, less, c)
  {
    var p := Parent(j);
    var s := Swap(h, p, j);
    forall c | 0 < c < |s| && Parent(c) == p ensures Fits(s, less, c) {
      if c != j {
        assert Fits(h, less, c);
      }
    }
    forall c | 0 < c < |s| && Parent(c) != p && c != p ensures Fits(s, less, c) {
      if Parent(c) != j {
        assert Fits(h, less, c);
      }
    }
    forall c | 0 < c < |s| && Parent(c) == p && p > 0 ensures !less(s[c], s[Parent(p)]) {
      assert Fits(h, less, p);
      if c != j {
        assert Fits(h, less, c);
      }
    }
  }

  method Down<T(!new)>(h: seq<T>, less: (T, T) -> bool, ghost lo: nat, i0: nat, n: nat) returns (r: seq<T>, moved: bool)
    requires WeakOrder(less) && lo <= i0 < n <= |h| && Hole(h, less, lo, n, i0)
    ensures |r| == |h| && multiset(r) == multiset(h) && r[n..] == h[n..]
    ensures moved ==> HeapFrom(r, less, lo, n)
    ensures !moved ==> r == h && forall c :: 0 < c < n && lo <= Parent(c) && c != i0 ==> Fits(r, less, c)
  {
    var i: nat := i0;
    r := h;
    moved := false;
    while 2 * i + 1 < n
      invariant |r| == |h| && multiset(r) == multiset(h) && r[n..] == h[n..]
      invariant i0 <= i < n && Hole(r, less, lo, n, i)
      invariant !moved ==> i == i0 && r == h
      invariant moved ==> i > i0 && Fits(r, less, i)
      decreases n - i
    {
      var j := LeastChild(r, less, i, n);
      if !less(r[j], r[i]) {
        forall c | 0 < c < n && Parent(c) == i ensures Fits(r, less, c) {}
        return;
      }
      DownStep(r, less, lo, i, j, n, !moved);
      r := Swap(r, i, j);
      i, moved := j, true;
    }
    assert forall c :: 0 < c < n ==> Parent(c) != i;
  }

  method LeastChild<T(!new)>(h: seq<T>, less: (T, T) -> bool, i: nat, n: nat) returns (j: nat)
    requires WeakOrder(less) && 2 * i + 1 < n <= |h|
    ensures i < j < n && Parent(j) == i
    ensures forall c :: 0 < c < n && Parent(c) == i ==> !less(h[c], h[j])
  {
    j := 2 * i + 1;
    if j + 1 < n && !less(h[j], h[j + 1]) {
      j := j + 1;
    }
    assert forall c :: 0 < c < n && Parent(c) == i ==> c == 2 * i + 1 || c == 2 * i + 2;
  }

  /** Swapping entry i with its least child j moves the hole to j. */
  lemma DownStep<T(!new)>(h: seq<T>, less: (T, T) -> bool, lo: nat, i: nat, j: nat, n: nat, first: bool)
    requires WeakOrder(less) && lo <= i < j < n <= |h| && Hole(h, less, lo, n, i) && Parent(j) == i
    requires less(h[j], h[i])
    requires forall c :: 0 < c < n && Parent(c) == i ==> !less(h[c], h[j])
    requires first || i == 0 || Fits(h, less, i)
    ensures var s := Swap(h, i, j);
            Hole(s, less, lo, n, j) && Fits(s, less, j)
  {
    var s := Swap(h, i, j);
    forall c | 0 < c < n && lo <= Parent(c) && Parent(c) != j && c != j ensures Fits(s, less, c) {
      if c != i && Parent(c) != i {
        assert Fits(h, less, c);
      }
    }
    forall c | 0 < c < n && Parent(c) == j ensures !less(s[c], s[Parent(j)]) {
      assert Fits(h, less, c);
    }
  }

  // ---------- the operations of container/heap ----------

  method Push<T(!new)>(h: seq<T>, less: (T, T) -> bool, x: T) returns (r: seq<T>)
    requires WeakOrder(less) && IsHeap(h, less)
    ensures IsHeap(r, less) && multiset(r) == multiset(h) + multiset{x}
  {
    var g := h + [x];
    forall c | 0 < c < |g| && c != |h| ensures Fits(g, less, c) {
      assert Fits(h, less, c);
    }
    r := Up(g, less, |h|);
  }

  /** Takes the root out. */
  method Pop<T(!new)>(h: seq<T>, less: (T, T) -> bool) returns (x: T, r: seq<T>)
    requires WeakOrder(less) && IsHeap(h, less) && h != []
    ensures x == h[0] && forall k :: 0 <= k < |h| ==> !less(h[k], x)
    ensures IsHeap(r, less) && |r| == |h| - 1 && multiset(h) == multiset(r) + multiset{x}
  {
    x, r := RemoveAt(h, less, 0);
    forall k | 0 <= k < |h| ensures !less(h[k], h[0]) {
      RootIsLeast(h, less, k);
    }
  }

  /** Takes entry i out; `heap.Remove`, of which `heap.Pop` is the case of the root. */
  method RemoveAt<T(!new)>(h: seq<T>, less: (T, T) -> bool, i: nat) returns (x: T, r: seq<T>)
    requires WeakOrder(less) && IsHeap(h, less) && i < |h|
    ensures x == h[i]
    ensures IsHeap(r, less) && |r| == |h| - 1 && multiset(h) == multiset(r) + multiset{x}
  {
    var n := |h| - 1;
    x := h[i];
    SwapOut(h, less, i);
    SwapOutBag(h, i);
    r := Swap(h, i, n)[..n];
    if n != i {
      r := Sift(r, less, i);
    }
  }

  /** Down, and if that moves nothing, up. */
  method Sift<T(!new)>(h: seq<T>, less: (T, T) -> bool, i: nat) returns (r: seq<T>)
    requires WeakOrder(less) && i < |h| && Hole(h, less, 0, |h|, i)
    ensures IsHeap(r, less) && |r| == |h| && multiset(r) == multiset(h)
  {
    var moved;
    r, moved := Down(h, less, 0, i, |h|);
    if !moved {
      r := Up(r, less, i);
    }
  }

  lemma SwapOutBag<T>(h: seq<T>, i: nat)
    requires i < |h|
    ensures multiset(h) == multiset(Swap(h, i, |h| - 1)[..|h| - 1]) + multiset{h[i]}
  {
    var t := Swap(h, i, |h| - 1);
    assert t == t[..|h| - 1] + [h[i]];
  }

  /** Swapped with the last entry and cut off: what is left has a hole at i. */
  lemma SwapOut<T(!new)>(h: seq<T>, less: (T, T) -> bool, i: nat)
    requires WeakOrder(less) && IsHeap(h, less) && i < |h|
    ensures var s := Swap(h, i, |h| - 1)[..|h| - 1];
            Hole(s, less, 0, |s|, i) && (i == |h| - 1 ==> IsHeap(s, less))
  {
    var n := |h| - 1;
    var s := Swap(h, i, n)[..n];
    assert forall k :: 0 <= k < n ==> s[k] == if k == i then h[n] else h[k];
    forall c | 0 < c < n && Parent(c) != i && c != i ensures Fits(s, less, c) {
      assert Fits(h, less, c);
    }
    forall c | 0 < c < n && Parent(c) == i && i > 0 ensures !less(s[c], s[Parent(i)]) {
      assert Fits(h, less, c) && Fits(h, less, i);
    }
  }

  /** Puts any slice in heap order. */
  method Init<T(!new)>(h: seq<T>, less: (T, T) -> bool) returns (r: seq<T>)
    requires WeakOrder(less)
    ensures IsHeap(r, less) && multiset(r) == multiset(h) && |r| == |h|
  {
    r := h;
    var i: nat := |h| / 2;
    while i > 0
      invariant i <= |h| / 2 && |r| == |h| && multiset(r) == multiset(h)
      invariant HeapFrom(r, less, i, |r|)
    {
      i := i - 1;
      var moved;
      r, moved := Down(r, less, i, i, |r|);
    }
  }

  // ---------- sorting ----------

  ghost predicate Sorted<T>(s: seq<T>, less: (T, T) -> bool)
  {
    forall i, j :: 0 <= i < j < |s| ==> !less(s[j], s[i])
  }

  /** `sort.Sort` */
  method Sort<T(!new)>(s: seq<T>, less: (T, T) -> bool) returns (r: seq<T>)
    requires WeakOrder(less)
    ensures Sorted(r, less) && multiset(r) == multiset(s) && |r| == |s|
  {
    r := [];
    for k := 0 to |s|
      invariant |r| == k && Sorted(r, less) && multiset(r) == multiset(s[..k])
    {
      r := Insert(r, less, s[k]);
      assert s[..k + 1] == s[..k] + [s[k]];
    }
    assert s[..|s|] == s;
  }

  method Insert<T(!new)>(s: seq<T>, less: (T, T) -> bool, x: T) returns (r: seq<T>)
    requires WeakOrder(less) && Sorted(s, less)
    ensures Sorted(r, less) && multiset(r) == multiset(s) + multiset{x} && |r| == |s| + 1
  {
    var i := |s|;
    while i > 0 && less(x, s[i - 1])
      invariant 0 <= i <= |s|
      invariant forall k :: i <= k < |s| ==> !less(s[k], x)
    {
      i := i - 1;
    }
    forall k | 0 <= k < i ensures !less(x, s[k]) {
      assert !less(x, s[i - 1]);
      assert k < i - 1 ==> !less(s[i - 1], s[k]);
    }
    r := s[..i] + [x] + s[i..];
    InsertAt(s, less, x, i);
  }

  lemma InsertAt<T(!new)>(s: seq<T>, less: (T, T) -> bool, x: T, i: nat)
    requires Sorted(s, less) && i <= |s| && !less(x, x)
    requires (forall k :: 0 <= k < i ==> !less(x, s[k])) && forall k :: i <= k < |s| ==> !less(s[k], x)
    ensures var r := s[..i] + [x] + s[i..];
            Sorted(r, less) && multiset(r) == multiset(s) + multiset{x}
  {
    assert s == s[..i] + s[i..];
    var r := s[..i] + [x] + s[i..];
    forall j, k | 0 <= j < k < |r| ensures !less(r[k], r[j]) {
      assert r[j] == if j < i then s[j] else if j == i then x else s[j - 1];
      assert r[k] == if k < i then s[k] else if k == i then x else s[k - 1];
    }
  }
}
