/** `txSortedMap` of core/tx_list.go: a nonce map with a heap of its nonces and a lazily kept
    sorted copy. Every method is described by what happens to the plain map. */
module TxSorted {
  import opened Basics
  import opened TxMaps
  import Heap

  predicate NonceLess(a: nat, b: nat)
  {
    a < b
  }

  predicate TxNonceLess(a: Tx, b: Tx)
  {
    a.nonce < b.nonce
  }

  /** Transactions handed back: those at the nonces `ks`, each once. */
  ghost predicate Returned(txs: seq<Tx>, m: TxMap, ks: set<nat>)
  {
    ks <= m.Keys && Elems(txs) == Pick(m, ks) && |txs| == |ks|
  }

  /** So far the nonces `done` have been moved from the map to the result. */
  ghost predicate Taken(m: TxMap, items: TxMap, out: seq<Tx>, done: set<nat>)
  {
    items == m - done && Returned(out, m, done)
  }

  lemma TakenNone(m: TxMap)
    ensures Taken(m, m, [], {})
  {
    assert m - {} == m;
  }

  lemma TakenOneMore(m: TxMap, items: TxMap, out: seq<Tx>, done: set<nat>, k: nat)
    requires Taken(m, items, out, done) && k in items
    ensures Taken(m, items - {k}, out + [items[k]], done + {k})
  {
    assert Pick(m, done + {k}) == Pick(m, done) + {m[k]};
    assert Elems(out + [m[k]]) == Elems(out) + {m[k]};
    assert m - done - {k} == m - (done + {k});
  }

  /** Exactly the given nonces, each once. */
  ghost predicate Lists(s: seq<nat>, ks: set<nat>)
  {
    |s| == |ks| && forall k :: multiset(s)[k] == if k in ks then 1 else 0
  }

  lemma ListsIn(s: seq<nat>, ks: set<nat>)
    requires Lists(s, ks)
    ensures forall k :: k in ks <==> k in s
  {
    assert forall k :: k in s <==> k in multiset(s);
  }

  lemma SameLength<T>(s: seq<T>, r: seq<T>)
    requires multiset(s) == multiset(r)
    ensures |s| == |r|
  {
    assert |multiset(s)| == |s| && |multiset(r)| == |r|;
  }

  lemma ListsPermuted(s: seq<nat>, r: seq<nat>, ks: set<nat>)
    requires Lists(s, ks) && multiset(r) == multiset(s)
    ensures Lists(r, ks)
  {
    SameLength(s, r);
  }

  lemma ListsMore(s: seq<nat>, r: seq<nat>, ks: set<nat>, k: nat)
    requires Lists(s, ks) && k !in ks && multiset(r) == multiset(s) + multiset{k}
    ensures Lists(r, ks + {k})
  {
    SameLength(s + [k], r);
  }

  lemma ListsLess(s: seq<nat>, r: seq<nat>, ks: set<nat>, k: nat)
    requires Lists(s, ks) && k in ks && multiset(s) == multiset(r) + multiset{k}
    ensures Lists(r, ks - {k})
  {
    SameLength(s, r + [k]);
  }

  lemma ListsCut(s: seq<nat>, n: nat, ks: set<nat>)
    requires 0 < n <= |s| && Lists(s[..n], ks)
    ensures Lists(s[..n - 1], ks - {s[n - 1]})
  {
    assert s[..n] == s[..n - 1] + [s[n - 1]];
    ListsIn(s[..n], ks);
    assert s[..n][n - 1] in s[..n];
    ListsLess(s[..n], s[..n - 1], ks, s[n - 1]);
  }

  /** The heap holds exactly the map's nonces. */
  ghost predicate Indexed(index: seq<nat>, items: TxMap)
  {
    Heap.IsHeap(index, NonceLess) && Lists(index, items.Keys)
  }

  lemma IndexedIn(index: seq<nat>, items: TxMap)
    requires Indexed(index, items)
    ensures |index| == |items| && forall k :: k in items <==> k in index
    ensures index != [] ==> index[0] in items && AllFrom(items.Keys, index[0])
  {
    ListsIn(index, items.Keys);
    if index != [] {
      assert index[0] in index;
      forall k | k in items ensures index[0] <= k {
        assert k in index;
        var i :| 0 <= i < |index| && index[i] == k;
        Heap.RootIsLeast(index, NonceLess, i);
      }
    }
  }

  class TxSortedMap {
    var items: TxMap
    var index: seq<nat>
    var cache: Option<seq<Tx>>

    constructor ()
      ensures Valid() && items == map[]
    {
      items, index, cache := map[], [], None;
    }

    ghost predicate Core()
      reads this
    {
      ByNonce(items) && Indexed(index, items)
    }

    /** A kept copy is always the sorted contents. */
    ghost predicate Valid()
      reads this
    {
      Core() && (cache.Some? ==> cache.value == Flat(items))
    }

    function Get(nonce: nat): (r: Option<Tx>)
      reads this
    {
      if nonce in items then Some(items[nonce]) else None
    }

    method Put(tx: Tx)
      requires Valid()
      modifies this
      ensures Valid() && items == old(items)[tx.nonce := tx]
    {
      if tx.nonce !in items {
        index := Heap.Push(index, NonceLess, tx.nonce);
        ListsMore(old(index), index, items.Keys, tx.nonce);
        assert items[tx.nonce := tx].Keys == items.Keys + {tx.nonce};
      } else {
        assert items[tx.nonce := tx].Keys == items.Keys;
      }
      items, cache := items[tx.nonce := tx], None;
    }

    /** Takes the lowest nonce out of heap and map. */
    method PopFirst() returns (tx: Tx)
      requires Core() && index != []
      modifies this`items, this`index
      ensures Core()
      ensures old(index)[0] in old(items) && tx == old(items)[old(index)[0]]
      ensures items == old(items) - {old(index)[0]}
      ensures AllFrom(old(items).Keys, old(index)[0]) && |index| == |old(index)| - 1
    {
      IndexedIn(index, items);
      var nonce, r := Heap.Pop(index, NonceLess);
      ListsLess(index, r, items.Keys, nonce);
      tx := items[nonce];
      index, items := r, items - {nonce};
    }

    method Forward(threshold: nat) returns (removed: seq<Tx>)
      requires Valid()
      modifies this
      ensures Valid() && items == old(items) - Below(old(items), threshold)
      ensures Returned(removed, old(items), Below(old(items), threshold))
    {
      hide Flat, Below, Indexed, ByNonce;
      FlatForward(items, threshold);
      removed := PopBelow(threshold);
      if cache.Some? {
        cache := Some(cache.value[|removed|..]);
      }
    }

    /** Pops off heap items until the threshold is reached. */
    method PopBelow(threshold: nat) returns (removed: seq<Tx>)
      requires Core()
      modifies this`items, this`index
      ensures Core() && items == old(items) - Below(old(items), threshold)
      ensures Returned(removed, old(items), Below(old(items), threshold))
    {
      hide Returned, Indexed;
      removed := [];
      ghost var m := items;
      ghost var done: set<nat> := {};
      TakenNone(m);
      while |index| > 0 && index[0] < threshold
        invariant Core() && Taken(m, items, removed, done)
        invariant forall k :: k in done ==> k < threshold
        decreases |index|
      {
        IndexedIn(index, items);
        TakenOneMore(m, items, removed, done, index[0]);
        done := done + {index[0]};
        var tx := PopFirst();
        removed := removed + [tx];
      }
      IndexedIn(index, items);
      AllBelow(m, items, removed, done, threshold);
    }

    /** Removes every transaction that the filter picks. */
    method Filter(pick: Tx -> bool) returns (removed: seq<Tx>)
      requires Valid()
      modifies this
      ensures var ks := Picked(old(items), pick);
              Valid() && items == old(items) - ks && Returned(removed, old(items), ks)
    {
      ghost var m := items;
      removed := PickOut(pick);
      if |removed| > 0 {
        var nonces := Listed(items.Keys);
        index := Heap.Init(nonces, NonceLess);
        ListsPermuted(nonces, index, items.Keys);
        cache := None;
      } else {
        assert m - {} == m;
      }
    }

    /** The loop of `Filter` over the map; the heap is left behind. */
    method PickOut(pick: Tx -> bool) returns (removed: seq<Tx>)
      requires ByNonce(items)
      modifies this`items
      ensures var ks := Picked(old(items), pick);
              ByNonce(items) && items == old(items) - ks && Returned(removed, old(items), ks)
    {
      hide Taken, Picked, Returned;
      removed := [];
      ghost var m := items;
      ghost var done: set<nat> := {};
      TakenNone(m);
      var left := items.Keys;
      while left != {}
        invariant left <= items.Keys && Taken(m, items, removed, done)
        invariant done == Picked(m, pick) - left
        decreases left
      {
        var nonce :| nonce in left;
        PickNext(m, items, removed, done, left, nonce, pick);
        left := left - {nonce};
        if pick(items[nonce]) {
          TakenOneMore(m, items, removed, done, nonce);
          removed := removed + [items[nonce]];
          items, done := items - {nonce}, done + {nonce};
        }
      }
      TakenKeys(m, items, removed, done);
    }

    /** Keeps the `threshold` lowest nonces. */
    method Cap(threshold: nat) returns (drops: seq<Tx>)
      requires Valid()
      modifies this
      ensures Valid() && items == CapTo(old(items), threshold)
      ensures Returned(drops, old(items), old(items).Keys - items.Keys)
    {
      if |items| <= threshold {
        TakenNone(items);
        CapAll(items);
        assert items.Keys - items.Keys == {};
        return [];
      }
      drops := CapDown(threshold);
    }

    method CapDown(threshold: nat) returns (drops: seq<Tx>)
      requires Valid() && threshold < |items|
      modifies this
      ensures Valid() && items == CapTo(old(items), threshold)
      ensures Returned(drops, old(items), old(items).Keys - items.Keys)
    {
      hide Flat, CapTo, Returned, Lists, Heap.IsHeap, Heap.Sorted, ByNonce;
      ghost var m := items;
      var sorted := Heap.Sort(index, NonceLess);
      ListsPermuted(index, sorted, items.Keys);
      drops := DropLast(sorted, threshold);
      index := Heap.Init(sorted[..threshold], NonceLess);
      ListsPermuted(sorted[..threshold], index, items.Keys);
      FlatCap(m, threshold);
      ReturnedLength(drops, m, items);
      if cache.Some? {
        cache := Some(cache.value[..|cache.value| - |drops|]);
      }
    }

    /** The loop of `Cap`: drops the highest nonces one by one. */
    method DropLast(sorted: seq<nat>, threshold: nat) returns (drops: seq<Tx>)
      requires ByNonce(items)
      requires threshold < |items| && Heap.Sorted(sorted, NonceLess) && Lists(sorted, items.Keys)
      modifies this`items
      ensures ByNonce(items) && items == CapTo(old(items), threshold)
      ensures Returned(drops, old(items), old(items).Keys - items.Keys)
      ensures threshold <= |sorted| && Lists(sorted[..threshold], items.Keys)
    {
      hide CapTo, Returned, Lists, Heap.Sorted;
      drops := [];
      ghost var m := items;
      ghost var done: set<nat> := {};
      TakenNone(m);
      CapAll(m);
      ListsLength(sorted, items.Keys);
      assert sorted[..|sorted|] == sorted;
      var size := |items|;
      while size > threshold
        invariant threshold <= size <= |m| == |sorted|
        invariant items == CapTo(m, size) && Taken(m, items, drops, done)
        invariant Lists(sorted[..size], items.Keys)
      {
        var nonce := sorted[size - 1];
        LastIsMax(sorted, size, items);
        CapStep(m, size, nonce);
        TakenOneMore(m, items, drops, done, nonce);
        ListsCut(sorted, size, items.Keys);
        assert (items - {nonce}).Keys == items.Keys - {nonce};
        drops := drops + [items[nonce]];
        items, done := items - {nonce}, done + {nonce};
        size := size - 1;
      }
      assert m.Keys - items.Keys == done by { TakenKeys(m, items, drops, done); }
    }

    method Remove(nonce: nat) returns (found: bool)
      requires Valid()
      modifies this
      ensures Valid() && found == (nonce in old(items)) && items == old(items) - {nonce}
    {
      hide Flat, Lists;
      if nonce !in items {
        assert items - {nonce} == items;
        return false;
      }
      IndexedIn(index, items);
      var i := IndexOf(index, nonce);
      var x, r := Heap.RemoveAt(index, NonceLess, i);
      ListsLess(index, r, items.Keys, nonce);
      index, items, cache := r, items - {nonce}, None;
      found := true;
    }

    /** Takes out the gap-free run at the front, if it begins at `start` or earlier. */
    method Ready(start: nat) returns (ready: seq<Tx>)
      requires Valid()
      modifies this
      ensures var ks := ReadyKeys(old(items), start);
              Valid() && items == old(items) - ks && Returned(ready, old(items), ks)
    {
      IndexedIn(index, items);
      if |index| == 0 || index[0] > start {
        TakenNone(items);
        assert ReadyKeys(items, start) == {};
        return [];
      }
      ready := PopRun(start);
      cache := None;
    }

    method PopRun(ghost start: nat) returns (ready: seq<Tx>)
      requires Core() && index != [] && index[0] <= start
      modifies this`items, this`index
      ensures var ks := ReadyKeys(old(items), start);
              Core() && items == old(items) - ks && Returned(ready, old(items), ks)
    {
      hide Returned, ReadyKeys, IsInterval, Indexed, ByNonce, Taken;
      IndexedIn(index, items);
      ready := [];
      var next := index[0];
      ghost var m, first := items, next;
      ghost var done: set<nat> := {};
      TakenNone(m);
      IntervalNone(first);
      while |index| > 0 && index[0] == next
        invariant Core() && Taken(m, items, ready, done)
        invariant first <= next && IsInterval(done, first, next)
        decreases |index|
      {
        IndexedIn(index, items);
        TakenOneMore(m, items, ready, done, next);
        IntervalMore(done, first, next);
        var tx := PopFirst();
        done := done + {next};
        ready := ready + [tx];
        next := next + 1;
      }
      IndexedIn(index, items);
      NextIsOut(index, m, items, ready, first, next, done);
      RunDone(m, items, ready, first, next, done, start);
      TakenKeys(m, items, ready, done);
    }

    /** The contents in order of nonce; the sorted copy is made on demand. */
    method Flatten() returns (txs: seq<Tx>)
      requires Valid()
      modifies this`cache
      ensures Valid() && txs == Flat(items)
    {
      if cache == None {
        var all := Contents(items);
        var sorted := Heap.Sort(all, TxNonceLess);
        SortedIsFlat(items, all, sorted);
        cache := Some(sorted);
      }
      txs := cache.value;
    }
  }

  /** Place of a nonce in the heap slice. */
  method IndexOf(s: seq<nat>, k: nat) returns (i: nat)
    requires k in s
    ensures i < |s| && s[i] == k
  {
    i := 0;
    while s[i] != k
      invariant i < |s| && k in s[i..]
      decreases |s| - i
    {
      assert s[i..] == [s[i]] + s[i + 1..];
      i := i + 1;
    }
  }

  function Picked(m: TxMap, pick: Tx -> bool): (ks: set<nat>)
    ensures ks <= m.Keys
  {
    set n | n in m && pick(m[n])
  }

  lemma PickNext(m: TxMap, items: TxMap, out: seq<Tx>, done: set<nat>, left: set<nat>, k: nat, pick: Tx -> bool)
    requires Taken(m, items, out, done) && done == Picked(m, pick) - left && left <= items.Keys && k in left
    ensures pick(items[k]) ==> done + {k} == Picked(m, pick) - (left - {k})
    ensures !pick(items[k]) ==> done == Picked(m, pick) - (left - {k})
  {
    hide Returned;
  }

  /** The elements of a set in some order. */
  method Listed(s: set<nat>) returns (r: seq<nat>)
    ensures Lists(r, s)
  {
    r := [];
    var left := s;
    assert s - left == {};
    while left != {}
      invariant left <= s && Lists(r, s - left)
      decreases left
    {
      var x :| x in left;
      ListsMore(r, r + [x], s - left, x);
      assert s - (left - {x}) == (s - left) + {x};
      left, r := left - {x}, r + [x];
    }
    assert s - {} == s;
  }

  /** The values of a map in some order. */
  method Contents(m: TxMap) returns (r: seq<Tx>)
    requires ByNonce(m)
    ensures |r| == |m| && EachOnce(r, m, {})
  {
    r := [];
    var left := m.Keys;
    while left != {}
      invariant left <= m.Keys && |r| == |m| - |left| && EachOnce(r, m, left)
      decreases left
    {
      var x :| x in left;
      left, r := left - {x}, r + [m[x]];
    }
  }

  /** Exactly the transactions outside `left`, none of them twice. */
  ghost predicate EachOnce(s: seq<Tx>, m: TxMap, left: set<nat>)
  {
    forall tx :: multiset(s)[tx] == if Has(m, tx) && tx.nonce !in left then 1 else 0
  }

  lemma LastIsMax(sorted: seq<nat>, size: nat, items: TxMap)
    requires 0 < size <= |sorted| && Heap.Sorted(sorted, NonceLess) && Lists(sorted[..size], items.Keys)
    ensures sorted[size - 1] in items && AllUpTo(items.Keys, sorted[size - 1])
  {
    hide Lists;
    var s := sorted[..size];
    ListsIn(s, items.Keys);
    assert s[size - 1] in s;
    forall k | k in items ensures k <= sorted[size - 1] {
      assert k in s;
      var i :| 0 <= i < size && s[i] == k;
    }
  }

  lemma {:induction false} CapStep(m: TxMap, n: nat, k: nat)
    requires 0 < n <= |m| && k in CapTo(m, n) && AllUpTo(CapTo(m, n).Keys, k)
    ensures CapTo(m, n - 1) == CapTo(m, n) - {k}
    decreases |m|
  {
    var top := MaxOf(m.Keys);
    if |m| > n {
      CapStep(m - {top}, n, k);
    } else {
      assert top <= k <= top;
    }
  }

  lemma CapAll(m: TxMap)
    ensures CapTo(m, |m|) == m
  {}

  lemma ListsLength(s: seq<nat>, ks: set<nat>)
    requires Lists(s, ks)
    ensures |s| == |ks|
  {}

  lemma ReturnedLength(out: seq<Tx>, m: TxMap, items: TxMap)
    requires items.Keys <= m.Keys && Returned(out, m, m.Keys - items.Keys)
    ensures |out| == |m| - |items|
  {
    assert m.Keys == items.Keys + (m.Keys - items.Keys);
  }

  lemma TakenKeys(m: TxMap, items: TxMap, out: seq<Tx>, done: set<nat>)
    requires Taken(m, items, out, done)
    ensures items == m - done && m.Keys - items.Keys == done && Returned(out, m, done) && |out| == |done|
    ensures forall k :: k in m <==> k in items || k in done
  {}

  lemma AllBelow(m: TxMap, items: TxMap, out: seq<Tx>, done: set<nat>, t: nat)
    requires Taken(m, items, out, done)
    requires (forall k :: k in done ==> k < t) && forall k :: k in items ==> k >= t
    ensures done == Below(m, t) && |out| == |done|
  {
    TakenKeys(m, items, out, done);
  }

  ghost predicate IsInterval(s: set<nat>, a: nat, b: nat)
  {
    forall n :: n in s <==> a <= n < b
  }

  lemma IntervalNone(a: nat)
    ensures IsInterval({}, a, a)
  {}

  lemma IntervalMore(s: set<nat>, a: nat, b: nat)
    requires IsInterval(s, a, b) && a <= b
    ensures IsInterval(s + {b}, a, b + 1)
  {}

  lemma NextIsOut(index: seq<nat>, m: TxMap, items: TxMap, out: seq<Tx>, first: nat, next: nat, done: set<nat>)
    requires Indexed(index, items) && Taken(m, items, out, done) && IsInterval(done, first, next)
    requires AllFrom(m.Keys, first) && (index == [] || index[0] != next)
    ensures next !in items
  {
    IndexedIn(index, items);
    TakenKeys(m, items, out, done);
  }

  /** When the heap's first nonce is not the next one, the run is over. */
  lemma RunDone(m: TxMap, items: TxMap, out: seq<Tx>, first: nat, next: nat, done: set<nat>, start: nat)
    requires Taken(m, items, out, done) && first in m && AllFrom(m.Keys, first) && first <= next && first <= start
    requires IsInterval(done, first, next) && next !in items
    ensures done == ReadyKeys(m, start)
  {
    TakenKeys(m, items, out, done);
    var e := RunEnd(m, first);
    assert next !in m;
    assert forall n :: first <= n < next ==> n in m by {
      assert forall n :: first <= n < next ==> n in done;
    }
    assert !(e < next) && !(next < e);
    assert MinOf(m.Keys) == first;
  }

  lemma TwoPlaces<T>(s: seq<T>, i: nat, j: nat)
    requires i < j < |s| && s[i] == s[j]
    ensures multiset(s)[s[i]] >= 2
  {
    assert s == s[..j] + [s[j]] + s[j + 1..];
    assert s[..j][i] in s[..j];
  }

  lemma SortedIsFlat(m: TxMap, all: seq<Tx>, sorted: seq<Tx>)
    requires ByNonce(m) && |all| == |m| && EachOnce(all, m, {})
    requires Heap.Sorted(sorted, TxNonceLess) && multiset(sorted) == multiset(all) && |sorted| == |all|
    ensures sorted == Flat(m)
  {
    forall tx ensures tx in sorted <==> Has(m, tx) {
      assert tx in sorted <==> multiset(all)[tx] > 0;
    }
    forall i, j | 0 <= i < j < |sorted| ensures sorted[i].nonce < sorted[j].nonce {
      assert Has(m, sorted[i]) && Has(m, sorted[j]);
      if sorted[i] == sorted[j] {
        TwoPlaces(sorted, i, j);
      }
    }
    FlatUnique(m, sorted);
  }
}
