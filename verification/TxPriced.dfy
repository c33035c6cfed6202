/** `txPricedList` of core/tx_list.go: a heap of transactions by price in which entries of
    transactions that left the pool stay behind until they are met or the heap is rebuilt. */
module TxPriced {
  import opened Basics
  import opened TxMaps
  import Heap

  /** Cheaper first; among equal prices the higher nonce. */
  predicate PriceLess(a: Tx, b: Tx)
  {
    a.price < b.price || (a.price == b.price && a.nonce > b.nonce)
  }

  /** Every transaction of the pool has an entry. */
  ghost predicate Covers(items: seq<Tx>, all: set<Tx>)
  {
    forall tx :: tx in all ==> tx in items
  }

  /** How often a transaction is in the heap. */
  ghost function Entries(items: seq<Tx>, tx: Tx): (n: nat)
  {
    multiset(items)[tx]
  }

  /** No transaction of the pool has two entries. */
  ghost predicate Once(items: seq<Tx>, all: set<Tx>)
  {
    forall tx :: tx in all ==> Entries(items, tx) <= 1
  }

  lemma InEntries(items: seq<Tx>, tx: Tx)
    ensures tx in items <==> Entries(items, tx) > 0
  {
    assert tx in items <==> tx in multiset(items);
  }

  /** Entries of the pool's transactions are divided up. */
  ghost predicate Divided(before: seq<Tx>, items: seq<Tx>, drop: seq<Tx>, save: seq<Tx>, all: set<Tx>)
  {
    forall tx :: tx in all ==> Entries(before, tx) == Entries(items, tx) + Entries(drop, tx) + Entries(save, tx)
  }

  lemma DividedPop(before: seq<Tx>, items: seq<Tx>, rest: seq<Tx>, x: Tx, drop: seq<Tx>, save: seq<Tx>, all: set<Tx>)
    requires Divided(before, items, drop, save, all) && multiset(items) == multiset(rest) + multiset{x}
    ensures x !in all ==> Divided(before, rest, drop, save, all)
    ensures Divided(before, rest, drop + [x], save, all) && Divided(before, rest, drop, save + [x], all)
  {
    assert multiset(drop + [x]) == multiset(drop) + multiset{x};
    assert multiset(save + [x]) == multiset(save) + multiset{x};
  }

  lemma DividedBack(before: seq<Tx>, items: seq<Tx>, items': seq<Tx>, drop: seq<Tx>, save: seq<Tx>, all: set<Tx>)
    requires Divided(before, items, drop, save, all) && multiset(items') == multiset(items) + multiset(save)
    ensures Divided(before, items', drop, [], all)
  {}

  lemma OnceStill(before: seq<Tx>, items: seq<Tx>, all: set<Tx>)
    requires Divided(before, items, [], [], all)
    ensures Once(before, all) ==> Once(items, all)
  {}

  /** If nothing was in the heap twice, nothing is dropped twice. */
  lemma DropsOnce(before: seq<Tx>, items: seq<Tx>, drop: seq<Tx>, all: set<Tx>)
    requires Once(before, all) && Divided(before, items, drop, [], all) && forall t :: t in drop ==> t in all
    ensures Distinct(drop) && |Elems(drop)| == |drop|
  {
    assert forall t :: t in drop ==> Entries(before, t) <= 1;
    forall i, j | 0 <= i < j < |drop| ensures drop[i] != drop[j] {
      if drop[i] == drop[j] {
        TwiceIn(drop, i, j);
      }
    }
    DistinctSize(drop);
  }

  lemma TwiceIn(s: seq<Tx>, i: nat, j: nat)
    requires i < j < |s| && s[i] == s[j]
    ensures Entries(s, s[i]) >= 2
  {
    assert s == s[..i] + [s[i]] + s[i + 1..j] + [s[j]] + s[j + 1..];
  }

  lemma PoppedMembers(h: seq<Tx>, r: seq<Tx>, x: Tx)
    requires multiset(h) == multiset(r) + multiset{x}
    ensures forall tx :: tx in h <==> tx in r || tx == x
  {
    assert forall tx :: tx in h <==> tx in multiset(h);
    assert forall tx :: tx in r <==> tx in multiset(r);
  }

  class PricedList {
    var items: seq<Tx>
    var stales: int

    constructor ()
      ensures Valid() && items == [] && stales == 0
    {
      items, stales := [], 0;
    }

    ghost predicate Valid()
      reads this
    {
      Heap.IsHeap(items, PriceLess)
    }

    method Put(tx: Tx)
      requires Valid()
      modifies this
      ensures Valid() && forall t :: t in items <==> t in old(items) || t == tx
      ensures multiset(items) == multiset(old(items)) + multiset{tx} && stales == old(stales)
    {
      items := Heap.Push(items, PriceLess, tx);
      PoppedMembers(items, old(items), tx);
    }

    /** Takes the cheapest entry out. */
    method PopCheapest() returns (tx: Tx)
      requires Valid() && items != []
      modifies this`items
      ensures Valid() && |items| == |old(items)| - 1
      ensures multiset(old(items)) == multiset(items) + multiset{tx}
      ensures tx == old(items)[0] && forall t :: t in old(items) <==> t in items || t == tx
      ensures forall t :: t in items ==> !PriceLess(t, tx)
    {
      var r;
      tx, r := Heap.Pop(items, PriceLess);
      PoppedMembers(items, r, tx);
      assert forall t :: t in items ==> !PriceLess(t, tx);
      items := r;
    }

    /** Notes that a transaction left `all`; rebuilds the heap from `all` once a quarter of it
        is stale. No transaction of the pool loses its entry. */
    method Removed(all: set<Tx>)
      requires Valid()
      modifies this
      ensures Valid() && forall t :: t in all && t in old(items) ==> t in items
      ensures if old(stales) + 1 <= |old(items)| / 4 then items == old(items) && stales == old(stales) + 1
              else stales == 0 && forall t :: t in items <==> t in all
    {
      stales := stales + 1;
      if stales <= |items| / 4 {
        return;
      }
      var live := Enumerate(all);
      items := Heap.Init(live, PriceLess);
      assert forall t :: t in items <==> t in multiset(items);
      assert forall t :: t in live <==> t in multiset(live);
      stales := 0;
    }

    method Restore(save: seq<Tx>)
      requires Valid()
      modifies this`items
      ensures Valid() && forall t :: t in items <==> t in old(items) || t in save
      ensures multiset(items) == multiset(old(items)) + multiset(save)
    {
      for i := 0 to |save|
        invariant Valid() && forall t :: t in items <==> t in old(items) || t in save[..i]
        invariant multiset(items) == multiset(old(items)) + multiset(save[..i])
      {
        ghost var before := items;
        items := Heap.Push(items, PriceLess, save[i]);
        PoppedMembers(items, before, save[i]);
        assert save[..i + 1] == save[..i] + [save[i]];
      }
      assert save[..|save|] == save;
    }

    /** Takes out the transactions of the pool below a price, except local ones. */
    method Cap(threshold: nat, all: set<Tx>, locals: set<Addr>) returns (drop: seq<Tx>)
      requires Valid()
      modifies this
      ensures Valid()
      ensures forall t :: t in drop ==> t in all && t.from !in locals && t.price < threshold
      ensures forall t :: t in all && t in old(items) ==> t in items || t in drop
      ensures forall t :: t in all && t in old(items) && t.from !in locals && t.price < threshold ==> t in drop
    {
      drop := [];
      var save: seq<Tx> := [];
      var low := true;
      while |items| > 0 && low
        invariant Valid()
        invariant forall t :: t in drop ==> t in all && t.from !in locals && t.price < threshold
        invariant forall t :: t in save ==> t.from in locals || t.price >= threshold
        invariant forall t :: t in all && t in old(items) ==> t in items || t in drop || t in save
        invariant !low ==> forall t :: t in items ==> t.price >= threshold
        decreases |items|
      {
        var tx := PopCheapest();
        if tx !in all {
          stales := stales - 1;
        } else if tx.price >= threshold {
          save := save + [tx];
          low := false;
        } else if tx.from in locals {
          save := save + [tx];
        } else {
          drop := drop + [tx];
        }
      }
      Restore(save);
    }

    /** Whether a transaction is no better than the cheapest one of the pool. */
    method Underpriced(tx: Tx, all: set<Tx>, locals: set<Addr>) returns (b: bool)
      requires Valid()
      modifies this
      ensures Valid() && (Covers(old(items), all) ==> Covers(items, all)) && Divided(old(items), items, [], [], all)
      ensures tx.from in locals ==> !b
      ensures tx.from !in locals && Covers(old(items), all) ==>
                (b <==> all != {} && forall t :: t in all ==> tx.price <= t.price)
    {
      if tx.from in locals {
        return false;
      }
      while |items| > 0 && items[0] !in all
        invariant Valid() && (Covers(old(items), all) ==> Covers(items, all)) && Divided(old(items), items, [], [], all)
        decreases |items|
      {
        stales := stales - 1;
        ghost var before := items;
        var x := PopCheapest();
        DividedPop(old(items), before, items, x, [], [], all);
      }
      if |items| == 0 {
        return false;
      }
      forall t | t in items ensures !PriceLess(t, items[0]) {
        var k :| 0 <= k < |items| && items[k] == t;
        Heap.RootIsLeast(items, PriceLess, k);
      }
      b := items[0].price >= tx.price;
    }

    /** Takes out the cheapest entries of transactions of the pool, local ones excepted, until
        `count` entries are out or none is left. */
    method Discard(count: nat, all: set<Tx>, locals: set<Addr>) returns (drop: seq<Tx>)
      requires Valid()
      modifies this
      ensures Valid() && |drop| <= count
      ensures forall t :: t in drop ==> t in all && t.from !in locals
      ensures Divided(old(items), items, drop, [], all)
      ensures forall d, t :: d in drop && t in items && t.from !in locals ==> !PriceLess(t, d)
      ensures |drop| < count ==> forall t :: t in items && t in all ==> t.from in locals
    {
      hide Divided;
      drop := [];
      var save: seq<Tx> := [];
      var n := count;
      DividedStart(items, all);
      while |items| > 0 && n > 0
        invariant Valid() && |drop| + n == count
        invariant forall t :: t in drop ==> t in all && t.from !in locals
        invariant forall t :: t in save ==> t.from in locals
        invariant Divided(old(items), items, drop, save, all)
        invariant forall d, t :: d in drop && t in items ==> !PriceLess(t, d)
        decreases |items|
      {
        ghost var before := items;
        var tx := PopCheapest();
        DividedPop(old(items), before, items, tx, drop, save, all);
        if tx !in all {
          stales := stales - 1;
        } else if tx.from in locals {
          save := save + [tx];
        } else {
          drop := drop + [tx];
          n := n - 1;
        }
      }
      ghost var rest := items;
      Restore(save);
      DividedBack(old(items), rest, items, drop, save, all);
    }
  }

  lemma DividedStart(items: seq<Tx>, all: set<Tx>)
    ensures Divided(items, items, [], [], all)
  {}

  /** What was in the heap is still in it or was dropped. */
  lemma DividedCovers(before: seq<Tx>, items: seq<Tx>, drop: seq<Tx>, all: set<Tx>, tx: Tx)
    requires Divided(before, items, drop, [], all) && tx in all && tx in before
    ensures tx in items || tx in drop
  {
    InEntries(before, tx);
    InEntries(items, tx);
    InEntries(drop, tx);
  }

  /** A transaction that leaves the pool without rebuilding the heap and comes back has two
      entries, and `Discard` then counts it twice: asked for two transactions it drops one. */
  method DoubleEntry(t: Tx, u: Tx, v: Tx, w: Tx) returns (drop: seq<Tx>)
    requires t.price < u.price && t.price < v.price && t.price < w.price && u != v && u != w && v != w
    ensures drop == [t, t] && Elems(drop) == {t}
  {
    hide Divided;
    var p := new PricedList();
    p.Put(t);
    p.Put(u);
    p.Put(v);
    p.Put(w);
    assert multiset(p.items) == multiset{t, u, v, w};
    assert |multiset(p.items)| == 4;
    p.Removed({u, v, w});
    p.Put(t);
    ghost var before := p.items;
    assert Entries(before, t) == 2;
    drop := p.Discard(2, {t, u, v, w}, {});
    TwiceDropped(before, p.items, drop, t, {t, u, v, w});
  }

  lemma TwiceDropped(before: seq<Tx>, items: seq<Tx>, drop: seq<Tx>, t: Tx, all: set<Tx>)
    requires Divided(before, items, drop, [], all) && Entries(before, t) == 2 && |drop| <= 2 && t in all
    requires forall d :: d in drop ==> d == t || PriceLess(t, d)
    requires forall d :: d in drop && t in items ==> !PriceLess(t, d)
    requires |drop| < 2 ==> t !in items
    ensures drop == [t, t]
  {
    InEntries(items, t);
    if t in items {
      assert drop[0] in drop && drop[1] in drop;
    } else {
      FewEntries(drop, t);
      assert drop == [drop[0], drop[1]];
    }
  }

  lemma {:induction false} FewEntries(s: seq<Tx>, t: Tx)
    ensures Entries(s, t) <= |s|
  {
    if |s| != 0 {
      FewEntries(s[..|s| - 1], t);
      assert s == s[..|s| - 1] + [s[|s| - 1]];
    }
  }

  /** The transactions of the lookup in some order. */
  method Enumerate(all: set<Tx>) returns (r: seq<Tx>)
    ensures forall t :: t in r <==> t in all
  {
    r := [];
    var left := all;
    while left != {}
      invariant left <= all && forall t :: t in r <==> t in all - left
      decreases left
    {
      var x :| x in left;
      left, r := left - {x}, r + [x];
    }
  }
}
