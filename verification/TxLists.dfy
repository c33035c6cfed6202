/** `txList` of core/tx_list.go: an account's transactions with caps on cost and gas that let
    `Filter` stop early. First as a value, then the class that works on a `TxSortedMap`. */
module TxLists {
  import opened Basics
  import opened TxMaps
  import opened TxSorted

  datatype TxList = TxList(strict: bool, txs: TxMap, costcap: int, gascap: nat)

  function EmptyList(strict: bool): (l: TxList)
  {
    TxList(strict, map[], 0, 0)
  }

  // ---------- adding ----------

  /** Least price at which a transaction may take the place of one with the given price. */
  function Threshold(price: nat, bump: nat): (p: nat)
  {
    price * (100 + bump) / 100
  }

  predicate Replaces(old': Tx, tx: Tx, bump: nat)
  {
    old'.price < tx.price && Threshold(old'.price, bump) <= tx.price
  }

  predicate Accepts(l: TxList, tx: Tx, bump: nat)
  {
    tx.nonce in l.txs ==> Replaces(l.txs[tx.nonce], tx, bump)
  }

  function With(l: TxList, tx: Tx): (r: TxList)
  {
    TxList(l.strict, l.txs[tx.nonce := tx],
           if l.costcap < tx.Cost() then tx.Cost() else l.costcap,
           if l.gascap < tx.gas then tx.gas else l.gascap)
  }

  // ---------- filtering ----------

  /** Nonces dropped, nonces cut off behind them, and the list that is left. */
  datatype Filtering = Filtering(removed: set<nat>, invalid: set<nat>, list: TxList)

  /** Filtering without looking at the caps first. */
  function FullFilter(l: TxList, costLimit: int, gasLimit: nat): (f: Filtering)
  {
    var removed := Unpayable(l.txs, costLimit, gasLimit);
    var rest := l.txs - removed;
    var invalid := if l.strict && removed != {} then Above(rest, MinOf(removed)) else {};
    Filtering(removed, invalid, TxList(l.strict, rest - invalid, costLimit, gasLimit))
  }

  function Filter(l: TxList, costLimit: int, gasLimit: nat): (f: Filtering)
  {
    if l.costcap <= costLimit && l.gascap <= gasLimit then Filtering({}, {}, l)
    else FullFilter(l, costLimit, gasLimit)
  }

  /** Filtering after the removal of a single nonce. */
  function Remove(l: TxList, nonce: nat): (f: Filtering)
  {
    var rest := l.txs - {nonce};
    var invalid := if l.strict && nonce in l.txs then Above(rest, nonce) else {};
    Filtering(l.txs.Keys * {nonce}, invalid, l.(txs := rest - invalid))
  }

  // ---------- what the operations keep ----------

  /** The caps bound everything in the list. */
  ghost predicate Capped(l: TxList)
  {
    ByNonce(l.txs) && forall n :: n in l.txs ==> l.txs[n].Cost() <= l.costcap && l.txs[n].gas <= l.gascap
  }

  lemma WithCapped(l: TxList, tx: Tx)
    requires Capped(l)
    ensures Capped(With(l, tx))
  {}

  lemma FewerCapped(l: TxList, ks: set<nat>)
    requires Capped(l)
    ensures Capped(l.(txs := l.txs - ks))
  {}

  /** Stopping early gives what the full filter would have given. */
  lemma EarlyStop(l: TxList, costLimit: int, gasLimit: nat)
    requires Capped(l)
    ensures var f, g := Filter(l, costLimit, gasLimit), FullFilter(l, costLimit, gasLimit);
            f.removed == g.removed && f.invalid == g.invalid && f.list.txs == g.list.txs
  {
    if l.costcap <= costLimit && l.gascap <= gasLimit {
      assert Unpayable(l.txs, costLimit, gasLimit) == {};
      assert l.txs - {} == l.txs;
    }
  }

  /** Dropped, cut off and kept transactions partition the list; exactly the unpayable ones are
      dropped, what is cut off lies behind a dropped one, and the caps hold again. */
  lemma FilterPartitions(l: TxList, costLimit: int, gasLimit: nat)
    requires Capped(l)
    ensures var f := Filter(l, costLimit, gasLimit);
            && l.txs.Keys == f.removed + f.invalid + f.list.txs.Keys
            && f.removed !! f.invalid !! f.list.txs.Keys
            && f.removed == Unpayable(l.txs, costLimit, gasLimit)
            && f.list == l.(txs := l.txs - f.removed - f.invalid, costcap := f.list.costcap, gascap := f.list.gascap)
            && (forall n :: n in f.invalid ==> l.strict && exists r :: r in f.removed && r < n)
            && Capped(f.list)
  {
    EarlyStop(l, costLimit, gasLimit);
    var f := FullFilter(l, costLimit, gasLimit);
    assert l.txs.Keys == f.removed + f.invalid + f.list.txs.Keys;
    assert Filter(l, costLimit, gasLimit).list.txs == l.txs - f.removed - f.invalid;
  }

  /** The nonces of a map are exactly those from a up to b. */
  ghost predicate Range(m: TxMap, a: nat, b: nat)
  {
    IsInterval(m.Keys, a, b)
  }

  /** A strict gap-free list stays a gap-free prefix of itself. */
  lemma FilterPrefix(l: TxList, costLimit: int, gasLimit: nat, a: nat, b: nat)
    requires Capped(l) && l.strict && Range(l.txs, a, b) && a <= b
    ensures var f := Filter(l, costLimit, gasLimit);
            var c := if f.removed == {} then b else MinOf(f.removed);
            a <= c <= b && Range(f.list.txs, a, c)
  {
    EarlyStop(l, costLimit, gasLimit);
  }

  lemma RemovePrefix(l: TxList, nonce: nat, a: nat, b: nat)
    requires l.strict && Range(l.txs, a, b) && a <= nonce < b
    ensures var f := Remove(l, nonce);
            && Range(f.list.txs, a, nonce)
            && forall n :: n in f.invalid <==> nonce < n < b
  {
    var f := Remove(l, nonce);
    assert forall n :: n in f.list.txs <==> n in l.txs && n < nonce;
  }

  lemma RemovePartitions(l: TxList, nonce: nat)
    ensures var f := Remove(l, nonce);
            && l.txs.Keys == f.removed + f.invalid + f.list.txs.Keys
            && f.removed !! f.invalid !! f.list.txs.Keys
            && f.list == l.(txs := l.txs - {nonce} - f.invalid)
  {
    var f := Remove(l, nonce);
    assert l.txs.Keys == f.removed + f.invalid + f.list.txs.Keys;
  }

  /** Capping a gap-free list keeps its lowest part. */
  lemma {:induction false} CapPrefix(m: TxMap, n: nat, a: nat, b: nat)
    requires Range(m, a, b) && a <= b
    ensures |m| == b - a
    ensures var c := if b - a <= n then b else a + n;
            Range(CapTo(m, n), a, c)
    decreases b - a
  {
    if a == b {
      assert m.Keys == {};
    } else {
      assert b - 1 in m && AllUpTo(m.Keys, b - 1);
      var top := MaxOf(m.Keys);
      assert top == b - 1;
      CapPrefix(m - {top}, n, a, b - 1);
    }
  }

  // ---------- the list on top of the sorted map ----------

  class AccountList {
    const strict: bool
    const txs: TxSortedMap
    var costcap: int
    var gascap: nat

    constructor (strict: bool)
      ensures Valid() && Model() == EmptyList(strict) && fresh(txs)
    {
      this.strict := strict;
      txs := new TxSortedMap();
      costcap, gascap := 0, 0;
    }

    ghost function Model(): (l: TxList)
      reads this, txs
    {
      TxList(strict, txs.items, costcap, gascap)
    }

    ghost predicate Valid()
      reads this, txs
    {
      txs.Valid() && Capped(Model())
    }

    method Add(tx: Tx, bump: nat) returns (inserted: bool, old': Option<Tx>)
      requires Valid()
      modifies this, txs
      ensures Valid() && inserted == Accepts(old(Model()), tx, bump)
      ensures Model() == if inserted then With(old(Model()), tx) else old(Model())
      ensures old' == if inserted then old(txs.Get(tx.nonce)) else None
    {
      hide Threshold, Flat, Indexed;
      old' := txs.Get(tx.nonce);
      if old'.Some? && (old'.value.price >= tx.price || Threshold(old'.value.price, bump) > tx.price) {
        return false, None;
      }
      txs.Put(tx);
      if costcap < tx.Cost() {
        costcap := tx.Cost();
      }
      if gascap < tx.gas {
        gascap := tx.gas;
      }
      inserted := true;
    }

    method Forward(threshold: nat) returns (removed: seq<Tx>)
      requires Valid()
      modifies txs
      ensures var m := old(txs.items);
              && Valid() && Model() == old(Model()).(txs := m - Below(m, threshold))
              && Returned(removed, m, Below(m, threshold))
    {
      hide Returned;
      removed := txs.Forward(threshold);
    }

    /** Takes out every transaction behind the given nonce. */
    method CutBehind(nonce: nat) returns (out: seq<Tx>)
      requires txs.Valid()
      modifies txs
      ensures var m := old(txs.items);
              txs.Valid() && txs.items == m - Above(m, nonce) && Returned(out, m, Above(m, nonce))
    {
      hide Flat, Indexed, Returned;
      var behind := (tx: Tx) => tx.nonce > nonce;
      ghost var m := txs.items;
      assert Picked(m, behind) == Above(m, nonce);
      out := txs.Filter(behind);
    }

    /** Takes out every transaction over one of the limits. */
    method DropUnpayable(costLimit: int, gasLimit: nat) returns (out: seq<Tx>)
      requires txs.Valid()
      modifies txs
      ensures var m := old(txs.items);
              var ks := Unpayable(m, costLimit, gasLimit);
              txs.Valid() && txs.items == m - ks && Returned(out, m, ks)
    {
      hide Flat, Indexed, Returned;
      var tooMuch := (tx: Tx) => tx.Cost() > costLimit || tx.gas > gasLimit;
      ghost var m := txs.items;
      assert Picked(m, tooMuch) == Unpayable(m, costLimit, gasLimit);
      out := txs.Filter(tooMuch);
    }

    method FilterTxs(costLimit: int, gasLimit: nat) returns (removed: seq<Tx>, invalids: seq<Tx>)
      requires Valid()
      modifies this, txs
      ensures var f := Filter(old(Model()), costLimit, gasLimit);
              && Valid() && Model() == f.list
              && Returned(removed, old(txs.items), f.removed) && Returned(invalids, old(txs.items), f.invalid)
    {
      hide Flat, Indexed, Returned, Unpayable, Above, FullFilter;
      ghost var l := Model();
      FilterPartitions(l, costLimit, gasLimit);
      ReturnedNone(l.txs);
      if costcap <= costLimit && gascap <= gasLimit {
        return [], [];
      }
      removed, invalids := FilterDown(costLimit, gasLimit);
    }

    /** The part of `Filter` behind the early stop. */
    method FilterDown(costLimit: int, gasLimit: nat) returns (removed: seq<Tx>, invalids: seq<Tx>)
      requires txs.Valid()
      modifies this, txs
      ensures var f := FullFilter(old(Model()), costLimit, gasLimit);
              && txs.Valid() && Model() == f.list
              && Returned(removed, old(txs.items), f.removed) && Returned(invalids, old(txs.items), f.invalid)
    {
      hide Flat, Indexed, Returned, Unpayable, Above;
      ghost var m, gone := txs.items, Unpayable(txs.items, costLimit, gasLimit);
      costcap, gascap := costLimit, gasLimit;
      removed := DropUnpayable(costLimit, gasLimit);
      ReturnedEmpty(removed, m, gone);
      invalids := [];
      ghost var rest := txs.items;
      if strict && |removed| > 0 {
        var lowest := Lowest(removed, m, gone);
        invalids := CutBehind(lowest);
        ReturnedFrom(invalids, rest, m, Above(rest, lowest));
      } else {
        ReturnedNone(m);
        assert rest - {} == rest;
      }
    }

    method Cap(threshold: nat) returns (drops: seq<Tx>)
      requires Valid()
      modifies txs
      ensures var m := old(txs.items);
              && Valid() && Model() == old(Model()).(txs := CapTo(m, threshold))
              && Returned(drops, m, m.Keys - txs.items.Keys)
    {
      hide CapTo, Returned;
      drops := txs.Cap(threshold);
    }

    method RemoveTx(tx: Tx) returns (found: bool, invalids: seq<Tx>)
      requires Valid()
      modifies txs
      ensures var f := Remove(old(Model()), tx.nonce);
              && Valid() && Model() == f.list && found == (tx.nonce in old(txs.items))
              && Returned(invalids, old(txs.items), f.invalid)
    {
      hide Flat, Indexed, Returned, Above;
      ghost var m := txs.items;
      found := txs.Remove(tx.nonce);
      ghost var rest := txs.items;
      assert rest - {} == rest;
      ReturnedNone(m);
      invalids := [];
      if found && strict {
        invalids := CutBehind(tx.nonce);
        ReturnedFrom(invalids, rest, m, Above(rest, tx.nonce));
      }
      FewerCapped(old(Model()), m.Keys - txs.items.Keys);
      assert m - (m.Keys - txs.items.Keys) == txs.items;
    }

    method Ready(start: nat) returns (ready: seq<Tx>)
      requires Valid()
      modifies txs
      ensures var m := old(txs.items);
              && Valid() && Model() == old(Model()).(txs := m - ReadyKeys(m, start))
              && Returned(ready, m, ReadyKeys(m, start))
    {
      hide ReadyKeys, Returned;
      ready := txs.Ready(start);
    }

    method Flatten() returns (s: seq<Tx>)
      requires Valid()
      modifies txs
      ensures Valid() && Model() == old(Model()) && s == Flat(txs.items)
    {
      s := txs.Flatten();
    }
  }

  lemma ReturnedNone(m: TxMap)
    ensures Returned([], m, {})
  {}

  lemma ReturnedEmpty(out: seq<Tx>, m: TxMap, ks: set<nat>)
    requires Returned(out, m, ks)
    ensures out == [] <==> ks == {}
  {}

  /** What was taken out of a part was taken out of the whole. */
  lemma ReturnedFrom(out: seq<Tx>, part: TxMap, m: TxMap, ks: set<nat>)
    requires Returned(out, part, ks) && part.Keys <= m.Keys && forall k :: k in part ==> part[k] == m[k]
    ensures Returned(out, m, ks)
  {
    assert Pick(part, ks) == Pick(m, ks);
  }

  /** Lowest nonce among transactions that were taken out. */
  method Lowest(removed: seq<Tx>, ghost m: TxMap, ghost ks: set<nat>) returns (lowest: nat)
    requires removed != [] && ByNonce(m) && Returned(removed, m, ks)
    ensures ks != {} && lowest == MinOf(ks)
  {
    lowest := removed[0].nonce;
    for i := 0 to |removed|
      invariant exists tx :: tx in removed && tx.nonce == lowest
      invariant forall j :: 0 <= j < i ==> lowest <= removed[j].nonce
    {
      if lowest > removed[i].nonce {
        lowest := removed[i].nonce;
      }
    }
    LowestKey(removed, m, ks, lowest);
  }

  lemma LowestKey(removed: seq<Tx>, m: TxMap, ks: set<nat>, lowest: nat)
    requires ByNonce(m) && Returned(removed, m, ks)
    requires exists tx :: tx in removed && tx.nonce == lowest
    requires forall j :: 0 <= j < |removed| ==> lowest <= removed[j].nonce
    ensures ks != {} && lowest == MinOf(ks)
  {
    var tx :| tx in removed && tx.nonce == lowest;
    assert tx in Elems(removed);
    assert lowest in ks;
    forall k | k in ks ensures lowest <= k {
      assert m[k] in Pick(m, ks);
      assert m[k] in Elems(removed);
    }
  }
}
