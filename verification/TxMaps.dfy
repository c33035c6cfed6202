/** Transactions, and per-account maps from nonces to transactions as plain values: what the
    heap-indexed `txSortedMap` stands for. */
module TxMaps {
  import opened Basics

  type Addr = nat

  /** A signed transaction. Its hash identifies it, so two transactions are the same exactly
      when their values are. `signed` says whether a sender can be recovered. */
  datatype Tx = Tx(from: Addr, signed: bool, nonce: nat, price: nat, gas: nat, value: int,
                   data: seq<int>, creation: bool, size: nat)
  {
    function Cost(): (c: int)
    {
      value + price * gas
    }
  }

  type TxMap = map<nat, Tx>

  // ---------- parts of a map ----------

  /** Each transaction sits at its own nonce. */
  ghost predicate ByNonce(m: TxMap)
  {
    forall n :: n in m ==> m[n].nonce == n
  }

  predicate Has(m: TxMap, tx: Tx)
  {
    tx.nonce in m && m[tx.nonce] == tx
  }

  /** The transactions at the given nonces. */
  function Pick(m: TxMap, ks: set<nat>): (s: set<Tx>)
    requires ks <= m.Keys
  {
    set n | n in ks :: m[n]
  }

  function Below(m: TxMap, t: nat): (ks: set<nat>)
    ensures ks <= m.Keys
  {
    set n | n in m && n < t
  }

  function Above(m: TxMap, t: nat): (ks: set<nat>)
    ensures ks <= m.Keys
  {
    set n | n in m && n > t
  }

  /** Too costly or too much gas. */
  function Unpayable(m: TxMap, costLimit: int, gasLimit: nat): (ks: set<nat>)
    ensures ks <= m.Keys
  {
    set n | n in m && (m[n].Cost() > costLimit || m[n].gas > gasLimit)
  }

  /** The n lowest nonces. */
  function CapTo(m: TxMap, n: nat): (r: TxMap)
    ensures |r| == if |m| <= n then |m| else n
    ensures r.Keys <= m.Keys && forall k :: k in r ==> r[k] == m[k]
    ensures forall a, b :: a in r && b in m && b !in r ==> a < b
    decreases |m|
  {
    if |m| <= n then m else CapTo(m - {MaxOf(m.Keys)}, n)
  }

  /** The first free nonce from k on. */
  function RunEnd(m: TxMap, k: nat): (e: nat)
    ensures k <= e && e !in m && forall n :: k <= n < e ==> n in m
    decreases |m|
  {
    if k in m then
      var e := RunEnd(m - {k}, k + 1);
      assert forall n {:trigger n in m} :: n !in m ==> n !in m - {k};
      e
    else k
  }

  /** The first gap-free run, provided it begins at `start` or earlier. */
  function ReadyKeys(m: TxMap, start: nat): (ks: set<nat>)
    ensures ks <= m.Keys
  {
    if |m| == 0 || MinOf(m.Keys) > start then {}
    else
      var first := MinOf(m.Keys);
      set n | n in m && first <= n < RunEnd(m, first)
  }

  // ---------- in order of nonce ----------

  function Flat(m: TxMap): (s: seq<Tx>)
    ensures |s| == |m|
    decreases |m|
  {
    if |m| == 0 then [] else
      var k := MaxOf(m.Keys);
      Flat(m - {k}) + [m[k]]
  }

  ghost predicate Ascending(s: seq<Tx>)
  {
    forall i, j :: 0 <= i < j < |s| ==> s[i].nonce < s[j].nonce
  }

  /** The flat form is the map's contents in strictly ascending order of nonce. */
  lemma {:induction false} FlatContents(m: TxMap)
    requires ByNonce(m)
    ensures Ascending(Flat(m))
    ensures forall tx :: tx in Flat(m) <==> Has(m, tx)
    decreases |m|
  {
    if |m| != 0 {
      var k := MaxOf(m.Keys);
      var r := m - {k};
      FlatContents(r);
      WithTop(m, k, Flat(r));
    }
  }

  lemma WithTop(m: TxMap, k: nat, f: seq<Tx>)
    requires ByNonce(m) && k in m && AllUpTo(m.Keys, k)
    requires Ascending(f) && forall tx :: tx in f <==> Has(m - {k}, tx)
    ensures Ascending(f + [m[k]]) && forall tx :: tx in f + [m[k]] <==> Has(m, tx)
  {
    forall i | 0 <= i < |f| ensures f[i].nonce < k {
      assert f[i] in f;
      assert Has(m - {k}, f[i]);
    }
    forall tx ensures tx in f + [m[k]] <==> Has(m, tx) {
      assert tx in f <==> Has(m - {k}, tx);
    }
  }

  /** Only one sequence is in ascending order and has these contents. */
  lemma {:induction false} FlatUnique(m: TxMap, s: seq<Tx>)
    requires ByNonce(m) && |s| == |m| && Ascending(s) && forall tx :: tx in s <==> Has(m, tx)
    ensures s == Flat(m)
    decreases |m|
  {
    if |m| != 0 {
      var k := MaxOf(m.Keys);
      LastIsTop(m, k, s);
      FlatUnique(m - {k}, s[..|s| - 1]);
    }
  }

  lemma LastIsTop(m: TxMap, k: nat, s: seq<Tx>)
    requires ByNonce(m) && k in m && AllUpTo(m.Keys, k)
    requires s != [] && Ascending(s) && forall tx :: tx in s <==> Has(m, tx)
    ensures s == s[..|s| - 1] + [m[k]]
    ensures Ascending(s[..|s| - 1]) && forall tx :: tx in s[..|s| - 1] <==> Has(m - {k}, tx)
  {
    assert Has(m, m[k]);
    var i :| 0 <= i < |s| && s[i] == m[k];
    assert s[|s| - 1] in s;
    assert Has(m, s[|s| - 1]);
    var t := s[..|s| - 1];
    assert s == t + [m[k]];
    AllButLast(m, k, s, t);
  }

  lemma AllButLast(m: TxMap, k: nat, s: seq<Tx>, t: seq<Tx>)
    requires k in m && m[k].nonce == k && s == t + [m[k]] && Ascending(s) && forall tx :: tx in s <==> Has(m, tx)
    ensures Ascending(t) && forall tx :: tx in t <==> Has(m - {k}, tx)
  {
    assert forall i :: 0 <= i < |t| ==> s[i] == t[i];
    assert s[|t|] == m[k];
    forall tx ensures tx in t <==> Has(m - {k}, tx) {
      assert tx in s <==> tx in t || tx == m[k];
    }
  }

  /** Capping cuts the flat form at the end. */
  lemma {:induction false} FlatCap(m: TxMap, n: nat)
    requires n <= |m|
    ensures Flat(CapTo(m, n)) == Flat(m)[..n]
    decreases |m|
  {
    if |m| > n {
      var k := MaxOf(m.Keys);
      FlatCap(m - {k}, n);
    }
  }

  /** Dropping low nonces cuts it at the front. */
  lemma {:induction false} FlatForward(m: TxMap, t: nat)
    ensures |Below(m, t)| <= |m|
    ensures Flat(m - Below(m, t)) == Flat(m)[|Below(m, t)|..]
    decreases |m|
  {
    if |m| != 0 {
      var k := MaxOf(m.Keys);
      if k < t {
        assert Below(m, t) == m.Keys;
        assert |m - m.Keys| == 0;
      } else {
        FlatForward(m - {k}, t);
        TopStays(m, k, t);
        CutFront(Flat(m - {k}), m[k], |Below(m, t)|);
      }
    }
  }

  lemma CutFront<T>(s: seq<T>, x: T, n: nat)
    requires n <= |s|
    ensures (s + [x])[n..] == s[n..] + [x]
  {}

  lemma FlatTop(m: TxMap, k: nat)
    requires k in m && AllUpTo(m.Keys, k)
    ensures Flat(m) == Flat(m - {k}) + [m[k]]
  {
    var top := MaxOf(m.Keys);
    assert top <= k <= top;
  }

  lemma TopStays(m: TxMap, k: nat, t: nat)
    requires k in m && k >= t && AllUpTo(m.Keys, k)
    ensures var r := m - {k};
            Below(r, t) == Below(m, t) && |Below(m, t)| <= |r|
    ensures Flat(m - Below(m, t)) == Flat((m - {k}) - Below(m, t)) + [m[k]]
  {
    var r, low := m - {k}, Below(m, t);
    assert Below(r, t) == low;
    Subset(low, r.Keys);
    var hi := m - low;
    assert hi - {k} == r - low;
    FlatTop(hi, k);
  }

  lemma {:induction false} Subset<T>(a: set<T>, b: set<T>)
    requires a <= b
    ensures |a| <= |b|
  {
    if a != {} {
      var x :| x in a;
      Subset(a - {x}, b - {x});
    }
  }
}
