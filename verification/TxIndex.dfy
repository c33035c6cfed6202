/** The transaction lookup that scanning a chain of blocks gives. */
module TxIndex {
  import opened Basics
  import opened ChainTree

  type TxId = nat

  type Bodies = map<Hash, seq<TxId>>

  datatype Place = Place(block: Hash, number: nat, index: nat)

  type Lookup = map<TxId, Place>

  /** Places of the first i transactions of a block. */
  function Places(h: Hash, number: nat, txs: seq<TxId>, i: nat): (r: Lookup)
    requires i <= |txs|
  {
    if i == 0 then map[] else Places(h, number, txs, i - 1)[txs[i - 1] := Place(h, number, i - 1)]
  }

  lemma {:induction false} PlacesKeys(h: Hash, number: nat, txs: seq<TxId>, i: nat)
    requires i <= |txs|
    ensures Places(h, number, txs, i).Keys == Elems(txs[..i])
  {
    if i != 0 {
      PlacesKeys(h, number, txs, i - 1);
      assert txs[..i] == txs[..i - 1] + [txs[i - 1]];
    }
  }

  function InBlock(hs: Headers, bodies: Bodies, h: Hash): (r: Lookup)
    requires h in hs && h in bodies
  {
    Places(h, hs[h].number, bodies[h], |bodies[h]|)
  }

  lemma InBlockKeys(hs: Headers, bodies: Bodies, h: Hash)
    requires h in hs && h in bodies
    ensures InBlock(hs, bodies, h).Keys == Elems(bodies[h])
  {
    PlacesKeys(h, hs[h].number, bodies[h], |bodies[h]|);
    assert bodies[h][..|bodies[h]|] == bodies[h];
  }

  /** Scan of the blocks above height n up to h. */
  ghost function Part(hs: Headers, bodies: Bodies, genesis: Hash, h: Hash, n: nat): (r: Lookup)
    requires Tree(hs, genesis) && hs.Keys <= bodies.Keys && h in hs && n <= hs[h].number
    decreases hs[h].number
  {
    if hs[h].number == n then map[] else Part(hs, bodies, genesis, hs[h].parent, n) + InBlock(hs, bodies, h)
  }

  /** Scan of the whole chain from the genesis, which has no transactions, up to h. */
  ghost function Scan(hs: Headers, bodies: Bodies, genesis: Hash, h: Hash): (r: Lookup)
    requires Tree(hs, genesis) && hs.Keys <= bodies.Keys && h in hs
  {
    Part(hs, bodies, genesis, h, 0)
  }

  /** A scan can be split at any height. */
  lemma {:induction false} PartSplit(hs: Headers, bodies: Bodies, genesis: Hash, h: Hash, m: nat, n: nat)
    requires Tree(hs, genesis) && hs.Keys <= bodies.Keys && h in hs && n <= m <= hs[h].number
    ensures Part(hs, bodies, genesis, h, n) ==
              Part(hs, bodies, genesis, Ancestor(hs, genesis, h, m), n) + Part(hs, bodies, genesis, h, m)
    decreases hs[h].number
  {
    hide InBlock;
    if hs[h].number != m {
      PartSplit(hs, bodies, genesis, hs[h].parent, m, n);
      JoinAssoc(Part(hs, bodies, genesis, Ancestor(hs, genesis, h, m), n), Part(hs, bodies, genesis, hs[h].parent, m),
                InBlock(hs, bodies, h));
    } else {
      JoinNone(Part(hs, bodies, genesis, h, n));
    }
  }

  lemma JoinAssoc(x: Lookup, y: Lookup, z: Lookup)
    ensures x + y + z == x + (y + z)
  {}

  lemma JoinNone(x: Lookup)
    ensures x + map[] == x && map[] + x == x
  {}

  lemma {:induction false} PlacesFind(h: Hash, number: nat, txs: seq<TxId>, i: nat, t: TxId)
    requires i <= |txs| && t in Places(h, number, txs, i)
    ensures var p := Places(h, number, txs, i)[t];
            p.block == h && p.number == number && p.index < i && txs[p.index] == t
  {
    if txs[i - 1] != t {
      PlacesFind(h, number, txs, i - 1, t);
    }
  }

  /** Every entry of a scan points at its transaction in a block of the chain. */
  lemma {:induction false} ScanFinds(hs: Headers, bodies: Bodies, genesis: Hash, h: Hash, t: TxId)
    requires Tree(hs, genesis) && hs.Keys <= bodies.Keys && h in hs && t in Scan(hs, bodies, genesis, h)
    ensures var p := Scan(hs, bodies, genesis, h)[t];
            && 0 < p.number <= hs[h].number && p.block == Ancestor(hs, genesis, h, p.number)
            && p.index < |bodies[p.block]| && bodies[p.block][p.index] == t
    decreases hs[h].number
  {
    if t in InBlock(hs, bodies, h) {
      PlacesFind(h, hs[h].number, bodies[h], |bodies[h]|, t);
    } else {
      ScanFinds(hs, bodies, genesis, hs[h].parent, t);
    }
  }

  /** Every transaction of the chain has an entry. */
  lemma {:induction false} ScanComplete(hs: Headers, bodies: Bodies, genesis: Hash, h: Hash, n: nat, t: TxId)
    requires Tree(hs, genesis) && hs.Keys <= bodies.Keys && h in hs && 0 < n <= hs[h].number
    requires t in bodies[Ancestor(hs, genesis, h, n)]
    ensures t in Scan(hs, bodies, genesis, h)
    decreases hs[h].number
  {
    InBlockKeys(hs, bodies, h);
    if hs[h].number != n {
      ScanComplete(hs, bodies, genesis, hs[h].parent, n, t);
    }
  }

  /** Adding a block changes no scan of the blocks there already. */
  lemma {:induction false} PartStays(hs: Headers, bodies: Bodies, genesis: Hash, hash: Hash, header: Header,
                                     txs: seq<TxId>, h: Hash, n: nat)
    requires Tree(hs, genesis) && hs.Keys <= bodies.Keys && (hash in hs ==> hs[hash] == header && bodies[hash] == txs)
    requires Tree(hs[hash := header], genesis) && h in hs && n <= hs[h].number
    ensures Part(hs[hash := header], bodies[hash := txs], genesis, h, n) == Part(hs, bodies, genesis, h, n)
    decreases hs[h].number
  {
    if hs[h].number != n {
      PartStays(hs, bodies, genesis, hash, header, txs, hs[h].parent, n);
    }
  }

  // ---------- no transaction twice ----------

  /** No block repeats a transaction of a block below it. */
  ghost predicate Unrepeated(hs: Headers, bodies: Bodies, genesis: Hash)
    requires Tree(hs, genesis) && hs.Keys <= bodies.Keys
  {
    forall h :: h in hs && h != genesis ==> Elems(bodies[h]) !! Scan(hs, bodies, genesis, hs[h].parent).Keys
  }

  /** What a stretch of chain adds is not in the chain below it. */
  lemma {:induction false} PartApart(hs: Headers, bodies: Bodies, genesis: Hash, h: Hash, n: nat)
    requires Tree(hs, genesis) && hs.Keys <= bodies.Keys && h in hs && n <= hs[h].number
    requires Unrepeated(hs, bodies, genesis)
    ensures Part(hs, bodies, genesis, h, n).Keys !! Scan(hs, bodies, genesis, Ancestor(hs, genesis, h, n)).Keys
    decreases hs[h].number
  {
    if hs[h].number != n {
      var p := hs[h].parent;
      PartApart(hs, bodies, genesis, p, n);
      PartSplit(hs, bodies, genesis, p, n, 0);
      InBlockKeys(hs, bodies, h);
    }
  }
}
