/** Fork choice of core/blockchain.go: `WriteBlockWithState` with `reorg` and `insert`. The index
    of canonical numbers and the transaction lookup follow the head. */
module BlockChains {
  import opened Basics
  import opened ChainTree
  import opened HeaderChains
  import opened TxIndex

  /** Up to the head's number the index holds the head's ancestors; entries above may be stale. */
  ghost predicate Covering(index: Index, hs: Headers, genesis: Hash, head: Hash)
    requires Tree(hs, genesis) && head in hs
  {
    forall n: nat :: n <= hs[head].number ==> n in index && index[n] == Ancestor(hs, genesis, head, n)
  }

  /** Index entries, stale ones too, are known blocks of their number. */
  ghost predicate Known(index: Index, hs: Headers)
  {
    forall n: nat :: n in index ==> index[n] in hs && hs[index[n]].number == n
  }

  /** A block that becomes the head is not in the index yet, unless it is the head already. */
  ghost predicate Fresh(index: Index, hs: Headers, head: Hash, hash: Hash)
    requires hash in hs
  {
    hash == head || !(hs[hash].number in index && index[hs[hash].number] == hash)
  }

  /** Why: a block in the index is known, so it is not heavier than the head. */
  lemma BetterIsFresh(td: map<Hash, nat>, hs: Headers, genesis: Hash, index: Index, head: Hash, hash: Hash,
                      header: Header, weight: nat, coin: bool)
    requires Tree(hs, genesis) && head in hs && Covering(index, hs, genesis, head) && Known(index, hs)
    requires td.Keys == hs.Keys && Heaviest(td, hs, head) && (hash in hs ==> hs[hash] == header && td[hash] == weight)
    requires Better(weight, header.number, td[head], hs[head].number, coin)
    ensures Fresh(index, hs[hash := header], head, hash)
  {
    hide Tree, Ancestor;
    if header.number in index && index[header.number] == hash {
      SelfAncestor(hs, genesis, head);
      assert hash in hs && header.number == hs[head].number;
      assert index[hs[head].number] == Ancestor(hs, genesis, head, hs[head].number);
    }
  }

  /** No block is heavier than the head, and none of the same weight is shorter. */
  ghost predicate Heaviest(td: map<Hash, nat>, hs: Headers, head: Hash)
  {
    head in td && head in hs && forall h :: h in hs && h in td ==>
      td[h] < td[head] || (td[h] == td[head] && hs[h].number >= hs[head].number)
  }

  lemma StillHeaviest(td: map<Hash, nat>, hs: Headers, head: Hash, hash: Hash, header: Header, weight: nat, coin: bool)
    requires Heaviest(td, hs, head) && td.Keys == hs.Keys && (hash in hs ==> hs[hash] == header && td[hash] == weight)
    ensures Heaviest(td[hash := weight], hs[hash := header],
                     if Better(weight, header.number, td[head], hs[head].number, coin) then hash else head)
  {}

  lemma Below(hs: Headers, genesis: Hash, top: Hash, k: nat)
    requires Tree(hs, genesis) && top in hs && 0 < k <= hs[top].number
    ensures var x := Ancestor(hs, genesis, top, k);
            x != genesis && hs[x].parent in hs && hs[hs[x].parent].number == k - 1
            && hs[x].parent == Ancestor(hs, genesis, top, k - 1)
  {
    hide Ancestor, Tree;
    RootLow(hs, genesis);
    ParentOf(hs, genesis, Ancestor(hs, genesis, top, k));
    AncestorTwice(hs, genesis, top, k, k - 1);
  }

  lemma RootLow(hs: Headers, genesis: Hash)
    requires Tree(hs, genesis)
    ensures genesis in hs && hs[genesis].number == 0
  {}

  /** The block j steps below a tip. */
  ghost function Down(hs: Headers, genesis: Hash, tip: Hash, j: nat): (h: Hash)
    requires Tree(hs, genesis) && tip in hs && j <= hs[tip].number
  {
    Ancestor(hs, genesis, tip, hs[tip].number - j)
  }

  /** Blocks from a tip downwards. */
  ghost predicate Path(hs: Headers, genesis: Hash, tip: Hash, path: seq<Hash>)
    requires Tree(hs, genesis) && tip in hs
  {
    |path| <= hs[tip].number && forall j: nat :: j < |path| ==> path[j] == Down(hs, genesis, tip, j)
  }

  lemma PathNext(hs: Headers, genesis: Hash, tip: Hash, path: seq<Hash>)
    requires Tree(hs, genesis) && tip in hs && Path(hs, genesis, tip, path) && |path| < hs[tip].number
    ensures Path(hs, genesis, tip, path + [Down(hs, genesis, tip, |path|)])
  {
    hide Down, Tree;
  }

  lemma PartKeys(hs: Headers, bodies: Bodies, genesis: Hash, h: Hash, k: nat)
    requires Tree(hs, genesis) && hs.Keys <= bodies.Keys && h in hs && 0 < k <= hs[h].number
    ensures Part(hs, bodies, genesis, h, k - 1).Keys ==
              Part(hs, bodies, genesis, h, k).Keys + Elems(bodies[Ancestor(hs, genesis, h, k)])
  {
    hide Ancestor, Tree, Part, InBlock, Elems;
    var x := Ancestor(hs, genesis, h, k);
    PartSplit(hs, bodies, genesis, h, k, k - 1);
    Below(hs, genesis, h, k);
    PartOne(hs, bodies, genesis, x);
    InBlockKeys(hs, bodies, x);
    KeysJoin(InBlock(hs, bodies, x), Part(hs, bodies, genesis, h, k));
  }

  lemma KeysJoin(x: Lookup, y: Lookup)
    ensures (x + y).Keys == y.Keys + x.Keys
  {}

  lemma PartOne(hs: Headers, bodies: Bodies, genesis: Hash, x: Hash)
    requires Tree(hs, genesis) && hs.Keys <= bodies.Keys && x in hs && x != genesis
    ensures hs[x].number > 0 && Part(hs, bodies, genesis, x, hs[x].number - 1) == InBlock(hs, bodies, x)
  {
    JoinNone(InBlock(hs, bodies, x));
  }

  class BlockChain {
    const genesis: Hash
    var headers: Headers
    var bodies: Bodies
    var td: map<Hash, nat>
    var index: Index
    var lookup: Lookup
    var current: Hash
    var headHeader: Hash
    var headFast: Hash

    constructor (genesis: Hash, header: Header)
      requires header.number == 0
      ensures Valid() && this.genesis == genesis && headers == map[genesis := header] && current == genesis
    {
      this.genesis, current, headHeader, headFast := genesis, genesis, genesis, genesis;
      headers, bodies, td := map[genesis := header], map[genesis := []], map[genesis := header.difficulty];
      index, lookup := map[0 := genesis], map[];
      new;
      assert index[0] == genesis;
    }

    ghost predicate Sound()
      reads this
    {
      && Tree(headers, genesis) && current in headers && bodies.Keys == headers.Keys
      && Weighed(td, headers, genesis) && Unrepeated(headers, bodies, genesis)
    }

    /** The index follows the head, the lookup is what scanning the head's chain gives, no block is
        heavier than the head, and none of the same weight is shorter. Head header and head fast
        block are the head. */
    ghost predicate Valid()
      reads this
    {
      && Sound()
      && Covering(index, headers, genesis, current) && lookup == Scan(headers, bodies, genesis, current)
      && Heaviest(td, headers, current)
      && headHeader == current && headFast == current && Known(index, headers)
    }

    /** `insert` */
    method Insert(hash: Hash)
      requires hash in headers
      modifies this`index, this`current, this`headHeader, this`headFast
      ensures index == old(index)[headers[hash].number := hash] && current == hash
      ensures if headers[hash].number in old(index) && old(index)[headers[hash].number] == hash
              then headHeader == old(headHeader) && headFast == old(headFast) else headHeader == headFast == hash
    {
      var number := headers[hash].number;
      var updateHeads := !(number in index && index[number] == hash);
      index := index[number := hash];
      current := hash;
      if updateHeads {
        headHeader, headFast := hash, hash;
      }
    }

    /** `WriteTxLookupEntries` */
    method WriteLookup(hash: Hash)
      requires hash in headers && hash in bodies
      modifies this`lookup
      ensures lookup == old(lookup) + InBlock(headers, bodies, hash)
    {
      var txs, number := bodies[hash], headers[hash].number;
      JoinNone(lookup);
      for i := 0 to |txs|
        invariant lookup == old(lookup) + Places(hash, number, txs, i)
      {
        lookup := lookup[txs[i] := Place(hash, number, i)];
      }
    }

    /** First part of `reorg`: walks down from both heads until they meet, noting the blocks to
        adopt and the transactions that lose their place. In a chain without missing blocks both
        walks arrive. */
    method FindCommon(old': Hash, new': Hash) returns (ok: bool, common: Hash, newChain: seq<Hash>, deleted: seq<TxId>)
      requires Tree(headers, genesis) && old' in headers && new' in headers && bodies.Keys == headers.Keys
      ensures ok && common in headers && Meets(headers, genesis, old', new', common)
      ensures Apart(headers, genesis, old', new', headers[common].number)
      ensures Path(headers, genesis, new', newChain) && |newChain| == headers[new'].number - headers[common].number
      ensures Elems(deleted) == Part(headers, bodies, genesis, old', headers[common].number).Keys
    {
      hide Tree, Ancestor, Part, Path, Elems, Apart;
      var o, n := old', new';
      newChain, deleted := [], [];
      WalkStart(headers, bodies, genesis, old', new');
      if headers[o].number > headers[n].number {
        while o in headers && headers[o].number != headers[n].number
          invariant o in headers && headers[n].number <= headers[o].number <= headers[old'].number
          invariant o == Ancestor(headers, genesis, old', headers[o].number)
          invariant Elems(deleted) == Part(headers, bodies, genesis, old', headers[o].number).Keys
          decreases headers[o].number
        {
          WalkOld(headers, bodies, genesis, old', o, deleted);
          deleted := deleted + bodies[o];
          o := headers[o].parent;
        }
      } else {
        while n in headers && headers[n].number != headers[o].number
          invariant n in headers && headers[o].number <= headers[n].number <= headers[new'].number
          invariant n == Ancestor(headers, genesis, new', headers[n].number)
          invariant Path(headers, genesis, new', newChain) && |newChain| == headers[new'].number - headers[n].number
          decreases headers[n].number
        {
          WalkNew(headers, genesis, new', n, newChain);
          newChain := newChain + [n];
          n := headers[n].parent;
        }
      }
      if o !in headers || n !in headers {
        return false, genesis, [], [];
      }
      ApartTop(headers, genesis, old', new', headers[o].number);
      while o != n
        invariant o in headers && n in headers && headers[o].number == headers[n].number
        invariant Apart(headers, genesis, old', new', headers[o].number)
        invariant headers[o].number <= headers[old'].number && o == Ancestor(headers, genesis, old', headers[o].number)
        invariant headers[n].number <= headers[new'].number && n == Ancestor(headers, genesis, new', headers[n].number)
        invariant Elems(deleted) == Part(headers, bodies, genesis, old', headers[o].number).Keys
        invariant Path(headers, genesis, new', newChain) && |newChain| == headers[new'].number - headers[n].number
        decreases headers[o].number
      {
        NotRoots(headers, genesis, old', new', o, n);
        ApartNext(headers, genesis, old', new', headers[o].number);
        WalkOld(headers, bodies, genesis, old', o, deleted);
        WalkNew(headers, genesis, new', n, newChain);
        newChain, deleted := newChain + [n], deleted + bodies[o];
        o, n := headers[o].parent, headers[n].parent;
        if o !in headers || n !in headers {
          return false, genesis, [], [];
        }
      }
      ok, common := true, o;
    }

    /** Second part of `reorg`: the new blocks enter the index and the lookup, lowest first. */
    method Adopt(tip: Hash, newChain: seq<Hash>, ghost c: nat) returns (added: seq<TxId>)
      requires Tree(headers, genesis) && tip in headers && bodies.Keys == headers.Keys
      requires Path(headers, genesis, tip, newChain) && |newChain| == headers[tip].number - c
      requires IndexedTo(index, headers, genesis, tip, c)
      modifies this`index, this`current, this`headHeader, this`headFast, this`lookup
      ensures IndexedTo(index, headers, genesis, tip, headers[tip].number)
      ensures lookup == old(lookup) + Part(headers, bodies, genesis, tip, c)
      ensures Elems(added) == Part(headers, bodies, genesis, tip, c).Keys
      ensures old(Known(index, headers)) ==> Known(index, headers)
      ensures if newChain == [] then headHeader == old(headHeader) && headFast == old(headFast)
              else !(headers[tip].number in old(index) && old(index)[headers[tip].number] == tip) ==>
                headHeader == headFast == tip
    {
      hide Tree, Ancestor, Part, Path, Elems, IndexedTo, InBlock, Known;
      added := [];
      var i := |newChain|;
      AdoptStart(headers, bodies, genesis, tip, c, lookup);
      while i > 0
        invariant 0 <= i <= |newChain|
        invariant IndexedTo(index, headers, genesis, tip, headers[tip].number - i)
        invariant lookup == old(lookup) + Part(headers, bodies, genesis, Down(headers, genesis, tip, i), c)
        invariant Elems(added) == Part(headers, bodies, genesis, Down(headers, genesis, tip, i), c).Keys
        invariant old(Known(index, headers)) ==> Known(index, headers)
        invariant i > 0 ==> (headers[tip].number in index <==> headers[tip].number in old(index))
        invariant i > 0 && headers[tip].number in index ==>
                    index[headers[tip].number] == old(index)[headers[tip].number]
        invariant i == |newChain| ==> headHeader == old(headHeader) && headFast == old(headFast)
        invariant i == 0 < |newChain|
                  && !(headers[tip].number in old(index) && old(index)[headers[tip].number] == tip) ==>
                    headHeader == headFast == tip
      {
        i := i - 1;
        AdoptStep(headers, bodies, genesis, tip, newChain, c, i, index, old(lookup), lookup, added);
        KnownNext(index, headers, newChain[i]);
        SelfAncestor(headers, genesis, tip);
        Insert(newChain[i]);
        WriteLookup(newChain[i]);
        added := added + bodies[newChain[i]];
      }
      SelfAncestor(headers, genesis, tip);
    }

    /** Last part of `reorg`: transactions that the new chain does not have lose their entry. */
    method DropLost(deleted: seq<TxId>, added: seq<TxId>)
      modifies this`lookup
      ensures lookup == old(lookup) - (Elems(deleted) - Elems(added))
    {
      var diff := TxDifference(deleted, added);
      for i := 0 to |diff|
        invariant lookup == old(lookup) - Elems(diff[..i])
      {
        assert diff[..i + 1] == diff[..i] + [diff[i]];
        lookup := lookup - {diff[i]};
      }
      assert diff[..|diff|] == diff;
    }

    /** `reorg` from the current head to another block. It never fails, the index then follows the
        new block and the lookup is the scan of its chain. */
    method Reorg(new': Hash) returns (ok: bool)
      requires Sound() && new' in headers && Covering(index, headers, genesis, current)
      requires lookup == Scan(headers, bodies, genesis, current)
      modifies this`index, this`current, this`headHeader, this`headFast, this`lookup
      ensures ok && Covering(index, headers, genesis, new') && lookup == Scan(headers, bodies, genesis, new')
      ensures old(Known(index, headers)) ==> Known(index, headers)
      ensures old(Fresh(index, headers, current, new') && headHeader == current && headFast == current) ==>
                headHeader == headFast == new'
    {
      hide Tree, Ancestor, Part, Path, Elems, IndexedTo, Scan, Meets, Unrepeated, Weighed, Covering, Known, Apart;
      hide Fresh;
      ghost var head := current;
      var common, newChain, deleted;
      ok, common, newChain, deleted := FindCommon(current, new');
      if !ok {
        return;
      }
      ghost var c := headers[common].number;
      if Fresh(index, headers, head, new') {
        NothingNew(index, headers, genesis, head, new', common);
      }
      MetIndex(index, headers, genesis, head, new', common);
      var added := Adopt(new', newChain, c);
      MetLookup(headers, bodies, genesis, head, new', common);
      DropLost(deleted, added);
      IndexedAll(index, headers, genesis, new');
    }

    /** Reorganises to a block unless it is on top of the head, and makes it the head. */
    method MakeHead(hash: Hash) returns (ok: bool)
      requires Sound() && hash in headers && hash != genesis && Covering(index, headers, genesis, current)
      requires lookup == Scan(headers, bodies, genesis, current)
      modifies this`index, this`current, this`headHeader, this`headFast, this`lookup
      ensures ok && current == hash && Covering(index, headers, genesis, hash)
      ensures lookup == Scan(headers, bodies, genesis, hash)
      ensures old(Known(index, headers)) ==> Known(index, headers)
      ensures old(Fresh(index, headers, current, hash) && headHeader == current && headFast == current) ==>
                headHeader == headFast == hash
    {
      hide Tree, Ancestor, Part, Path, Elems, Scan, Unrepeated, Weighed, Covering, IndexedTo, Known;
      ParentOf(headers, genesis, hash);
      if headers[hash].parent != current {
        ok := Reorg(hash);
        if !ok {
          return;
        }
        Scanned(headers, bodies, genesis, hash);
      } else {
        OnTop(index, headers, bodies, genesis, hash);
      }
      WriteLookup(hash);
      NewHead(index, headers, genesis, hash);
      KnownNext(index, headers, hash);
      Insert(hash);
      ok := true;
    }

    /** Writes block and total difficulty down, whatever becomes of them. */
    method Store(hash: Hash, header: Header, txs: seq<TxId>, externTd: nat, ghost coin: bool)
      requires Valid() && Fits(headers, genesis, hash, header) && (hash in headers ==> bodies[hash] == txs)
      requires header.parent in headers
      requires Elems(txs) !! Scan(headers, bodies, genesis, header.parent).Keys && header.parent in td
      requires externTd == header.difficulty + td[header.parent]
      modifies this`td, this`headers, this`bodies
      ensures td == old(td)[hash := externTd] && headers == old(headers)[hash := header]
      ensures bodies == old(bodies)[hash := txs]
      ensures Sound() && hash != genesis && current in td && td[current] == old(td)[current]
      ensures headers[current] == old(headers)[current]
      ensures Covering(index, headers, genesis, current) && lookup == Scan(headers, bodies, genesis, current)
      ensures Heaviest(td, headers,
                  if Better(externTd, header.number, td[current], headers[current].number, coin) then hash else current)
      ensures Better(externTd, header.number, td[current], headers[current].number, coin) ==>
                Fresh(index, headers, current, hash)
      ensures Known(index, headers)
    {
      hide Tree, Ancestor, Part, Path, Elems, Scan, Unrepeated, Weighed, Covering, Fits, Heaviest, Known;
      TreeKeys(td, headers, genesis);
      GrownWeights(td, headers, genesis, hash, header);
      GrownBlocks(headers, bodies, genesis, hash, header, txs, index, current);
      Again(headers, genesis, hash, header);
      StillHeaviest(td, headers, current, hash, header, externTd, coin);
      StillKnown(index, headers, hash, header);
      if Better(externTd, header.number, td[current], headers[current].number, coin) {
        BetterIsFresh(td, headers, genesis, index, current, hash, header, externTd, coin);
      }
      td, headers, bodies := td[hash := externTd], headers[hash := header], bodies[hash := txs];
    }

    /** `WriteBlockWithState`, fork choice part. */
    method WriteBlockWithState(hash: Hash, header: Header, txs: seq<TxId>, coin: bool) returns (status: WriteStatus)
      requires Valid() && Fits(headers, genesis, hash, header) && (hash in headers ==> bodies[hash] == txs)
      requires header.parent in headers ==> Elems(txs) !! Scan(headers, bodies, genesis, header.parent).Keys
      modifies this
      ensures Valid()
      ensures status == UnknownAncestor <==> header.parent !in old(headers)
      ensures status == UnknownAncestor ==>
                headers == old(headers) && bodies == old(bodies) && td == old(td) && current == old(current)
      ensures status != UnknownAncestor ==>
                headers == old(headers)[hash := header] && bodies == old(bodies)[hash := txs]
      ensures status != UnknownAncestor ==> td == old(td)[hash := old(td)[header.parent] + header.difficulty]
      ensures status == Canonical <==>
                header.parent in old(headers)
                && Better(td[hash], header.number, td[old(current)], headers[old(current)].number, coin)
      ensures status == Canonical ==> current == hash
      ensures status == Side ==> current == old(current) && index == old(index) && lookup == old(lookup)
    {
      hide Tree, Ancestor, Part, Path, Elems, Scan, Unrepeated, Weighed, Covering, Fits, Heaviest, Known, Fresh;
      TreeKeys(td, headers, genesis);
      if header.parent !in td {
        return UnknownAncestor;
      }
      var localTd, externTd := td[current], header.difficulty + td[header.parent];
      Store(hash, header, txs, externTd, coin);
      var reorg := externTd > localTd;
      if !reorg && externTd == localTd {
        reorg := header.number < headers[current].number || (header.number == headers[current].number && coin);
      }
      if reorg {
        var ok := MakeHead(hash);
        if !ok {
          return Side;
        }
        status := Canonical;
      } else {
        status := Side;
      }
    }
  }

  /** Above a height two chains have no block in common. */
  ghost predicate Apart(hs: Headers, genesis: Hash, x: Hash, y: Hash, k: nat)
    requires Tree(hs, genesis) && x in hs && y in hs
  {
    forall m: nat :: k < m <= hs[x].number && m <= hs[y].number ==>
      Ancestor(hs, genesis, x, m) != Ancestor(hs, genesis, y, m)
  }

  lemma ApartTop(hs: Headers, genesis: Hash, x: Hash, y: Hash, k: nat)
    requires Tree(hs, genesis) && x in hs && y in hs && (k >= hs[x].number || k >= hs[y].number)
    ensures Apart(hs, genesis, x, y, k)
  {}

  lemma ApartNext(hs: Headers, genesis: Hash, x: Hash, y: Hash, k: nat)
    requires Tree(hs, genesis) && x in hs && y in hs && 0 < k <= hs[x].number && k <= hs[y].number
    requires Apart(hs, genesis, x, y, k)
    requires Ancestor(hs, genesis, x, k) != Ancestor(hs, genesis, y, k)
    ensures Apart(hs, genesis, x, y, k - 1)
  {
    hide Tree, Ancestor;
  }

  ghost predicate Meets(hs: Headers, genesis: Hash, x: Hash, y: Hash, common: Hash)
    requires Tree(hs, genesis) && x in hs && y in hs && common in hs
  {
    var k := hs[common].number;
    k <= hs[x].number && k <= hs[y].number && common == Ancestor(hs, genesis, x, k)
    && common == Ancestor(hs, genesis, y, k)
  }

  lemma WalkStart(hs: Headers, bodies: Bodies, genesis: Hash, x: Hash, y: Hash)
    requires Tree(hs, genesis) && hs.Keys <= bodies.Keys && x in hs && y in hs
    ensures Ancestor(hs, genesis, x, hs[x].number) == x && Ancestor(hs, genesis, y, hs[y].number) == y
    ensures Path(hs, genesis, y, []) && Elems<TxId>([]) == Part(hs, bodies, genesis, x, hs[x].number).Keys
  {}

  lemma WalkOld(hs: Headers, bodies: Bodies, genesis: Hash, top: Hash, o: Hash, deleted: seq<TxId>)
    requires Tree(hs, genesis) && hs.Keys <= bodies.Keys && top in hs && o in hs && 0 < hs[o].number <= hs[top].number
    requires o == Ancestor(hs, genesis, top, hs[o].number)
    requires Elems(deleted) == Part(hs, bodies, genesis, top, hs[o].number).Keys
    ensures var p := hs[o].parent;
            && p in hs && hs[p].number == hs[o].number - 1 && p == Ancestor(hs, genesis, top, hs[p].number)
            && Elems(deleted + bodies[o]) == Part(hs, bodies, genesis, top, hs[p].number).Keys
  {
    hide Ancestor, Part, Tree;
    Below(hs, genesis, top, hs[o].number);
    PartKeys(hs, bodies, genesis, top, hs[o].number);
    ElemsJoin(deleted, bodies[o]);
  }

  lemma WalkNew(hs: Headers, genesis: Hash, top: Hash, n: Hash, path: seq<Hash>)
    requires Tree(hs, genesis) && top in hs && n in hs && 0 < hs[n].number <= hs[top].number
    requires n == Ancestor(hs, genesis, top, hs[n].number)
    requires Path(hs, genesis, top, path) && |path| == hs[top].number - hs[n].number
    ensures var p := hs[n].parent;
            && p in hs && hs[p].number == hs[n].number - 1 && p == Ancestor(hs, genesis, top, hs[p].number)
            && Path(hs, genesis, top, path + [n])
  {
    hide Ancestor, Tree, Path;
    Below(hs, genesis, top, hs[n].number);
    PathNext(hs, genesis, top, path);
  }

  /** Two different blocks of one height are not at the root. */
  lemma NotRoots(hs: Headers, genesis: Hash, x: Hash, y: Hash, o: Hash, n: Hash)
    requires Tree(hs, genesis) && x in hs && y in hs && o in hs && n in hs && hs[o].number == hs[n].number && o != n
    requires hs[o].number <= hs[x].number && o == Ancestor(hs, genesis, x, hs[o].number)
    requires hs[n].number <= hs[y].number && n == Ancestor(hs, genesis, y, hs[n].number)
    ensures hs[o].number > 0
  {
    hide Ancestor;
    if hs[o].number == 0 {
      OneRoot(hs, genesis, x);
      OneRoot(hs, genesis, y);
    }
  }

  // ---------- adopting a chain ----------

  ghost predicate IndexedTo(index: Index, hs: Headers, genesis: Hash, tip: Hash, k: nat)
    requires Tree(hs, genesis) && tip in hs
  {
    k <= hs[tip].number && forall n: nat :: n <= k ==> n in index && index[n] == Ancestor(hs, genesis, tip, n)
  }

  lemma IndexedAll(index: Index, hs: Headers, genesis: Hash, tip: Hash)
    requires Tree(hs, genesis) && tip in hs && IndexedTo(index, hs, genesis, tip, hs[tip].number)
    ensures Covering(index, hs, genesis, tip)
  {
    hide Tree, Ancestor;
  }

  lemma AdoptStart(hs: Headers, bodies: Bodies, genesis: Hash, tip: Hash, c: nat, lookup: Lookup)
    requires Tree(hs, genesis) && hs.Keys <= bodies.Keys && tip in hs && c <= hs[tip].number
    ensures Part(hs, bodies, genesis, Down(hs, genesis, tip, hs[tip].number - c), c) == map[] && Elems<TxId>([]) == {}
    ensures lookup + map[] == lookup
  {
    JoinNone(lookup);
  }

  lemma AdoptStep(hs: Headers, bodies: Bodies, genesis: Hash, tip: Hash, path: seq<Hash>, c: nat, i: nat, index: Index,
                  base: Lookup, lookup: Lookup, added: seq<TxId>)
    requires Tree(hs, genesis) && hs.Keys <= bodies.Keys && tip in hs && Path(hs, genesis, tip, path)
    requires |path| == hs[tip].number - c && i < |path|
    requires IndexedTo(index, hs, genesis, tip, hs[tip].number - i - 1)
    requires var below := Part(hs, bodies, genesis, Down(hs, genesis, tip, i + 1), c);
             lookup == base + below && Elems(added) == below.Keys
    ensures var h := path[i];
            && h in hs && h == Down(hs, genesis, tip, i) && hs[h].number == hs[tip].number - i
            && IndexedTo(index[hs[h].number := h], hs, genesis, tip, hs[tip].number - i)
            && lookup + InBlock(hs, bodies, h) == base + Part(hs, bodies, genesis, h, c)
            && Elems(added + bodies[h]) == Part(hs, bodies, genesis, h, c).Keys
  {
    hide Tree, Ancestor, InBlock, Elems, IndexedTo;
    var h, k := path[i], hs[tip].number - i;
    Below(hs, genesis, tip, k);
    var below := Part(hs, bodies, genesis, Down(hs, genesis, tip, i + 1), c);
    JoinAssoc(base, below, InBlock(hs, bodies, h));
    InBlockKeys(hs, bodies, h);
    ElemsJoin(added, bodies[h]);
    KeysJoin(below, InBlock(hs, bodies, h));
    IndexedNext(index, hs, genesis, tip, k);
  }

  lemma IndexedNext(index: Index, hs: Headers, genesis: Hash, tip: Hash, k: nat)
    requires Tree(hs, genesis) && tip in hs && 0 < k <= hs[tip].number && IndexedTo(index, hs, genesis, tip, k - 1)
    ensures IndexedTo(index[k := Ancestor(hs, genesis, tip, k)], hs, genesis, tip, k)
  {
    hide Tree, Ancestor;
  }

  /** Up to where the chains meet, the index is right for both. */
  lemma MetIndex(index: Index, hs: Headers, genesis: Hash, head: Hash, tip: Hash, common: Hash)
    requires Tree(hs, genesis) && head in hs && tip in hs && common in hs && Meets(hs, genesis, head, tip, common)
    requires Covering(index, hs, genesis, head)
    ensures IndexedTo(index, hs, genesis, tip, hs[common].number)
  {
    hide Tree, Ancestor;
    var c := hs[common].number;
    forall n: nat | n <= c ensures n in index && index[n] == Ancestor(hs, genesis, tip, n) {
      MeetBelow(hs, genesis, head, tip, c, n);
    }
  }

  /** Replacing what the old chain added by what the new chain adds. */
  lemma MetLookup(hs: Headers, bodies: Bodies, genesis: Hash, head: Hash, tip: Hash, common: Hash)
    requires Tree(hs, genesis) && hs.Keys <= bodies.Keys && head in hs && tip in hs && common in hs
    requires Meets(hs, genesis, head, tip, common)
    requires Unrepeated(hs, bodies, genesis)
    ensures var c := hs[common].number;
            var x, y := Part(hs, bodies, genesis, head, c), Part(hs, bodies, genesis, tip, c);
            Scan(hs, bodies, genesis, head) + y - (x.Keys - y.Keys) == Scan(hs, bodies, genesis, tip)
  {
    hide Tree, Ancestor, Part, Unrepeated;
    var c := hs[common].number;
    PartSplit(hs, bodies, genesis, head, c, 0);
    PartSplit(hs, bodies, genesis, tip, c, 0);
    PartApart(hs, bodies, genesis, head, c);
    SwapParts(Scan(hs, bodies, genesis, common), Part(hs, bodies, genesis, head, c), Part(hs, bodies, genesis, tip, c));
  }

  lemma SwapParts(s: Lookup, x: Lookup, y: Lookup)
    requires x.Keys !! s.Keys
    ensures s + x + y - (x.Keys - y.Keys) == s + y
  {}

  // ---------- transactions lost ----------

  function Without(a: seq<TxId>, b: set<TxId>): (r: seq<TxId>)
  {
    if |a| == 0 then [] else Without(a[..|a| - 1], b) + if a[|a| - 1] in b then [] else [a[|a| - 1]]
  }

  lemma {:induction false} WithoutIds(a: seq<TxId>, b: set<TxId>)
    ensures Elems(Without(a, b)) == Elems(a) - b
  {
    if |a| != 0 {
      WithoutIds(a[..|a| - 1], b);
      assert a == a[..|a| - 1] + [a[|a| - 1]];
      ElemsJoin(a[..|a| - 1], [a[|a| - 1]]);
      ElemsJoin(Without(a[..|a| - 1], b), if a[|a| - 1] in b then [] else [a[|a| - 1]]);
    }
  }

  /** `TxDifference`: the transactions of a list that are not in another, in their order. */
  method TxDifference(a: seq<TxId>, b: seq<TxId>) returns (keep: seq<TxId>)
    ensures keep == Without(a, Elems(b)) && Elems(keep) == Elems(a) - Elems(b)
  {
    keep := [];
    for i := 0 to |a|
      invariant keep == Without(a[..i], Elems(b))
    {
      assert a[..i + 1][..i] == a[..i];
      if a[i] !in b {
        keep := keep + [a[i]];
      }
    }
    assert a[..|a|] == a;
    WithoutIds(a, Elems(b));
  }

  // ---------- a new block ----------

  /** Heavier wins; at equal weight the lower number wins, and at equal number a coin decides. */
  predicate Better(td: nat, number: nat, td0: nat, number0: nat, coin: bool)
  {
    td > td0 || (td == td0 && (number < number0 || (number == number0 && coin)))
  }

  lemma Again(hs: Headers, genesis: Hash, hash: Hash, header: Header)
    requires Fits(hs, genesis, hash, header)
    ensures hash in hs ==> hs[hash] == header
  {}

  lemma GrownBlocks(hs: Headers, bodies: Bodies, genesis: Hash, hash: Hash, header: Header, txs: seq<TxId>,
                    index: Index, head: Hash)
    requires Tree(hs, genesis) && bodies.Keys == hs.Keys && head in hs && Fits(hs, genesis, hash, header)
    requires header.parent in hs
    requires Tree(hs[hash := header], genesis) && hash != genesis && hash != header.parent
    requires (hash in hs ==> bodies[hash] == txs)
    requires Unrepeated(hs, bodies, genesis) && Elems(txs) !! Scan(hs, bodies, genesis, header.parent).Keys
    requires Covering(index, hs, genesis, head)
    ensures var hs', bodies' := hs[hash := header], bodies[hash := txs];
            && Unrepeated(hs', bodies', genesis) && Covering(index, hs', genesis, head)
            && Scan(hs', bodies', genesis, head) == Scan(hs, bodies, genesis, head)
  {
    hide Ancestor, Part;
    var hs', bodies' := hs[hash := header], bodies[hash := txs];
    forall h | h in hs ensures Scan(hs', bodies', genesis, h) == Scan(hs, bodies, genesis, h) {
      PartStays(hs, bodies, genesis, hash, header, txs, h, 0);
    }
    forall n: nat | n <= hs[head].number ensures Ancestor(hs', genesis, head, n) == Ancestor(hs, genesis, head, n) {
      AncestorStays(hs, genesis, hash, header, head, n);
    }
  }

  /** A scan already holds the entries of its last block. */
  lemma Scanned(hs: Headers, bodies: Bodies, genesis: Hash, hash: Hash)
    requires Tree(hs, genesis) && hs.Keys <= bodies.Keys && hash in hs && hash != genesis
    ensures Scan(hs, bodies, genesis, hash) + InBlock(hs, bodies, hash) == Scan(hs, bodies, genesis, hash)
  {
    hide InBlock;
    JoinTwice(Part(hs, bodies, genesis, hs[hash].parent, 0), InBlock(hs, bodies, hash));
  }

  lemma JoinTwice(x: Lookup, y: Lookup)
    ensures x + y + y == x + y
  {}

  /** A block on top of the head extends the scan by its own entries. */
  lemma OnTop(index: Index, hs: Headers, bodies: Bodies, genesis: Hash, hash: Hash)
    requires Tree(hs, genesis) && hs.Keys <= bodies.Keys && hash in hs && hash != genesis && hs[hash].parent in hs
    requires Covering(index, hs, genesis, hs[hash].parent)
    ensures Scan(hs, bodies, genesis, hs[hash].parent) + InBlock(hs, bodies, hash) == Scan(hs, bodies, genesis, hash)
    ensures IndexedTo(index, hs, genesis, hash, hs[hash].number - 1)
  {
    hide InBlock;
  }

  lemma NewHead(index: Index, hs: Headers, genesis: Hash, hash: Hash)
    requires Tree(hs, genesis) && hash in hs && hash != genesis
    requires Covering(index, hs, genesis, hash) || (hs[hash].number > 0
                                                    && IndexedTo(index, hs, genesis, hash, hs[hash].number - 1))
    ensures Covering(index[hs[hash].number := hash], hs, genesis, hash)
  {
    hide Tree, Ancestor;
    SelfAncestor(hs, genesis, hash);
  }

  lemma KnownNext(index: Index, hs: Headers, h: Hash)
    requires h in hs
    ensures Known(index, hs) ==> Known(index[hs[h].number := h], hs)
  {}

  lemma StillKnown(index: Index, hs: Headers, hash: Hash, header: Header)
    requires Known(index, hs) && (hash in hs ==> hs[hash] == header)
    ensures Known(index, hs[hash := header])
  {}

  /** If the common block is the new one itself, the index holds it, so it is the head. */
  lemma NothingNew(index: Index, hs: Headers, genesis: Hash, head: Hash, tip: Hash, common: Hash)
    requires Tree(hs, genesis) && head in hs && tip in hs && common in hs && Covering(index, hs, genesis, head)
    requires Meets(hs, genesis, head, tip, common) && Apart(hs, genesis, head, tip, hs[common].number)
    requires Fresh(index, hs, head, tip)
    ensures hs[common].number == hs[tip].number <==> tip == head
    ensures tip != head ==> !(hs[tip].number in index && index[hs[tip].number] == tip)
  {
    hide Tree, Ancestor;
    SelfAncestor(hs, genesis, tip);
  }
}
