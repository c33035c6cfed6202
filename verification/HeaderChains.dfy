/** `HeaderChain` of core/headerchain.go: headers, their total difficulties, and the index from
    numbers to canonical hashes that `WriteHeader` re-routes. */
module HeaderChains {
  import opened ChainTree

  datatype WriteStatus = Canonical | Side | UnknownAncestor

  type Index = map<nat, Hash>

  /** The index holds exactly the ancestors of a head, and nothing above it. */
  ghost predicate Routed(index: Index, hs: Headers, genesis: Hash, head: Hash)
    requires Tree(hs, genesis) && head in hs
  {
    && (forall n: nat :: n in index <==> n <= hs[head].number)
    && (forall n: nat :: n <= hs[head].number ==> index[n] == Ancestor(hs, genesis, head, n))
  }

  /** Only one index fits a head. */
  lemma RoutedUnique(i: Index, j: Index, hs: Headers, genesis: Hash, head: Hash)
    requires Tree(hs, genesis) && head in hs && Routed(i, hs, genesis, head) && Routed(j, hs, genesis, head)
    ensures i == j
  {
    forall n: nat | n in i ensures i[n] == j[n] {
      assert i[n] == Ancestor(hs, genesis, head, n);
    }
  }

  ghost predicate Weighed(td: map<Hash, nat>, hs: Headers, genesis: Hash)
    requires Tree(hs, genesis)
  {
    td.Keys == hs.Keys && forall h :: h in hs ==> td[h] == Total(hs, genesis, h)
  }

  /** On the way down from a new tip: above k its ancestors are in place, up to k the index is
      still that of the old head. */
  ghost predicate Rerouting(index: Index, hs: Headers, genesis: Hash, head: Hash, tip: Hash, k: nat)
    requires Tree(hs, genesis) && head in hs && tip in hs
  {
    && k <= hs[tip].number
    && (forall n: nat :: k < n <= hs[tip].number ==> n in index && index[n] == Ancestor(hs, genesis, tip, n))
    && (forall n: nat :: n <= k ==> (n in index <==> n <= hs[head].number))
    && (forall n: nat :: n <= k && n <= hs[head].number ==> index[n] == Ancestor(hs, genesis, head, n))
  }

  /** Where old and new chain meet, everything below is right already. */
  lemma Rerouted(index: Index, hs: Headers, genesis: Hash, head: Hash, tip: Hash, k: nat)
    requires Tree(hs, genesis) && head in hs && tip in hs && Rerouting(index, hs, genesis, head, tip, k)
    requires k in index && index[k] == Ancestor(hs, genesis, tip, k)
    ensures forall n: nat :: n <= hs[tip].number ==> n in index && index[n] == Ancestor(hs, genesis, tip, n)
  {
    hide Tree, Ancestor;
    forall n: nat | n <= hs[tip].number ensures n in index && index[n] == Ancestor(hs, genesis, tip, n) {
      if n <= k {
        MeetBelow(hs, genesis, head, tip, k, n);
      }
    }
  }

  /** One entry further down. */
  lemma RerouteStep(index: Index, hs: Headers, genesis: Hash, head: Hash, tip: Hash, k: nat)
    requires Tree(hs, genesis) && head in hs && tip in hs && Rerouting(index, hs, genesis, head, tip, k)
    requires !(k in index && index[k] == Ancestor(hs, genesis, tip, k))
    ensures var hash := Ancestor(hs, genesis, tip, k);
            && k > 0 && hs[hash].number == k && hs[hash].parent in hs && hs[hs[hash].parent].number == k - 1
            && hs[hash].parent == Ancestor(hs, genesis, tip, k - 1)
            && Rerouting(index[k := hash], hs, genesis, head, tip, k - 1)
  {
    hide Tree, Ancestor;
    var hash := Ancestor(hs, genesis, tip, k);
    NotGenesis(index, hs, genesis, head, tip, k);
    AncestorTwice(hs, genesis, tip, k, k - 1);
    ParentOf(hs, genesis, hash);
    RerouteEntry(index, hs, genesis, head, tip, k);
  }

  lemma ParentOf(hs: Headers, genesis: Hash, h: Hash)
    requires Tree(hs, genesis) && h in hs && h != genesis
    ensures hs[h].number > 0 && hs[h].parent in hs && hs[hs[h].parent].number == hs[h].number - 1
    ensures Ancestor(hs, genesis, h, hs[h].number - 1) == hs[h].parent
  {}

  lemma RerouteEntry(index: Index, hs: Headers, genesis: Hash, head: Hash, tip: Hash, k: nat)
    requires Tree(hs, genesis) && head in hs && tip in hs && Rerouting(index, hs, genesis, head, tip, k) && k > 0
    ensures Rerouting(index[k := Ancestor(hs, genesis, tip, k)], hs, genesis, head, tip, k - 1)
  {
    hide Tree, Ancestor;
  }

  /** The walk stops at the genesis at the latest. */
  lemma NotGenesis(index: Index, hs: Headers, genesis: Hash, head: Hash, tip: Hash, k: nat)
    requires Tree(hs, genesis) && head in hs && tip in hs && Rerouting(index, hs, genesis, head, tip, k)
    requires !(k in index && index[k] == Ancestor(hs, genesis, tip, k))
    ensures k > 0 && Ancestor(hs, genesis, tip, k) != genesis
  {
    hide Ancestor;
    OneRoot(hs, genesis, head);
    OneRoot(hs, genesis, tip);
  }

  class HeaderChain {
    const genesis: Hash
    var headers: Headers
    var td: map<Hash, nat>
    var index: Index
    var current: Hash

    constructor (genesis: Hash, header: Header)
      requires header.number == 0
      ensures Valid() && this.genesis == genesis && headers == map[genesis := header] && current == genesis
    {
      this.genesis, current := genesis, genesis;
      headers, td, index := map[genesis := header], map[genesis := header.difficulty], map[0 := genesis];
      new;
      assert index[0] == genesis;
    }

    /** The index is the current header's ancestry, total difficulties are sums along the
        ancestry, and no header is heavier than the current one. */
    ghost predicate Valid()
      reads this
    {
      && Tree(headers, genesis) && current in headers
      && Weighed(td, headers, genesis)
      && Routed(index, headers, genesis, current)
      && forall h :: h in headers ==> td[h] <= td[current]
    }

    /** Deletes the index entries above a number, up to the first gap. */
    method ClearAbove(number: nat, ghost top: nat)
      requires forall n: nat :: n in index <==> n <= top
      modifies this`index
      ensures forall n: nat :: n in index <==> n <= top && n <= number
      ensures forall n: nat :: n in index ==> index[n] == old(index)[n]
    {
      var i := number + 1;
      while i in index
        invariant i > number && (i > number + 1 ==> i <= top + 1)
        invariant forall n: nat :: n in index <==> n <= top && (n <= number || n >= i)
        invariant forall n: nat :: n in index ==> n in old(index) && index[n] == old(index)[n]
        decreases top + 1 - i
      {
        index := index - {i};
        i := i + 1;
      }
    }

    /** Overwrites stale index entries from a header downwards until one is right. */
    method Reroute(tip: Hash, ghost head: Hash)
      requires Tree(headers, genesis) && tip in headers && head in headers
      requires Rerouting(index, headers, genesis, head, tip, headers[tip].number)
      modifies this`index
      ensures forall n: nat :: n <= headers[tip].number ==> n in index && index[n] == Ancestor(headers, genesis, tip, n)
      ensures forall n: nat :: n > headers[tip].number ==> (n in index <==> n in old(index))
    {
      hide Tree, Ancestor, Rerouting;
      var hash, number: nat := tip, headers[tip].number;
      SelfAncestor(headers, genesis, tip);
      while !(number in index && index[number] == hash)
        invariant number <= headers[tip].number && hash == Ancestor(headers, genesis, tip, number)
        invariant Rerouting(index, headers, genesis, head, tip, number)
        invariant forall n: nat :: n > headers[tip].number ==> (n in index <==> n in old(index))
        decreases number
      {
        RerouteStep(index, headers, genesis, head, tip, number);
        index := index[number := hash];
        hash, number := headers[hash].parent, headers[hash].number - 1;
      }
      Rerouted(index, headers, genesis, head, tip, number);
    }

    /** `WriteHeader`. The coin is thrown when the new header is exactly as heavy as the current one. */
    method WriteHeader(hash: Hash, header: Header, coin: bool) returns (status: WriteStatus)
      requires Valid() && Fits(headers, genesis, hash, header)
      modifies this
      ensures Valid()
      ensures status == UnknownAncestor <==> header.parent !in old(headers)
      ensures status == UnknownAncestor ==>
                headers == old(headers) && td == old(td) && index == old(index) && current == old(current)
      ensures status != UnknownAncestor ==>
                headers == old(headers)[hash := header]
                && td == old(td)[hash := old(td)[header.parent] + header.difficulty]
      ensures status == Canonical <==>
                header.parent in old(headers)
                && (td[hash] > old(td)[old(current)] || (td[hash] == old(td)[old(current)] && coin))
      ensures status == Canonical ==> current == hash
      ensures status == Side ==> current == old(current) && index == old(index)
    {
      hide Tree, Weighed, Routed, Ancestor, Total, Rerouting, Fits;
      TreeKeys(td, headers, genesis);
      if header.parent !in td {
        return UnknownAncestor;
      }
      var localTd, externTd := td[current], header.difficulty + td[header.parent];
      Grown(td, index, headers, genesis, hash, header, current);
      td, headers := td[hash := externTd], headers[hash := header];
      if externTd > localTd || (externTd == localTd && coin) {
        RoutedKeys(index, headers, genesis, current);
        ClearAbove(header.number, headers[current].number);
        Cleared(old(index), index, headers, genesis, current, header.parent);
        Reroute(header.parent, current);
        Extended(index, headers, genesis, hash);
        index := index[header.number := hash];
        current := hash;
        status := Canonical;
      } else {
        status := Side;
      }
    }

    /** `InsertHeaderChain`: writes the headers that are not known yet, and stops at the first
        whose parent is not. */
    method InsertHeaderChain(chain: seq<(Hash, Header)>, coins: seq<bool>) returns (failed: bool, at: nat)
      requires Valid() && |coins| == |chain| && forall i :: 0 <= i < |chain| ==> FitsAfter(headers, genesis, chain, i)
      modifies this
      ensures Valid()
      ensures !failed ==> forall i :: 0 <= i < |chain| ==> chain[i].0 in headers
      ensures failed ==> at < |chain| && chain[at].0 !in headers && chain[at].1.parent !in headers
      ensures forall h :: h in old(headers) ==> h in headers && headers[h] == old(headers)[h]
      ensures forall h :: h in headers && h !in old(headers) ==>
                exists i :: 0 <= i < |chain| && chain[i] == (h, headers[h])
    {
      hide Valid, FitsAfter;
      for i := 0 to |chain|
        invariant Valid()
        invariant forall h :: h in old(headers) ==> h in headers && headers[h] == old(headers)[h]
        invariant forall k :: 0 <= k < i ==> chain[k].0 in headers
        invariant forall h :: h in headers && h !in old(headers) ==>
                    exists k :: 0 <= k < i && chain[k] == (h, headers[h])
      {
        var (hash, header) := chain[i];
        if hash !in headers {
          FitsNow(old(headers), headers, genesis, chain, i);
          var status := WriteHeader(hash, header, coins[i]);
          if status == UnknownAncestor {
            return true, i;
          }
          assert chain[i] == (hash, headers[hash]);
        }
      }
      failed, at := false, 0;
    }
  }

  lemma SelfAncestor(hs: Headers, genesis: Hash, h: Hash)
    requires Tree(hs, genesis) && h in hs
    ensures Ancestor(hs, genesis, h, hs[h].number) == h
  {}

  lemma TreeKeys(td: map<Hash, nat>, hs: Headers, genesis: Hash)
    requires Tree(hs, genesis) && Weighed(td, hs, genesis)
    ensures td.Keys == hs.Keys
  {}

  lemma RoutedKeys(index: Index, hs: Headers, genesis: Hash, head: Hash)
    requires Tree(hs, genesis) && head in hs && Routed(index, hs, genesis, head)
    ensures forall n: nat :: n in index <==> n <= hs[head].number
  {}

  /** The weight of a new header is that of its parent plus its own; no other weight changes. */
  lemma GrownWeights(td: map<Hash, nat>, hs: Headers, genesis: Hash, hash: Hash, header: Header)
    requires Tree(hs, genesis) && Weighed(td, hs, genesis)
    requires Fits(hs, genesis, hash, header) && header.parent in hs
    ensures var hs' := hs[hash := header];
            && Tree(hs', genesis) && hash != genesis && hash != header.parent
            && header.number == hs[header.parent].number + 1
            && Weighed(td[hash := header.difficulty + td[header.parent]], hs', genesis)
            && (hash in hs ==> td[hash] == header.difficulty + td[header.parent])
  {
    var hs' := hs[hash := header];
    TreeGrows(hs, genesis, hash, header);
    forall h | h in hs ensures Total(hs', genesis, h) == Total(hs, genesis, h) {
      TotalStays(hs, genesis, hash, header, h);
    }
  }

  /** Writing a header down changes no ancestry. */
  lemma Grown(td: map<Hash, nat>, index: Index, hs: Headers, genesis: Hash, hash: Hash, header: Header, head: Hash)
    requires Tree(hs, genesis) && Weighed(td, hs, genesis) && head in hs && Routed(index, hs, genesis, head)
    requires Fits(hs, genesis, hash, header) && header.parent in hs
    ensures var hs' := hs[hash := header];
            && Tree(hs', genesis) && hash != genesis && hash != header.parent
            && header.number == hs[header.parent].number + 1
            && Weighed(td[hash := header.difficulty + td[header.parent]], hs', genesis)
            && (hash in hs ==> td[hash] == header.difficulty + td[header.parent])
            && Routed(index, hs', genesis, head)
  {
    hide Ancestor, Tree, Weighed, Total;
    GrownWeights(td, hs, genesis, hash, header);
    forall n: nat | n <= hs[head].number
      ensures Ancestor(hs[hash := header], genesis, head, n) == Ancestor(hs, genesis, head, n) {
      AncestorStays(hs, genesis, hash, header, head, n);
    }
  }

  lemma Cleared(before: Index, index: Index, hs: Headers, genesis: Hash, head: Hash, tip: Hash)
    requires Tree(hs, genesis) && head in hs && tip in hs && Routed(before, hs, genesis, head)
    requires forall n: nat :: n in index <==> n <= hs[head].number && n <= hs[tip].number + 1
    requires forall n: nat :: n in index ==> index[n] == before[n]
    ensures Rerouting(index, hs, genesis, head, tip, hs[tip].number)
  {
    hide Tree, Ancestor;
  }

  lemma Extended(index: Index, hs: Headers, genesis: Hash, hash: Hash)
    requires Tree(hs, genesis) && hash in hs && hash != genesis
    requires ParentRouted(index, hs, genesis, hash)
    requires forall n: nat :: n > hs[hash].number ==> n !in index
    ensures Routed(index[hs[hash].number := hash], hs, genesis, hash)
  {
    ParentOf(hs, genesis, hash);
    SelfAncestor(hs, genesis, hash);
    var num := hs[hash].number;
    forall n: nat | n < num ensures Ancestor(hs, genesis, hash, n) == Ancestor(hs, genesis, hs[hash].parent, n) {
    }
  }

  /** The index is right up to the parent. */
  ghost predicate ParentRouted(index: Index, hs: Headers, genesis: Hash, hash: Hash)
    requires Tree(hs, genesis) && hash in hs && hash != genesis
  {
    forall n: nat :: n < hs[hash].number ==> n in index && index[n] == Ancestor(hs, genesis, hs[hash].parent, n)
  }

  /** Header i of a chain is known already or fits above what is known or comes before it. */
  ghost predicate FitsAfter(hs: Headers, genesis: Hash, chain: seq<(Hash, Header)>, i: nat)
    requires i < |chain|
  {
    var (hash, header) := chain[i];
    && Fits(hs, genesis, hash, header)
    && forall k :: 0 <= k < |chain| && k != i ==>
         && (chain[k].0 == hash ==> chain[k].1 == header)
         && (chain[k].0 == header.parent ==> header.number == chain[k].1.number + 1)
  }

  lemma FitsNow(hs: Headers, hs': Headers, genesis: Hash, chain: seq<(Hash, Header)>, i: nat)
    requires i < |chain| && FitsAfter(hs, genesis, chain, i) && chain[i].0 !in hs'
    requires forall h :: h in hs ==> h in hs' && hs'[h] == hs[h]
    requires forall h :: h in hs' && h !in hs ==> exists k :: 0 <= k < i && chain[k] == (h, hs'[h])
    ensures Fits(hs', genesis, chain[i].0, chain[i].1)
  {
    var p := chain[i].1.parent;
    if p in hs' && p !in hs {
      var k :| 0 <= k < i && chain[k] == (p, hs'[p]);
    }
  }
}
