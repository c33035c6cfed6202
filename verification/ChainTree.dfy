/** Headers as a tree of parent links. A hash stands for one header only. */
module ChainTree {

  type Hash = nat

  datatype Header = Header(parent: Hash, number: nat, difficulty: nat)

  type Headers = map<Hash, Header>

  /** Every header but the genesis has its parent one number below. */
  ghost predicate Tree(hs: Headers, genesis: Hash)
  {
    && genesis in hs && hs[genesis].number == 0
    && forall h :: h in hs && h != genesis ==> hs[h].parent in hs && hs[h].number == hs[hs[h].parent].number + 1
  }

  /** The header at height n on the way from h to the genesis. */
  ghost function Ancestor(hs: Headers, genesis: Hash, h: Hash, n: nat): (r: Hash)
    requires Tree(hs, genesis) && h in hs && n <= hs[h].number
    ensures r in hs && hs[r].number == n
    decreases hs[h].number
  {
    if hs[h].number == n then h else Ancestor(hs, genesis, hs[h].parent, n)
  }

  /** Going down in two steps is going down in one. */
  lemma {:induction false} AncestorTwice(hs: Headers, genesis: Hash, h: Hash, n: nat, m: nat)
    requires Tree(hs, genesis) && h in hs && m <= n <= hs[h].number
    ensures Ancestor(hs, genesis, Ancestor(hs, genesis, h, n), m) == Ancestor(hs, genesis, h, m)
    decreases hs[h].number
  {
    if hs[h].number != n {
      AncestorTwice(hs, genesis, hs[h].parent, n, m);
    }
  }

  /** Two chains that meet at a height agree below it. */
  lemma MeetBelow(hs: Headers, genesis: Hash, x: Hash, y: Hash, n: nat, m: nat)
    requires Tree(hs, genesis) && x in hs && y in hs && m <= n <= hs[x].number && n <= hs[y].number
    requires Ancestor(hs, genesis, x, n) == Ancestor(hs, genesis, y, n)
    ensures Ancestor(hs, genesis, x, m) == Ancestor(hs, genesis, y, m)
  {
    AncestorTwice(hs, genesis, x, n, m);
    AncestorTwice(hs, genesis, y, n, m);
  }

  lemma {:induction false} OneRoot(hs: Headers, genesis: Hash, h: Hash)
    requires Tree(hs, genesis) && h in hs
    ensures Ancestor(hs, genesis, h, 0) == genesis
    decreases hs[h].number
  {
    if h != genesis {
      OneRoot(hs, genesis, hs[h].parent);
    }
  }

  /** A header may be added above a known parent, and may be added again. */
  ghost predicate Fits(hs: Headers, genesis: Hash, hash: Hash, header: Header)
  {
    && (hash in hs ==> hs[hash] == header)
    && (header.parent in hs ==> header.number == hs[header.parent].number + 1)
  }

  lemma TreeGrows(hs: Headers, genesis: Hash, hash: Hash, header: Header)
    requires Tree(hs, genesis) && Fits(hs, genesis, hash, header) && header.parent in hs && hash != header.parent
    ensures Tree(hs[hash := header], genesis)
  {}

  lemma {:induction false} AncestorStays(hs: Headers, genesis: Hash, hash: Hash, header: Header, h: Hash, n: nat)
    requires Tree(hs, genesis) && (hash in hs ==> hs[hash] == header) && Tree(hs[hash := header], genesis) && h in hs
    requires n <= hs[h].number
    ensures Ancestor(hs[hash := header], genesis, h, n) == Ancestor(hs, genesis, h, n)
    decreases hs[h].number
  {
    if hs[h].number != n {
      AncestorStays(hs, genesis, hash, header, hs[h].parent, n);
    }
  }

  // ---------- total difficulty ----------

  /** Difficulty summed up along the ancestry. */
  ghost function Total(hs: Headers, genesis: Hash, h: Hash): (d: nat)
    requires Tree(hs, genesis) && h in hs
    decreases hs[h].number
  {
    hs[h].difficulty + if h == genesis then 0 else Total(hs, genesis, hs[h].parent)
  }

  lemma {:induction false} TotalStays(hs: Headers, genesis: Hash, hash: Hash, header: Header, h: Hash)
    requires Tree(hs, genesis) && (hash in hs ==> hs[hash] == header) && Tree(hs[hash := header], genesis) && h in hs
    ensures Total(hs[hash := header], genesis, h) == Total(hs, genesis, h)
    decreases hs[h].number
  {
    if h != genesis {
      TotalStays(hs, genesis, hash, header, hs[h].parent);
    }
  }
}
