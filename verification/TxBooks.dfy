/** The books of the transaction pool as values: executable and queued lists by account, the
    lookup of all transactions, and the virtual nonces. What it means that they agree, and what
    the pool's steps need and leave. */
module TxBooks {
  import opened Basics
  import opened TxMaps
  import opened TxSorted
  import opened TxLists
  import opened TxAccounts
  import opened TxPriced
  import FairShare

  type Lists = map<Addr, TxList>

  function Txs(ls: Lists, a: Addr): (m: TxMap)
  {
    if a in ls then ls[a].txs else map[]
  }

  function ListAt(ls: Lists, a: Addr, strict: bool): (l: TxList)
  {
    if a in ls then ls[a] else EmptyList(strict)
  }

  /** The transaction whose place another one would take. */
  function Occupant(ls: Lists, tx: Tx): (s: set<Tx>)
  {
    if tx.nonce in Txs(ls, tx.from) then {Txs(ls, tx.from)[tx.nonce]} else {}
  }

  ghost predicate Within(m: TxMap, all: set<Tx>)
  {
    forall n :: n in m ==> m[n] in all
  }

  ghost predicate WellFormed(ls: Lists, strict: bool)
  {
    forall a :: a in ls ==> ls[a].strict == strict && Capped(ls[a])
  }

  /** Keeps a list under its account, or drops the entry when nothing is left in it. */
  function Put(ls: Lists, a: Addr, l: TxList): (r: Lists)
    ensures Txs(r, a) == l.txs && SameBut(ls, r, a)
  {
    if |l.txs| == 0 then ls - {a} else ls[a := l]
  }

  lemma PutWellFormed(ls: Lists, a: Addr, l: TxList)
    requires WellFormed(ls, l.strict) && Capped(l)
    ensures WellFormed(Put(ls, a, l), l.strict)
  {}

  lemma PutFilled(ls: Lists, a: Addr, l: TxList)
    ensures a in Put(ls, a, l) ==> |Put(ls, a, l)[a].txs| > 0
  {}

  lemma WellFormedAt(ls: Lists, strict: bool, a: Addr)
    requires WellFormed(ls, strict) && a in ls
    ensures ls[a].strict == strict && Capped(ls[a]) && Txs(ls, a) == ls[a].txs
  {}

  lemma SameSet<T>(v: map<Addr, T>, a: Addr, x: T)
    ensures SameBut(v, v, a) && SameBut(v, v[a := x], a)
  {}

  /** Same entries everywhere but at one account. */
  ghost predicate SameBut<T>(ls: map<Addr, T>, ls': map<Addr, T>, a: Addr)
  {
    forall b :: b != a ==> (b in ls <==> b in ls') && (b in ls ==> ls[b] == ls'[b])
  }

  lemma SameButTxs(ls: Lists, ls': Lists, a: Addr)
    requires SameBut(ls, ls', a)
    ensures forall b :: b != a ==> Txs(ls, b) == Txs(ls', b)
  {}

  ghost function Lot(pending: Lists, queue: Lists, a: Addr): (acc: Account)
  {
    Account(Txs(pending, a), Txs(queue, a), 0)
  }

  /** No account has one nonce in both lists, and `all` is exactly the union of all executable
      and queued transactions. */
  ghost predicate Agree(pending: Lists, queue: Lists, all: set<Tx>)
  {
    && (forall a :: Sane(Lot(pending, queue, a), a))
    && (forall tx :: tx in all <==> Holds(Lot(pending, queue, tx.from), tx))
  }

  /** A change to one account keeps the agreement if it does so for that account. */
  lemma AgreeStep(pending: Lists, queue: Lists, all: set<Tx>, pending': Lists, queue': Lists, all': set<Tx>, a: Addr)
    requires Agree(pending, queue, all) && SameBut(pending, pending', a) && SameBut(queue, queue', a)
    requires Sane(Lot(pending', queue', a), a)
    requires forall tx :: tx in all' <==> if tx.from == a then Holds(Lot(pending', queue', a), tx) else tx in all
    ensures Agree(pending', queue', all')
  {
    hide Sane, Holds;
    SameButTxs(pending, pending', a);
    SameButTxs(queue, queue', a);
    forall b ensures Sane(Lot(pending', queue', b), b) {
      assert b != a ==> Lot(pending', queue', b) == Lot(pending, queue, b);
    }
    forall tx ensures tx in all' <==> Holds(Lot(pending', queue', tx.from), tx) {
      assert tx.from != a ==> Lot(pending', queue', tx.from) == Lot(pending, queue, tx.from);
    }
  }

  datatype Config = Config(priceLimit: nat, priceBump: nat, accountSlots: nat, globalSlots: nat, accountQueue: nat,
                           globalQueue: nat)

  /** Nonsensical settings give way to the defaults. */
  function Sanitized(c: Config): (r: Config)
    ensures r.priceLimit >= 1 && r.priceBump >= 1
    ensures c.priceLimit >= 1 && c.priceBump >= 1 ==> r == c
  {
    c.(priceLimit := if c.priceLimit < 1 then 1 else c.priceLimit,
       priceBump := if c.priceBump < 1 then 10 else c.priceBump)
  }

  /** What the pool asks the chain: nonces and balances at the current head, its gas limit. */
  datatype Env = Env(nonces: map<Addr, nat>, balances: map<Addr, nat>, maxGas: nat, homestead: bool)
  {
    function Nonce(a: Addr): (n: nat)
    {
      if a in nonces then nonces[a] else 0
    }

    function Balance(a: Addr): (b: nat)
    {
      if a in balances then balances[a] else 0
    }
  }

  /** A virtual nonce; accounts without one are at their state nonce. */
  function NonceOf(vnonce: map<Addr, nat>, env: Env, a: Addr): (n: nat)
  {
    if a in vnonce then vnonce[a] else env.Nonce(a)
  }

  /** Transactions of the pool without an entry in the price heap. */
  ghost function Bare(all: set<Tx>, items: seq<Tx>): (s: set<Tx>)
  {
    set t | t in all && t !in items
  }

  ghost function AccountOf(pending: Lists, queue: Lists, vnonce: map<Addr, nat>, env: Env, a: Addr): (acc: Account)
  {
    Account(Txs(pending, a), Txs(queue, a), NonceOf(vnonce, env, a))
  }

  /** Every account is contiguous, except that those in `loose` have yet to be promoted. */
  ghost predicate Tidy(pending: Lists, queue: Lists, vnonce: map<Addr, nat>, env: Env, loose: set<Addr>)
  {
    forall a :: if a in loose then AlmostContiguous(AccountOf(pending, queue, vnonce, env, a), env.Nonce(a))
                else Contiguous(AccountOf(pending, queue, vnonce, env, a), env.Nonce(a))
  }

  /** A change to one account. */
  lemma TidyStep(pending: Lists, queue: Lists, vnonce: map<Addr, nat>, pending': Lists, queue': Lists,
                 vnonce': map<Addr, nat>, env: Env, loose: set<Addr>, loose': set<Addr>, a: Addr)
    requires Tidy(pending, queue, vnonce, env, loose) && loose - {a} == loose' - {a}
    requires SameBut(pending, pending', a) && SameBut(queue, queue', a) && SameBut(vnonce, vnonce', a)
    requires var acc := AccountOf(pending', queue', vnonce', env, a);
             if a in loose' then AlmostContiguous(acc, env.Nonce(a)) else Contiguous(acc, env.Nonce(a))
    ensures Tidy(pending', queue', vnonce', env, loose')
  {
    hide Contiguous, AlmostContiguous;
    SameButTxs(pending, pending', a);
    SameButTxs(queue, queue', a);
    forall b | b != a
      ensures AccountOf(pending', queue', vnonce', env, b) == AccountOf(pending, queue, vnonce, env, b) {
    }
    forall b | b != a ensures b in loose <==> b in loose' {
      assert b in loose <==> b in loose - {a};
      assert b in loose' <==> b in loose' - {a};
    }
  }

  lemma TidyAt(pending: Lists, queue: Lists, vnonce: map<Addr, nat>, env: Env, loose: set<Addr>, a: Addr)
    requires Tidy(pending, queue, vnonce, env, loose)
    ensures AlmostContiguous(AccountOf(pending, queue, vnonce, env, a), env.Nonce(a))
    ensures a !in loose ==> Contiguous(AccountOf(pending, queue, vnonce, env, a), env.Nonce(a))
  {
    if a !in loose {
      ContiguousIsAlmost(AccountOf(pending, queue, vnonce, env, a), env.Nonce(a));
    }
  }

  /** Removal from an executable list, in terms of its account. */
  lemma RemoveParts(l: TxList, acc: Account, a: Addr, nonce: nat, all: set<Tx>)
    requires Capped(l) && l.strict && l.txs == acc.pend && nonce in l.txs && Sane(acc.(vnonce := 0), a)
    requires forall n :: n in l.txs && n > nonce ==> l.txs[n] in all
    ensures var f, r := Remove(l, nonce), Removed(acc, nonce);
            var behind := Sub(l.txs, f.invalid);
            && Capped(f.list) && f.list.strict
            && r == Account(f.list.txs, acc.queue + behind, if acc.vnonce > nonce then nonce else acc.vnonce)
            && Owned(behind, a) && behind.Keys !! acc.queue.Keys && Within(behind, all)
  {
    var f, r := Remove(l, nonce), Removed(acc, nonce);
    assert l.txs - {nonce} - f.invalid == acc.pend - {nonce} - Above(acc.pend, nonce);
    assert f.invalid == Above(acc.pend, nonce);
  }

  /** Taking a transaction and everything behind it out of an executable list. */
  lemma TakeOut(pending: Lists, queue: Lists, all: set<Tx>, a: Addr, nonce: nat, v: nat)
    requires WellFormed(pending, true) && Sane(Lot(pending, queue, a), a) && a in pending && nonce in pending[a].txs
    requires forall n :: n in pending[a].txs && n > nonce ==> pending[a].txs[n] in all
    ensures var f := Remove(pending[a], nonce);
            var behind, pending' := Sub(pending[a].txs, f.invalid), Put(pending, a, f.list);
            var r := Removed(Account(Txs(pending, a), Txs(queue, a), v), nonce);
            && WellFormed(pending', true) && SameBut(pending, pending', a)
            && Owned(behind, a) && behind.Keys !! Txs(queue, a).Keys && Within(behind, all)
            && r.pend == Txs(pending', a) && r.queue == Txs(queue, a) + behind
            && r.vnonce == if v > nonce then nonce else v
  {
    hide Remove, Removed, Put, WellFormed, SameBut, Owned, Within, Capped;
    WellFormedAt(pending, true, a);
    RemoveParts(pending[a], Account(Txs(pending, a), Txs(queue, a), v), a, nonce, all);
    PutWellFormed(pending, a, Remove(pending[a], nonce).list);
  }

  lemma SameAll(pending: Lists, queue: Lists, vnonce: map<Addr, nat>, a: Addr)
    ensures SameBut(pending, pending, a) && SameBut(queue, queue, a) && SameBut(vnonce, vnonce, a)
  {}

  /** A promotion plan for an account of the pool: each step finds what it needs, and the books
      agree when it is done. */
  lemma PlanReady(pending: Lists, queue: Lists, all: set<Tx>, a: Addr, v: nat, s: nat, balance: int, maxGas: nat,
                  isLocal: bool, cap: nat)
    requires WellFormed(queue, false) && a in queue && Sane(Lot(pending, queue, a), a)
    requires forall tx: Tx :: tx.from == a ==> (tx in all <==> Holds(Lot(pending, queue, a), tx))
    ensures var p := PlanFor(queue[a], v, s, balance, maxGas, isLocal, cap);
            var r := Promoted(Account(Txs(pending, a), Txs(queue, a), v), s, balance, maxGas, isLocal, cap);
            && Parted(queue[a].txs, p)
            && WellFormed(Put(queue, a, p.list), false)
            && r.pend == Txs(pending, a) + Sub(queue[a].txs, p.run) && r.queue == p.list.txs
            && r.vnonce == (if p.run == {} then v else MaxOf(p.run) + 1)
            && Owned(Sub(queue[a].txs, p.run), a) && p.run !! Txs(pending, a).Keys
            && Within(Sub(queue[a].txs, p.run), all - Dropped(queue[a].txs, p))
            && Sane(r.(vnonce := 0), a)
            && forall tx: Tx :: tx in all - Dropped(queue[a].txs, p) <==>
                 if tx.from == a then Holds(r.(vnonce := 0), tx) else tx in all
  {
    hide PlanFor, Promoted, WellFormed, Put, Capped;
    WellFormedAt(queue, false, a);
    var acc := Account(Txs(pending, a), Txs(queue, a), v);
    var p := PlanFor(queue[a], v, s, balance, maxGas, isLocal, cap);
    PlanShape(queue[a], acc, s, balance, maxGas, isLocal, cap);
    PlanPromotes(queue[a], acc, s, balance, maxGas, isLocal, cap);
    PutWellFormed(queue, a, p.list);
    PlanHolds(acc, a, p, 0);
  }

  lemma SameTwice<T>(x: map<Addr, T>, y: map<Addr, T>, z: map<Addr, T>, a: Addr)
    requires SameBut(x, y, a) && SameBut(y, z, a)
    ensures SameBut(x, z, a)
  {}

  /** Demotion of an account of the pool: whatever goes back finds its place free, and the books
      agree when it is done. */
  lemma DemoteReady(pending: Lists, queue: Lists, all: set<Tx>, a: Addr, v: nat, s: nat, balance: int, maxGas: nat)
    requires WellFormed(pending, true) && a in pending && Sane(Lot(pending, queue, a), a)
    requires forall tx: Tx :: tx.from == a ==> (tx in all <==> Holds(Lot(pending, queue, a), tx))
    ensures var d := DemotionFor(pending[a], s, balance, maxGas);
            var r := Demoted(Account(Txs(pending, a), Txs(queue, a), v), s, balance, maxGas);
            var m, behind, stuck := pending[a].txs, Sub(pending[a].txs, d.behind), Sub(pending[a].txs, d.stuck);
            && d.low <= m.Keys && d.unpayable <= m.Keys
            && Owned(behind, a) && behind.Keys !! Txs(queue, a).Keys
            && Owned(stuck, a) && stuck.Keys !! (Txs(queue, a) + behind).Keys
            && r.pend == d.list.txs && r.queue == Txs(queue, a) + behind + stuck && r.vnonce == v
            && WellFormed(Put(pending, a, d.list), true)
            && Sane(r.(vnonce := 0), a)
            && var rest := all - Pick(m, d.low) - Pick(m, d.unpayable);
               && Within(behind, rest) && Within(stuck, rest)
               && forall tx: Tx :: tx in rest <==> if tx.from == a then Holds(r.(vnonce := 0), tx) else tx in all
  {
    hide DemotionFor, Demoted, WellFormed, Put, Capped;
    WellFormedAt(pending, true, a);
    var acc := Account(Txs(pending, a), Txs(queue, a), v);
    var d := DemotionFor(pending[a], s, balance, maxGas);
    DemotionShape(pending[a], acc, s, balance, maxGas);
    DemotionDemotes(pending[a], acc, s, balance, maxGas);
    PutWellFormed(pending, a, d.list);
    DemotionHolds(acc, a, d, 0);
  }

  /** Removal from a queue takes out just the one transaction. */
  lemma RemoveLoose(l: TxList, nonce: nat)
    requires Capped(l) && !l.strict
    ensures var f := Remove(l, nonce);
            Capped(f.list) && !f.list.strict && f.list.txs == l.txs - {nonce}
  {
    assert l.txs - {nonce} - {} == l.txs - {nonce};
  }

  lemma LotOf(pending: Lists, queue: Lists, all: set<Tx>, a: Addr)
    requires Agree(pending, queue, all)
    ensures Sane(Lot(pending, queue, a), a)
    ensures forall n :: n in Txs(pending, a) ==> Txs(pending, a)[n] in all && Txs(pending, a)[n].nonce == n
    ensures forall n :: n in Txs(queue, a) ==> Txs(queue, a)[n] in all && Txs(queue, a)[n].nonce == n
    ensures forall tx: Tx :: tx.from == a ==> (tx in all <==> Holds(Lot(pending, queue, a), tx))
  {
    var acc := Lot(pending, queue, a);
    forall n | n in acc.pend ensures acc.pend[n] in all {
      assert Holds(acc, acc.pend[n]);
    }
    forall n | n in acc.queue ensures acc.queue[n] in all {
      assert Holds(acc, acc.queue[n]);
    }
  }

  /** Removal seen without the virtual nonce. */
  lemma RemovedLot(acc: Account, a: Addr, tx: Tx)
    requires Sane(acc.(vnonce := 0), a) && Holds(acc.(vnonce := 0), tx)
    ensures Sane(Removed(acc, tx.nonce).(vnonce := 0), a)
    ensures forall t :: Holds(Removed(acc, tx.nonce).(vnonce := 0), t) <==> Holds(acc.(vnonce := 0), t) && t != tx
  {
    RemovedHolds(acc, a, tx);
  }

  /** A transaction whose place is free goes in without pushing anything out. */
  lemma FreePlace(ls: Lists, a: Addr, strict: bool, tx: Tx, bump: nat)
    requires tx.from == a && tx.nonce !in Txs(ls, a)
    ensures var ls' := ls[a := With(ListAt(ls, a, strict), tx)];
            && Accepts(ListAt(ls, a, strict), tx, bump) && Occupant(ls, tx) == {}
            && SameBut(ls, ls', a) && Txs(ls', a) == Txs(ls, a)[tx.nonce := tx]
  {}

  lemma RemovedNonce(acc: Account, nonce: nat)
    requires nonce in acc.pend
    ensures Removed(acc, nonce).vnonce == if acc.vnonce > nonce then nonce else acc.vnonce
  {}

  /** Everything that is not left lies before everything that is. */
  ghost predicate Front(keys: set<nat>, left: set<nat>)
  {
    left <= keys && forall x, y :: x in keys && x !in left && y in left ==> x < y
  }

  /** Virtual nonces after the given nonces of an account became executable. */
  function Numbered(v: map<Addr, nat>, a: Addr, done: set<nat>): (r: map<Addr, nat>)
  {
    if done == {} then v else v[a := MaxOf(done) + 1]
  }

  /** Heartbeats after promotions at the given time, if there were any. */
  function Beaten(beats: map<Addr, nat>, a: Addr, now: nat, any: bool): (r: map<Addr, nat>)
  {
    if any then beats[a := now] else beats
  }

  lemma BeatenAgain(beats: map<Addr, nat>, a: Addr, now: nat, any: bool)
    ensures Beaten(beats, a, now, any)[a := now] == Beaten(beats, a, now, true) && Beaten(beats, a, now, false) == beats
  {}

  lemma NumberedAt(v: map<Addr, nat>, env: Env, a: Addr, done: set<nat>)
    ensures SameBut(v, Numbered(v, a, done), a)
    ensures NonceOf(Numbered(v, a, done), env, a) == if done == {} then NonceOf(v, env, a) else MaxOf(done) + 1
  {}

  lemma FrontStart(keys: set<nat>, v: map<Addr, nat>, a: Addr)
    ensures Front(keys, keys) && Numbered(v, a, keys - keys) == v
  {}

  lemma FrontNext(keys: set<nat>, left: set<nat>, v: map<Addr, nat>, a: Addr)
    requires Front(keys, left) && left != {}
    ensures var n := MinOf(left);
            && Front(keys, left - {n})
            && Numbered(v, a, keys - left)[a := n + 1] == Numbered(v, a, keys - (left - {n}))
  {
    var n := MinOf(left);
    var done := keys - (left - {n});
    assert n in done && AllUpTo(done, n);
    assert MaxOf(done) <= n;
  }

  lemma OneMore(q: TxMap, txs: TxMap, left: set<nat>, n: nat)
    requires ByNonce(txs) && n in left && left <= txs.Keys
    ensures (q + Sub(txs, txs.Keys - left))[n := txs[n]] == q + Sub(txs, txs.Keys - (left - {n}))
  {}

  lemma NewAccepts(tx: Tx, bump: nat, strict: bool)
    ensures Accepts(EmptyList(strict), tx, bump) && Capped(EmptyList(strict))
  {}

  lemma RemovedTidy(pending: Lists, queue: Lists, vnonce: map<Addr, nat>, pending': Lists, queue': Lists,
                    vnonce': map<Addr, nat>, env: Env, loose: set<Addr>, a: Addr, nonce: nat)
    requires SameBut(pending, pending', a) && SameBut(queue, queue', a) && SameBut(vnonce, vnonce', a)
    requires AccountOf(pending', queue', vnonce', env, a) == Removed(AccountOf(pending, queue, vnonce, env, a), nonce)
    ensures Tidy(pending, queue, vnonce, env, loose) ==> Tidy(pending', queue', vnonce', env, loose)
  {
    hide Tidy, Contiguous, AlmostContiguous, SameBut, Removed;
    if Tidy(pending, queue, vnonce, env, loose) {
      TidyAt(pending, queue, vnonce, env, loose, a);
      RemovedContiguous(AccountOf(pending, queue, vnonce, env, a), nonce, env.Nonce(a));
      TidyStep(pending, queue, vnonce, pending', queue', vnonce', env, loose, loose, a);
    }
  }

  /** Cutting the top off an executable list. */
  lemma CutReady(pending: Lists, queue: Lists, all: set<Tx>, a: Addr)
    requires WellFormed(pending, true) && Agree(pending, queue, all) && a in pending && |pending[a].txs| > 0
    ensures var l := pending[a];
            var kept, top := CapTo(l.txs, |l.txs| - 1), MaxOf(l.txs.Keys);
            var pending' := pending[a := l.(txs := kept)];
            && WellFormed(pending', true) && SameBut(pending, pending', a)
            && kept == l.txs - {top}
            && Sane(Lot(pending', queue, a), a)
            && forall tx: Tx :: tx in all - {l.txs[top]} <==>
                 if tx.from == a then Holds(Lot(pending', queue, a), tx) else tx in all
  {
    hide CapTo, MaxOf, Agree, Sane, Holds, Capped;
    var l := pending[a];
    LotOf(pending, queue, all, a);
    TopCut(l.txs);
    CutLot(Lot(pending, queue, a), a, MaxOf(l.txs.Keys));
    FewerCapped(l, {MaxOf(l.txs.Keys)});
  }

  lemma TopCut(m: TxMap)
    requires |m| > 0
    ensures CapTo(m, |m| - 1) == m - {MaxOf(m.Keys)}
  {}

  lemma CutLot(acc: Account, a: Addr, n: nat)
    requires Sane(acc, a) && n in acc.pend
    ensures var r := acc.(pend := acc.pend - {n});
            Sane(r, a) && forall tx: Tx :: Holds(r, tx) <==> Holds(acc, tx) && tx != acc.pend[n]
    ensures acc.pend[n].from == a
  {}

  lemma CutTidy(pending: Lists, queue: Lists, vnonce: map<Addr, nat>, pending': Lists, vnonce': map<Addr, nat>,
                env: Env, a: Addr)
    requires SameBut(pending, pending', a) && SameBut(vnonce, vnonce', a) && |Txs(pending, a)| > 0
    requires AccountOf(pending', queue, vnonce', env, a) == Capped1(AccountOf(pending, queue, vnonce, env, a))
    ensures Tidy(pending, queue, vnonce, env, {}) ==> Tidy(pending', queue, vnonce', env, {})
  {
    hide Tidy, Contiguous, AlmostContiguous, Capped1;
    if Tidy(pending, queue, vnonce, env, {}) {
      TidyAt(pending, queue, vnonce, env, {}, a);
      Capped1Contiguous(AccountOf(pending, queue, vnonce, env, a), env.Nonce(a));
      TidyStep(pending, queue, vnonce, pending', queue, vnonce', env, {}, {}, a);
    }
  }

  lemma PromotedTidy(pending: Lists, queue: Lists, vnonce: map<Addr, nat>, pending': Lists, queue': Lists,
                     vnonce': map<Addr, nat>, env: Env, loose: set<Addr>, a: Addr, isLocal: bool, cap: nat)
    requires SameBut(pending, pending', a) && SameBut(queue, queue', a) && SameBut(vnonce, vnonce', a)
    requires var acc := AccountOf(pending, queue, vnonce, env, a);
             AccountOf(pending', queue', vnonce', env, a) ==
               if a in queue then Promoted(acc, env.Nonce(a), env.Balance(a), env.maxGas, isLocal, cap) else acc
    ensures Tidy(pending, queue, vnonce, env, loose) ==> Tidy(pending', queue', vnonce', env, loose - {a})
    ensures isLocal || |Txs(queue', a)| <= cap
  {
    hide Tidy, Contiguous, AlmostContiguous, SameBut;
    var acc := AccountOf(pending, queue, vnonce, env, a);
    if Tidy(pending, queue, vnonce, env, loose) {
      TidyAt(pending, queue, vnonce, env, loose, a);
      if a in queue {
        PromotedContiguous(acc, env.Nonce(a), env.Balance(a), env.maxGas, isLocal, cap);
      } else {
        NoQueue(acc, env.Nonce(a));
      }
      assert loose - {a} - {a} == loose - {a};
      TidyStep(pending, queue, vnonce, pending', queue', vnonce', env, loose, loose - {a}, a);
    }
  }

  // ---------- room for newcomers ----------

  predicate Full(all: set<Tx>, config: Config)
  {
    |all| >= config.globalSlots + config.globalQueue
  }

  /** How many transactions have to go before there is room for one. */
  function Excess(all: set<Tx>, config: Config): (n: int)
  {
    |all| - (config.globalSlots + config.globalQueue - 1)
  }

  /** Only remote transactions go, and none that stays is cheaper than one that goes. */
  ghost predicate Cheapest(dropped: set<Tx>, all: set<Tx>, locals: set<Addr>)
  {
    && (forall t :: t in dropped ==> t in all && t.from !in locals)
    && (forall d, t :: d in dropped && t in all && t !in dropped && t.from !in locals ==> !PriceLess(t, d))
  }

  lemma BareLess(all: set<Tx>, items: seq<Tx>, tx: Tx)
    ensures Bare(all - {tx}, items) <= Bare(all, items)
  {}

  lemma Covered(all: set<Tx>, items: seq<Tx>)
    ensures Bare(all, items) == {} <==> Covers(items, all)
  {
    if Bare(all, items) == {} {
      forall t | t in all ensures t in items {
        assert t !in items ==> t in Bare(all, items);
      }
    }
  }

  /** What the price heap gives up to make room. */
  lemma Discarded(before: seq<Tx>, items: seq<Tx>, drop: seq<Tx>, all: set<Tx>, locals: set<Addr>)
    requires Covers(before, all) && Divided(before, items, drop, [], all)
    requires forall t :: t in drop ==> t in all && t.from !in locals
    requires forall d, t :: d in drop && t in items && t.from !in locals ==> !PriceLess(t, d)
    ensures Cheapest(Elems(drop), all, locals) && Bare(all, items) <= Elems(drop)
    ensures Once(before, all) ==> |all - Elems(drop)| == |all| - |drop|
  {
    hide Divided, PriceLess;
    forall t | t in all ensures t in items || t in drop {
      DividedCovers(before, items, drop, all, t);
    }
    if Once(before, all) {
      DropsOnce(before, items, drop, all);
      assert Elems(drop) <= all && all - Elems(drop) + Elems(drop) == all;
    }
  }

  /** The books after an executable transaction has been replaced. */
  lemma ReplaceReady(pending: Lists, queue: Lists, all: set<Tx>, vnonce: map<Addr, nat>, env: Env, loose: set<Addr>,
                     tx: Tx)
    requires WellFormed(pending, true) && Agree(pending, queue, all) && tx.from in pending
    requires tx.nonce in pending[tx.from].txs && tx !in all
    ensures var l := pending[tx.from];
            var pending' := pending[tx.from := With(l, tx)];
            && WellFormed(pending', true) && Agree(pending', queue, all - {l.txs[tx.nonce]} + {tx})
            && (Tidy(pending, queue, vnonce, env, loose) ==> Tidy(pending', queue, vnonce, env, loose))
  {
    hide Agree, Tidy, Contiguous, AlmostContiguous, Capped;
    var a, l := tx.from, pending[tx.from];
    var pending' := pending[a := With(l, tx)];
    WithCapped(l, tx);
    LotOf(pending, queue, all, a);
    ReplacedHolds(Lot(pending, queue, a), a, tx);
    AgreeStep(pending, queue, all, pending', queue, all - {l.txs[tx.nonce]} + {tx}, a);
    if Tidy(pending, queue, vnonce, env, loose) {
      TidyAt(pending, queue, vnonce, env, loose, a);
      ReplacedContiguous(AccountOf(pending, queue, vnonce, env, a), tx, env.Nonce(a));
      TidyStep(pending, queue, vnonce, pending', queue, vnonce, env, loose, loose, a);
    }
  }

  /** The books after a transaction has been queued. */
  lemma QueueReady(pending: Lists, queue: Lists, all: set<Tx>, vnonce: map<Addr, nat>, env: Env, loose: set<Addr>,
                   tx: Tx)
    requires WellFormed(queue, false) && Agree(pending, queue, all) && tx.nonce !in Txs(pending, tx.from) && tx !in all
    ensures var queue' := queue[tx.from := With(ListAt(queue, tx.from, false), tx)];
            && Agree(pending, queue', all - Occupant(queue, tx) + {tx})
            && (Tidy(pending, queue, vnonce, env, loose) && tx.nonce >= env.Nonce(tx.from) ==>
                  Tidy(pending, queue', vnonce, env,
                       if tx.nonce in Txs(queue, tx.from) then loose else loose + {tx.from}))
  {
    hide Agree, Tidy, Contiguous, AlmostContiguous, Capped;
    var a, l := tx.from, ListAt(queue, tx.from, false);
    var queue' := queue[a := With(l, tx)];
    LotOf(pending, queue, all, a);
    QueuedHolds(Lot(pending, queue, a), a, tx);
    AgreeStep(pending, queue, all, pending, queue', all - Occupant(queue, tx) + {tx}, a);
    if Tidy(pending, queue, vnonce, env, loose) && tx.nonce >= env.Nonce(a) {
      TidyAt(pending, queue, vnonce, env, loose, a);
      QueuedContiguous(AccountOf(pending, queue, vnonce, env, a), tx, env.Nonce(a));
      var loose' := if tx.nonce in Txs(queue, tx.from) then loose else loose + {tx.from};
      assert loose - {a} == loose' - {a};
      TidyStep(pending, queue, vnonce, pending, queue', vnonce, env, loose, loose', a);
    }
  }

  /** Whatever is in a transaction's place is in the pool, and is replaced only at a better price. */
  lemma Occupants(pending: Lists, queue: Lists, all: set<Tx>, tx: Tx, bump: nat)
    requires Agree(pending, queue, all)
    ensures tx.nonce in Txs(pending, tx.from) ==>
              var t := Txs(pending, tx.from)[tx.nonce]; t in all && t.from == tx.from && t.nonce == tx.nonce
    ensures forall t :: t in Occupant(queue, tx) ==> t in all && t.from == tx.from && t.nonce == tx.nonce
    ensures Accepts(ListAt(queue, tx.from, false), tx, bump) ==>
              forall t :: t in Occupant(queue, tx) ==> Replaces(t, tx, bump)
    ensures !Accepts(ListAt(queue, tx.from, false), tx, bump) ==>
              exists t :: t in Occupant(queue, tx) && !Replaces(t, tx, bump)
    ensures Occupant(queue, tx) != {} <==> tx.nonce in Txs(queue, tx.from)
  {
    LotOf(pending, queue, all, tx.from);
    if !Accepts(ListAt(queue, tx.from, false), tx, bump) {
      assert Txs(queue, tx.from)[tx.nonce] in Occupant(queue, tx);
    }
  }

  /** A set of accounts as a list. */
  method Collected(accounts: set<Addr>) returns (r: seq<Addr>)
    ensures Distinct(r) && forall a :: a in r <==> a in accounts
  {
    r := [];
    var left := accounts;
    while left != {}
      invariant left <= accounts && Distinct(r) && forall a :: a in r <==> a in accounts - left
      decreases left
    {
      var a :| a in left;
      Joins(r, a);
      left, r := left - {a}, r + [a];
    }
  }

  // ---------- a new head ----------

  /** An account's lists are what demotion makes of them. */
  ghost predicate DemotedTo(p0: Lists, q0: Lists, p: Lists, q: Lists, env: Env, a: Addr)
  {
    var acc := Lot(p0, q0, a);
    var r := if a in p0 then Demoted(acc, env.Nonce(a), env.Balance(a), env.maxGas) else acc;
    Txs(p, a) == r.pend && Txs(q, a) == r.queue
  }

  ghost predicate DemotedAll(p0: Lists, q0: Lists, p: Lists, q: Lists, env: Env, left: set<Addr>)
  {
    && left <= p.Keys * p0.Keys
    && (forall a :: if a in left then Txs(p, a) == Txs(p0, a) && Txs(q, a) == Txs(q0, a)
                    else DemotedTo(p0, q0, p, q, env, a))
    && (forall a :: a in p && a !in left ==> |p[a].txs| > 0)
  }

  lemma DemoteStart(p: Lists, q: Lists, env: Env)
    ensures DemotedAll(p, q, p, q, env, p.Keys)
  {}

  lemma DemoteNext(p0: Lists, q0: Lists, p: Lists, q: Lists, env: Env, left: set<Addr>, a: Addr)
    requires DemotedAll(p0, q0, p, q, env, left) && a in left
    ensures a in p
  {}

  lemma DemoteStep(p0: Lists, q0: Lists, p: Lists, q: Lists, p': Lists, q': Lists, v: map<Addr, nat>, env: Env,
                   left: set<Addr>, a: Addr)
    requires DemotedAll(p0, q0, p, q, env, left) && a in left && SameBut(p, p', a) && SameBut(q, q', a)
    requires var r := Demoted(AccountOf(p, q, v, env, a), env.Nonce(a), env.Balance(a), env.maxGas);
             Txs(p', a) == r.pend && Txs(q', a) == r.queue
    requires a in p' ==> |p'[a].txs| > 0
    ensures DemotedAll(p0, q0, p', q', env, left - {a})
  {
    hide DemotedTo, Demoted, SameBut, Txs;
    DemotedHere(p0, q0, p, q, p', q', v, env, a);
    forall b | b != a
      ensures Txs(p', b) == Txs(p, b) && Txs(q', b) == Txs(q, b) && (b in p' <==> b in p) && (b in p ==> p'[b] == p[b])
                           && (DemotedTo(p0, q0, p, q, env, b) ==> DemotedTo(p0, q0, p', q', env, b)) {
      DemotedThere(p0, q0, p, q, p', q', env, a, b);
    }
  }

  lemma DemotedHere(p0: Lists, q0: Lists, p: Lists, q: Lists, p': Lists, q': Lists, v: map<Addr, nat>, env: Env,
                    a: Addr)
    requires a in p0 && Txs(p, a) == Txs(p0, a) && Txs(q, a) == Txs(q0, a)
    requires var r := Demoted(AccountOf(p, q, v, env, a), env.Nonce(a), env.Balance(a), env.maxGas);
             Txs(p', a) == r.pend && Txs(q', a) == r.queue
    ensures DemotedTo(p0, q0, p', q', env, a)
  {
    hide Demoted;
    DemotedAlike(Txs(p, a), Txs(q, a), NonceOf(v, env, a), 0, env.Nonce(a), env.Balance(a), env.maxGas);
  }

  lemma DemotedThere(p0: Lists, q0: Lists, p: Lists, q: Lists, p': Lists, q': Lists, env: Env, a: Addr, b: Addr)
    requires SameBut(p, p', a) && SameBut(q, q', a) && b != a
    ensures Txs(p', b) == Txs(p, b) && Txs(q', b) == Txs(q, b) && (b in p' <==> b in p) && (b in p ==> p'[b] == p[b])
    ensures DemotedTo(p0, q0, p, q, env, b) ==> DemotedTo(p0, q0, p', q', env, b)
  {
    hide Demoted;
    SameButTxs(p, p', a);
    SameButTxs(q, q', a);
  }

  /** Demotion does not look at the virtual nonce. */
  lemma DemotedAlike(pend: TxMap, queue: TxMap, v: nat, v': nat, s: nat, balance: int, maxGas: nat)
    ensures var r, r' := Demoted(Account(pend, queue, v), s, balance, maxGas),
              Demoted(Account(pend, queue, v'), s, balance, maxGas);
            r.pend == r'.pend && r.queue == r'.queue
  {
    hide FullFilter, Below, Sub;
    assert Kept(Account(pend, queue, v), s, balance, maxGas) == Kept(Account(pend, queue, v'), s, balance, maxGas);
  }

  // ---------- promotion of several accounts ----------

  /** The given accounts that have a queue are promoted, all others are as they were. */
  ghost predicate PromotedAll(p0: Lists, q0: Lists, v0: map<Addr, nat>, p: Lists, q: Lists, v: map<Addr, nat>,
                              env: Env, locals: set<Addr>, cap: nat, done: set<Addr>)
  {
    && (forall a :: AccountOf(p, q, v, env, a) == PromotedFrom(p0, q0, v0, env, locals, cap, done, a))
    && (forall a :: a !in done ==> (a in q <==> a in q0))
  }

  ghost function PromotedFrom(p0: Lists, q0: Lists, v0: map<Addr, nat>, env: Env, locals: set<Addr>, cap: nat,
                              done: set<Addr>, a: Addr): (r: Account)
  {
    var acc := AccountOf(p0, q0, v0, env, a);
    if a in done && a in q0 then Promoted(acc, env.Nonce(a), env.Balance(a), env.maxGas, a in locals, cap) else acc
  }

  lemma PromotedNone(p: Lists, q: Lists, v: map<Addr, nat>, env: Env, locals: set<Addr>, cap: nat, accounts: seq<Addr>)
    ensures PromotedAll(p, q, v, p, q, v, env, locals, cap, Elems(accounts[..0]))
  {}

  lemma PromotedNext(p0: Lists, q0: Lists, v0: map<Addr, nat>, p: Lists, q: Lists, v: map<Addr, nat>, p': Lists,
                     q': Lists, v': map<Addr, nat>, env: Env, locals: set<Addr>, cap: nat, accounts: seq<Addr>, i: nat)
    requires i < |accounts| && Distinct(accounts)
    requires PromotedAll(p0, q0, v0, p, q, v, env, locals, cap, Elems(accounts[..i]))
    requires var a := accounts[i];
             && SameBut(p, p', a) && SameBut(q, q', a) && SameBut(v, v', a)
             && var acc := AccountOf(p, q, v, env, a);
                AccountOf(p', q', v', env, a) ==
                  if a in q then Promoted(acc, env.Nonce(a), env.Balance(a), env.maxGas, a in locals, cap) else acc
    ensures PromotedAll(p0, q0, v0, p', q', v', env, locals, cap, Elems(accounts[..i + 1]))
  {
    hide Promoted, AccountOf, SameBut, Distinct;
    var a, done := accounts[i], Elems(accounts[..i]);
    NextElem(accounts, i);
    forall b
      ensures AccountOf(p', q', v', env, b) == PromotedFrom(p0, q0, v0, env, locals, cap, done + {a}, b)
      ensures b !in done + {a} ==> (b in q' <==> b in q0) {
      assert AccountOf(p, q, v, env, b) == PromotedFrom(p0, q0, v0, env, locals, cap, done, b);
      if b != a {
        OtherAccount(p, q, v, p', q', v', env, a, b);
      }
    }
  }

  lemma NextElem(accounts: seq<Addr>, i: nat)
    requires i < |accounts| && Distinct(accounts)
    ensures accounts[i] !in Elems(accounts[..i]) && Elems(accounts[..i + 1]) == Elems(accounts[..i]) + {accounts[i]}
  {
    assert accounts[..i + 1] == accounts[..i] + [accounts[i]];
  }

  lemma OtherAccount(p: Lists, q: Lists, v: map<Addr, nat>, p': Lists, q': Lists, v': map<Addr, nat>, env: Env,
                     a: Addr, b: Addr)
    requires SameBut(p, p', a) && SameBut(q, q', a) && SameBut(v, v', a) && b != a
    ensures AccountOf(p', q', v', env, b) == AccountOf(p, q, v, env, b) && (b in q' <==> b in q)
  {
    SameButTxs(p, p', a);
    SameButTxs(q, q', a);
  }
}
