/** One account's share of the pool as a value, and what the pool's operations do to it:
    executable transactions, queued ones, and the virtual nonce. */
module TxAccounts {
  import opened Basics
  import opened TxMaps
  import opened TxSorted
  import opened TxLists

  datatype Account = Account(pend: TxMap, queue: TxMap, vnonce: nat)

  /** The part of a map at the given nonces. */
  function Sub(m: TxMap, ks: set<nat>): (r: TxMap)
    ensures r.Keys == m.Keys * ks && forall k :: k in r ==> r[k] == m[k]
  {
    map k | k in m && k in ks :: m[k]
  }

  ghost predicate SubMap(m: TxMap, r: TxMap)
  {
    r.Keys <= m.Keys && forall k :: k in r ==> r[k] == m[k]
  }

  ghost predicate Owned(m: TxMap, a: Addr)
  {
    ByNonce(m) && forall n :: n in m ==> m[n].from == a
  }

  /** No nonce is both executable and queued. */
  ghost predicate Sane(acc: Account, a: Addr)
  {
    Owned(acc.pend, a) && Owned(acc.queue, a) && acc.pend.Keys !! acc.queue.Keys
  }

  ghost predicate Holds(acc: Account, tx: Tx)
  {
    Has(acc.pend, tx) || Has(acc.queue, tx)
  }

  /** Executable nonces are exactly those from the state nonce up to the virtual one, and queued
      nonces are above it, so none of them could be executed next. */
  ghost predicate Contiguous(acc: Account, s: nat)
  {
    s <= acc.vnonce && Range(acc.pend, s, acc.vnonce) && forall n :: n in acc.queue ==> n > acc.vnonce
  }

  /** The same before promotion: queued nonces may also be below the state nonce or next in turn. */
  ghost predicate AlmostContiguous(acc: Account, s: nat)
  {
    s <= acc.vnonce && Range(acc.pend, s, acc.vnonce) && forall n :: n in acc.queue ==> n < s || n >= acc.vnonce
  }

  lemma ContiguousIsAlmost(acc: Account, s: nat)
    requires Contiguous(acc, s)
    ensures AlmostContiguous(acc, s)
  {}

  lemma NoQueue(acc: Account, s: nat)
    requires AlmostContiguous(acc, s) && acc.queue == map[]
    ensures Contiguous(acc, s)
  {}

  // ---------- queueing and replacing ----------

  function Queued(acc: Account, tx: Tx): (r: Account)
  {
    acc.(queue := acc.queue[tx.nonce := tx])
  }

  function Replaced(acc: Account, tx: Tx): (r: Account)
  {
    acc.(pend := acc.pend[tx.nonce := tx])
  }

  lemma QueuedHolds(acc: Account, a: Addr, tx: Tx)
    requires Sane(acc, a) && tx.from == a && tx.nonce !in acc.pend
    ensures Sane(Queued(acc, tx), a)
    ensures forall t :: Holds(Queued(acc, tx), t) <==>
              t == tx || (Holds(acc, t) && !(tx.nonce in acc.queue && t == acc.queue[tx.nonce]))
  {}

  lemma ReplacedHolds(acc: Account, a: Addr, tx: Tx)
    requires Sane(acc, a) && tx.from == a && tx.nonce in acc.pend
    ensures Sane(Replaced(acc, tx), a)
    ensures forall t :: Holds(Replaced(acc, tx), t) <==> t == tx || (Holds(acc, t) && t != acc.pend[tx.nonce])
  {}

  lemma QueuedContiguous(acc: Account, tx: Tx, s: nat)
    requires AlmostContiguous(acc, s) && tx.nonce >= s && tx.nonce !in acc.pend
    ensures AlmostContiguous(Queued(acc, tx), s)
    ensures Contiguous(acc, s) && tx.nonce in acc.queue ==> Contiguous(Queued(acc, tx), s)
  {}

  lemma ReplacedContiguous(acc: Account, tx: Tx, s: nat)
    requires tx.nonce in acc.pend
    ensures AlmostContiguous(acc, s) ==> AlmostContiguous(Replaced(acc, tx), s)
    ensures Contiguous(acc, s) ==> Contiguous(Replaced(acc, tx), s)
  {
    assert Replaced(acc, tx).pend.Keys == acc.pend.Keys;
  }

  // ---------- removing ----------

  /** Removal of an executable transaction sends everything behind it back to the queue. */
  function Removed(acc: Account, nonce: nat): (r: Account)
  {
    if nonce in acc.pend then
      var behind := Above(acc.pend, nonce);
      Account(acc.pend - {nonce} - behind, acc.queue + Sub(acc.pend, behind),
              if acc.vnonce > nonce then nonce else acc.vnonce)
    else
      acc.(queue := acc.queue - {nonce})
  }

  /** Exactly the removed transaction leaves the account. */
  lemma RemovedHolds(acc: Account, a: Addr, tx: Tx)
    requires Sane(acc, a) && Holds(acc, tx)
    ensures Sane(Removed(acc, tx.nonce), a)
    ensures forall t :: Holds(Removed(acc, tx.nonce), t) <==> Holds(acc, t) && t != tx
  {}

  lemma RemovedContiguous(acc: Account, nonce: nat, s: nat)
    ensures AlmostContiguous(acc, s) ==> AlmostContiguous(Removed(acc, nonce), s)
    ensures Contiguous(acc, s) ==> Contiguous(Removed(acc, nonce), s)
  {
    var r := Removed(acc, nonce);
    if nonce in acc.pend {
      assert forall n :: n in r.pend <==> n in acc.pend && n < nonce;
    }
  }

  // ---------- promotion ----------

  /** Queue without low nonces and unpayable transactions. */
  function Usable(acc: Account, s: nat, balance: int, maxGas: nat): (q: TxMap)
    ensures SubMap(acc.queue, q)
  {
    var q := acc.queue - Below(acc.queue, s);
    q - Unpayable(q, balance, maxGas)
  }

  /** What `promoteExecutables` does to one account. */
  function Promoted(acc: Account, s: nat, balance: int, maxGas: nat, isLocal: bool, cap: nat): (r: Account)
  {
    var q := Usable(acc, s, balance, maxGas);
    var run := ReadyKeys(q, acc.vnonce);
    var rest := q - run;
    Account(acc.pend + Sub(q, run), if isLocal then rest else CapTo(rest, cap),
            if run == {} then acc.vnonce else MaxOf(run) + 1)
  }

  lemma ReadyRun(q: TxMap, v: nat)
    requires forall n :: n in q ==> n >= v
    ensures var run := ReadyKeys(q, v);
            var e := if run == {} then v else MaxOf(run) + 1;
            && v <= e && IsInterval(run, v, e) && (forall n :: n in q && n !in run ==> n > e)
  {
    var run := ReadyKeys(q, v);
    if |q| != 0 && MinOf(q.Keys) <= v {
      var e := RunEnd(q, v);
      assert run == set n | n in q && v <= n < e;
      assert e - 1 in run;
      assert MaxOf(run) == e - 1;
    }
  }

  lemma PromotedContiguous(acc: Account, s: nat, balance: int, maxGas: nat, isLocal: bool, cap: nat)
    requires AlmostContiguous(acc, s)
    ensures Contiguous(Promoted(acc, s, balance, maxGas, isLocal, cap), s)
  {
    hide CapTo, ReadyKeys, Usable, Contiguous, AlmostContiguous;
    var q := Usable(acc, s, balance, maxGas);
    UsableFrom(acc, s, balance, maxGas);
    var run := ReadyKeys(q, acc.vnonce);
    ReadyRun(q, acc.vnonce);
    var r := Promoted(acc, s, balance, maxGas, isLocal, cap);
    MovedContiguous(acc, s, q, run, r.queue, r.vnonce);
  }

  lemma UsableFrom(acc: Account, s: nat, balance: int, maxGas: nat)
    requires AlmostContiguous(acc, s)
    ensures forall n :: n in Usable(acc, s, balance, maxGas) ==> n >= acc.vnonce
  {}

  lemma MovedContiguous(acc: Account, s: nat, q: TxMap, run: set<nat>, kept: TxMap, e: nat)
    requires AlmostContiguous(acc, s) && acc.vnonce <= e && IsInterval(run, acc.vnonce, e)
    requires run <= q.Keys && SubMap(q - run, kept) && forall n :: n in q && n !in run ==> n > e
    ensures Contiguous(Account(acc.pend + Sub(q, run), kept, e), s)
  {}

  /** The steps of a promotion in the order in which the code takes them: nonces dropped as too
      low, dropped for cost or gas, made executable, dropped over the cap, and the list left. */
  datatype Plan = Plan(low: set<nat>, unpayable: set<nat>, run: set<nat>, over: set<nat>, list: TxList)

  function PlanFor(l: TxList, v: nat, s: nat, balance: int, maxGas: nat, isLocal: bool, cap: nat): (p: Plan)
  {
    var low := Below(l.txs, s);
    var f := Filter(l.(txs := l.txs - low), balance, maxGas);
    var run := ReadyKeys(f.list.txs, v);
    var rest := f.list.txs - run;
    var kept := if isLocal then rest else CapTo(rest, cap);
    Plan(low, f.removed, run, rest.Keys - kept.Keys, f.list.(txs := kept))
  }

  /** The early stop of `Filter` does not show in a promotion. */
  lemma PlanUsable(l: TxList, acc: Account, s: nat, balance: int, maxGas: nat)
    requires Capped(l) && !l.strict && l.txs == acc.queue
    ensures var l1 := l.(txs := l.txs - Below(l.txs, s));
            var f := Filter(l1, balance, maxGas);
            && Capped(f.list) && !f.list.strict && f.removed == Unpayable(l1.txs, balance, maxGas)
            && f.list.txs == Usable(acc, s, balance, maxGas)
            && l1.txs.Keys == f.removed + f.list.txs.Keys && f.removed !! f.list.txs.Keys
  {
    var l1 := l.(txs := l.txs - Below(l.txs, s));
    FewerCapped(l, Below(l.txs, s));
    FilterPartitions(l1, balance, maxGas);
    EarlyStop(l1, balance, maxGas);
    assert l1.txs - Unpayable(l1.txs, balance, maxGas) - {} == l1.txs - Unpayable(l1.txs, balance, maxGas);
  }

  lemma PlanShape(l: TxList, acc: Account, s: nat, balance: int, maxGas: nat, isLocal: bool, cap: nat)
    requires Capped(l) && !l.strict && l.txs == acc.queue
    ensures var p := PlanFor(l, acc.vnonce, s, balance, maxGas, isLocal, cap);
            Capped(p.list) && !p.list.strict && Parted(acc.queue, p)
  {
    hide CapTo, ReadyKeys, Filter, Capped, Usable, Unpayable, Parted, Below, Sub, SubMap;
    PlanUsable(l, acc, s, balance, maxGas);
    var q := Usable(acc, s, balance, maxGas);
    var p := PlanFor(l, acc.vnonce, s, balance, maxGas, isLocal, cap);
    SubMapCap(q - p.run, cap);
    PartedBy(acc.queue, q, p);
    SubCapped(Filter(l.(txs := l.txs - Below(l.txs, s)), balance, maxGas).list, p.run, p.list.txs);
  }

  lemma PlanRun(l: TxList, acc: Account, s: nat, balance: int, maxGas: nat, isLocal: bool, cap: nat)
    requires Capped(l) && !l.strict && l.txs == acc.queue
    ensures var p, q := PlanFor(l, acc.vnonce, s, balance, maxGas, isLocal, cap), Usable(acc, s, balance, maxGas);
            && p.run == ReadyKeys(q, acc.vnonce)
            && p.list.txs == if isLocal then q - p.run else CapTo(q - p.run, cap)
  {
    hide CapTo, ReadyKeys, Filter, Capped, Usable, Unpayable, Below, Sub, SubMap;
    PlanUsable(l, acc, s, balance, maxGas);
  }

  /** The plan carried out step by step is the promotion. */
  lemma PlanPromotes(l: TxList, acc: Account, s: nat, balance: int, maxGas: nat, isLocal: bool, cap: nat)
    requires Capped(l) && !l.strict && l.txs == acc.queue
    ensures var p, r := PlanFor(l, acc.vnonce, s, balance, maxGas, isLocal, cap),
              Promoted(acc, s, balance, maxGas, isLocal, cap);
            && r.pend == acc.pend + Sub(acc.queue, p.run) && r.queue == p.list.txs
            && r.vnonce == (if p.run == {} then acc.vnonce else MaxOf(p.run) + 1)
  {
    hide CapTo, ReadyKeys, PlanFor, Capped, Usable, Sub, SubMap;
    PlanRun(l, acc, s, balance, maxGas, isLocal, cap);
    SubOfSub(acc.queue, Usable(acc, s, balance, maxGas), PlanFor(l, acc.vnonce, s, balance, maxGas, isLocal, cap).run);
  }

  lemma SubMapCap(m: TxMap, cap: nat)
    ensures SubMap(m, m) && SubMap(m, CapTo(m, cap))
  {}

  lemma SubOfSub(m: TxMap, q: TxMap, ks: set<nat>)
    requires SubMap(m, q) && ks <= q.Keys
    ensures Sub(m, ks) == Sub(q, ks)
  {}

  lemma SubCapped(l: TxList, run: set<nat>, kept: TxMap)
    requires Capped(l) && SubMap(l.txs - run, kept)
    ensures Capped(l.(txs := kept))
  {}

  lemma PartedBy(queue: TxMap, q: TxMap, p: Plan)
    requires p.low <= queue.Keys && (queue - p.low).Keys == p.unpayable + q.Keys && p.unpayable !! q.Keys
    requires SubMap(queue, q)
    requires p.run <= q.Keys && SubMap(q - p.run, p.list.txs) && p.over == (q - p.run).Keys - p.list.txs.Keys
    ensures Parted(queue, p)
  {}

  ghost predicate Parted(q: TxMap, p: Plan)
  {
    && q.Keys == p.low + p.unpayable + p.run + p.over + p.list.txs.Keys
    && p.low !! p.unpayable !! p.run !! p.over !! p.list.txs.Keys
    && SubMap(q, p.list.txs)
  }

  function Dropped(q: TxMap, p: Plan): (s: set<Tx>)
    requires p.low <= q.Keys && p.unpayable <= q.Keys && p.over <= q.Keys
  {
    Pick(q, p.low) + Pick(q, p.unpayable) + Pick(q, p.over)
  }

  /** What a promotion drops is all that the account loses. */
  lemma PlanHolds(acc: Account, a: Addr, p: Plan, v: nat)
    requires Sane(acc, a) && Parted(acc.queue, p)
    ensures var r := Account(acc.pend + Sub(acc.queue, p.run), p.list.txs, v);
            && Sane(r, a)
            && (forall t :: Holds(r, t) <==> Holds(acc, t) && t !in Dropped(acc.queue, p))
            && (forall t :: t in Dropped(acc.queue, p) ==> t.from == a)
            && (forall n :: n in p.run ==> acc.queue[n] !in Dropped(acc.queue, p))
  {
    forall t ensures t in Dropped(acc.queue, p) <==> Has(acc.queue, t) && t.nonce in p.low + p.unpayable + p.over {
    }
  }

  // ---------- demotion ----------

  /** Executable transactions without low nonces, as a strict list to be filtered. */
  function Kept(acc: Account, s: nat, balance: int, maxGas: nat): (f: Filtering)
  {
    FullFilter(TxList(true, acc.pend - Below(acc.pend, s), 0, 0), balance, maxGas)
  }

  /** What `demoteUnexecutables` does to one account. */
  function Demoted(acc: Account, s: nat, balance: int, maxGas: nat): (r: Account)
  {
    var f := Kept(acc, s, balance, maxGas);
    if |f.list.txs| > 0 && s !in f.list.txs then SentBack(acc, map[], f.invalid + f.list.txs.Keys)
    else SentBack(acc, f.list.txs, f.invalid)
  }

  function SentBack(acc: Account, kept: TxMap, back: set<nat>): (r: Account)
  {
    acc.(pend := kept, queue := acc.queue + Sub(acc.pend, back))
  }

  lemma SentBackHolds(acc: Account, a: Addr, kept: TxMap, back: set<nat>)
    requires Sane(acc, a) && SubMap(acc.pend, kept) && back <= acc.pend.Keys && back !! kept.Keys
    ensures var r := SentBack(acc, kept, back);
            && Sane(r, a)
            && forall t :: Holds(r, t) <==>
                 Has(acc.queue, t) || (Has(acc.pend, t) && (t.nonce in kept || t.nonce in back))
  {}

  lemma KeptParts(acc: Account, s: nat, balance: int, maxGas: nat)
    ensures var f := Kept(acc, s, balance, maxGas);
            && SubMap(acc.pend, f.list.txs) && f.invalid <= acc.pend.Keys && f.invalid !! f.list.txs.Keys
            && forall n :: n in f.list.txs || n in f.invalid <==>
                 n in acc.pend && n >= s && acc.pend[n].Cost() <= balance && acc.pend[n].gas <= maxGas
  {
    hide MinOf;
    var p := acc.pend - Below(acc.pend, s);
    var f := Kept(acc, s, balance, maxGas);
    assert f.removed == Unpayable(p, balance, maxGas);
    assert f.list.txs == p - f.removed - f.invalid;
  }

  /** Demotion loses nothing but the executable transactions that are too old or unpayable. */
  lemma DemotedHolds(acc: Account, a: Addr, s: nat, balance: int, maxGas: nat)
    requires Sane(acc, a)
    ensures var r := Demoted(acc, s, balance, maxGas);
            && Sane(r, a)
            && forall t :: Holds(r, t) <==>
                 Holds(acc, t) && !(Has(acc.pend, t) && (t.nonce < s || t.Cost() > balance || t.gas > maxGas))
  {
    hide Kept, SentBack, Sane;
    var f := Kept(acc, s, balance, maxGas);
    KeptParts(acc, s, balance, maxGas);
    if |f.list.txs| > 0 && s !in f.list.txs {
      SentBackHolds(acc, a, map[], f.invalid + f.list.txs.Keys);
    } else {
      SentBackHolds(acc, a, f.list.txs, f.invalid);
    }
    SaneApart(acc, a);
  }

  lemma SaneApart(acc: Account, a: Addr)
    requires Sane(acc, a)
    ensures forall t :: !(Has(acc.pend, t) && Has(acc.queue, t))
  {}

  /** The virtual nonce after a reset: behind the last executable transaction, if there is one. */
  function Renumbered(acc: Account): (r: Account)
  {
    acc.(vnonce := if |acc.pend| == 0 then acc.vnonce else MaxOf(acc.pend.Keys) + 1)
  }

  // ---------- order after a new head ----------

  predicate Affordable(t: Tx, balance: int, maxGas: nat)
  {
    t.Cost() <= balance && t.gas <= maxGas
  }

  /** An executable transaction that a demotion keeps as long as there is no gap in front. */
  predicate Stays(pend: TxMap, s: nat, balance: int, maxGas: nat, m: nat)
  {
    m in pend && s <= m && forall n :: n in pend && s <= n <= m ==> Affordable(pend[n], balance, maxGas)
  }

  /** What an account must look like before demotion and promotion at state nonce s for its
      executable nonces to be without gaps afterwards. */
  ghost predicate Settled(acc: Account, s: nat, balance: int, maxGas: nat)
  {
    if Stays(acc.pend, s, balance, maxGas, s) then
      forall m, n: nat :: Stays(acc.pend, s, balance, maxGas, m) && s <= n < m ==> n in acc.pend
    else
      acc.vnonce == s || (acc.vnonce > s && s in acc.queue && Affordable(acc.queue[s], balance, maxGas))
  }

  lemma KeptStays(acc: Account, s: nat, balance: int, maxGas: nat)
    ensures var f := Kept(acc, s, balance, maxGas);
            && (forall n: nat :: n in f.list.txs <==> Stays(acc.pend, s, balance, maxGas, n))
            && s !in f.invalid
  {
    hide MinOf;
    var p := acc.pend - Below(acc.pend, s);
    var f := Kept(acc, s, balance, maxGas);
    assert f.removed == Unpayable(p, balance, maxGas);
    assert f.list.txs == p - f.removed - f.invalid;
    forall n: nat ensures n in f.list.txs <==> Stays(acc.pend, s, balance, maxGas, n) {
      StaysUnless(acc.pend, s, balance, maxGas, f.removed, n);
    }
  }

  lemma StaysUnless(pend: TxMap, s: nat, balance: int, maxGas: nat, removed: set<nat>, n: nat)
    requires forall k :: k in removed <==> k in pend && k >= s && !Affordable(pend[k], balance, maxGas)
    ensures Stays(pend, s, balance, maxGas, n) <==>
              n in pend && n >= s && n !in removed && (removed == {} || n <= MinOf(removed))
  {
    hide Affordable;
  }

  /** The account after a demotion, when the next nonce is among those kept and when it is not. */
  lemma DemotedCases(acc: Account, s: nat, balance: int, maxGas: nat)
    ensures var d := Demoted(acc, s, balance, maxGas);
            && d.vnonce == acc.vnonce
            && if Stays(acc.pend, s, balance, maxGas, s) then
                 forall n :: n in d.pend <==> Stays(acc.pend, s, balance, maxGas, n)
               else
                 && d.pend == map[]
                 && (s in d.queue && Affordable(d.queue[s], balance, maxGas) <==>
                       s in acc.queue && Affordable(acc.queue[s], balance, maxGas))
  {
    hide Kept, Stays, Affordable;
    KeptStays(acc, s, balance, maxGas);
    KeptParts(acc, s, balance, maxGas);
  }

  /** Executable nonces up to the highest one are all there. */
  ghost predicate NoGap(pend: TxMap, s: nat)
  {
    forall m, n: nat :: m in pend && s <= n < m ==> n in pend
  }

  /** After demotion and promotion the executable nonces are without gaps exactly if the account
      was settled. */
  lemma SettledExactly(acc: Account, a: Addr, s: nat, balance: int, maxGas: nat, isLocal: bool, cap: nat)
    requires Sane(acc, a)
    ensures var r := Promoted(Renumbered(Demoted(acc, s, balance, maxGas)), s, balance, maxGas, isLocal, cap);
            && (Settled(acc, s, balance, maxGas) ==> Contiguous(r, s))
            && (s <= r.vnonce && Range(r.pend, s, r.vnonce) ==> Settled(acc, s, balance, maxGas))
  {
    hide Promoted, Demoted, Affordable, Contiguous, Renumbered, NoGap, Sane, Range;
    var d := Demoted(acc, s, balance, maxGas);
    DemotedCases(acc, s, balance, maxGas);
    DemotedHolds(acc, a, s, balance, maxGas);
    if Stays(acc.pend, s, balance, maxGas, s) {
      SettledGap(acc, d, s, balance, maxGas);
      KeptOrder(d, a, s, balance, maxGas, isLocal, cap);
    } else {
      EmptyOrder(d, s, balance, maxGas, isLocal, cap);
    }
  }

  lemma SettledGap(acc: Account, d: Account, s: nat, balance: int, maxGas: nat)
    requires Stays(acc.pend, s, balance, maxGas, s)
    requires forall n :: n in d.pend <==> Stays(acc.pend, s, balance, maxGas, n)
    ensures Settled(acc, s, balance, maxGas) <==> NoGap(d.pend, s)
  {
    hide Affordable;
    if Settled(acc, s, balance, maxGas) {
      forall m, n: nat | m in d.pend && s <= n < m ensures n in d.pend {
        assert Stays(acc.pend, s, balance, maxGas, n);
      }
    }
    if NoGap(d.pend, s) {
      forall m, n: nat | Stays(acc.pend, s, balance, maxGas, m) && s <= n < m ensures n in acc.pend {
        assert n in d.pend;
      }
    }
  }

  lemma ReadySpan(q: TxMap, v: nat)
    requires |q| != 0 && MinOf(q.Keys) <= v
    ensures var run := ReadyKeys(q, v);
            && run != {} && MinOf(q.Keys) <= MaxOf(run)
            && (forall n :: n in run <==> MinOf(q.Keys) <= n <= MaxOf(run))
            && (forall n :: n in q && n !in run ==> n > MaxOf(run) + 1)
  {
    hide MinOf;
    var run, e := ReadyKeys(q, v), RunEnd(q, MinOf(q.Keys));
    assert e - 1 in run;
    assert MaxOf(run) == e - 1;
  }

  lemma SubKeys(m: TxMap, q: TxMap, ks: set<nat>)
    ensures ks <= q.Keys ==> (m + Sub(q, ks)).Keys == m.Keys + ks
    ensures ks == {} ==> m + Sub(q, ks) == m
  {}

  /** What a promotion makes executable: nothing, or a stretch from the lowest usable nonce on. */
  lemma PromotedSpan(x: Account, s: nat, balance: int, maxGas: nat, isLocal: bool, cap: nat)
    ensures var q, r := Usable(x, s, balance, maxGas), Promoted(x, s, balance, maxGas, isLocal, cap);
            if |q| == 0 || MinOf(q.Keys) > x.vnonce then r.pend == x.pend && r.vnonce == x.vnonce
            else
              && MinOf(q.Keys) < r.vnonce
              && r.pend.Keys == x.pend.Keys + ReadyKeys(q, x.vnonce)
              && (forall n :: n in ReadyKeys(q, x.vnonce) <==> MinOf(q.Keys) <= n < r.vnonce)
              && (forall n :: n in r.queue ==> n > r.vnonce)
  {
    hide CapTo, Usable, MinOf, MaxOf, Sub, ReadyKeys;
    var q := Usable(x, s, balance, maxGas);
    SubKeys(x.pend, q, ReadyKeys(q, x.vnonce));
    if |q| != 0 && MinOf(q.Keys) <= x.vnonce {
      ReadySpan(q, x.vnonce);
    } else {
      NotReady(q, x.vnonce);
    }
  }

  lemma NotReady(q: TxMap, v: nat)
    requires |q| == 0 || MinOf(q.Keys) > v
    ensures ReadyKeys(q, v) == {}
  {}

  lemma KeptOrder(d: Account, a: Addr, s: nat, balance: int, maxGas: nat, isLocal: bool, cap: nat)
    requires Sane(d, a) && s in d.pend && forall n :: n in d.pend ==> n >= s
    ensures var r := Promoted(Renumbered(d), s, balance, maxGas, isLocal, cap);
            && (NoGap(d.pend, s) ==> Contiguous(r, s))
            && (s <= r.vnonce && Range(r.pend, s, r.vnonce) ==> NoGap(d.pend, s))
  {
    hide Promoted, Usable, Contiguous, MinOf, ReadyKeys;
    var x, top := Renumbered(d), MaxOf(d.pend.Keys);
    if NoGap(d.pend, s) {
      assert top in d.pend && AlmostContiguous(x, s);
      PromotedContiguous(x, s, balance, maxGas, isLocal, cap);
    }
    PromotedSpan(x, s, balance, maxGas, isLocal, cap);
    assert top !in Usable(x, s, balance, maxGas);
  }

  lemma EmptyOrder(d: Account, s: nat, balance: int, maxGas: nat, isLocal: bool, cap: nat)
    requires d.pend == map[]
    ensures var r := Promoted(Renumbered(d), s, balance, maxGas, isLocal, cap);
            var fine := d.vnonce == s || (d.vnonce > s && s in d.queue && Affordable(d.queue[s], balance, maxGas));
            && (fine ==> Contiguous(r, s))
            && (s <= r.vnonce && Range(r.pend, s, r.vnonce) ==> fine)
  {
    hide Promoted, MinOf, Usable, ReadyKeys;
    var q := Usable(d, s, balance, maxGas);
    UsableNext(d, s, balance, maxGas);
    assert Renumbered(d) == d;
    if d.vnonce == s {
      PromotedContiguous(d, s, balance, maxGas, isLocal, cap);
    }
    PromotedSpan(d, s, balance, maxGas, isLocal, cap);
    var r := Promoted(d, s, balance, maxGas, isLocal, cap);
    assert s in r.pend ==> s in q;
  }

  lemma UsableNext(d: Account, s: nat, balance: int, maxGas: nat)
    ensures forall n :: n in Usable(d, s, balance, maxGas) ==> n >= s
    ensures s in Usable(d, s, balance, maxGas) <==> s in d.queue && Affordable(d.queue[s], balance, maxGas)
  {}

  /** A gap-free account is settled at any new head. */
  lemma ContiguousSettled(acc: Account, s0: nat, s: nat, balance: int, maxGas: nat)
    requires Contiguous(acc, s0)
    ensures Settled(acc.(vnonce := s), s, balance, maxGas)
  {
    hide Affordable;
  }

  function Sample(a: Addr, n: nat, price: nat, gas: nat): (t: Tx)
  {
    Tx(a, true, n, price, gas, 0, [], false, 0)
  }

  /** An account with executable nonces 5, 6 and 7 goes back to state nonce 3, and of the two
      transactions in front the pool takes only the first: the result has a gap. */
  lemma GapExample(a: Addr, price: nat, gas: nat, balance: nat)
    requires price * gas <= balance
    ensures var t3, t5, t6, t7 :=
              Sample(a, 3, price, gas), Sample(a, 5, price, gas), Sample(a, 6, price, gas), Sample(a, 7, price, gas);
            var before := Account(map[5 := t5, 6 := t6, 7 := t7], map[], 8);
            var low := Promoted(Queued(before.(vnonce := 3), t3), 3, balance, gas, false, 64);
            var r := Promoted(Renumbered(Demoted(low, 3, balance, gas)), 3, balance, gas, false, 64);
            && Contiguous(before, 5) && low.pend.Keys == {3, 5, 6, 7}
            && !Settled(low, 3, balance, gas) && !Contiguous(r, 3)
  {
    hide Promoted, Demoted, Renumbered, ReadyKeys;
    var t3, t5, t6, t7 :=
      Sample(a, 3, price, gas), Sample(a, 5, price, gas), Sample(a, 6, price, gas), Sample(a, 7, price, gas);
    var x := Account(map[5 := t5, 6 := t6, 7 := t7], map[3 := t3], 3);
    assert Queued(x.(queue := map[]), t3) == x;
    OneUsable(x, t3, balance, gas);
    var low := Promoted(x, 3, balance, gas, false, 64);
    assert low == Account(map[3 := t3, 5 := t5, 6 := t6, 7 := t7], map[], 4);
    assert Stays(low.pend, 3, balance, gas, 3) && Stays(low.pend, 3, balance, gas, 5);
    assert 4 !in low.pend;
    SettledExactly(low, a, 3, balance, gas, false, 64);
  }

  lemma OneUsable(x: Account, t: Tx, balance: nat, gas: nat)
    requires x.queue == map[t.nonce := t] && x.vnonce == t.nonce && Affordable(t, balance, gas)
    ensures Promoted(x, t.nonce, balance, gas, false, 64) == Account(x.pend[t.nonce := t], map[], t.nonce + 1)
  {
    hide CapTo, ReadyKeys, MinOf, Usable, MaxOf, Sub;
    var n, q := t.nonce, Usable(x, t.nonce, balance, gas);
    assert q == map[n := t] by {
      UsableNext(x, n, balance, gas);
    }
    ReadySpan(q, n);
    assert ReadyKeys(q, n) == {n};
    OneLeft(x.pend, n, t);
  }

  lemma OneLeft(m: TxMap, n: nat, t: Tx)
    ensures map[n := t] - {n} == map[] && CapTo(map[], 64) == map[] && m + Sub(map[n := t], {n}) == m[n := t]
  {}

  /** The steps of a demotion: nonces dropped as too low, dropped for cost or gas, sent back
      behind those, sent back because there is a gap in front, and the list left. */
  datatype Demotion = Demotion(low: set<nat>, unpayable: set<nat>, behind: set<nat>, stuck: set<nat>, list: TxList)

  function DemotionFor(l: TxList, s: nat, balance: int, maxGas: nat): (d: Demotion)
  {
    var low := Below(l.txs, s);
    var f := Filter(l.(txs := l.txs - low), balance, maxGas);
    if |f.list.txs| > 0 && s !in f.list.txs then
      Demotion(low, f.removed, f.invalid, f.list.txs.Keys, f.list.(txs := map[]))
    else
      Demotion(low, f.removed, f.invalid, {}, f.list)
  }

  ghost predicate DemotionParted(m: TxMap, d: Demotion)
  {
    && m.Keys == d.low + d.unpayable + d.behind + d.stuck + d.list.txs.Keys
    && d.low !! d.unpayable !! d.behind !! d.stuck !! d.list.txs.Keys
    && SubMap(m, d.list.txs)
  }

  /** Filtering behind the low nonces, whether or not it stops early, is what `Kept` says. */
  lemma DemotionKept(l: TxList, acc: Account, s: nat, balance: int, maxGas: nat)
    requires Capped(l) && l.strict && l.txs == acc.pend
    ensures var f, k := Filter(l.(txs := l.txs - Below(l.txs, s)), balance, maxGas), Kept(acc, s, balance, maxGas);
            && Capped(f.list) && f.list.strict && f.removed == k.removed && f.invalid == k.invalid
            && f.list.txs == k.list.txs
            && (l.txs - Below(l.txs, s)).Keys == f.removed + f.invalid + f.list.txs.Keys
            && f.removed !! f.invalid !! f.list.txs.Keys
            && SubMap(l.txs, f.list.txs)
  {
    var l1 := l.(txs := l.txs - Below(l.txs, s));
    FewerCapped(l, Below(l.txs, s));
    FilterPartitions(l1, balance, maxGas);
    EarlyStop(l1, balance, maxGas);
  }

  lemma DemotionShape(l: TxList, acc: Account, s: nat, balance: int, maxGas: nat)
    requires Capped(l) && l.strict && l.txs == acc.pend
    ensures var d := DemotionFor(l, s, balance, maxGas);
            Capped(d.list) && d.list.strict && DemotionParted(acc.pend, d)
  {
    hide Filter, Kept, Capped, Below, DemotionParted, SubMap, Sub;
    DemotionKept(l, acc, s, balance, maxGas);
    var f := Filter(l.(txs := l.txs - Below(l.txs, s)), balance, maxGas);
    NoneCapped(f.list);
    DemotionPartedBy(l.txs, Below(l.txs, s), f);
  }

  /** The steps carried out one by one are the demotion. */
  lemma DemotionDemotes(l: TxList, acc: Account, s: nat, balance: int, maxGas: nat)
    requires Capped(l) && l.strict && l.txs == acc.pend
    ensures var d, r := DemotionFor(l, s, balance, maxGas), Demoted(acc, s, balance, maxGas);
            && r.pend == d.list.txs && r.queue == acc.queue + Sub(acc.pend, d.behind) + Sub(acc.pend, d.stuck)
            && r.vnonce == acc.vnonce
  {
    hide Filter, Kept, Capped, Below, SubMap, Sub;
    DemotionKept(l, acc, s, balance, maxGas);
    var f := Filter(l.(txs := l.txs - Below(l.txs, s)), balance, maxGas);
    if |f.list.txs| > 0 && s !in f.list.txs {
      SubJoin(acc.queue, acc.pend, f.invalid, f.list.txs.Keys);
    } else {
      SubJoin(acc.queue, acc.pend, f.invalid, {});
      assert f.invalid + {} == f.invalid;
    }
  }

  lemma NoneCapped(l: TxList)
    requires Capped(l)
    ensures Capped(l.(txs := map[]))
  {}

  lemma SubJoin(q: TxMap, m: TxMap, x: set<nat>, y: set<nat>)
    ensures q + Sub(m, x + y) == q + Sub(m, x) + Sub(m, y)
  {}

  lemma DemotionPartedBy(m: TxMap, low: set<nat>, f: Filtering)
    requires low <= m.Keys && (m - low).Keys == f.removed + f.invalid + f.list.txs.Keys
    requires f.removed !! f.invalid !! f.list.txs.Keys && SubMap(m, f.list.txs)
    ensures DemotionParted(m, Demotion(low, f.removed, f.invalid, f.list.txs.Keys, f.list.(txs := map[])))
    ensures DemotionParted(m, Demotion(low, f.removed, f.invalid, {}, f.list))
  {}

  /** What a demotion drops is all that the account loses. */
  lemma DemotionHolds(acc: Account, a: Addr, d: Demotion, v: nat)
    requires Sane(acc, a) && DemotionParted(acc.pend, d)
    ensures var r := Account(d.list.txs, acc.queue + Sub(acc.pend, d.behind) + Sub(acc.pend, d.stuck), v);
            && Sane(r, a)
            && forall t :: Holds(r, t) <==>
                 Holds(acc, t) && t !in Pick(acc.pend, d.low) && t !in Pick(acc.pend, d.unpayable)
  {
    forall t ensures t in Pick(acc.pend, d.low) <==> Has(acc.pend, t) && t.nonce in d.low {
    }
    forall t ensures t in Pick(acc.pend, d.unpayable) <==> Has(acc.pend, t) && t.nonce in d.unpayable {
    }
  }

  // ---------- the fair-share cut ----------

  /** The account without its highest executable transaction. */
  function Capped1(acc: Account): (r: Account)
    requires |acc.pend| > 0
  {
    var top := MaxOf(acc.pend.Keys);
    Account(acc.pend - {top}, acc.queue, if acc.vnonce > top then top else acc.vnonce)
  }

  lemma Capped1Contiguous(acc: Account, s: nat)
    requires |acc.pend| > 0 && Contiguous(acc, s)
    ensures Contiguous(Capped1(acc), s)
  {
    assert acc.vnonce - 1 in acc.pend;
    assert MaxOf(acc.pend.Keys) == acc.vnonce - 1;
  }
}
