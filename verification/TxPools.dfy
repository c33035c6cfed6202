/** The transaction pool of core/tx_pool.go. Executable and queued lists, the lookup of all
    transactions, the price heap and the virtual nonces are changed by every operation and
    have to agree at the end of each. */
module TxPools {
  import opened Basics
  import opened TxMaps
  import opened TxSorted
  import opened TxLists
  import opened TxAccounts
  import opened TxPriced
  import opened TxBooks
  import opened TxLimits
  import opened TxChecks
  import opened TxTrail
  import opened Sums
  import FairShare

  class TxPool {
    const config: Config
    const priced: PricedList
    var env: Env
    var gasPrice: nat
    var locals: set<Addr>
    var pending: Lists
    var queue: Lists
    var beats: map<Addr, nat>
    var all: set<Tx>
    var vnonce: map<Addr, nat>   // virtual nonces that differ from the state

    constructor (config: Config, env: Env)
      ensures Valid() && Contig() && all == {} && locals == {} && this.env == env && fresh(priced)
      ensures this.config == Sanitized(config) && gasPrice == this.config.priceLimit
    {
      this.config, this.env, this.gasPrice := Sanitized(config), env, Sanitized(config).priceLimit;
      priced := new PricedList();
      locals, beats := {}, map[];
      pending, queue, all, vnonce := map[], map[], {}, map[];
    }

    ghost function View(a: Addr): (acc: Account)
      reads this`pending, this`queue, this`vnonce, this`env
    {
      AccountOf(pending, queue, vnonce, env, a)
    }

    /** Account a looks like this. */
    ghost predicate At(a: Addr, acc: Account)
      reads this`pending, this`queue, this`vnonce, this`env
    {
      Txs(pending, a) == acc.pend && Txs(queue, a) == acc.queue && NonceOf(vnonce, env, a) == acc.vnonce
    }

    ghost predicate Shaped()
      reads this`pending, this`queue, priced
    {
      priced.Valid() && WellFormed(pending, true) && WellFormed(queue, false)
    }

    ghost predicate Valid()
      reads this`pending, this`queue, this`all, priced
    {
      Shaped() && Agree(pending, queue, all) && Bare(all, priced.items) == {}
    }

    /** All accounts are in order, up to those that have yet to be promoted. */
    ghost predicate Neat(loose: set<Addr>)
      reads this`pending, this`queue, this`vnonce, this`env
    {
      Tidy(pending, queue, vnonce, env, loose)
    }

    ghost predicate Contig()
      reads this`pending, this`queue, this`vnonce, this`env
    {
      Neat({})
    }

    ghost function Now(): (s: Snap)
      reads this
    {
      Snap(pending, queue, vnonce, all, beats, locals, env, gasPrice)
    }

    // ---------- single transactions ----------

    /** Takes a transaction out of the lookup and tells the price heap. */
    method Strike(tx: Tx)
      requires priced.Valid()
      modifies this`all, priced
      ensures priced.Valid() && all == old(all) - {tx} && Bare(all, priced.items) <= old(Bare(all, priced.items))
    {
      all := all - {tx};
      priced.Removed(all);
    }

    /** Enters a transaction in the lookup and the price heap unless it is there. */
    method Enter(tx: Tx)
      requires priced.Valid()
      modifies this`all, priced
      ensures priced.Valid() && all == old(all) + {tx} && Bare(all, priced.items) <= old(Bare(all, priced.items))
    {
      if tx !in all {
        all := all + {tx};
        priced.Put(tx);
      }
    }

    /** Forgets transactions that have already been taken out of their list. */
    method Forget(txs: set<Tx>)
      requires priced.Valid()
      modifies this`all, priced
      ensures priced.Valid() && all == old(all) - txs && Bare(all, priced.items) <= old(Bare(all, priced.items))
    {
      hide Bare, PricedList.Valid;
      var left := txs;
      while left != {}
        invariant priced.Valid() && left <= txs && all == old(all) - (txs - left)
        invariant Bare(all, priced.items) <= old(Bare(all, priced.items))
        decreases left
      {
        var tx :| tx in left;
        left := left - {tx};
        Strike(tx);
      }
    }

    /** `enqueueTx`: tries to put a transaction into its account's queue. */
    method EnqueueTx(tx: Tx) returns (ok: bool, replaced: bool)
      requires Shaped()
      modifies this`queue, this`all, priced
      ensures Shaped() && Bare(all, priced.items) <= old(Bare(all, priced.items))
      ensures ok == Accepts(ListAt(old(queue), tx.from, false), tx, config.priceBump)
      ensures replaced == (ok && tx.nonce in Txs(old(queue), tx.from))
      ensures !ok ==> queue == old(queue) && all == old(all)
      ensures ok ==> queue == old(queue)[tx.from := With(ListAt(old(queue), tx.from, false), tx)]
      ensures ok ==> all == old(all) - Occupant(old(queue), tx) + {tx}
    {
      hide Accepts, Capped, Bare, PricedList.Valid;
      if tx.from !in queue {
        NewAccepts(tx, config.priceBump, false);
        queue := queue[tx.from := EmptyList(false)];
      }
      var l := queue[tx.from];
      ok := Accepts(l, tx, config.priceBump);
      if !ok {
        return false, false;
      }
      WithCapped(l, tx);
      queue := queue[tx.from := With(l, tx)];
      replaced := tx.nonce in l.txs;
      if replaced {
        Strike(l.txs[tx.nonce]);
      }
      Enter(tx);
    }

    /** `promoteTx`: tries to put a transaction into its account's executable list. */
    method PromoteTx(a: Addr, tx: Tx, now: nat) returns (ok: bool)
      requires Shaped() && tx.from == a
      modifies this`pending, this`all, this`beats, this`vnonce, priced
      ensures Shaped() && Bare(all, priced.items) <= old(Bare(all, priced.items))
      ensures ok == Accepts(ListAt(old(pending), a, true), tx, config.priceBump)
      ensures beats == if ok then old(beats)[a := now] else old(beats)
      ensures !ok ==> pending == old(pending) && all == old(all) - {tx} && vnonce == old(vnonce)
      ensures ok ==> pending == old(pending)[a := With(ListAt(old(pending), a, true), tx)]
      ensures ok ==> all == old(all) - Occupant(old(pending), tx) + {tx} && vnonce == old(vnonce)[a := tx.nonce + 1]
    {
      hide Accepts, Capped, Bare, PricedList.Valid;
      if a !in pending {
        NewAccepts(tx, config.priceBump, true);
        pending := pending[a := EmptyList(true)];
      }
      var l := pending[a];
      ok := Accepts(l, tx, config.priceBump);
      if !ok {
        Strike(tx);
        return;
      }
      WithCapped(l, tx);
      pending := pending[a := With(l, tx)];
      if tx.nonce in l.txs {
        Strike(l.txs[tx.nonce]);
      }
      Enter(tx);
      beats := beats[a := now];
      vnonce := vnonce[a := tx.nonce + 1];
    }

    /** Puts transactions of the pool that are in neither list back into the queue. Their places
        are free there, so none is refused. */
    method EnqueueAll(a: Addr, txs: TxMap)
      requires Shaped() && Owned(txs, a) && txs.Keys !! Txs(queue, a).Keys && Within(txs, all)
      modifies this`queue, this`all, priced
      ensures Shaped() && Bare(all, priced.items) <= old(Bare(all, priced.items))
      ensures all == old(all) && SameBut(old(queue), queue, a) && Txs(queue, a) == Txs(old(queue), a) + txs
    {
      hide Bare, Capped, Accepts, Txs, With, ListAt, SameBut, Sub, WellFormed, PricedList.Valid, Occupant;
      SameSet(queue, a, EmptyList(false));
      var left := txs.Keys;
      ghost var q := Txs(queue, a);
      assert q + Sub(txs, {}) == q;
      while left != {}
        invariant left <= txs.Keys && Shaped() && Bare(all, priced.items) <= old(Bare(all, priced.items))
        invariant all == old(all) && SameBut(old(queue), queue, a)
        invariant Txs(queue, a) == q + Sub(txs, txs.Keys - left)
        decreases left
      {
        var n :| n in left;
        FreePlace(queue, a, false, txs[n], config.priceBump);
        SameTwice(old(queue), queue, queue[a := With(ListAt(queue, a, false), txs[n])], a);
        var ok, replaced := EnqueueTx(txs[n]);
        OneMore(q, txs, left, n);
        left := left - {n};
      }
      assert Sub(txs, txs.Keys) == txs;
    }

    /** Moves a run of transactions of the pool that are in neither list to the executable ones,
        lowest nonce first. */
    method PromoteAll(a: Addr, txs: TxMap, now: nat)
      requires Shaped() && Owned(txs, a) && txs.Keys !! Txs(pending, a).Keys && Within(txs, all)
      modifies this`pending, this`all, this`beats, this`vnonce, priced
      ensures Shaped() && Bare(all, priced.items) <= old(Bare(all, priced.items))
      ensures all == old(all) && SameBut(old(pending), pending, a) && Txs(pending, a) == Txs(old(pending), a) + txs
      ensures beats == Beaten(old(beats), a, now, txs.Keys != {})
      ensures vnonce == Numbered(old(vnonce), a, txs.Keys)
    {
      hide Bare, Capped, Accepts, MinOf, Front, Numbered, Beaten, Txs, With, ListAt, SameBut, Sub, WellFormed;
      hide PricedList.Valid, Occupant;
      SameSet(pending, a, EmptyList(true));
      var left := txs.Keys;
      FrontStart(left, old(vnonce), a);
      BeatenAgain(beats, a, now, false);
      ghost var p := Txs(pending, a);
      assert p + Sub(txs, {}) == p;
      while left != {}
        invariant left <= txs.Keys && Shaped() && Bare(all, priced.items) <= old(Bare(all, priced.items))
        invariant all == old(all) && SameBut(old(pending), pending, a)
        invariant Txs(pending, a) == p + Sub(txs, txs.Keys - left)
        invariant Front(txs.Keys, left)
        invariant beats == Beaten(old(beats), a, now, left != txs.Keys)
        invariant vnonce == Numbered(old(vnonce), a, txs.Keys - left)
        decreases left
      {
        var n := MinOf(left);
        FreePlace(pending, a, true, txs[n], config.priceBump);
        SameTwice(old(pending), pending, pending[a := With(ListAt(pending, a, true), txs[n])], a);
        var ok := PromoteTx(a, txs[n], now);
        OneMore(p, txs, left, n);
        FrontNext(txs.Keys, left, old(vnonce), a);
        BeatenAgain(old(beats), a, now, left != txs.Keys);
        assert n !in left - {n};
        left := left - {n};
      }
      assert txs.Keys - {} == txs.Keys && Sub(txs, txs.Keys) == txs;
    }


    /** `removeTx`: removes a transaction of the pool from wherever it is. What was executable
        only because of it goes back to the queue, and nothing else is lost. */
    method RemoveTx(tx: Tx, outofbound: bool, ghost loose: set<Addr>)
      requires Shaped() && Agree(pending, queue, all)
      modifies this`pending, this`queue, this`all, this`beats, this`vnonce, priced
      ensures Shaped() && Agree(pending, queue, all) && Bare(all, priced.items) <= old(Bare(all, priced.items))
      ensures all == old(all) - {tx}
      ensures SameBut(old(pending), pending, tx.from) && SameBut(old(queue), queue, tx.from)
      ensures SameBut(old(vnonce), vnonce, tx.from)
      ensures At(tx.from, if tx in old(all) then Removed(old(View(tx.from)), tx.nonce) else old(View(tx.from)))
      ensures old(Neat(loose)) ==> Neat(loose)
      ensures tx.nonce !in Txs(old(pending), tx.from) ==>
                pending == old(pending) && vnonce == old(vnonce) && beats == old(beats)
    {
      hide Sane, Removed, Capped, WellFormed, Holds, SameBut, Agree, Tidy, Bare, PricedList.Valid;
      var a := tx.from;
      SameAll(pending, queue, vnonce, a);
      if tx !in all {
        return;
      }
      LotOf(pending, queue, all, a);
      RemovedLot(View(a), a, tx);
      if outofbound {
        Strike(tx);
      } else {
        BareLess(all, priced.items, tx);
        all := all - {tx};
      }
      Unlist(a, tx.nonce);
      AgreeStep(old(pending), old(queue), old(all), pending, queue, all, a);
      RemovedTidy(old(pending), old(queue), old(vnonce), pending, queue, vnonce, env, loose, a, tx.nonce);
    }

    /** Takes a nonce out of the list it is in. */
    method Unlist(a: Addr, nonce: nat)
      requires Shaped() && Sane(Lot(pending, queue, a), a)
      requires forall n :: n in Txs(pending, a) && n > nonce ==> Txs(pending, a)[n] in all
      modifies this`pending, this`queue, this`all, this`beats, this`vnonce, priced
      ensures Shaped() && Bare(all, priced.items) <= old(Bare(all, priced.items)) && all == old(all)
      ensures SameBut(old(pending), pending, a) && SameBut(old(queue), queue, a) && SameBut(old(vnonce), vnonce, a)
      ensures At(a, Removed(old(View(a)), nonce))
      ensures nonce !in Txs(old(pending), a) ==> pending == old(pending) && vnonce == old(vnonce) && beats == old(beats)
    {
      hide Sane, Removed, Capped, WellFormed, SameBut, Bare, PricedList.Valid;
      SameAll(pending, queue, vnonce, a);
      if nonce in Txs(pending, a) {
        RemovePending(a, nonce);
        LowerNonce(a, nonce);
        RemovedNonce(old(View(a)), nonce);
      } else {
        RemoveQueued(a, nonce);
      }
    }

    method RemovePending(a: Addr, nonce: nat)
      requires Shaped() && Sane(Lot(pending, queue, a), a) && a in pending && nonce in pending[a].txs
      requires forall n :: n in pending[a].txs && n > nonce ==> pending[a].txs[n] in all
      modifies this`pending, this`queue, this`all, this`beats, priced
      ensures Shaped() && Bare(all, priced.items) <= old(Bare(all, priced.items)) && all == old(all)
      ensures SameBut(old(pending), pending, a) && SameBut(old(queue), queue, a)
      ensures beats == if |Txs(pending, a)| == 0 then old(beats) - {a} else old(beats)
      ensures var r := Removed(old(View(a)), nonce); Txs(pending, a) == r.pend && Txs(queue, a) == r.queue
    {
      hide Bare, Removed, Sane, WellFormed, SameBut, Owned, NonceOf, Within, Put, Sub, Remove, Txs, PricedList.Valid;
      TakeOut(pending, queue, all, a, nonce, NonceOf(vnonce, env, a));
      var f := Remove(pending[a], nonce);
      var behind := Sub(pending[a].txs, f.invalid);
      pending, beats := Put(pending, a, f.list), if |f.list.txs| == 0 then beats - {a} else beats;
      EnqueueAll(a, behind);
    }

    /** Takes the virtual nonce back to the given one if it is higher. */
    method LowerNonce(a: Addr, nonce: nat)
      modifies this`vnonce
      ensures NonceOf(vnonce, env, a) ==
                (if old(NonceOf(vnonce, env, a)) > nonce then nonce else old(NonceOf(vnonce, env, a)))
      ensures SameBut(old(vnonce), vnonce, a)
    {
      if NonceOf(vnonce, env, a) > nonce {
        vnonce := vnonce[a := nonce];
      }
    }

    method RemoveQueued(a: Addr, nonce: nat)
      requires Shaped() && nonce !in Txs(pending, a)
      modifies this`queue
      ensures Shaped() && SameBut(old(queue), queue, a) && At(a, Removed(old(View(a)), nonce))
    {
      hide Capped, Remove, Put, WellFormed, SameBut;
      if a in queue {
        WellFormedAt(queue, false, a);
        RemoveLoose(queue[a], nonce);
        var f := Remove(queue[a], nonce);
        PutWellFormed(queue, a, f.list);
        queue := Put(queue, a, f.list);
      } else {
        assert Txs(queue, a) - {nonce} == Txs(queue, a);
        SameSet(queue, a, EmptyList(false));
      }
    }

    /** The part of `promoteExecutables` for one account. */
    method PromoteAccount(a: Addr, now: nat)
      requires Shaped() && Agree(pending, queue, all)
      modifies this`pending, this`queue, this`all, this`beats, this`vnonce, priced
      ensures Shaped() && Agree(pending, queue, all) && Bare(all, priced.items) <= old(Bare(all, priced.items))
      ensures all <= old(all) && SameBut(old(pending), pending, a) && SameBut(old(queue), queue, a)
      ensures SameBut(old(vnonce), vnonce, a)
      ensures At(a, if a in old(queue) then PromotedIn(old(View(a)), a) else old(View(a)))
    {
      hide Sane, Capped, WellFormed, Holds, SameBut, Agree, PlanFor, Promoted, Put, Bare, NonceOf, Numbered, Beaten;
      hide PricedList.Valid;
      SameAll(pending, queue, vnonce, a);
      if a !in queue {
        return;
      }
      var l := queue[a];
      LotOf(pending, queue, all, a);
      ghost var acc := View(a);
      var p := PlanFor(l, NonceOf(vnonce, env, a), env.Nonce(a), env.Balance(a), env.maxGas, a in locals,
                       config.accountQueue);
      PlanReady(pending, queue, all, a, NonceOf(vnonce, env, a), env.Nonce(a), env.Balance(a), env.maxGas, a in locals,
                config.accountQueue);
      NumberedAt(vnonce, env, a, p.run);
      CarryOut(a, p, now);
      AgreeStep(old(pending), old(queue), old(all), pending, queue, all, a);
    }

    /** The steps of a promotion, one by one. */
    method CarryOut(a: Addr, p: Plan, now: nat)
      requires Shaped() && a in queue && Parted(queue[a].txs, p) && WellFormed(Put(queue, a, p.list), false)
      requires Owned(Sub(queue[a].txs, p.run), a) && p.run !! Txs(pending, a).Keys
      requires Within(Sub(queue[a].txs, p.run), all - Dropped(queue[a].txs, p))
      modifies this`pending, this`queue, this`all, this`beats, this`vnonce, priced
      ensures Shaped() && Bare(all, priced.items) <= old(Bare(all, priced.items))
      ensures all == old(all) - Dropped(old(queue)[a].txs, p) && queue == Put(old(queue), a, p.list)
      ensures SameBut(old(pending), pending, a)
      ensures Txs(pending, a) == Txs(old(pending), a) + Sub(old(queue)[a].txs, p.run)
      ensures vnonce == Numbered(old(vnonce), a, p.run)
    {
      hide WellFormed, SameBut, Put, Bare, Numbered, Beaten, PricedList.Valid, Pick, Txs, Owned;
      var l := queue[a];
      Forget(Pick(l.txs, p.low));
      Forget(Pick(l.txs, p.unpayable));
      assert Sub(l.txs, p.run).Keys == p.run;
      PromoteAll(a, Sub(l.txs, p.run), now);
      Forget(Pick(l.txs, p.over));
      queue := Put(queue, a, p.list);
    }

    ghost function PromotedIn(acc: Account, a: Addr): (r: Account)
      reads this`env, this`locals
    {
      Promoted(acc, env.Nonce(a), env.Balance(a), env.maxGas, a in locals, config.accountQueue)
    }

    /** The part of `demoteUnexecutables` for one account. */
    method DemoteAccount(a: Addr)
      requires Shaped() && Agree(pending, queue, all) && a in pending
      modifies this`pending, this`queue, this`all, this`beats, priced
      ensures Shaped() && Agree(pending, queue, all) && Bare(all, priced.items) <= old(Bare(all, priced.items))
      ensures all <= old(all) && SameBut(old(pending), pending, a) && SameBut(old(queue), queue, a)
      ensures beats == if |Txs(pending, a)| == 0 then old(beats) - {a} else old(beats)
      ensures At(a, Demoted(old(View(a)), env.Nonce(a), env.Balance(a), env.maxGas))
      ensures a in pending ==> |pending[a].txs| > 0
    {
      hide Sane, Capped, WellFormed, Holds, SameBut, Agree, Demoted, Put, Bare, NonceOf, DemotionFor, Owned, Within;
      hide PricedList.Valid, Txs, Sub, Pick;
      var l := pending[a];
      LotOf(pending, queue, all, a);
      DemoteReady(pending, queue, all, a, NonceOf(vnonce, env, a), env.Nonce(a), env.Balance(a), env.maxGas);
      SameAll(pending, queue, vnonce, a);
      var d := DemotionFor(l, env.Nonce(a), env.Balance(a), env.maxGas);
      PutFilled(pending, a, d.list);
      SendBack(a, d);
      AgreeStep(old(pending), old(queue), old(all), pending, queue, all, a);
    }

    /** The steps of a demotion, one by one. */
    method SendBack(a: Addr, d: Demotion)
      requires Shaped() && a in pending && d.low <= pending[a].txs.Keys && d.unpayable <= pending[a].txs.Keys
      requires WellFormed(Put(pending, a, d.list), true)
      requires var m, behind, stuck := pending[a].txs, Sub(pending[a].txs, d.behind), Sub(pending[a].txs, d.stuck);
               var rest := all - Pick(m, d.low) - Pick(m, d.unpayable);
               && Owned(behind, a) && behind.Keys !! Txs(queue, a).Keys && Within(behind, rest)
               && Owned(stuck, a) && stuck.Keys !! (Txs(queue, a) + behind).Keys && Within(stuck, rest)
      modifies this`pending, this`queue, this`all, this`beats, priced
      ensures Shaped() && Bare(all, priced.items) <= old(Bare(all, priced.items))
      ensures pending == Put(old(pending), a, d.list) && SameBut(old(queue), queue, a)
      ensures beats == if |d.list.txs| == 0 then old(beats) - {a} else old(beats)
      ensures var m := old(pending)[a].txs;
              && all == old(all) - Pick(m, d.low) - Pick(m, d.unpayable)
              && Txs(queue, a) == Txs(old(queue), a) + Sub(m, d.behind) + Sub(m, d.stuck)
    {
      hide WellFormed, SameBut, Put, Bare, Owned, Within, PricedList.Valid, Txs, Sub, Pick;
      var l := pending[a];
      Forget(Pick(l.txs, d.low));
      Forget(Pick(l.txs, d.unpayable));
      EnqueueAll(a, Sub(l.txs, d.behind));
      ghost var queue1 := queue;
      EnqueueAll(a, Sub(l.txs, d.stuck));
      SameTwice(old(queue), queue1, queue, a);
      pending, beats := Put(pending, a, d.list), if |d.list.txs| == 0 then beats - {a} else beats;
    }

    // ---------- the fair-share cut ----------

    /** Drops the highest executable transaction of an account. */
    method CapPending(a: Addr)
      requires Shaped() && Agree(pending, queue, all) && a in pending && |pending[a].txs| > 0
      modifies this`pending, this`all, this`vnonce, priced
      ensures Shaped() && Agree(pending, queue, all) && Bare(all, priced.items) <= old(Bare(all, priced.items))
      ensures all <= old(all)
      ensures old(Contig()) ==> Contig()
      ensures SameBut(old(pending), pending, a) && a in pending
      ensures pending[a].txs == CapTo(old(pending)[a].txs, |old(pending)[a].txs| - 1)
      ensures At(a, Capped1(old(View(a)))) && SameBut(old(vnonce), vnonce, a)
    {
      hide Sane, Capped, WellFormed, Holds, SameBut, Agree, CapTo, MaxOf, Tidy, NonceOf, PricedList.Valid, Bare;
      SameAll(pending, queue, vnonce, a);
      CutReady(pending, queue, all, a);
      var l := pending[a];
      var kept := CapTo(l.txs, |l.txs| - 1);
      var top := MaxOf(l.txs.Keys);
      pending := pending[a := l.(txs := kept)];
      Forget({l.txs[top]});
      LowerNonce(a, top);
      AgreeStep(old(pending), old(queue), old(all), pending, queue, all, a);
      CutTidy(old(pending), queue, old(vnonce), pending, vnonce, env, a);
    }

    /** One round of the cut: each of the given accounts loses its highest transaction. */
    method CutRound(offenders: seq<Addr>, count: nat) returns (count': nat)
      requires Shaped() && Agree(pending, queue, all) && count == Sum(Lengths(pending))
      requires Distinct(offenders) && forall a :: a in offenders ==> a in pending && |pending[a].txs| > 0
      modifies this`pending, this`all, this`vnonce, priced
      ensures Shaped() && Agree(pending, queue, all) && Bare(all, priced.items) <= old(Bare(all, priced.items))
      ensures all <= old(all)
      ensures old(Contig()) ==> Contig()
      ensures TopsCut(old(pending), pending) && count' == Sum(Lengths(pending))
      ensures Lengths(pending) == FairShare.Lowered(old(Lengths(pending)), Elems(offenders))
    {
      hide WellFormed, Agree, Bare, Tidy, TopsCut, Sum, CapTo, PricedList.Valid, Distinct, FairShare.Lowered, Elems;
      hide Lengths, SameBut;
      count' := count;
      NoRound(pending, offenders);
      for i := 0 to |offenders|
        invariant Shaped() && Agree(pending, queue, all) && Bare(all, priced.items) <= old(Bare(all, priced.items))
        invariant all <= old(all)
        invariant old(Contig()) ==> Contig()
        invariant TopsCut(old(pending), pending) && count' == Sum(Lengths(pending))
        invariant Lengths(pending) == FairShare.Lowered(old(Lengths(pending)), Elems(offenders[..i]))
      {
        ghost var before := pending;
        StillThere(old(pending), pending, offenders, i);
        CapPending(offenders[i]);
        CutOne(old(pending), before, pending, offenders, i);
        count' := count' - 1;
      }
      assert offenders[..|offenders|] == offenders;
    }

    /** Cuts the given accounts, all of one length, round by round until the pool fits or they
        are down to the target. */
    method EvenDown(offenders: seq<Addr>, target: nat, count: nat, ghost lens: map<nat, nat>, ghost big: set<Addr>,
                    ghost h: nat)
      returns (count': nat, ghost h': nat)
      requires Shaped() && Agree(pending, queue, all) && count == Sum(Lengths(pending))
      requires offenders != [] && Distinct(offenders) && config.accountSlots <= target <= h
      requires FairShare.Evened(lens, Lengths(pending), big, config.accountSlots, config.globalSlots, h)
      requires FairShare.Over(lens, big, Elems(offenders), h, target)
      modifies this`pending, this`all, this`vnonce, priced
      ensures Shaped() && Agree(pending, queue, all) && Bare(all, priced.items) <= old(Bare(all, priced.items))
      ensures all <= old(all)
      ensures old(Contig()) ==> Contig()
      ensures TopsCut(old(pending), pending) && count' == Sum(Lengths(pending))
      ensures FairShare.Evened(lens, Lengths(pending), big, config.accountSlots, config.globalSlots, h')
      ensures target <= h' <= h && (count' <= config.globalSlots || h' == target)
    {
      hide WellFormed, Agree, Bare, Tidy, TopsCut, Sum, CapTo, PricedList.Valid, Distinct, FairShare.Lowered, Elems;
      hide Lengths, SameBut, FairShare.Evened, FairShare.Over;
      count', h' := count, h;
      NoRound(pending, offenders);
      LastLength(pending, lens, big, config.accountSlots, config.globalSlots, h, offenders, target);
      while count' > config.globalSlots && |pending[offenders[|offenders| - 1]].txs| > target
        invariant Shaped() && Agree(pending, queue, all) && Bare(all, priced.items) <= old(Bare(all, priced.items))
        invariant all <= old(all)
        invariant old(Contig()) ==> Contig()
        invariant TopsCut(old(pending), pending) && count' == Sum(Lengths(pending))
        invariant FairShare.Evened(lens, Lengths(pending), big, config.accountSlots, config.globalSlots, h')
        invariant FairShare.Over(lens, big, Elems(offenders), h', target)
        invariant target <= h' <= h && offenders[|offenders| - 1] in pending
        invariant |pending[offenders[|offenders| - 1]].txs| == h'
        decreases h'
      {
        ghost var before := pending;
        AllLong(pending, lens, big, config.accountSlots, config.globalSlots, h', offenders, target);
        count' := CutRound(offenders, count');
        TopsTwice(old(pending), before, pending);
        FairShare.EvenLower(lens, Lengths(before), big, config.accountSlots, config.globalSlots, h', Elems(offenders),
                            target);
        h' := h' - 1;
        LastLength(pending, lens, big, config.accountSlots, config.globalSlots, h', offenders, target);
      }
    }

    /** The next offender joins: those before it are cut down towards its length. */
    method Penalise(offender: Addr, offenders: seq<Addr>, count: nat, ghost spammers: set<Addr>,
                    ghost lens: map<nat, nat>, ghost big: set<Addr>, ghost h: nat)
      returns (count': nat, ghost h': nat)
      requires Shaped() && Agree(pending, queue, all) && count == Sum(Lengths(pending)) && count > config.globalSlots
      requires FairShare.Evened(lens, Lengths(pending), big, config.accountSlots, config.globalSlots, h)
      requires FairShare.Lined(lens, Lengths(pending), big, config.accountSlots, offenders, spammers, h, true)
      requires spammers <= pending.Keys && offender in spammers
      requires forall s :: s in spammers ==> |pending[s].txs| <= |pending[offender].txs|
      modifies this`pending, this`all, this`vnonce, priced
      ensures Shaped() && Agree(pending, queue, all) && Bare(all, priced.items) <= old(Bare(all, priced.items))
      ensures all <= old(all)
      ensures old(Contig()) ==> Contig()
      ensures TopsCut(old(pending), pending) && count' == Sum(Lengths(pending))
      ensures FairShare.Evened(lens, Lengths(pending), big, config.accountSlots, config.globalSlots, h')
      ensures FairShare.Lined(lens, Lengths(pending), big, config.accountSlots, offenders + [offender],
                              spammers - {offender}, h', count' > config.globalSlots)
    {
      hide WellFormed, Agree, Bare, Tidy, TopsCut, Sum, CapTo, PricedList.Valid, Lengths, Big, SameBut;
      hide Distinct, Elems, FairShare.Evened, FairShare.Over, FairShare.Lined, FairShare.Fair, FairShare.Lowered;
      var threshold := |pending[offender].txs|;
      LengthsAt(pending, spammers);
      FairShare.NextOffender(lens, Lengths(pending), big, config.accountSlots, config.globalSlots, offenders, spammers,
                             h, offender);
      count', h' := count, threshold;
      if offenders != [] {
        count', h' := EvenDown(offenders, threshold, count, lens, big, h);
        FairShare.Joined(lens, Lengths(old(pending)), Lengths(pending), big, config.accountSlots, config.globalSlots,
                         offenders, spammers, h, offender, h');
      } else {
        NoRound(pending, offenders);
      }
    }

    /** The equalising part of `promoteExecutables`: if there are too many executable
        transactions, the longest lists are cut to one common length. */
    method Equalise()
      requires Shaped() && Agree(pending, queue, all)
      modifies this`pending, this`all, this`vnonce, priced
      ensures Shaped() && Agree(pending, queue, all) && Bare(all, priced.items) <= old(Bare(all, priced.items))
      ensures all <= old(all)
      ensures old(Contig()) ==> Contig()
      ensures TopsCut(old(pending), pending)
      ensures FairShare.Fair(old(Lengths(pending)), Lengths(pending), old(Big(pending, locals, config.accountSlots)),
                             config.accountSlots, config.globalSlots)
      ensures old(Sum(Lengths(pending))) <= config.globalSlots ==> pending == old(pending) && vnonce == old(vnonce)
    {
      hide WellFormed, Agree, Bare, Tidy, TopsCut, Sum, CapTo, PricedList.Valid, Lengths, Big, SameBut;
      hide Distinct, Elems, FairShare.Evened, FairShare.Over, FairShare.Lined, FairShare.Fair, FairShare.Lowered;
      var floor, limit := config.accountSlots, config.globalSlots;
      var spammers := Big(pending, locals, floor);
      var offenders: seq<Addr> := [];
      var count := Total(pending);
      ghost var lens, big, h := Lengths(pending), spammers, count + floor;
      BigStart(pending, locals, floor, limit, count > limit);
      while count > limit && spammers != {}
        invariant Shaped() && Agree(pending, queue, all) && Bare(all, priced.items) <= old(Bare(all, priced.items))
        invariant all <= old(all)
        invariant old(Contig()) ==> Contig()
        invariant TopsCut(old(pending), pending) && count == Sum(Lengths(pending))
        invariant FairShare.Evened(lens, Lengths(pending), big, floor, limit, h)
        invariant FairShare.Lined(lens, Lengths(pending), big, floor, offenders, spammers, h, count > limit)
        invariant old(Sum(Lengths(pending))) <= limit ==> pending == old(pending) && vnonce == old(vnonce)
        decreases spammers
      {
        ghost var before := pending;
        SpammersThere(pending, lens, big, floor, limit, offenders, spammers, h);
        var offender := Longest(pending, spammers);
        count, h := Penalise(offender, offenders, count, spammers, lens, big, h);
        offenders, spammers := offenders + [offender], spammers - {offender};
        TopsTwice(old(pending), before, pending);
      }
      if count > limit && offenders != [] {
        ghost var before := pending;
        FairShare.AllLined(lens, Lengths(pending), big, floor, limit, offenders, h);
        count, h := EvenDown(offenders, floor, count, lens, big, h);
        TopsTwice(old(pending), before, pending);
      } else if count > limit {
        FairShare.NoneLined(lens, Lengths(pending), big, floor, h);
      }
      FairShare.EvenedFair(lens, Lengths(pending), big, floor, limit, h);
    }

    // ---------- the queue limit ----------

    /** Removes one queued transaction; executable ones do not notice. */
    method DropQueued(a: Addr, nonce: nat)
      requires Shaped() && Agree(pending, queue, all) && nonce in Txs(queue, a)
      modifies this`pending, this`queue, this`all, this`beats, this`vnonce, priced
      ensures Shaped() && Agree(pending, queue, all) && Bare(all, priced.items) <= old(Bare(all, priced.items))
      ensures all <= old(all)
      ensures old(Contig()) ==> Contig()
      ensures pending == old(pending) && vnonce == old(vnonce) && beats == old(beats) && SameBut(old(queue), queue, a)
      ensures Txs(queue, a) == Txs(old(queue), a) - {nonce}
    {
      hide WellFormed, Agree, Bare, Tidy, PricedList.Valid, Capped;
      LotOf(pending, queue, all, a);
      RemoveTx(Txs(queue, a)[nonce], true, {});
    }

    /** Takes transactions off the end of an account's queue until enough are dropped. */
    method TrimAccount(a: Addr, drop: nat) returns (drop': nat)
      requires Shaped() && Agree(pending, queue, all) && a in queue
      modifies this`pending, this`queue, this`all, this`beats, this`vnonce, priced
      ensures Shaped() && Agree(pending, queue, all) && Bare(all, priced.items) <= old(Bare(all, priced.items))
      ensures all <= old(all)
      ensures old(Contig()) ==> Contig()
      ensures pending == old(pending) && vnonce == old(vnonce) && beats == old(beats) && SameBut(old(queue), queue, a)
      ensures Txs(queue, a) == CapTo(Txs(old(queue), a), |Txs(queue, a)|)
      ensures |Txs(queue, a)| - drop' == |Txs(old(queue), a)| - drop && (drop' == 0 || |Txs(queue, a)| == 0)
    {
      hide WellFormed, Agree, Bare, Tidy, PricedList.Valid, SameBut, CapTo, MaxOf, MinOf;
      SameStart(queue, a);
      var size := |queue[a].txs|;
      if size <= drop {
        DropAll(a);
        return drop - size;
      }
      drop' := drop;
      ghost var q := Txs(queue, a);
      while drop' > 0
        invariant drop' <= drop && Shaped() && Agree(pending, queue, all)
        invariant Bare(all, priced.items) <= old(Bare(all, priced.items)) && all <= old(all)
        invariant old(Contig()) ==> Contig()
        invariant pending == old(pending) && vnonce == old(vnonce) && beats == old(beats)
        invariant SameBut(old(queue), queue, a)
        invariant |Txs(queue, a)| == size - drop + drop' && Txs(queue, a) == CapTo(q, |Txs(queue, a)|)
      {
        ghost var queue1 := queue;
        TopOff(q, Txs(queue, a));
        DropQueued(a, MaxOf(Txs(queue, a).Keys));
        SameTwice(old(queue), queue1, queue, a);
        drop' := drop' - 1;
      }
    }

    /** Empties an account's queue, lowest nonce first. */
    method DropAll(a: Addr)
      requires Shaped() && Agree(pending, queue, all)
      modifies this`pending, this`queue, this`all, this`beats, this`vnonce, priced
      ensures Shaped() && Agree(pending, queue, all) && Bare(all, priced.items) <= old(Bare(all, priced.items))
      ensures all <= old(all)
      ensures old(Contig()) ==> Contig()
      ensures pending == old(pending) && vnonce == old(vnonce) && beats == old(beats) && SameBut(old(queue), queue, a)
      ensures Txs(queue, a) == map[] && Txs(queue, a) == CapTo(Txs(old(queue), a), 0)
    {
      hide WellFormed, Agree, Bare, Tidy, PricedList.Valid, SameBut, CapTo, MaxOf, MinOf;
      SameStart(queue, a);
      while |Txs(queue, a)| > 0
        invariant Shaped() && Agree(pending, queue, all) && Bare(all, priced.items) <= old(Bare(all, priced.items))
        invariant all <= old(all)
        invariant old(Contig()) ==> Contig()
        invariant pending == old(pending) && vnonce == old(vnonce) && beats == old(beats)
        invariant SameBut(old(queue), queue, a)
        decreases |Txs(queue, a)|
      {
        ghost var queue1 := queue;
        DropQueued(a, MinOf(Txs(queue, a).Keys));
        SameTwice(old(queue), queue1, queue, a);
      }
      assert Txs(queue, a) == map[];
      CapNone(Txs(old(queue), a));
    }

    /** The last part of `promoteExecutables`: if too many transactions are queued, remote
        accounts lose theirs, the most recently active account first, until the rest fits. */
    method TrimQueue()
      requires Shaped() && Agree(pending, queue, all)
      modifies this`pending, this`queue, this`all, this`beats, this`vnonce, priced
      ensures Shaped() && Agree(pending, queue, all) && Bare(all, priced.items) <= old(Bare(all, priced.items))
      ensures all <= old(all)
      ensures old(Contig()) ==> Contig()
      ensures pending == old(pending) && vnonce == old(vnonce) && beats == old(beats)
      ensures QueueTrimmed(old(queue), queue, locals, beats, config.globalQueue)
    {
      hide WellFormed, Agree, Bare, Tidy, PricedList.Valid, SameBut, CapTo, Sum, Trimmed, QueueTrimmed, Lengths, Elems;
      hide Distinct;
      var queued := Total(queue);
      if queued <= config.globalQueue {
        NotTrimmed(queue, locals, beats, config.globalQueue);
        return;
      }
      var order := ByHeartbeat(Remote(queue, locals), beats);
      var drop: nat := queued - config.globalQueue;
      var k: nat := |order|;
      TrimStart(queue, order);
      while drop > 0 && k > 0
        invariant Shaped() && Agree(pending, queue, all) && Bare(all, priced.items) <= old(Bare(all, priced.items))
        invariant all <= old(all)
        invariant old(Contig()) ==> Contig()
        invariant pending == old(pending) && vnonce == old(vnonce) && beats == old(beats) && k <= |order|
        invariant Sum(Lengths(queue)) == config.globalQueue + drop
        invariant Trimmed(old(queue), queue, Elems(order[k..]), if drop > 0 || k == |order| then {} else {order[k]})
        decreases k
      {
        k := k - 1;
        ghost var queue1 := queue;
        TrimNext(old(queue), queue, order, k);
        drop := TrimAccount(order[k], drop);
        TrimStep(old(queue), queue1, queue, Elems(order[k + 1..]), order[k], if drop > 0 then {} else {order[k]});
        SumAt(queue1, queue, order[k]);
      }
      TrimEnd(old(queue), queue, order, k, drop, locals, old(beats), config.globalQueue);
    }

    // ---------- promotion and demotion of all accounts ----------

    /** `promoteExecutables`: makes executable what can be, then applies the limits. Accounts that
        were out of order get in order if they are among those promoted. */
    method PromoteExecutables(accounts: seq<Addr>, now: nat, ghost loose: set<Addr>) returns (ghost m: Stage)
      requires Shaped() && Agree(pending, queue, all) && Distinct(accounts)
      modifies this`pending, this`queue, this`all, this`beats, this`vnonce, priced
      ensures Shaped() && Agree(pending, queue, all) && Bare(all, priced.items) <= old(Bare(all, priced.items))
      ensures old(Neat(loose)) && loose <= Elems(accounts) ==> Contig()
      ensures Promotes(config, old(Now()), m, Now(), Elems(accounts))
      ensures Fits(pending, queue, locals, config)
      ensures forall a :: a in accounts && a !in locals ==> |Txs(queue, a)| <= config.accountQueue
    {
      hide WellFormed, Agree, Bare, Tidy, PricedList.Valid, Elems, FairShare.Fair, QueueTrimmed, TopsCut, Txs, Fits;
      hide PromotedAll, Distinct, Sum, Lengths, Big;
      m := PromoteEach(accounts, now, loose);
      Equalise();
      TrimQueue();
      LimitsFit(m.pending, pending, m.queue, queue, locals, config, beats);
      TrimmedSizes(m.queue, queue, accounts, locals, beats, config);
    }

    /** The promotion of one account after the other. */
    method PromoteEach(accounts: seq<Addr>, now: nat, ghost loose: set<Addr>) returns (ghost m: Stage)
      requires Shaped() && Agree(pending, queue, all) && Distinct(accounts)
      modifies this`pending, this`queue, this`all, this`beats, this`vnonce, priced
      ensures Shaped() && Agree(pending, queue, all) && Bare(all, priced.items) <= old(Bare(all, priced.items))
      ensures all <= old(all)
      ensures m == Stage(pending, queue, vnonce) && (old(Neat(loose)) && loose <= Elems(accounts) ==> Contig())
      ensures PromotedAll(old(pending), old(queue), old(vnonce), pending, queue, vnonce, env, locals,
                          config.accountQueue, Elems(accounts))
      ensures forall a :: a in accounts && a !in locals ==> |Txs(queue, a)| <= config.accountQueue
    {
      hide WellFormed, Agree, Bare, Tidy, PricedList.Valid, SameBut, Promoted, Elems, Txs, PromotedAll, Distinct;
      ghost var left := loose;
      ElemsNone(accounts, loose);
      PromotedNone(pending, queue, vnonce, env, locals, config.accountQueue, accounts);
      for i := 0 to |accounts|
        invariant Shaped() && Agree(pending, queue, all) && Bare(all, priced.items) <= old(Bare(all, priced.items))
        invariant all <= old(all)
        invariant old(Neat(loose)) ==> Neat(left)
        invariant PromotedAll(old(pending), old(queue), old(vnonce), pending, queue, vnonce, env, locals,
                              config.accountQueue, Elems(accounts[..i]))
        invariant left == loose - Elems(accounts[..i])
        invariant forall a :: a in accounts[..i] && a !in locals ==> |Txs(queue, a)| <= config.accountQueue
      {
        var a := accounts[i];
        m := Stage(pending, queue, vnonce);
        PromoteAccount(a, now);
        PromotedTidy(m.pending, m.queue, m.vnonce, pending, queue, vnonce, env, left, a, a in locals,
                     config.accountQueue);
        PromotedSize(m.queue, queue, accounts, i, locals, config.accountQueue);
        PromotedNext(old(pending), old(queue), old(vnonce), m.pending, m.queue, m.vnonce, pending, queue, vnonce, env,
                     locals, config.accountQueue, accounts, i);
        left := left - {a};
        ElemsNext(accounts, i, loose);
      }
      assert accounts[..|accounts|] == accounts;
      assert loose <= Elems(accounts) ==> left == {};
      m := Stage(pending, queue, vnonce);
    }

    // ---------- adding ----------

    /** Removes transactions that have already been taken out of the price heap. */
    method RemoveEach(drop: seq<Tx>, ghost loose: set<Addr>)
      requires Shaped() && Agree(pending, queue, all)
      modifies this`pending, this`queue, this`all, this`beats, this`vnonce, priced
      ensures Shaped() && Agree(pending, queue, all) && Bare(all, priced.items) <= old(Bare(all, priced.items))
      ensures all == old(all) - Elems(drop) && (old(Neat(loose)) ==> Neat(loose))
    {
      hide WellFormed, Agree, Bare, Tidy, PricedList.Valid, SameBut, Txs, Removed, Elems;
      ElemsNone(drop, all);
      for i := 0 to |drop|
        invariant Shaped() && Agree(pending, queue, all) && Bare(all, priced.items) <= old(Bare(all, priced.items))
        invariant all == old(all) - Elems(drop[..i]) && (old(Neat(loose)) ==> Neat(loose))
      {
        RemoveTx(drop[i], false, loose);
        ElemsNext(drop, i, old(all));
      }
      assert drop[..|drop|] == drop;
    }

    /** A full pool refuses a remote transaction that is no better than what it has. Otherwise it
        takes out its cheapest remote entries, as many as it has to or all there are; that makes
        room unless a transaction of the pool is in the price heap twice. */
    method MakeRoom(tx: Tx, local: bool, ghost loose: set<Addr>) returns (refused: bool, ghost drop: seq<Tx>)
      requires Valid()
      modifies this`pending, this`queue, this`all, this`beats, this`vnonce, priced
      ensures Valid() && (old(Neat(loose)) ==> Neat(loose)) && all == old(all) - Elems(drop)
      ensures refused <==>
                Full(old(all), config) && !local && tx.from !in locals && old(all) != {}
                && forall t :: t in old(all) ==> tx.price <= t.price
      ensures if refused || !Full(old(all), config) then drop == [] else |drop| <= Excess(old(all), config)
      ensures Cheapest(Elems(drop), old(all), locals)
      ensures !refused && Full(old(all), config) ==>
                |drop| == Excess(old(all), config) || forall t :: t in all ==> t.from in locals
      ensures !refused && Once(old(priced.items), old(all)) ==>
                !Full(all, config) || forall t :: t in all ==> t.from in locals
    {
      hide WellFormed, Agree, Tidy, PricedList.Valid, Divided, Cheapest, PriceLess, Once;
      refused, drop := false, [];
      NothingDropped(all, locals);
      if |all| < config.globalSlots + config.globalQueue {
        return;
      }
      Covered(all, priced.items);
      if !local {
        refused := priced.Underpriced(tx, all, locals);
        if refused {
          return;
        }
        OnceStill(old(priced.items), priced.items, all);
      }
      drop := DropCheapest(loose);
    }

    method DropCheapest(ghost loose: set<Addr>) returns (ghost dropped: seq<Tx>)
      requires Valid() && Full(all, config)
      modifies this`pending, this`queue, this`all, this`beats, this`vnonce, priced
      ensures Valid() && (old(Neat(loose)) ==> Neat(loose)) && all == old(all) - Elems(dropped)
      ensures Cheapest(Elems(dropped), old(all), locals)
      ensures |dropped| <= Excess(old(all), config)
      ensures |dropped| == Excess(old(all), config) || forall t :: t in all ==> t.from in locals
      ensures Once(old(priced.items), old(all)) ==> |all| == |old(all)| - |dropped|
    {
      hide WellFormed, Agree, Tidy, PricedList.Valid, Divided, Cheapest, PriceLess, Once;
      Covered(all, priced.items);
      var drop := priced.Discard(|all| - (config.globalSlots + config.globalQueue - 1), all, locals);
      Discarded(old(priced.items), priced.items, drop, all, locals);
      RemoveEach(drop, loose);
      dropped := drop;
    }

    /** A transaction takes the place of an executable one if it pays enough more. */
    method ReplacePending(tx: Tx, ghost loose: set<Addr>) returns (ok: bool)
      requires Valid() && tx.from in pending && tx.nonce in pending[tx.from].txs && tx !in all
      modifies this`pending, this`all, priced
      ensures Valid() && (old(Neat(loose)) ==> Neat(loose))
      ensures ok == Replaces(old(pending)[tx.from].txs[tx.nonce], tx, config.priceBump)
      ensures all == if ok then old(all) - {old(pending)[tx.from].txs[tx.nonce]} + {tx} else old(all)
      ensures ok ==> tx.from in pending && Has(pending[tx.from].txs, tx)
    {
      hide Capped, WellFormed, Agree, Tidy, PricedList.Valid, SameBut, Replaces, Bare;
      var a, l := tx.from, pending[tx.from];
      ok := Accepts(l, tx, config.priceBump);
      if !ok {
        return;
      }
      ReplaceReady(pending, queue, all, vnonce, env, loose, tx);
      pending := pending[a := With(l, tx)];
      Strike(l.txs[tx.nonce]);
      Enter(tx);
    }

    /** A transaction goes into the queue unless a better one is in its place. */
    method AddQueued(tx: Tx, ghost loose: set<Addr>) returns (ok: bool, replaced: bool)
      requires Valid() && tx.nonce !in Txs(pending, tx.from) && tx !in all
      modifies this`queue, this`all, priced
      ensures Valid()
      ensures (old(Neat(loose)) && tx.nonce >= env.Nonce(tx.from) ==>
                 Neat(if ok && !replaced then loose + {tx.from} else loose))
      ensures ok == Accepts(ListAt(old(queue), tx.from, false), tx, config.priceBump)
      ensures replaced == (ok && tx.nonce in Txs(old(queue), tx.from))
      ensures all == if ok then old(all) - Occupant(old(queue), tx) + {tx} else old(all)
      ensures ok ==> Has(Txs(queue, tx.from), tx)
    {
      hide Capped, WellFormed, Agree, Tidy, PricedList.Valid, SameBut, Accepts, Bare, Occupant;
      QueueReady(pending, queue, all, vnonce, env, loose, tx);
      ok, replaced := EnqueueTx(tx);
    }

    /** Puts a transaction in its place: an executable one if that is where its nonce is, otherwise
        a queued one. Only the latter makes a local sender known. */
    method Place(tx: Tx, local: bool, ghost loose: set<Addr>)
        returns (replaced: bool, ok: bool, ghost taken: set<Tx>, ghost queued: bool)
      requires Valid() && tx !in all && tx.nonce >= env.Nonce(tx.from)
      modifies this`pending, this`queue, this`all, this`locals, priced
      ensures Valid() && (old(Neat(loose)) ==> Neat(if ok && !replaced then loose + {tx.from} else loose))
      ensures all == if ok then old(all) - taken + {tx} else old(all)
      ensures replaced == (ok && taken != {})
      ensures InPlace(taken, old(all), tx)
      ensures if ok then forall t :: t in taken ==> Replaces(t, tx, config.priceBump)
              else exists t :: t in taken && !Replaces(t, tx, config.priceBump)
      ensures queued <==> tx.nonce !in Txs(old(pending), tx.from)
      ensures ok ==> Has(Txs(if queued then queue else pending, tx.from), tx)
      ensures locals == if ok && local && queued then old(locals) + {tx.from} else old(locals)
    {
      hide Capped, WellFormed, Agree, Tidy, PricedList.Valid, Bare, Accepts, Replaces;
      Occupants(pending, queue, all, tx, config.priceBump);
      queued := tx.nonce !in Txs(pending, tx.from);
      if tx.from in pending && tx.nonce in pending[tx.from].txs {
        taken := {pending[tx.from].txs[tx.nonce]};
        ok := ReplacePending(tx, loose);
        replaced := ok;
        assert !ok ==> old(pending)[tx.from].txs[tx.nonce] in taken;
      } else {
        taken := Occupant(queue, tx);
        ok, replaced := AddQueued(tx, loose);
        if ok && local {
          locals := locals + {tx.from};
        }
      }
    }

    /** `add`: validates a transaction, makes room for it in a full pool, and takes it in as an
        executable replacement or as a queued transaction. */
    method Add(tx: Tx, local: bool, ghost loose: set<Addr>)
        returns (replaced: bool, err: Option<TxError>, ghost turn: Turn)
      requires Valid()
      modifies this`pending, this`queue, this`all, this`beats, this`vnonce, this`locals, priced
      ensures Valid() && (old(Neat(loose)) ==> Neat(if err.None? && !replaced then loose + {tx.from} else loose))
      ensures TurnOk(turn, env, gasPrice, local, config) && turn.tx == tx && turn.err == err
      ensures turn.before == old(all) && turn.after == all && turn.locals == old(locals) && turn.locals' == locals
      ensures replaced == (err.None? && turn.taken != {})
      ensures err.None? ==> Has(Txs(if turn.queued then queue else pending, tx.from), tx)
      ensures err.None? && Once(old(priced.items), old(all)) ==>
                || |all| <= config.globalSlots + config.globalQueue
                || forall t :: t in all && t != tx ==> t.from in old(locals)
    {
      hide Valid, Neat, Sound, Faulty, Replaces, Justified, Cheapest, Full, Once, Excess, Elems, Txs, TurnOk;
      replaced := false;
      ghost var isLocal := local || tx.from in locals;
      if tx in all {
        KnownBefore(tx, all, env, gasPrice, isLocal, config);
        err := Some(Known);
        turn := TurnedAway(tx, all, locals, Known, env, gasPrice, local, config);
        return;
      }
      err := Validate(tx, env, gasPrice, local, locals);
      Reasons(err, tx, all, env, gasPrice, isLocal, config);
      if err.Some? {
        turn := TurnedAway(tx, all, locals, err.value, env, gasPrice, local, config);
        return;
      }
      SoundNonce(tx, env, gasPrice, isLocal);
      ghost var drop;
      var refused;
      refused, drop := MakeRoom(tx, local, loose);
      if refused {
        RefusedFull(tx, old(all), env, gasPrice, isLocal, config);
        NothingDropped(old(all), locals);
        err := Some(Underpriced);
        turn := TurnedAway(tx, old(all), locals, Underpriced, env, gasPrice, local, config);
        return;
      }
      replaced, err, turn := PlaceIn(tx, local, loose, old(all), drop);
      Placed(turn, env, gasPrice, local, config);
      if Once(old(priced.items), old(all)) {
        RoomForOne(turn, local, config);
      }
    }

    /** The rest of `add` once there is room. */
    method PlaceIn(tx: Tx, local: bool, ghost loose: set<Addr>, ghost before: set<Tx>, ghost drop: seq<Tx>)
      returns (replaced: bool, err: Option<TxError>, ghost turn: Turn)
      requires Valid() && tx !in all && tx.nonce >= env.Nonce(tx.from) && tx !in before && all == before - Elems(drop)
      modifies this`pending, this`queue, this`all, this`locals, priced
      ensures Valid() && (old(Neat(loose)) ==> Neat(if err.None? && !replaced then loose + {tx.from} else loose))
      ensures turn == Turn(tx, before, all, old(locals), locals, drop, turn.taken, turn.queued, err)
      ensures err.None? || err == Some(ReplaceUnderpriced)
      ensures err.Some? ==> exists t :: t in turn.taken && !Replaces(t, tx, config.priceBump)
      ensures Placing(turn, local, config)
      ensures replaced == (err.None? && turn.taken != {})
      ensures err.None? ==> Has(Txs(if turn.queued then queue else pending, tx.from), tx)
    {
      hide Valid, Neat, Replaces, Elems, Txs;
      var ok;
      ghost var taken, queued;
      replaced, ok, taken, queued := Place(tx, local, loose);
      err := if ok then None else Some(ReplaceUnderpriced);
      turn := Turn(tx, before, all, old(locals), locals, drop, taken, queued, err);
    }

    /** `addTx` */
    method AddTx(tx: Tx, local: bool, now: nat) returns (err: Option<TxError>, ghost detail: Detail)
      requires Valid()
      modifies this`pending, this`queue, this`all, this`beats, this`vnonce, this`locals, priced
      ensures Valid() && (old(Contig()) ==> Contig())
      ensures Legit(config, Submit(tx, local, now), old(Now()), detail, Now()) && err == detail.turns[0].err
    {
      hide Capped, WellFormed, Agree, Tidy, PricedList.Valid, Bare, TurnOk, Promotes, Fits, Txs, Batched, Dirty;
      var replaced;
      ghost var turn;
      replaced, err, turn := Add(tx, local, {});
      BatchedNone([tx], old(all), old(locals), env, gasPrice, local, config);
      BatchedNext([], [tx], old(all), old(locals), env, gasPrice, local, config, turn);
      assert [] + [turn] == [turn];
      ghost var met, mid := Now(), Stage(pending, queue, vnonce);
      if err.None? && !replaced {
        OneElem(tx.from);
        ghost var none: set<Addr> := {};
        assert none + {tx.from} == {tx.from};
        mid := PromoteExecutables([tx.from], now, {tx.from});
      }
      detail := Added([turn], met, mid);
    }

    /** `addTxsLocked`: adds a batch, then promotes the accounts that got something new. */
    method AddTxs(txs: seq<Tx>, local: bool, now: nat) returns (errs: seq<Option<TxError>>, ghost detail: Detail)
      requires Valid()
      modifies this`pending, this`queue, this`all, this`beats, this`vnonce, this`locals, priced
      ensures Valid() && (old(Contig()) ==> Contig())
      ensures Legit(config, Batch(txs, local, now), old(Now()), detail, Now())
      ensures |errs| == |txs| && forall i :: 0 <= i < |txs| ==> errs[i] == detail.turns[i].err
    {
      hide Capped, WellFormed, Agree, Tidy, PricedList.Valid, Bare, TurnOk, Promotes, Fits, Txs, Batched, Dirty, Elems;
      errs := [];
      ghost var turns: seq<Turn> := [];
      var dirty: set<Addr> := {};
      BatchedNone(txs, all, locals, env, gasPrice, local, config);
      for i := 0 to |txs|
        invariant Valid() && (old(Contig()) ==> Neat(dirty)) && dirty == Dirty(turns)
        invariant |errs| == |turns| == i && forall k :: 0 <= k < i ==> errs[k] == turns[k].err
        invariant Batched(turns, txs, old(all), old(locals), env, gasPrice, local, config)
        invariant all == AllAfter(turns, old(all)) && locals == LocalsAfter(turns, old(locals))
        invariant i == 0 ==> Now() == old(Now())
      {
        var replaced, err, turn := Add(txs[i], local, dirty);
        BatchedNext(turns, txs, old(all), old(locals), env, gasPrice, local, config, turn);
        errs, turns := errs + [err], turns + [turn];
        if err.None? && !replaced {
          dirty := dirty + {txs[i].from};
        }
      }
      ghost var met, mid := Now(), Stage(pending, queue, vnonce);
      if dirty != {} {
        var accounts := Collected(dirty);
        ElemsOf(accounts, dirty);
        mid := PromoteExecutables(accounts, now, dirty);
      }
      detail := Added(turns, met, mid);
    }

    // ---------- a new head ----------

    /** `demoteUnexecutables` */
    method DemoteUnexecutables()
      requires Shaped() && Agree(pending, queue, all)
      modifies this`pending, this`queue, this`all, this`beats, priced
      ensures Shaped() && Agree(pending, queue, all) && Bare(all, priced.items) <= old(Bare(all, priced.items))
      ensures all <= old(all)
      ensures forall a :: DemotedTo(old(pending), old(queue), pending, queue, env, a)
      ensures forall a :: a in pending ==> |pending[a].txs| > 0
    {
      hide Capped, WellFormed, Agree, PricedList.Valid, Bare, DemotedTo, Demoted, SameBut, Txs;
      var left := pending.Keys;
      DemoteStart(pending, queue, env);
      while left != {}
        invariant Shaped() && Agree(pending, queue, all) && Bare(all, priced.items) <= old(Bare(all, priced.items))
        invariant all <= old(all)
        invariant DemotedAll(old(pending), old(queue), pending, queue, env, left)
        decreases left
      {
        var a :| a in left;
        ghost var pending1, queue1 := pending, queue;
        DemoteNext(old(pending), old(queue), pending, queue, env, left, a);
        DemoteAccount(a);
        DemoteStep(old(pending), old(queue), pending1, queue1, pending, queue, vnonce, env, left, a);
        left := left - {a};
      }
    }

    /** Sets the virtual nonces behind the executable transactions. */
    method Renumber()
      requires forall a :: a in pending ==> |pending[a].txs| > 0
      modifies this`vnonce
      ensures vnonce == Renumbering(old(vnonce), pending)
    {
      hide MaxOf, Renumbering;
      var left := pending.Keys;
      RenumberStart(vnonce, pending);
      while left != {}
        invariant left <= pending.Keys && vnonce == Renumbering(old(vnonce), pending - left)
        decreases left
      {
        var a :| a in left;
        RenumberNext(old(vnonce), pending, left, a);
        vnonce := vnonce[a := MaxOf(pending[a].txs.Keys) + 1];
        left := left - {a};
      }
      assert pending - {} == pending;
    }

    /** `reset`: the head moves; transactions of abandoned blocks come back, and everything is
        brought in line with the new state. Executable nonces are without gaps afterwards if all
        accounts are settled before demotion, and if nothing has to be cut, only then. */
    method Reset(env': Env, reinject: seq<Tx>, now: nat) returns (errs: seq<Option<TxError>>, ghost detail: Detail)
      requires Valid()
      modifies this`env, this`pending, this`queue, this`all, this`beats, this`vnonce, this`locals, priced
      ensures Valid() && env == env'
      ensures Legit(config, Head(env', reinject, now), old(Now()), detail, Now())
      ensures |errs| == |reinject| && forall i :: 0 <= i < |errs| ==> errs[i] == detail.turns[i].err
      ensures AllSettled(detail.low) ==> Contig()
      ensures Contig() && Sum(Lengths(detail.top.pending)) <= config.globalSlots ==> AllSettled(detail.low)
      ensures old(Contig()) && reinject == [] ==> Contig()
      ensures Fits(pending, queue, locals, config)
    {
      hide Capped, WellFormed, Agree, PricedList.Valid, Bare, DemotedTo, Txs, Tidy, Fits, Elems, Promotes, Batched;
      hide TurnOk, AllSettled, Sum, Lengths, Dirty, Renumbering;
      env, vnonce := env', map[];
      errs, detail := AddTxs(reinject, false, now);
      ghost var low := Now();
      DemoteUnexecutables();
      Renumber();
      ghost var next := Now();
      var accounts := Collected(queue.Keys);
      ElemsOf(accounts, queue.Keys);
      ghost var top := PromoteExecutables(accounts, now, queue.Keys);
      detail := Moved(detail.turns, detail.met, detail.mid, low, next, top);
      HeadOrder(config, low, next, top, Now());
      if old(Contig()) && reinject == [] {
        NothingDirty(detail.turns);
        OrderSettled(old(Now()), env');
      }
    }

    // ---------- price and age ----------

    /** `SetGasPrice`: exactly the remote transactions under the new price go. */
    method SetGasPrice(price: nat)
      requires Valid()
      modifies this`gasPrice, this`pending, this`queue, this`all, this`beats, this`vnonce, priced
      ensures Valid() && (old(Contig()) ==> Contig())
      ensures Legit(config, Price(price), old(Now()), Plain, Now())
    {
      hide Capped, WellFormed, Agree, PricedList.Valid, Tidy;
      gasPrice := price;
      Covered(all, priced.items);
      var drop := priced.Cap(price, all, locals);
      RemoveEach(drop, {});
    }

    /** The eviction tick of the pool's loop: queued transactions of remote accounts that have been
        quiet for too long go, the rest stays. */
    method Evict(now: nat, lifetime: nat)
      requires Valid()
      modifies this`pending, this`queue, this`all, this`beats, this`vnonce, priced
      ensures Valid() && (old(Contig()) ==> Contig())
      ensures Legit(config, Age(now, lifetime), old(Now()), Plain, Now())
    {
      hide Capped, WellFormed, Agree, PricedList.Valid, Tidy, Bare, CapTo;
      var left := queue.Keys;
      while left != {}
        invariant Shaped() && Agree(pending, queue, all) && Bare(all, priced.items) == {}
        invariant (old(Contig()) ==> Contig())
        invariant pending == old(pending) && vnonce == old(vnonce) && beats == old(beats)
        invariant forall a :: Txs(queue, a) ==
                    if a !in left && Quiet(old(queue), locals, beats, now, lifetime, a) then map[]
                    else Txs(old(queue), a)
        decreases left
      {
        var a :| a in left;
        if a !in locals && now - Beat(beats, a) > lifetime {
          ghost var queue1 := queue;
          DropAll(a);
          SameButTxs(queue1, queue, a);
        }
        left := left - {a};
      }
    }

    // ---------- runs ----------

    /** Any sequence of operations keeps the books in agreement and is one legitimate step after
        the other. Executable nonces stay without gaps as long as every change of head that brings
        transactions back leaves all accounts settled. */
    method Run(commands: seq<Command>) returns (ghost trail: seq<Event>)
      requires Valid()
      modifies this, priced
      ensures Valid() && |trail| == |commands|
      ensures Trail(config, commands, trail, old(Now())) && Now() == Reached(trail, old(Now()))
      ensures old(Contig()) && InOrder(trail) ==> Contig()
    {
      hide Valid, Contig, Trail, InOrder, Now;
      trail := [];
      NoTrail(config, commands, Now());
      for i := 0 to |commands|
        invariant Valid() && |trail| == i
        invariant Trail(config, commands, trail, old(Now())) && Now() == Reached(trail, old(Now()))
        invariant old(Contig()) && InOrder(trail) ==> Contig()
      {
        ghost var before := Now();
        ghost var detail := Apply(commands[i]);
        ghost var e := Event(commands[i], before, detail, Now());
        TrailNext(config, commands, trail, old(Now()), e);
        InOrderNext(trail, e);
        trail := trail + [e];
      }
    }

    /** Carries out one command. */
    method Apply(c: Command) returns (ghost detail: Detail)
      requires Valid()
      modifies this, priced
      ensures Valid() && Legit(config, c, old(Now()), detail, Now())
      ensures old(Contig()) && OrderKept(Event(c, old(Now()), detail, Now())) ==> Contig()
    {
      hide Valid, Contig, Inserted, Demotes, Promotes, Fits, AllSettled, Sum, Lengths, Quiet, Agree;
      match c
      case Submit(tx, local, now) =>
        var _, d := AddTx(tx, local, now);
        detail := d;
      case Batch(txs, local, now) =>
        var _, d := AddTxs(txs, local, now);
        detail := d;
      case Price(price) =>
        SetGasPrice(price);
        detail := Plain;
      case Age(now, lifetime) =>
        Evict(now, lifetime);
        detail := Plain;
      case Head(env', reinject, now) =>
        var _, d := Reset(env', reinject, now);
        detail := d;
    }
  }
}
