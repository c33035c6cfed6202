/** What the pool's operations do to its books as a whole, step by step, and for which reasons a
    transaction can leave the pool. */
module TxTrail {
  import opened Basics
  import opened TxMaps
  import opened TxLists
  import opened TxAccounts
  import opened TxPriced
  import opened TxSorted
  import opened TxBooks
  import opened TxLimits
  import opened TxChecks
  import opened Sums
  import FairShare

  /** The pool at one moment. */
  datatype Snap = Snap(pending: Lists, queue: Lists, vnonce: map<Addr, nat>, all: set<Tx>,
                       beats: map<Addr, nat>, locals: set<Addr>, env: Env, gasPrice: nat)

  /** Lists and nonces between the promotion of accounts and the limits. */
  datatype Stage = Stage(pending: Lists, queue: Lists, vnonce: map<Addr, nat>)

  /** All accounts are in order, up to those that have yet to be promoted. */
  ghost predicate Orderly(s: Snap, loose: set<Addr>)
  {
    Tidy(s.pending, s.queue, s.vnonce, s.env, loose)
  }

  // ---------- one submission ----------

  /** A call of `add`: what the pool held before and after, which accounts were local, what was
      dropped to make room, what was in the place of the transaction, and the result. */
  datatype Turn = Turn(tx: Tx, before: set<Tx>, after: set<Tx>, locals: set<Addr>, locals': set<Addr>,
                       drop: seq<Tx>, taken: set<Tx>, queued: bool, err: Option<TxError>)

  /** Only a full pool drops anything, and no more than it must. If it goes on to place the
      transaction it has dropped as many entries, or has only local transactions left. */
  ghost predicate Room(t: Turn, config: Config)
  {
    && (t.drop != [] ==> Full(t.before, config) && |t.drop| <= Excess(t.before, config))
    && (t.drop != [] ==> t.err.None? || t.err == Some(ReplaceUnderpriced))
    && (Full(t.before, config) && (t.err.None? || t.err == Some(ReplaceUnderpriced)) ==>
          |t.drop| == Excess(t.before, config) || forall u :: u in t.before - Elems(t.drop) ==> u.from in t.locals)
  }

  /** The part of a submission after room was made. */
  ghost predicate Placing(t: Turn, local: bool, config: Config)
  {
    && t.after == (if t.err.None? then t.before - Elems(t.drop) - t.taken + {t.tx} else t.before - Elems(t.drop))
    && InPlace(t.taken, t.before, t.tx)
    && (t.err.None? ==> forall u :: u in t.taken ==> Replaces(u, t.tx, config.priceBump))
    && t.locals' == (if t.err.None? && local && t.queued then t.locals + {t.tx.from} else t.locals)
  }

  ghost predicate TurnOk(t: Turn, env: Env, minPrice: nat, local: bool, config: Config)
  {
    && (t.err.None? ==> t.tx !in t.before && Sound(t.tx, env, minPrice, local || t.tx.from in t.locals))
    && (t.err.Some? ==> Justified(t.err.value, t.tx, t.before, env, minPrice, local || t.tx.from in t.locals, config))
    && Placing(t, local, config) && Cheapest(Elems(t.drop), t.before, t.locals) && Room(t, config)
    && (t.err.None? && Full(t.before, config) && t.before != {} && !local && t.tx.from !in t.locals ==>
          exists u :: u in t.before && u.price < t.tx.price)
  }

  /** A submission refused before anything is dropped. */
  ghost function TurnedAway(tx: Tx, all: set<Tx>, locals: set<Addr>, e: TxError, env: Env, minPrice: nat, local: bool,
                            config: Config): (t: Turn)
    requires Justified(e, tx, all, env, minPrice, local || tx.from in locals, config) && e != ReplaceUnderpriced
    ensures TurnOk(t, env, minPrice, local, config)
    ensures t == Turn(tx, all, all, locals, locals, [], {}, false, Some(e))
  {
    Turn(tx, all, all, locals, locals, [], {}, false, Some(e))
  }

  /** A submission for which room was made. */
  lemma Placed(t: Turn, env: Env, minPrice: nat, local: bool, config: Config)
    requires Placing(t, local, config) && t.tx !in t.before
    requires Sound(t.tx, env, minPrice, local || t.tx.from in t.locals)
    requires t.err.None? || (t.err == Some(ReplaceUnderpriced) &&
                             exists u :: u in t.taken && !Replaces(u, t.tx, config.priceBump))
    requires Cheapest(Elems(t.drop), t.before, t.locals)
    requires if Full(t.before, config) then |t.drop| <= Excess(t.before, config) else t.drop == []
    requires Full(t.before, config) ==>
               |t.drop| == Excess(t.before, config) || forall u :: u in t.before - Elems(t.drop) ==> u.from in t.locals
    requires Full(t.before, config) && t.before != {} && !local && t.tx.from !in t.locals ==>
               exists u :: u in t.before && u.price < t.tx.price
    ensures TurnOk(t, env, minPrice, local, config)
  {
    hide Sound, Cheapest, Full, Excess, Replaces, Justified;
    if t.err.Some? {
      RefusedPlace(t.taken, t.before, t.tx, env, minPrice, local || t.tx.from in t.locals, config);
    }
  }

  /** There is room for one more unless only local transactions are left. */
  lemma RoomForOne(t: Turn, local: bool, config: Config)
    requires Placing(t, local, config)
    requires !Full(t.before - Elems(t.drop), config) || forall u :: u in t.before - Elems(t.drop) ==> u.from in t.locals
    ensures || |t.after| <= config.globalSlots + config.globalQueue
            || forall u :: u in t.after && u != t.tx ==> u.from in t.locals
  {
    hide Replaces, InPlace, Elems;
    var mid := t.before - Elems(t.drop);
    SubsetSize(mid - t.taken, mid);
    if !Full(mid, config) {
      assert |mid - t.taken + {t.tx}| <= |mid - t.taken| + 1;
    }
  }

  lemma SubsetSize<T>(x: set<T>, y: set<T>)
    requires x <= y
    ensures |x| <= |y|
  {
    assert y - x + x == y;
  }

  /** A transaction left because another took its place at a better price, or because it was among
      the cheapest of a full pool. */
  ghost predicate Superseded(t: Turn, u: Tx, config: Config)
  {
    || (t.err.None? && u in t.taken && u.from == t.tx.from && u.nonce == t.tx.nonce
        && Replaces(u, t.tx, config.priceBump))
    || (u in t.drop && u.from !in t.locals && Full(t.before, config)
          && forall v :: v in t.before && v !in t.drop && v.from !in t.locals ==> !PriceLess(v, u))
  }

  lemma TurnLoses(t: Turn, env: Env, minPrice: nat, local: bool, config: Config, u: Tx)
    requires TurnOk(t, env, minPrice, local, config) && u in t.before && u !in t.after
    ensures Superseded(t, u, config)
  {
    hide Sound, Justified, Replaces, Full, PriceLess;
  }

  // ---------- several submissions ----------

  function AllAfter(turns: seq<Turn>, all: set<Tx>): (r: set<Tx>)
  {
    if |turns| == 0 then all else turns[|turns| - 1].after
  }

  function LocalsAfter(turns: seq<Turn>, locals: set<Addr>): (r: set<Addr>)
  {
    if |turns| == 0 then locals else turns[|turns| - 1].locals'
  }

  /** Accounts that got something new. */
  ghost function Dirty(turns: seq<Turn>): (r: set<Addr>)
  {
    set t | t in turns && t.err.None? && t.taken == {} :: t.tx.from
  }

  ghost predicate Batched(turns: seq<Turn>, txs: seq<Tx>, all: set<Tx>, locals: set<Addr>, env: Env, minPrice: nat,
                          local: bool, config: Config)
  {
    && |turns| <= |txs|
    && forall i :: 0 <= i < |turns| ==>
         && turns[i].tx == txs[i] && TurnOk(turns[i], env, minPrice, local, config)
         && turns[i].before == AllAfter(turns[..i], all) && turns[i].locals == LocalsAfter(turns[..i], locals)
  }

  lemma NothingDirty(turns: seq<Turn>)
    ensures |turns| == 0 ==> Dirty(turns) == {}
  {}

  lemma BatchedNone(txs: seq<Tx>, all: set<Tx>, locals: set<Addr>, env: Env, minPrice: nat, local: bool, config: Config)
    ensures Batched([], txs, all, locals, env, minPrice, local, config) && Dirty([]) == {}
  {}

  lemma BatchedNext(turns: seq<Turn>, txs: seq<Tx>, all: set<Tx>, locals: set<Addr>, env: Env, minPrice: nat,
                    local: bool, config: Config, t: Turn)
    requires Batched(turns, txs, all, locals, env, minPrice, local, config) && |turns| < |txs|
    requires t.tx == txs[|turns|] && TurnOk(t, env, minPrice, local, config)
    requires t.before == AllAfter(turns, all) && t.locals == LocalsAfter(turns, locals)
    ensures Batched(turns + [t], txs, all, locals, env, minPrice, local, config)
    ensures AllAfter(turns + [t], all) == t.after && LocalsAfter(turns + [t], locals) == t.locals'
    ensures Dirty(turns + [t]) == if t.err.None? && t.taken == {} then Dirty(turns) + {t.tx.from} else Dirty(turns)
  {
    hide TurnOk;
    var more := turns + [t];
    forall i | 0 <= i < |more|
      ensures more[i].before == AllAfter(more[..i], all) && more[i].locals == LocalsAfter(more[..i], locals)
    {
      assert more[..i] == turns[..i];
      assert i < |turns| ==> more[i] == turns[i];
      assert i == |turns| ==> turns[..i] == turns;
    }
  }

  /** What a batch loses, one of its submissions has superseded. */
  lemma {:induction false} BatchLoses(turns: seq<Turn>, txs: seq<Tx>, all: set<Tx>, locals: set<Addr>, env: Env,
                                      minPrice: nat, local: bool, config: Config, from: nat, u: Tx)
      returns (i: nat)
    requires Batched(turns, txs, all, locals, env, minPrice, local, config)
    requires from <= |turns| && u in AllAfter(turns[..from], all) && u !in AllAfter(turns, all)
    ensures from <= i < |turns| && Superseded(turns[i], u, config)
    decreases |turns| - from
  {
    hide TurnOk, Superseded;
    assert turns[..|turns|] == turns;
    var t := turns[from];
    assert turns[..from + 1][from] == t;
    if u in t.after {
      i := BatchLoses(turns, txs, all, locals, env, minPrice, local, config, from + 1, u);
    } else {
      TurnLoses(t, env, minPrice, local, config, u);
      i := from;
    }
  }

  /** What a batch brings, one of its submissions was accepted with. */
  lemma {:induction false} BatchBrings(turns: seq<Turn>, txs: seq<Tx>, all: set<Tx>, locals: set<Addr>, env: Env,
                                       minPrice: nat, local: bool, config: Config, to: nat, u: Tx)
      returns (i: nat)
    requires Batched(turns, txs, all, locals, env, minPrice, local, config)
    requires to <= |turns| && u !in all && u in AllAfter(turns[..to], all)
    ensures i < to && turns[i].err.None? && turns[i].tx == u
  {
    hide InPlace, Cheapest, Room, Sound, Justified;
    assert turns[..0] == [];
    var t := turns[to - 1];
    assert turns[..to][to - 1] == t;
    assert TurnOk(t, env, minPrice, local, config);
    if u in t.before {
      i := BatchBrings(turns, txs, all, locals, env, minPrice, local, config, to - 1, u);
    } else {
      i := to - 1;
    }
  }

  // ---------- promotion and limits ----------

  /** The effect of `promoteExecutables` on the given accounts. */
  ghost predicate Promotes(config: Config, b: Snap, m: Stage, f: Snap, accounts: set<Addr>)
  {
    && Agree(b.pending, b.queue, b.all) && Agree(f.pending, f.queue, f.all) && f.all <= b.all
    && f.locals == b.locals && f.env == b.env && f.gasPrice == b.gasPrice
    && PromotedAll(b.pending, b.queue, b.vnonce, m.pending, m.queue, m.vnonce, b.env, b.locals, config.accountQueue,
                   accounts)
    && TopsCut(m.pending, f.pending)
    && FairShare.Fair(Lengths(m.pending), Lengths(f.pending), Big(m.pending, b.locals, config.accountSlots),
                      config.accountSlots, config.globalSlots)
    && (Sum(Lengths(m.pending)) <= config.globalSlots ==> f.pending == m.pending && f.vnonce == m.vnonce)
    && (Tidy(m.pending, m.queue, m.vnonce, b.env, {}) ==> Orderly(f, {}))
    && QueueTrimmed(m.queue, f.queue, b.locals, f.beats, config.globalQueue)
  }

  predicate Outdated(t: Tx, env: Env)
  {
    t.nonce < env.Nonce(t.from)
  }

  predicate Costly(t: Tx, env: Env)
  {
    t.Cost() > env.Balance(t.from) || t.gas > env.maxGas
  }

  /** As many queued transactions of the account as it may have come before this one. */
  ghost predicate OverCap(t: Tx, queue: Lists, locals: set<Addr>, cap: nat)
  {
    t.from !in locals && |Txs(queue, t.from)| == cap && forall n :: n in Txs(queue, t.from) ==> n < t.nonce
  }

  /** There were too many executable transactions, and the account keeps its guaranteed number of
      earlier ones. */
  ghost predicate CutAway(t: Tx, pending: Lists, pending': Lists, locals: set<Addr>, config: Config)
  {
    && Has(Txs(pending, t.from), t) && Sum(Lengths(pending)) > config.globalSlots
    && t.from !in locals && |Txs(pending', t.from)| >= config.accountSlots
    && forall n :: n in Txs(pending', t.from) ==> n < t.nonce
  }

  /** There were too many queued transactions, and later ones of the account and of accounts active
      after it are gone as well. */
  ghost predicate TrimmedAway(t: Tx, queue: Lists, queue': Lists, locals: set<Addr>, beats: map<Addr, nat>,
                              config: Config)
  {
    && Has(Txs(queue, t.from), t) && Sum(Lengths(queue)) > config.globalQueue && t.from !in locals
    && (forall n :: n in Txs(queue', t.from) ==> n < t.nonce)
    && forall a :: a !in locals && Beat(beats, a) > Beat(beats, t.from) ==> Txs(queue', a) == map[]
  }

  /** The reasons for which a promotion loses a transaction. */
  ghost predicate Limited(config: Config, t: Tx, b: Snap, m: Stage, f: Snap)
  {
    || (Has(Txs(b.queue, t.from), t) && (Outdated(t, b.env) || Costly(t, b.env)))
    || (Has(Txs(b.queue, t.from), t) && OverCap(t, m.queue, b.locals, config.accountQueue))
    || CutAway(t, m.pending, f.pending, b.locals, config)
    || TrimmedAway(t, m.queue, f.queue, b.locals, f.beats, config)
  }

  /** A promotion loses nothing for any other reason. */
  lemma PromotionLoses(config: Config, b: Snap, m: Stage, f: Snap, accounts: set<Addr>, t: Tx)
    requires Promotes(config, b, m, f, accounts) && t in b.all && t !in f.all
    ensures Limited(config, t, b, m, f)
  {
    hide Agree, PromotedAll, TopsCut, FairShare.Fair, QueueTrimmed, CutAway, TrimmedAway, OverCap, Big, Lengths, Txs;
    hide Costly;
    var a := t.from;
    LotOf(b.pending, b.queue, b.all, a);
    LotOf(f.pending, f.queue, f.all, a);
    Promotion(config, b, m, accounts, t);
    if Has(Txs(m.pending, a), t) {
      CutReason(m.pending, f.pending, b.locals, config, t);
    }
    if Has(Txs(m.queue, a), t) {
      TrimReason(m.queue, f.queue, b.locals, f.beats, config, t);
    }
  }

  /** Where promotion puts a transaction of the pool, unless it drops it. */
  lemma Promotion(config: Config, b: Snap, m: Stage, accounts: set<Addr>, t: Tx)
    requires PromotedAll(b.pending, b.queue, b.vnonce, m.pending, m.queue, m.vnonce, b.env, b.locals,
                         config.accountQueue, accounts)
    requires Sane(Lot(b.pending, b.queue, t.from), t.from) && Holds(Lot(b.pending, b.queue, t.from), t)
    ensures || Has(Txs(m.pending, t.from), t) || Has(Txs(m.queue, t.from), t)
            || (Has(Txs(b.queue, t.from), t)
                && (Outdated(t, b.env) || Costly(t, b.env) || OverCap(t, m.queue, b.locals, config.accountQueue)))
  {
    hide CapTo, ReadyKeys, Promoted;
    var a := t.from;
    var acc := AccountOf(b.pending, b.queue, b.vnonce, b.env, a);
    assert AccountOf(m.pending, m.queue, m.vnonce, b.env, a) ==
      PromotedFrom(b.pending, b.queue, b.vnonce, b.env, b.locals, config.accountQueue, accounts, a);
    if a in accounts && a in b.queue {
      PromotedWhere(acc, a, b.env.Nonce(a), b.env.Balance(a), b.env.maxGas, a in b.locals, config.accountQueue, t);
    }
  }

  lemma PromotedWhere(acc: Account, a: Addr, s: nat, balance: int, maxGas: nat, isLocal: bool, cap: nat, t: Tx)
    requires Sane(acc, a) && Holds(acc, t)
    ensures var r := Promoted(acc, s, balance, maxGas, isLocal, cap);
            || Has(r.pend, t) || Has(r.queue, t)
            || (Has(acc.queue, t)
                && (t.nonce < s || t.Cost() > balance || t.gas > maxGas || PastCap(r.queue, t, isLocal, cap)))
  {
    hide CapTo, ReadyKeys, Usable, PastCap;
    var q := Usable(acc, s, balance, maxGas);
    var run := ReadyKeys(q, acc.vnonce);
    if Has(acc.queue, t) {
      UsableUnless(acc, s, balance, maxGas, t);
      if t.nonce in q && t.nonce !in run {
        assert Has(q - run, t);
        CappedOff(q - run, isLocal, cap, t);
      }
    }
  }

  ghost predicate PastCap(kept: TxMap, t: Tx, isLocal: bool, cap: nat)
  {
    !isLocal && |kept| == cap && forall n :: n in kept ==> n < t.nonce
  }

  lemma UsableUnless(acc: Account, s: nat, balance: int, maxGas: nat, t: Tx)
    requires Has(acc.queue, t)
    ensures Has(Usable(acc, s, balance, maxGas), t) || t.nonce < s || t.Cost() > balance || t.gas > maxGas
  {}

  lemma CappedOff(m: TxMap, isLocal: bool, cap: nat, t: Tx)
    requires Has(m, t)
    ensures var kept := if isLocal then m else CapTo(m, cap);
            Has(kept, t) || PastCap(kept, t, isLocal, cap)
  {}

  /** What the cut takes away had too much company. */
  lemma CutReason(pending: Lists, pending': Lists, locals: set<Addr>, config: Config, t: Tx)
    requires TopsCut(pending, pending') && Has(Txs(pending, t.from), t) && !Has(Txs(pending', t.from), t)
    requires FairShare.Fair(Lengths(pending), Lengths(pending'), Big(pending, locals, config.accountSlots),
                            config.accountSlots, config.globalSlots)
    ensures CutAway(t, pending, pending', locals, config)
  {
    hide Sum, FairShare.Fair, CapTo;
    var a := t.from;
    CapAll(pending[a].txs);
    assert a in Lengths(pending) && a in Lengths(pending');
    FairShare.Shortened(Lengths(pending), Lengths(pending'), Big(pending, locals, config.accountSlots),
                        config.accountSlots, config.globalSlots, a);
  }

  lemma TrimReason(queue: Lists, queue': Lists, locals: set<Addr>, beats: map<Addr, nat>, config: Config, t: Tx)
    requires QueueTrimmed(queue, queue', locals, beats, config.globalQueue)
    requires Has(Txs(queue, t.from), t) && !Has(Txs(queue', t.from), t)
    ensures TrimmedAway(t, queue, queue', locals, beats, config)
  {
    hide Sum, Lengths;
    assert Txs(queue', t.from) == CapTo(Txs(queue, t.from), |Txs(queue', t.from)|);
  }

  // ---------- whole operations ----------

  /** What happens to a pool from outside. */
  datatype Command =
    | Submit(tx: Tx, local: bool, submitted: nat)
    | Batch(txs: seq<Tx>, local: bool, submitted: nat)
    | Price(price: nat)
    | Age(now: nat, lifetime: nat)
    | Head(env: Env, reinject: seq<Tx>, seen: nat)

  /** What an operation does on its way: the submissions, the pool after them, and the lists
      between promotion and limits. A change of head goes on with a pool `low` from which outdated
      transactions go, the pool `next` after that, and a second promotion. */
  datatype Detail =
    | Plain
    | Added(turns: seq<Turn>, met: Snap, mid: Stage)
    | Moved(turns: seq<Turn>, met: Snap, mid: Stage, low: Snap, next: Snap, top: Stage)

  ghost predicate Entered(config: Config, s: Snap, txs: seq<Tx>, local: bool, turns: seq<Turn>, b: Snap)
  {
    && |turns| == |txs| && Batched(turns, txs, s.all, s.locals, s.env, s.gasPrice, local, config)
    && b.all == AllAfter(turns, s.all) && b.locals == LocalsAfter(turns, s.locals)
    && b.env == s.env && b.gasPrice == s.gasPrice && (txs == [] ==> b == s)
    && (Orderly(s, {}) ==> Orderly(b, Dirty(turns)))
  }

  /** Submissions one after the other, then promotion of the accounts that got something new. */
  ghost predicate Inserted(config: Config, s: Snap, txs: seq<Tx>, local: bool, turns: seq<Turn>, b: Snap, m: Stage,
                           f: Snap)
  {
    && Entered(config, s, txs, local, turns, b)
    && if Dirty(turns) == {} then f == b else Promotes(config, b, m, f, Dirty(turns))
  }

  /** The effect of `demoteUnexecutables` and of setting the virtual nonces afterwards. */
  ghost predicate Demotes(b: Snap, f: Snap)
  {
    && Agree(b.pending, b.queue, b.all) && Agree(f.pending, f.queue, f.all) && f.all <= b.all
    && f.locals == b.locals && f.env == b.env && f.gasPrice == b.gasPrice
    && (forall a :: DemotedTo(b.pending, b.queue, f.pending, f.queue, b.env, a))
    && (forall a :: a in f.pending ==> |f.pending[a].txs| > 0)
    && f.vnonce == Renumbering(b.vnonce, f.pending)
  }

  function Renumbering(vnonce: map<Addr, nat>, pending: Lists): (r: map<Addr, nat>)
    requires forall a :: a in pending ==> |pending[a].txs| > 0
  {
    map a | a in vnonce.Keys + pending.Keys :: if a in pending then MaxOf(pending[a].txs.Keys) + 1 else vnonce[a]
  }

  lemma RenumberStart(vnonce: map<Addr, nat>, pending: Lists)
    ensures Renumbering(vnonce, pending - pending.Keys) == vnonce
  {
    hide MaxOf;
    assert pending - pending.Keys == map[];
  }

  lemma RenumberNext(vnonce: map<Addr, nat>, pending: Lists, left: set<Addr>, a: Addr)
    requires (forall b :: b in pending ==> |pending[b].txs| > 0) && left <= pending.Keys && a in left
    ensures Renumbering(vnonce, pending - (left - {a})) ==
              Renumbering(vnonce, pending - left)[a := MaxOf(pending[a].txs.Keys) + 1]
  {
    hide MaxOf;
  }

  /** The state a change of head starts from: new nonces and balances, virtual nonces forgotten. */
  function At(s: Snap, env: Env): (r: Snap)
  {
    s.(env := env, vnonce := map[])
  }

  /** An operation did what it is for, by way of the given detail. */
  ghost predicate Legit(config: Config, c: Command, s: Snap, d: Detail, f: Snap)
  {
    match c
    case Submit(tx, local, _) => d.Added? && Inserted(config, s, [tx], local, d.turns, d.met, d.mid, f)
    case Batch(txs, local, _) => d.Added? && Inserted(config, s, txs, local, d.turns, d.met, d.mid, f)
    case Price(price) =>
      && d.Plain? && f.gasPrice == price && f.env == s.env && f.locals == s.locals
      && forall t :: t in f.all <==> t in s.all && (t.from in s.locals || t.price >= price)
    case Age(now, lifetime) =>
      && d.Plain? && f == s.(queue := f.queue, all := f.all)
      && Agree(s.pending, s.queue, s.all) && Agree(f.pending, f.queue, f.all)
      && forall a :: Txs(f.queue, a) ==
           if Quiet(s.queue, s.locals, s.beats, now, lifetime, a) then map[] else Txs(s.queue, a)
    case Head(env, reinject, _) =>
      && d.Moved? && Inserted(config, At(s, env), reinject, false, d.turns, d.met, d.mid, d.low)
      && Demotes(d.low, d.next) && Promotes(config, d.next, d.top, f, d.next.queue.Keys)
  }

  /** The pool after the given number of submissions of an operation. */
  function Held(s: Snap, d: Detail, from: nat): (r: set<Tx>)
    requires !d.Plain? ==> from <= |d.turns|
  {
    if d.Plain? then s.all else AllAfter(d.turns[..from], s.all)
  }

  /** Superseded by a later submission, or by a limit when accounts were promoted. */
  ghost predicate LostIn(config: Config, turns: seq<Turn>, b: Snap, m: Stage, f: Snap, from: nat, t: Tx)
  {
    || (exists i :: from <= i < |turns| && Superseded(turns[i], t, config))
    || (Dirty(turns) != {} && Limited(config, t, b, m, f))
  }

  /** The reasons for which a transaction can leave the pool during an operation, after the given
      number of its submissions. */
  ghost predicate Excused(config: Config, c: Command, s: Snap, d: Detail, f: Snap, from: nat, t: Tx)
    requires Legit(config, c, s, d, f)
  {
    match c
    case Submit(_, _, _) => LostIn(config, d.turns, d.met, d.mid, f, from, t)
    case Batch(_, _, _) => LostIn(config, d.turns, d.met, d.mid, f, from, t)
    case Price(price) => t.from !in s.locals && t.price < price
    case Age(now, lifetime) => Has(Txs(s.queue, t.from), t) && Quiet(s.queue, s.locals, s.beats, now, lifetime, t.from)
    case Head(env, _, _) =>
      || LostIn(config, d.turns, d.met, d.mid, d.low, from, t)
      || (Has(Txs(d.low.pending, t.from), t) && (Outdated(t, env) || Costly(t, env)))
      || Limited(config, t, d.next, d.top, f)
  }

  lemma InsertionLoses(config: Config, s: Snap, txs: seq<Tx>, local: bool, turns: seq<Turn>, b: Snap, m: Stage,
                       f: Snap, from: nat, t: Tx)
    requires Inserted(config, s, txs, local, turns, b, m, f)
    requires from <= |turns| && t in AllAfter(turns[..from], s.all) && t !in f.all
    ensures LostIn(config, turns, b, m, f, from, t)
  {
    hide Batched, Superseded, Promotes, Limited, Orderly;
    if t !in b.all {
      var i := BatchLoses(turns, txs, s.all, s.locals, s.env, s.gasPrice, local, config, from, t);
    } else {
      PromotionLoses(config, b, m, f, Dirty(turns), t);
    }
  }

  lemma DemotionLoses(b: Snap, f: Snap, t: Tx)
    requires Demotes(b, f) && t in b.all && t !in f.all
    ensures Has(Txs(b.pending, t.from), t) && (Outdated(t, b.env) || Costly(t, b.env))
  {
    hide Agree, Demoted, Holds, Sane;
    var a := t.from;
    LotOf(b.pending, b.queue, b.all, a);
    LotOf(f.pending, f.queue, f.all, a);
    assert DemotedTo(b.pending, b.queue, f.pending, f.queue, b.env, a);
    DemotedHolds(Lot(b.pending, b.queue, a), a, b.env.Nonce(a), b.env.Balance(a), b.env.maxGas);
    HoldsAlike(Lot(f.pending, f.queue, a),
               Demoted(Lot(b.pending, b.queue, a), b.env.Nonce(a), b.env.Balance(a), b.env.maxGas), t);
  }

  lemma HoldsAlike(x: Account, y: Account, t: Tx)
    ensures x.pend == y.pend && x.queue == y.queue ==> (Holds(x, t) <==> Holds(y, t))
  {}

  /** Nothing leaves the pool without one of the reasons. */
  lemma Accounted(config: Config, c: Command, s: Snap, d: Detail, f: Snap, from: nat, t: Tx)
    requires Legit(config, c, s, d, f) && (!d.Plain? ==> from <= |d.turns|)
    requires t in Held(s, d, from) && t !in f.all
    ensures Excused(config, c, s, d, f, from, t)
  {
    hide Inserted, Demotes, Promotes, Limited, Superseded, LostIn, Agree, Quiet, Outdated, Costly;
    match c
    case Submit(tx, local, _) =>
      InsertionLoses(config, s, [tx], local, d.turns, d.met, d.mid, f, from, t);
    case Batch(txs, local, _) =>
      InsertionLoses(config, s, txs, local, d.turns, d.met, d.mid, f, from, t);
    case Price(_) =>
    case Age(_, _) =>
      LotOf(s.pending, s.queue, s.all, t.from);
      LotOf(f.pending, f.queue, f.all, t.from);
    case Head(env, reinject, _) =>
      if t !in d.low.all {
        InsertionLoses(config, At(s, env), reinject, false, d.turns, d.met, d.mid, d.low, from, t);
      } else if t !in d.next.all {
        DemotionLoses(d.low, d.next, t);
        LowEnv(config, At(s, env), reinject, d.turns, d.met, d.mid, d.low);
      } else {
        PromotionLoses(config, d.next, d.top, f, d.next.queue.Keys, t);
      }
  }

  lemma LowEnv(config: Config, s: Snap, txs: seq<Tx>, turns: seq<Turn>, b: Snap, m: Stage, f: Snap)
    requires Inserted(config, s, txs, false, turns, b, m, f)
    ensures f.env == s.env
  {
    hide Batched, PromotedAll, FairShare.Fair, TopsCut, QueueTrimmed, Agree, Orderly;
  }

  lemma AcceptedIn(config: Config, s: Snap, txs: seq<Tx>, local: bool, turns: seq<Turn>, b: Snap, i: nat)
    requires Entered(config, s, txs, local, turns, b) && i < |turns| && turns[i].err.None?
    ensures turns[i].tx in AllAfter(turns[..i + 1], s.all)
  {
    hide Sound, Justified, InPlace, Cheapest, Room, Orderly, Dirty, Replaces;
    assert turns[..i + 1][i] == turns[i];
    assert TurnOk(turns[i], s.env, s.gasPrice, local, config);
  }

  /** A transaction that was accepted is in the pool afterwards unless it left for a reason. */
  lemma NewKept(config: Config, c: Command, s: Snap, d: Detail, f: Snap, i: nat)
    requires Legit(config, c, s, d, f) && !d.Plain? && i < |d.turns| && d.turns[i].err.None?
    ensures d.turns[i].tx in f.all || Excused(config, c, s, d, f, i + 1, d.turns[i].tx)
  {
    hide Excused, Promotes, Demotes, Entered, Dirty;
    match c {
      case Submit(tx, local, _) => AcceptedIn(config, s, [tx], local, d.turns, d.met, i);
      case Batch(txs, local, _) => AcceptedIn(config, s, txs, local, d.turns, d.met, i);
      case Head(env, reinject, _) => AcceptedIn(config, At(s, env), reinject, false, d.turns, d.met, i);
    }
    if d.turns[i].tx !in f.all {
      Accounted(config, c, s, d, f, i + 1, d.turns[i].tx);
    }
  }

  /** Nothing comes into the pool but what was submitted and accepted. */
  lemma NothingElse(config: Config, c: Command, s: Snap, d: Detail, f: Snap, t: Tx)
    requires Legit(config, c, s, d, f) && t in f.all && t !in s.all
    ensures !d.Plain? && exists i :: 0 <= i < |d.turns| && d.turns[i].err.None? && d.turns[i].tx == t
  {
    hide Batched, PromotedAll, FairShare.Fair, TopsCut, QueueTrimmed, Agree, Orderly, Quiet, DemotedTo;
    if c.Age? {
      LotOf(s.pending, s.queue, s.all, t.from);
      LotOf(f.pending, f.queue, f.all, t.from);
    } else if !c.Price? {
      var s1 := if c.Head? then At(s, c.env) else s;
      var txs := match c case Submit(tx, _, _) => [tx] case Batch(txs, _, _) => txs case Head(_, txs, _) => txs;
      assert d.turns[..|d.turns|] == d.turns;
      var i := BatchBrings(d.turns, txs, s1.all, s1.locals, s1.env, s1.gasPrice, !c.Head? && c.local, config, |d.turns|,
                           t);
    }
  }

  // ---------- order after a new head ----------

  ghost function AccountIn(s: Snap, a: Addr): (acc: Account)
  {
    AccountOf(s.pending, s.queue, s.vnonce, s.env, a)
  }

  /** Every account is such that demotion and promotion leave it without gaps. */
  ghost predicate AllSettled(s: Snap)
  {
    forall a :: Settled(AccountIn(s, a), s.env.Nonce(a), s.env.Balance(a), s.env.maxGas)
  }

  lemma DemotedAccount(b: Snap, f: Snap, a: Addr)
    requires Demotes(b, f)
    ensures AccountIn(f, a) == Renumbered(Demoted(AccountIn(b, a), b.env.Nonce(a), b.env.Balance(a), b.env.maxGas))
  {
    hide Agree, Demoted, MaxOf;
    var acc := AccountIn(b, a);
    assert DemotedTo(b.pending, b.queue, f.pending, f.queue, b.env, a);
    DemotedAlike(acc.pend, acc.queue, acc.vnonce, 0, b.env.Nonce(a), b.env.Balance(a), b.env.maxGas);
    NothingDemoted(acc, b.env.Nonce(a), b.env.Balance(a), b.env.maxGas);
  }

  lemma NothingDemoted(acc: Account, s: nat, balance: int, maxGas: nat)
    ensures Demoted(acc, s, balance, maxGas).vnonce == acc.vnonce
    ensures acc.pend == map[] ==> Demoted(acc, s, balance, maxGas) == acc
  {
    hide Kept, Sub;
    KeptParts(acc, s, balance, maxGas);
    if acc.pend == map[] {
      var f := Kept(acc, s, balance, maxGas);
      assert f.list.txs == map[] && f.invalid == {};
      SubKeys(acc.queue, acc.pend, {});
    }
  }

  lemma NothingPromoted(acc: Account, s: nat, balance: int, maxGas: nat, isLocal: bool, cap: nat)
    requires acc.queue == map[]
    ensures Promoted(acc, s, balance, maxGas, isLocal, cap) == acc
  {
    hide Sub;
    SubKeys(acc.pend, map[], {});
  }

  /** An account after a change of head, before the limits. */
  lemma TopAccount(config: Config, low: Snap, next: Snap, top: Stage, f: Snap, a: Addr)
    requires Demotes(low, next) && Promotes(config, next, top, f, next.queue.Keys)
    ensures var s, balance, maxGas := low.env.Nonce(a), low.env.Balance(a), low.env.maxGas;
            && Sane(AccountIn(low, a), a)
            && AccountOf(top.pending, top.queue, top.vnonce, low.env, a) ==
                 Promoted(Renumbered(Demoted(AccountIn(low, a), s, balance, maxGas)), s, balance, maxGas,
                          a in low.locals, config.accountQueue)
  {
    hide Agree, Demoted, Promoted, Renumbered, DemotedTo, FairShare.Fair, TopsCut, QueueTrimmed, Orderly, Tidy;
    DemotedAccount(low, next, a);
    LotOf(low.pending, low.queue, low.all, a);
    assert AccountOf(top.pending, top.queue, top.vnonce, next.env, a) ==
      PromotedFrom(next.pending, next.queue, next.vnonce, next.env, next.locals, config.accountQueue, next.queue.Keys,
                   a);
    if a !in next.queue {
      NothingPromoted(AccountIn(next, a), low.env.Nonce(a), low.env.Balance(a), low.env.maxGas, a in low.locals,
                      config.accountQueue);
    }
  }

  /** After a change of head the pool is in order if all accounts were settled before demotion,
      and unless something had to be cut, only then. */
  lemma HeadOrder(config: Config, low: Snap, next: Snap, top: Stage, f: Snap)
    requires Demotes(low, next) && Promotes(config, next, top, f, next.queue.Keys)
    ensures AllSettled(low) ==> Orderly(f, {})
    ensures Sum(Lengths(top.pending)) <= config.globalSlots && Orderly(f, {}) ==> AllSettled(low)
  {
    hide Agree, Demoted, Promoted, Renumbered, DemotedTo, FairShare.Fair, TopsCut, QueueTrimmed, Contiguous, Settled;
    hide Range, Sum, Lengths;
    forall a ensures var acc := AccountOf(top.pending, top.queue, top.vnonce, low.env, a);
                     && (Settled(AccountIn(low, a), low.env.Nonce(a), low.env.Balance(a), low.env.maxGas) ==>
                           Contiguous(acc, low.env.Nonce(a)))
                     && (low.env.Nonce(a) <= acc.vnonce && Range(acc.pend, low.env.Nonce(a), acc.vnonce) ==>
                           Settled(AccountIn(low, a), low.env.Nonce(a), low.env.Balance(a), low.env.maxGas)) {
      TopAccount(config, low, next, top, f, a);
      SettledExactly(AccountIn(low, a), a, low.env.Nonce(a), low.env.Balance(a), low.env.maxGas, a in low.locals,
                     config.accountQueue);
    }
    if Sum(Lengths(top.pending)) <= config.globalSlots && Orderly(f, {}) {
      forall a ensures Settled(AccountIn(low, a), low.env.Nonce(a), low.env.Balance(a), low.env.maxGas) {
        InRange(AccountIn(f, a), low.env.Nonce(a));
        var acc := AccountOf(top.pending, top.queue, top.vnonce, low.env, a);
        assert acc.pend == AccountIn(f, a).pend && acc.vnonce == AccountIn(f, a).vnonce;
      }
    }
  }

  lemma InRange(acc: Account, s: nat)
    ensures Contiguous(acc, s) ==> s <= acc.vnonce && Range(acc.pend, s, acc.vnonce)
  {}

  /** A pool in order is settled at any new head. */
  lemma OrderSettled(s: Snap, env: Env)
    requires Orderly(s, {})
    ensures AllSettled(At(s, env))
  {
    hide Contiguous, Settled;
    forall a ensures Settled(AccountIn(At(s, env), a), env.Nonce(a), env.Balance(a), env.maxGas) {
      ContiguousSettled(AccountIn(s, a), s.env.Nonce(a), env.Nonce(a), env.Balance(a), env.maxGas);
      assert AccountIn(At(s, env), a) == AccountIn(s, a).(vnonce := env.Nonce(a));
    }
  }

  // ---------- runs ----------

  datatype Event = Event(c: Command, before: Snap, detail: Detail, after: Snap)

  /** One event for each command, each from where the one before it ended. */
  ghost predicate Trail(config: Config, commands: seq<Command>, events: seq<Event>, s: Snap)
  {
    && |events| <= |commands|
    && forall i :: 0 <= i < |events| ==>
         && events[i].c == commands[i] && events[i].before == Reached(events[..i], s)
         && Legit(config, events[i].c, events[i].before, events[i].detail, events[i].after)
  }

  ghost predicate ExcusedIn(config: Config, e: Event, t: Tx)
  {
    && Legit(config, e.c, e.before, e.detail, e.after)
    && Excused(config, e.c, e.before, e.detail, e.after, 0, t)
  }

  function Reached(events: seq<Event>, s: Snap): (f: Snap)
  {
    if |events| == 0 then s else events[|events| - 1].after
  }

  lemma NoTrail(config: Config, commands: seq<Command>, s: Snap)
    ensures Trail(config, commands, [], s) && Reached([], s) == s
  {}

  /** No change of head brought transactions back, or all accounts were settled afterwards. */
  ghost predicate OrderKept(e: Event)
  {
    e.c.Head? && e.c.reinject != [] ==> e.detail.Moved? && AllSettled(e.detail.low)
  }

  ghost predicate InOrder(events: seq<Event>)
  {
    forall e :: e in events ==> OrderKept(e)
  }

  lemma InOrderNext(events: seq<Event>, e: Event)
    ensures InOrder(events + [e]) <==> InOrder(events) && OrderKept(e)
  {
    hide OrderKept;
    assert e in events + [e];
    assert forall x :: x in events ==> x in events + [e];
  }

  lemma TrailNext(config: Config, commands: seq<Command>, events: seq<Event>, s: Snap, e: Event)
    requires Trail(config, commands, events, s) && |events| < |commands| && e.c == commands[|events|]
    requires e.before == Reached(events, s) && Legit(config, e.c, e.before, e.detail, e.after)
    ensures Trail(config, commands, events + [e], s) && Reached(events + [e], s) == e.after
  {
    hide Legit;
    var more := events + [e];
    forall i | 0 <= i < |more| ensures more[i].before == Reached(more[..i], s) {
      assert more[..i] == events[..i];
      assert i < |events| ==> more[i] == events[i];
      assert i == |events| ==> events[..i] == events;
    }
  }

  /** What was in the pool at some point of a run and is not in it at the end left in one of the
      later events, and for one of the reasons. */
  lemma {:induction false} RunAccounted(config: Config, commands: seq<Command>, events: seq<Event>, s: Snap, from: nat,
                                        t: Tx) returns (i: nat)
    requires Trail(config, commands, events, s) && from <= |events|
    requires t in Reached(events[..from], s).all && t !in Reached(events, s).all
    ensures from <= i < |events| && t in events[i].before.all && t !in events[i].after.all
    ensures ExcusedIn(config, events[i], t)
    decreases |events| - from
  {
    hide Legit, Excused;
    assert events[..|events|] == events;
    var e := events[from];
    assert events[..from + 1][from] == e;
    if t in e.after.all {
      i := RunAccounted(config, commands, events, s, from + 1, t);
    } else {
      i := from;
      Accounted(config, e.c, e.before, e.detail, e.after, 0, t);
    }
  }

  /** What was accepted somewhere in a run is in the pool at the end, or left for a reason in the
      same event or in a later one. */
  lemma RunKept(config: Config, commands: seq<Command>, events: seq<Event>, s: Snap, k: nat, i: nat)
    requires Trail(config, commands, events, s) && k < |events|
    requires !events[k].detail.Plain? && i < |events[k].detail.turns| && events[k].detail.turns[i].err.None?
    ensures var t, e := events[k].detail.turns[i].tx, events[k];
            || t in Reached(events, s).all
            || Excused(config, e.c, e.before, e.detail, e.after, i + 1, t)
            || exists j :: k < j < |events| && ExcusedIn(config, events[j], t)
  {
    hide Legit, Excused;
    var e := events[k];
    var t := e.detail.turns[i].tx;
    NewKept(config, e.c, e.before, e.detail, e.after, i);
    if t in e.after.all && t !in Reached(events, s).all {
      assert events[..k + 1][k] == e;
      var j := RunAccounted(config, commands, events, s, k + 1, t);
    }
  }
}
