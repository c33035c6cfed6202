/** Gas and wei through a transaction and a block: core/gaspool.go, core/state_transition.go,
    core/state_processor.go, and the receipt fields that core/blockchain.go derives. The virtual
    machine is a parameter with two laws: it gives back no more gas than it got, and it neither
    creates nor destroys wei. */
module GasAccounting {
  import opened Basics
  import opened Sums
  import opened IntrinsicGas

  type Balances = map<nat, nat>

  datatype Message = Message(from: nat, nonce: nat, checkNonce: bool, price: nat, gas: nat, value: nat, data: seq<int>,
                             creation: bool)

  datatype GasError = NonceTooHigh | NonceTooLow | CannotPayGas | GasLimitReached | OutOfGas | InsufficientBalance

  /** What the machine answers: balances, nonces, gas left, refund counter, and its error if any. */
  datatype Outcome = Outcome(balances: Balances, nonces: map<nat, nat>, left: nat, refund: nat, failed: bool,
                             insufficient: bool)

  type Machine = (Balances, map<nat, nat>, Message, nat) -> Outcome

  ghost predicate Lawful(evm: Machine)
  {
    forall b: Balances, n: map<nat, nat>, m: Message, g: nat ::
      evm(b, n, m, g).left <= g && Sum(evm(b, n, m, g).balances) == Sum(b)
  }

  lemma Obeys(evm: Machine, b: Balances, n: map<nat, nat>, m: Message, g: nat)
    requires Lawful(evm)
    ensures evm(b, n, m, g).left <= g && Sum(evm(b, n, m, g).balances) == Sum(b)
  {}

  function Get(m: map<nat, nat>, a: nat): (v: nat)
  {
    if a in m then m[a] else 0
  }

  function Credit(b: Balances, a: nat, amount: nat): (r: Balances)
  {
    b[a := Get(b, a) + amount]
  }

  function Debit(b: Balances, a: nat, amount: nat): (r: Balances)
    requires Get(b, a) >= amount
  {
    b[a := Get(b, a) - amount]
  }

  function Wei(gas: nat, price: nat): (w: nat)
  {
    gas * price
  }

  lemma WeiSplit(gas: nat, used: nat, price: nat)
    requires used <= gas
    ensures Wei(gas - used, price) + Wei(used, price) == Wei(gas, price)
  {
    assert (gas - used) * price == gas * price - used * price;
  }

  lemma CreditSum(b: Balances, a: nat, amount: nat)
    ensures Sum(Credit(b, a, amount)) == Sum(b) + amount
  {
    hide Sum;
    SumBut(b, Credit(b, a, amount), a);
  }

  lemma DebitSum(b: Balances, a: nat, amount: nat)
    requires Get(b, a) >= amount
    ensures Sum(Debit(b, a, amount)) == Sum(b) - amount
  {
    hide Sum;
    SumBut(b, Debit(b, a, amount), a);
  }

  // ---------- the gas pool ----------

  class GasPool {
    var gas: nat

    constructor ()
      ensures gas == 0
    {
      gas := 0;
    }

    /** The code panics where this requires is not met. */
    method AddGas(amount: nat)
      requires gas + amount < U64
      modifies this
      ensures gas == old(gas) + amount
    {
      gas := gas + amount;
    }

    method SubGas(amount: nat) returns (ok: bool)
      modifies this
      ensures ok <==> amount <= old(gas)
      ensures gas == if ok then old(gas) - amount else old(gas)
    {
      if gas < amount {
        return false;
      }
      gas := gas - amount;
      return true;
    }
  }

  // ---------- one transaction ----------

  /** The gas a transaction pays for, given what the machine left and its refund counter. */
  function Used(limit: nat, left: nat, refund: nat): (g: nat)
    requires left <= limit
    ensures limit - left <= 2 * g && g <= limit - left
  {
    var spent := limit - left;
    spent - if spent / 2 > refund then refund else spent / 2
  }

  /** Balances after the gas has been bought. */
  function Prepaid(b: Balances, msg: Message): (r: Balances)
    requires Get(b, msg.from) >= Wei(msg.gas, msg.price)
  {
    Debit(b, msg.from, Wei(msg.gas, msg.price))
  }

  /** Balances after sender and miner have been paid for unused and used gas. */
  function Paid(b: Balances, msg: Message, coinbase: nat, used: nat): (r: Balances)
    requires used <= msg.gas
  {
    Credit(Credit(b, msg.from, Wei(msg.gas - used, msg.price)), coinbase, Wei(used, msg.price))
  }

  /** Buying all the gas, running, and settling creates and destroys no wei. */
  lemma PaidSum(b: Balances, run: Balances, msg: Message, coinbase: nat, used: nat)
    requires Get(b, msg.from) >= Wei(msg.gas, msg.price) && used <= msg.gas && Sum(run) == Sum(Prepaid(b, msg))
    ensures Sum(Paid(run, msg, coinbase, used)) == Sum(b)
  {
    hide Sum, Credit, Debit, Wei, Get;
    DebitSum(b, msg.from, Wei(msg.gas, msg.price));
    CreditSum(run, msg.from, Wei(msg.gas - used, msg.price));
    CreditSum(Credit(run, msg.from, Wei(msg.gas - used, msg.price)), coinbase, Wei(used, msg.price));
    WeiSplit(msg.gas, used, msg.price);
  }

  /** Nonces when the machine starts: a plain call counts the sender's nonce up first. */
  function Counted(nonces: map<nat, nat>, msg: Message): (r: map<nat, nat>)
  {
    if msg.creation then nonces else nonces[msg.from := Get(nonces, msg.from) + 1]
  }

  // ---------- when a transaction is refused ----------

  predicate NonceFits(msg: Message, n: map<nat, nat>)
  {
    msg.checkNonce ==> msg.nonce == Get(n, msg.from)
  }

  /** The message passes the checks before it runs and its gas can be bought. */
  predicate Buys(msg: Message, b: Balances, n: map<nat, nat>, pool: nat)
  {
    NonceFits(msg, n) && Get(b, msg.from) >= Wei(msg.gas, msg.price) && pool >= msg.gas
  }

  predicate CoversIntrinsic(msg: Message, homestead: bool)
  {
    Intrinsic(msg.data, msg.creation, homestead) < U64 && Intrinsic(msg.data, msg.creation, homestead) <= msg.gas
  }

  /** What the machine answers when the message gets that far. */
  function Run(evm: Machine, msg: Message, homestead: bool, b: Balances, n: map<nat, nat>): (o: Outcome)
    requires Get(b, msg.from) >= Wei(msg.gas, msg.price) && Intrinsic(msg.data, msg.creation, homestead) <= msg.gas
  {
    evm(Prepaid(b, msg), Counted(n, msg), msg, msg.gas - Intrinsic(msg.data, msg.creation, homestead))
  }

  /** The one reason for which a message is refused. */
  ghost predicate Fails(e: GasError, evm: Machine, msg: Message, homestead: bool, b: Balances, n: map<nat, nat>,
                        pool: nat)
  {
    match e
    case NonceTooHigh => msg.checkNonce && msg.nonce > Get(n, msg.from)
    case NonceTooLow => msg.checkNonce && msg.nonce < Get(n, msg.from)
    case CannotPayGas => NonceFits(msg, n) && Get(b, msg.from) < Wei(msg.gas, msg.price)
    case GasLimitReached => NonceFits(msg, n) && Get(b, msg.from) >= Wei(msg.gas, msg.price) && pool < msg.gas
    case OutOfGas => Buys(msg, b, n, pool) && !CoversIntrinsic(msg, homestead)
    case InsufficientBalance =>
      && Buys(msg, b, n, pool) && CoversIntrinsic(msg, homestead)
      && Run(evm, msg, homestead, b, n).failed && Run(evm, msg, homestead, b, n).insufficient
  }

  lemma OneFailure(e: GasError, e': GasError, evm: Machine, msg: Message, homestead: bool, b: Balances,
                   n: map<nat, nat>, pool: nat)
    requires Fails(e, evm, msg, homestead, b, n, pool) && Fails(e', evm, msg, homestead, b, n, pool)
    ensures e == e'
  {}

  class StateTransition {
    const gp: GasPool
    const msg: Message
    const evm: Machine
    const coinbase: nat
    const homestead: bool
    var gas: nat
    var initialGas: nat
    var balances: Balances
    var nonces: map<nat, nat>
    var refund: nat

    constructor (gp: GasPool, msg: Message, evm: Machine, coinbase: nat, homestead: bool, balances: Balances,
                 nonces: map<nat, nat>)
      ensures this.gp == gp && this.msg == msg && this.evm == evm && this.coinbase == coinbase
      ensures this.homestead == homestead
      ensures this.balances == balances && this.nonces == nonces && gas == 0
    {
      this.gp, this.msg, this.evm, this.coinbase, this.homestead := gp, msg, evm, coinbase, homestead;
      this.balances, this.nonces := balances, nonces;
      gas, initialGas, refund := 0, 0, 0;
    }

    method UseGas(amount: nat) returns (ok: bool)
      modifies this`gas
      ensures ok <==> amount <= old(gas)
      ensures gas == if ok then old(gas) - amount else old(gas)
    {
      if gas < amount {
        return false;
      }
      gas := gas - amount;
      return true;
    }

    method BuyGas() returns (err: Option<GasError>)
      requires gas == 0
      modifies this`gas, this`initialGas, this`balances, gp
      ensures err == if Get(old(balances), msg.from) < Wei(msg.gas, msg.price) then Some(CannotPayGas)
                     else if old(gp.gas) < msg.gas then Some(GasLimitReached) else None
      ensures err.Some? ==> balances == old(balances) && gp.gas == old(gp.gas)
      ensures err.None? ==>
                balances == Prepaid(old(balances), msg) && gp.gas == old(gp.gas) - msg.gas
                && gas == msg.gas == initialGas
    {
      var mgval := Wei(msg.gas, msg.price);
      if Get(balances, msg.from) < mgval {
        return Some(CannotPayGas);
      }
      var ok := gp.SubGas(msg.gas);
      if !ok {
        return Some(GasLimitReached);
      }
      gas, initialGas := gas + msg.gas, msg.gas;
      balances := Debit(balances, msg.from, mgval);
      return None;
    }

    method PreCheck() returns (err: Option<GasError>)
      requires gas == 0
      modifies this`gas, this`initialGas, this`balances, gp
      ensures err.Some? ==> balances == old(balances) && gp.gas == old(gp.gas)
      ensures err.None? ==> Buys(msg, old(balances), nonces, old(gp.gas))
      ensures err.None? ==> balances == Prepaid(old(balances), msg) && gp.gas == old(gp.gas) - msg.gas
      ensures err.None? ==> gas == msg.gas == initialGas
      ensures err.Some? ==> Fails(err.value, evm, msg, homestead, old(balances), nonces, old(gp.gas))
      ensures err.Some? ==> err.value !in {OutOfGas, InsufficientBalance}
    {
      if msg.checkNonce {
        var nonce := Get(nonces, msg.from);
        if nonce < msg.nonce {
          return Some(NonceTooHigh);
        } else if nonce > msg.nonce {
          return Some(NonceTooLow);
        }
      }
      err := BuyGas();
    }

    method RefundGas()
      requires gas <= initialGas == msg.gas && gp.gas + msg.gas < U64
      modifies this`gas, this`balances, gp
      ensures gas == msg.gas - Used(msg.gas, old(gas), refund)
      ensures balances == Credit(old(balances), msg.from, Wei(gas, msg.price)) && gp.gas == old(gp.gas) + gas
    {
      var back := (initialGas - gas) / 2;
      if back > refund {
        back := refund;
      }
      gas := gas + back;
      balances := Credit(balances, msg.from, Wei(gas, msg.price));
      gp.AddGas(gas);
    }

    method PayIntrinsic() returns (ok: bool)
      requires gas == msg.gas
      modifies this`gas
      ensures ok <==> CoversIntrinsic(msg, homestead)
      ensures ok ==> gas == old(gas) - Intrinsic(msg.data, msg.creation, homestead)
    {
      hide Intrinsic;
      var intrinsic := ComputeIntrinsic(msg.data, msg.creation, homestead);
      if intrinsic.None? {
        return false;
      }
      ok := UseGas(intrinsic.value);
    }

    /** Pays the sender for the gas left, the miner for the rest. */
    method Settle() returns (used: nat)
      requires gas <= initialGas == msg.gas && gp.gas + msg.gas < U64
      modifies this`gas, this`balances, gp
      ensures used == Used(msg.gas, old(gas), refund)
      ensures balances == Paid(old(balances), msg, coinbase, used) && gp.gas == old(gp.gas) + msg.gas - used
    {
      hide Credit, Wei;
      RefundGas();
      used := initialGas - gas;
      balances := Credit(balances, coinbase, Wei(used, msg.price));
    }

    /** `TransitionDb`. A success keeps the total of all balances, takes exactly the gas used out
        of the pool, and uses at least half the intrinsic gas and at most the gas of the message.
        Each error is returned exactly when its reason holds. */
    method TransitionDb() returns (used: nat, failed: bool, err: Option<GasError>)
      requires gas == 0 && gp.gas < U64 && Lawful(evm)
      modifies this, gp
      ensures err.None? ==> Sum(balances) == old(Sum(balances)) && gp.gas == old(gp.gas) - used
      ensures err.None? ==> Intrinsic(msg.data, msg.creation, homestead) <= 2 * used && used <= msg.gas <= old(gp.gas)
      ensures err.None? ==>
                Applied(evm, msg, coinbase, homestead, old(balances), old(nonces), balances, nonces, used, failed)
      ensures forall e :: err == Some(e) <==> Fails(e, evm, msg, homestead, old(balances), old(nonces), old(gp.gas))
      ensures err.Some? && err.value !in {OutOfGas, InsufficientBalance} ==>
                balances == old(balances) && gp.gas == old(gp.gas) && nonces == old(nonces)
    {
      hide Sum, Paid, Prepaid, Used, Wei, Get, Intrinsic, Lawful, Counted, Fails;
      used, failed := 0, false;
      err := PreCheck();
      if err.Some? {
        Refused(err.value, evm, msg, homestead, balances, nonces, gp.gas);
        return;
      }
      var ok := PayIntrinsic();
      Reached(evm, msg, homestead, old(balances), nonces, old(gp.gas));
      if !ok {
        Refused(OutOfGas, evm, msg, homestead, old(balances), nonces, old(gp.gas));
        return 0, false, Some(OutOfGas);
      }
      nonces := Counted(nonces, msg);
      Obeys(evm, balances, nonces, msg, gas);
      var o := evm(balances, nonces, msg, gas);
      balances, nonces, gas, refund := o.balances, o.nonces, o.left, o.refund;
      if o.failed && o.insufficient {
        Refused(InsufficientBalance, evm, msg, homestead, old(balances), old(nonces), old(gp.gas));
        return 0, false, Some(InsufficientBalance);
      }
      used := Settle();
      failed := o.failed;
      PaidSum(old(balances), o.balances, msg, coinbase, used);
    }
  }

  lemma Refused(e: GasError, evm: Machine, msg: Message, homestead: bool, b: Balances, n: map<nat, nat>, pool: nat)
    requires Fails(e, evm, msg, homestead, b, n, pool)
    ensures forall e' :: Some(e) == Some(e') <==> Fails(e', evm, msg, homestead, b, n, pool)
  {
    forall e' | Fails(e', evm, msg, homestead, b, n, pool) ensures e == e' {
      OneFailure(e, e', evm, msg, homestead, b, n, pool);
    }
  }

  /** What can still go wrong once the gas is bought. */
  lemma Reached(evm: Machine, msg: Message, homestead: bool, b: Balances, n: map<nat, nat>, pool: nat)
    requires Buys(msg, b, n, pool)
    ensures !CoversIntrinsic(msg, homestead) ==> Fails(OutOfGas, evm, msg, homestead, b, n, pool)
    ensures CoversIntrinsic(msg, homestead) ==>
              var o := Run(evm, msg, homestead, b, n);
              && (o.failed && o.insufficient ==> Fails(InsufficientBalance, evm, msg, homestead, b, n, pool))
              && (!(o.failed && o.insufficient) ==> forall e :: !Fails(e, evm, msg, homestead, b, n, pool))
  {}

  /** The state after a transaction: what the machine made of the prepaid state, with unused gas
      paid back to the sender and used gas paid to the miner. */
  ghost predicate Applied(evm: Machine, msg: Message, coinbase: nat, homestead: bool, b: Balances, n: map<nat, nat>,
                          b': Balances, n': map<nat, nat>, used: nat, failed: bool)
  {
    && Get(b, msg.from) >= Wei(msg.gas, msg.price)
    && Intrinsic(msg.data, msg.creation, homestead) <= msg.gas
    && var o := Run(evm, msg, homestead, b, n);
       && o.left <= msg.gas && used == Used(msg.gas, o.left, o.refund) && failed == o.failed
       && n' == o.nonces && b' == Paid(o.balances, msg, coinbase, used)
  }

  // ---------- a block ----------

  datatype Log = Log(block: nat, number: nat, txHash: nat, txIndex: nat, index: nat)

  datatype Receipt = Receipt(cumulative: nat, gasUsed: nat, failed: bool, txHash: nat, contract: Option<(nat, nat)>,
                             logs: seq<Log>)

  function Before(receipts: seq<Receipt>, i: nat): (g: nat)
    requires i <= |receipts|
  {
    if i == 0 then 0 else receipts[i - 1].cumulative
  }

  /** Each receipt adds the gas of its transaction to the one before. */
  ghost predicate Cumulates(receipts: seq<Receipt>)
  {
    forall i :: 0 <= i < |receipts| ==> receipts[i].cumulative == Before(receipts, i) + receipts[i].gasUsed
  }

  ghost predicate WithinLimits(receipts: seq<Receipt>, txs: seq<Message>, homestead: bool)
  {
    |receipts| <= |txs| && forall i :: 0 <= i < |receipts| ==>
      Intrinsic(txs[i].data, txs[i].creation, homestead) <= 2 * receipts[i].gasUsed && receipts[i].gasUsed <= txs[i].gas
  }

  datatype World = World(balances: Balances, nonces: map<nat, nat>)

  /** The states between the transactions of a block: each transaction starts where the one
      before it ended. */
  ghost predicate Chained(evm: Machine, txs: seq<Message>, coinbase: nat, homestead: bool, receipts: seq<Receipt>,
                          worlds: seq<World>)
  {
    && |worlds| == |receipts| + 1 <= |txs| + 1
    && forall i :: 0 <= i < |receipts| ==>
         Applied(evm, txs[i], coinbase, homestead, worlds[i].balances, worlds[i].nonces, worlds[i + 1].balances,
                 worlds[i + 1].nonces, receipts[i].gasUsed, receipts[i].failed)
  }

  lemma ChainedNext(evm: Machine, txs: seq<Message>, coinbase: nat, homestead: bool, receipts: seq<Receipt>,
                    worlds: seq<World>, r: Receipt, w: World)
    requires Chained(evm, txs, coinbase, homestead, receipts, worlds) && |receipts| < |txs|
    requires Applied(evm, txs[|receipts|], coinbase, homestead, worlds[|receipts|].balances, worlds[|receipts|].nonces,
                     w.balances, w.nonces, r.gasUsed, r.failed)
    ensures Chained(evm, txs, coinbase, homestead, receipts + [r], worlds + [w])
  {
    hide Applied;
  }

  lemma CumulatesNext(receipts: seq<Receipt>, r: Receipt)
    requires Cumulates(receipts) && r.cumulative == Before(receipts, |receipts|) + r.gasUsed
    ensures Cumulates(receipts + [r]) && Before(receipts + [r], |receipts| + 1) == r.cumulative
  {
    hide Before;
    var all := receipts + [r];
    BeforeLast(receipts, r);
    forall i | 0 <= i < |all| ensures all[i].cumulative == Before(all, i) + all[i].gasUsed {
      BeforeStays(receipts, r, i);
      if i < |receipts| {
        assert receipts[i].cumulative == Before(receipts, i) + receipts[i].gasUsed;
      }
    }
  }

  lemma BeforeLast(receipts: seq<Receipt>, r: Receipt)
    ensures Before(receipts + [r], |receipts| + 1) == r.cumulative
  {}

  lemma BeforeStays(receipts: seq<Receipt>, r: Receipt, i: nat)
    requires i <= |receipts|
    ensures Before(receipts + [r], i) == Before(receipts, i)
  {}

  /** `Process`. Gas used and gas left in the pool always add up to the block's limit. Up to the
      consensus engine's final step, which may credit rewards, the block creates and destroys no
      wei. It fails exactly at the first transaction that is refused. */
  method Process(txs: seq<Message>, gasLimit: nat, evm: Machine, coinbase: nat, homestead: bool, world: World,
                 finalize: World -> World)
    returns (err: Option<GasError>, receipts: seq<Receipt>, used: nat, left: nat, world': World,
             ghost done: seq<Receipt>, ghost worlds: seq<World>)
    requires gasLimit < U64 && Lawful(evm)
    ensures Chained(evm, txs, coinbase, homestead, done, worlds) && worlds[0] == world
    ensures Cumulates(done) && WithinLimits(done, txs, homestead) && Before(done, |done|) <= gasLimit
    ensures Sum(worlds[|done|].balances) == Sum(world.balances)
    ensures err.None? ==> done == receipts && |receipts| == |txs| && world' == finalize(worlds[|txs|])
    ensures err.None? ==> used + left == gasLimit && used == Before(receipts, |receipts|)
    ensures err.Some? ==>
              && |done| < |txs| && receipts == []
              && Fails(err.value, evm, txs[|done|], homestead, worlds[|done|].balances, worlds[|done|].nonces,
                       gasLimit - Before(done, |done|))
  {
    hide Sum, Lawful, Intrinsic, Applied, Cumulates, Fails;
    world', worlds := world, [world];
    receipts, used, done := [], 0, [];
    NothingYet();
    var gp := new GasPool();
    gp.AddGas(gasLimit);
    for i := 0 to |txs|
      invariant |receipts| == i && Cumulates(receipts) && used == Before(receipts, i)
      invariant used + gp.gas == gasLimit && Sum(world'.balances) == Sum(world.balances)
      invariant WithinLimits(receipts, txs, homestead)
      invariant Chained(evm, txs, coinbase, homestead, receipts, worlds)
      invariant worlds[0] == world && worlds[i] == world'
    {
      var st := new StateTransition(gp, txs[i], evm, coinbase, homestead, world'.balances, world'.nonces);
      var gas, failed;
      gas, failed, err := st.TransitionDb();
      if err.Some? {
        return err, [], 0, 0, world, receipts, worlds;
      }
      world' := World(st.balances, st.nonces);
      used := used + gas;
      var r := Receipt(used, gas, failed, 0, None, []);   // hash, contract and logs are not modelled here
      CumulatesNext(receipts, r);
      ChainedNext(evm, txs, coinbase, homestead, receipts, worlds, r, world');
      receipts, worlds := receipts + [r], worlds + [world'];
    }
    err, left, done := None, gp.gas, receipts;
    world' := finalize(world');
  }

  lemma NothingYet()
    ensures Cumulates([])
  {}

  // ---------- derived receipt fields ----------

  /** What `SetReceiptsData` needs of a transaction. */
  datatype TxInfo = TxInfo(hash: nat, creation: bool, from: nat, nonce: nat)

  /** 64-bit difference. */
  function Minus(a: nat, b: nat): (d: nat)
  {
    if a >= b then a - b else (a - b) % U64
  }

  function LogsBefore(receipts: seq<Receipt>, i: nat): (n: nat)
    requires i <= |receipts|
  {
    if i == 0 then 0 else LogsBefore(receipts, i - 1) + |receipts[i - 1].logs|
  }

  /** A receipt with the fields filled in that do not take part in consensus. A contract's address
      is a function of its creator and the creator's nonce. */
  ghost predicate Derived(receipts: seq<Receipt>, txs: seq<TxInfo>, block: nat, number: nat, i: nat, r: Receipt)
    requires i < |receipts| == |txs|
  {
    && r.cumulative == receipts[i].cumulative && r.failed == receipts[i].failed
    && r.gasUsed == Minus(receipts[i].cumulative, Before(receipts, i))
    && r.txHash == txs[i].hash
    && r.contract == (if txs[i].creation then Some((txs[i].from, txs[i].nonce)) else receipts[i].contract)
    && |r.logs| == |receipts[i].logs|
    && forall k :: 0 <= k < |r.logs| ==> r.logs[k] == Log(block, number, txs[i].hash, i, LogsBefore(receipts, i) + k)
  }

  /** `SetReceiptsData`, in place. */
  method SetReceiptsData(receipts: array<Receipt>, txs: seq<TxInfo>, block: nat, number: nat) returns (ok: bool)
    modifies receipts
    ensures ok <==> |txs| == receipts.Length
    ensures !ok ==> receipts[..] == old(receipts[..])
    ensures ok ==>
              forall i :: 0 <= i < receipts.Length ==> Derived(old(receipts[..]), txs, block, number, i, receipts[i])
  {
    hide Derived, Minus, LogsBefore;
    if |txs| != receipts.Length {
      return false;
    }
    ghost var was := receipts[..];
    var logIndex := 0;
    LogsStart(was);
    for j := 0 to receipts.Length
      invariant logIndex == LogsBefore(was, j)
      invariant forall i :: 0 <= i < j ==> Derived(was, txs, block, number, i, receipts[i])
      invariant forall i :: j <= i < receipts.Length ==> receipts[i] == was[i]
    {
      var r := receipts[j];
      r := r.(txHash := txs[j].hash);
      if txs[j].creation {
        r := r.(contract := Some((txs[j].from, txs[j].nonce)));
      }
      if j == 0 {
        r := r.(gasUsed := r.cumulative);
      } else {
        DerivedCumulative(was, txs, block, number, j - 1, receipts[j - 1]);
        r := r.(gasUsed := Minus(r.cumulative, receipts[j - 1].cumulative));
      }
      var logs := [];
      for k := 0 to |r.logs|
        invariant |logs| == k && forall i :: 0 <= i < k ==> logs[i] == Log(block, number, txs[j].hash, j, logIndex + i)
      {
        logs := logs + [Log(block, number, txs[j].hash, j, logIndex + k)];
      }
      r := r.(logs := logs);
      LogsNext(was, j);
      DerivedNow(was, txs, block, number, j, r);
      logIndex := logIndex + |logs|;
      receipts[j] := r;
    }
    return true;
  }

  lemma LogsStart(was: seq<Receipt>)
    ensures LogsBefore(was, 0) == 0
  {}

  lemma LogsNext(was: seq<Receipt>, j: nat)
    requires j < |was|
    ensures LogsBefore(was, j + 1) == LogsBefore(was, j) + |was[j].logs|
  {}

  lemma DerivedCumulative(was: seq<Receipt>, txs: seq<TxInfo>, block: nat, number: nat, i: nat, r: Receipt)
    requires i < |was| == |txs| && Derived(was, txs, block, number, i, r)
    ensures r.cumulative == was[i].cumulative
  {}

  lemma DerivedNow(was: seq<Receipt>, txs: seq<TxInfo>, block: nat, number: nat, j: nat, r: Receipt)
    requires j < |was| == |txs| && r.cumulative == was[j].cumulative && r.failed == was[j].failed
    requires |r.logs| == |was[j].logs|
    requires r.txHash == txs[j].hash
    requires r.contract == if txs[j].creation then Some((txs[j].from, txs[j].nonce)) else was[j].contract
    requires r.gasUsed == if j == 0 then was[j].cumulative else Minus(was[j].cumulative, was[j - 1].cumulative)
    requires forall k :: 0 <= k < |r.logs| ==> r.logs[k] == Log(block, number, txs[j].hash, j, LogsBefore(was, j) + k)
    ensures Derived(was, txs, block, number, j, r)
  {}

  /** For receipts of a processed block the derived gas is the gas each transaction used. */
  lemma DerivedIsUsed(receipts: seq<Receipt>, txs: seq<TxInfo>, block: nat, number: nat, i: nat, r: Receipt)
    requires Cumulates(receipts) && i < |receipts| == |txs| && Derived(receipts, txs, block, number, i, r)
    ensures r.gasUsed == receipts[i].gasUsed
  {
    assert receipts[i].cumulative == Before(receipts, i) + receipts[i].gasUsed;
  }
}
