/** `validateTx` of core/tx_pool.go: what a transaction must satisfy before the pool takes it. */
module TxChecks {
  import opened Basics
  import opened TxMaps
  import opened TxLists
  import opened TxBooks
  import opened IntrinsicGas

  datatype TxError =
    | Known
    | Oversized
    | NegativeValue
    | GasLimit
    | InvalidSender
    | Underpriced
    | NonceTooLow
    | InsufficientFunds
    | OutOfGas
    | TooLittleGas
    | ReplaceUnderpriced

  const MAX_SIZE: nat := 32 * 1024

  /** What each error says about a transaction. */
  predicate Faulty(e: TxError, tx: Tx, env: Env, minPrice: nat, isLocal: bool)
  {
    match e
    case Oversized => tx.size > MAX_SIZE
    case NegativeValue => tx.value < 0
    case GasLimit => tx.gas > env.maxGas
    case InvalidSender => !tx.signed
    case Underpriced => !isLocal && tx.price < minPrice
    case NonceTooLow => tx.nonce < env.Nonce(tx.from)
    case InsufficientFunds => tx.Cost() > env.Balance(tx.from)
    case OutOfGas => Intrinsic(tx.data, tx.creation, env.homestead) >= U64
    case TooLittleGas => tx.gas < Intrinsic(tx.data, tx.creation, env.homestead)
    case Known => false
    case ReplaceUnderpriced => false
  }

  /** Position of a check among the others. */
  function Rank(e: TxError): (n: nat)
  {
    match e
    case Oversized => 0
    case NegativeValue => 1
    case GasLimit => 2
    case InvalidSender => 3
    case Underpriced => 4
    case NonceTooLow => 5
    case InsufficientFunds => 6
    case OutOfGas => 7
    case TooLittleGas => 8
    case Known => 9
    case ReplaceUnderpriced => 9
  }

  ghost predicate Sound(tx: Tx, env: Env, minPrice: nat, isLocal: bool)
  {
    forall e :: !Faulty(e, tx, env, minPrice, isLocal)
  }

  /** Reports the first fault, and nothing only if there is none. */
  method Validate(tx: Tx, env: Env, minPrice: nat, local: bool, locals: set<Addr>) returns (err: Option<TxError>)
    ensures err.None? ==> Sound(tx, env, minPrice, local || tx.from in locals)
    ensures err.Some? ==> Faulty(err.value, tx, env, minPrice, local || tx.from in locals)
    ensures err.Some? ==>
              forall e :: Rank(e) < Rank(err.value) ==> !Faulty(e, tx, env, minPrice, local || tx.from in locals)
  {
    if tx.size > MAX_SIZE {
      return Some(Oversized);
    }
    if tx.value < 0 {
      return Some(NegativeValue);
    }
    if env.maxGas < tx.gas {
      return Some(GasLimit);
    }
    if !tx.signed {
      return Some(InvalidSender);
    }
    var isLocal := local || tx.from in locals;
    if !isLocal && minPrice > tx.price {
      return Some(Underpriced);
    }
    if env.Nonce(tx.from) > tx.nonce {
      return Some(NonceTooLow);
    }
    if env.Balance(tx.from) < tx.Cost() {
      return Some(InsufficientFunds);
    }
    var gas := ComputeIntrinsic(tx.data, tx.creation, env.homestead);
    if gas.None? {
      return Some(OutOfGas);
    }
    if tx.gas < gas.value {
      return Some(TooLittleGas);
    }
    return None;
  }

  lemma SoundNonce(tx: Tx, env: Env, minPrice: nat, isLocal: bool)
    requires Sound(tx, env, minPrice, isLocal)
    ensures tx.nonce >= env.Nonce(tx.from)
  {
    assert !Faulty(NonceTooLow, tx, env, minPrice, isLocal);
  }

  /** What a refusal says about the pool and the transaction. */
  ghost predicate Justified(e: TxError, tx: Tx, all: set<Tx>, env: Env, minPrice: nat, isLocal: bool, config: Config)
  {
    match e
    case Known => tx in all
    case ReplaceUnderpriced =>
      exists t :: t in all && t.from == tx.from && t.nonce == tx.nonce && !Replaces(t, tx, config.priceBump)
    case Underpriced =>
      !isLocal && (tx.price < minPrice || (Full(all, config) && forall t :: t in all ==> tx.price <= t.price))
    case _ => Faulty(e, tx, env, minPrice, isLocal)
  }

  lemma Reasons(err: Option<TxError>, tx: Tx, all: set<Tx>, env: Env, minPrice: nat, isLocal: bool, config: Config)
    requires err.Some? ==> Faulty(err.value, tx, env, minPrice, isLocal)
    ensures err.Some? ==> Justified(err.value, tx, all, env, minPrice, isLocal, config)
  {}

  lemma KnownBefore(tx: Tx, all: set<Tx>, env: Env, minPrice: nat, isLocal: bool, config: Config)
    requires tx in all
    ensures Justified(Known, tx, all, env, minPrice, isLocal, config)
  {}

  lemma RefusedFull(tx: Tx, all: set<Tx>, env: Env, minPrice: nat, isLocal: bool, config: Config)
    requires !isLocal && Full(all, config) && forall t :: t in all ==> tx.price <= t.price
    ensures Justified(Underpriced, tx, all, env, minPrice, isLocal, config)
  {}

  /** Transactions of the pool in the place of another. */
  ghost predicate InPlace(taken: set<Tx>, all: set<Tx>, tx: Tx)
  {
    forall t :: t in taken ==> t in all && t.from == tx.from && t.nonce == tx.nonce
  }

  lemma RefusedPlace(taken: set<Tx>, all: set<Tx>, tx: Tx, env: Env, minPrice: nat, isLocal: bool, config: Config)
    requires InPlace(taken, all, tx) && exists t :: t in taken && !Replaces(t, tx, config.priceBump)
    ensures Justified(ReplaceUnderpriced, tx, all, env, minPrice, isLocal, config)
  {
    hide Replaces;
  }

  lemma NothingDropped(all: set<Tx>, locals: set<Addr>)
    ensures Cheapest(Elems<Tx>([]), all, locals) && all - Elems<Tx>([]) == all
  {}
}
