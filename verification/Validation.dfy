/** Transaction validation: what acceptance says about money and about nonces. */
module Validation {
  import opened Basics

  datatype Error =
    | GasLimitTooLow | GasLimitTooHigh | GasPriceTooLow | PriorityFeeTooHigh | BalanceTooLow
    | TxNonceTooLow | TxNonceTooHigh | InvalidFeeInput | InvalidChainId

  datatype Transaction = Transaction(
    nonce: U256, gasLimit: U256, value: U256, chainId: Option<nat>,
    gasPrice: Option<U256>, maxFee: Option<U256>, maxPriorityFee: Option<U256>)

  /** `affordable` is the verdict of the proof-size and intrinsic-gas checks of `validate_common`. */
  datatype Config = Config(baseFee: U256, blockGasLimit: U256, chainId: nat, transactional: bool, affordable: bool)

  datatype Account = Account(nonce: nat, balance: U256)

  /** `transaction_fee_input`: the most a unit of gas may cost, and what it costs at the current base fee. */
  function FeeInput(cfg: Config, tx: Transaction): Result<(U256, Option<U256>), Error> {
    match (tx.gasPrice, tx.maxFee, tx.maxPriorityFee)
    case (Some(gasPrice), None, None) => Ok((gasPrice, Some(gasPrice)))
    case (None, Some(maxFee), None) => Ok((maxFee, Some(cfg.baseFee)))
    case (None, Some(maxFee), Some(tip)) =>
      if tip > maxFee then Err(PriorityFeeTooHigh)
      else
        var sum: U256 := if cfg.baseFee + tip > U256_MAX then U256_MAX else cfg.baseFee + tip;
        Ok((maxFee, Some(if sum <= maxFee then sum else maxFee)))
    case _ => if cfg.transactional then Err(InvalidFeeInput) else Ok((0, None))
  }

  function ValidateCommon(cfg: Config, tx: Transaction): Result<(), Error> {
    if !cfg.transactional then Ok(())
    else if !cfg.affordable then Err(GasLimitTooLow)
    else if tx.gasLimit > cfg.blockGasLimit then Err(GasLimitTooHigh)
    else Ok(())
  }

  function ValidateInPool(cfg: Config, tx: Transaction, who: Account): Result<(), Error> {
    if tx.nonce < who.nonce then Err(TxNonceTooLow) else ValidateCommon(cfg, tx)
  }

  function ValidateInBlock(cfg: Config, tx: Transaction, who: Account): Result<(), Error> {
    if tx.nonce > who.nonce then Err(TxNonceTooHigh)
    else if tx.nonce < who.nonce then Err(TxNonceTooLow)
    else ValidateCommon(cfg, tx)
  }

  function WithChainId(cfg: Config, tx: Transaction): Result<(), Error> {
    if tx.chainId.Some? && tx.chainId.value != cfg.chainId then Err(InvalidChainId) else Ok(())
  }

  function WithBaseFee(cfg: Config, tx: Transaction): Result<(), Error> {
    match FeeInput(cfg, tx)
    case Err(e) => Err(e)
    case Ok((gasPrice, _)) =>
      if (cfg.transactional || gasPrice > 0) && gasPrice < cfg.baseFee then Err(GasPriceTooLow) else Ok(())
  }

  function WithBalance(cfg: Config, tx: Transaction, who: Account): Result<(), Error> {
    match FeeInput(cfg, tx)
    case Err(e) => Err(e)
    case Ok((maxFee, _)) =>
      var fee := SaturatingMul(maxFee, tx.gasLimit);
      if (cfg.transactional || fee > 0) && who.balance < SaturatingAdd(tx.value, fee) then Err(BalanceTooLow)
      else Ok(())
  }

  /** The checks that the pool runs, in order. */
  predicate PoolAccepts(cfg: Config, tx: Transaction, who: Account) {
    && ValidateInPool(cfg, tx, who).Ok? && WithChainId(cfg, tx).Ok?
    && WithBaseFee(cfg, tx).Ok? && WithBalance(cfg, tx, who).Ok?
  }

  /** The most a unit of gas may cost: a gas price alone, or a fee cap alone or with a tip that is not above it. */
  function MaxPrice(tx: Transaction): Option<nat> {
    if tx.gasPrice.Some? && tx.maxFee.None? && tx.maxPriorityFee.None? then Some(tx.gasPrice.value)
    else if tx.gasPrice.None? && tx.maxFee.Some? &&
            (tx.maxPriorityFee.Some? ==> tx.maxPriorityFee.value <= tx.maxFee.value) then Some(tx.maxFee.value)
    else None
  }

  /** What a unit costs at a base fee: the gas price, or the base fee and the tip up to the cap. */
  function EffectivePrice(tx: Transaction, baseFee: nat): nat
    requires MaxPrice(tx).Some?
  {
    if tx.gasPrice.Some? then tx.gasPrice.value
    else if tx.maxPriorityFee.None? then baseFee
    else Min(baseFee + tx.maxPriorityFee.value, tx.maxFee.value)
  }

  /** In a block a transaction passes exactly with the account's own nonce, enough gas for it and a limit that fits. */
  lemma InBlockExactly(cfg: Config, tx: Transaction, who: Account)
    ensures ValidateInBlock(cfg, tx, who).Ok? <==>
            tx.nonce == who.nonce && (cfg.transactional ==> cfg.affordable && tx.gasLimit <= cfg.blockGasLimit)
    ensures ValidateInBlock(cfg, tx, who) == Err(TxNonceTooLow) <==> tx.nonce < who.nonce
    ensures ValidateInBlock(cfg, tx, who) == Err(TxNonceTooHigh) <==> tx.nonce > who.nonce
  {
  }

  /**
   * The pool accepts a transaction exactly when, in unbounded integers: its nonce is not used, its chain id is absent
   * or this chain's, its gas limit is enough and fits, its fee fields make sense, it would pay the base fee, and the
   * account covers its value and the most its gas may cost.
   */
  lemma PoolAcceptsExactly(cfg: Config, tx: Transaction, who: Account)
    requires cfg.transactional && who.balance <= U128_MAX
    ensures PoolAccepts(cfg, tx, who) <==>
            && tx.nonce >= who.nonce && (tx.chainId == None || tx.chainId == Some(cfg.chainId))
            && cfg.affordable && tx.gasLimit <= cfg.blockGasLimit
            && MaxPrice(tx).Some? && MaxPrice(tx).value >= cfg.baseFee
            && tx.value + MaxPrice(tx).value * tx.gasLimit <= who.balance
  {
    FeeInputExact(cfg, tx);
    if FeeInput(cfg, tx).Ok? {
      BalanceCheckExact(cfg, tx, who);
    }
  }

  /** A call that is not a transaction needs no price; one that names a price must still be able to pay it. */
  lemma CallAcceptsExactly(cfg: Config, tx: Transaction, who: Account)
    requires !cfg.transactional && who.balance <= U128_MAX
    ensures PoolAccepts(cfg, tx, who) <==>
            && tx.nonce >= who.nonce && (tx.chainId == None || tx.chainId == Some(cfg.chainId))
            && !(tx.gasPrice.None? && tx.maxFee.Some? && tx.maxPriorityFee.Some? &&
                 tx.maxPriorityFee.value > tx.maxFee.value)
            && (MaxPrice(tx).Some? && MaxPrice(tx).value > 0 ==> MaxPrice(tx).value >= cfg.baseFee)
            && (MaxPrice(tx).Some? && MaxPrice(tx).value * tx.gasLimit > 0 ==>
                tx.value + MaxPrice(tx).value * tx.gasLimit <= who.balance)
  {
    FeeInputExact(cfg, tx);
    var fee := if MaxPrice(tx).Some? then MaxPrice(tx).value * tx.gasLimit else 0;
    assert FeeInput(cfg, tx).Ok? ==> SaturatingMul(FeeInput(cfg, tx).value.0, tx.gasLimit) == Min(fee, U256_MAX);
  }

  lemma FeeInputExact(cfg: Config, tx: Transaction)
    ensures MaxPrice(tx).Some? ==>
              FeeInput(cfg, tx) == Ok((MaxPrice(tx).value, Some(EffectivePrice(tx, cfg.baseFee))))
    ensures MaxPrice(tx).None? && cfg.transactional ==> FeeInput(cfg, tx).Err?
    ensures MaxPrice(tx).None? && !cfg.transactional ==>
              FeeInput(cfg, tx) == Ok((0, None)) || FeeInput(cfg, tx) == Err(PriorityFeeTooHigh)
    ensures FeeInput(cfg, tx) == Err(PriorityFeeTooHigh) <==>
              tx.gasPrice.None? && tx.maxFee.Some? && tx.maxPriorityFee.Some? &&
              tx.maxPriorityFee.value > tx.maxFee.value
  {
  }

  // Money

  /** Saturation never hides a shortfall: for any balance below the maximum the check is the exact inequality. */
  lemma BalanceCheckExact(cfg: Config, tx: Transaction, who: Account)
    requires cfg.transactional && FeeInput(cfg, tx).Ok? && who.balance < U256_MAX
    ensures WithBalance(cfg, tx, who).Ok? <==> tx.value + FeeInput(cfg, tx).value.0 * tx.gasLimit <= who.balance
  {
  }

  /** At the maximal balance the saturated total can pass although the true one does not. */
  lemma MaximalBalancePassesAnything(cfg: Config, tx: Transaction, who: Account)
    requires FeeInput(cfg, tx).Ok? && who.balance == U256_MAX
    ensures WithBalance(cfg, tx, who).Ok?
  {
  }

  /**
   * An accepted transaction can always be paid for: with a balance of at most 128 bits, whatever gas it ends up
   * using, the value and the fee at the effective price are covered, and the effective price covers the base fee.
   */
  lemma AcceptedIsSolvent(cfg: Config, tx: Transaction, who: Account, used: nat)
    requires cfg.transactional && who.balance <= U128_MAX && used <= tx.gasLimit
    requires PoolAccepts(cfg, tx, who)
    ensures MaxPrice(tx).Some?
    ensures var price := EffectivePrice(tx, cfg.baseFee);
            && cfg.baseFee <= price <= MaxPrice(tx).value
            && tx.value + MaxPrice(tx).value * tx.gasLimit <= who.balance
            && tx.value + price * used <= who.balance
  {
    PoolAcceptsExactly(cfg, tx, who);
    ProductBound(EffectivePrice(tx, cfg.baseFee), MaxPrice(tx).value, used, tx.gasLimit);
  }

  // Priority

  /** The priority that `validate_transaction_in_pool` computes, saturated to 64 bits. */
  function Priority(cfg: Config, tx: Transaction): Option<nat> {
    match (tx.gasPrice, tx.maxFee, tx.maxPriorityFee)
    case (Some(gasPrice), None, None) => Some(Min(SaturatingSub(gasPrice, cfg.baseFee), U64_MAX))
    case (None, Some(_), None) => Some(0)
    case (None, Some(maxFee), Some(tip)) => Some(Min(Min(SaturatingSub(maxFee, cfg.baseFee), tip), U64_MAX))
    case _ => None
  }

  /** The priority of an accepted transaction is its effective tip, capped to 64 bits; the last branch is not taken. */
  lemma PriorityIsEffectiveTip(cfg: Config, tx: Transaction, who: Account)
    requires cfg.transactional && PoolAccepts(cfg, tx, who)
    ensures MaxPrice(tx).Some?
    ensures Priority(cfg, tx) == Some(Min(EffectivePrice(tx, cfg.baseFee) - cfg.baseFee, 0xFFFF_FFFF_FFFF_FFFF))
  {
    FeeInputExact(cfg, tx);
  }

  // Nonces

  /** The tag of the nonce before, required when the nonce is above the account's. */
  function RequiredNonce(tx: Transaction, who: Account): Option<nat> {
    if tx.nonce > who.nonce then Some(tx.nonce - 1) else None
  }

  /**
   * An order that the pool may build a block in: every required tag is provided by an earlier transaction, and no
   * two transactions provide the same tag.
   */
  ghost predicate PoolOrder(txs: seq<Transaction>, who: Account) {
    && (forall i :: 0 <= i < |txs| ==> txs[i].nonce >= who.nonce)
    && (forall i :: 0 <= i < |txs| && RequiredNonce(txs[i], who).Some? ==>
          exists j :: 0 <= j < i && txs[j].nonce == RequiredNonce(txs[i], who).value)
    && (forall i, j :: 0 <= i < j < |txs| ==> txs[i].nonce != txs[j].nonce)
  }

  /** One of the first `i` nonces from the account's own. */
  ghost predicate Taken(who: Account, i: nat, nonce: nat) {
    who.nonce <= nonce < who.nonce + i
  }

  /** Such an order has the nonces in sequence from the account's own, with no gap. */
  lemma {:induction false} NoncesAreConsecutive(txs: seq<Transaction>, who: Account, i: nat)
    requires PoolOrder(txs, who) && i < |txs|
    ensures txs[i].nonce == who.nonce + i
    decreases i
  {
    forall j | 0 <= j < i
      ensures txs[j].nonce == who.nonce + j
    {
      NoncesAreConsecutive(txs, who, j);
    }
    forall nonce: nat | Taken(who, i, nonce)
      ensures nonce != txs[i].nonce
    {
      assert txs[nonce - who.nonce].nonce == nonce;
    }
    assert !Taken(who, i, txs[i].nonce);
    if txs[i].nonce > who.nonce {
      var j :| 0 <= j < i && txs[j].nonce == RequiredNonce(txs[i], who).value;
    }
  }

  /** So each passes the nonce check in the block when its turn comes, after the ones before it have run. */
  lemma TurnComes(cfg: Config, txs: seq<Transaction>, who: Account, i: nat)
    requires PoolOrder(txs, who) && i < |txs| && ValidateCommon(cfg, txs[i]).Ok?
    ensures ValidateInBlock(cfg, txs[i], who.(nonce := who.nonce + i)).Ok?
  {
    NoncesAreConsecutive(txs, who, i);
  }
}
