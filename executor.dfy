// The liquidation executor: the liquidate(address,uint256) call data, the
// EIP-1559 fee arithmetic of the transaction request, and the guard and stamp
// order of execute_liquidation. The gas-price lookup and the random mock
// transaction hash are parameters; nothing is sent.
module Executor {
  import opened Types
  import opened Abi
  import opened Streamer
  import opened Metrics
  import opened Detector
  import opened Simulator

  /** The 2 gwei tip. */
  const MAX_PRIORITY_FEE: nat := 2 * TEN_POW_9
  const GAS_LIMIT: nat := 350_000
  /** The local development chain (Anvil / Hardhat). */
  const CHAIN_ID: nat := 31337
  const ADDRESS_SIZE: nat := 20
  /** Zero bytes that left-pad an address to a 32-byte word. */
  const ADDRESS_PADDING: nat := WORD_SIZE - ADDRESS_SIZE

  /** An ethers H256. */
  type Hash = s: seq<byte> | |s| == 32 witness seq(32, _ => 0)

  /** The fields of the Eip1559TransactionRequest that the executor sets. */
  datatype Eip1559Request = Eip1559Request(
    to: Address, data: seq<byte>, gas: U256, maxFeePerGas: U256, maxPriorityFeePerGas: U256, chainId: nat)

  /**
   * encode_liquidate_call: the selector, the user address left-padded with
   * twelve zero bytes to one word, then the debt as a big-endian word.
   */
  function EncodeLiquidateCall(user: Address, debt: U256): (r: seq<byte>)
    ensures |r| == SELECTOR_SIZE + 2 * WORD_SIZE
    ensures r[..SELECTOR_SIZE] == LIQUIDATE_SELECTOR
    ensures forall i :: SELECTOR_SIZE <= i < SELECTOR_SIZE + ADDRESS_PADDING ==> r[i] == 0
    ensures r[SELECTOR_SIZE + ADDRESS_PADDING..SELECTOR_SIZE + WORD_SIZE] == user
    ensures FromBigEndian(r[SELECTOR_SIZE + WORD_SIZE..]) == debt
    ensures Classify(r) == Some(Liquidate)
  {
    var r := LIQUIDATE_SELECTOR + seq(ADDRESS_PADDING, _ => 0) + user + EncodeWord(debt);
    assert r[..SELECTOR_SIZE] == LIQUIDATE_SELECTOR;
    assert r[SELECTOR_SIZE + ADDRESS_PADDING..SELECTOR_SIZE + WORD_SIZE] == user;
    assert r[SELECTOR_SIZE + WORD_SIZE..] == EncodeWord(debt);
    r
  }

  /**
   * The reading a liquidation contract makes of such call data: the
   * selector, a padded address word and an amount word, or nothing.
   */
  function DecodeLiquidateCall(data: seq<byte>): (r: Option<(Address, U256)>)
    ensures r.Some? ==> |data| == SELECTOR_SIZE + 2 * WORD_SIZE && Classify(data) == Some(Liquidate)
  {
    if |data| != SELECTOR_SIZE + 2 * WORD_SIZE || data[..SELECTOR_SIZE] != LIQUIDATE_SELECTOR then None
    else if exists i :: SELECTOR_SIZE <= i < SELECTOR_SIZE + ADDRESS_PADDING && data[i] != 0 then None
    else
      var user: Address := data[SELECTOR_SIZE + ADDRESS_PADDING..SELECTOR_SIZE + WORD_SIZE];
      var amount := data[SELECTOR_SIZE + WORD_SIZE..];
      ToFromBigEndian(amount);
      Pow256Word();
      Some((user, FromBigEndian(amount)))
  }

  /** The user and the debt come back exactly from the encoding. */
  lemma DecodeEncodeLiquidateCall(user: Address, debt: U256)
    ensures DecodeLiquidateCall(EncodeLiquidateCall(user, debt)) == Some((user, debt))
  {
  }

  /** Every call data the decoding accepts is the encoding of what it decodes to. */
  lemma EncodeDecodeLiquidateCall(data: seq<byte>)
    requires DecodeLiquidateCall(data).Some?
    ensures EncodeLiquidateCall(DecodeLiquidateCall(data).value.0, DecodeLiquidateCall(data).value.1) == data
  {
    var (user, debt) := DecodeLiquidateCall(data).value;
    var amount := data[SELECTOR_SIZE + WORD_SIZE..];
    ToFromBigEndian(amount);
    var r := EncodeLiquidateCall(user, debt);
    assert r[SELECTOR_SIZE + WORD_SIZE..] == amount;
    assert r[..SELECTOR_SIZE] == data[..SELECTOR_SIZE];
    assert r[SELECTOR_SIZE + ADDRESS_PADDING..SELECTOR_SIZE + WORD_SIZE] == data[SELECTOR_SIZE + ADDRESS_PADDING..SELECTOR_SIZE + WORD_SIZE];
    assert forall i :: 0 <= i < |r| ==> r[i] == data[i] by {
      forall i | 0 <= i < |r|
        ensures r[i] == data[i]
      {
        if i < SELECTOR_SIZE {
          assert r[i] == r[..SELECTOR_SIZE][i];
          assert data[i] == data[..SELECTOR_SIZE][i];
        } else if i < SELECTOR_SIZE + ADDRESS_PADDING {
        } else if i < SELECTOR_SIZE + WORD_SIZE {
          assert r[i] == r[SELECTOR_SIZE + ADDRESS_PADDING..SELECTOR_SIZE + WORD_SIZE][i - SELECTOR_SIZE - ADDRESS_PADDING];
          assert data[i] == data[SELECTOR_SIZE + ADDRESS_PADDING..SELECTOR_SIZE + WORD_SIZE][i - SELECTOR_SIZE - ADDRESS_PADDING];
        } else {
          assert r[i] == r[SELECTOR_SIZE + WORD_SIZE..][i - SELECTOR_SIZE - WORD_SIZE];
          assert data[i] == data[SELECTOR_SIZE + WORD_SIZE..][i - SELECTOR_SIZE - WORD_SIZE];
        }
      }
    }
  }

  /** max_allowed: the configured cap in gwei, converted to wei. */
  function MaxAllowedFee(maxGasPriceGwei: U64): nat
  {
    maxGasPriceGwei * TEN_POW_9
  }

  /**
   * max_fee_per_gas: twice the base fee plus the tip, capped at the
   * configured maximum. The precondition is the U256 overflow of 2 * base + tip.
   */
  function MaxFeePerGas(baseFee: U256, maxGasPriceGwei: U64): (fee: nat)
    requires 2 * baseFee + MAX_PRIORITY_FEE < TWO_POW_256
    ensures fee <= MaxAllowedFee(maxGasPriceGwei)
    ensures fee <= 2 * baseFee + MAX_PRIORITY_FEE
    ensures fee == MaxAllowedFee(maxGasPriceGwei) || fee == 2 * baseFee + MAX_PRIORITY_FEE
  {
    var uncapped := baseFee * 2 + MAX_PRIORITY_FEE;
    var maxAllowed := MaxAllowedFee(maxGasPriceGwei);
    if uncapped <= maxAllowed then uncapped else maxAllowed
  }

  /** A higher base fee never lowers the fee. */
  lemma MaxFeeMonotone(b1: U256, b2: U256, maxGasPriceGwei: U64)
    requires b1 <= b2
    requires 2 * b2 + MAX_PRIORITY_FEE < TWO_POW_256
    ensures MaxFeePerGas(b1, maxGasPriceGwei) <= MaxFeePerGas(b2, maxGasPriceGwei)
  {
  }

  /**
   * build_liquidation_transaction: fails only when the gas price lookup
   * fails; otherwise a request to the protocol carrying the liquidate call,
   * the fixed gas limit, tip and chain id, and the capped fee.
   */
  function BuildLiquidationTransaction(
    protocol: Address, user: Address, debt: U256, gasPrice: Option<U256>, maxGasPriceGwei: U64)
    : (r: Result<Eip1559Request>)
    requires gasPrice.Some? ==> 2 * gasPrice.value + MAX_PRIORITY_FEE < TWO_POW_256
    ensures r.Err? <==> gasPrice.None?
    ensures r.Ok? ==>
      && r.value.to == protocol
      && DecodeLiquidateCall(r.value.data) == Some((user, debt))
      && r.value.gas == GAS_LIMIT
      && r.value.maxPriorityFeePerGas == MAX_PRIORITY_FEE
      && r.value.chainId == CHAIN_ID
      && r.value.maxFeePerGas == MaxFeePerGas(gasPrice.value, maxGasPriceGwei)
      && r.value.maxFeePerGas <= MaxAllowedFee(maxGasPriceGwei)
  {
    match gasPrice
    case None => Err("gas price lookup failed")
    case Some(baseFee) =>
      var maxFeePerGas := MaxFeePerGas(baseFee, maxGasPriceGwei);
      var callData := EncodeLiquidateCall(user, debt);
      DecodeEncodeLiquidateCall(user, debt);
      Ok(Eip1559Request(protocol, callData, GAS_LIMIT, maxFeePerGas, MAX_PRIORITY_FEE, CHAIN_ID))
  }

  /** What a successful execute_liquidation produces: the mock hash, the request and the final stamps. */
  datatype Execution = Execution(txHash: Hash, request: Eip1559Request, metrics: LatencyMetrics)

  /**
   * execute_liquidation. No wallet: an error before anything is built.
   * Otherwise the request is built (its failure is propagated), then the
   * constructed stamp is taken, then the sent stamp.
   */
  function ExecuteLiquidation(
    hasWallet: bool, protocol: Address, maxGasPriceGwei: U64, gasPrice: Option<U256>,
    signal: LiquidationSignal, simulation: SimulationResult, metrics: LatencyMetrics,
    tConstructed: nat, tSent: nat, mockHash: Hash)
    : (r: Result<Execution>)
    requires gasPrice.Some? ==> 2 * gasPrice.value + MAX_PRIORITY_FEE < TWO_POW_256
    ensures !hasWallet ==> r == Err("No wallet configured")
    ensures hasWallet ==> (r.Ok? <==> gasPrice.Some?)
    ensures r.Ok? ==>
      && r.value.txHash == mockHash
      && DecodeLiquidateCall(r.value.request.data) == Some((signal.user, simulation.debtToCover))
      && r.value.request.maxFeePerGas <= MaxAllowedFee(maxGasPriceGwei)
      && (forall s: Stage :: r.value.metrics.Stamp(s) ==
            if s == Constructed then Some(tConstructed)
            else if s == Sent then Some(tSent)
            else metrics.Stamp(s))
  {
    if !hasWallet then Err("No wallet configured")
    else
      match BuildLiquidationTransaction(protocol, signal.user, simulation.debtToCover, gasPrice, maxGasPriceGwei)
      case Err(e) => Err(e)
      case Ok(request) =>
        var marked := metrics.MarkConstructed(tConstructed).MarkSent(tSent);
        Ok(Execution(mockHash, request, marked))
  }

  /**
   * With a monotonic clock the two stamps keep the pipeline order, and the
   * logged breakdown then has the end-to-end latency, running from the
   * received stamp to the sent stamp.
   */
  lemma ExecutionKeepsStageOrder(
    hasWallet: bool, protocol: Address, maxGasPriceGwei: U64, gasPrice: Option<U256>,
    signal: LiquidationSignal, simulation: SimulationResult, metrics: LatencyMetrics,
    tConstructed: nat, tSent: nat, mockHash: Hash)
    requires gasPrice.Some? ==> 2 * gasPrice.value + MAX_PRIORITY_FEE < TWO_POW_256
    requires metrics.InOrder()
    requires metrics.tConstructed.None? && metrics.tSent.None?
    requires forall s: Stage :: metrics.Stamp(s).Some? ==> metrics.Stamp(s).value <= tConstructed
    requires tConstructed <= tSent
    requires ExecuteLiquidation(hasWallet, protocol, maxGasPriceGwei, gasPrice, signal, simulation,
      metrics, tConstructed, tSent, mockHash).Ok?
    ensures
      var m := ExecuteLiquidation(hasWallet, protocol, maxGasPriceGwei, gasPrice, signal, simulation,
        metrics, tConstructed, tSent, mockHash).value.metrics;
      && m.InOrder()
      && END_TO_END_US in m.GetAllLatencies()
      && m.GetAllLatencies()[END_TO_END_US] == tSent - metrics.tReceived
  {
    var constructed := metrics.MarkConstructed(tConstructed);
    MarkKeepsOrder(metrics, Constructed, tConstructed, constructed);
    var sent := constructed.MarkSent(tSent);
    MarkKeepsOrder(constructed, Sent, tSent, sent);
    assert metrics.Stamp(Received).Some?;
  }
}
