// The integer part of the liquidation simulator: how much collateral a full
// liquidation of the signal's debt seizes at the fixed oracle price with the
// 10% bonus, and what gas it is estimated to cost in wei, with the fallbacks
// used when the gas lookups fail. The floating-point profit estimate and the
// profitable/unprofitable decision built on it are not part of this model.
module Simulator {
  import opened Types
  import opened Detector

  /** The simplified price oracle: 1 ether = 2000 USD. */
  const ETH_PRICE_USD: nat := 2000
  /** A 10% liquidation bonus, as 110 / 100. */
  const LIQUIDATION_BONUS: nat := 110
  const PRECISION: nat := 100
  /** Gas units assumed when estimate_gas_liquidation fails. */
  const DEFAULT_GAS_ESTIMATE: nat := 300_000
  /** Gas price (wei) assumed when get_gas_price fails: 50 gwei. */
  const DEFAULT_GAS_PRICE: nat := 50 * TEN_POW_9

  /** The integer fields of SimulationResult, plus the wei gas cost. */
  datatype SimulationResult = SimulationResult(
    collateralToSeize: U256, debtToCover: U256, estimatedGas: U256, gasCostWei: U256)

  /** No U256 product of the simulation overflows (ethers' U256 panics on overflow). */
  predicate DebtScalingFits(debt: nat)
  {
    debt * TEN_POW_18 < TWO_POW_256
  }

  /** debt_to_cover * 10^18 / (2000 * 10^18): the collateral worth the debt, in wei. */
  function CollateralValue(debt: U256): (v: nat)
    requires DebtScalingFits(debt)
    ensures v <= debt
  {
    var v := (debt * TEN_POW_18) / (ETH_PRICE_USD * TEN_POW_18);
    assert v <= debt;
    v
  }

  /** collateral_value * 110 / 100: what the liquidator receives. */
  function CollateralToSeize(debt: U256): (c: nat)
    requires DebtScalingFits(debt)
    ensures c >= CollateralValue(debt)
  {
    var v := CollateralValue(debt);
    assert v * LIQUIDATION_BONUS == v * PRECISION + v * 10;
    DivMonotone(v * PRECISION, v * LIQUIDATION_BONUS, PRECISION);
    assert (v * PRECISION) / PRECISION == v;
    v * LIQUIDATION_BONUS / PRECISION
  }

  /** The gas estimate, or the fallback when the lookup failed. */
  function GasEstimateOrDefault(estimate: Option<U256>): (gas: U256)
    ensures estimate.None? ==> gas == DEFAULT_GAS_ESTIMATE
    ensures estimate.Some? ==> gas == estimate.value
  {
    match estimate
    case Some(g) => g
    case None => DEFAULT_GAS_ESTIMATE
  }

  /** The gas price, or the fallback when the lookup failed. */
  function GasPriceOrDefault(price: Option<U256>): (p: U256)
    ensures price.None? ==> p == DEFAULT_GAS_PRICE
    ensures price.Some? ==> p == price.value
  {
    match price
    case Some(p) => p
    case None => DEFAULT_GAS_PRICE
  }

  /**
   * The integer steps of simulate_liquidation. Failed gas lookups fall back
   * to defaults and never make the simulation fail; the preconditions are
   * the U256 products that would otherwise overflow.
   */
  function SimulateLiquidation(signal: LiquidationSignal, estimate: Option<U256>, price: Option<U256>)
    : (r: SimulationResult)
    requires DebtScalingFits(signal.debt)
    requires GasEstimateOrDefault(estimate) * GasPriceOrDefault(price) < TWO_POW_256
    ensures r.debtToCover == signal.debt
    ensures r.collateralToSeize == CollateralToSeize(signal.debt)
    ensures r.estimatedGas == GasEstimateOrDefault(estimate)
    ensures r.gasCostWei == GasEstimateOrDefault(estimate) * GasPriceOrDefault(price)
  {
    var debtToCover := signal.debt;
    var collateralToSeize := CollateralToSeize(debtToCover);
    var gasEstimate := GasEstimateOrDefault(estimate);
    var gasPrice := GasPriceOrDefault(price);
    SimulationResult(collateralToSeize, debtToCover, gasEstimate, gasEstimate * gasPrice)
  }

  /** optimize_debt_amount: a placeholder that always covers the full debt. */
  function OptimizeDebtAmount(signal: LiquidationSignal): (r: Result<U256>)
    ensures r.Ok? && r.value == signal.debt
  {
    Ok(signal.debt)
  }

  /** The simulation and the optimiser agree: a liquidation always covers the whole debt. */
  lemma FullDebtIsCovered(signal: LiquidationSignal, estimate: Option<U256>, price: Option<U256>)
    requires DebtScalingFits(signal.debt)
    requires GasEstimateOrDefault(estimate) * GasPriceOrDefault(price) < TWO_POW_256
    ensures OptimizeDebtAmount(signal) == Ok(SimulateLiquidation(signal, estimate, price).debtToCover)
    ensures SimulateLiquidation(signal, estimate, price).debtToCover == signal.debt
  {
  }

  // ---------------------------------------------------------------------------
  // Division facts used below.

  lemma MulMonotone(x: int, y: int, b: nat)
    ensures x <= y ==> x * b <= y * b
  {
  }

  lemma DivByQuotient(a: nat, b: nat, q: nat, r: nat)
    requires b > 0 && a == q * b + r && r < b
    ensures a / b == q
  {
    var q' := a / b;
    assert q' * b <= a < q' * b + b;
    assert (q' + 1) * b == q' * b + b;
    assert (q + 1) * b == q * b + b;
    MulMonotone(q' + 1, q, b);
    MulMonotone(q + 1, q', b);
  }

  lemma DivMonotone(a: nat, b: nat, c: nat)
    requires a <= b && c > 0
    ensures a / c <= b / c
  {
    assert (a / c) * c <= a;
    assert b < (b / c) * c + c == (b / c + 1) * c;
    MulMonotone(b / c + 1, a / c, c);
  }

  /** Scaling debt and price by the same 10^18 cancels: the value is debt / 2000. */
  lemma CollateralValueIsDebtOverPrice(debt: U256)
    requires DebtScalingFits(debt)
    ensures CollateralValue(debt) == debt / ETH_PRICE_USD
  {
    var q, r := debt / ETH_PRICE_USD, debt % ETH_PRICE_USD;
    assert debt == q * ETH_PRICE_USD + r;
    assert debt * TEN_POW_18 == q * (ETH_PRICE_USD * TEN_POW_18) + r * TEN_POW_18;
    assert r * TEN_POW_18 < ETH_PRICE_USD * TEN_POW_18;
    DivByQuotient(debt * TEN_POW_18, ETH_PRICE_USD * TEN_POW_18, q, r * TEN_POW_18);
  }

  /** More debt never means less collateral, before or after the bonus. */
  lemma CollateralMonotone(d1: U256, d2: U256)
    requires d1 <= d2
    requires DebtScalingFits(d1) && DebtScalingFits(d2)
    ensures CollateralValue(d1) <= CollateralValue(d2)
    ensures CollateralToSeize(d1) <= CollateralToSeize(d2)
  {
    CollateralValueIsDebtOverPrice(d1);
    CollateralValueIsDebtOverPrice(d2);
    DivMonotone(d1, d2, ETH_PRICE_USD);
    var v1, v2 := CollateralValue(d1), CollateralValue(d2);
    assert v1 * LIQUIDATION_BONUS <= v2 * LIQUIDATION_BONUS;
    DivMonotone(v1 * LIQUIDATION_BONUS, v2 * LIQUIDATION_BONUS, PRECISION);
  }

  // ---------------------------------------------------------------------------
  // The divisor as written. `ETH_PRICE_USD * 10u64.pow(18)` is evaluated in
  // u64 before it is widened to U256, and 2000 * 10^18 exceeds 2^64 - 1: a
  // debug build panics on the multiplication, a release build wraps it. The
  // rest of the model uses the intended divisor (CollateralValue above).

  /** collateral_value as a release build computes it. */
  function CollateralValueAsWritten(debt: U256): (v: nat)
    requires DebtScalingFits(debt)
    ensures v >= CollateralValue(debt)
  {
    var a, d := debt * TEN_POW_18, ETH_PRICE_USD * TEN_POW_18;
    var w := WrapU64(d);
    assert w == 7_751_640_039_368_425_472;
    var k := a / d;
    assert k * d <= a;
    MulMonotone(w, d, k);
    DivMonotone(k * w, a, w);
    DivByQuotient(k * w, w, k, 0);
    a / w
  }

  /** The wrapped divisor, and what it makes of the unit-test debt of 8000 * 10^18. */
  lemma PriceDivisorOverflowsU64()
    ensures ETH_PRICE_USD * TEN_POW_18 >= TWO_POW_64
    ensures WrapU64(ETH_PRICE_USD * TEN_POW_18) == 7_751_640_039_368_425_472
    ensures CollateralValueAsWritten(8000 * TEN_POW_18) == 1_032_039_666_363_533_821_310
    ensures CollateralValue(8000 * TEN_POW_18) == 4 * TEN_POW_18
  {
    EightThousandDollarDebt();
  }

  /**
   * The wrapped divisor is less than 1/258 of the intended one, so every
   * debt of 8 wei or more is credited with more collateral than it is worth.
   */
  lemma AsWrittenOverstatesCollateral(debt: U256)
    requires DebtScalingFits(debt) && debt >= 8
    ensures CollateralValueAsWritten(debt) > CollateralValue(debt)
  {
    var a, d := debt * TEN_POW_18, ETH_PRICE_USD * TEN_POW_18;
    var w := WrapU64(d);
    assert w == 7_751_640_039_368_425_472;
    assert 258 * w < d;
    var k := a / d;
    assert k * d <= a;
    MulMonotone(258 * w, d, k);
    DivMonotone(k * 258 * w, a, w);
    DivByQuotient(k * 258 * w, w, k * 258, 0);
    DivMonotone(w, a, w);
  }

  /**
   * The unit-test position: a debt of 8000 * 10^18 is worth 4 ether of
   * collateral, and the bonus makes it 4.4 ether ("$8,800 worth").
   */
  lemma EightThousandDollarDebt()
    ensures DebtScalingFits(8000 * TEN_POW_18)
    ensures CollateralValue(8000 * TEN_POW_18) == 4 * TEN_POW_18
    ensures CollateralToSeize(8000 * TEN_POW_18) == 44 * TEN_POW_18 / 10
  {
    CollateralValueIsDebtOverPrice(8000 * TEN_POW_18);
  }
}
