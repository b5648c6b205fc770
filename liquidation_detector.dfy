// The liquidation detector: a store of the last-known position of every
// account seen acting on the lending protocol, refreshed from the chain when
// a state-changing call of that account arrives, and the threshold test that
// turns a refreshed position into a liquidation signal.
//
// The chain lookup (BlockchainClient::get_position), the wall clock used for
// `last_updated` and the monotonic clock used for the latency stamps are
// parameters. The RwLock around the map is not modelled: the store is a
// single-owner map field that the methods reassign.
module Detector {
  import opened Types
  import opened Streamer
  import opened Metrics

  /** Health factors are percentages: 100 means 1.0. */
  const LIQUIDATION_THRESHOLD: nat := 100

  /** UserPosition: the last fetched snapshot of one account. */
  datatype UserPosition = UserPosition(collateral: U256, debt: U256, healthFactor: U256, lastUpdated: nat)

  /** What get_position(user) returns when the lookup succeeds. */
  datatype ChainPosition = ChainPosition(collateral: U256, debt: U256, healthFactor: U256)

  /** LiquidationSignal. */
  datatype LiquidationSignal = LiquidationSignal(
    user: Address, collateral: U256, debt: U256, healthFactor: U256, metrics: LatencyMetrics)

  /** The three clock readings taken while one transaction is processed. */
  datatype DetectionClock = DetectionClock(received: nat, decoded: nat, signal: nat)

  /** The liquidation predicate: health factor below 100 with some debt outstanding. */
  predicate IsLiquidatable(healthFactor: nat, debt: nat)
    ensures healthFactor >= LIQUIDATION_THRESHOLD ==> !IsLiquidatable(healthFactor, debt)
    ensures debt == 0 ==> !IsLiquidatable(healthFactor, debt)
  {
    healthFactor < LIQUIDATION_THRESHOLD && debt > 0
  }

  /**
   * The unit-test position (health factor 150, debt 1000 * 10^18) is not
   * liquidatable, neither with the intended debt nor with the u64-wrapped
   * value that `1000 * 10u64.pow(18)` gives in a release build.
   */
  lemma HealthyPositionNotLiquidatable()
    ensures 1000 * TEN_POW_18 >= TWO_POW_64
    ensures !IsLiquidatable(150, 1000 * TEN_POW_18)
    ensures !IsLiquidatable(150, WrapU64(1000 * TEN_POW_18))
  {
  }

  /**
   * The store after update_position(user) with the lookup's answer: on
   * success the user's entry is replaced as a whole and nothing else
   * changes; on failure nothing changes at all.
   */
  function Refreshed(positions: map<Address, UserPosition>, user: Address, lookup: Option<ChainPosition>, now: nat)
    : (r: map<Address, UserPosition>)
    ensures lookup.None? ==> r == positions
    ensures lookup.Some? ==>
      && user in r
      && r[user] == UserPosition(lookup.value.collateral, lookup.value.debt, lookup.value.healthFactor, now)
    ensures forall a :: a != user ==> (a in r <==> a in positions)
    ensures forall a :: a != user && a in positions ==> r[a] == positions[a]
    ensures |positions| <= |r| <= |positions| + 1
  {
    match lookup
    case None => positions
    case Some(p) => positions[user := UserPosition(p.collateral, p.debt, p.healthFactor, now)]
  }

  /** The stamps of a signal emitted while processing a transaction. */
  function DetectionMetrics(clock: DetectionClock): (m: LatencyMetrics)
    ensures m.tReceived == clock.received
    ensures m.tDecoded == Some(clock.decoded) && m.tSignal == Some(clock.signal)
    ensures m.tSimulated == None && m.tConstructed == None && m.tSent == None
  {
    LatencyMetrics.New(clock.received).MarkDecoded(clock.decoded).MarkSignal(clock.signal)
  }

  /** LiquidationDetector. */
  class LiquidationDetector {
    var positions: map<Address, UserPosition>

    constructor ()
      ensures positions == map[]
    {
      positions := map[];
    }

    /**
     * process_transaction. Not addressed to the protocol, or an unknown
     * selector: no signal and no store access. Deposit, Withdraw, Borrow and
     * Repay refresh the sender; a failed lookup ends with no signal, and
     * otherwise a signal is emitted iff the fresh position is liquidatable.
     * Liquidate refreshes the sender too (the liquidator, not the liquidated
     * account), ignores a failed lookup and never signals.
     */
    method ProcessTransaction(tx: Transaction, protocol: Address, lookup: Option<ChainPosition>, now: nat, clock: DetectionClock)
      returns (signal: Option<LiquidationSignal>)
      modifies this
      ensures !IsProtocolTransaction(tx, protocol) || Classify(tx.input).None? ==>
        positions == old(positions) && signal.None?
      ensures IsProtocolTransaction(tx, protocol) && Classify(tx.input) == Some(Liquidate) ==>
        positions == Refreshed(old(positions), tx.from, lookup, now) && signal.None?
      ensures IsProtocolTransaction(tx, protocol) && Classify(tx.input).Some? && Classify(tx.input) != Some(Liquidate) ==>
        && positions == Refreshed(old(positions), tx.from, lookup, now)
        && (signal.Some? <==> lookup.Some? && IsLiquidatable(lookup.value.healthFactor, lookup.value.debt))
        && (signal.Some? ==> signal.value == LiquidationSignal(
              tx.from, lookup.value.collateral, lookup.value.debt, lookup.value.healthFactor, DetectionMetrics(clock)))
    {
      var metrics := LatencyMetrics.New(clock.received);
      if !IsProtocolTransaction(tx, protocol) {
        return None;
      }
      var kind := Classify(tx.input);
      if kind.None? {
        return None;
      }
      metrics := metrics.MarkDecoded(clock.decoded);
      match kind.value {
        case Deposit | Withdraw | Borrow | Repay =>
          var user := ExtractUserAddress(tx);
          var ok := UpdatePosition(user, lookup, now);
          if !ok {
            return None;
          }
          // The signal carries a copy of the metrics taken inside
          // CheckLiquidation; the source's second mark_signal afterwards only
          // touches the local copy, which is then dropped.
          signal, metrics := CheckLiquidation(user, metrics, clock.signal);
        case Liquidate =>
          var user := ExtractUserAddress(tx);
          var _ := UpdatePosition(user, lookup, now);
          signal := None;
      }
    }

    /** update_position: the lookup comes first, so a failure writes nothing. */
    method UpdatePosition(user: Address, lookup: Option<ChainPosition>, now: nat) returns (ok: bool)
      modifies this
      ensures ok <==> lookup.Some?
      ensures positions == Refreshed(old(positions), user, lookup, now)
    {
      match lookup {
        case None =>
          return false;
        case Some(p) =>
          var position := UserPosition(p.collateral, p.debt, p.healthFactor, now);
          positions := positions[user := position];
          return true;
      }
    }

    /**
     * check_liquidation: a signal for `user` iff the stored position is
     * liquidatable, carrying the stored values and the metrics as they are
     * right after the signal stamp is taken; the caller's metrics are marked
     * only when a signal is emitted.
     */
    method CheckLiquidation(user: Address, metrics: LatencyMetrics, tSignal: nat)
      returns (signal: Option<LiquidationSignal>, marked: LatencyMetrics)
      ensures signal.Some? <==> user in positions && IsLiquidatable(positions[user].healthFactor, positions[user].debt)
      ensures signal.Some? ==>
        && marked == metrics.MarkSignal(tSignal)
        && signal.value == LiquidationSignal(
             user, positions[user].collateral, positions[user].debt, positions[user].healthFactor, marked)
      ensures signal.None? ==> marked == metrics
    {
      if user !in positions {
        return None, metrics;
      }
      var position := positions[user];
      if position.healthFactor < LIQUIDATION_THRESHOLD && position.debt > 0 {
        marked := metrics.MarkSignal(tSignal);
        signal := Some(LiquidationSignal(user, position.collateral, position.debt, position.healthFactor, marked));
      } else {
        signal, marked := None, metrics;
      }
    }

    /**
     * scan_all_positions: one signal per tracked account that satisfies the
     * predicate (in no particular order), none for any other account, each
     * with that account's stored values. Every signal gets metrics of its
     * own: `readings(k)` is the pair of clock readings (LatencyMetrics::new,
     * then mark_signal) taken for the k-th signal emitted. The store is only
     * read.
     */
    method ScanAllPositions(readings: nat -> (nat, nat)) returns (signals: seq<LiquidationSignal>)
      ensures forall i :: 0 <= i < |signals| ==>
        && signals[i].user in positions
        && IsLiquidatable(positions[signals[i].user].healthFactor, positions[signals[i].user].debt)
        && signals[i] == SignalFor(signals[i].user, positions[signals[i].user], readings(i).0, readings(i).1)
      ensures forall u :: u in positions && IsLiquidatable(positions[u].healthFactor, positions[u].debt) ==>
        exists i :: 0 <= i < |signals| && signals[i].user == u
      ensures forall i, j :: 0 <= i < j < |signals| ==> signals[i].user != signals[j].user
    {
      signals := [];
      var remaining := positions.Keys;
      while remaining != {}
        invariant remaining <= positions.Keys
        invariant forall i :: 0 <= i < |signals| ==>
          && signals[i].user in positions.Keys - remaining
          && IsLiquidatable(positions[signals[i].user].healthFactor, positions[signals[i].user].debt)
          && signals[i] == SignalFor(signals[i].user, positions[signals[i].user], readings(i).0, readings(i).1)
        invariant forall u :: u in positions.Keys - remaining && IsLiquidatable(positions[u].healthFactor, positions[u].debt) ==>
          exists i :: 0 <= i < |signals| && signals[i].user == u
        invariant forall i, j :: 0 <= i < j < |signals| ==> signals[i].user != signals[j].user
        decreases remaining
      {
        var user :| user in remaining;
        var position := positions[user];
        if position.healthFactor < LIQUIDATION_THRESHOLD && position.debt > 0 {
          ghost var before := signals;
          var (tReceived, tSignal) := readings(|signals|);
          signals := signals + [SignalFor(user, position, tReceived, tSignal)];
          assert signals[|before|].user == user;
          assert forall i :: 0 <= i < |before| ==> signals[i] == before[i];
        }
        remaining := remaining - {user};
      }
    }

    /** get_position_count. */
    function GetPositionCount(): (n: nat)
      reads this
      ensures n == 0 <==> positions == map[]
    {
      |positions|
    }

    /** clear_positions: the store becomes empty. */
    method ClearPositions()
      modifies this
      ensures positions == map[]
      ensures GetPositionCount() == 0
    {
      positions := map[];
    }
  }

  /** The signal a sweep emits for one stored position. */
  function SignalFor(user: Address, p: UserPosition, tReceived: nat, tSignal: nat): LiquidationSignal
  {
    LiquidationSignal(user, p.collateral, p.debt, p.healthFactor, LatencyMetrics.New(tReceived).MarkSignal(tSignal))
  }
}
