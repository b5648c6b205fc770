// The backtest engine's two consumer loops. The transaction stream, the
// detector's answer for each transaction and the simulator's verdict are
// inputs: run_backtest consumes a sequence of events, and
// run_latency_stress_test a sequence of runs, each carrying the clock
// readings its stage marks take.
module Backtesting {
  import opened Types
  import opened Metrics
  import opened Detector
  import opened Simulator

  /** What simulate_liquidation returned: an error, or a verdict on profitability. */
  datatype SimOutcome = SimFailed | SimOk(profitable: bool)

  /** The clock readings of the marks taken after detection. */
  datatype PipelineClock = PipelineClock(signal: nat, simulated: nat, constructed: nat, sent: nat)

  /** One received transaction, by what process_transaction made of it. */
  datatype BacktestEvent =
    | DetectionFailed
    | NoOpportunity
    | Opportunity(signal: LiquidationSignal, sim: SimOutcome, clock: PipelineClock)

  /** One record_attempt call: the metrics recorded and whether it succeeded. */
  datatype Attempt = Attempt(metrics: LatencyMetrics, success: bool)

  /**
   * The marks after the signal stamp: simulated when the simulation ran,
   * then constructed and sent only when it was judged profitable.
   */
  function Finish(m: LatencyMetrics, sim: SimOutcome, clock: PipelineClock): Attempt
  {
    match sim
    case SimFailed => Attempt(m, false)
    case SimOk(profitable) =>
      var simulated := m.MarkSimulated(clock.simulated);
      if profitable then Attempt(simulated.MarkConstructed(clock.constructed).MarkSent(clock.sent), true)
      else Attempt(simulated, false)
  }

  /**
   * The simulate-then-record step both loops share: mark simulated when the
   * simulation ran, and constructed and sent when it was profitable, then
   * record one attempt, successful only in that last case.
   */
  method SimulateAndRecord(agg: AggregateMetrics, m: LatencyMetrics, sim: SimOutcome, clock: PipelineClock)
    modifies agg
    ensures agg.totalAttempts == old(agg.totalAttempts) + 1
    ensures agg.successfulLiquidations == old(agg.successfulLiquidations) + (if sim == SimOk(true) then 1 else 0)
    ensures agg.failedLiquidations == old(agg.failedLiquidations) + (if sim == SimOk(true) then 0 else 1)
    ensures agg.latencies == old(agg.latencies) + [Finish(m, sim, clock).metrics.GetAllLatencies()]
    ensures old(agg.Valid()) ==> agg.Valid()
  {
    var metrics := m;
    match sim {
      case SimOk(profitable) =>
        metrics := metrics.MarkSimulated(clock.simulated);
        if profitable {
          metrics := metrics.MarkConstructed(clock.constructed);
          metrics := metrics.MarkSent(clock.sent);
          agg.RecordAttempt(metrics, true);
        } else {
          agg.RecordAttempt(metrics, false);
        }
      case SimFailed =>
        agg.RecordAttempt(metrics, false);
    }
  }

  /**
   * Given metrics not yet constructed or sent, the construction and
   * end-to-end latencies are recorded exactly for successful attempts.
   */
  lemma FinishRowShape(m: LatencyMetrics, sim: SimOutcome, clock: PipelineClock)
    requires m.tConstructed.None? && m.tSent.None?
    ensures Finish(m, sim, clock).success <==> sim == SimOk(true)
    ensures END_TO_END_US in Finish(m, sim, clock).metrics.GetAllLatencies() <==> Finish(m, sim, clock).success
    ensures CONSTRUCTION_US in Finish(m, sim, clock).metrics.GetAllLatencies() <==> Finish(m, sim, clock).success
  {
    var a := Finish(m, sim, clock);
    assert a.metrics.Stamp(Constructed).Some? <==> a.success;
    assert a.success ==> a.metrics.Stamp(Simulated).Some?;
  }

  /** The attempts run_backtest records, in stream order. */
  function Attempts(events: seq<BacktestEvent>): seq<Attempt>
  {
    if |events| == 0 then []
    else
      var init := Attempts(events[..|events| - 1]);
      match events[|events| - 1]
      case Opportunity(signal, sim, clock) => init + [Finish(signal.metrics.MarkSignal(clock.signal), sim, clock)]
      case _ => init
  }

  /** The events that produce no attempt: Ok(None) and Err from the detector. */
  function Quiet(events: seq<BacktestEvent>): nat
  {
    if |events| == 0 then 0
    else Quiet(events[..|events| - 1]) + (if events[|events| - 1].Opportunity? then 0 else 1)
  }

  function SuccessCount(attempts: seq<Attempt>): (n: nat)
    ensures n <= |attempts|
  {
    if |attempts| == 0 then 0
    else SuccessCount(attempts[..|attempts| - 1]) + (if attempts[|attempts| - 1].success then 1 else 0)
  }

  /** Every event is either an attempt or a quiet event, never both. */
  lemma {:induction false} EventsPartition(events: seq<BacktestEvent>)
    ensures |Attempts(events)| + Quiet(events) == |events|
  {
    if |events| > 0 {
      EventsPartition(events[..|events| - 1]);
    }
  }

  /** Signals as the detector emits them: not yet constructed, not yet sent. */
  predicate FreshSignals(events: seq<BacktestEvent>)
  {
    forall i :: 0 <= i < |events| && events[i].Opportunity? ==>
      events[i].signal.metrics.tConstructed.None? && events[i].signal.metrics.tSent.None?
  }

  /**
   * In the backtest's rows, end_to_end_us and construction_us appear in
   * exactly the rows of successful attempts.
   */
  lemma {:induction false} SuccessfulRowsAreTheTimedOnes(events: seq<BacktestEvent>)
    requires FreshSignals(events)
    ensures forall k :: 0 <= k < |Attempts(events)| ==>
      && (END_TO_END_US in Attempts(events)[k].metrics.GetAllLatencies() <==> Attempts(events)[k].success)
      && (CONSTRUCTION_US in Attempts(events)[k].metrics.GetAllLatencies() <==> Attempts(events)[k].success)
  {
    if |events| > 0 {
      var init := events[..|events| - 1];
      assert FreshSignals(init) by {
        forall i | 0 <= i < |init| && init[i].Opportunity?
          ensures init[i].signal.metrics.tConstructed.None? && init[i].signal.metrics.tSent.None?
        {
          assert init[i] == events[i];
        }
      }
      SuccessfulRowsAreTheTimedOnes(init);
      match events[|events| - 1]
      case Opportunity(signal, sim, clock) =>
        FinishRowShape(signal.metrics.MarkSignal(clock.signal), sim, clock);
      case _ =>
    }
  }

  /**
   * The consumer loop of run_backtest: every event counts as processed; an
   * event with a signal counts as found and records exactly one attempt,
   * successful iff the simulation succeeded and was profitable.
   */
  method RunBacktest(events: seq<BacktestEvent>) returns (processed: nat, found: nat, agg: AggregateMetrics)
    ensures fresh(agg) && agg.Valid()
    ensures processed == |events|
    ensures found == |Attempts(events)| == agg.totalAttempts
    ensures agg.successfulLiquidations == SuccessCount(Attempts(events))
    ensures |agg.latencies| == |Attempts(events)|
    ensures forall k :: 0 <= k < |agg.latencies| ==> agg.latencies[k] == Attempts(events)[k].metrics.GetAllLatencies()
  {
    agg := new AggregateMetrics();
    processed, found := 0, 0;
    var i := 0;
    while i < |events|
      invariant 0 <= i <= |events|
      invariant fresh(agg) && agg.Valid()
      invariant processed == i
      invariant found == |Attempts(events[..i])| == agg.totalAttempts
      invariant agg.successfulLiquidations == SuccessCount(Attempts(events[..i]))
      invariant |agg.latencies| == |Attempts(events[..i])|
      invariant forall k :: 0 <= k < |agg.latencies| ==>
        agg.latencies[k] == Attempts(events[..i])[k].metrics.GetAllLatencies()
    {
      assert events[..i + 1][..i] == events[..i];
      processed := processed + 1;
      match events[i] {
        case Opportunity(signal, sim, clock) =>
          found := found + 1;
          var metrics := signal.metrics.MarkSignal(clock.signal);
          SimulateAndRecord(agg, metrics, sim, clock);
          ghost var attempts := Attempts(events[..i]) + [Finish(signal.metrics.MarkSignal(clock.signal), sim, clock)];
          assert Attempts(events[..i + 1]) == attempts;
          assert attempts[..|attempts| - 1] == Attempts(events[..i]);
        case _ =>
      }
      i := i + 1;
    }
    assert events[..i] == events;
  }

  /** One iteration of the stress test: its clock readings and the simulator's verdict. */
  datatype StressRun = StressRun(received: nat, decoded: nat, sim: SimOutcome, clock: PipelineClock)

  /** The synthetic signal of the stress test: 5 ether of collateral, a debt of 8000 * 10^18, health factor 80. */
  function StressSignal(user: Address, metrics: LatencyMetrics): LiquidationSignal
  {
    LiquidationSignal(user, 5 * TEN_POW_18, 8000 * TEN_POW_18, 80, metrics)
  }

  /** The stress signal is below the threshold, and a full liquidation of it seizes 4.4 ether. */
  lemma StressSignalIsLiquidatable(user: Address, metrics: LatencyMetrics)
    ensures IsLiquidatable(StressSignal(user, metrics).healthFactor, StressSignal(user, metrics).debt)
    ensures DebtScalingFits(StressSignal(user, metrics).debt)
    ensures CollateralToSeize(StressSignal(user, metrics).debt) == 44 * TEN_POW_18 / 10
  {
    EightThousandDollarDebt();
  }

  /**
   * The stress signal as written: `8000 * 10u64.pow(18)` is a u64 product
   * and overflows (a debug build panics, a release build wraps); the
   * collateral `5 * 10u64.pow(18)` fits.
   */
  function StressSignalAsWritten(user: Address, metrics: LatencyMetrics): LiquidationSignal
  {
    LiquidationSignal(user, WrapU64(5 * TEN_POW_18), WrapU64(8000 * TEN_POW_18), 80, metrics)
  }

  lemma StressDebtOverflowsU64(user: Address, metrics: LatencyMetrics)
    ensures 8000 * TEN_POW_18 >= TWO_POW_64
    ensures StressSignalAsWritten(user, metrics).collateral == StressSignal(user, metrics).collateral
    ensures StressSignalAsWritten(user, metrics).debt == 12_559_816_083_764_150_272
  {
  }

  /** The metrics an iteration of the stress test records. */
  function StressAttempt(run: StressRun): Attempt
  {
    Finish(LatencyMetrics.New(run.received).MarkDecoded(run.decoded).MarkSignal(run.clock.signal), run.sim, run.clock)
  }

  /**
   * Every stress-test row has the decode and signal-detection latencies,
   * and has the end-to-end and construction latencies iff it succeeded.
   */
  lemma StressRowShape(run: StressRun)
    ensures DECODE_US in StressAttempt(run).metrics.GetAllLatencies()
    ensures SIGNAL_DETECTION_US in StressAttempt(run).metrics.GetAllLatencies()
    ensures StressAttempt(run).success <==> run.sim == SimOk(true)
    ensures END_TO_END_US in StressAttempt(run).metrics.GetAllLatencies() <==> StressAttempt(run).success
  {
    var m := LatencyMetrics.New(run.received).MarkDecoded(run.decoded).MarkSignal(run.clock.signal);
    FinishRowShape(m, run.sim, run.clock);
    var a := StressAttempt(run);
    assert a.metrics.Stamp(Decoded).Some? && a.metrics.Stamp(SignalDetected).Some?;
  }

  /** The iterations whose simulation succeeded and was profitable. */
  function ProfitableRuns(runs: seq<StressRun>): (n: nat)
    ensures n <= |runs|
  {
    if |runs| == 0 then 0
    else ProfitableRuns(runs[..|runs| - 1]) + (if runs[|runs| - 1].sim == SimOk(true) then 1 else 0)
  }

  /**
   * The loop of run_latency_stress_test: one attempt per iteration, with
   * the stamps of that iteration. The signal handed to the simulator is
   * built from a copy of the metrics taken before the signal stamp.
   */
  method RunLatencyStressTest(testUser: Address, runs: seq<StressRun>) returns (agg: AggregateMetrics)
    ensures fresh(agg) && agg.Valid()
    ensures agg.totalAttempts == |runs|
    ensures agg.successfulLiquidations == ProfitableRuns(runs)
    ensures |agg.latencies| == |runs|
    ensures forall k :: 0 <= k < |runs| ==> agg.latencies[k] == StressAttempt(runs[k]).metrics.GetAllLatencies()
  {
    agg := new AggregateMetrics();
    for i := 0 to |runs|
      invariant fresh(agg) && agg.Valid()
      invariant agg.totalAttempts == i
      invariant agg.successfulLiquidations == ProfitableRuns(runs[..i])
      invariant |agg.latencies| == i
      invariant forall k :: 0 <= k < i ==> agg.latencies[k] == StressAttempt(runs[k]).metrics.GetAllLatencies()
    {
      var run := runs[i];
      ghost var before := agg.latencies;
      var metrics := LatencyMetrics.New(run.received);
      metrics := metrics.MarkDecoded(run.decoded);
      var signal := StressSignal(testUser, metrics);
      assert signal.metrics.tSignal.None?;
      metrics := metrics.MarkSignal(run.clock.signal);
      SimulateAndRecord(agg, metrics, run.sim, run.clock);
      assert Finish(metrics, run.sim, run.clock) == StressAttempt(run);
      ghost var row := StressAttempt(run).metrics.GetAllLatencies();
      assert agg.latencies == before + [row];
      assert runs[..i + 1][..i] == runs[..i];
      assert ProfitableRuns(runs[..i + 1]) == ProfitableRuns(runs[..i]) + (if run.sim == SimOk(true) then 1 else 0);
      forall k | 0 <= k < i + 1
        ensures agg.latencies[k] == StressAttempt(runs[k]).metrics.GetAllLatencies()
      {
        if k < i {
          assert agg.latencies[k] == before[k];
        }
      }
    }
    assert runs[..|runs|] == runs;
  }
}
