// Latency instrumentation of the liquidation pipeline: the six checkpoint
// stamps of one opportunity, the durations derived from them, and the
// append-only aggregate of many attempts with its nearest-rank percentile
// and mean.
//
// Stamps are monotonic-clock readings in microseconds, passed in by the
// caller in place of Instant::now(); latency values are whole microseconds.
module Metrics {
  import opened Types

  /** The pipeline stages, in the order their stamps are meant to be taken. */
  datatype Stage = Received | Decoded | SignalDetected | Simulated | Constructed | Sent
  {
    function Index(): nat
    {
      match this
      case Received => 0
      case Decoded => 1
      case SignalDetected => 2
      case Simulated => 3
      case Constructed => 4
      case Sent => 5
    }
  }

  /**
   * Instant::duration_since: the time from `earlier` to `later`, saturating
   * at zero when `later` is in fact the earlier reading.
   */
  function Elapsed(later: nat, earlier: nat): (d: nat)
    ensures earlier <= later ==> earlier + d == later
    ensures later < earlier ==> d == 0
  {
    if earlier <= later then later - earlier else 0
  }

  /** The names of the derived durations, as they appear as row keys. */
  const DECODE_US: string := "decode_us"
  const SIGNAL_DETECTION_US: string := "signal_detection_us"
  const SIMULATION_US: string := "simulation_us"
  const CONSTRUCTION_US: string := "construction_us"
  const END_TO_END_US: string := "end_to_end_us"

  /** One recorded attempt: metric name to microseconds. */
  type LatencyRow = map<string, nat>

  /** LatencyMetrics: `received` is always set, the other five may be absent. */
  datatype LatencyMetrics = LatencyMetrics(
    tReceived: nat,
    tDecoded: Option<nat>,
    tSignal: Option<nat>,
    tSimulated: Option<nat>,
    tConstructed: Option<nat>,
    tSent: Option<nat>)
  {
    /** The stamp of a stage, by stage. */
    function Stamp(stage: Stage): Option<nat>
    {
      match stage
      case Received => Some(tReceived)
      case Decoded => tDecoded
      case SignalDetected => tSignal
      case Simulated => tSimulated
      case Constructed => tConstructed
      case Sent => tSent
    }

    /** The duration between two stages: present iff both stamps are. */
    function Between(from: Stage, to: Stage): Option<nat>
    {
      if Stamp(from).Some? && Stamp(to).Some? then Some(Elapsed(Stamp(to).value, Stamp(from).value)) else None
    }

    /** Whichever stamps are present are non-decreasing in pipeline order. */
    ghost predicate InOrder()
    {
      forall a: Stage, b: Stage ::
        a.Index() < b.Index() && Stamp(a).Some? && Stamp(b).Some? ==> Stamp(a).value <= Stamp(b).value
    }

    /** LatencyMetrics::new: only `received` is set. */
    static function New(now: nat): (m: LatencyMetrics)
      ensures m.Stamp(Received) == Some(now)
      ensures forall s: Stage :: s != Received ==> m.Stamp(s) == None
      ensures m.InOrder()
    {
      LatencyMetrics(now, None, None, None, None, None)
    }

    function MarkDecoded(now: nat): (m: LatencyMetrics)
      ensures forall s: Stage :: m.Stamp(s) == if s == Decoded then Some(now) else Stamp(s)
    {
      this.(tDecoded := Some(now))
    }

    function MarkSignal(now: nat): (m: LatencyMetrics)
      ensures forall s: Stage :: m.Stamp(s) == if s == SignalDetected then Some(now) else Stamp(s)
    {
      this.(tSignal := Some(now))
    }

    function MarkSimulated(now: nat): (m: LatencyMetrics)
      ensures forall s: Stage :: m.Stamp(s) == if s == Simulated then Some(now) else Stamp(s)
    {
      this.(tSimulated := Some(now))
    }

    function MarkConstructed(now: nat): (m: LatencyMetrics)
      ensures forall s: Stage :: m.Stamp(s) == if s == Constructed then Some(now) else Stamp(s)
    {
      this.(tConstructed := Some(now))
    }

    function MarkSent(now: nat): (m: LatencyMetrics)
      ensures forall s: Stage :: m.Stamp(s) == if s == Sent then Some(now) else Stamp(s)
    {
      this.(tSent := Some(now))
    }

    /** received -> decoded; present iff `decoded` is set, since `received` always is. */
    function LatencyDecode(): (d: Option<nat>)
      ensures d == Between(Received, Decoded)
      ensures d.Some? <==> tDecoded.Some?
    {
      match tDecoded
      case Some(t) => Some(Elapsed(t, tReceived))
      case None => None
    }

    /** decoded -> signal. */
    function LatencySignalDetection(): (d: Option<nat>)
      ensures d == Between(Decoded, SignalDetected)
    {
      if tDecoded.Some? && tSignal.Some? then Some(Elapsed(tSignal.value, tDecoded.value)) else None
    }

    /** signal -> simulated. */
    function LatencySimulation(): (d: Option<nat>)
      ensures d == Between(SignalDetected, Simulated)
    {
      if tSignal.Some? && tSimulated.Some? then Some(Elapsed(tSimulated.value, tSignal.value)) else None
    }

    /** simulated -> constructed. */
    function LatencyConstruction(): (d: Option<nat>)
      ensures d == Between(Simulated, Constructed)
    {
      if tSimulated.Some? && tConstructed.Some? then Some(Elapsed(tConstructed.value, tSimulated.value)) else None
    }

    /** received -> sent; present iff `sent` is set. */
    function LatencyEndToEnd(): (d: Option<nat>)
      ensures d == Between(Received, Sent)
      ensures d.Some? <==> tSent.Some?
    {
      match tSent
      case Some(t) => Some(Elapsed(t, tReceived))
      case None => None
    }

    /** The derived duration a row key stands for; None for any other name. */
    function DurationNamed(name: string): Option<nat>
    {
      if name == DECODE_US then LatencyDecode()
      else if name == SIGNAL_DETECTION_US then LatencySignalDetection()
      else if name == SIMULATION_US then LatencySimulation()
      else if name == CONSTRUCTION_US then LatencyConstruction()
      else if name == END_TO_END_US then LatencyEndToEnd()
      else None
    }

    /**
     * get_all_latencies: one entry per present duration, under its name, and
     * nothing else.
     */
    function GetAllLatencies(): (row: LatencyRow)
      ensures forall name :: name in row <==> DurationNamed(name).Some?
      ensures forall name :: name in row ==> row[name] == DurationNamed(name).value
    {
      var row: LatencyRow := map[];
      var row := if LatencyDecode().Some? then row[DECODE_US := LatencyDecode().value] else row;
      var row := if LatencySignalDetection().Some? then row[SIGNAL_DETECTION_US := LatencySignalDetection().value] else row;
      var row := if LatencySimulation().Some? then row[SIMULATION_US := LatencySimulation().value] else row;
      var row := if LatencyConstruction().Some? then row[CONSTRUCTION_US := LatencyConstruction().value] else row;
      var row := if LatencyEndToEnd().Some? then row[END_TO_END_US := LatencyEndToEnd().value] else row;
      row
    }
  }

  /** When the stamps are in order, every present duration is a plain difference. */
  lemma OrderedDurations(m: LatencyMetrics, from: Stage, to: Stage)
    requires m.InOrder() && from.Index() < to.Index()
    requires m.Between(from, to).Some?
    ensures m.Stamp(from).value + m.Between(from, to).value == m.Stamp(to).value
  {
  }

  /**
   * With all six stamps set in order, the four stage durations and the
   * constructed -> sent gap add up to the end-to-end latency, so their sum
   * never exceeds it.
   */
  lemma StagesWithinEndToEnd(m: LatencyMetrics)
    requires m.InOrder()
    requires forall s: Stage :: m.Stamp(s).Some?
    ensures m.LatencyDecode().value + m.LatencySignalDetection().value + m.LatencySimulation().value
            + m.LatencyConstruction().value + m.Between(Constructed, Sent).value
            == m.LatencyEndToEnd().value
    ensures m.LatencyDecode().value + m.LatencySignalDetection().value + m.LatencySimulation().value
            + m.LatencyConstruction().value <= m.LatencyEndToEnd().value
  {
    assert m.Stamp(Decoded).Some? && m.Stamp(SignalDetected).Some? && m.Stamp(Simulated).Some?;
    assert m.Stamp(Constructed).Some? && m.Stamp(Sent).Some?;
    OrderedDurations(m, Received, Decoded);
    OrderedDurations(m, Decoded, SignalDetected);
    OrderedDurations(m, SignalDetected, Simulated);
    OrderedDurations(m, Simulated, Constructed);
    OrderedDurations(m, Constructed, Sent);
    OrderedDurations(m, Received, Sent);
  }

  /**
   * A mark taken at a reading no earlier than every present stamp, for a
   * stage none of whose successors is set, keeps the stamps in order.
   */
  lemma MarkKeepsOrder(m: LatencyMetrics, stage: Stage, now: nat, marked: LatencyMetrics)
    requires m.InOrder()
    requires forall s: Stage :: m.Stamp(s).Some? ==> m.Stamp(s).value <= now
    requires forall s: Stage :: stage.Index() < s.Index() ==> m.Stamp(s) == None
    requires forall s: Stage :: marked.Stamp(s) == if s == stage then Some(now) else m.Stamp(s)
    ensures marked.InOrder()
  {
  }

  /**
   * AggregateMetrics: counters plus one row per attempt. Attempts are only
   * ever appended.
   */
  class AggregateMetrics {
    var totalAttempts: nat
    var successfulLiquidations: nat
    var failedLiquidations: nat
    var latencies: seq<LatencyRow>

    /** Every attempt is counted once, as a success or as a failure, and has one row. */
    ghost predicate Valid()
      reads this
    {
      && totalAttempts == successfulLiquidations + failedLiquidations
      && |latencies| == totalAttempts
    }

    constructor ()
      ensures Valid()
      ensures totalAttempts == 0 && successfulLiquidations == 0 && failedLiquidations == 0
      ensures latencies == []
    {
      totalAttempts := 0;
      successfulLiquidations := 0;
      failedLiquidations := 0;
      latencies := [];
    }

    /** record_attempt: count the attempt under its outcome and append its row. */
    method RecordAttempt(metrics: LatencyMetrics, success: bool)
      modifies this
      ensures totalAttempts == old(totalAttempts) + 1
      ensures successfulLiquidations == old(successfulLiquidations) + (if success then 1 else 0)
      ensures failedLiquidations == old(failedLiquidations) + (if success then 0 else 1)
      ensures latencies == old(latencies) + [metrics.GetAllLatencies()]
      ensures forall name ::
                ValuesOf(latencies, name) == ValuesOf(old(latencies), name) + ExtraValue(metrics.GetAllLatencies(), name)
      ensures old(Valid()) ==> Valid()
    {
      totalAttempts := totalAttempts + 1;
      if success {
        successfulLiquidations := successfulLiquidations + 1;
      } else {
        failedLiquidations := failedLiquidations + 1;
      }
      ghost var before := latencies;
      latencies := latencies + [metrics.GetAllLatencies()];
      forall name {
        ValuesOfAppend(before, metrics.GetAllLatencies(), name);
      }
    }
  }

  // ---------------------------------------------------------------------------
  // Queries over the recorded rows (AggregateMetrics::percentile and ::mean
  // read only `latencies`).

  /** How many rows recorded the value v for the metric. */
  function Occurrences(rows: seq<LatencyRow>, name: string, v: nat): nat
  {
    if rows == [] then 0
    else
      var last := rows[|rows| - 1];
      Occurrences(rows[..|rows| - 1], name, v) + (if name in last && last[name] == v then 1 else 0)
  }

  /**
   * The values recorded for a metric, in row order (the filter_map).
   */
  function ValuesOf(rows: seq<LatencyRow>, name: string): (vs: seq<nat>)
    ensures |vs| <= |rows|
    ensures vs == [] <==> forall i :: 0 <= i < |rows| ==> name !in rows[i]
    ensures forall i :: 0 <= i < |rows| && name in rows[i] ==> rows[i][name] in vs
    ensures forall v :: v in vs ==> exists i :: 0 <= i < |rows| && name in rows[i] && rows[i][name] == v
  {
    if rows == [] then []
    else
      var init := rows[..|rows| - 1];
      var last := rows[|rows| - 1];
      assert forall i :: 0 <= i < |init| ==> init[i] == rows[i];
      ValuesOf(init, name) + ExtraValue(last, name)
  }

  /** Every row that has the metric contributes its value exactly once: no value is lost or merged. */
  lemma {:induction false} ValuesOfCounts(rows: seq<LatencyRow>, name: string, v: nat)
    ensures multiset(ValuesOf(rows, name))[v] == Occurrences(rows, name, v)
  {
    if rows != [] {
      var init, last := rows[..|rows| - 1], rows[|rows| - 1];
      ValuesOfCounts(init, name, v);
      var earlier, extra := ValuesOf(init, name), ExtraValue(last, name);
      assert ValuesOf(rows, name) == earlier + extra;
      assert multiset(earlier + extra) == multiset(earlier) + multiset(extra);
    }
  }

  /** What one row adds to a metric's values: its value, if it has one. */
  function ExtraValue(row: LatencyRow, name: string): (vs: seq<nat>)
    ensures name in row ==> vs == [row[name]]
    ensures name !in row ==> vs == []
  {
    if name in row then [row[name]] else []
  }

  /** Recording one more row extends every metric's values by that row's value, if it has one. */
  lemma ValuesOfAppend(rows: seq<LatencyRow>, row: LatencyRow, name: string)
    ensures ValuesOf(rows + [row], name) == ValuesOf(rows, name) + ExtraValue(row, name)
  {
    assert (rows + [row])[..|rows|] == rows;
  }

  predicate Sorted(s: seq<nat>)
  {
    forall i, j :: 0 <= i < j < |s| ==> s[i] <= s[j]
  }

  /** Insert x into a sorted sequence. */
  function Insert(x: nat, s: seq<nat>): (r: seq<nat>)
    requires Sorted(s)
    ensures |r| == |s| + 1
    ensures Sorted(r)
    ensures multiset(r) == multiset(s) + multiset{x}
  {
    if s == [] then [x]
    else if x <= s[0] then [x] + s
    else
      var tail := s[1..];
      var rest := Insert(x, tail);
      assert s == [s[0]] + tail;
      assert multiset(s) == multiset{s[0]} + multiset(tail);
      InsertedAllAbove(s[0], x, tail, rest);
      PrependKeepsSorted(s[0], rest);
      assert multiset([s[0]] + rest) == multiset{s[0]} + multiset(rest);
      [s[0]] + rest
  }

  /** A lower bound of a sorted sequence can be put in front of it. */
  lemma PrependKeepsSorted(lo: nat, s: seq<nat>)
    requires Sorted(s)
    requires forall i :: 0 <= i < |s| ==> lo <= s[i]
    ensures Sorted([lo] + s)
  {
  }

  /** A lower bound of x and of s bounds every element of s with x added. */
  lemma InsertedAllAbove(lo: nat, x: nat, s: seq<nat>, r: seq<nat>)
    requires lo <= x
    requires forall i :: 0 <= i < |s| ==> lo <= s[i]
    requires multiset(r) == multiset(s) + multiset{x}
    ensures forall j :: 0 <= j < |r| ==> lo <= r[j]
  {
    forall j | 0 <= j < |r|
      ensures lo <= r[j]
    {
      assert r[j] in multiset(r);
      if r[j] != x {
        assert r[j] in multiset(s);
      }
    }
  }

  /** The ascending sort of the collected values (Rust's sort_by). */
  function SortAscending(s: seq<nat>): (r: seq<nat>)
    ensures |r| == |s|
    ensures Sorted(r)
    ensures multiset(r) == multiset(s)
  {
    if s == [] then []
    else
      assert s == [s[0]] + s[1..];
      Insert(s[0], SortAscending(s[1..]))
  }

  /**
   * The nearest-rank index floor(p / 100 * n), cast to usize (a negative
   * value saturates to 0) and clamped to n - 1.
   */
  function NearestRankIndex(p: real, n: nat): (k: nat)
    requires n > 0
    ensures k < n
  {
    var x := (p / 100.0 * n as real).Floor;
    var k := if x < 0 then 0 else x;
    if k < n - 1 then k else n - 1
  }

  /** AggregateMetrics::percentile. */
  function Percentile(rows: seq<LatencyRow>, name: string, p: real): (r: Option<nat>)
    ensures r.None? <==> forall i :: 0 <= i < |rows| ==> name !in rows[i]
  {
    var vs := ValuesOf(rows, name);
    if vs == [] then None else Some(SortAscending(vs)[NearestRankIndex(p, |vs|)])
  }

  /** Every element of the sorted values is a value some row recorded. */
  lemma SortedValueIsRecorded(rows: seq<LatencyRow>, name: string, k: nat)
    requires k < |ValuesOf(rows, name)|
    ensures exists i :: 0 <= i < |rows| && name in rows[i] && rows[i][name] == SortAscending(ValuesOf(rows, name))[k]
  {
    var vs := ValuesOf(rows, name);
    var v := SortAscending(vs)[k];
    assert v in multiset(SortAscending(vs));
    assert v in multiset(vs);
    assert v in vs;
  }

  /** The percentile is always one of the recorded values. */
  lemma PercentileIsRecorded(rows: seq<LatencyRow>, name: string, p: real)
    requires Percentile(rows, name, p).Some?
    ensures exists i :: 0 <= i < |rows| && name in rows[i] && rows[i][name] == Percentile(rows, name, p).value
  {
    SortedValueIsRecorded(rows, name, NearestRankIndex(p, |ValuesOf(rows, name)|));
  }

  lemma NearestRankIndexLow(p: real, n: nat)
    requires n > 0 && p <= 0.0
    ensures NearestRankIndex(p, n) == 0
  {
    var x, c := p / 100.0, n as real;
    assert x <= 0.0;
    ScaleOrder(x, 0.0, c);
    assert x * c <= 0.0 * c == 0.0;
    FloorMonotone(x * c, 0.0);
  }

  lemma NearestRankIndexHigh(p: real, n: nat)
    requires n > 0 && p >= 100.0
    ensures NearestRankIndex(p, n) == n - 1
  {
    var x, c := p / 100.0, n as real;
    assert 1.0 <= x;
    ScaleOrder(1.0, x, c);
    assert c == 1.0 * c <= x * c;
    FloorMonotone(c, x * c);
  }

  lemma NearestRankIndexMonotone(p: real, q: real, n: nat)
    requires n > 0 && p <= q
    ensures NearestRankIndex(p, n) <= NearestRankIndex(q, n)
  {
    var x, y, c := p / 100.0, q / 100.0, n as real;
    assert x <= y;
    ScaleOrder(x, y, c);
    assert x * c <= y * c;
    FloorMonotone(x * c, y * c);
  }

  /** Scaling by a positive factor keeps the order of two reals. */
  lemma ScaleOrder(x: real, y: real, c: real)
    requires c > 0.0
    ensures x <= y ==> x * c <= y * c
    ensures x < y ==> x * c < y * c
  {
    assert y * c - x * c == (y - x) * c;
  }

  lemma QuotientTimesDivisor(a: real, c: real)
    requires c > 0.0
    ensures (a / c) * c == a
  {
  }

  lemma FloorMonotone(a: real, b: real)
    requires a <= b
    ensures a.Floor <= b.Floor
  {
  }

  /** Every recorded value has a place in the sorted values. */
  lemma RecordedValueIsSorted(rows: seq<LatencyRow>, name: string, i: nat) returns (j: nat)
    requires i < |rows| && name in rows[i]
    ensures j < |ValuesOf(rows, name)| && SortAscending(ValuesOf(rows, name))[j] == rows[i][name]
  {
    var vs := ValuesOf(rows, name);
    var v := rows[i][name];
    assert v in vs;
    assert v in multiset(vs);
    assert v in multiset(SortAscending(vs));
    j :| 0 <= j < |vs| && SortAscending(vs)[j] == v;
  }

  /** The first of the sorted values is at most every recorded value. */
  lemma SortedFirstIsMinimum(rows: seq<LatencyRow>, name: string, i: nat)
    requires i < |rows| && name in rows[i]
    ensures 0 < |ValuesOf(rows, name)| && SortAscending(ValuesOf(rows, name))[0] <= rows[i][name]
  {
    var j := RecordedValueIsSorted(rows, name, i);
    SortedEnds(SortAscending(ValuesOf(rows, name)), j);
  }

  /** The last of the sorted values is at least every recorded value. */
  lemma SortedLastIsMaximum(rows: seq<LatencyRow>, name: string, i: nat)
    requires i < |rows| && name in rows[i]
    ensures 0 < |ValuesOf(rows, name)|
    ensures rows[i][name] <= SortAscending(ValuesOf(rows, name))[|ValuesOf(rows, name)| - 1]
  {
    var j := RecordedValueIsSorted(rows, name, i);
    SortedEnds(SortAscending(ValuesOf(rows, name)), j);
  }

  /** In a sorted sequence the first element is the least and the last the greatest. */
  lemma SortedEnds(s: seq<nat>, j: nat)
    requires Sorted(s) && j < |s|
    ensures s[0] <= s[j] <= s[|s| - 1]
  {
  }

  /** The percentile is the sorted value at its nearest-rank index. */
  lemma PercentileAt(rows: seq<LatencyRow>, name: string, p: real, k: nat)
    requires Percentile(rows, name, p).Some?
    requires NearestRankIndex(p, |ValuesOf(rows, name)|) == k
    ensures k < |ValuesOf(rows, name)|
    ensures Percentile(rows, name, p).value == SortAscending(ValuesOf(rows, name))[k]
  {
  }

  /** p = 0 (or below) gives the minimum recorded value. */
  lemma PercentileZeroIsMinimum(rows: seq<LatencyRow>, name: string, p: real)
    requires p <= 0.0
    requires Percentile(rows, name, p).Some?
    ensures forall i :: 0 <= i < |rows| && name in rows[i] ==> Percentile(rows, name, p).value <= rows[i][name]
  {
    var vs := ValuesOf(rows, name);
    NearestRankIndexLow(p, |vs|);
    PercentileAt(rows, name, p, 0);
    forall i | 0 <= i < |rows| && name in rows[i]
      ensures SortAscending(vs)[0] <= rows[i][name]
    {
      SortedFirstIsMinimum(rows, name, i);
    }
  }

  /** p = 100 (or above) gives the maximum recorded value. */
  lemma PercentileHundredIsMaximum(rows: seq<LatencyRow>, name: string, p: real)
    requires p >= 100.0
    requires Percentile(rows, name, p).Some?
    ensures forall i :: 0 <= i < |rows| && name in rows[i] ==> rows[i][name] <= Percentile(rows, name, p).value
  {
    NearestRankIndexHigh(p, |ValuesOf(rows, name)|);
    PercentileAtLastIsMaximum(rows, name, p);
  }

  /** A percentile whose rank is the last index is at least every recorded value. */
  lemma PercentileAtLastIsMaximum(rows: seq<LatencyRow>, name: string, p: real)
    requires Percentile(rows, name, p).Some?
    requires NearestRankIndex(p, |ValuesOf(rows, name)|) == |ValuesOf(rows, name)| - 1
    ensures forall i :: 0 <= i < |rows| && name in rows[i] ==> rows[i][name] <= Percentile(rows, name, p).value
  {
    var n := |ValuesOf(rows, name)|;
    PercentileAt(rows, name, p, n - 1);
    var top := Percentile(rows, name, p).value;
    forall i | 0 <= i < |rows| && name in rows[i]
      ensures rows[i][name] <= top
    {
      SortedLastIsMaximum(rows, name, i);
    }
  }

  /** A higher percentile never selects a smaller value. */
  lemma PercentileMonotone(rows: seq<LatencyRow>, name: string, p: real, q: real)
    requires p <= q
    requires Percentile(rows, name, p).Some?
    ensures Percentile(rows, name, q).Some?
    ensures Percentile(rows, name, p).value <= Percentile(rows, name, q).value
  {
    NearestRankIndexMonotone(p, q, |ValuesOf(rows, name)|);
    PercentileFollowsRank(rows, name, p, q);
  }

  /** Percentiles are ordered like their nearest-rank indices. */
  lemma PercentileFollowsRank(rows: seq<LatencyRow>, name: string, p: real, q: real)
    requires Percentile(rows, name, p).Some?
    requires NearestRankIndex(p, |ValuesOf(rows, name)|) <= NearestRankIndex(q, |ValuesOf(rows, name)|)
    ensures Percentile(rows, name, q).Some?
    ensures Percentile(rows, name, p).value <= Percentile(rows, name, q).value
  {
    var vs := ValuesOf(rows, name);
    var sorted := SortAscending(vs);
    var i, j := NearestRankIndex(p, |vs|), NearestRankIndex(q, |vs|);
    PercentileAt(rows, name, p, i);
    PercentileAt(rows, name, q, j);
    assert sorted[i] <= sorted[j];
  }

  function Sum(s: seq<nat>): nat
  {
    if s == [] then 0 else Sum(s[..|s| - 1]) + s[|s| - 1]
  }

  /** AggregateMetrics::mean, over the reals (no floating-point rounding). */
  function Mean(rows: seq<LatencyRow>, name: string): (r: Option<real>)
    ensures r.None? <==> forall i :: 0 <= i < |rows| ==> name !in rows[i]
  {
    var vs := ValuesOf(rows, name);
    if vs == [] then None else Some(Sum(vs) as real / |vs| as real)
  }

  lemma {:induction false} SumBounds(s: seq<nat>, lo: nat, hi: nat)
    requires forall v :: v in s ==> lo <= v <= hi
    ensures |s| * lo <= Sum(s) <= |s| * hi
  {
    if s != [] {
      var init, last := s[..|s| - 1], s[|s| - 1];
      assert forall v :: v in init ==> v in s;
      SumBounds(init, lo, hi);
      assert last in s;
      assert Sum(s) == Sum(init) + last;
      var n := |init|;
      assert |s| == n + 1;
      SuccessorTimes(n, lo);
      SuccessorTimes(n, hi);
    }
  }

  lemma SuccessorTimes(n: nat, k: nat)
    ensures (n + 1) * k == n * k + k
  {
  }

  lemma ValuesWithinBounds(rows: seq<LatencyRow>, name: string, lo: nat, hi: nat)
    requires forall i :: 0 <= i < |rows| && name in rows[i] ==> lo <= rows[i][name] <= hi
    ensures forall v :: v in ValuesOf(rows, name) ==> lo <= v <= hi
  {
  }

  /** Division by the count keeps the bounds that the total has in count units. */
  lemma AverageWithinBounds(total: nat, n: nat, lo: nat, hi: nat)
    requires n > 0 && n * lo <= total <= n * hi
    ensures lo as real <= total as real / n as real <= hi as real
  {
    var c, t, l, h := n as real, total as real, lo as real, hi as real;
    RealOfProduct(n, lo);
    RealOfProduct(n, hi);
    assert c * l <= t <= c * h;
    var avg := t / c;
    QuotientTimesDivisor(t, c);
    ScaleOrder(avg, l, c);
    ScaleOrder(h, avg, c);
    assert l * c == c * l && h * c == c * h;
  }

  lemma {:induction false} RealOfProduct(a: nat, b: nat)
    ensures (a * b) as real == a as real * b as real
  {
    if a > 0 {
      RealOfProduct(a - 1, b);
      assert a * b == (a - 1) * b + b;
    }
  }

  /** The mean lies between any lower and upper bound of the recorded values. */
  lemma MeanWithinBounds(rows: seq<LatencyRow>, name: string, lo: nat, hi: nat)
    requires Mean(rows, name).Some?
    requires forall i :: 0 <= i < |rows| && name in rows[i] ==> lo <= rows[i][name] <= hi
    ensures lo as real <= Mean(rows, name).value <= hi as real
  {
    var vs := ValuesOf(rows, name);
    var n, total := |vs|, Sum(vs);
    assert n > 0;
    ValuesWithinBounds(rows, name, lo, hi);
    SumBounds(vs, lo, hi);
    AverageWithinBounds(total, n, lo, hi);
    assert Mean(rows, name).value == total as real / n as real;
  }
}
