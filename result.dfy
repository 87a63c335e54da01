/**
 * The performance record a backtest reports (absolute and relative realized P&L, volatility,
 * maximum drawdown and the periodic performance series), its two constructors and the merge of
 * two records into one.
 */
module Results {
  import opened Wrappers
  import Stats

  datatype Result = Result(
    absPerformance: real,
    relPerformance: real,
    volatility: real,
    maxDrawdown: real,
    performanceSeries: seq<real>)

  /** The no-argument constructor: every indicator 0 and an empty performance series. */
  function Blank(): Result {
    Result(0.0, 0.0, 0.0, 0.0, [])
  }

  /** The five-argument constructor as written: the absolute-performance argument is stored in
      the relative-performance field too, and the relative-performance argument is dropped. */
  function MakeAsWritten(abs: real, rel: real, vol: real, drawdown: real, series: seq<real>): Result {
    Result(abs, abs, vol, drawdown, series)
  }

  /** The five-argument constructor as intended: each getter returns its own argument. */
  function Make(abs: real, rel: real, vol: real, drawdown: real, series: seq<real>): (r: Result)
    ensures r.absPerformance == abs && r.relPerformance == rel
    ensures r.volatility == vol && r.maxDrawdown == drawdown && r.performanceSeries == series
  {
    Result(abs, rel, vol, drawdown, series)
  }

  /** Whenever the two performances differ, the constructor as written reports the wrong relative
      performance: `MakeAsWritten(50, 0.05, ...)` reads back 50, not 0.05. */
  lemma MakeAsWrittenLosesRel(abs: real, rel: real, vol: real, drawdown: real, series: seq<real>)
    requires rel != abs
    ensures MakeAsWritten(abs, rel, vol, drawdown, series).relPerformance != rel
    ensures MakeAsWritten(abs, rel, vol, drawdown, series) != Make(abs, rel, vol, drawdown, series)
    ensures MakeAsWritten(50.0, 0.05, 0.0, 0.0, []).relPerformance == 50.0
  {
  }

  /** Why a merge fails: the loop indexes past the end of a list, or the aggregate series is
      empty so its volatility is undefined. */
  datatype MergeError = IndexOutOfBounds | EmptySeries

  /** A merged record: the indicators of a `Result`, except that the relative performance is
      `None` where its division has no value (a base that cannot be recovered from a zero
      relative performance, or bases that cancel out). */
  datatype MergedResult = MergedResult(
    absPerformance: real,
    relPerformance: Option<real>,
    volatility: real,
    maxDrawdown: real,
    performanceSeries: seq<real>)

  /** `merge` as written: the loop reads from two freshly created, empty lists, so its first
      iteration (when `|first.series| >= 2`) indexes out of bounds; with no iteration the
      aggregate series is empty and computing its volatility raises. */
  function MergeAsWritten(first: Result, second: Result): Outcome<MergedResult, MergeError> {
    if 0 < |first.performanceSeries| - 1 then Err(IndexOutOfBounds) else Err(EmptySeries)
  }

  /** The number of entries the merge loop visits: `|first.series| - 1`, or none. */
  function AggregateLength(first: Result): nat {
    if |first.performanceSeries| == 0 then 0 else |first.performanceSeries| - 1
  }

  /** The element-wise sum of the two series over the first `AggregateLength(first)` entries. */
  function Aggregate(first: Result, second: Result): seq<real>
    requires |second.performanceSeries| >= AggregateLength(first)
  {
    seq(AggregateLength(first), i requires 0 <= i < AggregateLength(first) =>
      first.performanceSeries[i] + second.performanceSeries[i])
  }

  /** The merged relative performance: the summed absolute performance over the summed bases
      `abs / rel`, when both bases and their sum are non-zero numbers. */
  function PooledReturn(first: Result, second: Result): Option<real> {
    if first.relPerformance == 0.0 || second.relPerformance == 0.0 then None
    else
      var base := first.absPerformance / first.relPerformance + second.absPerformance / second.relPerformance;
      if base == 0.0 then None else Some((first.absPerformance + second.absPerformance) / base)
  }

  /** `merge` as intended: summed absolute performance, the pooled return, the larger drawdown,
      the element-wise summed series and its volatility. The loop fails when the second series
      is shorter than the aggregate, the volatility when the aggregate is empty. */
  function Merged(first: Result, second: Result, sqrt: real -> real): Outcome<MergedResult, MergeError> {
    if |second.performanceSeries| < AggregateLength(first) then Err(IndexOutOfBounds)
    else
      var agg := Aggregate(first, second);
      var vol := Stats.Volatility(agg, sqrt);
      if vol.Err? then Err(EmptySeries)
      else
        var drawdown := if first.maxDrawdown >= second.maxDrawdown then first.maxDrawdown else second.maxDrawdown;
        Ok(MergedResult(first.absPerformance + second.absPerformance, PooledReturn(first, second),
                        vol.value, drawdown, agg))
  }

  /** The merge loop: builds the aggregate series entry by entry, then fills a fresh record;
      neither argument is changed (they are values). */
  method Merge(first: Result, second: Result, sqrt: real -> real) returns (r: Outcome<MergedResult, MergeError>)
    ensures r == Merged(first, second, sqrt)
  {
    var n := AggregateLength(first);
    var agg: seq<real> := [];
    var i := 0;
    while i < n
      invariant 0 <= i <= n && i <= |second.performanceSeries|
      invariant |agg| == i
      invariant forall k | 0 <= k < i :: agg[k] == first.performanceSeries[k] + second.performanceSeries[k]
    {
      if i >= |second.performanceSeries| {
        return Err(IndexOutOfBounds);
      }
      agg := agg + [first.performanceSeries[i] + second.performanceSeries[i]];
      i := i + 1;
    }
    assert agg == Aggregate(first, second);
    var vol := Stats.CalculateVolatility(agg, sqrt);
    if vol.Err? {
      return Err(EmptySeries);
    }
    var abs := first.absPerformance + second.absPerformance;
    var rel: Option<real> := None;
    if first.relPerformance != 0.0 && second.relPerformance != 0.0 {
      var base := first.absPerformance / first.relPerformance + second.absPerformance / second.relPerformance;
      if base != 0.0 {
        rel := Some(abs / base);
      }
    }
    var drawdown := if first.maxDrawdown >= second.maxDrawdown then first.maxDrawdown else second.maxDrawdown;
    r := Ok(MergedResult(abs, rel, vol.value, drawdown, agg));
  }

  /** The merge as written never produces a record; the intended merge, given a second series
      long enough, fails exactly when the first series has fewer than two entries. */
  lemma MergeAsWrittenAlwaysFails(first: Result, second: Result, sqrt: real -> real)
    requires |second.performanceSeries| >= AggregateLength(first)
    ensures MergeAsWritten(first, second).Err?
    ensures Merged(first, second, sqrt).Ok? <==> |first.performanceSeries| >= 2
  {
  }

  /** A concrete pair the merge as written rejects although the intended merge is defined. */
  lemma MergeAsWrittenRejectsThreeSamples()
    ensures MergeAsWritten(Result(1.0, 0.5, 0.0, 0.0, [0.1, 0.2, 0.3]), Result(1.0, 0.5, 0.0, 0.0, [0.1, 0.2, 0.3]))
      == Err(IndexOutOfBounds)
    ensures Merged(Result(1.0, 0.5, 0.0, 0.0, [0.1, 0.2, 0.3]), Result(1.0, 0.5, 0.0, 0.0, [0.1, 0.2, 0.3]), x => x).Ok?
  {
    var r := Result(1.0, 0.5, 0.0, 0.0, [0.1, 0.2, 0.3]);
    assert Aggregate(r, r) == [0.2, 0.4];
  }

  /** When the merge fails: the second series is shorter than the aggregate, or the first
      series has fewer than two entries. What a successful merge contains: the sum of the
      absolute performances, the larger of the two drawdowns, `|first.series| - 1` entries each
      the sum of the two series at that index, and the population volatility of that aggregate;
      its relative performance is undefined exactly when a relative performance is zero or the
      two bases cancel out. */
  lemma MergedContents(first: Result, second: Result, sqrt: real -> real)
    ensures Merged(first, second, sqrt) == Err(IndexOutOfBounds)
      <==> |second.performanceSeries| < AggregateLength(first)
    ensures Merged(first, second, sqrt) == Err(EmptySeries)
      <==> |second.performanceSeries| >= AggregateLength(first) && |first.performanceSeries| < 2
    ensures Merged(first, second, sqrt).Ok? ==>
      var m := Merged(first, second, sqrt).value;
      && m.absPerformance == first.absPerformance + second.absPerformance
      && m.maxDrawdown >= first.maxDrawdown && m.maxDrawdown >= second.maxDrawdown
      && (m.maxDrawdown == first.maxDrawdown || m.maxDrawdown == second.maxDrawdown)
      && |m.performanceSeries| == |first.performanceSeries| - 1
      && (forall i | 0 <= i < |m.performanceSeries| ::
            m.performanceSeries[i] == first.performanceSeries[i] + second.performanceSeries[i])
      && m.performanceSeries != []
      && m.volatility == sqrt(Stats.Variance(m.performanceSeries))
      && (m.relPerformance.None? <==>
            first.relPerformance == 0.0 || second.relPerformance == 0.0
            || first.absPerformance / first.relPerformance + second.absPerformance / second.relPerformance == 0.0)
  {
  }

  /** The merged relative performance is the pooled return: when each relative performance is
      its absolute performance over a base (an initial budget), the merged one is the summed
      absolute performance over the summed bases. */
  lemma MergedPooledReturn(first: Result, second: Result, base1: real, base2: real, sqrt: real -> real)
    requires base1 > 0.0 && base2 > 0.0
    requires first.absPerformance != 0.0 && second.absPerformance != 0.0
    requires first.relPerformance == first.absPerformance / base1
    requires second.relPerformance == second.absPerformance / base2
    ensures PooledReturn(first, second) == Some((first.absPerformance + second.absPerformance) / (base1 + base2))
    ensures Merged(first, second, sqrt).Ok? ==>
      Merged(first, second, sqrt).value.relPerformance
        == Some((first.absPerformance + second.absPerformance) / (base1 + base2))
  {
    BaseRecovered(first.absPerformance, base1);
    BaseRecovered(second.absPerformance, base2);
  }

  /** An absolute performance over its relative performance gives back the base. */
  lemma BaseRecovered(abs: real, base: real)
    requires abs != 0.0 && base > 0.0
    ensures abs / base != 0.0
    ensures abs / (abs / base) == base
  {
    var rel := abs / base;
    assert rel * base == abs;
    assert rel != 0.0;
    assert (abs / rel) * rel == abs;
    assert base * rel == abs;
  }

  /** For series of equal length the merge does not depend on the order of its arguments. */
  lemma MergeSymmetric(first: Result, second: Result, sqrt: real -> real)
    requires |first.performanceSeries| == |second.performanceSeries|
    ensures Merged(first, second, sqrt) == Merged(second, first, sqrt)
  {
    if |first.performanceSeries| > 0 {
      assert Aggregate(first, second) == Aggregate(second, first);
    }
  }
}
