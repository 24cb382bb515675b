/**
 * The statistics panel: the counters `computeMetrics` gathers from the
 * check-ins and clinics, the progress percentages derived from them, and
 * the renderings of a wait and of a time stamp relative to now.
 *
 * Times are milliseconds since the epoch and are parameters. A check-in is
 * reduced to what the loop reads of it: its wait as `parseFloat` reads it
 * (`None` for anything that is not a finite number) and its creation time
 * (`None` when missing or not a valid date).
 */
module Metrics {
  import opened Common

  const Day: int := 24 * 60 * 60 * 1000

  datatype CheckinSample = CheckinSample(waitTime: Option<real>, createdAt: Option<int>)

  datatype Stats = Stats(
    totalCheckins: nat,
    totalClinics: nat,
    sumWaitTime: real,
    waitTimeCount: nat,
    last24h: nat,
    last7d: nat,
    latestCheckinDate: Option<int>,
    avgWaitTime: Option<real>)

  // ---------------------------------------------------------------------
  // What the loops accumulate

  /** A finite, positive wait. */
  predicate IsPositive(w: Option<real>) {
    w.Some? && w.value > 0.0
  }

  function PositiveSum(ws: seq<Option<real>>): real {
    if ws == [] then 0.0
    else PositiveSum(ws[..|ws| - 1]) + (if IsPositive(ws[|ws| - 1]) then ws[|ws| - 1].value else 0.0)
  }

  function PositiveCount(ws: seq<Option<real>>): (r: nat)
    ensures r <= |ws|
  {
    if ws == [] then 0
    else PositiveCount(ws[..|ws| - 1]) + (if IsPositive(ws[|ws| - 1]) then 1 else 0)
  }

  function WaitsOf(cs: seq<CheckinSample>): (r: seq<Option<real>>)
    ensures |r| == |cs|
    ensures forall i :: 0 <= i < |cs| ==> r[i] == cs[i].waitTime
  {
    seq(|cs|, i requires 0 <= i < |cs| => cs[i].waitTime)
  }

  /** The check-in has a valid creation time at most `window` ms ago. */
  predicate IsWithin(c: CheckinSample, now: int, window: int) {
    c.createdAt.Some? && now - c.createdAt.value <= window
  }

  function WithinCount(cs: seq<CheckinSample>, now: int, window: int): (r: nat)
    ensures r <= |cs|
  {
    if cs == [] then 0
    else WithinCount(cs[..|cs| - 1], now, window) + (if IsWithin(cs[|cs| - 1], now, window) then 1 else 0)
  }

  /** The latest valid creation time. */
  function Latest(cs: seq<CheckinSample>): (r: Option<int>)
    ensures r.Some? ==> exists i :: 0 <= i < |cs| && cs[i].createdAt == r
    ensures r.Some? ==> forall i :: 0 <= i < |cs| && cs[i].createdAt.Some? ==> cs[i].createdAt.value <= r.value
    ensures r.None? ==> forall i :: 0 <= i < |cs| ==> cs[i].createdAt.None?
  {
    if cs == [] then None
    else
      var prev := Latest(cs[..|cs| - 1]);
      var t := cs[|cs| - 1].createdAt;
      if t.Some? && (prev.None? || t.value > prev.value) then t else prev
  }

  /** The mean of the clinics' positive averages when there is one, else
      the mean of the check-ins' positive waits, else nothing. */
  function AverageWait(cs: seq<CheckinSample>, clinicAverages: seq<Option<real>>): Option<real> {
    if PositiveCount(clinicAverages) > 0 then Some(PositiveSum(clinicAverages) / PositiveCount(clinicAverages) as real)
    else if PositiveCount(WaitsOf(cs)) > 0 then Some(PositiveSum(WaitsOf(cs)) / PositiveCount(WaitsOf(cs)) as real)
    else None
  }

  function MetricsOf(cs: seq<CheckinSample>, clinicAverages: seq<Option<real>>, now: int): Stats {
    Stats(
      |cs|, |clinicAverages|,
      PositiveSum(WaitsOf(cs)), PositiveCount(WaitsOf(cs)),
      WithinCount(cs, now, Day), WithinCount(cs, now, 7 * Day),
      Latest(cs),
      AverageWait(cs, clinicAverages))
  }

  // ---------------------------------------------------------------------
  // The loops

  lemma PositiveStep(ws: seq<Option<real>>, j: nat)
    requires j < |ws|
    ensures PositiveSum(ws[..j + 1]) == PositiveSum(ws[..j]) + (if IsPositive(ws[j]) then ws[j].value else 0.0)
    ensures PositiveCount(ws[..j + 1]) == PositiveCount(ws[..j]) + (if IsPositive(ws[j]) then 1 else 0)
  {
    assert ws[..j + 1][..j] == ws[..j];
  }

  /** What one more check-in adds to each counter. */
  lemma CheckinStep(cs: seq<CheckinSample>, i: nat, now: int)
    requires i < |cs|
    ensures var w := cs[i].waitTime;
      && PositiveSum(WaitsOf(cs[..i + 1])) == PositiveSum(WaitsOf(cs[..i])) + (if IsPositive(w) then w.value else 0.0)
      && PositiveCount(WaitsOf(cs[..i + 1])) == PositiveCount(WaitsOf(cs[..i])) + (if IsPositive(w) then 1 else 0)
    ensures WithinCount(cs[..i + 1], now, Day) == WithinCount(cs[..i], now, Day) + (if IsWithin(cs[i], now, Day) then 1 else 0)
    ensures WithinCount(cs[..i + 1], now, 7 * Day) == WithinCount(cs[..i], now, 7 * Day) + (if IsWithin(cs[i], now, 7 * Day) then 1 else 0)
    ensures var t, prev := cs[i].createdAt, Latest(cs[..i]);
      Latest(cs[..i + 1]) == if t.Some? && (prev.None? || t.value > prev.value) then t else prev
  {
    assert cs[..i + 1][..i] == cs[..i];
    assert WaitsOf(cs[..i + 1]) == WaitsOf(cs)[..i + 1];
    assert WaitsOf(cs[..i]) == WaitsOf(cs)[..i];
    PositiveStep(WaitsOf(cs), i);
  }

  /** `computeMetrics`: one pass over the check-ins, one over the clinics'
      `average_wait_time`s. */
  method ComputeMetrics(cs: seq<CheckinSample>, clinicAverages: seq<Option<real>>, now: int) returns (stats: Stats)
    ensures stats == MetricsOf(cs, clinicAverages, now)
  {
    var sum, count, last24h, last7d := 0.0, 0, 0, 0;
    var latest: Option<int> := None;
    for i := 0 to |cs|
      invariant sum == PositiveSum(WaitsOf(cs[..i])) && count == PositiveCount(WaitsOf(cs[..i]))
      invariant last24h == WithinCount(cs[..i], now, Day) && last7d == WithinCount(cs[..i], now, 7 * Day)
      invariant latest == Latest(cs[..i])
    {
      CheckinStep(cs, i, now);
      var c := cs[i];
      if c.waitTime.Some? && c.waitTime.value > 0.0 {
        sum := sum + c.waitTime.value;
        count := count + 1;
      }
      if c.createdAt.Some? {
        var t := c.createdAt.value;
        if latest.None? || t > latest.value {
          latest := Some(t);
        }
        var diff := now - t;
        if diff <= Day {
          last24h := last24h + 1;
        }
        if diff <= 7 * Day {
          last7d := last7d + 1;
        }
      }
    }
    assert cs[..|cs|] == cs;
    var avg: Option<real> := if count > 0 then Some(sum / count as real) else None;
    var clinicSum, clinicCount := 0.0, 0;
    for j := 0 to |clinicAverages|
      invariant clinicSum == PositiveSum(clinicAverages[..j]) && clinicCount == PositiveCount(clinicAverages[..j])
    {
      PositiveStep(clinicAverages, j);
      var a := clinicAverages[j];
      if a.Some? && a.value > 0.0 {
        clinicSum := clinicSum + a.value;
        clinicCount := clinicCount + 1;
      }
    }
    assert clinicAverages[..|clinicAverages|] == clinicAverages;
    if clinicCount > 0 {
      avg := Some(clinicSum / clinicCount as real);
    }
    stats := Stats(|cs|, |clinicAverages|, sum, count, last24h, last7d, latest, avg);
  }

  // ---------------------------------------------------------------------
  // Properties of the counters

  lemma {:induction false} WithinCountMonotone(cs: seq<CheckinSample>, now: int, w1: int, w2: int)
    requires w1 <= w2
    ensures WithinCount(cs, now, w1) <= WithinCount(cs, now, w2)
  {
    if cs != [] {
      WithinCountMonotone(cs[..|cs| - 1], now, w1, w2);
    }
  }

  /** Counted waits never outnumber the check-ins, and the reports of the
      last day are among those of the last week. */
  lemma CountersAreOrdered(cs: seq<CheckinSample>, clinicAverages: seq<Option<real>>, now: int)
    ensures MetricsOf(cs, clinicAverages, now).waitTimeCount <= MetricsOf(cs, clinicAverages, now).totalCheckins
    ensures MetricsOf(cs, clinicAverages, now).last24h <= MetricsOf(cs, clinicAverages, now).last7d
    ensures MetricsOf(cs, clinicAverages, now).last7d <= MetricsOf(cs, clinicAverages, now).totalCheckins
  {
    WithinCountMonotone(cs, now, Day, 7 * Day);
  }

  /** The sum of the counted waits lies between `count` times the least
      and `count` times the greatest bound of them. */
  lemma {:induction false} PositiveSumBounds(ws: seq<Option<real>>, hi: real)
    requires forall i :: 0 <= i < |ws| && IsPositive(ws[i]) ==> ws[i].value <= hi
    ensures 0.0 <= PositiveSum(ws) <= hi * PositiveCount(ws) as real
    ensures PositiveCount(ws) > 0 ==> PositiveSum(ws) > 0.0
  {
    if ws != [] {
      PositiveSumBounds(ws[..|ws| - 1], hi);
    }
  }

  /** The average wait, when there is one, is positive and no larger than
      any bound of the waits it averages. */
  lemma AverageWaitBounds(cs: seq<CheckinSample>, clinicAverages: seq<Option<real>>, hi: real)
    requires forall i :: 0 <= i < |cs| && IsPositive(cs[i].waitTime) ==> cs[i].waitTime.value <= hi
    requires forall i :: 0 <= i < |clinicAverages| && IsPositive(clinicAverages[i]) ==> clinicAverages[i].value <= hi
    ensures AverageWait(cs, clinicAverages).Some? ==> 0.0 < AverageWait(cs, clinicAverages).value <= hi
  {
    if PositiveCount(clinicAverages) > 0 {
      PositiveSumBounds(clinicAverages, hi);
      MeanAtMost(PositiveSum(clinicAverages), PositiveCount(clinicAverages) as real, hi);
    } else {
      var ws := WaitsOf(cs);
      if PositiveCount(ws) > 0 {
        PositiveSumBounds(ws, hi);
        MeanAtMost(PositiveSum(ws), PositiveCount(ws) as real, hi);
      }
    }
  }

  lemma MeanAtMost(s: real, n: real, hi: real)
    requires n > 0.0 && 0.0 < s <= hi * n
    ensures 0.0 < s / n <= hi
  {
    var q := s / n;
    assert q * n == s;
  }

  // ---------------------------------------------------------------------
  // Progress bars

  /** `clamp(value, min, max)`: `Math.min(Math.max(value, min), max)`. */
  function Clamp(v: real, lo: real, hi: real): (r: real)
    ensures lo <= hi ==> lo <= r <= hi
    ensures lo <= v <= hi ==> r == v
  {
    var atLeast := if v > lo then v else lo;
    if atLeast < hi then atLeast else hi
  }

  /** The average-wait bar: the average as a share of two hours, in
      percent; empty without an average. */
  function AvgWaitProgress(avgWait: Option<real>): (r: real)
    ensures 0.0 <= r <= 100.0
  {
    if avgWait.Some? then Clamp(avgWait.value / 120.0, 0.0, 1.0) * 100.0 else 0.0
  }

  /** The freshness bar: the share of reports from the last day, in
      percent; empty without reports. */
  function FreshRatio(totalCheckins: nat, last24h: nat): (r: real)
    ensures 0.0 <= r <= 100.0
  {
    if totalCheckins > 0 then Clamp(last24h as real / totalCheckins as real, 0.0, 1.0) * 100.0 else 0.0
  }

  /** When no more reports are fresh than there are reports, the clamp
      never bites: the bar is the exact percentage. */
  lemma FreshRatioUnclamped(totalCheckins: nat, last24h: nat)
    requires 0 < totalCheckins && last24h <= totalCheckins
    ensures FreshRatio(totalCheckins, last24h) == last24h as real / totalCheckins as real * 100.0
  {
    var q := last24h as real / totalCheckins as real;
    assert q * totalCheckins as real == last24h as real;
  }

  /** For the counters `computeMetrics` produces, the freshness bar is
      exactly the percentage of last-day reports. */
  lemma FreshRatioIsExact(cs: seq<CheckinSample>, clinicAverages: seq<Option<real>>, now: int)
    requires cs != []
    ensures var s := MetricsOf(cs, clinicAverages, now);
      FreshRatio(s.totalCheckins, s.last24h) == s.last24h as real / |cs| as real * 100.0
  {
    CountersAreOrdered(cs, clinicAverages, now);
    FreshRatioUnclamped(|cs|, WithinCount(cs, now, Day));
  }

  // ---------------------------------------------------------------------
  // Renderings

  /** `Math.round`: the nearest integer, halves rounded up. */
  function MathRound(x: real): (r: int)
    ensures r as real - 0.5 <= x < r as real + 0.5
  {
    (x + 0.5).Floor
  }

  /** `formatWaitTime` as written: `Number(null)` is 0, which is finite,
      so a missing average renders as a wait of zero minutes. */
  function FormatWaitTimeAsWritten(value: Option<real>): (r: string)
    ensures |r| >= 5 && r[|r| - 4..] == " min"
    ensures value.None? ==> r == "0 min"
  {
    var n := if value.Some? then value.value else 0.0;
    assert MathRound(0.0) == 0 && IntToString(0) == "0";
    IntToString(MathRound(n)) + " min"
  }

  lemma AsWrittenShowsMissingAsZero()
    ensures FormatWaitTimeAsWritten(None) == "0 min"
    ensures FormatWaitTimeAsWritten(None) == FormatWaitTimeAsWritten(Some(0.0))
  {
    assert MathRound(0.0) == 0;
    assert IntToString(0) == "0";
  }

  /** `formatWaitTime`: a dash without a value, otherwise the rounded
      minutes. */
  function FormatWaitTime(value: Option<real>): (r: string)
    ensures value.None? ==> r == "—"
    ensures value.Some? ==> r == IntToString(MathRound(value.value)) + " min"
  {
    if value.None? then "—" else IntToString(MathRound(value.value)) + " min"
  }

  /** A missing wait and a wait of zero minutes read differently. */
  lemma FormatWaitTimeTellsMissingFromZero()
    ensures FormatWaitTime(None) != FormatWaitTime(Some(0.0))
  {
    assert FormatWaitTime(None)[0] == '—';
    assert FormatWaitTime(Some(0.0))[0] == IntToString(MathRound(0.0))[0];
  }

  /** The statistics panel's average wait: with the corrected rendering it
      reads as a dash exactly when neither the clinics nor the check-ins
      carry a positive wait. */
  lemma AvgWaitShowsDashOnlyWithoutWaits(cs: seq<CheckinSample>, clinicAverages: seq<Option<real>>, now: int)
    ensures FormatWaitTime(MetricsOf(cs, clinicAverages, now).avgWaitTime) == "—"
        <==> PositiveCount(clinicAverages) == 0 && PositiveCount(WaitsOf(cs)) == 0
  {
    var avg := MetricsOf(cs, clinicAverages, now).avgWaitTime;
    if avg.Some? {
      assert |FormatWaitTime(avg)| == |IntToString(MathRound(avg.value))| + 4;
    }
  }

  /** What `formatRelative` displays: a dash without a date, an amount of
      one unit (`s`, `m`, `h`, `d`) ago, or the date itself. */
  datatype Relative = Dash | Ago(amount: nat, unit: char) | OnDate(time: int)

  function RelativeText(r: Relative): string
    requires !r.OnDate?
  {
    match r
    case Dash => "—"
    case Ago(n, u) => NatToString(n) + [u] + " ago"
  }

  /** `formatRelative`, following the source's chain of thresholds on the
      whole seconds elapsed, a negative difference counting as 0. */
  function FormatRelative(date: Option<int>, now: int): (r: Relative)
    ensures r == Dash <==> date.None?
    ensures r.OnDate? <==> date.Some? && now - date.value >= 7 * 86400000
    ensures r.OnDate? ==> r.time == date.value
  {
    if date.None? then Dash
    else
      var seconds := (now - date.value) / 1000;
      var safeSeconds := if seconds > 0 then seconds else 0;
      var minutes := safeSeconds / 60;
      var hours := safeSeconds / 3600;
      var days := safeSeconds / 86400;
      if safeSeconds < 60 then Ago(safeSeconds, 's')
      else if minutes < 60 then Ago(minutes, 'm')
      else if hours < 24 then Ago(hours, 'h')
      else if days < 7 then Ago(days, 'd')
      else OnDate(date.value)
  }

  /** Whole seconds, then whole minutes (hours, days) of them, are whole
      minutes (hours, days) of the milliseconds. */
  lemma SecondsToUnits(d: int)
    requires d >= 0
    ensures d / 1000 / 60 == d / 60000
    ensures d / 1000 / 3600 == d / 3600000
    ensures d / 1000 / 86400 == d / 86400000
  {
  }

  /** The relative time measured on the elapsed milliseconds `d`: under a
      minute in seconds (a time in the future reads `0s ago`), under an
      hour in whole minutes, under a day in whole hours, under a week in
      whole days, the date beyond. */
  lemma FormatRelativeBands(t: int, now: int)
    ensures var d := now - t;
      && (d < 60000 ==> FormatRelative(Some(t), now) == Ago(if d > 0 then d / 1000 else 0, 's'))
      && (60000 <= d < 3600000 ==> FormatRelative(Some(t), now) == Ago(d / 60000, 'm'))
      && (3600000 <= d < 86400000 ==> FormatRelative(Some(t), now) == Ago(d / 3600000, 'h'))
      && (86400000 <= d < 7 * 86400000 ==> FormatRelative(Some(t), now) == Ago(d / 86400000, 'd'))
      && (7 * 86400000 <= d ==> FormatRelative(Some(t), now) == OnDate(t))
  {
    var d := now - t;
    if d >= 1000 {
      SecondsToUnits(d);
    }
  }
}
