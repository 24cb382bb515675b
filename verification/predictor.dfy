/**
 * The server's per-clinic wait-time predictor (`WaitTimePredictor` in
 * server.py). For every clinic it keeps running totals and counts of the
 * reported waits, overall and per hour of day, per weekday and per reported
 * condition; a prediction walks a fixed fallback chain over those buckets.
 *
 * The tables are values (maps of records); the predictor object owns them
 * and `Update` replaces them, which is what the source's in-place
 * `setdefault` / `+=` on its private nested dictionaries amounts to.
 */
module Predictor {
  import opened Common

  /** One `{"total": ..., "count": ...}` bucket. */
  datatype Entry = Entry(total: real, count: int)

  const NoSamples := Entry(0.0, 0)

  /** The four bucket kinds kept for one clinic (`_init_clinic_stats`). */
  datatype ClinicStats = ClinicStats(
    overall: Entry,
    hourly: map<string, Entry>,
    weekday: map<string, Entry>,
    condition: map<string, Entry>)

  const FreshStats := ClinicStats(NoSamples, map[], map[], map[])

  /** `clinic_stats`: clinic id to its buckets. */
  type StatsTable = map<string, ClinicStats>

  /** The three tuning parameters of a predictor. */
  datatype Settings = Settings(minHourlySamples: int, minWeekdaySamples: int, defaultWait: real)

  const DefaultSettings := Settings(1, 1, 30.0)

  // ---------------------------------------------------------------------
  // Buckets

  function Lookup(bucket: map<string, Entry>, key: string): Option<Entry> {
    if key in bucket then Some(bucket[key]) else None
  }

  /** `_avg_entry`: no average for a missing bucket or one without a
      positive count; otherwise the mean, i.e. the value that, counted
      `count` times, gives the total. */
  function Average(entry: Option<Entry>): (r: Option<real>)
    ensures r.Some? <==> entry.Some? && entry.value.count > 0
    ensures r.Some? ==> r.value * entry.value.count as real == entry.value.total
  {
    if entry.None? then None
    else if entry.value.count <= 0 then None
    else Some(entry.value.total / entry.value.count as real)
  }

  /** One more sample of `w` in a bucket. */
  function AddSample(e: Entry, w: real): Entry {
    Entry(e.total + w, e.count + 1)
  }

  /** `_update_entry`: the bucket under `key` (created empty if absent)
      gains one sample of `w`; every other bucket is left as it was. */
  function WithSample(bucket: map<string, Entry>, key: string, w: real): (r: map<string, Entry>)
    ensures r.Keys == bucket.Keys + {key}
    ensures r[key].count == (if key in bucket then bucket[key].count else 0) + 1
    ensures r[key].total == (if key in bucket then bucket[key].total else 0.0) + w
    ensures forall k :: k in bucket && k != key ==> r[k] == bucket[k]
  {
    var e := if key in bucket then bucket[key] else NoSamples;
    bucket[key := AddSample(e, w)]
  }

  /** `str(hour % 24)`; Python's `%` by a positive modulus agrees with Dafny's. */
  function HourKey(hour: int): string {
    NatToString(hour % 24)
  }

  /** `str(weekday % 7)`. */
  function WeekdayKey(weekday: int): string {
    NatToString(weekday % 7)
  }

  /** `(condition or "Unknown").strip()`: the default applies before
      stripping, so an all-blank condition gives the empty key. */
  function ConditionKey(condition: string): (r: string)
    ensures condition == "" ==> r == "Unknown"
  {
    if condition == "" then TrimOfTrimmed(IsPySpace, "Unknown"); PyStrip("Unknown")
    else PyStrip(condition)
  }

  /** A condition key is already stripped. */
  lemma ConditionKeyIsStripped(condition: string)
    ensures PyStrip(ConditionKey(condition)) == ConditionKey(condition)
  {
    TrimOfTrimmed(IsPySpace, ConditionKey(condition));
  }

  /** A condition made only of white space is truthy, so it is not
      replaced by `"Unknown"`, and stripping it leaves the empty key. */
  lemma BlankConditionKeyIsEmpty(condition: string)
    requires condition != ""
    requires forall i :: 0 <= i < |condition| ==> IsPySpace(condition[i])
    ensures ConditionKey(condition) == ""
  {
  }

  /** What `update` does to one clinic's buckets: the overall bucket gains
      the sample, and so do the hour, weekday and condition buckets it
      falls into (created empty first), each by `_update_entry`; every
      other bucket is left as it was. */
  function RecordSample(s: ClinicStats, hour: int, weekday: int, condition: string, w: real): (r: ClinicStats)
    ensures r.overall.count == s.overall.count + 1 && r.overall.total == s.overall.total + w
    ensures HourKey(hour) in r.hourly && WeekdayKey(weekday) in r.weekday && ConditionKey(condition) in r.condition
    ensures r.hourly == WithSample(s.hourly, HourKey(hour), w)
    ensures r.weekday == WithSample(s.weekday, WeekdayKey(weekday), w)
    ensures r.condition == WithSample(s.condition, ConditionKey(condition), w)
  {
    ClinicStats(
      AddSample(s.overall, w),
      WithSample(s.hourly, HourKey(hour), w),
      WithSample(s.weekday, WeekdayKey(weekday), w),
      WithSample(s.condition, ConditionKey(condition), w))
  }

  /** What `update` does to the whole table for a non-empty clinic id. */
  function Recorded(table: StatsTable, clinicId: string, hour: int, weekday: int, condition: string, w: real): (r: StatsTable)
    ensures r.Keys == table.Keys + {clinicId}
    ensures forall id :: id in table && id != clinicId ==> r[id] == table[id]
  {
    var s := if clinicId in table then table[clinicId] else FreshStats;
    table[clinicId := RecordSample(s, hour, weekday, condition, w)]
  }

  // ---------------------------------------------------------------------
  // Prediction

  /** `not clinic_id` is false: the id is neither None nor empty. */
  predicate Present(clinicId: Option<string>) {
    clinicId.Some? && clinicId.value != ""
  }

  predicate Known(table: StatsTable, clinicId: Option<string>) {
    Present(clinicId) && clinicId.value in table
  }

  function FallbackOf(settings: Settings, fallbackWait: Option<real>): real {
    if fallbackWait.Some? then fallbackWait.value else settings.defaultWait
  }

  /** The average of a bucket that holds at least `minSamples` samples. */
  function QualifiedAverage(entry: Option<Entry>, minSamples: int): Option<real> {
    if entry.Some? && entry.value.count >= minSamples then Average(entry) else None
  }

  /** The bucket under `key` exists, holds at least `minSamples` samples
      and has an average. */
  predicate Qualifies(bucket: map<string, Entry>, key: string, minSamples: int) {
    key in bucket && bucket[key].count >= minSamples && bucket[key].count > 0
  }

  /** `predict`: the fallback for an unknown clinic; otherwise the first
      qualifying average among the hour-of-day, weekday and condition
      buckets (the condition bucket needs two samples), then the overall
      average, then the fallback. */
  function PredictIn(
    settings: Settings, table: StatsTable, clinicId: Option<string>,
    hour: int, weekday: int, recentCondition: string, fallbackWait: Option<real>): (r: real)
    ensures !Known(table, clinicId) ==> r == FallbackOf(settings, fallbackWait)
    ensures Known(table, clinicId) ==>
      var s, hk, wk, ck := table[clinicId.value], HourKey(hour), WeekdayKey(weekday), ConditionKey(recentCondition);
      var byHour := Qualifies(s.hourly, hk, settings.minHourlySamples);
      var byWeekday := Qualifies(s.weekday, wk, settings.minWeekdaySamples);
      var byCondition := Qualifies(s.condition, ck, 2);
      (byHour ==> r == Average(Some(s.hourly[hk])).value)
      && (!byHour && byWeekday ==> r == Average(Some(s.weekday[wk])).value)
      && (!byHour && !byWeekday && byCondition ==> r == Average(Some(s.condition[ck])).value)
      && (!byHour && !byWeekday && !byCondition && s.overall.count > 0 ==> r == Average(Some(s.overall)).value)
      && (!byHour && !byWeekday && !byCondition && s.overall.count <= 0 ==> r == FallbackOf(settings, fallbackWait))
  {
    var fallback := FallbackOf(settings, fallbackWait);
    if !Present(clinicId) || clinicId.value !in table then fallback
    else
      var s := table[clinicId.value];
      var byHour := QualifiedAverage(Lookup(s.hourly, HourKey(hour)), settings.minHourlySamples);
      if byHour.Some? then byHour.value
      else
        var byWeekday := QualifiedAverage(Lookup(s.weekday, WeekdayKey(weekday)), settings.minWeekdaySamples);
        if byWeekday.Some? then byWeekday.value
        else
          var byCondition := QualifiedAverage(Lookup(s.condition, ConditionKey(recentCondition)), 2);
          if byCondition.Some? then byCondition.value
          else
            var overall := Average(Some(s.overall));
            if overall.Some? then overall.value else fallback
  }

  // ---------------------------------------------------------------------
  // Invariants of the tables and what they imply for predictions

  /** Every clinic in the table has at least one sample overall, which
      `update` guarantees for every clinic it creates. */
  predicate WellFormed(table: StatsTable) {
    forall id :: id in table ==> table[id].overall.count >= 1
  }

  /** All samples of a bucket lie in `[lo, hi]`, as far as its total and
      count can tell. */
  ghost predicate EntryBounded(e: Entry, lo: real, hi: real) {
    e.count as real * lo <= e.total <= e.count as real * hi
  }

  ghost predicate BucketsBounded(bucket: map<string, Entry>, lo: real, hi: real) {
    forall k :: k in bucket ==> EntryBounded(bucket[k], lo, hi)
  }

  ghost predicate StatsBounded(s: ClinicStats, lo: real, hi: real) {
    EntryBounded(s.overall, lo, hi)
    && BucketsBounded(s.hourly, lo, hi)
    && BucketsBounded(s.weekday, lo, hi)
    && BucketsBounded(s.condition, lo, hi)
  }

  lemma AverageInRange(e: Entry, lo: real, hi: real)
    requires EntryBounded(e, lo, hi) && e.count > 0
    ensures lo <= Average(Some(e)).value <= hi
  {
    var c := e.count as real;
    var a := Average(Some(e)).value;
    assert a * c == e.total;
  }

  lemma QualifiedAverageInRange(entry: Option<Entry>, minSamples: int, lo: real, hi: real)
    requires entry.Some? ==> EntryBounded(entry.value, lo, hi)
    requires QualifiedAverage(entry, minSamples).Some?
    ensures lo <= QualifiedAverage(entry, minSamples).value <= hi
  {
    AverageInRange(entry.value, lo, hi);
  }

  lemma AddSampleInRange(e: Entry, w: real, lo: real, hi: real)
    requires EntryBounded(e, lo, hi) && lo <= w <= hi
    ensures EntryBounded(AddSample(e, w), lo, hi)
  {
    var c := e.count as real;
    assert (e.count + 1) as real * lo == c * lo + lo;
    assert (e.count + 1) as real * hi == c * hi + hi;
  }

  lemma WithSampleInRange(bucket: map<string, Entry>, key: string, w: real, lo: real, hi: real)
    requires BucketsBounded(bucket, lo, hi) && lo <= w <= hi
    ensures BucketsBounded(WithSample(bucket, key, w), lo, hi)
  {
    var e := if key in bucket then bucket[key] else NoSamples;
    AddSampleInRange(e, w, lo, hi);
  }

  /** Recording a sample inside `[lo, hi]` keeps every bucket of the clinic
      inside `[lo, hi]`. */
  lemma {:induction false} RecordSampleInRange(s: ClinicStats, hour: int, weekday: int, condition: string, w: real, lo: real, hi: real)
    requires StatsBounded(s, lo, hi) && lo <= w <= hi
    ensures StatsBounded(RecordSample(s, hour, weekday, condition, w), lo, hi)
  {
    AddSampleInRange(s.overall, w, lo, hi);
    WithSampleInRange(s.hourly, HourKey(hour), w, lo, hi);
    WithSampleInRange(s.weekday, WeekdayKey(weekday), w, lo, hi);
    WithSampleInRange(s.condition, ConditionKey(condition), w, lo, hi);
  }

  lemma FreshStatsInRange(lo: real, hi: real)
    ensures StatsBounded(FreshStats, lo, hi)
  {
  }

  /** `update` keeps the table well formed. */
  lemma RecordedWellFormed(table: StatsTable, clinicId: string, hour: int, weekday: int, condition: string, w: real)
    requires WellFormed(table)
    ensures WellFormed(Recorded(table, clinicId, hour, weekday, condition, w))
  {
  }

  /** A prediction is the fallback or the mean of one of the clinic's
      buckets, so when the clinic's samples all lie in `[lo, hi]` (and the
      fallback does, for a clinic without statistics) so does the
      prediction. */
  lemma PredictionInRange(
    settings: Settings, table: StatsTable, clinicId: Option<string>,
    hour: int, weekday: int, recentCondition: string, fallbackWait: Option<real>, lo: real, hi: real)
    requires Known(table, clinicId) ==> StatsBounded(table[clinicId.value], lo, hi)
    requires lo <= FallbackOf(settings, fallbackWait) <= hi
    ensures lo <= PredictIn(settings, table, clinicId, hour, weekday, recentCondition, fallbackWait) <= hi
  {
    if Known(table, clinicId) {
      var s := table[clinicId.value];
      var hourEntry := Lookup(s.hourly, HourKey(hour));
      var weekdayEntry := Lookup(s.weekday, WeekdayKey(weekday));
      var conditionEntry := Lookup(s.condition, ConditionKey(recentCondition));
      if QualifiedAverage(hourEntry, settings.minHourlySamples).Some? {
        QualifiedAverageInRange(hourEntry, settings.minHourlySamples, lo, hi);
      } else if QualifiedAverage(weekdayEntry, settings.minWeekdaySamples).Some? {
        QualifiedAverageInRange(weekdayEntry, settings.minWeekdaySamples, lo, hi);
      } else if QualifiedAverage(conditionEntry, 2).Some? {
        QualifiedAverageInRange(conditionEntry, 2, lo, hi);
      } else if s.overall.count > 0 {
        AverageInRange(s.overall, lo, hi);
      }
    }
  }

  /** For a clinic with statistics in a well-formed table the fallback is
      never used: the overall bucket always answers. */
  lemma KnownClinicIgnoresFallback(
    settings: Settings, table: StatsTable, clinicId: Option<string>,
    hour: int, weekday: int, recentCondition: string, fallback1: Option<real>, fallback2: Option<real>)
    requires WellFormed(table) && Known(table, clinicId)
    ensures PredictIn(settings, table, clinicId, hour, weekday, recentCondition, fallback1)
         == PredictIn(settings, table, clinicId, hour, weekday, recentCondition, fallback2)
  {
  }

  /** A prediction for a well-formed known clinic lies within the range of
      the waits recorded for it, whatever fallback is offered. */
  lemma KnownPredictionInRange(
    settings: Settings, table: StatsTable, clinicId: Option<string>,
    hour: int, weekday: int, recentCondition: string, fallbackWait: Option<real>, lo: real, hi: real)
    requires WellFormed(table) && Known(table, clinicId)
    requires StatsBounded(table[clinicId.value], lo, hi) && lo <= hi
    ensures lo <= PredictIn(settings, table, clinicId, hour, weekday, recentCondition, fallbackWait) <= hi
  {
    KnownClinicIgnoresFallback(settings, table, clinicId, hour, weekday, recentCondition, fallbackWait, Some(lo));
    PredictionInRange(settings, table, clinicId, hour, weekday, recentCondition, Some(lo), lo, hi);
  }

  /** On a fresh predictor a single report of `w` for a clinic makes the
      prediction for that clinic `w`, at any hour, on any weekday, for any
      condition and whatever the fallback. */
  lemma SingleReportPredictsItsWait(
    settings: Settings, clinicId: string, hour: int, weekday: int, condition: string, w: real,
    askHour: int, askWeekday: int, askCondition: string, fallbackWait: Option<real>)
    requires clinicId != ""
    ensures PredictIn(settings, Recorded(map[], clinicId, hour, weekday, condition, w),
                      Some(clinicId), askHour, askWeekday, askCondition, fallbackWait) == w
  {
    var table := Recorded(map[], clinicId, hour, weekday, condition, w);
    FreshStatsInRange(w, w);
    RecordSampleInRange(FreshStats, hour, weekday, condition, w, w, w);
    assert table[clinicId] == RecordSample(FreshStats, hour, weekday, condition, w);
    RecordedWellFormed(map[], clinicId, hour, weekday, condition, w);
    KnownPredictionInRange(settings, table, Some(clinicId), askHour, askWeekday, askCondition, fallbackWait, w, w);
  }

  /** Reports for one clinic never change the predictions for another. */
  lemma RecordingIsPerClinic(
    settings: Settings, table: StatsTable, other: string, hour: int, weekday: int, condition: string, w: real,
    clinicId: Option<string>, askHour: int, askWeekday: int, askCondition: string, fallbackWait: Option<real>)
    requires clinicId != Some(other)
    ensures PredictIn(settings, Recorded(table, other, hour, weekday, condition, w), clinicId, askHour, askWeekday, askCondition, fallbackWait)
         == PredictIn(settings, table, clinicId, askHour, askWeekday, askCondition, fallbackWait)
  {
  }

  // ---------------------------------------------------------------------
  // Persistence format

  /** The `global_stats` dictionary as stored. */
  datatype SavedTotals = SavedTotals(total: Option<real>, count: Option<int>)

  /** The dictionary `to_dict` writes and `from_dict` reads; `None` stands
      for a missing key (or, for the two tables, a value that is not a
      dictionary). */
  datatype SavedModel = SavedModel(
    minHourlySamples: Option<int>,
    minWeekdaySamples: Option<int>,
    defaultWait: Option<real>,
    clinicStats: Option<StatsTable>,
    globalStats: Option<SavedTotals>)

  function OrElse<T>(o: Option<T>, default: T): T {
    if o.Some? then o.value else default
  }

  class WaitTimePredictor {
    var minHourlySamples: int
    var minWeekdaySamples: int
    var defaultWait: real
    var clinicStats: StatsTable
    var globalStats: Entry

    /** `WaitTimePredictor(min_hourly_samples, min_weekday_samples, default_wait)`;
        the source's defaults are `DefaultSettings`. */
    constructor (minHourlySamples: int, minWeekdaySamples: int, defaultWait: real)
      ensures CurrentSettings() == Settings(minHourlySamples, minWeekdaySamples, defaultWait)
      ensures clinicStats == map[] && globalStats == NoSamples
      ensures WellFormed(clinicStats)
    {
      this.minHourlySamples := minHourlySamples;
      this.minWeekdaySamples := minWeekdaySamples;
      this.defaultWait := defaultWait;
      clinicStats := map[];
      globalStats := NoSamples;
    }

    /** `from_dict`: every missing setting takes its default, a missing
        table is empty and missing totals are zero; `None` is `data or {}`
        with nothing in it. */
    constructor FromDict(data: Option<SavedModel>)
      ensures data.None? ==> CurrentSettings() == DefaultSettings && clinicStats == map[] && globalStats == NoSamples
      ensures data.Some? ==>
        && minHourlySamples == OrElse(data.value.minHourlySamples, DefaultSettings.minHourlySamples)
        && minWeekdaySamples == OrElse(data.value.minWeekdaySamples, DefaultSettings.minWeekdaySamples)
        && defaultWait == OrElse(data.value.defaultWait, DefaultSettings.defaultWait)
        && clinicStats == OrElse(data.value.clinicStats, map[])
        && globalStats == (if data.value.globalStats.Some?
                           then Entry(OrElse(data.value.globalStats.value.total, 0.0),
                                      OrElse(data.value.globalStats.value.count, 0))
                           else NoSamples)
    {
      var saved := OrElse(data, SavedModel(None, None, None, None, None));
      minHourlySamples := OrElse(saved.minHourlySamples, 1);
      minWeekdaySamples := OrElse(saved.minWeekdaySamples, 1);
      defaultWait := OrElse(saved.defaultWait, 30.0);
      clinicStats := OrElse(saved.clinicStats, map[]);
      if saved.globalStats.Some? {
        globalStats := Entry(OrElse(saved.globalStats.value.total, 0.0), OrElse(saved.globalStats.value.count, 0));
      } else {
        globalStats := NoSamples;
      }
    }

    function CurrentSettings(): Settings
      reads this
    {
      Settings(minHourlySamples, minWeekdaySamples, defaultWait)
    }

    /** `predict`, read-only on the predictor. */
    function Predict(clinicId: Option<string>, hour: int, weekday: int, recentCondition: string, fallbackWait: Option<real>): (r: real)
      reads this
      ensures !Known(clinicStats, clinicId) ==> r == FallbackOf(CurrentSettings(), fallbackWait)
      ensures WellFormed(clinicStats) && Known(clinicStats, clinicId) ==>
        r == PredictIn(CurrentSettings(), clinicStats, clinicId, hour, weekday, recentCondition, None)
    {
      if WellFormed(clinicStats) && Known(clinicStats, clinicId) then
        KnownClinicIgnoresFallback(CurrentSettings(), clinicStats, clinicId, hour, weekday, recentCondition, fallbackWait, None);
        PredictIn(CurrentSettings(), clinicStats, clinicId, hour, weekday, recentCondition, fallbackWait)
      else
        PredictIn(CurrentSettings(), clinicStats, clinicId, hour, weekday, recentCondition, fallbackWait)
    }

    /** `update`: the global totals always gain the sample; for a present
        clinic id the clinic's overall, hour, weekday and condition buckets
        each gain it too (being created first if absent), and nothing else
        changes. */
    method Update(clinicId: Option<string>, hour: int, weekday: int, condition: string, actualWait: real)
      modifies this
      ensures globalStats == Entry(old(globalStats.total) + actualWait, old(globalStats.count) + 1)
      ensures Present(clinicId) ==> clinicStats == Recorded(old(clinicStats), clinicId.value, hour, weekday, condition, actualWait)
      ensures !Present(clinicId) ==> clinicStats == old(clinicStats)
      ensures minHourlySamples == old(minHourlySamples) && minWeekdaySamples == old(minWeekdaySamples) && defaultWait == old(defaultWait)
      ensures WellFormed(old(clinicStats)) ==> WellFormed(clinicStats)
    {
      globalStats := Entry(globalStats.total + actualWait, globalStats.count + 1);
      if !Present(clinicId) {
        return;
      }
      var id := clinicId.value;
      // `setdefault` and the four bucket updates, as `Recorded` describes them
      if WellFormed(clinicStats) {
        RecordedWellFormed(clinicStats, id, hour, weekday, condition, actualWait);
      }
      clinicStats := Recorded(clinicStats, id, hour, weekday, condition, actualWait);
    }
  }
}
