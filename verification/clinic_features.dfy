/**
 * What the server derives from the aggregated clinics for the map and the
 * nearby list: the pin colour of every located clinic
 * (`_checkins_to_geojson`) and the filter, sort and limit of
 * `nearby_clinics`, both with the predictor's estimate of the wait.
 *
 * The current hour and weekday are parameters, and so is the distance from
 * the user to a clinic's coordinates.
 */
module ClinicFeatures {
  import opened Common
  import opened ClinicKeys
  import opened Aggregation
  import opened Predictor

  // ---------------------------------------------------------------------
  // Colour bands

  datatype Colour = Green | Yellow | Orange | Red

  /** The pin colour for a reference wait in minutes: below 15 green, below
      30 yellow, below 60 orange, red from 60 on. */
  function ColourFor(referenceWait: real): (r: Colour)
    ensures r == Green <==> referenceWait < 15.0
    ensures r == Yellow <==> 15.0 <= referenceWait < 30.0
    ensures r == Orange <==> 30.0 <= referenceWait < 60.0
    ensures r == Red <==> 60.0 <= referenceWait
  {
    if referenceWait < 15.0 then Green
    else if referenceWait < 30.0 then Yellow
    else if referenceWait < 60.0 then Orange
    else Red
  }

  function Severity(c: Colour): nat {
    match c
    case Green => 0
    case Yellow => 1
    case Orange => 2
    case Red => 3
  }

  /** A longer wait never gets a milder colour. */
  lemma ColourIsMonotone(a: real, b: real)
    requires a <= b
    ensures Severity(ColourFor(a)) <= Severity(ColourFor(b))
  {
  }

  // ---------------------------------------------------------------------
  // Rounding

  /** `round(x, digits)` with ties rounded up: `x` rounded to the nearest
      multiple of `10^-digits`, which scaled by `10^digits` is the integer
      nearest to `x * 10^digits`. */
  function RoundTo(x: real, digits: nat): (r: real)
    ensures r * Pow10(digits) as real == ScaledRound(x, digits) as real
  {
    ScaledRound(x, digits) as real / Pow10(digits) as real
  }

  // ---------------------------------------------------------------------
  // Predictions

  /** What a prediction depends on besides the clinic: the predictor's
      settings and table, and the current hour and weekday. */
  datatype PredictionContext = PredictionContext(settings: Settings, table: StatsTable, hour: int, weekday: int)

  /** The id under which a clinic is looked up in the predictor. */
  type IdFn = ClinicData -> string

  /** The id the server passes to `predict`: the clinic's group key. */
  function ClinicIdOf(d: ClinicData): string {
    d.clinicId
  }

  /** The corrected predictor id of a clinic: its normalised name, the id
      under which `create_checkin` trains the predictor. */
  function PredictorKey(d: ClinicData): string {
    Normalize(d.clinicName)
  }

  /** The predicted wait of a clinic looked up under `idOf(d)`, with its
      latest wait as fallback. */
  function PredictedWait(ctx: PredictionContext, idOf: IdFn, d: ClinicData): real {
    PredictIn(ctx.settings, ctx.table, Some(idOf(d)), ctx.hour, ctx.weekday, d.currentCondition, d.latestWait)
  }

  /** Every id in the predictor's table is a normalised name. */
  ghost predicate TrainedOnNormalizedNames(table: StatsTable) {
    forall id :: id in table ==> IsSlug(id)
  }

  /** `create_checkin` trains under the normalised clinic name, so the
      table stays keyed by normalised names. */
  lemma TrainingKeepsNormalizedIds(table: StatsTable, name: string, hour: int, weekday: int, condition: string, w: real)
    requires TrainedOnNormalizedNames(table)
    ensures TrainedOnNormalizedNames(Recorded(table, Normalize(name), hour, weekday, condition, w))
  {
  }

  /** As written, a clinic whose group key carries a location cell is never
      found in a table trained on normalised names: its prediction is
      always the fallback. */
  lemma AsWrittenPredictionIsFallback(ctx: PredictionContext, d: ClinicData, norm: string, bucket: (int, int))
    requires TrainedOnNormalizedNames(ctx.table)
    requires d.clinicId == LocatedKey(norm, bucket)
    ensures PredictedWait(ctx, ClinicIdOf, d) == FallbackOf(ctx.settings, d.latestWait)
  {
    LocatedKeyIsNotSlug(norm, bucket);
  }

  /** Every check-in `create_checkin` stores has coordinates, so every
      clinic aggregated from such check-ins has a located group key, and
      the prediction the server asks for is the fallback for all of them. */
  lemma AsWrittenMissesEveryClinic(cs: seq<Checkin>, n: nat, ctx: PredictionContext)
    requires n < |Aggregations(cs, GroupKey)|
    requires forall c :: c in cs ==> LocationBucket(c.location).Some?
    requires TrainedOnNormalizedNames(ctx.table)
    ensures PredictedWait(ctx, ClinicIdOf, Aggregations(cs, GroupKey)[n]) == FallbackOf(ctx.settings, Aggregations(cs, GroupKey)[n].latestWait)
  {
    var key := KeyOrder(cs, GroupKey)[n];
    AggregationsAreGroups(cs, GroupKey, n);
    KeyOrderMembers(cs, GroupKey);
    var c :| c in cs && GroupKey(c) == Some(key);
    var norm := Normalize(c.clinicName.value);
    var bucket := LocationBucket(c.location).value;
    assert key == LocatedKey(norm, bucket);
    AsWrittenPredictionIsFallback(ctx, Aggregations(cs, GroupKey)[n], norm, bucket);
  }

  /** The corrected predictor id of an aggregated clinic is the id under
      which `create_checkin` trained every check-in of its group. */
  lemma PredictorKeyIsTrainingId(cs: seq<Checkin>, n: nat, c: Checkin)
    requires n < |KeyOrder(cs, GroupKey)|
    requires c in GroupOf(cs, GroupKey, KeyOrder(cs, GroupKey)[n])
    ensures HasName(c)
    ensures PredictorKey(Aggregations(cs, GroupKey)[n]) == Normalize(c.clinicName.value)
  {
    var key := KeyOrder(cs, GroupKey)[n];
    var g := GroupOf(cs, GroupKey, key);
    GroupOfMembers(cs, GroupKey, key);
    AggregationsAt(cs, GroupKey, n);
    assert g[0] in g;
    GroupKeyDistinguishes(g[0], c);
  }

  /** One stored check-in of `w` minutes for a named clinic with
      coordinates: the server's prediction for its clinic is the fallback,
      while the corrected prediction is `w`. */
  lemma OneReportExample(c: Checkin, condition: string, w: real, settings: Settings, hour: int, weekday: int, askHour: int, askWeekday: int)
    requires HasName(c) && LocationBucket(c.location).Some? && Normalize(c.clinicName.value) != ""
    ensures
      var table := Recorded(map[], Normalize(c.clinicName.value), hour, weekday, condition, w);
      var d := Aggregate(GroupKey(c).value, [c]);
      var ctx := PredictionContext(settings, table, askHour, askWeekday);
      && PredictedWait(ctx, ClinicIdOf, d) == FallbackOf(settings, d.latestWait)
      && PredictedWait(ctx, PredictorKey, d) == w
  {
    var name := Normalize(c.clinicName.value);
    var table := Recorded(map[], name, hour, weekday, condition, w);
    var d := Aggregate(GroupKey(c).value, [c]);
    var ctx := PredictionContext(settings, table, askHour, askWeekday);
    TrainingKeepsNormalizedIds(map[], c.clinicName.value, hour, weekday, condition, w);
    AsWrittenPredictionIsFallback(ctx, d, name, LocationBucket(c.location).value);
    assert PredictorKey(d) == name;
    SingleReportPredictsItsWait(settings, name, hour, weekday, condition, w, askHour, askWeekday, d.currentCondition, d.latestWait);
  }

  // ---------------------------------------------------------------------
  // Map features

  /** The clinic's location has both coordinates. */
  predicate IsLocated(d: ClinicData) {
    d.location.Some? && d.location.value.latitude.Some? && d.location.value.longitude.Some?
  }

  /** One GeoJSON feature: the point (longitude first) and the properties
      the map shows. */
  datatype Feature = Feature(
    clinicId: string,
    clinicName: string,
    coordinates: (real, real),
    latestWait: Option<real>,
    predictedWait: real,
    currentCondition: string,
    totalReports: nat,
    colour: Colour)

  /** The wait that decides the colour: the latest wait when there is one,
      the prediction otherwise. */
  function ReferenceWait(d: ClinicData, predicted: real): real {
    if d.latestWait.Some? then d.latestWait.value else predicted
  }

  /** The feature of a located clinic, its prediction looked up under
      `idOf(d)`. */
  function FeatureOf(ctx: PredictionContext, idOf: IdFn, d: ClinicData): (r: Feature)
    requires IsLocated(d)
    ensures r.clinicId == d.clinicId && r.latestWait == d.latestWait && r.totalReports == d.totalReports
    ensures r.coordinates == (d.location.value.longitude.value, d.location.value.latitude.value)
    ensures r.predictedWait == RoundTo(PredictedWait(ctx, idOf, d), 1)
    ensures d.latestWait.Some? ==> r.colour == ColourFor(d.latestWait.value)
    ensures d.latestWait.None? ==> r.colour == ColourFor(PredictedWait(ctx, idOf, d))
  {
    var predicted := PredictedWait(ctx, idOf, d);
    Feature(
      d.clinicId, d.clinicName,
      (d.location.value.longitude.value, d.location.value.latitude.value),
      d.latestWait, RoundTo(predicted, 1), d.currentCondition, d.totalReports,
      ColourFor(ReferenceWait(d, predicted)))
  }

  /** The features of the located clinics, in order. */
  function FeaturesOf(ctx: PredictionContext, idOf: IdFn, clinics: seq<ClinicData>): (r: seq<Feature>)
    ensures |r| <= |clinics|
  {
    if clinics == [] then []
    else
      var d := clinics[|clinics| - 1];
      FeaturesOf(ctx, idOf, clinics[..|clinics| - 1]) + (if IsLocated(d) then [FeatureOf(ctx, idOf, d)] else [])
  }

  /** `_checkins_to_geojson`: one feature per clinic with both coordinates,
      its prediction asked for under the clinic's group key, as the server
      does. */
  method CheckinsToGeoJson(clinics: seq<ClinicData>, model: WaitTimePredictor, hour: int, weekday: int)
    returns (features: seq<Feature>)
    ensures features == FeaturesOf(PredictionContext(model.CurrentSettings(), model.clinicStats, hour, weekday), ClinicIdOf, clinics)
  {
    ghost var ctx := PredictionContext(model.CurrentSettings(), model.clinicStats, hour, weekday);
    features := [];
    for i := 0 to |clinics|
      invariant features == FeaturesOf(ctx, ClinicIdOf, clinics[..i])
    {
      assert clinics[..i + 1][..i] == clinics[..i];
      var d := clinics[i];
      if d.location.None? || d.location.value.latitude.None? || d.location.value.longitude.None? {
        continue;
      }
      var lat := d.location.value.latitude.value;
      var lon := d.location.value.longitude.value;
      var predicted := model.Predict(Some(d.clinicId), hour, weekday, d.currentCondition, d.latestWait);
      var reference := if d.latestWait.Some? then d.latestWait.value else predicted;
      var colour := ColourFor(reference);
      features := features + [Feature(d.clinicId, d.clinicName, (lon, lat), d.latestWait,
                                      RoundTo(predicted, 1), d.currentCondition, d.totalReports, colour)];
    }
    assert clinics[..|clinics|] == clinics;
  }

  /** A feature for exactly the clinics with both coordinates. */
  lemma {:induction false} FeaturesAreLocatedClinics(ctx: PredictionContext, idOf: IdFn, clinics: seq<ClinicData>)
    ensures forall f :: f in FeaturesOf(ctx, idOf, clinics) ==> exists d :: d in clinics && IsLocated(d) && f == FeatureOf(ctx, idOf, d)
    ensures forall d :: d in clinics && IsLocated(d) ==> FeatureOf(ctx, idOf, d) in FeaturesOf(ctx, idOf, clinics)
  {
    if clinics != [] {
      var init := clinics[..|clinics| - 1];
      FeaturesAreLocatedClinics(ctx, idOf, init);
      assert forall d :: d in clinics <==> d in init || d == clinics[|clinics| - 1];
    }
  }

  /** As written, for clinics aggregated from stored check-ins (which all
      have coordinates) and a predictor trained on normalised names, every
      map feature shows the fallback as its prediction: the clinic's latest
      wait, or the default wait without one. */
  lemma AsWrittenFeaturesUseFallback(cs: seq<Checkin>, ctx: PredictionContext)
    requires forall c :: c in cs ==> LocationBucket(c.location).Some?
    requires TrainedOnNormalizedNames(ctx.table)
    ensures forall f :: f in FeaturesOf(ctx, ClinicIdOf, Aggregations(cs, GroupKey)) ==>
      f.predictedWait == RoundTo(FallbackOf(ctx.settings, f.latestWait), 1)
  {
    var clinics := Aggregations(cs, GroupKey);
    FeaturesAreLocatedClinics(ctx, ClinicIdOf, clinics);
    forall f | f in FeaturesOf(ctx, ClinicIdOf, clinics)
      ensures f.predictedWait == RoundTo(FallbackOf(ctx.settings, f.latestWait), 1)
    {
      var d :| d in clinics && IsLocated(d) && f == FeatureOf(ctx, ClinicIdOf, d);
      var n :| 0 <= n < |clinics| && clinics[n] == d;
      AsWrittenMissesEveryClinic(cs, n, ctx);
    }
  }

  /** A clinic with a latest wait is coloured by that wait, whatever the
      predictor says. */
  lemma LatestWaitDecidesColour(ctx1: PredictionContext, ctx2: PredictionContext, id1: IdFn, id2: IdFn, d: ClinicData)
    requires IsLocated(d) && d.latestWait.Some?
    ensures FeatureOf(ctx1, id1, d).colour == FeatureOf(ctx2, id2, d).colour == ColourFor(d.latestWait.value)
  {
  }

  // ---------------------------------------------------------------------
  // Nearby clinics

  /** The distance in kilometres from the user to a latitude and longitude. */
  type DistanceFn = (real, real) -> real

  /** A clinic of the nearby list: its data, its distance rounded to two
      decimals and its predicted wait rounded to one. */
  datatype NearbyClinic = NearbyClinic(clinic: ClinicData, distanceKm: real, predictedWait: real)

  function DistanceOf(distance: DistanceFn, d: ClinicData): real
    requires IsLocated(d)
  {
    distance(d.location.value.latitude.value, d.location.value.longitude.value)
  }

  /** The clinic has both coordinates and lies within the radius. */
  predicate IsNearby(distance: DistanceFn, radiusKm: real, d: ClinicData) {
    IsLocated(d) && DistanceOf(distance, d) <= radiusKm
  }

  /** The entry of a located clinic, its prediction looked up under
      `idOf(d)`. */
  function CandidateOf(ctx: PredictionContext, idOf: IdFn, distance: DistanceFn, d: ClinicData): (r: NearbyClinic)
    requires IsLocated(d)
    ensures r.clinic == d
    ensures r.distanceKm == RoundTo(DistanceOf(distance, d), 2)
    ensures r.predictedWait == RoundTo(PredictedWait(ctx, idOf, d), 1)
  {
    NearbyClinic(d, RoundTo(DistanceOf(distance, d), 2), RoundTo(PredictedWait(ctx, idOf, d), 1))
  }

  /** The nearby clinics before sorting, in the order of `clinics`. */
  function Candidates(ctx: PredictionContext, idOf: IdFn, distance: DistanceFn, radiusKm: real, clinics: seq<ClinicData>): (r: seq<NearbyClinic>)
    ensures |r| <= |clinics|
  {
    if clinics == [] then []
    else
      var d := clinics[|clinics| - 1];
      Candidates(ctx, idOf, distance, radiusKm, clinics[..|clinics| - 1])
        + (if IsNearby(distance, radiusKm, d) then [CandidateOf(ctx, idOf, distance, d)] else [])
  }

  /** A candidate for exactly the clinics within the radius. */
  lemma {:induction false} CandidatesAreNearbyClinics(ctx: PredictionContext, idOf: IdFn, distance: DistanceFn, radiusKm: real, clinics: seq<ClinicData>)
    ensures forall x :: x in Candidates(ctx, idOf, distance, radiusKm, clinics) ==>
      exists d :: d in clinics && IsNearby(distance, radiusKm, d) && x == CandidateOf(ctx, idOf, distance, d)
    ensures forall d :: d in clinics && IsNearby(distance, radiusKm, d) ==>
      CandidateOf(ctx, idOf, distance, d) in Candidates(ctx, idOf, distance, radiusKm, clinics)
  {
    if clinics != [] {
      var init := clinics[..|clinics| - 1];
      CandidatesAreNearbyClinics(ctx, idOf, distance, radiusKm, init);
      assert forall d :: d in clinics <==> d in init || d == clinics[|clinics| - 1];
    }
  }

  // Sorting by predicted wait (`list.sort` with a key, which is stable)

  predicate SortedByWait(s: seq<NearbyClinic>) {
    forall i, j :: 0 <= i < j < |s| ==> s[i].predictedWait <= s[j].predictedWait
  }

  /** Inserts `x` before the first element that does not wait less. */
  function Insert(x: NearbyClinic, s: seq<NearbyClinic>): (r: seq<NearbyClinic>)
    ensures |r| == |s| + 1
  {
    if s == [] || x.predictedWait <= s[0].predictedWait then [x] + s
    else [s[0]] + Insert(x, s[1..])
  }

  /** Stable insertion sort on the predicted wait. */
  function SortByWait(s: seq<NearbyClinic>): (r: seq<NearbyClinic>)
    ensures |r| == |s|
    ensures SortedByWait(r)
    ensures multiset(r) == multiset(s)
  {
    if s == [] then []
    else
      var sorted := SortByWait(s[1..]);
      InsertKeepsSorted(s[0], sorted);
      InsertPermutes(s[0], sorted);
      assert s == [s[0]] + s[1..];
      Insert(s[0], sorted)
  }

  /** The elements of `s` whose predicted wait is `w`, in order. */
  function WithWait(s: seq<NearbyClinic>, w: real): (r: seq<NearbyClinic>)
    ensures |r| <= |s|
  {
    if s == [] then [] else (if s[0].predictedWait == w then [s[0]] else []) + WithWait(s[1..], w)
  }

  lemma {:induction false} InsertPermutes(x: NearbyClinic, s: seq<NearbyClinic>)
    ensures multiset(Insert(x, s)) == multiset(s) + multiset{x}
  {
    if s != [] && x.predictedWait > s[0].predictedWait {
      InsertPermutes(x, s[1..]);
      assert s == [s[0]] + s[1..];
    }
  }

  lemma {:induction false} InsertKeepsSorted(x: NearbyClinic, s: seq<NearbyClinic>)
    requires SortedByWait(s)
    ensures SortedByWait(Insert(x, s))
  {
    if s != [] && x.predictedWait > s[0].predictedWait {
      var t := s[1..];
      InsertKeepsSorted(x, t);
      InsertPermutes(x, t);
      var r := Insert(x, t);
      forall k | 0 <= k < |r|
        ensures s[0].predictedWait <= r[k].predictedWait
      {
        assert r[k] in multiset(t) + multiset{x};
      }
    }
  }

  lemma {:induction false} InsertIsStable(x: NearbyClinic, s: seq<NearbyClinic>, w: real)
    ensures WithWait(Insert(x, s), w) == (if x.predictedWait == w then [x] else []) + WithWait(s, w)
  {
    if s != [] && x.predictedWait > s[0].predictedWait {
      var t := s[1..];
      InsertIsStable(x, t, w);
      var r := Insert(x, s);
      assert r == [s[0]] + Insert(x, t);
      assert r[1..] == Insert(x, t);
      assert WithWait(r, w) == (if s[0].predictedWait == w then [s[0]] else []) + WithWait(Insert(x, t), w);
      assert WithWait(s, w) == (if s[0].predictedWait == w then [s[0]] else []) + WithWait(t, w);
    } else {
      assert ([x] + s)[1..] == s;
    }
  }

  /** The sort orders by predicted wait, keeps every element, and keeps the
      order of elements that wait equally long. */
  lemma {:induction false} SortByWaitIsStableSort(s: seq<NearbyClinic>)
    ensures SortedByWait(SortByWait(s))
    ensures multiset(SortByWait(s)) == multiset(s)
    ensures forall w :: WithWait(SortByWait(s), w) == WithWait(s, w)
  {
    if s != [] {
      SortByWaitIsStableSort(s[1..]);
      forall w
        ensures WithWait(SortByWait(s), w) == WithWait(s, w)
      {
        InsertIsStable(s[0], SortByWait(s[1..]), w);
      }
    }
  }

  /** Python's slice `s[:limit]`: a negative limit counts from the end. */
  function Take<T>(s: seq<T>, limit: int): (r: seq<T>)
    ensures limit >= 0 ==> |r| == if limit < |s| then limit else |s|
    ensures limit < 0 ==> |r| == if -limit < |s| then |s| + limit else 0
    ensures r == s[..|r|]
  {
    if limit >= 0 then (if limit < |s| then s[..limit] else s)
    else if -limit < |s| then s[..|s| + limit]
    else []
  }

  /** `nearby_clinics`: the clinics within the radius, sorted by predicted
      wait, cut to `limit`; as in `_checkins_to_geojson`, the prediction is
      asked for under the clinic's group key. */
  method NearbyClinics(clinics: seq<ClinicData>, model: WaitTimePredictor, hour: int, weekday: int,
                       distance: DistanceFn, radiusKm: real, limit: int)
    returns (result: seq<NearbyClinic>)
    ensures result == Take(SortByWait(Candidates(PredictionContext(model.CurrentSettings(), model.clinicStats, hour, weekday),
                                                 ClinicIdOf, distance, radiusKm, clinics)), limit)
  {
    ghost var ctx := PredictionContext(model.CurrentSettings(), model.clinicStats, hour, weekday);
    var nearby := [];
    for i := 0 to |clinics|
      invariant nearby == Candidates(ctx, ClinicIdOf, distance, radiusKm, clinics[..i])
    {
      assert clinics[..i + 1][..i] == clinics[..i];
      var d := clinics[i];
      if d.location.None? || d.location.value.latitude.None? || d.location.value.longitude.None? {
        continue;
      }
      var km := distance(d.location.value.latitude.value, d.location.value.longitude.value);
      if km > radiusKm {
        continue;
      }
      var predicted := model.Predict(Some(d.clinicId), hour, weekday, d.currentCondition, d.latestWait);
      nearby := nearby + [NearbyClinic(d, RoundTo(km, 2), RoundTo(predicted, 1))];
    }
    assert clinics[..|clinics|] == clinics;
    result := Take(SortByWait(nearby), limit);
  }

  /** Cutting a sorted list keeps it sorted, and what is cut off waits no
      less than what is kept. */
  lemma TakeOfSorted(s: seq<NearbyClinic>, limit: int)
    requires SortedByWait(s)
    ensures SortedByWait(Take(s, limit))
    ensures forall y :: y in s && y !in Take(s, limit) ==>
      forall x :: x in Take(s, limit) ==> x.predictedWait <= y.predictedWait
  {
    var r := Take(s, limit);
    forall y, x | y in s && y !in r && x in r
      ensures x.predictedWait <= y.predictedWait
    {
      var i :| 0 <= i < |r| && r[i] == x;
      var j :| 0 <= j < |s| && s[j] == y;
      assert j >= |r|;
    }
  }

  /** Sorting and cutting any list of candidates: at most `limit` of
      them (for a non-negative limit), sorted, each one of the candidates,
      and none left out that waits less than one kept. */
  lemma SortAndTake(cands: seq<NearbyClinic>, limit: int)
    ensures var r := Take(SortByWait(cands), limit);
      && (limit >= 0 ==> |r| <= limit)
      && SortedByWait(r)
      && (forall x :: x in r ==> x in cands)
      && (forall y :: y in cands && y !in r ==> forall x :: x in r ==> x.predictedWait <= y.predictedWait)
  {
    var sorted := SortByWait(cands);
    var r := Take(sorted, limit);
    SortByWaitIsStableSort(cands);
    TakeOfSorted(sorted, limit);
    forall x | x in r
      ensures x in cands
    {
      assert x in sorted;
      assert x in multiset(cands);
    }
    forall y | y in cands && y !in r
      ensures y in sorted
    {
      assert y in multiset(sorted);
    }
  }

  /** The nearby list holds no more than `limit` clinics (for a
      non-negative limit), each within the radius, sorted by predicted
      wait; a clinic within the radius is left out only when every clinic
      in the list waits no longer. */
  lemma NearbyResult(ctx: PredictionContext, idOf: IdFn, distance: DistanceFn, radiusKm: real, clinics: seq<ClinicData>, limit: int)
    ensures var r := Take(SortByWait(Candidates(ctx, idOf, distance, radiusKm, clinics)), limit);
      && (limit >= 0 ==> |r| <= limit)
      && SortedByWait(r)
      && (forall x :: x in r ==> x.clinic in clinics && IsNearby(distance, radiusKm, x.clinic))
      && (forall d :: d in clinics && IsNearby(distance, radiusKm, d) && CandidateOf(ctx, idOf, distance, d) !in r ==>
            forall x :: x in r ==> x.predictedWait <= CandidateOf(ctx, idOf, distance, d).predictedWait)
  {
    var cands := Candidates(ctx, idOf, distance, radiusKm, clinics);
    var r := Take(SortByWait(cands), limit);
    SortAndTake(cands, limit);
    CandidatesAreNearbyClinics(ctx, idOf, distance, radiusKm, clinics);
    forall x | x in r
      ensures x.clinic in clinics && IsNearby(distance, radiusKm, x.clinic)
    {
      var d :| d in clinics && IsNearby(distance, radiusKm, d) && x == CandidateOf(ctx, idOf, distance, d);
    }
  }

  /** As written, the nearby list built from such clinics is ordered by the
      fallbacks alone: every entry's predicted wait is its clinic's latest
      wait, or the default wait without one. */
  lemma AsWrittenNearbyUsesFallback(cs: seq<Checkin>, ctx: PredictionContext, distance: DistanceFn, radiusKm: real)
    requires forall c :: c in cs ==> LocationBucket(c.location).Some?
    requires TrainedOnNormalizedNames(ctx.table)
    ensures forall x :: x in Candidates(ctx, ClinicIdOf, distance, radiusKm, Aggregations(cs, GroupKey)) ==>
      x.predictedWait == RoundTo(FallbackOf(ctx.settings, x.clinic.latestWait), 1)
  {
    var clinics := Aggregations(cs, GroupKey);
    CandidatesAreNearbyClinics(ctx, ClinicIdOf, distance, radiusKm, clinics);
    forall x | x in Candidates(ctx, ClinicIdOf, distance, radiusKm, clinics)
      ensures x.predictedWait == RoundTo(FallbackOf(ctx.settings, x.clinic.latestWait), 1)
    {
      var d :| d in clinics && IsNearby(distance, radiusKm, d) && x == CandidateOf(ctx, ClinicIdOf, distance, d);
      var n :| 0 <= n < |clinics| && clinics[n] == d;
      AsWrittenMissesEveryClinic(cs, n, ctx);
      assert x.predictedWait == RoundTo(PredictedWait(ctx, ClinicIdOf, d), 1) && x.clinic == d;
    }
  }
}
