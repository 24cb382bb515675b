# Clinic wait-time reports: a Dafny model

This project models CareNow, a service where patients report their wait at a walk-in clinic. The server stores each check-in. It groups check-ins into clinics by normalised name and a coarse location cell, and computes per-clinic statistics. A small incremental predictor estimates the wait at a clinic for a given hour, weekday and condition. The map colours each clinic by its latest wait, and a nearby query lists the clinics within a radius, shortest predicted wait first.

The browser side has four parts:

- a translation layer: placeholder templates, lookup with fallbacks, choice of language, document direction;
- a statistics panel: counters, an average wait, progress bars, relative times;
- a report form: message bookkeeping, location handling, the clinic select, ordered submit checks, default times;
- the popup text of a map feature.

Modules follow the program's files:

| module | file | models |
|---|---|---|
| `Common` | common.dfy | Python/JavaScript string and number helpers: `strip`/`trim`, `lower`, decimal rendering, `padStart`, `join`, `toFixed` |
| `Predictor` | predictor.dfy | `WaitTimePredictor` in server.py |
| `ClinicKeys` | clinic_keys.dfy | `_normalize_clinic_name`, `_location_bucket`, `_group_key_for_checkin` |
| `Aggregation` | aggregation.dfy | `_aggregate_clinic_data_from_list`, `_update_clinic_aggregations` |
| `ClinicFeatures` | clinic_features.dfy | the colour bands of `_checkins_to_geojson`; the filter, sort and limit of `nearby_clinics` |
| `I18n` | i18n.dfy | static/js/i18n.js |
| `Metrics` | metrics.dfy | static/js/metrics.js |
| `ReportForm` | report_form.dfy | static/js/report.js |
| `Popup` | popup.dfy | `buildPopup` in static/js/map.js |

Where the source mutates state, the model does too:

- the predictor is a class whose `Update` replaces its tables;
- the report page's module variables are fields of `ReportForm.Form`, and its handlers are methods;
- the i18n module state is `I18n.Localizer`;
- loops become methods with loop invariants (`ComputeMetrics`, `UpdateClinicAggregations`, `AggregateClinicData`, `BuildOptions`, `CheckinsToGeoJson`, `NearbyClinics`), each proved equal to a specification function whose properties are proved as lemmas.

Other modelling choices:

- Floating-point numbers are Dafny `real`s.
- The current time is a parameter, and so are the hour, the weekday and the distance function.
- A value that JavaScript or Python may find missing or null is an `Option`.

## Model

| member | source | states |
|---|---|---|
| Common.Trim | server.py:360 | `strip()` / `trim()` over a given white-space set (Python's `IsPySpace` for `PyStrip`, JavaScript's `IsJsSpace` for `JsTrim`): the result neither starts nor ends with white space |
| Common.TrimBounds | server.py:360 | what trimming removes lies before and after the result, which is kept intact |
| Common.TrimOfTrimmed | static/js/report.js:297 | trimming a trimmed text changes nothing |
| Common.NatToString | server.py:112-113 | `str(n)` of a natural: non-empty decimal digits without a leading zero that read back as `n`, a single digit exactly below 10 |
| Common.PadTwoDigits | static/js/report.js:242-245 | `String(n).padStart(2, "0")` for `n < 100` has length 2 and reads back as `n` |
| Common.ScaledRound | static/js/report.js:180-181 | the integer `toFixed(d)` renders: the nearest to `x·10^d`, ties rounded up |
| Common.ToFixed | static/js/report.js:180-181 | `toFixed(d)`: a minus sign exactly for a negative `x`; integer digits without a leading zero; a point followed by exactly `d` digits; and the digits without sign and point read back as the rounded `|x|·10^d` |
| Predictor.Average | server.py:74-80 | `_avg_entry`: no average for a missing entry or a count ≤ 0; otherwise a value that, taken `count` times, is the total |
| Predictor.WithSample | server.py:83-86 | `_update_entry`: the entry under `key` is created empty if absent and gains one sample (count + 1, total + w); every other entry is unchanged |
| Predictor.ConditionKey | server.py:115 | `(condition or "Unknown").strip()`: the empty condition keys as `"Unknown"` |
| Predictor.ConditionKeyIsStripped | server.py:115 | a condition key is already stripped |
| Predictor.BlankConditionKeyIsEmpty | server.py:160 | a non-empty all-blank condition is truthy, so it keys as `""`, not `"Unknown"` |
| Predictor.RecordSample | server.py:154-164 | the clinic's overall bucket gains the sample (count + 1, total + w); the hour, weekday and condition buckets it falls into are each updated as `_update_entry` does (`WithSample`: created empty if absent, then + 1 and + w), and every other bucket is unchanged |
| Predictor.Recorded | server.py:154-164 | what `update` does to the table: the clinic is added if absent; no other clinic changes |
| Predictor.PredictIn | server.py:97-136 | `predict`: an empty or unknown clinic id gets the fallback (`fallback_wait`, else `default_wait`); for a known clinic, the hour bucket's average when it holds at least `min_hourly_samples` samples, else the weekday bucket's with `min_weekday_samples`, else the condition bucket's with 2, else the overall average, else the fallback |
| Predictor.AverageInRange | server.py:74-80 | the mean of an entry whose samples lie in `[lo, hi]` lies in `[lo, hi]` |
| Predictor.RecordSampleInRange | server.py:154-164 | recording a sample in `[lo, hi]` keeps all four bucket kinds of the clinic within `[lo, hi]` |
| Predictor.RecordedWellFormed | server.py:154-156 | after `update` every clinic in the table has at least one overall sample |
| Predictor.PredictionInRange | server.py:105-136 | every prediction is the fallback or a mean of one of the clinic's buckets, so it lies within any range holding both |
| Predictor.KnownClinicIgnoresFallback | server.py:111-136 | for a clinic with statistics the overall bucket always answers, so the fallback offered makes no difference |
| Predictor.KnownPredictionInRange | server.py:111-136 | a prediction for a known clinic lies within the range of the waits recorded for it |
| Predictor.SingleReportPredictsItsWait | server.py:105-121 | on a fresh model, one `update(c, h, d, cond, w)` makes `predict(c, …)` return `w` at any hour, weekday and condition |
| Predictor.RecordingIsPerClinic | server.py:154-164 | an update for one clinic never changes a prediction for another |
| Predictor.WaitTimePredictor.constructor | server.py:61-72 | the given settings, an empty table, zero global totals |
| Predictor.WaitTimePredictor.FromDict | server.py:176-196 | `from_dict`: each missing setting takes its default, a missing table is empty, missing global totals are zero |
| Predictor.WaitTimePredictor.Predict | server.py:97-136 | `predict` on the predictor's own settings and table: the fallback for an unknown clinic; for a known clinic of a well-formed table, the same answer as with no fallback at all |
| Predictor.WaitTimePredictor.Update | server.py:138-164 | the global totals always gain the sample; a present clinic id replaces the table by `Recorded`, which records it in the overall, `hour % 24`, `weekday % 7` and `ConditionKey` buckets; an empty id leaves the table unchanged; the settings are unchanged; well-formedness is kept |
| ClinicKeys.CollapseRuns | server.py:360 | the `re.sub` result uses only `[a-z0-9_]`, never has two underscores in a row, keeps every letter and digit in order, and keeps a leading letter or digit; the two lemmas below pin down the result exactly |
| ClinicKeys.CollapseKeepsSlugPrefix | server.py:360 | letters, digits and single underscores followed by a letter or digit are copied unchanged |
| ClinicKeys.CollapseReplacesSeparatorRun | server.py:360 | a maximal run of characters outside `[a-z0-9]` becomes exactly one underscore |
| ClinicKeys.Normalize | server.py:358-360 | `_normalize_clinic_name`: the result contains only `[a-z0-9_]`, with no leading, trailing or doubled underscore |
| ClinicKeys.NormalizeKeepsLettersAndDigits | server.py:358-360 | normalising keeps the lower-cased letters and digits of the name, in order |
| ClinicKeys.SlugIsNormal | server.py:358-360 | a slug is its own normalisation |
| ClinicKeys.NormalizeJoinsWithUnderscore | server.py:358-360 | two normalised names separated by any run of non-letters and non-digits normalise to the names joined by one underscore (`"north clinic"` gives `"north_clinic"`) |
| ClinicKeys.NormalizeIdempotent | server.py:358-360 | normalising twice is normalising once |
| ClinicKeys.LocationBucket | server.py:363-376 | no cell when a coordinate is missing; otherwise the floors of the coordinates divided by 0.1 |
| ClinicKeys.GroupKey | server.py:379-395 | no key exactly when the clinic name is missing or empty |
| ClinicKeys.LocatedKeyInjective | server.py:395 | two located keys of normalised names are equal only for the same name and the same cell |
| ClinicKeys.GroupKeyDistinguishes | server.py:379-395 | two named check-ins share a key only with the same normalised name and the same cell, or no cell for both |
| ClinicKeys.LocatedKeyIsNotSlug | server.py:394-395 | a key with a location cell never looks like a normalised name |
| Aggregation.StrLessTransitive | server.py:461 | Python's string order is transitive |
| Aggregation.StrLessTotal | server.py:461 | Python's string order is total |
| Aggregation.WaitsOf | server.py:420-423 | the present wait times, in order |
| Aggregation.RecentOf | server.py:434-442 | only check-ins with a parsable `created_at` at most seven days old |
| Aggregation.ConditionsOf | server.py:449-452 | only truthy conditions |
| Aggregation.Distinct | server.py:448-452 | the dictionary's key order: each element once, exactly the elements seen |
| Aggregation.TallyCounts | server.py:448-452 | each condition is counted exactly as often as it occurs |
| Aggregation.CurrentCondition | server.py:448-454 | `"Moderate"` for no condition; otherwise a condition seen, at least as frequent as any other, and any condition first seen before it strictly less frequent (`max` keeps the first maximum in insertion order) |
| Aggregation.MostCommonInMultiset | server.py:448-454 | the key `max` picks is counted at least as often as every condition, and strictly more often than every key before it |
| Aggregation.MostCommonIndex | server.py:454 | `max` over the items: the first key with the largest count |
| Aggregation.MostRecentIndex | server.py:461-465 | the head of the stable reverse sort on `created_at`: a check-in no other is later than, before which all are earlier |
| Aggregation.Truthy | server.py:484-485 | a zero average or latest wait becomes None |
| Aggregation.CollectWaitsAndRecent | server.py:420-443 | the first loop collects exactly the present waits and the recent check-ins |
| Aggregation.CountConditions | server.py:448-452 | the counting loop yields the tally of recent truthy conditions and its key order |
| Aggregation.MostCommonCondition | server.py:454 | the current condition of the recent check-ins |
| Aggregation.Aggregate | server.py:408-491 | `_aggregate_clinic_data_from_list` for a non-empty group: the clinic carries the group key as id, `total_reports` is the group size and `recent_reports` never exceeds it |
| Aggregation.AggregateClinicData | server.py:408-491 | nothing for an empty group; otherwise the group's aggregate |
| Aggregation.MeanInRange | server.py:445 | a mean lies within the range of the values averaged |
| Aggregation.AggregateWaitsInRange | server.py:445-485 | the average and latest wait of a clinic lie within the range of its reported waits |
| Aggregation.LatestWaitIsMostRecent | server.py:461-485 | the latest wait is the non-zero wait of the most recent check-in |
| Aggregation.KeyOrder | server.py:500-506 | group keys in order of first appearance, without repeats |
| Aggregation.KeyOrderMembers | server.py:500-506 | the keys are exactly those of check-ins that have one |
| Aggregation.GroupOfMembers | server.py:502-506 | a group holds exactly the check-ins with its key |
| Aggregation.Aggregations | server.py:508-514 | one clinic per group key |
| Aggregation.GroupCheckins | server.py:500-506 | the grouping loop builds, for every key in first-appearance order, the list of its check-ins |
| Aggregation.UpdateClinicAggregations | server.py:494-514 | `_update_clinic_aggregations` returns the aggregates of the groups under `_group_key_for_checkin`, in key order |
| Aggregation.GroupsAreNonEmpty | server.py:506-512 | every key names a non-empty group, so every group yields a clinic |
| Aggregation.AggregationsAreGroups | server.py:509-512 | the n-th clinic has the n-th key as id and its group's size as `total_reports` |
| Aggregation.CheckinInItsGroup | server.py:502-506 | a check-in without a name is dropped; any other lands in its own key's group and no other |
| Aggregation.GroupsPartition | server.py:502-506 | the group sizes add up to the number of check-ins with a key |
| ClinicFeatures.ColourFor | server.py:546-556 | green below 15, yellow from 15 to below 30, orange from 30 to below 60, red from 60, each as an iff |
| ClinicFeatures.ColourIsMonotone | server.py:549-556 | a longer wait never gets a milder colour |
| ClinicFeatures.RoundTo | server.py:566 | `round(x, d)`: a multiple of `10^-d` (scaled by `10^d` it is the integer `ScaledRound` gives), so within half a unit of the last decimal |
| ClinicFeatures.TrainingKeepsNormalizedIds | server.py:751-785 | training under the normalised name keeps the table keyed by normalised names |
| ClinicFeatures.AsWrittenPredictionIsFallback | server.py:542-544 | querying with a located group key always gives the fallback |
| ClinicFeatures.AsWrittenMissesEveryClinic | server.py:542-544 | when every check-in has coordinates, the server's prediction for every aggregated clinic is the fallback |
| ClinicFeatures.PredictorKeyIsTrainingId | server.py:751 | the corrected predictor id of a clinic is the id its check-ins were trained under |
| ClinicFeatures.OneReportExample | server.py:542-544 | one report of `w` minutes: the query as written gives the fallback, the corrected one gives `w` |
| ClinicFeatures.FeatureOf | server.py:538-571 | the feature keeps the clinic's id, latest wait and report count; the point is `[lon, lat]`; the predicted wait is the prediction under `idOf` rounded to one decimal; the colour is that of the latest wait when there is one, else of the prediction |
| ClinicFeatures.FeaturesOf | server.py:522-573 | no more features than clinics, whatever id the prediction is asked under (`ClinicIdOf` as the server does, or the corrected `PredictorKey`) |
| ClinicFeatures.CheckinsToGeoJson | server.py:517-575 | the loop yields the feature of every clinic with both coordinates, in order, with the prediction asked under the clinic's group key (`ClinicIdOf`), as line 544 does |
| ClinicFeatures.AsWrittenFeaturesUseFallback | server.py:542-544 | for clinics aggregated from stored check-ins and a table trained on normalised names, every map feature's predicted wait is the rounded fallback |
| ClinicFeatures.FeaturesAreLocatedClinics | server.py:522-537 | there is a feature for exactly the clinics with both coordinates |
| ClinicFeatures.LatestWaitDecidesColour | server.py:546-548 | a clinic with a latest wait is coloured by it, whatever the prediction |
| ClinicFeatures.CandidateOf | server.py:711-718 | the entry keeps the clinic, with the distance rounded to two decimals and the prediction under `idOf` rounded to one |
| ClinicFeatures.Candidates | server.py:692-718 | at most one candidate per clinic, whatever id the prediction is asked under |
| ClinicFeatures.CandidatesAreNearbyClinics | server.py:692-718 | a candidate exists for exactly the clinics with both coordinates within the radius |
| ClinicFeatures.InsertPermutes | server.py:721 | inserting adds exactly one element |
| ClinicFeatures.InsertKeepsSorted | server.py:721 | inserting into a sorted list keeps it sorted by predicted wait |
| ClinicFeatures.InsertIsStable | server.py:721 | inserting keeps the order among equal waits |
| ClinicFeatures.SortByWait | server.py:721 | the insertion sort yields a list sorted by predicted wait that is a permutation of its input |
| ClinicFeatures.SortByWaitIsStableSort | server.py:721 | `sort(key=predicted_wait_time)`: sorted, a permutation, stable |
| ClinicFeatures.Take | server.py:723 | `s[:limit]`: a prefix, of length `limit` when non-negative and in range, counting from the end when negative |
| ClinicFeatures.NearbyClinics | server.py:679-723 | the loop, sort and slice yield the first `limit` of the sorted candidates, with the prediction asked under the clinic's group key (`ClinicIdOf`), as line 712 does |
| ClinicFeatures.TakeOfSorted | server.py:721-723 | a prefix of a sorted list is sorted, and nothing cut off waits less than anything kept |
| ClinicFeatures.SortAndTake | server.py:721-723 | the result has at most `limit` entries, is sorted, comes from the candidates, and leaves out none that waits less |
| ClinicFeatures.NearbyResult | server.py:691-723 | at most `limit` clinics, all within the radius and sorted by predicted wait; a nearby clinic is left out only if none kept waits longer |
| ClinicFeatures.AsWrittenNearbyUsesFallback | server.py:710-718 | for clinics aggregated from stored check-ins and a table trained on normalised names, every nearby entry's predicted wait is the rounded fallback, so the list is ordered by fallbacks alone |
| I18n.PlaceholderAt | static/js/i18n.js:769 | a match found is a prefix `{{`, JavaScript white space, a non-empty run of `\w`, white space, `}}`, and names that run |
| I18n.PlaceholderAtFindsEveryMatch | static/js/i18n.js:769 | every prefix of that form is found, with its name and length |
| I18n.FormatTemplate | static/js/i18n.js:768-772 | `formatTemplate`: a template without `{` comes back unchanged |
| I18n.FormatWithoutPlaceholder | static/js/i18n.js:768-772 | a template without a placeholder comes back unchanged |
| I18n.FormatKeepsPlainText | static/js/i18n.js:768-772 | text before the first `{` is copied unchanged |
| I18n.FormatReplacesPlaceholder | static/js/i18n.js:768-772 | `{{ name }}`, with or without inner spaces, becomes the parameter's own value or `""`, and scanning continues after it |
| I18n.TemplateFor | static/js/i18n.js:774-779 | the current language's entry, else English, else the key; an existing empty entry is used as is |
| I18n.SelectLanguageAsWritten | static/js/i18n.js:855 | `setLanguage`'s choice as written: a language of the table is kept; anything chosen outside the table is English or a name inherited from `Object.prototype` |
| I18n.AsWrittenSelectsUnsupported | static/js/i18n.js:855 | as written, `setLanguage("constructor")` selects a language the table does not have |
| I18n.SelectLanguage | static/js/i18n.js:855 | the language if supported, else English; always supported |
| I18n.BrowserTag | static/js/i18n.js:758 | the first preferred language when non-empty; else `navigator.language` when non-empty; else `"en"`; never empty |
| I18n.BeforeDash | static/js/i18n.js:759 | `split("-")[0]`: the prefix up to the first dash, with no dash in it |
| I18n.DetectLanguage | static/js/i18n.js:749-761 | `detectLanguage` with the corrected own-language test (see Findings): always a supported language; a non-empty supported stored choice wins; otherwise the lower-cased primary subtag of the browser tag when supported, else English |
| I18n.DetectFromBrowser | static/js/i18n.js:758-760 | with no usable stored choice, a browser tag `xx` or `xx-YY` selects lower-case `xx` when supported and English otherwise |
| I18n.DetectDefaultsToEnglish | static/js/i18n.js:758-760 | with storage unavailable and no browser language, English |
| I18n.DetectLanguageAsWritten | static/js/i18n.js:749-761 | `detectLanguage` as written: a usable stored language is restored; anything chosen outside the table is English or a name inherited from `Object.prototype` |
| I18n.AsWrittenDetectsUnsupported | static/js/i18n.js:752 | as written, a stored `"constructor"` is restored as the language although the table has no such language |
| I18n.AsWrittenDetectAgrees | static/js/i18n.js:749-761 | away from the names inherited from `Object.prototype`, the code as written and the corrected `DetectLanguage` agree |
| I18n.PrefixBeforeDash | static/js/i18n.js:759 | the text before the first dash is the primary subtag |
| I18n.LangAttribute | static/js/i18n.js:764 | `zh-Hans` for `zh`, the code itself otherwise |
| I18n.Direction | static/js/i18n.js:765 | `rtl` exactly for Arabic, `ltr` otherwise |
| I18n.Localizer.constructor | static/js/i18n.js:746-747 | the language `DetectLanguage` chooses (the corrected own-language test) is current |
| I18n.Localizer.Translate | static/js/i18n.js:774-779 | `translateKey`: the current language's template, else the English one, formatted with the parameters; a key neither has and without placeholders is shown as it is |
| I18n.Localizer.SetLanguage | static/js/i18n.js:853-872 | with the corrected own-language test (see Findings): the current language becomes the supported choice and the document attributes follow; unless silent, the choice is stored and announced once |
| Metrics.PositiveCount | static/js/metrics.js:48-51 | only positive finite waits are counted, so never more than the check-ins |
| Metrics.WithinCount | static/js/metrics.js:53-65 | only check-ins with a valid date within the window are counted |
| Metrics.Latest | static/js/metrics.js:53-56 | the maximum valid `created_at`, or none when no date is valid |
| Metrics.ComputeMetrics | static/js/metrics.js:31-89 | the two loops produce the counts, sums, latest date and average the specification functions define |
| Metrics.WithinCountMonotone | static/js/metrics.js:58-64 | a wider window counts no fewer reports |
| Metrics.CountersAreOrdered | static/js/metrics.js:35-64 | `waitTimeCount ≤ totalCheckins` and `last24h ≤ last7d ≤ totalCheckins` |
| Metrics.PositiveSumBounds | static/js/metrics.js:48-51 | the sum of counted waits is at most count times their bound, and positive when any is counted |
| Metrics.AverageWaitBounds | static/js/metrics.js:69-86 | the average wait, clinic mean first, else check-in mean, is positive and within any bound of what it averages |
| Metrics.Clamp | static/js/metrics.js:184-186 | in `[lo, hi]` when `lo ≤ hi`; a value already in range is unchanged |
| Metrics.AvgWaitProgress | static/js/metrics.js:101-103 | the average-wait bar is within `[0, 100]` |
| Metrics.FreshRatio | static/js/metrics.js:106-107 | the freshness bar is within `[0, 100]` |
| Metrics.FreshRatioIsExact | static/js/metrics.js:106-107 | for computed counters the freshness bar is exactly the percentage of last-day reports |
| Metrics.MathRound | static/js/metrics.js:145 | `Math.round`: the nearest integer, ties rounded up |
| Metrics.AsWrittenShowsMissingAsZero | static/js/metrics.js:141-146 | as written, a missing average renders `"0 min"`, the same as zero |
| Metrics.FormatWaitTimeAsWritten | static/js/metrics.js:141-146 | `formatWaitTime` as written: always a number of minutes; a missing value gives `"0 min"` because `Number(null)` is 0 |
| Metrics.FormatWaitTime | static/js/metrics.js:141-146 | the corrected rendering (see Findings): a dash without a value, otherwise the rounded minutes; the source shows `"0 min"` for a missing value (`FormatWaitTimeAsWritten`) |
| Metrics.FormatWaitTimeTellsMissingFromZero | static/js/metrics.js:141-146 | a missing wait and a zero wait render differently |
| Metrics.AvgWaitShowsDashOnlyWithoutWaits | static/js/metrics.js:69-86 | the panel shows a dash exactly when no clinic average and no check-in wait is positive |
| Metrics.FormatRelative | static/js/metrics.js:155-182 | `formatRelative`: a dash exactly without a date, and the date itself exactly from seven days on |
| Metrics.FormatRelativeBands | static/js/metrics.js:155-182 | below a minute in seconds, with a future date as `0s`; then minutes, hours and days; the date from seven days on |
| ReportForm.ResolveMessage | static/js/report.js:25-40 | a keyed message is translated and remembered with its params (`{}` when none); a string is shown as is; null shows `""`; only keyed messages give a spec |
| ReportForm.ResolveReplays | static/js/report.js:267-281 | re-resolving a remembered spec gives the same spec and text |
| ReportForm.OrElse | static/js/report.js:194 | `message \|\| default`: null and `""` take the default |
| ReportForm.ClinicOption | static/js/report.js:62-83 | the option's value is the trimmed name; it has coordinates exactly when both numbers are present |
| ReportForm.ClinicOptionsFollowNamed | static/js/report.js:62-83 | one option per clinic with a non-empty trimmed name, in list order |
| ReportForm.SelectOptionsShape | static/js/report.js:53-89 | the placeholder first and the only empty value, the custom choice last, the clinics between |
| ReportForm.BuildOptions | static/js/report.js:53-89 | the loop builds exactly that select |
| ReportForm.FirstFailing | static/js/report.js:291-328 | none iff all checks pass; otherwise the key of the first failing check |
| ReportForm.ValidateSubmission | static/js/report.js:291-328 | an accepted submission has a trimmed non-empty name, check-out after check-in and a condition |
| ReportForm.ValidationIsFirstFailure | static/js/report.js:291-328 | the outcome is the first failing check among location, clinic, times, order, condition; accepted iff none fails |
| ReportForm.ChecksInOrder | static/js/report.js:291-328 | the first failure among the five checks, in their source order |
| ReportForm.FirstFailingAt | static/js/report.js:291-328 | when every check before the k-th passes and the k-th fails, its key is the first failure |
| ReportForm.SubmittedNameIsTrimmed | static/js/report.js:297 | the submitted name is already trimmed |
| ReportForm.FormatDateTime | static/js/report.js:240-247 | `YYYY-MM-DDTHH:mm`: 16 characters, fixed separators, each two-digit field reading back as its value (month one-based) |
| ReportForm.Form.constructor | static/js/report.js:21-23 | no location, no remembered messages |
| ReportForm.Form.SetStatus | static/js/report.js:134-156 | shows the resolved text; the spec is remembered or forgotten unless preserved; location and choice unchanged |
| ReportForm.Form.SetLocationMessage | static/js/report.js:158-177 | the same bookkeeping for the location line, with the `ready`/`error` mark |
| ReportForm.Form.LockLocation | static/js/report.js:179-188 | location ready, inputs filled, success messages remembered, clinic choice unchanged |
| ReportForm.Form.HandleLocationSuccess | static/js/report.js:179-188 | location ready with six-decimal coordinates; the location line shows `locationLocked` with the coordinates, marked ready; the status shows `locationCaptured` as a success; both specs remembered |
| ReportForm.Form.HandleLocationError | static/js/report.js:190-200 | location cleared and not ready; the message or the generic one goes to the location line, and to the status unless silent |
| ReportForm.Form.HandleClinicChange | static/js/report.js:96-124 | custom: trimmed typed name, location untouched; otherwise the option's value, and an option with coordinates also locks the location with six-decimal coordinates, enables the locate button and shows `selectedClinicLocation` with the coordinates on the location line (ready) and `clinicSelected` as the status (success) |
| ReportForm.Form.HandleCustomInput | static/js/report.js:126-132 | typing changes the name only while the custom choice is selected |
| ReportForm.Form.PopulateClinicsSelect | static/js/report.js:45-94 | a failed request leaves the select alone; otherwise it is rebuilt from the list, or from nothing for a non-list |
| ReportForm.Form.OnLanguageChange | static/js/report.js:267-285 | remembered specs unchanged, their texts retranslated, the select's keyed labels retranslated |
| ReportForm.Form.Submit | static/js/report.js:288-339 | a failed check shows its key's translation as an error and sends nothing; otherwise the submission is returned and `submitting` is shown as info |
| ReportForm.Relocalized | static/js/i18n.js:793-800 | only options with a translation key get a new label; everything else is kept |
| ReportForm.RelocalizedPlaceholderAndCustom | static/js/report.js:282-284 | after a language change the placeholder and custom option equal a fresh build in the new language |
| Popup.BuildPopup | static/js/map.js:14-28 | `buildPopup`: the popup opens with the heading (the description, or the default); `PopupEndsWithReportId` gives its end |
| Popup.Coalesce | static/js/map.js:20 | `??`: only null or undefined take the default |
| Popup.LabelsText | static/js/map.js:21 | the labels text is never empty |
| Popup.PartsOf | static/js/map.js:14-27 | image link iff `image_url` is truthy; heading, verdict and confidence default only for null/undefined; the report id is interpolated |
| Popup.JoinIsEmpty | static/js/map.js:21 | joining with `", "` is empty only for no labels or one empty label |
| Popup.LabelsDefault | static/js/map.js:21 | `n/a` exactly for a missing, empty or single-empty list; otherwise the joined labels |
| Popup.PopupEndsWithReportId | static/js/map.js:26 | the popup always ends with the report id line |

## Left out

- **I/O.** Persistence (S3, local files, pickle), HTTP routing, `fetch`, geolocation (`requestLocation`), `localStorage` failures, `CustomEvent` dispatch, DOM lookups and the Leaflet map are left out. Their results are parameters: `ClinicsResponse`, the translation function, the selected option.
- **The clock.** `Date.now`, `datetime.now`, `hour` and `weekday` are parameters. A check-in's age in days is an input field (`ageDays`).
- **Floating point.** Numbers are exact reals: no NaN, no infinities, no rounding error. `_location_bucket` divides exactly by 0.1, while the float division can land just below an integer.
- ClinicFeatures.RoundTo: Python's `round` on binary floats (ties to even on the stored value) is modelled as round-half-up on exact reals.
- Common.ToFixed: JavaScript's `toFixed` on binary floats is modelled on exact reals, ties rounded up.
- ClinicFeatures.NearbyClinics: the planar distance `sqrt(dlat² + dlon²) * 111` is the parameter `DistanceFn`.
- The reliability score is left out, because it uses `log1p` on floats. `last_updated` is left out because it is the clock. The `round(..., 1)` of the stored averages is left out. The unused `locations`/`conditions` fallback is left out; it is unreachable because the sorted list is never empty.
- Check-ins whose `created_at` is null are left out. The source's `sorted` would raise on them.
- **Persistence formats.** `to_dict` and the seeded default clinics are left out.
- Predictor.WaitTimePredictor.FromDict: the global count is an integer, while the source stores `float(count)` after loading. Values of the wrong type inside a loaded table are not modelled.
- Predictor.WaitTimePredictor.Update: the unused `predicted_wait_time` argument is dropped.
- **Strings.** Lower-casing is ASCII only; `str.lower` and `toLowerCase` also fold other Unicode letters. Stripping uses each language's own white-space set (`IsPySpace` for `str.strip`, `IsJsSpace` for `trim` and `\s`), written out as code points.
- **The translation table.** It is an abstract `Catalog` map; its strings are not transcribed. `translateKey` reads inherited prototype members only through the language-selection finding below. Non-string parameter values are not modelled.
- `applyTranslations` is modelled only on the clinic select (`Relocalized`). Other elements, attributes and `parseParams` are left out.
- ReportForm.ValidateSubmission: times are already parsed milliseconds. A non-empty but unparsable time (an invalid `Date`, which passes the order check in the source) is not modelled. Neither is the rendering of the server's reply after submission, nor the redirect.
- `formatNumber` and `formatPercent` (`toLocaleString`, the latter unused), and the `toLocaleDateString`/`toLocaleString` texts of `formatRelative`, are left out. `Metrics.FormatRelative` returns the date itself as `OnDate`.
- Metrics.ComputeMetrics: `parseFloat` and `new Date` are inputs already parsed (`Option`s).
- Popup.PartsOf: a number or array property is given by its `String` rendering. HTML is not escaped, as in the source.
- Members whose contracts use `old`, and the twostate predicates of `ReportForm.Form`, state "nothing else changes". They are the methods of `Predictor.WaitTimePredictor`, `I18n.Localizer` and `ReportForm.Form`.

## Findings

| source | as written | input that shows it | evidently intended | confidence | as-written member | corrected member |
|---|---|---|---|---|---|---|
| static/js/i18n.js:855 | `TRANSLATIONS[lang] ? lang : DEFAULT_LANG` accepts any truthy property, including names inherited from `Object.prototype`; `detectLanguage` (lines 752 and 760) tests the same way (`DetectLanguageAsWritten`, `AsWrittenDetectsUnsupported`) | `setLanguage("constructor")`, or `"constructor"` in storage | only the table's own languages are selected; anything else falls back to English | not executed; needs a stored or scripted value | I18n.AsWrittenSelectsUnsupported | I18n.SelectLanguage |
| static/js/metrics.js:142 | `Number.isFinite(Number(value))` is true for `null`, because `Number(null)` is 0 (`FormatWaitTimeAsWritten`) | no check-in with a positive wait and no clinic average: `avgWaitTime` is null and the panel shows `0 min` | a dash when there is no average, as for other non-numbers | not executed | Metrics.AsWrittenShowsMissingAsZero | Metrics.FormatWaitTime |
| server.py:544 | `predict` is asked with the aggregation key `name__latcell_loncell` (also at line 712), but `create_checkin` trains under the bare normalised name (lines 751, 785); `CheckinsToGeoJson` and `NearbyClinics` make this call as written, and `AsWrittenFeaturesUseFallback` and `AsWrittenNearbyUsesFallback` show its effect | one check-in for `"City Clinic"` at (51.05, -114.07): trained as `city_clinic`, queried as `city_clinic__510_-1141`, so the map shows the fallback | predictions for a clinic use the id it was trained under (`PredictorKey`, which `FeaturesOf`, `Candidates` and `NearbyResult` accept in place of `ClinicIdOf`) | not executed | ClinicFeatures.AsWrittenMissesEveryClinic | ClinicFeatures.PredictorKeyIsTrainingId |
