/**
 * The report page's form controller: how a message becomes status text
 * and a remembered translation spec, the location and clinic-choice state
 * the handlers keep, the clinic options the select is rebuilt with, the
 * ordered checks a submission must pass, and the default time stamps.
 *
 * The translation function is a value of the model (`Translator`): it
 * stands for the i18n `t` of the language currently chosen. Geolocation,
 * `fetch` and the DOM are not modelled; the handlers receive what those
 * deliver as parameters.
 */
module ReportForm {
  import opened Common

  type Params = map<string, string>
  type Translator = (string, Params) -> string

  const NeedLocation := "report.status.needLocation"
  const SelectClinic := "report.status.selectClinic"
  const NeedTimes := "report.status.needTimes"
  const CheckoutAfter := "report.status.checkoutAfter"
  const NeedCondition := "report.status.needCondition"
  const Submitting := "report.status.submitting"
  const LocationLocked := "report.status.locationLocked"
  const LocationCaptured := "report.status.locationCaptured"
  const LocationUnavailable := "report.status.locationUnavailable"
  const SelectedClinicLocation := "report.status.selectedClinicLocation"
  const ClinicSelected := "report.status.clinicSelected"
  const SelectPlaceholder := "report.form.selectPlaceholder"
  const ClinicOptionWithCoords := "report.form.clinicOptionWithCoords"
  const OtherOption := "report.form.otherOption"

  /** The value of the select's last option, which asks for a typed name. */
  const CustomValue := "__custom__"

  // ---------------------------------------------------------------------
  // Messages

  /** What a caller hands to `setStatus` / `setLocationMessage`: an object
      with a `key` (and perhaps `params`), a string, or null/undefined. */
  datatype MessageInput = Keyed(key: string, params: Option<Params>) | Text(text: string) | Null

  datatype Spec = Spec(key: string, params: Params)
  datatype Resolved = Resolved(text: string, spec: Option<Spec>)

  datatype Kind = Info | Success | Error
  /** A remembered spec with the message type it was shown with. */
  datatype TypedSpec = TypedSpec(spec: Spec, kind: Kind)

  /** `resolveMessage`: a keyed message is translated and remembered with
      its parameters (none given meaning `{}`); a string is shown as it is
      and null as the empty text, neither remembered. */
  function ResolveMessage(t: Translator, m: MessageInput): (r: Resolved)
    ensures r.spec.Some? <==> m.Keyed?
    ensures m.Keyed? ==> r.spec.value.key == m.key && r.text == t(m.key, r.spec.value.params)
    ensures m.Keyed? ==> r.spec.value.params == if m.params.Some? then m.params.value else map[]
    ensures m.Text? ==> r == Resolved(m.text, None)
    ensures m.Null? ==> r == Resolved("", None)
  {
    match m
    case Keyed(key, params) =>
      var spec := Spec(key, if params.Some? then params.value else map[]);
      Resolved(t(spec.key, spec.params), Some(spec))
    case Text(s) => Resolved(s, None)
    case Null => Resolved("", None)
  }

  /** Re-resolving a remembered spec, as the language-change handler does,
      gives back the same spec, and the same text under the same
      translation. */
  lemma ResolveReplays(t: Translator, m: MessageInput)
    requires ResolveMessage(t, m).spec.Some?
    ensures var s := ResolveMessage(t, m).spec.value;
      ResolveMessage(t, Keyed(s.key, Some(s.params))) == ResolveMessage(t, m)
  {
  }

  function Remember(spec: Option<Spec>, kind: Kind): Option<TypedSpec> {
    if spec.Some? then Some(TypedSpec(spec.value, kind)) else None
  }

  /** `message || default`: null and the empty string are falsy. */
  function OrElse(m: MessageInput, default: MessageInput): (r: MessageInput)
    ensures m.Null? || m == Text("") ==> r == default
    ensures !(m.Null? || m == Text("")) ==> r == m
  {
    if m.Null? || m == Text("") then default else m
  }

  /** The class the location line carries: `ready` after a success,
      `error` after an error, none for information. */
  datatype LocationMark = Unmarked | Ready | Failed

  function MarkFor(kind: Kind): LocationMark {
    match kind
    case Success => Ready
    case Error => Failed
    case Info => Unmarked
  }

  // ---------------------------------------------------------------------
  // Clinic options

  /** A clinic as `/clinics` lists it: its name (`""` when missing) and
      its coordinates as `Number` reads them (`None` for NaN). */
  datatype ClinicEntry = ClinicEntry(name: string, lat: Option<real>, lon: Option<real>)

  datatype SelectOption = SelectOption(
    value: string,
    caption: string,
    i18nKey: Option<string>,
    coords: Option<(real, real)>,
    disabled: bool)

  function PlaceholderOption(t: Translator): SelectOption {
    SelectOption("", t(SelectPlaceholder, map[]), Some(SelectPlaceholder), None, true)
  }

  function CustomOption(t: Translator): SelectOption {
    SelectOption(CustomValue, t(OtherOption, map[]), Some(OtherOption), None, false)
  }

  predicate IsNamed(c: ClinicEntry) {
    JsTrim(c.name) != ""
  }

  /** The option for a named clinic: the trimmed name as value, labelled
      with coordinates to three decimals when both are numbers. */
  function ClinicOption(t: Translator, c: ClinicEntry): (o: SelectOption)
    requires IsNamed(c)
    ensures o.value == JsTrim(c.name) && o.i18nKey.None? && !o.disabled
    ensures o.coords.Some? <==> c.lat.Some? && c.lon.Some?
    ensures o.coords.Some? ==> o.coords.value == (c.lat.value, c.lon.value)
  {
    var name := JsTrim(c.name);
    if c.lat.Some? && c.lon.Some? then
      var caption := t(ClinicOptionWithCoords, map["name" := name, "lat" := ToFixed(c.lat.value, 3), "lon" := ToFixed(c.lon.value, 3)]);
      SelectOption(name, caption, None, Some((c.lat.value, c.lon.value)), false)
    else
      SelectOption(name, name, None, None, false)
  }

  /** The clinic options, in list order, skipping unnamed clinics. */
  function ClinicOptions(t: Translator, clinics: seq<ClinicEntry>): seq<SelectOption> {
    if clinics == [] then []
    else
      var last := clinics[|clinics| - 1];
      ClinicOptions(t, clinics[..|clinics| - 1]) + (if IsNamed(last) then [ClinicOption(t, last)] else [])
  }

  lemma ClinicOptionsStep(t: Translator, clinics: seq<ClinicEntry>, i: nat)
    requires i < |clinics|
    ensures ClinicOptions(t, clinics[..i + 1])
         == ClinicOptions(t, clinics[..i]) + (if IsNamed(clinics[i]) then [ClinicOption(t, clinics[i])] else [])
  {
    assert clinics[..i + 1][..i] == clinics[..i];
  }

  /** The whole select: placeholder, clinics, the custom choice last. */
  function SelectOptions(t: Translator, clinics: seq<ClinicEntry>): seq<SelectOption> {
    [PlaceholderOption(t)] + ClinicOptions(t, clinics) + [CustomOption(t)]
  }

  /** The named clinics, in order: the reference the options follow. */
  function Named(clinics: seq<ClinicEntry>): (r: seq<ClinicEntry>)
    ensures forall i :: 0 <= i < |r| ==> IsNamed(r[i])
  {
    if clinics == [] then []
    else
      var last := clinics[|clinics| - 1];
      Named(clinics[..|clinics| - 1]) + (if IsNamed(last) then [last] else [])
  }

  /** One option per named clinic, in order, with its trimmed name and its
      coordinates exactly when both are numbers. */
  lemma {:induction false} ClinicOptionsFollowNamed(t: Translator, clinics: seq<ClinicEntry>)
    ensures |ClinicOptions(t, clinics)| == |Named(clinics)|
    ensures forall i :: 0 <= i < |Named(clinics)| ==> ClinicOptions(t, clinics)[i] == ClinicOption(t, Named(clinics)[i])
  {
    if clinics != [] {
      var prefix := clinics[..|clinics| - 1];
      var last := clinics[|clinics| - 1];
      ClinicOptionsFollowNamed(t, prefix);
      var opts, named := ClinicOptions(t, prefix), Named(prefix);
      if IsNamed(last) {
        var all, allNamed := opts + [ClinicOption(t, last)], named + [last];
        assert ClinicOptions(t, clinics) == all && Named(clinics) == allNamed;
        forall i | 0 <= i < |allNamed|
          ensures all[i] == ClinicOption(t, allNamed[i])
        {
          if i < |named| {
            assert all[i] == opts[i] && allNamed[i] == named[i];
          }
        }
      } else {
        assert ClinicOptions(t, clinics) == opts && Named(clinics) == named;
      }
    }
  }

  /** The placeholder is first and the only option with an empty value;
      the custom choice is last. */
  lemma SelectOptionsShape(t: Translator, clinics: seq<ClinicEntry>)
    ensures var opts := SelectOptions(t, clinics);
      && |opts| == |Named(clinics)| + 2
      && opts[0] == PlaceholderOption(t)
      && opts[|opts| - 1] == CustomOption(t)
      && forall i :: 0 < i < |opts| ==> opts[i].value != ""
  {
    ClinicOptionsFollowNamed(t, clinics);
    var opts := SelectOptions(t, clinics);
    forall i | 0 < i < |opts|
      ensures opts[i].value != ""
    {
      if i < |opts| - 1 {
        assert opts[i] == ClinicOption(t, Named(clinics)[i - 1]);
      }
    }
  }

  /** The loop of `populateClinicsSelect`: the placeholder, then an option
      for each clinic whose trimmed name is not empty, then the custom
      choice. */
  method BuildOptions(t: Translator, clinics: seq<ClinicEntry>) returns (opts: seq<SelectOption>)
    ensures opts == SelectOptions(t, clinics)
  {
    var clinicOpts := [];
    for i := 0 to |clinics|
      invariant clinicOpts == ClinicOptions(t, clinics[..i])
    {
      var c := clinics[i];
      ClinicOptionsStep(t, clinics, i);
      if IsNamed(c) {
        clinicOpts := clinicOpts + [ClinicOption(t, c)];
      }
    }
    assert clinics[..|clinics|] == clinics;
    opts := [PlaceholderOption(t)] + clinicOpts + [CustomOption(t)];
  }

  /** What the `/clinics` request delivered. */
  datatype ClinicsResponse = RequestFailed | NotAList | Clinics(entries: seq<ClinicEntry>)

  // ---------------------------------------------------------------------
  // Submission checks

  datatype Submission = Submission(
    clinicName: string,
    latitude: string,
    longitude: string,
    checkIn: int,
    checkOut: int,
    condition: string)

  datatype Validation = Rejected(key: string) | Accepted(submission: Submission)

  datatype Check = Check(passes: bool, key: string)

  /** The checks of the submit handler, in the order it makes them. Times
      are milliseconds (`None` for an empty field); the time comparison is
      only reached with both present. */
  function Checks(ready: bool, name: string, checkIn: Option<int>, checkOut: Option<int>, condition: string): seq<Check> {
    [ Check(ready, NeedLocation),
      Check(JsTrim(name) != "", SelectClinic),
      Check(checkIn.Some? && checkOut.Some?, NeedTimes),
      Check(!(checkIn.Some? && checkOut.Some?) || checkOut.value > checkIn.value, CheckoutAfter),
      Check(condition != "", NeedCondition) ]
  }

  /** The key of the first check that fails, if any. */
  function FirstFailing(cs: seq<Check>): (r: Option<string>)
    ensures r.None? <==> forall i :: 0 <= i < |cs| ==> cs[i].passes
    ensures r.Some? ==> exists i :: 0 <= i < |cs| && !cs[i].passes && cs[i].key == r.value
                                    && forall j :: 0 <= j < i ==> cs[j].passes
  {
    if cs == [] then None
    else if !cs[0].passes then Some(cs[0].key)
    else
      var rest := FirstFailing(cs[1..]);
      assert forall i :: 1 <= i < |cs| ==> cs[i] == cs[1..][i - 1];
      if rest.Some? then
        var k :| 0 <= k < |cs[1..]| && !cs[1..][k].passes && cs[1..][k].key == rest.value
                  && forall j :: 0 <= j < k ==> cs[1..][j].passes;
        assert !cs[k + 1].passes && cs[k + 1].key == rest.value;
        rest
      else rest
  }

  /** The submit handler's checks in its order: the first that fails names
      the status shown; a request is built only when all pass. */
  function ValidateSubmission(ready: bool, name: string, latitude: string, longitude: string,
                              checkIn: Option<int>, checkOut: Option<int>, condition: string): (r: Validation)
    ensures r.Accepted? ==> r.submission.clinicName == JsTrim(name) && r.submission.clinicName != ""
    ensures r.Accepted? ==> r.submission.checkIn < r.submission.checkOut && r.submission.condition != ""
  {
    if !ready then Rejected(NeedLocation)
    else if JsTrim(name) == "" then Rejected(SelectClinic)
    else if checkIn.None? || checkOut.None? then Rejected(NeedTimes)
    else if checkOut.value <= checkIn.value then Rejected(CheckoutAfter)
    else if condition == "" then Rejected(NeedCondition)
    else Accepted(Submission(JsTrim(name), latitude, longitude, checkIn.value, checkOut.value, condition))
  }

  /** The outcome is the first failing check of the list, and acceptance
      comes exactly when none fails. */
  lemma ValidationIsFirstFailure(ready: bool, name: string, latitude: string, longitude: string,
                                 checkIn: Option<int>, checkOut: Option<int>, condition: string)
    ensures var r := ValidateSubmission(ready, name, latitude, longitude, checkIn, checkOut, condition);
      var first := FirstFailing(Checks(ready, name, checkIn, checkOut, condition));
      && (r.Accepted? <==> first.None?)
      && (r.Rejected? ==> first == Some(r.key))
  {
    var times := checkIn.Some? && checkOut.Some?;
    var named := JsTrim(name) != "";
    var ordered := !times || checkOut.value > checkIn.value;
    var cs := Checks(ready, name, checkIn, checkOut, condition);
    assert cs == [Check(ready, NeedLocation), Check(named, SelectClinic), Check(times, NeedTimes),
                  Check(ordered, CheckoutAfter), Check(condition != "", NeedCondition)];
    ChecksInOrder(ready, named, times, ordered, condition != "");
    var r := ValidateSubmission(ready, name, latitude, longitude, checkIn, checkOut, condition);
    if ready && named && times && ordered && condition != "" {
      assert r.Accepted? && FirstFailing(cs).None?;
    } else {
      assert r.Rejected? && FirstFailing(cs) == Some(r.key);
    }
  }

  /** The first failure of the five checks, whatever their outcomes. */
  lemma ChecksInOrder(located: bool, named: bool, timed: bool, ordered: bool, described: bool)
    ensures var cs := [Check(located, NeedLocation), Check(named, SelectClinic), Check(timed, NeedTimes),
                       Check(ordered, CheckoutAfter), Check(described, NeedCondition)];
      FirstFailing(cs) == if !located then Some(NeedLocation)
                          else if !named then Some(SelectClinic)
                          else if !timed then Some(NeedTimes)
                          else if !ordered then Some(CheckoutAfter)
                          else if !described then Some(NeedCondition)
                          else None
  {
    var cs := [Check(located, NeedLocation), Check(named, SelectClinic), Check(timed, NeedTimes),
               Check(ordered, CheckoutAfter), Check(described, NeedCondition)];
    if !located {
      FirstFailingAt(cs, 0);
    } else if !named {
      FirstFailingAt(cs, 1);
    } else if !timed {
      FirstFailingAt(cs, 2);
    } else if !ordered {
      FirstFailingAt(cs, 3);
    } else if !described {
      FirstFailingAt(cs, 4);
    }
  }

  /** When the checks before position `k` pass and the one at `k` fails,
      its key is the first failure. */
  lemma {:induction false} FirstFailingAt(cs: seq<Check>, k: nat)
    requires k < |cs| && !cs[k].passes && forall j :: 0 <= j < k ==> cs[j].passes
    ensures FirstFailing(cs) == Some(cs[k].key)
  {
    if k > 0 {
      FirstFailingAt(cs[1..], k - 1);
    }
  }

  /** The name sent is already trimmed: sending it again would not change it. */
  lemma SubmittedNameIsTrimmed(ready: bool, name: string, latitude: string, longitude: string,
                               checkIn: Option<int>, checkOut: Option<int>, condition: string)
    requires ValidateSubmission(ready, name, latitude, longitude, checkIn, checkOut, condition).Accepted?
    ensures var n := ValidateSubmission(ready, name, latitude, longitude, checkIn, checkOut, condition).submission.clinicName;
      JsTrim(n) == n
  {
    TrimOfTrimmed(IsJsSpace, JsTrim(name));
  }

  // ---------------------------------------------------------------------
  // Default times

  /** The local calendar fields of a `Date` (`getMonth` counts from 0). */
  datatype LocalTime = LocalTime(year: int, month: nat, day: nat, hours: nat, minutes: nat)

  predicate InRange(d: LocalTime) {
    d.month < 12 && 1 <= d.day <= 31 && d.hours < 24 && d.minutes < 60
  }

  function Pad2(n: nat): string {
    PadStart(NatToString(n), 2)
  }

  /** `formatDateTime`: `YYYY-MM-DDTHH:mm` for a `datetime-local` input.
      For a four-digit year the text has that fixed layout and each field
      reads back as the value it was written from. */
  function FormatDateTime(d: LocalTime): (s: string)
    ensures InRange(d) && 1000 <= d.year <= 9999 ==>
      && |s| == 16
      && s[4] == '-' && s[7] == '-' && s[10] == 'T' && s[13] == ':'
      && AllDigits(s[..4]) && DigitsValue(s[..4]) == d.year
      && AllDigits(s[5..7]) && DigitsValue(s[5..7]) == d.month + 1
      && AllDigits(s[8..10]) && DigitsValue(s[8..10]) == d.day
      && AllDigits(s[11..13]) && DigitsValue(s[11..13]) == d.hours
      && AllDigits(s[14..16]) && DigitsValue(s[14..16]) == d.minutes
  {
    if InRange(d) && 1000 <= d.year <= 9999 then
      FourDigits(d.year);
      PadTwoDigits(d.month + 1);
      PadTwoDigits(d.day);
      PadTwoDigits(d.hours);
      PadTwoDigits(d.minutes);
      Layout(NatToString(d.year), Pad2(d.month + 1), Pad2(d.day), Pad2(d.hours), Pad2(d.minutes));
      IntToString(d.year) + "-" + Pad2(d.month + 1) + "-" + Pad2(d.day) + "T" + Pad2(d.hours) + ":" + Pad2(d.minutes)
    else
      IntToString(d.year) + "-" + Pad2(d.month + 1) + "-" + Pad2(d.day) + "T" + Pad2(d.hours) + ":" + Pad2(d.minutes)
  }

  lemma FourDigits(n: nat)
    requires 1000 <= n <= 9999
    ensures |NatToString(n)| == 4
  {
    var m1 := n / 10;
    var m2 := m1 / 10;
    var m3 := m2 / 10;
    assert 100 <= m1 <= 999 && 10 <= m2 <= 99 && 1 <= m3 <= 9;
    assert |NatToString(m2)| == |NatToString(m3)| + 1;
    assert |NatToString(m1)| == |NatToString(m2)| + 1;
    assert |NatToString(n)| == |NatToString(m1)| + 1;
  }

  /** Where the five fields sit in the joined text. */
  lemma Layout(y: string, mo: string, d: string, h: string, mi: string)
    requires |y| == 4 && |mo| == 2 && |d| == 2 && |h| == 2 && |mi| == 2
    ensures var s := y + "-" + mo + "-" + d + "T" + h + ":" + mi;
      && |s| == 16
      && s[4] == '-' && s[7] == '-' && s[10] == 'T' && s[13] == ':'
      && s[..4] == y && s[5..7] == mo && s[8..10] == d && s[11..13] == h && s[14..16] == mi
  {
  }

  // ---------------------------------------------------------------------
  // The controller

  class Form {
    var translate: Translator
    var locationReady: bool
    var lastStatusSpec: Option<TypedSpec>
    var lastLocationSpec: Option<TypedSpec>
    var statusText: string
    var statusKind: Kind
    var locationText: string
    var locationMark: LocationMark
    var latitude: string
    var longitude: string
    var locateEnabled: bool
    var customVisible: bool
    var clinicName: string
    var options: seq<SelectOption>

    twostate predicate SameStatus()
      reads this
    {
      statusText == old(statusText) && statusKind == old(statusKind) && lastStatusSpec == old(lastStatusSpec)
    }

    twostate predicate SameLocationMessage()
      reads this
    {
      locationText == old(locationText) && locationMark == old(locationMark) && lastLocationSpec == old(lastLocationSpec)
    }

    twostate predicate SameLocation()
      reads this
    {
      locationReady == old(locationReady) && latitude == old(latitude) && longitude == old(longitude)
      && locateEnabled == old(locateEnabled)
    }

    twostate predicate SameChoice()
      reads this
    {
      customVisible == old(customVisible) && clinicName == old(clinicName) && options == old(options)
      && translate == old(translate)
    }

    /** The page as loaded: no location, nothing remembered, no clinics. */
    constructor (t: Translator)
      ensures translate == t && !locationReady
      ensures lastStatusSpec.None? && lastLocationSpec.None?
      ensures clinicName == "" && !customVisible && options == []
    {
      translate := t;
      locationReady := false;
      lastStatusSpec, lastLocationSpec := None, None;
      statusText, statusKind := "", Info;
      locationText, locationMark := "", Unmarked;
      latitude, longitude := "", "";
      locateEnabled := true;
      customVisible := false;
      clinicName := "";
      options := [];
    }

    /** `setStatus`: shows the resolved text with the type's styling and,
        unless asked to preserve it, remembers the spec (or forgets it for
        a plain text). */
    method SetStatus(m: MessageInput, kind: Kind, preserveSpec: bool)
      modifies this
      ensures statusText == ResolveMessage(translate, m).text && statusKind == kind
      ensures lastStatusSpec == if preserveSpec then old(lastStatusSpec) else Remember(ResolveMessage(translate, m).spec, kind)
      ensures SameLocationMessage() && SameLocation() && SameChoice()
    {
      var r := ResolveMessage(translate, m);
      statusText := r.text;
      statusKind := kind;
      if !preserveSpec {
        lastStatusSpec := Remember(r.spec, kind);
      }
    }

    /** `setLocationMessage`: the same bookkeeping for the location line. */
    method SetLocationMessage(m: MessageInput, kind: Kind, preserveSpec: bool)
      modifies this
      ensures locationText == ResolveMessage(translate, m).text && locationMark == MarkFor(kind)
      ensures lastLocationSpec == if preserveSpec then old(lastLocationSpec) else Remember(ResolveMessage(translate, m).spec, kind)
      ensures SameStatus() && SameLocation() && SameChoice()
    {
      var r := ResolveMessage(translate, m);
      locationText := r.text;
      locationMark := MarkFor(kind);
      if !preserveSpec {
        lastLocationSpec := Remember(r.spec, kind);
      }
    }

    /** Fills the coordinate inputs with six decimals and reports the
        position in both the location line and the status. */
    method LockLocation(latText: string, lonText: string, locationKey: string, statusKey: string)
      modifies this
      ensures locationReady && locateEnabled
      ensures latitude == latText && longitude == lonText
      ensures lastLocationSpec == Some(TypedSpec(Spec(locationKey, map["lat" := latitude, "lon" := longitude]), Success))
      ensures locationText == translate(locationKey, map["lat" := latitude, "lon" := longitude]) && locationMark == Ready
      ensures lastStatusSpec == Some(TypedSpec(Spec(statusKey, map[]), Success))
      ensures statusText == translate(statusKey, map[]) && statusKind == Success
      ensures SameChoice()
    {
      latitude := latText;
      longitude := lonText;
      locationReady := true;
      SetLocationMessage(Keyed(locationKey, Some(map["lat" := latText, "lon" := lonText])), Success, false);
      SetStatus(Keyed(statusKey, None), Success, false);
      locateEnabled := true;
    }

    /** `handleLocationSuccess`. */
    method HandleLocationSuccess(lat: real, lon: real)
      modifies this
      ensures locationReady && locateEnabled
      ensures latitude == ToFixed(lat, 6) && longitude == ToFixed(lon, 6)
      ensures lastLocationSpec == Some(TypedSpec(Spec(LocationLocked, map["lat" := latitude, "lon" := longitude]), Success))
      ensures locationText == translate(LocationLocked, map["lat" := latitude, "lon" := longitude]) && locationMark == Ready
      ensures lastStatusSpec == Some(TypedSpec(Spec(LocationCaptured, map[]), Success))
      ensures statusText == translate(LocationCaptured, map[]) && statusKind == Success
      ensures SameChoice()
    {
      LockLocation(ToFixed(lat, 6), ToFixed(lon, 6), LocationLocked, LocationCaptured);
    }

    /** `handleLocationError`: the location is cleared and the message (or
        the generic one when it is falsy) goes to the location line, and to
        the status unless silent. */
    method HandleLocationError(m: MessageInput, silent: bool)
      modifies this
      ensures !locationReady && locateEnabled && latitude == "" && longitude == ""
      ensures var payload := OrElse(m, Keyed(LocationUnavailable, None));
        && locationText == ResolveMessage(translate, payload).text && locationMark == Failed
        && lastLocationSpec == Remember(ResolveMessage(translate, payload).spec, Error)
        && (silent ==> SameStatus())
        && (!silent ==> statusText == ResolveMessage(translate, payload).text && statusKind == Error
                        && lastStatusSpec == Remember(ResolveMessage(translate, payload).spec, Error))
      ensures SameChoice()
    {
      locationReady := false;
      latitude := "";
      longitude := "";
      var payload := OrElse(m, Keyed(LocationUnavailable, None));
      SetLocationMessage(payload, Error, false);
      if !silent {
        SetStatus(payload, Error, false);
      }
      locateEnabled := true;
    }

    /** `handleClinicChange` for the chosen option: the custom choice takes
        the trimmed typed name and leaves the location alone; any other
        takes the option's value, and an option with coordinates also sets
        the location to them. */
    method HandleClinicChange(selected: SelectOption, customText: string)
      modifies this
      ensures options == old(options) && translate == old(translate)
      ensures selected.value == CustomValue ==>
        customVisible && clinicName == JsTrim(customText) && SameLocation() && SameStatus() && SameLocationMessage()
      ensures selected.value != CustomValue ==> !customVisible && clinicName == selected.value
      ensures selected.value != CustomValue && selected.coords.None? ==>
        SameLocation() && SameStatus() && SameLocationMessage()
      ensures selected.value != CustomValue && selected.coords.Some? ==>
        && locationReady && locateEnabled
        && latitude == ToFixed(selected.coords.value.0, 6) && longitude == ToFixed(selected.coords.value.1, 6)
        && lastLocationSpec == Some(TypedSpec(Spec(SelectedClinicLocation, map["lat" := latitude, "lon" := longitude]), Success))
        && locationText == translate(SelectedClinicLocation, map["lat" := latitude, "lon" := longitude])
        && locationMark == Ready
        && lastStatusSpec == Some(TypedSpec(Spec(ClinicSelected, map[]), Success))
        && statusText == translate(ClinicSelected, map[]) && statusKind == Success
    {
      if selected.value == CustomValue {
        customVisible := true;
        clinicName := JsTrim(customText);
        return;
      }
      customVisible := false;
      clinicName := selected.value;
      if selected.coords.Some? {
        LockLocation(ToFixed(selected.coords.value.0, 6), ToFixed(selected.coords.value.1, 6), SelectedClinicLocation, ClinicSelected);
      }
    }

    /** Typing a custom name while the custom choice is selected. */
    method HandleCustomInput(selectedValue: string, customText: string)
      modifies this
      ensures selectedValue == CustomValue ==> clinicName == JsTrim(customText)
      ensures selectedValue != CustomValue ==> clinicName == old(clinicName)
      ensures customVisible == old(customVisible) && options == old(options) && translate == old(translate)
      ensures SameStatus() && SameLocationMessage() && SameLocation()
    {
      if selectedValue == CustomValue {
        clinicName := JsTrim(customText);
      }
    }

    /** `populateClinicsSelect`: a failed request leaves the select alone;
        otherwise it is rebuilt from the list (from nothing when the reply
        is not a list). */
    method PopulateClinicsSelect(response: ClinicsResponse)
      modifies this
      ensures response.RequestFailed? ==> options == old(options)
      ensures response.NotAList? ==> options == SelectOptions(translate, [])
      ensures response.Clinics? ==> options == SelectOptions(translate, response.entries)
      ensures SameStatus() && SameLocationMessage() && SameLocation()
      ensures customVisible == old(customVisible) && clinicName == old(clinicName) && translate == old(translate)
    {
      if response.RequestFailed? {
        return;
      }
      var clinics := if response.Clinics? then response.entries else [];
      options := BuildOptions(translate, clinics);
    }

    /** The language-change handler: with the new translation, the
        remembered messages are shown again without being forgotten or
        replaced, and the select's own labels are translated anew. */
    method OnLanguageChange(t: Translator)
      modifies this
      ensures translate == t
      ensures lastStatusSpec == old(lastStatusSpec) && lastLocationSpec == old(lastLocationSpec)
      ensures lastStatusSpec.Some? ==>
        statusText == t(lastStatusSpec.value.spec.key, lastStatusSpec.value.spec.params)
        && statusKind == lastStatusSpec.value.kind
      ensures lastStatusSpec.None? ==> statusText == old(statusText) && statusKind == old(statusKind)
      ensures lastLocationSpec.Some? ==>
        locationText == t(lastLocationSpec.value.spec.key, lastLocationSpec.value.spec.params)
        && locationMark == MarkFor(lastLocationSpec.value.kind)
      ensures lastLocationSpec.None? ==> locationText == old(locationText) && locationMark == old(locationMark)
      ensures options == Relocalized(t, old(options))
      ensures SameLocation() && customVisible == old(customVisible) && clinicName == old(clinicName)
    {
      translate := t;
      if lastStatusSpec.Some? {
        var s := lastStatusSpec.value;
        SetStatus(Keyed(s.spec.key, Some(s.spec.params)), s.kind, true);
      }
      if lastLocationSpec.Some? {
        var s := lastLocationSpec.value;
        SetLocationMessage(Keyed(s.spec.key, Some(s.spec.params)), s.kind, true);
      }
      options := Relocalized(t, options);
    }

    /** The submit handler up to the request: a failed check is shown as an
        error and nothing is sent; otherwise the submission is returned and
        the status says it is being sent. */
    method Submit(checkIn: Option<int>, checkOut: Option<int>, condition: string) returns (request: Option<Submission>)
      modifies this
      ensures var v := ValidateSubmission(old(locationReady), old(clinicName), old(latitude), old(longitude), checkIn, checkOut, condition);
        && (v.Rejected? ==> request.None? && lastStatusSpec == Some(TypedSpec(Spec(v.key, map[]), Error))
                            && statusText == translate(v.key, map[]) && statusKind == Error)
        && (v.Accepted? ==> request == Some(v.submission) && lastStatusSpec == Some(TypedSpec(Spec(Submitting, map[]), Info))
                            && statusText == translate(Submitting, map[]) && statusKind == Info)
      ensures SameLocationMessage() && SameLocation() && SameChoice()
    {
      var v := ValidateSubmission(locationReady, clinicName, latitude, longitude, checkIn, checkOut, condition);
      if v.Rejected? {
        SetStatus(Keyed(v.key, None), Error, false);
        return None;
      }
      SetStatus(Keyed(Submitting, None), Info, false);
      return Some(v.submission);
    }
  }

  /** `applyTranslations` over the select: options with a translation key
      get that key's text again, the others keep their labels. */
  function Relocalized(t: Translator, opts: seq<SelectOption>): (r: seq<SelectOption>)
    ensures |r| == |opts|
    ensures forall i :: 0 <= i < |opts| ==> r[i] == if opts[i].i18nKey.Some? then opts[i].(caption := t(opts[i].i18nKey.value, map[])) else opts[i]
  {
    seq(|opts|, i requires 0 <= i < |opts| =>
      if opts[i].i18nKey.Some? then opts[i].(caption := t(opts[i].i18nKey.value, map[])) else opts[i])
  }

  /** After a change of language, the select's first and last options are
      exactly the placeholder and the custom choice a fresh population
      under the new language would build. */
  lemma RelocalizedPlaceholderAndCustom(t: Translator, t2: Translator, clinics: seq<ClinicEntry>)
    ensures var r := Relocalized(t2, SelectOptions(t, clinics));
      r[0] == PlaceholderOption(t2) && r[|r| - 1] == CustomOption(t2)
  {
    SelectOptionsShape(t, clinics);
  }
}
