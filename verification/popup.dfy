/**
 * The map popup of an accessibility report: which text each property of
 * the GeoJSON feature contributes, with the `??` defaults (only for null
 * or undefined) and the `||` defaults (for any falsy value), and the HTML
 * they are interpolated into, unescaped, as the source does.
 */
module Popup {
  import opened Common

  /** A feature property as JavaScript sees it. A number is represented by
      its `String` rendering. */
  datatype Field = Absent | NullValue | Text(text: string)

  datatype Properties = Properties(
    imageUrl: Field,
    description: Field,
    labels: Option<seq<string>>,   // `None` for null or undefined
    matchSummary: Field,
    confidence: Field,
    reportId: Field)

  /** Template interpolation `${v}`. */
  function Interpolate(f: Field): string {
    match f
    case Absent => "undefined"
    case NullValue => "null"
    case Text(s) => s
  }

  /** `f ?? fallback`. */
  function Coalesce(f: Field, fallback: string): (r: string)
    ensures f.Text? ==> r == f.text
    ensures !f.Text? ==> r == fallback
  {
    if f.Text? then f.text else fallback
  }

  predicate IsTruthy(f: Field) {
    f.Text? && f.text != ""
  }

  const DefaultHeading := "Accessibility feature"
  const Separator := ", "

  datatype PopupParts = PopupParts(
    heading: string,
    labels: string,
    verdict: string,
    confidence: string,
    imageLink: string,
    reportId: string)

  function ImageLink(url: string): string {
    "<p><a href=\"" + url + "\" target=\"_blank\" rel=\"noopener\">View supporting image</a></p>"
  }

  /** The joined labels, `n/a` when that text is empty. */
  function LabelsText(labels: Option<seq<string>>): (r: string)
    ensures r != ""
  {
    var joined := Join(if labels.Some? then labels.value else [], Separator);
    if joined == "" then "n/a" else joined
  }

  /** What each property contributes to the popup. */
  function PartsOf(p: Properties): (r: PopupParts)
    ensures r.imageLink != "" <==> IsTruthy(p.imageUrl)
    ensures IsTruthy(p.imageUrl) ==> r.imageLink == ImageLink(p.imageUrl.text)
    ensures p.description.Text? ==> r.heading == p.description.text
    ensures !p.description.Text? ==> r.heading == DefaultHeading
    ensures p.matchSummary.Text? ==> r.verdict == p.matchSummary.text
    ensures !p.matchSummary.Text? ==> r.verdict == "pending"
    ensures p.confidence.Text? ==> r.confidence == p.confidence.text
    ensures !p.confidence.Text? ==> r.confidence == "n/a"
    ensures r.reportId == Interpolate(p.reportId)
  {
    PopupParts(
      Coalesce(p.description, DefaultHeading),
      LabelsText(p.labels),
      Coalesce(p.matchSummary, "pending"),
      Coalesce(p.confidence, "n/a"),
      if IsTruthy(p.imageUrl) then ImageLink(p.imageUrl.text) else "",
      Interpolate(p.reportId))
  }

  /** `buildPopup`: the parts in the popup's template, which opens with the
      heading. */
  function BuildPopup(p: Properties): (r: string)
    ensures var opening := "\n    <h3>" + PartsOf(p).heading + "</h3>";
      |r| >= |opening| && r[..|opening|] == opening
  {
    var parts := PartsOf(p);
    var opening := "\n    <h3>" + parts.heading + "</h3>";
    var rest := "\n    <p><strong>Detected labels:</strong> " + parts.labels
      + "</p>\n    <p><strong>AI verdict:</strong> " + parts.verdict + " (confidence: " + parts.confidence
      + "%)</p>\n    " + parts.imageLink + "\n    <p><small>Report ID: " + parts.reportId + "</small></p>\n  ";
    assert (opening + rest)[..|opening|] == opening;
    opening + rest
  }

  /** Joining with a non-empty separator gives the empty text only for no
      labels or a single empty one. */
  lemma {:induction false} JoinIsEmpty(parts: seq<string>, sep: string)
    requires sep != ""
    ensures Join(parts, sep) == "" <==> parts == [] || parts == [""]
  {
    if |parts| > 1 {
      var init := parts[..|parts| - 1];
      assert |Join(init, sep) + sep + parts[|parts| - 1]| >= |sep|;
    }
  }

  /** The labels are shown as they are joined, and `n/a` replaces them
      exactly when there are none or only one empty label. */
  lemma LabelsDefault(labels: Option<seq<string>>)
    ensures var given := if labels.Some? then labels.value else [];
      && (given == [] || given == [""] ==> LabelsText(labels) == "n/a")
      && (!(given == [] || given == [""]) ==> LabelsText(labels) == Join(given, Separator))
  {
    JoinIsEmpty(if labels.Some? then labels.value else [], Separator);
  }

  /** The popup ends with the report id line, whatever the other parts. */
  lemma PopupEndsWithReportId(p: Properties)
    ensures var tail := "\n    <p><small>Report ID: " + Interpolate(p.reportId) + "</small></p>\n  ";
      |BuildPopup(p)| >= |tail| && BuildPopup(p)[|BuildPopup(p)| - |tail|..] == tail
  {
    var parts := PartsOf(p);
    var opening := "\n    <h3>" + parts.heading + "</h3>";
    var middle := "\n    <p><strong>Detected labels:</strong> " + parts.labels
      + "</p>\n    <p><strong>AI verdict:</strong> " + parts.verdict + " (confidence: " + parts.confidence
      + "%)</p>\n    " + parts.imageLink;
    var tail := "\n    <p><small>Report ID: " + Interpolate(p.reportId) + "</small></p>\n  ";
    assert BuildPopup(p) == opening + (middle + tail);
    assert opening + (middle + tail) == (opening + middle) + tail;
  }
}
