/** The report adapter (`mapDocToReport`, src/lib/data.js): a total
    function from a backend document to the normalised report every page
    renders. */
module ReportModel {
  import opened Wrappers
  import opened Text

  /** Fields of a stored report document.  Each may be absent (`undefined`
      or `null`); timestamps are milliseconds and coordinates are degrees.
      `extra` holds the fields the adapter does not promote (contact
      details, priority, ...), kept verbatim. */
  datatype RawData = RawData(
    title: Option<string>,
    description: Option<string>,
    category: Option<string>,
    city: Option<string>,
    lat: Option<real>,
    lng: Option<real>,
    photoURL: Option<string>,
    status: Option<string>,
    createdAt: Option<int>,
    updatedAt: Option<int>,
    extra: map<string, string>)

  /** A document snapshot: its key and its data, which is `undefined` when
      the document has no fields. */
  datatype Document = Document(id: string, data: Option<RawData>)

  datatype Coordinates = Coordinates(lat: real, lng: real)

  /** The normalised report. */
  datatype Report = Report(
    id: string,
    title: string,
    description: string,
    category: string,
    city: string,
    coordinates: Coordinates,
    photoUrl: string,
    status: string,
    createdAt: Option<int>,
    updatedAt: Option<int>,
    raw: RawData)

  const UntitledReport := "Untitled report"
  const Pending := "pending"
  const InProgress := "in_progress"
  const Completed := "completed"
  const Rejected := "rejected"

  /** The `{}` that replaces missing document data. */
  const EmptyData := RawData(None, None, None, None, None, None, None, None, None, None, map[])

  /** JavaScript `v || fallback` for a string that may be absent: absent and
      empty strings are falsy. */
  function OrString(v: Option<string>, fallback: string): (r: string)
    ensures (v == None || v == Some("")) ==> r == fallback
    ensures v.Some? && v.value != "" ==> r == v.value
  {
    if v.Some? && v.value != "" then v.value else fallback
  }

  /** JavaScript `t || null` for a millisecond timestamp: 0 is falsy. */
  function OrNull(t: Option<int>): (r: Option<int>)
    ensures r == None <==> (t == None || t == Some(0))
    ensures r.Some? ==> r == t
  {
    if t.Some? && t.value != 0 then t else None
  }

  /** JavaScript `v ?? 0`: only a missing value is replaced. */
  function OrZero(v: Option<real>): (r: real)
    ensures v.Some? ==> r == v.value
    ensures v.None? ==> r == 0.0
  {
    v.GetOr(0.0)
  }

  /** The category key: lower-cased, then every whitespace run becomes `_`. */
  function NormalizeCategory(s: string): (r: string)
    ensures NoSpace(r) && NoUpper(r)
  {
    var r := CollapseSpaces(Lower(s));
    assert NoUpper(r) by { CollapseKeepsNoUpper(Lower(s)); }
    r
  }

  lemma {:induction false} CollapseKeepsNoUpper(s: string)
    requires NoUpper(s)
    ensures NoUpper(CollapseSpaces(s))
    decreases |s|
  {
    if |s| > 0 {
      var tail := s[1..];
      NoUpperSuffix(s, 1);
      CollapseCons(s[0], tail);
      assert s == [s[0]] + tail;
      if IsSpace(s[0]) {
        var d := DropSpaces(tail);
        NoUpperSuffix(tail, |tail| - |d|);
        CollapseKeepsNoUpper(d);
        NoUpperCons('_', CollapseSpaces(d));
      } else {
        CollapseKeepsNoUpper(tail);
        NoUpperCons(s[0], CollapseSpaces(tail));
      }
    }
  }

  /** Normalising a category key again changes nothing. */
  lemma NormalizeCategoryIdempotent(s: string)
    ensures NormalizeCategory(NormalizeCategory(s)) == NormalizeCategory(s)
  {
    var n := NormalizeCategory(s);
    LowerNoUpper(n);
    CollapseNoSpace(n);
  }

  /** `mapDocToReport`. */
  function MapDocToReport(d: Document): (r: Report)
    ensures r.id == d.id
    ensures r.raw == d.data.GetOr(EmptyData)
  {
    var data := d.data.GetOr(EmptyData);
    Report(
      d.id,
      OrString(data.title, UntitledReport),
      OrString(data.description, ""),
      NormalizeCategory(OrString(data.category, "")),
      Lower(OrString(data.city, "")),
      Coordinates(OrZero(data.lat), OrZero(data.lng)),
      OrString(data.photoURL, ""),
      Lower(OrString(data.status, Pending)),
      OrNull(data.createdAt),
      OrNull(data.updatedAt),
      data)
  }

  /** The title is kept verbatim when present and non-empty, and is the
      placeholder otherwise; the description defaults to the empty string. */
  lemma AdapterTitleAndDescription(d: Document)
    ensures var data := d.data.GetOr(EmptyData);
            var r := MapDocToReport(d);
            && (data.title.Some? && data.title.value != "" ==> r.title == data.title.value)
            && (data.title == None || data.title == Some("") ==> r.title == UntitledReport)
            && (data.description.Some? && data.description.value != "" ==> r.description == data.description.value)
            && (data.description == None || data.description == Some("") ==> r.description == "")
            && r.title != ""
  {
  }

  /** The category is lower-case, free of whitespace, and a fixed point of
      its own normalisation; a missing category becomes `""`. */
  lemma AdapterCategory(d: Document)
    ensures var r := MapDocToReport(d);
            && NoSpace(r.category) && NoUpper(r.category)
            && NormalizeCategory(r.category) == r.category
            && (d.data.GetOr(EmptyData).category == None ==> r.category == "")
  {
    var data := d.data.GetOr(EmptyData);
    NormalizeCategoryIdempotent(OrString(data.category, ""));
  }

  /** The city is lower-cased only: every character keeps its position and
      whitespace survives. */
  lemma AdapterCity(d: Document)
    ensures var data := d.data.GetOr(EmptyData);
            var c := OrString(data.city, "");
            var r := MapDocToReport(d);
            && |r.city| == |c|
            && (forall i :: 0 <= i < |c| ==> r.city[i] == LowerChar(c[i]))
            && (NoSpace(r.city) <==> NoSpace(c))
  {
    var data := d.data.GetOr(EmptyData);
    LowerKeepsSpaces(OrString(data.city, ""));
  }

  /** Coordinates default to 0 only when missing; a stored 0 stays 0. */
  lemma AdapterCoordinates(d: Document)
    ensures var data := d.data.GetOr(EmptyData);
            var r := MapDocToReport(d);
            && (data.lat.Some? ==> r.coordinates.lat == data.lat.value)
            && (data.lat.None? ==> r.coordinates.lat == 0.0)
            && (data.lng.Some? ==> r.coordinates.lng == data.lng.value)
            && (data.lng.None? ==> r.coordinates.lng == 0.0)
  {
  }

  /** A missing or empty status becomes `pending`; any other status is only
      lower-cased, with no check against the status vocabulary. */
  lemma AdapterStatus(d: Document)
    ensures var data := d.data.GetOr(EmptyData);
            var r := MapDocToReport(d);
            && (data.status == None || data.status == Some("") ==> r.status == Pending)
            && (data.status.Some? && data.status.value != "" ==> r.status == Lower(data.status.value))
            && NoUpper(r.status)
  {
  }

  /** Missing or zero timestamps become null, others are kept. */
  lemma AdapterTimestamps(d: Document)
    ensures var data := d.data.GetOr(EmptyData);
            var r := MapDocToReport(d);
            && (r.createdAt == None <==> data.createdAt == None || data.createdAt == Some(0))
            && (r.createdAt.Some? ==> r.createdAt == data.createdAt)
            && (r.updatedAt == None <==> data.updatedAt == None || data.updatedAt == Some(0))
            && (r.updatedAt.Some? ==> r.updatedAt == data.updatedAt)
  {
  }

  /** A document that has nothing but its key yields the fully defaulted
      report. */
  lemma AdapterBareDocument(id: string)
    ensures MapDocToReport(Document(id, None))
            == Report(id, UntitledReport, "", "", "", Coordinates(0.0, 0.0), "", Pending, None, None, EmptyData)
  {
  }

  lemma {:induction false} StreetLightsPieces()
    ensures NoSpace("street") && NoSpace("lights")
    ensures "street lights" == "street" + " " + "lights"
    ensures "street" + "_" + "lights" == "street_lights"
  {
  }

  lemma {:induction false} StreetLightsLower()
    ensures Lower("Street Lights") == "street lights"
  {
    var l := Lower("Street Lights");
    assert l[0] == LowerChar('S') == 's';
    assert l[7] == LowerChar('L') == 'l';
  }

  /** `"Street Lights"` becomes `"street_lights"`. */
  lemma {:induction false} StreetLightsExample()
    ensures NormalizeCategory("Street Lights") == "street_lights"
  {
    StreetLightsPieces();
    StreetLightsLower();
    CollapseNoSpace("street");
    CollapseNoSpace("lights");
    CollapseRun("street", " ", "lights");
  }

  /** A status outside the vocabulary is kept (lower-cased), not replaced. */
  lemma UnknownStatusKept()
    ensures MapDocToReport(Document("r1", Some(EmptyData.(status := Some("Bogus"))))).status == "bogus"
  {
  }

  /** `reports.map(r => r.id)`. */
  function Ids(rs: seq<Report>): (ids: seq<string>)
    ensures |ids| == |rs|
    ensures forall i :: 0 <= i < |rs| ==> ids[i] == rs[i].id
  {
    seq(|rs|, i requires 0 <= i < |rs| => rs[i].id)
  }
}
