/** The report filter of the home map (src/pages/home-map-view/components/MapContainer.jsx):
    which reports get a marker for the current search query. */
module MapFilter {
  import opened Text
  import opened Seqs
  import opened ReportModel

  /** The lower-cased query occurs in the lower-cased title, description,
      city or category; the id is not searched. */
  predicate MapHit(query: string, r: Report) {
    var q := Lower(query);
    Contains(Lower(r.title), q) || Contains(Lower(r.description), q)
    || Contains(Lower(r.city), q) || Contains(Lower(r.category), q)
  }

  /** The reports that get a marker: all of them for an empty query. */
  function MapReports(reports: seq<Report>, query: string): (r: seq<Report>)
    ensures query == "" ==> r == reports
    ensures IsSubseq(r, reports)
    ensures forall x :: x in r <==> x in reports && (query == "" || MapHit(query, x))
  {
    if query == "" then
      SubseqRefl(reports);
      reports
    else
      FilterSubseq(reports, (x: Report) => MapHit(query, x));
      Filter(reports, (x: Report) => MapHit(query, x))
  }

  /** Whether a report shows does not depend on its id. */
  lemma MapHitIgnoresId(query: string, r: Report, id: string)
    ensures MapHit(query, r) == MapHit(query, r.(id := id))
  {
  }

  /** A query that differs only in letter case selects the same reports. */
  lemma {:induction false} MapReportsIgnoreCase(reports: seq<Report>, query: string)
    requires query != ""
    ensures MapReports(reports, Lower(query)) == MapReports(reports, query)
  {
    LowerIdempotent(query);
    FilterAgree(reports, (x: Report) => MapHit(Lower(query), x), (x: Report) => MapHit(query, x));
  }

  /** A report whose lower-case title contains the lower-cased query keeps
      its marker. */
  lemma {:induction false} TitleMatchShows(reports: seq<Report>, query: string, r: Report)
    requires r in reports && NoUpper(r.title)
    requires Contains(r.title, Lower(query))
    ensures r in MapReports(reports, query)
  {
    LowerNoUpper(r.title);
  }
}
