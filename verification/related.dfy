/** The related reports panel of the details page
    (src/pages/report-details/components/RelatedReports.jsx): the built-in
    list without the report on screen, and the relative day labels. */
module Related {
  import opened Text
  import opened Seqs

  /** The fields of a related entry that its behaviour depends on. */
  datatype RelatedReport = RelatedReport(id: string, title: string, category: string, status: string)

  /** The built-in entries, in display order. */
  const MockRelated: seq<RelatedReport> := [
    RelatedReport("RPT-2024-0892", "Broken streetlight near bus stop", "streetlight", "pending"),
    RelatedReport("RPT-2024-0893", "Pothole causing traffic issues", "road", "in_progress"),
    RelatedReport("RPT-2024-0894", "Garbage not collected for 3 days", "garbage", "pending")]

  /** The list without the report currently shown, other entries in order. */
  function ExcludeCurrent(pool: seq<RelatedReport>, currentId: string): (r: seq<RelatedReport>)
    ensures forall x :: x in r ==> x.id != currentId
    ensures forall x :: x in pool && x.id != currentId ==> x in r
    ensures IsSubseq(r, pool)
  {
    FilterSubseq(pool, (x: RelatedReport) => x.id != currentId);
    Filter(pool, (x: RelatedReport) => x.id != currentId)
  }

  /** The panel renders only when something is left to show. */
  predicate Renders(list: seq<RelatedReport>) {
    |list| != 0
  }

  /** Removing the entries of one id drops exactly the entries that carry
      it. */
  lemma {:induction false} ExcludeDropsOnlyThatId(pool: seq<RelatedReport>, currentId: string)
    ensures |ExcludeCurrent(pool, currentId)| + Count(pool, (x: RelatedReport) => x.id == currentId) == |pool|
    decreases |pool|
  {
    if |pool| > 0 {
      ExcludeDropsOnlyThatId(pool[1..], currentId);
      if pool[0].id != currentId {
        assert ExcludeCurrent(pool, currentId) == [pool[0]] + ExcludeCurrent(pool[1..], currentId);
      }
    }
  }

  /** The built-in ids are distinct, so the panel always keeps at least two
      entries and always renders. */
  lemma MockPanelAlwaysRenders(currentId: string)
    ensures |ExcludeCurrent(MockRelated, currentId)| >= 2
    ensures Renders(ExcludeCurrent(MockRelated, currentId))
  {
    var p := (x: RelatedReport) => x.id == currentId;
    ExcludeDropsOnlyThatId(MockRelated, currentId);
    var a, b, c := MockRelated[0].id, MockRelated[1].id, MockRelated[2].id;
    assert a[12] == '2' && b[12] == '3' && c[12] == '4';
    assert MockRelated[1..][1..][1..] == [];
    assert Count(MockRelated, p) <= 1;
  }

  // ---------------------------------------------------------------------
  // formatDate

  const MsPerDay: nat := 1000 * 60 * 60 * 24

  /** A relative label, or the absolute date (formatted by the locale). */
  datatype DateLabel = Relative(text: string) | Absolute(at: int)

  function Abs(x: int): nat {
    if x < 0 then -x else x
  }

  /** `formatDate` for a timestamp `date` seen at time `now`, both in
      milliseconds. */
  function FormatDate(date: int, now: int): (l: DateLabel)
    ensures l == Relative("Today") <==> Abs(now - date) < MsPerDay
    ensures l == Relative("Yesterday") <==> MsPerDay <= Abs(now - date) < 2 * MsPerDay
    ensures l.Absolute? <==> Abs(now - date) >= 7 * MsPerDay
    ensures l.Absolute? ==> l.at == date
    ensures l.Relative? && l.text != "Today" && l.text != "Yesterday" ==>
              exists n: nat :: 2 <= n < 7 && l.text == NatToString(n) + " days ago"
                               && n * MsPerDay <= Abs(now - date) < (n + 1) * MsPerDay
  {
    var days := Abs(now - date) / MsPerDay;
    DivBounds(Abs(now - date), MsPerDay);
    if days == 0 then Relative("Today")
    else if days == 1 then Relative("Yesterday")
    else if days < 7 then
      DaysAgoText(days);
      Relative(NatToString(days) + " days ago")
    else Absolute(date)
  }

  /** `floor(x / d)` is the `n` with `n * d <= x < (n + 1) * d`. */
  lemma DivBounds(x: nat, d: nat)
    requires d > 0
    ensures (x / d) * d <= x < (x / d + 1) * d
  {
  }

  /** The "n days ago" texts differ from the two named labels. */
  lemma DaysAgoText(n: nat)
    ensures NatToString(n) + " days ago" != "Today"
    ensures NatToString(n) + " days ago" != "Yesterday"
  {
    var t := NatToString(n) + " days ago";
    assert t[|t| - 1] == 'o';
  }

  /** Past and future dates at the same distance get the same relative
      label: the distance is taken with `abs`. */
  lemma FormatDateSymmetric(now: int, k: nat)
    ensures FormatDate(now - k, now).Relative? <==> FormatDate(now + k, now).Relative?
    ensures FormatDate(now - k, now).Relative? ==> FormatDate(now - k, now) == FormatDate(now + k, now)
  {
    assert Abs(now - (now - k)) == Abs(now - (now + k));
  }
}
