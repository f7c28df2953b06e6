/** Admin dashboard state (src/pages/admin-dashboard/index.jsx): the full
    report list, the filtered list the table shows, the selected ids and
    the toast, with the filter, optimistic status update and bulk update
    transitions. */
module Dashboard {
  import opened Wrappers
  import opened Text
  import opened Seqs
  import opened ReportModel
  import Metrics

  /** The record the filter toolbar emits. */
  datatype Criteria = Criteria(search: string, city: string, category: string, status: string)

  datatype ToastKind = Success | Error

  datatype Toast = Toast(message: string, kind: ToastKind, isVisible: bool)

  datatype State = State(reports: seq<Report>, filtered: seq<Report>, selected: seq<string>, toast: Toast)

  const HiddenToast := Toast("", Success, false)

  const Initial := State([], [], [], HiddenToast)

  /** The load effect: both lists become the fetched rows. */
  function Loaded(s: State, rows: seq<Report>): (r: State)
    ensures r.reports == rows && r.filtered == rows
    ensures r.selected == s.selected && r.toast == s.toast
  {
    s.(reports := rows, filtered := rows)
  }

  // ---------------------------------------------------------------------
  // handleFilterChange

  /** A select criterion that is empty or `'all'` imposes nothing. */
  predicate Skipped(v: string) {
    v == "" || v == "all"
  }

  /** The search clause: the lower-cased term occurs in the lower-cased
      title, description or id. */
  predicate SearchHit(term: string, r: Report) {
    var t := Lower(term);
    Contains(Lower(r.title), t) || Contains(Lower(r.description), t) || Contains(Lower(r.id), t)
  }

  /** One `filtered = filtered.filter(p)` step, guarded by its criterion. */
  function Stage(s: seq<Report>, skip: bool, p: Report -> bool): seq<Report> {
    if skip then s else Filter(s, p)
  }

  function SearchTest(c: Criteria): Report -> bool {
    (r: Report) => SearchHit(c.search, r)
  }

  function CityTest(c: Criteria): Report -> bool {
    (r: Report) => r.city == c.city
  }

  function CategoryTest(c: Criteria): Report -> bool {
    (r: Report) => r.category == c.category
  }

  function StatusTest(c: Criteria): Report -> bool {
    (r: Report) => r.status == c.status
  }

  /** `handleFilterChange`'s list: four successive filters of the FULL list,
      each skipped when its criterion is unset; the select clauses compare
      with case-sensitive equality. */
  function ApplyFilters(reports: seq<Report>, c: Criteria): seq<Report> {
    var afterSearch := Stage(reports, c.search == "", SearchTest(c));
    var afterCity := Stage(afterSearch, Skipped(c.city), CityTest(c));
    var afterCategory := Stage(afterCity, Skipped(c.category), CategoryTest(c));
    Stage(afterCategory, Skipped(c.status), StatusTest(c))
  }

  /** When a report passes the filter: the four clauses, each vacuous when
      its criterion is unset. */
  predicate Matches(c: Criteria, r: Report) {
    && (c.search == "" || SearchHit(c.search, r))
    && (Skipped(c.city) || r.city == c.city)
    && (Skipped(c.category) || r.category == c.category)
    && (Skipped(c.status) || r.status == c.status)
  }

  /** One filter stage equals filtering by its clause, which is vacuous when
      the stage is skipped. */
  lemma {:induction false} StageIsFilter(s: seq<Report>, skip: bool, p: Report -> bool, clause: Report -> bool)
    requires forall i :: 0 <= i < |s| ==> clause(s[i]) == (skip || p(s[i]))
    ensures Stage(s, skip, p) == Filter(s, clause)
  {
    if skip {
      FilterKeepsAll(s, clause);
    } else {
      FilterAgree(s, p, clause);
    }
  }

  /** The four clauses as predicates, and their running conjunctions. */
  function SearchClause(c: Criteria): Report -> bool {
    (r: Report) => c.search == "" || SearchHit(c.search, r)
  }

  function CityClause(c: Criteria): Report -> bool {
    (r: Report) => Skipped(c.city) || r.city == c.city
  }

  function CategoryClause(c: Criteria): Report -> bool {
    (r: Report) => Skipped(c.category) || r.category == c.category
  }

  function StatusClause(c: Criteria): Report -> bool {
    (r: Report) => Skipped(c.status) || r.status == c.status
  }

  function UpToCity(c: Criteria): Report -> bool {
    (r: Report) => SearchClause(c)(r) && CityClause(c)(r)
  }

  function UpToCategory(c: Criteria): Report -> bool {
    (r: Report) => UpToCity(c)(r) && CategoryClause(c)(r)
  }

  function MatchesOf(c: Criteria): Report -> bool {
    (r: Report) => Matches(c, r)
  }

  lemma SearchStage(s: seq<Report>, c: Criteria)
    ensures Stage(s, c.search == "", SearchTest(c)) == Filter(s, SearchClause(c))
  {
    StageIsFilter(s, c.search == "", SearchTest(c), SearchClause(c));
  }

  lemma CityStage(s: seq<Report>, c: Criteria)
    ensures Stage(s, Skipped(c.city), CityTest(c)) == Filter(s, CityClause(c))
  {
    StageIsFilter(s, Skipped(c.city), CityTest(c), CityClause(c));
  }

  lemma CategoryStage(s: seq<Report>, c: Criteria)
    ensures Stage(s, Skipped(c.category), CategoryTest(c)) == Filter(s, CategoryClause(c))
  {
    StageIsFilter(s, Skipped(c.category), CategoryTest(c), CategoryClause(c));
  }

  lemma StatusStage(s: seq<Report>, c: Criteria)
    ensures Stage(s, Skipped(c.status), StatusTest(c)) == Filter(s, StatusClause(c))
  {
    StageIsFilter(s, Skipped(c.status), StatusTest(c), StatusClause(c));
  }

  lemma JoinCity(s: seq<Report>, c: Criteria)
    ensures Filter(Filter(s, SearchClause(c)), CityClause(c)) == Filter(s, UpToCity(c))
  {
    FilterFilter(s, SearchClause(c), CityClause(c), UpToCity(c));
  }

  lemma JoinCategory(s: seq<Report>, c: Criteria)
    ensures Filter(Filter(s, UpToCity(c)), CategoryClause(c)) == Filter(s, UpToCategory(c))
  {
    FilterFilter(s, UpToCity(c), CategoryClause(c), UpToCategory(c));
  }

  lemma JoinStatus(s: seq<Report>, c: Criteria)
    ensures Filter(Filter(s, UpToCategory(c)), StatusClause(c)) == Filter(s, MatchesOf(c))
  {
    forall r ensures MatchesOf(c)(r) == (UpToCategory(c)(r) && StatusClause(c)(r)) {
      assert UpToCategory(c)(r) == (UpToCity(c)(r) && CategoryClause(c)(r));
      assert UpToCity(c)(r) == (SearchClause(c)(r) && CityClause(c)(r));
    }
    FilterFilter(s, UpToCategory(c), StatusClause(c), MatchesOf(c));
  }

  /** The chain of stages is a single filter by `Matches` over the full
      list. */
  lemma {:induction false} ApplyFiltersIsMatches(reports: seq<Report>, c: Criteria)
    ensures ApplyFilters(reports, c) == Filter(reports, MatchesOf(c))
  {
    SearchStage(reports, c);
    var s1 := Filter(reports, SearchClause(c));
    CityStage(s1, c);
    JoinCity(reports, c);
    var s2 := Filter(reports, UpToCity(c));
    CategoryStage(s2, c);
    JoinCategory(reports, c);
    var s3 := Filter(reports, UpToCategory(c));
    StatusStage(s3, c);
    JoinStatus(reports, c);
  }

  /** The filtered list is an order-preserving subsequence of the full
      list, and holds exactly the reports that match. */
  lemma ApplyFiltersSpec(reports: seq<Report>, c: Criteria)
    ensures IsSubseq(ApplyFilters(reports, c), reports)
    ensures forall r :: r in ApplyFilters(reports, c) <==> r in reports && Matches(c, r)
  {
    ApplyFiltersIsMatches(reports, c);
    FilterSubseq(reports, MatchesOf(c));
  }

  /** With every criterion unset the full list comes back unchanged. */
  lemma ApplyFiltersUnset(reports: seq<Report>, c: Criteria)
    requires c.search == "" && Skipped(c.city) && Skipped(c.category) && Skipped(c.status)
    ensures ApplyFilters(reports, c) == reports
  {
  }

  /** The city clause is exact: a criterion differing only in case from
      every city keeps nothing. */
  lemma CityFilterIsCaseSensitive(r: Report)
    requires r.city == "mumbai"
    ensures !Matches(Criteria("", "Mumbai", "all", "all"), r)
  {
  }

  /** `handleFilterChange`: re-filter the full list and clear the selection. */
  function HandleFilterChange(s: State, c: Criteria): (r: State)
    ensures r.reports == s.reports && r.toast == s.toast
    ensures r.selected == []
    ensures IsSubseq(r.filtered, s.reports)
    ensures forall x :: x in r.filtered <==> x in s.reports && Matches(c, x)
  {
    ApplyFiltersSpec(s.reports, c);
    s.(filtered := ApplyFilters(s.reports, c), selected := [])
  }

  // ---------------------------------------------------------------------
  // Status updates

  /** The report with a new status and a fresh `updated_at`. */
  function Restatus(r: Report, status: string, now: int): Report {
    r.(status := status, updatedAt := Some(now))
  }

  /** `rs.map(r => targets includes r.id ? {...r, status, updated_at} : r)`. */
  function MarkTargets(rs: seq<Report>, targets: seq<string>, status: string, now: int): (out: seq<Report>)
    ensures |out| == |rs|
    ensures forall i :: 0 <= i < |rs| && rs[i].id in targets ==> out[i] == Restatus(rs[i], status, now)
    ensures forall i :: 0 <= i < |rs| && rs[i].id !in targets ==> out[i] == rs[i]
  {
    if |rs| == 0 then []
    else [if rs[0].id in targets then Restatus(rs[0], status, now) else rs[0]]
         + MarkTargets(rs[1..], targets, status, now)
  }

  /** `b` differs from `a` at most in status and `updated_at`. */
  predicate OnlyStatusChanged(a: Report, b: Report) {
    b == a.(status := b.status, updatedAt := b.updatedAt)
  }

  /** `replace('_', ' ')` on a status, as shown in toasts. */
  function StatusText(status: string): string {
    ReplaceFirst(status, '_', ' ')
  }

  /** The toast of a confirmed single update. */
  function UpdatedToast(id: string, status: string): Toast {
    Toast("Report " + id + " status updated to " + StatusText(status), Success, true)
  }

  const FailedToast := Toast("Failed to update status. Please try again.", Error, true)

  /** What `handleStatusUpdate` keeps while the backend call is in flight:
      copies of both lists taken before the optimistic change. */
  datatype Snapshot = Snapshot(prevReports: seq<Report>, prevFiltered: seq<Report>, reportId: string, newStatus: string)

  /** The optimistic half of `handleStatusUpdate`: snapshot both lists, then
      give every entry with the target id the new status in both. */
  function BeginStatusUpdate(s: State, id: string, status: string, now: int): (r: (State, Snapshot))
    ensures r.1 == Snapshot(s.reports, s.filtered, id, status)
    ensures r.0.selected == s.selected && r.0.toast == s.toast
    ensures |r.0.reports| == |s.reports| && |r.0.filtered| == |s.filtered|
    ensures forall i :: 0 <= i < |s.reports| ==>
              && OnlyStatusChanged(s.reports[i], r.0.reports[i])
              && (s.reports[i].id == id ==> r.0.reports[i].status == status && r.0.reports[i].updatedAt == Some(now))
              && (s.reports[i].id != id ==> r.0.reports[i] == s.reports[i])
    ensures forall i :: 0 <= i < |s.filtered| ==>
              && OnlyStatusChanged(s.filtered[i], r.0.filtered[i])
              && (s.filtered[i].id == id ==> r.0.filtered[i].status == status && r.0.filtered[i].updatedAt == Some(now))
              && (s.filtered[i].id != id ==> r.0.filtered[i] == s.filtered[i])
  {
    var snap := Snapshot(s.reports, s.filtered, id, status);
    (s.(reports := MarkTargets(s.reports, [id], status, now),
        filtered := MarkTargets(s.filtered, [id], status, now)), snap)
  }

  /** The settling half: on success the optimistic lists stay and a success
      toast shows; on failure both lists are replaced by the snapshot. */
  function SettleStatusUpdate(s: State, snap: Snapshot, backendOk: bool): (r: State)
    ensures r.selected == s.selected
    ensures backendOk ==> r.reports == s.reports && r.filtered == s.filtered
    ensures backendOk ==> r.toast == UpdatedToast(snap.reportId, snap.newStatus)
    ensures !backendOk ==> r.reports == snap.prevReports && r.filtered == snap.prevFiltered
    ensures !backendOk ==> r.toast == FailedToast
  {
    if backendOk then s.(toast := UpdatedToast(snap.reportId, snap.newStatus))
    else s.(reports := snap.prevReports, filtered := snap.prevFiltered, toast := FailedToast)
  }

  /** `handleStatusUpdate` with the backend outcome as an input. */
  function HandleStatusUpdate(s: State, id: string, status: string, now: int, backendOk: bool): (r: State)
    ensures r.selected == s.selected
    ensures r.toast == UpdatedToast(id, status) <==> backendOk
    ensures !backendOk ==> r.reports == s.reports && r.filtered == s.filtered
    ensures backendOk ==> |r.reports| == |s.reports| && |r.filtered| == |s.filtered|
    ensures backendOk ==> forall i :: 0 <= i < |s.reports| && s.reports[i].id == id ==>
                            r.reports[i].status == status && r.reports[i].updatedAt == Some(now)
  {
    var (optimistic, snap) := BeginStatusUpdate(s, id, status, now);
    SettleStatusUpdate(optimistic, snap, backendOk)
  }

  /** A failed update restores both lists exactly, keeps the selection and
      reports the failure once. */
  lemma StatusUpdateRollback(s: State, id: string, status: string, now: int)
    ensures HandleStatusUpdate(s, id, status, now, false) == s.(toast := FailedToast)
  {
  }

  /** A confirmed update changes exactly the entries with the target id, in
      place, and only their status and timestamp. */
  lemma StatusUpdateCommit(s: State, id: string, status: string, now: int)
    ensures var r := HandleStatusUpdate(s, id, status, now, true);
            && |r.reports| == |s.reports| && |r.filtered| == |s.filtered|
            && r.selected == s.selected
            && r.toast == UpdatedToast(id, status)
            && (forall i :: 0 <= i < |s.reports| ==>
                  && OnlyStatusChanged(s.reports[i], r.reports[i])
                  && (s.reports[i].id == id ==> r.reports[i].status == status)
                  && (s.reports[i].id != id ==> r.reports[i] == s.reports[i]))
            && (forall i :: 0 <= i < |s.filtered| ==>
                  && OnlyStatusChanged(s.filtered[i], r.filtered[i])
                  && (s.filtered[i].id == id ==> r.filtered[i].status == status)
                  && (s.filtered[i].id != id ==> r.filtered[i] == s.filtered[i]))
  {
  }

  // ---------------------------------------------------------------------
  // handleBulkStatusUpdate

  function BulkToast(count: nat, status: string): Toast {
    Toast(NatToString(count) + " reports updated to " + StatusText(status), Success, true)
  }

  /** `handleBulkStatusUpdate`: restatus the selected reports, keep in the
      filtered list the updated reports whose id was visible, clear the
      selection.  No backend call is made. */
  function HandleBulkStatusUpdate(s: State, status: string, now: int): (r: State)
    ensures |r.reports| == |s.reports|
    ensures forall i :: 0 <= i < |s.reports| && s.reports[i].id in s.selected ==>
              r.reports[i] == Restatus(s.reports[i], status, now)
    ensures forall i :: 0 <= i < |s.reports| && s.reports[i].id !in s.selected ==>
              r.reports[i] == s.reports[i]
    ensures IsSubseq(r.filtered, r.reports)
    ensures forall x :: x in r.filtered <==> x in r.reports && x.id in Ids(s.filtered)
    ensures r.selected == []
    ensures r.toast == BulkToast(|s.selected|, status)
  {
    var updated := MarkTargets(s.reports, s.selected, status, now);
    var visible := Ids(s.filtered);
    FilterSubseq(updated, IdIn(visible));
    State(updated, Filter(updated, IdIn(visible)), [], BulkToast(|s.selected|, status))
  }

  predicate DistinctIds(rs: seq<Report>) {
    forall i, j :: 0 <= i < j < |rs| ==> rs[i].id != rs[j].id
  }

  /** The dashboard invariant: the visible list is drawn, in order, from the
      full list. */
  predicate Consistent(s: State) {
    IsSubseq(s.filtered, s.reports)
  }

  lemma {:induction false} MarkTargetsIds(rs: seq<Report>, targets: seq<string>, status: string, now: int)
    ensures Ids(MarkTargets(rs, targets, status, now)) == Ids(rs)
  {
  }

  lemma {:induction false} SubseqIds(a: seq<Report>, b: seq<Report>)
    requires IsSubseq(a, b)
    ensures IsSubseq(Ids(a), Ids(b))
    decreases |b|
  {
    if |a| > 0 {
      assert Ids(b)[1..] == Ids(b[1..]);
      if a[0] == b[0] {
        assert Ids(a)[1..] == Ids(a[1..]);
        SubseqIds(a[1..], b[1..]);
      } else {
        SubseqIds(a, b[1..]);
        if Ids(a)[0] == Ids(b)[0] {
          SubseqTail(Ids(a), Ids(b)[1..]);
        }
      }
    }
  }

  /** `filtered.some(f => f.id === report.id)` for the ids `k` of `filtered`. */
  function IdIn(k: seq<string>): Report -> bool {
    (x: Report) => x.id in k
  }

  /** The head of a list with distinct ids occurs nowhere in its tail. */
  lemma HeadIdFresh(rs: seq<Report>)
    requires |rs| > 0 && DistinctIds(rs)
    ensures DistinctIds(rs[1..])
    ensures forall j :: 0 <= j < |rs[1..]| ==> rs[1..][j].id != rs[0].id
    ensures Ids(rs)[1..] == Ids(rs[1..])
  {
    forall j | 0 <= j < |rs[1..]| ensures rs[1..][j].id != rs[0].id {
      assert rs[1..][j] == rs[j + 1];
    }
  }

  /** A head whose id is the first wanted id is kept, and the rest of the
      list is projected on the remaining ids. */
  lemma ProjectHead(rs: seq<Report>, k: seq<string>)
    requires |rs| > 0 && |k| > 0 && k[0] == rs[0].id && DistinctIds(rs)
    requires Ids(Filter(rs[1..], IdIn(k[1..]))) == k[1..]
    ensures Ids(Filter(rs, IdIn(k))) == k
  {
    HeadIdFresh(rs);
    FilterAgree(rs[1..], IdIn(k), IdIn(k[1..]));
    var g := Filter(rs[1..], IdIn(k));
    assert Filter(rs, IdIn(k)) == [rs[0]] + g;
    IdsCons(rs[0], g);
    assert k == [k[0]] + k[1..];
  }

  /** The ids of a list with a known head. */
  lemma IdsCons(r: Report, rs: seq<Report>)
    ensures Ids([r] + rs) == [r.id] + Ids(rs)
  {
    assert forall i :: 1 <= i <= |rs| ==> ([r] + rs)[i] == rs[i - 1];
  }

  /** A head whose id is not wanted is dropped. */
  lemma ProjectSkip(rs: seq<Report>, k: seq<string>)
    requires |rs| > 0 && rs[0].id !in k
    ensures Filter(rs, IdIn(k)) == Filter(rs[1..], IdIn(k))
  {
  }

  /** Keeping the reports whose id occurs in a subsequence `k` of the ids of
      a list with distinct ids gives back exactly `k`. */
  lemma {:induction false} ProjectByIds(rs: seq<Report>, k: seq<string>)
    requires DistinctIds(rs)
    requires IsSubseq(k, Ids(rs))
    ensures Ids(Filter(rs, IdIn(k))) == k
    decreases |rs|
  {
    if |rs| > 0 {
      HeadIdFresh(rs);
      if |k| > 0 && k[0] == rs[0].id {
        ProjectByIds(rs[1..], k[1..]);
        ProjectHead(rs, k);
      } else {
        SubseqMembers(k, Ids(rs[1..]));
        ProjectByIds(rs[1..], k);
        ProjectSkip(rs, k);
      }
    }
  }

  /** With distinct ids and a consistent state, the bulk update keeps
      exactly the rows that were visible, in the same order. */
  lemma BulkKeepsVisibleRows(s: State, status: string, now: int)
    requires Consistent(s) && DistinctIds(s.reports)
    ensures Ids(HandleBulkStatusUpdate(s, status, now).filtered) == Ids(s.filtered)
  {
    var updated := MarkTargets(s.reports, s.selected, status, now);
    MarkTargetsIds(s.reports, s.selected, status, now);
    assert DistinctIds(updated) by {
      forall i, j | 0 <= i < j < |updated| ensures updated[i].id != updated[j].id {
        assert updated[i].id == Ids(updated)[i] == Ids(s.reports)[i];
        assert updated[j].id == Ids(updated)[j] == Ids(s.reports)[j];
      }
    }
    SubseqIds(s.filtered, s.reports);
    ProjectByIds(updated, Ids(s.filtered));
  }

  /** Every transition keeps the visible list a subsequence of the full
      list. */
  lemma TransitionsKeepConsistent(s: State, c: Criteria, id: string, status: string, now: int, ok: bool, rows: seq<Report>)
    requires Consistent(s)
    ensures Consistent(Loaded(s, rows))
    ensures Consistent(HandleFilterChange(s, c))
    ensures Consistent(HandleStatusUpdate(s, id, status, now, ok))
    ensures Consistent(HandleBulkStatusUpdate(s, status, now))
  {
    SubseqRefl(rows);
    if ok {
      MarkTargetsSubseq(s.filtered, s.reports, [id], status, now);
    }
  }

  /** Restatusing both lists alike keeps the subsequence relation. */
  lemma {:induction false} MarkTargetsSubseq(a: seq<Report>, b: seq<Report>, targets: seq<string>, status: string, now: int)
    requires IsSubseq(a, b)
    ensures IsSubseq(MarkTargets(a, targets, status, now), MarkTargets(b, targets, status, now))
    decreases |b|
  {
    if |a| > 0 {
      var ma, mb := MarkTargets(a, targets, status, now), MarkTargets(b, targets, status, now);
      assert mb[1..] == MarkTargets(b[1..], targets, status, now);
      if a[0] == b[0] {
        assert ma[1..] == MarkTargets(a[1..], targets, status, now);
        MarkTargetsSubseq(a[1..], b[1..], targets, status, now);
      } else {
        MarkTargetsSubseq(a, b[1..], targets, status, now);
        if ma[0] == mb[0] {
          // Restatusing may make two different reports equal; then the
          // greedy match takes the head, which is still an embedding.
          assert ma[1..] == MarkTargets(a[1..], targets, status, now);
          SubseqTail(ma, mb[1..]);
          assert IsSubseq(ma[1..], mb[1..]);
        }
      }
    }
  }

  // ---------------------------------------------------------------------
  // Metrics

  /** The counters handed to the metrics cards. */
  function DashboardCounts(s: State): (c: Metrics.StatusCounts)
    ensures c.total == |s.reports|
    ensures c.pending + c.inProgress + c.completed <= c.total
    ensures c.pending == |Filter(s.reports, (r: Report) => r.status == Pending)|
    ensures c.inProgress == |Filter(s.reports, (r: Report) => r.status == InProgress)|
    ensures c.completed == |Filter(s.reports, (r: Report) => r.status == Completed)|
  {
    CountIsFilter(s.reports, Pending);
    CountIsFilter(s.reports, InProgress);
    CountIsFilter(s.reports, Completed);
    Metrics.Tally(s.reports)
  }

  lemma {:induction false} CountIsFilter(rs: seq<Report>, st: string)
    ensures Metrics.CountStatus(rs, st) == |Filter(rs, (r: Report) => r.status == st)|
    decreases |rs|
  {
    if |rs| > 0 {
      CountIsFilter(rs[1..], st);
    }
  }
}
