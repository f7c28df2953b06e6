/** The admin reports table (src/pages/admin-dashboard/components/ReportsTable.jsx):
    sort configuration and comparator, the stable sort the engine applies,
    row selection, and the per-row status advance. */
module Table {
  import opened Wrappers
  import opened Seqs
  import opened ReportModel

  // ---------------------------------------------------------------------
  // String order

  /** JavaScript's `<` on strings: lexicographic by character, a proper
      prefix coming first. */
  predicate LexLess(a: string, b: string)
    decreases |a|
  {
    if |a| == 0 then |b| > 0
    else |b| > 0 && (a[0] < b[0] || (a[0] == b[0] && LexLess(a[1..], b[1..])))
  }

  lemma {:induction false} LexIrreflexive(a: string)
    ensures !LexLess(a, a)
    decreases |a|
  {
    if |a| > 0 {
      LexIrreflexive(a[1..]);
    }
  }

  lemma {:induction false} LexAsymmetric(a: string, b: string)
    requires LexLess(a, b)
    ensures !LexLess(b, a)
    decreases |a|
  {
    if |a| > 0 && a[0] == b[0] {
      LexAsymmetric(a[1..], b[1..]);
    }
  }

  lemma {:induction false} LexTotal(a: string, b: string)
    requires a != b
    ensures LexLess(a, b) || LexLess(b, a)
    decreases |a|
  {
    if |a| > 0 && |b| > 0 && a[0] == b[0] {
      assert a == [a[0]] + a[1..] && b == [b[0]] + b[1..];
      LexTotal(a[1..], b[1..]);
    }
  }

  lemma {:induction false} LexTransitive(a: string, b: string, c: string)
    requires LexLess(a, b) && LexLess(b, c)
    ensures LexLess(a, c)
    decreases |a|
  {
    if |a| > 0 && a[0] == b[0] && b[0] == c[0] {
      LexTransitive(a[1..], b[1..], c[1..]);
    }
  }

  /** `<` on strings is a strict total order. */
  lemma LexIsStrictTotalOrder()
    ensures forall a: string :: !LexLess(a, a)
    ensures forall a: string, b: string :: a != b ==> (LexLess(a, b) <==> !LexLess(b, a))
    ensures forall a: string, b: string, c: string :: LexLess(a, b) && LexLess(b, c) ==> LexLess(a, c)
  {
    forall a: string { LexIrreflexive(a); }
    forall a: string, b: string | a != b ensures LexLess(a, b) <==> !LexLess(b, a) {
      LexTotal(a, b);
      if LexLess(a, b) { LexAsymmetric(a, b); }
    }
    forall a: string, b: string, c: string | LexLess(a, b) && LexLess(b, c) ensures LexLess(a, c) {
      LexTransitive(a, b, c);
    }
  }

  // ---------------------------------------------------------------------
  // Sort configuration

  datatype SortKey = CreatedAt | City | Category | Status

  datatype Direction = Asc | Desc

  datatype SortConfig = SortConfig(key: SortKey, direction: Direction)

  const InitialSort := SortConfig(CreatedAt, Desc)

  /** `handleSort`: a column's first click sorts ascending; clicking the
      column that is ascending flips it to descending. */
  function HandleSort(c: SortConfig, key: SortKey): (r: SortConfig)
    ensures r.key == key
    ensures r.direction == Desc <==> c.key == key && c.direction == Asc
  {
    if c.key == key && c.direction == Asc then SortConfig(key, Desc) else SortConfig(key, Asc)
  }

  /** Repeated clicks on one column alternate between the two directions. */
  lemma SortClicksAlternate(c: SortConfig, key: SortKey)
    ensures var once := HandleSort(c, key);
            var twice := HandleSort(once, key);
            twice.key == key && twice.direction != once.direction
            && HandleSort(twice, key) == once
  {
  }

  /** `new Date(created_at)`: a missing timestamp is `null`, which is the
      epoch. */
  function Timestamp(r: Report): int {
    r.createdAt.GetOr(0)
  }

  /** The string column a non-date key reads. */
  function Column(key: SortKey, r: Report): string
    requires key != CreatedAt
  {
    match key
    case City => r.city
    case Category => r.category
    case Status => r.status
  }

  /** The comparator handed to `Array.prototype.sort`: a timestamp
      difference for `created_at`, otherwise -1/1/0 from `<` and `>`, both
      negated for descending order. */
  function Compare(c: SortConfig, a: Report, b: Report): int {
    if c.key == CreatedAt then
      if c.direction == Asc then Timestamp(a) - Timestamp(b) else Timestamp(b) - Timestamp(a)
    else
      var x, y := Column(c.key, a), Column(c.key, b);
      if LexLess(x, y) then (if c.direction == Asc then -1 else 1)
      else if LexLess(y, x) then (if c.direction == Asc then 1 else -1)
      else 0
  }

  /** The key two rows tie on. */
  predicate SameKey(c: SortConfig, a: Report, b: Report) {
    if c.key == CreatedAt then Timestamp(a) == Timestamp(b) else Column(c.key, a) == Column(c.key, b)
  }

  /** The comparator is consistent: antisymmetric, zero exactly on equal
      keys, and transitive, so it is a total preorder the engine can sort
      by. */
  lemma CompareConsistent(c: SortConfig, a: Report, b: Report, d: Report)
    ensures Compare(c, a, b) == -Compare(c, b, a)
    ensures Compare(c, a, b) == 0 <==> SameKey(c, a, b)
    ensures Compare(c, a, b) <= 0 && Compare(c, b, d) <= 0 ==> Compare(c, a, d) <= 0
    ensures Compare(c, a, b) < 0 && Compare(c, b, d) <= 0 ==> Compare(c, a, d) < 0
    ensures Compare(c, a, b) <= 0 && Compare(c, b, d) < 0 ==> Compare(c, a, d) < 0
  {
    if c.key != CreatedAt {
      var x, y, z := Column(c.key, a), Column(c.key, b), Column(c.key, d);
      LexIrreflexive(x);
      if LexLess(x, y) { LexAsymmetric(x, y); }
      if LexLess(y, x) { LexAsymmetric(y, x); }
      if x != y { LexTotal(x, y); }
      if LexLess(x, y) && LexLess(y, z) { LexTransitive(x, y, z); }
      if LexLess(y, x) && LexLess(z, y) { LexTransitive(z, y, x); }
      if y != z { LexTotal(y, z); }
      if x != z { LexTotal(x, z); }
      if LexLess(x, z) { LexAsymmetric(x, z); }
      if LexLess(z, x) { LexAsymmetric(z, x); }
      if LexLess(y, z) { LexAsymmetric(y, z); }
      if LexLess(z, y) { LexAsymmetric(z, y); }
    }
  }

  // ---------------------------------------------------------------------
  // The stable sort

  predicate Sorted(c: SortConfig, s: seq<Report>) {
    forall i, j :: 0 <= i < j < |s| ==> Compare(c, s[i], s[j]) <= 0
  }

  /** The rows that tie with `z` under `c`. */
  function TiesWith(c: SortConfig, z: Report): Report -> bool {
    (y: Report) => SameKey(c, y, z)
  }

  /** Insert `x` after every row that does not sort strictly after it. */
  function Insert(c: SortConfig, x: Report, s: seq<Report>): (r: seq<Report>)
    ensures multiset(r) == multiset(s) + multiset{x}
    ensures |r| == |s| + 1
  {
    if |s| == 0 then [x]
    else if Compare(c, x, s[0]) < 0 then [x] + s
    else
      var rest := Insert(c, x, s[1..]);
      assert s == [s[0]] + s[1..];
      [s[0]] + rest
  }

  lemma {:induction false} InsertSorted(c: SortConfig, x: Report, s: seq<Report>)
    requires Sorted(c, s)
    ensures Sorted(c, Insert(c, x, s))
    decreases |s|
  {
    if |s| > 0 {
      var r := Insert(c, x, s);
      if Compare(c, x, s[0]) < 0 {
        forall i, j | 0 <= i < j < |r| ensures Compare(c, r[i], r[j]) <= 0 {
          if i == 0 {
            if j > 1 {
              CompareConsistent(c, x, s[0], s[j - 1]);
            }
          }
        }
      } else {
        InsertSorted(c, x, s[1..]);
        CompareConsistent(c, x, s[0], x);
        var rest := Insert(c, x, s[1..]);
        forall j | 0 <= j < |rest| ensures Compare(c, s[0], rest[j]) <= 0 {
          assert rest[j] in multiset(rest);
          assert rest[j] == x || rest[j] in multiset(s[1..]);
          if rest[j] != x {
            var k :| 0 <= k < |s[1..]| && s[1..][k] == rest[j];
            assert s[k + 1] == rest[j];
          }
        }
        assert r == [s[0]] + rest;
      }
    }
  }

  lemma {:induction false} InsertKeepsTies(c: SortConfig, x: Report, s: seq<Report>, z: Report)
    requires Sorted(c, s)
    ensures Filter(Insert(c, x, s), TiesWith(c, z))
         == Filter(s, TiesWith(c, z)) + (if SameKey(c, x, z) then [x] else [])
    decreases |s|
  {
    var t := TiesWith(c, z);
    if |s| == 0 {
      assert Filter([x], t) == (if SameKey(c, x, z) then [x] else []);
    } else if Compare(c, x, s[0]) < 0 {
      assert Insert(c, x, s) == [x] + s;
      assert ([x] + s)[1..] == s;
      if SameKey(c, x, z) {
        forall y | y in s ensures !t(y) {
          var k :| 0 <= k < |s| && s[k] == y;
          if k > 0 {
            assert Compare(c, s[0], s[k]) <= 0;
          }
          CompareConsistent(c, x, s[0], y);
          CompareConsistent(c, x, y, z);
          CompareConsistent(c, y, z, x);
        }
        NoneFiltered(s, t);
      }
    } else {
      var rest := Insert(c, x, s[1..]);
      assert Sorted(c, s[1..]) by {
        forall i, j | 0 <= i < j < |s[1..]| ensures Compare(c, s[1..][i], s[1..][j]) <= 0 {
          assert s[1..][i] == s[i + 1] && s[1..][j] == s[j + 1];
        }
      }
      InsertKeepsTies(c, x, s[1..], z);
      assert ([s[0]] + rest)[1..] == rest;
      var tail := if SameKey(c, x, z) then [x] else [];
      if t(s[0]) {
        assert Filter([s[0]] + rest, t) == [s[0]] + Filter(rest, t);
        ConcatAssoc([s[0]], Filter(s[1..], t), tail);
      }
    }
  }

  lemma {:induction false} NoneFiltered<T>(s: seq<T>, p: T -> bool)
    requires forall y :: y in s ==> !p(y)
    ensures Filter(s, p) == []
    decreases |s|
  {
    if |s| > 0 {
      NoneFiltered(s[1..], p);
    }
  }

  lemma ConcatAssoc<T>(a: seq<T>, b: seq<T>, d: seq<T>)
    ensures a + b + d == a + (b + d)
  {
  }

  /** The sort the engine performs with `Compare`: stable, so rows that
      compare equal keep their input order. */
  function SortRows(c: SortConfig, s: seq<Report>): (r: seq<Report>)
    ensures multiset(r) == multiset(s)
    ensures |r| == |s|
    decreases |s|
  {
    if |s| == 0 then []
    else
      var init := s[..|s| - 1];
      assert s == init + [s[|s| - 1]];
      Insert(c, s[|s| - 1], SortRows(c, init))
  }

  lemma {:induction false} SortRowsSorted(c: SortConfig, s: seq<Report>)
    ensures Sorted(c, SortRows(c, s))
    decreases |s|
  {
    if |s| > 0 {
      SortRowsSorted(c, s[..|s| - 1]);
      InsertSorted(c, s[|s| - 1], SortRows(c, s[..|s| - 1]));
    }
  }

  /** Stability: restricted to any class of equal keys, the output lists
      the same rows in the same order as the input. */
  lemma {:induction false} SortRowsStable(c: SortConfig, s: seq<Report>, z: Report)
    ensures Filter(SortRows(c, s), TiesWith(c, z)) == Filter(s, TiesWith(c, z))
    decreases |s|
  {
    if |s| > 0 {
      var init, last := s[..|s| - 1], s[|s| - 1];
      SortRowsStable(c, init, z);
      SortRowsSorted(c, init);
      InsertKeepsTies(c, last, SortRows(c, init), z);
      FilterAppend(init, [last], TiesWith(c, z));
      assert s == init + [last];
      assert Filter([last], TiesWith(c, z)) == (if SameKey(c, last, z) then [last] else []);
    }
  }

  /** `sortedReports`: a sorted copy of the table's rows; the input list is
      a value and stays as it was. */
  function SortedReports(c: SortConfig, reports: seq<Report>): (r: seq<Report>)
    ensures multiset(r) == multiset(reports)
    ensures c.key == CreatedAt && c.direction == Asc ==>
              forall i, j :: 0 <= i < j < |r| ==> Timestamp(r[i]) <= Timestamp(r[j])
    ensures c.key == CreatedAt && c.direction == Desc ==>
              forall i, j :: 0 <= i < j < |r| ==> Timestamp(r[i]) >= Timestamp(r[j])
    ensures c.key != CreatedAt && c.direction == Asc ==>
              forall i, j :: 0 <= i < j < |r| ==> !LexLess(Column(c.key, r[j]), Column(c.key, r[i]))
    ensures c.key != CreatedAt && c.direction == Desc ==>
              forall i, j :: 0 <= i < j < |r| ==> !LexLess(Column(c.key, r[i]), Column(c.key, r[j]))
    ensures forall z :: Filter(r, TiesWith(c, z)) == Filter(reports, TiesWith(c, z))
  {
    SortRowsSorted(c, reports);
    var r := SortRows(c, reports);
    forall i, j | 0 <= i < j < |r| && c.key != CreatedAt && LexLess(Column(c.key, r[i]), Column(c.key, r[j]))
      ensures !LexLess(Column(c.key, r[j]), Column(c.key, r[i]))
    {
      LexAsymmetric(Column(c.key, r[i]), Column(c.key, r[j]));
    }
    forall z ensures Filter(SortRows(c, reports), TiesWith(c, z)) == Filter(reports, TiesWith(c, z)) {
      SortRowsStable(c, reports, z);
    }
    SortRows(c, reports)
  }

  // ---------------------------------------------------------------------
  // Selection

  /** `handleSelectAll`: the id of every entry of the `reports` input, in
      that input's order (not the sorted display order), or nothing. */
  function HandleSelectAll(reports: seq<Report>, checked: bool): (sel: seq<string>)
    ensures checked ==> |sel| == |reports| && forall i :: 0 <= i < |reports| ==> sel[i] == reports[i].id
    ensures !checked ==> sel == []
  {
    if checked then Ids(reports) else []
  }

  /** `handleSelectReport`: append on check, drop every occurrence on
      uncheck. */
  function HandleSelectReport(selected: seq<string>, id: string, checked: bool): (sel: seq<string>)
    ensures checked ==> sel == selected + [id]
    ensures !checked ==> id !in sel && IsSubseq(sel, selected)
    ensures !checked ==> forall x :: x != id ==> (x in sel <==> x in selected)
  {
    if checked then selected + [id]
    else
      FilterSubseq(selected, (x: string) => x != id);
      Filter(selected, (x: string) => x != id)
  }

  /** Unchecking keeps every other id exactly as often as before. */
  lemma {:induction false} DeselectKeepsOthers(selected: seq<string>, id: string, x: string)
    requires x != id
    ensures Count(HandleSelectReport(selected, id, false), (y: string) => y == x)
         == Count(selected, (y: string) => y == x)
    decreases |selected|
  {
    if |selected| > 0 {
      DeselectKeepsOthers(selected[1..], id, x);
      var f := Filter(selected, (y: string) => y != id);
      if selected[0] != id {
        assert f == [selected[0]] + Filter(selected[1..], (y: string) => y != id);
        assert f[1..] == Filter(selected[1..], (y: string) => y != id);
      }
    }
  }

  predicate IsAllSelected(selectedCount: nat, rowCount: nat) {
    selectedCount == rowCount && rowCount > 0
  }

  predicate IsIndeterminate(selectedCount: nat, rowCount: nat) {
    selectedCount > 0 && selectedCount < rowCount
  }

  /** The header checkbox is never both checked and indeterminate, is
      checked only over a non-empty table, and select-all then clear moves
      it to checked (when there are rows) and then to neither state. */
  lemma HeaderCheckboxStates(reports: seq<Report>, selectedCount: nat)
    ensures !(IsAllSelected(selectedCount, |reports|) && IsIndeterminate(selectedCount, |reports|))
    ensures IsAllSelected(selectedCount, |reports|) ==> |reports| > 0
    ensures IsAllSelected(|HandleSelectAll(reports, true)|, |reports|) <==> |reports| > 0
    ensures !IsAllSelected(|HandleSelectAll(reports, false)|, |reports|)
    ensures !IsIndeterminate(|HandleSelectAll(reports, false)|, |reports|)
  {
  }

  // ---------------------------------------------------------------------
  // Status advance

  /** `getNextStatus`: the lookup table, with `'pending'` for every status
      it does not list. */
  function GetNextStatus(status: string): string {
    if status == Pending then InProgress
    else if status == InProgress then Completed
    else if status == Completed then Completed
    else if status == Rejected then Pending
    else Pending
  }

  /** `'completed'` is the only fixed point, and three advances from any
      status reach it. */
  lemma NextStatusConverges(status: string)
    ensures GetNextStatus(status) == status <==> status == Completed
    ensures GetNextStatus(GetNextStatus(GetNextStatus(status))) == Completed
    ensures GetNextStatus(status) in {Pending, InProgress, Completed}
  {
  }

  /** `getStatusActionLabel`. */
  function GetStatusActionLabel(status: string): string {
    if status == Pending then "Start Progress"
    else if status == InProgress then "Mark Complete"
    else if status == Completed then "Completed"
    else if status == Rejected then "Reopen"
    else "Update"
  }

  /** The row's advance button is rendered for every status but
      `'completed'`. */
  predicate ShowsAdvance(status: string) {
    status != Completed
  }

  /** The advance button is offered exactly when advancing changes the
      status, and exactly when its label is not `'Completed'`. */
  lemma AdvanceGuardMeansProgress(status: string)
    ensures ShowsAdvance(status) <==> GetNextStatus(status) != status
    ensures ShowsAdvance(status) <==> GetStatusActionLabel(status) != "Completed"
  {
  }
}
