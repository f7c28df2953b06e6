/** The admin filter toolbar (src/pages/admin-dashboard/components/FilterToolbar.jsx):
    four controlled inputs whose every change emits the whole criteria
    record to the dashboard. */
module Toolbar {
  import opened Wrappers
  import opened ReportModel
  import opened Dashboard

  /** The toolbar's own state is the record it emits. */
  const InitialCriteria := Criteria("", "all", "all", "all")

  datatype Field = Search | City | Category | Status

  function Get(c: Criteria, f: Field): string {
    match f
    case Search => c.search
    case City => c.city
    case Category => c.category
    case Status => c.status
  }

  /** One change handler: set its own field and, when a listener is
      attached, emit the full record built from the other three fields as
      they stand. */
  function HandleChange(s: Criteria, f: Field, value: string, hasListener: bool): (r: (Criteria, Option<Criteria>))
    ensures Get(r.0, f) == value
    ensures forall g :: g != f ==> Get(r.0, g) == Get(s, g)
    ensures hasListener <==> r.1.Some?
    ensures r.1.Some? ==> r.1.value == r.0
  {
    var next := match f
      case Search => s.(search := value)
      case City => s.(city := value)
      case Category => s.(category := value)
      case Status => s.(status := value);
    (next, if hasListener then Some(next) else None)
  }

  /** `clearAllFilters`. */
  function ClearAll(s: Criteria, hasListener: bool): (r: (Criteria, Option<Criteria>))
    ensures r.0 == InitialCriteria
    ensures hasListener <==> r.1 == Some(InitialCriteria)
  {
    (InitialCriteria, if hasListener then Some(InitialCriteria) else None)
  }

  /** `hasActiveFilters`: a non-empty search or a select moved off `'all'`. */
  predicate HasActiveFilters(s: Criteria) {
    s.search != "" || s.city != "all" || s.category != "all" || s.status != "all"
  }

  /** The toolbar shows active filters exactly when it is away from its
      initial state, so never right after a clear. */
  lemma ActiveIffNotInitial(s: Criteria, hasListener: bool)
    ensures HasActiveFilters(s) <==> s != InitialCriteria
    ensures !HasActiveFilters(ClearAll(s, hasListener).0)
  {
  }

  /** With no active filter the dashboard shows every report, so clearing
      the toolbar restores the full list. */
  lemma InactiveShowsEverything(d: State, s: Criteria, hasListener: bool)
    requires !HasActiveFilters(s)
    ensures HandleFilterChange(d, s).filtered == d.reports
    ensures HandleFilterChange(d, ClearAll(s, hasListener).0).filtered == d.reports
  {
    ApplyFiltersUnset(d.reports, s);
    ApplyFiltersUnset(d.reports, InitialCriteria);
  }

  /** Changing one field and changing it back returns the toolbar to where
      it was; only the last change to a field matters. */
  lemma ChangesCommute(s: Criteria, f: Field, g: Field, v: string, w: string)
    ensures HandleChange(HandleChange(s, f, Get(s, f), false).0, f, Get(s, f), false).0 == s
    ensures HandleChange(HandleChange(s, f, v, false).0, f, w, false).0 == HandleChange(s, f, w, false).0
    ensures f != g ==>
              HandleChange(HandleChange(s, f, v, false).0, g, w, false).0
              == HandleChange(HandleChange(s, g, w, false).0, f, v, false).0
  {
  }
}
