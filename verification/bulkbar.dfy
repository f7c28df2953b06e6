/** The bulk actions bar (src/pages/admin-dashboard/components/BulkActionsBar.jsx):
    choose a status, open the confirmation, then confirm or cancel. */
module BulkBar {
  import opened Wrappers
  import opened ReportModel

  datatype Bar = Bar(selectedAction: string, showConfirmation: bool)

  const InitialBar := Bar("", false)

  /** The action select's values; `''` is the placeholder. */
  const ActionOptions := ["", Pending, InProgress, Completed, Rejected]

  /** The bar renders only while some report is selected. */
  predicate Visible(selectedCount: nat) {
    selectedCount != 0
  }

  /** The select's `onChange`. */
  function Choose(b: Bar, value: string): (r: Bar)
    ensures r.selectedAction == value && r.showConfirmation == b.showConfirmation
  {
    b.(selectedAction := value)
  }

  /** `handleApplyAction`: open the confirmation only with an action chosen. */
  function Apply(b: Bar): (r: Bar)
    ensures r.selectedAction == b.selectedAction
    ensures r.showConfirmation <==> b.showConfirmation || b.selectedAction != ""
  {
    if b.selectedAction != "" then b.(showConfirmation := true) else b
  }

  /** `handleConfirmAction`: with a handler and a chosen action, emit it once
      and reset; otherwise nothing happens. */
  function Confirm(b: Bar, hasHandler: bool): (r: (Bar, Option<string>))
    ensures r.1.Some? <==> hasHandler && b.selectedAction != ""
    ensures r.1.Some? ==> r.1.value == b.selectedAction && r.0 == InitialBar
    ensures r.1.None? ==> r.0 == b
  {
    if hasHandler && b.selectedAction != "" then (InitialBar, Some(b.selectedAction)) else (b, None)
  }

  /** `handleCancelAction`: close the dialog and keep the chosen action. */
  function Cancel(b: Bar): (r: Bar)
    ensures r.selectedAction == b.selectedAction && !r.showConfirmation
  {
    b.(showConfirmation := false)
  }

  /** While the dialog is open, a real status is chosen. */
  predicate Ready(b: Bar) {
    b.showConfirmation ==> b.selectedAction in ActionOptions[1..]
  }

  /** The transitions keep `Ready`, the select only when it picks one of
      the four statuses (the placeholder can only be chosen with the dialog
      closed). */
  lemma TransitionsKeepReady(b: Bar, value: string, hasHandler: bool)
    requires Ready(b)
    ensures b.selectedAction in ActionOptions ==> Ready(Apply(b))
    ensures Ready(Confirm(b, hasHandler).0)
    ensures Ready(Cancel(b))
    ensures value in ActionOptions[1..] || !b.showConfirmation ==> Ready(Choose(b, value))
  {
  }

  /** A confirmed action fires exactly once: the next confirm emits
      nothing until a new action is chosen. */
  lemma ConfirmFiresOnce(b: Bar, hasHandler: bool)
    ensures var (b1, e1) := Confirm(b, hasHandler);
            e1.Some? ==> Confirm(b1, hasHandler).1.None?
  {
  }

  /** Apply then cancel leaves the chosen action and a closed dialog. */
  lemma ApplyCancel(b: Bar)
    ensures Cancel(Apply(b)) == b.(showConfirmation := false)
  {
  }

  /** The four statuses on offer are exactly the statuses the rest of the
      application knows. */
  lemma ActionOptionsAreStatuses()
    ensures forall v :: v in ActionOptions <==> v == "" || v in {Pending, InProgress, Completed, Rejected}
  {
  }
}
