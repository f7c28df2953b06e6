/** The action panel of the details page
    (src/pages/report-details/components/ReportActions.jsx): which actions
    are offered, how the department is contacted, and the status note. */
module Actions {
  import opened Wrappers
  import opened ReportModel

  /** `contact_info`: absent fields and empty strings are falsy. */
  datatype ContactInfo = ContactInfo(phone: Option<string>, email: Option<string>)

  /** The fields of the displayed report this panel reads. */
  datatype ShownReport = ShownReport(id: string, status: string, contactInfo: Option<ContactInfo>)

  function Truthy(v: Option<string>): bool {
    v.Some? && v.value != ""
  }

  /** "Report similar" is offered until the report is completed. */
  predicate CanReportSimilar(r: ShownReport) {
    r.status != Completed
  }

  predicate HasContactInfo(r: ShownReport) {
    r.contactInfo.Some? && (Truthy(r.contactInfo.value.phone) || Truthy(r.contactInfo.value.email))
  }

  datatype Contact = Dial(url: string) | Mail(url: string) | Notice(message: string)

  const NoContactMessage := "Contact information will be available once the report is assigned to a department."

  /** `handleContactDepartment`: the phone first, then the e-mail with a
      subject naming the report, otherwise a notice. */
  function ContactDepartment(r: ShownReport): (c: Contact)
    ensures c.Dial? <==> r.contactInfo.Some? && Truthy(r.contactInfo.value.phone)
    ensures c.Dial? ==> c.url == "tel:" + r.contactInfo.value.phone.value
    ensures c.Mail? <==> r.contactInfo.Some? && !Truthy(r.contactInfo.value.phone)
                         && Truthy(r.contactInfo.value.email)
    ensures c.Mail? ==> c.url == "mailto:" + r.contactInfo.value.email.value
                                 + "?subject=Regarding Report " + r.id
    ensures c.Notice? ==> c.message == NoContactMessage
  {
    if r.contactInfo.Some? && Truthy(r.contactInfo.value.phone) then
      Dial("tel:" + r.contactInfo.value.phone.value)
    else if r.contactInfo.Some? && Truthy(r.contactInfo.value.email) then
      Mail("mailto:" + r.contactInfo.value.email.value + "?subject=Regarding Report " + r.id)
    else Notice(NoContactMessage)
  }

  /** The contact button falls back to the notice exactly when the report
      has no usable contact details. */
  lemma ContactNeedsInfo(r: ShownReport)
    ensures ContactDepartment(r).Notice? <==> !HasContactInfo(r)
  {
  }

  // Each note is written as its status clause followed by the authority
  // clause, so that the verifier can read their opening characters.
  const ResolvedNote := "This issue has been resolved" + " by the municipal authorities."
  const InProgressNote := "This issue is currently being addressed" + " by the authorities."
  const PendingNote := "This report is pending review" + " by the municipal authorities."

  /** The note under the report details (its text after the icon); at most
      one is shown. */
  function StatusMessage(status: string): (m: Option<string>)
    ensures m.Some? <==> status in {Completed, InProgress, Pending}
    ensures status == Completed ==> m == Some(ResolvedNote)
    ensures status == InProgress ==> m == Some(InProgressNote)
    ensures status == Pending ==> m == Some(PendingNote)
  {
    if status == Completed then Some(ResolvedNote)
    else if status == InProgress then Some(InProgressNote)
    else if status == Pending then Some(PendingNote)
    else None
  }

  /** The three notes differ, so the note shown tells the status apart:
      two statuses that show the same note are the same status. */
  lemma StatusMessageDistinguishes(a: string, b: string)
    requires StatusMessage(a).Some? && StatusMessage(a) == StatusMessage(b)
    ensures a == b
  {
    assert PendingNote[5] == 'r' && InProgressNote[5] == 'i' && ResolvedNote[5] == 'i';
    assert ResolvedNote[11] == 'h' && InProgressNote[11] == 'i';
  }

  /** A completed report shows the resolved note and no "report similar"
      action; a rejected one keeps the action and shows no note. */
  lemma CompletedReportPanel(r: ShownReport)
    ensures r.status == Completed ==> !CanReportSimilar(r) && StatusMessage(r.status) == Some(ResolvedNote)
    ensures r.status == Rejected ==> CanReportSimilar(r) && StatusMessage(r.status).None?
  {
  }
}
