/** The citizen report form (src/pages/home-map-view/components/ReportIssueModal.jsx):
    field edits, the photo size limit, validation, and the report a valid
    submission hands to the page. */
module ReportForm {
  import opened Wrappers
  import opened Text
  import opened ReportModel

  datatype FormField = Title | Description | Category | City | Photo

  /** `formData`; `photo` is the data URL the file reader produced. */
  datatype Form = Form(title: string, description: string, category: string, city: string,
                       coordinates: Coordinates, photo: Option<string>)

  /** `errors`: a message per field; a cleared error stays as `''`. */
  type Errors = map<FormField, string>

  /** The map's default centre, used until a location is taken. */
  const DefaultCoordinates := Coordinates(20.5937, 78.9629)

  const InitialForm := Form("", "", "", "", DefaultCoordinates, None)

  /** 5 MB. */
  const MaxPhotoBytes: nat := 5 * 1024 * 1024

  const PhotoTooLarge := "File size must be less than 5MB"

  const PlaceholderPhotoPrefix := "https://picsum.photos/400/300?random="

  function Get(f: Form, field: FormField): string
    requires field != Photo
  {
    match field
    case Title => f.title
    case Description => f.description
    case Category => f.category
    case City => f.city
  }

  /** `handleInputChange`: set the field and, if it shows an error, blank
      that error.  The form's only edit of `photo` is the remove button's
      `handleInputChange('photo', null)`, so a `Photo` edit removes the
      photo and `value` is not used. */
  function InputChange(f: Form, errors: Errors, field: FormField, value: string): (r: (Form, Errors))
    ensures field != Photo ==> Get(r.0, field) == value && r.0.photo == f.photo
    ensures field == Photo ==> r.0.photo.None?
    ensures forall g :: g != Photo && g != field ==> Get(r.0, g) == Get(f, g)
    ensures r.0.coordinates == f.coordinates
    ensures r.1.Keys == errors.Keys
    ensures field in errors ==> r.1[field] == ""
    ensures forall g :: g in errors && g != field ==> r.1[g] == errors[g]
  {
    var next := match field
      case Title => f.(title := value)
      case Description => f.(description := value)
      case Category => f.(category := value)
      case City => f.(city := value)
      case Photo => f.(photo := None);
    (next, if field in errors && errors[field] != "" then errors[field := ""] else errors)
  }

  /** Removing the photo clears a shown size error and leaves the text
      fields, and their validation, as they were. */
  lemma RemovePhotoClearsError(f: Form, errors: Errors)
    requires Photo in errors
    ensures var (g, e) := InputChange(f, errors, Photo, "");
            && g == f.(photo := None) && e[Photo] == ""
            && Validate(g) == Validate(f)
  {
    ValidateReadsText(f, f.(photo := None));
  }

  /** Validation reads only the four text fields. */
  lemma ValidateReadsText(f: Form, g: Form)
    requires g.title == f.title && g.description == f.description
    requires g.category == f.category && g.city == f.city
    ensures Validate(g) == Validate(f)
  {
    var a, b := Validate(f), Validate(g);
    forall k: FormField ensures (k in a <==> k in b) && (k in a ==> a[k] == b[k]) {
      match k
      case Title =>
      case Description =>
      case Category =>
      case City =>
      case Photo =>
    }
    assert a.Keys == b.Keys;
  }

  /** `handleFileChange` for a chosen file of `size` bytes whose data URL is
      `dataUrl`: an oversized file only records the photo error; otherwise
      the photo is taken and the errors are left as they were. */
  function FileChange(f: Form, errors: Errors, file: Option<nat>, dataUrl: string): (r: (Form, Errors))
    ensures file.None? ==> r == (f, errors)
    ensures file.Some? && file.value > MaxPhotoBytes ==> r.0 == f && r.1 == errors[Photo := PhotoTooLarge]
    ensures file.Some? && file.value <= MaxPhotoBytes ==> r.0 == f.(photo := Some(dataUrl)) && r.1 == errors
  {
    if file.None? then (f, errors)
    else if file.value > MaxPhotoBytes then (f, errors[Photo := PhotoTooLarge])
    else (f.(photo := Some(dataUrl)), errors)
  }

  /** `validateForm`'s error object: title and description must be
      non-blank after trimming, category and city non-empty. */
  function Validate(f: Form): (errs: Errors)
    ensures Title in errs <==> AllSpace(f.title)
    ensures Description in errs <==> AllSpace(f.description)
    ensures Category in errs <==> f.category == ""
    ensures City in errs <==> f.city == ""
    ensures Photo !in errs
    ensures Title in errs ==> errs[Title] == "Title is required"
    ensures Description in errs ==> errs[Description] == "Description is required"
    ensures Category in errs ==> errs[Category] == "Category is required"
    ensures City in errs ==> errs[City] == "City is required"
  {
    TrimEmptyIffAllSpace(f.title);
    TrimEmptyIffAllSpace(f.description);
    var e0: Errors := map[];
    var e1 := if Trim(f.title) == "" then e0[Title := "Title is required"] else e0;
    var e2 := if Trim(f.description) == "" then e1[Description := "Description is required"] else e1;
    var e3 := if f.category == "" then e2[Category := "Category is required"] else e2;
    if f.city == "" then e3[City := "City is required"] else e3
  }

  predicate IsValid(f: Form) {
    Validate(f) == map[]
  }

  /** Valid exactly when every field passes its own check. */
  lemma ValidIff(f: Form)
    ensures IsValid(f) <==>
              !AllSpace(f.title) && !AllSpace(f.description) && f.category != "" && f.city != ""
  {
    var e := Validate(f);
    if !AllSpace(f.title) && !AllSpace(f.description) && f.category != "" && f.city != "" {
      forall k: FormField ensures k !in e {
        match k
        case Title =>
        case Description =>
        case Category =>
        case City =>
        case Photo =>
      }
      assert e.Keys == {};
    }
  }

  /** The fresh form fails on all four fields. */
  lemma InitialFormInvalid()
    ensures Validate(InitialForm).Keys == {Title, Description, Category, City}
  {
    BlankFormInvalid(InitialForm);
  }

  /** A form whose text fields are all empty fails exactly the four text
      checks. */
  lemma BlankFormInvalid(f: Form)
    requires f.title == "" && f.description == "" && f.category == "" && f.city == ""
    ensures Validate(f).Keys == {Title, Description, Category, City}
  {
    var e := Validate(f);
    assert AllSpace(f.title) && AllSpace(f.description);
    forall k: FormField ensures k in e <==> k in {Title, Description, Category, City} {
      match k
      case Title =>
      case Description =>
      case Category =>
      case City =>
      case Photo =>
    }
  }

  /** Typing a non-blank value into a failing field removes that field's
      error from the next validation and leaves the other fields' outcome
      alone. */
  lemma EditFixesField(f: Form, errors: Errors, field: FormField, value: string)
    requires field != Photo && !AllSpace(value)
    ensures var g := InputChange(f, errors, field, value).0;
            field !in Validate(g)
            && forall h :: h != field ==> (h in Validate(g) <==> h in Validate(f))
  {
  }

  /** What `onSubmit` receives: the form's fields, a decimal id from the
      clock, status `'pending'`, the creation time, and the photo or a
      placeholder picture. */
  datatype Submission = Submission(form: Form, id: string, status: string, createdAt: int, photoUrl: string)

  function PhotoUrl(photo: Option<string>, now: nat): (url: string)
    ensures photo.Some? && photo.value != "" ==> url == photo.value
    ensures photo.None? || photo == Some("") ==> url == PlaceholderPhotoPrefix + NatToString(now)
  {
    if photo.Some? && photo.value != "" then photo.value else PlaceholderPhotoPrefix + NatToString(now)
  }

  datatype Outcome = Outcome(form: Form, errors: Errors, submitted: Option<Submission>, closed: bool)

  /** The three clock reads of a submission, in milliseconds: `Date.now()`
      for the id, `new Date()` for `created_at`, and `Date.now()` again for
      the placeholder picture. */
  datatype SubmitClock = SubmitClock(idAt: nat, createdAt: int, urlAt: nat)

  /** `handleSubmit`: an invalid form only shows its errors.  A valid one is
      handed to `onSubmit` (when given); unless that call throws, the form
      is reset and the modal closes.  When it throws, the error is caught
      and the form stays as it was, still open. */
  function Submit(f: Form, clock: SubmitClock, hasOnSubmit: bool, onSubmitThrows: bool): (o: Outcome)
    ensures o.errors == Validate(f)
    ensures !IsValid(f) ==> o == Outcome(f, Validate(f), None, false)
    ensures IsValid(f) && !(hasOnSubmit && onSubmitThrows) ==> o.form == InitialForm && o.closed
    ensures IsValid(f) && hasOnSubmit && onSubmitThrows ==> o.form == f && !o.closed
    ensures o.submitted.Some? <==> IsValid(f) && hasOnSubmit
    ensures o.submitted.Some? ==>
              var s := o.submitted.value;
              s.form == f && s.status == Pending && s.createdAt == clock.createdAt
              && IsDigits(s.id) && DigitsValue(s.id) == clock.idAt
              && s.photoUrl == PhotoUrl(f.photo, clock.urlAt)
  {
    NatToStringRoundTrip(clock.idAt);
    var errs := Validate(f);
    if errs != map[] then Outcome(f, errs, None, false)
    else
      var s := Submission(f, NatToString(clock.idAt), Pending, clock.createdAt, PhotoUrl(f.photo, clock.urlAt));
      if hasOnSubmit && onSubmitThrows then Outcome(f, errs, Some(s), false)
      else Outcome(InitialForm, errs, if hasOnSubmit then Some(s) else None, true)
  }

  /** A submitted report always carries a photo URL and a non-blank title
      and description. */
  lemma SubmissionWellFormed(f: Form, clock: SubmitClock, throws: bool)
    ensures var o := Submit(f, clock, true, throws);
            o.submitted.Some? ==>
              o.submitted.value.photoUrl != ""
              && !AllSpace(o.submitted.value.form.title)
              && !AllSpace(o.submitted.value.form.description)
              && o.submitted.value.form.category != "" && o.submitted.value.form.city != ""
  {
    ValidIff(f);
  }

  /** A photo over the limit never reaches the form, whatever was there. */
  lemma OversizedPhotoRejected(f: Form, errors: Errors, size: nat, dataUrl: string)
    requires size > MaxPhotoBytes
    ensures FileChange(f, errors, Some(size), dataUrl).0.photo == f.photo
    ensures FileChange(f, errors, Some(size), dataUrl).1[Photo] == PhotoTooLarge
  {
  }
}
