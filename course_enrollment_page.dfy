/** The student's course enrollment page (CourseEnrollment.tsx): which
    courses a signed-in student is offered, the state of each course's
    enroll button, the guard in front of the enrollment form, the form's
    validators and the request the form submits. */
module CourseEnrollmentPage {
  import opened Common
  import CC = CourseContext
  import PE = PreEnrollmentContext
  import Auth = AuthContext

  // -----------------------------------------------------------------------
  // getCourseEnrollmentStatus and availableCourses

  /** Some request of the student for the course is approved. */
  predicate HasApproved(rs: seq<PE.PreEnrollment>, studentId: string, courseId: string)
  {
    exists i :: 0 <= i < |rs| && PE.IsPair(rs[i], studentId, courseId) && rs[i].status == PE.Approved
  }

  /** The status the page shows for a course: nothing without a signed-in
      user (or one with an empty id), "approved" when any of the student's
      requests for the course is approved, and the ledger's most recent
      status otherwise. */
  function CourseEnrollmentStatus(user: Option<Auth.Session>, rs: seq<PE.PreEnrollment>, courseId: string): (r: Option<PE.Status>)
    ensures user.None? || user.value.id == "" ==> r.None?
    ensures user.Some? && user.value.id != "" ==>
      && (r == Some(PE.Approved) <==> HasApproved(rs, user.value.id, courseId))
      && (r.None? <==> forall i :: 0 <= i < |rs| ==> !PE.IsPair(rs[i], user.value.id, courseId))
      && (r != Some(PE.Approved) ==> r == PE.StudentEnrollmentStatus(rs, user.value.id, courseId))
  {
    if user.None? || user.value.id == "" then None
    else if HasApproved(rs, user.value.id, courseId) then Some(PE.Approved)
    else PE.StudentEnrollmentStatus(rs, user.value.id, courseId)
  }

  predicate IsAvailable(user: Option<Auth.Session>, rs: seq<PE.PreEnrollment>, c: CC.Course)
  {
    c.status == CC.Active && CourseEnrollmentStatus(user, rs, c.id) != Some(PE.Approved)
  }

  /** The courses offered to the signed-in student: the active ones in which
      the student is not enrolled, in catalog order. */
  function AvailableCourses(user: Option<Auth.Session>, cs: seq<CC.Course>, rs: seq<PE.PreEnrollment>): (r: seq<CC.Course>)
    ensures user.None? ==> r == []
    ensures user.Some? ==> forall c :: c in r <==> c in cs && IsAvailable(user, rs, c)
  {
    if user.None? then []
    else
      var r := Filter(cs, (c: CC.Course) => IsAvailable(user, rs, c));
      assert forall c :: c in cs && IsAvailable(user, rs, c) ==> c in r by {
        forall c | c in cs && IsAvailable(user, rs, c)
          ensures c in r
        {
          var i :| 0 <= i < |cs| && cs[i] == c;
        }
      }
      r
  }

  // -----------------------------------------------------------------------
  // getEnrollButtonProps

  datatype ButtonColor = Primary | Secondary | ErrorColor | WarningColor

  datatype ButtonProps = ButtonProps(disabled: bool, text: string, tooltip: string, color: ButtonColor)

  predicate IsFull(c: CC.Course)
  {
    c.currentEnrollment >= c.enrollmentLimit
  }

  /** The enroll button of a course card: enrolment first, then capacity,
      then a pending request; anything else (no request, a rejected or an
      "enrolled" one) leaves the button enabled. */
  function EnrollButtonProps(status: Option<PE.Status>, c: CC.Course): (r: ButtonProps)
    ensures !r.disabled <==> status != Some(PE.Approved) && status != Some(PE.Pending) && !IsFull(c)
    ensures r.text == "Already Enrolled" <==> status == Some(PE.Approved)
    ensures r.text == "Course Full" <==> status != Some(PE.Approved) && IsFull(c)
    ensures r.text == "Pending Approval" <==> status == Some(PE.Pending) && !IsFull(c)
    ensures r.text == "Enroll" <==> !r.disabled
    ensures !r.disabled ==>
      && r.color == Primary
      && r.tooltip == (if status == Some(PE.Rejected) then "Your previous request was rejected. You can try again."
                       else "Click to enroll in this course")
  {
    if status == Some(PE.Approved) then
      ButtonProps(true, "Already Enrolled", "You are currently enrolled in this course", Secondary)
    else if IsFull(c) then
      ButtonProps(true, "Course Full", "This course has reached its maximum capacity", ErrorColor)
    else if status == Some(PE.Pending) then
      ButtonProps(true, "Pending Approval", "Your enrollment request is being reviewed", WarningColor)
    else
      ButtonProps(false, "Enroll",
        if status == Some(PE.Rejected) then "Your previous request was rejected. You can try again."
        else "Click to enroll in this course",
        Primary)
  }

  // -----------------------------------------------------------------------
  // handleEnrollClick

  /** The fields the form is pre-filled with from the signed-in user. */
  datatype Prefill = Prefill(firstName: string, lastName: string, email: string)

  datatype ClickResult = Refused(message: string) | Opened(courseId: string, prefill: Option<Prefill>)

  /** The first word of the user's name, and the rest of it. */
  function PrefillFor(u: Auth.Session): Prefill
  {
    var parts := if u.name != "" then Split(u.name, ' ') else ["", ""];
    Prefill(parts[0], Join(parts[1..], ' '), u.email)
  }

  /** A click on a card's button: refused with a warning for an approved or
      pending request, otherwise the form opens for the course, pre-filled
      when someone is signed in. */
  function EnrollClick(status: Option<PE.Status>, user: Option<Auth.Session>, courseId: string): (r: ClickResult)
    ensures r.Refused? <==> status == Some(PE.Approved) || status == Some(PE.Pending)
    ensures status == Some(PE.Approved) ==> r == Refused("You are already enrolled in this course.")
    ensures status == Some(PE.Pending) ==> r == Refused("Your enrollment request for this course is still pending.")
    ensures r.Opened? ==> r.courseId == courseId && (r.prefill.Some? <==> user.Some?)
  {
    if status == Some(PE.Approved) then Refused("You are already enrolled in this course.")
    else if status == Some(PE.Pending) then Refused("Your enrollment request for this course is still pending.")
    else Opened(courseId, if user.Some? then Some(PrefillFor(user.value)) else None)
  }

  // -----------------------------------------------------------------------
  // The form and its validators

  /** A chosen file: only its name matters to the validators. */
  datatype File = File(name: string, mime: string)

  /** The documents the form asks for, all optional, in the order the form
      lists and checks them. */
  datatype RequirementId =
    | BirthCertificate | ProofOfResidency | GuardianId | SchoolRecords
    | ImmunizationRecords | MedicalForm | ApplicationForm

  const Requirements: seq<RequirementId> := [
    BirthCertificate, ProofOfResidency, GuardianId, SchoolRecords,
    ImmunizationRecords, MedicalForm, ApplicationForm]

  const ImageOrPdf := ".pdf,.jpg,.jpeg,.png"
  const DocumentOrPdf := ".pdf,.doc,.docx"
  const PdfOnly := ".pdf"

  /** The extensions a requirement accepts, comma-separated. */
  function AcceptedFormats(id: RequirementId): string
  {
    match id
    case SchoolRecords => DocumentOrPdf
    case ApplicationForm => DocumentOrPdf
    case MedicalForm => PdfOnly
    case _ => ImageOrPdf
  }

  /** The form's fields; `documents` holds the files chosen so far (a
      requirement with no file has no key). */
  datatype EnrollmentForm = EnrollmentForm(
    firstName: string, lastName: string, suffix: string, email: string,
    phone: string, dateOfBirth: string, address: string, guardianName: string,
    guardianPhone: string, educationalAttainment: string, currentSchool: string,
    documents: map<RequirementId, File>)

  /** `acceptedFormats.split(',').some(...)`: the lower-cased file name
      ends with one of the listed extensions, each lower-cased and
      trimmed. */
  predicate AcceptedFile(name: string, formats: string)
  {
    exists k :: 0 <= k < |Split(formats, ',')| && EndsWith(ToLower(name), Trim(ToLower(Split(formats, ',')[k])))
  }

  /** The pieces of each format list. */
  function FormatList(id: RequirementId): seq<string>
  {
    match id
    case SchoolRecords => [".pdf", ".doc", ".docx"]
    case ApplicationForm => [".pdf", ".doc", ".docx"]
    case MedicalForm => [".pdf"]
    case _ => [".pdf", ".jpg", ".jpeg", ".png"]
  }

  predicate EndsWithOneOf(lowerName: string, extensions: seq<string>)
  {
    exists k :: 0 <= k < |extensions| && EndsWith(lowerName, extensions[k])
  }

  /** No file, or a file of an accepted format. */
  predicate DocumentOk(f: EnrollmentForm, id: RequirementId)
  {
    id !in f.documents || EndsWithOneOf(ToLower(f.documents[id].name), FormatList(id))
  }

  predicate DocumentsValid(f: EnrollmentForm)
  {
    forall k :: 0 <= k < |Requirements| ==> DocumentOk(f, Requirements[k])
  }

  /** The message of a file of a wrong format. */
  datatype DocumentMessage = InvalidFormat(id: RequirementId)

  function DocumentMessageText(m: DocumentMessage): string
  {
    "Invalid file format. Accepted formats: " + AcceptedFormats(m.id)
  }

  /** The error map the document check builds over `ids`: one message per
      requirement whose file is of a wrong format. */
  function DocumentErrors(f: EnrollmentForm, ids: seq<RequirementId>): (r: map<RequirementId, DocumentMessage>)
    ensures forall k :: 0 <= k < |ids| ==>
      (ids[k] in r <==> !DocumentOk(f, ids[k]))
      && (ids[k] in r ==> r[ids[k]] == InvalidFormat(ids[k]))
    ensures forall id :: id in r ==> id in ids
    decreases |ids|
  {
    if ids == [] then map[]
    else
      var n := |ids| - 1;
      var prior := DocumentErrors(f, ids[..n]);
      assert forall k :: 0 <= k < n ==> ids[..n][k] == ids[k];
      if DocumentOk(f, ids[n]) then prior else prior[ids[n] := InvalidFormat(ids[n])]
  }

  /** `validateDocuments`: each requirement in turn; a file of a wrong
      format records a message and makes the result false. */
  method ValidateDocuments(f: EnrollmentForm) returns (isValid: bool, errors: map<RequirementId, DocumentMessage>)
    ensures isValid <==> DocumentsValid(f)
    ensures errors == DocumentErrors(f, Requirements)
  {
    errors := map[];
    isValid := true;
    var i := 0;
    while i < |Requirements|
      invariant 0 <= i <= |Requirements|
      invariant errors == DocumentErrors(f, Requirements[..i])
      invariant isValid <==> forall k :: 0 <= k < i ==> DocumentOk(f, Requirements[k])
    {
      var id := Requirements[i];
      // The test on the split format text, as `AcceptedFileByList` shows.
      if id in f.documents && !EndsWithOneOf(ToLower(f.documents[id].name), FormatList(id)) {
        errors := errors[id := InvalidFormat(id)];
        isValid := false;
      }
      assert Requirements[..i + 1][..i] == Requirements[..i];
      i := i + 1;
    }
    assert Requirements[..i] == Requirements;
  }

  /** The text fields the form requires, non-empty, a well-formed email and,
      for attainment "Others", a school. */
  predicate FieldsValid(f: EnrollmentForm)
  {
    && f.firstName != "" && f.lastName != "" && f.email != "" && MatchesEmailPattern(f.email)
    && f.phone != "" && f.dateOfBirth != "" && f.address != "" && f.guardianName != ""
    && f.guardianPhone != "" && f.educationalAttainment != ""
    && !(f.educationalAttainment == "Others" && f.currentSchool == "")
  }

  /** The field messages the form can show. */
  datatype Message =
    | FirstNameRequired | LastNameRequired | EmailRequired
    | InvalidEmail | PhoneRequired | DateOfBirthRequired
    | AddressRequired | GuardianNameRequired | GuardianPhoneRequired
    | AttainmentRequired | SchoolRequired

  /** The text shown for each message. */
  function MessageText(m: Message): string
  {
    match m
    case FirstNameRequired => "First name is required"
    case LastNameRequired => "Last name is required"
    case EmailRequired => "Email is required"
    case InvalidEmail => "Invalid email format"
    case PhoneRequired => "Phone number is required"
    case DateOfBirthRequired => "Date of birth is required"
    case AddressRequired => "Address is required"
    case GuardianNameRequired => "Guardian name is required"
    case GuardianPhoneRequired => "Guardian phone is required"
    case AttainmentRequired => "Educational attainment is required"
    case SchoolRequired => "Please specify your current school or educational institution"
  }

  /** The messages `validateForm` collects, one optional message per
      field, like the page's partial copy of the form. */
  datatype FieldMessages = FieldMessages(
    firstName: Option<Message>, lastName: Option<Message>, email: Option<Message>,
    phone: Option<Message>, dateOfBirth: Option<Message>, address: Option<Message>,
    guardianName: Option<Message>, guardianPhone: Option<Message>,
    educationalAttainment: Option<Message>, currentSchool: Option<Message>)

  predicate NoMessages(m: FieldMessages)
  {
    && m.firstName.None? && m.lastName.None? && m.email.None? && m.phone.None?
    && m.dateOfBirth.None? && m.address.None? && m.guardianName.None?
    && m.guardianPhone.None? && m.educationalAttainment.None? && m.currentSchool.None?
  }

  /** The message a check leaves: the text when it fails, none otherwise. */
  function MessageIf(failed: bool, message: Message): (r: Option<Message>)
    ensures r.Some? <==> failed
  {
    if failed then Some(message) else None
  }

  /** The field messages of a form: every check is made, and there are
      none exactly when the fields are valid. */
  function FieldErrors(f: EnrollmentForm): FieldMessages
  {
    FieldMessages(
      MessageIf(f.firstName == "", FirstNameRequired),
      MessageIf(f.lastName == "", LastNameRequired),
      if f.email == "" then Some(EmailRequired)
      else MessageIf(!MatchesEmailPattern(f.email), InvalidEmail),
      MessageIf(f.phone == "", PhoneRequired),
      MessageIf(f.dateOfBirth == "", DateOfBirthRequired),
      MessageIf(f.address == "", AddressRequired),
      MessageIf(f.guardianName == "", GuardianNameRequired),
      MessageIf(f.guardianPhone == "", GuardianPhoneRequired),
      MessageIf(f.educationalAttainment == "", AttainmentRequired),
      MessageIf(f.educationalAttainment == "Others" && f.currentSchool == "",
        SchoolRequired))
  }

  /** Every check is made, and there are no messages exactly when the
      fields are valid. */
  lemma NoMessagesIffValid(f: EnrollmentForm)
    ensures NoMessages(FieldErrors(f)) <==> FieldsValid(f)
  {
  }

  /** The email has a message exactly when it does not match the pattern,
      and the "required" one exactly when it is empty. */
  lemma EmailMessages(f: EnrollmentForm)
    ensures FieldErrors(f).email.Some? <==> !MatchesEmailPattern(f.email)
    ensures FieldErrors(f).email == Some(EmailRequired) <==> f.email == ""
  {
  }

  /** The school is demanded exactly for attainment "Others" with no school
      typed. */
  lemma SchoolMessage(f: EnrollmentForm)
    ensures FieldErrors(f).currentSchool.Some? <==> f.educationalAttainment == "Others" && f.currentSchool == ""
  {
  }

  /** The errors the form displays: the field messages, and the document
      messages under `documents`, keyed by requirement. */
  datatype FormErrors = FormErrors(fields: FieldMessages, documents: map<RequirementId, DocumentMessage>)

  /** `validateForm` as written: the document check merges its messages
      into the displayed errors at the top level, and then the field
      messages replace the displayed errors outright, so no document
      message is ever shown under `documents`. */
  method ValidateForm(f: EnrollmentForm) returns (isValid: bool, shown: FormErrors)
    ensures isValid <==> FieldsValid(f) && DocumentsValid(f)
    ensures shown == FormErrors(FieldErrors(f), map[])
  {
    var errors;
    isValid, errors := CheckFields(f);
    var documentsValid, _ := ValidateDocuments(f);
    if !documentsValid {
      isValid := false;
    }
    shown := FormErrors(errors, map[]);
  }

  /** One check of `validateForm`: a failing check records its message
      and clears the flag; a passing one leaves both alone. */
  method Check(failed: bool, message: Message, wasValid: bool) returns (m: Option<Message>, isValid: bool)
    ensures m == MessageIf(failed, message)
    ensures isValid <==> wasValid && !failed
  {
    m := None;
    isValid := wasValid;
    if failed {
      m := Some(message);
      isValid := false;
    }
  }

  /** The field checks of `validateForm`, in the page's order. */
  method CheckFields(f: EnrollmentForm) returns (isValid: bool, errors: FieldMessages)
    ensures isValid <==> FieldsValid(f)
    ensures errors == FieldErrors(f)
  {
    // One local per key of the page's error object.
    var firstName, lastName, email, phone, dateOfBirth, address, guardianName,
      guardianPhone, educationalAttainment, currentSchool: Option<Message>;
    firstName, isValid := Check(f.firstName == "", FirstNameRequired, true);
    lastName, isValid := Check(f.lastName == "", LastNameRequired, isValid);
    if f.email == "" {
      email := Some(EmailRequired);
      isValid := false;
    } else {
      email, isValid := Check(!MatchesEmailPattern(f.email), InvalidEmail, isValid);
    }
    phone, isValid := Check(f.phone == "", PhoneRequired, isValid);
    dateOfBirth, isValid := Check(f.dateOfBirth == "", DateOfBirthRequired, isValid);
    address, isValid := Check(f.address == "", AddressRequired, isValid);
    guardianName, isValid := Check(f.guardianName == "", GuardianNameRequired, isValid);
    guardianPhone, isValid := Check(f.guardianPhone == "", GuardianPhoneRequired, isValid);
    educationalAttainment, isValid := Check(f.educationalAttainment == "", AttainmentRequired, isValid);
    currentSchool, isValid := Check(f.educationalAttainment == "Others" && f.currentSchool == "", SchoolRequired, isValid);
    errors := FieldMessages(firstName, lastName, email, phone, dateOfBirth, address,
      guardianName, guardianPhone, educationalAttainment, currentSchool);
    assert isValid <==> NoMessages(errors);
    NoMessagesIffValid(f);
  }

  /** `validateForm` with the document messages kept where the form looks
      for them. */
  method ValidateFormShowingDocuments(f: EnrollmentForm) returns (isValid: bool, shown: FormErrors)
    ensures isValid <==> FieldsValid(f) && DocumentsValid(f)
    ensures shown == FormErrors(FieldErrors(f), DocumentErrors(f, Requirements))
  {
    var fieldsShown;
    isValid, fieldsShown := ValidateForm(f);
    var _, documentErrors := ValidateDocuments(f);
    shown := FormErrors(fieldsShown.fields, documentErrors);
  }

  // -----------------------------------------------------------------------
  // handleEnrollSubmit

  /** The submitted full name: "first last", or "first last, suffix". */
  function FullName(f: EnrollmentForm): string
  {
    if f.suffix != "" then f.firstName + " " + f.lastName + ", " + f.suffix
    else f.firstName + " " + f.lastName
  }

  const OthersPrefix := "Others: "

  /** The submitted attainment: "Others" carries the school after it. */
  function Attainment(f: EnrollmentForm): string
  {
    if f.educationalAttainment == "Others" then OthersPrefix + f.currentSchool else f.educationalAttainment
  }

  /** Reads the school back out of a submitted attainment. */
  function SchoolOf(attainment: string): Option<string>
  {
    if StartsWith(attainment, OthersPrefix) then Some(attainment[|OthersPrefix|..]) else None
  }

  /** What the page hands to `submitPreEnrollment`. The ledger keeps every
      field but the attainment, and turns the file into a stored document. */
  datatype Submission = Submission(
    studentId: string, courseId: string, name: string, email: string,
    phone: string, dateOfBirth: string, address: string, guardianName: string,
    guardianPhone: string, educationalAttainment: string, document: Option<File>)

  function SubmissionOf(u: Auth.Session, courseId: string, f: EnrollmentForm, documentId: RequirementId): Submission
  {
    Submission(u.id, courseId, FullName(f), f.email, f.phone, f.dateOfBirth, f.address,
      f.guardianName, f.guardianPhone, Attainment(f),
      if documentId in f.documents then Some(f.documents[documentId]) else None)
  }

  datatype SubmitOutcome =
    | Unable(message: string)
    | NotValid
    | Send(submission: Submission)
    | SubmitFailed(message: string)

  const UnableMessage := "Unable to submit enrollment. Please try again."
  const FailedMessage := "Failed to submit pre-enrollment request. Please try again."

  /** `handleEnrollSubmit`: nothing without a user and a course; otherwise
      the form is validated and, when valid, the request is built with the
      file of the requirement at the stepper's position. A position past
      the requirements makes the lookup throw, which the page reports as a
      failed submission. */
  method HandleEnrollSubmit(user: Option<Auth.Session>, selectedCourse: Option<string>, f: EnrollmentForm, activeStep: nat)
    returns (r: SubmitOutcome, shown: Option<FormErrors>)
    ensures user.None? || selectedCourse.None? || selectedCourse.value == "" ==> r == Unable(UnableMessage) && shown.None?
    ensures user.Some? && selectedCourse.Some? && selectedCourse.value != "" ==>
      && shown == Some(FormErrors(FieldErrors(f), map[]))
      && (r.NotValid? <==> !(FieldsValid(f) && DocumentsValid(f)))
      && (r.Send? <==> FieldsValid(f) && DocumentsValid(f) && activeStep < |Requirements|)
      && (r.Send? ==> r.submission == SubmissionOf(user.value, selectedCourse.value, f, Requirements[activeStep]))
      && (r.SubmitFailed? ==> r.message == FailedMessage)
  {
    if user.None? || selectedCourse.None? || selectedCourse.value == "" {
      return Unable(UnableMessage), None;
    }
    var isValid, errors := ValidateForm(f);
    shown := Some(errors);
    if !isValid {
      return NotValid, shown;
    }
    if activeStep >= |Requirements| {
      return SubmitFailed(FailedMessage), shown;
    }
    r := Send(SubmissionOf(user.value, selectedCourse.value, f, Requirements[activeStep]));
  }

  // -----------------------------------------------------------------------
  // Properties

  /** Once the ledger keeps one request per student and course, the
      page's extra "any approved request" check agrees with the ledger's
      own status. */
  lemma PageStatusAgreesOnValidLedger(user: Option<Auth.Session>, rs: seq<PE.PreEnrollment>, courseId: string)
    requires PE.UniquePairs(rs) && user.Some? && user.value.id != ""
    ensures CourseEnrollmentStatus(user, rs, courseId) == PE.StudentEnrollmentStatus(rs, user.value.id, courseId)
  {
    var sid := user.value.id;
    if HasApproved(rs, sid, courseId) {
      var i :| 0 <= i < |rs| && PE.IsPair(rs[i], sid, courseId) && rs[i].status == PE.Approved;
      var s := PE.StudentEnrollmentStatus(rs, sid, courseId);
      var j :| 0 <= j < |rs| && PE.IsPair(rs[j], sid, courseId) && rs[j].status == s.value;
      assert i == j;
    }
  }

  /** Without that invariant the two can disagree: an approved request
      followed by a later rejected one for the same course shows
      "approved" on this page while the ledger reports "rejected". */
  lemma PageStatusPrefersApproval(user: Option<Auth.Session>, a: PE.PreEnrollment, b: PE.PreEnrollment)
    requires user.Some? && user.value.id != ""
    requires PE.IsPair(a, user.value.id, b.courseId) && PE.IsPair(b, user.value.id, b.courseId)
    requires a.status == PE.Approved && b.status == PE.Rejected && a.updatedAt < b.updatedAt
    ensures CourseEnrollmentStatus(user, [a, b], b.courseId) == Some(PE.Approved)
    ensures PE.StudentEnrollmentStatus([a, b], user.value.id, b.courseId) == Some(PE.Rejected)
  {
    var rs := [a, b];
    assert HasApproved(rs, user.value.id, b.courseId) by {
      assert rs[0] == a;
    }
    var s := PE.StudentEnrollmentStatus(rs, user.value.id, b.courseId);
    assert rs[1] == b;
    var j :| 0 <= j < |rs| && PE.IsPair(rs[j], user.value.id, b.courseId) && rs[j].status == s.value
      && forall m :: 0 <= m < |rs| && PE.IsPair(rs[m], user.value.id, b.courseId) ==> rs[m].updatedAt <= rs[j].updatedAt;
    assert j == 1;
  }

  /** A course in which the student is enrolled is never offered, and its
      card (wherever it is shown) has the button disabled. */
  lemma EnrolledCourseNotOffered(user: Option<Auth.Session>, cs: seq<CC.Course>, rs: seq<PE.PreEnrollment>, c: CC.Course)
    requires user.Some? && user.value.id != "" && HasApproved(rs, user.value.id, c.id)
    ensures c !in AvailableCourses(user, cs, rs)
    ensures EnrollButtonProps(CourseEnrollmentStatus(user, rs, c.id), c).disabled
  {
  }

  /** The offered list keeps catalog order: it distributes over a split of
      the catalog. */
  lemma AvailableInOrder(user: Option<Auth.Session>, cs: seq<CC.Course>, more: seq<CC.Course>, rs: seq<PE.PreEnrollment>)
    ensures AvailableCourses(user, cs + more, rs) == AvailableCourses(user, cs, rs) + AvailableCourses(user, more, rs)
  {
    if user.Some? {
      FilterConcat(cs, more, (c: CC.Course) => IsAvailable(user, rs, c));
    }
  }

  /** The button is enabled exactly when a click opens the form and the
      course has room. */
  lemma ButtonAgreesWithClick(status: Option<PE.Status>, user: Option<Auth.Session>, c: CC.Course)
    ensures !EnrollButtonProps(status, c).disabled <==> EnrollClick(status, user, c.id).Opened? && !IsFull(c)
  {
  }

  /** Pre-filling splits the user's name at its first space: writing the
      two parts back with a space between them gives the name again when it
      has a space, and a name without one becomes the first name alone. */
  lemma PrefillRoundTrip(u: Auth.Session, f: EnrollmentForm)
    requires f.firstName == PrefillFor(u).firstName && f.lastName == PrefillFor(u).lastName && f.suffix == ""
    ensures ' ' in u.name ==> FullName(f) == u.name
    ensures ' ' !in u.name && u.name != "" ==> f.firstName == u.name && f.lastName == ""
  {
    if ' ' in u.name {
      var parts := Split(u.name, ' ');
      SplitJoin(u.name, ' ');
      assert |parts| >= 2;
      assert Join(parts, ' ') == parts[0] + [' '] + Join(parts[1..], ' ');
    }
  }

  /** The school typed under "Others" can be read back from the submitted
      attainment; any other attainment is sent unchanged and, unless it
      starts with "O", carries no school. */
  lemma AttainmentRoundTrip(f: EnrollmentForm)
    ensures f.educationalAttainment == "Others" ==> SchoolOf(Attainment(f)) == Some(f.currentSchool)
    ensures f.educationalAttainment != "Others" ==> Attainment(f) == f.educationalAttainment
    ensures f.educationalAttainment != "Others" && f.educationalAttainment != [] && f.educationalAttainment[0] != 'O'
      ==> SchoolOf(Attainment(f)).None?
  {
    if f.educationalAttainment == "Others" {
      assert (OthersPrefix + f.currentSchool)[..|OthersPrefix|] == OthersPrefix;
      assert (OthersPrefix + f.currentSchool)[|OthersPrefix|..] == f.currentSchool;
    } else if f.educationalAttainment != [] && f.educationalAttainment[0] != 'O' {
      assert OthersPrefix[0] == 'O';
    }
  }

  /** Splitting each requirement's format text at the commas gives its
      list of extensions. */
  lemma FormatsSplit(id: RequirementId)
    ensures Split(AcceptedFormats(id), ',') == FormatList(id)
  {
    match id
    case SchoolRecords => DocumentOrPdfSplit();
    case ApplicationForm => DocumentOrPdfSplit();
    case MedicalForm => PdfOnlySplit();
    case _ => ImageOrPdfSplit();
  }

  lemma ImageOrPdfSplit()
    ensures Split(ImageOrPdf, ',') == [".pdf", ".jpg", ".jpeg", ".png"]
  {
    var pieces := [".pdf", ".jpg", ".jpeg", ".png"];
    assert Join(pieces, ',') == ImageOrPdf;
    JoinSplit(pieces, ',');
  }

  lemma DocumentOrPdfSplit()
    ensures Split(DocumentOrPdf, ',') == [".pdf", ".doc", ".docx"]
  {
    var pieces := [".pdf", ".doc", ".docx"];
    assert Join(pieces, ',') == DocumentOrPdf;
    JoinSplit(pieces, ',');
  }

  lemma PdfOnlySplit()
    ensures Split(PdfOnly, ',') == [".pdf"]
  {
    var pieces := [".pdf"];
    assert Join(pieces, ',') == PdfOnly;
    JoinSplit(pieces, ',');
  }

  /** An extension as the lists write them: a dot, then lower-case
      letters. */
  predicate CleanExtension(e: string)
  {
    |e| >= 1 && e[0] == '.' && forall i :: 1 <= i < |e| ==> 'a' <= e[i] <= 'z'
  }

  /** Lower-casing and trimming leave such an extension as it is. */
  lemma CleanExtensionUnchanged(e: string)
    requires CleanExtension(e)
    ensures Trim(ToLower(e)) == e
  {
    assert ToLower(e) == e;
    assert TrimStart(e) == e;
    assert TrimEnd(e) == e;
  }

  /** Every listed extension is clean. */
  lemma FormatListClean(id: RequirementId)
    ensures forall k :: 0 <= k < |FormatList(id)| ==> CleanExtension(FormatList(id)[k])
  {
  }

  /** So the page's check on the format text is a plain suffix test
      against the list. */
  lemma AcceptedFileByList(name: string, id: RequirementId)
    ensures AcceptedFile(name, AcceptedFormats(id)) <==> EndsWithOneOf(ToLower(name), FormatList(id))
  {
    FormatsSplit(id);
    FormatListClean(id);
    var extensions := FormatList(id);
    forall k | 0 <= k < |extensions|
      ensures Trim(ToLower(extensions[k])) == extensions[k]
    {
      CleanExtensionUnchanged(extensions[k]);
    }
  }

  /** A PDF (in any letter case) is accepted for every requirement. */
  lemma PdfAlwaysAccepted(name: string, id: RequirementId)
    requires EndsWith(ToLower(name), ".pdf")
    ensures AcceptedFile(name, AcceptedFormats(id))
  {
    AcceptedFileByList(name, id);
    assert FormatList(id)[0] == ".pdf";
  }

  /** The medical form accepts PDFs and nothing else. */
  lemma MedicalFormOnlyPdf(name: string)
    ensures AcceptedFile(name, AcceptedFormats(MedicalForm)) <==> EndsWith(ToLower(name), ".pdf")
  {
    AcceptedFileByList(name, MedicalForm);
    var extensions := FormatList(MedicalForm);
    if EndsWith(ToLower(name), ".pdf") {
      assert EndsWith(ToLower(name), extensions[0]);
    }
  }

  /** As written, a wrong-format file blocks the submission while the page
      shows no message at all: every field is valid, so the field errors are
      empty, and the document message is dropped. The corrected validator
      shows it. */
  lemma DocumentErrorHidden(f: EnrollmentForm, file: File)
    requires FieldsValid(f) && f.documents == map[MedicalForm := file]
    requires !EndsWith(ToLower(file.name), ".pdf")
    ensures !DocumentsValid(f)
    ensures NoMessages(FieldErrors(f))
    ensures DocumentErrors(f, Requirements) == map[MedicalForm := InvalidFormat(MedicalForm)]
  {
    NoMessagesIffValid(f);
    assert FormatList(MedicalForm) == [".pdf"];
    assert !DocumentOk(f, Requirements[5]);
    var e := DocumentErrors(f, Requirements);
    forall k | 0 <= k < |Requirements| && k != 5
      ensures Requirements[k] !in e
    {
      assert Requirements[k] != MedicalForm;
    }
    assert e.Keys == {MedicalForm};
  }

  /** With the correction, an invalid form always shows at least one
      message. */
  lemma InvalidFormShowsAMessage(f: EnrollmentForm)
    requires !(FieldsValid(f) && DocumentsValid(f))
    ensures !NoMessages(FieldErrors(f)) || DocumentErrors(f, Requirements) != map[]
  {
    if FieldsValid(f) {
      var k :| 0 <= k < |Requirements| && !DocumentOk(f, Requirements[k]);
      assert Requirements[k] in DocumentErrors(f, Requirements);
    }
  }
}
