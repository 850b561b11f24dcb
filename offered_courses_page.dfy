/** The student's course list (OfferedCourses.tsx): the active courses that
    match the search and department, the enroll button of each course, and
    the short pre-enrollment form it opens. */
module OfferedCoursesPage {
  import opened Common
  import CC = CourseContext
  import PE = PreEnrollmentContext
  import NC = NotificationContext
  import Auth = AuthContext
  import CM = CourseManagementPage

  // -----------------------------------------------------------------------
  // The course list

  /** A course is offered when it is active, its title or code contains the
      search text (both lower-cased) and its department is the chosen one
      (or the filter is "all"). The department choices are
      `CM.Departments`. */
  predicate Offered(c: CC.Course, search: string, department: string)
  {
    && (Contains(ToLower(c.title), ToLower(search)) || Contains(ToLower(c.code), ToLower(search)))
    && (department == CM.All || c.department == Some(department))
    && c.status == CC.Active
  }

  function OfferedCourses(cs: seq<CC.Course>, search: string, department: string): (r: seq<CC.Course>)
    ensures forall i :: 0 <= i < |r| ==> r[i] in cs && r[i].status == CC.Active && Offered(r[i], search, department)
    ensures forall i :: 0 <= i < |cs| && Offered(cs[i], search, department) ==> cs[i] in r
  {
    Filter(cs, (c: CC.Course) => Offered(c, search, department))
  }

  // -----------------------------------------------------------------------
  // The enroll button and the status chip

  predicate IsFull(c: CC.Course)
  {
    c.currentEnrollment >= c.enrollmentLimit
  }

  datatype ButtonLabel = AlreadyEnrolled | EnrollmentPending | EnrollNow

  function LabelText(l: ButtonLabel): string
  {
    match l
    case AlreadyEnrolled => "Already Enrolled"
    case EnrollmentPending => "Enrollment Pending"
    case EnrollNow => "Enroll Now"
  }

  datatype EnrollButton = EnrollButton(disabled: bool, caption: ButtonLabel)

  /** The button as written: it looks for the status "enrolled", which no
      operation sets, so an approved request leaves it enabled. */
  function EnrollButtonAsWritten(c: CC.Course, status: Option<PE.Status>): EnrollButton
  {
    EnrollButton(
      IsFull(c) || status == Some(PE.Enrolled) || status == Some(PE.Pending),
      if status == Some(PE.Enrolled) then AlreadyEnrolled
      else if status == Some(PE.Pending) then EnrollmentPending
      else EnrollNow)
  }

  /** The button as intended: an approved request counts as enrolled. */
  function EnrollButtonFor(c: CC.Course, status: Option<PE.Status>): EnrollButton
  {
    var enrolled := status == Some(PE.Enrolled) || status == Some(PE.Approved);
    EnrollButton(
      IsFull(c) || enrolled || status == Some(PE.Pending),
      if enrolled then AlreadyEnrolled
      else if status == Some(PE.Pending) then EnrollmentPending
      else EnrollNow)
  }

  datatype ChipColor = SuccessColor | WarningColor | DefaultColor

  /** The status chip's colour; the chip shows the status text itself. */
  function StatusChipColor(status: PE.Status): (r: ChipColor)
    ensures r == SuccessColor <==> status == PE.Enrolled
    ensures r == WarningColor <==> status == PE.Pending
  {
    match status
    case Enrolled => SuccessColor
    case Pending => WarningColor
    case _ => DefaultColor
  }

  // -----------------------------------------------------------------------
  // The pre-enrollment dialog

  /** The dialog's fields. */
  datatype Form = Form(studentId: string, name: string, email: string, phone: string, courseId: string)

  /** The form as the page starts, from the signed-in user if any. */
  function InitialForm(user: Option<Auth.Session>): (r: Form)
    ensures user.Some? ==> r.studentId == user.value.id && r.name == user.value.name && r.email == user.value.email
    ensures user.None? ==> r.studentId == "" && r.name == "" && r.email == ""
    ensures r.phone == "" && r.courseId == ""
  {
    if user.Some? then Form(user.value.id, user.value.name, user.value.email, "", "")
    else Form("", "", "", "", "")
  }

  /** What the dialog submits: the form with the dialog's course. The fields
      this form does not have are sent empty. */
  function Submission(f: Form, courseId: string): (r: PE.FormData)
    ensures r.courseId == courseId && r.studentId == f.studentId && r.phone == f.phone
    ensures r.document.None?
  {
    PE.FormData(f.studentId, courseId, f.name, f.email, f.phone, "", "", "", "", None)
  }

  class OfferedCoursesView {
    const ledger: PE.PreEnrollmentLedger
    var form: Form
    var dialogOpen: bool
    var dialogCourse: Option<CC.Course>

    constructor (ledger: PE.PreEnrollmentLedger, user: Option<Auth.Session>)
      ensures this.ledger == ledger && form == InitialForm(user)
      ensures !dialogOpen && dialogCourse.None?
    {
      this.ledger := ledger;
      form := InitialForm(user);
      dialogOpen := false;
      dialogCourse := None;
    }

    /** Clicking an enabled button opens the dialog for that course. */
    method Open(c: CC.Course)
      modifies this
      ensures dialogOpen && dialogCourse == Some(c) && form == old(form)
    {
      dialogOpen := true;
      dialogCourse := Some(c);
    }

    /** `handleEnrollmentSubmit`: submits the form for the dialog's course,
        closes the dialog and clears the phone and course; with no course it
        does nothing. */
    method Submit(id: string, noticeId: string, now: int)
      modifies this, ledger, ledger.feed
      ensures old(dialogCourse).None? ==>
        && ledger.requests == old(ledger.requests) && ledger.feed.notifications == old(ledger.feed.notifications)
        && form == old(form) && dialogOpen == old(dialogOpen)
      ensures old(dialogCourse).Some? ==>
        var d := Submission(old(form), old(dialogCourse).value.id);
        && ledger.requests == PE.Submitted(old(ledger.requests), d, id, now)
        && ledger.feed.notifications
           == NC.PostedOpt(old(ledger.feed.notifications), PE.SubmitNotice(old(ledger.requests), d, ledger.catalog.courses), noticeId, now)
        && !dialogOpen && dialogCourse.None?
        && form == old(form).(phone := "", courseId := "")
    {
      if dialogCourse.None? {
        return;
      }
      ledger.SubmitPreEnrollment(Submission(form, dialogCourse.value.id), id, noticeId, now);
      dialogOpen := false;
      dialogCourse := None;
      form := form.(phone := "", courseId := "");
    }
  }

  // -----------------------------------------------------------------------
  // Properties

  /** The student's list is the administrator's list with the status filter
      set to "active". */
  lemma {:induction false} OfferedIsActiveFilter(cs: seq<CC.Course>, search: string, department: string)
    ensures OfferedCourses(cs, search, department) == CM.FilteredCourses(cs, search, department, Some(CC.Active))
  {
    if cs != [] {
      OfferedIsActiveFilter(cs[1..], search, department);
    }
  }

  /** The button's label and state: "Already Enrolled" and "Enrollment
      Pending" always come with a disabled button, and a full course is
      never open. */
  lemma ButtonLabels(c: CC.Course, status: Option<PE.Status>)
    ensures var b := EnrollButtonFor(c, status);
      (b.caption != EnrollNow ==> b.disabled) && (IsFull(c) ==> b.disabled)
      && (b.caption == EnrollNow <==> status.None? || status == Some(PE.Rejected))
    ensures var b := EnrollButtonAsWritten(c, status);
      (b.caption != EnrollNow ==> b.disabled) && (IsFull(c) ==> b.disabled)
  {
    if status.Some? {
      match status.value
      case Pending =>
      case Approved =>
      case Rejected =>
      case Enrolled =>
    }
  }

  /** As written, a student whose request was approved still sees "Enroll
      Now" on a course with room, and submitting again changes nothing. */
  lemma ApprovedStudentSeesEnrollNow(c: CC.Course, rs: seq<PE.PreEnrollment>, f: Form, id: string, now: int)
    requires PE.Valid(rs) && !IsFull(c)
    requires PE.StudentEnrollmentStatus(rs, f.studentId, c.id) == Some(PE.Approved)
    ensures EnrollButtonAsWritten(c, Some(PE.Approved)) == EnrollButton(false, EnrollNow)
    ensures PE.Submitted(rs, Submission(f, c.id), id, now) == rs
  {
    var k :| 0 <= k < |rs| && PE.IsPair(rs[k], f.studentId, c.id) && rs[k].status == PE.Approved;
    PE.SubmitExistingIsNoOp(rs, Submission(f, c.id), id, now, [], k);
  }

  /** With approval counted as enrolled, the button of a course with room is
      enabled exactly when submitting would change the requests: a first
      request is added, or a rejected one goes back to pending. */
  lemma EnabledIffSubmitChanges(c: CC.Course, rs: seq<PE.PreEnrollment>, f: Form, id: string, now: int)
    requires PE.Valid(rs) && !IsFull(c)
    ensures var status := PE.StudentEnrollmentStatus(rs, f.studentId, c.id);
      !EnrollButtonFor(c, status).disabled <==> PE.Submitted(rs, Submission(f, c.id), id, now) != rs
  {
    PE.SubmitChangesIff(rs, Submission(f, c.id), id, now);
  }
}
