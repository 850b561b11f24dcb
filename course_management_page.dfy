/** The administrator's course table (CourseManagement.tsx): the search and
    filters, the department list, the add/edit form and what it sends to
    the catalog, the per-course student lists and deletion. */
module CourseManagementPage {
  import opened Common
  import CC = CourseContext
  import PE = PreEnrollmentContext

  // -----------------------------------------------------------------------
  // Search and filters

  /** The filter value meaning "no restriction", for both drop-downs. */
  const All := "all"

  /** The status drop-down: "all" (`None`) or one status. */
  type StatusFilter = Option<CC.CourseStatus>

  /** A course is listed when its title or code contains the search text
      (both lower-cased), its department is the chosen one (or the filter
      is "all"), and its status is the chosen one (or the filter is
      "all"). */
  predicate Listed(c: CC.Course, search: string, department: string, status: StatusFilter)
  {
    && (Contains(ToLower(c.title), ToLower(search)) || Contains(ToLower(c.code), ToLower(search)))
    && (department == All || c.department == Some(department))
    && (status.None? || c.status == status.value)
  }

  function FilteredCourses(cs: seq<CC.Course>, search: string, department: string, status: StatusFilter): (r: seq<CC.Course>)
    ensures forall i :: 0 <= i < |r| ==> r[i] in cs && Listed(r[i], search, department, status)
    ensures forall i :: 0 <= i < |cs| && Listed(cs[i], search, department, status) ==> cs[i] in r
  {
    Filter(cs, (c: CC.Course) => Listed(c, search, department, status))
  }

  /** Department `a` turns up in `cs` before any course of department `b`. */
  ghost predicate FirstBefore(cs: seq<CC.Course>, a: string, b: string)
  {
    exists k :: 0 <= k < |cs| && cs[k].department == Some(a)
      && forall m :: 0 <= m <= k ==> cs[m].department != Some(b)
  }

  /** The department drop-down: each non-empty department once, in order of
      first appearance. */
  function Departments(cs: seq<CC.Course>): (r: seq<string>)
    ensures forall i, j :: 0 <= i < j < |r| ==> r[i] != r[j]
    ensures forall d :: d in r <==> d != "" && exists i :: 0 <= i < |cs| && cs[i].department == Some(d)
    ensures forall i, j :: 0 <= i < j < |r| ==> FirstBefore(cs, r[i], r[j])
  {
    if cs == [] then []
    else
      var before := Departments(cs[..|cs| - 1]);
      var last := cs[|cs| - 1].department;
      assert forall i :: 0 <= i < |cs| - 1 ==> cs[..|cs| - 1][i] == cs[i];
      if last.Some? && last.value != "" && last.value !in before then
        DepartmentsGrowInOrder(cs, cs[..|cs| - 1], before, before + [last.value]);
        before + [last.value]
      else
        DepartmentsKeepOrder(cs, cs[..|cs| - 1], before);
        before
  }

  /** Ordering facts of the prefix carry over when `cs` gains a course. */
  lemma DepartmentsKeepOrder(cs: seq<CC.Course>, prefix: seq<CC.Course>, before: seq<string>)
    requires |cs| > 0 && prefix == cs[..|cs| - 1]
    requires forall i, j :: 0 <= i < j < |before| ==> FirstBefore(prefix, before[i], before[j])
    ensures forall i, j :: 0 <= i < j < |before| ==> FirstBefore(cs, before[i], before[j])
  {
    forall i, j | 0 <= i < j < |before|
      ensures FirstBefore(cs, before[i], before[j])
    {
      var k :| 0 <= k < |prefix| && prefix[k].department == Some(before[i])
        && forall m :: 0 <= m <= k ==> prefix[m].department != Some(before[j]);
      assert cs[k].department == Some(before[i]);
      forall m | 0 <= m <= k
        ensures cs[m].department != Some(before[j])
      {
        assert prefix[m] == cs[m];
      }
    }
  }

  /** A department new at the last course comes after every earlier one. */
  lemma DepartmentsGrowInOrder(cs: seq<CC.Course>, prefix: seq<CC.Course>, before: seq<string>, r: seq<string>)
    requires |cs| > 0 && prefix == cs[..|cs| - 1] && cs[|cs| - 1].department.Some?
    requires r == before + [cs[|cs| - 1].department.value]
    requires cs[|cs| - 1].department.value != "" && cs[|cs| - 1].department.value !in before
    requires forall d :: d in before <==> d != "" && exists i :: 0 <= i < |prefix| && prefix[i].department == Some(d)
    requires forall i, j :: 0 <= i < j < |before| ==> FirstBefore(prefix, before[i], before[j])
    ensures forall i, j :: 0 <= i < j < |r| ==> FirstBefore(cs, r[i], r[j])
  {
    var b := cs[|cs| - 1].department.value;
    DepartmentsKeepOrder(cs, prefix, before);
    forall i, j | 0 <= i < j < |r|
      ensures FirstBefore(cs, r[i], r[j])
    {
      if j < |before| {
        assert r[i] == before[i] && r[j] == before[j];
      } else {
        assert r[i] == before[i] && r[j] == b;
        assert before[i] in before;
        var k :| 0 <= k < |prefix| && prefix[k].department == Some(before[i]);
        assert cs[k].department == Some(before[i]);
        forall m | 0 <= m <= k
          ensures cs[m].department != Some(b)
        {
          assert prefix[m] == cs[m];
        }
      }
    }
  }

  // -----------------------------------------------------------------------
  // The add/edit form

  /** The dialog's fields; optional course fields are edited as plain text
      or number. */
  datatype Form = Form(
    code: string, title: string, description: string, department: string,
    instructor: string, duration: int, schedule: string, enrollmentLimit: int,
    units: int, fee: int, startDate: string)

  /** The empty form; its start date (a week from when the page module was
      loaded) is given. */
  function InitialForm(startDate: string): (r: Form)
    ensures r.duration == 8 && r.enrollmentLimit == 30 && r.units == 3 && r.fee == 5000
    ensures r.code == "" && r.title == "" && r.department == "" && r.startDate == startDate
  {
    Form("", "", "", "", "", 8, "", 30, 3, 5000, startDate)
  }

  /** `handleEdit`: the form filled from a course. Absent text becomes empty
      and absent (or zero) units become 3, as `||` does. */
  function FormOf(c: CC.Course): Form
  {
    Form(c.code, c.title, c.description,
      if c.department.Some? then c.department.value else "",
      c.instructor, c.duration, c.schedule, c.enrollmentLimit,
      if c.units.Some? && c.units.value != 0 then c.units.value else 3,
      c.fee, c.startDate)
  }

  /** What saving an edit sends: every form field, and the status the course
      had when the edit began. */
  function EditPatch(f: Form, status: CC.CourseStatus): CC.CoursePatch
  {
    CC.CoursePatch(None, Some(f.code), Some(f.title), Some(f.description), Some(f.department),
      Some(f.instructor), Some(status), Some(f.duration), Some(f.schedule),
      Some(f.enrollmentLimit), None, Some(f.fee), Some(f.startDate), Some(f.units), None,
      None, None)
  }

  /** What saving a new course sends: the form, active. */
  function NewCourseData(f: Form): (r: CC.CourseData)
    ensures r.status == CC.Active
    ensures r.code == f.code && r.title == f.title && r.enrollmentLimit == f.enrollmentLimit
    ensures r.department == Some(f.department) && r.units == Some(f.units) && r.syllabus.None?
  {
    CC.CourseData(f.code, f.title, f.description, Some(f.department), f.instructor, CC.Active,
      f.duration, f.schedule, f.enrollmentLimit, f.fee, f.startDate, Some(f.units), None)
  }

  // -----------------------------------------------------------------------
  // Students of a course

  predicate OfCourseWith(r: PE.PreEnrollment, courseId: string, s: PE.Status)
  {
    r.courseId == courseId && r.status == s
  }

  /** `getEnrolledStudents` (status approved) and `getPendingStudents`
      (status pending): the course's requests with that status, in order. */
  function StudentsWith(rs: seq<PE.PreEnrollment>, courseId: string, s: PE.Status): (r: seq<PE.PreEnrollment>)
    ensures forall i :: 0 <= i < |r| ==> r[i] in rs && r[i].courseId == courseId && r[i].status == s
    ensures forall i :: 0 <= i < |rs| && rs[i].courseId == courseId && rs[i].status == s ==> rs[i] in r
  {
    Filter(rs, (r: PE.PreEnrollment) => OfCourseWith(r, courseId, s))
  }

  // -----------------------------------------------------------------------
  // Deleting a course

  predicate OtherCourse(r: PE.PreEnrollment, courseId: string) { r.courseId != courseId }

  /** Requests whose course is no longer in the catalog. */
  predicate Orphaned(cs: seq<CC.Course>, r: PE.PreEnrollment)
  {
    forall i :: 0 <= i < |cs| ==> cs[i].id != r.courseId
  }

  /** The delete dialog adds its warning that the enrollment records will be
      removed exactly when the course counts enrolled students. */
  predicate WarnsOfRecords(c: CC.Course)
  {
    c.currentEnrollment > 0
  }

  /** Deletion as the page does it: the catalog loses the course and the
      requests stay as they are. */
  function AfterDeleteAsWritten(cs: seq<CC.Course>, rs: seq<PE.PreEnrollment>, id: string): (seq<CC.Course>, seq<PE.PreEnrollment>)
  {
    (CC.Deleted(cs, id), rs)
  }

  /** Deletion as the confirmation dialog describes it: the course's
      requests go with it. */
  function AfterDelete(cs: seq<CC.Course>, rs: seq<PE.PreEnrollment>, id: string): (r: (seq<CC.Course>, seq<PE.PreEnrollment>))
    ensures r.0 == CC.Deleted(cs, id)
    ensures forall i :: 0 <= i < |r.1| ==> r.1[i] in rs && r.1[i].courseId != id
    ensures forall i :: 0 <= i < |rs| && rs[i].courseId != id ==> rs[i] in r.1
  {
    (CC.Deleted(cs, id), Filter(rs, (r: PE.PreEnrollment) => OtherCourse(r, id)))
  }

  // -----------------------------------------------------------------------
  // The page's state and its handlers

  class CourseAdminPage {
    const catalog: CC.CourseCatalog
    const ledger: PE.PreEnrollmentLedger
    /** The empty form's start date, fixed when the page module loads. */
    const initialStartDate: string
    var form: Form
    var editing: Option<CC.Course>
    var dialogOpen: bool
    var courseToDelete: Option<CC.Course>
    var deleteOpen: bool

    constructor (catalog: CC.CourseCatalog, ledger: PE.PreEnrollmentLedger, initialStartDate: string)
      ensures this.catalog == catalog && this.ledger == ledger && this.initialStartDate == initialStartDate
      ensures form == InitialForm(initialStartDate) && editing.None? && courseToDelete.None?
      ensures !dialogOpen && !deleteOpen
    {
      this.catalog := catalog;
      this.ledger := ledger;
      this.initialStartDate := initialStartDate;
      form := InitialForm(initialStartDate);
      editing := None;
      dialogOpen := false;
      courseToDelete := None;
      deleteOpen := false;
    }

    /** `handleEdit`. */
    method Edit(c: CC.Course)
      modifies this
      ensures editing == Some(c) && form == FormOf(c) && dialogOpen
      ensures courseToDelete == old(courseToDelete) && deleteOpen == old(deleteOpen)
    {
      editing := Some(c);
      form := FormOf(c);
      dialogOpen := true;
    }

    /** `handleSubmit` followed by `handleClose`: an edit updates the course
        being edited and keeps its status; otherwise the form is added as an
        active course. The dialog closes and the form is reset. */
    method Submit(newId: string, now: int)
      modifies this, catalog
      ensures old(editing).Some? ==>
        catalog.courses == CC.Updated(old(catalog.courses), old(editing).value.id, EditPatch(old(form), old(editing).value.status), now)
      ensures old(editing).None? ==>
        catalog.courses == old(catalog.courses) + [CC.NewCourse(NewCourseData(old(form)), newId, now)]
      ensures !dialogOpen && editing.None? && form == InitialForm(initialStartDate)
      ensures courseToDelete == old(courseToDelete) && deleteOpen == old(deleteOpen)
    {
      if editing.Some? {
        catalog.UpdateCourse(editing.value.id, EditPatch(form, editing.value.status), now);
      } else {
        catalog.AddCourse(NewCourseData(form), newId, now);
      }
      dialogOpen := false;
      editing := None;
      form := InitialForm(initialStartDate);
    }

    method AskDelete(c: CC.Course)
      modifies this
      ensures courseToDelete == Some(c) && deleteOpen
      ensures form == old(form) && editing == old(editing) && dialogOpen == old(dialogOpen)
    {
      courseToDelete := Some(c);
      deleteOpen := true;
    }

    /** `handleDeleteConfirm` as written: only the catalog changes. */
    method ConfirmDelete()
      modifies this, catalog
      ensures old(courseToDelete).None? ==> catalog.courses == old(catalog.courses) && deleteOpen == old(deleteOpen)
      ensures old(courseToDelete).Some? ==>
        catalog.courses == AfterDeleteAsWritten(old(catalog.courses), ledger.requests, old(courseToDelete).value.id).0
        && !deleteOpen && courseToDelete.None?
    {
      if courseToDelete.Some? {
        catalog.DeleteCourse(courseToDelete.value.id);
        deleteOpen := false;
        courseToDelete := None;
      }
    }

    /** Deletion that also removes the course's enrollment records, as the
        dialog's warning says. */
    method ConfirmDeleteWithRecords()
      modifies this, catalog, ledger
      ensures old(courseToDelete).None? ==>
        catalog.courses == old(catalog.courses) && ledger.requests == old(ledger.requests)
      ensures old(courseToDelete).Some? ==>
        (catalog.courses, ledger.requests) == AfterDelete(old(catalog.courses), old(ledger.requests), old(courseToDelete).value.id)
        && !deleteOpen && courseToDelete.None?
    {
      if courseToDelete.Some? {
        var after := AfterDelete(catalog.courses, ledger.requests, courseToDelete.value.id);
        catalog.DeleteCourse(courseToDelete.value.id);
        ledger.requests := after.1;
        deleteOpen := false;
        courseToDelete := None;
      }
    }
  }

  // -----------------------------------------------------------------------
  // Properties

  /** With an empty search and both filters at "all", every course is
      listed, in order. */
  lemma NoFilterListsAll(cs: seq<CC.Course>)
    ensures FilteredCourses(cs, "", All, None) == cs
  {
    forall i | 0 <= i < |cs|
      ensures Listed(cs[i], "", All, None)
    {
      EmptyIsContained(ToLower(cs[i].title));
    }
    FilterAll(cs, (c: CC.Course) => Listed(c, "", All, None));
  }

  /** The search ignores case: searching for a text or its lower-case form
      lists the same courses. */
  lemma {:induction false} SearchIgnoresCase(cs: seq<CC.Course>, search: string, department: string, status: StatusFilter)
    ensures FilteredCourses(cs, ToLower(search), department, status) == FilteredCourses(cs, search, department, status)
  {
    if cs != [] {
      ToLowerIdempotent(search);
      SearchIgnoresCase(cs[1..], search, department, status);
    }
  }

  /** Saving an edit never changes the course's status, identity, counter or
      creation time, whatever the form holds. */
  lemma EditKeepsStatus(c: CC.Course, f: Form, now: int)
    ensures var m := CC.Merge(c, EditPatch(f, c.status), now);
      m.status == c.status && m.id == c.id && m.currentEnrollment == c.currentEnrollment
      && m.createdAt == c.createdAt && m.updatedAt == now
      && m.title == f.title && m.enrollmentLimit == f.enrollmentLimit
  {
  }

  /** Opening a course for editing and saving it unchanged gives back the
      course (with a new update time) when its department and a non-zero
      unit count are set; otherwise those come back as "" and 3. */
  lemma EditRoundTrip(c: CC.Course, now: int)
    ensures var m := CC.Merge(c, EditPatch(FormOf(c), c.status), now);
      (c.department.Some? && c.units.Some? && c.units.value != 0 ==> m == c.(updatedAt := now))
      && (c.department.None? ==> m.department == Some(""))
      && (c.units.None? || c.units == Some(0) ==> m.units == Some(3))
  {
  }

  /** A new course starts active and empty. */
  lemma AddedCourseIsActive(f: Form, id: string, now: int)
    ensures var c := CC.NewCourse(NewCourseData(f), id, now);
      c.status == CC.Active && c.currentEnrollment == 0 && c.id == id && c.title == f.title
  {
  }

  /** No request is both in the course's enrolled list and in its pending
      list. */
  lemma EnrolledAndPendingDisjoint(rs: seq<PE.PreEnrollment>, courseId: string, r: PE.PreEnrollment)
    ensures !(r in StudentsWith(rs, courseId, PE.Approved) && r in StudentsWith(rs, courseId, PE.Pending))
  {
  }

  /** As written, deleting a course that has a request leaves that request
      pointing at a course the catalog no longer has. */
  lemma DeleteLeavesOrphans(cs: seq<CC.Course>, rs: seq<PE.PreEnrollment>, id: string, k: nat)
    requires k < |rs| && rs[k].courseId == id
    ensures var after := AfterDeleteAsWritten(cs, rs, id);
      after.1[k] == rs[k] && Orphaned(after.0, after.1[k])
  {
  }

  /** The case the warning speaks of: a course with one enrolled student and
      its approved request. The dialog warns that the record will be removed,
      and after deletion the request is still there, without its course. */
  lemma WarnedDeleteKeepsRecord(c: CC.Course, r: PE.PreEnrollment)
    requires c.currentEnrollment == 1 && r.courseId == c.id && r.status == PE.Approved
    ensures WarnsOfRecords(c)
    ensures AfterDeleteAsWritten([c], [r], c.id) == ([], [r]) && Orphaned([], r)
  {
  }

  /** With the records removed too, no request is left without its course,
      provided none was before. */
  lemma DeleteWithRecordsLeavesNoOrphans(cs: seq<CC.Course>, rs: seq<PE.PreEnrollment>, id: string)
    requires forall k :: 0 <= k < |rs| ==> !Orphaned(cs, rs[k])
    ensures var after := AfterDelete(cs, rs, id);
      forall k :: 0 <= k < |after.1| ==> !Orphaned(after.0, after.1[k])
  {
    var after := AfterDelete(cs, rs, id);
    forall k | 0 <= k < |after.1|
      ensures !Orphaned(after.0, after.1[k])
    {
      var r := after.1[k];
      var m :| 0 <= m < |rs| && rs[m] == r;
      var i :| 0 <= i < |cs| && cs[i].id == r.courseId;
      assert cs[i].id != id;
      assert cs[i] in after.0;
      var j :| 0 <= j < |after.0| && after.0[j] == cs[i];
    }
  }
}
