/** The course catalog (CourseContext.tsx): a list of courses, each with an
    occupancy counter `currentEnrollment` that only `updateEnrollmentCount`
    moves, clamped to [0, enrollmentLimit]. */
module CourseContext {
  import opened Common

  datatype CourseStatus = Active | Inactive

  datatype Course = Course(
    id: string, code: string, title: string, description: string,
    department: Option<string>, instructor: string, status: CourseStatus,
    duration: int, schedule: string, enrollmentLimit: int, currentEnrollment: int,
    fee: int, startDate: string, units: Option<int>, syllabus: Option<string>,
    createdAt: int, updatedAt: int)

  /** The argument of `addCourse`: a course without id, counter and timestamps. */
  datatype CourseData = CourseData(
    code: string, title: string, description: string, department: Option<string>,
    instructor: string, status: CourseStatus, duration: int, schedule: string,
    enrollmentLimit: int, fee: int, startDate: string, units: Option<int>,
    syllabus: Option<string>)

  /** The argument of `updateCourse`: a `Partial<Course>` after its JSON
      round trip, so an absent field (`None`) keeps the stored value. */
  datatype CoursePatch = CoursePatch(
    id: Option<string>, code: Option<string>, title: Option<string>,
    description: Option<string>, department: Option<string>, instructor: Option<string>,
    status: Option<CourseStatus>, duration: Option<int>, schedule: Option<string>,
    enrollmentLimit: Option<int>, currentEnrollment: Option<int>, fee: Option<int>,
    startDate: Option<string>, units: Option<int>, syllabus: Option<string>,
    createdAt: Option<int>, updatedAt: Option<int>)

  function Pick<T>(patch: Option<T>, current: T): T
  {
    if patch.Some? then patch.value else current
  }

  function PickOpt<T>(patch: Option<T>, current: Option<T>): Option<T>
  {
    if patch.Some? then patch else current
  }

  /** The occupancy bound the design promises for one course. */
  predicate InRange(c: Course)
  {
    0 <= c.currentEnrollment <= c.enrollmentLimit
  }

  predicate AllInRange(cs: seq<Course>)
  {
    forall i :: 0 <= i < |cs| ==> InRange(cs[i])
  }

  /** The course `addCourse` builds: the data, a fresh id, an empty counter. */
  function NewCourse(d: CourseData, id: string, now: int): Course
  {
    Course(id, d.code, d.title, d.description, d.department, d.instructor, d.status,
      d.duration, d.schedule, d.enrollmentLimit, 0, d.fee, d.startDate, d.units,
      d.syllabus, now, now)
  }

  /** `{...course, ...patch, id, currentEnrollment, createdAt, updatedAt: now}`. */
  function Merge(c: Course, p: CoursePatch, now: int): Course
  {
    Course(c.id, Pick(p.code, c.code), Pick(p.title, c.title),
      Pick(p.description, c.description), PickOpt(p.department, c.department),
      Pick(p.instructor, c.instructor), Pick(p.status, c.status),
      Pick(p.duration, c.duration), Pick(p.schedule, c.schedule),
      Pick(p.enrollmentLimit, c.enrollmentLimit), c.currentEnrollment,
      Pick(p.fee, c.fee), Pick(p.startDate, c.startDate), PickOpt(p.units, c.units),
      PickOpt(p.syllabus, c.syllabus), c.createdAt, now)
  }

  function Updated(cs: seq<Course>, id: string, p: CoursePatch, now: int): (r: seq<Course>)
    ensures |r| == |cs|
    ensures forall i :: 0 <= i < |cs| ==>
      r[i] == if cs[i].id == id then Merge(cs[i], p, now) else cs[i]
  {
    Map(cs, (c: Course) => if c.id == id then Merge(c, p, now) else c)
  }

  predicate HasOtherId(c: Course, id: string) { c.id != id }

  function Deleted(cs: seq<Course>, id: string): (r: seq<Course>)
    ensures forall i :: 0 <= i < |r| ==> r[i].id != id && r[i] in cs
    ensures forall i :: 0 <= i < |cs| && cs[i].id != id ==> cs[i] in r
  {
    Filter(cs, (c: Course) => HasOtherId(c, id))
  }

  /** `courses.findIndex(c => c.id === id)`, `None` for -1. */
  function FindIndex(cs: seq<Course>, id: string): (r: Option<nat>)
    ensures r.None? <==> forall i :: 0 <= i < |cs| ==> cs[i].id != id
    ensures r.Some? ==>
      r.value < |cs| && cs[r.value].id == id && (forall i :: 0 <= i < r.value ==> cs[i].id != id)
  {
    if cs == [] then None
    else if cs[0].id == id then Some(0)
    else
      var rest := FindIndex(cs[1..], id);
      if rest.None? then None else Some(rest.value + 1)
  }

  /** `courses.find(c => c.id === id)`: the first course with the id. */
  function FindById(cs: seq<Course>, id: string): (r: Option<Course>)
    ensures r.None? <==> forall i :: 0 <= i < |cs| ==> cs[i].id != id
    ensures r.Some? ==>
      exists i :: 0 <= i < |cs| && cs[i] == r.value && r.value.id == id && (forall j :: 0 <= j < i ==> cs[j].id != id)
  {
    var k := FindIndex(cs, id);
    if k.None? then None else Some(cs[k.value])
  }

  function Flip(s: CourseStatus): CourseStatus
  {
    if s == Active then Inactive else Active
  }

  /** `toggleCourseStatus`: only the first course with the id changes. */
  function Toggled(cs: seq<Course>, id: string, now: int): seq<Course>
  {
    var k := FindIndex(cs, id);
    if k.None? then cs
    else cs[k.value := cs[k.value].(status := Flip(cs[k.value].status), updatedAt := now)]
  }

  /** The counter `updateEnrollmentCount` computes for one course. */
  function NextCount(c: Course, increment: bool): int
  {
    if increment then
      (if c.currentEnrollment + 1 < c.enrollmentLimit then c.currentEnrollment + 1 else c.enrollmentLimit)
    else
      (if c.currentEnrollment - 1 > 0 then c.currentEnrollment - 1 else 0)
  }

  function AdjustOne(c: Course, increment: bool, now: int): Course
  {
    var n := NextCount(c, increment);
    if n == c.currentEnrollment then c else c.(currentEnrollment := n, updatedAt := now)
  }

  function Adjusted(cs: seq<Course>, id: string, increment: bool, now: int): (r: seq<Course>)
    ensures |r| == |cs|
    ensures forall i :: 0 <= i < |cs| ==>
      r[i] == if cs[i].id == id then AdjustOne(cs[i], increment, now) else cs[i]
  {
    Map(cs, (c: Course) => if c.id == id then AdjustOne(c, increment, now) else c)
  }

  /** Title of the course with the id, as the notification texts use it. */
  function CourseName(cs: seq<Course>, id: string): string
  {
    var c := FindById(cs, id);
    if c.Some? then c.value.title else "Unknown Course"
  }

  class CourseCatalog {
    var courses: seq<Course>

    /** The catalog as loaded (from storage, or the default courses). */
    constructor (saved: seq<Course>)
      ensures courses == saved
    {
      courses := saved;
    }

    method AddCourse(d: CourseData, id: string, now: int)
      modifies this
      ensures courses == old(courses) + [NewCourse(d, id, now)]
    {
      courses := courses + [NewCourse(d, id, now)];
    }

    method UpdateCourse(id: string, p: CoursePatch, now: int)
      modifies this
      ensures courses == Updated(old(courses), id, p, now)
    {
      courses := Updated(courses, id, p, now);
    }

    method DeleteCourse(id: string)
      modifies this
      ensures courses == Deleted(old(courses), id)
    {
      courses := Deleted(courses, id);
    }

    function GetCourseById(id: string): Option<Course>
      reads this
    {
      FindById(courses, id)
    }

    method ToggleCourseStatus(id: string, now: int)
      modifies this
      ensures courses == Toggled(old(courses), id, now)
    {
      var k := FindIndex(courses, id);
      if k.None? {
        return;
      }
      var c := courses[k.value];
      courses := courses[k.value := c.(status := Flip(c.status), updatedAt := now)];
    }

    method UpdateEnrollmentCount(id: string, increment: bool, now: int)
      modifies this
      ensures courses == Adjusted(old(courses), id, increment, now)
    {
      courses := Adjusted(courses, id, increment, now);
    }
  }

  // -----------------------------------------------------------------------
  // Properties

  /** `addCourse` appends exactly one course, with an empty counter and equal
      timestamps, and leaves every existing course as it was. */
  lemma AddCourseAppends(cs: seq<Course>, d: CourseData, id: string, now: int)
    ensures var r := cs + [NewCourse(d, id, now)];
      && |r| == |cs| + 1 && r[..|cs|] == cs
      && r[|cs|].currentEnrollment == 0 && r[|cs|].id == id
      && r[|cs|].createdAt == now == r[|cs|].updatedAt
      && r[|cs|].title == d.title && r[|cs|].enrollmentLimit == d.enrollmentLimit
      && r[|cs|].status == d.status
  {
  }

  /** Whatever the patch carries, `updateCourse` never changes a course's id,
      counter or creation time, and leaves other courses alone. */
  lemma UpdateCourseProtectsIdentity(cs: seq<Course>, id: string, p: CoursePatch, now: int, i: nat)
    requires i < |cs|
    ensures var r := Updated(cs, id, p, now);
      && r[i].id == cs[i].id
      && r[i].currentEnrollment == cs[i].currentEnrollment
      && r[i].createdAt == cs[i].createdAt
      && (cs[i].id != id ==> r[i] == cs[i])
      && (cs[i].id == id ==>
            r[i].updatedAt == now
            && r[i].enrollmentLimit == Pick(p.enrollmentLimit, cs[i].enrollmentLimit)
            && r[i].status == Pick(p.status, cs[i].status))
  {
  }

  /** `updateCourse` does not re-establish the occupancy bound: lowering the
      limit under the counter leaves the course over capacity. */
  lemma UpdateCourseCanBreakBound(c: Course, p: CoursePatch, now: int)
    requires c.currentEnrollment == 5 && c.enrollmentLimit == 10
    requires p.enrollmentLimit == Some(3)
    ensures InRange(c) && !InRange(Merge(c, p, now))
  {
  }

  /** The counter rule: +1 capped at the limit, -1 floored at 0. */
  lemma NextCountClamps(c: Course, increment: bool)
    ensures increment ==> NextCount(c, increment) == Min(c.currentEnrollment + 1, c.enrollmentLimit)
    ensures !increment ==> NextCount(c, increment) == Max(c.currentEnrollment - 1, 0)
    ensures InRange(c) ==> InRange(c.(currentEnrollment := NextCount(c, increment)))
  {
  }

  function Min(a: int, b: int): int { if a < b then a else b }
  function Max(a: int, b: int): int { if a > b then a else b }

  /** `updateEnrollmentCount` keeps every course in range if all were, moves
      only the named course's counter and time stamp, and returns the course
      untouched when the clamped value equals the current one. */
  lemma AdjustedPreservesRange(cs: seq<Course>, id: string, increment: bool, now: int)
    ensures var r := Adjusted(cs, id, increment, now);
      && (AllInRange(cs) ==> AllInRange(r))
      && forall i :: 0 <= i < |cs| ==>
           && r[i].id == cs[i].id
           && r[i] == cs[i].(currentEnrollment := r[i].currentEnrollment, updatedAt := r[i].updatedAt)
           && (cs[i].id != id ==> r[i] == cs[i])
           && (cs[i].id == id && NextCount(cs[i], increment) == cs[i].currentEnrollment ==> r[i] == cs[i])
           && (cs[i].id == id ==> r[i].currentEnrollment == NextCount(cs[i], increment))
  {
    var r := Adjusted(cs, id, increment, now);
    forall i | 0 <= i < |cs| && AllInRange(cs)
      ensures InRange(r[i])
    {
      NextCountClamps(cs[i], increment);
    }
  }

  /** When a course is already over capacity (after a limit was lowered),
      "increment" pulls the counter down to the limit. */
  lemma IncrementOverCapacityLowers(c: Course)
    requires c.currentEnrollment > c.enrollmentLimit
    ensures NextCount(c, true) == c.enrollmentLimit < c.currentEnrollment
  {
  }

  /** Toggling flips the status of the first course with the id and of
      nothing else; an unknown id leaves the list unchanged. */
  lemma ToggledFlipsFirst(cs: seq<Course>, id: string, now: int)
    ensures var r := Toggled(cs, id, now);
      && |r| == |cs|
      && ((forall i :: 0 <= i < |cs| ==> cs[i].id != id) ==> r == cs)
      && forall i :: 0 <= i < |cs| ==>
           r[i].id == cs[i].id
           && (r[i].status == cs[i].status <==> FindIndex(cs, id) != Some(i))
  {
  }

  /** Two toggles restore every status. */
  lemma ToggleTwiceRestores(cs: seq<Course>, id: string, t1: int, t2: int)
    ensures var r := Toggled(Toggled(cs, id, t1), id, t2);
      |r| == |cs| && forall i :: 0 <= i < |cs| ==> r[i] == cs[i].(updatedAt := r[i].updatedAt)
  {
    var once := Toggled(cs, id, t1);
    var k := FindIndex(cs, id);
    if k.Some? {
      assert forall i :: 0 <= i < |cs| ==> once[i].id == cs[i].id;
      assert FindIndex(once, id) == k;
    }
  }

  /** `deleteCourse` removes every course with the id and keeps the others in
      their order. */
  lemma DeleteCourseKeepsOthers(cs: seq<Course>, more: seq<Course>, id: string)
    ensures Deleted(cs + more, id) == Deleted(cs, id) + Deleted(more, id)
    ensures FindById(Deleted(cs, id), id).None?
  {
    FilterConcat(cs, more, (c: Course) => HasOtherId(c, id));
  }
}
