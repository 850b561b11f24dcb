/** The pre-enrollment ledger (PreEnrollmentContext.tsx): one request per
    student and course, moved between statuses by the administrator. Status
    changes across the "approved" boundary drive the occupancy counter of
    the course catalog, and every change posts to the notification feed. */
module PreEnrollmentContext {
  import opened Common
  import CC = CourseContext
  import NC = NotificationContext

  datatype Status = Pending | Approved | Rejected | Enrolled

  /** The uploaded file as stored: its name, the object URL made for it and
      its MIME type. */
  datatype Document = Document(name: string, url: string, mime: string)

  datatype PreEnrollment = PreEnrollment(
    id: string, studentId: string, courseId: string, status: Status,
    name: string, email: string, phone: string, dateOfBirth: string,
    address: string, guardianName: string, guardianPhone: string,
    document: Option<Document>, createdAt: int, updatedAt: int,
    adminFeedback: Option<string>)

  /** What the enrollment form submits (the file already turned into its
      stored description). */
  datatype FormData = FormData(
    studentId: string, courseId: string, name: string, email: string,
    phone: string, dateOfBirth: string, address: string, guardianName: string,
    guardianPhone: string, document: Option<Document>)

  /** The status as the notification texts spell it. */
  function StatusText(s: Status): string
  {
    match s
    case Pending => "pending"
    case Approved => "approved"
    case Rejected => "rejected"
    case Enrolled => "enrolled"
  }

  predicate IsPair(r: PreEnrollment, studentId: string, courseId: string)
  {
    r.studentId == studentId && r.courseId == courseId
  }

  /** `requests.find` for the pair, as an index. */
  function FindPair(rs: seq<PreEnrollment>, studentId: string, courseId: string): (r: Option<nat>)
    ensures r.None? <==> forall i :: 0 <= i < |rs| ==> !IsPair(rs[i], studentId, courseId)
    ensures r.Some? ==>
      r.value < |rs| && IsPair(rs[r.value], studentId, courseId)
      && (forall i :: 0 <= i < r.value ==> !IsPair(rs[i], studentId, courseId))
  {
    if rs == [] then None
    else if IsPair(rs[0], studentId, courseId) then Some(0)
    else
      var k := FindPair(rs[1..], studentId, courseId);
      if k.None? then None else Some(k.value + 1)
  }

  /** `requests.find(req => req.id === id)`, as an index. */
  function FindRequest(rs: seq<PreEnrollment>, id: string): (r: Option<nat>)
    ensures r.None? <==> forall i :: 0 <= i < |rs| ==> rs[i].id != id
    ensures r.Some? ==>
      r.value < |rs| && rs[r.value].id == id && (forall i :: 0 <= i < r.value ==> rs[i].id != id)
  {
    if rs == [] then None
    else if rs[0].id == id then Some(0)
    else
      var k := FindRequest(rs[1..], id);
      if k.None? then None else Some(k.value + 1)
  }

  // -----------------------------------------------------------------------
  // Invariant

  predicate UniqueIds(rs: seq<PreEnrollment>)
  {
    forall i, j :: 0 <= i < j < |rs| ==> rs[i].id != rs[j].id
  }

  /** At most one request per (studentId, courseId). */
  predicate UniquePairs(rs: seq<PreEnrollment>)
  {
    forall i, j :: 0 <= i < j < |rs| ==> !IsPair(rs[j], rs[i].studentId, rs[i].courseId)
  }

  predicate Valid(rs: seq<PreEnrollment>)
  {
    UniqueIds(rs) && UniquePairs(rs)
  }

  /** Two lists of the same length whose requests agree on id and pair. */
  predicate SameKeys(rs: seq<PreEnrollment>, ts: seq<PreEnrollment>)
  {
    |rs| == |ts|
    && forall i :: 0 <= i < |rs| ==>
         rs[i].id == ts[i].id && rs[i].studentId == ts[i].studentId && rs[i].courseId == ts[i].courseId
  }

  // -----------------------------------------------------------------------
  // submitPreEnrollment

  function NewRequest(f: FormData, id: string, now: int): PreEnrollment
  {
    PreEnrollment(id, f.studentId, f.courseId, Pending, f.name, f.email, f.phone,
      f.dateOfBirth, f.address, f.guardianName, f.guardianPhone, f.document, now, now, None)
  }

  /** The requests after a resubmission of the request with id `id`. */
  function Resubmitted(rs: seq<PreEnrollment>, id: string, now: int): (r: seq<PreEnrollment>)
    ensures |r| == |rs|
    ensures forall i :: 0 <= i < |rs| ==>
      r[i] == if rs[i].id == id then rs[i].(status := Pending, updatedAt := now) else rs[i]
  {
    Map(rs, (req: PreEnrollment) => if req.id == id then req.(status := Pending, updatedAt := now) else req)
  }

  /** The requests after `submitPreEnrollment(f)`. */
  function Submitted(rs: seq<PreEnrollment>, f: FormData, id: string, now: int): seq<PreEnrollment>
  {
    var k := FindPair(rs, f.studentId, f.courseId);
    if k.None? then rs + [NewRequest(f, id, now)]
    else if rs[k.value].status == Rejected then Resubmitted(rs, rs[k.value].id, now)
    else rs
  }

  /** The admin notice `submitPreEnrollment(f)` posts, if any. */
  function SubmitNotice(rs: seq<PreEnrollment>, f: FormData, courses: seq<CC.Course>): Option<NC.NotificationData>
  {
    var k := FindPair(rs, f.studentId, f.courseId);
    var courseName := CC.CourseName(courses, f.courseId);
    if k.None? then
      Some(NC.NotificationData("admin", "New Enrollment Request",
        f.name + " has submitted a new enrollment request for " + courseName + ".", NC.Info))
    else if rs[k.value].status == Rejected then
      Some(NC.NotificationData("admin", "Enrollment Request Resubmitted",
        f.name + " has resubmitted their enrollment request for " + courseName + ".", NC.Info))
    else None
  }

  // -----------------------------------------------------------------------
  // getStudentEnrollmentStatus

  /** The element a stable sort by `updatedAt` descending puts first: the
      earliest of the requests with the greatest `updatedAt`. */
  function MostRecent(rs: seq<PreEnrollment>): (r: PreEnrollment)
    requires |rs| > 0
    ensures forall i :: 0 <= i < |rs| ==> rs[i].updatedAt <= r.updatedAt
    ensures exists k :: 0 <= k < |rs| && rs[k] == r && (forall j :: 0 <= j < k ==> rs[j].updatedAt < r.updatedAt)
  {
    if |rs| == 1 then rs[0]
    else
      var m := MostRecent(rs[1..]);
      if rs[0].updatedAt >= m.updatedAt then rs[0]
      else
        var k :| 0 <= k < |rs[1..]| && rs[1..][k] == m && (forall j :: 0 <= j < k ==> rs[1..][j].updatedAt < m.updatedAt);
        assert rs[k + 1] == m;
        m
  }

  function PairRequests(rs: seq<PreEnrollment>, studentId: string, courseId: string): (r: seq<PreEnrollment>)
    ensures forall i :: 0 <= i < |r| ==> IsPair(r[i], studentId, courseId) && r[i] in rs
    ensures forall i :: 0 <= i < |rs| && IsPair(rs[i], studentId, courseId) ==> rs[i] in r
  {
    Filter(rs, (req: PreEnrollment) => IsPair(req, studentId, courseId))
  }

  /** `getStudentEnrollmentStatus`: `None` when no request matches the pair,
      otherwise the status of a matching request with the latest update. */
  function StudentEnrollmentStatus(rs: seq<PreEnrollment>, studentId: string, courseId: string): (r: Option<Status>)
    ensures r.None? <==> forall i :: 0 <= i < |rs| ==> !IsPair(rs[i], studentId, courseId)
    ensures r.Some? ==>
      exists i :: 0 <= i < |rs| && IsPair(rs[i], studentId, courseId) && rs[i].status == r.value
        && forall j :: 0 <= j < |rs| && IsPair(rs[j], studentId, courseId) ==> rs[j].updatedAt <= rs[i].updatedAt
  {
    var matching := PairRequests(rs, studentId, courseId);
    if |matching| == 0 then
      None
    else
      var m := MostRecent(matching);
      var k :| 0 <= k < |matching| && matching[k] == m;
      assert m in rs;
      assert forall j :: 0 <= j < |rs| && IsPair(rs[j], studentId, courseId) ==> rs[j].updatedAt <= m.updatedAt by {
        forall j | 0 <= j < |rs| && IsPair(rs[j], studentId, courseId)
          ensures rs[j].updatedAt <= m.updatedAt
        {
          assert rs[j] in matching;
        }
      }
      Some(m.status)
  }

  // -----------------------------------------------------------------------
  // updateEnrollmentStatus

  /** The requests after `updateEnrollmentStatus(id, status, feedback)`:
      `adminFeedback` is overwritten, so an omitted feedback clears it. */
  function StatusUpdated(rs: seq<PreEnrollment>, id: string, status: Status, feedback: Option<string>, now: int): (r: seq<PreEnrollment>)
    ensures |r| == |rs|
    ensures forall i :: 0 <= i < |rs| ==>
      r[i] == if rs[i].id == id then rs[i].(status := status, adminFeedback := feedback, updatedAt := now) else rs[i]
  {
    Map(rs, (req: PreEnrollment) => if req.id == id then req.(status := status, adminFeedback := feedback, updatedAt := now) else req)
  }

  /** The student notice posted for one updated request. A feedback is
      appended only when it is a non-empty string. */
  function StatusNotice(req: PreEnrollment, status: Status, feedback: Option<string>): NC.NotificationData
  {
    NC.NotificationData(req.email, "Enrollment Status Updated",
      "Your enrollment status has been updated to " + StatusText(status)
        + (if feedback.Some? && feedback.value != "" then ": " + feedback.value else ""),
      if status == Approved then NC.Success else if status == Rejected then NC.Error else NC.Info)
  }

  /** The feed after the notices for the requests of `rs` with id `id` were
      posted one by one, in list order. */
  function NoticesPosted(ns: seq<NC.Notification>, rs: seq<PreEnrollment>, id: string, status: Status,
                         feedback: Option<string>, noticeId: string, now: int): seq<NC.Notification>
  {
    if rs == [] then ns
    else
      var before := NoticesPosted(ns, rs[..|rs| - 1], id, status, feedback, noticeId, now);
      var last := rs[|rs| - 1];
      if last.id == id then NC.Posted(before, StatusNotice(last, status, feedback), noticeId, now) else before
  }

  /** How the counter moves for a status change: `Some(true)` for +1,
      `Some(false)` for -1. */
  function CounterEffect(from: Status, to: Status): Option<bool>
  {
    if from != Approved && to == Approved then Some(true)
    else if from == Approved && to != Approved then Some(false)
    else None
  }

  /** The catalog after `updateEnrollmentStatus(id, status)`: the first
      request with the id decides the counter move. */
  function CountedAfterUpdate(cs: seq<CC.Course>, rs: seq<PreEnrollment>, id: string, status: Status, now: int): seq<CC.Course>
  {
    var k := FindRequest(rs, id);
    if k.None? then cs
    else
      var e := CounterEffect(rs[k.value].status, status);
      if e.None? then cs else CC.Adjusted(cs, rs[k.value].courseId, e.value, now)
  }

  /** The admin notice of a settled status email. */
  function StatusEmailNotice(req: PreEnrollment, outcome: NC.EmailOutcome): Option<NC.NotificationData>
  {
    NC.EmailNotice(outcome, "Status update email sent to " + req.name + " (" + req.email + ")", req.name, req.email)
  }

  // -----------------------------------------------------------------------
  // deleteEnrollment / unenrollStudent

  function WithoutRequest(rs: seq<PreEnrollment>, id: string): (r: seq<PreEnrollment>)
    ensures forall i :: 0 <= i < |r| ==> r[i].id != id && r[i] in rs
    ensures forall i :: 0 <= i < |rs| && rs[i].id != id ==> rs[i] in r
  {
    Filter(rs, (req: PreEnrollment) => req.id != id)
  }

  /** The catalog after `deleteEnrollment(id)`: one decrement iff the first
      request with the id was approved. */
  function CountedAfterDelete(cs: seq<CC.Course>, rs: seq<PreEnrollment>, id: string, now: int): seq<CC.Course>
  {
    var k := FindRequest(rs, id);
    if k.Some? && rs[k.value].status == Approved then CC.Adjusted(cs, rs[k.value].courseId, false, now) else cs
  }

  class PreEnrollmentLedger {
    var requests: seq<PreEnrollment>
    const catalog: CC.CourseCatalog
    const feed: NC.NotificationFeed

    /** The ledger as loaded from storage, wired to the catalog and feed. */
    constructor (saved: seq<PreEnrollment>, catalog: CC.CourseCatalog, feed: NC.NotificationFeed)
      ensures requests == saved && this.catalog == catalog && this.feed == feed
    {
      requests := saved;
      this.catalog := catalog;
      this.feed := feed;
    }

    method SubmitPreEnrollment(f: FormData, id: string, noticeId: string, now: int)
      modifies this, feed
      ensures requests == Submitted(old(requests), f, id, now)
      ensures feed.notifications
        == NC.PostedOpt(old(feed.notifications), SubmitNotice(old(requests), f, catalog.courses), noticeId, now)
    {
      var k := FindPair(requests, f.studentId, f.courseId);
      var courseName := CC.CourseName(catalog.courses, f.courseId);
      if k.Some? {
        if requests[k.value].status == Rejected {
          requests := Resubmitted(requests, requests[k.value].id, now);
          feed.AddNotification(NC.NotificationData("admin", "Enrollment Request Resubmitted",
            f.name + " has resubmitted their enrollment request for " + courseName + ".", NC.Info), noticeId, now);
        }
        return;
      }
      requests := requests + [NewRequest(f, id, now)];
      feed.AddNotification(NC.NotificationData("admin", "New Enrollment Request",
        f.name + " has submitted a new enrollment request for " + courseName + ".", NC.Info), noticeId, now);
    }

    function GetStudentEnrollmentStatus(studentId: string, courseId: string): Option<Status>
      reads this
    {
      StudentEnrollmentStatus(requests, studentId, courseId)
    }

    /** Walks the requests once, as the `map` callback does: each request
        with the id is rewritten and its student is notified. */
    method UpdateEnrollmentStatus(id: string, status: Status, feedback: Option<string>, noticeId: string, now: int)
      modifies this, catalog, feed
      ensures requests == StatusUpdated(old(requests), id, status, feedback, now)
      ensures feed.notifications == NoticesPosted(old(feed.notifications), old(requests), id, status, feedback, noticeId, now)
      ensures catalog.courses == CountedAfterUpdate(old(catalog.courses), old(requests), id, status, now)
    {
      var rs := requests;
      var oldRequest := FindRequest(rs, id);
      var updated := RewriteAndNotify(rs, id, status, feedback, noticeId, now);
      if oldRequest.Some? {
        var before := rs[oldRequest.value].status;
        if before != Approved && status == Approved {
          catalog.UpdateEnrollmentCount(rs[oldRequest.value].courseId, true, now);
        } else if before == Approved && status != Approved {
          catalog.UpdateEnrollmentCount(rs[oldRequest.value].courseId, false, now);
        }
      }
      requests := updated;
    }

    /** The `map` callback over `rs`: rewrites each request with the id and
        notifies its student, in list order. */
    method RewriteAndNotify(rs: seq<PreEnrollment>, id: string, status: Status, feedback: Option<string>,
                            noticeId: string, now: int) returns (updated: seq<PreEnrollment>)
      modifies feed
      ensures updated == StatusUpdated(rs, id, status, feedback, now)
      ensures feed.notifications == NoticesPosted(old(feed.notifications), rs, id, status, feedback, noticeId, now)
    {
      ghost var ns := feed.notifications;
      updated := [];
      var i := 0;
      while i < |rs|
        invariant 0 <= i <= |rs|
        invariant updated == StatusUpdated(rs[..i], id, status, feedback, now)
        invariant feed.notifications == NoticesPosted(ns, rs[..i], id, status, feedback, noticeId, now)
      {
        var req := rs[i];
        var next := if req.id == id then req.(status := status, adminFeedback := feedback, updatedAt := now) else req;
        StepOfUpdate(rs, i, id, status, feedback, noticeId, now, ns);
        if req.id == id {
          feed.AddNotification(StatusNotice(req, status, feedback), noticeId, now);
        }
        updated := updated + [next];
        i := i + 1;
      }
      assert rs[..|rs|] == rs;
    }

    /** The settled status email of `req` reports to the administrator. */
    method StatusEmailSettled(req: PreEnrollment, outcome: NC.EmailOutcome, noticeId: string, now: int)
      modifies feed
      ensures feed.notifications == NC.PostedOpt(old(feed.notifications), StatusEmailNotice(req, outcome), noticeId, now)
    {
      match outcome
      case Delivered =>
        feed.AddNotification(NC.NotificationData("admin", "Email Sent",
          "Status update email sent to " + req.name + " (" + req.email + ")", NC.Success), noticeId, now);
      case Failed(text) =>
        feed.AddNotification(NC.NotificationData("admin", NC.EmailErrorTitle,
          NC.EmailFailurePhrase + " to " + req.name + " (" + req.email + "): " + text, NC.Error), noticeId, now);
      case ThrewSynchronously =>
    }

    method DeleteEnrollment(id: string, now: int)
      modifies this, catalog
      ensures requests == WithoutRequest(old(requests), id)
      ensures catalog.courses == CountedAfterDelete(old(catalog.courses), old(requests), id, now)
    {
      var k := FindRequest(requests, id);
      if k.Some? && requests[k.value].status == Approved {
        catalog.UpdateEnrollmentCount(requests[k.value].courseId, false, now);
      }
      requests := WithoutRequest(requests, id);
    }

    /** `unenrollStudent` as written: on an approved request, a status
        update to rejected (which already decrements) and one more
        decrement. */
    method UnenrollStudent(id: string, noticeId: string, now: int)
      modifies this, catalog, feed
      ensures var k := FindRequest(old(requests), id);
        if k.Some? && old(requests)[k.value].status == Approved then
          && requests == StatusUpdated(old(requests), id, Rejected, None, now)
          && feed.notifications == NoticesPosted(old(feed.notifications), old(requests), id, Rejected, None, noticeId, now)
          && catalog.courses == CC.Adjusted(CC.Adjusted(old(catalog.courses), old(requests)[k.value].courseId, false, now),
                                            old(requests)[k.value].courseId, false, now)
        else
          requests == old(requests) && feed.notifications == old(feed.notifications)
          && catalog.courses == old(catalog.courses)
    {
      var k := FindRequest(requests, id);
      if k.Some? && requests[k.value].status == Approved {
        var courseId := requests[k.value].courseId;
        UpdateEnrollmentStatus(id, Rejected, None, noticeId, now);
        catalog.UpdateEnrollmentCount(courseId, false, now);
      }
    }

    /** `unenrollStudent` with the extra decrement removed: the status update
        alone withdraws the approval from the counter. */
    method UnenrollStudentOnce(id: string, noticeId: string, now: int)
      modifies this, catalog, feed
      ensures var k := FindRequest(old(requests), id);
        if k.Some? && old(requests)[k.value].status == Approved then
          && requests == StatusUpdated(old(requests), id, Rejected, None, now)
          && feed.notifications == NoticesPosted(old(feed.notifications), old(requests), id, Rejected, None, noticeId, now)
          && catalog.courses == CC.Adjusted(old(catalog.courses), old(requests)[k.value].courseId, false, now)
        else
          requests == old(requests) && feed.notifications == old(feed.notifications)
          && catalog.courses == old(catalog.courses)
    {
      var k := FindRequest(requests, id);
      if k.Some? && requests[k.value].status == Approved {
        UpdateEnrollmentStatus(id, Rejected, None, noticeId, now);
      }
    }
  }

  // -----------------------------------------------------------------------
  // Properties

  /** One step of the walk in `RewriteAndNotify`. */
  lemma StepOfUpdate(rs: seq<PreEnrollment>, i: nat, id: string, status: Status, feedback: Option<string>,
                     noticeId: string, now: int, ns: seq<NC.Notification>)
    requires i < |rs|
    ensures StatusUpdated(rs[..i + 1], id, status, feedback, now)
      == StatusUpdated(rs[..i], id, status, feedback, now)
         + [if rs[i].id == id then rs[i].(status := status, adminFeedback := feedback, updatedAt := now) else rs[i]]
    ensures NoticesPosted(ns, rs[..i + 1], id, status, feedback, noticeId, now)
      == var before := NoticesPosted(ns, rs[..i], id, status, feedback, noticeId, now);
         if rs[i].id == id then NC.Posted(before, StatusNotice(rs[i], status, feedback), noticeId, now) else before
  {
    assert rs[..i + 1][..i] == rs[..i];
  }

  lemma SameKeysValid(rs: seq<PreEnrollment>, ts: seq<PreEnrollment>)
    requires SameKeys(rs, ts) && Valid(rs)
    ensures Valid(ts)
  {
  }

  /** A first submission for a pair appends exactly one pending request with
      equal timestamps and announces it to the administrator. */
  lemma SubmitNewAppends(rs: seq<PreEnrollment>, f: FormData, id: string, now: int, courses: seq<CC.Course>)
    requires forall i :: 0 <= i < |rs| ==> !IsPair(rs[i], f.studentId, f.courseId)
    ensures var r := Submitted(rs, f, id, now);
      && |r| == |rs| + 1 && r[..|rs|] == rs
      && r[|rs|].status == Pending && r[|rs|].createdAt == r[|rs|].updatedAt == now
      && IsPair(r[|rs|], f.studentId, f.courseId) && r[|rs|].adminFeedback.None?
    ensures var n := SubmitNotice(rs, f, courses);
      n.Some? && n.value.userId == "admin" && n.value.title == "New Enrollment Request"
  {
  }

  /** Resubmitting after a rejection resets that same request to pending and
      bumps its update time; nothing is added. */
  lemma SubmitRejectedResets(rs: seq<PreEnrollment>, f: FormData, id: string, now: int, courses: seq<CC.Course>, k: nat)
    requires Valid(rs)
    requires k < |rs| && IsPair(rs[k], f.studentId, f.courseId) && rs[k].status == Rejected
    ensures Submitted(rs, f, id, now) == rs[k := rs[k].(status := Pending, updatedAt := now)]
    ensures var n := SubmitNotice(rs, f, courses);
      n.Some? && n.value.title == "Enrollment Request Resubmitted" && n.value.kind == NC.Info
  {
    assert FindPair(rs, f.studentId, f.courseId) == Some(k);
  }

  /** Submitting while a request for the pair is pending, approved (or
      enrolled) changes nothing and posts nothing. */
  lemma SubmitExistingIsNoOp(rs: seq<PreEnrollment>, f: FormData, id: string, now: int, courses: seq<CC.Course>, k: nat)
    requires Valid(rs)
    requires k < |rs| && IsPair(rs[k], f.studentId, f.courseId) && rs[k].status != Rejected
    ensures Submitted(rs, f, id, now) == rs
    ensures SubmitNotice(rs, f, courses).None?
  {
    assert FindPair(rs, f.studentId, f.courseId) == Some(k);
  }

  /** Submitting changes the requests exactly when the pair has no request
      yet or its request was rejected. */
  lemma SubmitChangesIff(rs: seq<PreEnrollment>, f: FormData, id: string, now: int)
    requires Valid(rs)
    ensures var s := StudentEnrollmentStatus(rs, f.studentId, f.courseId);
      Submitted(rs, f, id, now) != rs <==> s.None? || s == Some(Rejected)
  {
    var s := StudentEnrollmentStatus(rs, f.studentId, f.courseId);
    if s.None? {
      SubmitNewAppends(rs, f, id, now, []);
      assert |Submitted(rs, f, id, now)| == |rs| + 1;
    } else {
      var k :| 0 <= k < |rs| && IsPair(rs[k], f.studentId, f.courseId) && rs[k].status == s.value;
      if s.value == Rejected {
        SubmitRejectedResets(rs, f, id, now, [], k);
        assert Submitted(rs, f, id, now)[k].status == Pending;
      } else {
        SubmitExistingIsNoOp(rs, f, id, now, [], k);
      }
    }
  }

  /** Submitting is idempotent: a second identical submission right after
      the first changes nothing more. */
  lemma SubmitIdempotent(rs: seq<PreEnrollment>, f: FormData, id: string, id2: string, now: int, now2: int)
    requires Valid(rs)
    requires forall i :: 0 <= i < |rs| ==> rs[i].id != id
    ensures Submitted(Submitted(rs, f, id, now), f, id2, now2) == Submitted(rs, f, id, now)
  {
    var once := Submitted(rs, f, id, now);
    SubmitKeepsValid(rs, f, id, now);
    var k := FindPair(rs, f.studentId, f.courseId);
    if k.None? {
      assert IsPair(once[|rs|], f.studentId, f.courseId) && once[|rs|].status == Pending;
      SubmitExistingIsNoOp(once, f, id2, now2, [], |rs|);
    } else if rs[k.value].status == Rejected {
      SubmitRejectedResets(rs, f, id, now, [], k.value);
      SubmitExistingIsNoOp(once, f, id2, now2, [], k.value);
    }
  }

  /** Submission keeps at most one request per pair (and, with a fresh id,
      unique ids): it only appends when the pair has no request. */
  lemma SubmitKeepsValid(rs: seq<PreEnrollment>, f: FormData, id: string, now: int)
    requires Valid(rs)
    requires forall i :: 0 <= i < |rs| ==> rs[i].id != id
    ensures Valid(Submitted(rs, f, id, now))
  {
    var k := FindPair(rs, f.studentId, f.courseId);
    if k.Some? && rs[k.value].status == Rejected {
      SameKeysValid(rs, Resubmitted(rs, rs[k.value].id, now));
    }
  }

  /** A status update keeps the invariant: it touches no id or pair. */
  lemma StatusUpdateKeepsValid(rs: seq<PreEnrollment>, id: string, status: Status, feedback: Option<string>, now: int)
    requires Valid(rs)
    ensures Valid(StatusUpdated(rs, id, status, feedback, now))
  {
    SameKeysValid(rs, StatusUpdated(rs, id, status, feedback, now));
  }

  /** Removing requests keeps the invariant. */
  lemma {:induction false} FilterKeepsValid(rs: seq<PreEnrollment>, p: PreEnrollment -> bool)
    requires Valid(rs)
    ensures Valid(Filter(rs, p))
  {
    if rs != [] {
      assert Valid(rs[1..]) by {
        assert forall i :: 0 <= i < |rs[1..]| ==> rs[1..][i] == rs[i + 1];
      }
      FilterKeepsValid(rs[1..], p);
      var tail := Filter(rs[1..], p);
      if p(rs[0]) {
        forall j | 0 <= j < |tail|
          ensures tail[j].id != rs[0].id && !IsPair(tail[j], rs[0].studentId, rs[0].courseId)
        {
          var m :| 0 <= m < |rs[1..]| && rs[1..][m] == tail[j];
          assert rs[m + 1] == tail[j];
        }
        ConsValid(rs[0], tail);
      }
    }
  }

  /** A request with a fresh id and a fresh pair can head a valid list. */
  lemma ConsValid(h: PreEnrollment, tail: seq<PreEnrollment>)
    requires Valid(tail)
    requires forall j :: 0 <= j < |tail| ==> tail[j].id != h.id && !IsPair(tail[j], h.studentId, h.courseId)
    ensures Valid([h] + tail)
  {
    var r := [h] + tail;
    assert forall j :: 0 < j < |r| ==> r[j] == tail[j - 1];
  }

  lemma DeleteKeepsValid(rs: seq<PreEnrollment>, id: string)
    requires Valid(rs)
    ensures Valid(WithoutRequest(rs, id))
    ensures forall i :: 0 <= i < |WithoutRequest(rs, id)| ==> WithoutRequest(rs, id)[i].id != id
  {
    FilterKeepsValid(rs, (req: PreEnrollment) => req.id != id);
  }

  /** With unique ids, a status update rewrites exactly the one request with
      the id, notifies exactly its student, and sets any status from any
      status: the ledger itself has no transition guard. */
  lemma StatusUpdateTouchesOne(rs: seq<PreEnrollment>, ns: seq<NC.Notification>, k: nat, status: Status,
                               feedback: Option<string>, noticeId: string, now: int)
    requires UniqueIds(rs) && k < |rs|
    ensures StatusUpdated(rs, rs[k].id, status, feedback, now)
      == rs[k := rs[k].(status := status, adminFeedback := feedback, updatedAt := now)]
    ensures NoticesPosted(ns, rs, rs[k].id, status, feedback, noticeId, now)
      == NC.Posted(ns, StatusNotice(rs[k], status, feedback), noticeId, now)
  {
    NoticesOnlyFor(ns, rs, k, status, feedback, noticeId, now, |rs|);
    assert rs[..|rs|] == rs;
  }

  lemma {:induction false} NoticesOnlyFor(ns: seq<NC.Notification>, rs: seq<PreEnrollment>, k: nat, status: Status,
                                          feedback: Option<string>, noticeId: string, now: int, n: nat)
    requires UniqueIds(rs) && k < |rs| && n <= |rs|
    ensures NoticesPosted(ns, rs[..n], rs[k].id, status, feedback, noticeId, now)
      == if n <= k then ns else NC.Posted(ns, StatusNotice(rs[k], status, feedback), noticeId, now)
  {
    if n > 0 {
      assert rs[..n][..n - 1] == rs[..n - 1];
      NoticesOnlyFor(ns, rs, k, status, feedback, noticeId, now, n - 1);
    }
  }

  /** An unknown id changes no request, no notice and no counter. */
  lemma UnknownIdChangesNothing(rs: seq<PreEnrollment>, ns: seq<NC.Notification>, cs: seq<CC.Course>, id: string,
                                status: Status, feedback: Option<string>, noticeId: string, now: int)
    requires forall i :: 0 <= i < |rs| ==> rs[i].id != id
    ensures StatusUpdated(rs, id, status, feedback, now) == rs
    ensures NoticesPosted(ns, rs, id, status, feedback, noticeId, now) == ns
    ensures CountedAfterUpdate(cs, rs, id, status, now) == cs
  {
    NoticesNoneFor(ns, rs, id, status, feedback, noticeId, now);
  }

  lemma {:induction false} NoticesNoneFor(ns: seq<NC.Notification>, rs: seq<PreEnrollment>, id: string, status: Status,
                                          feedback: Option<string>, noticeId: string, now: int)
    requires forall i :: 0 <= i < |rs| ==> rs[i].id != id
    ensures NoticesPosted(ns, rs, id, status, feedback, noticeId, now) == ns
  {
    if rs != [] {
      NoticesNoneFor(ns, rs[..|rs| - 1], id, status, feedback, noticeId, now);
    }
  }

  /** The counter moves +1 exactly on a move into "approved", -1 exactly on
      a move out of it, and not at all otherwise. */
  lemma CounterCrossesApproved(cs: seq<CC.Course>, rs: seq<PreEnrollment>, k: nat, status: Status, now: int)
    requires UniqueIds(rs) && k < |rs|
    ensures var r := CountedAfterUpdate(cs, rs, rs[k].id, status, now);
      && (rs[k].status != Approved && status == Approved ==> r == CC.Adjusted(cs, rs[k].courseId, true, now))
      && (rs[k].status == Approved && status != Approved ==> r == CC.Adjusted(cs, rs[k].courseId, false, now))
      && ((rs[k].status == Approved) == (status == Approved) ==> r == cs)
  {
    var j := FindRequest(rs, rs[k].id);
    assert j == Some(k);
  }

  /** The counter clamps instead of refusing: approving a request for a full
      course leaves the counter at the limit, so the approved requests can
      outnumber the places. */
  lemma ApprovalAtCapacityIsAbsorbed(c: CC.Course, now: int)
    requires c.currentEnrollment == c.enrollmentLimit
    ensures CC.Adjusted([c], c.id, true, now) == [c]
  {
  }

  /** `deleteEnrollment` decrements exactly when the removed request was
      approved. */
  lemma DeleteDecrementsIffApproved(cs: seq<CC.Course>, rs: seq<PreEnrollment>, k: nat, now: int)
    requires UniqueIds(rs) && k < |rs|
    ensures CountedAfterDelete(cs, rs, rs[k].id, now)
      == if rs[k].status == Approved then CC.Adjusted(cs, rs[k].courseId, false, now) else cs
  {
    var j := FindRequest(rs, rs[k].id);
    assert j == Some(k);
  }

  /** A course whose counter is 2 after two approvals drops to 0 when one of
      the two students is unenrolled: the as-written path decrements twice. */
  lemma UnenrollDecrementsTwice(c: CC.Course, now: int)
    requires c.currentEnrollment == 2 && c.enrollmentLimit == 30
    ensures var once := CC.Adjusted([c], c.id, false, now);
      && CC.Adjusted(once, c.id, false, now)[0].currentEnrollment == 0
      && once[0].currentEnrollment == 1
  {
  }

  /** With the single decrement, unenrolling withdraws exactly one place from
      the course (down to 0) and changes no other course. */
  lemma UnenrollOnceWithdrawsOne(cs: seq<CC.Course>, courseId: string, now: int)
    ensures var r := CC.Adjusted(cs, courseId, false, now);
      forall i :: 0 <= i < |cs| ==>
        r[i].currentEnrollment
          == if cs[i].id == courseId then CC.Max(cs[i].currentEnrollment - 1, 0) else cs[i].currentEnrollment
  {
    var r := CC.Adjusted(cs, courseId, false, now);
    forall i | 0 <= i < |cs|
      ensures r[i].currentEnrollment
        == if cs[i].id == courseId then CC.Max(cs[i].currentEnrollment - 1, 0) else cs[i].currentEnrollment
    {
      CC.NextCountClamps(cs[i], false);
    }
  }

  /** The status query answers `None` exactly when the pair has no request,
      and with invariant `Valid` it is the status of that one request. */
  lemma StatusOfUniquePair(rs: seq<PreEnrollment>, k: nat)
    requires UniquePairs(rs) && k < |rs|
    ensures StudentEnrollmentStatus(rs, rs[k].studentId, rs[k].courseId) == Some(rs[k].status)
  {
    var r := StudentEnrollmentStatus(rs, rs[k].studentId, rs[k].courseId);
    var i :| 0 <= i < |rs| && IsPair(rs[i], rs[k].studentId, rs[k].courseId) && rs[i].status == r.value;
  }
}
