/** The administrator's pre-enrollment table (PreEnrollmentManagement.tsx):
    which actions each row offers, what each confirmation hands to the
    ledger, and the status chip. */
module PreEnrollmentManagementPage {
  import opened Common
  import PE = PreEnrollmentContext
  import CC = CourseContext

  // -----------------------------------------------------------------------
  // Row actions

  datatype Action = ViewDetails | Approve | Reject | Unenroll | Delete

  /** The actions a table row shows for a request of status `s`. */
  function RowActions(s: PE.Status): (r: set<Action>)
    ensures ViewDetails in r && Delete in r
    ensures Approve in r <==> s == PE.Pending
    ensures Reject in r <==> s == PE.Pending
    ensures Unenroll in r <==> s == PE.Approved
  {
    {ViewDetails, Delete}
    + (if s == PE.Pending then {Approve, Reject} else {})
    + (if s == PE.Approved then {Unenroll} else {})
  }

  /** What confirming an action asks of the ledger. */
  datatype Call =
    | NoCall
    | UpdateStatus(status: PE.Status, feedback: Option<string>)
    | DeleteRecord
    | UnenrollRecord

  /** The confirmation handlers: approval forwards the typed feedback,
      rejection forwards none (the typed reason is only cleared). */
  function ConfirmCall(a: Action, feedback: string, rejectionReason: string): (r: Call)
    ensures a == Reject ==> r == UpdateStatus(PE.Rejected, None)
    ensures a == Approve ==> r == UpdateStatus(PE.Approved, Some(feedback))
  {
    match a
    case ViewDetails => NoCall
    case Approve => UpdateStatus(PE.Approved, Some(feedback))
    case Reject => UpdateStatus(PE.Rejected, None)
    case Unenroll => UnenrollRecord
    case Delete => DeleteRecord
  }

  /** The request's status once the ledger has run the call; `None` when
      the record is gone. Unenrolling rejects an approved request. */
  function StatusAfter(s: PE.Status, c: Call): Option<PE.Status>
  {
    match c
    case NoCall => Some(s)
    case UpdateStatus(t, _) => Some(t)
    case DeleteRecord => None
    case UnenrollRecord => if s == PE.Approved then Some(PE.Rejected) else Some(s)
  }

  /** A status change the administrator can make. */
  predicate AdminTransition(from: PE.Status, to: PE.Status)
  {
    (from == PE.Pending && (to == PE.Approved || to == PE.Rejected))
    || (from == PE.Approved && to == PE.Rejected)
  }

  // -----------------------------------------------------------------------
  // Status chip

  datatype ChipColor = Warning | Success | ErrorColor | DefaultColor

  datatype Chip = Chip(color: ChipColor, text: string)

  /** `getStatusChip`: the three known statuses have fixed chips; any other
      text gets the default colour and is shown upper-cased. */
  function StatusChip(status: string): (r: Chip)
    ensures r.color == DefaultColor <==> status != "pending" && status != "approved" && status != "rejected"
    ensures r.color == DefaultColor ==> r.text == ToUpper(status)
  {
    if status == "pending" then Chip(Warning, "PENDING")
    else if status == "approved" then Chip(Success, "APPROVED")
    else if status == "rejected" then Chip(ErrorColor, "REJECTED")
    else Chip(DefaultColor, ToUpper(status))
  }

  /** The details dialog shows the chip of the selected request, or of
      "pending" while nothing is selected. */
  function DialogChip(selected: Option<PE.PreEnrollment>): Chip
  {
    StatusChip(if selected.Some? then PE.StatusText(selected.value.status) else "pending")
  }

  // -----------------------------------------------------------------------
  // The page's state and its handlers

  datatype Severity = SuccessSeverity | InfoSeverity

  datatype Snackbar = Snackbar(message: string, severity: Severity)

  class AdminPage {
    const ledger: PE.PreEnrollmentLedger
    var selected: Option<PE.PreEnrollment>
    var feedback: string
    var rejectionReason: string
    var detailsOpen: bool
    var approveOpen: bool
    var rejectOpen: bool
    var deleteOpen: bool
    var unenrollOpen: bool
    var snackbar: Option<Snackbar>

    constructor (ledger: PE.PreEnrollmentLedger)
      ensures this.ledger == ledger && selected.None? && feedback == "" && rejectionReason == ""
      ensures !detailsOpen && !approveOpen && !rejectOpen && !deleteOpen && !unenrollOpen && snackbar.None?
    {
      this.ledger := ledger;
      selected := None;
      feedback := "";
      rejectionReason := "";
      detailsOpen := false;
      approveOpen := false;
      rejectOpen := false;
      deleteOpen := false;
      unenrollOpen := false;
      snackbar := None;
    }

    /** Clicking a row action selects the request and opens its dialog. */
    method Open(request: PE.PreEnrollment, a: Action)
      modifies this
      ensures selected == Some(request)
      ensures detailsOpen == (old(detailsOpen) || a == ViewDetails)
      ensures approveOpen == (old(approveOpen) || a == Approve)
      ensures rejectOpen == (old(rejectOpen) || a == Reject)
      ensures deleteOpen == (old(deleteOpen) || a == Delete)
      ensures unenrollOpen == (old(unenrollOpen) || a == Unenroll)
      ensures feedback == old(feedback) && rejectionReason == old(rejectionReason) && snackbar == old(snackbar)
    {
      selected := Some(request);
      match a
      case ViewDetails => detailsOpen := true;
      case Approve => approveOpen := true;
      case Reject => rejectOpen := true;
      case Delete => deleteOpen := true;
      case Unenroll => unenrollOpen := true;
    }

    /** `handleConfirmApprove`: approves the selected request with the typed
        feedback, closes the dialogs and clears the feedback. */
    method ConfirmApprove(noticeId: string, now: int)
      modifies this, ledger, ledger.catalog, ledger.feed
      ensures old(selected).None? ==>
        && ledger.requests == old(ledger.requests) && feedback == old(feedback)
        && ledger.catalog.courses == old(ledger.catalog.courses) && ledger.feed.notifications == old(ledger.feed.notifications)
      ensures old(selected).Some? ==>
        && ledger.requests == PE.StatusUpdated(old(ledger.requests), old(selected).value.id, PE.Approved, Some(old(feedback)), now)
        && ledger.catalog.courses == PE.CountedAfterUpdate(old(ledger.catalog.courses), old(ledger.requests), old(selected).value.id, PE.Approved, now)
        && ledger.feed.notifications == PE.NoticesPosted(old(ledger.feed.notifications), old(ledger.requests),
                                                          old(selected).value.id, PE.Approved, Some(old(feedback)), noticeId, now)
        && !approveOpen && !detailsOpen && feedback == ""
        && snackbar == Some(Snackbar("Enrollment request approved successfully", SuccessSeverity))
    {
      if selected.None? {
        return;
      }
      ledger.UpdateEnrollmentStatus(selected.value.id, PE.Approved, Some(feedback), noticeId, now);
      snackbar := Some(Snackbar("Enrollment request approved successfully", SuccessSeverity));
      approveOpen := false;
      detailsOpen := false;
      feedback := "";
    }

    /** `handleConfirmReject`: rejects the selected request without any
        feedback, so the typed reason is dropped and the stored feedback
        cleared. */
    method ConfirmReject(noticeId: string, now: int)
      modifies this, ledger, ledger.catalog, ledger.feed
      ensures old(selected).None? ==>
        && ledger.requests == old(ledger.requests) && rejectionReason == old(rejectionReason)
        && ledger.catalog.courses == old(ledger.catalog.courses) && ledger.feed.notifications == old(ledger.feed.notifications)
      ensures old(selected).Some? ==>
        && ledger.requests == PE.StatusUpdated(old(ledger.requests), old(selected).value.id, PE.Rejected, None, now)
        && ledger.catalog.courses == PE.CountedAfterUpdate(old(ledger.catalog.courses), old(ledger.requests), old(selected).value.id, PE.Rejected, now)
        && ledger.feed.notifications == PE.NoticesPosted(old(ledger.feed.notifications), old(ledger.requests),
                                                          old(selected).value.id, PE.Rejected, None, noticeId, now)
        && !rejectOpen && !detailsOpen && rejectionReason == ""
        && snackbar == Some(Snackbar("Enrollment request rejected", InfoSeverity))
    {
      if selected.None? {
        return;
      }
      ledger.UpdateEnrollmentStatus(selected.value.id, PE.Rejected, None, noticeId, now);
      snackbar := Some(Snackbar("Enrollment request rejected", InfoSeverity));
      rejectOpen := false;
      detailsOpen := false;
      rejectionReason := "";
    }

    /** `handleConfirmDelete`. */
    method ConfirmDelete(now: int)
      modifies this, ledger, ledger.catalog
      ensures old(selected).None? ==> ledger.requests == old(ledger.requests) && ledger.catalog.courses == old(ledger.catalog.courses)
      ensures old(selected).Some? ==>
        && ledger.requests == PE.WithoutRequest(old(ledger.requests), old(selected).value.id)
        && ledger.catalog.courses == PE.CountedAfterDelete(old(ledger.catalog.courses), old(ledger.requests), old(selected).value.id, now)
        && !deleteOpen && !detailsOpen
        && snackbar == Some(Snackbar("Enrollment record deleted successfully", SuccessSeverity))
    {
      if selected.None? {
        return;
      }
      ledger.DeleteEnrollment(selected.value.id, now);
      snackbar := Some(Snackbar("Enrollment record deleted successfully", SuccessSeverity));
      deleteOpen := false;
      detailsOpen := false;
    }

    /** `handleConfirmUnenroll`: the ledger's unenroll, on the selected
        request. */
    method ConfirmUnenroll(noticeId: string, now: int)
      modifies this, ledger, ledger.catalog, ledger.feed
      ensures old(selected).None? ==>
        && ledger.requests == old(ledger.requests)
        && ledger.catalog.courses == old(ledger.catalog.courses) && ledger.feed.notifications == old(ledger.feed.notifications)
      ensures old(selected).Some? ==>
        var id := old(selected).value.id;
        var k := PE.FindRequest(old(ledger.requests), id);
        && (k.Some? && old(ledger.requests)[k.value].status == PE.Approved ==>
              && ledger.requests == PE.StatusUpdated(old(ledger.requests), id, PE.Rejected, None, now)
              && ledger.feed.notifications == PE.NoticesPosted(old(ledger.feed.notifications), old(ledger.requests), id, PE.Rejected, None, noticeId, now)
              && ledger.catalog.courses == CC.Adjusted(CC.Adjusted(old(ledger.catalog.courses), old(ledger.requests)[k.value].courseId, false, now),
                                                       old(ledger.requests)[k.value].courseId, false, now))
        && (!(k.Some? && old(ledger.requests)[k.value].status == PE.Approved) ==>
              && ledger.requests == old(ledger.requests)
              && ledger.catalog.courses == old(ledger.catalog.courses) && ledger.feed.notifications == old(ledger.feed.notifications))
        && !unenrollOpen && !detailsOpen
        && snackbar == Some(Snackbar("Student unenrolled successfully", SuccessSeverity))
    {
      if selected.None? {
        return;
      }
      ledger.UnenrollStudent(selected.value.id, noticeId, now);
      snackbar := Some(Snackbar("Student unenrolled successfully", SuccessSeverity));
      unenrollOpen := false;
      detailsOpen := false;
    }
  }

  // -----------------------------------------------------------------------
  // Properties

  /** Every status change the page can cause is pending to approved,
      pending to rejected, or approved to rejected: nothing returns to
      pending, nothing reaches "enrolled", and a rejected request can only
      be deleted. */
  lemma OnlyAdminTransitions(s: PE.Status, a: Action, feedback: string, reason: string)
    requires a in RowActions(s)
    ensures var t := StatusAfter(s, ConfirmCall(a, feedback, reason));
      t.Some? && t.value != s ==> AdminTransition(s, t.value)
    ensures StatusAfter(s, ConfirmCall(a, feedback, reason)) != Some(PE.Enrolled) || s == PE.Enrolled
    ensures s == PE.Rejected ==> StatusAfter(s, ConfirmCall(a, feedback, reason)) in {Some(PE.Rejected), None}
  {
  }

  /** Every admin transition is offered by some row action. */
  lemma AdminTransitionsOffered(from: PE.Status, to: PE.Status)
    requires AdminTransition(from, to)
    ensures exists a :: a in RowActions(from) && StatusAfter(from, ConfirmCall(a, "", "")) == Some(to)
  {
    if from == PE.Pending && to == PE.Approved {
      assert StatusAfter(from, ConfirmCall(Approve, "", "")) == Some(to);
    } else if from == PE.Pending {
      assert StatusAfter(from, ConfirmCall(Reject, "", "")) == Some(to);
    } else {
      assert StatusAfter(from, ConfirmCall(Unenroll, "", "")) == Some(to);
    }
  }

  /** After a rejection from this page, the request carries no feedback,
      whatever reason was typed; after an approval it carries the typed
      feedback. */
  lemma RejectDropsReason(rs: seq<PE.PreEnrollment>, id: string, feedback: string, reason: string, now: int, i: nat)
    requires i < |rs| && rs[i].id == id
    ensures var c := ConfirmCall(Reject, feedback, reason);
      PE.StatusUpdated(rs, id, c.status, c.feedback, now)[i].adminFeedback.None?
    ensures var c := ConfirmCall(Approve, feedback, reason);
      PE.StatusUpdated(rs, id, c.status, c.feedback, now)[i].adminFeedback == Some(feedback)
  {
  }

  /** The chip of a ledger status is its text upper-cased; only "enrolled"
      falls back to the default colour. */
  lemma ChipOfLedgerStatus(s: PE.Status)
    ensures StatusChip(PE.StatusText(s)).color == DefaultColor <==> s == PE.Enrolled
    ensures s == PE.Enrolled ==> StatusChip(PE.StatusText(s)).text == ToUpper("enrolled")
  {
  }
}
