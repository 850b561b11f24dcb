/** The administrator's booking table (BookingManagement.tsx): which actions
    a row offers, the feedback dialog, what a response or a deletion hands
    to the ledger, and the two status chips. */
module BookingManagementPage {
  import opened Common
  import BC = BookingContext
  import NC = NotificationContext

  // -----------------------------------------------------------------------
  // Row actions

  datatype Action = Respond | ViewDetails | Delete

  /** Respond is shown only on a pending booking; viewing and deleting on
      every booking. */
  function RowActions(s: BC.BookingStatus): (r: set<Action>)
    ensures ViewDetails in r && Delete in r
    ensures Respond in r <==> s == BC.Pending
  {
    if s == BC.Pending then {Respond, ViewDetails, Delete} else {ViewDetails, Delete}
  }

  // -----------------------------------------------------------------------
  // Status chips

  datatype ChipColor = Warning | Success | ErrorColor

  datatype Chip = Chip(color: ChipColor, text: string)

  /** `getStatusChipColor`: approved and rejected have their own colours,
      every other status is shown as a warning. */
  function StatusChipColor(s: BC.BookingStatus): (r: ChipColor)
    ensures r == Warning <==> s == BC.Pending
  {
    match s
    case Approved => Success
    case Rejected => ErrorColor
    case _ => Warning
  }

  /** The table's chip: the status upper-cased, in its colour. */
  function TableChip(s: BC.BookingStatus): Chip
  {
    Chip(StatusChipColor(s), ToUpper(BC.StatusText(s)))
  }

  /** The details dialog's chip (`getStatusChip`). */
  function DetailsChip(s: BC.BookingStatus): Chip
  {
    match s
    case Pending => Chip(Warning, "Pending")
    case Approved => Chip(Success, "Approved")
    case Rejected => Chip(ErrorColor, "Rejected")
  }

  // -----------------------------------------------------------------------
  // The page's state and its handlers

  class BookingAdminPage {
    const ledger: BC.BookingLedger
    var selected: Option<BC.Booking>
    var respondOpen: bool
    var viewOpen: bool
    var deleteOpen: bool
    /** The feedback dialog's own text field. */
    var feedback: string

    constructor (ledger: BC.BookingLedger)
      ensures this.ledger == ledger && selected.None? && feedback == ""
      ensures !respondOpen && !viewOpen && !deleteOpen
    {
      this.ledger := ledger;
      selected := None;
      respondOpen := false;
      viewOpen := false;
      deleteOpen := false;
      feedback := "";
    }

    /** Clicking a row action selects the booking and opens its dialog. */
    method Open(b: BC.Booking, a: Action)
      modifies this
      ensures selected == Some(b) && feedback == old(feedback)
      ensures respondOpen == (old(respondOpen) || a == Respond)
      ensures viewOpen == (old(viewOpen) || a == ViewDetails)
      ensures deleteOpen == (old(deleteOpen) || a == Delete)
    {
      selected := Some(b);
      match a
      case Respond => respondOpen := true;
      case ViewDetails => viewOpen := true;
      case Delete => deleteOpen := true;
    }

    /** Approve or Reject in the feedback dialog: the page answers the
        selected booking with the chosen status and the typed text (kept
        even when empty), closes the dialog and drops the selection; the
        dialog then clears its text. Without a selection only the text is
        cleared. */
    method SubmitFeedback(status: BC.BookingStatus, fmt: int -> string, noticeId: string, now: int)
      modifies this, ledger, ledger.feed
      ensures feedback == ""
      ensures old(selected).None? ==>
        && ledger.bookings == old(ledger.bookings) && ledger.feed.notifications == old(ledger.feed.notifications)
        && selected.None? && respondOpen == old(respondOpen)
      ensures old(selected).Some? ==>
        && ledger.bookings == BC.Answer(old(ledger.bookings), old(selected).value.id, status, Some(old(feedback)))
        && ledger.feed.notifications == BC.AnswerNotices(old(ledger.feed.notifications), old(ledger.bookings),
             old(selected).value.id, status, Some(old(feedback)), fmt, noticeId, now)
        && selected.None? && !respondOpen
    {
      if selected.Some? {
        ledger.UpdateBookingStatus(selected.value.id, status, Some(feedback), fmt, noticeId, now);
        respondOpen := false;
        selected := None;
      }
      feedback := "";
    }

    /** Cancel in the feedback dialog closes it and drops the selection, but
        leaves the typed text for the next response. */
    method CancelFeedback()
      modifies this
      ensures !respondOpen && selected.None? && feedback == old(feedback)
      ensures viewOpen == old(viewOpen) && deleteOpen == old(deleteOpen)
    {
      respondOpen := false;
      selected := None;
    }

    /** Delete in the confirmation dialog, which acts only on a selection. */
    method ConfirmDelete(noticeId: string, now: int)
      modifies this, ledger, ledger.feed
      ensures old(selected).None? ==>
        && ledger.bookings == old(ledger.bookings) && deleteOpen == old(deleteOpen)
        && ledger.feed.notifications == old(ledger.feed.notifications)
      ensures old(selected).Some? ==>
        && ledger.bookings == BC.WithoutBooking(old(ledger.bookings), old(selected).value.id)
        && ledger.feed.notifications == NC.Posted(old(ledger.feed.notifications), BC.DeletedNotice, noticeId, now)
        && !deleteOpen && selected.None?
    {
      if selected.Some? {
        ledger.DeleteBooking(selected.value.id, noticeId, now);
        deleteOpen := false;
        selected := None;
      }
    }
  }

  // -----------------------------------------------------------------------
  // Properties

  /** The table's chip and the details chip agree: the same colour, and the
      same text once upper-cased. The colour alone tells the status. */
  lemma ChipsAgree(s: BC.BookingStatus, t: BC.BookingStatus)
    ensures TableChip(s).color == DetailsChip(s).color
    ensures TableChip(s).text == ToUpper(DetailsChip(s).text)
    ensures StatusChipColor(s) == StatusChipColor(t) ==> s == t
  {
    UpperAgreeCapital(BC.StatusText(s), DetailsChip(s).text);
  }

  /** A response from this page always reaches a pending booking (only
      pending rows offer Respond) and always changes it, so the visitor is
      always notified; the stored feedback is the typed text, even empty. */
  lemma ResponseAlwaysNotifies(b: BC.Booking, status: BC.BookingStatus, text: string)
    requires Respond in RowActions(b.status) && status != BC.Pending
    ensures BC.Changes(b, status, Some(text))
    ensures BC.Answered(b, status, Some(text)).adminFeedback == Some(text)
    ensures BC.Answered(b, status, Some(text)).status != b.status
  {
  }
}
