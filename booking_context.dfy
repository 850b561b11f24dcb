/** The visit-booking ledger (BookingContext.tsx): visitors book farm visits,
    the administrator sets a status and a feedback, and each change that a
    visitor would notice is announced in the notification feed. */
module BookingContext {
  import opened Common
  import NC = NotificationContext

  datatype BookingStatus = Pending | Approved | Rejected

  /** `visitDate` is the chosen date and time in milliseconds. */
  datatype Booking = Booking(
    id: string, visitorName: string, email: string, visitDate: int, groupSize: int,
    purpose: string, specialRequirements: string, status: BookingStatus,
    adminFeedback: Option<string>, createdAt: int)

  /** The argument of `addBooking`: a booking without id, status and
      creation time. */
  datatype BookingData = BookingData(
    visitorName: string, email: string, visitDate: int, groupSize: int,
    purpose: string, specialRequirements: string, adminFeedback: Option<string>)

  function StatusText(s: BookingStatus): string
  {
    match s
    case Pending => "pending"
    case Approved => "approved"
    case Rejected => "rejected"
  }

  /** A template literal prints an absent value as "undefined". */
  function ShowOpt(s: Option<string>): string
  {
    if s.Some? then s.value else "undefined"
  }

  function NewBooking(d: BookingData, id: string, now: int): Booking
  {
    Booking(id, d.visitorName, d.email, d.visitDate, d.groupSize, d.purpose,
      d.specialRequirements, Pending, d.adminFeedback, now)
  }

  /** The admin notice of `addBooking`; `fmt` is the date formatter
      (`format(date, 'PPP p')`). */
  function NewBookingNotice(d: BookingData, fmt: int -> string): NC.NotificationData
  {
    NC.NotificationData("admin", "New Booking Request",
      "New visit booking from " + d.visitorName + " for " + fmt(d.visitDate), NC.Info)
  }

  /** The booking after `updateBookingStatus`: status and feedback are
      overwritten, everything else (creation time included) is kept. */
  function Answered(b: Booking, status: BookingStatus, feedback: Option<string>): Booking
  {
    b.(status := status, adminFeedback := feedback)
  }

  function Answer(bs: seq<Booking>, id: string, status: BookingStatus, feedback: Option<string>): (r: seq<Booking>)
    ensures |r| == |bs|
    ensures forall i :: 0 <= i < |bs| ==> r[i] == if bs[i].id == id then Answered(bs[i], status, feedback) else bs[i]
  {
    Map(bs, (b: Booking) => if b.id == id then Answered(b, status, feedback) else b)
  }

  /** Whether the visitor hears about the update of `b`. */
  predicate Changes(b: Booking, status: BookingStatus, feedback: Option<string>)
  {
    b.status != status || b.adminFeedback != feedback
  }

  /** The visitor notice for an update that changes `b`. */
  function AnswerNotice(b: Booking, status: BookingStatus, feedback: Option<string>, fmt: int -> string): NC.NotificationData
  {
    if b.status != status then
      NC.NotificationData(b.email, "Booking Status Updated",
        "Your booking for " + fmt(b.visitDate) + " has been " + StatusText(status)
          + (if feedback.Some? && feedback.value != "" then ": " + feedback.value else ""),
        if status == Approved then NC.Success else if status == Rejected then NC.Error else NC.Info)
    else
      NC.NotificationData(b.email, "New Feedback Received",
        "New feedback received for your booking: " + ShowOpt(feedback), NC.Info)
  }

  /** The feed after the notices for the bookings of `bs` were posted one by
      one, in list order. */
  function AnswerNotices(ns: seq<NC.Notification>, bs: seq<Booking>, id: string, status: BookingStatus,
                         feedback: Option<string>, fmt: int -> string, noticeId: string, now: int): seq<NC.Notification>
  {
    if bs == [] then ns
    else
      var before := AnswerNotices(ns, bs[..|bs| - 1], id, status, feedback, fmt, noticeId, now);
      var last := bs[|bs| - 1];
      if last.id == id && Changes(last, status, feedback)
      then NC.Posted(before, AnswerNotice(last, status, feedback, fmt), noticeId, now)
      else before
  }

  function VisitorBookings(bs: seq<Booking>, email: string): (r: seq<Booking>)
    ensures forall i :: 0 <= i < |r| ==> r[i].email == email && r[i] in bs
    ensures forall i :: 0 <= i < |bs| && bs[i].email == email ==> bs[i] in r
  {
    Filter(bs, (b: Booking) => b.email == email)
  }

  function WithoutBooking(bs: seq<Booking>, id: string): (r: seq<Booking>)
    ensures forall i :: 0 <= i < |r| ==> r[i].id != id && r[i] in bs
    ensures forall i :: 0 <= i < |bs| && bs[i].id != id ==> bs[i] in r
  {
    Filter(bs, (b: Booking) => b.id != id)
  }

  const DeletedNotice := NC.NotificationData("admin", "Booking Deleted", "A booking has been deleted from the system", NC.Info)

  /** The admin notice of a settled booking email. */
  function BookingEmailNotice(b: Booking, outcome: NC.EmailOutcome): Option<NC.NotificationData>
  {
    NC.EmailNotice(outcome, "Notification email sent to " + b.visitorName + " (" + b.email + ")", b.visitorName, b.email)
  }

  class BookingLedger {
    var bookings: seq<Booking>
    const feed: NC.NotificationFeed

    constructor (saved: seq<Booking>, feed: NC.NotificationFeed)
      ensures bookings == saved && this.feed == feed
    {
      bookings := saved;
      this.feed := feed;
    }

    method AddBooking(d: BookingData, fmt: int -> string, id: string, noticeId: string, now: int)
      modifies this, feed
      ensures bookings == old(bookings) + [NewBooking(d, id, now)]
      ensures feed.notifications == NC.Posted(old(feed.notifications), NewBookingNotice(d, fmt), noticeId, now)
    {
      bookings := bookings + [NewBooking(d, id, now)];
      feed.AddNotification(NewBookingNotice(d, fmt), noticeId, now);
    }

    /** Rewrites the booking with the id and notifies its visitor. */
    method UpdateBookingStatus(id: string, status: BookingStatus, feedback: Option<string>, fmt: int -> string,
                               noticeId: string, now: int)
      modifies this, feed
      ensures bookings == Answer(old(bookings), id, status, feedback)
      ensures feed.notifications == AnswerNotices(old(feed.notifications), old(bookings), id, status, feedback, fmt, noticeId, now)
    {
      bookings := AnswerAndNotify(bookings, id, status, feedback, fmt, noticeId, now);
    }

    /** The `map` callback over `bs`, in list order: the booking with the id
        is answered and its visitor hears of a change. */
    method AnswerAndNotify(bs: seq<Booking>, id: string, status: BookingStatus, feedback: Option<string>,
                           fmt: int -> string, noticeId: string, now: int) returns (updated: seq<Booking>)
      modifies feed
      ensures updated == Answer(bs, id, status, feedback)
      ensures feed.notifications == AnswerNotices(old(feed.notifications), bs, id, status, feedback, fmt, noticeId, now)
    {
      ghost var ns := feed.notifications;
      updated := [];
      var i := 0;
      while i < |bs|
        invariant 0 <= i <= |bs|
        invariant updated == Answer(bs[..i], id, status, feedback)
        invariant feed.notifications == AnswerNotices(ns, bs[..i], id, status, feedback, fmt, noticeId, now)
      {
        var b := bs[i];
        var next := if b.id == id then Answered(b, status, feedback) else b;
        StepOfAnswer(bs, i, id, status, feedback, fmt, noticeId, now, ns);
        AnswerOne(b, id, status, feedback, fmt, noticeId, now);
        updated := updated + [next];
        i := i + 1;
      }
      assert bs[..|bs|] == bs;
    }

    /** Notifies the visitor of `b` when the update reaches and changes it. */
    method AnswerOne(b: Booking, id: string, status: BookingStatus, feedback: Option<string>,
                     fmt: int -> string, noticeId: string, now: int)
      modifies feed
      ensures feed.notifications == if b.id == id && Changes(b, status, feedback)
        then NC.Posted(old(feed.notifications), AnswerNotice(b, status, feedback, fmt), noticeId, now)
        else old(feed.notifications)
    {
      if b.id == id && Changes(b, status, feedback) {
        feed.AddNotification(AnswerNotice(b, status, feedback, fmt), noticeId, now);
      }
    }

    /** The settled notification email of `b` reports to the administrator. */
    method BookingEmailSettled(b: Booking, outcome: NC.EmailOutcome, noticeId: string, now: int)
      modifies feed
      ensures feed.notifications == NC.PostedOpt(old(feed.notifications), BookingEmailNotice(b, outcome), noticeId, now)
    {
      var n := BookingEmailNotice(b, outcome);
      if n.Some? {
        feed.AddNotification(n.value, noticeId, now);
      }
    }

    function GetVisitorBookings(email: string): seq<Booking>
      reads this
    {
      VisitorBookings(bookings, email)
    }

    function GetAllBookings(): seq<Booking>
      reads this
    {
      bookings
    }

    method DeleteBooking(id: string, noticeId: string, now: int)
      modifies this, feed
      ensures bookings == WithoutBooking(old(bookings), id)
      ensures feed.notifications == NC.Posted(old(feed.notifications), DeletedNotice, noticeId, now)
    {
      bookings := WithoutBooking(bookings, id);
      feed.AddNotification(DeletedNotice, noticeId, now);
    }
  }

  // -----------------------------------------------------------------------
  // Properties

  lemma StepOfAnswer(bs: seq<Booking>, i: nat, id: string, status: BookingStatus, feedback: Option<string>,
                     fmt: int -> string, noticeId: string, now: int, ns: seq<NC.Notification>)
    requires i < |bs|
    ensures Answer(bs[..i + 1], id, status, feedback)
      == Answer(bs[..i], id, status, feedback) + [if bs[i].id == id then Answered(bs[i], status, feedback) else bs[i]]
    ensures AnswerNotices(ns, bs[..i + 1], id, status, feedback, fmt, noticeId, now)
      == var before := AnswerNotices(ns, bs[..i], id, status, feedback, fmt, noticeId, now);
         if bs[i].id == id && Changes(bs[i], status, feedback)
         then NC.Posted(before, AnswerNotice(bs[i], status, feedback, fmt), noticeId, now) else before
  {
    assert bs[..i + 1][..i] == bs[..i];
  }

  predicate UniqueIds(bs: seq<Booking>)
  {
    forall i, j :: 0 <= i < j < |bs| ==> bs[i].id != bs[j].id
  }

  /** A new booking is pending, stamped `now`, appended after the existing
      bookings, which stay as they were. */
  lemma AddBookingAppends(bs: seq<Booking>, d: BookingData, id: string, now: int)
    ensures var r := bs + [NewBooking(d, id, now)];
      && |r| == |bs| + 1 && r[..|bs|] == bs
      && r[|bs|].status == Pending && r[|bs|].createdAt == now && r[|bs|].id == id
      && r[|bs|].email == d.email && r[|bs|].visitDate == d.visitDate && r[|bs|].groupSize == d.groupSize
  {
  }

  /** With unique ids an update rewrites exactly the one booking with the id
      (keeping its creation time and details), whatever its status was, and
      the visitor is notified exactly when status or feedback changes. */
  lemma AnswerTouchesOne(bs: seq<Booking>, ns: seq<NC.Notification>, k: nat, status: BookingStatus,
                         feedback: Option<string>, fmt: int -> string, noticeId: string, now: int)
    requires UniqueIds(bs) && k < |bs|
    ensures var r := Answer(bs, bs[k].id, status, feedback);
      && r == bs[k := bs[k].(status := status, adminFeedback := feedback)]
      && r[k].createdAt == bs[k].createdAt && r[k].visitDate == bs[k].visitDate
    ensures AnswerNotices(ns, bs, bs[k].id, status, feedback, fmt, noticeId, now)
      == if Changes(bs[k], status, feedback) then NC.Posted(ns, AnswerNotice(bs[k], status, feedback, fmt), noticeId, now)
         else ns
  {
    NoticesOnlyFor(ns, bs, k, status, feedback, fmt, noticeId, now, |bs|);
    assert bs[..|bs|] == bs;
  }

  lemma {:induction false} NoticesOnlyFor(ns: seq<NC.Notification>, bs: seq<Booking>, k: nat, status: BookingStatus,
                                          feedback: Option<string>, fmt: int -> string, noticeId: string, now: int, n: nat)
    requires UniqueIds(bs) && k < |bs| && n <= |bs|
    ensures AnswerNotices(ns, bs[..n], bs[k].id, status, feedback, fmt, noticeId, now)
      == if n <= k || !Changes(bs[k], status, feedback) then ns
         else NC.Posted(ns, AnswerNotice(bs[k], status, feedback, fmt), noticeId, now)
  {
    if n > 0 {
      assert bs[..n][..n - 1] == bs[..n - 1];
      NoticesOnlyFor(ns, bs, k, status, feedback, fmt, noticeId, now, n - 1);
    }
  }

  /** Re-sending the same status and feedback posts nothing. */
  lemma RepeatedAnswerIsSilent(bs: seq<Booking>, ns: seq<NC.Notification>, id: string, status: BookingStatus,
                               feedback: Option<string>, fmt: int -> string, noticeId: string, now: int)
    ensures var r := Answer(bs, id, status, feedback);
      && Answer(r, id, status, feedback) == r
      && AnswerNotices(ns, r, id, status, feedback, fmt, noticeId, now) == ns
  {
    SilentWhenUnchanged(ns, Answer(bs, id, status, feedback), id, status, feedback, fmt, noticeId, now);
  }

  lemma {:induction false} SilentWhenUnchanged(ns: seq<NC.Notification>, bs: seq<Booking>, id: string, status: BookingStatus,
                                               feedback: Option<string>, fmt: int -> string, noticeId: string, now: int)
    requires forall i :: 0 <= i < |bs| && bs[i].id == id ==> !Changes(bs[i], status, feedback)
    ensures AnswerNotices(ns, bs, id, status, feedback, fmt, noticeId, now) == ns
  {
    if bs != [] {
      SilentWhenUnchanged(ns, bs[..|bs| - 1], id, status, feedback, fmt, noticeId, now);
    }
  }

  /** A feedback removed without a status change is announced with the
      text "undefined". */
  lemma ClearedFeedbackReadsUndefined(b: Booking, fmt: int -> string)
    requires b.adminFeedback == Some("See you soon")
    ensures Changes(b, b.status, None)
    ensures AnswerNotice(b, b.status, None, fmt).message == "New feedback received for your booking: undefined"
  {
  }

  /** `getVisitorBookings` keeps a visitor's bookings in order: it
      distributes over concatenation. */
  lemma VisitorBookingsInOrder(bs: seq<Booking>, more: seq<Booking>, email: string)
    ensures VisitorBookings(bs + more, email) == VisitorBookings(bs, email) + VisitorBookings(more, email)
  {
    FilterConcat(bs, more, (b: Booking) => b.email == email);
  }

  /** Deleting an unknown id leaves the bookings as they were, yet the
      administrator is still told a booking was deleted. */
  lemma DeleteUnknownStillNotifies(bs: seq<Booking>, ns: seq<NC.Notification>, id: string, noticeId: string, now: int)
    requires forall i :: 0 <= i < |bs| ==> bs[i].id != id
    ensures WithoutBooking(bs, id) == bs
    ensures |NC.Posted(ns, DeletedNotice, noticeId, now)| == |ns| + 1
  {
    FilterAll(bs, (b: Booking) => b.id != id);
  }
}
