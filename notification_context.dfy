/** The notification feed (NotificationContext.tsx): a newest-first list of
    messages for a recipient (a user's email or the tag "admin"), each with
    a read flag. */
module NotificationContext {
  import opened Common

  datatype Kind = Info | Success | Warning | Error

  /** What a caller posts: everything but the id, the timestamp and the
      read flag. */
  datatype NotificationData = NotificationData(userId: string, title: string, message: string, kind: Kind)

  datatype Notification = Notification(
    id: string, userId: string, title: string, message: string, kind: Kind,
    read: bool, createdAt: int)

  const EmailErrorTitle := "Email Error"
  const EmailFailurePhrase := "Failed to send email"

  /** The deliberate filter of `addNotification`: error entries about a
      failed email are dropped. */
  predicate Suppressed(d: NotificationData)
  {
    d.kind == Error && (d.title == EmailErrorTitle || Contains(d.message, EmailFailurePhrase))
  }

  /** The entry `addNotification` builds from `d`: unread, stamped `now`. */
  function Created(d: NotificationData, id: string, now: int): Notification
  {
    Notification(id, d.userId, d.title, d.message, d.kind, false, now)
  }

  /** The feed after posting `d`. */
  function Posted(ns: seq<Notification>, d: NotificationData, id: string, now: int): seq<Notification>
  {
    if Suppressed(d) then ns else [Created(d, id, now)] + ns
  }

  /** The feed after posting `d` if there is one. */
  function PostedOpt(ns: seq<Notification>, d: Option<NotificationData>, id: string, now: int): seq<Notification>
  {
    if d.None? then ns else Posted(ns, d.value, id, now)
  }

  /** How an EmailJS send settled: the promise resolved, it rejected with
      an error text, or `send` threw before returning a promise. */
  datatype EmailOutcome = Delivered | Failed(text: string) | ThrewSynchronously

  /** The admin notice the callbacks of an EmailJS send post: "Email Sent"
      with `sentMessage` on success, "Email Error" naming the recipient on
      failure, and nothing when `send` throws (that path only logs). */
  function EmailNotice(outcome: EmailOutcome, sentMessage: string, name: string, email: string): Option<NotificationData>
  {
    match outcome
    case Delivered => Some(NotificationData("admin", "Email Sent", sentMessage, Success))
    case Failed(text) =>
      Some(NotificationData("admin", EmailErrorTitle,
        EmailFailurePhrase + " to " + name + " (" + email + "): " + text, Error))
    case ThrewSynchronously => None
  }

  /** The feed after `markAsRead(id)`. */
  function MarkedRead(ns: seq<Notification>, id: string): (r: seq<Notification>)
    ensures |r| == |ns|
    ensures forall i :: 0 <= i < |ns| ==> r[i] == ns[i].(read := ns[i].read || ns[i].id == id)
  {
    Map(ns, (n: Notification) => if n.id == id then n.(read := true) else n)
  }

  /** The feed after `markAllAsRead()`. */
  function AllRead(ns: seq<Notification>): (r: seq<Notification>)
    ensures |r| == |ns|
    ensures forall i :: 0 <= i < |ns| ==> r[i].read && r[i] == ns[i].(read := true)
  {
    Map(ns, (n: Notification) => n.(read := true))
  }

  predicate NotError(n: Notification) { n.kind != Error }

  /** The feed after `clearFailedNotifications()`. */
  function WithoutErrors(ns: seq<Notification>): (r: seq<Notification>)
    ensures forall i :: 0 <= i < |r| ==> r[i].kind != Error && r[i] in ns
    ensures forall i :: 0 <= i < |ns| && ns[i].kind != Error ==> ns[i] in r
  {
    Filter(ns, NotError)
  }

  predicate Unread(n: Notification) { !n.read }

  /** `getUnreadCount()`. */
  function UnreadCount(ns: seq<Notification>): nat
  {
    Count(ns, Unread)
  }

  /** `getUserNotifications(userId)`. */
  function ForUser(ns: seq<Notification>, userId: string): (r: seq<Notification>)
    ensures forall i :: 0 <= i < |r| ==> r[i].userId == userId && r[i] in ns
    ensures forall i :: 0 <= i < |ns| && ns[i].userId == userId ==> ns[i] in r
  {
    Filter(ns, (n: Notification) => n.userId == userId)
  }

  class NotificationFeed {
    var notifications: seq<Notification>

    /** The feed as loaded from storage (an empty list when nothing is stored). */
    constructor (saved: seq<Notification>)
      ensures notifications == saved
    {
      notifications := saved;
    }

    method AddNotification(d: NotificationData, id: string, now: int)
      modifies this
      ensures notifications == Posted(old(notifications), d, id, now)
    {
      if Suppressed(d) {
        return;
      }
      notifications := [Created(d, id, now)] + notifications;
    }

    method MarkAsRead(id: string)
      modifies this
      ensures notifications == MarkedRead(old(notifications), id)
    {
      notifications := MarkedRead(notifications, id);
    }

    method MarkAllAsRead()
      modifies this
      ensures notifications == AllRead(old(notifications))
    {
      notifications := AllRead(notifications);
    }

    method ClearFailedNotifications()
      modifies this
      ensures notifications == WithoutErrors(old(notifications))
    {
      notifications := WithoutErrors(notifications);
    }

    function GetUnreadCount(): nat
      reads this
    {
      UnreadCount(notifications)
    }

    function GetUserNotifications(userId: string): seq<Notification>
      reads this
    {
      ForUser(notifications, userId)
    }
  }

  // -----------------------------------------------------------------------
  // Properties

  /** A post is dropped exactly when it is an email-failure error; any other
      post becomes the newest entry, unread, and the rest of the feed
      follows unchanged. */
  lemma PostedPrepends(ns: seq<Notification>, d: NotificationData, id: string, now: int)
    ensures var r := Posted(ns, d, id, now);
      && (Suppressed(d) <==> r == ns)
      && (!Suppressed(d) ==>
            |r| == |ns| + 1 && r[1..] == ns && !r[0].read
            && r[0].userId == d.userId && r[0].title == d.title
            && r[0].message == d.message && r[0].kind == d.kind)
  {
    if !Suppressed(d) {
      assert |Posted(ns, d, id, now)| == |ns| + 1;
    }
  }

  /** Whatever else it says, an error titled "Email Error" never appears:
      this is how the failure notices of the email callbacks vanish. */
  lemma EmailErrorNeverPosted(ns: seq<Notification>, userId: string, message: string, id: string, now: int)
    ensures Posted(ns, NotificationData(userId, EmailErrorTitle, message, Error), id, now) == ns
  {
  }

  /** Of the three ways an email send can settle, only a delivery shows in
      the feed: a failure notice is dropped by the filter of
      `addNotification`, a synchronous throw only logs. */
  lemma EmailOutcomeVisibility(ns: seq<Notification>, outcome: EmailOutcome, sentMessage: string,
                               name: string, email: string, id: string, now: int)
    ensures var r := PostedOpt(ns, EmailNotice(outcome, sentMessage, name, email), id, now);
      && (outcome.Delivered? ==>
            r == [Notification(id, "admin", "Email Sent", sentMessage, Success, false, now)] + ns)
      && (!outcome.Delivered? ==> r == ns)
  {
  }

  /** The suppression also catches errors that only mention the phrase,
      whatever their title and wherever the phrase stands, for instance a
      rejection notice whose admin feedback quotes it. */
  lemma PhraseAloneSuppresses(ns: seq<Notification>, userId: string, title: string, before: string, after: string,
                              id: string, now: int)
    ensures Posted(ns, NotificationData(userId, title, before + EmailFailurePhrase + after, Error), id, now) == ns
  {
    var m := before + EmailFailurePhrase + after;
    assert m[|before|..|before| + |EmailFailurePhrase|] == EmailFailurePhrase;
    assert OccursAt(m, EmailFailurePhrase, |before|);
    ContainsIffOccurs(m, EmailFailurePhrase);
  }

  lemma {:induction false} UnreadCountCons(n: Notification, ns: seq<Notification>)
    ensures UnreadCount([n] + ns) == UnreadCount(ns) + (if n.read then 0 else 1)
  {
    assert ([n] + ns)[1..] == ns;
  }

  /** Every successful post adds exactly one unread entry, and it shows up
      first in its recipient's list. */
  lemma PostAddsOneUnread(ns: seq<Notification>, d: NotificationData, id: string, now: int)
    requires !Suppressed(d)
    ensures UnreadCount(Posted(ns, d, id, now)) == UnreadCount(ns) + 1
    ensures ForUser(Posted(ns, d, id, now), d.userId) == [Created(d, id, now)] + ForUser(ns, d.userId)
  {
    UnreadCountCons(Created(d, id, now), ns);
    assert ([Created(d, id, now)] + ns)[1..] == ns;
  }

  lemma {:induction false} NoUnreadCountsZero(ns: seq<Notification>)
    requires forall i :: 0 <= i < |ns| ==> ns[i].read
    ensures UnreadCount(ns) == 0
  {
    if ns != [] {
      NoUnreadCountsZero(ns[1..]);
      UnreadCountCons(ns[0], ns[1..]);
      assert [ns[0]] + ns[1..] == ns;
    }
  }

  /** After `markAllAsRead`, `getUnreadCount()` is 0; doing it again
      changes nothing. */
  lemma MarkAllAsReadClears(ns: seq<Notification>)
    ensures UnreadCount(AllRead(ns)) == 0
    ensures AllRead(AllRead(ns)) == AllRead(ns)
  {
    NoUnreadCountsZero(AllRead(ns));
  }

  /** `markAsRead` never increases the unread count, and it marks every
      entry carrying the id (ids made from the clock can collide). */
  lemma {:induction false} MarkAsReadCount(ns: seq<Notification>, id: string)
    ensures UnreadCount(MarkedRead(ns, id)) <= UnreadCount(ns)
    ensures forall i :: 0 <= i < |ns| && ns[i].id == id ==> MarkedRead(ns, id)[i].read
  {
    if ns != [] {
      var r := MarkedRead(ns, id);
      MarkAsReadCount(ns[1..], id);
      assert r[1..] == MarkedRead(ns[1..], id);
      UnreadCountCons(r[0], r[1..]);
      UnreadCountCons(ns[0], ns[1..]);
      assert [r[0]] + r[1..] == r;
      assert [ns[0]] + ns[1..] == ns;
    }
  }

  /** `clearFailedNotifications` keeps the non-error entries in order (it
      distributes over concatenation) and is idempotent. */
  lemma ClearFailedProperties(ns: seq<Notification>, more: seq<Notification>)
    ensures WithoutErrors(ns + more) == WithoutErrors(ns) + WithoutErrors(more)
    ensures WithoutErrors(WithoutErrors(ns)) == WithoutErrors(ns)
  {
    FilterConcat(ns, more, NotError);
    FilterIdempotent(ns, NotError);
  }

  /** A feed already free of errors is left as it is. */
  lemma ClearFailedNoErrors(ns: seq<Notification>)
    requires forall i :: 0 <= i < |ns| ==> ns[i].kind != Error
    ensures WithoutErrors(ns) == ns
  {
    FilterAll(ns, NotError);
  }
}
