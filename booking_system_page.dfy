/** The visitor's booking form (BookingSystem.tsx): the field checks run one
    after another into an error record, the chosen date and time are
    combined into one instant, and a valid form becomes a booking. Instants
    are local-time milliseconds; today's midnight is given. */
module BookingSystemPage {
  import opened Common
  import BC = BookingContext
  import NC = NotificationContext
  import Auth = AuthContext

  // -----------------------------------------------------------------------
  // parseInt

  predicate IsDigit(c: char) { '0' <= c <= '9' }

  predicate IsHexDigit(c: char) { IsDigit(c) || 'a' <= c <= 'f' || 'A' <= c <= 'F' }

  function DigitOf(c: char): nat
  {
    if IsDigit(c) then c as int - '0' as int
    else if 'a' <= c <= 'f' then c as int - 'a' as int + 10
    else if 'A' <= c <= 'F' then c as int - 'A' as int + 10
    else 0
  }

  /** Length of the longest prefix of `s` whose characters satisfy `p`. */
  function RunLength(s: string, p: char -> bool): (r: nat)
    ensures r <= |s|
    ensures forall i :: 0 <= i < r ==> p(s[i])
    ensures r < |s| ==> !p(s[r])
  {
    if s != [] && p(s[0]) then 1 + RunLength(s[1..], p) else 0
  }

  /** The number the digits `s` spell in base `b`, most significant first. */
  function ValueIn(s: string, b: nat): nat
  {
    if s == [] then 0 else ValueIn(s[..|s| - 1], b) * b + DigitOf(s[|s| - 1])
  }

  /** `parseInt(s)` without a radix: leading white space, an optional sign,
      then a "0x"/"0X" prefix and hexadecimal digits or else decimal digits,
      read as far as they go; `None` (NaN) when there is no digit. */
  function ParseInt(s: string): Option<int>
  {
    var t := TrimStart(s);
    var negative := t != [] && t[0] == '-';
    var u := if t != [] && (t[0] == '-' || t[0] == '+') then t[1..] else t;
    if |u| >= 2 && u[0] == '0' && (u[1] == 'x' || u[1] == 'X') then
      var n := RunLength(u[2..], IsHexDigit);
      if n == 0 then None
      else
        var v: int := ValueIn(u[2..2 + n], 16);
        Some(if negative then -v else v)
    else
      var n := RunLength(u, IsDigit);
      if n == 0 then None
      else
        var v: int := ValueIn(u[..n], 10);
        Some(if negative then -v else v)
  }

  /** The decimal text of `n`, as `String(n)` writes it. */
  function DecimalText(n: nat): (r: string)
    ensures |r| >= 1 && forall i :: 0 <= i < |r| ==> IsDigit(r[i])
  {
    if n < 10 then [('0' as int + n) as char]
    else DecimalText(n / 10) + [('0' as int + n % 10) as char]
  }

  // -----------------------------------------------------------------------
  // The form and its checks

  /** The form; the pickers hold an instant or nothing. */
  datatype BookingForm = BookingForm(
    visitorName: string, email: string, visitDate: Option<int>, visitTime: Option<int>,
    groupSize: string, purpose: string, specialRequirements: string)

  datatype Message =
    | NameRequired | EmailRequired | InvalidEmail | DateRequired | DateInPast
    | TimeRequired | GroupSizeRequired | GroupSizeTooSmall | GroupSizeTooLarge | PurposeRequired

  function MessageText(m: Message): string
  {
    match m
    case NameRequired => "Name is required"
    case EmailRequired => "Email is required"
    case InvalidEmail => "Invalid email format"
    case DateRequired => "Visit date is required"
    case DateInPast => "Visit date cannot be in the past"
    case TimeRequired => "Visit time is required"
    case GroupSizeRequired => "Group size is required"
    case GroupSizeTooSmall => "Group size must be at least 1"
    case GroupSizeTooLarge => "Maximum group size is 15 people"
    case PurposeRequired => "Purpose of visit is required"
  }

  /** One message per field, at most. */
  datatype Errors = Errors(
    visitorName: Option<Message>, email: Option<Message>, visitDate: Option<Message>,
    visitTime: Option<Message>, groupSize: Option<Message>, purpose: Option<Message>)

  predicate NoErrors(e: Errors)
  {
    e.visitorName.None? && e.email.None? && e.visitDate.None?
    && e.visitTime.None? && e.groupSize.None? && e.purpose.None?
  }

  const MaxGroupSize := 15

  predicate GroupSizeOk(text: string)
  {
    var n := ParseInt(text);
    n.Some? && 1 <= n.value <= MaxGroupSize
  }

  /** What a valid form is: every field filled, the email matching the
      pattern, the date not before today's midnight, and a group size that
      reads as a number from 1 to 15. */
  predicate FormValid(f: BookingForm, todayMidnight: int)
  {
    && f.visitorName != ""
    && MatchesEmailPattern(f.email)
    && f.visitDate.Some? && f.visitDate.value >= todayMidnight
    && f.visitTime.Some?
    && GroupSizeOk(f.groupSize)
    && f.purpose != ""
  }

  function GroupSizeMessage(text: string): Option<Message>
  {
    if text == "" then Some(GroupSizeRequired)
    else
      var n := ParseInt(text);
      if n.None? || n.value < 1 then Some(GroupSizeTooSmall)
      else if n.value > MaxGroupSize then Some(GroupSizeTooLarge)
      else None
  }

  /** The messages the checks leave, field by field. */
  function ErrorsOf(f: BookingForm, todayMidnight: int): Errors
  {
    Errors(
      if f.visitorName == "" then Some(NameRequired) else None,
      if f.email == "" then Some(EmailRequired)
      else if !MatchesEmailPattern(f.email) then Some(InvalidEmail) else None,
      if f.visitDate.None? then Some(DateRequired)
      else if f.visitDate.value < todayMidnight then Some(DateInPast) else None,
      if f.visitTime.None? then Some(TimeRequired) else None,
      GroupSizeMessage(f.groupSize),
      if f.purpose == "" then Some(PurposeRequired) else None)
  }

  /** `validateForm`: each check records its message and clears the flag. */
  method ValidateForm(f: BookingForm, todayMidnight: int) returns (isValid: bool, errors: Errors)
    ensures isValid <==> FormValid(f, todayMidnight)
    ensures isValid <==> NoErrors(errors)
    ensures errors == ErrorsOf(f, todayMidnight)
  {
    isValid := true;
    var name: Option<Message> := None;
    var email: Option<Message> := None;
    var date: Option<Message> := None;
    var time: Option<Message> := None;
    var size: Option<Message> := None;
    var purpose: Option<Message> := None;

    if f.visitorName == "" {
      name := Some(NameRequired);
      isValid := false;
    }
    if f.email == "" {
      email := Some(EmailRequired);
      isValid := false;
    } else if !MatchesEmailPattern(f.email) {
      email := Some(InvalidEmail);
      isValid := false;
    }
    if f.visitDate.None? {
      date := Some(DateRequired);
      isValid := false;
    } else if f.visitDate.value < todayMidnight {
      date := Some(DateInPast);
      isValid := false;
    }
    if f.visitTime.None? {
      time := Some(TimeRequired);
      isValid := false;
    }
    if f.groupSize == "" {
      size := Some(GroupSizeRequired);
      isValid := false;
    } else {
      var n := ParseInt(f.groupSize);
      if n.None? || n.value < 1 {
        size := Some(GroupSizeTooSmall);
        isValid := false;
      } else if n.value > MaxGroupSize {
        size := Some(GroupSizeTooLarge);
        isValid := false;
      }
    }
    if f.purpose == "" {
      purpose := Some(PurposeRequired);
      isValid := false;
    }
    errors := Errors(name, email, date, time, size, purpose);
  }

  // -----------------------------------------------------------------------
  // Date and time

  const MinuteMs := 60000
  const HourMs := 3600000
  const DayMs := 86400000

  /** `new Date(date)` with `setHours` and `setMinutes` from `time`: the
      date's day, the time's hour and minute, the date's seconds and
      milliseconds. */
  function CombinedInstant(date: int, time: int): int
  {
    var hours := (time % DayMs) / HourMs;
    var minutes := (time % HourMs) / MinuteMs;
    (date - date % DayMs) + hours * HourMs + minutes * MinuteMs + date % MinuteMs
  }

  /** What a valid form submits. */
  function BookingDataOf(f: BookingForm): BC.BookingData
    requires f.visitDate.Some? && f.visitTime.Some? && ParseInt(f.groupSize).Some?
  {
    BC.BookingData(f.visitorName, f.email, CombinedInstant(f.visitDate.value, f.visitTime.value),
      ParseInt(f.groupSize).value, f.purpose, f.specialRequirements, None)
  }

  datatype Snackbar = Snackbar(message: string, success: bool)

  function EmptyForm(): BookingForm
  {
    BookingForm("", "", None, None, "", "", "")
  }

  /** The form as the page opens: the signed-in user's name and email. */
  function InitialForm(user: Option<Auth.Session>): (r: BookingForm)
    ensures user.Some? ==> r.visitorName == user.value.name && r.email == user.value.email
    ensures r.visitDate.None? && r.visitTime.None? && r.groupSize == ""
  {
    if user.Some? then EmptyForm().(visitorName := user.value.name, email := user.value.email)
    else EmptyForm()
  }

  class BookingPage {
    const ledger: BC.BookingLedger
    var form: BookingForm
    var errors: Errors
    var snackbar: Option<Snackbar>

    constructor (ledger: BC.BookingLedger, user: Option<Auth.Session>)
      ensures this.ledger == ledger && form == InitialForm(user) && NoErrors(errors) && snackbar.None?
    {
      this.ledger := ledger;
      form := InitialForm(user);
      errors := Errors(None, None, None, None, None, None);
      snackbar := None;
    }

    /** `handleSubmit`: a valid form is booked and the form emptied; an
        invalid one only shows its errors. */
    method Submit(todayMidnight: int, fmt: int -> string, id: string, noticeId: string, now: int)
      modifies this, ledger, ledger.feed
      ensures errors == ErrorsOf(old(form), todayMidnight)
      ensures !FormValid(old(form), todayMidnight) ==>
        && ledger.bookings == old(ledger.bookings) && ledger.feed.notifications == old(ledger.feed.notifications)
        && form == old(form) && snackbar == old(snackbar)
      ensures FormValid(old(form), todayMidnight) ==>
        && ledger.bookings == old(ledger.bookings) + [BC.NewBooking(BookingDataOf(old(form)), id, now)]
        && ledger.feed.notifications
           == NC.Posted(old(ledger.feed.notifications), BC.NewBookingNotice(BookingDataOf(old(form)), fmt), noticeId, now)
        && form == EmptyForm()
        && snackbar == Some(Snackbar("Booking request submitted successfully!", true))
    {
      var isValid, shown := ValidateForm(form, todayMidnight);
      errors := shown;
      if isValid {
        var data := BookingDataOf(form);
        ledger.AddBooking(data, fmt, id, noticeId, now);
        snackbar := Some(Snackbar("Booking request submitted successfully!", true));
        form := EmptyForm();
      }
    }
  }

  // -----------------------------------------------------------------------
  // Properties

  /** The form is valid exactly when no field has a message, and each
      failure names its field's rule. */
  lemma NoErrorsIffValid(f: BookingForm, todayMidnight: int)
    ensures NoErrors(ErrorsOf(f, todayMidnight)) <==> FormValid(f, todayMidnight)
    ensures ErrorsOf(f, todayMidnight).visitDate == Some(DateInPast)
      <==> f.visitDate.Some? && f.visitDate.value < todayMidnight
    ensures ErrorsOf(f, todayMidnight).groupSize == Some(GroupSizeTooLarge)
      <==> ParseInt(f.groupSize).Some? && ParseInt(f.groupSize).value > MaxGroupSize
  {
    assert ParseInt("") == None;
  }

  /** A booking made from a valid form carries a group of 1 to 15, an email
      matching the pattern, and an instant on or after today's midnight. */
  lemma ValidFormBooking(f: BookingForm, todayMidnight: int)
    requires FormValid(f, todayMidnight) && todayMidnight % DayMs == 0
    ensures var d := BookingDataOf(f);
      1 <= d.groupSize <= MaxGroupSize && MatchesEmailPattern(d.email) && d.visitDate >= todayMidnight
  {
    var date := f.visitDate.value;
    assert date - date % DayMs >= todayMidnight by {
      assert (date - date % DayMs) % DayMs == 0;
      assert date - date % DayMs > date - DayMs;
    }
  }

  /** A non-zero multiple of `d` is at least `d` away from zero. */
  lemma MultipleAwayFromZero(k: int, d: int)
    requires d > 0
    ensures k >= 1 ==> k * d >= d
    ensures k <= -1 ==> k * d <= -d
  {
    assert k * d - d == (k - 1) * d;
    assert k * d + d == (k + 1) * d;
  }

  /** Division is determined by quotient and remainder. */
  lemma DivModOf(x: int, d: int, q: int, r: int)
    requires d > 0 && 0 <= r < d && x == q * d + r
    ensures x / d == q && x % d == r
  {
    var q', r' := x / d, x % d;
    assert (q - q') * d == r' - r;
    MultipleAwayFromZero(q - q', d);
  }

  /** The combined instant lies on the date's day, at the time's hour and
      minute, and keeps the date's seconds and milliseconds. */
  lemma CombinedParts(date: int, time: int)
    ensures var c := CombinedInstant(date, time);
      c - c % DayMs == date - date % DayMs
      && (c % DayMs) / HourMs == (time % DayMs) / HourMs
      && (c % HourMs) / MinuteMs == (time % HourMs) / MinuteMs
      && c % MinuteMs == date % MinuteMs
  {
    var day := date / DayMs;
    var hours := (time % DayMs) / HourMs;
    var minutes := (time % HourMs) / MinuteMs;
    DivModOf(time % DayMs, HourMs, hours, (time % DayMs) % HourMs);
    DivModOf(time % HourMs, MinuteMs, minutes, (time % HourMs) % MinuteMs);
    assert 0 <= hours < 24 && 0 <= minutes < 60;
    var seconds := date % MinuteMs;
    var inHour := minutes * MinuteMs + seconds;
    var inDay := hours * HourMs + inHour;
    assert 0 <= inHour < HourMs;
    assert 0 <= inDay < DayMs;
    var c := CombinedInstant(date, time);
    assert date - date % DayMs == day * DayMs;
    assert c == day * DayMs + inDay;
    DivModOf(c, DayMs, day, inDay);
    DivModOf(inDay, HourMs, hours, inHour);
    assert c == (day * 24 + hours) * HourMs + inHour;
    DivModOf(c, HourMs, day * 24 + hours, inHour);
    DivModOf(inHour, MinuteMs, minutes, seconds);
    assert c == (day * 1440 + hours * 60 + minutes) * MinuteMs + seconds;
    DivModOf(c, MinuteMs, day * 1440 + hours * 60 + minutes, seconds);
  }

  // parseInt

  lemma {:induction false} ValueOfDecimal(n: nat)
    ensures ValueIn(DecimalText(n), 10) == n
  {
    if n >= 10 {
      ValueOfDecimal(n / 10);
      var t := DecimalText(n);
      assert t[..|t| - 1] == DecimalText(n / 10);
    }
  }

  lemma {:induction false} RunOverDigits(a: string, rest: string)
    requires forall i :: 0 <= i < |a| ==> IsDigit(a[i])
    requires rest == [] || !IsDigit(rest[0])
    ensures RunLength(a + rest, IsDigit) == |a|
  {
    if a != [] {
      assert (a + rest)[1..] == a[1..] + rest;
      RunOverDigits(a[1..], rest);
    } else {
      assert a + rest == rest;
    }
  }

  /** `parseInt` reads a number's decimal text back, and stops at the first
      character that is not a digit: "15.9" is 15. Only "0" followed by "x"
      is read as a hexadecimal prefix. */
  lemma ParseDecimal(n: nat, rest: string)
    requires rest == [] || !IsDigit(rest[0])
    requires n != 0 || rest == [] || (rest[0] != 'x' && rest[0] != 'X')
    ensures ParseInt(DecimalText(n) + rest) == Some(n)
  {
    var s := DecimalText(n) + rest;
    assert s[0] == DecimalText(n)[0];
    assert TrimStart(s) == s;
    RunOverDigits(DecimalText(n), rest);
    assert s[..|DecimalText(n)|] == DecimalText(n);
    ValueOfDecimal(n);
    if |s| >= 2 && s[0] == '0' {
      if |DecimalText(n)| >= 2 {
        assert s[1] == DecimalText(n)[1];
      } else {
        assert n == 0;
        assert s[1] == rest[0];
      }
    }
  }

  /** A group size typed as a plain number is accepted exactly from 1 to
      15. */
  lemma GroupSizeOfNumber(n: nat)
    ensures GroupSizeOk(DecimalText(n)) <==> 1 <= n <= MaxGroupSize
  {
    ParseDecimal(n, []);
    assert DecimalText(n) + [] == DecimalText(n);
  }

  /** The group-size field is a number field, whose text may also be a
      fraction or use exponent notation. `parseInt` reads only the leading
      digits, so "1e2" (a hundred people) passes the check as 1 and "15.9"
      as 15. */
  lemma NumberFieldReadsLeadingDigits()
    ensures ParseInt("1e2") == Some(1) && GroupSizeOk("1e2")
    ensures ParseInt("15.9") == Some(15) && GroupSizeOk("15.9")
  {
    assert DecimalText(1) == "1";
    ParseDecimal(1, "e2");
    assert "1" + "e2" == "1e2";
    assert DecimalText(15) == "15" by {
      assert DecimalText(15) == DecimalText(1) + "5";
    }
    ParseDecimal(15, ".9");
    assert "15" + ".9" == "15.9";
  }
}
