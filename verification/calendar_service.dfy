/** The calendar service: reading a slot label back into a date and a clock
    time (`parseDateTimeToISO`), and booking a one-hour meeting at that time
    (`createCalendarEvent`). The Google Calendar API and the OAuth client
    become inputs: the outcome of loading the credentials, and a function
    from the event sent to the outcome of inserting it. */
module CalendarService {
  import opened Wrappers
  import opened JsText
  import opened Gregorian

  // ---------------------------------------------------------------------
  // The pattern (\d+)\.\s*(\w+)\s+u\s+(\d+):(\d+)

  /** The four capture groups: day of the month, month word, hour, minute. */
  datatype Groups = Groups(day: string, monthWord: string, hour: string, minute: string)

  predicate IsDigits(s: string)
  {
    |s| > 0 && AllIn(s, DecimalDigit)
  }

  predicate IsWordRun(s: string)
  {
    |s| > 0 && AllIn(s, Word)
  }

  predicate WellShaped(g: Groups)
  {
    IsDigits(g.day) && IsWordRun(g.monthWord) && IsDigits(g.hour) && IsDigits(g.minute)
  }

  /** The match of the pattern starting at the first character of s, if
      any. Neighbouring parts of the pattern use disjoint character classes
      (digits and '.', white space and word characters, white space and
      'u', digits and ':'), so every greedy repetition either is exactly
      right or makes the match fail, and no backtracking can help. */
  function MatchAt(s: string): (g: Option<Groups>)
    ensures g.Some? ==> WellShaped(g.value)
  {
    var a := Span(s, DecimalDigit);
    if a == 0 || a == |s| || s[a] != '.' then None
    else MatchAfterDot(s[..a], s[a + 1..])
  }

  /** `\s*(\w+)\s+u\s+` and what follows, once the day and the dot are read. */
  function MatchAfterDot(day: string, t: string): (g: Option<Groups>)
    requires IsDigits(day)
    ensures g.Some? ==> WellShaped(g.value) && g.value.day == day
  {
    var u := t[Span(t, Space)..];
    var c := Span(u, Word);
    var v := u[c..];
    var b := Span(v, Space);
    if c == 0 || b == 0 || b == |v| || v[b] != 'u' then None
    else MatchClock(day, u[..c], v[b + 1..])
  }

  /** `\s+(\d+):(\d+)`, once the day, the month word and the 'u' are read. */
  function MatchClock(day: string, word: string, w: string): (g: Option<Groups>)
    requires IsDigits(day) && IsWordRun(word)
    ensures g.Some? ==> WellShaped(g.value) && g.value.day == day && g.value.monthWord == word
  {
    var b := Span(w, Space);
    var x := w[b..];
    var h := Span(x, DecimalDigit);
    if b == 0 || h == 0 || h == |x| || x[h] != ':' then None
    else
      var y := x[h + 1..];
      var mi := Span(y, DecimalDigit);
      if mi == 0 then None
      else Some(Groups(day, word, x[..h], y[..mi]))
  }

  /** The outcome of the anchored match at every start position. */
  function Attempts(s: string): (ms: seq<Option<Groups>>)
    ensures |ms| == |s| + 1
    ensures forall j :: 0 <= j <= |s| ==> ms[j] == MatchAt(s[j..])
  {
    seq(|s| + 1, j requires 0 <= j <= |s| => MatchAt(s[j..]))
  }

  /** The first successful attempt at position i or later. */
  function FirstFrom(ms: seq<Option<Groups>>, i: nat): (r: Option<Groups>)
    requires i <= |ms|
    ensures r.None? ==> forall j :: i <= j < |ms| ==> ms[j].None?
    ensures r.Some? ==>
      exists j :: i <= j < |ms| && ms[j] == r && forall k :: i <= k < j ==> ms[k].None?
    decreases |ms| - i
  {
    if i == |ms| then None
    else if ms[i].Some? then ms[i]
    else FirstFrom(ms, i + 1)
  }

  /** `s.match(regex)` without the global flag: the leftmost match. */
  function Search(s: string): (r: Option<Groups>)
    ensures r.Some? ==> WellShaped(r.value)
    ensures r.None? ==> forall j :: 0 <= j <= |s| ==> MatchAt(s[j..]).None?
  {
    FirstFrom(Attempts(s), 0)
  }

  /** The search answers the match at the leftmost position where the
      pattern matches, and nothing exactly when it matches nowhere. */
  lemma SearchIsLeftmost(s: string)
    ensures Search(s).Some? ==>
      exists j :: 0 <= j <= |s| && MatchAt(s[j..]) == Search(s)
        && forall k :: 0 <= k < j ==> MatchAt(s[k..]).None?
    ensures Search(s).None? <==> forall j :: 0 <= j <= |s| ==> MatchAt(s[j..]).None?
  {
    if Search(s).Some? {
      var j := SearchPosition(s);
      assert MatchAt(s[j..]).Some?;
    }
  }

  /** Where the match Search answers was found. */
  lemma SearchPosition(s: string) returns (j: nat)
    requires Search(s).Some?
    ensures j <= |s| && MatchAt(s[j..]) == Search(s)
    ensures forall k :: 0 <= k < j ==> MatchAt(s[k..]).None?
  {
    var ms := Attempts(s);
    j :| 0 <= j < |ms| && ms[j] == FirstFrom(ms, 0) && forall k :: 0 <= k < j ==> ms[k].None?;
    LeftmostAttempt(s, ms, j);
  }

  /** The attempts of Search, read back as anchored matches. */
  lemma LeftmostAttempt(s: string, ms: seq<Option<Groups>>, j: nat)
    requires ms == Attempts(s) && j < |ms| && ms[j].Some?
    requires forall k :: 0 <= k < j ==> ms[k].None?
    ensures MatchAt(s[j..]) == ms[j] && MatchAt(s[j..]).Some?
    ensures forall k :: 0 <= k < j ==> MatchAt(s[k..]).None?
  {
    forall k | 0 <= k < j
      ensures MatchAt(s[k..]).None?
    {
      assert ms[k] == MatchAt(s[k..]);
    }
  }

  lemma FirstFromFinds(ms: seq<Option<Groups>>, j: nat)
    requires j < |ms| && ms[j].Some?
    requires forall k :: 0 <= k < j ==> ms[k].None?
    ensures FirstFrom(ms, 0) == ms[j]
  {
    var r := FirstFrom(ms, 0);
    var j' :| 0 <= j' < |ms| && ms[j'] == r && forall k :: 0 <= k < j' ==> ms[k].None?;
    assert ms[j].Some?;
  }

  /** A match at position j with no match before it is what `match`
      returns. */
  lemma SearchFindsFirst(s: string, j: nat)
    requires j <= |s| && MatchAt(s[j..]).Some?
    requires forall k :: 0 <= k < j ==> MatchAt(s[k..]).None?
    ensures Search(s) == MatchAt(s[j..])
  {
    var ms := Attempts(s);
    forall k | 0 <= k < j
      ensures ms[k].None?
    {
      assert ms[k] == MatchAt(s[k..]);
    }
    FirstFromFinds(ms, j);
  }

  /** A run of class k followed by a mark outside k splits back into the
      run, the mark and what follows. */
  lemma RunThenMark(f: string, m: string, y: string, k: CharClass)
    requires AllIn(f, k) && |m| == 1 && !InClass(m[0], k)
    ensures Span(f + (m + y), k) == |f|
    ensures (f + (m + y))[..|f|] == f && (f + (m + y))[|f|] == m[0]
    ensures (f + (m + y))[|f| + 1..] == y
  {
    SpanOfConcat(f, m + y, k);
    assert (m + y)[0] == m[0];
    assert (m + y)[1..] == y;
  }

  lemma MatchClockRendered(day: string, word: string, hour: string, minute: string, rest: string)
    requires WellShaped(Groups(day, word, hour, minute))
    requires |rest| == 0 || !InClass(rest[0], DecimalDigit)
    ensures MatchClock(day, word, " " + (hour + (":" + (minute + rest)))) == Some(Groups(day, word, hour, minute))
  {
    var y := minute + rest;
    var x := hour + (":" + y);
    assert AllIn(" ", Space);
    RunThenMark(hour, ":", y, DecimalDigit);
    SpanOfConcat(" ", x, Space);
    assert (" " + x)[1..] == x;
    SpanOfConcat(minute, rest, DecimalDigit);
    assert y[..|minute|] == minute;
  }

  lemma MatchAfterDotRendered(day: string, word: string, w: string)
    requires IsDigits(day) && IsWordRun(word)
    ensures MatchAfterDot(day, " " + (word + (" " + ("u" + w)))) == MatchClock(day, word, w)
  {
    var v := " " + ("u" + w);
    var u := word + v;
    var t := " " + u;
    assert AllIn(" ", Space);
    SpanOfConcat(" ", u, Space);
    assert t[1..] == u;
    SpanOfConcat(word, v, Word);
    assert u[|word|..] == v && u[..|word|] == word;
    SpanOfConcat(" ", "u" + w, Space);
    assert v[1] == 'u' && v[2..] == w;
  }

  lemma MatchAtRendered(day: string, t: string)
    requires IsDigits(day)
    ensures MatchAt(day + ("." + t)) == MatchAfterDot(day, t)
  {
    var s := day + ("." + t);
    SpanOfConcat(day, "." + t, DecimalDigit);
    assert s[|day|] == '.' && s[|day| + 1..] == t && s[..|day|] == day;
  }

  /** The pattern recovers its groups from any text it was written with, as
      long as nothing after the minutes continues them. */
  lemma MatchRendered(day: string, word: string, hour: string, minute: string, rest: string)
    requires WellShaped(Groups(day, word, hour, minute))
    requires |rest| == 0 || !InClass(rest[0], DecimalDigit)
    ensures MatchAt(day + ". " + word + " u " + hour + ":" + minute + rest) ==
      Some(Groups(day, word, hour, minute))
  {
    var w := " " + (hour + (":" + (minute + rest)));
    var t := " " + (word + (" " + ("u" + w)));
    assert day + ". " + word + " u " + hour + ":" + minute + rest == day + ("." + t);
    MatchAtRendered(day, t);
    MatchAfterDotRendered(day, word, w);
    MatchClockRendered(day, word, hour, minute, rest);
  }

  /** `parseInt` of a run of decimal digits is the number they denote, so
      the parser may read its groups with `ValueOf`. */
  lemma ParseIntOfDigits(z: string)
    requires IsDigits(z)
    ensures ParseInt(z) == Some(ValueOf(z, 10))
  {
    assert !IsSpace(z[0]);
    assert Span(z, Space) == 0;
    assert z[0..] == z;
    assert Span(z, DecimalDigit) == |z|;
    assert z[..|z|] == z;
  }

  // ---------------------------------------------------------------------
  // The month table

  /** The parser's own month table, lower-case name to `getMonth()` number. */
  const MonthTable: seq<(string, Month)> :=
    [("januar", 0), ("februar", 1), ("mart", 2), ("april", 3),
     ("maj", 4), ("jun", 5), ("jul", 6), ("avgust", 7),
     ("septembar", 8), ("oktobar", 9), ("novembar", 10), ("decembar", 11)]

  function Lookup(table: seq<(string, Month)>, w: string): (r: Option<Month>)
    ensures r.Some? ==> (w, r.value) in table
    ensures r.None? ==> forall i :: 0 <= i < |table| ==> table[i].0 != w
  {
    if |table| == 0 then None
    else if table[0].0 == w then Some(table[0].1)
    else Lookup(table[1..], w)
  }

  /** `months[monthName]`; None for a word that is no month name. A word
      such as "constructor" finds an inherited property of the object
      instead, which makes an invalid date whose `toISOString` throws, and
      the parser returns null all the same. */
  function MonthNumber(w: string): (r: Option<Month>)
    ensures r.Some? ==> (w, r.value) in MonthTable
    ensures r.None? ==> forall i :: 0 <= i < |MonthTable| ==> MonthTable[i].0 != w
  {
    Lookup(MonthTable, w)
  }

  // ---------------------------------------------------------------------
  // parseDateTimeToISO

  /** The fields `new Date(year, month, day, hour, minute, 0)` is built
      from. */
  datatype Moment = Moment(year: int, month: Month, day: int, hour: int, minute: int)

  /** Minutes since the start of day 0, counting out-of-range fields
      onward as `Date` does. */
  function Minutes(m: Moment): int
  {
    DayNumber(Date(m.year, m.month, m.day)) * 1440 + m.hour * 60 + m.minute
  }

  /** 1 January 1970 as a day number: the origin of `Date`'s time values. */
  const UnixEpochDay: int := 719162

  /** The farthest a `Date` reaches from 1 January 1970 either way:
      8.64e15 milliseconds, 100,000,000 days, counted in minutes. */
  const MaxTimeMinutes: int := 144_000_000_000

  lemma UnixEpochDayNumber()
    ensures DayNumber(Date(1970, 0, 1)) == UnixEpochDay
  {
  }

  /** `new Date` of these fields is a valid date rather than an Invalid
      Date: its time value lies within the TimeClip bound of ECMA-262,
      8.64e15 milliseconds either side of the epoch. */
  predicate InDateRange(m: Moment)
  {
    -MaxTimeMinutes <= Minutes(m) - UnixEpochDay * 1440 <= MaxTimeMinutes
  }

  /** The year a label without a year is read in: this year, unless its
      day is already behind today in this year's calendar. */
  function InferYear(today: CalendarDate, month: Month, day: int): int
  {
    if month < today.month || (month == today.month && day < today.day) then today.year + 1
    else today.year
  }

  /** The inferred date is the next occurrence of the day and month: not
      before today, and a year earlier it would be. Stated for days that
      exist in every year. */
  lemma InferYearIsNextOccurrence(today: CalendarDate, month: Month, day: int)
    requires 1 <= day && (if month == 1 then day <= 28 else day <= DaysInMonth(today.year, month))
    ensures var y := InferYear(today, month, day);
      && (y == today.year || y == today.year + 1)
      && DayNumber(today) <= DayNumber(Date(y, month, day))
      && DayNumber(Date(y - 1, month, day)) < DayNumber(today)
  {
    var y := InferYear(today, month, day);
    assert month != 1 ==> DaysInMonth(y, month) == DaysInMonth(y - 1, month) == DaysInMonth(today.year, month);
    var d: CalendarDate := Date(y, month, day);
    var e: CalendarDate := Date(y - 1, month, day);
    if y == today.year {
      assert !Precedes(d, today);
      if d != today {
        PrecedesBefore(today, d);
      }
      PrecedesBefore(e, today);
    } else {
      assert e.year == today.year && Precedes(e, today);
      PrecedesBefore(e, today);
      PrecedesBefore(today, d);
    }
  }

  /** The moment the groups of a match denote, or None when the month word
      is not a key of the table or the fields lie beyond the range of
      `Date`: there `new Date` gives an Invalid Date, whose `toISOString`
      throws inside the `try`. */
  function ReadMoment(g: Groups, today: CalendarDate): (r: Option<Moment>)
    requires WellShaped(g)
    ensures r.Some? ==>
      && ParseInt(g.day) == Some(r.value.day)
      && ParseInt(g.hour) == Some(r.value.hour)
      && ParseInt(g.minute) == Some(r.value.minute)
      && (ToLower(g.monthWord), r.value.month) in MonthTable
      && r.value.year == InferYear(today, r.value.month, r.value.day)
      && InDateRange(r.value)
    ensures (forall i :: 0 <= i < |MonthTable| ==> MonthTable[i].0 != ToLower(g.monthWord)) ==> r.None?
    ensures MonthNumber(ToLower(g.monthWord)).Some? ==>
      var month := MonthNumber(ToLower(g.monthWord)).value;
      var day := ValueOf(g.day, 10);
      (r.Some? <==> InDateRange(Moment(InferYear(today, month, day), month, day, ValueOf(g.hour, 10), ValueOf(g.minute, 10))))
  {
    ParseIntOfDigits(g.day);
    ParseIntOfDigits(g.hour);
    ParseIntOfDigits(g.minute);
    var day := ValueOf(g.day, 10);
    match MonthNumber(ToLower(g.monthWord))
    case None => None
    case Some(month) =>
      var m := Moment(InferYear(today, month, day), month, day, ValueOf(g.hour, 10), ValueOf(g.minute, 10));
      if InDateRange(m) then Some(m) else None
  }

  /** `parseDateTimeToISO(s)`, null as None: the leftmost match of the
      pattern, its groups read with `parseInt`, the month word lower-cased
      and looked up, the year inferred from today, and null for fields
      beyond the range of `Date`. */
  function ParseDateTime(s: string, today: CalendarDate): (r: Option<Moment>)
    ensures Search(s).None? ==> r.None?
    ensures r.Some? ==>
      var g := Search(s).value;
      && ParseInt(g.day) == Some(r.value.day)
      && ParseInt(g.hour) == Some(r.value.hour)
      && ParseInt(g.minute) == Some(r.value.minute)
      && (ToLower(g.monthWord), r.value.month) in MonthTable
      && r.value.year == InferYear(today, r.value.month, r.value.day)
      && InDateRange(r.value)
    ensures Search(s).Some? && (forall i :: 0 <= i < |MonthTable| ==> MonthTable[i].0 != ToLower(Search(s).value.monthWord)) ==>
      r.None?
    ensures Search(s).Some? && MonthNumber(ToLower(Search(s).value.monthWord)).Some? ==>
      var g := Search(s).value;
      var month := MonthNumber(ToLower(g.monthWord)).value;
      var day := ValueOf(g.day, 10);
      (r.Some? <==> InDateRange(Moment(InferYear(today, month, day), month, day, ValueOf(g.hour, 10), ValueOf(g.minute, 10))))
  {
    match Search(s)
    case None => None
    case Some(g) => ReadMoment(g, today)
  }

  // ---------------------------------------------------------------------
  // createCalendarEvent

  /** What the confirm handler passes in. */
  datatype BookingRequest = BookingRequest(
    contactId: string,
    clientEmail: Option<string>,
    clientName: Option<string>,
    dateTimeString: string)

  datatype Reminder = Reminder(channel: string, minutesBefore: int)

  /** The event resource sent to the Calendar API. */
  datatype EventDraft = EventDraft(
    summary: string,
    description: string,
    start: Moment,
    end: Moment,
    timeZone: string,
    attendees: seq<Option<string>>,
    reminders: seq<Reminder>)

  /** What the API answers on success: `data.id` and `data.htmlLink`. */
  datatype InsertedEvent = InsertedEvent(id: string, htmlLink: string)

  datatype CalendarResult =
    | Booked(eventId: string, eventLink: string, start: Moment, end: Moment)
    | NotBooked(error: string)

  const TimeZone: string := "Europe/Belgrade"

  /** The message of the RangeError `toISOString` throws on an Invalid Date. */
  const InvalidTimeValue: string := "Invalid time value"

  /** The end time: one hour after the start, by `setHours(getHours() + 1)`. */
  function OneHourLater(m: Moment): (e: Moment)
    ensures Minutes(e) == Minutes(m) + 60
    ensures e.year == m.year && e.month == m.month && e.day == m.day
  {
    m.(hour := m.hour + 1)
  }

  function EventFor(req: BookingRequest, start: Moment, adminEmail: Option<string>): (e: EventDraft)
    ensures Minutes(e.end) == Minutes(e.start) + 60
    ensures e.attendees == [req.clientEmail, adminEmail]
  {
    EventDraft(
      "Sastanak sa " + Interpolate(req.clientName) + " - Q-Total",
      "Zakazan sastanak sa klijentom " + Interpolate(req.clientName)
        + "\nEmail: " + Interpolate(req.clientEmail) + "\nContact ID: " + req.contactId,
      start,
      OneHourLater(start),
      TimeZone,
      [req.clientEmail, adminEmail],
      [Reminder("email", 24 * 60), Reminder("popup", 30)])
  }

  /** `createCalendarEvent`: never throws. A credential failure, a label
      that does not parse, an end time beyond the range of `Date` and an API
      error each become NotBooked with the error's message; only a
      successful insert books, for the hour from the parsed start. */
  function CreateCalendarEvent(
    req: BookingRequest,
    today: CalendarDate,
    adminEmail: Option<string>,
    auth: Result<(), string>,
    insert: EventDraft -> Result<InsertedEvent, string>): (r: CalendarResult)
    ensures auth.Failure? ==> r == NotBooked(auth.error)
    ensures auth.Success? && ParseDateTime(req.dateTimeString, today).None? ==>
      r == NotBooked("Could not parse datetime: " + req.dateTimeString)
    ensures
      && auth.Success?
      && ParseDateTime(req.dateTimeString, today).Some?
      && !InDateRange(OneHourLater(ParseDateTime(req.dateTimeString, today).value))
      ==> r == NotBooked(InvalidTimeValue)
    ensures r.Booked? <==>
      && auth.Success?
      && ParseDateTime(req.dateTimeString, today).Some?
      && InDateRange(OneHourLater(ParseDateTime(req.dateTimeString, today).value))
      && insert(EventFor(req, ParseDateTime(req.dateTimeString, today).value, adminEmail)).Success?
    ensures r.Booked? ==>
      && r.start == ParseDateTime(req.dateTimeString, today).value
      && Minutes(r.end) == Minutes(r.start) + 60
      && r.eventId == insert(EventFor(req, r.start, adminEmail)).value.id
  {
    if auth.Failure? then NotBooked(auth.error)
    else
      match ParseDateTime(req.dateTimeString, today)
      case None => NotBooked("Could not parse datetime: " + req.dateTimeString)
      case Some(start) =>
        var event := EventFor(req, start, adminEmail);
        if !InDateRange(event.end) then NotBooked(InvalidTimeValue)
        else
          match insert(event)
          case Failure(e) => NotBooked(e)
          case Success(created) => Booked(created.id, created.htmlLink, event.start, event.end)
  }
}
