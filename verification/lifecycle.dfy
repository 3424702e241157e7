/** How the parts fit together over the life of an inquiry: the labels the
    slot generator writes are read back by the calendar's parser into the
    same day, month and clock time; the confirmation link at position i of
    the client's e-mail carries i to the confirm handler, which selects the
    very label the button showed. */
module Lifecycle {
  import opened Wrappers
  import opened JsText
  import opened Gregorian
  import opened CalendarService
  import opened MeetingSlots
  import opened EmailService
  import Server

  // ---------------------------------------------------------------------
  // The month table and the generator's month names

  /** A key first found at position i is looked up to the value stored
      there. */
  lemma {:induction false} LookupFinds(table: seq<(string, Month)>, i: nat)
    requires i < |table|
    requires forall j :: 0 <= j < i ==> table[j].0 != table[i].0
    ensures Lookup(table, table[i].0) == Some(table[i].1)
  {
    if i > 0 {
      assert table[1..][i - 1] == table[i];
      LookupFinds(table[1..], i - 1);
    }
  }

  /** The parser's table lists the generator's month names in `getMonth()`
      order. */
  lemma MonthTableListsMonthNames()
    ensures |MonthTable| == 12
    ensures forall i :: 0 <= i < 12 ==> MonthTable[i] == (MonthNames[i], i)
  {
  }

  /** No two months share a name. */
  lemma MonthNamesDistinct()
    ensures forall i, j :: 0 <= i < j < 12 ==> MonthNames[i] != MonthNames[j]
  {
    forall i, j | 0 <= i < j < 12
      ensures MonthNames[i] != MonthNames[j]
    {
      assert MonthNames[i][..2] != MonthNames[j][..2] || |MonthNames[i]| != |MonthNames[j]|
        || MonthNames[i][2] != MonthNames[j][2];
    }
  }

  /** The parser's month table inverts the generator's month names: a word
      is looked up to month m exactly when it is the name of m. */
  lemma MonthTableInvertsMonthName(w: string, m: Month)
    ensures MonthNumber(w) == Some(m) <==> w == MonthName(m)
  {
    MonthTableListsMonthNames();
    MonthNamesDistinct();
    LookupFinds(MonthTable, m);
    if MonthNumber(w) == Some(m) {
      var i :| 0 <= i < |MonthTable| && MonthTable[i] == (w, m);
    }
  }

  /** Month names are lower-case already, so the parser's `toLowerCase`
      leaves them alone; they are runs of `\w`. */
  lemma MonthNameIsLowerWord(m: Month)
    ensures ToLower(MonthName(m)) == MonthName(m)
    ensures IsWordRun(MonthName(m))
  {
    var w := MonthName(m);
    assert forall i :: 0 <= i < |w| ==> 'a' <= w[i] <= 'z';
    assert forall i :: 0 <= i < |w| ==> LowerChar(w[i]) == w[i];
  }

  // ---------------------------------------------------------------------
  // Reading a label back

  /** The hour and minute the k-th clock time is read back as. */
  function SlotHour(k: nat): int
    requires k < MaxSlots
  {
    [10, 14, 11][k]
  }

  /** Each clock time is two digits, a colon and two digits, read back as
      its hour and minute 0. */
  lemma TimeSlotShape(k: nat)
    requires k < MaxSlots
    ensures var t := TimeSlots[k];
      && |t| == 5 && t == t[..2] + ":" + t[3..]
      && IsDigits(t[..2]) && IsDigits(t[3..])
      && ValueOf(t[..2], 10) == SlotHour(k) && ValueOf(t[3..], 10) == 0
  {
    var t := TimeSlots[k];
    if k == 0 {
      assert t == "10:00" && t[..2] == "10" && t[3..] == "00";
      assert "10"[..1] == "1" && ValueOf("1", 10) == 1;
    } else if k == 1 {
      assert t == "14:00" && t[..2] == "14" && t[3..] == "00";
      assert "14"[..1] == "1" && ValueOf("1", 10) == 1;
    } else {
      assert t == "11:00" && t[..2] == "11" && t[3..] == "00";
      assert "11"[..1] == "1" && ValueOf("1", 10) == 1;
    }
  }

  predicate NoDigit(s: string)
  {
    forall i :: 0 <= i < |s| ==> !('0' <= s[i] <= '9')
  }

  lemma DayNamesHaveNoDigit(w: Weekday)
    ensures NoDigit(DayName(w) + ", ")
  {
    var p := DayName(w) + ", ";
    assert p == DayNames[w] + ", ";
  }

  /** The day-name prefix of a label holds no digit, so the parser's search
      cannot start inside it. */
  lemma NoMatchBeforeDigit(s: string, k: nat)
    requires k < |s| && !('0' <= s[k] <= '9')
    ensures MatchAt(s[k..]).None?
  {
    assert s[k..][0] == s[k];
    assert Span(s[k..], DecimalDigit) == 0;
  }

  /** A search over a text whose prefix holds no digit finds what the
      anchored match finds right after the prefix. */
  lemma SearchAfterPrefix(p: string, rest: string, g: Groups)
    requires NoDigit(p) && MatchAt(rest) == Some(g)
    ensures Search(p + rest) == Some(g)
  {
    var s := p + rest;
    forall j | 0 <= j < |p|
      ensures MatchAt(s[j..]).None?
    {
      assert s[j] == p[j];
      NoMatchBeforeDigit(s, j);
    }
    assert s[|p|..] == rest;
    SearchFindsFirst(s, |p|);
  }

  /** The parser's search finds the label's groups, starting at its day of
      the month. */
  lemma LabelSearch(d: CalendarDate, k: nat)
    requires k < MaxSlots
    ensures var t := TimeSlots[k];
      Search(Label(d, t)) == Some(Groups(NatToString(d.day), MonthName(d.month), t[..2], t[3..]))
  {
    var t := TimeSlots[k];
    var p := DayName(DayOfWeek(d)) + ", ";
    var day := NatToString(d.day);
    var word := MonthName(d.month);
    TimeSlotShape(k);
    MonthNameIsLowerWord(d.month);
    var rest := day + ". " + word + " u " + t[..2] + ":" + t[3..] + "";
    assert Label(d, t) == p + rest by {
      assert t[..2] + ":" + t[3..] + "" == t;
    }
    MatchRendered(day, word, t[..2], t[3..], "");
    DayNamesHaveNoDigit(DayOfWeek(d));
    SearchAfterPrefix(p, rest, Groups(day, word, t[..2], t[3..]));
  }

  /** Reading a label back: for any day, the parser recovers its day of the
      month, its month and the clock time of the slot, and reads it in the
      year of its next occurrence; that moment is the result whenever
      `Date` can hold it. */
  lemma LabelRoundTrip(d: CalendarDate, k: nat, today: CalendarDate)
    requires k < MaxSlots
    ensures var m := Moment(InferYear(today, d.month, d.day), d.month, d.day, SlotHour(k), 0);
      ParseDateTime(Label(d, TimeSlots[k]), today) == if InDateRange(m) then Some(m) else None
  {
    var t := TimeSlots[k];
    LabelSearch(d, k);
    TimeSlotShape(k);
    MonthNameIsLowerWord(d.month);
    ValueOfNatToString(d.day);
    MonthTableInvertsMonthName(MonthName(d.month), d.month);
  }

  /** A label read on a day more than two years inside the range of `Date`
      names a moment `Date` can hold, so the range check never turns a
      generated label into null. */
  lemma LabelMomentInDateRange(d: CalendarDate, k: nat, today: CalendarDate)
    requires k < MaxSlots
    requires UnixEpochDay - 100_000_000 + 366 <= DayNumber(today) <= UnixEpochDay + 100_000_000 - 732
    ensures InDateRange(Moment(InferYear(today, d.month, d.day), d.month, d.day, SlotHour(k), 0))
  {
    var y := InferYear(today, d.month, d.day);
    var n := DayNumber(Date(y, d.month, d.day));
    InferredDayNearToday(today, d);
    assert 0 <= SlotHour(k) <= 14;
    assert Minutes(Moment(y, d.month, d.day, SlotHour(k), 0)) == n * 1440 + SlotHour(k) * 60;
  }

  /** A day of the month read in today's year or the next lies no more
      than a year before today and two years after it. */
  lemma InferredDayNearToday(today: CalendarDate, d: CalendarDate)
    ensures var n := DayNumber(Date(InferYear(today, d.month, d.day), d.month, d.day));
      DayNumber(today) - 366 <= n <= DayNumber(today) + 732
  {
    var y := InferYear(today, d.month, d.day);
    YearLength(today.year);
    YearLength(today.year + 1);
    assert DaysBeforeYear(today.year) <= DayNumber(today) < DaysBeforeYear(today.year) + 366;
    assert DaysBeforeYear(y) <= DayNumber(Date(y, d.month, d.day)) <= DaysBeforeYear(y) + 365;
  }

  /** Every label the generator writes, as written or counted from today,
      reads back as the day and month of its slot at its clock time. */
  lemma GeneratedLabelsReadBack(ds: seq<CalendarDate>, i: nat, today: CalendarDate)
    requires i < |MeetingTimes(ds)|
    ensures var slot := PickSlots(ds)[i];
      var m := Moment(InferYear(today, slot.month, slot.day), slot.month, slot.day, SlotHour(i), 0);
      ParseDateTime(MeetingTimes(ds)[i], today) == if InDateRange(m) then Some(m) else None
  {
    var slot := PickSlots(ds)[i];
    assert MeetingTimes(ds)[i] == Label(slot, TimeSlots[i]);
    LabelRoundTrip(slot, i, today);
  }

  /** A day of next year at most two weeks ahead falls in January while
      today falls in December, so its month comes before today's. */
  lemma NextYearWithinFortnight(today: CalendarDate, d: CalendarDate)
    requires d.year == today.year + 1
    requires DayNumber(d) <= DayNumber(today) + 14
    ensures d.month < today.month
  {
    var y := today.year;
    WithinYear(today);
    WithinYear(d);
    var lastOfMonth: CalendarDate := Date(y, today.month, DaysInMonth(y, today.month));
    WithinYear(lastOfMonth);
    if today.month < 11 {
      MonthsApart(y, today.month, 11);
      var lastOfYear: CalendarDate := Date(y, 11, 31);
      WithinYear(lastOfYear);
    }
    if d.month > 0 {
      MonthsApart(y + 1, 0, d.month);
    }
    MonthStep(y, 11);
  }

  /** A day at most two weeks ahead is read in its own year: the parser's
      year rollover fires exactly when the day lies in the next year. */
  lemma InferYearWithinFortnight(today: CalendarDate, d: CalendarDate)
    requires DayNumber(today) <= DayNumber(d) <= DayNumber(today) + 14
    ensures InferYear(today, d.month, d.day) == d.year
  {
    var y := today.year;
    WithinYear(today);
    WithinYear(d);
    if d.year < y {
      YearsApart(d.year + 1, y);
    } else if d.year > y + 1 {
      YearsApart(y + 1, d.year);
    } else if d.year == y {
      DateOrder(d, today);
    } else {
      NextYearWithinFortnight(today, d);
    }
  }

  /** The same day and month a year after d, as `Date` counts it: from
      29 February it is 1 March. */
  function YearLater(d: CalendarDate): Date
  {
    Date(d.year + 1, d.month, d.day)
  }

  /** A year later is at least 365 days later. */
  lemma YearLaterIsAYear(d: CalendarDate)
    ensures DayNumber(YearLater(d)) >= DayNumber(d) + 365
  {
    YearLength(d.year);
  }

  /** A year later still falls before the year after next begins. */
  lemma YearLaterInNextYear(d: CalendarDate)
    ensures DaysBeforeYear(d.year + 1) <= DayNumber(YearLater(d)) < DaysBeforeYear(d.year + 2)
  {
    var y := d.year + 1;
    if d.month < 11 {
      MonthsApart(y, d.month, 11);
    }
    MonthStep(y, 11);
  }

  /** A day of the year after today's comes before the same date a year
      later exactly when its month and day come before today's. */
  lemma NextYearBeforeYearLater(today: CalendarDate, d: CalendarDate)
    requires d.year == today.year + 1
    ensures DayNumber(d) < DayNumber(YearLater(today)) <==>
      d.month < today.month || (d.month == today.month && d.day < today.day)
  {
    if d.month < today.month {
      MonthsApart(d.year, d.month, today.month);
    } else if d.month > today.month {
      MonthsApart(d.year, today.month, d.month);
    }
  }

  /** A day not behind today does not lie in an earlier year. */
  lemma YearNotBehind(today: CalendarDate, d: CalendarDate)
    requires DayNumber(today) <= DayNumber(d)
    ensures d.year >= today.year
  {
    if d.year < today.year {
      WithinYear(today);
      WithinYear(d);
      YearsApart(d.year + 1, today.year);
    }
  }

  /** A day of today's year that is not behind today is read in this year
      and comes before the same date a year later. */
  lemma SameYearInWindow(today: CalendarDate, d: CalendarDate)
    requires d.year == today.year && DayNumber(today) <= DayNumber(d)
    ensures InferYear(today, d.month, d.day) == d.year
    ensures DayNumber(d) < DayNumber(YearLater(today))
  {
    WithinYear(d);
    YearLaterInNextYear(today);
    DateOrder(d, today);
  }

  /** A day two or more years ahead is past the same date a year later. */
  lemma FarYearOutOfWindow(today: CalendarDate, d: CalendarDate)
    requires d.year >= today.year + 2
    ensures DayNumber(d) >= DayNumber(YearLater(today))
  {
    WithinYear(d);
    YearLaterInNextYear(today);
    YearsApart(today.year + 2, d.year);
  }

  /** The parser reads a day that is not behind today in its own year
      exactly when the day comes before the same date a year after today. */
  lemma InferYearWithinAYear(today: CalendarDate, d: CalendarDate)
    requires DayNumber(today) <= DayNumber(d)
    ensures InferYear(today, d.month, d.day) == d.year <==> DayNumber(d) < DayNumber(YearLater(today))
  {
    YearNotBehind(today, d);
    if d.year == today.year {
      SameYearInWindow(today, d);
    } else if d.year == today.year + 1 {
      NextYearBeforeYearLater(today, d);
    } else {
      FarYearOutOfWindow(today, d);
    }
  }

  /** Counted from today, every slot lies less than a year after any day
      from today up to the slot's own day, so a confirmation on any such
      day reads the slot in its own year. */
  lemma IntendedSlotsInWindow(today: CalendarDate, confirmDay: CalendarDate, i: nat)
    requires i < |PickSlots(IntendedExamined(today))|
    requires DayNumber(today) <= DayNumber(confirmDay) <= DayNumber(PickSlots(IntendedExamined(today))[i])
    ensures var slot := PickSlots(IntendedExamined(today))[i];
      && DayNumber(slot) < DayNumber(YearLater(confirmDay))
      && InferYear(confirmDay, slot.month, slot.day) == slot.year
  {
    var slot := PickSlots(IntendedExamined(today))[i];
    IntendedWithinTwoWeeks(today);
    YearLaterIsAYear(confirmDay);
    InferYearWithinAYear(confirmDay, slot);
  }

  /** As written, every slot lies at most 256 days after today, so it also
      lies less than a year after any day from today up to the slot's own
      day, and a confirmation on such a day reads it in its own year. */
  lemma AsWrittenSlotsInWindow(today: CalendarDate, confirmDay: CalendarDate, i: nat)
    requires i < |PickSlots(AsWrittenExamined(today))|
    requires DayNumber(today) <= DayNumber(confirmDay) <= DayNumber(PickSlots(AsWrittenExamined(today))[i])
    ensures var slot := PickSlots(AsWrittenExamined(today))[i];
      && DayNumber(slot) < DayNumber(YearLater(confirmDay))
      && InferYear(confirmDay, slot.month, slot.day) == slot.year
  {
    var slot := PickSlots(AsWrittenExamined(today))[i];
    AsWrittenSlotsWithin256Days(today, i);
    YearLaterIsAYear(confirmDay);
    InferYearWithinAYear(confirmDay, slot);
  }

  /** Counted from today, every label reads back as its slot's full date:
      year, month and day, at its clock time. */
  lemma IntendedLabelsReadBack(today: CalendarDate, i: nat)
    requires i < MaxSlots
    ensures |IntendedMeetingTimes(today)| == MaxSlots
    ensures var slot := PickSlots(IntendedExamined(today))[i];
      var m := Moment(slot.year, slot.month, slot.day, SlotHour(i), 0);
      ParseDateTime(IntendedMeetingTimes(today)[i], today) == if InDateRange(m) then Some(m) else None
  {
    IntendedOffersThree(today);
    var ds := IntendedExamined(today);
    var slot := PickSlots(ds)[i];
    GeneratedLabelsReadBack(ds, i, today);
    IntendedWithinTwoWeeks(today);
    InferYearWithinFortnight(today, slot);
  }

  // ---------------------------------------------------------------------
  // From a button of the client e-mail to the confirm handler

  /** The query part of a URL is what follows its first '?'. */
  lemma QueryOfUrl(a: string, q: string)
    requires '?' !in a && '#' !in q
    ensures Server.QueryPart(a + ("?" + q)) == Some(q)
  {
    Server.FirstIndexAfter(a, "?" + q, '?');
    assert Server.FirstIndex("?" + q, '?') == Some(0);
    assert (a + ("?" + q))[|a| + 1..] == q;
  }

  /** Two pieces joined by '&' split back into the two. */
  lemma SplitTwo(x: string, y: string)
    requires '&' !in x && '&' !in y
    ensures Server.SplitOn(x + ("&" + y), '&') == [x, y]
  {
    var q := x + ("&" + y);
    Server.FirstIndexAfter(x, "&" + y, '&');
    assert Server.FirstIndex("&" + y, '&') == Some(0);
    assert q[|x| + 1..] == y && q[..|x|] == x;
  }

  /** A piece `key=value` whose key holds no '=' answers for that key. */
  lemma PairValue(k: string, v: string, rest: seq<string>, key: string)
    requires '=' !in k
    ensures Server.ParamValue([k + ("=" + v)] + rest, key) ==
      if k == key then Some(v) else Server.ParamValue(rest, key)
  {
    var p := k + ("=" + v);
    Server.FirstIndexAfter(k, "=" + v, '=');
    assert Server.FirstIndex("=" + v, '=') == Some(0);
    assert p[..|k|] == k && p[|k| + 1..] == v;
    assert ([p] + rest)[0] == p && ([p] + rest)[1..] == rest;
  }

  /** A URL whose query string is two pieces joined by '&'. */
  lemma QueryOfTwo(a: string, x: string, y: string)
    requires '?' !in a && '#' !in x && '#' !in y && '&' !in x && '&' !in y
    ensures Server.QueryPart(a + ("?" + (x + ("&" + y)))) == Some(x + ("&" + y))
    ensures Server.SplitOn(x + ("&" + y), '&') == [x, y]
  {
    assert '#' !in x + ("&" + y);
    QueryOfUrl(a, x + ("&" + y));
    SplitTwo(x, y);
  }

  /** A URL whose query string is two pairs `k1=v1&k2=v2` with distinct
      keys answers each key with its own value. */
  lemma QueryOfPairs(a: string, k1: string, v1: string, k2: string, v2: string)
    requires '?' !in a && '=' !in k1 && '=' !in k2 && k1 != k2
    requires '#' !in k1 + ("=" + v1) && '&' !in k1 + ("=" + v1)
    requires '#' !in k2 + ("=" + v2) && '&' !in k2 + ("=" + v2)
    ensures Server.QueryValue(a + ("?" + ((k1 + ("=" + v1)) + ("&" + (k2 + ("=" + v2))))), k1) == Some(v1)
    ensures Server.QueryValue(a + ("?" + ((k1 + ("=" + v1)) + ("&" + (k2 + ("=" + v2))))), k2) == Some(v2)
  {
    var x := k1 + ("=" + v1);
    var y := k2 + ("=" + v2);
    QueryOfTwo(a, x, y);
    PairValue(k1, v1, [y], k1);
    PairValue(k1, v1, [y], k2);
    assert [y] == [y] + [];
    PairValue(k2, v2, [], k2);
  }

  lemma ConfirmUrlShape(base: string, id: string, i: nat)
    ensures ConfirmUrl(base, id, i) ==
      (base + "/api/confirm") + ("?" + (("id" + ("=" + id)) + ("&" + ("time" + ("=" + NatToString(i))))))
  {
  }

  /** The query string of confirmation link i carries the contact id and
      the number i, provided the base URL holds no '?' and the id no '&'
      or '#'. */
  lemma ConfirmUrlQuery(base: string, id: string, i: nat)
    requires '?' !in base && '&' !in id && '#' !in id
    ensures Server.QueryValue(ConfirmUrl(base, id, i), "id") == Some(id)
    ensures Server.QueryValue(ConfirmUrl(base, id, i), "time") == Some(NatToString(i))
  {
    var n := NatToString(i);
    assert '&' !in n && '#' !in n;
    assert '?' !in base + "/api/confirm";
    assert '#' !in "id" + ("=" + id) && '&' !in "id" + ("=" + id);
    assert '#' !in "time" + ("=" + n) && '&' !in "time" + ("=" + n);
    ConfirmUrlShape(base, id, i);
    QueryOfPairs(base + "/api/confirm", "id", id, "time", n);
  }

  /** Opening the button at position i of the client e-mail confirms the
      label that button shows: the handler reads back i and books that
      label for the record's client. */
  lemma ButtonSelectsItsSlot(store: Server.Store, base: string, id: string, i: nat, env: Server.ConfirmEnv)
    requires '?' !in base && '&' !in id && '#' !in id && id != ""
    requires id in store && !Truthy(store[id].confirmedMeetingTime)
    requires i < |store[id].proposedMeetingTimes| && store[id].proposedMeetingTimes[i] != ""
    requires env.lookupFault.None?
    ensures var b := ConfirmButtons(base, id, store[id].proposedMeetingTimes)[i];
      && b.slot == store[id].proposedMeetingTimes[i]
      && Server.HandleConfirm(store, Server.QueryValue(b.href, "id"), Server.QueryValue(b.href, "time"), env) ==
        Server.AfterBooking(store, id, store[id], b.slot, Server.BookingFor(id, store[id], b.slot, env), env.saveFault)
  {
    var b := ConfirmButtons(base, id, store[id].proposedMeetingTimes)[i];
    ConfirmUrlQuery(base, id, i);
    ParseIntOfNatToString(i);
    Server.SlotSelection(store, id, NatToString(i), env);
  }

  /** A label is never empty, so a selected slot always passes the
      handler's truthiness check. */
  lemma LabelsNonEmpty(ds: seq<CalendarDate>)
    ensures forall i :: 0 <= i < |MeetingTimes(ds)| ==> MeetingTimes(ds)[i] != ""
  {
    forall i | 0 <= i < |MeetingTimes(ds)|
      ensures MeetingTimes(ds)[i] != ""
    {
      var slot := PickSlots(ds)[i];
      assert MeetingTimes(ds)[i] == Label(slot, TimeSlots[i]);
      assert |Label(slot, TimeSlots[i])| > 0;
    }
  }

  /** The client e-mail of a created inquiry has one button per time the
      record stores, which are the three times `generateMeetingTimes`
      produced, none of them empty, and the record is not yet confirmed. */
  lemma CreatedMailButtons(store: Server.Store, body: Records.Inquiry, env: Server.ContactEnv)
    requires Server.Creates(store, env)
    ensures var out := Server.HandleContact(store, body, env);
      && env.newId in out.store
      && out.store[env.newId].proposedMeetingTimes == GenerateMeetingTimes(env.today)
      && |GenerateMeetingTimes(env.today)| == MaxSlots
      && (forall i :: 0 <= i < |GenerateMeetingTimes(env.today)| ==> GenerateMeetingTimes(env.today)[i] != "")
      && !Truthy(out.store[env.newId].confirmedMeetingTime)
      && Server.ClientMailOf(body, env, Server.AiFor(body, env)).content.buttons ==
           ConfirmButtons(BaseUrl(env.baseUrl), env.newId, GenerateMeetingTimes(env.today))
  {
    Server.CreatedRecord(store, body, env);
    LabelsNonEmpty(AsWrittenExamined(env.today));
  }

  /** Every button of the client e-mail opens the confirm route on the
      server named by BASE_URL, or on http://localhost:5000 when BASE_URL
      is unset or empty, with the inquiry's id and the button's position
      as its query. */
  lemma ButtonLinksTarget(body: Records.Inquiry, env: Server.ContactEnv)
    requires var base := if Truthy(env.baseUrl) then env.baseUrl.value else DefaultBaseUrl;
      '?' !in base && '&' !in env.newId && '#' !in env.newId
    ensures var base := if Truthy(env.baseUrl) then env.baseUrl.value else DefaultBaseUrl;
      var buttons := Server.ClientMailOf(body, env, Server.AiFor(body, env)).content.buttons;
      forall i :: 0 <= i < |buttons| ==> ConfirmLink(base, env.newId, i, buttons[i].href)
  {
    var base := BaseUrl(env.baseUrl);
    var ai := Server.AiFor(body, env);
    var buttons := Server.ClientMailOf(body, env, ai).content.buttons;
    assert buttons == ConfirmButtons(base, env.newId, ai.proposedTimes);
    forall i | 0 <= i < |buttons|
      ensures ConfirmLink(base, env.newId, i, buttons[i].href)
    {
      ConfirmLinkOf(base, env.newId, i);
    }
  }

  /** Link `href` opens the confirm route on `base` for id and slot i. */
  predicate ConfirmLink(base: string, id: string, i: nat, href: string)
  {
    && |base| + 12 < |href|
    && href[..|base| + 12] == base + "/api/confirm"
    && href[|base| + 12] == '?'
    && Server.QueryValue(href, "id") == Some(id)
    && Server.QueryValue(href, "time") == Some(NatToString(i))
  }

  lemma ConfirmLinkOf(base: string, id: string, i: nat)
    requires '?' !in base && '&' !in id && '#' !in id
    ensures ConfirmLink(base, id, i, ConfirmUrl(base, id, i))
  {
    var u := ConfirmUrl(base, id, i);
    ConfirmUrlShape(base, id, i);
    ConfirmUrlQuery(base, id, i);
    assert u == (base + "/api/confirm") + ("?" + (("id" + ("=" + id)) + ("&" + ("time" + ("=" + NatToString(i))))));
  }

  /** The whole life of an inquiry: once it is created, the i-th button of
      the client's e-mail, opened on any day from the creation day up to the
      slot's own day, books exactly the slot it shows, on its date and at
      its clock time, and a successful booking stores that label as the
      confirmed meeting time. */
  lemma ButtonBooksShownSlot(store: Server.Store, body: Records.Inquiry, env: Server.ContactEnv, i: nat,
    cenv: Server.ConfirmEnv, b: ConfirmButton)
    requires Server.HandleContact(store, body, env).reply.Created?
    requires '?' !in BaseUrl(env.baseUrl) && '&' !in env.newId && '#' !in env.newId && env.newId != ""
    requires i < |GenerateMeetingTimes(env.today)| && cenv.lookupFault.None?
    requires b == ConfirmButtons(BaseUrl(env.baseUrl), env.newId, GenerateMeetingTimes(env.today))[i]
    requires var slot := PickSlots(AsWrittenExamined(env.today))[i];
      DayNumber(env.today) <= DayNumber(cenv.today) <= DayNumber(slot)
    ensures b in Server.ClientMailOf(body, env, Server.AiFor(body, env)).content.buttons
    ensures b.slot == GenerateMeetingTimes(env.today)[i]
    ensures var confirm := Server.HandleConfirm(Server.HandleContact(store, body, env).store,
        Server.QueryValue(b.href, "id"), Server.QueryValue(b.href, "time"), cenv);
      var slot := PickSlots(AsWrittenExamined(env.today))[i];
      && confirm.booking.Some?
      && (confirm.booking.value.Booked? ==>
            confirm.booking.value.start == Moment(slot.year, slot.month, slot.day, SlotHour(i), 0))
      && (confirm.reply.Scheduled? ==>
            env.newId in confirm.store && confirm.store[env.newId].confirmedMeetingTime == Some(b.slot))
  {
    var out := Server.HandleContact(store, body, env);
    CreatedMailButtons(store, body, env);
    var id := env.newId;
    var ds := AsWrittenExamined(env.today);
    var slot := PickSlots(ds)[i];
    ButtonSelectsItsSlot(out.store, BaseUrl(env.baseUrl), id, i, cenv);
    GeneratedLabelsReadBack(ds, i, cenv.today);
    AsWrittenSlotsInWindow(env.today, cenv.today, i);
  }
}
