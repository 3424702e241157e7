/** The meeting-slot generator of the AI service: starting today, walk day by
    day, skip Saturdays and Sundays, and label up to three days in Serbian as
    "<day name>, <day of month>. <month name> u <HH:MM>", the k-th label
    carrying the k-th clock time of a fixed list.

    The loop as written moves its date with `setDate(today + k)` on the date
    it already moved, so once a month end is crossed each step counts from
    the first day of the new month; `GenerateMeetingTimes` models exactly
    that, and it is what the AI service proposes. `IntendedMeetingTimes` is
    the generator with the date counted from today at every step, which is
    what the "next two weeks" design asks for: the corrected definition,
    proved to offer three workdays within two weeks. */
module MeetingSlots {
  import opened JsText
  import opened Gregorian

  const MaxSlots: nat := 3
  const DaysExamined: nat := 15

  /** Clock times of the first, second and third slot, in that order. */
  const TimeSlots: seq<string> := ["10:00", "14:00", "11:00"]

  /** Day names indexed by `getDay()`, Sunday first. */
  const DayNames: seq<string> :=
    ["Nedelja", "Ponedeljak", "Utorak", "Sreda", "Četvrtak", "Petak", "Subota"]

  /** Month names indexed by `getMonth()`. */
  const MonthNames: seq<string> :=
    ["januar", "februar", "mart", "april", "maj", "jun",
     "jul", "avgust", "septembar", "oktobar", "novembar", "decembar"]

  function DayName(w: Weekday): string
  {
    DayNames[w]
  }

  function MonthName(m: Month): string
  {
    MonthNames[m]
  }

  predicate IsWorkday(d: Date)
  {
    DayOfWeek(d) != 0 && DayOfWeek(d) != 6
  }

  /** The text offered to the client for a day and a clock time. */
  function Label(d: CalendarDate, time: string): string
  {
    DayName(DayOfWeek(d)) + ", " + NatToString(d.day) + ". " + MonthName(d.month) + " u " + time
  }

  /** The loop's date after its k-th `setDate`, as written: each call
      counts from the first day of the month the previous call reached. */
  function AsWrittenDate(today: CalendarDate, k: nat): CalendarDate
  {
    if k == 0 then SetDate(today, today.day)
    else SetDate(AsWrittenDate(today, k - 1), today.day + k)
  }

  /** The date k days after today: `setDate(today + k)` on a fresh copy of
      today. */
  function IntendedDate(today: CalendarDate, k: nat): (r: CalendarDate)
    ensures DayNumber(r) == DayNumber(today) + k
  {
    SetDateDayNumber(today, today.day + k);
    SetDate(today, today.day + k)
  }

  /** The days the loop looks at, offsets 0 to 14. */
  function AsWrittenExamined(today: CalendarDate): (ds: seq<CalendarDate>)
    ensures |ds| == DaysExamined
  {
    seq(DaysExamined, k requires 0 <= k => AsWrittenDate(today, k))
  }

  function IntendedExamined(today: CalendarDate): (ds: seq<CalendarDate>)
    ensures |ds| == DaysExamined
  {
    seq(DaysExamined, k requires 0 <= k => IntendedDate(today, k))
  }

  /** The days that receive a slot: the first workdays, at most three. */
  function PickSlots(ds: seq<CalendarDate>): (sel: seq<CalendarDate>)
    ensures |sel| <= MaxSlots
    ensures forall i :: 0 <= i < |sel| ==> IsWorkday(sel[i]) && sel[i] in ds
  {
    if |ds| == 0 then []
    else
      var sel := PickSlots(ds[..|ds| - 1]);
      var d := ds[|ds| - 1];
      if |sel| < MaxSlots && IsWorkday(d) then sel + [d] else sel
  }

  /** The k-th picked day labelled with the k-th clock time. */
  function MeetingTimes(ds: seq<CalendarDate>): seq<string>
  {
    var sel := PickSlots(ds);
    seq(|sel|, i requires 0 <= i < |sel| => Label(sel[i], TimeSlots[i]))
  }

  /** `generateMeetingTimes()` as written. */
  function GenerateMeetingTimes(today: CalendarDate): seq<string>
  {
    MeetingTimes(AsWrittenExamined(today))
  }

  /** `generateMeetingTimes()` with the date counted from today. */
  function IntendedMeetingTimes(today: CalendarDate): seq<string>
  {
    MeetingTimes(IntendedExamined(today))
  }

  function WorkdayCount(ds: seq<Date>): nat
  {
    if |ds| == 0 then 0
    else WorkdayCount(ds[..|ds| - 1]) + (if IsWorkday(ds[|ds| - 1]) then 1 else 0)
  }

  function Min(a: nat, b: nat): nat
  {
    if a <= b then a else b
  }

  ghost predicate Increasing(ds: seq<Date>)
  {
    forall i, j :: 0 <= i < j < |ds| ==> DayNumber(ds[i]) < DayNumber(ds[j])
  }

  // ---------------------------------------------------------------------
  // The loop, statement for statement

  /** One more examined day adds its label exactly when fewer than three
      slots exist and the day is a workday. */
  lemma MeetingTimesStep(ds: seq<CalendarDate>, k: nat)
    requires k < |ds|
    ensures
      var t := MeetingTimes(ds[..k]);
      MeetingTimes(ds[..k + 1]) ==
        if |t| < MaxSlots && IsWorkday(ds[k]) then t + [Label(ds[k], TimeSlots[|t|])] else t
  {
    assert ds[..k + 1][..k] == ds[..k];
  }

  /** Once three slots are picked, further days change nothing. */
  lemma {:induction false} PickSlotsSaturate(ds: seq<CalendarDate>, k: nat)
    requires k <= |ds| && |PickSlots(ds[..k])| == MaxSlots
    ensures PickSlots(ds) == PickSlots(ds[..k])
    decreases |ds| - k
  {
    if k < |ds| {
      assert ds[..k + 1][..k] == ds[..k];
      PickSlotsSaturate(ds, k + 1);
    } else {
      assert ds[..k] == ds;
    }
  }

  /** The loop's date at offset k, from its date at offset k - 1. */
  lemma AsWrittenNext(today: CalendarDate, current: CalendarDate, k: nat)
    requires k < DaysExamined
    requires current == if k == 0 then today else AsWrittenExamined(today)[k - 1]
    ensures SetDate(current, today.day + k) == AsWrittenExamined(today)[k]
  {
  }

  /** One turn of the loop: the date it moves to is the next examined day,
      and the label it may add extends the labels so far. */
  lemma LoopTurn(today: CalendarDate, current: CalendarDate, times: seq<string>, k: nat)
    requires k < DaysExamined
    requires current == if k == 0 then today else AsWrittenExamined(today)[k - 1]
    requires times == MeetingTimes(AsWrittenExamined(today)[..k])
    ensures var next := SetDate(current, today.day + k);
      var dow := DayOfWeek(next);
      MeetingTimes(AsWrittenExamined(today)[..k + 1]) ==
        if |times| < MaxSlots && dow != 0 && dow != 6 then times + [Label(next, TimeSlots[|times|])] else times
    ensures SetDate(current, today.day + k) == AsWrittenExamined(today)[k]
  {
    AsWrittenNext(today, current, k);
    MeetingTimesStep(AsWrittenExamined(today), k);
  }

  /** Where the loop stops: after all offsets, or with three labels. */
  lemma LoopExit(today: CalendarDate, times: seq<string>, k: nat)
    requires k <= DaysExamined
    requires times == MeetingTimes(AsWrittenExamined(today)[..k])
    requires |times| >= MaxSlots || k == DaysExamined
    ensures times == GenerateMeetingTimes(today)
    ensures k < DaysExamined ==> |times| == MaxSlots
  {
    var ds := AsWrittenExamined(today);
    if k < DaysExamined {
      PickSlotsSaturate(ds, k);
    } else {
      assert ds[..k] == ds;
    }
  }

  /** The JavaScript loop: at most 15 offsets, stopping early with three
      labels, computes `GenerateMeetingTimes`. */
  method GenerateMeetingTimesLoop(today: CalendarDate) returns (times: seq<string>, examined: nat)
    ensures times == GenerateMeetingTimes(today)
    ensures examined <= DaysExamined
    ensures examined < DaysExamined ==> |times| == MaxSlots
  {
    times := [];
    var daysAdded: nat := 0;
    var currentDate: CalendarDate := today;
    while |times| < MaxSlots && daysAdded < DaysExamined
      invariant daysAdded <= DaysExamined
      invariant times == MeetingTimes(AsWrittenExamined(today)[..daysAdded])
      invariant currentDate == if daysAdded == 0 then today else AsWrittenExamined(today)[daysAdded - 1]
    {
      LoopTurn(today, currentDate, times, daysAdded);
      currentDate := SetDate(currentDate, today.day + daysAdded);
      var dayOfWeek := DayOfWeek(currentDate);
      if dayOfWeek != 0 && dayOfWeek != 6 {
        times := times + [Label(currentDate, TimeSlots[|times|])];
      }
      daysAdded := daysAdded + 1;
    }
    LoopExit(today, times, daysAdded);
    examined := daysAdded;
  }

  // ---------------------------------------------------------------------
  // Properties of slot picking

  /** As many slots as there are workdays, but never more than three. */
  lemma {:induction false} PickSlotsCount(ds: seq<CalendarDate>)
    ensures |PickSlots(ds)| == Min(MaxSlots, WorkdayCount(ds))
  {
    if |ds| > 0 {
      PickSlotsCount(ds[..|ds| - 1]);
    }
  }

  /** Slots are emitted in order and never revised: the slots picked from a
      prefix of the days begin the slots picked from all of them. */
  lemma {:induction false} PickSlotsPrefix(ds: seq<CalendarDate>, k: nat)
    requires k <= |ds|
    ensures |PickSlots(ds[..k])| <= |PickSlots(ds)|
    ensures PickSlots(ds[..k]) == PickSlots(ds)[..|PickSlots(ds[..k])|]
    decreases |ds| - k
  {
    if k == |ds| {
      assert ds[..k] == ds;
    } else {
      PickSlotsPrefix(ds[..|ds| - 1], k);
      assert ds[..|ds| - 1][..k] == ds[..k];
    }
  }

  /** When the first examined day is a workday it receives the first slot. */
  lemma FirstWorkdayFirst(ds: seq<CalendarDate>)
    requires |ds| > 0 && IsWorkday(ds[0])
    ensures |PickSlots(ds)| > 0 && PickSlots(ds)[0] == ds[0]
  {
    PickSlotsPrefix(ds, 1);
    assert ds[..1][..0] == [];
    assert PickSlots(ds[..1]) == [ds[0]];
  }

  /** Slots keep the order of the days they are picked from. */
  lemma {:induction false} PickSlotsIncreasing(ds: seq<CalendarDate>)
    requires Increasing(ds)
    ensures Increasing(PickSlots(ds))
  {
    if |ds| > 0 {
      var init := ds[..|ds| - 1];
      assert Increasing(init);
      PickSlotsIncreasing(init);
      var sel := PickSlots(init);
      var last := ds[|ds| - 1];
      forall i | 0 <= i < |sel|
        ensures DayNumber(sel[i]) < DayNumber(last)
      {
        var j :| 0 <= j < |init| && init[j] == sel[i];
        assert ds[j] == sel[i];
      }
    }
  }

  // ---------------------------------------------------------------------
  // The generator as written

  /** The loop's date moves forward by at least one day at every step. */
  lemma AsWrittenStep(today: CalendarDate, k: nat)
    ensures AsWrittenDate(today, k).day <= today.day + k
    ensures DayNumber(AsWrittenDate(today, k + 1)) > DayNumber(AsWrittenDate(today, k))
  {
    if k == 0 {
      SetDateDayNumber(today, today.day);
    } else {
      AsWrittenStep(today, k - 1);
      SetDateDayNumber(AsWrittenDate(today, k - 1), today.day + k);
    }
    SetDateDayNumber(AsWrittenDate(today, k), today.day + k + 1);
  }

  /** Day numbers that grow at every step grow over any distance. */
  lemma {:induction false} StepsIncrease(n: nat -> int, i: nat, j: nat)
    requires forall k: nat :: n(k) < n(k + 1)
    requires i < j
    ensures n(i) < n(j)
    decreases j - i
  {
    if i < j - 1 {
      StepsIncrease(n, i, j - 1);
    }
  }

  lemma AsWrittenIncreasingFrom(today: CalendarDate, i: nat, j: nat)
    requires i < j
    ensures DayNumber(AsWrittenDate(today, i)) < DayNumber(AsWrittenDate(today, j))
  {
    var n := (k: nat) => DayNumber(AsWrittenDate(today, k));
    forall k: nat
      ensures n(k) < n(k + 1)
    {
      AsWrittenStep(today, k);
    }
    StepsIncrease(n, i, j);
  }

  /** The labels of the generator as written name strictly later days one
      after another, the first of them today when today is a workday. */
  lemma GeneratedSlotsIncrease(today: CalendarDate)
    ensures Increasing(PickSlots(AsWrittenExamined(today)))
    ensures IsWorkday(today) ==>
      |PickSlots(AsWrittenExamined(today))| > 0 && PickSlots(AsWrittenExamined(today))[0] == today
  {
    var ds := AsWrittenExamined(today);
    forall i, j | 0 <= i < j < |ds|
      ensures DayNumber(ds[i]) < DayNumber(ds[j])
    {
      AsWrittenIncreasingFrom(today, i, j);
    }
    PickSlotsIncreasing(ds);
    if IsWorkday(today) {
      assert ds[0] == today;
      FirstWorkdayFirst(ds);
    }
  }

  /** Away from a month end the quirk is invisible: while today plus 14
      stays inside today's month, the loop's dates are today plus k. */
  lemma {:induction false} AsWrittenAgreesInsideMonth(today: CalendarDate, k: nat)
    requires today.day + 14 <= DaysInMonth(today.year, today.month) && k < DaysExamined
    ensures AsWrittenDate(today, k) == IntendedDate(today, k)
    ensures AsWrittenDate(today, k) == Date(today.year, today.month, today.day + k)
  {
    if k > 0 {
      AsWrittenAgreesInsideMonth(today, k - 1);
    }
  }

  /** The dates the loop as written reaches from Thursday 30 January 2025:
      the third `setDate` lands on the first of February and the fourth,
      counting 33 days from that month's start, on 5 March. */
  lemma AsWrittenDatesFrom30January2025()
    ensures
      var today := Date(2025, 0, 30);
      && AsWrittenDate(today, 0) == today
      && AsWrittenDate(today, 1) == Date(2025, 0, 31)
      && AsWrittenDate(today, 2) == Date(2025, 1, 1)
      && AsWrittenDate(today, 3) == Date(2025, 2, 5)
  {
    var today: CalendarDate := Date(2025, 0, 30);
    assert SetDate(today, 30) == today;
    assert SetDate(Date(2025, 0, 30), 31) == Date(2025, 0, 31);
    assert Normalize(2025, 0, 32) == Normalize(2025, 1, 1) == Date(2025, 1, 1);
    assert Normalize(2025, 1, 33) == Normalize(2025, 2, 5) == Date(2025, 2, 5);
  }

  /** Workday, workday, weekend day, workday: the three workdays among the
      first four days take the three slots. */
  lemma PickSlotsSkippingThird(ds: seq<CalendarDate>)
    requires |ds| >= 4
    requires IsWorkday(ds[0]) && IsWorkday(ds[1]) && !IsWorkday(ds[2]) && IsWorkday(ds[3])
    ensures PickSlots(ds) == [ds[0], ds[1], ds[3]]
  {
    assert ds[..1][..0] == [] && ds[..1][0] == ds[0];
    assert PickSlots(ds[..1]) == [ds[0]];
    assert ds[..2][..1] == ds[..1] && ds[..2][1] == ds[1];
    assert PickSlots(ds[..2]) == [ds[0], ds[1]];
    assert ds[..3][..2] == ds[..2] && ds[..3][2] == ds[2];
    assert PickSlots(ds[..3]) == [ds[0], ds[1]];
    assert ds[..4][..3] == ds[..3] && ds[..4][3] == ds[3];
    assert PickSlots(ds[..4]) == [ds[0], ds[1], ds[3]];
    PickSlotsSaturate(ds, 4);
  }

  /** Thursday 30 January, Friday 31 January, Saturday 1 February and
      Wednesday 5 March 2025. */
  lemma Calendar2025Facts()
    ensures DayOfWeek(Date(2025, 0, 30)) == 4 && DayOfWeek(Date(2025, 0, 31)) == 5
    ensures DayOfWeek(Date(2025, 1, 1)) == 6 && DayOfWeek(Date(2025, 2, 5)) == 3
    ensures DayNumber(Date(2025, 2, 5)) - DayNumber(Date(2025, 0, 30)) == 34
  {
  }

  lemma LabelOf5March2025()
    ensures Label(Date(2025, 2, 5), "11:00") == "Sreda, 5. mart u 11:00"
  {
    Calendar2025Facts();
    assert NatToString(5) == "5";
  }

  /** Counterexample to the "next two weeks" design: on Thursday 30 January
      2025 the third label the loop as written produces is Wednesday
      5 March, 34 days later. */
  lemma AsWrittenLeavesTwoWeeks()
    ensures
      var today := Date(2025, 0, 30);
      var slots := PickSlots(AsWrittenExamined(today));
      && |slots| == 3
      && slots[2] == Date(2025, 2, 5)
      && DayNumber(slots[2]) - DayNumber(today) == 34
      && GenerateMeetingTimes(today)[2] == "Sreda, 5. mart u 11:00"
  {
    var today: CalendarDate := Date(2025, 0, 30);
    var ds := AsWrittenExamined(today);
    AsWrittenDatesFrom30January2025();
    Calendar2025Facts();
    LabelOf5March2025();
    assert ds[0] == today && ds[1] == Date(2025, 0, 31) && ds[2] == Date(2025, 1, 1);
    assert ds[3] == Date(2025, 2, 5);
    PickSlotsSkippingThird(ds);
  }

  // ---------------------------------------------------------------------
  // How far the generator as written moves

  /** The day of the month the loop as written holds after its k-th step:
      the day it set, or that day less the length of the month it crossed. */
  lemma AsWrittenDayOfMonth(today: CalendarDate, k: nat)
    requires k < DaysExamined
    ensures var day := AsWrittenDate(today, k).day;
      day == today.day + k || today.day + k - 31 <= day <= today.day + k - 28
  {
    if k == 0 {
      SetDateIntoNextMonth(today, today.day);
    } else {
      AsWrittenStep(today, k - 1);
      SetDateIntoNextMonth(AsWrittenDate(today, k - 1), today.day + k);
    }
  }

  /** One step of the loop as written moves its date by one day or, when
      the `setDate` crosses a month end, by that month's length plus one:
      29 to 32 days. */
  lemma AsWrittenGap(today: CalendarDate, k: nat)
    requires k + 1 < DaysExamined
    ensures var g := DayNumber(AsWrittenDate(today, k + 1)) - DayNumber(AsWrittenDate(today, k));
      g == 1 || 29 <= g <= 32
  {
    SetDateDayNumber(AsWrittenDate(today, k), today.day + k + 1);
    AsWrittenDayOfMonth(today, k);
  }

  /** A step of one day, or of 29 to 32 days, moves the weekday on by one
      to four, so a Saturday and a Sunday are never followed by a third
      weekend day. */
  lemma NoThreeWeekendDaysInARow(a: Date, b: Date, c: Date)
    requires var g := DayNumber(b) - DayNumber(a); g == 1 || 29 <= g <= 32
    requires var g := DayNumber(c) - DayNumber(b); g == 1 || 29 <= g <= 32
    ensures IsWorkday(a) || IsWorkday(b) || IsWorkday(c)
  {
    var g1 := DayNumber(b) - DayNumber(a);
    var g2 := DayNumber(c) - DayNumber(b);
    DayOfWeekShift(a, b, g1);
    DayOfWeekShift(b, c, g2);
    assert 1 <= g1 % 7 <= 4 && 1 <= g2 % 7 <= 4;
  }

  lemma WorkdayCountStep(ds: seq<Date>, k: nat)
    requires k < |ds|
    ensures WorkdayCount(ds[..k + 1]) == WorkdayCount(ds[..k]) + (if IsWorkday(ds[k]) then 1 else 0)
  {
    assert ds[..k + 1][..k] == ds[..k];
  }

  /** Three more days, one of them a workday, add at least one workday. */
  lemma TripleStep(ds: seq<Date>, p: nat)
    requires p + 3 <= |ds|
    requires IsWorkday(ds[p]) || IsWorkday(ds[p + 1]) || IsWorkday(ds[p + 2])
    ensures WorkdayCount(ds[..p + 3]) >= WorkdayCount(ds[..p]) + 1
  {
    WorkdayCountStep(ds, p);
    WorkdayCountStep(ds, p + 1);
    WorkdayCountStep(ds, p + 2);
  }

  /** Days among which every three in a row hold a workday hold at least
      j workdays in their first 3j. */
  lemma {:induction false} WorkdaysInTriples(ds: seq<Date>, j: nat)
    requires 3 * j <= |ds|
    requires forall k :: 0 <= k < |ds| - 2 ==> IsWorkday(ds[k]) || IsWorkday(ds[k + 1]) || IsWorkday(ds[k + 2])
    ensures WorkdayCount(ds[..3 * j]) >= j
  {
    if j > 0 {
      WorkdaysInTriples(ds, j - 1);
      TripleStep(ds, 3 * (j - 1));
    }
  }

  /** Among any three days in a row that the loop as written examines, one
      is a workday. */
  lemma AsWrittenTriples(today: CalendarDate)
    ensures var ds := AsWrittenExamined(today);
      forall k :: 0 <= k < |ds| - 2 ==> IsWorkday(ds[k]) || IsWorkday(ds[k + 1]) || IsWorkday(ds[k + 2])
  {
    var ds := AsWrittenExamined(today);
    forall k | 0 <= k < |ds| - 2
      ensures IsWorkday(ds[k]) || IsWorkday(ds[k + 1]) || IsWorkday(ds[k + 2])
    {
      AsWrittenGap(today, k);
      AsWrittenGap(today, k + 1);
      NoThreeWeekendDaysInARow(ds[k], ds[k + 1], ds[k + 2]);
    }
  }

  /** The generator as written always proposes three times, all of them
      found among the first nine days it examines: its quirk moves the date
      further than intended, but never past three weekend days in a row. */
  lemma AsWrittenOffersThree(today: CalendarDate)
    ensures WorkdayCount(AsWrittenExamined(today)[..9]) >= MaxSlots
    ensures |PickSlots(AsWrittenExamined(today))| == MaxSlots
    ensures |GenerateMeetingTimes(today)| == MaxSlots
  {
    var ds := AsWrittenExamined(today);
    AsWrittenTriples(today);
    WorkdaysInTriples(ds, 3);
    WorkdayCountGrows(ds, 9);
    PickSlotsCount(ds);
  }

  /** The k-th date of the loop as written lies at most 32k days ahead. */
  lemma {:induction false} AsWrittenReach(today: CalendarDate, k: nat)
    requires k < DaysExamined
    ensures DayNumber(AsWrittenDate(today, k)) <= DayNumber(today) + 32 * k
  {
    if k == 0 {
      SetDateIntoNextMonth(today, today.day);
    } else {
      AsWrittenReach(today, k - 1);
      AsWrittenGap(today, k - 1);
    }
  }

  /** Every slot of the generator as written lies between today and 256
      days ahead: never two weeks ahead as intended, but always within a
      year. */
  lemma AsWrittenSlotsWithin256Days(today: CalendarDate, i: nat)
    requires i < |PickSlots(AsWrittenExamined(today))|
    ensures var slot := PickSlots(AsWrittenExamined(today))[i];
      DayNumber(today) <= DayNumber(slot) <= DayNumber(today) + 256
  {
    var ds := AsWrittenExamined(today);
    AsWrittenOffersThree(today);
    PickSlotsPrefix(ds, 9);
    PickSlotsCount(ds[..9]);
    var sel := PickSlots(ds[..9]);
    assert sel == PickSlots(ds);
    var k :| 0 <= k < 9 && ds[..9][k] == sel[i];
    AsWrittenReach(today, k);
    if k > 0 {
      AsWrittenIncreasingFrom(today, 0, k);
    }
    SetDateIntoNextMonth(today, today.day);
  }

  // ---------------------------------------------------------------------
  // The generator with the date counted from today

  lemma {:induction false} WorkdayCountGrows(ds: seq<Date>, k: nat)
    requires k <= |ds|
    ensures WorkdayCount(ds[..k]) <= WorkdayCount(ds)
    decreases |ds| - k
  {
    if k < |ds| {
      assert ds[..|ds| - 1][..k] == ds[..k];
      WorkdayCountGrows(ds[..|ds| - 1], k);
    } else {
      assert ds[..k] == ds;
    }
  }

  /** Five weekdays in a row, starting anywhere in the week, include at
      least three of Monday to Friday. */
  lemma FiveWeekdaysInARow(w: int)
    requires 0 <= w < 7
    ensures
      var n := (if (w + 0) % 7 != 0 && (w + 0) % 7 != 6 then 1 else 0)
        + (if (w + 1) % 7 != 0 && (w + 1) % 7 != 6 then 1 else 0)
        + (if (w + 2) % 7 != 0 && (w + 2) % 7 != 6 then 1 else 0)
        + (if (w + 3) % 7 != 0 && (w + 3) % 7 != 6 then 1 else 0)
        + (if (w + 4) % 7 != 0 && (w + 4) % 7 != 6 then 1 else 0);
      n >= 3
  {
  }

  /** The workdays among the first five days, one by one. */
  lemma WorkdayCountOfFive(ds: seq<Date>)
    requires |ds| >= 5
    ensures WorkdayCount(ds[..5]) ==
      (if IsWorkday(ds[0]) then 1 else 0) + (if IsWorkday(ds[1]) then 1 else 0)
      + (if IsWorkday(ds[2]) then 1 else 0) + (if IsWorkday(ds[3]) then 1 else 0)
      + (if IsWorkday(ds[4]) then 1 else 0)
  {
    assert ds[..5][..4] == ds[..4] && ds[..5][4] == ds[4];
    assert ds[..4][..3] == ds[..3] && ds[..4][3] == ds[3];
    assert ds[..3][..2] == ds[..2] && ds[..3][2] == ds[2];
    assert ds[..2][..1] == ds[..1] && ds[..2][1] == ds[1];
    assert ds[..1][..0] == [] && ds[..1][0] == ds[0];
    assert WorkdayCount(ds[..1]) == (if IsWorkday(ds[0]) then 1 else 0);
    assert WorkdayCount(ds[..2]) == WorkdayCount(ds[..1]) + (if IsWorkday(ds[1]) then 1 else 0);
    assert WorkdayCount(ds[..3]) == WorkdayCount(ds[..2]) + (if IsWorkday(ds[2]) then 1 else 0);
    assert WorkdayCount(ds[..4]) == WorkdayCount(ds[..3]) + (if IsWorkday(ds[3]) then 1 else 0);
  }

  /** Any five consecutive days hold at least three workdays. */
  lemma FiveConsecutiveDays(ds: seq<Date>, w: int)
    requires |ds| >= 5 && 0 <= w < 7
    requires forall k :: 0 <= k < 5 ==> DayOfWeek(ds[k]) == (w + k) % 7
    ensures WorkdayCount(ds[..5]) >= 3
  {
    WorkdayCountOfFive(ds);
    FiveWeekdaysInARow(w);
  }

  lemma FiveDaysHoldThreeWorkdays(today: CalendarDate)
    ensures WorkdayCount(IntendedExamined(today)[..5]) >= 3
  {
    var ds := IntendedExamined(today);
    forall k | 0 <= k < 5
      ensures DayOfWeek(ds[k]) == (DayOfWeek(today) + k) % 7
    {
      DayOfWeekShift(today, ds[k], k);
    }
    FiveConsecutiveDays(ds, DayOfWeek(today));
  }

  /** Counted from today, the generator always offers three slots. */
  lemma IntendedOffersThree(today: CalendarDate)
    ensures |IntendedMeetingTimes(today)| == MaxSlots
  {
    var ds := IntendedExamined(today);
    FiveDaysHoldThreeWorkdays(today);
    WorkdayCountGrows(ds, 5);
    PickSlotsCount(ds);
  }

  /** Counted from today, every slot falls within the next two weeks: on a
      workday between today and today plus 14 days, in increasing order. */
  lemma IntendedWithinTwoWeeks(today: CalendarDate)
    ensures
      var slots := PickSlots(IntendedExamined(today));
      && Increasing(slots)
      && forall i :: 0 <= i < |slots| ==>
           IsWorkday(slots[i]) && DayNumber(today) <= DayNumber(slots[i]) <= DayNumber(today) + 14
  {
    var ds := IntendedExamined(today);
    var slots := PickSlots(ds);
    forall i | 0 <= i < |slots|
      ensures DayNumber(today) <= DayNumber(slots[i]) <= DayNumber(today) + 14
    {
      var k :| 0 <= k < |ds| && ds[k] == slots[i];
    }
    PickSlotsIncreasing(ds);
  }
}
