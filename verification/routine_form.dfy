/**
 * The routine form: the fixed list of 5-minute time slots between 08:00 and
 * 17:55, toggling a slot in or out of the routine, editing one class cell,
 * and the checks made before the routine is sent.
 */
module RoutineForm {
  import opened Wrappers
  import opened Text
  import opened Lists
  import opened Routine
  import opened Sessions
  import RoutineView

  // ---------------------------------------------------------------------------
  // generateTimeSlots

  /** 08:00, in minutes after midnight. */
  const FirstSlotStart: nat := 480
  /** Ten hours of twelve slots, less the 17:55 slot that would end at 18:00. */
  const SlotCount: nat := 119

  /**
   * "HH:MM" for a time of day in minutes before 100:00, written out as its
   * five characters: the two digits of the hour, ':', the two digits of the
   * minute (`ClockOf` shows this is the zero-padded text the form builds).
   */
  function ClockText(m: nat): string
    requires m < 6000
  {
    var h, mm := m / 60, m % 60;
    [DigitChar(h / 10), DigitChar(h % 10), ':', DigitChar(mm / 10), DigitChar(mm % 10)]
  }

  /** The slot starting at `start`: "HH:MM - HH:MM", five minutes long. */
  function SlotText(start: nat): string
    requires start + 5 < 6000
  {
    ClockText(start) + TimeSep + ClockText(start + 5)
  }

  /** Slot k starts 5k minutes after 08:00. */
  function TimeSlots(): (r: seq<string>)
    ensures |r| == SlotCount
  {
    seq(SlotCount, k requires 0 <= k < SlotCount => SlotText(FirstSlotStart + 5 * k))
  }

  /** How many slots the loops have pushed before hour `hour`, minute 5 * `step`. */
  function Generated(hour: int, step: int): nat
    requires hour >= 8 && step >= 0
  {
    var n := 12 * (hour - 8) + step;
    if n < SlotCount then n else SlotCount
  }

  /** `slots` holds the first |slots| slots of the day. */
  predicate SlotsSoFar(slots: seq<string>) {
    |slots| <= SlotCount && slots == TimeSlots()[..|slots|]
  }

  /** `generateTimeSlots`: the two loops, hour 8 to 17 and minute 0 to 55 in steps of 5. */
  method GenerateTimeSlots() returns (slots: seq<string>)
    ensures slots == TimeSlots()
  {
    slots := [];
    var hour := 8;
    while hour <= 17
      invariant 8 <= hour <= 18
      invariant |slots| == Generated(hour, 0)
      invariant SlotsSoFar(slots)
    {
      var minute := 0;
      ghost var step := 0;
      while minute < 60
        invariant 0 <= step <= 12 && minute == 5 * step
        invariant |slots| == Generated(hour, step)
        invariant SlotsSoFar(slots)
      {
        var text, endHour := SlotStartingAt(hour, minute);
        if endHour <= 17 {
          assert 12 * (hour - 8) + step < SlotCount;
          ghost var start := FirstSlotStart + 5 * |slots|;
          assert start == 60 * hour + minute;
          PushSlot(slots, text, start);
          slots := slots + [text];
        }
        minute := minute + 5;
        step := step + 1;
      }
      hour := hour + 1;
    }
    PrefixWhole(TimeSlots(), slots);
  }

  /**
   * The body of the inner loop: the slot text for (hour, minute) and the hour
   * it ends in, which decides whether it is pushed.
   */
  method SlotStartingAt(hour: nat, minute: nat) returns (text: string, endHour: nat)
    requires hour < 99 && minute < 60
    ensures endHour == (60 * hour + minute + 5) / 60
    ensures text == SlotText(60 * hour + minute)
  {
    var startTime := Pad2(hour) + ":" + Pad2(minute);
    var endMinute := minute + 5;
    endHour := if endMinute >= 60 then hour + 1 else hour;
    var endMinuteFormatted := if endMinute >= 60 then endMinute - 60 else endMinute;
    var endTime := Pad2(endHour) + ":" + Pad2(endMinuteFormatted);
    SlotAt(hour, minute, endHour, endMinuteFormatted);
    text := startTime + " - " + endTime;
  }

  /** Pushing the next slot keeps `slots` a prefix of the day's slots. */
  lemma PushSlot(slots: seq<string>, text: string, start: nat)
    requires SlotsSoFar(slots) && |slots| < SlotCount
    requires start == FirstSlotStart + 5 * |slots| && text == SlotText(start)
    ensures SlotsSoFar(slots + [text])
  {
    PrefixPush(TimeSlots(), slots, text);
  }

  /** The slot the loops build at (hour, minute) is the slot starting 60 * hour + minute. */
  lemma SlotAt(hour: nat, minute: nat, endHour: nat, endMinute: nat)
    requires hour < 99 && minute < 60
    requires minute + 5 >= 60 ==> endHour == hour + 1 && endMinute == minute + 5 - 60
    requires minute + 5 < 60 ==> endHour == hour && endMinute == minute + 5
    ensures SlotText(60 * hour + minute) ==
      (Pad2(hour) + ":" + Pad2(minute)) + " - " + (Pad2(endHour) + ":" + Pad2(endMinute))
  {
    var start := 60 * hour + minute;
    var next := 60 * endHour + endMinute;
    assert start + 5 == next;
    ClockOf(hour, minute);
    ClockOf(endHour, endMinute);
    assert ClockText(start + 5) == Pad2(endHour) + ":" + Pad2(endMinute);
  }

  /** The clock text of 60h + m is h and m, each padded to two digits. */
  lemma ClockOf(h: nat, m: nat)
    requires h < 100 && m < 60
    ensures ClockText(60 * h + m) == Pad2(h) + ":" + Pad2(m)
  {
    assert (60 * h + m) / 60 == h;
    assert (60 * h + m) % 60 == m;
    Pad2Chars(h);
    Pad2Chars(m);
  }

  /** Five characters "HH:MM": two digits, a ':' and two digits. */
  predicate IsClock(c: string) {
    |c| == 5 && c[2] == ':' && AllDigits(c[..2]) && AllDigits(c[3..])
  }

  function ClockValue(c: string): nat
    requires IsClock(c)
  {
    60 * DigitsValue(c[..2]) + DigitsValue(c[3..])
  }

  /** A clock time before 100:00 is written "HH:MM" and reads back as itself. */
  lemma ClockTextShape(m: nat)
    requires m < 6000
    ensures IsClock(ClockText(m)) && ClockValue(ClockText(m)) == m
  {
    var c := ClockText(m);
    Pad2Chars(m / 60);
    Pad2Chars(m % 60);
    assert c[..2] == Pad2(m / 60);
    assert c[3..] == Pad2(m % 60);
  }

  /** A clock text holds no '-' and no " - ". */
  lemma ClockFacts(c: string)
    requires IsClock(c)
    ensures NoDash(c) && !Contains(c, TimeSep)
  {
    forall i | 0 <= i < 5 ensures c[i] != '-' && c[i] != ' ' {
      if i < 2 {
        assert c[i] == c[..2][i];
      } else if i > 2 {
        assert c[i] == c[3..][i - 3];
      }
    }
    LacksNotContains(c, TimeSep);
  }

  /** `getTimeInMinutes` of a slot starting with a clock text is the clock's minutes. */
  lemma ClockMinutes(c: string, end: string)
    requires IsClock(c) && !Contains(end, TimeSep)
    ensures RoutineView.GetTimeInMinutes(c + TimeSep + end) == ClockValue(c)
  {
    assert c == c[..2] + ":" + c[3..];
    RoutineView.MinutesOfSlot(c[..2], c[3..], end);
  }

  /** `getTimeInMinutes` of a lone clock text is its minutes. */
  lemma LoneClockMinutes(c: string)
    requires IsClock(c)
    ensures RoutineView.GetTimeInMinutes(c) == ClockValue(c)
  {
    assert c == c[..2] + ":" + c[3..];
    RoutineView.MinutesOfClock(c[..2], c[3..]);
  }

  /**
   * Slot k, read back by the routine view, starts 480 + 5k minutes after
   * midnight and its end half is five minutes later; both halves are
   * zero-padded "HH:MM", and no slot ends after 17:55.
   */
  lemma TimeSlotMinutes(k: nat)
    requires k < SlotCount
    ensures var slot := TimeSlots()[k];
      RoutineView.GetTimeInMinutes(slot) == FirstSlotStart + 5 * k &&
      RoutineView.GetTimeInMinutes(EndHalf(slot)) == FirstSlotStart + 5 * k + 5 &&
      IsClock(StartHalf(slot)) && IsClock(EndHalf(slot)) &&
      FirstSlotStart + 5 * k + 5 <= 17 * 60 + 55
  {
    var start := FirstSlotStart + 5 * k;
    assert TimeSlots()[k] == SlotText(start);
    SlotHalves(start);
  }

  /** The halves of a slot text are the clock texts of its start and its end. */
  lemma SlotHalves(start: nat)
    requires start + 5 < 6000
    ensures var slot := SlotText(start);
      StartHalf(slot) == ClockText(start) && EndHalf(slot) == ClockText(start + 5) &&
      RoutineView.GetTimeInMinutes(slot) == start &&
      RoutineView.GetTimeInMinutes(ClockText(start + 5)) == start + 5 &&
      IsClock(ClockText(start)) && IsClock(ClockText(start + 5))
  {
    var a, b := ClockText(start), ClockText(start + 5);
    ClockTextShape(start);
    ClockTextShape(start + 5);
    ClockFacts(a);
    ClockFacts(b);
    JoinedHalves(a, b);
    ClockMinutes(a, b);
    LoneClockMinutes(b);
  }

  /** Slot start times strictly increase, so no slot text repeats. */
  lemma TimeSlotsIncrease(i: nat, j: nat)
    requires i < j < SlotCount
    ensures RoutineView.GetTimeInMinutes(TimeSlots()[i]) < RoutineView.GetTimeInMinutes(TimeSlots()[j])
    ensures TimeSlots()[i] != TimeSlots()[j]
  {
    TimeSlotMinutes(i);
    TimeSlotMinutes(j);
  }

  /** The first slot is "08:00 - 08:05". */
  lemma FirstSlot()
    ensures TimeSlots()[0] == "08:00 - 08:05"
  {
    assert TimeSlots()[0] == SlotText(480);
    assert DigitChar(0) == '0' && DigitChar(8) == '8' && DigitChar(5) == '5';
    assert ClockText(480) == "08:00";
    assert ClockText(485) == "08:05";
  }

  /** The last slot is "17:50 - 17:55". */
  lemma LastSlot()
    ensures TimeSlots()[SlotCount - 1] == "17:50 - 17:55"
  {
    assert TimeSlots()[SlotCount - 1] == SlotText(1070);
    assert DigitChar(1) == '1' && DigitChar(7) == '7' && DigitChar(5) == '5' && DigitChar(0) == '0';
    assert ClockText(1070) == "17:50";
    assert ClockText(1075) == "17:55";
  }

  // ---------------------------------------------------------------------------
  // Session options

  /** The form's session choices: "All" and the four sessions from the current year down. */
  lemma FormSessionsRead(currentYear: int)
    requires currentYear >= 12
    ensures var r := FormSessions(currentYear);
      r[0] == "All" && forall i :: 1 <= i < 5 ==> ReadsAs(r[i], currentYear - (i - 1))
  {
    var r := FormSessions(currentYear);
    forall i | 1 <= i < 5 ensures ReadsAs(r[i], currentYear - (i - 1)) {
      SessionLabelParts(currentYear - (i - 1));
    }
  }

  // ---------------------------------------------------------------------------
  // handleTimeSlotChange and handleClassChange

  function TimeOf(r: Row): string {
    r.time
  }

  /** `slot => slot.time !== time`. */
  function TimeIsNot(time: string): Row -> bool {
    (r: Row) => r.time != time
  }

  predicate HasTime(rows: seq<Row>, time: string) {
    exists i :: 0 <= i < |rows| && rows[i].time == time
  }

  /** `handleTimeSlotChange`: drop every row with the time if there is one, else add an empty row. */
  function ToggleTime(rows: seq<Row>, time: string): seq<Row> {
    if RoutineView.FirstWithTime(rows, time).Some? then Filter(rows, TimeIsNot(time))
    else rows + [EmptyRow(time)]
  }

  /**
   * Toggling a time that is present removes exactly the rows with that time,
   * keeping every other row as often as it occurs and in its order (the rows
   * kept from a prefix come before those kept from the rest); toggling an
   * absent time appends one empty row for it.
   */
  lemma ToggleTimeEffect(rows: seq<Row>, time: string)
    ensures HasTime(rows, time) ==> ToggleTime(rows, time) == Filter(rows, TimeIsNot(time))
    ensures HasTime(rows, time) ==>
      forall r :: r in ToggleTime(rows, time) <==> r in rows && r.time != time
    ensures HasTime(rows, time) ==>
      forall r :: multiset(ToggleTime(rows, time))[r] == if r.time != time then multiset(rows)[r] else 0
    ensures HasTime(rows, time) ==>
      forall k :: 0 <= k <= |rows| ==>
        ToggleTime(rows, time) == Filter(rows[..k], TimeIsNot(time)) + Filter(rows[k..], TimeIsNot(time))
    ensures !HasTime(rows, time) ==> ToggleTime(rows, time) == rows + [EmptyRow(time)]
  {
    if HasTime(rows, time) {
      FilterKeeps(rows, TimeIsNot(time));
    }
  }

  /** Toggling keeps row times unique. */
  lemma ToggleKeepsTimesUnique(rows: seq<Row>, time: string)
    requires DistinctKeys(rows, TimeOf)
    ensures DistinctKeys(ToggleTime(rows, time), TimeOf)
  {
    if HasTime(rows, time) {
      FilterDistinctKeys(rows, TimeIsNot(time), TimeOf);
    } else {
      var r := rows + [EmptyRow(time)];
      forall i, j | 0 <= i < j < |r| ensures TimeOf(r[i]) != TimeOf(r[j]) {
        if j == |rows| {
          assert r[i] == rows[i];
        } else {
          assert r[i] == rows[i] && r[j] == rows[j];
        }
      }
    }
  }

  /** Toggling an absent time twice gives the rows back. */
  lemma ToggleTwiceRestores(rows: seq<Row>, time: string)
    requires !HasTime(rows, time)
    ensures ToggleTime(ToggleTime(rows, time), time) == rows
  {
    var added := rows + [EmptyRow(time)];
    assert added[|rows|].time == time;
    assert RoutineView.FirstWithTime(added, time).Some?;
    FilterAppend(rows, [EmptyRow(time)], TimeIsNot(time));
    FilterKeepsAll(rows, TimeIsNot(time));
  }

  /** `handleClassChange`: set one field of one day's cell in the rows with the time. */
  function ClassChange(rows: seq<Row>, time: string, day: Day, field: CellField, value: string)
    : (r: seq<Row>)
    ensures |r| == |rows|
  {
    seq(|rows|, i requires 0 <= i < |rows| =>
      if rows[i].time == time then rows[i].With(day, Some(EditCell(rows[i].Get(day), field, value)))
      else rows[i])
  }

  /**
   * The edit changes only the given field of the given day in rows with the
   * time: a missing cell first becomes an empty subject/teacher pair; other
   * rows, other days and all times stay as they were.
   */
  lemma ClassChangeEffect(rows: seq<Row>, time: string, day: Day, field: CellField, value: string)
    ensures var r := ClassChange(rows, time, day, field, value);
      forall i :: 0 <= i < |rows| ==>
        r[i].time == rows[i].time &&
        (rows[i].time != time ==> r[i] == rows[i]) &&
        (rows[i].time == time ==>
          (forall d :: d != day ==> r[i].Get(d) == rows[i].Get(d)) &&
          r[i].Get(day).Some? &&
          (field == Subject ==>
             r[i].Get(day).value.subject == value &&
             r[i].Get(day).value.teacher == (if rows[i].Get(day).Some? then rows[i].Get(day).value.teacher else "")) &&
          (field == Teacher ==>
             r[i].Get(day).value.teacher == value &&
             r[i].Get(day).value.subject == (if rows[i].Get(day).Some? then rows[i].Get(day).value.subject else "")))
  {
  }

  // ---------------------------------------------------------------------------
  // handleSubmit

  /** One `FormData` entry. */
  datatype FormField = FormField(name: string, value: string)

  /**
   * `handleSubmit` up to the request: the three checks in order, then the
   * form fields.  `encode` stands for `JSON.stringify`.
   */
  function Submit(title: string, session: string, department: string, rows: seq<Row>,
                  encode: seq<Row> -> string): Result<seq<FormField>, string>
  {
    if Trim(title) == "" then Failure("Title is required")
    else if session == "" then Failure("Session is required")
    else if |rows| == 0 then Failure("Please add at least one time slot")
    else Success([
      FormField("title", title),
      FormField("contentType", "routine"),
      FormField("targetSession", session),
      FormField("targetDepartment", department),
      FormField("routineData", encode(rows))])
  }

  /** A title of white space only, such as a lone vertical tab, is rejected as missing. */
  lemma BlankTitleRejected(title: string, session: string, department: string, rows: seq<Row>,
                           encode: seq<Row> -> string)
    requires forall i :: 0 <= i < |title| ==> IsSpace(title[i])
    ensures Submit(title, session, department, rows, encode) == Failure("Title is required")
    ensures Submit("\U{B}", session, department, rows, encode) == Failure("Title is required")
  {
    TrimBlank(title);
    TrimBlank("\U{B}");
  }

  /**
   * A request is built exactly when the title is not blank, a session is
   * chosen and the routine has a row; a blank title is reported first, then
   * a missing session, then an empty routine.
   */
  lemma SubmitChecks(title: string, session: string, department: string, rows: seq<Row>,
                     encode: seq<Row> -> string)
    ensures var r := Submit(title, session, department, rows, encode);
      (r.Success? <==> Trim(title) != "" && session != "" && |rows| > 0) &&
      (Trim(title) == "" ==> r == Failure("Title is required")) &&
      (Trim(title) != "" && session == "" ==> r == Failure("Session is required")) &&
      (Trim(title) != "" && session != "" && |rows| == 0 ==> r == Failure("Please add at least one time slot"))
    ensures var r := Submit(title, session, department, rows, encode);
      r.Success? ==>
        |r.value| == 5 && r.value[0] == FormField("title", title) &&
        r.value[1] == FormField("contentType", "routine") &&
        r.value[2] == FormField("targetSession", session) &&
        r.value[3] == FormField("targetDepartment", department) &&
        r.value[4] == FormField("routineData", encode(rows))
  {
  }
}
