/**
 * The read-only routine table: 24-hour slot texts shown as 12-hour times,
 * the start of a slot in minutes, and the list of slots shown for one day
 * (each time once, in start order, only where that day has a class).
 */
module RoutineView {
  import opened Wrappers
  import opened Text
  import opened Lists
  import opened Routine

  // ---------------------------------------------------------------------------
  // convertTo12Hour

  /** JavaScript's `a % b` for b > 0: the remainder has the sign of a. */
  function JsRem(a: int, b: int): int
    requires b > 0
  {
    if a >= 0 then a % b else -((-a) % b)
  }

  /** `hour % 12 || 12`; a NaN hour (None) also gives 12. */
  function Hour12(hour: Option<int>): int {
    match hour
    case None => 12
    case Some(h) => if JsRem(h, 12) == 0 then 12 else JsRem(h, 12)
  }

  /** `hour >= 12 ? 'PM' : 'AM'`; NaN compares false, so it is AM. */
  function Meridiem(hour: Option<int>): string {
    if hour.Some? && hour.value >= 12 then "PM" else "AM"
  }

  /** `format12Hour`: "HH:MM" becomes "h:MM AM" or "h:MM PM". */
  function Format12Hour(t: string): string {
    var parts := Split(t, ":");
    var hours := parts[0];
    var minutes := if |parts| > 1 then parts[1] else "";
    if hours == "" || minutes == "" then t
    else
      var hour := ParseIntPrefix(hours);
      IntToString(Hour12(hour)) + ":" + minutes + " " + Meridiem(hour)
  }

  /** `convertTo12Hour`: both halves of "start - end" in 12-hour form. */
  function ConvertTo12Hour(time: string): string {
    if time == "" then ""
    else if StartHalf(time) == "" || EndHalf(time) == "" then time
    else Format12Hour(StartHalf(time)) + TimeSep + Format12Hour(EndHalf(time))
  }

  /** The hour back from its 12-hour form: 12 AM is 0 and 12 PM is 12. */
  function To24(hour12: int, meridiem: string): int {
    hour12 % 12 + (if meridiem == "PM" then 12 else 0)
  }

  /** A half without ':' or with nothing before its first ':' is kept as it is. */
  lemma Format12HourUnchanged(t: string)
    requires !Contains(t, ":") || StartsWith(t, ":")
    ensures Format12Hour(t) == t
  {
    if !Contains(t, ":") {
      SplitNone(t, ":");
    } else {
      assert OccursAt(t, ":", 0);
      assert IndexOf(t, ":") == Some(0);
    }
  }

  /** A half "hours:" with nothing after its ':' is kept as it is. */
  lemma Format12HourNoMinutes(h: string)
    requires Lacks(h, ':')
    ensures Format12Hour(h + ":") == h + ":"
  {
    LacksNoOccurrence(h, ":", ":");
    assert h + ":" == h + ":" + "";
    SplitCons(h, ":", "");
    SplitNone("", ":");
  }

  /**
   * A half "hh:mm" with a decimal hour h and minutes mm (no ':') is shown as
   * (h mod 12, with 0 as 12):mm followed by PM exactly when h >= 12; the
   * minutes text is kept verbatim.
   */
  lemma Format12HourDigits(hs: string, m: string)
    requires |hs| > 0 && AllDigits(hs)
    requires m != "" && !Contains(m, ":")
    ensures var h := DigitsValue(hs);
      Format12Hour(hs + ":" + m) ==
        NatToString(if h % 12 == 0 then 12 else h % 12) + ":" + m + " " + (if h >= 12 then "PM" else "AM")
  {
    assert Lacks(hs, ':');
    LacksNoOccurrence(hs, ":", ":" + m);
    assert hs + ":" + m == hs + (":" + m);
    SplitCons(hs, ":", m);
    SplitNone(m, ":");
    DigitStringParsesAsInt(hs);
  }

  /** The 12-hour form of an hour of the day gives the hour back. */
  lemma TwelveHourRoundTrip(h: nat)
    requires h < 24
    ensures To24(Hour12(Some(h)), Meridiem(Some(h))) == h
    ensures 1 <= Hour12(Some(h)) <= 12
  {
  }

  /**
   * An empty time shows as empty, and a time missing either half (no
   * separator, nothing before it, or nothing after it) as itself.
   */
  lemma ConvertUnchanged(time: string)
    requires time == "" || StartHalf(time) == "" || EndHalf(time) == "" || !Contains(time, TimeSep)
    ensures time == "" ==> ConvertTo12Hour(time) == ""
    ensures ConvertTo12Hour(time) == time
  {
    if time != "" && !Contains(time, TimeSep) {
      SplitNone(time, TimeSep);
    }
  }

  /** A time "a - b" shows as the 12-hour forms of its two halves. */
  lemma ConvertJoined(a: string, b: string)
    requires a != "" && b != "" && NoDash(a) && !Contains(b, TimeSep)
    ensures ConvertTo12Hour(a + TimeSep + b) == Format12Hour(a) + TimeSep + Format12Hour(b)
  {
    JoinedHalves(a, b);
  }

  /** The 12-hour text of hour h with minutes text m. */
  function TwelveHourText(h: nat, m: string): string {
    NatToString(if h % 12 == 0 then 12 else h % 12) + ":" + m + " " + (if h >= 12 then "PM" else "AM")
  }

  /** A half "hh:mm" of digit groups, shown in 12-hour form. */
  lemma FormatDigitHalf(hs: string, ms: string, t: string)
    requires |hs| > 0 && AllDigits(hs) && |ms| > 0 && AllDigits(ms)
    requires t == hs + ":" + ms
    ensures Format12Hour(t) == TwelveHourText(DigitsValue(hs), ms)
    ensures NoDash(t) && Lacks(t, ' ')
  {
    ColonSplit(hs, ms);
    assert Lacks(ms, ':');
    LacksNotContains(ms, ":");
    Format12HourDigits(hs, ms);
  }

  /** A slot "hh:mm - hh:mm" of digit groups shows both halves in 12-hour form. */
  lemma ConvertDigitSlot(h1: string, m1: string, h2: string, m2: string, a: string, b: string)
    requires |h1| > 0 && AllDigits(h1) && |m1| > 0 && AllDigits(m1)
    requires |h2| > 0 && AllDigits(h2) && |m2| > 0 && AllDigits(m2)
    requires a == h1 + ":" + m1 && b == h2 + ":" + m2
    ensures ConvertTo12Hour(a + TimeSep + b) ==
      TwelveHourText(DigitsValue(h1), m1) + TimeSep + TwelveHourText(DigitsValue(h2), m2)
  {
    FormatDigitHalf(h1, m1, a);
    FormatDigitHalf(h2, m2, b);
    LacksNotContains(b, TimeSep);
    ConvertJoined(a, b);
  }

  /** The slot "13:30 - 14:45" reads "1:30 PM - 2:45 PM". */
  lemma ConvertAfternoonSample()
    ensures ConvertTo12Hour("13:30 - 14:45") == "1:30 PM - 2:45 PM"
  {
    assert "13:30" + TimeSep + "14:45" == "13:30 - 14:45";
    AfternoonHalves("13:30", "14:45");
    AfternoonText(ConvertTo12Hour("13:30 - 14:45"));
  }

  lemma AfternoonHalves(a: string, b: string)
    requires a == "13:30" && b == "14:45"
    ensures ConvertTo12Hour(a + TimeSep + b) == TwelveHourText(13, "30") + TimeSep + TwelveHourText(14, "45")
  {
    ConvertDigitSlot("13", "30", "14", "45", a, b);
    assert DigitsValue("13") == 13 && DigitsValue("14") == 14;
  }

  lemma AfternoonText(x: string)
    requires x == TwelveHourText(13, "30") + TimeSep + TwelveHourText(14, "45")
    ensures x == "1:30 PM - 2:45 PM"
  {
    assert TwelveHourText(13, "30") == "1:30 PM" by { assert NatToString(1) == "1"; }
    assert TwelveHourText(14, "45") == "2:45 PM" by { assert NatToString(2) == "2"; }
  }

  /** The slot "00:15 - 00:20" reads "12:15 AM - 12:20 AM": hour 0 shows as 12. */
  lemma ConvertMidnightSample()
    ensures ConvertTo12Hour("00:15 - 00:20") == "12:15 AM - 12:20 AM"
  {
    assert "00:15" + TimeSep + "00:20" == "00:15 - 00:20";
    MidnightHalves("00:15", "00:20");
    MidnightText(ConvertTo12Hour("00:15 - 00:20"));
  }

  lemma MidnightHalves(a: string, b: string)
    requires a == "00:15" && b == "00:20"
    ensures ConvertTo12Hour(a + TimeSep + b) == TwelveHourText(0, "15") + TimeSep + TwelveHourText(0, "20")
  {
    ConvertDigitSlot("00", "15", "00", "20", a, b);
    assert DigitsValue("00") == 0;
  }

  lemma MidnightText(x: string)
    requires x == TwelveHourText(0, "15") + TimeSep + TwelveHourText(0, "20")
    ensures x == "12:15 AM - 12:20 AM"
  {
    assert NatToString(12) == "12";
  }

  // ---------------------------------------------------------------------------
  // getTimeInMinutes

  /**
   * JavaScript's `Number(s)` on integers: white space around is ignored, the
   * empty text is 0, an optional sign and decimal digits give their value,
   * and anything else is NaN (None).
   */
  function JsNumber(s: string): Option<int> {
    var t := Trim(s);
    if t == "" then Some(0)
    else if AllDigits(t) then Some(DigitsValue(t))
    else if |t| > 1 && (t[0] == '-' || t[0] == '+') && AllDigits(t[1..]) then
      var v: int := DigitsValue(t[1..]);
      Some(if t[0] == '-' then -v else v)
    else None
  }

  /** A digit string reads as its decimal value. */
  lemma JsNumberDigits(s: string)
    requires |s| > 0 && AllDigits(s)
    ensures JsNumber(s) == Some(DigitsValue(s))
  {
    assert IsDigit(s[0]) && IsDigit(s[|s| - 1]);
    TrimUnchanged(s);
  }

  /** `getTimeInMinutes`: 60 * hours + minutes of the start half, 0 when unreadable. */
  function GetTimeInMinutes(timeString: string): int {
    if timeString == "" then 0
    else
      var time := StartHalf(timeString);
      if time == "" then 0
      else
        var parts := Split(time, ":");
        var hours := JsNumber(parts[0]);
        var minutes := if |parts| > 1 then JsNumber(parts[1]) else None;
        if hours.None? || minutes.None? then 0
        else hours.value * 60 + minutes.value
  }

  /** "hh:mm" splits at its ':' into the hours and the minutes. */
  lemma ColonSplit(hs: string, ms: string)
    requires AllDigits(hs) && AllDigits(ms)
    ensures Split(hs + ":" + ms, ":") == [hs, ms]
    ensures NoDash(hs + ":" + ms) && Lacks(hs + ":" + ms, ' ')
  {
    var start := hs + ":" + ms;
    assert Lacks(hs, ':') && Lacks(ms, ':');
    LacksNoOccurrence(hs, ":", ":" + ms);
    assert start == hs + (":" + ms);
    SplitCons(hs, ":", ms);
    LacksNotContains(ms, ":");
    SplitNone(ms, ":");
    forall i | 0 <= i < |start| ensures start[i] != '-' && start[i] != ' ' {
      if i < |hs| {
        assert start[i] == hs[i];
      } else if i > |hs| {
        assert start[i] == ms[i - |hs| - 1];
      }
    }
  }

  /** A slot "hh:mm - end" starts 60 * hh + mm minutes after midnight. */
  lemma MinutesOfSlot(hs: string, ms: string, end: string)
    requires |hs| > 0 && AllDigits(hs) && |ms| > 0 && AllDigits(ms)
    requires !Contains(end, TimeSep)
    ensures GetTimeInMinutes(hs + ":" + ms + TimeSep + end) == 60 * DigitsValue(hs) + DigitsValue(ms)
  {
    ColonSplit(hs, ms);
    JoinedHalves(hs + ":" + ms, end);
    JsNumberDigits(hs);
    JsNumberDigits(ms);
  }

  /** A lone "hh:mm" is 60 * hh + mm minutes after midnight. */
  lemma MinutesOfClock(hs: string, ms: string)
    requires |hs| > 0 && AllDigits(hs) && |ms| > 0 && AllDigits(ms)
    ensures GetTimeInMinutes(hs + ":" + ms) == 60 * DigitsValue(hs) + DigitsValue(ms)
  {
    var c := hs + ":" + ms;
    ColonSplit(hs, ms);
    LacksNotContains(c, TimeSep);
    SplitNone(c, TimeSep);
    assert StartHalf(c) == c;
    JsNumberDigits(hs);
    JsNumberDigits(ms);
  }

  /** A start half without ':' has no minutes, so the time counts as 0. */
  lemma MinutesWithoutColon(timeString: string)
    requires !Contains(StartHalf(timeString), ":")
    ensures GetTimeInMinutes(timeString) == 0
  {
    SplitNone(StartHalf(timeString), ":");
  }

  // ---------------------------------------------------------------------------
  // The slots shown for one day

  /** One displayed slot: the stored time, its 12-hour text and the day's class. */
  datatype Slot = Slot(originalTime: string, displayTime: string, classData: Option<Cell>)

  /** `rows.find(item => item.time === time)`. */
  function FirstWithTime(rows: seq<Row>, time: string): (r: Option<nat>)
    ensures r.Some? ==> r.value < |rows| && rows[r.value].time == time
    ensures r.Some? ==> forall j :: 0 <= j < r.value ==> rows[j].time != time
    ensures r.None? ==> forall j :: 0 <= j < |rows| ==> rows[j].time != time
  {
    if |rows| == 0 then None
    else if rows[0].time == time then Some(0)
    else
      match FirstWithTime(rows[1..], time)
      case None => None
      case Some(i) => Some(i + 1)
  }

  /** `slot?.[day] || null` for the first row with the time. */
  function ClassOf(rows: seq<Row>, time: string, day: Day): Option<Cell> {
    match FirstWithTime(rows, time)
    case None => None
    case Some(i) => rows[i].Get(day)
  }

  function MakeSlot(rows: seq<Row>, day: Day, time: string): Slot {
    Slot(time, ConvertTo12Hour(time), ClassOf(rows, time, day))
  }

  function MinutesOf(s: Slot): int {
    GetTimeInMinutes(s.originalTime)
  }

  function Times(rows: seq<Row>): (ts: seq<string>)
    ensures |ts| == |rows| && forall i :: 0 <= i < |rows| ==> ts[i] == rows[i].time
  {
    seq(|rows|, i requires 0 <= i < |rows| => rows[i].time)
  }

  function SameText(t: string): string {
    t
  }

  predicate NonEmptyText(t: string) {
    t != ""
  }

  predicate Scheduled(s: Slot) {
    s.classData.Some?
  }

  /** The distinct non-empty times, in the order they first appear. */
  function DistinctTimes(rows: seq<Row>): seq<string> {
    Filter(DedupeBy(Times(rows), SameText), NonEmptyText)
  }

  /** The `uniqueTimes` list shown for `day`. */
  function DisplaySlots(rows: seq<Row>, day: Day): seq<Slot> {
    var times := DistinctTimes(rows);
    var slots := seq(|times|, i requires 0 <= i < |times| => MakeSlot(rows, day, times[i]));
    Filter(SortBy(slots, MinutesOf), Scheduled)
  }

  /** The distinct times are exactly the non-empty row times, each once. */
  lemma DistinctTimesFacts(rows: seq<Row>)
    ensures Distinct(DistinctTimes(rows))
    ensures forall t :: t in DistinctTimes(rows) <==> t != "" && t in Times(rows)
  {
    DedupeIdentity(Times(rows), SameText);
    FilterDistinct(DedupeBy(Times(rows), SameText), NonEmptyText);
  }

  /** Every slot on show is the slot of its own time, with a class on that day. */
  lemma DisplayedSlotsAreMade(rows: seq<Row>, day: Day)
    ensures forall s :: s in DisplaySlots(rows, day) ==>
      s == MakeSlot(rows, day, s.originalTime) && s.originalTime in DistinctTimes(rows) && s.classData.Some?
  {
    var times := DistinctTimes(rows);
    var slots := seq(|times|, i requires 0 <= i < |times| => MakeSlot(rows, day, times[i]));
    var sorted := SortBy(slots, MinutesOf);
    forall s | s in DisplaySlots(rows, day)
      ensures s == MakeSlot(rows, day, s.originalTime) && s.originalTime in times && s.classData.Some?
    {
      assert s in sorted;
      assert s in multiset(slots);
      var i :| 0 <= i < |slots| && slots[i] == s;
    }
  }

  /**
   * The slots on show: ascending by start minute, each time at most once and
   * never empty, each with the class of the first row holding that time,
   * and only where the day has a class.
   */
  lemma DisplaySlotsShape(rows: seq<Row>, day: Day)
    ensures SortedBy(DisplaySlots(rows, day), MinutesOf)
    ensures var r := DisplaySlots(rows, day);
      forall i, j :: 0 <= i < j < |r| ==> r[i].originalTime != r[j].originalTime
    ensures var r := DisplaySlots(rows, day);
      forall i :: 0 <= i < |r| ==>
        r[i].originalTime != "" &&
        r[i].displayTime == ConvertTo12Hour(r[i].originalTime) &&
        r[i].classData.Some? &&
        exists k :: 0 <= k < |rows| && rows[k].time == r[i].originalTime &&
          r[i].classData == rows[k].Get(day) &&
          forall j :: 0 <= j < k ==> rows[j].time != r[i].originalTime
  {
    var times := DistinctTimes(rows);
    var slots := seq(|times|, i requires 0 <= i < |times| => MakeSlot(rows, day, times[i]));
    var sorted := SortBy(slots, MinutesOf);
    var r := DisplaySlots(rows, day);
    FilterSorted(sorted, Scheduled, MinutesOf);
    DistinctTimesFacts(rows);
    assert Distinct(slots) by {
      forall i, j | 0 <= i < j < |slots| ensures slots[i] != slots[j] {
        assert slots[i].originalTime == times[i];
      }
    }
    SortDistinct(slots, MinutesOf);
    FilterDistinct(sorted, Scheduled);
    DisplayedSlotsAreMade(rows, day);
    forall i, j | 0 <= i < j < |r| ensures r[i].originalTime != r[j].originalTime {
      assert r[i] in r && r[j] in r;
    }
    forall i | 0 <= i < |r|
      ensures r[i].originalTime != "" && r[i].displayTime == ConvertTo12Hour(r[i].originalTime)
      ensures r[i].classData.Some?
      ensures exists k :: (0 <= k < |rows| && rows[k].time == r[i].originalTime &&
          r[i].classData == rows[k].Get(day) &&
          forall j :: 0 <= j < k ==> rows[j].time != r[i].originalTime)
    {
      assert r[i] in r;
      var t := r[i].originalTime;
      var k := FirstWithTime(rows, t);
      assert k.Some?;
    }
  }

  /** Every non-empty time whose first row has a class on the day is on show. */
  lemma DisplaySlotsComplete(rows: seq<Row>, day: Day, t: string)
    requires t != "" && ClassOf(rows, t, day).Some?
    ensures exists i :: 0 <= i < |DisplaySlots(rows, day)| && DisplaySlots(rows, day)[i].originalTime == t
  {
    var times := DistinctTimes(rows);
    var slots := seq(|times|, i requires 0 <= i < |times| => MakeSlot(rows, day, times[i]));
    var sorted := SortBy(slots, MinutesOf);
    var k := FirstWithTime(rows, t).value;
    assert Times(rows)[k] == t;
    DistinctTimesFacts(rows);
    assert t in times;
    var i :| 0 <= i < |times| && times[i] == t;
    var s := MakeSlot(rows, day, t);
    assert slots[i] == s;
    assert s in multiset(sorted);
    assert s in DisplaySlots(rows, day);
  }
}
