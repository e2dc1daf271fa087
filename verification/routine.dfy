/**
 * The class-routine record shared by the routine form, the routine table and
 * the routine view: a time text "start - end" and one optional
 * subject/teacher cell per day of the week.
 */
module Routine {
  import opened Wrappers
  import opened Text

  datatype Day = Sunday | Monday | Tuesday | Wednesday | Thursday | Friday | Saturday

  /** The days in the order the tables show them. */
  const Days: seq<Day> := [Sunday, Monday, Tuesday, Wednesday, Thursday, Friday, Saturday]

  /** One class: `{ subject, teacher }`. */
  datatype Cell = Cell(subject: string, teacher: string)

  /** The cell field an edit writes. */
  datatype CellField = Subject | Teacher

  /** One routine row: a time text and a cell (or null) for each day. */
  datatype Row = Row(
    time: string,
    sunday: Option<Cell>,
    monday: Option<Cell>,
    tuesday: Option<Cell>,
    wednesday: Option<Cell>,
    thursday: Option<Cell>,
    friday: Option<Cell>,
    saturday: Option<Cell>)
  {
    /** `row[day]`. */
    function Get(day: Day): Option<Cell> {
      match day
      case Sunday => sunday
      case Monday => monday
      case Tuesday => tuesday
      case Wednesday => wednesday
      case Thursday => thursday
      case Friday => friday
      case Saturday => saturday
    }

    /** `{ ...row, [day]: c }`: the row with one day's cell replaced. */
    function With(day: Day, c: Option<Cell>): (r: Row)
      ensures r.time == time && r.Get(day) == c
      ensures forall d :: d != day ==> r.Get(d) == Get(d)
    {
      match day
      case Sunday => this.(sunday := c)
      case Monday => this.(monday := c)
      case Tuesday => this.(tuesday := c)
      case Wednesday => this.(wednesday := c)
      case Thursday => this.(thursday := c)
      case Friday => this.(friday := c)
      case Saturday => this.(saturday := c)
    }
  }

  /** `createEmptyTimeSlot`: a row with the given time and no class on any day. */
  function EmptyRow(time: string): (r: Row)
    ensures r.time == time && forall d :: r.Get(d) == None
  {
    Row(time, None, None, None, None, None, None, None)
  }

  /**
   * `{ ...(cell || { subject: '', teacher: '' }), [field]: value }`: the
   * edited field takes the value, the other keeps its text or becomes ''.
   */
  function EditCell(cell: Option<Cell>, field: CellField, value: string): (c: Cell)
    ensures field == Subject ==> c.subject == value && c.teacher == (if cell.Some? then cell.value.teacher else "")
    ensures field == Teacher ==> c.teacher == value && c.subject == (if cell.Some? then cell.value.subject else "")
  {
    var current := cell.GetOr(Cell("", ""));
    match field
    case Subject => current.(subject := value)
    case Teacher => current.(teacher := value)
  }

  // ---------------------------------------------------------------------------
  // The two halves of a time text

  const TimeSep: string := " - "

  /** `time.split(' - ')[0]`. */
  function StartHalf(time: string): string {
    Split(time, TimeSep)[0]
  }

  /** `time.split(' - ')[1] || ''`. */
  function EndHalf(time: string): string {
    var parts := Split(time, TimeSep);
    if |parts| > 1 then parts[1] else ""
  }

  predicate NoDash(s: string) {
    forall i :: 0 <= i < |s| ==> s[i] != '-'
  }

  /** A text without '-' cannot hold the start of a " - " separator. */
  lemma NoDashNoEarlySeparator(a: string, b: string)
    requires NoDash(a)
    ensures forall j :: 0 <= j < |a| ==> !OccursAt(a + TimeSep + b, TimeSep, j)
  {
    var s := a + TimeSep + b;
    forall j | 0 <= j < |a| ensures !OccursAt(s, TimeSep, j) {
      assert s[j + 1] != '-' by {
        if j + 1 < |a| {
          assert s[j + 1] == a[j + 1];
        } else {
          assert s[j + 1] == ' ';
        }
      }
      assert j + 3 <= |s| ==> s[j..j + 3][1] == s[j + 1];
    }
  }

  /** A prefix of `s` before its first separator holds no separator. */
  lemma PrefixHasNoSeparator(s: string, sep: string, k: nat)
    requires |sep| > 0 && k <= |s|
    requires forall j :: 0 <= j < k ==> !OccursAt(s, sep, j)
    ensures !Contains(s[..k], sep)
  {
    if Contains(s[..k], sep) {
      var j := IndexOf(s[..k], sep).value;
      assert s[..k][j..j + |sep|] == s[j..j + |sep|];
      assert OccursAt(s, sep, j);
    }
  }

  /** No piece of a split holds the separator. */
  lemma {:induction false} SplitPiecesHaveNoSeparator(s: string, sep: string)
    requires |sep| > 0
    ensures forall i :: 0 <= i < |Split(s, sep)| ==> !Contains(Split(s, sep)[i], sep)
    decreases |s|
  {
    match IndexOf(s, sep)
    case None =>
      assert Split(s, sep) == [s];
    case Some(k) =>
      var rest := s[k + |sep|..];
      PrefixHasNoSeparator(s, sep, k);
      SplitPiecesHaveNoSeparator(rest, sep);
      assert Split(s, sep) == [s[..k]] + Split(rest, sep);
  }

  /** The halves of `a - b` are a and b when a has no '-' and b no separator. */
  lemma JoinedHalves(a: string, b: string)
    requires NoDash(a) && !Contains(b, TimeSep)
    ensures StartHalf(a + TimeSep + b) == a
    ensures EndHalf(a + TimeSep + b) == b
  {
    NoDashNoEarlySeparator(a, b);
    SplitCons(a, TimeSep, b);
    SplitNone(b, TimeSep);
  }

  /** The end half never holds the separator. */
  lemma EndHalfHasNoSeparator(time: string)
    ensures !Contains(EndHalf(time), TimeSep)
  {
    SplitPiecesHaveNoSeparator(time, TimeSep);
    if |Split(time, TimeSep)| <= 1 {
      assert !OccursAt("", TimeSep, 0);
    }
  }
}
