/**
 * The editable routine table: a list of rows that the handlers copy, change
 * in place and hand back through `onDataChange`.  The table starts with the
 * given rows or one empty row, and never drops to zero rows.
 */
module RoutineTable {
  import opened Wrappers
  import opened Text
  import opened Routine

  /** Which half of a row's time an edit writes. */
  datatype TimeEnd = Start | End

  /** The initial state: the given rows, or one row with time "" and no classes. */
  function InitialRows(initialData: seq<Row>): (r: seq<Row>)
    ensures |r| >= 1
    ensures |initialData| > 0 ==> r == initialData
    ensures |initialData| == 0 ==> |r| == 1 && r[0].time == "" && forall d :: r[0].Get(d) == None
  {
    if |initialData| > 0 then initialData else [EmptyRow("")]
  }

  /**
   * The time text after editing one half: the new half, " - ", and the
   * other half as it was ('' when the old time had no end half).
   */
  function EditedTime(time: string, which: TimeEnd, value: string): (t: string)
    ensures which == Start ==> t == value + TimeSep + EndHalf(time)
    ensures which == End ==> t == StartHalf(time) + TimeSep + value
  {
    match which
    case Start => value + TimeSep + EndHalf(time)
    case End => StartHalf(time) + TimeSep + value
  }

  /** After a start edit with a value free of '-', the start input shows the value and the end input is unchanged. */
  lemma StartEditReadBack(time: string, value: string)
    requires NoDash(value)
    ensures StartHalf(EditedTime(time, Start, value)) == value
    ensures EndHalf(EditedTime(time, Start, value)) == EndHalf(time)
  {
    EndHalfHasNoSeparator(time);
    JoinedHalves(value, EndHalf(time));
  }

  /**
   * Lacking " - " is not enough for the start to read back: a value ending
   * in " -" joins the separator into an earlier " - ", and the start input
   * then shows a shorter text.
   */
  lemma StartEditDashValue(time: string, value: string)
    requires |value| >= 2 && value[|value| - 2..] == " -"
    ensures |StartHalf(EditedTime(time, Start, value))| < |value|
  {
    var s := value + TimeSep + EndHalf(time);
    var k := |value| - 2;
    assert s[k..k + 3] == TimeSep by {
      assert s[k] == value[|value| - 2..][0];
      assert s[k + 1] == value[|value| - 2..][1];
      assert s[k + 2] == TimeSep[0];
    }
    assert OccursAt(s, TimeSep, k);
    var i := IndexOf(s, TimeSep).value;
    assert Split(s, TimeSep)[0] == s[..i];
  }

  /** After an end edit, the end input shows the value and the start input is unchanged. */
  lemma EndEditReadBack(time: string, value: string)
    requires NoDash(StartHalf(time)) && !Contains(value, TimeSep)
    ensures StartHalf(EditedTime(time, End, value)) == StartHalf(time)
    ensures EndHalf(EditedTime(time, End, value)) == value
  {
    JoinedHalves(StartHalf(time), value);
  }

  /** `rows.filter((_, i) => i !== index)`: drops the row at `index`, if there is one. */
  function WithoutIndex(rows: seq<Row>, index: int): (r: seq<Row>)
    ensures 0 <= index < |rows| ==> |r| == |rows| - 1
    ensures 0 <= index < |rows| ==> forall i :: 0 <= i < |r| ==> r[i] == rows[if i < index then i else i + 1]
    ensures !(0 <= index < |rows|) ==> r == rows
  {
    if 0 <= index < |rows| then rows[..index] + rows[index + 1..] else rows
  }

  /** The table component's state and the lists it has reported. */
  class Table {
    /** `routineData`. */
    var rows: seq<Row>
    /** Every list passed to `onDataChange`, oldest first. */
    var reported: seq<seq<Row>>

    predicate Valid()
      reads this
    {
      |rows| >= 1
    }

    constructor (initialData: seq<Row>)
      ensures Valid()
      ensures rows == InitialRows(initialData) && reported == []
    {
      rows := InitialRows(initialData);
      reported := [];
    }

    /** `handleClassChange`: one field of one day's cell in one row. */
    method ClassChange(rowIndex: nat, day: Day, field: CellField, value: string)
      requires Valid() && rowIndex < |rows|
      modifies this
      ensures Valid() && |rows| == |old(rows)|
      ensures rows[rowIndex] == old(rows)[rowIndex].With(day, Some(EditCell(old(rows)[rowIndex].Get(day), field, value)))
      ensures forall i :: 0 <= i < |rows| && i != rowIndex ==> rows[i] == old(rows)[i]
      ensures reported == old(reported) + [rows]
    {
      var newData := rows;
      var currentValue := newData[rowIndex].Get(day);
      newData := newData[rowIndex := newData[rowIndex].With(day, Some(EditCell(currentValue, field, value)))];
      rows := newData;
      reported := reported + [newData];
    }

    /** `handleTimeChange`: one half of one row's time. */
    method TimeChange(rowIndex: nat, which: TimeEnd, value: string)
      requires Valid() && rowIndex < |rows|
      modifies this
      ensures Valid() && |rows| == |old(rows)|
      ensures rows[rowIndex] == old(rows)[rowIndex].(time := EditedTime(old(rows)[rowIndex].time, which, value))
      ensures forall i :: 0 <= i < |rows| && i != rowIndex ==> rows[i] == old(rows)[i]
      ensures reported == old(reported) + [rows]
    {
      var newData := rows;
      var currentTimeParts := Split(newData[rowIndex].time, TimeSep);
      var time: string;
      if which == Start {
        time := value + " - " + (if |currentTimeParts| > 1 then currentTimeParts[1] else "");
      } else {
        time := currentTimeParts[0] + " - " + value;
      }
      newData := newData[rowIndex := newData[rowIndex].(time := time)];
      rows := newData;
      reported := reported + [newData];
    }

    /** `addTimeSlot`: one empty row at the end. */
    method AddTimeSlot()
      requires Valid()
      modifies this
      ensures Valid()
      ensures rows == old(rows) + [EmptyRow("")]
      ensures reported == old(reported) + [rows]
    {
      rows := rows + [EmptyRow("")];
      reported := reported + [rows];
    }

    /** `removeTimeSlot`: drops a row, but only while more than one is left. */
    method RemoveTimeSlot(index: int)
      requires Valid()
      modifies this
      ensures Valid()
      ensures |old(rows)| > 1 ==> rows == WithoutIndex(old(rows), index) && reported == old(reported) + [rows]
      ensures |old(rows)| <= 1 ==> rows == old(rows) && reported == old(reported)
    {
      if |rows| > 1 {
        var newData := WithoutIndex(rows, index);
        rows := newData;
        reported := reported + [newData];
      }
    }
  }
}
