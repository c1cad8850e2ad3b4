/** The date-indexed count matrix (a pandas DataFrame in the source): one row
    per calendar day of an inclusive range, one column per section, cells
    written in place.  Days are day numbers; row `i` is day `fromDay + i`. */
module Frames {
  import opened Tally

  /** The number of days `pd.date_range(start, end, freq="D")` holds: none
      when the range is empty. */
  function DayCount(fromDay: int, toDay: int): nat
  {
    if toDay < fromDay then 0 else toDay - fromDay + 1
  }

  /** `pd.date_range(start, end, freq="D")` over day numbers. */
  function DateRange(fromDay: int, toDay: int): seq<int>
  {
    seq(DayCount(fromDay, toDay), i requires 0 <= i < DayCount(fromDay, toDay) => fromDay + i)
  }

  /** The index holds every day of the range exactly once, in chronological order, and nothing else. */
  lemma {:induction false} DateRangeExact(fromDay: int, toDay: int)
    ensures forall d :: d in DateRange(fromDay, toDay) <==> fromDay <= d <= toDay
    ensures forall i, j | 0 <= i < j < |DateRange(fromDay, toDay)| ::
      DateRange(fromDay, toDay)[i] < DateRange(fromDay, toDay)[j]
  {
    var r := DateRange(fromDay, toDay);
    forall d | fromDay <= d <= toDay
      ensures d in r
    {
      assert r[d - fromDay] == d;
    }
  }

  /** One row of a frame taken as a value: its day and its cells left to right. */
  datatype DayRow = DayRow(day: int, counts: seq<int>)

  /** The position of column `name` (pandas' label lookup). */
  function ColumnOf(columns: seq<string>, name: string): (j: nat)
    requires name in columns
    ensures j < |columns| && columns[j] == name
    ensures forall i | 0 <= i < j :: columns[i] != name
  {
    if columns[0] == name then 0 else 1 + ColumnOf(columns[1..], name)
  }

  class Frame {
    /** The first and last day of the index. */
    const fromDay: int
    const toDay: int
    /** The column labels: the sections. */
    const columns: seq<string>
    /** `cells[i, j]` is the cell of day `fromDay + i` and column `columns[j]`. */
    const cells: array2<int>

    ghost predicate Valid()
      reads this
    {
      cells.Length0 == DayCount(fromDay, toDay) && cells.Length1 == |columns| && Distinct(columns)
    }

    /** `initialize_zero_df`: one zero row per day of the range and one
        column per section, filled column by column; with no sections the
        frame still has every row. */
    constructor Zero(fromDay: int, toDay: int, sections: seq<string>)
      requires Distinct(sections)
      ensures Valid() && fresh(cells)
      ensures this.fromDay == fromDay && this.toDay == toDay && columns == sections
      ensures forall i, j | 0 <= i < cells.Length0 && 0 <= j < cells.Length1 :: cells[i, j] == 0
    {
      this.fromDay := fromDay;
      this.toDay := toDay;
      columns := sections;
      var rows := DayCount(fromDay, toDay);
      cells := new int[rows, |sections|];
      new;
      for j := 0 to |sections|
        invariant forall i, j' | 0 <= i < rows && 0 <= j' < j :: cells[i, j'] == 0
      {
        for i := 0 to rows
          invariant forall i', j' | 0 <= i' < rows && 0 <= j' < j :: cells[i', j'] == 0
          invariant forall i' | 0 <= i' < i :: cells[i', j] == 0
        {
          cells[i, j] := 0;
        }
      }
    }

    /** `df.at[day, section] = value`: assigns one cell and leaves every other cell as it was. */
    method SetAt(day: int, section: string, value: int)
      requires Valid() && fromDay <= day <= toDay && section in columns
      modifies cells
      ensures forall i, j | 0 <= i < cells.Length0 && 0 <= j < cells.Length1 ::
        cells[i, j] == if i == day - fromDay && columns[j] == section then value else old(cells[i, j])
    {
      cells[day - fromDay, ColumnOf(columns, section)] := value;
    }

    /** The frame as a value (`df.copy()`): row `i` is day `fromDay + i` with its cells. */
    function Table(): (t: seq<DayRow>)
      reads this, cells
      requires Valid()
      ensures |t| == cells.Length0
      ensures forall i | 0 <= i < |t| :: t[i].day == fromDay + i && |t[i].counts| == |columns|
      ensures forall i, j | 0 <= i < |t| && 0 <= j < |columns| :: t[i].counts[j] == cells[i, j]
    {
      seq(cells.Length0, i requires 0 <= i < cells.Length0 reads cells =>
        DayRow(fromDay + i, seq(cells.Length1, j requires 0 <= j < cells.Length1 reads cells => cells[i, j])))
    }
  }
}
