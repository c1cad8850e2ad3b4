/** The views guardian_case_study/experiment.py and the `main` of
    guardian_case_study/guardian_search.py derive from a date-by-section count
    frame: the daily totals, the grand total, the per-section totals, and the
    filters that keep the days whose total is far from the mean.

    The views of experiment.py work on a copy of the frame, so each is a
    function of the frame's rows taken as a value (`Frame.Table()`).  `main`
    in guardian_search.py instead adds the `total` column to the frame itself
    before filtering; the model gives the same kept rows by appending
    `WithTotal` to each row it keeps. */
module Views {
  import opened Tally
  import opened Frames

  /** Every row has exactly `width` cells. */
  predicate Rectangular(t: seq<DayRow>, width: nat)
  {
    forall i | 0 <= i < |t| :: |t[i].counts| == width
  }

  /** `df.sum(axis=1)`: each row's total over its sections. */
  function RowSums(t: seq<DayRow>): (s: seq<int>)
    ensures |s| == |t|
    ensures forall i | 0 <= i < |t| :: s[i] == Sum(t[i].counts)
  {
    seq(|t|, i requires 0 <= i < |t| => Sum(t[i].counts))
  }

  /** The series `generate_articles_csv` writes: one (day, total) entry per
      row, indexed by the row's day. */
  function DailyTotals(t: seq<DayRow>): (s: seq<(int, int)>)
  {
    seq(|t|, i requires 0 <= i < |t| => (t[i].day, Sum(t[i].counts)))
  }

  /** `total_number(df)`: the sum of the daily totals. */
  function TotalNumber(t: seq<DayRow>): int
  {
    Sum(RowSums(t))
  }

  /** Appending rows adds their totals. */
  lemma {:induction false} TotalNumberAppend(a: seq<DayRow>, b: seq<DayRow>)
    ensures TotalNumber(a + b) == TotalNumber(a) + TotalNumber(b)
  {
    assert RowSums(a + b) == RowSums(a) + RowSums(b);
    SumAppend(RowSums(a), RowSums(b));
  }

  /** The daily series has one entry per row, in row order, carrying the row's
      day, and its totals add up to the grand total. */
  lemma {:induction false} DailyTotalsMatchRows(t: seq<DayRow>)
    ensures |DailyTotals(t)| == |t|
    ensures forall i | 0 <= i < |t| :: DailyTotals(t)[i].0 == t[i].day
    ensures Sum(seq(|t|, i requires 0 <= i < |t| => DailyTotals(t)[i].1)) == TotalNumber(t)
  {
    assert seq(|t|, i requires 0 <= i < |t| => DailyTotals(t)[i].1) == RowSums(t);
  }

  /** Column `j` of the rows, top to bottom. */
  function Column(t: seq<DayRow>, j: nat): (c: seq<int>)
    requires forall i | 0 <= i < |t| :: j < |t[i].counts|
    ensures |c| == |t|
  {
    seq(|t|, i requires 0 <= i < |t| && j < |t[i].counts| => t[i].counts[j])
  }

  /** `df.sum(axis=0)` over a frame `width` columns wide. */
  function ColumnSums(t: seq<DayRow>, width: nat): (s: seq<int>)
    requires Rectangular(t, width)
    ensures |s| == width
  {
    seq(width, j requires 0 <= j < width => Sum(Column(t, j)))
  }

  /** Pointwise addition of two sequences of equal length. */
  function Add(a: seq<int>, b: seq<int>): (s: seq<int>)
    requires |a| == |b|
    ensures |s| == |a|
  {
    seq(|a|, i requires 0 <= i < |a| => a[i] + b[i])
  }

  lemma {:induction false} SumAdd(a: seq<int>, b: seq<int>)
    requires |a| == |b|
    ensures Sum(Add(a, b)) == Sum(a) + Sum(b)
  {
    if a != [] {
      var n := |a| - 1;
      SumAdd(a[..n], b[..n]);
      assert Add(a, b)[..n] == Add(a[..n], b[..n]);
    }
  }

  /** One more row adds its cells to the column totals. */
  lemma {:induction false} ColumnSumsSnoc(t: seq<DayRow>, r: DayRow, width: nat)
    requires Rectangular(t, width) && |r.counts| == width
    ensures Rectangular(t + [r], width)
    ensures ColumnSums(t + [r], width) == Add(ColumnSums(t, width), r.counts)
  {
    var u := t + [r];
    forall j | 0 <= j < width
      ensures ColumnSums(u, width)[j] == ColumnSums(t, width)[j] + r.counts[j]
    {
      assert Column(u, j)[..|t|] == Column(t, j);
    }
  }

  /** Adding up the column totals gives the same grand total as adding up the
      row totals. */
  lemma {:induction false} ColumnTotalIsTotalNumber(t: seq<DayRow>, width: nat)
    requires Rectangular(t, width)
    ensures Sum(ColumnSums(t, width)) == TotalNumber(t)
  {
    if t == [] {
      forall j | 0 <= j < width
        ensures ColumnSums(t, width)[j] == 0
      {
      }
      ZeroSum(ColumnSums(t, width));
    } else {
      var n := |t| - 1;
      var u, r := t[..n], t[n];
      assert t == u + [r];
      ColumnTotalIsTotalNumber(u, width);
      ColumnSumsSnoc(u, r, width);
      SumAdd(ColumnSums(u, width), r.counts);
      TotalNumberSnoc(u, r);
    }
  }

  /** One more row adds its total to the grand total. */
  lemma {:induction false} TotalNumberSnoc(t: seq<DayRow>, r: DayRow)
    ensures TotalNumber(t + [r]) == TotalNumber(t) + Sum(r.counts)
  {
    TotalNumberAppend(t, [r]);
    var x := Sum(r.counts);
    assert RowSums([r]) == [x];
    assert [x][..0] == [];
    assert Sum([x]) == Sum([]) + x;
  }

  /** The frame with one more article counted in cell (`i`, `j`). */
  function CellIncrement(t: seq<DayRow>, i: nat, j: nat): (u: seq<DayRow>)
    requires i < |t| && j < |t[i].counts|
    ensures |u| == |t|
  {
    t[i := DayRow(t[i].day, t[i].counts[j := t[i].counts[j] + 1])]
  }

  /** Counting one more article in any cell adds one to `total_number`. */
  lemma {:induction false} CellIncrementTotal(t: seq<DayRow>, i: nat, j: nat)
    requires i < |t| && j < |t[i].counts|
    ensures TotalNumber(CellIncrement(t, i, j)) == TotalNumber(t) + 1
  {
    SumIncrement(t[i].counts, j);
    var s := RowSums(t);
    assert RowSums(CellIncrement(t, i, j)) == s[i := s[i] + 1];
    SumIncrement(s, i);
  }

  /** `articles_by_section_dict(df)`: each section mapped to its column's total. */
  function ArticlesBySection(t: seq<DayRow>, columns: seq<string>): (d: map<string, int>)
    requires Rectangular(t, |columns|) && Distinct(columns)
    ensures d.Keys == set c | c in columns
    ensures forall j | 0 <= j < |columns| :: columns[j] in d && d[columns[j]] == Sum(Column(t, j))
  {
    map c | c in columns :: Sum(Column(t, ColumnOf(columns, c)))
  }

  /** The per-section totals, taken in column order, add up to `total_number`. */
  lemma {:induction false} BySectionTotal(t: seq<DayRow>, columns: seq<string>)
    requires Rectangular(t, |columns|) && Distinct(columns)
    ensures var d := ArticlesBySection(t, columns);
      Sum(seq(|columns|, j requires 0 <= j < |columns| => d[columns[j]])) == TotalNumber(t)
  {
    var d := ArticlesBySection(t, columns);
    assert seq(|columns|, j requires 0 <= j < |columns| => d[columns[j]]) == ColumnSums(t, |columns|);
    ColumnTotalIsTotalNumber(t, |columns|);
  }

  /** `df["total"] = df.sum(axis=1)` on one row: its cells followed by their total. */
  function WithTotal(r: DayRow): DayRow
  {
    DayRow(r.day, r.counts + [Sum(r.counts)])
  }

  function Abs(x: real): real
  {
    if x < 0.0 then -x else x
  }

  /** The rows of `t` whose total `keep` accepts, each with its total column,
      in their original order (boolean indexing of the frame). */
  function KeepRows(t: seq<DayRow>, keep: int -> bool): (u: seq<DayRow>)
    ensures |u| <= |t|
  {
    if t == [] then []
    else
      var n := |t| - 1;
      var rest := KeepRows(t[..n], keep);
      if keep(Sum(t[n].counts)) then rest + [WithTotal(t[n])] else rest
  }

  /** A row is kept exactly when some row of the frame has an accepted total
      and the kept row is that row with its total appended. */
  lemma {:induction false} KeepRowsMembers(t: seq<DayRow>, keep: int -> bool, r: DayRow)
    ensures r in KeepRows(t, keep) <==>
      exists i | 0 <= i < |t| :: keep(Sum(t[i].counts)) && r == WithTotal(t[i])
  {
    if t != [] {
      var n := |t| - 1;
      KeepRowsMembers(t[..n], keep, r);
      if exists i | 0 <= i < |t| :: keep(Sum(t[i].counts)) && r == WithTotal(t[i]) {
        var i :| 0 <= i < |t| && keep(Sum(t[i].counts)) && r == WithTotal(t[i]);
        if i < n {
          assert t[..n][i] == t[i];
        }
      }
    }
  }

  /** When every total is accepted, every row is kept, in order. */
  lemma {:induction false} KeepRowsAll(t: seq<DayRow>, keep: int -> bool)
    requires forall i | 0 <= i < |t| :: keep(Sum(t[i].counts))
    ensures KeepRows(t, keep) == seq(|t|, i requires 0 <= i < |t| => WithTotal(t[i]))
  {
    if t != [] {
      var n := |t| - 1;
      KeepRowsAll(t[..n], keep);
    }
  }

  /** When no total is accepted, nothing is kept. */
  lemma {:induction false} KeepRowsNone(t: seq<DayRow>, keep: int -> bool)
    requires forall i | 0 <= i < |t| :: !keep(Sum(t[i].counts))
    ensures KeepRows(t, keep) == []
  {
    if t != [] {
      KeepRowsNone(t[..|t| - 1], keep);
    }
  }

  /** Days in strictly increasing order. */
  predicate Chronological(t: seq<DayRow>)
  {
    forall i, j | 0 <= i < j < |t| :: t[i].day < t[j].day
  }

  /** The kept rows stay in chronological order. */
  lemma {:induction false} KeepRowsChronological(t: seq<DayRow>, keep: int -> bool)
    requires Chronological(t)
    ensures Chronological(KeepRows(t, keep))
  {
    if t != [] {
      var n := |t| - 1;
      KeepRowsChronological(t[..n], keep);
      var rest := KeepRows(t[..n], keep);
      if keep(Sum(t[n].counts)) {
        forall r | r in rest
          ensures r.day < t[n].day
        {
          KeepRowsMembers(t[..n], keep, r);
        }
      }
    }
  }

  /** The test of `generate_unusual_events_csv`: the total lies at least three
      standard deviations from the mean. */
  predicate FarOrEqual(total: int, mean: real, std: real)
  {
    Abs(total as real - mean) >= 3.0 * std
  }

  /** The test of the special dates in `main`: strictly more than three
      standard deviations from the mean. */
  predicate Far(total: int, mean: real, std: real)
  {
    Abs(total as real - mean) > 3.0 * std
  }

  /** `generate_unusual_events_csv(df, mean, std)`: the rows, with their total
      column, whose total is at least `3 * std` from `mean`. */
  function UnusualEvents(t: seq<DayRow>, mean: real, std: real): seq<DayRow>
  {
    KeepRows(t, total => FarOrEqual(total, mean, std))
  }

  /** `special_dates` in `main`: the rows, with their total column, whose
      total is more than `3 * std` from `mean`. */
  function SpecialDates(t: seq<DayRow>, mean: real, std: real): seq<DayRow>
  {
    KeepRows(t, total => Far(total, mean, std))
  }

  /** `generate_unusual_events_csv` keeps exactly the rows at least three
      standard deviations out, each with its cells and its total. */
  lemma {:induction false} UnusualEventsExact(t: seq<DayRow>, mean: real, std: real, r: DayRow)
    ensures r in UnusualEvents(t, mean, std) <==>
      exists i | 0 <= i < |t| :: FarOrEqual(Sum(t[i].counts), mean, std) && r == WithTotal(t[i])
  {
    KeepRowsMembers(t, total => FarOrEqual(total, mean, std), r);
  }

  /** The special dates are exactly the rows more than three standard
      deviations out, each with its cells and its total. */
  lemma {:induction false} SpecialDatesExact(t: seq<DayRow>, mean: real, std: real, r: DayRow)
    ensures r in SpecialDates(t, mean, std) <==>
      exists i | 0 <= i < |t| :: Far(Sum(t[i].counts), mean, std) && r == WithTotal(t[i])
  {
    KeepRowsMembers(t, total => Far(total, mean, std), r);
  }

  /** Every special date is also an unusual event. */
  lemma {:induction false} SpecialDatesAreUnusual(t: seq<DayRow>, mean: real, std: real, r: DayRow)
    requires r in SpecialDates(t, mean, std)
    ensures r in UnusualEvents(t, mean, std)
  {
    SpecialDatesExact(t, mean, std, r);
    UnusualEventsExact(t, mean, std, r);
  }

  /** With a zero (or negative) deviation the non-strict filter keeps every row. */
  lemma {:induction false} ZeroStdKeepsAll(t: seq<DayRow>, mean: real, std: real)
    requires std <= 0.0
    ensures UnusualEvents(t, mean, std) == seq(|t|, i requires 0 <= i < |t| => WithTotal(t[i]))
  {
    KeepRowsAll(t, total => FarOrEqual(total, mean, std));
  }

  /** When every day has exactly the mean total, as when the deviation is
      zero, the strict filter keeps no row while the non-strict one with a zero
      deviation keeps them all. */
  lemma {:induction false} FlatSeriesContrast(t: seq<DayRow>, mean: real, std: real)
    requires forall i | 0 <= i < |t| :: Sum(t[i].counts) as real == mean
    requires std >= 0.0
    ensures SpecialDates(t, mean, std) == []
    ensures UnusualEvents(t, mean, 0.0) == seq(|t|, i requires 0 <= i < |t| => WithTotal(t[i]))
  {
    KeepRowsNone(t, total => Far(total, mean, std));
    ZeroStdKeepsAll(t, mean, 0.0);
  }

  /** Both filters keep the chronological order of the frame. */
  lemma {:induction false} FiltersChronological(t: seq<DayRow>, mean: real, std: real)
    requires Chronological(t)
    ensures Chronological(UnusualEvents(t, mean, std))
    ensures Chronological(SpecialDates(t, mean, std))
  {
    KeepRowsChronological(t, total => FarOrEqual(total, mean, std));
    KeepRowsChronological(t, total => Far(total, mean, std));
  }
}
