/** `GuardianSearch` of guardian_case_study/guardian_search.py (repeated
    unchanged in guardian_case_study/experiment.py): one search over a date
    range, its page-by-page aggregation into a sparse (day, section) count
    dictionary, and the dense date-by-section frame filled from it.

    The network is the parameter `fetch`: the response object the server
    gives for a request URL.  Calendar days are the parameter `dayOf`: the day
    number pandas reads from a date text. */
module Search {
  import opened Tally
  import opened Query
  import opened Aggregation
  import opened Frames
  import opened Views

  /** The value the cell of (`day`, `section`) holds after the dictionary
      entries `keys` have been assigned, in that order, into a zero frame:
      the count of the last entry that lands on that cell, 0 if none does. */
  function Written(dict: map<Key, int>, keys: seq<Key>, dayOf: string -> int, day: int, section: string): int
    requires forall k | k in keys :: k in dict
  {
    if keys == [] then 0
    else
      var k := keys[|keys| - 1];
      if dayOf(k.0) == day && k.1 == section then dict[k]
      else Written(dict, keys[..|keys| - 1], dayOf, day, section)
  }

  /** An entry list in which entry `m` alone lands on the cell leaves that entry's count there. */
  lemma {:induction false} WrittenHit(dict: map<Key, int>, keys: seq<Key>, dayOf: string -> int,
                                      day: int, section: string, m: nat)
    requires forall k | k in keys :: k in dict
    requires m < |keys| && dayOf(keys[m].0) == day && keys[m].1 == section
    requires forall m' | 0 <= m' < |keys| && dayOf(keys[m'].0) == day && keys[m'].1 == section :: m' == m
    ensures Written(dict, keys, dayOf, day, section) == dict[keys[m]]
  {
    if m < |keys| - 1 {
      var init := keys[..|keys| - 1];
      WrittenHit(dict, init, dayOf, day, section, m);
    }
  }

  /** An entry list none of whose entries lands on the cell leaves it zero. */
  lemma {:induction false} WrittenMiss(dict: map<Key, int>, keys: seq<Key>, dayOf: string -> int,
                                       day: int, section: string)
    requires forall k | k in keys :: k in dict
    requires forall m | 0 <= m < |keys| :: !(dayOf(keys[m].0) == day && keys[m].1 == section)
    ensures Written(dict, keys, dayOf, day, section) == 0
  {
    if keys != [] {
      WrittenMiss(dict, keys[..|keys| - 1], dayOf, day, section);
    }
  }

  /** Every key of the tally is the key of some result. */
  lemma {:induction false} TallyWitness(dict: map<Key, int>, arts: seq<Article>, k: Key) returns (a: Article)
    requires IsTally(dict, arts) && k in dict
    ensures a in arts && KeyOf(a) == k
  {
    assert k in KeysOf(arts);
    var i :| 0 <= i < |arts| && KeysOf(arts)[i] == k;
    a := arts[i];
  }

  /** If some result falls on the cell, some entry of the tally lands on it. */
  lemma {:induction false} CountedCellHasEntry(dict: map<Key, int>, keys: seq<Key>, arts: seq<Article>,
                                               dayOf: string -> int, day: int, section: string)
    requires IsTally(dict, arts)
    requires forall k :: k in keys <==> k in dict
    ensures CountAt(arts, dayOf, day, section) > 0 ==>
      exists m | 0 <= m < |keys| :: dayOf(keys[m].0) == day && keys[m].1 == section
  {
    OccPositive(CellsOf(arts, dayOf), (day, section));
    if CountAt(arts, dayOf, day, section) > 0 {
      var i :| 0 <= i < |arts| && CellsOf(arts, dayOf)[i] == (day, section);
      var k := KeyOf(arts[i]);
      assert KeysOf(arts)[i] == k;
      assert k in dict;
      var m :| 0 <= m < |keys| && keys[m] == k;
    }
  }

  /** Assigning every entry of the tally of `arts`, in any order, leaves each
      cell holding the number of results that fall on it, provided `dayOf`
      tells their day keys apart. */
  lemma {:induction false} WrittenIsCount(dict: map<Key, int>, keys: seq<Key>, arts: seq<Article>,
                                          dayOf: string -> int, day: int, section: string)
    requires IsTally(dict, arts)
    requires Distinct(keys) && forall k :: k in keys <==> k in dict
    requires DaysDistinct(arts, dayOf)
    ensures Written(dict, keys, dayOf, day, section) == CountAt(arts, dayOf, day, section)
  {
    if m :| 0 <= m < |keys| && dayOf(keys[m].0) == day && keys[m].1 == section {
      var k := keys[m];
      var a := TallyWitness(dict, arts, k);
      forall m' | 0 <= m' < |keys| && dayOf(keys[m'].0) == day && keys[m'].1 == section
        ensures m' == m
      {
        var b := TallyWitness(dict, arts, keys[m']);
        assert keys[m'] == k;
      }
      forall a' | a' in arts && dayOf(DayKey(a'.webPublicationDate)) == dayOf(k.0)
        ensures DayKey(a'.webPublicationDate) == k.0
      {
      }
      WrittenHit(dict, keys, dayOf, day, section, m);
      CountAtIsCountOf(arts, dayOf, k);
    } else {
      WrittenMiss(dict, keys, dayOf, day, section);
      CountedCellHasEntry(dict, keys, arts, dayOf, day, section);
    }
  }

  /** Row `day` of a filled frame: for each column, the number of results of
      that day and section. */
  function CountRow(arts: seq<Article>, dayOf: string -> int, day: int, columns: seq<string>): (r: DayRow)
    ensures r.day == day && |r.counts| == |columns|
    ensures forall j | 0 <= j < |columns| :: r.counts[j] == CountAt(arts, dayOf, day, columns[j])
  {
    DayRow(day, seq(|columns|, j requires 0 <= j < |columns| => CountAt(arts, dayOf, day, columns[j])))
  }

  /** The rows of the frame `get_article_section_df` returns, as values. */
  function CountTable(arts: seq<Article>, dayOf: string -> int, fromDay: int, toDay: int,
                      columns: seq<string>): (t: seq<DayRow>)
    ensures |t| == DayCount(fromDay, toDay)
    ensures forall i | 0 <= i < |t| :: t[i] == CountRow(arts, dayOf, fromDay + i, columns)
    ensures Rectangular(t, |columns|) && Chronological(t)
  {
    seq(DayCount(fromDay, toDay), i requires 0 <= i < DayCount(fromDay, toDay) =>
      CountRow(arts, dayOf, fromDay + i, columns))
  }

  /** When every result's day lies in the range and its section is a column,
      the cells of the filled frame add up to the number of results: each
      result is counted once, in exactly one cell. */
  lemma {:induction false} CountTableTotal(arts: seq<Article>, dayOf: string -> int, fromDay: int, toDay: int,
                                           columns: seq<string>)
    requires InRange(arts, dayOf, fromDay, toDay)
    requires forall a | a in arts :: a.sectionName in columns
    requires Distinct(columns)
    ensures TotalNumber(CountTable(arts, dayOf, fromDay, toDay, columns)) == |arts|
  {
    if arts == [] {
      CountTableEmpty(dayOf, fromDay, toDay, columns);
    } else {
      var init, a := arts[..|arts| - 1], arts[|arts| - 1];
      assert a in arts;
      var cell := CellOf(a, dayOf);
      var i, j := cell.0 - fromDay, ColumnOf(columns, cell.1);
      var before := CountTable(init, dayOf, fromDay, toDay, columns);
      CountTableTotal(init, dayOf, fromDay, toDay, columns);
      CountTableLast(arts, dayOf, fromDay, toDay, columns);
      CellIncrementTotal(before, i, j);
    }
  }

  /** With no results every cell is zero. */
  lemma {:induction false} CountTableEmpty(dayOf: string -> int, fromDay: int, toDay: int, columns: seq<string>)
    ensures TotalNumber(CountTable([], dayOf, fromDay, toDay, columns)) == 0
  {
    var t := CountTable([], dayOf, fromDay, toDay, columns);
    forall i | 0 <= i < |t|
      ensures Sum(t[i].counts) == 0
    {
      ZeroSum(t[i].counts);
    }
    ZeroSum(RowSums(t));
  }

  /** Counting the last result, whose day is in the range and whose section
      is a column, increments exactly its own cell of the table. */
  lemma {:induction false} CountTableLast(arts: seq<Article>, dayOf: string -> int, fromDay: int, toDay: int, columns: seq<string>)
    requires arts != []
    requires fromDay <= CellOf(arts[|arts| - 1], dayOf).0 <= toDay && arts[|arts| - 1].sectionName in columns
    requires Distinct(columns)
    ensures var cell := CellOf(arts[|arts| - 1], dayOf);
      CountTable(arts, dayOf, fromDay, toDay, columns)
        == CellIncrement(CountTable(arts[..|arts| - 1], dayOf, fromDay, toDay, columns),
                         cell.0 - fromDay, ColumnOf(columns, cell.1))
  {
    var t := CountTable(arts, dayOf, fromDay, toDay, columns);
    var before := CountTable(arts[..|arts| - 1], dayOf, fromDay, toDay, columns);
    var cell := CellOf(arts[|arts| - 1], dayOf);
    var i, j := cell.0 - fromDay, ColumnOf(columns, cell.1);
    var u := CellIncrement(before, i, j);
    forall i' | 0 <= i' < |t|
      ensures t[i'] == u[i']
    {
      assert t[i'] == CountRow(arts, dayOf, fromDay + i', columns);
      assert before[i'] == CountRow(arts[..|arts| - 1], dayOf, fromDay + i', columns);
      CountRowLast(arts, dayOf, fromDay + i', columns, before[i'], cell, j);
      if i' == i {
        assert u[i'] == DayRow(before[i'].day, before[i'].counts[j := before[i'].counts[j] + 1]);
      } else {
        assert u[i'] == before[i'];
      }
    }
  }

  /** Counting the last result changes the row of its day only, and there
      only the count of its section, by one. */
  lemma {:induction false} CountRowLast(arts: seq<Article>, dayOf: string -> int, day: int, columns: seq<string>,
                     before: DayRow, cell: (int, string), j: nat)
    requires arts != [] && Distinct(columns)
    requires before == CountRow(arts[..|arts| - 1], dayOf, day, columns)
    requires cell == CellOf(arts[|arts| - 1], dayOf)
    requires j < |columns| && columns[j] == cell.1
    ensures CountRow(arts, dayOf, day, columns)
      == if day == cell.0 then DayRow(day, before.counts[j := before.counts[j] + 1]) else before
  {
    forall j' | 0 <= j' < |columns|
    {
      CountAtLast(arts, dayOf, day, columns[j']);
    }
  }

  /** A frame whose every cell holds its count holds the count table. */
  lemma {:induction false} FilledTable(df: Frame, arts: seq<Article>, dayOf: string -> int)
    requires df.Valid()
    requires forall i, j | 0 <= i < df.cells.Length0 && 0 <= j < df.cells.Length1 ::
      df.cells[i, j] == CountAt(arts, dayOf, df.fromDay + i, df.columns[j])
    ensures df.Table() == CountTable(arts, dayOf, df.fromDay, df.toDay, df.columns)
  {
    var t := df.Table();
    var c := CountTable(arts, dayOf, df.fromDay, df.toDay, df.columns);
    forall i | 0 <= i < |t|
      ensures t[i] == c[i]
    {
      assert t[i].counts == c[i].counts;
    }
  }

  /** The assignment loop of `get_article_section_df`: writes the count of
      every entry of `keys` into the cell of its day and section, in order.
      Each cell ends up as `Written` says: the count of the last entry landing
      on it, or what it held before (zero) when none does. */
  method WriteAll(df: Frame, dict: map<Key, int>, keys: seq<Key>, dayOf: string -> int)
    requires df.Valid()
    requires forall k | k in keys :: k in dict && df.fromDay <= dayOf(k.0) <= df.toDay && k.1 in df.columns
    requires forall i, j | 0 <= i < df.cells.Length0 && 0 <= j < df.cells.Length1 :: df.cells[i, j] == 0
    modifies df.cells
    ensures forall i, j | 0 <= i < df.cells.Length0 && 0 <= j < df.cells.Length1 ::
      df.cells[i, j] == Written(dict, keys, dayOf, df.fromDay + i, df.columns[j])
  {
    for n := 0 to |keys|
      invariant forall i, j | 0 <= i < df.cells.Length0 && 0 <= j < df.cells.Length1 ::
        df.cells[i, j] == Written(dict, keys[..n], dayOf, df.fromDay + i, df.columns[j])
    {
      var k := keys[n];
      df.SetAt(dayOf(k.0), k.1, dict[k]);
      assert keys[..n + 1][..n] == keys[..n];
    }
    assert keys[..|keys|] == keys;
  }

  class GuardianSearch {
    const searchTerms: seq<string>
    const fromDate: string
    const toDate: string

    constructor (searchTerms: seq<string>, fromDate: string, toDate: string)
      ensures this.searchTerms == searchTerms && this.fromDate == fromDate && this.toDate == toDate
    {
      this.searchTerms := searchTerms;
      this.fromDate := fromDate;
      this.toDate := toDate;
    }

    /** `get_search_url(page)`. */
    function GetSearchUrl(page: int): string
    {
      SearchUrl(searchTerms, fromDate, toDate, page)
    }

    /** `get_response(page)`: the response object the server gives for the page's URL. */
    function GetResponse(fetch: string -> Response, page: int): Response
    {
      fetch(GetSearchUrl(page))
    }

    /** `count_pages()`: the page count that page 1 declares. */
    function CountPages(fetch: string -> Response): int
    {
      GetResponse(fetch, 1).pages
    }

    /** The responses of the pages the aggregation visits, in the order it
        visits them: pages 1, 2, ... up to the count page 1 declares. */
    ghost function Visited(fetch: string -> Response): (rs: seq<Response>)
      ensures |rs| == PageLimit(CountPages(fetch))
      ensures forall i | 0 <= i < |rs| :: rs[i] == GetResponse(fetch, i + 1)
    {
      seq(PageLimit(CountPages(fetch)), i requires 0 <= i => GetResponse(fetch, i + 1))
    }

    /** The results the aggregation counts: those of the visited "ok" pages. */
    ghost function Articles(fetch: string -> Response): seq<Article>
    {
      OkResults(Visited(fetch))
    }

    /** `get_date_section_dict()`: visits pages 1 to `count_pages()`, passes
        over any page whose status is not "ok", and for every result of the
        other pages adds its section to the set and counts it under its
        (day key, section).  The dictionary holds exactly the keys some
        counted result carries, each with its number of results (so at least
        one); the section list holds every section of a counted result once. */
    method GetDateSectionDict(fetch: string -> Response) returns (dict: map<Key, int>, sections: seq<string>)
      ensures IsTally(dict, Articles(fetch))
      ensures forall k | k in dict :: dict[k] >= 1
      ensures Distinct(sections)
      ensures forall s :: s in sections <==> s in SectionsOf(Articles(fetch))
      ensures forall k | k in dict :: k.1 in sections
    {
      dict := map[];
      var found: set<string> := {};
      var pages := CountPages(fetch);
      ghost var visited := Visited(fetch);
      ghost var seen: seq<Article> := [];
      var page := 1;
      while page <= pages
        invariant 1 <= page <= PageLimit(pages) + 1
        invariant seen == OkResults(visited[..page - 1])
        invariant IsTally(dict, seen) && found == SectionsOf(seen)
      {
        var response := GetResponse(fetch, page);
        ghost var before := seen;
        if response.status == "ok" {
          var results := response.results;
          for i := 0 to |results|
            invariant seen == before + results[..i]
            invariant IsTally(dict, seen) && found == SectionsOf(seen)
          {
            var section := results[i].sectionName;
            found := found + {section};
            var postDay := DayKey(results[i].webPublicationDate);
            ghost var prev := dict;
            if (postDay, section) in dict && dict[(postDay, section)] != 0 {
              dict := dict[(postDay, section) := dict[(postDay, section)] + 1];
            } else {
              dict := dict[(postDay, section) := 1];
            }
            TallyStep(prev, seen, results[i]);
            SectionsStep(seen, results[i]);
            PrefixSnoc(before, results, i);
            seen := seen + [results[i]];
          }
          assert results[..|results|] == results;
        }
        TakeSnoc(visited, page - 1);
        OkResultsSnoc(visited[..page - 1], visited[page - 1]);
        page := page + 1;
      }
      assert visited[..page - 1] == visited;
      TallyAtLeastOne(dict, seen);
      TallySections(dict, seen);
      sections := ListOf(found);
    }

    /** `initialize_zero_df(sections)`: a zero frame with one row per day from
        `from_date` to `to_date` and one column per section. */
    method InitializeZeroDf(sections: seq<string>, dayOf: string -> int) returns (df: Frame)
      requires Distinct(sections)
      ensures fresh(df) && fresh(df.cells) && df.Valid()
      ensures df.fromDay == dayOf(fromDate) && df.toDay == dayOf(toDate) && df.columns == sections
      ensures forall i, j | 0 <= i < df.cells.Length0 && 0 <= j < df.cells.Length1 :: df.cells[i, j] == 0
    {
      df := new Frame.Zero(dayOf(fromDate), dayOf(toDate), sections);
    }

    /** `get_article_section_df()`: the zero frame over the discovered
        sections with each dictionary entry assigned into its cell.  Every
        cell ends up holding the number of counted results of its day and
        section (0 where there are none), and the columns are exactly the
        sections of the counted results.  Requires every counted day to lie in
        the range (pandas would otherwise add rows) and `dayOf` to tell the
        counted day keys apart. */
    method GetArticleSectionDf(fetch: string -> Response, dayOf: string -> int) returns (df: Frame)
      requires InRange(Articles(fetch), dayOf, dayOf(fromDate), dayOf(toDate))
      requires DaysDistinct(Articles(fetch), dayOf)
      ensures fresh(df) && fresh(df.cells) && df.Valid()
      ensures df.fromDay == dayOf(fromDate) && df.toDay == dayOf(toDate)
      ensures forall s :: s in df.columns <==> s in SectionsOf(Articles(fetch))
      ensures forall i, j | 0 <= i < df.cells.Length0 && 0 <= j < df.cells.Length1 ::
        df.cells[i, j] == CountAt(Articles(fetch), dayOf, df.fromDay + i, df.columns[j])
      ensures df.Table() == CountTable(Articles(fetch), dayOf, df.fromDay, df.toDay, df.columns)
      ensures TotalNumber(df.Table()) == |Articles(fetch)|
    {
      ghost var arts := Articles(fetch);
      var dict, sections := GetDateSectionDict(fetch);
      df := InitializeZeroDf(sections, dayOf);
      forall k | k in dict
        ensures df.fromDay <= dayOf(k.0) <= df.toDay && k.1 in df.columns
      {
        var a := TallyWitness(dict, arts, k);
      }
      var keys := ListOf(dict.Keys);
      WriteAll(df, dict, keys, dayOf);
      forall day, section
        ensures Written(dict, keys, dayOf, day, section) == CountAt(arts, dayOf, day, section)
      {
        WrittenIsCount(dict, keys, arts, dayOf, day, section);
      }
      FilledTable(df, arts, dayOf);
      CountTableTotal(arts, dayOf, df.fromDay, df.toDay, df.columns);
    }
  }
}
