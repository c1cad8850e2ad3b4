/** guardianApiCaseStudy/simple.py: the single-term search whose `main`
    counts the results of every "ok" page into one `Occurrences` column, one
    cell per calendar day from the from-date to today.

    The network is the parameter `fetch`, today's date the parameter `today`
    (a day number), and pandas' reading of a date text the parameter `dayOf`. */
module Simple {
  import opened Tally
  import opened Query
  import opened Aggregation
  import opened Frames

  /** `get_respose(search_term, from_date, page)`: the response object the
      server gives for the page's URL. */
  function GetResponse(fetch: string -> Response, term: string, fromDate: string, page: int): Response
  {
    fetch(SimpleUrl(term, fromDate, page))
  }

  /** The responses of the pages `main` visits, in order: pages 1 to the
      `pages` count of page 1. */
  ghost function Visited(fetch: string -> Response, term: string, fromDate: string): (rs: seq<Response>)
    ensures |rs| == PageLimit(GetResponse(fetch, term, fromDate, 1).pages)
    ensures forall i | 0 <= i < |rs| :: rs[i] == GetResponse(fetch, term, fromDate, i + 1)
  {
    seq(PageLimit(GetResponse(fetch, term, fromDate, 1).pages), i requires 0 <= i =>
      GetResponse(fetch, term, fromDate, i + 1))
  }

  /** The results `main` counts: those of the visited "ok" pages. */
  ghost function Articles(fetch: string -> Response, term: string, fromDate: string): seq<Article>
  {
    OkResults(Visited(fetch, term, fromDate))
  }

  /** The day number of each result, in order. */
  function DaysOf(arts: seq<Article>, dayOf: string -> int): (ds: seq<int>)
    ensures |ds| == |arts|
    ensures forall i | 0 <= i < |arts| :: ds[i] == dayOf(DayKey(arts[i].webPublicationDate))
  {
    seq(|arts|, i requires 0 <= i < |arts| => dayOf(DayKey(arts[i].webPublicationDate)))
  }

  /** `main`: a zero `Occurrences` cell for each day from `from_date` to
      `today`, then, over pages 1 to the page count of page 1, skipping any
      page whose status is not "ok", one added to the cell of each result's
      day.  Cell `i` (day `dayOf(fromDate) + i`) ends up holding the number of
      counted results of that day, and the cells add up to the number of
      counted results.  Every counted day must lie in the range: pandas
      raises on a missing label. */
  method CountOccurrences(fetch: string -> Response, term: string, fromDate: string, today: int,
                          dayOf: string -> int) returns (occurrences: array<int>)
    requires InRange(Articles(fetch, term, fromDate), dayOf, dayOf(fromDate), today)
    ensures fresh(occurrences) && occurrences.Length == DayCount(dayOf(fromDate), today)
    ensures occurrences[..] == DaySeries(DaysOf(Articles(fetch, term, fromDate), dayOf), dayOf(fromDate), today)
    ensures forall i | 0 <= i < occurrences.Length :: occurrences[i] >= 0
    ensures Sum(occurrences[..]) == |Articles(fetch, term, fromDate)|
  {
    var fromDay := dayOf(fromDate);
    occurrences := new int[DayCount(fromDay, today)](i => 0);
    NoDaysSeries(occurrences[..], fromDay, today);
    assert DaysOf([], dayOf) == [];
    var pages := GetResponse(fetch, term, fromDate, 1).pages;
    ghost var visited := Visited(fetch, term, fromDate);
    ghost var seen: seq<Article> := [];
    var page := 1;
    while page <= pages
      invariant 1 <= page <= PageLimit(pages) + 1
      invariant seen == OkResults(visited[..page - 1])
      invariant occurrences[..] == DaySeries(DaysOf(seen, dayOf), fromDay, today)
    {
      var response := GetResponse(fetch, term, fromDate, page);
      assert visited[page - 1] == response;
      if response.status == "ok" {
        var results := response.results;
        OkPageInRange(visited, page - 1, dayOf, fromDay, today);
        CountResults(occurrences, results, dayOf, fromDay, today, seen);
        seen := seen + results;
      }
      TakeSnoc(visited, page - 1);
      OkResultsSnoc(visited[..page - 1], visited[page - 1]);
      page := page + 1;
    }
    assert visited[..page - 1] == visited;
    ArticlesSeriesTotal(seen, dayOf, fromDay, today);
  }

  /** The result loop of `main` on one "ok" page: one added to the cell of
      each result's day, so that the column goes on counting the results seen
      so far followed by this page's. */
  method CountResults(occurrences: array<int>, results: seq<Article>, dayOf: string -> int,
                      fromDay: int, toDay: int, ghost seen: seq<Article>)
    requires forall a | a in results :: fromDay <= dayOf(DayKey(a.webPublicationDate)) <= toDay
    requires occurrences[..] == DaySeries(DaysOf(seen, dayOf), fromDay, toDay)
    modifies occurrences
    ensures occurrences[..] == DaySeries(DaysOf(seen + results, dayOf), fromDay, toDay)
  {
    assert seen + results[..0] == seen;
    for n := 0 to |results|
      invariant occurrences[..] == DaySeries(DaysOf(seen + results[..n], dayOf), fromDay, toDay)
    {
      var k := dayOf(DayKey(results[n].webPublicationDate)) - fromDay;
      ghost var prev := occurrences[..];
      CountStep(seen + results[..n], results[n], dayOf, fromDay, toDay, prev, k);
      occurrences[k] := occurrences[k] + 1;
      assert occurrences[..] == prev[k := prev[k] + 1];
      PrefixSnoc(seen, results, n);
    }
    assert results[..|results|] == results;
  }

  /** When every result's day is in the range, the column of their days adds
      up to the number of results. */
  lemma {:induction false} ArticlesSeriesTotal(arts: seq<Article>, dayOf: string -> int, fromDay: int, toDay: int)
    requires InRange(arts, dayOf, fromDay, toDay)
    ensures Sum(DaySeries(DaysOf(arts, dayOf), fromDay, toDay)) == |arts|
  {
    var days := DaysOf(arts, dayOf);
    forall i | 0 <= i < |days|
      ensures fromDay <= days[i] <= toDay
    {
      assert arts[i] in arts;
    }
    DaySeriesTotal(days, fromDay, toDay);
  }

  /** The results of a visited "ok" page are among the counted results, so
      their days lie in the range when all counted days do. */
  lemma {:induction false} OkPageInRange(visited: seq<Response>, p: nat, dayOf: string -> int, lo: int, hi: int)
    requires p < |visited| && visited[p].status == "ok"
    requires InRange(OkResults(visited), dayOf, lo, hi)
    ensures forall a | a in visited[p].results :: lo <= dayOf(DayKey(a.webPublicationDate)) <= hi
  {
    forall a | a in visited[p].results
      ensures lo <= dayOf(DayKey(a.webPublicationDate)) <= hi
    {
      OkResultsMembers(visited, a);
    }
  }

  /** Counting one more result, whose day is in the range, adds one to the
      cell of its day. */
  lemma {:induction false} CountStep(arts: seq<Article>, a: Article, dayOf: string -> int, fromDay: int, toDay: int, s: seq<int>, k: int)
    requires fromDay <= dayOf(DayKey(a.webPublicationDate)) <= toDay
    requires s == DaySeries(DaysOf(arts, dayOf), fromDay, toDay)
    requires k == dayOf(DayKey(a.webPublicationDate)) - fromDay
    ensures 0 <= k < |s|
    ensures DaySeries(DaysOf(arts + [a], dayOf), fromDay, toDay) == s[k := s[k] + 1]
  {
    var d := dayOf(DayKey(a.webPublicationDate));
    assert DaysOf(arts + [a], dayOf) == DaysOf(arts, dayOf) + [d];
    DaySeriesSnoc(DaysOf(arts, dayOf), d, fromDay, toDay);
  }

  /** The `Occurrences` column as a value: for each day from `fromDay` to
      `toDay`, how many of `days` fall on it. */
  function DaySeries(days: seq<int>, fromDay: int, toDay: int): (s: seq<int>)
    ensures |s| == DayCount(fromDay, toDay)
    ensures forall i | 0 <= i < |s| :: s[i] == Occ(days, fromDay + i)
  {
    seq(DayCount(fromDay, toDay), i requires 0 <= i => Occ(days, fromDay + i))
  }

  /** With no days counted the column is all zeros. */
  lemma {:induction false} NoDaysSeries(s: seq<int>, fromDay: int, toDay: int)
    requires |s| == DayCount(fromDay, toDay) && forall i | 0 <= i < |s| :: s[i] == 0
    ensures s == DaySeries([], fromDay, toDay)
  {
  }

  /** One more day in the range adds one to its own cell of the column and
      to no other. */
  lemma {:induction false} DaySeriesSnoc(days: seq<int>, d: int, fromDay: int, toDay: int)
    requires fromDay <= d <= toDay
    ensures var s := DaySeries(days, fromDay, toDay);
      DaySeries(days + [d], fromDay, toDay) == s[d - fromDay := s[d - fromDay] + 1]
  {
    var s := DaySeries(days, fromDay, toDay);
    var t := DaySeries(days + [d], fromDay, toDay);
    forall i | 0 <= i < |t|
      ensures t[i] == s[d - fromDay := s[d - fromDay] + 1][i]
    {
      OccSnoc(days, d, fromDay + i);
    }
  }

  /** Every day in the range is counted exactly once: when all days lie in
      the range, the column adds up to the number of days. */
  lemma {:induction false} DaySeriesTotal(days: seq<int>, fromDay: int, toDay: int)
    requires forall i | 0 <= i < |days| :: fromDay <= days[i] <= toDay
    ensures Sum(DaySeries(days, fromDay, toDay)) == |days|
  {
    var t := DaySeries(days, fromDay, toDay);
    if days == [] {
      ZeroSum(t);
    } else {
      var init, d := days[..|days| - 1], days[|days| - 1];
      DaySeriesTotal(init, fromDay, toDay);
      var s := DaySeries(init, fromDay, toDay);
      assert days == init + [d];
      DaySeriesSnoc(init, d, fromDay, toDay);
      SumIncrement(s, d - fromDay);
    }
  }
}
