# Guardian case study: article counts per day and section

This project models the counting core of a small Guardian Open Platform client,
written in Dafny. A search is a list of terms and a date range. The client
builds a request URL for each result page and visits pages 1 to N, where N is
the page count that page 1 reports. A page whose status is not "ok" is passed
over, and the following pages are still visited. The client then counts every
result under the key (publication day, section). The day is the text of
`webPublicationDate` before its first "T".

These counts are used in two ways:

- **Sparse and dense counts.** `GuardianSearch.get_date_section_dict` builds a
  sparse dictionary of counts together with the list of sections seen.
  `get_article_section_df` turns it into a dense frame with one row per
  calendar day of the range and one column per section.
- **Single-column count.** The single-term script (`simple.py`) counts
  the results of each day directly into one `Occurrences` column.

`experiment.py` computes views of the dense frame:

- the daily totals;
- the grand total (`total_number`);
- the per-section totals;
- the days whose total is at least three standard deviations from the mean.

`main` in `guardian_search.py` adds a `total` column. It keeps the days whose
total is strictly more than three standard deviations from the mean.

Modules:

- `Query`: the two URL templates. Distinct pages of one search are proved to
  get distinct URLs; by the definition of `PageUrl`, the rest of the URL does
  not depend on the page. The single-term template
  is the general one without the to-date parameter.
- `Aggregation`: results, responses, the day key, and the results the loops
  look at (`OkResults`). It also holds the tally invariant that the sparse
  dictionary satisfies (`IsTally`).
- `Frames`: the date index and the dense frame, a class over an `array2<int>`.
- `Search`: the `GuardianSearch` class with its loops, proved against
  `IsTally` and against `CountTable`. `CountTable` is the frame as a value,
  and its total is proved to equal the number of counted results.
- `Views`: the frame views, as functions of the frame's rows taken as a value.
- `Simple`: the single-column counting loop of `simple.py`, proved against
  `DaySeries`.
- `Tally`: occurrence counts, sums and distinct lists that the modules share.

The `GuardianSearch` class in `guardian_case_study/experiment.py` (lines 19-83)
is a verbatim copy of the one in `guardian_case_study/guardian_search.py`. It
is modelled once, and the table below cites the guardian_search.py copy.

Two behaviours of the code that the model keeps:

- A page whose status is not "ok" is skipped; the loop does not stop there
  and goes on with the next page (`OkResults`, `Aggregation.SkippedPage`).
- The unusual-events test is `>= 3*std`, so with a zero standard deviation it
  selects every day (`Views.ZeroStdKeepsAll`, `Views.FlatSeriesContrast`).
  The strict `>` test of `main` selects no day on a flat series.

## Model

| member | source | states |
|---|---|---|
| Query.JoinTermAt | guardian_case_study/guardian_search.py:24 | every search term appears intact in the " AND "-joined text, at its computed offset |
| Query.JoinSeparatorAt | guardian_case_study/guardian_search.py:24 | consecutive terms are separated by exactly the separator " AND " |
| Query.ParseNatToString | guardian_case_study/guardian_search.py:25-26 | the decimal page number spliced into the URL reads back as the same number |
| Query.IntToStringInjective | guardian_case_study/guardian_search.py:25-26 | distinct page numbers have distinct decimal texts, negative ones included |
| Query.SearchUrlPerPage | guardian_case_study/guardian_search.py:23-30 | two pages of one search get the same URL only when they are the same page (the copy in experiment.py, lines 25-32, is identical) |
| Query.SimpleUrlPerPage | guardianApiCaseStudy/simple.py:9-11 | two pages of the single-term search get the same URL only when they are the same page |
| Query.SearchUrl | guardian_case_study/guardian_search.py:23-30 | the request URL of one page: the endpoint, the page number, the terms joined with " AND ", both dates and the API key; `SearchUrlPerPage` proves distinct pages get distinct URLs |
| Query.SimpleUrl | guardianApiCaseStudy/simple.py:9-11 | the single-term request URL: page number, term, from-date and API key; `SimpleUrlPerPage` and `SimpleUrlOmitsToDate` are proved about it |
| Query.SimpleUrlOmitsToDate | guardianApiCaseStudy/simple.py:10-11 | the single-term URL is the one-term search URL with the "&to-date=" parameter removed, and both end in the "&api-key=test" key |
| Aggregation.DayKey | guardian_case_study/guardian_search.py:54-55 | the day key is the longest prefix of the timestamp that holds no "T"; if it is shorter than the timestamp, a "T" follows it |
| Aggregation.DayKeyUnique | guardian_case_study/guardian_search.py:55 | only one prefix has those properties, so the key is fully determined |
| Aggregation.DayKeyIdempotent | guardian_case_study/guardian_search.py:55 | splitting a day key again at "T" changes nothing |
| Aggregation.OkResults | guardian_case_study/guardian_search.py:47-51 | the results the loop counts: those of every "ok" page, page after page; `OkResultsMembers` and `SkippedPage` characterise it |
| Aggregation.OkResultsMembers | guardian_case_study/guardian_search.py:47-51 | a result is counted exactly when it belongs to some visited page whose status is "ok" |
| Aggregation.SkippedPage | guardian_case_study/guardian_search.py:49 | a page that is not "ok" contributes nothing, and the pages before and after it still count |
| Aggregation.OkResultsAppend | guardian_case_study/guardian_search.py:47-51 | the results of consecutive runs of pages concatenate |
| Aggregation.PageOrderIrrelevant | guardian_case_study/guardian_search.py:56-59 | any reordering of the visited pages (equal multisets of responses) gives every (day, section) key the same count |
| Aggregation.SectionOrderIrrelevant | guardian_case_study/guardian_search.py:52-53 | any reordering of the visited pages finds the same set of sections |
| Aggregation.CountPositive | guardian_case_study/guardian_search.py:56-59 | a key's count is positive if and only if some counted result has that key |
| Aggregation.TallyAtLeastOne | guardian_case_study/guardian_search.py:56-59 | every entry of a tally dictionary holds at least 1, which the truthiness test `date_section_dict.get` relies on |
| Aggregation.TallySections | guardian_case_study/guardian_search.py:52-59 | the section of every dictionary key is one of the sections seen |
| Aggregation.Bump | guardian_case_study/guardian_search.py:56-59 | the update for one result: a truthy entry goes up by 1, a missing or zero one is set to 1, and no other entry changes |
| Aggregation.TallyStep | guardian_case_study/guardian_search.py:56-59 | adding 1 to the key's entry, or creating it at 1, keeps the dictionary equal to the tally of the results seen so far plus this one |
| Aggregation.SectionsStep | guardian_case_study/guardian_search.py:52-53 | `sections.add` grows the set by exactly the result's section |
| Aggregation.CountAtIsCountOf | guardian_case_study/guardian_search.py:78-79 | a frame cell's count equals the dictionary count of its key when distinct day texts are distinct days |
| Search.GuardianSearch.GetSearchUrl | guardian_case_study/guardian_search.py:23-30 | the search's own URL for a page, built from its terms and dates |
| Search.GuardianSearch.GetResponse | guardian_case_study/guardian_search.py:32-36 | the response object the server gives for the page's URL |
| Search.GuardianSearch.CountPages | guardian_case_study/guardian_search.py:38-40 | the `pages` field of page 1's response |
| Search.GuardianSearch.Visited | guardian_case_study/guardian_search.py:45-48 | the responses of pages 1 to the page count, in order, none when the count is below 1 |
| Search.GuardianSearch.constructor | guardian_case_study/guardian_search.py:18-21 | the search stores its terms and both dates |
| Search.GuardianSearch.GetDateSectionDict | guardian_case_study/guardian_search.py:42-61 | over pages 1..N (N from page 1), skipping pages that are not "ok", the dictionary is exactly the tally of the counted results and holds no zero entry; the section list is duplicate-free and holds exactly their sections; every key's section is in it (the copy in experiment.py, lines 44-63, is identical) |
| Tally.ListOf | guardian_case_study/guardian_search.py:61 | `list(sections)` holds each member of the set exactly once and nothing else |
| Tally.OccPositive | guardian_case_study/guardian_search.py:56 | an element occurs a positive number of times if and only if it is present |
| Frames.DateRange | guardian_case_study/guardian_search.py:64 | the daily index of the range; `DateRangeExact` characterises it |
| Frames.DateRangeExact | guardian_case_study/guardian_search.py:64 | the daily index holds exactly the days from the from-date to the to-date, strictly increasing |
| Frames.ColumnOf | guardian_case_study/guardian_search.py:79 | a column label is looked up to the first and only position that carries it |
| Frames.Frame.Zero | guardian_case_study/guardian_search.py:63-72 | a fresh frame with one row per day of the range and one column per section, every cell 0 |
| Search.GuardianSearch.InitializeZeroDf | guardian_case_study/guardian_search.py:63-72 | the zero frame of the search's own date range with the given sections as its columns |
| Frames.Frame.SetAt | guardian_case_study/guardian_search.py:79 | `df.at[day, section] = count` sets that one cell and leaves every other cell unchanged |
| Search.WrittenHit | guardian_case_study/guardian_search.py:78-79 | a cell hit by exactly one dictionary entry ends up holding that entry's count |
| Search.WrittenMiss | guardian_case_study/guardian_search.py:78-79 | a cell hit by no dictionary entry keeps its 0 |
| Search.WriteAll | guardian_case_study/guardian_search.py:78-79 | assigning the entries in turn into the zero frame leaves each cell as the last assignment made to it |
| Search.WrittenIsCount | guardian_case_study/guardian_search.py:74-81 | each cell then holds the number of counted results of its day and section |
| Search.GuardianSearch.GetArticleSectionDf | guardian_case_study/guardian_search.py:74-81 | a fresh frame over the search's date range; its columns are exactly the sections seen; every cell is the count of its (day, section); its rows equal `CountTable`; its grand total equals the number of counted results |
| Search.CountTable | guardian_case_study/guardian_search.py:74-81 | the counted frame as a value: one row per day in chronological order, one count per column |
| Search.CountTableTotal | guardian_case_study/guardian_search.py:74-81 | when every counted day lies in the range and every section is a column, the frame's cells add up to the number of counted results: no result is lost or counted twice |
| Search.CountTableEmpty | guardian_case_study/guardian_search.py:63-72 | with nothing counted, the frame adds up to 0 |
| Search.CountTableLast | guardian_case_study/guardian_search.py:79 | counting one more result adds 1 to its own cell and to no other |
| Views.RowSums | guardian_case_study/experiment.py:87 | `df.sum(axis=1)`: one total per row, the sum of that row's cells |
| Views.DailyTotals | guardian_case_study/experiment.py:86-88 | the (day, total) series written by `generate_articles_csv`; `DailyTotalsMatchRows` is proved about it |
| Views.TotalNumber | guardian_case_study/experiment.py:94-97 | `total_number`: the sum of the daily totals; `ColumnTotalIsTotalNumber` and `CountTableTotal` are proved about it |
| Views.ColumnSums | guardian_case_study/experiment.py:137 | `df.sum(axis=0)`: one total per column |
| Views.WithTotal | guardian_case_study/experiment.py:114 | a row with its `total` column appended, as `df["total"] = df.sum(axis=1)` adds it (also guardian_search.py:92) |
| Views.UnusualEvents | guardian_case_study/experiment.py:112-115 | the rows kept by `generate_unusual_events_csv`; `UnusualEventsExact` characterises them |
| Views.SpecialDates | guardian_case_study/guardian_search.py:151 | the special dates of `main`; `SpecialDatesExact` characterises them |
| Views.DailyTotalsMatchRows | guardian_case_study/experiment.py:86-88 | the daily series has one entry per frame row with the row's day, and its values add up to `total_number` |
| Views.TotalNumberAppend | guardian_case_study/experiment.py:94-97 | the total of consecutive row blocks is the sum of their totals |
| Views.ColumnTotalIsTotalNumber | guardian_case_study/experiment.py:94-97 | summing rows first or columns first gives the same total |
| Views.CellIncrementTotal | guardian_case_study/experiment.py:94-97 | raising one cell by 1 raises `total_number` by 1 |
| Views.ArticlesBySection | guardian_case_study/experiment.py:135-139 | the dictionary's keys are exactly the sections, and each section maps to its column's total |
| Views.BySectionTotal | guardian_case_study/experiment.py:135-139 | the per-section totals add up to `total_number` |
| Views.KeepRowsMembers | guardian_case_study/experiment.py:114-115 | boolean row selection keeps exactly the rows the test accepts, each with its cells and total appended |
| Views.UnusualEventsExact | guardian_case_study/experiment.py:112-115 | a row is an unusual event if and only if its total is at least 3·std from the mean; the row keeps its cells and its total column |
| Views.ZeroStdKeepsAll | guardian_case_study/experiment.py:115 | with a zero standard deviation the non-strict test keeps every day |
| Views.SpecialDatesExact | guardian_case_study/guardian_search.py:92-151 | a row is a special date if and only if its total is strictly more than 3·std from the mean |
| Views.SpecialDatesAreUnusual | guardian_case_study/guardian_search.py:151 | every special date is also an unusual event |
| Views.FlatSeriesContrast | guardian_case_study/guardian_search.py:151 | on a flat series the strict test keeps no day, while the non-strict test with zero deviation keeps them all |
| Views.FiltersChronological | guardian_case_study/guardian_search.py:151 | both filters keep the days in chronological order |
| Simple.GetResponse | guardianApiCaseStudy/simple.py:9-15 | `get_respose`: the response object the server gives for the single-term URL of a page |
| Simple.Visited | guardianApiCaseStudy/simple.py:36-43 | the responses of pages 1 to the page count of page 1, in order |
| Simple.CountOccurrences | guardianApiCaseStudy/simple.py:31-49 | over pages 1..N of the single-term search, skipping pages that are not "ok", the fresh column has one cell per day from the from-date to today; each cell holds the number of counted results of that day; the cells are non-negative and add up to the number of counted results |
| Simple.CountResults | guardianApiCaseStudy/simple.py:45-49 | counting one page's results adds them to the column of the results counted so far |
| Simple.CountStep | guardianApiCaseStudy/simple.py:47-49 | one result adds 1 to its day's cell and to no other |
| Simple.DaySeriesSnoc | guardianApiCaseStudy/simple.py:49 | one more day in the range raises exactly its own cell by 1 |
| Simple.DaySeriesTotal | guardianApiCaseStudy/simple.py:42-49 | when every day lies in the range, the column adds up to the number of days counted |
| Simple.NoDaysSeries | guardianApiCaseStudy/simple.py:31-32 | the all-zero column is the count of no days |

## Left out

- The network, `requests.get` and JSON decoding are not modelled. Server answers are the parameter `fetch`, a function from the URL to the decoded response object.
- A missing `pages`, `results` or `webPublicationDate` field makes the source fail on `None` (the `+ 1` on the page count, iterating the results, the `split`). The model's records always carry these fields.
- A result without `sectionName` is counted by guardian_search.py under the section `None`, which also joins the section set. The model's results always carry a string section, so that case is not modelled; simple.py never reads the section.
- Page 1 is fetched twice, once to read the page count and once inside the loop. The model treats `fetch` as a function, so both fetches return the same answer.
- pandas' parsing of date texts into calendar days is the parameter `dayOf`.
- Search.GuardianSearch.GetArticleSectionDf: requires every counted day to lie inside the date range, and distinct day texts to be distinct days. For a day outside the range, pandas `.at` would add a new row instead; the model does not capture this.
- Simple.CountOccurrences: does not model the probe `print(df.at["2018-01-03", "Occurrences"])` at simple.py:34. That lookup raises a `KeyError` when the index lacks 2018-01-03. With the hard-coded start 2018-01-01 it never does, but the model takes the from-date and today as free parameters and does not fail there.
- Simple.CountOccurrences: requires every counted day to lie inside the range from the from-date to today. Outside it, the `+=` on a missing label raises a `KeyError`.
- `datetime.now()` is the parameter `today`, the last day number of the `Occurrences` index.
- `mean`, `var` and `std` are floating-point pandas reductions. The filters take `mean` and `std` as `real` parameters, and the model does not compute them.
- Writing CSV files, the matplotlib plots (`generate_evolution_series`, `section_pie_chart`), the `DATA_DIR` paths, `say_hello` and all `print` calls are output only and are not modelled.
- The string block in `main` of guardian_search.py (lines 105-148) is never executed and is not modelled.
- setup.py is packaging only and is not modelled.
- Python iterates a dict in insertion order and a set in an arbitrary order. The model fixes neither: `Tally.ListOf` may return the sections in any order, and `Search.WriteAll` and `Search.WrittenIsCount` hold for any duplicate-free order of the dictionary's keys, which covers the insertion order of `date_section_dict.items()` (guardian_search.py:78). So the dictionary, the set of columns and every cell's count do not depend on either order. The order of the frame's columns does depend on the arbitrary order of `list(sections)` (guardian_search.py:61, 67-70); the model fixes only their set.
- The frame's index is day numbers rather than timestamps, and the index names ("date", "Date") are not modelled.
- Integers are unbounded, whereas pandas stores the counts as int64. Real counts stay far below that limit.
