/** The data the search API returns and what the aggregation loops of
    `GuardianSearch.get_date_section_dict` and of simple.py's `main` make of it:
    the results of the "ok" pages, in page order, each reduced to its day key
    and section. */
module Aggregation {
  import opened Tally

  /** One search result: its ISO-8601 publication timestamp and its section name. */
  datatype Article = Article(webPublicationDate: string, sectionName: string)

  /** The "response" object of one page: its status, the total page count it
      declares, and its results. */
  datatype Response = Response(status: string, pages: int, results: seq<Article>)

  /** A key of the sparse count dictionary: (day key, section name). */
  type Key = (string, string)

  /** `s.split("T")[0]`: the text before the first "T", or all of `s` when it has none. */
  function DayKey(s: string): (d: string)
    ensures d <= s
    ensures 'T' !in d
    ensures |d| < |s| ==> s[|d|] == 'T'
  {
    if s == [] || s[0] == 'T' then [] else [s[0]] + DayKey(s[1..])
  }

  /** The three properties above determine the day key: it is the one prefix
      that stops at the first "T". */
  lemma {:induction false} DayKeyUnique(s: string, d: string)
    requires d <= s && 'T' !in d && (|d| < |s| ==> s[|d|] == 'T')
    ensures d == DayKey(s)
  {
    if d != [] {
      assert s[0] == d[0] != 'T';
      DayKeyUnique(s[1..], d[1..]);
    }
  }

  /** A day key has no "T" left, so truncating it again changes nothing. */
  lemma {:induction false} DayKeyIdempotent(s: string)
    ensures DayKey(DayKey(s)) == DayKey(s)
  {
    var d := DayKey(s);
    DayKeyUnique(d, d);
  }

  /** The dictionary key a result is counted under. */
  function KeyOf(a: Article): Key
  {
    (DayKey(a.webPublicationDate), a.sectionName)
  }

  /** The keys of a run of results, in order. */
  function KeysOf(arts: seq<Article>): (ks: seq<Key>)
    ensures |ks| == |arts|
    ensures forall i | 0 <= i < |arts| :: ks[i] == KeyOf(arts[i])
  {
    seq(|arts|, i requires 0 <= i < |arts| => KeyOf(arts[i]))
  }

  /** How many of `arts` are counted under key `k`. */
  function CountOf(arts: seq<Article>, k: Key): nat
  {
    Occ(KeysOf(arts), k)
  }

  /** The sections named by `arts`. */
  function SectionsOf(arts: seq<Article>): set<string>
  {
    set a | a in arts :: a.sectionName
  }

  /** What one page adds: its results if its status is "ok", nothing otherwise. */
  function Contribution(r: Response): seq<Article>
  {
    if r.status == "ok" then r.results else []
  }

  /** The results the loops look at when they visit the pages `rs` in order:
      the results of every "ok" page, page after page; a page with another
      status is passed over and the next page is still visited. */
  function OkResults(rs: seq<Response>): seq<Article>
  {
    if rs == [] then [] else OkResults(rs[..|rs| - 1]) + Contribution(rs[|rs| - 1])
  }

  /** How many pages `range(1, pages + 1)` visits: pages 1 to `pages`, none when `pages` < 1. */
  function PageLimit(pages: int): nat
  {
    if pages < 0 then 0 else pages
  }

  /** A result is looked at exactly when it is a result of some "ok" page. */
  lemma {:induction false} OkResultsMembers(rs: seq<Response>, a: Article)
    ensures a in OkResults(rs) <==> exists p | 0 <= p < |rs| :: rs[p].status == "ok" && a in rs[p].results
  {
    if rs != [] {
      var init := rs[..|rs| - 1];
      OkResultsMembers(init, a);
      assert forall p | 0 <= p < |init| :: init[p] == rs[p];
    }
  }

  lemma {:induction false} OkResultsSnoc(rs: seq<Response>, r: Response)
    ensures OkResults(rs + [r]) == OkResults(rs) + Contribution(r)
  {
    assert (rs + [r])[..|rs|] == rs;
  }

  /** Visiting two runs of pages one after the other gives the results of the
      first run followed by those of the second. */
  lemma {:induction false} OkResultsAppend(a: seq<Response>, b: seq<Response>)
    ensures OkResults(a + b) == OkResults(a) + OkResults(b)
  {
    if b == [] {
      assert a + b == a;
    } else {
      var init := b[..|b| - 1];
      var last := b[|b| - 1];
      assert a + b == (a + init) + [last];
      assert b == init + [last];
      calc {
        OkResults(a + b);
        OkResults((a + init) + [last]);
        { OkResultsSnoc(a + init, last); }
        OkResults(a + init) + Contribution(last);
        { OkResultsAppend(a, init); }
        OkResults(a) + OkResults(init) + Contribution(last);
        { OkResultsSnoc(init, last); }
        OkResults(a) + OkResults(init + [last]);
      }
    }
  }

  /** A page whose status is not "ok" is skipped, not a stop: the results are
      those of the same run with that page taken out, so every later page
      still contributes. */
  lemma {:induction false} SkippedPage(rs: seq<Response>, p: nat)
    requires p < |rs| && rs[p].status != "ok"
    ensures OkResults(rs) == OkResults(rs[..p]) + OkResults(rs[p + 1..])
    ensures OkResults(rs) == OkResults(rs[..p] + rs[p + 1..])
  {
    var before, after := rs[..p], rs[p + 1..];
    assert rs == (before + [rs[p]]) + after;
    OkResultsAppend(before + [rs[p]], after);
    OkResultsSnoc(before, rs[p]);
    OkResultsAppend(before, after);
  }

  lemma {:induction false} KeysOfAppend(a: seq<Article>, b: seq<Article>)
    ensures KeysOf(a + b) == KeysOf(a) + KeysOf(b)
  {
  }

  /** Counting is additive over runs of results. */
  lemma {:induction false} CountOfAppend(a: seq<Article>, b: seq<Article>, k: Key)
    ensures CountOf(a + b, k) == CountOf(a, k) + CountOf(b, k)
  {
    KeysOfAppend(a, b);
    OccAppend(KeysOf(a), KeysOf(b), k);
  }

  /** One page taken out of a run of pages: its results sit between those of
      the pages before it and those of the pages after it. */
  lemma {:induction false} OkResultsAround(front: seq<Response>, r: Response, back: seq<Response>)
    ensures OkResults(front + [r] + back) == OkResults(front) + Contribution(r) + OkResults(back)
  {
    OkResultsAppend(front + [r], back);
    OkResultsSnoc(front, r);
  }

  /** A reordering of a non-empty run of pages holds its last page somewhere,
      with the other pages around it forming a reordering of the rest. */
  lemma {:induction false} PermutationSplit(rs: seq<Response>, rs': seq<Response>)
    returns (front: seq<Response>, back: seq<Response>)
    requires rs != [] && multiset(rs) == multiset(rs')
    ensures rs' == front + [rs[|rs| - 1]] + back
    ensures multiset(rs[..|rs| - 1]) == multiset(front + back)
  {
    var n := |rs| - 1;
    var r := rs[n];
    assert rs == rs[..n] + [r];
    assert r in multiset(rs');
    var p :| 0 <= p < |rs'| && rs'[p] == r;
    front, back := rs'[..p], rs'[p + 1..];
    assert rs' == front + [r] + back;
    assert multiset(rs[..n] + [r]) == multiset(front + [r] + back);
    MultisetRemove(rs[..n], r, front, back);
  }

  /** The counts do not depend on the order in which the pages are visited:
      any reordering of the pages gives every key the same count. */
  lemma {:induction false} PageOrderIrrelevant(rs: seq<Response>, rs': seq<Response>, k: Key)
    requires multiset(rs) == multiset(rs')
    ensures CountOf(OkResults(rs), k) == CountOf(OkResults(rs'), k)
    decreases |rs|
  {
    if rs == [] {
      assert |rs'| == |multiset(rs')| == 0;
    } else {
      var n := |rs| - 1;
      var r := rs[n];
      var front, back := PermutationSplit(rs, rs');
      PageOrderIrrelevant(rs[..n], front + back, k);
      assert rs == rs[..n] + [r];
      OkResultsSnoc(rs[..n], r);
      CountOfAppend(OkResults(rs[..n]), Contribution(r), k);
      OkResultsAround(front, r, back);
      CountOfAppend(OkResults(front) + Contribution(r), OkResults(back), k);
      CountOfAppend(OkResults(front), Contribution(r), k);
      OkResultsAppend(front, back);
      CountOfAppend(OkResults(front), OkResults(back), k);
    }
  }

  /** The sections found do not depend on the order in which the pages are
      visited: any reordering of the pages finds the same sections. */
  lemma {:induction false} SectionOrderIrrelevant(rs: seq<Response>, rs': seq<Response>)
    requires multiset(rs) == multiset(rs')
    ensures SectionsOf(OkResults(rs)) == SectionsOf(OkResults(rs'))
    decreases |rs|
  {
    if rs == [] {
      assert |rs'| == |multiset(rs')| == 0;
    } else {
      var n := |rs| - 1;
      var r := rs[n];
      var front, back := PermutationSplit(rs, rs');
      SectionOrderIrrelevant(rs[..n], front + back);
      assert rs == rs[..n] + [r];
      OkResultsSnoc(rs[..n], r);
      SectionsAppend(OkResults(rs[..n]), Contribution(r));
      OkResultsAround(front, r, back);
      SectionsAppend(OkResults(front) + Contribution(r), OkResults(back));
      SectionsAppend(OkResults(front), Contribution(r));
      OkResultsAppend(front, back);
      SectionsAppend(OkResults(front), OkResults(back));
    }
  }

  lemma {:induction false} SectionsAppend(a: seq<Article>, b: seq<Article>)
    ensures SectionsOf(a + b) == SectionsOf(a) + SectionsOf(b)
  {
  }

  /** A key is counted at least once exactly when some result carries it. */
  lemma {:induction false} CountPositive(arts: seq<Article>, k: Key)
    ensures CountOf(arts, k) > 0 <==> exists a | a in arts :: KeyOf(a) == k
  {
    OccPositive(KeysOf(arts), k);
    if CountOf(arts, k) > 0 {
      var i :| 0 <= i < |arts| && KeysOf(arts)[i] == k;
      assert arts[i] in arts;
    }
    if a :| a in arts && KeyOf(a) == k {
      var i :| 0 <= i < |arts| && arts[i] == a;
      assert KeysOf(arts)[i] == k;
    }
  }

  /** `dict` is the sparse tally of `arts`: it holds exactly the keys some
      result carries, each with the number of results that carry it. */
  ghost predicate IsTally(dict: map<Key, int>, arts: seq<Article>)
  {
    && (forall k :: k in dict <==> k in KeysOf(arts))
    && (forall k | k in dict :: dict[k] == CountOf(arts, k))
  }

  /** Values the tally keeps are counts of results that occur, so none is below one. */
  lemma {:induction false} TallyAtLeastOne(dict: map<Key, int>, arts: seq<Article>)
    requires IsTally(dict, arts)
    ensures forall k | k in dict :: dict[k] >= 1
  {
    forall k | k in dict
      ensures dict[k] >= 1
    {
      OccPositive(KeysOf(arts), k);
    }
  }

  /** The section of every key of the tally is a section some result names. */
  lemma {:induction false} TallySections(dict: map<Key, int>, arts: seq<Article>)
    requires IsTally(dict, arts)
    ensures forall k | k in dict :: k.1 in SectionsOf(arts)
  {
    forall k | k in dict
      ensures k.1 in SectionsOf(arts)
    {
      var i :| 0 <= i < |arts| && KeysOf(arts)[i] == k;
      assert arts[i] in arts;
    }
  }

  /** The specification of the update branch of `get_date_section_dict`
      for one result: a key already present with a non-zero (truthy) count
      goes up by one, any other key is set to one; no other entry changes. */
  function Bump(dict: map<Key, int>, k: Key): (d: map<Key, int>)
    ensures d.Keys == dict.Keys + {k}
    ensures k in dict && dict[k] != 0 ==> d[k] == dict[k] + 1
    ensures !(k in dict && dict[k] != 0) ==> d[k] == 1
    ensures forall k' | k' in dict && k' != k :: d[k'] == dict[k']
  {
    if k in dict && dict[k] != 0 then dict[k := dict[k] + 1] else dict[k := 1]
  }

  /** Bumping the key of one more result keeps the dictionary the tally of the results seen. */
  lemma {:induction false} TallyStep(dict: map<Key, int>, arts: seq<Article>, a: Article)
    requires IsTally(dict, arts)
    ensures IsTally(Bump(dict, KeyOf(a)), arts + [a])
  {
    TallyAtLeastOne(dict, arts);
    OccPositive(KeysOf(arts), KeyOf(a));
    KeysOfAppend(arts, [a]);
    assert KeysOf(arts + [a]) == KeysOf(arts) + [KeyOf(a)];
    forall k
      ensures CountOf(arts + [a], k) == CountOf(arts, k) + (if KeyOf(a) == k then 1 else 0)
    {
      OccSnoc(KeysOf(arts), KeyOf(a), k);
    }
  }

  /** Seeing one more result adds its section. */
  lemma {:induction false} SectionsStep(arts: seq<Article>, a: Article)
    ensures SectionsOf(arts + [a]) == SectionsOf(arts) + {a.sectionName}
  {
    SectionsAppend(arts, [a]);
    assert SectionsOf([a]) == {a.sectionName};
  }

  /** The matrix cell a result falls into: its day number and its section. */
  function CellOf(a: Article, dayOf: string -> int): (int, string)
  {
    (dayOf(DayKey(a.webPublicationDate)), a.sectionName)
  }

  function CellsOf(arts: seq<Article>, dayOf: string -> int): (cs: seq<(int, string)>)
    ensures |cs| == |arts|
    ensures forall i | 0 <= i < |arts| :: cs[i] == CellOf(arts[i], dayOf)
  {
    seq(|arts|, i requires 0 <= i < |arts| => CellOf(arts[i], dayOf))
  }

  /** How many of `arts` fall on day number `day` in section `section`. */
  function CountAt(arts: seq<Article>, dayOf: string -> int, day: int, section: string): nat
  {
    Occ(CellsOf(arts, dayOf), (day, section))
  }

  /** Every result's day lies in the inclusive range `[lo, hi]`. */
  ghost predicate InRange(arts: seq<Article>, dayOf: string -> int, lo: int, hi: int)
  {
    forall a | a in arts :: lo <= dayOf(DayKey(a.webPublicationDate)) <= hi
  }

  /** `dayOf` tells apart the different day keys of `arts`: two of them that
      give the same day number are the same text. */
  ghost predicate DaysDistinct(arts: seq<Article>, dayOf: string -> int)
  {
    forall a, b | a in arts && b in arts ::
      dayOf(DayKey(a.webPublicationDate)) == dayOf(DayKey(b.webPublicationDate)) ==>
        DayKey(a.webPublicationDate) == DayKey(b.webPublicationDate)
  }

  /** When no other day key of `arts` shares the day number of `k`, counting
      by cell and counting by key agree. */
  lemma {:induction false} CountAtIsCountOf(arts: seq<Article>, dayOf: string -> int, k: Key)
    requires forall a | a in arts :: dayOf(DayKey(a.webPublicationDate)) == dayOf(k.0) ==> DayKey(a.webPublicationDate) == k.0
    ensures CountAt(arts, dayOf, dayOf(k.0), k.1) == CountOf(arts, k)
  {
    if arts != [] {
      var init := arts[..|arts| - 1];
      var a := arts[|arts| - 1];
      assert arts == init + [a];
      CountAtIsCountOf(init, dayOf, k);
      assert CellsOf(arts, dayOf) == CellsOf(init, dayOf) + [CellOf(a, dayOf)];
      assert KeysOf(arts) == KeysOf(init) + [KeyOf(a)];
      OccSnoc(CellsOf(init, dayOf), CellOf(a, dayOf), (dayOf(k.0), k.1));
      OccSnoc(KeysOf(init), KeyOf(a), k);
    }
  }

  /** The last result adds one to the count of its own cell and leaves every other cell's count alone. */
  lemma {:induction false} CountAtLast(arts: seq<Article>, dayOf: string -> int, day: int, section: string)
    requires arts != []
    ensures CountAt(arts, dayOf, day, section) == CountAt(arts[..|arts| - 1], dayOf, day, section)
      + (if CellOf(arts[|arts| - 1], dayOf) == (day, section) then 1 else 0)
  {
    assert CellsOf(arts, dayOf)[..|arts| - 1] == CellsOf(arts[..|arts| - 1], dayOf);
  }
}
