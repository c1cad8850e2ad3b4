/** The search request URLs: `GuardianSearch.get_search_url` (identical in
    guardian_case_study/guardian_search.py and guardian_case_study/experiment.py)
    and `get_respose` in guardianApiCaseStudy/simple.py. */
module Query {

  const Endpoint: string := "https://content.guardianapis.com/search"
  const ApiKey: string := "&api-key=test"
  const AndSeparator: string := " AND "

  /** Python's `sep.join(xs)`. */
  function Join(xs: seq<string>, sep: string): string
  {
    if xs == [] then ""
    else if |xs| == 1 then xs[0]
    else xs[0] + sep + Join(xs[1..], sep)
  }

  /** Where the `i`-th term starts in `Join(xs, sep)`: the lengths of the
      earlier terms plus one separator after each of them. */
  function Offset(xs: seq<string>, sep: string, i: nat): nat
    requires i <= |xs|
  {
    if i == 0 then 0 else Offset(xs, sep, i - 1) + |xs[i - 1]| + |sep|
  }

  lemma {:induction false} OffsetTail(xs: seq<string>, sep: string, i: nat)
    requires 0 < i <= |xs|
    ensures Offset(xs, sep, i) == |xs[0]| + |sep| + Offset(xs[1..], sep, i - 1)
  {
    if i > 1 {
      OffsetTail(xs, sep, i - 1);
    }
  }

  /** Term `i` of the joined text sits at `Offset(xs, sep, i)`, in the given order. */
  lemma {:induction false} JoinTermAt(xs: seq<string>, sep: string, i: nat)
    requires i < |xs|
    ensures Offset(xs, sep, i) + |xs[i]| <= |Join(xs, sep)|
    ensures Join(xs, sep)[Offset(xs, sep, i)..Offset(xs, sep, i) + |xs[i]|] == xs[i]
  {
    if |xs| > 1 {
      var rest := xs[1..];
      var head := xs[0] + sep;
      assert Join(xs, sep) == head + Join(rest, sep);
      if i > 0 {
        JoinTermAt(rest, sep, i - 1);
        OffsetTail(xs, sep, i);
        var o := Offset(rest, sep, i - 1);
        assert Join(xs, sep)[|head| + o..|head| + o + |xs[i]|] == Join(rest, sep)[o..o + |xs[i]|];
      }
    }
  }

  /** Between term `i` and term `i + 1` of the joined text stands exactly one separator. */
  lemma {:induction false} JoinSeparatorAt(xs: seq<string>, sep: string, i: nat)
    requires i + 1 < |xs|
    ensures Offset(xs, sep, i + 1) <= |Join(xs, sep)|
    ensures Join(xs, sep)[Offset(xs, sep, i) + |xs[i]|..Offset(xs, sep, i + 1)] == sep
  {
    var rest := xs[1..];
    var head := xs[0] + sep;
    assert Join(xs, sep) == head + Join(rest, sep);
    if i > 0 {
      JoinSeparatorAt(rest, sep, i - 1);
      OffsetTail(xs, sep, i);
      OffsetTail(xs, sep, i + 1);
      var o := Offset(rest, sep, i - 1) + |xs[i]|;
      assert Join(xs, sep)[|head| + o..|head| + Offset(rest, sep, i)]
          == Join(rest, sep)[o..Offset(rest, sep, i)];
    }
  }

  /** The character of decimal digit `d`. */
  function DigitChar(d: nat): (c: char)
    requires d < 10
    ensures '0' <= c <= '9'
  {
    ('0' as int + d) as char
  }

  predicate IsDigits(s: string)
  {
    forall i | 0 <= i < |s| :: '0' <= s[i] <= '9'
  }

  /** Python's `str(n)` for a non-negative integer: its decimal digits. */
  function NatToString(n: nat): (s: string)
    ensures |s| >= 1 && IsDigits(s)
  {
    if n < 10 then [DigitChar(n)] else NatToString(n / 10) + [DigitChar(n % 10)]
  }

  /** The value of a string of decimal digits. */
  function ParseNat(s: string): nat
    requires IsDigits(s)
  {
    if s == [] then 0 else ParseNat(s[..|s| - 1]) * 10 + (s[|s| - 1] as int - '0' as int)
  }

  /** Reading back the decimal text of `n` gives `n`. */
  lemma {:induction false} ParseNatToString(n: nat)
    ensures ParseNat(NatToString(n)) == n
  {
    if n >= 10 {
      ParseNatToString(n / 10);
      var s := NatToString(n);
      assert s[..|s| - 1] == NatToString(n / 10);
    }
  }

  /** Python's `str(i)` for any integer: a minus sign before the digits of a negative one. */
  function IntToString(i: int): string
  {
    if i < 0 then "-" + NatToString(-i) else NatToString(i)
  }

  /** Different naturals have different decimal texts. */
  lemma {:induction false} NatToStringInjective(p: nat, q: nat)
    requires NatToString(p) == NatToString(q)
    ensures p == q
  {
    ParseNatToString(p);
    ParseNatToString(q);
  }

  /** The text of an integer starts with a minus sign exactly when it is negative. */
  lemma {:induction false} SignOfText(i: int)
    ensures |IntToString(i)| >= 1 && (IntToString(i)[0] == '-' <==> i < 0)
  {
  }

  /** Different integers have different decimal texts. */
  lemma {:induction false} IntToStringInjective(p: int, q: int)
    requires IntToString(p) == IntToString(q)
    ensures p == q
  {
    SignOfText(p);
    SignOfText(q);
    if p < 0 {
      assert NatToString(-p) == IntToString(p)[1..];
      assert NatToString(-q) == IntToString(q)[1..];
      NatToStringInjective(-p, -q);
    } else {
      NatToStringInjective(p, q);
    }
  }

  /** The request URL for `page`: the endpoint, the page parameter, then the
      remaining query parameters `params`. */
  function PageUrl(page: int, params: string): string
  {
    Endpoint + "?page=" + IntToString(page) + params
  }

  /** `get_search_url(page)`: the search terms joined with " AND ", the page
      number, and both dates spliced into the fixed request template. */
  function SearchUrl(terms: seq<string>, fromDate: string, toDate: string, page: int): string
  {
    PageUrl(page, "&q=" + Join(terms, AndSeparator) + "&from-date=" + fromDate
      + "&to-date=" + toDate + ApiKey)
  }

  /** The request template of `get_respose`: page, one search term and the
      from-date, with no to-date parameter. */
  function SimpleUrl(term: string, fromDate: string, page: int): string
  {
    PageUrl(page, "&q=" + term + "&from-date=" + fromDate + ApiKey)
  }

  lemma {:induction false} MiddleUnique(h: string, a: string, b: string, t: string)
    requires h + a + t == h + b + t
    ensures a == b
  {
    assert |a| == |b|;
    assert a == (h + a + t)[|h|..|h| + |a|];
    assert b == (h + b + t)[|h|..|h| + |b|];
  }

  /** Two page numbers give the same URL (for the same other parameters) only if they are equal. */
  lemma {:induction false} PageUrlInjective(p: int, q: int, params: string)
    requires PageUrl(p, params) == PageUrl(q, params)
    ensures p == q
  {
    MiddleUnique(Endpoint + "?page=", IntToString(p), IntToString(q), params);
    IntToStringInjective(p, q);
  }

  /** Every page of one search is requested with a different URL. */
  lemma {:induction false} SearchUrlPerPage(terms: seq<string>, fromDate: string, toDate: string, p: int, q: int)
    requires SearchUrl(terms, fromDate, toDate, p) == SearchUrl(terms, fromDate, toDate, q)
    ensures p == q
  {
    PageUrlInjective(p, q, "&q=" + Join(terms, AndSeparator) + "&from-date=" + fromDate
      + "&to-date=" + toDate + ApiKey);
  }

  /** Every page of the single-term search is requested with a different URL. */
  lemma {:induction false} SimpleUrlPerPage(term: string, fromDate: string, p: int, q: int)
    requires SimpleUrl(term, fromDate, p) == SimpleUrl(term, fromDate, q)
    ensures p == q
  {
    PageUrlInjective(p, q, "&q=" + term + "&from-date=" + fromDate + ApiKey);
  }

  /** For a single search term the two templates agree except that the
      single-term one leaves out the "&to-date=" parameter before the API key. */
  lemma {:induction false} SimpleUrlOmitsToDate(term: string, fromDate: string, toDate: string, page: int)
    ensures var s := SimpleUrl(term, fromDate, page);
      |s| >= |ApiKey| && s[|s| - |ApiKey|..] == ApiKey &&
      SearchUrl([term], fromDate, toDate, page) == s[..|s| - |ApiKey|] + "&to-date=" + toDate + ApiKey
  {
    var base := Endpoint + "?page=" + IntToString(page) + "&q=" + term + "&from-date=" + fromDate;
    var s := SimpleUrl(term, fromDate, page);
    assert s == base + ApiKey;
    assert s[..|s| - |ApiKey|] == base;
    assert s[|s| - |ApiKey|..] == ApiKey;
    assert Join([term], AndSeparator) == term;
  }
}
