/**
 "Top countries in this sample": group the rows by country (dropping rows
 without one), take each country's largest cumulative case count (0 when the
 country has no readable count), sort descending and keep the first ten.
 */
module Aggregate {
  import opened Rows
  import opened Countries

  const TopCount: nat := 10

  /** One line of the top-countries table. */
  datatype Entry = Entry(country: string, cases: int)

  /** Row `i` names country `c` and has a readable cumulative count. */
  predicate Reports(rows: seq<Row>, i: int, c: string)
    requires 0 <= i < |rows|
  {
    rows[i].country == Some(c) && rows[i].cumulative.Some?
  }

  /** The readable cumulative counts of country `c`, in row order. */
  function CaseValues(rows: seq<Row>, c: string): (vs: seq<int>)
    ensures forall v :: v in vs <==> exists i :: 0 <= i < |rows| && rows[i].country == Some(c) && rows[i].cumulative == Some(v)
    decreases |rows|
  {
    if |rows| == 0 then []
    else
      var rest := CaseValues(rows[1..], c);
      assert forall v :: (exists i :: 0 <= i < |rows[1..]| && rows[1..][i].country == Some(c) && rows[1..][i].cumulative == Some(v))
                     <==> (exists i :: 1 <= i < |rows| && rows[i].country == Some(c) && rows[i].cumulative == Some(v)) by {
        forall v | exists i :: 1 <= i < |rows| && rows[i].country == Some(c) && rows[i].cumulative == Some(v)
          ensures exists i :: 0 <= i < |rows[1..]| && rows[1..][i].country == Some(c) && rows[1..][i].cumulative == Some(v)
        {
          var i :| 1 <= i < |rows| && rows[i].country == Some(c) && rows[i].cumulative == Some(v);
          assert rows[1..][i - 1] == rows[i];
        }
      }
      if rows[0].country == Some(c) && rows[0].cumulative.Some? then [rows[0].cumulative.value] + rest else rest
  }

  /** pandas' `max` skipping missing values, followed by `fillna(0)`. */
  function MaxOrZero(vs: seq<int>): (m: int)
    ensures |vs| == 0 ==> m == 0
    ensures |vs| > 0 ==> m in vs && forall v :: v in vs ==> v <= m
    decreases |vs|
  {
    if |vs| == 0 then 0
    else if |vs| == 1 then vs[0]
    else
      var m' := MaxOrZero(vs[1..]);
      assert vs == [vs[0]] + vs[1..];
      if vs[0] >= m' then vs[0] else m'
  }

  /**
   The value the table reports for country `c`: at least every readable count
   of `c`, and either one of them or, when `c` has none, 0.
   */
  function CountryMax(rows: seq<Row>, c: string): (m: int)
    ensures forall i :: 0 <= i < |rows| && Reports(rows, i, c) ==> rows[i].cumulative.value <= m
    ensures (exists i :: 0 <= i < |rows| && rows[i].country == Some(c) && rows[i].cumulative == Some(m))
         || (m == 0 && forall i :: 0 <= i < |rows| && rows[i].country == Some(c) ==> rows[i].cumulative.None?)
  {
    var vs := CaseValues(rows, c);
    assert forall i :: 0 <= i < |rows| && Reports(rows, i, c) ==> rows[i].cumulative.value in vs;
    MaxOrZero(vs)
  }

  /** The countries of a table, in order. */
  function Keys(s: seq<Entry>): (ks: seq<string>)
    ensures |ks| == |s|
  {
    seq(|s|, i requires 0 <= i < |s| => s[i].country)
  }

  predicate DistinctCountries(s: seq<Entry>) {
    forall i, j :: 0 <= i < j < |s| ==> s[i].country != s[j].country
  }

  predicate NonIncreasing(s: seq<Entry>) {
    forall i, j :: 0 <= i < j < |s| ==> s[i].cases >= s[j].cases
  }

  /** Every line carries its country's maximum. */
  predicate Faithful(rows: seq<Row>, s: seq<Entry>) {
    forall i :: 0 <= i < |s| ==> s[i].cases == CountryMax(rows, s[i].country)
  }

  /**
   `df.groupby("Country", dropna=True)["Cumulative_cases"].max().fillna(0)`:
   one line per country some row names, keys ascending, each with its maximum.
   */
  function GroupByMax(rows: seq<Row>): (g: seq<Entry>)
    ensures StrictlyAscending(Keys(g))
    ensures DistinctCountries(g)
    ensures forall c :: c in Keys(g) <==> HasCountry(rows, c)
    ensures Faithful(rows, g)
  {
    var cs := CountryList(rows);
    var g := seq(|cs|, i requires 0 <= i < |cs| => Entry(cs[i], CountryMax(rows, cs[i])));
    assert Keys(g) == cs;
    g
  }

  /** `e` placed into a non-increasing table after the lines it beats, before those equal or smaller. */
  function InsertDescending(s: seq<Entry>, e: Entry): (r: seq<Entry>)
    requires NonIncreasing(s)
    ensures NonIncreasing(r)
    ensures multiset(r) == multiset(s) + multiset{e}
    decreases |s|
  {
    if |s| == 0 then [e]
    else if e.cases >= s[0].cases then
      [e] + s
    else
      var rest := InsertDescending(s[1..], e);
      assert s == [s[0]] + s[1..];
      HeadDominates(s[0], s[1..], e, rest);
      [s[0]] + rest
  }

  /** A head at least every line of `t` and above `e` may stand before any arrangement of `t` and `e`. */
  lemma HeadDominates(h: Entry, t: seq<Entry>, e: Entry, rest: seq<Entry>)
    requires NonIncreasing([h] + t) && NonIncreasing(rest)
    requires h.cases > e.cases
    requires multiset(rest) == multiset(t) + multiset{e}
    ensures NonIncreasing([h] + rest)
  {
    var r := [h] + rest;
    forall j | 0 < j < |r|
      ensures h.cases >= r[j].cases
    {
      var x := r[j];
      assert x == rest[j - 1];
      assert x in multiset(rest);
      if x != e {
        assert x in multiset(t);
        var k :| 0 <= k < |t| && t[k] == x;
        assert ([h] + t)[0] == h && ([h] + t)[k + 1] == x;
      }
    }
  }

  /** An insertion sort on the reported value, largest first. */
  function SortDescending(s: seq<Entry>): (r: seq<Entry>)
    ensures NonIncreasing(r)
    ensures multiset(r) == multiset(s)
    decreases |s|
  {
    if |s| == 0 then []
    else
      assert s == [s[0]] + s[1..];
      InsertDescending(SortDescending(s[1..]), s[0])
  }

  /** `head(n)`. */
  function Head(s: seq<Entry>, n: nat): (r: seq<Entry>)
    ensures |r| <= n && |r| <= |s|
    ensures |r| < n ==> r == s
    ensures r == s[..|r|]
  {
    if |s| <= n then s else s[..n]
  }

  /**
   The table shown under "Top countries": at most ten lines, largest first,
   each country once and named by some row, each with its maximum; and a
   country that some row names is missing only when the table is full and
   every line shown is at least that country's maximum.
   */
  function TopCountries(rows: seq<Row>): (top: seq<Entry>)
    ensures |top| <= TopCount
    ensures NonIncreasing(top)
    ensures DistinctCountries(top)
    ensures forall i :: 0 <= i < |top| ==> HasCountry(rows, top[i].country)
    ensures Faithful(rows, top)
    ensures forall c :: HasCountry(rows, c) && c !in Keys(top) ==>
              |top| == TopCount && forall i :: 0 <= i < |top| ==> top[i].cases >= CountryMax(rows, c)
  {
    var g := GroupByMax(rows);
    var s := SortDescending(g);
    SortedKeepsLines(rows, g, s);
    var top := Head(s, TopCount);
    HeadKeepsLines(rows, s, top);
    HeadIsTop(rows, g, s, top);
    top
  }

  /** The first lines of a sorted, faithful table with distinct known countries are all of those too. */
  lemma HeadKeepsLines(rows: seq<Row>, s: seq<Entry>, top: seq<Entry>)
    requires NonIncreasing(s) && DistinctCountries(s) && Faithful(rows, s)
    requires forall i :: 0 <= i < |s| ==> HasCountry(rows, s[i].country)
    requires top == Head(s, TopCount)
    ensures |top| <= TopCount && NonIncreasing(top) && DistinctCountries(top) && Faithful(rows, top)
    ensures forall i :: 0 <= i < |top| ==> HasCountry(rows, top[i].country)
  {
    assert forall i :: 0 <= i < |top| ==> top[i] == s[i];
  }

  /** Every country left out of the first lines of a sorted grouped table ranks no higher than any line kept. */
  lemma HeadIsTop(rows: seq<Row>, g: seq<Entry>, s: seq<Entry>, top: seq<Entry>)
    requires Faithful(rows, g)
    requires forall c :: c in Keys(g) <==> HasCountry(rows, c)
    requires multiset(s) == multiset(g) && NonIncreasing(s)
    requires top == Head(s, TopCount)
    ensures forall c :: HasCountry(rows, c) && c !in Keys(top) ==>
              |top| == TopCount && forall i :: 0 <= i < |top| ==> top[i].cases >= CountryMax(rows, c)
  {
    forall c | HasCountry(rows, c) && c !in Keys(top)
      ensures |top| == TopCount && forall i :: 0 <= i < |top| ==> top[i].cases >= CountryMax(rows, c)
    {
      var k :| 0 <= k < |g| && Keys(g)[k] == c;
      var e := g[k];
      assert e in multiset(g);
      forall i | 0 <= i < |top|
        ensures top[i] != e
      {
        assert Keys(top)[i] == top[i].country;
      }
      LeftOutRanksBelow(s, top, e);
    }
  }

  /** A line of a non-increasing table that is not among its first lines is at most each of them, and they are full. */
  lemma LeftOutRanksBelow(s: seq<Entry>, top: seq<Entry>, e: Entry)
    requires NonIncreasing(s) && top == Head(s, TopCount)
    requires e in multiset(s)
    requires forall i :: 0 <= i < |top| ==> top[i] != e
    ensures |top| == TopCount && forall i :: 0 <= i < |top| ==> top[i].cases >= e.cases
  {
    var m :| 0 <= m < |s| && s[m] == e;
    assert forall i :: 0 <= i < |top| ==> top[i] == s[i];
    assert m >= |top|;
  }

  /** Sorting a grouped table keeps its lines faithful and its countries distinct and known. */
  lemma SortedKeepsLines(rows: seq<Row>, g: seq<Entry>, s: seq<Entry>)
    requires DistinctCountries(g) && Faithful(rows, g)
    requires forall c :: c in Keys(g) <==> HasCountry(rows, c)
    requires multiset(s) == multiset(g)
    ensures DistinctCountries(s) && Faithful(rows, s)
    ensures forall i :: 0 <= i < |s| ==> HasCountry(rows, s[i].country)
  {
    forall i | 0 <= i < |s|
      ensures s[i].cases == CountryMax(rows, s[i].country) && HasCountry(rows, s[i].country)
    {
      assert s[i] in multiset(s);
      assert s[i] in multiset(g);
      var k :| 0 <= k < |g| && g[k] == s[i];
      assert Keys(g)[k] == s[i].country;
    }
    forall i, j | 0 <= i < j < |s|
      ensures s[i].country != s[j].country
    {
      if s[i].country == s[j].country {
        assert s[i] == s[j];
        TwoCopies(s, i, j);
        DistinctOnce(g, s[i]);
      }
    }
  }

  /** A line at two positions occurs at least twice. */
  lemma TwoCopies(s: seq<Entry>, i: nat, j: nat)
    requires i < j < |s| && s[i] == s[j]
    ensures multiset(s)[s[i]] >= 2
  {
    var x := s[i];
    assert s == s[..i] + [x] + s[i + 1..j] + [x] + s[j + 1..];
    assert multiset(s) == multiset(s[..i]) + multiset{x} + multiset(s[i + 1..j]) + multiset{x} + multiset(s[j + 1..]);
  }

  /** In a table with distinct countries, no line occurs twice. */
  lemma {:induction false} DistinctOnce(g: seq<Entry>, x: Entry)
    requires DistinctCountries(g)
    ensures multiset(g)[x] <= 1
    decreases |g|
  {
    if |g| > 0 {
      assert g == [g[0]] + g[1..];
      assert DistinctCountries(g[1..]) by {
        forall i, j | 0 <= i < j < |g[1..]|
          ensures g[1..][i].country != g[1..][j].country
        {
          assert g[1..][i] == g[i + 1] && g[1..][j] == g[j + 1];
        }
      }
      DistinctOnce(g[1..], x);
      if g[0] == x {
        forall k | 0 <= k < |g[1..]|
          ensures g[1..][k] != x
        {
          assert g[1..][k] == g[k + 1];
        }
        assert x !in multiset(g[1..]);
      }
    }
  }

  /**
   The top table when the sample has a `Cumulative_cases` column; otherwise
   the page prints a notice instead, modelled as `None`.
   */
  function TopCountriesView(t: Table): (r: Option<seq<Entry>>)
    ensures r.Some? <==> CumulativeColumn in t.columns
    ensures r.Some? ==> r.value == TopCountries(t.rows)
    ensures r.Some? ==> |r.value| <= TopCount && NonIncreasing(r.value) && DistinctCountries(r.value)
    ensures r.Some? ==> Faithful(t.rows, r.value)
  {
    if CumulativeColumn in t.columns then Some(TopCountries(t.rows)) else None
  }

  /** The rows `dropna=True` keeps: those that name a country, in order. */
  function KnownRows(rows: seq<Row>): (k: seq<Row>)
    ensures |k| <= |rows|
    ensures forall i :: 0 <= i < |k| ==> k[i].country.Some? && k[i] in rows
    ensures forall i :: 0 <= i < |rows| && rows[i].country.Some? ==> rows[i] in k
    ensures forall x :: multiset(k)[x] == if x.country.Some? then multiset(rows)[x] else 0
    decreases |rows|
  {
    if |rows| == 0 then []
    else
      var rest := KnownRows(rows[1..]);
      assert forall i :: 1 <= i < |rows| ==> rows[i] == rows[1..][i - 1];
      assert rows == [rows[0]] + rows[1..];
      if rows[0].country.Some? then [rows[0]] + rest else rest
  }

  /**
   The filter keeps row order: filtering two pieces and joining them is
   filtering the whole. With the one-row cases this fixes the result exactly.
   */
  lemma {:induction false} KnownRowsAppend(a: seq<Row>, b: seq<Row>)
    ensures KnownRows(a + b) == KnownRows(a) + KnownRows(b)
    decreases |a|
  {
    if |a| > 0 {
      assert (a + b)[1..] == a[1..] + b;
      KnownRowsAppend(a[1..], b);
    } else {
      assert a + b == b;
    }
  }

  lemma {:induction false} KnownRowsSameCountries(rows: seq<Row>)
    ensures CountryList(KnownRows(rows)) == CountryList(rows)
    decreases |rows|
  {
    if |rows| > 0 {
      KnownRowsSameCountries(rows[1..]);
      if rows[0].country.Some? {
        var k := KnownRows(rows);
        assert k[0] == rows[0] && k[1..] == KnownRows(rows[1..]);
      }
    }
  }

  lemma {:induction false} KnownRowsSameValues(rows: seq<Row>, c: string)
    ensures CaseValues(KnownRows(rows), c) == CaseValues(rows, c)
    decreases |rows|
  {
    if |rows| > 0 {
      KnownRowsSameValues(rows[1..], c);
      if rows[0].country.Some? {
        var k := KnownRows(rows);
        assert k[0] == rows[0] && k[1..] == KnownRows(rows[1..]);
      }
    }
  }

  /** Rows whose country is missing contribute nothing to the top table. */
  lemma MissingCountryRowsIgnored(rows: seq<Row>)
    ensures TopCountries(KnownRows(rows)) == TopCountries(rows)
  {
    KnownRowsSameCountries(rows);
    forall c {
      KnownRowsSameValues(rows, c);
    }
    assert GroupByMax(KnownRows(rows)) == GroupByMax(rows);
  }

  /** Counts 10, 50 and 5 for one country, plus a row with no country, report 50. */
  lemma SingleCountryExample()
    ensures TopCountries([
              Row("2020-03-01", None, Some("A"), None, None, Some(10), None, None),
              Row("2020-03-02", None, Some("A"), None, None, Some(50), None, None),
              Row("2020-03-02", None, None, None, None, Some(90), None, None),
              Row("2020-03-03", None, Some("A"), None, None, Some(5), None, None)])
            == [Entry("A", 50)]
  {
  }

  /** A country whose every count is unreadable is reported with 0. */
  lemma MissingCountsExample()
    ensures TopCountries([Row("2020-03-01", None, Some("B"), None, None, None, None, None)]) == [Entry("B", 0)]
  {
  }
}
