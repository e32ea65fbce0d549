/**
 The country selector's list: the distinct non-missing countries of the
 sample, sorted ascending. The same sorted key list is what pandas' `groupby`
 produces, so the aggregation reuses it.
 */
module Countries {
  import opened Text
  import opened Rows

  predicate StrictlyAscending(s: seq<string>) {
    forall i, j :: 0 <= i < j < |s| ==> Less(s[i], s[j])
  }

  lemma AscendingIsDistinct(s: seq<string>)
    requires StrictlyAscending(s)
    ensures forall i, j :: 0 <= i < j < |s| ==> s[i] != s[j]
  {
    forall i, j | 0 <= i < j < |s|
      ensures s[i] != s[j]
    {
      LessIrreflexive(s[i]);
    }
  }

  /** `x` placed into an ascending list, unless it is already there. */
  function Insert(s: seq<string>, x: string): (r: seq<string>)
    requires StrictlyAscending(s)
    ensures StrictlyAscending(r)
    ensures forall y :: y in r <==> y in s || y == x
    decreases |s|
  {
    if |s| == 0 then [x]
    else if x == s[0] then s
    else if Less(x, s[0]) then
      assert forall y :: y in s ==> Less(x, y) by {
        forall y | y in s
          ensures Less(x, y)
        {
          var k :| 0 <= k < |s| && s[k] == y;
          if k > 0 {
            LessTransitive(x, s[0], y);
          }
        }
      }
      InsertFront(s, x);
      [x] + s
    else
      LessTotal(x, s[0]);
      var rest := Insert(s[1..], x);
      assert forall y :: y in rest ==> Less(s[0], y) by {
        forall y | y in rest
          ensures Less(s[0], y)
        {
          if y != x {
            var k :| 0 <= k < |s[1..]| && s[1..][k] == y;
            assert s[k + 1] == y;
          }
        }
      }
      assert s == [s[0]] + s[1..];
      InsertFront(rest, s[0]);
      [s[0]] + rest
  }

  /** An element below every element of an ascending list may be put in front of it. */
  lemma InsertFront(s: seq<string>, x: string)
    requires StrictlyAscending(s)
    requires forall y :: y in s ==> Less(x, y)
    ensures StrictlyAscending([x] + s)
  {
    var r := [x] + s;
    forall i, j | 0 <= i < j < |r|
      ensures Less(r[i], r[j])
    {
      if i == 0 {
        assert r[j] == s[j - 1];
      } else {
        assert r[i] == s[i - 1] && r[j] == s[j - 1];
      }
    }
  }

  /**
   `sorted(df["Country"].dropna().unique())`: each country some row names,
   exactly once, in ascending order; rows without a country add nothing.
   */
  function CountryList(rows: seq<Row>): (r: seq<string>)
    ensures StrictlyAscending(r)
    ensures forall c :: c in r <==> HasCountry(rows, c)
    ensures forall i, j :: 0 <= i < j < |r| ==> r[i] != r[j]
    decreases |rows|
  {
    if |rows| == 0 then []
    else
      var rest := CountryList(rows[1..]);
      CountriesOfTail(rows);
      var r := match rows[0].country
        case None => rest
        case Some(c) => Insert(rest, c);
      AscendingIsDistinct(r);
      r
  }

  /** The countries named by a table are its first row's and those of the rest. */
  lemma CountriesOfTail(rows: seq<Row>)
    requires |rows| > 0
    ensures forall c :: HasCountry(rows, c) <==> rows[0].country == Some(c) || HasCountry(rows[1..], c)
  {
    forall c | HasCountry(rows, c)
      ensures rows[0].country == Some(c) || HasCountry(rows[1..], c)
    {
      var i :| 0 <= i < |rows| && rows[i].country == Some(c);
      if i > 0 {
        assert rows[1..][i - 1].country == Some(c);
      }
    }
    forall c | HasCountry(rows[1..], c)
      ensures HasCountry(rows, c)
    {
      var i :| 0 <= i < |rows[1..]| && rows[1..][i].country == Some(c);
      assert rows[i + 1].country == Some(c);
    }
  }
}
