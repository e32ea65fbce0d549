/**
 The data the page works on: one row per (date, country) report with the WHO
 columns, and a table that also remembers which columns it was read with.
 A cell that was empty, or that numeric coercion could not read, is `None`.
 */
module Rows {

  datatype Option<T> = None | Some(value: T)

  datatype Row = Row(
    date: string,
    countryCode: Option<string>,
    country: Option<string>,
    region: Option<string>,
    newCases: Option<int>,
    cumulative: Option<int>,
    newDeaths: Option<int>,
    cumulativeDeaths: Option<int>)

  datatype Table = Table(columns: set<string>, rows: seq<Row>)

  const CumulativeColumn: string := "Cumulative_cases"

  /** The columns an uploaded file is restricted to. */
  const UseCols: set<string> :=
    {"Date_reported", "Country", "WHO_region", "New_cases", "Cumulative_cases", "New_deaths", "Cumulative_deaths"}

  /** The built-in text is read without a column restriction, so it keeps `Country_code`. */
  const BuiltinColumns: set<string> := UseCols + {"Country_code"}

  /** Some row of the table names country `c`. */
  predicate HasCountry(rows: seq<Row>, c: string) {
    exists i :: 0 <= i < |rows| && rows[i].country == Some(c)
  }

  /** One line of the built-in text: every line is dated 2020-01-04 and has zero cumulative counts. */
  function SampleRow(code: string, country: string, region: string, newCases: Option<int>, newDeaths: Option<int>): Row {
    Row("2020-01-04", Some(code), Some(country), Some(region), newCases, Some(0), newDeaths, Some(0))
  }

  /** The sixteen-line table used when nothing is uploaded. */
  const BuiltinSample: Table := Table(BuiltinColumns, [
    SampleRow("NE", "Niger", "AFR", None, None),
    SampleRow("NO", "Norway", "EUR", None, None),
    SampleRow("PW", "Palau", "WPR", Some(0), Some(0)),
    SampleRow("PY", "Paraguay", "AMR", None, None),
    SampleRow("PN", "Pitcairn", "WPR", Some(0), Some(0)),
    SampleRow("SH", "Saint Helena", "AFR", None, None),
    SampleRow("SM", "San Marino", "EUR", None, None),
    SampleRow("RS", "Serbia", "EUR", None, None),
    SampleRow("ZA", "South Africa", "AFR", Some(0), Some(0)),
    SampleRow("ES", "Spain", "EUR", Some(0), Some(0)),
    SampleRow("TH", "Thailand", "SEAR", Some(0), Some(0)),
    SampleRow("VU", "Vanuatu", "WPR", Some(0), Some(0)),
    SampleRow("VE", "Venezuela (Bolivarian Republic of)", "AMR", None, None),
    SampleRow("AI", "Anguilla", "AMR", None, None),
    SampleRow("AZ", "Azerbaijan", "EUR", None, None),
    SampleRow("BT", "Bhutan", "SEAR", Some(0), Some(0))
  ])

  /**
   The built-in table: sixteen rows, all dated 2020-01-04, each naming a
   country and a code, with cumulative cases and deaths both 0, under the
   eight columns of the text including `Country_code`.
   */
  lemma BuiltinSampleShape()
    ensures |BuiltinSample.rows| == 16
    ensures |BuiltinSample.columns| == 8 && "Country_code" in BuiltinSample.columns && CumulativeColumn in BuiltinSample.columns
    ensures forall i :: 0 <= i < 16 ==>
              && BuiltinSample.rows[i].date == "2020-01-04"
              && BuiltinSample.rows[i].country.Some? && BuiltinSample.rows[i].countryCode.Some?
              && BuiltinSample.rows[i].cumulative == Some(0) && BuiltinSample.rows[i].cumulativeDeaths == Some(0)
  {
  }
}
