# COVID sample page: a verified model of its data logic

The page (`covid_analysis.py`) lets a user upload a WHO COVID-19 table as CSV,
TSV, XLS or XLSX. If nothing is uploaded, it uses a built-in sixteen-line table.
It keeps a random percentage of the uploaded rows, ranks the countries by their
largest cumulative case count, and offers a list of countries to chart.

This project models the data decisions under the page as pure Dafny functions
and proves what they promise:

- **Format dispatch** (`Reader`). The parser is chosen from the lower-cased file
  name. `.xls`/`.xlsx` gives the spreadsheet reader. Otherwise `.tsv`/`.txt`
  gives the tab reader. Anything else gives the comma reader. The contract
  states each outcome with a case-blind suffix test. That test is defined
  independently of lower-casing and proved equal to it.
- **Sample fraction** (`Sampling`). The fraction is `max(0.01, min(0.5, pct/100))`
  on exact reals. It is always in [0.01, 0.5]. It equals pct/100 exactly when
  1 ≤ pct ≤ 50. It is the admissible fraction nearest to the request, and it
  grows with pct.
- **Loading** (`Loader`). With no upload, the page returns the built-in table
  whole. Otherwise it reads the upload with the chosen parser and hands the
  rows to the sampler at the clamped fraction. Any read failure becomes the
  single "could not load" outcome. The parser and the sampler are parameters.
- **Top countries** (`Aggregate`). Rows are grouped by country, and rows
  without a country are dropped. Each country reports the maximum of its
  readable `Cumulative_cases`, or 0 if it has none. The groups are sorted
  largest first and the first ten are kept. The contract says the table has
  at most ten lines, is non-increasing, and names each country once. Every
  country shown occurs in the rows and carries its true maximum. A country
  left out means the table is full and every line shown is at least that
  country's maximum.
- **Country list** (`Countries`). This is the list behind the country selector.
  It holds each country some row names exactly once, in strictly ascending
  code-point order, the order Python uses for `str`.

A row is a record of `Option` cells. `None` stands for an empty cell or one
that numeric coercion could not read. A table is a set of column names plus a
sequence of rows.

Three behaviours of `covid_analysis.py` worth stating:

- The built-in table is read without the column restriction. It therefore
  carries eight columns, including `Country_code`, while uploads carry seven.
  `Rows.BuiltinColumns` and `Rows.UseCols` record both.
- A missing count is not treated as 0 inside the maximum. Missing counts are
  skipped, and 0 is used only when a country has no readable count at all
  (`max()` then `fillna(0)`). So a country whose every readable count is
  negative reports that negative maximum, not 0.
- The "column not found" branch is unreachable after any successful load.
  Both the restricted read and the built-in table always have
  `Cumulative_cases` (`Loader.LoadedTablesShowTopCountries`).

## Model

| member | source | states |
|---|---|---|
| `Text.Lower` | covid_analysis.py:68 | `str.lower` on the name: same length and no capital letter left |
| `Text.LowerCharInverse` | covid_analysis.py:68 | one character: a capital lowers to the letter it is the capital of; any other character is unchanged |
| `Text.LowerSpec` | covid_analysis.py:68 | position by position, each capital of the name becomes its lower-case letter and every other character is kept |
| `Text.EndsWithIsSplit` | covid_analysis.py:71-74 | `str.endswith`: the name ends with a suffix iff it is some string followed by that suffix |
| `Text.LessPrefix` | covid_analysis.py:146 | in the string order `sorted` uses, a proper prefix comes before the longer string |
| `Text.EndsWithLower` | covid_analysis.py:68-74 | for a lower-case extension, testing the lower-cased name is the same as a case-blind suffix test, in both directions |
| `Text.LessTotal` | covid_analysis.py:146 | the string order used for sorting relates any two different country names one way or the other |
| `Text.LessTransitive` | covid_analysis.py:146 | the string order used for sorting is transitive |
| `Rows.BuiltinSampleShape` | covid_analysis.py:18-35 | the built-in table has sixteen rows under eight columns including Country_code; every row is dated 2020-01-04, names a country and a code, and has cumulative cases and deaths 0 |
| `Reader.ChooseFormat` | covid_analysis.py:67-80 | spreadsheet iff the name ends in .xls or .xlsx in any case; tab iff not a spreadsheet name and it ends in .tsv or .txt; comma iff neither; exactly one holds |
| `Reader.ChooseFormatIgnoresCase` | covid_analysis.py:68 | two names equal up to letter case select the same reader |
| `Reader.ChooseFormatOfLower` | covid_analysis.py:68 | lower-casing the name beforehand does not change the reader |
| `Reader.SpreadsheetExamples` | covid_analysis.py:71-73 | REPORT.XLSX and old.Xls go to the spreadsheet reader |
| `Reader.TabExamples` | covid_analysis.py:74-76 | data.TSV and notes.txt go to the tab reader |
| `Reader.CommaExamples` | covid_analysis.py:71-79 | cases.csv falls through to the comma reader, and so does archive.xlsx.csv: only the final extension counts |
| `Reader.NoDotExample` | covid_analysis.py:71-79 | a bare `xlsx` with no dot is not a spreadsheet name |
| `Sampling.ClampFraction` | covid_analysis.py:95 | the fraction is in [0.01, 0.5]; it equals pct/100 iff 1 ≤ pct ≤ 50; it is 0.5 for pct ≥ 50 and 0.01 for pct ≤ 1 |
| `Sampling.ClampIsNearest` | covid_analysis.py:95 | no fraction in [0.01, 0.5] is closer to pct/100 than the clamped one |
| `Sampling.ClampMonotonic` | covid_analysis.py:95 | a larger percentage never yields a smaller fraction |
| `Sampling.ClampExamples` | covid_analysis.py:95 | 200% is held to 0.5, 0% is raised to 0.01, 5% stays 0.05 |
| `Countries.Insert` | covid_analysis.py:146 | adding a name to a strictly ascending list keeps it strictly ascending and adds exactly that name |
| `Countries.CountryList` | covid_analysis.py:146 | strictly ascending, no repeats, and a name is in it iff some row has that country |
| `Countries.AscendingIsDistinct` | covid_analysis.py:146 | a strictly ascending list holds each name at most once |
| `Aggregate.CaseValues` | covid_analysis.py:123 | v is among a country's readable counts iff some row of that country has cumulative count v |
| `Aggregate.MaxOrZero` | covid_analysis.py:123 | 0 for no values; otherwise one of the values and at least every value |
| `Aggregate.CountryMax` | covid_analysis.py:123 | at least every readable count of the country; equal to one of them, or 0 when the country has no readable count |
| `Aggregate.GroupByMax` | covid_analysis.py:123 | one line per country some row names, countries ascending and distinct, each line carrying its country's maximum |
| `Aggregate.InsertDescending` | covid_analysis.py:124 | inserting into a non-increasing table keeps it non-increasing and adds exactly that line |
| `Aggregate.SortDescending` | covid_analysis.py:124 | the result is non-increasing and a permutation of the input |
| `Aggregate.Head` | covid_analysis.py:124 | at most n lines, a prefix of the input, and the whole input when it is shorter than n |
| `Aggregate.SortedKeepsLines` | covid_analysis.py:123-124 | a permutation of the grouped table still has distinct, known countries each with its maximum |
| `Aggregate.HeadKeepsLines` | covid_analysis.py:124 | the first ten lines of a sorted table with distinct, known, faithful countries are themselves sorted, distinct, known and faithful |
| `Aggregate.LeftOutRanksBelow` | covid_analysis.py:124 | a line of a sorted table that is not among its first ten is at most each of them, and those ten lines are full |
| `Aggregate.HeadIsTop` | covid_analysis.py:124 | a country missing from the first ten lines of the sorted table ranks no higher than every line kept, and the ten lines are full |
| `Aggregate.TopCountries` | covid_analysis.py:122-125 | at most 10 lines, non-increasing, distinct countries that occur in the rows, each with its maximum; any country left out implies ten lines all at least its maximum |
| `Aggregate.TopCountriesView` | covid_analysis.py:122-127 | the table is produced iff the sample has a Cumulative_cases column; it is then exactly the top-countries table of the sample's rows, with at most ten lines, sorted, distinct countries, each carrying its maximum |
| `Aggregate.KnownRows` | covid_analysis.py:123 | each row that names a country is kept as often as it occurs, and no other row is kept |
| `Aggregate.KnownRowsAppend` | covid_analysis.py:123 | the filter keeps row order: filtering two pieces and joining them equals filtering the whole |
| `Aggregate.KnownRowsSameCountries` | covid_analysis.py:146 | dropping rows without a country leaves the country list unchanged |
| `Aggregate.KnownRowsSameValues` | covid_analysis.py:123 | dropping rows without a country leaves each country's counts unchanged |
| `Aggregate.MissingCountryRowsIgnored` | covid_analysis.py:123 | rows without a country contribute nothing to the top table |
| `Aggregate.SingleCountryExample` | covid_analysis.py:123-124 | counts 10, 50 and 5 for one country, plus a row with no country, give the single line (A, 50) |
| `Aggregate.MissingCountsExample` | covid_analysis.py:123 | a country with no readable count is reported with 0 |
| `Loader.ReadUploaded` | covid_analysis.py:67-80 | fails iff the parser for the chosen format fails; otherwise the table holds exactly the parsed rows under exactly the seven restricted columns |
| `Loader.LoadSmallSample` | covid_analysis.py:86-97 | the built-in flag gives the built-in table; otherwise a failed read gives the error, and a good read gives the sampler's rows at the clamped fraction with the restricted columns |
| `Loader.LoadPage` | covid_analysis.py:50-55 | no upload gives the built-in table; the error arises iff an upload's parse fails; a good parse loads the sampler's rows at the clamped fraction under the restricted columns |
| `Loader.BuiltinIgnoresPercentage` | covid_analysis.py:87-90 | with no upload, every percentage, parser and sampler give the same sixteen-row table |
| `Loader.SamplerSeesOnlyClampedFractions` | covid_analysis.py:95-96 | two samplers that agree on fractions in [0.01, 0.5] give the same load |
| `Loader.PercentagesOutsideRangeCoincide` | covid_analysis.py:95 | all percentages ≥ 50 load the same table, as do all ≤ 1 |
| `Loader.LoadIgnoresNameCase` | covid_analysis.py:68 | file names equal up to letter case load the same table |
| `Loader.UploadedRowsComeFromFile` | covid_analysis.py:96 | if the sampler only draws rows it was given, a loaded upload holds a sub-multiset of the parsed rows |
| `Loader.LoadedTablesShowTopCountries` | covid_analysis.py:122 | every successfully loaded table yields a top-countries table, never the "column not found" notice |
| `Loader.BuiltinTopIsAllZero` | covid_analysis.py:18-35 | every line of the built-in table's top-countries table reports 0 cases |

## Left out

- Page layout, sidebar widgets, `st.cache_data`, and the error-to-message display (lines 40-62, 85, 100-104). These are UI framework plumbing. The error is modelled only as the `CouldNotLoad` outcome.
- Byte parsing by `pd.read_csv`/`pd.read_excel` and date parsing (lines 73-79, 89). These are library internals. The parser is a parameter, and dates are kept as their text.
- `DataFrame.sample(frac, random_state=42)` and `reset_index` (line 96). The seeded generator and its rounding of `frac * n` are library behaviour. The sampler is a parameter, so the row count `round(frac * n)` is not stated.
- `pd.to_numeric(errors="coerce")` (lines 114-116). This parses strings into floats. Cells are modelled directly as its outcome, an `Option<int>`. The truncation done by `astype(int)` on fractional counts is not modelled.
- The preview (line 110-111), the bar and line charts (lines 132-163), and the CSV/TSV/XLSX download payloads and file names (lines 170-190). These are rendering and foreign serialisers.
- `Aggregate.CountryMax`: counts are unbounded integers. pandas holds them as int64 or float64, so two cases are not modelled. A non-finite count (`inf` from `to_numeric`) makes `astype(int)` raise outside the `try`, which stops the page. A maximum outside the int64 range is cast to a wrong integer.
- `Text.Lower`: lower-cases ASCII capitals only, because Python's full Unicode `str.lower` table is not modelled. No non-ASCII character lower-cases to `.`, `x`, `l`, `s`, `t` or `v`, so the format decision is unaffected.
- `Sampling.ClampFraction`: computed on exact reals, not binary floating point. `0.01` and `pct / 100.0` therefore carry no rounding.
- `Aggregate.SortDescending`: the contract promises only a non-increasing permutation. pandas' default sort is not stable, so no tie order is promised. The model's own insertion sort happens to keep ties in ascending country order.
