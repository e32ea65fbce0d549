/**
 `load_small_sample` and the page code that calls it. pandas' readers and
 `DataFrame.sample` cannot be seen, so they are parameters: a parser that
 either yields the rows of the selected columns or fails, and a sampler
 taking rows and a fraction.
 */
module Loader {
  import opened Rows
  import opened Reader
  import opened Sampling
  import opened Text
  import opened Aggregate

  /** An uploaded file: the name it was uploaded under and its bytes. */
  datatype Upload = Upload(name: string, content: seq<bv8>)

  /**
   A reader for one format restricted to the page's columns; `None` when the
   bytes are not valid for the format or a required column is absent.
   */
  type Parser = (Format, seq<bv8>) -> Option<seq<Row>>

  /** `DataFrame.sample(frac=…, random_state=42)` followed by a fresh index. */
  type Sampler = (seq<Row>, real) -> seq<Row>

  /** A loaded table, or the single "could not load data" message. */
  datatype LoadResult = Loaded(table: Table) | CouldNotLoad

  /**
   `read_uploaded_file`: the parser chosen from the name's extension, and a
   table carrying exactly the restricted columns whatever the file held.
   */
  function ReadUploaded(file: Upload, parse: Parser): (r: Option<Table>)
    ensures r.None? <==> parse(ChooseFormat(file.name), file.content).None?
    ensures r.Some? ==> r.value.columns == UseCols && CumulativeColumn in r.value.columns
    ensures r.Some? ==> r.value.rows == parse(ChooseFormat(file.name), file.content).value
  {
    match parse(ChooseFormat(file.name), file.content)
    case None => None
    case Some(rows) => Some(Table(UseCols, rows))
  }

  /**
   `load_small_sample(uploaded_file, fraction, use_builtin_sample)`: the
   built-in table whole, or the uploaded rows as the sampler returns them at
   the clamped fraction. With no built-in flag and no file, reading fails.
   */
  function LoadSmallSample(uploaded: Option<Upload>, pct: int, useBuiltin: bool, parse: Parser, sample: Sampler): (r: LoadResult)
    ensures useBuiltin ==> r == Loaded(BuiltinSample)
    ensures !useBuiltin && uploaded.None? ==> r == CouldNotLoad
    ensures !useBuiltin && uploaded.Some? ==>
              match parse(ChooseFormat(uploaded.value.name), uploaded.value.content)
              case None => r == CouldNotLoad
              case Some(rows) => r == Loaded(Table(UseCols, sample(rows, ClampFraction(pct))))
  {
    if useBuiltin then Loaded(BuiltinSample)
    else match uploaded
      case None => CouldNotLoad
      case Some(file) =>
        match ReadUploaded(file, parse)
        case None => CouldNotLoad
        case Some(full) => Loaded(Table(full.columns, sample(full.rows, ClampFraction(pct))))
  }

  /** The page: the built-in table is used exactly when nothing was uploaded. */
  function LoadPage(uploaded: Option<Upload>, pct: int, parse: Parser, sample: Sampler): (r: LoadResult)
    ensures uploaded.None? ==> r == Loaded(BuiltinSample)
    ensures r.CouldNotLoad? <==> uploaded.Some? && parse(ChooseFormat(uploaded.value.name), uploaded.value.content).None?
    ensures uploaded.Some? ==>
              match parse(ChooseFormat(uploaded.value.name), uploaded.value.content)
              case None => r == CouldNotLoad
              case Some(rows) => r == Loaded(Table(UseCols, sample(rows, ClampFraction(pct))))
  {
    LoadSmallSample(uploaded, pct, uploaded.None?, parse, sample)
  }

  /** With nothing uploaded, the percentage, the parser and the sampler are never consulted. */
  lemma BuiltinIgnoresPercentage(p1: int, p2: int, parse1: Parser, parse2: Parser, sample1: Sampler, sample2: Sampler)
    ensures LoadPage(None, p1, parse1, sample1) == LoadPage(None, p2, parse2, sample2)
    ensures LoadPage(None, p1, parse1, sample1).Loaded?
    ensures |LoadPage(None, p1, parse1, sample1).table.rows| == 16
  {
  }

  /**
   The sampler is only ever asked for a fraction in [1%, 50%]: two samplers
   that agree there give the same load, whatever they do elsewhere.
   */
  lemma SamplerSeesOnlyClampedFractions(uploaded: Option<Upload>, pct: int, parse: Parser, s1: Sampler, s2: Sampler)
    requires forall rows, f :: MinFraction <= f <= MaxFraction ==> s1(rows, f) == s2(rows, f)
    ensures LoadPage(uploaded, pct, parse, s1) == LoadPage(uploaded, pct, parse, s2)
  {
    var f := ClampFraction(pct);
    assert MinFraction <= f <= MaxFraction;
  }

  /** Percentages at or above 50 all load the same table, as do those at or below 1. */
  lemma PercentagesOutsideRangeCoincide(uploaded: Option<Upload>, p: int, q: int, parse: Parser, sample: Sampler)
    requires (p >= 50 && q >= 50) || (p <= 1 && q <= 1)
    ensures LoadPage(uploaded, p, parse, sample) == LoadPage(uploaded, q, parse, sample)
  {
  }

  /** Upper- and lower-case spellings of the same file name load the same table. */
  lemma LoadIgnoresNameCase(a: string, b: string, bytes: seq<bv8>, pct: int, parse: Parser, sample: Sampler)
    requires Lower(a) == Lower(b)
    ensures LoadPage(Some(Upload(a, bytes)), pct, parse, sample) == LoadPage(Some(Upload(b, bytes)), pct, parse, sample)
  {
    ChooseFormatIgnoresCase(a, b);
  }

  /**
   When the sampler only draws rows it was given, an uploaded load holds
   nothing that was not in the file.
   */
  lemma UploadedRowsComeFromFile(file: Upload, pct: int, parse: Parser, sample: Sampler)
    requires forall rows, f :: multiset(sample(rows, f)) <= multiset(rows)
    ensures match LoadPage(Some(file), pct, parse, sample)
            case CouldNotLoad => true
            case Loaded(t) =>
              && parse(ChooseFormat(file.name), file.content).Some?
              && multiset(t.rows) <= multiset(parse(ChooseFormat(file.name), file.content).value)
  {
  }

  /**
   Every table the page loads has a cumulative column, so the "column not
   found" notice is never the outcome of a successful load.
   */
  lemma LoadedTablesShowTopCountries(uploaded: Option<Upload>, pct: int, parse: Parser, sample: Sampler)
    ensures LoadPage(uploaded, pct, parse, sample).Loaded? ==>
              TopCountriesView(LoadPage(uploaded, pct, parse, sample).table).Some?
  {
  }

  /** Every country of the built-in table has cumulative count 0, so its top table reports only zeros. */
  lemma BuiltinTopIsAllZero()
    ensures forall i :: 0 <= i < |TopCountries(BuiltinSample.rows)| ==> TopCountries(BuiltinSample.rows)[i].cases == 0
  {
    var rows := BuiltinSample.rows;
    assert forall i :: 0 <= i < |rows| ==> rows[i].cumulative == Some(0);
  }
}
