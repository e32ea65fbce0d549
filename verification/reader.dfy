/**
 `read_uploaded_file`'s choice of parser. Only the decision is modelled; the
 parsing itself is pandas' and is handed to the loader as a parameter.
 */
module Reader {
  import opened Text

  datatype Format = Spreadsheet | TabDelimited | CommaDelimited

  predicate IsSpreadsheetName(name: string) {
    EndsWithIgnoringCase(name, ".xls") || EndsWithIgnoringCase(name, ".xlsx")
  }

  predicate IsTabName(name: string) {
    EndsWithIgnoringCase(name, ".tsv") || EndsWithIgnoringCase(name, ".txt")
  }

  /**
   Lower-case the name, then test the spreadsheet extensions before the tab
   ones; anything else is read as comma-separated text.
   */
  function ChooseFormat(fileName: string): (f: Format)
    ensures f == Spreadsheet <==> IsSpreadsheetName(fileName)
    ensures f == TabDelimited <==> !IsSpreadsheetName(fileName) && IsTabName(fileName)
    ensures f == CommaDelimited <==> !IsSpreadsheetName(fileName) && !IsTabName(fileName)
  {
    EndsWithLower(fileName, ".xls");
    EndsWithLower(fileName, ".xlsx");
    EndsWithLower(fileName, ".tsv");
    EndsWithLower(fileName, ".txt");
    var name := Lower(fileName);
    if EndsWith(name, ".xls") || EndsWith(name, ".xlsx") then Spreadsheet
    else if EndsWith(name, ".tsv") || EndsWith(name, ".txt") then TabDelimited
    else CommaDelimited
  }

  /** Names that differ only in letter case are read the same way. */
  lemma ChooseFormatIgnoresCase(a: string, b: string)
    requires Lower(a) == Lower(b)
    ensures ChooseFormat(a) == ChooseFormat(b)
  {
  }

  /** Lower-casing the name first changes nothing. */
  lemma ChooseFormatOfLower(name: string)
    ensures ChooseFormat(Lower(name)) == ChooseFormat(name)
  {
    LowerIdempotent(name);
  }

  /** One mismatching position is enough to rule a suffix out. */
  lemma NotSuffix(s: string, suffix: string, j: nat)
    requires j < |suffix| <= |s|
    requires s[|s| - |suffix| + j] != suffix[j] && s[|s| - |suffix| + j] != UpperChar(suffix[j])
    ensures !EndsWithIgnoringCase(s, suffix)
  {
  }

  /** Spreadsheet names in the cases a user might type them. */
  lemma SpreadsheetExamples()
    ensures ChooseFormat("REPORT.XLSX") == Spreadsheet
    ensures ChooseFormat("old.Xls") == Spreadsheet
  {
  }

  /** `.tsv` and `.txt` names, in either case, are read with tabs. */
  lemma TabExamples()
    ensures ChooseFormat("data.TSV") == TabDelimited
    ensures ChooseFormat("notes.txt") == TabDelimited
  {
    NotSuffix("data.TSV", ".xls", 1);
    NotSuffix("data.TSV", ".xlsx", 0);
    NotSuffix("notes.txt", ".xls", 1);
    NotSuffix("notes.txt", ".xlsx", 0);
    assert EndsWithIgnoringCase("data.TSV", ".tsv");
    assert EndsWithIgnoringCase("notes.txt", ".txt");
  }

  /** A plain `.csv` name falls through to the comma reader, and only the final extension counts. */
  lemma CommaExamples()
    ensures ChooseFormat("cases.csv") == CommaDelimited
    ensures ChooseFormat("archive.xlsx.csv") == CommaDelimited
  {
    NotSuffix("cases.csv", ".xls", 1);
    NotSuffix("cases.csv", ".xlsx", 0);
    NotSuffix("cases.csv", ".tsv", 1);
    NotSuffix("cases.csv", ".txt", 1);
    NotSuffix("archive.xlsx.csv", ".xls", 1);
    NotSuffix("archive.xlsx.csv", ".xlsx", 0);
    NotSuffix("archive.xlsx.csv", ".tsv", 1);
    NotSuffix("archive.xlsx.csv", ".txt", 1);
  }

  /** A name that is only the extension letters, with no dot, is not a spreadsheet. */
  lemma NoDotExample()
    ensures ChooseFormat("xlsx") == CommaDelimited
  {
    NotSuffix("xlsx", ".xls", 0);
    NotSuffix("xlsx", ".tsv", 0);
    NotSuffix("xlsx", ".txt", 0);
  }
}
