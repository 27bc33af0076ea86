/** Loading the source file: the existence check and the choice of reader by file suffix. */
module Loader {
  import opened Results
  import opened Text
  import opened Tables
  import opened Paths

  /** The keyword options handed unchanged to either reader (`**excel_params`). */
  type ReadParams = map<string, seq<string>>

  /** The options used when the caller gives none: parse the Start and Finish columns as dates. */
  const DefaultParams: ReadParams := map["parse_dates" := ["Start", "Finish"]]

  datatype Reader = SheetReader | CsvReader

  datatype LoadError =
    | NotFound(path: Path)
    | Unsupported(suffix: string, path: Path)
    | ReadFailed(detail: string)

  /**
   * The two file readers, which are outside the model: each takes the path and the
   * options and yields the table read, or the reason reading failed.
   */
  datatype Readers = Readers(
    sheet: (Path, ReadParams) -> Result<Table, string>,
    csv: (Path, ReadParams) -> Result<Table, string>)

  /** The lower-cased suffix of the path's final name, the value the loader dispatches on. */
  function LowerSuffix(path: Path): string
  {
    Lower(Suffix(Name(path)))
  }

  /** Which reader loads the file at path, or why none does; existing is the set of paths that exist. */
  function ReaderFor(path: Path, existing: set<Path>): (r: Result<Reader, LoadError>)
    ensures r.Failure? && r.error.Unsupported? ==> r.error.path == path && r.error.suffix == LowerSuffix(path)
    ensures r.Failure? ==> !r.error.ReadFailed?
  {
    if path !in existing then Failure(NotFound(path))
    else
      var suffix := LowerSuffix(path);
      if suffix == ".xls" || suffix == ".xlsx" then Success(SheetReader)
      else if suffix == ".csv" then Success(CsvReader)
      else Failure(Unsupported(suffix, path))
  }

  /** The final name ends with ext, ignoring case, and has something before it. */
  predicate EndsWithIgnoringCase(name: string, ext: string)
  {
    |name| > |ext| && Lower(name[|name| - |ext|..]) == ext
  }

  /** A lower-case extension: a dot followed by at least one character and no further dot. */
  predicate IsExtension(ext: string)
  {
    |ext| >= 2 && ext[0] == '.' && '.' !in ext[1..]
  }

  /** The lower-cased suffix is ext exactly when the name ends with ext, ignoring case. */
  lemma LowerSuffixIsExtension(name: string, ext: string)
    requires IsExtension(ext)
    ensures Lower(Suffix(name)) == ext <==> EndsWithIgnoringCase(name, ext)
  {
    if EndsWithIgnoringCase(name, ext) {
      var j := |name| - |ext|;
      LowerDrop(name, j);
      assert Lower(name)[j] == ext[0];
      assert name[j] == '.';
      forall k | j < k < |name| ensures name[k] != '.' {
        assert Lower(name)[k] == ext[k - j];
        assert ext[k - j] in ext[1..];
      }
      assert LastDot(name) == Some(j) by {
        var d := LastDot(name);
        if d.Some? && d.value < j {
          assert false;
        }
      }
      assert Suffix(name) == name[j..];
    }
    if Lower(Suffix(name)) == ext {
      var s := Suffix(name);
      assert |s| == |ext| && s != "";
      SuffixIsTail(name);
    }
  }

  /**
   * The whole dispatch, stated on the final name: a missing file is not found; an
   * existing one is read as a spreadsheet when its name ends in .xls or .xlsx, and
   * as CSV when it ends in .csv, in any letter case; anything else is unsupported.
   */
  lemma ReaderChoice(path: Path, existing: set<Path>)
    ensures ReaderFor(path, existing) == Failure(NotFound(path)) <==> path !in existing
    ensures ReaderFor(path, existing) == Success(SheetReader) <==>
      path in existing && (EndsWithIgnoringCase(Name(path), ".xls") || EndsWithIgnoringCase(Name(path), ".xlsx"))
    ensures ReaderFor(path, existing) == Success(CsvReader) <==>
      path in existing && EndsWithIgnoringCase(Name(path), ".csv")
    ensures ReaderFor(path, existing).Failure? && ReaderFor(path, existing).error.Unsupported? <==>
      path in existing && !EndsWithIgnoringCase(Name(path), ".xls") &&
      !EndsWithIgnoringCase(Name(path), ".xlsx") && !EndsWithIgnoringCase(Name(path), ".csv")
  {
    var name := Name(path);
    assert IsExtension(".xls") && IsExtension(".xlsx") && IsExtension(".csv");
    LowerSuffixIsExtension(name, ".xls");
    LowerSuffixIsExtension(name, ".xlsx");
    LowerSuffixIsExtension(name, ".csv");
  }

  /** Two names that differ only in letter case select the same reader. */
  lemma ReaderIgnoresCase(p: Path, q: Path, existing: set<Path>)
    requires Lower(Name(p)) == Lower(Name(q))
    requires p in existing <==> q in existing
    ensures ReaderFor(p, existing).Success? <==> ReaderFor(q, existing).Success?
    ensures ReaderFor(p, existing).Success? ==> ReaderFor(p, existing) == ReaderFor(q, existing)
  {
    var np, nq := Name(p), Name(q);
    calc {
      LowerSuffix(p);
      Lower(Suffix(np));
      { SuffixLower(np); }
      Suffix(Lower(np));
      Suffix(Lower(nq));
      { SuffixLower(nq); }
      Lower(Suffix(nq));
      LowerSuffix(q);
    }
  }

  /**
   * The configured file's suffix is that of the file name's own last part, whatever
   * the folders before it.
   */
  lemma ConfiguredSuffix(cwd: Path, inputDirPath: string, fileName: string)
    ensures var parts := Components(fileName);
      parts != [] ==>
        LowerSuffix(Append(Append(cwd, inputDirPath), fileName)) == Lower(Suffix(parts[|parts| - 1]))
  {
    AppendName(Append(cwd, inputDirPath), fileName);
  }

  /** Reads the table with the chosen reader; a reader's failure is reported, not hidden. */
  function ReadWith(reader: Reader, readers: Readers, path: Path, params: ReadParams): (r: Result<Table, LoadError>)
    ensures r.Failure? ==> r.error.ReadFailed?
  {
    var read := if reader == SheetReader then readers.sheet(path, params) else readers.csv(path, params);
    match read
    case Success(t) => Success(t)
    case Failure(detail) => Failure(ReadFailed(detail))
  }

  /**
   * What loading the file at path yields: not found, an unsupported suffix, or the
   * outcome of the reader the suffix picks, whose failure is reported as a read failure.
   */
  function Load(path: Path, params: ReadParams, existing: set<Path>, readers: Readers): (r: Result<Table, LoadError>)
    ensures path !in existing ==> r == Failure(NotFound(path))
    ensures path in existing && LowerSuffix(path) !in {".xls", ".xlsx", ".csv"} ==>
      r == Failure(Unsupported(LowerSuffix(path), path))
    ensures path in existing && LowerSuffix(path) in {".xls", ".xlsx"} ==>
      r == (match readers.sheet(path, params)
            case Success(t) => Success(t)
            case Failure(d) => Failure(ReadFailed(d)))
    ensures path in existing && LowerSuffix(path) == ".csv" ==>
      r == (match readers.csv(path, params)
            case Success(t) => Success(t)
            case Failure(d) => Failure(ReadFailed(d)))
    ensures r.Success? ==> path in existing && LowerSuffix(path) in {".xls", ".xlsx", ".csv"}
  {
    match ReaderFor(path, existing)
    case Failure(e) => Failure(e)
    case Success(reader) => ReadWith(reader, readers, path, params)
  }
}
