/**
 * The pipeline object: it holds its configuration and the tables each stage
 * produces, and runs load, clean, validate and transform in that order.
 */
module Pipeline {
  import opened Results
  import opened Text
  import opened Tables
  import opened Paths
  import opened Loader
  import opened Cleaning
  import opened Records
  import opened Validation
  import opened Frames
  import opened Export

  /** Why a run of the pipeline stopped. */
  datatype PipelineError = LoadFailed(load: LoadError) | IndexFailed(index: StructuralError)

  /**
   * The loop over a failing row's failures: each step adds the next numbered line and
   * appends an error row carrying the row, the failure count and the lines so far,
   * joined by ".\n".
   */
  method AppendErrorRows(errors: seq<ErrorRow>, row: Row, fs: seq<FieldError>) returns (r: seq<ErrorRow>)
    ensures r == errors + ErrorRowsAsWritten(row, fs)
  {
    ghost var spec := ErrorRowsAsWritten(row, fs);
    var outputErrors: seq<string> := [];
    r := errors;
    var j := 0;
    while j < |fs|
      invariant 0 <= j <= |fs|
      invariant outputErrors == Numbered(fs[..j])
      invariant r == errors + spec[..j]
    {
      NumberedSnoc(fs, j);
      outputErrors := outputErrors + [Message(j + 1, fs[j])];
      var errorDetails := Join(outputErrors, Separator);
      assert spec[..j + 1] == spec[..j] + [ErrorRow(row, |fs|, errorDetails)];
      r := r + [ErrorRow(row, |fs|, errorDetails)];
      j := j + 1;
    }
    assert spec[..|fs|] == spec;
  }

  /**
   * Writes the sheets into the workbook at outputFile in order, then saves it and
   * reports its location relative to cwd; the first failure ends the export.
   */
  method WriteWorkbook(disk: Disk, outputFile: Path, dataToExport: seq<SheetKind>, cwd: Path, outputFileName: string)
    returns (outcome: ExportOutcome)
    ensures outcome == WriteFrom(disk, outputFile, dataToExport, [], cwd, outputFileName)
  {
    ghost var spec := WriteFrom(disk, outputFile, dataToExport, [], cwd, outputFileName);
    var exportedItems: seq<string> := [];
    var k := 0;
    while k < |dataToExport|
      invariant 0 <= k <= |dataToExport|
      invariant spec == WriteFrom(disk, outputFile, dataToExport[k..], exportedItems, cwd, outputFileName)
    {
      var item := dataToExport[k];
      assert dataToExport[k..][1..] == dataToExport[k + 1..];
      var written := disk.writeSheet(outputFile, Title(item));
      if written == Denied {
        return FileOpen(Name(outputFile));
      } else if written.OsFailed? {
        return WriteFailed(outputFile, written.detail);
      }
      exportedItems := exportedItems + [Title(item)];
      k := k + 1;
    }
    var saved := disk.save(outputFile);
    if saved == Denied {
      return FileOpen(Name(outputFile));
    } else if saved.OsFailed? {
      return WriteFailed(outputFile, saved.detail);
    }
    if |cwd| <= |outputFile| && outputFile[..|cwd|] == cwd {
      outcome := Exported(exportedItems, outputFileName, outputFile[|cwd|..]);
    } else {
      outcome := OutsideWorkingDir(exportedItems, outputFile);
    }
  }

  class DataPipeline {
    const fileName: string
    const inputDirPath: string
    const excelParams: ReadParams
    /** `cwd / input_dir_path / file_name`, computed once. */
    const fullFilePath: Path
    /** The record schema every row is validated against. */
    const schema: Schema
    /** The field that indexes the validated table. */
    const idColumn: string
    /** The conversion of an identifier to a timestamp. */
    const parseIndex: Value -> Option<Value>

    var rawData: Option<Table>
    var validatedData: Option<ValidatedTable>
    var transformedData: Option<ValidatedTable>
    var inputDataErrors: Option<ErrorTable>

    /** A pipeline for the file; no table is held yet, and the read options default to parsing the dates. */
    constructor (fileName: string, inputDirPath: string := "data", excelParams: Option<ReadParams> := None,
                 cwd: Path, schema: Schema, idColumn: string, parseIndex: Value -> Option<Value>)
      ensures this.fileName == fileName && this.inputDirPath == inputDirPath
      ensures this.excelParams == (if excelParams.Some? then excelParams.value else DefaultParams)
      ensures fullFilePath == Append(Append(cwd, inputDirPath), fileName)
      ensures this.schema == schema && this.idColumn == idColumn && this.parseIndex == parseIndex
      ensures rawData == None && validatedData == None && transformedData == None && inputDataErrors == None
    {
      this.fileName := fileName;
      this.inputDirPath := inputDirPath;
      this.rawData := None;
      this.validatedData := None;
      this.transformedData := None;
      this.inputDataErrors := None;
      this.excelParams := if excelParams.Some? then excelParams.value else DefaultParams;
      this.fullFilePath := Append(Append(cwd, inputDirPath), fileName);
      this.schema := schema;
      this.idColumn := idColumn;
      this.parseIndex := parseIndex;
    }

    /**
     * Loads the file: not found, an unsupported suffix or a failing reader is
     * reported and nothing is stored; otherwise the table is stored as the raw data.
     */
    method LoadData(existing: set<Path>, readers: Readers) returns (r: Result<Table, LoadError>)
      modifies this`rawData
      ensures r == Load(fullFilePath, excelParams, existing, readers)
      ensures r.Success? ==> rawData == Some(r.value)
      ensures r.Failure? ==> rawData == old(rawData)
    {
      if fullFilePath !in existing {
        return Failure(NotFound(fullFilePath));
      }
      var suffix := LowerSuffix(fullFilePath);
      var read: Result<Table, string>;
      if suffix == ".xls" || suffix == ".xlsx" {
        read := readers.sheet(fullFilePath, excelParams);
      } else if suffix == ".csv" {
        read := readers.csv(fullFilePath, excelParams);
      } else {
        return Failure(Unsupported(suffix, fullFilePath));
      }
      if read.Failure? {
        return Failure(ReadFailed(read.error));
      }
      rawData := Some(read.value);
      r := Success(read.value);
    }

    /**
     * Validates every row: passing rows become records, and a failing row appends one
     * error row per failure, the k-th listing its first k numbered failures; the
     * validated table and the error table are stored together, and neither is stored
     * when the index cannot be built.
     */
    method ValidateInputs(df: Table) returns (r: Result<ValidationResult, StructuralError>)
      modifies this`validatedData, this`inputDataErrors
      ensures r == Validate(schema, idColumn, parseIndex, df)
      ensures r.Success? ==> validatedData == Some(r.value.validated) && inputDataErrors == Some(r.value.errors)
      ensures r.Failure? ==> validatedData == old(validatedData) && inputDataErrors == old(inputDataErrors)
    {
      var check := SchemaCheck(schema, df.columns);
      var dataList: seq<Record> := [];
      var errors: seq<ErrorRow> := [];
      var i := 0;
      while i < |df.rows|
        invariant 0 <= i <= |df.rows|
        invariant dataList == ValidatedRecords(check, df.rows[..i])
        invariant errors == ErrorRecordsAsWritten(check, df.rows[..i])
        invariant validatedData == old(validatedData) && inputDataErrors == old(inputDataErrors)
      {
        var row := df.rows[i];
        RowStep(schema, df.columns, df.rows, i);
        match ValidateRow(schema, df.columns, row) {
          case Success(record) =>
            dataList := dataList + [record];
          case Failure(fs) =>
            errors := AppendErrorRows(errors, row, fs);
        }
        i := i + 1;
      }
      assert df.rows[..|df.rows|] == df.rows;
      var built := BuildValidated(dataList, idColumn, parseIndex);
      var errorTable := ErrorTable(df.columns + [TotalErrorsColumn, ErrorDetailsColumn], errors);
      assert Validate(schema, idColumn, parseIndex, df) ==
        if built.Failure? then Failure(built.error) else Success(ValidationResult(built.value, errorTable, Summarize(errorTable)));
      if built.Failure? {
        return Failure(built.error);
      }
      inputDataErrors := Some(errorTable);
      validatedData := Some(built.value);
      r := Success(ValidationResult(built.value, errorTable, Summarize(errorTable)));
    }

    /** The transformation stage, which passes the validated table through unchanged. */
    method TransformData(df: ValidatedTable) returns (r: ValidatedTable)
      modifies this`transformedData
      ensures r == df && transformedData == Some(df)
    {
      transformedData := Some(df);
      r := df;
    }

    /**
     * The stages after a successful load: clean, validate, transform. An index
     * failure stores nothing; otherwise every table is stored and the summary reported.
     */
    method RunStages(raw: Table) returns (r: Result<Summary, PipelineError>)
      modifies this`validatedData, this`inputDataErrors, this`transformedData
      ensures var v := Validate(schema, idColumn, parseIndex, CleanData(raw));
        && (v.Failure? ==>
              r == Failure(IndexFailed(v.error)) && validatedData == old(validatedData) &&
              inputDataErrors == old(inputDataErrors) && transformedData == old(transformedData))
        && (v.Success? ==>
              r == Success(v.value.summary) && validatedData == Some(v.value.validated) &&
              inputDataErrors == Some(v.value.errors) && transformedData == Some(v.value.validated))
    {
      var cleaned := CleanData(raw);
      var validated := ValidateInputs(cleaned);
      if validated.Failure? {
        return Failure(IndexFailed(validated.error));
      }
      var _ := TransformData(validated.value.validated);
      r := Success(validated.value.summary);
    }

    /**
     * One full run: load, clean, validate, transform. A load failure stores nothing;
     * an index failure stores only the raw data; a complete run stores every table
     * and reports the validation summary. Earlier state never affects the result.
     */
    method Process(existing: set<Path>, readers: Readers) returns (r: Result<Summary, PipelineError>)
      modifies this`rawData, this`validatedData, this`inputDataErrors, this`transformedData
      ensures Load(fullFilePath, excelParams, existing, readers).Failure? ==>
        r == Failure(LoadFailed(Load(fullFilePath, excelParams, existing, readers).error)) &&
        rawData == old(rawData) && validatedData == old(validatedData) &&
        inputDataErrors == old(inputDataErrors) && transformedData == old(transformedData)
      ensures Load(fullFilePath, excelParams, existing, readers).Success? ==>
        var v := Validate(schema, idColumn, parseIndex, CleanData(Load(fullFilePath, excelParams, existing, readers).value));
        && rawData == Some(Load(fullFilePath, excelParams, existing, readers).value)
        && (v.Failure? ==>
              r == Failure(IndexFailed(v.error)) && validatedData == old(validatedData) &&
              inputDataErrors == old(inputDataErrors) && transformedData == old(transformedData))
        && (v.Success? ==>
              r == Success(v.value.summary) && validatedData == Some(v.value.validated) &&
              inputDataErrors == Some(v.value.errors) && transformedData == Some(v.value.validated))
    {
      var raw := LoadData(existing, readers);
      if raw.Failure? {
        return Failure(LoadFailed(raw.error));
      }
      r := RunStages(raw.value);
    }

    /**
     * Exports the requested held tables to one workbook under `cwd / output_folder`
     * and reports what happened, as the export outcome of the held tables.
     */
    method ExportData(outputFileName: string, exportErrors: bool := false, exportValidated: bool := false,
                      outputFolder: string := "reporting", cwd: Path, disk: Disk) returns (outcome: ExportOutcome)
      ensures outcome == ExportOutcomeOf(outputFileName, exportErrors, exportValidated, outputFolder, cwd,
                                         inputDataErrors, validatedData, disk)
    {
      var dataToExport: seq<SheetKind> := [];
      var inputErrorsExist := exportErrors && inputDataErrors.Some? &&
        |inputDataErrors.value.columns| > 0 && |inputDataErrors.value.rows| > 0;
      if inputErrorsExist {
        dataToExport := dataToExport + [ErrorsSheet];
      }
      var validatedDataExist := exportValidated && validatedData.Some? &&
        |validatedData.value.columns| > 0 && |validatedData.value.rows| > 0;
      if validatedDataExist {
        dataToExport := dataToExport + [ValidatedSheet];
      }
      ghost var spec := ExportOutcomeOf(outputFileName, exportErrors, exportValidated, outputFolder, cwd,
                                        inputDataErrors, validatedData, disk);
      assert dataToExport == Selected(exportErrors, exportValidated, inputDataErrors, validatedData);
      if dataToExport == [] {
        if !exportErrors && !exportValidated {
          return NothingSelected;
        }
        return NothingAvailable;
      }
      var outputDir := Append(cwd, outputFolder);
      var made := disk.mkdir(outputDir);
      if made == Denied {
        return FolderDenied(outputDir);
      } else if made.OsFailed? {
        return FolderFailed(outputDir, made.detail);
      }
      var outputFile := Append(outputDir, outputFileName);
      outcome := WriteWorkbook(disk, outputFile, dataToExport, cwd, outputFileName);
    }
  }
}
