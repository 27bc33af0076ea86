/**
 * Exporting the held tables to one multi-sheet workbook: which sheets are included,
 * the two ways the export does nothing, and how each file-system failure is reported.
 * The file system is an abstract environment that answers each request with a status.
 */
module Export {
  import opened Results
  import opened Text
  import opened Paths
  import opened Validation

  /** The two tables that can be exported, in the order they are written. */
  datatype SheetKind = ErrorsSheet | ValidatedSheet

  /** The name of a table's sheet, which is also the description used in the success message. */
  function Title(k: SheetKind): string
  {
    match k
    case ErrorsSheet => "Input Data Errors"
    case ValidatedSheet => "Validated Data"
  }

  /** The answer of the file system to one request. */
  datatype IoStatus = Done | Denied | OsFailed(detail: string)

  /**
   * The file system as the export sees it: creating a folder (with its parents, and
   * succeeding when it exists), writing one sheet into the workbook at a path, and
   * saving the workbook when the writer is closed.
   */
  datatype Disk = Disk(
    mkdir: Path -> IoStatus,
    writeSheet: (Path, string) -> IoStatus,
    save: Path -> IoStatus)

  /** What one call of the export reports. */
  datatype ExportOutcome =
    | NothingSelected
    | NothingAvailable
    | FolderDenied(dir: Path)
    | FolderFailed(dir: Path, detail: string)
    | FileOpen(name: string)
    | WriteFailed(file: Path, detail: string)
    | Exported(items: seq<string>, fileName: string, location: Path)
    | OutsideWorkingDir(items: seq<string>, file: Path)

  /** A frame is empty when it has no rows or no columns. */
  predicate ErrorsAvailable(errors: Option<ErrorTable>)
  {
    errors.Some? && |errors.value.columns| > 0 && |errors.value.rows| > 0
  }

  predicate ValidatedAvailable(validated: Option<ValidatedTable>)
  {
    validated.Some? && |validated.value.columns| > 0 && |validated.value.rows| > 0
  }

  /** The sheets to write: each requested table that is present and not empty, errors first. */
  function Selected(exportErrors: bool, exportValidated: bool,
                    errors: Option<ErrorTable>, validated: Option<ValidatedTable>): seq<SheetKind>
  {
    (if exportErrors && ErrorsAvailable(errors) then [ErrorsSheet] else []) +
    (if exportValidated && ValidatedAvailable(validated) then [ValidatedSheet] else [])
  }

  function Titles(sheets: seq<SheetKind>): (r: seq<string>)
    ensures |r| == |sheets|
  {
    seq(|sheets|, i requires 0 <= i < |sheets| => Title(sheets[i]))
  }

  /** The list of exported tables as the success message prints it. */
  function ExportedList(items: seq<string>): string
  {
    Join(items, " and ")
  }

  /** The last step: the workbook is saved, and its location is reported relative to cwd. */
  function Finish(disk: Disk, file: Path, items: seq<string>, cwd: Path, outputFileName: string): ExportOutcome
  {
    match disk.save(file)
    case Denied => FileOpen(Name(file))
    case OsFailed(d) => WriteFailed(file, d)
    case Done =>
      if |cwd| <= |file| && file[..|cwd|] == cwd then Exported(items, outputFileName, file[|cwd|..])
      else OutsideWorkingDir(items, file)
  }

  /** The sheets are written in order; the first failure ends the export. */
  function WriteFrom(disk: Disk, file: Path, sheets: seq<SheetKind>, items: seq<string>,
                     cwd: Path, outputFileName: string): ExportOutcome
    decreases |sheets|
  {
    if |sheets| == 0 then Finish(disk, file, items, cwd, outputFileName)
    else
      match disk.writeSheet(file, Title(sheets[0]))
      case Denied => FileOpen(Name(file))
      case OsFailed(d) => WriteFailed(file, d)
      case Done => WriteFrom(disk, file, sheets[1..], items + [Title(sheets[0])], cwd, outputFileName)
  }

  /** The output folder, `cwd / output_folder`. */
  function OutputDir(cwd: Path, outputFolder: string): Path
  {
    Append(cwd, outputFolder)
  }

  /** The output file, `cwd / output_folder / output_file_name`. */
  function OutputFile(cwd: Path, outputFolder: string, outputFileName: string): Path
  {
    Append(OutputDir(cwd, outputFolder), outputFileName)
  }

  /** What exporting the held tables reports. */
  function ExportOutcomeOf(outputFileName: string, exportErrors: bool, exportValidated: bool,
                           outputFolder: string, cwd: Path,
                           errors: Option<ErrorTable>, validated: Option<ValidatedTable>,
                           disk: Disk): ExportOutcome
  {
    var sheets := Selected(exportErrors, exportValidated, errors, validated);
    if sheets == [] then
      (if !exportErrors && !exportValidated then NothingSelected else NothingAvailable)
    else
      var dir := OutputDir(cwd, outputFolder);
      match disk.mkdir(dir)
      case Denied => FolderDenied(dir)
      case OsFailed(d) => FolderFailed(dir, d)
      case Done => WriteFrom(disk, OutputFile(cwd, outputFolder, outputFileName), sheets, [], cwd, outputFileName)
  }

  /**
   * A sheet is written exactly when its table was requested and is present and not
   * empty; the errors sheet comes first, and no sheet is written twice.
   */
  lemma SelectedSpec(exportErrors: bool, exportValidated: bool,
                     errors: Option<ErrorTable>, validated: Option<ValidatedTable>)
    ensures ErrorsSheet in Selected(exportErrors, exportValidated, errors, validated) <==>
      exportErrors && ErrorsAvailable(errors)
    ensures ValidatedSheet in Selected(exportErrors, exportValidated, errors, validated) <==>
      exportValidated && ValidatedAvailable(validated)
    ensures |Selected(exportErrors, exportValidated, errors, validated)| <= 2
    ensures forall i, j :: 0 <= i < j < |Selected(exportErrors, exportValidated, errors, validated)| ==>
      Selected(exportErrors, exportValidated, errors, validated)[i] == ErrorsSheet &&
      Selected(exportErrors, exportValidated, errors, validated)[j] == ValidatedSheet
  {
  }

  /**
   * The export does nothing exactly when no sheet is selected; it then says whether
   * nothing was requested or nothing requested was available, and asks nothing of
   * the file system.
   */
  lemma NoOpCases(outputFileName: string, exportErrors: bool, exportValidated: bool,
                  outputFolder: string, cwd: Path,
                  errors: Option<ErrorTable>, validated: Option<ValidatedTable>,
                  disk: Disk, other: Disk)
    ensures ExportOutcomeOf(outputFileName, exportErrors, exportValidated, outputFolder, cwd, errors, validated, disk) == NothingSelected <==>
      !exportErrors && !exportValidated
    ensures ExportOutcomeOf(outputFileName, exportErrors, exportValidated, outputFolder, cwd, errors, validated, disk) == NothingAvailable <==>
      (exportErrors || exportValidated) && Selected(exportErrors, exportValidated, errors, validated) == []
    ensures Selected(exportErrors, exportValidated, errors, validated) == [] ==>
      ExportOutcomeOf(outputFileName, exportErrors, exportValidated, outputFolder, cwd, errors, validated, disk) ==
      ExportOutcomeOf(outputFileName, exportErrors, exportValidated, outputFolder, cwd, errors, validated, other)
  {
    var sheets := Selected(exportErrors, exportValidated, errors, validated);
    if sheets != [] {
      var dir := OutputDir(cwd, outputFolder);
      if disk.mkdir(dir) == Done {
        WriteFromNeverNoOp(disk, OutputFile(cwd, outputFolder, outputFileName), sheets, [], cwd, outputFileName);
      }
    }
  }

  /** Once writing has started the outcome is never one of the no-op reports. */
  lemma {:induction false} WriteFromNeverNoOp(disk: Disk, file: Path, sheets: seq<SheetKind>, items: seq<string>,
                                              cwd: Path, outputFileName: string)
    ensures !WriteFrom(disk, file, sheets, items, cwd, outputFileName).NothingSelected?
    ensures !WriteFrom(disk, file, sheets, items, cwd, outputFileName).NothingAvailable?
    ensures !WriteFrom(disk, file, sheets, items, cwd, outputFileName).FolderDenied?
    ensures !WriteFrom(disk, file, sheets, items, cwd, outputFileName).FolderFailed?
    decreases |sheets|
  {
    if |sheets| > 0 && disk.writeSheet(file, Title(sheets[0])) == Done {
      WriteFromNeverNoOp(disk, file, sheets[1..], items + [Title(sheets[0])], cwd, outputFileName);
    }
  }

  /** A failure to create the output folder is reported with the folder, as denied or with the OS detail. */
  lemma FolderFailures(outputFileName: string, exportErrors: bool, exportValidated: bool,
                       outputFolder: string, cwd: Path,
                       errors: Option<ErrorTable>, validated: Option<ValidatedTable>, disk: Disk)
    requires Selected(exportErrors, exportValidated, errors, validated) != []
    ensures disk.mkdir(OutputDir(cwd, outputFolder)) == Denied ==>
      ExportOutcomeOf(outputFileName, exportErrors, exportValidated, outputFolder, cwd, errors, validated, disk) ==
      FolderDenied(OutputDir(cwd, outputFolder))
    ensures disk.mkdir(OutputDir(cwd, outputFolder)).OsFailed? ==>
      ExportOutcomeOf(outputFileName, exportErrors, exportValidated, outputFolder, cwd, errors, validated, disk) ==
      FolderFailed(OutputDir(cwd, outputFolder), disk.mkdir(OutputDir(cwd, outputFolder)).detail)
    ensures ExportOutcomeOf(outputFileName, exportErrors, exportValidated, outputFolder, cwd, errors, validated, disk).FolderDenied? ||
            ExportOutcomeOf(outputFileName, exportErrors, exportValidated, outputFolder, cwd, errors, validated, disk).FolderFailed? ==>
      disk.mkdir(OutputDir(cwd, outputFolder)) != Done
  {
    var sheets := Selected(exportErrors, exportValidated, errors, validated);
    if disk.mkdir(OutputDir(cwd, outputFolder)) == Done {
      WriteFromNeverNoOp(disk, OutputFile(cwd, outputFolder, outputFileName), sheets, [], cwd, outputFileName);
    }
  }

  /** Every sheet from the i-th on is written without failure. */
  ghost predicate AllWritten(disk: Disk, file: Path, sheets: seq<SheetKind>)
  {
    forall i :: 0 <= i < |sheets| ==> disk.writeSheet(file, Title(sheets[i])) == Done
  }

  /**
   * Writing succeeds exactly when every sheet and the save succeed and the file lies
   * under cwd; the reported items are then the titles of the sheets, in order, and
   * the location is the file's path relative to cwd.
   */
  lemma {:induction false} WriteFromSpec(disk: Disk, file: Path, sheets: seq<SheetKind>, items: seq<string>,
                                         cwd: Path, outputFileName: string)
    ensures WriteFrom(disk, file, sheets, items, cwd, outputFileName).Exported? <==>
      AllWritten(disk, file, sheets) && disk.save(file) == Done && |cwd| <= |file| && file[..|cwd|] == cwd
    ensures WriteFrom(disk, file, sheets, items, cwd, outputFileName).Exported? ==>
      WriteFrom(disk, file, sheets, items, cwd, outputFileName) ==
      Exported(items + Titles(sheets), outputFileName, file[|cwd|..]) && cwd + file[|cwd|..] == file
    ensures WriteFrom(disk, file, sheets, items, cwd, outputFileName).FileOpen? ==>
      WriteFrom(disk, file, sheets, items, cwd, outputFileName).name == Name(file)
    decreases |sheets|
  {
    if |sheets| > 0 {
      var rest := sheets[1..];
      assert forall i :: 1 <= i < |sheets| ==> sheets[i] == rest[i - 1];
      if disk.writeSheet(file, Title(sheets[0])) == Done {
        WriteFromSpec(disk, file, rest, items + [Title(sheets[0])], cwd, outputFileName);
        assert Titles(sheets) == [Title(sheets[0])] + Titles(rest);
      } else {
        assert !AllWritten(disk, file, sheets);
      }
    } else {
      if |cwd| <= |file| && file[..|cwd|] == cwd {
        assert cwd + file[|cwd|..] == file;
      }
    }
  }

  /**
   * The export succeeds exactly when some sheet is selected and the folder, every
   * selected sheet and the save all succeed with the file under cwd; the message
   * then lists the selected tables in order and the file relative to cwd.
   */
  lemma ExportSucceeds(outputFileName: string, exportErrors: bool, exportValidated: bool,
                       outputFolder: string, cwd: Path,
                       errors: Option<ErrorTable>, validated: Option<ValidatedTable>, disk: Disk)
    ensures var sheets := Selected(exportErrors, exportValidated, errors, validated);
      var file := OutputFile(cwd, outputFolder, outputFileName);
      ExportOutcomeOf(outputFileName, exportErrors, exportValidated, outputFolder, cwd, errors, validated, disk).Exported? <==>
        sheets != [] && disk.mkdir(OutputDir(cwd, outputFolder)) == Done && AllWritten(disk, file, sheets) &&
        disk.save(file) == Done && |cwd| <= |file| && file[..|cwd|] == cwd
    ensures var sheets := Selected(exportErrors, exportValidated, errors, validated);
      var file := OutputFile(cwd, outputFolder, outputFileName);
      ExportOutcomeOf(outputFileName, exportErrors, exportValidated, outputFolder, cwd, errors, validated, disk).Exported? ==>
        ExportOutcomeOf(outputFileName, exportErrors, exportValidated, outputFolder, cwd, errors, validated, disk) ==
        Exported(Titles(sheets), outputFileName, file[|cwd|..]) && cwd + file[|cwd|..] == file
  {
    var sheets := Selected(exportErrors, exportValidated, errors, validated);
    var file := OutputFile(cwd, outputFolder, outputFileName);
    WriteFromSpec(disk, file, sheets, [], cwd, outputFileName);
    assert [] + Titles(sheets) == Titles(sheets);
  }

  /** A relative output folder and file name keep the workbook under cwd, so its location is always reported. */
  lemma RelativeStaysInside(cwd: Path, outputFolder: string, outputFileName: string)
    requires !(|outputFolder| > 0 && outputFolder[0] == '/')
    requires !(|outputFileName| > 0 && outputFileName[0] == '/')
    ensures var file := OutputFile(cwd, outputFolder, outputFileName);
      |cwd| <= |file| && file[..|cwd|] == cwd
  {
    var dir := OutputDir(cwd, outputFolder);
    var file := Append(dir, outputFileName);
    assert file[..|dir|] == dir;
    assert file[..|cwd|] == dir[..|cwd|];
  }

  /** The success message lists both tables as "Input Data Errors and Validated Data". */
  lemma BothListed()
    ensures ExportedList(Titles([ErrorsSheet, ValidatedSheet])) == "Input Data Errors and Validated Data"
  {
    assert Titles([ErrorsSheet, ValidatedSheet]) == ["Input Data Errors", "Validated Data"];
    JoinSnoc(["Input Data Errors"], " and ", "Validated Data");
  }
}
