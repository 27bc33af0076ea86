/**
 * The row validator over a whole table: passing rows become records, failing rows
 * become error rows with numbered diagnostics, and the two result tables are built.
 */
module Validation {
  import opened Results
  import opened Text
  import opened Tables
  import opened Records

  /** A row of the error table: the original row plus the two diagnostic columns. */
  datatype ErrorRow = ErrorRow(data: Row, totalErrors: nat, details: string)

  datatype ErrorTable = ErrorTable(columns: seq<string>, rows: seq<ErrorRow>)

  /** The validated table: an index named after the identifier field, and the other columns. */
  datatype ValidatedTable = ValidatedTable(indexName: string, index: seq<Value>, columns: seq<string>, rows: seq<Row>)

  /** The closing report of validation. */
  datatype Summary = AllPassed | InputsFailed(total: nat)

  /** The failures that stop validation, all in building the index of the validated table. */
  datatype StructuralError = MissingIdentifier(name: string) | UnparsableIdentifier(value: Value)

  /** Everything one validation produces. */
  datatype ValidationResult = ValidationResult(validated: ValidatedTable, errors: ErrorTable, summary: Summary)

  const TotalErrorsColumn := "total_errors"
  const ErrorDetailsColumn := "error_details"
  const Separator := ".\n"

  // ---------------------------------------------------------------- error rows of one row

  /** The i-th diagnostic line, `"{i}) {input}: {msg}"`. */
  function Message(i: nat, f: FieldError): string
  {
    NatToString(i) + (") " + (f.input + (": " + f.msg)))
  }

  /**
   * A diagnostic line starts with its number, which reads back as i, followed by
   * ") ", the offending input, ": " and the message.
   */
  lemma MessageNumber(i: nat, f: FieldError)
    ensures var n := |NatToString(i)|;
      n + 2 <= |Message(i, f)| &&
      DigitsValue(Message(i, f)[..n]) == i && Message(i, f)[n..n + 2] == ") " &&
      Message(i, f)[n + 2..] == f.input + (": " + f.msg)
  {
    var n := NatToString(i);
    var rest := ") " + (f.input + (": " + f.msg));
    assert (n + rest)[..|n|] == n;
    assert (n + rest)[|n|..] == rest;
    assert rest[..2] == ") " && rest[2..] == f.input + (": " + f.msg);
    NatToStringRoundTrip(i);
  }

  /** The diagnostic lines of the failures, numbered from 1. */
  function Numbered(fs: seq<FieldError>): (r: seq<string>)
    ensures |r| == |fs|
  {
    seq(|fs|, i requires 0 <= i < |fs| => Message(i + 1, fs[i]))
  }

  lemma NumberedSnoc(fs: seq<FieldError>, n: nat)
    requires n < |fs|
    ensures Numbered(fs[..n + 1]) == Numbered(fs[..n]) + [Message(n + 1, fs[n])]
  {
  }

  /** The error row of a row with failures fs: the row, the number of failures, and all their lines. */
  function ErrorRowFor(row: Row, fs: seq<FieldError>): ErrorRow
  {
    ErrorRow(row, |fs|, Join(Numbered(fs), Separator))
  }

  /**
   * The error rows of a row with failures fs as the loop is written: one per failure,
   * the k-th carrying the first k diagnostic lines joined by ".\n", all carrying the
   * full count.
   */
  function ErrorRowsAsWritten(row: Row, fs: seq<FieldError>): seq<ErrorRow>
  {
    seq(|fs|, i requires 0 <= i < |fs| => ErrorRow(row, |fs|, Join(Numbered(fs[..i + 1]), Separator)))
  }

  /**
   * K failures give K error rows as written, each with the original row and
   * total_errors K; the first holds message 1, and each next one extends the previous
   * by the separator and the next numbered message, so every row's details prefix
   * the later ones'.
   */
  lemma ErrorRowsAsWrittenSpec(row: Row, fs: seq<FieldError>)
    ensures |ErrorRowsAsWritten(row, fs)| == |fs|
    ensures forall i :: 0 <= i < |fs| ==>
      ErrorRowsAsWritten(row, fs)[i].data == row && ErrorRowsAsWritten(row, fs)[i].totalErrors == |fs|
    ensures |fs| > 0 ==> ErrorRowsAsWritten(row, fs)[0].details == Message(1, fs[0])
    ensures forall i :: 0 <= i < |fs| - 1 ==>
      ErrorRowsAsWritten(row, fs)[i + 1].details == ErrorRowsAsWritten(row, fs)[i].details + Separator + Message(i + 2, fs[i + 1])
    ensures forall i, j :: 0 <= i <= j < |fs| ==>
      ErrorRowsAsWritten(row, fs)[i].details <= ErrorRowsAsWritten(row, fs)[j].details
  {
    var e := ErrorRowsAsWritten(row, fs);
    forall i | 0 <= i < |fs| - 1
      ensures e[i + 1].details == e[i].details + Separator + Message(i + 2, fs[i + 1])
    {
      NumberedSnoc(fs, i + 1);
      JoinSnoc(Numbered(fs[..i + 1]), Separator, Message(i + 2, fs[i + 1]));
    }
    forall i, j | 0 <= i <= j < |fs| ensures e[i].details <= e[j].details {
      assert Numbered(fs[..j + 1])[..i + 1] == Numbered(fs[..i + 1]);
      JoinPrefix(Numbered(fs[..j + 1]), Separator, i + 1);
    }
  }

  /**
   * The one error row of a failing row is the last of the rows the loop as written
   * emits for it, and every one of those carries a prefix of its details.
   */
  lemma ErrorRowIsLastAsWritten(row: Row, fs: seq<FieldError>)
    requires |fs| > 0
    ensures ErrorRowFor(row, fs) == ErrorRowsAsWritten(row, fs)[|fs| - 1]
    ensures forall e :: e in ErrorRowsAsWritten(row, fs) ==>
      e.data == row && e.totalErrors == |fs| && e.details <= ErrorRowFor(row, fs).details
  {
    assert fs[..|fs|] == fs;
    ErrorRowsAsWrittenSpec(row, fs);
  }

  // ---------------------------------------------------------------- the partition of the rows

  /** The records a row contributes: its record when it passes, nothing otherwise. */
  function RowRecords(check: RowCheck, row: Row): seq<Record>
  {
    match check(row)
    case Success(rec) => [rec]
    case Failure(_) => []
  }

  /** The failures reported for a row; none when it passes. */
  function Reported(check: RowCheck, row: Row): seq<FieldError>
  {
    match check(row)
    case Success(_) => []
    case Failure(fs) => fs
  }

  /**
   * The error rows a row contributes in the corrected validator: one, with all its
   * failures, when it fails.
   */
  function RowErrors(check: RowCheck, row: Row): seq<ErrorRow>
  {
    var fs := Reported(check, row);
    if fs == [] then [] else [ErrorRowFor(row, fs)]
  }

  /**
   * Every row goes exactly one way: one record, or one error row, which holds the
   * row itself and the number of its failures.
   */
  lemma RowGoesOneWay(check: RowCheck, row: Row)
    requires ReportsFailures(check)
    ensures (|RowRecords(check, row)| == 1 && RowErrors(check, row) == []) ||
            (RowRecords(check, row) == [] && |RowErrors(check, row)| == 1)
    ensures |RowRecords(check, row)| == 1 <==> check(row).Success?
    ensures RowErrors(check, row) != [] ==>
      RowErrors(check, row)[0].data == row && RowErrors(check, row)[0].totalErrors == |check(row).error| > 0
  {
  }

  /** The records of the passing rows, in row order. */
  function ValidatedRecords(check: RowCheck, rows: seq<Row>): seq<Record>
    decreases |rows|
  {
    if |rows| == 0 then []
    else ValidatedRecords(check, rows[..|rows| - 1]) + RowRecords(check, rows[|rows| - 1])
  }

  /** The number of rows that pass the check. */
  function PassCount(check: RowCheck, rows: seq<Row>): nat
    decreases |rows|
  {
    if |rows| == 0 then 0
    else PassCount(check, rows[..|rows| - 1]) + (if check(rows[|rows| - 1]).Success? then 1 else 0)
  }

  /** There is one record per passing row. */
  lemma {:induction false} ValidatedCount(check: RowCheck, rows: seq<Row>)
    ensures |ValidatedRecords(check, rows)| == PassCount(check, rows)
    ensures PassCount(check, rows) <= |rows|
    decreases |rows|
  {
    if |rows| > 0 {
      ValidatedCount(check, rows[..|rows| - 1]);
    }
  }

  /** The error rows of the failing rows in the corrected validator, in row order. */
  function ErrorRecords(check: RowCheck, rows: seq<Row>): seq<ErrorRow>
    decreases |rows|
  {
    if |rows| == 0 then []
    else ErrorRecords(check, rows[..|rows| - 1]) + RowErrors(check, rows[|rows| - 1])
  }

  lemma ValidatedSnoc(check: RowCheck, rows: seq<Row>, row: Row)
    ensures ValidatedRecords(check, rows + [row]) == ValidatedRecords(check, rows) + RowRecords(check, row)
  {
    assert (rows + [row])[..|rows|] == rows;
  }

  lemma ErrorsSnoc(check: RowCheck, rows: seq<Row>, row: Row)
    ensures ErrorRecords(check, rows + [row]) == ErrorRecords(check, rows) + RowErrors(check, row)
  {
    assert (rows + [row])[..|rows|] == rows;
  }

  /** Validating two blocks of rows one after the other keeps the records in row order. */
  lemma {:induction false} ValidatedAppend(check: RowCheck, r1: seq<Row>, r2: seq<Row>)
    ensures ValidatedRecords(check, r1 + r2) == ValidatedRecords(check, r1) + ValidatedRecords(check, r2)
    decreases |r2|
  {
    if |r2| == 0 {
      assert r1 + r2 == r1;
    } else {
      var init, last := r2[..|r2| - 1], r2[|r2| - 1];
      calc {
        ValidatedRecords(check, r1 + r2);
        { assert r1 + r2 == (r1 + init) + [last]; }
        ValidatedRecords(check, (r1 + init) + [last]);
        { ValidatedSnoc(check, r1 + init, last); }
        ValidatedRecords(check, r1 + init) + RowRecords(check, last);
        { ValidatedAppend(check, r1, init); }
        ValidatedRecords(check, r1) + ValidatedRecords(check, init) + RowRecords(check, last);
        { ValidatedSnoc(check, init, last); assert init + [last] == r2; }
        ValidatedRecords(check, r1) + ValidatedRecords(check, r2);
      }
    }
  }


  /** Validating two blocks of rows one after the other keeps the error rows in row order. */
  lemma {:induction false} ErrorsAppend(check: RowCheck, r1: seq<Row>, r2: seq<Row>)
    ensures ErrorRecords(check, r1 + r2) == ErrorRecords(check, r1) + ErrorRecords(check, r2)
    decreases |r2|
  {
    if |r2| == 0 {
      assert r1 + r2 == r1;
    } else {
      var init := r2[..|r2| - 1];
      assert (r1 + r2)[..|r1 + r2| - 1] == r1 + init;
      ErrorsAppend(check, r1, init);
    }
  }


  /** The number of failures over all rows. */
  function FailureCount(check: RowCheck, rows: seq<Row>): nat
    decreases |rows|
  {
    if |rows| == 0 then 0
    else FailureCount(check, rows[..|rows| - 1]) + |Reported(check, rows[|rows| - 1])|
  }

  /** Every row is accounted for exactly once: as a record or as an error row. */
  lemma {:induction false} PartitionCounts(check: RowCheck, rows: seq<Row>)
    requires ReportsFailures(check)
    ensures |ValidatedRecords(check, rows)| + |ErrorRecords(check, rows)| == |rows|
    decreases |rows|
  {
    if |rows| > 0 {
      PartitionCounts(check, rows[..|rows| - 1]);
      RowGoesOneWay(check, rows[|rows| - 1]);
    }
  }

  /** A record is validated exactly when some row yields it. */
  lemma {:induction false} RecordsFromRows(check: RowCheck, rows: seq<Row>)
    ensures forall rec :: rec in ValidatedRecords(check, rows) <==>
      exists i :: 0 <= i < |rows| && check(rows[i]) == Success(rec)
    decreases |rows|
  {
    if |rows| > 0 {
      var init := rows[..|rows| - 1];
      RecordsFromRows(check, init);
      forall rec ensures rec in ValidatedRecords(check, rows) <==>
        exists i :: 0 <= i < |rows| && check(rows[i]) == Success(rec)
      {
        if exists i :: 0 <= i < |rows| && check(rows[i]) == Success(rec) {
          var i :| 0 <= i < |rows| && check(rows[i]) == Success(rec);
          if i < |rows| - 1 {
            assert init[i] == rows[i];
          }
        }
        if rec in ValidatedRecords(check, init) {
          var i :| 0 <= i < |init| && check(init[i]) == Success(rec);
          assert rows[i] == init[i];
        }
      }
    }
  }

  /** An error row is emitted exactly when it is among some row's error rows. */
  lemma {:induction false} ErrorsFromRows(check: RowCheck, rows: seq<Row>)
    ensures forall e :: e in ErrorRecords(check, rows) <==>
      exists i :: 0 <= i < |rows| && e in RowErrors(check, rows[i])
    decreases |rows|
  {
    if |rows| > 0 {
      var init := rows[..|rows| - 1];
      ErrorsFromRows(check, init);
      forall e ensures e in ErrorRecords(check, rows) <==>
        exists i :: 0 <= i < |rows| && e in RowErrors(check, rows[i])
      {
        if exists i :: 0 <= i < |rows| && e in RowErrors(check, rows[i]) {
          var i :| 0 <= i < |rows| && e in RowErrors(check, rows[i]);
          if i < |rows| - 1 {
            assert init[i] == rows[i];
          }
        }
        if e in ErrorRecords(check, init) {
          var i :| 0 <= i < |init| && e in RowErrors(check, init[i]);
          assert rows[i] == init[i];
        }
      }
    }
  }

  /** There is no error row exactly when every row passes. */
  lemma {:induction false} NoErrorsIff(check: RowCheck, rows: seq<Row>)
    requires ReportsFailures(check)
    ensures ErrorRecords(check, rows) == [] <==> forall i :: 0 <= i < |rows| ==> check(rows[i]).Success?
    decreases |rows|
  {
    if |rows| > 0 {
      var init, last := rows[..|rows| - 1], rows[|rows| - 1];
      NoErrorsIff(check, init);
      assert ErrorRecords(check, rows) == ErrorRecords(check, init) + RowErrors(check, last);
      assert RowErrors(check, last) == [] <==> check(last).Success?;
      assert forall i :: 0 <= i < |init| ==> init[i] == rows[i];
    }
  }

  /** No row yields a record exactly when every row fails. */
  lemma {:induction false} NoRecordsIff(check: RowCheck, rows: seq<Row>)
    ensures ValidatedRecords(check, rows) == [] <==> forall i :: 0 <= i < |rows| ==> check(rows[i]).Failure?
    decreases |rows|
  {
    if |rows| > 0 {
      var init := rows[..|rows| - 1];
      NoRecordsIff(check, init);
      assert forall i :: 0 <= i < |init| ==> init[i] == rows[i];
    }
  }

  // ---------------------------------------------------------------- the summary

  /** `error_df['total_errors'].sum()`. */
  function TotalErrors(errors: seq<ErrorRow>): nat
    decreases |errors|
  {
    if |errors| == 0 then 0 else TotalErrors(errors[..|errors| - 1]) + errors[|errors| - 1].totalErrors
  }

  /** The report printed at the end of validation. */
  function Summarize(errors: ErrorTable): Summary
  {
    var total := TotalErrors(errors.rows);
    if total > 0 then InputsFailed(total) else AllPassed
  }

  /** The summed total_errors is zero exactly when every error row says zero. */
  lemma {:induction false} TotalErrorsZero(errors: seq<ErrorRow>)
    ensures TotalErrors(errors) == 0 <==> forall i :: 0 <= i < |errors| ==> errors[i].totalErrors == 0
    decreases |errors|
  {
    if |errors| > 0 {
      var init := errors[..|errors| - 1];
      TotalErrorsZero(init);
      assert forall i :: 0 <= i < |init| ==> init[i] == errors[i];
    }
  }

  /**
   * The report is the all-clear exactly when no error row counts a failed input, and
   * otherwise gives the summed total_errors.
   */
  lemma SummarizeSpec(errors: ErrorTable)
    ensures Summarize(errors) == AllPassed <==>
      forall i :: 0 <= i < |errors.rows| ==> errors.rows[i].totalErrors == 0
    ensures Summarize(errors) != AllPassed ==> Summarize(errors) == InputsFailed(TotalErrors(errors.rows)) && TotalErrors(errors.rows) > 0
  {
    TotalErrorsZero(errors.rows);
  }

  lemma {:induction false} TotalErrorsAppend(a: seq<ErrorRow>, b: seq<ErrorRow>)
    ensures TotalErrors(a + b) == TotalErrors(a) + TotalErrors(b)
    decreases |b|
  {
    if |b| == 0 {
      assert a + b == a;
    } else {
      assert (a + b)[..|a + b| - 1] == a + b[..|b| - 1];
      TotalErrorsAppend(a, b[..|b| - 1]);
    }
  }

  /** The summed total_errors is the number of failed inputs over all rows. */
  lemma {:induction false} TotalErrorsCountsFailures(check: RowCheck, rows: seq<Row>)
    ensures TotalErrors(ErrorRecords(check, rows)) == FailureCount(check, rows)
    decreases |rows|
  {
    if |rows| > 0 {
      var init, last := rows[..|rows| - 1], rows[|rows| - 1];
      TotalErrorsCountsFailures(check, init);
      TotalErrorsAppend(ErrorRecords(check, init), RowErrors(check, last));
      assert TotalErrors(RowErrors(check, last)) == |Reported(check, last)| by {
        var e := RowErrors(check, last);
        if e != [] {
          assert e[..0] == [];
        }
      }
    }
  }

  lemma {:induction false} FailureCountZero(check: RowCheck, rows: seq<Row>)
    requires ReportsFailures(check)
    ensures FailureCount(check, rows) == 0 <==> forall i :: 0 <= i < |rows| ==> check(rows[i]).Success?
    decreases |rows|
  {
    if |rows| > 0 {
      var init := rows[..|rows| - 1];
      FailureCountZero(check, init);
      assert forall i :: 0 <= i < |init| ==> init[i] == rows[i];
    }
  }

  /**
   * The all-clear report is given exactly when every row passes, i.e. when there is no
   * error row; otherwise the report gives the number of failed inputs.
   */
  lemma AllClearIff(check: RowCheck, rows: seq<Row>, columns: seq<string>)
    requires ReportsFailures(check)
    ensures Summarize(ErrorTable(columns, ErrorRecords(check, rows))) == AllPassed <==>
      forall i :: 0 <= i < |rows| ==> check(rows[i]).Success?
    ensures Summarize(ErrorTable(columns, ErrorRecords(check, rows))) == AllPassed <==>
      ErrorRecords(check, rows) == []
    ensures Summarize(ErrorTable(columns, ErrorRecords(check, rows))) != AllPassed ==>
      Summarize(ErrorTable(columns, ErrorRecords(check, rows))) == InputsFailed(FailureCount(check, rows))
  {
    TotalErrorsCountsFailures(check, rows);
    FailureCountZero(check, rows);
    NoErrorsIff(check, rows);
  }

  // ---------------------------------------------------------------- the loop as written

  /** The error rows a row contributes as the loop is written: one per failure. */
  function RowErrorsAsWritten(check: RowCheck, row: Row): seq<ErrorRow>
  {
    ErrorRowsAsWritten(row, Reported(check, row))
  }

  function ErrorRecordsAsWritten(check: RowCheck, rows: seq<Row>): seq<ErrorRow>
    decreases |rows|
  {
    if |rows| == 0 then []
    else ErrorRecordsAsWritten(check, rows[..|rows| - 1]) + RowErrorsAsWritten(check, rows[|rows| - 1])
  }

  /** The sum, over the rows, of the square of each row's failure count. */
  function SquareTotal(check: RowCheck, rows: seq<Row>): nat
    decreases |rows|
  {
    if |rows| == 0 then 0
    else
      (var k := |Reported(check, rows[|rows| - 1])|;
       SquareTotal(check, rows[..|rows| - 1]) + k * k)
  }

  /** Error rows that each say k add up to k times their number. */
  lemma {:induction false} ConstantTotal(es: seq<ErrorRow>, k: nat)
    requires forall i :: 0 <= i < |es| ==> es[i].totalErrors == k
    ensures TotalErrors(es) == |es| * k
    decreases |es|
  {
    if |es| > 0 {
      var init := es[..|es| - 1];
      assert forall i :: 0 <= i < |init| ==> init[i] == es[i];
      ConstantTotal(init, k);
      assert TotalErrors(es) == TotalErrors(init) + k;
      assert (|es| - 1) * k + k == |es| * k;
    }
  }

  /** The error rows as written of a row with K failures add up to K * K. */
  lemma TotalErrorsOfRow(row: Row, fs: seq<FieldError>)
    ensures TotalErrors(ErrorRowsAsWritten(row, fs)) == |fs| * |fs|
  {
    ConstantTotal(ErrorRowsAsWritten(row, fs), |fs|);
  }

  /** As written, a row with K failures gives K rows that each say K: the total sums the squares. */
  lemma {:induction false} TotalErrorsIsSumOfSquares(check: RowCheck, rows: seq<Row>)
    ensures TotalErrors(ErrorRecordsAsWritten(check, rows)) == SquareTotal(check, rows)
    decreases |rows|
  {
    if |rows| > 0 {
      var last := rows[|rows| - 1];
      var fs := Reported(check, last);
      TotalErrorsIsSumOfSquares(check, rows[..|rows| - 1]);
      TotalErrorsAppend(ErrorRecordsAsWritten(check, rows[..|rows| - 1]), RowErrorsAsWritten(check, last));
      TotalErrorsOfRow(last, fs);
    }
  }

  /**
   * One row with two failing inputs: as written it gives two error rows and a
   * reported total of 4 failed inputs, where the corrected loop gives one row and 2.
   */
  lemma AsWrittenOvercounts(row: Row, f1: FieldError, f2: FieldError)
    ensures |ErrorRowsAsWritten(row, [f1, f2])| == 2
    ensures TotalErrors(ErrorRowsAsWritten(row, [f1, f2])) == 4
    ensures [ErrorRowFor(row, [f1, f2])] == ErrorRowsAsWritten(row, [f1, f2])[1..]
    ensures TotalErrors([ErrorRowFor(row, [f1, f2])]) == 2
  {
    TotalErrorsOfRow(row, [f1, f2]);
    ErrorRowIsLastAsWritten(row, [f1, f2]);
    assert [ErrorRowFor(row, [f1, f2])][..0] == [];
  }
  /**
   * As written, a passing row emits no error row and a failing row one per failure;
   * the last of them is the corrected validator's single error row.
   */
  lemma RowGoesOneWayAsWritten(check: RowCheck, row: Row)
    requires ReportsFailures(check)
    ensures RowErrorsAsWritten(check, row) == [] <==> check(row).Success?
    ensures |RowRecords(check, row)| == 1 <==> RowErrorsAsWritten(check, row) == []
    ensures check(row).Failure? ==> RowRecords(check, row) == []
    ensures check(row).Failure? ==>
      |RowErrorsAsWritten(check, row)| == |check(row).error| &&
      RowErrorsAsWritten(check, row)[|check(row).error| - 1] == RowErrors(check, row)[0]
  {
    if check(row).Failure? {
      ErrorRowIsLastAsWritten(row, check(row).error);
    }
  }

  /** As written, the error table has one row per failed input, over all rows. */
  lemma {:induction false} ErrorCountAsWritten(check: RowCheck, rows: seq<Row>)
    ensures |ErrorRecordsAsWritten(check, rows)| == FailureCount(check, rows)
    decreases |rows|
  {
    if |rows| > 0 {
      ErrorCountAsWritten(check, rows[..|rows| - 1]);
    }
  }

  /** The sum of squares vanishes exactly when there is no failure at all. */
  lemma {:induction false} SquareTotalZero(check: RowCheck, rows: seq<Row>)
    ensures SquareTotal(check, rows) == 0 <==> FailureCount(check, rows) == 0
    decreases |rows|
  {
    if |rows| > 0 {
      SquareTotalZero(check, rows[..|rows| - 1]);
      var k := |Reported(check, rows[|rows| - 1])|;
      if k > 0 {
        assert k * k >= k;
      }
    }
  }

  /**
   * As written, the all-clear report is given exactly when every row passes, i.e.
   * when there is no error row; otherwise the report gives the sum over the failing
   * rows of the square of their failure counts.
   */
  lemma AllClearAsWrittenIff(check: RowCheck, rows: seq<Row>, columns: seq<string>)
    requires ReportsFailures(check)
    ensures Summarize(ErrorTable(columns, ErrorRecordsAsWritten(check, rows))) == AllPassed <==>
      forall i :: 0 <= i < |rows| ==> check(rows[i]).Success?
    ensures Summarize(ErrorTable(columns, ErrorRecordsAsWritten(check, rows))) == AllPassed <==>
      ErrorRecordsAsWritten(check, rows) == []
    ensures Summarize(ErrorTable(columns, ErrorRecordsAsWritten(check, rows))) != AllPassed ==>
      Summarize(ErrorTable(columns, ErrorRecordsAsWritten(check, rows))) == InputsFailed(SquareTotal(check, rows))
  {
    TotalErrorsIsSumOfSquares(check, rows);
    SquareTotalZero(check, rows);
    FailureCountZero(check, rows);
    ErrorCountAsWritten(check, rows);
  }

  /** As written, an error row is emitted exactly when it is among some row's error rows. */
  lemma {:induction false} ErrorsFromRowsAsWritten(check: RowCheck, rows: seq<Row>)
    ensures forall e :: e in ErrorRecordsAsWritten(check, rows) <==>
      exists i :: 0 <= i < |rows| && e in RowErrorsAsWritten(check, rows[i])
    decreases |rows|
  {
    if |rows| > 0 {
      var init := rows[..|rows| - 1];
      ErrorsFromRowsAsWritten(check, init);
      assert ErrorRecordsAsWritten(check, rows) ==
        ErrorRecordsAsWritten(check, init) + RowErrorsAsWritten(check, rows[|rows| - 1]);
      forall e ensures e in ErrorRecordsAsWritten(check, rows) <==>
        exists i :: 0 <= i < |rows| && e in RowErrorsAsWritten(check, rows[i])
      {
        if exists i :: 0 <= i < |rows| && e in RowErrorsAsWritten(check, rows[i]) {
          var i :| 0 <= i < |rows| && e in RowErrorsAsWritten(check, rows[i]);
          if i < |rows| - 1 {
            assert init[i] == rows[i];
          }
        }
        if e in ErrorRecordsAsWritten(check, init) {
          var i :| 0 <= i < |init| && e in RowErrorsAsWritten(check, init[i]);
          assert rows[i] == init[i];
        }
      }
    }
  }

  /** Every row of the corrected error table is in the table as written: the last of its row's. */
  lemma CorrectedAmongAsWritten(check: RowCheck, rows: seq<Row>)
    ensures forall e :: e in ErrorRecords(check, rows) ==> e in ErrorRecordsAsWritten(check, rows)
  {
    ErrorsFromRows(check, rows);
    ErrorsFromRowsAsWritten(check, rows);
    forall e | e in ErrorRecords(check, rows) ensures e in ErrorRecordsAsWritten(check, rows) {
      var i :| 0 <= i < |rows| && e in RowErrors(check, rows[i]);
      ErrorRowIsLastAsWritten(rows[i], Reported(check, rows[i]));
      assert e in RowErrorsAsWritten(check, rows[i]);
    }
  }
}
