/**
 * The two tables validation produces. The validated records become a frame indexed
 * by the identifier field, parsed as a timestamp, with that field dropped from the
 * columns; the error rows become a frame with the input columns and two more.
 */
module Frames {
  import opened Results
  import opened Tables
  import opened Records
  import opened Validation

  /** The value of the first entry named name, as `record[name]` finds it. */
  function EntryValue(entries: seq<Entry>, name: string): (r: Option<Value>)
    ensures r.Some? <==> exists i :: 0 <= i < |entries| && entries[i].name == name
    ensures r.Some? ==> Entry(name, r.value) in entries
    decreases |entries|
  {
    if |entries| == 0 then None
    else if entries[0].name == name then Some(entries[0].value)
    else
      var r := EntryValue(entries[1..], name);
      assert forall i :: 1 <= i < |entries| ==> entries[i] == entries[1..][i - 1];
      r
  }

  function EntryNames(entries: seq<Entry>): seq<string>
  {
    seq(|entries|, i requires 0 <= i < |entries| => entries[i].name)
  }

  function EntryValues(entries: seq<Entry>): seq<Value>
  {
    seq(|entries|, i requires 0 <= i < |entries| => entries[i].value)
  }

  /** The entries not named id, in order: `drop(columns=[id], errors='ignore')` on one record. */
  function Without(entries: seq<Entry>, id: string): (r: seq<Entry>)
    ensures forall e :: e in r <==> e in entries && e.name != id
    ensures |r| <= |entries|
    decreases |entries|
  {
    if |entries| == 0 then []
    else (if entries[0].name == id then [] else [entries[0]]) + Without(entries[1..], id)
  }

  /** The names other than id, in order. */
  function DropName(names: seq<string>, id: string): (r: seq<string>)
    ensures forall n :: n in r <==> n in names && n != id
    ensures |r| <= |names|
    decreases |names|
  {
    if |names| == 0 then []
    else (if names[0] == id then [] else [names[0]]) + DropName(names[1..], id)
  }

  /** Dropping the identifier keeps the other entries in their order. */
  lemma {:induction false} WithoutAppend(a: seq<Entry>, b: seq<Entry>, id: string)
    ensures Without(a + b, id) == Without(a, id) + Without(b, id)
    decreases |a|
  {
    if |a| > 0 {
      assert (a + b)[1..] == a[1..] + b;
      WithoutAppend(a[1..], b, id);
    } else {
      assert a + b == b;
    }
  }

  /** Dropping the identifier keeps the other column names in their order. */
  lemma {:induction false} DropNameAppend(a: seq<string>, b: seq<string>, id: string)
    ensures DropName(a + b, id) == DropName(a, id) + DropName(b, id)
    decreases |a|
  {
    if |a| > 0 {
      assert (a + b)[1..] == a[1..] + b;
      DropNameAppend(a[1..], b, id);
    } else {
      assert a + b == b;
    }
  }

  lemma EntryNamesAppend(a: seq<Entry>, b: seq<Entry>)
    ensures EntryNames(a + b) == EntryNames(a) + EntryNames(b)
  {
  }

  /** Dropping the entries named id drops exactly that name from the record's columns. */
  lemma {:induction false} WithoutNames(entries: seq<Entry>, id: string)
    ensures EntryNames(Without(entries, id)) == DropName(EntryNames(entries), id)
    decreases |entries|
  {
    if |entries| > 0 {
      var tail := entries[1..];
      var names := EntryNames(entries);
      WithoutNames(tail, id);
      assert names[0] == entries[0].name && names[1..] == EntryNames(tail);
      var head: seq<Entry> := if entries[0].name == id then [] else [entries[0]];
      assert Without(entries, id) == head + Without(tail, id);
      EntryNamesAppend(head, Without(tail, id));
      assert DropName(names, id) == (if names[0] == id then [] else [names[0]]) + DropName(names[1..], id);
    }
  }

  /** `[r[id] for r in data_list]`: fails on the first record without the key. */
  function IdentifierValues(records: seq<Record>, id: string): (r: Result<seq<Value>, StructuralError>)
    ensures r.Success? <==> forall i :: 0 <= i < |records| ==> EntryValue(records[i].entries, id).Some?
    ensures r.Success? ==> (|r.value| == |records| &&
      forall i :: 0 <= i < |records| ==> EntryValue(records[i].entries, id) == Some(r.value[i]))
    ensures r.Failure? ==> r.error == MissingIdentifier(id)
    decreases |records|
  {
    if |records| == 0 then Success([])
    else
      match EntryValue(records[0].entries, id)
      case None => Failure(MissingIdentifier(id))
      case Some(v) =>
        var rest := IdentifierValues(records[1..], id);
        assert forall i :: 1 <= i < |records| ==> records[i] == records[1..][i - 1];
        match rest
        case Failure(e) => Failure(e)
        case Success(vs) => Success([v] + vs)
  }

  /**
   * `pd.to_datetime` over the identifiers: every one is parsed with parse, and the
   * first that does not parse stops the conversion.
   */
  function ParseAll(parse: Value -> Option<Value>, values: seq<Value>): (r: Result<seq<Value>, StructuralError>)
    ensures r.Success? <==> forall i :: 0 <= i < |values| ==> parse(values[i]).Some?
    ensures r.Success? ==> (|r.value| == |values| &&
      forall i :: 0 <= i < |values| ==> parse(values[i]) == Some(r.value[i]))
    ensures r.Failure? ==> r.error.UnparsableIdentifier? && r.error.value in values && parse(r.error.value).None?
    decreases |values|
  {
    if |values| == 0 then Success([])
    else
      match parse(values[0])
      case None => Failure(UnparsableIdentifier(values[0]))
      case Some(t) =>
        var rest := ParseAll(parse, values[1..]);
        assert forall i :: 1 <= i < |values| ==> values[i] == values[1..][i - 1];
        match rest
        case Failure(e) => Failure(e)
        case Success(ts) => Success([t] + ts)
  }

  /**
   * The validated frame: indexed by the parsed identifiers and named after the
   * identifier field; its columns are the first record's fields without the
   * identifier, none at all when there is no record.
   */
  function BuildValidated(records: seq<Record>, id: string, parse: Value -> Option<Value>): Result<ValidatedTable, StructuralError>
  {
    match IdentifierValues(records, id)
    case Failure(e) => Failure(e)
    case Success(keys) =>
      match ParseAll(parse, keys)
      case Failure(e) => Failure(e)
      case Success(index) =>
        Success(ValidatedTable(id, index,
          if |records| == 0 then [] else EntryNames(Without(records[0].entries, id)),
          seq(|records|, i requires 0 <= i < |records| => EntryValues(Without(records[i].entries, id)))))
  }

  /**
   * Building the frame fails exactly when a record lacks the identifier (reported
   * first) or an identifier does not parse.
   */
  lemma BuildValidatedFailures(records: seq<Record>, id: string, parse: Value -> Option<Value>)
    ensures BuildValidated(records, id, parse).Success? <==>
      forall i :: 0 <= i < |records| ==>
        EntryValue(records[i].entries, id).Some? && parse(EntryValue(records[i].entries, id).value).Some?
    ensures BuildValidated(records, id, parse) == Failure(MissingIdentifier(id)) <==>
      exists i :: 0 <= i < |records| && EntryValue(records[i].entries, id).None?
    ensures BuildValidated(records, id, parse).Failure? && BuildValidated(records, id, parse).error.UnparsableIdentifier? ==>
      var v := BuildValidated(records, id, parse).error.value;
      parse(v).None? && exists i :: 0 <= i < |records| && EntryValue(records[i].entries, id) == Some(v)
  {
    var keys := IdentifierValues(records, id);
    if keys.Success? {
      var parsed := ParseAll(parse, keys.value);
      if parsed.Failure? {
        var v := parsed.error.value;
        var j :| 0 <= j < |keys.value| && keys.value[j] == v;
        assert EntryValue(records[j].entries, id) == Some(v);
      }
    }
  }

  /**
   * A built frame has one index entry and one row per record, in order: the index
   * holds the parsed identifiers, each row the record's other values, and the
   * identifier is not among the columns. No record gives the empty frame.
   */
  lemma BuildValidatedShape(records: seq<Record>, id: string, parse: Value -> Option<Value>)
    ensures BuildValidated(records, id, parse).Success? ==>
      var t := BuildValidated(records, id, parse).value;
      t.indexName == id && |t.index| == |t.rows| == |records| && id !in t.columns &&
      (forall i :: 0 <= i < |records| ==> Some(t.index[i]) == parse(EntryValue(records[i].entries, id).value)) &&
      (forall i :: 0 <= i < |records| ==> t.rows[i] == EntryValues(Without(records[i].entries, id)))
    ensures records == [] ==> BuildValidated(records, id, parse) == Success(ValidatedTable(id, [], [], []))
  {
    if |records| > 0 {
      WithoutNames(records[0].entries, id);
    }
  }

  /**
   * The whole validation of a table against the schema, before anything is stored,
   * with the error rows as the loop is written: one per failure of a failing row.
   */
  function Validate(schema: Schema, id: string, parse: Value -> Option<Value>, t: Table): Result<ValidationResult, StructuralError>
  {
    var check := SchemaCheck(schema, t.columns);
    var errors := ErrorTable(t.columns + [TotalErrorsColumn, ErrorDetailsColumn], ErrorRecordsAsWritten(check, t.rows));
    match BuildValidated(ValidatedRecords(check, t.rows), id, parse)
    case Failure(e) => Failure(e)
    case Success(v) => Success(ValidationResult(v, errors, Summarize(errors)))
  }

  /** What validating one more row adds: its record, or one error row per failure. */
  lemma RowStep(schema: Schema, columns: seq<string>, rows: seq<Row>, i: nat)
    requires i < |rows|
    ensures var check := SchemaCheck(schema, columns);
      var v := ValidateRow(schema, columns, rows[i]);
      v.Success? ==>
        ValidatedRecords(check, rows[..i + 1]) == ValidatedRecords(check, rows[..i]) + [v.value] &&
        ErrorRecordsAsWritten(check, rows[..i + 1]) == ErrorRecordsAsWritten(check, rows[..i])
    ensures var check := SchemaCheck(schema, columns);
      var v := ValidateRow(schema, columns, rows[i]);
      v.Failure? ==>
        ValidatedRecords(check, rows[..i + 1]) == ValidatedRecords(check, rows[..i]) &&
        ErrorRecordsAsWritten(check, rows[..i + 1]) ==
          ErrorRecordsAsWritten(check, rows[..i]) + ErrorRowsAsWritten(rows[i], v.error)
  {
    var check := SchemaCheck(schema, columns);
    assert rows[..i + 1][..i] == rows[..i];
    ValidatedSnoc(check, rows[..i], rows[i]);
    assert rows[..i + 1] == rows[..i] + [rows[i]];
  }

  /** The row passes the schema: every field's check accepts its value. */
  predicate RowPasses(schema: Schema, columns: seq<string>, row: Row)
  {
    forall k :: 0 <= k < |schema| ==> FieldPasses(schema[k], columns, row)
  }

  /** The schema check accepts exactly the rows that pass every field. */
  lemma PassesIff(schema: Schema, columns: seq<string>, row: Row)
    ensures SchemaCheck(schema, columns)(row).Success? <==> RowPasses(schema, columns, row)
  {
    ValidateRowSpec(schema, columns, row);
  }

  /**
   * What a successful validation delivers: the error table has the input columns
   * followed by total_errors and error_details, with the error rows as written, one
   * per failed input; the report is the all-clear exactly when every row passes every
   * field, and otherwise the sum of the squared failure counts of the failing rows; the
   * validated table has one row per passing input row.
   */
  lemma ValidateSpec(schema: Schema, id: string, parse: Value -> Option<Value>, t: Table)
    ensures Validate(schema, id, parse, t).Success? ==>
      var v := Validate(schema, id, parse, t).value;
      var check := SchemaCheck(schema, t.columns);
      v.errors.columns == t.columns + [TotalErrorsColumn, ErrorDetailsColumn] &&
      v.errors.rows == ErrorRecordsAsWritten(check, t.rows) &&
      |v.errors.rows| == FailureCount(check, t.rows) &&
      (v.summary == AllPassed <==> forall i :: 0 <= i < |t.rows| ==> RowPasses(schema, t.columns, t.rows[i])) &&
      (v.summary != AllPassed ==> v.summary == InputsFailed(SquareTotal(check, t.rows))) &&
      |v.validated.rows| == PassCount(check, t.rows) &&
      |v.validated.rows| + |ErrorRecords(check, t.rows)| == |t.rows|
    ensures Validate(schema, id, parse, t).Failure? <==>
      BuildValidated(ValidatedRecords(SchemaCheck(schema, t.columns), t.rows), id, parse).Failure?
  {
    var check := SchemaCheck(schema, t.columns);
    SchemaCheckReportsFailures(schema, t.columns);
    AllClearAsWrittenIff(check, t.rows, t.columns + [TotalErrorsColumn, ErrorDetailsColumn]);
    ErrorCountAsWritten(check, t.rows);
    ValidatedCount(check, t.rows);
    PartitionCounts(check, t.rows);
    BuildValidatedShape(ValidatedRecords(check, t.rows), id, parse);
    forall i | 0 <= i < |t.rows| ensures check(t.rows[i]).Success? <==> RowPasses(schema, t.columns, t.rows[i]) {
      PassesIff(schema, t.columns, t.rows[i]);
    }
  }

  /** The names of the schema's fields, in declaration order. */
  function FieldNames(schema: Schema): seq<string>
  {
    seq(|schema|, i requires 0 <= i < |schema| => schema[i].name)
  }

  /** A record the schema check yields for a row has exactly the schema's fields, in order. */
  lemma RowRecordFields(schema: Schema, columns: seq<string>, row: Row)
    ensures forall rec :: rec in RowRecords(SchemaCheck(schema, columns), row) ==>
      EntryNames(rec.entries) == FieldNames(schema)
  {
    ValidateRowSpec(schema, columns, row);
  }

  /** Every record the schema check yields has exactly the schema's fields, in order. */
  lemma {:induction false} RecordsHaveSchemaFields(schema: Schema, columns: seq<string>, rows: seq<Row>)
    ensures forall rec :: rec in ValidatedRecords(SchemaCheck(schema, columns), rows) ==>
      EntryNames(rec.entries) == FieldNames(schema)
    decreases |rows|
  {
    if |rows| > 0 {
      RecordsHaveSchemaFields(schema, columns, rows[..|rows| - 1]);
      RowRecordFields(schema, columns, rows[|rows| - 1]);
    }
  }

  /**
   * The shape of the validated frame: when there is a validated row the columns are
   * the schema's fields without the identifier, in declaration order, and every row
   * holds one value per column, the record's value for that field.
   */
  lemma ValidatedShape(schema: Schema, id: string, parse: Value -> Option<Value>, t: Table)
    ensures Validate(schema, id, parse, t).Success? ==>
      var vt := Validate(schema, id, parse, t).value.validated;
      var records := ValidatedRecords(SchemaCheck(schema, t.columns), t.rows);
      vt.indexName == id && id !in vt.columns && |vt.index| == |vt.rows| == |records| &&
      (|records| > 0 ==> vt.columns == DropName(FieldNames(schema), id)) &&
      forall i :: 0 <= i < |vt.rows| ==>
        EntryNames(Without(records[i].entries, id)) == vt.columns &&
        vt.rows[i] == EntryValues(Without(records[i].entries, id))
  {
    var check := SchemaCheck(schema, t.columns);
    var records := ValidatedRecords(check, t.rows);
    BuildValidatedShape(records, id, parse);
    RecordsHaveSchemaFields(schema, t.columns, t.rows);
    forall i | 0 <= i < |records|
      ensures EntryNames(Without(records[i].entries, id)) == DropName(FieldNames(schema), id)
    {
      assert records[i] in records;
      WithoutNames(records[i].entries, id);
    }
  }

  /** A record has a value for a name only when it has a field of that name. */
  lemma PresentName(entries: seq<Entry>, name: string)
    ensures EntryValue(entries, name).Some? ==> name in EntryNames(entries)
  {
    if EntryValue(entries, name).Some? {
      var k :| 0 <= k < |entries| && entries[k].name == name;
      assert EntryNames(entries)[k] == name;
    }
  }

  /** No validated record carries a field the schema does not have. */
  lemma NoRecordHasUnknownField(schema: Schema, columns: seq<string>, rows: seq<Row>, id: string)
    requires id !in FieldNames(schema)
    ensures forall rec :: rec in ValidatedRecords(SchemaCheck(schema, columns), rows) ==>
      EntryValue(rec.entries, id).None?
  {
    RecordsHaveSchemaFields(schema, columns, rows);
    forall rec | rec in ValidatedRecords(SchemaCheck(schema, columns), rows)
      ensures EntryValue(rec.entries, id).None?
    {
      PresentName(rec.entries, id);
    }
  }

  /** There is no validated record exactly when no row passes. */
  lemma NoRecordIff(schema: Schema, columns: seq<string>, rows: seq<Row>)
    ensures ValidatedRecords(SchemaCheck(schema, columns), rows) == [] <==>
      forall i :: 0 <= i < |rows| ==> !RowPasses(schema, columns, rows[i])
  {
    NoRecordsIff(SchemaCheck(schema, columns), rows);
    forall i | 0 <= i < |rows|
      ensures SchemaCheck(schema, columns)(rows[i]).Failure? <==> !RowPasses(schema, columns, rows[i])
    {
      PassesIff(schema, columns, rows[i]);
    }
  }

  /** The identifier name the validator is written with, a placeholder. */
  const PlaceholderIdentifier := "insert here"

  /** The fields of the record schema `Data`, in declaration order. */
  const DataFields := ["var_1", "var_2", "date_var"]

  /**
   * An identifier that is not a schema field, such as the placeholder: validation
   * succeeds only when no row passes (the frame is then empty), and otherwise stops
   * with the identifier reported missing.
   */
  lemma UnknownIdentifier(schema: Schema, id: string, parse: Value -> Option<Value>, t: Table)
    requires id !in FieldNames(schema)
    ensures Validate(schema, id, parse, t).Success? <==>
      forall i :: 0 <= i < |t.rows| ==> !RowPasses(schema, t.columns, t.rows[i])
    ensures Validate(schema, id, parse, t).Failure? ==> Validate(schema, id, parse, t).error == MissingIdentifier(id)
  {
    var records := ValidatedRecords(SchemaCheck(schema, t.columns), t.rows);
    NoRecordIff(schema, t.columns, t.rows);
    BuildValidatedFailures(records, id, parse);
    BuildValidatedShape(records, id, parse);
    if records != [] {
      NoRecordHasUnknownField(schema, t.columns, t.rows, id);
      assert records[0] in records;
      assert BuildValidated(records, id, parse) == Failure(MissingIdentifier(id));
    }
  }

  /**
   * With the fields of `Data` and the placeholder identifier, validation succeeds
   * only on a table none of whose rows passes, and then holds no validated row.
   */
  lemma PlaceholderWithData(schema: Schema, parse: Value -> Option<Value>, t: Table)
    requires FieldNames(schema) == DataFields
    ensures Validate(schema, PlaceholderIdentifier, parse, t).Success? <==>
      forall i :: 0 <= i < |t.rows| ==> !RowPasses(schema, t.columns, t.rows[i])
    ensures Validate(schema, PlaceholderIdentifier, parse, t).Success? ==>
      Validate(schema, PlaceholderIdentifier, parse, t).value.validated == ValidatedTable(PlaceholderIdentifier, [], [], [])
  {
    UnknownIdentifier(schema, PlaceholderIdentifier, parse, t);
    NoRecordIff(schema, t.columns, t.rows);
    BuildValidatedShape(ValidatedRecords(SchemaCheck(schema, t.columns), t.rows), PlaceholderIdentifier, parse);
  }
}
