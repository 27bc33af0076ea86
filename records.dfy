/**
 * The record schema and the check of one row against it: every field is checked,
 * and the row yields either a record of coerced values or all the fields' failures.
 */
module Records {
  import opened Results
  import opened Tables

  /** One failure reported for a field: the offending input, as rendered, and the message. */
  datatype FieldError = FieldError(input: string, msg: string)

  /** The outcome of checking one field: the coerced value, or at least one failure. */
  datatype Check = Passed(value: Value) | Failed(first: FieldError, rest: seq<FieldError>)

  /**
   * A field of the record schema: its name and its check, which is given the row's
   * value under that name, or None when the row has no such column.
   */
  datatype Field = Field(name: string, check: Option<Value> -> Check)

  /** The record schema: its fields in declaration order. */
  type Schema = seq<Field>

  datatype Entry = Entry(name: string, value: Value)

  /** A validated record in its serialized form: one entry per schema field, in order. */
  datatype Record = Record(entries: seq<Entry>)

  /** A check of whole rows: a record, or the ordered failures of the row. */
  type RowCheck = Row -> Result<Record, seq<FieldError>>

  /** The row's value under name; with repeated column names the last one wins, as in a dict. */
  function Lookup(columns: seq<string>, row: Row, name: string): (r: Option<Value>)
    ensures |row| >= |columns| ==> (r.Some? <==> name in columns)
    ensures r.Some? ==> exists i :: 0 <= i < |columns| && i < |row| && columns[i] == name && row[i] == r.value
    decreases |columns|
  {
    if |columns| == 0 then None
    else if columns[|columns| - 1] == name then
      (if |columns| - 1 < |row| then Some(row[|columns| - 1]) else None)
    else Lookup(columns[..|columns| - 1], row, name)
  }

  function FieldFailures(f: Field, v: Option<Value>): seq<FieldError>
  {
    match f.check(v)
    case Passed(_) => []
    case Failed(first, rest) => [first] + rest
  }

  function FieldPasses(f: Field, columns: seq<string>, row: Row): bool
  {
    f.check(Lookup(columns, row, f.name)).Passed?
  }

  /** All failures of the row, field by field in declaration order: every failing field is reported. */
  function RowFailures(schema: Schema, columns: seq<string>, row: Row): seq<FieldError>
    decreases |schema|
  {
    if |schema| == 0 then []
    else FieldFailures(schema[0], Lookup(columns, row, schema[0].name)) + RowFailures(schema[1..], columns, row)
  }

  /** The failures of a schema are those of its first fields followed by those of the rest. */
  lemma {:induction false} RowFailuresAppend(s1: Schema, s2: Schema, columns: seq<string>, row: Row)
    ensures RowFailures(s1 + s2, columns, row) == RowFailures(s1, columns, row) + RowFailures(s2, columns, row)
    decreases |s1|
  {
    if |s1| > 0 {
      assert (s1 + s2)[0] == s1[0] && (s1 + s2)[1..] == s1[1..] + s2;
      RowFailuresAppend(s1[1..], s2, columns, row);
    } else {
      assert s1 + s2 == s2;
    }
  }

  /** A row has no failure exactly when every field's check passes. */
  lemma {:induction false} RowFailuresEmpty(schema: Schema, columns: seq<string>, row: Row)
    ensures RowFailures(schema, columns, row) == [] <==>
      forall i :: 0 <= i < |schema| ==> FieldPasses(schema[i], columns, row)
    decreases |schema|
  {
    if |schema| > 0 {
      RowFailuresEmpty(schema[1..], columns, row);
      assert forall i :: 1 <= i < |schema| ==> schema[i] == schema[1..][i - 1];
    }
  }

  /** The number of fields whose check fails. */
  function FailingFields(schema: Schema, columns: seq<string>, row: Row): nat
    decreases |schema|
  {
    if |schema| == 0 then 0
    else (if FieldPasses(schema[0], columns, row) then 0 else 1) + FailingFields(schema[1..], columns, row)
  }

  /** Each failing field contributes at least one failure, so none is lost. */
  lemma {:induction false} EveryFailingFieldReported(schema: Schema, columns: seq<string>, row: Row)
    ensures |RowFailures(schema, columns, row)| >= FailingFields(schema, columns, row)
    decreases |schema|
  {
    if |schema| > 0 {
      EveryFailingFieldReported(schema[1..], columns, row);
    }
  }

  /** The coerced values of a row, one entry per field (Null where a field failed). */
  function Coerce(schema: Schema, columns: seq<string>, row: Row): (r: seq<Entry>)
    ensures |r| == |schema|
    ensures forall i :: 0 <= i < |schema| ==> r[i].name == schema[i].name
  {
    seq(|schema|, i requires 0 <= i < |schema| =>
      Entry(schema[i].name,
        match schema[i].check(Lookup(columns, row, schema[i].name))
        case Passed(v) => v
        case Failed(_, _) => Null))
  }

  /**
   * Building one record from a row: the record of coerced values when every field
   * passes, otherwise the row's failures in field order, never an empty list.
   */
  function ValidateRow(schema: Schema, columns: seq<string>, row: Row): (r: Result<Record, seq<FieldError>>)
    ensures r.Failure? ==> |r.error| > 0
  {
    var failures := RowFailures(schema, columns, row);
    if failures == [] then Success(Record(Coerce(schema, columns, row))) else Failure(failures)
  }

  /**
   * A row yields a record exactly when every field passes; the record then holds, for
   * each field in order, the value that field's check produced.
   */
  lemma ValidateRowSpec(schema: Schema, columns: seq<string>, row: Row)
    ensures ValidateRow(schema, columns, row).Success? <==>
      forall i :: 0 <= i < |schema| ==> FieldPasses(schema[i], columns, row)
    ensures ValidateRow(schema, columns, row).Failure? ==>
      ValidateRow(schema, columns, row).error == RowFailures(schema, columns, row)
    ensures ValidateRow(schema, columns, row).Success? ==>
      var rec := ValidateRow(schema, columns, row).value;
      |rec.entries| == |schema| &&
      forall i :: 0 <= i < |schema| ==>
        (rec.entries[i].name == schema[i].name &&
         schema[i].check(Lookup(columns, row, schema[i].name)) == Passed(rec.entries[i].value))
  {
    RowFailuresEmpty(schema, columns, row);
  }

  /** The row check of a schema, for a table with the given columns. */
  function SchemaCheck(schema: Schema, columns: seq<string>): RowCheck
  {
    row => ValidateRow(schema, columns, row)
  }

  /** The check reports at least one failure for every row it rejects. */
  ghost predicate ReportsFailures(check: RowCheck)
  {
    forall row :: check(row).Failure? ==> |check(row).error| > 0
  }

  lemma SchemaCheckReportsFailures(schema: Schema, columns: seq<string>)
    ensures ReportsFailures(SchemaCheck(schema, columns))
  {
  }
}
