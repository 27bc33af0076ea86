/** The tabular values that flow between the pipeline's stages. */
module Tables {

  /**
   * One cell as the readers produce it. The readers' numeric and date types are
   * kept abstract: a number is an integer, a timestamp an integer count of ticks.
   */
  datatype Value = Null | Text(text: string) | Number(number: int) | Stamp(ticks: int)

  /** A row holds one value per column, by position. */
  type Row = seq<Value>

  /** A data frame: column names and rows, in order. */
  datatype Table = Table(columns: seq<string>, rows: seq<Row>)
}
