/**
 * The detection table: one row per street-level image, with the `prediction` and
 * `confidence` columns that the batch classifiers fill in, and the snapshots the
 * scripts save of it.
 */
module Table {

  /** A cell of a string column as pandas holds it: missing (NaN) or a string. */
  datatype Cell = NaN | Text(s: string)

  /** The columns the detection scripts read or write; the other columns of the
      table travel along unchanged and are not modelled. */
  datatype Row = Row(url: string, prediction: Cell, confidence: Cell)

  /** A decoded RGB image, as handed to the classifier. */
  datatype Image = Image(rgb: seq<int>)

  /** Which file a save writes: the intermediate checkpoint or the final output. */
  datatype Target = Intermediate | Output

  /** One whole-table save: the file written and the rows it holds. */
  datatype Save = Save(target: Target, rows: seq<Row>)

  const ErrorMark: Cell := Text("ERROR")
  const Blank: Cell := Text("")

  /** Reading a saved table back: an empty field of a string column comes back as NaN. */
  function ReadCell(c: Cell): Cell
  {
    if c == Blank then NaN else c
  }

  /** The table a later run reads back from a saved snapshot. */
  function ReadBack(rows: seq<Row>): seq<Row>
  {
    seq(|rows|, i requires 0 <= i < |rows| =>
      Row(rows[i].url, ReadCell(rows[i].prediction), ReadCell(rows[i].confidence)))
  }
}
