/** Turning one raw table grid into a DataFrame, and reading its records back. */
module TableShaping {
  import opened Wrappers
  import opened PdfModel

  /** Every row of `table` has exactly `width` cells. */
  predicate Rectangular(table: RawTable, width: nat)
  {
    forall i :: 0 <= i < |table| ==> |table[i]| == width
  }

  /**
   * The DataFrame built from a non-empty raw table: with more than one row,
   * row 0 labels the columns and the other rows are data; a single row becomes
   * one record under positional labels. The caller drops empty grids first.
   * Nothing of the grid is lost: `Grid` gives it back.
   */
  function ToDataFrame(table: RawTable): (df: DataFrame)
    requires table != []
    ensures df.Labeled? <==> |table| > 1
    ensures |df.rows| == if |table| > 1 then |table| - 1 else 1
    ensures Grid(df) == table
  {
    if |table| > 1 then Labeled(table[0], table[1..]) else Positional(table)
  }

  /** The grid a DataFrame holds: its header row, if it has one, above its data rows. */
  function Grid(df: DataFrame): RawTable
  {
    match df
    case Labeled(headers, rows) => [headers] + rows
    case Positional(rows) => rows
  }

  /** The column labels: the header cells verbatim, or 0, 1, ... over the first row. */
  function ColumnLabels(df: DataFrame): seq<Label>
  {
    match df
    case Labeled(headers, _) => seq(|headers|, j requires 0 <= j < |headers| => Header(headers[j]))
    case Positional(rows) => if rows == [] then [] else seq(|rows[0]|, j requires 0 <= j < |rows[0]| => Position(j))
  }

  /** A record: each cell of a data row paired with the label of its column. */
  type Record = seq<(Label, Cell)>

  function Zip(labels: seq<Label>, row: Row): Record
  {
    var n := if |labels| <= |row| then |labels| else |row|;
    seq(n, j requires 0 <= j < n => (labels[j], row[j]))
  }

  /** The records of a DataFrame, one per data row, in row order. */
  function Records(df: DataFrame): seq<Record>
  {
    var labels := ColumnLabels(df);
    seq(|df.rows|, i requires 0 <= i < |df.rows| => Zip(labels, df.rows[i]))
  }

  /**
   * A k-by-m grid with k > 1 gives k - 1 records of m entries each, keyed by the
   * header cells of the same column; duplicate and None headers stay as they are.
   */
  lemma LabeledTableRecords(table: RawTable, width: nat)
    requires |table| > 1 && Rectangular(table, width)
    ensures ToDataFrame(table) == Labeled(table[0], table[1..])
    ensures |Records(ToDataFrame(table))| == |table| - 1
    ensures forall i :: 0 <= i < |table| - 1 ==> |Records(ToDataFrame(table))[i]| == width
    ensures forall i, j :: 0 <= i < |table| - 1 && 0 <= j < width ==>
              Records(ToDataFrame(table))[i][j] == (Header(table[0][j]), table[i + 1][j])
  {
  }

  /** A one-row grid of m cells gives exactly one record, labelled 0 .. m-1. */
  lemma SingleRowTableRecords(table: RawTable)
    requires |table| == 1
    ensures ToDataFrame(table) == Positional([table[0]])
    ensures |Records(ToDataFrame(table))| == 1
    ensures |Records(ToDataFrame(table))[0]| == |table[0]|
    ensures forall j :: 0 <= j < |table[0]| ==>
              Records(ToDataFrame(table))[0][j] == (Position(j), table[0][j])
  {
  }
}
