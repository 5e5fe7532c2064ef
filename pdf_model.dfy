/**
 * The data the extraction flow works on, with the PDF library and pandas
 * replaced by plain values: a page is what `extract_text` and
 * `extract_tables` return for it, and a pandas DataFrame is a tagged value
 * that records which of the two constructor calls built it.
 */
module PdfModel {
  import opened Wrappers

  /** One table cell as pdfplumber reports it: a string, or None for an empty cell. */
  type Cell = Option<string>

  type Row = seq<Cell>

  /** A raw table: the grid of rows that `extract_tables` returns for one table. */
  type RawTable = seq<Row>

  /** One page of the document: the result of `extract_text` and of `extract_tables`. */
  datatype Page = Page(text: Option<string>, tables: seq<RawTable>)

  /** The sidebar radio button. */
  datatype PageMode = AllPages | SpecificPage

  /** A column label of a DataFrame: a header cell taken verbatim, or a positional index. */
  datatype Label = Header(name: Cell) | Position(index: nat)

  /**
   * The DataFrame built from a raw table: `DataFrame(table[1:], columns=table[0])`
   * is `Labeled`, `DataFrame(table)` is `Positional` (columns 0, 1, 2, ...).
   */
  datatype DataFrame = Labeled(headers: Row, rows: seq<Row>) | Positional(rows: seq<Row>)

  /** Python truthiness of what `extract_text` returns: None and "" are falsy. */
  predicate TextIsTruthy(text: Option<string>)
  {
    text.Some? && text.value != ""
  }

  /** Python truthiness of `selected_page`: None and 0 are falsy. */
  predicate PageNumberIsTruthy(pageNumber: Option<nat>)
  {
    pageNumber.Some? && pageNumber.value != 0
  }
}
