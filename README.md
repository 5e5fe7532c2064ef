# PDF text and table extractor — the extraction pass

The application is a Streamlit script that lets a user upload a PDF, choose
"All Pages" or "Specific Page" (with a 1-based page number), and then shows the
text and the tables pdfplumber finds on the chosen pages. Apart from rendering
and library calls, the script holds one small deterministic procedure, and this
project models it:

1. **Page selection** (`PageSelection.SelectPages`). A falsy page number (None,
   which is what "All Pages" mode leaves in `selected_page`, or 0) means the whole
   document. A number from 1 to the page count selects that one page. A larger
   number selects nothing, and no error is raised.
2. **The extraction loop** (`Extraction.ExtractContent`). Its `while` loop over
   the selected pages calls `Extraction.AppendPageTables`, a method whose own
   `while` loop is the inner loop over one page's tables. Together they append `text + "\n\n"` for every selected page
   whose text is truthy. It appends one DataFrame for every non-empty raw table.
   Its loop invariants tie the partial string and list to the specification
   functions `TextOf` and `TablesOf` over the pages visited so far.
3. **DataFrame shaping** (`TableShaping.ToDataFrame`). A grid with more than one
   row becomes `Labeled(headers = row 0, rows = the rest)`. A one-row grid becomes
   `Positional` (columns 0, 1, ...). `Records` pairs each cell with its column label.
4. **The text panel** (`MarkdownText`). `Strip` follows Python's `str.strip()`,
   whitespace set included. `MarkdownLineBreaks` is `replace('\n', '  \n')`.
   `TextPanelFor` is the choice between the expander and the "no text" warning.

pdfplumber and pandas are stand-ins. A page is the value pair that
`extract_text` and `extract_tables` return (`PdfModel.Page`). A DataFrame is
the tagged value `Labeled(headers, rows) | Positional(rows)`.

The specification functions are defined back to front, the way the loop builds
its results. Reference definitions written front to back (filter, map,
flatten) are proved equal to them.

A page number of 0 is falsy in the test at line 39, so in "Specific Page" mode
it processes the whole document; `SelectPages` states this.

## Model

| member | source | states |
|---|---|---|
| PageSelection.SelectPages | streamlit_app.py:39-42 | "All Pages" mode or a falsy number (None from lines 16-18, or 0) gives every page in order; a number n with 1 <= n <= page count gives exactly `[pages[n-1]]`; a number past the end gives `[]`; the result is always the whole document or at most one of its pages |
| Extraction.ExtractContent | streamlit_app.py:35-55 | after the loop, the text is `TextOf` and the table list is `TablesOf` of the selected pages |
| Extraction.AppendPageTables | streamlit_app.py:51-55 | the inner loop leaves the table list extended by exactly `PageTables` of the page's raw tables: one DataFrame per non-empty grid, in the page's order |
| Extraction.TextOfJoinsPresentTexts | streamlit_app.py:44-48 | the text is the in-order concatenation of `t + "\n\n"` over the selected pages whose text `t` is present and non-empty; other pages add nothing, not even a separator |
| Extraction.TextOfAppend | streamlit_app.py:44-48 | the text of two runs of pages is the text of the first followed by the text of the second |
| Extraction.TextOfEmptyIff | streamlit_app.py:35-48 | the text is empty exactly when no selected page has truthy text (both directions) |
| Extraction.TextOfEndsWithBlankLine | streamlit_app.py:47-48 | a non-empty text always ends with the separator `"\n\n"` |
| Extraction.TextOfWhitespaceIff | streamlit_app.py:46-48 | the accumulated text is whitespace only exactly when every selected page's text is absent or whitespace only |
| Extraction.TablesInDiscoveryOrder | streamlit_app.py:50-55 | the table list is `ToDataFrame` of the non-empty raw tables of the selected pages, in page order then in-page order; its length is the number of non-empty raw tables |
| Extraction.PageTablesShapeNonEmpty | streamlit_app.py:52-55 | one page contributes `ToDataFrame` of its non-empty raw tables, in the page's order |
| Extraction.EveryTableHasARecord | streamlit_app.py:53-55 | no collected table comes from a zero-row grid: each has at least one record |
| Extraction.PageNumberPastEnd | streamlit_app.py:39-40 | a page number past the end gives empty text and an empty table list |
| Extraction.NoTextWarningIff | streamlit_app.py:59-63 | the "no text" warning is shown exactly when every selected page's text is absent or whitespace only |
| Extraction.SpecificPageScenario | streamlit_app.py:39-48 | in a three-page document, where page 2 has text "Hello" and no tables, choosing page 2 gives text `"Hello\n\n"` and no tables |
| Extraction.HeaderRowScenario | streamlit_app.py:50-55 | a page with grid `[["Name","Age"],["Alice","30"],["Bob","25"]]` gives one table with the records {Name: Alice, Age: 30} and {Name: Bob, Age: 25} |
| TableShaping.ToDataFrame | streamlit_app.py:54 | a grid of more than one row is `Labeled`, a one-row grid `Positional`; there are k-1 data rows for k > 1 rows and 1 otherwise; the grid can be recovered from the DataFrame |
| TableShaping.LabeledTableRecords | streamlit_app.py:54 | a k-by-m grid with k > 1 becomes `Labeled(table[0], table[1..])` with k-1 records of m entries, each keyed by the header cell of its column; duplicates and None headers are kept verbatim |
| TableShaping.SingleRowTableRecords | streamlit_app.py:54 | a one-row grid of m cells becomes `Positional([table[0]])`, one record labelled 0 .. m-1 |
| MarkdownText.Strip | streamlit_app.py:59 | `strip()` leaves nothing exactly when the text is whitespace only (Python's whitespace set); otherwise the result starts and ends with a non-whitespace character |
| MarkdownText.TextPanelFor | streamlit_app.py:59-63 | the warning branch is taken exactly when the text is whitespace only; otherwise the expander shows the line-break rewrite of the text |
| MarkdownText.MarkdownLineBreaks | streamlit_app.py:61 | `replace('\n', '  \n')`: the rewritten text is `|s| + 2 * count(s, '\n')` long |
| MarkdownText.LineBreaksKeepCount | streamlit_app.py:61 | the rewrite keeps the number of `\n` characters |
| MarkdownText.LineBreaksAfterTwoSpaces | streamlit_app.py:61 | every `\n` of the rewritten text is preceded by two spaces |
| MarkdownText.LineBreaksRoundTrip | streamlit_app.py:61 | undoing the rewrite (each `"  \n"` back to `"\n"`) gives the original text, so the rewrite loses nothing |

## Left out

- All Streamlit calls are left out: page config, sidebar widgets, headers,
  expanders, `st.markdown`, `st.dataframe`, the download button and the
  info and warning messages (lines 7-29 and 57-87). They are UI rendering.
  Only the choice made at line 59 is modelled, as `TextPanelFor`.
- PDF parsing (`pdfplumber.open`, `extract_text`, `extract_tables`, lines 38,
  46 and 51) is a foreign library. Its results are given as input data for
  each page.
- pandas is left out: DataFrame construction internals and `to_markdown`
  (lines 54 and 82). In particular, for `DataFrame(table[1:], columns=table[0])`
  pandas fills a data row shorter than the widest one with missing values, and
  raises an error when the widest data row's width differs from the header
  row's. Neither case is modelled: `Records` cuts each row to the shorter of
  the labels and the cells instead. This does not matter for the grids
  pdfplumber returns, whose rows all have the same width, and
  `TableShaping.LabeledTableRecords` states its result only for such
  (`Rectangular`) grids.
- The base64 encoding and the iframe HTML (lines 27-28) are a library call
  that feeds the browser viewer.
- The upload stream's `read()` and `seek(0)` (lines 26 and 32) are I/O.
- The exceptions a corrupt PDF raises propagate to Streamlit. They belong to
  the parser and are not modelled.
- Streamlit re-runs the whole script on every interaction. The model is one
  run. Determinism is immediate, because every specification is a function.
- PageSelection.SelectPages takes the page number as a `nat`. The widget at
  line 18 has `min_value=1`, so a negative number, which Python would use to
  index from the end of the page list, cannot occur. 0 is kept only because
  the truthiness test at line 39 treats it as falsy.
