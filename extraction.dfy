/**
 * The extraction loop: over the selected pages, accumulate each page's text
 * followed by a blank line, and collect the DataFrames of its non-empty tables.
 */
module Extraction {
  import opened Wrappers
  import opened PdfModel
  import opened PageSelection
  import opened TableShaping
  import opened MarkdownText

  /** What one page adds to the text: its text and a blank line, or nothing if its text is falsy. */
  function PageText(page: Page): string
  {
    if TextIsTruthy(page.text) then page.text.value + "\n\n" else ""
  }

  /** The text after the loop has visited `pages`, built one page at a time as the loop does. */
  function TextOf(pages: seq<Page>): string
  {
    if pages == [] then "" else TextOf(pages[..|pages| - 1]) + PageText(pages[|pages| - 1])
  }

  /** The DataFrames one page adds: one per non-empty raw table, in the page's order. */
  function PageTables(raws: seq<RawTable>): seq<DataFrame>
  {
    if raws == [] then []
    else
      var last := raws[|raws| - 1];
      PageTables(raws[..|raws| - 1]) + (if last != [] then [ToDataFrame(last)] else [])
  }

  /** The table list after the loop has visited `pages`. */
  function TablesOf(pages: seq<Page>): seq<DataFrame>
  {
    if pages == [] then [] else TablesOf(pages[..|pages| - 1]) + PageTables(pages[|pages| - 1].tables)
  }

  /**
   * The whole extraction pass: select the pages, then visit them in order,
   * appending to the text with `+=` and to the table list with `append`.
   */
  method ExtractContent(pdfPages: seq<Page>, mode: PageMode, pageNumber: Option<nat>)
    returns (extractedText: string, tables: seq<DataFrame>)
    ensures extractedText == TextOf(SelectPages(pdfPages, mode, pageNumber))
    ensures tables == TablesOf(SelectPages(pdfPages, mode, pageNumber))
  {
    extractedText := "";
    tables := [];
    var pages := SelectPages(pdfPages, mode, pageNumber);
    var i := 0;
    while i < |pages|
      invariant 0 <= i <= |pages|
      invariant extractedText == TextOf(pages[..i])
      invariant tables == TablesOf(pages[..i])
    {
      var page := pages[i];
      var text := page.text;
      if TextIsTruthy(text) {
        extractedText := extractedText + (text.value + "\n\n");
      }
      tables := AppendPageTables(tables, page.tables);
      PagesStep(pages, i);
      i := i + 1;
    }
    assert pages[..i] == pages;
  }

  /** The inner loop over one page's raw tables: empty grids are skipped, the others shaped and appended. */
  method AppendPageTables(tables: seq<DataFrame>, pageTables: seq<RawTable>) returns (result: seq<DataFrame>)
    ensures result == tables + PageTables(pageTables)
  {
    result := tables;
    var j := 0;
    while j < |pageTables|
      invariant 0 <= j <= |pageTables|
      invariant result == tables + PageTables(pageTables[..j])
    {
      var table := pageTables[j];
      if table != [] {
        var df := ToDataFrame(table);
        result := result + [df];
      }
      PageTablesStep(pageTables, j);
      j := j + 1;
    }
    assert pageTables[..j] == pageTables;
  }

  /** One more raw table visited by the inner loop. */
  lemma PageTablesStep(raws: seq<RawTable>, j: nat)
    requires j < |raws|
    ensures PageTables(raws[..j + 1]) ==
              PageTables(raws[..j]) + (if raws[j] != [] then [ToDataFrame(raws[j])] else [])
  {
    assert raws[..j + 1][..j] == raws[..j];
  }

  /** One more page visited by the outer loop. */
  lemma PagesStep(pages: seq<Page>, i: nat)
    requires i < |pages|
    ensures TextOf(pages[..i + 1]) == TextOf(pages[..i]) + PageText(pages[i])
    ensures TablesOf(pages[..i + 1]) == TablesOf(pages[..i]) + PageTables(pages[i].tables)
  {
    assert pages[..i + 1][..i] == pages[..i];
  }

  // ---------------------------------------------------------------------
  // Reference definitions, written front to back, independent of the loop.
  // ---------------------------------------------------------------------

  /** The truthy page texts, in page order. */
  function PresentTexts(pages: seq<Page>): (texts: seq<string>)
    ensures forall k :: 0 <= k < |texts| ==> texts[k] != ""
  {
    if pages == [] then []
    else (if TextIsTruthy(pages[0].text) then [pages[0].text.value] else []) + PresentTexts(pages[1..])
  }

  /** Each text followed by a blank line, concatenated. */
  function JoinWithBlankLines(texts: seq<string>): string
  {
    if texts == [] then "" else texts[0] + "\n\n" + JoinWithBlankLines(texts[1..])
  }

  /** All raw tables of `pages`, page by page. */
  function RawTablesOf(pages: seq<Page>): seq<RawTable>
  {
    if pages == [] then [] else pages[0].tables + RawTablesOf(pages[1..])
  }

  /** The raw tables that have at least one row, in order. */
  function NonEmptyTables(raws: seq<RawTable>): (kept: seq<RawTable>)
    ensures |kept| <= |raws|
    ensures forall k :: 0 <= k < |kept| ==> kept[k] != []
  {
    if raws == [] then []
    else (if raws[0] != [] then [raws[0]] else []) + NonEmptyTables(raws[1..])
  }

  /** `ToDataFrame` applied to each table. */
  function ShapeAll(raws: seq<RawTable>): (dfs: seq<DataFrame>)
    requires forall k :: 0 <= k < |raws| ==> raws[k] != []
    ensures |dfs| == |raws|
    ensures forall k :: 0 <= k < |dfs| ==> dfs[k] == ToDataFrame(raws[k])
  {
    if raws == [] then [] else [ToDataFrame(raws[0])] + ShapeAll(raws[1..])
  }

  // ---------------------------------------------------------------------
  // Text
  // ---------------------------------------------------------------------

  lemma {:induction false} TextOfAppend(a: seq<Page>, b: seq<Page>)
    ensures TextOf(a + b) == TextOf(a) + TextOf(b)
    decreases |b|
  {
    if b == [] {
      assert a + b == a;
    } else {
      var b' := b[..|b| - 1];
      var ab := a + b;
      assert ab[..|ab| - 1] == a + b';
      assert ab[|ab| - 1] == b[|b| - 1];
      calc {
        TextOf(ab);
        TextOf(a + b') + PageText(b[|b| - 1]);
        { TextOfAppend(a, b'); }
        TextOf(a) + TextOf(b') + PageText(b[|b| - 1]);
        TextOf(a) + (TextOf(b') + PageText(b[|b| - 1]));
        TextOf(a) + TextOf(b);
      }
    }
  }

  /**
   * The accumulated text is the in-order concatenation of `t + "\n\n"` over the
   * pages whose text `t` is truthy; other pages add nothing, not even a separator.
   */
  lemma {:induction false} TextOfJoinsPresentTexts(pages: seq<Page>)
    ensures TextOf(pages) == JoinWithBlankLines(PresentTexts(pages))
  {
    if pages != [] {
      assert pages == [pages[0]] + pages[1..];
      TextOfAppend([pages[0]], pages[1..]);
      assert [pages[0]][..0] == [];
      assert TextOf([pages[0]]) == PageText(pages[0]);
      TextOfJoinsPresentTexts(pages[1..]);
      var rest := PresentTexts(pages[1..]);
      if TextIsTruthy(pages[0].text) {
        var t := pages[0].text.value;
        assert PresentTexts(pages) == [t] + rest;
        assert ([t] + rest)[1..] == rest;
      } else {
        assert PresentTexts(pages) == [] + rest == rest;
      }
    }
  }

  /** The text is empty exactly when no visited page has truthy text. */
  lemma {:induction false} TextOfEmptyIff(pages: seq<Page>)
    ensures TextOf(pages) == "" <==> forall k :: 0 <= k < |pages| ==> !TextIsTruthy(pages[k].text)
  {
    if pages != [] {
      var init := pages[..|pages| - 1];
      TextOfEmptyIff(init);
      assert forall k :: 0 <= k < |init| ==> init[k] == pages[k];
    }
  }

  /** A non-empty text always ends with the blank-line separator. */
  lemma {:induction false} TextOfEndsWithBlankLine(pages: seq<Page>)
    ensures TextOf(pages) != "" ==> |TextOf(pages)| >= 2 && TextOf(pages)[|TextOf(pages)| - 2..] == "\n\n"
  {
    if pages != [] {
      var init := pages[..|pages| - 1];
      var last := PageText(pages[|pages| - 1]);
      TextOfEndsWithBlankLine(init);
      if last == "" {
        assert TextOf(pages) == TextOf(init);
      } else {
        var t := TextOf(pages);
        assert t == TextOf(init) + pages[|pages| - 1].text.value + "\n\n";
        assert t[|t| - 2..] == "\n\n";
      }
    }
  }

  lemma AllWhitespaceAppend(a: string, b: string)
    ensures AllWhitespace(a + b) <==> AllWhitespace(a) && AllWhitespace(b)
  {
    if AllWhitespace(a + b) {
      forall i | 0 <= i < |a| ensures IsWhitespace(a[i]) {
        assert a[i] == (a + b)[i];
      }
      forall i | 0 <= i < |b| ensures IsWhitespace(b[i]) {
        assert b[i] == (a + b)[|a| + i];
      }
    }
    if AllWhitespace(a) && AllWhitespace(b) {
      forall i | 0 <= i < |a + b| ensures IsWhitespace((a + b)[i]) {
        if i < |a| {
          assert (a + b)[i] == a[i];
        } else {
          assert (a + b)[i] == b[i - |a|];
        }
      }
    }
  }

  /** The text is whitespace only exactly when every visited page's text is (an absent text counts as ""). */
  lemma {:induction false} TextOfWhitespaceIff(pages: seq<Page>)
    ensures AllWhitespace(TextOf(pages)) <==>
              forall k :: 0 <= k < |pages| ==> AllWhitespace(pages[k].text.GetOr(""))
  {
    if pages != [] {
      var init := pages[..|pages| - 1];
      var p := pages[|pages| - 1];
      TextOfWhitespaceIff(init);
      AllWhitespaceAppend(TextOf(init), PageText(p));
      if TextIsTruthy(p.text) {
        AllWhitespaceAppend(p.text.value, "\n\n");
      }
      assert forall k :: 0 <= k < |init| ==> init[k] == pages[k];
    }
  }

  // ---------------------------------------------------------------------
  // Tables
  // ---------------------------------------------------------------------

  lemma {:induction false} PageTablesAppend(a: seq<RawTable>, b: seq<RawTable>)
    ensures PageTables(a + b) == PageTables(a) + PageTables(b)
    decreases |b|
  {
    if b == [] {
      assert a + b == a;
    } else {
      var b' := b[..|b| - 1];
      var ab := a + b;
      assert ab[..|ab| - 1] == a + b';
      assert ab[|ab| - 1] == b[|b| - 1];
      calc {
        PageTables(ab);
        PageTables(a + b') + (if b[|b| - 1] != [] then [ToDataFrame(b[|b| - 1])] else []);
        { PageTablesAppend(a, b'); }
        PageTables(a) + PageTables(b') + (if b[|b| - 1] != [] then [ToDataFrame(b[|b| - 1])] else []);
        PageTables(a) + (PageTables(b') + (if b[|b| - 1] != [] then [ToDataFrame(b[|b| - 1])] else []));
        PageTables(a) + PageTables(b);
      }
    }
  }

  lemma {:induction false} TablesOfAppend(a: seq<Page>, b: seq<Page>)
    ensures TablesOf(a + b) == TablesOf(a) + TablesOf(b)
    decreases |b|
  {
    if b == [] {
      assert a + b == a;
    } else {
      var b' := b[..|b| - 1];
      var ab := a + b;
      assert ab[..|ab| - 1] == a + b';
      assert ab[|ab| - 1] == b[|b| - 1];
      calc {
        TablesOf(ab);
        TablesOf(a + b') + PageTables(b[|b| - 1].tables);
        { TablesOfAppend(a, b'); }
        TablesOf(a) + TablesOf(b') + PageTables(b[|b| - 1].tables);
        TablesOf(a) + (TablesOf(b') + PageTables(b[|b| - 1].tables));
        TablesOf(a) + TablesOf(b);
      }
    }
  }

  lemma {:induction false} NonEmptyTablesAppend(a: seq<RawTable>, b: seq<RawTable>)
    ensures NonEmptyTables(a + b) == NonEmptyTables(a) + NonEmptyTables(b)
  {
    if a == [] {
      assert a + b == b;
    } else {
      assert (a + b)[0] == a[0];
      assert (a + b)[1..] == a[1..] + b;
      NonEmptyTablesAppend(a[1..], b);
    }
  }

  lemma ShapeAllAppend(a: seq<RawTable>, b: seq<RawTable>)
    requires forall k :: 0 <= k < |a| ==> a[k] != []
    requires forall k :: 0 <= k < |b| ==> b[k] != []
    ensures ShapeAll(a + b) == ShapeAll(a) + ShapeAll(b)
  {
  }

  /** One page's tables are its non-empty raw tables, shaped, in the page's order. */
  lemma {:induction false} PageTablesShapeNonEmpty(raws: seq<RawTable>)
    ensures PageTables(raws) == ShapeAll(NonEmptyTables(raws))
  {
    if raws != [] {
      assert raws == [raws[0]] + raws[1..];
      PageTablesAppend([raws[0]], raws[1..]);
      assert [raws[0]][..0] == [];
      PageTablesShapeNonEmpty(raws[1..]);
    }
  }

  /**
   * The collected tables are exactly the non-empty raw tables of the visited
   * pages, shaped, in discovery order (page order, then order within the page):
   * one DataFrame per non-empty raw table and none for an empty one.
   */
  lemma {:induction false} TablesInDiscoveryOrder(pages: seq<Page>)
    ensures TablesOf(pages) == ShapeAll(NonEmptyTables(RawTablesOf(pages)))
    ensures |TablesOf(pages)| == |NonEmptyTables(RawTablesOf(pages))|
  {
    if pages != [] {
      var p := pages[0];
      var rest := pages[1..];
      assert pages == [p] + rest;
      var x := NonEmptyTables(p.tables);
      var y := NonEmptyTables(RawTablesOf(rest));
      calc {
        TablesOf(pages);
        { TablesOfAppend([p], rest); assert [p][..0] == []; }
        PageTables(p.tables) + TablesOf(rest);
        { PageTablesShapeNonEmpty(p.tables); TablesInDiscoveryOrder(rest); }
        ShapeAll(x) + ShapeAll(y);
        { ShapeAllAppend(x, y); }
        ShapeAll(x + y);
        { NonEmptyTablesAppend(p.tables, RawTablesOf(rest)); }
        ShapeAll(NonEmptyTables(RawTablesOf(pages)));
      }
    }
  }

  /** No collected table comes from an empty grid: each has at least one record. */
  lemma EveryTableHasARecord(pages: seq<Page>)
    ensures forall k :: 0 <= k < |TablesOf(pages)| ==> |Records(TablesOf(pages)[k])| >= 1
  {
    TablesInDiscoveryOrder(pages);
  }

  // ---------------------------------------------------------------------
  // The whole pass
  // ---------------------------------------------------------------------

  /** A page number past the end gives empty text and no tables, without an error. */
  lemma PageNumberPastEnd(pdfPages: seq<Page>, n: nat)
    requires n > |pdfPages|
    ensures TextOf(SelectPages(pdfPages, SpecificPage, Some(n))) == ""
    ensures TablesOf(SelectPages(pdfPages, SpecificPage, Some(n))) == []
  {
  }

  /**
   * The "no text" warning is shown exactly when every selected page's text is
   * absent or whitespace only.
   */
  lemma NoTextWarningIff(pdfPages: seq<Page>, mode: PageMode, pageNumber: Option<nat>)
    ensures var pages := SelectPages(pdfPages, mode, pageNumber);
            TextPanelFor(TextOf(pages)).NoTextWarning? <==>
              forall k :: 0 <= k < |pages| ==> AllWhitespace(pages[k].text.GetOr(""))
  {
    TextOfWhitespaceIff(SelectPages(pdfPages, mode, pageNumber));
  }

  /** A three-page document, page 2 selected, page 2 holding "Hello" and no tables. */
  lemma SpecificPageScenario(p1: Page, p3: Page)
    ensures var pages := SelectPages([p1, Page(Some("Hello"), []), p3], SpecificPage, Some(2));
            TextOf(pages) == "Hello\n\n" && TablesOf(pages) == []
  {
  }

  /** One page holding a 3-by-2 grid with a header row gives one table of two records. */
  lemma HeaderRowScenario()
    ensures var grid: RawTable := [[Some("Name"), Some("Age")], [Some("Alice"), Some("30")], [Some("Bob"), Some("25")]];
            var tables := TablesOf([Page(None, [grid])]);
            |tables| == 1 &&
            Records(tables[0]) == [[(Header(Some("Name")), Some("Alice")), (Header(Some("Age")), Some("30"))],
                                   [(Header(Some("Name")), Some("Bob")), (Header(Some("Age")), Some("25"))]]
  {
    var grid: RawTable := [[Some("Name"), Some("Age")], [Some("Alice"), Some("30")], [Some("Bob"), Some("25")]];
    var pages := [Page(None, [grid])];
    assert pages[..0] == [];
    assert [grid][..0] == [];
    var df := ToDataFrame(grid);
    assert PageTables([grid]) == [] + [df];
    assert TablesOf(pages) == TablesOf([]) + PageTables([grid]);
    LabeledTableRecords(grid, 2);
    var recs := Records(df);
    assert recs[0] == [(Header(Some("Name")), Some("Alice")), (Header(Some("Age")), Some("30"))];
    assert recs[1] == [(Header(Some("Name")), Some("Bob")), (Header(Some("Age")), Some("25"))];
  }
}
