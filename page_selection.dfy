/** Which pages of the document the extraction loop visits. */
module PageSelection {
  import opened Wrappers
  import opened PdfModel

  /**
   * The pages to process, given all pages of the document, the radio-button
   * mode and the page number (None unless the mode is SpecificPage; the number
   * is 1-based). A falsy number falls back to the whole document, and a number
   * past the end selects nothing without raising an error.
   */
  function SelectPages(pages: seq<Page>, mode: PageMode, pageNumber: Option<nat>): (r: seq<Page>)
    ensures mode == AllPages || !PageNumberIsTruthy(pageNumber) ==> r == pages
    ensures mode == SpecificPage && pageNumber.Some? && 1 <= pageNumber.value <= |pages| ==>
              r == [pages[pageNumber.value - 1]]
    ensures mode == SpecificPage && pageNumber.Some? && pageNumber.value > |pages| ==> r == []
    ensures r == pages || |r| <= 1
    ensures forall k :: 0 <= k < |r| ==> r[k] in pages
  {
    if PageNumberIsTruthy(pageNumber) && mode == SpecificPage then
      (if pageNumber.value <= |pages| then [pages[pageNumber.value - 1]] else [])
    else
      pages
  }
}
