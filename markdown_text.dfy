/** The tests and rewrites applied to the extracted text before it is shown. */
module MarkdownText {

  /** Python's `str.isspace` for one character: the code points `strip()` removes. */
  predicate IsWhitespace(c: char)
  {
    ('\t' <= c <= '\r') || ('\U{1C}' <= c <= ' ') || c == '\U{85}' || c == '\U{A0}'
    || c == '\U{1680}' || ('\U{2000}' <= c <= '\U{200A}') || c == '\U{2028}' || c == '\U{2029}'
    || c == '\U{202F}' || c == '\U{205F}' || c == '\U{3000}'
  }

  predicate AllWhitespace(s: string)
  {
    forall i :: 0 <= i < |s| ==> IsWhitespace(s[i])
  }

  /** `s.lstrip()`: the longest suffix of `s` that does not start with whitespace. */
  function TrimStart(s: string): (r: string)
    ensures |r| <= |s| && r == s[|s| - |r|..]
    ensures forall i :: 0 <= i < |s| - |r| ==> IsWhitespace(s[i])
    ensures r != [] ==> !IsWhitespace(r[0])
  {
    if s != [] && IsWhitespace(s[0]) then TrimStart(s[1..]) else s
  }

  /** `s.rstrip()`: the longest prefix of `s` that does not end with whitespace. */
  function TrimEnd(s: string): (r: string)
    ensures |r| <= |s| && r == s[..|r|]
    ensures forall i :: |r| <= i < |s| ==> IsWhitespace(s[i])
    ensures r != [] ==> !IsWhitespace(r[|r| - 1])
  {
    if s != [] && IsWhitespace(s[|s| - 1]) then TrimEnd(s[..|s| - 1]) else s
  }

  /**
   * `s.strip()`: empty exactly when `s` is whitespace only; otherwise it starts
   * and ends with a character that is not whitespace.
   */
  function Strip(s: string): (r: string)
    ensures r == [] <==> AllWhitespace(s)
    ensures |r| <= |s|
    ensures r != [] ==> !IsWhitespace(r[0]) && !IsWhitespace(r[|r| - 1])
  {
    var tail := TrimStart(s);
    var r := TrimEnd(tail);
    assert r != [] ==> r[0] == tail[0];
    r
  }

  /** How many times `c` occurs in `s`. */
  function Count(s: string, c: char): nat
  {
    if s == [] then 0 else (if s[0] == c then 1 else 0) + Count(s[1..], c)
  }

  /**
   * `s.replace('\n', '  \n')`: every line break becomes a markdown hard break,
   * so the text grows by exactly two characters per line break.
   */
  function MarkdownLineBreaks(s: string): (r: string)
    ensures |r| == |s| + 2 * Count(s, '\n')
  {
    if s == [] then [] else (if s[0] == '\n' then "  \n" else [s[0]]) + MarkdownLineBreaks(s[1..])
  }

  /** Undoes the rewrite: every "  \n" found scanning left to right becomes "\n". */
  function UndoLineBreaks(r: string): string
  {
    if |r| >= 3 && r[0] == ' ' && r[1] == ' ' && r[2] == '\n' then "\n" + UndoLineBreaks(r[3..])
    else if r == [] then []
    else [r[0]] + UndoLineBreaks(r[1..])
  }

  /** The rewrite keeps the number of line breaks. */
  lemma {:induction false} LineBreaksKeepCount(s: string)
    ensures Count(MarkdownLineBreaks(s), '\n') == Count(s, '\n')
  {
    if s != [] {
      var head := if s[0] == '\n' then "  \n" else [s[0]];
      assert MarkdownLineBreaks(s) == head + MarkdownLineBreaks(s[1..]);
      assert Count(head, '\n') == Count([s[0]], '\n') by {
        if s[0] == '\n' {
          assert head[1..] == " \n" && head[1..][1..] == "\n";
        }
      }
      assert [s[0]] + s[1..] == s;
      CountAppend([s[0]], s[1..], '\n');
      CountAppend(head, MarkdownLineBreaks(s[1..]), '\n');
      LineBreaksKeepCount(s[1..]);
    }
  }

  lemma {:induction false} CountAppend(a: string, b: string, c: char)
    ensures Count(a + b, c) == Count(a, c) + Count(b, c)
  {
    if a == [] {
      assert a + b == b;
    } else {
      assert (a + b)[0] == a[0];
      assert (a + b)[1..] == a[1..] + b;
      CountAppend(a[1..], b, c);
    }
  }

  /** Every line break of the rewritten text follows two spaces. */
  lemma {:induction false} LineBreaksAfterTwoSpaces(s: string)
    ensures forall i :: 0 <= i < |MarkdownLineBreaks(s)| && MarkdownLineBreaks(s)[i] == '\n' ==>
              i >= 2 && MarkdownLineBreaks(s)[i - 1] == ' ' && MarkdownLineBreaks(s)[i - 2] == ' '
  {
    if s != [] {
      LineBreaksAfterTwoSpaces(s[1..]);
      var head := if s[0] == '\n' then "  \n" else [s[0]];
      var rest := MarkdownLineBreaks(s[1..]);
      var r := MarkdownLineBreaks(s);
      assert r == head + rest;
      forall i | 0 <= i < |r| && r[i] == '\n'
        ensures i >= 2 && r[i - 1] == ' ' && r[i - 2] == ' '
      {
        if i >= |head| {
          var k := i - |head|;
          assert rest[k] == '\n';
          assert k >= 2;
          assert r[i - 1] == rest[k - 1] && r[i - 2] == rest[k - 2];
        }
      }
    }
  }

  /** The rewritten text never starts with a space followed by a line break. */
  lemma NoLeadingSpaceLineBreak(s: string)
    requires |MarkdownLineBreaks(s)| >= 2
    ensures !(MarkdownLineBreaks(s)[0] == ' ' && MarkdownLineBreaks(s)[1] == '\n')
  {
  }

  /** The rewrite loses nothing: undoing it gives back the text. */
  lemma {:induction false} LineBreaksRoundTrip(s: string)
    ensures UndoLineBreaks(MarkdownLineBreaks(s)) == s
  {
    if s != [] {
      var r := MarkdownLineBreaks(s);
      var rest := MarkdownLineBreaks(s[1..]);
      LineBreaksRoundTrip(s[1..]);
      if s[0] == '\n' {
        assert r == "  \n" + rest;
        assert r[3..] == rest;
      } else {
        assert r == [s[0]] + rest;
        assert r[1..] == rest;
        if |r| >= 3 && r[0] == ' ' && r[1] == ' ' {
          NoLeadingSpaceLineBreak(s[1..]);
        }
        assert [s[0]] + s[1..] == s;
      }
    }
  }

  /** What the "Extracted Text" section shows: the markdown, or the no-text warning. */
  datatype TextPanel = Expander(markdown: string) | NoTextWarning

  /**
   * The "no text" warning appears exactly when the text is whitespace only;
   * otherwise the expander holds the markdown rewrite of the text.
   */
  function TextPanelFor(extractedText: string): (p: TextPanel)
    ensures p.NoTextWarning? <==> AllWhitespace(extractedText)
    ensures p.Expander? ==> p.markdown == MarkdownLineBreaks(extractedText)
  {
    if Strip(extractedText) != "" then Expander(MarkdownLineBreaks(extractedText)) else NoTextWarning
  }
}
