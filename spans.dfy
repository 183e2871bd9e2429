/** The records of the advanced converter (pdf2docx_advanced.py): spans of
    uniformly formatted text, the lines PyMuPDF groups them into, and detected
    tables. */
module Spans {
  import Formatting

  /** A span of text with one font; `isBold`/`isItalic` are decoded from the font
      flags with `Formatting.IsBold` and `Formatting.IsItalic`. */
  datatype TextSpan = TextSpan(
    text: string,
    x: real, y: real, width: real, height: real,
    fontName: string, fontSize: real,
    isBold: bool, isItalic: bool,
    color: Formatting.Rgb)
  {
    function Right(): real { x + width }
  }

  /** A line of spans; `y` is the y of its first span. */
  datatype TextLine = TextLine(spans: seq<TextSpan>, y: real)

  /** A detected table: header texts, data rows, and the y range it covers.
      `hasHeaderBg` is never set by the detector and stays false. */
  datatype TableStructure = TableStructure(
    headers: seq<string>, rows: seq<seq<string>>, yStart: real, yEnd: real, hasHeaderBg: bool)

  /** The spans of several lines, line after line (`all_spans.extend(line.spans)`). */
  function AllSpans(lines: seq<TextLine>): seq<TextSpan> {
    if lines == [] then [] else AllSpans(lines[..|lines| - 1]) + lines[|lines| - 1].spans
  }

  lemma AllSpansAppend(a: seq<TextLine>, b: seq<TextLine>)
    ensures AllSpans(a + b) == AllSpans(a) + AllSpans(b)
  {
    if b != [] {
      assert (a + b)[..|a + b| - 1] == a + b[..|b| - 1];
      AllSpansAppend(a, b[..|b| - 1]);
    } else {
      assert a + b == a;
    }
  }

  /** The sort key `s.x`. */
  predicate BySpanX(a: TextSpan, b: TextSpan) {
    a.x <= b.x
  }
}
