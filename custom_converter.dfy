/** The page loop of the custom converter (`PDF2DOCXConverter.convert` in
    pdf2docx_custom.py): per page, the text blocks are grouped into lines, each
    line is merged into one paragraph classified against the page's average font
    size, the page's images follow all of its text, and a page break follows
    every page but the last. The document is modelled as the sequence of
    elements handed to the DOCX generator. */
module CustomConverter {
  import opened Common
  import opened Pagination
  import opened Sorting
  import opened LayoutAnalyzer

  /** An image placed on a page. */
  datatype ImageBlock = ImageBlock(imageData: seq<byte>, x: real, y: real, width: real, height: real, pageNum: int)

  /** What the extractor delivers for one page. */
  datatype Page = Page(blocks: seq<TextBlock>, images: seq<ImageBlock>)

  /** One call on the DOCX generator: `add_text_block`, `add_image` or `add_page_break`. */
  datatype Element = Paragraph(block: TextBlock, headingLevel: nat) | Picture(image: ImageBlock) | PageBreak

  /** `LayoutAnalyzer()` is built with its default vertical tolerance. */
  const DefaultToleranceY: real := 3.0

  /** The paragraph emitted for one line, if `merge_line_blocks` returns a block. */
  function ParagraphOf(line: Line, avgFontSize: real): seq<Element> {
    match Merged(line)
    case None => []
    case Some(block) => [Paragraph(block, ClassifyHeading(block, avgFontSize))]
  }

  /** The paragraphs emitted for a page's lines, in line order. */
  function Paragraphs(lines: seq<Line>, avgFontSize: real): seq<Element> {
    if lines == [] then []
    else Paragraphs(lines[..|lines| - 1], avgFontSize) + ParagraphOf(lines[|lines| - 1], avgFontSize)
  }

  /** The pictures emitted for a page's images, in extraction order. */
  function Pictures(images: seq<ImageBlock>): seq<Element> {
    if images == [] then [] else Pictures(images[..|images| - 1]) + [Picture(images[|images| - 1])]
  }

  /** The paragraphs of a page's lines followed by its pictures. */
  function PageOutput(lines: seq<Line>, avgFontSize: real, images: seq<ImageBlock>): seq<Element> {
    Paragraphs(lines, avgFontSize) + Pictures(images)
  }

  /** Everything one page contributes before its page break. */
  function PageElements(page: Page, toleranceY: real): seq<Element> {
    PageOutput(GroupedLines(page.blocks, toleranceY), AverageFontSize(page.blocks), page.images)
  }

  function PageFlows(pages: seq<Page>, toleranceY: real): (flows: seq<seq<Element>>)
    ensures |flows| == |pages|
    ensures forall i :: 0 <= i < |pages| ==> flows[i] == PageElements(pages[i], toleranceY)
  {
    seq(|pages|, i requires 0 <= i < |pages| => PageElements(pages[i], toleranceY))
  }

  // ---------------------------------------------------------------------------
  // The loop of `convert`

  /** The per-line part of the page loop: merge, classify, emit. */
  method EmitParagraphs(lines: seq<Line>, avgFontSize: real) returns (elements: seq<Element>)
    ensures elements == Paragraphs(lines, avgFontSize)
  {
    elements := [];
    for i := 0 to |lines|
      invariant elements == Paragraphs(lines[..i], avgFontSize)
    {
      var merged := MergeLineBlocks(lines[i]);
      if merged.Some? {
        var level := ClassifyHeading(merged.value, avgFontSize);
        elements := elements + [Paragraph(merged.value, level)];
      }
      assert lines[..i + 1][..i] == lines[..i];
    }
    assert lines[..|lines|] == lines;
  }

  /** The per-image part of the page loop. */
  method EmitPictures(images: seq<ImageBlock>) returns (elements: seq<Element>)
    ensures elements == Pictures(images)
  {
    elements := [];
    for i := 0 to |images|
      invariant elements == Pictures(images[..i])
    {
      assert images[..i + 1][..i] == images[..i];
      elements := elements + [Picture(images[i])];
    }
    assert images[..|images|] == images;
  }

  /** The text and images of one page, in emission order. */
  method EmitPage(page: Page, toleranceY: real) returns (elements: seq<Element>)
    ensures elements == PageElements(page, toleranceY)
  {
    var avgFontSize := AverageFontSize(page.blocks);
    var lines := GroupIntoLines(page.blocks, toleranceY);
    var text := EmitParagraphs(lines, avgFontSize);
    var pictures := EmitPictures(page.images);
    elements := text + pictures;
  }

  /** `PDF2DOCXConverter.convert`, whose analyzer groups lines with the default
      tolerance, with the page break after every page but the last. */
  method Convert(pages: seq<Page>) returns (flow: seq<Element>)
    ensures flow == Paginated(PageFlows(pages, DefaultToleranceY), |pages|, PageBreak)
  {
    ghost var flows := PageFlows(pages, DefaultToleranceY);
    assert forall i :: 0 <= i < |pages| ==> FlowAt(flows, pages, DefaultToleranceY, i);
    flow := EmitPages(pages, DefaultToleranceY, flows);
  }

  /** `flows[i]` is what page `i` contributes. */
  predicate FlowAt(flows: seq<seq<Element>>, pages: seq<Page>, toleranceY: real, i: nat) {
    i < |flows| == |pages| && flows[i] == PageElements(pages[i], toleranceY)
  }

  /** `flows` lists what every page contributes. */
  predicate FlowsOf(flows: seq<seq<Element>>, pages: seq<Page>, toleranceY: real) {
    |flows| == |pages| && forall i :: 0 <= i < |pages| ==> FlowAt(flows, pages, toleranceY, i)
  }

  /** The page loop; `flows` names, for the proof, what each page contributes. */
  method EmitPages(pages: seq<Page>, toleranceY: real, ghost flows: seq<seq<Element>>) returns (flow: seq<Element>)
    requires FlowsOf(flows, pages, toleranceY)
    ensures flow == Paginated(flows, |pages|, PageBreak)
  {
    flow := [];
    for p := 0 to |pages|
      invariant flow == Paginated(flows, p, PageBreak)
    {
      flow := EmitPageAt(pages, toleranceY, flows, p, flow);
    }
  }

  /** The body of the page loop: the page's elements, then a page break unless
      the page is the last. */
  method EmitPageAt(pages: seq<Page>, toleranceY: real, ghost flows: seq<seq<Element>>, p: nat, flow: seq<Element>)
    returns (flow': seq<Element>)
    requires p < |pages| && FlowsOf(flows, pages, toleranceY)
    ensures flow' == flow + flows[p] + (if p < |pages| - 1 then [PageBreak] else [])
  {
    assert FlowAt(flows, pages, toleranceY, p);
    var elements := EmitPage(pages[p], toleranceY);
    flow' := flow + elements;
    if p < |pages| - 1 {
      flow' := flow' + [PageBreak];
    }
  }

  // ---------------------------------------------------------------------------
  // Properties of the emitted document

  /** `e` is the paragraph emitted for the non-empty line `line`: its merged block
      with that block's heading level. */
  predicate ParagraphFor(e: Element, line: Line, avgFontSize: real) {
    Merged(line).Some? && e == Paragraph(Merged(line).value, ClassifyHeading(Merged(line).value, avgFontSize))
  }

  lemma {:induction false} ParagraphsOfLines(lines: seq<Line>, avgFontSize: real)
    requires forall i :: 0 <= i < |lines| ==> lines[i] != []
    ensures |Paragraphs(lines, avgFontSize)| == |lines|
    ensures forall i :: 0 <= i < |lines| ==> ParagraphFor(Paragraphs(lines, avgFontSize)[i], lines[i], avgFontSize)
  {
    if lines != [] {
      var init, last := lines[..|lines| - 1], lines[|lines| - 1];
      assert forall i :: 0 <= i < |init| ==> init[i] == lines[i];
      ParagraphsOfLines(init, avgFontSize);
      var before := Paragraphs(init, avgFontSize);
      var m := Merged(last).value;
      assert ParagraphOf(last, avgFontSize) == [Paragraph(m, ClassifyHeading(m, avgFontSize))];
      var out := before + [Paragraph(m, ClassifyHeading(m, avgFontSize))];
      assert Paragraphs(lines, avgFontSize) == out;
      forall i | 0 <= i < |lines| ensures ParagraphFor(out[i], lines[i], avgFontSize) {
        if i < |init| {
          assert out[i] == before[i];
        }
      }
    }
  }

  lemma {:induction false} PicturesOfImages(images: seq<ImageBlock>)
    ensures |Pictures(images)| == |images|
    ensures forall i :: 0 <= i < |images| ==> Pictures(images)[i] == Picture(images[i])
  {
    if images != [] {
      PicturesOfImages(images[..|images| - 1]);
    }
  }

  /** A page's non-empty lines (`group_into_lines` returns no empty line, see
      `LayoutAnalyzer.GroupedLinesNonEmpty`) give one paragraph per line, in line
      order, each the merged line with its heading level, and then one picture
      per image: every image comes after all of the page's text. */
  lemma PageOutputLayout(lines: seq<Line>, avgFontSize: real, images: seq<ImageBlock>)
    requires forall i :: 0 <= i < |lines| ==> lines[i] != []
    ensures |PageOutput(lines, avgFontSize, images)| == |lines| + |images|
    ensures forall i :: 0 <= i < |lines| ==>
              && ParagraphFor(PageOutput(lines, avgFontSize, images)[i], lines[i], avgFontSize)
              && PageOutput(lines, avgFontSize, images)[i].headingLevel <= 3
    ensures forall i :: 0 <= i < |images| ==> PageOutput(lines, avgFontSize, images)[|lines| + i] == Picture(images[i])
  {
    var paragraphs, pictures := Paragraphs(lines, avgFontSize), Pictures(images);
    ParagraphsOfLines(lines, avgFontSize);
    PicturesOfImages(images);
    forall i | 0 <= i < |lines|
      ensures ParagraphFor((paragraphs + pictures)[i], lines[i], avgFontSize) && (paragraphs + pictures)[i].headingLevel <= 3
    {
      assert (paragraphs + pictures)[i] == paragraphs[i];
    }
    forall i | 0 <= i < |images|
      ensures (paragraphs + pictures)[|lines| + i] == Picture(images[i])
    {
      assert (paragraphs + pictures)[|lines| + i] == pictures[i];
    }
  }

  /** A page without text blocks contributes only its pictures. */
  lemma ImageOnlyPage(page: Page, toleranceY: real)
    requires page.blocks == []
    ensures PageElements(page, toleranceY) == Pictures(page.images)
  {
    assert SortBy(page.blocks, ByPosition) == [];
  }

  /** Lines whose first blocks are all below the level-3 threshold give only
      body-text paragraphs. */
  lemma {:induction false} BodyTextLines(lines: seq<Line>, avgFontSize: real)
    requires avgFontSize >= 0.0
    requires forall i :: 0 <= i < |lines| ==> lines[i] != [] && lines[i][0].fontSize < avgFontSize * 1.15
    ensures forall e :: e in Paragraphs(lines, avgFontSize) && e.Paragraph? ==> e.headingLevel == 0
  {
    if lines != [] {
      var last := lines[|lines| - 1];
      BodyTextLines(lines[..|lines| - 1], avgFontSize);
      assert Merged(last).value.fontSize == last[0].fontSize;
    }
  }

  /** The first block of every grouped line is one of the page's blocks. */
  lemma FirstBlocksFromPage(blocks: seq<TextBlock>, toleranceY: real)
    ensures forall i :: 0 <= i < |GroupedLines(blocks, toleranceY)| ==>
              GroupedLines(blocks, toleranceY)[i] != [] && GroupedLines(blocks, toleranceY)[i][0] in blocks
  {
    var lines: seq<Line> := GroupedLines(blocks, toleranceY);
    GroupedLinesNonEmpty(blocks, toleranceY);
    FlattenSortLines(Sweep(SortBy(blocks, ByPosition), toleranceY));
    SweepFlatten(SortBy(blocks, ByPosition), toleranceY);
    forall i | 0 <= i < |lines|
      ensures lines[i][0] in blocks
    {
      InFlatten(lines, i, 0);
      assert lines[i][0] in multiset(Flatten(lines));
    }
  }

  /** A page set in one positive font size has no headings: every paragraph on it
      is at level 0. */
  lemma UniformPageParagraphs(page: Page, size: real, toleranceY: real)
    requires size > 0.0
    requires forall k :: 0 <= k < |page.blocks| ==> page.blocks[k].fontSize == size
    ensures forall e :: e in PageElements(page, toleranceY) && e.Paragraph? ==> e.headingLevel == 0
  {
    var lines: seq<Line> := GroupedLines(page.blocks, toleranceY);
    var avg := AverageFontSize(page.blocks);
    FirstBlocksFromPage(page.blocks, toleranceY);
    if page.blocks != [] {
      AverageWithinSizes(page.blocks, size, size);
      assert avg == size;
    } else {
      assert SortBy(page.blocks, ByPosition) == [];
    }
    assert forall i :: 0 <= i < |lines| ==> lines[i][0].fontSize == size;
    BodyTextLines(lines, avg);
    PicturesAreNotParagraphs(page.images);
  }

  lemma {:induction false} PicturesAreNotParagraphs(images: seq<ImageBlock>)
    ensures forall e :: e in Pictures(images) ==> e.Picture?
  {
    if images != [] {
      PicturesAreNotParagraphs(images[..|images| - 1]);
    }
  }

  lemma {:induction false} ParagraphsAreNotBreaks(lines: seq<Line>, avgFontSize: real)
    ensures PageBreak !in Paragraphs(lines, avgFontSize)
  {
    if lines != [] {
      ParagraphsAreNotBreaks(lines[..|lines| - 1], avgFontSize);
    }
  }

  /** A document of n >= 1 pages gets exactly n - 1 page breaks; the flow is the
      pages' elements separated by single page breaks and ends with the last
      page's own elements. */
  lemma DocumentPageBreaks(pages: seq<Page>, toleranceY: real)
    requires pages != []
    ensures var flows := PageFlows(pages, toleranceY);
            var flow := Paginated(flows, |pages|, PageBreak);
            && flow == Separated(flows, PageBreak)
            && Count(flow, PageBreak) == |pages| - 1
            && var last := flows[|pages| - 1];
               |last| <= |flow| && flow[|flow| - |last|..] == last
  {
    var flows := PageFlows(pages, toleranceY);
    PaginatedIsSeparated(flows, |pages|, PageBreak);
    forall i | 0 <= i < |flows|
      ensures PageBreak !in flows[i]
    {
      ParagraphsAreNotBreaks(GroupedLines(pages[i].blocks, toleranceY), AverageFontSize(pages[i].blocks));
      PicturesAreNotParagraphs(pages[i].images);
    }
    SeparatedBreaks(flows, PageBreak);
  }
}
