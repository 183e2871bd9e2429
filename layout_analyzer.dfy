/** The custom converter's layout analysis (pdf2docx_custom.py): text blocks are
    grouped into lines by vertical proximity, a line's blocks are merged into one
    block, and a merged block is classified as body text or a heading level from
    its font size relative to the page average. */
module LayoutAnalyzer {
  import opened Common
  import opened Sorting
  import Formatting

  /** A positioned, formatted run of text as PyMuPDF reports it. */
  datatype TextBlock = TextBlock(
    text: string,
    x: real, y: real, width: real, height: real,
    fontName: string, fontSize: real, fontFlags: int,
    color: Formatting.Rgb, pageNum: int)
  {
    predicate IsBold() { Formatting.IsBold(fontFlags) }
    predicate IsItalic() { Formatting.IsItalic(fontFlags) }
    function Bottom(): real { y + height }
    function Right(): real { x + width }
  }

  type Line = seq<TextBlock>

  /** The sort key `(b.y, b.x)`. */
  predicate ByPosition(a: TextBlock, b: TextBlock) {
    a.y < b.y || (a.y == b.y && a.x <= b.x)
  }

  /** The sort key `b.x`. */
  predicate ByX(a: TextBlock, b: TextBlock) {
    a.x <= b.x
  }

  function Flatten(lines: seq<Line>): seq<TextBlock> {
    if lines == [] then [] else Flatten(lines[..|lines| - 1]) + lines[|lines| - 1]
  }

  /** The smallest y of a line's blocks: the y of its first block in (y, x) order. */
  function MinY(line: Line): (m: real)
    requires line != []
    ensures forall j :: 0 <= j < |line| ==> m <= line[j].y
    ensures exists j :: 0 <= j < |line| && line[j].y == m
  {
    if |line| == 1 then line[0].y
    else
      var init := line[..|line| - 1];
      var m := MinY(init);
      assert forall j :: 0 <= j < |init| ==> init[j] == line[j];
      if line[|line| - 1].y < m then line[|line| - 1].y else m
  }

  lemma MinYOfPermutation(a: Line, b: Line)
    requires a != [] && multiset(a) == multiset(b)
    ensures b != [] && MinY(a) == MinY(b)
  {
    assert |b| == |a|;
    var i :| 0 <= i < |a| && a[i].y == MinY(a);
    var j :| 0 <= j < |b| && b[j].y == MinY(b);
    assert a[i] in multiset(b);
    assert b[j] in multiset(a);
  }

  // ---------------------------------------------------------------------------
  // group_into_lines

  /** One step of the sweep: `block` joins the current (last) line when its y is
      within `toleranceY` of the y of that line's FIRST block (its anchor), and
      otherwise starts a new line. */
  function AddBlock(lines: seq<Line>, block: TextBlock, toleranceY: real): (r: seq<Line>)
    requires lines != [] && lines[|lines| - 1] != []
    ensures r != [] && r[|r| - 1] != []
  {
    var current := lines[|lines| - 1];
    if Abs(block.y - current[0].y) <= toleranceY then
      lines[..|lines| - 1] + [current + [block]]
    else
      lines + [[block]]
  }

  /** The single sweep over the (y, x)-sorted blocks. */
  function Sweep(sorted: seq<TextBlock>, toleranceY: real): (lines: seq<Line>)
    ensures sorted != [] <==> lines != []
    ensures lines != [] ==> lines[|lines| - 1] != []
  {
    if sorted == [] then []
    else if |sorted| == 1 then [[sorted[0]]]
    else AddBlock(Sweep(sorted[..|sorted| - 1], toleranceY), sorted[|sorted| - 1], toleranceY)
  }

  /** Every line sorted by x, as `line.sort(key=lambda b: b.x)` leaves it. */
  function SortLines(lines: seq<Line>): (r: seq<Line>)
    ensures |r| == |lines|
    ensures forall i :: 0 <= i < |lines| ==> r[i] == SortBy(lines[i], ByX)
  {
    seq(|lines|, i requires 0 <= i < |lines| => SortBy(lines[i], ByX))
  }

  /** What `group_into_lines` returns. */
  function GroupedLines(blocks: seq<TextBlock>, toleranceY: real): seq<Line> {
    SortLines(Sweep(SortBy(blocks, ByPosition), toleranceY))
  }

  /** The line structure `group_into_lines` promises, with the anchor of a line
      read as its smallest-(y, x) block, whose y is the line's smallest y. */
  ghost predicate Banded(lines: seq<Line>, toleranceY: real) {
    && (forall i :: 0 <= i < |lines| ==> lines[i] != [])
    && (forall i, j :: 0 <= i < |lines| && 0 <= j < |lines[i]| ==>
          MinY(lines[i]) <= lines[i][j].y <= MinY(lines[i]) + toleranceY)
    && (forall i :: 0 < i < |lines| ==> MinY(lines[i]) - MinY(lines[i - 1]) > toleranceY)
  }

  /** The same structure for the sweep's own lines, whose anchor is their first block. */
  ghost predicate AnchorBanded(lines: seq<Line>, toleranceY: real) {
    && (forall i :: 0 <= i < |lines| ==> lines[i] != [])
    && (forall i, j :: 0 <= i < |lines| && 0 <= j < |lines[i]| ==>
          lines[i][0].y <= lines[i][j].y <= lines[i][0].y + toleranceY)
    && (forall i :: 0 < i < |lines| ==> lines[i][0].y - lines[i - 1][0].y > toleranceY)
  }

  lemma FlattenAppend(lines: seq<Line>, line: Line)
    ensures Flatten(lines + [line]) == Flatten(lines) + line
  {
    assert (lines + [line])[..|lines|] == lines;
  }

  lemma {:induction false} InFlatten(lines: seq<Line>, i: nat, j: nat)
    requires i < |lines| && j < |lines[i]|
    ensures lines[i][j] in Flatten(lines)
  {
    if i < |lines| - 1 {
      InFlatten(lines[..|lines| - 1], i, j);
    }
  }

  /** A sweep step appends the block to the flattened lines. */
  lemma AddBlockFlatten(lines: seq<Line>, block: TextBlock, toleranceY: real)
    requires lines != [] && lines[|lines| - 1] != []
    ensures Flatten(AddBlock(lines, block, toleranceY)) == Flatten(lines) + [block]
  {
    if Abs(block.y - lines[|lines| - 1][0].y) <= toleranceY {
      JoinFlatten(lines, block, toleranceY);
    } else {
      assert AddBlock(lines, block, toleranceY) == lines + [[block]];
      FlattenAppend(lines, [block]);
    }
  }

  lemma JoinFlatten(lines: seq<Line>, block: TextBlock, toleranceY: real)
    requires lines != [] && lines[|lines| - 1] != []
    requires Abs(block.y - lines[|lines| - 1][0].y) <= toleranceY
    ensures Flatten(AddBlock(lines, block, toleranceY)) == Flatten(lines) + [block]
  {
    var rest, current := lines[..|lines| - 1], lines[|lines| - 1];
    calc {
      Flatten(AddBlock(lines, block, toleranceY));
      Flatten(rest + [current + [block]]);
      { FlattenAppend(rest, current + [block]); }
      Flatten(rest) + (current + [block]);
      (Flatten(rest) + current) + [block];
      Flatten(lines) + [block];
    }
  }

  /** A sweep step keeps the bands, given that blocks arrive in ascending y. */
  lemma AddBlockBanded(lines: seq<Line>, block: TextBlock, toleranceY: real)
    requires lines != [] && AnchorBanded(lines, toleranceY) && toleranceY >= 0.0
    requires lines[|lines| - 1][0].y <= block.y
    ensures AnchorBanded(AddBlock(lines, block, toleranceY), toleranceY)
  {
    var rest, current := lines[..|lines| - 1], lines[|lines| - 1];
    var r := AddBlock(lines, block, toleranceY);
    if Abs(block.y - current[0].y) <= toleranceY {
      assert r == rest + [current + [block]];
      assert forall i :: 0 <= i < |rest| ==> r[i] == lines[i];
    } else {
      assert r == lines + [[block]];
    }
  }

  /** The sweep keeps every block, in order. */
  lemma {:induction false} SweepFlatten(sorted: seq<TextBlock>, toleranceY: real)
    ensures Flatten(Sweep(sorted, toleranceY)) == sorted
  {
    if |sorted| == 1 {
      assert Sweep(sorted, toleranceY) == [] + [[sorted[0]]];
      FlattenAppend([], [sorted[0]]);
    } else if |sorted| > 1 {
      var init, block := sorted[..|sorted| - 1], sorted[|sorted| - 1];
      SweepFlatten(init, toleranceY);
      assert sorted == init + [block];
      SweepFlattenStep(init, block, toleranceY);
    }
  }

  lemma SweepFlattenStep(init: seq<TextBlock>, block: TextBlock, toleranceY: real)
    requires init != [] && Flatten(Sweep(init, toleranceY)) == init
    ensures Flatten(Sweep(init + [block], toleranceY)) == init + [block]
  {
    var sorted := init + [block];
    assert sorted[..|sorted| - 1] == init;
    var lines := Sweep(init, toleranceY);
    assert Sweep(sorted, toleranceY) == AddBlock(lines, block, toleranceY);
    AddBlockFlatten(lines, block, toleranceY);
  }

  /** On (y, x)-sorted blocks, each line of the sweep lies in the band
      [anchor.y, anchor.y + toleranceY] of its first block, and the anchors of
      consecutive lines are more than `toleranceY` apart. */
  lemma {:induction false} SweepBands(sorted: seq<TextBlock>, toleranceY: real)
    requires SortedBy(sorted, ByPosition) && toleranceY >= 0.0
    ensures AnchorBanded(Sweep(sorted, toleranceY), toleranceY)
  {
    if |sorted| > 1 {
      var init := sorted[..|sorted| - 1];
      var block := sorted[|sorted| - 1];
      assert SortedBy(init, ByPosition);
      SweepBands(init, toleranceY);
      SweepFlatten(init, toleranceY);
      var lines := Sweep(init, toleranceY);
      InFlatten(lines, |lines| - 1, 0);
      var k :| 0 <= k < |init| && init[k] == lines[|lines| - 1][0];
      assert ByPosition(sorted[k], block);
      AddBlockBanded(lines, block, toleranceY);
    }
  }

  lemma {:induction false} FlattenSortLines(lines: seq<Line>)
    ensures multiset(Flatten(SortLines(lines))) == multiset(Flatten(lines))
  {
    if lines != [] {
      var init, last := lines[..|lines| - 1], lines[|lines| - 1];
      FlattenSortLines(init);
      SortLinesAppend(init, last);
      FlattenAppend(SortLines(init), SortBy(last, ByX));
      SplitLast(lines);
      FlattenAppend(init, last);
      MultisetAppend(Flatten(SortLines(init)), SortBy(last, ByX));
      MultisetAppend(Flatten(init), last);
    }
  }

  lemma SortLinesAppend(init: seq<Line>, last: Line)
    ensures SortLines(init + [last]) == SortLines(init) + [SortBy(last, ByX)]
  {
  }

  lemma MultisetAppend(a: seq<TextBlock>, b: seq<TextBlock>)
    ensures multiset(a + b) == multiset(a) + multiset(b)
  {
  }

  /** Sorting each line by x turns the sweep's anchor bands into the bands around
      each line's smallest y. */
  lemma SortedLinesBanded(swept: seq<Line>, toleranceY: real)
    requires AnchorBanded(swept, toleranceY)
    ensures Banded(SortLines(swept), toleranceY)
  {
    var lines: seq<Line> := SortLines(swept);
    forall i | 0 <= i < |lines| ensures multiset(lines[i]) == multiset(swept[i]) {
      assert lines[i] == SortBy(swept[i], ByX);
    }
    PermutedLinesBanded(swept, lines, toleranceY);
  }

  /** Reordering the blocks inside each line keeps the bands, read around each
      line's smallest y. */
  lemma PermutedLinesBanded(swept: seq<Line>, lines: seq<Line>, toleranceY: real)
    requires AnchorBanded(swept, toleranceY) && |lines| == |swept|
    requires forall i :: 0 <= i < |lines| ==> multiset(lines[i]) == multiset(swept[i])
    ensures Banded(lines, toleranceY)
  {
    forall i | 0 <= i < |lines|
      ensures lines[i] != [] && MinY(lines[i]) == swept[i][0].y
    {
      MinYOfPermutation(swept[i], lines[i]);
      assert MinY(swept[i]) == swept[i][0].y;
    }
    forall i: int, j: int | 0 <= i < |lines| && 0 <= j < |lines[i]|
      ensures swept[i][0].y <= lines[i][j].y <= swept[i][0].y + toleranceY
    {
      assert lines[i][j] in multiset(swept[i]);
    }
  }

  /** `group_into_lines`: returns [] for no blocks; otherwise every line is
      non-empty and x-sorted, the lines hold each input block exactly once, every
      block of a line lies within `toleranceY` above its anchor's y, and the anchors
      of consecutive lines ascend by more than `toleranceY`. */
  lemma GroupedLinesProperties(blocks: seq<TextBlock>, toleranceY: real)
    requires toleranceY >= 0.0
    ensures var lines := GroupedLines(blocks, toleranceY);
            && (blocks == [] <==> lines == [])
            && (forall i :: 0 <= i < |lines| ==> SortedBy(lines[i], ByX))
            && multiset(Flatten(lines)) == multiset(blocks)
            && Banded(lines, toleranceY)
  {
    var sorted := SortBy(blocks, ByPosition);
    var swept := Sweep(sorted, toleranceY);
    SweepFlatten(sorted, toleranceY);
    SweepBands(sorted, toleranceY);
    FlattenSortLines(swept);
    SortedLinesBanded(swept, toleranceY);
  }

  lemma {:induction false} SweepLinesNonEmpty(sorted: seq<TextBlock>, toleranceY: real)
    ensures forall i :: 0 <= i < |Sweep(sorted, toleranceY)| ==> Sweep(sorted, toleranceY)[i] != []
  {
    if |sorted| > 1 {
      SweepLinesNonEmpty(sorted[..|sorted| - 1], toleranceY);
    }
  }

  /** Whatever the tolerance, no line `group_into_lines` returns is empty. */
  lemma GroupedLinesNonEmpty(blocks: seq<TextBlock>, toleranceY: real)
    ensures forall i :: 0 <= i < |GroupedLines(blocks, toleranceY)| ==> GroupedLines(blocks, toleranceY)[i] != []
  {
    SweepLinesNonEmpty(SortBy(blocks, ByPosition), toleranceY);
  }

  /** One iteration of the sweep loop of `group_into_lines`. */
  lemma SweepStep(sorted: seq<TextBlock>, k: nat, lines: seq<Line>, current: Line, toleranceY: real)
    requires 1 <= k < |sorted| && current != []
    requires lines + [current] == Sweep(sorted[..k], toleranceY)
    ensures Sweep(sorted[..k + 1], toleranceY)
            == if Abs(sorted[k].y - current[0].y) <= toleranceY then lines + [current + [sorted[k]]]
               else (lines + [current]) + [[sorted[k]]]
  {
    assert sorted[..k + 1][..k] == sorted[..k];
    assert (lines + [current])[..|lines|] == lines;
  }

  /** The y-band sweep of `group_into_lines` over the position-sorted blocks. */
  method SweepLines(sorted: seq<TextBlock>, toleranceY: real) returns (lines: seq<Line>)
    requires sorted != []
    ensures lines == Sweep(sorted, toleranceY)
  {
    lines := [];
    var current := [sorted[0]];
    for k := 1 to |sorted|
      invariant current != []
      invariant lines + [current] == Sweep(sorted[..k], toleranceY)
    {
      var block := sorted[k];
      SweepStep(sorted, k, lines, current, toleranceY);
      if Abs(block.y - current[0].y) <= toleranceY {
        current := current + [block];
      } else {
        lines := lines + [current];
        current := [block];
      }
    }
    assert sorted[..|sorted|] == sorted;
    lines := lines + [current];
  }

  /** `line.sort(key=lambda b: b.x)` for every line. */
  method SortEachLine(swept: seq<Line>) returns (lines: seq<Line>)
    ensures lines == SortLines(swept)
  {
    lines := swept;
    for i := 0 to |lines|
      invariant |lines| == |swept|
      invariant forall j :: 0 <= j < i ==> lines[j] == SortBy(swept[j], ByX)
      invariant forall j :: i <= j < |lines| ==> lines[j] == swept[j]
    {
      lines := lines[i := SortBy(lines[i], ByX)];
    }
  }

  /** `LayoutAnalyzer.group_into_lines`. */
  method GroupIntoLines(blocks: seq<TextBlock>, toleranceY: real) returns (lines: seq<Line>)
    ensures lines == GroupedLines(blocks, toleranceY)
    ensures blocks == [] ==> lines == []
    ensures forall i :: 0 <= i < |lines| ==> SortedBy(lines[i], ByX)
    ensures multiset(Flatten(lines)) == multiset(blocks)
    ensures toleranceY >= 0.0 ==> Banded(lines, toleranceY)
  {
    if blocks == [] {
      return [];
    }
    var sorted := SortBy(blocks, ByPosition);
    var swept := SweepLines(sorted, toleranceY);
    lines := SortEachLine(swept);
    GroupedLinesOfSweep(blocks, toleranceY, swept);
  }

  /** The facts `GroupIntoLines` states, from the sweep it computed. */
  lemma GroupedLinesOfSweep(blocks: seq<TextBlock>, toleranceY: real, swept: seq<Line>)
    requires blocks != [] && swept == Sweep(SortBy(blocks, ByPosition), toleranceY)
    ensures SortLines(swept) == GroupedLines(blocks, toleranceY)
    ensures forall i :: 0 <= i < |SortLines(swept)| ==> SortedBy(SortLines(swept)[i], ByX)
    ensures multiset(Flatten(SortLines(swept))) == multiset(blocks)
    ensures toleranceY >= 0.0 ==> Banded(SortLines(swept), toleranceY)
  {
    var sorted := SortBy(blocks, ByPosition);
    FlattenSortLines(swept);
    SweepFlatten(sorted, toleranceY);
    if toleranceY >= 0.0 {
      GroupedLinesProperties(blocks, toleranceY);
    }
  }

  // ---------------------------------------------------------------------------
  // merge_line_blocks

  /** Python's `''.join(texts)`. */
  function Concat(texts: seq<string>): string {
    if texts == [] then [] else Concat(texts[..|texts| - 1]) + texts[|texts| - 1]
  }

  /** The separator put before `block`: one space when its gap from the previous
      block's right edge is strictly greater than 2. */
  function Separator(prev: TextBlock, block: TextBlock): string {
    if block.x - prev.Right() > 2.0 then " " else ""
  }

  /** The merged text of a line. */
  function MergedText(line: Line): string {
    if line == [] then []
    else if |line| == 1 then line[0].text
    else
      var init := line[..|line| - 1];
      MergedText(init) + Separator(init[|init| - 1], line[|line| - 1]) + line[|line| - 1].text
  }

  /** `max(b.height for b in line)`. */
  function MaxHeight(line: Line): (h: real)
    requires line != []
    ensures forall j :: 0 <= j < |line| ==> line[j].height <= h
    ensures exists j :: 0 <= j < |line| && line[j].height == h
  {
    if |line| == 1 then line[0].height
    else
      var init := line[..|line| - 1];
      var h := MaxHeight(init);
      assert forall j :: 0 <= j < |init| ==> init[j] == line[j];
      if line[|line| - 1].height > h then line[|line| - 1].height else h
  }

  /** What `merge_line_blocks` returns for a line. */
  function Merged(line: Line): Option<TextBlock> {
    if line == [] then None
    else if |line| == 1 then Some(line[0])
    else
      var first, last := line[0], line[|line| - 1];
      Some(TextBlock(MergedText(line), first.x, first.y, last.Right() - first.x, MaxHeight(line),
                     first.fontName, first.fontSize, first.fontFlags, first.color, first.pageNum))
  }

  /** One iteration of the text-collecting loop of `merge_line_blocks`. */
  lemma MergeStep(line: Line, k: nat, before: seq<string>, texts: seq<string>)
    requires k < |line|
    requires k == 0 ==> before == [] && texts == [line[0].text]
    requires k > 0 ==> && Concat(before) == MergedText(line[..k])
                       && if line[k].x - line[k - 1].Right() > 2.0 then texts == before + [" "] + [line[k].text]
                          else texts == before + [line[k].text]
    ensures Concat(texts) == MergedText(line[..k + 1])
  {
    var next := line[..k + 1];
    if k == 0 {
      assert Concat(texts) == Concat([]) + line[0].text;
      assert MergedText(next) == line[0].text;
    } else {
      assert next[..k] == line[..k] && next[k - 1] == line[k - 1] && next[k] == line[k];
      var sep := Separator(line[k - 1], line[k]);
      assert MergedText(next) == MergedText(line[..k]) + sep + line[k].text;
      if line[k].x - line[k - 1].Right() > 2.0 {
        ConcatAppend(before, " ");
        ConcatAppend(before + [" "], line[k].text);
        assert Concat(texts) == Concat(before) + sep + line[k].text;
      } else {
        ConcatAppend(before, line[k].text);
        assert Concat(texts) == Concat(before) + sep + line[k].text;
      }
    }
  }

  lemma ConcatAppend(texts: seq<string>, t: string)
    ensures Concat(texts + [t]) == Concat(texts) + t
  {
    assert (texts + [t])[..|texts|] == texts;
  }

  /** `LayoutAnalyzer.merge_line_blocks`. */
  method MergeLineBlocks(line: Line) returns (merged: Option<TextBlock>)
    ensures merged == Merged(line)
  {
    if line == [] {
      return None;
    }
    if |line| == 1 {
      return Some(line[0]);
    }
    var texts: seq<string> := [];
    var prev: Option<TextBlock> := None;
    for k := 0 to |line|
      invariant k == 0 ==> texts == [] && prev == None
      invariant k > 0 ==> Concat(texts) == MergedText(line[..k]) && prev == Some(line[k - 1])
    {
      var block := line[k];
      ghost var before := texts;
      if prev.Some? {
        var gap := block.x - prev.value.Right();
        if gap > 2.0 {
          texts := texts + [" "];
        }
      }
      texts := texts + [block.text];
      prev := Some(block);
      MergeStep(line, k, before, texts);
    }
    assert line[..|line|] == line;
    var mergedText := Concat(texts);
    var first, last := line[0], line[|line| - 1];
    merged := Some(TextBlock(mergedText, first.x, first.y, last.Right() - first.x, MaxHeight(line),
                             first.fontName, first.fontSize, first.fontFlags, first.color, first.pageNum));
  }

  /** What a merge yields: nothing for an empty line, the block itself for a
      single block, and otherwise a block at the first block's position, reaching
      the last block's right edge, as tall as the tallest block, carrying the
      merged text and the first block's font, flags, colour and page. */
  lemma MergedProperties(line: Line)
    ensures line == [] <==> Merged(line) == None
    ensures |line| == 1 ==> Merged(line) == Some(line[0])
    ensures |line| >= 2 ==>
      var m, first, last := Merged(line).value, line[0], line[|line| - 1];
      && m.text == MergedText(line)
      && m.x == first.x && m.y == first.y && m.Right() == last.Right()
      && (forall j :: 0 <= j < |line| ==> line[j].height <= m.height)
      && (exists j :: 0 <= j < |line| && line[j].height == m.height)
      && m.fontName == first.fontName && m.fontSize == first.fontSize
      && m.fontFlags == first.fontFlags && m.color == first.color && m.pageNum == first.pageNum
  {
  }

  /** Number of characters of all the line's texts. */
  function TextLength(line: Line): nat {
    if line == [] then 0 else TextLength(line[..|line| - 1]) + |line[|line| - 1].text|
  }

  /** Number of blocks after the first whose gap from their predecessor exceeds 2. */
  function WideGaps(line: Line): nat {
    if |line| <= 1 then 0
    else WideGaps(line[..|line| - 1]) + (if line[|line| - 1].x - line[|line| - 2].Right() > 2.0 then 1 else 0)
  }

  /** The merge adds nothing but the inserted spaces: exactly one character per wide gap. */
  lemma {:induction false} MergedTextLength(line: Line)
    ensures |MergedText(line)| == TextLength(line) + WideGaps(line)
  {
    if |line| > 1 {
      var init := line[..|line| - 1];
      MergedTextLength(init);
      if |init| == 1 {
        assert TextLength(init) == |line[0].text| by {
          assert init[..0] == [];
        }
      }
    }
  }

  /** A line with no gap wider than 2 merges to the plain concatenation of its texts. */
  lemma {:induction false} MergedTextWithoutGaps(line: Line)
    requires forall k :: 0 < k < |line| ==> line[k].x - line[k - 1].Right() <= 2.0
    ensures MergedText(line) == Concat(Texts(line))
  {
    if |line| == 1 {
      assert Texts(line) == [line[0].text];
      assert Concat([line[0].text]) == Concat([]) + line[0].text;
    } else if |line| > 1 {
      var init := line[..|line| - 1];
      MergedTextWithoutGaps(init);
      assert Texts(line)[..|line| - 1] == Texts(init);
    }
  }

  function Texts(line: Line): (r: seq<string>)
    ensures |r| == |line| && forall k :: 0 <= k < |line| ==> r[k] == line[k].text
  {
    seq(|line|, k requires 0 <= k < |line| => line[k].text)
  }

  // ---------------------------------------------------------------------------
  // classify_heading and the page's average font size

  /** `LayoutAnalyzer.classify_heading`: 0 for body text, 1 to 3 for headings. */
  function ClassifyHeading(block: TextBlock, avgFontSize: real): (level: nat)
    ensures level <= 3
  {
    if block.fontSize >= avgFontSize * 1.5 then 1
    else if block.fontSize >= avgFontSize * 1.3 then 2
    else if block.fontSize >= avgFontSize * 1.15 then 3
    else 0
  }

  /** How prominent a level is: body text 0, heading 3 lowest, heading 1 highest. */
  function HeadingRank(level: nat): nat {
    if level == 0 || level > 3 then 0 else 4 - level
  }

  /** For a positive average the levels are the bands of font size between the
      inclusive thresholds 1.15, 1.3 and 1.5 times the average. */
  lemma HeadingBands(block: TextBlock, avgFontSize: real)
    requires avgFontSize > 0.0
    ensures ClassifyHeading(block, avgFontSize) == 0 <==> block.fontSize < avgFontSize * 1.15
    ensures ClassifyHeading(block, avgFontSize) == 3
            <==> avgFontSize * 1.15 <= block.fontSize < avgFontSize * 1.3
    ensures ClassifyHeading(block, avgFontSize) == 2
            <==> avgFontSize * 1.3 <= block.fontSize < avgFontSize * 1.5
    ensures ClassifyHeading(block, avgFontSize) == 1 <==> avgFontSize * 1.5 <= block.fontSize
  {
  }

  /** A larger font never gives a less prominent level (the level numbers
      themselves run 0, 3, 2, 1 as the font grows). */
  lemma HeadingMonotone(a: TextBlock, b: TextBlock, avgFontSize: real)
    requires avgFontSize > 0.0 && a.fontSize <= b.fontSize
    ensures HeadingRank(ClassifyHeading(a, avgFontSize)) <= HeadingRank(ClassifyHeading(b, avgFontSize))
  {
  }

  function SumFontSizes(blocks: seq<TextBlock>): real {
    if blocks == [] then 0.0 else SumFontSizes(blocks[..|blocks| - 1]) + blocks[|blocks| - 1].fontSize
  }

  /** `sum(b.font_size for b in text_blocks) / len(text_blocks) if text_blocks else 12`. */
  function AverageFontSize(blocks: seq<TextBlock>): real {
    if blocks != [] then SumFontSizes(blocks) / (|blocks| as real) else 12.0
  }

  lemma {:induction false} SumFontSizesBounds(blocks: seq<TextBlock>, lo: real, hi: real)
    requires forall k :: 0 <= k < |blocks| ==> lo <= blocks[k].fontSize <= hi
    ensures (|blocks| as real) * lo <= SumFontSizes(blocks) <= (|blocks| as real) * hi
  {
    if blocks != [] {
      SumFontSizesBounds(blocks[..|blocks| - 1], lo, hi);
    }
  }

  /** The page average lies between the smallest and largest font size on the page. */
  lemma AverageWithinSizes(blocks: seq<TextBlock>, lo: real, hi: real)
    requires blocks != []
    requires forall k :: 0 <= k < |blocks| ==> lo <= blocks[k].fontSize <= hi
    ensures lo <= AverageFontSize(blocks) <= hi
  {
    SumFontSizesBounds(blocks, lo, hi);
    var n := |blocks| as real;
    var avg := SumFontSizes(blocks) / n;
    assert avg * n == SumFontSizes(blocks);
    assert n * lo <= n * avg <= n * hi;
  }

  /** On a page set in one positive font size no block is a heading. */
  lemma UniformPageHasNoHeadings(blocks: seq<TextBlock>, size: real)
    requires blocks != [] && size > 0.0
    requires forall k :: 0 <= k < |blocks| ==> blocks[k].fontSize == size
    ensures forall k :: 0 <= k < |blocks| ==> ClassifyHeading(blocks[k], AverageFontSize(blocks)) == 0
  {
    AverageWithinSizes(blocks, size, size);
  }
}
