/** The page loop of the advanced converter (`AdvancedPDF2DOCXConverter.convert`
    in pdf2docx_advanced.py): per page, tables are detected among the text lines;
    every line is then either attributed to the first table whose vertical range
    holds it (and the table is emitted at the first such line near its start) or
    emitted as a text line; a page break follows every page but the last. The
    document is modelled as the sequence of elements handed to the DOCX
    generator. */
module AdvancedConverter {
  import opened Common
  import opened Pagination
  import opened Spans
  import opened TableDetector

  /** One call on the DOCX generator: `add_text_line`, `add_table` or `add_page_break`. */
  datatype Element = TextRow(line: TextLine) | Table(table: TableStructure) | PageBreak

  /** A table is emitted only at a line whose y is at most this far from its start. */
  const StartTolerance: real := 1.0

  /** `y_start <= y <= y_end`. */
  predicate InRange(t: TableStructure, y: real) {
    t.yStart <= y <= t.yEnd
  }

  /** The index of the first table whose range holds `y`, if any. */
  function FirstContaining(tables: seq<TableStructure>, y: real): (r: Option<nat>)
    ensures r.Some? ==> r.value < |tables| && InRange(tables[r.value], y)
    ensures r.Some? ==> forall k :: 0 <= k < r.value ==> !InRange(tables[k], y)
    ensures r.None? ==> forall k :: 0 <= k < |tables| ==> !InRange(tables[k], y)
  {
    if tables == [] then None
    else if InRange(tables[0], y) then Some(0)
    else
      match FirstContaining(tables[1..], y)
      case None => None
      case Some(k) => Some(k + 1)
  }

  /** The emitted elements and `tables_added`. */
  datatype FlowState = FlowState(out: seq<Element>, added: set<nat>)

  /** One line of the page loop. */
  function LineStep(tables: seq<TableStructure>, st: FlowState, line: TextLine): FlowState {
    match FirstContaining(tables, line.y)
    case Some(idx) =>
      if idx !in st.added && Abs(line.y - tables[idx].yStart) <= StartTolerance then
        FlowState(st.out + [Table(tables[idx])], st.added + {idx})
      else
        st
    case None => FlowState(st.out + [TextRow(line)], st.added)
  }

  /** The state after the page's lines `lines`. */
  function PageFlow(tables: seq<TableStructure>, lines: seq<TextLine>): FlowState {
    if lines == [] then FlowState([], {})
    else LineStep(tables, PageFlow(tables, lines[..|lines| - 1]), lines[|lines| - 1])
  }

  /** Everything one page contributes before its page break. */
  function PageElements(lines: seq<TextLine>): seq<Element> {
    PageFlow(Detected(lines), lines).out
  }

  function PageFlows(pages: seq<seq<TextLine>>): (flows: seq<seq<Element>>)
    ensures |flows| == |pages|
    ensures forall i :: 0 <= i < |pages| ==> flows[i] == PageElements(pages[i])
  {
    seq(|pages|, i requires 0 <= i < |pages| => PageElements(pages[i]))
  }

  // ---------------------------------------------------------------------------
  // The loop of `convert`

  /** The inner loop: the first table range that holds `y`. */
  method FindTable(tables: seq<TableStructure>, y: real) returns (idx: Option<nat>)
    ensures idx == FirstContaining(tables, y)
  {
    idx := None;
    var k := 0;
    while k < |tables|
      invariant 0 <= k <= |tables|
      invariant forall j :: 0 <= j < k ==> !InRange(tables[j], y)
    {
      if tables[k].yStart <= y <= tables[k].yEnd {
        idx := Some(k);
        break;
      }
      k := k + 1;
    }
  }

  /** The line loop of one page, with `tables_added` as a set of indices. */
  method EmitLines(tables: seq<TableStructure>, lines: seq<TextLine>) returns (elements: seq<Element>)
    ensures elements == PageFlow(tables, lines).out
  {
    elements := [];
    var tablesAdded: set<nat> := {};
    for k := 0 to |lines|
      invariant FlowState(elements, tablesAdded) == PageFlow(tables, lines[..k])
    {
      var line := lines[k];
      assert lines[..k + 1][..k] == lines[..k];
      var inTableIdx := FindTable(tables, line.y);
      match inTableIdx {
        case Some(idx) =>
          if idx !in tablesAdded {
            if Abs(line.y - tables[idx].yStart) <= StartTolerance {
              elements := elements + [Table(tables[idx])];
              tablesAdded := tablesAdded + {idx};
            }
          }
        case None =>
          elements := elements + [TextRow(line)];
      }
    }
    assert lines[..|lines|] == lines;
  }

  /** One page: detect its tables, then run the line loop. */
  method EmitPage(lines: seq<TextLine>) returns (elements: seq<Element>)
    ensures elements == PageElements(lines)
  {
    var tables := DetectTables(lines);
    elements := EmitLines(tables, lines);
  }

  /** `convert`: every page's elements, each followed by a page break unless it
      is the last page. */
  method Convert(pages: seq<seq<TextLine>>) returns (flow: seq<Element>)
    ensures flow == Paginated(PageFlows(pages), |pages|, PageBreak)
  {
    ghost var flows := PageFlows(pages);
    assert forall i :: 0 <= i < |pages| ==> FlowAt(flows, pages, i);
    flow := EmitPages(pages, flows);
  }

  /** `flows[i]` is what page `i` contributes. */
  predicate FlowAt(flows: seq<seq<Element>>, pages: seq<seq<TextLine>>, i: nat) {
    i < |flows| == |pages| && flows[i] == PageElements(pages[i])
  }

  /** `flows` lists what every page contributes. */
  predicate FlowsOf(flows: seq<seq<Element>>, pages: seq<seq<TextLine>>) {
    |flows| == |pages| && forall i :: 0 <= i < |pages| ==> FlowAt(flows, pages, i)
  }

  /** The page loop; `flows` names, for the proof, what each page contributes. */
  method EmitPages(pages: seq<seq<TextLine>>, ghost flows: seq<seq<Element>>) returns (flow: seq<Element>)
    requires FlowsOf(flows, pages)
    ensures flow == Paginated(flows, |pages|, PageBreak)
  {
    flow := [];
    for p := 0 to |pages|
      invariant flow == Paginated(flows, p, PageBreak)
    {
      flow := EmitPageAt(pages, flows, p, flow);
    }
  }

  /** The body of the page loop: the page's elements, then a page break unless
      the page is the last. */
  method EmitPageAt(pages: seq<seq<TextLine>>, ghost flows: seq<seq<Element>>, p: nat, flow: seq<Element>)
    returns (flow': seq<Element>)
    requires p < |pages| && FlowsOf(flows, pages)
    ensures flow' == flow + flows[p] + (if p < |pages| - 1 then [PageBreak] else [])
  {
    assert FlowAt(flows, pages, p);
    var elements := EmitPage(pages[p]);
    flow' := flow + elements;
    if p < |pages| - 1 {
      flow' := flow' + [PageBreak];
    }
  }

  // ---------------------------------------------------------------------------
  // Properties

  /** The lines that lie in no table range, in page order. */
  function Outside(tables: seq<TableStructure>, lines: seq<TextLine>): seq<TextLine> {
    if lines == [] then []
    else
      var line := lines[|lines| - 1];
      Outside(tables, lines[..|lines| - 1])
      + (if forall k :: 0 <= k < |tables| ==> !InRange(tables[k], line.y) then [line] else [])
  }

  /** The text lines among the emitted elements, in order. */
  function TextsOf(out: seq<Element>): seq<TextLine> {
    if out == [] then []
    else TextsOf(out[..|out| - 1]) + (if out[|out| - 1].TextRow? then [out[|out| - 1].line] else [])
  }

  lemma {:induction false} TextsOfAppend(a: seq<Element>, b: seq<Element>)
    ensures TextsOf(a + b) == TextsOf(a) + TextsOf(b)
  {
    if b != [] {
      assert (a + b)[..|a + b| - 1] == a + b[..|b| - 1];
      TextsOfAppend(a, b[..|b| - 1]);
    } else {
      assert a + b == a;
    }
  }

  /** The lines emitted as text are exactly the lines outside every table
      range, in page order: a line inside some range is never emitted as text. */
  lemma {:induction false} TextsAreOutside(tables: seq<TableStructure>, lines: seq<TextLine>)
    ensures TextsOf(PageFlow(tables, lines).out) == Outside(tables, lines)
  {
    if lines != [] {
      var init := lines[..|lines| - 1];
      var line := lines[|lines| - 1];
      var st := PageFlow(tables, init);
      TextsAreOutside(tables, init);
      match FirstContaining(tables, line.y)
      case Some(idx) =>
        assert InRange(tables[idx], line.y);
        var st' := PageFlow(tables, lines);
        if st'.out != st.out {
          TextsOfAppend(st.out, [Table(tables[idx])]);
          assert TextsOf([Table(tables[idx])]) == [];
        }
      case None =>
        TextsOfAppend(st.out, [TextRow(line)]);
        assert TextsOf([TextRow(line)]) == [line];
    }
  }

  /** Each line of `Outside` lies in no table range and comes from the page. */
  lemma {:induction false} OutsideLines(tables: seq<TableStructure>, lines: seq<TextLine>)
    ensures forall l :: l in Outside(tables, lines) ==>
              l in lines && forall k :: 0 <= k < |tables| ==> !InRange(tables[k], l.y)
  {
    if lines != [] {
      OutsideLines(tables, lines[..|lines| - 1]);
    }
  }

  /** A line is attributed to table `i` when `i` is the first range holding it. */
  predicate EmitsAt(tables: seq<TableStructure>, line: TextLine, i: nat) {
    FirstContaining(tables, line.y) == Some(i) && Abs(line.y - tables[i].yStart) <= StartTolerance
  }

  /** One line adds index `i` exactly when the line is attributed to table `i`
      and lies near its start; indices once added stay added. */
  lemma AddedStep(tables: seq<TableStructure>, st: FlowState, line: TextLine, i: nat)
    ensures i in LineStep(tables, st, line).added <==> i in st.added || EmitsAt(tables, line, i)
  {
  }

  /** Table `i` is added exactly when some line attributed to it lies within 1.0
      of its start. */
  lemma {:induction false} AddedIffNearStart(tables: seq<TableStructure>, lines: seq<TextLine>, i: nat)
    ensures i in PageFlow(tables, lines).added <==> exists k :: 0 <= k < |lines| && EmitsAt(tables, lines[k], i)
  {
    if lines != [] {
      var init := lines[..|lines| - 1];
      var line := lines[|lines| - 1];
      AddedIffNearStart(tables, init, i);
      AddedStep(tables, PageFlow(tables, init), line, i);
      assert forall k :: 0 <= k < |init| ==> init[k] == lines[k];
      if i in PageFlow(tables, init).added {
        var k :| 0 <= k < |init| && EmitsAt(tables, init[k], i);
        assert EmitsAt(tables, lines[k], i);
      }
    }
  }

  /** Pairwise distinct tables. */
  predicate DistinctTables(tables: seq<TableStructure>) {
    forall a, b :: 0 <= a < b < |tables| ==> tables[a] != tables[b]
  }

  /** With distinct tables, table `i` occurs once in the flow when it has been
      added and not at all otherwise, so no table is emitted twice. */
  lemma {:induction false} EmittedOnce(tables: seq<TableStructure>, lines: seq<TextLine>, i: nat)
    requires DistinctTables(tables) && i < |tables|
    ensures Count(PageFlow(tables, lines).out, Table(tables[i]))
            == if i in PageFlow(tables, lines).added then 1 else 0
  {
    var e := Table(tables[i]);
    if lines == [] {
      assert PageFlow(tables, lines).out == [];
    } else {
      var init := lines[..|lines| - 1];
      var line := lines[|lines| - 1];
      var st := PageFlow(tables, init);
      EmittedOnce(tables, init, i);
      AddedIffNearStart(tables, init, i);
      match FirstContaining(tables, line.y)
      case Some(idx) =>
        if idx !in st.added && Abs(line.y - tables[idx].yStart) <= StartTolerance {
          CountConcat(st.out, [Table(tables[idx])], e);
          var one := [Table(tables[idx])];
          assert one[..0] == [];
          if idx != i {
            if idx < i { assert tables[idx] != tables[i]; } else { assert tables[i] != tables[idx]; }
          }
        }
      case None =>
        CountConcat(st.out, [TextRow(line)], e);
        var one := [TextRow(line)];
        assert one[..0] == [];
    }
  }

  /** The page loop only appends: the flow after a prefix of the lines is a
      prefix of the flow after all of them. */
  lemma {:induction false} FlowPrefix(tables: seq<TableStructure>, lines: seq<TextLine>, m: nat)
    requires m <= |lines|
    ensures var before, out := PageFlow(tables, lines[..m]).out, PageFlow(tables, lines).out;
            |before| <= |out| && out[..|before|] == before
  {
    if m == |lines| {
      assert lines[..m] == lines;
    } else {
      var init := lines[..|lines| - 1];
      assert init[..m] == lines[..m];
      FlowPrefix(tables, init, m);
      var mid := PageFlow(tables, init).out;
      var out := PageFlow(tables, lines).out;
      assert |mid| <= |out| && out[..|mid|] == mid;
    }
  }

  /** Before the first line attributed to table `i` near its start, `i` has
      not been added. */
  lemma NotAddedBefore(tables: seq<TableStructure>, lines: seq<TextLine>, i: nat, k: nat)
    requires k <= |lines|
    requires forall j :: 0 <= j < k ==> !EmitsAt(tables, lines[j], i)
    ensures i !in PageFlow(tables, lines[..k]).added
  {
    var pre := lines[..k];
    assert forall j :: 0 <= j < k ==> pre[j] == lines[j];
    AddedIffNearStart(tables, pre, i);
  }

  /** The line that first meets table `i` near its start appends the table. */
  lemma EmitStep(tables: seq<TableStructure>, lines: seq<TextLine>, i: nat, k: nat)
    requires i < |tables| && k < |lines|
    requires EmitsAt(tables, lines[k], i)
    requires i !in PageFlow(tables, lines[..k]).added
    ensures PageFlow(tables, lines[..k + 1]).out == PageFlow(tables, lines[..k]).out + [Table(tables[i])]
  {
    var pre1 := lines[..k + 1];
    assert pre1[..k] == lines[..k];
    assert pre1[k] == lines[k];
    assert PageFlow(tables, pre1) == LineStep(tables, PageFlow(tables, lines[..k]), lines[k]);
  }

  /** A sequence that starts with `before + [e]` splits there. */
  lemma SplitAfter(out: seq<Element>, before: seq<Element>, e: Element)
    requires |before| + 1 <= |out| && out[..|before| + 1] == before + [e]
    ensures out[..|before|] == before && out[|before|] == e
    ensures out == before + [e] + out[|before| + 1..]
  {
    assert out[..|before|] == (before + [e])[..|before|];
    assert out == out[..|before| + 1] + out[|before| + 1..];
  }

  /** An element met once in `before + [e] + rest`, and not in `before`, is
      not in `rest`. */
  lemma CountAfter(before: seq<Element>, e: Element, rest: seq<Element>)
    requires Count(before + [e] + rest, e) == 1 && Count(before, e) == 0
    ensures Count(rest, e) == 0
  {
    CountConcat(before + [e], rest, e);
    CountConcat(before, [e], e);
    assert [e][..0] == [];
  }

  /** The table is emitted right where the first line attributed to it within
      1.0 of its start is met: the flow is the flow of the lines before that
      line, then the table, then elements that never repeat it. */
  lemma TablePlacement(tables: seq<TableStructure>, lines: seq<TextLine>, i: nat, k: nat)
    requires DistinctTables(tables) && i < |tables| && k < |lines|
    requires EmitsAt(tables, lines[k], i)
    requires forall j :: 0 <= j < k ==> !EmitsAt(tables, lines[j], i)
    ensures var before, out := PageFlow(tables, lines[..k]).out, PageFlow(tables, lines).out;
            && |before| < |out| && out[..|before|] == before
            && out[|before|] == Table(tables[i])
            && Count(before, Table(tables[i])) == 0
            && Count(out[|before| + 1..], Table(tables[i])) == 0
            && TextsOf(before) == Outside(tables, lines[..k])
  {
    var e := Table(tables[i]);
    var before := PageFlow(tables, lines[..k]).out;
    var out := PageFlow(tables, lines).out;
    NotAddedBefore(tables, lines, i, k);
    EmittedOnce(tables, lines[..k], i);
    EmitStep(tables, lines, i, k);
    FlowPrefix(tables, lines, k + 1);
    AddedIffNearStart(tables, lines, i);
    EmittedOnce(tables, lines, i);
    SplitAfter(out, before, e);
    CountAfter(before, e, out[|before| + 1..]);
    TextsAreOutside(tables, lines[..k]);
  }

  /** A page's own flow never holds a page break. */
  lemma {:induction false} NoBreakInPage(tables: seq<TableStructure>, lines: seq<TextLine>)
    ensures PageBreak !in PageFlow(tables, lines).out
  {
    if lines != [] {
      NoBreakInPage(tables, lines[..|lines| - 1]);
    }
  }

  /** On each page: the text lines are exactly the lines outside every detected
      table, in order; every detected table appears once if some line attributed
      to it lies within 1.0 of its start, and not at all otherwise. */
  lemma PageLayout(lines: seq<TextLine>)
    ensures TextsOf(PageElements(lines)) == Outside(Detected(lines), lines)
    ensures forall i :: 0 <= i < |Detected(lines)| ==>
              Count(PageElements(lines), Table(Detected(lines)[i]))
              == if exists k :: 0 <= k < |lines| && EmitsAt(Detected(lines), lines[k], i) then 1 else 0
  {
    var tables := Detected(lines);
    TextsAreOutside(tables, lines);
    DetectedDistinct(lines);
    forall i | 0 <= i < |tables|
      ensures Count(PageElements(lines), Table(tables[i]))
              == if exists k :: 0 <= k < |lines| && EmitsAt(tables, lines[k], i) then 1 else 0
    {
      EmittedOnce(tables, lines, i);
      AddedIffNearStart(tables, lines, i);
    }
  }

  /** The tables detected on a page are pairwise distinct: their starts ascend. */
  lemma DetectedDistinct(lines: seq<TextLine>)
    ensures DistinctTables(Detected(lines))
  {
    var tables := Detected(lines);
    DetectedTables(lines);
    forall a, b | 0 <= a < b < |tables|
      ensures tables[a] != tables[b]
    {
      assert tables[a].yStart < tables[b].yStart;
    }
  }

  /** On each page, a detected table sits in the flow right after the elements
      of the lines before the first line attributed to it within 1.0 of its
      start (the text of those lines that lie outside every table), and it does
      not occur anywhere else. */
  lemma PageTablePlacement(lines: seq<TextLine>, i: nat, k: nat)
    requires i < |Detected(lines)| && k < |lines|
    requires EmitsAt(Detected(lines), lines[k], i)
    requires forall j :: 0 <= j < k ==> !EmitsAt(Detected(lines), lines[j], i)
    ensures var tables := Detected(lines);
            var before, out := PageFlow(tables, lines[..k]).out, PageElements(lines);
            && |before| < |out| && out[..|before|] == before
            && out[|before|] == Table(tables[i])
            && Count(before, Table(tables[i])) == 0
            && Count(out[|before| + 1..], Table(tables[i])) == 0
            && TextsOf(before) == Outside(tables, lines[..k])
  {
    DetectedDistinct(lines);
    TablePlacement(Detected(lines), lines, i, k);
  }

  /** A document of n >= 1 pages holds exactly n - 1 page breaks, one between
      neighbouring pages, and ends with the last page's own elements. */
  lemma DocumentPageBreaks(pages: seq<seq<TextLine>>)
    ensures Paginated(PageFlows(pages), |pages|, PageBreak) == Separated(PageFlows(pages), PageBreak)
    ensures pages != [] ==> Count(Paginated(PageFlows(pages), |pages|, PageBreak), PageBreak) == |pages| - 1
  {
    var flows := PageFlows(pages);
    PaginatedIsSeparated(flows, |pages|, PageBreak);
    forall i | 0 <= i < |flows|
      ensures PageBreak !in flows[i]
    {
      NoBreakInPage(Detected(pages[i]), pages[i]);
    }
    SeparatedBreaks(flows, PageBreak);
  }
}
