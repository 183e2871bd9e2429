/** Table extraction (`TableDetector._is_table_header` and `_extract_table` in
    pdf2docx_advanced.py): a y-key whose lines hold at least three bold spans
    with a column gap starts a table; the x-sorted header spans give the column
    headers and anchors; the following y-keys are clustered into rows, and rows
    are accepted, dealt into cells and folded until the first row that does
    not align with the columns. */
module TableExtraction {
  import opened Common
  import opened Strings
  import opened Sorting
  import opened Spans
  import opened TableRows

  /** The y-keys of a page and their lines (the `y_groups` dictionary). */
  type YGroups = map<real, seq<TextLine>>

  /** `y_groups[y]` on the `defaultdict`: no lines for a key it does not hold. */
  function Lookup(yGroups: YGroups, y: real): seq<TextLine> {
    if y in yGroups then yGroups[y] else []
  }

  /** Columns need a horizontal gap strictly greater than this. */
  const ColumnGap: real := 5.0
  /** A header needs at least this many spans. */
  const MinHeaderSpans: nat := 3
  /** Keys within this distance of a row's first key belong to that row. */
  const RowYTolerance: real := 2.0
  /** Scanning stops after the first key more than this far below the header. */
  const ScanLimit: real := 200.0

  // ---------------------------------------------------------------------------
  // _is_table_header

  /** The gap between x-sorted neighbours: `next.x - (prev.x + prev.width)`. */
  function Gap(prev: TextSpan, next: TextSpan): real {
    next.x - prev.Right()
  }

  predicate AllBold(spans: seq<TextSpan>) {
    spans == [] || (AllBold(spans[..|spans| - 1]) && spans[|spans| - 1].isBold)
  }

  predicate HasWideGap(sorted: seq<TextSpan>) {
    |sorted| >= 2
    && (HasWideGap(sorted[..|sorted| - 1]) || Gap(sorted[|sorted| - 2], sorted[|sorted| - 1]) > ColumnGap)
  }

  lemma {:induction false} AllBoldSpec(spans: seq<TextSpan>)
    ensures AllBold(spans) <==> forall k :: 0 <= k < |spans| ==> spans[k].isBold
  {
    if spans != [] {
      var init := spans[..|spans| - 1];
      AllBoldSpec(init);
      assert forall k :: 0 <= k < |init| ==> init[k] == spans[k];
    }
  }

  lemma {:induction false} HasWideGapSpec(sorted: seq<TextSpan>)
    ensures HasWideGap(sorted) <==> exists k :: 0 <= k < |sorted| - 1 && Gap(sorted[k], sorted[k + 1]) > ColumnGap
  {
    if |sorted| >= 2 {
      var init := sorted[..|sorted| - 1];
      HasWideGapSpec(init);
      if HasWideGap(init) {
        var k :| 0 <= k < |init| - 1 && Gap(init[k], init[k + 1]) > ColumnGap;
        assert sorted[k] == init[k] && sorted[k + 1] == init[k + 1];
      }
      if exists k :: 0 <= k < |sorted| - 1 && Gap(sorted[k], sorted[k + 1]) > ColumnGap {
        var k :| 0 <= k < |sorted| - 1 && Gap(sorted[k], sorted[k + 1]) > ColumnGap;
        if k < |init| - 1 {
          assert init[k] == sorted[k] && init[k + 1] == sorted[k + 1];
        }
      }
    }
  }

  /** `_is_table_header`. */
  predicate IsTableHeader(lines: seq<TextLine>) {
    var spans := AllSpans(lines);
    if lines == [] || spans == [] then false
    else
      var allBold := AllBold(spans);
      if |spans| < MinHeaderSpans then false
      else allBold && HasWideGap(SortBy(spans, BySpanX))
  }

  /** The header criteria read directly: at least three spans, every span bold,
      and some gap between x-sorted neighbouring spans strictly greater than 5. */
  ghost predicate HeaderShape(spans: seq<TextSpan>) {
    && |spans| >= MinHeaderSpans
    && (forall k :: 0 <= k < |spans| ==> spans[k].isBold)
    && exists k :: 0 <= k < |spans| - 1 && Gap(SortBy(spans, BySpanX)[k], SortBy(spans, BySpanX)[k + 1]) > ColumnGap
  }

  /** The lines at one key form a header exactly when their spans have the
      header shape. */
  lemma HeaderCriteria(lines: seq<TextLine>)
    ensures IsTableHeader(lines) <==> HeaderShape(AllSpans(lines))
  {
    var spans := AllSpans(lines);
    var sorted := SortBy(spans, BySpanX);
    assert lines == [] ==> spans == [];
    assert IsTableHeader(lines) <==> |spans| >= MinHeaderSpans && AllBold(spans) && HasWideGap(sorted);
    AllBoldSpec(spans);
    HasWideGapSpec(sorted);
  }

  // ---------------------------------------------------------------------------
  // Clustering the keys after the header into rows

  /** A row being formed: its first key and the lines gathered so far. */
  datatype RowGroup = RowGroup(y: real, lines: seq<TextLine>)

  /** The scan state: the closed rows, the row being formed, and whether the
      scan has passed the limit. */
  datatype Grouping = Grouping(groups: seq<RowGroup>, open: Option<RowGroup>, stopped: bool)

  /** One key of the clustering loop. */
  function GroupStep(g: Grouping, y: real, yGroups: YGroups, headerY: real): Grouping {
    if g.stopped then g
    else
      var lines := Lookup(yGroups, y);
      if lines == [] then g
      else
        var next :=
          if g.open.None? then Grouping(g.groups, Some(RowGroup(y, lines)), false)
          else if Abs(y - g.open.value.y) <= RowYTolerance then
            Grouping(g.groups, Some(RowGroup(g.open.value.y, g.open.value.lines + lines)), false)
          else Grouping(g.groups + [g.open.value], Some(RowGroup(y, lines)), false);
        next.(stopped := y - headerY > ScanLimit)
  }

  /** The clustering state after the keys `ys`. */
  function Grouped(ys: seq<real>, yGroups: YGroups, headerY: real): Grouping {
    if ys == [] then Grouping([], None, false)
    else GroupStep(Grouped(ys[..|ys| - 1], yGroups, headerY), ys[|ys| - 1], yGroups, headerY)
  }

  /** The closed rows, with the row being formed closed too. */
  function Closed(g: Grouping): seq<RowGroup> {
    if g.open.Some? then g.groups + [g.open.value] else g.groups
  }

  /** The row groups `_extract_table` builds from the keys after the header. */
  function RowGroups(ys: seq<real>, yGroups: YGroups, headerY: real): seq<RowGroup> {
    Closed(Grouped(ys, yGroups, headerY))
  }

  // ---------------------------------------------------------------------------
  // Accepting rows

  /** The row scan state: the rows so far, `table_y_end`, and whether a row
      that does not align has ended the table. */
  datatype RowScan = RowScan(rows: seq<seq<string>>, yEnd: real, stopped: bool)

  /** One row group of the row loop. */
  function RowStep(st: RowScan, group: RowGroup, anchors: seq<real>): (r: RowScan)
    requires forall k :: 0 <= k < |st.rows| ==> |st.rows[k]| == |anchors|
    ensures forall k :: 0 <= k < |r.rows| ==> |r.rows[k]| == |anchors|
  {
    if st.stopped then st
    else
      var spans := AllSpans(group.lines);
      if !IsTableRow(spans, anchors) then st.(stopped := true)
      else
        var row := RowCells(spans, anchors);
        AddRowWidth(st.rows, row, |anchors|);
        RowScan(AddRow(st.rows, row, |anchors|), group.y, false)
  }

  /** The row scan after the groups `groups`. */
  function Scanned(groups: seq<RowGroup>, anchors: seq<real>, headerY: real): (st: RowScan)
    ensures forall k :: 0 <= k < |st.rows| ==> |st.rows[k]| == |anchors|
  {
    if groups == [] then RowScan([], headerY, false)
    else RowStep(Scanned(groups[..|groups| - 1], anchors, headerY), groups[|groups| - 1], anchors)
  }

  // ---------------------------------------------------------------------------
  // _extract_table

  /** The header spans in ascending x, as `all_header_spans.sort(key=x)` leaves them. */
  function HeaderSpans(yGroups: YGroups, headerY: real): seq<TextSpan> {
    SortBy(AllSpans(Lookup(yGroups, headerY)), BySpanX)
  }

  function Headers(spans: seq<TextSpan>): (headers: seq<string>)
    ensures |headers| == |spans|
  {
    seq(|spans|, i requires 0 <= i < |spans| => Strip(spans[i].text))
  }

  function Anchors(spans: seq<TextSpan>): (anchors: seq<real>)
    ensures |anchors| == |spans|
  {
    seq(|spans|, i requires 0 <= i < |spans| => spans[i].x)
  }

  /** What `_extract_table` returns for the keys from the header key on. */
  function ExtractedTable(keys: seq<real>, yGroups: YGroups): Option<TableStructure> {
    if keys == [] then None
    else
      var headerY := keys[0];
      var spans := HeaderSpans(yGroups, headerY);
      var st := Scanned(RowGroups(keys[1..], yGroups, headerY), Anchors(spans), headerY);
      if st.rows != [] then Some(TableStructure(Headers(spans), st.rows, headerY, st.yEnd, false))
      else None
  }

  /** `for line in lines: spans.extend(line.spans)`. */
  method CollectSpans(lines: seq<TextLine>) returns (spans: seq<TextSpan>)
    ensures spans == AllSpans(lines)
  {
    spans := [];
    for k := 0 to |lines|
      invariant spans == AllSpans(lines[..k])
    {
      assert lines[..k + 1][..k] == lines[..k];
      spans := spans + lines[k].spans;
    }
    assert lines[..|lines|] == lines;
  }

  /** The row being formed, from the two variables that hold it. */
  function OpenRow(currentRowY: Option<real>, currentRowLines: seq<TextLine>): Option<RowGroup> {
    if currentRowY.Some? then Some(RowGroup(currentRowY.value, currentRowLines)) else None
  }

  lemma GroupedStep(ys: seq<real>, k: nat, yGroups: YGroups, headerY: real)
    requires k < |ys|
    ensures Grouped(ys[..k + 1], yGroups, headerY) == GroupStep(Grouped(ys[..k], yGroups, headerY), ys[k], yGroups, headerY)
  {
    assert ys[..k + 1][..k] == ys[..k];
  }

  /** The clustering loop of `_extract_table`, with `current_row_y` and
      `current_row_lines` as the row being formed. */
  method GroupRows(ys: seq<real>, yGroups: YGroups, headerY: real) returns (rowGroups: seq<RowGroup>)
    ensures rowGroups == RowGroups(ys, yGroups, headerY)
  {
    rowGroups := [];
    var currentRowY: Option<real> := None;
    var currentRowLines: seq<TextLine> := [];
    var k := 0;
    while k < |ys|
      invariant k <= |ys|
      invariant currentRowY.None? <==> currentRowLines == []
      invariant Grouped(ys[..k], yGroups, headerY) == Grouping(rowGroups, OpenRow(currentRowY, currentRowLines), false)
      decreases |ys| - k
    {
      var y := ys[k];
      GroupedStep(ys, k, yGroups, headerY);
      var lines := Lookup(yGroups, y);
      if lines == [] {
        k := k + 1;
        continue;
      }
      if currentRowY.None? || Abs(y - currentRowY.value) <= RowYTolerance {
        if currentRowY.None? {
          currentRowY := Some(y);
          assert [] + lines == lines;
        }
        currentRowLines := currentRowLines + lines;
      } else {
        if currentRowLines != [] {
          rowGroups := rowGroups + [RowGroup(currentRowY.value, currentRowLines)];
        }
        currentRowY := Some(y);
        currentRowLines := lines;
      }
      k := k + 1;
      if y - headerY > ScanLimit {
        assert Grouped(ys[..k], yGroups, headerY) == Grouping(rowGroups, OpenRow(currentRowY, currentRowLines), true);
        GroupedAfterStop(ys, k, yGroups, headerY);
        break;
      }
    }
    assert ys[..|ys|] == ys;
    if currentRowLines != [] {
      rowGroups := rowGroups + [RowGroup(currentRowY.value, currentRowLines)];
    }
  }

  /** Once the scan has stopped, the remaining keys change nothing. */
  lemma {:induction false} GroupedAfterStop(ys: seq<real>, k: nat, yGroups: YGroups, headerY: real)
    requires k <= |ys|
    requires k < |ys| ==> Grouped(ys[..k], yGroups, headerY).stopped
    ensures Grouped(ys, yGroups, headerY) == Grouped(ys[..k], yGroups, headerY)
    decreases |ys| - k
  {
    if k == |ys| {
      assert ys[..k] == ys;
    } else {
      assert ys[..k + 1][..k] == ys[..k];
      GroupedAfterStop(ys, k + 1, yGroups, headerY);
    }
  }

  /** The row loop of `_extract_table`. */
  method ScanRows(groups: seq<RowGroup>, anchors: seq<real>, headerY: real) returns (st: RowScan)
    ensures st.rows == Scanned(groups, anchors, headerY).rows
    ensures st.yEnd == Scanned(groups, anchors, headerY).yEnd
  {
    var rows: seq<seq<string>> := [];
    var yEnd := headerY;
    var k := 0;
    while k < |groups|
      invariant k <= |groups|
      invariant Scanned(groups[..k], anchors, headerY) == RowScan(rows, yEnd, false)
      decreases |groups| - k
    {
      var group := groups[k];
      assert groups[..k + 1][..k] == groups[..k];
      var spans := CollectSpans(group.lines);
      if !IsTableRow(spans, anchors) {
        ScannedAfterStop(groups, k + 1, anchors, headerY);
        return RowScan(rows, yEnd, true);
      }
      var row := ExtractRowCells(spans, anchors);
      rows := AddRow(rows, row, |anchors|);
      yEnd := group.y;
      k := k + 1;
    }
    assert groups[..k] == groups;
    st := RowScan(rows, yEnd, false);
  }

  /** Once a row has been rejected, the remaining groups change nothing. */
  lemma {:induction false} ScannedAfterStop(groups: seq<RowGroup>, k: nat, anchors: seq<real>, headerY: real)
    requires k <= |groups|
    requires Scanned(groups[..k], anchors, headerY).stopped
    ensures Scanned(groups, anchors, headerY) == Scanned(groups[..k], anchors, headerY)
    decreases |groups| - k
  {
    if k < |groups| {
      assert groups[..k + 1][..k] == groups[..k];
      ScannedAfterStop(groups, k + 1, anchors, headerY);
    } else {
      assert groups[..k] == groups;
    }
  }

  /** `_extract_table`, given the keys from the header key on. */
  method ExtractTable(keys: seq<real>, yGroups: YGroups) returns (table: Option<TableStructure>)
    ensures table == ExtractedTable(keys, yGroups)
  {
    if keys == [] {
      return None;
    }
    var headerY := keys[0];
    var headerSpans := CollectSpans(Lookup(yGroups, headerY));
    headerSpans := SortBy(headerSpans, BySpanX);
    var headers := Headers(headerSpans);
    var anchors := Anchors(headerSpans);
    var rowGroups := GroupRows(keys[1..], yGroups, headerY);
    var st := ScanRows(rowGroups, anchors, headerY);
    if st.rows != [] {
      return Some(TableStructure(headers, st.rows, headerY, st.yEnd, false));
    }
    return None;
  }

  // ---------------------------------------------------------------------------
  // Properties of the clustering

  /** A key that ends the scan: it has lines and lies more than 200 below the header. */
  predicate Stops(yGroups: YGroups, y: real, headerY: real) {
    Lookup(yGroups, y) != [] && y - headerY > ScanLimit
  }

  /** How many keys the clustering loop reads: up to and including the first
      key that ends the scan, or all of them. */
  function Cutoff(ys: seq<real>, yGroups: YGroups, headerY: real): (n: nat)
    ensures n <= |ys|
    ensures forall j :: 0 <= j < n - 1 ==> !Stops(yGroups, ys[j], headerY)
    ensures n < |ys| ==> 0 < n && Stops(yGroups, ys[n - 1], headerY)
    ensures ys != [] ==> n > 0
  {
    if ys == [] then 0
    else if Stops(yGroups, ys[0], headerY) then 1
    else 1 + Cutoff(ys[1..], yGroups, headerY)
  }

  /** The lines of row groups, group after group. */
  function Lines(groups: seq<RowGroup>): seq<TextLine> {
    if groups == [] then [] else Lines(groups[..|groups| - 1]) + groups[|groups| - 1].lines
  }

  /** The lines of keys, key after key. */
  function KeyLines(ys: seq<real>, yGroups: YGroups): seq<TextLine> {
    if ys == [] then [] else KeyLines(ys[..|ys| - 1], yGroups) + Lookup(yGroups, ys[|ys| - 1])
  }

  lemma LinesAppend(groups: seq<RowGroup>, group: RowGroup)
    ensures Lines(groups + [group]) == Lines(groups) + group.lines
  {
    assert (groups + [group])[..|groups|] == groups;
  }

  /** What one key does to the lines gathered so far: it adds its own lines. */
  lemma GroupStepLines(g: Grouping, y: real, yGroups: YGroups, headerY: real)
    requires !g.stopped
    ensures Lines(Closed(GroupStep(g, y, yGroups, headerY))) == Lines(Closed(g)) + Lookup(yGroups, y)
  {
    var lines := Lookup(yGroups, y);
    if lines != [] {
      if g.open.None? {
        LinesAppend(g.groups, RowGroup(y, lines));
      } else if Abs(y - g.open.value.y) <= RowYTolerance {
        LinesAppend(g.groups, RowGroup(g.open.value.y, g.open.value.lines + lines));
        LinesAppend(g.groups, g.open.value);
      } else {
        LinesAppend(g.groups + [g.open.value], RowGroup(y, lines));
        LinesAppend(g.groups, g.open.value);
      }
    } else {
      assert Lines(Closed(g)) + lines == Lines(Closed(g));
    }
  }

  /** The cutoff of a key sequence from that of its prefix: unchanged when the
      prefix already holds the stopping key, everything otherwise. */
  lemma CutoffOfPrefix(ys: seq<real>, yGroups: YGroups, headerY: real)
    requires ys != []
    ensures var init := ys[..|ys| - 1];
            var c := Cutoff(init, yGroups, headerY);
            if c > 0 && Stops(yGroups, init[c - 1], headerY)
            then Cutoff(ys, yGroups, headerY) == c
            else Cutoff(ys, yGroups, headerY) == |ys|
  {
    var init := ys[..|ys| - 1];
    assert forall j :: 0 <= j < |init| ==> ys[j] == init[j];
  }

  /** The clustering has stopped exactly when the last key it read ends the scan. */
  lemma {:induction false} GroupedStops(ys: seq<real>, yGroups: YGroups, headerY: real)
    ensures var c := Cutoff(ys, yGroups, headerY);
            Grouped(ys, yGroups, headerY).stopped <==> c > 0 && Stops(yGroups, ys[c - 1], headerY)
  {
    if ys != [] {
      var init := ys[..|ys| - 1];
      GroupedStops(init, yGroups, headerY);
      CutoffOfPrefix(ys, yGroups, headerY);
      var c := Cutoff(init, yGroups, headerY);
      if c > 0 {
        assert init[c - 1] == ys[c - 1];
      }
    }
  }

  /** The row groups hold exactly the lines of the keys read, up to and including
      the key that ends the scan: each line once, in key order. */
  lemma {:induction false} GroupedPartition(ys: seq<real>, yGroups: YGroups, headerY: real)
    ensures Lines(RowGroups(ys, yGroups, headerY)) == KeyLines(ys[..Cutoff(ys, yGroups, headerY)], yGroups)
  {
    if ys != [] {
      var init := ys[..|ys| - 1];
      var g := Grouped(init, yGroups, headerY);
      GroupedPartition(init, yGroups, headerY);
      GroupedStops(init, yGroups, headerY);
      CutoffOfPrefix(ys, yGroups, headerY);
      var c := Cutoff(init, yGroups, headerY);
      if g.stopped {
        assert ys[..c] == init[..c];
      } else {
        GroupStepLines(g, ys[|ys| - 1], yGroups, headerY);
        assert init[..c] == init;
        assert ys[..|ys|] == ys;
      }
    }
  }

  /** Every line of a row group comes from a key between that row's first key and
      2 below it. */
  ghost predicate Banded(groups: seq<RowGroup>, ys: seq<real>, yGroups: YGroups) {
    forall i, l :: 0 <= i < |groups| && l in groups[i].lines ==>
      exists y :: y in ys && l in Lookup(yGroups, y) && groups[i].y <= y <= groups[i].y + RowYTolerance
  }

  /** Row groups start at keys, in ascending order, each more than 2 after the one before. */
  ghost predicate Spread(groups: seq<RowGroup>, ys: seq<real>) {
    && (forall i :: 0 <= i < |groups| ==> groups[i].y in ys)
    && (forall i :: 0 < i < |groups| ==> groups[i].y - groups[i - 1].y > RowYTolerance)
  }

  /** No row is closed before one has been opened. */
  predicate Opened(g: Grouping) {
    g.open.None? ==> g.groups == []
  }

  /** The keys so far all lie below a new key. */
  lemma KeysBelow(ys: seq<real>, y: real)
    requires Increasing(ys + [y])
    ensures forall z :: z in ys ==> z in ys + [y] && z < y
    ensures y in ys + [y]
  {
    var ys' := ys + [y];
    forall z | z in ys ensures z in ys' && z < y {
      var j :| 0 <= j < |ys| && ys[j] == z;
      assert ys'[j] == z && ys'[|ys|] == y;
    }
    assert ys'[|ys|] == y;
  }

  /** A group whose lines each come from a key of `ys` within 2 of its first key. */
  ghost predicate GroupBanded(g: RowGroup, ys: seq<real>, yGroups: YGroups) {
    forall l :: l in g.lines ==>
      exists y :: y in ys && l in Lookup(yGroups, y) && g.y <= y <= g.y + RowYTolerance
  }

  lemma BandedGroups(groups: seq<RowGroup>, ys: seq<real>, yGroups: YGroups)
    ensures Banded(groups, ys, yGroups) <==> forall i :: 0 <= i < |groups| ==> GroupBanded(groups[i], ys, yGroups)
  {
  }

  /** A group stays banded when keys are added. */
  lemma GroupBandedExtend(g: RowGroup, ys: seq<real>, y: real, yGroups: YGroups)
    requires GroupBanded(g, ys, yGroups)
    ensures GroupBanded(g, ys + [y], yGroups)
  {
    forall l | l in g.lines
      ensures exists z :: z in ys + [y] && l in Lookup(yGroups, z) && g.y <= z <= g.y + RowYTolerance
    {
      var z :| z in ys && l in Lookup(yGroups, z) && g.y <= z <= g.y + RowYTolerance;
      assert z in ys + [y];
    }
  }

  /** One key of the clustering keeps every row starting at a key, each more than
      2 after the one before, and no row closed before one is opened. */
  lemma GroupStepSpread(g: Grouping, ys: seq<real>, y: real, yGroups: YGroups, headerY: real)
    requires Increasing(ys + [y])
    requires Opened(g) && Spread(Closed(g), ys)
    ensures Opened(GroupStep(g, y, yGroups, headerY))
    ensures Spread(Closed(GroupStep(g, y, yGroups, headerY)), ys + [y])
  {
    var next := GroupStep(g, y, yGroups, headerY);
    KeysBelow(ys, y);
    var lines := Lookup(yGroups, y);
    if g.stopped || lines == [] {
      assert next == g;
      SpreadExtend(Closed(g), ys, y);
    } else if g.open.None? {
      assert Closed(next) == [] + [RowGroup(y, lines)];
      SpreadAppend([], ys, y, lines);
    } else {
      var o := g.open.value;
      assert Closed(g) == g.groups + [o];
      if Abs(y - o.y) <= RowYTolerance {
        assert Closed(next) == g.groups + [RowGroup(o.y, o.lines + lines)];
        SpreadMerge(g.groups, o, ys, y, lines);
      } else {
        assert Closed(next) == Closed(g) + [RowGroup(y, lines)];
        SpreadAppend(Closed(g), ys, y, lines);
      }
    }
  }

  /** Adding a key without changing the rows keeps them spread. */
  lemma SpreadExtend(groups: seq<RowGroup>, ys: seq<real>, y: real)
    requires Spread(groups, ys)
    ensures Spread(groups, ys + [y])
  {
    forall i | 0 <= i < |groups| ensures groups[i].y in ys + [y] {
      assert groups[i].y in ys;
    }
  }

  /** A row opened at a new key more than 2 after the last row's key. */
  lemma SpreadAppend(groups: seq<RowGroup>, ys: seq<real>, y: real, lines: seq<TextLine>)
    requires Spread(groups, ys) && forall z :: z in ys ==> z < y
    requires groups != [] ==> Abs(y - groups[|groups| - 1].y) > RowYTolerance
    ensures Spread(groups + [RowGroup(y, lines)], ys + [y])
  {
    var r := groups + [RowGroup(y, lines)];
    SpreadExtend(groups, ys, y);
    assert r[|groups|].y == y && y in ys + [y];
    forall i | 0 < i < |r| ensures r[i].y - r[i - 1].y > RowYTolerance {
      if i == |groups| {
        assert r[i - 1] == groups[|groups| - 1] && groups[|groups| - 1].y in ys;
      } else {
        assert r[i] == groups[i] && r[i - 1] == groups[i - 1];
      }
    }
  }

  /** Lines joining the open row leave its first key, and so the spread, unchanged. */
  lemma SpreadMerge(groups: seq<RowGroup>, o: RowGroup, ys: seq<real>, y: real, lines: seq<TextLine>)
    requires Spread(groups + [o], ys)
    ensures Spread(groups + [RowGroup(o.y, o.lines + lines)], ys + [y])
  {
    var before, after := groups + [o], groups + [RowGroup(o.y, o.lines + lines)];
    assert forall i :: 0 <= i < |after| ==> after[i].y == before[i].y;
    SpreadExtend(before, ys, y);
  }

  /** One key of the clustering keeps every line of a row coming from a key at
      most 2 after the row's first key. */
  lemma GroupStepBanded(g: Grouping, ys: seq<real>, y: real, yGroups: YGroups, headerY: real)
    requires Increasing(ys + [y])
    requires Opened(g) && Banded(Closed(g), ys, yGroups) && Spread(Closed(g), ys)
    ensures Banded(Closed(GroupStep(g, y, yGroups, headerY)), ys + [y], yGroups)
  {
    var next := GroupStep(g, y, yGroups, headerY);
    KeysBelow(ys, y);
    var lines := Lookup(yGroups, y);
    if g.stopped || lines == [] {
      assert next == g;
      BandedExtend(Closed(g), ys, y, yGroups);
    } else if g.open.None? {
      assert Closed(next) == [] + [RowGroup(y, lines)];
      BandedAppend([], ys, y, yGroups);
    } else {
      var o := g.open.value;
      assert Closed(g) == g.groups + [o];
      if Abs(y - o.y) <= RowYTolerance {
        assert Closed(next) == g.groups + [RowGroup(o.y, o.lines + lines)];
        assert o.y == Closed(g)[|g.groups|].y;
        assert o.y in ys;
        BandedMerge(g.groups, o, ys, y, yGroups);
      } else {
        assert Closed(next) == Closed(g) + [RowGroup(y, lines)];
        BandedAppend(Closed(g), ys, y, yGroups);
      }
    }
  }

  /** Adding a key without changing the rows keeps them banded. */
  lemma BandedExtend(groups: seq<RowGroup>, ys: seq<real>, y: real, yGroups: YGroups)
    requires Banded(groups, ys, yGroups)
    ensures Banded(groups, ys + [y], yGroups)
  {
    BandedGroups(groups, ys, yGroups);
    BandedGroups(groups, ys + [y], yGroups);
    forall i | 0 <= i < |groups| ensures GroupBanded(groups[i], ys + [y], yGroups) {
      GroupBandedExtend(groups[i], ys, y, yGroups);
    }
  }

  /** A row opened at a new key holds that key's lines only. */
  lemma BandedAppend(groups: seq<RowGroup>, ys: seq<real>, y: real, yGroups: YGroups)
    requires Banded(groups, ys, yGroups)
    ensures Banded(groups + [RowGroup(y, Lookup(yGroups, y))], ys + [y], yGroups)
  {
    var r := groups + [RowGroup(y, Lookup(yGroups, y))];
    BandedExtend(groups, ys, y, yGroups);
    BandedGroups(groups, ys + [y], yGroups);
    BandedGroups(r, ys + [y], yGroups);
    assert y in ys + [y];
    forall i | 0 <= i < |r| ensures GroupBanded(r[i], ys + [y], yGroups) {
      if i < |groups| {
        assert r[i] == groups[i];
      }
    }
  }

  /** The lines of a key within 2 of the open row's first key join that row. */
  lemma BandedMerge(groups: seq<RowGroup>, o: RowGroup, ys: seq<real>, y: real, yGroups: YGroups)
    requires Banded(groups + [o], ys, yGroups)
    requires o.y <= y <= o.y + RowYTolerance
    ensures Banded(groups + [RowGroup(o.y, o.lines + Lookup(yGroups, y))], ys + [y], yGroups)
  {
    var ys' := ys + [y];
    var before := groups + [o];
    var merged := RowGroup(o.y, o.lines + Lookup(yGroups, y));
    var after := groups + [merged];
    BandedExtend(before, ys, y, yGroups);
    BandedGroups(before, ys', yGroups);
    BandedGroups(after, ys', yGroups);
    assert before[|groups|] == o;
    assert y in ys';
    forall l | l in merged.lines
      ensures exists z :: z in ys' && l in Lookup(yGroups, z) && merged.y <= z <= merged.y + RowYTolerance
    {
      if l !in o.lines {
        assert l in Lookup(yGroups, y);
      }
    }
    forall i | 0 <= i < |after| ensures GroupBanded(after[i], ys', yGroups) {
      if i < |groups| {
        assert after[i] == before[i];
      }
    }
  }


  /** For ascending keys, the row groups start at keys, each more than 2 after the
      one before, and every line of a group comes from a key at most 2 after the
      group's first key. */
  lemma {:induction false} RowGroupBands(ys: seq<real>, yGroups: YGroups, headerY: real)
    requires Increasing(ys)
    ensures Opened(Grouped(ys, yGroups, headerY))
    ensures Banded(RowGroups(ys, yGroups, headerY), ys, yGroups)
    ensures Spread(RowGroups(ys, yGroups, headerY), ys)
  {
    if ys != [] {
      var init := ys[..|ys| - 1];
      assert init + [ys[|ys| - 1]] == ys;
      RowGroupBands(init, yGroups, headerY);
      GroupStepSpread(Grouped(init, yGroups, headerY), init, ys[|ys| - 1], yGroups, headerY);
      GroupStepBanded(Grouped(init, yGroups, headerY), init, ys[|ys| - 1], yGroups, headerY);
    }
  }

  // ---------------------------------------------------------------------------
  // Properties of the row scan and of the extracted table

  /** How many leading row groups align with the columns. */
  function Accepted(groups: seq<RowGroup>, anchors: seq<real>): (n: nat)
    ensures n <= |groups|
  {
    if groups == [] then 0
    else
      var m := Accepted(groups[..|groups| - 1], anchors);
      if m == |groups| - 1 && IsTableRow(AllSpans(groups[|groups| - 1].lines), anchors) then m + 1 else m
  }

  /** The leading `Accepted` groups all align with the columns, and the group
      after them does not. */
  lemma {:induction false} AcceptedSpec(groups: seq<RowGroup>, anchors: seq<real>)
    ensures forall j :: 0 <= j < Accepted(groups, anchors) ==> IsTableRow(AllSpans(groups[j].lines), anchors)
    ensures Accepted(groups, anchors) < |groups| ==>
              !IsTableRow(AllSpans(groups[Accepted(groups, anchors)].lines), anchors)
  {
    if groups != [] {
      var init := groups[..|groups| - 1];
      AcceptedSpec(init, anchors);
      assert forall j :: 0 <= j < |init| ==> init[j] == groups[j];
    }
  }

  /** One group of the row scan: ignored once stopped; a group that does not
      align stops the scan and changes nothing else; an aligned group sets
      `table_y_end` and adds at most one row. */
  lemma RowStepEffect(st: RowScan, group: RowGroup, anchors: seq<real>)
    requires forall k :: 0 <= k < |st.rows| ==> |st.rows[k]| == |anchors|
    ensures var r := RowStep(st, group, anchors);
            && (st.stopped ==> r == st)
            && (!st.stopped && !IsTableRow(AllSpans(group.lines), anchors) ==> r == st.(stopped := true))
            && (!st.stopped && IsTableRow(AllSpans(group.lines), anchors) ==>
                  !r.stopped && r.yEnd == group.y && r.rows != [] && |r.rows| <= |st.rows| + 1)
  {
    if !st.stopped && IsTableRow(AllSpans(group.lines), anchors) {
      AddRowWidth(st.rows, RowCells(AllSpans(group.lines), anchors), |anchors|);
    }
  }

  /** The rows come from the leading aligned groups only: the first group that
      does not align ends the table, and nothing after it is read. */
  lemma {:induction false} ScannedStops(groups: seq<RowGroup>, anchors: seq<real>, headerY: real)
    ensures var st, n := Scanned(groups, anchors, headerY), Accepted(groups, anchors);
            && (st.stopped <==> n < |groups|)
            && st.rows == Scanned(groups[..n], anchors, headerY).rows
            && st.yEnd == Scanned(groups[..n], anchors, headerY).yEnd
  {
    if groups != [] {
      var init := groups[..|groups| - 1];
      var last := groups[|groups| - 1];
      ScannedStops(init, anchors, headerY);
      RowStepEffect(Scanned(init, anchors, headerY), last, anchors);
      var m := Accepted(init, anchors);
      if m == |init| {
        assert init[..m] == init;
        assert groups[..|groups|] == groups;
      } else {
        assert groups[..m] == init[..m];
      }
    }
  }

  /** There is at most one row per accepted group, and none exactly when no
      group is accepted. */
  lemma {:induction false} ScannedRowCount(groups: seq<RowGroup>, anchors: seq<real>, headerY: real)
    ensures |Scanned(groups, anchors, headerY).rows| <= Accepted(groups, anchors)
    ensures Scanned(groups, anchors, headerY).rows == [] <==> Accepted(groups, anchors) == 0
  {
    if groups != [] {
      var init := groups[..|groups| - 1];
      ScannedRowCount(init, anchors, headerY);
      ScannedStops(init, anchors, headerY);
      RowStepEffect(Scanned(init, anchors, headerY), groups[|groups| - 1], anchors);
    }
  }

  /** The scan has stopped exactly when some group was not accepted. */
  lemma {:induction false} ScannedStopped(groups: seq<RowGroup>, anchors: seq<real>, headerY: real)
    ensures Scanned(groups, anchors, headerY).stopped <==> Accepted(groups, anchors) < |groups|
  {
    if groups != [] {
      var init := groups[..|groups| - 1];
      ScannedStopped(init, anchors, headerY);
      RowStepEffect(Scanned(init, anchors, headerY), groups[|groups| - 1], anchors);
    }
  }

  /** The accepted groups are all the groups of the accepted prefix. */
  lemma {:induction false} AcceptedPrefix(groups: seq<RowGroup>, anchors: seq<real>)
    ensures Accepted(groups[..Accepted(groups, anchors)], anchors) == Accepted(groups, anchors)
  {
    if groups != [] {
      var init := groups[..|groups| - 1];
      var m := Accepted(init, anchors);
      AcceptedPrefix(init, anchors);
      if Accepted(groups, anchors) == m + 1 {
        assert groups[..m + 1] == groups;
      } else {
        assert groups[..m] == init[..m];
      }
    }
  }

  /** When every group is accepted, `table_y_end` is the last group's key. */
  lemma AllAcceptedYEnd(groups: seq<RowGroup>, anchors: seq<real>, headerY: real)
    requires groups != [] && Accepted(groups, anchors) == |groups|
    ensures Scanned(groups, anchors, headerY).yEnd == groups[|groups| - 1].y
  {
    var init := groups[..|groups| - 1];
    assert Accepted(init, anchors) == |init|;
    ScannedStopped(init, anchors, headerY);
    RowStepEffect(Scanned(init, anchors, headerY), groups[|groups| - 1], anchors);
  }

  /** `table_y_end` is the last accepted group's key, or the header key when no
      group is accepted. */
  lemma ScannedYEnd(groups: seq<RowGroup>, anchors: seq<real>, headerY: real)
    ensures Accepted(groups, anchors) == 0 ==> Scanned(groups, anchors, headerY).yEnd == headerY
    ensures Accepted(groups, anchors) > 0 ==>
              Scanned(groups, anchors, headerY).yEnd == groups[Accepted(groups, anchors) - 1].y
  {
    var n := Accepted(groups, anchors);
    ScannedStops(groups, anchors, headerY);
    if n == 0 {
      assert groups[..0] == [];
    } else {
      var pre := groups[..n];
      AcceptedPrefix(groups, anchors);
      AllAcceptedYEnd(pre, anchors, headerY);
      assert pre[n - 1] == groups[n - 1];
    }
  }

  /** `_extract_table` returns `None` exactly when there are no keys or no row
      group after the header aligns with its columns. */
  lemma ExtractedTableNone(keys: seq<real>, yGroups: YGroups)
    ensures ExtractedTable(keys, yGroups) == None
            <==> keys == []
                 || Accepted(RowGroups(keys[1..], yGroups, keys[0]), Anchors(HeaderSpans(yGroups, keys[0]))) == 0
  {
    if keys != [] {
      ScannedRowCount(RowGroups(keys[1..], yGroups, keys[0]), Anchors(HeaderSpans(yGroups, keys[0])), keys[0]);
    }
  }

  /** A returned table starts at the header key; its headers are the stripped
      texts of the header spans in ascending x, whose x values are the column
      anchors; it has between one row and one row per accepted group, every row
      has exactly one cell per header, and it has no header background. */
  lemma ExtractedTableShape(keys: seq<real>, yGroups: YGroups)
    requires ExtractedTable(keys, yGroups).Some?
    ensures var t := ExtractedTable(keys, yGroups).value;
            var spans := HeaderSpans(yGroups, keys[0]);
            var anchors := Anchors(spans);
            && keys != [] && t.yStart == keys[0] && !t.hasHeaderBg
            && |t.headers| == |spans| == |anchors|
            && (forall i :: 0 <= i < |spans| ==> t.headers[i] == Strip(spans[i].text) && anchors[i] == spans[i].x)
            && (forall i, j :: 0 <= i < j < |anchors| ==> anchors[i] <= anchors[j])
            && 1 <= |t.rows| <= Accepted(RowGroups(keys[1..], yGroups, keys[0]), anchors)
            && (forall k :: 0 <= k < |t.rows| ==> |t.rows[k]| == |t.headers|)
  {
    var headerY := keys[0];
    var spans := HeaderSpans(yGroups, headerY);
    var anchors := Anchors(spans);
    var groups := RowGroups(keys[1..], yGroups, headerY);
    var st := Scanned(groups, anchors, headerY);
    assert ExtractedTable(keys, yGroups) == Some(TableStructure(Headers(spans), st.rows, headerY, st.yEnd, false));
    ScannedRowCount(groups, anchors, headerY);
  }

  /** The row scan over keys above the header key ends, when it yields rows,
      strictly below the header key. */
  lemma ScanEndsBelow(ys: seq<real>, yGroups: YGroups, headerY: real, anchors: seq<real>)
    requires Increasing(ys) && forall j :: 0 <= j < |ys| ==> headerY < ys[j]
    ensures Scanned(RowGroups(ys, yGroups, headerY), anchors, headerY).rows != [] ==>
              headerY < Scanned(RowGroups(ys, yGroups, headerY), anchors, headerY).yEnd
  {
    var groups := RowGroups(ys, yGroups, headerY);
    ScannedRowCount(groups, anchors, headerY);
    ScannedYEnd(groups, anchors, headerY);
    RowGroupBands(ys, yGroups, headerY);
    var n := Accepted(groups, anchors);
    if n > 0 {
      assert groups[n - 1].y in ys;
    }
  }

  /** With ascending keys a returned table ends strictly below where it starts. */
  lemma ExtractedTableRange(keys: seq<real>, yGroups: YGroups)
    requires Increasing(keys) && ExtractedTable(keys, yGroups).Some?
    ensures ExtractedTable(keys, yGroups).value.yStart < ExtractedTable(keys, yGroups).value.yEnd
  {
    var headerY := keys[0];
    var ys := keys[1..];
    var spans := HeaderSpans(yGroups, headerY);
    var anchors := Anchors(spans);
    var st := Scanned(RowGroups(ys, yGroups, headerY), anchors, headerY);
    assert ExtractedTable(keys, yGroups) == Some(TableStructure(Headers(spans), st.rows, headerY, st.yEnd, false));
    assert forall j :: 0 <= j < |ys| ==> ys[j] == keys[j + 1];
    ScanEndsBelow(ys, yGroups, headerY, anchors);
  }

  /** The shape of every table the detector keeps. */
  predicate WellFormed(t: TableStructure) {
    && |t.headers| >= MinHeaderSpans && |t.rows| >= 1 && t.yStart < t.yEnd
    && forall k :: 0 <= k < |t.rows| ==> |t.rows[k]| == |t.headers|
  }

  /** A table extracted at a header key over ascending keys starts at that key,
      has at least three columns, at least one row, one cell per column in every
      row, and ends strictly below its start. */
  lemma ExtractedAtHeader(keys: seq<real>, yGroups: YGroups)
    requires Increasing(keys) && keys != [] && IsTableHeader(Lookup(yGroups, keys[0]))
    requires ExtractedTable(keys, yGroups).Some?
    ensures ExtractedTable(keys, yGroups).value.yStart == keys[0]
    ensures WellFormed(ExtractedTable(keys, yGroups).value)
  {
    ExtractedTableShape(keys, yGroups);
    ExtractedTableRange(keys, yGroups);
    HeaderCriteria(Lookup(yGroups, keys[0]));
  }
}
