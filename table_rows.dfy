/** Rows of a table (`TableDetector._is_table_row`, `_extract_row_cells` and the
    continuation-row folding of `_extract_table` in pdf2docx_advanced.py): a
    row is accepted when a span lies near a column anchor, its spans are dealt
    to the nearest anchor's cell, and a row with a single non-empty cell is
    folded into the row before it. */
module TableRows {
  import opened Common
  import opened Strings
  import opened Spans

  /** The alignment tolerance of `_is_table_row`. */
  const RowTolerance: real := 30.0

  // ---------------------------------------------------------------------------
  // _is_table_row

  predicate NearAnchor(x: real, anchors: seq<real>) {
    anchors != [] && (NearAnchor(x, anchors[..|anchors| - 1]) || Abs(x - anchors[|anchors| - 1]) < RowTolerance)
  }

  /** `_is_table_row`: some span lies near some column anchor. */
  predicate IsTableRow(spans: seq<TextSpan>, anchors: seq<real>)
    ensures IsTableRow(spans, anchors) ==> spans != [] && anchors != []
  {
    spans != [] && (IsTableRow(spans[..|spans| - 1], anchors) || NearAnchor(spans[|spans| - 1].x, anchors))
  }

  lemma {:induction false} NearAnchorSpec(x: real, anchors: seq<real>)
    ensures NearAnchor(x, anchors) <==> exists c :: 0 <= c < |anchors| && Abs(x - anchors[c]) < RowTolerance
  {
    if anchors != [] {
      var init := anchors[..|anchors| - 1];
      NearAnchorSpec(x, init);
      if NearAnchor(x, init) {
        var c :| 0 <= c < |init| && Abs(x - init[c]) < RowTolerance;
        assert anchors[c] == init[c];
      }
      if exists c :: 0 <= c < |anchors| && Abs(x - anchors[c]) < RowTolerance {
        var c :| 0 <= c < |anchors| && Abs(x - anchors[c]) < RowTolerance;
        if c < |init| {
          assert init[c] == anchors[c];
        }
      }
    }
  }

  /** A row is accepted exactly when some span lies strictly within 30 of some
      column anchor; a row without spans is never accepted. */
  lemma TableRowAlignment(spans: seq<TextSpan>, anchors: seq<real>)
    ensures IsTableRow(spans, anchors)
            <==> exists s, c :: 0 <= s < |spans| && 0 <= c < |anchors| && Abs(spans[s].x - anchors[c]) < RowTolerance
  {
    if IsTableRow(spans, anchors) {
      AcceptedRowAligned(spans, anchors);
    }
    if exists s, c :: 0 <= s < |spans| && 0 <= c < |anchors| && Abs(spans[s].x - anchors[c]) < RowTolerance {
      var s, c :| 0 <= s < |spans| && 0 <= c < |anchors| && Abs(spans[s].x - anchors[c]) < RowTolerance;
      AlignedRowAccepted(spans, anchors, s, c);
    }
  }

  lemma {:induction false} AcceptedRowAligned(spans: seq<TextSpan>, anchors: seq<real>)
    requires IsTableRow(spans, anchors)
    ensures exists s, c :: 0 <= s < |spans| && 0 <= c < |anchors| && Abs(spans[s].x - anchors[c]) < RowTolerance
  {
    var init := spans[..|spans| - 1];
    var last := spans[|spans| - 1];
    if IsTableRow(init, anchors) {
      AcceptedRowAligned(init, anchors);
      var s, c :| 0 <= s < |init| && 0 <= c < |anchors| && Abs(init[s].x - anchors[c]) < RowTolerance;
      assert spans[s] == init[s];
    } else {
      NearAnchorSpec(last.x, anchors);
      var c :| 0 <= c < |anchors| && Abs(last.x - anchors[c]) < RowTolerance;
      assert Abs(spans[|spans| - 1].x - anchors[c]) < RowTolerance;
    }
  }

  lemma {:induction false} AlignedRowAccepted(spans: seq<TextSpan>, anchors: seq<real>, s: nat, c: nat)
    requires s < |spans| && c < |anchors| && Abs(spans[s].x - anchors[c]) < RowTolerance
    ensures IsTableRow(spans, anchors)
  {
    var init := spans[..|spans| - 1];
    if s < |init| {
      assert init[s] == spans[s];
      AlignedRowAccepted(init, anchors, s, c);
    } else {
      NearAnchorSpec(spans[s].x, anchors);
    }
  }

  // ---------------------------------------------------------------------------
  // _extract_row_cells

  /** The column whose anchor is nearest to `x`; on a tie the lowest index wins,
      since the scan only moves on a strictly smaller distance. */
  function Nearest(x: real, anchors: seq<real>): (c: nat)
    requires anchors != []
    ensures c < |anchors|
    ensures forall i :: 0 <= i < |anchors| ==> Abs(x - anchors[c]) <= Abs(x - anchors[i])
    ensures forall i :: 0 <= i < c ==> Abs(x - anchors[c]) < Abs(x - anchors[i])
  {
    if |anchors| == 1 then 0
    else
      var init := anchors[..|anchors| - 1];
      var c := Nearest(x, init);
      assert forall i :: 0 <= i < |init| ==> init[i] == anchors[i];
      if Abs(x - anchors[|anchors| - 1]) < Abs(x - anchors[c]) then |anchors| - 1 else c
  }

  /** The cells after dealing the spans, one by one, to their nearest column:
      a cell gets a space before each further span's stripped text. */
  function RowCells(spans: seq<TextSpan>, anchors: seq<real>): (cells: seq<string>)
    requires spans != [] ==> anchors != []
    ensures |cells| == |anchors|
  {
    if spans == [] then seq(|anchors|, _ => "")
    else
      var cells := RowCells(spans[..|spans| - 1], anchors);
      var span := spans[|spans| - 1];
      var c := Nearest(span.x, anchors);
      cells[c := JoinCell(cells[c], Strip(span.text))]
  }

  /** The stripped texts of the spans whose nearest column is `c`, in span order. */
  function ColumnTexts(spans: seq<TextSpan>, anchors: seq<real>, c: nat): seq<string>
    requires anchors != []
  {
    if spans == [] then []
    else
      var span := spans[|spans| - 1];
      ColumnTexts(spans[..|spans| - 1], anchors, c)
      + (if Nearest(span.x, anchors) == c then [Strip(span.text)] else [])
  }

  /** Column by column: each cell is its column's stripped span texts joined as
      the loop joins them, and when no stripped text is empty that is the texts
      separated by single spaces. */
  lemma {:induction false} RowCellsByColumn(spans: seq<TextSpan>, anchors: seq<real>, c: nat)
    requires anchors != [] && c < |anchors|
    ensures RowCells(spans, anchors)[c] == JoinCells(ColumnTexts(spans, anchors, c))
    ensures (forall k :: 0 <= k < |spans| ==> Strip(spans[k].text) != [])
            ==> RowCells(spans, anchors)[c] == SpaceJoin(ColumnTexts(spans, anchors, c))
  {
    if spans != [] {
      var init := spans[..|spans| - 1];
      var span := spans[|spans| - 1];
      RowCellsByColumn(init, anchors, c);
      var texts := ColumnTexts(init, anchors, c);
      if Nearest(span.x, anchors) == c {
        assert (texts + [Strip(span.text)])[..|texts|] == texts;
      } else {
        assert texts + [] == texts;
      }
    }
    ColumnTextsNonEmpty(spans, anchors, c);
  }

  lemma {:induction false} ColumnTextsNonEmpty(spans: seq<TextSpan>, anchors: seq<real>, c: nat)
    requires anchors != []
    ensures (forall k :: 0 <= k < |spans| ==> Strip(spans[k].text) != [])
            ==> JoinCells(ColumnTexts(spans, anchors, c)) == SpaceJoin(ColumnTexts(spans, anchors, c))
  {
    if forall k :: 0 <= k < |spans| ==> Strip(spans[k].text) != [] {
      ColumnTextsAreStripped(spans, anchors, c);
      JoinCellsOfNonEmpty(ColumnTexts(spans, anchors, c));
    }
  }

  lemma {:induction false} ColumnTextsAreStripped(spans: seq<TextSpan>, anchors: seq<real>, c: nat)
    requires anchors != []
    requires forall k :: 0 <= k < |spans| ==> Strip(spans[k].text) != []
    ensures forall k :: 0 <= k < |ColumnTexts(spans, anchors, c)| ==> ColumnTexts(spans, anchors, c)[k] != []
  {
    if spans != [] {
      ColumnTextsAreStripped(spans[..|spans| - 1], anchors, c);
    }
  }

  /** The inner loop of `_extract_row_cells`: the nearest column, with `found`
      standing for a minimum distance that is still infinite. */
  method NearestColumn(x: real, anchors: seq<real>) returns (colIdx: nat)
    requires anchors != []
    ensures colIdx == Nearest(x, anchors)
  {
    var found := false;
    var minDist := 0.0;
    colIdx := 0;
    for i := 0 to |anchors|
      invariant found <==> i > 0
      invariant i > 0 ==> colIdx == Nearest(x, anchors[..i]) && minDist == Abs(x - anchors[colIdx])
    {
      var dist := Abs(x - anchors[i]);
      NearestStep(x, anchors, i);
      if !found || dist < minDist {
        minDist := dist;
        colIdx := i;
      }
      found := true;
    }
    assert anchors[..|anchors|] == anchors;
  }

  /** Extending the anchors by one: the new anchor wins only when strictly nearer. */
  lemma NearestStep(x: real, anchors: seq<real>, i: nat)
    requires i < |anchors|
    ensures i == 0 ==> Nearest(x, anchors[..i + 1]) == 0
    ensures i > 0 ==> var c := Nearest(x, anchors[..i]);
                      Nearest(x, anchors[..i + 1])
                      == if Abs(x - anchors[i]) < Abs(x - anchors[c]) then i else c
  {
    var pre := anchors[..i + 1];
    assert pre[..i] == anchors[..i];
    assert pre[i] == anchors[i];
    if i > 0 {
      var c := Nearest(x, anchors[..i]);
      assert pre[c] == anchors[c];
    }
  }

  lemma RowCellsStep(spans: seq<TextSpan>, anchors: seq<real>, k: nat)
    requires k < |spans| && anchors != []
    ensures var cells, c := RowCells(spans[..k], anchors), Nearest(spans[k].x, anchors);
            RowCells(spans[..k + 1], anchors) == cells[c := JoinCell(cells[c], Strip(spans[k].text))]
  {
    assert spans[..k + 1][..k] == spans[..k];
  }

  /** `_extract_row_cells`. */
  method ExtractRowCells(spans: seq<TextSpan>, anchors: seq<real>) returns (cells: seq<string>)
    requires spans != [] ==> anchors != []
    ensures cells == RowCells(spans, anchors)
    ensures |cells| == |anchors|
  {
    cells := seq(|anchors|, _ => "");
    for k := 0 to |spans|
      invariant cells == RowCells(spans[..k], anchors)
    {
      var span := spans[k];
      var colIdx := NearestColumn(span.x, anchors);
      var cell := cells[colIdx];
      if cell != [] {
        cell := cell + " ";
      }
      cell := cell + Strip(span.text);
      assert cell == JoinCell(cells[colIdx], Strip(span.text));
      cells := cells[colIdx := cell];
      RowCellsStep(spans, anchors, k);
    }
    assert spans[..|spans|] == spans;
  }

  // ---------------------------------------------------------------------------
  // Folding continuation rows

  /** `sum(1 for cell in row if cell.strip())`. */
  function NonEmptyCount(row: seq<string>): nat {
    if row == [] then 0
    else NonEmptyCount(row[..|row| - 1]) + (if Strip(row[|row| - 1]) != [] then 1 else 0)
  }

  /** A count of one means exactly one cell is non-blank: the one returned. */
  lemma {:induction false} SingleNonEmpty(row: seq<string>) returns (c: nat)
    requires NonEmptyCount(row) == 1
    ensures c < |row| && Strip(row[c]) != []
    ensures forall i :: 0 <= i < |row| && i != c ==> Strip(row[i]) == []
  {
    var init := row[..|row| - 1];
    var n := |row| - 1;
    if Strip(row[n]) != [] {
      NoneNonEmpty(init);
      c := n;
      forall i | 0 <= i < |row| && i != n
        ensures Strip(row[i]) == []
      {
        assert row[i] == init[i];
      }
    } else {
      c := SingleNonEmpty(init);
      forall i | 0 <= i < |row| && i != c
        ensures Strip(row[i]) == []
      {
        if i < n {
          assert row[i] == init[i];
        }
      }
      assert row[c] == init[c];
    }
  }

  lemma {:induction false} NoneNonEmpty(row: seq<string>)
    requires NonEmptyCount(row) == 0
    ensures forall i :: 0 <= i < |row| ==> Strip(row[i]) == []
  {
    if row != [] {
      var init := row[..|row| - 1];
      NoneNonEmpty(init);
      forall i | 0 <= i < |row|
        ensures Strip(row[i]) == []
      {
        if i < |init| {
          assert row[i] == init[i];
        }
      }
    }
  }

  /** The previous row after a continuation row is folded into it: each non-blank
      cell of `row` is appended, space-joined, to the same column. */
  function FoldInto(previous: seq<string>, row: seq<string>): (r: seq<string>)
    requires |previous| == |row|
    ensures |r| == |previous|
  {
    seq(|row|, i requires 0 <= i < |row| => if Strip(row[i]) != [] then JoinCell(previous[i], row[i]) else previous[i])
  }

  /** One accepted row added to the table's rows: folded into the last row when
      there is one and the new row has exactly one non-blank cell, appended
      otherwise. */
  function AddRow(rows: seq<seq<string>>, row: seq<string>, numCols: nat): seq<seq<string>>
    requires rows != [] ==> |rows[|rows| - 1]| == |row|
  {
    if rows != [] && |row| == numCols && NonEmptyCount(row) == 1 then
      rows[..|rows| - 1] + [FoldInto(rows[|rows| - 1], row)]
    else
      rows + [row]
  }

  /** Folding a row with exactly one non-blank cell changes exactly that column
      of the previous row, and no other. */
  lemma FoldOneCell(previous: seq<string>, row: seq<string>)
    requires |previous| == |row| && NonEmptyCount(row) == 1
    ensures exists c :: && 0 <= c < |row| && Strip(row[c]) != []
                        && FoldInto(previous, row)[c] == JoinCell(previous[c], row[c])
                        && forall i :: 0 <= i < |row| && i != c ==> FoldInto(previous, row)[i] == previous[i]
  {
    var c := SingleNonEmpty(row);
    assert FoldInto(previous, row)[c] == JoinCell(previous[c], row[c]);
  }

  /** Folding keeps the number of rows and every row but the last, whose single
      changed column `FoldOneCell` describes; any other accepted row becomes
      exactly one new last row. */
  lemma AddRowEffect(rows: seq<seq<string>>, row: seq<string>, numCols: nat)
    requires rows != [] ==> |rows[|rows| - 1]| == |row|
    ensures rows != [] && |row| == numCols && NonEmptyCount(row) == 1 ==>
              && |AddRow(rows, row, numCols)| == |rows|
              && AddRow(rows, row, numCols)[..|rows| - 1] == rows[..|rows| - 1]
              && AddRow(rows, row, numCols)[|rows| - 1] == FoldInto(rows[|rows| - 1], row)
    ensures !(rows != [] && |row| == numCols && NonEmptyCount(row) == 1) ==>
              AddRow(rows, row, numCols) == rows + [row]
  {
  }

  /** Every row keeps the column count: rows of `numCols` cells stay so. */
  lemma AddRowWidth(rows: seq<seq<string>>, row: seq<string>, numCols: nat)
    requires forall k :: 0 <= k < |rows| ==> |rows[k]| == numCols
    requires |row| == numCols
    ensures forall k :: 0 <= k < |AddRow(rows, row, numCols)| ==> |AddRow(rows, row, numCols)[k]| == numCols
    ensures rows != [] ==> |AddRow(rows, row, numCols)| >= |rows|
    ensures |AddRow(rows, row, numCols)| <= |rows| + 1 && AddRow(rows, row, numCols) != []
  {
  }
}
