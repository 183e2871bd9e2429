/** `TableDetector.detect_tables` (pdf2docx_advanced.py): the page's lines are
    bucketed by their y rounded to one decimal, the keys are sorted, and a
    cursor walks the keys; at a header key a table is extracted and the cursor
    skips one key per table row plus the header. */
module TableDetector {
  import opened Common
  import opened Sorting
  import opened Spans
  import opened TableExtraction

  /** `round(y, 1)`, with halves rounded up. */
  function RoundTenth(y: real): real {
    ((y * 10.0 + 0.5).Floor as real) / 10.0
  }

  /** The key is a whole number of tenths, at most half a tenth from `y`. */
  lemma RoundTenthBounds(y: real)
    ensures y - 0.05 < RoundTenth(y) <= y + 0.05
    ensures (RoundTenth(y) * 10.0).Floor as real == RoundTenth(y) * 10.0
  {
  }

  /** The `y_groups` dictionary after the lines `lines`. */
  function GroupByKey(lines: seq<TextLine>): YGroups {
    if lines == [] then map[]
    else
      var groups := GroupByKey(lines[..|lines| - 1]);
      var line := lines[|lines| - 1];
      var key := RoundTenth(line.y);
      groups[key := Lookup(groups, key) + [line]]
  }

  /** The lines whose y rounds to `key`, in page order. */
  function LinesAt(lines: seq<TextLine>, key: real): seq<TextLine> {
    if lines == [] then []
    else
      var line := lines[|lines| - 1];
      LinesAt(lines[..|lines| - 1], key) + (if RoundTenth(line.y) == key then [line] else [])
  }

  /** Each key holds exactly the lines whose y rounds to it, in page order, and
      the keys are exactly the rounded y values of the lines. */
  lemma {:induction false} GroupByKeyContents(lines: seq<TextLine>, key: real)
    ensures Lookup(GroupByKey(lines), key) == LinesAt(lines, key)
    ensures key in GroupByKey(lines) <==> exists k :: 0 <= k < |lines| && RoundTenth(lines[k].y) == key
  {
    if lines != [] {
      var init := lines[..|lines| - 1];
      GroupByKeyContents(init, key);
      if exists k :: 0 <= k < |init| && RoundTenth(init[k].y) == key {
        var k :| 0 <= k < |init| && RoundTenth(init[k].y) == key;
        assert lines[k] == init[k];
      }
      if exists k :: 0 <= k < |lines| && RoundTenth(lines[k].y) == key {
        var k :| 0 <= k < |lines| && RoundTenth(lines[k].y) == key;
        if k < |init| {
          assert init[k] == lines[k];
        }
      }
    }
  }

  /** The keys in ascending order: `sorted(y_groups.keys())`. */
  function KeyOrder(lines: seq<TextLine>): (keys: seq<real>)
    ensures Increasing(keys)
    ensures forall y :: y in keys <==> y in GroupByKey(lines)
  {
    if lines == [] then []
    else
      var keys := KeyOrder(lines[..|lines| - 1]);
      var key := RoundTenth(lines[|lines| - 1].y);
      if key in keys then keys else InsertKey(keys, key)
  }

  /** The table a header key yields, if any: `None` when the key's lines are no
      header or no row is accepted below it. */
  function TableAt(keys: seq<real>, yGroups: YGroups, i: nat): Option<TableStructure>
    requires i < |keys|
  {
    if IsTableHeader(Lookup(yGroups, keys[i])) then ExtractedTable(keys[i..], yGroups) else None
  }

  /** What each of the first `n` key indices yields. */
  function Found(keys: seq<real>, yGroups: YGroups, n: nat): (found: seq<Option<TableStructure>>)
    requires n <= |keys|
    ensures |found| == n
  {
    if n == 0 then [] else Found(keys, yGroups, n - 1) + [TableAt(keys, yGroups, n - 1)]
  }

  lemma {:induction false} FoundIndex(keys: seq<real>, yGroups: YGroups, n: nat, i: nat)
    requires i < n <= |keys|
    ensures Found(keys, yGroups, n)[i] == TableAt(keys, yGroups, i)
    decreases n
  {
    var init, last := Found(keys, yGroups, n - 1), TableAt(keys, yGroups, n - 1);
    var all := Found(keys, yGroups, n);
    assert all == init + [last];
    AppendIndex(init, last, i);
    if i < n - 1 {
      FoundIndex(keys, yGroups, n - 1, i);
      assert all[i] == init[i];
    } else {
      assert all[i] == last;
    }
  }

  /** The tables collected by the cursor from index `i` on: after a table the
      cursor skips its row count plus one, otherwise one key. */
  function Cursor(found: seq<Option<TableStructure>>, i: nat): seq<TableStructure>
    decreases |found| - i
  {
    if i >= |found| then []
    else if found[i].Some? then [found[i].value] + Cursor(found, i + |found[i].value.rows| + 1)
    else Cursor(found, i + 1)
  }

  /** One move of the cursor. */
  lemma CursorStep(found: seq<Option<TableStructure>>, i: nat)
    requires i < |found|
    ensures found[i].Some? ==> Cursor(found, i) == [found[i].value] + Cursor(found, i + |found[i].value.rows| + 1)
    ensures found[i].None? ==> Cursor(found, i) == Cursor(found, i + 1)
  {
  }

  /** What `detect_tables` returns for a page's lines. */
  function Detected(lines: seq<TextLine>): seq<TableStructure> {
    Cursor(Found(KeyOrder(lines), GroupByKey(lines), |KeyOrder(lines)|), 0)
  }

  // ---------------------------------------------------------------------------
  // The method

  predicate Distinct(s: seq<real>) {
    forall a, b :: 0 <= a < b < |s| ==> s[a] != s[b]
  }

  /** `sorted(keys)`: each key inserted in turn into an ascending sequence. */
  method SortKeys(keys: seq<real>) returns (sorted: seq<real>)
    requires Distinct(keys)
    ensures Increasing(sorted)
    ensures forall y :: y in sorted <==> y in keys
  {
    sorted := [];
    for i := 0 to |keys|
      invariant Increasing(sorted)
      invariant forall y :: y in sorted <==> y in keys[..i]
    {
      assert keys[..i + 1] == keys[..i] + [keys[i]];
      sorted := InsertKey(sorted, keys[i]);
    }
    assert keys[..|keys|] == keys;
  }

  /** `detect_tables`. `order` is the dictionary's own key order, the order in
      which keys were first met. */
  method DetectTables(lines: seq<TextLine>) returns (tables: seq<TableStructure>)
    ensures tables == Detected(lines)
  {
    var yGroups: YGroups := map[];
    var order: seq<real> := [];
    for k := 0 to |lines|
      invariant yGroups == GroupByKey(lines[..k])
      invariant Distinct(order) && forall y :: y in order <==> y in yGroups
    {
      var line := lines[k];
      var yKey := RoundTenth(line.y);
      assert lines[..k + 1][..k] == lines[..k];
      if yKey !in yGroups {
        order := order + [yKey];
      }
      yGroups := yGroups[yKey := Lookup(yGroups, yKey) + [line]];
    }
    assert lines[..|lines|] == lines;
    var sortedYs := SortKeys(order);
    IncreasingUnique(sortedYs, KeyOrder(lines));
    ghost var found := Found(sortedYs, yGroups, |sortedYs|);
    forall j | 0 <= j < |found|
      ensures FoundRight(found, sortedYs, yGroups, j)
    {
      FoundIndex(sortedYs, yGroups, |sortedYs|, j);
    }
    tables := ScanKeys(sortedYs, yGroups, found);
  }

  /** `found[j]` is what key index `j` yields. */
  predicate FoundRight(found: seq<Option<TableStructure>>, keys: seq<real>, yGroups: YGroups, j: nat) {
    j < |found| == |keys| && found[j] == TableAt(keys, yGroups, j)
  }

  /** `found` lists what every key index yields. */
  predicate AllFound(found: seq<Option<TableStructure>>, keys: seq<real>, yGroups: YGroups) {
    |found| == |keys| && forall j :: 0 <= j < |found| ==> FoundRight(found, keys, yGroups, j)
  }

  /** The cursor loop of `detect_tables` over the sorted keys; `found` names, for
      the proof, what each key index yields. */
  method ScanKeys(sortedYs: seq<real>, yGroups: YGroups, ghost found: seq<Option<TableStructure>>)
    returns (tables: seq<TableStructure>)
    requires AllFound(found, sortedYs, yGroups)
    ensures tables == Cursor(found, 0)
  {
    tables := [];
    var i := 0;
    while i < |sortedYs|
      invariant tables + Cursor(found, i) == Cursor(found, 0)
      decreases |sortedYs| - i
    {
      tables, i := ScanStep(sortedYs, yGroups, found, tables, i);
    }
    assert tables == tables + [];
  }

  /** One pass of the cursor loop. */
  method ScanStep(sortedYs: seq<real>, yGroups: YGroups, ghost found: seq<Option<TableStructure>>,
                  tables: seq<TableStructure>, i: nat)
    returns (tables': seq<TableStructure>, next: nat)
    requires i < |sortedYs| && AllFound(found, sortedYs, yGroups)
    ensures next > i
    ensures tables' + Cursor(found, next) == tables + Cursor(found, i)
  {
    var table := TableAtKey(sortedYs, yGroups, i, found);
    next := Advance(found, i, table);
    tables' := tables;
    if table.Some? {
      tables' := tables + [table.value];
    }
  }

  /** Where the cursor goes from `i`: past the table's rows and header, or to
      the next key. */
  method Advance(ghost found: seq<Option<TableStructure>>, i: nat, table: Option<TableStructure>)
    returns (next: nat)
    requires i < |found| && table == found[i]
    ensures next > i
    ensures Cursor(found, i) == (if table.Some? then [table.value] else []) + Cursor(found, next)
  {
    CursorStep(found, i);
    if table.Some? {
      next := i + |table.value.rows| + 1;
    } else {
      next := i + 1;
    }
  }

  /** The body of the cursor loop: the table at key index `i`, if any. */
  method TableAtKey(sortedYs: seq<real>, yGroups: YGroups, i: nat, ghost found: seq<Option<TableStructure>>)
    returns (table: Option<TableStructure>)
    requires i < |sortedYs| && AllFound(found, sortedYs, yGroups)
    ensures table == found[i]
  {
    assert FoundRight(found, sortedYs, yGroups, i);
    var y := sortedYs[i];
    var currentLines := Lookup(yGroups, y);
    table := None;
    if IsTableHeader(currentLines) {
      table := ExtractTable(sortedYs[i..], yGroups);
    }
  }

  // ---------------------------------------------------------------------------
  // Properties

  /** A table found at key index `i` over ascending keys starts at that key and
      is well formed, so the cursor moves on by at least two keys (the header and
      at least one row); without a table it moves on by one. */
  lemma FoundAt(keys: seq<real>, yGroups: YGroups, i: nat)
    requires Increasing(keys) && i < |keys| && TableAt(keys, yGroups, i).Some?
    ensures TableAt(keys, yGroups, i).value.yStart == keys[i]
    ensures WellFormed(TableAt(keys, yGroups, i).value)
    ensures |TableAt(keys, yGroups, i).value.rows| + 1 >= 2
  {
    var tail := keys[i..];
    assert tail[0] == keys[i];
    assert Increasing(tail);
    ExtractedAtHeader(tail, yGroups);
  }

  /** The key indices at which the cursor collects its tables, from index `i` on. */
  function CursorIndices(found: seq<Option<TableStructure>>, i: nat): seq<nat>
    decreases |found| - i
  {
    if i >= |found| then []
    else if found[i].Some? then [i] + CursorIndices(found, i + |found[i].value.rows| + 1)
    else CursorIndices(found, i + 1)
  }

  /** One collected table per collected index. */
  lemma {:induction false} CursorIndicesLength(found: seq<Option<TableStructure>>, i: nat)
    ensures |CursorIndices(found, i)| == |Cursor(found, i)|
    decreases |found| - i
  {
    if i < |found| {
      if found[i].Some? {
        CursorIndicesLength(found, i + |found[i].value.rows| + 1);
      } else {
        CursorIndicesLength(found, i + 1);
      }
    }
  }

  /** The `a`-th collected table is the one found at the `a`-th collected index,
      which lies at or after `i`. */
  lemma {:induction false} CursorIndexed(found: seq<Option<TableStructure>>, i: nat)
    ensures |CursorIndices(found, i)| == |Cursor(found, i)|
    ensures forall a :: 0 <= a < |Cursor(found, i)| ==>
              i <= CursorIndices(found, i)[a] < |found|
              && found[CursorIndices(found, i)[a]] == Some(Cursor(found, i)[a])
    decreases |found| - i
  {
    CursorIndicesLength(found, i);
    if i < |found| {
      if found[i].Some? {
        var next := i + |found[i].value.rows| + 1;
        CursorIndexed(found, next);
        var ts, rest := Cursor(found, i), Cursor(found, next);
        var idx, restIdx := CursorIndices(found, i), CursorIndices(found, next);
        assert ts == [found[i].value] + rest;
        assert idx == [i] + restIdx;
        forall a | 0 <= a < |ts|
          ensures i <= idx[a] < |found| && found[idx[a]] == Some(ts[a])
        {
          if a > 0 {
            assert ts[a] == rest[a - 1] && idx[a] == restIdx[a - 1];
          }
        }
      } else {
        CursorIndexed(found, i + 1);
      }
    }
  }

  /** The collected indices lie at or after `i` and strictly ascend. */
  lemma {:induction false} CursorIndicesAscend(found: seq<Option<TableStructure>>, i: nat)
    ensures forall a :: 0 <= a < |CursorIndices(found, i)| ==> i <= CursorIndices(found, i)[a]
    ensures forall a, b :: 0 <= a < b < |CursorIndices(found, i)| ==>
              CursorIndices(found, i)[a] < CursorIndices(found, i)[b]
    decreases |found| - i
  {
    if i < |found| {
      if found[i].Some? {
        var next := i + |found[i].value.rows| + 1;
        CursorIndicesAscend(found, next);
        var idx, restIdx := CursorIndices(found, i), CursorIndices(found, next);
        assert idx == [i] + restIdx;
        forall a, b | 0 <= a < b < |idx|
          ensures idx[a] < idx[b]
        {
          assert idx[b] == restIdx[b - 1];
          if a > 0 {
            assert idx[a] == restIdx[a - 1];
          }
        }
      } else {
        CursorIndicesAscend(found, i + 1);
      }
    }
  }

  /** The tables `detect_tables` returns start at strictly ascending keys of the
      page; each has at least three columns, at least one row, exactly one cell
      per column in every row, and ends strictly below its start. */
  lemma DetectedTables(lines: seq<TextLine>)
    ensures var ts := Detected(lines);
            forall a, b :: 0 <= a < b < |ts| ==> ts[a].yStart < ts[b].yStart
    ensures forall t :: t in Detected(lines) ==> WellFormed(t) && t.yStart in GroupByKey(lines)
  {
    var keys := KeyOrder(lines);
    var groups := GroupByKey(lines);
    var found := Found(keys, groups, |keys|);
    var ts := Detected(lines);
    CursorIndexed(found, 0);
    CursorIndicesAscend(found, 0);
    var idx := CursorIndices(found, 0);
    forall a | 0 <= a < |ts|
      ensures ts[a].yStart == keys[idx[a]] && WellFormed(ts[a])
    {
      FoundIndex(keys, groups, |keys|, idx[a]);
      FoundAt(keys, groups, idx[a]);
    }
    forall t | t in ts
      ensures WellFormed(t) && t.yStart in groups
    {
      var a :| 0 <= a < |ts| && ts[a] == t;
      assert keys[idx[a]] in keys;
    }
  }
}
