# Layout reconstruction of the PDF-to-DOCX converters

This project models the layout engine of two PDF-to-DOCX converters and proves
properties of that model in Dafny.

The custom converter (`pdf2docx_custom.py`) works in four steps:
- `LayoutAnalyzer.group_into_lines` groups a page's positioned text blocks into lines.
- `merge_line_blocks` merges each line into one block.
- `classify_heading` classifies each merged block as body text or a heading level, using the page's average font size.
- The page's paragraphs are emitted, then its images, then a page break unless the page is the last.

The advanced converter (`pdf2docx_advanced.py`) works as follows:
- `TableDetector.detect_tables` buckets a page's text lines by rounded y and walks the sorted keys with a cursor.
- `_is_table_header` recognises a header: at least three spans, all bold, and a column gap.
- `_extract_table` builds the table from a header:
  - it clusters the following keys into rows;
  - it accepts rows while they align with the column anchors (`_is_table_row`);
  - it deals their spans into the nearest column (`_extract_row_cells`);
  - it folds a row that has a single non-blank cell into the row before it.
- The page loop of `convert` then suppresses the lines inside a table's vertical range. It emits each table once, at a line near the table's start, emits the remaining lines in order, and puts page breaks between pages.

## How the model is built

- The modules follow the source:
  - `Common`, `Strings` and `Sorting`: Python's `abs`, `str.strip`, `' '.join` and stable `sorted`.
  - `Formatting`: flag and colour decoding.
  - `LayoutAnalyzer` and `CustomConverter`: the custom converter.
  - `Spans`, `TableRows`, `TableExtraction`, `TableDetector` and `AdvancedConverter`: the advanced converter.
  - `Pagination`: the page-break rule shared by both converters.
- Each loop of the source that changes state step by step is a `method` with its own loop, proved equal to a specification function. The functions are written as prefix folds: the state after the first `k` items. Examples are `GroupIntoLines`, `MergeLineBlocks`, `GroupRows`, `ScanRows`, `ExtractRowCells`, `DetectTables` and both `Convert` methods. The properties the source promises are proved as lemmas about those functions. Loops that only test or aggregate are recursive functions and predicates: the loops of `_is_table_header` (`IsTableHeader`, `AllBold`, `HasWideGap`) and `_is_table_row` (`IsTableRow`, `NearAnchor`), the `sum` expressions (`SumFontSizes`, `NonEmptyCount`) and the `max` of heights (`MaxHeight`).
- The DOCX document is modelled as the sequence of elements handed to the generator:
  - paragraph with heading level, picture and page break for the custom converter;
  - text line, table and page break for the advanced converter.
- Coordinates and font sizes are `real`. Flags and packed colours are `int`. Dafny's `/` and `%` with a positive divisor agree with Python's `>>` and `&` on every integer, negative ones included.

## Model

| member | source | states |
|---|---|---|
| Formatting.SettingBoldBit | pdf2docx_custom.py:33-35 | bold is exactly flag bit 4: setting it makes a block bold and leaves italic unchanged |
| Formatting.SettingItalicBit | pdf2docx_custom.py:37-39 | italic is exactly flag bit 1: setting it makes a block italic and leaves bold unchanged |
| Formatting.DecodeColor | pdf2docx_custom.py:200-206 | the decoded components repack to the colour integer modulo 2^24, so red, green and blue are bits 16-23, 8-15 and 0-7; a non-integer colour gives black |
| Formatting.DecodePackRoundTrip | pdf2docx_advanced.py:100-106 | decoding the packed integer of any colour gives that colour back |
| Common.Abs | pdf2docx_advanced.py:271 | `abs` is non-negative and equals x or -x |
| Sorting.SortBy | pdf2docx_custom.py:84 | `sorted` returns an ordered permutation of its input |
| Sorting.SortByStable | pdf2docx_advanced.py:248 | the sort is stable: for every element, the elements ranked equal to it appear in the same order as in the input |
| Strings.TrimStartSpec | pdf2docx_advanced.py:250 | `lstrip` leaves the suffix after a run of whitespace, and that suffix does not start with whitespace |
| Strings.TrimEndSpec | pdf2docx_advanced.py:250 | `rstrip` leaves the prefix before a run of whitespace, and that prefix does not end with whitespace |
| Strings.StripIsTrimmedSlice | pdf2docx_advanced.py:250 | `strip` returns a slice of the input with only whitespace before and after it, whose ends are not whitespace |
| Strings.StripEmptyIffBlank | pdf2docx_advanced.py:309-314 | a string is blank after stripping exactly when all of its characters are whitespace |
| Strings.StripIdempotent | pdf2docx_advanced.py:367-369 | stripping a stripped text changes nothing |
| Strings.JoinCellsOfNonEmpty | pdf2docx_advanced.py:367-369 | appending non-empty texts to an empty cell, space-separated, gives `' '.join` of the texts |
| LayoutAnalyzer.MinY | pdf2docx_custom.py:84-91 | the smallest y of a non-empty line is attained by one of its blocks |
| LayoutAnalyzer.SweepLines | pdf2docx_custom.py:86-99 | the sweep loop over the (y, x)-sorted blocks computes the sweep specification |
| LayoutAnalyzer.SweepFlatten | pdf2docx_custom.py:86-99 | the sweep keeps every block, in order: its lines concatenated give back the sorted blocks |
| LayoutAnalyzer.SweepBands | pdf2docx_custom.py:84-99 | on (y, x)-sorted blocks, every block of a swept line lies in [anchor.y, anchor.y + tolerance_y] for the line's first block, and consecutive anchors ascend by more than tolerance_y |
| LayoutAnalyzer.SortEachLine | pdf2docx_custom.py:101-103 | after sorting each line in place, every line is the x-sorted permutation of the swept line |
| LayoutAnalyzer.GroupIntoLines | pdf2docx_custom.py:78-105 | `group_into_lines` returns [] for no blocks; otherwise each line is x-sorted, the lines hold every input block exactly once (multiset equality), and the lines are banded around their smallest y |
| LayoutAnalyzer.GroupedLinesProperties | pdf2docx_custom.py:78-105 | the grouped lines are empty iff the input is, each line is x-sorted, the lines partition the blocks, and each line lies within tolerance_y above its anchor's y with anchors more than tolerance_y apart |
| LayoutAnalyzer.GroupedLinesNonEmpty | pdf2docx_custom.py:86-99 | no grouped line is empty, whatever the tolerance |
| LayoutAnalyzer.MergeLineBlocks | pdf2docx_custom.py:107-145 | the merging loop computes the merge specification `Merged` |
| LayoutAnalyzer.MergedProperties | pdf2docx_custom.py:107-145 | None exactly for an empty line; a single block is returned unchanged; otherwise the merged block has the merged text, the first block's x, y, font, size, flags, colour and page, the last block's right edge and the maximum height |
| LayoutAnalyzer.MergedTextLength | pdf2docx_custom.py:116-128 | the merged text is the texts' lengths plus exactly one space per gap wider than 2 |
| LayoutAnalyzer.MergedTextWithoutGaps | pdf2docx_custom.py:116-128 | a line whose gaps are all at most 2 merges to the plain concatenation of its texts |
| LayoutAnalyzer.MaxHeight | pdf2docx_custom.py:139 | the merged height bounds every block's height and is attained by one of them |
| LayoutAnalyzer.ClassifyHeading | pdf2docx_custom.py:159-168 | the heading level is in {0, 1, 2, 3} |
| LayoutAnalyzer.HeadingBands | pdf2docx_custom.py:159-168 | for a positive average, each level is exactly its font-size band between the inclusive thresholds 1.15, 1.3 and 1.5 times the average |
| LayoutAnalyzer.HeadingMonotone | pdf2docx_custom.py:159-168 | a larger font never gets a less prominent heading rank |
| LayoutAnalyzer.AverageWithinSizes | pdf2docx_custom.py:369 | the page average font size lies between the smallest and the largest font size on the page |
| LayoutAnalyzer.UniformPageHasNoHeadings | pdf2docx_custom.py:369 | on a page set in one positive size, no block is classified as a heading |
| CustomConverter.EmitParagraphs | pdf2docx_custom.py:375-380 | the line loop emits the paragraph specification for the page's lines |
| CustomConverter.EmitPictures | pdf2docx_custom.py:382-384 | the image loop emits one picture per image, in order |
| CustomConverter.EmitPage | pdf2docx_custom.py:368-384 | one page emits its paragraphs followed by its pictures |
| CustomConverter.EmitPageAt | pdf2docx_custom.py:368-388 | the page-loop body appends the page's elements and a page break unless the page is the last |
| CustomConverter.EmitPages | pdf2docx_custom.py:341-388 | the page loop emits every page's elements, each followed by a page break except the last |
| CustomConverter.Convert | pdf2docx_custom.py:341-388 | `convert`, whose analyzer is built with the default tolerance_y of 3.0, emits the paginated flow of the pages' elements |
| CustomConverter.PageOutputLayout | pdf2docx_custom.py:375-384 | non-empty lines give one paragraph per line, in order: the merged line with its heading level (at most 3). Then come one picture per image, so every image follows all of the page's text |
| CustomConverter.ImageOnlyPage | pdf2docx_custom.py:369-384 | a page without text blocks contributes only its pictures |
| CustomConverter.UniformPageParagraphs | pdf2docx_custom.py:369-380 | on a page set in one positive font size every paragraph is at level 0 |
| CustomConverter.FirstBlocksFromPage | pdf2docx_custom.py:372 | every grouped line is non-empty and its first block is one of the page's blocks |
| CustomConverter.DocumentPageBreaks | pdf2docx_custom.py:386-388 | n >= 1 pages get exactly n - 1 page breaks, one between neighbouring pages, and the flow ends with the last page's elements |
| Pagination.PaginatedIsSeparated | pdf2docx_advanced.py:488-490 | the flow after the page loop is the pages separated by single page breaks |
| Pagination.SeparatedBreaks | pdf2docx_advanced.py:488-490 | pages free of page breaks get exactly one fewer page break than pages, and the flow ends with the last page |
| TableRows.TableRowAlignment | pdf2docx_advanced.py:336-349 | a row is accepted iff some span lies strictly within 30 of some column anchor |
| TableRows.Nearest | pdf2docx_advanced.py:356-364 | the chosen column minimises the distance to the span's x, and every lower-indexed column is strictly farther (ties go to the lowest index) |
| TableRows.NearestColumn | pdf2docx_advanced.py:356-364 | the running-minimum loop finds the nearest column |
| TableRows.ExtractRowCells | pdf2docx_advanced.py:351-371 | `_extract_row_cells` returns exactly one cell per column, as specified by dealing spans to their nearest column |
| TableRows.RowCellsByColumn | pdf2docx_advanced.py:351-371 | each cell is its column's stripped span texts in span order, joined with single spaces when none is blank |
| TableRows.SingleNonEmpty | pdf2docx_advanced.py:309-310 | a non-blank count of one names the one cell that is non-blank after stripping |
| TableRows.FoldOneCell | pdf2docx_advanced.py:309-316 | folding a row with exactly one non-blank cell appends it, space-joined, to that column of the previous row and changes no other column |
| TableRows.AddRowEffect | pdf2docx_advanced.py:305-322 | with a previous row and exactly one non-blank cell, the row count stays the same and only the last row changes (by the fold). Any other accepted row is appended as exactly one new row |
| TableRows.AddRowWidth | pdf2docx_advanced.py:303-322 | every row keeps exactly one cell per column; the row count grows by at most one and the rows are non-empty |
| TableExtraction.HeaderCriteria | pdf2docx_advanced.py:194-232 | lines form a header iff their spans number at least 3, are all bold, and have an x-sorted neighbour gap strictly greater than 5 |
| TableExtraction.CollectSpans | pdf2docx_advanced.py:243-246 | gathering the spans of lines gives all their spans, line after line |
| TableExtraction.GroupRows | pdf2docx_advanced.py:256-288 | the clustering loop computes the row-group specification, including the cutoff break and the last open row |
| TableExtraction.Cutoff | pdf2docx_advanced.py:283-284 | the keys read are those up to and including the first key with lines more than 200 past the header |
| TableExtraction.GroupedPartition | pdf2docx_advanced.py:256-288 | the row groups hold exactly the lines of the keys read, each once and in key order, including the key that ends the scan |
| TableExtraction.GroupedStops | pdf2docx_advanced.py:283-284 | the clustering stops exactly when the last key read is more than 200 past the header |
| TableExtraction.RowGroupBands | pdf2docx_advanced.py:266-281 | for ascending keys each group starts at a key more than 2 after the previous group's, and every line of a group comes from a key at most 2 after its first key |
| TableExtraction.AcceptedSpec | pdf2docx_advanced.py:293-300 | the accepted prefix of groups all align with the columns, and the group after it does not |
| TableExtraction.RowStepEffect | pdf2docx_advanced.py:293-324 | once stopped nothing changes; a row that does not align stops the table and changes nothing else; an aligned row sets y_end to its key and adds at most one row |
| TableExtraction.ScanRows | pdf2docx_advanced.py:290-324 | the row loop computes the rows and y_end of the scan specification, breaking at the first unaligned row |
| TableExtraction.ScannedStops | pdf2docx_advanced.py:299-300 | rows and y_end come from the accepted prefix only; the scan stopped iff some group was rejected |
| TableExtraction.ScannedRowCount | pdf2docx_advanced.py:303-322 | there is at most one row per accepted group, and no rows exactly when no group is accepted |
| TableExtraction.ScannedYEnd | pdf2docx_advanced.py:324 | y_end is the last accepted group's key, or the header key when none is accepted |
| TableExtraction.ExtractTable | pdf2docx_advanced.py:234-334 | `_extract_table` computes the extracted-table specification |
| TableExtraction.ExtractedTableNone | pdf2docx_advanced.py:236-237 | None exactly when there are no keys or no group after the header aligns |
| TableExtraction.ExtractedTableShape | pdf2docx_advanced.py:243-334 | a returned table starts at the header key. Its headers are the stripped texts of the x-sorted header spans, and those spans' x values are the anchors. It has between one row and one row per accepted group, and every row has one cell per header |
| TableExtraction.ExtractedTableRange | pdf2docx_advanced.py:324-334 | with ascending keys, a returned table ends strictly below its start |
| TableExtraction.ExtractedAtHeader | pdf2docx_advanced.py:175-190 | a table extracted at a header key starts there, has at least 3 columns and at least one row, one cell per column in every row, and y_start < y_end |
| TableDetector.RoundTenthBounds | pdf2docx_advanced.py:169 | the key is a whole number of tenths within half a tenth of y |
| TableDetector.GroupByKeyContents | pdf2docx_advanced.py:167-170 | each key holds exactly the lines whose y rounds to it, in page order, and the keys are exactly the rounded y values |
| TableDetector.KeyOrder | pdf2docx_advanced.py:173 | the sorted keys strictly ascend and are exactly the dictionary's keys |
| TableDetector.SortKeys | pdf2docx_advanced.py:173 | sorting distinct keys gives a strictly ascending sequence of the same keys |
| TableDetector.Advance | pdf2docx_advanced.py:185-190 | the cursor moves strictly forward, skipping a table's row count plus one after a table, or one key otherwise |
| TableDetector.ScanKeys | pdf2docx_advanced.py:175-190 | the cursor loop collects the cursor specification's tables |
| TableDetector.DetectTables | pdf2docx_advanced.py:162-192 | `detect_tables` returns the detected-tables specification |
| TableDetector.FoundAt | pdf2docx_advanced.py:183-187 | a table found at a key starts at that key and is well formed, so the cursor advances by at least 2 |
| TableDetector.CursorIndexed | pdf2docx_advanced.py:175-190 | each collected table is the one extracted at a distinct collected key index |
| TableDetector.CursorIndicesAscend | pdf2docx_advanced.py:175-190 | the collected key indices strictly ascend |
| TableDetector.DetectedTables | pdf2docx_advanced.py:162-192 | returned tables have strictly ascending y_start at keys of the page; each has at least 3 columns, at least one row of one cell per column, and ends below its start |
| AdvancedConverter.FirstContaining | pdf2docx_advanced.py:470-475 | the index found is the first table whose [y_start, y_end] holds y, or none holds it |
| AdvancedConverter.FindTable | pdf2docx_advanced.py:470-475 | the inner `for`/`break` loop finds the first table range holding the line |
| AdvancedConverter.EmitLines | pdf2docx_advanced.py:466-486 | the line loop emits the page-flow specification, with `tables_added` as a set of indices |
| AdvancedConverter.EmitPage | pdf2docx_advanced.py:459-486 | one page detects its tables and runs the line loop |
| AdvancedConverter.EmitPageAt | pdf2docx_advanced.py:459-490 | the page-loop body appends the page's elements and a page break unless the page is the last |
| AdvancedConverter.EmitPages | pdf2docx_advanced.py:441-490 | the page loop emits every page's elements, each followed by a page break except the last |
| AdvancedConverter.Convert | pdf2docx_advanced.py:441-490 | `convert` emits the paginated flow of the pages' elements |
| AdvancedConverter.TextsAreOutside | pdf2docx_advanced.py:469-486 | the lines emitted as text are exactly the lines outside every table range, in page order |
| AdvancedConverter.OutsideLines | pdf2docx_advanced.py:484-486 | every emitted text line is a line of the page lying in no table range |
| AdvancedConverter.AddedStep | pdf2docx_advanced.py:477-482 | a line adds a table index exactly when the line is attributed to that table and lies within 1.0 of its start; added indices stay added |
| AdvancedConverter.AddedIffNearStart | pdf2docx_advanced.py:469-486 | a table is added exactly when some line attributed to it lies within 1.0 of its y_start |
| AdvancedConverter.EmittedOnce | pdf2docx_advanced.py:477-482 | with distinct tables, each table occurs once in the flow if added and not at all otherwise |
| AdvancedConverter.FlowPrefix | pdf2docx_advanced.py:469-486 | the line loop only appends: the flow after some of the lines is a prefix of the flow after all of them |
| AdvancedConverter.TablePlacement | pdf2docx_advanced.py:477-482 | at the first line attributed to table i within 1.0 of its start, the flow is the flow of the earlier lines, then table i, then elements that never repeat it; the earlier flow holds no copy of the table and its texts are the earlier lines outside every range |
| AdvancedConverter.NoBreakInPage | pdf2docx_advanced.py:469-486 | a page's own elements hold no page break |
| AdvancedConverter.PageLayout | pdf2docx_advanced.py:459-486 | per page, the text lines are the lines outside every detected table, in order. Each detected table appears once if a line attributed to it lies within 1.0 of its start, and not at all otherwise |
| AdvancedConverter.PageTablePlacement | pdf2docx_advanced.py:459-486 | on each page, a detected table sits right after the elements of the lines before the first line attributed to it within 1.0 of its start, and nowhere else |
| AdvancedConverter.DocumentPageBreaks | pdf2docx_advanced.py:488-490 | the flow is the pages separated by single page breaks: n >= 1 pages get n - 1 breaks |

## Left out

- Text extraction with PyMuPDF (`PDFExtractor`, `AdvancedPDFExtractor`) is left out because it is a foreign library. The model takes the blocks, spans, lines and images as input. Only the pure flag and colour decoding is modelled.
- DOCX generation with python-docx (`DOCXGenerator`, `AdvancedDOCXGenerator`, styles, margins, image scaling with PIL) is left out because it is a foreign library. The model records the sequence of generator calls instead.
- Floating point is not modelled: coordinates and sizes are exact reals.
- `round(line.y, 1)` is modelled as rounding halves upwards on reals. Python rounds binary floats half to even, and the two can differ at exact halves.
- `LayoutAnalyzer.detect_table` is left out because it always returns `None` and nothing calls it. `tolerance_x` is left out because nothing reads it.
- `TableStructure.has_header_bg` is always false, and the extracted drawings are never used.
- The custom converter's y-sorted `elements` list is left out because nothing reads it after it is built.
- The advanced converter extracts images but never emits them. The model follows the code and emits no images in that converter.
- pdf_utils.py (ReportLab, pypdf and PIL wrappers) and the HTTP/command-line entry points in api.py and main.py are not part of this model.
- Progress messages (`print`), file paths, `save` and `close` are left out because they are I/O.
- The iteration order of the `y_groups` dictionary only feeds `sorted`. The model therefore keeps the keys in first-seen order before sorting them.
- LayoutAnalyzer.ClassifyHeading: the level numbers are not monotone in font size (they run 0, 3, 2, 1 as the font grows). Monotonicity is therefore stated for the heading rank (`HeadingMonotone`), not for the level number.
- TableRows.FoldOneCell: the fold is stated for the single non-blank cell only. The rule applies whatever the previous cell held, so it is not claimed that a folded row keeps its count of non-blank cells.
- Strings.IsSpace covers Python's `str.isspace` for the code points a `char` holds. No Unicode normalisation is modelled.
