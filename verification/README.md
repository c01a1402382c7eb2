# go-docx tables in Dafny

This project models the table core of go-docx, a Go library that reads and writes
WordprocessingML documents (ECMA-376 Part 1, section 17.4, "Tables"). Tables, rows,
cells, paragraphs and runs are immutable values. A Go pointer the table code may leave nil
is an `Option`; the one exception is the table's own properties, which every constructor
sets and which decoding dereferences unconditionally. A `Result` carries the errors the
modelled decoding loops raise, an integer that does not parse; the sub-decoders that are
parameters cannot fail. The model covers three parts:

- **Table building and structural edits** (`apitable.go`):
  - the three constructors;
  - the width rule, where the sign of the value picks "auto" or "dxa";
  - the border bitmask and the style-option bitmask (the `w:tblLook` switches and their
    four-digit hexadecimal `val`);
  - how the conditional-format descriptors (`w:cnfStyle`) are derived from the look;
  - `ColGrid`, which hands the grid widths out to the cells over their grid spans;
  - `Merge`, the rectangular merge with `w:gridSpan` and `w:vMerge`;
  - positional `AddRow` and `AddCell`.
- **Writing and reading tables** (`structtable.go`):
  - the tagging pass that `Table.MarshalXML` runs before encoding, with its row, cell and
    paragraph tags and the paragraph it adds to an empty cell;
  - the checks that decide when a property group writes nothing;
  - the attribute decoding of `w:tblLook` and `w:cnfStyle`, one digit character per flag;
  - the element loops of `Table`, `WTableRow`, `WTableRowProperties`, `WTableCell` and
    `WTableCellProperties` decoding, with the defaults they install.
- **Run text** (`apitext.go`): `AddText` splits a string on `'\n'` and `'\t'` into
  Text, Break and Tab children, and `AddTab` appends a lone tab run.

The modules follow the source files:

- `DocxTypes` holds the records.
- `Bits` holds the Go integer semantics the code relies on: bits of a two's-complement
  integer, truncating `%`, and `%04X`.
- `Seqs` holds sequence insertion and removal.
- `TableBuild` and `TableLayout` model `apitable.go`.
- `TableEmit` and `TableDecode` model `structtable.go`.
- `ParagraphText` models `apitext.go`.

Decoding works on an element tree `Element(name, attrs, children)` instead of an XML
token stream. The helpers that are not part of this model are parameters of the decoders
(`Decoders`):

- `GetInt`, the integer parser;
- `getAtt`, the attribute lookup;
- the decoders of paragraphs, cell borders, shading, table properties and the grid.

The model follows the code where it differs from what a reader might expect:

- `AddTable` leaves every cell "auto", whatever the table width.
- `Merge` compares columns with the running span count taken after each cell, so columns
  count from 1, and it needs `firstRow < lastRow`, so a merge within one row does nothing.
- `Merge` never recomputes widths.
- `ColGrid` sums plain integers and has no notion of "auto".
- `setConfStyle` only ever sets descriptors and never clears one.

## Model

| member | source | states |
|---|---|---|
| TableBuild.WidthOf | apitable.go:212-222 | the width keeps the value, and the type is "dxa" exactly when the value is positive and "auto" exactly when it is not |
| TableBuild.SetTableWidth | apitable.go:212-222 | `Table.Width` replaces only the table width; the other properties, the grid, the rows and the descriptors stay as they were |
| TableBuild.SetCellWidth | apitable.go:489-499 | `WTableCell.Width` replaces only the cell width; the other cell properties and the paragraphs stay as they were |
| TableBuild.Borders | apitable.go:166-209 | each of the six sides becomes the new border exactly when its bit (1, 2, 4, 8, 16, 32) is in `which` and keeps its old value otherwise; a table without borders starts from six empty sides; nothing outside the borders changes |
| TableBuild.SetSidesSpec | apitable.go:186-209 | the loop over the border bits equals the side-by-side definition, which sets a side exactly when its bit is present |
| TableBuild.SetSideBit | apitable.go:192-207 | one arm of the `switch which & f` sets the side of bit k when that bit is in `which` and changes nothing otherwise |
| TableBuild.BordersAll | apitable.go:177 | `TABLE_BORDER_ALL` (63) sets all six sides to the new border |
| TableBuild.ConfFlags | apitable.go:240-281 | a descriptor has twelve flags, in the `cnfStyle` order |
| TableBuild.DescriptorsWellFormed | apitable.go:240-281 | each derived descriptor has a 12-character `val` with a single '1' at its own position, that position's flag is 1 and every other flag is 0; the `none` descriptor is all zeros |
| TableBuild.OneHotWellFormed | apitable.go:240-281 | a descriptor whose `val` and flags are both one-hot at the same position has a `val` that agrees with its flags |
| TableBuild.SetConfStyle | apitable.go:240-281 | a first/last row or column descriptor is set when its look flag is 1, a band descriptor when its `noXBand` flag is 0; otherwise the old entry is kept; `none` is always set |
| TableBuild.SetConfStyleNeverClears | apitable.go:240-281 | a descriptor that exists before the derivation still exists after it |
| TableBuild.SetConfStylePreservesDerived | apitable.go:240-281 | if every existing entry is the canonical descriptor for its slot, this still holds afterwards, and `none` exists |
| TableBuild.LookBits | apitable.go:288 | `option ^ 0x0600` flips bits 9 and 10 and keeps every other bit |
| TableBuild.StyleLook | apitable.go:284-314 | the look `val` is the `%04X` of `option ^ 0x0600`; firstRow/lastRow/firstCol/lastCol are 1 exactly when their bit is in the option; noHBand/noVBand are 0 exactly when their band bit is requested |
| TableBuild.SetLookFlagBit | apitable.go:296-311 | one arm of the `switch option & opt` sets the look field of bit k (1 for the edges, 0 for the band switches) when that bit is in the option and changes nothing otherwise |
| TableBuild.SetLookFlagsUnroll | apitable.go:295-312 | the loop over the six option bits is the six switch arms applied in order |
| TableBuild.Style | apitable.go:284-314 | sets the style name and that look, derives the descriptors from the new look on top of the old ones, and changes nothing else |
| TableBuild.StyleDerivesRequested | apitable.go:284-314 | after `Style`, a descriptor exists exactly when its option bit was requested or it already existed; `none` always exists |
| TableBuild.StyleZeroLook | apitable.go:284-314 | with no option bits the look reads "0600" and both band switches are off |
| TableBuild.AutoRows | apitable.go:39-54 | `rows` rows, each with empty non-nil row properties and exactly `cols` cells whose only property is the width 0 "auto" |
| TableBuild.AddTable | apitable.go:33-77 | the rows of `AutoRows`, an empty grid, the table width rule, style "TableGrid", look "0600", and only the `none` descriptor |
| TableBuild.AddTableEmpty | apitable.go:79-94 | no rows, no grid, no width, style "TableGrid", look "0600" |
| TableBuild.SumPositive | apitable.go:107-118 | the fallback table width is non-negative and is 0 exactly when no column width is positive |
| TableBuild.AddTableTwips | apitable.go:99-164 | one row per height; a row has a height exactly when its height is positive; cell j has width `{colWidths[j], "dxa"}`; the grid holds nil where a width is not positive; the table width falls back to the sum of the positive widths |
| TableBuild.TwipsGrid | apitable.go:105-118 | the grid loop sets entry j to `colWidths[j]` exactly when that width is positive, leaves it nil otherwise, and totals the positive widths |
| TableBuild.TwipsGridFrom | apitable.go:105-118 | from column i on, the loop sets each positive width and keeps the other entries; the running total grows by the sum of the positive widths it visits |
| TableBuild.TwipsRow | apitable.go:120-139 | the row has a height exactly when its height is positive, and one "dxa" cell per column |
| TableLayout.ReWidthCells | apitable.go:336-352 | the inner `ColGrid` loop keeps the number of cells |
| TableLayout.NextCursor | apitable.go:341-350 | the grid cursor moves past the cell's positive span and never past the end of `w` |
| TableLayout.ReWidthCellsAt | apitable.go:336-352 | the k-th re-widthed cell starts at the sum of the earlier cells' positive spans, clipped to `len(w)` |
| TableLayout.ColGrid | apitable.go:319-355 | the grid becomes exactly `w`; the table width follows the width rule on `sum(w)`; the number of rows is kept, and so are each row's properties; each row's cells are re-widthed |
| TableLayout.ColGridCell | apitable.go:336-352 | a cell whose first grid column is inside `w` gets the width of the columns it spans, clipped to the end of `w`, as "dxa" exactly when that is positive; it keeps its other properties; a cell past the end of `w` is untouched |
| TableLayout.ColGridUnmerged | apitable.go:336-352 | in a row without spans, cell k gets `w[k]` |
| TableLayout.UnspannedAdvance | apitable.go:341-350 | without spans the cursor of cell k is k |
| TableLayout.ScanBoundary | apitable.go:430-442 | the scan keeps the last cell whose running span count equals the target |
| TableLayout.Boundary | apitable.go:430-442 | -1 exactly when no cell's running span count equals the target; otherwise the last such cell |
| TableLayout.RowBounds | apitable.go:426-449 | a row yields its start and end exactly when it has a cell ending at `firstCol` and one ending at `lastCol`; the start cell then ends at `firstCol` and the cell before the end at `lastCol` |
| TableLayout.MergeBoundsFit | apitable.go:426-449 | the bounds found for each row lie inside it and sit on the rectangle's columns; this needs only that each row's start cell has properties, the one cell per row the merge dereferences |
| TableLayout.CollectBounds | apitable.go:426-449 | the bounds of all rows are collected exactly when every row in the range is aligned, one entry per row |
| TableLayout.MergeBounds | apitable.go:423-449 | the merge proceeds exactly when the guard holds (rows present, `0 <= firstRow < lastRow < len`, `0 <= firstCol < lastCol`) and every row in the range is aligned; this is decided before any row changes |
| TableLayout.MergeRow | apitable.go:452-473 | the start cell gets the `vMerge` ("restart" on the first row, "" later) and, when `start < end`, the span `lastCol - firstCol + 1`; row properties and the earlier cells are kept; if `end == len` the row is cut to `start + 1` cells; otherwise `cells[:end]` is appended after the start cell (line 460) |
| TableLayout.MergedCell | apitable.go:454-471 | the start cell keeps its paragraphs and every property but the span and `vMerge`; `vMerge` is "restart" on the first row and "" later; the span becomes `lastCol - firstCol + 1` exactly when the row merges horizontally |
| TableLayout.Merge | apitable.go:422-476 | an unmet guard or a misaligned row leaves the table unchanged; otherwise each row in the range is merged at its own bounds, the rows outside the range are unchanged, and the properties, grid and descriptors are kept |
| TableLayout.MergeFromColumnZeroRejected | apitable.go:430-442 | with positive spans no cell ends at column 0, so a merge from `firstCol` 0 changes nothing |
| TableLayout.MergeUnitTable | apitable.go:452-473 | as written, merging columns 1-2 of two rows of three distinct single-column cells leaves the first row as the merged cell, the merged cell again and the second input cell; the third input cell is gone |
| TableLayout.MergeIntendedUnitTable | apitable.go:452-473 | with the intended step, the same merge leaves the merged cell followed by the third input cell |
| TableLayout.MergeDuplicatesCells | apitable.go:460 | as written, that merge leaves three cells covering 5 grid columns instead of 3: the merged cell twice and the second input cell, without the third; the intended merge leaves two cells covering 3, ending with the third input cell |
| TableLayout.MergeRowIntended | apitable.go:452-473 | the intended row merge replaces the cells `start..end` by the merged start cell |
| TableLayout.MergeRowIntendedKeepsColumns | apitable.go:452-473 | the intended row merge keeps the row's total span, removes `end - start - 1` cells and keeps the cells after `end` in order |
| TableLayout.MergeIntended | apitable.go:422-476 | the same guard and bounds as `Merge`, applying the intended row merge |
| TableLayout.MergeRowIntendedColumns | apitable.go:452-473 | one row merged as intended at bounds on the rectangle's columns keeps its total grid columns when its start cell had span 1 |
| TableLayout.MergeIntendedKeepsColumns | apitable.go:452-473 | on every merged row whose start cell had span 1, the intended merge keeps the row's total grid columns |
| TableLayout.TotalUpdate | apitable.go:452-473 | replacing a cell by one of the same span keeps the row's total span |
| TableLayout.AddRow | apitable.go:376-386 | the table gains exactly one row with non-nil empty properties and no cells, at the position or at the end; removing it gives back the old rows; nothing else changes |
| TableLayout.AddCell | apitable.go:407-417 | the row gains exactly one cell with non-nil empty properties, at the position or at the end; removing it gives back the old cells |
| Seqs.RemoveInsert | apitable.go:376-386 | removing an inserted element gives back the original sequence, so the other rows and cells keep their relative order |
| TableEmit.WithRowConf | structtable.go:91-95 | tagging a row creates empty row properties when there are none and changes only the conditional style |
| TableEmit.TagParagraphs | structtable.go:120-149 | every paragraph gets the tag and keeps its runs |
| TableEmit.TagRow | structtable.go:88-156 | one iteration of the row loop: each cell of the row gets its closed-form tag, the visual column starting at 0; when `oddHBand` exists and the row's parity matches `oddH`, the row gets it as its conditional style, created if needed, and keeps the rest of its properties; any other row keeps its properties |
| TableEmit.TagEdgeRows | structtable.go:158-170 | stamping the first and last rows never touches cells |
| TableEmit.TagRowsFrom | structtable.go:88-171 | the row loop keeps the number of rows and of cells in each row |
| TableEmit.TagCellsProperties | structtable.go:107-155 | every cell keeps a properties record through the pass |
| TableEmit.Marshal | structtable.go:73-176 | the table is emitted exactly when it has rows; a table without rows is left unchanged; properties, grid, descriptors and row and cell counts are kept |
| TableEmit.TagCellsFromSpec | structtable.go:107-155 | the cell loop gives each cell the closed-form tag, where the visual column is the sum of the earlier spans, a missing span counting as 1 |
| TableEmit.TagCellsFrom | structtable.go:98-156 | the literal cell loop keeps the number of cells |
| TableEmit.WithParagraph | structtable.go:102-104 | a cell without paragraphs gets exactly one empty paragraph; a cell with paragraphs is unchanged; the properties are kept |
| TableEmit.PendingStep | structtable.go:88-171 | one iteration of the row loop, followed by the first/last-row stamp, moves the invariant on by one row |
| TableEmit.TagRowsFromSpec | structtable.go:88-171 | the literal row loop ends in the closed form for every row |
| TableEmit.MarshalRows | structtable.go:88-171 | each row after the pass is the closed-form tagging of the input row |
| TableEmit.MarshalRowTag | structtable.go:79-95 | row 0 ends with `firstRow` if it exists; else the last row ends with `lastRow` if it exists; any other row (one not taken by the `firstRow`/`lastRow` stamp) whose parity matches `oddH` gets `oddHBand`; a row matching none of these keeps its properties; only the conditional style changes |
| TableEmit.MarshalCellTag | structtable.go:107-155 | every cell's tag is overwritten with the first-column, last-column or vertical-band descriptor, or nil, by position and visual column; the rest of the cell properties is kept |
| TableEmit.MarshalParagraphTag | structtable.go:120-149 | every cell ends with paragraphs; in a middle cell of a table with a first- or last-column style, every paragraph is tagged with `oddHBand` on a row of matching parity and with `none` otherwise; in any other cell the paragraphs are the input ones, or one empty paragraph if there were none |
| TableEmit.MarshalFillsParagraphs | structtable.go:103-105 | a cell without paragraphs gets exactly one empty paragraph; any other cell keeps its paragraphs and their runs |
| TableEmit.TagParagraphsTwice | structtable.go:120-149 | tagging paragraphs twice with the same tag is tagging them once |
| TableEmit.RowTaggedTwice | structtable.go:88-171 | a row already in closed form is a fixed point of the closed-form tagging |
| TableEmit.MarshalIdempotent | structtable.go:88-171 | running the pass on its own output gives the same table, so the tags stay the same and no paragraph is added |
| TableEmit.ConstructedTablesWriteProperties | structtable.go:238-244 | the table properties of built and styled tables are never empty, so `w:tblPr` is written |
| TableEmit.NewRowsAndCellsWriteNoProperties | structtable.go:597-603 | a new row's `w:trPr` and a new cell's `w:tcPr` write nothing |
| TableEmit.TableEmittedUnlessEmpty | structtable.go:238-244 | `w:tblPr` writes nothing exactly when every field is absent, so a table property that is set is written |
| TableEmit.RowEmittedUnlessEmpty | structtable.go:597-603 | `w:trPr` writes nothing exactly when height, justification and conditional style are all absent |
| TableEmit.CellEmittedUnlessEmpty | structtable.go:805-812 | `w:tcPr` writes nothing exactly when every cell property is absent |
| TableEmit.MarshalFirstRowWritesProperties | structtable.go:158-170 | with a first-row descriptor, row 0 always writes its `w:trPr` |
| TableEmit.MarshalPlainTable | structtable.go:73-176 | a table straight from `AddTable` is written with empty row properties and "auto" cells, each holding one empty paragraph |
| ParagraphText.Split | apitext.go:46-53 | `strings.Split` yields at least one piece |
| ParagraphText.SplitAvoids | apitext.go:46-53 | no piece contains the separator, nor any character absent from the string |
| ParagraphText.JoinSplit | apitext.go:46-53 | joining the pieces with the separator gives back the string |
| ParagraphText.SplitCount | apitext.go:46-53 | there is one piece more than there are separators |
| ParagraphText.InheritedRunProperties | apitext.go:65-74 | the new run copies `Lang` and `NoProof` from the paragraph's run properties when they exist, and has neither otherwise |
| ParagraphText.AddTab | apitext.go:26-38 | appends one run whose only child is a Tab, with empty properties; the paragraph keeps its earlier children and properties |
| ParagraphText.AddText | apitext.go:41-77 | appends exactly one run and returns it; `"\t"` gives the plain tab run; any other text gives a run with the inherited properties |
| ParagraphText.PieceChildrenText | apitext.go:50-58 | the children of one line read back as the line's pieces joined by tabs |
| ParagraphText.LineChildrenText | apitext.go:46-60 | the children of the lines read back as the lines joined by newlines |
| ParagraphText.TextChildrenText | apitext.go:46-60 | the children built for a text, read back, spell that text |
| ParagraphText.TextRoundTrip | apitext.go:41-77 | reading Text as its string, Tab as "\t" and Break as "\n", the new run's children spell the input exactly |
| ParagraphText.PieceChildrenClean | apitext.go:50-58 | the pieces of a line give no empty Text and no Text with a tab or newline |
| ParagraphText.LineChildrenClean | apitext.go:46-60 | the lines give no empty Text and no Text with a tab or newline |
| ParagraphText.TextPiecesClean | apitext.go:41-77 | no Text child of the new run is empty or contains '\n' or '\t' |
| ParagraphText.CountsOfFlatten | apitext.go:46-60 | in clean children, the tabs and newlines of the spelled text are exactly the Tab and Break children |
| ParagraphText.TextCounts | apitext.go:46-60 | the number of Break children is the number of '\n' in the text, and the number of Tab children is the number of '\t' |
| ParagraphText.LoneTabIgnoresLanguage | apitext.go:41-44 | `"\t"` takes the `AddTab` path and drops the paragraph's language, which other text inherits |
| Bits.AndBit | apitable.go:193 | `x & 2^k` is `2^k * ((x / 2^k) mod 2)`, which is `2^k` exactly when bit k is set and 0 exactly when it is not |
| Bits.FlipBit | apitable.go:288 | XOR with `2^k` flips bit k and keeps every other bit |
| Bits.GoMod | structtable.go:112 | Go's `%`: the remainder has the sign of the dividend, is smaller than m in magnitude, and differs from x by a multiple of m, which fixes its value |
| Bits.HexRoundTrip | apitable.go:290 | the hexadecimal digits of n read back as n |
| Bits.Hex04 | apitable.go:290 | `%04X` of a non-negative value has at least four hexadecimal digits |
| Bits.Hex04RoundTrip | apitable.go:290 | `%04X` of a non-negative value reads back as that value |
| TableDecode.LeadByte | structtable.go:448 | a character's first UTF-8 byte, which is the character itself below 0x80 |
| TableDecode.DigitFlag | structtable.go:441-461 | a flag is the first byte minus '0' in byte arithmetic, so "0" gives 0 and "1" gives 1 |
| TableDecode.LastValue | structtable.go:439-466 | an attribute's value is found only when it is not empty |
| TableDecode.LookAttr | structtable.go:441-461 | one attribute sets `val` or the flag of its own name, as a digit flag, when its value is not empty; every other field is kept |
| TableDecode.DecodeLook | structtable.go:439-466 | each look flag is the digit flag of the last non-empty attribute of its name, or keeps its default without one; `val` is the last non-empty `val`, copied verbatim |
| TableDecode.DecodeLookLastWins | structtable.go:439-466 | the decoded look, field by field, is the last non-empty attribute of each name or the default |
| TableDecode.LookRoundTrip | structtable.go:427-466 | writing a look with one-digit flags as attributes and reading them back gives the same look |
| TableDecode.ConfAttr | structtable.go:686-720 | one attribute sets `val` or the flag of its own name, as a digit flag, when its value is not empty; every other field is kept |
| TableDecode.DecodeConfStyle | structtable.go:684-723 | each `cnfStyle` flag is the digit flag of the last non-empty attribute of its name, or keeps its default without one; `val` is the last non-empty `val`, copied verbatim |
| TableDecode.ConfStyleFlagRoundTrip | structtable.go:666-723 | one flag of a written descriptor, if it is a single digit, reads back unchanged |
| TableDecode.ConfStyleValRoundTrip | structtable.go:666-723 | the `val` of a written descriptor reads back unchanged, empty or not |
| TableDecode.ConfStyleRoundTrip | structtable.go:666-723 | writing a descriptor with one-digit flags as attributes and reading them back gives the same descriptor |
| TableDecode.DecodeCellChildren | structtable.go:744-790 | a decoded cell keeps a properties record, and without a `w:tcPr` child it keeps the properties it started with |
| TableDecode.DecodeCell | structtable.go:744-790 | a decoded cell always has non-nil properties, empty ones when `w:tcPr` is missing |
| TableDecode.DecodeRowChildren | structtable.go:544-586 | decoded row properties and all decoded cells' properties are non-nil, and without a `w:trPr` child the row keeps the properties it started with |
| TableDecode.DecodeRow | structtable.go:544-586 | a decoded row always has non-nil properties, empty ones when `w:trPr` is missing, and every decoded cell has properties |
| TableDecode.DecodeTableChildren | structtable.go:188-218 | every decoded row has properties, and so does every cell in it |
| TableDecode.DecodeTable | structtable.go:179-225 | a decoded table has properties on every cell and derives its descriptors from the decoded look |
| TableDecode.DecodedDescriptors | structtable.go:179-225 | after decoding, a descriptor exists exactly when its look flag selects it; a look written by `Style` reads back unchanged |
| TableDecode.RowSkipsUnknown | structtable.go:544-586 | an unknown child of `w:tr` has no effect |
| TableDecode.TableSkipsUnknown | structtable.go:188-218 | an unknown child of `w:tbl` (not `w:tr`, `w:tblPr` or `w:tblGrid`) has no effect |
| TableDecode.CellSkipsUnknown | structtable.go:744-790 | an unknown child of `w:tc` has no effect |
| TableDecode.CellPropertiesSkipUnknown | structtable.go:872-877 | an unknown child of `w:tcPr` has no effect |
| TableDecode.GridSpanDefaults | structtable.go:840-849 | a `gridSpan` without a value decodes to span 0; a value that does not parse fails; one that parses is the span |
| TableDecode.DecodeCellPropertiesAs | structtable.go:815-882 | `w:tcPr` decoding fails only with a non-empty `w` or `gridSpan` value that does not parse, and never clears a property that was set |
| TableDecode.DecodeHeightSucceeds | structtable.go:618-635 | `w:trHeight` decodes exactly when every `val` attribute parses |
| TableDecode.DecodeHeight | structtable.go:618-635 | `w:trHeight` fails only with a `val` that does not parse; without a `val` the height value is kept, and without an `hRule` the rule is kept |
| TableDecode.FirstValAt | structtable.go:636-647 | `w:jc` takes the first `val` attribute |
| TableDecode.FirstValAbsent | structtable.go:636-647 | `w:jc` without a `val` attribute decodes to the empty value |
| TableDecode.RowPropertiesSucceed | structtable.go:606-664 | `w:trPr` decodes exactly when every row height parses, because nothing else in it can fail |
| TableDecode.DecodeRowPropertiesAs | structtable.go:606-664 | `w:trPr` decoding fails only with a row height that does not parse; the height, the justification and the conditional style each stay as they were unless a child of their name is present |
| TableDecode.WrittenConfStyleIgnored | structtable.go:649-654 | as written, the `w:cnfStyle` element the encoder writes is skipped when row and cell properties are read, so the descriptor is lost |
| TableDecode.WrittenNameDistinct | structtable.go:667 | the written element name `cnfStyle` matches none of the names the property decoders dispatch on |
| TableDecode.ConfStyleElementRoundTrip | structtable.go:866-871 | decoders that dispatch on `cnfStyle` read a written descriptor back into the cell and row properties |

## Left out

- The `encoding/xml` machinery is not modelled: token loops, `DecodeElement`, `Skip`,
  the encoder, and the sniffing of errors that start with "expected". Decoding works on an
  element tree, and a decoder error is a `Failure` carrying the offending value.
- `GetInt` and `getAtt` are not part of this model. They are the `parseInt` and
  `attribute` parameters of `Decoders`.
- The decoders of paragraphs, `w:tcBorders`, `w:shd`, `w:tblPr` and `w:tblGrid` are parameters,
  and they cannot fail. The errors they would return, which the source passes on unless they
  start with "expected" (structtable.go:204, 210, 764, 856, 862), are not modelled.
- A table without properties is not represented: `Table.properties` is not an `Option`. Every
  constructor sets them, and decoding dereferences them at apitable.go:241.
- TableBuild.AddTable: `rows` and `cols` are natural numbers. The negative sizes on which
  Go's `make` panics are not modelled.
- Nested tables inside cells are not modelled, and neither is any other cell child besides
  `w:p` and `w:tcPr`.
- `Table.String` is not modelled. It depends on `Paragraph.String`, which is not part of
  this model.
- `APITableBorderColors.applyDefault` is not modelled. It works by reflection, and the
  constructors never use its result.
- The paragraph setters of `apipara.go` and `apirun.go` are not modelled. The one exception
  is the cell `AddParagraph`, which appears as "append one empty paragraph".
- Attaching tables to the document body is not modelled, and neither are the `file` and
  `table` back-pointers.
- Pointer aliasing is not modelled. `Borders` shares one border object across sides, and
  line 460 shares the start cell. Cells are values, and both copies of the start cell
  carry its new span and `vMerge`.
- Widths are unbounded integers, so there is no `int64` overflow.
- Run properties carry only `Lang` and `NoProof`, the two fields `AddText` copies.
- TableEmit.MarshalIdempotent: the encoding itself is not modelled. Idempotence is stated
  for the tagging pass, which decides every tag the encoder writes.
- TableDecode.DigitFlag: an ST_OnOff word such as "true" decodes by the same byte
  arithmetic ('t' - '0' = 68). It is stated as the byte arithmetic, not as a boolean.
- TableDecode.DecodeTable: it requires that a decoded table has a look. The source
  dereferences the look in `setConfStyle` (structtable.go:223) and would crash without one.
- TableLayout.ColGrid, TableEmit.Marshal: they require every cell to have properties. The
  source dereferences the cell properties in `Width` (apitable.go:348, apitable.go:494) and in
  the tagging pass (structtable.go:114). `ColGrid` only reaches the cells that start inside the
  new grid, so for a cell past the end of the grid this requires more than the source does.
- TableLayout.Merge, TableLayout.MergeIntended: they require properties only on the start cell
  of each merged row, which is the cell the source dereferences (apitable.go:454-468).
- TableLayout.MergeRow: it states the duplicated prefix that line 460 builds. It does not
  claim that the cells the merge covers are removed in that branch.

## Findings

| source | as written | input that shows it | evidently intended | confidence | as-written member | corrected member |
|---|---|---|---|---|---|---|
| apitable.go:460 | the non-tail branch appends `r.Cells[:end]` after the merged cell, so the row repeats its prefix | two rows of three cells without spans; `Merge(0, 1, 1, 2)` leaves each row with cells `[c', c', c2]` covering 5 grid columns instead of 3, and `c3` is lost | append `r.Cells[end:]`, so the covered cells are replaced by the one merged cell and the row keeps its column count | high (not executed) | TableLayout.MergeRow, TableLayout.MergeUnitTable, TableLayout.MergeDuplicatesCells | TableLayout.MergeRowIntended |
| structtable.go:649, structtable.go:866 | row and cell property decoding dispatch on a child named `confStyle`, but the encoder writes the element as `w:cnfStyle` (structtable.go:667) | a cell whose `w:tcPr` holds `<w:cnfStyle w:val="100000000000" .../>`, written by the library itself, reads back with no conditional style | dispatch on `cnfStyle`, so a written descriptor reads back | high (not executed) | TableDecode.WrittenConfStyleIgnored | TableDecode.ConfStyleElementRoundTrip |
