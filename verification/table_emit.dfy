/**
 The emission side of the codec (structtable.go): the pass `Table.MarshalXML`
 runs over rows and cells before encoding, which stamps the derived
 conditional-style descriptors on rows, cells and paragraphs and gives every
 empty cell a paragraph, and the checks that omit empty property groups.
 */
module TableEmit {
  import opened DocxTypes
  import opened Bits
  import opened TableBuild
  import opened TableLayout

  // ---------------------------------------------------------------------------
  // Omitted property groups
  // ---------------------------------------------------------------------------

  /** `w:tblPr` is written unless every optional field is absent. */
  predicate TablePropertiesEmitted(p: TableProperties) {
    !(p.position.None? && p.style.None? && p.width.None? && p.justification.None? &&
      p.borders.None? && p.look.None?)
  }

  /** `w:trPr` is written unless height, justification and conditional style are all absent. */
  predicate RowPropertiesEmitted(p: RowProperties) {
    !(p.height.None? && p.justification.None? && p.confStyle.None?)
  }

  /** `w:tcPr` is written unless every optional field is absent. */
  predicate CellPropertiesEmitted(p: CellProperties) {
    !(p.confStyle.None? && p.width.None? && p.vMerge.None? && p.gridSpan.None? &&
      p.borders.None? && p.shade.None? && p.vAlign.None?)
  }

  const NoTableProperties := TableProperties(None, None, None, None, None, None)

  /** A property group writes nothing exactly when it is the empty group, so
      any field that is set is written. */
  lemma TableEmittedUnlessEmpty(p: TableProperties)
    ensures !TablePropertiesEmitted(p) <==> p == NoTableProperties
  {
  }

  lemma RowEmittedUnlessEmpty(p: RowProperties)
    ensures !RowPropertiesEmitted(p) <==> p == NoRowProperties
  {
  }

  lemma CellEmittedUnlessEmpty(p: CellProperties)
    ensures !CellPropertiesEmitted(p) <==> p == NoCellProperties
  {
  }

  // ---------------------------------------------------------------------------
  // The tagging pass, as written
  // ---------------------------------------------------------------------------

  /** Parity of the banded rows: odd rows when a first-row style exists. */
  function OddH(c: ConfSet): int {
    if c.firstRow.Some? then 1 else 0
  }

  /** Parity of the banded columns: odd columns when a first-column style exists. */
  function OddV(c: ConfSet): int {
    if c.firstCol.Some? then 1 else 0
  }

  /** Row properties with the conditional style replaced, created when absent. */
  function WithRowConf(p: Option<RowProperties>, cs: Option<ConfStyle>): (r: Option<RowProperties>)
    ensures r.Some? && r.value.confStyle == cs
    ensures p.Some? ==> r.value.(confStyle := None) == p.value.(confStyle := None)
    ensures p.None? ==> r.value.(confStyle := None) == NoRowProperties
  {
    Some((if p.Some? then p.value else NoRowProperties).(confStyle := cs))
  }

  const EmptyParagraph := Paragraph(None, [])

  /** The cell's `AddParagraph` when its paragraph slice is nil. */
  function WithParagraph(c: Cell): (c': Cell)
    ensures c'.properties == c.properties && c'.paragraphs.Some?
    ensures c.paragraphs.None? ==> c'.paragraphs.value == [EmptyParagraph]
    ensures c.paragraphs.Some? ==> c' == c
  {
    if c.paragraphs.None? then c.(paragraphs := Some([EmptyParagraph])) else c
  }

  /** Stamps `tag` on every paragraph, creating paragraph properties when absent. */
  function TagParagraphs(ps: seq<Paragraph>, tag: Option<ConfStyle>): (r: seq<Paragraph>)
    ensures |r| == |ps|
    ensures forall k :: 0 <= k < |ps| ==>
              r[k].children == ps[k].children && r[k].properties.Some? &&
              r[k].properties.value.confStyle == tag &&
              r[k].properties.value.runProperties ==
                (if ps[k].properties.Some? then ps[k].properties.value.runProperties else None)
  {
    seq(|ps|, k requires 0 <= k < |ps| =>
      ps[k].(properties := Some(
        (if ps[k].properties.Some? then ps[k].properties.value
         else ParagraphProperties(None, None)).(confStyle := tag))))
  }

  /** The banding tag for the paragraphs of a middle cell on row i. */
  function ParagraphTag(i: nat, c: ConfSet): Option<ConfStyle> {
    if i % 2 == OddH(c) then c.oddHBand else c.none
  }

  /** The cell loop of row i from cell j on, with `ov` the visual column. */
  function TagCellsFrom(cells: seq<Cell>, j: nat, ov: int, i: nat, c: ConfSet): (r: seq<Cell>)
    requires j <= |cells| && AllHaveProperties(cells)
    ensures |r| == |cells| - j
    decreases |cells| - j
  {
    if j == |cells| then []
    else
      var cell := WithParagraph(cells[j]);
      var band := if c.oddVBand.Some? && GoMod(ov, 2) == OddV(c) then c.oddVBand else None;
      var ov' := if cell.properties.value.gridSpan.Some? then ov + cell.properties.value.gridSpan.value
                 else ov + 1;
      var lc := if c.lastCol.Some? then |cells| - 1 else |cells|;
      var fc := if c.firstCol.Some? then 0 else -1;
      var fcLc := c.lastCol.Some? || c.firstCol.Some?;
      var (cs, cell') :=
        if j == fc then (c.firstCol, cell)
        else if j < lc then
          (band, if fcLc then cell.(paragraphs := Some(TagParagraphs(cell.paragraphs.value, ParagraphTag(i, c))))
                 else cell)
        else (c.lastCol, cell);
      [cell'.(properties := Some(cell'.properties.value.(confStyle := cs)))] +
      TagCellsFrom(cells, j + 1, ov', i, c)
  }


  /** The first/last-row stamps that close every iteration of the row loop. */
  function TagEdgeRows(rows: seq<Row>, c: ConfSet): (r: seq<Row>)
    requires |rows| > 0
    ensures |r| == |rows|
    ensures forall k :: 0 <= k < |rows| ==> r[k].cells == rows[k].cells
  {
    var n := |rows|;
    var rows1 := if c.lastRow.Some? then rows[n - 1 := rows[n - 1].(properties := WithRowConf(rows[n - 1].properties, c.lastRow))]
                 else rows;
    if c.firstRow.Some? then rows1[0 := rows1[0].(properties := WithRowConf(rows1[0].properties, c.firstRow))]
    else rows1
  }

  predicate AllRowsHaveCellProperties(rows: seq<Row>) {
    forall k :: 0 <= k < |rows| ==> RowHasCellProperties(rows[k])
  }

  /** The row loop from row i on. */
  function TagRowsFrom(rows: seq<Row>, i: nat, c: ConfSet): (r: seq<Row>)
    requires i <= |rows| && |rows| > 0 && AllRowsHaveCellProperties(rows)
    ensures |r| == |rows|
    ensures forall k :: 0 <= k < |rows| ==> |r[k].cells| == |rows[k].cells|
    decreases |rows| - i
  {
    if i == |rows| then rows
    else
      var rows' := TagEdgeRows(rows[i := TagRow(rows[i], i, c)], c);
      assert AllRowsHaveCellProperties(rows') by {
        forall k | 0 <= k < |rows'| ensures RowHasCellProperties(rows'[k]) {
          if k == i { TagCellsProperties(rows[i].cells, 0, 0, i, c); }
        }
      }
      TagRowsFrom(rows', i + 1, c)
  }

  lemma {:induction false} TagCellsProperties(cells: seq<Cell>, j: nat, ov: int, i: nat, c: ConfSet)
    requires j <= |cells| && AllHaveProperties(cells)
    ensures AllHaveProperties(TagCellsFrom(cells, j, ov, i, c))
    decreases |cells| - j
  {
    if j < |cells| {
      var cell := WithParagraph(cells[j]);
      var ov' := if cell.properties.value.gridSpan.Some? then ov + cell.properties.value.gridSpan.value
                 else ov + 1;
      TagCellsProperties(cells, j + 1, ov', i, c);
    }
  }

  /** `Table.MarshalXML` before encoding: a table without rows is not written
      and not touched; otherwise the tagged table is written. */
  function Marshal(t: Table): (res: (Table, bool))
    requires HasCellProperties(t)
    ensures res.1 <==> |t.rows| > 0
    ensures !res.1 ==> res.0 == t
    ensures res.0.properties == t.properties && res.0.grid == t.grid && res.0.conf == t.conf
    ensures |res.0.rows| == |t.rows|
    ensures forall i :: 0 <= i < |t.rows| ==> |res.0.rows[i].cells| == |t.rows[i].cells|
  {
    if |t.rows| == 0 then (t, false)
    else (t.(rows := TagRowsFrom(t.rows, 0, t.conf)), true)
  }

  // ---------------------------------------------------------------------------
  // The outcome of the pass, in closed form
  // ---------------------------------------------------------------------------

  /** The final row properties of row i of n: the first-row style on row 0,
      else the last-row style on row n-1, else the band on rows of the band
      parity; any other row keeps what it had. */
  function RowPropsTagged(p: Option<RowProperties>, i: nat, n: nat, c: ConfSet): Option<RowProperties> {
    if i == 0 && c.firstRow.Some? then WithRowConf(p, c.firstRow)
    else if i == n - 1 && c.lastRow.Some? then WithRowConf(p, c.lastRow)
    else if c.oddHBand.Some? && i % 2 == OddH(c) then WithRowConf(p, c.oddHBand)
    else p
  }

  /** Cell j is the first column when a first-column style exists and j == 0. */
  predicate IsFirstCol(cells: seq<Cell>, j: nat, c: ConfSet) {
    c.firstCol.Some? && j == 0
  }

  /** Cell j is the last column when it is not the first one, a last-column
      style exists and j is the last index. */
  predicate IsLastCol(cells: seq<Cell>, j: nat, c: ConfSet) {
    !IsFirstCol(cells, j, c) && c.lastCol.Some? && j == |cells| - 1
  }

  /** The cell tag: first column, else last column, else the vertical band
      when the visual column (the spans of the cells before) has the band
      parity, else nothing. */
  function CellTag(cells: seq<Cell>, j: nat, c: ConfSet): Option<ConfStyle>
    requires j < |cells|
  {
    if IsFirstCol(cells, j, c) then c.firstCol
    else if IsLastCol(cells, j, c) then c.lastCol
    else if c.oddVBand.Some? && GoMod(CumSpan(cells, j), 2) == OddV(c) then c.oddVBand
    else None
  }

  /** Cell j of row i after the pass. */
  function CellTagged(cells: seq<Cell>, j: nat, i: nat, c: ConfSet): Cell
    requires j < |cells| && AllHaveProperties(cells)
  {
    var cell := WithParagraph(cells[j]);
    var middle := !IsFirstCol(cells, j, c) && !IsLastCol(cells, j, c);
    var cell' := if middle && (c.firstCol.Some? || c.lastCol.Some?)
                 then cell.(paragraphs := Some(TagParagraphs(cell.paragraphs.value, ParagraphTag(i, c))))
                 else cell;
    cell'.(properties := Some(cell'.properties.value.(confStyle := CellTag(cells, j, c))))
  }

  function RowTagged(rows: seq<Row>, i: nat, c: ConfSet): Row
    requires i < |rows| && AllRowsHaveCellProperties(rows)
  {
    var r := rows[i];
    assert RowHasCellProperties(r);
    Row(RowPropsTagged(r.properties, i, |rows|, c),
        seq(|r.cells|, j requires 0 <= j < |r.cells| => CellTagged(r.cells, j, i, c)))
  }

  lemma {:induction false} TagCellsFromSpec(cells: seq<Cell>, j: nat, i: nat, c: ConfSet)
    requires j <= |cells| && AllHaveProperties(cells)
    ensures forall k :: j <= k < |cells| ==>
              TagCellsFrom(cells, j, CumSpan(cells, j), i, c)[k - j] == CellTagged(cells, k, i, c)
    decreases |cells| - j
  {
    if j < |cells| {
      var cell := WithParagraph(cells[j]);
      assert Span(cell) == Span(cells[j]);
      var ov' := if cell.properties.value.gridSpan.Some? then CumSpan(cells, j) + cell.properties.value.gridSpan.value
                 else CumSpan(cells, j) + 1;
      assert ov' == CumSpan(cells, j + 1);
      TagCellsFromSpec(cells, j + 1, i, c);
      var r := TagCellsFrom(cells, j, CumSpan(cells, j), i, c);
      assert r[1..] == TagCellsFrom(cells, j + 1, ov', i, c);
      assert r[0] == CellTagged(cells, j, i, c);
      forall k | j < k < |cells| ensures r[k - j] == CellTagged(cells, k, i, c) {
        assert r[k - j] == r[1..][k - j - 1];
      }
    }
  }

  /** The body of the row loop for row i, before the first/last-row stamps:
      a row of the band parity carries the band and keeps the rest of its
      properties, and its cells are tagged as the closed form says. */
  function TagRow(r: Row, i: nat, c: ConfSet): (r': Row)
    requires RowHasCellProperties(r)
    ensures r'.cells == seq(|r.cells|, j requires 0 <= j < |r.cells| => CellTagged(r.cells, j, i, c))
    ensures c.oddHBand.Some? && i % 2 == OddH(c) ==>
              r'.properties.Some? && r'.properties.value.confStyle == c.oddHBand &&
              (r.properties.Some? ==>
                 r'.properties.value.(confStyle := None) == r.properties.value.(confStyle := None))
    ensures !(c.oddHBand.Some? && i % 2 == OddH(c)) ==> r'.properties == r.properties
  {
    TagCellsFromSpec(r.cells, 0, i, c);
    var props := if c.oddHBand.Some? && i % 2 == OddH(c) then WithRowConf(r.properties, c.oddHBand)
                 else r.properties;
    Row(props, TagCellsFrom(r.cells, 0, 0, i, c))
  }

  /** The rows before iteration i: rows already processed are final; later
      rows carry only the stamps the earlier iterations left (the last-row style). */
  function Pending(rows: seq<Row>, i: nat, c: ConfSet): (p: seq<Row>)
    requires i <= |rows| && AllRowsHaveCellProperties(rows)
    ensures |p| == |rows|
  {
    seq(|rows|, k requires 0 <= k < |rows| =>
      if k < i then RowTagged(rows, k, c)
      else if i > 0 && k == |rows| - 1 && c.lastRow.Some?
      then rows[k].(properties := WithRowConf(rows[k].properties, c.lastRow))
      else rows[k])
  }

  lemma PendingProperties(rows: seq<Row>, i: nat, c: ConfSet)
    requires i <= |rows| && AllRowsHaveCellProperties(rows)
    ensures AllRowsHaveCellProperties(Pending(rows, i, c))
  {
  }

  lemma PendingStep(rows: seq<Row>, i: nat, c: ConfSet)
    requires i < |rows| && AllRowsHaveCellProperties(rows)
    ensures var p := Pending(rows, i, c);
            AllRowsHaveCellProperties(p) &&
            TagEdgeRows(p[i := TagRow(p[i], i, c)], c) == Pending(rows, i + 1, c)
  {
    var p := Pending(rows, i, c);
    var n := |rows|;
    assert p[i].cells == rows[i].cells;
    var q := TagEdgeRows(p[i := TagRow(p[i], i, c)], c);
    var p' := Pending(rows, i + 1, c);
    forall k | 0 <= k < n ensures q[k] == p'[k] {
      assert q[k].cells == p'[k].cells;
    }
  }

  lemma {:induction false} TagRowsFromSpec(rows: seq<Row>, i: nat, c: ConfSet)
    requires i <= |rows| && |rows| > 0 && AllRowsHaveCellProperties(rows)
    ensures AllRowsHaveCellProperties(Pending(rows, i, c))
    ensures TagRowsFrom(Pending(rows, i, c), i, c) == Pending(rows, |rows|, c)
    decreases |rows| - i
  {
    PendingProperties(rows, i, c);
    if i < |rows| {
      PendingStep(rows, i, c);
      TagRowsFromSpec(rows, i + 1, c);
    }
  }

  /** The pass over a non-empty table yields the closed form row by row. */
  lemma MarshalRows(t: Table)
    requires HasCellProperties(t) && |t.rows| > 0
    ensures AllRowsHaveCellProperties(t.rows)
    ensures var r := Marshal(t).0;
            forall i :: 0 <= i < |t.rows| ==> r.rows[i] == RowTagged(t.rows, i, t.conf)
  {
    assert Pending(t.rows, 0, t.conf) == t.rows;
    TagRowsFromSpec(t.rows, 0, t.conf);
  }

  // ---------------------------------------------------------------------------
  // What the pass promises
  // ---------------------------------------------------------------------------

  /** Row properties: row 0 carries the first-row style, the last row the
      last-row style, rows of the band parity the band; nothing else in the
      row properties changes. */
  lemma MarshalRowTag(t: Table, i: nat)
    requires HasCellProperties(t) && i < |t.rows|
    ensures var p := Marshal(t).0.rows[i].properties;
            var q := t.rows[i].properties;
            var n := |t.rows|;
            (i == 0 && t.conf.firstRow.Some? ==> p.Some? && p.value.confStyle == t.conf.firstRow) &&
            (i == n - 1 && t.conf.lastRow.Some? && !(i == 0 && t.conf.firstRow.Some?) ==>
               p.Some? && p.value.confStyle == t.conf.lastRow) &&
            (!(i == 0 && t.conf.firstRow.Some?) && !(i == n - 1 && t.conf.lastRow.Some?) &&
             t.conf.oddHBand.Some? && i % 2 == OddH(t.conf) ==>
               p.Some? && p.value.confStyle == t.conf.oddHBand) &&
            (!(i == 0 && t.conf.firstRow.Some?) && !(i == n - 1 && t.conf.lastRow.Some?) &&
             !(t.conf.oddHBand.Some? && i % 2 == OddH(t.conf)) ==>
               p == q) &&
            (p.Some? && q.Some? ==> p.value.(confStyle := None) == q.value.(confStyle := None))
  {
    MarshalRows(t);
  }

  /** Cells: the first column, the last column and the banded columns carry
      their descriptors and every other cell none; the cell keeps everything
      in its properties but the conditional style. */
  lemma MarshalCellTag(t: Table, i: nat, j: nat)
    requires HasCellProperties(t) && i < |t.rows| && j < |t.rows[i].cells|
    ensures var cells := t.rows[i].cells;
            var r := Marshal(t).0.rows[i];
            |r.cells| == |cells| && r.cells[j].properties.Some? &&
            r.cells[j].properties.value.confStyle == CellTag(cells, j, t.conf) &&
            r.cells[j].properties.value.(confStyle := None) == cells[j].properties.value.(confStyle := None)
  {
    MarshalRows(t);
    assert RowHasCellProperties(t.rows[i]);
  }

  /** Paragraphs: when a first- or last-column style exists, every paragraph
      of a middle cell carries the row's banding tag (the band on rows of the
      band parity, the fallback otherwise); the paragraphs of any other cell
      keep their properties. */
  lemma MarshalParagraphTag(t: Table, i: nat, j: nat)
    requires HasCellProperties(t) && i < |t.rows| && j < |t.rows[i].cells|
    ensures var cells := t.rows[i].cells;
            var c := t.conf;
            var ps := Marshal(t).0.rows[i].cells[j].paragraphs;
            var middle := !IsFirstCol(cells, j, c) && !IsLastCol(cells, j, c);
            ps.Some? &&
            (middle && (c.firstCol.Some? || c.lastCol.Some?) ==>
               forall k :: 0 <= k < |ps.value| ==>
                 ps.value[k].properties.Some? &&
                 ps.value[k].properties.value.confStyle ==
                   (if i % 2 == OddH(c) then c.oddHBand else c.none)) &&
            (!(middle && (c.firstCol.Some? || c.lastCol.Some?)) ==>
               ps == (if cells[j].paragraphs.None? then Some([EmptyParagraph]) else cells[j].paragraphs))
  {
    MarshalRows(t);
    assert RowHasCellProperties(t.rows[i]);
  }

  /** After the pass every cell holds at least one paragraph: a cell without
      paragraphs gets exactly one empty one, any other keeps its paragraphs'
      runs (only their conditional style may change). */
  lemma MarshalFillsParagraphs(t: Table, i: nat, j: nat)
    requires HasCellProperties(t) && i < |t.rows| && j < |t.rows[i].cells|
    ensures var before := t.rows[i].cells[j].paragraphs;
            var after := Marshal(t).0.rows[i].cells[j].paragraphs;
            after.Some? &&
            (before.None? ==> |after.value| == 1 && after.value[0].children == []) &&
            (before.Some? ==>
               |after.value| == |before.value| &&
               forall k :: 0 <= k < |before.value| ==> after.value[k].children == before.value[k].children)
  {
    MarshalRows(t);
    assert RowHasCellProperties(t.rows[i]);
  }

  lemma {:induction false} CumSpanSame(a: seq<Cell>, b: seq<Cell>, n: nat)
    requires n <= |a| == |b|
    requires forall k :: 0 <= k < |a| ==> Span(a[k]) == Span(b[k])
    ensures CumSpan(a, n) == CumSpan(b, n)
  {
    if n > 0 { CumSpanSame(a, b, n - 1); }
  }

  lemma TagParagraphsTwice(ps: seq<Paragraph>, tag: Option<ConfStyle>)
    ensures TagParagraphs(TagParagraphs(ps, tag), tag) == TagParagraphs(ps, tag)
  {
  }

  lemma RowTaggedTwice(rows: seq<Row>, i: nat, c: ConfSet, rows': seq<Row>)
    requires i < |rows| && AllRowsHaveCellProperties(rows)
    requires |rows'| == |rows| && rows'[i] == RowTagged(rows, i, c)
    ensures AllHaveProperties(rows'[i].cells)
    ensures forall k :: 0 <= k < |rows'[i].cells| ==> rows'[i].cells[k].properties.Some?
    ensures var cells := rows[i].cells;
            var cells' := rows'[i].cells;
            RowPropsTagged(rows'[i].properties, i, |rows|, c) == rows'[i].properties &&
            forall j :: 0 <= j < |cells'| ==> CellTagged(cells', j, i, c) == cells'[j]
  {
    var cells := rows[i].cells;
    var cells' := rows'[i].cells;
    assert RowHasCellProperties(rows[i]);
    forall k | 0 <= k < |cells| ensures Span(cells'[k]) == Span(cells[k]) {
      assert cells'[k] == CellTagged(cells, k, i, c);
    }
    forall j | 0 <= j < |cells'| ensures CellTagged(cells', j, i, c) == cells'[j] {
      CumSpanSame(cells', cells, j);
      assert cells'[j] == CellTagged(cells, j, i, c);
      if cells[j].paragraphs.Some? {
        TagParagraphsTwice(cells[j].paragraphs.value, ParagraphTag(i, c));
      } else {
        TagParagraphsTwice([EmptyParagraph], ParagraphTag(i, c));
      }
    }
  }

  /** Writing a table twice stamps nothing new: the pass is idempotent. */
  lemma MarshalIdempotent(t: Table)
    requires HasCellProperties(t)
    ensures HasCellProperties(Marshal(t).0)
    ensures Marshal(Marshal(t).0) == Marshal(t)
  {
    if |t.rows| > 0 {
      var t1 := Marshal(t).0;
      MarshalRows(t);
      forall i | 0 <= i < |t1.rows| ensures RowHasCellProperties(t1.rows[i]) {
        RowTaggedTwice(t.rows, i, t.conf, t1.rows);
      }
      MarshalRows(t1);
      var t2 := Marshal(t1).0;
      forall i | 0 <= i < |t1.rows| ensures t2.rows[i] == t1.rows[i] {
        RowTaggedTwice(t.rows, i, t.conf, t1.rows);
        assert t2.rows[i] == RowTagged(t1.rows, i, t.conf);
      }
      assert t2.rows == t1.rows;
    }
  }

  // ---------------------------------------------------------------------------
  // Which property groups are written
  // ---------------------------------------------------------------------------

  /** Every constructor sets a style, so `w:tblPr` is always written for them. */
  lemma ConstructedTablesWriteProperties(rows: nat, cols: nat, w: int, t: Table)
    ensures TablePropertiesEmitted(AddTable(rows, cols, w).properties)
    ensures TablePropertiesEmitted(AddTableEmpty().properties)
    ensures TablePropertiesEmitted(Style(t, "", 0).properties)
  {
  }

  /** A row or a cell fresh from `AddRow` / `AddCell` writes no property group. */
  lemma NewRowsAndCellsWriteNoProperties(t: Table, r: Row, position: int)
    ensures !RowPropertiesEmitted(AddRow(t, position).1.properties.value)
    ensures !CellPropertiesEmitted(AddCell(r, position).1.properties.value)
  {
  }

  /** With a first-row style, the first row of a non-empty table writes `w:trPr`. */
  lemma MarshalFirstRowWritesProperties(t: Table)
    requires HasCellProperties(t) && |t.rows| > 0 && t.conf.firstRow.Some?
    ensures Marshal(t).0.rows[0].properties.Some?
    ensures RowPropertiesEmitted(Marshal(t).0.rows[0].properties.value)
  {
    MarshalRows(t);
  }

  /** Writing a table fresh from `AddTable` stamps nothing: rows keep empty
      properties (no `w:trPr`), every cell keeps only its "auto" width and
      receives one empty paragraph. */
  lemma MarshalPlainTable(rows: nat, cols: nat, w: int, i: nat, j: nat)
    requires i < rows && j < cols
    ensures var t := AddTable(rows, cols, w);
            HasCellProperties(t) &&
            var r := Marshal(t).0.rows[i];
            r.properties == Some(NoRowProperties) && !RowPropertiesEmitted(r.properties.value) &&
            |r.cells| == cols && r.cells[j] == AutoCell.(paragraphs := Some([EmptyParagraph]))
  {
    var t := AddTable(rows, cols, w);
    assert HasCellProperties(t) by {
      forall i' | 0 <= i' < rows ensures RowHasCellProperties(t.rows[i']) {
        assert forall j' :: 0 <= j' < cols ==> t.rows[i'].cells[j'] == AutoCell;
      }
    }
    MarshalRows(t);
    assert t.rows[i].cells[j] == AutoCell;
  }
}
