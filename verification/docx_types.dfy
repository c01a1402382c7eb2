/**
 The records of the WordprocessingML table model (ECMA-376 Part 1, section 17.4):
 a table owns its properties, its grid and its rows; a row owns its cells; a
 cell owns its paragraphs. A Go pointer the table code may leave nil is an
 `Option`; the table's own properties are not, because every constructor sets
 them and decoding dereferences them unconditionally.
 */
module DocxTypes {

  datatype Option<+T> = None | Some(value: T)

  datatype Result<+T, +E> = Success(value: T) | Failure(error: E)

  /** `w:tblW` / `w:tcW`: a width value and its unit ("auto" or "dxa"). */
  datatype Width = Width(w: int, typ: string)

  /** One `w:top`, `w:left`, ... border: style, size, spacing and colour. */
  datatype Border = Border(val: string, size: int, space: int, color: string)

  /** `w:tblBorders`: the four outer sides and the two inside rules. */
  datatype TableBorders = TableBorders(
    top: Option<Border>, left: Option<Border>, bottom: Option<Border>,
    right: Option<Border>, insideH: Option<Border>, insideV: Option<Border>)

  /** `w:tcBorders`: the four sides of a cell. */
  datatype CellBorders = CellBorders(
    top: Option<Border>, left: Option<Border>, bottom: Option<Border>, right: Option<Border>)

  /** `w:tblLook`: the hex `val` and the six look switches, each an integer flag. */
  datatype Look = Look(
    val: string, firstRow: int, lastRow: int, firstCol: int, lastCol: int,
    noHBand: int, noVBand: int)

  /** `w:cnfStyle`: the 12-character `val` and the twelve conditional-format flags. */
  datatype ConfStyle = ConfStyle(
    val: string,
    firstRow: int, lastRow: int, firstCol: int, lastCol: int,
    oddVBand: int, evenVBand: int, oddHBand: int, evenHBand: int,
    firstRowFirstCol: int, firstRowLastCol: int, lastRowFirstCol: int, lastRowLastCol: int)

  /** The descriptors derived from the look; each is absent until derived. */
  datatype ConfSet = ConfSet(
    firstRow: Option<ConfStyle>, firstCol: Option<ConfStyle>,
    lastRow: Option<ConfStyle>, lastCol: Option<ConfStyle>,
    oddHBand: Option<ConfStyle>, oddVBand: Option<ConfStyle>,
    none: Option<ConfStyle>)

  /** `w:tblpPr`: floating-table positioning. */
  datatype Positioning = Positioning(
    leftFromText: int, rightFromText: int, vertAnchor: string, horzAnchor: string,
    xSpec: string, ySpec: string, x: int, y: int)

  /** `w:tblPr`; `style` and `justification` hold the `val` of `w:tblStyle` and `w:jc`. */
  datatype TableProperties = TableProperties(
    position: Option<Positioning>, style: Option<string>, width: Option<Width>,
    justification: Option<string>, borders: Option<TableBorders>, look: Option<Look>)

  /** `w:trHeight`. */
  datatype RowHeight = RowHeight(rule: string, val: int)

  /** `w:trPr`; `justification` holds the `val` of `w:jc`. */
  datatype RowProperties = RowProperties(
    height: Option<RowHeight>, justification: Option<string>, confStyle: Option<ConfStyle>)

  /** `w:shd`. */
  datatype Shade = Shade(val: string, color: string, fill: string)

  /** `w:tcPr`; `vMerge` and `vAlign` hold their `val`, `gridSpan` the span count. */
  datatype CellProperties = CellProperties(
    confStyle: Option<ConfStyle>, width: Option<Width>, vMerge: Option<string>,
    gridSpan: Option<int>, borders: Option<CellBorders>, shade: Option<Shade>,
    vAlign: Option<string>)

  /** `w:lang` and `w:noProof` of run properties. */
  datatype Lang = Lang(val: string)
  datatype NoProof = NoProof

  datatype RunProperties = RunProperties(lang: Option<Lang>, noProof: Option<NoProof>)

  /** The children a run built from text can hold: `w:t`, `w:tab` and `w:br`. */
  datatype RunChild = Text(text: string) | Tab | Break

  datatype Run = Run(properties: RunProperties, children: seq<RunChild>)

  datatype ParagraphProperties = ParagraphProperties(
    confStyle: Option<ConfStyle>, runProperties: Option<RunProperties>)

  datatype Paragraph = Paragraph(properties: Option<ParagraphProperties>, children: seq<Run>)

  /** `w:tc`; `paragraphs` is `None` where the Go slice is nil. */
  datatype Cell = Cell(properties: Option<CellProperties>, paragraphs: Option<seq<Paragraph>>)

  /** `w:tr`. */
  datatype Row = Row(properties: Option<RowProperties>, cells: seq<Cell>)

  /** `w:tbl`; `grid` lists the `w:gridCol` widths, `None` where the Go entry is nil. */
  datatype Table = Table(
    properties: TableProperties, grid: seq<Option<int>>, rows: seq<Row>, conf: ConfSet)

  const NoCellProperties := CellProperties(None, None, None, None, None, None, None)
  const NoRowProperties := RowProperties(None, None, None)
  const NoConfStyles := ConfSet(None, None, None, None, None, None, None)

  /** Every cell carries a `w:tcPr` record (the Go code dereferences it). */
  predicate AllHaveProperties(cells: seq<Cell>) {
    forall k :: 0 <= k < |cells| ==> cells[k].properties.Some?
  }

  predicate RowHasCellProperties(r: Row) {
    AllHaveProperties(r.cells)
  }

  predicate HasCellProperties(t: Table) {
    forall i :: 0 <= i < |t.rows| ==> RowHasCellProperties(t.rows[i])
  }

  /** The number of grid columns a cell claims: its `gridSpan`, or 1 without one. */
  function Span(c: Cell): int {
    if c.properties.Some? && c.properties.value.gridSpan.Some?
    then c.properties.value.gridSpan.value
    else 1
  }

  /** The sum of the spans of the first `n` cells: the grid column after cell n-1. */
  function CumSpan(cells: seq<Cell>, n: nat): int
    requires n <= |cells|
  {
    if n == 0 then 0 else CumSpan(cells, n - 1) + Span(cells[n - 1])
  }
}
