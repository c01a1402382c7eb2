/**
 Structural edits of a built table (apitable.go): assigning the column grid
 and re-widthing the cells over their grid-spans, the rectangular merge,
 and positional insertion of rows and cells.
 */
module TableLayout {
  import opened DocxTypes
  import opened Seqs
  import opened TableBuild

  // ---------------------------------------------------------------------------
  // ColGrid
  // ---------------------------------------------------------------------------

  function Min(a: int, b: int): int {
    if a <= b then a else b
  }

  /** How far a cell moves the `ColGrid` cursor: its span, or nothing when the
      span is not positive. */
  function Advance(c: Cell): nat {
    if Span(c) > 0 then Span(c) else 0
  }

  function AdvanceSum(cells: seq<Cell>, k: nat): nat
    requires k <= |cells|
  {
    if k == 0 then 0 else AdvanceSum(cells, k - 1) + Advance(cells[k - 1])
  }

  /** The value `ColGrid` gives a cell whose first grid column is `st`: that
      column's width, or for a spanned cell the sum of the next `span` widths
      clipped to the end of `w` (nothing for a non-positive span). */
  function SpanWidth(c: Cell, w: seq<int>, st: nat): int
    requires st < |w|
  {
    if c.properties.Some? && c.properties.value.gridSpan.Some? then
      var span := c.properties.value.gridSpan.value;
      var end := if span <= 0 then st else Min(|w|, st + span);
      Sum(w[st..end])
    else w[st]
  }

  /** The inner loop of `ColGrid` over one row, with the grid cursor `i`. */
  function ReWidthCells(cells: seq<Cell>, w: seq<int>, i: nat): (r: seq<Cell>)
    requires AllHaveProperties(cells)
    requires i <= |w|
    ensures |r| == |cells|
    decreases |cells|
  {
    if cells == [] then []
    else
      var c := cells[0];
      var rest := cells[1..];
      assert AllHaveProperties(rest);
      if i < |w| then
        if c.properties.value.gridSpan.Some? then
          var s := i + c.properties.value.gridSpan.value;
          var end := if s <= i then i else Min(|w|, s);
          [SetCellWidth(c, Sum(w[i..end]))] + ReWidthCells(rest, w, end)
        else
          [SetCellWidth(c, w[i])] + ReWidthCells(rest, w, i + 1)
      else
        [c] + ReWidthCells(rest, w, i)
  }

  /** Where the cursor stands after cell c when it stood at i. */
  function NextCursor(c: Cell, w: seq<int>, i: nat): (j: nat)
    requires c.properties.Some? && i <= |w|
    ensures j <= |w|
    ensures j == Min(|w|, i + Advance(c))
  {
    if i < |w| then
      if c.properties.value.gridSpan.Some? then
        var s := i + c.properties.value.gridSpan.value;
        if s <= i then i else Min(|w|, s)
      else i + 1
    else i
  }

  lemma ReWidthCellsUnfold(cells: seq<Cell>, w: seq<int>, i: nat)
    requires AllHaveProperties(cells) && |cells| > 0
    requires i <= |w|
    ensures AllHaveProperties(cells[1..])
    ensures ReWidthCells(cells, w, i)[0] ==
              if i < |w| then SetCellWidth(cells[0], SpanWidth(cells[0], w, i)) else cells[0]
    ensures ReWidthCells(cells, w, i)[1..] == ReWidthCells(cells[1..], w, NextCursor(cells[0], w, i))
  {
    assert AllHaveProperties(cells[1..]);
  }

  /** Cell k starts at grid column min(|w|, i + AdvanceSum(cells, k)); cells
      starting inside the grid take `SpanWidth`, the others are untouched. */
  lemma {:induction false} ReWidthCellsAt(cells: seq<Cell>, w: seq<int>, i: nat, k: nat)
    requires AllHaveProperties(cells)
    requires i <= |w| && k < |cells|
    ensures var st := Min(|w|, i + AdvanceSum(cells, k));
            ReWidthCells(cells, w, i)[k] ==
              if st < |w| then SetCellWidth(cells[k], SpanWidth(cells[k], w, st)) else cells[k]
    decreases k
  {
    ReWidthCellsUnfold(cells, w, i);
    if k > 0 {
      var rest := cells[1..];
      var i' := NextCursor(cells[0], w, i);
      AdvanceSumTailAt(cells, k);
      assert rest[k - 1] == cells[k];
      assert ReWidthCells(cells, w, i)[k] == ReWidthCells(rest, w, i')[k - 1];
      ReWidthCellsAt(rest, w, i', k - 1);
      assert Min(|w|, i' + AdvanceSum(rest, k - 1)) == Min(|w|, i + AdvanceSum(cells, k));
    }
  }

  lemma AdvanceSumTail(cells: seq<Cell>)
    requires |cells| > 0
    ensures forall k :: 1 <= k <= |cells| ==>
              AdvanceSum(cells, k) == Advance(cells[0]) + AdvanceSum(cells[1..], k - 1)
  {
    forall k | 1 <= k <= |cells|
      ensures AdvanceSum(cells, k) == Advance(cells[0]) + AdvanceSum(cells[1..], k - 1)
    {
      AdvanceSumTailAt(cells, k);
    }
  }

  lemma {:induction false} AdvanceSumTailAt(cells: seq<Cell>, k: nat)
    requires 1 <= k <= |cells|
    ensures AdvanceSum(cells, k) == Advance(cells[0]) + AdvanceSum(cells[1..], k - 1)
    decreases k
  {
    if k > 1 {
      AdvanceSumTailAt(cells, k - 1);
      assert cells[1..][k - 2] == cells[k - 1];
    }
  }

  /** `ColGrid`: the grid becomes exactly `w`, the table width its sum, and
      every row is re-widthed; rows and cells keep their number and order. */
  function ColGrid(t: Table, w: seq<int>): (r: Table)
    requires HasCellProperties(t)
    ensures |r.grid| == |w| && forall j :: 0 <= j < |w| ==> r.grid[j] == Some(w[j])
    ensures r.properties.width == Some(WidthOf(Sum(w)))
    ensures r.properties.(width := None) == t.properties.(width := None) && r.conf == t.conf
    ensures |r.rows| == |t.rows|
    ensures forall i :: 0 <= i < |t.rows| ==>
              r.rows[i].properties == t.rows[i].properties &&
              r.rows[i].cells == ReWidthCells(t.rows[i].cells, w, 0)
  {
    var grid := seq(|w|, j requires 0 <= j < |w| => Some(w[j]));
    var rows := seq(|t.rows|, i requires 0 <= i < |t.rows| =>
                      t.rows[i].(cells := ReWidthCells(t.rows[i].cells, w, 0)));
    SetTableWidth(t.(grid := grid, rows := rows), Sum(w))
  }

  /** A cell of a table after `ColGrid`: cells whose first grid column lies
      inside `w` get the width record of `SpanWidth` ("dxa" exactly when it is
      positive);
      cells past the end of `w` are unchanged. */
  lemma ColGridCell(t: Table, w: seq<int>, i: nat, k: nat)
    requires HasCellProperties(t)
    requires i < |t.rows| && k < |t.rows[i].cells|
    ensures var c := t.rows[i].cells[k];
            var c' := ColGrid(t, w).rows[i].cells[k];
            var st := Min(|w|, AdvanceSum(t.rows[i].cells, k));
            if st < |w| then
              c'.properties.Some? && c'.properties.value.width == Some(WidthOf(SpanWidth(c, w, st))) &&
              c'.properties.value.(width := None) == c.properties.value.(width := None)
            else c' == c
  {
    assert RowHasCellProperties(t.rows[i]);
    ReWidthCellsAt(t.rows[i].cells, w, 0, k);
  }

  /** On a table without grid-spans, reading the cell widths back after
      `ColGrid(w)` gives `w` column by column. */
  lemma {:induction false} ColGridUnmerged(t: Table, w: seq<int>, i: nat, k: nat)
    requires HasCellProperties(t)
    requires i < |t.rows| && k < |t.rows[i].cells| && k < |w|
    requires forall j :: 0 <= j < |t.rows[i].cells| ==> t.rows[i].cells[j].properties.value.gridSpan.None?
    ensures var c' := ColGrid(t, w).rows[i].cells[k];
            c'.properties.Some? && c'.properties.value.width == Some(WidthOf(w[k]))
  {
    assert RowHasCellProperties(t.rows[i]);
    UnspannedAdvance(t.rows[i].cells, k);
    ColGridCell(t, w, i, k);
  }

  lemma {:induction false} UnspannedAdvance(cells: seq<Cell>, k: nat)
    requires k <= |cells|
    requires forall j :: 0 <= j < |cells| ==> cells[j].properties.Some? && cells[j].properties.value.gridSpan.None?
    ensures AdvanceSum(cells, k) == k
  {
    if k > 0 {
      UnspannedAdvance(cells, k - 1);
    }
  }

  // ---------------------------------------------------------------------------
  // Merge
  // ---------------------------------------------------------------------------

  /** The grid column reached after cell j: the value `cols` holds in the scan. */
  function EndCol(cells: seq<Cell>, j: nat): int
    requires j < |cells|
  {
    CumSpan(cells, j + 1)
  }

  /** The scan loop of `Merge` over one row: from cell k on, with `cols` the
      spans summed so far, remember the last cell after which `cols == target`. */
  function ScanBoundary(cells: seq<Cell>, target: int, k: nat, cols: int, found: int): (r: int)
    requires k <= |cells| && cols == CumSpan(cells, k)
    requires -1 <= found < k
    ensures -1 <= r < |cells|
    ensures r == found || (k <= r && EndCol(cells, r) == target)
    ensures forall j :: k <= j < |cells| && r < j ==> EndCol(cells, j) != target
    ensures r == found ==> forall j :: k <= j < |cells| ==> EndCol(cells, j) != target
    decreases |cells| - k
  {
    if k == |cells| then found
    else
      var cols' := cols + Span(cells[k]);
      ScanBoundary(cells, target, k + 1, cols', if cols' == target then k else found)
  }

  /** The last cell after which the row has reached grid column `target`, or -1. */
  function Boundary(cells: seq<Cell>, target: int): (r: int)
    ensures -1 <= r < |cells|
    ensures r == -1 <==> forall j :: 0 <= j < |cells| ==> EndCol(cells, j) != target
    ensures r >= 0 ==> EndCol(cells, r) == target &&
                       forall j :: r < j < |cells| ==> EndCol(cells, j) != target
  {
    ScanBoundary(cells, target, 0, 0, -1)
  }

  /** A row is aligned with the rectangle when some cell ends exactly at
      `firstCol` and some cell ends exactly at `lastCol`. */
  predicate RowAligned(cells: seq<Cell>, firstCol: int, lastCol: int) {
    (exists j :: 0 <= j < |cells| && EndCol(cells, j) == firstCol) &&
    (exists j :: 0 <= j < |cells| && EndCol(cells, j) == lastCol)
  }

  /** The pair (start, end) `Merge` computes for one row, or None when the row
      has no cell ending at `firstCol` or none ending at `lastCol`. */
  function RowBounds(cells: seq<Cell>, firstCol: int, lastCol: int): (b: Option<(nat, nat)>)
    ensures b.Some? <==> RowAligned(cells, firstCol, lastCol)
    ensures b.Some? ==> b.value.0 < |cells| && 0 < b.value.1 <= |cells|
    ensures b.Some? ==> EndCol(cells, b.value.0) == firstCol && EndCol(cells, b.value.1 - 1) == lastCol
  {
    var start := Boundary(cells, firstCol);
    var end := Boundary(cells, lastCol);
    if start == -1 || end == -1 then None else Some((start, end + 1))
  }

  /** The arguments `Merge` accepts before looking at any row. */
  predicate MergeGuard(t: Table, firstRow: int, firstCol: int, lastRow: int, lastCol: int) {
    0 <= firstRow < lastRow < |t.rows| && 0 <= firstCol < lastCol
  }

  /** The validation pass over rows i..lastRow; None as soon as one row fails. */
  function CollectBounds(rows: seq<Row>, i: nat, lastRow: nat, firstCol: int, lastCol: int)
    : (b: Option<seq<(nat, nat)>>)
    requires i <= lastRow + 1 && lastRow < |rows|
    ensures b.Some? <==> forall j :: i <= j <= lastRow ==> RowAligned(rows[j].cells, firstCol, lastCol)
    ensures b.Some? ==> (|b.value| == lastRow + 1 - i &&
              forall j :: i <= j <= lastRow ==>
                RowBounds(rows[j].cells, firstCol, lastCol) == Some(b.value[j - i]))
    decreases lastRow + 1 - i
  {
    if i > lastRow then Some([])
    else
      match RowBounds(rows[i].cells, firstCol, lastCol)
      case None => None
      case Some(bd) =>
        match CollectBounds(rows, i + 1, lastRow, firstCol, lastCol)
        case None => None
        case Some(rest) => Some([bd] + rest)
  }

  /** Every row of the rectangle is validated before any row is changed:
      the bounds exist exactly when the guard holds and every row is aligned. */
  function MergeBounds(t: Table, firstRow: int, firstCol: int, lastRow: int, lastCol: int)
    : (b: Option<seq<(nat, nat)>>)
    ensures b.Some? <==> (MergeGuard(t, firstRow, firstCol, lastRow, lastCol) &&
              forall i :: firstRow <= i <= lastRow ==> RowAligned(t.rows[i].cells, firstCol, lastCol))
    ensures b.Some? ==> |b.value| == lastRow - firstRow + 1
  {
    if MergeGuard(t, firstRow, firstCol, lastRow, lastCol)
    then CollectBounds(t.rows, firstRow, lastRow, firstCol, lastCol)
    else None
  }

  /** The start cell after the merge: the new span when the row merges
      horizontally, and the vertical-merge marker ("restart" on the first row). */
  function MergedCell(c: Cell, horizontal: bool, isFirst: bool, span: int): (c': Cell)
    requires c.properties.Some?
    ensures c'.paragraphs == c.paragraphs && c'.properties.Some?
    ensures c'.properties.value.vMerge == Some(if isFirst then "restart" else "")
    ensures c'.properties.value.gridSpan == if horizontal then Some(span) else c.properties.value.gridSpan
    ensures c'.properties.value.(gridSpan := None, vMerge := None) ==
            c.properties.value.(gridSpan := None, vMerge := None)
  {
    var p := c.properties.value;
    var p1 := if horizontal then p.(gridSpan := Some(span)) else p;
    c.(properties := Some(p1.(vMerge := Some(if isFirst then "restart" else ""))))
  }

  /** One row of the apply pass. The start cell is shared in the Go slice, so
      both of its copies on the non-tail path carry the new properties. */
  function MergeRow(r: Row, start: nat, end: nat, isFirst: bool, span: int): (r': Row)
    requires start < |r.cells| && end <= |r.cells|
    requires r.cells[start].properties.Some?
    ensures r'.properties == r.properties
    ensures var c := r.cells[start];
            var c' := MergedCell(c, start < end, isFirst, span);
            start < |r'.cells| && r'.cells[start] == c' && r'.cells[..start] == r.cells[..start] &&
            c'.properties.value.width == c.properties.value.width &&
            c'.properties.value.vMerge == Some(if isFirst then "restart" else "") &&
            (start < end ==> c'.properties.value.gridSpan == Some(span)) &&
            (start >= end ==> r'.cells == r.cells[start := c']) &&
            (start < end && end == |r.cells| ==> |r'.cells| == start + 1) &&
            (start < end < |r.cells| ==>
               |r'.cells| == start + 1 + end &&
               r'.cells[start + 1..] == r.cells[..end][start := c'])
  {
    var c' := MergedCell(r.cells[start], start < end, isFirst, span);
    if start < end then
      if end == |r.cells| then r.(cells := r.cells[..start] + [c'])
      else r.(cells := r.cells[..start] + [c'] + r.cells[..start] + [c'] + r.cells[start + 1..end])
    else r.(cells := r.cells[start := c'])
  }

  /** Bounds that fit their rows: each start is a cell with properties, each end at most the row length. */
  predicate BoundsFit(rows: seq<Row>, b: seq<(nat, nat)>, firstRow: nat, lastRow: nat) {
    lastRow < |rows| && |b| == lastRow + 1 - firstRow &&
    forall i :: firstRow <= i <= lastRow ==>
      b[i - firstRow].0 < |rows[i].cells| && b[i - firstRow].1 <= |rows[i].cells| &&
      rows[i].cells[b[i - firstRow].0].properties.Some?
  }

  /** The apply pass: rows of the range are merged at their bounds, the others kept. */
  function ApplyMerge(rows: seq<Row>, b: seq<(nat, nat)>, firstRow: nat, lastRow: nat, span: int): (r: seq<Row>)
    requires BoundsFit(rows, b, firstRow, lastRow)
    ensures |r| == |rows|
    ensures forall i :: 0 <= i < |rows| && !(firstRow <= i <= lastRow) ==> r[i] == rows[i]
    ensures forall i :: firstRow <= i <= lastRow ==>
              r[i] == MergeRow(rows[i], b[i - firstRow].0, b[i - firstRow].1, i == firstRow, span)
  {
    seq(|rows|, i requires 0 <= i < |rows| =>
      if firstRow <= i <= lastRow
      then MergeRow(rows[i], b[i - firstRow].0, b[i - firstRow].1, i == firstRow, span)
      else rows[i])
  }

  /** What `Merge` dereferences: when the merge goes ahead, the start cell of
      every row of the range has properties. Other cells, and every cell of a
      rejected merge, may lack them. */
  predicate MergeStartsHaveProperties(t: Table, firstRow: int, firstCol: int, lastRow: int, lastCol: int) {
    var b := MergeBounds(t, firstRow, firstCol, lastRow, lastCol);
    b.Some? ==>
      forall i :: firstRow <= i <= lastRow ==>
        b.value[i - firstRow].0 < |t.rows[i].cells| &&
        t.rows[i].cells[b.value[i - firstRow].0].properties.Some?
  }

  /** The bounds `MergeBounds` finds fit their rows and sit on the rectangle's columns. */
  lemma MergeBoundsFit(t: Table, firstRow: int, firstCol: int, lastRow: int, lastCol: int)
    requires MergeStartsHaveProperties(t, firstRow, firstCol, lastRow, lastCol)
    requires MergeBounds(t, firstRow, firstCol, lastRow, lastCol).Some?
    ensures 0 <= firstRow
    ensures var b := MergeBounds(t, firstRow, firstCol, lastRow, lastCol).value;
            BoundsFit(t.rows, b, firstRow, lastRow) &&
            forall i :: firstRow <= i <= lastRow ==>
              EndCol(t.rows[i].cells, b[i - firstRow].0) == firstCol &&
              EndCol(t.rows[i].cells, b[i - firstRow].1 - 1) == lastCol
  {
    var b := MergeBounds(t, firstRow, firstCol, lastRow, lastCol).value;
    forall i | firstRow <= i <= lastRow
      ensures RowBounds(t.rows[i].cells, firstCol, lastCol) == Some(b[i - firstRow])
    {
    }
  }

  /** `Merge(firstRow, firstCol, lastRow, lastCol)`: all-or-nothing. Unless the
      guard holds and every row of the range is aligned, the table comes back
      unchanged; otherwise each row of the range is merged at its bounds and
      the rows outside are unchanged. Widths are never recomputed. */
  function Merge(t: Table, firstRow: int, firstCol: int, lastRow: int, lastCol: int): (r: Table)
    requires MergeStartsHaveProperties(t, firstRow, firstCol, lastRow, lastCol)
    ensures r.properties == t.properties && r.grid == t.grid && r.conf == t.conf
    ensures |r.rows| == |t.rows|
    ensures MergeBounds(t, firstRow, firstCol, lastRow, lastCol).None? ==> r == t
    ensures MergeBounds(t, firstRow, firstCol, lastRow, lastCol).Some? ==>
              var b := MergeBounds(t, firstRow, firstCol, lastRow, lastCol).value;
              (forall i :: 0 <= i < |t.rows| && !(firstRow <= i <= lastRow) ==> r.rows[i] == t.rows[i]) &&
              (forall i :: firstRow <= i <= lastRow ==>
                 var bd := b[i - firstRow];
                 bd.0 < |t.rows[i].cells| && bd.1 <= |t.rows[i].cells| &&
                 EndCol(t.rows[i].cells, bd.0) == firstCol &&
                 EndCol(t.rows[i].cells, bd.1 - 1) == lastCol &&
                 r.rows[i] == MergeRow(t.rows[i], bd.0, bd.1, i == firstRow, lastCol - firstCol + 1))
  {
    match MergeBounds(t, firstRow, firstCol, lastRow, lastCol)
    case None => t
    case Some(b) =>
      MergeBoundsFit(t, firstRow, firstCol, lastRow, lastCol);
      t.(rows := ApplyMerge(t.rows, b, firstRow, lastRow, lastCol - firstCol + 1))
  }

  /** Column indices count from 1: with every span at least 1, no cell ends at
      column 0, so a rectangle starting at column 0 is rejected as misaligned. */
  lemma MergeFromColumnZeroRejected(t: Table, firstRow: int, lastRow: int, lastCol: int)
    requires 0 <= firstRow < |t.rows|
    requires forall j :: 0 <= j < |t.rows[firstRow].cells| ==> Span(t.rows[firstRow].cells[j]) >= 1
    ensures MergeBounds(t, firstRow, 0, lastRow, lastCol).None?
    ensures Merge(t, firstRow, 0, lastRow, lastCol) == t
  {
    var cells := t.rows[firstRow].cells;
    forall j | 0 <= j < |cells| ensures EndCol(cells, j) != 0 {
      PositiveSpans(cells, j + 1);
    }
  }

  lemma {:induction false} PositiveSpans(cells: seq<Cell>, n: nat)
    requires n <= |cells|
    requires forall j :: 0 <= j < |cells| ==> Span(cells[j]) >= 1
    ensures CumSpan(cells, n) >= n
  {
    if n > 0 {
      PositiveSpans(cells, n - 1);
    }
  }

  // ---------------------------------------------------------------------------
  // The non-tail branch of the horizontal merge
  // ---------------------------------------------------------------------------

  /** The number of grid columns a row's cells claim. */
  function Total(cells: seq<Cell>): int {
    CumSpan(cells, |cells|)
  }

  lemma {:induction false} CumSpanPrefix(x: seq<Cell>, k: nat, m: nat)
    requires k <= m <= |x|
    ensures CumSpan(x[..m], k) == CumSpan(x, k)
  {
    if k > 0 {
      CumSpanPrefix(x, k - 1, m);
      assert x[..m][k - 1] == x[k - 1];
    }
  }

  lemma {:induction false} TotalAppend(a: seq<Cell>, b: seq<Cell>)
    ensures Total(a + b) == Total(a) + Total(b)
    decreases |b|
  {
    if |b| == 0 {
      assert a + b == a;
    } else {
      var n := |a + b|;
      var b' := b[..|b| - 1];
      assert (a + b)[..n - 1] == a + b';
      CumSpanPrefix(a + b, n - 1, n - 1);
      CumSpanPrefix(b, |b| - 1, |b| - 1);
      assert b[..|b| - 1] == b';
      TotalAppend(a, b');
    }
  }

  /** The apply step of one row as evidently intended: the cells start..end-1
      collapse into the start cell and the cells from `end` on follow it. */
  function MergeRowIntended(r: Row, start: nat, end: nat, isFirst: bool, span: int): (r': Row)
    requires start < |r.cells| && end <= |r.cells|
    requires r.cells[start].properties.Some?
    ensures r'.properties == r.properties
    ensures start < |r'.cells| && r'.cells[..start] == r.cells[..start] &&
            r'.cells[start] == MergedCell(r.cells[start], start < end, isFirst, span)
  {
    var c' := MergedCell(r.cells[start], start < end, isFirst, span);
    if start < end then r.(cells := r.cells[..start] + [c'] + r.cells[end..])
    else r.(cells := r.cells[start := c'])
  }

  /** The intended merge keeps the row as wide as before when the new span
      is the number of columns the merged cells covered, drops exactly the
      cells merged into the start cell and keeps the cells after them. */
  lemma MergeRowIntendedKeepsColumns(r: Row, start: nat, end: nat, isFirst: bool, span: int)
    requires start < end <= |r.cells| && r.cells[start].properties.Some?
    requires span == CumSpan(r.cells, end) - CumSpan(r.cells, start)
    ensures var m := MergeRowIntended(r, start, end, isFirst, span).cells;
            Total(m) == Total(r.cells) &&
            |m| == |r.cells| - (end - start - 1) && m[start + 1..] == r.cells[end..]
  {
    var cells := r.cells;
    var c' := MergedCell(cells[start], true, isFirst, span);
    var m := cells[..start] + [c'] + cells[end..];
    assert m[start + 1..] == cells[end..];
    TotalAppend(cells[..start] + [c'], cells[end..]);
    TotalAppend(cells[..start], [c']);
    TotalSingle(c');
    assert cells == cells[..start] + cells[start..end] + cells[end..];
    TotalAppend(cells[..start] + cells[start..end], cells[end..]);
    TotalAppend(cells[..start], cells[start..end]);
    assert Total(cells[..start]) == CumSpan(cells, start) by {
      CumSpanPrefix(cells, start, start);
    }
    assert Total(cells[..end]) == CumSpan(cells, end) by {
      CumSpanPrefix(cells, end, end);
    }
    assert cells[..end] == cells[..start] + cells[start..end];
    TotalAppend(cells[..start], cells[start..end]);
  }

  /** `Merge` with the intended apply step in every row. */
  function MergeIntended(t: Table, firstRow: int, firstCol: int, lastRow: int, lastCol: int): (r: Table)
    requires MergeStartsHaveProperties(t, firstRow, firstCol, lastRow, lastCol)
    ensures r.properties == t.properties && r.grid == t.grid && r.conf == t.conf
    ensures |r.rows| == |t.rows|
    ensures MergeBounds(t, firstRow, firstCol, lastRow, lastCol).None? ==> r == t
    ensures MergeBounds(t, firstRow, firstCol, lastRow, lastCol).Some? ==>
              var b := MergeBounds(t, firstRow, firstCol, lastRow, lastCol).value;
              (forall i :: 0 <= i < |t.rows| && !(firstRow <= i <= lastRow) ==> r.rows[i] == t.rows[i]) &&
              (forall i :: firstRow <= i <= lastRow ==>
                 var bd := b[i - firstRow];
                 bd.0 < |t.rows[i].cells| && bd.1 <= |t.rows[i].cells| &&
                 EndCol(t.rows[i].cells, bd.0) == firstCol &&
                 EndCol(t.rows[i].cells, bd.1 - 1) == lastCol &&
                 r.rows[i] == MergeRowIntended(t.rows[i], bd.0, bd.1, i == firstRow, lastCol - firstCol + 1))
  {
    match MergeBounds(t, firstRow, firstCol, lastRow, lastCol)
    case None => t
    case Some(b) =>
      MergeBoundsFit(t, firstRow, firstCol, lastRow, lastCol);
      t.(rows := ApplyMergeIntended(t.rows, b, firstRow, lastRow, lastCol - firstCol + 1))
  }

  /** The apply pass with the intended row merge. */
  function ApplyMergeIntended(rows: seq<Row>, b: seq<(nat, nat)>, firstRow: nat, lastRow: nat, span: int)
    : (r: seq<Row>)
    requires BoundsFit(rows, b, firstRow, lastRow)
    ensures |r| == |rows|
    ensures forall i :: 0 <= i < |rows| && !(firstRow <= i <= lastRow) ==> r[i] == rows[i]
    ensures forall i :: firstRow <= i <= lastRow ==>
              r[i] == MergeRowIntended(rows[i], b[i - firstRow].0, b[i - firstRow].1, i == firstRow, span)
  {
    seq(|rows|, i requires 0 <= i < |rows| =>
      if firstRow <= i <= lastRow
      then MergeRowIntended(rows[i], b[i - firstRow].0, b[i - firstRow].1, i == firstRow, span)
      else rows[i])
  }

  /** With the intended apply step, every merged row whose start cell spans a
      single column keeps its width in grid columns. */
  lemma MergeIntendedKeepsColumns(t: Table, firstRow: int, firstCol: int, lastRow: int, lastCol: int, i: nat)
    requires MergeStartsHaveProperties(t, firstRow, firstCol, lastRow, lastCol)
    requires MergeBounds(t, firstRow, firstCol, lastRow, lastCol).Some?
    requires firstRow <= i <= lastRow
    requires var bd := MergeBounds(t, firstRow, firstCol, lastRow, lastCol).value[i - firstRow];
             bd.0 < |t.rows[i].cells| && Span(t.rows[i].cells[bd.0]) == 1
    ensures Total(MergeIntended(t, firstRow, firstCol, lastRow, lastCol).rows[i].cells) == Total(t.rows[i].cells)
  {
    var bd := MergeBounds(t, firstRow, firstCol, lastRow, lastCol).value[i - firstRow];
    MergeRowIntendedColumns(t.rows[i], bd.0, bd.1, i == firstRow, firstCol, lastCol);
  }

  /** One row of the intended merge at bounds that sit on the rectangle's
      columns keeps its width when its start cell spans a single column. */
  lemma MergeRowIntendedColumns(r: Row, start: nat, end: nat, isFirst: bool, firstCol: int, lastCol: int)
    requires start < |r.cells| && 0 < end <= |r.cells| && r.cells[start].properties.Some?
    requires Span(r.cells[start]) == 1
    requires EndCol(r.cells, start) == firstCol && EndCol(r.cells, end - 1) == lastCol
    ensures Total(MergeRowIntended(r, start, end, isFirst, lastCol - firstCol + 1).cells) == Total(r.cells)
  {
    var cells := r.cells;
    var span := lastCol - firstCol + 1;
    if start < end {
      assert CumSpan(cells, start + 1) == CumSpan(cells, start) + 1;
      MergeRowIntendedKeepsColumns(r, start, end, isFirst, span);
    } else {
      TotalUpdate(cells, start, MergedCell(cells[start], false, isFirst, span));
    }
  }

  /** Replacing a cell by one of the same span keeps the row's width. */
  lemma TotalUpdate(cells: seq<Cell>, k: nat, c: Cell)
    requires k < |cells| && Span(c) == Span(cells[k])
    ensures Total(cells[k := c]) == Total(cells)
  {
    assert cells == cells[..k] + [cells[k]] + cells[k + 1..];
    assert cells[k := c] == cells[..k] + [c] + cells[k + 1..];
    TotalAppend(cells[..k] + [cells[k]], cells[k + 1..]);
    TotalAppend(cells[..k], [cells[k]]);
    TotalAppend(cells[..k] + [c], cells[k + 1..]);
    TotalAppend(cells[..k], [c]);
    TotalSingle(c);
    TotalSingle(cells[k]);
  }

  lemma TotalSingle(c: Cell)
    ensures Total([c]) == Span(c)
  {
    assert CumSpan([c], 1) == CumSpan([c], 0) + Span([c][0]);
  }

  /** A single-column cell, told apart from the others by its width `n`. */
  function UnitCell(n: int): (c: Cell)
    ensures c.properties.Some? && Span(c) == 1
  {
    Cell(Some(NoCellProperties.(width := Some(Width(n, "dxa")))), None)
  }

  const UnitRow := Row(None, [UnitCell(1), UnitCell(2), UnitCell(3)])

  /** Two rows of three single-column cells. */
  function UnitTable(props: TableProperties, conf: ConfSet): Table {
    Table(props, [], [UnitRow, UnitRow], conf)
  }

  /** In a row of three single-column cells, columns 1..2 are cells 0..1. */
  lemma UnitTableBounds(props: TableProperties, conf: ConfSet)
    ensures MergeBounds(UnitTable(props, conf), 0, 1, 1, 2).Some?
    ensures MergeBounds(UnitTable(props, conf), 0, 1, 1, 2).value[0] == (0, 2)
    ensures MergeStartsHaveProperties(UnitTable(props, conf), 0, 1, 1, 2)
  {
    var cells := UnitRow.cells;
    assert cells[0] == UnitCell(1) && cells[1] == UnitCell(2) && cells[2] == UnitCell(3);
    assert CumSpan(cells, 1) == 1;
    assert CumSpan(cells, 2) == 2;
    assert CumSpan(cells, 3) == 3;
    assert EndCol(cells, 0) == 1 && EndCol(cells, 1) == 2 && EndCol(cells, 2) == 3;
    assert RowAligned(cells, 1, 2);
    assert RowBounds(cells, 1, 2) == Some((0, 2));
  }

  /** The merged start cell of the first row. */
  function UnitMerged(): Cell {
    MergedCell(UnitCell(1), true, true, 2)
  }

  /** As written, the first row becomes the merged cell twice followed by the
      second input cell; the third input cell is gone. */
  lemma MergeUnitTable(props: TableProperties, conf: ConfSet)
    ensures MergeStartsHaveProperties(UnitTable(props, conf), 0, 1, 1, 2)
    ensures Merge(UnitTable(props, conf), 0, 1, 1, 2).rows[0].cells == [UnitMerged(), UnitMerged(), UnitCell(2)]
  {
    UnitTableBounds(props, conf);
    var r := MergeRow(UnitRow, 0, 2, true, 2);
    assert r.cells == [UnitMerged()] + [UnitMerged()] + UnitRow.cells[1..2];
  }

  /** With the intended step, the first row becomes the merged cell followed
      by the third input cell. */
  lemma MergeIntendedUnitTable(props: TableProperties, conf: ConfSet)
    ensures MergeStartsHaveProperties(UnitTable(props, conf), 0, 1, 1, 2)
    ensures MergeIntended(UnitTable(props, conf), 0, 1, 1, 2).rows[0].cells == [UnitMerged(), UnitCell(3)]
  {
    UnitTableBounds(props, conf);
    var r := MergeRowIntended(UnitRow, 0, 2, true, 2);
    assert r.cells == [UnitMerged()] + UnitRow.cells[2..];
  }

  /** As written, merging columns 1..2 of two rows of three single-column
      cells leaves the first row with the merged cell twice and the second
      input cell, and drops the third: five grid columns where there were
      three. The intended step gives the merged cell and the third input cell,
      three columns. */
  lemma MergeDuplicatesCells(props: TableProperties, conf: ConfSet)
    ensures var t := UnitTable(props, conf);
            MergeStartsHaveProperties(t, 0, 1, 1, 2) &&
            var m := Merge(t, 0, 1, 1, 2).rows[0].cells;
            var k := MergeIntended(t, 0, 1, 1, 2).rows[0].cells;
            Total(UnitRow.cells) == 3 &&
            |m| == 3 && m[0] == m[1] && m[2] == UnitCell(2) && UnitCell(3) !in m && Total(m) == 5 &&
            |k| == 2 && k[1] == UnitCell(3) && Total(k) == 3
  {
    MergeUnitTable(props, conf);
    MergeIntendedUnitTable(props, conf);
    var c' := UnitMerged();
    assert Span(c') == 2;
    assert c'.properties.value.width == Some(Width(1, "dxa"));
    var cells := UnitRow.cells;
    assert cells[0] == UnitCell(1) && cells[1] == UnitCell(2) && cells[2] == UnitCell(3);
    assert CumSpan(cells, 1) == 1 && CumSpan(cells, 2) == 2 && CumSpan(cells, 3) == 3;
    var m := [c', c', UnitCell(2)];
    assert m[0] == c' && m[1] == c' && m[2] == UnitCell(2);
    assert CumSpan(m, 1) == 2;
    assert CumSpan(m, 2) == 4;
    assert CumSpan(m, 3) == 5;
    var k := [c', UnitCell(3)];
    assert CumSpan(k, 1) == 2;
    assert CumSpan(k, 2) == 3;
  }

  // ---------------------------------------------------------------------------
  // AddRow / AddCell
  // ---------------------------------------------------------------------------

  /** Where a positional insert lands: at `position` when it is an index of
      the sequence, at the end otherwise. */
  function InsertIndex(len: nat, position: int): (p: nat)
    ensures 0 <= position < len ==> p == position
    ensures !(0 <= position < len) ==> p == len
  {
    if 0 <= position < len then position else len
  }

  const NewRow := Row(Some(NoRowProperties), [])
  const NewCell := Cell(Some(NoCellProperties), None)

  /** `Table.AddRow`: one new row with empty properties, at `position` or
      appended; the other rows keep their order; returns the new row. */
  function AddRow(t: Table, position: int): (res: (Table, Row))
    ensures res.1 == NewRow && res.1.properties.Some? && res.1.cells == []
    ensures var p := InsertIndex(|t.rows|, position);
            |res.0.rows| == |t.rows| + 1 && res.0.rows[p] == res.1 && Remove(res.0.rows, p) == t.rows
    ensures res.0.properties == t.properties && res.0.grid == t.grid && res.0.conf == t.conf
  {
    var p := InsertIndex(|t.rows|, position);
    RemoveInsert(t.rows, p, NewRow);
    (t.(rows := Insert(t.rows, p, NewRow)), NewRow)
  }

  /** `WTableRow.AddCell`: one new cell with empty properties and no paragraphs,
      at `position` or appended; returns the new cell. */
  function AddCell(r: Row, position: int): (res: (Row, Cell))
    ensures res.1 == NewCell && res.1.properties == Some(NoCellProperties)
    ensures var p := InsertIndex(|r.cells|, position);
            |res.0.cells| == |r.cells| + 1 && res.0.cells[p] == res.1 && Remove(res.0.cells, p) == r.cells
    ensures res.0.properties == r.properties
  {
    var p := InsertIndex(|r.cells|, position);
    RemoveInsert(r.cells, p, NewCell);
    (r.(cells := Insert(r.cells, p, NewCell)), NewCell)
  }
}
