/**
 Building and decorating a table: the three constructors, the width rule,
 the border bitmask, and the style-option bitmask with the conditional-style
 descriptors it derives (apitable.go).
 */
module TableBuild {
  import opened DocxTypes
  import opened Bits

  // ---------------------------------------------------------------------------
  // Widths
  // ---------------------------------------------------------------------------

  /** The width record `Width` builds: the sign of the value picks the unit. */
  function WidthOf(w: int): (r: Width)
    ensures r.w == w
    ensures r.typ == "dxa" <==> w > 0
    ensures r.typ == "auto" <==> w <= 0
  {
    Width(w, if w > 0 then "dxa" else "auto")
  }

  /** `Table.Width`: replaces the table width; nothing else changes. */
  function SetTableWidth(t: Table, w: int): (r: Table)
    ensures r.properties.width == Some(WidthOf(w))
    ensures r.properties.(width := None) == t.properties.(width := None)
    ensures r.grid == t.grid && r.rows == t.rows && r.conf == t.conf
  {
    t.(properties := t.properties.(width := Some(WidthOf(w))))
  }

  /** `WTableCell.Width`: replaces the cell width; the cell must carry properties. */
  function SetCellWidth(c: Cell, w: int): (r: Cell)
    requires c.properties.Some?
    ensures r.properties.Some? && r.properties.value.width == Some(WidthOf(w))
    ensures r.properties.value.(width := None) == c.properties.value.(width := None)
    ensures r.paragraphs == c.paragraphs
  {
    c.(properties := Some(c.properties.value.(width := Some(WidthOf(w)))))
  }

  // ---------------------------------------------------------------------------
  // Borders
  // ---------------------------------------------------------------------------

  const BorderTop := 1
  const BorderLeft := 2
  const BorderBottom := 4
  const BorderRight := 8
  const BorderInsideH := 16
  const BorderInsideV := 32
  /** All six sides. */
  const BorderAll := 63

  /** The bit index of each side, in the order the sides are visited. */
  const BorderBits: seq<nat> := [0, 1, 2, 3, 4, 5]

  const NoBorders := TableBorders(None, None, None, None, None, None)

  /** One arm of the `switch which & f`: the case label picks the side. */
  function SetSide(g: TableBorders, masked: int, b: Border): TableBorders {
    if masked == BorderTop then g.(top := Some(b))
    else if masked == BorderLeft then g.(left := Some(b))
    else if masked == BorderBottom then g.(bottom := Some(b))
    else if masked == BorderRight then g.(right := Some(b))
    else if masked == BorderInsideH then g.(insideH := Some(b))
    else if masked == BorderInsideV then g.(insideV := Some(b))
    else g
  }

  /** The loop over the side flags. */
  function SetSides(g: TableBorders, which: int, b: Border, bits: seq<nat>): TableBorders
    decreases |bits|
  {
    if bits == [] then g else SetSides(SetSide(g, AndBit(which, bits[0]), b), which, b, bits[1..])
  }

  /** The side value after `Borders`: the new border when its bit is in `which`. */
  function NewSide(prev: Option<Border>, which: int, bit: nat, b: Border): Option<Border> {
    if Bit(which, bit) then Some(b) else prev
  }

  /** `Table.Borders`: sets exactly the sides whose bit is in `which`, creating
      the border record when the table had none; nothing else changes. */
  function Borders(t: Table, which: int, border: string, color: string, size: int, space: int): (r: Table)
    ensures r.properties.borders.Some?
    ensures var g := if t.properties.borders.Some? then t.properties.borders.value else NoBorders;
            var b := Border(border, size, space, color);
            r.properties.borders.value == TableBorders(
              NewSide(g.top, which, 0, b), NewSide(g.left, which, 1, b),
              NewSide(g.bottom, which, 2, b), NewSide(g.right, which, 3, b),
              NewSide(g.insideH, which, 4, b), NewSide(g.insideV, which, 5, b))
    ensures r.properties.(borders := None) == t.properties.(borders := None)
    ensures r.grid == t.grid && r.rows == t.rows && r.conf == t.conf
  {
    var g := if t.properties.borders.Some? then t.properties.borders.value else NoBorders;
    var b := Border(border, size, space, color);
    var g' := SetSides(g, which, b, BorderBits);
    SetSidesSpec(g, which, b);
    t.(properties := t.properties.(borders := Some(g')))
  }

  /** One pass of the switch for bit k of `which`: the side of that bit is
      set exactly when the bit is present. */
  lemma SetSideBit(g: TableBorders, which: int, k: nat, b: Border)
    requires k < 6
    ensures SetSide(g, AndBit(which, k), b) ==
            if !Bit(which, k) then g
            else if k == 0 then g.(top := Some(b))
            else if k == 1 then g.(left := Some(b))
            else if k == 2 then g.(bottom := Some(b))
            else if k == 3 then g.(right := Some(b))
            else if k == 4 then g.(insideH := Some(b))
            else g.(insideV := Some(b))
  {
    assert Pow2(0) == 1 && Pow2(1) == 2 && Pow2(2) == 4 && Pow2(3) == 8 && Pow2(4) == 16 && Pow2(5) == 32;
  }

  lemma SetSidesSpec(g: TableBorders, which: int, b: Border)
    ensures SetSides(g, which, b, BorderBits) == TableBorders(
              NewSide(g.top, which, 0, b), NewSide(g.left, which, 1, b),
              NewSide(g.bottom, which, 2, b), NewSide(g.right, which, 3, b),
              NewSide(g.insideH, which, 4, b), NewSide(g.insideV, which, 5, b))
  {
    var g1 := SetSide(g, AndBit(which, 0), b);
    var g2 := SetSide(g1, AndBit(which, 1), b);
    var g3 := SetSide(g2, AndBit(which, 2), b);
    var g4 := SetSide(g3, AndBit(which, 3), b);
    var g5 := SetSide(g4, AndBit(which, 4), b);
    var g6 := SetSide(g5, AndBit(which, 5), b);
    SetSideBit(g, which, 0, b);
    SetSideBit(g1, which, 1, b);
    SetSideBit(g2, which, 2, b);
    SetSideBit(g3, which, 3, b);
    SetSideBit(g4, which, 4, b);
    SetSideBit(g5, which, 5, b);
    assert BorderBits[1..][1..][1..][1..][1..][1..] == [];
    assert SetSides(g, which, b, BorderBits) == g6;
  }

  /** `TABLE_BORDER_ALL` sets all six sides to the new border. */
  lemma BordersAll(t: Table, border: string, color: string, size: int, space: int)
    ensures var b := Some(Border(border, size, space, color));
            Borders(t, BorderAll, border, color, size, space).properties.borders
              == Some(TableBorders(b, b, b, b, b, b))
  {
    assert Bit(BorderAll, 0) && Bit(BorderAll, 1) && Bit(BorderAll, 2);
    assert Bit(BorderAll, 3) && Bit(BorderAll, 4) && Bit(BorderAll, 5);
  }

  // ---------------------------------------------------------------------------
  // Style options and the conditional-style descriptors
  // ---------------------------------------------------------------------------

  const OptionFirstRow := 0x0020
  const OptionLastRow := 0x0040
  const OptionFirstColumn := 0x0080
  const OptionLastColumn := 0x0100
  const OptionHorizontalBand := 0x0200
  const OptionVerticalBand := 0x0400

  /** The bit index of each option, in the order the options are visited. */
  const OptionBits: seq<nat> := [5, 6, 7, 8, 9, 10]

  /** The twelve `cnfStyle` flags in the order of the characters of `val`:
      firstRow, lastRow, firstColumn, lastColumn, oddVBand, evenVBand,
      oddHBand, evenHBand, then the four corners. */
  function ConfFlags(cs: ConfStyle): (f: seq<int>)
    ensures |f| == 12
  {
    [cs.firstRow, cs.lastRow, cs.firstCol, cs.lastCol,
     cs.oddVBand, cs.evenVBand, cs.oddHBand, cs.evenHBand,
     cs.firstRowFirstCol, cs.firstRowLastCol, cs.lastRowFirstCol, cs.lastRowLastCol]
  }

  /** `val` spells the integer flags: '1' exactly where the flag is 1. */
  predicate ValMatchesFlags(cs: ConfStyle) {
    |cs.val| == 12 &&
    forall i :: 0 <= i < 12 ==> (cs.val[i] == '1' <==> ConfFlags(cs)[i] == 1) &&
                                (cs.val[i] == '0' <==> ConfFlags(cs)[i] == 0)
  }

  /** Exactly the flag at `pos` is set, to 1. */
  predicate OnlyFlag(cs: ConfStyle, pos: nat) {
    forall i :: 0 <= i < 12 ==> ConfFlags(cs)[i] == if i == pos then 1 else 0
  }

  predicate NoFlags(cs: ConfStyle) {
    forall i :: 0 <= i < 12 ==> ConfFlags(cs)[i] == 0
  }

  const ZeroConf := ConfStyle("", 0, 0, 0, 0, 0, 0, 0, 0, 0, 0, 0, 0)

  const FirstRowStyle := ZeroConf.(val := "100000000000", firstRow := 1)
  const LastRowStyle := ZeroConf.(val := "010000000000", lastRow := 1)
  const FirstColStyle := ZeroConf.(val := "001000000000", firstCol := 1)
  const LastColStyle := ZeroConf.(val := "000100000000", lastCol := 1)
  const OddHBandStyle := ZeroConf.(val := "000000100000", oddHBand := 1)
  const OddVBandStyle := ZeroConf.(val := "000010000000", oddVBand := 1)
  const NoneStyle := ZeroConf.(val := "000000000000")

  /** Each derived descriptor has a `val` consistent with its flags and a single
      flag in the position of its role; the fallback has none. */
  lemma DescriptorsWellFormed()
    ensures ValMatchesFlags(FirstRowStyle) && OnlyFlag(FirstRowStyle, 0)
    ensures ValMatchesFlags(LastRowStyle) && OnlyFlag(LastRowStyle, 1)
    ensures ValMatchesFlags(FirstColStyle) && OnlyFlag(FirstColStyle, 2)
    ensures ValMatchesFlags(LastColStyle) && OnlyFlag(LastColStyle, 3)
    ensures ValMatchesFlags(OddVBandStyle) && OnlyFlag(OddVBandStyle, 4)
    ensures ValMatchesFlags(OddHBandStyle) && OnlyFlag(OddHBandStyle, 6)
    ensures ValMatchesFlags(NoneStyle) && NoFlags(NoneStyle)
  {
    EdgeDescriptorsWellFormed();
    BandDescriptorsWellFormed();
    assert ConfFlags(NoneStyle) == [0, 0, 0, 0, 0, 0, 0, 0, 0, 0, 0, 0];
  }

  lemma EdgeDescriptorsWellFormed()
    ensures ValMatchesFlags(FirstRowStyle) && OnlyFlag(FirstRowStyle, 0)
    ensures ValMatchesFlags(LastRowStyle) && OnlyFlag(LastRowStyle, 1)
    ensures ValMatchesFlags(FirstColStyle) && OnlyFlag(FirstColStyle, 2)
    ensures ValMatchesFlags(LastColStyle) && OnlyFlag(LastColStyle, 3)
  {
    RowDescriptorsWellFormed();
    ColumnDescriptorsWellFormed();
  }

  lemma RowDescriptorsWellFormed()
    ensures ValMatchesFlags(FirstRowStyle) && OnlyFlag(FirstRowStyle, 0)
    ensures ValMatchesFlags(LastRowStyle) && OnlyFlag(LastRowStyle, 1)
  {
    OneHotWellFormed(FirstRowStyle, 0);
    OneHotWellFormed(LastRowStyle, 1);
  }

  lemma ColumnDescriptorsWellFormed()
    ensures ValMatchesFlags(FirstColStyle) && OnlyFlag(FirstColStyle, 2)
    ensures ValMatchesFlags(LastColStyle) && OnlyFlag(LastColStyle, 3)
  {
    OneHotWellFormed(FirstColStyle, 2);
    OneHotWellFormed(LastColStyle, 3);
  }

  lemma BandDescriptorsWellFormed()
    ensures ValMatchesFlags(OddVBandStyle) && OnlyFlag(OddVBandStyle, 4)
    ensures ValMatchesFlags(OddHBandStyle) && OnlyFlag(OddHBandStyle, 6)
  {
    OneHotWellFormed(OddVBandStyle, 4);
    OneHotWellFormed(OddHBandStyle, 6);
  }

  /** A 12-character string of '0' with a single '1' at `pos`. */
  function OneHot(pos: nat): (s: string)
    ensures |s| == 12
    ensures forall i :: 0 <= i < 12 ==> s[i] == if i == pos then '1' else '0'
  {
    seq(12, i => if i == pos then '1' else '0')
  }

  lemma OneHotWellFormed(cs: ConfStyle, pos: nat)
    requires pos < 12
    requires cs.val == OneHot(pos)
    requires ConfFlags(cs) == seq(12, i => if i == pos then 1 else 0)
    ensures ValMatchesFlags(cs) && OnlyFlag(cs, pos)
  {
  }

  /** `setConfStyle`: derives a descriptor for each look flag that holds (edge
      flags equal to 1, band flags whose "no band" switch is 0) and always the
      fallback; descriptors whose flag does not hold are left as they were. */
  function SetConfStyle(g: Look, c: ConfSet): (r: ConfSet)
    ensures r.firstRow == if g.firstRow == 1 then Some(FirstRowStyle) else c.firstRow
    ensures r.lastRow == if g.lastRow == 1 then Some(LastRowStyle) else c.lastRow
    ensures r.firstCol == if g.firstCol == 1 then Some(FirstColStyle) else c.firstCol
    ensures r.lastCol == if g.lastCol == 1 then Some(LastColStyle) else c.lastCol
    ensures r.oddHBand == if g.noHBand == 0 then Some(OddHBandStyle) else c.oddHBand
    ensures r.oddVBand == if g.noVBand == 0 then Some(OddVBandStyle) else c.oddVBand
    ensures r.none == Some(NoneStyle)
  {
    var c1 := if g.firstRow == 1 then c.(firstRow := Some(FirstRowStyle)) else c;
    var c2 := if g.lastRow == 1 then c1.(lastRow := Some(LastRowStyle)) else c1;
    var c3 := if g.firstCol == 1 then c2.(firstCol := Some(FirstColStyle)) else c2;
    var c4 := if g.lastCol == 1 then c3.(lastCol := Some(LastColStyle)) else c3;
    var c5 := if g.noHBand == 0 then c4.(oddHBand := Some(OddHBandStyle)) else c4;
    var c6 := if g.noVBand == 0 then c5.(oddVBand := Some(OddVBandStyle)) else c5;
    c6.(none := Some(NoneStyle))
  }

  /** Derivation only adds: a descriptor present before is present after. */
  lemma SetConfStyleNeverClears(g: Look, c: ConfSet)
    ensures var r := SetConfStyle(g, c);
            (c.firstRow.Some? ==> r.firstRow.Some?) && (c.lastRow.Some? ==> r.lastRow.Some?) &&
            (c.firstCol.Some? ==> r.firstCol.Some?) && (c.lastCol.Some? ==> r.lastCol.Some?) &&
            (c.oddHBand.Some? ==> r.oddHBand.Some?) && (c.oddVBand.Some? ==> r.oddVBand.Some?)
  {
  }

  /** Every descriptor derivation creates is well formed. */
  predicate DerivedOnly(c: ConfSet) {
    (c.firstRow.Some? ==> c.firstRow.value == FirstRowStyle) &&
    (c.lastRow.Some? ==> c.lastRow.value == LastRowStyle) &&
    (c.firstCol.Some? ==> c.firstCol.value == FirstColStyle) &&
    (c.lastCol.Some? ==> c.lastCol.value == LastColStyle) &&
    (c.oddHBand.Some? ==> c.oddHBand.value == OddHBandStyle) &&
    (c.oddVBand.Some? ==> c.oddVBand.value == OddVBandStyle) &&
    (c.none.Some? ==> c.none.value == NoneStyle)
  }

  /** Derivation keeps a set made of derived descriptors that way. */
  lemma SetConfStylePreservesDerived(g: Look, c: ConfSet)
    requires DerivedOnly(c)
    ensures DerivedOnly(SetConfStyle(g, c)) && SetConfStyle(g, c).none.Some?
  {
  }

  /** One arm of the `switch option & opt`: the case label picks the look field. */
  function SetLookFlag(g: Look, masked: int): Look {
    if masked == OptionFirstRow then g.(firstRow := 1)
    else if masked == OptionFirstColumn then g.(firstCol := 1)
    else if masked == OptionLastRow then g.(lastRow := 1)
    else if masked == OptionLastColumn then g.(lastCol := 1)
    else if masked == OptionHorizontalBand then g.(noHBand := 0)
    else if masked == OptionVerticalBand then g.(noVBand := 0)
    else g
  }

  function SetLookFlags(g: Look, option: int, bits: seq<nat>): Look
    decreases |bits|
  {
    if bits == [] then g else SetLookFlags(SetLookFlag(g, AndBit(option, bits[0])), option, bits[1..])
  }

  /** `option ^ (HORIZONTAL_BAND | VERTICAL_BAND)`: the option with both band bits inverted. */
  function LookBits(option: int): (b: int)
    ensures Bit(b, 9) <==> !Bit(option, 9)
    ensures Bit(b, 10) <==> !Bit(option, 10)
    ensures forall j :: 0 <= j && j != 9 && j != 10 ==> (Bit(b, j) <==> Bit(option, j))
  {
    FlipBit(FlipBit(option, 9), 10)
  }

  function Flag(b: bool): int {
    if b then 1 else 0
  }

  /** One pass of the switch for bit k of the option. */
  lemma SetLookFlagBit(g: Look, option: int, k: nat)
    requires 5 <= k <= 10
    ensures SetLookFlag(g, AndBit(option, k)) ==
            if !Bit(option, k) then g
            else if k == 5 then g.(firstRow := 1)
            else if k == 6 then g.(lastRow := 1)
            else if k == 7 then g.(firstCol := 1)
            else if k == 8 then g.(lastCol := 1)
            else if k == 9 then g.(noHBand := 0)
            else g.(noVBand := 0)
  {
    assert Pow2(5) == 0x20 && Pow2(6) == 0x40 && Pow2(7) == 0x80;
    assert Pow2(8) == 0x100 && Pow2(9) == 0x200 && Pow2(10) == 0x400;
  }

  /** The loop over the six option bits, one switch after another. */
  lemma SetLookFlagsUnroll(g: Look, option: int)
    ensures SetLookFlags(g, option, OptionBits) ==
            SetLookFlag(SetLookFlag(SetLookFlag(SetLookFlag(SetLookFlag(SetLookFlag(g,
              AndBit(option, 5)), AndBit(option, 6)), AndBit(option, 7)),
              AndBit(option, 8)), AndBit(option, 9)), AndBit(option, 10))
  {
    assert OptionBits[1..] == [6, 7, 8, 9, 10];
    assert OptionBits[1..][1..] == [7, 8, 9, 10];
    assert OptionBits[1..][1..][1..] == [8, 9, 10];
    assert OptionBits[1..][1..][1..][1..] == [9, 10];
    assert OptionBits[1..][1..][1..][1..][1..] == [10];
    assert OptionBits[1..][1..][1..][1..][1..][1..] == [];
  }

  /** The look `Style` installs for an option bitmask. */
  function StyleLook(option: int): (g: Look)
    ensures g.val == Hex04(LookBits(option))
    ensures g.firstRow == Flag(Bit(option, 5)) && g.lastRow == Flag(Bit(option, 6))
    ensures g.firstCol == Flag(Bit(option, 7)) && g.lastCol == Flag(Bit(option, 8))
    ensures g.noHBand == Flag(!Bit(option, 9)) && g.noVBand == Flag(!Bit(option, 10))
  {
    var g0 := Look(Hex04(LookBits(option)), 0, 0, 0, 0, 1, 1);
    var g1 := SetLookFlag(g0, AndBit(option, 5));
    var g2 := SetLookFlag(g1, AndBit(option, 6));
    var g3 := SetLookFlag(g2, AndBit(option, 7));
    var g4 := SetLookFlag(g3, AndBit(option, 8));
    var g5 := SetLookFlag(g4, AndBit(option, 9));
    SetLookFlagBit(g0, option, 5);
    SetLookFlagBit(g1, option, 6);
    SetLookFlagBit(g2, option, 7);
    SetLookFlagBit(g3, option, 8);
    SetLookFlagBit(g4, option, 9);
    SetLookFlagBit(g5, option, 10);
    SetLookFlagsUnroll(g0, option);
    SetLookFlags(g0, option, OptionBits)
  }

  /** `Table.Style`: stores the style name, replaces the look by the one the
      option bitmask selects, and derives descriptors from it. */
  function Style(t: Table, style: string, option: int): (r: Table)
    ensures r.properties.style == Some(style)
    ensures r.properties.look == Some(StyleLook(option))
    ensures r.conf == SetConfStyle(StyleLook(option), t.conf)
    ensures r.properties.(style := None, look := None) == t.properties.(style := None, look := None)
    ensures r.grid == t.grid && r.rows == t.rows
  {
    var g := StyleLook(option);
    t.(properties := t.properties.(style := Some(style), look := Some(g)),
       conf := SetConfStyle(g, t.conf))
  }

  /** A style option selects a descriptor exactly when its bit is requested
      (or, for the fallback and for a descriptor derived earlier, always). */
  lemma StyleDerivesRequested(t: Table, style: string, option: int)
    ensures var c := Style(t, style, option).conf;
            (c.firstRow.Some? <==> Bit(option, 5) || t.conf.firstRow.Some?) &&
            (c.lastRow.Some? <==> Bit(option, 6) || t.conf.lastRow.Some?) &&
            (c.firstCol.Some? <==> Bit(option, 7) || t.conf.firstCol.Some?) &&
            (c.lastCol.Some? <==> Bit(option, 8) || t.conf.lastCol.Some?) &&
            (c.oddHBand.Some? <==> Bit(option, 9) || t.conf.oddHBand.Some?) &&
            (c.oddVBand.Some? <==> Bit(option, 10) || t.conf.oddVBand.Some?) &&
            c.none == Some(NoneStyle)
  {
  }

  /** Option 0 inverts to both band bits: 0x0600. */
  lemma LookBitsZero()
    ensures LookBits(0) == 0x600
  {
    assert Pow2(9) == 0x200 && Pow2(10) == 0x400;
    assert !Bit(0, 9) by { assert Bit(0, 9) == Bit(0, 0); }
    assert FlipBit(0, 9) == 0x200;
    assert !Bit(0x200, 10) by { assert Bit(0x200, 10) == Bit(0, 0); }
  }

  /** `%04X` of 0x0600. */
  lemma Hex04Band()
    ensures Hex04(0x600) == "0600"
  {
    assert HexDigits(6) == "6";
    assert HexDigits(0x60) == "60";
    assert HexDigits(0x600) == "600";
    assert Zeros(1) == "0";
  }

  /** With option 0 (what every constructor uses) the look value is "0600". */
  lemma StyleZeroLook()
    ensures StyleLook(0).val == "0600"
    ensures StyleLook(0).noHBand == 1 && StyleLook(0).noVBand == 1
    ensures SetConfStyle(StyleLook(0), NoConfStyles) == NoConfStyles.(none := Some(NoneStyle))
  {
    LookBitsZero();
    Hex04Band();
    assert !Bit(0, 9) && !Bit(0, 10) by {
      assert Bit(0, 9) == Bit(0, 0);
      assert Bit(0, 10) == Bit(0, 0);
    }
    assert !Bit(0, 5) && !Bit(0, 6) && !Bit(0, 7) && !Bit(0, 8) by {
      assert Bit(0, 5) == Bit(0, 0) && Bit(0, 6) == Bit(0, 0);
      assert Bit(0, 7) == Bit(0, 0) && Bit(0, 8) == Bit(0, 0);
    }
  }

  // ---------------------------------------------------------------------------
  // Constructors
  // ---------------------------------------------------------------------------

  /** The table record before any setter runs: look "0000", empty derived set. */
  function BareTable(grid: seq<Option<int>>, rows: seq<Row>): Table {
    Table(TableProperties(None, None, None, None, None, Some(Look("0000", 0, 0, 0, 0, 0, 0))),
          grid, rows, NoConfStyles)
  }

  const AutoCell := Cell(Some(NoCellProperties.(width := Some(Width(0, "auto")))), None)

  /** The rows `AddTable` builds: `rows` rows of `cols` "auto" cells each. */
  function AutoRows(rows: nat, cols: nat): (rs: seq<Row>)
    ensures |rs| == rows
    ensures forall i :: 0 <= i < rows ==>
              rs[i].properties == Some(NoRowProperties) && |rs[i].cells| == cols &&
              forall j :: 0 <= j < cols ==> rs[i].cells[j] == AutoCell
  {
    var cells := seq(cols, j => AutoCell);
    seq(rows, i => Row(Some(NoRowProperties), cells))
  }

  /** `AddTable`: `rows` rows of `cols` cells, each of width 0 "auto" whatever
      the table width is; style "TableGrid", look "0600", no grid. */
  function AddTable(rows: nat, cols: nat, tableWidth: int): (t: Table)
    ensures t.rows == AutoRows(rows, cols) && t.grid == []
    ensures t.properties.width == Some(WidthOf(tableWidth))
    ensures t.properties.style == Some("TableGrid")
    ensures t.properties.look.Some? && t.properties.look.value.val == "0600"
    ensures t.conf == NoConfStyles.(none := Some(NoneStyle))
  {
    var rs := AutoRows(rows, cols);
    var t0 := SetTableWidth(BareTable([], rs), tableWidth);
    StyleZeroLook();
    assert t0.rows == rs && t0.conf == NoConfStyles;
    Style(t0, "TableGrid", 0)
  }

  /** `AddTableEmpty`: no rows, no grid, no width, style "TableGrid". */
  function AddTableEmpty(): (t: Table)
    ensures t.rows == [] && t.grid == [] && t.properties.width == None
    ensures t.properties.style == Some("TableGrid")
    ensures t.properties.look.Some? && t.properties.look.value.val == "0600"
    ensures t.conf == NoConfStyles.(none := Some(NoneStyle))
  {
    StyleZeroLook();
    Style(BareTable([], []), "TableGrid", 0)
  }

  /** The sum of the positive entries. */
  function SumPositive(ws: seq<int>): (s: int)
    ensures s >= 0
    ensures s == 0 <==> forall j :: 0 <= j < |ws| ==> ws[j] <= 0
  {
    if ws == [] then 0
    else
      var rest := SumPositive(ws[1..]);
      assert forall j :: 1 <= j < |ws| ==> ws[1..][j - 1] == ws[j];
      (if ws[0] > 0 then ws[0] else 0) + rest
  }

  /** `AddTableTwips`: one row per height, one "dxa" cell per column width; a
      row has a height exactly when its height is positive; grid entries are
      absent at non-positive widths; the table width falls back to the sum of
      the positive column widths. */
  function AddTableTwips(rowHeights: seq<int>, colWidths: seq<int>, tableWidth: int): (t: Table)
    ensures |t.rows| == |rowHeights| && |t.grid| == |colWidths|
    ensures forall j :: 0 <= j < |colWidths| ==>
              t.grid[j] == if colWidths[j] > 0 then Some(colWidths[j]) else None
    ensures forall i :: 0 <= i < |rowHeights| ==>
              t.rows[i].properties.Some? &&
              (t.rows[i].properties.value.height.Some? <==> rowHeights[i] > 0) &&
              (rowHeights[i] > 0 ==> t.rows[i].properties.value.height.value.val == rowHeights[i]) &&
              |t.rows[i].cells| == |colWidths| &&
              forall j :: 0 <= j < |colWidths| ==>
                t.rows[i].cells[j].properties.Some? &&
                t.rows[i].cells[j].properties.value.width == Some(Width(colWidths[j], "dxa"))
    ensures t.properties.width ==
              Some(WidthOf(if tableWidth <= 0 then SumPositive(colWidths) else tableWidth))
    ensures t.properties.style == Some("TableGrid")
  {
    var (grid, total) := TwipsGrid(colWidths);
    var w := if tableWidth <= 0 then total else tableWidth;
    var rows := seq(|rowHeights|, i requires 0 <= i < |rowHeights| => TwipsRow(rowHeights[i], colWidths));
    SetTableWidth(Style(BareTable(grid, rows), "TableGrid", 0), w)
  }

  /** The grid loop of `AddTableTwips` from column i on, over the grid made
      with one nil entry per column: an entry is set at each positive width,
      and the positive widths are added to `total`. */
  function TwipsGridFrom(colWidths: seq<int>, i: nat, grid: seq<Option<int>>, total: int)
    : (r: (seq<Option<int>>, int))
    requires i <= |colWidths| == |grid|
    ensures |r.0| == |colWidths|
    ensures forall j :: 0 <= j < i ==> r.0[j] == grid[j]
    ensures forall j :: i <= j < |colWidths| ==>
              r.0[j] == if colWidths[j] > 0 then Some(colWidths[j]) else grid[j]
    ensures r.1 == total + SumPositive(colWidths[i..])
    decreases |colWidths| - i
  {
    if i == |colWidths| then (grid, total)
    else
      assert colWidths[i..][1..] == colWidths[i + 1..];
      var w := colWidths[i];
      if w > 0 then TwipsGridFrom(colWidths, i + 1, grid[i := Some(w)], total + w)
      else TwipsGridFrom(colWidths, i + 1, grid, total)
  }

  /** The grid `AddTableTwips` builds and the total it falls back to: an entry
      exactly at the positive widths, and their sum. */
  function TwipsGrid(colWidths: seq<int>): (r: (seq<Option<int>>, int))
    ensures |r.0| == |colWidths|
    ensures forall j :: 0 <= j < |colWidths| ==>
              r.0[j] == if colWidths[j] > 0 then Some(colWidths[j]) else None
    ensures r.1 == SumPositive(colWidths)
  {
    assert colWidths[0..] == colWidths;
    TwipsGridFrom(colWidths, 0, seq(|colWidths|, j => None), 0)
  }

  /** A row `AddTableTwips` builds: a "dxa" cell per column width, a height only when positive. */
  function TwipsRow(h: int, colWidths: seq<int>): (r: Row)
    ensures r.properties.Some?
    ensures r.properties.value.height.Some? <==> h > 0
    ensures h > 0 ==> r.properties.value.height.value.val == h
    ensures |r.cells| == |colWidths|
    ensures forall j :: 0 <= j < |colWidths| ==>
              r.cells[j].properties.Some? &&
              r.cells[j].properties.value.width == Some(Width(colWidths[j], "dxa"))
  {
    var cells := seq(|colWidths|, j requires 0 <= j < |colWidths| =>
                       Cell(Some(NoCellProperties.(width := Some(Width(colWidths[j], "dxa")))), None));
    Row(Some(NoRowProperties.(height := if h > 0 then Some(RowHeight("", h)) else None)), cells)
  }
}
