/**
 The decoding side of the codec (structtable.go): the attribute logic of
 `w:tblLook` and `w:cnfStyle`, and the element loops that rebuild tables,
 rows, cells and their property groups with their defaults.

 The XML reader is abstracted to a tree of elements with attributes; the
 helpers the decoders call but which are defined elsewhere (`GetInt`,
 `getAtt`, paragraph, border, shading, table-property and grid decoding)
 are parameters.
 */
module TableDecode {
  import opened DocxTypes
  import opened TableBuild

  /** An attribute by its local name. */
  datatype Attr = Attr(name: string, value: string)

  /** An element by its local name, with attributes and child elements. */
  datatype Element = Element(name: string, attrs: seq<Attr>, children: seq<Element>)

  /** The helpers the decoders rely on. `parseInt` is `GetInt` (`None` where
      it reports an error); `attribute` is `getAtt`. */
  datatype Decoders = Decoders(
    parseInt: string -> Option<int>,
    attribute: (seq<Attr>, string) -> string,
    paragraph: Element -> Paragraph,
    cellBorders: Element -> CellBorders,
    shade: Element -> Shade,
    tableProperties: Element -> TableProperties,
    grid: Element -> seq<Option<int>>)

  // ---------------------------------------------------------------------------
  // Digit flags
  // ---------------------------------------------------------------------------

  /** The first byte of the UTF-8 encoding of a character. */
  function LeadByte(c: char): (b: nat)
    ensures b < 256
    ensures c as int < 0x80 ==> b == c as int
  {
    var n := c as int;
    if n < 0x80 then n
    else if n < 0x800 then 0xC0 + n / 0x40
    else if n < 0x10000 then 0xE0 + n / 0x1000
    else 0xF0 + (n / 0x40000) % 8
  }

  /** `int(v[0] - '0')`: byte arithmetic on the first byte, wrapping modulo 256. */
  function DigitFlag(v: string): (f: int)
    requires v != ""
    ensures 0 <= f < 256
    ensures '0' <= v[0] <= '9' ==> f == v[0] as int - '0' as int
  {
    (LeadByte(v[0]) - '0' as int) % 256
  }

  /** The decimal text the encoder writes for an integer attribute. */
  function Decimal(n: int): (s: string)
    ensures |s| >= 1
    ensures 0 <= n < 10 ==> s == [('0' as int + n) as char]
    decreases if n < 0 then 1 - n else n
  {
    if n < 0 then "-" + Decimal(-n)
    else if n < 10 then [('0' as int + n) as char]
    else Decimal(n / 10) + [('0' as int + n % 10) as char]
  }

  /** The last non-empty value of the attribute `name`, if any. */
  function LastValue(attrs: seq<Attr>, name: string): (r: Option<string>)
    ensures r.Some? ==> r.value != ""
  {
    if |attrs| == 0 then None
    else
      var later := LastValue(attrs[1..], name);
      if later.Some? then later
      else if attrs[0].name == name && attrs[0].value != "" then Some(attrs[0].value)
      else None
  }

  function TextOr(v: Option<string>, dflt: string): string {
    if v.Some? then v.value else dflt
  }

  function FlagOr(v: Option<string>, dflt: int): int
    requires v.Some? ==> v.value != ""
  {
    if v.Some? then DigitFlag(v.value) else dflt
  }

  // ---------------------------------------------------------------------------
  // w:tblLook
  // ---------------------------------------------------------------------------

  const ZeroLook := Look("", 0, 0, 0, 0, 0, 0)

  const LookFlagNames: set<string> :=
    {"firstRow", "lastRow", "firstColumn", "lastColumn", "noHBand", "noVBand"}

  /** The flag a look attribute name addresses. */
  function LookFlag(g: Look, name: string): int {
    if name == "firstRow" then g.firstRow
    else if name == "lastRow" then g.lastRow
    else if name == "firstColumn" then g.firstCol
    else if name == "lastColumn" then g.lastCol
    else if name == "noHBand" then g.noHBand
    else g.noVBand
  }

  /** One attribute of `WTableLook.UnmarshalXML`; empty values and unknown
      names change nothing. */
  function LookAttr(g: Look, a: Attr): (r: Look)
    ensures r.val == if a.name == "val" && a.value != "" then a.value else g.val
    ensures forall name :: name in LookFlagNames ==>
              LookFlag(r, name) == if a.name == name && a.value != "" then DigitFlag(a.value) else LookFlag(g, name)
  {
    if a.value == "" then g
    else if a.name == "val" then g.(val := a.value)
    else if a.name == "firstRow" then g.(firstRow := DigitFlag(a.value))
    else if a.name == "lastRow" then g.(lastRow := DigitFlag(a.value))
    else if a.name == "firstColumn" then g.(firstCol := DigitFlag(a.value))
    else if a.name == "lastColumn" then g.(lastCol := DigitFlag(a.value))
    else if a.name == "noHBand" then g.(noHBand := DigitFlag(a.value))
    else if a.name == "noVBand" then g.(noVBand := DigitFlag(a.value))
    else g
  }

  /** `WTableLook.UnmarshalXML`: the attributes in document order, decoded
      into `g`. */
  function DecodeLook(attrs: seq<Attr>, g: Look): (r: Look)
    ensures r.val == TextOr(LastValue(attrs, "val"), g.val)
    ensures forall name :: name in LookFlagNames ==>
              LookFlag(r, name) == FlagOr(LastValue(attrs, name), LookFlag(g, name))
  {
    if |attrs| == 0 then g else DecodeLook(attrs[1..], LookAttr(g, attrs[0]))
  }

  /** Each field is decided by the last non-empty attribute of its name;
      without one it keeps its value. */
  lemma DecodeLookLastWins(attrs: seq<Attr>, g: Look)
    ensures DecodeLook(attrs, g) ==
            Look(TextOr(LastValue(attrs, "val"), g.val),
                 FlagOr(LastValue(attrs, "firstRow"), g.firstRow),
                 FlagOr(LastValue(attrs, "lastRow"), g.lastRow),
                 FlagOr(LastValue(attrs, "firstColumn"), g.firstCol),
                 FlagOr(LastValue(attrs, "lastColumn"), g.lastCol),
                 FlagOr(LastValue(attrs, "noHBand"), g.noHBand),
                 FlagOr(LastValue(attrs, "noVBand"), g.noVBand))
  {
    var r := DecodeLook(attrs, g);
    assert LookFlag(r, "firstRow") == r.firstRow && LookFlag(r, "lastRow") == r.lastRow;
    assert LookFlag(r, "firstColumn") == r.firstCol && LookFlag(r, "lastColumn") == r.lastCol;
    assert LookFlag(r, "noHBand") == r.noHBand && LookFlag(r, "noVBand") == r.noVBand;
  }

  /** An attribute that occurs once, last of its name, with a non-empty value. */
  lemma {:induction false} LastValueAt(attrs: seq<Attr>, k: nat, name: string)
    requires k < |attrs| && attrs[k].name == name && attrs[k].value != ""
    requires forall j :: k < j < |attrs| ==> attrs[j].name != name
    ensures LastValue(attrs, name) == Some(attrs[k].value)
  {
    if k == 0 {
      LastValueAbsent(attrs[1..], name);
    } else {
      LastValueAt(attrs[1..], k - 1, name);
    }
  }

  lemma {:induction false} LastValueAbsent(attrs: seq<Attr>, name: string)
    requires forall j :: 0 <= j < |attrs| ==> attrs[j].name != name || attrs[j].value == ""
    ensures LastValue(attrs, name) == None
  {
    if |attrs| > 0 {
      LastValueAbsent(attrs[1..], name);
    }
  }

  /** The attributes the encoder writes for a look, in field order. */
  function LookAttrs(g: Look): seq<Attr> {
    [Attr("val", g.val), Attr("firstRow", Decimal(g.firstRow)), Attr("lastRow", Decimal(g.lastRow)),
     Attr("firstColumn", Decimal(g.firstCol)), Attr("lastColumn", Decimal(g.lastCol)),
     Attr("noHBand", Decimal(g.noHBand)), Attr("noVBand", Decimal(g.noVBand))]
  }

  predicate Digit(n: int) {
    0 <= n < 10
  }

  /** A written look whose flags are single digits reads back unchanged. */
  lemma LookRoundTrip(g: Look)
    requires Digit(g.firstRow) && Digit(g.lastRow) && Digit(g.firstCol) && Digit(g.lastCol)
    requires Digit(g.noHBand) && Digit(g.noVBand)
    ensures DecodeLook(LookAttrs(g), ZeroLook) == g
  {
    var a := LookAttrs(g);
    DecodeLookLastWins(a, ZeroLook);
    LookFlagsLast(g);
    if g.val != "" {
      LastValueAt(a, 0, "val");
    } else {
      LastValueAbsent(a, "val");
    }
  }

  /** Each flag of a written look is the last attribute of its name. */
  lemma LookFlagsLast(g: Look)
    ensures var a := LookAttrs(g);
            LastValue(a, "firstRow") == Some(Decimal(g.firstRow)) &&
            LastValue(a, "lastRow") == Some(Decimal(g.lastRow)) &&
            LastValue(a, "firstColumn") == Some(Decimal(g.firstCol)) &&
            LastValue(a, "lastColumn") == Some(Decimal(g.lastCol)) &&
            LastValue(a, "noHBand") == Some(Decimal(g.noHBand)) &&
            LastValue(a, "noVBand") == Some(Decimal(g.noVBand))
  {
    var a := LookAttrs(g);
    LastValueAt(a, 6, "noVBand");
    LastValueAt(a, 5, "noHBand");
    LastValueAt(a, 4, "lastColumn");
    LastValueAt(a, 3, "firstColumn");
    LastValueAt(a, 2, "lastRow");
    LastValueAt(a, 1, "firstRow");
  }

  // ---------------------------------------------------------------------------
  // w:cnfStyle
  // ---------------------------------------------------------------------------

  const ConfFlagNames: set<string> :=
    {"firstRow", "lastRow", "firstColumn", "lastColumn", "oddVBand", "evenVBand",
     "oddHBand", "evenHBand", "firstRowFirstColumn", "firstRowLastColumn",
     "lastRowFirstColumn", "lastRowLastColumn"}

  /** The flag a conditional-style attribute name addresses. */
  function ConfFlag(cs: ConfStyle, name: string): int {
    if name == "firstRow" then cs.firstRow
    else if name == "lastRow" then cs.lastRow
    else if name == "firstColumn" then cs.firstCol
    else if name == "lastColumn" then cs.lastCol
    else if name == "oddVBand" then cs.oddVBand
    else if name == "evenVBand" then cs.evenVBand
    else if name == "oddHBand" then cs.oddHBand
    else if name == "evenHBand" then cs.evenHBand
    else if name == "firstRowFirstColumn" then cs.firstRowFirstCol
    else if name == "firstRowLastColumn" then cs.firstRowLastCol
    else if name == "lastRowFirstColumn" then cs.lastRowFirstCol
    else cs.lastRowLastCol
  }

  /** One attribute of `WTableConfStyle.UnmarshalXML`; empty values and
      unknown names change nothing. */
  function ConfAttr(cs: ConfStyle, a: Attr): (r: ConfStyle)
    ensures r.val == if a.name == "val" && a.value != "" then a.value else cs.val
    ensures forall name :: name in ConfFlagNames ==>
              ConfFlag(r, name) == if a.name == name && a.value != "" then DigitFlag(a.value) else ConfFlag(cs, name)
  {
    if a.value == "" then cs
    else if a.name == "val" then cs.(val := a.value)
    else if a.name == "firstRow" then cs.(firstRow := DigitFlag(a.value))
    else if a.name == "lastRow" then cs.(lastRow := DigitFlag(a.value))
    else if a.name == "firstColumn" then cs.(firstCol := DigitFlag(a.value))
    else if a.name == "lastColumn" then cs.(lastCol := DigitFlag(a.value))
    else if a.name == "oddHBand" then cs.(oddHBand := DigitFlag(a.value))
    else if a.name == "evenHBand" then cs.(evenHBand := DigitFlag(a.value))
    else if a.name == "oddVBand" then cs.(oddVBand := DigitFlag(a.value))
    else if a.name == "evenVBand" then cs.(evenVBand := DigitFlag(a.value))
    else if a.name == "firstRowFirstColumn" then cs.(firstRowFirstCol := DigitFlag(a.value))
    else if a.name == "firstRowLastColumn" then cs.(firstRowLastCol := DigitFlag(a.value))
    else if a.name == "lastRowFirstColumn" then cs.(lastRowFirstCol := DigitFlag(a.value))
    else if a.name == "lastRowLastColumn" then cs.(lastRowLastCol := DigitFlag(a.value))
    else cs
  }

  /** `WTableConfStyle.UnmarshalXML`: the attributes in document order,
      decoded into `cs`. */
  function DecodeConfStyle(attrs: seq<Attr>, cs: ConfStyle): (r: ConfStyle)
    ensures r.val == TextOr(LastValue(attrs, "val"), cs.val)
    ensures forall name :: name in ConfFlagNames ==>
              ConfFlag(r, name) == FlagOr(LastValue(attrs, name), ConfFlag(cs, name))
  {
    if |attrs| == 0 then cs else DecodeConfStyle(attrs[1..], ConfAttr(cs, attrs[0]))
  }

  /** The attributes the encoder writes for a conditional style, in field order. */
  function ConfStyleAttrs(cs: ConfStyle): seq<Attr> {
    [Attr("val", cs.val),
     Attr("firstRow", Decimal(cs.firstRow)), Attr("lastRow", Decimal(cs.lastRow)),
     Attr("firstColumn", Decimal(cs.firstCol)), Attr("lastColumn", Decimal(cs.lastCol)),
     Attr("oddVBand", Decimal(cs.oddVBand)), Attr("evenVBand", Decimal(cs.evenVBand)),
     Attr("oddHBand", Decimal(cs.oddHBand)), Attr("evenHBand", Decimal(cs.evenHBand)),
     Attr("firstRowFirstColumn", Decimal(cs.firstRowFirstCol)),
     Attr("firstRowLastColumn", Decimal(cs.firstRowLastCol)),
     Attr("lastRowFirstColumn", Decimal(cs.lastRowFirstCol)),
     Attr("lastRowLastColumn", Decimal(cs.lastRowLastCol))]
  }

  predicate DigitFlags(cs: ConfStyle) {
    forall name :: name in ConfFlagNames ==> Digit(ConfFlag(cs, name))
  }

  /** Field k of the encoding carries the flag of its name. */
  lemma ConfStyleAttrsAt(cs: ConfStyle, name: string) returns (k: nat)
    requires name in ConfFlagNames
    ensures 1 <= k < 13 && ConfStyleAttrs(cs)[k] == Attr(name, Decimal(ConfFlag(cs, name)))
    ensures forall j :: k < j < 13 ==> ConfStyleAttrs(cs)[j].name != name
  {
    if name in {"firstRow", "lastRow", "firstColumn", "lastColumn"} {
      k := ConfStyleAttrsAtEdge(cs, name);
    } else if name in {"oddVBand", "evenVBand", "oddHBand", "evenHBand"} {
      k := ConfStyleAttrsAtBand(cs, name);
    } else {
      k := ConfStyleAttrsAtCorner(cs, name);
    }
  }

  lemma ConfStyleAttrsAtEdge(cs: ConfStyle, name: string) returns (k: nat)
    requires name in {"firstRow", "lastRow", "firstColumn", "lastColumn"}
    ensures 1 <= k < 13 && ConfStyleAttrs(cs)[k] == Attr(name, Decimal(ConfFlag(cs, name)))
    ensures forall j :: k < j < 13 ==> ConfStyleAttrs(cs)[j].name != name
  {
    if name == "firstRow" { k := 1; }
    else if name == "lastRow" { k := 2; }
    else if name == "firstColumn" { k := 3; }
    else { k := 4; }
  }

  lemma ConfStyleAttrsAtBand(cs: ConfStyle, name: string) returns (k: nat)
    requires name in {"oddVBand", "evenVBand", "oddHBand", "evenHBand"}
    ensures 1 <= k < 13 && ConfStyleAttrs(cs)[k] == Attr(name, Decimal(ConfFlag(cs, name)))
    ensures forall j :: k < j < 13 ==> ConfStyleAttrs(cs)[j].name != name
  {
    if name == "oddVBand" { k := 5; }
    else if name == "evenVBand" { k := 6; }
    else if name == "oddHBand" { k := 7; }
    else { k := 8; }
  }

  lemma ConfStyleAttrsAtCorner(cs: ConfStyle, name: string) returns (k: nat)
    requires name in {"firstRowFirstColumn", "firstRowLastColumn", "lastRowFirstColumn", "lastRowLastColumn"}
    ensures 1 <= k < 13 && ConfStyleAttrs(cs)[k] == Attr(name, Decimal(ConfFlag(cs, name)))
    ensures forall j :: k < j < 13 ==> ConfStyleAttrs(cs)[j].name != name
  {
    if name == "firstRowFirstColumn" { k := 9; }
    else if name == "firstRowLastColumn" { k := 10; }
    else if name == "lastRowFirstColumn" { k := 11; }
    else { k := 12; }
  }

  /** Two conditional styles that agree on `val` and on every named flag are equal. */
  lemma ConfStyleByFlags(r: ConfStyle, cs: ConfStyle)
    requires r.val == cs.val
    requires forall name :: name in ConfFlagNames ==> ConfFlag(r, name) == ConfFlag(cs, name)
    ensures r == cs
  {
    assert ConfFlag(r, "firstRow") == ConfFlag(cs, "firstRow");
    assert ConfFlag(r, "lastRow") == ConfFlag(cs, "lastRow");
    assert ConfFlag(r, "firstColumn") == ConfFlag(cs, "firstColumn");
    assert ConfFlag(r, "lastColumn") == ConfFlag(cs, "lastColumn");
    assert ConfFlag(r, "oddVBand") == ConfFlag(cs, "oddVBand");
    assert ConfFlag(r, "evenVBand") == ConfFlag(cs, "evenVBand");
    assert ConfFlag(r, "oddHBand") == ConfFlag(cs, "oddHBand");
    assert ConfFlag(r, "evenHBand") == ConfFlag(cs, "evenHBand");
    assert ConfFlag(r, "firstRowFirstColumn") == ConfFlag(cs, "firstRowFirstColumn");
    assert ConfFlag(r, "firstRowLastColumn") == ConfFlag(cs, "firstRowLastColumn");
    assert ConfFlag(r, "lastRowFirstColumn") == ConfFlag(cs, "lastRowFirstColumn");
    assert ConfFlag(r, "lastRowLastColumn") == ConfFlag(cs, "lastRowLastColumn");
  }

  /** A single-digit flag of a written conditional style reads back unchanged. */
  lemma ConfStyleFlagRoundTrip(cs: ConfStyle, name: string)
    requires name in ConfFlagNames && Digit(ConfFlag(cs, name))
    ensures ConfFlag(DecodeConfStyle(ConfStyleAttrs(cs), ZeroConf), name) == ConfFlag(cs, name)
  {
    var a := ConfStyleAttrs(cs);
    var k := ConfStyleAttrsAt(cs, name);
    LastValueAt(a, k, name);
  }

  /** The `val` of a written conditional style reads back unchanged. */
  lemma ConfStyleValRoundTrip(cs: ConfStyle)
    ensures DecodeConfStyle(ConfStyleAttrs(cs), ZeroConf).val == cs.val
  {
    var a := ConfStyleAttrs(cs);
    if cs.val != "" {
      LastValueAt(a, 0, "val");
    } else {
      LastValueAbsent(a, "val");
    }
  }

  /** A written conditional style whose flags are single digits reads back unchanged. */
  lemma ConfStyleRoundTrip(cs: ConfStyle)
    requires DigitFlags(cs)
    ensures DecodeConfStyle(ConfStyleAttrs(cs), ZeroConf) == cs
  {
    var a := ConfStyleAttrs(cs);
    var r := DecodeConfStyle(a, ZeroConf);
    forall name | name in ConfFlagNames ensures ConfFlag(r, name) == ConfFlag(cs, name) {
      ConfStyleFlagRoundTrip(cs, name);
    }
    ConfStyleValRoundTrip(cs);
    ConfStyleByFlags(r, cs);
  }

  // ---------------------------------------------------------------------------
  // Element loops
  // ---------------------------------------------------------------------------

  /** The element name the property decoders dispatch the conditional style on. */
  const ConfStyleName := "confStyle"

  /** The number of elements in a forest. */
  function Size(items: seq<Element>): nat {
    if |items| == 0 then 0 else 1 + Size(items[0].children) + Size(items[1..])
  }

  lemma {:induction false} SizeAppend(a: seq<Element>, b: seq<Element>)
    ensures Size(a + b) == Size(a) + Size(b)
  {
    if |a| == 0 {
      assert a + b == b;
    } else {
      assert (a + b)[0] == a[0] && (a + b)[1..] == a[1..] + b;
      SizeAppend(a[1..], b);
    }
  }

  /** No attribute carries the name. */
  predicate NoneNamed(attrs: seq<Attr>, name: string) {
    forall j :: 0 <= j < |attrs| ==> attrs[j].name != name
  }

  /** No element carries the name. */
  predicate NoChildNamed(children: seq<Element>, name: string) {
    forall k :: 0 <= k < |children| ==> children[k].name != name
  }

  /** The `w:trHeight` attribute loop: every `val` is parsed (the last one
      wins, a parse error ends the decoding), every `hRule` copied. */
  function DecodeHeight(attrs: seq<Attr>, h: RowHeight, d: Decoders): (r: Result<RowHeight, string>)
    ensures r.Failure? ==> d.parseInt(r.error).None?
    ensures r.Success? && NoneNamed(attrs, "val") ==> r.value.val == h.val
    ensures r.Success? && NoneNamed(attrs, "hRule") ==> r.value.rule == h.rule
  {
    if |attrs| == 0 then Success(h)
    else
      assert forall j :: 1 <= j < |attrs| ==> attrs[1..][j - 1] == attrs[j];
      if attrs[0].name == "val" then
        match d.parseInt(attrs[0].value)
        case None => Failure(attrs[0].value)
        case Some(v) => DecodeHeight(attrs[1..], h.(val := v), d)
      else if attrs[0].name == "hRule" then DecodeHeight(attrs[1..], h.(rule := attrs[0].value), d)
      else DecodeHeight(attrs[1..], h, d)
  }

  /** The value of the first `val` attribute, or "" without one (`w:jc`). */
  function FirstVal(attrs: seq<Attr>): string {
    if |attrs| == 0 then "" else if attrs[0].name == "val" then attrs[0].value else FirstVal(attrs[1..])
  }

  /** Of repeated `val` attributes of `w:jc`, the first one wins. */
  lemma {:induction false} FirstValAt(attrs: seq<Attr>, k: nat)
    requires k < |attrs| && attrs[k].name == "val"
    requires forall j :: 0 <= j < k ==> attrs[j].name != "val"
    ensures FirstVal(attrs) == attrs[k].value
  {
    if k > 0 {
      FirstValAt(attrs[1..], k - 1);
    }
  }

  /** Without a `val` attribute, `w:jc` decodes to the empty value. */
  lemma {:induction false} FirstValAbsent(attrs: seq<Attr>)
    requires forall j :: 0 <= j < |attrs| ==> attrs[j].name != "val"
    ensures FirstVal(attrs) == ""
  {
    if |attrs| > 0 {
      FirstValAbsent(attrs[1..]);
    }
  }

  /** `WTableRowProperties.UnmarshalXML` over the children of `w:trPr`,
      decoding into `p`; `conf` is the element name taken for the
      conditional style. Every child is consumed whole. */
  function DecodeRowPropertiesAs(children: seq<Element>, p: RowProperties, d: Decoders, conf: string)
    : (r: Result<RowProperties, string>)
    ensures r.Failure? ==> d.parseInt(r.error).None?
    ensures r.Success? && NoChildNamed(children, "trHeight") ==> r.value.height == p.height
    ensures r.Success? && NoChildNamed(children, "jc") ==> r.value.justification == p.justification
    ensures r.Success? && NoChildNamed(children, conf) ==> r.value.confStyle == p.confStyle
  {
    if |children| == 0 then Success(p)
    else
      var e := children[0];
      assert forall k :: 1 <= k < |children| ==> children[1..][k - 1] == children[k];
      if e.name == "trHeight" then
        match DecodeHeight(e.attrs, RowHeight("", 0), d)
        case Failure(err) => Failure(err)
        case Success(h) => DecodeRowPropertiesAs(children[1..], p.(height := Some(h)), d, conf)
      else if e.name == "jc" then
        DecodeRowPropertiesAs(children[1..], p.(justification := Some(FirstVal(e.attrs))), d, conf)
      else if e.name == conf then
        DecodeRowPropertiesAs(children[1..], p.(confStyle := Some(DecodeConfStyle(e.attrs, ZeroConf))), d, conf)
      else DecodeRowPropertiesAs(children[1..], p, d, conf)
  }

  function DecodeRowProperties(children: seq<Element>, p: RowProperties, d: Decoders): Result<RowProperties, string> {
    DecodeRowPropertiesAs(children, p, d, ConfStyleName)
  }

  /** Every cell property set in `p` is still set in `q`. */
  predicate KeepsSet(p: CellProperties, q: CellProperties) {
    (p.confStyle.Some? ==> q.confStyle.Some?) && (p.width.Some? ==> q.width.Some?) &&
    (p.vMerge.Some? ==> q.vMerge.Some?) && (p.gridSpan.Some? ==> q.gridSpan.Some?) &&
    (p.borders.Some? ==> q.borders.Some?) && (p.shade.Some? ==> q.shade.Some?) &&
    (p.vAlign.Some? ==> q.vAlign.Some?)
  }

  /** `WTableCellProperties.UnmarshalXML` over a work list of elements,
      decoding into `p`. `w:tcW`, `w:vMerge`, `w:gridSpan` and `w:vAlign` are
      not skipped, so their own children are read next as if they were
      siblings; every other child is consumed whole. */
  function DecodeCellPropertiesAs(items: seq<Element>, p: CellProperties, d: Decoders, conf: string)
    : (r: Result<CellProperties, string>)
    ensures r.Failure? ==> r.error != "" && d.parseInt(r.error).None?
    ensures r.Success? ==> KeepsSet(p, r.value)
    decreases Size(items)
  {
    if |items| == 0 then Success(p)
    else
      var e := items[0];
      var rest := items[1..];
      var next := e.children + rest;
      SizeAppend(e.children, rest);
      if e.name == "tcW" then
        var v := d.attribute(e.attrs, "w");
        if v == "" then DecodeCellPropertiesAs(next, p.(width := Some(Width(0, ""))), d, conf)
        else match d.parseInt(v)
          case None => Failure(v)
          case Some(w) =>
            DecodeCellPropertiesAs(next, p.(width := Some(Width(w, d.attribute(e.attrs, "type")))), d, conf)
      else if e.name == "vMerge" then
        DecodeCellPropertiesAs(next, p.(vMerge := Some(d.attribute(e.attrs, "val"))), d, conf)
      else if e.name == "gridSpan" then
        var v := d.attribute(e.attrs, "val");
        if v == "" then DecodeCellPropertiesAs(next, p.(gridSpan := Some(0)), d, conf)
        else match d.parseInt(v)
          case None => Failure(v)
          case Some(n) => DecodeCellPropertiesAs(next, p.(gridSpan := Some(n)), d, conf)
      else if e.name == "vAlign" then
        DecodeCellPropertiesAs(next, p.(vAlign := Some(d.attribute(e.attrs, "val"))), d, conf)
      else if e.name == "tcBorders" then
        DecodeCellPropertiesAs(rest, p.(borders := Some(d.cellBorders(e))), d, conf)
      else if e.name == "shd" then
        DecodeCellPropertiesAs(rest, p.(shade := Some(d.shade(e))), d, conf)
      else if e.name == conf then
        DecodeCellPropertiesAs(rest, p.(confStyle := Some(DecodeConfStyle(e.attrs, ZeroConf))), d, conf)
      else DecodeCellPropertiesAs(rest, p, d, conf)
  }

  function DecodeCellProperties(items: seq<Element>, p: CellProperties, d: Decoders): Result<CellProperties, string> {
    DecodeCellPropertiesAs(items, p, d, ConfStyleName)
  }

  /** `WTableCell.UnmarshalXML` over the children of `w:tc`, into `c`:
      paragraphs are appended, `w:tcPr` decodes into the existing
      properties, anything else is skipped. */
  function DecodeCellChildren(children: seq<Element>, c: Cell, d: Decoders): (r: Result<Cell, string>)
    requires c.properties.Some?
    ensures r.Success? ==> r.value.properties.Some?
    ensures r.Success? && NoChildNamed(children, "tcPr") ==> r.value.properties == c.properties
  {
    if |children| == 0 then Success(c)
    else
      var e := children[0];
      assert forall k :: 1 <= k < |children| ==> children[1..][k - 1] == children[k];
      if e.name == "p" then
        var ps := if c.paragraphs.Some? then c.paragraphs.value else [];
        DecodeCellChildren(children[1..], c.(paragraphs := Some(ps + [d.paragraph(e)])), d)
      else if e.name == "tcPr" then
        match DecodeCellProperties(e.children, c.properties.value, d)
        case Failure(err) => Failure(err)
        case Success(p) => DecodeCellChildren(children[1..], c.(properties := Some(p)), d)
      else DecodeCellChildren(children[1..], c, d)
  }

  /** A decoded cell starts from empty properties and no paragraphs. */
  function DecodeCell(e: Element, d: Decoders): (r: Result<Cell, string>)
    ensures r.Success? ==> r.value.properties.Some?
    ensures r.Success? && NoChildNamed(e.children, "tcPr") ==> r.value.properties == Some(NoCellProperties)
  {
    DecodeCellChildren(e.children, Cell(Some(NoCellProperties), None), d)
  }

  /** `WTableRow.UnmarshalXML` over the children of `w:tr`, into `r`. */
  function DecodeRowChildren(children: seq<Element>, r: Row, d: Decoders): (res: Result<Row, string>)
    requires r.properties.Some? && AllHaveProperties(r.cells)
    ensures res.Success? ==> res.value.properties.Some? && AllHaveProperties(res.value.cells)
    ensures res.Success? && NoChildNamed(children, "trPr") ==> res.value.properties == r.properties
  {
    if |children| == 0 then Success(r)
    else
      var e := children[0];
      assert forall k :: 1 <= k < |children| ==> children[1..][k - 1] == children[k];
      if e.name == "trPr" then
        match DecodeRowProperties(e.children, r.properties.value, d)
        case Failure(err) => Failure(err)
        case Success(p) => DecodeRowChildren(children[1..], r.(properties := Some(p)), d)
      else if e.name == "tc" then
        match DecodeCell(e, d)
        case Failure(err) => Failure(err)
        case Success(c) => DecodeRowChildren(children[1..], r.(cells := r.cells + [c]), d)
      else DecodeRowChildren(children[1..], r, d)
  }

  /** A decoded row starts from empty properties and no cells. */
  function DecodeRow(e: Element, d: Decoders): (res: Result<Row, string>)
    ensures res.Success? ==> res.value.properties.Some? && AllHaveProperties(res.value.cells)
    ensures res.Success? && NoChildNamed(e.children, "trPr") ==> res.value.properties == Some(NoRowProperties)
  {
    DecodeRowChildren(e.children, Row(Some(NoRowProperties), []), d)
  }

  /** What the `w:tbl` loop collects before deriving descriptors: the table
      properties (absent without `w:tblPr`), the grid and the rows. */
  datatype TableParts = TableParts(properties: Option<TableProperties>, grid: seq<Option<int>>, rows: seq<Row>)

  predicate RowsHaveProperties(rows: seq<Row>) {
    forall i :: 0 <= i < |rows| ==> rows[i].properties.Some? && AllHaveProperties(rows[i].cells)
  }

  function DecodeTableChildren(children: seq<Element>, t: TableParts, d: Decoders): (r: Result<TableParts, string>)
    requires RowsHaveProperties(t.rows)
    ensures r.Success? ==> RowsHaveProperties(r.value.rows)
  {
    if |children| == 0 then Success(t)
    else
      var e := children[0];
      if e.name == "tr" then
        match DecodeRow(e, d)
        case Failure(err) => Failure(err)
        case Success(row) => DecodeTableChildren(children[1..], t.(rows := t.rows + [row]), d)
      else if e.name == "tblPr" then
        DecodeTableChildren(children[1..], t.(properties := Some(d.tableProperties(e))), d)
      else if e.name == "tblGrid" then
        DecodeTableChildren(children[1..], t.(grid := d.grid(e)), d)
      else DecodeTableChildren(children[1..], t, d)
  }

  const NoParts := TableParts(None, [], [])

  /** The table element decodes to parts that carry a look, as deriving the
      descriptors requires (a table without one cannot be decoded). */
  predicate HasLook(e: Element, d: Decoders) {
    var r := DecodeTableChildren(e.children, NoParts, d);
    r.Success? ==> r.value.properties.Some? && r.value.properties.value.look.Some?
  }

  /** `Table.UnmarshalXML`: the children loop, then the descriptors derived
      from the decoded look. */
  function DecodeTable(e: Element, d: Decoders): (r: Result<Table, string>)
    requires HasLook(e, d)
    ensures r.Success? ==> HasCellProperties(r.value)
    ensures r.Success? ==> r.value.properties.look.Some? &&
                           r.value.conf == SetConfStyle(r.value.properties.look.value, NoConfStyles)
  {
    match DecodeTableChildren(e.children, NoParts, d)
    case Failure(err) => Failure(err)
    case Success(parts) =>
      var props := parts.properties.value;
      Success(Table(props, parts.grid, parts.rows, SetConfStyle(props.look.value, NoConfStyles)))
  }

  // ---------------------------------------------------------------------------
  // What decoding promises
  // ---------------------------------------------------------------------------

  /** A decoded table derives exactly the descriptors its look selects, and a
      look written by `Style` reads back as written, so a styled table derives
      the same descriptors after a write and a read. */
  lemma DecodedDescriptors(e: Element, d: Decoders, option: int)
    requires HasLook(e, d)
    ensures var r := DecodeTable(e, d);
            r.Success? ==>
              var g := r.value.properties.look.value;
              var c := r.value.conf;
              (c.firstRow.Some? <==> g.firstRow == 1) && (c.lastRow.Some? <==> g.lastRow == 1) &&
              (c.firstCol.Some? <==> g.firstCol == 1) && (c.lastCol.Some? <==> g.lastCol == 1) &&
              (c.oddHBand.Some? <==> g.noHBand == 0) && (c.oddVBand.Some? <==> g.noVBand == 0) &&
              c.none == Some(NoneStyle)
    ensures DecodeLook(LookAttrs(StyleLook(option)), ZeroLook) == StyleLook(option)
  {
    LookRoundTrip(StyleLook(option));
  }

  /** Unknown children of `w:tr` are skipped. */
  lemma {:induction false} RowSkipsUnknown(a: seq<Element>, u: Element, b: seq<Element>, r: Row, d: Decoders)
    requires r.properties.Some? && AllHaveProperties(r.cells)
    requires u.name != "trPr" && u.name != "tc"
    ensures DecodeRowChildren(a + [u] + b, r, d) == DecodeRowChildren(a + b, r, d)
  {
    if |a| == 0 {
      assert a + [u] + b == [u] + b && ([u] + b)[1..] == b && a + b == b;
    } else {
      assert (a + [u] + b)[0] == a[0] == (a + b)[0];
      assert (a + [u] + b)[1..] == a[1..] + [u] + b && (a + b)[1..] == a[1..] + b;
      var e := a[0];
      if e.name == "trPr" {
        var p := DecodeRowProperties(e.children, r.properties.value, d);
        if p.Success? {
          RowSkipsUnknown(a[1..], u, b, r.(properties := Some(p.value)), d);
        }
      } else if e.name == "tc" {
        var c := DecodeCell(e, d);
        if c.Success? {
          RowSkipsUnknown(a[1..], u, b, r.(cells := r.cells + [c.value]), d);
        }
      } else {
        RowSkipsUnknown(a[1..], u, b, r, d);
      }
    }
  }

  /** Unknown children of `w:tbl` are skipped. */
  lemma {:induction false} TableSkipsUnknown(a: seq<Element>, u: Element, b: seq<Element>, t: TableParts, d: Decoders)
    requires RowsHaveProperties(t.rows)
    requires u.name != "tr" && u.name != "tblPr" && u.name != "tblGrid"
    ensures DecodeTableChildren(a + [u] + b, t, d) == DecodeTableChildren(a + b, t, d)
  {
    if |a| == 0 {
      assert a + [u] + b == [u] + b && ([u] + b)[1..] == b && a + b == b;
    } else {
      assert (a + [u] + b)[0] == a[0] == (a + b)[0];
      assert (a + [u] + b)[1..] == a[1..] + [u] + b && (a + b)[1..] == a[1..] + b;
      var e := a[0];
      if e.name == "tr" {
        var row := DecodeRow(e, d);
        if row.Success? {
          TableSkipsUnknown(a[1..], u, b, t.(rows := t.rows + [row.value]), d);
        }
      } else if e.name == "tblPr" {
        TableSkipsUnknown(a[1..], u, b, t.(properties := Some(d.tableProperties(e))), d);
      } else if e.name == "tblGrid" {
        TableSkipsUnknown(a[1..], u, b, t.(grid := d.grid(e)), d);
      } else {
        TableSkipsUnknown(a[1..], u, b, t, d);
      }
    }
  }

  /** Unknown children of `w:tc` are skipped. */
  lemma {:induction false} CellSkipsUnknown(a: seq<Element>, u: Element, b: seq<Element>, c: Cell, d: Decoders)
    requires c.properties.Some?
    requires u.name != "p" && u.name != "tcPr"
    ensures DecodeCellChildren(a + [u] + b, c, d) == DecodeCellChildren(a + b, c, d)
  {
    if |a| == 0 {
      assert a + [u] + b == [u] + b && ([u] + b)[1..] == b && a + b == b;
    } else {
      assert (a + [u] + b)[0] == a[0] == (a + b)[0];
      assert (a + [u] + b)[1..] == a[1..] + [u] + b && (a + b)[1..] == a[1..] + b;
      var e := a[0];
      if e.name == "p" {
        var ps := if c.paragraphs.Some? then c.paragraphs.value else [];
        CellSkipsUnknown(a[1..], u, b, c.(paragraphs := Some(ps + [d.paragraph(e)])), d);
      } else if e.name == "tcPr" {
        var p := DecodeCellProperties(e.children, c.properties.value, d);
        if p.Success? {
          CellSkipsUnknown(a[1..], u, b, c.(properties := Some(p.value)), d);
        }
      } else {
        CellSkipsUnknown(a[1..], u, b, c, d);
      }
    }
  }

  predicate KnownCellProperty(name: string) {
    name in {"tcW", "vMerge", "gridSpan", "vAlign", "tcBorders", "shd", ConfStyleName}
  }

  /** Unknown children of `w:tcPr` are skipped together with their content. */
  lemma {:induction false} CellPropertiesSkipUnknown(a: seq<Element>, u: Element, b: seq<Element>,
                                                      p: CellProperties, d: Decoders)
    requires !KnownCellProperty(u.name)
    ensures DecodeCellProperties(a + [u] + b, p, d) == DecodeCellProperties(a + b, p, d)
    decreases Size(a)
  {
    if |a| == 0 {
      assert a + [u] + b == [u] + b && ([u] + b)[1..] == b && a + b == b;
    } else {
      var e := a[0];
      assert (a + [u] + b)[0] == e == (a + b)[0];
      assert (a + [u] + b)[1..] == a[1..] + [u] + b && (a + b)[1..] == a[1..] + b;
      var spliced := e.name in {"tcW", "vMerge", "gridSpan", "vAlign"};
      var a' := if spliced then e.children + a[1..] else a[1..];
      assert Size(a') < Size(a) by {
        SizeAppend(e.children, a[1..]);
      }
      assert (if spliced then e.children + (a[1..] + [u] + b) else a[1..] + [u] + b) == a' + [u] + b;
      assert (if spliced then e.children + (a[1..] + b) else a[1..] + b) == a' + b;
      if e.name == "tcW" {
        var v := d.attribute(e.attrs, "w");
        if v == "" {
          CellPropertiesSkipUnknown(a', u, b, p.(width := Some(Width(0, ""))), d);
        } else if d.parseInt(v).Some? {
          CellPropertiesSkipUnknown(a', u, b, p.(width := Some(Width(d.parseInt(v).value, d.attribute(e.attrs, "type")))), d);
        }
      } else if e.name == "vMerge" {
        CellPropertiesSkipUnknown(a', u, b, p.(vMerge := Some(d.attribute(e.attrs, "val"))), d);
      } else if e.name == "gridSpan" {
        var v := d.attribute(e.attrs, "val");
        if v == "" {
          CellPropertiesSkipUnknown(a', u, b, p.(gridSpan := Some(0)), d);
        } else if d.parseInt(v).Some? {
          CellPropertiesSkipUnknown(a', u, b, p.(gridSpan := Some(d.parseInt(v).value)), d);
        }
      } else if e.name == "vAlign" {
        CellPropertiesSkipUnknown(a', u, b, p.(vAlign := Some(d.attribute(e.attrs, "val"))), d);
      } else if e.name == "tcBorders" {
        CellPropertiesSkipUnknown(a', u, b, p.(borders := Some(d.cellBorders(e))), d);
      } else if e.name == "shd" {
        CellPropertiesSkipUnknown(a', u, b, p.(shade := Some(d.shade(e))), d);
      } else if e.name == ConfStyleName {
        CellPropertiesSkipUnknown(a', u, b, p.(confStyle := Some(DecodeConfStyle(e.attrs, ZeroConf))), d);
      } else {
        CellPropertiesSkipUnknown(a', u, b, p, d);
      }
    }
  }

  /** A `w:gridSpan` without a value decodes to span 0; one whose value does
      not parse fails the decoding with that value. */
  lemma GridSpanDefaults(attrs: seq<Attr>, p: CellProperties, d: Decoders)
    ensures var v := d.attribute(attrs, "val");
            var r := DecodeCellProperties([Element("gridSpan", attrs, [])], p, d);
            (v == "" ==> r == Success(p.(gridSpan := Some(0)))) &&
            (v != "" && d.parseInt(v).None? ==> r == Failure(v)) &&
            (v != "" && d.parseInt(v).Some? ==> r == Success(p.(gridSpan := d.parseInt(v))))
  {
    var items := [Element("gridSpan", attrs, [])];
    var v := d.attribute(attrs, "val");
    assert items[0].children + items[1..] == [];
    assert "gridSpan" != "tcW" && "gridSpan" != "vMerge";
    if v == "" {
      assert DecodeCellPropertiesAs([], p.(gridSpan := Some(0)), d, ConfStyleName) == Success(p.(gridSpan := Some(0)));
    } else if d.parseInt(v).Some? {
      var n := d.parseInt(v).value;
      assert DecodeCellPropertiesAs([], p.(gridSpan := Some(n)), d, ConfStyleName) == Success(p.(gridSpan := Some(n)));
    }
  }

  /** Every `val` of every `w:trHeight` child parses. */
  predicate HeightsParse(children: seq<Element>, d: Decoders) {
    forall k, j :: 0 <= k < |children| && children[k].name == "trHeight" &&
                   0 <= j < |children[k].attrs| && children[k].attrs[j].name == "val" ==>
                   d.parseInt(children[k].attrs[j].value).Some?
  }

  lemma {:induction false} DecodeHeightSucceeds(attrs: seq<Attr>, h: RowHeight, d: Decoders)
    ensures DecodeHeight(attrs, h, d).Success? <==>
            forall j :: 0 <= j < |attrs| && attrs[j].name == "val" ==> d.parseInt(attrs[j].value).Some?
  {
    if |attrs| > 0 {
      assert forall j :: 1 <= j < |attrs| ==> attrs[1..][j - 1] == attrs[j];
      if attrs[0].name == "val" {
        if d.parseInt(attrs[0].value).Some? {
          DecodeHeightSucceeds(attrs[1..], h.(val := d.parseInt(attrs[0].value).value), d);
        }
      } else if attrs[0].name == "hRule" {
        DecodeHeightSucceeds(attrs[1..], h.(rule := attrs[0].value), d);
      } else {
        DecodeHeightSucceeds(attrs[1..], h, d);
      }
    }
  }

  /** Row properties decode exactly when every row height parses: nothing
      else in `w:trPr` can fail. */
  lemma {:induction false} RowPropertiesSucceed(children: seq<Element>, p: RowProperties, d: Decoders)
    ensures DecodeRowProperties(children, p, d).Success? <==> HeightsParse(children, d)
  {
    if |children| > 0 {
      var e := children[0];
      assert forall k :: 1 <= k < |children| ==> children[1..][k - 1] == children[k];
      assert HeightsParse(children, d) <==>
             (e.name == "trHeight" ==>
                forall j :: 0 <= j < |e.attrs| && e.attrs[j].name == "val" ==> d.parseInt(e.attrs[j].value).Some?) &&
             HeightsParse(children[1..], d);
      if e.name == "trHeight" {
        var h := DecodeHeight(e.attrs, RowHeight("", 0), d);
        DecodeHeightSucceeds(e.attrs, RowHeight("", 0), d);
        if h.Success? {
          RowPropertiesSucceed(children[1..], p.(height := Some(h.value)), d);
        }
      } else if e.name == "jc" {
        RowPropertiesSucceed(children[1..], p.(justification := Some(FirstVal(e.attrs))), d);
      } else if e.name == ConfStyleName {
        RowPropertiesSucceed(children[1..], p.(confStyle := Some(DecodeConfStyle(e.attrs, ZeroConf))), d);
      } else {
        RowPropertiesSucceed(children[1..], p, d);
      }
    }
  }

  // ---------------------------------------------------------------------------
  // The conditional-style element name
  // ---------------------------------------------------------------------------

  /** The name the encoder gives the conditional-style element. */
  const WrittenConfStyleName := "cnfStyle"

  /** The conditional-style element as the encoder writes it. */
  function ConfStyleElement(cs: ConfStyle): Element {
    Element(WrittenConfStyleName, ConfStyleAttrs(cs), [])
  }

  /** As written, the property decoders look for "confStyle", so the element
      the encoder writes is skipped as unknown and the style is lost. */
  lemma WrittenConfStyleIgnored(cs: ConfStyle, p: CellProperties, rp: RowProperties, d: Decoders)
    ensures DecodeCellProperties([ConfStyleElement(cs)], p, d) == Success(p)
    ensures DecodeRowProperties([ConfStyleElement(cs)], rp, d) == Success(rp)
  {
    var e := ConfStyleElement(cs);
    WrittenNameDistinct();
    assert [e][1..] == [];
    assert e.children + [e][1..] == [];
    assert DecodeCellPropertiesAs([e], p, d, ConfStyleName) == DecodeCellPropertiesAs([], p, d, ConfStyleName);
    assert DecodeRowPropertiesAs([e], rp, d, ConfStyleName) == DecodeRowPropertiesAs([], rp, d, ConfStyleName);
  }

  lemma WrittenNameDistinct()
    ensures WrittenConfStyleName != ConfStyleName
    ensures WrittenConfStyleName !in {"tcW", "vMerge", "gridSpan", "vAlign", "tcBorders", "shd", "trHeight", "jc"}
  {
    assert WrittenConfStyleName[1] != ConfStyleName[1];
    assert WrittenConfStyleName[0] != "gridSpan"[0] && WrittenConfStyleName[0] != "trHeight"[0];
  }

  function DecodeRowPropertiesIntended(children: seq<Element>, p: RowProperties, d: Decoders)
    : Result<RowProperties, string>
  {
    DecodeRowPropertiesAs(children, p, d, WrittenConfStyleName)
  }

  function DecodeCellPropertiesIntended(items: seq<Element>, p: CellProperties, d: Decoders)
    : Result<CellProperties, string>
  {
    DecodeCellPropertiesAs(items, p, d, WrittenConfStyleName)
  }

  /** Dispatching on the written name, a conditional style with single-digit
      flags survives a write and a read, in row and in cell properties. */
  lemma ConfStyleElementRoundTrip(cs: ConfStyle, p: CellProperties, rp: RowProperties, d: Decoders)
    requires DigitFlags(cs)
    ensures DecodeCellPropertiesIntended([ConfStyleElement(cs)], p, d) == Success(p.(confStyle := Some(cs)))
    ensures DecodeRowPropertiesIntended([ConfStyleElement(cs)], rp, d) == Success(rp.(confStyle := Some(cs)))
  {
    var e := ConfStyleElement(cs);
    ConfStyleRoundTrip(cs);
    WrittenNameDistinct();
    assert [e][1..] == [];
    assert e.children + [e][1..] == [];
    var c := DecodeConfStyle(e.attrs, ZeroConf);
    assert DecodeCellPropertiesAs([e], p, d, WrittenConfStyleName) ==
           DecodeCellPropertiesAs([], p.(confStyle := Some(c)), d, WrittenConfStyleName);
    assert DecodeRowPropertiesAs([e], rp, d, WrittenConfStyleName) ==
           DecodeRowPropertiesAs([], rp.(confStyle := Some(c)), d, WrittenConfStyleName);
  }
}
