/**
 * The writers of the styles part: `write_base_format`, the section writers
 * (`write_number_formats`, `write_fonts`, `write_fills`, `write_borders`, `write_styles`,
 * `write_formats`, `write_dxfs`, `write_table_styles`, `write_colors`) and the `styleSheet`
 * element `write_stylesheet` appends. Each is given first as a function stating what it
 * writes, then as a method with the source's loop, proved equal to it.
 */
module TableWriter {
  import opened Wrappers
  import opened Markup
  import opened Text
  import opened Values
  import opened FacetWriter

  // ---------------------------------------------------------------------------------------
  // Indices

  /** `std::distance(begin, std::find(begin, end, x))`: the first position of `x`, or |s|. */
  function IndexOf<T(==)>(s: seq<T>, x: T): (k: nat)
    ensures k <= |s|
    ensures k < |s| <==> x in s
    ensures k < |s| ==> s[k] == x
    ensures forall j :: 0 <= j < k ==> s[j] != x
  {
    if s == [] then 0
    else if s[0] == x then 0
    else
      assert s == [s[0]] + s[1..];
      1 + IndexOf(s[1..], x)
  }

  /** `std::find` as the loop it is. */
  method Find<T(==)>(s: seq<T>, x: T) returns (k: nat)
    ensures k == IndexOf(s, x)
  {
    k := 0;
    while k < |s| && s[k] != x
      invariant k <= |s|
      invariant forall j :: 0 <= j < k ==> s[j] != x
    {
      k := k + 1;
    }
  }

  /** The names of the styles, in order. */
  function StyleNames(styles: seq<Style>): (r: seq<string>)
    ensures |r| == |styles| && forall i :: 0 <= i < |styles| ==> r[i] == styles[i].name
  {
    seq(|styles|, i requires 0 <= i < |styles| => styles[i].name)
  }

  // ---------------------------------------------------------------------------------------
  // Base formats

  /** The id attributes of an `xf`: its number format id and the registry positions. */
  function IdAttributes(numFmtId: nat, fontId: nat, fillId: nat, borderId: nat): map<string, string> {
    map["numFmtId" := NatToString(numFmtId), "fontId" := NatToString(fontId),
        "fillId" := NatToString(fillId), "borderId" := NatToString(borderId)]
  }

  /** An `apply*` attribute set to "1" when its flag is set. */
  function WithFlag(m: map<string, string>, on: bool, key: string): map<string, string> {
    if on then m[key := "1"] else m
  }

  /** The `apply*` attributes `write_base_format` adds after the ids, in its order. */
  function WithFlags(m: map<string, string>, xf: BaseFormat): map<string, string> {
    var m1 := WithFlag(m, xf.numberFormatApplied, "applyNumberFormat");
    var m2 := WithFlag(m1, xf.fillApplied, "applyFill");
    var m3 := WithFlag(m2, xf.fontApplied, "applyFont");
    var m4 := WithFlag(m3, xf.borderApplied, "applyBorder");
    var m5 := WithFlag(m4, xf.alignmentApplied, "applyAlignment");
    WithFlag(m5, xf.protectionApplied, "applyProtection")
  }

  /**
   * The attributes `write_base_format` sets: the number format's own id, the registry
   * positions of font, fill and border, and "1" for each applied flag that is set.
   */
  function BaseFormatAttributes(xf: BaseFormat, ss: Stylesheet): map<string, string> {
    WithFlags(IdAttributes(xf.numberFormat.id, IndexOf(ss.fonts, xf.font), IndexOf(ss.fills, xf.fill),
      IndexOf(ss.borders, xf.border)), xf)
  }

  /** The inline children of a base format: alignment and protection, each only when applied. */
  function BaseFormatSlots(xf: BaseFormat): seq<Slot> {
    [ Slot(xf.alignmentApplied, WriteAlignment(xf.alignment, Element("alignment"))),
      Slot(xf.protectionApplied, WriteProtection(xf.protection, Element("protection"))) ]
  }

  /** The `xf` element `write_base_format` fills in. */
  function BaseFormatElement(xf: BaseFormat, ss: Stylesheet): Node {
    Node("xf", BaseFormatAttributes(xf, ss), Present(BaseFormatSlots(xf)))
  }

  /** `write_base_format`, with the three registry searches as loops. */
  method WriteBaseFormat(xf: BaseFormat, ss: Stylesheet) returns (n: Node)
    ensures n == BaseFormatElement(xf, ss)
  {
    var fontId := Find(ss.fonts, xf.font);
    var fillId := Find(ss.fills, xf.fill);
    var borderId := Find(ss.borders, xf.border);
    var attributes := WithFlags(IdAttributes(xf.numberFormat.id, fontId, fillId, borderId), xf);
    n := Node("xf", attributes, Present(BaseFormatSlots(xf)));
  }

  /**
   * The ids `write_base_format` writes: the format's own number format id, and the position
   * of the first equal registry entry, the registry's length when there is none.
   */
  lemma BaseFormatIds(xf: BaseFormat, ss: Stylesheet)
    ensures var m := BaseFormatAttributes(xf, ss);
      m.Keys >= {"numFmtId", "fontId", "fillId", "borderId"} &&
      m["numFmtId"] == NatToString(xf.numberFormat.id) &&
      m["fontId"] == NatToString(if xf.font in ss.fonts then IndexOf(ss.fonts, xf.font) else |ss.fonts|) &&
      m["fillId"] == NatToString(if xf.fill in ss.fills then IndexOf(ss.fills, xf.fill) else |ss.fills|) &&
      m["borderId"] == NatToString(if xf.border in ss.borders then IndexOf(ss.borders, xf.border) else |ss.borders|)
  {
  }

  /** An `apply*` attribute is written, always as "1", exactly for the flags that are set. */
  lemma BaseFormatFlags(xf: BaseFormat, ss: Stylesheet)
    ensures var m := BaseFormatAttributes(xf, ss);
      ("applyNumberFormat" in m <==> xf.numberFormatApplied) && ("applyFill" in m <==> xf.fillApplied) &&
      ("applyFont" in m <==> xf.fontApplied) && ("applyBorder" in m <==> xf.borderApplied) &&
      ("applyAlignment" in m <==> xf.alignmentApplied) && ("applyProtection" in m <==> xf.protectionApplied)
    ensures var m := BaseFormatAttributes(xf, ss);
      (xf.numberFormatApplied ==> m["applyNumberFormat"] == "1") && (xf.fillApplied ==> m["applyFill"] == "1") &&
      (xf.fontApplied ==> m["applyFont"] == "1") && (xf.borderApplied ==> m["applyBorder"] == "1") &&
      (xf.alignmentApplied ==> m["applyAlignment"] == "1") && (xf.protectionApplied ==> m["applyProtection"] == "1")
  {
  }

  /** The alignment and protection children are written exactly when applied. */
  lemma BaseFormatChildren(xf: BaseFormat, ss: Stylesheet)
    ensures var n := BaseFormatElement(xf, ss);
      HasChild(n, "alignment") == xf.alignmentApplied && HasChild(n, "protection") == xf.protectionApplied &&
      (xf.alignmentApplied ==> Child(n, "alignment") == WriteAlignment(xf.alignment, Element("alignment"))) &&
      (xf.protectionApplied ==> Child(n, "protection") == WriteProtection(xf.protection, Element("protection")))
    ensures |BaseFormatElement(xf, ss).children| <= 2
  {
    var slots := BaseFormatSlots(xf);
    SlotChild("xf", BaseFormatAttributes(xf, ss), slots, 0);
    SlotChild("xf", BaseFormatAttributes(xf, ss), slots, 1);
  }

  // ---------------------------------------------------------------------------------------
  // The registries

  /** A section element: its `count` attribute and its children. */
  function Counted(tag: string, count: nat, children: seq<Node>): Node {
    Node(tag, map["count" := NatToString(count)], children)
  }

  /** The loop body of `write_number_formats`: one `numFmt` with its id and code. */
  function NumberFormatElement(nf: NumberFormat): Node {
    Node("numFmt", map["numFmtId" := NatToString(nf.id), "formatCode" := nf.formatCode], [])
  }

  function NumberFormatsElement(formats: seq<NumberFormat>): Node {
    Counted("numFmts", |formats|, Each(formats, NumberFormatElement))
  }

  function FontsElement(fonts: seq<Font>): Node {
    Counted("fonts", |fonts|, Each(fonts, FontElement))
  }

  function FillsElement(fills: seq<Fill>): Node {
    Counted("fills", |fills|, Each(fills, FillElement))
  }

  function BordersElement(borders: seq<Border>): Node {
    Counted("borders", |borders|, Each(borders, BorderElement))
  }

  /** The loop body of `write_colors`: one `rgbColor` with the colour's rgb value. */
  function RgbColorElement(c: Color): Node {
    Node("rgbColor", map["rgb" := RgbHex(c)], [])
  }

  /** The `colors` section: one `indexedColors` child holding an `rgbColor` per colour, without count. */
  function ColorsElement(colors: seq<Color>): Node {
    Node("colors", map[], [Node("indexedColors", map[], Each(colors, RgbColorElement))])
  }

  /** `write_number_formats`: the count, then one `numFmt` per format. */
  method WriteNumberFormats(formats: seq<NumberFormat>) returns (n: Node)
    ensures n == NumberFormatsElement(formats)
  {
    n := WithAttr(Element("numFmts"), "count", NatToString(|formats|));
    n := AppendEach(n, formats, NumberFormatElement);
  }

  /** `write_fonts`: the count, then one `font` per font. */
  method WriteFonts(fonts: seq<Font>) returns (n: Node)
    ensures n == FontsElement(fonts)
  {
    n := WithAttr(Element("fonts"), "count", NatToString(|fonts|));
    n := AppendEach(n, fonts, FontElement);
  }

  /** The gradient part of the loop body of `write_fills`: header, then the stop loop. */
  method WriteGradientFill(g: GradientFill) returns (n: Node)
    ensures n == GradientFillElement(g)
  {
    n := AppendEach(GradientHeader(g), g.stops, StopElement);
  }

  /** `write_fills`: the count, then one `fill` per fill. */
  method WriteFills(fills: seq<Fill>) returns (n: Node)
    ensures n == FillsElement(fills)
  {
    n := WithAttr(Element("fills"), "count", NatToString(|fills|));
    var i := 0;
    while i < |fills|
      invariant i <= |fills|
      invariant n == AppendChildren(Counted("fills", |fills|, []), Each(fills[..i], FillElement))
    {
      var fill := Element("fill");
      match fills[i] {
        case Pattern(p) =>
          fill := WithChild(fill, PatternFillElement(p));
          assert fill.children == [PatternFillElement(p)];
        case Gradient(g) =>
          var gradient := WriteGradientFill(g);
          fill := WithChild(fill, gradient);
          assert fill.children == [gradient];
      }
      assert fill == FillElement(fills[i]);
      EachSnoc(fills, FillElement, i);
      n := WithChild(n, fill);
      i := i + 1;
    }
    assert fills[..i] == fills;
  }

  /** The loop body of `write_borders`: the side loop over `get_side_names()`. */
  method WriteBorder(b: Border) returns (n: Node)
    ensures n == BorderElement(b)
  {
    var slots := SideSlots(b, SideNames);
    n := Element("border");
    var i := 0;
    while i < |SideNames|
      invariant i <= |SideNames|
      invariant n == Node("border", map[], Present(slots[..i]))
    {
      var kind := SideNames[i].0;
      if kind in b.sides {
        n := WithChild(n, SideElement(SideNames[i].1, b.sides[kind]));
      }
      PresentSnoc(slots, i);
      i := i + 1;
    }
    assert slots[..i] == slots;
  }

  /** `write_borders`: the count, then one `border` per border. */
  method WriteBorders(borders: seq<Border>) returns (n: Node)
    ensures n == BordersElement(borders)
  {
    n := WithAttr(Element("borders"), "count", NatToString(|borders|));
    var i := 0;
    while i < |borders|
      invariant i <= |borders|
      invariant n == AppendChildren(Counted("borders", |borders|, []), Each(borders[..i], BorderElement))
    {
      var border := WriteBorder(borders[i]);
      EachSnoc(borders, BorderElement, i);
      n := WithChild(n, border);
      i := i + 1;
    }
    assert borders[..i] == borders;
  }

  /** `write_colors`: an `indexedColors` child, then one `rgbColor` per colour in it. */
  method WriteColors(colors: seq<Color>) returns (n: Node)
    ensures n == ColorsElement(colors)
  {
    var indexed := AppendEach(Element("indexedColors"), colors, RgbColorElement);
    assert indexed.children == Each(colors, RgbColorElement);
    n := WithChild(Element("colors"), indexed);
    assert n.children == [indexed];
  }

  // ---------------------------------------------------------------------------------------
  // Styles and formats

  /** The `cellStyle` of style `i`: name, `xfId` i, builtin id, and `hidden` only when hidden. */
  function CellStyleElement(s: Style, i: nat): Node {
    var attributes := map["name" := s.name, "xfId" := NatToString(i), "builtinId" := NatToString(s.builtinId)];
    Node("cellStyle", if s.hidden then attributes["hidden" := "1"] else attributes, [])
  }

  /** The style xfs, one base format per style. */
  function StyleXfs(ss: Stylesheet): (r: seq<Node>)
    ensures |r| == |ss.styles| && forall i :: 0 <= i < |r| ==> r[i] == BaseFormatElement(ss.styles[i].format, ss)
  {
    seq(|ss.styles|, i requires 0 <= i < |ss.styles| => BaseFormatElement(ss.styles[i].format, ss))
  }

  /** The `cellStyle` entries, the i-th pointing at xf i. */
  function CellStyles(styles: seq<Style>): (r: seq<Node>)
    ensures |r| == |styles| && forall i :: 0 <= i < |r| ==> r[i] == CellStyleElement(styles[i], i)
  {
    seq(|styles|, i requires 0 <= i < |styles| => CellStyleElement(styles[i], i))
  }

  function CellStyleXfsElement(ss: Stylesheet): Node {
    Counted("cellStyleXfs", |ss.styles|, StyleXfs(ss))
  }

  function CellStylesElement(ss: Stylesheet): Node {
    Counted("cellStyles", |ss.styles|, CellStyles(ss.styles))
  }

  /**
   * `write_styles`: both counts are the number of styles; the loop writes style `i`'s base
   * format as xf `i` and a `cellStyle` whose `xfId` is `i`.
   */
  method WriteStyles(ss: Stylesheet) returns (cellStyles: Node, cellStyleXfs: Node)
    ensures cellStyles == CellStylesElement(ss) && cellStyleXfs == CellStyleXfsElement(ss)
  {
    cellStyleXfs := WithAttr(Element("cellStyleXfs"), "count", NatToString(|ss.styles|));
    cellStyles := WithAttr(Element("cellStyles"), "count", NatToString(|ss.styles|));
    assert StyleXfs(ss)[..0] == [] && CellStyles(ss.styles)[..0] == [];
    var styleIndex := 0;
    while styleIndex < |ss.styles|
      invariant styleIndex <= |ss.styles|
      invariant cellStyleXfs == Counted("cellStyleXfs", |ss.styles|, StyleXfs(ss)[..styleIndex])
      invariant cellStyles == Counted("cellStyles", |ss.styles|, CellStyles(ss.styles)[..styleIndex])
    {
      var style := ss.styles[styleIndex];
      var xf := WriteBaseFormat(style.format, ss);
      PrefixSnoc(StyleXfs(ss), styleIndex);
      cellStyleXfs := WithChild(cellStyleXfs, xf);
      PrefixSnoc(CellStyles(ss.styles), styleIndex);
      cellStyles := WithChild(cellStyles, CellStyleElement(style, styleIndex));
      styleIndex := styleIndex + 1;
    }
    assert StyleXfs(ss)[..styleIndex] == StyleXfs(ss);
    assert CellStyles(ss.styles)[..styleIndex] == CellStyles(ss.styles);
  }

  /**
   * The `xf` of format `i`: its base format, and when its style name is not empty an `xfId`
   * pointing at the first style of that name (or past the styles when none has it).
   */
  function FormatElement(ss: Stylesheet, i: nat): Node
    requires i < |ss.formats| && i < |ss.formatStyles|
  {
    var xf := BaseFormatElement(ss.formats[i].format, ss);
    var name := ss.formatStyles[i];
    if name != "" then WithAttr(xf, "xfId", NatToString(IndexOf(StyleNames(ss.styles), name))) else xf
  }

  function FormatXfs(ss: Stylesheet): (r: seq<Node>)
    requires |ss.formats| <= |ss.formatStyles|
    ensures |r| == |ss.formats| && forall i :: 0 <= i < |r| ==> r[i] == FormatElement(ss, i)
  {
    seq(|ss.formats|, i requires 0 <= i < |ss.formats| => FormatElement(ss, i))
  }

  function CellXfsElement(ss: Stylesheet): Node
    requires |ss.formats| <= |ss.formatStyles|
  {
    Counted("cellXfs", |ss.formats|, FormatXfs(ss))
  }

  /** An `xf` of `cellXfs` has an `xfId` exactly when its format's style name is not empty. */
  lemma FormatXfId(ss: Stylesheet, i: nat)
    requires i < |ss.formats| && i < |ss.formatStyles|
    ensures BaseFormatAttributes(ss.formats[i].format, ss).Keys <= FormatElement(ss, i).attributes.Keys
    ensures HasAttr(FormatElement(ss, i), "xfId") <==> ss.formatStyles[i] != ""
    ensures ss.formatStyles[i] != "" && ss.formatStyles[i] in StyleNames(ss.styles) ==>
      exists k :: 0 <= k < |ss.styles| && ss.styles[k].name == ss.formatStyles[i] &&
        Attr(FormatElement(ss, i), "xfId") == NatToString(k) &&
        forall j :: 0 <= j < k ==> ss.styles[j].name != ss.formatStyles[i]
  {
    var base := BaseFormatAttributes(ss.formats[i].format, ss);
    assert "xfId" !in base;
    var name := ss.formatStyles[i];
    if name != "" && name in StyleNames(ss.styles) {
      var k := IndexOf(StyleNames(ss.styles), name);
      assert ss.styles[k].name == name;
    }
  }

  /** The loop body of `write_formats` for format `i`, with the `find_if` over the styles. */
  method WriteFormat(ss: Stylesheet, i: nat) returns (xf: Node)
    requires i < |ss.formats| && i < |ss.formatStyles|
    ensures xf == FormatElement(ss, i)
  {
    xf := WriteBaseFormat(ss.formats[i].format, ss);
    var name := ss.formatStyles[i];
    if name != "" {
      var styleIndex := Find(StyleNames(ss.styles), name);
      xf := WithAttr(xf, "xfId", NatToString(styleIndex));
    }
  }

  /**
   * `write_formats`: the count, then for each format its base format and, walking the
   * format styles in step, its style's position when it has a style name.
   */
  method WriteFormats(ss: Stylesheet) returns (cellXfs: Node)
    requires |ss.formats| <= |ss.formatStyles|
    ensures cellXfs == CellXfsElement(ss)
  {
    cellXfs := WithAttr(Element("cellXfs"), "count", NatToString(|ss.formats|));
    var i := 0;
    while i < |ss.formats|
      invariant i <= |ss.formats|
      invariant cellXfs == Counted("cellXfs", |ss.formats|, FormatXfs(ss)[..i])
    {
      var xf := WriteFormat(ss, i);
      PrefixSnoc(FormatXfs(ss), i);
      cellXfs := WithChild(cellXfs, xf);
      i := i + 1;
    }
    assert FormatXfs(ss)[..i] == FormatXfs(ss);
  }

  /** `write_dxfs`: an empty list with count 0. */
  const DxfsElement: Node := Node("dxfs", map["count" := "0"], [])

  /** `write_table_styles`: count 0 and the two default style names. */
  const TableStylesElement: Node := Node("tableStyles",
    map["count" := "0", "defaultTableStyle" := "TableStyleMedium9", "defaultPivotStyle" := "PivotStyleMedium7"], [])

  method WriteDxfs() returns (n: Node)
    ensures n == DxfsElement
  {
    n := WithAttr(Element("dxfs"), "count", "0");
  }

  method WriteTableStyles() returns (n: Node)
    ensures n == TableStylesElement
  {
    n := WithAttr(Element("tableStyles"), "count", "0");
    n := WithAttr(n, "defaultTableStyle", "TableStyleMedium9");
    n := WithAttr(n, "defaultPivotStyle", "PivotStyleMedium7");
  }

  // ---------------------------------------------------------------------------------------
  // The whole part

  /** The namespace declarations of the `styleSheet` element. */
  const Namespaces: map<string, string> := map[
    "xmlns" := "http://schemas.openxmlformats.org/spreadsheetml/2006/main",
    "xmlns:mc" := "http://schemas.openxmlformats.org/markup-compatibility/2006",
    "mc:Ignorable" := "x14ac",
    "xmlns:x14ac" := "http://schemas.microsoft.com/office/spreadsheetml/2009/9/ac"]

  /** The ten sections `write_stylesheet` can append, one field per section. */
  datatype Sections = Sections(
    numFmts: Node, fonts: Node, fills: Node, borders: Node, cellStyleXfs: Node,
    cellXfs: Node, cellStyles: Node, dxfs: Node, tableStyles: Node, colors: Node)

  /** The sections written for `ss`. */
  function SectionsOf(ss: Stylesheet): Sections
    requires |ss.formats| <= |ss.formatStyles|
  {
    Sections(NumberFormatsElement(ss.numberFormats), FontsElement(ss.fonts), FillsElement(ss.fills),
      BordersElement(ss.borders), CellStyleXfsElement(ss), CellXfsElement(ss), CellStylesElement(ss),
      DxfsElement, TableStylesElement, ColorsElement(ss.colors))
  }

  /**
   * The sections in the order `write_stylesheet` appends them; number formats, fonts, fills,
   * borders and colours only when their list is not empty.
   */
  function SectionSlots(ss: Stylesheet, parts: Sections): seq<Slot> {
    [ Slot(ss.numberFormats != [], parts.numFmts),
      Slot(ss.fonts != [], parts.fonts),
      Slot(ss.fills != [], parts.fills),
      Slot(ss.borders != [], parts.borders),
      Slot(true, parts.cellStyleXfs),
      Slot(true, parts.cellXfs),
      Slot(true, parts.cellStyles),
      Slot(true, parts.dxfs),
      Slot(true, parts.tableStyles),
      Slot(ss.colors != [], parts.colors) ]
  }

  /** The `styleSheet` element `write_stylesheet` appends to the document. */
  function EncodeStylesheet(ss: Stylesheet): Node
    requires |ss.formats| <= |ss.formatStyles|
  {
    Node("styleSheet", Namespaces, Present(SectionSlots(ss, SectionsOf(ss))))
  }

  /** The element names of the sections, slot by slot. */
  const SectionTags: seq<string> :=
    ["numFmts", "fonts", "fills", "borders", "cellStyleXfs", "cellXfs", "cellStyles", "dxfs", "tableStyles", "colors"]

  /** Each section carries its own element name. */
  predicate WellNamed(parts: Sections) {
    parts.numFmts.name == "numFmts" && parts.fonts.name == "fonts" && parts.fills.name == "fills" &&
    parts.borders.name == "borders" && parts.cellStyleXfs.name == "cellStyleXfs" &&
    parts.cellXfs.name == "cellXfs" && parts.cellStyles.name == "cellStyles" && parts.dxfs.name == "dxfs" &&
    parts.tableStyles.name == "tableStyles" && parts.colors.name == "colors"
  }

  lemma SectionsOfWellNamed(ss: Stylesheet)
    requires |ss.formats| <= |ss.formatStyles|
    ensures WellNamed(SectionsOf(ss))
  {
  }

  lemma SectionTagsDistinct()
    ensures forall i, j :: 0 <= i < j < |SectionTags| ==> SectionTags[i] != SectionTags[j]
  {
  }

  lemma SectionSlotNames(ss: Stylesheet, parts: Sections)
    requires WellNamed(parts)
    ensures |SectionSlots(ss, parts)| == |SectionTags|
    ensures forall k :: 0 <= k < |SectionTags| ==> SectionSlots(ss, parts)[k].node.name == SectionTags[k]
    ensures forall k :: 0 <= k < |SectionTags| ==> SectionSlots(ss, parts)[k].present == SectionPresence(ss)[k]
  {
  }

  lemma SectionSlotsDistinct(ss: Stylesheet, parts: Sections)
    requires WellNamed(parts)
    ensures DistinctSlots(SectionSlots(ss, parts))
  {
    SectionTagsDistinct();
    SectionSlotNames(ss, parts);
  }

  lemma NamesAppend(a: seq<Node>, b: seq<Node>)
    ensures Names(a + b) == Names(a) + Names(b)
  {
    assert forall i :: 0 <= i < |a| ==> (a + b)[i] == a[i];
    assert forall i :: 0 <= i < |b| ==> (a + b)[|a| + i] == b[i];
  }

  /** The tags whose flag is set, in order. */
  function Selected(tags: seq<string>, keep: seq<bool>): (r: seq<string>)
    requires |tags| == |keep|
    ensures |r| <= |tags|
  {
    if tags == [] then [] else (if keep[0] then [tags[0]] else []) + Selected(tags[1..], keep[1..])
  }

  /** The children of the present slots are named by the tags of those slots, in order. */
  lemma {:induction false} PresentSelected(slots: seq<Slot>, tags: seq<string>, keep: seq<bool>)
    requires |slots| == |tags| == |keep|
    requires forall i :: 0 <= i < |slots| ==> slots[i].present == keep[i] && slots[i].node.name == tags[i]
    ensures Names(Present(slots)) == Selected(tags, keep)
  {
    if slots != [] {
      PresentSelected(slots[1..], tags[1..], keep[1..]);
      NamesAppend(if slots[0].present then [slots[0].node] else [], Present(slots[1..]));
    }
  }

  /**
   * Which of the ten sections `write_stylesheet` writes: number formats, fonts, fills, borders
   * and colours only when their lists are not empty, the other five always.
   */
  function SectionPresence(ss: Stylesheet): seq<bool> {
    [ss.numberFormats != [], ss.fonts != [], ss.fills != [], ss.borders != [],
     true, true, true, true, true, ss.colors != []]
  }

  /** The names `write_stylesheet` gives the sections it writes, in order. */
  function SectionOrder(ss: Stylesheet): seq<string> {
    Selected(SectionTags, SectionPresence(ss))
  }

  /**
   * The sections appear in the fixed order; the five list sections are there exactly when
   * their lists are not empty, and the other five always.
   */
  lemma SectionsInOrder(ss: Stylesheet)
    requires |ss.formats| <= |ss.formatStyles|
    ensures Names(EncodeStylesheet(ss).children) == SectionOrder(ss)
  {
    SectionsOfWellNamed(ss);
    SectionSlotNames(ss, SectionsOf(ss));
    PresentSelected(SectionSlots(ss, SectionsOf(ss)), SectionTags, SectionPresence(ss));
  }

  /** Sections that agree wherever the stylesheet has a section give the same children. */
  lemma SectionsAgree(ss: Stylesheet, a: Sections, b: Sections)
    requires ss.numberFormats != [] ==> a.numFmts == b.numFmts
    requires ss.fonts != [] ==> a.fonts == b.fonts
    requires ss.fills != [] ==> a.fills == b.fills
    requires ss.borders != [] ==> a.borders == b.borders
    requires a.cellStyleXfs == b.cellStyleXfs && a.cellXfs == b.cellXfs && a.cellStyles == b.cellStyles
    requires a.dxfs == b.dxfs && a.tableStyles == b.tableStyles
    requires ss.colors != [] ==> a.colors == b.colors
    ensures Present(SectionSlots(ss, a)) == Present(SectionSlots(ss, b))
  {
    PresentAgree(SectionSlots(ss, a), SectionSlots(ss, b));
  }

  /** The slots of `parts` one by one, for appending them in order. */
  lemma SlotsAt(ss: Stylesheet, parts: Sections) returns (slots: seq<Slot>)
    ensures |slots| == 10 && Present(slots) == Present(SectionSlots(ss, parts))
    ensures slots[0] == Slot(ss.numberFormats != [], parts.numFmts) && slots[1] == Slot(ss.fonts != [], parts.fonts)
    ensures slots[2] == Slot(ss.fills != [], parts.fills) && slots[3] == Slot(ss.borders != [], parts.borders)
    ensures slots[4] == Slot(true, parts.cellStyleXfs) && slots[5] == Slot(true, parts.cellXfs)
    ensures slots[6] == Slot(true, parts.cellStyles) && slots[7] == Slot(true, parts.dxfs)
    ensures slots[8] == Slot(true, parts.tableStyles) && slots[9] == Slot(ss.colors != [], parts.colors)
  {
    slots := SectionSlots(ss, parts);
  }

  /**
   * The appends of `write_stylesheet` once the sections are written: the namespaces, then each
   * section in order, the four registries and the colours only when their list is not empty.
   */
  method AppendSections(ss: Stylesheet, parts: Sections) returns (root: Node)
    ensures root == Node("styleSheet", Namespaces, Present(SectionSlots(ss, parts)))
  {
    ghost var slots := SlotsAt(ss, parts);
    root := Node("styleSheet", Namespaces, []);
    assert slots[..0] == [];
    root := AppendSlotChild(root, ss.numberFormats != [], parts.numFmts, slots, 0);
    root := AppendSlotChild(root, ss.fonts != [], parts.fonts, slots, 1);
    root := AppendSlotChild(root, ss.fills != [], parts.fills, slots, 2);
    root := AppendSlotChild(root, ss.borders != [], parts.borders, slots, 3);
    root := AppendSlotChild(root, true, parts.cellStyleXfs, slots, 4);
    root := AppendSlotChild(root, true, parts.cellXfs, slots, 5);
    root := AppendSlotChild(root, true, parts.cellStyles, slots, 6);
    root := AppendSlotChild(root, true, parts.dxfs, slots, 7);
    root := AppendSlotChild(root, true, parts.tableStyles, slots, 8);
    root := AppendSlotChild(root, ss.colors != [], parts.colors, slots, 9);
    assert slots[..10] == slots;
  }

  /**
   * The body of `write_stylesheet`: the four registries when their list is not empty, the
   * cell formats and the two style sections, dxfs and table styles always, colours when not
   * empty; then the `styleSheet` element with the namespaces and the sections in order. The
   * source appends `cellStyleXfs` before filling it through its handle; here each section is
   * complete before it is appended.
   */
  method WriteSheet(ss: Stylesheet) returns (root: Node)
    requires |ss.formats| <= |ss.formatStyles|
    ensures root == EncodeStylesheet(ss)
  {
    var numFmts, fonts, fills, borders, colors := Null, Null, Null, Null, Null;
    if ss.numberFormats != [] {
      numFmts := WriteNumberFormats(ss.numberFormats);
    }
    if ss.fonts != [] {
      fonts := WriteFonts(ss.fonts);
    }
    if ss.fills != [] {
      fills := WriteFills(ss.fills);
    }
    if ss.borders != [] {
      borders := WriteBorders(ss.borders);
    }
    var cellXfs := WriteFormats(ss);
    var cellStyles, cellStyleXfs := WriteStyles(ss);
    var dxfs := WriteDxfs();
    var tableStyles := WriteTableStyles();
    if ss.colors != [] {
      colors := WriteColors(ss.colors);
    }
    var parts := Sections(numFmts, fonts, fills, borders, cellStyleXfs, cellXfs, cellStyles, dxfs, tableStyles, colors);
    root := AppendSections(ss, parts);
    SectionsAgree(ss, parts, SectionsOf(ss));
  }

  /** The section a lookup finds under slot `k`'s name is the one written there, or null. */
  lemma SectionChild(ss: Stylesheet, parts: Sections, k: nat)
    requires WellNamed(parts) && k < |SectionTags|
    ensures HasChild(Node("styleSheet", Namespaces, Present(SectionSlots(ss, parts))), SectionTags[k]) ==
      SectionSlots(ss, parts)[k].present
    ensures Child(Node("styleSheet", Namespaces, Present(SectionSlots(ss, parts))), SectionTags[k]) ==
      if SectionSlots(ss, parts)[k].present then SectionSlots(ss, parts)[k].node else Null
  {
    SectionSlotsDistinct(ss, parts);
    SectionSlotNames(ss, parts);
    SlotChild("styleSheet", Namespaces, SectionSlots(ss, parts), k);
  }

  /** The `cellStyle` of style `i` names it, points at xf `i`, and is hidden exactly when the style is. */
  lemma CellStyleWritten(s: Style, i: nat)
    ensures var c := CellStyleElement(s, i);
      Attr(c, "name") == s.name && Attr(c, "xfId") == NatToString(i) &&
      Attr(c, "builtinId") == NatToString(s.builtinId) && HasAttr(c, "hidden") == s.hidden &&
      (s.hidden ==> Attr(c, "hidden") == "1")
  {
  }

  /** Both style sections count the styles and hold one entry per style. */
  lemma StyleSectionsCounted(ss: Stylesheet)
    ensures Attr(CellStyleXfsElement(ss), "count") == NatToString(|ss.styles|)
    ensures Attr(CellStylesElement(ss), "count") == NatToString(|ss.styles|)
    ensures |CellStyleXfsElement(ss).children| == |CellStylesElement(ss).children| == |ss.styles|
    ensures forall i :: 0 <= i < |ss.styles| ==>
      CellStylesElement(ss).children[i] == CellStyleElement(ss.styles[i], i) &&
      CellStyleXfsElement(ss).children[i] == BaseFormatElement(ss.styles[i].format, ss)
  {
  }
}
