/**
 * What `read_stylesheet` gives back for the part `write_stylesheet` wrote: section by section,
 * base format by base format, and for the whole part. Each registry entry comes back as its
 * facet's survivor; base formats come back with their registry entries' survivors, the inline
 * facets only when applied, and the number format resolved against the number formats read.
 */
module StylesheetRoundTrip {
  import opened Wrappers
  import opened Markup
  import opened Text
  import opened Values
  import opened FacetReader
  import opened FacetWriter
  import opened FacetRoundTrip
  import opened TableReader
  import opened TableWriter

  // ---------------------------------------------------------------------------------------
  // The registries

  /** A number format keeps its id and its code, except that "GENERAL" comes back as "General". */
  function NumberFormatSurvivor(nf: NumberFormat): NumberFormat {
    NumberFormat(nf.id, if nf.formatCode == "GENERAL" then "General" else nf.formatCode)
  }

  /** An indexed colour is written by its rgb value only, so it comes back as that rgb colour. */
  function RgbColorSurvivor(c: Color): Color {
    Color(Rgb(RgbHex(c)), None)
  }

  /** The number formats section, written only when there are formats, reads back as their survivors. */
  lemma NumberFormatsRoundTrip(nfs: seq<NumberFormat>)
    ensures DecodeNumberFormats(if nfs != [] then NumberFormatsElement(nfs) else Null) ==
      Ok(Each(nfs, NumberFormatSurvivor))
  {
    if nfs != [] {
      var cs := Each(nfs, NumberFormatElement);
      ChildrenNamedAll(cs, "numFmt");
      forall i | 0 <= i < |nfs|
        ensures ReadNumberFormat(cs[i]) == Ok(NumberFormatSurvivor(nfs[i]))
      {
        ParseSizeOfNatToString(nfs[i].id);
      }
      MapNodesOk(cs, ReadNumberFormat, Each(nfs, NumberFormatSurvivor));
    }
  }

  /** The fonts section reads back as the fonts' survivors. */
  lemma FontsRoundTrip(fonts: seq<Font>)
    ensures DecodeFonts(if fonts != [] then FontsElement(fonts) else Null) == Ok(Each(fonts, FontSurvivor))
  {
    if fonts != [] {
      var cs := Each(fonts, FontElement);
      forall i | 0 <= i < |fonts|
        ensures ReadFont(cs[i]) == Ok(FontSurvivor(fonts[i]))
      {
        FontRoundTrip(fonts[i]);
      }
      MapNodesOk(cs, ReadFont, Each(fonts, FontSurvivor));
    }
  }

  /** The fills section reads back as the fills' survivors. */
  lemma FillsRoundTrip(fills: seq<Fill>)
    ensures DecodeFills(if fills != [] then FillsElement(fills) else Null) == Ok(Each(fills, FillSurvivor))
  {
    if fills != [] {
      var cs := Each(fills, FillElement);
      forall i | 0 <= i < |fills|
        ensures ReadFill(cs[i]) == Ok(FillSurvivor(fills[i]))
      {
        FillRoundTrip(fills[i]);
      }
      MapNodesOk(cs, ReadFill, Each(fills, FillSurvivor));
    }
  }

  /** The borders section reads back as the borders' survivors. */
  lemma BordersRoundTrip(borders: seq<Border>)
    ensures DecodeBorders(if borders != [] then BordersElement(borders) else Null) ==
      Ok(Each(borders, BorderSurvivor))
  {
    if borders != [] {
      var cs := Each(borders, BorderElement);
      forall i | 0 <= i < |borders|
        ensures ReadBorder(cs[i]) == Ok(BorderSurvivor(borders[i]))
      {
        BorderElementRoundTrip(borders[i]);
      }
      MapNodesOk(cs, ReadBorder, Each(borders, BorderSurvivor));
    }
  }

  /** The colours section reads back as rgb colours, one per colour written. */
  lemma ColorsRoundTrip(colors: seq<Color>)
    ensures DecodeColors(if colors != [] then ColorsElement(colors) else Null) ==
      Ok(Each(colors, RgbColorSurvivor))
  {
    if colors != [] {
      var indexed := Node("indexedColors", map[], Each(colors, RgbColorElement));
      assert Child(ColorsElement(colors), "indexedColors") == indexed;
      MapNodesOk(indexed.children, ReadColor, Each(colors, RgbColorSurvivor));
    }
  }

  // ---------------------------------------------------------------------------------------
  // Base formats

  /** The facets of `xf` are entries of the registries, so the writer finds them. */
  predicate Registered(xf: BaseFormat, ss: Stylesheet) {
    xf.font in ss.fonts && xf.fill in ss.fills && xf.border in ss.borders
  }

  /** `r` holds the registries of `ss` as reading them back gives them. */
  predicate RegistriesReadBack(r: Stylesheet, ss: Stylesheet) {
    r.borders == Each(ss.borders, BorderSurvivor) && r.fills == Each(ss.fills, FillSurvivor) &&
    r.fonts == Each(ss.fonts, FontSurvivor) &&
    r.numberFormats == Each(ss.numberFormats, NumberFormatSurvivor)
  }

  /**
   * What a written base format reads back as: the survivors of its registry entries, the
   * inline alignment and protection only when applied (the defaults otherwise), the number
   * format its id resolves to among the number formats read back, and every applied flag.
   */
  function BaseFormatSurvivor(xf: BaseFormat, ss: Stylesheet, catalog: BuiltinCatalog): BaseFormat {
    BaseFormat(
      if xf.alignmentApplied then xf.alignment else DefaultAlignment,
      BorderSurvivor(xf.border), FillSurvivor(xf.fill), FontSurvivor(xf.font),
      ResolveNumberFormat(Each(ss.numberFormats, NumberFormatSurvivor), catalog, xf.numberFormat.id),
      if xf.protectionApplied then xf.protection else DefaultProtection,
      xf.alignmentApplied, xf.borderApplied, xf.fillApplied, xf.fontApplied, xf.numberFormatApplied,
      xf.protectionApplied)
  }

  /** The attributes of a written base format, as `read_base_format` sees them. */
  lemma BaseFormatAttributesRead(xf: BaseFormat, ss: Stylesheet)
    ensures var n := BaseFormatElement(xf, ss);
      HasAttr(n, "numFmtId") && Attr(n, "numFmtId") == NatToString(xf.numberFormat.id) &&
      HasAttr(n, "fontId") && Attr(n, "fontId") == NatToString(IndexOf(ss.fonts, xf.font)) &&
      HasAttr(n, "fillId") && Attr(n, "fillId") == NatToString(IndexOf(ss.fills, xf.fill)) &&
      HasAttr(n, "borderId") && Attr(n, "borderId") == NatToString(IndexOf(ss.borders, xf.border))
    ensures var n := BaseFormatElement(xf, ss);
      IsTrue(Attr(n, "applyBorder")) == xf.borderApplied && IsTrue(Attr(n, "applyFill")) == xf.fillApplied &&
      IsTrue(Attr(n, "applyFont")) == xf.fontApplied && IsTrue(Attr(n, "applyNumberFormat")) == xf.numberFormatApplied &&
      AlignmentApplied(n) == xf.alignmentApplied && ProtectionApplied(n) == xf.protectionApplied
  {
    BaseFormatIds(xf, ss);
    BaseFormatFlags(xf, ss);
    BaseFormatChildren(xf, ss);
    assert !HasAttr(BaseFormatElement(xf, ss), "protection");
  }

  /** An id attribute holding the text of `k` points at entry `k`. */
  lemma EntryOfWrittenId<T>(registry: seq<T>, n: Node, key: string, k: nat)
    requires HasAttr(n, key) && Attr(n, key) == NatToString(k)
    ensures Entry(registry, n, key) == At(registry, k)
  {
    ParseSizeOfNatToString(k);
  }

  /** Alignment and protection come back when applied and keep their defaults otherwise. */
  lemma InlineFacetsRead(xf: BaseFormat, ss: Stylesheet)
    ensures AlignmentFacet(BaseFormatElement(xf, ss)) == Ok(if xf.alignmentApplied then xf.alignment else DefaultAlignment)
    ensures ProtectionFacet(BaseFormatElement(xf, ss)) == if xf.protectionApplied then xf.protection else DefaultProtection
  {
    BaseFormatAttributesRead(xf, ss);
    BaseFormatChildren(xf, ss);
    AlignmentRoundTrip(xf.alignment);
    ProtectionRoundTrip(xf.protection);
  }

  /** A registered base format reads back against the registries read back as its survivor. */
  lemma BaseFormatRoundTrip(xf: BaseFormat, ss: Stylesheet, r: Stylesheet, catalog: BuiltinCatalog)
    requires Registered(xf, ss) && RegistriesReadBack(r, ss)
    ensures DecodeBaseFormat(BaseFormatElement(xf, ss), r, catalog) == Ok(BaseFormatSurvivor(xf, ss, catalog))
  {
    var n := BaseFormatElement(xf, ss);
    BaseFormatAttributesRead(xf, ss);
    InlineFacetsRead(xf, ss);
    EntryOfWrittenId(r.borders, n, "borderId", IndexOf(ss.borders, xf.border));
    EntryOfWrittenId(r.fills, n, "fillId", IndexOf(ss.fills, xf.fill));
    EntryOfWrittenId(r.fonts, n, "fontId", IndexOf(ss.fonts, xf.font));
    ParseSizeOfNatToString(xf.numberFormat.id);
  }

  /** `read_base_format` reads only the facets, ids and flags, so elements that agree on them read alike. */
  lemma BaseFormatReadsParts(n: Node, m: Node, r: Stylesheet, catalog: BuiltinCatalog)
    requires AlignmentFacet(n) == AlignmentFacet(m) && ProtectionFacet(n) == ProtectionFacet(m)
    requires AlignmentApplied(n) == AlignmentApplied(m) && ProtectionApplied(n) == ProtectionApplied(m)
    requires Entry(r.borders, n, "borderId") == Entry(r.borders, m, "borderId")
    requires Entry(r.fills, n, "fillId") == Entry(r.fills, m, "fillId")
    requires Entry(r.fonts, n, "fontId") == Entry(r.fonts, m, "fontId")
    requires Attr(n, "numFmtId") == Attr(m, "numFmtId")
    requires Attr(n, "applyBorder") == Attr(m, "applyBorder") && Attr(n, "applyFill") == Attr(m, "applyFill")
    requires Attr(n, "applyFont") == Attr(m, "applyFont") && Attr(n, "applyNumberFormat") == Attr(m, "applyNumberFormat")
    ensures DecodeBaseFormat(n, r, catalog) == DecodeBaseFormat(m, r, catalog)
  {
  }

  /** The `xfId` a cell format adds is not read by `read_base_format`. */
  lemma BaseFormatIgnoresXfId(n: Node, value: string, r: Stylesheet, catalog: BuiltinCatalog)
    ensures DecodeBaseFormat(WithAttr(n, "xfId", value), r, catalog) == DecodeBaseFormat(n, r, catalog)
  {
    var m := WithAttr(n, "xfId", value);
    assert Child(m, "alignment") == Child(n, "alignment") && Child(m, "protection") == Child(n, "protection");
    assert AlignmentApplied(m) == AlignmentApplied(n) && ProtectionApplied(m) == ProtectionApplied(n);
    assert AlignmentFacet(m) == AlignmentFacet(n);
    assert ProtectionFacet(m) == ProtectionFacet(n);
    assert Entry(r.borders, m, "borderId") == Entry(r.borders, n, "borderId");
    assert Entry(r.fills, m, "fillId") == Entry(r.fills, n, "fillId");
    assert Entry(r.fonts, m, "fontId") == Entry(r.fonts, n, "fontId");
    BaseFormatReadsParts(m, n, r, catalog);
  }

  /** A font missing from the registry is written past its end, and the read fails there. */
  lemma UnregisteredFontFails(xf: BaseFormat, ss: Stylesheet, r: Stylesheet, catalog: BuiltinCatalog)
    requires xf.border in ss.borders && xf.fill in ss.fills && xf.font !in ss.fonts
    requires RegistriesReadBack(r, ss)
    ensures DecodeBaseFormat(BaseFormatElement(xf, ss), r, catalog) == Err(IndexOutOfRange(|ss.fonts|, |ss.fonts|))
  {
    var n := BaseFormatElement(xf, ss);
    BaseFormatAttributesRead(xf, ss);
    InlineFacetsRead(xf, ss);
    EntryOfWrittenId(r.borders, n, "borderId", IndexOf(ss.borders, xf.border));
    EntryOfWrittenId(r.fills, n, "fillId", IndexOf(ss.fills, xf.fill));
    EntryOfWrittenId(r.fonts, n, "fontId", IndexOf(ss.fonts, xf.font));
  }
  // ---------------------------------------------------------------------------------------
  // Named styles

  /** The map `read_styles` builds when style `i` sits at xf `i`: each position to its style's name. */
  function NameMap(styles: seq<Style>): (m: map<nat, string>)
    ensures forall i: nat :: i in m <==> i < |styles|
    ensures forall i :: 0 <= i < |styles| ==> m[i] == styles[i].name
  {
    map i: nat | i < |styles| :: styles[i].name
  }

  /** The last style adds its position and name to the map of those before it. */
  lemma NameMapLast(styles: seq<Style>)
    requires styles != []
    ensures NameMap(styles) == NameMap(styles[..|styles| - 1])[|styles| - 1 := styles[|styles| - 1].name]
  {
  }

  /**
   * When `cellStyle` `i` points at xf `i` and each pair reads as `expected[i]`, the join reads
   * every style in order and maps each position to its name.
   */
  lemma {:induction false} JoinStylesAligned(xfs: seq<Node>, cells: seq<Node>, read: (Node, Node) -> Result<Style>,
                                             expected: seq<Style>)
    requires |xfs| == |expected| <= |cells|
    requires forall i :: 0 <= i < |cells| ==> CellStyleXf(cells[i]) == Ok(i)
    requires forall i :: 0 <= i < |xfs| ==> read(cells[i], xfs[i]) == Ok(expected[i])
    ensures JoinStyles(xfs, cells, read) == Ok((expected, NameMap(expected)))
  {
    if xfs != [] {
      var i := |xfs| - 1;
      JoinStylesAligned(xfs[..i], cells, read, expected[..i]);
      FindCellStyleMatch(cells, i, i);
      assert expected == expected[..i] + [expected[i]];
      NameMapLast(expected);
    }
  }

  /** What a written style reads back as: its base format's survivor, the rest unchanged. */
  function StyleSurvivor(s: Style, ss: Stylesheet, catalog: BuiltinCatalog): Style {
    s.(format := BaseFormatSurvivor(s.format, ss, catalog))
  }

  function StyleSurvivors(ss: Stylesheet, catalog: BuiltinCatalog): (r: seq<Style>)
    ensures |r| == |ss.styles| && forall i :: 0 <= i < |ss.styles| ==> r[i] == StyleSurvivor(ss.styles[i], ss, catalog)
  {
    seq(|ss.styles|, i requires 0 <= i < |ss.styles| => StyleSurvivor(ss.styles[i], ss, catalog))
  }

  /** Every style's facets are entries of the registries. */
  predicate StylesRegistered(ss: Stylesheet) {
    forall i :: 0 <= i < |ss.styles| ==> Registered(ss.styles[i].format, ss)
  }

  /** A `cellStyle` and its xf read back as the style's survivor. */
  lemma StyleRoundTrip(ss: Stylesheet, i: nat, r: Stylesheet, catalog: BuiltinCatalog)
    requires i < |ss.styles| && Registered(ss.styles[i].format, ss) && RegistriesReadBack(r, ss)
    ensures ReadStyle(CellStyleElement(ss.styles[i], i), BaseFormatElement(ss.styles[i].format, ss), r, catalog) ==
      Ok(StyleSurvivor(ss.styles[i], ss, catalog))
  {
    BaseFormatRoundTrip(ss.styles[i].format, ss, r, catalog);
    CellStyleWritten(ss.styles[i], i);
    ParseSizeOfNatToString(ss.styles[i].builtinId);
  }

  /**
   * The two style sections read back as the styles' survivors, in order, with each xf
   * position mapped to its style's name.
   */
  lemma NamedStylesRoundTrip(ss: Stylesheet, r: Stylesheet, catalog: BuiltinCatalog)
    requires StylesRegistered(ss) && RegistriesReadBack(r, ss)
    ensures JoinStyles(CellStyleXfsElement(ss).children, CellStylesElement(ss).children, StyleReader(r, catalog)) ==
      Ok((StyleSurvivors(ss, catalog), NameMap(StyleSurvivors(ss, catalog))))
  {
    var xfs := CellStyleXfsElement(ss).children;
    var cells := CellStylesElement(ss).children;
    var expected := StyleSurvivors(ss, catalog);
    forall i | 0 <= i < |cells|
      ensures CellStyleXf(cells[i]) == Ok(i)
    {
      CellStyleWritten(ss.styles[i], i);
      ParseSizeOfNatToString(i);
    }
    forall i | 0 <= i < |xfs|
      ensures StyleReader(r, catalog)(cells[i], xfs[i]) == Ok(expected[i])
    {
      StyleRoundTrip(ss, i, r, catalog);
    }
    JoinStylesAligned(xfs, cells, StyleReader(r, catalog), expected);
  }
  // ---------------------------------------------------------------------------------------
  // Cell formats

  /** `r`'s name map sends the position of every style of `ss` to that style's name. */
  predicate NamesReadBack(r: Stylesheet, ss: Stylesheet) {
    forall i :: 0 <= i < |ss.styles| ==> i in r.styleNameMap && r.styleNameMap[i] == ss.styles[i].name
  }

  /** What a written cell format reads back as: its base format's survivor. */
  function FormatSurvivor(f: Format, ss: Stylesheet, catalog: BuiltinCatalog): Format {
    Format(BaseFormatSurvivor(f.format, ss, catalog))
  }

  /** The entries reading `cellXfs` back gives: each format's survivor with its style's name. */
  function FormatEntries(ss: Stylesheet, catalog: BuiltinCatalog): (r: seq<(Format, string)>)
    requires |ss.formats| <= |ss.formatStyles|
    ensures |r| == |ss.formats|
    ensures forall i :: 0 <= i < |ss.formats| ==> r[i] == (FormatSurvivor(ss.formats[i], ss, catalog), ss.formatStyles[i])
  {
    seq(|ss.formats|, i requires 0 <= i < |ss.formats| => (FormatSurvivor(ss.formats[i], ss, catalog), ss.formatStyles[i]))
  }

  /** A base format element carries no `xfId` of its own. */
  lemma BaseFormatHasNoXfId(xf: BaseFormat, ss: Stylesheet)
    ensures !HasAttr(BaseFormatElement(xf, ss), "xfId")
  {
  }

  /**
   * A cell format whose style name is that of some style reads back as its survivor with that
   * name: the `xfId` written is the first style of the name, and the map sends it back.
   */
  lemma FormatRoundTrip(ss: Stylesheet, i: nat, r: Stylesheet, catalog: BuiltinCatalog)
    requires i < |ss.formats| && i < |ss.formatStyles|
    requires Registered(ss.formats[i].format, ss) && RegistriesReadBack(r, ss) && NamesReadBack(r, ss)
    requires ss.formatStyles[i] != "" && ss.formatStyles[i] in StyleNames(ss.styles)
    ensures ReadFormatEntry(FormatElement(ss, i), r, catalog) ==
      Ok((FormatSurvivor(ss.formats[i], ss, catalog), ss.formatStyles[i]))
  {
    var base := BaseFormatElement(ss.formats[i].format, ss);
    var k := IndexOf(StyleNames(ss.styles), ss.formatStyles[i]);
    BaseFormatHasNoXfId(ss.formats[i].format, ss);
    BaseFormatIgnoresXfId(base, NatToString(k), r, catalog);
    BaseFormatRoundTrip(ss.formats[i].format, ss, r, catalog);
    ParseSizeOfNatToString(k);
  }

  /**
   * A cell format with an empty style name is written without `xfId`, and `read_formats`
   * fails on it: the round trip breaks for every such format.
   */
  lemma EmptyStyleNameFails(ss: Stylesheet, i: nat, r: Stylesheet, catalog: BuiltinCatalog)
    requires i < |ss.formats| && i < |ss.formatStyles| && ss.formatStyles[i] == ""
    requires Registered(ss.formats[i].format, ss) && RegistriesReadBack(r, ss)
    ensures ReadFormatEntry(FormatElement(ss, i), r, catalog) == Err(InvalidNumber(""))
  {
    BaseFormatHasNoXfId(ss.formats[i].format, ss);
    BaseFormatRoundTrip(ss.formats[i].format, ss, r, catalog);
    ParseEmptyFails();
  }

  /** Every format's facets are registered and its style name is that of some style. */
  predicate FormatsWritable(ss: Stylesheet) {
    |ss.formats| <= |ss.formatStyles| &&
    forall i :: 0 <= i < |ss.formats| ==>
      Registered(ss.formats[i].format, ss) && ss.formatStyles[i] != "" && ss.formatStyles[i] in StyleNames(ss.styles)
  }

  /** The `cellXfs` section reads back as the formats' survivors, each with its style's name. */
  lemma CellFormatsRoundTrip(ss: Stylesheet, r: Stylesheet, catalog: BuiltinCatalog)
    requires FormatsWritable(ss) && RegistriesReadBack(r, ss) && NamesReadBack(r, ss)
    ensures DecodeFormats(CellXfsElement(ss), r, catalog) == Ok(FormatEntries(ss, catalog))
  {
    var xfs := FormatXfs(ss);
    forall i | 0 <= i < |xfs|
      ensures xfs[i].name == "xf" && FormatReader(r, catalog)(xfs[i]) == Ok(FormatEntries(ss, catalog)[i])
    {
      FormatRoundTrip(ss, i, r, catalog);
    }
    ChildrenNamedAll(xfs, "xf");
    MapNodesOk(xfs, FormatReader(r, catalog), FormatEntries(ss, catalog));
  }
  // ---------------------------------------------------------------------------------------
  // The whole part

  /** The registries `read_stylesheet` puts into `prior` when it reads the part written for `ss`. */
  function RegistriesOf(ss: Stylesheet, prior: Stylesheet): (r: Stylesheet)
    ensures RegistriesReadBack(r, ss)
  {
    prior.(borders := Each(ss.borders, BorderSurvivor), fills := Each(ss.fills, FillSurvivor),
      fonts := Each(ss.fonts, FontSurvivor), numberFormats := Each(ss.numberFormats, NumberFormatSurvivor),
      colors := Each(ss.colors, RgbColorSurvivor))
  }

  function FormatSurvivors(ss: Stylesheet, catalog: BuiltinCatalog): (r: seq<Format>)
    ensures |r| == |ss.formats| && forall i :: 0 <= i < |ss.formats| ==> r[i] == FormatSurvivor(ss.formats[i], ss, catalog)
  {
    seq(|ss.formats|, i requires 0 <= i < |ss.formats| => FormatSurvivor(ss.formats[i], ss, catalog))
  }

  /**
   * What reading back the part written for `ss` into `prior` gives: the registries as their
   * survivors, and the styles, their names, the formats and their style names added to those
   * of `prior`.
   */
  function ReadBack(ss: Stylesheet, prior: Stylesheet, catalog: BuiltinCatalog): Stylesheet {
    RegistriesOf(ss, prior).(
      styles := prior.styles + StyleSurvivors(ss, catalog),
      styleNameMap := prior.styleNameMap + NameMap(StyleSurvivors(ss, catalog)),
      formats := prior.formats + FormatSurvivors(ss, catalog),
      formatStyles := prior.formatStyles + ss.formatStyles[..if |ss.formats| <= |ss.formatStyles| then |ss.formats| else 0])
  }

  /** The `styleSheet` element built from `parts`. */
  function SheetOf(ss: Stylesheet, parts: Sections): Node {
    Node("styleSheet", Namespaces, Present(SectionSlots(ss, parts)))
  }

  /** The registry sections read back as the registries' survivors. */
  lemma RegistriesRoundTrip(root: Node, ss: Stylesheet, prior: Stylesheet)
    requires Child(root, "numFmts") == if ss.numberFormats != [] then NumberFormatsElement(ss.numberFormats) else Null
    requires Child(root, "fonts") == if ss.fonts != [] then FontsElement(ss.fonts) else Null
    requires Child(root, "fills") == if ss.fills != [] then FillsElement(ss.fills) else Null
    requires Child(root, "borders") == if ss.borders != [] then BordersElement(ss.borders) else Null
    requires Child(root, "colors") == if ss.colors != [] then ColorsElement(ss.colors) else Null
    ensures DecodeRegistries(root, prior) == Ok(RegistriesOf(ss, prior))
  {
    NumberFormatsRoundTrip(ss.numberFormats);
    FontsRoundTrip(ss.fonts);
    FillsRoundTrip(ss.fills);
    BordersRoundTrip(ss.borders);
    ColorsRoundTrip(ss.colors);
  }

  /** The style sections read back against the registries read back. */
  lemma StylesStageRoundTrip(root: Node, ss: Stylesheet, r: Stylesheet, catalog: BuiltinCatalog)
    requires Child(root, "cellStyleXfs") == CellStyleXfsElement(ss) && Child(root, "cellStyles") == CellStylesElement(ss)
    requires StylesRegistered(ss) && RegistriesReadBack(r, ss)
    ensures DecodeNamedStyles(root, r, catalog) ==
      Ok(r.(styles := r.styles + StyleSurvivors(ss, catalog), styleNameMap := r.styleNameMap + NameMap(StyleSurvivors(ss, catalog))))
  {
    NamedStylesRoundTrip(ss, r, catalog);
  }

  /** The formats and the style names of the entries read back. */
  lemma FormatEntriesSplit(ss: Stylesheet, catalog: BuiltinCatalog)
    requires |ss.formats| <= |ss.formatStyles|
    ensures FormatsOf(FormatEntries(ss, catalog)) == FormatSurvivors(ss, catalog)
    ensures StyleNamesOf(FormatEntries(ss, catalog)) == ss.formatStyles[..|ss.formats|]
  {
  }

  /** The `cellXfs` section reads back against the registries and names read back. */
  lemma FormatsStageRoundTrip(root: Node, ss: Stylesheet, r: Stylesheet, catalog: BuiltinCatalog)
    requires FormatsWritable(ss) && Child(root, "cellXfs") == CellXfsElement(ss)
    requires RegistriesReadBack(r, ss) && NamesReadBack(r, ss)
    ensures DecodeCellFormats(root, r, catalog) ==
      Ok(r.(formats := r.formats + FormatSurvivors(ss, catalog), formatStyles := r.formatStyles + ss.formatStyles[..|ss.formats|]))
  {
    CellFormatsRoundTrip(ss, r, catalog);
    FormatEntriesSplit(ss, catalog);
  }

  /** The sections of the part built from `parts` are found under their names, or are null. */
  lemma SheetSections(ss: Stylesheet, parts: Sections)
    requires WellNamed(parts)
    ensures var root := SheetOf(ss, parts);
      Child(root, "numFmts") == (if ss.numberFormats != [] then parts.numFmts else Null) &&
      Child(root, "fonts") == (if ss.fonts != [] then parts.fonts else Null) &&
      Child(root, "fills") == (if ss.fills != [] then parts.fills else Null) &&
      Child(root, "borders") == (if ss.borders != [] then parts.borders else Null) &&
      Child(root, "cellStyleXfs") == parts.cellStyleXfs && Child(root, "cellXfs") == parts.cellXfs &&
      Child(root, "cellStyles") == parts.cellStyles && Child(root, "colors") == (if ss.colors != [] then parts.colors else Null)
  {
    SectionChild(ss, parts, 0);
    SectionChild(ss, parts, 1);
    SectionChild(ss, parts, 2);
    SectionChild(ss, parts, 3);
    SectionChild(ss, parts, 4);
    SectionChild(ss, parts, 5);
    SectionChild(ss, parts, 6);
    SectionChild(ss, parts, 9);
  }

  /** Adding the names the join reads to any map sends each style's position to its name. */
  lemma StyleNamesReadBack(r: Stylesheet, ss: Stylesheet, catalog: BuiltinCatalog)
    ensures NamesReadBack(r.(styleNameMap := r.styleNameMap + NameMap(StyleSurvivors(ss, catalog))), ss)
  {
    var names := NameMap(StyleSurvivors(ss, catalog));
    forall i | 0 <= i < |ss.styles|
      ensures i in r.styleNameMap + names && (r.styleNameMap + names)[i] == ss.styles[i].name
    {
      assert i in names && names[i] == ss.styles[i].name;
    }
  }

  /** A part whose sections are found where the writer puts them reads back as `ReadBack`. */
  lemma SheetRoundTrip(xml: Node, root: Node, ss: Stylesheet, prior: Stylesheet, catalog: BuiltinCatalog)
    requires Child(xml, "styleSheet") == root
    requires StylesRegistered(ss) && FormatsWritable(ss)
    requires Child(root, "numFmts") == if ss.numberFormats != [] then NumberFormatsElement(ss.numberFormats) else Null
    requires Child(root, "fonts") == if ss.fonts != [] then FontsElement(ss.fonts) else Null
    requires Child(root, "fills") == if ss.fills != [] then FillsElement(ss.fills) else Null
    requires Child(root, "borders") == if ss.borders != [] then BordersElement(ss.borders) else Null
    requires Child(root, "colors") == if ss.colors != [] then ColorsElement(ss.colors) else Null
    requires Child(root, "cellStyleXfs") == CellStyleXfsElement(ss) && Child(root, "cellStyles") == CellStylesElement(ss)
    requires Child(root, "cellXfs") == CellXfsElement(ss)
    ensures DecodeStylesheet(xml, prior, catalog) == Ok(ReadBack(ss, prior, catalog))
  {
    RegistriesRoundTrip(root, ss, prior);
    var r := RegistriesOf(ss, prior);
    StylesStageRoundTrip(root, ss, r, catalog);
    var styled := r.(styles := r.styles + StyleSurvivors(ss, catalog),
      styleNameMap := r.styleNameMap + NameMap(StyleSurvivors(ss, catalog)));
    StyleNamesReadBack(r, ss, catalog);
    FormatsStageRoundTrip(root, ss, styled, catalog);
  }

  /**
   * The round trip of the whole part: appending the `styleSheet` element `write_stylesheet`
   * writes to a document without one and reading it back into `prior` gives `ReadBack`,
   * provided every facet the styles and formats use is registered and every format's style
   * name is that of some style.
   */
  lemma StylesheetRoundTrip(doc: Node, ss: Stylesheet, prior: Stylesheet, catalog: BuiltinCatalog)
    requires !HasChild(doc, "styleSheet")
    requires StylesRegistered(ss) && FormatsWritable(ss)
    ensures DecodeStylesheet(WithChild(doc, EncodeStylesheet(ss)), prior, catalog) == Ok(ReadBack(ss, prior, catalog))
  {
    var parts := SectionsOf(ss);
    ChildOfAppended(doc, EncodeStylesheet(ss));
    SectionsOfWellNamed(ss);
    SheetSections(ss, parts);
    assert EncodeStylesheet(ss) == SheetOf(ss, parts);
    SheetRoundTrip(WithChild(doc, EncodeStylesheet(ss)), SheetOf(ss, parts), ss, prior, catalog);
  }
}
