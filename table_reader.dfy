/**
 * The list readers of the styles part and the readers of the cell formats and named styles:
 * `read_number_formats`, `read_fonts`, `read_fills`, `read_borders`, `read_colors`,
 * `read_base_format`, `read_style`, `read_styles` and `read_formats`. Each is given first as a
 * function stating what it reads, then as a method with the source's loop, proved equal to it.
 */
module TableReader {
  import opened Wrappers
  import opened Markup
  import opened Text
  import opened Values
  import opened FacetReader

  // ---------------------------------------------------------------------------------------
  // Number formats

  /** One `numFmt`: its code, with "GENERAL" rewritten to "General", and its parsed id. */
  function ReadNumberFormat(n: Node): Result<NumberFormat> {
    var code := Attr(n, "formatCode");
    var id :- ParseSize(Attr(n, "numFmtId"));
    Ok(NumberFormat(id, if code == "GENERAL" then "General" else code))
  }

  /** Only the `numFmt` children are read; other children are skipped. */
  function DecodeNumberFormats(n: Node): Result<seq<NumberFormat>> {
    MapNodes(ChildrenNamed(n.children, "numFmt"), ReadNumberFormat)
  }

  /** The code "GENERAL" is the one code that does not come back as written. */
  lemma NumberFormatCode(n: Node)
    requires ReadNumberFormat(n).Ok?
    ensures ReadNumberFormat(n).value.formatCode == Attr(n, "formatCode") <==> Attr(n, "formatCode") != "GENERAL"
    ensures ReadNumberFormat(n).value.formatCode != "GENERAL"
  {
  }

  /** A `numFmt` without a parsable id fails the whole read. */
  lemma NumberFormatNeedsId(n: Node)
    requires !HasAttr(n, "numFmtId")
    ensures ReadNumberFormat(n) == Err(InvalidNumber(""))
  {
    ParseEmptyFails();
  }

  // ---------------------------------------------------------------------------------------
  // The registries

  /** `read_fonts` visits every child, whatever its name. */
  function DecodeFonts(n: Node): Result<seq<Font>> {
    MapNodes(n.children, ReadFont)
  }

  function DecodeFills(n: Node): Result<seq<Fill>> {
    MapNodes(n.children, ReadFill)
  }

  function DecodeBorders(n: Node): Result<seq<Border>> {
    MapNodes(n.children, ReadBorder)
  }

  /** `read_indexed_colors`: every child is a colour. */
  function DecodeIndexedColors(n: Node): Result<seq<Color>> {
    MapNodes(n.children, ReadColor)
  }

  /** `read_colors`: the colours of the `indexedColors` child, or none without one. */
  function DecodeColors(n: Node): Result<seq<Color>> {
    if HasChild(n, "indexedColors") then DecodeIndexedColors(Child(n, "indexedColors")) else Ok([])
  }

  /** `read_number_formats`: the list is cleared, then refilled from the `numFmt` children. */
  method ReadNumberFormats(n: Node) returns (formats: seq<NumberFormat>, r: Result<()>)
    ensures r.Ok? <==> DecodeNumberFormats(n).Ok?
    ensures r.Ok? ==> formats == DecodeNumberFormats(n).value
    ensures r.Err? ==> DecodeNumberFormats(n) == Err(r.error)
    ensures formats == DecodedPrefix(ChildrenNamed(n.children, "numFmt"), ReadNumberFormat)
  {
    formats, r := ReadEach(ChildrenNamed(n.children, "numFmt"), ReadNumberFormat, []);
  }

  /** `read_fonts`: the list is cleared, then refilled from every child. */
  method ReadFonts(n: Node) returns (fonts: seq<Font>, r: Result<()>)
    ensures r.Ok? <==> DecodeFonts(n).Ok?
    ensures r.Ok? ==> fonts == DecodeFonts(n).value
    ensures r.Err? ==> DecodeFonts(n) == Err(r.error)
    ensures fonts == DecodedPrefix(n.children, ReadFont)
  {
    fonts, r := ReadEach(n.children, ReadFont, []);
  }

  /**
   * `read_fills`: the list is cleared, then for every child a default fill is pushed and
   * overwritten by the fill read, so a failure leaves that default fill after the ones read.
   */
  method ReadFills(n: Node) returns (fills: seq<Fill>, r: Result<()>)
    ensures r.Ok? <==> DecodeFills(n).Ok?
    ensures r.Ok? ==> fills == DecodeFills(n).value
    ensures r.Err? ==> DecodeFills(n) == Err(r.error)
    ensures r.Err? ==> fills == DecodedPrefix(n.children, ReadFill) + [DefaultFill]
  {
    var ns := n.children;
    fills := [];
    var i := 0;
    while i < |ns|
      invariant i <= |ns|
      invariant MapNodes(ns[..i], ReadFill).Ok? && fills == MapNodes(ns[..i], ReadFill).value
    {
      assert ns[..i + 1][..i] == ns[..i];
      fills := fills + [DefaultFill];
      var v := ReadFill(ns[i]);
      if v.Err? {
        DecodedPrefixAtFailure(ns, ReadFill, i);
        MapNodesFirstFailure(ns, ReadFill, i);
        return fills, Err(v.error);
      }
      fills := fills[..|fills| - 1] + [v.value];
      i := i + 1;
    }
    assert ns[..i] == ns;
    r := Ok(());
  }

  /** `read_borders`: the list is cleared, then refilled from every child. */
  method ReadBorders(n: Node) returns (borders: seq<Border>, r: Result<()>)
    ensures r.Ok? <==> DecodeBorders(n).Ok?
    ensures r.Ok? ==> borders == DecodeBorders(n).value
    ensures r.Err? ==> DecodeBorders(n) == Err(r.error)
    ensures borders == DecodedPrefix(n.children, ReadBorder)
  {
    borders, r := ReadEach(n.children, ReadBorder, []);
  }

  /** `read_indexed_colors`: the colours are pushed after those already in the list. */
  method ReadIndexedColors(n: Node, prior: seq<Color>) returns (colors: seq<Color>, r: Result<()>)
    ensures r.Ok? <==> DecodeIndexedColors(n).Ok?
    ensures r.Ok? ==> colors == prior + DecodeIndexedColors(n).value
    ensures r.Err? ==> DecodeIndexedColors(n) == Err(r.error)
    ensures colors == prior + DecodedPrefix(n.children, ReadColor)
  {
    colors, r := ReadEach(n.children, ReadColor, prior);
  }

  /** `read_colors`: the list is cleared, then refilled from `indexedColors` when there is one. */
  method ReadColors(n: Node) returns (colors: seq<Color>, r: Result<()>)
    ensures r.Ok? <==> DecodeColors(n).Ok?
    ensures r.Ok? ==> colors == DecodeColors(n).value
    ensures r.Err? ==> DecodeColors(n) == Err(r.error)
    ensures colors == if HasChild(n, "indexedColors") then DecodedPrefix(Child(n, "indexedColors").children, ReadColor) else []
  {
    colors, r := [], Ok(());
    if HasChild(n, "indexedColors") {
      colors, r := ReadIndexedColors(Child(n, "indexedColors"), colors);
    }
  }

  // ---------------------------------------------------------------------------------------
  // Base formats

  /** `vector::at`: the element at `i`, or the out-of-range failure. */
  function At<T>(s: seq<T>, i: nat): (r: Result<T>)
    ensures r.Ok? <==> i < |s|
    ensures r.Ok? ==> r.value == s[i]
    ensures r.Err? ==> r.error == IndexOutOfRange(i, |s|)
  {
    if i < |s| then Ok(s[i]) else Err(IndexOutOfRange(i, |s|))
  }

  /** Position of the first registered number format with id `id`, or |registry|. */
  function FirstWithId(registry: seq<NumberFormat>, id: nat): (k: nat)
    ensures k <= |registry|
    ensures k < |registry| ==> registry[k].id == id
    ensures forall j :: 0 <= j < k ==> registry[j].id != id
  {
    if registry == [] then 0
    else if registry[0].id == id then 0
    else 1 + FirstWithId(registry[1..], id)
  }

  /**
   * The number format `read_base_format` settles on for `id`: the first registered format
   * with that id, else the builtin one, else "General".
   */
  function ResolveNumberFormat(registry: seq<NumberFormat>, catalog: BuiltinCatalog, id: nat): NumberFormat {
    var k := FirstWithId(registry, id);
    if k < |registry| then registry[k]
    else if id in catalog then NumberFormat(id, catalog[id])
    else GeneralFormat
  }

  /** The three ways a number format id is resolved, and nothing else. */
  lemma ResolveNumberFormatCases(registry: seq<NumberFormat>, catalog: BuiltinCatalog, id: nat)
    ensures var nf := ResolveNumberFormat(registry, catalog, id);
      (exists k :: 0 <= k < |registry| && registry[k].id == id) ==>
        exists k :: 0 <= k < |registry| && nf == registry[k] && registry[k].id == id &&
          forall j :: 0 <= j < k ==> registry[j].id != id
    ensures var nf := ResolveNumberFormat(registry, catalog, id);
      (forall k :: 0 <= k < |registry| ==> registry[k].id != id) ==>
        nf == if id in catalog then NumberFormat(id, catalog[id]) else GeneralFormat
  {
    var k := FirstWithId(registry, id);
    if exists k :: 0 <= k < |registry| && registry[k].id == id {
      var j :| 0 <= j < |registry| && registry[j].id == id;
      assert k <= j;
    }
  }

  /** Whether the element's applied flag or its inline child switches alignment on. */
  predicate AlignmentApplied(n: Node) {
    HasChild(n, "alignment") || IsTrue(Attr(n, "applyAlignment"))
  }

  /** Protection is switched on by a `protection` attribute, not by the child it reads. */
  predicate ProtectionApplied(n: Node) {
    HasAttr(n, "protection") || IsTrue(Attr(n, "applyProtection"))
  }

  /** An id attribute read as a registry index: absent means 0. */
  function IndexAttr(n: Node, key: string): Result<nat> {
    if HasAttr(n, key) then ParseSize(Attr(n, key)) else Ok(0)
  }

  /** The registry entry an id attribute points at: `registry.at(index)`. */
  function Entry<T>(registry: seq<T>, n: Node, key: string): (r: Result<T>)
    ensures r.Ok? ==> r.value in registry
    ensures !HasAttr(n, key) ==> r == At(registry, 0)
  {
    var i :- IndexAttr(n, key);
    At(registry, i)
  }

  /** The inline alignment, read only when alignment is applied. */
  function AlignmentFacet(n: Node): Result<Alignment> {
    if AlignmentApplied(n) then ReadAlignment(Child(n, "alignment")) else Ok(DefaultAlignment)
  }

  /** The inline protection, read only when protection is applied. */
  function ProtectionFacet(n: Node): Protection {
    if ProtectionApplied(n) then ReadProtection(Child(n, "protection")) else DefaultProtection
  }

  /**
   * `read_base_format` on a fresh format: alignment, border, fill, font, number format and
   * protection in that order, failing at the first number that does not parse or index that
   * is out of range. Alignment and protection keep their defaults when not applied.
   */
  function DecodeBaseFormat(n: Node, ss: Stylesheet, catalog: BuiltinCatalog): Result<BaseFormat> {
    var alignment :- AlignmentFacet(n);
    var border :- Entry(ss.borders, n, "borderId");
    var fill :- Entry(ss.fills, n, "fillId");
    var font :- Entry(ss.fonts, n, "fontId");
    var id :- ParseSize(Attr(n, "numFmtId"));
    Ok(BaseFormat(alignment, border, fill, font, ResolveNumberFormat(ss.numberFormats, catalog, id), ProtectionFacet(n),
      AlignmentApplied(n), IsTrue(Attr(n, "applyBorder")), IsTrue(Attr(n, "applyFill")),
      IsTrue(Attr(n, "applyFont")), IsTrue(Attr(n, "applyNumberFormat")), ProtectionApplied(n)))
  }

  /** What a decoded base format carries, facet by facet. */
  lemma DecodeBaseFormatFacets(n: Node, ss: Stylesheet, catalog: BuiltinCatalog)
    requires DecodeBaseFormat(n, ss, catalog).Ok?
    ensures var f := DecodeBaseFormat(n, ss, catalog).value;
      f.alignmentApplied == AlignmentApplied(n) && f.protectionApplied == ProtectionApplied(n) &&
      f.borderApplied == IsTrue(Attr(n, "applyBorder")) && f.fillApplied == IsTrue(Attr(n, "applyFill")) &&
      f.fontApplied == IsTrue(Attr(n, "applyFont")) &&
      f.numberFormatApplied == IsTrue(Attr(n, "applyNumberFormat")) &&
      (!AlignmentApplied(n) ==> f.alignment == DefaultAlignment) &&
      (!ProtectionApplied(n) ==> f.protection == DefaultProtection) &&
      (ProtectionApplied(n) ==> f.protection == ReadProtection(Child(n, "protection"))) &&
      f.border in ss.borders && f.fill in ss.fills && f.font in ss.fonts &&
      (!HasAttr(n, "borderId") ==> f.border == ss.borders[0]) &&
      (!HasAttr(n, "fillId") ==> f.fill == ss.fills[0]) &&
      (!HasAttr(n, "fontId") ==> f.font == ss.fonts[0]) &&
      f.numberFormat == ResolveNumberFormat(ss.numberFormats, catalog, ParseSize(Attr(n, "numFmtId")).value)
  {
  }

  /** An xf without `borderId` reads border 0, so with no borders it fails. */
  lemma DefaultIndexNeedsEntry(n: Node, ss: Stylesheet, catalog: BuiltinCatalog)
    requires AlignmentFacet(n).Ok? && !HasAttr(n, "borderId") && ss.borders == []
    ensures DecodeBaseFormat(n, ss, catalog) == Err(IndexOutOfRange(0, 0))
  {
  }

  /** An index past the end of its registry fails the read with that index. */
  lemma IndexOutOfRangeFails(n: Node, ss: Stylesheet, catalog: BuiltinCatalog)
    requires AlignmentFacet(n).Ok?
    requires ParseSize(Attr(n, "borderId")).Ok? && HasAttr(n, "borderId")
    requires ParseSize(Attr(n, "borderId")).value >= |ss.borders|
    ensures DecodeBaseFormat(n, ss, catalog) == Err(IndexOutOfRange(ParseSize(Attr(n, "borderId")).value, |ss.borders|))
  {
  }

  /** An xf without `numFmtId` fails, whatever else it has. */
  lemma BaseFormatNeedsNumberFormat(n: Node, ss: Stylesheet, catalog: BuiltinCatalog)
    requires !HasAttr(n, "numFmtId")
    ensures DecodeBaseFormat(n, ss, catalog).Err?
  {
    ParseEmptyFails();
  }

  /** A `protection` child alone does not switch protection on; an `alignment` child alone does. */
  lemma InlineChildrenAsymmetry(n: Node)
    requires HasChild(n, "alignment") && HasChild(n, "protection")
    requires !HasAttr(n, "protection") && !HasAttr(n, "applyProtection")
    ensures AlignmentApplied(n) && !ProtectionApplied(n)
  {
  }

  /** The registry search of `read_base_format`: the first format with the id, if any. */
  method FindRegisteredFormat(registry: seq<NumberFormat>, id: nat) returns (found: bool, nf: NumberFormat)
    ensures found <==> FirstWithId(registry, id) < |registry|
    ensures found ==> nf == registry[FirstWithId(registry, id)]
  {
    found, nf := false, GeneralFormat;
    var i := 0;
    while i < |registry|
      invariant i <= |registry|
      invariant forall j :: 0 <= j < i ==> registry[j].id != id
    {
      if registry[i].id == id {
        return true, registry[i];
      }
      i := i + 1;
    }
  }

  /** The number-format lookup of `read_base_format`: the registry loop, then the builtins. */
  method FindNumberFormat(registry: seq<NumberFormat>, catalog: BuiltinCatalog, id: nat) returns (nf: NumberFormat)
    ensures nf == ResolveNumberFormat(registry, catalog, id)
  {
    var registered;
    registered, nf := FindRegisteredFormat(registry, id);
    if !registered {
      nf := if id in catalog then NumberFormat(id, catalog[id]) else GeneralFormat;
    }
  }

  /** `read_base_format`, step by step, with the number-format search loop. */
  method ReadBaseFormat(n: Node, ss: Stylesheet, catalog: BuiltinCatalog) returns (r: Result<BaseFormat>)
    ensures r == DecodeBaseFormat(n, ss, catalog)
  {
    var f := DefaultBaseFormat.(alignmentApplied := AlignmentApplied(n));
    var alignment := AlignmentFacet(n);
    if alignment.Err? {
      return Err(alignment.error);
    }
    f := f.(alignment := alignment.value);
    var border := Entry(ss.borders, n, "borderId");
    if border.Err? {
      return Err(border.error);
    }
    f := f.(border := border.value, borderApplied := IsTrue(Attr(n, "applyBorder")));
    var fill := Entry(ss.fills, n, "fillId");
    if fill.Err? {
      return Err(fill.error);
    }
    f := f.(fill := fill.value, fillApplied := IsTrue(Attr(n, "applyFill")));
    var font := Entry(ss.fonts, n, "fontId");
    if font.Err? {
      return Err(font.error);
    }
    f := f.(font := font.value, fontApplied := IsTrue(Attr(n, "applyFont")));
    var id := ParseSize(Attr(n, "numFmtId"));
    if id.Err? {
      return Err(id.error);
    }
    var nf := FindNumberFormat(ss.numberFormats, catalog, id.value);
    f := f.(numberFormat := nf);
    f := f.(numberFormatApplied := IsTrue(Attr(n, "applyNumberFormat")));
    f := f.(protectionApplied := ProtectionApplied(n), protection := ProtectionFacet(n));
    r := Ok(f);
  }

  // ---------------------------------------------------------------------------------------
  // Named styles

  /** `read_style`: the base format from the style's xf, then name, hidden flag and builtin id. */
  function ReadStyle(cell: Node, xf: Node, ss: Stylesheet, catalog: BuiltinCatalog): Result<Style> {
    var format :- DecodeBaseFormat(xf, ss, catalog);
    var builtinId :- ParseSize(Attr(cell, "builtinId"));
    Ok(Style(format, Attr(cell, "name"), HasAttr(cell, "hidden") && IsTrue(Attr(cell, "hidden")), builtinId))
  }

  /** The `xfId` of a `cellStyle`, parsed. */
  function CellStyleXf(cell: Node): Result<nat> {
    ParseSize(Attr(cell, "xfId"))
  }

  /**
   * The inner loop of `read_styles`: the first `cellStyle` whose `xfId` is `i`, parsing each
   * `xfId` on the way and failing at the first that does not parse.
   */
  function FindCellStyle(cells: seq<Node>, i: nat): Result<Option<Node>> {
    if cells == [] then Ok(None)
    else
      var x :- CellStyleXf(cells[0]);
      if x == i then Ok(Some(cells[0])) else FindCellStyle(cells[1..], i)
  }

  /**
   * The search finds a `cellStyle` whose `xfId` is `i`, all earlier ones parsing to other
   * positions; it finds none exactly when every `xfId` parses and none is `i`.
   */
  lemma {:induction false} FindCellStyleSpec(cells: seq<Node>, i: nat)
    ensures var r := FindCellStyle(cells, i);
      r.Ok? && r.value.Some? ==>
        exists j :: 0 <= j < |cells| && cells[j] == r.value.value && CellStyleXf(cells[j]) == Ok(i) &&
          forall k :: 0 <= k < j ==> CellStyleXf(cells[k]).Ok? && CellStyleXf(cells[k]).value != i
    ensures var r := FindCellStyle(cells, i);
      r.Ok? && r.value.None? <==>
        forall k :: 0 <= k < |cells| ==> CellStyleXf(cells[k]).Ok? && CellStyleXf(cells[k]).value != i
  {
    if cells != [] {
      FindCellStyleSpec(cells[1..], i);
      assert forall k :: 1 <= k < |cells| ==> cells[k] == cells[1..][k - 1];
      var r := FindCellStyle(cells, i);
      if CellStyleXf(cells[0]).Ok? && CellStyleXf(cells[0]).value != i && r.Ok? && r.value.Some? {
        var j :| 0 <= j < |cells[1..]| && cells[1..][j] == r.value.value && CellStyleXf(cells[1..][j]) == Ok(i) &&
          forall k :: 0 <= k < j ==> CellStyleXf(cells[1..][k]).Ok? && CellStyleXf(cells[1..][k]).value != i;
        assert cells[j + 1] == r.value.value;
      }
    }
  }

  /** `read_style` against the stylesheet's registries, as a value the join can be given. */
  function StyleReader(ss: Stylesheet, catalog: BuiltinCatalog): (Node, Node) -> Result<Style> {
    (cell, xf) => ReadStyle(cell, xf, ss, catalog)
  }

  /**
   * `read_styles` over the first |xfs| style xfs, with `read` as `read_style`: position `i`
   * gets a style exactly when some `cellStyle` has `xfId` i; the style is read from that
   * `cellStyle` and xf `i`, and the map sends `i` to its name. The result is the styles in
   * xf order and the map of new names.
   */
  function JoinStyles(xfs: seq<Node>, cells: seq<Node>, read: (Node, Node) -> Result<Style>): Result<(seq<Style>, map<nat, string>)> {
    if xfs == [] then Ok(([], map[]))
    else
      var joined :- JoinStyles(xfs[..|xfs| - 1], cells, read);
      var i := |xfs| - 1;
      var found :- FindCellStyle(cells, i);
      if found.Some? then
        var s :- read(found.value, xfs[i]);
        Ok((joined.0 + [s], joined.1[i := s.name]))
      else Ok(joined)
  }

  /**
   * The positional join: every position's search succeeded, the names map has a key exactly
   * for the xf positions some `cellStyle` points at, and there is one style per key.
   */
  lemma {:induction false} JoinStylesPositions(xfs: seq<Node>, cells: seq<Node>, read: (Node, Node) -> Result<Style>)
    requires JoinStyles(xfs, cells, read).Ok?
    ensures forall i :: 0 <= i < |xfs| ==> FindCellStyle(cells, i).Ok?
    ensures forall i :: i in JoinStyles(xfs, cells, read).value.1 ==> i < |xfs|
    ensures forall i :: 0 <= i < |xfs| ==>
      (i in JoinStyles(xfs, cells, read).value.1 <==> FindCellStyle(cells, i).value.Some?)
    ensures |JoinStyles(xfs, cells, read).value.0| == |JoinStyles(xfs, cells, read).value.1|
  {
    if xfs != [] {
      var init := xfs[..|xfs| - 1];
      var last := |xfs| - 1;
      assert JoinStyles(init, cells, read).Ok?;
      JoinStylesPositions(init, cells, read);
      var joined := JoinStyles(init, cells, read).value;
      var found := FindCellStyle(cells, last);
      assert found.Ok?;
      assert last !in joined.1;
      var result := JoinStyles(xfs, cells, read).value;
      if found.value.Some? {
        var st := read(found.value.value, xfs[last]);
        assert result == (joined.0 + [st.value], joined.1[last := st.value.name]);
      } else {
        assert result == joined;
      }
      assert forall i :: 0 <= i < last ==> FindCellStyle(cells, i).Ok?;
      assert forall i :: 0 <= i < last ==> (i in result.1 <==> i in joined.1);
    }
  }

  /** Once the join fails at some position, the whole join fails the same way. */
  lemma {:induction false} JoinStylesStopsAtFailure(xfs: seq<Node>, cells: seq<Node>, read: (Node, Node) -> Result<Style>, m: nat)
    requires m <= |xfs| && JoinStyles(xfs[..m], cells, read).Err?
    ensures JoinStyles(xfs, cells, read) == JoinStyles(xfs[..m], cells, read)
    decreases |xfs|
  {
    if m < |xfs| {
      var init := xfs[..|xfs| - 1];
      assert init[..m] == xfs[..m];
      JoinStylesStopsAtFailure(init, cells, read, m);
    } else {
      assert xfs[..m] == xfs;
    }
  }

  /**
   * What `read_styles` has added when it stops: the styles and names of the longest prefix of
   * the style xfs that joins, that is all of them on success and those before the failing
   * position otherwise.
   */
  function JoinedPrefix(xfs: seq<Node>, cells: seq<Node>, read: (Node, Node) -> Result<Style>): (seq<Style>, map<nat, string>) {
    if JoinStyles(xfs, cells, read).Ok? then JoinStyles(xfs, cells, read).value
    else JoinedPrefix(xfs[..|xfs| - 1], cells, read)
  }

  /** When the join first fails at position m, what was added is the join of the xfs before m. */
  lemma {:induction false} JoinedPrefixAtFailure(xfs: seq<Node>, cells: seq<Node>, read: (Node, Node) -> Result<Style>, m: nat)
    requires m < |xfs| && JoinStyles(xfs[..m], cells, read).Ok? && JoinStyles(xfs[..m + 1], cells, read).Err?
    ensures JoinedPrefix(xfs, cells, read) == JoinStyles(xfs[..m], cells, read).value
    decreases |xfs|
  {
    JoinStylesStopsAtFailure(xfs, cells, read, m + 1);
    var init := xfs[..|xfs| - 1];
    if |xfs| == m + 1 {
      assert init == xfs[..m];
    } else {
      assert init[..m] == xfs[..m] && init[..m + 1] == xfs[..m + 1];
      JoinedPrefixAtFailure(init, cells, read, m);
    }
  }

  /** The inner loop of `read_styles`: the first `cellStyle` pointing at xf `index`. */
  method FindCellStyleLoop(cells: seq<Node>, index: nat) returns (r: Result<Option<Node>>)
    ensures r == FindCellStyle(cells, index)
  {
    var j := 0;
    while j < |cells|
      invariant j <= |cells|
      invariant forall k :: 0 <= k < j ==> CellStyleXf(cells[k]).Ok? && CellStyleXf(cells[k]).value != index
    {
      var x := CellStyleXf(cells[j]);
      if x.Err? {
        FindCellStyleFailure(cells, index, j);
        return Err(x.error);
      }
      if x.value == index {
        FindCellStyleMatch(cells, index, j);
        return Ok(Some(cells[j]));
      }
      j := j + 1;
    }
    FindCellStyleSpec(cells, index);
    r := Ok(None);
  }

  /**
   * The nested loops of `read_styles`, with `read` as `read_style` against the stylesheet
   * (`StyleReader`): styles and names are added to those already there.
   */
  method ReadStyles(cellStyles: Node, cellStyleXfs: Node, read: (Node, Node) -> Result<Style>,
                    priorStyles: seq<Style>, priorNames: map<nat, string>)
    returns (styles: seq<Style>, names: map<nat, string>, r: Result<()>)
    ensures var joined := JoinStyles(cellStyleXfs.children, cellStyles.children, read);
      (r.Ok? <==> joined.Ok?) &&
      (r.Err? ==> joined == Err(r.error)) &&
      (r.Ok? ==> styles == priorStyles + joined.value.0 && names == priorNames + joined.value.1)
    ensures var added := JoinedPrefix(cellStyleXfs.children, cellStyles.children, read);
      styles == priorStyles + added.0 && names == priorNames + added.1
  {
    var xfs := cellStyleXfs.children;
    var cells := cellStyles.children;
    styles, names := priorStyles, priorNames;
    var index := 0;
    while index < |xfs|
      invariant index <= |xfs|
      invariant JoinStyles(xfs[..index], cells, read).Ok?
      invariant styles == priorStyles + JoinStyles(xfs[..index], cells, read).value.0
      invariant names == priorNames + JoinStyles(xfs[..index], cells, read).value.1
    {
      assert xfs[..index + 1][..index] == xfs[..index];
      assert xfs[..index + 1][index] == xfs[index];
      var joined := JoinStyles(xfs[..index], cells, read).value;
      var found := FindCellStyleLoop(cells, index);
      if found.Err? {
        JoinStylesStopsAtFailure(xfs, cells, read, index + 1);
        JoinedPrefixAtFailure(xfs, cells, read, index);
        return styles, names, Err(found.error);
      }
      if found.value.Some? {
        var s := read(found.value.value, xfs[index]);
        if s.Err? {
          JoinStylesStopsAtFailure(xfs, cells, read, index + 1);
          JoinedPrefixAtFailure(xfs, cells, read, index);
          return styles, names, Err(s.error);
        }
        assert (priorNames + joined.1)[index := s.value.name] == priorNames + joined.1[index := s.value.name];
        styles := styles + [s.value];
        names := names[index := s.value.name];
      }
      index := index + 1;
    }
    assert xfs[..index] == xfs;
    r := Ok(());
  }

  /** The inner search stops with a failure at the first `xfId` that does not parse. */
  lemma {:induction false} FindCellStyleFailure(cells: seq<Node>, i: nat, j: nat)
    requires j < |cells| && CellStyleXf(cells[j]).Err?
    requires forall k :: 0 <= k < j ==> CellStyleXf(cells[k]).Ok? && CellStyleXf(cells[k]).value != i
    ensures FindCellStyle(cells, i) == Err(CellStyleXf(cells[j]).error)
    decreases j
  {
    if j > 0 {
      assert forall k :: 0 <= k < j - 1 ==> cells[1..][k] == cells[k + 1];
      FindCellStyleFailure(cells[1..], i, j - 1);
    }
  }

  /** The inner search stops at the first `cellStyle` whose `xfId` is `i`. */
  lemma {:induction false} FindCellStyleMatch(cells: seq<Node>, i: nat, j: nat)
    requires j < |cells| && CellStyleXf(cells[j]) == Ok(i)
    requires forall k :: 0 <= k < j ==> CellStyleXf(cells[k]).Ok? && CellStyleXf(cells[k]).value != i
    ensures FindCellStyle(cells, i) == Ok(Some(cells[j]))
    decreases j
  {
    if j > 0 {
      assert forall k :: 0 <= k < j - 1 ==> cells[1..][k] == cells[k + 1];
      FindCellStyleMatch(cells[1..], i, j - 1);
    }
  }

  // ---------------------------------------------------------------------------------------
  // Cell formats

  /**
   * One `xf` of `cellXfs`: its base format, then its `xfId` (required) looked up in the
   * style name map, failing when no style was read for that position.
   */
  function ReadFormatEntry(n: Node, ss: Stylesheet, catalog: BuiltinCatalog): Result<(Format, string)> {
    var format :- DecodeBaseFormat(n, ss, catalog);
    var styleIndex :- ParseSize(Attr(n, "xfId"));
    if styleIndex in ss.styleNameMap then Ok((Format(format), ss.styleNameMap[styleIndex]))
    else Err(UnmappedStyle(styleIndex))
  }

  function FormatReader(ss: Stylesheet, catalog: BuiltinCatalog): Node -> Result<(Format, string)> {
    n => ReadFormatEntry(n, ss, catalog)
  }

  /** `read_formats`: an entry for each `xf` child, in order. */
  function DecodeFormats(n: Node, ss: Stylesheet, catalog: BuiltinCatalog): Result<seq<(Format, string)>> {
    MapNodes(ChildrenNamed(n.children, "xf"), FormatReader(ss, catalog))
  }

  /** A cell format whose `xfId` names no style read fails; one without `xfId` fails too. */
  lemma FormatNeedsStyle(n: Node, ss: Stylesheet, catalog: BuiltinCatalog)
    requires DecodeBaseFormat(n, ss, catalog).Ok?
    ensures !HasAttr(n, "xfId") ==> ReadFormatEntry(n, ss, catalog) == Err(InvalidNumber(""))
    ensures ParseSize(Attr(n, "xfId")).Ok? && ParseSize(Attr(n, "xfId")).value !in ss.styleNameMap ==>
      ReadFormatEntry(n, ss, catalog) == Err(UnmappedStyle(ParseSize(Attr(n, "xfId")).value))
  {
    ParseEmptyFails();
  }

  /** The formats of a list of entries. */
  function FormatsOf(entries: seq<(Format, string)>): (r: seq<Format>)
    ensures |r| == |entries| && forall i :: 0 <= i < |entries| ==> r[i] == entries[i].0
  {
    seq(|entries|, i requires 0 <= i < |entries| => entries[i].0)
  }

  /** The style names of a list of entries. */
  function StyleNamesOf(entries: seq<(Format, string)>): (r: seq<string>)
    ensures |r| == |entries| && forall i :: 0 <= i < |entries| ==> r[i] == entries[i].1
  {
    seq(|entries|, i requires 0 <= i < |entries| => entries[i].1)
  }

  /**
   * The loop of `read_formats`, with `read` as its body against the stylesheet
   * (`FormatReader`): each format and its style's name are pushed after those already there;
   * a failure leaves the entries of the `xf` elements before it.
   */
  method ReadFormats(n: Node, read: Node -> Result<(Format, string)>, priorFormats: seq<Format>, priorStyles: seq<string>)
    returns (formats: seq<Format>, formatStyles: seq<string>, r: Result<()>)
    ensures var decoded := MapNodes(ChildrenNamed(n.children, "xf"), read);
      (r.Ok? <==> decoded.Ok?) &&
      (r.Err? ==> decoded == Err(r.error)) &&
      (r.Ok? ==> formats == priorFormats + FormatsOf(decoded.value) &&
                 formatStyles == priorStyles + StyleNamesOf(decoded.value))
    ensures var pushed := DecodedPrefix(ChildrenNamed(n.children, "xf"), read);
      formats == priorFormats + FormatsOf(pushed) && formatStyles == priorStyles + StyleNamesOf(pushed)
  {
    var xfs := ChildrenNamed(n.children, "xf");
    var entries;
    entries, r := ReadEach(xfs, read, []);
    assert entries == DecodedPrefix(xfs, read);
    assert r.Ok? ==> entries == MapNodes(xfs, read).value;
    formats := priorFormats + FormatsOf(entries);
    formatStyles := priorStyles + StyleNamesOf(entries);
  }

  // ---------------------------------------------------------------------------------------
  // The whole part

  /** The first five readers of `read_stylesheet`: each list is replaced by what is read. */
  function DecodeRegistries(root: Node, prior: Stylesheet): Result<Stylesheet> {
    var borders :- DecodeBorders(Child(root, "borders"));
    var fills :- DecodeFills(Child(root, "fills"));
    var fonts :- DecodeFonts(Child(root, "fonts"));
    var numberFormats :- DecodeNumberFormats(Child(root, "numFmts"));
    var colors :- DecodeColors(Child(root, "colors"));
    Ok(prior.(borders := borders, fills := fills, fonts := fonts, numberFormats := numberFormats, colors := colors))
  }

  /**
   * The first five reads of `read_stylesheet`, each storing its list into the stylesheet before
   * the next starts; the first failure ends the stage.
   */
  method ReadRegistries(root: Node, prior: Stylesheet) returns (ss: Stylesheet, r: Result<()>)
    ensures r.Ok? <==> DecodeRegistries(root, prior).Ok?
    ensures r.Ok? ==> ss == DecodeRegistries(root, prior).value
    ensures r.Err? ==> DecodeRegistries(root, prior) == Err(r.error)
  {
    ss := prior;
    var borders, fills, fonts, numberFormats, colors;
    borders, r := ReadBorders(Child(root, "borders"));
    ss := ss.(borders := borders);
    if r.Err? { return; }
    fills, r := ReadFills(Child(root, "fills"));
    ss := ss.(fills := fills);
    if r.Err? { return; }
    fonts, r := ReadFonts(Child(root, "fonts"));
    ss := ss.(fonts := fonts);
    if r.Err? { return; }
    numberFormats, r := ReadNumberFormats(Child(root, "numFmts"));
    ss := ss.(numberFormats := numberFormats);
    if r.Err? { return; }
    colors, r := ReadColors(Child(root, "colors"));
    ss := ss.(colors := colors);
  }

  /** `read_styles` within `read_stylesheet`: styles and names are added to the stylesheet's. */
  function DecodeNamedStyles(root: Node, ss: Stylesheet, catalog: BuiltinCatalog): Result<Stylesheet> {
    var joined :- JoinStyles(Child(root, "cellStyleXfs").children, Child(root, "cellStyles").children, StyleReader(ss, catalog));
    Ok(ss.(styles := ss.styles + joined.0, styleNameMap := ss.styleNameMap + joined.1))
  }

  /** `read_formats` within `read_stylesheet`: formats and their style names are added. */
  function DecodeCellFormats(root: Node, ss: Stylesheet, catalog: BuiltinCatalog): Result<Stylesheet> {
    var entries :- DecodeFormats(Child(root, "cellXfs"), ss, catalog);
    Ok(ss.(formats := ss.formats + FormatsOf(entries), formatStyles := ss.formatStyles + StyleNamesOf(entries)))
  }

  /**
   * `read_stylesheet` into `prior`: borders, fills, fonts, number formats and colours replace
   * the old lists; styles, formats, format styles and the style name map are added to.
   * Styles are read against the new registries; formats against them and the updated map.
   */
  function DecodeStylesheet(xml: Node, prior: Stylesheet, catalog: BuiltinCatalog): Result<Stylesheet> {
    var root := Child(xml, "styleSheet");
    var registries :- DecodeRegistries(root, prior);
    var styled :- DecodeNamedStyles(root, registries, catalog);
    DecodeCellFormats(root, styled, catalog)
  }

  /** The registry stage reads the same whatever the registries were, and keeps everything else. */
  lemma RegistriesStage(root: Node, prior1: Stylesheet, prior2: Stylesheet)
    requires prior1.styles == prior2.styles && prior1.styleNameMap == prior2.styleNameMap
    requires prior1.formats == prior2.formats && prior1.formatStyles == prior2.formatStyles
    ensures DecodeRegistries(root, prior1).Ok? <==> DecodeRegistries(root, prior2).Ok?
    ensures DecodeRegistries(root, prior1) == DecodeRegistries(root, prior2)
    ensures DecodeRegistries(root, prior1).Ok? ==>
      var ss := DecodeRegistries(root, prior1).value;
      ss.styles == prior1.styles && ss.styleNameMap == prior1.styleNameMap &&
      ss.formats == prior1.formats && ss.formatStyles == prior1.formatStyles
  {
  }

  /** The style stage adds styles and names, and keeps the formats. */
  lemma NamedStylesStage(root: Node, ss: Stylesheet, catalog: BuiltinCatalog)
    requires DecodeNamedStyles(root, ss, catalog).Ok?
    ensures var after := DecodeNamedStyles(root, ss, catalog).value;
      ss.styles <= after.styles && after.formats == ss.formats && after.formatStyles == ss.formatStyles &&
      forall k :: k in ss.styleNameMap ==> k in after.styleNameMap
  {
  }

  /** The format stage adds as many style names as formats, and keeps the styles. */
  lemma CellFormatsStage(root: Node, ss: Stylesheet, catalog: BuiltinCatalog)
    requires DecodeCellFormats(root, ss, catalog).Ok?
    ensures var after := DecodeCellFormats(root, ss, catalog).value;
      after.styles == ss.styles && after.styleNameMap == ss.styleNameMap &&
      ss.formats <= after.formats && ss.formatStyles <= after.formatStyles &&
      |after.formats| - |ss.formats| == |after.formatStyles| - |ss.formatStyles|
  {
  }

  /** Reading a part never depends on the registries read before: they are replaced. */
  lemma RegistriesAreReplaced(xml: Node, prior1: Stylesheet, prior2: Stylesheet, catalog: BuiltinCatalog)
    requires prior1.styles == prior2.styles && prior1.styleNameMap == prior2.styleNameMap
    requires prior1.formats == prior2.formats && prior1.formatStyles == prior2.formatStyles
    ensures DecodeStylesheet(xml, prior1, catalog) == DecodeStylesheet(xml, prior2, catalog)
  {
    RegistriesStage(Child(xml, "styleSheet"), prior1, prior2);
  }

  /** Styles, formats and their names are appended to what was there before. */
  lemma StylesAndFormatsAppend(xml: Node, prior: Stylesheet, catalog: BuiltinCatalog)
    requires DecodeStylesheet(xml, prior, catalog).Ok?
    ensures var ss := DecodeStylesheet(xml, prior, catalog).value;
      prior.styles <= ss.styles && prior.formats <= ss.formats && prior.formatStyles <= ss.formatStyles &&
      |ss.formats| - |prior.formats| == |ss.formatStyles| - |prior.formatStyles| &&
      forall k :: k in prior.styleNameMap ==> k in ss.styleNameMap
  {
    var root := Child(xml, "styleSheet");
    RegistriesStage(root, prior, prior);
    var registries := DecodeRegistries(root, prior).value;
    NamedStylesStage(root, registries, catalog);
    var styled := DecodeNamedStyles(root, registries, catalog).value;
    CellFormatsStage(root, styled, catalog);
  }
}
