/**
 * What each facet keeps when it is written and read back. For every value the lemmas name
 * exactly what comes back (a "survivor"); the value round-trips when it is its own survivor.
 */
module FacetRoundTrip {
  import opened Wrappers
  import opened Markup
  import opened Text
  import opened Enums
  import opened Values
  import opened FacetReader
  import opened FacetWriter

  /** What reading back a written colour gives: never automatic, never tinted. */
  function ColorSurvivor(c: Color): Color {
    Color(if c.kind.Automatic? then Rgb(RgbHex(c)) else c.kind, None)
  }

  predicate ColorSurvives(c: Color) {
    !c.kind.Automatic? && c.tint.None?
  }

  lemma ColorRoundTrip(c: Color, tag: string)
    ensures ReadColor(WriteColor(c, Element(tag))) == Ok(ColorSurvivor(c))
    ensures ColorSurvives(c) <==> ColorSurvivor(c) == c
  {
    match c.kind
    case Theme(i) => ParseSizeOfNatToString(i);
    case Indexed(i) => ParseSizeOfNatToString(i);
    case _ =>
  }

  /** The automatic colour is written as an rgb colour, so it does not come back. */
  lemma AutomaticColorIsLost()
    ensures ReadColor(WriteColor(DefaultColor, Element("color"))) != Ok(DefaultColor)
  {
    ColorRoundTrip(DefaultColor, "color");
  }

  /** A tint is never written, so a tinted colour comes back without it. */
  lemma TintIsLost(c: Color)
    requires c.tint.Some?
    ensures ReadColor(WriteColor(c, Element("color"))).value.tint.None?
  {
    ColorRoundTrip(c, "color");
  }

  /** Protection is always written as "1"/"0" and reads back equal. */
  lemma ProtectionRoundTrip(p: Protection)
    ensures ReadProtection(WriteProtection(p, Element("protection"))) == p
  {
  }

  /** Alignment keywords come back when set, and wrap/shrink come back true exactly when they were. */
  lemma AlignmentRoundTrip(a: Alignment)
    ensures ReadAlignment(WriteAlignment(a, Element("alignment"))) == Ok(a)
  {
    if a.vertical.Some? {
      VerticalRoundTrip(a.vertical.value);
    }
    if a.horizontal.Some? {
      HorizontalRoundTrip(a.horizontal.value);
    }
  }

  function FontSurvivor(f: Font): Font {
    f.(color := ColorSurvivor(f.color))
  }

  /** The names of a font element's children, slot by slot. */
  const FontTags: seq<string> := ["b", "i", "u", "strike", "sz", "color", "name", "family", "scheme"]

  lemma FontTagsDistinct()
    ensures forall i, j :: 0 <= i < j < |FontTags| ==> FontTags[i] != FontTags[j]
  {
  }

  lemma FontSlotNames(f: Font)
    ensures |FontSlots(f)| == |FontTags|
    ensures forall k :: 0 <= k < |FontTags| ==> FontSlots(f)[k].node.name == FontTags[k]
  {
  }

  /** Every child of a font element has its own name. */
  lemma FontSlotsDistinct(f: Font)
    ensures DistinctSlots(FontSlots(f))
  {
    FontTagsDistinct();
    FontSlotNames(f);
  }

  /** Where the reader finds each facet of a written font. */
  lemma FontChildren(f: Font)
    ensures var n := FontElement(f);
      HasChild(n, "b") == f.bold && (f.bold ==> Child(n, "b") == ValElement("b", "1")) &&
      HasChild(n, "i") == f.italic && (f.italic ==> Child(n, "i") == ValElement("i", "1")) &&
      HasChild(n, "u") == IsUnderlined(f) &&
      (IsUnderlined(f) ==> Child(n, "u") == ValElement("u", UnderlineToString(f.underline))) &&
      HasChild(n, "strike") == f.strikethrough &&
      (f.strikethrough ==> Child(n, "strike") == ValElement("strike", "1")) &&
      Child(n, "sz") == ValElement("sz", NatToString(f.size)) &&
      HasChild(n, "color") && Child(n, "color") == WriteColor(f.color, Element("color")) &&
      Child(n, "name") == ValElement("name", f.name) &&
      HasChild(n, "family") == f.family.Some? &&
      (f.family.Some? ==> Child(n, "family") == ValElement("family", NatToString(f.family.value))) &&
      HasChild(n, "scheme") == f.scheme.Some? &&
      (f.scheme.Some? ==> Child(n, "scheme") == ValElement("scheme", f.scheme.value))
  {
    var slots := FontSlots(f);
    FontSlotsDistinct(f);
    SlotChild("font", map[], slots, 0);
    SlotChild("font", map[], slots, 1);
    SlotChild("font", map[], slots, 2);
    SlotChild("font", map[], slots, 3);
    SlotChild("font", map[], slots, 4);
    SlotChild("font", map[], slots, 5);
    SlotChild("font", map[], slots, 6);
    SlotChild("font", map[], slots, 7);
    SlotChild("font", map[], slots, 8);
  }

  /** A font comes back whole except for its colour, which comes back as its survivor. */
  lemma FontRoundTrip(f: Font)
    ensures ReadFont(FontElement(f)) == Ok(FontSurvivor(f))
  {
    FontChildren(f);
    ParseSizeOfNatToString(f.size);
    if f.family.Some? {
      ParseSizeOfNatToString(f.family.value);
    }
    if IsUnderlined(f) {
      UnderlineRoundTrip(f.underline);
    }
    ColorRoundTrip(f.color, "color");
  }

  function OptionalColorSurvivor(c: Option<Color>): Option<Color> {
    if c.Some? then Some(ColorSurvivor(c.value)) else None
  }

  function StopSurvivor(s: GradientStop): GradientStop {
    s.(color := ColorSurvivor(s.color))
  }

  /**
   * What a fill keeps: a pattern fill everything but its colours' automatic kind and tint; a
   * gradient its stops only, because the type is written as `gradientType` but read from `type`
   * and degree and margins are never read.
   */
  function FillSurvivor(f: Fill): Fill {
    match f
    case Pattern(p) =>
      Pattern(PatternFill(p.patternType, OptionalColorSurvivor(p.foreground), OptionalColorSurvivor(p.background)))
    case Gradient(g) =>
      Gradient(GradientFill(Linear, Zero, Zero, Zero, Zero, Zero, seq(|g.stops|, i requires 0 <= i < |g.stops| => StopSurvivor(g.stops[i]))))
  }

  lemma StopRoundTrip(s: GradientStop)
    ensures ReadStop(StopElement(s)) == Ok(StopSurvivor(s))
  {
    ColorRoundTrip(s.color, "color");
  }

  /** The colours of a written `patternFill` read back as their survivors. */
  lemma PatternColorsRead(p: PatternFill)
    ensures ReadOptionalColor(PatternFillElement(p), "fgColor") == Ok(OptionalColorSurvivor(p.foreground))
    ensures ReadOptionalColor(PatternFillElement(p), "bgColor") == Ok(OptionalColorSurvivor(p.background))
  {
    var e := PatternFillElement(p);
    var slots := [ColorSlot("fgColor", p.foreground), ColorSlot("bgColor", p.background)];
    assert DistinctSlots(slots);
    SlotChild("patternFill", e.attributes, slots, 0);
    SlotChild("patternFill", e.attributes, slots, 1);
    if p.foreground.Some? {
      ColorRoundTrip(p.foreground.value, "fgColor");
    }
    if p.background.Some? {
      ColorRoundTrip(p.background.value, "bgColor");
    }
  }

  lemma PatternFillRoundTrip(p: PatternFill)
    ensures ReadFill(FillElement(Pattern(p))) == Ok(FillSurvivor(Pattern(p)))
  {
    var e := PatternFillElement(p);
    assert Child(FillElement(Pattern(p)), "patternFill") == e;
    PatternRoundTrip(p.patternType);
    assert Attr(e, "patternType") == PatternToString(p.patternType);
    PatternColorsRead(p);
  }

  lemma GradientFillRoundTrip(g: GradientFill)
    ensures ReadFill(FillElement(Gradient(g))) == Ok(FillSurvivor(Gradient(g)))
  {
    var e := GradientFillElement(g);
    var f := FillElement(Gradient(g));
    assert Child(f, "gradientFill") == e;
    assert !HasChild(f, "patternFill");
    assert !HasAttr(e, "type");
    var stops := Each(g.stops, StopElement);
    assert e.children == stops;
    ChildrenNamedAll(stops, "stop");
    var survivors := seq(|g.stops|, i requires 0 <= i < |g.stops| => StopSurvivor(g.stops[i]));
    forall i | 0 <= i < |g.stops|
      ensures ReadStop(stops[i]) == Ok(survivors[i])
    {
      StopRoundTrip(g.stops[i]);
    }
    MapNodesOk(stops, ReadStop, survivors);
    assert ReadGradientFill(e) == Ok(Gradient(GradientFill(Linear, Zero, Zero, Zero, Zero, Zero, survivors)));
  }

  /** Every fill comes back as its survivor. */
  lemma FillRoundTrip(f: Fill)
    ensures ReadFill(FillElement(f)) == Ok(FillSurvivor(f))
  {
    match f
    case Pattern(p) => PatternFillRoundTrip(p);
    case Gradient(g) => GradientFillRoundTrip(g);
  }

  /** A path gradient comes back as a linear one: the type attribute the reader looks for is never written. */
  lemma GradientTypeIsLost(g: GradientFill)
    requires g.gradientType == Path
    ensures ReadFill(FillElement(Gradient(g))).Ok?
    ensures ReadFill(FillElement(Gradient(g))).value != Gradient(g)
  {
    GradientFillRoundTrip(g);
  }

  function SideSurvivor(s: Side): Side {
    Side(s.style, OptionalColorSurvivor(s.color))
  }

  /** A side keeps its style and its colour's survivor. */
  lemma SideRoundTrip(tag: string, s: Side)
    ensures ReadSide(SideElement(tag, s)) == Ok(SideSurvivor(s))
  {
    var e := SideElement(tag, s);
    SlotChild(tag, e.attributes, [ColorSlot("color", s.color)], 0);
    if s.style.Some? {
      Enums.BorderRoundTrip(s.style.value);
    }
    if s.color.Some? {
      ColorRoundTrip(s.color.value, "color");
    }
  }

  /** What a border keeps: every side, each as its survivor. */
  function BorderSurvivor(b: Border): Border {
    Border(map k | k in b.sides :: SideSurvivor(b.sides[k]))
  }

  /** The side kinds `names` lists. */
  function Kinds(names: seq<(SideKind, string)>): set<SideKind> {
    set i | 0 <= i < |names| :: names[i].0
  }

  /** No element name occurs twice in `names`. */
  predicate DistinctTags(names: seq<(SideKind, string)>) {
    forall i, j :: 0 <= i < j < |names| ==> names[i].1 != names[j].1
  }

  /** `get_side_names()` names every side kind once, each under its own element name. */
  lemma SideNamesComplete()
    ensures DistinctTags(SideNames) && DistinctKinds(SideNames)
    ensures forall k: SideKind :: k in Kinds(SideNames)
  {
    forall k: SideKind ensures k in Kinds(SideNames) {
      var i := match k
        case StartSide => 0 case EndSide => 1 case TopSide => 2 case BottomSide => 3
        case DiagonalSide => 4 case VerticalSide => 5 case HorizontalSide => 6;
      assert SideNames[i].0 == k;
    }
  }

  /** The survivors of the sides of `b` whose kind is in `kinds`. */
  function SurvivingSides(b: Border, kinds: set<SideKind>): map<SideKind, Side> {
    map k | k in b.sides && k in kinds :: SideSurvivor(b.sides[k])
  }

  lemma SurvivingSidesAdd(b: Border, kinds: set<SideKind>, kind: SideKind)
    ensures SurvivingSides(b, kinds + {kind}) ==
      if kind in b.sides then SurvivingSides(b, kinds)[kind := SideSurvivor(b.sides[kind])]
      else SurvivingSides(b, kinds)
  {
  }

  lemma KindsPrefix(names: seq<(SideKind, string)>, m: nat)
    requires 0 < m <= |names|
    ensures Kinds(names[..m]) == Kinds(names[..m - 1]) + {names[m - 1].0}
  {
    var prefix := names[..m];
    forall x | x in Kinds(prefix) ensures x in Kinds(names[..m - 1]) + {names[m - 1].0} {
      var i :| 0 <= i < m && prefix[i].0 == x;
      if i < m - 1 {
        assert names[..m - 1][i].0 == x;
      }
    }
    forall x | x in Kinds(names[..m - 1]) ensures x in Kinds(prefix) {
      var i :| 0 <= i < m - 1 && names[..m - 1][i].0 == x;
      assert prefix[i].0 == x;
    }
    assert prefix[m - 1].0 == names[m - 1].0;
  }

  lemma SideSlotsDistinct(b: Border, names: seq<(SideKind, string)>)
    requires DistinctTags(names)
    ensures DistinctSlots(SideSlots(b, names))
  {
  }

  /**
   * Reading the first `m` sides back from a border written over `names` gives the border's
   * sides of those kinds, each as its survivor.
   */
  lemma {:induction false} ReadWrittenSides(b: Border, names: seq<(SideKind, string)>, m: nat)
    requires DistinctTags(names) && m <= |names|
    ensures ReadSides(Node("border", map[], Present(SideSlots(b, names))), names[..m]) ==
      Ok(Border(SurvivingSides(b, Kinds(names[..m]))))
  {
    var n := Node("border", map[], Present(SideSlots(b, names)));
    if m > 0 {
      ReadWrittenSides(b, names, m - 1);
      var prefix := names[..m];
      assert prefix[..m - 1] == names[..m - 1];
      assert prefix[m - 1] == names[m - 1];
      var kind := names[m - 1].0;
      var tag := names[m - 1].1;
      SideSlotsDistinct(b, names);
      SlotChild("border", map[], SideSlots(b, names), m - 1);
      KindsPrefix(names, m);
      SurvivingSidesAdd(b, Kinds(names[..m - 1]), kind);
      if kind in b.sides {
        SideRoundTrip(tag, b.sides[kind]);
      }
    } else {
      assert Kinds(names[..0]) == {};
      assert SurvivingSides(b, {}) == map[];
    }
  }

  lemma ReadWrittenBorder(b: Border, names: seq<(SideKind, string)>)
    requires DistinctTags(names)
    ensures ReadSides(Node("border", map[], Present(SideSlots(b, names))), names) ==
      Ok(Border(SurvivingSides(b, Kinds(names))))
  {
    ReadWrittenSides(b, names, |names|);
    assert names[..|names|] == names;
  }

  /** Every border comes back with the same sides, each as its survivor. */
  lemma BorderElementRoundTrip(b: Border)
    ensures ReadBorder(BorderElement(b)) == Ok(BorderSurvivor(b))
  {
    SideNamesComplete();
    ReadWrittenBorder(b, SideNames);
    assert SurvivingSides(b, Kinds(SideNames)) == BorderSurvivor(b).sides;
  }
}
