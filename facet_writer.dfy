/**
 * The per-facet writers: each takes a value and the element the source hands it (or creates
 * one, as the loop bodies of `write_fonts`, `write_fills` and `write_borders` do) and returns
 * that element with the attributes and children appended.
 */
module FacetWriter {
  import opened Wrappers
  import opened Markup
  import opened Text
  import opened Enums
  import opened Values

  /**
   * `color.get_rgb().get_hex_string()` of a colour. The rgb component of a colour that is not
   * an rgb colour is not part of this model; it is written as the empty string.
   */
  function RgbHex(c: Color): string {
    if c.kind.Rgb? then c.kind.hex else ""
  }

  /** `write_color`: theme and indexed colours by number, every other kind as rgb; never `auto` or `tint`. */
  function WriteColor(c: Color, n: Node): (r: Node)
    ensures r.name == n.name && r.children == n.children
  {
    match c.kind
    case Theme(i) => WithAttr(n, "theme", NatToString(i))
    case Indexed(i) => WithAttr(n, "indexed", NatToString(i))
    case _ => WithAttr(n, "rgb", RgbHex(c))
  }

  /** A child element carrying a single `val` attribute. */
  function ValElement(tag: string, val: string): (r: Node)
    ensures r.name == tag && r.children == [] && HasAttr(r, "val") && Attr(r, "val") == val
  {
    WithAttr(Element(tag), "val", val)
  }

  /**
   * The children of a `font` element, in the order the loop body of `write_fonts` appends
   * them: the flags that are set, then size, colour and name always, then family and scheme
   * when the font has them.
   */
  function FontSlots(f: Font): seq<Slot> {
    [ Slot(f.bold, ValElement("b", "1")),
      Slot(f.italic, ValElement("i", "1")),
      Slot(IsUnderlined(f), ValElement("u", UnderlineToString(f.underline))),
      Slot(f.strikethrough, ValElement("strike", "1")),
      Slot(true, ValElement("sz", NatToString(f.size))),
      Slot(true, WriteColor(f.color, Element("color"))),
      Slot(true, ValElement("name", f.name)),
      Slot(f.family.Some?, ValElement("family", NatToString(f.family.GetOr(0)))),
      Slot(f.scheme.Some?, ValElement("scheme", f.scheme.GetOr(""))) ]
  }

  /** The loop body of `write_fonts`: one `font` element. */
  function FontElement(f: Font): Node {
    Node("font", map[], Present(FontSlots(f)))
  }

  /** A colour child written only when the colour is there. */
  function ColorSlot(tag: string, c: Option<Color>): Slot {
    Slot(c.Some?, WriteColor(c.GetOr(DefaultColor), Element(tag)))
  }

  /** The `patternFill` element of a pattern fill: its type, then the colours it has. */
  function PatternFillElement(p: PatternFill): Node {
    Node("patternFill", map["patternType" := PatternToString(p.patternType)],
      Present([ColorSlot("fgColor", p.foreground), ColorSlot("bgColor", p.background)]))
  }

  /** One `stop` of a gradient: its position and its colour. */
  function StopElement(s: GradientStop): Node {
    Node("stop", map["position" := s.position.text], [WriteColor(s.color, Element("color"))])
  }

  /** A margin or degree attribute, written only when the value is not zero. */
  function WithNonZero(n: Node, key: string, v: FloatText): (r: Node)
    ensures r.name == n.name && r.children == n.children
    ensures forall k :: k != key ==> HasAttr(r, k) == HasAttr(n, k) && Attr(r, k) == Attr(n, k)
  {
    if v != Zero then WithAttr(n, key, v.text) else n
  }

  /**
   * The `gradientFill` element before its stops: the type under the attribute `gradientType`,
   * then the non-zero degree and margins.
   */
  function GradientHeader(g: GradientFill): (r: Node)
    ensures r.name == "gradientFill" && r.children == []
    ensures Attr(r, "gradientType") == GradientToString(g.gradientType) && !HasAttr(r, "type")
  {
    var e0 := WithAttr(Element("gradientFill"), "gradientType", GradientToString(g.gradientType));
    var e1 := WithNonZero(e0, "degree", g.degree);
    var e2 := WithNonZero(e1, "left", g.left);
    var e3 := WithNonZero(e2, "right", g.right);
    var e4 := WithNonZero(e3, "top", g.top);
    WithNonZero(e4, "bottom", g.bottom)
  }

  /** The `gradientFill` element: the header and one `stop` child per stop. */
  function GradientFillElement(g: GradientFill): Node {
    AppendChildren(GradientHeader(g), Each(g.stops, StopElement))
  }

  /** The loop body of `write_fills`: one `fill` element. */
  function FillElement(f: Fill): Node {
    match f
    case Pattern(p) => Node("fill", map[], [PatternFillElement(p)])
    case Gradient(g) => Node("fill", map[], [GradientFillElement(g)])
  }

  /** One side of a border: the style when it has one, the colour when it has one. */
  function SideElement(tag: string, s: Side): Node {
    Node(tag, if s.style.Some? then map["style" := BorderToString(s.style.value)] else map[],
      Present([ColorSlot("color", s.color)]))
  }

  /** The side of `b` of the given kind, or a side with nothing set. */
  function SideOf(b: Border, kind: SideKind): Side {
    if kind in b.sides then b.sides[kind] else Side(None, None)
  }

  /** The side loop of `write_borders` over `names`: a child for every side the border has. */
  function SideSlots(b: Border, names: seq<(SideKind, string)>): (r: seq<Slot>)
    ensures |r| == |names|
    ensures forall i :: 0 <= i < |names| ==>
      r[i] == Slot(names[i].0 in b.sides, SideElement(names[i].1, SideOf(b, names[i].0)))
  {
    seq(|names|, i requires 0 <= i < |names| =>
      Slot(names[i].0 in b.sides, SideElement(names[i].1, SideOf(b, names[i].0))))
  }

  /** The loop body of `write_borders`: one `border` element. */
  function BorderElement(b: Border): Node {
    Node("border", map[], Present(SideSlots(b, SideNames)))
  }

  /** `write_alignment`: the keywords that are set, and wrap/shrink as "1" only when true. */
  function WriteAlignment(a: Alignment, n: Node): Node {
    var n1 := if a.vertical.Some? then WithAttr(n, "vertical", VerticalToString(a.vertical.value)) else n;
    var n2 := if a.horizontal.Some? then WithAttr(n1, "horizontal", HorizontalToString(a.horizontal.value)) else n1;
    var n3 := if a.wrapText then WithAttr(n2, "wrapText", "1") else n2;
    if a.shrinkToFit then WithAttr(n3, "shrinkToFit", "1") else n3
  }

  /** `write_protection`: both flags, always, as "1" or "0". */
  function WriteProtection(p: Protection, n: Node): Node {
    WithAttr(WithAttr(n, "locked", BoolText(p.locked)), "hidden", BoolText(p.hidden))
  }
}
