/**
 * The per-facet readers of the styles part: one element in, one value (or a failure) out.
 * These are the source's pure readers (`read_color`, `read_font`, `read_fill`, `read_side`,
 * `read_border`, `read_alignment`, `read_protection`).
 */
module FacetReader {
  import opened Wrappers
  import opened Markup
  import opened Text
  import opened Enums
  import opened Values

  /** `xml_attribute::as_double`; the number is carried as its text. */
  function AsDouble(s: string): FloatText {
    FloatText(s)
  }

  /** `read_protection`: both flags go through `is_true`, so absent means false. */
  function ReadProtection(n: Node): Protection {
    Protection(IsTrue(Attr(n, "locked")), IsTrue(Attr(n, "hidden")))
  }

  /** `read_alignment`: wrap and shrink through `is_true`; the keywords only when present. */
  function ReadAlignment(n: Node): Result<Alignment> {
    var wrap := IsTrue(Attr(n, "wrapText"));
    var shrink := IsTrue(Attr(n, "shrinkToFit"));
    var vertical :- if HasAttr(n, "vertical") then
        var v :- VerticalFromString(Attr(n, "vertical")); Ok(Some(v))
      else Ok(None);
    var horizontal :- if HasAttr(n, "horizontal") then
        var h :- HorizontalFromString(Attr(n, "horizontal")); Ok(Some(h))
      else Ok(None);
    Ok(Alignment(vertical, horizontal, wrap, shrink))
  }

  /**
   * `read_color`: an `auto` attribute (whatever its value) gives the default colour at once;
   * otherwise `rgb` wins over `theme`, which wins over `indexed`, and `tint` is applied last.
   */
  function ReadColor(n: Node): Result<Color> {
    if HasAttr(n, "auto") then Ok(DefaultColor)
    else
      var kind :- if HasAttr(n, "rgb") then Ok(Rgb(Attr(n, "rgb")))
        else if HasAttr(n, "theme") then
          var i :- ParseSize(Attr(n, "theme")); Ok(Theme(i))
        else if HasAttr(n, "indexed") then
          var i :- ParseSize(Attr(n, "indexed")); Ok(Indexed(i))
        else Ok(DefaultColor.kind);
      var tint := if HasAttr(n, "tint") then Some(AsDouble(Attr(n, "tint"))) else DefaultColor.tint;
      Ok(Color(kind, tint))
  }

  /** The colour in child `tag` of `n`, when there is such a child. */
  function ReadOptionalColor(n: Node, tag: string): Result<Option<Color>> {
    if HasChild(n, tag) then
      var c :- ReadColor(Child(n, tag)); Ok(Some(c))
    else Ok(None)
  }

  /** A `b`/`i`/`strike` child: its `val` through `is_true`, or true when it has no `val`. */
  function ReadFlag(n: Node, tag: string, default: bool): bool {
    if HasChild(n, tag) then
      if HasAttr(Child(n, tag), "val") then IsTrue(Attr(Child(n, tag), "val")) else true
    else default
  }

  /** `read_font`: size and name always; every other facet only when its child is present. */
  function ReadFont(n: Node): Result<Font> {
    var size :- ParseSize(Attr(Child(n, "sz"), "val"));
    var name := Attr(Child(n, "name"), "val");
    var color :- if HasChild(n, "color") then ReadColor(Child(n, "color")) else Ok(DefaultFont.color);
    var family :- if HasChild(n, "family") then
        var f :- ParseSize(Attr(Child(n, "family"), "val")); Ok(Some(f))
      else Ok(DefaultFont.family);
    var scheme := if HasChild(n, "scheme") then Some(Attr(Child(n, "scheme"), "val")) else DefaultFont.scheme;
    var bold := ReadFlag(n, "b", DefaultFont.bold);
    var strikethrough := ReadFlag(n, "strike", DefaultFont.strikethrough);
    var italic := ReadFlag(n, "i", DefaultFont.italic);
    var underline :- if HasChild(n, "u") then
        if HasAttr(Child(n, "u"), "val") then UnderlineFromString(Attr(Child(n, "u"), "val"))
        else Ok(UnderlineStyle.Single)
      else Ok(DefaultFont.underline);
    Ok(Font(size, name, family, scheme, bold, italic, strikethrough, underline, color))
  }

  /** One `stop` of a gradient: its position and the colour in its `color` child. */
  function ReadStop(n: Node): Result<GradientStop> {
    var color :- ReadColor(Child(n, "color"));
    Ok(GradientStop(AsDouble(Attr(n, "position")), color))
  }

  /**
   * `read_fill`: a `patternFill` child wins over a `gradientFill` child. An empty pattern type
   * gives the none pattern without colours; a gradient's type is read from its `type` attribute
   * (linear when absent), its degree and margins are not read, and its stops are added in order.
   */
  function ReadFill(n: Node): Result<Fill> {
    if HasChild(n, "patternFill") then ReadPatternFill(Child(n, "patternFill"))
    else if HasChild(n, "gradientFill") then ReadGradientFill(Child(n, "gradientFill"))
    else Ok(DefaultFill)
  }

  /** The `patternFill` branch of `read_fill`. */
  function ReadPatternFill(p: Node): Result<Fill> {
    var t := Attr(p, "patternType");
    if t != "" then
      var patternType :- PatternFromString(t);
      var background :- ReadOptionalColor(p, "bgColor");
      var foreground :- ReadOptionalColor(p, "fgColor");
      Ok(Pattern(PatternFill(patternType, foreground, background)))
    else Ok(PatternOf(NoPattern))
  }

  /** The `gradientFill` branch of `read_fill`. */
  function ReadGradientFill(g: Node): Result<Fill> {
    var t := Attr(g, "type");
    var gradientType :- if t != "" then GradientFromString(t) else Ok(Linear);
    var stops :- MapNodes(ChildrenNamed(g.children, "stop"), ReadStop);
    Ok(Gradient(GradientFill(gradientType, Zero, Zero, Zero, Zero, Zero, stops)))
  }

  /** `read_side`: the line style when the `style` attribute is present, the colour when its child is. */
  function ReadSide(n: Node): Result<Side> {
    var style :- if HasAttr(n, "style") then
        var s :- BorderFromString(Attr(n, "style")); Ok(Some(s))
      else Ok(None);
    var color :- ReadOptionalColor(n, "color");
    Ok(Side(style, color))
  }

  /** No side kind occurs twice in `names`. */
  predicate DistinctKinds(names: seq<(SideKind, string)>) {
    forall i, j :: 0 <= i < j < |names| ==> names[i].0 != names[j].0
  }

  /** The loop of `read_border` over `names`: each side whose element is present is read and set. */
  function ReadSides(n: Node, names: seq<(SideKind, string)>): Result<Border> {
    if names == [] then Ok(EmptyBorder)
    else
      var b :- ReadSides(n, names[..|names| - 1]);
      var kind := names[|names| - 1].0;
      var tag := names[|names| - 1].1;
      if HasChild(n, tag) then
        var s :- ReadSide(Child(n, tag));
        Ok(Border(b.sides[kind := s]))
      else Ok(b)
  }

  /**
   * With distinct side kinds, the border read has exactly the sides whose element is present,
   * each read from that element, and no others.
   */
  lemma {:induction false} ReadSidesContents(n: Node, names: seq<(SideKind, string)>)
    requires DistinctKinds(names)
    requires ReadSides(n, names).Ok?
    ensures var b := ReadSides(n, names).value;
      forall i :: 0 <= i < |names| ==>
        (names[i].0 in b.sides <==> HasChild(n, names[i].1)) &&
        (HasChild(n, names[i].1) ==> ReadSide(Child(n, names[i].1)) == Ok(b.sides[names[i].0]))
    ensures forall k :: k in ReadSides(n, names).value.sides ==> exists i :: 0 <= i < |names| && names[i].0 == k
  {
    if names != [] {
      var init := names[..|names| - 1];
      assert DistinctKinds(init);
      ReadSidesContents(n, init);
      var b := ReadSides(n, init).value;
      var last := names[|names| - 1];
      var sides := ReadSides(n, names).value.sides;
      assert sides == if HasChild(n, last.1) then b.sides[last.0 := ReadSide(Child(n, last.1)).value] else b.sides;
      forall i | 0 <= i < |names|
        ensures (names[i].0 in sides <==> HasChild(n, names[i].1)) &&
          (HasChild(n, names[i].1) ==> ReadSide(Child(n, names[i].1)) == Ok(sides[names[i].0]))
      {
        if i < |names| - 1 {
          assert names[i] == init[i] && names[i].0 != last.0;
        }
      }
      forall k | k in ReadSides(n, names).value.sides
        ensures exists i :: 0 <= i < |names| && names[i].0 == k
      {
        if k in b.sides {
          var i :| 0 <= i < |init| && init[i].0 == k;
          assert names[i].0 == k;
        } else {
          assert names[|names| - 1].0 == k;
        }
      }
    }
  }

  /** `read_border`: the sides of `get_side_names()`, each read when its element is present. */
  function ReadBorder(n: Node): Result<Border> {
    ReadSides(n, SideNames)
  }

  /** `n` with attribute `key` set to `value`, whether or not it was there. */
  function SetAttr(n: Node, key: string, value: string): Node {
    n.(attributes := n.attributes[key := value])
  }

  /** An `auto` attribute decides the colour: no other attribute changes what is read. */
  lemma AutoColorIgnoresOthers(n: Node, key: string, value: string)
    requires HasAttr(n, "auto") && key != "auto"
    ensures ReadColor(n) == Ok(DefaultColor)
    ensures ReadColor(SetAttr(n, key, value)) == ReadColor(n)
  {
  }

  /** With an `rgb` attribute (and no `auto`), `theme` and `indexed` do not matter. */
  lemma RgbColorIgnoresNumbers(n: Node, key: string, value: string)
    requires !HasAttr(n, "auto") && HasAttr(n, "rgb")
    requires key == "theme" || key == "indexed"
    ensures ReadColor(n).Ok? && ReadColor(n).value.kind == Rgb(Attr(n, "rgb"))
    ensures ReadColor(SetAttr(n, key, value)) == ReadColor(n)
  {
  }

  /** With a `theme` attribute (and no `auto` or `rgb`), `indexed` does not matter. */
  lemma ThemeColorIgnoresIndexed(n: Node, value: string)
    requires !HasAttr(n, "auto") && !HasAttr(n, "rgb") && HasAttr(n, "theme")
    ensures ReadColor(SetAttr(n, "indexed", value)) == ReadColor(n)
    ensures ReadColor(n).Ok? <==> ParseSize(Attr(n, "theme")).Ok?
    ensures ReadColor(n).Ok? ==> ReadColor(n).value.kind == Theme(ParseSize(Attr(n, "theme")).value)
  {
  }

  /** Unless `auto` is present, the tint is the `tint` attribute, applied whatever the kind. */
  lemma ColorTint(n: Node)
    requires !HasAttr(n, "auto") && ReadColor(n).Ok?
    ensures ReadColor(n).value.tint == if HasAttr(n, "tint") then Some(FloatText(Attr(n, "tint"))) else None
  {
  }

  /** An element without attributes reads as unlocked and not hidden. */
  lemma AbsentProtectionFlags(tag: string)
    ensures ReadProtection(Element(tag)) == DefaultProtection
  {
  }

  /** A `b`, `i` or `strike` child without `val` switches the flag on; with one, `is_true` decides. */
  lemma FlagValue(n: Node, tag: string, default: bool)
    requires HasChild(n, tag)
    ensures ReadFlag(n, tag, default) <==> !HasAttr(Child(n, tag), "val") || Attr(Child(n, tag), "val") in {"1", "true"}
  {
  }
}
