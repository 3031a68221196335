/**
 * The styling value types the serializer reads and writes (xlnt's color, font, fill, border,
 * alignment, protection, number_format, base_format, style, format) and the stylesheet registry.
 * The default-constructed values are defined outside the serializer; the constants below fix
 * the fields that the reader leaves untouched.
 */
module Values {
  import opened Wrappers
  import opened Enums

  /** A floating-point value (tint, gradient degree and margins, stop position), kept as its text. */
  datatype FloatText = FloatText(text: string)

  /** The value the writer compares gradient degree and margins against. */
  const Zero: FloatText := FloatText("0")

  datatype ColorKind = Automatic | Rgb(hex: string) | Indexed(index: nat) | Theme(index: nat)

  /** A colour: which kind it is and an optional tint. */
  datatype Color = Color(kind: ColorKind, tint: Option<FloatText>)

  /** The default-constructed colour: automatic, no tint. */
  const DefaultColor: Color := Color(Automatic, None)

  datatype Font = Font(
    size: nat,
    name: string,
    family: Option<nat>,
    scheme: Option<string>,
    bold: bool,
    italic: bool,
    strikethrough: bool,
    underline: UnderlineStyle,
    color: Color)

  /** The default-constructed font; `read_font` always overwrites its size and name. */
  const DefaultFont: Font := Font(11, "Calibri", None, None, false, false, false, NoUnderline, DefaultColor)

  /** `font::is_underline`: any underline style but none. */
  predicate IsUnderlined(f: Font) {
    f.underline != NoUnderline
  }

  datatype PatternFill = PatternFill(patternType: PatternType, foreground: Option<Color>, background: Option<Color>)

  datatype GradientStop = GradientStop(position: FloatText, color: Color)

  datatype GradientFill = GradientFill(
    gradientType: GradientType,
    degree: FloatText,
    left: FloatText,
    right: FloatText,
    top: FloatText,
    bottom: FloatText,
    stops: seq<GradientStop>)

  datatype Fill = Pattern(pattern: PatternFill) | Gradient(gradient: GradientFill)

  /** `fill::pattern(type)`: a pattern fill without colours. */
  function PatternOf(t: PatternType): Fill {
    Pattern(PatternFill(t, None, None))
  }

  /** `fill::gradient(type)`: a gradient without stops whose degree and margins are zero. */
  function GradientOf(t: GradientType): Fill {
    Gradient(GradientFill(t, Zero, Zero, Zero, Zero, Zero, []))
  }

  /** The default-constructed fill: a pattern fill of type none. */
  const DefaultFill: Fill := PatternOf(NoPattern)

  /** One side of a border (`border::border_property`): optional line style and colour. */
  datatype Side = Side(style: Option<BorderStyle>, color: Option<Color>)

  datatype SideKind = StartSide | EndSide | TopSide | BottomSide | DiagonalSide | VerticalSide | HorizontalSide

  /** A border: the sides it has. */
  datatype Border = Border(sides: map<SideKind, Side>)

  const EmptyBorder: Border := Border(map[])

  /**
   * `border::get_side_names()`: each side with the element name it is written under, in the
   * order reader and writer visit them.
   */
  const SideNames: seq<(SideKind, string)> := [
    (StartSide, "left"), (EndSide, "right"), (TopSide, "top"), (BottomSide, "bottom"),
    (DiagonalSide, "diagonal"), (VerticalSide, "vertical"), (HorizontalSide, "horizontal")]

  datatype Alignment = Alignment(
    vertical: Option<VerticalAlignment>,
    horizontal: Option<HorizontalAlignment>,
    wrapText: bool,
    shrinkToFit: bool)

  const DefaultAlignment: Alignment := Alignment(None, None, false, false)

  datatype Protection = Protection(locked: bool, hidden: bool)

  const DefaultProtection: Protection := Protection(false, false)

  datatype NumberFormat = NumberFormat(id: nat, formatCode: string)

  /** `number_format::general()` */
  const GeneralFormat: NumberFormat := NumberFormat(0, "General")

  /** The builtin number formats `number_format::from_builtin_id` knows, by id. */
  type BuiltinCatalog = map<nat, string>

  /** The facets every style and format carries, each with its "applied" flag. */
  datatype BaseFormat = BaseFormat(
    alignment: Alignment,
    border: Border,
    fill: Fill,
    font: Font,
    numberFormat: NumberFormat,
    protection: Protection,
    alignmentApplied: bool,
    borderApplied: bool,
    fillApplied: bool,
    fontApplied: bool,
    numberFormatApplied: bool,
    protectionApplied: bool)

  const DefaultBaseFormat: BaseFormat := BaseFormat(
    DefaultAlignment, EmptyBorder, DefaultFill, DefaultFont, GeneralFormat, DefaultProtection,
    false, false, false, false, false, false)

  /** A named style. */
  datatype Style = Style(format: BaseFormat, name: string, hidden: bool, builtinId: nat)

  /** A cell format; its owning style's name is kept beside it in `Stylesheet.formatStyles`. */
  datatype Format = Format(format: BaseFormat)

  /** `detail::stylesheet`: the registries, the styles and formats, and the xf index to style name map. */
  datatype Stylesheet = Stylesheet(
    borders: seq<Border>,
    fills: seq<Fill>,
    fonts: seq<Font>,
    numberFormats: seq<NumberFormat>,
    colors: seq<Color>,
    styles: seq<Style>,
    formats: seq<Format>,
    formatStyles: seq<string>,
    styleNameMap: map<nat, string>)

  const EmptyStylesheet: Stylesheet := Stylesheet([], [], [], [], [], [], [], [], map[])
}
