/**
 * The keyword tables of the styles part: each enum's string-to-value table, the lookup that
 * reads it, and the value-to-string direction, which the source builds by inverting the table.
 * Every lookup but the underline one lower-cases its argument first.
 */
module Enums {
  import opened Wrappers
  import opened Text

  /** A keyword with no upper-case letter, so lower-casing leaves it as it is. */
  predicate IsLowerCase(s: string) {
    forall i :: 0 <= i < |s| ==> !('A' <= s[i] <= 'Z')
  }

  lemma LowerOfLowerCase(s: string)
    requires IsLowerCase(s)
    ensures Lower(s) == s
  {
  }

  /** `xlnt::font::underline_style` */
  datatype UnderlineStyle = Double | DoubleAccounting | NoUnderline | Single | SingleAccounting

  /** The keyword table of `font::underline_style`, as the serializer spells each keyword. */
  const UnderlineTable: map<string, UnderlineStyle> := map[
    "double" := UnderlineStyle.Double,
    "doubleAccounting" := UnderlineStyle.DoubleAccounting,
    "none" := UnderlineStyle.NoUnderline,
    "single" := UnderlineStyle.Single,
    "singleAccounting" := UnderlineStyle.SingleAccounting
  ]

  /** `underline_style_from_string`: an exact, case-sensitive lookup; an unknown keyword fails. */
  function UnderlineFromString(s: string): (r: Result<UnderlineStyle>)
    ensures r.Ok? <==> s in UnderlineTable
    ensures r.Ok? ==> UnderlineTable[s] == r.value
  {
    if s in UnderlineTable then Ok(UnderlineTable[s]) else Err(UnknownEnumValue(s))
  }

  /** The to-string direction: the table key that maps to `e`. */
  function UnderlineToString(e: UnderlineStyle): (s: string)
    ensures s in UnderlineTable && UnderlineTable[s] == e
  {
    match e
    case Double => "double"
    case DoubleAccounting => "doubleAccounting"
    case NoUnderline => "none"
    case Single => "single"
    case SingleAccounting => "singleAccounting"
  }

  /** The table is one-to-one, so inverting it loses no keyword: to-string undoes the table. */
  lemma UnderlineTableInverted(key: string)
    requires key in UnderlineTable
    ensures UnderlineToString(UnderlineTable[key]) == key
  {
  }

  /** Writing a value and reading the keyword back gives the value. */
  lemma UnderlineRoundTrip(e: UnderlineStyle)
    ensures UnderlineFromString(UnderlineToString(e)) == Ok(e)
  {
  }

  /** `xlnt::pattern_fill::type` */
  datatype PatternType = DarkDown | DarkGray | DarkGrid | DarkHorizontal | DarkTrellis | DarkUp | DarkVertical | Gray0625 | Gray125 | LightDown | LightGray | LightGrid | LightHorizontal | LightTrellis | LightUp | LightVertical | MediumGray | NoPattern | Solid

  /** The keyword table of `pattern_fill::type`, as the serializer spells each keyword. */
  const PatternTable: map<string, PatternType> := map[
    "darkdown" := PatternType.DarkDown,
    "darkgray" := PatternType.DarkGray,
    "darkgrid" := PatternType.DarkGrid,
    "darkhorizontal" := PatternType.DarkHorizontal,
    "darktrellis" := PatternType.DarkTrellis,
    "darkup" := PatternType.DarkUp,
    "darkvertical" := PatternType.DarkVertical,
    "gray0625" := PatternType.Gray0625,
    "gray125" := PatternType.Gray125,
    "lightdown" := PatternType.LightDown,
    "lightgray" := PatternType.LightGray,
    "lightgrid" := PatternType.LightGrid,
    "lighthorizontal" := PatternType.LightHorizontal,
    "lighttrellis" := PatternType.LightTrellis,
    "lightup" := PatternType.LightUp,
    "lightvertical" := PatternType.LightVertical,
    "mediumgray" := PatternType.MediumGray,
    "none" := PatternType.NoPattern,
    "solid" := PatternType.Solid
  ]

  /** `type`'s from-string: lower-case the keyword, then look it up; an unknown one fails. */
  function PatternFromString(s: string): (r: Result<PatternType>)
    ensures r.Ok? <==> Lower(s) in PatternTable
    ensures r.Ok? ==> PatternTable[Lower(s)] == r.value
  {
    var key := Lower(s);
    if key in PatternTable then Ok(PatternTable[key]) else Err(UnknownEnumValue(key))
  }

  /** The to-string direction: the table key that maps to `e`. */
  function PatternToString(e: PatternType): (s: string)
    ensures s in PatternTable && PatternTable[s] == e && s != ""
  {
    match e
    case DarkDown => "darkdown"
    case DarkGray => "darkgray"
    case DarkGrid => "darkgrid"
    case DarkHorizontal => "darkhorizontal"
    case DarkTrellis => "darktrellis"
    case DarkUp => "darkup"
    case DarkVertical => "darkvertical"
    case Gray0625 => "gray0625"
    case Gray125 => "gray125"
    case LightDown => "lightdown"
    case LightGray => "lightgray"
    case LightGrid => "lightgrid"
    case LightHorizontal => "lighthorizontal"
    case LightTrellis => "lighttrellis"
    case LightUp => "lightup"
    case LightVertical => "lightvertical"
    case MediumGray => "mediumgray"
    case NoPattern => "none"
    case Solid => "solid"
  }

  /** Every keyword of the pattern table is written in lower case. */
  lemma PatternKeywordLower(e: PatternType)
    ensures IsLowerCase(PatternToString(e))
  {
  }

  /** The table is one-to-one, so inverting it loses no keyword: to-string undoes the table. */
  lemma PatternTableInverted(key: string)
    requires key in PatternTable
    ensures PatternToString(PatternTable[key]) == key
  {
  }

  /** Writing a value and reading the keyword back gives the value. */
  lemma PatternRoundTrip(e: PatternType)
    ensures PatternFromString(PatternToString(e)) == Ok(e)
  {
    PatternKeywordLower(e);
    LowerOfLowerCase(PatternToString(e));
  }

  /** The lookup ignores case: a keyword and its lower-cased form read the same. */
  lemma PatternIgnoresCase(s: string)
    ensures PatternFromString(s) == PatternFromString(Lower(s))
  {
    LowerIdempotent(s);
  }

  /** `xlnt::gradient_fill::type` */
  datatype GradientType = Linear | Path

  /** The keyword table of `gradient_fill::type`, as the serializer spells each keyword. */
  const GradientTable: map<string, GradientType> := map[
    "linear" := GradientType.Linear,
    "path" := GradientType.Path
  ]

  /** `type`'s from-string: lower-case the keyword, then look it up; an unknown one fails. */
  function GradientFromString(s: string): (r: Result<GradientType>)
    ensures r.Ok? <==> Lower(s) in GradientTable
    ensures r.Ok? ==> GradientTable[Lower(s)] == r.value
  {
    var key := Lower(s);
    if key in GradientTable then Ok(GradientTable[key]) else Err(UnknownEnumValue(key))
  }

  /** The to-string direction: the table key that maps to `e`. */
  function GradientToString(e: GradientType): (s: string)
    ensures s in GradientTable && GradientTable[s] == e
    ensures IsLowerCase(s)
  {
    match e
    case Linear => "linear"
    case Path => "path"
  }

  /** The table is one-to-one, so inverting it loses no keyword: to-string undoes the table. */
  lemma GradientTableInverted(key: string)
    requires key in GradientTable
    ensures GradientToString(GradientTable[key]) == key
  {
  }

  /** Writing a value and reading the keyword back gives the value. */
  lemma GradientRoundTrip(e: GradientType)
    ensures GradientFromString(GradientToString(e)) == Ok(e)
  {
    LowerOfLowerCase(GradientToString(e));
  }

  /** The lookup ignores case: a keyword and its lower-cased form read the same. */
  lemma GradientIgnoresCase(s: string)
    ensures GradientFromString(s) == GradientFromString(Lower(s))
  {
    LowerIdempotent(s);
  }

  /** `xlnt::border_style` */
  datatype BorderStyle = DashDot | DashDotDot | Dashed | Dotted | Double | Hair | Medium | MediumDashDot | MediumDashDotDot | MediumDashed | NoBorder | SlantDashDot | Thick | Thin

  /** The keyword table of `border_style`, as the serializer spells each keyword. */
  const BorderTable: map<string, BorderStyle> := map[
    "dashdot" := BorderStyle.DashDot,
    "dashdotdot" := BorderStyle.DashDotDot,
    "dashed" := BorderStyle.Dashed,
    "dotted" := BorderStyle.Dotted,
    "double" := BorderStyle.Double,
    "hair" := BorderStyle.Hair,
    "medium" := BorderStyle.Medium,
    "mediumdashdot" := BorderStyle.MediumDashDot,
    "mediumdashdotdot" := BorderStyle.MediumDashDotDot,
    "mediumdashed" := BorderStyle.MediumDashed,
    "none" := BorderStyle.NoBorder,
    "slantdashdot" := BorderStyle.SlantDashDot,
    "thick" := BorderStyle.Thick,
    "thin" := BorderStyle.Thin
  ]

  /** `border_style`'s from-string: lower-case the keyword, then look it up; an unknown one fails. */
  function BorderFromString(s: string): (r: Result<BorderStyle>)
    ensures r.Ok? <==> Lower(s) in BorderTable
    ensures r.Ok? ==> BorderTable[Lower(s)] == r.value
  {
    var key := Lower(s);
    if key in BorderTable then Ok(BorderTable[key]) else Err(UnknownEnumValue(key))
  }

  /** The to-string direction: the table key that maps to `e`. */
  function BorderToString(e: BorderStyle): (s: string)
    ensures s in BorderTable && BorderTable[s] == e
    ensures IsLowerCase(s)
  {
    match e
    case DashDot => "dashdot"
    case DashDotDot => "dashdotdot"
    case Dashed => "dashed"
    case Dotted => "dotted"
    case Double => "double"
    case Hair => "hair"
    case Medium => "medium"
    case MediumDashDot => "mediumdashdot"
    case MediumDashDotDot => "mediumdashdotdot"
    case MediumDashed => "mediumdashed"
    case NoBorder => "none"
    case SlantDashDot => "slantdashdot"
    case Thick => "thick"
    case Thin => "thin"
  }

  /** The table is one-to-one, so inverting it loses no keyword: to-string undoes the table. */
  lemma BorderTableInverted(key: string)
    requires key in BorderTable
    ensures BorderToString(BorderTable[key]) == key
  {
  }

  /** Writing a value and reading the keyword back gives the value. */
  lemma BorderRoundTrip(e: BorderStyle)
    ensures BorderFromString(BorderToString(e)) == Ok(e)
  {
    LowerOfLowerCase(BorderToString(e));
  }

  /** The lookup ignores case: a keyword and its lower-cased form read the same. */
  lemma BorderIgnoresCase(s: string)
    ensures BorderFromString(s) == BorderFromString(Lower(s))
  {
    LowerIdempotent(s);
  }

  /** `xlnt::vertical_alignment` */
  datatype VerticalAlignment = Bottom | Center | Justify | NoVertical | Top

  /** The keyword table of `vertical_alignment`, as the serializer spells each keyword. */
  const VerticalTable: map<string, VerticalAlignment> := map[
    "bottom" := VerticalAlignment.Bottom,
    "center" := VerticalAlignment.Center,
    "justify" := VerticalAlignment.Justify,
    "none" := VerticalAlignment.NoVertical,
    "top" := VerticalAlignment.Top
  ]

  /** `vertical_alignment`'s from-string: lower-case the keyword, then look it up; an unknown one fails. */
  function VerticalFromString(s: string): (r: Result<VerticalAlignment>)
    ensures r.Ok? <==> Lower(s) in VerticalTable
    ensures r.Ok? ==> VerticalTable[Lower(s)] == r.value
  {
    var key := Lower(s);
    if key in VerticalTable then Ok(VerticalTable[key]) else Err(UnknownEnumValue(key))
  }

  /** The to-string direction: the table key that maps to `e`. */
  function VerticalToString(e: VerticalAlignment): (s: string)
    ensures s in VerticalTable && VerticalTable[s] == e
    ensures IsLowerCase(s)
  {
    match e
    case Bottom => "bottom"
    case Center => "center"
    case Justify => "justify"
    case NoVertical => "none"
    case Top => "top"
  }

  /** The table is one-to-one, so inverting it loses no keyword: to-string undoes the table. */
  lemma VerticalTableInverted(key: string)
    requires key in VerticalTable
    ensures VerticalToString(VerticalTable[key]) == key
  {
  }

  /** Writing a value and reading the keyword back gives the value. */
  lemma VerticalRoundTrip(e: VerticalAlignment)
    ensures VerticalFromString(VerticalToString(e)) == Ok(e)
  {
    LowerOfLowerCase(VerticalToString(e));
  }

  /** The lookup ignores case: a keyword and its lower-cased form read the same. */
  lemma VerticalIgnoresCase(s: string)
    ensures VerticalFromString(s) == VerticalFromString(Lower(s))
  {
    LowerIdempotent(s);
  }

  /** `xlnt::horizontal_alignment` */
  datatype HorizontalAlignment = Center | CenterContinuous | General | Justify | Left | NoHorizontal | Right

  /** The keyword table of `horizontal_alignment`, as the serializer spells each keyword. */
  const HorizontalTable: map<string, HorizontalAlignment> := map[
    "center" := HorizontalAlignment.Center,
    "center-continous" := HorizontalAlignment.CenterContinuous,
    "general" := HorizontalAlignment.General,
    "justify" := HorizontalAlignment.Justify,
    "left" := HorizontalAlignment.Left,
    "none" := HorizontalAlignment.NoHorizontal,
    "right" := HorizontalAlignment.Right
  ]

  /** `horizontal_alignment`'s from-string: lower-case the keyword, then look it up; an unknown one fails. */
  function HorizontalFromString(s: string): (r: Result<HorizontalAlignment>)
    ensures r.Ok? <==> Lower(s) in HorizontalTable
    ensures r.Ok? ==> HorizontalTable[Lower(s)] == r.value
  {
    var key := Lower(s);
    if key in HorizontalTable then Ok(HorizontalTable[key]) else Err(UnknownEnumValue(key))
  }

  /** The to-string direction: the table key that maps to `e`. */
  function HorizontalToString(e: HorizontalAlignment): (s: string)
    ensures s in HorizontalTable && HorizontalTable[s] == e
    ensures IsLowerCase(s)
  {
    match e
    case Center => "center"
    case CenterContinuous => "center-continous"
    case General => "general"
    case Justify => "justify"
    case Left => "left"
    case NoHorizontal => "none"
    case Right => "right"
  }

  /** The table is one-to-one, so inverting it loses no keyword: to-string undoes the table. */
  lemma HorizontalTableInverted(key: string)
    requires key in HorizontalTable
    ensures HorizontalToString(HorizontalTable[key]) == key
  {
  }

  /** Writing a value and reading the keyword back gives the value. */
  lemma HorizontalRoundTrip(e: HorizontalAlignment)
    ensures HorizontalFromString(HorizontalToString(e)) == Ok(e)
  {
    LowerOfLowerCase(HorizontalToString(e));
  }

  /** The lookup ignores case: a keyword and its lower-cased form read the same. */
  lemma HorizontalIgnoresCase(s: string)
    ensures HorizontalFromString(s) == HorizontalFromString(Lower(s))
  {
    LowerIdempotent(s);
  }

  /** The underline lookup does not lower-case: "Single" is not a keyword, though "single" is. */
  lemma UnderlineIsCaseSensitive()
    ensures UnderlineFromString("Single").Err?
    ensures UnderlineFromString("single") == Ok(UnderlineStyle.Single)
  {
  }

  /** The other lookups do: "SOLID" reads as the solid pattern. */
  lemma PatternUpperCase()
    ensures PatternFromString("SOLID") == Ok(PatternType.Solid)
  {
    assert Lower("SOLID") == "solid";
  }
}
