# xlnt styles-part codec in Dafny

This project models `xlnt::style_serializer` (`source/detail/style_serializer.cpp`). That class reads and writes the styles part of an ECMA-376 SpreadsheetML workbook, `xl/styles.xml`.

The serializer is bound to an in-memory stylesheet. `read_stylesheet` reads the part into it in a fixed order:

1. the registries: borders, fills, fonts, number formats and indexed colours;
2. the named cell styles, which pair `cellStyleXfs` with `cellStyles`;
3. the cell formats (`cellXfs`).

`write_stylesheet` emits the sections in the order the schema imposes.

How the source maps onto Dafny:

- **Markup** (`markup.dfy`). A markup element is a value `Node(name, attributes, children)`.
  - `Null` is the empty element that pugixml's null node reads as.
  - `Child` finds the first child with a given name.
  - Appending an attribute that already exists keeps the first value, because lookups find the first one.
- **Text** (`text.dfy`). `string_lower`, `is_true`/`is_false` and `string_to_size_t` become `Lower`, `IsTrue`/`IsFalse` and `ParseSize`. `ParseSize` accepts exactly the non-empty all-digit strings; anything else fails with `InvalidNumber`.
- **Enum codecs** (`enums.dfy`). Each enum table is a `map` from keyword to value.
  - Every `*_from_string` lower-cases its input except the underline codec, which does not.
  - Each `*_to_string` is proved to invert its table.
- **Facet readers** (`facet_reader.dfy`). These are pure functions from elements to values. A thrown exception becomes an `Err` of `Wrappers.Result`.
- **Facet writers** (`facet_writer.dfy`). These are functions that build the element each `write_*` helper fills in.
- **Table readers** (`table_reader.dfy`). Each reader that loops over children is a method with a `while` loop, proved against a decoding function.
  - On failure, the fonts, borders, number formats and colours readers return exactly the entries read before the failing child.
  - The fills reader returns those followed by one default fill, because the source pushes a default fill and then overwrites it with the one read.
  - The styles reader returns the styles and names of the positions before the failing one.
  - `read_styles` is two nested loops: the inner one finds the `cellStyle` whose `xfId` is the current position.
- **Table writers** (`table_writer.dfy`). Each writer that loops is a method building its element by appends, proved equal to an element function. `WriteSheet` assembles the whole `styleSheet` element.
- **Serializer** (`serializer.dfy`). `Serializer.StyleSerializer` is a class. Its `stylesheet` field is the bound stylesheet. `ReadStylesheet` updates that field step by step, as the source does.
- **Round trips** (`facet_roundtrip.dfy`, `stylesheet_roundtrip.dfy`). These state what survives writing and then reading back, and what does not:
  - **Colours.** An automatic colour is written as `rgb`. A tint is never written.
  - **Gradient type.** It is written as `gradientType` but read from `type`, so gradients come back linear.
  - **Indexed colours.** They are written by rgb value only.
  - **`GENERAL` format codes.** They come back as `General`.
  - **Protection.** `read_base_format` decides whether protection applies from an attribute named `protection`, not from the child element.
  - **Empty style names.** A cell format whose style name is empty is written without `xfId`. Reading that format back then fails.

The built-in number-format catalog (`number_format::from_builtin_id`) is a parameter `BuiltinCatalog`, a map from id to format code. An id the map lacks stands for the `runtime_error` the source catches.

`WriteStylesheet` requires at least as many format style names as cell formats. This is because `write_formats` dereferences the style-name iterator once per format, with no bound check (lines 1118-1125).

## Model

| member | source | states |
|---|---|---|
| Markup.ChildrenNamed | source/detail/style_serializer.cpp:448 | `children("numFmt")` keeps only children carrying that name |
| Markup.ChildrenNamedAppend | source/detail/style_serializer.cpp:448 | `children(name)` keeps document order: filtering a concatenation concatenates the filtered parts |
| Markup.ChildrenNamedMembers | source/detail/style_serializer.cpp:448 | `children(name)` visits every child carrying the name and no other |
| Markup.ChildrenNamedAll | source/detail/style_serializer.cpp:778 | filtering a list whose every child has the name changes nothing |
| Markup.WithAttr | source/detail/style_serializer.cpp:1057-1066 | appending an attribute makes it present; a lookup sees the first value; every other attribute keeps its presence and value |
| Markup.WithChild | source/detail/style_serializer.cpp:1208 | appending a child adds it last; `child(name)` of the result is the earlier child of that name if any, else the new one |
| Markup.WithChildIf | source/detail/style_serializer.cpp:1214-1218 | a child appended under a condition is found exactly when the condition holds and no earlier child has the name |
| Markup.WithAttrIf | source/detail/style_serializer.cpp:1068-1071 | an attribute appended under a condition is present exactly when it was or the condition holds |
| Markup.PresentFinds | source/detail/style_serializer.cpp:864-908 | among optional children with distinct names, a name is found exactly when its child was written, and it is found as that child |
| Markup.SlotChild | source/detail/style_serializer.cpp:864-908 | an element built from optional distinctly named children has each written child under its name and `Null` for each omitted one |
| Markup.PresentMissing | source/detail/style_serializer.cpp:503 | a name no optional child carries is not found among the written ones |
| Markup.SlotMissing | source/detail/style_serializer.cpp:503 | a name no optional child carries reads as the null node |
| Markup.PresentAgree | source/detail/style_serializer.cpp:1214-1256 | two slot lists that agree on which children are written, and on those children, write the same children |
| Markup.PresentSnoc | source/detail/style_serializer.cpp:1214-1256 | writing one more optional child extends the written children by that child exactly when it is present |
| Markup.AppendSlotChild | source/detail/style_serializer.cpp:1214-1218 | one conditional `append_child` step turns the children of the first k slots into those of the first k+1, leaving name and attributes alone |
| Markup.EachSnoc | source/detail/style_serializer.cpp:1173-1178 | encoding one more value appends its element |
| Markup.AppendEach | source/detail/style_serializer.cpp:1173-1178 | the `for`/`append_child` loop leaves the element with one encoded child per value, in order, and its name and attributes as they were |
| Markup.MapNodes | source/detail/style_serializer.cpp:574-577 | decoding a list succeeds exactly when every child decodes, with the values in order; a failure is the first failing child's error |
| Markup.MapNodesOk | source/detail/style_serializer.cpp:574-577 | children that each decode to the given values decode as the list of those values |
| Markup.MapNodesSnoc | source/detail/style_serializer.cpp:574-577 | decoding one more child that succeeds appends its value |
| Markup.MapNodesFirstFailure | source/detail/style_serializer.cpp:574-577 | the first child that fails decides the error of the whole list |
| Markup.DecodedPrefixAtFailure | source/detail/style_serializer.cpp:574-577 | when child i is the first to fail, the values pushed are those of the children before it |
| Markup.ReadEach | source/detail/style_serializer.cpp:574-577 | the `push_back` loop succeeds exactly when the list decodes and then appends all values; on failure it appends the values decoded before the exception |
| Text.Lower | source/detail/style_serializer.cpp:63-71 | lower-casing keeps the length and maps each character by `tolower` |
| Text.StringLower | source/detail/style_serializer.cpp:63-71 | the in-place loop leaves the lower-cased string |
| Text.LowerIdempotent | source/detail/style_serializer.cpp:63-71 | lower-casing twice is lower-casing once |
| Text.BoolTextRoundTrip | source/detail/style_serializer.cpp:73-81 | the "1"/"0" a writer emits is read back by `is_true`/`is_false` as the bool written |
| Text.NatToString | source/detail/style_serializer.cpp:1171 | `std::to_string` of a size is a non-empty string of decimal digits |
| Text.ParseSize | source/detail/style_serializer.cpp:83-90 | `string_to_size_t` succeeds exactly on non-empty all-digit text; otherwise it fails with an invalid-number error for that text |
| Text.ParseEmptyFails | source/detail/style_serializer.cpp:83-90 | a missing attribute, read as "", makes `string_to_size_t` throw |
| Text.ParseSizeOfNatToString | source/detail/style_serializer.cpp:83-90 | parsing the decimal text of n gives n back |
| Text.NatToStringInjective | source/detail/style_serializer.cpp:1102 | distinct numbers are written as distinct texts |
| Enums.UnderlineFromString | source/detail/style_serializer.cpp:134-137 | a keyword is accepted exactly when it is in the underline table, which is looked up without lower-casing; the result is its table entry |
| Enums.UnderlineToString | source/detail/style_serializer.cpp:139-142 | every underline style has a keyword that the table maps back to it |
| Enums.UnderlineTableInverted | source/detail/style_serializer.cpp:98-132 | writing the style a keyword names gives that keyword |
| Enums.UnderlineRoundTrip | source/detail/style_serializer.cpp:134-142 | reading the written keyword gives the style back |
| Enums.UnderlineIsCaseSensitive | source/detail/style_serializer.cpp:134-137 | "Single" is rejected while "single" is accepted |
| Enums.PatternFromString | source/detail/style_serializer.cpp:197-200 | a keyword is accepted exactly when its lower-cased form is in the pattern table; the result is that entry |
| Enums.PatternToString | source/detail/style_serializer.cpp:202-205 | every pattern type has a non-empty keyword the table maps back to it |
| Enums.PatternKeywordLower | source/detail/style_serializer.cpp:147-195 | pattern keywords are already lower-case |
| Enums.PatternTableInverted | source/detail/style_serializer.cpp:147-195 | writing the type a keyword names gives the keyword |
| Enums.PatternRoundTrip | source/detail/style_serializer.cpp:197-205 | reading the written keyword gives the type back |
| Enums.PatternIgnoresCase | source/detail/style_serializer.cpp:197-200 | reading a keyword does not depend on its case |
| Enums.PatternUpperCase | source/detail/style_serializer.cpp:197-200 | "SOLID" is read as solid |
| Enums.LowerOfLowerCase | source/detail/style_serializer.cpp:63-71 | lower-casing leaves a lower-case keyword unchanged |
| Enums.GradientFromString | source/detail/style_serializer.cpp:242-245 | a keyword is accepted exactly when its lower-cased form is in the gradient table; the result is that entry |
| Enums.GradientToString | source/detail/style_serializer.cpp:247-250 | every gradient type has a lower-case keyword the table maps back to it |
| Enums.GradientTableInverted | source/detail/style_serializer.cpp:209-240 | writing the type a keyword names gives the keyword |
| Enums.GradientRoundTrip | source/detail/style_serializer.cpp:242-250 | reading the written keyword gives the type back |
| Enums.GradientIgnoresCase | source/detail/style_serializer.cpp:242-245 | reading a keyword does not depend on its case |
| Enums.BorderFromString | source/detail/style_serializer.cpp:300-303 | a keyword is accepted exactly when its lower-cased form is in the border-style table; the result is that entry |
| Enums.BorderToString | source/detail/style_serializer.cpp:305-308 | every border style has a lower-case keyword the table maps back to it |
| Enums.BorderTableInverted | source/detail/style_serializer.cpp:255-298 | writing the style a keyword names gives the keyword |
| Enums.BorderRoundTrip | source/detail/style_serializer.cpp:300-308 | reading the written keyword gives the style back |
| Enums.BorderIgnoresCase | source/detail/style_serializer.cpp:300-303 | reading a keyword does not depend on its case |
| Enums.VerticalFromString | source/detail/style_serializer.cpp:349-352 | a keyword is accepted exactly when its lower-cased form is in the vertical-alignment table; the result is that entry |
| Enums.VerticalToString | source/detail/style_serializer.cpp:354-357 | every vertical alignment has a lower-case keyword the table maps back to it |
| Enums.VerticalTableInverted | source/detail/style_serializer.cpp:313-347 | writing the alignment a keyword names gives the keyword |
| Enums.VerticalRoundTrip | source/detail/style_serializer.cpp:349-357 | reading the written keyword gives the alignment back |
| Enums.VerticalIgnoresCase | source/detail/style_serializer.cpp:349-352 | reading a keyword does not depend on its case |
| Enums.HorizontalFromString | source/detail/style_serializer.cpp:400-403 | a keyword is accepted exactly when its lower-cased form is in the horizontal-alignment table; the result is that entry |
| Enums.HorizontalToString | source/detail/style_serializer.cpp:405-408 | every horizontal alignment has a lower-case keyword the table maps back to it |
| Enums.HorizontalTableInverted | source/detail/style_serializer.cpp:362-398 | writing the alignment a keyword names gives the keyword |
| Enums.HorizontalRoundTrip | source/detail/style_serializer.cpp:400-408 | reading the written keyword gives the alignment back |
| Enums.HorizontalIgnoresCase | source/detail/style_serializer.cpp:400-403 | reading a keyword does not depend on its case |
| FacetReader.AutoColorIgnoresOthers | source/detail/style_serializer.cpp:470-473 | an `auto` attribute makes the colour the default colour, whatever other attributes say |
| FacetReader.RgbColorIgnoresNumbers | source/detail/style_serializer.cpp:475-486 | without `auto`, `rgb` wins over `theme` and `indexed` |
| FacetReader.ThemeColorIgnoresIndexed | source/detail/style_serializer.cpp:479-486 | without `auto` and `rgb`, `theme` wins over `indexed`; the read fails exactly when the theme index is not a number |
| FacetReader.ColorTint | source/detail/style_serializer.cpp:488-491 | a non-automatic colour has a tint exactly when a `tint` attribute is present, and the tint is its value |
| FacetReader.AbsentProtectionFlags | source/detail/style_serializer.cpp:412-420 | an element with no `locked`/`hidden` attributes reads as the default protection |
| FacetReader.FlagValue | source/detail/style_serializer.cpp:518-528 | a present `b`/`i`/`strike` child sets the flag when it has no `val`, and otherwise exactly when `val` is "1" or "true" |
| FacetReader.ReadSidesContents | source/detail/style_serializer.cpp:684-691 | a border holds a side exactly for each side name that has a child, and that side is what the child reads as; no other side is set |
| FacetWriter.WriteColor | source/detail/style_serializer.cpp:830-852 | writing a colour keeps the element's name and children |
| FacetWriter.WithNonZero | source/detail/style_serializer.cpp:947-970 | a conditionally written gradient attribute leaves every other attribute alone |
| FacetWriter.GradientHeader | source/detail/style_serializer.cpp:943-945 | a gradient fill is written with its type under `gradientType` and never under `type` |
| FacetRoundTrip.ColorRoundTrip | source/detail/style_serializer.cpp:466-494 | a written colour reads back with its kind, except that automatic becomes rgb, and with no tint; it survives unchanged exactly when it is not automatic and has no tint (also lines 830-852) |
| FacetRoundTrip.AutomaticColorIsLost | source/detail/style_serializer.cpp:844-848 | the default automatic colour does not read back as itself |
| FacetRoundTrip.TintIsLost | source/detail/style_serializer.cpp:830-852 | a tinted colour reads back with no tint |
| FacetRoundTrip.ProtectionRoundTrip | source/detail/style_serializer.cpp:412-420 | protection reads back unchanged (also lines 1047-1053) |
| FacetRoundTrip.AlignmentRoundTrip | source/detail/style_serializer.cpp:422-442 | alignment reads back unchanged (also lines 1020-1045) |
| FacetRoundTrip.FontTagsDistinct | source/detail/style_serializer.cpp:864-908 | the font children have distinct names |
| FacetRoundTrip.FontSlotNames | source/detail/style_serializer.cpp:864-908 | the font writer's optional children carry the font tags, in order |
| FacetRoundTrip.FontSlotsDistinct | source/detail/style_serializer.cpp:864-908 | the font writer's children are distinctly named |
| FacetRoundTrip.FontChildren | source/detail/style_serializer.cpp:864-908 | a written font has `b`, `i`, `strike`, `u`, `family` and `scheme` exactly when set, with their values, and always `sz`, `color` and `name` |
| FacetRoundTrip.FontRoundTrip | source/detail/style_serializer.cpp:496-568 | a written font reads back unchanged but for its colour's survivor (also lines 860-908) |
| FacetRoundTrip.StopRoundTrip | source/detail/style_serializer.cpp:640-646 | a gradient stop reads back with its position and its colour's survivor (also lines 972-977) |
| FacetRoundTrip.PatternColorsRead | source/detail/style_serializer.cpp:611-619 | the foreground and background colours of a pattern fill read back, when present, as their survivors (also lines 929-937) |
| FacetRoundTrip.PatternFillRoundTrip | source/detail/style_serializer.cpp:602-625 | a pattern fill reads back with its type and its colours' survivors (also lines 922-938) |
| FacetRoundTrip.GradientFillRoundTrip | source/detail/style_serializer.cpp:626-648 | a gradient fill reads back as linear, with zero degree and margins and its stops' survivors (also lines 939-978) |
| FacetRoundTrip.FillRoundTrip | source/detail/style_serializer.cpp:598-650 | every written fill reads back as its survivor (also lines 914-982) |
| FacetRoundTrip.GradientTypeIsLost | source/detail/style_serializer.cpp:629 | a path gradient does not read back as itself (also lines 945) |
| FacetRoundTrip.SideRoundTrip | source/detail/style_serializer.cpp:663-678 | a side reads back with its style and its colour's survivor (also lines 997-1012) |
| FacetRoundTrip.SideNamesComplete | source/detail/style_serializer.cpp:684 | the side names are distinct and cover every side kind (also lines 992) |
| FacetRoundTrip.SurvivingSidesAdd | source/detail/style_serializer.cpp:684-691 | reading one more side name adds that side's survivor exactly when the border has it |
| FacetRoundTrip.KindsPrefix | source/detail/style_serializer.cpp:684 | the kinds of one more side name are the earlier kinds plus its own |
| FacetRoundTrip.SideSlotsDistinct | source/detail/style_serializer.cpp:992-1013 | the border writer's children are distinctly named |
| FacetRoundTrip.ReadWrittenSides | source/detail/style_serializer.cpp:684-691 | reading the first m side names of a written border gives the survivors of its sides of those kinds (also lines 992-1013) |
| FacetRoundTrip.ReadWrittenBorder | source/detail/style_serializer.cpp:684-691 | reading all side names of a written border gives the survivors of all its sides (also lines 992-1013) |
| FacetRoundTrip.BorderElementRoundTrip | source/detail/style_serializer.cpp:680-694 | a written border reads back with each side as its survivor (also lines 988-1015) |
| TableReader.NumberFormatCode | source/detail/style_serializer.cpp:450-459 | a number format keeps its code except "GENERAL", which becomes "General"; no format read has code "GENERAL" |
| TableReader.NumberFormatNeedsId | source/detail/style_serializer.cpp:460 | a `numFmt` without `numFmtId` makes the read fail |
| TableReader.ReadNumberFormats | source/detail/style_serializer.cpp:444-464 | the registry is replaced by the `numFmt` children read in order; on failure it holds those read before the failing one |
| TableReader.ReadFonts | source/detail/style_serializer.cpp:570-578 | the registry is replaced by every child read as a font, in order; on failure, the prefix before it |
| TableReader.ReadFills | source/detail/style_serializer.cpp:652-661 | the registry is replaced by every child read as a fill, in order; on failure, the fills read before the failing child followed by the default fill pushed for it (line 658) |
| TableReader.ReadBorders | source/detail/style_serializer.cpp:696-704 | the registry is replaced by every child read as a border, in order; on failure, the prefix before it |
| TableReader.ReadIndexedColors | source/detail/style_serializer.cpp:580-586 | each child read as a colour is appended to the colours already there |
| TableReader.ReadColors | source/detail/style_serializer.cpp:588-596 | the colours are replaced by those of `indexedColors`, none when that child is missing; on failure, the colours read before the failing child |
| TableReader.FirstWithId | source/detail/style_serializer.cpp:738-746 | the scan stops at the first registered number format with the id, or at the end |
| TableReader.ResolveNumberFormatCases | source/detail/style_serializer.cpp:734-758 | an id in the registry resolves to its first registered format; otherwise to the built-in format with that id, or to General when there is none |
| TableReader.Entry | source/detail/style_serializer.cpp:719-731 | a registry lookup gives an entry of the registry, and the first one when the id attribute is absent |
| TableReader.DecodeBaseFormatFacets | source/detail/style_serializer.cpp:707-772 | a read base format has its flags from the `apply*` attributes; alignment and protection are applied under the source's tests and default otherwise; border, fill and font come from the registries; the number format is the one its id resolves to |
| TableReader.DefaultIndexNeedsEntry | source/detail/style_serializer.cpp:719-720 | a format with no `borderId` read against no borders fails out of range at 0 |
| TableReader.IndexOutOfRangeFails | source/detail/style_serializer.cpp:719-720 | a `borderId` past the registry fails with that index and the registry size |
| TableReader.BaseFormatNeedsNumberFormat | source/detail/style_serializer.cpp:734 | a base format without `numFmtId` fails to read |
| TableReader.InlineChildrenAsymmetry | source/detail/style_serializer.cpp:710 | an `alignment` child applies alignment, but a `protection` child without a `protection` attribute does not apply protection (also lines 763) |
| TableReader.FindRegisteredFormat | source/detail/style_serializer.cpp:736-746 | the loop finds a registered format exactly when one has the id, and yields the first one |
| TableReader.FindNumberFormat | source/detail/style_serializer.cpp:734-758 | the search yields the format the id resolves to |
| TableReader.ReadBaseFormat | source/detail/style_serializer.cpp:707-772 | the method reads the base format that the decoding function defines, or fails as it does |
| TableReader.FindCellStyleSpec | source/detail/style_serializer.cpp:812-824 | the inner loop yields the first `cellStyle` whose `xfId` is the position, skipping only others; it finds none exactly when every `xfId` parses and differs |
| TableReader.JoinStylesPositions | source/detail/style_serializer.cpp:806-827 | after a successful read every position's search succeeded; a name is stored exactly for each position that matched; there are as many styles as names |
| TableReader.JoinStylesStopsAtFailure | source/detail/style_serializer.cpp:806-827 | a failure among the first m `xf` elements is the failure of the whole read |
| TableReader.FindCellStyleLoop | source/detail/style_serializer.cpp:812-824 | the inner loop of `read_styles` computes the search |
| TableReader.ReadStyles | source/detail/style_serializer.cpp:804-828 | the styles and the name map grow by the matched styles and their names; the read fails exactly when some `xfId` or style fails, and then holds what the positions before the failing one added |
| TableReader.JoinedPrefixAtFailure | source/detail/style_serializer.cpp:806-827 | when the read first fails at position m, what was added is the successful read of the first m `xf` elements |
| TableReader.FindCellStyleFailure | source/detail/style_serializer.cpp:814 | an unparsable `xfId` before any match makes the search fail with its error |
| TableReader.FindCellStyleMatch | source/detail/style_serializer.cpp:816-822 | the first `cellStyle` whose `xfId` is the position is the one found |
| TableReader.FormatNeedsStyle | source/detail/style_serializer.cpp:783-784 | a cell format without `xfId`, or whose `xfId` is not in the style name map, fails to read |
| TableReader.ReadFormats | source/detail/style_serializer.cpp:775-789 | formats and style names both grow by the entries of the `xf` children read in order; the read fails exactly when one fails, after pushing the ones before it |
| TableReader.RegistriesStage | source/detail/style_serializer.cpp:1195-1199 | reading the registries ignores and keeps the styles and formats already held |
| TableReader.NamedStylesStage | source/detail/style_serializer.cpp:1200 | reading named styles only extends the styles and the name map |
| TableReader.CellFormatsStage | source/detail/style_serializer.cpp:1201 | reading cell formats extends formats and their style names by the same count and leaves the styles alone |
| TableReader.RegistriesAreReplaced | source/detail/style_serializer.cpp:1191-1204 | the result of reading a part does not depend on the registries held before |
| TableReader.StylesAndFormatsAppend | source/detail/style_serializer.cpp:1191-1204 | a successful read keeps the earlier styles, formats and style names as prefixes, and the earlier name-map keys |
| TableWriter.IndexOf | source/detail/style_serializer.cpp:1059 | `distance(begin, find(...))` is the first position of the value, or the size when it is absent |
| TableWriter.Find | source/detail/style_serializer.cpp:1059 | the search loop computes that position |
| TableWriter.WriteBaseFormat | source/detail/style_serializer.cpp:1055-1086 | the appends build the element the base-format function defines |
| TableWriter.BaseFormatIds | source/detail/style_serializer.cpp:1057-1066 | a written xf carries the number format's id, and the registry positions of its font, fill and border (the size when unregistered) |
| TableWriter.BaseFormatFlags | source/detail/style_serializer.cpp:1068-1081 | each `apply*` attribute is present exactly when its flag is set, with value "1" |
| TableWriter.BaseFormatChildren | source/detail/style_serializer.cpp:1073-1083 | a written xf has an `alignment` or `protection` child exactly when that facet is applied, written from it, and no other children |
| TableWriter.WriteNumberFormats | source/detail/style_serializer.cpp:1169-1181 | the loop builds the counted `numFmts` element with one `numFmt` per format |
| TableWriter.WriteFonts | source/detail/style_serializer.cpp:854-912 | the loop builds the counted `fonts` element with one `font` per font |
| TableWriter.WriteGradientFill | source/detail/style_serializer.cpp:939-978 | the appends build the gradient fill element |
| TableWriter.WriteFills | source/detail/style_serializer.cpp:914-982 | the loop builds the counted `fills` element with one `fill` per fill |
| TableWriter.WriteBorder | source/detail/style_serializer.cpp:990-1014 | the side loop builds the border element |
| TableWriter.WriteBorders | source/detail/style_serializer.cpp:984-1018 | the loop builds the counted `borders` element with one `border` per border |
| TableWriter.WriteColors | source/detail/style_serializer.cpp:1155-1167 | the loop builds `colors` with an `indexedColors` child holding one `rgbColor` per colour |
| TableWriter.WriteStyles | source/detail/style_serializer.cpp:1088-1112 | the loop builds both `cellStyles` and `cellStyleXfs` |
| TableWriter.CellStyleWritten | source/detail/style_serializer.cpp:1101-1108 | a `cellStyle` carries the style's name, its position as `xfId`, its builtin id, and `hidden="1"` exactly when hidden |
| TableWriter.StyleSectionsCounted | source/detail/style_serializer.cpp:1090-1108 | both style sections are counted by the number of styles and hold the i-th style's elements at position i |
| TableWriter.FormatXfId | source/detail/style_serializer.cpp:1122-1134 | a written cell format keeps every base-format attribute and has `xfId` exactly when its style name is non-empty; the `xfId` is the position of the first style of that name |
| TableWriter.WriteFormat | source/detail/style_serializer.cpp:1122-1134 | the appends build the i-th cell-format element |
| TableWriter.WriteFormats | source/detail/style_serializer.cpp:1114-1138 | the loop builds the counted `cellXfs` element |
| TableWriter.WriteDxfs | source/detail/style_serializer.cpp:1140-1144 | `dxfs` is written with count 0 |
| TableWriter.WriteTableStyles | source/detail/style_serializer.cpp:1146-1153 | `tableStyles` is written with count 0 and the two default style names |
| TableWriter.SectionsOfWellNamed | source/detail/style_serializer.cpp:1214-1256 | every written section carries its schema name |
| TableWriter.SectionTagsDistinct | source/detail/style_serializer.cpp:1214-1256 | the section names are distinct |
| TableWriter.SectionSlotNames | source/detail/style_serializer.cpp:1214-1256 | the sections come in schema order, and the optional ones are present exactly when their registry is non-empty |
| TableWriter.SectionSlotsDistinct | source/detail/style_serializer.cpp:1214-1256 | the sections are distinctly named |
| TableWriter.NamesAppend | source/detail/style_serializer.cpp:1214-1256 | the names of concatenated children concatenate |
| TableWriter.Selected | source/detail/style_serializer.cpp:1214-1256 | selecting names under flags keeps at most as many |
| TableWriter.PresentSelected | source/detail/style_serializer.cpp:1214-1256 | the names of the written sections are the section names whose presence flag holds |
| TableWriter.SectionsInOrder | source/detail/style_serializer.cpp:1206-1259 | the `styleSheet` children are named numFmts, fonts, fills, borders (each only when non-empty), cellStyleXfs, cellXfs, cellStyles, dxfs, tableStyles, then colors when non-empty |
| TableWriter.SectionsAgree | source/detail/style_serializer.cpp:1214-1256 | sections that differ only where they are not written give the same children |
| TableWriter.SlotsAt | source/detail/style_serializer.cpp:1214-1256 | slot k is section k with its presence condition |
| TableWriter.AppendSections | source/detail/style_serializer.cpp:1208-1256 | ten conditional `append_child` steps build `styleSheet` with the namespaces and the present sections |
| TableWriter.WriteSheet | source/detail/style_serializer.cpp:1206-1259 | the writer produces the whole `styleSheet` element of the stylesheet |
| TableWriter.SectionChild | source/detail/style_serializer.cpp:1214-1256 | section k is found under its name exactly when written, else as the null node |
| StylesheetRoundTrip.NumberFormatsRoundTrip | source/detail/style_serializer.cpp:444-464 | the number-format section, written only when non-empty, reads back as the formats with "GENERAL" renamed (also lines 1169-1181, 1214-1218) |
| StylesheetRoundTrip.FontsRoundTrip | source/detail/style_serializer.cpp:570-578 | the fonts section reads back as the fonts' survivors (also lines 854-912, 1220-1224) |
| StylesheetRoundTrip.FillsRoundTrip | source/detail/style_serializer.cpp:652-661 | the fills section reads back as the fills' survivors (also lines 914-982, 1226-1230) |
| StylesheetRoundTrip.BordersRoundTrip | source/detail/style_serializer.cpp:696-704 | the borders section reads back as the borders' survivors (also lines 984-1018, 1232-1236) |
| StylesheetRoundTrip.ColorsRoundTrip | source/detail/style_serializer.cpp:588-596 | the colours section reads back as rgb colours of the written hex values (also lines 1155-1167, 1252-1256) |
| StylesheetRoundTrip.BaseFormatAttributesRead | source/detail/style_serializer.cpp:710-763 | a written xf has every id the reader parses, and the reader's tests see exactly the flags written (also lines 1057-1082) |
| StylesheetRoundTrip.EntryOfWrittenId | source/detail/style_serializer.cpp:719-720 | a written registry id selects the entry at that position |
| StylesheetRoundTrip.InlineFacetsRead | source/detail/style_serializer.cpp:709-716 | inline alignment and protection read back when applied, and as the defaults otherwise (also lines 763-769, 1073-1083) |
| StylesheetRoundTrip.BaseFormatRoundTrip | source/detail/style_serializer.cpp:707-772 | a base format whose facets are registered reads back as its survivor against the registries read back (also lines 1055-1086) |
| StylesheetRoundTrip.BaseFormatReadsParts | source/detail/style_serializer.cpp:707-772 | the base-format reader depends only on the facets, ids and `apply*` texts it reads |
| StylesheetRoundTrip.BaseFormatIgnoresXfId | source/detail/style_serializer.cpp:707-772 | an `xfId` attribute does not change how a base format reads |
| StylesheetRoundTrip.UnregisteredFontFails | source/detail/style_serializer.cpp:729-730 | a font missing from the registry is written as the registry size, and reading it back fails out of range (also lines 1059-1060) |
| StylesheetRoundTrip.NameMapLast | source/detail/style_serializer.cpp:819 | storing the last style's name extends the map of the others |
| StylesheetRoundTrip.JoinStylesAligned | source/detail/style_serializer.cpp:806-827 | when each `cellStyle`'s `xfId` is its own position, every xf matches its own `cellStyle` and the styles come out in order |
| StylesheetRoundTrip.StyleRoundTrip | source/detail/style_serializer.cpp:791-802 | a written style reads back with its name, hidden flag and builtin id and its base format's survivor (also lines 1094-1108) |
| StylesheetRoundTrip.NamedStylesRoundTrip | source/detail/style_serializer.cpp:804-828 | the two style sections read back as the styles' survivors and their name map (also lines 1088-1112) |
| StylesheetRoundTrip.BaseFormatHasNoXfId | source/detail/style_serializer.cpp:1055-1086 | `write_base_format` never writes `xfId` |
| StylesheetRoundTrip.FormatRoundTrip | source/detail/style_serializer.cpp:775-789 | a cell format with a non-empty style name of an existing style reads back as its survivor with that name (also lines 1120-1135) |
| StylesheetRoundTrip.EmptyStyleNameFails | source/detail/style_serializer.cpp:783 | a cell format with an empty style name is written without `xfId`, so reading it back fails (also lines 1127) |
| StylesheetRoundTrip.CellFormatsRoundTrip | source/detail/style_serializer.cpp:775-789 | `cellXfs` reads back as every format's survivor with its style name (also lines 1114-1138) |
| StylesheetRoundTrip.RegistriesRoundTrip | source/detail/style_serializer.cpp:1195-1199 | written registry sections read back as their survivors (also lines 1214-1236, 1252-1256) |
| StylesheetRoundTrip.StylesStageRoundTrip | source/detail/style_serializer.cpp:1200 | the written style sections add the styles' survivors and their names (also lines 1238-1244) |
| StylesheetRoundTrip.FormatEntriesSplit | source/detail/style_serializer.cpp:785-787 | the read entries split into the format survivors and the style names written |
| StylesheetRoundTrip.FormatsStageRoundTrip | source/detail/style_serializer.cpp:1201 | the written `cellXfs` adds the formats' survivors and their style names (also lines 1240-1241) |
| StylesheetRoundTrip.SheetSections | source/detail/style_serializer.cpp:1193-1201 | each section the reader asks for is the written one, or the null node when it was not written (also lines 1214-1256) |
| StylesheetRoundTrip.StyleNamesReadBack | source/detail/style_serializer.cpp:819 | after the styles are read, the name map sends every style position to that style's name (also lines 784) |
| StylesheetRoundTrip.SheetRoundTrip | source/detail/style_serializer.cpp:1191-1204 | a `styleSheet` element holding the written sections reads back as the stylesheet's survivors added to the prior styles and formats |
| StylesheetRoundTrip.StylesheetRoundTrip | source/detail/style_serializer.cpp:1191-1259 | reading back the written part of a stylesheet whose facets are registered and whose formats name existing styles gives its survivors |
| Serializer.StyleSerializer.constructor | source/detail/style_serializer.cpp:1187-1189 | the serializer is bound to the given stylesheet |
| TableReader.ReadRegistries | source/detail/style_serializer.cpp:1195-1199 | borders, fills, fonts, number formats and colours are read in that order into the stylesheet; the stage succeeds exactly when decoding them does, and a failure carries the decoding error |
| Serializer.StyleSerializer.ReadStylesheet | source/detail/style_serializer.cpp:1191-1204 | the read succeeds exactly when decoding the part succeeds, and then the stylesheet is the decoded one; a failure carries the decoder's error |
| Serializer.StyleSerializer.WriteStylesheet | source/detail/style_serializer.cpp:1206-1259 | the document gains the `styleSheet` element of the bound stylesheet as its last child |

## Left out

- **pugixml.** Markup is a value tree: children keep their order, attributes form a map, so attribute order is not modelled. An appended duplicate attribute is modelled by keeping the first value, which is the one lookups find.
- **I/O.** Parsing, serialising text and namespaces-as-scopes are not modelled. The four namespace declarations on `styleSheet` are a constant (`Namespaces`).
- **Floating point.** Tint, gradient degree and margins, and stop positions are kept as text (`FloatText`). `as_double` and the writer's `!= 0` test work on that text.
- Text.ParseSize: it is stricter than `stoull`, which accepts leading whitespace, a sign and trailing garbage. It has no 64-bit overflow.
- **`number_format::from_builtin_id`.** Its catalog is not part of this model; it is the `BuiltinCatalog` parameter.
- **Default-constructed values.** xlnt's defaults (font, colour, fill, alignment, protection, base format) are constants in `values.dfy`; their constructors are not part of this model.
- **`xlnt::border::get_side_names`.** It is not part of this model. `SideNames` fixes one order of the seven sides.
- **`rgb_color::get_hex_string`.** It is not modelled. `RgbHex` gives the hex of an rgb colour and "" for any other kind.
- FacetRoundTrip.GradientFillRoundTrip: gradient stops are a sequence in insertion order that keeps duplicates. The stop container behind `add_stop` and `get_stops` (in `fill.hpp`) is not part of this model; a container keyed by position, which would merge equal positions and yield stops in key order, is not captured.
- Serializer.StyleSerializer.ReadStylesheet: on failure the contract does not say which fields were already updated. The body updates them in the source's order.
- Serializer.StyleSerializer.WriteStylesheet: the source appends `cellStyleXfs` before filling it in through a node handle. The model appends each section once it is complete, giving the same tree.
- **Result codes.** The `bool` results of the `write_*` helpers and of `read_stylesheet` are always true and are not modelled. Exceptions (`stoull`, `vector::at`, `map::at`) are the `Err` cases of `Result`.
- **Font size.** It is a natural number, as `string_to_size_t` produces it.
- **Lazy static tables.** The enum maps are constants; their lazy initialisation is not modelled.
- **`workbook.hpp`.** It is not part of this model.
- **Other parts of the workbook.** They are not modelled.
