/**
 * `xlnt::style_serializer`: an object bound to a stylesheet that it fills from a styles part
 * (`read_stylesheet`) or writes out as one (`write_stylesheet`).
 */
module Serializer {
  import opened Wrappers
  import opened Markup
  import opened Values
  import opened TableReader
  import opened TableWriter

  class StyleSerializer {
    /** The stylesheet the serializer is bound to. */
    var stylesheet: Stylesheet

    /** `style_serializer(stylesheet)`: bind the serializer to a stylesheet. */
    constructor (stylesheet: Stylesheet)
      ensures this.stylesheet == stylesheet
    {
      this.stylesheet := stylesheet;
    }

    /**
     * `read_stylesheet`: the readers in the source's order against the `styleSheet` child of
     * `xml` (the registries first, `TableReader.ReadRegistries`), each storing what it read
     * into the stylesheet; the first failure ends the read.
     * On success the stylesheet is what `DecodeStylesheet` gives for the old one.
     */
    method ReadStylesheet(xml: Node, catalog: BuiltinCatalog) returns (r: Result<()>)
      modifies this
      ensures r.Ok? <==> DecodeStylesheet(xml, old(stylesheet), catalog).Ok?
      ensures r.Ok? ==> stylesheet == DecodeStylesheet(xml, old(stylesheet), catalog).value
      ensures r.Err? ==> DecodeStylesheet(xml, old(stylesheet), catalog) == Err(r.error)
    {
      var root := Child(xml, "styleSheet");
      var registries;
      registries, r := ReadRegistries(root, stylesheet);
      stylesheet := registries;
      if r.Err? { return; }

      var styles, names;
      styles, names, r := ReadStyles(Child(root, "cellStyles"), Child(root, "cellStyleXfs"),
        StyleReader(stylesheet, catalog), stylesheet.styles, stylesheet.styleNameMap);
      if r.Err? {
        stylesheet := stylesheet.(styles := styles, styleNameMap := names);
        return;
      }
      stylesheet := stylesheet.(styles := styles, styleNameMap := names);
      assert stylesheet == DecodeNamedStyles(root, DecodeRegistries(root, old(stylesheet)).value, catalog).value;

      var formats, formatStyles;
      formats, formatStyles, r := ReadFormats(Child(root, "cellXfs"), FormatReader(stylesheet, catalog),
        stylesheet.formats, stylesheet.formatStyles);
      stylesheet := stylesheet.(formats := formats, formatStyles := formatStyles);
    }

    /**
     * `write_stylesheet`: append to `doc` a `styleSheet` element holding the namespaces and the
     * sections of the bound stylesheet, in order (`WriteSheet`).
     */
    method WriteStylesheet(doc: Node) returns (r: Node)
      requires |stylesheet.formats| <= |stylesheet.formatStyles|
      ensures r == WithChild(doc, EncodeStylesheet(stylesheet))
    {
      var root := WriteSheet(stylesheet);
      r := WithChild(doc, root);
    }
  }
}
