/** XmlConfiguration.createLoader and the annotation lookups it makes. */
module XmlConfiguration {
  import opened Wrappers
  import opened ConfigTypes
  import Chains
  import LoaderBuilder

  const DefaultIndent := 2
  const DefaultTagName := "configuration"

  /** The indents the class declares, most specific first. */
  function IndentChain(ann: Annotations): seq<Option<int>> {
    [ if ann.configurationXml.Some? then Some(ann.configurationXml.value.indent) else None,
      if ann.configuration.Some? then Some(ann.configuration.value.indent) else None ]
  }

  /** The root tag names the class declares, most specific first. */
  function TagNameChain(ann: Annotations): seq<Option<string>> {
    [ if ann.configurationXml.Some? then Some(ann.configurationXml.value.tagName) else None,
      if ann.configuration.Some? then Some(ann.configuration.value.tagName) else None ]
  }

  /** getAnnotatedIndent: @ConfigurationXml.indent, else @Configuration.indent, else 2. */
  function AnnotatedIndent(ann: Annotations): (r: int)
    ensures r == Chains.FirstPresent(IndentChain(ann)).GetOr(DefaultIndent)
  {
    Chains.FirstOfTwo(IndentChain(ann)[0], IndentChain(ann)[1]);
    match ann.configurationXml
    case Some(xml) => xml.indent
    case None =>
      match ann.configuration
      case Some(general) => general.indent
      case None => DefaultIndent
  }

  /** getAnnotatedTagName: @ConfigurationXml.tagName, else @Configuration.tagName, else "configuration". */
  function AnnotatedTagName(ann: Annotations): (r: string)
    ensures r == Chains.FirstPresent(TagNameChain(ann)).GetOr(DefaultTagName)
  {
    Chains.FirstOfTwo(TagNameChain(ann)[0], TagNameChain(ann)[1]);
    match ann.configurationXml
    case Some(xml) => xml.tagName
    case None =>
      match ann.configuration
      case Some(general) => general.tagName
      case None => DefaultTagName
  }

  /**
   * Builds an XML loader: file, options and header mode only when non-null; the
   * XML declaration always on; indent and default tag name always set from the
   * class's annotations.
   */
  function CreateLoader(ann: Annotations, file: Option<File>, options: Option<Options>, headerMode: Option<HeaderMode>): (r: LoaderSpec)
    ensures r.file == file && r.defaultOptions == options && r.headerMode == headerMode
    ensures r.knobs.XmlKnobs?
    ensures r.knobs.includesXmlDeclaration == Some(true)
    ensures r.knobs.indent == Some(Chains.FirstPresent(IndentChain(ann)).GetOr(DefaultIndent))
    ensures r.knobs.defaultTagName == Some(Chains.FirstPresent(TagNameChain(ann)).GetOr(DefaultTagName))
  {
    var b := LoaderBuilder.Forward(LoaderBuilder.Builder(XmlKnobs(None, None, None)), file, options, headerMode);
    b.(knobs := XmlKnobs(
      includesXmlDeclaration := Some(true),
      indent := Some(AnnotatedIndent(ann)),
      defaultTagName := Some(AnnotatedTagName(ann))))
  }
}
