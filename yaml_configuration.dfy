/** YamlConfiguration.createLoader and the annotation lookups it makes. */
module YamlConfiguration {
  import opened Wrappers
  import opened ConfigTypes
  import Chains
  import LoaderBuilder

  const DefaultIndent := 2
  const DefaultStyle := BLOCK

  /** The indents the class declares, most specific first. */
  function IndentChain(ann: Annotations): seq<Option<int>> {
    [ if ann.configurationYaml.Some? then Some(ann.configurationYaml.value.indent) else None,
      if ann.configuration.Some? then Some(ann.configuration.value.indent) else None ]
  }

  /** The node styles the class declares, most specific first. */
  function StyleChain(ann: Annotations): seq<Option<NodeStyle>> {
    [ if ann.configurationYaml.Some? then Some(ann.configurationYaml.value.style) else None,
      if ann.configuration.Some? then Some(ann.configuration.value.style) else None ]
  }

  /** getAnnotatedIndent: @ConfigurationYaml.indent, else @Configuration.indent, else 2. */
  function AnnotatedIndent(ann: Annotations): (r: int)
    ensures r == Chains.FirstPresent(IndentChain(ann)).GetOr(DefaultIndent)
  {
    Chains.FirstOfTwo(IndentChain(ann)[0], IndentChain(ann)[1]);
    match ann.configurationYaml
    case Some(yaml) => yaml.indent
    case None =>
      match ann.configuration
      case Some(general) => general.indent
      case None => DefaultIndent
  }

  /** getAnnotatedStyle: @ConfigurationYaml.style, else @Configuration.style, else BLOCK. */
  function AnnotatedStyle(ann: Annotations): (r: NodeStyle)
    ensures r == Chains.FirstPresent(StyleChain(ann)).GetOr(DefaultStyle)
  {
    Chains.FirstOfTwo(StyleChain(ann)[0], StyleChain(ann)[1]);
    match ann.configurationYaml
    case Some(yaml) => yaml.style
    case None =>
      match ann.configuration
      case Some(general) => general.style
      case None => DefaultStyle
  }

  /**
   * Builds a YAML loader: file, options and header mode only when non-null, the
   * indent and node style always, from the class's annotations alone.
   */
  function CreateLoader(ann: Annotations, file: Option<File>, options: Option<Options>, headerMode: Option<HeaderMode>): (r: LoaderSpec)
    ensures r.file == file && r.defaultOptions == options && r.headerMode == headerMode
    ensures r.knobs.YamlKnobs?
    ensures r.knobs.indent == Some(Chains.FirstPresent(IndentChain(ann)).GetOr(DefaultIndent))
    ensures r.knobs.nodeStyle == Some(Chains.FirstPresent(StyleChain(ann)).GetOr(DefaultStyle))
  {
    var b := LoaderBuilder.Forward(LoaderBuilder.Builder(YamlKnobs(None, None)), file, options, headerMode);
    b.(knobs := YamlKnobs(indent := Some(AnnotatedIndent(ann)), nodeStyle := Some(AnnotatedStyle(ann))))
  }
}
