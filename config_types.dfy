/**
 * Values shared by the lifecycle engine and the loader factories: files,
 * configuration options, header modes, the annotations a configuration class
 * carries, and the loader a factory builds.
 */
module ConfigTypes {
  import opened Wrappers

  /** A java.io.File, identified by its (already normalised) path. */
  datatype File = File(path: string)

  /** The name of a mapped Java class, as held by a TypeToken. */
  datatype TypeName = TypeName(name: string)

  /** ConfigurationOptions; the header text is the only option the engine reads or writes. */
  datatype Options = Options(header: Option<string>)

  /** ConfigurationOptions.defaults(): no header. */
  const DefaultOptions := Options(None)

  /** How a loader treats the leading comment block of a file. */
  datatype HeaderMode = NONE | PRESET | PRESERVE

  /** The YAML node style a loader writes with. */
  datatype NodeStyle = BLOCK | FLOW

  /** @Configuration: the general declaration, read when no specific one is present. */
  datatype ConfigurationAnnotation = ConfigurationAnnotation(
    clazz: TypeName, file: string, header: string,
    indent: int, style: NodeStyle, tagName: string)

  /** @ConfigurationYaml and @ConfigurationXml: the format-specific declarations. */
  datatype YamlAnnotation = YamlAnnotation(indent: int, style: NodeStyle)
  datatype XmlAnnotation = XmlAnnotation(indent: int, tagName: string)

  /**
   * The annotations found on a configuration class; None is an annotation the
   * class does not carry (getAnnotation returning null).
   */
  datatype Annotations = Annotations(
    configurationClass: Option<TypeName>,
    configurationFile: Option<string>,
    configurationHeader: Option<string>,
    configuration: Option<ConfigurationAnnotation>,
    configurationYaml: Option<YamlAnnotation>,
    configurationXml: Option<XmlAnnotation>)

  /** Format knobs of a loader builder; None is a knob left at the builder's default. */
  datatype Knobs =
    | HoconKnobs
    | YamlKnobs(indent: Option<int>, nodeStyle: Option<NodeStyle>)
    | XmlKnobs(includesXmlDeclaration: Option<bool>, indent: Option<int>, defaultTagName: Option<string>)

  /**
   * A ConfigurationLoader, described by what its builder was given; each None is a
   * builder setting that was never called.
   */
  datatype LoaderSpec = LoaderSpec(
    file: Option<File>, defaultOptions: Option<Options>, headerMode: Option<HeaderMode>, knobs: Knobs)

  /** Index of the last '/' of a path, or -1 (String.lastIndexOf). */
  function LastSlash(path: string): (i: int)
    ensures -1 <= i < |path|
    ensures i >= 0 ==> path[i] == '/'
    ensures forall j :: i < j < |path| ==> path[j] != '/'
  {
    if |path| == 0 then -1
    else if path[|path| - 1] == '/' then |path| - 1
    else LastSlash(path[..|path| - 1])
  }

  /**
   * File.getParentFile on a normalised Unix path: the path up to its last '/',
   * the root "/" for a file directly under it, and null for a bare name or the root.
   */
  function ParentFile(f: File): (r: Option<File>)
    ensures r.None? <==> f.path == "/" || forall j :: 0 <= j < |f.path| ==> f.path[j] != '/'
    ensures r.Some? ==> |r.value.path| < |f.path| && r.value.path == f.path[..|r.value.path|]
  {
    var prefixLength := if |f.path| > 0 && f.path[0] == '/' then 1 else 0;
    var index := LastSlash(f.path);
    if index < prefixLength then
      if prefixLength > 0 && |f.path| > prefixLength then Some(File(f.path[..prefixLength])) else None
    else
      Some(File(f.path[..index]))
  }
}

/**
 * The steps every createLoader override shares: a file, default options and a
 * header mode are handed to the builder only when they are non-null, so a null
 * argument leaves the builder's own default in place.
 */
module LoaderBuilder {
  import opened Wrappers
  import opened ConfigTypes

  /** A fresh builder of the given format: nothing set. */
  function Builder(knobs: Knobs): (b: LoaderSpec)
    ensures b.file.None? && b.defaultOptions.None? && b.headerMode.None? && b.knobs == knobs
  {
    LoaderSpec(None, None, None, knobs)
  }

  function Forward(b: LoaderSpec, file: Option<File>, options: Option<Options>, headerMode: Option<HeaderMode>): (r: LoaderSpec)
    ensures r.file == (if file.Some? then file else b.file)
    ensures r.defaultOptions == (if options.Some? then options else b.defaultOptions)
    ensures r.headerMode == (if headerMode.Some? then headerMode else b.headerMode)
    ensures r.knobs == b.knobs
  {
    var b := if file.Some? then b.(file := file) else b;
    var b := if options.Some? then b.(defaultOptions := options) else b;
    if headerMode.Some? then b.(headerMode := headerMode) else b
  }
}
