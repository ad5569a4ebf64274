/**
 * AbstractConfiguration: the configuration lifecycle engine.
 *
 * A configuration object binds its own mapped fields (Data) to a file through a
 * loader, an object mapper and a cached root node. The pure part (the annotation
 * resolvers, the header-mode selector and one step function per operation) comes
 * first; the class Configuration then performs those steps on its fields and is
 * proved against the step functions.
 *
 * The loaders and the object mapper belong to an external library; what they do
 * is a parameter of every operation (Env), and the file system is a map from
 * files to the node tree each one holds.
 */
module AbstractConfiguration {
  import opened Wrappers
  import opened ConfigTypes
  import Chains
  import HoconConfiguration
  import YamlConfiguration
  import XmlConfiguration

  /** A configuration node tree, as a loader reads and writes it. */
  type Node(!new)

  /** The values of a configuration object's own mapped fields (version, database, colours, ...). */
  type Data(!new)

  /** The ConfigurateException thrown by a loader or by the object mapper. */
  type Cause

  /** The subclass a configuration extends; it decides which createLoader runs. */
  datatype Format = Hocon | Yaml | Xml

  /** The ObjectMapper obtained for the mapped type. */
  datatype Mapper = Mapper(target: TypeName)

  /** What an operation throws. */
  datatype Failure =
    | ClassNotDefined                  // ConfigurateException "Configuration class is not defined"
    | NoDefaultFile                    // ConfigurateException raised by loadDefault
    | NullPointer                      // the NullPointerException save lets escape
    | FileError(file: File, cause: Cause)  // a loader or mapper exception, wrapped with the file

  /** The behaviour of the external collaborators. */
  datatype Env = Env(
    canCreateInstances: TypeName -> bool,                              // mapper.canCreateInstances()
    mapperLoad: (TypeName, Node) -> Result<Data, Cause>,               // mapper.load(root)
    mapperSave: (TypeName, Data, Node) -> Result<Node, Cause>,         // mapper.save(this, root): the updated root
    loaderLoad: (LoaderSpec, Options, Option<Node>) -> Result<Node, Cause>, // loader.load(options), given the file's contents
    loaderSave: (LoaderSpec, Node) -> Option<Cause>)                   // loader.save(root): None when it succeeds

  /** The files that exist, with the node tree each one holds. */
  type Disk = map<File, Node>

  /** What a loader bound to `file` finds there: None for no file or a missing one. */
  function Contents(disk: Disk, file: Option<File>): (r: Option<Node>)
    ensures r.Some? <==> file.Some? && file.value in disk
    ensures r.Some? ==> r.value == disk[file.value]
  {
    if file.Some? && file.value in disk then Some(disk[file.value]) else None
  }

  // ---------------------------------------------------------------------------
  // Constructor overloads (identical in HoconConfiguration, YamlConfiguration
  // and XmlConfiguration): each shorter one delegates with nulls.
  // ---------------------------------------------------------------------------

  /** The arguments that reach the four-argument constructor; None is a null argument. */
  datatype Arguments = Arguments(
    typeToken: Option<TypeName>, file: Option<File>, options: Option<Options>, headerMode: Option<HeaderMode>)

  /** (type, file, headerMode) delegates to (type, file, null, headerMode). */
  function WithHeaderMode(typeToken: Option<TypeName>, file: Option<File>, headerMode: Option<HeaderMode>): (r: Arguments)
    ensures r.typeToken == typeToken && r.file == file && r.headerMode == headerMode
    ensures r.options.None?
  {
    Arguments(typeToken, file, None, headerMode)
  }

  /** (type, file) delegates to (type, file, null). */
  function WithFile(typeToken: Option<TypeName>, file: Option<File>): (r: Arguments)
    ensures r == Arguments(typeToken, file, None, None)
  {
    WithHeaderMode(typeToken, file, None)
  }

  /** (type) delegates to (type, null, null, null). */
  function WithType(typeToken: Option<TypeName>): (r: Arguments)
    ensures r.typeToken == typeToken && r.file.None? && r.options.None? && r.headerMode.None?
  {
    Arguments(typeToken, None, None, None)
  }

  /** () delegates to (null, null, null, null): everything comes from annotations. */
  function NoArguments(): (r: Arguments)
    ensures r.typeToken.None? && r.file.None? && r.options.None? && r.headerMode.None?
  {
    Arguments(None, None, None, None)
  }

  // ---------------------------------------------------------------------------
  // Annotation resolvers
  // ---------------------------------------------------------------------------

  /** The mapped types the class declares: @ConfigurationClass, then @Configuration.clazz. */
  function ClassChain(ann: Annotations): seq<Option<TypeName>> {
    [ann.configurationClass, if ann.configuration.Some? then Some(ann.configuration.value.clazz) else None]
  }

  /** The files the class declares: @ConfigurationFile, then @Configuration.file. */
  function FileChain(ann: Annotations): seq<Option<File>> {
    [ if ann.configurationFile.Some? then Some(File(ann.configurationFile.value)) else None,
      if ann.configuration.Some? then Some(File(ann.configuration.value.file)) else None ]
  }

  /** The headers the class declares: @ConfigurationHeader, then @Configuration.header. */
  function HeaderChain(ann: Annotations): seq<Option<string>> {
    [ann.configurationHeader, if ann.configuration.Some? then Some(ann.configuration.value.header) else None]
  }

  /** getAnnotatedClassType: fails with "Configuration class is not defined" when neither annotation is there. */
  function AnnotatedClassType(ann: Annotations): (r: Result<TypeName, Failure>)
    ensures r.Success? <==> Chains.FirstPresent(ClassChain(ann)).Some?
    ensures r.Success? ==> Some(r.value) == Chains.FirstPresent(ClassChain(ann))
    ensures r.Failure? ==> r.error == ClassNotDefined
  {
    Chains.FirstOfTwo(ClassChain(ann)[0], ClassChain(ann)[1]);
    match ann.configurationClass
    case Some(t) => Success(t)
    case None =>
      match ann.configuration
      case Some(general) => Success(general.clazz)
      case None => Failure(ClassNotDefined)
  }

  /** getAnnotatedFile: an undeclared file is no error, only an unbound (null) file. */
  function AnnotatedFile(ann: Annotations): (r: Option<File>)
    ensures r == Chains.FirstPresent(FileChain(ann))
  {
    Chains.FirstOfTwo(FileChain(ann)[0], FileChain(ann)[1]);
    match ann.configurationFile
    case Some(path) => Some(File(path))
    case None =>
      match ann.configuration
      case Some(general) => Some(File(general.file))
      case None => None
  }

  /** getAnnotatedHeader: it never throws; with no annotation the header is "". */
  function AnnotatedHeader(ann: Annotations): (r: string)
    ensures r == Chains.FirstPresent(HeaderChain(ann)).GetOr("")
  {
    Chains.FirstOfTwo(HeaderChain(ann)[0], HeaderChain(ann)[1]);
    match ann.configurationHeader
    case Some(h) => h
    case None =>
      match ann.configuration
      case Some(general) => general.header
      case None => ""
  }

  /** The mapped type: the explicit argument first, then the annotations. */
  function ResolveType(explicit: Option<TypeName>, ann: Annotations): (r: Result<TypeName, Failure>)
    ensures r.Success? <==> Chains.FirstPresent([explicit] + ClassChain(ann)).Some?
    ensures r.Success? ==> Some(r.value) == Chains.FirstPresent([explicit] + ClassChain(ann))
    ensures r.Failure? ==> r.error == ClassNotDefined
  {
    Chains.FirstOfThree(explicit, ClassChain(ann)[0], ClassChain(ann)[1]);
    assert [explicit] + ClassChain(ann) == [explicit, ClassChain(ann)[0], ClassChain(ann)[1]];
    if explicit.None? then AnnotatedClassType(ann) else Success(explicit.value)
  }

  /** The bound file: the explicit argument first, then the annotations, else unbound. */
  function ResolveFile(explicit: Option<File>, ann: Annotations): (r: Option<File>)
    ensures r == Chains.FirstPresent([explicit] + FileChain(ann))
  {
    Chains.FirstOfThree(explicit, FileChain(ann)[0], FileChain(ann)[1]);
    assert [explicit] + FileChain(ann) == [explicit, FileChain(ann)[0], FileChain(ann)[1]];
    if explicit.None? then AnnotatedFile(ann) else explicit
  }

  /**
   * The header-mode selection of the constructor. An explicit mode keeps the
   * options as they are; otherwise options that carry a header give PRESERVE, and
   * options without one receive the annotated header and give PRESET. The NONE
   * branch of the source sits behind a catch that getAnnotatedHeader never
   * triggers, so NONE comes only from an explicit NONE.
   */
  function SelectHeaderMode(explicit: Option<HeaderMode>, options: Options, ann: Annotations): (r: (Options, HeaderMode))
    ensures explicit.Some? ==> r == (options, explicit.value)
    ensures explicit.None? ==> r.0.header.Some? && r.0.header == (if options.header.Some? then options.header else Some(AnnotatedHeader(ann)))
    ensures explicit.None? ==> (r.1 == PRESERVE <==> options.header.Some?) && (r.1 == PRESET <==> options.header.None?)
    ensures r.1 == NONE <==> explicit == Some(NONE)
  {
    if explicit.Some? then (options, explicit.value)
    else if options.header.None? then (options.(header := Some(AnnotatedHeader(ann))), PRESET)
    else (options, PRESERVE)
  }

  /** Every format's createLoader, chosen by the subclass. */
  function CreateLoader(format: Format, ann: Annotations, file: Option<File>, options: Option<Options>, headerMode: Option<HeaderMode>): (r: LoaderSpec)
    ensures r.file == file && r.defaultOptions == options && r.headerMode == headerMode
    ensures format == Hocon ==> r.knobs == HoconKnobs
    ensures format == Yaml ==> r.knobs == YamlKnobs(Some(YamlConfiguration.AnnotatedIndent(ann)), Some(YamlConfiguration.AnnotatedStyle(ann)))
    ensures format == Xml ==> r.knobs == XmlKnobs(Some(true), Some(XmlConfiguration.AnnotatedIndent(ann)), Some(XmlConfiguration.AnnotatedTagName(ann)))
  {
    match format
    case Hocon => HoconConfiguration.CreateLoader(file, options, headerMode)
    case Yaml => YamlConfiguration.CreateLoader(ann, file, options, headerMode)
    case Xml => XmlConfiguration.CreateLoader(ann, file, options, headerMode)
  }

  // ---------------------------------------------------------------------------
  // The engine's state and one step function per operation
  // ---------------------------------------------------------------------------

  /** The fields of a configuration object. */
  datatype State = State(
    data: Data, file: Option<File>, options: Options, headerMode: HeaderMode,
    loader: LoaderSpec, mapper: Mapper, root: Option<Node>)

  /** The loader is the one createLoader builds from the current file, options and header mode. */
  ghost predicate Consistent(format: Format, ann: Annotations, s: State) {
    s.loader == CreateLoader(format, ann, s.file, Some(s.options), Some(s.headerMode))
  }

  /** What load, loadFrom and loadDefault return: a new instance, or null. */
  datatype Loaded = Instance(data: Data) | NoInstance

  /**
   * The constructor: resolve the type, then the file, then options and header
   * mode, then build the loader. Nothing is read from disk and no root is cached.
   */
  function Construct(format: Format, ann: Annotations, args: Arguments, defaults: Data): (r: Result<State, Failure>)
    ensures r.Failure? <==> args.typeToken.None? && ann.configurationClass.None? && ann.configuration.None?
    ensures r.Failure? ==> r.error == ClassNotDefined
    ensures r.Success? ==> Consistent(format, ann, r.value) && r.value.root.None? && r.value.data == defaults
    ensures r.Success? ==> Some(r.value.mapper.target) == Chains.FirstPresent([args.typeToken] + ClassChain(ann))
    ensures r.Success? ==> r.value.file == Chains.FirstPresent([args.file] + FileChain(ann))
    ensures r.Success? ==> (r.value.options, r.value.headerMode) == SelectHeaderMode(args.headerMode, args.options.GetOr(DefaultOptions), ann)
  {
    match ResolveType(args.typeToken, ann)
    case Failure(e) => Failure(e)
    case Success(t) =>
      var file := ResolveFile(args.file, ann);
      var options := args.options.GetOr(DefaultOptions);
      var (options', headerMode) := SelectHeaderMode(args.headerMode, options, ann);
      Success(State(defaults, file, options', headerMode, CreateLoader(format, ann, file, Some(options'), Some(headerMode)), Mapper(t), None))
  }

  /**
   * loadFrom(f). The first bind wins: f becomes the file (with a new loader) only
   * when none is bound; the root is then read through the loader, which is tied to
   * the bound file, so a bound engine never reads f. Exceptions are wrapped with f.
   */
  function LoadFromStep(format: Format, ann: Annotations, s: State, f: File, env: Env, disk: Disk): (r: (State, Result<Loaded, Failure>))
    ensures r.0.file == (if s.file.None? then Some(f) else s.file)
    ensures s.file.Some? ==> r.0.loader == s.loader
    ensures s.file.None? ==> r.0.loader == CreateLoader(format, ann, Some(f), Some(s.options), Some(s.headerMode))
    ensures Consistent(format, ann, s) ==> Consistent(format, ann, r.0) && r.0.loader.knobs == s.loader.knobs
    ensures r.0 == s.(file := r.0.file, loader := r.0.loader, root := r.0.root)
    ensures var read := env.loaderLoad(r.0.loader, s.options, Contents(disk, r.0.loader.file));
      && (read.Failure? ==> r.0.root == s.root && r.1 == Failure(FileError(f, read.error)))
      && (read.Success? ==> r.0.root == Some(read.value))
      && (read.Success? && !env.canCreateInstances(s.mapper.target) ==> r.1 == Success(NoInstance))
      && (read.Success? && env.canCreateInstances(s.mapper.target) ==>
            r.1 == match env.mapperLoad(s.mapper.target, read.value)
                   case Success(d) => Success(Instance(d))
                   case Failure(c) => Failure(FileError(f, c)))
    ensures r.1.Success? && r.1.value.Instance? ==>
      env.canCreateInstances(s.mapper.target) && r.0.root.Some? && env.mapperLoad(s.mapper.target, r.0.root.value) == Success(r.1.value.data)
    ensures r.1.Failure? ==> r.1.error.FileError? && r.1.error.file == f
  {
    var bound := if s.file.None? then s.(file := Some(f), loader := CreateLoader(format, ann, Some(f), Some(s.options), Some(s.headerMode))) else s;
    match env.loaderLoad(bound.loader, bound.options, Contents(disk, bound.loader.file))
    case Failure(c) => (bound, Failure(FileError(f, c)))
    case Success(n) =>
      var loaded := bound.(root := Some(n));
      if !env.canCreateInstances(loaded.mapper.target) then (loaded, Success(NoInstance))
      else
        match env.mapperLoad(loaded.mapper.target, n)
        case Failure(c) => (loaded, Failure(FileError(f, c)))
        case Success(d) => (loaded, Success(Instance(d)))
  }

  /** load(): nothing happens without a bound file; otherwise loadFrom(file). */
  function LoadStep(format: Format, ann: Annotations, s: State, env: Env, disk: Disk): (r: (State, Result<Loaded, Failure>))
    ensures s.file.None? ==> r == (s, Success(NoInstance))
    ensures s.file.Some? ==> r == LoadFromStep(format, ann, s, s.file.value, env, disk) && r.0.file == s.file
  {
    if s.file.Some? then LoadFromStep(format, ann, s, s.file.value, env, disk) else (s, Success(NoInstance))
  }

  /**
   * loadDefault(d): the bound file first, then d when it exists; otherwise it
   * throws and changes nothing.
   */
  function LoadDefaultStep(format: Format, ann: Annotations, s: State, d: File, env: Env, disk: Disk): (r: (State, Result<Loaded, Failure>))
    ensures r.1 == Failure(NoDefaultFile) <==> s.file.None? && d !in disk
    ensures r.1 == Failure(NoDefaultFile) ==> r.0 == s
    ensures s.file.Some? ==> r == LoadStep(format, ann, s, env, disk)
    ensures s.file.None? && d in disk ==> r == LoadFromStep(format, ann, s, d, env, disk) && r.0.file == Some(d)
  {
    if s.file.Some? then LoadFromStep(format, ann, s, s.file.value, env, disk)
    else if d in disk then LoadFromStep(format, ann, s, d, env, disk)
    else (s, Failure(NoDefaultFile))
  }

  /** The root save projects into: the cached one, or one read through the loader. */
  function RootForSave(s: State, env: Env, disk: Disk): (r: Result<Node, Cause>)
    ensures s.root.Some? ==> r == Success(s.root.value)
    ensures s.root.None? ==> r == env.loaderLoad(s.loader, s.options, Contents(disk, s.loader.file))
  {
    if s.root.Some? then Success(s.root.value) else env.loaderLoad(s.loader, s.options, Contents(disk, s.loader.file))
  }

  /**
   * save(). Without a file, or with a file that has no parent, a NullPointerException
   * escapes. Otherwise the root is read only when none is cached, the mapper then
   * projects the fields into it, and the loader finally writes it to the bound file.
   * Loader and mapper exceptions are wrapped with the bound file.
   */
  function SaveStep(format: Format, ann: Annotations, s: State, env: Env, disk: Disk): (r: (State, Disk, Option<Failure>))
    requires Consistent(format, ann, s)
    ensures r.0.file == s.file && Consistent(format, ann, r.0)
    ensures r.0 == s.(root := r.0.root)
    ensures s.file.None? || ParentFile(s.file.value).None? ==> r == (s, disk, Some(NullPointer))
    ensures r.2 == Some(NullPointer) <==> s.file.None? || ParentFile(s.file.value).None?
    ensures s.file.Some? && ParentFile(s.file.value).Some? ==>
      var f := s.file.value;
      match RootForSave(s, env, disk)
      case Failure(c) => r == (s, disk, Some(FileError(f, c)))
      case Success(n) =>
        match env.mapperSave(s.mapper.target, s.data, n)
        case Failure(c) => r == (s.(root := Some(n)), disk, Some(FileError(f, c)))
        case Success(n') =>
          && r.0 == s.(root := Some(n'))
          && (env.loaderSave(s.loader, n').None? ==> r.1 == disk[f := n'] && r.2.None?)
          && (env.loaderSave(s.loader, n').Some? ==> r.1 == disk && r.2 == Some(FileError(f, env.loaderSave(s.loader, n').value)))
    ensures r.2.None? ==>
      && s.file.Some? && RootForSave(s, env, disk).Success? && r.0.root.Some?
      && env.mapperSave(s.mapper.target, s.data, RootForSave(s, env, disk).value) == Success(r.0.root.value)
      && env.loaderSave(s.loader, r.0.root.value).None?
      && r.1 == disk[s.file.value := r.0.root.value]
    ensures r.1 != disk ==> r.2.None?
    ensures r.2.Some? && r.2.value != NullPointer ==> s.file.Some? && r.2.value.FileError? && r.2.value.file == s.file.value
    ensures s.root.Some? ==> r.0.root.Some?
  {
    match s.file
    case None => (s, disk, Some(NullPointer))
    case Some(f) =>
      if ParentFile(f).None? then (s, disk, Some(NullPointer))
      else
        match RootForSave(s, env, disk)
        case Failure(c) => (s, disk, Some(FileError(f, c)))
        case Success(n) =>
          var loaded := s.(root := Some(n));
          match env.mapperSave(loaded.mapper.target, loaded.data, n)
          case Failure(c) => (loaded, disk, Some(FileError(f, c)))
          case Success(n') =>
            var projected := loaded.(root := Some(n'));
            match env.loaderSave(projected.loader, n')
            case Some(c) => (projected, disk, Some(FileError(f, c)))
            case None => (projected, disk[f := n'], None)
  }

  // ---------------------------------------------------------------------------
  // Properties across operations
  // ---------------------------------------------------------------------------

  /** A loader reads back the tree it finds in its file. */
  ghost predicate LoaderReadsBack(env: Env) {
    forall spec: LoaderSpec, o: Options, n: Node :: env.loaderLoad(spec, o, Some(n)) == Success(n)
  }

  /** The mapper materialises from a tree the fields it projected into it. */
  ghost predicate MapperReadsBack(env: Env) {
    forall t: TypeName, d: Data, n: Node :: env.mapperSave(t, d, n).Success? ==> env.mapperLoad(t, env.mapperSave(t, d, n).value) == Success(d)
  }

  /**
   * Save then load: with collaborators that read back what they wrote, a load after
   * a successful save returns an instance holding the saved fields and leaves the
   * state as save left it.
   */
  lemma SaveThenLoad(format: Format, ann: Annotations, s: State, env: Env, disk: Disk)
    requires Consistent(format, ann, s)
    requires LoaderReadsBack(env) && MapperReadsBack(env) && env.canCreateInstances(s.mapper.target)
    requires SaveStep(format, ann, s, env, disk).2.None?
    ensures var saved := SaveStep(format, ann, s, env, disk);
      LoadStep(format, ann, saved.0, env, saved.1) == (saved.0, Success(Instance(s.data)))
  {
    var saved := SaveStep(format, ann, s, env, disk);
    var s', disk' := saved.0, saved.1;
    var f := s.file.value;
    var n' := s'.root.value;
    assert s'.loader.file == Some(f);
    assert Contents(disk', s'.loader.file) == Some(n');
    assert env.loaderLoad(s'.loader, s'.options, Some(n')) == Success(n');
    var n := RootForSave(s, env, disk).value;
    assert env.mapperSave(s.mapper.target, s.data, n) == Success(n');
    assert env.mapperLoad(s.mapper.target, n') == Success(s.data);
    assert s'.(root := Some(n')) == s';
  }

  /** The first bind wins: once loadFrom(f) has bound f, a later loadFrom(g) keeps f and its loader. */
  lemma FirstBindWins(format: Format, ann: Annotations, s: State, f: File, g: File, env: Env, disk: Disk)
    requires s.file.None?
    ensures var first := LoadFromStep(format, ann, s, f, env, disk).0;
      var second := LoadFromStep(format, ann, first, g, env, disk).0;
      second.file == Some(f) && second.loader == first.loader && second.loader.file == Some(f)
  {
  }

  /**
   * A bound loadFrom reads the bound file whatever its argument: two arguments give
   * the same new state and the same outcome, and differ only in the file named by
   * an error.
   */
  lemma BoundLoadFromIgnoresArgument(format: Format, ann: Annotations, s: State, f: File, g: File, env: Env, disk: Disk)
    requires s.file.Some?
    ensures var (sf, rf) := LoadFromStep(format, ann, s, f, env, disk);
      var (sg, rg) := LoadFromStep(format, ann, s, g, env, disk);
      && sf == sg
      && (rf.Success? <==> rg.Success?)
      && (rf.Success? ==> rf == rg)
      && (rf.Failure? ==> rf.error == FileError(f, rg.error.cause) && rg.error == FileError(g, rf.error.cause))
  {
  }

  /**
   * The no-argument constructor of a class annotated only with @Configuration takes
   * type, file and header from it: the header is preset into the default options.
   */
  lemma AnnotatedNoArguments(format: Format, ann: Annotations, general: ConfigurationAnnotation, defaults: Data)
    requires ann.configuration == Some(general)
    requires ann.configurationClass.None? && ann.configurationFile.None? && ann.configurationHeader.None?
    ensures var r := Construct(format, ann, NoArguments(), defaults);
      && r.Success?
      && r.value.mapper.target == general.clazz
      && r.value.file == Some(File(general.file))
      && r.value.headerMode == PRESET
      && r.value.options == Options(Some(general.header))
      && r.value.loader.file == Some(File(general.file))
  {
    Chains.FirstOfThree(None, ClassChain(ann)[0], ClassChain(ann)[1]);
    Chains.FirstOfThree(None, FileChain(ann)[0], FileChain(ann)[1]);
    assert [None] + ClassChain(ann) == [None, ClassChain(ann)[0], ClassChain(ann)[1]];
    assert [None] + FileChain(ann) == [None, FileChain(ann)[0], FileChain(ann)[1]];
  }

  // ---------------------------------------------------------------------------
  // The configuration object
  // ---------------------------------------------------------------------------

  /** The file system the loaders read and write. */
  class FileSystem {
    var contents: Disk

    constructor (contents: Disk)
      ensures this.contents == contents
    {
      this.contents := contents;
    }

    /** File.exists(): exactly the files a loader bound to them finds a tree in. */
    predicate Exists(f: File): (r: bool)
      reads this
      ensures r <==> Contents(contents, Some(f)).Some?
    {
      f in contents
    }
  }

  class Configuration {
    const format: Format
    const annotations: Annotations
    var data: Data
    var file: Option<File>
    var options: Options
    var headerMode: HeaderMode
    var loader: LoaderSpec
    var mapper: Mapper
    var root: Option<Node>

    function Fields(): State
      reads this
    {
      State(data, file, options, headerMode, loader, mapper, root)
    }

    ghost predicate Valid()
      reads this
    {
      Consistent(format, annotations, Fields())
    }

    /** Sets every field; used by New and for the instance loadFrom hands back. */
    constructor Init(format: Format, annotations: Annotations, s: State)
      requires Consistent(format, annotations, s)
      ensures Valid() && Fields() == s
      ensures this.format == format && this.annotations == annotations
    {
      this.format := format;
      this.annotations := annotations;
      data := s.data;
      file := s.file;
      options := s.options;
      headerMode := s.headerMode;
      loader := s.loader;
      mapper := s.mapper;
      root := s.root;
    }

    /** The four-argument constructor; `defaults` are the subclass's field initialisers. */
    static method New(format: Format, annotations: Annotations, args: Arguments, defaults: Data) returns (r: Result<Configuration, Failure>)
      ensures r.Failure? ==> Construct(format, annotations, args, defaults) == Failure(r.error)
      ensures r.Success? ==>
        && fresh(r.value) && r.value.Valid()
        && r.value.format == format && r.value.annotations == annotations
        && Construct(format, annotations, args, defaults) == Success(r.value.Fields())
    {
      var t := ResolveType(args.typeToken, annotations);
      if t.Failure? {
        return Failure(t.error);
      }
      var file := ResolveFile(args.file, annotations);
      var options := args.options.GetOr(DefaultOptions);
      var headerMode;
      options, headerMode := SelectHeaderMode(args.headerMode, options, annotations).0, SelectHeaderMode(args.headerMode, options, annotations).1;
      var loader := CreateLoader(format, annotations, file, Some(options), Some(headerMode));
      var c := new Configuration.Init(format, annotations, State(defaults, file, options, headerMode, loader, Mapper(t.value), None));
      return Success(c);
    }

    /** loadFrom(f); the returned instance shares this object's post-call fields. */
    method LoadFrom(f: File, env: Env, fs: FileSystem) returns (r: Result<Option<Configuration>, Failure>)
      requires Valid()
      modifies this
      ensures Valid()
      ensures Fields() == LoadFromStep(format, annotations, old(Fields()), f, env, fs.contents).0
      ensures LoadFromStep(format, annotations, old(Fields()), f, env, fs.contents).1.Failure? ==>
        r == Failure(LoadFromStep(format, annotations, old(Fields()), f, env, fs.contents).1.error)
      ensures LoadFromStep(format, annotations, old(Fields()), f, env, fs.contents).1 == Success(NoInstance) ==> r == Success(None)
      ensures LoadFromStep(format, annotations, old(Fields()), f, env, fs.contents).1.Success? &&
              LoadFromStep(format, annotations, old(Fields()), f, env, fs.contents).1.value.Instance? ==>
        && r.Success? && r.value.Some? && fresh(r.value.value) && r.value.value.Valid()
        && r.value.value.format == format && r.value.value.annotations == annotations
        && r.value.value.Fields() == Fields().(data := LoadFromStep(format, annotations, old(Fields()), f, env, fs.contents).1.value.data)
    {
      if file.None? {
        file := Some(f);
        loader := CreateLoader(format, annotations, file, Some(options), Some(headerMode));
      }
      var read := env.loaderLoad(loader, options, Contents(fs.contents, loader.file));
      if read.Failure? {
        return Failure(FileError(f, read.error));
      }
      root := Some(read.value);
      if !env.canCreateInstances(mapper.target) {
        return Success(None);
      }
      var materialized := env.mapperLoad(mapper.target, read.value);
      if materialized.Failure? {
        return Failure(FileError(f, materialized.error));
      }
      // The mapper builds the instance from the root; the six bookkeeping fields are then copied onto it.
      var instance := new Configuration.Init(format, annotations, State(materialized.value, file, options, headerMode, loader, mapper, root));
      return Success(Some(instance));
    }

    /** load(). */
    method Load(env: Env, fs: FileSystem) returns (r: Result<Option<Configuration>, Failure>)
      requires Valid()
      modifies this
      ensures Valid()
      ensures old(file).None? ==> r == Success(None) && Fields() == old(Fields())
      ensures Fields() == LoadStep(format, annotations, old(Fields()), env, fs.contents).0
      ensures LoadStep(format, annotations, old(Fields()), env, fs.contents).1.Failure? ==>
        r == Failure(LoadStep(format, annotations, old(Fields()), env, fs.contents).1.error)
      ensures LoadStep(format, annotations, old(Fields()), env, fs.contents).1 == Success(NoInstance) ==> r == Success(None)
      ensures LoadStep(format, annotations, old(Fields()), env, fs.contents).1.Success? &&
              LoadStep(format, annotations, old(Fields()), env, fs.contents).1.value.Instance? ==>
        && r.Success? && r.value.Some? && fresh(r.value.value) && r.value.value.Valid()
        && r.value.value.format == format && r.value.value.annotations == annotations
        && r.value.value.Fields() == Fields().(data := LoadStep(format, annotations, old(Fields()), env, fs.contents).1.value.data)
    {
      if file.Some? {
        r := LoadFrom(file.value, env, fs);
      } else {
        r := Success(None);
      }
    }

    /** loadDefault(d). */
    method LoadDefault(d: File, env: Env, fs: FileSystem) returns (r: Result<Option<Configuration>, Failure>)
      requires Valid()
      modifies this
      ensures Valid()
      ensures Fields() == LoadDefaultStep(format, annotations, old(Fields()), d, env, fs.contents).0
      ensures LoadDefaultStep(format, annotations, old(Fields()), d, env, fs.contents).1.Failure? ==>
        r == Failure(LoadDefaultStep(format, annotations, old(Fields()), d, env, fs.contents).1.error)
      ensures LoadDefaultStep(format, annotations, old(Fields()), d, env, fs.contents).1 == Success(NoInstance) ==> r == Success(None)
      ensures LoadDefaultStep(format, annotations, old(Fields()), d, env, fs.contents).1.Success? &&
              LoadDefaultStep(format, annotations, old(Fields()), d, env, fs.contents).1.value.Instance? ==>
        && r.Success? && r.value.Some? && fresh(r.value.value) && r.value.value.Valid()
        && r.value.value.format == format && r.value.value.annotations == annotations
        && r.value.value.Fields() == Fields().(data := LoadDefaultStep(format, annotations, old(Fields()), d, env, fs.contents).1.value.data)
    {
      if file.Some? {
        r := LoadFrom(file.value, env, fs);
      } else if fs.Exists(d) {
        r := LoadFrom(d, env, fs);
      } else {
        r := Failure(NoDefaultFile);
      }
    }

    /** save(). */
    method Save(env: Env, fs: FileSystem) returns (r: Option<Failure>)
      requires Valid()
      modifies this, fs
      ensures Valid()
      ensures (Fields(), fs.contents, r) == SaveStep(format, annotations, old(Fields()), env, old(fs.contents))
    {
      if file.None? {
        return Some(NullPointer);
      }
      var f := file.value;
      var parent := ParentFile(f);
      if parent.None? {
        return Some(NullPointer);
      }
      // parent.mkdirs(): its result is ignored and it does not touch any file's contents.
      if root.None? {
        var read := env.loaderLoad(loader, options, Contents(fs.contents, loader.file));
        if read.Failure? {
          return Some(FileError(f, read.error));
        }
        root := Some(read.value);
      }
      var projected := env.mapperSave(mapper.target, data, root.value);
      if projected.Failure? {
        return Some(FileError(f, projected.error));
      }
      root := Some(projected.value);
      var written := env.loaderSave(loader, projected.value);
      if written.Some? {
        return Some(FileError(f, written.value));
      }
      fs.contents := fs.contents[f := projected.value];
      return None;
    }
  }
}
