# Configurate configuration engine, modelled in Dafny

HexoCraft/Configurate lets a Java class extend `HoconConfiguration`,
`YamlConfiguration` or `XmlConfiguration`, declare its file, mapped type, header
and format options with annotations, and then `load`, `loadFrom`, `loadDefault`
and `save` itself. This project models that lifecycle engine
(`AbstractConfiguration`), the three `createLoader` factories with their
constructor overloads, and the `ColorSerializer` that reads and writes
`java.awt.Color` values as hex strings. It then proves their properties.

Layout:

- `wrappers.dfy` holds `Option` and `Result`.
- `chains.dfy` holds `FirstPresent`, the reference definition of "the first
  declaration present". Every annotation lookup (a nested `try`/`catch` on
  `NullPointerException`) is proved against it.
- `config_types.dfy` holds the annotations, the options, the loader description
  (`LoaderSpec`), and `File.getParentFile`. Its `LoaderBuilder` module holds the
  builder steps the three factories share.
- `hocon_configuration.dfy`, `yaml_configuration.dfy` and
  `xml_configuration.dfy` hold the factories and their annotation lookups.
- `abstract_configuration.dfy` holds the engine in two layers:
  - pure step functions over a `State` value hold the counted contracts;
  - `class Configuration`, whose fields are the Java fields, performs each step
    in place. Its methods are proved equal to the step functions.
- `color_serializer.dfy` holds `deserialize` and `serialize` with their round
  trip.

The loaders and the object mapper belong to the external Configurate library.
Their behaviour is the `Env` parameter of every operation. The disk is a map
from files to the node trees they hold; `File.exists()` is membership in it.

In these places the code behaves differently from what a reader might assume; the model follows the code:

- Header mode `NONE` is reachable only by passing it explicitly. Its
  constructor branch sits behind a `catch (NullPointerException)` around
  `getAnnotatedHeader`, which catches that exception itself.
- `loadFrom(f)` on an engine whose file is already bound does not read `f`. It
  reads the bound file through the bound loader. `f` only names the file in the
  error message.
- `save()` with no bound file, or with a file that has no parent, throws a
  `NullPointerException` rather than a `ConfigurateException`.
- The annotations live in two Java packages (`configurate` in core, HOCON and
  XML; `configuration` in YAML). They are treated as one set of annotations.
  Likewise `YamlConfiguration` extends
  `com.github.hexocraft.configuration.AbstractConfiguration`, whose source is not
  part of this model; it is taken to be the engine modelled here.

## Model

| member | source | states |
|---|---|---|
| Chains.FirstIndex | core/src/main/java/com/github/hexocraft/configurate/AbstractConfiguration.java:142-152 | the index of the first present declaration: every earlier one is absent, and the one found is present |
| Chains.FirstPresent | core/src/main/java/com/github/hexocraft/configurate/AbstractConfiguration.java:142-188 | a declaration is found exactly when one is present, and it is the first present one |
| Chains.FirstOfTwo | core/src/main/java/com/github/hexocraft/configurate/AbstractConfiguration.java:160-170 | with two links, the specific annotation wins over @Configuration, which is used only when the specific one is absent |
| Chains.FirstOfThree | core/src/main/java/com/github/hexocraft/configurate/AbstractConfiguration.java:93-96 | an explicit argument wins over both annotations |
| ConfigTypes.LastSlash | core/src/main/java/com/github/hexocraft/configurate/AbstractConfiguration.java:262 | the index of the last '/', or -1 when there is none |
| ConfigTypes.ParentFile | core/src/main/java/com/github/hexocraft/configurate/AbstractConfiguration.java:262-263 | getParentFile is null exactly for a bare name or the root "/"; otherwise it is a proper prefix of the path |
| LoaderBuilder.Builder | hocon/src/main/java/com/github/hexocraft/configurate/hocon/HoconConfiguration.java:101 | a fresh builder has no file, default options or header mode set |
| LoaderBuilder.Forward | hocon/src/main/java/com/github/hexocraft/configurate/hocon/HoconConfiguration.java:102-104 | file, options and header mode reach the builder only when non-null; a null leaves the builder's value; format settings are untouched |
| HoconConfiguration.CreateLoader | hocon/src/main/java/com/github/hexocraft/configurate/hocon/HoconConfiguration.java:100-106 | the HOCON loader gets the given file, options and header mode, and no format setting from any annotation |
| YamlConfiguration.AnnotatedIndent | yaml/src/main/java/com/github/hexocraft/configuration/yaml/YamlConfiguration.java:118-128 | the first indent declared by @ConfigurationYaml then @Configuration, else 2 |
| YamlConfiguration.AnnotatedStyle | yaml/src/main/java/com/github/hexocraft/configuration/yaml/YamlConfiguration.java:135-145 | the first node style declared by @ConfigurationYaml then @Configuration, else BLOCK |
| YamlConfiguration.CreateLoader | yaml/src/main/java/com/github/hexocraft/configuration/yaml/YamlConfiguration.java:103-111 | the YAML loader gets the given file, options and header mode, plus the annotated indent and node style |
| XmlConfiguration.AnnotatedIndent | xml/src/main/java/com/github/hexocraft/configurate/xml/XmlConfiguration.java:117-127 | the first indent declared by @ConfigurationXml then @Configuration, else 2 |
| XmlConfiguration.AnnotatedTagName | xml/src/main/java/com/github/hexocraft/configurate/xml/XmlConfiguration.java:134-144 | the first tag name declared by @ConfigurationXml then @Configuration, else "configuration" |
| XmlConfiguration.CreateLoader | xml/src/main/java/com/github/hexocraft/configurate/xml/XmlConfiguration.java:101-110 | the XML loader gets the given file, options and header mode, an XML declaration, and the annotated indent and tag name |
| AbstractConfiguration.Contents | core/src/main/java/com/github/hexocraft/configurate/AbstractConfiguration.java:216 | a loader finds a tree exactly when its file is bound and exists, and that tree is the file's contents on disk |
| AbstractConfiguration.WithHeaderMode | hocon/src/main/java/com/github/hexocraft/configurate/hocon/HoconConfiguration.java:57-59 | the three-argument constructor passes type, file and header mode on, with null options |
| AbstractConfiguration.WithFile | yaml/src/main/java/com/github/hexocraft/configuration/yaml/YamlConfiguration.java:71-73 | the two-argument constructor is the four-argument one with null options and header mode |
| AbstractConfiguration.WithType | xml/src/main/java/com/github/hexocraft/configurate/xml/XmlConfiguration.java:80-82 | the one-argument constructor passes only the type; file, options and header mode are null |
| AbstractConfiguration.NoArguments | hocon/src/main/java/com/github/hexocraft/configurate/hocon/HoconConfiguration.java:88-90 | the no-argument constructor passes four nulls |
| AbstractConfiguration.AnnotatedClassType | core/src/main/java/com/github/hexocraft/configurate/AbstractConfiguration.java:142-152 | succeeds exactly when @ConfigurationClass or @Configuration is present, with the first one's type; otherwise "Configuration class is not defined" |
| AbstractConfiguration.AnnotatedFile | core/src/main/java/com/github/hexocraft/configurate/AbstractConfiguration.java:160-170 | the file of @ConfigurationFile, else of @Configuration, else null; it never fails |
| AbstractConfiguration.AnnotatedHeader | core/src/main/java/com/github/hexocraft/configurate/AbstractConfiguration.java:178-188 | the header of @ConfigurationHeader, else of @Configuration, else "" |
| AbstractConfiguration.ResolveType | core/src/main/java/com/github/hexocraft/configurate/AbstractConfiguration.java:93 | the explicit type, else the annotated one; fails exactly when all three are absent |
| AbstractConfiguration.ResolveFile | core/src/main/java/com/github/hexocraft/configurate/AbstractConfiguration.java:96 | the explicit file, else the annotated one, else unbound |
| AbstractConfiguration.SelectHeaderMode | core/src/main/java/com/github/hexocraft/configurate/AbstractConfiguration.java:103-115 | an explicit mode keeps the options; otherwise PRESERVE exactly when the options carry a header, else PRESET with the annotated header; NONE exactly when NONE is passed |
| AbstractConfiguration.CreateLoader | core/src/main/java/com/github/hexocraft/configurate/AbstractConfiguration.java:134 | each subclass's createLoader passes file, options and header mode through and sets its own format settings |
| AbstractConfiguration.Construct | core/src/main/java/com/github/hexocraft/configurate/AbstractConfiguration.java:90-124 | fails exactly when no type is found; otherwise type, file, options and header mode are resolved by priority, the loader matches them, and no root is cached |
| AbstractConfiguration.LoadFromStep | core/src/main/java/com/github/hexocraft/configurate/AbstractConfiguration.java:207-237 | only an unbound engine takes f and a new loader; the root becomes what the loader read, even when no instance follows; with a successful read, null when the mapper cannot create instances, otherwise the mapper's instance or its failure wrapped with f; a failed read keeps the root and fails with f; the loader stays consistent |
| AbstractConfiguration.LoadStep | core/src/main/java/com/github/hexocraft/configurate/AbstractConfiguration.java:195-200 | no bound file gives null and no change; otherwise it is loadFrom of the bound file |
| AbstractConfiguration.LoadDefaultStep | core/src/main/java/com/github/hexocraft/configurate/AbstractConfiguration.java:244-253 | fails, changing nothing, exactly when no file is bound and the default is missing; otherwise it loads the bound file first, then the default |
| AbstractConfiguration.RootForSave | core/src/main/java/com/github/hexocraft/configurate/AbstractConfiguration.java:266-268 | the cached root, or one read through the loader only when none is cached |
| AbstractConfiguration.SaveStep | core/src/main/java/com/github/hexocraft/configurate/AbstractConfiguration.java:259-279 | NullPointerException exactly without a file or parent; otherwise a failed read fails with the bound file and changes nothing, a failed projection keeps the root as read, and after a projection the root is the projected tree and the bound file holds it exactly when the loader's write succeeds, otherwise its failure is reported; the disk changes only on success |
| AbstractConfiguration.SaveThenLoad | core/src/main/java/com/github/hexocraft/configurate/AbstractConfiguration.java:195-279 | with a loader and mapper that read back what they wrote, load after a successful save returns the saved fields and leaves the state unchanged |
| AbstractConfiguration.FirstBindWins | core/src/main/java/com/github/hexocraft/configurate/AbstractConfiguration.java:210-213 | after loadFrom(f) binds f, loadFrom(g) keeps f and its loader |
| AbstractConfiguration.BoundLoadFromIgnoresArgument | core/src/main/java/com/github/hexocraft/configurate/AbstractConfiguration.java:207-237 | on a bound engine, loadFrom(f) and loadFrom(g) give the same state and outcome and differ only in the file an error names |
| AbstractConfiguration.AnnotatedNoArguments | core/src/main/java/com/github/hexocraft/configurate/AbstractConfiguration.java:90-124 | a class with only @Configuration gets its type, file and header from it, with header mode PRESET |
| AbstractConfiguration.FileSystem.constructor | core/src/main/java/com/github/hexocraft/configurate/AbstractConfiguration.java:248 | a file system holding the given files |
| AbstractConfiguration.FileSystem.Exists | core/src/main/java/com/github/hexocraft/configurate/AbstractConfiguration.java:248 | File.exists() holds exactly for the files in which a loader bound to them finds a tree |
| AbstractConfiguration.Configuration.Init | core/src/main/java/com/github/hexocraft/configurate/AbstractConfiguration.java:118-123 | every field is set from a consistent state |
| AbstractConfiguration.Configuration.New | core/src/main/java/com/github/hexocraft/configurate/AbstractConfiguration.java:90-124 | the constructor fails as Construct does, or yields a fresh, consistent object whose fields are Construct's state |
| AbstractConfiguration.Configuration.LoadFrom | core/src/main/java/com/github/hexocraft/configurate/AbstractConfiguration.java:207-237 | the fields become LoadFromStep's state; the returned object is fresh and shares the post-call fields, with the mapped data |
| AbstractConfiguration.Configuration.Load | core/src/main/java/com/github/hexocraft/configurate/AbstractConfiguration.java:195-200 | the fields are LoadStep's state; a failure, a null and an instance result each follow LoadStep's outcome |
| AbstractConfiguration.Configuration.LoadDefault | core/src/main/java/com/github/hexocraft/configurate/AbstractConfiguration.java:244-253 | the fields are LoadDefaultStep's state; a failure, a null and an instance result each follow LoadDefaultStep's outcome |
| AbstractConfiguration.Configuration.Save | core/src/main/java/com/github/hexocraft/configurate/AbstractConfiguration.java:259-279 | fields, disk and result are those of SaveStep |
| ColorSerializer.RemoveAll | core/src/main/java/com/github/hexocraft/configuration/serialize/ColorSerializer.java:34 | replaceAll with a literal pattern and "" never lengthens and adds no character; a one-character pattern leaves none of it; a string without the pattern's last character is unchanged |
| ColorSerializer.StripSeparators | core/src/main/java/com/github/hexocraft/configuration/serialize/ColorSerializer.java:34 | no "#" or "_" is left |
| ColorSerializer.Drop | core/src/main/java/com/github/hexocraft/configuration/serialize/ColorSerializer.java:34 | the characters of s other than c, and only those, in their order |
| ColorSerializer.DropConcat | core/src/main/java/com/github/hexocraft/configuration/serialize/ColorSerializer.java:34 | dropping a character from joined strings drops it from each part |
| ColorSerializer.RemoveOne | core/src/main/java/com/github/hexocraft/configuration/serialize/ColorSerializer.java:34 | a replaceAll pass with a one-character pattern is exactly Drop: every occurrence goes, everything else stays in order |
| ColorSerializer.StripKeepsOthers | core/src/main/java/com/github/hexocraft/configuration/serialize/ColorSerializer.java:34 | on a string without 'x', stripping drops every "#" and "_" wherever they stand and keeps every other character in order |
| ColorSerializer.DigitValue | core/src/main/java/com/github/hexocraft/configuration/serialize/ColorSerializer.java:36 | Character.digit(c, 16) on ASCII lies in -1..15 |
| ColorSerializer.DigitTable | core/src/main/java/com/github/hexocraft/configuration/serialize/ColorSerializer.java:36 | Character.digit(c, 16) is -1 exactly off the hex digit tables, and otherwise the digit's position in the lower- or upper-case table |
| ColorSerializer.HexValue | core/src/main/java/com/github/hexocraft/configuration/serialize/ColorSerializer.java:36 | a value exactly for strings of hex digits, below 16 to the power of the length |
| ColorSerializer.ParseLong16 | core/src/main/java/com/github/hexocraft/configuration/serialize/ColorSerializer.java:36-38 | Long.parseLong(s, 16) succeeds exactly when an optional sign is followed by at least one hex digit, all digits, and the signed value fits a long; the result is that signed value |
| ColorSerializer.FromBits | core/src/main/java/com/github/hexocraft/configuration/serialize/ColorSerializer.java:36 | the int cast keeps the low 32 bits: blue, green and red are bytes 0, 1 and 2 of the value, the alpha is byte 3 with alpha and 255 without |
| ColorSerializer.PairAt | core/src/main/java/com/github/hexocraft/configuration/serialize/ColorSerializer.java:35-38 | the byte spelt by two hex digits |
| ColorSerializer.Deserialize | core/src/main/java/com/github/hexocraft/configuration/serialize/ColorSerializer.java:33-40 | null unless 6 or 8 characters remain; NumberFormatException exactly when those do not parse; six digits are opaque RRGGBB, eight are AARRGGBB, pair by pair |
| ColorSerializer.LowerDigit | core/src/main/java/com/github/hexocraft/configuration/serialize/ColorSerializer.java:44 | the digit written has the given value |
| ColorSerializer.ToHexString | core/src/main/java/com/github/hexocraft/configuration/serialize/ColorSerializer.java:44-47 | Integer.toHexString spells the number; one digit below 16, two below 256 |
| ColorSerializer.ZeroPad | core/src/main/java/com/github/hexocraft/configuration/serialize/ColorSerializer.java:48-51 | a single digit gets a leading "0"; longer strings are kept |
| ColorSerializer.UpperChar | core/src/main/java/com/github/hexocraft/configuration/serialize/ColorSerializer.java:52 | upper-casing a hex digit keeps its value and gives an upper-case digit |
| ColorSerializer.UpperCase | core/src/main/java/com/github/hexocraft/configuration/serialize/ColorSerializer.java:52 | toUpperCase applies to each character and keeps the length |
| ColorSerializer.UpperCaseDigits | core/src/main/java/com/github/hexocraft/configuration/serialize/ColorSerializer.java:52 | an upper-cased digit string has the same value |
| ColorSerializer.Component | core/src/main/java/com/github/hexocraft/configuration/serialize/ColorSerializer.java:44-52 | each component is two upper-case hex digits of its value |
| ColorSerializer.Serialize | core/src/main/java/com/github/hexocraft/configuration/serialize/ColorSerializer.java:42-54 | nine characters: "#" then eight upper-case hex digits, whose pairs spell alpha, red, green and blue in that order |
| ColorSerializer.RoundTrip | core/src/main/java/com/github/hexocraft/configuration/serialize/ColorSerializer.java:33-54 | deserialize(serialize(c)) == c for every colour |
| ColorSerializer.DecodeWritten | core/src/main/java/com/github/hexocraft/configuration/serialize/ColorSerializer.java:33-40 | any "#AARRGGBB" string of upper-case digits decodes to the colour its pairs spell |
| ColorSerializer.EightDigits | core/src/main/java/com/github/hexocraft/configuration/serialize/ColorSerializer.java:37-38 | eight hex digits parse, and the int cast keeps their four pairs as alpha, red, green, blue |
| ColorSerializer.SixDigits | core/src/main/java/com/github/hexocraft/configuration/serialize/ColorSerializer.java:35-36 | six hex digits parse into red, green and blue with alpha 255 |
| ColorSerializer.HexValueConcat | core/src/main/java/com/github/hexocraft/configuration/serialize/ColorSerializer.java:36 | the value of joined digit strings is the first value shifted by the second's length plus the second |
| ColorSerializer.Prefixes | core/src/main/java/com/github/hexocraft/configuration/serialize/ColorSerializer.java:34 | a leading "#" or "0x" is removed from a digit string |
| ColorSerializer.SeparatorOrder | core/src/main/java/com/github/hexocraft/configuration/serialize/ColorSerializer.java:34 | "_" is removed after "0x", so "0_x" before digits leaves "0x" |
| ColorSerializer.SeparatorOrderRejected | core/src/main/java/com/github/hexocraft/configuration/serialize/ColorSerializer.java:34-38 | "0_x" before six digits is a NumberFormatException |
| ColorSerializer.SignedEight | core/src/main/java/com/github/hexocraft/configuration/serialize/ColorSerializer.java:37-38 | a sign counts towards the eight characters and is honoured: the colour is the low 32 bits of the signed value |
| ColorSerializer.TestColor | core/src/main/java/com/github/hexocraft/configuration/serialize/ColorSerializer.java:42-54 | the test configurations' colour new Color(13, 32, 64) is written "#FF0D2040" |
| ColorSerializer.AlphaTestColor | core/src/main/java/com/github/hexocraft/configuration/serialize/ColorSerializer.java:42-54 | the test configurations' colour new Color(13, 32, 64, 128) is written "#800D2040" |

## Left out

- The Configurate loaders and object mapper are parameters (`Env`), not
  models. Parsing and printing HOCON, YAML and XML, and the mapping of fields to
  nodes, belong to that library.
- A `Node` is a value. In the code the same mutable root is shared between the
  configuration and the instance `loadFrom` returns, so a later save through
  one is visible through the other. That aliasing is not modelled.
- `mapper.save` mutates the root in place. A mapper failure partway through is
  modelled as leaving the root as it was read.
- Writing a file is atomic in the model. Loader I/O failures are modelled only
  as a `Cause`.
- `parent.mkdirs()` has no effect in the model, since its result is ignored.
  Directory creation is not modelled.
- `ObjectMapper.factory().get(type)` is assumed to succeed. The model does
  not cover its exception, or a type token whose mapped class is not the
  configuration class (a `ClassCastException`).
- Registering `ColorSerializer` into the options: `Options` carries only the
  header.
- `volatile` on `root`, and thread safety: concurrency is not modelled.
- Exception messages: failures are kinds with the file they name, not text.
- `File` paths are not normalised. `ParentFile` takes a normalised Unix path.
- `ColorSerializer.Deserialize` treats only ASCII as digits, where
  `Character.digit` also accepts other Unicode digits. A null node string is
  not modelled. Its length test counts characters, where `String.length()`
  counts UTF-16 units: a stripped string with a character outside the Basic
  Multilingual Plane can be null in the model where the code throws a
  `NumberFormatException`, or the reverse (for example "1234" followed by one
  emoji is 5 characters here but 6 units in Java).
- `ColorSerializer.RemoveAll` states only bounds for a multi-character pattern
  ("0x") in general. That characters outside a removed occurrence survive in
  order is proved for one-character patterns (`RemoveOne`) and, through
  `StripKeepsOthers`, for `StripSeparators` on strings without an 'x'.
- `ColorSerializer.StripSeparators` is connected to `Drop` only for strings
  without an 'x' (`StripKeepsOthers`). Strings containing "0x" are covered
  for the shapes of `Prefixes` and `SeparatorOrder`.
- `ColorSerializer.Serialize` does not model a null colour (a
  `NullPointerException` in the source).
- The Gson configuration module is not part of this model.
