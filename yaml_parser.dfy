/**
 * The stack parser's composition (internal/yaml-parser/parser.go and pkg/yamlparser/parser.go):
 * read a stack file, preprocess its text, decode it with the catalog directories as places to
 * resolve anchors from, and optionally marshal the result back to YAML.
 *
 * The two packages compose the same steps and differ only in their preprocessor: the internal
 * one folds repeated merge keys (MergeKeys.Preprocess), the public one returns its argument.
 * go-yaml's decoder and encoder, and the reading of files, are the parameters in `Env`.
 */
module YamlParser {
  import opened Wrappers
  import Strings
  import Values
  import MergeKeys
  import DirWalk

  type Document = map<string, Values.Value>

  /** Everything outside the parser: the file system and the go-yaml library. */
  datatype Env = Env(
    /** os.ReadFile */
    readFile: string -> Result<string>,
    /** What filepath.WalkDir finds at a path. */
    tree: string -> DirWalk.Tree,
    /** go-yaml's decoder with yaml.ReferenceDirs(dirs): text and anchor directories to a document. */
    decode: (string, seq<string>) -> Result<Document>,
    /** yaml.Marshal */
    marshal: Document -> Result<string>)

  /** internal/yaml-parser's preprocessor: fold repeated merge keys. */
  function InternalPreprocess(text: string): string {
    MergeKeys.Preprocess(text)
  }

  /** pkg/yamlparser's preprocessor (pkg/yamlparser/parser.go:65-69): the text as it is. */
  function PkgPreprocess(text: string): (r: string)
    ensures r == text
  {
    text
  }

  function Context(context: string, message: string): string {
    context + ": " + message
  }

  /** CustomDecoder.Decode: preprocess, then decode; a decoder error is put in context. */
  function Decode(preprocess: string -> string, env: Env, yamlText: string, anchorDirs: seq<string>): Result<Document> {
    match env.decode(preprocess(yamlText), anchorDirs)
    case Err(e) => Err(Context("failed to decode YAML", e))
    case Ok(doc) => Ok(doc)
  }

  /** Which package's parser is meant. */
  datatype Variant = Internal | Pkg

  function Preprocessor(variant: Variant): string -> string {
    match variant
    case Internal => InternalPreprocess
    case Pkg => PkgPreprocess
  }

  /** ParseYAMLWithAnchors: read the file, then decode it; the decode error is put in context a second time. */
  function ParseYAMLWithAnchors(variant: Variant, env: Env, yamlFile: string, anchorDirs: seq<string>): Result<Document> {
    match env.readFile(yamlFile)
    case Err(e) => Err(Context("failed to read YAML file " + yamlFile, e))
    case Ok(text) =>
      match Decode(Preprocessor(variant), env, text, anchorDirs)
      case Err(e) => Err(Context("failed to decode YAML", e))
      case Ok(doc) => Ok(doc)
  }

  /** The anchor directories ParseStack passes on: the catalog directory, then what the walk found. */
  function ReferenceDirs(catalogDir: string, subdirs: seq<string>): (dirs: seq<string>)
    ensures |dirs| == |subdirs| + 1 && dirs[0] == catalogDir && dirs[1..] == subdirs
  {
    [catalogDir] + subdirs
  }

  /** ParseStack: walk the catalog, then parse the stack file with the catalog's directories. */
  function ParseStack(variant: Variant, env: Env, stackFile: string, catalogDir: string): Result<Document> {
    match DirWalk.Subdirectories(catalogDir, env.tree(catalogDir))
    case Err(e) => Err(Context("failed to find subdirectories", e))
    case Ok(subdirs) =>
      match ParseYAMLWithAnchors(variant, env, stackFile, ReferenceDirs(catalogDir, subdirs))
      case Err(e) => Err(Context("failed to parse YAML with anchors", e))
      case Ok(doc) => Ok(doc)
  }

  /** MergeYAML: parse the stack, then marshal it; ParseStack's error is passed on as it is. */
  function MergeYAML(variant: Variant, env: Env, stackFile: string, catalogDir: string): Result<string> {
    match ParseStack(variant, env, stackFile, catalogDir)
    case Err(e) => Err(e)
    case Ok(merged) =>
      match env.marshal(merged)
      case Err(e) => Err(Context("failed to marshal merged YAML", e))
      case Ok(text) => Ok(text)
  }

  // ---- What the composition promises ----

  /** Decode hands the decoder the preprocessed text, and fails exactly when the decoder does. */
  lemma DecodeAfterPreprocess(preprocess: string -> string, env: Env, yamlText: string, anchorDirs: seq<string>)
    ensures var decoded := env.decode(preprocess(yamlText), anchorDirs);
      && (decoded.Ok? ==> Decode(preprocess, env, yamlText, anchorDirs) == decoded)
      && (decoded.Err? ==> Decode(preprocess, env, yamlText, anchorDirs) == Err(Context("failed to decode YAML", decoded.error)))
  {
  }

  /** The public package decodes the text exactly as it was read. */
  lemma PkgDecodesTextAsRead(env: Env, yamlFile: string, anchorDirs: seq<string>)
    requires env.readFile(yamlFile).Ok?
    ensures var decoded := env.decode(env.readFile(yamlFile).value, anchorDirs);
      && (decoded.Ok? ==> ParseYAMLWithAnchors(Pkg, env, yamlFile, anchorDirs) == decoded)
      && (decoded.Err? ==>
            ParseYAMLWithAnchors(Pkg, env, yamlFile, anchorDirs) ==
            Err(Context("failed to decode YAML", Context("failed to decode YAML", decoded.error))))
  {
  }

  /** The internal package decodes the normalised text; a text without merge lines is decoded as read. */
  lemma InternalDecodesNormalisedText(env: Env, yamlFile: string, anchorDirs: seq<string>)
    requires env.readFile(yamlFile).Ok?
    requires forall line :: line in Strings.Split(env.readFile(yamlFile).value, '\n') ==> !MergeKeys.IsMergeLine(line)
    ensures ParseYAMLWithAnchors(Internal, env, yamlFile, anchorDirs) == ParseYAMLWithAnchors(Pkg, env, yamlFile, anchorDirs)
  {
    MergeKeys.PreprocessWithoutMergeLines(env.readFile(yamlFile).value);
  }

  /** A file that cannot be read is an error, whatever the decoder would do. */
  lemma UnreadableFile(variant: Variant, env: Env, yamlFile: string, anchorDirs: seq<string>)
    requires env.readFile(yamlFile).Err?
    ensures ParseYAMLWithAnchors(variant, env, yamlFile, anchorDirs) ==
      Err(Context("failed to read YAML file " + yamlFile, env.readFile(yamlFile).error))
  {
  }

  /**
   * When the catalog can be walked, the stack file is parsed with the catalog directory first and
   * then every directory the walk found; a readable catalog directory is thus listed twice.
   */
  lemma ParseStackAnchorDirs(variant: Variant, env: Env, stackFile: string, catalogDir: string)
    requires DirWalk.Subdirectories(catalogDir, env.tree(catalogDir)).Ok?
    ensures var dirs := ReferenceDirs(catalogDir, DirWalk.Subdirectories(catalogDir, env.tree(catalogDir)).value);
      var parsed := ParseYAMLWithAnchors(variant, env, stackFile, dirs);
      && (parsed.Ok? ==> ParseStack(variant, env, stackFile, catalogDir) == parsed)
      && (parsed.Err? ==>
            ParseStack(variant, env, stackFile, catalogDir) == Err(Context("failed to parse YAML with anchors", parsed.error)))
  {
  }

  /** A catalog that is a directory appears twice at the head of the anchor directories. */
  lemma CatalogListedTwice(catalogDir: string, name: string, listing: DirWalk.Listing)
    requires DirWalk.Subdirectories(catalogDir, DirWalk.Present(DirWalk.Dir(name, listing))).Ok?
    ensures var dirs := ReferenceDirs(catalogDir, DirWalk.Subdirectories(catalogDir, DirWalk.Present(DirWalk.Dir(name, listing))).value);
      |dirs| >= 2 && dirs[0] == catalogDir && dirs[1] == catalogDir
  {
    DirWalk.RootFirst(catalogDir, name, listing);
  }

  /** A catalog walk that fails stops ParseStack before the stack file is read. */
  lemma ParseStackWalkFails(variant: Variant, env: Env, stackFile: string, catalogDir: string)
    requires DirWalk.Subdirectories(catalogDir, env.tree(catalogDir)).Err?
    ensures ParseStack(variant, env, stackFile, catalogDir) ==
      Err(Context("failed to find subdirectories", DirWalk.Subdirectories(catalogDir, env.tree(catalogDir)).error))
  {
  }

  /** MergeYAML fails with ParseStack's own error, and gives text only when it succeeds. */
  lemma MergeYAMLPassesParseErrors(variant: Variant, env: Env, stackFile: string, catalogDir: string)
    ensures ParseStack(variant, env, stackFile, catalogDir).Err? ==>
      MergeYAML(variant, env, stackFile, catalogDir) == Err(ParseStack(variant, env, stackFile, catalogDir).error)
    ensures ParseStack(variant, env, stackFile, catalogDir).Ok? ==>
      MergeYAML(variant, env, stackFile, catalogDir) ==
        match env.marshal(ParseStack(variant, env, stackFile, catalogDir).value)
        case Err(e) => Err(Context("failed to marshal merged YAML", e))
        case Ok(text) => Ok(text)
  {
  }
}
