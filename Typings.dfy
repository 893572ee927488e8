/** Shapes of the engine's records: chunk types, chunk dependencies, chunk
    state, rules and the mini-program manifest (`app.json`). */
module Typings {
  import opened Wrappers

  /** `'bundle' | 'bundler' | 'scatter' | 'entry'`. */
  datatype ChunkType = Bundle | Bundler | Scatter | Entry

  /** A chunk's `destination`: one path, several paths, or not given. */
  datatype Destination = Path(path: string) | Paths(paths: seq<string>) | Unset

  /** One dependency of a chunk: the depending `file`, the `dependency` file,
      its output `destination` (absent when not given) and the literal
      specifier `required` that names it in the source. */
  datatype Dependency = Dependency(file: string, dependency: string, destination: Option<string>, required: string)

  /** One compiled unit for one source file. */
  datatype Chunk = Chunk(
    file: string,
    chunkType: ChunkType,
    content: string,
    dependencies: seq<Dependency>,
    sourceMap: Option<string>,
    destination: Destination)

  /** The optional fields a chunk is created or updated with. */
  datatype ChunkState = ChunkState(
    chunkType: Option<ChunkType>,
    content: Option<string>,
    dependencies: Option<seq<Dependency>>,
    sourceMap: Option<string>,
    destination: Option<Destination>)

  /** A regular expression or glob, known by its source text; what it matches
      is decided by a `Tester` supplied from outside. */
  datatype Pattern = Pattern(source: string)

  /** `pattern.test(subject)` (or `minimatch(subject, pattern)`). */
  type Tester = (Pattern, string) -> bool

  /** `new RegExp(source)` (with whatever flags the caller passes),
      supplied from outside: the compiled test, or the message of the
      `SyntaxError` the constructor throws for source that is not a valid
      regular expression. */
  type RegExpCompiler = Pattern -> Result<string -> bool>

  /** One loader binding of a rule: the loader (known by name), the chunk
      types it is restricted to (`for`, empty when absent) and its options. */
  datatype RuleLoader = RuleLoader(use: string, forTypes: seq<ChunkType>, options: Option<map<string, string>>)

  /** A compile rule: `{ test, extname?, loaders, exclude? }`. */
  datatype Rule = Rule(test: Pattern, extname: Option<string>, loaders: seq<RuleLoader>, exclude: seq<Pattern>)

  /** `subPackages[i]`: `{ root?, pages? }`. */
  datatype SubPackage = SubPackage(root: Option<string>, pages: Option<seq<string>>)

  /** `tabBar.list[i]`: `{ iconPath?, selectedIconPath? }`. */
  datatype TabItem = TabItem(iconPath: Option<string>, selectedIconPath: Option<string>)

  /** The fields of a mini-program manifest the engine reads. Component maps
      are kept as `(name, path)` pairs in key order. */
  datatype Manifest = Manifest(
    pages: Option<seq<string>>,
    subPackages: Option<seq<SubPackage>>,
    subpackages: Option<seq<SubPackage>>,
    usingComponents: Option<seq<(string, string)>>,
    publicComponents: Option<seq<(string, string)>>,
    tabBarList: Option<seq<TabItem>>,
    miniprogramRoot: Option<string>,
    pluginRoot: Option<string>,
    main: Option<string>)

  /** What the engine asks of the file system: which paths exist
      (`fs.existsSync`), which of them are directories
      (`fs.statSync(p).isDirectory()`) and what a directory holds
      (`fs.readdirSync`, entry names in listing order). */
  datatype FileSystem = FileSystem(existing: set<string>, directories: set<string>, listing: map<string, seq<string>>)

  /** JavaScript truthiness of an optional string: present and not `''`. */
  predicate Truthy(s: Option<string>) {
    s.Some? && s.value != ""
  }
}
