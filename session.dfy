/** The state of one bundling run: the `Bundler` object of src/bundler.ts with
    the two registries it keeps as static fields (here ordinary fields, since
    `bundle()` clears them at the start of every run), the set of claimed
    identifier names, and the collaborators the core consults but does not
    implement: the file system with Babel's parse and scope results, and the
    path and identifier helpers. */
module Session {

  import opened Tables
  import opened Ast
  import opened Graph
  import Strings

  /** What Babel reports about one file that reads and parses: its top-level
      statements, every scope binding in order of the first identifier that
      refers to it, and the program-scope lookup (`getBinding`) as indexes into
      that list. */
  datatype SourceFile = SourceFile(
    body: seq<Stmt>,
    scopeBindings: seq<Binding>,
    programScope: map<string, nat>)

  /** `existsSync` answers true exactly for `existing`; `readFileSync`
      followed by `parse` succeeds exactly for the keys of `sources`. */
  datatype FileSystem = FileSystem(existing: set<string>, sources: map<string, SourceFile>)

  /** Helpers whose bodies are not part of this model: node's `path.join`,
      `dirname`, `basename`, utils' `makeLegal` and `isIllegalIdentifier`, and
      the two properties the rewriters read from a module without the
      `Module` class defining them, both keyed by the module's path: its
      numeric `id` and its `namedExports`. */
  datatype Env = Env(
    join: (string, string) -> string,
    dirname: string -> string,
    basename: string -> string,
    makeLegal: string -> string,
    isIllegalIdentifier: string -> bool,
    moduleId: string -> nat,
    namedExports: string -> seq<string>)

  /** The fatal failures of a run, with the text the source throws. */
  datatype BundleError =
    | ParseFailure(path: string)
    | ModuleNotFound(specifier: string, importerFileName: string)
    | CircularDependency(chain: seq<string>)
    /** a rewriter reads `<key>.identifierName` of an export table entry of
        the module at `path` that does not exist (a TypeError) */
    | MissingExportEntry(path: string, key: string)

  function Message(e: BundleError): string {
    match e
    case ParseFailure(p) => "Failed to parse module at \"" + p + "\""
    case ModuleNotFound(s, f) => "Could not resolve module " + s + " from " + f
    case CircularDependency(c) => "Circular dependency detected: " + Strings.Join(c, " -> ")
    case MissingExportEntry(_, _) => "Cannot read properties of undefined (reading 'identifierName')"
  }

  datatype Result<T> = Success(value: T) | Failure(error: BundleError)

  class Bundler {
    const entryPath: string
    const minify: bool
    const treeshake: bool
    const fs: FileSystem
    const env: Env

    /** Bundler.modules, Bundler.externalModules and the shared objects they hold */
    var graph: Graph
    /** the claimed top-level names of the merged program */
    var identifierNames: set<string>

    constructor (entryPath: string, fs: FileSystem, env: Env, minify: bool, treeshake: bool)
      ensures this.entryPath == entryPath && this.fs == fs && this.env == env
      ensures this.minify == minify && this.treeshake == treeshake
      ensures graph == EmptyGraph() && identifierNames == {}
    {
      this.entryPath := entryPath;
      this.fs := fs;
      this.env := env;
      this.minify := minify;
      this.treeshake := treeshake;
      graph := EmptyGraph();
      identifierNames := {};
    }
  }
}
