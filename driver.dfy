/** Bundler.bundle (src/bundler.ts lines 462-481): clear the module
    registries, build the graph from the entry, tree-shake when enabled,
    deconflict top-level names, hoist every reached module into one scope and
    assemble the bundle. The claimed-name set of the instance is not cleared. */
module Driver {

  import opened Tables
  import opened Ast
  import opened Graph
  import opened Session
  import ModuleBuilder
  import Treeshake
  import Deconflict
  import Hoist
  import Assembly

  /** `entry` is registered, as the entry module. */
  predicate EntryRegistered(g: Graph, entry: string) {
    entry in g.modules && g.modules[entry].isEntryModule
  }

  /** The graph and claimed names after the phases that follow the build:
      tree-shaking when enabled, deconfliction, then scope hoisting over the
      post-order walk of the deconflicted graph. */
  function AfterPhases(env: Env, treeshake: bool, built: Graph, names: set<string>, entry: string)
    : (Result<Graph>, set<string>)
  {
    var shaken := if treeshake then Treeshake.Treeshaken(built, entry) else built;
    var (g, claimed) := Deconflict.IdentifiersDeconflicted(shaken, names, entry);
    (Hoist.Hoisted(env, g, Walk(g, entry, Post, |g.modules|)), claimed)
  }

  /** AfterPhases, given the graph and names each phase leaves. */
  lemma AfterPhasesThrough(env: Env, treeshake: bool, built: Graph, names: set<string>, entry: string,
                           shaken: Graph, g: Graph, claimed: set<string>)
    requires shaken == if treeshake then Treeshake.Treeshaken(built, entry) else built
    requires (g, claimed) == Deconflict.IdentifiersDeconflicted(shaken, names, entry)
    ensures AfterPhases(env, treeshake, built, names, entry) == (Hoist.Hoisted(env, g, Walk(g, entry, Post, |g.modules|)), claimed)
  {
  }

  /** bundle(), up to code generation and the output file. Any error the
      module constructor or a rewriter throws ends the run. `built` is the
      graph the module constructor leaves, None when it fails. */
  method Bundle(b: Bundler) returns (r: Result<seq<Stmt>>, ghost built: Option<Graph>)
    modifies b
    ensures old(b.identifierNames) <= b.identifierNames
    ensures b.entryPath !in b.fs.sources ==> r == Failure(ParseFailure(b.entryPath))
    ensures built.None? ==> r.Failure?
    ensures built.Some? ==>
      var (res, names) := AfterPhases(b.env, b.treeshake, built.value, old(b.identifierNames), b.entryPath);
      && EntryRegistered(built.value, b.entryPath)
      && b.identifierNames == names
      && (res.Success? ==> b.graph == res.value && r == Success(Assembly.BundledBody(b.env, res.value, b.entryPath)))
      && (res.Failure? ==> r == Failure(res.error))
  {
    ghost var names0 := b.identifierNames;
    b.graph := EmptyGraph();
    var err := ModuleBuilder.NewModule(b, b.entryPath, true);
    if err.Some? {
      return Failure(err.value), None;
    }
    built := Some(b.graph);
    if b.treeshake {
      Treeshake.PerformTreeshake(b, b.entryPath);
    }
    ghost var shaken := b.graph;
    Deconflict.DeconflictIdentifiers(b, b.entryPath);
    ghost var g := b.graph;
    AfterPhasesThrough(b.env, b.treeshake, built.value, names0, b.entryPath, shaken, g, b.identifierNames);
    err := Hoist.PerformScopeHoisting(b, b.entryPath);
    if err.Some? {
      return Failure(err.value), built;
    }
    Hoist.HoistedBodies(b.env, g, Walk(g, b.entryPath, Post, |g.modules|));
    var body := Assembly.GetBundledCode(b, b.entryPath);
    return Success(body), built;
  }
}
