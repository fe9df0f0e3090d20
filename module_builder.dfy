/** Construction of the module graph: the `Module` constructor of
    src/module.ts and the analyses it runs, in the same order: register,
    parse, fix extension-less imports, resolve dependencies (recursively
    constructing them), then build the import bindings, the export table, the
    module-level bindings and the list of external `export *` statements. */
module ModuleBuilder {

  import opened Strings
  import opened Tables
  import opened Ast
  import opened Graph
  import opened Session

  /** A specifier is relative (resolved against the importer's directory)
      exactly when it starts with `/` or `.`; every other one is bare. */
  predicate IsRelative(spec: string) {
    StartsWith(spec, "/") || StartsWith(spec, ".")
  }

  /** The dependency a successfully resolved specifier stands for, seen from
      a module in `directory`: a relative one the internal module at the
      joined path, a bare one the external module of that name. */
  function DependencyFor(env: Env, directory: string, spec: string): Dep {
    if IsRelative(spec) then Internal(env.join(directory, spec)) else External(spec)
  }

  /** The existence test shared by extension fixing and resolution: a path
      starting with `/` is looked up as written, one starting with `.` is
      joined to the directory first, and any other path does not exist. */
  predicate ExistsFrom(fs: FileSystem, env: Env, directory: string, p: string) {
    if StartsWith(p, "/") then p in fs.existing
    else if StartsWith(p, ".") then env.join(directory, p) in fs.existing
    else false
  }

  /** The `from` specifier of an import after extension fixing. */
  function FixedSource(fs: FileSystem, env: Env, directory: string, src: string): (r: string)
    ensures r == src || r == src + ".js"
    ensures r != src <==> !EndsWith(src, ".js") && ExistsFrom(fs, env, directory, src + ".js")
  {
    if !EndsWith(src, ".js") && ExistsFrom(fs, env, directory, src + ".js") then src + ".js" else src
  }

  /** A bare specifier is never rewritten, whatever files exist. */
  lemma BareSpecifierNotFixed(fs: FileSystem, env: Env, directory: string, src: string)
    requires src != [] && !IsRelative(src)
    ensures FixedSource(fs, env, directory, src) == src
  {
    var p := src + ".js";
    assert p[0] == src[0];
    assert !StartsWith(p, "/") && !StartsWith(p, ".");
  }

  /** Only import declarations are rewritten; re-export sources are not. */
  function FixImport(fs: FileSystem, env: Env, directory: string, s: Stmt): (r: Stmt)
    ensures !s.ImportDecl? ==> r == s
    ensures s.ImportDecl? ==>
      r.ImportDecl? && r.specifiers == s.specifiers && r.source == FixedSource(fs, env, directory, s.source)
  {
    match s
    case ImportDecl(src, specs) => ImportDecl(FixedSource(fs, env, directory, src), specs)
    case _ => s
  }

  /** fixImportsWithoutExtension (module.ts lines 83-103). */
  method FixImportsWithoutExtension(fs: FileSystem, env: Env, directory: string, body: seq<Stmt>)
    returns (fixed: seq<Stmt>)
    ensures |fixed| == |body|
    ensures forall i :: 0 <= i < |body| ==> fixed[i] == FixImport(fs, env, directory, body[i])
  {
    fixed := [];
    var i := 0;
    while i < |body|
      invariant i <= |body| && |fixed| == i
      invariant forall j :: 0 <= j < i ==> fixed[j] == FixImport(fs, env, directory, body[j])
    {
      var s := body[i];
      if s.ImportDecl? && !EndsWith(s.source, ".js") {
        var updated := s.source + ".js";
        var found := false;
        if StartsWith(updated, "/") {
          found := updated in fs.existing;
        } else if StartsWith(updated, ".") {
          found := env.join(directory, updated) in fs.existing;
        }
        if found {
          s := s.(source := updated);
        }
      }
      fixed := fixed + [s];
      i := i + 1;
    }
  }

  /** The measure of the mutually recursive construction: parsable files not
      yet registered only decrease, and each step down the call chain
      (construct, resolve all, resolve one) has a smaller rank. */
  ghost function Unregistered(b: Bundler, extra: set<string>): set<string>
    reads b
  {
    b.fs.sources.Keys - (b.graph.modules.Keys + extra)
  }

  /** `new Module(path, isEntry)` (module.ts lines 56-81): the module is
      registered before its dependencies are resolved, so that a cycle back to
      it finds it. */
  method NewModule(b: Bundler, path: string, isEntry: bool) returns (err: Option<BundleError>)
    requires path !in b.graph.modules
    modifies b`graph
    ensures path in b.graph.modules
    ensures var m := b.graph.modules[path];
      m.path == path && m.isEntryModule == isEntry
      && m.fileName == b.env.basename(path) && m.directory == b.env.dirname(path)
    ensures Extends(old(b.graph), b.graph)
    ensures path !in b.fs.sources <==> err == Some(ParseFailure(path))
    ensures err.Some? && err.value.ParseFailure? ==> err.value.path !in old(b.graph.modules)
    decreases Unregistered(b, {path}), if path in b.fs.sources then 6 else 0
  {
    var m := ModuleRec(path, b.env.basename(path), b.env.dirname(path), isEntry,
                       [], map[], [], {}, [], [], [], []);
    b.graph := WithModule(b.graph, path, m);
    if path !in b.fs.sources {
      return Some(ParseFailure(path));
    }
    ghost var g := b.graph;
    err := LoadModule(b, path);
    ExtendsAround(old(b.graph), g, b.graph, path);
  }

  /** The body of the constructor after registration: parse, fix imports,
      resolve dependencies, then analyse imports, exports and bindings. */
  method LoadModule(b: Bundler, path: string) returns (err: Option<BundleError>)
    requires path in b.graph.modules && path in b.fs.sources
    modifies b`graph
    ensures Grows(old(b.graph), b.graph) && KeepsDependencies(old(b.graph), b.graph, {path})
    ensures err.Some? && err.value.ParseFailure? ==> err.value.path !in old(b.graph.modules)
    decreases Unregistered(b, {}), 5
  {
    var file := b.fs.sources[path];
    var base := |b.graph.bindings|;
    var m := b.graph.modules[path];
    var body := FixImportsWithoutExtension(b.fs, b.env, m.directory, file.body);
    var scope := map x | x in file.programScope :: base + file.programScope[x];
    b.graph := b.graph.(bindings := b.graph.bindings + file.scopeBindings);
    b.graph := WithModule(b.graph, path, m.(body := body, scope := scope));
    ghost var g1 := b.graph;
    err := AnalyseDependencies(b, path, body);
    GrowsTrans(old(b.graph), g1, b.graph);
    if err.Some? {
      return;
    }
    ghost var g2 := b.graph;
    AnalyseModule(b, path, body, file.scopeBindings, base);
    GrowsTrans(old(b.graph), g2, b.graph);
  }

  /** The analyses that follow dependency resolution (module.ts lines 76-80). */
  method AnalyseModule(b: Bundler, path: string, body: seq<Stmt>, scopeBindings: seq<Binding>, base: nat)
    requires path in b.graph.modules
    modifies b`graph
    ensures Extends(old(b.graph), b.graph)
  {
    AnalyzeImports(b, path, body);
    ghost var g3 := b.graph;
    AnalyzeExports(b, path, body);
    ExportsOnlyExtends(g3, b.graph);
    ExtendsTrans(old(b.graph), g3, b.graph);
    var bindings := CollectModuleBindings(scopeBindings, base);
    var alls := CollectExternalExportAlls(body, b.graph.modules[path].dependencies);
    var cur := b.graph.modules[path];
    ghost var g4 := b.graph;
    b.graph := WithModule(b.graph, path, cur.(bindings := bindings, externalExportAlls := alls));
    WithModuleExtends(g4, path, cur.(bindings := bindings, externalExportAlls := alls));
    ExtendsTrans(old(b.graph), g4, b.graph);
  }

  /** analyseDependencies (module.ts lines 105-125): every import, re-export
      and `export *` source is resolved and stored under its specifier; the
      first failure aborts the construction. Only the dependency table of
      `path` itself changes among the modules already registered. */
  method AnalyseDependencies(b: Bundler, path: string, body: seq<Stmt>) returns (err: Option<BundleError>)
    requires path in b.graph.modules
    modifies b`graph
    ensures Grows(old(b.graph), b.graph) && KeepsDependencies(old(b.graph), b.graph, {path})
    ensures err.None? ==>
      StoredUpTo(b.graph.modules[path].dependencies, b.env, old(b.graph.modules[path].directory), body, |body|)
    ensures err.Some? && err.value.ParseFailure? ==> err.value.path !in old(b.graph.modules)
    decreases Unregistered(b, {}), 4
  {
    ghost var dir := b.graph.modules[path].directory;
    var i := 0;
    while i < |body|
      invariant i <= |body|
      invariant Grows(old(b.graph), b.graph) && KeepsDependencies(old(b.graph), b.graph, {path})
      invariant b.graph.modules[path].directory == dir
      invariant StoredUpTo(b.graph.modules[path].dependencies, b.env, dir, body, i)
    {
      var src := SourceOf(body[i]);
      ghost var deps := b.graph.modules[path].dependencies;
      if src.Some? {
        ghost var g := b.graph;
        err := AddDependency(b, path, src.value);
        GrowsTrans(old(b.graph), g, b.graph);
        if err.Some? {
          return;
        }
      }
      StoredStep(deps, b.env, dir, body, i);
      i := i + 1;
    }
    return None;
  }

  /** Each of the first `i` statements of `body` with a source has that
      source stored in `deps` as the dependency it resolves to. */
  ghost predicate StoredUpTo(deps: Table<Dep>, env: Env, dir: string, body: seq<Stmt>, i: nat) {
    forall j :: 0 <= j < i && j < |body| && SourceOf(body[j]).Some? ==>
      Get(deps, SourceOf(body[j]).value) == Some(DependencyFor(env, dir, SourceOf(body[j]).value))
  }

  lemma StoredStep(deps: Table<Dep>, env: Env, dir: string, body: seq<Stmt>, i: nat)
    requires StoredUpTo(deps, env, dir, body, i) && i < |body|
    ensures var src := SourceOf(body[i]);
      StoredUpTo(if src.Some? then Put(deps, src.value, DependencyFor(env, dir, src.value)) else deps,
                 env, dir, body, i + 1)
  {
  }

  /** One step of analyseDependencies: resolve `spec` and store the result in
      the dependency table of `path`. */
  method AddDependency(b: Bundler, path: string, spec: string) returns (err: Option<BundleError>)
    requires path in b.graph.modules
    modifies b`graph
    ensures Grows(old(b.graph), b.graph) && KeepsDependencies(old(b.graph), b.graph, {path})
    ensures err.None? ==>
      b.graph.modules[path].dependencies
        == Put(old(b.graph.modules[path].dependencies), spec, DependencyFor(b.env, old(b.graph.modules[path].directory), spec))
    ensures err.Some? && err.value.ParseFailure? ==> err.value.path !in old(b.graph.modules)
    decreases Unregistered(b, {}), 3
  {
    var r := GetDependencyModule(b, path, spec);
    if r.Failure? {
      return Some(r.error);
    }
    var cur := b.graph.modules[path];
    assert r.value == DependencyFor(b.env, cur.directory, spec);
    b.graph := WithModule(b.graph, path, cur.(dependencies := Put(cur.dependencies, spec, r.value)));
    return None;
  }

  /** getDependencyModule (module.ts lines 143-190): a relative or absolute
      specifier names an internal module, anything else an external one. */
  method GetDependencyModule(b: Bundler, importer: string, spec: string) returns (r: Result<Dep>)
    requires importer in b.graph.modules
    modifies b`graph
    ensures Extends(old(b.graph), b.graph)
    ensures !IsRelative(spec) ==>
      && r == Success(External(spec))
      && b.graph.modules.Keys == old(b.graph.modules.Keys)
      && Has(b.graph.externals, spec)
      && importer in DependentsOf(b.graph, External(spec))
      && (Has(old(b.graph.externals), spec) ==> Keys(b.graph.externals) == Keys(old(b.graph.externals)))
    ensures IsRelative(spec) ==> ResolvedRelative(old(b.graph), b.graph, b.fs, b.env, importer, spec, r)
    ensures r.Failure? && r.error.ParseFailure? ==> r.error.path !in old(b.graph.modules)
    decreases Unregistered(b, {}), 2
  {
    if IsRelative(spec) {
      r := ResolveRelative(b, importer, spec);
    } else {
      ResolveExternal(b, importer, spec);
      r := Success(External(spec));
    }
  }

  /** What resolving a relative specifier promises (module.ts lines 147-177
      and checkCircularDependency, lines 127-141): a missing file is a
      resolution error; otherwise the target is registered, the importer is
      among its dependents, and the result is an error exactly when the
      importer is reachable from the target. */
  ghost predicate ResolvedRelative(g0: Graph, g1: Graph, fs: FileSystem, env: Env,
                                   importer: string, spec: string, r: Result<Dep>)
    requires importer in g0.modules
  {
    var m := g0.modules[importer];
    var target := env.join(m.directory, spec);
    && (!ExistsFrom(fs, env, m.directory, spec) ==> r == Failure(ModuleNotFound(spec, m.fileName)))
    && (r.Success? ==>
        && r.value == Internal(target)
        && target in g1.modules
        && importer in DependentsOf(g1, r.value)
        && CircularChain(g1, importer, target).None?)
    && (ExistsFrom(fs, env, m.directory, spec) && target in g0.modules ==>
        && g1.modules.Keys == g0.modules.Keys
        && (r.Failure? <==> CircularChain(g1, importer, target).Some?)
        && (r.Failure? ==> r.error == CircularDependency(CircularChain(g1, importer, target).value)))
  }

  method ResolveRelative(b: Bundler, importer: string, spec: string) returns (r: Result<Dep>)
    requires importer in b.graph.modules && IsRelative(spec)
    modifies b`graph
    ensures Extends(old(b.graph), b.graph)
    ensures ResolvedRelative(old(b.graph), b.graph, b.fs, b.env, importer, spec, r)
    ensures r.Failure? && r.error.ParseFailure? ==> r.error.path !in old(b.graph.modules)
    decreases Unregistered(b, {}), 1
  {
    var m := b.graph.modules[importer];
    var found := false;
    if StartsWith(spec, "/") {
      found := spec in b.fs.existing;
    } else if StartsWith(spec, ".") {
      found := b.env.join(m.directory, spec) in b.fs.existing;
    }
    if !found {
      return Failure(ModuleNotFound(spec, m.fileName));
    }
    var target := b.env.join(m.directory, spec);
    if target !in b.graph.modules {
      var err := NewModule(b, target, false);
      if err.Some? {
        return Failure(err.value);
      }
    }
    ghost var g := b.graph;
    r := LinkDependent(b, importer, target);
    ExtendsTrans(old(b.graph), g, b.graph);
  }

  /** `dependency.dependents.add(...)`, then checkCircularDependency
      (module.ts lines 156-172 and 127-141). */
  method LinkDependent(b: Bundler, importer: string, target: string) returns (r: Result<Dep>)
    requires importer in b.graph.modules && target in b.graph.modules
    modifies b`graph
    ensures Extends(old(b.graph), b.graph)
    ensures b.graph.modules.Keys == old(b.graph.modules.Keys)
    ensures importer in DependentsOf(b.graph, Internal(target))
    ensures r.Success? <==> CircularChain(b.graph, importer, target).None?
    ensures r.Success? ==> r.value == Internal(target)
    ensures r.Failure? ==> r.error == CircularDependency(CircularChain(b.graph, importer, target).value)
  {
    b.graph := WithDependent(b.graph, Internal(target), importer);
    var chain := CircularChain(b.graph, importer, target);
    if chain.Some? {
      return Failure(CircularDependency(chain.value));
    }
    return Success(Internal(target));
  }

  /** The bare-specifier branch of getDependencyModule (module.ts lines
      178-189): the external module is registered once and gains the
      importer as a dependent. */
  method ResolveExternal(b: Bundler, importer: string, spec: string)
    modifies b`graph
    ensures Extends(old(b.graph), b.graph)
    ensures b.graph.modules.Keys == old(b.graph.modules.Keys)
    ensures Has(b.graph.externals, spec)
    ensures importer in DependentsOf(b.graph, External(spec))
    ensures Has(old(b.graph.externals), spec) ==> Keys(b.graph.externals) == Keys(old(b.graph.externals))
  {
    if !Has(b.graph.externals, spec) {
      b.graph := b.graph.(externals := Put(b.graph.externals, spec, ExternalRec(spec, [], {})));
    }
    ghost var g := b.graph;
    b.graph := WithDependent(b.graph, External(spec), importer);
    ExtendsTrans(old(b.graph), g, b.graph);
  }

  /** `path.scope.getBinding(name)` at program scope. */
  function Lookup(scope: map<string, BindingId>, x: string): Option<BindingId> {
    if x in scope then Some(scope[x]) else None
  }

  /** analyzeBindings (module.ts lines 563-579) keeps the bindings declared by
      `const`, `let`, `var` or a function declaration. */
  predicate DeclaredWithinModule(kind: BindingKind) {
    kind == ConstKind || kind == HoistedKind || kind == LetKind || kind == VarKind
  }

  /** analyzeBindings: the scope bindings of the file (stored in the arena
      from position `base`) declared within the module, each once, in order. */
  method CollectModuleBindings(scopeBindings: seq<Binding>, base: nat) returns (ids: seq<BindingId>)
    ensures forall id :: id in ids <==>
      base <= id < base + |scopeBindings| && DeclaredWithinModule(scopeBindings[id - base].kind)
    ensures forall i, j :: 0 <= i < j < |ids| ==> ids[i] < ids[j]
  {
    ids := [];
    var i := 0;
    while i < |scopeBindings|
      invariant i <= |scopeBindings|
      invariant forall id :: id in ids <==> base <= id < base + i && DeclaredWithinModule(scopeBindings[id - base].kind)
      invariant forall k, l :: 0 <= k < l < |ids| ==> ids[k] < ids[l]
      invariant forall k :: 0 <= k < |ids| ==> ids[k] < base + i
    {
      if DeclaredWithinModule(scopeBindings[i].kind) {
        ids := ids + [base + i];
      }
      i := i + 1;
    }
  }

  predicate IsExternal(d: Option<Dep>) {
    d.Some? && d.value.External?
  }

  /** The sources of the `export * from` statements whose dependency is
      external, one per statement, in statement order. */
  function ExternalExportAllSources(body: seq<Stmt>, deps: Table<Dep>): (srcs: seq<string>)
    ensures forall s :: s in srcs <==> ExportAll(s) in body && IsExternal(Get(deps, s))
    ensures |srcs| <= |body|
  {
    if body == [] then []
    else
      var init := body[..|body| - 1];
      var last := body[|body| - 1];
      assert forall x :: x in body <==> x in init || x == last;
      var rest := ExternalExportAllSources(init, deps);
      if last.ExportAll? && IsExternal(Get(deps, last.allFrom)) then rest + [last.allFrom] else rest
  }

  /** analyzeExternalExportAlls (module.ts lines 581-590). */
  method CollectExternalExportAlls(body: seq<Stmt>, deps: Table<Dep>) returns (alls: seq<string>)
    ensures alls == ExternalExportAllSources(body, deps)
  {
    alls := [];
    var i := 0;
    while i < |body|
      invariant i <= |body|
      invariant alls == ExternalExportAllSources(body[..i], deps)
    {
      assert body[..i + 1][..i] == body[..i];
      var s := body[i];
      if s.ExportAll? && IsExternal(Get(deps, s.allFrom)) {
        alls := alls + [s.allFrom];
      }
      i := i + 1;
    }
    assert body[..|body|] == body;
  }

  /** The name an import specifier asks for. */
  function ImportedName(spec: ImportSpec): string {
    match spec
    case ImportDefault(_) => "default"
    case ImportNamespace(_) => "*"
    case ImportNamed(n, _) => NameText(n)
  }

  /** The `importBindings` entry of one specifier (module.ts lines 434-457). */
  function ImportBindingOf(m: ModuleRec, env: Env, src: string, spec: ImportSpec): ImportBinding {
    var dep := Get(m.dependencies, src);
    ImportBinding(
      ImportedName(spec),
      if IsExternal(dep) then src else env.join(m.directory, src),
      Lookup(m.scope, spec.local))
  }

  /** The record an import registers on an external module the first time
      it asks for that name (module.ts lines 460-495). */
  function ExternalImportRecord(spec: ImportSpec, external: string): ExportRecord {
    match spec
    case ImportDefault(x) => ExportRecord("default", x, external, None)
    case ImportNamespace(x) => ExportRecord("*", x, external, None)
    case ImportNamed(_, x) => ExportRecord(x, x, external, None)
  }

  /** analyzeImports for one import declaration (module.ts lines 430-559). */
  method AnalyzeImport(b: Bundler, path: string, src: string, specs: seq<ImportSpec>)
    requires path in b.graph.modules
    modifies b`graph
    ensures Extends(old(b.graph), b.graph)
    ensures var m := old(b.graph.modules[path]);
      b.graph.modules[path].importBindings ==
        m.importBindings + seq(|specs|, i requires 0 <= i < |specs| => ImportBindingOf(m, b.env, src, specs[i]))
    ensures var dep := Get(old(b.graph.modules[path].dependencies), src);
      dep.Some? ==> KeepsEntries(old(b.graph), b.graph, dep.value)
    ensures var dep := Get(old(b.graph.modules[path].dependencies), src);
      IsExternal(dep) && Registered(old(b.graph), dep.value) ==>
        forall i :: 0 <= i < |specs| ==> Has(ExportsOf(b.graph, dep.value), ImportedName(specs[i]))
    ensures var dep := Get(old(b.graph.modules[path].dependencies), src);
      IsExternal(dep) && Registered(old(b.graph), dep.value) ==>
        forall i :: 0 <= i < |specs| && NewlyAsked(ExportsOf(old(b.graph), dep.value), specs, i) ==>
          HoldsRecord(b.graph, dep.value, ImportedName(specs[i]), ExternalImportRecord(specs[i], dep.value.specifier))
    ensures var dep := Get(old(b.graph.modules[path].dependencies), src);
      dep.Some? && dep.value.Internal? && Registered(old(b.graph), dep.value)
      && (exists i :: 0 <= i < |specs| && specs[i].ImportNamespace?) ==>
        Has(ExportsOf(b.graph, dep.value), "*")
  {
    ghost var g0 := b.graph;
    var dep := Get(b.graph.modules[path].dependencies, src);
    RecordImportBindings(b, path, src, specs);
    ghost var g1 := b.graph;
    if dep.Some? && dep.value.External? {
      RegisterExternalImports(b, dep.value, specs);
    } else if dep.Some? {
      ResolveThroughExternalExportAll(b, dep.value, specs);
      ghost var g2 := b.graph;
      MaterializeNamespace(b, dep.value, specs);
      KeepsEntriesTrans(g1, g2, b.graph, dep.value);
      ExportsOnlyTrans(g1, g2, b.graph);
    }
    ExportsOnlyExtends(g1, b.graph);
    ExtendsTrans(g0, g1, b.graph);
    ExportsOnlyKeepsImports(g1, b.graph, path);
  }

  /** A change to export tables leaves a module's import bindings alone. */
  lemma ExportsOnlyKeepsImports(g1: Graph, g2: Graph, path: string)
    requires ExportsOnly(g1, g2) && path in g1.modules
    ensures path in g2.modules && g2.modules[path].importBindings == g1.modules[path].importBindings
  {
  }

  /** Each specifier adds one `importBindings` entry (module.ts lines
      434-457); nothing else changes. */
  method RecordImportBindings(b: Bundler, path: string, src: string, specs: seq<ImportSpec>)
    requires path in b.graph.modules
    modifies b`graph
    ensures Extends(old(b.graph), b.graph)
    ensures b.graph.modules.Keys == old(b.graph.modules.Keys)
    ensures var m := old(b.graph.modules[path]);
      b.graph.modules[path] == m.(importBindings :=
        m.importBindings + seq(|specs|, i requires 0 <= i < |specs| => ImportBindingOf(m, b.env, src, specs[i])))
    ensures forall d :: ExportsOf(b.graph, d) == ExportsOf(old(b.graph), d)
    ensures forall d :: Registered(b.graph, d) == Registered(old(b.graph), d)
  {
    var m := b.graph.modules[path];
    var added := [];
    var i := 0;
    while i < |specs|
      invariant i <= |specs| && |added| == i
      invariant forall j :: 0 <= j < i ==> added[j] == ImportBindingOf(m, b.env, src, specs[j])
    {
      added := added + [ImportBindingOf(m, b.env, src, specs[i])];
      i := i + 1;
    }
    b.graph := WithModule(b.graph, path, m.(importBindings := m.importBindings + added));
    assert added == seq(|specs|, i requires 0 <= i < |specs| => ImportBindingOf(m, b.env, src, specs[i]));
  }

  /** An import from an external module registers each name it asks for
      the first time that name is seen (module.ts lines 459-498). */
  method RegisterExternalImports(b: Bundler, d: Dep, specs: seq<ImportSpec>)
    requires d.External?
    modifies b`graph
    ensures ExportsOnly(old(b.graph), b.graph)
    ensures KeepsEntries(old(b.graph), b.graph, d)
    ensures Registered(old(b.graph), d) ==>
      forall i :: 0 <= i < |specs| ==> Has(ExportsOf(b.graph, d), ImportedName(specs[i]))
    ensures Registered(old(b.graph), d) ==>
      forall i :: 0 <= i < |specs| && NewlyAsked(ExportsOf(old(b.graph), d), specs, i) ==>
        HoldsRecord(b.graph, d, ImportedName(specs[i]), ExternalImportRecord(specs[i], d.specifier))
    ensures forall k :: k !in AskedNames(specs, |specs|) ==> Get(ExportsOf(b.graph, d), k) == Get(ExportsOf(old(b.graph), d), k)
  {
    var i := 0;
    while i < |specs|
      invariant i <= |specs|
      invariant ExternalImportsRegistered(old(b.graph), b.graph, d, specs, i)
      invariant ExternalImportRecordsHeld(old(b.graph), b.graph, d, specs, i)
    {
      ghost var g := b.graph;
      b.graph := PutNewRecordIfAbsent(b.graph, d, ImportedName(specs[i]), ExternalImportRecord(specs[i], d.specifier));
      RegisterExternalImportStep(old(b.graph), g, d, specs, i);
      ExternalImportRecordStep(old(b.graph), g, d, specs, i);
      i := i + 1;
    }
  }

  /** The names the first `i` specifiers ask for. */
  function AskedNames(specs: seq<ImportSpec>, i: nat): set<string>
    requires i <= |specs|
  {
    set j | 0 <= j < i :: ImportedName(specs[j])
  }

  lemma AskedNamesSnoc(specs: seq<ImportSpec>, i: nat)
    requires i < |specs|
    ensures AskedNames(specs, i + 1) == AskedNames(specs, i) + {ImportedName(specs[i])}
  {
    forall k | k in AskedNames(specs, i + 1) ensures k in AskedNames(specs, i) + {ImportedName(specs[i])} {
      var j :| 0 <= j < i + 1 && ImportedName(specs[j]) == k;
      if j < i {
        assert ImportedName(specs[j]) in AskedNames(specs, i);
      }
    }
    forall k | k in AskedNames(specs, i) ensures k in AskedNames(specs, i + 1) {
      var j :| 0 <= j < i && ImportedName(specs[j]) == k;
      assert ImportedName(specs[j]) in AskedNames(specs, i + 1);
    }
    assert ImportedName(specs[i]) in AskedNames(specs, i + 1);
  }

  /** Specifier `i` asks for a name that neither the table `t` nor an earlier
      specifier has: it is the one that creates the entry. */
  predicate NewlyAsked(t: Table<RecordId>, specs: seq<ImportSpec>, i: nat)
    requires i < |specs|
  {
    !Has(t, ImportedName(specs[i])) && ImportedName(specs[i]) !in AskedNames(specs, i)
  }

  /** The second loop invariant of RegisterExternalImports: each name created
      so far holds the record of the specifier that created it, and no other
      key has moved. */
  ghost predicate ExternalImportRecordsHeld(g0: Graph, g: Graph, d: Dep, specs: seq<ImportSpec>, i: nat)
    requires i <= |specs|
  {
    && g0.records <= g.records
    && (forall k :: k !in AskedNames(specs, i) ==> Get(ExportsOf(g, d), k) == Get(ExportsOf(g0, d), k))
    && (Registered(g0, d) ==>
          forall j :: 0 <= j < i && NewlyAsked(ExportsOf(g0, d), specs, j) ==>
            HoldsRecord(g, d, ImportedName(specs[j]), ExternalImportRecord(specs[j], PathOf(d))))
  }

  lemma ExternalImportRecordStep(g0: Graph, g: Graph, d: Dep, specs: seq<ImportSpec>, i: nat)
    requires i < |specs| && ExternalImportRecordsHeld(g0, g, d, specs, i)
    requires Registered(g0, d) ==> Registered(g, d)
    ensures ExternalImportRecordsHeld(g0,
      PutNewRecordIfAbsent(g, d, ImportedName(specs[i]), ExternalImportRecord(specs[i], PathOf(d))), d, specs, i + 1)
  {
    var name := ImportedName(specs[i]);
    var r := ExternalImportRecord(specs[i], PathOf(d));
    var g' := PutNewRecordIfAbsent(g, d, name, r);
    AskedNamesSnoc(specs, i);
    OtherKeysStay(ExportsOf(g0, d), ExportsOf(g, d), ExportsOf(g', d), AskedNames(specs, i), name);
    if Registered(g0, d) {
      PutKeepsHeld(g, d, name, r);
      if !Has(ExportsOf(g, d), name) {
        HeldByPut(g, d, name, r);
      }
      HeldStep(g0, g, g', d, specs, i);
    }
  }

  /** The names created before specifier `i` stay held, and its own name is
      held once it is created. */
  lemma HeldStep(g0: Graph, g: Graph, g': Graph, d: Dep, specs: seq<ImportSpec>, i: nat)
    requires i < |specs|
    requires forall j :: 0 <= j < i && NewlyAsked(ExportsOf(g0, d), specs, j) ==>
      HoldsRecord(g, d, ImportedName(specs[j]), ExternalImportRecord(specs[j], PathOf(d)))
    requires forall k :: k !in AskedNames(specs, i) ==> Get(ExportsOf(g, d), k) == Get(ExportsOf(g0, d), k)
    requires forall k, r :: HoldsRecord(g, d, k, r) ==> HoldsRecord(g', d, k, r)
    requires !Has(ExportsOf(g, d), ImportedName(specs[i])) ==>
      HoldsRecord(g', d, ImportedName(specs[i]), ExternalImportRecord(specs[i], PathOf(d)))
    ensures forall j :: 0 <= j < i + 1 && NewlyAsked(ExportsOf(g0, d), specs, j) ==>
      HoldsRecord(g', d, ImportedName(specs[j]), ExternalImportRecord(specs[j], PathOf(d)))
  {
    if NewlyAsked(ExportsOf(g0, d), specs, i) {
      assert Get(ExportsOf(g, d), ImportedName(specs[i])) == Get(ExportsOf(g0, d), ImportedName(specs[i]));
    }
  }

  /** Registering a name if absent keeps every held record. */
  lemma PutKeepsHeld(g: Graph, d: Dep, name: string, r': ExportRecord)
    ensures forall k, r :: HoldsRecord(g, d, k, r) ==> HoldsRecord(PutNewRecordIfAbsent(g, d, name, r'), d, k, r)
  {
    forall k, r | HoldsRecord(g, d, k, r) ensures HoldsRecord(PutNewRecordIfAbsent(g, d, name, r'), d, k, r) {
      HeldThroughPut(g, d, k, r, name, r');
    }
  }

  lemma OtherKeysStay(t0: Table<RecordId>, t: Table<RecordId>, t': Table<RecordId>, asked: set<string>, name: string)
    requires forall k :: k !in asked ==> Get(t, k) == Get(t0, k)
    requires forall k :: k != name ==> Get(t', k) == Get(t, k)
    ensures forall k :: k !in asked + {name} ==> Get(t', k) == Get(t0, k)
  {
  }

  /** A held record stays held when another name is registered if absent. */
  lemma HeldThroughPut(g: Graph, d: Dep, k: string, r: ExportRecord, name: string, r': ExportRecord)
    requires HoldsRecord(g, d, k, r)
    ensures HoldsRecord(PutNewRecordIfAbsent(g, d, name, r'), d, k, r)
  {
    var g' := PutNewRecordIfAbsent(g, d, name, r');
    if k != name {
      HoldsRecordKept(g, g', d, k, r);
    }
  }

  /** Registering an absent name on a registered dependency holds the new record. */
  lemma HeldByPut(g: Graph, d: Dep, name: string, r: ExportRecord)
    requires Registered(g, d) && !Has(ExportsOf(g, d), name)
    ensures HoldsRecord(PutNewRecordIfAbsent(g, d, name, r), d, name, r)
  {
  }

  /** The loop invariant of RegisterExternalImports after `i` specifiers. */
  ghost predicate ExternalImportsRegistered(g0: Graph, g: Graph, d: Dep, specs: seq<ImportSpec>, i: nat)
    requires i <= |specs|
  {
    && ExportsOnly(g0, g)
    && KeepsEntries(g0, g, d)
    && (Registered(g0, d) ==> forall j :: 0 <= j < i ==> Has(ExportsOf(g, d), ImportedName(specs[j])))
  }

  /** Registering the name of one more specifier keeps the loop invariant. */
  lemma RegisterExternalImportStep(g0: Graph, g: Graph, d: Dep, specs: seq<ImportSpec>, i: nat)
    requires i < |specs| && ExternalImportsRegistered(g0, g, d, specs, i)
    ensures ExternalImportsRegistered(g0,
      PutNewRecordIfAbsent(g, d, ImportedName(specs[i]), ExternalImportRecord(specs[i], PathOf(d))), d, specs, i + 1)
  {
    var g' := PutNewRecordIfAbsent(g, d, ImportedName(specs[i]), ExternalImportRecord(specs[i], PathOf(d)));
    ExportsOnlyTrans(g0, g, g');
    KeepsEntriesTrans(g0, g, g', d);
    if Registered(g0, d) {
      assert Registered(g, d);
      RegisterExternalImportHas(g, d, specs, i);
    }
  }

  /** The names registered before stay registered, and the new one joins them. */
  lemma RegisterExternalImportHas(g: Graph, d: Dep, specs: seq<ImportSpec>, i: nat)
    requires i < |specs| && Registered(g, d)
    requires forall j :: 0 <= j < i ==> Has(ExportsOf(g, d), ImportedName(specs[j]))
    ensures var g' := PutNewRecordIfAbsent(g, d, ImportedName(specs[i]), ExternalImportRecord(specs[i], PathOf(d)));
      forall j :: 0 <= j < i + 1 ==> Has(ExportsOf(g', d), ImportedName(specs[j]))
  {
    var g' := PutNewRecordIfAbsent(g, d, ImportedName(specs[i]), ExternalImportRecord(specs[i], PathOf(d)));
    ImportedNamesKept(ExportsOf(g, d), ExportsOf(g', d), specs, i);
  }

  /** A table that gained the name of specifier `i` and reads every other key
      as before still has the names of the specifiers before it. */
  lemma ImportedNamesKept(t: Table<RecordId>, t': Table<RecordId>, specs: seq<ImportSpec>, i: nat)
    requires i < |specs| && Has(t', ImportedName(specs[i]))
    requires forall k :: k != ImportedName(specs[i]) ==> Get(t', k) == Get(t, k)
    requires forall j :: 0 <= j < i ==> Has(t, ImportedName(specs[j]))
    ensures forall j :: 0 <= j < i + 1 ==> Has(t', ImportedName(specs[j]))
  {
    forall j | 0 <= j < i + 1 ensures Has(t', ImportedName(specs[j])) {
      if ImportedName(specs[j]) != ImportedName(specs[i]) {
        assert Get(t', ImportedName(specs[j])) == Get(t, ImportedName(specs[j]));
      }
    }
  }

  /** A named import that an internal dependency does not export, when that
      dependency has an external `export *`, is registered on the first such
      external module and shared into the dependency's table (module.ts
      lines 500-530). */
  method ResolveThroughExternalExportAll(b: Bundler, d: Dep, specs: seq<ImportSpec>)
    requires d.Internal?
    modifies b`graph
    ensures ExportsOnly(old(b.graph), b.graph)
    ensures KeepsEntries(old(b.graph), b.graph, d)
  {
    var i := 0;
    while i < |specs|
      invariant i <= |specs|
      invariant ExportsOnly(old(b.graph), b.graph)
      invariant KeepsEntries(old(b.graph), b.graph, d)
    {
      var spec := specs[i];
      if spec.ImportNamed? && d.path in b.graph.modules {
        var name := NameText(spec.imported);
        var dm := b.graph.modules[d.path];
        if !Has(ExportsOf(b.graph, d), name) && |dm.externalExportAlls| > 0 {
          var via := Get(dm.dependencies, dm.externalExportAlls[0]);
          if via.Some? && via.value.External? {
            var e := via.value;
            ghost var g := b.graph;
            b.graph := PutNewRecordIfAbsent(b.graph, e, name, ExportRecord(spec.local, spec.local, e.specifier, None));
            b.graph := ShareRecord(b.graph, d, name, e, name);
            ResolveThroughStep(old(b.graph), g, d, e, name, ExportRecord(spec.local, spec.local, e.specifier, None));
          }
        }
      }
      i := i + 1;
    }
  }

  /** Sharing an external module's record under a key `d` lacks keeps the
      entries `d` had. */
  lemma ResolveThroughStep(g0: Graph, g: Graph, d: Dep, e: Dep, name: string, r: ExportRecord)
    requires ExportsOnly(g0, g) && KeepsEntries(g0, g, d)
    requires !Has(ExportsOf(g, d), name) && d != e
    ensures var g' := ShareRecord(PutNewRecordIfAbsent(g, e, name, r), d, name, e, name);
      ExportsOnly(g0, g') && KeepsEntries(g0, g', d)
  {
    var g1 := PutNewRecordIfAbsent(g, e, name, r);
    var g2 := ShareRecord(g1, d, name, e, name);
    ExportsOnlyTrans(g0, g, g1);
    ExportsOnlyTrans(g0, g1, g2);
    forall k | Has(ExportsOf(g0, d), k) ensures Get(ExportsOf(g2, d), k) == Get(ExportsOf(g0, d), k) {
      assert Get(ExportsOf(g, d), k) == Get(ExportsOf(g0, d), k);
      assert k != name;
    }
  }

  /** A namespace import of an internal module without a `'*'` record
      creates one, named after the first namespace specifier, and gives each
      external module the dependency re-exports with `export *` its own
      `'*'` record if it has none (module.ts lines 532-558). */
  method MaterializeNamespace(b: Bundler, d: Dep, specs: seq<ImportSpec>)
    requires d.Internal?
    modifies b`graph
    ensures ExportsOnly(old(b.graph), b.graph)
    ensures KeepsEntries(old(b.graph), b.graph, d)
    ensures Registered(old(b.graph), d) && (exists j :: 0 <= j < |specs| && specs[j].ImportNamespace?) ==>
      Has(ExportsOf(b.graph, d), "*")
  {
    if (exists j :: 0 <= j < |specs| && specs[j].ImportNamespace?) && !Has(ExportsOf(b.graph, d), "*") {
      var first := FirstNamespaceLocal(specs);
      b.graph := PutNewRecord(b.graph, d, "*", ExportRecord("*", first, d.path, None));
      if d.path in b.graph.modules {
        var dm := b.graph.modules[d.path];
        var alls := dm.externalExportAlls;
        var i := 0;
        while i < |alls|
          invariant i <= |alls|
          invariant ExportsOnly(old(b.graph), b.graph)
          invariant KeepsEntries(old(b.graph), b.graph, d)
          invariant Has(ExportsOf(b.graph, d), "*")
        {
          var via := Get(dm.dependencies, alls[i]);
          if via.Some? && via.value.External? {
            ghost var g := b.graph;
            GiveExternalNamespace(b, d, via.value);
            ExportsOnlyTrans(old(b.graph), g, b.graph);
            KeepsEntriesTrans(old(b.graph), g, b.graph, d);
          }
          i := i + 1;
        }
      }
    }
  }

  /** The external module `e` gets its own `'*'` record if it has none. */
  method GiveExternalNamespace(b: Bundler, d: Dep, e: Dep)
    requires d.Internal? && e.External? && Has(ExportsOf(b.graph, d), "*")
    modifies b`graph
    ensures ExportsOnly(old(b.graph), b.graph) && KeepsEntries(old(b.graph), b.graph, d)
    ensures Has(ExportsOf(b.graph, d), "*")
    ensures Registered(old(b.graph), e) ==> Has(ExportsOf(b.graph, e), "*")
  {
    b.graph := PutNewRecordIfAbsent(b.graph, e, "*", ExportRecord("*", b.env.makeLegal(e.specifier), e.specifier, None));
  }

  /** The local name of the first namespace specifier. */
  function FirstNamespaceLocal(specs: seq<ImportSpec>): (x: string)
    requires exists j :: 0 <= j < |specs| && specs[j].ImportNamespace?
    ensures exists j :: (0 <= j < |specs| && specs[j].ImportNamespace? && specs[j].local == x
      && forall l :: 0 <= l < j ==> !specs[l].ImportNamespace?)
  {
    if specs[0].ImportNamespace? then specs[0].local
    else
      assert exists j :: 0 <= j < |specs[1..]| && specs[1..][j].ImportNamespace? by {
        var j :| 0 <= j < |specs| && specs[j].ImportNamespace?;
        assert specs[1..][j - 1] == specs[j];
      }
      var x := FirstNamespaceLocal(specs[1..]);
      ghost var j :| (0 <= j < |specs[1..]| && specs[1..][j].ImportNamespace? && specs[1..][j].local == x
        && forall l :: 0 <= l < j ==> !specs[1..][l].ImportNamespace?);
      assert specs[j + 1] == specs[1..][j];
      x
  }

  /** analyzeImports (module.ts lines 428-561). */
  method AnalyzeImports(b: Bundler, path: string, body: seq<Stmt>)
    requires path in b.graph.modules
    modifies b`graph
    ensures Extends(old(b.graph), b.graph)
  {
    var i := 0;
    while i < |body|
      invariant i <= |body|
      invariant Extends(old(b.graph), b.graph)
    {
      if body[i].ImportDecl? {
        AnalyzeImport(b, path, body[i].source, body[i].specifiers);
      }
      i := i + 1;
    }
  }


  /** The record of a name declared in this module, exported under that name
      or an alias (module.ts lines 206-263, 329-359). */
  function LocalRecord(m: ModuleRec, x: string): ExportRecord {
    ExportRecord(x, x, m.path, Lookup(m.scope, x))
  }

  /** The identifier an `export { local as exported } from '<external>'`
      registers (module.ts lines 311-316). */
  function ExternalReexportIdentifier(env: Env, local: string, exported: string): string {
    if local == "default" then env.makeLegal(exported)
    else if env.isIllegalIdentifier(local) then env.makeLegal(local)
    else local
  }

  /** `export * as ns from src` (module.ts lines 279-294): the dependency's
      `'*'` record, created if absent, is shared under the name `ns`. */
  function NamespaceReexport(g: Graph, env: Env, path: string, m: ModuleRec, d: Dep, exported: Name): (g': Graph)
    ensures ExportsOnly(g, g')
    ensures d != Internal(path) ==> KeepsEntries(g, g', d)
    ensures Registered(g, d) && Registered(g, Internal(path)) && d != Internal(path) ==>
      && Has(ExportsOf(g', d), "*")
      && Get(ExportsOf(g', Internal(path)), NameText(exported)) == Get(ExportsOf(g', d), "*")
  {
    var name := if exported.Id? then exported.name else env.makeLegal(m.fileName);
    var g1 := PutNewRecordIfAbsent(g, d, "*", ExportRecord("*", name, PathOf(d), None));
    var r := ShareRecord(g1, Internal(path), NameText(exported), d, "*");
    ExportsOnlyTrans(g, g1, r);
    if d != Internal(path) then KeepsEntriesTrans(g, g1, r, d); r else r
  }

  /** `export { local as exported }` with or without a source (module.ts
      lines 295-363). The source's four branches collapse: with a source,
      each reads the dependency's entry under the local name (the two
      non-aliased branches have local == exported); without one, each creates
      a record of the local name (`default` needs a source, otherwise the
      statement does not parse). Reading a name the dependency lacks leaves
      the table as it was. */
  function SpecifierExport(g: Graph, env: Env, path: string, m: ModuleRec, dep: Option<Dep>, local: Name, exported: Name): (g': Graph)
    ensures ExportsOnly(g, g')
    ensures dep.Some? && dep.value != Internal(path) ==> KeepsEntries(g, g', dep.value)
    ensures dep.None? && NameText(local) != "default" && Registered(g, Internal(path)) ==>
      var id := Get(ExportsOf(g', Internal(path)), NameText(exported));
      id == Some(|g.records|) && RecordAt(g', id.value) == LocalRecord(m, NameText(local))
    ensures (dep.Some? && dep.value.External? && Registered(g, dep.value) && Registered(g, Internal(path))) ==>
      Get(ExportsOf(g', Internal(path)), NameText(exported)) == Get(ExportsOf(g', dep.value), NameText(local))
    ensures (dep.Some? && dep.value.Internal? && Registered(g, Internal(path)) && Has(ExportsOf(g, dep.value), NameText(local))) ==>
      Get(ExportsOf(g', Internal(path)), NameText(exported)) == Get(ExportsOf(g, dep.value), NameText(local))
    ensures dep.Some? && dep.value.Internal? && !Has(ExportsOf(g, dep.value), NameText(local)) ==> g' == g
  {
    var self := Internal(path);
    var ln := NameText(local);
    var en := NameText(exported);
    var g1 := RegisterReexportedExternal(g, env, dep, ln, en);
    var r := if dep.None? then
        if ln == "default" then g1 else PutNewRecord(g1, self, en, LocalRecord(m, ln))
      else ShareRecord(g1, self, en, dep.value, ln);
    ExportsOnlyTrans(g, g1, r);
    if dep.Some? && dep.value != self then KeepsEntriesTrans(g, g1, r, dep.value); r else r
  }

  /** `export { local as exported } from '<external>'` registers `local` on
      the external module the first time it is seen (module.ts lines
      306-320). */
  function RegisterReexportedExternal(g: Graph, env: Env, dep: Option<Dep>, ln: string, en: string): (g': Graph)
    ensures ExportsOnly(g, g')
    ensures dep.Some? ==> KeepsEntries(g, g', dep.value)
    ensures forall d :: Some(d) != dep ==> ExportsOf(g', d) == ExportsOf(g, d)
    ensures dep.Some? && dep.value.External? && Registered(g, dep.value) ==> Has(ExportsOf(g', dep.value), ln)
  {
    if dep.Some? && dep.value.External? then
      PutNewRecordIfAbsent(g, dep.value, ln,
        ExportRecord(ln, ExternalReexportIdentifier(env, ln, en), dep.value.specifier, None))
    else g
  }

  /** A default-exported identifier counts as reassigned when its binding has
      a constant violation. */
  predicate Reassigned(g: Graph, m: ModuleRec, x: string) {
    var bnd := Lookup(m.scope, x);
    bnd.Some? && |BindingAt(g, bnd.value).violations| > 0
  }

  /** An `export default` whose value gets no name of its own: an
      anonymous class or function, or an expression other than an identifier. */
  predicate Anonymous(v: DefaultExportValue) {
    match v
    case DefaultExpression(e) => !e.Ident?
    case DefaultDeclaration(ClassDecl(id, _, _, _)) => id.None?
    case DefaultDeclaration(FunctionDecl(id, _, _, _, _)) => id.None?
    case DefaultDeclaration(VarDecl(_, _)) => false
  }

  /** `this.exports.default` as set by an `export default` statement
      (module.ts lines 367-412). */
  function DefaultExportRecord(g: Graph, env: Env, m: ModuleRec, v: DefaultExportValue): (r: Option<ExportRecord>)
    ensures r.Some? ==> r.value.localName == "default" && r.value.source == m.path
    ensures (v.DefaultExpression? && v.expr.Ident? && !Reassigned(g, m, v.expr.name)) ==>
      r == Some(ExportRecord("default", v.expr.name, m.path, Lookup(m.scope, v.expr.name)))
    ensures v.DefaultDeclaration? && !v.decl.VarDecl? && !Anonymous(v) ==>
      r == Some(ExportRecord("default", DeclaredNames(v.decl)[0], m.path, Lookup(m.scope, DeclaredNames(v.decl)[0])))
    ensures Anonymous(v) || (v.DefaultExpression? && v.expr.Ident? && Reassigned(g, m, v.expr.name)) ==>
      r == Some(ExportRecord("default", env.makeLegal(m.fileName), m.path, None))
    ensures r.None? <==> v.DefaultDeclaration? && v.decl.VarDecl?
  {
    var generated := ExportRecord("default", env.makeLegal(m.fileName), m.path, None);
    match v
    case DefaultExpression(Ident(x)) =>
      if Reassigned(g, m, x) then Some(generated) else Some(ExportRecord("default", x, m.path, Lookup(m.scope, x)))
    case DefaultExpression(_) => Some(generated)
    case DefaultDeclaration(ClassDecl(Some(x), _, _, _)) => Some(ExportRecord("default", x, m.path, Lookup(m.scope, x)))
    case DefaultDeclaration(FunctionDecl(Some(x), _, _, _, _)) => Some(ExportRecord("default", x, m.path, Lookup(m.scope, x)))
    case DefaultDeclaration(VarDecl(_, _)) => None
    case DefaultDeclaration(_) => Some(generated)
  }

  /** `export * from src` (module.ts lines 413-424): from an internal module
      the dependency's entries are spread over this module's; from an
      external module nothing changes here. */
  function MergeExportAll(g: Graph, path: string, src: string): (g': Graph)
    requires path in g.modules
    ensures ExportsOnly(g, g')
    ensures IsExternal(Get(g.modules[path].dependencies, src)) ==> g' == g
  {
    var dep: Option<Dep> := Get(g.modules[path].dependencies, src);
    match dep
    case Some(Internal(q)) =>
      WithExports(g, Internal(path), Spread(ExportsOf(g, Internal(path)), ExportsOf(g, Internal(q))))
    case _ => g
  }

  /** After `export * from './dep'` every name of the dependency reads the
      dependency's record, overriding a same-named one, and every other name
      keeps its record. */
  lemma ExportAllOverrides(g: Graph, path: string, q: string, src: string, k: string)
    requires path in g.modules && q != path
    requires Get(g.modules[path].dependencies, src) == Some(Internal(q))
    requires Keyed(ExportsOf(g, Internal(q)))
    ensures Get(ExportsOf(MergeExportAll(g, path, src), Internal(path)), k) ==
      if Has(ExportsOf(g, Internal(q)), k) then Get(ExportsOf(g, Internal(q)), k)
      else Get(ExportsOf(g, Internal(path)), k)
  {
    SpreadGet(ExportsOf(g, Internal(path)), ExportsOf(g, Internal(q)), k);
  }

  /** An `export * from '<external>'` leaves the export table unchanged. */
  lemma ExternalExportAllDeferred(g: Graph, path: string, src: string)
    requires path in g.modules
    requires IsExternal(Get(g.modules[path].dependencies, src))
    ensures ExportsOf(MergeExportAll(g, path, src), Internal(path)) == ExportsOf(g, Internal(path))
  {
  }

  /** analyzeExports for one `export ...` statement with a declaration or
      specifiers (module.ts lines 194-366). */
  method AnalyzeExportNamed(b: Bundler, path: string, decl: Option<Decl>, specs: seq<ExportSpec>, from: Option<string>)
    requires path in b.graph.modules
    modifies b`graph
    ensures ExportsOnly(old(b.graph), b.graph)
    ensures decl.Some? && specs == [] ==>
      forall x :: x in DeclaredNames(decl.value) ==>
        ExportsAs(b.graph, path, x, LocalRecord(old(b.graph.modules[path]), x))
  {
    var m := b.graph.modules[path];
    var dep := if from.Some? then Get(m.dependencies, from.value) else None;
    if decl.Some? {
      ExportDeclaration(b, path, decl.value);
    }
    if specs != [] {
      ghost var g := b.graph;
      ExportSpecifiers(b, path, dep, specs);
      ExportsOnlyTrans(old(b.graph), g, b.graph);
    }
  }

  /** The export table of `path` maps `x` to a record equal to `r`. */
  ghost predicate ExportsAs(g: Graph, path: string, x: string, r: ExportRecord) {
    var id := Get(ExportsOf(g, Internal(path)), x);
    id.Some? && id.value < |g.records| && g.records[id.value] == r
  }

  /** Adding a record under another key keeps what a key maps to. */
  lemma ExportsAsKept(g: Graph, path: string, k: string, r': ExportRecord, x: string, r: ExportRecord)
    requires ExportsAs(g, path, x, r) && x != k
    ensures ExportsAs(PutNewRecord(g, Internal(path), k, r'), path, x, r)
  {
    var g' := PutNewRecord(g, Internal(path), k, r');
    var id := Get(ExportsOf(g, Internal(path)), x);
    assert Get(ExportsOf(g', Internal(path)), x) == id;
    assert g'.records[id.value] == g.records[id.value];
  }

  /** One more declared name exported, the earlier ones still exported. */
  lemma ExportNameStep(g: Graph, path: string, m: ModuleRec, names: seq<string>, i: nat)
    requires path in g.modules && i < |names|
    requires forall j :: 0 <= j < i ==> ExportsAs(g, path, names[j], LocalRecord(m, names[j]))
    ensures var g' := PutNewRecord(g, Internal(path), names[i], LocalRecord(m, names[i]));
      forall j :: 0 <= j <= i ==> ExportsAs(g', path, names[j], LocalRecord(m, names[j]))
  {
    var g' := PutNewRecord(g, Internal(path), names[i], LocalRecord(m, names[i]));
    forall j | 0 <= j <= i
      ensures ExportsAs(g', path, names[j], LocalRecord(m, names[j]))
    {
      if names[j] != names[i] {
        ExportsAsKept(g, path, names[i], LocalRecord(m, names[i]), names[j], LocalRecord(m, names[j]));
      } else {
        ExportsAsPut(g, path, names[i], LocalRecord(m, names[i]));
      }
    }
  }

  /** A fresh record under a key of a registered module. */
  lemma ExportsAsPut(g: Graph, path: string, k: string, r: ExportRecord)
    requires path in g.modules
    ensures ExportsAs(PutNewRecord(g, Internal(path), k, r), path, k, r)
  {
  }

  /** `export function f`, `export class C`, `export const a = ..., { b }
      = ..., [c, ...d] = ...`: one record per declared name (module.ts lines
      201-271). */
  method ExportDeclaration(b: Bundler, path: string, decl: Decl)
    requires path in b.graph.modules
    modifies b`graph
    ensures ExportsOnly(old(b.graph), b.graph)
    ensures forall x :: x in DeclaredNames(decl) ==>
      ExportsAs(b.graph, path, x, LocalRecord(old(b.graph.modules[path]), x))
  {
    var m := b.graph.modules[path];
    var names := DeclaredNames(decl);
    var i := 0;
    while i < |names|
      invariant i <= |names|
      invariant ExportsOnly(old(b.graph), b.graph)
      invariant forall j :: 0 <= j < i ==> ExportsAs(b.graph, path, names[j], LocalRecord(m, names[j]))
    {
      ghost var g := b.graph;
      b.graph := PutNewRecord(b.graph, Internal(path), names[i], LocalRecord(m, names[i]));
      ExportsOnlyTrans(old(b.graph), g, b.graph);
      ExportNameStep(g, path, m, names, i);
      i := i + 1;
    }
    forall x | x in names
      ensures ExportsAs(b.graph, path, x, LocalRecord(m, x))
    {
      var j :| 0 <= j < |names| && names[j] == x;
    }
  }

  /** The specifiers of an `export { ... }` statement, in order. */
  method ExportSpecifiers(b: Bundler, path: string, dep: Option<Dep>, specs: seq<ExportSpec>)
    requires path in b.graph.modules
    modifies b`graph
    ensures ExportsOnly(old(b.graph), b.graph)
  {
    var m := b.graph.modules[path];
    var i := 0;
    while i < |specs|
      invariant i <= |specs|
      invariant ExportsOnly(old(b.graph), b.graph)
    {
      ghost var g := b.graph;
      match specs[i] {
        case ExportNamespaceSpec(exported) =>
          if dep.Some? {
            b.graph := NamespaceReexport(b.graph, b.env, path, m, dep.value, exported);
          }
        case ExportDefaultSpec(_) =>
        case ExportSpecifier(local, exported) =>
          b.graph := SpecifierExport(b.graph, b.env, path, m, dep, local, exported);
      }
      ExportsOnlyTrans(old(b.graph), g, b.graph);
      i := i + 1;
    }
  }

  /** analyzeExports (module.ts lines 192-426). */
  method AnalyzeExports(b: Bundler, path: string, body: seq<Stmt>)
    requires path in b.graph.modules
    modifies b`graph
    ensures ExportsOnly(old(b.graph), b.graph)
  {
    var i := 0;
    while i < |body|
      invariant i <= |body|
      invariant ExportsOnly(old(b.graph), b.graph)
    {
      match body[i] {
        case ExportNamed(decl, specs, from) =>
          AnalyzeExportNamed(b, path, decl, specs, from);
        case ExportDefault(v) =>
          var r := DefaultExportRecord(b.graph, b.env, b.graph.modules[path], v);
          if r.Some? {
            b.graph := PutNewRecord(b.graph, Internal(path), "default", r.value);
          }
        case ExportAll(src) =>
          b.graph := MergeExportAll(b.graph, path, src);
        case _ =>
      }
      i := i + 1;
    }
  }
}
