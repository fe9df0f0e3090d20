/** The bundler's in-memory module graph, as one value: the registry of
    internal modules (Bundler.modules, keyed by path), the registry of external
    modules (Bundler.externalModules, keyed by the bare specifier, in
    insertion order), and two arenas that stand for objects the source shares
    by reference: export records (the same record object sits in several
    export tables after a re-export) and Babel scope bindings. Tables refer to
    arena entries by index. */
module Graph {

  import opened Tables
  import opened Ast

  type BindingId = nat
  type RecordId = nat

  /** Babel's `binding.kind`; 'hoisted' is a function declaration, 'module' an import. */
  datatype BindingKind =
    | ConstKind | LetKind | VarKind | HoistedKind | ModuleKind | ParamKind | LocalKind | UnknownKind

  /** A reference site of a binding: an Identifier node, or another node kind. */
  datatype RefSite = IdentifierRef(name: string) | OtherRef

  /** A constant violation: an assignment whose target is an identifier, or
      any other reassignment (update expression, for-in target, ...). */
  datatype Violation = AssignmentTo(name: string) | OtherViolation

  /** A scope binding with its declaration name, reference sites and constant
      violations; `removed` records that its declaration was deleted. */
  datatype Binding = Binding(
    name: string,
    kind: BindingKind,
    refs: seq<RefSite>,
    violations: seq<Violation>,
    removed: bool)

  /** One entry of an export table (module.ts lines 42-50). */
  datatype ExportRecord = ExportRecord(
    localName: string,
    identifierName: string,
    source: string,
    binding: Option<BindingId>)

  /** One entry of `importBindings` (module.ts lines 36-40). */
  datatype ImportBinding = ImportBinding(
    importedName: string,
    source: string,
    binding: Option<BindingId>)

  /** What a specifier resolved to: an internal module (by path) or an
      external module (by its bare specifier). */
  datatype Dep = Internal(path: string) | External(specifier: string)

  datatype ModuleRec = ModuleRec(
    path: string,
    fileName: string,
    directory: string,
    isEntryModule: bool,
    body: seq<Stmt>,
    /** `path.scope.getBinding(name)` at program scope */
    scope: map<string, BindingId>,
    dependencies: Table<Dep>,
    dependents: set<string>,
    importBindings: seq<ImportBinding>,
    exports: Table<RecordId>,
    /** the `from` specifiers of `export * from <external>` statements */
    externalExportAlls: seq<string>,
    bindings: seq<BindingId>)

  datatype ExternalRec = ExternalRec(
    path: string,
    exports: Table<RecordId>,
    dependents: set<string>)

  datatype Graph = Graph(
    modules: map<string, ModuleRec>,
    externals: Table<ExternalRec>,
    records: seq<ExportRecord>,
    bindings: seq<Binding>)

  const NoRecord := ExportRecord("", "", "", None)
  const NoBinding := Binding("", UnknownKind, [], [], false)

  function EmptyGraph(): Graph {
    Graph(map[], [], [], [])
  }

  function RecordAt(g: Graph, id: RecordId): ExportRecord {
    if id < |g.records| then g.records[id] else NoRecord
  }

  function BindingAt(g: Graph, id: BindingId): Binding {
    if id < |g.bindings| then g.bindings[id] else NoBinding
  }

  /** Appends a new export record; its id is the old arena size. */
  function AddRecord(g: Graph, r: ExportRecord): (g': Graph)
    ensures |g'.records| == |g.records| + 1
    ensures RecordAt(g', |g.records|) == r
    ensures forall id: RecordId :: id < |g.records| ==> RecordAt(g', id) == RecordAt(g, id)
    ensures g'.modules == g.modules && g'.externals == g.externals && g'.bindings == g.bindings
  {
    g.(records := g.records + [r])
  }

  function WithRecord(g: Graph, id: RecordId, r: ExportRecord): (g': Graph)
    ensures id < |g.records| ==> RecordAt(g', id) == r
    ensures forall id': RecordId :: id' != id ==> RecordAt(g', id') == RecordAt(g, id')
    ensures |g'.records| == |g.records|
    ensures g'.modules == g.modules && g'.externals == g.externals && g'.bindings == g.bindings
  {
    if id < |g.records| then g.(records := g.records[id := r]) else g
  }

  function WithBinding(g: Graph, id: BindingId, b: Binding): (g': Graph)
    ensures id < |g.bindings| ==> BindingAt(g', id) == b
    ensures forall id': BindingId :: id' != id ==> BindingAt(g', id') == BindingAt(g, id')
    ensures |g'.bindings| == |g.bindings|
    ensures g'.modules == g.modules && g'.externals == g.externals && g'.records == g.records
  {
    if id < |g.bindings| then g.(bindings := g.bindings[id := b]) else g
  }

  function WithModule(g: Graph, p: string, m: ModuleRec): (g': Graph)
    ensures g'.modules == g.modules[p := m]
    ensures g'.externals == g.externals && g'.records == g.records && g'.bindings == g.bindings
  {
    g.(modules := g.modules[p := m])
  }

  /** The export records of module `p`, in table order. */
  function ExportIdsOf(g: Graph, p: string): seq<RecordId> {
    if p in g.modules then Values(g.modules[p].exports) else []
  }

  /** The bindings of module `p`. */
  function BindingIdsOf(g: Graph, p: string): seq<BindingId> {
    if p in g.modules then g.modules[p].bindings else []
  }

  /** `module.path`: an external module's path is its specifier. */
  function PathOf(d: Dep): string {
    match d
    case Internal(p) => p
    case External(s) => s
  }

  function ExportsOf(g: Graph, d: Dep): Table<RecordId> {
    match d
    case Internal(p) => if p in g.modules then g.modules[p].exports else []
    case External(s) => match Get(g.externals, s) {
      case Some(e) => e.exports
      case None => []
    }
  }

  function DependentsOf(g: Graph, d: Dep): set<string> {
    match d
    case Internal(p) => if p in g.modules then g.modules[p].dependents else {}
    case External(s) => match Get(g.externals, s) {
      case Some(e) => e.dependents
      case None => {}
    }
  }

  /** `d` names a registered module. */
  predicate Registered(g: Graph, d: Dep) {
    match d
    case Internal(p) => p in g.modules
    case External(s) => Has(g.externals, s)
  }

  /** `g1` is a later state of the same run than `g0`: registries only grow,
      a registered module keeps its identity, and arenas only grow. */
  ghost predicate Extends(g0: Graph, g1: Graph) {
    Grows(g0, g1) && KeepsDependencies(g0, g1, {})
  }

  ghost predicate Grows(g0: Graph, g1: Graph) {
    && (forall p :: p in g0.modules ==> p in g1.modules && SameIdentity(g0.modules[p], g1.modules[p]))
    && (forall k :: Has(g0.externals, k) ==> Has(g1.externals, k))
    && |g0.records| <= |g1.records|
    && |g0.bindings| <= |g1.bindings|
  }

  /** The dependency tables of the modules of `g0` outside `skip` are as they were. */
  ghost predicate KeepsDependencies(g0: Graph, g1: Graph, skip: set<string>) {
    forall p :: p in g0.modules && p !in skip ==>
      p in g1.modules && g1.modules[p].dependencies == g0.modules[p].dependencies
  }

  lemma GrowsTrans(g0: Graph, g1: Graph, g2: Graph)
    requires Grows(g0, g1) && Grows(g1, g2)
    ensures Grows(g0, g2)
  {
  }

  /** Replacing a module record by one with the same identity and
      dependencies extends the graph. */
  lemma WithModuleExtends(g: Graph, p: string, m: ModuleRec)
    requires p in g.modules && SameIdentity(g.modules[p], m)
    requires m.dependencies == g.modules[p].dependencies
    ensures Extends(g, WithModule(g, p, m))
  {
  }

  /** A step that changes the dependency table of `p` only, after `p` was
      registered, still extends a state that did not hold `p`. */
  lemma ExtendsAround(g0: Graph, g1: Graph, g2: Graph, p: string)
    requires p !in g0.modules
    requires Extends(g0, g1) && Grows(g1, g2) && KeepsDependencies(g1, g2, {p})
    ensures Extends(g0, g2)
  {
  }

  lemma ExtendsTrans(g0: Graph, g1: Graph, g2: Graph)
    requires Extends(g0, g1) && Extends(g1, g2)
    ensures Extends(g0, g2)
  {
  }

  predicate SameIdentity(m0: ModuleRec, m1: ModuleRec) {
    m1.path == m0.path && m1.isEntryModule == m0.isEntryModule
    && m1.fileName == m0.fileName && m1.directory == m0.directory
  }

  /** `g1` differs from `g0` only in export tables, and by records appended
      to the arena. */
  ghost predicate ExportsOnly(g0: Graph, g1: Graph) {
    && g1.modules.Keys == g0.modules.Keys
    && (forall p :: p in g0.modules ==> g1.modules[p] == g0.modules[p].(exports := g1.modules[p].exports))
    && (forall k :: Has(g0.externals, k) <==> Has(g1.externals, k))
    && g0.records <= g1.records
    && g1.bindings == g0.bindings
  }

  lemma ExportsOnlyTrans(g0: Graph, g1: Graph, g2: Graph)
    requires ExportsOnly(g0, g1) && ExportsOnly(g1, g2)
    ensures ExportsOnly(g0, g2)
  {
  }

  lemma ExportsOnlyExtends(g0: Graph, g1: Graph)
    requires ExportsOnly(g0, g1)
    ensures Extends(g0, g1)
  {
  }

  /** Replaces the export table of `d` (no change when `d` is not registered). */
  function WithExports(g: Graph, d: Dep, t: Table<RecordId>): (g': Graph)
    ensures ExportsOnly(g, g') && g'.records == g.records
    ensures Registered(g, d) ==> ExportsOf(g', d) == t
    ensures forall d' :: d' != d ==> ExportsOf(g', d') == ExportsOf(g, d')
  {
    match d
    case Internal(p) => WithModuleExports(g, p, t)
    case External(s) => WithExternalExports(g, s, t)
  }

  function WithModuleExports(g: Graph, p: string, t: Table<RecordId>): (g': Graph)
    ensures ExportsOnly(g, g') && g'.records == g.records
    ensures Registered(g, Internal(p)) ==> ExportsOf(g', Internal(p)) == t
    ensures forall d' :: d' != Internal(p) ==> ExportsOf(g', d') == ExportsOf(g, d')
  {
    if p in g.modules then WithModule(g, p, g.modules[p].(exports := t)) else g
  }

  function WithExternalExports(g: Graph, s: string, t: Table<RecordId>): (g': Graph)
    ensures ExportsOnly(g, g') && g'.records == g.records
    ensures Registered(g, External(s)) ==> ExportsOf(g', External(s)) == t
    ensures forall d' :: d' != External(s) ==> ExportsOf(g', d') == ExportsOf(g, d')
  {
    match Get(g.externals, s) {
      case Some(e) =>
        PutExternalOthers(g, s, e.(exports := t));
        g.(externals := Put(g.externals, s, e.(exports := t)))
      case None => g
    }
  }

  /** Adds `dependent` to the `dependents` set of `d`. */
  function WithDependent(g: Graph, d: Dep, dependent: string): (g': Graph)
    ensures Registered(g, d) ==> DependentsOf(g', d) == DependentsOf(g, d) + {dependent}
    ensures forall d' :: d' != d ==> DependentsOf(g', d') == DependentsOf(g, d')
    ensures forall d' :: ExportsOf(g', d') == ExportsOf(g, d')
    ensures g'.records == g.records && g'.bindings == g.bindings
    ensures g'.modules.Keys == g.modules.Keys
    ensures forall p :: p in g.modules ==> g'.modules[p] == g.modules[p].(dependents := g'.modules[p].dependents)
    ensures forall k :: Has(g.externals, k) <==> Has(g'.externals, k)
  {
    match d
    case Internal(p) => WithModuleDependent(g, p, dependent)
    case External(s) => WithExternalDependent(g, s, dependent)
  }

  function WithModuleDependent(g: Graph, p: string, dependent: string): (g': Graph)
    ensures Registered(g, Internal(p)) ==> DependentsOf(g', Internal(p)) == DependentsOf(g, Internal(p)) + {dependent}
    ensures forall d' :: d' != Internal(p) ==> DependentsOf(g', d') == DependentsOf(g, d')
    ensures forall d' :: ExportsOf(g', d') == ExportsOf(g, d')
    ensures g'.records == g.records && g'.bindings == g.bindings
    ensures g'.modules.Keys == g.modules.Keys
    ensures forall p :: p in g.modules ==> g'.modules[p] == g.modules[p].(dependents := g'.modules[p].dependents)
    ensures forall k :: Has(g.externals, k) <==> Has(g'.externals, k)
  {
    if p in g.modules then WithModule(g, p, g.modules[p].(dependents := g.modules[p].dependents + {dependent})) else g
  }

  function WithExternalDependent(g: Graph, s: string, dependent: string): (g': Graph)
    ensures Registered(g, External(s)) ==> DependentsOf(g', External(s)) == DependentsOf(g, External(s)) + {dependent}
    ensures forall d' :: d' != External(s) ==> DependentsOf(g', d') == DependentsOf(g, d')
    ensures forall d' :: ExportsOf(g', d') == ExportsOf(g, d')
    ensures g'.records == g.records && g'.bindings == g.bindings
    ensures g'.modules.Keys == g.modules.Keys
    ensures forall p :: p in g.modules ==> g'.modules[p] == g.modules[p].(dependents := g'.modules[p].dependents)
    ensures forall k :: Has(g.externals, k) <==> Has(g'.externals, k)
  {
    match Get(g.externals, s) {
      case Some(e) =>
        PutExternalOthers(g, s, e.(dependents := e.dependents + {dependent}));
        g.(externals := Put(g.externals, s, e.(dependents := e.dependents + {dependent})))
      case None => g
    }
  }

  /** Replacing the record of external `s` leaves every other dependency as it was. */
  lemma PutExternalOthers(g: Graph, s: string, e: ExternalRec)
    ensures var g' := g.(externals := Put(g.externals, s, e));
      && (forall d' :: d' != External(s) ==> ExportsOf(g', d') == ExportsOf(g, d'))
      && (forall d' :: d' != External(s) ==> DependentsOf(g', d') == DependentsOf(g, d'))
  {
    var g' := g.(externals := Put(g.externals, s, e));
    forall d' | d' != External(s)
      ensures ExportsOf(g', d') == ExportsOf(g, d') && DependentsOf(g', d') == DependentsOf(g, d')
    {
      if d'.External? {
        assert Get(g'.externals, d'.specifier) == Get(g.externals, d'.specifier);
      }
    }
  }

  /** `d.exports[k] = { ... }`: a fresh record object under key `k`. */
  function PutNewRecord(g: Graph, d: Dep, k: string, r: ExportRecord): (g': Graph)
    ensures ExportsOnly(g, g')
    ensures g'.records == g.records + [r]
    ensures Registered(g, d) ==> Get(ExportsOf(g', d), k) == Some(|g.records|)
    ensures forall k' :: k' != k ==> Get(ExportsOf(g', d), k') == Get(ExportsOf(g, d), k')
    ensures forall d' :: d' != d ==> ExportsOf(g', d') == ExportsOf(g, d')
  {
    var g1 := AddRecord(g, r);
    WithExports(g1, d, Put(ExportsOf(g1, d), k, |g.records|))
  }

  /** Key `k` of `d`'s export table names the record `r` of the arena. */
  ghost predicate HoldsRecord(g: Graph, d: Dep, k: string, r: ExportRecord) {
    var e := Get(ExportsOf(g, d), k);
    e.Some? && e.value < |g.records| && g.records[e.value] == r
  }

  /** A record held under a key stays held when the key reads the same and
      the arena only grows. */
  lemma HoldsRecordKept(g: Graph, g': Graph, d: Dep, k: string, r: ExportRecord)
    requires HoldsRecord(g, d, k, r) && g.records <= g'.records
    requires Get(ExportsOf(g', d), k) == Get(ExportsOf(g, d), k)
    ensures HoldsRecord(g', d, k, r)
  {
    var id := Get(ExportsOf(g, d), k).value;
    assert g'.records[id] == g.records[id];
  }

  /** No entry already present in `d`'s export table has changed. */
  ghost predicate KeepsEntries(g0: Graph, g1: Graph, d: Dep) {
    forall k :: Has(ExportsOf(g0, d), k) ==> Get(ExportsOf(g1, d), k) == Get(ExportsOf(g0, d), k)
  }

  lemma KeepsEntriesTrans(g0: Graph, g1: Graph, g2: Graph, d: Dep)
    requires KeepsEntries(g0, g1, d) && KeepsEntries(g1, g2, d)
    ensures KeepsEntries(g0, g2, d)
  {
    forall k | Has(ExportsOf(g0, d), k)
      ensures Get(ExportsOf(g2, d), k) == Get(ExportsOf(g0, d), k)
    {
      assert Get(ExportsOf(g1, d), k).Some?;
    }
  }

  /** `if (!d.exports[k]) d.exports[k] = { ... }`: the first writer wins. */
  function PutNewRecordIfAbsent(g: Graph, d: Dep, k: string, r: ExportRecord): (g': Graph)
    ensures ExportsOnly(g, g')
    ensures KeepsEntries(g, g', d)
    ensures Registered(g, d) ==> Has(ExportsOf(g', d), k)
    ensures Has(ExportsOf(g, d), k) ==> g' == g
    ensures forall k' :: k' != k ==> Get(ExportsOf(g', d), k') == Get(ExportsOf(g, d), k')
    ensures forall d' :: d' != d ==> ExportsOf(g', d') == ExportsOf(g, d')
  {
    if Has(ExportsOf(g, d), k) then g else PutNewRecord(g, d, k, r)
  }

  /** `d.exports[k] = from.exports[key]`: the same record object, shared;
      nothing happens when `from` has no such entry. */
  function ShareRecord(g: Graph, d: Dep, k: string, from: Dep, key: string): (g': Graph)
    ensures ExportsOnly(g, g') && g'.records == g.records
    ensures Registered(g, d) && Has(ExportsOf(g, from), key) ==>
      Get(ExportsOf(g', d), k) == Get(ExportsOf(g, from), key)
    ensures !Has(ExportsOf(g, from), key) ==> g' == g
    ensures forall k' :: k' != k ==> Get(ExportsOf(g', d), k') == Get(ExportsOf(g, d), k')
    ensures forall d' :: d' != d ==> ExportsOf(g', d') == ExportsOf(g, d')
  {
    match Get(ExportsOf(g, from), key)
    case Some(id) => WithExports(g, d, Put(ExportsOf(g, d), k, id))
    case None => g
  }

  /** The internal modules a module depends on, in the insertion order of its
      `dependencies` table (external modules are leaves and are skipped). */
  function InternalDeps(deps: seq<Dep>): (ps: seq<string>)
    ensures forall p :: p in ps <==> Internal(p) in deps
  {
    if deps == [] then []
    else
      var rest := InternalDeps(deps[1..]);
      assert forall d :: d in deps <==> d == deps[0] || d in deps[1..];
      match deps[0]
      case Internal(p) => [p] + rest
      case External(_) => rest
  }

  function DepsOf(g: Graph, p: string): seq<string> {
    if p in g.modules then InternalDeps(Values(g.modules[p].dependencies)) else []
  }

  datatype Order = Pre | Post

  /** `traverseDependencyGraph(module, callback, order)`: the sequence of
      modules the callback sees, depth first through each module's internal
      dependencies. No visited set: a module reachable along two paths is seen
      twice. `fuel` bounds the depth; callers pass the number of registered
      modules, which no dependency chain of an acyclic graph exceeds. */
  function Walk(g: Graph, p: string, order: Order, fuel: nat): (visit: seq<string>)
    ensures forall q :: q in visit ==> q in g.modules
    ensures fuel > 0 && p in g.modules ==> |visit| > 0 && (if order == Pre then visit[0] else visit[|visit| - 1]) == p
    decreases fuel, 1, 0
  {
    if fuel == 0 || p !in g.modules then []
    else
      var below := WalkAll(g, DepsOf(g, p), order, fuel - 1);
      if order == Pre then [p] + below else below + [p]
  }

  function WalkAll(g: Graph, ps: seq<string>, order: Order, fuel: nat): (visit: seq<string>)
    ensures forall q :: q in visit ==> q in g.modules
    decreases fuel, 2, |ps|
  {
    if ps == [] then [] else Walk(g, ps[0], order, fuel) + WalkAll(g, ps[1..], order, fuel)
  }

  /** The two graphs register the same modules with the same dependency tables. */
  ghost predicate SameDependencies(g1: Graph, g2: Graph) {
    g1.modules.Keys == g2.modules.Keys
    && forall p :: p in g1.modules ==> g1.modules[p].dependencies == g2.modules[p].dependencies
  }

  /** A walk reads nothing but the dependency tables. */
  lemma {:induction false} WalkSameDependencies(g1: Graph, g2: Graph, p: string, order: Order, fuel: nat)
    requires SameDependencies(g1, g2)
    ensures Walk(g1, p, order, fuel) == Walk(g2, p, order, fuel)
    decreases fuel, 1, 0
  {
    if fuel > 0 && p in g1.modules {
      assert DepsOf(g1, p) == DepsOf(g2, p);
      WalkAllSameDependencies(g1, g2, DepsOf(g1, p), order, fuel - 1);
    }
  }

  lemma {:induction false} WalkAllSameDependencies(g1: Graph, g2: Graph, ps: seq<string>, order: Order, fuel: nat)
    requires SameDependencies(g1, g2)
    ensures WalkAll(g1, ps, order, fuel) == WalkAll(g2, ps, order, fuel)
    decreases fuel, 2, |ps|
  {
    if ps != [] {
      WalkSameDependencies(g1, g2, ps[0], order, fuel);
      WalkAllSameDependencies(g1, g2, ps[1..], order, fuel);
    }
  }

  /** The position of the first `x` in `s`, or `|s|`. */
  function FirstIndex(s: seq<string>, x: string): (i: nat)
    ensures i <= |s|
    ensures i < |s| ==> s[i] == x
    ensures forall j :: 0 <= j < i ==> s[j] != x
  {
    if s == [] then 0 else if s[0] == x then 0 else 1 + FirstIndex(s[1..], x)
  }

  /** checkCircularDependency (module.ts lines 127-141): after `importer`
      resolved `target`, walk the graph from `target` in pre-order, appending
      each visited path to a chain that starts with `importer`'s path; the
      first time `importer` itself is visited, the chain is the cycle. */
  function CircularChain(g: Graph, importer: string, target: string): (chain: Option<seq<string>>)
    ensures chain.None? <==> importer !in Walk(g, target, Pre, |g.modules|)
    ensures chain.Some? ==>
      var c := chain.value;
      && 2 <= |c|
      && c[0] == importer && c[|c| - 1] == importer
      && (forall i :: 0 < i < |c| - 1 ==> c[i] != importer)
      && c[1..] <= Walk(g, target, Pre, |g.modules|)
  {
    var visit := Walk(g, target, Pre, |g.modules|);
    var i := FirstIndex(visit, importer);
    if i < |visit| then Some([importer] + visit[..i + 1]) else None
  }

  /** `Array.from(new Set(s))`, and the `includes` check of a visited list:
      the first occurrence of each element, in order. */
  function Dedup<T(==,!new)>(s: seq<T>): (r: seq<T>)
    ensures forall x :: x in r <==> x in s
    ensures forall i, j :: 0 <= i < j < |r| ==> r[i] != r[j]
    ensures |r| <= |s|
    decreases |s|
  {
    if s == [] then []
    else
      var front := Dedup(s[..|s| - 1]);
      assert s == s[..|s| - 1] + [s[|s| - 1]];
      if s[|s| - 1] in front then front else front + [s[|s| - 1]]
  }

  /** The first occurrences among one more element. */
  lemma DedupStep(visit: seq<string>, i: nat)
    requires i < |visit|
    ensures Dedup(visit[..i + 1]) ==
      if visit[i] in Dedup(visit[..i]) then Dedup(visit[..i]) else Dedup(visit[..i]) + [visit[i]]
  {
    assert visit[..i + 1][..i] == visit[..i];
  }
}
