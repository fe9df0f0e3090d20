/** Assembly of the bundle (src/bundler.ts lines 63-93 and 257-322): the
    import declarations hoisted for the external modules, the shared
    `_mergeNamespaces` helper when some namespace object needs it, then the
    bodies of the modules the walk from the entry reaches, each module once.
    Code generation from the resulting statement list is not modelled: the
    bundle is the list itself. */
module Assembly {

  import opened Tables
  import opened Ast
  import opened Graph
  import opened Session

  // ---------------------------------------------------------------------
  // getExternalImports
  // ---------------------------------------------------------------------

  /** The specifier the export entry `key` of an external module becomes:
      `default` a default specifier, `*` a namespace specifier, any other key
      a named one, quoted when it is not a legal identifier (lines 267-285). */
  function EntrySpec(env: Env, key: string, identifierName: string): ImportSpec {
    if key == "default" then ImportDefault(identifierName)
    else if key == "*" then ImportNamespace(identifierName)
    else ImportNamed(if env.isIllegalIdentifier(key) then Str(key) else Id(key), identifierName)
  }

  /** One specifier per entry of an export table, in table order. */
  function EntrySpecs(env: Env, g: Graph, t: Table<RecordId>): seq<ImportSpec> {
    seq(|t|, i requires 0 <= i < |t| => EntrySpec(env, t[i].key, RecordAt(g, t[i].value).identifierName))
  }

  /** The three groups of specifiers an import declaration may hold. */
  datatype SpecKind = NamedKind | DefaultKind | NamespaceKind

  function KindOf(s: ImportSpec): SpecKind {
    match s
    case ImportNamed(_, _) => NamedKind
    case ImportDefault(_) => DefaultKind
    case ImportNamespace(_) => NamespaceKind
  }

  /** The specifiers of kind `k`, in order. */
  function OfKind(specs: seq<ImportSpec>, k: SpecKind): (r: seq<ImportSpec>)
    ensures forall s :: s in r ==> s in specs && KindOf(s) == k
    decreases |specs|
  {
    if specs == [] then []
    else
      var prev := OfKind(specs[..|specs| - 1], k);
      var s := specs[|specs| - 1];
      if KindOf(s) == k then prev + [s] else prev
  }

  /** The three kinds split a list of specifiers: every specifier lands in
      exactly one group. */
  lemma {:induction false} OfKindPartition(specs: seq<ImportSpec>)
    ensures multiset(OfKind(specs, NamedKind)) + multiset(OfKind(specs, DefaultKind))
      + multiset(OfKind(specs, NamespaceKind)) == multiset(specs)
    decreases |specs|
  {
    if specs != [] {
      var front := specs[..|specs| - 1];
      OfKindPartition(front);
      assert specs == front + [specs[|specs| - 1]];
    }
  }

  /** The arrays `importSpecifiers`, `importDefaultSpecifiers` and
      `importNamespaceSpecifiers`. */
  datatype Groups = Groups(named: seq<ImportSpec>, defaults: seq<ImportSpec>, namespaces: seq<ImportSpec>)

  /** The `for ... of` loop over the entries of an external module's table
      (lines 267-286), as the groups it has filled after the entries `t`. */
  function Grouped(env: Env, g: Graph, t: Table<RecordId>): Groups
    decreases |t|
  {
    if t == [] then Groups([], [], [])
    else
      var prev := Grouped(env, g, t[..|t| - 1]);
      var key := t[|t| - 1].key;
      var name := RecordAt(g, t[|t| - 1].value).identifierName;
      if key == "default" then prev.(defaults := prev.defaults + [ImportDefault(name)])
      else if key == "*" then prev.(namespaces := prev.namespaces + [ImportNamespace(name)])
      else prev.(named := prev.named + [ImportNamed(if env.isIllegalIdentifier(key) then Str(key) else Id(key), name)])
  }

  /** Each group holds exactly the specifiers of its kind of the table's
      entries, in table order. */
  lemma {:induction false} GroupedByKind(env: Env, g: Graph, t: Table<RecordId>)
    ensures Grouped(env, g, t) == Groups(OfKind(EntrySpecs(env, g, t), NamedKind),
                                         OfKind(EntrySpecs(env, g, t), DefaultKind),
                                         OfKind(EntrySpecs(env, g, t), NamespaceKind))
    decreases |t|
  {
    if t != [] {
      var front := t[..|t| - 1];
      GroupedByKind(env, g, front);
      var specs := EntrySpecs(env, g, t);
      assert specs[..|specs| - 1] == EntrySpecs(env, g, front);
    }
  }

  /** Every entry of the table appears in exactly one specifier of the
      groups, and every specifier of the groups comes from an entry. */
  lemma GroupsPartitionEntries(env: Env, g: Graph, t: Table<RecordId>)
    ensures var gr := Grouped(env, g, t);
      && multiset(gr.named + gr.defaults + gr.namespaces) == multiset(EntrySpecs(env, g, t))
      && |gr.named| + |gr.defaults| + |gr.namespaces| == |t|
      && (forall s :: s in gr.named ==> s.ImportNamed?)
      && (forall s :: s in gr.defaults ==> s.ImportDefault?)
      && (forall s :: s in gr.namespaces ==> s.ImportNamespace?)
  {
    GroupedByKind(env, g, t);
    OfKindPartition(EntrySpecs(env, g, t));
    var gr := Grouped(env, g, t);
    assert |multiset(gr.named + gr.defaults + gr.namespaces)| == |multiset(EntrySpecs(env, g, t))|;
  }

  /** The declarations hoisted for one external module (lines 262-318): one
      specifier-less import when it has no export entry left, otherwise one
      declaration per non-empty group, in the order named, default,
      namespace. */
  function ExternalDecls(env: Env, g: Graph, e: ExternalRec): seq<Stmt> {
    if |e.exports| == 0 then [ImportDecl(e.path, [])]
    else
      var gr := Grouped(env, g, e.exports);
      (if |gr.named| > 0 then [ImportDecl(e.path, gr.named)] else [])
      + (if |gr.defaults| > 0 then [ImportDecl(e.path, gr.defaults)] else [])
      + (if |gr.namespaces| > 0 then [ImportDecl(e.path, gr.namespaces)] else [])
  }

  /** The specifiers of a list of import declarations, in order. */
  function SpecifiersOf(decls: seq<Stmt>): seq<ImportSpec>
    decreases |decls|
  {
    if decls == [] then [] else SpecifiersOf(decls[..|decls| - 1]) + StmtSpecifiers(decls[|decls| - 1])
  }

  function StmtSpecifiers(s: Stmt): seq<ImportSpec> {
    if s.ImportDecl? then s.specifiers else []
  }

  lemma {:induction false} SpecifiersOfAppend(a: seq<Stmt>, b: seq<Stmt>)
    ensures SpecifiersOf(a + b) == SpecifiersOf(a) + SpecifiersOf(b)
    decreases |b|
  {
    if b == [] {
      assert a + b == a;
    } else {
      var front, last := b[..|b| - 1], b[|b| - 1];
      assert (a + b)[..|a + b| - 1] == a + front;
      assert (a + b)[|a + b| - 1] == last;
      calc {
        SpecifiersOf(a + b);
        SpecifiersOf(a + front) + StmtSpecifiers(last);
        { SpecifiersOfAppend(a, front); }
        (SpecifiersOf(a) + SpecifiersOf(front)) + StmtSpecifiers(last);
        SpecifiersOf(a) + (SpecifiersOf(front) + StmtSpecifiers(last));
      }
    }
  }

  /** All specifiers of the list are of one kind. */
  predicate OneKind(specs: seq<ImportSpec>) {
    forall x :: x in specs ==> KindOf(x) == KindOf(specs[0])
  }

  /** The declarations of an external module all import from its path; a
      module without entries gets exactly one, with no specifier; otherwise
      every declaration has a non-empty list of specifiers of one kind. */
  lemma ExternalDeclsShape(env: Env, g: Graph, e: ExternalRec)
    ensures var decls := ExternalDecls(env, g, e);
      && 1 <= |decls| <= 3
      && (forall s :: s in decls ==> s.ImportDecl? && s.source == e.path)
      && (|e.exports| == 0 ==> decls == [ImportDecl(e.path, [])])
      && (|e.exports| > 0 ==> forall s :: s in decls ==> |s.specifiers| > 0 && OneKind(s.specifiers))
  {
    if |e.exports| > 0 {
      var gr := Grouped(env, g, e.exports);
      GroupsOneKind(env, g, e.exports);
      assert |gr.named| + |gr.defaults| + |gr.namespaces| == |e.exports| by {
        GroupedSizes(env, g, e.exports);
      }
    }
  }

  /** The groups hold one specifier per entry. */
  lemma {:induction false} GroupedSizes(env: Env, g: Graph, t: Table<RecordId>)
    ensures var gr := Grouped(env, g, t);
      |gr.named| + |gr.defaults| + |gr.namespaces| == |t|
    decreases |t|
  {
    if t != [] {
      GroupedSizes(env, g, t[..|t| - 1]);
    }
  }

  /** Each group is of one kind. */
  lemma GroupsOneKind(env: Env, g: Graph, t: Table<RecordId>)
    ensures var gr := Grouped(env, g, t);
      OneKind(gr.named) && OneKind(gr.defaults) && OneKind(gr.namespaces)
  {
    GroupedByKind(env, g, t);
    var gr := Grouped(env, g, t);
    if |gr.named| > 0 { assert gr.named[0] in gr.named; }
    if |gr.defaults| > 0 { assert gr.defaults[0] in gr.defaults; }
    if |gr.namespaces| > 0 { assert gr.namespaces[0] in gr.namespaces; }
  }

  /** Together the declarations of an external module with entries hold its
      entries, each entry exactly once: named ones first, then the default,
      then the namespace. */
  lemma ExternalDeclsSpecifiers(env: Env, g: Graph, e: ExternalRec)
    requires |e.exports| > 0
    ensures var specs := SpecifiersOf(ExternalDecls(env, g, e));
      && specs == OfKind(EntrySpecs(env, g, e.exports), NamedKind)
           + OfKind(EntrySpecs(env, g, e.exports), DefaultKind)
           + OfKind(EntrySpecs(env, g, e.exports), NamespaceKind)
      && multiset(specs) == multiset(EntrySpecs(env, g, e.exports))
  {
    var gr := Grouped(env, g, e.exports);
    var a := if |gr.named| > 0 then [ImportDecl(e.path, gr.named)] else [];
    var b := if |gr.defaults| > 0 then [ImportDecl(e.path, gr.defaults)] else [];
    var c := if |gr.namespaces| > 0 then [ImportDecl(e.path, gr.namespaces)] else [];
    assert SpecifiersOf(ExternalDecls(env, g, e)) == gr.named + gr.defaults + gr.namespaces by {
      SpecifiersOfGroup(e.path, gr.named);
      SpecifiersOfGroup(e.path, gr.defaults);
      SpecifiersOfGroup(e.path, gr.namespaces);
      SpecifiersOfAppend(a, b);
      SpecifiersOfAppend(a + b, c);
    }
    GroupedByKind(env, g, e.exports);
    OfKindPartition(EntrySpecs(env, g, e.exports));
  }

  /** The declaration of one group, if non-empty, holds exactly its specifiers. */
  lemma SpecifiersOfGroup(path: string, specs: seq<ImportSpec>)
    ensures SpecifiersOf(if |specs| > 0 then [ImportDecl(path, specs)] else []) == specs
  {
    if |specs| > 0 {
      assert [ImportDecl(path, specs)][..0] == [];
    }
  }

  /** getExternalImports over the registry's external modules, in
      insertion order. */
  function ExternalImports(env: Env, g: Graph, exts: Table<ExternalRec>): seq<Stmt>
    decreases |exts|
  {
    if exts == [] then []
    else ExternalImports(env, g, exts[..|exts| - 1]) + ExternalDecls(env, g, exts[|exts| - 1].value)
  }

  /** The hoisted imports are import declarations, each from the path of a
      registered external module, at least one and at most three per module. */
  lemma {:induction false} ExternalImportsShape(env: Env, g: Graph, exts: Table<ExternalRec>)
    ensures var decls := ExternalImports(env, g, exts);
      && |exts| <= |decls| <= 3 * |exts|
      && forall s :: s in decls ==> s.ImportDecl? && exists i :: 0 <= i < |exts| && exts[i].value.path == s.source
    decreases |exts|
  {
    if exts != [] {
      var front := exts[..|exts| - 1];
      ExternalImportsShape(env, g, front);
      ExternalDeclsShape(env, g, exts[|exts| - 1].value);
      forall s | s in ExternalImports(env, g, exts)
        ensures s.ImportDecl? && exists i :: 0 <= i < |exts| && exts[i].value.path == s.source
      {
        if s in ExternalImports(env, g, front) {
          var i :| 0 <= i < |front| && front[i].value.path == s.source;
          assert exts[i] == front[i];
        } else {
          assert exts[|exts| - 1].value.path == s.source;
        }
      }
    }
  }

  /** The body of `Bundler.externalModules.forEach` for one module. */
  method ExternalImportDeclarations(env: Env, g: Graph, e: ExternalRec) returns (decls: seq<Stmt>)
    ensures decls == ExternalDecls(env, g, e)
  {
    var exports := e.exports;
    if |exports| == 0 {
      return [ImportDecl(e.path, [])];
    }
    var named: seq<ImportSpec> := [];
    var defaults: seq<ImportSpec> := [];
    var namespaces: seq<ImportSpec> := [];
    for j := 0 to |exports|
      invariant Groups(named, defaults, namespaces) == Grouped(env, g, exports[..j])
    {
      assert exports[..j + 1][..j] == exports[..j];
      var key := exports[j].key;
      var name := RecordAt(g, exports[j].value).identifierName;
      if key == "default" {
        defaults := defaults + [ImportDefault(name)];
      } else if key == "*" {
        namespaces := namespaces + [ImportNamespace(name)];
      } else {
        named := named + [ImportNamed(if env.isIllegalIdentifier(key) then Str(key) else Id(key), name)];
      }
    }
    assert exports[..|exports|] == exports;
    decls := [];
    if |named| > 0 {
      decls := decls + [ImportDecl(e.path, named)];
    }
    if |defaults| > 0 {
      decls := decls + [ImportDecl(e.path, defaults)];
    }
    if |namespaces| > 0 {
      decls := decls + [ImportDecl(e.path, namespaces)];
    }
  }

  /** getExternalImports (lines 257-322). */
  method GetExternalImports(b: Bundler) returns (decls: seq<Stmt>)
    ensures decls == ExternalImports(b.env, b.graph, b.graph.externals)
  {
    var exts := b.graph.externals;
    decls := [];
    for i := 0 to |exts|
      invariant decls == ExternalImports(b.env, b.graph, exts[..i])
    {
      assert exts[..i + 1][..i] == exts[..i];
      var more := ExternalImportDeclarations(b.env, b.graph, exts[i].value);
      decls := decls + more;
    }
    assert exts[..|exts|] == exts;
  }

  // ---------------------------------------------------------------------
  // getBundledCode
  // ---------------------------------------------------------------------

  /** Some module builds its namespace object with `_mergeNamespaces`: it has
      a `*` entry and re-exports external modules with `export *` (lines
      66-72). */
  predicate NeedsMergeNamespaces(g: Graph) {
    exists p :: p in g.modules && Has(g.modules[p].exports, "*") && |g.modules[p].externalExportAlls| > 0
  }

  /** The `forEach` over the registry that sets `needsMergeNamespaces`. */
  method ComputeNeedsMergeNamespaces(g: Graph) returns (needs: bool)
    ensures needs <==> NeedsMergeNamespaces(g)
  {
    var todo := g.modules.Keys;
    needs := false;
    while todo != {}
      invariant todo <= g.modules.Keys
      invariant needs <==>
        exists p :: p in g.modules && p !in todo && Has(g.modules[p].exports, "*") && |g.modules[p].externalExportAlls| > 0
      decreases |todo|
    {
      var p :| p in todo;
      if Has(g.modules[p].exports, "*") && |g.modules[p].externalExportAlls| > 0 {
        needs := true;
      }
      todo := todo - {p};
    }
  }

  function BodyOf(g: Graph, p: string): seq<Stmt> {
    if p in g.modules then g.modules[p].body else []
  }

  /** The bodies of the modules `ps`, one after another. */
  function ModuleBodies(g: Graph, ps: seq<string>): seq<Stmt>
    decreases |ps|
  {
    if ps == [] then [] else ModuleBodies(g, ps[..|ps| - 1]) + BodyOf(g, ps[|ps| - 1])
  }

  lemma {:induction false} ModuleBodiesAppend(g: Graph, ps: seq<string>, qs: seq<string>)
    ensures ModuleBodies(g, ps + qs) == ModuleBodies(g, ps) + ModuleBodies(g, qs)
    decreases |qs|
  {
    if qs == [] {
      assert ps + qs == ps;
    } else {
      var front, last := qs[..|qs| - 1], qs[|qs| - 1];
      assert (ps + qs)[..|ps + qs| - 1] == ps + front;
      assert (ps + qs)[|ps + qs| - 1] == last;
      calc {
        ModuleBodies(g, ps + qs);
        ModuleBodies(g, ps + front) + BodyOf(g, last);
        { ModuleBodiesAppend(g, ps, front); }
        (ModuleBodies(g, ps) + ModuleBodies(g, front)) + BodyOf(g, last);
        ModuleBodies(g, ps) + (ModuleBodies(g, front) + BodyOf(g, last));
      }
    }
  }

  /** The bundled modules in the order the walk first reaches them. */
  function BundledModules(g: Graph, entry: string): seq<string> {
    Dedup(Walk(g, entry, Post, |g.modules|))
  }

  /** Every module the walk reaches contributes its body exactly once: at
      one position of the bundled modules, and at no other. */
  lemma BundledOnce(g: Graph, entry: string, p: string)
    requires p in Walk(g, entry, Post, |g.modules|)
    ensures var ps := BundledModules(g, entry);
      exists i :: 0 <= i < |ps| && ps[i] == p && p !in ps[..i] && p !in ps[i + 1..]
        && ModuleBodies(g, ps) == ModuleBodies(g, ps[..i]) + BodyOf(g, p) + ModuleBodies(g, ps[i + 1..])
  {
    var ps := BundledModules(g, entry);
    var i :| 0 <= i < |ps| && ps[i] == p;
    OnlyAt(ps, i);
    ModuleBodiesAt(g, ps, i);
  }

  /** In a list without repetition, the element at `i` occurs nowhere else. */
  lemma OnlyAt(ps: seq<string>, i: nat)
    requires i < |ps| && forall j, k :: 0 <= j < k < |ps| ==> ps[j] != ps[k]
    ensures ps[i] !in ps[..i] && ps[i] !in ps[i + 1..]
  {
    forall j | 0 <= j < |ps| && j != i ensures ps[j] != ps[i] {
      if j < i {
        assert ps[j] != ps[i];
      } else {
        assert ps[i] != ps[j];
      }
    }
  }

  /** The bodies of a list of modules split around the module at `i`. */
  lemma ModuleBodiesAt(g: Graph, ps: seq<string>, i: nat)
    requires i < |ps|
    ensures ModuleBodies(g, ps) == ModuleBodies(g, ps[..i]) + BodyOf(g, ps[i]) + ModuleBodies(g, ps[i + 1..])
  {
    assert ps == ps[..i] + [ps[i]] + ps[i + 1..];
    ModuleBodiesAppend(g, ps[..i] + [ps[i]], ps[i + 1..]);
    ModuleBodiesAppend(g, ps[..i], [ps[i]]);
    assert [ps[i]][..0] == [];
  }

  /** The bundle: the hoisted external imports, the helper if needed, then
      the bodies of the bundled modules (lines 74-88). */
  function BundledBody(env: Env, g: Graph, entry: string): seq<Stmt> {
    ExternalImports(env, g, g.externals)
      + (if NeedsMergeNamespaces(g) then [MergeNamespacesHelper] else [])
      + ModuleBodies(g, BundledModules(g, entry))
  }

  /** The bundle starts with the hoisted imports, one to three per external
      module, followed by the helper exactly when some namespace object needs
      it, and ends with the module bodies. */
  lemma BundledBodyLayout(env: Env, g: Graph, entry: string)
    ensures var body := BundledBody(env, g, entry);
      var n := |ExternalImports(env, g, g.externals)|;
      && |g.externals| <= n <= 3 * |g.externals|
      && (forall i :: 0 <= i < n ==> body[i].ImportDecl?)
      && (n < |body| && body[n] == MergeNamespacesHelper <== NeedsMergeNamespaces(g))
      && body[n + (if NeedsMergeNamespaces(g) then 1 else 0)..] == ModuleBodies(g, BundledModules(g, entry))
  {
    ExternalImportsShape(env, g, g.externals);
    var imports := ExternalImports(env, g, g.externals);
    forall i | 0 <= i < |imports| ensures BundledBody(env, g, entry)[i].ImportDecl? {
      assert BundledBody(env, g, entry)[i] == imports[i];
      assert imports[i] in imports;
    }
  }

  /** The traversal of getBundledCode with its `bundledModules` guard
      (lines 76-83). */
  method BundleModules(g: Graph, visit: seq<string>) returns (body: seq<Stmt>)
    ensures body == ModuleBodies(g, Dedup(visit))
  {
    var bundled: seq<string> := [];
    body := [];
    for i := 0 to |visit|
      invariant bundled == Dedup(visit[..i])
      invariant body == ModuleBodies(g, bundled)
    {
      var p := visit[i];
      if p !in bundled {
        body := body + BodyOf(g, p);
        ModuleBodiesAppend(g, bundled, [p]);
        bundled := bundled + [p];
      }
      DedupStep(visit, i);
    }
    assert visit[..|visit|] == visit;
  }

  /** getBundledCode (lines 63-93), up to code generation. */
  method GetBundledCode(b: Bundler, entry: string) returns (body: seq<Stmt>)
    ensures body == BundledBody(b.env, b.graph, entry)
  {
    var imports := GetExternalImports(b);
    var needs := ComputeNeedsMergeNamespaces(b.graph);
    var modules := BundleModules(b.graph, Walk(b.graph, entry, Post, |b.graph.modules|));
    body := imports + (if needs then [MergeNamespacesHelper] else []) + modules;
  }
}
