/** The statement rewriters of src/ast-transformers, which performScopeHoisting
    runs on every top-level import and export statement of a module: each
    statement is replaced by the `const` declarations it collects, possibly
    none. They read the module's record (its path, entry flag, dependency and
    export tables); an aliased named import also respells the identifiers of
    the imported binding. */
module Rewrite {

  import opened Strings
  import opened Tables
  import opened Ast
  import opened Graph
  import opened Session
  import opened Utils

  /** `getDefaultExportIdentifierName(module.id)` for the module at `path`. */
  function DefaultNameOf(env: Env, path: string): string {
    DefaultExportIdentifierName(env.moduleId(path))
  }

  /** `const <name> = <e>;` as a statement. */
  function ConstStmt(name: string, e: Expr): Stmt {
    Declaration(DeclareConst(name, e))
  }

  /** The names the statements declare, in order. */
  function StmtsDeclaredNames(ss: seq<Stmt>): seq<string>
    decreases |ss|
  {
    if ss == [] then []
    else
      var last := ss[|ss| - 1];
      StmtsDeclaredNames(ss[..|ss| - 1]) + (if last.Declaration? then DeclaredNames(last.decl) else [])
  }

  lemma ConstDeclaresOne(ss: seq<Stmt>, name: string, e: Expr)
    ensures StmtsDeclaredNames(ss + [ConstStmt(name, e)]) == StmtsDeclaredNames(ss) + [name]
  {
    assert (ss + [ConstStmt(name, e)])[..|ss|] == ss;
    DeclareConstDeclares(name, e);
  }

  /** The module is registered and is the entry module. */
  predicate IsEntry(g: Graph, p: string) {
    p in g.modules && g.modules[p].isEntryModule
  }

  // ---------------------------------------------------------------------
  // import-declaration.ts

  /** The path of `module.dependencies[source]`. Analysis registers every
      source of the module's statements, so the fallback to the source text
      is not reached from a built graph. */
  function DependencyPath(g: Graph, p: string, source: string): string {
    if p !in g.modules then source
    else match Get(g.modules[p].dependencies, source)
      case Some(d) => PathOf(d)
      case None => source
  }

  /** `{ "n": n, ... }` over the given names, in order. */
  function SelfProperties(names: seq<string>): (ps: seq<Property>)
    ensures |ps| == |names|
    ensures forall i :: 0 <= i < |names| ==> ps[i].key == names[i] && ps[i].value == names[i]
  {
    seq(|names|, i requires 0 <= i < |names| => Property(names[i], names[i]))
  }

  /** The initialiser a default or namespace specifier binds its local name to. */
  function ImportInit(env: Env, depPath: string, spec: ImportSpec): Expr
    requires !spec.ImportNamed?
  {
    if spec.ImportDefault? then Ident(DefaultNameOf(env, depPath))
    else FrozenObject(SelfProperties(env.namedExports(depPath)))
  }

  /** What one import specifier contributes (lines 25-83): a default or
      namespace specifier a `const`, a named one nothing. */
  function ImportSpecDecls(env: Env, depPath: string, spec: ImportSpec): seq<Stmt> {
    if spec.ImportNamed? then [] else [ConstStmt(spec.local, ImportInit(env, depPath, spec))]
  }

  /** The declarations collected for `import <specs> from ...`, in order. */
  function ImportDecls(env: Env, depPath: string, specs: seq<ImportSpec>): seq<Stmt>
    decreases |specs|
  {
    if specs == [] then []
    else ImportDecls(env, depPath, specs[..|specs| - 1]) + ImportSpecDecls(env, depPath, specs[|specs| - 1])
  }

  /** The default and namespace specifiers, in order. */
  function ConstSpecs(specs: seq<ImportSpec>): (cs: seq<ImportSpec>)
    ensures forall c :: c in cs ==> c in specs && !c.ImportNamed?
    decreases |specs|
  {
    if specs == [] then []
    else
      var s := specs[|specs| - 1];
      ConstSpecs(specs[..|specs| - 1]) + (if s.ImportNamed? then [] else [s])
  }

  /** The local names of the default and namespace specifiers, in order. */
  function ConstLocals(specs: seq<ImportSpec>): seq<string>
    decreases |specs|
  {
    if specs == [] then []
    else
      var s := specs[|specs| - 1];
      ConstLocals(specs[..|specs| - 1]) + (if s.ImportNamed? then [] else [s.local])
  }

  /** The import rewriter emits one `const` per default or namespace
      specifier, in specifier order, each binding the specifier's local name;
      named specifiers contribute nothing. */
  lemma {:induction false} ImportDeclsExact(env: Env, depPath: string, specs: seq<ImportSpec>)
    ensures var out := ImportDecls(env, depPath, specs);
      var cs := ConstSpecs(specs);
      && |out| == |cs|
      && (forall i :: 0 <= i < |cs| ==> out[i] == ConstStmt(cs[i].local, ImportInit(env, depPath, cs[i])))
    decreases |specs|
  {
    if specs != [] {
      ImportDeclsExact(env, depPath, specs[..|specs| - 1]);
    }
  }

  /** The names the emitted declarations introduce are the local names of the
      default and namespace specifiers, in order. */
  lemma {:induction false} ImportDeclsDeclare(env: Env, depPath: string, specs: seq<ImportSpec>)
    ensures StmtsDeclaredNames(ImportDecls(env, depPath, specs)) == ConstLocals(specs)
    decreases |specs|
  {
    if specs != [] {
      var front := specs[..|specs| - 1];
      var s := specs[|specs| - 1];
      ImportDeclsDeclare(env, depPath, front);
      assert specs[..|specs| - 1] == front;
      if !s.ImportNamed? {
        assert ImportDecls(env, depPath, specs) == ImportDecls(env, depPath, front) + [ConstStmt(s.local, ImportInit(env, depPath, s))];
        ConstDeclaresOne(ImportDecls(env, depPath, front), s.local, ImportInit(env, depPath, s));
      } else {
        assert ImportDecls(env, depPath, specs) == ImportDecls(env, depPath, front);
        assert ConstLocals(specs) == ConstLocals(front);
      }
    }
  }

  /** A namespace import binds an object with exactly one property per named
      export of the dependency, keyed and valued by that name, in order. */
  lemma NamespaceImportObject(env: Env, depPath: string, local: string)
    ensures var out := ImportSpecDecls(env, depPath, ImportNamespace(local));
      var names := env.namedExports(depPath);
      exists ps: seq<Property> ::
        && out == [ConstStmt(local, FrozenObject(ps))]
        && |ps| == |names|
        && (forall i :: 0 <= i < |ps| ==> ps[i] == Property(names[i], names[i]))
  {
    var ps := SelfProperties(env.namedExports(depPath));
    assert ImportSpecDecls(env, depPath, ImportNamespace(local)) == [ConstStmt(local, FrozenObject(ps))];
  }

  /** The binding with its identifier sites spelled `from` respelled `to`: its
      declaration, its Identifier references and its identifier assignment
      targets (the visitor sees every Identifier node of the module). */
  function Respelled(bnd: Binding, from: string, to: string): (r: Binding)
    ensures r.kind == bnd.kind && r.removed == bnd.removed
    ensures |r.refs| == |bnd.refs| && |r.violations| == |bnd.violations|
    ensures from != to ==> r.name != from && IdentifierRef(from) !in r.refs && AssignmentTo(from) !in r.violations
    ensures forall i :: 0 <= i < |r.refs| ==>
      r.refs[i] == (if bnd.refs[i] == IdentifierRef(from) then IdentifierRef(to) else bnd.refs[i])
  {
    bnd.(name := if bnd.name == from then to else bnd.name,
         refs := seq(|bnd.refs|, i requires 0 <= i < |bnd.refs| =>
           if bnd.refs[i] == IdentifierRef(from) then IdentifierRef(to) else bnd.refs[i]),
         violations := seq(|bnd.violations|, i requires 0 <= i < |bnd.violations| =>
           if bnd.violations[i] == AssignmentTo(from) then AssignmentTo(to) else bnd.violations[i]))
  }

  /** The import binding the visitor renames: `path.scope.getBinding(local)`
      at program scope, when its kind is `module`. */
  function ImportedBinding(g: Graph, p: string, local: string): Option<BindingId> {
    if p in g.modules && local in g.modules[p].scope && BindingAt(g, g.modules[p].scope[local]).kind == ModuleKind
    then Some(g.modules[p].scope[local])
    else None
  }

  /** The nested traversal of an aliased named import (lines 61-74). */
  function RenameImported(g: Graph, p: string, local: string, target: string): Graph {
    match ImportedBinding(g, p, local)
    case Some(id) => WithBinding(g, id, Respelled(BindingAt(g, id), local, target))
    case None => g
  }

  /** `originalName === 'default' ? <default(dependency)> : originalName` */
  function ImportTarget(env: Env, depPath: string, imported: string): string {
    if imported == "default" then DefaultNameOf(env, depPath) else imported
  }

  /** A named specifier whose imported name is an identifier other than its local name. */
  predicate AliasedNamed(spec: ImportSpec) {
    spec.ImportNamed? && spec.imported.Id? && spec.imported.name != spec.local
  }

  /** The renamings of one import statement, one aliased specifier after another. */
  function ImportRenamed(env: Env, g: Graph, p: string, depPath: string, specs: seq<ImportSpec>): Graph
    decreases |specs|
  {
    if specs == [] then g
    else
      var prev := ImportRenamed(env, g, p, depPath, specs[..|specs| - 1]);
      var s := specs[|specs| - 1];
      if AliasedNamed(s) then RenameImported(prev, p, s.local, ImportTarget(env, depPath, s.imported.name)) else prev
  }

  /** The renamings touch only the bindings that module `p` imports: the
      module records, the export records and every other binding are as
      they were, and a binding that is touched keeps its kind and sites. */
  lemma {:induction false} ImportRenamedTouchesImports(env: Env, g: Graph, p: string, depPath: string, specs: seq<ImportSpec>)
    ensures var g' := ImportRenamed(env, g, p, depPath, specs);
      && g'.modules == g.modules && g'.records == g.records && g'.externals == g.externals
      && |g'.bindings| == |g.bindings|
      && (forall x :: (p !in g.modules || x !in g.modules[p].scope.Values || BindingAt(g, x).kind != ModuleKind)
            ==> BindingAt(g', x) == BindingAt(g, x))
      && (forall x :: BindingAt(g', x).kind == BindingAt(g, x).kind && |BindingAt(g', x).refs| == |BindingAt(g, x).refs|)
    decreases |specs|
  {
    if specs != [] {
      ImportRenamedTouchesImports(env, g, p, depPath, specs[..|specs| - 1]);
    }
  }

  /** An import statement without aliased named specifiers renames nothing. */
  lemma {:induction false} UnaliasedImportRenamesNothing(env: Env, g: Graph, p: string, depPath: string, specs: seq<ImportSpec>)
    requires forall s :: s in specs ==> !AliasedNamed(s)
    ensures ImportRenamed(env, g, p, depPath, specs) == g
    decreases |specs|
  {
    if specs != [] {
      assert specs[|specs| - 1] in specs;
      UnaliasedImportRenamesNothing(env, g, p, depPath, specs[..|specs| - 1]);
    }
  }

  /** After `import { imported as local }` the imported binding of `local` no
      longer has an identifier site spelled `local`: each one now spells the
      imported name (the dependency's default-export name for `default`). */
  lemma AliasedImportRespells(env: Env, g: Graph, p: string, depPath: string, imported: string, local: string)
    requires imported != local
    requires ImportedBinding(g, p, local).Some?
    requires ImportedBinding(g, p, local).value < |g.bindings|
    ensures var id := ImportedBinding(g, p, local).value;
      var target := ImportTarget(env, depPath, imported);
      var r := BindingAt(ImportRenamed(env, g, p, depPath, [ImportNamed(Id(imported), local)]), id);
      && (local != target ==> IdentifierRef(local) !in r.refs && r.name != local)
      && (forall i :: 0 <= i < |r.refs| && i < |BindingAt(g, id).refs| && BindingAt(g, id).refs[i] == IdentifierRef(local) ==>
            r.refs[i] == IdentifierRef(target))
  {
    var specs := [ImportNamed(Id(imported), local)];
    assert specs[..0] == [];
  }

  /** transformImports (import-declaration.ts lines 17-87): the statements
      that replace `import <specs> from <source>` in module `p`, collected in
      one pass over the specifiers that also runs the renamings. */
  method TransformImport(b: Bundler, p: string, source: string, specs: seq<ImportSpec>) returns (out: seq<Stmt>)
    modifies b`graph
    ensures out == ImportDecls(b.env, DependencyPath(old(b.graph), p, source), specs)
    ensures b.graph == ImportRenamed(b.env, old(b.graph), p, DependencyPath(old(b.graph), p, source), specs)
  {
    var depPath := DependencyPath(b.graph, p, source);
    ghost var g0 := b.graph;
    out := [];
    var i := 0;
    while i < |specs|
      invariant i <= |specs|
      invariant out == ImportDecls(b.env, depPath, specs[..i])
      invariant b.graph == ImportRenamed(b.env, g0, p, depPath, specs[..i])
    {
      var s := specs[i];
      match s {
        case ImportDefault(local) =>
          out := out + [ConstStmt(local, Ident(DefaultNameOf(b.env, depPath)))];
        case ImportNamespace(local) =>
          out := out + [ConstStmt(local, FrozenObject(SelfProperties(b.env.namedExports(depPath))))];
        case ImportNamed(imported, local) =>
          if imported.Id? && imported.name != local {
            var target := if imported.name == "default" then DefaultNameOf(b.env, depPath) else imported.name;
            b.graph := RenameImported(b.graph, p, local, target);
          }
      }
      assert specs[..i + 1][..i] == specs[..i];
      i := i + 1;
    }
    assert specs[..|specs|] == specs;
  }

  // ---------------------------------------------------------------------
  // export-named-declaration.ts

  /** `specifier.exported` */
  function ExportedOf(spec: ExportSpec): Name {
    match spec
    case ExportNamespaceSpec(e) => e
    case ExportDefaultSpec(x) => Id(x)
    case ExportSpecifier(_, e) => e
  }

  /** The name `const` declares for `local as exported` (lines 109-124, 55-75):
      `default` stands for the module's own default-export name. */
  function ExportTarget(env: Env, modulePath: string, exported: string): string {
    if exported == "default" then DefaultNameOf(env, modulePath) else exported
  }

  /** `export { local as exported }` with an identifier `exported` that differs from `local`. */
  predicate AliasedExport(spec: ExportSpec) {
    spec.ExportSpecifier? && spec.exported.Id? && spec.exported.name != NameText(spec.local)
  }

  /** What one specifier of a local `export { ... }` contributes (lines 98-133). */
  function LocalSpecDecls(env: Env, modulePath: string, spec: ExportSpec): seq<Stmt> {
    if AliasedExport(spec)
    then [ConstStmt(ExportTarget(env, modulePath, spec.exported.name), Ident(NameText(spec.local)))]
    else []
  }

  function LocalSpecifierDecls(env: Env, modulePath: string, specs: seq<ExportSpec>): seq<Stmt>
    decreases |specs|
  {
    if specs == [] then []
    else LocalSpecifierDecls(env, modulePath, specs[..|specs| - 1]) + LocalSpecDecls(env, modulePath, specs[|specs| - 1])
  }

  /** transformExports (lines 88-135): a declaration replaces the statement
      alone; otherwise the collected specifier declarations do. */
  function LocalExportDecls(env: Env, modulePath: string, declaration: Option<Decl>, specs: seq<ExportSpec>): seq<Stmt> {
    if declaration.Some? then [Declaration(declaration.value)] else LocalSpecifierDecls(env, modulePath, specs)
  }

  /** The aliased specifiers, in order. */
  function AliasedExports(specs: seq<ExportSpec>): (as_: seq<ExportSpec>)
    ensures forall s :: s in as_ ==> s in specs
    ensures forall i :: 0 <= i < |as_| ==> AliasedExport(as_[i])
    decreases |specs|
  {
    if specs == [] then []
    else
      var s := specs[|specs| - 1];
      AliasedExports(specs[..|specs| - 1]) + (if AliasedExport(s) then [s] else [])
  }

  /** A local `export { ... }` emits exactly one `const <exported> = <local>`
      per aliased identifier export, in specifier order (`default` declaring
      the module's default-export name); non-aliased and string-literal
      exports emit nothing. */
  lemma {:induction false} LocalSpecifierDeclsExact(env: Env, modulePath: string, specs: seq<ExportSpec>)
    ensures var out := LocalSpecifierDecls(env, modulePath, specs);
      var as_ := AliasedExports(specs);
      && |out| == |as_|
      && (forall i :: 0 <= i < |as_| ==>
            out[i] == ConstStmt(ExportTarget(env, modulePath, as_[i].exported.name), Ident(NameText(as_[i].local))))
    decreases |specs|
  {
    if specs != [] {
      LocalSpecifierDeclsExact(env, modulePath, specs[..|specs| - 1]);
    }
  }

  /** `export const x = ...`, `export function f() {}`: the declaration alone remains. */
  lemma ExportedDeclarationUnwrapped(env: Env, modulePath: string, d: Decl, specs: seq<ExportSpec>)
    ensures LocalExportDecls(env, modulePath, Some(d), specs) == [Declaration(d)]
    ensures StmtsDeclaredNames(LocalExportDecls(env, modulePath, Some(d), specs)) == DeclaredNames(d)
  {
    assert [Declaration(d)][..0] == [];
  }

  /** What one specifier of `export { ... } from ...` contributes inside the
      loop (lines 38-80). An `export x from` specifier is replaced into the
      statement and then overwritten by the final `replaceWithMultiple`, so it
      leaves nothing; `export * as ns from` and string-literal exports are
      left unhandled by the source and leave nothing either. */
  function ReexportSpecDecls(env: Env, modulePath: string, depPath: string, spec: ExportSpec): seq<Stmt> {
    if !AliasedExport(spec) then []
    else
      var e := spec.exported.name;
      var local := NameText(spec.local);
      if e == "default" then [ConstStmt(DefaultNameOf(env, modulePath), Ident(local))]
      else if local == "default" then [ConstStmt(e, Ident(DefaultNameOf(env, depPath)))]
      else [ConstStmt(e, Ident(local))]
  }

  function ReexportLoopDecls(env: Env, modulePath: string, depPath: string, specs: seq<ExportSpec>): seq<Stmt>
    decreases |specs|
  {
    if specs == [] then []
    else ReexportLoopDecls(env, modulePath, depPath, specs[..|specs| - 1]) + ReexportSpecDecls(env, modulePath, depPath, specs[|specs| - 1])
  }

  /** A re-export renames like a local export unless it names the dependency's
      `default`, which only a re-export can. */
  lemma ReexportLikeLocal(env: Env, modulePath: string, depPath: string, spec: ExportSpec)
    requires !spec.ExportSpecifier? || NameText(spec.local) != "default"
    ensures ReexportSpecDecls(env, modulePath, depPath, spec) == LocalSpecDecls(env, modulePath, spec)
  {
  }

  /** `const <default(module)> = <default(dependency)>` */
  function DefaultReexport(env: Env, modulePath: string, depPath: string): Stmt {
    ConstStmt(DefaultNameOf(env, modulePath), Ident(DefaultNameOf(env, depPath)))
  }

  /** The guard of the shortcut as written (lines 25-29): a single specifier
      whose exported name is the identifier `default`, whatever it re-exports. */
  predicate DefaultShortcutAsWritten(specs: seq<ExportSpec>) {
    |specs| == 1 && ExportedOf(specs[0]) == Id("default")
  }

  /** transformReExports as written. */
  function ReexportDeclsAsWritten(env: Env, modulePath: string, depPath: string, specs: seq<ExportSpec>): seq<Stmt> {
    if DefaultShortcutAsWritten(specs) then [DefaultReexport(env, modulePath, depPath)]
    else ReexportLoopDecls(env, modulePath, depPath, specs)
  }

  /** `export { foo as default } from './x'` takes the shortcut: the module's
      default becomes the dependency's default, not its `foo`, which is what
      the same specifier yields in any longer list. */
  lemma ShortcutMisreadsAlias(env: Env, modulePath: string, depPath: string)
    ensures var specs := [ExportSpecifier(Id("foo"), Id("default"))];
      && ReexportDeclsAsWritten(env, modulePath, depPath, specs) == [DefaultReexport(env, modulePath, depPath)]
      && ReexportLoopDecls(env, modulePath, depPath, specs) == [ConstStmt(DefaultNameOf(env, modulePath), Ident("foo"))]
      && ReexportDeclsAsWritten(env, modulePath, depPath, specs) != ReexportLoopDecls(env, modulePath, depPath, specs)
  {
    var specs := [ExportSpecifier(Id("foo"), Id("default"))];
    assert specs[..0] == [];
    var n := DefaultNameOf(env, depPath);
    assert n[..|DefaultExportPrefix|] == DefaultExportPrefix;
    assert Ident(n) != Ident("foo");
    assert DefaultReexport(env, modulePath, depPath).decl.declarators[0].init == Some(Ident(n));
  }

  /** The specifier re-exports the dependency's own default export as the
      module's default: `export { default } from` or `export default from`. */
  predicate ReexportsDefaultAsDefault(spec: ExportSpec) {
    match spec
    case ExportDefaultSpec(x) => x == "default"
    case ExportSpecifier(local, e) => e == Id("default") && NameText(local) == "default"
    case ExportNamespaceSpec(_) => false
  }

  /** The shortcut's guard as the comment beside it describes it. */
  predicate DefaultShortcut(specs: seq<ExportSpec>) {
    |specs| == 1 && ReexportsDefaultAsDefault(specs[0])
  }

  /** transformReExports with the corrected guard. */
  function ReexportDecls(env: Env, modulePath: string, depPath: string, specs: seq<ExportSpec>): seq<Stmt> {
    if DefaultShortcut(specs) then [DefaultReexport(env, modulePath, depPath)]
    else ReexportLoopDecls(env, modulePath, depPath, specs)
  }

  /** With the corrected guard the shortcut is taken exactly for a lone
      re-export of the dependency's default as the default; every other
      statement is the concatenation of what its specifiers yield in the
      loop, so an aliased specifier means the same alone as in a list. The
      corrected rewriter differs from the one as written only on a lone
      specifier exported as `default` that is not the dependency's default. */
  lemma ReexportDeclsCorrected(env: Env, modulePath: string, depPath: string, specs: seq<ExportSpec>)
    ensures DefaultShortcut(specs) ==>
      ReexportDecls(env, modulePath, depPath, specs) == [DefaultReexport(env, modulePath, depPath)]
    ensures !DefaultShortcut(specs) ==>
      ReexportDecls(env, modulePath, depPath, specs) == ReexportLoopDecls(env, modulePath, depPath, specs)
    ensures |specs| == 1 && AliasedExport(specs[0]) ==>
      ReexportDecls(env, modulePath, depPath, specs) == ReexportSpecDecls(env, modulePath, depPath, specs[0])
    ensures ReexportDecls(env, modulePath, depPath, specs) != ReexportDeclsAsWritten(env, modulePath, depPath, specs) ==>
      |specs| == 1 && ExportedOf(specs[0]) == Id("default") && !ReexportsDefaultAsDefault(specs[0])
  {
    if |specs| == 1 {
      assert specs[..0] == [];
    }
  }

  /** transformExports (lines 88-135). */
  method TransformExports(env: Env, modulePath: string, declaration: Option<Decl>, specs: seq<ExportSpec>)
    returns (out: seq<Stmt>)
    ensures out == LocalExportDecls(env, modulePath, declaration, specs)
  {
    if declaration.Some? {
      return [Declaration(declaration.value)];
    }
    out := [];
    var i := 0;
    while i < |specs|
      invariant i <= |specs|
      invariant out == LocalSpecifierDecls(env, modulePath, specs[..i])
    {
      var s := specs[i];
      if s.ExportSpecifier? && s.exported.Id? && s.exported.name != NameText(s.local) {
        var name := if s.exported.name == "default" then DefaultNameOf(env, modulePath) else s.exported.name;
        out := out + [ConstStmt(name, Ident(NameText(s.local)))];
      }
      assert specs[..i + 1][..i] == specs[..i];
      i := i + 1;
    }
    assert specs[..|specs|] == specs;
  }

  /** transformReExports (lines 13-86), with the corrected shortcut guard. */
  method TransformReExports(env: Env, modulePath: string, source: string, specs: seq<ExportSpec>)
    returns (out: seq<Stmt>)
    ensures out == ReexportDecls(env, modulePath, env.join(env.dirname(modulePath), source), specs)
  {
    var depPath := env.join(env.dirname(modulePath), source);
    if |specs| == 1 && ReexportsDefaultAsDefault(specs[0]) {
      return [DefaultReexport(env, modulePath, depPath)];
    }
    out := [];
    var i := 0;
    while i < |specs|
      invariant i <= |specs|
      invariant out == ReexportLoopDecls(env, modulePath, depPath, specs[..i])
    {
      var s := specs[i];
      if s.ExportSpecifier? && s.exported.Id? && s.exported.name != NameText(s.local) {
        var e := s.exported.name;
        var local := NameText(s.local);
        if e == "default" {
          out := out + [ConstStmt(DefaultNameOf(env, modulePath), Ident(local))];
        } else if local == "default" {
          out := out + [ConstStmt(e, Ident(DefaultNameOf(env, depPath)))];
        } else {
          out := out + [ConstStmt(e, Ident(local))];
        }
      }
      assert specs[..i + 1][..i] == specs[..i];
      i := i + 1;
    }
    assert specs[..|specs|] == specs;
  }

  /** The export-named rewriter's dispatch on `source` (lines 138-148). */
  function NamedExportDecls(env: Env, modulePath: string, declaration: Option<Decl>, specs: seq<ExportSpec>,
                            from: Option<string>): seq<Stmt> {
    match from
    case Some(src) => ReexportDecls(env, modulePath, env.join(env.dirname(modulePath), src), specs)
    case None => LocalExportDecls(env, modulePath, declaration, specs)
  }

  method TransformNamedExport(env: Env, modulePath: string, declaration: Option<Decl>, specs: seq<ExportSpec>,
                              from: Option<string>) returns (out: seq<Stmt>)
    ensures out == NamedExportDecls(env, modulePath, declaration, specs, from)
  {
    if from.Some? {
      out := TransformReExports(env, modulePath, from.value, specs);
    } else {
      out := TransformExports(env, modulePath, declaration, specs);
    }
  }

  // ---------------------------------------------------------------------
  // export-default-declaration.ts

  /** A named class or function declaration after `export default`. */
  function NamedDefault(v: DefaultExportValue): Option<Decl> {
    match v
    case DefaultDeclaration(ClassDecl(Some(_), _, _, _)) => Some(v.decl)
    case DefaultDeclaration(FunctionDecl(Some(_), _, _, _, _)) => Some(v.decl)
    case _ => None
  }

  /** The expression the rewriter binds to the module's default-export name:
      an anonymous class or function as an expression with the same
      superclass, body and decorators, or parameters, body and
      generator/async flags; an expression other than an identifier as it is. */
  function AnonymousDefault(v: DefaultExportValue): Option<Expr> {
    match v
    case DefaultDeclaration(ClassDecl(None, sc, body, decs)) => Some(ClassExpr(sc, body, decs))
    case DefaultDeclaration(FunctionDecl(None, ps, body, gen, async)) => Some(FunctionExpr(ps, body, gen, async))
    case DefaultDeclaration(_) => None
    case DefaultExpression(Ident(_)) => None
    case DefaultExpression(e) => Some(e)
  }

  /** `module.exports.default.identifierName`; None where that read throws
      because the entry does not exist. */
  function DefaultIdentifierName(g: Graph, p: string): Option<string> {
    if p !in g.modules then None
    else match Get(g.modules[p].exports, "default")
      case Some(id) => Some(RecordAt(g, id).identifierName)
      case None => None
  }

  /** The default-export rewriter as written (lines 59-90): the entry module
      keeps its statement; a named declaration replaces it; an anonymous
      class, function or non-identifier expression becomes a `const` named
      by the module's default export, read without checking that the entry
      is still there; an identifier, or anything else, is removed. */
  function DefaultExportDeclsAsWritten(g: Graph, p: string, v: DefaultExportValue): Result<seq<Stmt>> {
    if IsEntry(g, p) then Success([ExportDefault(v)])
    else if NamedDefault(v).Some? then Success([Declaration(NamedDefault(v).value)])
    else match AnonymousDefault(v)
      case None => Success([])
      case Some(e) =>
        match DefaultIdentifierName(g, p)
        case Some(n) => Success([ConstStmt(n, e)])
        case None => Failure(MissingExportEntry(p, "default"))
  }

  /** A module other than the entry whose anonymous default export has lost
      its export entry makes the rewriter throw. */
  lemma ShakenDefaultThrows(g: Graph, p: string, v: DefaultExportValue)
    requires p in g.modules && !g.modules[p].isEntryModule
    requires AnonymousDefault(v).Some? && !Has(g.modules[p].exports, "default")
    ensures DefaultExportDeclsAsWritten(g, p, v) == Failure(MissingExportEntry(p, "default"))
  {
  }

  /** The default-export rewriter with the missing entry handled: a default
      export that tree-shaking deleted is unused, so its statement is dropped. */
  function DefaultExportDecls(g: Graph, p: string, v: DefaultExportValue): seq<Stmt> {
    match DefaultExportDeclsAsWritten(g, p, v)
    case Success(out) => out
    case Failure(_) => []
  }

  /** What the corrected default-export rewriter leaves: the entry module's
      statement untouched; a named declaration alone; for an anonymous value
      one `const` declaring exactly the name the export table gives the
      default export (the name importers and namespace objects use), or
      nothing once that entry is gone; nothing for an identifier. It agrees
      with the source wherever the source does not throw. */
  lemma DefaultExportDeclsMeaning(g: Graph, p: string, v: DefaultExportValue)
    ensures IsEntry(g, p) ==> DefaultExportDecls(g, p, v) == [ExportDefault(v)]
    ensures !IsEntry(g, p) && NamedDefault(v).Some? ==>
      DefaultExportDecls(g, p, v) == [Declaration(v.decl)]
      && StmtsDeclaredNames(DefaultExportDecls(g, p, v)) == DeclaredNames(v.decl)
    ensures !IsEntry(g, p) && AnonymousDefault(v).Some? && p in g.modules && Has(g.modules[p].exports, "default") ==>
      DefaultExportDecls(g, p, v) == [ConstStmt(DefaultIdentifierName(g, p).value, AnonymousDefault(v).value)]
      && StmtsDeclaredNames(DefaultExportDecls(g, p, v)) == [RecordAt(g, Get(g.modules[p].exports, "default").value).identifierName]
    ensures !IsEntry(g, p) && NamedDefault(v).None? && (AnonymousDefault(v).None? || DefaultIdentifierName(g, p).None?) ==>
      DefaultExportDecls(g, p, v) == []
    ensures DefaultExportDeclsAsWritten(g, p, v).Success? ==> DefaultExportDecls(g, p, v) == DefaultExportDeclsAsWritten(g, p, v).value
  {
    var out := DefaultExportDecls(g, p, v);
    if |out| == 1 {
      assert out == [] + [out[0]];
      assert out[..0] == [];
    }
    if !IsEntry(g, p) && AnonymousDefault(v).Some? && p in g.modules && Has(g.modules[p].exports, "default") {
      ConstDeclaresOne([], DefaultIdentifierName(g, p).value, AnonymousDefault(v).value);
    }
  }

  // ---------------------------------------------------------------------
  // The traversal of performScopeHoisting (src/bundler.ts lines 97-103)

  /** The statements that replace one top-level statement of module `p`;
      `export * from` is deleted (export-all-declaration.ts line 7). */
  function RewriteStmt(env: Env, g: Graph, p: string, s: Stmt): seq<Stmt> {
    match s
    case ImportDecl(src, specs) => ImportDecls(env, DependencyPath(g, p, src), specs)
    case ExportNamed(d, specs, from) => NamedExportDecls(env, p, d, specs, from)
    case ExportDefault(v) => DefaultExportDecls(g, p, v)
    case ExportAll(_) => []
    case _ => [s]
  }

  /** A module body with every statement replaced by its rewrite. */
  function RewriteBody(env: Env, g: Graph, p: string, body: seq<Stmt>): seq<Stmt>
    decreases |body|
  {
    if body == [] then []
    else RewriteBody(env, g, p, body[..|body| - 1]) + RewriteStmt(env, g, p, body[|body| - 1])
  }

  /** The renamings the import statements of a body run, in order. */
  function BodyRenamed(env: Env, g: Graph, p: string, body: seq<Stmt>): Graph
    decreases |body|
  {
    if body == [] then g
    else
      var prev := BodyRenamed(env, g, p, body[..|body| - 1]);
      match body[|body| - 1]
      case ImportDecl(src, specs) => ImportRenamed(env, prev, p, DependencyPath(prev, p, src), specs)
      case _ => prev
  }

  /** A statement no rewriter changes: what the rewriters emit. */
  predicate Settled(g: Graph, p: string, s: Stmt) {
    s.Declaration? || s.OtherStmt? || s.MergeNamespacesHelper? || (s.ExportDefault? && IsEntry(g, p))
  }

  /** The rewriters read only these parts of the graph. */
  ghost predicate SameView(g1: Graph, g2: Graph, p: string) {
    && (p in g1.modules <==> p in g2.modules)
    && (p in g1.modules ==>
          && g1.modules[p].dependencies == g2.modules[p].dependencies
          && g1.modules[p].exports == g2.modules[p].exports
          && g1.modules[p].isEntryModule == g2.modules[p].isEntryModule)
    && g1.records == g2.records
  }

  lemma {:induction false} RewriteBodySameView(env: Env, g1: Graph, g2: Graph, p: string, body: seq<Stmt>)
    requires SameView(g1, g2, p)
    ensures RewriteBody(env, g1, p, body) == RewriteBody(env, g2, p, body)
    decreases |body|
  {
    if body != [] {
      RewriteBodySameView(env, g1, g2, p, body[..|body| - 1]);
      var s := body[|body| - 1];
      assert RewriteStmt(env, g1, p, s) == RewriteStmt(env, g2, p, s);
    }
  }

  /** Every statement of a rewritten body is settled. */
  lemma {:induction false} RewriteBodySettles(env: Env, g: Graph, p: string, body: seq<Stmt>)
    ensures forall s :: s in RewriteBody(env, g, p, body) ==> Settled(g, p, s)
    decreases |body|
  {
    if body != [] {
      RewriteBodySettles(env, g, p, body[..|body| - 1]);
      var s := body[|body| - 1];
      var out := RewriteStmt(env, g, p, s);
      match s {
        case ImportDecl(src, specs) =>
          ImportDeclsExact(env, DependencyPath(g, p, src), specs);
          forall t | t in out ensures Settled(g, p, t) {
            var i :| 0 <= i < |out| && out[i] == t;
          }
        case ExportNamed(d, specs, from) =>
          if from.Some? {
            ReexportLoopDeclsSettle(env, p, env.join(env.dirname(p), from.value), specs, g);
          } else if d.None? {
            LocalSpecifierDeclsExact(env, p, specs);
            forall t | t in out ensures Settled(g, p, t) {
              var i :| 0 <= i < |out| && out[i] == t;
            }
          }
        case ExportDefault(v) =>
          DefaultExportDeclsMeaning(g, p, v);
        case _ =>
      }
    }
  }

  lemma {:induction false} ReexportLoopDeclsSettle(env: Env, modulePath: string, depPath: string, specs: seq<ExportSpec>, g: Graph)
    ensures forall s :: s in ReexportLoopDecls(env, modulePath, depPath, specs) ==> s.Declaration?
    decreases |specs|
  {
    if specs != [] {
      ReexportLoopDeclsSettle(env, modulePath, depPath, specs[..|specs| - 1], g);
    }
  }

  /** Rewriting a rewritten body changes nothing and renames nothing: a
      second traversal of the same module is a no-op. */
  lemma {:induction false} RewriteSettledBody(env: Env, g: Graph, p: string, body: seq<Stmt>)
    requires forall s :: s in body ==> Settled(g, p, s)
    ensures RewriteBody(env, g, p, body) == body
    ensures BodyRenamed(env, g, p, body) == g
    decreases |body|
  {
    if body != [] {
      var front := body[..|body| - 1];
      var s := body[|body| - 1];
      assert s in body;
      forall t | t in front ensures Settled(g, p, t) {
        assert t in body;
      }
      RewriteSettledBody(env, g, p, front);
      if s.ExportDefault? {
        DefaultExportDeclsMeaning(g, p, s.value);
      }
      assert body == front + [s];
    }
  }

  lemma RewriteBodyIdempotent(env: Env, g: Graph, p: string, body: seq<Stmt>)
    ensures RewriteBody(env, g, p, RewriteBody(env, g, p, body)) == RewriteBody(env, g, p, body)
  {
    RewriteBodySettles(env, g, p, body);
    RewriteSettledBody(env, g, p, RewriteBody(env, g, p, body));
  }

  /** The renamings leave everything the rewriters read as it was. */
  lemma {:induction false} BodyRenamedKeepsView(env: Env, g: Graph, p: string, body: seq<Stmt>)
    ensures var g' := BodyRenamed(env, g, p, body);
      g'.modules == g.modules && g'.records == g.records && g'.externals == g.externals
      && |g'.bindings| == |g.bindings|
    decreases |body|
  {
    if body != [] {
      var prev := BodyRenamed(env, g, p, body[..|body| - 1]);
      BodyRenamedKeepsView(env, g, p, body[..|body| - 1]);
      match body[|body| - 1] {
        case ImportDecl(src, specs) =>
          ImportRenamedTouchesImports(env, prev, p, DependencyPath(prev, p, src), specs);
        case _ =>
      }
    }
  }

  /** The traversal of one module: every top-level statement rewritten in
      order, the renamings of its import statements run on the way. */
  method RewriteModuleBody(b: Bundler, p: string, body: seq<Stmt>) returns (out: seq<Stmt>)
    modifies b`graph
    ensures out == RewriteBody(b.env, old(b.graph), p, body)
    ensures b.graph == BodyRenamed(b.env, old(b.graph), p, body)
  {
    ghost var g0 := b.graph;
    out := [];
    var i := 0;
    while i < |body|
      invariant i <= |body|
      invariant b.graph == BodyRenamed(b.env, g0, p, body[..i])
      invariant out == RewriteBody(b.env, g0, p, body[..i])
    {
      BodyRenamedKeepsView(b.env, g0, p, body[..i]);
      RewriteStmtSameView(b.env, b.graph, g0, p, body[i]);
      var s := body[i];
      var rewritten: seq<Stmt>;
      match s {
        case ImportDecl(src, specs) =>
          rewritten := TransformImport(b, p, src, specs);
        case ExportNamed(d, specs, from) =>
          rewritten := TransformNamedExport(b.env, p, d, specs, from);
        case ExportDefault(v) =>
          rewritten := DefaultExportDecls(b.graph, p, v);
        case ExportAll(_) =>
          rewritten := [];
        case _ =>
          rewritten := [s];
      }
      out := out + rewritten;
      assert body[..i + 1][..i] == body[..i];
      i := i + 1;
    }
    assert body[..|body|] == body;
  }

  lemma RewriteStmtSameView(env: Env, g1: Graph, g2: Graph, p: string, s: Stmt)
    requires SameView(g1, g2, p)
    ensures RewriteStmt(env, g1, p, s) == RewriteStmt(env, g2, p, s)
  {
  }
}
