/** performScopeHoisting (src/bundler.ts lines 95-162): each module the walk
    from the entry reaches has its top-level statements rewritten and, when
    it is not the entry and has a `*` export entry, gains a `const` holding
    its namespace object: a frozen object over its named exports, or, when it
    re-exports external modules with `export *`, those exports merged with
    the external namespaces. */
module Hoist {

  import opened Tables
  import opened Ast
  import opened Graph
  import opened Session
  import opened Rewrite

  /** `Object.entries(module.exports)` without `default` and `*`, as
      `"name": identifierName` properties, in table order. */
  function NamespaceProperties(g: Graph, t: Table<RecordId>): seq<Property>
    decreases |t|
  {
    if t == [] then []
    else
      var prev := NamespaceProperties(g, t[..|t| - 1]);
      var e := t[|t| - 1];
      if e.key == "default" || e.key == "*" then prev else prev + [Property(e.key, RecordAt(g, e.value).identifierName)]
  }

  /** The namespace object has a property for every export entry other than
      `default` and `*`, keyed by the exported name and valued by the
      entry's identifier name, and no other property. */
  lemma {:induction false} NamespacePropertiesExact(g: Graph, t: Table<RecordId>)
    ensures forall i :: 0 <= i < |t| && t[i].key != "default" && t[i].key != "*" ==>
      Property(t[i].key, RecordAt(g, t[i].value).identifierName) in NamespaceProperties(g, t)
    ensures forall q :: q in NamespaceProperties(g, t) ==>
      && q.key != "default" && q.key != "*"
      && exists i :: 0 <= i < |t| && t[i].key == q.key && RecordAt(g, t[i].value).identifierName == q.value
    ensures |NamespaceProperties(g, t)| <= |t|
    decreases |t|
  {
    if t != [] {
      var front := t[..|t| - 1];
      NamespacePropertiesExact(g, front);
      forall q | q in NamespaceProperties(g, t)
        ensures q.key != "default" && q.key != "*"
        ensures exists i :: 0 <= i < |t| && t[i].key == q.key && RecordAt(g, t[i].value).identifierName == q.value
      {
        if q in NamespaceProperties(g, front) {
          var i :| 0 <= i < |front| && front[i].key == q.key && RecordAt(g, front[i].value).identifierName == q.value;
          assert t[i] == front[i];
        }
      }
      forall i | 0 <= i < |t| && t[i].key != "default" && t[i].key != "*"
        ensures Property(t[i].key, RecordAt(g, t[i].value).identifierName) in NamespaceProperties(g, t)
      {
        if i < |front| {
          assert front[i] == t[i];
        }
      }
    }
  }

  /** `dependency.exports['*'].identifierName` for the dependency of each
      `export * from <source>` (lines 126-131), failing as the source does
      where that entry does not exist. */
  function ExternalNamespaces(g: Graph, deps: Table<Dep>, sources: seq<string>): Result<seq<string>>
    decreases |sources|
  {
    if sources == [] then Success([])
    else
      match ExternalNamespaces(g, deps, sources[..|sources| - 1])
      case Failure(e) => Failure(e)
      case Success(prev) =>
        var src := sources[|sources| - 1];
        match Get(deps, src)
        case None => Failure(MissingExportEntry(src, "*"))
        case Some(d) =>
          match Get(ExportsOf(g, d), "*")
          case None => Failure(MissingExportEntry(PathOf(d), "*"))
          case Some(id) => Success(prev + [RecordAt(g, id).identifierName])
  }

  /** The namespace declaration of module `p`, if it gets one (lines 105-157). */
  function NamespaceDecl(g: Graph, p: string): Result<Option<Stmt>> {
    if p !in g.modules || g.modules[p].isEntryModule then Success(None)
    else
      var m := g.modules[p];
      match Get(m.exports, "*")
      case None => Success(None)
      case Some(star) =>
        var name := RecordAt(g, star).identifierName;
        var props := NamespaceProperties(g, m.exports);
        if |m.externalExportAlls| > 0 then
          match ExternalNamespaces(g, m.dependencies, m.externalExportAlls)
          case Failure(e) => Failure(e)
          case Success(ns) => Success(Some(ConstStmt(name, MergedNamespaces(props, ns))))
        else Success(Some(ConstStmt(name, FrozenObject(props))))
  }

  /** What the namespace check appends to the body of `p`. */
  function NamespaceStmts(g: Graph, p: string): seq<Stmt> {
    match NamespaceDecl(g, p)
    case Success(Some(s)) => [s]
    case _ => []
  }

  /** The namespace declaration exists exactly for a module other than the
      entry that has a `*` entry; it declares that entry's identifier name,
      and its object lists the module's named exports, merged with the
      external namespaces exactly when the module re-exports external ones. */
  lemma NamespaceDeclMeaning(g: Graph, p: string)
    requires NamespaceDecl(g, p).Success?
    ensures NamespaceDecl(g, p).value.Some? <==>
      p in g.modules && !g.modules[p].isEntryModule && Has(g.modules[p].exports, "*")
    ensures NamespaceDecl(g, p).value.Some? ==>
      var m := g.modules[p];
      var s := NamespaceDecl(g, p).value.value;
      && StmtsDeclaredNames([s]) == [RecordAt(g, Get(m.exports, "*").value).identifierName]
      && s.decl.declarators[0].init.value.properties == NamespaceProperties(g, m.exports)
      && (s.decl.declarators[0].init.value.MergedNamespaces? <==> |m.externalExportAlls| > 0)
  {
    if NamespaceDecl(g, p).value.Some? {
      var s := NamespaceDecl(g, p).value.value;
      assert [s][..0] == [];
      ConstDeclaresOne([], RecordAt(g, Get(g.modules[p].exports, "*").value).identifierName, s.decl.declarators[0].init.value);
    }
  }

  /** One visit of the hoisting walk: the traversal rewrites the body of `p`
      and runs its renamings, then the namespace check appends. */
  function HoistModule(env: Env, g: Graph, p: string): Result<Graph> {
    if p !in g.modules then Success(g)
    else
      var m := g.modules[p];
      var g1 := BodyRenamed(env, g, p, m.body);
      match NamespaceDecl(g1, p)
      case Failure(e) => Failure(e)
      case Success(ns) =>
        var tail := if ns.Some? then [ns.value] else [];
        Success(WithModule(g1, p, m.(body := RewriteBody(env, g, p, m.body) + tail)))
  }

  /** The walk of performScopeHoisting as written: every visit hoists, also
      a second visit of a module reached along two paths. */
  function HoistedAsWritten(env: Env, g: Graph, visit: seq<string>): Result<Graph>
    decreases |visit|
  {
    if visit == [] then Success(g)
    else
      match HoistedAsWritten(env, g, visit[..|visit| - 1])
      case Failure(e) => Failure(e)
      case Success(prev) => HoistModule(env, prev, visit[|visit| - 1])
  }

  /** `g2` is `g1` after some hoisting: only module bodies and bindings differ. */
  ghost predicate BodiesOnly(g1: Graph, g2: Graph) {
    && g2.records == g1.records && g2.externals == g1.externals
    && g2.modules.Keys == g1.modules.Keys
    && forall q :: q in g1.modules ==> g2.modules[q] == g1.modules[q].(body := g2.modules[q].body)
  }

  lemma NamespaceDeclBodiesOnly(g1: Graph, g2: Graph, p: string)
    requires BodiesOnly(g1, g2)
    ensures NamespaceDecl(g1, p) == NamespaceDecl(g2, p)
  {
    if p in g1.modules {
      var m1 := g1.modules[p];
      assert ExternalNamespaces(g1, m1.dependencies, m1.externalExportAlls)
          == ExternalNamespaces(g2, m1.dependencies, m1.externalExportAlls) by {
        ExternalNamespacesBodiesOnly(g1, g2, m1.dependencies, m1.externalExportAlls);
      }
      assert NamespaceProperties(g1, m1.exports) == NamespaceProperties(g2, m1.exports) by {
        NamespacePropertiesRecords(g1, g2, m1.exports);
      }
    }
  }

  lemma {:induction false} ExternalNamespacesBodiesOnly(g1: Graph, g2: Graph, deps: Table<Dep>, sources: seq<string>)
    requires BodiesOnly(g1, g2)
    ensures ExternalNamespaces(g1, deps, sources) == ExternalNamespaces(g2, deps, sources)
    decreases |sources|
  {
    if sources != [] {
      ExternalNamespacesBodiesOnly(g1, g2, deps, sources[..|sources| - 1]);
      var d := Get(deps, sources[|sources| - 1]);
      if d.Some? {
        ExportsOfBodiesOnly(g1, g2, d.value);
      }
    }
  }

  lemma ExportsOfBodiesOnly(g1: Graph, g2: Graph, d: Dep)
    requires BodiesOnly(g1, g2)
    ensures ExportsOf(g1, d) == ExportsOf(g2, d)
  {
    if d.Internal? && d.path in g1.modules {
      assert g2.modules[d.path].exports == g1.modules[d.path].exports;
    }
  }

  lemma {:induction false} NamespacePropertiesRecords(g1: Graph, g2: Graph, t: Table<RecordId>)
    requires g1.records == g2.records
    ensures NamespaceProperties(g1, t) == NamespaceProperties(g2, t)
    decreases |t|
  {
    if t != [] {
      NamespacePropertiesRecords(g1, g2, t[..|t| - 1]);
    }
  }

  /** One visit changes the body of the visited module and bindings only. */
  lemma HoistModuleBodiesOnly(env: Env, g: Graph, p: string)
    requires HoistModule(env, g, p).Success?
    ensures BodiesOnly(g, HoistModule(env, g, p).value)
    ensures forall q :: q in g.modules && q != p ==> HoistModule(env, g, p).value.modules[q] == g.modules[q]
    ensures p in g.modules ==>
      HoistModule(env, g, p).value.modules[p].body == RewriteBody(env, g, p, g.modules[p].body) + NamespaceStmts(g, p)
  {
    if p in g.modules {
      var g1 := BodyRenamed(env, g, p, g.modules[p].body);
      BodyRenamedKeepsView(env, g, p, g.modules[p].body);
      NamespaceDeclBodiesOnly(g, g1, p);
    }
  }

  /** What one visit leaves in the body of the visited module is settled. */
  lemma HoistedBodySettled(env: Env, g: Graph, p: string)
    requires p in g.modules && HoistModule(env, g, p).Success?
    ensures var g1 := HoistModule(env, g, p).value;
      forall s :: s in g1.modules[p].body ==> Settled(g1, p, s)
  {
    HoistModuleBodiesOnly(env, g, p);
    var g1 := HoistModule(env, g, p).value;
    var rb := RewriteBody(env, g, p, g.modules[p].body);
    RewriteBodySettles(env, g, p, g.modules[p].body);
    forall s | s in g1.modules[p].body ensures Settled(g1, p, s) {
      if s in rb {
        assert Settled(g, p, s);
      } else {
        assert s in NamespaceStmts(g, p);
      }
    }
  }

  /** A second visit of the same module appends its namespace declaration
      once more and changes nothing else in its body. */
  lemma HoistRevisit(env: Env, g: Graph, p: string)
    requires p in g.modules && HoistModule(env, g, p).Success?
    ensures var g1 := HoistModule(env, g, p).value;
      && HoistModule(env, g1, p).Success?
      && p in HoistModule(env, g1, p).value.modules
      && HoistModule(env, g1, p).value.modules[p].body == g1.modules[p].body + NamespaceStmts(g, p)
      && g1.modules[p].body == RewriteBody(env, g, p, g.modules[p].body) + NamespaceStmts(g, p)
  {
    HoistModuleBodiesOnly(env, g, p);
    var g1 := HoistModule(env, g, p).value;
    HoistedBodySettled(env, g, p);
    RewriteSettledBody(env, g1, p, g1.modules[p].body);
    var gr := BodyRenamed(env, g, p, g.modules[p].body);
    BodyRenamedKeepsView(env, g, p, g.modules[p].body);
    NamespaceDeclBodiesOnly(g, gr, p);
    NamespaceDeclBodiesOnly(g, g1, p);
    HoistModuleBodiesOnly(env, g1, p);
  }

  /** Hoisting a module a second time rewrites nothing more, since every
      statement the first visit left is settled, but appends its namespace
      declaration again: the bundle then declares the same `const` twice. */
  lemma HoistRevisitDuplicates(env: Env, g: Graph, p: string, ns: Stmt)
    requires p in g.modules && NamespaceDecl(g, p) == Success(Some(ns))
    ensures HoistedAsWritten(env, g, [p, p]).Success?
    ensures p in HoistedAsWritten(env, g, [p, p]).value.modules
      && HoistedAsWritten(env, g, [p, p]).value.modules[p].body == RewriteBody(env, g, p, g.modules[p].body) + [ns, ns]
  {
    HoistModuleSucceeds(env, g, p);
    HoistRevisitBody(env, g, p, ns);
    HoistedPair(env, g, p);
  }

  /** The body after two visits of a module whose namespace declaration is `ns`. */
  lemma HoistRevisitBody(env: Env, g: Graph, p: string, ns: Stmt)
    requires p in g.modules && NamespaceDecl(g, p) == Success(Some(ns))
    requires HoistModule(env, g, p).Success?
    ensures var g1 := HoistModule(env, g, p).value;
      && HoistModule(env, g1, p).Success? && p in HoistModule(env, g1, p).value.modules
      && HoistModule(env, g1, p).value.modules[p].body == RewriteBody(env, g, p, g.modules[p].body) + [ns, ns]
  {
    var rb := RewriteBody(env, g, p, g.modules[p].body);
    var g1 := HoistModule(env, g, p).value;
    assert NamespaceStmts(g, p) == [ns];
    HoistRevisit(env, g, p);
    assert g1.modules[p].body == rb + [ns];
    var b2 := HoistModule(env, g1, p).value.modules[p].body;
    assert b2 == (rb + [ns]) + [ns];
    assert (rb + [ns]) + [ns] == rb + [ns, ns];
  }

  /** A visit fails exactly where the namespace check fails. */
  lemma HoistModuleSucceeds(env: Env, g: Graph, p: string)
    ensures HoistModule(env, g, p).Success? <==> NamespaceDecl(g, p).Success?
  {
    if p in g.modules {
      BodyRenamedKeepsView(env, g, p, g.modules[p].body);
      NamespaceDeclBodiesOnly(g, BodyRenamed(env, g, p, g.modules[p].body), p);
    }
  }

  lemma HoistedPair(env: Env, g: Graph, p: string)
    requires HoistModule(env, g, p).Success?
    ensures HoistedAsWritten(env, g, [p, p]) == HoistModule(env, HoistModule(env, g, p).value, p)
  {
    HoistedSnoc(env, g, [], p);
    assert [] + [p] == [p];
    HoistedSnoc(env, g, [p], p);
    assert [p] + [p] == [p, p];
  }

  /** performScopeHoisting with each module hoisted once, as the two other
      walks of the bundler guard with their `includes` checks. */
  function Hoisted(env: Env, g: Graph, visit: seq<string>): Result<Graph> {
    HoistedAsWritten(env, g, Dedup(visit))
  }

  /** A repeated visit changes nothing. */
  lemma HoistedRevisitNoop(env: Env, g: Graph, visit: seq<string>, q: string)
    requires q in visit
    ensures Hoisted(env, g, visit + [q]) == Hoisted(env, g, visit)
  {
    var s := visit + [q];
    assert s[..|s| - 1] == visit;
  }

  /** `g'` is `g` after hoisting each module of `ps` once: each of them has
      its body rewritten once plus its namespace declaration, computed from
      `g`; every other module keeps its body. */
  ghost predicate HoistedOnce(env: Env, g: Graph, g': Graph, ps: seq<string>) {
    && BodiesOnly(g, g')
    && (forall p :: p in g.modules && p in ps ==>
          g'.modules[p].body == RewriteBody(env, g, p, g.modules[p].body) + NamespaceStmts(g, p))
    && (forall p :: p in g.modules && p !in ps ==> g'.modules[p].body == g.modules[p].body)
  }

  /** Hoisting distinct modules one after another hoists each of them once. */
  lemma {:induction false} HoistedDistinct(env: Env, g: Graph, ps: seq<string>)
    requires forall i, j :: 0 <= i < j < |ps| ==> ps[i] != ps[j]
    requires HoistedAsWritten(env, g, ps).Success?
    ensures HoistedOnce(env, g, HoistedAsWritten(env, g, ps).value, ps)
    decreases |ps|
  {
    if ps != [] {
      var front := ps[..|ps| - 1];
      var q := ps[|ps| - 1];
      HoistedDistinct(env, g, front);
      forall i | 0 <= i < |front| ensures front[i] != q {
        assert front[i] == ps[i];
      }
      assert ps == front + [q];
      HoistedOnceStep(env, g, HoistedAsWritten(env, g, front).value, front, q);
    }
  }

  /** Hoisting one more module, not hoisted before. */
  lemma HoistedOnceStep(env: Env, g: Graph, prev: Graph, ps: seq<string>, q: string)
    requires HoistedOnce(env, g, prev, ps) && q !in ps
    requires HoistModule(env, prev, q).Success?
    ensures HoistedOnce(env, g, HoistModule(env, prev, q).value, ps + [q])
  {
    HoistModuleBodiesOnly(env, prev, q);
    var g' := HoistModule(env, prev, q).value;
    if q in g.modules {
      HoistedOnceNew(env, g, prev, q);
    }
    forall p | p in g.modules && p in ps + [q]
      ensures g'.modules[p].body == RewriteBody(env, g, p, g.modules[p].body) + NamespaceStmts(g, p)
    {
      if p != q {
        assert p in ps;
      }
    }
  }

  /** A module not hoisted before is rewritten as it would be in `g`. */
  lemma HoistedOnceNew(env: Env, g: Graph, prev: Graph, q: string)
    requires BodiesOnly(g, prev) && q in g.modules && prev.modules[q] == g.modules[q]
    ensures RewriteBody(env, prev, q, prev.modules[q].body) == RewriteBody(env, g, q, g.modules[q].body)
    ensures NamespaceStmts(prev, q) == NamespaceStmts(g, q)
  {
    assert SameView(prev, g, q);
    RewriteBodySameView(env, prev, g, q, g.modules[q].body);
    NamespaceDeclBodiesOnly(g, prev, q);
  }

  /** Every module the walk reaches ends with its statements rewritten once
      and at most one namespace declaration appended; modules outside the
      walk are not touched. */
  lemma HoistedBodies(env: Env, g: Graph, visit: seq<string>)
    requires Hoisted(env, g, visit).Success?
    ensures var g' := Hoisted(env, g, visit).value;
      && BodiesOnly(g, g')
      && (forall p :: p in g.modules && p in visit ==>
            g'.modules[p].body == RewriteBody(env, g, p, g.modules[p].body) + NamespaceStmts(g, p))
      && (forall p :: p in g.modules && p !in visit ==> g'.modules[p].body == g.modules[p].body)
  {
    HoistedDistinct(env, g, Dedup(visit));
  }

  /** One more visit at the end of a walk. */
  lemma HoistedSnoc(env: Env, g: Graph, ps: seq<string>, q: string)
    ensures HoistedAsWritten(env, g, ps + [q]) ==
      if HoistedAsWritten(env, g, ps).Failure? then HoistedAsWritten(env, g, ps)
      else HoistModule(env, HoistedAsWritten(env, g, ps).value, q)
  {
    var s := ps + [q];
    assert s[..|s| - 1] == ps;
  }

  lemma {:induction false} HoistedFailureSticks(env: Env, g: Graph, ps: seq<string>, qs: seq<string>)
    requires HoistedAsWritten(env, g, ps).Failure?
    ensures HoistedAsWritten(env, g, ps + qs) == HoistedAsWritten(env, g, ps)
    decreases |qs|
  {
    if qs == [] {
      assert ps + qs == ps;
    } else {
      var front := qs[..|qs| - 1];
      HoistedFailureSticks(env, g, ps, front);
      HoistedSnoc(env, g, ps + front, qs[|qs| - 1]);
      assert ps + qs == (ps + front) + [qs[|qs| - 1]];
    }
  }

  /** The first occurrences in a prefix are a prefix of the first occurrences. */
  lemma {:induction false} DedupPrefix(s: seq<string>, j: nat)
    requires j <= |s|
    ensures Dedup(s[..j]) <= Dedup(s)
    decreases |s| - j
  {
    if j < |s| {
      DedupPrefix(s[..|s| - 1], j);
      assert s[..|s| - 1][..j] == s[..j];
    } else {
      assert s[..j] == s;
    }
  }

  /** The callback of the hoisting walk for module `p`. */
  method HoistOneModule(b: Bundler, p: string) returns (err: Option<BundleError>)
    modifies b`graph
    ensures HoistModule(b.env, old(b.graph), p).Success? ==>
      err.None? && b.graph == HoistModule(b.env, old(b.graph), p).value
    ensures HoistModule(b.env, old(b.graph), p).Failure? ==>
      err == Some(HoistModule(b.env, old(b.graph), p).error)
      && b.graph == BodyRenamed(b.env, old(b.graph), p, old(b.graph).modules[p].body)
  {
    if p !in b.graph.modules {
      return None;
    }
    var m := b.graph.modules[p];
    ghost var g0 := b.graph;
    var body := RewriteModuleBody(b, p, m.body);
    BodyRenamedKeepsView(b.env, g0, p, m.body);
    var ns := NamespaceDecl(b.graph, p);
    match ns {
      case Failure(e) =>
        return Some(e);
      case Success(s) =>
        var tail := if s.Some? then [s.value] else [];
        b.graph := WithModule(b.graph, p, m.(body := body + tail));
        return None;
    }
  }

  /** A failing visit makes the whole hoisting fail with its error. */
  lemma HoistFailurePropagates(env: Env, g: Graph, visit: seq<string>, i: nat, before: Graph)
    requires i < |visit| && visit[i] !in Dedup(visit[..i])
    requires HoistedAsWritten(env, g, Dedup(visit[..i])) == Success(before)
    requires HoistModule(env, before, visit[i]).Failure?
    ensures Hoisted(env, g, visit) == HoistModule(env, before, visit[i])
  {
    var ps := Dedup(visit[..i]) + [visit[i]];
    FirstVisitPrefix(visit, i);
    HoistedSnoc(env, g, Dedup(visit[..i]), visit[i]);
    HoistedFailureSticks(env, g, ps, Dedup(visit)[|ps|..]);
  }

  /** A first visit extends the first occurrences before it, and those
      continue to the first occurrences of the whole walk. */
  lemma FirstVisitPrefix(visit: seq<string>, i: nat)
    requires i < |visit| && visit[i] !in Dedup(visit[..i])
    ensures var ps := Dedup(visit[..i]) + [visit[i]];
      |ps| <= |Dedup(visit)| && Dedup(visit) == ps + Dedup(visit)[|ps|..]
  {
    var ps := Dedup(visit[..i]) + [visit[i]];
    assert Dedup(visit[..i + 1]) == ps by { DedupStep(visit, i); }
    assert ps <= Dedup(visit) by { DedupPrefix(visit, i + 1); }
  }

  /** performScopeHoisting: hoists the modules of the walk from the entry. */
  method PerformScopeHoisting(b: Bundler, entry: string) returns (err: Option<BundleError>)
    modifies b`graph
    ensures var r := Hoisted(b.env, old(b.graph), Walk(old(b.graph), entry, Post, |old(b.graph).modules|));
      && (r.Success? ==> err.None? && b.graph == r.value)
      && (r.Failure? ==> err == Some(r.error))
  {
    var visit := Walk(b.graph, entry, Post, |b.graph.modules|);
    err := HoistVisits(b, visit);
  }

  /** The traversal callback over a visit order, each module once. */
  method HoistVisits(b: Bundler, visit: seq<string>) returns (err: Option<BundleError>)
    modifies b`graph
    ensures var r := Hoisted(b.env, old(b.graph), visit);
      && (r.Success? ==> err.None? && b.graph == r.value)
      && (r.Failure? ==> err == Some(r.error))
  {
    ghost var g0 := b.graph;
    var hoisted: seq<string> := [];
    var i := 0;
    while i < |visit|
      invariant i <= |visit|
      invariant hoisted == Dedup(visit[..i])
      invariant HoistedAsWritten(b.env, g0, hoisted) == Success(b.graph)
    {
      var p := visit[i];
      assert Dedup(visit[..i + 1]) == if p in hoisted then hoisted else hoisted + [p] by {
        DedupStep(visit, i);
      }
      if p !in hoisted {
        ghost var before := b.graph;
        err := HoistOneModule(b, p);
        if err.Some? {
          HoistFailurePropagates(b.env, g0, visit, i, before);
          return;
        }
        assert HoistedAsWritten(b.env, g0, hoisted + [p]) == Success(b.graph) by {
          HoistedSnoc(b.env, g0, hoisted, p);
        }
        hoisted := hoisted + [p];
      }
      i := i + 1;
    }
    assert visit[..|visit|] == visit;
    return None;
  }
}
