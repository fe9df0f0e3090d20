/** Tree-shaking (src/bundler.ts lines 324-460): the usage predicate
    `isExportUsed`, which follows dependents and the re-exports they make, and
    `performTreeshake`, which deletes unused external export entries, then
    walks the internal modules deleting unreferenced declarations and the
    declarations and entries of unused exports. Deleting a declaration sets
    its binding's `removed` flag; nothing else about the binding changes. */
module Treeshake {

  import opened Tables
  import opened Graph
  import opened Session

  /** `(importedName === name || importedName === '*') && source === module.path` */
  predicate MatchesImport(ib: ImportBinding, name: string, source: string) {
    (ib.importedName == name || ib.importedName == "*") && ib.source == source
  }

  /** `importBindings.find(...)`: the position of the first matching entry, or |ibs|. */
  function FindImport(ibs: seq<ImportBinding>, name: string, source: string): (i: nat)
    ensures i <= |ibs|
    ensures i < |ibs| ==> MatchesImport(ibs[i], name, source)
    ensures forall j :: 0 <= j < i ==> !MatchesImport(ibs[j], name, source)
  {
    if ibs == [] then 0
    else if MatchesImport(ibs[0], name, source) then 0
    else 1 + FindImport(ibs[1..], name, source)
  }

  /** The first import binding of `dm` that asks `source` for `name` (or for
      its namespace) has a local binding with at least one reference. Only the
      first match is consulted, as `find` returns it. */
  predicate ImportedAndReferenced(g: Graph, dm: ModuleRec, name: string, source: string) {
    var i := FindImport(dm.importBindings, name, source);
    i < |dm.importBindings| && dm.importBindings[i].binding.Some?
    && |BindingAt(g, dm.importBindings[i].binding.value).refs| > 0
  }

  /** Entry `i` of `t` holds a record bound to `bid`. */
  predicate BoundAt(g: Graph, t: Table<RecordId>, bid: BindingId, i: int) {
    0 <= i < |t| && RecordAt(g, t[i].value).binding == Some(bid)
  }

  /** Entry `i` is the last entry of `t` bound to `bid`. */
  predicate LastBoundAt(g: Graph, t: Table<RecordId>, bid: BindingId, i: int) {
    BoundAt(g, t, bid, i) && forall j :: i < j < |t| ==> !BoundAt(g, t, bid, j)
  }

  /** Entry `i` of `t` re-exports `local` of `source`. */
  predicate ReexportAt(g: Graph, t: Table<RecordId>, local: string, source: string, i: int) {
    0 <= i < |t| && RecordAt(g, t[i].value).localName == local && RecordAt(g, t[i].value).source == source
  }

  /** Entry `i` is the last entry of `t` that re-exports `local` of `source`. */
  predicate LastReexportAt(g: Graph, t: Table<RecordId>, local: string, source: string, i: int) {
    ReexportAt(g, t, local, source, i) && forall j :: i < j < |t| ==> !ReexportAt(g, t, local, source, j)
  }

  /** The key of the last entry of `t` whose record is bound to `bid`, or ""
      when there is none (a `forEach` overwriting `reexportedName`; `null`
      and the empty string are both falsy). */
  function LastBoundKey(g: Graph, t: Table<RecordId>, bid: BindingId): string
    decreases |t|
  {
    if t == [] then ""
    else if RecordAt(g, t[|t| - 1].value).binding == Some(bid) then t[|t| - 1].key
    else LastBoundKey(g, t[..|t| - 1], bid)
  }

  /** LastBoundKey finds the last bound entry, and gives "" when none is bound. */
  lemma {:induction false} LastBoundKeyIsLast(g: Graph, t: Table<RecordId>, bid: BindingId)
    ensures var k := LastBoundKey(g, t, bid);
      && (k != "" ==> exists i :: LastBoundAt(g, t, bid, i) && t[i].key == k)
      && (forall i :: LastBoundAt(g, t, bid, i) ==> k == t[i].key)
      && ((forall i :: 0 <= i < |t| ==> !BoundAt(g, t, bid, i)) ==> k == "")
    decreases |t|
  {
    if t == [] {
    } else if RecordAt(g, t[|t| - 1].value).binding == Some(bid) {
      assert BoundAt(g, t, bid, |t| - 1);
    } else {
      LastBoundPrefix(g, t, bid);
      LastBoundKeyIsLast(g, t[..|t| - 1], bid);
    }
  }

  /** When the last entry is not bound to `bid`, the entries bound to it and
      the last of them are those of the table without that entry. */
  lemma LastBoundPrefix(g: Graph, t: Table<RecordId>, bid: BindingId)
    requires t != [] && !BoundAt(g, t, bid, |t| - 1)
    ensures forall i :: 0 <= i < |t| - 1 ==> (BoundAt(g, t[..|t| - 1], bid, i) <==> BoundAt(g, t, bid, i))
    ensures forall i :: LastBoundAt(g, t, bid, i) <==> LastBoundAt(g, t[..|t| - 1], bid, i)
  {
    var t' := t[..|t| - 1];
    forall i | 0 <= i < |t'| ensures BoundAt(g, t', bid, i) <==> BoundAt(g, t, bid, i) {
      assert t'[i] == t[i];
    }
    forall i ensures LastBoundAt(g, t, bid, i) <==> LastBoundAt(g, t', bid, i) {
      if LastBoundAt(g, t, bid, i) {
        forall j | i < j < |t'| ensures !BoundAt(g, t', bid, j) {
          assert !BoundAt(g, t, bid, j);
        }
      }
      if LastBoundAt(g, t', bid, i) {
        forall j | i < j < |t| ensures !BoundAt(g, t, bid, j) {
          if j < |t'| {
            assert !BoundAt(g, t', bid, j);
          }
        }
      }
    }
  }

  /** The key of the last entry of `t` whose record has local name `local`
      and comes from `source`, or "". */
  function LastReexportKey(g: Graph, t: Table<RecordId>, local: string, source: string): string
    decreases |t|
  {
    if t == [] then ""
    else
      var r := RecordAt(g, t[|t| - 1].value);
      if r.localName == local && r.source == source then t[|t| - 1].key
      else LastReexportKey(g, t[..|t| - 1], local, source)
  }

  /** LastReexportKey finds the last re-exporting entry, and gives "" when
      there is none. */
  lemma {:induction false} LastReexportKeyIsLast(g: Graph, t: Table<RecordId>, local: string, source: string)
    ensures var k := LastReexportKey(g, t, local, source);
      && (k != "" ==> exists i :: LastReexportAt(g, t, local, source, i) && t[i].key == k)
      && (forall i :: LastReexportAt(g, t, local, source, i) ==> k == t[i].key)
      && ((forall i :: 0 <= i < |t| ==> !ReexportAt(g, t, local, source, i)) ==> k == "")
    decreases |t|
  {
    if t == [] {
    } else if RecordAt(g, t[|t| - 1].value).localName == local && RecordAt(g, t[|t| - 1].value).source == source {
      assert ReexportAt(g, t, local, source, |t| - 1);
    } else {
      LastReexportPrefix(g, t, local, source);
      LastReexportKeyIsLast(g, t[..|t| - 1], local, source);
    }
  }

  /** The re-export counterpart of LastBoundPrefix. */
  lemma LastReexportPrefix(g: Graph, t: Table<RecordId>, local: string, source: string)
    requires t != [] && !ReexportAt(g, t, local, source, |t| - 1)
    ensures forall i :: 0 <= i < |t| - 1 ==> (ReexportAt(g, t[..|t| - 1], local, source, i) <==> ReexportAt(g, t, local, source, i))
    ensures forall i :: LastReexportAt(g, t, local, source, i) <==> LastReexportAt(g, t[..|t| - 1], local, source, i)
  {
    var t' := t[..|t| - 1];
    forall i | 0 <= i < |t'| ensures ReexportAt(g, t', local, source, i) <==> ReexportAt(g, t, local, source, i) {
      assert t'[i] == t[i];
    }
    forall i ensures LastReexportAt(g, t, local, source, i) <==> LastReexportAt(g, t', local, source, i) {
      if LastReexportAt(g, t, local, source, i) {
        forall j | i < j < |t'| ensures !ReexportAt(g, t', local, source, j) {
          assert !ReexportAt(g, t, local, source, j);
        }
      }
      if LastReexportAt(g, t', local, source, i) {
        forall j | i < j < |t| ensures !ReexportAt(g, t, local, source, j) {
          if j < |t'| {
            assert !ReexportAt(g, t', local, source, j);
          }
        }
      }
    }
  }

  /** isExportUsed (src/bundler.ts lines 324-402): export `name` of `d`
      (backed by `binding`, when given) is used when some dependent uses it.
      `fuel` bounds how many re-export hops are followed. */
  function IsExportUsed(g: Graph, d: Dep, name: string, binding: Option<BindingId>, fuel: nat): bool
    decreases fuel, 1
  {
    exists p :: p in DependentsOf(g, d) && UsedBy(g, d, name, binding, p, fuel)
  }

  /** The callback of `some` for the dependent `p`. */
  function UsedBy(g: Graph, d: Dep, name: string, binding: Option<BindingId>, p: string, fuel: nat): bool
    decreases fuel, 0
  {
    p in g.modules &&
    var dm := g.modules[p];
    var src := PathOf(d);
    || ImportedAndReferenced(g, dm, name, src)
    || (fuel > 0 && binding.Some? && LastBoundKey(g, dm.exports, binding.value) != ""
        && IsExportUsed(g, Internal(p), LastBoundKey(g, dm.exports, binding.value), binding, fuel - 1))
    || (Has(ExportsOf(g, d), "*") &&
         (|| (fuel > 0 && LastReexportKey(g, dm.exports, "*", src) != ""
              && IsExportUsed(g, Internal(p), LastReexportKey(g, dm.exports, "*", src), binding, fuel - 1))
          || (d.External? && Has(dm.exports, "*") && |dm.externalExportAlls| > 0)))
    || (fuel > 0 && LastReexportKey(g, dm.exports, name, src) != ""
        && IsExportUsed(g, Internal(p), LastReexportKey(g, dm.exports, name, src), binding, fuel - 1))
  }

  /** A dependent whose first matching import binding is referenced makes
      the export used. */
  lemma ImportedExportUsed(g: Graph, d: Dep, name: string, binding: Option<BindingId>, p: string, fuel: nat)
    requires p in DependentsOf(g, d) && p in g.modules
    requires ImportedAndReferenced(g, g.modules[p], name, PathOf(d))
    ensures IsExportUsed(g, d, name, binding, fuel)
  {
    assert UsedBy(g, d, name, binding, p, fuel);
  }

  /** A dependent that re-exports the name (`export { name as alias } from`)
      passes on the usage of its own export. */
  lemma ReexportedExportUsed(g: Graph, d: Dep, name: string, binding: Option<BindingId>, p: string, fuel: nat)
    requires p in DependentsOf(g, d) && p in g.modules
    requires var k := LastReexportKey(g, g.modules[p].exports, name, PathOf(d));
      k != "" && IsExportUsed(g, Internal(p), k, binding, fuel)
    ensures IsExportUsed(g, d, name, binding, fuel + 1)
  {
    assert UsedBy(g, d, name, binding, p, fuel + 1);
  }

  /** A module nothing depends on (the entry module) has no used export. */
  lemma NoDependentsNoUse(g: Graph, d: Dep, name: string, binding: Option<BindingId>, fuel: nat)
    requires DependentsOf(g, d) == {}
    ensures !IsExportUsed(g, d, name, binding, fuel)
  {
  }

  /** Without re-export hops, an export is used exactly when some dependent
      imports it (or the namespace) through a referenced binding, or, for an
      external module with a namespace entry, some dependent re-exports all
      of it into a namespace of its own. */
  lemma UsedWithoutHops(g: Graph, d: Dep, name: string, binding: Option<BindingId>)
    ensures IsExportUsed(g, d, name, binding, 0) <==>
      exists p :: p in DependentsOf(g, d) && p in g.modules &&
        (|| ImportedAndReferenced(g, g.modules[p], name, PathOf(d))
         || (Has(ExportsOf(g, d), "*") && d.External? && Has(g.modules[p].exports, "*")
             && |g.modules[p].externalExportAlls| > 0))
  {
  }

  /** More fuel never turns a used export into an unused one. */
  lemma {:induction false} UsedMonotone(g: Graph, d: Dep, name: string, binding: Option<BindingId>, fuel: nat)
    requires IsExportUsed(g, d, name, binding, fuel)
    ensures IsExportUsed(g, d, name, binding, fuel + 1)
    decreases fuel, 1
  {
    var p :| p in DependentsOf(g, d) && UsedBy(g, d, name, binding, p, fuel);
    UsedByMonotone(g, d, name, binding, p, fuel);
  }

  lemma {:induction false} UsedByMonotone(g: Graph, d: Dep, name: string, binding: Option<BindingId>, p: string, fuel: nat)
    requires UsedBy(g, d, name, binding, p, fuel)
    ensures UsedBy(g, d, name, binding, p, fuel + 1)
    decreases fuel, 0
  {
    var dm := g.modules[p];
    var src := PathOf(d);
    if fuel > 0 {
      if binding.Some? {
        var kb := LastBoundKey(g, dm.exports, binding.value);
        if kb != "" && IsExportUsed(g, Internal(p), kb, binding, fuel - 1) {
          UsedMonotone(g, Internal(p), kb, binding, fuel - 1);
        }
      }
      var ks := LastReexportKey(g, dm.exports, "*", src);
      if ks != "" && IsExportUsed(g, Internal(p), ks, binding, fuel - 1) {
        UsedMonotone(g, Internal(p), ks, binding, fuel - 1);
      }
      var kn := LastReexportKey(g, dm.exports, name, src);
      if kn != "" && IsExportUsed(g, Internal(p), kn, binding, fuel - 1) {
        UsedMonotone(g, Internal(p), kn, binding, fuel - 1);
      }
    }
  }

  /** `isExportUsed` as performTreeshake calls it: re-export chains of an
      acyclic graph have fewer hops than there are modules. */
  function Used(g: Graph, d: Dep, name: string, binding: Option<BindingId>): bool {
    IsExportUsed(g, d, name, binding, |g.modules|)
  }

  /** `findIndex` followed by `splice(i, 1)`: the first `x` is dropped. */
  function RemoveFirst(s: seq<string>, x: string): (r: seq<string>)
    ensures x in s ==> var i := FirstIndex(s, x); r == s[..i] + s[i + 1..]
    ensures x !in s ==> r == s
  {
    var i := FirstIndex(s, x);
    if i < |s| then s[..i] + s[i + 1..] else s
  }

  /** Every dependent (in `deps`) of an external module loses its first
      `export * from '<spec>'` entry (src/bundler.ts lines 411-418). */
  function DropExportAll(g: Graph, deps: set<string>, spec: string): (g': Graph)
    ensures g'.modules.Keys == g.modules.Keys
    ensures forall p :: p in g.modules ==> (g'.modules[p] ==
      if p in deps then g.modules[p].(externalExportAlls := RemoveFirst(g.modules[p].externalExportAlls, spec))
      else g.modules[p])
    ensures g'.externals == g.externals && g'.records == g.records && g'.bindings == g.bindings
  {
    var ms := map p | p in g.modules ::
      if p in deps then g.modules[p].(externalExportAlls := RemoveFirst(g.modules[p].externalExportAlls, spec))
      else g.modules[p];
    g.(modules := ms)
  }

  lemma RemoveGetAll(t: Table<RecordId>, name: string)
    ensures !Has(Remove(t, name), name)
    ensures forall k :: k != name ==> Get(Remove(t, name), k) == Get(t, k)
  {
    forall k ensures !Has(Remove(t, name), name) && (k != name ==> Get(Remove(t, name), k) == Get(t, k)) {
      RemoveGet(t, name, k);
    }
  }

  /** One entry `name` of the external module `spec` (lines 406-422): kept
      when used; otherwise deleted, and when it is the namespace entry each
      dependent also drops its `export *` of that module. */
  function ShakeExternalEntry(g: Graph, spec: string, name: string): (g': Graph)
    ensures Used(g, External(spec), name, None) ==> g' == g
    ensures g'.modules.Keys == g.modules.Keys
    ensures !Used(g, External(spec), name, None) ==>
      && !Has(ExportsOf(g', External(spec)), name)
      && (forall k :: k != name ==> Get(ExportsOf(g', External(spec)), k) == Get(ExportsOf(g, External(spec)), k))
      && (forall p :: p in g.modules ==> (g'.modules[p].externalExportAlls ==
            if name == "*" && p in DependentsOf(g, External(spec))
            then RemoveFirst(g.modules[p].externalExportAlls, spec)
            else g.modules[p].externalExportAlls))
  {
    if Used(g, External(spec), name, None) then g
    else
      var g1 := if name == "*" then DropExportAll(g, DependentsOf(g, External(spec)), spec) else g;
      assert ExportsOf(g1, External(spec)) == ExportsOf(g, External(spec));
      RemoveGetAll(ExportsOf(g1, External(spec)), name);
      WithExports(g1, External(spec), Remove(ExportsOf(g1, External(spec)), name))
  }

  /** The entries `names` of external module `spec`, one after another. */
  function ShakeExternalEntries(g: Graph, spec: string, names: seq<string>): Graph
    decreases |names|
  {
    if names == [] then g
    else ShakeExternalEntry(ShakeExternalEntries(g, spec, names[..|names| - 1]), spec, names[|names| - 1])
  }

  /** The first loop of performTreeshake (lines 405-424): each external
      module in registry order, each over the entries it had when reached. */
  function ShakeExternals(g: Graph, specs: seq<string>): Graph
    decreases |specs|
  {
    if specs == [] then g
    else
      var prev := ShakeExternals(g, specs[..|specs| - 1]);
      var s := specs[|specs| - 1];
      ShakeExternalEntries(prev, s, Keys(ExportsOf(prev, External(s))))
  }

  /** `binding.path.remove()` */
  function RemoveDeclaration(g: Graph, bid: BindingId): Graph {
    WithBinding(g, bid, BindingAt(g, bid).(removed := true))
  }

  /** One binding of module `p` (lines 427-447). */
  function ShakeBinding(g: Graph, p: string, bid: BindingId): Graph {
    if p !in g.modules then g
    else
      var m := g.modules[p];
      var exported := LastBoundKey(g, m.exports, bid);
      if |BindingAt(g, bid).refs| == 0 then RemoveDeclaration(g, bid)
      else if exported != "" && !m.isEntryModule && !Used(g, Internal(p), exported, Some(bid)) then
        WithExports(RemoveDeclaration(g, bid), Internal(p), Remove(m.exports, exported))
      else g
  }

  function ShakeBindings(g: Graph, p: string, ids: seq<BindingId>): Graph
    decreases |ids|
  {
    if ids == [] then g else ShakeBinding(ShakeBindings(g, p, ids[..|ids| - 1]), p, ids[|ids| - 1])
  }

  /** The rule for one binding: without references its declaration goes;
      referenced, it goes together with its export entry exactly when it is
      exported by a module other than the entry and that export is unused;
      otherwise nothing changes. */
  lemma ShakeBindingRule(g: Graph, p: string, bid: BindingId)
    requires p in g.modules && bid < |g.bindings|
    ensures var g' := ShakeBinding(g, p, bid);
      var k := LastBoundKey(g, g.modules[p].exports, bid);
      && (|BindingAt(g, bid).refs| == 0 ==>
            BindingAt(g', bid).removed && ExportsOf(g', Internal(p)) == ExportsOf(g, Internal(p)))
      && (|BindingAt(g, bid).refs| > 0 && (k == "" || g.modules[p].isEntryModule || Used(g, Internal(p), k, Some(bid))) ==>
            g' == g)
      && (|BindingAt(g, bid).refs| > 0 && k != "" && !g.modules[p].isEntryModule && !Used(g, Internal(p), k, Some(bid)) ==>
            && BindingAt(g', bid).removed
            && !Has(ExportsOf(g', Internal(p)), k)
            && (forall k' :: k' != k ==> Get(ExportsOf(g', Internal(p)), k') == Get(ExportsOf(g, Internal(p)), k')))
  {
    RemoveGetAll(g.modules[p].exports, LastBoundKey(g, g.modules[p].exports, bid));
  }

  /** Entry `i` of `t` holds a record without a binding. */
  predicate UnboundAt(g: Graph, t: Table<RecordId>, i: int) {
    0 <= i < |t| && RecordAt(g, t[i].value).binding.None?
  }

  /** The positions of the entries without a binding: all of them, each
      once, in increasing order. */
  ghost function UnboundPositions(g: Graph, t: Table<RecordId>): (ix: seq<int>)
    ensures forall a :: 0 <= a < |ix| ==> UnboundAt(g, t, ix[a])
    ensures forall a, b :: 0 <= a < b < |ix| ==> ix[a] < ix[b]
    ensures forall i :: UnboundAt(g, t, i) ==> i in ix
    decreases |t|
  {
    if t == [] then []
    else
      var t' := t[..|t| - 1];
      var rest := UnboundPositions(g, t');
      assert forall i :: 0 <= i < |t'| ==> (UnboundAt(g, t', i) <==> UnboundAt(g, t, i)) by {
        forall i | 0 <= i < |t'| ensures UnboundAt(g, t', i) <==> UnboundAt(g, t, i) {
          assert t'[i] == t[i];
        }
      }
      if UnboundAt(g, t, |t| - 1) then rest + [|t| - 1] else rest
  }

  /** The keys of the entries without a binding, in table order: the
      `filter` of lines 450-451. */
  function UnboundKeys(g: Graph, t: Table<RecordId>): (ks: seq<string>)
    ensures |ks| == |UnboundPositions(g, t)|
    ensures forall a :: 0 <= a < |ks| ==> ks[a] == t[UnboundPositions(g, t)[a]].key
    decreases |t|
  {
    if t == [] then []
    else
      var t' := t[..|t| - 1];
      var rest := UnboundKeys(g, t');
      assert forall a :: 0 <= a < |rest| ==> t'[UnboundPositions(g, t')[a]] == t[UnboundPositions(g, t')[a]];
      if RecordAt(g, t[|t| - 1].value).binding.None? then rest + [t[|t| - 1].key] else rest
  }

  /** One binding-less export of module `p` (lines 452-457): deleted unless used. */
  function ShakeUnboundExport(g: Graph, p: string, name: string): Graph {
    if Used(g, Internal(p), name, None) then g
    else WithExports(g, Internal(p), Remove(ExportsOf(g, Internal(p)), name))
  }

  function ShakeUnboundExports(g: Graph, p: string, names: seq<string>): Graph
    decreases |names|
  {
    if names == [] then g else ShakeUnboundExport(ShakeUnboundExports(g, p, names[..|names| - 1]), p, names[|names| - 1])
  }

  /** The callback of the walk in performTreeshake for module `p`. */
  function ShakeModule(g: Graph, p: string): Graph {
    var g1 := ShakeBindings(g, p, BindingIdsOf(g, p));
    ShakeUnboundExports(g1, p, UnboundKeys(g1, ExportsOf(g1, Internal(p))))
  }

  function ShakeModules(g: Graph, visit: seq<string>): Graph
    decreases |visit|
  {
    if visit == [] then g else ShakeModule(ShakeModules(g, visit[..|visit| - 1]), visit[|visit| - 1])
  }

  /** performTreeshake (lines 404-460). */
  function Treeshaken(g: Graph, entry: string): Graph {
    var g1 := ShakeExternals(g, Keys(g.externals));
    ShakeModules(g1, Walk(g1, entry, Post, |g1.modules|))
  }

  // ---------------------------------------------------------------------
  // What tree-shaking preserves

  /** `g1` is `g0` with some declarations removed and some export entries
      and `export *` bookkeeping entries deleted, and nothing else changed. */
  ghost predicate Shrinks(g0: Graph, g1: Graph) {
    && g1.records == g0.records
    && |g1.bindings| == |g0.bindings|
    && (forall id :: BindingAt(g1, id) == BindingAt(g0, id) || BindingAt(g1, id) == BindingAt(g0, id).(removed := true))
    && g1.modules.Keys == g0.modules.Keys
    && (forall p :: p in g0.modules ==>
          && g1.modules[p] == g0.modules[p].(exports := g1.modules[p].exports,
                                             externalExportAlls := g1.modules[p].externalExportAlls)
          && (forall e :: e in g1.modules[p].exports ==> e in g0.modules[p].exports)
          && (forall x :: x in g1.modules[p].externalExportAlls ==> x in g0.modules[p].externalExportAlls))
    && Keys(g1.externals) == Keys(g0.externals)
    && (forall s :: Has(g0.externals, s) ==>
          && DependentsOf(g1, External(s)) == DependentsOf(g0, External(s))
          && (forall e :: e in ExportsOf(g1, External(s)) ==> e in ExportsOf(g0, External(s))))
  }

  lemma ShrinksRefl(g: Graph)
    ensures Shrinks(g, g)
  {
  }

  lemma ShrinksTrans(g0: Graph, g1: Graph, g2: Graph)
    requires Shrinks(g0, g1) && Shrinks(g1, g2)
    ensures Shrinks(g0, g2)
  {
    forall id ensures BindingAt(g2, id) == BindingAt(g0, id) || BindingAt(g2, id) == BindingAt(g0, id).(removed := true) {
    }
    forall s | Has(g0.externals, s)
      ensures DependentsOf(g2, External(s)) == DependentsOf(g0, External(s))
      ensures forall e :: e in ExportsOf(g2, External(s)) ==> e in ExportsOf(g0, External(s))
    {
      assert Has(g1.externals, s) by {
        var i :| 0 <= i < |g0.externals| && g0.externals[i].key == s;
        assert Keys(g0.externals)[i] == s;
        assert Keys(g1.externals)[i] == s;
      }
    }
  }

  lemma RemoveShrinksTable(t: Table<RecordId>, k: string)
    ensures forall e :: e in Remove(t, k) ==> e in t
  {
  }

  lemma RemoveDeclarationShrinks(g: Graph, bid: BindingId)
    ensures Shrinks(g, RemoveDeclaration(g, bid))
  {
  }

  /** Deleting an export entry of an internal module shrinks the graph. */
  lemma DeleteInternalShrinks(g: Graph, p: string, k: string)
    ensures Shrinks(g, WithExports(g, Internal(p), Remove(ExportsOf(g, Internal(p)), k)))
  {
  }

  lemma DeleteExternalShrinks(g: Graph, s: string, k: string)
    ensures Shrinks(g, WithExports(g, External(s), Remove(ExportsOf(g, External(s)), k)))
  {
    var g' := WithExports(g, External(s), Remove(ExportsOf(g, External(s)), k));
    match Get(g.externals, s) {
      case Some(e) =>
        var t := Put(g.externals, s, e.(exports := Remove(ExportsOf(g, External(s)), k)));
        assert g'.externals == t;
        forall s' | Has(g.externals, s')
          ensures DependentsOf(g', External(s')) == DependentsOf(g, External(s'))
        {
          if s' == s {
            assert Get(t, s) == Some(e.(exports := Remove(ExportsOf(g, External(s)), k)));
          } else {
            assert Get(t, s') == Get(g.externals, s');
          }
        }
      case None =>
    }
  }

  lemma DropExportAllShrinks(g: Graph, deps: set<string>, spec: string)
    ensures Shrinks(g, DropExportAll(g, deps, spec))
  {
    var g' := DropExportAll(g, deps, spec);
    forall p | p in g.modules
      ensures forall x :: x in g'.modules[p].externalExportAlls ==> x in g.modules[p].externalExportAlls
    {
      var s := g.modules[p].externalExportAlls;
      if spec in s {
        var i := FirstIndex(s, spec);
        assert s == s[..i] + s[i..];
      }
    }
    forall s | Has(g.externals, s)
      ensures DependentsOf(g', External(s)) == DependentsOf(g, External(s))
    {
    }
  }

  lemma ShakeExternalEntryShrinks(g: Graph, spec: string, name: string)
    ensures Shrinks(g, ShakeExternalEntry(g, spec, name))
  {
    if !Used(g, External(spec), name, None) {
      var g1 := if name == "*" then DropExportAll(g, DependentsOf(g, External(spec)), spec) else g;
      if name == "*" { DropExportAllShrinks(g, DependentsOf(g, External(spec)), spec); } else { ShrinksRefl(g); }
      DeleteExternalShrinks(g1, spec, name);
      ShrinksTrans(g, g1, ShakeExternalEntry(g, spec, name));
    }
  }

  lemma {:induction false} ShakeExternalEntriesShrinks(g: Graph, spec: string, names: seq<string>)
    ensures Shrinks(g, ShakeExternalEntries(g, spec, names))
    decreases |names|
  {
    if names == [] {
      ShrinksRefl(g);
    } else {
      var prev := ShakeExternalEntries(g, spec, names[..|names| - 1]);
      ShakeExternalEntriesShrinks(g, spec, names[..|names| - 1]);
      ShakeExternalEntryShrinks(prev, spec, names[|names| - 1]);
      ShrinksTrans(g, prev, ShakeExternalEntries(g, spec, names));
    }
  }

  lemma {:induction false} ShakeExternalsShrinks(g: Graph, specs: seq<string>)
    ensures Shrinks(g, ShakeExternals(g, specs))
    decreases |specs|
  {
    if specs == [] {
      ShrinksRefl(g);
    } else {
      var prev := ShakeExternals(g, specs[..|specs| - 1]);
      var s := specs[|specs| - 1];
      ShakeExternalsShrinks(g, specs[..|specs| - 1]);
      ShakeExternalEntriesShrinks(prev, s, Keys(ExportsOf(prev, External(s))));
      ShrinksTrans(g, prev, ShakeExternals(g, specs));
    }
  }

  lemma ShakeBindingShrinks(g: Graph, p: string, bid: BindingId)
    ensures Shrinks(g, ShakeBinding(g, p, bid))
  {
    if p in g.modules {
      var m := g.modules[p];
      var g1 := RemoveDeclaration(g, bid);
      RemoveDeclarationShrinks(g, bid);
      DeleteInternalShrinks(g1, p, LastBoundKey(g, m.exports, bid));
      assert ExportsOf(g1, Internal(p)) == m.exports;
      ShrinksTrans(g, g1, WithExports(g1, Internal(p), Remove(m.exports, LastBoundKey(g, m.exports, bid))));
    }
  }

  lemma {:induction false} ShakeBindingsShrinks(g: Graph, p: string, ids: seq<BindingId>)
    ensures Shrinks(g, ShakeBindings(g, p, ids))
    decreases |ids|
  {
    if ids == [] {
      ShrinksRefl(g);
    } else {
      var prev := ShakeBindings(g, p, ids[..|ids| - 1]);
      ShakeBindingsShrinks(g, p, ids[..|ids| - 1]);
      ShakeBindingShrinks(prev, p, ids[|ids| - 1]);
      ShrinksTrans(g, prev, ShakeBindings(g, p, ids));
    }
  }

  lemma {:induction false} ShakeUnboundExportsShrinks(g: Graph, p: string, names: seq<string>)
    ensures Shrinks(g, ShakeUnboundExports(g, p, names))
    decreases |names|
  {
    if names == [] {
      ShrinksRefl(g);
    } else {
      var prev := ShakeUnboundExports(g, p, names[..|names| - 1]);
      ShakeUnboundExportsShrinks(g, p, names[..|names| - 1]);
      DeleteInternalShrinks(prev, p, names[|names| - 1]);
      ShrinksTrans(g, prev, ShakeUnboundExports(g, p, names));
    }
  }

  lemma ShakeModuleShrinks(g: Graph, p: string)
    ensures Shrinks(g, ShakeModule(g, p))
  {
    var g1 := ShakeBindings(g, p, BindingIdsOf(g, p));
    ShakeBindingsShrinks(g, p, BindingIdsOf(g, p));
    ShakeUnboundExportsShrinks(g1, p, UnboundKeys(g1, ExportsOf(g1, Internal(p))));
    ShrinksTrans(g, g1, ShakeModule(g, p));
  }

  lemma {:induction false} ShakeModulesShrinks(g: Graph, visit: seq<string>)
    ensures Shrinks(g, ShakeModules(g, visit))
    decreases |visit|
  {
    if visit == [] {
      ShrinksRefl(g);
    } else {
      var prev := ShakeModules(g, visit[..|visit| - 1]);
      ShakeModulesShrinks(g, visit[..|visit| - 1]);
      ShakeModuleShrinks(prev, visit[|visit| - 1]);
      ShrinksTrans(g, prev, ShakeModules(g, visit));
    }
  }

  /** Tree-shaking only deletes: no name, reference list, export record,
      module body or dependency changes; export tables and `export *` lists
      keep a subset of their entries; bindings can only become removed. */
  lemma TreeshakeOnlyDeletes(g: Graph, entry: string)
    ensures Shrinks(g, Treeshaken(g, entry))
  {
    var g1 := ShakeExternals(g, Keys(g.externals));
    ShakeExternalsShrinks(g, Keys(g.externals));
    ShakeModulesShrinks(g1, Walk(g1, entry, Post, |g1.modules|));
    ShrinksTrans(g, g1, Treeshaken(g, entry));
  }

  /** Tree-shaking leaves every dependency table alone, so it walks the
      same modules in the same order before and after. */
  lemma ShrinksSameDependencies(g0: Graph, g1: Graph)
    requires Shrinks(g0, g1)
    ensures SameDependencies(g0, g1)
  {
  }

  /** Every top-level binding of a walked module that has no reference is
      removed, whatever its export status (src/bundler.ts lines 438-439). */
  lemma TreeshakeRemovesUnreferenced(g: Graph, entry: string, p: string, x: BindingId)
    requires p in Walk(g, entry, Post, |g.modules|)
    requires x in g.modules[p].bindings && x < |g.bindings| && |BindingAt(g, x).refs| == 0
    ensures BindingAt(Treeshaken(g, entry), x).removed
  {
    var g1 := ShakeExternals(g, Keys(g.externals));
    ShakeExternalsShrinks(g, Keys(g.externals));
    ShrinksSameDependencies(g, g1);
    WalkSameDependencies(g, g1, entry, Post, |g.modules|);
    ShakeModulesRemovesUnreferenced(g1, Walk(g1, entry, Post, |g1.modules|), p, x);
  }

  lemma {:induction false} ShakeModulesRemovesUnreferenced(g: Graph, visit: seq<string>, p: string, x: BindingId)
    requires p in visit && p in g.modules
    requires x in g.modules[p].bindings && x < |g.bindings| && |BindingAt(g, x).refs| == 0
    ensures BindingAt(ShakeModules(g, visit), x).removed
    decreases |visit|
  {
    var front := visit[..|visit| - 1];
    var last := visit[|visit| - 1];
    var prev := ShakeModules(g, front);
    if last == p {
      assert p in prev.modules && x in BindingIdsOf(prev, p) && x < |prev.bindings| && |BindingAt(prev, x).refs| == 0 by {
        ShakeModulesShrinks(g, front);
        ShrinksKeepsBinding(g, prev, p, x);
      }
      var g2 := ShakeBindings(prev, p, BindingIdsOf(prev, p));
      ShakeBindingsRemovesUnreferenced(prev, p, BindingIdsOf(prev, p), x);
      assert Shrinks(g2, ShakeModule(prev, p)) by {
        ShakeUnboundExportsShrinks(g2, p, UnboundKeys(g2, ExportsOf(g2, Internal(p))));
      }
      ShrinksKeepsRemoved(g2, ShakeModule(prev, p), x);
    } else {
      assert p in front;
      ShakeModulesRemovesUnreferenced(g, front, p, x);
      ShakeModuleShrinks(prev, last);
      ShrinksKeepsRemoved(prev, ShakeModule(prev, last), x);
    }
  }

  lemma ShrinksKeepsRemoved(g0: Graph, g1: Graph, x: BindingId)
    requires Shrinks(g0, g1) && BindingAt(g0, x).removed
    ensures BindingAt(g1, x).removed
  {
    assert BindingAt(g1, x) == BindingAt(g0, x) || BindingAt(g1, x) == BindingAt(g0, x).(removed := true);
  }

  lemma ShrinksKeepsBinding(g0: Graph, g1: Graph, p: string, x: BindingId)
    requires Shrinks(g0, g1) && p in g0.modules && x in g0.modules[p].bindings && x < |g0.bindings|
    ensures p in g1.modules && x in g1.modules[p].bindings && x < |g1.bindings|
    ensures BindingAt(g1, x).refs == BindingAt(g0, x).refs
  {
    assert g1.modules[p].bindings == g0.modules[p].bindings;
    assert BindingAt(g1, x) == BindingAt(g0, x) || BindingAt(g1, x) == BindingAt(g0, x).(removed := true);
  }

  lemma {:induction false} ShakeBindingsRemovesUnreferenced(g: Graph, p: string, ids: seq<BindingId>, x: BindingId)
    requires p in g.modules
    requires x in ids && x < |g.bindings| && |BindingAt(g, x).refs| == 0
    ensures BindingAt(ShakeBindings(g, p, ids), x).removed
    decreases |ids|
  {
    var front := ids[..|ids| - 1];
    var prev := ShakeBindings(g, p, front);
    ShakeBindingsShrinks(g, p, front);
    ShakeBindingShrinks(prev, p, ids[|ids| - 1]);
    if x != ids[|ids| - 1] {
      assert x in front;
      ShakeBindingsRemovesUnreferenced(g, p, front, x);
    }
  }

  /** Module `e` is an entry module whose export table maps `k` to a record
      backed by a binding. */
  ghost predicate BoundEntryExport(g: Graph, e: string, k: string, id: RecordId) {
    && e in g.modules && g.modules[e].isEntryModule
    && Keyed(g.modules[e].exports)
    && Get(g.modules[e].exports, k) == Some(id)
    && RecordAt(g, id).binding.Some?
  }

  /** A key backed by a binding is not among the binding-less keys. */
  lemma BoundNotUnbound(g: Graph, t: Table<RecordId>, k: string)
    requires Keyed(t) && Get(t, k).Some? && RecordAt(g, Get(t, k).value).binding.Some?
    ensures k !in UnboundKeys(g, t)
  {
    var ks := UnboundKeys(g, t);
    var ix := UnboundPositions(g, t);
    forall a | 0 <= a < |ks| ensures ks[a] != k {
      assert UnboundAt(g, t, ix[a]) && ks[a] == t[ix[a]].key;
    }
  }

  lemma ShakeExternalEntryKeepsInternal(g: Graph, spec: string, name: string)
    ensures forall q :: ExportsOf(ShakeExternalEntry(g, spec, name), Internal(q)) == ExportsOf(g, Internal(q))
  {
    if !Used(g, External(spec), name, None) {
      var g1 := if name == "*" then DropExportAll(g, DependentsOf(g, External(spec)), spec) else g;
      forall q ensures ExportsOf(g1, Internal(q)) == ExportsOf(g, Internal(q)) {
        if q in g.modules {
          assert g1.modules[q].exports == g.modules[q].exports;
        }
      }
    }
  }

  lemma {:induction false} ShakeExternalEntriesKeepsInternal(g: Graph, spec: string, names: seq<string>)
    ensures forall q :: ExportsOf(ShakeExternalEntries(g, spec, names), Internal(q)) == ExportsOf(g, Internal(q))
    decreases |names|
  {
    if names != [] {
      ShakeExternalEntriesKeepsInternal(g, spec, names[..|names| - 1]);
      ShakeExternalEntryKeepsInternal(ShakeExternalEntries(g, spec, names[..|names| - 1]), spec, names[|names| - 1]);
    }
  }

  lemma {:induction false} ShakeExternalsKeepsInternal(g: Graph, specs: seq<string>)
    ensures forall q :: ExportsOf(ShakeExternals(g, specs), Internal(q)) == ExportsOf(g, Internal(q))
    decreases |specs|
  {
    if specs != [] {
      var prev := ShakeExternals(g, specs[..|specs| - 1]);
      var s := specs[|specs| - 1];
      ShakeExternalsKeepsInternal(g, specs[..|specs| - 1]);
      ShakeExternalEntriesKeepsInternal(prev, s, Keys(ExportsOf(prev, External(s))));
    }
  }

  lemma ShakeBindingKeepsEntry(g: Graph, p: string, x: BindingId, e: string, k: string, id: RecordId)
    requires BoundEntryExport(g, e, k, id)
    ensures BoundEntryExport(ShakeBinding(g, p, x), e, k, id)
  {
    if p in g.modules {
      var g1 := RemoveDeclaration(g, x);
      assert g1.modules == g.modules && g1.records == g.records;
      if p == e {
        assert g.modules[p].isEntryModule;
      }
    }
  }

  lemma {:induction false} ShakeBindingsKeepsEntry(g: Graph, p: string, ids: seq<BindingId>, e: string, k: string, id: RecordId)
    requires BoundEntryExport(g, e, k, id)
    ensures BoundEntryExport(ShakeBindings(g, p, ids), e, k, id)
    decreases |ids|
  {
    if ids != [] {
      ShakeBindingsKeepsEntry(g, p, ids[..|ids| - 1], e, k, id);
      ShakeBindingKeepsEntry(ShakeBindings(g, p, ids[..|ids| - 1]), p, ids[|ids| - 1], e, k, id);
    }
  }

  lemma {:induction false} ShakeUnboundExportsKeepsEntry(g: Graph, p: string, names: seq<string>, e: string, k: string, id: RecordId)
    requires BoundEntryExport(g, e, k, id)
    requires p == e ==> k !in names
    ensures BoundEntryExport(ShakeUnboundExports(g, p, names), e, k, id)
    decreases |names|
  {
    if names != [] {
      var prev := ShakeUnboundExports(g, p, names[..|names| - 1]);
      var name := names[|names| - 1];
      ShakeUnboundExportsKeepsEntry(g, p, names[..|names| - 1], e, k, id);
      ShakeUnboundExportKeepsEntry(prev, p, name, e, k, id);
    }
  }

  lemma ShakeUnboundExportKeepsEntry(g: Graph, p: string, name: string, e: string, k: string, id: RecordId)
    requires BoundEntryExport(g, e, k, id)
    requires p == e ==> k != name
    ensures BoundEntryExport(ShakeUnboundExport(g, p, name), e, k, id)
  {
    if p == e && !Used(g, Internal(p), name, None) {
      RemoveGet(g.modules[e].exports, name, k);
      RemoveKeyed(g.modules[e].exports, name);
    }
  }

  lemma ShakeModuleKeepsEntry(g: Graph, p: string, e: string, k: string, id: RecordId)
    requires BoundEntryExport(g, e, k, id)
    ensures BoundEntryExport(ShakeModule(g, p), e, k, id)
  {
    var g1 := ShakeBindings(g, p, BindingIdsOf(g, p));
    ShakeBindingsKeepsEntry(g, p, BindingIdsOf(g, p), e, k, id);
    if p == e {
      BoundNotUnbound(g1, ExportsOf(g1, Internal(p)), k);
    }
    ShakeUnboundExportsKeepsEntry(g1, p, UnboundKeys(g1, ExportsOf(g1, Internal(p))), e, k, id);
  }

  lemma {:induction false} ShakeModulesKeepsEntry(g: Graph, visit: seq<string>, e: string, k: string, id: RecordId)
    requires BoundEntryExport(g, e, k, id)
    ensures BoundEntryExport(ShakeModules(g, visit), e, k, id)
    decreases |visit|
  {
    if visit != [] {
      ShakeModulesKeepsEntry(g, visit[..|visit| - 1], e, k, id);
      ShakeModuleKeepsEntry(ShakeModules(g, visit[..|visit| - 1]), visit[|visit| - 1], e, k, id);
    }
  }

  /** The entry module's exports that are backed by one of its bindings are
      never shaken (src/bundler.ts line 440): each still maps to the same record. */
  lemma TreeshakeKeepsEntryExports(g: Graph, entry: string, k: string)
    requires entry in g.modules && g.modules[entry].isEntryModule
    requires Keyed(g.modules[entry].exports)
    requires Get(g.modules[entry].exports, k).Some? && RecordAt(g, Get(g.modules[entry].exports, k).value).binding.Some?
    ensures Get(ExportsOf(Treeshaken(g, entry), Internal(entry)), k) == Get(g.modules[entry].exports, k)
  {
    var id := Get(g.modules[entry].exports, k).value;
    var g1 := ShakeExternals(g, Keys(g.externals));
    ShakeExternalsShrinks(g, Keys(g.externals));
    ShakeExternalsKeepsInternal(g, Keys(g.externals));
    assert ExportsOf(g1, Internal(entry)) == ExportsOf(g, Internal(entry));
    assert BoundEntryExport(g1, entry, k, id);
    ShakeModulesKeepsEntry(g1, Walk(g1, entry, Post, |g1.modules|), entry, k, id);
  }

  /** performTreeshake (src/bundler.ts lines 404-460). */
  method PerformTreeshake(b: Bundler, entry: string)
    modifies b`graph
    ensures b.graph == Treeshaken(old(b.graph), entry)
  {
    ShakeExternalModules(b, Keys(b.graph.externals));
    ShakeWalkedModules(b, Walk(b.graph, entry, Post, |b.graph.modules|));
  }

  /** The first loop of performTreeshake (lines 405-424), over the external
      modules `specs` in order. */
  method ShakeExternalModules(b: Bundler, specs: seq<string>)
    modifies b`graph
    ensures b.graph == ShakeExternals(old(b.graph), specs)
  {
    var i := 0;
    while i < |specs|
      invariant i <= |specs|
      invariant b.graph == ShakeExternals(old(b.graph), specs[..i])
    {
      ShakeOneExternal(b, specs[i]);
      assert specs[..i + 1][..i] == specs[..i];
      i := i + 1;
    }
    assert specs[..|specs|] == specs;
  }

  /** The walk of performTreeshake (lines 426-459), over the visit order. */
  method ShakeWalkedModules(b: Bundler, visit: seq<string>)
    modifies b`graph
    ensures b.graph == ShakeModules(old(b.graph), visit)
  {
    var k := 0;
    while k < |visit|
      invariant k <= |visit|
      invariant b.graph == ShakeModules(old(b.graph), visit[..k])
    {
      ShakeOneModule(b, visit[k]);
      assert visit[..k + 1][..k] == visit[..k];
      k := k + 1;
    }
    assert visit[..|visit|] == visit;
  }

  /** One external module of the first loop (lines 406-423), over the
      entries it has when reached. */
  method ShakeOneExternal(b: Bundler, s: string)
    modifies b`graph
    ensures b.graph == ShakeExternalEntries(old(b.graph), s, Keys(ExportsOf(old(b.graph), External(s))))
  {
    var names := Keys(ExportsOf(b.graph, External(s)));
    ghost var g0 := b.graph;
    var j := 0;
    while j < |names|
      invariant j <= |names|
      invariant b.graph == ShakeExternalEntries(g0, s, names[..j])
    {
      ShakeExternalName(b, s, names[j]);
      assert names[..j + 1][..j] == names[..j];
      j := j + 1;
    }
    assert names[..|names|] == names;
  }

  /** The body of the loop over the entries of external module `s`. */
  method ShakeExternalName(b: Bundler, s: string, name: string)
    modifies b`graph
    ensures b.graph == ShakeExternalEntry(old(b.graph), s, name)
  {
    if !Used(b.graph, External(s), name, None) {
      if name == "*" {
        b.graph := DropExportAll(b.graph, DependentsOf(b.graph, External(s)), s);
      }
      b.graph := WithExports(b.graph, External(s), Remove(ExportsOf(b.graph, External(s)), name));
    }
  }

  /** The callback of the walk in performTreeshake (lines 427-458). */
  method ShakeOneModule(b: Bundler, p: string)
    modifies b`graph
    ensures b.graph == ShakeModule(old(b.graph), p)
  {
    var ids := BindingIdsOf(b.graph, p);
    ghost var g0 := b.graph;
    var i := 0;
    while i < |ids|
      invariant i <= |ids|
      invariant b.graph == ShakeBindings(g0, p, ids[..i])
    {
      ShakeOneBinding(b, p, ids[i]);
      assert ids[..i + 1][..i] == ids[..i];
      i := i + 1;
    }
    assert ids[..|ids|] == ids;
    ShakeUnbound(b, p, UnboundKeys(b.graph, ExportsOf(b.graph, Internal(p))));
  }

  /** The export entries of a module that no binding backs (lines 450-457). */
  method ShakeUnbound(b: Bundler, p: string, names: seq<string>)
    modifies b`graph
    ensures b.graph == ShakeUnboundExports(old(b.graph), p, names)
  {
    ghost var g1 := b.graph;
    var j := 0;
    while j < |names|
      invariant j <= |names|
      invariant b.graph == ShakeUnboundExports(g1, p, names[..j])
    {
      if !Used(b.graph, Internal(p), names[j], None) {
        b.graph := WithExports(b.graph, Internal(p), Remove(ExportsOf(b.graph, Internal(p)), names[j]));
      }
      assert names[..j + 1][..j] == names[..j];
      j := j + 1;
    }
    assert names[..|names|] == names;
  }

  /** One top-level binding of a module (lines 430-448). */
  method ShakeOneBinding(b: Bundler, p: string, bid: BindingId)
    modifies b`graph
    ensures b.graph == ShakeBinding(old(b.graph), p, bid)
  {
    if p in b.graph.modules {
      var m := b.graph.modules[p];
      var exported := LastBoundKey(b.graph, m.exports, bid);
      if |BindingAt(b.graph, bid).refs| == 0 {
        b.graph := RemoveDeclaration(b.graph, bid);
      } else if exported != "" && !m.isEntryModule {
        if !Used(b.graph, Internal(p), exported, Some(bid)) {
          b.graph := RemoveDeclaration(b.graph, bid);
          b.graph := WithExports(b.graph, Internal(p), Remove(m.exports, exported));
        }
      }
    }
  }
}
