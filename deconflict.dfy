/** Identifier deconfliction (src/bundler.ts lines 164-255): every top-level
    name of the merged program is claimed in one growing set; a name already
    claimed is given the first free `$k` suffix, and the rename is carried to
    the binding's reference sites, its assignment targets and the export
    record bound to it. */
module Deconflict {

  import opened Strings
  import opened Tables
  import opened Graph
  import opened Session

  /** `${name}$${k}` */
  function Suffixed(name: string, k: nat): string {
    name + "$" + Decimal(k)
  }

  lemma SuffixedInjective(name: string, a: nat, b: nat)
    requires Suffixed(name, a) == Suffixed(name, b)
    ensures a == b
  {
    var n := |name| + 1;
    assert Suffixed(name, a)[n..] == Decimal(a);
    assert Suffixed(name, b)[n..] == Decimal(b);
    DecimalInjective(a, b);
  }

  /** The names `name$1` .. `name$m`. */
  ghost function SuffixedUpTo(name: string, m: nat): set<string> {
    set k | 1 <= k <= m :: Suffixed(name, k)
  }

  lemma {:induction false} SuffixedUpToSize(name: string, m: nat)
    ensures |SuffixedUpTo(name, m)| == m
  {
    if m == 0 {
      assert SuffixedUpTo(name, 0) == {};
    } else {
      SuffixedUpToSize(name, m - 1);
      assert SuffixedUpTo(name, m) == SuffixedUpTo(name, m - 1) + {Suffixed(name, m)};
      if Suffixed(name, m) in SuffixedUpTo(name, m - 1) {
        var k :| 1 <= k <= m - 1 && Suffixed(name, k) == Suffixed(name, m);
        SuffixedInjective(name, k, m);
      }
    }
  }

  /** A finite set holds at most |claimed| of the names `name$1`, `name$2`,
      ...: the suffix search stops. */
  lemma ClaimedUpTo(claimed: set<string>, name: string, m: nat)
    requires forall k :: 1 <= k <= m ==> Suffixed(name, k) in claimed
    ensures m <= |claimed|
  {
    SuffixedUpToSize(name, m);
    var s := SuffixedUpTo(name, m);
    assert s <= claimed;
    assert claimed == s + (claimed - s);
  }

  /** The smallest k >= from whose suffixed name is free, when every suffix
      below `from` is taken. */
  function FirstFreeSuffix(claimed: set<string>, name: string, from: nat): (k: nat)
    requires 1 <= from
    requires forall j :: 1 <= j < from ==> Suffixed(name, j) in claimed
    ensures from <= k
    ensures Suffixed(name, k) !in claimed
    ensures forall j :: 1 <= j < k ==> Suffixed(name, j) in claimed
    decreases |claimed| + 1 - from
  {
    ClaimedUpTo(claimed, name, from - 1);
    if Suffixed(name, from) !in claimed then from
    else
      ClaimedUpTo(claimed, name, from);
      FirstFreeSuffix(claimed, name, from + 1)
  }

  /** The name getDeconflictedIdentifierName hands out: the name itself when
      free, otherwise `name$k` for the smallest k >= 1 that is free. */
  function DeconflictedName(claimed: set<string>, name: string): (r: string)
    ensures r !in claimed
    ensures name !in claimed ==> r == name
    ensures name in claimed ==>
      exists k :: 1 <= k && r == Suffixed(name, k) && forall j :: 1 <= j < k ==> Suffixed(name, j) in claimed
  {
    if name !in claimed then name else Suffixed(name, FirstFreeSuffix(claimed, name, 1))
  }

  /** The search loop of getDeconflictedIdentifierName (src/bundler.ts lines
      167-176). The candidate is read before `index` is incremented, so after
      `name$1` is found taken, `name$1` is tried a second time before
      `name$2`; the result is still the smallest free suffix. */
  method FreeName(claimed: set<string>, name: string) returns (r: string)
    ensures r == DeconflictedName(claimed, name)
  {
    if name in claimed {
      var index := 1;
      r := Suffixed(name, index);
      while r in claimed
        invariant 1 <= index
        invariant r == Suffixed(name, if index == 1 then 1 else index - 1)
        invariant forall j :: 1 <= j < (if index == 1 then 1 else index - 1) ==> Suffixed(name, j) in claimed
        decreases |claimed| + 1 - index
      {
        ClaimedUpTo(claimed, name, if index == 1 then 1 else index - 1);
        r := Suffixed(name, index);
        index := index + 1;
      }
      var m := if index == 1 then 1 else index - 1;
      var k := FirstFreeSuffix(claimed, name, 1);
      assert m == k;
    } else {
      r := name;
    }
  }

  /** getDeconflictedIdentifierName (src/bundler.ts lines 164-180): the
      chosen name is claimed, and the claimed set grows by exactly one. */
  method GetDeconflictedIdentifierName(b: Bundler, name: string) returns (r: string)
    modifies b`identifierNames
    ensures r == DeconflictedName(old(b.identifierNames), name)
    ensures b.identifierNames == old(b.identifierNames) + {r}
    ensures |b.identifierNames| == |old(b.identifierNames)| + 1
  {
    r := FreeName(b.identifierNames, name);
    b.identifierNames := b.identifierNames + {r};
  }

  /** The names four `data` bindings receive in turn, as in the
      diamond-import fixture: `data`, `data$1`, `data$2`, `data$3`. */
  lemma DiamondNames()
    ensures DeconflictedName({}, "data") == "data"
    ensures DeconflictedName({"data"}, "data") == "data$1"
    ensures DeconflictedName({"data", "data$1"}, "data") == "data$2"
    ensures DeconflictedName({"data", "data$1", "data$2"}, "data") == "data$3"
  {
    assert Suffixed("data", 1) == "data$1";
    assert Suffixed("data", 2) == "data$2";
    assert Suffixed("data", 3) == "data$3";
  }

  function RenameRef(r: RefSite, n: string): RefSite {
    match r
    case IdentifierRef(_) => IdentifierRef(n)
    case OtherRef => OtherRef
  }

  function RenameViolation(v: Violation, n: string): Violation {
    match v
    case AssignmentTo(_) => AssignmentTo(n)
    case OtherViolation => OtherViolation
  }

  /** The binding after `binding.identifier.name = n` and the rewrite of its
      Identifier reference sites and identifier assignment targets (src/bundler.ts
      lines 191-206): every such site now spells `n`, and no site changes kind. */
  function Renamed(bnd: Binding, n: string): (r: Binding)
    ensures r.name == n && r.kind == bnd.kind && r.removed == bnd.removed
    ensures |r.refs| == |bnd.refs| && |r.violations| == |bnd.violations|
    ensures forall i :: 0 <= i < |r.refs| ==>
      (r.refs[i].IdentifierRef? <==> bnd.refs[i].IdentifierRef?) && (r.refs[i].IdentifierRef? ==> r.refs[i].name == n)
    ensures forall i :: 0 <= i < |r.violations| ==>
      (r.violations[i].AssignmentTo? <==> bnd.violations[i].AssignmentTo?)
      && (r.violations[i].AssignmentTo? ==> r.violations[i].name == n)
  {
    bnd.(name := n,
         refs := seq(|bnd.refs|, i requires 0 <= i < |bnd.refs| => RenameRef(bnd.refs[i], n)),
         violations := seq(|bnd.violations|, i requires 0 <= i < |bnd.violations| => RenameViolation(bnd.violations[i], n)))
  }

  /** `exports.find(e => e.binding === binding)`: the position in `ids` of
      the first record bound to `bid`, or |ids|. */
  function FirstBoundRecord(g: Graph, ids: seq<RecordId>, bid: BindingId): (i: nat)
    ensures i <= |ids|
    ensures i < |ids| ==> RecordAt(g, ids[i]).binding == Some(bid)
    ensures forall j :: 0 <= j < i ==> RecordAt(g, ids[j]).binding != Some(bid)
  {
    if ids == [] then 0
    else if RecordAt(g, ids[0]).binding == Some(bid) then 0
    else 1 + FirstBoundRecord(g, ids[1..], bid)
  }

  /** One rename of deconflictBindings: the binding, and the first export
      record of `exportIds` bound to it, now carry `n`; nothing else changes. */
  function RenameBinding(g: Graph, exportIds: seq<RecordId>, bid: BindingId, n: string): (g': Graph)
    ensures bid < |g.bindings| ==> BindingAt(g', bid) == Renamed(BindingAt(g, bid), n)
    ensures forall x :: x != bid ==> BindingAt(g', x) == BindingAt(g, x)
    ensures |g'.bindings| == |g.bindings| && |g'.records| == |g.records|
    ensures g'.modules == g.modules && g'.externals == g.externals
    ensures var i := FirstBoundRecord(g, exportIds, bid);
      forall id :: RecordAt(g', id) ==
        if i < |exportIds| && id == exportIds[i] then RecordAt(g, id).(identifierName := n) else RecordAt(g, id)
  {
    var g1 := WithBinding(g, bid, Renamed(BindingAt(g, bid), n));
    var i := FirstBoundRecord(g1, exportIds, bid);
    if i < |exportIds| then WithRecord(g1, exportIds[i], RecordAt(g1, exportIds[i]).(identifierName := n)) else g1
  }

  /** The graph and claimed set once deconflictBindings has handled the
      bindings `ids` in order (src/bundler.ts lines 182-216): each binding
      takes the name getDeconflictedIdentifierName hands out, and is renamed
      only when that differs from its own. */
  function BindingsDeconflicted(g: Graph, claimed: set<string>, exportIds: seq<RecordId>, ids: seq<BindingId>)
    : (r: (Graph, set<string>))
    ensures claimed <= r.1
    ensures r.0.modules == g.modules && r.0.externals == g.externals
    ensures |r.0.bindings| == |g.bindings| && |r.0.records| == |g.records|
    ensures forall x :: x !in ids ==> BindingAt(r.0, x) == BindingAt(g, x)
    ensures forall id :: RecordAt(r.0, id).binding == RecordAt(g, id).binding
    decreases |ids|
  {
    if ids == [] then (g, claimed)
    else
      var prev := BindingsDeconflicted(g, claimed, exportIds, ids[..|ids| - 1]);
      DeconflictBinding(prev.0, prev.1, exportIds, ids[|ids| - 1])
  }

  /** One iteration of deconflictBindings: the binding takes the name
      getDeconflictedIdentifierName hands out, and is renamed only when that
      differs from its own. */
  function DeconflictBinding(g: Graph, claimed: set<string>, exportIds: seq<RecordId>, bid: BindingId)
    : (r: (Graph, set<string>))
    ensures var n := DeconflictedName(claimed, BindingAt(g, bid).name);
      && r.1 == claimed + {n}
      && (bid < |g.bindings| ==> BindingAt(r.0, bid).name == n)
      && (n == BindingAt(g, bid).name ==> r.0 == g)
    ensures r.0.modules == g.modules && r.0.externals == g.externals
    ensures |r.0.bindings| == |g.bindings| && |r.0.records| == |g.records|
    ensures forall x :: x != bid ==> BindingAt(r.0, x) == BindingAt(g, x)
    ensures forall id :: RecordAt(r.0, id).binding == RecordAt(g, id).binding
  {
    var was := BindingAt(g, bid).name;
    var n := DeconflictedName(claimed, was);
    (if n != was then RenameBinding(g, exportIds, bid, n) else g, claimed + {n})
  }

  /** The bindings of `s` are in the arena, carry names that are all claimed,
      and no two of them share a name. */
  ghost predicate DistinctlyClaimed(g: Graph, claimed: set<string>, s: seq<BindingId>) {
    && (forall i :: 0 <= i < |s| ==> s[i] < |g.bindings| && BindingAt(g, s[i]).name in claimed)
    && (forall i, j :: 0 <= i < j < |s| ==> BindingAt(g, s[i]).name != BindingAt(g, s[j]).name)
  }

  /** Claiming one more fresh name for one more binding keeps the names distinct. */
  lemma ClaimOneMore(g0: Graph, g1: Graph, c0: set<string>, s: seq<BindingId>, bid: BindingId, n: string)
    requires DistinctlyClaimed(g0, c0, s)
    requires bid !in s && bid < |g1.bindings| && |g1.bindings| == |g0.bindings|
    requires forall x :: x != bid ==> BindingAt(g1, x) == BindingAt(g0, x)
    requires BindingAt(g1, bid).name == n && n !in c0
    ensures DistinctlyClaimed(g1, c0 + {n}, s + [bid])
  {
    var t := s + [bid];
    forall i | 0 <= i < |s|
      ensures BindingAt(g1, t[i]) == BindingAt(g0, s[i])
    {
      assert t[i] == s[i] != bid;
    }
  }

  /** deconflictBindings gives the bindings it handles names that were free
      before it ran, distinct from each other and from every binding already
      deconflicted. */
  lemma {:induction false} BindingsDeconflictedFresh(g: Graph, claimed: set<string>, exportIds: seq<RecordId>,
                                                     ids: seq<BindingId>, done: seq<BindingId>)
    requires DistinctlyClaimed(g, claimed, done)
    requires forall i :: 0 <= i < |ids| ==> ids[i] < |g.bindings| && ids[i] !in done
    requires forall i, j :: 0 <= i < j < |ids| ==> ids[i] != ids[j]
    ensures DistinctlyClaimed(BindingsDeconflicted(g, claimed, exportIds, ids).0,
                              BindingsDeconflicted(g, claimed, exportIds, ids).1, done + ids)
    decreases |ids|
  {
    if ids == [] {
      assert done + ids == done;
    } else {
      var front := ids[..|ids| - 1];
      var bid := ids[|ids| - 1];
      var prev := BindingsDeconflicted(g, claimed, exportIds, front);
      BindingsDeconflictedFresh(g, claimed, exportIds, front, done);
      assert bid !in done + front;
      var n := DeconflictedName(prev.1, BindingAt(prev.0, bid).name);
      var r := DeconflictBinding(prev.0, prev.1, exportIds, bid);
      assert BindingsDeconflicted(g, claimed, exportIds, ids) == r;
      ClaimOneMore(prev.0, r.0, prev.1, done + front, bid, n);
      assert done + ids == (done + front) + [bid];
    }
  }

  /** No binding deconflictBindings handles ends with a name claimed before it ran. */
  lemma {:induction false} BindingsDeconflictedUnclaimed(g: Graph, claimed: set<string>, exportIds: seq<RecordId>,
                                                         ids: seq<BindingId>)
    requires forall i :: 0 <= i < |ids| ==> ids[i] < |g.bindings|
    requires forall i, j :: 0 <= i < j < |ids| ==> ids[i] != ids[j]
    ensures forall x :: x in ids ==> BindingAt(BindingsDeconflicted(g, claimed, exportIds, ids).0, x).name !in claimed
    decreases |ids|
  {
    if ids != [] {
      var front := ids[..|ids| - 1];
      var bid := ids[|ids| - 1];
      var prev := BindingsDeconflicted(g, claimed, exportIds, front);
      var r := DeconflictBinding(prev.0, prev.1, exportIds, bid);
      assert BindingsDeconflicted(g, claimed, exportIds, ids) == r;
      BindingsDeconflictedUnclaimed(g, claimed, exportIds, front);
      forall x | x in ids
        ensures BindingAt(r.0, x).name !in claimed
      {
        if x != bid {
          assert x in front by {
            assert ids == front + [bid];
          }
          assert BindingAt(r.0, x) == BindingAt(prev.0, x);
        }
      }
    }
  }

  /** deconflictBindings (src/bundler.ts lines 182-216). The export records
      are listed once, before the loop; renames change records in place, so
      a record shared with other modules is renamed for all of them. */
  method DeconflictBindings(b: Bundler, path: string)
    modifies b
    ensures (b.graph, b.identifierNames) ==
      BindingsDeconflicted(old(b.graph), old(b.identifierNames), ExportIdsOf(old(b.graph), path), BindingIdsOf(old(b.graph), path))
  {
    var exportIds := ExportIdsOf(b.graph, path);
    var ids := BindingIdsOf(b.graph, path);
    ghost var g0, c0 := b.graph, b.identifierNames;
    var i := 0;
    while i < |ids|
      invariant i <= |ids|
      invariant (b.graph, b.identifierNames) == BindingsDeconflicted(g0, c0, exportIds, ids[..i])
    {
      DeconflictOneBinding(b, exportIds, ids[i]);
      BindingsDeconflictedStep(g0, c0, exportIds, ids, i);
      i := i + 1;
    }
    assert ids[..|ids|] == ids;
  }

  /** The body of the loop of deconflictBindings for one binding
      (src/bundler.ts lines 185-214). */
  method DeconflictOneBinding(b: Bundler, exportIds: seq<RecordId>, bid: BindingId)
    modifies b
    ensures (b.graph, b.identifierNames) == DeconflictBinding(old(b.graph), old(b.identifierNames), exportIds, bid)
  {
    var was := BindingAt(b.graph, bid).name;
    var n := GetDeconflictedIdentifierName(b, was);
    if n != was {
      b.graph := RenameBinding(b.graph, exportIds, bid, n);
    }
  }

  /** Handling binding `i` after the bindings before it. */
  lemma BindingsDeconflictedStep(g: Graph, claimed: set<string>, exportIds: seq<RecordId>, ids: seq<BindingId>, i: nat)
    requires i < |ids|
    ensures var prev := BindingsDeconflicted(g, claimed, exportIds, ids[..i]);
      BindingsDeconflicted(g, claimed, exportIds, ids[..i + 1]) == DeconflictBinding(prev.0, prev.1, exportIds, ids[i])
  {
    assert ids[..i + 1][..i] == ids[..i];
  }

  /** One iteration of deconflictExports: the record takes the name
      getDeconflictedIdentifierName hands out. */
  function DeconflictExport(g: Graph, claimed: set<string>, id: RecordId): (r: (Graph, set<string>))
    ensures var n := DeconflictedName(claimed, RecordAt(g, id).identifierName);
      && r.1 == claimed + {n}
      && (id < |g.records| ==> RecordAt(r.0, id) == RecordAt(g, id).(identifierName := n))
      && (n == RecordAt(g, id).identifierName ==> r.0 == g)
    ensures r.0.modules == g.modules && r.0.externals == g.externals && r.0.bindings == g.bindings
    ensures |r.0.records| == |g.records|
    ensures forall x :: x != id ==> RecordAt(r.0, x) == RecordAt(g, x)
  {
    var was := RecordAt(g, id).identifierName;
    var n := DeconflictedName(claimed, was);
    (if n != was then WithRecord(g, id, RecordAt(g, id).(identifierName := n)) else g, claimed + {n})
  }

  /** The graph and claimed set once deconflictExports has handled the
      records `ids` in order (src/bundler.ts lines 218-227). */
  function ExportsDeconflicted(g: Graph, claimed: set<string>, ids: seq<RecordId>): (r: (Graph, set<string>))
    ensures claimed <= r.1
    ensures r.0.modules == g.modules && r.0.externals == g.externals && r.0.bindings == g.bindings
    ensures |r.0.records| == |g.records|
    ensures forall x :: x !in ids ==> RecordAt(r.0, x) == RecordAt(g, x)
    decreases |ids|
  {
    if ids == [] then (g, claimed)
    else
      var prev := ExportsDeconflicted(g, claimed, ids[..|ids| - 1]);
      DeconflictExport(prev.0, prev.1, ids[|ids| - 1])
  }

  /** deconflictExports (src/bundler.ts lines 218-227). */
  method DeconflictExports(b: Bundler, ids: seq<RecordId>)
    modifies b
    ensures (b.graph, b.identifierNames) == ExportsDeconflicted(old(b.graph), old(b.identifierNames), ids)
  {
    ghost var g0, c0 := b.graph, b.identifierNames;
    var i := 0;
    while i < |ids|
      invariant i <= |ids|
      invariant (b.graph, b.identifierNames) == ExportsDeconflicted(g0, c0, ids[..i])
    {
      DeconflictOneExport(b, ids[i]);
      ExportsDeconflictedStep(g0, c0, ids, i);
      i := i + 1;
    }
    assert ids[..|ids|] == ids;
  }

  /** The body of the loop of deconflictExports for one record
      (src/bundler.ts lines 219-226). */
  method DeconflictOneExport(b: Bundler, id: RecordId)
    modifies b
    ensures (b.graph, b.identifierNames) == DeconflictExport(old(b.graph), old(b.identifierNames), id)
  {
    var was := RecordAt(b.graph, id).identifierName;
    var n := GetDeconflictedIdentifierName(b, was);
    if n != was {
      b.graph := WithRecord(b.graph, id, RecordAt(b.graph, id).(identifierName := n));
    }
  }

  /** Handling record `i` after the records before it. */
  lemma ExportsDeconflictedStep(g: Graph, claimed: set<string>, ids: seq<RecordId>, i: nat)
    requires i < |ids|
    ensures var prev := ExportsDeconflicted(g, claimed, ids[..i]);
      ExportsDeconflicted(g, claimed, ids[..i + 1]) == DeconflictExport(prev.0, prev.1, ids[i])
  {
    assert ids[..i + 1][..i] == ids[..i];
  }

  /** The records of `s` are in the arena, carry names that are claimed and
      not in `before`, and no two of them share a name. */
  ghost predicate RecordsDistinctlyClaimed(g: Graph, before: set<string>, claimed: set<string>, s: seq<RecordId>) {
    && (forall i :: 0 <= i < |s| ==>
          s[i] < |g.records| && RecordAt(g, s[i]).identifierName in claimed
          && RecordAt(g, s[i]).identifierName !in before)
    && (forall i, j :: 0 <= i < j < |s| ==> RecordAt(g, s[i]).identifierName != RecordAt(g, s[j]).identifierName)
  }

  /** deconflictExports gives the records it handles names that were free
      before it ran and distinct from each other. */
  lemma {:induction false} ExportsDeconflictedFresh(g: Graph, claimed: set<string>, ids: seq<RecordId>)
    requires forall i :: 0 <= i < |ids| ==> ids[i] < |g.records|
    requires forall i, j :: 0 <= i < j < |ids| ==> ids[i] != ids[j]
    ensures RecordsDistinctlyClaimed(ExportsDeconflicted(g, claimed, ids).0, claimed,
                                     ExportsDeconflicted(g, claimed, ids).1, ids)
    decreases |ids|
  {
    if ids != [] {
      var front := ids[..|ids| - 1];
      var id := ids[|ids| - 1];
      var prev := ExportsDeconflicted(g, claimed, front);
      ExportsDeconflictedFresh(g, claimed, front);
      assert id !in front;
      var r := DeconflictExport(prev.0, prev.1, id);
      assert ExportsDeconflicted(g, claimed, ids) == r;
      forall i | 0 <= i < |front|
        ensures RecordAt(r.0, ids[i]) == RecordAt(prev.0, front[i])
      {
        assert ids[i] == front[i] != id;
      }
    }
  }

  /** The graph and claimed set once the bindings of the modules `ps` have
      been deconflicted, in order. */
  function ModulesDeconflicted(g: Graph, claimed: set<string>, ps: seq<string>): (r: (Graph, set<string>))
    ensures claimed <= r.1
    ensures r.0.modules == g.modules && r.0.externals == g.externals
    ensures |r.0.bindings| == |g.bindings| && |r.0.records| == |g.records|
    ensures forall id :: RecordAt(r.0, id).binding == RecordAt(g, id).binding
    decreases |ps|
  {
    if ps == [] then (g, claimed)
    else
      var prev := ModulesDeconflicted(g, claimed, ps[..|ps| - 1]);
      var p := ps[|ps| - 1];
      BindingsDeconflicted(prev.0, prev.1, ExportIdsOf(prev.0, p), BindingIdsOf(prev.0, p))
  }

  /** Deconflicting one more module after the modules `ps`. */
  lemma ModulesDeconflictedSnoc(g: Graph, claimed: set<string>, ps: seq<string>, p: string)
    ensures var prev := ModulesDeconflicted(g, claimed, ps);
      ModulesDeconflicted(g, claimed, ps + [p]) ==
        BindingsDeconflicted(prev.0, prev.1, ExportIdsOf(prev.0, p), BindingIdsOf(prev.0, p))
  {
    assert (ps + [p])[..|ps|] == ps;
  }

  /** The bindings of the modules `ps`, module after module. */
  function AllBindings(g: Graph, ps: seq<string>): seq<BindingId>
    decreases |ps|
  {
    if ps == [] then [] else AllBindings(g, ps[..|ps| - 1]) + BindingIdsOf(g, ps[|ps| - 1])
  }

  /** Every binding of the modules `ps` is in the arena and belongs to one
      module only: Babel gives each module its own scope. */
  ghost predicate OwnBindings(g: Graph, ps: seq<string>) {
    var all := AllBindings(g, ps);
    && (forall i :: 0 <= i < |all| ==> all[i] < |g.bindings|)
    && (forall i, j :: 0 <= i < j < |all| ==> all[i] != all[j])
  }

  /** After the first phase of deconflictIdentifiers, no two bindings of the
      handled modules share a name. */
  lemma {:induction false} ModulesDeconflictedFresh(g: Graph, claimed: set<string>, ps: seq<string>)
    requires OwnBindings(g, ps)
    ensures DistinctlyClaimed(ModulesDeconflicted(g, claimed, ps).0, ModulesDeconflicted(g, claimed, ps).1,
                              AllBindings(g, ps))
    decreases |ps|
  {
    if ps != [] {
      var front := ps[..|ps| - 1];
      var p := ps[|ps| - 1];
      var done := AllBindings(g, front);
      var ids := BindingIdsOf(g, p);
      assert AllBindings(g, ps) == done + ids;
      DistinctSplit(done, ids);
      assert OwnBindings(g, front) by {
        forall i | 0 <= i < |done|
          ensures done[i] < |g.bindings|
        {
          assert done[i] == (done + ids)[i];
        }
      }
      ModulesDeconflictedFresh(g, claimed, front);
      var prev := ModulesDeconflicted(g, claimed, front);
      assert BindingIdsOf(prev.0, p) == ids;
      forall i | 0 <= i < |ids|
        ensures ids[i] < |prev.0.bindings|
      {
        assert ids[i] == (done + ids)[|done| + i];
      }
      BindingsDeconflictedFresh(prev.0, prev.1, ExportIdsOf(prev.0, p), ids, done);
    }
  }

  /** The export records of every external module, in registry order. */
  function ExternalRecordIds(externals: Table<ExternalRec>): seq<RecordId>
    decreases |externals|
  {
    if externals == [] then []
    else Values(externals[0].value.exports) + ExternalRecordIds(externals[1..])
  }

  /** The export records without a binding of the modules `ps`, in order. */
  function UnboundRecordIds(g: Graph, ps: seq<string>): seq<RecordId>
    decreases |ps|
  {
    if ps == [] then []
    else
      Unbound(g, ExportIdsOf(g, ps[0])) + UnboundRecordIds(g, ps[1..])
  }

  /** `.filter((exported) => !exported.binding)` */
  function Unbound(g: Graph, ids: seq<RecordId>): (r: seq<RecordId>)
    ensures forall id :: id in r <==> id in ids && RecordAt(g, id).binding.None?
    decreases |ids|
  {
    if ids == [] then []
    else (if RecordAt(g, ids[0]).binding.None? then [ids[0]] else []) + Unbound(g, ids[1..])
  }

  lemma DistinctSplit<T>(a: seq<T>, b: seq<T>)
    requires forall i, j :: 0 <= i < j < |a + b| ==> (a + b)[i] != (a + b)[j]
    ensures forall i, j :: 0 <= i < j < |a| ==> a[i] != a[j]
    ensures forall i, j :: 0 <= i < j < |b| ==> b[i] != b[j]
    ensures forall i :: 0 <= i < |b| ==> b[i] !in a
  {
    forall i, j | 0 <= i < j < |a|
      ensures a[i] != a[j]
    {
      assert (a + b)[i] == a[i] && (a + b)[j] == a[j];
    }
    forall i, j | 0 <= i < j < |b|
      ensures b[i] != b[j]
    {
      assert (a + b)[|a| + i] == b[i] && (a + b)[|a| + j] == b[j];
    }
    forall i, j | 0 <= i < |b| && 0 <= j < |a|
      ensures a[j] != b[i]
    {
      assert (a + b)[j] == a[j] && (a + b)[|a| + i] == b[i];
    }
  }

  lemma {:induction false} UnboundAgrees(g1: Graph, g2: Graph, ids: seq<RecordId>)
    requires forall id :: RecordAt(g1, id).binding == RecordAt(g2, id).binding
    ensures Unbound(g1, ids) == Unbound(g2, ids)
    decreases |ids|
  {
    if ids != [] {
      UnboundAgrees(g1, g2, ids[1..]);
    }
  }

  lemma {:induction false} UnboundRecordIdsAgree(g1: Graph, g2: Graph, ps: seq<string>)
    requires g1.modules == g2.modules
    requires forall id :: RecordAt(g1, id).binding == RecordAt(g2, id).binding
    ensures UnboundRecordIds(g1, ps) == UnboundRecordIds(g2, ps)
    decreases |ps|
  {
    if ps != [] {
      UnboundAgrees(g1, g2, ExportIdsOf(g1, ps[0]));
      UnboundRecordIdsAgree(g1, g2, ps[1..]);
    }
  }

  /** The records deconflictExports receives (src/bundler.ts lines 238-254):
      the export records of every external module, then those without a
      binding of the walked modules, each once, as a JavaScript Set keeps
      them. */
  function ExportsToDeconflict(g: Graph, visit: seq<string>): (ids: seq<RecordId>)
    ensures forall i, j :: 0 <= i < j < |ids| ==> ids[i] != ids[j]
    ensures forall id :: id in ids <==> id in ExternalRecordIds(g.externals) || id in UnboundRecordIds(g, visit)
  {
    Dedup(ExternalRecordIds(g.externals) + UnboundRecordIds(g, visit))
  }

  /** The graph and claimed set after deconflictIdentifiers: the bindings of
      each walked module once, in the order of the walk, then the export
      records of ExportsToDeconflict. */
  function IdentifiersDeconflicted(g: Graph, claimed: set<string>, entry: string): (r: (Graph, set<string>))
    ensures claimed <= r.1
    ensures r.0.modules == g.modules && r.0.externals == g.externals
  {
    var visit := Walk(g, entry, Post, |g.modules|);
    var m := ModulesDeconflicted(g, claimed, Dedup(visit));
    ExportsDeconflicted(m.0, m.1, ExportsToDeconflict(g, visit))
  }

  /** The first walk of deconflictIdentifiers (src/bundler.ts lines
      230-236): the walk may reach a module more than once; the
      `deconflictedModules` list lets each module's bindings be handled only
      the first time. */
  method DeconflictModules(b: Bundler, visit: seq<string>)
    modifies b
    ensures (b.graph, b.identifierNames) == ModulesDeconflicted(old(b.graph), old(b.identifierNames), Dedup(visit))
  {
    ghost var g0, c0 := b.graph, b.identifierNames;
    var deconflicted: seq<string> := [];
    var i := 0;
    while i < |visit|
      invariant i <= |visit|
      invariant deconflicted == Dedup(visit[..i])
      invariant (b.graph, b.identifierNames) == ModulesDeconflicted(g0, c0, deconflicted)
    {
      var p := visit[i];
      if p !in deconflicted {
        DeconflictBindings(b, p);
        ModulesDeconflictedSnoc(g0, c0, deconflicted, p);
        deconflicted := deconflicted + [p];
      }
      DedupStep(visit, i);
      i := i + 1;
    }
    assert visit[..|visit|] == visit;
  }

  /** deconflictIdentifiers (src/bundler.ts lines 229-255). The second walk
      of the source visits the same modules as the first, since renaming
      leaves the dependency tables alone. */
  method DeconflictIdentifiers(b: Bundler, entry: string)
    modifies b
    ensures (b.graph, b.identifierNames) == IdentifiersDeconflicted(old(b.graph), old(b.identifierNames), entry)
  {
    var visit := Walk(b.graph, entry, Post, |b.graph.modules|);
    ghost var g0 := b.graph;
    DeconflictModules(b, visit);
    UnboundRecordIdsAgree(b.graph, g0, visit);
    DeconflictExports(b, ExportsToDeconflict(b.graph, visit));
  }

  /** The bindings `bindings` and the records `records` carry pairwise
      distinct names, and no record the name of a binding. */
  ghost predicate NamesDistinct(g: Graph, claimed: set<string>, bindings: seq<BindingId>, records: seq<RecordId>) {
    && DistinctlyClaimed(g, claimed, bindings)
    && (forall i, j :: 0 <= i < j < |records| ==>
          RecordAt(g, records[i]).identifierName != RecordAt(g, records[j]).identifierName)
    && (forall x, id :: x in bindings && id in records ==> BindingAt(g, x).name != RecordAt(g, id).identifierName)
  }

  /** The second phase renames records only: binding names claimed by the
      first phase stay, and differ from every name the second phase hands out. */
  lemma RecordsAvoidBindings(m: Graph, claimed: set<string>, records: seq<RecordId>, bindings: seq<BindingId>)
    requires DistinctlyClaimed(m, claimed, bindings)
    requires forall i :: 0 <= i < |records| ==> records[i] < |m.records|
    requires forall i, j :: 0 <= i < j < |records| ==> records[i] != records[j]
    ensures NamesDistinct(ExportsDeconflicted(m, claimed, records).0, ExportsDeconflicted(m, claimed, records).1,
                          bindings, records)
  {
    var r := ExportsDeconflicted(m, claimed, records);
    ExportsDeconflictedFresh(m, claimed, records);
    forall x | x in bindings
      ensures BindingAt(r.0, x).name in claimed
    {
      var i :| 0 <= i < |bindings| && bindings[i] == x;
    }
  }

  /** Deconfliction from an empty claimed set leaves the bindings of the
      walked modules and the deconflicted export records with pairwise
      distinct names, none of a record equal to any of a binding. */
  lemma DeconflictedNamesDistinct(g: Graph, entry: string)
    requires OwnBindings(g, Dedup(Walk(g, entry, Post, |g.modules|)))
    requires forall id :: id in ExportsToDeconflict(g, Walk(g, entry, Post, |g.modules|)) ==> id < |g.records|
    ensures NamesDistinct(IdentifiersDeconflicted(g, {}, entry).0, IdentifiersDeconflicted(g, {}, entry).1,
                          AllBindings(g, Dedup(Walk(g, entry, Post, |g.modules|))),
                          ExportsToDeconflict(g, Walk(g, entry, Post, |g.modules|)))
  {
    var visit := Walk(g, entry, Post, |g.modules|);
    var records := ExportsToDeconflict(g, visit);
    var m := ModulesDeconflicted(g, {}, Dedup(visit));
    ModulesDeconflictedFresh(g, {}, Dedup(visit));
    forall i | 0 <= i < |records|
      ensures records[i] < |m.0.records|
    {
      assert records[i] in records;
    }
    RecordsAvoidBindings(m.0, m.1, records, AllBindings(g, Dedup(visit)));
    assert IdentifiersDeconflicted(g, {}, entry) == ExportsDeconflicted(m.0, m.1, records);
  }

}
