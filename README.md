# A verified model of a scope-hoisting ES-module bundler

The bundler reads an entry module, follows its `import` and `export ... from`
statements, and emits one flat program. Every internal module's top-level
statements are concatenated into a single scope. Imports of bare specifiers
are hoisted to the top as `import` declarations.

A run of `Bundler.bundle()` has five steps:

1. **Build the module graph.** `new Module(path)` registers itself, fixes
   extension-less imports, resolves each specifier, detects cycles, and fills
   four tables: dependencies, imports, exports and bindings.
2. **Tree-shake.** Delete unused export entries and the declarations of
   unreferenced bindings.
3. **Deconflict.** Rename top-level bindings and export records so that no
   two share a name, using the `name$k` suffix scheme.
4. **Hoist.** Rewrite every import and export statement of every reached
   module into plain `const` declarations, and append a namespace object
   where a module is imported as `* as ns`.
5. **Assemble.** Put the grouped external imports first, then the
   `_mergeNamespaces` helper when some namespace object needs it, then each
   module's body, once.

The model is a Dafny program over one value, `Graph.Graph`. It holds:

- the internal module registry, a map keyed by path;
- the external module registry, a table in insertion order;
- two arenas standing for the objects the source shares by reference:
  export records and Babel scope bindings. Tables refer to them by index, so
  a record shared by two export tables is renamed for both at once.

`Session.Bundler` is a class holding that graph and the set of claimed
identifier names. The steps that change state in the source are methods that
update these fields through loops. Each method is proved equal to a
specification function, and the properties the bundler promises are lemmas
about those functions.

The files:

| file | module | what it models |
|---|---|---|
| `strings.dfy` | `Strings` | prefix/suffix tests, `${n}` rendering, `join` |
| `tables.dfy` | `Tables` | JavaScript object tables: ordered, one entry per key |
| `ast.dfy` | `Ast` | the import/export statement forms and the declarations they wrap |
| `graph.dfy` | `Graph` | module records, arenas, graph updates, the dependency walk, cycle chains |
| `session.dfy` | `Session` | the `Bundler` object, file system, helpers, errors |
| `utils.dfy` | `Utils` | `getDefaultExportIdentifierName`, `declareConst` |
| `module_builder.dfy` | `ModuleBuilder` | the `Module` constructor and its analyses |
| `treeshake.dfy` | `Treeshake` | `isExportUsed`, `performTreeshake` |
| `deconflict.dfy` | `Deconflict` | `getDeconflictedIdentifierName`, `deconflictBindings`, `deconflictExports`, `deconflictIdentifiers` |
| `rewrite.dfy` | `Rewrite` | the four statement rewriters |
| `hoist.dfy` | `Hoist` | `performScopeHoisting` and namespace synthesis |
| `assembly.dfy` | `Assembly` | `getExternalImports`, `getBundledCode` |
| `driver.dfy` | `Driver` | `bundle()` |

## Model

| member | source | states |
|---|---|---|
| Strings.Decimal | src/utils.ts:10 | `${n}` is a non-empty string of decimal digits with no leading zero, one digit exactly when n < 10 |
| Strings.DecimalInjective | src/utils.ts:10 | distinct numbers render as distinct digit strings |
| Utils.DefaultExportIdentifierName | src/utils.ts:9-11 | the name is the prefix `__default_export_module_` followed by exactly the decimal id |
| Utils.DefaultExportNamesDistinct | src/utils.ts:9-11 | modules with different ids never share a default-export name |
| Utils.DeclareConst | src/utils.ts:13-20 | the result is a `const` declaration with exactly one declarator, whose id is the name and whose init is the expression |
| Utils.DeclareConstDeclares | src/utils.ts:17-19 | the declaration introduces exactly the given name |
| Tables.SpreadGet | src/module.ts:420-423 | `{...t, ...u}` reads `u`'s value for every key of `u` and `t`'s value for every other key |
| Tables.RemoveGet | src/bundler.ts:421 | after `delete t[k]` the key is gone and every other key reads as before |
| Session.Bundler.constructor | src/bundler.ts:37-61 | stores the entry path, the flags and the collaborators; both registries and the claimed-name set start empty |
| Graph.WithDependent | src/module.ts:160 | `dependents.add(importer)` adds exactly the importer to that module's dependents, and nothing else changes |
| Graph.PutNewRecordIfAbsent | src/module.ts:463-469 | first writer wins: an existing entry is never replaced; afterwards the key is present; other keys and tables are untouched |
| Graph.ShareRecord | src/module.ts:292 | the entry becomes the same record object as the source table's entry; without such an entry nothing changes; other keys and tables are untouched |
| Graph.CircularChain | src/module.ts:127-141 | no chain exactly when the importer is not reached by the pre-order walk from the target; otherwise the chain starts and ends with the importer, has no other occurrence of it, and after the importer is a prefix of that walk |
| Graph.Dedup | src/bundler.ts:230-236 | the `includes`-guarded list holds exactly the elements of the visit, each once, and is no longer than the visit |
| ModuleBuilder.FixedSource | src/module.ts:86-99 | the specifier gets `.js` appended exactly when it does not end in `.js` and the appended path exists (as written for `/`, joined to the directory for `.`); otherwise it is unchanged |
| ModuleBuilder.BareSpecifierNotFixed | src/module.ts:91-95 | a non-empty bare specifier is never rewritten, whatever files exist |
| ModuleBuilder.FixImport | src/module.ts:84-101 | only import declarations get a fixed source; their specifiers are kept; other statements are unchanged |
| ModuleBuilder.FixImportsWithoutExtension | src/module.ts:83-103 | every statement of the body is replaced by its fixed form, in place |
| ModuleBuilder.NewModule | src/module.ts:56-81 | the module is registered under its path with its entry flag, file name and directory; the graph only grows; a file that does not read or parse fails with the parse error, and only then |
| ModuleBuilder.LoadModule | src/module.ts:64-80 | parsing and the analyses only grow the graph: registered modules keep their identity, and only this module's dependency table changes |
| ModuleBuilder.AnalyseModule | src/module.ts:76-80 | the import, export and binding analyses extend the graph: no module or external module disappears, none changes identity or dependencies |
| ModuleBuilder.AnalyzeImports | src/module.ts:428-561 | analysing the imports of a module extends the graph as above |
| ModuleBuilder.AnalyseDependencies | src/module.ts:105-125 | on success, every import, re-export and `export *` source is a key of the module's dependency table, mapped to the joined path for a relative source and to the external module otherwise; only that module's table changes among modules registered before |
| ModuleBuilder.AddDependency | src/module.ts:108-110 | on success the dependency table is the old one with the specifier put, mapped to the module at the joined path for a relative specifier and to the external module otherwise |
| ModuleBuilder.GetDependencyModule | src/module.ts:143-190 | a bare specifier resolves to the external module of that text, registered once, with the importer among its dependents and no file check; a relative one resolves as ResolvedRelative says |
| ModuleBuilder.ResolveRelative | src/module.ts:147-177 | a missing file fails with the not-found error for the specifier and the importer's file name; on success the result is the joined path, registered, with the importer among its dependents and no cycle back to the importer; a target already registered is reused (no module is added) and then the result fails exactly when the importer is reachable from it, with the cycle chain |
| ModuleBuilder.LinkDependent | src/module.ts:156-172 | the importer is added to the target's dependents; the result is the target exactly when the circular chain is empty, otherwise the cycle error with that chain |
| ModuleBuilder.ResolveExternal | src/module.ts:178-189 | the external module is registered (once: no new registry key when it exists) and the importer is among its dependents |
| ModuleBuilder.CollectModuleBindings | src/module.ts:563-579 | the module's bindings are exactly the scope bindings declared by `const`, `let`, `var` or a function declaration, each once, in order |
| ModuleBuilder.ExternalExportAllSources | src/module.ts:581-590 | a source is listed exactly when an `export * from` of it exists and its dependency is external |
| ModuleBuilder.CollectExternalExportAlls | src/module.ts:581-590 | the loop computes ExternalExportAllSources |
| ModuleBuilder.AnalyzeImport | src/module.ts:430-559 | each specifier appends one `importBindings` entry (imported name `default`, `*` or the imported name; source the literal for externals and the joined path otherwise); no existing entry of the dependency's export table changes; an external dependency then has every imported name, and each name it lacked before holds a new record named after the specifier's local name; a namespace import gives an internal dependency a `*` entry |
| ModuleBuilder.RecordImportBindings | src/module.ts:434-457 | the import bindings are extended by one entry per specifier, in order, and nothing else changes |
| ModuleBuilder.RegisterExternalImports | src/module.ts:459-498 | every name the import asks for is registered on the external module; a name it lacked before holds a new record named after the first asking specifier's local name; existing entries and names not asked for are unchanged (first writer wins) |
| ModuleBuilder.ResolveThroughExternalExportAll | src/module.ts:500-530 | only export tables change, and the dependency's existing entries are kept |
| ModuleBuilder.MaterializeNamespace | src/module.ts:532-558 | a namespace import of an internal module leaves it with a `*` entry, keeping its existing entries |
| ModuleBuilder.GiveExternalNamespace | src/module.ts:543-557 | the external module ends with a `*` entry; the internal module keeps its `*` entry and every other entry |
| ModuleBuilder.FirstNamespaceLocal | src/module.ts:532-541 | the name is the local name of the first namespace specifier |
| ModuleBuilder.NamespaceReexport | src/module.ts:279-294 | `export * as ns from d` shares d's `*` record (created if absent) under `ns`, keeping d's other entries |
| ModuleBuilder.SpecifierExport | src/module.ts:295-363 | without a source, a fresh local record under the exported name; from a dependency that has the local name, the same record as the dependency's entry; from an internal dependency without it, no change; the dependency's entries are kept |
| ModuleBuilder.RegisterReexportedExternal | src/module.ts:306-320 | the external module gains the local name if absent; no other table changes |
| ModuleBuilder.DefaultExportRecord | src/module.ts:367-411 | a never-reassigned identifier keeps its name and binding; a named class or function gets its own name and binding; a reassigned identifier, an anonymous class or function, or another expression gets `makeLegal(fileName)` and no binding; a `var`-style declaration sets nothing |
| ModuleBuilder.MergeExportAll | src/module.ts:413-424 | `export *` from an external module leaves the graph unchanged; only export tables change otherwise |
| ModuleBuilder.ExportAllOverrides | src/module.ts:420-423 | after `export * from` an internal module, every name of the dependency reads the dependency's record (overriding), and every other name keeps its record |
| ModuleBuilder.ExternalExportAllDeferred | src/module.ts:416-418 | `export * from` an external module leaves the export table unchanged |
| ModuleBuilder.ExportDeclaration | src/module.ts:201-271 | every name the declaration binds (also inside object and array patterns and rest elements) is exported as a local record of that name |
| ModuleBuilder.AnalyzeExportNamed | src/module.ts:194-366 | only export tables change; an exported declaration exports each name it binds |
| ModuleBuilder.AnalyzeExports | src/module.ts:192-426 | analyzing exports changes export tables only, and adds records to the arena |
| Treeshake.FindImport | src/bundler.ts:331-336 | the position of the first import binding that asks this module for the name or for `*`, or none |
| Treeshake.LastBoundKeyIsLast | src/bundler.ts:346-352 | the key of the last entry bound to the binding, and `""` when no entry is bound to it |
| Treeshake.LastReexportKeyIsLast | src/bundler.ts:385-390 | the key of the last entry re-exporting that local name from this module, and `""` when there is none |
| Treeshake.ImportedExportUsed | src/bundler.ts:338-343 | a dependent whose first matching import binding has a reference makes the export used |
| Treeshake.ReexportedExportUsed | src/bundler.ts:385-396 | a dependent that re-exports the name under a used name makes the export used |
| Treeshake.NoDependentsNoUse | src/bundler.ts:329 | an export of a module with no dependents (the entry) is never used |
| Treeshake.UsedWithoutHops | src/bundler.ts:329-399 | without re-export hops, an export is used exactly when a dependent imports it or the namespace through a referenced binding, or, for an external module with a `*` entry, a dependent with a `*` entry and an external `export *` |
| Treeshake.UsedMonotone | src/bundler.ts:324-402 | following more re-export hops never turns a used export into an unused one |
| Treeshake.RemoveFirst | src/bundler.ts:412-417 | `findIndex` plus `splice` drops exactly the first occurrence, or nothing |
| Treeshake.DropExportAll | src/bundler.ts:411-418 | every dependent loses its first `export *` of that external module; nothing else changes |
| Treeshake.ShakeExternalEntry | src/bundler.ts:406-422 | a used entry changes nothing; an unused one is deleted, other keys keep their records, and for `*` each dependent also drops its first `export *` of that module |
| Treeshake.ShakeBindingRule | src/bundler.ts:427-447 | an unreferenced binding's declaration is removed; a referenced binding loses its declaration and its export entry exactly when it is exported by a non-entry module and that export is unused; otherwise nothing changes |
| Treeshake.UnboundKeys | src/bundler.ts:450-451 | the keys of exactly the entries without a binding, one per entry, in table order |
| Treeshake.TreeshakeOnlyDeletes | src/bundler.ts:404-460 | tree-shaking only deletes: names, references, records, bodies and dependency tables are unchanged; export tables and `export *` lists keep a subset of entries; bindings can only become removed |
| Treeshake.ShrinksSameDependencies | src/bundler.ts:426 | tree-shaking keeps every dependency table, so later walks visit the same modules |
| Treeshake.TreeshakeRemovesUnreferenced | src/bundler.ts:438-439 | every binding without references of a walked module has its declaration removed, whether or not it is exported |
| Treeshake.TreeshakeKeepsEntryExports | src/bundler.ts:440 | an export of the entry module backed by a binding still maps to the same record after tree-shaking |
| Treeshake.ShakeExternalsKeepsInternal | src/bundler.ts:405-424 | the external pass leaves every internal export table as it was |
| Treeshake.ShakeExternalModules | src/bundler.ts:405-424 | the loop over the external registry computes ShakeExternals, one module after another |
| Treeshake.ShakeWalkedModules | src/bundler.ts:426-459 | the loop over the walk computes ShakeModules, one visited module after another |
| Treeshake.PerformTreeshake | src/bundler.ts:404-460 | the loops compute Treeshaken: the external pass in registry order, then each walked module |
| Treeshake.ShakeOneExternal | src/bundler.ts:406-423 | one external module's entries, as listed when reached, handled in order |
| Treeshake.ShakeOneModule | src/bundler.ts:427-458 | one walked module: its bindings, then its binding-less entries |
| Treeshake.ShakeUnbound | src/bundler.ts:450-457 | the binding-less entries, each deleted unless used |
| Treeshake.ShakeOneBinding | src/bundler.ts:428-447 | one binding, as ShakeBindingRule states |
| Deconflict.SuffixedInjective | src/bundler.ts:169-172 | `name$a` equals `name$b` only when a = b |
| Deconflict.ClaimedUpTo | src/bundler.ts:171-173 | a finite claimed set holds at most as many of `name$1`, `name$2`, ... as it has elements, so the search stops |
| Deconflict.FirstFreeSuffix | src/bundler.ts:171-173 | the smallest free suffix at or above the start |
| Deconflict.DeconflictedName | src/bundler.ts:164-176 | the result is unclaimed; a free name is returned unchanged; a claimed one becomes `name$k` for the smallest k ≥ 1 that is free |
| Deconflict.FreeName | src/bundler.ts:167-176 | the search loop, which tries `name$1` twice, returns DeconflictedName |
| Deconflict.GetDeconflictedIdentifierName | src/bundler.ts:164-180 | returns DeconflictedName and adds exactly it to the claimed set, which grows by one |
| Deconflict.DiamondNames | src/bundler.ts:164-180 | four `data` bindings receive `data`, `data$1`, `data$2`, `data$3` in turn |
| Deconflict.Renamed | src/bundler.ts:191-206 | the declaration, every Identifier reference and every identifier assignment target spell the new name; sites keep their kind and number |
| Deconflict.FirstBoundRecord | src/bundler.ts:208-210 | the first export record bound to the binding, or none |
| Deconflict.RenameBinding | src/bundler.ts:191-213 | the binding and only the first export record bound to it take the new name; nothing else changes |
| Deconflict.DeconflictBinding | src/bundler.ts:185-214 | the binding takes the name handed out, which is claimed; when that is its own name nothing changes |
| Deconflict.BindingsDeconflictedFresh | src/bundler.ts:182-216 | the handled bindings end with claimed, pairwise distinct names, distinct from the bindings handled before |
| Deconflict.BindingsDeconflictedUnclaimed | src/bundler.ts:182-216 | no handled binding ends with a name claimed before deconflictBindings ran |
| Deconflict.DeconflictOneBinding | src/bundler.ts:185-214 | one iteration claims a name for the binding and, when it differs, renames the binding and the first export record bound to it, exactly as DeconflictBinding states |
| Deconflict.DeconflictBindings | src/bundler.ts:182-216 | the loop computes BindingsDeconflicted over the export records listed before it |
| Deconflict.DeconflictExport | src/bundler.ts:219-226 | the record takes the name handed out; unchanged when that is its own |
| Deconflict.ExportsDeconflictedFresh | src/bundler.ts:218-227 | the handled records end with names that were free before and are pairwise distinct |
| Deconflict.DeconflictOneExport | src/bundler.ts:219-226 | one iteration claims a name for the export record and renames it when the name was taken, exactly as DeconflictExport states |
| Deconflict.DeconflictExports | src/bundler.ts:218-227 | the loop computes ExportsDeconflicted |
| Deconflict.ModulesDeconflictedFresh | src/bundler.ts:230-236 | after the first phase, no two bindings of the handled modules share a name |
| Deconflict.Unbound | src/bundler.ts:248 | the filter keeps exactly the records without a binding |
| Deconflict.ExportsToDeconflict | src/bundler.ts:238-254 | the records handed to deconflictExports: each once, exactly the external modules' records and the binding-less records of walked modules |
| Deconflict.DeconflictModules | src/bundler.ts:230-236 | the guarded walk deconflicts each module's bindings once, in order of first visit |
| Deconflict.DeconflictIdentifiers | src/bundler.ts:229-255 | the two phases compute IdentifiersDeconflicted |
| Deconflict.RecordsAvoidBindings | src/bundler.ts:238-254 | the second phase keeps the binding names and hands out names that differ from all of them |
| Deconflict.DeconflictedNamesDistinct | src/bundler.ts:229-255 | from an empty claimed set, walked bindings and deconflicted records end with pairwise distinct names, no record sharing a binding's name |
| Rewrite.ImportDeclsExact | src/ast-transformers/import-declaration.ts:22-86 | the import statement is replaced by exactly one `const` per default or namespace specifier, in specifier order; named specifiers give nothing |
| Rewrite.ImportDeclsDeclare | src/ast-transformers/import-declaration.ts:26-53 | the emitted declarations introduce exactly the local names of the default and namespace specifiers, in order |
| Rewrite.NamespaceImportObject | src/ast-transformers/import-declaration.ts:34-53 | `* as ns` binds a frozen object with exactly one property per named export of the dependency, keyed and valued by that name, in order |
| Rewrite.Respelled | src/ast-transformers/import-declaration.ts:62-73 | sites spelled `from` now spell `to`, other sites are unchanged; kind and site counts are kept |
| Rewrite.ImportRenamedTouchesImports | src/ast-transformers/import-declaration.ts:61-74 | the renaming touches only module-kind bindings of this module; records, module records and other bindings are unchanged |
| Rewrite.UnaliasedImportRenamesNothing | src/ast-transformers/import-declaration.ts:59-61 | an import with no aliased named specifier renames nothing |
| Rewrite.AliasedImportRespells | src/ast-transformers/import-declaration.ts:61-74 | after `import { a as b }` the imported binding's `b` sites spell `a`, or the dependency's default-export name for `default` |
| Rewrite.TransformImport | src/ast-transformers/import-declaration.ts:17-87 | the loop returns ImportDecls and runs exactly the ImportRenamed renamings |
| Rewrite.LocalSpecifierDeclsExact | src/ast-transformers/export-named-declaration.ts:96-134 | a local `export { ... }` is replaced by exactly one `const <exported> = <local>` per aliased identifier specifier, in order, with `default` naming the module's default-export name; others give nothing |
| Rewrite.ExportedDeclarationUnwrapped | src/ast-transformers/export-named-declaration.ts:91-94 | `export <declaration>` is replaced by the declaration alone, which declares the same names |
| Rewrite.ReexportLikeLocal | src/ast-transformers/export-named-declaration.ts:50-76 | a re-export specifier whose local name is not `default` gives what the same local specifier gives |
| Rewrite.ShortcutMisreadsAlias | src/ast-transformers/export-named-declaration.ts:25-35 | as written, a lone `export { foo as default } from` becomes `const <default(module)> = <default(dependency)>`, not `= foo` |
| Rewrite.ReexportDeclsCorrected | src/ast-transformers/export-named-declaration.ts:13-85 | with the corrected guard, the shortcut fires exactly for a lone re-export of the dependency's default as default; otherwise the specifiers' declarations are concatenated in order; it differs from the source only on a lone specifier exported as `default` that is not the dependency's default |
| Rewrite.TransformExports | src/ast-transformers/export-named-declaration.ts:87-136 | the loop returns LocalExportDecls |
| Rewrite.TransformReExports | src/ast-transformers/export-named-declaration.ts:13-85 | the loop returns ReexportDecls (corrected guard) |
| Rewrite.TransformNamedExport | src/ast-transformers/export-named-declaration.ts:138-148 | statements with a `from` source take the re-export path, the others the local path |
| Rewrite.ShakenDefaultThrows | src/ast-transformers/export-default-declaration.ts:29-33 | a non-entry module whose anonymous default export lost its entry makes the rewriter fail |
| Rewrite.DefaultExportDeclsMeaning | src/ast-transformers/export-default-declaration.ts:14-90 | the entry keeps its statement; a named class or function is unwrapped; an anonymous value becomes one `const` declaring the default entry's identifier name (or nothing once the entry is gone); an identifier is removed; it agrees with the source wherever the source does not fail |
| Rewrite.RewriteBodySettles | src/bundler.ts:97-103 | every statement the rewriters leave is one they do not change |
| Rewrite.RewriteSettledBody | src/bundler.ts:97-103 | rewriting a settled body changes nothing and renames nothing |
| Rewrite.RewriteBodyIdempotent | src/bundler.ts:97-103 | rewriting a rewritten body gives it back |
| Rewrite.BodyRenamedKeepsView | src/ast-transformers/import-declaration.ts:61-74 | the renamings leave module records, export records and registries unchanged |
| Rewrite.RewriteModuleBody | src/bundler.ts:97-103 | the traversal returns RewriteBody and runs BodyRenamed |
| Hoist.NamespacePropertiesExact | src/bundler.ts:113-123 | the namespace object has a property `"name": identifierName` for every export entry except `default` and `*`, and no other |
| Hoist.NamespaceDeclMeaning | src/bundler.ts:105-157 | a namespace declaration exists exactly for a non-entry module with a `*` entry; it declares that entry's identifier name, lists the named exports, and uses `_mergeNamespaces` exactly when the module has external `export *` statements |
| Hoist.HoistModuleBodiesOnly | src/bundler.ts:96-160 | one visit changes only the visited module's body (rewritten, plus the namespace declaration) and bindings |
| Hoist.HoistRevisit | src/bundler.ts:96-160 | a second visit appends the namespace declaration again and changes nothing else in the body |
| Hoist.HoistRevisitDuplicates | src/bundler.ts:96-160 | as written, visiting a module with a namespace twice leaves its body ending in two copies of the same `const` |
| Hoist.HoistModuleSucceeds | src/bundler.ts:126-131 | a visit fails exactly where reading an external module's `*` entry fails |
| Hoist.HoistedRevisitNoop | src/bundler.ts:96 | with each module hoisted once, a repeated visit changes nothing |
| Hoist.HoistedDistinct | src/bundler.ts:96-160 | hoisting distinct modules gives each its rewritten body plus its namespace declaration and leaves the others alone |
| Hoist.HoistedBodies | src/bundler.ts:95-162 | every walked module ends with its statements rewritten once and at most one namespace declaration appended; other modules are untouched |
| Hoist.HoistOneModule | src/bundler.ts:96-160 | one visit as HoistModule, with its error on failure |
| Hoist.PerformScopeHoisting | src/bundler.ts:95-162 | the walk hoists each reached module once, returning Hoisted's graph or its first error |
| Hoist.HoistVisits | src/bundler.ts:96-161 | the guarded loop computes Hoisted |
| Assembly.OfKind | src/bundler.ts:263-285 | the selected specifiers come from the list and are all of the given kind |
| Assembly.OfKindPartition | src/bundler.ts:267-286 | the three kinds split the specifiers: the three groups together are the same multiset as the list |
| Assembly.GroupedByKind | src/bundler.ts:267-286 | each group holds exactly the entries of its kind, in table order |
| Assembly.GroupsPartitionEntries | src/bundler.ts:267-286 | each export entry appears in exactly one specifier of the groups, of the kind its key dictates |
| Assembly.ExternalDeclsShape | src/bundler.ts:260-319 | one to three declarations, all from the module's path; exactly one specifier-less import when no entry is left; otherwise non-empty groups of one kind |
| Assembly.GroupsOneKind | src/bundler.ts:263-285 | each group holds one kind of specifier |
| Assembly.ExternalDeclsSpecifiers | src/bundler.ts:288-313 | the declarations hold the named, then default, then namespace specifiers, and together exactly the module's entries |
| Assembly.ExternalImportsShape | src/bundler.ts:257-322 | the hoisted imports are import declarations, each from a registered external module's path, between one and three times as many as there are external modules |
| Assembly.ExternalImportDeclarations | src/bundler.ts:261-318 | the loop computes ExternalDecls |
| Assembly.GetExternalImports | src/bundler.ts:257-322 | the loop over the registry computes ExternalImports |
| Assembly.ComputeNeedsMergeNamespaces | src/bundler.ts:66-72 | true exactly when a registered module has a `*` entry and an external `export *` |
| Assembly.BundledOnce | src/bundler.ts:76-83 | every module the walk reaches contributes its body exactly once |
| Assembly.BundledBodyLayout | src/bundler.ts:74-88 | the bundle starts with the hoisted imports (between one and three per external module), then the helper when some namespace object needs it, then the bodies of the bundled modules and nothing else |
| Assembly.BundleModules | src/bundler.ts:76-83 | the guarded walk concatenates the bodies of the first visits |
| Assembly.GetBundledCode | src/bundler.ts:63-89 | the statements computed are BundledBody |
| Driver.Bundle | src/bundler.ts:462-481 | a missing or unparsable entry fails with the parse error; once the graph is built with the entry as entry module, the final graph and names are those of tree-shaking (when enabled), deconfliction and hoisting applied in turn to it, a hoisting failure is the result, and otherwise the result is the assembled bundle of that graph; claimed names are never released |

## Left out

- Parsing, scope analysis and code generation by Babel. A parsed file is
  given as its statement list, its scope bindings and a program-scope lookup.
  The `minify` flag only reaches the generator, so it is stored and unused.
  The model ends with the statement list that `generate` would print.
- File-system access. `existsSync` is a set of paths, and reading plus
  parsing is a map from path to parsed file. The output write
  (src/bundler.ts lines 476-478) is not modelled.
- Helpers with no body in the repository are parameters of `Env`: `makeLegal`,
  `isIllegalIdentifier`, node's `join`, `dirname` and `basename`. So are the
  module `id` and `namedExports` that the rewriters read but `Module` does
  not define. `mergeNamespacesFunctionDefinition` is one uninterpreted statement.
- `traverseDependencyGraph` has no body in the repository either. It is
  modelled as a depth-first walk through each module's internal
  dependencies, in table order, with no visited set. The `includes` guards in
  deconflictIdentifiers and getBundledCode suggest the walk can repeat a
  module. Its depth is bounded by the number of registered modules, which an
  acyclic graph never exceeds.
- Graph.Walk and Treeshake.IsExportUsed carry that fuel bound. A re-export
  chain longer than the module count is not followed; an acyclic graph has
  none.
- src/external-module.ts has no `dependents` field and does not insert itself
  into the registry. The model follows module.ts, which relies on both.
- Babel's AST is reduced to import/export statements, the declarations they
  wrap and uninterpreted other statements. Removing a declaration sets a flag on its
  binding. Deconfliction renames binding records, not statement text, so the
  statements of the final body are not relinked to renamed bindings.
- Rewrite.TransformReExports: the source calls `module.dependencies.find`
  (src/ast-transformers/export-named-declaration.ts lines 19-22), but
  `dependencies` is a plain object (src/module.ts line 32), which has no
  `find` method. As written, every `export { ... } from` statement therefore
  throws a TypeError before its specifiers are read. The model uses the lookup
  the code evidently intends, by the joined path, and its Findings row about
  the `default` shortcut describes that repaired path. `Rewrite.DependencyPath`
  falls back to the source text only for a source the analysis never
  registered, which a built graph does not have.
- Rewrite.NamespaceImportObject: `Module` defines no `namedExports`, so as
  written `import * as ns from './x'` throws a TypeError at
  src/ast-transformers/import-declaration.ts line 42. The model reads the
  names from `Env.namedExports`, a parameter that the source never supplies.
- Rewrite.DefaultNameOf: `Module` defines no `id`, so as written every
  default-export name is `__default_export_module_undefined`, and the names of
  different modules collide. The model reads the number from `Env.moduleId`,
  a parameter that the source never supplies, and states nothing about
  distinct modules getting distinct names.
- ModuleBuilder.SpecifierExport, Graph.ShareRecord: when the dependency has no
  entry under the local name, the source stores `undefined` under the
  exported name (src/module.ts lines 325, 328, 337 and 353), and later passes
  that read `identifierName` or `binding` of the entry throw. The model leaves
  the table unchanged instead (both contracts state this no-op), so it does
  not capture those later failures.
- Treeshake.ShakeOneBinding: the tree-shaking walk (src/bundler.ts lines
  425-458) has no visited check. On a module visited a second time, Babel's
  `binding.path.remove()` on an already removed declaration throws. The
  model's removal flag can be set twice, so a revisit changes nothing and does
  not fail.
- String-literal imported or exported names are carried as `Str`. The
  rewriters ignore them, as the source does (the TODO branches).
- src/bundle.ts (a regex dependency scraper), src/cli.ts and src/index.ts are
  not part of this model.
- Error text is the message prefix the source throws. Babel's own parse
  message is not modelled.
- The static registries are fields of the one `Bundler` instance.
  `bundle()` clears both at the start of a run (src/bundler.ts lines
  463-464), which `Driver.Bundle` models. The claimed-name set is not cleared
  by the source, and the model keeps it.
- In these cases the code does something other than a reader might expect,
  and the model follows the code:
  - isExportUsed does not treat `*` as using everything. An import of `*`
    counts only through a referenced first matching import binding.
  - Binding-less exports of the entry module are shaken like any other
    module's (lines 450-458 have no entry check).
  - An exported binding with references, exported by a non-entry module
    whose export is unused, loses its declaration and its export entry.
- ModuleBuilder.BareSpecifierNotFixed: excludes the empty specifier, because
  `'' + '.js'` is `.js`, which starts with `.` and is then looked up like a
  relative path.
- ModuleBuilder.AnalyzeExports: promises only that export tables change and
  records are appended. Each statement's effect is stated by
  AnalyzeExportNamed, SpecifierExport, NamespaceReexport,
  DefaultExportRecord and MergeExportAll; they are not composed over a whole
  statement list.
- ModuleBuilder.AnalyzeExportNamed: states the effect of an exported
  declaration only. The effect of a specifier list is stated per specifier,
  by SpecifierExport and NamespaceReexport.
- ModuleBuilder.LoadModule: promises only that the graph grows and that
  only this module's dependency table changes.
- ModuleBuilder.AnalyseModule: promises only that the graph grows.
- ModuleBuilder.AnalyzeImports: promises only that the graph grows. The
  effect of each import statement is stated by AnalyzeImport.
- ModuleBuilder.ResolveThroughExternalExportAll: states only that existing
  entries are kept. It does not state which external module receives the name
  (the first external `export *`).
- Treeshake.UsedWithoutHops: characterises isExportUsed at zero re-export hops
  only. With hops, ImportedExportUsed and ReexportedExportUsed give
  sufficient conditions.

## Findings

| source | as written | input that shows it | evidently intended | confidence | as-written member | corrected member |
|---|---|---|---|---|---|---|
| src/ast-transformers/export-named-declaration.ts:25-35 | the shortcut fires for any lone specifier whose exported name is `default` | `export { foo as default } from './x'` yields `const <default(module)> = <default(x)>` | the shortcut is for `export { default } from`; `foo as default` should yield `const <default(module)> = foo`, as in the loop at lines 56-61 | not executed | Rewrite.ShortcutMisreadsAlias (Rewrite.ReexportDeclsAsWritten) | Rewrite.ReexportDeclsCorrected (Rewrite.ReexportDecls) |
| src/ast-transformers/export-default-declaration.ts:30,53,80 | reads `module.exports.default.identifierName` with no check | a non-entry module with `export default class {}` that no module imports: tree-shaking deletes its binding-less default entry (src/bundler.ts:450-457) and the rewriter throws a TypeError | a deleted default export is unused, so its statement is dropped | not executed | Rewrite.ShakenDefaultThrows (Rewrite.DefaultExportDeclsAsWritten) | Rewrite.DefaultExportDeclsMeaning (Rewrite.DefaultExportDecls) |
| src/bundler.ts:96-160 | the hoisting walk has no visited check, unlike the walks at lines 231-236 and 78-83 | diamond a→b, a→c, b→d, c→d, where d is imported as `* as ns`: d is visited twice and its body ends with `const ns = ...` twice | each module hoisted once, as the other two walks guard | not executed; rests on the walk revisiting shared modules, which those guards imply | Hoist.HoistRevisitDuplicates (Hoist.HoistedAsWritten) | Hoist.HoistedBodies (Hoist.Hoisted) |
