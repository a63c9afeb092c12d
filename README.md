# swc-plugin-global-esm, modelled in Dafny

The plugin rewrites an ECMAScript module's `import` and `export` declarations
into calls against a registry held in `global.__modules`. Modules can then be
linked at run time without the host's native loader. This project models
three layers of that system:

- **Binding collectors.** These are `transform/src/module_collector.rs` (the
  one the emitter uses) and `transform/src/es_module_collector.rs` (an older
  variant). Each makes one left-to-right pass over the module body. It records
  `imports` and `exports` and builds a rewritten body, and that body depends on
  `runtime_module`. They are modelled as classes (`ModuleCollector.Collector`,
  `EsModuleCollector.EsCollector`) whose methods update their fields in place.
  Each class is proved to follow a recursive specification function
  (`ModuleCollector.Collect`, `EsModuleCollector.EsCollect`).
- **Lowering emitters.** These are `transform/src/lib.rs` (class
  `GlobalEsm.GlobalEsmModule`) and the older `src/lib.rs` (class
  `LegacyGlobalEsm.LegacyGlobalEsmModule`). They turn the collected records
  into import bindings at the top of the body and registry calls at its end.
  The `BTreeMap` from sources to handles is a sorted sequence of pairs
  (module `ImportTable`), ordered by the lexicographic order of module
  `StringOrder`.
- **AST helpers and registry runtimes.** `transform/src/utils.rs` is module
  `Utils`. The registry of `runtime/index.ts` is class
  `Registry.GlobalEsmRegistry`, and the minimal registry of
  `src/runtime/index.ts` is class `SimpleRegistry.SimpleModuleRegistry`.

Function and class bodies and expressions the transform never inspects are
opaque `Ast.Code` values. `private_ident!` is modelled as a hygiene mark:
`Ast.Mark.Private(n)`, where `n` is taken from a counter (`nextMark`) that
each collector and emitter threads through its work. User-written
identifiers carry `Ast.Mark.Plain`.

In the following places the code does something other than its own doc
comments or fixtures suggest. The model does what the code does:

- The emitter appends `init`/`export`/`exportAll`/`reset` calls in static
  mode too (transform/src/lib.rs:350-363).
- Namespace imports in runtime mode call `importAll` with the remapped path
  and never create a handle (transform/src/lib.rs:198-208). The fixture
  output shows an older form.
- The doc comment of `collect_import` (transform/src/es_module_collector.rs:128)
  says the original exported name of `import { baz as baz2 }` is kept.
  Neither collector records it (transform/src/module_collector.rs:343-345),
  and the emitter reads the handle's property named like the local binding
  (transform/src/lib.rs:173). The model does the same. The Findings below
  state the consequence and the corrected binding beside it.
- The minimal registry's `import` uses `||`. A stored falsy value such as
  `null` is therefore "not found", not returned (src/runtime/index.ts:6).

## Model

| member | source | states |
|---|---|---|
| Utils.Ident | transform/src/utils.rs:8-10 | the identifier carries exactly the given symbol and a plain mark |
| Utils.IdentExpr | transform/src/utils.rs:13-15 | an identifier expression whose identifier carries exactly the given symbol |
| Utils.StrLitExpr | transform/src/utils.rs:20-26 | a string literal whose value is the input and whose raw text is absent |
| Utils.FnArg | transform/src/utils.rs:31-36 | a non-spread argument holding the expression |
| Utils.ObjMemberExpr | transform/src/utils.rs:41-47 | `obj.prop` with an identifier property |
| Utils.CallExpr | transform/src/utils.rs:52-59 | a call keeping callee and arguments in order, without type arguments |
| Utils.DeclVarAndAssignStmt | transform/src/utils.rs:64-79 | a non-declare `const` with exactly one non-definite declarator binding `name` to `init` |
| Utils.DeclVarAndAssignBindsOnlyName | transform/src/utils.rs:64-79 | the statement declares `name` and no other identifier |
| Utils.GlobalModuleApiCallExpr | transform/src/lib.rs:115-124 | a call of `global.__modules.<method>` with the given arguments |
| Utils.ObjLit | transform/src/lib.rs:61-74 | an object literal with exactly the given properties in order |
| Utils.RegistryCallsAppend | transform/src/lib.rs:350-363 | the registry calls of a concatenation are the calls of each part, in order |
| Bindings.PrivateIdent | transform/src/module_collector.rs:108-115 | a private identifier with the given symbol that is never plain |
| StringOrder.LessIrreflexive | transform/src/lib.rs:81 | no source precedes itself in the handle map's order |
| StringOrder.LessAsymmetric | transform/src/lib.rs:81 | two sources are never each before the other |
| StringOrder.LessTransitive | transform/src/lib.rs:81 | the handle map's order is transitive |
| StringOrder.LessTotal | transform/src/lib.rs:81 | any two different sources are ordered one way or the other |
| ImportTable.SortedTail | transform/src/lib.rs:81 | the tail of a sorted table is sorted and follows its head |
| ImportTable.LookupKeys | transform/src/lib.rs:126-133 | a lookup succeeds iff the key is in the table, and then returns that key's entry |
| ImportTable.InsertEntries | transform/src/lib.rs:126-133 | `or_insert` adds at most the new pair, and the keys grow by exactly the new key |
| ImportTable.InsertSorted | transform/src/lib.rs:126-133 | `or_insert` keeps the table sorted |
| ImportTable.InsertLookup | transform/src/lib.rs:126-133 | `or_insert` keeps an existing entry, otherwise stores the new one, and leaves all other keys alone |
| ModuleCollector.Collector.Default | transform/src/module_collector.rs:97-106 | no imports or exports, the given mode, and the given first hygiene mark |
| ModuleCollector.Collector.NewPrivateIdent | transform/src/module_collector.rs:108-115 | the identifier made with the current mark, and the counter advances by one |
| ModuleCollector.Collector.GetExportDeclStmtWithPrivateIdent | transform/src/module_collector.rs:108-115 | a fresh `__export_default` identifier and `const` binding it to the expression |
| ModuleCollector.Collector.CollectDefaultExportDeclAndConvertToStmt | transform/src/module_collector.rs:125-181 | the converted declaration, the marks it uses, and one Default export exactly when the shape is supported |
| ModuleCollector.Collector.CollectDefaultExportExprAndConvertToStmt | transform/src/module_collector.rs:183-191 | a fresh `__export_default` const for the expression, recorded as the Default export |
| ModuleCollector.Collector.CollectNamedExportSpecifiers | transform/src/module_collector.rs:193-213 | the exports grow by one Named record per non-type-only specifier, in order |
| ModuleCollector.Collector.CollectNamedReExportSpecifiers | transform/src/module_collector.rs:215-249 | imports, exports and marks grow as the re-export specification says |
| ModuleCollector.Collector.CollectReExportSpecifier | transform/src/module_collector.rs:220-247 | one identifier specifier adds one import under a fresh private name (`__default` and DefaultAsNamed for `default`) and one export of that name under the alias or the original name; any other specifier changes nothing |
| ModuleCollector.Collector.VisitImportDecl | transform/src/module_collector.rs:331-354 | the imports grow by one record per specifier, in order |
| ModuleCollector.Collector.VisitExportDecl | transform/src/module_collector.rs:356-379 | the exports grow by the first declared name of the declaration |
| ModuleCollector.Collector.VisitNamedExport | transform/src/module_collector.rs:381-420 | imports, exports and marks change as the named-export specification says |
| ModuleCollector.Collector.VisitExportAll | transform/src/module_collector.rs:422-432 | one NamespaceOrAll import and export pair on a fresh `__re_export_all` |
| ModuleCollector.Collector.VisitItem | transform/src/module_collector.rs:253-329 | body, records and counter after one item are one step of the specification |
| ModuleCollector.Collector.VisitMutModule | transform/src/module_collector.rs:253-329 | the new body, records and counter are those `Collect` gives for the old body |
| ModuleCollectorProps.CollectFromShift | transform/src/module_collector.rs:253-329 | a pass started from earlier results appends to those results |
| ModuleCollectorProps.CollectFromAppend | transform/src/module_collector.rs:253-329 | the pass over a concatenation is the pass over the second part, started where the first stopped |
| ModuleCollectorProps.StatementKeptInPlace | transform/src/module_collector.rs:257 | a plain statement sits in the new body between the results of what precedes and what follows it |
| ModuleCollectorProps.StatementsDoNotAffectBindings | transform/src/module_collector.rs:257 | records and marks depend only on the module declarations, whatever statements lie between them |
| ModuleCollectorProps.RuntimeBodyIsScript | transform/src/module_collector.rs:260-324 | in runtime mode the only module declaration left in the new body is an `export default` of a TypeScript interface, which the collector keeps as it is |
| ModuleCollectorProps.BindingsAcrossModes | transform/src/module_collector.rs:260-266 | exports and marks agree across modes, and the static-mode imports are exactly the runtime-mode imports of the body without its `import` declarations (the re-export and `export *` imports) |
| ModuleCollectorProps.StaticMarksWithoutImports | transform/src/module_collector.rs:260-266 | in static mode, dropping imports from the input changes no record and no mark |
| ModuleCollectorProps.ImportRecordPerSpecifier | transform/src/module_collector.rs:331-354 | one record per specifier with its local name, source, and kind by specifier form |
| ModuleCollectorProps.ReExportPairs | transform/src/module_collector.rs:215-249 | each re-exported identifier specifier gives one import and one Named export of the same fresh private identifier, named `__default` for `default` and after the original name otherwise, with mark `mark + k`; the import is DefaultAsNamed exactly for `default`; the export is aliased to the specifier's identifier alias or else its original name |
| ModuleCollectorProps.LocalExportPerSpecifier | transform/src/module_collector.rs:193-213 | exactly one export per non-type-only identifier specifier, in specifier order: `NamedExport(orig, alias)` with the alias present exactly when the specifier has an identifier `as` name; no other specifier exports anything |
| ModuleCollectorProps.ExportDeclMeaning | transform/src/module_collector.rs:356-379 | at most one Named export without alias: the function's or class's name, or the first declarator's identifier (a name the declaration binds); none exactly for a first declarator that is a pattern, no declarator, or a TS declaration; the mode decides the body as lines 271-278 do |
| ModuleCollectorProps.DefaultExportMeaning | transform/src/module_collector.rs:125-181 | a TS interface records nothing and stays; otherwise one Default export, and the first new item is the function or class declaration itself (named forms) or `const __export_default = <function or class expression>` with a fresh mark (anonymous forms), the code unchanged; then `export default` in static mode only |
| ModuleCollectorProps.DefaultExprMeaning | transform/src/module_collector.rs:183-191 | a fresh `__export_default` const, recorded as Default, then `export default` in static mode only |
| ModuleCollectorProps.ExportStarMeaning | transform/src/module_collector.rs:399-432 | `export *` gives a `__re_export_all` pair; `export * as ns` a namespace import and a Named export aliased `ns`; each item is dropped in runtime mode and kept in static mode |
| ModuleCollectorProps.ReExportsAreImported | transform/src/module_collector.rs:215-249 | every re-export names an identifier the same declaration imports |
| ModuleCollectorProps.ItemExportsResolve | transform/src/module_collector.rs:253-329 | every export of one item is bound by the body, by an import, or listed locally |
| ModuleCollectorProps.ExportsResolve | transform/src/module_collector.rs:253-329 | every export of a module is bound by the new body, by an import record, or listed in a local `export {}` |
| ModuleCollectorHygiene.CollectFresh | transform/src/module_collector.rs:108-115 | the private identifiers made are fresh, increasing, and inside the marks the pass consumed |
| ModuleCollectorHygiene.PrivateBindingsDistinct | transform/src/module_collector.rs:108-115 | for user-written input, private bindings differ from each other and from every user name |
| EsModuleCollector.EsCollector.Default | transform/src/es_module_collector.rs:97-106 | no records, the given mode and first mark |
| EsModuleCollector.EsCollector.CloneModuleDeclIfNeeded | transform/src/es_module_collector.rs:108-128 | the declaration is appended in static mode only |
| EsModuleCollector.EsCollector.CollectImport | transform/src/es_module_collector.rs:130-154 | one record per specifier, in order, in runtime mode only |
| EsModuleCollector.EsCollector.ConvertExportDecl | transform/src/es_module_collector.rs:168-197 | the plain declaration in runtime mode, the original in static mode, and its first name as a Named export |
| EsModuleCollector.EsCollector.ConvertExportDefaultDecl | transform/src/es_module_collector.rs:221-292 | two items for functions and classes (declaration, then empty or `export default`), the item unchanged otherwise |
| EsModuleCollector.EsCollector.ConvertExportDefaultExpr | transform/src/es_module_collector.rs:307-328 | a fresh `__export_default` const and its tail, recorded as Default |
| EsModuleCollector.EsCollector.CollectNamedExports | transform/src/es_module_collector.rs:331-419 | fails on a string alias and otherwise records what the specification says |
| EsModuleCollector.EsCollector.CollectLocalExports | transform/src/es_module_collector.rs:336-355 | `export { ... }` without a source: fails exactly when a non-type-only identifier specifier has a string alias, otherwise appends one named export per non-type-only identifier specifier |
| EsModuleCollector.EsCollector.CollectReExports | transform/src/es_module_collector.rs:380-415 | `export { ... } from src`: fails exactly when a specifier has a string alias, otherwise appends the specifiers' import/export pairs and advances the marks |
| EsModuleCollector.EsCollector.CollectReExportSpecifier | transform/src/es_module_collector.rs:382-414 | one re-export specifier: its import and export, or failure on a string alias |
| EsModuleCollector.EsCollector.CollectExportAll | transform/src/es_module_collector.rs:422-431 | one NamespaceOrAll pair on a fresh `__re_export_all` |
| EsModuleCollector.EsCollector.VisitItem | transform/src/es_module_collector.rs:437-493 | one item is one step of the specification, stopping where it stops |
| EsModuleCollector.EsCollector.RetainNonEmpty | transform/src/es_module_collector.rs:495 | the body without its empty statements |
| EsModuleCollector.EsCollector.VisitMutModule | transform/src/es_module_collector.rs:437-497 | success, records and body are those of `EsCollectFrom`, with empty statements removed |
| EsModuleCollector.EsLocalStopped | transform/src/es_module_collector.rs:350 | once a local specifier fails, the whole declaration fails |
| EsModuleCollector.EsReExportsStopped | transform/src/es_module_collector.rs:408 | once a re-export specifier fails, the whole declaration fails |
| EsModuleCollector.EsCollectStopped | transform/src/es_module_collector.rs:437-497 | once an item fails, the whole pass fails |
| EsModuleCollectorProps.LocalExportsAgree | transform/src/es_module_collector.rs:331-358 | a local `export {}` fails iff some specifier has a string alias, else it records what the newer collector records |
| EsModuleCollectorProps.ReExportsAgree | transform/src/es_module_collector.rs:359-419 | `export {} from` fails iff some specifier has a string alias, else it agrees with the newer collector |
| EsModuleCollectorProps.RemoveEmptyAppend | transform/src/es_module_collector.rs:495 | removing empty statements distributes over concatenation |
| EsModuleCollectorProps.RemoveEmptyExact | transform/src/es_module_collector.rs:494-496 | the body left holds no empty statement and keeps every other item |
| EsModuleCollectorProps.EsItemAgrees | transform/src/es_module_collector.rs:437-493 | one item fails iff it has a string alias, otherwise it matches the newer collector up to empty statements |
| EsModuleCollectorProps.StepAgrees | transform/src/es_module_collector.rs:437-493 | agreement between the collectors survives one more item |
| EsModuleCollectorProps.EsCollectFromAgrees | transform/src/es_module_collector.rs:437-497 | over a whole prefix, the older collector fails iff some item fails, and otherwise agrees |
| EsModuleCollectorProps.EsAgrees | transform/src/es_module_collector.rs:437-497 | the older pass fails iff some item has a string alias; otherwise the same imports, exports and marks, and the body without empty statements |
| GlobalEsmProps.HandleDeclsMeaning | transform/src/lib.rs:101-124 | the k-th handle declaration is `const <handle k> = global.__modules.import("<path>")`, the path being the `importPaths` entry for the k-th source if there is one and the source otherwise |
| GlobalEsm.GlobalEsmModule.Default | transform/src/lib.rs:86-99 | the given name, mode, path map and first mark, and an empty handle table |
| GlobalEsm.GlobalEsmModule.GetOrCreateGlobalImportModuleIdent | transform/src/lib.rs:126-133 | the table and handle `AddHandle` gives |
| GlobalEsm.GlobalEsmModule.DefaultImportStmt | transform/src/lib.rs:139-161 | the binding and handles `ImportItem` gives for a default record |
| GlobalEsm.GlobalEsmModule.NamedImportStmt | transform/src/lib.rs:167-192 | the binding and handles `ImportItem` gives for a named record: in runtime mode `const local = <handle>.<local name>` |
| GlobalEsm.GlobalEsmModule.NamespaceImportStmt | transform/src/lib.rs:198-223 | the binding `ImportItem` gives, with the handles unchanged |
| GlobalEsm.GlobalEsmModule.GetExportObjects | transform/src/lib.rs:229-275 | the keyed and the spread objects, each absent when it has no property |
| GlobalEsm.GlobalEsmModule.GetGlobalExports | transform/src/lib.rs:29-52 | the `export` and `exportAll` calls, each present only with a non-empty object |
| GlobalEsm.GlobalEsmModule.InsertImportStmts | transform/src/lib.rs:322-347 | the bindings are inserted at the top, in order, and the handles are those `ImportItems` gives |
| GlobalEsm.GlobalEsmModule.PushRegistration | transform/src/lib.rs:350-363 | the body is followed by the registration |
| GlobalEsm.GlobalEsmModule.InsertHandleDecls | transform/src/lib.rs:365-374 | the handle declarations are inserted before everything, in table order |
| GlobalEsm.GlobalEsmModule.CollectModule | transform/src/lib.rs:315-320 | body, records and counter are those of `Collect` |
| GlobalEsm.GlobalEsmModule.VisitMutModule | transform/src/lib.rs:313-375 | the new body and handles are those `Emit` gives for the collected module |
| GlobalEsmProps.NormalizeChars | transform/src/lib.rs:96 | same length, letters and digits kept, every other character turned into `_` |
| GlobalEsmProps.NormalizeIs | transform/src/lib.rs:96 | a string with that character-wise shape is the normal form |
| GlobalEsmProps.HandleNameIsIdentifier | transform/src/lib.rs:126-133 | a handle name starts with `_`, has one more character than the source, and holds only letters, digits and `_` |
| GlobalEsmProps.HandleNameExamples | transform/tests/fixture/export/mixed/output.js:1-4 | `react`, `@app/core` and `@app/components` give `_react`, `__app_core` and `__app_components` |
| GlobalEsmProps.HandleNamesCanCoincide | transform/src/lib.rs:96 | two sources can share a handle name, so only hygiene marks tell the handles apart |
| GlobalEsmProps.SortedKeysDistinct | transform/src/lib.rs:81 | a sorted table holds each source once |
| GlobalEsmProps.AddHandleKeeps | transform/src/lib.rs:126-133 | getting a handle keeps the table well formed, reuses an existing handle, and otherwise adds a fresh one |
| GlobalEsmProps.InsertUnchanged | transform/src/lib.rs:126-133 | inserting a source that is present changes nothing |
| GlobalEsmProps.HandleSourcesStep | transform/src/lib.rs:322-347 | which sources get handles, extended by one record |
| GlobalEsmProps.ImportItemsTable | transform/src/lib.rs:322-347 | after the bindings the table is well formed, its keys are the old keys plus the default and named sources, and old handles stay |
| GlobalEsmProps.ImportItemStep | transform/src/lib.rs:139-223 | one record's binding reads from the handle of its source (the `default` property, or for a named import the property named like the local binding), and the handles made before stay |
| GlobalEsmProps.BindsViaKept | transform/src/lib.rs:126-133 | a binding stays right while its source's handle stays |
| GlobalEsmProps.ImportItemsBindings | transform/src/lib.rs:322-347 | every binding statement reads from its source's final handle (`default`, or for a named import the property named like the local binding), or calls `importAll`, or is a static import |
| GlobalEsmProps.RuntimeHandles | transform/src/lib.rs:365-374 | the final table is sorted, holds exactly the handle sources, has fresh marks, and has one handle per source |
| GlobalEsmProps.HandlesIgnorePaths | transform/src/lib.rs:126-133 | handles are keyed by the sources as written, whatever the path map |
| GlobalEsmProps.StaticIgnoresPaths | transform/src/lib.rs:148-160 | in static mode the path map changes nothing |
| GlobalEsmProps.StaticImportItems | transform/src/lib.rs:176-222 | static bindings ignore paths and make no handle |
| GlobalEsmProps.ExportObjectsMeaning | transform/src/lib.rs:229-275 | one keyed property per default or named export, in order, under its exported name; one spread per `export *` |
| GlobalEsmProps.ExportKinds | transform/src/lib.rs:229-275 | the keyed object is non-empty iff there is a non-namespace export, and the spread object iff there is a namespace export |
| GlobalEsmProps.RegistrationShape | transform/src/lib.rs:350-363 | `reset` alone without exports; otherwise `init`, then `export` if needed, then `exportAll` if needed |
| GlobalEsmProps.ImportReadsExportedName | transform/src/lib.rs:167-192 | the corrected binding reads `default` for a default import and the imported name for a named one, and the emitter's binding equals it exactly when the specifier does not rename |
| GlobalEsmProps.AsWrittenReadsLocalName | transform/src/lib.rs:173 | for `import { useState as useS } from 'react'` the emitter writes `const useS = <react handle>.useS`, which differs from the corrected binding |
| LegacyGlobalEsm.ImportStmts | src/lib.rs:189-218 | one binding statement per import record |
| LegacyGlobalEsm.ExportProps | src/lib.rs:121-161 | one property per export |
| LegacyGlobalEsm.LegacyGlobalEsmModule.constructor | src/lib.rs:35-40 | the given name, mode and path map |
| LegacyGlobalEsm.LegacyGlobalEsmModule.GetExportsObjExpr | src/lib.rs:121-162 | the export object the specification gives |
| LegacyGlobalEsm.LegacyGlobalEsmModule.VisitMutModule | src/lib.rs:179-226 | the new body is the rewrite of the old one |
| LegacyGlobalEsmProps.ImportStmtMeaning | src/lib.rs:57-116 | the statement binds the local name to its own `import` of the remapped path, reading `default`, the local name or the whole module |
| LegacyGlobalEsmProps.ImportStmtsCallNothing | src/lib.rs:189-218 | the binding statements contain no registry call statement |
| LegacyGlobalEsmProps.ImportStmtsMeaning | src/lib.rs:189-218 | the k-th statement binds the k-th record |
| LegacyGlobalEsmProps.ExportsObjectMeaning | src/lib.rs:121-161 | `null` iff there is no export; otherwise one property per export under its exported name, an alias always keyed |
| LegacyGlobalEsmProps.RewriteRegistration | src/lib.rs:179-226 | the body stays in place and exactly one `export` call is added iff there is an import or an export |
| LegacyGlobalEsmProps.ImportOnlyRegistersNull | src/lib.rs:186-225 | an import-only module registers `null` |
| Registry.GlobalEsmRegistry.constructor | runtime/index.ts:24 | an empty module table |
| Registry.GlobalEsmRegistry.Reset | runtime/index.ts:30-36 | the named entry goes, or every entry without a name |
| Registry.GlobalEsmRegistry.Init | runtime/index.ts:37-39 | the named entry becomes empty and the others stay |
| Registry.GlobalEsmRegistry.Import | runtime/index.ts:40-44 | the entry, or a not-found error |
| Registry.GlobalEsmRegistry.DefineProperties | runtime/index.ts:54-72 | the entry and error the key-by-key definition gives, stopping at the first failure |
| Registry.GlobalEsmRegistry.Export | runtime/index.ts:45-73 | the table and error `ExportSpec` gives |
| Registry.DefineAllStops | runtime/index.ts:54-72 | after the first failure no further key changes anything |
| RegistryProps.KeptSetStep | runtime/index.ts:63-72 | the keys defined, extended by one key |
| RegistryProps.DefinableStep | runtime/index.ts:54-72 | when definition succeeds, extended by one key |
| RegistryProps.DefineAllMeaning | runtime/index.ts:54-72 | success iff every defined key is new and unique; then a getter per key; an existing property is never changed and no other key is added |
| RegistryProps.ExportMeaning | runtime/index.ts:45-73 | success iff initialized, an object, not `null` and all keys new; the result on success; nothing changed on the early errors; other modules untouched |
| RegistryProps.ExportKeepsProperties | runtime/index.ts:63-72 | no property is changed, and `default` only ever comes from `exports` |
| RegistryProps.InitThenExport | runtime/index.ts:37-61 | `init` then `export` succeeds; a second `export` fails on the first key again |
| RegistryProps.Lifecycle | runtime/index.ts:30-44 | `init` gives an empty entry; `reset` makes the name unknown to `import` and `export`; other names stay |
| RegistryProps.MissingRuntimeMethods | runtime/index.ts:29-74 | the runtime has no `importAll` or `exportAll`, yet a module with `export *` calls `exportAll` |
| SimpleRegistry.SimpleModuleRegistry.constructor | src/runtime/index.ts:2 | an empty table |
| SimpleRegistry.SimpleModuleRegistry.Import | src/runtime/index.ts:5-8 | the stored value when truthy, else not found |
| SimpleRegistry.SimpleModuleRegistry.Export | src/runtime/index.ts:10-12 | the value replaces whatever was stored under the name |
| SimpleRegistry.ExportThenImport | src/runtime/index.ts:5-12 | after `export(n, e)`, `import(n)` gives `e` iff it is truthy; other names read as before |
| SimpleRegistry.ObjectExportsAreFound | src/runtime/index.ts:5-12 | an exported object is always found |
| SimpleRegistry.NullRegistrationNotFound | src/runtime/index.ts:6 | a module registered with `null` is not found |

## Left out

- Spans, `DUMMY_SP`, `debug!` tracing and the generic `VisitMut`/`Fold` traversal. Only the dispatch they perform is modelled.
- The plugin entry point and its configuration parsing (src/lib.rs:229-245) and the `global_esm` folder factory (transform/src/lib.rs:378-388). They are host plumbing.
- demo.ts: it only calls the compiler and prints.
- The installation of `global.__modules` and the choice between `global`, `globalThis` and `window` (runtime/index.ts:76-90, src/runtime/index.ts:1-3 and 16-28).
- The hygiene machinery of swc. A private identifier is modelled as a fresh mark from a counter.
- transform/src/constants.rs is not part of this model. The registry method names are distinct string constants in `Utils`.
- src/module_collector.rs and src/utils.rs are not part of this model. The older emitter's records (`LegacyImport`, `LegacyExport`) are parameters of `LegacyGlobalEsm.LegacyGlobalEsmModule.VisitMutModule`.
- Registry.GlobalEsmRegistry.Import: the runtime keeps its table in a plain `{}` (runtime/index.ts:24 and 34), so a module name inherited from `Object.prototype` (`toString`, `__proto__`, ...) is found there: `import("toString")` returns `Object.prototype.toString` rather than throwing, and `export("__proto__", ...)` passes the object test without any `init`. The model's table is a map, which treats every such name as absent (not found, or not initialized).
- SimpleRegistry.SimpleModuleRegistry.Import: the same holds for the older runtime's plain `{}` (src/runtime/index.ts:2): a name inherited from `Object.prototype` is found there, while the model treats it as absent.
- Registry.GlobalEsmRegistry.Reset: `reset(name)` stores `undefined`, while the model removes the key. `import` and `export` treat the two alike.
- Registry.GlobalEsmRegistry.Export: getters are modelled as `Getter(source, key)`, meaning "read key of the source object". JavaScript prototype lookups, `Object.keys` ordering beyond the given key list, and property attributes other than redefinition failing are not modelled.
- JsValues.JsValue: numbers are integers. NaN and floating point are not modelled, and truthiness follows JavaScript otherwise.
- EsModuleCollector.EsCollector.VisitMutModule: after a panic (`unimplemented!`) the state of the collector and module is left unspecified. The model reports failure only.
- The runtime of runtime/index.ts has no `importAll` or `exportAll`, while the emitter calls both. RegistryProps.MissingRuntimeMethods states the mismatch, and no behaviour is invented for the missing methods.

## Findings

| source | as written | input that shows it | evidently intended | confidence | as-written member | corrected member |
|---|---|---|---|---|---|---|
| transform/src/lib.rs:173 | a named import binds `const local = handle.<local name>`, and the collector (transform/src/module_collector.rs:343-345) does not record the imported name; the emitter of the model does the same | `import { useState as useS } from 'react'` reads `react.useS`, not `react.useState` | read the property the source module exports under its own name | not executed | GlobalEsmProps.AsWrittenReadsLocalName | GlobalEsmProps.ImportReadsExportedName |

The emitter of the model binds named imports as line 173 does. The corrected
binding, `GlobalEsmProps.CorrectedBinding`, stands beside it: it reads the
imported name, and `GlobalEsmProps.ImportReadsExportedName` shows that the two
agree exactly on specifiers that do not rename.
