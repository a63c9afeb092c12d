/**
  What the emitter of transform/src/lib.rs promises, proved about the
  functions its visitor follows (module GlobalEsm).
*/
module GlobalEsmProps {
  import opened Ast
  import opened Bindings
  import opened StringOrder
  import opened ImportTable
  import opened ModuleCollector
  import opened GlobalEsm
  import Utils

  // ---------------------------------------------------------------------------
  // Handle names
  // ---------------------------------------------------------------------------

  /** `replace_all("[^a-zA-Z0-9]", "_")`, character by character. */
  lemma {:induction false} NormalizeChars(s: string)
    ensures |Normalize(s)| == |s|
    ensures forall k :: 0 <= k < |s| ==> Normalize(s)[k] == (if IsAsciiAlnum(s[k]) then s[k] else '_')
  {
    if s != [] {
      NormalizeChars(s[..|s| - 1]);
    }
  }

  /**
    A handle name is `_` followed by one character per character of the
    source, each an ASCII letter or digit kept as it is, or `_`: always a
    valid JavaScript identifier.
  */
  lemma HandleNameIsIdentifier(src: string)
    ensures var n := HandleName(src);
      |n| == |src| + 1 && n[0] == '_' &&
      (forall k :: 0 <= k < |n| ==> IsAsciiAlnum(n[k]) || n[k] == '_') &&
      (forall k :: 0 <= k < |src| && IsAsciiAlnum(src[k]) ==> n[k + 1] == src[k])
  {
    NormalizeChars("_" + src);
    assert forall k :: 0 <= k < |src| ==> ("_" + src)[k + 1] == src[k];
  }

  /** A string that keeps the letters and digits of `s` and has `_` for the rest is its normal form. */
  lemma NormalizeIs(s: string, t: string)
    requires |t| == |s| && forall k :: 0 <= k < |s| ==> t[k] == (if IsAsciiAlnum(s[k]) then s[k] else '_')
    ensures Normalize(s) == t
  {
    NormalizeChars(s);
  }

  /** The handle names of the sources the emitted code of the package's fixture imports. */
  lemma HandleNameExamples()
    ensures HandleName("react") == "_react"
    ensures HandleName("@app/core") == "__app_core"
    ensures HandleName("@app/components") == "__app_components"
  {
    assert HandleName("react") == "_react" by {
      assert "_" + "react" == "_react";
      NormalizeIs("_react", "_react");
    }
    assert HandleName("@app/core") == "__app_core" by {
      assert "_" + "@app/core" == "_@app/core";
      NormalizeIs("_@app/core", "__app_core");
    }
    assert HandleName("@app/components") == "__app_components" by {
      assert "_" + "@app/components" == "_@app/components";
      NormalizeIs("_@app/components", "__app_components");
    }
  }

  /** Normalization merges sources: handles are told apart by their hygiene marks, not their names. */
  lemma HandleNamesCanCoincide()
    ensures HandleName("a-b") == HandleName("a.b") == "_a_b"
  {
    assert "_" + "a-b" == "_a-b";
    NormalizeIs("_a-b", "_a_b");
    assert "_" + "a.b" == "_a.b";
    NormalizeIs("_a.b", "_a_b");
  }

  // ---------------------------------------------------------------------------
  // One handle per source
  // ---------------------------------------------------------------------------

  /**
    The handle table is sorted, and each handle is a private identifier named
    after its source, made with its own mark from `[lo, nextMark)`.
  */
  predicate WellFormed(h: Handles, lo: nat) {
    Sorted(h.table) &&
    (forall i :: 0 <= i < |h.table| ==>
       h.table[i].1.sym == HandleName(h.table[i].0) && PrivateIn(h.table[i].1, lo, h.nextMark)) &&
    (forall i, j :: 0 <= i < |h.table| && 0 <= j < |h.table| && i != j ==> h.table[i].1.mark != h.table[j].1.mark)
  }

  /** The sources that get a handle: those of default and named imports, in runtime mode. */
  function HandleSources(runtime: bool, imports: seq<ImportModule>): set<string> {
    if runtime then set k | 0 <= k < |imports| && imports[k].moduleType != NamespaceOrAll :: imports[k].moduleSrc
    else {}
  }

  lemma SortedKeysDistinct(t: Table, i: nat, j: nat)
    requires Sorted(t) && i < |t| && j < |t| && i != j
    ensures t[i].0 != t[j].0
  {
    if i < j {
      if t[i].0 == t[j].0 {
        LessIrreflexive(t[i].0);
      }
    } else {
      if t[i].0 == t[j].0 {
        LessIrreflexive(t[j].0);
      }
    }
  }

  /** Getting or creating a handle keeps the table well formed and returns the table's entry. */
  lemma AddHandleKeeps(h: Handles, src: string, lo: nat)
    requires WellFormed(h, lo) && lo <= h.nextMark
    ensures var (h', handle) := AddHandle(h, src);
      WellFormed(h', lo) && h'.nextMark == h.nextMark + 1 && Lookup(h'.table, src) == Some(handle) &&
      Keys(h'.table) == Keys(h.table) + {src} &&
      (forall other :: other != src ==> Lookup(h'.table, other) == Lookup(h.table, other)) &&
      (src in Keys(h.table) ==> h'.table == h.table)
  {
    var created := PrivateIdent(HandleName(src), h.nextMark);
    var t := h.table;
    var t' := Insert(t, src, created);
    InsertSorted(t, src, created);
    InsertEntries(t, src, created);
    forall other ensures Lookup(t', other) == (if other == src then (if src in Keys(t) then Lookup(t, src) else Some(created)) else Lookup(t, other)) {
      InsertLookup(t, src, created, other);
    }
    LookupKeys(t, src);
    if src in Keys(t) {
      assert t' == t by {
        InsertUnchanged(t, src, created);
      }
    }
    forall i | 0 <= i < |t'| ensures t'[i].1.sym == HandleName(t'[i].0) && PrivateIn(t'[i].1, lo, h.nextMark + 1) {
      assert t'[i] in t';
    }
    forall i, j | 0 <= i < |t'| && 0 <= j < |t'| && i != j ensures t'[i].1.mark != t'[j].1.mark {
      assert t'[i] in t' && t'[j] in t';
      SortedKeysDistinct(t', i, j);
      if t'[i] != (src, created) && t'[j] != (src, created) {
        var a :| 0 <= a < |t| && t[a] == t'[i];
        var b :| 0 <= b < |t| && t[b] == t'[j];
      }
    }
  }

  /** `or_insert` on a key that is there already changes nothing. */
  lemma {:induction false} InsertUnchanged(t: Table, key: string, value: Ident)
    requires Sorted(t) && key in Keys(t)
    ensures Insert(t, key, value) == t
  {
    if t[0].0 != key {
      var i :| 0 <= i < |t| && t[i].0 == key;
      assert i > 0;
      SortedTail(t);
      assert t[1..][i - 1].0 == key;
      assert key in Keys(t[1..]);
      LessAsymmetric(t[0].0, key);
      InsertUnchanged(t[1..], key, value);
      assert t == [t[0]] + t[1..];
    }
  }

  /** The sources of a sequence of records, extended by one record. */
  lemma HandleSourcesStep(runtime: bool, imports: seq<ImportModule>)
    requires imports != []
    ensures var last := imports[|imports| - 1];
      HandleSources(runtime, imports)
        == HandleSources(runtime, imports[..|imports| - 1])
           + (if runtime && last.moduleType != NamespaceOrAll then {last.moduleSrc} else {})
  {
    var init := imports[..|imports| - 1];
    forall s | s in HandleSources(runtime, imports) && s !in HandleSources(runtime, init)
      ensures s == imports[|imports| - 1].moduleSrc && imports[|imports| - 1].moduleType != NamespaceOrAll
    {
      var k :| 0 <= k < |imports| && imports[k].moduleType != NamespaceOrAll && imports[k].moduleSrc == s;
    }
    forall s | s in HandleSources(runtime, init) ensures s in HandleSources(runtime, imports) {
      var k :| 0 <= k < |init| && init[k].moduleType != NamespaceOrAll && init[k].moduleSrc == s;
      assert imports[k] == init[k];
    }
  }

  /**
    The handle table after the binding statements: well formed, holding
    exactly the sources of default and named imports of runtime mode besides
    the ones it held, with the handles it held unchanged; static mode makes
    no handle.
  */
  lemma {:induction false} ImportItemsTable(runtime: bool, paths: ImportPaths, imports: seq<ImportModule>, h: Handles, lo: nat)
    requires WellFormed(h, lo) && lo <= h.nextMark
    ensures var h' := ImportItems(runtime, paths, imports, h).1;
      WellFormed(h', lo) && h.nextMark <= h'.nextMark &&
      Keys(h'.table) == Keys(h.table) + HandleSources(runtime, imports) &&
      (forall src :: src in Keys(h.table) ==> Lookup(h'.table, src) == Lookup(h.table, src)) &&
      (!runtime ==> h' == h)
  {
    if imports != [] {
      var init := imports[..|imports| - 1];
      var last := imports[|imports| - 1];
      ImportItemsTable(runtime, paths, init, h, lo);
      HandleSourcesStep(runtime, imports);
      var p := ImportItems(runtime, paths, init, h).1;
      if runtime && last.moduleType != NamespaceOrAll {
        AddHandleKeeps(p, last.moduleSrc, lo);
        forall src | src in Keys(h.table) ensures Lookup(AddHandle(p, last.moduleSrc).0.table, src) == Lookup(h.table, src) {
          LookupKeys(h.table, src);
        }
      }
    }
  }

  /**
    What the binding statement of one record is, given the final handle
    table: a default or named import of runtime mode reads from the handle
    the table holds for its source, a namespace import asks the registry
    directly, and static mode emits an import declaration.
  */
  predicate BindsVia(runtime: bool, paths: ImportPaths, im: ImportModule, item: ModuleItem, t: Table) {
    if !runtime then item == StaticImport(im)
    else if im.moduleType == NamespaceOrAll then item == NamespaceBinding(im, paths)
    else Lookup(t, im.moduleSrc).Some? && item == HandleBinding(im, Lookup(t, im.moduleSrc).value)
  }

  /**
    Every binding statement reads from the handle the final table holds for
    its source, so imports of one source share one handle.
  */
  lemma {:induction false} ImportItemsBindings(runtime: bool, paths: ImportPaths, imports: seq<ImportModule>, h: Handles, lo: nat)
    requires WellFormed(h, lo) && lo <= h.nextMark
    ensures var r := ImportItems(runtime, paths, imports, h);
      forall k :: 0 <= k < |imports| ==> BindsVia(runtime, paths, imports[k], r.0[k], r.1.table)
  {
    if imports != [] {
      var init := imports[..|imports| - 1];
      var last := imports[|imports| - 1];
      ImportItemsBindings(runtime, paths, init, h, lo);
      ImportItemsWellFormed(runtime, paths, init, h, lo);
      var p := ImportItems(runtime, paths, init, h);
      BindingsStep(runtime, paths, init, last, p.0, p.1, lo);
      assert imports == init + [last];
    }
  }

  /** The handles after any prefix of the bindings are well formed. */
  lemma ImportItemsWellFormed(runtime: bool, paths: ImportPaths, imports: seq<ImportModule>, h: Handles, lo: nat)
    requires WellFormed(h, lo) && lo <= h.nextMark
    ensures var h' := ImportItems(runtime, paths, imports, h).1;
      WellFormed(h', lo) && lo <= h'.nextMark
  {
    ImportItemsTable(runtime, paths, imports, h, lo);
  }

  /** The bindings of a prefix stay right when one more record is emitted, and so is the new one. */
  lemma BindingsStep(runtime: bool, paths: ImportPaths, init: seq<ImportModule>, last: ImportModule,
                     items: seq<ModuleItem>, h: Handles, lo: nat)
    requires WellFormed(h, lo) && lo <= h.nextMark && |items| == |init|
    requires forall k :: 0 <= k < |init| ==> BindsVia(runtime, paths, init[k], items[k], h.table)
    ensures var (item, h') := ImportItem(runtime, paths, last, h);
      forall k :: 0 <= k < |init| + 1 ==> BindsVia(runtime, paths, (init + [last])[k], (items + [item])[k], h'.table)
  {
    var (item, h') := ImportItem(runtime, paths, last, h);
    ImportItemStep(runtime, paths, last, h, lo);
    BindingsKept(runtime, paths, init, items, h.table, h'.table);
    forall k | 0 <= k < |init| + 1 ensures BindsVia(runtime, paths, (init + [last])[k], (items + [item])[k], h'.table) {
      if k < |init| {
        assert (init + [last])[k] == init[k] && (items + [item])[k] == items[k];
      }
    }
  }

  /** Binding statements already emitted stay right while the handles of their sources stay. */
  lemma BindingsKept(runtime: bool, paths: ImportPaths, imports: seq<ImportModule>, items: seq<ModuleItem>, t: Table, t': Table)
    requires |items| == |imports|
    requires forall k :: 0 <= k < |imports| ==> BindsVia(runtime, paths, imports[k], items[k], t)
    requires forall src :: Lookup(t, src).Some? ==> Lookup(t', src) == Lookup(t, src)
    ensures forall k :: 0 <= k < |imports| ==> BindsVia(runtime, paths, imports[k], items[k], t')
  {
    forall k | 0 <= k < |imports| ensures BindsVia(runtime, paths, imports[k], items[k], t') {
      BindsViaKept(runtime, paths, imports[k], items[k], t, t');
    }
  }

  /** One record: its own binding is right, and the handles already made stay. */
  lemma ImportItemStep(runtime: bool, paths: ImportPaths, im: ImportModule, h: Handles, lo: nat)
    requires WellFormed(h, lo) && lo <= h.nextMark
    ensures var (item, h') := ImportItem(runtime, paths, im, h);
      BindsVia(runtime, paths, im, item, h'.table) &&
      forall src :: Lookup(h.table, src).Some? ==> Lookup(h'.table, src) == Lookup(h.table, src)
  {
    if runtime && im.moduleType != NamespaceOrAll {
      AddHandleKeeps(h, im.moduleSrc, lo);
      LookupKeys(h.table, im.moduleSrc);
    }
  }

  /** A binding statement stays right when the handle of its source stays. */
  lemma BindsViaKept(runtime: bool, paths: ImportPaths, im: ImportModule, item: ModuleItem, t: Table, t': Table)
    requires BindsVia(runtime, paths, im, item, t)
    requires Lookup(t, im.moduleSrc).Some? ==> Lookup(t', im.moduleSrc) == Lookup(t, im.moduleSrc)
    ensures BindsVia(runtime, paths, im, item, t')
  {
  }

  /**
    The whole rewrite in runtime mode, from an empty table: the handles are
    declared once each, sorted by source; two imports of one source read from
    the same handle, imports of two sources from different handles; and no
    handle can be confused with a name of the user or of the collector.
  */
  lemma RuntimeHandles(moduleName: string, paths: ImportPaths, items: seq<ModuleItem>, mark: nat)
    ensures var c := Collect(true, items, mark);
      var h := ImportItems(true, paths, c.imports, Handles([], c.nextMark)).1;
      Sorted(h.table) &&
      Keys(h.table) == HandleSources(true, c.imports) &&
      (forall i :: 0 <= i < |h.table| ==> h.table[i].1.mark.Private? && h.table[i].1.mark.id >= c.nextMark) &&
      (forall s1, s2 :: s1 in Keys(h.table) && s2 in Keys(h.table) ==>
         (Lookup(h.table, s1) == Lookup(h.table, s2) <==> s1 == s2))
  {
    var c := Collect(true, items, mark);
    ImportItemsTable(true, paths, c.imports, Handles([], c.nextMark), c.nextMark);
    var h := ImportItems(true, paths, c.imports, Handles([], c.nextMark)).1;
    forall s1, s2 | s1 in Keys(h.table) && s2 in Keys(h.table) && Lookup(h.table, s1) == Lookup(h.table, s2)
      ensures s1 == s2
    {
      LookupKeys(h.table, s1);
      LookupKeys(h.table, s2);
      var v := Lookup(h.table, s1).value;
      var i :| 0 <= i < |h.table| && h.table[i] == (s1, v);
      var j :| 0 <= j < |h.table| && h.table[j] == (s2, v);
      assert i == j;
    }
  }

  // ---------------------------------------------------------------------------
  // Import paths
  // ---------------------------------------------------------------------------

  /** The handles are keyed by the sources as written: the path map never merges or splits them. */
  lemma {:induction false} HandlesIgnorePaths(runtime: bool, p1: ImportPaths, p2: ImportPaths, imports: seq<ImportModule>, h: Handles)
    ensures ImportItems(runtime, p1, imports, h).1 == ImportItems(runtime, p2, imports, h).1
  {
    if imports != [] {
      HandlesIgnorePaths(runtime, p1, p2, imports[..|imports| - 1], h);
    }
  }

  /** Static mode makes no handle and emits the sources as written: the path map changes nothing. */
  lemma {:induction false} StaticIgnoresPaths(moduleName: string, p1: ImportPaths, p2: ImportPaths, c: Collected, mark: nat)
    ensures Emit(false, moduleName, p1, c, Handles([], mark)) == Emit(false, moduleName, p2, c, Handles([], mark))
  {
    StaticImportItems(p1, p2, c.imports, Handles([], mark));
  }

  lemma {:induction false} StaticImportItems(p1: ImportPaths, p2: ImportPaths, imports: seq<ImportModule>, h: Handles)
    ensures ImportItems(false, p1, imports, h) == ImportItems(false, p2, imports, h)
    ensures ImportItems(false, p1, imports, h).1 == h
  {
    if imports != [] {
      StaticImportItems(p1, p2, imports[..|imports| - 1], h);
    }
  }

  /**
    The k-th handle declaration is `const <handle k> = global.__modules.import("<path>")`,
    where the path is the `importPaths` entry of the k-th source when there is
    one and the source itself otherwise.
  */
  lemma {:induction false} HandleDeclsMeaning(paths: ImportPaths, t: Table)
    ensures |HandleDecls(paths, t)| == |t|
    ensures forall k :: 0 <= k < |t| ==>
      var path := if paths.Some? && t[k].0 in paths.value then paths.value[t[k].0] else t[k].0;
      HandleDecls(paths, t)[k] == StmtItem(Utils.DeclVarAndAssignStmt(t[k].1,
        Utils.GlobalModuleApiCallExpr(Utils.ImportMethod, [Utils.FnArg(Utils.StrLitExpr(path))])))
  {
    if t != [] {
      HandleDeclsMeaning(paths, t[..|t| - 1]);
    }
  }

  // ---------------------------------------------------------------------------
  // Registration
  // ---------------------------------------------------------------------------

  /** The name under which an export is visible to importers. */
  function ExportedName(e: ExportModule): string {
    if e.moduleType == Named then e.asIdent.GetOr(e.ident).sym else "default"
  }

  /** The default and named exports, in order. */
  function ValueExports(exports: seq<ExportModule>): seq<ExportModule> {
    if exports == [] then []
    else ValueExports(exports[..|exports| - 1])
         + (if exports[|exports| - 1].moduleType == NamespaceOrAll then [] else [exports[|exports| - 1]])
  }

  /** The `export *` records, in order. */
  function SpreadExports(exports: seq<ExportModule>): seq<ExportModule> {
    if exports == [] then []
    else SpreadExports(exports[..|exports| - 1])
         + (if exports[|exports| - 1].moduleType == NamespaceOrAll then [exports[|exports| - 1]] else [])
  }

  /**
    The `export` object maps the exported name of every default and named
    export to its local binding, in order; the `exportAll` object spreads
    every `export *` namespace, in order.
  */
  lemma {:induction false} ExportObjectsMeaning(exports: seq<ExportModule>)
    ensures var props := ExportProps(exports);
      var values := ValueExports(exports);
      |props| == |values| &&
      (forall k :: 0 <= k < |values| ==>
         PropKey(props[k]) == Some(ExportedName(values[k])) && PropValue(props[k]) == IdentExpr(values[k].ident))
    ensures var spreads := SpreadExports(exports);
      |ExportAllProps(exports)| == |spreads| &&
      forall k :: 0 <= k < |spreads| ==> ExportAllProps(exports)[k] == Spread(IdentExpr(spreads[k].ident))
    ensures |ValueExports(exports)| + |SpreadExports(exports)| == |exports|
  {
    if exports != [] {
      ExportObjectsMeaning(exports[..|exports| - 1]);
    }
  }

  lemma {:induction false} ExportKinds(exports: seq<ExportModule>)
    ensures |ValueExports(exports)| > 0 <==> exists k :: 0 <= k < |exports| && exports[k].moduleType != NamespaceOrAll
    ensures |SpreadExports(exports)| > 0 <==> exists k :: 0 <= k < |exports| && exports[k].moduleType == NamespaceOrAll
  {
    if exports != [] {
      var init := exports[..|exports| - 1];
      ExportKinds(init);
      if exists k :: 0 <= k < |init| && init[k].moduleType != NamespaceOrAll {
        var k :| 0 <= k < |init| && init[k].moduleType != NamespaceOrAll;
        assert exports[k] == init[k];
      }
      if exists k :: 0 <= k < |init| && init[k].moduleType == NamespaceOrAll {
        var k :| 0 <= k < |init| && init[k].moduleType == NamespaceOrAll;
        assert exports[k] == init[k];
      }
      forall k | 0 <= k < |init| ensures exports[k] == init[k] {
      }
    }
  }

  /**
    A module without exports only resets its registry entry; a module with
    exports first creates its entry, then registers its default and named
    exports if it has any, then its `export *` namespaces if it has any.
  */
  lemma RegistrationShape(moduleName: string, exports: seq<ExportModule>)
    ensures |exports| == 0 ==> Utils.RegistryCalls(Registration(moduleName, exports)) == [Utils.ResetMethod]
    ensures |exports| > 0 ==>
      Utils.RegistryCalls(Registration(moduleName, exports))
        == [Utils.InitMethod]
           + (if exists k :: 0 <= k < |exports| && exports[k].moduleType != NamespaceOrAll then [Utils.ExportMethod] else [])
           + (if exists k :: 0 <= k < |exports| && exports[k].moduleType == NamespaceOrAll then [Utils.ExportAllMethod] else [])
  {
    if |exports| > 0 {
      RegistrationCalls(moduleName, exports);
      ObjectsPresent(exports);
    } else {
      RegistryStmtCalls(moduleName, Utils.ResetMethod);
    }
  }

  /** The calls of a registration with exports, by which of the two objects are there. */
  lemma RegistrationCalls(moduleName: string, exports: seq<ExportModule>)
    requires |exports| > 0
    ensures Utils.RegistryCalls(Registration(moduleName, exports))
      == [Utils.InitMethod]
         + (if ObjectOf(ExportProps(exports)).Some? then [Utils.ExportMethod] else [])
         + (if ObjectOf(ExportAllProps(exports)).Some? then [Utils.ExportAllMethod] else [])
  {
    var init := [StmtItem(RegistryStmt(moduleName, Utils.InitMethod))];
    var ex := OptionalItem(ExportCall(moduleName, Utils.ExportMethod, ObjectOf(ExportProps(exports))));
    var all := OptionalItem(ExportCall(moduleName, Utils.ExportAllMethod, ObjectOf(ExportAllProps(exports))));
    calc {
      Utils.RegistryCalls(Registration(moduleName, exports));
      Utils.RegistryCalls(init + ex + all);
      { Utils.RegistryCallsAppend(init + ex, all); }
      Utils.RegistryCalls(init + ex) + Utils.RegistryCalls(all);
      { Utils.RegistryCallsAppend(init, ex); }
      Utils.RegistryCalls(init) + Utils.RegistryCalls(ex) + Utils.RegistryCalls(all);
      { RegistryStmtCalls(moduleName, Utils.InitMethod);
        OptionalCalls(moduleName, Utils.ExportMethod, ObjectOf(ExportProps(exports)));
        OptionalCalls(moduleName, Utils.ExportAllMethod, ObjectOf(ExportAllProps(exports))); }
      [Utils.InitMethod]
        + (if ObjectOf(ExportProps(exports)).Some? then [Utils.ExportMethod] else [])
        + (if ObjectOf(ExportAllProps(exports)).Some? then [Utils.ExportAllMethod] else []);
    }
  }

  /** Each object is there exactly when some export of its kind is. */
  lemma ObjectsPresent(exports: seq<ExportModule>)
    ensures ObjectOf(ExportProps(exports)).Some? <==> exists k :: 0 <= k < |exports| && exports[k].moduleType != NamespaceOrAll
    ensures ObjectOf(ExportAllProps(exports)).Some? <==> exists k :: 0 <= k < |exports| && exports[k].moduleType == NamespaceOrAll
  {
    ExportObjectsMeaning(exports);
    ExportKinds(exports);
  }

  /** An `init` or `reset` statement calls its method. */
  lemma RegistryStmtCalls(moduleName: string, methodName: string)
    ensures Utils.RegistryCalls([StmtItem(RegistryStmt(moduleName, methodName))]) == [methodName]
  {
    var items := [StmtItem(RegistryStmt(moduleName, methodName))];
    assert items[..0] == [];
  }

  /** An `export` or `exportAll` statement calls its method, and is absent without an object. */
  lemma OptionalCalls(moduleName: string, methodName: string, obj: Option<Expr>)
    ensures Utils.RegistryCalls(OptionalItem(ExportCall(moduleName, methodName, obj))) == (if obj.Some? then [methodName] else [])
  {
    var items := OptionalItem(ExportCall(moduleName, methodName, obj));
    if obj.Some? {
      assert items[..0] == [];
    }
  }

  // ---------------------------------------------------------------------------
  // Named imports read the local name
  // ---------------------------------------------------------------------------

  /**
    The property a binding for `spec` should read from its handle: `default`
    for a default import, and for `import { b as c }` the name `b` under which
    the source module exports the binding.
  */
  function ImportedName(spec: ImportSpecifier): string {
    if spec.ImportNamed? && spec.imported.Some? then spec.imported.value.Text()
    else if spec.ImportNamed? then spec.local.sym
    else "default"
  }

  /** The binding the emitter evidently intends: `const <local> = <handle>.<exported name>`. */
  function CorrectedBinding(spec: ImportSpecifier, handle: Ident): ModuleItem {
    StmtItem(Utils.DeclVarAndAssignStmt(spec.local, Utils.ObjMemberExpr(IdentExpr(handle), Utils.Ident(ImportedName(spec)))))
  }

  /** Does the specifier name the export differently from its local binding, as in `import { b as c }`? */
  predicate Renames(spec: ImportSpecifier) {
    spec.ImportNamed? && spec.imported.Some? && spec.imported.value.Text() != spec.local.sym
  }

  /**
    The corrected binding reads `default` for a default import and the
    exported name for a named one; the binding the emitter writes for the
    collected record is that binding exactly when the specifier does not
    rename.
  */
  lemma ImportReadsExportedName(spec: ImportSpecifier, src: string, handle: Ident)
    requires !spec.ImportNamespace?
    ensures spec.ImportDefault? ==> CorrectedBinding(spec, handle) == StmtItem(Utils.DeclVarAndAssignStmt(spec.local,
      Utils.ObjMemberExpr(IdentExpr(handle), Utils.Ident("default"))))
    ensures spec.ImportNamed? && spec.imported.Some? ==> CorrectedBinding(spec, handle) == StmtItem(Utils.DeclVarAndAssignStmt(spec.local,
      Utils.ObjMemberExpr(IdentExpr(handle), Utils.Ident(spec.imported.value.Text()))))
    ensures HandleBinding(ImportOfSpecifier(spec, src), handle) == CorrectedBinding(spec, handle) <==> !Renames(spec)
  {
    var emitted := HandleProperty(ImportOfSpecifier(spec, src));
    if HandleBinding(ImportOfSpecifier(spec, src), handle) == CorrectedBinding(spec, handle) {
      assert Utils.Ident(emitted) == Utils.Ident(ImportedName(spec));
    }
  }

  /**
    `import { useState as useS } from "react"` in runtime mode: the emitter
    binds `useS` to `<react handle>.useS` (transform/src/lib.rs:173), not to
    the `useState` that `react` exports.
  */
  lemma AsWrittenReadsLocalName(paths: ImportPaths, h: Handles)
    ensures var spec := ImportNamed(Ident("useS", Plain), Some(NameIdent(Ident("useState", Plain))), false);
      var handle := AddHandle(h, "react").1;
      var out := ImportItem(true, paths, ImportOfSpecifier(spec, "react"), h).0;
      out == StmtItem(Utils.DeclVarAndAssignStmt(Ident("useS", Plain), Utils.ObjMemberExpr(IdentExpr(handle), Ident("useS", Plain)))) &&
      out != CorrectedBinding(spec, handle)
  {
    var spec := ImportNamed(Ident("useS", Plain), Some(NameIdent(Ident("useState", Plain))), false);
    ImportReadsExportedName(spec, "react", AddHandle(h, "react").1);
  }
}
