/**
  The emitter of the transform (transform/src/lib.rs). It runs the collector
  of module_collector.dfy over the module, then rewrites the module body to:

    handle declarations   `const _react = global.__modules.import("react");`
                          one per module source, sorted by source
    binding statements    one per collected import, in collection order
    the collected body
    registration          `init` then `export`/`exportAll`, or `reset`

  In static mode (`runtimeModule` false) the binding statements are ES import
  declarations and no handle is made.
*/
module GlobalEsm {
  import opened Ast
  import opened Bindings
  import opened ImportTable
  import opened ModuleCollector
  import Utils

  /** The `importPaths` option: module source to the name it is registered under. */
  type ImportPaths = Option<map<string, string>>

  /** `to_actual_path` */
  function ToActualPath(paths: ImportPaths, src: string): string {
    if paths.Some? && src in paths.value then paths.value[src] else src
  }

  // ---------------------------------------------------------------------------
  // Handles
  // ---------------------------------------------------------------------------

  predicate IsAsciiAlnum(c: char) {
    'a' <= c <= 'z' || 'A' <= c <= 'Z' || '0' <= c <= '9'
  }

  /** Replaces every match of `[^a-zA-Z0-9]` by `_`. */
  function Normalize(s: string): string {
    if s == [] then []
    else Normalize(s[..|s| - 1]) + [if IsAsciiAlnum(s[|s| - 1]) then s[|s| - 1] else '_']
  }

  /** The symbol of the handle for `src`: `_` followed by `src`, normalized. */
  function HandleName(src: string): string {
    Normalize("_" + src)
  }

  /** The table of handles and the hygiene counter, as the emitter holds them. */
  datatype Handles = Handles(table: Table, nextMark: nat)

  /**
    `get_or_create_global_import_module_ident`: the handle of `src`, made on
    first use. The private identifier is made before the table is consulted,
    so every call consumes a mark.
  */
  function AddHandle(h: Handles, src: string): (Handles, Ident) {
    var created := PrivateIdent(HandleName(src), h.nextMark);
    var existing := Lookup(h.table, src);
    (Handles(Insert(h.table, src, created), h.nextMark + 1), if existing.Some? then existing.value else created)
  }

  /** `get_global_import_stmt`: `const <handle> = global.__modules.import("<actual path>")` */
  function GlobalImportStmt(handle: Ident, src: string, paths: ImportPaths): Stmt {
    Utils.DeclVarAndAssignStmt(handle,
      Utils.GlobalModuleApiCallExpr(Utils.ImportMethod, [Utils.FnArg(Utils.StrLitExpr(ToActualPath(paths, src)))]))
  }

  /** The handle declarations, one per table entry, in table order. */
  function HandleDecls(paths: ImportPaths, t: Table): (r: seq<ModuleItem>)
    ensures |r| == |t|
  {
    if t == [] then []
    else HandleDecls(paths, t[..|t| - 1]) + [StmtItem(GlobalImportStmt(t[|t| - 1].1, t[|t| - 1].0, paths))]
  }

  // ---------------------------------------------------------------------------
  // Binding statements
  // ---------------------------------------------------------------------------

  /**
    The property a runtime binding reads from the handle: `default`, or for a
    named import the symbol of the local binding itself.
  */
  function HandleProperty(im: ImportModule): string {
    if im.moduleType == Named then im.ident.sym else "default"
  }

  /** `const <ident> = <handle>.<property>` */
  function HandleBinding(im: ImportModule, handle: Ident): ModuleItem {
    StmtItem(Utils.DeclVarAndAssignStmt(im.ident, Utils.ObjMemberExpr(IdentExpr(handle), Utils.Ident(HandleProperty(im)))))
  }

  /** `const <ident> = global.__modules.importAll("<actual path>")` */
  function NamespaceBinding(im: ImportModule, paths: ImportPaths): ModuleItem {
    StmtItem(Utils.DeclVarAndAssignStmt(im.ident,
      Utils.GlobalModuleApiCallExpr(Utils.ImportAllMethod, [Utils.FnArg(Utils.StrLitExpr(ToActualPath(paths, im.moduleSrc)))])))
  }

  /** The import declaration static mode emits: `import x from`, `import { x } from`, `import * as x from`. */
  function StaticImport(im: ImportModule): ModuleItem {
    var spec := match im.moduleType
      case Named => ImportNamed(im.ident, None, false)
      case NamespaceOrAll => ImportNamespace(im.ident)
      case _ => ImportDefault(im.ident);
    DeclItem(Import([spec], im.moduleSrc, false))
  }

  /** `default_import_stmt`, `named_import_stmt` or `namespace_import_stmt` for one record. */
  function ImportItem(runtime: bool, paths: ImportPaths, im: ImportModule, h: Handles): (ModuleItem, Handles) {
    if !runtime then (StaticImport(im), h)
    else if im.moduleType == NamespaceOrAll then (NamespaceBinding(im, paths), h)
    else
      var (h', handle) := AddHandle(h, im.moduleSrc);
      (HandleBinding(im, handle), h')
  }

  /** The binding statements for `imports`, in order, and the handles afterwards. */
  function ImportItems(runtime: bool, paths: ImportPaths, imports: seq<ImportModule>, h: Handles): (r: (seq<ModuleItem>, Handles))
    ensures |r.0| == |imports|
  {
    if imports == [] then ([], h)
    else
      var (items, h') := ImportItems(runtime, paths, imports[..|imports| - 1], h);
      var (item, h'') := ImportItem(runtime, paths, imports[|imports| - 1], h');
      (items + [item], h'')
  }

  // ---------------------------------------------------------------------------
  // Registration
  // ---------------------------------------------------------------------------

  /** The property of the export object for a default or named export. */
  function ExportProp(e: ExportModule): PropOrSpread {
    match e.moduleType
    case Named =>
      if e.asIdent.Some? && e.asIdent.value.sym != e.ident.sym
      then KeyValue(Utils.Ident(e.asIdent.value.sym), IdentExpr(e.ident))
      else Shorthand(e.ident)
    case NamespaceOrAll => Spread(IdentExpr(e.ident))
    case _ => KeyValue(Utils.Ident("default"), IdentExpr(e.ident))
  }

  /** The properties of the `export` object: default and named exports, in order. */
  function ExportProps(exports: seq<ExportModule>): seq<PropOrSpread> {
    if exports == [] then []
    else ExportProps(exports[..|exports| - 1])
         + (if exports[|exports| - 1].moduleType == NamespaceOrAll then [] else [ExportProp(exports[|exports| - 1])])
  }

  /** The properties of the `exportAll` object: one spread per `export *`, in order. */
  function ExportAllProps(exports: seq<ExportModule>): seq<PropOrSpread> {
    if exports == [] then []
    else ExportAllProps(exports[..|exports| - 1])
         + (if exports[|exports| - 1].moduleType == NamespaceOrAll then [Spread(IdentExpr(exports[|exports| - 1].ident))] else [])
  }

  /** `ExportObjects::from_props`: an object literal, or nothing for no properties. */
  function ObjectOf(props: seq<PropOrSpread>): Option<Expr> {
    if |props| > 0 then Some(Utils.ObjLit(props)) else None
  }

  /** `global.__modules.<methodName>("<moduleName>", <obj>)`, when there is an object. */
  function ExportCall(moduleName: string, methodName: string, obj: Option<Expr>): Option<Stmt> {
    if obj.Some?
    then Some(ExprStmt(Utils.GlobalModuleApiCallExpr(methodName, [Utils.FnArg(Utils.StrLitExpr(moduleName)), Utils.FnArg(obj.value)])))
    else None
  }

  /** `global.__modules.<methodName>("<moduleName>")` */
  function RegistryStmt(moduleName: string, methodName: string): Stmt {
    ExprStmt(Utils.GlobalModuleApiCallExpr(methodName, [Utils.FnArg(Utils.StrLitExpr(moduleName))]))
  }

  function OptionalItem(s: Option<Stmt>): seq<ModuleItem> {
    if s.Some? then [StmtItem(s.value)] else []
  }

  /** The statements appended to the body: `init`, `export`, `exportAll`, or `reset` alone. */
  function Registration(moduleName: string, exports: seq<ExportModule>): seq<ModuleItem> {
    if |exports| > 0 then
      [StmtItem(RegistryStmt(moduleName, Utils.InitMethod))]
      + OptionalItem(ExportCall(moduleName, Utils.ExportMethod, ObjectOf(ExportProps(exports))))
      + OptionalItem(ExportCall(moduleName, Utils.ExportAllMethod, ObjectOf(ExportAllProps(exports))))
    else
      [StmtItem(RegistryStmt(moduleName, Utils.ResetMethod))]
  }

  /** The rewritten body for what the collector produced, and the handles afterwards. */
  function Emit(runtime: bool, moduleName: string, paths: ImportPaths, c: Collected, h: Handles): (seq<ModuleItem>, Handles) {
    var r := ImportItems(runtime, paths, c.imports, h);
    (HandleDecls(paths, r.1.table) + r.0 + c.body + Registration(moduleName, c.exports), r.1)
  }

  lemma EmitParts(runtime: bool, moduleName: string, paths: ImportPaths, c: Collected, h: Handles, body: seq<ModuleItem>)
    requires var r := ImportItems(runtime, paths, c.imports, h);
      body == HandleDecls(paths, r.1.table) + (r.0 + c.body + Registration(moduleName, c.exports))
    ensures Emit(runtime, moduleName, paths, c, h) == (body, ImportItems(runtime, paths, c.imports, h).1)
  {
    var r := ImportItems(runtime, paths, c.imports, h);
    var hd := HandleDecls(paths, r.1.table);
    var reg := Registration(moduleName, c.exports);
    assert hd + (r.0 + c.body + reg) == hd + r.0 + c.body + reg;
  }

  // ---------------------------------------------------------------------------
  // The visitor
  // ---------------------------------------------------------------------------

  class GlobalEsmModule {
    const moduleName: string
    const runtimeModule: bool
    const importPaths: ImportPaths
    var importIdents: Table
    /** The hygiene counter behind `private_ident!`, shared with the collector. */
    var nextMark: nat

    constructor Default(moduleName: string, runtimeModule: bool, importPaths: ImportPaths, firstMark: nat)
      ensures this.moduleName == moduleName && this.runtimeModule == runtimeModule
      ensures this.importPaths == importPaths && importIdents == [] && nextMark == firstMark
    {
      this.moduleName := moduleName;
      this.runtimeModule := runtimeModule;
      this.importPaths := importPaths;
      importIdents := [];
      nextMark := firstMark;
    }

    method GetOrCreateGlobalImportModuleIdent(src: string) returns (handle: Ident)
      modifies this`importIdents, this`nextMark
      ensures (Handles(importIdents, nextMark), handle) == AddHandle(Handles(old(importIdents), old(nextMark)), src)
    {
      var created := PrivateIdent(HandleName(src), nextMark);
      nextMark := nextMark + 1;
      var existing := Lookup(importIdents, src);
      importIdents := Insert(importIdents, src, created);
      handle := if existing.Some? then existing.value else created;
    }

    method DefaultImportStmt(im: ImportModule) returns (item: ModuleItem)
      requires im.moduleType.Default? || im.moduleType.DefaultAsNamed?
      modifies this`importIdents, this`nextMark
      ensures (item, Handles(importIdents, nextMark))
           == ImportItem(runtimeModule, importPaths, im, Handles(old(importIdents), old(nextMark)))
    {
      if runtimeModule {
        var handle := GetOrCreateGlobalImportModuleIdent(im.moduleSrc);
        item := StmtItem(Utils.DeclVarAndAssignStmt(im.ident, Utils.ObjMemberExpr(IdentExpr(handle), Utils.Ident("default"))));
      } else {
        item := DeclItem(Import([ImportDefault(im.ident)], im.moduleSrc, false));
      }
    }

    method NamedImportStmt(im: ImportModule) returns (item: ModuleItem)
      requires im.moduleType == Named
      modifies this`importIdents, this`nextMark
      ensures (item, Handles(importIdents, nextMark))
           == ImportItem(runtimeModule, importPaths, im, Handles(old(importIdents), old(nextMark)))
    {
      if runtimeModule {
        var handle := GetOrCreateGlobalImportModuleIdent(im.moduleSrc);
        item := StmtItem(Utils.DeclVarAndAssignStmt(im.ident, Utils.ObjMemberExpr(IdentExpr(handle), Utils.Ident(im.ident.sym))));
      } else {
        item := DeclItem(Import([ImportNamed(im.ident, None, false)], im.moduleSrc, false));
      }
    }

    method NamespaceImportStmt(im: ImportModule) returns (item: ModuleItem)
      requires im.moduleType == NamespaceOrAll
      ensures (item, Handles(importIdents, nextMark))
           == ImportItem(runtimeModule, importPaths, im, Handles(importIdents, nextMark))
    {
      if runtimeModule {
        var path := ToActualPath(importPaths, im.moduleSrc);
        item := StmtItem(Utils.DeclVarAndAssignStmt(im.ident,
          Utils.GlobalModuleApiCallExpr(Utils.ImportAllMethod, [Utils.FnArg(Utils.StrLitExpr(path))])));
      } else {
        item := DeclItem(Import([ImportNamespace(im.ident)], im.moduleSrc, false));
      }
    }

    /** `get_export_objects`: one pass sorting each export into the `export` or the `exportAll` object. */
    static method GetExportObjects(exports: seq<ExportModule>) returns (exportObj: Option<Expr>, exportAllObj: Option<Expr>)
      ensures exportObj == ObjectOf(ExportProps(exports)) && exportAllObj == ObjectOf(ExportAllProps(exports))
    {
      var exportProps: seq<PropOrSpread> := [];
      var exportAllProps: seq<PropOrSpread> := [];
      var i := 0;
      while i < |exports|
        invariant 0 <= i <= |exports|
        invariant exportProps == ExportProps(exports[..i]) && exportAllProps == ExportAllProps(exports[..i])
      {
        assert exports[..i + 1][..i] == exports[..i];
        var e := exports[i];
        match e.moduleType {
          case Default =>
            exportProps := exportProps + [KeyValue(Utils.Ident("default"), IdentExpr(e.ident))];
          case DefaultAsNamed =>
            exportProps := exportProps + [KeyValue(Utils.Ident("default"), IdentExpr(e.ident))];
          case Named =>
            if e.asIdent.Some? && e.asIdent.value.sym != e.ident.sym {
              exportProps := exportProps + [KeyValue(Utils.Ident(e.asIdent.value.sym), IdentExpr(e.ident))];
            } else {
              exportProps := exportProps + [Shorthand(e.ident)];
            }
          case NamespaceOrAll =>
            exportAllProps := exportAllProps + [Spread(IdentExpr(e.ident))];
        }
        i := i + 1;
      }
      assert exports[..i] == exports;
      exportObj := if |exportProps| > 0 then Some(Utils.ObjLit(exportProps)) else None;
      exportAllObj := if |exportAllProps| > 0 then Some(Utils.ObjLit(exportAllProps)) else None;
    }

    /** `get_global_exports` */
    method GetGlobalExports(exports: seq<ExportModule>) returns (exportStmt: Option<Stmt>, exportAllStmt: Option<Stmt>)
      ensures exportStmt == ExportCall(moduleName, Utils.ExportMethod, ObjectOf(ExportProps(exports)))
      ensures exportAllStmt == ExportCall(moduleName, Utils.ExportAllMethod, ObjectOf(ExportAllProps(exports)))
    {
      var obj, allObj := GetExportObjects(exports);
      exportStmt := ExportCall(moduleName, Utils.ExportMethod, obj);
      exportAllStmt := ExportCall(moduleName, Utils.ExportAllMethod, allObj);
    }

    /** Puts the binding for the i-th record at index i, ahead of the collected body. */
    method InsertImportStmts(m: Module, imports: seq<ImportModule>)
      modifies this`importIdents, this`nextMark, m
      ensures var r := ImportItems(runtimeModule, importPaths, imports, Handles(old(importIdents), old(nextMark)));
        m.body == r.0 + old(m.body) && importIdents == r.1.table && nextMark == r.1.nextMark
    {
      ghost var h0 := Handles(importIdents, nextMark);
      var i := 0;
      while i < |imports|
        invariant 0 <= i <= |imports|
        invariant var r := ImportItems(runtimeModule, importPaths, imports[..i], h0);
          m.body == r.0 + old(m.body) && importIdents == r.1.table && nextMark == r.1.nextMark
      {
        assert imports[..i + 1][..i] == imports[..i];
        var item: ModuleItem;
        var im := imports[i];
        match im.moduleType {
          case Default => item := DefaultImportStmt(im);
          case DefaultAsNamed => item := DefaultImportStmt(im);
          case Named => item := NamedImportStmt(im);
          case NamespaceOrAll => item := NamespaceImportStmt(im);
        }
        m.body := m.body[..i] + [item] + m.body[i..];
        i := i + 1;
      }
      assert imports[..i] == imports;
    }

    /** Appends `init` and the export calls when there are exports, `reset` otherwise. */
    method PushRegistration(m: Module, exports: seq<ExportModule>)
      modifies m
      ensures m.body == old(m.body) + Registration(moduleName, exports)
    {
      if |exports| > 0 {
        m.body := m.body + [StmtItem(RegistryStmt(moduleName, Utils.InitMethod))];
        var exportStmt, exportAllStmt := GetGlobalExports(exports);
        if exportStmt.Some? {
          m.body := m.body + [StmtItem(exportStmt.value)];
        }
        if exportAllStmt.Some? {
          m.body := m.body + [StmtItem(exportAllStmt.value)];
        }
      } else {
        m.body := m.body + [StmtItem(RegistryStmt(moduleName, Utils.ResetMethod))];
      }
    }

    /** Puts the declaration of the j-th handle of the table at index j. */
    method InsertHandleDecls(m: Module)
      modifies m
      ensures m.body == HandleDecls(importPaths, importIdents) + old(m.body)
    {
      var table := importIdents;
      var j := 0;
      while j < |table|
        invariant 0 <= j <= |table|
        invariant m.body == HandleDecls(importPaths, table[..j]) + old(m.body)
      {
        assert table[..j + 1][..j] == table[..j];
        m.body := m.body[..j] + [StmtItem(GlobalImportStmt(table[j].1, table[j].0, importPaths))] + m.body[j..];
        j := j + 1;
      }
      assert table[..j] == table;
    }

    /** Runs the collector over the module, which leaves the module with the collected body. */
    method CollectModule(m: Module) returns (imports: seq<ImportModule>, exports: seq<ExportModule>)
      modifies this`nextMark, m
      ensures Collected(m.body, imports, exports, nextMark) == Collect(runtimeModule, old(m.body), old(nextMark))
    {
      var collector := new Collector.Default(runtimeModule, nextMark);
      collector.VisitMutModule(m);
      nextMark := collector.nextMark;
      imports, exports := collector.imports, collector.exports;
    }

    /** Rewrites the module: collect, insert the bindings, register, insert the handles. */
    method VisitMutModule(m: Module)
      modifies this`importIdents, this`nextMark, m
      ensures var c := Collect(runtimeModule, old(m.body), old(nextMark));
        var out := Emit(runtimeModule, moduleName, importPaths, c, Handles(old(importIdents), c.nextMark));
        m.body == out.0 && importIdents == out.1.table && nextMark == out.1.nextMark
    {
      ghost var c := Collect(runtimeModule, m.body, nextMark);
      ghost var h0 := importIdents;
      var imports, exports := CollectModule(m);
      ghost var r := ImportItems(runtimeModule, importPaths, imports, Handles(h0, c.nextMark));
      InsertImportStmts(m, imports);
      ghost var withRegistration := r.0 + c.body + Registration(moduleName, c.exports);
      PushRegistration(m, exports);
      InsertHandleDecls(m);
      EmitParts(runtimeModule, moduleName, importPaths, c, Handles(h0, c.nextMark), m.body);
    }
  }
}
