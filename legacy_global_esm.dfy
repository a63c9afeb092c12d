/**
  The older emitter (src/lib.rs). It has no handle table: every binding makes
  its own `global.__modules.import(...)` call, and all exports, `export *`
  spreads included, go into one object passed to a single
  `global.__modules.export(name, obj)` call, `null` when there is none.

  The collector it runs first (src/module_collector.rs) is not part of this
  model: its records and the body it leaves are parameters of the visitor.
*/
module LegacyGlobalEsm {
  import opened Ast
  import Utils
  import GlobalEsm

  /** The older collector's kinds: there is no `DefaultAsNamed`. */
  datatype LegacyModuleType = Default | Named | NamespaceOrAll

  datatype LegacyImport = LegacyImport(ident: Ident, moduleSrc: string, moduleType: LegacyModuleType)

  datatype LegacyExport = LegacyExport(ident: Ident, asIdent: Option<Ident>, moduleType: LegacyModuleType)

  /** `global.__modules.import("<actual path>")` */
  function ImportExpr(paths: GlobalEsm.ImportPaths, src: string): Expr {
    Utils.GlobalModuleApiCallExpr(Utils.ImportMethod, [Utils.FnArg(Utils.StrLitExpr(GlobalEsm.ToActualPath(paths, src)))])
  }

  /** The binding statement of one record: `.default`, `.<local name>`, or the whole module. */
  function ImportStmt(paths: GlobalEsm.ImportPaths, im: LegacyImport): Stmt {
    match im.moduleType
    case Default => Utils.DeclVarAndAssignStmt(im.ident, Utils.ObjMemberExpr(ImportExpr(paths, im.moduleSrc), Utils.Ident("default")))
    case Named => Utils.DeclVarAndAssignStmt(im.ident, Utils.ObjMemberExpr(ImportExpr(paths, im.moduleSrc), Utils.Ident(im.ident.sym)))
    case NamespaceOrAll => Utils.DeclVarAndAssignStmt(im.ident, ImportExpr(paths, im.moduleSrc))
  }

  function ImportStmts(paths: GlobalEsm.ImportPaths, imports: seq<LegacyImport>): (r: seq<ModuleItem>)
    ensures |r| == |imports|
  {
    if imports == [] then []
    else ImportStmts(paths, imports[..|imports| - 1]) + [StmtItem(ImportStmt(paths, imports[|imports| - 1]))]
  }

  /** One property of the export object; an alias is always written as a key. */
  function ExportProp(e: LegacyExport): PropOrSpread {
    match e.moduleType
    case Default => KeyValue(Utils.Ident("default"), IdentExpr(e.ident))
    case Named =>
      if e.asIdent.Some? then KeyValue(Utils.Ident(e.asIdent.value.sym), IdentExpr(e.ident))
      else Shorthand(e.ident)
    case NamespaceOrAll => Spread(IdentExpr(e.ident))
  }

  function ExportProps(exports: seq<LegacyExport>): (r: seq<PropOrSpread>)
    ensures |r| == |exports|
  {
    if exports == [] then []
    else ExportProps(exports[..|exports| - 1]) + [ExportProp(exports[|exports| - 1])]
  }

  /** `null` without exports, otherwise the object of all of them in order. */
  function ExportsObject(exports: seq<LegacyExport>): Expr {
    if |exports| == 0 then NullLit else Utils.ObjLit(ExportProps(exports))
  }

  /** `global.__modules.export("<moduleName>", <exports object>);` */
  function ExportsStmt(moduleName: string, exports: seq<LegacyExport>): Stmt {
    ExprStmt(Utils.GlobalModuleApiCallExpr(Utils.ExportMethod,
      [Utils.FnArg(Utils.StrLitExpr(moduleName)), Utils.FnArg(ExportsObject(exports))]))
  }

  /** The rewritten body: bindings, the collected body, and the export call for an ES module. */
  function Rewrite(moduleName: string, paths: GlobalEsm.ImportPaths, body: seq<ModuleItem>,
                   imports: seq<LegacyImport>, exports: seq<LegacyExport>): seq<ModuleItem> {
    ImportStmts(paths, imports) + body
    + (if |imports| + |exports| > 0 then [StmtItem(ExportsStmt(moduleName, exports))] else [])
  }

  class LegacyGlobalEsmModule {
    const moduleName: string
    /** Passed on to the collector only. */
    const runtimeModule: bool
    const importPaths: GlobalEsm.ImportPaths

    constructor (moduleName: string, runtimeModule: bool, importPaths: GlobalEsm.ImportPaths)
      ensures this.moduleName == moduleName && this.runtimeModule == runtimeModule && this.importPaths == importPaths
    {
      this.moduleName := moduleName;
      this.runtimeModule := runtimeModule;
      this.importPaths := importPaths;
    }

    /** `get_exports_obj_expr`: `null`, or one property per export pushed in order. */
    method GetExportsObjExpr(exports: seq<LegacyExport>) returns (obj: Expr)
      ensures obj == ExportsObject(exports)
    {
      if |exports| == 0 {
        return NullLit;
      }
      var props: seq<PropOrSpread> := [];
      var i := 0;
      while i < |exports|
        invariant 0 <= i <= |exports|
        invariant props == ExportProps(exports[..i])
      {
        assert exports[..i + 1][..i] == exports[..i];
        var e := exports[i];
        match e.moduleType {
          case Default =>
            props := props + [KeyValue(Utils.Ident("default"), IdentExpr(e.ident))];
          case Named =>
            if e.asIdent.Some? {
              props := props + [KeyValue(Utils.Ident(e.asIdent.value.sym), IdentExpr(e.ident))];
            } else {
              props := props + [Shorthand(e.ident)];
            }
          case NamespaceOrAll =>
            props := props + [Spread(IdentExpr(e.ident))];
        }
        i := i + 1;
      }
      assert exports[..i] == exports;
      obj := Utils.ObjLit(props);
    }

    /**
      `visit_mut_module` after the collector: `m.body` is the body the
      collector left, `imports` and `exports` its records.
    */
    method VisitMutModule(m: Module, imports: seq<LegacyImport>, exports: seq<LegacyExport>)
      modifies m
      ensures m.body == Rewrite(moduleName, importPaths, old(m.body), imports, exports)
    {
      var isEsm := |imports| + |exports| > 0;
      var i := 0;
      while i < |imports|
        invariant 0 <= i <= |imports|
        invariant m.body == ImportStmts(importPaths, imports[..i]) + old(m.body)
      {
        assert imports[..i + 1][..i] == imports[..i];
        m.body := m.body[..i] + [StmtItem(ImportStmt(importPaths, imports[i]))] + m.body[i..];
        i := i + 1;
      }
      assert imports[..i] == imports;
      if isEsm {
        var obj := GetExportsObjExpr(exports);
        m.body := m.body + [StmtItem(ExprStmt(Utils.GlobalModuleApiCallExpr(Utils.ExportMethod,
          [Utils.FnArg(Utils.StrLitExpr(moduleName)), Utils.FnArg(obj)])))];
      }
    }
  }
}

/** What the older emitter promises, read back from the statements it builds. */
module LegacyGlobalEsmProps {
  import opened Ast
  import Utils
  import GlobalEsm
  import opened LegacyGlobalEsm

  /** The name and initializer of a `const name = init;` statement. */
  function ConstBinding(item: ModuleItem): Option<(Ident, Expr)> {
    match item
    case StmtItem(DeclStmt(VarDecl(Const, _, decls))) =>
      if |decls| == 1 && decls[0].name.BindingIdent? && decls[0].init.Some?
      then Some((decls[0].name.id, decls[0].init.value)) else None
    case _ => None
  }

  /** The object and property of `obj.prop`; any other expression is read whole. */
  function Projection(e: Expr): (Expr, Option<string>) {
    match e
    case Member(obj, prop) => (obj, Some(prop.sym))
    case _ => (e, None)
  }

  /** The path a `global.__modules.import("<path>")` call requests. */
  function RequestedPath(e: Expr): Option<string> {
    match e
    case Call(Member(Member(IdentExpr(g), m), meth), args, _) =>
      if g == Utils.Ident(Utils.Global) && m == Utils.Ident(Utils.Modules) && meth == Utils.Ident(Utils.ImportMethod)
         && |args| == 1 && !args[0].spread && args[0].expr.StrLit?
      then Some(args[0].expr.value) else None
    case _ => None
  }

  /** The property a binding of this kind reads from the imported module, if any. */
  function ReadProperty(im: LegacyImport): Option<string> {
    match im.moduleType
    case Default => Some("default")
    case Named => Some(im.ident.sym)
    case NamespaceOrAll => None
  }

  /**
    The statement binds the record's local name to its own registry lookup
    of the remapped source, reading `default`, the local name, or the whole
    module.
  */
  predicate BindsImport(paths: GlobalEsm.ImportPaths, im: LegacyImport, item: ModuleItem) {
    ConstBinding(item).Some? && ConstBinding(item).value.0 == im.ident &&
    RequestedPath(Projection(ConstBinding(item).value.1).0) == Some(GlobalEsm.ToActualPath(paths, im.moduleSrc)) &&
    Projection(ConstBinding(item).value.1).1 == ReadProperty(im)
  }

  lemma ImportStmtMeaning(paths: GlobalEsm.ImportPaths, im: LegacyImport)
    ensures BindsImport(paths, im, StmtItem(ImportStmt(paths, im)))
    ensures Utils.ApiMethodOf(StmtItem(ImportStmt(paths, im))).None?
  {
  }

  /** None of the binding statements is a registry call statement. */
  lemma {:induction false} ImportStmtsCallNothing(paths: GlobalEsm.ImportPaths, imports: seq<LegacyImport>)
    ensures Utils.RegistryCalls(ImportStmts(paths, imports)) == []
  {
    if imports != [] {
      ImportStmtsCallNothing(paths, imports[..|imports| - 1]);
      ImportStmtMeaning(paths, imports[|imports| - 1]);
    }
  }

  /** Each record becomes its own binding statement, in order. */
  lemma {:induction false} ImportStmtsMeaning(paths: GlobalEsm.ImportPaths, imports: seq<LegacyImport>)
    ensures forall k :: 0 <= k < |imports| ==> BindsImport(paths, imports[k], ImportStmts(paths, imports)[k])
  {
    if imports != [] {
      var init := imports[..|imports| - 1];
      var last := imports[|imports| - 1];
      ImportStmtsMeaning(paths, init);
      ImportStmtMeaning(paths, last);
      var items := ImportStmts(paths, imports);
      assert items[..|items| - 1] == ImportStmts(paths, init);
      forall k | 0 <= k < |init| ensures BindsImport(paths, imports[k], items[k]) {
        assert imports[k] == init[k] && items[k] == ImportStmts(paths, init)[k];
      }
    }
  }

  /** The key an export is visible under, if it is not a spread. */
  function ExportKey(e: LegacyExport): Option<string> {
    match e.moduleType
    case Default => Some("default")
    case Named => Some(e.asIdent.GetOr(e.ident).sym)
    case NamespaceOrAll => None
  }

  /**
    The export object is `null` exactly when there is no export; otherwise
    it has one property per export in order, under its exported name (a
    spread for `export *`), with the local binding as its value. An alias
    is written as a key even when it equals the local name.
  */
  lemma {:induction false} ExportsObjectMeaning(exports: seq<LegacyExport>)
    ensures ExportsObject(exports) == NullLit <==> |exports| == 0
    ensures |exports| > 0 ==>
      var props := ExportsObject(exports).props;
      |props| == |exports| &&
      forall k :: 0 <= k < |exports| ==>
        PropKey(props[k]) == ExportKey(exports[k]) && PropValue(props[k]) == IdentExpr(exports[k].ident) &&
        (props[k].KeyValue? <==> !(exports[k].moduleType == NamespaceOrAll || (exports[k].moduleType == Named && exports[k].asIdent.None?)))
  {
    if |exports| > 1 {
      var init := exports[..|exports| - 1];
      ExportsObjectMeaning(init);
      forall k | 0 <= k < |init| ensures exports[k] == init[k] {
      }
    }
  }

  /**
    The rewrite keeps the collected body between the bindings and the
    registration, makes no registry statement of its own for the bindings,
    and appends exactly one `export` call, for a module with at least one
    import or export.
  */
  lemma RewriteRegistration(moduleName: string, paths: GlobalEsm.ImportPaths, body: seq<ModuleItem>,
                            imports: seq<LegacyImport>, exports: seq<LegacyExport>)
    ensures var out := Rewrite(moduleName, paths, body, imports, exports);
      out[|imports|..|imports| + |body|] == body &&
      Utils.RegistryCalls(out) == Utils.RegistryCalls(body) + (if |imports| + |exports| > 0 then [Utils.ExportMethod] else [])
  {
    RewriteKeepsBody(moduleName, paths, body, imports, exports);
    RewriteCalls(moduleName, paths, body, imports, exports);
  }

  lemma RewriteKeepsBody(moduleName: string, paths: GlobalEsm.ImportPaths, body: seq<ModuleItem>,
                         imports: seq<LegacyImport>, exports: seq<LegacyExport>)
    ensures var out := Rewrite(moduleName, paths, body, imports, exports);
      |imports| + |body| <= |out| && out[|imports|..|imports| + |body|] == body
  {
    var out := Rewrite(moduleName, paths, body, imports, exports);
    assert forall k :: 0 <= k < |body| ==> out[|imports| + k] == body[k];
  }

  lemma RewriteCalls(moduleName: string, paths: GlobalEsm.ImportPaths, body: seq<ModuleItem>,
                     imports: seq<LegacyImport>, exports: seq<LegacyExport>)
    ensures Utils.RegistryCalls(Rewrite(moduleName, paths, body, imports, exports))
      == Utils.RegistryCalls(body) + (if |imports| + |exports| > 0 then [Utils.ExportMethod] else [])
  {
    var pre := ImportStmts(paths, imports);
    ImportStmtsCallNothing(paths, imports);
    if |imports| + |exports| > 0 {
      var item := StmtItem(ExportsStmt(moduleName, exports));
      Utils.RegistryCallsOne(item);
      BracketedCalls(pre, body, [item]);
    } else {
      assert pre + body + [] == pre + body;
      BracketedCalls(pre, body, []);
    }
  }

  /** Statements that call nothing, placed before a body, add no registry call. */
  lemma BracketedCalls(pre: seq<ModuleItem>, body: seq<ModuleItem>, tail: seq<ModuleItem>)
    requires Utils.RegistryCalls(pre) == []
    ensures Utils.RegistryCalls(pre + body + tail) == Utils.RegistryCalls(body) + Utils.RegistryCalls(tail)
  {
    Utils.RegistryCallsAppend(pre, body);
    Utils.RegistryCallsAppend(pre + body, tail);
  }

  /** A module that imports but exports nothing still registers, with `null`. */
  lemma ImportOnlyRegistersNull(moduleName: string, paths: GlobalEsm.ImportPaths, body: seq<ModuleItem>,
                                imports: seq<LegacyImport>)
    requires |imports| > 0
    ensures var out := Rewrite(moduleName, paths, body, imports, []);
      out[|out| - 1] == StmtItem(ExprStmt(Utils.GlobalModuleApiCallExpr(Utils.ExportMethod,
        [Utils.FnArg(Utils.StrLitExpr(moduleName)), Utils.FnArg(NullLit)])))
  {
  }
}
