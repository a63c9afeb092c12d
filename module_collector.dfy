/**
  The binding collector that the emitter uses (transform/src/module_collector.rs).
  One left-to-right pass over the module body classifies every module
  declaration, records its bindings in `imports` and `exports` and builds the
  rewritten body, which depends on `runtimeModule`.

  The pass is stated twice: as functions (ItemEffect, CollectFrom), which the
  lemmas in module_collector_props.dfy reason about, and as the class
  Collector, whose methods update `imports`, `exports` and the hygiene counter
  in place as the visitor does and are proved to follow those functions.
*/
module ModuleCollector {
  import opened Ast
  import opened Bindings
  import Utils

  /** What (a part of) the pass produces: rewritten body, bindings, next hygiene mark. */
  datatype Collected = Collected(
    body: seq<ModuleItem>,
    imports: seq<ImportModule>,
    exports: seq<ExportModule>,
    nextMark: nat)

  // ---------------------------------------------------------------------------
  // The pass as functions
  // ---------------------------------------------------------------------------

  /** The record for one import specifier of `import ... from src`. */
  function ImportOfSpecifier(spec: ImportSpecifier, src: string): ImportModule {
    match spec
    case ImportDefault(local) => ImportModule(local, src, Default)
    case ImportNamed(local, _, _) => ImportModule(local, src, Named)
    case ImportNamespace(local) => ImportModule(local, src, NamespaceOrAll)
  }

  /** One record per specifier, in specifier order. */
  function ImportsOfSpecifiers(specs: seq<ImportSpecifier>, src: string): seq<ImportModule> {
    if specs == [] then []
    else ImportsOfSpecifiers(specs[..|specs| - 1], src) + [ImportOfSpecifier(specs[|specs| - 1], src)]
  }

  /** `export var/function/class`: the first declared name, unless it is a pattern. */
  function ExportsOfDecl(d: Decl): seq<ExportModule> {
    match d
    case VarDecl(_, _, decls) =>
      if |decls| > 0 && decls[0].name.BindingIdent? then [NamedExport(decls[0].name.id, None)] else []
    case FnDecl(f, _) => [NamedExport(f, None)]
    case ClassDecl(c, _) => [NamedExport(c, None)]
    case OtherDecl(_) => []
  }

  /**
    `export default function/class`: the bound identifier and the plain
    statement replacing the declaration, or None for a shape the collector
    does not support. Anonymous forms take the private `__export_default`.
  */
  function ConvertDefaultDecl(dd: DefaultDecl, mark: nat): Option<(Ident, Stmt)> {
    match dd
    case DefaultFn(Some(f), body) => Some((f, DeclStmt(FnDecl(f, body))))
    case DefaultFn(None, body) =>
      var id := PrivateIdent("__export_default", mark);
      Some((id, Utils.DeclVarAndAssignStmt(id, FnExpr(None, body))))
    case DefaultClass(Some(c), body) => Some((c, DeclStmt(ClassDecl(c, body))))
    case DefaultClass(None, body) =>
      var id := PrivateIdent("__export_default", mark);
      Some((id, Utils.DeclVarAndAssignStmt(id, ClassExpr(None, body))))
    case DefaultTsInterface(_) => None
  }

  /** How many private identifiers ConvertDefaultDecl makes. */
  function MarksOfDefaultDecl(dd: DefaultDecl): nat {
    match dd
    case DefaultFn(None, _) => 1
    case DefaultClass(None, _) => 1
    case _ => 0
  }

  /** `export default <ident>`, appended in static mode only. */
  function DefaultExportStmt(id: Ident): ModuleDecl {
    ExportDefaultExpr(IdentExpr(id))
  }

  function StaticDefaultExport(runtime: bool, id: Ident): seq<ModuleItem> {
    if runtime then [] else [DeclItem(DefaultExportStmt(id))]
  }

  /** A declaration kept in the body in static mode only. */
  function Retained(runtime: bool, item: ModuleItem): seq<ModuleItem> {
    if runtime then [] else [item]
  }

  /** `export { a, b as c }` without a source: one export per value specifier. */
  function LocalSpecifierExport(spec: ExportSpecifier): seq<ExportModule> {
    match spec
    case ExportNamedSpec(NameIdent(orig), exported, false) =>
      (match exported
       case Some(NameIdent(asIdent)) => [NamedExport(orig, Some(asIdent))]
       case _ => [NamedExport(orig, None)])
    case _ => []
  }

  function LocalSpecifierExports(specs: seq<ExportSpecifier>): seq<ExportModule> {
    if specs == [] then []
    else LocalSpecifierExports(specs[..|specs| - 1]) + LocalSpecifierExport(specs[|specs| - 1])
  }

  /**
    `export { orig as exported } from src`: a fresh binding imported from
    `src` and exported under the alias, or else under the original name.
  */
  function ReExportOfSpecifier(spec: ExportSpecifier, src: string, mark: nat): Collected {
    match spec
    case ExportNamedSpec(NameIdent(orig), exported, _) =>
      var isDefault := orig.sym == "default";
      var target := PrivateIdent(if isDefault then "__default" else orig.sym, mark);
      var im := ImportModule(target, src, if isDefault then DefaultAsNamed else Named);
      var asIdent := match exported
        case Some(NameIdent(a)) => a
        case _ => orig;
      Collected([], [im], [NamedExport(target, Some(asIdent))], mark + 1)
    case _ => Collected([], [], [], mark)
  }

  function ReExportsOfSpecifiers(specs: seq<ExportSpecifier>, src: string, mark: nat): Collected {
    if specs == [] then Collected([], [], [], mark)
    else
      var prev := ReExportsOfSpecifiers(specs[..|specs| - 1], src, mark);
      var last := ReExportOfSpecifier(specs[|specs| - 1], src, prev.nextMark);
      Collected([], prev.imports + last.imports, prev.exports + last.exports, last.nextMark)
  }

  /** `export * as ns from src`, the first specifier being a namespace with an identifier name. */
  predicate IsNamespaceReExport(specs: seq<ExportSpecifier>) {
    |specs| > 0 && specs[0].ExportNamespaceSpec? && specs[0].name.NameIdent?
  }

  /** `export { ... }` and `export ... from src`. */
  function NamedExportEffect(specs: seq<ExportSpecifier>, src: Option<string>, mark: nat): Collected {
    match src
    case None => Collected([], [], LocalSpecifierExports(specs), mark)
    case Some(s) =>
      if IsNamespaceReExport(specs) then
        var id := PrivateIdent("__re_export", mark);
        Collected([], [ImportModule(id, s, NamespaceOrAll)], [NamedExport(id, Some(specs[0].name.id))], mark + 1)
      else
        ReExportsOfSpecifiers(specs, s, mark)
  }

  /** `export * from src`: one namespace import and one spread export sharing a fresh binding. */
  function ExportAllEffect(src: string, mark: nat): Collected {
    var id := PrivateIdent("__re_export_all", mark);
    Collected([], [ImportModule(id, src, NamespaceOrAll)], [AllExport(id)], mark + 1)
  }

  /** The effect of one top-level item, the hygiene counter standing at `mark`. */
  function ItemEffect(runtime: bool, item: ModuleItem, mark: nat): Collected {
    match item
    case StmtItem(_) => Collected([item], [], [], mark)
    case DeclItem(d) =>
      match d
      case Import(specs, src, _) =>
        if runtime then Collected([], ImportsOfSpecifiers(specs, src), [], mark)
        else Collected([item], [], [], mark)
      case ExportDecl(decl) =>
        Collected([if runtime then StmtItem(DeclStmt(decl)) else item], [], ExportsOfDecl(decl), mark)
      case ExportDefaultDecl(dd) =>
        (match ConvertDefaultDecl(dd, mark)
         case Some((id, stmt)) =>
           Collected([StmtItem(stmt)] + StaticDefaultExport(runtime, id), [], [DefaultExport(id)],
                     mark + MarksOfDefaultDecl(dd))
         case None => Collected([item], [], [], mark))
      case ExportDefaultExpr(e) =>
        var id := PrivateIdent("__export_default", mark);
        Collected([StmtItem(Utils.DeclVarAndAssignStmt(id, e))] + StaticDefaultExport(runtime, id), [],
                  [DefaultExport(id)], mark + 1)
      case ExportNamed(specs, src, false) =>
        var e := NamedExportEffect(specs, src, mark);
        Collected(Retained(runtime, item), e.imports, e.exports, e.nextMark)
      case ExportAll(src, false) =>
        var e := ExportAllEffect(src, mark);
        Collected(Retained(runtime, item), e.imports, e.exports, e.nextMark)
      case _ => Collected(Retained(runtime, item), [], [], mark)
  }

  /** Appends the effect of `item` to what the pass has produced so far. */
  function Step(runtime: bool, acc: Collected, item: ModuleItem): Collected {
    var e := ItemEffect(runtime, item, acc.nextMark);
    Collected(acc.body + e.body, acc.imports + e.imports, acc.exports + e.exports, e.nextMark)
  }

  /** The pass over `items`, starting from `acc`. */
  function CollectFrom(runtime: bool, acc: Collected, items: seq<ModuleItem>): Collected {
    if items == [] then acc
    else Step(runtime, CollectFrom(runtime, acc, items[..|items| - 1]), items[|items| - 1])
  }

  /** The pass over a whole module, from empty vectors and hygiene counter `mark`. */
  function Collect(runtime: bool, items: seq<ModuleItem>, mark: nat): Collected {
    CollectFrom(runtime, Collected([], [], [], mark), items)
  }

  // ---------------------------------------------------------------------------
  // The visitor
  // ---------------------------------------------------------------------------

  class Collector {
    var imports: seq<ImportModule>
    var exports: seq<ExportModule>
    const runtimeModule: bool
    /** The hygiene counter behind `private_ident!`. */
    var nextMark: nat

    constructor Default(runtimeModule: bool, firstMark: nat)
      ensures imports == [] && exports == []
      ensures this.runtimeModule == runtimeModule && nextMark == firstMark
    {
      imports := [];
      exports := [];
      this.runtimeModule := runtimeModule;
      nextMark := firstMark;
    }

    method NewPrivateIdent(sym: string) returns (id: Ident)
      modifies this`nextMark
      ensures id == PrivateIdent(sym, old(nextMark)) && nextMark == old(nextMark) + 1
    {
      id := PrivateIdent(sym, nextMark);
      nextMark := nextMark + 1;
    }

    /** `const __export_default = expr` with a fresh private identifier. */
    method GetExportDeclStmtWithPrivateIdent(expr: Expr) returns (id: Ident, stmt: Stmt)
      modifies this`nextMark
      ensures id == PrivateIdent("__export_default", old(nextMark)) && nextMark == old(nextMark) + 1
      ensures stmt == Utils.DeclVarAndAssignStmt(id, expr)
    {
      id := NewPrivateIdent("__export_default");
      stmt := Utils.DeclVarAndAssignStmt(id, expr);
    }

    method CollectDefaultExportDeclAndConvertToStmt(dd: DefaultDecl) returns (r: Option<(Ident, Stmt)>)
      modifies this`exports, this`nextMark
      ensures r == ConvertDefaultDecl(dd, old(nextMark))
      ensures nextMark == old(nextMark) + MarksOfDefaultDecl(dd)
      ensures exports == old(exports) + (if r.Some? then [DefaultExport(r.value.0)] else [])
    {
      match dd
      case DefaultFn(Some(f), body) =>
        exports := exports + [DefaultExport(f)];
        r := Some((f, DeclStmt(FnDecl(f, body))));
      case DefaultFn(None, body) =>
        var id, stmt := GetExportDeclStmtWithPrivateIdent(FnExpr(None, body));
        exports := exports + [DefaultExport(id)];
        r := Some((id, stmt));
      case DefaultClass(Some(c), body) =>
        exports := exports + [DefaultExport(c)];
        r := Some((c, DeclStmt(ClassDecl(c, body))));
      case DefaultClass(None, body) =>
        var id, stmt := GetExportDeclStmtWithPrivateIdent(ClassExpr(None, body));
        exports := exports + [DefaultExport(id)];
        r := Some((id, stmt));
      case DefaultTsInterface(_) =>
        r := None;
    }

    method CollectDefaultExportExprAndConvertToStmt(e: Expr) returns (id: Ident, stmt: Stmt)
      modifies this`exports, this`nextMark
      ensures id == PrivateIdent("__export_default", old(nextMark)) && nextMark == old(nextMark) + 1
      ensures stmt == Utils.DeclVarAndAssignStmt(id, e)
      ensures exports == old(exports) + [DefaultExport(id)]
    {
      id, stmt := GetExportDeclStmtWithPrivateIdent(e);
      exports := exports + [DefaultExport(id)];
    }

    method CollectNamedExportSpecifiers(specs: seq<ExportSpecifier>)
      modifies this`exports
      ensures exports == old(exports) + LocalSpecifierExports(specs)
    {
      var i := 0;
      while i < |specs|
        invariant 0 <= i <= |specs|
        invariant exports == old(exports) + LocalSpecifierExports(specs[..i])
      {
        assert specs[..i + 1][..i] == specs[..i];
        exports := exports + LocalSpecifierExport(specs[i]);
        i := i + 1;
      }
      assert specs[..i] == specs;
    }

    /** One specifier of `export { ... } from src`. */
    method CollectReExportSpecifier(spec: ExportSpecifier, src: string)
      modifies this`imports, this`exports, this`nextMark
      ensures var e := ReExportOfSpecifier(spec, src, old(nextMark));
        imports == old(imports) + e.imports && exports == old(exports) + e.exports && nextMark == e.nextMark
    {
      match spec {
        case ExportNamedSpec(NameIdent(orig), exported, _) =>
          var isDefault := orig.sym == "default";
          var target := NewPrivateIdent(if isDefault then "__default" else orig.sym);
          imports := imports + [ImportModule(target, src, if isDefault then DefaultAsNamed else Named)];
          match exported {
            case Some(NameIdent(a)) => exports := exports + [NamedExport(target, Some(a))];
            case _ => exports := exports + [NamedExport(target, Some(orig))];
          }
        case _ =>
      }
    }

    method CollectNamedReExportSpecifiers(specs: seq<ExportSpecifier>, src: string)
      modifies this`imports, this`exports, this`nextMark
      ensures var e := ReExportsOfSpecifiers(specs, src, old(nextMark));
        imports == old(imports) + e.imports && exports == old(exports) + e.exports && nextMark == e.nextMark
    {
      var i := 0;
      while i < |specs|
        invariant 0 <= i <= |specs|
        invariant var e := ReExportsOfSpecifiers(specs[..i], src, old(nextMark));
          imports == old(imports) + e.imports && exports == old(exports) + e.exports && nextMark == e.nextMark
      {
        assert specs[..i + 1][..i] == specs[..i];
        CollectReExportSpecifier(specs[i], src);
        i := i + 1;
      }
      assert specs[..i] == specs;
    }

    method VisitImportDecl(specs: seq<ImportSpecifier>, src: string)
      modifies this`imports
      ensures imports == old(imports) + ImportsOfSpecifiers(specs, src)
    {
      var i := 0;
      while i < |specs|
        invariant 0 <= i <= |specs|
        invariant imports == old(imports) + ImportsOfSpecifiers(specs[..i], src)
      {
        assert specs[..i + 1][..i] == specs[..i];
        imports := imports + [ImportOfSpecifier(specs[i], src)];
        i := i + 1;
      }
      assert specs[..i] == specs;
    }

    method VisitExportDecl(d: Decl)
      modifies this`exports
      ensures exports == old(exports) + ExportsOfDecl(d)
    {
      match d
      case VarDecl(_, _, decls) =>
        if |decls| > 0 && decls[0].name.BindingIdent? {
          exports := exports + [NamedExport(decls[0].name.id, None)];
        }
      case FnDecl(f, _) => exports := exports + [NamedExport(f, None)];
      case ClassDecl(c, _) => exports := exports + [NamedExport(c, None)];
      case OtherDecl(_) =>
    }

    method VisitNamedExport(specs: seq<ExportSpecifier>, src: Option<string>)
      modifies this`imports, this`exports, this`nextMark
      ensures var e := NamedExportEffect(specs, src, old(nextMark));
        imports == old(imports) + e.imports && exports == old(exports) + e.exports && nextMark == e.nextMark
    {
      match src
      case None => CollectNamedExportSpecifiers(specs);
      case Some(s) =>
        if IsNamespaceReExport(specs) {
          var id := NewPrivateIdent("__re_export");
          imports := imports + [ImportModule(id, s, NamespaceOrAll)];
          exports := exports + [NamedExport(id, Some(specs[0].name.id))];
        } else {
          CollectNamedReExportSpecifiers(specs, s);
        }
    }

    method VisitExportAll(src: string)
      modifies this`imports, this`exports, this`nextMark
      ensures var e := ExportAllEffect(src, old(nextMark));
        imports == old(imports) + e.imports && exports == old(exports) + e.exports && nextMark == e.nextMark
    {
      var id := NewPrivateIdent("__re_export_all");
      imports := imports + [ImportModule(id, src, NamespaceOrAll)];
      exports := exports + [AllExport(id)];
    }

    /** Handles one item, appending its rewritten form to `body`. */
    method VisitItem(body: seq<ModuleItem>, item: ModuleItem) returns (body': seq<ModuleItem>)
      modifies this`imports, this`exports, this`nextMark
      ensures Collected(body', imports, exports, nextMark)
           == Step(runtimeModule, Collected(body, old(imports), old(exports), old(nextMark)), item)
    {
      match item
      case StmtItem(_) => body' := body + [item];
      case DeclItem(d) =>
        match d
        case Import(specs, src, _) =>
          if runtimeModule {
            VisitImportDecl(specs, src);
            body' := body;
          } else {
            body' := body + [item];
          }
        case ExportDecl(decl) =>
          body' := body + [if runtimeModule then StmtItem(DeclStmt(decl)) else item];
          VisitExportDecl(decl);
        case ExportDefaultDecl(dd) =>
          var r := CollectDefaultExportDeclAndConvertToStmt(dd);
          if r.Some? {
            body' := body + [StmtItem(r.value.1)];
            if !runtimeModule {
              body' := body' + [DeclItem(DefaultExportStmt(r.value.0))];
            }
          } else {
            body' := body + [item];
          }
        case ExportDefaultExpr(e) =>
          var id, stmt := CollectDefaultExportExprAndConvertToStmt(e);
          body' := body + [StmtItem(stmt)];
          if !runtimeModule {
            body' := body' + [DeclItem(DefaultExportStmt(id))];
          }
        case ExportNamed(specs, src, false) =>
          VisitNamedExport(specs, src);
          body' := body + Retained(runtimeModule, item);
        case ExportAll(src, false) =>
          VisitExportAll(src);
          body' := body + Retained(runtimeModule, item);
        case _ =>
          body' := body + Retained(runtimeModule, item);
    }

    /** `visit_mut_module`: drains the body and rebuilds it item by item. */
    method VisitMutModule(m: Module)
      modifies this`imports, this`exports, this`nextMark, m
      ensures Collected(m.body, imports, exports, nextMark)
           == CollectFrom(runtimeModule, Collected([], old(imports), old(exports), old(nextMark)), old(m.body))
    {
      var items := m.body;
      m.body := [];
      var moduleBody: seq<ModuleItem> := [];
      var i := 0;
      while i < |items|
        invariant 0 <= i <= |items|
        invariant Collected(moduleBody, imports, exports, nextMark)
               == CollectFrom(runtimeModule, Collected([], old(imports), old(exports), old(nextMark)), items[..i])
      {
        assert items[..i + 1][..i] == items[..i];
        moduleBody := VisitItem(moduleBody, items[i]);
        i := i + 1;
      }
      assert items[..i] == items;
      m.body := moduleBody;
    }
  }
}
