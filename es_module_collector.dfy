/**
  The older binding collector (transform/src/es_module_collector.rs). It
  classifies module declarations like the collector of module_collector.dfy,
  but stops the transform (`unimplemented!`) on a
  string alias in an export specifier, writes an empty statement where
  runtime mode drops `export default`, and finally removes every empty
  statement from the body.

  An outcome of None below stands for that `unimplemented!` panic.
*/
module EsModuleCollector {
  import opened Ast
  import opened Bindings
  import opened ModuleCollector
  import Utils

  // ---------------------------------------------------------------------------
  // The pass as functions
  // ---------------------------------------------------------------------------


  /** `export { a, b as c }`: a string alias (`b as "c"`) stops the transform. */
  function EsLocalSpecifierExport(spec: ExportSpecifier): Option<seq<ExportModule>> {
    match spec
    case ExportNamedSpec(NameIdent(orig), exported, false) =>
      (match exported
       case Some(NameIdent(a)) => Some([NamedExport(orig, Some(a))])
       case Some(NameStr(_)) => None
       case None => Some([NamedExport(orig, None)]))
    case _ => Some([])
  }

  function EsLocalSpecifierExports(specs: seq<ExportSpecifier>): Option<seq<ExportModule>> {
    if specs == [] then Some([])
    else
      var prev := EsLocalSpecifierExports(specs[..|specs| - 1]);
      var last := EsLocalSpecifierExport(specs[|specs| - 1]);
      if prev.Some? && last.Some? then Some(prev.value + last.value) else None
  }

  /** `export { orig as exported } from src`: a string alias stops the transform. */
  function EsReExportOfSpecifier(spec: ExportSpecifier, src: string, mark: nat): Option<Collected> {
    match spec
    case ExportNamedSpec(NameIdent(orig), exported, _) =>
      var isDefault := orig.sym == "default";
      var target := PrivateIdent(if isDefault then "__default" else orig.sym, mark);
      var im := ImportModule(target, src, if isDefault then DefaultAsNamed else Named);
      (match exported
       case Some(NameIdent(a)) => Some(Collected([], [im], [NamedExport(target, Some(a))], mark + 1))
       case Some(NameStr(_)) => None
       case None => Some(Collected([], [im], [NamedExport(target, Some(orig))], mark + 1)))
    case _ => Some(Collected([], [], [], mark))
  }

  function EsReExportsOfSpecifiers(specs: seq<ExportSpecifier>, src: string, mark: nat): Option<Collected> {
    if specs == [] then Some(Collected([], [], [], mark))
    else
      var prev := EsReExportsOfSpecifiers(specs[..|specs| - 1], src, mark);
      if prev.None? then None
      else
        var last := EsReExportOfSpecifier(specs[|specs| - 1], src, prev.value.nextMark);
        if last.None? then None
        else Some(Collected([], prev.value.imports + last.value.imports, prev.value.exports + last.value.exports,
                            last.value.nextMark))
  }

  function EsNamedExportEffect(specs: seq<ExportSpecifier>, src: Option<string>, mark: nat): Option<Collected> {
    match src
    case None =>
      var e := EsLocalSpecifierExports(specs);
      if e.Some? then Some(Collected([], [], e.value, mark)) else None
    case Some(s) =>
      if IsNamespaceReExport(specs) then
        var id := PrivateIdent("__re_export", mark);
        Some(Collected([], [ImportModule(id, s, NamespaceOrAll)], [NamedExport(id, Some(specs[0].name.id))], mark + 1))
      else
        EsReExportsOfSpecifiers(specs, s, mark)
  }

  /** What follows the converted default export: an empty statement in runtime mode. */
  function DefaultTail(runtime: bool, id: Ident): ModuleItem {
    if runtime then StmtItem(EmptyStmt) else DeclItem(DefaultExportStmt(id))
  }

  /** The effect of one top-level item; None when it stops the transform. */
  function EsItemEffect(runtime: bool, item: ModuleItem, mark: nat): Option<Collected> {
    match item
    case StmtItem(_) => Some(Collected([item], [], [], mark))
    case DeclItem(d) =>
      match d
      case Import(specs, src, _) =>
        Some(Collected(Retained(runtime, item), if runtime then ImportsOfSpecifiers(specs, src) else [], [], mark))
      case ExportDecl(decl) =>
        Some(Collected([if runtime then StmtItem(DeclStmt(decl)) else item], [], ExportsOfDecl(decl), mark))
      case ExportDefaultDecl(dd) =>
        (match ConvertDefaultDecl(dd, mark)
         case Some((id, stmt)) =>
           Some(Collected([StmtItem(stmt), DefaultTail(runtime, id)], [], [DefaultExport(id)],
                          mark + MarksOfDefaultDecl(dd)))
         case None => Some(Collected([item], [], [], mark)))
      case ExportDefaultExpr(e) =>
        var id := PrivateIdent("__export_default", mark);
        Some(Collected([StmtItem(Utils.DeclVarAndAssignStmt(id, e)), DefaultTail(runtime, id)], [],
                       [DefaultExport(id)], mark + 1))
      case ExportNamed(specs, src, false) =>
        var e := EsNamedExportEffect(specs, src, mark);
        if e.Some? then Some(Collected(Retained(runtime, item), e.value.imports, e.value.exports, e.value.nextMark))
        else None
      case ExportAll(src, false) =>
        var e := ExportAllEffect(src, mark);
        Some(Collected(Retained(runtime, item), e.imports, e.exports, e.nextMark))
      case _ => Some(Collected(Retained(runtime, item), [], [], mark))
  }

  function EsStep(runtime: bool, acc: Option<Collected>, item: ModuleItem): Option<Collected> {
    if acc.None? then None
    else
      var e := EsItemEffect(runtime, item, acc.value.nextMark);
      if e.None? then None
      else Some(Collected(acc.value.body + e.value.body, acc.value.imports + e.value.imports,
                          acc.value.exports + e.value.exports, e.value.nextMark))
  }

  /** The pass over `items` before empty statements are removed. */
  function EsCollectFrom(runtime: bool, acc: Option<Collected>, items: seq<ModuleItem>): Option<Collected> {
    if items == [] then acc
    else EsStep(runtime, EsCollectFrom(runtime, acc, items[..|items| - 1]), items[|items| - 1])
  }

  /** `body` without its empty statements, the rest in order. */
  function RemoveEmpty(body: seq<ModuleItem>): seq<ModuleItem> {
    if body == [] then []
    else RemoveEmpty(body[..|body| - 1]) + (if IsEmptyItem(body[|body| - 1]) then [] else [body[|body| - 1]])
  }

  /** The whole pass: collect, then drop every empty statement. */
  function EsCollect(runtime: bool, items: seq<ModuleItem>, mark: nat): Option<Collected> {
    var c := EsCollectFrom(runtime, Some(Collected([], [], [], mark)), items);
    if c.None? then None else Some(c.value.(body := RemoveEmpty(c.value.body)))
  }

  // ---------------------------------------------------------------------------
  // Once the transform has stopped, it stays stopped
  // ---------------------------------------------------------------------------

  lemma {:induction false} EsLocalStopped(specs: seq<ExportSpecifier>, i: nat)
    requires i <= |specs| && EsLocalSpecifierExports(specs[..i]).None?
    ensures EsLocalSpecifierExports(specs).None?
    decreases |specs| - i
  {
    if i < |specs| {
      assert specs[..i + 1][..i] == specs[..i];
      EsLocalStopped(specs, i + 1);
    } else {
      assert specs[..i] == specs;
    }
  }

  lemma {:induction false} EsReExportsStopped(specs: seq<ExportSpecifier>, src: string, mark: nat, i: nat)
    requires i <= |specs| && EsReExportsOfSpecifiers(specs[..i], src, mark).None?
    ensures EsReExportsOfSpecifiers(specs, src, mark).None?
    decreases |specs| - i
  {
    if i < |specs| {
      assert specs[..i + 1][..i] == specs[..i];
      EsReExportsStopped(specs, src, mark, i + 1);
    } else {
      assert specs[..i] == specs;
    }
  }

  lemma {:induction false} EsCollectStopped(runtime: bool, acc: Option<Collected>, items: seq<ModuleItem>, i: nat)
    requires i <= |items| && EsCollectFrom(runtime, acc, items[..i]).None?
    ensures EsCollectFrom(runtime, acc, items).None?
    decreases |items| - i
  {
    if i < |items| {
      assert items[..i + 1][..i] == items[..i];
      EsCollectStopped(runtime, acc, items, i + 1);
    } else {
      assert items[..i] == items;
    }
  }

  // ---------------------------------------------------------------------------
  // The visitor
  // ---------------------------------------------------------------------------

  class EsCollector {
    var imports: seq<ImportModule>
    var exports: seq<ExportModule>
    const runtimeModule: bool
    /** The hygiene counter behind `private_ident!`. */
    var nextMark: nat

    constructor Default(runtimeModule: bool, firstMark: nat)
      ensures imports == [] && exports == []
      ensures this.runtimeModule == runtimeModule && nextMark == firstMark
    {
      imports := [];
      exports := [];
      this.runtimeModule := runtimeModule;
      nextMark := firstMark;
    }

    method NewPrivateIdent(sym: string) returns (id: Ident)
      modifies this`nextMark
      ensures id == PrivateIdent(sym, old(nextMark)) && nextMark == old(nextMark) + 1
    {
      id := PrivateIdent(sym, nextMark);
      nextMark := nextMark + 1;
    }

    /** Keeps the declaration in static mode; does nothing in runtime mode. */
    method CloneModuleDeclIfNeeded(body: seq<ModuleItem>, d: ModuleDecl) returns (body': seq<ModuleItem>)
      ensures runtimeModule ==> body' == body
      ensures !runtimeModule ==> body' == body + [DeclItem(d)]
    {
      if runtimeModule {
        body' := body;
      } else {
        body' := body + [DeclItem(d)];
      }
    }

    /** Records each specifier of an import in runtime mode, none in static mode. */
    method CollectImport(specs: seq<ImportSpecifier>, src: string)
      modifies this`imports
      ensures imports == old(imports) + (if runtimeModule then ImportsOfSpecifiers(specs, src) else [])
    {
      if !runtimeModule {
        return;
      }
      var i := 0;
      while i < |specs|
        invariant 0 <= i <= |specs|
        invariant imports == old(imports) + ImportsOfSpecifiers(specs[..i], src)
      {
        assert specs[..i + 1][..i] == specs[..i];
        imports := imports + [ImportOfSpecifier(specs[i], src)];
        i := i + 1;
      }
      assert specs[..i] == specs;
    }

    method ConvertExportDecl(item: ModuleItem, decl: Decl) returns (r: ModuleItem)
      modifies this`exports
      ensures r == (if runtimeModule then StmtItem(DeclStmt(decl)) else item)
      ensures exports == old(exports) + ExportsOfDecl(decl)
    {
      match decl {
        case VarDecl(_, _, decls) =>
          if |decls| > 0 && decls[0].name.BindingIdent? {
            exports := exports + [NamedExport(decls[0].name.id, None)];
          }
        case FnDecl(f, _) => exports := exports + [NamedExport(f, None)];
        case ClassDecl(c, _) => exports := exports + [NamedExport(c, None)];
        case OtherDecl(_) =>
      }
      r := if runtimeModule then StmtItem(DeclStmt(decl)) else item;
    }

    method ConvertExportDefaultDecl(item: ModuleItem, dd: DefaultDecl) returns (items: seq<ModuleItem>)
      modifies this`exports, this`nextMark
      ensures var c := ConvertDefaultDecl(dd, old(nextMark));
        nextMark == old(nextMark) + MarksOfDefaultDecl(dd) &&
        (c.Some? ==> items == [StmtItem(c.value.1), DefaultTail(runtimeModule, c.value.0)] &&
                     exports == old(exports) + [DefaultExport(c.value.0)]) &&
        (c.None? ==> items == [item] && exports == old(exports))
    {
      var id: Ident;
      var stmt: Stmt;
      match dd {
        case DefaultFn(Some(f), body) =>
          exports := exports + [DefaultExport(f)];
          id, stmt := f, DeclStmt(FnDecl(f, body));
        case DefaultClass(Some(c), body) =>
          exports := exports + [DefaultExport(c)];
          id, stmt := c, DeclStmt(ClassDecl(c, body));
        case DefaultFn(None, body) =>
          id := NewPrivateIdent("__export_default");
          stmt := Utils.DeclVarAndAssignStmt(id, FnExpr(None, body));
          exports := exports + [DefaultExport(id)];
        case DefaultClass(None, body) =>
          id := NewPrivateIdent("__export_default");
          stmt := Utils.DeclVarAndAssignStmt(id, ClassExpr(None, body));
          exports := exports + [DefaultExport(id)];
        case DefaultTsInterface(_) =>
          return [item];
      }
      items := [StmtItem(stmt), if runtimeModule then StmtItem(EmptyStmt) else DeclItem(DefaultExportStmt(id))];
    }

    method ConvertExportDefaultExpr(e: Expr) returns (items: seq<ModuleItem>)
      modifies this`exports, this`nextMark
      ensures var id := PrivateIdent("__export_default", old(nextMark));
        items == [StmtItem(Utils.DeclVarAndAssignStmt(id, e)), DefaultTail(runtimeModule, id)] &&
        exports == old(exports) + [DefaultExport(id)] && nextMark == old(nextMark) + 1
    {
      var id := NewPrivateIdent("__export_default");
      var stmt := Utils.DeclVarAndAssignStmt(id, e);
      exports := exports + [DefaultExport(id)];
      items := [StmtItem(stmt), if runtimeModule then StmtItem(EmptyStmt) else DeclItem(DefaultExportStmt(id))];
    }

    /** `ok` is false when a string alias stops the transform. */
    method CollectNamedExports(specs: seq<ExportSpecifier>, src: Option<string>) returns (ok: bool)
      modifies this`imports, this`exports, this`nextMark
      ensures var e := EsNamedExportEffect(specs, src, old(nextMark));
        ok == e.Some? &&
        (ok ==> imports == old(imports) + e.value.imports && exports == old(exports) + e.value.exports &&
                nextMark == e.value.nextMark)
    {
      match src
      case None =>
        ok := CollectLocalExports(specs);
      case Some(s) =>
        if IsNamespaceReExport(specs) {
          var id := NewPrivateIdent("__re_export");
          imports := imports + [ImportModule(id, s, NamespaceOrAll)];
          exports := exports + [NamedExport(id, Some(specs[0].name.id))];
          ok := true;
        } else {
          ok := CollectReExports(specs, s);
        }
    }

    /** The loop over the specifiers of `export { ... }` without a source. */
    method CollectLocalExports(specs: seq<ExportSpecifier>) returns (ok: bool)
      modifies this`exports
      ensures var e := EsLocalSpecifierExports(specs);
        ok == e.Some? && (ok ==> exports == old(exports) + e.value)
    {
      var i := 0;
      while i < |specs|
        invariant 0 <= i <= |specs|
        invariant EsLocalSpecifierExports(specs[..i]).Some?
        invariant exports == old(exports) + EsLocalSpecifierExports(specs[..i]).value
      {
        assert specs[..i + 1][..i] == specs[..i];
        match specs[i] {
          case ExportNamedSpec(NameIdent(orig), exported, false) =>
            match exported {
              case Some(NameIdent(a)) => exports := exports + [NamedExport(orig, Some(a))];
              case Some(NameStr(_)) =>
                EsLocalStopped(specs, i + 1);
                return false;
              case None => exports := exports + [NamedExport(orig, None)];
            }
          case _ =>
        }
        i := i + 1;
      }
      assert specs[..i] == specs;
      ok := true;
    }

    /** The loop over the specifiers of `export { ... } from src`. */
    /** One specifier of `export { ... } from src`; `ok` is false when a string alias stops the transform. */
    method CollectReExportSpecifier(spec: ExportSpecifier, src: string) returns (ok: bool)
      modifies this`imports, this`exports, this`nextMark
      ensures var e := EsReExportOfSpecifier(spec, src, old(nextMark));
        ok == e.Some? &&
        (ok ==> imports == old(imports) + e.value.imports && exports == old(exports) + e.value.exports &&
                nextMark == e.value.nextMark)
    {
      ok := true;
      match spec {
        case ExportNamedSpec(NameIdent(orig), exported, _) =>
          var isDefault := orig.sym == "default";
          var target := NewPrivateIdent(if isDefault then "__default" else orig.sym);
          imports := imports + [ImportModule(target, src, if isDefault then DefaultAsNamed else Named)];
          match exported {
            case Some(NameIdent(a)) => exports := exports + [NamedExport(target, Some(a))];
            case Some(NameStr(_)) => ok := false;
            case None => exports := exports + [NamedExport(target, Some(orig))];
          }
        case _ =>
      }
    }

    method CollectReExports(specs: seq<ExportSpecifier>, src: string) returns (ok: bool)
      modifies this`imports, this`exports, this`nextMark
      ensures var e := EsReExportsOfSpecifiers(specs, src, old(nextMark));
        ok == e.Some? &&
        (ok ==> imports == old(imports) + e.value.imports && exports == old(exports) + e.value.exports &&
                nextMark == e.value.nextMark)
    {
      var i := 0;
      while i < |specs|
        invariant 0 <= i <= |specs|
        invariant var e := EsReExportsOfSpecifiers(specs[..i], src, old(nextMark));
          e.Some? && imports == old(imports) + e.value.imports && exports == old(exports) + e.value.exports &&
          nextMark == e.value.nextMark
      {
        assert specs[..i + 1][..i] == specs[..i];
        var step := CollectReExportSpecifier(specs[i], src);
        if !step {
          EsReExportsStopped(specs, src, old(nextMark), i + 1);
          return false;
        }
        i := i + 1;
      }
      assert specs[..i] == specs;
      ok := true;
    }

    method CollectExportAll(src: string)
      modifies this`imports, this`exports, this`nextMark
      ensures var e := ExportAllEffect(src, old(nextMark));
        imports == old(imports) + e.imports && exports == old(exports) + e.exports && nextMark == e.nextMark
    {
      var id := NewPrivateIdent("__re_export_all");
      imports := imports + [ImportModule(id, src, NamespaceOrAll)];
      exports := exports + [AllExport(id)];
    }

    /** Handles one item, appending its rewritten form to `body`; `ok` is false when the transform stops. */
    method VisitItem(body: seq<ModuleItem>, item: ModuleItem) returns (ok: bool, body': seq<ModuleItem>)
      modifies this`imports, this`exports, this`nextMark
      ensures var r := EsStep(runtimeModule, Some(Collected(body, old(imports), old(exports), old(nextMark))), item);
        ok == r.Some? && (ok ==> r.value == Collected(body', imports, exports, nextMark))
    {
      ok := true;
      match item
      case StmtItem(_) => body' := body + [item];
      case DeclItem(d) =>
        match d
        case Import(specs, src, _) =>
          CollectImport(specs, src);
          body' := CloneModuleDeclIfNeeded(body, d);
        case ExportDecl(decl) =>
          var r := ConvertExportDecl(item, decl);
          body' := body + [r];
        case ExportDefaultDecl(dd) =>
          var items := ConvertExportDefaultDecl(item, dd);
          body' := body + items;
        case ExportDefaultExpr(e) =>
          var items := ConvertExportDefaultExpr(e);
          body' := body + items;
        case ExportNamed(specs, src, false) =>
          ok := CollectNamedExports(specs, src);
          body' := CloneModuleDeclIfNeeded(body, d);
        case ExportAll(src, false) =>
          CollectExportAll(src);
          body' := CloneModuleDeclIfNeeded(body, d);
        case _ =>
          body' := CloneModuleDeclIfNeeded(body, d);
    }

    /** `retain`: keeps the items that are not empty statements, in order. */
    static method RetainNonEmpty(body: seq<ModuleItem>) returns (r: seq<ModuleItem>)
      ensures r == RemoveEmpty(body)
    {
      r := [];
      var i := 0;
      while i < |body|
        invariant 0 <= i <= |body|
        invariant r == RemoveEmpty(body[..i])
      {
        assert body[..i + 1][..i] == body[..i];
        if !IsEmptyItem(body[i]) {
          r := r + [body[i]];
        }
        i := i + 1;
      }
      assert body[..i] == body;
    }

    /**
      Rewrites the module body and records its bindings; `ok` is false when
      a string alias stops the transform, and then nothing is promised.
    */
    method VisitMutModule(m: Module) returns (ok: bool)
      modifies this`imports, this`exports, this`nextMark, m
      ensures var r := EsCollectFrom(runtimeModule, Some(Collected([], old(imports), old(exports), old(nextMark))), old(m.body));
        ok == r.Some? &&
        (ok ==> m.body == RemoveEmpty(r.value.body) && imports == r.value.imports && exports == r.value.exports &&
                nextMark == r.value.nextMark)
    {
      var items := m.body;
      var start := Some(Collected([], imports, exports, nextMark));
      var body: seq<ModuleItem> := [];
      var i := 0;
      while i < |items|
        invariant 0 <= i <= |items|
        invariant EsCollectFrom(runtimeModule, start, items[..i]) == Some(Collected(body, imports, exports, nextMark))
      {
        assert items[..i + 1][..i] == items[..i];
        var itemOk;
        itemOk, body := VisitItem(body, items[i]);
        if !itemOk {
          EsCollectStopped(runtimeModule, start, items, i + 1);
          return false;
        }
        i := i + 1;
      }
      assert items[..i] == items;
      m.body := RetainNonEmpty(body);
      ok := true;
    }
  }
}
