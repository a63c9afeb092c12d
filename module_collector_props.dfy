/**
  What the collector of transform/src/module_collector.rs promises, proved
  about the functions that its visitor follows (module ModuleCollector).
*/
module ModuleCollectorProps {
  import opened Ast
  import opened Bindings
  import opened ModuleCollector
  import Utils

  // ---------------------------------------------------------------------------
  // The pass goes left to right, item by item
  // ---------------------------------------------------------------------------

  /** Everything `acc` holds, followed by everything `more` adds. */
  function Join(acc: Collected, more: Collected): Collected {
    Collected(acc.body + more.body, acc.imports + more.imports, acc.exports + more.exports, more.nextMark)
  }

  function Start(mark: nat): Collected {
    Collected([], [], [], mark)
  }

  /** The pass over `items` only adds to what came before. */
  lemma {:induction false} CollectFromShift(runtime: bool, acc: Collected, items: seq<ModuleItem>)
    ensures CollectFrom(runtime, acc, items) == Join(acc, CollectFrom(runtime, Start(acc.nextMark), items))
    decreases |items|
  {
    if items != [] {
      var init := items[..|items| - 1];
      CollectFromShift(runtime, acc, init);
      var c := CollectFrom(runtime, Start(acc.nextMark), init);
      var e := ItemEffect(runtime, items[|items| - 1], c.nextMark);
      JoinAssociative(acc, c, e);
    }
  }

  lemma JoinAssociative(a: Collected, b: Collected, c: Collected)
    ensures Join(Join(a, b), c) == Join(a, Join(b, c))
  {
    assert (a.body + b.body) + c.body == a.body + (b.body + c.body);
    assert (a.imports + b.imports) + c.imports == a.imports + (b.imports + c.imports);
    assert (a.exports + b.exports) + c.exports == a.exports + (b.exports + c.exports);
  }

  /** Passing over `a + b` is passing over `a` and then over `b`. */
  lemma {:induction false} CollectFromAppend(runtime: bool, acc: Collected, a: seq<ModuleItem>, b: seq<ModuleItem>)
    ensures CollectFrom(runtime, acc, a + b) == CollectFrom(runtime, CollectFrom(runtime, acc, a), b)
    decreases |b|
  {
    if b == [] {
      assert a + b == a;
    } else {
      var b' := b[..|b| - 1];
      assert (a + b)[..|a + b| - 1] == a + b';
      assert (a + b)[|a + b| - 1] == b[|b| - 1];
      CollectFromAppend(runtime, acc, a, b');
    }
  }

  /**
    A plain statement is copied to the output unchanged, exactly between the
    output of the items before it and the output of the items after it.
  */
  lemma StatementKeptInPlace(runtime: bool, a: seq<ModuleItem>, s: Stmt, b: seq<ModuleItem>, mark: nat)
    ensures var before := Collect(runtime, a, mark);
            var after := CollectFrom(runtime, Start(before.nextMark), b);
            Collect(runtime, a + [StmtItem(s)] + b, mark).body == before.body + [StmtItem(s)] + after.body
  {
    var before := Collect(runtime, a, mark);
    CollectFromAppend(runtime, Start(mark), a + [StmtItem(s)], b);
    CollectFromAppend(runtime, Start(mark), a, [StmtItem(s)]);
    assert [StmtItem(s)][..0] == [];
    var mid := CollectFrom(runtime, Start(mark), a + [StmtItem(s)]);
    assert mid.body == before.body + [StmtItem(s)] && mid.nextMark == before.nextMark;
    CollectFromShift(runtime, mid, b);
  }

  /** The items of a module that are module declarations, in order. */
  function Declarations(items: seq<ModuleItem>): seq<ModuleItem> {
    if items == [] then []
    else Declarations(items[..|items| - 1]) + (if items[|items| - 1].StmtItem? then [] else [items[|items| - 1]])
  }

  /** Plain statements, wherever they stand, change neither the bindings nor the fresh names. */
  lemma {:induction false} StatementsDoNotAffectBindings(runtime: bool, items: seq<ModuleItem>, mark: nat)
    ensures var c := Collect(runtime, items, mark);
            var d := Collect(runtime, Declarations(items), mark);
            c.imports == d.imports && c.exports == d.exports && c.nextMark == d.nextMark
  {
    if items != [] {
      var init := items[..|items| - 1];
      var last := items[|items| - 1];
      StatementsDoNotAffectBindings(runtime, init, mark);
      if !last.StmtItem? {
        CollectFromAppend(runtime, Start(mark), Declarations(init), [last]);
        assert [last][..0] == [];
      } else {
        assert Declarations(items) == Declarations(init);
      }
    }
  }

  // ---------------------------------------------------------------------------
  // The two modes
  // ---------------------------------------------------------------------------

  /** What runtime mode leaves in the body: statements, and default exports of unsupported shape. */
  predicate ScriptItem(item: ModuleItem) {
    item.StmtItem? || (item.moduleDecl.ExportDefaultDecl? && item.moduleDecl.defaultDecl.DefaultTsInterface?)
  }

  /** In runtime mode no import or export syntax survives, but for unsupported default declarations. */
  lemma {:induction false} RuntimeBodyIsScript(items: seq<ModuleItem>, mark: nat)
    ensures var c := Collect(true, items, mark);
            forall k :: 0 <= k < |c.body| ==> ScriptItem(c.body[k])
  {
    if items != [] {
      var init := items[..|items| - 1];
      RuntimeBodyIsScript(init, mark);
      var c := Collect(true, init, mark);
      var e := ItemEffect(true, items[|items| - 1], c.nextMark);
      assert forall k :: 0 <= k < |e.body| ==> ScriptItem(e.body[k]);
    }
  }

  /** Drops import declarations, the only items whose handling depends on the mode for bindings. */
  function WithoutImports(items: seq<ModuleItem>): seq<ModuleItem> {
    if items == [] then []
    else WithoutImports(items[..|items| - 1])
         + (if items[|items| - 1].DeclItem? && items[|items| - 1].moduleDecl.Import? then [] else [items[|items| - 1]])
  }

  /**
    The exports do not depend on the mode; the imports of static mode are
    those of runtime mode without the ones import declarations give.
  */
  lemma {:induction false} BindingsAcrossModes(items: seq<ModuleItem>, mark: nat)
    ensures Collect(true, items, mark).exports == Collect(false, items, mark).exports
    ensures Collect(true, items, mark).nextMark == Collect(false, items, mark).nextMark
    ensures Collect(false, items, mark).imports == Collect(true, WithoutImports(items), mark).imports
  {
    if items != [] {
      var init := items[..|items| - 1];
      var last := items[|items| - 1];
      BindingsAcrossModes(init, mark);
      StaticMarksWithoutImports(init, mark);
      ItemAcrossModes(last, Collect(false, init, mark).nextMark);
      if last.DeclItem? && last.moduleDecl.Import? {
        assert WithoutImports(items) == WithoutImports(init);
      } else {
        CollectFromAppend(true, Start(mark), WithoutImports(init), [last]);
        assert [last][..0] == [];
      }
    }
  }

  lemma {:induction false} StaticMarksWithoutImports(items: seq<ModuleItem>, mark: nat)
    ensures Collect(false, items, mark).nextMark == Collect(true, WithoutImports(items), mark).nextMark
  {
    if items != [] {
      var init := items[..|items| - 1];
      var last := items[|items| - 1];
      StaticMarksWithoutImports(init, mark);
      ItemAcrossModes(last, Collect(false, init, mark).nextMark);
      if last.DeclItem? && last.moduleDecl.Import? {
        assert WithoutImports(items) == WithoutImports(init);
      } else {
        CollectFromAppend(true, Start(mark), WithoutImports(init), [last]);
        assert [last][..0] == [];
      }
    }
  }

  /** One item: the mode changes neither its exports nor its marks, and static mode records no import. */
  lemma ItemAcrossModes(item: ModuleItem, mark: nat)
    ensures ItemEffect(true, item, mark).exports == ItemEffect(false, item, mark).exports
    ensures ItemEffect(true, item, mark).nextMark == ItemEffect(false, item, mark).nextMark
    ensures ItemEffect(false, item, mark).imports ==
      (if item.DeclItem? && item.moduleDecl.Import? then [] else ItemEffect(true, item, mark).imports)
  {
  }

  // ---------------------------------------------------------------------------
  // Per-declaration promises
  // ---------------------------------------------------------------------------

  /** Runtime imports: one record per specifier, in order, with its local name and kind. */
  lemma {:induction false} ImportRecordPerSpecifier(specs: seq<ImportSpecifier>, src: string)
    ensures var r := ImportsOfSpecifiers(specs, src);
      |r| == |specs| &&
      forall k :: 0 <= k < |specs| ==>
        r[k].ident == specs[k].local && r[k].moduleSrc == src &&
        (r[k].moduleType == Default <==> specs[k].ImportDefault?) &&
        (r[k].moduleType == Named <==> specs[k].ImportNamed?) &&
        (r[k].moduleType == NamespaceOrAll <==> specs[k].ImportNamespace?)
  {
    if specs != [] {
      ImportRecordPerSpecifier(specs[..|specs| - 1], src);
    }
  }

  /** The value specifiers of `export { ... } from src` whose original name is an identifier. */
  function ReExportedSpecifiers(specs: seq<ExportSpecifier>): seq<ExportSpecifier> {
    if specs == [] then []
    else ReExportedSpecifiers(specs[..|specs| - 1])
         + (if specs[|specs| - 1].ExportNamedSpec? && specs[|specs| - 1].orig.NameIdent? then [specs[|specs| - 1]] else [])
  }

  /** The name under which a re-exported specifier is exported: its alias, or else its original name. */
  function ReExportedName(spec: ExportSpecifier): string
    requires spec.ExportNamedSpec? && spec.orig.NameIdent?
  {
    if spec.exported.Some? && spec.exported.value.NameIdent? then spec.exported.value.id.sym else spec.orig.id.sym
  }

  /**
    `export { x, default as y } from src`: each identifier specifier gives
    exactly one import and one Named export sharing one fresh binding, named
    `__default` for `default` and after the original name otherwise; the
    import is DefaultAsNamed exactly for `default`, and the export is
    aliased to the name the specifier exports.
  */
  lemma {:induction false} ReExportPairs(specs: seq<ExportSpecifier>, src: string, mark: nat)
    ensures var r := ReExportsOfSpecifiers(specs, src, mark);
      var named := ReExportedSpecifiers(specs);
      |r.imports| == |r.exports| == |named| && r.nextMark == mark + |named| &&
      forall k :: 0 <= k < |named| ==>
        named[k].ExportNamedSpec? && named[k].orig.NameIdent? &&
        r.imports[k].ident == r.exports[k].ident ==
          PrivateIdent(if named[k].orig.id.sym == "default" then "__default" else named[k].orig.id.sym, mark + k) &&
        r.imports[k].moduleSrc == src &&
        (r.imports[k].moduleType == DefaultAsNamed <==> named[k].orig.id.sym == "default") &&
        (r.imports[k].moduleType == Named <==> named[k].orig.id.sym != "default") &&
        r.exports[k].moduleType == Named &&
        r.exports[k].asIdent.Some? && r.exports[k].asIdent.value.sym == ReExportedName(named[k])
  {
    if specs != [] {
      ReExportPairs(specs[..|specs| - 1], src, mark);
    }
  }

  /** The value specifiers of a local `export { ... }` whose original name is an identifier. */
  predicate ExportsLocally(spec: ExportSpecifier) {
    spec.ExportNamedSpec? && spec.orig.NameIdent? && !spec.isTypeOnly
  }

  /** The specifiers of a local `export { ... }` that export something, in order. */
  function LocallyExported(specs: seq<ExportSpecifier>): (r: seq<ExportSpecifier>)
    ensures forall k :: 0 <= k < |r| ==> ExportsLocally(r[k]) && r[k] in specs
    ensures forall j :: 0 <= j < |specs| && ExportsLocally(specs[j]) ==> specs[j] in r
  {
    if specs == [] then []
    else
      var init := specs[..|specs| - 1];
      var r := LocallyExported(init) + (if ExportsLocally(specs[|specs| - 1]) then [specs[|specs| - 1]] else []);
      assert forall j :: 0 <= j < |init| ==> init[j] == specs[j];
      r
  }

  /** The export a local specifier gives: its original identifier, aliased by an identifier `as` name only. */
  function LocalExportOf(spec: ExportSpecifier): ExportModule
    requires ExportsLocally(spec)
  {
    NamedExport(spec.orig.id, if spec.exported.Some? && spec.exported.value.NameIdent? then Some(spec.exported.value.id) else None)
  }

  /**
    `export { a, b as c }`: one Named export per identifier value specifier,
    in specifier order, of the original identifier and aliased exactly when
    the specifier has an identifier alias; no other specifier exports anything.
  */
  lemma {:induction false} LocalExportPerSpecifier(specs: seq<ExportSpecifier>)
    ensures var r := LocalSpecifierExports(specs);
      var listed := LocallyExported(specs);
      |r| == |listed| && forall k :: 0 <= k < |listed| ==> r[k] == LocalExportOf(listed[k])
    ensures forall e :: e in LocalSpecifierExports(specs) ==>
      e.moduleType == Named &&
      exists j :: 0 <= j < |specs| && ListsLocally(specs[j], e.ident)
  {
    LocalExportsInOrder(specs);
    LocalExportsListed(specs);
  }

  lemma {:induction false} LocalExportsInOrder(specs: seq<ExportSpecifier>)
    ensures var r := LocalSpecifierExports(specs);
      var listed := LocallyExported(specs);
      |r| == |listed| && forall k :: 0 <= k < |listed| ==> r[k] == LocalExportOf(listed[k])
  {
    if specs != [] {
      var init := specs[..|specs| - 1];
      var last := specs[|specs| - 1];
      LocalExportsInOrder(init);
      assert LocalSpecifierExport(last) == if ExportsLocally(last) then [LocalExportOf(last)] else [];
    }
  }

  lemma {:induction false} LocalExportsListed(specs: seq<ExportSpecifier>)
    ensures forall e :: e in LocalSpecifierExports(specs) ==>
      e.moduleType == Named &&
      exists j :: 0 <= j < |specs| && ListsLocally(specs[j], e.ident)
  {
    if specs != [] {
      LocalExportsListed(specs[..|specs| - 1]);
    }
  }

  /**
    `export var/function/class`: at most one Named export without alias, of
    the function's or class's name or of the first declarator's identifier
    (a name the declaration binds), none exactly when the declaration has no
    name or its first declarator is a pattern; runtime mode keeps the plain
    declaration, static mode the export declaration.
  */
  lemma ExportDeclMeaning(runtime: bool, decl: Decl, mark: nat)
    ensures var e := ItemEffect(runtime, DeclItem(ExportDecl(decl)), mark);
      e.imports == [] && e.nextMark == mark && |e.exports| <= 1 &&
      (forall x :: x in e.exports ==> x.moduleType == Named && x.asIdent.None? && DeclBinds(decl, x.ident)) &&
      (decl.FnDecl? ==> e.exports == [NamedExport(decl.fnIdent, None)]) &&
      (decl.ClassDecl? ==> e.exports == [NamedExport(decl.classIdent, None)]) &&
      (decl.VarDecl? && |decl.decls| > 0 && decl.decls[0].name.BindingIdent? ==>
        e.exports == [NamedExport(decl.decls[0].name.id, None)]) &&
      (|e.exports| == 0 <==> decl.OtherDecl? || (decl.VarDecl? && (|decl.decls| == 0 || !decl.decls[0].name.BindingIdent?))) &&
      e.body == [if runtime then StmtItem(DeclStmt(decl)) else DeclItem(ExportDecl(decl))]
  {
    if decl.VarDecl? && |decl.decls| > 0 && decl.decls[0].name.BindingIdent? {
      assert decl.decls[0].name == BindingIdent(decl.decls[0].name.id);
    }
  }

  /**
    `export default`: a named function or class is exported as the default
    under its own name and becomes a plain declaration; an anonymous one,
    like any `export default <expr>`, is bound to a fresh `__export_default`
    constant. The first new item carries the function's or class's code
    unchanged. Static mode follows it with `export default <ident>`. A
    default declaration of another shape records nothing and stays as it is.
  */
  lemma DefaultExportMeaning(runtime: bool, dd: DefaultDecl, mark: nat)
    ensures var e := ItemEffect(runtime, DeclItem(ExportDefaultDecl(dd)), mark);
      e.imports == [] &&
      (dd.DefaultTsInterface? <==> e.exports == []) &&
      (dd.DefaultTsInterface? ==> e.body == [DeclItem(ExportDefaultDecl(dd))] && e.nextMark == mark) &&
      (!dd.DefaultTsInterface? ==>
        var id := e.exports[0].ident;
        |e.exports| == 1 && e.exports[0] == DefaultExport(id) && ItemBinds(e.body[0], id) &&
        (if dd.DefaultFn? && dd.fnIdent.Some? then id == dd.fnIdent.value && e.nextMark == mark
         else if dd.DefaultClass? && dd.classIdent.Some? then id == dd.classIdent.value && e.nextMark == mark
         else id == PrivateIdent("__export_default", mark) && e.nextMark == mark + 1) &&
        e.body[1..] == (if runtime then [] else [DeclItem(ExportDefaultExpr(IdentExpr(id)))]))
    ensures var e := ItemEffect(runtime, DeclItem(ExportDefaultDecl(dd)), mark);
      var anon := PrivateIdent("__export_default", mark);
      match dd
      case DefaultFn(Some(f), b) => e.body[0] == StmtItem(DeclStmt(FnDecl(f, b)))
      case DefaultFn(None, b) => e.body[0] == StmtItem(Utils.DeclVarAndAssignStmt(anon, FnExpr(None, b)))
      case DefaultClass(Some(c), b) => e.body[0] == StmtItem(DeclStmt(ClassDecl(c, b)))
      case DefaultClass(None, b) => e.body[0] == StmtItem(Utils.DeclVarAndAssignStmt(anon, ClassExpr(None, b)))
      case DefaultTsInterface(_) => e.body[0] == DeclItem(ExportDefaultDecl(dd))
  {
    match ConvertDefaultDecl(dd, mark)
    case Some((id, stmt)) =>
      if stmt.decl.VarDecl? {
        assert stmt.decl.decls[0].name == BindingIdent(id);
      }
    case None =>
  }

  /** `export default <expr>`: a fresh `__export_default` constant holding the expression, exported as the default. */
  lemma DefaultExprMeaning(runtime: bool, x: Expr, mark: nat)
    ensures var e := ItemEffect(runtime, DeclItem(ExportDefaultExpr(x)), mark);
      var id := PrivateIdent("__export_default", mark);
      e.imports == [] && e.exports == [DefaultExport(id)] && e.nextMark == mark + 1 &&
      e.body[0] == StmtItem(Utils.DeclVarAndAssignStmt(id, x)) && ItemBinds(e.body[0], id) &&
      e.body[1..] == (if runtime then [] else [DeclItem(ExportDefaultExpr(IdentExpr(id)))])
  {
    var id := PrivateIdent("__export_default", mark);
    assert Utils.DeclVarAndAssignStmt(id, x).decl.decls[0].name == BindingIdent(id);
  }

  /**
    `export * from src` and `export * as ns from src`: one namespace import
    of `src` under a fresh binding, exported as a spread or under `ns`.
  */
  lemma ExportStarMeaning(runtime: bool, src: string, specs: seq<ExportSpecifier>, mark: nat)
    ensures var e := ItemEffect(runtime, DeclItem(ExportAll(src, false)), mark);
      var id := PrivateIdent("__re_export_all", mark);
      e.imports == [ImportModule(id, src, NamespaceOrAll)] && e.exports == [AllExport(id)] &&
      e.nextMark == mark + 1 && e.body == (if runtime then [] else [DeclItem(ExportAll(src, false))])
    ensures IsNamespaceReExport(specs) ==>
      var e := ItemEffect(runtime, DeclItem(ExportNamed(specs, Some(src), false)), mark);
      var id := PrivateIdent("__re_export", mark);
      e.imports == [ImportModule(id, src, NamespaceOrAll)] &&
      e.exports == [NamedExport(id, Some(specs[0].name.id))] && e.nextMark == mark + 1 &&
      e.body == (if runtime then [] else [DeclItem(ExportNamed(specs, Some(src), false))])
  {
  }

  // ---------------------------------------------------------------------------
  // Every export resolves to a binding
  // ---------------------------------------------------------------------------

  /** `spec` is `id` or `id as x` in a value (not type-only) specifier list. */
  predicate ListsLocally(spec: ExportSpecifier, id: Ident) {
    spec.ExportNamedSpec? && spec.orig == NameIdent(id) && !spec.isTypeOnly
  }

  ghost predicate ImportsBind(imports: seq<ImportModule>, id: Ident) {
    exists k :: 0 <= k < |imports| && imports[k].ident == id
  }

  /** `id` is named by a value specifier of a local `export { ... }` among `items`. */
  ghost predicate LocallyListed(items: seq<ModuleItem>, id: Ident) {
    exists k, j :: 0 <= k < |items| && items[k].DeclItem? && items[k].moduleDecl.ExportNamed? &&
      items[k].moduleDecl.namedSrc.None? && !items[k].moduleDecl.typeOnly &&
      0 <= j < |items[k].moduleDecl.exportSpecifiers| &&
      ListsLocally(items[k].moduleDecl.exportSpecifiers[j], id)
  }

  lemma ReExportsAreImported(specs: seq<ExportSpecifier>, src: string, mark: nat)
    ensures var r := ReExportsOfSpecifiers(specs, src, mark);
      forall e :: e in r.exports ==> ImportsBind(r.imports, e.ident)
  {
    ReExportPairs(specs, src, mark);
    var r := ReExportsOfSpecifiers(specs, src, mark);
    forall e | e in r.exports ensures ImportsBind(r.imports, e.ident) {
      var k :| 0 <= k < |r.exports| && r.exports[k] == e;
      assert r.imports[k].ident == e.ident;
    }
  }

  /** Each export one item records is declared by the body it produces, imported by it, or listed by it. */
  lemma ItemExportsResolve(runtime: bool, item: ModuleItem, mark: nat)
    ensures var e := ItemEffect(runtime, item, mark);
      forall x :: x in e.exports ==>
        BodyBinds(e.body, x.ident) || ImportsBind(e.imports, x.ident) || LocallyListed([item], x.ident)
  {
    var e := ItemEffect(runtime, item, mark);
    match item
    case StmtItem(_) =>
    case DeclItem(d) =>
      match d {
        case ExportDecl(decl) =>
          forall x | x in e.exports ensures BodyBinds(e.body, x.ident) {
            assert ItemBinds(e.body[0], x.ident);
          }
        case ExportDefaultDecl(dd) =>
          match ConvertDefaultDecl(dd, mark) {
            case Some((id, stmt)) =>
              Utils.DeclVarAndAssignBindsOnlyName(id, Ast.FnExpr(None, Code(0)), id);
              if dd.DefaultFn? && dd.fnIdent.None? {
                Utils.DeclVarAndAssignBindsOnlyName(id, FnExpr(None, dd.fnBody), id);
              } else if dd.DefaultClass? && dd.classIdent.None? {
                Utils.DeclVarAndAssignBindsOnlyName(id, ClassExpr(None, dd.classBody), id);
              }
              assert ItemBinds(e.body[0], id);
            case None =>
          }
        case ExportDefaultExpr(ex) =>
          var id := PrivateIdent("__export_default", mark);
          Utils.DeclVarAndAssignBindsOnlyName(id, ex, id);
          assert ItemBinds(e.body[0], id);
        case ExportNamed(specs, src, false) =>
          if src.None? {
            LocalExportPerSpecifier(specs);
            forall x | x in e.exports ensures LocallyListed([item], x.ident) {
              var j :| 0 <= j < |specs| && ListsLocally(specs[j], x.ident);
              assert [item][0] == item;
            }
          } else if IsNamespaceReExport(specs) {
            assert e.imports[0].ident == e.exports[0].ident;
          } else {
            ReExportsAreImported(specs, src.value, mark);
          }
        case ExportAll(src, false) =>
          assert e.imports[0].ident == e.exports[0].ident;
        case _ =>
      }
  }

  lemma BodyBindsAppend(a: seq<ModuleItem>, b: seq<ModuleItem>, id: Ident)
    ensures BodyBinds(a, id) || BodyBinds(b, id) ==> BodyBinds(a + b, id)
  {
    if BodyBinds(a, id) {
      var k :| 0 <= k < |a| && ItemBinds(a[k], id);
      assert (a + b)[k] == a[k];
    } else if BodyBinds(b, id) {
      var k :| 0 <= k < |b| && ItemBinds(b[k], id);
      assert (a + b)[|a| + k] == b[k];
    }
  }

  lemma ImportsBindAppend(a: seq<ImportModule>, b: seq<ImportModule>, id: Ident)
    ensures ImportsBind(a, id) || ImportsBind(b, id) ==> ImportsBind(a + b, id)
  {
    if ImportsBind(a, id) {
      var k :| 0 <= k < |a| && a[k].ident == id;
      assert (a + b)[k] == a[k];
    } else if ImportsBind(b, id) {
      var k :| 0 <= k < |b| && b[k].ident == id;
      assert (a + b)[|a| + k] == b[k];
    }
  }

  /**
    Every recorded export names a binding of the rewritten module: a
    declaration left in the body, a binding the emitter will import, or a
    name the user listed in a local `export { ... }`.
  */
  lemma {:induction false} ExportsResolve(runtime: bool, items: seq<ModuleItem>, mark: nat)
    ensures var c := Collect(runtime, items, mark);
      forall x :: x in c.exports ==>
        BodyBinds(c.body, x.ident) || ImportsBind(c.imports, x.ident) || LocallyListed(items, x.ident)
  {
    if items != [] {
      var init := items[..|items| - 1];
      var last := items[|items| - 1];
      ExportsResolve(runtime, init, mark);
      var c := Collect(runtime, init, mark);
      var e := ItemEffect(runtime, last, c.nextMark);
      ItemExportsResolve(runtime, last, c.nextMark);
      var c' := Collect(runtime, items, mark);
      forall x | x in c'.exports
        ensures BodyBinds(c'.body, x.ident) || ImportsBind(c'.imports, x.ident) || LocallyListed(items, x.ident)
      {
        BodyBindsAppend(c.body, e.body, x.ident);
        ImportsBindAppend(c.imports, e.imports, x.ident);
        if x in c.exports {
          if LocallyListed(init, x.ident) {
            var k, j :| 0 <= k < |init| && init[k].DeclItem? && init[k].moduleDecl.ExportNamed? &&
              init[k].moduleDecl.namedSrc.None? && !init[k].moduleDecl.typeOnly &&
              0 <= j < |init[k].moduleDecl.exportSpecifiers| &&
              ListsLocally(init[k].moduleDecl.exportSpecifiers[j], x.ident);
            assert items[k] == init[k];
          }
        } else {
          assert x in e.exports;
          if LocallyListed([last], x.ident) {
            var k, j :| 0 <= k < 1 && [last][k].DeclItem? && [last][k].moduleDecl.ExportNamed? &&
              [last][k].moduleDecl.namedSrc.None? && !last.moduleDecl.typeOnly &&
              0 <= j < |[last][k].moduleDecl.exportSpecifiers| &&
              ListsLocally([last][k].moduleDecl.exportSpecifiers[j], x.ident);
            assert items[|items| - 1] == [last][k];
          }
        }
      }
    }
  }
}

module ModuleCollectorHygiene {
  import opened Ast
  import opened Bindings
  import opened ModuleCollector
  import ModuleCollectorProps

  // ---------------------------------------------------------------------------
  // Fresh identifiers never collide
  // ---------------------------------------------------------------------------

  /** The names the user wrote that the pass may copy into a record carry no private mark. */
  predicate UserWritten(item: ModuleItem) {
    match item
    case StmtItem(_) => true
    case DeclItem(d) =>
      match d
      case Import(specs, _, _) => forall k :: 0 <= k < |specs| ==> specs[k].local.mark == Plain
      case ExportDecl(decl) => DeclNamesPlain(decl)
      case ExportDefaultDecl(DefaultFn(f, _)) => f.Some? ==> f.value.mark == Plain
      case ExportDefaultDecl(DefaultClass(c, _)) => c.Some? ==> c.value.mark == Plain
      case ExportNamed(specs, _, _) =>
        forall k :: 0 <= k < |specs| && specs[k].ExportNamedSpec? && specs[k].orig.NameIdent? ==>
          specs[k].orig.id.mark == Plain
      case _ => true
  }

  predicate DeclNamesPlain(d: Decl) {
    match d
    case VarDecl(_, _, decls) =>
      forall k :: 0 <= k < |decls| && decls[k].name.BindingIdent? ==> decls[k].name.id.mark == Plain
    case FnDecl(f, _) => f.mark == Plain
    case ClassDecl(c, _) => c.mark == Plain
    case OtherDecl(_) => true
  }

  /** The identifiers of a sequence of records, `f` projecting one out of each. */
  function Idents<T>(s: seq<T>, f: T -> Ident): (r: seq<Ident>)
    ensures |r| == |s| && forall k :: 0 <= k < |s| ==> r[k] == f(s[k])
  {
    seq(|s|, k requires 0 <= k < |s| => f(s[k]))
  }

  function ImportIdent(im: ImportModule): Ident { im.ident }

  function ExportIdent(ex: ExportModule): Ident { ex.ident }

  /**
    The private identifiers among `ids` were made with marks in `[lo, hi)`,
    in increasing order of their marks.
  */
  predicate FreshOrdered(ids: seq<Ident>, lo: nat, hi: nat) {
    (forall i :: 0 <= i < |ids| && ids[i].mark.Private? ==> PrivateIn(ids[i], lo, hi)) &&
    (forall i, j :: 0 <= i < j < |ids| && ids[i].mark.Private? && ids[j].mark.Private? ==>
       ids[i].mark.id < ids[j].mark.id)
  }

  lemma FreshOrderedAppend(a: seq<Ident>, b: seq<Ident>, lo: nat, mid: nat, hi: nat)
    requires FreshOrdered(a, lo, mid) && FreshOrdered(b, mid, hi) && lo <= mid <= hi
    ensures FreshOrdered(a + b, lo, hi)
  {
    forall i, j | 0 <= i < j < |a + b| && (a + b)[i].mark.Private? && (a + b)[j].mark.Private?
      ensures (a + b)[i].mark.id < (a + b)[j].mark.id
    {
      if j < |a| {
        assert (a + b)[i] == a[i] && (a + b)[j] == a[j];
      } else if i < |a| {
        assert (a + b)[i] == a[i] && (a + b)[j] == b[j - |a|];
      } else {
        assert (a + b)[i] == b[i - |a|] && (a + b)[j] == b[j - |a|];
      }
    }
  }

  lemma NoneFresh(ids: seq<Ident>, lo: nat, hi: nat)
    requires forall k :: 0 <= k < |ids| ==> ids[k].mark == Plain
    ensures FreshOrdered(ids, lo, hi)
  {
  }

  lemma {:induction false} ReExportsFresh(specs: seq<ExportSpecifier>, src: string, mark: nat)
    ensures var r := ReExportsOfSpecifiers(specs, src, mark);
      mark <= r.nextMark &&
      FreshOrdered(Idents(r.imports, ImportIdent), mark, r.nextMark) &&
      FreshOrdered(Idents(r.exports, ExportIdent), mark, r.nextMark)
  {
    ModuleCollectorProps.ReExportPairs(specs, src, mark);
  }

  /** Each item makes its private identifiers from the marks it consumes, in order. */
  lemma ItemFresh(runtime: bool, item: ModuleItem, mark: nat)
    requires UserWritten(item)
    ensures var e := ItemEffect(runtime, item, mark);
      mark <= e.nextMark &&
      FreshOrdered(Idents(e.imports, ImportIdent), mark, e.nextMark) &&
      FreshOrdered(Idents(e.exports, ExportIdent), mark, e.nextMark)
  {
    var e := ItemEffect(runtime, item, mark);
    match item
    case StmtItem(_) =>
    case DeclItem(d) =>
      match d {
        case Import(specs, src, _) =>
          if runtime {
            ModuleCollectorProps.ImportRecordPerSpecifier(specs, src);
            NoneFresh(Idents(e.imports, ImportIdent), mark, e.nextMark);
          }
        case ExportDecl(decl) =>
        case ExportNamed(specs, src, false) =>
          if src.None? {
            ModuleCollectorProps.LocalExportPerSpecifier(specs);
            forall k | 0 <= k < |e.exports| ensures e.exports[k].ident.mark == Plain {
              assert e.exports[k] in e.exports;
              var j :| 0 <= j < |specs| && ModuleCollectorProps.ListsLocally(specs[j], e.exports[k].ident);
            }
            NoneFresh(Idents(e.exports, ExportIdent), mark, e.nextMark);
          } else if !IsNamespaceReExport(specs) {
            ReExportsFresh(specs, src.value, mark);
          }
        case _ =>
      }
  }

  /**
    Over a whole module: the counter only moves forward, and the private
    identifiers recorded as imports, and those recorded as exports, carry
    marks from the range the pass consumed, each one new.
  */
  lemma {:induction false} CollectFresh(runtime: bool, items: seq<ModuleItem>, mark: nat)
    requires forall k :: 0 <= k < |items| ==> UserWritten(items[k])
    ensures var c := Collect(runtime, items, mark);
      mark <= c.nextMark &&
      FreshOrdered(Idents(c.imports, ImportIdent), mark, c.nextMark) &&
      FreshOrdered(Idents(c.exports, ExportIdent), mark, c.nextMark)
  {
    if items != [] {
      var init := items[..|items| - 1];
      CollectFresh(runtime, init, mark);
      var c := Collect(runtime, init, mark);
      var e := ItemEffect(runtime, items[|items| - 1], c.nextMark);
      ItemFresh(runtime, items[|items| - 1], c.nextMark);
      FreshOrderedAppend(Idents(c.imports, ImportIdent), Idents(e.imports, ImportIdent), mark, c.nextMark, e.nextMark);
      FreshOrderedAppend(Idents(c.exports, ExportIdent), Idents(e.exports, ExportIdent), mark, c.nextMark, e.nextMark);
      assert Idents(c.imports + e.imports, ImportIdent) == Idents(c.imports, ImportIdent) + Idents(e.imports, ImportIdent);
      assert Idents(c.exports + e.exports, ExportIdent) == Idents(c.exports, ExportIdent) + Idents(e.exports, ExportIdent);
    }
  }

  /**
    No two import records, and no two export records, share a private
    identifier, and no private identifier equals one the user wrote.
  */
  lemma PrivateBindingsDistinct(runtime: bool, items: seq<ModuleItem>, mark: nat)
    requires forall k :: 0 <= k < |items| ==> UserWritten(items[k])
    ensures var c := Collect(runtime, items, mark);
      (forall i, j :: 0 <= i < |c.imports| && 0 <= j < |c.imports| && i != j && c.imports[i].ident.mark.Private? ==>
         c.imports[i].ident != c.imports[j].ident) &&
      (forall i, j :: 0 <= i < |c.exports| && 0 <= j < |c.exports| && i != j && c.exports[i].ident.mark.Private? ==>
         c.exports[i].ident != c.exports[j].ident)
  {
    CollectFresh(runtime, items, mark);
    var c := Collect(runtime, items, mark);
    var im := Idents(c.imports, ImportIdent);
    var ex := Idents(c.exports, ExportIdent);
    forall i, j | 0 <= i < |c.imports| && 0 <= j < |c.imports| && i != j && c.imports[i].ident.mark.Private?
      ensures c.imports[i].ident != c.imports[j].ident
    {
      assert im[i] == c.imports[i].ident && im[j] == c.imports[j].ident;
    }
    forall i, j | 0 <= i < |c.exports| && 0 <= j < |c.exports| && i != j && c.exports[i].ident.mark.Private?
      ensures c.exports[i].ident != c.exports[j].ident
    {
      assert ex[i] == c.exports[i].ident && ex[j] == c.exports[j].ident;
    }
  }
}
