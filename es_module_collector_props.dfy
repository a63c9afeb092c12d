/**
  How the older collector (es_module_collector.dfy) relates to the collector
  the emitter uses (module_collector.dfy): it stops exactly on string aliases
  in export specifiers, and otherwise records the same bindings and leaves the same body without its empty statements.
*/
module EsModuleCollectorProps {
  import opened Ast
  import opened Bindings
  import opened ModuleCollector
  import opened EsModuleCollector

  /** `orig as "str"` in a local `export { ... }`. */
  predicate LocalStrAlias(spec: ExportSpecifier) {
    spec.ExportNamedSpec? && spec.orig.NameIdent? && !spec.isTypeOnly &&
    spec.exported.Some? && spec.exported.value.NameStr?
  }

  /** `orig as "str"` in `export { ... } from src`. */
  predicate ReStrAlias(spec: ExportSpecifier) {
    spec.ExportNamedSpec? && spec.orig.NameIdent? && spec.exported.Some? && spec.exported.value.NameStr?
  }

  /** The items on which the older collector calls `unimplemented!`. */
  predicate Stops(item: ModuleItem) {
    item.DeclItem? && item.moduleDecl.ExportNamed? && !item.moduleDecl.typeOnly &&
    var specs := item.moduleDecl.exportSpecifiers;
    if item.moduleDecl.namedSrc.None? then exists k :: 0 <= k < |specs| && LocalStrAlias(specs[k])
    else !IsNamespaceReExport(specs) && exists k :: 0 <= k < |specs| && ReStrAlias(specs[k])
  }

  lemma {:induction false} LocalExportsAgree(specs: seq<ExportSpecifier>)
    ensures EsLocalSpecifierExports(specs).None? <==> exists k :: 0 <= k < |specs| && LocalStrAlias(specs[k])
    ensures EsLocalSpecifierExports(specs).Some? ==> EsLocalSpecifierExports(specs).value == LocalSpecifierExports(specs)
  {
    if specs != [] {
      var init := specs[..|specs| - 1];
      LocalExportsAgree(init);
      if exists k :: 0 <= k < |init| && LocalStrAlias(init[k]) {
        var k :| 0 <= k < |init| && LocalStrAlias(init[k]);
        assert specs[k] == init[k];
      }
      if exists k :: 0 <= k < |specs| && LocalStrAlias(specs[k]) {
        var k :| 0 <= k < |specs| && LocalStrAlias(specs[k]);
        if k < |init| {
          assert init[k] == specs[k];
        }
      }
    }
  }

  lemma {:induction false} ReExportsAgree(specs: seq<ExportSpecifier>, src: string, mark: nat)
    ensures EsReExportsOfSpecifiers(specs, src, mark).None? <==> exists k :: 0 <= k < |specs| && ReStrAlias(specs[k])
    ensures EsReExportsOfSpecifiers(specs, src, mark).Some? ==>
      EsReExportsOfSpecifiers(specs, src, mark).value == ReExportsOfSpecifiers(specs, src, mark)
  {
    if specs != [] {
      var init := specs[..|specs| - 1];
      ReExportsAgree(init, src, mark);
      if exists k :: 0 <= k < |init| && ReStrAlias(init[k]) {
        var k :| 0 <= k < |init| && ReStrAlias(init[k]);
        assert specs[k] == init[k];
      }
      if exists k :: 0 <= k < |specs| && ReStrAlias(specs[k]) {
        var k :| 0 <= k < |specs| && ReStrAlias(specs[k]);
        if k < |init| {
          assert init[k] == specs[k];
        }
      }
    }
  }

  lemma {:induction false} RemoveEmptyAppend(a: seq<ModuleItem>, b: seq<ModuleItem>)
    ensures RemoveEmpty(a + b) == RemoveEmpty(a) + RemoveEmpty(b)
    decreases |b|
  {
    if b == [] {
      assert a + b == a;
    } else {
      var b' := b[..|b| - 1];
      assert (a + b)[..|a + b| - 1] == a + b';
      assert (a + b)[|a + b| - 1] == b[|b| - 1];
      RemoveEmptyAppend(a, b');
    }
  }

  /** The body the older collector leaves holds no empty statement, and loses nothing else. */
  lemma {:induction false} RemoveEmptyExact(body: seq<ModuleItem>)
    ensures forall k :: 0 <= k < |RemoveEmpty(body)| ==> !IsEmptyItem(RemoveEmpty(body)[k])
    ensures forall x :: x in body && !IsEmptyItem(x) <==> x in RemoveEmpty(body)
  {
    if body != [] {
      RemoveEmptyExact(body[..|body| - 1]);
      assert body == body[..|body| - 1] + [body[|body| - 1]];
    }
  }

  /** One item: the older collector stops exactly on `Stops`, and otherwise agrees. */
  lemma EsItemAgrees(runtime: bool, item: ModuleItem, mark: nat)
    ensures EsItemEffect(runtime, item, mark).None? <==> Stops(item)
    ensures var es := EsItemEffect(runtime, item, mark);
      var mc := ItemEffect(runtime, item, mark);
      es.Some? ==>
        RemoveEmpty(es.value.body) == RemoveEmpty(mc.body) && es.value.imports == mc.imports &&
        es.value.exports == mc.exports && es.value.nextMark == mc.nextMark
  {
    match item
    case StmtItem(_) =>
    case DeclItem(d) =>
      match d {
        case ExportDefaultDecl(dd) =>
          DefaultDeclAgrees(runtime, dd, mark);
        case ExportDefaultExpr(e) =>
          DefaultExprAgrees(runtime, e, mark);
        case ExportNamed(specs, src, false) =>
          NamedAgrees(runtime, specs, src, mark);
        case _ =>
      }
  }

  /** The older collector handles `item` as the other one does, up to empty statements. */
  predicate ItemAgree(runtime: bool, item: ModuleItem, mark: nat) {
    (EsItemEffect(runtime, item, mark).None? <==> Stops(item)) &&
    (EsItemEffect(runtime, item, mark).Some? ==> Agree(EsItemEffect(runtime, item, mark).value, ItemEffect(runtime, item, mark)))
  }

  /** The empty statement after a converted default export is dropped, and only it. */
  lemma TailAgrees(runtime: bool, first: ModuleItem, id: Ident)
    ensures RemoveEmpty([first, DefaultTail(runtime, id)]) == RemoveEmpty([first] + StaticDefaultExport(runtime, id))
  {
    RemoveEmptyAppend([first], [DefaultTail(runtime, id)]);
    RemoveEmptyAppend([first], StaticDefaultExport(runtime, id));
    assert [first, DefaultTail(runtime, id)] == [first] + [DefaultTail(runtime, id)];
    assert [DefaultTail(runtime, id)][..0] == [];
    if !runtime {
      assert [DeclItem(DefaultExportStmt(id))][..0] == [];
    }
  }

  lemma DefaultDeclAgrees(runtime: bool, dd: DefaultDecl, mark: nat)
    ensures ItemAgree(runtime, DeclItem(ExportDefaultDecl(dd)), mark)
  {
    match ConvertDefaultDecl(dd, mark) {
      case Some((id, stmt)) =>
        TailAgrees(runtime, StmtItem(stmt), id);
      case None =>
    }
  }

  lemma DefaultExprAgrees(runtime: bool, e: Expr, mark: nat)
    ensures ItemAgree(runtime, DeclItem(ExportDefaultExpr(e)), mark)
  {
    var id := PrivateIdent("__export_default", mark);
    TailAgrees(runtime, StmtItem(Utils.DeclVarAndAssignStmt(id, e)), id);
  }

  lemma NamedAgrees(runtime: bool, specs: seq<ExportSpecifier>, src: Option<string>, mark: nat)
    ensures ItemAgree(runtime, DeclItem(ExportNamed(specs, src, false)), mark)
  {
    if src.None? {
      LocalExportsAgree(specs);
    } else if !IsNamespaceReExport(specs) {
      ReExportsAgree(specs, src.value, mark);
    }
  }

  /**
    Over a whole module: the older collector stops if and only if some item
    has a string alias; otherwise its bindings and marks are those of the
    collector the emitter uses and its body is that
    collector's body without empty statements.
  */
  lemma {:induction false} EsAgrees(runtime: bool, items: seq<ModuleItem>, mark: nat)
    ensures EsCollect(runtime, items, mark).None? <==> exists k :: 0 <= k < |items| && Stops(items[k])
    ensures var es := EsCollect(runtime, items, mark);
      var mc := Collect(runtime, items, mark);
      es.Some? ==>
        es.value.body == RemoveEmpty(mc.body) && es.value.imports == mc.imports &&
        es.value.exports == mc.exports && es.value.nextMark == mc.nextMark
  {
    EsCollectFromAgrees(runtime, items, mark);
  }

  /** `es` is what the older collector has produced where the other produced `mc`. */
  predicate Agree(es: Collected, mc: Collected) {
    RemoveEmpty(es.body) == RemoveEmpty(mc.body) && es.imports == mc.imports &&
    es.exports == mc.exports && es.nextMark == mc.nextMark
  }

  lemma StepAgrees(runtime: bool, es: Collected, mc: Collected, item: ModuleItem)
    requires Agree(es, mc) && !Stops(item)
    ensures EsStep(runtime, Some(es), item).Some?
    ensures Agree(EsStep(runtime, Some(es), item).value, Step(runtime, mc, item))
  {
    EsItemAgrees(runtime, item, mc.nextMark);
    var e := EsItemEffect(runtime, item, mc.nextMark).value;
    var m := ItemEffect(runtime, item, mc.nextMark);
    assert EsStep(runtime, Some(es), item) ==
      Some(Collected(es.body + e.body, es.imports + e.imports, es.exports + e.exports, e.nextMark));
    RemoveEmptyAppend(es.body, e.body);
    RemoveEmptyAppend(mc.body, m.body);
  }

  /** Some item stops iff one before the last does or the last does. */
  lemma StopsSplit(items: seq<ModuleItem>)
    requires items != []
    ensures var init := items[..|items| - 1];
      (exists k :: 0 <= k < |items| && Stops(items[k])) <==>
      (exists k :: 0 <= k < |init| && Stops(init[k])) || Stops(items[|items| - 1])
  {
    var init := items[..|items| - 1];
    if exists k :: 0 <= k < |items| && Stops(items[k]) {
      var k :| 0 <= k < |items| && Stops(items[k]);
      if k < |init| {
        assert init[k] == items[k];
      }
    }
    if exists k :: 0 <= k < |init| && Stops(init[k]) {
      var k :| 0 <= k < |init| && Stops(init[k]);
      assert items[k] == init[k];
    }
  }

  lemma {:induction false} EsCollectFromAgrees(runtime: bool, items: seq<ModuleItem>, mark: nat)
    ensures var es := EsCollectFrom(runtime, Some(Collected([], [], [], mark)), items);
      (es.None? <==> exists k :: 0 <= k < |items| && Stops(items[k])) &&
      (es.Some? ==> Agree(es.value, Collect(runtime, items, mark)))
  {
    if items != [] {
      var init := items[..|items| - 1];
      var last := items[|items| - 1];
      EsCollectFromAgrees(runtime, init, mark);
      var prev := EsCollectFrom(runtime, Some(Collected([], [], [], mark)), init);
      StopsSplit(items);
      if prev.Some? && !Stops(last) {
        StepAgrees(runtime, prev.value, Collect(runtime, init, mark), last);
      } else if prev.Some? {
        EsItemAgrees(runtime, last, prev.value.nextMark);
      }
    }
  }
}
