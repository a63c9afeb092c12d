/**
  The small vocabulary of syntax constructors the emitters build their output
  from (transform/src/utils.rs), plus the registry call shape and the object
  literal helper that the emitter imports from helpers whose source is not part
  of this model (their shape is the one the emitted code shows:
  `global.__modules.<methodName>(...)`).
*/
module Utils {
  import Ast

  const Global: string := "global"
  const Modules: string := "__modules"

  /** Registry method names, as the emitted code calls them. */
  const ImportMethod: string := "import"
  const ImportAllMethod: string := "importAll"
  const ExportMethod: string := "export"
  const ExportAllMethod: string := "exportAll"
  const InitMethod: string := "init"
  const ResetMethod: string := "reset"

  /** An identifier with exactly the given symbol and no hygiene mark. */
  function Ident(sym: string): (r: Ast.Ident)
    ensures r.sym == sym && r.mark == Ast.Plain
  {
    Ast.Ident(sym, Ast.Plain)
  }

  function IdentExpr(sym: string): (r: Ast.Expr)
    ensures r.IdentExpr? && r.id.sym == sym && r.id.mark == Ast.Plain
  {
    Ast.IdentExpr(Ident(sym))
  }

  /** A string literal whose value is `value` and which carries no raw text. */
  function StrLitExpr(value: string): (r: Ast.Expr)
    ensures r.StrLit? && r.value == value && r.raw == Ast.None
  {
    Ast.StrLit(value, Ast.None)
  }

  /** `expr` as a call argument, never spread. */
  function FnArg(expr: Ast.Expr): (r: Ast.ExprOrSpread)
    ensures !r.spread && r.expr == expr
  {
    Ast.ExprOrSpread(false, expr)
  }

  /** `obj.prop` with an identifier property. */
  function ObjMemberExpr(obj: Ast.Expr, prop: Ast.Ident): (r: Ast.Expr)
    ensures r.Member? && r.obj == obj && r.prop == prop
  {
    Ast.Member(obj, prop)
  }

  /** `callee(args...)`, arguments in the given order, no type arguments. */
  function CallExpr(callee: Ast.Expr, args: seq<Ast.ExprOrSpread>): (r: Ast.Expr)
    ensures r.Call? && r.callee == callee && r.args == args && r.typeArgs == Ast.None
  {
    Ast.Call(callee, args, Ast.None)
  }

  /** `const name = init;`: one declarator, neither `declare` nor definite. */
  function DeclVarAndAssignStmt(name: Ast.Ident, init: Ast.Expr): (r: Ast.Stmt)
    ensures r.DeclStmt? && r.decl.VarDecl? && r.decl.kind == Ast.Const && !r.decl.declare
    ensures r.decl.decls == [Ast.VarDeclarator(Ast.BindingIdent(name), Ast.Some(init), false)]
  {
    Ast.DeclStmt(Ast.VarDecl(Ast.Const, false, [Ast.VarDeclarator(Ast.BindingIdent(name), Ast.Some(init), false)]))
  }

  /** The statement made by DeclVarAndAssignStmt binds its name and nothing else. */
  lemma DeclVarAndAssignBindsOnlyName(name: Ast.Ident, init: Ast.Expr, id: Ast.Ident)
    ensures Ast.DeclBinds(DeclVarAndAssignStmt(name, init).decl, id) <==> id == name
  {
    var d := DeclVarAndAssignStmt(name, init).decl;
    if Ast.DeclBinds(d, id) {
      var k :| 0 <= k < |d.decls| && d.decls[k].name == Ast.BindingIdent(id);
      assert k == 0;
    }
    if id == name {
      assert d.decls[0].name == Ast.BindingIdent(id);
    }
  }

  /** `global.__modules.<methodName>(args...)` */
  function GlobalModuleApiCallExpr(methodName: string, args: seq<Ast.ExprOrSpread>): (r: Ast.Expr)
    ensures r.Call? && r.args == args && r.typeArgs == Ast.None
    ensures r.callee == Ast.Member(Ast.Member(IdentExpr(Global), Ident(Modules)), Ident(methodName))
  {
    CallExpr(ObjMemberExpr(ObjMemberExpr(IdentExpr(Global), Ident(Modules)), Ident(methodName)), args)
  }

  /** An object literal with the given properties in order. */
  function ObjLit(props: seq<Ast.PropOrSpread>): (r: Ast.Expr)
    ensures r.ObjectLit? && r.props == props
  {
    Ast.ObjectLit(props)
  }

  /** The registry method a statement calls, when it is a registry call statement. */
  function ApiMethodOf(item: Ast.ModuleItem): Ast.Option<string> {
    match item
    case StmtItem(ExprStmt(Call(Member(Member(IdentExpr(g), m), meth), _, _))) =>
      if g == Ident(Global) && m == Ident(Modules) then Ast.Some(meth.sym) else Ast.None
    case _ => Ast.None
  }

  /** The registry methods the statements call, in order. */
  function RegistryCalls(items: seq<Ast.ModuleItem>): seq<string> {
    if items == [] then []
    else RegistryCalls(items[..|items| - 1])
         + (if ApiMethodOf(items[|items| - 1]).Some? then [ApiMethodOf(items[|items| - 1]).value] else [])
  }

  /** A single statement contributes the method it calls, if any. */
  lemma RegistryCallsOne(item: Ast.ModuleItem)
    ensures RegistryCalls([item]) == (if ApiMethodOf(item).Some? then [ApiMethodOf(item).value] else [])
  {
    assert [item][..0] == [];
  }

  lemma {:induction false} RegistryCallsAppend(a: seq<Ast.ModuleItem>, b: seq<Ast.ModuleItem>)
    ensures RegistryCalls(a + b) == RegistryCalls(a) + RegistryCalls(b)
    decreases |b|
  {
    if b == [] {
      assert a + b == a;
    } else {
      assert (a + b)[..|a + b| - 1] == a + b[..|b| - 1];
      RegistryCallsAppend(a, b[..|b| - 1]);
    }
  }
}
