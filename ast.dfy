/**
  The part of the ECMAScript module syntax tree that the transform reads and
  writes. Function and class bodies, arbitrary expressions and statements the
  transform never looks into are opaque `Code` payloads carried through
  unchanged. Identifiers carry a hygiene mark: `Plain` for every identifier
  written by the user or built by `ident`/`quote_ident!`, `Private(n)` for the
  n-th identifier made by `private_ident!`, which can collide with nothing else.
*/
module Ast {

  datatype Option<+T> = None | Some(value: T) {
    function GetOr(default: T): T {
      match this
      case Some(v) => v
      case None => default
    }
  }

  /** An opaque piece of source code (a function body, a class body, an expression). */
  datatype Code = Code(id: nat)

  datatype Mark = Plain | Private(id: nat)

  datatype Ident = Ident(sym: string, mark: Mark)

  /** `x` or `"x"` in `export { a as x }` / `import { x as a }`. */
  datatype ModuleExportName = NameIdent(id: Ident) | NameStr(value: string)
  {
    /** The exported name the specifier stands for. */
    function Text(): string {
      match this
      case NameIdent(id) => id.sym
      case NameStr(s) => s
    }
  }

  datatype Expr =
    | IdentExpr(id: Ident)
    | StrLit(value: string, raw: Option<string>)
    | NullLit
    | Member(obj: Expr, prop: Ident)
    | Call(callee: Expr, args: seq<ExprOrSpread>, typeArgs: Option<Code>)
    | ObjectLit(props: seq<PropOrSpread>)
    | FnExpr(fnIdent: Option<Ident>, fnBody: Code)
    | ClassExpr(classIdent: Option<Ident>, classBody: Code)
    | OpaqueExpr(code: Code)

  datatype ExprOrSpread = ExprOrSpread(spread: bool, expr: Expr)

  datatype PropOrSpread =
    | KeyValue(key: Ident, value: Expr)
    | Shorthand(id: Ident)
    | Spread(expr: Expr)

  datatype VarKind = Var | Let | Const

  datatype Pat = BindingIdent(id: Ident) | OtherPat(code: Code)

  datatype VarDeclarator = VarDeclarator(name: Pat, init: Option<Expr>, definite: bool)

  datatype Decl =
    | VarDecl(kind: VarKind, declare: bool, decls: seq<VarDeclarator>)
    | FnDecl(fnIdent: Ident, fnBody: Code)
    | ClassDecl(classIdent: Ident, classBody: Code)
    /** TypeScript declarations (interface, type alias, enum, namespace). */
    | OtherDecl(code: Code)

  datatype Stmt =
    | EmptyStmt
    | DeclStmt(decl: Decl)
    | ExprStmt(expr: Expr)
    /** Any statement the transform passes through without looking inside. */
    | OtherStmt(code: Code)

  datatype ImportSpecifier =
    | ImportDefault(local: Ident)
    | ImportNamed(local: Ident, imported: Option<ModuleExportName>, isTypeOnly: bool)
    | ImportNamespace(local: Ident)

  datatype ExportSpecifier =
    /** `* as name` */
    | ExportNamespaceSpec(name: ModuleExportName)
    /** `v` in the proposal form `export v from "m"` */
    | ExportDefaultSpec(defaultExported: Ident)
    /** `orig` or `orig as exported` */
    | ExportNamedSpec(orig: ModuleExportName, exported: Option<ModuleExportName>, isTypeOnly: bool)

  datatype DefaultDecl =
    | DefaultFn(fnIdent: Option<Ident>, fnBody: Code)
    | DefaultClass(classIdent: Option<Ident>, classBody: Code)
    | DefaultTsInterface(code: Code)

  datatype ModuleDecl =
    | Import(importSpecifiers: seq<ImportSpecifier>, src: string, typeOnly: bool)
    | ExportDecl(decl: Decl)
    | ExportDefaultDecl(defaultDecl: DefaultDecl)
    | ExportDefaultExpr(expr: Expr)
    | ExportNamed(exportSpecifiers: seq<ExportSpecifier>, namedSrc: Option<string>, typeOnly: bool)
    | ExportAll(allSrc: string, typeOnly: bool)
    /** TypeScript module forms: `import x = require(...)`, `export =`, `export as namespace`. */
    | OtherModuleDecl(code: Code)

  datatype ModuleItem = StmtItem(stmt: Stmt) | DeclItem(moduleDecl: ModuleDecl)

  /** A parsed module; the transforms rewrite its body in place. */
  class Module {
    var body: seq<ModuleItem>

    constructor (body: seq<ModuleItem>)
      ensures this.body == body
    {
      this.body := body;
    }
  }

  /** Does `d` introduce a binding named by `id`? */
  predicate DeclBinds(d: Decl, id: Ident) {
    match d
    case VarDecl(_, _, decls) => exists k :: 0 <= k < |decls| && decls[k].name == BindingIdent(id)
    case FnDecl(f, _) => f == id
    case ClassDecl(c, _) => c == id
    case OtherDecl(_) => false
  }

  /** Does the module item declare `id`, as a plain or as an exported declaration? */
  predicate ItemBinds(item: ModuleItem, id: Ident) {
    match item
    case StmtItem(DeclStmt(d)) => DeclBinds(d, id)
    case DeclItem(ExportDecl(d)) => DeclBinds(d, id)
    case _ => false
  }

  predicate BodyBinds(body: seq<ModuleItem>, id: Ident) {
    exists k :: 0 <= k < |body| && ItemBinds(body[k], id)
  }

  predicate IsEmptyItem(item: ModuleItem) {
    item == StmtItem(EmptyStmt)
  }

  /** The key of a property of an object literal, if it has one. */
  function PropKey(p: PropOrSpread): Option<string> {
    match p
    case KeyValue(k, _) => Some(k.sym)
    case Shorthand(id) => Some(id.sym)
    case Spread(_) => None
  }

  /** The value a property contributes. */
  function PropValue(p: PropOrSpread): Expr {
    match p
    case KeyValue(_, v) => v
    case Shorthand(id) => IdentExpr(id)
    case Spread(e) => e
  }
}
