/**
  The intermediate representation the binding collectors build and the
  emitter consumes: one record per imported and per exported local binding.
  transform/src/module_collector.rs and transform/src/es_module_collector.rs
  declare these three types identically; they are declared once here.
*/
module Bindings {
  import opened Ast

  datatype ModuleType =
    | Default
    | Named
    /** `export { default as x } from "m"` */
    | DefaultAsNamed
    /** import: namespace, export: all */
    | NamespaceOrAll

  /**
    One imported binding: the local identifier, the module source and the
    kind. The record keeps no imported name, so `import { b as c } from "m"`
    is recorded as `c` alone (see the Findings in README.md).
  */
  datatype ImportModule = ImportModule(ident: Ident, moduleSrc: string, moduleType: ModuleType)

  /** One exported binding: `a` and `a_1` in `export { a as a_1 }`. */
  datatype ExportModule = ExportModule(ident: Ident, asIdent: Option<Ident>, moduleType: ModuleType)

  function DefaultExport(id: Ident): ExportModule {
    ExportModule(id, None, Default)
  }

  function NamedExport(id: Ident, asIdent: Option<Ident>): ExportModule {
    ExportModule(id, asIdent, Named)
  }

  function AllExport(id: Ident): ExportModule {
    ExportModule(id, None, NamespaceOrAll)
  }

  /** `private_ident!(sym)` when the hygiene counter stands at `mark`. */
  function PrivateIdent(sym: string, mark: nat): (id: Ident)
    ensures id.sym == sym && id.mark == Private(mark)
  {
    Ident(sym, Private(mark))
  }

  /** Is `id` a private identifier made with a mark in `[lo, hi)`? */
  predicate PrivateIn(id: Ident, lo: nat, hi: nat) {
    id.mark.Private? && lo <= id.mark.id < hi
  }
}
