/**
  The minimal registry of src/runtime/index.ts, which the older emitter's
  code calls: `export` stores the exports value under the module name, and
  `import` returns it when it is truthy.
*/
module SimpleRegistry {
  import opened JsValues
  import Ast
  import LegacyGlobalEsm

  datatype ImportResult = Found(value: JsValue) | NotFound(name: string)

  /** `modules[name] || throw "module not found"`: an absent name reads as `undefined`. */
  function ImportSpec(m: map<string, JsValue>, moduleName: string): ImportResult {
    if moduleName in m && Truthy(m[moduleName]) then Found(m[moduleName]) else NotFound(moduleName)
  }

  class SimpleModuleRegistry {
    var modules: map<string, JsValue>

    constructor ()
      ensures modules == map[]
    {
      modules := map[];
    }

    method Import(moduleName: string) returns (r: ImportResult)
      ensures r == ImportSpec(modules, moduleName)
    {
      if moduleName in modules && Truthy(modules[moduleName]) {
        r := Found(modules[moduleName]);
      } else {
        r := NotFound(moduleName);
      }
    }

    /** Replaces whatever was stored under the name; no initialization is needed. */
    method Export(moduleName: string, exports: JsValue)
      modifies this
      ensures modules == old(modules)[moduleName := exports]
    {
      modules := modules[moduleName := exports];
    }
  }

  /**
    After `export(name, e)`, `import(name)` returns `e` exactly when `e` is
    truthy, and fails otherwise; every other name reads as before.
  */
  lemma ExportThenImport(m: map<string, JsValue>, moduleName: string, exports: JsValue, other: string)
    ensures ImportSpec(m[moduleName := exports], moduleName) == (if Truthy(exports) then Found(exports) else NotFound(moduleName))
    ensures other != moduleName ==> ImportSpec(m[moduleName := exports], other) == ImportSpec(m, other)
  {
  }

  /** An object is always found, whatever was stored under the name before. */
  lemma ObjectExportsAreFound(m: map<string, JsValue>, moduleName: string, id: nat, keys: seq<string>)
    ensures ImportSpec(m[moduleName := JsObject(id, keys)], moduleName) == Found(JsObject(id, keys))
  {
  }

  /**
    The older emitter registers a module without exports as `null`
    (`LegacyGlobalEsmProps.ImportOnlyRegistersNull`): such a module, once
    registered, is not found by `import`.
  */
  lemma NullRegistrationNotFound(m: map<string, JsValue>, moduleName: string)
    ensures LegacyGlobalEsm.ExportsObject([]) == Ast.NullLit
    ensures ImportSpec(m[moduleName := JsNull], moduleName) == NotFound(moduleName)
  {
  }
}
