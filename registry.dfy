/**
  The JavaScript values the registries handle, as far as they tell them
  apart: `typeof`, truthiness, and, for an object, its identity and the
  list `Object.keys` returns for it.
*/
module JsValues {
  datatype JsValue =
    | JsUndefined
    | JsNull
    | JsBoolean(b: bool)
    | JsNumber(n: int)
    | JsString(s: string)
    | JsFunction(fnId: nat)
      /** An object: its identity and its own enumerable string keys, in `Object.keys` order. */
    | JsObject(id: nat, keys: seq<string>)

  /** `typeof v === 'object'`, which holds for `null` too. */
  predicate IsObjectType(v: JsValue) {
    v.JsNull? || v.JsObject?
  }

  /** `!!v` (a number is falsy only when it is 0; NaN is not modelled). */
  predicate Truthy(v: JsValue) {
    match v
    case JsUndefined => false
    case JsNull => false
    case JsBoolean(b) => b
    case JsNumber(n) => n != 0
    case JsString(s) => s != ""
    case JsFunction(_) => true
    case JsObject(_, _) => true
  }
}

/**
  The registry of runtime/index.ts: a table from module name to the module's
  entry, an object whose properties are getters reading the exporting
  module's own bindings.
*/
module Registry {
  import opened JsValues
  import opened Ast

  /** `get: () => source[key]`: reads the property `key` of the object `source` when it is accessed. */
  datatype Getter = Getter(source: nat, key: string)

  /** An initialized entry: the properties defined on it so far. */
  type Entry = map<string, Getter>

  /** The `modules` table: a name is present while its entry is an object. */
  type Modules = map<string, Entry>

  datatype RegistryError =
    | NotFound(name: string)        // import: "module not found"
    | NotInitialized(name: string)  // export: "module not initialized"
    | InvalidExports(name: string)  // export: "invalid exports argument"
    | KeysOfNull                    // `Object.keys(null)` throws a TypeError
    | Redefine(key: string)         // `Object.defineProperty` on a property it made non-configurable

  datatype Result<T> = Ok(value: T) | Err(error: RegistryError)

  /** The methods the runtime defines on `global.__modules`. */
  const RuntimeMethods: set<string> := {"reset", "init", "import", "export"}

  /** `reset(name)` forgets one entry; `reset()` forgets them all. */
  function ResetSpec(m: Modules, moduleName: Option<string>): Modules {
    if moduleName.Some? then m - {moduleName.value} else map[]
  }

  /** `init(name)`: a fresh entry without properties. */
  function InitSpec(m: Modules, moduleName: string): Modules {
    m[moduleName := map[]]
  }

  /** `import(name)`: the entry, which is always truthy, or "module not found". */
  function ImportSpec(m: Modules, moduleName: string): Result<Entry> {
    if moduleName in m then Ok(m[moduleName]) else Err(NotFound(moduleName))
  }


  /** Whether the loop over `Object.keys` defines `key` (the `exportAll` loop skips `default`). */
  predicate Kept(key: string, skipDefault: bool) {
    !(skipDefault && key == "default")
  }

  /** One `Object.defineProperty`: it fails on a key the entry already has. */
  function DefineOne(e: Entry, source: nat, key: string, skipDefault: bool): (Entry, Option<RegistryError>) {
    if !Kept(key, skipDefault) then (e, None)
    else if key in e then (e, Some(Redefine(key)))
    else (e[key := Getter(source, key)], None)
  }

  /** The `forEach` over the keys of `source`, stopping at the first error, which propagates. */
  function DefineAll(e: Entry, source: nat, keys: seq<string>, skipDefault: bool): (Entry, Option<RegistryError>) {
    if keys == [] then (e, None)
    else
      var (e', err) := DefineAll(e, source, keys[..|keys| - 1], skipDefault);
      if err.Some? then (e', err) else DefineOne(e', source, keys[|keys| - 1], skipDefault)
  }

  /** `export(name, exports, exportAll)`: the table afterwards and the error it throws, if any. */
  function ExportSpec(m: Modules, moduleName: string, exports: JsValue, exportAll: JsValue): (Modules, Option<RegistryError>) {
    if moduleName !in m then (m, Some(NotInitialized(moduleName)))
    else if !IsObjectType(exports) then (m, Some(InvalidExports(moduleName)))
    else if exports.JsNull? then (m, Some(KeysOfNull))
    else
      var (e1, err1) := DefineAll(m[moduleName], exports.id, exports.keys, false);
      if err1.Some? then (m[moduleName := e1], err1)
      else if !IsObjectType(exportAll) then (m[moduleName := e1], None)
      else if exportAll.JsNull? then (m[moduleName := e1], Some(KeysOfNull))
      else
        var (e2, err2) := DefineAll(e1, exportAll.id, exportAll.keys, true);
        (m[moduleName := e2], err2)
  }

  class GlobalEsmRegistry {
    var modules: Modules

    constructor ()
      ensures modules == map[]
    {
      modules := map[];
    }

    method Reset(moduleName: Option<string>)
      modifies this
      ensures modules == ResetSpec(old(modules), moduleName)
    {
      if moduleName.Some? {
        modules := modules - {moduleName.value};
      } else {
        modules := map[];
      }
    }

    method Init(moduleName: string)
      modifies this
      ensures modules == InitSpec(old(modules), moduleName)
    {
      modules := modules[moduleName := map[]];
    }

    method Import(moduleName: string) returns (r: Result<Entry>)
      ensures r == ImportSpec(modules, moduleName)
    {
      if moduleName in modules {
        r := Ok(modules[moduleName]);
      } else {
        r := Err(NotFound(moduleName));
      }
    }

    /** Defines a getter on the entry for each key in turn, until one is already there. */
    method DefineProperties(moduleName: string, source: nat, keys: seq<string>, skipDefault: bool) returns (err: Option<RegistryError>)
      requires moduleName in modules
      modifies this
      ensures var r := DefineAll(old(modules)[moduleName], source, keys, skipDefault);
        modules == old(modules)[moduleName := r.0] && err == r.1
    {
      err := None;
      var i := 0;
      while i < |keys| && err.None?
        invariant 0 <= i <= |keys| && moduleName in modules
        invariant var r := DefineAll(old(modules)[moduleName], source, keys[..i], skipDefault);
          modules == old(modules)[moduleName := r.0] && err == r.1
      {
        assert keys[..i + 1][..i] == keys[..i];
        var key := keys[i];
        if Kept(key, skipDefault) {
          if key in modules[moduleName] {
            err := Some(Redefine(key));
          } else {
            modules := modules[moduleName := modules[moduleName][key := Getter(source, key)]];
          }
        }
        i := i + 1;
      }
      if err.Some? {
        DefineAllStops(old(modules)[moduleName], source, keys, skipDefault, i);
      } else {
        assert keys[..i] == keys;
      }
    }

    method Export(moduleName: string, exports: JsValue, exportAll: JsValue) returns (err: Option<RegistryError>)
      modifies this
      ensures (modules, err) == ExportSpec(old(modules), moduleName, exports, exportAll)
    {
      if moduleName !in modules {
        return Some(NotInitialized(moduleName));
      }
      if !IsObjectType(exports) {
        return Some(InvalidExports(moduleName));
      }
      if exports.JsNull? {
        return Some(KeysOfNull);
      }
      ghost var m0 := modules;
      err := DefineProperties(moduleName, exports.id, exports.keys, false);
      ghost var e1 := DefineAll(m0[moduleName], exports.id, exports.keys, false).0;
      assert modules == m0[moduleName := e1];
      if err.Some? || !IsObjectType(exportAll) {
        return;
      }
      if exportAll.JsNull? {
        return Some(KeysOfNull);
      }
      err := DefineProperties(moduleName, exportAll.id, exportAll.keys, true);
      assert modules == m0[moduleName := DefineAll(e1, exportAll.id, exportAll.keys, true).0];
    }
  }

  /** Once the loop has failed, the keys after the failing one change nothing. */
  lemma {:induction false} DefineAllStops(e: Entry, source: nat, keys: seq<string>, skipDefault: bool, i: nat)
    requires i <= |keys| && DefineAll(e, source, keys[..i], skipDefault).1.Some?
    ensures DefineAll(e, source, keys, skipDefault) == DefineAll(e, source, keys[..i], skipDefault)
    decreases |keys| - i
  {
    if i < |keys| {
      assert keys[..i + 1][..i] == keys[..i];
      DefineAllStops(e, source, keys, skipDefault, i + 1);
    } else {
      assert keys[..i] == keys;
    }
  }
}

/** What the registry of runtime/index.ts promises, proved about its specification functions. */
module RegistryProps {
  import opened JsValues
  import opened Registry
  import Ast
  import Utils
  import Bindings
  import GlobalEsm
  import GlobalEsmProps

  /** The keys the loop defines, `default` left out where it is skipped. */
  function KeptSet(keys: seq<string>, skipDefault: bool): set<string> {
    set i | 0 <= i < |keys| && Kept(keys[i], skipDefault) :: keys[i]
  }

  /** Every key the loop would define is new to the entry and appears once. */
  predicate Definable(e: Entry, keys: seq<string>, skipDefault: bool) {
    (forall i :: 0 <= i < |keys| && Kept(keys[i], skipDefault) ==> keys[i] !in e) &&
    (forall i, j :: 0 <= i < j < |keys| && Kept(keys[i], skipDefault) ==> keys[i] != keys[j])
  }

  /** The entry with a getter on `source` for every key the loop defines, and its old properties as they were. */
  function Defined(e: Entry, source: nat, keys: seq<string>, skipDefault: bool): Entry {
    map k | k in e.Keys + KeptSet(keys, skipDefault) :: if k in e then e[k] else Getter(source, k)
  }

  lemma KeptSetStep(keys: seq<string>, skipDefault: bool)
    requires keys != []
    ensures var last := keys[|keys| - 1];
      KeptSet(keys, skipDefault) == KeptSet(keys[..|keys| - 1], skipDefault) + (if Kept(last, skipDefault) then {last} else {})
  {
    var init := keys[..|keys| - 1];
    forall k | k in KeptSet(keys, skipDefault) && k !in KeptSet(init, skipDefault)
      ensures k == keys[|keys| - 1] && Kept(k, skipDefault)
    {
      var i :| 0 <= i < |keys| && Kept(keys[i], skipDefault) && keys[i] == k;
    }
    forall k | k in KeptSet(init, skipDefault) ensures k in KeptSet(keys, skipDefault) {
      var i :| 0 <= i < |init| && Kept(init[i], skipDefault) && init[i] == k;
      assert keys[i] == init[i];
    }
  }

  lemma DefinableStep(e: Entry, keys: seq<string>, skipDefault: bool)
    requires keys != []
    ensures var last := keys[|keys| - 1];
      Definable(e, keys, skipDefault) <==>
        Definable(e, keys[..|keys| - 1], skipDefault) &&
        (Kept(last, skipDefault) ==> last !in e && last !in KeptSet(keys[..|keys| - 1], skipDefault))
  {
    var init := keys[..|keys| - 1];
    var last := keys[|keys| - 1];
    if Definable(e, keys, skipDefault) {
      forall i | 0 <= i < |init| && Kept(init[i], skipDefault) ensures init[i] !in e {
        assert init[i] == keys[i];
      }
      forall i, j | 0 <= i < j < |init| && Kept(init[i], skipDefault) ensures init[i] != init[j] {
        assert init[i] == keys[i] && init[j] == keys[j];
      }
    }
    if Definable(e, init, skipDefault) && (Kept(last, skipDefault) ==> last !in e && last !in KeptSet(init, skipDefault)) {
      forall i | 0 <= i < |keys| && Kept(keys[i], skipDefault) ensures keys[i] !in e {
        if i < |init| {
          assert init[i] == keys[i];
        }
      }
      forall i, j | 0 <= i < j < |keys| && Kept(keys[i], skipDefault) ensures keys[i] != keys[j] {
        assert init[i] == keys[i];
        if j < |init| {
          assert init[j] == keys[j];
        } else {
          assert keys[i] in KeptSet(init, skipDefault);
        }
      }
    }
  }

  /** Defining one more key adds its getter unless the entry has that key already. */
  lemma DefinedStep(e: Entry, source: nat, keys: seq<string>, skipDefault: bool)
    requires keys != []
    ensures var d := Defined(e, source, keys[..|keys| - 1], skipDefault);
      var last := keys[|keys| - 1];
      Defined(e, source, keys, skipDefault) ==
        (if Kept(last, skipDefault) && last !in d then d[last := Getter(source, last)] else d)
  {
    KeptSetStep(keys, skipDefault);
    var d := Defined(e, source, keys[..|keys| - 1], skipDefault);
    var last := keys[|keys| - 1];
    if Kept(last, skipDefault) && last !in d {
      assert d[last := Getter(source, last)] == Defined(e, source, keys, skipDefault);
    } else {
      assert d == Defined(e, source, keys, skipDefault);
    }
  }

  /**
    The `forEach` over the keys succeeds exactly when every key it defines
    is new and appears once, and then adds a getter for each; whether or not
    it fails, it never changes a property that was there, and it adds none
    but the keys it defines. A failure names a key it was defining.
  */
  lemma {:induction false} DefineAllMeaning(e: Entry, source: nat, keys: seq<string>, skipDefault: bool)
    ensures var (e', err) := DefineAll(e, source, keys, skipDefault);
      (err.None? <==> Definable(e, keys, skipDefault)) &&
      (err.None? ==> e' == Defined(e, source, keys, skipDefault)) &&
      (err.Some? ==> err.value.Redefine? && err.value.key in KeptSet(keys, skipDefault)) &&
      (forall k :: k in e ==> k in e' && e'[k] == e[k]) &&
      (forall k :: k in e' ==> k in e || k in KeptSet(keys, skipDefault))
  {
    if keys != [] {
      var init := keys[..|keys| - 1];
      var last := keys[|keys| - 1];
      DefineAllMeaning(e, source, init, skipDefault);
      KeptSetStep(keys, skipDefault);
      DefinableStep(e, keys, skipDefault);
      var (e1, err1) := DefineAll(e, source, init, skipDefault);
      if err1.None? {
        DefinedStep(e, source, keys, skipDefault);
      }
    } else {
      assert Defined(e, source, keys, skipDefault) == e;
    }
  }

  /** The entry a successful `export` leaves. */
  function Exported(e: Entry, exports: JsValue, exportAll: JsValue): Entry
    requires exports.JsObject?
  {
    var e1 := Defined(e, exports.id, exports.keys, false);
    if exportAll.JsObject? then Defined(e1, exportAll.id, exportAll.keys, true) else e1
  }

  /**
    `export(name, exports, exportAll)` succeeds exactly when the entry is
    initialized, `exports` is an object, `exportAll` is not `null`, and
    every key it defines is new to the entry; then every key of `exports`
    reads `exports[key]`, and every key of `exportAll` but `default` reads
    `exportAll[key]`. The checks before the first definition leave the table
    as it was; a later failure keeps what was defined before it.
  */
  lemma ExportMeaning(m: Modules, moduleName: string, exports: JsValue, exportAll: JsValue)
    ensures var (m', err) := ExportSpec(m, moduleName, exports, exportAll);
      err.None? <==>
        moduleName in m && exports.JsObject? && !exportAll.JsNull? &&
        Definable(m[moduleName], exports.keys, false) &&
        (exportAll.JsObject? ==> Definable(Defined(m[moduleName], exports.id, exports.keys, false), exportAll.keys, true))
    ensures var (m', err) := ExportSpec(m, moduleName, exports, exportAll);
      err.None? ==> m' == m[moduleName := Exported(m[moduleName], exports, exportAll)]
    ensures var (m', err) := ExportSpec(m, moduleName, exports, exportAll);
      moduleName !in m || !exports.JsObject? ==> m' == m
    ensures var (m', err) := ExportSpec(m, moduleName, exports, exportAll);
      m'.Keys == m.Keys && forall n :: n in m && n != moduleName ==> m'[n] == m[n]
  {
    if moduleName in m && exports.JsObject? {
      var e := m[moduleName];
      DefineAllMeaning(e, exports.id, exports.keys, false);
      var (e1, err1) := DefineAll(e, exports.id, exports.keys, false);
      if err1.None? && exportAll.JsObject? {
        DefineAllMeaning(e1, exportAll.id, exportAll.keys, true);
      }
    }
  }

  /**
    `export` never changes a property an entry has, and `default` only ever
    comes from `exports`: the `exportAll` object cannot provide it.
  */
  lemma ExportKeepsProperties(m: Modules, moduleName: string, exports: JsValue, exportAll: JsValue)
    requires moduleName in m
    ensures var m' := ExportSpec(m, moduleName, exports, exportAll).0;
      moduleName in m' &&
      (forall k :: k in m[moduleName] ==> k in m'[moduleName] && m'[moduleName][k] == m[moduleName][k]) &&
      ("default" in m'[moduleName] ==> "default" in m[moduleName] || (exports.JsObject? && "default" in exports.keys))
  {
    var e := m[moduleName];
    if exports.JsObject? {
      DefineAllMeaning(e, exports.id, exports.keys, false);
      var (e1, err1) := DefineAll(e, exports.id, exports.keys, false);
      if "default" in e1 && "default" !in e {
        var i :| 0 <= i < |exports.keys| && Kept(exports.keys[i], false) && exports.keys[i] == "default";
      }
      if err1.None? && exportAll.JsObject? {
        DefineAllMeaning(e1, exportAll.id, exportAll.keys, true);
      }
    }
  }

  /**
    The sequence the emitted code runs, `init` then `export`, succeeds for
    any exports object, whatever the table held before; `export` a second
    time without `init` fails on the first key it defines again.
  */
  lemma InitThenExport(m: Modules, moduleName: string, id: nat, keys: seq<string>)
    requires forall i, j :: 0 <= i < j < |keys| ==> keys[i] != keys[j]
    ensures var (m1, err1) := ExportSpec(InitSpec(m, moduleName), moduleName, JsObject(id, keys), JsUndefined);
      err1.None? && m1 == m[moduleName := Defined(map[], id, keys, false)]
    ensures var m1 := ExportSpec(InitSpec(m, moduleName), moduleName, JsObject(id, keys), JsUndefined).0;
      |keys| > 0 ==> ExportSpec(m1, moduleName, JsObject(id, keys), JsUndefined).1 == Ast.Some(Redefine(keys[0]))
  {
    ExportMeaning(InitSpec(m, moduleName), moduleName, JsObject(id, keys), JsUndefined);
    var m1 := ExportSpec(InitSpec(m, moduleName), moduleName, JsObject(id, keys), JsUndefined).0;
    if |keys| > 0 {
      var e1 := m1[moduleName];
      assert keys[0] in KeptSet(keys, false);
      assert keys[..1] == [keys[0]];
      DefineAllStops(e1, id, keys, false, 1);
    }
  }

  /**
    `init` gives an empty entry; `reset(name)` makes that one name unknown to
    `import` and to `export`, and `reset()` every name.
  */
  lemma Lifecycle(m: Modules, moduleName: string, other: string, exports: JsValue, exportAll: JsValue)
    ensures ImportSpec(InitSpec(m, moduleName), moduleName) == Ok(map[])
    ensures ImportSpec(ResetSpec(m, Ast.Some(moduleName)), moduleName) == Err(NotFound(moduleName))
    ensures ExportSpec(ResetSpec(m, Ast.Some(moduleName)), moduleName, exports, exportAll).1 == Ast.Some(NotInitialized(moduleName))
    ensures other != moduleName ==> ImportSpec(ResetSpec(m, Ast.Some(moduleName)), other) == ImportSpec(m, other)
    ensures other != moduleName ==> ImportSpec(InitSpec(m, moduleName), other) == ImportSpec(m, other)
    ensures ImportSpec(ResetSpec(m, Ast.None), other) == Err(NotFound(other))
  {
  }

  /**
    The runtime has no `exportAll` and no `importAll`, and the rewrite calls
    `exportAll` for every module with an `export *` record: such a module
    fails to register against this runtime.
  */
  lemma MissingRuntimeMethods(moduleName: string, exports: seq<Bindings.ExportModule>)
    ensures Utils.ExportAllMethod !in RuntimeMethods && Utils.ImportAllMethod !in RuntimeMethods
    ensures (exists k :: 0 <= k < |exports| && exports[k].moduleType == Bindings.NamespaceOrAll) ==>
      Utils.ExportAllMethod in Utils.RegistryCalls(GlobalEsm.Registration(moduleName, exports))
  {
    GlobalEsmProps.RegistrationShape(moduleName, exports);
  }
}
