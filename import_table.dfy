/**
  The emitter's `import_idents: BTreeMap<String, Ident>` (transform/src/lib.rs),
  from a module source to the identifier of the handle the module is imported
  into. It is modelled as a sequence of entries kept strictly sorted by key,
  which is also the order in which the map is iterated.
*/
module ImportTable {
  import opened Ast
  import opened StringOrder

  type Table = seq<(string, Ident)>

  predicate Sorted(t: Table) {
    forall i, j :: 0 <= i < j < |t| ==> Less(t[i].0, t[j].0)
  }

  function Keys(t: Table): set<string> {
    set i | 0 <= i < |t| :: t[i].0
  }

  function Lookup(t: Table, key: string): Option<Ident> {
    if t == [] then None
    else if t[0].0 == key then Some(t[0].1)
    else Lookup(t[1..], key)
  }

  /** `entry(key).or_insert(value)`: the table with `key` mapped to `value` unless `key` is there already. */
  function Insert(t: Table, key: string, value: Ident): Table {
    if t == [] then [(key, value)]
    else if t[0].0 == key then t
    else if Less(key, t[0].0) then [(key, value)] + t
    else [t[0]] + Insert(t[1..], key, value)
  }

  lemma SortedTail(t: Table)
    requires Sorted(t) && t != []
    ensures Sorted(t[1..]) && forall i :: 0 <= i < |t[1..]| ==> Less(t[0].0, t[1..][i].0)
  {
  }

  /** A key is found exactly when it is one of the keys. */
  lemma {:induction false} LookupKeys(t: Table, key: string)
    ensures Lookup(t, key).Some? <==> key in Keys(t)
    ensures Lookup(t, key).Some? ==> (key, Lookup(t, key).value) in t
  {
    if t != [] {
      LookupKeys(t[1..], key);
      if key in Keys(t) && t[0].0 != key {
        var i :| 0 <= i < |t| && t[i].0 == key;
        assert t[1..][i - 1].0 == key;
      }
      if Lookup(t, key).Some? && t[0].0 != key {
        assert (key, Lookup(t, key).value) in t[1..];
      }
    }
  }

  /** Every entry of the table after insertion was there before or is the new one. */
  lemma {:induction false} InsertEntries(t: Table, key: string, value: Ident)
    ensures forall e :: e in Insert(t, key, value) ==> e in t || e == (key, value)
    ensures Keys(Insert(t, key, value)) == Keys(t) + {key}
  {
    if t != [] && t[0].0 != key && !Less(key, t[0].0) {
      InsertEntries(t[1..], key, value);
      var r := Insert(t, key, value);
      assert r == [t[0]] + Insert(t[1..], key, value);
      forall e | e in r ensures e in t || e == (key, value) {
        if e != t[0] {
          assert e in Insert(t[1..], key, value);
        }
      }
      forall k | k in Keys(r) ensures k in Keys(t) + {key} {
        var i :| 0 <= i < |r| && r[i].0 == k;
        assert r[i] in r;
      }
      forall k | k in Keys(t) + {key} ensures k in Keys(r) {
        if k in Keys(t[1..]) + {key} {
          var i :| 0 <= i < |Insert(t[1..], key, value)| && Insert(t[1..], key, value)[i].0 == k;
          assert r[i + 1].0 == k;
        } else {
          assert k == t[0].0;
          assert r[0].0 == k;
        }
      }
    } else if t != [] && t[0].0 != key {
      var r := Insert(t, key, value);
      forall k | k in Keys(t) + {key} ensures k in Keys(r) {
        if k != key {
          var i :| 0 <= i < |t| && t[i].0 == k;
          assert r[i + 1].0 == k;
        } else {
          assert r[0].0 == k;
        }
      }
      forall k | k in Keys(r) ensures k in Keys(t) + {key} {
        var i :| 0 <= i < |r| && r[i].0 == k;
        if i > 0 {
          assert t[i - 1].0 == k;
        }
      }
    } else if t != [] {
      assert Insert(t, key, value) == t;
      assert t[0].0 in Keys(t);
      assert Keys(t) + {key} == Keys(t);
    } else {
      assert Insert(t, key, value) == [(key, value)];
      assert Insert(t, key, value)[0].0 == key;
    }
  }

  /** Insertion keeps the table sorted. */
  lemma {:induction false} InsertSorted(t: Table, key: string, value: Ident)
    requires Sorted(t)
    ensures Sorted(Insert(t, key, value))
  {
    if t != [] && t[0].0 != key {
      if Less(key, t[0].0) {
        var r := Insert(t, key, value);
        forall i, j | 0 <= i < j < |r| ensures Less(r[i].0, r[j].0) {
          if i == 0 && j > 1 {
            LessTransitive(key, t[0].0, t[j - 1].0);
          }
        }
      } else {
        SortedTail(t);
        InsertSorted(t[1..], key, value);
        InsertEntries(t[1..], key, value);
        LessTotal(key, t[0].0);
        var rest := Insert(t[1..], key, value);
        var r := [t[0]] + rest;
        forall i, j | 0 <= i < j < |r| ensures Less(r[i].0, r[j].0) {
          if i == 0 {
            assert r[j] == rest[j - 1];
            assert rest[j - 1] in rest;
            if rest[j - 1] != (key, value) {
              var k :| 0 <= k < |t[1..]| && t[1..][k] == rest[j - 1];
            }
          } else {
            assert r[i] == rest[i - 1] && r[j] == rest[j - 1];
          }
        }
      }
    }
  }

  /**
    In a sorted table, `entry(key).or_insert(value)` keeps an existing entry,
    adds `key -> value` otherwise, and leaves every other key as it was.
  */
  lemma {:induction false} InsertLookup(t: Table, key: string, value: Ident, other: string)
    requires Sorted(t)
    ensures Lookup(Insert(t, key, value), key) == (if key in Keys(t) then Lookup(t, key) else Some(value))
    ensures other != key ==> Lookup(Insert(t, key, value), other) == Lookup(t, other)
  {
    LookupKeys(t, key);
    if t != [] && t[0].0 != key {
      SortedTail(t);
      LookupKeys(t[1..], key);
      if Less(key, t[0].0) {
        if key in Keys(t) {
          var i :| 0 <= i < |t| && t[i].0 == key;
          if i > 0 {
            LessAsymmetric(t[0].0, key);
          }
        }
        assert Insert(t, key, value)[1..] == t;
      } else {
        InsertLookup(t[1..], key, value, other);
        assert Insert(t, key, value)[1..] == Insert(t[1..], key, value);
        if key in Keys(t) {
          var i :| 0 <= i < |t| && t[i].0 == key;
          assert t[1..][i - 1].0 == key;
        }
      }
    }
  }
}
