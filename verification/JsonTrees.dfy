/** JSON values, and reading and writing at a path. */
module JsonTrees {
  // A number is kept as the canonical literal of the parsed number, so that numbers are equal as values.
  datatype Json =
    | Null | Bool(b: bool) | Num(literal: string) | Str(s: string) | Arr(items: seq<Json>) | Obj(fields: Fields)

  type Fields = map<string, Json>

  type Path = seq<string>

  // A missing key reads as null.
  function Get(m: Fields, k: string): Json { if k in m then m[k] else Null }

  // Writing null removes the key.
  function Put(m: Fields, k: string, v: Json): Fields { if v == Null then m - {k} else m[k := v] }

  function FieldsOf(v: Json): Fields { if v.Obj? then v.fields else map[] }

  function SetAt(v: Json, path: Path, x: Json): Json
    decreases |path|
  {
    if path == [] then x
    else Obj(Put(FieldsOf(v), path[0], SetAt(Get(FieldsOf(v), path[0]), path[1..], x)))
  }

  function Lookup(v: Json, path: Path): Json
    decreases |path|
  {
    if path == [] then v else Lookup(Get(FieldsOf(v), path[0]), path[1..])
  }

  // The value without its null-valued object keys, at every level outside arrays.
  function Norm(v: Json): Json
    decreases v
  {
    if v.Obj? then Obj(map k | k in v.fields && v.fields[k] != Null :: Norm(v.fields[k])) else v
  }

  lemma NormNull(v: Json)
    ensures Norm(v) == Null <==> v == Null
    ensures Norm(v).Obj? <==> v.Obj?
    ensures !v.Obj? ==> Norm(v) == v
  {
  }

  // Two objects are equal up to null-valued keys exactly when they agree so at each key.
  lemma NormObj(m: Fields, n: Fields)
    ensures Norm(Obj(m)) == Norm(Obj(n)) <==> forall k :: k in m.Keys + n.Keys ==> Norm(Get(m, k)) == Norm(Get(n, k))
  {
    var a, b := Norm(Obj(m)).fields, Norm(Obj(n)).fields;
    forall k ensures k in a <==> Norm(Get(m, k)) != Null { NormNull(Get(m, k)); }
    forall k ensures k in b <==> Norm(Get(n, k)) != Null { NormNull(Get(n, k)); }
    if a == b {
      forall k | k in m.Keys + n.Keys ensures Norm(Get(m, k)) == Norm(Get(n, k)) {
        if k in a { assert a[k] == b[k]; }
      }
    }
    if forall k :: k in m.Keys + n.Keys ==> Norm(Get(m, k)) == Norm(Get(n, k)) {
      forall k ensures k in a <==> k in b {
        if k in a || k in b { assert k in m.Keys + n.Keys; }
      }
      forall k | k in a ensures a[k] == b[k] {
        assert k in m.Keys + n.Keys;
      }
      assert a == b;
    }
  }
}
