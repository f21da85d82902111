/** The field-level difference of two JSON snapshots: objects are compared key by key and reported
    under dotted paths, everything else is compared whole. */
module AuditDiff {
  import opened Wrappers
  import opened JsonTrees
  import opened SortedStrings

  datatype ChangeField = ChangeField(field: string, before: Json, after: Json)

  // ---- The program, as functions ----

  function ChildPath(path: string, key: string): string { if path == "" then key else path + "." + key }

  function Collect(path: string, v: Json): seq<(string, Json)>
    decreases v, 1, 0
  {
    if !v.Obj? then [(path, v)]
    else
      SortedMembers(v.fields.Keys);
      var keys := SortedKeys(v.fields.Keys);
      CollectKeys(path, v.fields, keys, |keys|)
  }

  // The leaves under the first n keys.
  function CollectKeys(path: string, m: Fields, keys: seq<string>, n: nat): seq<(string, Json)>
    requires n <= |keys| && forall k :: k in keys ==> k in m
    decreases Obj(m), 0, n
  {
    if n == 0 then []
    else CollectKeys(path, m, keys, n - 1) + Collect(ChildPath(path, keys[n - 1]), m[keys[n - 1]])
  }

  function Both(b: Json, a: Json): nat { if b.Obj? && a.Obj? then 1 else 0 }

  function AllKeys(b: Fields, a: Fields): seq<string> { SortedKeys(b.Keys + a.Keys) }

  function DiffValue(path: string, b: Json, a: Json): seq<ChangeField>
    decreases Both(b, a), b, 1, 0
  {
    if b == a then []
    else if b.Obj? && a.Obj? then
      var keys := AllKeys(b.fields, a.fields);
      DiffKeys(path, b.fields, a.fields, keys, |keys|)
    else [ChangeField(path, b, a)]
  }

  // The changes under the first n keys.
  function DiffKeys(path: string, b: Fields, a: Fields, keys: seq<string>, n: nat): seq<ChangeField>
    requires n <= |keys|
    decreases 1, Obj(b), 0, n
  {
    if n == 0 then []
    else
      var k := keys[n - 1];
      DiffKeys(path, b, a, keys, n - 1) + DiffValue(ChildPath(path, k), Get(b, k), Get(a, k))
  }

  function Created(leaves: seq<(string, Json)>): seq<ChangeField> {
    seq(|leaves|, i requires 0 <= i < |leaves| => ChangeField(leaves[i].0, Null, leaves[i].1))
  }

  function Deleted(leaves: seq<(string, Json)>): seq<ChangeField> {
    seq(|leaves|, i requires 0 <= i < |leaves| => ChangeField(leaves[i].0, leaves[i].1, Null))
  }

  function JsonDiff(before: Option<Json>, after: Option<Json>): seq<ChangeField> {
    match (before, after)
    case (None, Some(a)) => Created(Collect("", a))
    case (Some(b), None) => Deleted(Collect("", b))
    case (Some(b), Some(a)) => DiffValue("", b, a)
    case (None, None) => []
  }

  // ---- The program, with its loops ----

  method CollectLeaves(path: string, v: Json) returns (r: seq<(string, Json)>)
    ensures r == Collect(path, v)
    decreases v
  {
    if !v.Obj? { return [(path, v)]; }
    var keys := SortedKeys(v.fields.Keys);
    SortedMembers(v.fields.Keys);
    r := [];
    for i := 0 to |keys|
      invariant r == CollectKeys(path, v.fields, keys, i)
    {
      assert keys[i] in v.fields;
      var more := CollectLeaves(ChildPath(path, keys[i]), v.fields[keys[i]]);
      r := r + more;
    }
  }

  method DiffInto(path: string, b: Json, a: Json, out: seq<ChangeField>) returns (r: seq<ChangeField>)
    ensures r == out + DiffValue(path, b, a)
    decreases Both(b, a), b, 1
  {
    if b == a {
      r := out;
    } else if b.Obj? && a.Obj? {
      r := DiffObjects(path, b.fields, a.fields, AllKeys(b.fields, a.fields), out);
    } else {
      r := out + [ChangeField(path, b, a)];
    }
  }

  method DiffObjects(path: string, b: Fields, a: Fields, keys: seq<string>, out: seq<ChangeField>)
    returns (r: seq<ChangeField>)
    ensures r == out + DiffKeys(path, b, a, keys, |keys|)
    decreases 1, Obj(b), 0
  {
    r := out;
    for i := 0 to |keys|
      invariant r == out + DiffKeys(path, b, a, keys, i)
    {
      var k := keys[i];
      DiffKeysNext(path, b, a, keys, i, out);
      r := DiffInto(ChildPath(path, k), Get(b, k), Get(a, k), r);
    }
  }

  lemma DiffKeysNext(path: string, b: Fields, a: Fields, keys: seq<string>, i: nat, out: seq<ChangeField>)
    requires i < |keys|
    ensures out + DiffKeys(path, b, a, keys, i + 1) ==
      out + DiffKeys(path, b, a, keys, i) + DiffValue(ChildPath(path, keys[i]), Get(b, keys[i]), Get(a, keys[i]))
  {
  }

  method ComputeDiff(before: Option<Json>, after: Option<Json>) returns (r: seq<ChangeField>)
    ensures r == JsonDiff(before, after)
  {
    match (before, after)
    case (None, Some(a)) =>
      var leaves := CollectLeaves("", a);
      r := Created(leaves);
    case (Some(b), None) =>
      var leaves := CollectLeaves("", b);
      r := Deleted(leaves);
    case (Some(b), Some(a)) => r := DiffInto("", b, a, []);
    case (None, None) => r := [];
  }

  // ---- Symmetry ----

  function Swapped(cs: seq<ChangeField>): seq<ChangeField> {
    seq(|cs|, i requires 0 <= i < |cs| => ChangeField(cs[i].field, cs[i].after, cs[i].before))
  }

  lemma SwappedConcat(cs: seq<ChangeField>, ds: seq<ChangeField>)
    ensures Swapped(cs + ds) == Swapped(cs) + Swapped(ds)
  {
  }

  lemma {:induction false} SwappedValue(path: string, b: Json, a: Json)
    ensures DiffValue(path, a, b) == Swapped(DiffValue(path, b, a))
    decreases Both(b, a), b, 1, 0
  {
    if b != a && b.Obj? && a.Obj? {
      assert b.fields.Keys + a.fields.Keys == a.fields.Keys + b.fields.Keys;
      var keys := AllKeys(b.fields, a.fields);
      SwappedKeys(path, b.fields, a.fields, keys, |keys|);
    }
  }

  lemma {:induction false} SwappedKeys(path: string, b: Fields, a: Fields, keys: seq<string>, n: nat)
    requires n <= |keys|
    ensures DiffKeys(path, a, b, keys, n) == Swapped(DiffKeys(path, b, a, keys, n))
    decreases 1, Obj(b), 0, n
  {
    if n > 0 {
      var k := keys[n - 1];
      SwappedKeys(path, b, a, keys, n - 1);
      SwappedValue(ChildPath(path, k), Get(b, k), Get(a, k));
      SwappedConcat(DiffKeys(path, b, a, keys, n - 1), DiffValue(ChildPath(path, k), Get(b, k), Get(a, k)));
    }
  }

  // Diffing the other way round gives the same paths in the same order, with the sides swapped.
  lemma DiffSymmetric(before: Option<Json>, after: Option<Json>)
    ensures JsonDiff(after, before) == Swapped(JsonDiff(before, after))
  {
    if before.Some? && after.Some? { SwappedValue("", before.value, after.value); }
  }

  // ---- Exact emptiness ----

  lemma {:induction false} ValueEmpty(path: string, b: Json, a: Json)
    ensures DiffValue(path, b, a) == [] <==> Norm(b) == Norm(a)
    decreases Both(b, a), b, 1, 0
  {
    NormNull(b);
    NormNull(a);
    if b != a && b.Obj? && a.Obj? {
      var keys := AllKeys(b.fields, a.fields);
      KeysEmpty(path, b.fields, a.fields, keys, |keys|);
      NormObj(b.fields, a.fields);
      assert SameAt(b.fields, a.fields, keys, |keys|) <==> Norm(b) == Norm(a) by {
        SortedMembers(b.fields.Keys + a.fields.Keys);
        forall k | k in b.fields.Keys + a.fields.Keys ensures k in keys {}
      }
    }
  }

  ghost predicate SameAt(b: Fields, a: Fields, keys: seq<string>, n: nat)
    requires n <= |keys|
  {
    forall i :: 0 <= i < n ==> Norm(Get(b, keys[i])) == Norm(Get(a, keys[i]))
  }

  lemma {:induction false} KeysEmpty(path: string, b: Fields, a: Fields, keys: seq<string>, n: nat)
    requires n <= |keys|
    ensures DiffKeys(path, b, a, keys, n) == [] <==> SameAt(b, a, keys, n)
    decreases 1, Obj(b), 0, n
  {
    if n > 0 {
      KeysEmpty(path, b, a, keys, n - 1);
      ValueEmpty(ChildPath(path, keys[n - 1]), Get(b, keys[n - 1]), Get(a, keys[n - 1]));
    }
  }

  // No field is reported exactly when the snapshots are equal up to null-valued object keys.
  lemma DiffEmptyExactly(before: Json, after: Json)
    ensures JsonDiff(Some(before), Some(after)) == [] <==> Norm(before) == Norm(after)
  {
    ValueEmpty("", before, after);
  }
}
