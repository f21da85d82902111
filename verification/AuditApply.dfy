/** The difference over lists of keys: it carries the whole change, and the program's report is that
    difference with its lists joined into paths. */
module AuditApply {
  import opened JsonTrees
  import opened SortedStrings
  import opened AuditDiff

  // ---- The difference over lists of keys, independent of how paths are written ----

  datatype Change = Change(path: Path, before: Json, after: Json)

  // The same changes, one level deeper.
  function Under(k: string, cs: seq<Change>): seq<Change> {
    seq(|cs|, i requires 0 <= i < |cs| => cs[i].(path := [k] + cs[i].path))
  }

  function Changes(b: Json, a: Json): seq<Change>
    decreases Both(b, a), b, 1, 0
  {
    if b == a then []
    else if b.Obj? && a.Obj? then
      var keys := AllKeys(b.fields, a.fields);
      KeyChanges(b.fields, a.fields, keys, |keys|)
    else [Change([], b, a)]
  }

  function KeyChanges(b: Fields, a: Fields, keys: seq<string>, n: nat): seq<Change>
    requires n <= |keys|
    decreases 1, Obj(b), 0, n
  {
    if n == 0 then []
    else
      var k := keys[n - 1];
      KeyChanges(b, a, keys, n - 1) + Under(k, Changes(Get(b, k), Get(a, k)))
  }

  function Apply(v: Json, cs: seq<Change>): Json
    decreases |cs|
  {
    if cs == [] then v else SetAt(Apply(v, cs[..|cs| - 1]), cs[|cs| - 1].path, cs[|cs| - 1].after)
  }

  lemma {:induction false} ApplyConcat(v: Json, cs: seq<Change>, ds: seq<Change>)
    ensures Apply(v, cs + ds) == Apply(Apply(v, cs), ds)
    decreases |ds|
  {
    if ds == [] {
      assert cs + ds == cs;
    } else {
      var n := |ds| - 1;
      ApplyConcat(v, cs, ds[..n]);
      assert (cs + ds)[..|cs| + n] == cs + ds[..n];
    }
  }

  predicate NoNulls(m: Fields) { forall k :: k in m ==> m[k] != Null }

  // Changes below a key act on that key alone.
  lemma {:induction false} ApplyUnder(m: Fields, k: string, cs: seq<Change>) returns (r: Fields)
    ensures Apply(Obj(m), Under(k, cs)) == Obj(r)
    ensures Get(r, k) == Apply(Get(m, k), cs)
    ensures forall j :: j != k ==> Get(r, j) == Get(m, j)
    ensures NoNulls(m) ==> NoNulls(r)
    decreases |cs|
  {
    r := m;
    if cs != [] {
      var n := |cs| - 1;
      var c := cs[n];
      var w := ApplyUnder(m, k, cs[..n]);
      assert Under(k, cs)[..n] == Under(k, cs[..n]);
      assert ([k] + c.path)[1..] == c.path;
      r := Put(w, k, SetAt(Get(w, k), c.path, c.after));
    }
  }

  // ---- Writing changes to nothing ----

  lemma {:induction false} ApplyToFields(v: Json, cs: seq<Change>)
    requires cs != [] && cs[0].path != []
    ensures Apply(v, cs) == Apply(Obj(FieldsOf(v)), cs)
    decreases |cs|
  {
    if |cs| > 1 { ApplyToFields(v, cs[..|cs| - 1]); }
  }

  lemma BuildUnder(w: Fields, k: string, done: seq<Change>, cs: seq<Change>) returns (f: Fields)
    requires Apply(Null, done) == if done == [] then Null else Obj(w)
    requires NoNulls(w) && (done == [] ==> w == map[]) && Get(w, k) == Null
    ensures Apply(Null, done + Under(k, cs)) == if done + Under(k, cs) == [] then Null else Obj(f)
    ensures done + Under(k, cs) == [] <==> done == [] && cs == []
    ensures NoNulls(f) && Get(f, k) == Apply(Null, cs) && forall j :: j != k ==> Get(f, j) == Get(w, j)
    ensures done + Under(k, cs) == [] ==> f == map[]
  {
    f := ApplyUnder(w, k, cs);
    ApplyConcat(Null, done, Under(k, cs));
    if cs == [] {
      assert Under(k, cs) == [] && done + [] == done;
    } else if done == [] {
      ApplyToFields(Null, Under(k, cs));
    }
  }

  // f holds g(k) for the first n keys, and nothing else.
  ghost predicate BuiltAt(g: string -> Json, f: Fields, keys: seq<string>, n: nat)
    requires n <= |keys|
  {
    && NoNulls(f)
    && (forall i :: 0 <= i < n ==> Get(f, keys[i]) == g(keys[i]))
    && (forall k :: k !in keys[..n] ==> Get(f, k) == Null)
  }

  lemma BuiltNext(g: string -> Json, w: Fields, f: Fields, keys: seq<string>, n: nat)
    requires 0 < n <= |keys| && BuiltAt(g, w, keys, n - 1) && NoNulls(f) && keys[n - 1] !in keys[..n - 1]
    requires Get(f, keys[n - 1]) == g(keys[n - 1])
    requires forall j :: j != keys[n - 1] ==> Get(f, j) == Get(w, j)
    ensures BuiltAt(g, f, keys, n)
  {
    assert keys[..n] == keys[..n - 1] + [keys[n - 1]];
    forall i | 0 <= i < n - 1 ensures keys[i] != keys[n - 1] { assert keys[i] in keys[..n - 1]; }
  }

  lemma BuiltAll(g: string -> Json, f: Fields, keys: seq<string>, k: string)
    requires BuiltAt(g, f, keys, |keys|)
    ensures Get(f, k) == if k in keys then g(k) else Null
  {
    assert keys[..|keys|] == keys;
  }

  // ---- Changes rebuild the other side ----

  lemma {:induction false} ChangesRebuild(b: Json, a: Json)
    ensures Norm(Apply(b, Changes(b, a))) == Norm(a)
    decreases Both(b, a), b, 1, 0
  {
    if b != a && b.Obj? && a.Obj? {
      var keys := AllKeys(b.fields, a.fields);
      SortedAscending(b.fields.Keys + a.fields.Keys);
      SortedMembers(b.fields.Keys + a.fields.Keys);
      var m := KeysRebuild(b.fields, a.fields, keys, |keys|);
      NormObj(m, a.fields);
      forall k | k in m.Keys + a.fields.Keys ensures Norm(Get(m, k)) == Norm(Get(a.fields, k)) {
        if k in keys {
          var i :| 0 <= i < |keys| && keys[i] == k;
        }
      }
    }
  }

  ghost predicate Rebuilt(b: Fields, a: Fields, m: Fields, keys: seq<string>, n: nat)
    requires n <= |keys|
  {
    && (forall i :: 0 <= i < n ==> Norm(Get(m, keys[i])) == Norm(Get(a, keys[i])))
    && (forall k :: k !in keys[..n] ==> Get(m, k) == Get(b, k))
  }

  lemma RebuiltNext(b: Fields, a: Fields, w: Fields, m: Fields, keys: seq<string>, n: nat)
    requires 0 < n <= |keys| && Rebuilt(b, a, w, keys, n - 1) && keys[n - 1] !in keys[..n - 1]
    requires Norm(Get(m, keys[n - 1])) == Norm(Get(a, keys[n - 1]))
    requires forall j :: j != keys[n - 1] ==> Get(m, j) == Get(w, j)
    ensures Rebuilt(b, a, m, keys, n)
  {
    assert keys[..n] == keys[..n - 1] + [keys[n - 1]];
    forall i | 0 <= i < n - 1 ensures keys[i] != keys[n - 1] { assert keys[i] in keys[..n - 1]; }
  }

  lemma {:induction false} KeysRebuild(b: Fields, a: Fields, keys: seq<string>, n: nat) returns (m: Fields)
    requires n <= |keys| && Ascending(keys)
    ensures Apply(Obj(b), KeyChanges(b, a, keys, n)) == Obj(m) && Rebuilt(b, a, m, keys, n)
    decreases 1, Obj(b), 0, n
  {
    m := b;
    if n > 0 {
      var k := keys[n - 1];
      var w := KeysRebuild(b, a, keys, n - 1);
      var cs := Changes(Get(b, k), Get(a, k));
      ChangesRebuild(Get(b, k), Get(a, k));
      ApplyConcat(Obj(b), KeyChanges(b, a, keys, n - 1), Under(k, cs));
      m := ApplyUnder(w, k, cs);
      RebuiltNext(b, a, w, m, keys, n);
    }
  }

  // ---- Every reported change is a difference at its path ----

  lemma {:induction false} ChangesReal(b: Json, a: Json, i: nat)
    requires i < |Changes(b, a)|
    ensures var c := Changes(b, a)[i];
      && Lookup(b, c.path) == c.before && Lookup(a, c.path) == c.after
      && c.before != c.after && !(c.before.Obj? && c.after.Obj?)
    decreases Both(b, a), b, 1, 0
  {
    if b.Obj? && a.Obj? {
      var keys := AllKeys(b.fields, a.fields);
      KeyChangesReal(b.fields, a.fields, keys, |keys|, i);
    }
  }

  lemma {:induction false} KeyChangesReal(b: Fields, a: Fields, keys: seq<string>, n: nat, i: nat)
    requires n <= |keys| && i < |KeyChanges(b, a, keys, n)|
    ensures var c := KeyChanges(b, a, keys, n)[i];
      && Lookup(Obj(b), c.path) == c.before && Lookup(Obj(a), c.path) == c.after
      && c.before != c.after && !(c.before.Obj? && c.after.Obj?)
    decreases 1, Obj(b), 0, n
  {
    var done := |KeyChanges(b, a, keys, n - 1)|;
    if i < done {
      KeyChangesReal(b, a, keys, n - 1, i);
    } else {
      var k := keys[n - 1];
      ChangesReal(Get(b, k), Get(a, k), i - done);
      var c := Changes(Get(b, k), Get(a, k))[i - done];
      assert ([k] + c.path)[1..] == c.path;
    }
  }

  // ---- Paths as the program writes them ----

  function Join(path: Path): string
    decreases |path|
  {
    if path == [] then "" else ChildPath(Join(path[..|path| - 1]), path[|path| - 1])
  }

  function Named(prefix: Path, cs: seq<Change>): seq<ChangeField> {
    seq(|cs|, i requires 0 <= i < |cs| => ChangeField(Join(prefix + cs[i].path), cs[i].before, cs[i].after))
  }

  lemma NamedConcat(prefix: Path, cs: seq<Change>, ds: seq<Change>)
    ensures Named(prefix, cs + ds) == Named(prefix, cs) + Named(prefix, ds)
  {
  }

  lemma JoinSnoc(prefix: Path, k: string)
    ensures Join(prefix + [k]) == ChildPath(Join(prefix), k)
  {
    assert (prefix + [k])[..|prefix|] == prefix;
  }

  // The program's difference is the one over key lists, its paths joined; this holds for all keys.
  lemma {:induction false} NamedValue(prefix: Path, b: Json, a: Json)
    ensures DiffValue(Join(prefix), b, a) == Named(prefix, Changes(b, a))
    decreases Both(b, a), b, 1, 0
  {
    if b != a && b.Obj? && a.Obj? {
      var keys := AllKeys(b.fields, a.fields);
      NamedKeys(prefix, b.fields, a.fields, keys, |keys|);
    } else {
      assert prefix + [] == prefix;
    }
  }

  lemma {:induction false} NamedKeys(prefix: Path, b: Fields, a: Fields, keys: seq<string>, n: nat)
    requires n <= |keys|
    ensures DiffKeys(Join(prefix), b, a, keys, n) == Named(prefix, KeyChanges(b, a, keys, n))
    decreases 1, Obj(b), 0, n
  {
    if n > 0 {
      var k := keys[n - 1];
      NamedKeys(prefix, b, a, keys, n - 1);
      var cs := Changes(Get(b, k), Get(a, k));
      NamedValue(prefix + [k], Get(b, k), Get(a, k));
      JoinSnoc(prefix, k);
      NamedUnder(prefix, k, cs);
      NamedConcat(prefix, KeyChanges(b, a, keys, n - 1), Under(k, cs));
    }
  }

  lemma NamedUnder(prefix: Path, k: string, cs: seq<Change>)
    ensures Named(prefix, Under(k, cs)) == Named(prefix + [k], cs)
  {
    forall i | 0 <= i < |cs| ensures prefix + Under(k, cs)[i].path == prefix + [k] + cs[i].path {}
  }
}
