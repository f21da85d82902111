/** Reports of creations and deletions: every leaf of the one snapshot.  An object without leaves leaves
    no trace in them. */
module AuditCreate {
  import opened Wrappers
  import opened JsonTrees
  import opened SortedStrings
  import opened AuditDiff
  import opened AuditApply
  import opened AuditPaths
  import opened AuditExact

  // ---- The leaves over lists of keys ----

  function Leaves(v: Json): seq<Change>
    decreases v, 1, 0
  {
    if !v.Obj? then [Change([], Null, v)]
    else
      SortedMembers(v.fields.Keys);
      var keys := SortedKeys(v.fields.Keys);
      KeyLeaves(v.fields, keys, |keys|)
  }

  function KeyLeaves(m: Fields, keys: seq<string>, n: nat): seq<Change>
    requires n <= |keys| && forall k :: k in keys ==> k in m
    decreases Obj(m), 0, n
  {
    if n == 0 then [] else KeyLeaves(m, keys, n - 1) + Under(keys[n - 1], Leaves(m[keys[n - 1]]))
  }

  lemma CreatedConcat(xs: seq<(string, Json)>, ys: seq<(string, Json)>)
    ensures Created(xs + ys) == Created(xs) + Created(ys)
  {
  }

  lemma {:induction false} NamedLeaves(prefix: Path, v: Json)
    ensures Created(Collect(Join(prefix), v)) == Named(prefix, Leaves(v))
    decreases v, 1, 0
  {
    if v.Obj? {
      SortedMembers(v.fields.Keys);
      var keys := SortedKeys(v.fields.Keys);
      NamedKeyLeaves(prefix, v.fields, keys, |keys|);
    } else {
      assert prefix + [] == prefix;
    }
  }

  lemma {:induction false} NamedKeyLeaves(prefix: Path, m: Fields, keys: seq<string>, n: nat)
    requires n <= |keys| && forall k :: k in keys ==> k in m
    ensures Created(CollectKeys(Join(prefix), m, keys, n)) == Named(prefix, KeyLeaves(m, keys, n))
    decreases Obj(m), 0, n
  {
    if n > 0 {
      var k := keys[n - 1];
      NamedKeyLeaves(prefix, m, keys, n - 1);
      assert k in keys;
      NamedLeaves(prefix + [k], m[k]);
      JoinSnoc(prefix, k);
      NamedUnder(prefix, k, Leaves(m[k]));
      NamedConcat(prefix, KeyLeaves(m, keys, n - 1), Under(k, Leaves(m[k])));
      CreatedConcat(CollectKeys(Join(prefix), m, keys, n - 1), Collect(ChildPath(Join(prefix), k), m[k]));
    }
  }

  // Every object key outside arrays is free of dots.
  predicate Dotless(v: Json)
    decreases v
  {
    v.Obj? ==> forall k :: k in v.fields ==> !HasDot(k) && Dotless(v.fields[k])
  }

  // The outermost object has no empty key.
  predicate NoEmptyTop(v: Json) { v.Obj? ==> "" !in v.fields }

  lemma {:induction false} LeavesDotFree(v: Json, i: nat)
    requires Dotless(v) && i < |Leaves(v)|
    ensures DotFree(Leaves(v)[i].path)
    ensures NoEmptyTop(v) ==> Readable(Leaves(v)[i].path)
    decreases v, 1, 0
  {
    if v.Obj? {
      SortedMembers(v.fields.Keys);
      var keys := SortedKeys(v.fields.Keys);
      KeyLeavesDotFree(v.fields, keys, |keys|, i);
    }
  }

  lemma {:induction false} KeyLeavesDotFree(m: Fields, keys: seq<string>, n: nat, i: nat)
    requires n <= |keys| && (forall k :: k in keys ==> k in m) && Dotless(Obj(m)) && i < |KeyLeaves(m, keys, n)|
    ensures var p := KeyLeaves(m, keys, n)[i].path; DotFree(p) && p != [] && p[0] in m
    decreases Obj(m), 0, n
  {
    var done := |KeyLeaves(m, keys, n - 1)|;
    if i < done {
      KeyLeavesDotFree(m, keys, n - 1, i);
    } else {
      assert keys[n - 1] in m;
      LeavesDotFree(m[keys[n - 1]], i - done);
    }
  }

  // ---- What a creation report rebuilds ----

  // An object with no leaf below it.
  predicate Leafless(v: Json)
    decreases v
  {
    v.Obj? && forall k :: k in v.fields ==> Leafless(v.fields[k])
  }

  // The value without null-valued keys and without leafless objects.
  function Bare(v: Json): Json
    decreases v
  {
    if !v.Obj? then v
    else if Leafless(v) then Null
    else Obj(BareFields(v.fields))
  }

  function BareFields(m: Fields): Fields
    decreases Obj(m), 0
  {
    map k | k in m && Bare(m[k]) != Null :: Bare(m[k])
  }

  lemma {:induction false} LeavesRebuild(v: Json)
    ensures Apply(Null, Leaves(v)) == Bare(v)
    ensures Leaves(v) == [] <==> Leafless(v)
    decreases v, 1, 0
  {
    if v.Obj? {
      SortedMembers(v.fields.Keys);
      SortedAscending(v.fields.Keys);
      var keys := SortedKeys(v.fields.Keys);
      var f := KeysCreate(v.fields, keys, |keys|);
      AllCreated(v.fields, f, keys);
    }
  }

  function BareAt(m: Fields): string -> Json { k => Bare(Get(m, k)) }

  lemma AllCreated(m: Fields, f: Fields, keys: seq<string>)
    requires (forall k :: k in keys <==> k in m) && BuiltAt(BareAt(m), f, keys, |keys|)
    ensures f == BareFields(m) && (NoLeaves(m, keys, |keys|) <==> Leafless(Obj(m)))
  {
    forall k ensures Get(f, k) == if k in m then Bare(m[k]) else Null { BuiltAll(BareAt(m), f, keys, k); }
    assert forall k :: k in f <==> k in BareFields(m);
    if NoLeaves(m, keys, |keys|) {
      forall k | k in m ensures Leafless(m[k]) {
        var i :| 0 <= i < |keys| && keys[i] == k;
      }
    }
  }

  ghost predicate NoLeaves(m: Fields, keys: seq<string>, n: nat)
    requires n <= |keys| && forall k :: k in keys ==> k in m
  {
    forall i :: 0 <= i < n ==> Leafless(m[keys[i]])
  }

  lemma {:induction false} KeysCreate(m: Fields, keys: seq<string>, n: nat) returns (f: Fields)
    requires n <= |keys| && Ascending(keys) && forall k :: k in keys ==> k in m
    ensures Apply(Null, KeyLeaves(m, keys, n)) == if KeyLeaves(m, keys, n) == [] then Null else Obj(f)
    ensures BuiltAt(BareAt(m), f, keys, n)
    ensures KeyLeaves(m, keys, n) == [] ==> f == map[]
    ensures KeyLeaves(m, keys, n) == [] <==> NoLeaves(m, keys, n)
    decreases Obj(m), 0, n
  {
    f := map[];
    if n > 0 {
      var k := keys[n - 1];
      assert k in keys;
      var w := KeysCreate(m, keys, n - 1);
      var done, cs := KeyLeaves(m, keys, n - 1), Leaves(m[k]);
      LeavesRebuild(m[k]);
      f := BuildUnder(w, k, done, cs);
      assert KeyLeaves(m, keys, n) == done + Under(k, cs);
      BuiltNext(BareAt(m), w, f, keys, n);
    }
  }

  // Writing a creation report to nothing gives the created value, bare.
  lemma CreationRebuilds(v: Json)
    requires Dotless(v) && NoEmptyTop(v)
    ensures ApplyFields(Null, JsonDiff(None, Some(v))) == Bare(v)
  {
    var cs := Leaves(v);
    NamedLeaves([], v);
    forall i | 0 <= i < |cs| ensures Readable(cs[i].path) { LeavesDotFree(v, i); }
    ApplyNamed(Null, cs);
    LeavesRebuild(v);
  }

  // The report of a creation or a deletion is empty exactly for a value without leaves.
  lemma CreationEmptyExactly(v: Json)
    ensures JsonDiff(None, Some(v)) == [] <==> Leafless(v)
    ensures JsonDiff(Some(v), None) == [] <==> Leafless(v)
    ensures JsonDiff(None, None) == []
  {
    NamedLeaves([], v);
    LeavesRebuild(v);
    assert |JsonDiff(None, Some(v))| == |Collect("", v)| == |JsonDiff(Some(v), None)|;
  }

  // Every object outside arrays has a leaf below it.
  predicate Solid(v: Json)
    decreases v
  {
    v.Obj? ==> !Leafless(v) && forall k :: k in v.fields ==> Solid(v.fields[k])
  }

  lemma {:induction false} BareLosesEmpty(v: Json)
    ensures Norm(Bare(v)) == Norm(v) <==> Solid(v)
    decreases v
  {
    NormNull(v);
    if v.Obj? && !Leafless(v) {
      var m, f := v.fields, BareFields(v.fields);
      NormObj(f, m);
      forall k | k in m ensures Norm(Get(f, k)) == Norm(Get(m, k)) <==> Solid(m[k]) { BareLosesEmpty(m[k]); }
      assert forall k :: k in f.Keys + m.Keys <==> k in m;
    }
  }

  // ---- Keys a creation report cannot name ----

  lemma {:induction false} LeavesAreLeaves(v: Json, i: nat)
    requires i < |Leaves(v)|
    ensures !Leaves(v)[i].after.Obj?
    decreases v, 1, 0
  {
    if v.Obj? {
      SortedMembers(v.fields.Keys);
      var keys := SortedKeys(v.fields.Keys);
      KeyLeavesAreLeaves(v.fields, keys, |keys|, i);
    }
  }

  lemma {:induction false} KeyLeavesAreLeaves(m: Fields, keys: seq<string>, n: nat, i: nat)
    requires n <= |keys| && (forall k :: k in keys ==> k in m) && i < |KeyLeaves(m, keys, n)|
    ensures !KeyLeaves(m, keys, n)[i].after.Obj?
    decreases Obj(m), 0, n
  {
    var done := |KeyLeaves(m, keys, n - 1)|;
    if i < done {
      KeyLeavesAreLeaves(m, keys, n - 1, i);
    } else {
      assert keys[n - 1] in keys;
      LeavesAreLeaves(m[keys[n - 1]], i - done);
    }
  }

  // No null-valued key has a dot or is the empty key of the outermost object.
  predicate NullsNamed(v: Json) { NoDottedNull(v) && (v.Obj? && "" in v.fields ==> v.fields[""] != Null) }

  predicate NoDottedNull(v: Json)
    decreases v
  {
    v.Obj? ==> forall k :: k in v.fields ==> NoDottedNull(v.fields[k]) && (HasDot(k) ==> v.fields[k] != Null)
  }

  lemma {:induction false} DottedKeyFound(v: Json) returns (d: Path)
    requires !Dotless(v) && NoDottedNull(v)
    ensures d != [] && HasDot(d[|d| - 1]) && Lookup(v, d) != Null
    decreases v
  {
    var k :| k in v.fields && (HasDot(k) || !Dotless(v.fields[k]));
    if HasDot(k) {
      d := [k];
    } else {
      var e := DottedKeyFound(v.fields[k]);
      d := [k] + e;
      assert d[1..] == e;
    }
  }

  lemma MissedKey(v: Json, d: Path)
    requires Lookup(v, d) != Null
    requires forall i :: 0 <= i < |Leaves(v)| ==> !(d <= Split(Join(Leaves(v)[i].path)))
    ensures Norm(ApplyFields(Null, JsonDiff(None, Some(v)))) != Norm(v)
  {
    var cs, r := Leaves(v), JsonDiff(None, Some(v));
    NamedLeaves([], v);
    forall i | 0 <= i < |r| ensures !r[i].after.Obj? && !(d <= Split(r[i].field)) {
      assert [] + cs[i].path == cs[i].path;
      LeavesAreLeaves(v, i);
    }
    NothingThere(r, d);
    NormNull(Lookup(v, d));
    if Norm(ApplyFields(Null, r)) == Norm(v) { NormLookup(ApplyFields(Null, r), v, d); }
  }

  lemma UnnamedKeyLost(v: Json)
    requires NullsNamed(v) && !(Dotless(v) && NoEmptyTop(v))
    ensures Norm(ApplyFields(Null, JsonDiff(None, Some(v)))) != Norm(v)
  {
    var cs := Leaves(v);
    if Dotless(v) {
      forall i | 0 <= i < |cs| ensures !([""] <= Split(Join(cs[i].path))) {
        LeavesDotFree(v, i);
        EmptyKeyUnread(cs[i].path);
      }
      MissedKey(v, [""]);
    } else {
      var d := DottedKeyFound(v);
      forall i | 0 <= i < |cs| ensures !(d <= Split(Join(cs[i].path))) {
        SplitDotFree(Join(cs[i].path));
        NoDottedPrefix(d, Split(Join(cs[i].path)));
      }
      MissedKey(v, d);
    }
  }

  // So a creation report tells the whole value, up to null-valued keys, exactly when no object in it is
  // without leaves, no key has a dot and the outermost object has no empty key.
  lemma CreationFaithfulExactly(v: Json)
    requires NullsNamed(v)
    ensures Norm(ApplyFields(Null, JsonDiff(None, Some(v)))) == Norm(v) <==> Solid(v) && Dotless(v) && NoEmptyTop(v)
  {
    if Dotless(v) && NoEmptyTop(v) {
      CreationRebuilds(v);
      BareLosesEmpty(v);
    } else {
      UnnamedKeyLost(v);
    }
  }
}
