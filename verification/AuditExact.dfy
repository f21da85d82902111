/** Exactly when writing a report back rebuilds the other snapshot. */
module AuditExact {
  import opened Wrappers
  import opened JsonTrees
  import opened AuditDiff
  import opened AuditApply
  import opened AuditPaths

  // ---- The condition, on the two snapshots ----

  // Wherever both sides have an object, they agree, up to null-valued keys, at every key with a dot.
  ghost predicate DotsAgree(b: Json, a: Json)
    decreases Both(b, a), b
  {
    b.Obj? && a.Obj? ==>
      forall k :: k in b.fields.Keys + a.fields.Keys ==>
        if HasDot(k) then Norm(Get(b.fields, k)) == Norm(Get(a.fields, k))
        else DotsAgree(Get(b.fields, k), Get(a.fields, k))
  }

  // They agree at the empty key of the outermost object, which a path cannot name.
  predicate SameAtEmpty(b: Json, a: Json) {
    b.Obj? && a.Obj? ==> Norm(Get(b.fields, "")) == Norm(Get(a.fields, ""))
  }

  // ---- Differences along a path ----

  // Both sides have objects all the way down to the end of the path.
  predicate Met(b: Json, a: Json, path: Path)
    decreases |path|
  {
    path == [] || (b.Obj? && a.Obj? && Met(Get(b.fields, path[0]), Get(a.fields, path[0]), path[1..]))
  }

  lemma {:induction false} MetAbove(b: Json, a: Json, path: Path, n: nat)
    requires Met(b, a, path) && n <= |path|
    ensures Met(b, a, path[..n])
    ensures n < |path| ==> Lookup(b, path[..n]).Obj? && Lookup(a, path[..n]).Obj?
    decreases |path|
  {
    if n > 0 {
      assert path[..n][1..] == path[1..][..n - 1] && path[..n][0] == path[0];
      MetAbove(Get(b.fields, path[0]), Get(a.fields, path[0]), path[1..], n - 1);
    }
  }

  lemma {:induction false} NormLookup(x: Json, y: Json, path: Path)
    requires Norm(x) == Norm(y)
    ensures Norm(Lookup(x, path)) == Norm(Lookup(y, path))
    decreases |path|
  {
    if path != [] {
      var k := path[0];
      NormNull(x);
      NormNull(y);
      if x.Obj? {
        NormObj(x.fields, y.fields);
        if k in x.fields.Keys + y.fields.Keys {}
      }
      NormLookup(Get(FieldsOf(x), k), Get(FieldsOf(y), k), path[1..]);
    }
  }

  lemma LookupOne(v: Json, k: string)
    ensures Lookup(v, [k]) == Get(FieldsOf(v), k)
  {
    assert [k][1..] == [];
  }

  lemma {:induction false} LookupSplit(v: Json, path: Path, n: nat)
    requires n <= |path|
    ensures Lookup(v, path) == Lookup(Lookup(v, path[..n]), path[n..])
    decreases |path|
  {
    if n > 0 {
      assert path[..n][1..] == path[1..][..n - 1] && path[..n][0] == path[0] && path[1..][n - 1..] == path[n..];
      LookupSplit(Get(FieldsOf(v), path[0]), path[1..], n - 1);
    }
  }

  lemma {:induction false} ChangesMet(b: Json, a: Json, i: nat)
    requires i < |Changes(b, a)|
    ensures Met(b, a, Changes(b, a)[i].path)
    decreases Both(b, a), b, 1, 0
  {
    if b.Obj? && a.Obj? {
      var keys := AllKeys(b.fields, a.fields);
      KeyChangesMet(b.fields, a.fields, keys, |keys|, i);
    }
  }

  lemma {:induction false} KeyChangesMet(b: Fields, a: Fields, keys: seq<string>, n: nat, i: nat)
    requires n <= |keys| && i < |KeyChanges(b, a, keys, n)|
    ensures Met(Obj(b), Obj(a), KeyChanges(b, a, keys, n)[i].path) && KeyChanges(b, a, keys, n)[i].path != []
    decreases 1, Obj(b), 0, n
  {
    var done := |KeyChanges(b, a, keys, n - 1)|;
    if i < done {
      KeyChangesMet(b, a, keys, n - 1, i);
    } else {
      var k := keys[n - 1];
      ChangesMet(Get(b, k), Get(a, k), i - done);
      var c := Changes(Get(b, k), Get(a, k))[i - done];
      assert ([k] + c.path)[1..] == c.path;
    }
  }

  // The sides differ, beyond null-valued keys, at every point above a reported change.
  lemma DiffersAbove(b: Json, a: Json, i: nat, n: nat)
    requires i < |Changes(b, a)| && n <= |Changes(b, a)[i].path|
    ensures var r := Changes(b, a)[i].path[..n]; Norm(Lookup(b, r)) != Norm(Lookup(a, r))
  {
    var c := Changes(b, a)[i];
    ChangesReal(b, a, i);
    NormNull(c.before);
    NormNull(c.after);
    LookupSplit(b, c.path, n);
    LookupSplit(a, c.path, n);
    if Norm(Lookup(b, c.path[..n])) == Norm(Lookup(a, c.path[..n])) {
      NormLookup(Lookup(b, c.path[..n]), Lookup(a, c.path[..n]), c.path[n..]);
    }
  }

  // ---- Where the condition fails ----

  // The sides differ at the end of this path, which is a key with a dot.
  ghost predicate DottedDifference(b: Json, a: Json, d: Path) {
    d != [] && HasDot(d[|d| - 1]) && Met(b, a, d) && Norm(Lookup(b, d)) != Norm(Lookup(a, d))
  }

  lemma {:induction false} DisagreementFound(b: Json, a: Json) returns (d: Path)
    requires !DotsAgree(b, a)
    ensures DottedDifference(b, a, d)
    decreases Both(b, a), b
  {
    var k :| k in b.fields.Keys + a.fields.Keys &&
      if HasDot(k) then Norm(Get(b.fields, k)) != Norm(Get(a.fields, k))
      else !DotsAgree(Get(b.fields, k), Get(a.fields, k));
    if HasDot(k) {
      d := [k];
    } else {
      var e := DisagreementFound(Get(b.fields, k), Get(a.fields, k));
      d := [k] + e;
      assert d[1..] == e;
    }
  }

  lemma {:induction false} Shallowest(b: Json, a: Json, e: Path) returns (d: Path)
    requires DottedDifference(b, a, e)
    ensures DottedDifference(b, a, d) && forall p :: DottedDifference(b, a, p) ==> |d| <= |p|
    decreases |e|
  {
    if p :| DottedDifference(b, a, p) && |p| < |e| { d := Shallowest(b, a, p); } else { d := e; }
  }

  lemma {:induction false} DotsAgreeAlong(b: Json, a: Json, path: Path, n: nat)
    requires DotsAgree(b, a) && Met(b, a, path) && n < |path| && HasDot(path[n])
    ensures exists m :: 0 <= m <= |path| && Norm(Lookup(b, path[..m])) == Norm(Lookup(a, path[..m]))
    decreases |path|
  {
    var k := path[0];
    var x, y := Get(b.fields, k), Get(a.fields, k);
    if HasDot(k) {
      assert path[..1] == [k];
      LookupOne(b, k);
      LookupOne(a, k);
    } else {
      DotsAgreeAlong(x, y, path[1..], n - 1);
      var m :| 0 <= m <= |path[1..]| && Norm(Lookup(x, path[1..][..m])) == Norm(Lookup(y, path[1..][..m]));
      assert path[..m + 1][1..] == path[1..][..m] && path[..m + 1][0] == k;
    }
  }

  // ---- Readability of a report ----

  lemma ReportedReadable(b: Json, a: Json, i: nat)
    requires DotsAgree(b, a) && SameAtEmpty(b, a) && i < |Changes(b, a)|
    ensures Readable(Changes(b, a)[i].path)
  {
    ReportedDotFree(b, a, i);
    NotEmptyFirst(b, a, i);
  }

  lemma ReportedDotFree(b: Json, a: Json, i: nat)
    requires DotsAgree(b, a) && i < |Changes(b, a)|
    ensures DotFree(Changes(b, a)[i].path)
  {
    var q := Changes(b, a)[i].path;
    ChangesMet(b, a, i);
    forall n | 0 <= n < |q| ensures !HasDot(q[n]) {
      if HasDot(q[n]) {
        DotsAgreeAlong(b, a, q, n);
        var m :| 0 <= m <= |q| && Norm(Lookup(b, q[..m])) == Norm(Lookup(a, q[..m]));
        DiffersAbove(b, a, i, m);
      }
    }
  }

  lemma NotEmptyFirst(b: Json, a: Json, i: nat)
    requires SameAtEmpty(b, a) && i < |Changes(b, a)|
    ensures var q := Changes(b, a)[i].path; q == [] || q[0] != ""
  {
    var q := Changes(b, a)[i].path;
    if q != [] {
      ChangesMet(b, a, i);
      DiffersAbove(b, a, i, 1);
      assert q[..1] == [q[0]];
      LookupOne(b, q[0]);
      LookupOne(a, q[0]);
    }
  }

  lemma NoDottedPrefix(d: Path, w: Path)
    requires d != [] && HasDot(d[|d| - 1]) && DotFree(w)
    ensures !(d <= w)
  {
  }

  lemma ObjectsAbove(b: Json, a: Json, d: Path, q: Path)
    requires Met(b, a, d) && q <= d && |q| < |d|
    ensures Lookup(b, q).Obj? && Lookup(a, q).Obj?
  {
    MetAbove(b, a, d, |q|);
    assert d[..|q|] == q;
  }

  // No written path leads through the shallowest dotted difference.
  lemma WrittenApart(b: Json, a: Json, d: Path, i: nat)
    requires SameAtEmpty(b, a) && i < |Changes(b, a)|
    requires DottedDifference(b, a, d) && forall p :: DottedDifference(b, a, p) ==> |d| <= |p|
    ensures Apart(Split(Join(Changes(b, a)[i].path)), d)
  {
    var q := Changes(b, a)[i].path;
    var w := Split(Join(q));
    SplitDotFree(Join(q));
    NotEmptyFirst(b, a, i);
    ChangesReal(b, a, i);
    ChangesMet(b, a, i);
    ApartOrPrefix(w, d);
    NoDottedPrefix(d, w);
    if DotFree(q) {
      SplitJoin(q);
      if q <= d { ObjectsAbove(b, a, d, q); }
    } else {
      var t :| 0 <= t < |q| && HasDot(q[t]);
      MetAbove(b, a, q, t + 1);
      DiffersAbove(b, a, i, t + 1);
      assert DottedDifference(b, a, q[..t + 1]);
      DottedReadsLonger(q);
    }
  }

  // ---- The exact condition ----

  ghost predicate Rebuilds(b: Json, a: Json) {
    Norm(ApplyFields(b, JsonDiff(Some(b), Some(a)))) == Norm(a)
  }

  lemma AgreementRebuilds(b: Json, a: Json)
    requires DotsAgree(b, a) && SameAtEmpty(b, a)
    ensures Rebuilds(b, a)
  {
    var cs := Changes(b, a);
    NamedValue([], b, a);
    forall i | 0 <= i < |cs| ensures Readable(cs[i].path) { ReportedReadable(b, a, i); }
    ApplyNamed(b, cs);
    ChangesRebuild(b, a);
  }

  lemma DisagreementStays(b: Json, a: Json)
    requires !DotsAgree(b, a) && SameAtEmpty(b, a)
    ensures !Rebuilds(b, a)
  {
    var e := DisagreementFound(b, a);
    var d := Shallowest(b, a, e);
    DottedUntouched(b, a, d);
    if Rebuilds(b, a) { NormLookup(ApplyFields(b, JsonDiff(Some(b), Some(a))), a, d); }
  }

  lemma DottedUntouched(b: Json, a: Json, d: Path)
    requires SameAtEmpty(b, a)
    requires DottedDifference(b, a, d) && forall p :: DottedDifference(b, a, p) ==> |d| <= |p|
    ensures Lookup(ApplyFields(b, JsonDiff(Some(b), Some(a))), d) == Lookup(b, d)
  {
    var cs, r := Changes(b, a), JsonDiff(Some(b), Some(a));
    NamedValue([], b, a);
    forall i | 0 <= i < |r| ensures Apart(Split(r[i].field), d) {
      assert [] + cs[i].path == cs[i].path;
      WrittenApart(b, a, d, i);
    }
    FieldsApart(b, r, d);
  }

  // Setting every reported path of `before` to its `after` value, null removing the key, gives `after` up to
  // null-valued object keys, exactly when the snapshots agree at every key with a dot that two common
  // objects have.
  lemma DiffRebuildsExactly(before: Json, after: Json)
    requires SameAtEmpty(before, after)
    ensures Rebuilds(before, after) <==> DotsAgree(before, after)
  {
    if DotsAgree(before, after) { AgreementRebuilds(before, after); } else { DisagreementStays(before, after); }
  }

  lemma {:induction false} DotsAgreeSwapped(b: Json, a: Json)
    requires DotsAgree(b, a)
    ensures DotsAgree(a, b)
    decreases Both(b, a), b
  {
    if b.Obj? && a.Obj? {
      forall k | k in a.fields.Keys + b.fields.Keys && !HasDot(k)
        ensures DotsAgree(Get(a.fields, k), Get(b.fields, k))
      {
        assert k in b.fields.Keys + a.fields.Keys;
        DotsAgreeSwapped(Get(b.fields, k), Get(a.fields, k));
      }
    }
  }

  // Setting the reported paths of `after` to their `before` values undoes the change, under the same condition.
  lemma DiffUndoneExactly(before: Json, after: Json)
    requires SameAtEmpty(before, after)
    ensures Norm(ApplyFields(after, Swapped(JsonDiff(Some(before), Some(after))))) == Norm(before)
      <==> DotsAgree(before, after)
  {
    DiffSymmetric(Some(before), Some(after));
    DiffRebuildsExactly(after, before);
    if DotsAgree(before, after) { DotsAgreeSwapped(before, after); }
    if DotsAgree(after, before) { DotsAgreeSwapped(after, before); }
  }

  // A changed key with a dot is reported under a path that reads back as two keys.
  lemma DottedKeyMisread()
    ensures !Rebuilds(Obj(map["a.b" := Num("1")]), Obj(map["a.b" := Num("2")]))
  {
    var b, a := Obj(map["a.b" := Num("1")]), Obj(map["a.b" := Num("2")]);
    assert "a.b" in b.fields.Keys + a.fields.Keys && "a.b"[1] == '.';
    DiffRebuildsExactly(b, a);
  }
}
