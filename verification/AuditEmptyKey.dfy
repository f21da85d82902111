/** Reports on snapshots that differ at the empty key of their outermost object, whose change reads like one
    of the whole snapshot. */
module AuditEmptyKey {
  import opened Wrappers
  import opened Collections
  import opened JsonTrees
  import opened SortedStrings
  import opened AuditDiff
  import opened AuditApply
  import opened AuditPaths
  import opened AuditExact

  // ---- The empty key is never written below the root ----

  lemma SetKeepsEmpty(v: Json, w: Path, x: Json)
    requires w == [] || w[0] != ""
    ensures Get(FieldsOf(SetAt(v, w, x)), "") == Get(FieldsOf(if w == [] then x else v), "")
  {
  }

  lemma NamedLast(v: Json, cs: seq<Change>)
    requires cs != []
    ensures var n := |cs| - 1;
      ApplyFields(v, Named([], cs)) == SetAt(ApplyFields(v, Named([], cs[..n])), Split(Join(cs[n].path)), cs[n].after)
  {
    var n := |cs| - 1;
    assert Named([], cs)[..n] == Named([], cs[..n]);
    assert [] + cs[n].path == cs[n].path;
  }

  lemma {:induction false} EmptyKeyAfter(v: Json, cs: seq<Change>) returns (last: Option<nat>)
    requires forall i :: 0 <= i < |cs| ==> DotFree(cs[i].path)
    ensures last.Some? ==> last.value < |cs| && AllEmpty(cs[last.value].path)
    ensures Get(FieldsOf(ApplyFields(v, Named([], cs))), "") ==
      Get(FieldsOf(if last.Some? then cs[last.value].after else v), "")
    decreases |cs|
  {
    last := None;
    if cs != [] {
      var n := |cs| - 1;
      last := EmptyKeyAfter(v, cs[..n]);
      NamedLast(v, cs);
      EmptyKeyUnread(cs[n].path);
      SetKeepsEmpty(ApplyFields(v, Named([], cs[..n])), Split(Join(cs[n].path)), cs[n].after);
      if AllEmpty(cs[n].path) { last := Some(n); }
    }
  }

  // How deep objects nest along empty keys.
  function Levels(v: Json): nat
    decreases v
  {
    if v.Obj? then 1 + (if "" in v.fields then Levels(v.fields[""]) else 0) else 0
  }

  lemma {:induction false} LevelsNorm(x: Json, y: Json)
    requires Norm(x) == Norm(y)
    ensures Levels(x) == Levels(y)
    decreases x
  {
    NormNull(x);
    NormNull(y);
    if x.Obj? {
      NormObj(x.fields, y.fields);
      NormNull(Get(x.fields, ""));
      NormNull(Get(y.fields, ""));
      if "" in x.fields { LevelsNorm(x.fields[""], Get(y.fields, "")); }
    }
  }

  lemma {:induction false} LevelsBelow(b: Json, a: Json, path: Path)
    requires AllEmpty(path) && Met(b, a, path)
    ensures Levels(a) == |path| + Levels(Lookup(a, path))
    decreases |path|
  {
    if path != [] { LevelsBelow(Get(b.fields, ""), Get(a.fields, ""), path[1..]); }
  }

  // So a report can only rebuild a target that has nothing at the empty key.
  lemma EmptyKeyMissed(b: Json, a: Json)
    requires DotsAgree(b, a) && !SameAtEmpty(b, a) && Rebuilds(b, a)
    ensures Get(a.fields, "") == Null
  {
    var cs := Changes(b, a);
    NamedValue([], b, a);
    forall i | 0 <= i < |cs| ensures DotFree(cs[i].path) { ReportedDotFree(b, a, i); }
    var last := EmptyKeyAfter(b, cs);
    var r := ApplyFields(b, JsonDiff(Some(b), Some(a)));
    LookupOne(r, "");
    LookupOne(a, "");
    NormLookup(r, a, [""]);
    if last.Some? {
      var c := cs[last.value];
      ChangesReal(b, a, last.value);
      ChangesMet(b, a, last.value);
      LevelsBelow(b, a, c.path);
      LevelsNorm(Get(FieldsOf(r), ""), Get(a.fields, ""));
      NormNull(Get(a.fields, ""));
    }
  }

  // ---- When the target has nothing there ----

  // Nothing of y but nulls is left as in x.
  ghost predicate AllNew(x: Json, y: Json)
    decreases Both(x, y), x
  {
    if Norm(x) == Norm(y) then y == Null
    else x.Obj? && y.Obj? ==>
      forall k :: k in x.fields.Keys + y.fields.Keys ==> AllNew(Get(x.fields, k), Get(y.fields, k))
  }

  lemma ChangesEmpty(x: Json, y: Json)
    ensures Changes(x, y) == [] <==> Norm(x) == Norm(y)
  {
    NamedValue([], x, y);
    ValueEmpty("", x, y);
    assert Join([]) == "";
    assert |DiffValue("", x, y)| == |Changes(x, y)|;
  }

  ghost function NewAt(x: Fields, y: Fields): string -> Json { k => Apply(Null, Changes(Get(x, k), Get(y, k))) }

  lemma {:induction false} KeysNew(x: Fields, y: Fields, keys: seq<string>, n: nat) returns (f: Fields)
    requires n <= |keys| && Ascending(keys)
    ensures Apply(Null, KeyChanges(x, y, keys, n)) == if KeyChanges(x, y, keys, n) == [] then Null else Obj(f)
    ensures BuiltAt(NewAt(x, y), f, keys, n)
    ensures KeyChanges(x, y, keys, n) == [] ==> f == map[]
  {
    f := map[];
    if n > 0 {
      var k := keys[n - 1];
      var w := KeysNew(x, y, keys, n - 1);
      f := BuildUnder(w, k, KeyChanges(x, y, keys, n - 1), Changes(Get(x, k), Get(y, k)));
      BuiltNext(NewAt(x, y), w, f, keys, n);
    }
  }

  // Written to nothing, the changes give the target exactly when nothing of it was there before.
  lemma {:induction false} ChangesFromNothing(x: Json, y: Json)
    ensures Norm(Apply(Null, Changes(x, y))) == Norm(y) <==> AllNew(x, y)
    decreases Both(x, y), x
  {
    ChangesEmpty(x, y);
    NormNull(y);
    if Norm(x) != Norm(y) && x.Obj? && y.Obj? {
      var keys := AllKeys(x.fields, y.fields);
      SortedMembers(x.fields.Keys + y.fields.Keys);
      SortedAscending(x.fields.Keys + y.fields.Keys);
      var f := KeysNew(x.fields, y.fields, keys, |keys|);
      NormObj(f, y.fields);
      forall k
        ensures Get(f, k) == if k in keys then Apply(Null, Changes(Get(x.fields, k), Get(y.fields, k))) else Null
      {
        BuiltAll(NewAt(x.fields, y.fields), f, keys, k);
      }
      forall k | k in x.fields.Keys + y.fields.Keys
        ensures Norm(Get(f, k)) == Norm(Get(y.fields, k)) <==> AllNew(Get(x.fields, k), Get(y.fields, k))
      {
        ChangesFromNothing(Get(x.fields, k), Get(y.fields, k));
      }
      AgreeOnAll(f, x.fields, y.fields);
    }
  }

  lemma AgreeOnAll(f: Fields, x: Fields, y: Fields)
    requires forall k :: k !in x.Keys + y.Keys ==> Get(f, k) == Null
    ensures (forall k :: k in f.Keys + y.Keys ==> Norm(Get(f, k)) == Norm(Get(y, k)))
      <==> (forall k :: k in x.Keys + y.Keys ==> Norm(Get(f, k)) == Norm(Get(y, k)))
  {
    if forall k :: k in f.Keys + y.Keys ==> Norm(Get(f, k)) == Norm(Get(y, k)) {
      forall k | k in x.Keys + y.Keys ensures Norm(Get(f, k)) == Norm(Get(y, k)) {
        if k in f.Keys + y.Keys {}
      }
    }
    if forall k :: k in x.Keys + y.Keys ==> Norm(Get(f, k)) == Norm(Get(y, k)) {
      forall k | k in f.Keys + y.Keys ensures Norm(Get(f, k)) == Norm(Get(y, k)) {
        if k in x.Keys + y.Keys {} else { assert Get(y, k) == Null; }
      }
    }
  }

  // ---- The report, the empty key first ----

  function Rest(v: Json): Json { Obj(FieldsOf(v) - {""}) }

  lemma KeyChangesNext(b: Fields, a: Fields, keys: seq<string>, n: nat)
    requires n < |keys|
    ensures KeyChanges(b, a, keys, n + 1) ==
      KeyChanges(b, a, keys, n) + Under(keys[n], Changes(Get(b, keys[n]), Get(a, keys[n])))
  {
  }

  lemma UnderOne(k: string, c: Change)
    ensures Under(k, [c]) == [c.(path := [k] + c.path)]
  {
  }

  lemma Reassociate(u: seq<Change>, v: seq<Change>, w: seq<Change>)
    ensures (u + v) + w == u + (v + w)
  {
  }

  lemma {:induction false} KeyChangesTail(b: Fields, a: Fields, ks: seq<string>, n: nat)
    requires n <= |ks| && "" !in ks
    ensures KeyChanges(b, a, [""] + ks, n + 1) ==
      Under("", Changes(Get(b, ""), Get(a, ""))) + KeyChanges(b - {""}, a - {""}, ks, n)
    decreases n
  {
    var keys, x, y := [""] + ks, b - {""}, a - {""};
    KeyChangesNext(b, a, keys, n);
    var first := Under("", Changes(Get(b, ""), Get(a, "")));
    if n == 0 {
      assert KeyChanges(b, a, keys, 0) == [] && [] + first == first + [];
    } else {
      KeyChangesTail(b, a, ks, n - 1);
      KeyChangesNext(x, y, ks, n - 1);
      var k := ks[n - 1];
      assert keys[n] == k && k in ks;
      assert Get(x, k) == Get(b, k) && Get(y, k) == Get(a, k);
      Reassociate(first, KeyChanges(x, y, ks, n - 1), Under(k, Changes(Get(b, k), Get(a, k))));
    }
  }

  lemma EmptyKeyFirst(b: Fields, a: Fields)
    requires "" in b || "" in a
    ensures AllKeys(b, a) == [""] + AllKeys(b - {""}, a - {""}) && "" !in AllKeys(b - {""}, a - {""})
  {
    var x, y := b - {""}, a - {""};
    assert b.Keys + a.Keys - {""} == x.Keys + y.Keys;
    SortedFirst(b.Keys + a.Keys, "");
    SortedMembers(x.Keys + y.Keys);
  }

  // The changes of two objects, equal or not, are those at their keys.
  lemma ObjectChanges(b: Fields, a: Fields)
    ensures Changes(Obj(b), Obj(a)) == KeyChanges(b, a, AllKeys(b, a), |AllKeys(b, a)|)
  {
    if b == a { KeyChangesSame(b, AllKeys(b, a), |AllKeys(b, a)|); }
  }

  lemma ReportSplits(b: Json, a: Json)
    requires b.Obj? && a.Obj? && Get(a.fields, "") == Null && Get(b.fields, "") != Null
    ensures Changes(b, a) == [Change([""], Get(b.fields, ""), Null)] + Changes(Rest(b), Rest(a))
  {
    var x, y := b.fields - {""}, a.fields - {""};
    var ks := AllKeys(x, y);
    EmptyKeyFirst(b.fields, a.fields);
    ObjectChanges(b.fields, a.fields);
    ObjectChanges(x, y);
    KeyChangesTail(b.fields, a.fields, ks, |ks|);
    UnderOne("", Change([], Get(b.fields, ""), Null));
    assert [""] + [] == [""];
  }

  lemma {:induction false} KeyChangesSame(x: Fields, keys: seq<string>, n: nat)
    requires n <= |keys|
    ensures KeyChanges(x, x, keys, n) == []
    decreases n
  {
    if n > 0 { KeyChangesSame(x, keys, n - 1); }
  }

  lemma ApplyFieldsLast(v: Json, cs: seq<ChangeField>, c: ChangeField)
    ensures ApplyFields(v, cs + [c]) == SetAt(ApplyFields(v, cs), Split(c.field), c.after)
  {
    assert (cs + [c])[..|cs|] == cs;
  }

  lemma {:induction false} ApplyFieldsHead(v: Json, c: ChangeField, cs: seq<ChangeField>)
    ensures ApplyFields(v, [c] + cs) == ApplyFields(SetAt(v, Split(c.field), c.after), cs)
    decreases |cs|
  {
    if cs == [] {
      ApplyFieldsLast(v, [], c);
      assert [c] + cs == [] + [c];
    } else {
      var init, last := cs[..|cs| - 1], cs[|cs| - 1];
      InitAndLast([c], cs);
      ApplyFieldsHead(v, c, init);
      ApplyFieldsLast(v, [c] + init, last);
      ApplyFieldsLast(SetAt(v, Split(c.field), c.after), init, last);
    }
  }

  lemma RestAgrees(b: Json, a: Json)
    requires DotsAgree(b, a) && b.Obj? && a.Obj?
    ensures DotsAgree(Rest(b), Rest(a)) && SameAtEmpty(Rest(b), Rest(a))
  {
    var x, y := Rest(b).fields, Rest(a).fields;
    forall k | k in x.Keys + y.Keys
      ensures if HasDot(k) then Norm(Get(x, k)) == Norm(Get(y, k)) else DotsAgree(Get(x, k), Get(y, k))
    {
      assert k in b.fields.Keys + a.fields.Keys && Get(x, k) == Get(b.fields, k) && Get(y, k) == Get(a.fields, k);
    }
  }

  // The change at the empty key wipes the snapshot, and the others are written to nothing.
  lemma WipedFirst(b: Json, a: Json)
    requires b.Obj? && a.Obj? && Get(a.fields, "") == Null && Get(b.fields, "") != Null
    ensures ApplyFields(b, JsonDiff(Some(b), Some(a))) == ApplyFields(Null, Named([], Changes(Rest(b), Rest(a))))
  {
    var head, cs := Change([""], Get(b.fields, ""), Null), Changes(Rest(b), Rest(a));
    NamedValue([], b, a);
    ReportSplits(b, a);
    NamedConcat([], [head], cs);
    AllEmptyReadsRoot([""]);
    assert [] + [""] == [""];
    var c := ChangeField(Join([""]), head.before, head.after);
    assert Named([], [head]) == [c];
    ApplyFieldsHead(b, c, Named([], cs));
  }

  lemma ResultFromNothing(b: Json, a: Json)
    requires DotsAgree(b, a) && b.Obj? && a.Obj? && Get(a.fields, "") == Null && Get(b.fields, "") != Null
    ensures ApplyFields(b, JsonDiff(Some(b), Some(a))) == Apply(Null, Changes(Rest(b), Rest(a)))
  {
    var cs := Changes(Rest(b), Rest(a));
    WipedFirst(b, a);
    RestAgrees(b, a);
    forall i | 0 <= i < |cs| ensures Readable(cs[i].path) { ReportedReadable(Rest(b), Rest(a), i); }
    ApplyNamed(Null, cs);
  }

  // For snapshots that differ at the outermost empty key the report rebuilds the target exactly when the
  // target has nothing there and, the empty key aside, keeps nothing of what was before.
  lemma EmptyKeyExactly(before: Json, after: Json)
    requires DotsAgree(before, after) && !SameAtEmpty(before, after)
    ensures Rebuilds(before, after) <==> Get(after.fields, "") == Null && AllNew(Rest(before), Rest(after))
  {
    var b, a := before, after;
    NormNull(Get(b.fields, ""));
    NormNull(Get(a.fields, ""));
    if Get(a.fields, "") == Null {
      ResultFromNothing(b, a);
      ChangesFromNothing(Rest(b), Rest(a));
      RestNorm(a);
    } else if Rebuilds(b, a) {
      EmptyKeyMissed(b, a);
    }
  }

  lemma RestNorm(a: Json)
    requires a.Obj? && Get(a.fields, "") == Null
    ensures Norm(Rest(a)) == Norm(a)
  {
    NormObj(Rest(a).fields, a.fields);
  }

  // A change at the empty key is read as a change of the whole snapshot.
  lemma EmptyKeyMisread()
    ensures !Rebuilds(Obj(map["" := Num("1")]), Obj(map["" := Num("2")]))
  {
    var b, a := Obj(map["" := Num("1")]), Obj(map["" := Num("2")]);
    assert DotsAgree(Num("1"), Num("2"));
    EmptyKeyExactly(b, a);
  }

  // ---- Both at once: either may happen ----

  lemma ReadDotted()
    ensures Split("x.y") == ["x", "y"] && Split("x") == ["x"]
  {
    assert Join(["x"]) == "x" by { assert ["x"][..0] == []; }
    assert ["x", "y"][..1] == ["x"];
    assert Join(["x", "y"]) == "x.y";
    SplitJoin(["x"]);
    SplitJoin(["x", "y"]);
  }

  lemma BothDiffer(b: Fields, a: Fields, k: string)
    requires HasDot(k) && k in b
    requires Norm(Get(b, "")) != Norm(Get(a, "")) && Norm(Get(b, k)) != Norm(Get(a, k))
    ensures !SameAtEmpty(Obj(b), Obj(a)) && !DotsAgree(Obj(b), Obj(a))
  {
    assert k in b.Keys + a.Keys;
  }

  // The changes from {d: v} to {k: w}.
  lemma TwoChanges(x: Fields, y: Fields, k: string, d: string, v: Json, w: Json)
    requires x == map[d := v] && y == map[k := w] && LexLeq(k, d) && k != d && v != Null && w != Null
    ensures Changes(Obj(x), Obj(y)) == [Change([k], Null, w), Change([d], v, Null)]
  {
    assert x.Keys + y.Keys == {k, d};
    SortedTwo(k, d);
    var keys := [k, d];
    assert Get(x, k) == Null && Get(y, k) == w && Get(x, d) == v && Get(y, d) == Null;
    KeyChangesNext(x, y, keys, 0);
    KeyChangesNext(x, y, keys, 1);
    UnderOne(k, Change([], Null, w));
    UnderOne(d, Change([], v, Null));
    assert [k] + [] == [k] && [d] + [] == [d];
    assert x != y by { assert k in y && k !in x; }
  }

  lemma TwoFields(k: string, d: string, v: Json, w: Json)
    ensures Named([], [Change([k], Null, w), Change([d], v, Null)]) ==
      [ChangeField(k, Null, w), ChangeField(d, v, Null)]
  {
    JoinSnoc([], k);
    JoinSnoc([], d);
    assert [] + [k] == [k] && [] + [d] == [d];
  }

  lemma CornerRest(b: Fields, a: Fields, u: Json, k: string, d: string, v: Json, w: Json)
    requires b == map["" := u, d := v] && a == map[k := w] && d != "" && k != ""
    ensures Rest(Obj(b)) == Obj(map[d := v]) && Rest(Obj(a)) == Obj(a)
    ensures Get(b, "") == u && Get(a, "") == Null
  {
    assert b - {""} == map[d := v] && a - {""} == a;
  }

  // The report from {"": u, d: v} to {k: w}, but for the first change, which wipes the snapshot.
  lemma CornerReport(b: Fields, a: Fields, u: Json, k: string, d: string, v: Json, w: Json)
    requires b == map["" := u, d := v] && a == map[k := w] && d != "" && k != ""
    requires LexLeq(k, d) && k != d && v != Null && w != Null
    ensures Named([], Changes(Rest(Obj(b)), Rest(Obj(a)))) == [ChangeField(k, Null, w), ChangeField(d, v, Null)]
  {
    CornerRest(b, a, u, k, d, v, w);
    TwoChanges(map[d := v], a, k, d, v, w);
    TwoFields(k, d, v, w);
  }

  // Here the write under the dotted name lands inside an object that another change has just put there, and
  // removes nothing: the target is rebuilt although the snapshots differ at a dotted key as well.
  lemma DottedAndEmptyRebuilt()
    ensures var b, a := Obj(map["" := Num("1"), "x.y" := Num("5")]), Obj(map["x" := Obj(map[])]);
      !SameAtEmpty(b, a) && !DotsAgree(b, a) && Rebuilds(b, a)
  {
    var b, a := map["" := Num("1"), "x.y" := Num("5")], map["x" := Obj(map[])];
    assert "x.y"[1] == '.';
    BothDiffer(b, a, "x.y");
    CornerRest(b, a, Num("1"), "x", "x.y", Num("5"), Obj(map[]));
    CornerReport(b, a, Num("1"), "x", "x.y", Num("5"), Obj(map[]));
    WipedFirst(Obj(b), Obj(a));
    CornerWrites();
  }

  lemma CornerWrites()
    ensures ApplyFields(Null, [ChangeField("x", Null, Obj(map[])), ChangeField("x.y", Num("5"), Null)]) ==
      Obj(map["x" := Obj(map[])])
  {
    var c0, c1 := ChangeField("x", Null, Obj(map[])), ChangeField("x.y", Num("5"), Null);
    ReadDotted();
    ApplyFieldsLast(Null, [], c0);
    ApplyFieldsLast(Null, [c0], c1);
    assert [] + [c0] == [c0] && [c0] + [c1] == [c0, c1];
    WriteInside();
  }

  lemma WriteInside()
    ensures SetAt(SetAt(Null, ["x"], Obj(map[])), ["x", "y"], Null) == Obj(map["x" := Obj(map[])])
  {
    assert ["x"][1..] == [] && ["x", "y"][1..] == ["y"] && ["y"][1..] == [];
    assert SetAt(Null, ["x"], Obj(map[])) == Obj(map["x" := Obj(map[])]);
    assert SetAt(Obj(map[]), ["y"], Null) == Obj(map[]);
  }

  // And here it stays apart from the dotted key it was meant for.
  lemma DottedAndEmptyMisread()
    ensures var b, a := Obj(map["" := Num("1"), "x.y" := Num("5")]), Obj(map["x.y" := Num("6")]);
      !SameAtEmpty(b, a) && !DotsAgree(b, a) && !Rebuilds(b, a)
  {
    var b, a := Obj(map["" := Num("1"), "x.y" := Num("5")]), Obj(map["x.y" := Num("6")]);
    assert "x.y"[1] == '.' && "x.y" in b.fields.Keys + a.fields.Keys;
    WipedFirst(b, a);
    var cs, d := Changes(Rest(b), Rest(a)), ["x.y"];
    var r := Named([], cs);
    forall i | 0 <= i < |r| ensures !(d <= Split(r[i].field)) {
      SplitDotFree(r[i].field);
      NoDottedPrefix(d, Split(r[i].field));
    }
    forall i | 0 <= i < |r| ensures !r[i].after.Obj? {
      ChangesReal(Rest(b), Rest(a), i);
      ChangesMet(Rest(b), Rest(a), i);
      NoObjectsInside(a.fields, cs[i].path);
    }
    NothingThere(r, d);
    LookupOne(a, "x.y");
    if Rebuilds(b, a) { NormLookup(ApplyFields(Null, r), a, d); }
  }

  lemma NoObjectsInside(m: Fields, path: Path)
    requires (forall k :: k in m ==> !m[k].Obj?) && path != []
    ensures !Lookup(Obj(m), path).Obj?
  {
    if path[1..] != [] { LookupNull(path[2..]); }
  }
}
