/** Reading the dotted paths of a report back as lists of keys, and writing a report to a snapshot. */
module AuditPaths {
  import opened JsonTrees
  import opened AuditDiff
  import opened AuditApply

  // ---- Reading paths back ----

  predicate HasDot(k: string) { '.' in k }

  predicate DotFree(path: Path) { forall i :: 0 <= i < |path| ==> !HasDot(path[i]) }

  // An empty key is lost at the front of a path, and nowhere else.
  predicate Readable(path: Path) { path == [] || (path[0] != "" && DotFree(path)) }

  function Parts(s: string): Path {
    if s == "" then [""]
    else if s[0] == '.' then [""] + Parts(s[1..])
    else var rest := Parts(s[1..]); [[s[0]] + rest[0]] + rest[1..]
  }

  function Split(field: string): Path { if field == "" then [] else Parts(field) }

  lemma {:induction false} PartsKey(k: string)
    requires !HasDot(k)
    ensures Parts(k) == [k]
  {
    if k != "" {
      PartsKey(k[1..]);
      assert k == [k[0]] + k[1..];
    }
  }

  lemma {:induction false} PartsSnoc(s: string, k: string)
    requires !HasDot(k)
    ensures Parts(s + "." + k) == Parts(s) + [k]
  {
    var t := s + "." + k;
    if s == "" {
      assert t[1..] == k;
      PartsKey(k);
    } else {
      assert t[1..] == s[1..] + "." + k;
      PartsSnoc(s[1..], k);
    }
  }

  lemma {:induction false} SplitJoin(path: Path)
    requires Readable(path)
    ensures Split(Join(path)) == path && (path != [] ==> Join(path) != "")
    decreases |path|
  {
    if path != [] {
      var n := |path| - 1;
      var s, k := Join(path[..n]), path[n];
      SplitJoin(path[..n]);
      assert path == path[..n] + [k] && !HasDot(k);
      if n == 0 { PartsKey(k); } else { PartsSnoc(s, k); }
    }
  }

  // ---- Other paths are misread ----

  function Dots(s: string): nat { if s == "" then 0 else (if s[0] == '.' then 1 else 0) + Dots(s[1..]) }

  lemma {:induction false} DotsConcat(s: string, t: string)
    ensures Dots(s + t) == Dots(s) + Dots(t)
  {
    if s == "" {
      assert s + t == t;
    } else {
      assert (s + t)[1..] == s[1..] + t;
      DotsConcat(s[1..], t);
    }
  }

  lemma {:induction false} DotsOfKey(k: string)
    ensures Dots(k) == 0 <==> !HasDot(k)
  {
    if k != "" {
      DotsOfKey(k[1..]);
      assert k == [k[0]] + k[1..];
    }
  }

  // Reading never gives a key with a dot.
  lemma {:induction false} PartsDotFree(s: string)
    ensures |Parts(s)| == 1 + Dots(s) && DotFree(Parts(s))
  {
    if s != "" { PartsDotFree(s[1..]); }
  }

  lemma SplitDotFree(s: string)
    ensures DotFree(Split(s))
  {
    PartsDotFree(s);
  }

  lemma ChildDots(s: string, k: string)
    ensures Dots(ChildPath(s, k)) == (if s == "" then 0 else Dots(s) + 1) + Dots(k)
    ensures s != "" ==> ChildPath(s, k) != ""
  {
    if s != "" {
      DotsConcat(s + ".", k);
      DotsConcat(s, ".");
      assert Dots(".") == 1;
    }
  }

  lemma DotFreeSnoc(path: Path)
    requires path != []
    ensures DotFree(path) <==> DotFree(path[..|path| - 1]) && Dots(path[|path| - 1]) == 0
  {
    DotsOfKey(path[|path| - 1]);
  }

  // Each further key adds a dot, unless nothing has been written yet.
  lemma {:induction false} JoinDots(path: Path)
    requires path != []
    ensures path[0] != "" ==> Join(path) != "" && Dots(Join(path)) >= |path| - 1
    ensures path[0] != "" && !DotFree(path) ==> Dots(Join(path)) >= |path|
    ensures path[0] == "" && DotFree(path) ==> Join(path) == "" || Dots(Join(path)) < |path| - 1
    decreases |path|
  {
    var n := |path| - 1;
    DotFreeSnoc(path);
    ChildDots(Join(path[..n]), path[n]);
    if n > 0 {
      JoinDots(path[..n]);
      assert path[..n][0] == path[0];
    }
  }

  // Empty keys at the front leave no mark.
  lemma {:induction false} JoinEmptyHead(path: Path)
    ensures Join([""] + path) == Join(path)
    decreases |path|
  {
    if path != [] {
      var n := |path| - 1;
      JoinEmptyHead(path[..n]);
      assert ([""] + path)[..|path|] == [""] + path[..n];
    }
  }

  predicate AllEmpty(path: Path) { forall i :: 0 <= i < |path| ==> path[i] == "" }

  lemma {:induction false} AllEmptyReadsRoot(path: Path)
    requires AllEmpty(path)
    ensures Split(Join(path)) == []
    decreases |path|
  {
    if path != [] {
      assert path == [""] + path[1..];
      JoinEmptyHead(path[1..]);
      AllEmptyReadsRoot(path[1..]);
    }
  }

  // A path without dots is read as the root or as a path that begins with some other key.
  lemma {:induction false} EmptyKeyUnread(path: Path)
    requires DotFree(path)
    ensures var w := Split(Join(path)); if AllEmpty(path) then w == [] else w != [] && w[0] != ""
    decreases |path|
  {
    if AllEmpty(path) {
      AllEmptyReadsRoot(path);
    } else if path[0] == "" {
      assert path == [""] + path[1..];
      JoinEmptyHead(path[1..]);
      EmptyKeyUnread(path[1..]);
    } else {
      SplitJoin(path);
    }
  }

  // A misread path with a first key is read as a longer one.
  lemma DottedReadsLonger(path: Path)
    requires path != [] && path[0] != "" && !DotFree(path)
    ensures |Split(Join(path))| > |path|
  {
    JoinDots(path);
    PartsDotFree(Join(path));
  }

  // A path reads back as written exactly when it does not begin with an empty key and has no dotted key.
  lemma SplitJoinExactly(path: Path)
    ensures Split(Join(path)) == path <==> Readable(path)
  {
    if Readable(path) {
      SplitJoin(path);
    } else {
      JoinDots(path);
      PartsDotFree(Join(path));
    }
  }

  // ---- Writing a report ----

  function ApplyFields(v: Json, cs: seq<ChangeField>): Json
    decreases |cs|
  {
    if cs == [] then v else SetAt(ApplyFields(v, cs[..|cs| - 1]), Split(cs[|cs| - 1].field), cs[|cs| - 1].after)
  }

  lemma {:induction false} ApplyNamed(v: Json, cs: seq<Change>)
    requires forall i :: 0 <= i < |cs| ==> Readable(cs[i].path)
    ensures ApplyFields(v, Named([], cs)) == Apply(v, cs)
    decreases |cs|
  {
    if cs != [] {
      var n := |cs| - 1;
      assert Named([], cs)[..n] == Named([], cs[..n]);
      ApplyNamed(v, cs[..n]);
      assert [] + cs[n].path == cs[n].path;
      SplitJoin(cs[n].path);
    }
  }

  // Neither path leads through the other: they part at some key.
  predicate Apart(p: Path, q: Path)
    decreases |p|
  {
    p != [] && q != [] && (p[0] != q[0] || Apart(p[1..], q[1..]))
  }

  lemma {:induction false} ApartOrPrefix(p: Path, q: Path)
    ensures Apart(p, q) || p <= q || q <= p
    decreases |p|
  {
    if p != [] && q != [] && p[0] == q[0] {
      ApartOrPrefix(p[1..], q[1..]);
      assert p == [p[0]] + p[1..] && q == [q[0]] + q[1..];
    }
  }

  lemma {:induction false} SetApart(v: Json, w: Path, x: Json, d: Path)
    requires Apart(w, d)
    ensures Lookup(SetAt(v, w, x), d) == Lookup(v, d)
    decreases |w|
  {
    if w[0] == d[0] { SetApart(Get(FieldsOf(v), w[0]), w[1..], x, d[1..]); }
  }

  // What no written path leads through or into stays as it was.
  lemma {:induction false} FieldsApart(v: Json, cs: seq<ChangeField>, d: Path)
    requires forall i :: 0 <= i < |cs| ==> Apart(Split(cs[i].field), d)
    ensures Lookup(ApplyFields(v, cs), d) == Lookup(v, d)
    decreases |cs|
  {
    if cs != [] {
      var n := |cs| - 1;
      FieldsApart(v, cs[..n], d);
      SetApart(ApplyFields(v, cs[..n]), Split(cs[n].field), cs[n].after, d);
    }
  }

  lemma {:induction false} LookupNull(path: Path)
    ensures Lookup(Null, path) == Null
    decreases |path|
  {
    if path != [] { LookupNull(path[1..]); }
  }

  lemma {:induction false} SetLeaf(v: Json, w: Path, x: Json, d: Path)
    requires !x.Obj? && !(d <= w) && Lookup(v, d) == Null
    ensures Lookup(SetAt(v, w, x), d) == Null
    decreases |w|
  {
    if w == [] {
      LookupNull(d[1..]);
    } else if w[0] == d[0] {
      assert w == [w[0]] + w[1..] && d == [d[0]] + d[1..];
      SetLeaf(Get(FieldsOf(v), w[0]), w[1..], x, d[1..]);
    }
  }

  // Where no written path leads, writing leaves to nothing puts nothing.
  lemma {:induction false} NothingThere(cs: seq<ChangeField>, d: Path)
    requires forall i :: 0 <= i < |cs| ==> !cs[i].after.Obj? && !(d <= Split(cs[i].field))
    ensures Lookup(ApplyFields(Null, cs), d) == Null
    decreases |cs|
  {
    if cs == [] {
      LookupNull(d);
    } else {
      var n := |cs| - 1;
      NothingThere(cs[..n], d);
      SetLeaf(ApplyFields(Null, cs[..n]), Split(cs[n].field), cs[n].after, d);
    }
  }
}
