/** The order of strings, and sets of strings in that order. */
module SortedStrings {
  // Strings compare character by character.
  predicate LexLeq(a: string, b: string) {
    a == "" || (b != "" && (a[0] < b[0] || (a[0] == b[0] && LexLeq(a[1..], b[1..]))))
  }

  lemma {:induction false} LexTotal(a: string, b: string)
    ensures LexLeq(a, b) || LexLeq(b, a)
    ensures LexLeq(a, b) && LexLeq(b, a) ==> a == b
  {
    if a != "" && b != "" && a[0] == b[0] {
      LexTotal(a[1..], b[1..]);
      assert a == [a[0]] + a[1..] && b == [b[0]] + b[1..];
    }
  }

  lemma {:induction false} LexTransitive(a: string, b: string, c: string)
    requires LexLeq(a, b) && LexLeq(b, c)
    ensures LexLeq(a, c)
  {
    if a != "" && a[0] == b[0] && b[0] == c[0] { LexTransitive(a[1..], b[1..], c[1..]); }
  }

  predicate IsLeast(ks: set<string>, k: string) { k in ks && forall m :: m in ks ==> LexLeq(k, m) }

  lemma {:induction false} LeastExists(ks: set<string>) returns (k: string)
    requires ks != {}
    ensures IsLeast(ks, k)
  {
    var x :| x in ks;
    LexTotal(x, x);
    if ks == {x} {
      k := x;
    } else {
      var y := LeastExists(ks - {x});
      LexTotal(x, y);
      k := if LexLeq(x, y) then x else y;
      forall m | m in ks ensures LexLeq(k, m) {
        if m != x && k == x { LexTransitive(x, y, m); }
      }
    }
  }

  lemma LeastUnique(ks: set<string>)
    requires ks != {}
    ensures exists k :: IsLeast(ks, k)
    ensures forall k, l :: IsLeast(ks, k) && IsLeast(ks, l) ==> k == l
  {
    var k := LeastExists(ks);
    forall k, l | IsLeast(ks, k) && IsLeast(ks, l) ensures k == l { LexTotal(k, l); }
  }

  // The members of a set in increasing order.
  function SortedKeys(ks: set<string>): seq<string> {
    if ks == {} then []
    else
      LeastUnique(ks);
      var k :| k in ks && IsLeast(ks, k);
      [k] + SortedKeys(ks - {k})
  }

  lemma {:induction false} SortedMembers(ks: set<string>)
    ensures forall k :: k in SortedKeys(ks) <==> k in ks
  {
    if ks != {} {
      LeastUnique(ks);
      SortedMembers(ks - {SortedKeys(ks)[0]});
    }
  }

  predicate Ascending(ks: seq<string>) {
    forall i, j :: 0 <= i < j < |ks| ==> LexLeq(ks[i], ks[j]) && ks[i] != ks[j]
  }

  lemma {:induction false} SortedAscending(ks: set<string>)
    ensures Ascending(SortedKeys(ks))
  {
    if ks != {} {
      var r := SortedKeys(ks);
      LeastUnique(ks);
      SortedAscending(ks - {r[0]});
      SortedMembers(ks - {r[0]});
      forall i, j | 0 <= i < j < |r| ensures LexLeq(r[i], r[j]) && r[i] != r[j] {
        assert r[j] in r[1..];
        if i > 0 { assert r[1..][i - 1] == r[i] && r[1..][j - 1] == r[j]; }
      }
    }
  }

  lemma SortedFirst(ks: set<string>, k: string)
    requires IsLeast(ks, k)
    ensures SortedKeys(ks) == [k] + SortedKeys(ks - {k})
  {
    LeastUnique(ks);
  }

  lemma SortedTwo(k: string, l: string)
    requires LexLeq(k, l) && k != l
    ensures SortedKeys({k, l}) == [k, l]
  {
    LexTotal(k, k);
    LexTotal(l, l);
    SortedFirst({k, l}, k);
    SortedFirst({l}, l);
    assert {k, l} - {k} == {l} && {l} - {l} == {};
  }

  // The two agree on their first i characters, and there the first ends or has the smaller character.
  predicate DecidedAt(a: string, b: string, i: nat) {
    && i <= |a| && i <= |b| && a[..i] == b[..i]
    && (i == |a| || (i < |b| && a[i] < b[i]))
  }

  lemma SameFirst(a: string, b: string, i: nat)
    requires DecidedAt(a, b, i) && a != "" && b != ""
    ensures i > 0 ==> a[0] == b[0]
  {
    assert i > 0 ==> a[..i][0] == a[0] && b[..i][0] == b[0];
  }

  // A string comes first when it is a prefix of the other or smaller at the first difference.
  lemma {:induction false} LexExact(a: string, b: string)
    ensures LexLeq(a, b) <==> exists i: nat :: DecidedAt(a, b, i)
    decreases |a|
  {
    if a == "" {
      assert DecidedAt(a, b, 0);
    } else if b != "" && a[0] == b[0] {
      LexExact(a[1..], b[1..]);
      assert a == [a[0]] + a[1..] && b == [b[0]] + b[1..];
      if i: nat :| DecidedAt(a[1..], b[1..], i) {
        assert a[..i + 1] == [a[0]] + a[1..][..i] && b[..i + 1] == [b[0]] + b[1..][..i];
        assert DecidedAt(a, b, i + 1);
      }
      if i: nat :| DecidedAt(a, b, i) {
        assert i > 0 && a[..i][1..] == a[1..][..i - 1] && b[..i][1..] == b[1..][..i - 1];
        assert DecidedAt(a[1..], b[1..], i - 1);
      }
    } else {
      if LexLeq(a, b) { assert DecidedAt(a, b, 0); }
      if i: nat :| DecidedAt(a, b, i) { SameFirst(a, b, i); }
    }
  }
}
