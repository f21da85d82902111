/** The category tree, built from a flat table by following parent links.  Links may form cycles: a row on
    a cycle is never reached from a root. */
module CategoryTree {
  import opened Wrappers
  import opened Collections

  datatype Row = Row(id: int, name: string, parent: Option<int>, sortOrder: int)

  datatype Tree = Tree(id: int, name: string, sortOrder: int, children: seq<Tree>)

  ghost predicate UniqueIds(rows: seq<Row>) {
    forall i, j :: 0 <= i < j < |rows| ==> rows[i].id != rows[j].id
  }

  // ---- Chains of parent links down from a root ----

  datatype Chain = Start | Link(up: Chain, id: int)

  function Last(c: Chain): Option<int> { if c.Start? then None else Some(c.id) }

  function Depth(c: Chain): nat { if c.Start? then 0 else 1 + Depth(c.up) }

  ghost predicate HasRow(rows: seq<Row>, id: int, parent: Option<int>) {
    exists i :: 0 <= i < |rows| && rows[i].id == id && rows[i].parent == parent
  }

  // The first id is a root of the table, and each id is the parent of the next.
  ghost predicate IsChain(rows: seq<Row>, c: Chain) {
    c.Start? || (IsChain(rows, c.up) && HasRow(rows, c.id, Last(c.up)))
  }

  // The parent links of id lead to a root.
  ghost predicate Rooted(rows: seq<Row>, id: int) {
    exists c :: IsChain(rows, c) && Last(c) == Some(id)
  }

  lemma OneParent(rows: seq<Row>, id: int, p: Option<int>, q: Option<int>)
    requires UniqueIds(rows) && HasRow(rows, id, p) && HasRow(rows, id, q)
    ensures p == q
  {
  }

  // An id has at most one chain.
  lemma {:induction false} ChainUnique(rows: seq<Row>, c: Chain, d: Chain)
    requires UniqueIds(rows) && IsChain(rows, c) && IsChain(rows, d) && Last(c) == Last(d)
    ensures c == d
  {
    if c.Link? {
      OneParent(rows, c.id, Last(c.up), Last(d.up));
      ChainUnique(rows, c.up, d.up);
    }
  }

  // c goes on from d.
  predicate Extends(c: Chain, d: Chain) { c == d || (c.Link? && Extends(c.up, d)) }

  lemma {:induction false} ExtendsDeeper(c: Chain, d: Chain)
    requires Extends(c, d)
    ensures Depth(d) <= Depth(c) && (Depth(d) == Depth(c) ==> c == d)
  {
    if c != d { ExtendsDeeper(c.up, d); }
  }

  lemma {:induction false} ExtendsOne(c: Chain, d: Chain, e: Chain)
    requires Extends(c, d) && Extends(c, e) && Depth(d) == Depth(e)
    ensures d == e
  {
    if c == d { ExtendsDeeper(c, e); } else if c == e { ExtendsDeeper(c, d); } else { ExtendsOne(c.up, d, e); }
  }

  // The first link of c after d.
  function FirstLink(c: Chain, d: Chain): Chain
    requires c.Link? && Extends(c.up, d)
  {
    if c.up == d then c else FirstLink(c.up, d)
  }

  lemma {:induction false} FirstLinkIsLink(rows: seq<Row>, c: Chain, d: Chain)
    requires c.Link? && Extends(c.up, d) && IsChain(rows, c)
    ensures var f := FirstLink(c, d); f.Link? && f.up == d && IsChain(rows, f) && Extends(c, f)
  {
    if c.up != d { FirstLinkIsLink(rows, c.up, d); }
  }

  // ---- No chain is longer than the table ----

  function Members(c: Chain): set<int> { if c.Start? then {} else Members(c.up) + {c.id} }

  lemma {:induction false} MemberChain(rows: seq<Row>, c: Chain, id: int) returns (d: Chain)
    requires IsChain(rows, c) && id in Members(c)
    ensures IsChain(rows, d) && Last(d) == Some(id) && Depth(d) <= Depth(c)
  {
    if c.id == id { d := c; } else { d := MemberChain(rows, c.up, id); }
  }

  ghost function IdSet(rows: seq<Row>): set<int> { set i | 0 <= i < |rows| :: rows[i].id }

  lemma {:induction false} MembersCount(rows: seq<Row>, c: Chain)
    requires UniqueIds(rows) && IsChain(rows, c)
    ensures |Members(c)| == Depth(c) && Members(c) <= IdSet(rows)
  {
    if c.Link? {
      MembersCount(rows, c.up);
      if c.id in Members(c.up) {
        var d := MemberChain(rows, c.up, c.id);
        ChainUnique(rows, c, d);
        assert false;
      }
      var i :| 0 <= i < |rows| && rows[i].id == c.id;
    }
  }

  lemma {:induction false} IdSetSize(rows: seq<Row>)
    ensures |IdSet(rows)| <= |rows|
  {
    if rows != [] {
      var n := |rows| - 1;
      IdSetSize(rows[..n]);
      assert IdSet(rows) == IdSet(rows[..n]) + {rows[n].id};
    }
  }

  lemma ChainBound(rows: seq<Row>, c: Chain)
    requires UniqueIds(rows) && IsChain(rows, c)
    ensures Depth(c) <= |rows|
  {
    MembersCount(rows, c);
    SubsetSize(Members(c), IdSet(rows));
    IdSetSize(rows);
  }

  lemma ChainGrows(rows: seq<Row>, c: Chain, i: nat)
    requires UniqueIds(rows) && IsChain(rows, c) && i < |rows| && rows[i].parent == Last(c)
    ensures IsChain(rows, Link(c, rows[i].id)) && Depth(c) < |rows|
  {
    assert HasRow(rows, rows[i].id, Last(c));
    ChainBound(rows, Link(c, rows[i].id));
  }

  // ---- The builder ----

  // The rows below the given parent, each with its own subtree.  The chain of ancestors is only there to
  // show that the recursion ends.
  function BuildTree(rows: seq<Row>, parent: Option<int>, ghost chain: Chain): seq<Tree>
    requires UniqueIds(rows) && IsChain(rows, chain) && parent == Last(chain)
    decreases |rows| - Depth(chain), |rows| + 1
  {
    Siblings(rows, |rows|, parent, chain)
  }

  // The same, for the first n rows.
  function Siblings(rows: seq<Row>, n: nat, parent: Option<int>, ghost chain: Chain): seq<Tree>
    requires n <= |rows| && UniqueIds(rows) && IsChain(rows, chain) && parent == Last(chain)
    decreases |rows| - Depth(chain), n
  {
    if n == 0 then []
    else if rows[n - 1].parent != parent then Siblings(rows, n - 1, parent, chain)
    else
      var row := rows[n - 1];
      ChainGrows(rows, chain, n - 1);
      Siblings(rows, n - 1, parent, chain) +
        [Tree(row.id, row.name, row.sortOrder, BuildTree(rows, Some(row.id), Link(chain, row.id)))]
  }

  function CategoryForest(rows: seq<Row>): seq<Tree>
    requires UniqueIds(rows)
  {
    BuildTree(rows, None, Start)
  }

  // ---- What it contains ----

  // All ids of a forest, each node before its descendants.
  function Ids(ts: seq<Tree>): seq<int> {
    if ts == [] then []
    else
      var t := ts[|ts| - 1];
      Ids(ts[..|ts| - 1]) + [t.id] + Ids(t.children)
  }

  lemma IdsSnoc(ts: seq<Tree>, t: Tree)
    ensures Ids(ts + [t]) == Ids(ts) + [t.id] + Ids(t.children)
  {
    assert (ts + [t])[..|ts|] == ts;
  }

  // id is the link itself or reached from it.
  ghost predicate At(rows: seq<Row>, link: Chain, id: int) {
    exists c :: IsChain(rows, c) && Extends(c, link) && Last(c) == Some(id)
  }

  ghost predicate Below(rows: seq<Row>, link: Chain, id: int) {
    exists c :: IsChain(rows, c) && c.Link? && Extends(c.up, link) && c.id == id
  }

  lemma AtOrBelow(rows: seq<Row>, link: Chain, id: int)
    requires IsChain(rows, link) && link.Link?
    ensures At(rows, link, id) <==> link.id == id || Below(rows, link, id)
  {
    if At(rows, link, id) && link.id != id {
      var c :| IsChain(rows, c) && Extends(c, link) && Last(c) == Some(id);
      assert c.Link? && Extends(c.up, link);
    }
    if Below(rows, link, id) {
      var c :| IsChain(rows, c) && c.Link? && Extends(c.up, link) && c.id == id;
      assert Extends(c, link);
    }
    assert Extends(link, link);
  }

  // Row i hangs below the chain and id is at it or below it.
  ghost predicate ThroughRow(rows: seq<Row>, chain: Chain, i: nat, id: int)
    requires i < |rows|
  {
    rows[i].parent == Last(chain) && At(rows, Link(chain, rows[i].id), id)
  }

  ghost predicate ThroughFirst(rows: seq<Row>, n: nat, chain: Chain, id: int)
    requires n <= |rows|
  {
    exists i :: 0 <= i < n && ThroughRow(rows, chain, i, id)
  }

  lemma {:induction false} ExtendsUp(c: Chain, d: Chain)
    requires d.Link? && Extends(c, d)
    ensures c.Link? && Extends(c.up, d.up)
  {
    if c != d { ExtendsUp(c.up, d); }
  }

  lemma BelowIsThrough(rows: seq<Row>, chain: Chain, id: int)
    requires IsChain(rows, chain)
    ensures Below(rows, chain, id) <==> ThroughFirst(rows, |rows|, chain, id)
  {
    if Below(rows, chain, id) {
      var c :| IsChain(rows, c) && c.Link? && Extends(c.up, chain) && c.id == id;
      FirstLinkIsLink(rows, c, chain);
      var f := FirstLink(c, chain);
      var i :| 0 <= i < |rows| && rows[i].id == f.id && rows[i].parent == Last(f.up);
      assert ThroughRow(rows, chain, i, id);
    }
    if ThroughFirst(rows, |rows|, chain, id) {
      var i :| 0 <= i < |rows| && ThroughRow(rows, chain, i, id);
      var c :| IsChain(rows, c) && Extends(c, Link(chain, rows[i].id)) && Last(c) == Some(id);
      ExtendsUp(c, Link(chain, rows[i].id));
    }
  }

  lemma {:induction false} BuiltIds(rows: seq<Row>, parent: Option<int>, chain: Chain, id: int)
    requires UniqueIds(rows) && IsChain(rows, chain) && parent == Last(chain)
    ensures id in Ids(BuildTree(rows, parent, chain)) <==> Below(rows, chain, id)
    decreases |rows| - Depth(chain), |rows| + 1
  {
    SiblingIds(rows, |rows|, parent, chain, id);
    BelowIsThrough(rows, chain, id);
  }

  lemma ThroughOneMore(rows: seq<Row>, n: nat, chain: Chain, id: int)
    requires 0 < n <= |rows|
    ensures ThroughFirst(rows, n, chain, id) <==>
      ThroughFirst(rows, n - 1, chain, id) || ThroughRow(rows, chain, n - 1, id)
  {
  }

  lemma {:induction false} SiblingIds(rows: seq<Row>, n: nat, parent: Option<int>, chain: Chain, id: int)
    requires n <= |rows| && UniqueIds(rows) && IsChain(rows, chain) && parent == Last(chain)
    ensures id in Ids(Siblings(rows, n, parent, chain)) <==> ThroughFirst(rows, n, chain, id)
    decreases |rows| - Depth(chain), n
  {
    if n > 0 {
      SiblingIds(rows, n - 1, parent, chain, id);
      ThroughOneMore(rows, n, chain, id);
      var row := rows[n - 1];
      if row.parent == parent {
        ChainGrows(rows, chain, n - 1);
        var link := Link(chain, row.id);
        BuiltIds(rows, Some(row.id), link, id);
        AtOrBelow(rows, link, id);
        IdsSnoc(Siblings(rows, n - 1, parent, chain),
                Tree(row.id, row.name, row.sortOrder, BuildTree(rows, Some(row.id), link)));
      }
    }
  }

  // The tree holds exactly the rows whose parent links lead to a root.
  lemma ContainsExactlyRooted(rows: seq<Row>, id: int)
    requires UniqueIds(rows)
    ensures id in Ids(CategoryForest(rows)) <==> Rooted(rows, id)
  {
    BuiltIds(rows, None, Start, id);
    if c :| IsChain(rows, c) && Last(c) == Some(id) { ExtendsStart(c.up); }
  }

  lemma {:induction false} ExtendsStart(c: Chain)
    ensures Extends(c, Start)
  {
    if c.Link? { ExtendsStart(c.up); }
  }

  // ---- Each row once ----

  lemma DistinctConcat(a: seq<int>, x: int, b: seq<int>)
    requires NoDuplicates(a) && NoDuplicates(b) && x !in a && x !in b && forall y :: y in a ==> y !in b
    ensures NoDuplicates(a + [x] + b)
  {
    var s := a + [x] + b;
    forall i, j | 0 <= i < j < |s| ensures s[i] != s[j] {
      if i < |a| { assert s[i] in a; }
      if j > |a| { assert s[j] == b[j - |a| - 1]; }
    }
  }

  // An id reached through one row is reached through no other.
  lemma ThroughOneRow(rows: seq<Row>, chain: Chain, i: nat, j: nat, id: int)
    requires UniqueIds(rows) && IsChain(rows, chain) && i < |rows| && j < |rows|
    requires ThroughRow(rows, chain, i, id) && ThroughRow(rows, chain, j, id)
    ensures i == j
  {
    var c :| IsChain(rows, c) && Extends(c, Link(chain, rows[i].id)) && Last(c) == Some(id);
    var d :| IsChain(rows, d) && Extends(d, Link(chain, rows[j].id)) && Last(d) == Some(id);
    ChainUnique(rows, c, d);
    ExtendsOne(c, Link(chain, rows[i].id), Link(chain, rows[j].id));
  }

  lemma NotBelowItself(rows: seq<Row>, link: Chain)
    requires UniqueIds(rows) && IsChain(rows, link) && link.Link?
    ensures !Below(rows, link, link.id)
  {
    if Below(rows, link, link.id) {
      var c :| IsChain(rows, c) && c.Link? && Extends(c.up, link) && c.id == link.id;
      ChainUnique(rows, c, link);
      ExtendsDeeper(c.up, link);
      assert false;
    }
  }

  // What is below one sibling is not among or below the earlier ones.
  lemma SiblingsApart(rows: seq<Row>, n: nat, parent: Option<int>, chain: Chain, y: int)
    requires 0 < n <= |rows| && UniqueIds(rows) && IsChain(rows, chain) && parent == Last(chain)
    requires rows[n - 1].parent == parent && y in Ids(Siblings(rows, n - 1, parent, chain))
    ensures !At(rows, Link(chain, rows[n - 1].id), y)
  {
    SiblingIds(rows, n - 1, parent, chain, y);
    var i :| 0 <= i < n - 1 && ThroughRow(rows, chain, i, y);
    if At(rows, Link(chain, rows[n - 1].id), y) {
      ThroughOneRow(rows, chain, i, n - 1, y);
      assert false;
    }
  }

  lemma {:induction false} SiblingsDistinct(rows: seq<Row>, n: nat, parent: Option<int>, chain: Chain)
    requires n <= |rows| && UniqueIds(rows) && IsChain(rows, chain) && parent == Last(chain)
    ensures NoDuplicates(Ids(Siblings(rows, n, parent, chain)))
    decreases |rows| - Depth(chain), n
  {
    if n > 0 {
      SiblingsDistinct(rows, n - 1, parent, chain);
      var row := rows[n - 1];
      if row.parent == parent {
        ChainGrows(rows, chain, n - 1);
        var link := Link(chain, row.id);
        var before, inside := Siblings(rows, n - 1, parent, chain), BuildTree(rows, Some(row.id), link);
        SiblingsDistinct(rows, |rows|, Some(row.id), link);
        NotBelowItself(rows, link);
        BuiltIds(rows, Some(row.id), link, row.id);
        forall y | y in Ids(before) ensures y != row.id && y !in Ids(inside) {
          SiblingsApart(rows, n, parent, chain, y);
          BuiltIds(rows, Some(row.id), link, y);
          AtOrBelow(rows, link, y);
        }
        DistinctConcat(Ids(before), row.id, Ids(inside));
        IdsSnoc(before, Tree(row.id, row.name, row.sortOrder, inside));
      }
    }
  }

  // Every row of the tree appears once.
  lemma EachOnce(rows: seq<Row>)
    requires UniqueIds(rows)
    ensures NoDuplicates(Ids(CategoryForest(rows)))
  {
    SiblingsDistinct(rows, |rows|, None, Start);
  }

  // ---- Shape ----

  // The rows with this parent among the first n, in table order.
  function ChildRows(rows: seq<Row>, n: nat, parent: Option<int>): seq<Row>
    requires n <= |rows|
  {
    if n == 0 then []
    else ChildRows(rows, n - 1, parent) + if rows[n - 1].parent == parent then [rows[n - 1]] else []
  }

  // Each node carries its row, and below each node stand its child rows in table order.
  ghost predicate Mirrors(rows: seq<Row>, kids: seq<Row>, ts: seq<Tree>)
    decreases ts
  {
    |ts| == |kids| && forall i :: 0 <= i < |ts| ==> MirrorsRow(rows, kids[i], ts[i])
  }

  ghost predicate MirrorsRow(rows: seq<Row>, row: Row, t: Tree)
    decreases t
  {
    && t.id == row.id && t.name == row.name && t.sortOrder == row.sortOrder
    && Mirrors(rows, ChildRows(rows, |rows|, Some(row.id)), t.children)
  }

  lemma {:induction false} SiblingsMirror(rows: seq<Row>, n: nat, parent: Option<int>, chain: Chain)
    requires n <= |rows| && UniqueIds(rows) && IsChain(rows, chain) && parent == Last(chain)
    ensures Mirrors(rows, ChildRows(rows, n, parent), Siblings(rows, n, parent, chain))
    decreases |rows| - Depth(chain), n
  {
    if n > 0 {
      SiblingsMirror(rows, n - 1, parent, chain);
      if rows[n - 1].parent == parent {
        ChainGrows(rows, chain, n - 1);
        SiblingsMirror(rows, |rows|, Some(rows[n - 1].id), Link(chain, rows[n - 1].id));
      }
    }
  }

  // Siblings stand in table order and every node carries its row, at every level.
  lemma KeepsOrder(rows: seq<Row>)
    requires UniqueIds(rows)
    ensures Mirrors(rows, ChildRows(rows, |rows|, None), CategoryForest(rows))
  {
    SiblingsMirror(rows, |rows|, None, Start);
  }
}
