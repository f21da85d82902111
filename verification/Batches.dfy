/** Picking the first rows of a set in a given order, as a query with ORDER BY and LIMIT does. */
module Batches {
  import opened Collections

  type Order = (int, int) -> bool

  ghost predicate TotalOrder(c: set<int>, before: Order) {
    && (forall a, b :: a in c && b in c ==> before(a, b) || before(b, a))
    && (forall a, b, d :: a in c && b in c && d in c && before(a, b) && before(b, d) ==> before(a, d))
  }

  // ids lists the first `limit` members of c, in order; all of them when there are no more.
  ghost predicate IsFirst(c: set<int>, before: Order, limit: int, ids: seq<int>) {
    && |ids| <= limit
    && (forall i :: 0 <= i < |ids| ==> ids[i] in c)
    && (forall i, j :: 0 <= i < j < |ids| ==> ids[i] != ids[j] && before(ids[i], ids[j]))
    && (forall k :: k in c && k !in ids ==> |ids| == limit && forall i :: 0 <= i < |ids| ==> before(ids[i], k))
  }

  // The earliest of a non-empty set.
  method Earliest(c: set<int>, before: Order) returns (id: int)
    requires c != {} && TotalOrder(c, before)
    ensures id in c && forall k :: k in c ==> before(id, k)
  {
    HasElement(c);
    id :| id in c;
    var todo := c - {id};
    assert before(id, id);
    while todo != {}
      invariant id in c && todo <= c
      invariant forall k :: k in c - todo ==> before(id, k)
      decreases todo
    {
      HasElement(todo);
      var k :| k in todo;
      todo := todo - {k};
      assert before(k, k);
      if !before(id, k) { id := k; }
    }
  }

  method TakeFirst(c: set<int>, before: Order, limit: int) returns (ids: seq<int>)
    requires limit >= 0 && TotalOrder(c, before)
    ensures IsFirst(c, before, limit, ids)
  {
    ids := [];
    var left := c;
    while |ids| < limit && left != {}
      invariant |ids| <= limit && left <= c
      invariant forall i :: 0 <= i < |ids| ==> ids[i] in c
      invariant forall i, j :: 0 <= i < j < |ids| ==> ids[i] != ids[j] && before(ids[i], ids[j])
      invariant forall k :: k in left <==> k in c && k !in ids
      invariant forall k, i :: k in left && 0 <= i < |ids| ==> before(ids[i], k)
      decreases left
    {
      var id := Earliest(left, before);
      ids := ids + [id];
      left := left - {id};
    }
  }

  // Some members of c, as a query with LIMIT alone returns: all of them when there are fewer.
  method TakeSome(c: set<int>, limit: nat) returns (some: set<int>)
    ensures some <= c && |some| <= limit && (|some| < limit ==> some == c)
  {
    some := {};
    var left := c;
    while |some| < limit && left != {}
      invariant some !! left && some + left == c && |some| <= limit
      decreases left
    {
      HasElement(left);
      var x :| x in left;
      left, some := left - {x}, some + {x};
    }
  }
}
