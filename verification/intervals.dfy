/** The interval data model shared by both nesting levels of the timeline.

    An `Item` is one entry of an ordered list: a section of the whole
    duration, or a segment of one section. `start` and `end` are fractions of
    the parent's span; `extra` holds what only one level has (a section's
    collapse flag and its own segment list). List order is the canonical
    order and decides which items are neighbours. */
module Intervals {
  import opened Basics

  /** Identity of an item; only equality of ids matters. */
  type Id = int

  datatype Item<X> = Item(id: Id, name: string, start: real, end: real, extra: X)

  /** The bound of an interval that an edit targets. */
  datatype Side = Start | End

  /** `0 <= start <= end <= 1`. */
  predicate InUnit<X>(it: Item<X>) {
    0.0 <= it.start <= it.end <= 1.0
  }

  predicate AllInUnit<X>(items: seq<Item<X>>) {
    forall k :: 0 <= k < |items| ==> InUnit(items[k])
  }

  /** Every item ends no later than its list successor starts. */
  predicate Chained<X>(items: seq<Item<X>>) {
    forall k :: 0 < k < |items| ==> items[k - 1].end <= items[k].start
  }

  /** Every item ends no later than any later item starts. */
  predicate Ordered<X>(items: seq<Item<X>>) {
    forall a, b :: 0 <= a < b < |items| ==> items[a].end <= items[b].start
  }

  /** The end of the item before slot `k`, or 0 before the first slot. */
  function PrevEnd<X>(items: seq<Item<X>>, k: nat): real
    requires k <= |items|
  {
    if k == 0 then 0.0 else items[k - 1].end
  }

  /** The end of the last item, or 0 for an empty list. */
  function LastEnd<X>(items: seq<Item<X>>): real {
    PrevEnd(items, |items|)
  }

  /** `b` is `a` with possibly different timing: id, name and extra agree. */
  ghost predicate SameButTiming<X>(a: Item<X>, b: Item<X>) {
    a == b.(start := a.start, end := a.end)
  }

  /** Adjacent order plus non-inverted items give order between any two items. */
  lemma {:induction false} ChainedIsOrdered<X>(items: seq<Item<X>>)
    requires Chained(items)
    requires forall k :: 0 <= k < |items| ==> items[k].start <= items[k].end
    ensures Ordered(items)
  {
    forall a, b | 0 <= a < b < |items|
      ensures items[a].end <= items[b].start
    {
      var c := a + 1;
      while c < b
        invariant a < c <= b
        invariant items[a].end <= items[c].start
      {
        c := c + 1;
      }
    }
  }

  /** Position of the first item carrying `id`, as `Array.prototype.findIndex` finds it. */
  function FindIndex<X>(items: seq<Item<X>>, id: Id): (r: Option<nat>)
    ensures r.None? <==> forall k :: 0 <= k < |items| ==> items[k].id != id
    ensures r.Some? ==> r.value < |items| && items[r.value].id == id
    ensures r.Some? ==> forall k :: 0 <= k < r.value ==> items[k].id != id
  {
    if |items| == 0 then None
    else if items[0].id == id then Some(0)
    else match FindIndex(items[1..], id)
      case None => None
      case Some(k) => Some(k + 1)
  }

  /** Lists that agree on ids agree on where an id is first found. */
  lemma FindIndexSameIds<X>(a: seq<Item<X>>, b: seq<Item<X>>, id: Id)
    requires |a| == |b|
    requires forall k :: 0 <= k < |a| ==> a[k].id == b[k].id
    ensures FindIndex(a, id) == FindIndex(b, id)
  {
  }

  /** The list without the items carrying `id`, others kept in order (`filter`). */
  function RemoveById<X>(items: seq<Item<X>>, id: Id): (r: seq<Item<X>>)
    ensures |r| <= |items|
    ensures forall k :: 0 <= k < |r| ==> r[k].id != id && r[k] in items
    ensures forall k :: 0 <= k < |items| && items[k].id != id ==> items[k] in r
    ensures (forall k :: 0 <= k < |items| ==> items[k].id != id) ==> r == items
  {
    if |items| == 0 then []
    else if items[0].id == id then RemoveById(items[1..], id)
    else [items[0]] + RemoveById(items[1..], id)
  }

  /** A single item survives exactly when it does not carry `id`. */
  lemma RemoveByIdSingle<X>(x: Item<X>, id: Id)
    ensures RemoveById([x], id) == if x.id == id then [] else [x]
  {
    assert [x][1..] == [];
  }

  /** Filtering distributes over concatenation: the survivors of `a` come
      first, in their order, then those of `b`. With `RemoveByIdSingle` this
      fixes the result as `filter` computes it, order and count included. */
  lemma {:induction false} RemoveByIdConcat<X>(a: seq<Item<X>>, b: seq<Item<X>>, id: Id)
    ensures RemoveById(a + b, id) == RemoveById(a, id) + RemoveById(b, id)
    decreases |a|
  {
    if |a| == 0 {
      assert a + b == b;
    } else {
      assert (a + b)[0] == a[0];
      assert (a + b)[1..] == a[1..] + b;
      RemoveByIdConcat(a[1..], b, id);
    }
  }

  /** In an ordered list the first item ends before any later item starts. */
  lemma HeadPrecedesTail<X>(items: seq<Item<X>>)
    requires |items| > 0 && Ordered(items)
    ensures forall x :: x in items[1..] ==> items[0].end <= x.start
  {
    forall x | x in items[1..]
      ensures items[0].end <= x.start
    {
      var j :| 0 <= j < |items[1..]| && items[1..][j] == x;
      assert items[j + 1] == x;
    }
  }

  /** Removing items neither moves the others nor disturbs their order. */
  lemma {:induction false} RemoveKeepsOrder<X>(items: seq<Item<X>>, id: Id)
    requires Ordered(items) && AllInUnit(items)
    ensures Ordered(RemoveById(items, id)) && AllInUnit(RemoveById(items, id))
  {
    if |items| > 0 {
      var tail := items[1..];
      assert Ordered(tail) by {
        forall a, b | 0 <= a < b < |tail|
          ensures tail[a].end <= tail[b].start
        {
          assert tail[a] == items[a + 1] && tail[b] == items[b + 1];
        }
      }
      RemoveKeepsOrder(tail, id);
      var rest := RemoveById(tail, id);
      if items[0].id != id {
        HeadPrecedesTail(items);
        var r := [items[0]] + rest;
        forall a, b | 0 <= a < b < |r|
          ensures r[a].end <= r[b].start
        {
          assert r[b] == rest[b - 1] && rest[b - 1] in tail;
          if a > 0 {
            assert r[a] == rest[a - 1];
          }
        }
        assert Ordered(r);
      }
    }
  }
}
