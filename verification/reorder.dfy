/** Moving an item one place up or down, and re-laying out the whole list.

    Gaps belong to slots, widths belong to items: the gap in front of slot `k`
    is measured on the list BEFORE the swap and reused at slot `k` after it,
    while every item carries its own width to whichever slot it lands in.
    Because the swap changes which gap precedes which item, every item from
    the first slot on is re-laid out, not only the two that traded places.
    Collapsing this into "exchange the two items' timings" would behave
    differently. */
module Reordering {
  import opened Basics
  import opened Intervals

  datatype Direction = Up | Down

  /** The smallest width an item keeps through a reorder. */
  const MinDuration: real := 0.001

  /** A request the source can evaluate: moving up from past the end would
      swap an absent element into the list and then read its timing. */
  predicate Admissible(n: nat, index: nat, dir: Direction) {
    dir.Up? && index > 0 ==> index < n
  }

  /** The request really moves something: not the first item up, not the last
      item down, not an index beyond the list. */
  predicate Moves(n: nat, index: nat, dir: Direction) {
    (dir.Up? && 0 < index < n) || (dir.Down? && index + 1 < n)
  }

  /** The slot the moved item trades places with. */
  function Partner(index: nat, dir: Direction): nat
    requires dir.Up? ==> index > 0
  {
    if dir.Up? then index - 1 else index + 1
  }

  /** The list with the item at `index` and its neighbour exchanged. */
  function Swapped<X>(items: seq<Item<X>>, index: nat, dir: Direction): (r: seq<Item<X>>)
    requires Moves(|items|, index, dir)
    ensures |r| == |items|
    ensures r[index] == items[Partner(index, dir)] && r[Partner(index, dir)] == items[index]
    ensures forall k :: 0 <= k < |r| && k != index && k != Partner(index, dir) ==> r[k] == items[k]
  {
    var j := Partner(index, dir);
    items[index := items[j]][j := items[index]]
  }

  /** The width an item keeps: its own, but never below `MinDuration`. */
  function Duration<X>(it: Item<X>): (d: real)
    ensures d >= MinDuration && d >= it.end - it.start
    ensures it.end - it.start >= MinDuration ==> d == it.end - it.start
    ensures d == MinDuration || d == it.end - it.start
  {
    Max(MinDuration, it.end - it.start)
  }

  /** The gap in front of slot `k`, measured on `items`; an overlap counts as no gap. */
  function Gap<X>(items: seq<Item<X>>, k: nat): (g: real)
    requires k < |items|
    ensures g >= 0.0 && g >= items[k].start - PrevEnd(items, k)
    ensures items[k].start >= PrevEnd(items, k) ==> g == items[k].start - PrevEnd(items, k)
    ensures g == 0.0 || g == items[k].start - PrevEnd(items, k)
  {
    Max(0.0, items[k].start - PrevEnd(items, k))
  }

  /** The gap in front of every slot. */
  function Gaps<X>(items: seq<Item<X>>): (g: seq<real>)
    ensures |g| == |items|
    ensures forall k :: 0 <= k < |g| ==> g[k] == Gap(items, k)
  {
    seq(|items|, k requires 0 <= k < |items| => Gap(items, k))
  }

  /** Lays the items out left to right from `pos`: each starts `gaps[k]` after
      the previous end and is `Duration` wide. */
  function Layout<X>(items: seq<Item<X>>, gaps: seq<real>, pos: real): (r: seq<Item<X>>)
    requires |gaps| == |items|
    ensures |r| == |items|
    ensures forall k :: 0 <= k < |r| ==> SameButTiming(r[k], items[k])
    ensures forall k :: 0 <= k < |r| ==> r[k].end - r[k].start == Duration(items[k])
    ensures |r| > 0 ==> r[0].start == pos + gaps[0]
    ensures forall k :: 0 < k < |r| ==> r[k].start == r[k - 1].end + gaps[k]
    decreases |items|
  {
    if |items| == 0 then []
    else
      var s := pos + gaps[0];
      var e := s + Duration(items[0]);
      [items[0].(start := s, end := e)] + Layout(items[1..], gaps[1..], e)
  }

  /** `reorderAndRecalculate`: swap, then lay the new order out on the old slot gaps. */
  function Reorder<X>(items: seq<Item<X>>, index: nat, dir: Direction): (r: seq<Item<X>>)
    requires Admissible(|items|, index, dir)
    ensures !Moves(|items|, index, dir) ==> r == items
    ensures Moves(|items|, index, dir) ==> |r| == |items|
    // every slot holds the item the swap put there, with only its timing new
    ensures Moves(|items|, index, dir) ==>
              forall k :: 0 <= k < |r| ==> SameButTiming(r[k], Swapped(items, index, dir)[k])
    // every item keeps its own width, floored at MinDuration
    ensures Moves(|items|, index, dir) ==>
              forall k :: 0 <= k < |r| ==> r[k].end - r[k].start == Duration(Swapped(items, index, dir)[k])
    // every slot keeps the gap it had before the move
    ensures Moves(|items|, index, dir) ==>
              forall k {:trigger PrevEnd(r, k)} :: 0 <= k < |r| ==> r[k].start - PrevEnd(r, k) == Gaps(items)[k]
  {
    if Moves(|items|, index, dir) then
      Layout(Swapped(items, index, dir), Gaps(items), 0.0)
    else
      items
  }

  /** A moved list is always laid out in ascending order without overlaps,
      each item strictly wider than nothing, whatever the input was. */
  lemma ReorderIsAscending<X>(items: seq<Item<X>>, index: nat, dir: Direction)
    requires Admissible(|items|, index, dir) && Moves(|items|, index, dir)
    ensures var r := Reorder(items, index, dir);
      && r[0].start >= 0.0
      && Chained(r)
      && (forall k :: 0 <= k < |r| ==> r[k].start < r[k].end)
      && Ordered(r)
  {
    var r := Reorder(items, index, dir);
    assert r[0].start - PrevEnd(r, 0) == Gaps(items)[0];
    forall k | 0 < k < |r|
      ensures r[k - 1].end <= r[k].start
    {
      assert r[k].start - PrevEnd(r, k) == Gaps(items)[k];
    }
    ChainedIsOrdered(r);
  }

  // ----- the extent of a laid-out list -----

  /** Sum of a sequence, accumulated from the back. */
  function Sum(s: seq<real>): real {
    if |s| == 0 then 0.0 else Sum(s[..|s| - 1]) + s[|s| - 1]
  }

  lemma {:induction false} SumConcat(a: seq<real>, b: seq<real>)
    ensures Sum(a + b) == Sum(a) + Sum(b)
    decreases |b|
  {
    if |b| > 0 {
      assert (a + b)[..|a + b| - 1] == a + b[..|b| - 1];
      SumConcat(a, b[..|b| - 1]);
    } else {
      assert a + b == a;
    }
  }

  /** Exchanging two neighbouring summands leaves the sum alone. */
  lemma SumSwapNeighbours(s: seq<real>, i: nat)
    requires i + 1 < |s|
    ensures Sum(s[i := s[i + 1]][i + 1 := s[i]]) == Sum(s)
  {
    var t := s[i := s[i + 1]][i + 1 := s[i]];
    assert s == s[..i] + [s[i], s[i + 1]] + s[i + 2..];
    assert t == s[..i] + [s[i + 1], s[i]] + s[i + 2..];
    SumConcat(s[..i] + [s[i], s[i + 1]], s[i + 2..]);
    SumConcat(s[..i], [s[i], s[i + 1]]);
    SumConcat(s[..i] + [s[i + 1], s[i]], s[i + 2..]);
    SumConcat(s[..i], [s[i + 1], s[i]]);
    assert Sum([s[i], s[i + 1]]) == Sum([s[i + 1], s[i]]) by {
      assert [s[i], s[i + 1]][..1] == [s[i]];
      assert [s[i + 1], s[i]][..1] == [s[i + 1]];
    }
  }

  /** How far item `k` pushes the running end: `end_k - end_(k-1)`. */
  function Advance<X>(items: seq<Item<X>>, k: nat): real
    requires k < |items|
  {
    items[k].end - PrevEnd(items, k)
  }

  function Advances<X>(items: seq<Item<X>>): (a: seq<real>)
    ensures |a| == |items|
    ensures forall k :: 0 <= k < |a| ==> a[k] == Advance(items, k)
  {
    seq(|items|, k requires 0 <= k < |items| => Advance(items, k))
  }

  /** The advances of any list add up to where its last item ends. */
  lemma {:induction false} AdvancesTelescope<X>(items: seq<Item<X>>)
    ensures Sum(Advances(items)) == LastEnd(items)
    decreases |items|
  {
    if |items| > 0 {
      var init := items[..|items| - 1];
      assert Advances(items)[..|items| - 1] == Advances(init);
      AdvancesTelescope(init);
    }
  }

  function Durations<X>(items: seq<Item<X>>): (d: seq<real>)
    ensures |d| == |items|
    ensures forall k :: 0 <= k < |d| ==> d[k] == Duration(items[k])
  {
    seq(|items|, k requires 0 <= k < |items| => Duration(items[k]))
  }

  function Plus(a: seq<real>, b: seq<real>): (c: seq<real>)
    requires |a| == |b|
    ensures |c| == |a|
    ensures forall k :: 0 <= k < |c| ==> c[k] == a[k] + b[k]
  {
    seq(|a|, k requires 0 <= k < |a| => a[k] + b[k])
  }

  lemma {:induction false} SumPlus(a: seq<real>, b: seq<real>)
    requires |a| == |b|
    ensures Sum(Plus(a, b)) == Sum(a) + Sum(b)
    decreases |a|
  {
    if |a| > 0 {
      var n := |a| - 1;
      assert Plus(a, b)[..n] == Plus(a[..n], b[..n]);
      SumPlus(a[..n], b[..n]);
    }
  }

  /** A list laid out as the editor keeps it: inside [0,1], in order, and no
      item narrower than `MinDuration`. */
  predicate Tidy<X>(items: seq<Item<X>>) {
    && AllInUnit(items)
    && Chained(items)
    && forall k :: 0 <= k < |items| ==> items[k].end - items[k].start >= MinDuration
  }

  /** A moved list advances by the slot's old gap plus the item's own width. */
  lemma ReorderAdvances<X>(items: seq<Item<X>>, index: nat, dir: Direction)
    requires Admissible(|items|, index, dir) && Moves(|items|, index, dir)
    ensures Advances(Reorder(items, index, dir)) == Plus(Gaps(items), Durations(Swapped(items, index, dir)))
  {
    var r := Reorder(items, index, dir);
    var sw := Swapped(items, index, dir);
    var g := Gaps(items);
    var expected := Plus(g, Durations(sw));
    forall k | 0 <= k < |r|
      ensures Advances(r)[k] == expected[k]
    {
      AdvanceSplits(r, k, g[k], Duration(sw[k]));
    }
    assert |Advances(r)| == |expected|;
  }

  /** An item advances the layout by its gap plus its width. */
  lemma AdvanceSplits<X>(r: seq<Item<X>>, k: nat, gap: real, width: real)
    requires k < |r|
    requires r[k].start - PrevEnd(r, k) == gap && r[k].end - r[k].start == width
    ensures Advances(r)[k] == gap + width
  {
  }

  /** On a tidy list gaps and widths are exact, so it advances by them too. */
  lemma TidyAdvances<X>(items: seq<Item<X>>)
    requires Tidy(items)
    ensures Advances(items) == Plus(Gaps(items), Durations(items))
  {
    forall k | 0 <= k < |items|
      ensures Advances(items)[k] == Plus(Gaps(items), Durations(items))[k]
    {
      assert items[k].start >= PrevEnd(items, k);
    }
  }

  /** Swapping two items only permutes the widths. */
  lemma SwapKeepsTotalDuration<X>(items: seq<Item<X>>, index: nat, dir: Direction)
    requires Moves(|items|, index, dir)
    ensures Sum(Durations(Swapped(items, index, dir))) == Sum(Durations(items))
  {
    var j := Partner(index, dir);
    var lo := if j < index then j else index;
    var ds := Durations(items);
    assert Durations(Swapped(items, index, dir)) == ds[lo := ds[lo + 1]][lo + 1 := ds[lo]];
    SumSwapNeighbours(ds, lo);
  }

  /** On a tidy list a move ends exactly where the list ended before. */
  lemma ReorderKeepsLastEnd<X>(items: seq<Item<X>>, index: nat, dir: Direction)
    requires Admissible(|items|, index, dir) && Moves(|items|, index, dir)
    requires Tidy(items)
    ensures LastEnd(Reorder(items, index, dir)) == LastEnd(items)
  {
    var r := Reorder(items, index, dir);
    var g := Gaps(items);
    var dsw := Durations(Swapped(items, index, dir));
    var ds := Durations(items);
    calc {
      LastEnd(r);
      { AdvancesTelescope(r); }
      Sum(Advances(r));
      { ReorderAdvances(items, index, dir); }
      Sum(Plus(g, dsw));
      { SumPlus(g, dsw); }
      Sum(g) + Sum(dsw);
      { SwapKeepsTotalDuration(items, index, dir); }
      Sum(g) + Sum(ds);
      { SumPlus(g, ds); }
      Sum(Plus(g, ds));
      { TidyAdvances(items); }
      Sum(Advances(items));
      { AdvancesTelescope(items); }
      LastEnd(items);
    }
  }

  lemma LastEndInUnit<X>(items: seq<Item<X>>)
    requires AllInUnit(items)
    ensures 0.0 <= LastEnd(items) <= 1.0
  {
    if |items| > 0 {
      assert InUnit(items[|items| - 1]);
    }
  }

  /** An ordered list starting at or after 0 and ending by 1 lies in [0,1]. */
  lemma OrderedWithinUnit<X>(r: seq<Item<X>>)
    requires |r| > 0 && 0.0 <= r[0].start && LastEnd(r) <= 1.0
    requires Ordered(r)
    requires forall k :: 0 <= k < |r| ==> r[k].start <= r[k].end
    ensures AllInUnit(r)
  {
    var last := |r| - 1;
    forall k | 0 <= k < |r|
      ensures InUnit(r[k])
    {
      if k < last {
        assert r[k].end <= r[last].start;
      }
      if k > 0 {
        assert r[0].end <= r[k].start;
      }
    }
  }

  /** A move keeps a tidy list inside [0,1]. */
  lemma ReorderKeepsUnit<X>(items: seq<Item<X>>, index: nat, dir: Direction)
    requires Admissible(|items|, index, dir) && Moves(|items|, index, dir)
    requires Tidy(items)
    ensures AllInUnit(Reorder(items, index, dir))
  {
    var r := Reorder(items, index, dir);
    ReorderKeepsLastEnd(items, index, dir);
    ReorderIsAscending(items, index, dir);
    LastEndInUnit(items);
    OrderedWithinUnit(r);
  }

  /** `[{0,.25},{.25,.8}]` with the second item moved up becomes `[{0,.55},{.55,.8}]`. */
  lemma MoveUpExample()
    ensures var r := Reorder([Item(1, "A", 0.0, 0.25, ()), Item(2, "B", 0.25, 0.8, ())], 1, Up);
      r == [Item(2, "B", 0.0, 0.55, ()), Item(1, "A", 0.55, 0.8, ())]
  {
    var items := [Item(1, "A", 0.0, 0.25, ()), Item(2, "B", 0.25, 0.8, ())];
    var r := Reorder(items, 1, Up);
    assert Gaps(items)[0] == 0.0 && Gaps(items)[1] == 0.0;
    assert r[0].start == 0.0;
  }

  /** An overlapping input can be pushed past 1: `[{0,.9},{.1,1}]` moved becomes `[{0,.9},{.9,1.8}]`. */
  lemma MoveCanLeaveUnit()
    ensures var r := Reorder([Item(1, "A", 0.0, 0.9, ()), Item(2, "B", 0.1, 1.0, ())], 1, Up);
      r[1].end == 1.8
  {
    var items := [Item(1, "A", 0.0, 0.9, ()), Item(2, "B", 0.1, 1.0, ())];
    var r := Reorder(items, 1, Up);
    assert Gaps(items)[0] == 0.0 && Gaps(items)[1] == 0.0;
    assert r[0].start == 0.0;
  }
}
