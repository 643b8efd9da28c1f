/** Editing one bound of one item of a list (`updateSequence` / `updateClip`).

    The requested value is already a fraction of the parent span. With
    overlap prevention off it is only clamped into [0,1]. With it on, the
    edited bound is kept inside a window given by the item's list neighbours
    and its own other bound, and an edit that would leave no width falls back
    to `MinWidth` short of the item's other bound, as clipped by the
    neighbour and by [0,1]. Only the edited bound is stored. */
module Edits {
  import opened Basics
  import opened Intervals

  /** How far short of the clipped other bound an edit that would close an
      item falls back. */
  const MinWidth: real := 0.01

  /** Lowest start a start edit keeps: the predecessor's end, and never below 0. */
  function StartFloor<X>(items: seq<Item<X>>, i: nat): real
    requires i < |items|
  {
    if i > 0 then Max(0.0, items[i - 1].end) else 0.0
  }

  /** A start edit must stay below this: the item's own end, clipped to the
      successor's start and to 1. */
  function StartCeiling<X>(items: seq<Item<X>>, i: nat): real
    requires i < |items|
  {
    Min(1.0, if i + 1 < |items| then Min(items[i].end, items[i + 1].start) else items[i].end)
  }

  /** An end edit must stay above this: the item's own start, raised to the
      predecessor's end and to 0. */
  function EndFloor<X>(items: seq<Item<X>>, i: nat): real
    requires i < |items|
  {
    Max(0.0, if i > 0 then Max(items[i].start, items[i - 1].end) else items[i].start)
  }

  /** Highest end an end edit keeps: the successor's start, and never above 1. */
  function EndCeiling<X>(items: seq<Item<X>>, i: nat): real
    requires i < |items|
  {
    if i + 1 < |items| then Min(1.0, items[i + 1].start) else 1.0
  }

  /** The start stored when item `i` is asked to start at the fraction `raw`. */
  function StoredStart<X>(items: seq<Item<X>>, i: nat, raw: real, preventOverlap: bool): (s: real)
    requires i < |items|
    // without overlap prevention: clamped into [0,1], no neighbour is looked at
    ensures !preventOverlap ==> s == Clamp01(raw)
    // kept inside [StartFloor, StartCeiling), raised to the floor, or, when
    // the window is closed or passed, MinWidth below the ceiling
    ensures preventOverlap ==>
              var lo, hi := StartFloor(items, i), StartCeiling(items, i);
              && (lo <= raw < hi ==> s == raw)
              && (raw < lo < hi ==> s == lo)
              && (raw >= hi || lo >= hi ==> s == Max(0.0, hi - MinWidth))
    // on a list inside [0,1]: not below 0, not past the item's own end
    ensures preventOverlap && AllInUnit(items) ==> 0.0 <= s <= items[i].end
  {
    assert AllInUnit(items) ==> InUnit(items[i]) && (i + 1 < |items| ==> InUnit(items[i + 1]));
    if preventOverlap then
      var s1 := if i > 0 && raw < items[i - 1].end then items[i - 1].end else raw;
      var e1 := if i + 1 < |items| && items[i].end > items[i + 1].start then items[i + 1].start else items[i].end;
      var s2 := Max(0.0, s1);
      var e2 := Min(1.0, e1);
      if s2 >= e2 then Max(0.0, e2 - MinWidth) else s2
    else
      Clamp01(raw)
  }

  /** The end stored when item `i` is asked to end at the fraction `raw`. */
  function StoredEnd<X>(items: seq<Item<X>>, i: nat, raw: real, preventOverlap: bool): (e: real)
    requires i < |items|
    // without overlap prevention: clamped into [0,1], no neighbour is looked at
    ensures !preventOverlap ==> e == Clamp01(raw)
    // kept inside (EndFloor, EndCeiling], lowered to the ceiling, or, when
    // the window is closed or passed, MinWidth above the floor
    ensures preventOverlap ==>
              var lo, hi := EndFloor(items, i), EndCeiling(items, i);
              && (lo < raw <= hi ==> e == raw)
              && (lo < hi < raw ==> e == hi)
              && (raw <= lo || hi <= lo ==> e == Min(1.0, lo + MinWidth))
    // on a list inside [0,1]: not before the item's own start, not past 1
    ensures preventOverlap && AllInUnit(items) ==> items[i].start <= e <= 1.0
  {
    assert AllInUnit(items) ==> InUnit(items[i]) && (i > 0 ==> InUnit(items[i - 1]));
    if preventOverlap then
      var s1 := if i > 0 && items[i].start < items[i - 1].end then items[i - 1].end else items[i].start;
      var e1 := if i + 1 < |items| && raw > items[i + 1].start then items[i + 1].start else raw;
      var s2 := Max(0.0, s1);
      var e2 := Min(1.0, e1);
      if e2 <= s2 then Min(1.0, s2 + MinWidth) else e2
    else
      Clamp01(raw)
  }

  /** The item at `i` after setting its `side` bound to the fraction `raw`;
      only the edited bound is written. */
  function Bounded<X>(items: seq<Item<X>>, i: nat, side: Side, raw: real, preventOverlap: bool): (r: Item<X>)
    requires i < |items|
    ensures side == Start ==> r == items[i].(start := r.start)
    ensures side == End ==> r == items[i].(end := r.end)
    // the written bound is the one the clamp rules store
    ensures side == Start ==> r.start == StoredStart(items, i, raw, preventOverlap)
    ensures side == End ==> r.end == StoredEnd(items, i, raw, preventOverlap)
    // on a list inside [0,1] the edited item stays inside [0,1], not inverted
    ensures preventOverlap && AllInUnit(items) ==> InUnit(r)
  {
    assert AllInUnit(items) ==> InUnit(items[i]);
    match side
    case Start => items[i].(start := StoredStart(items, i, raw, preventOverlap))
    case End => items[i].(end := StoredEnd(items, i, raw, preventOverlap))
  }

  /** What an edit asks for once its value is a fraction of the parent span. */
  datatype Change = Bound(side: Side, value: real) | Rename(name: string)

  function Changed<X>(items: seq<Item<X>>, i: nat, change: Change, preventOverlap: bool): Item<X>
    requires i < |items|
  {
    match change
    case Bound(side, v) => Bounded(items, i, side, v, preventOverlap)
    case Rename(n) => items[i].(name := n)
  }

  /** Applies `change` to the first item carrying `id`; an unknown id changes nothing. */
  function Update<X>(items: seq<Item<X>>, id: Id, change: Change, preventOverlap: bool): (r: seq<Item<X>>)
    ensures |r| == |items|
    ensures FindIndex(items, id).None? ==> r == items
    // exactly one item, the first with that id, is touched
    ensures FindIndex(items, id).Some? ==>
              var i := FindIndex(items, id).value;
              (forall k :: 0 <= k < |r| && k != i ==> r[k] == items[k])
              && r[i] == Changed(items, i, change, preventOverlap)
    // a rename touches nothing but the name
    ensures change.Rename? ==>
              forall k :: 0 <= k < |r| ==> r[k] == items[k] || r[k] == items[k].(name := change.name)
    // no edit changes any id
    ensures forall k :: 0 <= k < |r| ==> r[k].id == items[k].id
  {
    match FindIndex(items, id)
    case None => items
    case Some(i) => items[i := Changed(items, i, change, preventOverlap)]
  }

  /** Editing the same bound to the same value again finds nothing left to do. */
  lemma BoundedAgain<X>(items: seq<Item<X>>, i: nat, side: Side, raw: real, preventOverlap: bool)
    requires i < |items|
    ensures var x := Bounded(items, i, side, raw, preventOverlap);
      Bounded(items[i := x], i, side, raw, preventOverlap) == x
  {
    var x := Bounded(items, i, side, raw, preventOverlap);
    var again := items[i := x];
    if i > 0 {
      assert again[i - 1] == items[i - 1];
    }
    if i + 1 < |items| {
      assert again[i + 1] == items[i + 1];
    }
  }

  /** Applying an edit twice leaves the list as applying it once. */
  lemma UpdateIdempotent<X>(items: seq<Item<X>>, id: Id, change: Change, preventOverlap: bool)
    ensures var once := Update(items, id, change, preventOverlap);
      Update(once, id, change, preventOverlap) == once
  {
    var once := Update(items, id, change, preventOverlap);
    FindIndexSameIds(items, once, id);
    match FindIndex(items, id)
    case None =>
    case Some(i) =>
      match change
      case Bound(side, v) =>
        BoundedAgain(items, i, side, v, preventOverlap);
        assert once == items[i := Bounded(items, i, side, v, preventOverlap)];
      case Rename(n) =>
  }

  /** With overlap prevention, edits keep every item of a list inside [0,1]. */
  lemma UpdateKeepsUnit<X>(items: seq<Item<X>>, id: Id, change: Change)
    requires AllInUnit(items)
    ensures AllInUnit(Update(items, id, change, true))
  {
  }

  /** An edit can keep the list in order only if the edited item leaves
      `MinWidth` of room for its fallback. */
  predicate Room<X>(items: seq<Item<X>>, i: nat, side: Side)
    requires i < |items|
  {
    match side
    case Start => i == 0 || items[i - 1].end + MinWidth <= items[i].end
    case End => i + 1 == |items| || items[i].start + MinWidth <= items[i + 1].start
  }

  /** With overlap prevention, a bound edit keeps an ordered list ordered,
      provided the edited item has room for the fallback width. */
  lemma UpdateKeepsChained<X>(items: seq<Item<X>>, id: Id, side: Side, v: real)
    requires AllInUnit(items) && Chained(items)
    requires FindIndex(items, id).Some? ==> Room(items, FindIndex(items, id).value, side)
    ensures Chained(Update(items, id, Bound(side, v), true))
  {
    var r := Update(items, id, Bound(side, v), true);
    if FindIndex(items, id).Some? {
      var i := FindIndex(items, id).value;
      forall k | 0 < k < |r|
        ensures r[k - 1].end <= r[k].start
      {
        if k == i {
          assert items[k - 1].end <= items[k].start;
        } else if k - 1 == i {
          assert items[k - 1].end <= items[k].start;
        }
      }
    }
  }

  /** The start fallback can reach under the predecessor's end: in
      `[{0,.5},{.5,.5}]`, asking item 1 to start at .3 stores .49. */
  lemma StartFallbackUndercutsPredecessor()
    ensures var items := [Item(1, "A", 0.0, 0.5, ()), Item(2, "B", 0.5, 0.5, ())];
      var r := Update(items, 2, Bound(Start, 0.3), true);
      r[1].start == 0.49 && r[1].start < r[0].end && !Chained(r)
  {
    var items := [Item(1, "A", 0.0, 0.5, ()), Item(2, "B", 0.5, 0.5, ())];
    assert FindIndex(items, 2) == Some(1);
  }

  /** Without overlap prevention an item can be inverted: `{.2,.4}` asked to start at .9. */
  lemma UnpreventedEditCanInvert()
    ensures var r := Update([Item(1, "A", 0.2, 0.4, ())], 1, Bound(Start, 0.9), false);
      r[0].start == 0.9 && r[0].start > r[0].end
  {
    assert FindIndex([Item(1, "A", 0.2, 0.4, ())], 1) == Some(0);
  }

  /** `[{0,.5},{.5,1}]`: asking item 0 to end at .9 stores .5, the successor's start. */
  lemma EndClampedToSuccessor()
    ensures var items := [Item(1, "A", 0.0, 0.5, ()), Item(2, "B", 0.5, 1.0, ())];
      Update(items, 1, Bound(End, 0.9), true) == items
  {
    var items := [Item(1, "A", 0.0, 0.5, ()), Item(2, "B", 0.5, 1.0, ())];
    assert FindIndex(items, 1) == Some(0);
  }
}
