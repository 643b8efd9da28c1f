/** What the store operations promise across calls: the validity of both
    levels, idempotence of edits, the meaning of seconds edits, and the
    worked examples of the editor. */
module TimelineProperties {
  import opened Basics
  import opened Intervals
  import opened Reordering
  import opened Edits
  import opened Timeline

  /** The two sections the editor starts with. */
  function InitialSections(): (secs: seq<Section>)
    ensures Valid(secs) && Chained(secs)
    ensures forall k :: 0 <= k < |secs| ==> Chained(Clips(secs[k]))
  {
    [ Item(1, "Intro", 0.0, 0.25, SectionBody(false, [
        Item(101, "Fade In", 0.0, 0.2, NoExtra),
        Item(102, "Title", 0.2, 1.0, NoExtra)])),
      Item(2, "Main Content", 0.25, 0.8, SectionBody(false, [
        Item(201, "Part A", 0.0, 0.5, NoExtra)])) ]
  }

  // ----- sections -----

  /** Appending right after the last end keeps a list inside [0,1] and in order. */
  lemma {:induction false} AppendAfterLastKeepsOrder<X>(items: seq<Item<X>>, it: Item<X>)
    requires AllInUnit(items) && Ordered(items)
    requires it.start == LastEnd(items) && it.start <= it.end <= 1.0
    ensures AllInUnit(items + [it]) && Ordered(items + [it])
  {
    LastEndInUnit(items);
    var r := items + [it];
    forall a, b | 0 <= a < b < |r|
      ensures r[a].end <= r[b].start
    {
      if b == |items| && a < |items| - 1 {
        assert items[a].end <= items[|items| - 1].start;
      }
    }
  }

  /** A new section keeps the store valid, and keeps the section list in order. */
  lemma AddSectionKeepsValid(secs: seq<Section>, newId: Id, labels: Labels, preventOverlap: bool)
    requires Valid(secs)
    ensures Valid(AddSection(secs, newId, labels, preventOverlap))
    ensures Ordered(secs) ==> Ordered(AddSection(secs, newId, labels, preventOverlap))
  {
    var r := AddSection(secs, newId, labels, preventOverlap);
    LastEndInUnit(secs);
    assert r == secs + [r[|secs|]];
    if Ordered(secs) {
      AppendAfterLastKeepsOrder(secs, r[|secs|]);
    }
  }

  /** The first section of an empty timeline spans `[0, 0.1]`. */
  lemma FirstSection(newId: Id, labels: Labels, preventOverlap: bool)
    ensures var r := AddSection([], newId, labels, preventOverlap);
      |r| == 1 && r[0].start == 0.0 && r[0].end == 0.1
  {
  }

  /** Removing sections keeps the store valid and the remaining sections in order. */
  lemma RemoveSectionKeepsValid(secs: seq<Section>, id: Id)
    requires Valid(secs)
    ensures Valid(RemoveSection(secs, id))
    ensures Ordered(secs) ==> Ordered(RemoveSection(secs, id))
  {
    var r := RemoveSection(secs, id);
    forall k | 0 <= k < |r|
      ensures InUnit(r[k]) && AllInUnit(Clips(r[k]))
    {
      var j :| 0 <= j < |secs| && secs[j] == r[k];
    }
    if Ordered(secs) {
      RemoveKeepsOrder(secs, id);
    }
  }

  /** Collapsing twice is no change at all. */
  lemma ToggleTwice(secs: seq<Section>, id: Id)
    ensures ToggleCollapse(ToggleCollapse(secs, id), id) == secs
  {
    var once := ToggleCollapse(secs, id);
    var twice := ToggleCollapse(once, id);
    forall k | 0 <= k < |secs|
      ensures twice[k] == secs[k]
    {
      if secs[k].id == id {
        assert once[k].id == id;
        assert twice[k].(extra := once[k].extra) == once[k];
      }
    }
  }

  /** Collapsing changes no timing, so the store stays valid. */
  lemma ToggleKeepsValid(secs: seq<Section>, id: Id)
    requires Valid(secs)
    ensures Valid(ToggleCollapse(secs, id))
  {
    var r := ToggleCollapse(secs, id);
    forall k | 0 <= k < |secs|
      ensures InUnit(r[k]) && AllInUnit(Clips(r[k]))
    {
      if secs[k].id == id {
        assert r[k].(extra := secs[k].extra) == secs[k];
      }
    }
  }

  /** With overlap prevention, a section edit keeps the store valid. */
  lemma UpdateSectionKeepsValid(secs: seq<Section>, id: Id, e: Edit, totalDuration: real)
    requires IsSecondsEdit(e) ==> totalDuration != 0.0
    requires Valid(secs)
    ensures Valid(UpdateSection(secs, id, e, totalDuration, true))
  {
    UpdateKeepsUnit(secs, id, SectionChange(e, totalDuration));
  }

  /** Repeating a section edit changes nothing more. */
  lemma UpdateSectionIdempotent(secs: seq<Section>, id: Id, e: Edit, totalDuration: real, preventOverlap: bool)
    requires IsSecondsEdit(e) ==> totalDuration != 0.0
    ensures var once := UpdateSection(secs, id, e, totalDuration, preventOverlap);
      UpdateSection(once, id, e, totalDuration, preventOverlap) == once
  {
    UpdateIdempotent(secs, id, SectionChange(e, totalDuration), preventOverlap);
  }

  /** A section edit of `t` seconds is the fractional edit of `t / totalDuration`. */
  lemma SectionSecondsAreFractions(secs: seq<Section>, id: Id, t: real, totalDuration: real, preventOverlap: bool)
    requires totalDuration != 0.0
    ensures UpdateSection(secs, id, SetStartSec(t), totalDuration, preventOverlap)
         == UpdateSection(secs, id, SetStart(t / totalDuration), totalDuration, preventOverlap)
    ensures UpdateSection(secs, id, SetEndSec(t), totalDuration, preventOverlap)
         == UpdateSection(secs, id, SetEnd(t / totalDuration), totalDuration, preventOverlap)
  {
  }

  /** Moving a section within a tidy list keeps the store valid. */
  lemma MoveSectionKeepsValid(secs: seq<Section>, index: nat, dir: Direction)
    requires Admissible(|secs|, index, dir)
    requires Valid(secs) && Tidy(secs)
    ensures Valid(MoveSection(secs, index, dir))
  {
    if Moves(|secs|, index, dir) {
      ReorderKeepsUnit(secs, index, dir);
      var r := MoveSection(secs, index, dir);
      var sw := Swapped(secs, index, dir);
      forall k | 0 <= k < |r|
        ensures AllInUnit(Clips(r[k]))
      {
        var j := if k == index then Partner(index, dir) else if k == Partner(index, dir) then index else k;
        assert sw[k] == secs[j];
        assert r[k].extra == secs[j].extra;
      }
    }
  }

  // ----- segments -----

  /** A new segment keeps the store valid. */
  lemma AddSegmentKeepsValid(secs: seq<Section>, secId: Id, newId: Id, labels: Labels, preventOverlap: bool)
    requires Valid(secs)
    ensures Valid(AddSegment(secs, secId, newId, labels, preventOverlap))
  {
    var r := AddSegment(secs, secId, newId, labels, preventOverlap);
    forall k | 0 <= k < |secs|
      ensures InUnit(r[k]) && AllInUnit(Clips(r[k]))
    {
      assert r[k] == WithClips(secs[k], Clips(r[k]));
      if secs[k].id == secId {
        var cs := Clips(secs[k]);
        LastEndInUnit(cs);
        assert Clips(r[k]) == cs + [Clips(r[k])[|cs|]];
      }
    }
  }

  /** Removing segments keeps the store valid. */
  lemma RemoveSegmentKeepsValid(secs: seq<Section>, secId: Id, segId: Id)
    requires Valid(secs)
    ensures Valid(RemoveSegment(secs, secId, segId))
  {
    var r := RemoveSegment(secs, secId, segId);
    forall k | 0 <= k < |secs|
      ensures InUnit(r[k]) && AllInUnit(Clips(r[k]))
    {
      assert r[k] == WithClips(secs[k], Clips(r[k]));
      forall j | 0 <= j < |Clips(r[k])|
        ensures InUnit(Clips(r[k])[j])
      {
        if secs[k].id == secId {
          var cs := Clips(secs[k]);
          var i :| 0 <= i < |cs| && cs[i] == Clips(r[k])[j];
        }
      }
    }
  }

  /** With overlap prevention, a segment edit keeps the store valid. */
  lemma UpdateSegmentKeepsValid(secs: seq<Section>, secId: Id, segId: Id, e: Edit, totalDuration: real)
    requires Valid(secs)
    ensures Valid(UpdateSegment(secs, secId, segId, e, totalDuration, true))
  {
    var r := UpdateSegment(secs, secId, segId, e, totalDuration, true);
    forall k | 0 <= k < |secs|
      ensures InUnit(r[k]) && AllInUnit(Clips(r[k]))
    {
      assert r[k] == WithClips(secs[k], Clips(r[k]));
      if secs[k].id == secId {
        UpdateKeepsUnit(Clips(secs[k]), segId, SegmentChange(e, SectionSeconds(secs[k], totalDuration)));
      }
    }
  }

  /** Repeating a segment edit changes nothing more: the section spans its
      seconds are measured against are not written by it. */
  lemma UpdateSegmentIdempotent(secs: seq<Section>, secId: Id, segId: Id, e: Edit, totalDuration: real, preventOverlap: bool)
    ensures var once := UpdateSegment(secs, secId, segId, e, totalDuration, preventOverlap);
      UpdateSegment(once, secId, segId, e, totalDuration, preventOverlap) == once
  {
    var once := UpdateSegment(secs, secId, segId, e, totalDuration, preventOverlap);
    var twice := UpdateSegment(once, secId, segId, e, totalDuration, preventOverlap);
    forall k | 0 <= k < |secs|
      ensures twice[k] == once[k]
    {
      if secs[k].id == secId {
        SegmentEditAgain(secs[k], segId, e, totalDuration, preventOverlap);
      }
    }
  }

  lemma SegmentEditAgain(sec: Section, segId: Id, e: Edit, totalDuration: real, preventOverlap: bool)
    ensures var once := WithClips(sec, Update(Clips(sec), segId, SegmentChange(e, SectionSeconds(sec, totalDuration)), preventOverlap));
      WithClips(once, Update(Clips(once), segId, SegmentChange(e, SectionSeconds(once, totalDuration)), preventOverlap)) == once
  {
    var c := SegmentChange(e, SectionSeconds(sec, totalDuration));
    var clips := Update(Clips(sec), segId, c, preventOverlap);
    var once := WithClips(sec, clips);
    assert SectionSeconds(once, totalDuration) == SectionSeconds(sec, totalDuration);
    assert Clips(once) == clips;
    UpdateIdempotent(Clips(sec), segId, c, preventOverlap);
  }

  /** Within the section `secId`, a segment edit of `t` seconds is the fractional
      edit of `t` over the section's span in seconds, or of 0 for an empty span. */
  lemma SegmentSecondsAreFractions(secs: seq<Section>, secId: Id, segId: Id, t: real, totalDuration: real, span: real, preventOverlap: bool)
    requires forall k :: 0 <= k < |secs| && secs[k].id == secId ==> SectionSeconds(secs[k], totalDuration) == span
    ensures var f := if span > 0.0 then t / span else 0.0;
      && UpdateSegment(secs, secId, segId, SetStartSec(t), totalDuration, preventOverlap)
         == UpdateSegment(secs, secId, segId, SetStart(f), totalDuration, preventOverlap)
      && UpdateSegment(secs, secId, segId, SetEndSec(t), totalDuration, preventOverlap)
         == UpdateSegment(secs, secId, segId, SetEnd(f), totalDuration, preventOverlap)
  {
  }

  /** A section inside [0,1] of a non-negative total spans at most the total. */
  lemma SectionSecondsWithinTotal(sec: Section, totalDuration: real)
    requires InUnit(sec) && totalDuration >= 0.0
    ensures 0.0 <= SectionSeconds(sec, totalDuration) <= totalDuration
  {
    assert (sec.end - sec.start) * totalDuration <= 1.0 * totalDuration;
  }

  /** The seconds a segment bound is shown as (its fraction times the section
      span) convert back to the same fraction when typed into the seconds
      field, as long as the section spans a positive number of seconds. */
  lemma SecondsRoundTrip(sec: Section, totalDuration: real, f: real)
    requires SectionSeconds(sec, totalDuration) > 0.0
    ensures var span := SectionSeconds(sec, totalDuration);
      && SegmentChange(SetStartSec(f * span), span) == Bound(Start, f)
      && SegmentChange(SetEndSec(f * span), span) == Bound(End, f)
  {
  }

  /** Moving a segment within a tidy segment list keeps the store valid. */
  lemma MoveSegmentKeepsValid(secs: seq<Section>, secId: Id, index: nat, dir: Direction)
    requires SegmentMoveAdmissible(secs, secId, index, dir)
    requires Valid(secs)
    requires forall k :: 0 <= k < |secs| && secs[k].id == secId ==> Tidy(Clips(secs[k]))
    ensures Valid(MoveSegment(secs, secId, index, dir))
  {
    var r := MoveSegment(secs, secId, index, dir);
    forall k | 0 <= k < |secs|
      ensures InUnit(r[k]) && AllInUnit(Clips(r[k]))
    {
      assert r[k] == WithClips(secs[k], Clips(r[k]));
      if secs[k].id == secId {
        var cs := Clips(secs[k]);
        assert Clips(r[k]) == Reorder(cs, index, dir);
        if Moves(|cs|, index, dir) {
          ReorderKeepsUnit(cs, index, dir);
        }
      }
    }
  }

  /** A 60 s timeline, section `{.25,.8}`: it spans 33 s, and its segment
      `{0,.5}` runs from 0 s to 16.5 s of it. */
  lemma SegmentSecondsExample()
    ensures var sec := Item(2, "Main Content", 0.25, 0.8, SectionBody(false, [Item(201, "Part A", 0.0, 0.5, NoExtra)]));
      var span := SectionSeconds(sec, 60.0);
      span == 33.0 && Clips(sec)[0].start * span == 0.0 && Clips(sec)[0].end * span == 16.5
  {
  }
}
