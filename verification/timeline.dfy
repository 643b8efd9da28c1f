/** The section/segment store of the timeline editor (the `App` component's
    state operations).

    The whole duration is split into an ordered list of sections; each
    section owns an ordered list of segments whose `start`/`end` are
    fractions of that section's own span. Both lists obey the same interval
    rules (modules `Reordering` and `Edits`); the segment operations reach into
    the matching section and touch nothing but its segment list. */
module Timeline {
  import opened Basics
  import opened Intervals
  import opened Reordering
  import opened Edits
  import opened Numerals

  datatype NoExtra = NoExtra

  /** A nested interval, a fraction of its section's span. */
  type Segment = Item<NoExtra>

  datatype SectionBody = SectionBody(collapsed: bool, clips: seq<Segment>)

  /** A top-level interval, a fraction of the whole duration. */
  type Section = Item<SectionBody>

  /** The user-chosen words for the two levels, used in default names. */
  datatype Labels = Labels(parent: string, child: string)

  /** One edit request of the editor; seconds are made explicit in the variant. */
  datatype Edit =
    | SetStart(value: real)
    | SetEnd(value: real)
    | SetStartSec(seconds: real)
    | SetEndSec(seconds: real)
    | SetName(name: string)

  /** Default width of a new section, and of a new segment. */
  const SectionStep: real := 0.1
  const SegmentStep: real := 0.2

  function Clips(sec: Section): seq<Segment> {
    sec.extra.clips
  }

  function WithClips(sec: Section, clips: seq<Segment>): Section {
    sec.(extra := sec.extra.(clips := clips))
  }

  /** Every section and every segment lies inside [0,1] and is not inverted. */
  ghost predicate Valid(secs: seq<Section>) {
    && AllInUnit(secs)
    && forall k :: 0 <= k < |secs| ==> AllInUnit(Clips(secs[k]))
  }

  /** `r` differs from `secs` at most in the segment lists of the sections
      carrying `secId`: no section's id, name, timing or flag is written. */
  ghost predicate OnlyClipsOf(secs: seq<Section>, r: seq<Section>, secId: Id) {
    && |r| == |secs|
    && forall k :: 0 <= k < |secs| ==>
         && (secs[k].id != secId ==> r[k] == secs[k])
         && r[k] == WithClips(secs[k], Clips(r[k]))
  }

  /** The span of a section in seconds, `max(0, (end - start) * total)`. */
  function SectionSeconds(sec: Section, totalDuration: real): (t: real)
    ensures t >= 0.0
    ensures sec.start <= sec.end && totalDuration >= 0.0 ==> t == (sec.end - sec.start) * totalDuration
    ensures sec.start >= sec.end && totalDuration >= 0.0 ==> t == 0.0
    // whatever the sign of the total: the product, or 0 when that is negative
    ensures t == 0.0 || t == (sec.end - sec.start) * totalDuration
    ensures (sec.end - sec.start) * totalDuration >= 0.0 ==> t == (sec.end - sec.start) * totalDuration
  {
    Max(0.0, (sec.end - sec.start) * totalDuration)
  }

  predicate IsSecondsEdit(e: Edit) {
    e.SetStartSec? || e.SetEndSec?
  }

  /** A section edit in fractions of the whole duration. Seconds are divided by
      the duration without a guard, so a seconds edit needs a non-zero one. */
  function SectionChange(e: Edit, totalDuration: real): (c: Change)
    requires IsSecondsEdit(e) ==> totalDuration != 0.0
    ensures (e.SetStart? || e.SetStartSec?) <==> c.Bound? && c.side == Start
    ensures (e.SetEnd? || e.SetEndSec?) <==> c.Bound? && c.side == End
    ensures e.SetName? ==> c == Rename(e.name)
    ensures (e.SetStart? || e.SetEnd?) ==> c.value == e.value
    // the fraction, scaled back by the duration, is the requested number of seconds
    ensures IsSecondsEdit(e) ==> c.value * totalDuration == e.seconds
  {
    match e
    case SetStart(v) => Bound(Start, v)
    case SetEnd(v) => Bound(End, v)
    case SetStartSec(t) => Bound(Start, t / totalDuration)
    case SetEndSec(t) => Bound(End, t / totalDuration)
    case SetName(n) => Rename(n)
  }

  /** A segment edit in fractions of the section span; a span of 0 seconds
      turns every seconds edit into 0. */
  function SegmentChange(e: Edit, spanSeconds: real): (c: Change)
    ensures (e.SetStart? || e.SetStartSec?) <==> c.Bound? && c.side == Start
    ensures (e.SetEnd? || e.SetEndSec?) <==> c.Bound? && c.side == End
    ensures e.SetName? ==> c == Rename(e.name)
    ensures (e.SetStart? || e.SetEnd?) ==> c.value == e.value
    // the fraction, scaled back by the span, is the requested number of seconds
    ensures IsSecondsEdit(e) && spanSeconds > 0.0 ==> c.value * spanSeconds == e.seconds
    ensures IsSecondsEdit(e) && spanSeconds <= 0.0 ==> c.value == 0.0
  {
    match e
    case SetStart(v) => Bound(Start, v)
    case SetEnd(v) => Bound(End, v)
    case SetStartSec(t) => Bound(Start, if spanSeconds > 0.0 then t / spanSeconds else 0.0)
    case SetEndSec(t) => Bound(End, if spanSeconds > 0.0 then t / spanSeconds else 0.0)
    case SetName(n) => Rename(n)
  }

  // ----- sections -----

  /** `addSequence`: one new, expanded, empty section right after the last one. */
  function AddSection(secs: seq<Section>, newId: Id, labels: Labels, preventOverlap: bool): (r: seq<Section>)
    ensures |r| == |secs| + 1 && r[..|secs|] == secs
    ensures var n := r[|secs|];
      && n.id == newId
      && n.name == DefaultName(labels.parent, |secs| + 1)
      && n.extra == SectionBody(false, [])
      && n.start == LastEnd(secs)
      && n.end == Min(1.0, n.start + SectionStep)
  {
    var newStart := LastEnd(secs);
    var newEnd := if newStart >= 1.0 then 1.0 else newStart + SectionStep;
    var capped := if preventOverlap && newEnd > 1.0 then 1.0 else newEnd;
    secs + [Item(newId, DefaultName(labels.parent, |secs| + 1), newStart, Min(1.0, capped), SectionBody(false, []))]
  }

  /** `removeSequence`: drops every section carrying `id`; no other timing changes. */
  function RemoveSection(secs: seq<Section>, id: Id): (r: seq<Section>)
    // the generic removal: membership, length and the absent-id case come from
    // `RemoveById`'s contract, order and count from `RemoveByIdConcat`
    ensures r == RemoveById(secs, id)
  {
    RemoveById(secs, id)
  }

  /** `toggleCollapse`: flips the flag of the sections carrying `id`, nothing else. */
  function ToggleCollapse(secs: seq<Section>, id: Id): (r: seq<Section>)
    ensures |r| == |secs|
    ensures forall k :: 0 <= k < |secs| && secs[k].id != id ==> r[k] == secs[k]
    ensures forall k :: 0 <= k < |secs| && secs[k].id == id ==>
              && r[k].extra.collapsed == !secs[k].extra.collapsed
              && r[k].(extra := secs[k].extra) == secs[k]
              && Clips(r[k]) == Clips(secs[k])
  {
    seq(|secs|, k requires 0 <= k < |secs| => if secs[k].id == id then Toggled(secs[k]) else secs[k])
  }

  function Toggled(sec: Section): Section {
    sec.(extra := sec.extra.(collapsed := !sec.extra.collapsed))
  }

  /** `updateSequence`: one edit of the first section carrying `id`. */
  function UpdateSection(secs: seq<Section>, id: Id, e: Edit, totalDuration: real, preventOverlap: bool): (r: seq<Section>)
    requires IsSecondsEdit(e) ==> totalDuration != 0.0
    ensures |r| == |secs|
    ensures FindIndex(secs, id).None? ==> r == secs
    ensures FindIndex(secs, id).Some? ==>
              var i := FindIndex(secs, id).value;
              forall k :: 0 <= k < |r| && k != i ==> r[k] == secs[k]
    // a section edit never touches the section's segments or its flag
    ensures forall k :: 0 <= k < |r| ==> r[k].extra == secs[k].extra && r[k].id == secs[k].id
    // the section list goes through the list edit, with seconds over the total
    ensures r == Update(secs, id, SectionChange(e, totalDuration), preventOverlap)
  {
    Update(secs, id, SectionChange(e, totalDuration), preventOverlap)
  }

  /** `moveSequence`: reorders and re-lays out the sections; each section keeps
      its own segments and flag. */
  function MoveSection(secs: seq<Section>, index: nat, dir: Direction): (r: seq<Section>)
    requires Admissible(|secs|, index, dir)
    ensures |r| == |secs|
    ensures !Moves(|secs|, index, dir) ==> r == secs
    ensures Moves(|secs|, index, dir) ==>
              forall k :: 0 <= k < |r| ==> r[k].extra == Swapped(secs, index, dir)[k].extra
    // the section list goes through the list reorder
    ensures r == Reorder(secs, index, dir)
  {
    Reorder(secs, index, dir)
  }

  // ----- segments of one section -----

  /** `addClip`: one new segment after the last one of each section carrying `secId`. */
  function AddSegment(secs: seq<Section>, secId: Id, newId: Id, labels: Labels, preventOverlap: bool): (r: seq<Section>)
    ensures OnlyClipsOf(secs, r, secId)
    ensures forall k :: 0 <= k < |secs| && secs[k].id == secId ==>
              var before, after := Clips(secs[k]), Clips(r[k]);
              && |after| == |before| + 1 && after[..|before|] == before
              && after[|before|].id == newId
              && after[|before|].name == DefaultName(labels.child, |before| + 1)
              && after[|before|].start == LastEnd(before)
              && after[|before|].end == Min(1.0, LastEnd(before) + SegmentStep)
  {
    seq(|secs|, k requires 0 <= k < |secs| =>
      if secs[k].id == secId then WithClips(secs[k], AppendSegment(Clips(secs[k]), newId, labels.child, preventOverlap))
      else secs[k])
  }

  function AppendSegment(clips: seq<Segment>, newId: Id, tag: string, preventOverlap: bool): seq<Segment> {
    var newStart := LastEnd(clips);
    var newEnd := Min(1.0, newStart + SegmentStep);
    var capped := if preventOverlap && newEnd > 1.0 then 1.0 else newEnd;
    clips + [Item(newId, DefaultName(tag, |clips| + 1), newStart, capped, NoExtra)]
  }

  /** `removeClip`: drops the segments carrying `segId` from the sections carrying `secId`. */
  function RemoveSegment(secs: seq<Section>, secId: Id, segId: Id): (r: seq<Section>)
    ensures OnlyClipsOf(secs, r, secId)
    // the matching sections' segment lists go through the generic removal
    ensures forall k :: 0 <= k < |secs| && secs[k].id == secId ==>
              Clips(r[k]) == RemoveById(Clips(secs[k]), segId)
  {
    seq(|secs|, k requires 0 <= k < |secs| =>
      if secs[k].id == secId then WithClips(secs[k], RemoveById(Clips(secs[k]), segId)) else secs[k])
  }

  /** Every section carrying `secId` can evaluate the move request. */
  predicate SegmentMoveAdmissible(secs: seq<Section>, secId: Id, index: nat, dir: Direction) {
    forall k :: 0 <= k < |secs| && secs[k].id == secId ==> Admissible(|Clips(secs[k])|, index, dir)
  }

  /** `moveClip`: reorders the segments of the sections carrying `secId`. */
  function MoveSegment(secs: seq<Section>, secId: Id, index: nat, dir: Direction): (r: seq<Section>)
    requires SegmentMoveAdmissible(secs, secId, index, dir)
    ensures OnlyClipsOf(secs, r, secId)
    // the matching sections' segments go through the list reorder
    ensures forall k :: 0 <= k < |secs| && secs[k].id == secId ==>
              Clips(r[k]) == Reorder(Clips(secs[k]), index, dir)
  {
    seq(|secs|, k requires 0 <= k < |secs| =>
      if secs[k].id == secId then WithClips(secs[k], Reorder(Clips(secs[k]), index, dir)) else secs[k])
  }

  /** `updateClip`: one edit of the first segment carrying `segId` in each
      section carrying `secId`; seconds are relative to that section's span. */
  function UpdateSegment(secs: seq<Section>, secId: Id, segId: Id, e: Edit, totalDuration: real, preventOverlap: bool): (r: seq<Section>)
    ensures OnlyClipsOf(secs, r, secId)
    ensures forall k :: 0 <= k < |secs| ==> |Clips(r[k])| == |Clips(secs[k])|
    ensures forall k :: 0 <= k < |secs| && FindIndex(Clips(secs[k]), segId).None? ==> r[k] == secs[k]
    // the matching sections' segments go through the list edit, in fractions of the section's span
    ensures forall k :: 0 <= k < |secs| && secs[k].id == secId ==>
              Clips(r[k]) == Update(Clips(secs[k]), segId, SegmentChange(e, SectionSeconds(secs[k], totalDuration)), preventOverlap)
  {
    seq(|secs|, k requires 0 <= k < |secs| =>
      if secs[k].id == secId
      then WithClips(secs[k], Update(Clips(secs[k]), segId, SegmentChange(e, SectionSeconds(secs[k], totalDuration)), preventOverlap))
      else secs[k])
  }
}
