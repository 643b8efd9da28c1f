/** The dual-handle range slider (`TimelineSlider`) as a state machine.

    The slider only produces edits: while a handle is held, every pointer
    move emits one edit of that handle's bound, pre-clamped so that the
    handle stays `HandleSpacing` away from the other one. The list rules of
    module `Edits` still apply to the emitted edit afterwards. */
module Slider {
  import opened Basics
  import opened Intervals

  /** Distance the slider keeps between the two handles. */
  const HandleSpacing: real := 0.01

  datatype DragState = Idle | Dragging(handle: Side)

  /** The track on screen: its left edge and its width, in pixels. */
  datatype Track = Track(left: real, width: real)

  /** One emitted change: which bound, and its new fraction. */
  datatype Emission = Emission(side: Side, value: real)

  /** `getPercentage`: the pointer's position as a fraction of the track,
      clamped to the track; 0 before the track is mounted. A zero-width track
      would divide 0 by 0, so a mounted track must have a width. */
  function Percentage(track: Option<Track>, clientX: real): (p: real)
    requires track.Some? ==> track.value.width > 0.0
    ensures 0.0 <= p <= 1.0
    ensures track.None? ==> p == 0.0
    ensures track.Some? && clientX <= track.value.left ==> p == 0.0
    ensures track.Some? && clientX >= track.value.left + track.value.width ==> p == 1.0
    ensures track.Some? && track.value.left <= clientX <= track.value.left + track.value.width ==>
              p * track.value.width == clientX - track.value.left
  {
    match track
    case None => 0.0
    case Some(t) =>
      var x := Max(0.0, Min(clientX - t.left, t.width));
      FractionOfWidth(x, t.width);
      x / t.width
  }

  lemma FractionOfWidth(x: real, w: real)
    requires w > 0.0 && 0.0 <= x <= w
    ensures 0.0 <= x / w <= 1.0
    ensures x == w ==> x / w == 1.0
  {
    var q := x / w;
    assert q * w == x;
    assert (1.0 - q) * w == w - x;
  }

  /** `handlePointerDown`: grabbing a handle makes it the active one. */
  function PointerDown(s: DragState, handle: Side): (s': DragState)
    // from then on every move emits an edit of the grabbed handle, whatever was held before
    ensures forall p, st, en :: PointerMove(s', p, st, en).Some? && PointerMove(s', p, st, en).value.side == handle
  {
    Dragging(handle)
  }

  /** `handlePointerUp`: letting go deactivates whichever handle was held. */
  function PointerUp(s: DragState): (s': DragState)
    // from then on no move emits anything
    ensures forall p, st, en :: PointerMove(s', p, st, en).None?
  {
    Idle
  }

  /** `handlePointerMove`: nothing while idle; otherwise an edit of the held
      handle, kept `HandleSpacing` short of the other handle. */
  function PointerMove(s: DragState, p: real, start: real, end: real): (out: Option<Emission>)
    ensures s.Idle? <==> out.None?
    ensures s.Dragging? ==> out.value.side == s.handle
    // the start handle never comes within HandleSpacing of the end, and follows the pointer until then
    ensures s == Dragging(Start) ==> out.value.value <= end - HandleSpacing
    ensures s == Dragging(Start) && p <= end - HandleSpacing ==> out.value.value == p
    ensures s == Dragging(Start) && p > end - HandleSpacing ==> out.value.value == end - HandleSpacing
    // the end handle never comes within HandleSpacing of the start, and follows the pointer until then
    ensures s == Dragging(End) ==> out.value.value >= start + HandleSpacing
    ensures s == Dragging(End) && p >= start + HandleSpacing ==> out.value.value == p
    ensures s == Dragging(End) && p < start + HandleSpacing ==> out.value.value == start + HandleSpacing
  {
    match s
    case Idle => None
    case Dragging(Start) => Some(Emission(Start, Min(p, end - HandleSpacing)))
    case Dragging(End) => Some(Emission(End, Max(p, start + HandleSpacing)))
  }

  /** A whole gesture: press a handle, move the pointer, release. The move
      emits an edit of the pressed handle, and the slider ends up idle, so a
      later move emits nothing. */
  lemma Gesture(s: DragState, handle: Side, p: real, q: real, start: real, end: real)
    ensures var held := PointerDown(s, handle);
      && PointerMove(held, p, start, end).Some?
      && PointerMove(held, p, start, end).value.side == handle
      && PointerMove(PointerUp(held), q, start, end).None?
  {
  }

  /** On a well-spaced range, a move of the start handle across the track
      emits a start in [0,1] that stays below the end. */
  lemma StartDragStaysInRange(track: Track, clientX: real, start: real, end: real)
    requires track.width > 0.0
    requires HandleSpacing <= end <= 1.0
    ensures var e := PointerMove(Dragging(Start), Percentage(Some(track), clientX), start, end).value;
      0.0 <= e.value < end
  {
  }
}
