# Timeline calculator: interval model in Dafny

A model of the timing core of the timeline calculator, a single-page editor
that splits a total duration into an ordered list of **sections**, each
holding an ordered list of **segments** ("clips" in the code). Every interval
is a `{start, end}` pair of fractions of its parent's span: sections of the
whole duration, segments of their own section. All of the logic lives in
`src/App.jsx`. The model covers:

- `reorderAndRecalculate`, the move-up/move-down algorithm. It swaps an item
  with its neighbour and re-lays out the whole list. Each item keeps its own
  width, floored at 0.001. Each slot keeps the gap it had in the old order.
  (modules `Intervals`, `Reordering`)
- the boundary edit behind `updateSequence` and `updateClip`. It converts
  seconds to a fraction and clamps against neighbours when overlap prevention
  is on. An edit that would leave no width falls back to 0.01 short of the
  item's other bound as clipped by the neighbour and by [0,1]. With overlap
  prevention off it only clamps into [0,1]. It is modelled once, generically over a list of
  intervals. (module `Edits`)
- the store operations on the two-level structure: add, remove, collapse,
  move, edit, for sections and for one section's segments, plus the section
  span in seconds `max(0, (end - start) * totalDuration)`. (modules
  `Timeline`, `TimelineProperties`, `Numerals` for the default names)
- the slider of `TimelineSlider`: pointer fraction, pointer down/move/up as a
  state machine `Idle | Dragging(Start|End)`. (module `Slider`)

Positions are Dafny `real`s. A section is `Item<SectionBody>` and a segment is
`Item<NoExtra>`, so one generic `Item<X>` carries id, name and timing for
both. The string field names of the edit calls (`'start'`, `'endSec'`,
`'name'`, …) become the `Edit` variants `SetStart`, `SetEnd`, `SetStartSec`,
`SetEndSec` and `SetName`. The clock- and random-based ids of new items are
parameters (`newId`). The overlap-prevention switch, the total duration and
the labels are parameters of the operations that read them. A slider
emission `(side, v)` is what the app forwards as the edit `SetStart(v)` or
`SetEnd(v)` of the same item.

Behaviour of the code worth noting:
- Section seconds edits divide by the total duration without a guard, so the
  model requires a non-zero duration for them (`Timeline.SectionChange`,
  `Timeline.UpdateSection`). Only segment edits map an empty span to 0.
- With overlap prevention on, the code does not keep `0 <= start <= end <= 1`
  and neighbour order in every case. A reorder of an overlapping list can end
  past 1 (`Reordering.MoveCanLeaveUnit`). The start fallback can reach under
  the predecessor's end (`Edits.StartFallbackUndercutsPredecessor`). With
  overlap prevention off, an item can be inverted
  (`Edits.UnpreventedEditCanInvert`). The invariants are proved under the
  conditions that make them hold: `Valid`, `Tidy` and `Room`.
- The start fallback uses the item's end after it was clipped to the
  successor's start and to 1, not the stored end. `Edits.StartCeiling` is that
  value.

## Model

| member | source | states |
|---|---|---|
| Reordering.Reorder | src/App.jsx:21-55 | A request that moves nothing (the first item up, the last item down, an index past the end going down) returns the list unchanged. Otherwise each slot holds the item the swap put there, with id, name and nested data unchanged. Each item keeps its own width, floored at 0.001. Each slot keeps the gap `max(0, start_k - end_(k-1))` it had in the old order. |
| Reordering.Swapped | src/App.jsx:24-31 | The item at `index` and its neighbour trade places; all other slots are unchanged. |
| Reordering.Duration | src/App.jsx:44 | The width an item keeps is at least 0.001 and at least its own width. It is exactly 0.001 or exactly its own width, and its own width when that is 0.001 or more. |
| Reordering.Gap | src/App.jsx:35-38 | The gap before a slot is never negative. It is exactly 0 or exactly `start - previous end`, and the latter when the item does not overlap its predecessor. |
| Reordering.Layout | src/App.jsx:40-54 | Laying items out from a cursor: the first starts at cursor plus its gap, each next one starts its gap after the previous end, each is as wide as its floored width, and nothing but timing changes. |
| Reordering.ReorderIsAscending | src/App.jsx:35-54 | Whatever the input, a moved list starts at or after 0, is in ascending non-overlapping order, and every item has positive width. |
| Reordering.ReorderKeepsLastEnd | src/App.jsx:33-54 | On a tidy list (inside [0,1], in order, no item narrower than 0.001) a move ends exactly where the list ended before: gaps and widths are only permuted. |
| Reordering.ReorderKeepsUnit | src/App.jsx:21-55 | A move keeps every item of a tidy list inside [0,1]. |
| Reordering.MoveUpExample | src/App.jsx:21-55 | `[{0,.25},{.25,.8}]` with index 1 moved up becomes `[{0,.55},{.55,.8}]`. |
| Reordering.MoveCanLeaveUnit | src/App.jsx:35-51 | The overlapping list `[{0,.9},{.1,1}]` with index 1 moved up ends at 1.8, past the unit interval. |
| Edits.StoredStart | src/App.jsx:253-277 | Overlap prevention off: the start is the requested value clamped into [0,1]. On: a request inside the window [predecessor end, min(own end, successor start, 1)) is kept, a request below it is raised to the predecessor's end, and a request at or past the ceiling (or a closed window) falls back to 0.01 below the ceiling, not below 0. On a list inside [0,1], the start stays between 0 and the item's end. |
| Edits.StoredEnd | src/App.jsx:253-278 | Overlap prevention off: the end is the requested value clamped into [0,1]. On: a request inside the window (max(own start, predecessor end, 0), min(successor start, 1)] is kept, a request above it is lowered to the successor's start, and a request at or below the floor falls back to 0.01 above the floor, not above 1. On a list inside [0,1], the end stays between the item's start and 1. |
| Edits.Bounded | src/App.jsx:253-282 | A start edit writes only `start`, and writes the value `Edits.StoredStart` gives; an end edit writes only `end`, the value `Edits.StoredEnd` gives. With overlap prevention on a list inside [0,1] the edited item stays inside [0,1] and is not inverted. |
| Edits.Update | src/App.jsx:241-285 | An unknown id leaves the list unchanged. Otherwise only the first item with that id changes, a rename changes only the name, and no id changes. |
| Edits.UpdateIdempotent | src/App.jsx:241-285 | Applying the same edit twice gives the same list as applying it once. |
| Edits.UpdateKeepsUnit | src/App.jsx:258-275 | With overlap prevention, any edit keeps every item of a list inside [0,1]. |
| Edits.UpdateKeepsChained | src/App.jsx:258-269 | With overlap prevention, a bound edit keeps an ordered list ordered when the edited item leaves 0.01 of room for the fallback. |
| Edits.StartFallbackUndercutsPredecessor | src/App.jsx:262-268 | In `[{0,.5},{.5,.5}]`, asking item 1 to start at .3 stores .49, below the predecessor's end. |
| Edits.UnpreventedEditCanInvert | src/App.jsx:270-275 | Without overlap prevention, `{.2,.4}` asked to start at .9 becomes `{.9,.4}`. |
| Edits.EndClampedToSuccessor | src/App.jsx:262-269 | In `[{0,.5},{.5,1}]`, asking item 0 to end at .9 stores .5, the successor's start. |
| Intervals.FindIndex | src/App.jsx:243-244 | Returns no index exactly when no item has the id; otherwise the first item that has it. |
| Intervals.RemoveById | src/App.jsx:228-230 | No remaining item has the id, every other item remains, unchanged; an absent id changes nothing. |
| Intervals.RemoveByIdSingle | src/App.jsx:229 | A one-item list keeps its item exactly when the item does not carry the id. |
| Intervals.RemoveByIdConcat | src/App.jsx:229 | Removal distributes over concatenation. Together with the one-item case this fixes the survivors' order and count as `filter` keeps them. |
| Intervals.RemoveKeepsOrder | src/App.jsx:228-230 | Removing items keeps an ordered list ordered and inside [0,1]. |
| Timeline.SectionSeconds | src/App.jsx:339 | A section's span in seconds is never negative. It is `(end - start) * total` whenever that product is not negative, and 0 otherwise, for any sign of the total (the duration input accepts negative numbers). |
| Timeline.SectionChange | src/App.jsx:249-256 | Start edits and start-seconds edits target the start, end edits target the end, names rename. A fractional value passes through. A seconds value, once converted, times the total duration gives back the seconds. |
| Timeline.SegmentChange | src/App.jsx:346-353 | The same dispatch for segments. A seconds value times the section's span gives back the seconds. An empty span turns it into 0. |
| Timeline.AddSection | src/App.jsx:205-226 | Appends exactly one section and keeps the others. The new section starts at the last section's end (0 for an empty list) and ends at `min(1, start + 0.1)`, whatever the overlap switch. It is expanded, has no segments and is named after the next count. |
| Timeline.RemoveSection | src/App.jsx:228-230 | The result is the generic removal `Intervals.RemoveById` of the section list. So it drops exactly the sections with that id, every other section remains unchanged and in order (`Intervals.RemoveByIdConcat`), and an absent id changes nothing. |
| Timeline.ToggleCollapse | src/App.jsx:232-239 | Flips the collapse flag of the sections with that id, and changes nothing else. |
| Timeline.UpdateSection | src/App.jsx:241-285 | Changes at most the first section with that id. It never touches any section's segments or flag. An unknown id changes nothing. The result is the generic list edit of the section list with the edit converted by `Timeline.SectionChange`, so the clamp rules of `Edits.Update` apply. |
| Timeline.MoveSection | src/App.jsx:287-291 | A move changes nothing when the request is invalid; otherwise each section carries its own segments and flag to its new slot. The result is the list reorder `Reordering.Reorder` of the section list: re-laid out on the old slot gaps, with id and name travelling with each section. |
| Timeline.AddSegment | src/App.jsx:295-314 | Only the matching section's segment list changes, and no section's timing. It gains exactly one segment, starting at the last segment's end (0 if none) and ending at `min(1, start + 0.2)`, named after the next count. |
| Timeline.RemoveSegment | src/App.jsx:316-323 | Only the matching section's segment list changes, and it becomes the generic removal `Intervals.RemoveById` of itself. So it loses exactly the segments with that id, the survivors keep their order, and an absent segment id changes nothing. |
| Timeline.MoveSegment | src/App.jsx:325-334 | Only the matching section's segment list changes, and it goes through the list reorder. |
| Timeline.UpdateSegment | src/App.jsx:336-384 | Only the matching section's segment list changes, and no section's timing. The list goes through the list edit, with seconds relative to that section's span. A missing segment id changes nothing. |
| TimelineProperties.InitialSections | src/App.jsx:178-200 | The starting timeline is valid and in order at both levels. |
| TimelineProperties.AddSectionKeepsValid | src/App.jsx:205-226 | Adding a section keeps both levels inside [0,1] and keeps an ordered section list ordered. |
| TimelineProperties.FirstSection | src/App.jsx:207-221 | The first section of an empty timeline is `{0, 0.1}`. |
| TimelineProperties.RemoveSectionKeepsValid | src/App.jsx:228-230 | Removing sections keeps the store valid and an ordered section list ordered. |
| TimelineProperties.ToggleTwice | src/App.jsx:232-239 | Toggling the same section twice restores the timeline. |
| TimelineProperties.ToggleKeepsValid | src/App.jsx:232-239 | Toggling keeps the store valid. |
| TimelineProperties.UpdateSectionKeepsValid | src/App.jsx:258-275 | With overlap prevention, a section edit keeps the store valid. |
| TimelineProperties.UpdateSectionIdempotent | src/App.jsx:241-285 | Repeating a section edit changes nothing more. |
| TimelineProperties.SectionSecondsAreFractions | src/App.jsx:249-254 | A section start or end edit of `t` seconds equals the fractional edit of `t / totalDuration`. |
| TimelineProperties.MoveSectionKeepsValid | src/App.jsx:287-291 | Moving a section of a tidy list keeps the store valid. |
| TimelineProperties.AddSegmentKeepsValid | src/App.jsx:295-314 | Adding a segment keeps the store valid. |
| TimelineProperties.RemoveSegmentKeepsValid | src/App.jsx:316-323 | Removing a segment keeps the store valid. |
| TimelineProperties.UpdateSegmentKeepsValid | src/App.jsx:355-372 | With overlap prevention, a segment edit keeps the store valid. |
| TimelineProperties.UpdateSegmentIdempotent | src/App.jsx:336-384 | Repeating a segment edit changes nothing more, because it does not write the section span its seconds are measured against. |
| TimelineProperties.SectionSecondsWithinTotal | src/App.jsx:339 | For a non-negative total duration, a section inside [0,1] spans between 0 and the total in seconds. |
| TimelineProperties.SecondsRoundTrip | src/App.jsx:339-348 | For a section with a positive span, the unrounded seconds value of a segment bound (its fraction times the span) converts back to the same fraction through a seconds edit. |
| TimelineProperties.SegmentSecondsAreFractions | src/App.jsx:339-351 | A segment edit of `t` seconds equals the fractional edit of `t / span`, or of 0 when the section's span in seconds is 0. |
| TimelineProperties.MoveSegmentKeepsValid | src/App.jsx:325-334 | Moving a segment of a tidy segment list keeps the store valid. |
| TimelineProperties.SegmentSecondsExample | src/App.jsx:739-742 | With 60 s in all, the section `{.25,.8}` spans 33 s, and its segment `{0,.5}` runs from 0 s to 16.5 s. |
| Slider.Percentage | src/App.jsx:62-67 | The pointer fraction lies in [0,1]. It is 0 before the track is mounted or left of the track, 1 right of it, and otherwise the pointer's offset over the track width. |
| Slider.PointerDown | src/App.jsx:69-86 | After pressing a handle, whatever was held before, every pointer move emits an edit of that handle. |
| Slider.PointerUp | src/App.jsx:75-91 | After releasing, no pointer move emits anything. |
| Slider.PointerMove | src/App.jsx:75-86 | Idle emits nothing. Dragging the start emits `min(p, end - 0.01)`. Dragging the end emits `max(p, start + 0.01)`. Each follows the pointer until it comes within 0.01 of the other handle. |
| Slider.Gesture | src/App.jsx:69-91 | Press, move, release: the move emits an edit of the pressed handle, and a move after release emits nothing. |
| Slider.StartDragStaysInRange | src/App.jsx:62-86 | On a range whose end is in [0.01, 1], dragging the start emits a value in [0, end). |
| Numerals.ValueOfNatToString | src/App.jsx:219 | The count rendered into a default name reads back as the same number. |
| Numerals.DefaultName | src/App.jsx:306 | A default name is the label, one space, and the decimal count without leading zeros. |

## Left out

- Rendering, colour tables, the dark-mode effect and the settings panel: presentation only.
- `copyResults`: clipboard I/O through a DOM text area, and `toFixed(2)` text formatting.
- Pointer capture, `preventDefault` and `getBoundingClientRect`: browser APIs. The track is passed in as a left edge and a width.
- Id generation from `Date.now()` and `Math.random()`: the new id is a parameter.
- Rounding by `toFixed(3)`/`toFixed(4)` in the reorder, the edits, new items and the slider: values are `real`s, and rounding is taken as the identity.
- TimelineProperties.SecondsRoundTrip: the seconds fields display the value rounded to 3 decimals. When the section spans less than 10 s, typing the displayed value back can store a different fraction. For example, span 1 s and start .1234 display "0.123", which stores .123. The lemma speaks of the unrounded value.
- Timeline.AddSection: the code rounds the new start to 3 decimals, while edits and reorders store 4. A last end of 0.1234 gives a new start of 0.123, before the predecessor's end. The model starts the new section exactly at the last end.
- Timeline.AddSegment: the same 3-decimal rounding of the new segment's start is not modelled; the model starts it exactly at the last segment's end.
- TimelineProperties.AddSectionKeepsValid: its order clause holds because the rounding above is left out. With rounding, a last end off the 3-decimal grid would leave the list out of order.
- `parseFloat` of non-numeric text, which stores NaN: inputs are numbers.
- React state plumbing, the total-duration and label inputs: they are parameters of the operations.
- Reordering.Reorder: an "up" request with an index past the end of the list is excluded by a precondition. The code would swap a missing element into the list and then fail reading its timing.
- Timeline.SectionChange, Timeline.UpdateSection: a seconds edit needs a non-zero total duration. The code divides without a guard. For 0 s it gets NaN and stores NaN. For any other value it gets plus or minus infinity, which the clamps turn into a finite stored value: 0, 1, a neighbour's bound or the 0.01 fallback. The precondition drops both cases.
- Slider.Percentage: a mounted track must have a positive width. A zero width would give NaN.
- Timeline.MoveSection, Timeline.MoveSegment: for an invalid move the code returns its input array itself. Reference identity is not modelled, only equal values.
