/** The caption list of the editor (src/App.tsx) and the edit it supports:
    `updateCaption(index, updates)` merges a partial caption over the caption at
    `index` and leaves every other entry alone. */
module Captions {
  import opened Wrappers

  /** Where a caption sits on the frame, in percent of its width and height. */
  datatype Position = Position(x: real, y: real)

  /** One subtitle entry. Times and sizes are JavaScript numbers, modelled as `real`. */
  datatype Caption = Caption(
    text: string,
    startTime: real,
    endTime: real,
    color: string,
    fontSize: real,
    position: Position,
    font: string,
    group: string)

  /** `Partial<Caption>`: each key is either absent (`None`) or carries a new value. */
  datatype CaptionPatch = CaptionPatch(
    text: Option<string>,
    startTime: Option<real>,
    endTime: Option<real>,
    color: Option<string>,
    fontSize: Option<real>,
    position: Option<Position>,
    font: Option<string>,
    group: Option<string>)

  /** The empty object `{}`, which names no key. */
  const NoChanges := CaptionPatch(None, None, None, None, None, None, None, None)

  /** Every key present in `u` has, in `c`, the value `u` gives it. */
  predicate Agrees(c: Caption, u: CaptionPatch) {
    && (u.text.Some? ==> c.text == u.text.value)
    && (u.startTime.Some? ==> c.startTime == u.startTime.value)
    && (u.endTime.Some? ==> c.endTime == u.endTime.value)
    && (u.color.Some? ==> c.color == u.color.value)
    && (u.fontSize.Some? ==> c.fontSize == u.fontSize.value)
    && (u.position.Some? ==> c.position == u.position.value)
    && (u.font.Some? ==> c.font == u.font.value)
    && (u.group.Some? ==> c.group == u.group.value)
  }

  /** Every key absent from `u` has the same value in `c` as in `cap`. */
  predicate KeepsAbsent(c: Caption, cap: Caption, u: CaptionPatch) {
    && (u.text.None? ==> c.text == cap.text)
    && (u.startTime.None? ==> c.startTime == cap.startTime)
    && (u.endTime.None? ==> c.endTime == cap.endTime)
    && (u.color.None? ==> c.color == cap.color)
    && (u.fontSize.None? ==> c.fontSize == cap.fontSize)
    && (u.position.None? ==> c.position == cap.position)
    && (u.font.None? ==> c.font == cap.font)
    && (u.group.None? ==> c.group == cap.group)
  }

  /** `{ ...cap, ...updates }`: a shallow spread, so a present `position` replaces
      the whole point. */
  function Merge(cap: Caption, u: CaptionPatch): (r: Caption)
    ensures Agrees(r, u)
    ensures KeepsAbsent(r, cap, u)
  {
    Caption(
      u.text.GetOr(cap.text),
      u.startTime.GetOr(cap.startTime),
      u.endTime.GetOr(cap.endTime),
      u.color.GetOr(cap.color),
      u.fontSize.GetOr(cap.fontSize),
      u.position.GetOr(cap.position),
      u.font.GetOr(cap.font),
      u.group.GetOr(cap.group))
  }

  /** The two properties of `Merge` determine its result: any caption that takes
      the present keys from `u` and the absent ones from `cap` is the merge. */
  lemma MergeUnique(cap: Caption, u: CaptionPatch, c: Caption)
    requires Agrees(c, u) && KeepsAbsent(c, cap, u)
    ensures c == Merge(cap, u)
  {
  }

  /** Spreading `{}` over a caption gives the caption back. */
  lemma MergeNoChanges(cap: Caption)
    ensures Merge(cap, NoChanges) == cap
  {
  }

  /** Spreading the same partial caption twice is the same as spreading it once. */
  lemma MergeIdempotent(cap: Caption, u: CaptionPatch)
    ensures Merge(Merge(cap, u), u) == Merge(cap, u)
  {
  }

  /** The partial caption that has the keys of both `u` and `v`, with `v`'s value
      where both name a key: `{ ...u, ...v }`. */
  function Combine(u: CaptionPatch, v: CaptionPatch): (w: CaptionPatch)
  {
    CaptionPatch(
      if v.text.Some? then v.text else u.text,
      if v.startTime.Some? then v.startTime else u.startTime,
      if v.endTime.Some? then v.endTime else u.endTime,
      if v.color.Some? then v.color else u.color,
      if v.fontSize.Some? then v.fontSize else u.fontSize,
      if v.position.Some? then v.position else u.position,
      if v.font.Some? then v.font else u.font,
      if v.group.Some? then v.group else u.group)
  }

  /** Two edits of one caption in a row amount to one edit with the later edit's
      values winning. */
  lemma MergeCombine(cap: Caption, u: CaptionPatch, v: CaptionPatch)
    ensures Merge(Merge(cap, u), v) == Merge(cap, Combine(u, v))
  {
  }

  /** Each form control of the editor sends a one-key partial caption; merging it
      changes that one field and nothing else. */
  lemma SingleFieldEdits(cap: Caption, s: string, t: real)
    ensures Merge(cap, NoChanges.(text := Some(s))) == cap.(text := s)
    ensures Merge(cap, NoChanges.(startTime := Some(t))) == cap.(startTime := t)
    ensures Merge(cap, NoChanges.(endTime := Some(t))) == cap.(endTime := t)
    ensures Merge(cap, NoChanges.(group := Some(s))) == cap.(group := s)
    ensures Merge(cap, NoChanges.(color := Some(s))) == cap.(color := s)
    ensures Merge(cap, NoChanges.(fontSize := Some(t))) == cap.(fontSize := t)
    ensures Merge(cap, NoChanges.(font := Some(s))) == cap.(font := s)
  {
  }

  /** `Array.prototype.map` with the index argument: the callback sees each element
      together with its position. */
  function MapIndexed<T, U>(s: seq<T>, f: (T, int) -> U): (r: seq<U>)
    ensures |r| == |s|
    ensures forall i :: 0 <= i < |s| ==> r[i] == f(s[i], i)
    decreases |s|
  {
    if s == [] then [] else MapIndexed(s[..|s| - 1], f) + [f(s[|s| - 1], |s| - 1)]
  }

  /** `prev.map((cap, i) => i === index ? { ...cap, ...updates } : cap)`. */
  function UpdateCaption(caps: seq<Caption>, index: int, u: CaptionPatch): (r: seq<Caption>)
    ensures |r| == |caps|
    ensures 0 <= index < |caps| ==> r[index] == Merge(caps[index], u)
    ensures forall j :: 0 <= j < |caps| && j != index ==> r[j] == caps[j]
    ensures !(0 <= index < |caps|) ==> r == caps
  {
    MapIndexed(caps, (cap, i) => if i == index then Merge(cap, u) else cap)
  }

  /** Applying the same update twice leaves the list as one application does. */
  lemma UpdateIdempotent(caps: seq<Caption>, index: int, u: CaptionPatch)
    ensures UpdateCaption(UpdateCaption(caps, index, u), index, u) == UpdateCaption(caps, index, u)
  {
  }

  /** Two updates of the same index compose into one. */
  lemma UpdateCombine(caps: seq<Caption>, index: int, u: CaptionPatch, v: CaptionPatch)
    ensures UpdateCaption(UpdateCaption(caps, index, u), index, v)
         == UpdateCaption(caps, index, Combine(u, v))
  {
  }

  /** Updates of two different indices do not interfere: their order does not matter. */
  lemma UpdateCommute(caps: seq<Caption>, i: int, u: CaptionPatch, j: int, v: CaptionPatch)
    requires i != j
    ensures UpdateCaption(UpdateCaption(caps, i, u), j, v)
         == UpdateCaption(UpdateCaption(caps, j, v), i, u)
  {
  }

  /** `captions[selectedCaption]`, read with optional chaining: nothing when the
      selection is outside the list. */
  function SelectedCaption(caps: seq<Caption>, selected: int): (r: Option<Caption>)
    ensures r.Some? <==> 0 <= selected < |caps|
    ensures r.Some? ==> r.value == caps[selected]
  {
    if 0 <= selected < |caps| then Some(caps[selected]) else None
  }

  /** After an update, the editor reads back the merged caption at the updated index
      and the old caption everywhere else. */
  lemma ReadAfterUpdate(caps: seq<Caption>, index: int, u: CaptionPatch, selected: int)
    ensures SelectedCaption(UpdateCaption(caps, index, u), selected)
         == if selected == index && 0 <= index < |caps| then Some(Merge(caps[index], u))
            else SelectedCaption(caps, selected)
  {
  }

  /** The value the font-size slider shows: `captions[selectedCaption]?.fontSize || 24`,
      so a missing caption or a size of 0 falls back to 24. */
  function ShownFontSize(caps: seq<Caption>, selected: int): (r: real)
    ensures r != 0.0
    ensures r == 24.0 || (0 <= selected < |caps| && r == caps[selected].fontSize)
    ensures 0 <= selected < |caps| && caps[selected].fontSize != 0.0 ==> r == caps[selected].fontSize
  {
    match SelectedCaption(caps, selected)
    case None => 24.0
    case Some(c) => if c.fontSize == 0.0 then 24.0 else c.fontSize
  }
}
