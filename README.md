# Caption editor session, modelled in Dafny

The repository is a single React component (`App`) for uploading a video, generating
placeholder captions and editing them. This project models its authored logic:

- `Captions.dfy` (module `Captions`): the `Caption` record, `Partial<Caption>` as a
  record of optional fields (`CaptionPatch`), the spread merge `{ ...cap, ...updates }`
  (`Merge`), `updateCaption` as a pure function on the caption list built from an
  indexed `map` (`MapIndexed`), and the optional-chaining reads of the selected
  caption, including the font-size fallback to 24.
- `Editor.dfy` (module `Editor`): the session state (`videoFile`, `videoUrl`,
  `isProcessing`, `captions`, `selectedCaption` and a log of toasts) as a class whose
  methods are the callbacks `onDrop`, `processVideo`, `updateCaption` and the row
  click that sets the selection. The session invariant `Valid` says a stored file is
  always a video, and that before one is stored there is no URL, no caption and no
  generation in flight.
  Two client methods walk through the mp4 and PDF drops and the rename of the
  generated caption, using only the contracts.
- `Wrappers.dfy`: the `Option` type.

The session has two screens, the drop area and the editor. Only `OnDrop` writes
`videoFile`, and only with a file, so once the editor is shown it stays shown.

Three behaviours of the code worth spelling out:
- An out-of-range index makes `updateCaption` a no-op: `map` finds no matching index.
  It is not undefined behaviour.
- A failed generation keeps the caption list that was there before. It does not
  empty the list.
- No font-size clamp exists in the authored code. `updateCaption` stores any size.

## Model

| member | source | states |
|---|---|---|
| `Captions.Merge` | src/App.tsx:109 | every key present in the partial caption takes its new value; every absent key keeps the old caption's value |
| `Captions.MergeUnique` | src/App.tsx:109 | those two properties determine the merged caption: any caption that has them equals the merge |
| `Captions.MergeNoChanges` | src/App.tsx:109 | spreading `{}` over a caption gives the caption unchanged |
| `Captions.MergeIdempotent` | src/App.tsx:109 | merging the same partial caption twice equals merging it once |
| `Captions.MergeCombine` | src/App.tsx:107-111 | two successive merges equal one merge of the combined partial caption, with the later values winning |
| `Captions.SingleFieldEdits` | src/App.tsx:188-273 | each one-key edit sent by the text, time, group, color, size and font controls changes exactly that field of the caption |
| `Captions.MapIndexed` | src/App.tsx:108 | an indexed map keeps the length and puts the callback's value for element i and index i at position i |
| `Captions.UpdateCaption` | src/App.tsx:107-111 | same length; the caption at an in-range index becomes the merge; every other index is unchanged; an out-of-range index (negative or past the end) returns the list unchanged |
| `Captions.UpdateIdempotent` | src/App.tsx:108-110 | applying the same update twice gives the same list as applying it once |
| `Captions.UpdateCombine` | src/App.tsx:107-111 | two updates of one index equal a single update with the combined partial caption |
| `Captions.UpdateCommute` | src/App.tsx:108-110 | updates of two different indices give the same list in either order |
| `Captions.SelectedCaption` | src/App.tsx:209-270 | reading `captions[selectedCaption]?.` yields a caption exactly when the selection is in range, and then it is the caption at that index |
| `Captions.ReadAfterUpdate` | src/App.tsx:209-273 | after an update, reading the updated index yields the merged caption, and reading any other selection yields what it did before |
| `Captions.ShownFontSize` | src/App.tsx:257 | the slider shows the selected caption's size when it exists and is non-zero, and 24 otherwise; it never shows 0 |
| `Editor.Session.CurrentScreen` | src/App.tsx:116 | the editor is shown exactly when a video is stored; `OnDrop` keeps it shown once it is |
| `Editor.Session.constructor` | src/App.tsx:35-39 | the session starts with no video, an empty URL, no processing, no captions, selection 0 and no toasts, on the drop area |
| `Editor.Session.ProcessVideo` | src/App.tsx:72-105 | afterwards processing is off; on success the list is exactly the one generated caption and a success toast is logged; on failure the list is kept and one destructive toast is logged |
| `Editor.Session.OnDrop` | src/App.tsx:49-62 | a first file with a `video/` type is stored with its URL, the list becomes the generated caption, one success toast is logged and processing is off; an empty drop or any other type logs one destructive toast and changes nothing else; a stored video is never cleared; the invariant is kept |
| `Editor.Session.UpdateCaption` | src/App.tsx:107-111 | the caption list becomes the pure update of the old list, and the session invariant is kept |
| `Editor.Session.SelectCaption` | src/App.tsx:186 | the selection becomes the clicked row's index, and the session invariant is kept |

## Left out

- The JSX rendering, the tabs, scroll area, cards and buttons, the video `Player` and the dropzone configuration (src/App.tsx:64-70, 113-305). These are widget plumbing over libraries not part of this model. Only the choice between the two screens is kept, as `CurrentScreen`.
- The slider's range [12, 72] and the five-font list of the font selector (src/App.tsx:41-47, 256-283). Widgets enforce these, not authored code. `UpdateCaption` accepts any size and any font name.
- `parseFloat` and NaN in the time inputs (src/App.tsx:211, 224). Times are `real` and the inputs arrive already parsed. NaN is also not modelled as a falsy font size in `ShownFontSize`.
- A key that is present in a partial caption but holds `undefined` is not modelled. In JavaScript the spread would copy the `undefined`. Here a key is either absent or carries a value.
- `URL.createObjectURL` is a browser call. `OnDrop` receives its result as the parameter `objectUrl`. The URL of an earlier video is never revoked, but only one drop can happen, because the drop area is gone once a video is stored.
- The two-second `setTimeout` and the asynchronous scheduling (src/App.tsx:76). Generation is one atomic step, so the interval in which `isProcessing` is true is never observed. A second drop racing the first is not modelled either.
- The `catch` branch (src/App.tsx:96-101) cannot be reached with the stub. `ProcessVideo` models it through the flag `generationThrows`, and `OnDrop` passes `false`.
- Rendering of toasts. They are kept only as an appended log of title, description and variant.
