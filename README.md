# Color picker palette — a Dafny model

This project models the state of the color picker and palette generator, a
single React component (`App`). That state has three slots:

- `colors`: an ordered list of `{id, color}` entries. The component mounts
  with one entry, id `"1"` and color `#3b82f6`. "Add Color" appends an entry.
  A card's remove button filters the list by id, but only while more than one
  entry is left. A card's color input recolors the entries with that id.
- `copiedId`: the id of the card whose copy button shows "Copied!".
- `copiedAll`: whether the copy-all buttons show "Copied".

A successful clipboard write sets one of the two markers. A 2000 ms timer
later resets that marker.

Layout:

- `palette.dfy`, module `Palette`: the list transforms, as functions over
  `seq<ColorData>`. The lemmas state what each transform keeps and changes.
- `copy_text.dfy`, module `CopyText`: the copy-all text (the stored colors
  joined by `", "`) and the displayed summary (the same join over upper-cased
  colors). It also proves that a split function recovers the colors from
  the copy-all text.
- `app.dfy`, module `App`: the component as a class `ColorPicker` with the
  three slots as fields. Each handler is a method whose postcondition gives
  the new value of every slot in terms of the `Palette` and `CopyText`
  functions. Two scenario methods show how the markers behave.

Where the code does something other than one might expect, the model follows the code:

- One might expect the copy-all text to be upper-cased, as the page shows it. The code
  copies the stored colors as they are (`src/App.tsx:49`). Only the on-screen
  texts are upper-cased (`src/App.tsx:181`, `215`, `223`).
  `CopyText.CopyAllKeepsCase` shows the difference on the initial palette.
- One might expect a stale timer to leave a newer marker alone.
  In the code, both expiry callbacks reset their slot unconditionally
  (`src/App.tsx:38`, `41`). `App.StaleExpiryClearsNewerMarker` shows the
  newer marker being cleared.
- One might expect ids to be unique. The code takes them from
  `Date.now()` (`src/App.tsx:17`), and two adds within one millisecond get the
  same id. `remove` drops every entry that has the id, so the palette is
  guaranteed to stay non-empty only when ids are distinct
  (`Palette.RemoveDistinct`). `Palette.DuplicateIdsCanEmpty` shows a palette
  that duplicate ids let one remove empty.
- `if (id)` (`src/App.tsx:36`) treats an empty-string id like a missing one.
  So a per-card copy of an entry whose id is `""` sets `copiedAll`
  (`App.EmptyIdMarksCopiedAll`).

## Model

| member | source | states |
|---|---|---|
| `Palette.Add` | src/App.tsx:16-19 | length grows by one; the ids are the old ids followed by `newId`; the new last entry has the default color `#3b82f6`; every earlier entry is unchanged in place; distinct ids stay distinct when `newId` is fresh |
| `Palette.Without` | src/App.tsx:23 | the filter keeps no entry with the removed id, only entries of the input, and never grows the list |
| `Palette.Remove` | src/App.tsx:21-25 | a palette of at most one entry is returned unchanged, even when the id matches; the result is never longer |
| `Palette.Update` | src/App.tsx:27-31 | same length; at every position the id is kept; the color becomes `c` where the id matches and is kept elsewhere |
| `Palette.WithoutIsSubsequence` | src/App.tsx:23 | the filtered list is a subsequence of the palette, so the relative order is preserved |
| `Palette.WithoutMultiplicity` | src/App.tsx:23 | every entry whose id differs survives as many times as it occurred; no entry with the id survives |
| `Palette.WithoutLength` | src/App.tsx:23 | the filter drops exactly as many entries as carry the id |
| `Palette.WithoutAbsent` | src/App.tsx:23 | filtering by an id that is not present returns the list unchanged |
| `Palette.WithoutKeepsDistinct` | src/App.tsx:23 | filtering keeps pairwise-distinct ids distinct |
| `Palette.RemoveAbsent` | src/App.tsx:21-25 | removing an id that is not present leaves the palette unchanged |
| `Palette.RemoveKeepsTheOthersInOrder` | src/App.tsx:21-25 | with more than one entry, remove yields exactly the entries whose id differs, with the same multiplicities and in the original relative order |
| `Palette.RemoveDistinct` | src/App.tsx:21-25 | with pairwise-distinct ids, remove deletes at most one entry, never empties a non-empty palette, and deletes exactly one when the id is present and more than one entry exists |
| `Palette.RemoveKeepsDistinct` | src/App.tsx:21-25 | remove keeps pairwise-distinct ids distinct |
| `Palette.DuplicateIdsCanEmpty` | src/App.tsx:17-23 | two entries that share a clock-derived id are both removed by one remove, leaving an empty palette |
| `Palette.RemoveUndoesAdd` | src/App.tsx:16-25 | removing an entry just added under a fresh id restores the palette |
| `Palette.UpdateKeepsIds` | src/App.tsx:27-31 | update keeps the ids and their order, so distinct ids stay distinct |
| `Palette.UpdateAbsent` | src/App.tsx:27-31 | updating an id that is not present leaves the palette unchanged |
| `Palette.UpdateLastWins` | src/App.tsx:27-31 | two updates of the same id equal the second one alone |
| `Palette.UpdateCommutes` | src/App.tsx:27-31 | updates of two different ids can be applied in either order |
| `CopyText.Join` | src/App.tsx:49 | `Array.prototype.join`: the text starts with the first part, and its length is the parts' total length plus one separator between each two neighbours |
| `CopyText.CopyAllText` | src/App.tsx:49 | defined as the `", "`-join of the stored colors; it starts with the first stored color, and for a hex palette its length is `9 * n - 2`; `CopyAllRoundTrip`, `CopyAllAfterAdd` and `DisplayIsUpperOfCopyAll` characterise it further |
| `CopyText.HexTotalLength` | src/App.tsx:49 | the colors of a palette of `#RRGGBB` colors have seven characters each |
| `CopyText.DisplaySummary` | src/App.tsx:223 | defined as the `", "`-join of the upper-cased colors; it is as long as the copy-all text and holds no ASCII lower-case letter; `DisplayIsUpperOfCopyAll` shows it is the copy-all text upper-cased |
| `CopyText.Colors` | src/App.tsx:49 | the stored colors, one per entry, in palette order |
| `CopyText.JoinSnoc` | src/App.tsx:49 | joining one more part appends the separator and that part |
| `CopyText.UpperChar` | src/App.tsx:223 | the result is never an ASCII lower-case letter; other characters are kept; lower-case letters move to their upper-case code |
| `CopyText.Upper` | src/App.tsx:223 | same length, upper-cased character by character |
| `CopyText.UpperAll` | src/App.tsx:223 | each color upper-cased, in order |
| `CopyText.UpperJoin` | src/App.tsx:223 | upper-casing a join equals joining the upper-cased parts, for a separator without lower-case letters |
| `CopyText.DisplayIsUpperOfCopyAll` | src/App.tsx:223 | the displayed summary is the copy-all text of line 49 upper-cased |
| `CopyText.CopyAllKeepsCase` | src/App.tsx:49 | for the initial palette the copied text is `#3b82f6` and the displayed one is `#3B82F6`, so they differ |
| `CopyText.CopyAllAfterAdd` | src/App.tsx:48-50 | after an add, the copy-all text is the old text followed by `", "` and the default color |
| `CopyText.Split` | src/App.tsx:49 | splitting at `", "` always yields at least one part |
| `CopyText.SplitJoin` | src/App.tsx:49 | splitting the `", "`-join of comma-free parts gives back the parts |
| `CopyText.HexColorHasNoComma` | src/App.tsx:161-164 | a `#RRGGBB` value from the color input holds no comma |
| `CopyText.CopyAllRoundTrip` | src/App.tsx:49 | when every stored color is `#RRGGBB`, the copy-all text splits back into the stored colors in palette order |
| `Palette.TransformsKeepHex` | src/App.tsx:10-31 | the initial palette has only `#RRGGBB` colors, and add, remove and an update with a `#RRGGBB` color (all the color input at lines 161-164 emits) keep every stored color `#RRGGBB` |
| `App.Truthy` | src/App.tsx:36 | JavaScript truthiness of the optional id: a missing id and `""` are false, every non-empty id is true |
| `App.ColorPicker.constructor` | src/App.tsx:10-14 | one entry with id `"1"` and color `#3b82f6`; `copiedId` unset; `copiedAll` false; the palette invariant (non-empty, distinct ids, hex colors) holds |
| `App.ColorPicker.AddColorPicker` | src/App.tsx:16-19 | the palette becomes `Add(old, newId)`; the markers are unchanged; the invariant (non-empty, distinct ids) is kept when `newId` is fresh |
| `App.ColorPicker.RemoveColorPicker` | src/App.tsx:21-25 | the palette becomes `Remove(old, id)`; a one-entry palette is unchanged; the markers are unchanged; the invariant is kept |
| `App.ColorPicker.UpdateColor` | src/App.tsx:27-31 | the palette becomes `Update(old, id, c)` with the same ids; the markers are unchanged; the invariant is kept when the new color is `#RRGGBB`, as the color input guarantees |
| `App.ColorPicker.CopyToClipboard` | src/App.tsx:33-46 | on success the clipboard holds the text verbatim, and a truthy id sets `copiedId` while any other id sets `copiedAll`; on failure neither marker changes; the palette never changes |
| `App.ColorPicker.ExpireCopiedId` | src/App.tsx:38 | `copiedId` becomes unset whatever it held; nothing else changes |
| `App.ColorPicker.ExpireCopiedAll` | src/App.tsx:41 | `copiedAll` becomes false whatever it held; nothing else changes |
| `App.ColorPicker.CopyAllColors` | src/App.tsx:48-51 | on success the clipboard holds the join of the stored colors (case kept) and `copiedAll` is set; `copiedId` and the palette are unchanged; under the invariant, splitting the copied text gives back the stored colors |
| `App.ColorPicker.CopyEntry` | src/App.tsx:186-187 | on success the clipboard holds the entry's stored color verbatim, and the entry's id is marked, or `copiedAll` is set when that id is empty |
| `App.StaleExpiryClearsNewerMarker` | src/App.tsx:36-38 | after two successful per-card copies the marker holds the second id, and the first copy's timer then clears it |
| `App.EmptyIdMarksCopiedAll` | src/App.tsx:36-41 | a per-card copy whose id is `""` sets `copiedAll` and leaves `copiedId` unset |

## Left out

- Rendering (JSX, styling, icons, header, footer link, the "Copied!" labels and the count line, `src/App.tsx:53-257`) is not modelled. It is presentation only. The displayed summary join at line 223 is the one exception.
- `navigator.clipboard.writeText` and its `await` (`src/App.tsx:35`) are not modelled. The outcome of the write is the `writeSucceeded` argument.
- `setTimeout` and real time (`src/App.tsx:38`, `41`) are not modelled. A timer firing is a call to `ExpireCopiedId` or `ExpireCopiedAll`, and any interleaving of handlers and expiries is a sequence of method calls.
- `Date.now().toString()` (`src/App.tsx:17`) is not modelled. The new id is the `newId` argument. Freshness is not required of it, because the clock does not guarantee it.
- `console.error` on a failed write (`src/App.tsx:44`) is not modelled. It is logging only.
- `toUpperCase` is modelled on ASCII letters only. Unicode case mapping is not modelled.
- React's batching is not modelled. Each handler reads the `colors` of the render it was created in. The model applies every handler to the current state, as happens when events are handled one at a time.
