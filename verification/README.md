# Smart clipboard: a Dafny model

This project models the core of a VS Code extension that keeps a history of
copied and cut text ("clips") and lets the user paste, filter and remove past
clips from a quick-pick menu.

- `text.dfy` (module `Text`): the string primitives the core relies on —
  JavaScript's `trim` with ECMAScript's exact whitespace set, the
  `/\n|\r/g` replacement by spaces, and ASCII upper/lower-casing with
  case-insensitive comparison.
- `clip.dfy` (module `Clips`): a `Clip` (text, file name, language, plus an
  `id` standing in for object identity) and the three strings the menu shows
  for it: the one-line label cut to 70 characters with `...` appended when the
  raw text is longer than 70, the upper-cased language, and the file name.
- `history.dfy` (module `ClipHistory`): the `Clipboard` class as a sequence of
  clips, oldest first — append, removal of the first occurrence by identity,
  clear. The `Clip` constructor stores its three arguments unchanged, which
  the datatype constructor does by definition.
- `palette.dfy` (module `Palette`): the `CodePalette` controller as functions
  from the history and the user's input to the new history and an editor
  effect (`Paste(text)`, `NoEditorWarning`, `NoEffect`): mode filtering
  (All / File / Language), the menu with its trailing "Clear Clipboard"
  entry, what a menu answer does in the browse and remove commands, pasting
  by slot, and capturing every selection of the active editor.

The quick-pick menu is asynchronous: the menu is built from the history when
it opens, and the answer is applied to whatever the history is when the user
picks. `OpenBrowse`/`FinishBrowse` and `OpenRemove`/`FinishRemove` keep these
two moments apart (so a stale pick of an already-removed clip removes
nothing); `ShowClipboard` and `RemoveClip` are the case where nothing runs
in between.

Identity: the source removes a clip with `indexOf`, which compares object
references. Here every capture gets a fresh `id` from the controller state
(`State.nextId`), and `Valid` states that ids are unique and below `nextId`;
under it, equality of `Clip` values is identity of captures, and every
controller step keeps `Valid`.

Three behaviours of the code that a reader might not expect, modelled as
written:

- Paste slots: the commands `clipboard.paste-1` to `clipboard.paste-5` pass
  their number straight to `pasteClip` as a zero-based array index
  (src/extension.ts:43-49, 173-178). So slot 1 pastes the second clip, the
  oldest clip is never reachable by a slot, and with a single clip in the
  history every slot does nothing (`SlotNPastesPositionN`).
- The ellipsis is decided by the raw text length, before line breaks are
  flattened and whitespace trimmed, so a 71-character text that trims down to
  one letter still gets `...` (`EllipsisWithoutTruncation`).
- The clear entry is told apart by `instanceof Clip` before its description is
  compared, so the model's structural tag (`ClipItem`/`ClearItem`) is what the
  code does. No clip could be mistaken for it anyway: a clip's description is
  upper-cased and "Clear Clipboard" is not (`ClipRowIsNeverClearRow`).

## Model

| member | source | states |
|---|---|---|
| Text.FlattenLines | src/Clipboard.ts:12 | the result has the text's length, each `\n` and each `\r` becomes one space and every other character stays, so no line break is left |
| Text.Trim | src/Clipboard.ts:13 | the result is a contiguous piece of the input with only whitespace before and after it and no whitespace at either end; it keeps a line-break-free input line-break-free |
| Text.TrimIsUnique | src/Clipboard.ts:13 | that characterisation of trimming admits exactly one string per input, so it fully specifies `trim` |
| Text.SameIgnoringCaseIsPointwise | src/extension.ts:115-116 | comparing lower-cased copies holds iff both strings have the same length and agree position by position up to case |
| Text.UpperIsSameIgnoringCase | src/Clipboard.ts:21 | an upper-cased string equals the original when case is ignored |
| Clips.Preview | src/Clipboard.ts:11-14 | the label before its ellipsis is the first min(70, n) characters of the flattened, trimmed text of length n, and has no line break |
| Clips.Label | src/Clipboard.ts:10-18 | the label has no `\n` or `\r`, is at most 73 long, starts with the preview, is exactly three longer than the preview iff the raw text is longer than 70 (and then ends in `...`), and is the whole flattened, trimmed text when the raw text has at most 70 characters |
| Clips.EllipsisWithoutTruncation | src/Clipboard.ts:16 | a letter followed by 70 spaces is labelled with that letter and `...`: the ellipsis follows the raw length even when nothing is cut |
| Clips.Detail | src/Clipboard.ts:24-26 | the detail line is the clip's file name, verbatim |
| Clips.Description | src/Clipboard.ts:20-22 | the language tag has the language's length, no lower-case letter, and equals the language ignoring case |
| ClipHistory.AddClip | src/Clipboard.ts:39-41 | the history grows by one, the new clip is last and all earlier entries are unchanged |
| ClipHistory.IndexOf | src/Clipboard.ts:44 | -1 exactly when the clip is absent, otherwise a position holding the clip with no earlier occurrence |
| ClipHistory.RemoveClip | src/Clipboard.ts:43-48 | an absent clip leaves the history unchanged; a present one shortens it by one; the multiset of clips loses exactly one copy of the clip |
| ClipHistory.RemoveClipIsRemoveFirst | src/Clipboard.ts:43-48 | removal equals the reference "drop the first occurrence walking from the oldest clip" |
| ClipHistory.RemoveClipKeepsOrder | src/Clipboard.ts:46 | the clips left after removal are a subsequence of the history, in their old relative order |
| ClipHistory.RemoveClipDropsExactlyThatClip | src/Clipboard.ts:43-48 | with unique ids, the removed clip is gone, every other clip (also one with equal text, file and language) stays, and ids stay unique |
| ClipHistory.RemoveUndoesAdd | src/Clipboard.ts:39-48 | adding a clip that was not in the history and then removing it gives back the history |
| ClipHistory.Clear | src/Clipboard.ts:54-56 | the history afterwards is empty |
| ClipHistory.ClearIsIdempotent | src/Clipboard.ts:54-56 | clearing twice is clearing once |
| Palette.Select | src/extension.ts:112-125 | the filter keeps a subsequence of the history holding each offered clip exactly as often as the history does and no other clip |
| Palette.FilterClips | src/extension.ts:105-127 | mode All offers the whole history in order; File and Language offer exactly the clips whose file name, or language, equals the document's ignoring case, in history order |
| Palette.FilterIsDetermined | src/extension.ts:111-126 | any subsequence of the history with those multiplicities is the filter's result, so the filter contract is complete |
| Palette.Menu | src/extension.ts:194-207 | the menu lists the given clips in order, then one clear entry, last, occurring exactly once; it is a new list, so the history never holds the clear entry |
| Palette.Present | src/Clipboard.ts:10-26 | a clip's row is its label, a description of the language's length with no lower-case letter that equals the language ignoring case (that is, the upper-cased language), and its file name as detail; the clear row has an empty label, "Clear Clipboard" and no detail |
| Palette.ClipRowIsNeverClearRow | src/extension.ts:213-218 | no clip's row carries the clear entry's description |
| Palette.ResolveMenu | src/extension.ts:209-225 | a clip is handed back iff a clip entry was picked, and it is that entry's clip; the history is untouched except that picking the clear entry empties it |
| Palette.OpenBrowse | src/extension.ts:105-129 | the browse menu lists the filtered clips in their order, one entry each, followed by the clear entry as the last entry |
| Palette.FinishBrowse | src/extension.ts:129-134 | dismissing changes nothing; a picked clip is pasted and the current history kept; the clear entry empties the current history without pasting |
| Palette.ShowClipboard | src/extension.ts:100-135 | dismissing changes nothing; picking the k-th offered clip pastes its text, the clip being in the history and offered by the mode, and keeps the history; picking the clear entry empties the whole history, clips hidden by the filter included |
| Palette.OpenRemove | src/extension.ts:163 | the remove menu lists every clip of the unfiltered history in order, one entry each, followed by the clear entry as the last entry |
| Palette.FinishRemove | src/extension.ts:163-167 | nothing is ever pasted; dismissing changes nothing; a picked clip is removed from the current history; the clear entry empties it |
| Palette.RemoveClip | src/extension.ts:162-168 | nothing is pasted; dismissing keeps the history; picking the k-th clip shortens the history by one, takes one copy of that clip out of the multiset and keeps the rest in order; picking the clear entry empties it |
| Palette.RemoveClipTakesOutPickedCapture | src/extension.ts:162-168 | from a valid state, removing through the menu drops exactly the picked capture and the state stays valid |
| Palette.StaleRemovalIsHarmless | src/extension.ts:163-167 | a pick of a clip that was removed while the menu was open leaves the history unchanged |
| Palette.MenusKeepValid | src/extension.ts:129-167 | finishing the browse or the remove menu keeps ids unique and below the next id |
| Palette.PasteClip | src/extension.ts:173-178 | a paste happens iff the index is a position of the history, and pastes that clip's text; otherwise nothing happens |
| Palette.SlotNPastesPositionN | src/extension.ts:43-49 | paste slot N (1 to 5) pastes the clip at raw position N when there is one, and does nothing with a single clip |
| Palette.AddClip | src/extension.ts:141-157 | without an editor: a warning and no change; otherwise one new clip per selection is appended in selection order, each with the selection's text, the document's file name and language and a fresh id, earlier clips unchanged; a valid state stays valid |
| Palette.TwoFileScenario | src/extension.ts:108-126 | with a TypeScript clip from `a.ts` and a Python clip from `b.py`, the TypeScript language menu offers only the first and the `b.py` file menu only the second |

## Left out

- Command registration and the native copy, cut and paste actions run after capturing or pasting (src/extension.ts:20-88): host calls with no logic of the core.
- The document edit behind `Paste(text)` (src/extension.ts:180-192): a two-step delete-then-insert edit by the host, modelled as the effect value only; a rejected edit step is not modelled.
- `window.showQuickPick`: the options object (match on description, placeholder) is built (src/extension.ts:195-198) but never handed to `showQuickPick`, which is called with the items alone (src/extension.ts:210), so it has no effect and is not modelled. The user's answer is a parameter (`Pick`), either dismissed or an index into the listed entries, which the host guarantees.
- Interleaving of other commands while a menu is open is modelled only by applying the answer to a history given separately from the one the menu was built from; no scheduler is modelled.
- Status-bar and warning texts, including "Clipboard cleared!" shown when a clip is picked: UI only; the warning is the `NoEditorWarning` effect.
- Clips.Description: upper-cases ASCII letters only; JavaScript's `toUpperCase` maps all of Unicode.
- Palette.FilterClips: compares file names and languages with ASCII lower-casing only, while `toLocaleLowerCase` follows Unicode and the host's locale.
- Clips.Label: lengths count Unicode scalar values, while `substr(0, 70)` and `text.length` count UTF-16 code units; the two agree on text without characters outside the Basic Multilingual Plane.
- Selection ranges and `doc.getText`: each selection is given as the text it covers.
- `getClips` returns the live array; histories here are values, so aliasing between the menu list and the history does not arise (the source avoids it by copying with `slice`).
- `Clipboard.dispose`: empty.
