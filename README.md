# box_cut_paste, modelled in Dafny

`box_cut_paste` (frag.js) is a key handler for a text box used to feed
data rows. When Enter is pressed the text before the caret becomes a "line"
and the text from the caret on becomes the "rest". Each has the whitespace at
the ends of its lines removed. The line goes into the first empty input of the
data rows; the rest stays in the box, and the code then moves the caret to
the start. On hosts with `createTextRange` that last step throws (see
"## Findings"). Any other key is left to the browser.

The project has five files:

- `whitespace.dfy`: the whitespace class `\s` as a text box can hold it.
  `WhitespaceDeleted(s, t)` says that `t` is `s` with only whitespace
  characters deleted. `Visible(s)` is the non-whitespace characters of `s`.
- `regex_trim.dfy` (`MultilineTrim`): `str.replace(/^\s+|\s+$/gm, '')`
  as the ECMAScript engine runs it, with '\n' as the only line terminator
  and `\s` as listed under "## Left out". This means `m`-flag anchors read
  on the original input, greedy `\s+` with backtracking for `$`, and the
  global scan that resumes at the end of each match.
- `line_trim.dfy` (`LineTrim`): the trim the code evidently means. It
  strips every line and drops the blank lines, keeping one line break between
  the lines that remain (see "## Findings").
- `substr.dfy` (`JsString`): `String.prototype.substr` as section B.2.2.1 of
  ECMA-262 defines it.
- `box_cut_paste.dfy` (`BoxCutPaste`): the caret offset, the split, the fill
  of the first empty slot, and the handler itself. The handler is the class
  `PasteBox`, which holds the box's value and selection and an array of the
  inputs' values. `HandleKey` updates them in place. Assigning the value and
  moving the caret are the methods `SetValue` and `ResetCaret`.

The caret offset comes from the host. With `selectionStart` it is that
value. With the old `document.selection` it is the length of the selection
stretched back to the start, less the selection's own length. The model
assumes that the stretched range's text is the value up to the selection's
end; under that assumption the offset is proved to be the selection start
too. Without either it stays 0. In that last case the whole box is the rest
and the line is empty (`DispatchAtStart`): the line `substr(0, 0)` is empty.

## Model

| member | source | states |
|---|---|---|
| BoxCutPaste.PasteBox.HandleKey | frag.js:1-56 | A key other than 13 changes nothing. Enter sets the box to the trimmed text from the caret on and puts the trimmed text before the caret into the first empty slot; other slots keep their values. When the host can place the caret it ends at 0,0. Otherwise it stays where the value assignment left it: at the end of a changed value, or unmoved. The box stays well formed. |
| BoxCutPaste.PasteBox.Dispatch | frag.js:8-55 | What Enter does, as intended (corrected trim and corrected reset): the box becomes the trimmed text from the caret on, the trimmed text before the caret goes into the first empty slot with the other slots unchanged, and the caret ends at 0,0 when the host can place it. With no capability it stays where the value assignment left it. |
| BoxCutPaste.PasteBox.Replace | frag.js:44-55 | The box holds the new value, and the caret is placed by the intended reset (`move` for `moveat`): 0,0 when the host can place it; otherwise it is at the end of a changed value, or the selection is unmoved. |
| BoxCutPaste.PasteBox.SetValue | frag.js:45 | The box holds the new value. A changed value puts the caret at its end; an unchanged one leaves the selection alone. |
| BoxCutPaste.PasteBox.ResetCaret | frag.js:47-55 | The value is untouched. Either capability puts the caret at 0,0, and with neither the selection stays. This is the intended reset (`move` for `moveat`). |
| BoxCutPaste.ResetAsWritten | frag.js:47-55 | The reset as written: `createTextRange` hosts throw at `moveat` with the selection unmoved; `setSelectionRange` places 0,0; otherwise nothing moves. Its meaning is stated by `ResetAsWrittenThrows`. |
| BoxCutPaste.ResetIntended | frag.js:47-55 | The reset as intended: both capabilities place 0,0. Its relation to the code is stated by `ResetAsWrittenThrows`. |
| BoxCutPaste.ResetAsWrittenThrows | frag.js:47-55 | The written and intended resets agree except with `createTextRange`. There the written one throws, and it leaves the caret off 0 whenever the caret was not at 0. |
| BoxCutPaste.ResetTextRangeExample | frag.js:48-52 | After assigning "abc" the caret is at 3. As written, a `createTextRange` host throws with it still at 3; as intended it goes to 0. |
| BoxCutPaste.PasteBox.ReadCaret | frag.js:10-22 | The offset read is the selection start under either caret API, and 0 when the host has neither. |
| BoxCutPaste.PasteBox.FillFirstEmpty | frag.js:32-42 | After the walk over the inputs, the slots are the old slots with the line in the first empty one. If no slot is empty, nothing changes. |
| BoxCutPaste.CaretOffset | frag.js:10-22 | The offset each caret API yields: `selectionStart`, the legacy stretched-range length less the selection length, or 0. Its meaning is stated by `CaretOffsetSpec`. |
| BoxCutPaste.LineBefore | frag.js:25-26 | `substr(0, pos)` with the intended trim applied. `DispatchKeepsText`, `DispatchTrimmed` and `DispatchAtEnd` state what it holds. |
| BoxCutPaste.RestAfter | frag.js:28-29 | `substr(pos)` with the intended trim applied. `DispatchKeepsText`, `DispatchTrimmed` and `DispatchAtStart` state what it holds. |
| BoxCutPaste.Filled | frag.js:32-42 | The slots with the line written into the first "" slot found by `FirstEmpty`, or unchanged. `FilledFirstEmpty`, `FilledNoEmpty` and `FilledChangesOneSlot` state its meaning. |
| BoxCutPaste.CaretOffsetSpec | frag.js:13-21 | The legacy range arithmetic (stretched length minus selection length) equals the selection start. Without a caret API the offset is 0. |
| BoxCutPaste.FirstEmpty | frag.js:32-42 | The index found holds "" and every earlier slot is non-empty; None means that no slot is "". |
| BoxCutPaste.FilledFirstEmpty | frag.js:36-41 | When slot k is "" and every earlier slot is not, filling writes the line to k and to no other slot, later empty slots included. |
| BoxCutPaste.FilledNoEmpty | frag.js:32-42 | With no empty slot, the line is dropped and the slots are unchanged. |
| BoxCutPaste.FilledChangesOneSlot | frag.js:32-42 | At most one slot changes. The slot that changes was "" and now holds the line. The number of slots is unchanged. |
| BoxCutPaste.FilledEmptyRow | frag.js:32-42 | Into all-empty slots the line goes to the first one. |
| BoxCutPaste.FilledProgress | frag.js:32-42 | A non-empty line moves the first empty slot strictly later. An empty line leaves the slots as they were. |
| BoxCutPaste.DispatchKeepsText | frag.js:25-29 | For a caret at or after the start, the line followed by the rest is the box with only whitespace deleted. Their visible characters together are exactly the box's, in order. |
| BoxCutPaste.DispatchTrimmed | frag.js:25-29 | Neither the line nor the rest starts or ends with whitespace. |
| BoxCutPaste.DispatchAtStart | frag.js:10-29 | With the caret at 0 (as when no caret API exists) the line is "" and the rest is the whole box, trimmed. |
| BoxCutPaste.DispatchAtEnd | frag.js:25-29 | With the caret at or past the end the line is the whole box, trimmed, and the rest is "". |
| BoxCutPaste.DispatchExample | frag.js:25-29 | "abc\ndef" with the caret at 3 gives the line "abc" and the rest "def". |
| BoxCutPaste.LineAsWritten | frag.js:25-26 | `substr(0, pos)` with the regular expression as written. `DispatchAsWrittenKeepsText` and `DispatchAsWrittenTrimmed` state what it holds. |
| BoxCutPaste.RestAsWritten | frag.js:28-29 | `substr(pos)` with the regular expression as written. `DispatchAsWrittenKeepsText`, `DispatchAsWrittenTrimmed` and `DispatchAsWrittenAtStart` state what it holds. |
| BoxCutPaste.DispatchAsWrittenKeepsText | frag.js:25-29 | As written too, for a caret at or after the start, the line followed by the rest is the box with only whitespace deleted, and their visible characters together are the box's, in order. |
| BoxCutPaste.DispatchAsWrittenTrimmed | frag.js:25-29 | As written, neither the line nor the rest starts or ends with whitespace. |
| BoxCutPaste.DispatchAsWrittenAtStart | frag.js:10-29 | As written, a caret at 0 gives the line "" and the whole box, regex-trimmed, as the rest. |
| BoxCutPaste.DispatchAsWrittenDiffers | frag.js:25-26 | With the caret at the end of "a\n\nb" the written line is "ab" and the corrected line "a\nb". |
| JsString.Clamp | frag.js:25-28 | The clamped value lies in the bounds and equals the input when the input already does. |
| JsString.Substr | frag.js:25-28 | `substr(start)` and `substr(start, length)` as section B.2.2.1 of ECMA-262 computes them: a negative start counts from the end, and start and length are clamped. `SubstrSplit` and `SubstrNegative` state its meaning. |
| JsString.SubstrSplit | frag.js:25-28 | For pos ≥ 0, `substr(0, pos)` is the prefix up to min(pos, length) and `substr(pos)` the rest. Together they give back the whole string. |
| JsString.SubstrNegative | frag.js:25-28 | For pos < 0, `substr(0, pos)` is empty and `substr(pos)` keeps only the last -pos characters. |
| Whitespace.IsWhitespace | frag.js:26 | The members of `\s` the model admits: space, tab, '\n', '\r', vertical tab, form feed and no-break space (the reduced set is named under "## Left out"). |
| Whitespace.RunEnd | frag.js:26 | Where a greedy whitespace run starting at `i` stops: every character up to it is whitespace, and it is the end or a non-whitespace character. |
| MultilineTrim.AtLineStart | frag.js:26 | `^` under the `m` flag: the start of the input or just after a '\n' ('\n' is the only line terminator, as named under "## Left out"). |
| MultilineTrim.AtLineEnd | frag.js:26 | `$` under the `m` flag: the end of the input or just before a '\n' (same restriction). |
| MultilineTrim.LastLineEnd | frag.js:26 | The backtracking of `\s+$` finds the largest end in the range at which `$` holds, and None only when `$` holds nowhere in it. |
| MultilineTrim.MatchAt | frag.js:26 | A match consumes at least one character, and only whitespace. A line start that holds whitespace always begins a match. |
| MultilineTrim.ReplaceFrom | frag.js:26-29 | The global scan from a position: a match is skipped and the scan resumes at its end, otherwise one character is kept. `ReplaceFromDeletesWhitespace` and `ReplaceFromEndsVisible` state its meaning. |
| MultilineTrim.RegexTrim | frag.js:26-29 | `replace(/^\s+\|\s+$/gm, '')`, the scan from 0. `RegexTrimTrimmed` and `RegexTrimJoinsLines` state its meaning. |
| MultilineTrim.ReplaceFromDeletesWhitespace | frag.js:26 | The global replacement deletes only whitespace characters. |
| MultilineTrim.ReplaceFromEndsVisible | frag.js:26 | What the replacement keeps never ends in whitespace. |
| MultilineTrim.RegexTrimTrimmed | frag.js:26 | The regex result neither starts nor ends with whitespace and is its input with only whitespace deleted. |
| MultilineTrim.RegexTrimStripsLines | frag.js:26 | "a \n b" becomes "a\nb". |
| MultilineTrim.RegexTrimJoinsLines | frag.js:26 | "a\n\nb" becomes "ab": both line breaks around the empty line are removed. |
| MultilineTrim.RegexTrimCrLf | frag.js:26 | With '\n'-only line breaks, "a\r\n\r\nb" becomes "a\nb": the '\r' counts as whitespace but not as a line end. |
| LineTrim.Lines | frag.js:26-29 | The text split at every '\n', which is where `^` and `$` hold under the `m` flag. There is at least one line, and no line holds '\n'. `UnlinesLines` and `LinesUnlines` state the round trip. |
| LineTrim.Strip | frag.js:26-29 | One line without its leading and trailing whitespace runs. `StripSpec` states its meaning. |
| LineTrim.Kept | frag.js:26-29 | Every line stripped, the ones left empty dropped. `KeptSpec` states its meaning. |
| LineTrim.TrimLines | frag.js:26-29 | The intended trim: the kept lines joined by '\n'. `TrimLinesKeepsLines`, `TrimLinesDeletesWhitespace`, `TrimLinesTrimmed` and `TrimLinesIdempotent` state its meaning. |
| LineTrim.StripSpec | frag.js:26 | Stripping one line deletes only whitespace and leaves no whitespace at either end. It yields "" exactly for a blank line and keeps a line free of line breaks. |
| LineTrim.StripTrimmed | frag.js:26 | An already stripped line is left as it is. |
| LineTrim.UnlinesLines | frag.js:26 | Splitting at '\n' and joining with '\n' gives back the text. |
| LineTrim.LinesUnlines | frag.js:26 | Joining lines free of '\n' and splitting again gives back the lines. |
| LineTrim.KeptSpec | frag.js:26 | Every kept line is non-empty and stripped, and holds no line break when the input lines hold none. |
| LineTrim.TrimLinesKeepsLines | frag.js:26-29 | The trim is "" exactly when the input is all whitespace. Otherwise its lines are exactly the input's non-blank lines, each stripped, in order. |
| LineTrim.TrimLinesDeletesWhitespace | frag.js:26-29 | The trim is its input with only whitespace characters deleted. |
| LineTrim.TrimLinesTrimmed | frag.js:26-29 | The trim neither starts nor ends with whitespace. |
| LineTrim.TrimLinesIdempotent | frag.js:26-29 | Trimming twice is trimming once. |
| LineTrim.TrimSingleLine | frag.js:26-29 | A single stripped non-empty line is its own trim. |
| LineTrim.TrimLinesLeadingBreak | frag.js:28-29 | A line break at the start of the rest (the caret before a break) leaves no trace. |
| LineTrim.TrimLinesStripsLines | frag.js:26-29 | "a \n b" becomes "a\nb", as the regex also gives. |
| LineTrim.TrimLinesDropsEmptyLine | frag.js:26-29 | "a\n\nb" becomes "a\nb": the empty line goes and the lines around it stay apart. |
| LineTrim.TrimDiffersFromRegex | frag.js:26-29 | On "a\n\nb" the regex as written and the intended trim differ, and the regex result has fewer lines. |

## Left out

- `e.preventDefault()` and the event object: only `e.which` is a parameter of `HandleKey`.
- The jQuery and DOM lookups (`$('#boxtxt')`, `$('.datarow :text.sinput')`): the box is the `PasteBox` object, and the inputs are its `slots` array in document order.
- The focus call and the range objects of the old selection API: their effect is the caret offset they produce, modelled by `CaretOffset`.
- The exception thrown at frag.js:50 on `createTextRange` hosts is modelled by `ResetAsWritten` as an outcome, not as a JavaScript exception propagating to the caller.
- The `found` flag: the model stops at the first empty slot, which is all the flag does.
- The sanitising a text input applies to an assigned value (a browser removes line breaks from an `<input type=text>` value): a slot holds the line exactly as computed.
- `\s` is modelled by the whitespace characters a text box normally holds: space, tab, '\n', '\r', vertical tab, form feed and no-break space. The other Unicode space separators, U+FEFF, and '\r', U+2028 and U+2029 as line terminators for `^`/`$` are not modelled. The model assumes '\n' line breaks, as standards-conforming browsers report a text area's value. Old Internet Explorer, the host of the `document.selection` branch, reports "\r\n", and `b.value` is read directly; there the trim's result differs: on "a\r\n\r\nb" the engine yields "ab", the model "a\nb" (`MultilineTrim.RegexTrimCrLf`).
- Strings are sequences of Dafny characters, not UTF-16 code units. Offsets and `substr` count characters.
- BoxCutPaste.PasteBox.HandleKey: uses the corrected trim `LineTrim.TrimLines`, not the regex as written (see Findings). The as-written trim is `MultilineTrim.RegexTrim`.
- BoxCutPaste.PasteBox.Dispatch: uses the corrected trim `LineTrim.TrimLines` and the corrected cursor reset `PasteBox.ResetCaret`, like `HandleKey`; the code as written joins lines around an empty line (frag.js:26, frag.js:29) and throws at frag.js:50 on a `createTextRange` host.
- BoxCutPaste.PasteBox.Replace: places the caret by the corrected reset `PasteBox.ResetCaret`; as written, a `createTextRange` host throws at frag.js:50 with the caret left where the value assignment put it.
- BoxCutPaste.PasteBox.HandleKey: uses the corrected cursor reset `PasteBox.ResetCaret`. As written, a `createTextRange` host throws at frag.js:50 and keeps the caret where the value assignment left it (see Findings). The as-written reset is `ResetAsWritten`.

## Findings

| source | as written | input that shows it | evidently intended | confidence | as-written member | corrected member |
|---|---|---|---|---|---|---|
| frag.js:26, frag.js:29 | `replace(/^\s+\|\s+$/gm, '')`: under the `m` flag, `\s+$` takes the line break that ends a text line when an empty line follows, and `^\s+` takes the break after the empty line, so both breaks go and the two text lines are joined | "a\n\nb" gives "ab" (the rest after a caret placed before such text loses its line structure) | strip each line and drop blank lines, keeping the lines apart: "a\nb" | medium: derived from the ECMAScript regular-expression semantics, not executed | MultilineTrim.RegexTrim, MultilineTrim.RegexTrimJoinsLines | LineTrim.TrimLines, LineTrim.TrimLinesKeepsLines, LineTrim.TrimLinesDropsEmptyLine |
| frag.js:48-52 | `part.moveat("character", 0)`: a text range has `move`, `moveStart` and `moveEnd` but no `moveat`, so the call throws and `select` never runs; `createTextRange` is tried before `setSelectionRange`, so every host offering it takes this branch | any Enter press on a `createTextRange` host that changes the box, e.g. the box becomes "abc" and the caret stays at 3 | `part.move("character", 0)`, which collapses the whole-box range to its start, putting the caret at 0 | medium: from the documented text range methods, not executed | BoxCutPaste.ResetAsWritten, BoxCutPaste.ResetAsWrittenThrows, BoxCutPaste.ResetTextRangeExample | BoxCutPaste.PasteBox.ResetCaret, BoxCutPaste.ResetIntended |
