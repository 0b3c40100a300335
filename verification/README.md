# Contract signing widget — a Dafny model

This project models the logic of a browser contract-signing page
(`script.js`). It covers four parts:

- **The signature pad** (`capture.dfy`, module `Capture`). This is the idle/drawing state
  machine driven by mouse, touch and clear events. The state is the `isDrawing` flag,
  the canvas's current sub-path and the stored snapshot (`signatureData`).
  Touch starts and moves are re-dispatched as mouse downs and moves at the first
  touch. Mouse up, mouse out and touch end all stop the stroke. A stop while drawing
  stores the image the canvas exports at that moment. The clear button forgets the
  snapshot.
- **Submission checks** (`validation.dfy`, module `Validation`). These are the sixteen
  required contract fields, then the signer's name, position, signature and the two
  confirmation boxes. Each is checked in the page's order, and the label of every
  failing entry is collected. A text entry fails when its trimmed value is empty
  (ECMAScript `String.prototype.trim` white space, `text.dfy`). A confirmation box
  is asked for only when the matching value is present.
- **Display** (`display.dfy`, module `Display`). This covers:
  - the frozen text that replaces each input once the contract is signed (the
    trimmed value, or `[Not provided]`);
  - the ordinal suffix of `formatDate`, with JavaScript's truncating `%`, including
    the NaN day of a date that did not parse;
  - the `"{day}{suffix} {month} {year}"` assembly from the parsed parts.
- **Submit end to end** (`submission.dfy`, module `Submission`). This is either the
  list of missing labels, or the signed view: frozen fields, trimmed signer name
  and position, the stored image and the formatted date.

`options.dfy` and `sequences.dfy` hold generic helpers: an option type,
subsequence and repetition-free lists, and an order-keeping filter.

The browser is a parameter everywhere it is consulted. Each event carries the pad's
bounding rectangle, read fresh for each event, and the image `toDataURL` would
return. The date reaches the model already split into day, month name and year.

Four behaviours of the code worth noting:

- The snapshot is taken every time a stroke ends (`stopDrawing`), not when the
  submit handler asks for it.
- The clear button resets neither the drawing flag nor the canvas path. It only
  wipes pixels and forgets the snapshot.
- The name and position toggles make an input read-only whenever the box is ticked,
  whatever the input holds (see Left out).
- A tap — a down and a stop with no move between — stores a snapshot, although
  `moveTo` alone marks nothing on the canvas. The stored image is the canvas as it
  was, possibly blank, and it satisfies the "Client Signature" check
  (`Capture.TapStoresImage`).

## Model

| member | source | states |
|---|---|---|
| Capture.ToLocal | script.js:41-43 | a pad-local point plus the rectangle's corner gives back the viewport coordinates |
| Capture.Start | script.js:39-44 | pointer down always enters drawing, opens a one-point sub-path and keeps the stored snapshot |
| Capture.Move | script.js:46-51 | a move while idle changes nothing; while drawing it appends the point to the sub-path and changes nothing else |
| Capture.Stop | script.js:53-58 | after a stop the pad is idle with its path kept; the snapshot becomes the exported image exactly when a stroke was in progress; a stop while idle changes nothing |
| Capture.Clear | script.js:70-73 | the snapshot becomes absent; the drawing flag and path are unchanged |
| Capture.TouchToMouse | script.js:60-68 | a touch is re-dispatched exactly when the touch list is non-empty, as a mouse down for a touch start and a mouse move for a touch move, at the first touch's coordinates |
| Capture.OnMouse | script.js:39-58 | a mouse down always enters drawing, a move keeps the flag, an up or out ends drawing; the snapshot becomes the exported image exactly on an up or out while drawing |
| Capture.Step | script.js:27-36 | the snapshot becomes the event's exported image exactly when a stop event (mouse up, mouse out, touch end) arrives while drawing, becomes absent on the clear button, and is otherwise kept; a mouse down or a touch start with a touch always leaves the pad drawing, and every stop event leaves it idle |
| Capture.Run | script.js:27-36 | a run of events none of which stops a stroke or clears the pad leaves the snapshot as it was |
| Capture.IdleMoveIsNoOp | script.js:46-47 | a mouse move or touch move while idle leaves the whole state unchanged |
| Capture.DownStartsStroke | script.js:28-44 | a mouse down in any state enters drawing with a sub-path holding only the local position |
| Capture.TouchActsAsMouse | script.js:34-35 | a touch start or move has exactly the effect of a mouse down or move at the first touch |
| Capture.StopEventsAgree | script.js:30-31 | mouse up, mouse out and touch end are one transition: idle afterwards, the snapshot replaced only if drawing, nothing changed when idle |
| Capture.EmptyTouchIsNoOp | script.js:62-67 | a touch event with no touches leaves the pad unchanged |
| Capture.ClearForgetsSnapshot | script.js:70-73 | handling the clear button drops the snapshot and keeps the drawing flag |
| Capture.MoveExtendsPath | script.js:46-51 | while drawing, one mouse or touch move appends its local point to the sub-path and changes nothing else |
| Capture.MovesExtendPath | script.js:46-51 | while drawing, a run of mouse or touch moves appends their local points in order, each translated by its own rectangle, and changes nothing else |
| Capture.StrokeCommits | script.js:39-58 | a down, any moves and a stop, each from mouse or touch, leave the pad idle, the stroke's points as the path and the stop's image as the snapshot, from any state |
| Capture.TapStoresImage | script.js:39-58 | a down followed directly by a stop stores the stop's image and leaves a one-point path |
| Capture.RunAppend | script.js:27-36 | handling two event sequences in turn is handling their concatenation |
| Capture.NoSnapshotWithoutCommit | script.js:53-73 | with no snapshot, a run containing no stroke-ending event leaves none |
| Capture.CommitStoresImage | script.js:54-56 | an event ending a stroke stores the image exported with it |
| Text.Trim | script.js:112 | the trimmed text has no white space at either end and is empty exactly when the input is all white space |
| Text.TrimIsInfix | script.js:112 | the trimmed text is the contiguous run starting after the leading white space, and every character it drops is white space |
| Text.TrimOfTrimmed | script.js:112 | a text with no white space at either end is unchanged by trimming |
| Text.TrimIdempotent | script.js:180 | trimming twice is trimming once |
| Validation.CollectMissing | script.js:108-130 | the loop and the five signer checks produce exactly the labels of the reported entries, in checking order |
| Validation.CollectStep | script.js:110-115 | one step of the loop appends the entry's label exactly when its test holds, and keeps what was collected before |
| Validation.Reported | script.js:110-130 | the page's tests on trimmed text (a blank trim, a null signature, a present value with its box unticked) hold exactly when the entry fails by the character-level conditions |
| Validation.MissingLabels | script.js:108-130 | the collected list never holds more than the 21 checked entries |
| Validation.LabelRoundTrip | script.js:90-130 | every label reads back as the entry it was shown for, so no two entries share a label |
| Validation.EveryItemChecked | script.js:90-130 | every field and signer entry is among the 21 checked entries |
| Validation.AllItemsDistinct | script.js:90-105 | no entry is checked twice |
| Validation.MissingItemsMembers | script.js:108-130 | an entry is collected exactly when it fails |
| Validation.MissingLabelsMembers | script.js:108-130 | a label is listed exactly when its entry fails: a blank field, a blank name or position, no signature, or a present value with its box unticked |
| Validation.MissingLabelsOrdered | script.js:90-130 | the list follows the fixed order (fields, then name, position, signature, confirmations), has no repeats and at most 21 labels |
| Validation.ConfirmationRule | script.js:129-130 | in any list showing exactly the failing entries, a confirmation label never appears together with the label of its own value |
| Validation.ConfirmationOnlyForPresentValues | script.js:122-130 | "Name Confirmation (checkbox)" is never listed alongside "Client Name", nor the position one alongside "Client Position" |
| Validation.NoFailureMeansComplete | script.js:108-130 | a form on which no entry fails is complete |
| Validation.NoMissingLabelsIffComplete | script.js:133-137 | the list is empty exactly when all sixteen fields, the name and the position hold non-white-space text, a signature is stored and both boxes are ticked |
| Validation.OnlyBlankFieldReported | script.js:108-137 | with one blank field and everything else in order, that field's label is the whole list |
| Display.FrozenText | script.js:180 | the frozen text is never empty and has no surrounding white space |
| Display.FrozenPlaceholderIff | script.js:180 | the placeholder appears exactly for a blank input (or one whose trimmed text is the placeholder itself) |
| Display.FrozenKeepsContent | script.js:180 | an input with content is shown as its own characters with the surrounding white space removed |
| Display.FrozenIdempotent | script.js:180 | freezing a frozen text changes nothing |
| Display.JsRem | script.js:204 | `%` is the remainder of truncating division, signed like the dividend |
| Display.OrdinalSuffix | script.js:202-210 | the suffix is one of st, nd, rd, th |
| Display.TeensTakeTh | script.js:203 | every day from 4 to 20 takes "th" |
| Display.SuffixFollowsLastDigit | script.js:204-209 | outside 4 to 20 the last digit decides: 1 gives st, 2 gives nd, 3 gives rd, anything else gives th |
| Display.NegativeDayTakesTh | script.js:204-209 | a negative day's remainder matches no case and gives "th" |
| Display.SuffixIsEnglishForDaysOfMonth | script.js:202-210 | for days 1 to 31 the range test agrees with the English rule (11, 12, 13 take th, otherwise by last digit) |
| Display.ReadShowNat | script.js:212 | a day or year printed in decimal reads back as the same number |
| Display.ShowNat | script.js:212 | a non-negative number prints as decimal digits only, with no leading zero |
| Display.ShowInt | script.js:212 | an integer prints with a leading minus sign exactly when it is negative, and the digits that follow read back as its magnitude |
| Display.FormatDate | script.js:196-212 | a date that did not parse is shown as "NaNth Invalid Date NaN" |
| Display.FormatDateShowsDay | script.js:212 | the day can be read back from the leading digits of the formatted date |
| Display.FormatDateFirst | script.js:196-212 | day 1, June, 2024 is shown as "1st June 2024" |
| Display.FormatDateSecond | script.js:196-212 | "2nd June 2024" |
| Display.FormatDateThird | script.js:196-212 | "3rd June 2024" |
| Display.FormatDateEleventh | script.js:196-212 | "11th June 2024" |
| Display.FormatDateTwentyFirst | script.js:196-212 | "21st June 2024" |
| Submission.Submit | script.js:87-168 | a rejection lists at least one label; a signed view carries the stored signature image and the signing date formatted by `formatDate` |
| Submission.FrozenFields | script.js:175-193 | every required field with content shows its trimmed text, and every blank one shows "[Not provided]" |
| Submission.SignedIffComplete | script.js:133-137 | the contract is signed exactly when the form is complete |
| Submission.RejectionListsFailures | script.js:133-137 | a rejection lists each failing entry's label once, in checking order, and nothing else |
| Submission.SignedShowsTrimmedFields | script.js:178-183 | once signed, every required field shows its non-empty trimmed input, never the placeholder |
| Submission.SignedShowsSigner | script.js:118-151 | the signature block shows the trimmed, non-empty name and position |
| Submission.SignedShowsDate | script.js:157 | once signed, the leading digits of the shown date read back as the entered day of the month |
| Submission.NoSignatureBlocksSigning | script.js:124 | with no stored signature, submitting is refused with "Client Signature" listed, whatever the rest of the form holds |
| Submission.ClearedPadBlocksSigning | script.js:124 | after a clear and no stroke ending since, submitting is refused with "Client Signature" listed |
| Submission.FreshPadBlocksSigning | script.js:1-2 | the page starts with no snapshot, so until some stroke ends submitting is refused with "Client Signature" listed |
| Submission.StrokeSuppliesSignature | script.js:53-58 | after a completed mouse or touch stroke, an otherwise complete form is signed with the image exported at the stroke's end |
| Submission.UnparsedDateStillSigns | script.js:157 | the signing date is not checked: a complete form is signed even when the date does not parse |

## Left out

- Canvas rendering: the line style, `stroke()` and pixel contents. The pad's image is an opaque token supplied with each event.
- Pad resizing (`resizeCanvas`, script.js:14-25): it reallocates the canvas, which depends on layout.
- Coordinates are integers. The browser's client coordinates and rectangle may be fractional; only subtraction is applied to them.
- `preventDefault` on touch events (scroll suppression), and the browser's own compatibility mouse events after a touch.
- A touch event with an empty touch list is modelled as changing nothing. In the page, `touches[0]` is then `undefined`, and reading its `clientX` (script.js:64) throws a `TypeError` before any mouse event is dispatched.
- The setup on page load (script.js:4-37): the default signing date from the clock, and the listener registration. The listener wiring is modelled as `Capture.Step`.
- `toggleNameEdit` / `togglePositionEdit` (script.js:75-85): each only copies the box's ticked state into the input's read-only flag. It is not modelled, and no read-only invariant is claimed.
- Which page elements carry the editable classes that `hideInputFields` freezes: they are defined by the page markup. The model freezes the sixteen required fields.
- DOM changes, the alert text and its bullet joining, the success popup, printing, and the webhook summary (`sendToWebhook`).
- Date parsing and month naming (`new Date`, `getDate`, `toLocaleString`). These depend on locale and time zone, so the parsed day, month name and year are inputs. A date-only string is read as midnight UTC while the day is read in local time. West of UTC, a date like 2024-06-01 can therefore be shown as the 31st of May. The model does not cover this.
- The page checks `signatureData` for truthiness. The model treats any stored image as present; an exported data URL is never the empty string.
