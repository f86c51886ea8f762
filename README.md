# A verified model of a terminal JSON editor's core

The editor shows a JSON document in two panes. The left pane is the
pretty-printed document. Its highlight follows a count of the lines that open
an object element of the top-level array (`"    {\n"`): the lines from the
n-th such opening line up to the next are highlighted when index n is
selected. That is the selected element only when every element up to it is a
non-empty object; scalars, arrays and `{}` open no such line, so `[1, 2, 3]`
highlights nothing and in `[1, {"a": 2}]` selecting element 0 highlights the
object. The right pane is the selected element flattened into numbered
lines, with a cursor that highlights one scalar. Key presses move between a
main screen, an editing screen and an exit prompt.

This project models three parts of that program in Dafny and proves their
properties:

- **The line-splitting writer and the render cache** (`json_writer.dfy`,
  `json_container.dfy`).
  - `LineWriter` is the byte sink that the pretty-printer writes into. Each
    `Write` buffers the chunk and cuts off at most one complete line. Its
    `ShouldColor` step counts the lines equal to `"    {\n"` and colours a
    line when that count equals the selected index.
  - The pure specification beside it: `WriteStep` and `Feed` for the splitting,
    `Rendered` for the colouring, and `SplitLines` and `CountOpen` as reference
    definitions. Lemmas connect each of them to the writer.
  - `JsonContainer.CreateLines` is a one-entry cache. It re-renders the document
    unless a selected position is given and is the one already rendered.
- **The key-event state machine** (`logic.dfy`, `app.dfy`).
  - `Logic.Step` is the pure transition, with one function per screen.
  - `Editor.App.HandleEvent` performs the same transition in place on the
    application's fields. It is proved equal to `Step`.
  - Lemmas cover the invariants the transition keeps.
- **The element view and the title** (`ui.dfy`, `app.dfy`).
  - `Ui.Render` is the flattening as a function returning the lines and the
    final counter. `Ui.RenderJsonStruct` is the same walk as the program does
    it, with recursion, loops and a threaded counter, and is proved equal to
    `Render`.
  - Counting lemmas give the counter's final value, which becomes the
    editor's maximum cursor position. Another lemma shows that at most one line
    is ever highlighted.
  - `Ui.TitleText` is the title line.

Bytes are `Text.Byte` (0..255) and strings are `seq<char>`. The JSON value is
`Json.Value`, with an object's entries kept in the order the map iterates them.

## Model

| member | source | states |
|---|---|---|
| JsonWriter.FirstNewline | src/json.rs:87 | None exactly when there is no newline; otherwise an in-range position holding a newline, with no newline before it |
| JsonWriter.FindNewline | src/json.rs:87 | the position search of `write`, done by a loop, returns the first newline as FirstNewline defines it |
| JsonWriter.WriteStep | src/json.rs:86-100 | one `write` cuts off at most one line, and one exactly when the buffered bytes plus the chunk contain a newline; the cut piece is a complete line; the line plus the new buffer are exactly the old buffer plus the chunk |
| JsonWriter.FeedPreservesBytes | src/json.rs:86-100 | after any sequence of writes, the cut lines are complete lines, the lines followed by the buffer are exactly the bytes written, and there are no more lines than writes |
| JsonWriter.FeedLeavesNoLine | src/json.rs:86-100 | when no chunk holds two newlines, the buffer never holds a complete line |
| JsonWriter.FeedCutsEveryLine | src/json.rs:86-100 | when no chunk holds two newlines, the lines cut are exactly the newline-terminated lines of all the bytes written, in order |
| JsonWriter.SplitLinesOfConcat | src/json.rs:86-100 | splitting complete lines joined together gives those lines back |
| JsonWriter.Rendered | src/json.rs:90-99 | one display line per text line (`inner` and `text` have the same length) |
| JsonWriter.RenderedAt | src/json.rs:90-99 | display line i carries text line i, coloured by the element counter after the first i + 1 lines |
| JsonWriter.IdxAfterCountsElements | src/json.rs:70-74 | the element counter is None before the first `"    {\n"` line, becomes Some(0) at it, and goes up by one at each later one; no other line moves it |
| JsonWriter.HighlightedIff | src/json.rs:68-81 | a line is coloured exactly when it is not `"]\n"`, an element has opened by then, and the open element (counting from 0) is the selected one |
| JsonWriter.NoSelectionNoHighlight | src/json.rs:77-80 | with no element selected, no line is coloured |
| JsonWriter.LineWriter.constructor | src/json.rs:61-66 | a new writer holds no lines, no buffered bytes and no counter, and remembers the selected element |
| JsonWriter.LineWriter.ShouldColor | src/json.rs:68-81 | moves the counter by the newest line and returns whether that line is coloured |
| JsonWriter.LineWriter.Write | src/json.rs:85-103 | reports the whole chunk as consumed; `text` grows by what WriteStep cuts and the buffer becomes what it leaves; the writer invariant (bytes accounted for, counter in step, display lines are the rendering of `text`) is kept |
| JsonWriter.LineWriter.CutLine | src/json.rs:88-101 | with the first buffered newline at k, pushes the bytes up to it as one line, coloured by ShouldColor, drains them from the buffer, and keeps the writer invariant |
| JsonWriter.LineWriter.WriteAll | src/json.rs:46 | `write_all` keeps calling `write` until the slice is consumed, and ends as one step of Feed |
| Container.Serialize | src/json.rs:43-45 | writing the serializer's chunks in order leaves the writer as Feed of those chunks |
| Container.RenderedOutputShowsEveryLine | src/json.rs:41-47 | the rendered lines are exactly the lines of the serializer's output plus the final newline, each coloured as HighlightedIff says |
| Container.JsonContainer.constructor | src/json.rs:21-26 | a new container holds the document and empty lines, cache, buffer and cursors |
| Container.JsonContainer.Len | src/json.rs:28-30 | Some(n) exactly when the document is an array of n elements |
| Container.JsonContainer.CreateLines | src/json.rs:36-48 | with a selected position equal to the cached one, nothing changes; otherwise, including every None position, the cache key becomes the position and the lines are the rendering of the document for it |
| Logic.ResetCursor | src/logic.rs:22-25 | both cursor fields become None and nothing else changes |
| Logic.IndexUp | src/logic.rs:50-61 | None selects element 0; a selection moves up by one and stops at 0 |
| Logic.IndexDown | src/logic.rs:62-82 | nothing changes for a document that is not an array; None selects element 0 of an array; inside a non-empty array a selection moves down by one, stops at the last element and stays inside the array; a selection at or past the end of a non-empty array moves to the next index; on an empty array nothing changes |
| Logic.IndexDownAsWritten | src/logic.rs:62-82 | Down as the code has it: Underflow exactly for a selection on an empty array; otherwise no change for a document that is not an array, None selects element 0, and a selection moves down by one and stops at the last element |
| Logic.IndexDownMatchesSource | src/logic.rs:62-82 | the code as written underflows exactly for a selection on an empty array, and agrees with IndexDown everywhere else |
| Logic.DownUnderflowsOnEmptyArray | src/logic.rs:50-82 | on an empty array document, Up then Down reaches the underflow |
| Logic.MainKey | src/logic.rs:41-87 | Right and Tab open the editor on the key, `q` asks to exit, Up and Down move the selection, other keys change nothing; cursors and buffer are never touched |
| Logic.ExitingKey | src/logic.rs:89-97 | quit and save exactly on `y`, quit without saving exactly on `n` or `q`, otherwise keep running |
| Logic.CursorUp | src/logic.rs:100-112 | None goes to 1; a cursor moves up by one and stops at 1; 0 stays 0 |
| Logic.CursorDown | src/logic.rs:113-134 | nothing happens without a maximum; None goes to 1; a cursor moves down by one and stops at the maximum |
| Logic.Pop | src/logic.rs:158-169 | removes the last character of a non-empty buffer and leaves an empty one empty |
| Logic.EditingKey | src/logic.rs:99-188 | Left returns to the main screen and resets both cursors; Tab and Esc return without touching them; Enter moves from key to value and from value to the main screen; characters and Backspace edit the buffer only while a field is being edited; Right and other keys change nothing; the selection never changes |
| Logic.Step | src/logic.rs:35-192 | non-key and Release events change nothing; only the exit prompt returns a result, and then nothing changes; the editing screen never changes the selection and ignores repeats |
| Logic.InitialReachable | src/app.rs:49-53 | the initial state satisfies the reachable-state invariant |
| Logic.StepKeepsReachable | src/logic.rs:35-192 | every event keeps the invariant: the editing screen always has a field being edited, the cursor is never 0, and a selection inside a non-empty array stays inside it |
| Logic.CursorStaysInRange | src/logic.rs:100-134 | Up and Down keep the cursor between 1 and the maximum once it is there and the maximum is at least 1 |
| Logic.CursorEscapesMaximum | src/logic.rs:113-134 | with a maximum of 0, Down from no cursor goes to 1; a cursor above the maximum moves one further up on Down, so it is never pulled back |
| Ui.RenderJsonStruct | src/ui.rs:35-100 | the recursive walk with its loops and threaded counter produces exactly Render's lines and final counter |
| Ui.RenderArray | src/ui.rs:47-63 | the array arm produces a label `prefix.(i+1)` per element, counted, followed by the element's lines |
| Ui.RenderObject | src/ui.rs:64-82 | the object arm produces a label `prefix.key`, counted, only before a value that is not an array, followed by the value's lines |
| Ui.RenderCounts | src/ui.rs:47-82 | the counter advances by the number of array elements plus non-array object values in the tree; that is also the number of label lines, and every other line is a scalar |
| Ui.AtMostOneHighlight | src/ui.rs:41-98 | for any cursor at most one line is highlighted, and only with the cursor inside the counter's range; a scalar is highlighted exactly when the cursor equals the counter, and inside an array or object only past the entry counter |
| Ui.TitleText | src/ui.rs:17-26 | the title starts with the file's description and is longer exactly when an index is selected |
| Ui.TitleShowsIndex | src/ui.rs:23-26 | the selected index can be read back from the title's ` (index n)` suffix |
| Ui.TitleIndexInjective | src/ui.rs:23-26 | different selected indices give different titles |
| Text.NatToString | src/ui.rs:50 | decimal text of a number: non-empty, all digits, no leading zero |
| Text.ParseNatToString | src/ui.rs:126 | reading the decimal text back gives the number |
| Editor.App.constructor | src/app.rs:49-53 | a new application is on the main screen with no selection, no field being edited and empty cursors and buffer |
| Editor.App.ResetCursor | src/logic.rs:22-25 | the application state afterwards is Logic.ResetCursor of the state before |
| Editor.App.HandleEvent | src/logic.rs:27-193 | the in-place update and the result are exactly Logic.Step of the state before; no other field changes |
| Editor.App.HandleEditingKey | src/logic.rs:99-188 | the in-place update is exactly Logic.EditingKey |
| Editor.App.CursorUpKey | src/logic.rs:100-112 | the input cursor afterwards is Logic.CursorUp of the cursor before |
| Editor.App.CursorDownKey | src/logic.rs:113-134 | the input cursor afterwards is Logic.CursorDown of the cursor before and the maximum |
| Editor.App.Selected | src/ui.rs:113-118 | an element exactly when an index is selected and the document is an array long enough to have it |
| Editor.App.RenderEdition | src/ui.rs:113-141 | with a selected element: its flattening under its index, at most one line highlighted, and the maximum cursor set to the number of label lines; otherwise "No value selected" and the maximum untouched |
| Editor.App.RenderJson | src/app.rs:84-86 | the document view is refreshed through the cache for the selected index |

## Left out

- Terminal drawing is not modelled: layout, widgets, borders, colours, `render_json_view`, `render_footer_mode`, `render_key_hint` and `ui`. A coloured line is a flag, and the element view's colours are a Style.
- Reading events is not modelled (`event::read`, the `run_app` loop, `terminal.draw`). `HandleEvent` takes the event as a parameter. A failed read changes nothing and returns None, which is what `OtherEvent` does.
- serde_json's pretty-printer is a parameter. `CreateLines` takes the byte chunks it would write for the document. RenderedOutputShowsEveryLine assumes that no chunk holds two newlines.
- Container.RenderedOutputShowsEveryLine: `String::from_utf8_lossy` is not modelled. Lines keep their bytes, so the statement holds for valid UTF-8 output only.
- File and console I/O in src/app.rs is not modelled: reading the file in `App::new`, `write_output`, `print_json` and `write_json`. The constructor takes the document and the file description already decided.
- src/main.rs is not part of this model.
- Machine integers are unbounded here. The model leaves out `saturating_add` at `usize::MAX` in Down (main and editing screens) and `val + 1` overflowing in `should_color`; neither can be reached with a realistic document. `saturating_sub` is modelled.
- The order of an object's entries is the order the map iterates them in. It is taken as given, so a sorted or insertion-ordered map are both covered.
- Ui.ScalarText shows a number as the text serde_json prints for it, kept in the value. Strings are quoted without escaping, as the program does.
- Container.JsonContainer.CheckSameCurrentPos has no contract of its own. It is the cache-key comparison used by CreateLines, whose contract covers it.
- Logic.StepKeepsReachable does not promise that the cursor stays at or below the maximum, because the program does not keep it there. Rendering sets only the maximum and never clamps the cursor (src/ui.rs:129), and Down stops only when the cursor equals the maximum (src/logic.rs:116-120), so a cursor above the maximum climbs without bound (Logic.CursorEscapesMaximum). Both cases that Logic.CursorStaysInRange excludes are reachable: a selected scalar has maximum 0, and Down then moves the cursor from None to 1, 2, …; and after Tab or Esc the cursors survive while a different element with a smaller maximum is selected.

## Findings

| source | as written | input that shows it | evidently intended | confidence | as-written member | corrected member |
|---|---|---|---|---|---|---|
| src/logic.rs:62-69 | on the main screen, Down with an element selected compares it with `len - 1` on `usize`; for an empty top-level array this underflows (a panic in a debug build; in a release build the selection moves to 1, outside the array) | document `[]`: press Up (which selects element 0 whatever the document), then Down | Down leaves the selection alone when the array is empty | not executed | Logic.DownUnderflowsOnEmptyArray | Logic.IndexDown |
