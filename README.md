# arun input bar, in Dafny

arun is a small X11 launcher. It opens a window with a one-line input bar.
The user types a shell command and presses Return, and arun hands the command
to `/bin/sh -c` and exits. Escape, or losing the input focus, exits without
running anything.

This project models the input bar's editor: the state `input_bar_t` (a fixed
256-character buffer `buf`, the text length `top` and the insertion index
`cursor`) and the editing branches of `handle_key_press`.

- `line_edit.dfy` (module `LineEdit`) holds the edits as values. `InsertAt` and
  `RemoveAt` act on the text. `BufferAfterInsert` and `BufferAfterBackspace`
  act on the whole 256-character buffer. That includes the characters past
  `top`, which the C code never clears.
- `key_handler.dfy` (module `KeyHandler`) describes one key press as a
  function `Step` on the visible state (text and cursor). It also has the
  main loop's events (`EventStep`) and a run of key presses (`Session`), with
  the lemmas about them.
- `input_bar.dfy` (module `Arun`) holds the class `InputBar`. It has the
  `array<char>` buffer and the `top` and `cursor` fields. Its methods shift
  the buffer in place with explicit loops. `HandleKey` runs the source's tests
  in the source's order and is proved to do exactly what `Step` says.
- `c_semantics.dfy` (module `CSemantics`) models what `execl` does with the
  buffer as the C is written. The `memccpy` calls copy between overlapping
  regions, which C leaves undefined; the module models one possible
  implementation, a front-to-back byte copy. It backs the findings below.

The key translation done by `XLookupString` is abstracted into the datatype
`Key`: `Return`, `Right`, `Left`, `BackSpace`, `Escape`, `Char(c)` for a key
that produced a character, and `Other` for a key that produced none.
"Printable" is `isprint` in the C locale: ASCII 0x20 to 0x7E.

`arun.c` has no candidate list, filtering, selection, scrolling or
word-editing commands, so the model has none either.

## Model

| member | source | states |
|---|---|---|
| `LineEdit.IsPrint` | arun.c:246 | a character passes `isprint` exactly when its code is 0x20 to 0x7E, so a printable character is never NUL |
| `LineEdit.EmptyBuffer` | arun.c:45 | the fresh bar's buffer: 256 characters, every one NUL |
| `LineEdit.InsertAt` | arun.c:246-249 | inserting at index i: the text grows by one, `c` sits at i, the characters before i keep their places and the ones from i on move one place right |
| `LineEdit.RemoveAt` | arun.c:231-235 | removing index i: the text shrinks by one, the characters before i keep their places and the ones after i move one place left |
| `LineEdit.RemoveAfterInsert` | arun.c:231-250 | removing the character just inserted at i gives back the original text |
| `LineEdit.InsertAfterRemove` | arun.c:231-250 | re-inserting a removed character at its index gives back the original text |
| `LineEdit.InsertKeepsPrintable` | arun.c:246-249 | inserting a printable character into a printable text leaves it printable |
| `LineEdit.RemoveKeepsPrintable` | arun.c:231-235 | removing a character from a printable text leaves it printable |
| `LineEdit.BufferAfterInsert` | arun.c:247-249 | the whole buffer after an insertion: slots before the cursor unchanged, `ch` at the cursor, `buf[cursor..top]` one place right, slots past the new end unchanged |
| `LineEdit.BufferAfterBackspace` | arun.c:233-235 | the whole buffer after BackSpace: slots before `cursor - 1` unchanged, `buf[cursor..top]` one place left, the slot `top - 1` and all later ones unchanged (never cleared) |
| `LineEdit.BufferAfterInsertText` | arun.c:247-249 | the first `top + 1` characters of the buffer after an insertion are the old text with `ch` inserted at the cursor |
| `LineEdit.BufferAfterBackspaceText` | arun.c:233-235 | the first `top - 1` characters of the buffer after BackSpace are the old text without the character before the cursor |
| `KeyHandler.Initial` | arun.c:263-266 | the starting state, `top = cursor = 0`, has an empty text and satisfies the invariant |
| `KeyHandler.Outcome.ExitStatus` | arun.c:71-79 | the process exits with 0 exactly when a command was handed off, and with 1 otherwise (Escape and focus-out, arun.c:242 and 286) |
| `KeyHandler.Step` | arun.c:209-250 | every key keeps `0 <= cursor <= top <= 256` (and a printable text); Return hands off exactly the text and empties the bar; Escape leaves the bar as it was |
| `KeyHandler.EventStep` | arun.c:276-288 | every event of the main loop (expose, key press, focus-out, an ignored event) keeps the invariant |
| `KeyHandler.Session` | arun.c:274-290 | any run of key presses from a valid state keeps `0 <= cursor <= top <= 256`, and a run that ends by committing leaves the bar empty |
| `KeyHandler.CursorKeysOnlyMoveCursor` | arun.c:216-224 | Left and Right never change the text and never exit; Left moves one place left only when `cursor > 0`, Right one place right only when `cursor < top` |
| `KeyHandler.InsertThenBackspace` | arun.c:231-250 | a printable insertion when `top < 256`, followed by BackSpace, restores both the text and the cursor |
| `KeyHandler.BackspaceThenRetype` | arun.c:231-250 | BackSpace with `cursor > 0`, followed by typing the deleted character, restores both the text and the cursor |
| `KeyHandler.EscapeAndFocusOutCancel` | arun.c:240-244 | Escape and focus-out both run nothing, leave the bar as it was and end with exit status 1 |
| `KeyHandler.SessionAppend` | arun.c:274-290 | two batches of key presses in a row act as the second batch run from where the first left off, unless the first already exited |
| `KeyHandler.TypingAppends` | arun.c:246-250 | typing printable characters with the cursor at the end appends them to the text and leaves the cursor at the end, as long as the total fits in 256 |
| `KeyHandler.TypeThenCommit` | arun.c:209-250 | from the empty bar, typing a printable command of at most 256 characters and pressing Return runs exactly that command |
| `Arun.InputBar.View` | arun.c:25-31 | the text `buf[..top]` and the cursor of a valid bar satisfy the invariant |
| `Arun.InputBar.constructor` | arun.c:263-266 | the bar starts in `KeyHandler.Initial`, with `top = cursor = 0`, and its buffer is `LineEdit.EmptyBuffer` |
| `Arun.InputBar.MoveRight` | arun.c:216-219 | the cursor moves one place right exactly when `cursor < top`; `top` and the buffer stay unchanged |
| `Arun.InputBar.MoveLeft` | arun.c:221-224 | the cursor moves one place left exactly when `cursor > 0`; `top` and the buffer stay unchanged |
| `Arun.InputBar.Backspace` | arun.c:231-238 | with `cursor > 0`: the buffer is `BufferAfterBackspace` of the old one, the text loses exactly the character before the cursor, and both `cursor` and `top` drop by one; with `cursor = 0` nothing changes |
| `Arun.InputBar.Insert` | arun.c:246-250 | inserts exactly when `ch` is printable and `top < 256`: the buffer is `BufferAfterInsert` of the old one, the text gains `ch` at the cursor, and both `cursor` and `top` grow by one; otherwise nothing changes |
| `Arun.InputBar.Commit` | arun.c:209-214 | the command handed off is exactly `buf[..top]`, the text on display; afterwards `top = cursor = 0` |
| `Arun.InputBar.HandleKey` | arun.c:201-251 | the outcome and the new text and cursor are exactly those `KeyHandler.Step` gives for the old state and the key, and the invariant holds afterwards |
| `Arun.InputBar.HandleEvent` | arun.c:276-288 | the outcome and the new state are exactly those `KeyHandler.EventStep` gives |
| `CSemantics.ExecArgument` | arun.c:74 | the string `sh -c` receives is the longest NUL-free prefix of the buffer, ending where the buffer has its first NUL |
| `CSemantics.ExecArgumentOfTerminated` | arun.c:74 | if the buffer held a NUL at `top` after a printable text, the shell would receive exactly the text |
| `CSemantics.BackspaceAtEndStillRunsDeleted` | arun.c:231-238 | after BackSpace at the end of the text, the text is the old text less its last character, yet the shell receives the old text, deleted character included, which differs from the text |
| `CSemantics.TypedAB` | arun.c:246-249 | the buffer after typing 'a' then 'b' into the all-NUL fresh bar, built from `BufferAfterInsert`, holds "ab" followed by a NUL |
| `CSemantics.StaleCharacterWitness` | arun.c:233-235 | from that buffer, pressing BackSpace leaves the text "a", but the shell receives "ab" |
| `CSemantics.MemccpyForward` | arun.c:233 | a front-to-back copy keeps the buffer's length and leaves the slots before and after the destination untouched |
| `CSemantics.MemccpyShiftLeft` | arun.c:233 | copying one place down, the front-to-back copy is the exact left shift when the copied text has no NUL |
| `CSemantics.BackspaceAsWrittenAgrees` | arun.c:233 | BackSpace as written, with such a copy, produces exactly `BufferAfterBackspace` |
| `CSemantics.AsWrittenInsert` | arun.c:247-248 | insertion as written keeps the buffer's length and puts `ch` at the cursor |
| `CSemantics.MemccpyShiftRightSmears` | arun.c:247 | copying one place up, the front-to-back copy fills every destination slot with the first source character |
| `CSemantics.InsertSmearWitness` | arun.c:246-249 | with "ab" typed into the fresh bar (`TypedAB`) and the cursor at the start, typing 'x' as written gives "xaa" where the intended insertion gives "xab" |

## Findings

| source | as written | input that shows it | evidently intended | confidence | as-written member | corrected member |
|---|---|---|---|---|---|---|
| arun.c:74 | `execl` hands `/bin/sh` the buffer up to its first NUL, but BackSpace never writes a NUL at the new `top`, so stale characters past `top` are still run: the deleted character when BackSpace is at the end of the text, otherwise a copy of the old last character | type "ab", press BackSpace (the bar shows "a"), press Return: sh runs "ab" | the command is `buf[..top]`, the text on display | high; not executed | `CSemantics.BackspaceAtEndStillRunsDeleted` | `Arun.InputBar.Commit` |
| arun.c:247 | insertion moves the tail right with `memccpy` on overlapping regions, which C leaves undefined; a front-to-back copy smears the character at the cursor over the tail | type "ab", press Left twice, type 'x': a front-to-back copy gives "xaa" | "xab": the tail moves one place right unchanged | low: the result depends on the C library's memccpy; not executed | `CSemantics.InsertSmearWitness` | `Arun.InputBar.Insert` |

`Arun.InputBar.Insert` moves the tail with a loop that runs from the last
character down, so it never reads a slot it has already written.
`Arun.InputBar.Commit` hands off `buf[..top]`. The rest of the model uses
these corrected forms.

## Left out

- X11, XCB and Xft setup and teardown (arun.c:81-147, 63-69) and the key-event cast (arun.c:149-167): foreign library calls.
- `XLookupString` (arun.c:207): replaced by the `Key` datatype. Three kinds of key reach the test `isprint(buf[0])` at arun.c:246 without having produced a character: `Other`, `Left` with `cursor = 0` (it fails the test at arun.c:221) and `Right` with `cursor = top` (it fails the tests at arun.c:216 and 226). The C code then reads `buf[0]`, which `XLookupString` never wrote. The model treats all three as inserting nothing; the C code guarantees no such thing.
- `isprint` of a negative `char` (a non-ASCII byte) is undefined in C. The model's `Char(c)` applies the C-locale ASCII range to the character.
- `draw_input_bar` (arun.c:169-199) and the `width` and `height` fields of `input_bar_t`: pixel geometry and rendering.
- Other events: the window asks for focus-change events (arun.c:118) and the `switch` at arun.c:276-288 has no `default`, so focus-in and error events are ignored. They are the event `Ignored`, which `EventStep` maps to no change.
- The main loop's waiting for events and its connection check (arun.c:274-290): I/O. Only its dispatch is modelled, as `EventStep` and `HandleEvent`; `Session` replays key presses.
- `fork`, `execl`, `cleanup` and `exit` in `run_command` (arun.c:71-79): process mechanics. Commit returns the command string, and the outcome says which exit status the process ends with.
- The reset at arun.c:211-212 empties the bar after `run_command`, but `run_command` never returns, because it calls `exit`. `KeyHandler.Step` and `Arun.InputBar.Commit` follow the evidently intended reset to `top = cursor = 0`.
- `CSemantics.ExecArgument`: when `top = 256` and the buffer has no NUL, the C `execl` reads past the end of `buf` into the memory that follows it. The model stops at the end of the 256 characters, so it does not model that over-read.
- The second, dead `Right` test (arun.c:226-229) has no counterpart: it repeats the first test and can never succeed.
- `config.h`: it holds font, colour and layout constants, and `arun.c` does not include it.
