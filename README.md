# A verified model of a microcontroller command line

This project models, in Dafny, the core of a small command-line interface for
microcontrollers: a byte-at-a-time line editor that talks to a serial
terminal, a table of named commands with their argument counts, a
tokenizer that cuts the entered line into fixed argument slots, and the
dispatcher that calls a command's handler. The model follows the C code of
the core function by function:

| Dafny module | file | models |
|---|---|---|
| `CliConfig` | cli_config.dfy | the constants, key codes and result codes of cli_config.h and cli.h |
| `TinyString` | tinystring.dfy | `_strlen`, `_strcmp`, `_strcpy` of tinystring/tinystring.c |
| `CliTime` | cli_time.dfy | the millisecond decomposition of lib/cli_time.c |
| `CliQueue` | cli_queue.dfy | the queue of lib/cli_queue.c, as a class over a three-byte array |
| `CliLog` | cli_log.dfy | the command history of lib/cli_log.c, as a class over an array of rows |
| `Terminal` | terminal.dfy | the terminal at the far end of the line: one row of glyphs and a column |
| `LineEdit` | line_edit.dfy | what each editing operation does to the line and what it echoes |
| `CliInput` | cli_input.dfy | the Main and Transit buffers, the key decoder and the editing operations of lib/cli_input.c |
| `CliTable` | cli_table.dfy | the read-only scans of cli.c: name lookups, prefix comparison, separator count, tokens, flag lookup |
| `CliKeys` | cli_keys.dfy | a pure description of what each decoded key does to the editor and the history |
| `CliCore` | cli.dfy | `CLI_State_s` as the class `Cli`: registration, `_split`, dispatch, argument accessors and `cli_append_char` |

How it is modelled:

- A C string is the memory its pointer designates: a byte sequence holding a NUL somewhere.
  - `CStr(buf)` is the string, meaning the bytes before the first NUL.
  - A pointer that may be NULL is an `Option`.
- Each global structure the C code updates in place becomes a class whose array fields the methods change:
  - `CLI_State_s` is `Cli`;
  - `CLI_Input_s` is `Input` with its two `Buffer`s;
  - `CLI_Log_s` is `Log`;
  - the key window is `Queue`.
- The bytes the editor sends to the terminal are the field `Input.echo`.
  - The `Terminal` module gives them a meaning.
  - The lemmas of `LineEdit` and `CliKeys` prove that the screen keeps showing the prompt, the line and the cursor in place after every editing key: backspace, delete, tab, the arrows, home, end and printable bytes.
  - Enter, escape, the interrupt byte 0x03 and clear-screen are outside those lemmas. After the last three the screen no longer shows the line (see "## Left out").
  - The terminal model draws every byte other than CR and BS as a glyph, ESC and '[' included. This matters because the first two bytes of every arrow, home, end and delete sequence reach the editor as themselves and are inserted into the line (`CliInput.ArrowUpArrives`): the sync lemmas hold for the line including those bytes.
- Command handlers are functions of the argument strings.
- `strtol` is a parameter of type `Strtol`.
- The `uint32_t` conversions are written out as `U32`, which is reduction modulo 2^32.
- `cli_append_char` is described twice:
  - by the method `Cli.AppendChar`, which works on the buffers and the history;
  - by the function `CliKeys.AppendStep`, which works on an `Editor` value.
  
  The method's `ensures` ties the two together. The properties of the editor (history recall, completion, terminal sync) are proved about the function.

The byte after the line is not always a NUL. `cli_input_refresh` copies a
new line without its terminator (lib/cli_input.c:85), so Main can hold
bytes of an older, longer line after its count. `Buffer.Sound` and
`Buffer.Valid` therefore require a NUL only in the last byte.

## Model

| member | source | states |
|---|---|---|
| TinyString.LenFrom | tinystring/tinystring.c:14-20 | the counting loop stops at the first NUL at or after its start, and no NUL lies before it |
| TinyString.StrLen | tinystring/tinystring.c:12-21 | 0 for NULL; otherwise the index of the first NUL, with no NUL before it |
| TinyString.CmpFrom | tinystring/tinystring.c:31-48 | the comparison loop and the test after it return 1 exactly when the two pointers designate the same string |
| TinyString.StrCmp | tinystring/tinystring.c:24-49 | the result is 0 or 1; 1 exactly when both are NULL or both hold equal strings (the inverse of libc `strcmp`); 0 whenever the lengths differ |
| TinyString.StrCmpSymmetric | tinystring/tinystring.c:24-49 | the comparison does not depend on the order of its arguments |
| TinyString.StrCpy | tinystring/tinystring.c:4-9 | `dst[offDst+i] = src[offSrc+i]` for every i < length; every other byte of dst is unchanged |
| CliTime.TimeOfMs | lib/cli_time.c:38-50 | msec < 1000, second < 60, minute < 60, and hour < 1194 for every 32-bit input |
| CliTime.TimeOfMsAddsUp | lib/cli_time.c:38-50 | hour·3600000 + minute·60000 + second·1000 + msec equals the input |
| CliTime.HourIsWholeHours | lib/cli_time.c:42-47 | the hour, computed as (input / 1000) / 3600, is input / 3600000 |
| CliTime.PlusTimeMs | lib/cli_time.c:52-55 | the fields of the corrected time are within their bounds and add up to the input again |
| CliTime.PlusTimeIsTime | lib/cli_time.c:52-55 | the corrected time equals the time, because the correction `def_time_ms` is a static that is never written |
| CliQueue.Pushed | lib/cli_queue.c:53-75 | appended while there is room; when full, the oldest byte is dropped in forced mode, and the queue is unchanged otherwise; never more than `size` bytes |
| CliQueue.WindowHoldsLastThree | lib/cli_queue.c:57-63 | a full forced queue of three holds exactly the last three bytes pushed, whatever it held before |
| CliQueue.Queue.Init | lib/cli_queue.c:41-51 | an empty queue of the given size and mode over the zeroed static array |
| CliQueue.Queue.Push | lib/cli_queue.c:53-75 | returns true unless the queue is full and not forced; the contents become `Pushed`; the exact slots (store at `_cntr`, or shift left and store last); unchanged on false |
| CliQueue.Queue.Pop | lib/cli_queue.c:77-92 | false with nothing changed when empty; otherwise returns the oldest byte, shifts the slots down, decrements the count, and the contents lose their first byte |
| CliQueue.Queue.IsFull | lib/cli_queue.c:94-99 | true exactly when the queue holds `size` bytes or more |
| CliQueue.Queue.IsEmpty | lib/cli_queue.c:101-106 | true exactly when the queue holds no byte |
| CliQueue.Queue.IsEqual | lib/cli_queue.c:108-114 | true exactly when the queue holds at least n bytes and the n oldest equal `items[..n]` |
| CliLog.Recorded | lib/cli_log.c:54-81 | the new line is always the newest entry afterwards; a history of at most 10 entries stays within 10 |
| CliLog.CollapsedShape | lib/cli_log.c:54-81 | the reference "runs of equal lines collapsed" keeps the newest line and leaves no equal neighbours |
| CliLog.RecordedIdempotent | lib/cli_log.c:58-65 | entering the same line twice in a row records it once, whether or not the history is full |
| CliLog.RecordedKeepsNoAdjacentRepeats | lib/cli_log.c:54-81 | recording never puts two equal lines next to each other |
| CliLog.HistoryIsNewestCollapsed | lib/cli_log.c:54-81 | from an empty history, the history is the newest 10 of the entered lines once runs of equal lines are collapsed |
| CliLog.StoredRowAsWritten | lib/cli_log.c:62 | the row the code stores is the first `CLI_CMD_BUF_SIZE` = 20 bytes of the line buffer |
| CliLog.FullLineRowAsWrittenUnterminated | lib/cli_log.c:37-41 | a line of the full 20 bytes loses its NUL in a 20-byte row, so the row is not a C string |
| CliLog.StoredRow | lib/cli_log.c:62-68 | the corrected row is 21 bytes wide |
| CliLog.StoredRowKeepsLine | lib/cli_log.c:62-68 | a 21-byte row holds every line the editor can produce, terminator included |
| CliLog.Log.Entries | lib/cli_log.c:37-41 | the recorded lines are the strings of the rows below the count |
| CliLog.Log.Init | lib/cli_log.c:43-52 | count = cursor = 0, and every row holds "" |
| CliLog.Log.CmdPush | lib/cli_log.c:54-81 | the entries become `Recorded(old entries, line)`; a repeat of the newest entry changes nothing; otherwise the line goes into row `count`, or the rows shift down and the line goes last when full; the cursor stays |
| CliLog.Log.AppendRow | lib/cli_log.c:56-71 | the line goes into the row at the count, which grows by one; the entries gain the line |
| CliLog.Log.RotateIn | lib/cli_log.c:72-80 | in a full history, row 0 goes, the rows move down and the line is the last row; the entries drop the oldest and gain the line |
| CliLog.Log.ShiftRows | lib/cli_log.c:76 | the block move: row j becomes the old row j+1 for j < 9, and the last row keeps its contents |
| CliLog.Log.CmdGet | lib/cli_log.c:83-91 | NULL exactly for index ≥ 10; otherwise the row, whose string is the entry for an index below the count |
| CliLog.Log.GetNextCmd | lib/cli_log.c:93-102 | if cursor + 1 < count, the cursor moves up one and the entry there is returned; otherwise NULL and the cursor stays; `cursor ≤ count ≤ 10` is kept |
| CliLog.Log.GetLastCmd | lib/cli_log.c:104-113 | if cursor > 0, the cursor moves down one and the entry there is returned; otherwise NULL and the cursor stays |
| CliLog.Log.CurReset | lib/cli_log.c:115-118 | the cursor goes to the count |
| CliInput.Buffer.Init | lib/cli_input.c:184-189 | count = cursor = 0 and a zeroed buffer |
| CliInput.Classify | lib/cli_input.c:226-233 | valid exactly when count < 20 or the key is backspace, enter or 0x03; printable exactly when the key is not NUL, '\n' or '\r'; the key code is the key |
| CliInput.KeyOf | lib/cli_input.c:216-224 | a byte is translated only when the window is an escape sequence of three bytes, and then into one of the eight key codes |
| CliInput.KeyOfPattern | lib/cli_input.c:202-224 | each of the eight windows yields its own key code (up, down, right, left, esc, del, home, end); any other window yields the byte itself |
| CliInput.KeyOfOtherByte | lib/cli_input.c:217-224 | a byte that ends no pattern is never translated |
| CliInput.ArrowUpArrives | lib/cli_input.c:211-224 | of the three bytes of the up arrow, ESC and '[' are passed on as themselves (ESC becomes escape only after two ESC); the third becomes the up key |
| CliInput.SpliceOut | lib/cli_input.c:133-136 | Transit holds the line without byte `tmpPos`, then a NUL; the rest of Transit is unchanged |
| CliInput.SpliceIn | lib/cli_input.c:157-160 | Transit holds the line with `c` inserted at `tmpPos`, then a NUL; the rest is unchanged |
| CliInput.PlaceFront | lib/cli_input.c:157-158 | Transit holds the bytes before the cursor, then `c` |
| CliInput.NewSymbols | lib/cli_input.c:193-199 | a forced queue of three holding three zero bytes |
| CliInput.Input.Init | lib/cli_input.c:182-200 | both buffers are empty and zeroed; the window holds [0, 0, 0]; nothing has been echoed |
| CliInput.Input.IsEmpty | lib/cli_input.c:115-118 | true exactly when the line is empty |
| CliInput.Input.IsFull | lib/cli_input.c:120-123 | true exactly when the line holds 20 bytes or more |
| CliInput.Input.EchoData | lib/cli_input.c:90-93 | echoes the first n bytes of Main |
| CliInput.Input.EchoPadding | lib/cli_input.c:95-103 | echoes max(0, old count − new length) blanks, then as many backspaces |
| CliInput.Input.Refresh | lib/cli_input.c:76-105 | the string becomes the line, unterminated, with the cursor at its end; Main's bytes after it are unchanged; the echo is CR, prompt, the string and the padding |
| CliInput.Input.LoadLine | lib/cli_input.c:83-88 | the copy and the count/cursor stores of the refresh |
| CliInput.Input.Redraw | lib/cli_input.c:106-112 | a refresh of Main itself echoes CR, prompt and the line, and changes nothing else |
| CliInput.Input.RemCharAtEnd | lib/cli_input.c:65-74 | the last byte is dropped and cleared, and backspace, blank, backspace is echoed |
| CliInput.Input.ShiftLeft | lib/cli_input.c:140-144 | the cursor walks back j bytes, with one left shift echoed per byte |
| CliInput.Input.RemChar | lib/cli_input.c:125-150 | the line loses the byte before the cursor, which moves back one; Main's and Transit's bytes afterwards and the echo are given exactly |
| CliInput.Input.RemCharInside | lib/cli_input.c:128-145 | in mid-line, the shorter line goes to Transit, is refreshed into Main, and the cursor is walked back |
| CliInput.Input.RemoveIntoTransit | lib/cli_input.c:131-136 | Transit holds the line without the byte before the cursor, terminated |
| CliInput.Input.AddCharAtEnd | lib/cli_input.c:55-63 | the byte is appended, terminated and echoed |
| CliInput.Input.AddChar | lib/cli_input.c:152-180 | the line becomes old[..cursor] + [c] + old[cursor..]; count and cursor each grow by one; Main, Transit and the echo are given exactly, at the end and in mid-line |
| CliInput.Input.AddCharInside | lib/cli_input.c:154-174 | in mid-line, the longer line goes to Transit, is refreshed into Main, and the cursor is walked back to just after `c` |
| CliInput.Input.InsertIntoTransit | lib/cli_input.c:156-160 | Transit holds the line with `c` at the cursor, terminated |
| CliInput.Input.GrowLine | lib/cli_input.c:162-164 | count and cursor grow by one, and Main is terminated at the new count |
| CliInput.Input.Delete | lib/cli_input.c:299-310 | with the cursor at the end nothing changes; otherwise the byte under the cursor goes, the cursor stays, and the echo is the corrected `DeleteEcho` |
| CliInput.Input.Backspace | lib/cli_input.c:312-316 | with the cursor at the start nothing changes; otherwise the byte before the cursor goes and the cursor moves back one |
| CliInput.Input.Cache | lib/cli_input.c:237-241 | Main is terminated at its count, and Transit holds the line and a NUL |
| CliInput.Input.Reset | lib/cli_input.c:243-247 | an empty line with the cursor at 0, and Main[0] = NUL |
| CliInput.Input.GetLastChar | lib/cli_input.c:249 | the last byte of a non-empty line |
| CliInput.Input.SetBuffer | lib/cli_input.c:257-261 | the first bytes of Main become `src`, which is the new line, with the cursor at its end |
| CliInput.Input.AppendSpace | cli.c:718 | `strcat(Main, " ")` writes a blank over Main's first NUL and a NUL after it |
| CliInput.Input.CursorToHome | lib/cli_input.c:263-270 | the cursor ends at 0, with exactly `cursor` left shifts echoed |
| CliInput.Input.CursorToEnd | lib/cli_input.c:272-279 | the cursor ends at the count, with `Data[cursor..count)` echoed |
| CliInput.Input.CursorToLeft | lib/cli_input.c:281-288 | moves back one and echoes one left shift when the cursor is not at 0; otherwise nothing |
| CliInput.Input.CursorToRight | lib/cli_input.c:290-297 | moves on one and echoes the byte stepped over when the cursor is before the count; otherwise nothing |
| CliInput.Input.MatchKey | lib/cli_input.c:217-224 | the pattern tests, in the source's order, give `KeyOf` of the window |
| CliInput.Input.PutChar | lib/cli_input.c:211-235 | the byte enters the window, and the result is `Classify(KeyOf(window, byte), count)` |
| LineEdit.Insert | lib/cli_input.c:152-180 | the line after typing c at k: the bytes before k, then c, then the bytes from k |
| LineEdit.RemoveAt | lib/cli_input.c:125-150 | the line without its byte k |
| LineEdit.RemoveInsert | lib/cli_input.c:125-180 | typing a byte and erasing it again with backspace gives the line back |
| LineEdit.GlyphsKept | lib/cli_input.c:125-180 | inserting a glyph or removing a byte keeps the line free of cursor-moving bytes |
| LineEdit.RefreshEcho | lib/cli_input.c:76-104 | a refresh of another string starts with a carriage return, is as long as return, prompt, line and twice the padding, and its line with the blanks reaches at least as far as the old line |
| LineEdit.RedrawEcho | lib/cli_input.c:76-112 | a refresh of the line itself is return, prompt and the line, with no padding |
| LineEdit.AddCharEcho | lib/cli_input.c:152-180 | typing at the end echoes the byte alone; in the middle, the echo starts with a carriage return and is as long as return, prompt, the longer line with no padding, and one backspace per byte after the cursor |
| LineEdit.RemCharEcho | lib/cli_input.c:125-150 | erasing the last byte echoes backspace, blank, backspace; in the middle, the echo starts with a carriage return and is as long as return, prompt, the shorter line, one blank, its backspace, and one backspace per byte from the cursor to the end |
| LineEdit.DeleteEcho | lib/cli_input.c:299-310 | the corrected delete first echoes the byte under the cursor, stepping over it, then the echo of erasing that byte |
| LineEdit.DeleteEchoAsWritten | lib/cli_input.c:299-310 | as written, delete agrees with the corrected echo except on the last byte of the line, where it echoes only backspace, blank, backspace |
| LineEdit.RefreshInSync | lib/cli_input.c:76-105 | a refresh shows the new line with the cursor at its end when the blanks reach over what was drawn before |
| LineEdit.RedrawInSync | lib/cli_input.c:106-112 | a redraw in place shows the line when the line is at least as long as what was drawn before |
| LineEdit.ShiftBack | lib/cli_input.c:140-144 | walking the cursor back keeps the line on screen, with the cursor j columns further left |
| LineEdit.AddCharInSync | lib/cli_input.c:152-180 | after `cli_input_add_char`'s echo, the screen shows the new line with the cursor after the new byte |
| LineEdit.RemCharInSync | lib/cli_input.c:125-150 | after `cli_input_rem_char`'s echo, the screen shows the shorter line with the cursor one back |
| LineEdit.DeleteInSync | lib/cli_input.c:299-310 | after the corrected delete's echo, the screen shows the shorter line with the cursor in place |
| LineEdit.StepRight | lib/cli_input.c:290-297 | echoing the byte under the cursor steps over it |
| LineEdit.DeleteAsWrittenOutOfSync | lib/cli_input.c:299-310 | the delete as written, from "ab" with the cursor on "b", leaves " b" on screen while the line is "a" |
| LineEdit.HomeInSync | lib/cli_input.c:263-270 | k backspaces bring the terminal's cursor to the start of the line |
| LineEdit.EndInSync | lib/cli_input.c:272-279 | echoing the rest of the line brings the terminal's cursor to its end |
| CliTable.FindFrom | cli.c:504-515 | the scanning loop: the first entry at or after i whose name equals the given name, or none |
| CliTable.FindCommand | cli.c:502-516 | the first entry whose name equals the name; none exactly when no name does |
| CliTable.FindCommandSameStr | cli.c:502-516 | the lookup depends only on the string the buffer holds |
| CliTable.Execute | cli.c:324-362 | ArgErr without arguments; NotFound exactly when no name equals argv[0]; ArgErr when the first entry of that name declares a non-zero count ≠ argc − 1; otherwise that entry runs |
| CliTable.PartCmpFrom | cli.c:182-192 | the loop from position co returns 1 exactly when one string is a prefix of the other |
| CliTable.PartCmp | cli.c:180-193 | 0 or 1; 1 exactly when the shorter string is a prefix of the longer |
| CliTable.PartCmpBothWays | cli.c:180-193 | "help" matches "helpx" and "he", and does not match "hx" |
| CliTable.PartFrom | cli.c:524-541 | the scan from i returns the one compatible entry, or none when there is no compatible entry or more than one |
| CliTable.ScanPast | cli.c:531-538 | one step of the scan keeps "found is the only compatible entry so far" |
| CliTable.NoUniqueMatch | cli.c:533-535 | with two compatible entries, no entry is the only compatible one |
| CliTable.FindPartTerm | cli.c:522-542 | returns entry j exactly when j is the only name prefix-compatible with the word; otherwise NULL |
| CliTable.CountFrom | cli.c:202-210 | the separator bytes counted from position i are at most the bytes left before the NUL |
| CliTable.CountFromCounts | cli.c:202-210 | the outer loop counts the separator bytes of the rest of the string |
| CliTable.CountSeparator | cli.c:196-213 | one more than the number of bytes of the string that are separator bytes |
| CliTable.TokensShape | cli.c:222-258 | there is one token more than the number of separator bytes, and no token holds a separator byte |
| CliTable.TokensOfPrefix | cli.c:222-258 | the tokens of a prefix agree with the tokens of the whole line, except that the last one may be shorter |
| CliTable.JoinTokens | cli.c:222-258 | with one separator byte, joining the tokens with it rebuilds the line |
| CliTable.TokensJoin | cli.c:222-258 | splitting the join of separator-free tokens gives the tokens back |
| CliTable.TokensExample | cli.c:222-258 | "a b" gives ["a", "b"], and "a" followed by two blanks gives ["a", "", ""] |
| CliTable.FlagFrom | cli.c:170-176 | the loop from slot i: the first slot holding the flag, or -1 |
| CliTable.IndexOfFlag | cli.c:167-177 | the least i < argc whose slot equals the flag, or -1; -1 for a NULL flag |
| CliCore.SeparatorHit | cli.c:239-241 | the inner loop hits exactly when the separator is non-empty and the byte is NUL or a separator byte |
| CliCore.WriteToken | cli.c:242-245 | slot k holds the token and a NUL; every other slot is unchanged |
| CliCore.TokenBytes | cli.c:242-245 | the NUL store followed by `_strcpy` leaves slot k holding the token, and no other slot changes |
| CliCore.StoreToken | cli.c:240-249 | a separator or the end of the line stores the token read so far in the next slot, and the scan goes on after it |
| CliCore.ScanTokens | cli.c:229-257 | slot k holds token k of the line for every k; slots past the tokens are untouched; with an empty separator no slot is written |
| CliCore.LogLevelOf | cli.c:578-584 | for a non-empty first argument, the level is its base-10 parse truncated to `uint32_t` and then to `uint8_t` |
| CliCore.SetLogLevel | cli.c:576-632 | Ok exactly for levels 1 to 6; ArgErr otherwise |
| CliCore.SetLogLevelWraps | cli.c:578-586 | an empty argument is refused, and a parse of 259 selects level 3 |
| CliCore.HelpCmd | cli.c:548-559 | `help_cmd` returns CLI_OK for every argument list; its listing is output and is left out |
| CliCore.WelcomeCmd | cli.c:569-573 | `print_cli_w` returns CLI_OK for every argument list; the banner is output and is left out |
| CliCore.UptimeCmd | cli.c:124-127 | `sys_uptime` returns CLI_OK for every argument list; the time is printed by the dispatcher |
| CliCore.RebootCmd | cli.c:561-567 | `reboot_mcu` returns CLI_OK for every argument list; the delay and the reset are hardware and are left out |
| CliCore.Builtins | cli.c:144-149 | `cli_init` registers five commands |
| CliCore.BuiltinNamesDistinct | cli.c:144-149 | the five names are non-empty, pairwise different and shorter than the line |
| CliCore.BuiltinsValid | cli.c:144-149 | the built-in table satisfies the registry invariant, and every name leaves room for completion |
| CliCore.LongWordOverflows | cli.c:239-249 | a blank-free word longer than `CLI_ARG_SIZE` = 5 bytes does not fit the 6-byte slots `cli_init` allocates, so `_split` writes past its slot |
| CliCore.LongNamesOverflowSlot | cli.c:145-156 | "welcome", "boottime" and "loglevel", typed at the prompt, do not fit the 6-byte slots `cli_init` allocates |
| CliCore.BuiltinNamesFitSlot | cli.c:145-156 | with the corrected 9-byte slots, every built-in name typed alone at the prompt fits, so `_split` stays in bounds |
| CliCore.ExecuteBySlot | cli.c:327-337 | dispatching on the slot strings is lookup, then the argc check, then run |
| CliCore.ExecuteLine | cli.c:369-385 | a line is refused as not found exactly when no name equals its first word; a command run is named by the first word, has no blank in its name, and accepts one more argument than the line has blanks; an argument error has a command with that name |
| CliCore.CompletedName | cli.c:715-718 | the name followed by a blank and a NUL holds the name and the blank |
| CliCore.BlankOverNul | cli.c:717-718 | `set_buffer` of the name with its NUL, then `strcat(" ")`, leaves the name and a blank in Main |
| CliCore.OnlyHelpStartsWithH | cli.c:144-149 | of the built-in names only "help" starts with 'h' |
| CliCore.LookupStartingWithH | cli.c:522-542 | over the built-ins, a word starting with 'h' finds "help" exactly when the two are compatible |
| CliCore.LookupOnlyFirst | cli.c:522-542 | when no entry after the first is compatible, the scan finds the first entry exactly when it is compatible |
| CliCore.StaleWordMissesCompletion | cli.c:710-712 | after "he" is refreshed over "hxyz", Main holds "heyz": the corrected lookup completes "help ", while the lookup as written finds nothing |
| CliCore.CompletesToHelp | cli.c:709-721 | a line compatible with "help" that ends in no blank completes to "help " |
| CliCore.RedrawOverLonger | lib/cli_input.c:106-112 | a redraw in place over a longer line leaves the old line's tail on screen |
| CliCore.CompletionRedrawLeavesGlyphs | cli.c:717-718 | after the completion as written, the screen for "help" and more shows "help " followed by stale bytes, so it no longer shows the line |
| CliCore.NewTable | cli.c:68 | a fresh table of `CLI_SIZE_MAX_CMD` entries, each with the empty name of zeroed memory |
| CliCore.NewArgv | cli.c:154-156 | ten zeroed slots of `SLOT_BYTES` = 9 bytes, the corrected width |
| CliCore.NewInput | cli.c:138 | the line editor at start-up |
| CliCore.NewLog | cli.c:158 | the empty history |
| CliCore.Cli.Init | cli.c:130-161 | the built-ins are registered; there is no line, no history, no argument; no flag is set |
| CliCore.Cli.RegisterBuiltins | cli.c:144-150 | the table becomes `Builtins`, and everything else is unchanged |
| CliCore.Cli.Register | cli.c:144-150 | distinct commands registered one by one into an empty table become the table |
| CliCore.Cli.AddNewCmd | cli.c:410-444 | MaxCmd, FcnNull, EmptyName, RetryName in that order, all leaving the table unchanged; otherwise AddOk with the command appended; the registry stays ≤ 20 distinct non-empty names |
| CliCore.Cli.NameTaken | cli.c:428-433 | true exactly when a registered name equals the name |
| CliCore.Cli.Append | cli.c:435-441 | the command is stored at index `countCommand`, which grows by one |
| CliCore.Cli.Split | cli.c:222-258 | argc = 1 + the separator bytes of the line; the argument strings are the tokens; an empty separator writes no slot |
| CliCore.Cli.ExecuteCmd | cli.c:324-362 | the refusal that `Execute` gives, or the result of the chosen handler applied to the arguments |
| CliCore.Cli.ExecuteString | cli.c:369-385 | splits at blanks, dispatches as `ExecuteLine` describes, and leaves argc = 0 with the words in the slots |
| CliCore.Cli.ClearArgs | cli.c:216-219 | argc becomes 0, and the slots keep the words |
| CliCore.Cli.LoopService | cli.c:388-399 | when a line was entered, it is executed once and `isEntered` is cleared; otherwise nothing changes; returns whether it ran |
| CliCore.Cli.GetIntState | cli.c:101-106 | returns the interrupt latch and clears it |
| CliCore.Cli.SetFirstIn | cli.c:654-657 | `first_in` becomes the argument |
| CliCore.Cli.AppendChar | cli.c:666-774 | the window gains the byte; the editor becomes `AppendStep` of the decoded key; the result, `first_in`, `isEntered` and the interrupt latch are as the key says; enter on a non-empty line leaves the line in Transit |
| CliCore.Cli.OnKey | cli.c:675-773 | for the decoded key: BufFull when invalid, `OnEnter` for enter, otherwise `ApplyKey`, with the same state formulas as `AppendChar` |
| CliCore.Cli.OnEnter | cli.c:677-696 | sets `first_in`; on an empty line returns Ignore and changes nothing else; otherwise returns Enter, sets `isEntered`, leaves the line in Transit, and the editor becomes `EnterStep` |
| CliCore.Cli.Submit | cli.c:686-695 | the line goes to Transit and into the history, the history cursor is reset and Main is emptied: `EnterStep` |
| CliCore.Cli.Record | cli.c:690-691 | the entries become `Recorded(old entries, line)`, and the cursor is the entry count |
| CliCore.Cli.ApplyKey | cli.c:676-768 | the editor becomes `KeyStep` of the key; escape and 0x03 latch the interrupt |
| CliCore.Cli.EraseKey | cli.c:705-707 | backspace, and delete at cli.c:746-748: the editor becomes `EraseStep` |
| CliCore.Cli.HistoryKey | cli.c:724-736 | the down and up arrows: the editor becomes `HistoryStep` |
| CliCore.Cli.FetchEntry | cli.c:724-736 | down moves to the next newer entry and up to the next older entry, when there is one, and return it; otherwise NULL and the cursor stays |
| CliCore.Cli.LoadEntry | cli.c:726-727 | the entry is refreshed over the line, and the history is unchanged |
| CliCore.Cli.CursorKey | cli.c:738-756 | left, right, home and end: the editor becomes `CursorStep` |
| CliCore.Cli.TypeKey | cli.c:763-766 | a printable key is inserted while the line is not full: `TypeStep` |
| CliCore.Cli.OnTab | cli.c:709-721 | the corrected tab key: the editor becomes `TabStep` |
| CliCore.Cli.TabMatch | cli.c:710-712 | the corrected lookup: the match is the command of `Completion(table, line)`, and none exactly when there is no completion |
| CliCore.Cli.Complete | cli.c:715-718 | the corrected completion: the line becomes name + " " with the cursor at its end, refreshed over the old line |
| CliCore.Cli.OnTabAsWritten | cli.c:709-721 | the tab key as written: on a non-empty line not ending in a blank, with a unique match for Main's bytes up to the first NUL, the line becomes name + " " and is redrawn in place; otherwise nothing changes |
| CliCore.Cli.TabMatchAsWritten | cli.c:710-712 | the lookup as written is `FindPartTerm` on Main's bytes up to their first NUL |
| CliCore.Cli.CompleteAsWritten | cli.c:715-718 | the completion as written: the line becomes name + " ", and Main is redrawn in place without blanking |
| CliCore.Cli.GetArg | cli.c:264-267 | slot index + 1, holding argument `index` after the name when that slot is in use |
| CliCore.Cli.GetArgDec | cli.c:270-273 | the base-10 parse of that argument, as a `uint32_t` |
| CliCore.Cli.GetArgHex | cli.c:276-279 | the base-16 parse of that argument, as a `uint32_t` |
| CliCore.Cli.GetArgStr | cli.c:282-285 | 1 exactly when that argument equals the string; 0 for NULL |
| CliCore.Cli.FlagIndex | cli.c:167-177 | the least slot in use whose string equals the flag, or -1 exactly when none does |
| CliCore.Cli.GetArgDecByFlag | cli.c:287-298 | succeeds exactly when 0 < w and w + 1 < argc, with the base-10 parse of the argument after the flag; otherwise the caller's value is returned untouched |
| CliCore.Cli.GetArgHexByFlag | cli.c:300-311 | as above, parsing in base 16 |
| CliCore.Cli.IsArgFlag | cli.c:313-316 | true exactly when some argument string equals the flag, the name at index 0 included |
| CliKeys.EraseStep | cli.c:705-707 | backspace and delete (cli.c:746-748) remove exactly one byte, the one before or under the cursor, exactly when there is one, and otherwise change nothing; the history is kept |
| CliKeys.TabStep | cli.c:709-721 | tab changes nothing on an empty line or one ending in a blank; when it changes the line, the new line is a compatible name and a blank, with the cursor at its end; the history is kept |
| CliKeys.HistoryStep | cli.c:724-736 | down moves the history cursor one newer and up one older exactly when there is such an entry, and the line becomes that entry with the cursor at its end; otherwise nothing changes |
| CliKeys.CursorStep | cli.c:738-756 | left, right, home and end keep the line and the history and move the cursor one left (not below 0), one right (not past the end), to 0, or to the end |
| CliKeys.TypeStep | cli.c:763-766 | a key changes the line exactly when it is printable and the line has room; then the key is inserted at the cursor and the cursor goes after it |
| CliKeys.EnterStep | cli.c:677-696 | enter leaves an empty line and echoes nothing; an empty line changes nothing; otherwise the line becomes the newest history entry, the history stays within 10 entries, and the history cursor goes past the newest |
| CliKeys.AppendStep | cli.c:666-774 | a key the line has no room for changes nothing; only enter changes the history; enter leaves an empty line; the echo only grows |
| CliKeys.AppendOutcome | cli.c:666-774 | BufFull exactly for an invalid key, Enter exactly for enter on a non-empty line, Ignore exactly for enter on an empty one, and never Reset |
| CliKeys.Completion | cli.c:709-721 | a completion is the name of the one command compatible with the line, followed by a blank |
| CliKeys.KeyStep | cli.c:676-768 | a key other than enter keeps the history entries and only adds to the echo |
| CliKeys.EnterRecords | cli.c:677-696 | enter on a non-empty line empties it, echoes nothing, and makes it the newest entry; the history stays ≤ 10 entries with no equal neighbours; the next up arrow brings the line back |
| CliKeys.TabCompletesUnique | cli.c:709-721 | tab completes to command j exactly when the line is non-empty, does not end in a blank, and j is its only compatible command (both directions) |
| CliKeys.EraseInSync | cli.c:705-707 | after backspace or delete, the screen shows the line with the cursor in place |
| CliKeys.TabInSync | cli.c:709-721 | after the corrected tab, the screen shows the line with the cursor in place |
| CliKeys.HistoryInSync | cli.c:724-736 | after an arrow key recalls an entry, the screen shows the line with the cursor in place |
| CliKeys.CursorInSync | cli.c:738-756 | after cursor movement, the screen shows the unchanged line with the cursor in its new place |
| CliKeys.TypeInSync | cli.c:763-766 | after typing, the screen shows the line with the cursor in place |
| CliKeys.KeyStepInSync | cli.c:676-768 | every editing key (all but enter, escape, 0x03 and clear-screen) keeps the screen showing the prompt, the line and the cursor |

## Left out

- Output other than the editor's echo is not modelled:
  - the banner `cli_welcome`;
  - the prompt `PRINT_ARROW`;
  - "INTERRUPT";
  - the clear-screen sequence;
  - the `help_cmd` listing;
  - `_print_result_exec`, `_print_result_add_cmd` and `_print_boot_time`.
  
  These change no state of the CLI, but three of them change what the terminal shows, and the screen then no longer shows the line:
  - escape and 0x03 print "INTERRUPT" on a new row (cli.c:699-703), so the prompt and the line are no longer on the row the cursor is on;
  - clear-screen (cli.c:758-761) clears the screen and prints only the prompt, without the line, so a line "abc" is followed on screen by ">> " alone, and typing 'd' then shows ">> d" for the line "abcd".
  
  `CliKeys.KeyStepInSync` therefore excludes these three keys.
- cli_io.c, the transport, is not part of this model.
- The timing instrumentation of `_execute_cli_cmd` (cli.c:341-354) and `cli_time_get_curr_time_str` are not modelled. Both need `CLI_GETMS`, which works in floating point, and `sprintf`.
- Hardware is not modelled: `reboot_mcu` delays and resets the MCU, `UniqueID` is read from hardware, and `SysTick_CLI` is the tick interrupt. `RebootCmd` only returns Ok.
- `strtol` is a parameter rather than a definition.
- The `ULOG_*` logger calls of `cli_init` and `set_loglevel` are not modelled.
- The argument slots that `cli_init` gets from `cli_malloc` are one fixed array of ten slots. Each slot is 9 bytes, the corrected width (see the findings), rather than `CLI_ARG_SIZE + 1` = 6.
- `executeState` is not a field, because it is written and never read.
- `rstUnlock` (cli.c:668-670) is a static that is never set, so it has no state.
- `CLI_CHECK_ABORT` is not modelled, because it names an identifier that does not exist.
- `CLI_GetArgString` is not modelled, because it passes `_strcmp` the wrong number of arguments.
- The overlapping `memcpy` calls are modelled as forward copies, which is the effect of `memmove`. They are the queue shift at lib/cli_queue.c:61 and the history shift at lib/cli_log.c:76.
- All queues share one static array of three bytes. The model has one queue of at most three one-byte elements.
- `isAlphaBet` is left uninitialised for '\r' and '\n'. The model makes it false there.
- CliCore.Cli.Split: requires at most 10 tokens of at most 8 bytes each (`SplitFits`), because `_split` does not check bounds.
  - `ExecuteString` and `LoopService` inherit this precondition.
  - 8 bytes is the corrected slot width. With the 5 bytes of `CLI_ARG_SIZE` as written, "welcome", "boottime" and "loglevel" would be outside the domain (see the findings).
- TinyString.StrCmp: the position counter of `_strcmp` is a `uint16_t` (tinystring/tinystring.c:24). For two equal strings with no NUL in their first 65536 bytes it wraps and the C loop does not end, while the model returns 1. No buffer of the program is longer than 21 bytes.
- CliTable.PartCmp: requires one of the two strings to be shorter than 256 bytes. Its position counter is a `uint8_t` and would wrap otherwise.
- CliTable.CountSeparator: requires the string to be shorter than 256 bytes, for the same reason.
- CliQueue.Queue.Pop: requires the slot past the contents to lie inside the static array. The shift loop reads that slot.
- CliQueue.Queue.Push: excludes a forced push into a queue of size 0, which would write before the array.
- CliCore.Cli.AppendChar: requires every registered name to be shorter than the line (`NamesFitLine`). Otherwise `cli_input_set_buffer` in the tab branch writes past Main.
- CliCore.Cli.AppendChar: states the line, cursor, echo and history. It does not state the bytes of Main past the line or the contents of Transit, except after enter.
- CliCore.Cli.AppendChar: uses the corrected tab key and the corrected delete. The versions as written are modelled beside them; see the findings.
- CliLog.Log.CmdPush: stores 21-byte rows, the corrected row width. The 20-byte rows as written are modelled by `StoredRowAsWritten`.

## Findings

| source | as written | input that shows it | evidently intended | confidence | as-written member | corrected member |
|---|---|---|---|---|---|---|
| lib/cli_input.c:299-310 | `cli_input_delete` echoes the byte under the cursor only when it is not the last byte of the line, and then calls `cli_input_rem_char`, whose end-of-line branch echoes backspace, blank, backspace | line "ab", cursor on "b", delete: the line becomes "a" with the cursor after it, but the screen shows " b" with the cursor on the blank | always step over the byte under the cursor before removing it, so the screen shows "a" | not executed | LineEdit.DeleteEchoAsWritten, LineEdit.DeleteAsWrittenOutOfSync | LineEdit.DeleteInSync, CliInput.Input.Delete |
| lib/cli_log.c:37-68 | history rows are `CLI_CMD_BUF_SIZE` = 20 bytes wide, and `cli_log_cmd_push` copies 20 bytes of the line | a line of 20 'a', then enter: the row holds no NUL, so the row is not a C string, and recalling it reads on into the next row | rows of 21 bytes that keep the terminator | not executed | CliLog.StoredRowAsWritten, CliLog.FullLineRowAsWrittenUnterminated | CliLog.StoredRowKeepsLine, CliLog.Log.CmdPush |
| cli.c:242-245 | `cli_init` allocates argument slots of `CLI_ARG_SIZE + 1` = 6 bytes (cli.c:154-156), and `_split` copies each token into its slot with no length check | type "welcome" (or "boottime", "loglevel") and enter: the 7-byte token and its NUL are written into a 6-byte heap block, past its end | slots at least as long as the longest registered name plus its NUL (9 bytes here), or a bounded copy | not executed | CliCore.LongWordOverflows, CliCore.LongNamesOverflowSlot | CliCore.BuiltinNamesFitSlot, CliCore.Cli.Split |
| cli.c:709-721 | tab looks up the whole of Main up to its first NUL, but a refresh copies a shorter line without its NUL | enter "he", type "hxyz", then the decoded key `CLI_KEY_UP` (0xF1): the line is "he" but Main holds "heyz", so tab finds no command | look up the line itself: "he" completes to "help " | not executed | CliCore.Cli.TabMatchAsWritten, CliCore.StaleWordMissesCompletion | CliCore.Cli.TabMatch, CliKeys.TabCompletesUnique |
| cli.c:717-718 | the completion is redrawn in place, with no blanks over a longer old line | line "helpxy", then tab: the line becomes "help " but the screen shows ">> help y" | refresh the completion from a buffer of its own, which blanks the rest of the old line | not executed | CliCore.Cli.CompleteAsWritten, CliCore.CompletionRedrawLeavesGlyphs | CliCore.Cli.Complete, CliKeys.TabInSync |
