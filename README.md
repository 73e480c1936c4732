# ExoFlex HMI core in Dafny

This project models four pieces of logic from the ExoFlex rehabilitation
exoskeleton HMI and proves properties of each:

- **The manual-control page of the web dashboard** (`manual.dfy`, module `Manual`). It has three parts:
  - the decoder that turns the device's 32-bit fault bitmask into the ordered list of registered fault names, and the error panel text built from that list;
  - the rolling buffer of three per-motor series behind the live chart, capped at 100 points, with its pause and play transitions, as the class `MotorBuffer`;
  - the projection of that buffer onto three chart datasets for the selected metric.
- **The command side of the HMI manager on the H7A3ZI board** (`manager_hmi.dfy`, module `ManagerHmi`). It has three parts:
  - the size guard on a received message;
  - the parser. It checks the `{`…`}` framing and splits the body with `strtok` on `;` into at most 30 slots of 19 characters in the global `ParsedMsg[30][20]`, modelled as an `array2` field of the class `Hmi`;
  - the exact-string dispatch tables that call the movement manager. Those calls are modelled as a log `issued` of `MovementCmd` events.
- **The keyword scanner of UART2 on the L432KC board** (`com_utils_uart2.dfy`, module `ComUtilsUart2`).
  - `searchWord` finds the keyword of a 17-entry table whose first occurrence is earliest. Ties go to the earlier table entry.
  - It moves the text after that keyword to the front of the 1024-byte receive buffer, zeroes the vacated bytes and sets the write position.
  - With no keyword, it clears the string.
  - The model is a class `Uart2` with the buffer as an `array<char>`, and loops that stand for `memmove` and `memset`.
- **The profile form of the welcome page** (`welcome.dfy`, module `Welcome`): the ordered validation chain of `validateInput` and the condition that enables the submit button.

There are two shared modules:
- `c_strings.dfy` (module `CStrings`): C strings. A string ends at its first NUL, which is what `strlen`, `strcmp` and `strstr` see.
- `wrappers.dfy` (module `Wrappers`): `Option`.

Modelling choices:
- **Fault bitmask.** The JavaScript test `errorCode & (1 << i)` sees the number as a 32-bit pattern. The model therefore reads bit `i` of `errorCode mod 2^32`.
- **Timestamps.** `Date.now()` is the parameter `now` of `MotorBuffer.Append`.
- **Hook state.** The sample and the socket come from the `useStm32` hook, which is not part of this model. They are parameters too.
- **Firmware buffer.** `ManagerHMI_ReceiveJSON` reads into `buf` through the UART ring buffer. Here the 50 bytes and the size are parameters of `Hmi.ReceiveJson`.

Two details of the chart state:
- **When an append happens.** A sample is appended only while the chart runs, and only when a sample, a socket and both the position and the torque arrays are present (`src/pages/Manual.tsx:107-113`).
- **Initial state.** Each series starts with one placeholder point (`src/pages/Manual.tsx:69-73`). The reset effect discards it on mount, because the page starts unpaused (`src/pages/Manual.tsx:94-102`). `MotorBuffer.constructor` models both steps.

## Model

| member | source | states |
|---|---|---|
| `Manual.DecodeErrorCode` | src/pages/Manual.tsx:82-92 | the 32-step loop returns `Decoded(errorCode)`: the names of the set bits that have a name, pushed in bit order |
| `Manual.BitSet` | src/pages/Manual.tsx:85 | defines `errorCode & (1 << i)` being non-zero: bit i of the code read as a 32-bit pattern, the code taken modulo 2^32 |
| `Manual.Decoded` | src/pages/Manual.tsx:82-92 | defines what `decodeErrorCode` returns: the names of the set bits below 32 that have an entry in `errorMap`, in ascending bit order |
| `Manual.NamedBitsExact` | src/pages/Manual.tsx:84-90 | the collected bit indices are below the bound, each has a name and is set, they strictly ascend, and every set named bit is collected |
| `Manual.NamedBitsSaturate` | src/pages/Manual.tsx:84-90 | bits 26 to 31 never add anything: scanning past bit 25 returns the same indices |
| `Manual.ErrorNamesDistinct` | src/pages/Manual.tsx:35-62 | the 26 registered names are pairwise distinct |
| `Manual.DecodedMembers` | src/pages/Manual.tsx:84-90 | the name of bit i (i < 26) is in the output if and only if bit i is set, and every output element is a registered name |
| `Manual.DecodedAscending` | src/pages/Manual.tsx:84-91 | the output is ordered by ascending bit index and has no repeated name |
| `Manual.DecodedBound` | src/pages/Manual.tsx:84-91 | the output has at most 26 names |
| `Manual.DecodedZero` | src/pages/Manual.tsx:82-92 | `decodeErrorCode(0)` is the empty list |
| `Manual.DecodedBitFour` | src/pages/Manual.tsx:85-87 | `decodeErrorCode(1 << 4)` is exactly `["ERROR_4_LS_EXT_UP"]` |
| `Manual.DecodedAllBits` | src/pages/Manual.tsx:35-62 | with all 32 bits set the output is the full table of 26 names in order; bits 26 to 31 are dropped |
| `Manual.Join` | src/pages/Manual.tsx:78 | `join` gives the empty text for no names, starts with the first name (followed by the separator when more follow) and ends with the last |
| `Manual.ErrorDescription` | src/pages/Manual.tsx:78 | the panel text is empty if and only if no name was decoded, and otherwise starts with the name of the lowest set fault bit |
| `Manual.ErrorDescriptionBlank` | src/pages/Manual.tsx:75-79 | the error panel text is empty if and only if no registered fault bit is set |
| `Manual.ErrorDescriptionZero` | src/pages/Manual.tsx:78 | error code 0 leaves the panel text empty |
| `Manual.Window` | src/pages/Manual.tsx:123 | `slice(-100)` keeps min(n, 100) points and they are the last ones of the input |
| `Manual.MotorBuffer.constructor` | src/pages/Manual.tsx:68-102 | after mounting the chart is unpaused and the one-point placeholders are gone: all three series are empty |
| `Manual.MotorBuffer.Append` | src/pages/Manual.tsx:106-142 | with a sample, a socket, both arrays and no pause, each series becomes the last 100 points of itself plus the point `{now, positions[i], torques[i]}` of its motor; otherwise none of the three changes; the pause flag is unchanged and all three series keep the same length and timestamps |
| `Manual.Appends` | src/pages/Manual.tsx:107-113 | defines the guard of the append effect: a sample, a socket, both arrays present, and the chart not paused |
| `Manual.PointOf` | src/pages/Manual.tsx:114-139 | defines the point a sample adds to motor i's series: the timestamp, `Positions[i]` and `Torques[i]` |
| `Manual.MotorBuffer.Pause` | src/pages/Manual.tsx:181-185 | pausing freezes all three series as they are |
| `Manual.MotorBuffer.Resume` | src/pages/Manual.tsx:94-102 | leaving a pause empties all three series; while the chart runs (the play button is disabled then) nothing changes |
| `Manual.MotorBuffer.ChartData` | src/pages/Manual.tsx:144-162 | three datasets named "Motor 1" to "Motor 3", each as long as its series, point k being the timestamp and the selected reading of point k of that series |
| `Manual.Project` | src/pages/Manual.tsx:149 | the mapped data has one `{x, y}` per point, in order, with `y` the selected reading |
| `Manual.Reading` | src/pages/Manual.tsx:149 | defines `d[graphDataType]`: the position or the torque of a point, as the selected chart type says |
| `Manual.WindowOfWindow` | src/pages/Manual.tsx:123 | cutting to 100 points before appending more and cutting again is the same as cutting once |
| `Manual.FeedKeepsLatest` | src/pages/Manual.tsx:114-140 | appending a stream of points one by one leaves the last 100 of everything appended, in arrival order |
| `Manual.Feed` | src/pages/Manual.tsx:114-140 | defines one series after a stream of appends while running: each point appended, then the series cut to its last 100 |
| `Manual.FeedFull` | src/pages/Manual.tsx:104-139 | after 100 or more appends a series holds exactly the 100 most recent points |
| `ManagerHmi.Hmi.ReceiveJson` | stm32/h7a3zi-q/Manager/Src/Manager_HMI.c:122-133 | a message is parsed and executed only when `0 < size < 50`; then `ParsedMsg` holds its sections, and the issued calls are `Received(buf, size)` |
| `ManagerHmi.Hmi.ParseJson` | stm32/h7a3zi-q/Manager/Src/Manager_HMI.c:135-175 | `ParsedMsg` is cleared and then holds the kept sections (none when the first byte is not `{` or the last received byte is not `}`); the count written back is the prior value on a framing failure, 0 when 30 slots were used, else the section count |
| `ManagerHmi.Hmi.ClearSections` | stm32/h7a3zi-q/Manager/Src/Manager_HMI.c:138 | every byte of `ParsedMsg` is zero |
| `ManagerHmi.Hmi.SplitSections` | stm32/h7a3zi-q/Manager/Src/Manager_HMI.c:148-164 | the loop stores the `strtok` tokens before the first `}`-led one, at most 30, each in its slot, and counts them |
| `ManagerHmi.Hmi.StoreSection` | stm32/h7a3zi-q/Manager/Src/Manager_HMI.c:154-156 | the next slot receives the first 19 characters of the token padded with NUL, the other slots are kept |
| `ManagerHmi.Strtok` | stm32/h7a3zi-q/Manager/Src/Manager_HMI.c:149 | a call skips the leading delimiters, returns the non-empty run of non-`;` characters from there up to the next `;` or the end, and resumes after that one `;`; no token exactly when only delimiters remain |
| `ManagerHmi.TokensAreFields` | stm32/h7a3zi-q/Manager/Src/Manager_HMI.c:149-158 | the successive `strtok` calls return the fields between `;` delimiters, in order, with the empty ones left out (an independent split at every `;`) |
| `ManagerHmi.TokensFrom` | stm32/h7a3zi-q/Manager/Src/Manager_HMI.c:149-158 | defines the tokens that `strtok(NULL, ";")` returns, one call after another, from position p until it returns NULL |
| `ManagerHmi.Tokens` | stm32/h7a3zi-q/Manager/Src/Manager_HMI.c:149-158 | defines the tokens of the whole string, starting with the first `strtok(msg + 1, ";")` call |
| `ManagerHmi.TokenAt` | stm32/h7a3zi-q/Manager/Src/Manager_HMI.c:149-158 | a token that starts at p and ends at a `;` is returned, and the next call resumes after that `;` |
| `ManagerHmi.FinalToken` | stm32/h7a3zi-q/Manager/Src/Manager_HMI.c:149-158 | a token that starts at p and runs to the end of the body is the last one |
| `ManagerHmi.SkippedDelimiter` | stm32/h7a3zi-q/Manager/Src/Manager_HMI.c:149-158 | a `;` at p is skipped: the calls from p return what the calls after it return |
| `ManagerHmi.FieldsAppend` | stm32/h7a3zi-q/Manager/Src/Manager_HMI.c:149-158 | splitting at a delimiter gives the fields of the two sides, one after the other |
| `ManagerHmi.SkipDelimiters` | stm32/h7a3zi-q/Manager/Src/Manager_HMI.c:149 | the first position from i on that is not `;` |
| `ManagerHmi.TokenEnd` | stm32/h7a3zi-q/Manager/Src/Manager_HMI.c:158 | the first position from i on that is `;`, or the end |
| `ManagerHmi.TokensFromShape` | stm32/h7a3zi-q/Manager/Src/Manager_HMI.c:149-158 | every token is non-empty, contains no `;` and only characters of the body |
| `ManagerHmi.TokensFromBound` | stm32/h7a3zi-q/Manager/Src/Manager_HMI.c:149-158 | a body of n characters yields at most (n + 1) / 2 tokens |
| `ManagerHmi.TrailingBrace` | stm32/h7a3zi-q/Manager/Src/Manager_HMI.c:149-163 | when the body ends in `}` the last token ends in `}`, and it is exactly `}` (and so dropped) only when the body is `}` or ends in `;}` |
| `ManagerHmi.BraceField` | stm32/h7a3zi-q/Manager/Src/Manager_HMI.c:149-163 | the same for the last non-empty field of a body that ends in `}` |
| `ManagerHmi.FieldAfterLastDelimiter` | stm32/h7a3zi-q/Manager/Src/Manager_HMI.c:149-158 | the last non-empty field of a body that does not end in `;` is everything after its last `;` |
| `ManagerHmi.KeptStopsAtBrace` | stm32/h7a3zi-q/Manager/Src/Manager_HMI.c:150-164 | the kept sections are the tokens in order, at most 30, none `}`-led, and an early stop happens only at a `}`-led token, which is not counted |
| `ManagerHmi.ClosesMessage` | stm32/h7a3zi-q/Manager/Src/Manager_HMI.c:152 | defines `*ptr == '}'`: a token whose first character is `}` ends the list of sections |
| `ManagerHmi.LeadingSections` | stm32/h7a3zi-q/Manager/Src/Manager_HMI.c:150-163 | defines the tokens the loop takes before it breaks at the first `}`-led token or runs out of tokens |
| `ManagerHmi.Kept` | stm32/h7a3zi-q/Manager/Src/Manager_HMI.c:150-164 | defines the sections stored: the leading ones, cut to 30 by the `sectionCount < SECTION_NBR` test |
| `ManagerHmi.Framed` | stm32/h7a3zi-q/Manager/Src/Manager_HMI.c:141 | defines the framing check: `{` at the first byte and `}` at byte `maxlength - 1` |
| `ManagerHmi.SectionsOf` | stm32/h7a3zi-q/Manager/Src/Manager_HMI.c:138-164 | defines the sections of a received message: none when the framing check fails, otherwise the kept tokens of the C string after the `{` |
| `ManagerHmi.ReportedNbr` | stm32/h7a3zi-q/Manager/Src/Manager_HMI.c:166-174 | defines the count written to `*sectionNbr`: left as it was when the framing check fails, 0 when 30 or more sections were stored, otherwise the number stored |
| `ManagerHmi.LeadingSectionsShape` | stm32/h7a3zi-q/Manager/Src/Manager_HMI.c:150-164 | the sections before the closing token are a prefix of the tokens with no `}`-led token, followed by a `}`-led one or the end |
| `ManagerHmi.ReceivedOfThreeSections` | stm32/h7a3zi-q/Manager/Src/Manager_HMI.c:122-200 | a received message whose three sections fit their slots issues exactly `Commands(mode, action, content, 3)` for them |
| `ManagerHmi.SectionsOfPadded` | stm32/h7a3zi-q/Manager/Src/Manager_HMI.c:138-164 | a framed message padded with NULs in the buffer has as sections the kept non-empty fields of its body |
| `ManagerHmi.PaddedMessage` | stm32/h7a3zi-q/Manager/Src/Manager_HMI.c:141-149 | such a message passes the framing check and `strtok` reads its body up to the padding |
| `ManagerHmi.ReceivedGluedBrace` | stm32/h7a3zi-q/Manager/Src/Manager_HMI.c:122-200 | a received `{a;b;c}` issues what `a`, `b` and `c}`, brace included, select |
| `ManagerHmi.ReceivedSeparateBrace` | stm32/h7a3zi-q/Manager/Src/Manager_HMI.c:122-200 | a received `{a;b;c;}` issues what `a`, `b` and `c` select: the brace token ends the list |
| `ManagerHmi.GoHome1GluedMessage` | stm32/h7a3zi-q/Manager/Src/Manager_HMI.c:122-247 | the message `{Manual;Increment;goHome1}` issues nothing |
| `ManagerHmi.GoHome1SeparateMessage` | stm32/h7a3zi-q/Manager/Src/Manager_HMI.c:122-247 | the message `{Manual;Increment;goHome1;}` sends motor 1 home |
| `ManagerHmi.Row` | stm32/h7a3zi-q/Manager/Src/Manager_HMI.c:154-156 | a slot is 20 bytes: the first 19 characters of its section, then NUL padding |
| `ManagerHmi.RowShape` | stm32/h7a3zi-q/Manager/Src/Manager_HMI.c:154-156 | the last byte of a slot is NUL and `strcmp` reads the section cut to 19 characters |
| `ManagerHmi.Table` | stm32/h7a3zi-q/Manager/Src/Manager_HMI.c:138-157 | the table has 30 slots of 20 bytes; the first ones hold the sections, the others are all zero |
| `ManagerHmi.NoOverflowFromBuffer` | stm32/h7a3zi-q/Manager/Src/Manager_HMI.c:166-174 | a message in the 50-byte buffer yields fewer than 30 sections, so the overflow branch that reports 0 is never taken from `ManagerHMI_ReceiveJSON` |
| `ManagerHmi.Hmi.ExecuteJson` | stm32/h7a3zi-q/Manager/Src/Manager_HMI.c:177-200 | issues `Commands(mode, action, content, n)` for slots 0, 1 and 2 as `strcmp` reads them: nothing below 3 sections, else the manual, plan or control dispatch, with plan size n - 3 |
| `ManagerHmi.Hmi.Section` | stm32/h7a3zi-q/Manager/Src/Manager_HMI.c:181-196 | defines slot i as `strcmp` reads it: the C string of the 20 bytes of `ParsedMsg[i]` |
| `ManagerHmi.Commands` | stm32/h7a3zi-q/Manager/Src/Manager_HMI.c:177-200 | defines what `ManagerHMI_ExecuteJson` issues: nothing below 3 sections; otherwise the dispatch on the mode and action slots to the increment, plan or control commands |
| `ManagerHmi.Received` | stm32/h7a3zi-q/Manager/Src/Manager_HMI.c:122-200 | defines what one `ManagerHMI_ReceiveJSON` issues: nothing unless `0 < size < 50`, otherwise `Commands` of the table built from the parsed sections and the reported count |
| `ManagerHmi.CommandsNeedModeAndAction` | stm32/h7a3zi-q/Manager/Src/Manager_HMI.c:177-200 | something is issued only with 3 or more sections and exactly `Manual`/`Increment` or `Auto` with `Plan` or `Control` |
| `ManagerHmi.Hmi.ExecuteManualIncrement` | stm32/h7a3zi-q/Manager/Src/Manager_HMI.c:202-247 | issues the command of the manual table for the name, or nothing |
| `ManagerHmi.IncrementCommand` | stm32/h7a3zi-q/Manager/Src/Manager_HMI.c:202-247 | defines the movement call the if-chain of `strcmp` tests makes for a name, or none for an unknown name |
| `ManagerHmi.IncrementCases` | stm32/h7a3zi-q/Manager/Src/Manager_HMI.c:204-246 | the manual table lookup equals the source's if/else chain of ten exact comparisons |
| `ManagerHmi.Lookup` | stm32/h7a3zi-q/Manager/Src/Manager_HMI.c:202-247 | a table lookup finds a value if and only if some entry has that exact name, and the value found is that entry's |
| `ManagerHmi.IncrementDispatch` | stm32/h7a3zi-q/Manager/Src/Manager_HMI.c:202-247 | each of the ten names issues its own command, any string that is not one of them issues nothing, and a command identifies its name |
| `ManagerHmi.IncrementTableDistinct` | stm32/h7a3zi-q/Manager/Src/Manager_HMI.c:206-244 | no two manual names, and no two manual commands, are equal |
| `ManagerHmi.Hmi.ExecuteControlCmd` | stm32/h7a3zi-q/Manager/Src/Manager_HMI.c:321-339 | issues the control command for slot 2 (which the function reads directly, ignoring its argument) |
| `ManagerHmi.ControlCommand` | stm32/h7a3zi-q/Manager/Src/Manager_HMI.c:321-339 | defines the call the control chain makes for slot 2: start, next or stop; none for `Pause`, whose call is commented out, or for any other name |
| `ManagerHmi.ControlDispatch` | stm32/h7a3zi-q/Manager/Src/Manager_HMI.c:321-339 | `Start`, `Next` and `Stop` issue their one command, `Pause` issues nothing, and only those three names issue anything |
| `ManagerHmi.BraceGluedContentIssuesNothing` | stm32/h7a3zi-q/Manager/Src/Manager_HMI.c:149-163 | `goHome1` and `Stop` issue their commands while `goHome1}` and `Stop}` (the last token of a message not ending in `;}`) issue nothing |
| `ManagerHmi.Hmi.ExecutePlanCmd` | stm32/h7a3zi-q/Manager/Src/Manager_HMI.c:272-319 | issues `PlanCommands(size)`: one exercise add and one final position per exercise, for exercises 0, 1, … in order |
| `ManagerHmi.PlanSizeCheck` | stm32/h7a3zi-q/Manager/Src/Manager_HMI.c:277-286 | a plan issues anything if and only if `size > 6` and `(size - 6) % 5 == 0`, and then it loads `(size - 6) / 5` exercises |
| `ManagerHmi.PlanExerciseCount` | stm32/h7a3zi-q/Manager/Src/Manager_HMI.c:277-286 | defines the number of exercises a plan of `size` sections carries, or none when the size checks fail |
| `ManagerHmi.PlanCommands` | stm32/h7a3zi-q/Manager/Src/Manager_HMI.c:272-318 | defines the calls of `ManagerHMI_ExecutePlanCmd`: for each exercise in order, add the exercise and then set its final position; nothing for a malformed plan |
| `ManagerHmi.PlanCallsShape` | stm32/h7a3zi-q/Manager/Src/Manager_HMI.c:289-315 | loading n exercises issues 2n calls: add exercise i, then set final position i |
| `ManagerHmi.Hmi.constructor` | stm32/h7a3zi-q/Manager/Src/Manager_HMI.c:25 | `ParsedMsg` starts as 30 by 20 zero bytes and nothing has been issued |
| `ComUtilsUart2.Uart2.SearchWord` | stm32/l432kc/Manager/Src/comUtils_UART2.c:23-81 | with no keyword in the string the result is NULL, the string bytes are zeroed and the position is 0; otherwise the result is the closest keyword, the buffer is the compacted one and the position is the length of the text after the keyword |
| `ComUtilsUart2.CompactAfterClosest` | stm32/l432kc/Manager/Src/comUtils_UART2.c:31-80 | the same over any keyword table and the buffer alone |
| `ComUtilsUart2.ClosestWord` | stm32/l432kc/Manager/Src/comUtils_UART2.c:31-47 | the search loop finds no keyword exactly when none occurs; otherwise the picked keyword occurs first at the picked position, no keyword occurs earlier, and every earlier table entry first occurs strictly later |
| `ComUtilsUart2.IsClosest` | stm32/l432kc/Manager/Src/comUtils_UART2.c:34-47 | defines the keyword the loop picks: found at p, no keyword found earlier, and every keyword before it in the table found strictly later (the strict `<` keeps the first one in a tie) |
| `ComUtilsUart2.FindFrom` | stm32/l432kc/Manager/Src/comUtils_UART2.c:36 | `strstr`: the first position of the word, or NULL when it does not occur |
| `ComUtilsUart2.Find` | stm32/l432kc/Manager/Src/comUtils_UART2.c:36 | defines `strstr(text, word) - text`: the first position of the word in the text, or none for NULL |
| `ComUtilsUart2.ClosestUnique` | stm32/l432kc/Manager/Src/comUtils_UART2.c:34-47 | the pick is determined by the text: two closest keywords are the same keyword at the same place |
| `ComUtilsUart2.GoHome1BeatsGoHome` | stm32/l432kc/Manager/Src/comUtils_UART2.c:25-45 | in a text starting with `goHome1` the pick is `goHome1` (entry 12), not `goHome` (entry 15) found at the same place, because the comparison is strict |
| `ComUtilsUart2.CompactFrom` | stm32/l432kc/Manager/Src/comUtils_UART2.c:52-68 | the text after the keyword is moved to the front, the next `afterPosition` bytes are zeroed, and the result is the length of the moved text |
| `ComUtilsUart2.Compacted` | stm32/l432kc/Manager/Src/comUtils_UART2.c:52-68 | defines the buffer after a match: the text after the keyword moved to the front, `afterPosition` NULs after it, and the bytes past the old string unchanged |
| `ComUtilsUart2.CompactedShape` | stm32/l432kc/Manager/Src/comUtils_UART2.c:52-68 | after a match the buffer starts with the old text after the keyword, the bytes from there up to the old end are zero, the bytes after the old end are untouched and the new string is never longer than the old one |
| `ComUtilsUart2.ClearedShape` | stm32/l432kc/Manager/Src/comUtils_UART2.c:72-78 | clearing zeroes the string, leaves the rest of the buffer and the new string is empty |
| `ComUtilsUart2.Cleared` | stm32/l432kc/Manager/Src/comUtils_UART2.c:75 | defines the buffer when no keyword occurs: the `strlen` bytes of the string set to NUL, the rest unchanged |
| `ComUtilsUart2.CStringSuffix` | stm32/l432kc/Manager/Src/comUtils_UART2.c:58 | `strlen(buf + afterPosition)` is the length of the old text after the keyword |
| `ComUtilsUart2.MoveThenClear` | stm32/l432kc/Manager/Src/comUtils_UART2.c:61-68 | the move followed by the zeroing leaves exactly the compacted buffer |
| `ComUtilsUart2.MemMove` | stm32/l432kc/Manager/Src/comUtils_UART2.c:61-62 | the first `count` bytes become the bytes from `from` on, the rest is unchanged |
| `ComUtilsUart2.MemSet` | stm32/l432kc/Manager/Src/comUtils_UART2.c:68 | `count` bytes from `start` become zero, the rest is unchanged |
| `ComUtilsUart2.Uart2.constructor` | stm32/l432kc/Manager/Src/comUtils_UART2.c:14-18 | the 1024-byte buffer starts zeroed and the position at 0 |
| `CStrings.CString` | stm32/l432kc/Manager/Src/comUtils_UART2.c:58 | a C string is the longest NUL-free prefix of its bytes, ending where the first NUL is |
| `CStrings.Zeros` | stm32/l432kc/Manager/Src/comUtils_UART2.c:68 | defines n NUL bytes, as `memset(p, 0, n)` writes them |
| `Welcome.ValidateInput` | src/pages/Welcome.tsx:218-237 | the result is empty if and only if the length is 4 to 50 and the characters are letters (digits for `PhoneNumber`); an empty value gets "is required", 1 to 3 characters "at least 4", more than 50 "less than 50", then the letters or numbers message, in that order of precedence |
| `Welcome.OnlyLetters` | src/pages/Welcome.tsx:222 | defines `/^[a-zA-ZÀ-ÿ]+$/.test(v)`: at least one character, and every character in the class, with the code points U+00C0 to U+00FF included |
| `Welcome.OnlyDigits` | src/pages/Welcome.tsx:223 | defines `/^[0-9]+$/.test(v)`: at least one character, and every character a decimal digit |
| `Welcome.CharactersAllowed` | src/pages/Welcome.tsx:230-235 | defines the character test a field must pass: digits for `PhoneNumber`, letters for every other field |
| `Welcome.SubmitDisabled` | src/pages/Welcome.tsx:198-203 | the submit button is enabled if and only if all four fields pass validation |
| `Welcome.FiftyCharactersAccepted` | src/pages/Welcome.tsx:227-229 | a value of exactly 50 letters passes |
| `Welcome.LetterClassAdmitsSigns` | src/pages/Welcome.tsx:222 | the range `À-ÿ` of the letter class includes `×` and `÷`, so a name with them passes |
| `Welcome.PhoneNumberSkipsLetterCheck` | src/pages/Welcome.tsx:230-235 | a phone number of valid length with a non-digit gets the numbers message, never the letters one |

## Left out

- `ManagerHMI_SendJSON` (`stm32/h7a3zi-q/Manager/Src/Manager_HMI.c:72-120`) is left out. It builds the status object with cJSON from the movement and motor data and sends the printed text over the UART. Both are foreign library and I/O calls.
- `ManagerHMI_Task` (`stm32/h7a3zi-q/Manager/Src/Manager_HMI.c:60-70`) is left out. It calls `ManagerHMI_ReceiveJSON` on every pass (modelled as `ManagerHmi.Hmi.ReceiveJson`), and it calls `ManagerHMI_SendJSON` when `HAL_GetTick` shows that the timer period has passed. The clock is not modelled.
- `ManagerHMI_Init` (`stm32/h7a3zi-q/Manager/Src/Manager_HMI.c:42-58`) is left out. It registers the cJSON hooks, starts the UART ring buffer and fetches the read-only motor data pointers. Those are foreign calls. It also zeroes `buf`; the model takes `buf` as a parameter of each receive.
- `ManagerHMI_SetMotorDataToString` is only declared (`stm32/h7a3zi-q/Manager/Src/Manager_HMI.c:30`). The file defines no body for it, so there is nothing to model.
- `ManagerHMI_ExecuteManualHoming` is left out because nothing in `Manager_HMI.c` calls it.
- `ManagerHMI_GetStr*` are left out: they only reassign their own local pointer and fill no caller buffer.
- `ManagerHmi.Hmi.ExecutePlanCmd` models only the size check and the calls it makes. The walk of `cmd++` through characters, the `atoi`/`atof` conversions and the exercise kind are left out: they are floating point and pointer arithmetic. The exercise arguments of those calls are not recorded.
- The `ManagerMovement_*` functions are not part of this model. Each call is recorded as a `MovementCmd` in `issued`.
- `PeriphUartRingBuf_ReadJson` is not part of this model, so the received bytes and size are parameters.
- `strtok` writes NUL bytes into the global `buf`, and the next `ManagerHMI_ReceiveJSON` reads the same buffer again. The model takes `buf` as a parameter of each call, so the NULs one parse leaves behind are not carried into the next call, where they could cut a longer message short.
- A message with no NUL in the 50-byte buffer is read up to the end of the buffer. The C code would read past it.
- `ManagerHmi.Hmi.ReceiveJson` takes `size` as a natural number. The `uint32_t` size and the `uint8_t` count are not modelled with their widths; within `0 < size < 50` they cannot wrap.
- `ComUtilsUart2.Uart2.SearchWord` requires a NUL in the buffer. Without one, `strstr` and `strlen` read past the end of the array, which the model does not follow.
- `ComUtilsUart2.Uart2.SearchWord` requires its argument to be the main buffer. The source moves bytes out of `MainBuf_UART2` into the argument, and the model follows only the case where the two are the same buffer.
- `ComUtilsUart2.Uart2.SearchWord` models `newPos_UART2` as a natural number rather than a `uint16_t`. It is below 1024, so it cannot wrap.
- The hardware receive path of the L432KC board (DMA, ring buffer, `TIMEOUT`) is not part of this model.
- The `useStm32` hook and its socket are not part of this model. `errorFromStm32` and the disabling of the manual command buttons come from the hook and are not modelled.
- React rendering, MUI styling, the chart component and the routing are not modelled.
- Login, the Supabase calls, the service worker and the session restore in `App.tsx` are not modelled: they are network and browser APIs.
- `src/context/avatarContext.tsx` and `vite.config.ts` are not modelled.
- Supabase inserts and navigation in `Welcome.tsx` are not modelled.
- The headers of the firmware are declarations only and are not modelled.
- `Manual.MotorBuffer.Append` takes exactly three readings per array, since the firmware always sends three. Arrays of other lengths are not modelled.
- `Manual.MotorBuffer.Append` uses integer positions and torques rather than JavaScript numbers.
- A sample without `ErrorCode` leaves the error panel as it was (`src/pages/Manual.tsx:76`); the model gives the panel text only for a received code, through `Manual.ErrorDescription`.
- `Manual.DecodeErrorCode` takes an integer error code. A non-integer JavaScript value is not modelled.
- `Manual.MotorBuffer.constructor` gives the placeholder points an `x` of 0; the source gives them no `x`. They are discarded by the reset effect on mount in both.
- `Welcome.ValidateInput` counts characters as code points. JavaScript `length` counts UTF-16 units, which differ only outside the Basic Multilingual Plane.
- `ComUtilsUart2.GoHome1BeatsGoHome` and the other keyword lemmas treat characters as bytes. The firmware works on the same ASCII keywords, so nothing differs.
