# Verified models of the MUD's self-contained engines

This project models, in Dafny, the parts of the MUD server that keep data structures and file formats of
their own, and proves what they keep over every run. Where the C code changes something in place, the model does
too: the printf engine is a state machine over a buffer, the boards are global arrays that are shifted, the
assembly table is a reallocated array, doors are toggled where they stand. Every such method is proved against a
reference definition on plain values, and the properties are proved about that definition for all inputs.

| Part of the server | Files |
|---|---|
| C text, numerals, scanning, case-insensitive order, arrays with a gap closed or opened | `CText`, `Numerals`, `Scanning`, `Collation`, `Sequences` |
| printf engine (`src/bsd-snprintf.c`) | `PrintfSpec` (tokenizer and renderer), `Printf` (bounded output and renderers), `PrintfMachine` (the eight states, `dopr`, `vsnprintf`), `PrintfLaws` (what the output denotes, and when it is what ISO/IEC 9899:1999 asks for), `PrintfTexts` (what each part of a format puts into the output) |
| Bulletin boards (`src/boards.c`) | `BoardSpec` (boards as sequences of posts), `BoardRuns` (every interleaving), `BoardLimits` (when slots run out), `BoardSlots` (the shared slot allocator), `BoardFiles` (saving and loading), `BoardDisk` (what a run leaves in the files), `BoardLaws` (what readers are shown before and after each operation), `Boards` (the arrays) |
| Assemblies (`src/assemblies.c`, `src/assedit.c`) | `AssemblySpec` (sorted table and finite map), `Assemblies` (the table in memory), `AssemblyParts` (consuming components), `AssemblyFile` (the text file), `AssemblyReboot` (what booting makes of any file and of saved tables), `AssemblyEditor` |
| Command list and introductions (`src/act.social.c`) | `CommandList`, `Introductions`, `Greetings` (over all players) |
| Help, aliases, snooping and switching, doors | `Help`, `AliasFile`, `Snooping`, `DoorSpec`, `Doors` |

`dafny verify dfyconfig.toml` checks everything.

## Properties that the code does not have

Some promises fail for the code as written. Each has a lemma that says exactly when the code meets it.

- An integer directive prints what section 7.19.6.1 of ISO/IEC 9899:1999 asks for exactly when `h` would not change the
  value, the number fits in nineteen digits, it is not a zero with precision zero, and the padding agrees: either
  the width adds nothing, or it is not negative and the zero flag meets neither left justification nor a
  precision. The alternate form, which the engine ignores, is wrong for every nonzero hexadecimal number, and for an
  octal one unless a padding zero happens to stand where the form wants one (`WrittenIntConforms`, `DirectiveConforms`,
  `IntConforms`).
- A string conforms, for a width that is not negative, exactly when there is no precision or it is at least the width;
  for a negative width, exactly when the characters printed fill it. The engine reads a lone dot as no precision, where the
  standard reads zero: for integers this makes no difference to the engine, and a string then conforms exactly when
  only spaces come out and as many as the width asks for (`WrittenStrConforms`, `StrConforms`).
- The largest unsigned long loses its leading digit (`LargestUnsignedWrong`). A pointer from 2^63 on is printed as a
  negative number (`PointerText`).
- `vsnprintf` returns the length of the whole text, which section 7.19.6.5 asks for, exactly when the text fits and no
  `%c` gets a multiple of 256 (`LengthReturnedIff`).
- A number printed with the zero flag has the length its field asks for except in one case (`IntTextLength`).
- A write without headline keeps its slot for ever. Up to five of these are harmless (`NonFullWriteStarts`). Six are not:
  a board with room can refuse a headline, and this is reached from empty boards (`SixAbandonedStop`,
  `SixAbandonedReached`). Enough of them stop all boards although every board is empty (`BlankWritesExhaust`).
- A headline keeps 81 characters, one more than the comment beside it says (`HeadlineShows`).
- A board file with a message that was saved without text loads to unsound slots, and only such a file does
  (`LoadSoundIff`); saving a board while a second author is writing makes one (`SavedWhileWriting`).
- The editor's type menu accepts any number (`||` where `&&` was meant, `src/assedit.c:314`). Quitting then loses the
  assembly, and only then (`QuitOnMap`, `TypeElevenLoses`).
- Merging commands and socials runs past the command table unless some command outside the reserved ones, the
  sentinel included, sorts after the last social (`MergeStaysInside`, `LateSocialOverruns`). The sentinel of `cmd_info` has no sort
  key, and a missing key compares equal to everything.
- Nobody is ever found to know a mobile, so its introduction is always added. A list without duplicates stays so in a
  step exactly when the step is not an introduction by a mobile that the list, as far as a full list is
  kept, has already (`StepDistinctIff`), and along a run exactly when no step is (`RunDistinctIff`); a mobile
  that introduces itself twice makes a duplicate (`MobileTwice`). Taking someone out of a list overlooks the second of
  two neighbouring entries, and only that (`PoppedIff`, `EverySecondStays`, `TwinStays`).
- A saved assembly table boots to itself exactly when every type in it is one word that the type search finds at its own
  place and every component has a prototype (`SaveBootIff`). The search makes the word lower case and the
  names not, so a type name with a capital letter is lost (`CapitalLost`).
- The alias file gives back the list exactly when no text starts with white space, no newline comes before the last
  character of a text, and every replacement starts with a space (`RoundTripIff`, `TwoSpacesLost`). Otherwise a wrong text is
  stored before any scan fails (`FirstWrong`).
- Boards that share a file name overwrite each other's file: a finished message survives a restart exactly when the file was
  written last for its own board, or for another one that showed the same row (`ShownIff`). With a file of its own it
  always survives (`FinishedSurvives`).
- A door command looks only at the near side. It leaves something locked and open exactly when the far side would have
  refused it (`LockSoundIff`, `OneSidedLock`); this cannot happen when the two sides agree.

## Model

| member | source | states |
|---|---|---|
| Printf.Sink.Outch | src/bsd-snprintf.c:669-675 | one more character of the intended text; the buffer always holds that text as far as it fits, and nothing past it is written |
| Printf.Sink.Fmtstr | src/bsd-snprintf.c:405-436 | emits the reference text of a string in its field |
| Printf.Sink.Fmtint | src/bsd-snprintf.c:440-521 | emits the reference text of an integer for every long, base, width, precision and flags |
| Printf.Sink.Convert | src/bsd-snprintf.c:470-480 | the digit loop stays within its twenty places and yields, reversed, the last nineteen digits of the numeral |
| Printf.Sink.EmitNumber | src/bsd-snprintf.c:494-520 | spaces, sign, zeros, digits, spaces, in that order, whichever side is padded |
| PrintfMachine.Machine.StepDefault | src/bsd-snprintf.c:179-185 | a literal is written as it is (PlainPrefix says what the reference text of a literal is) or a directive begins; output stays on the way to the reference text |
| PrintfMachine.Machine.StepFlags | src/bsd-snprintf.c:186-212 | what has been read of the directive stays a prefix of what the tokenizer makes of it |
| PrintfMachine.Machine.StepMin | src/bsd-snprintf.c:213-223 | the width read so far is the decimal value of its digits, or the next argument after a star |
| PrintfMachine.Machine.StepDot | src/bsd-snprintf.c:224-230 | a dot starts a precision; otherwise the precision is absent |
| PrintfMachine.Machine.StepMax | src/bsd-snprintf.c:231-243 | the precision read so far is the decimal value of its digits, or the next argument after a star |
| PrintfMachine.Machine.StepMod | src/bsd-snprintf.c:244-270 | the length modifier is the one that the tokenizer finds |
| PrintfMachine.Machine.Convert | src/bsd-snprintf.c:272-387 | a conversion consumes exactly its argument and emits its reference text, strings being cut to the capacity when they have no precision |
| PrintfMachine.Machine.StepConv | src/bsd-snprintf.c:271-392 | after a conversion the machine is back between directives with all its variables clear and still on the way to the reference text |
| PrintfMachine.Machine.Run | src/bsd-snprintf.c:174-398 | the loop terminates, by position and state, and has written the whole reference text or filled the buffer with its beginning |
| PrintfMachine.CutStillFull | src/bsd-snprintf.c:350-355 | a string cut to the capacity fills the buffer just as the whole string does |
| PrintfMachine.Dopr | src/bsd-snprintf.c:158-403 | for every format, arguments and capacity of at least one, exactly the first maxlen - 1 characters of the text of the format are written, then the terminator, and no other place changes; what that text is, part by part, is said by PrintfTexts and by the conformance lemmas |
| PrintfMachine.Vsnprintf | src/bsd-snprintf.c:679-686 | returns the length of the string left in the buffer, which is below the capacity |
| PrintfMachine.LengthReturnedIff | src/bsd-snprintf.c:679-686 | if and only if: when the value returned is the length of the whole text, in terms of the call |
| PrintfLaws.TextNulIff | src/bsd-snprintf.c:347-349 | if and only if: when the text of a format has a NUL |
| PrintfMachine.TruncationIsPrefix | src/bsd-snprintf.c:399-402 | a smaller buffer shows a prefix of what a larger one shows; the whole text shows exactly when it fits with its terminator |
| PrintfLaws.TokenizeWritten | src/bsd-snprintf.c:179-271 | the tokenizer inverts writing: any unambiguous sequence of literals and directives, written out, is read back |
| PrintfLaws.DigitsDenote | src/bsd-snprintf.c:470-480 | the digits are the last nineteen of the numeral and denote the word modulo base^19, exact if and only if the word is below base^19 |
| PrintfLaws.SignedNumbersExact | src/bsd-snprintf.c:455-480 | every signed decimal or hexadecimal long is exact, the smallest one included |
| PrintfLaws.LargestUnsignedWrong | src/bsd-snprintf.c:470-480 | a concrete value that loses its leading digit |
| PrintfLaws.IntTextLength | src/bsd-snprintf.c:482-491 | the text has length max(min, sign + max(max, digits)) unless the zero flag meets a precision that adds zeros and a larger width, and only then not |
| PrintfLaws.IntTextReadsBack | src/bsd-snprintf.c:440-521 | with its spaces stripped, a signed decimal or hexadecimal reads back as the value, whatever the field and the flags |
| PrintfLaws.IntConforms | src/bsd-snprintf.c:440-521 | if and only if: when an integer comes out as the C99 text for its flags, the alternate form included, its width and its precision |
| PrintfLaws.DirectiveConforms | src/bsd-snprintf.c:273-322 | if and only if: when a whole d, i, o, u, x or X directive with any length modifier prints what C99 asks for its argument |
| PrintfLaws.WrittenIntConforms | src/bsd-snprintf.c:179-322 | if and only if: the same for the directive as written, with its flags, star or digits or lone dot, and all its arguments |
| PrintfLaws.StrConforms | src/bsd-snprintf.c:405-436 | if and only if: when a string comes out as the C99 text for its width and precision |
| PrintfLaws.WrittenStrConforms | src/bsd-snprintf.c:179-355 | if and only if: when a string directive as written, a lone dot included, prints what C99 asks for |
| PrintfTexts.PlainPrefix | src/bsd-snprintf.c:179-185 | text without a percent sign comes out as it is, before whatever follows it, and takes no argument |
| PrintfTexts.PlainText | src/bsd-snprintf.c:179-185 | a format without a percent sign is its own text |
| PrintfTexts.DirectiveFirst | src/bsd-snprintf.c:174-398 | the text of a format is that of its first directive, then that of the rest with the arguments left: one is taken for each star, and one for a value; if and only if: when the caller has supplied what a format asks for |
| PrintfTexts.PercentText | src/bsd-snprintf.c:379-381 | a percent conversion prints the percent sign, whatever flags and fields it has |
| PrintfTexts.NothingText | src/bsd-snprintf.c:331-346 | floating point with an exponent, unknown conversions and directives cut off by the end print nothing |
| PrintfTexts.CharText | src/bsd-snprintf.c:347-349 | one character, the argument cut to eight bits |
| PrintfTexts.PointerText | src/bsd-snprintf.c:356-359 | a pointer reads back in base sixteen, in small letters, less 2^64 from 2^63 on |
| PrintfTexts.NullText | src/bsd-snprintf.c:411-413 | a null string prints as the string <NULL> would in the same field |
| PrintfTexts.StrTextCut | src/bsd-snprintf.c:415-436 | a precision shows the beginning of the padded string; without one the whole string stands at the right of its field, or at the left with a minus |
| PrintfTexts.IntTextExact | src/bsd-snprintf.c:482-521 | the text of an integer in every case: zeros filling the field under the zero flag, the layout of the standard without it, no width if it is negative |
| PrintfTexts.IntTextCase | src/bsd-snprintf.c:470-475 | digits are those of the alphabet in the case asked for |
| PrintfTexts.StarOverrides | src/bsd-snprintf.c:213-243 | a star overrides the digits before it, in width and precision |
| PrintfTexts.QuadIsLongLong | src/bsd-snprintf.c:250-261 | the modifier q is read like ll |
| PrintfTexts.CutOff | src/bsd-snprintf.c:175-176 | a format that ends inside a directive is read and prints nothing for it |
| Numerals.NumeralDenotes | src/bsd-snprintf.c:470-475 | repeated remainder and division give a numeral that denotes the number |
| Numerals.NumeralCase | src/bsd-snprintf.c:470-475 | the characters are the sixteen digits, letters in the case asked for |
| Numerals.ValueOfConcat | src/bsd-snprintf.c:213-216 | positional notation: the value of digits in a row, cut anywhere |
| Numerals.NumeralLength | src/bsd-snprintf.c:475-477 | a number has at most k digits exactly when it is below base^k |
| BoardRuns.StepKeepsInv | src/boards.c:231-465 | one operation of anyone keeps posts distinct, boards within bounds, and every post under edit on its board |
| BoardRuns.RunKeepsInv | src/boards.c:231-465 | the same over every interleaving of writes, edits, finished edits, lost links and removals on all boards |
| BoardRuns.StepKeepsDraft | src/boards.c:433-438 | whatever others do, a post under edit is not removed, and its heading and level stay |
| BoardRuns.RunKeepsDraft | src/boards.c:284-289 | over any operations of others, a draft holds exactly what its author typed and its post is still there |
| BoardRuns.LateTextLands | src/boards.c:284-289 | text finished after any removals by others lands on its own message, on its own board, once |
| BoardLaws.LateTextShown | src/boards.c:363-382 | a message begun on a board and finished after any operations of others is shown there to whoever reads it: under its heading, with the text its author typed last |
| BoardLaws.DisplayShows | src/boards.c:337-385 | reading message k shows heading and text of row k, counted from one, or says that the board is empty, there is no such message, or it has no text |
| BoardLaws.WriteShows | src/boards.c:231-290 | a headline on a board with room appends one row without text, when a slot is left; otherwise readers see no difference, and a blank headline has used up a slot; other boards show what they showed |
| BoardLaws.EditShows | src/modify.c:602-785 | text typed, or finished, shows on the message being written and on no other, an empty one as the fixed phrase |
| BoardLaws.HangupShows | src/comm.c:1951-2000 | a lost link changes nothing that readers see, and its message can then be removed |
| BoardLaws.RemoveShows | src/boards.c:388-465 | removal takes out row k and no other, unless it is being written, and the file of the board shows the rows left |
| BoardLaws.FileShows | src/boards.c:484-515 | a file and a board have their messages in the same order |
| BoardLaws.HeadlineShows | src/boards.c:250-256 | what was typed, without blanks in front, with doubled dollar signs single again, cut to 81 characters |
| BoardLaws.DollarRun | src/interpreter.c:1318-1343 | of a run of dollar signs half stay, rounded up |
| BoardLaws.BlankIff | src/boards.c:258-261 | if and only if: when an argument is no headline |
| BoardLimits.NonFullWriteStarts | src/boards.h:15 | with at most five abandoned writes, a headline on a board that is not full always finds a slot |
| BoardLimits.SixAbandonedStop | src/boards.h:15 | the bound is sharp: with six abandoned writes the last place on the boards cannot be used |
| BoardLimits.SixAbandonedReached | src/boards.c:242-261 | a run from empty boards ends there |
| BoardLimits.BlankWritesExhaust | src/boards.c:246-261 | blank headlines alone use up every slot of empty boards |
| BoardSlots.TakenCount | src/boards.c:133-143 | slots taken are live messages plus abandoned writes: find_slot fails exactly when these fill the table |
| BoardSlots.SlotToPost | src/boards.c:246-289 | giving a free slot to a message keeps slots distinct, in range and marked, and free slots without text |
| BoardSlots.SlotLost | src/boards.c:246-261 | a write abandoned after allocation leaves its slot marked and in nobody's hands |
| BoardSlots.SlotFreed | src/boards.c:440-443 | a removed message gives back its slot, without text, and no other message's |
| BoardFiles.SaveLoadRoundTrip | src/boards.c:484-550 | what a file holds for a board shows its headings, levels and texts in order; the property of the arrays is SaveAndBoot below |
| BoardFiles.LoadedFresh | src/boards.c:540-551 | entries with text get slots that were free, all different |
| BoardFiles.LoadedTaken | src/boards.c:540-551 | after loading exactly the slots marked before and those of entries with text are marked |
| BoardFiles.LoadSoundIff | src/boards.c:530-552 | if and only if every entry has text, the loaded entries own distinct marked slots that no other board uses |
| BoardFiles.StaleSlot | src/boards.c:530-540 | an entry without text keeps the slot number it had when it was saved |
| BoardFiles.SavedWhileWriting | src/boards.c:489-496 | a concrete run whose saved file loads to unsound slots |
| Boards.BoardSystem.Clear | src/boards.c:161-184 | the cleared arrays stand for empty boards and free slots |
| Boards.BoardSystem.FindSlot | src/boards.c:133-143 | the first free slot, which is then marked, or -1 and nothing changes |
| Boards.BoardSystem.Write | src/boards.c:231-290 | on the arrays, a write appends one entry on its board with the cut headline, or fails for the reason given, and no other board changes |
| Boards.BoardSystem.Edit | src/modify.c:602-630 | text stored through a descriptor's pointer goes to that descriptor's message only |
| Boards.BoardSystem.Finish | src/modify.c:632-785 | the end of an edit fixes the text, an empty one becoming a fixed phrase, saves that board's file only, and drops the pointer |
| Boards.BoardSystem.Hangup | src/comm.c:1951-2000 | a lost link drops the pointer and leaves message and slot |
| Boards.BoardSystem.Save | src/boards.c:468-505 | the file holds exactly the board's entries; an empty board has no file |
| Boards.BoardSystem.Load | src/boards.c:508-556 | entries with text come back as the saved posts in fresh slots; all other boards are untouched |
| Boards.BoardSystem.Boot | src/boards.c:161-184 | after start-up every board shows its file, in distinct marked slots, and nobody is writing |
| Boards.BoardSystem.SaveAndBoot | src/boards.c:468-556 | a board is saved and the boards start again: every board with that file shows the same headings, levels and texts in order, in fresh distinct slots, and the others show their own files |
| Boards.BoardSystem.Remove | src/boards.c:388-465 | removing message k deletes exactly entry k and saves the board, unless its author is still writing |
| Boards.BoardSystem.Shift | src/boards.c:453-458 | the later entries of one board move down one place |
| Boards.BoardSystem.Display | src/boards.c:337-385 | reading message k on the arrays shows heading and text of entry k, counted from one, or says what is missing |
| Boards.BoardSystem.Do | src/boards.c:231-465 | one operation on the arrays is one step on the posts, a descriptor that is writing starting no second message, and every file shows what the step leaves in it |
| Boards.BoardSystem.Obey | src/boards.c:231-465 | any operations of anyone, in turn, on the arrays are a run on the posts and on the files |
| Boards.BoardSystem.ObeyAndBoot | src/boards.c:161-556 | after any run and a restart every board shows what its file was left with |
| BoardDisk.LastSaveShows | src/boards.c:468-505 | after any run a file shows the board saved to it last, as it was then |
| BoardDisk.ShownIff | src/boards.c:468-505 | if and only if: when a finished message that is still on its board is in its file after a run |
| BoardDisk.FinishShows | src/modify.c:678-733 | finishing a message puts it in its file, heading, level and text, and nobody is writing it any more |
| BoardDisk.FinishedSurvives | src/boards.c:468-505 | on a board with a file of its own a finished message that is not removed is in the file after any run |
| Boards.StartedState | src/boards.c:246-289 | a started write keeps slots, texts and pointers of all other messages in agreement with the posts |
| Boards.EditedState | src/boards.c:284-286 | storing through a pointer changes one post although entries have been shifted since |
| Boards.RemovedState | src/boards.c:440-460 | freeing a slot and shifting keeps every other entry and every pointer in agreement with the posts |
| Boards.BusySlot | src/boards.c:433-438 | the search through descriptors finds the slot exactly when the message is being written |
| Boards.NoSlotLeft | src/boards.c:246-250 | the allocator reports failure exactly when messages and abandoned writes fill the table |
| AssemblySpec.MapDeterminesTable | src/assemblies.c:321-378 | an ascending table is determined by its finite map: every assembly has one right place |
| AssemblySpec.CreateOnMap | src/assemblies.c:321-378 | create adds one fresh key with no components exactly when vnum and type are in range and the vnum is new, and keeps the table ascending |
| AssemblySpec.DestroyOnMap | src/assemblies.c:380-422 | destroy removes exactly one key, and succeeds exactly when it is there |
| AssemblySpec.AddOnMap | src/assemblies.c:203-249 | a component is appended exactly when assembly and prototype exist and it is not listed yet |
| AssemblySpec.RemoveOnMap | src/assemblies.c:437-475 | a component is cut out, the others in order, exactly when it is listed |
| AssemblySpec.RunOnMap | src/assemblies.c:203-475 | after any run the table is strictly ascending, component lists are duplicate-free, and it stands for the map the same run makes |
| Assemblies.Engine.GetIndex | src/assemblies.c:524-545 | the bisection that may overshoot agrees with linear search and stays in the table |
| Assemblies.Engine.GetPtr | src/assemblies.c:563-574 | lookup on any table, also none |
| Assemblies.Engine.FindPlace | src/assemblies.c:338-357 | despite overshoot and truncating division, the place found is the number of smaller vnums, or the vnum is there |
| Assemblies.RankIs | src/assemblies.c:356-357 | a place with only smaller vnums before it and only larger ones after is the rank |
| Assemblies.Engine.Create | src/assemblies.c:321-378 | the reallocated table holds the old rows and the new one at its place |
| Assemblies.Engine.Destroy | src/assemblies.c:380-422 | the reallocated table holds the other rows, or there is no table |
| Assemblies.Engine.FindComponent | src/assemblies.c:547-561 | the first component with this vnum, or -1 |
| Assemblies.Engine.AddComponent | src/assemblies.c:203-249 | the row's components grow by one at the end, or nothing changes |
| Assemblies.Engine.RemoveComponent | src/assemblies.c:437-475 | the row loses that component, or nothing changes |
| Assemblies.Engine.Obey | src/assemblies.c:203-475 | any operations in turn on the table in memory are a run |
| AssemblyParts.Collect | src/assemblies.c:277-300 | the first loop succeeds exactly when every component has a prototype and lies in its place; what it took and what is left make up the original lists |
| AssemblyParts.Settle | src/assemblies.c:303-314 | the second loop accounts for every object taken, at both places |
| AssemblyParts.FirstUnchanged | src/assemblies.c:285-297 | taking one component does not change which object serves another |
| AssemblyParts.FirstIs | src/assemblies.c:285-294 | the object found is the first of its vnum, and the others stay in order; none is found exactly when none has the vnum |
| AssemblyParts.TakenIs | src/assemblies.c:303-309 | what is used up is, of each component that has to be used up there, the first object of its vnum, once |
| AssemblyParts.SettledAll | src/assemblies.c:303-314 | at the end only what is used up is missing |
| AssemblyParts.CheckComponents | src/assemblies.c:251-319 | all or nothing: succeeds exactly when every component is present; on failure the same objects in room and inventory, on success exactly the extracted ones gone |
| AssemblyFile.Save | src/assemblies.c:110-144 | the lines written, one block for each assembly, blank lines between |
| AssemblyFile.Boot | src/assemblies.c:34-108 | the table after any file is what its lines, taken one by one, make of it; what one line does is said by RejectedVnum, RefusedIff, ComponentRead and OtherLine |
| AssemblyFile.BootOne | src/assemblies.c:54-106 | one line on the table in memory; after a vnum line no assembly is current exactly when the table is as it was |
| AssemblyReboot.ComponentLineRead | src/assemblies.c:62-70 | a written component line is read back: tag, vnum and both flags |
| AssemblyReboot.VnumLineScan | src/assemblies.c:76-83 | a written vnum line, with any type name, is read back as its tag, its vnum and the first word of the name, or rejected if there is none |
| AssemblyReboot.KindReadIff | src/assemblies.c:84 | if and only if: when a type is read back as it was |
| AssemblyReboot.BootSavedLines | src/assemblies.c:34-144 | for any valid table, type names and prototypes, exactly which assemblies, types and components come back |
| AssemblyReboot.SaveBootIff | src/assemblies.c:34-144 | if and only if: when booting what was saved rebuilds the same table |
| AssemblyReboot.SaveBootRoundTrip | src/assemblies.c:34-144 | in particular it does for type names that are distinct lower-case words, when all prototypes exist |
| AssemblyReboot.CapitalLost | src/assemblies.c:84-89 | a concrete table and type name that are not read back |
| AssemblyReboot.BootAllOk | src/assemblies.c:54-106 | any file, however malformed, boots to a valid table |
| AssemblyReboot.RejectedVnum | src/assemblies.c:76-95 | a vnum line either leaves the table as it is, and then no assembly is current, or makes the assembly that is current from then on, which was not there before |
| AssemblyReboot.RefusedIff | src/assemblies.c:76-95 | if and only if: when a vnum line is refused: unreadable, no such type, a vnum below zero, or a vnum that the table has |
| AssemblyReboot.ComponentRead | src/assemblies.c:62-75 | a component line with three numbers adds its component with both flags cut to a char, others have no effect |
| AssemblyReboot.OtherLine | src/assemblies.c:56-103 | comments, blank lines and lines with other tags have no effect |
| Scanning.ScanPlus | src/assemblies.c:64 | a plus before a number changes nothing |
| Scanning.ScanNothing | src/assemblies.c:64 | without a digit after white space and a sign nothing is read |
| AssemblyReboot.SavedSample | src/assemblies.c:125-143 | a concrete table as it is written |
| AssemblyReboot.OrphanComponent | src/assemblies.c:70-75 | with no current assembly a component line has no effect |
| AssemblyReboot.RejectedBlock | src/assemblies.c:62-95 | after a vnum line that left the table as it was, whatever follows it up to the next vnum line attaches to no assembly |
| AssemblyEditor.Setup | src/assedit.c:120-163 | the working copy equals the assembly, if it and its prototype exist |
| AssemblyEditor.Session.AddComponent | src/assedit.c:324-354 | a component with a prototype is appended, extracted and carried, also when it is listed already |
| AssemblyEditor.Session.DeleteComponent | src/assedit.c:368-391 | exactly the component at a valid position goes |
| AssemblyEditor.Session.SetType | src/assedit.c:311-323 | the type becomes the choice less one, cut to an unsigned char, whatever the choice |
| AssemblyEditor.Session.SetFlags | src/assedit.c:393-430 | both flags of one component are set, its vnum stays |
| AssemblyEditor.Session.Quit | src/assedit.c:250-258 | the table becomes what destroying, creating and adding one by one make of it |
| AssemblySpec.KeptVnums | src/assedit.c:252-258 | what is kept lacks a vnum exactly when it has no prototype or was not in the working copy |
| AssemblyEditor.AddAllKeeps | src/assedit.c:252-258 | adding one by one keeps first occurrences in order and drops later duplicates and components without prototype |
| AssemblyEditor.QuitOnMap | src/assedit.c:250-258 | every other assembly is unchanged; the working copy is stored exactly when its type is one of the ten, otherwise the assembly is lost |
| AssemblyEditor.TypeElevenLoses | src/assedit.c:313-315 | a concrete menu answer after which quitting loses the assembly |
| AssemblyEditor.QuitUnedited | src/assedit.c:120-143 | a session without edits is the identity if and only if all components have prototypes |
| Collation.StrCmpTransitive | src/utils.c:431-446 | the case-insensitive comparison is an order |
| Collation.StrCmpSwap | src/utils.c:431-446 | swapping the arguments negates the result |
| Collation.ComparedAt | src/utils.c:431-467 | the comparison gives the difference at the first place where the strings differ, case aside, and zero if that is past the limit |
| Collation.EqualIff | src/utils.c:431-446 | if and only if: when strings compare equal |
| CText.LowerIs | src/utils.h:165 | the capital letters, and nothing else, become the small letters in the same places |
| CText.SpacesAre | src/interpreter.c:1291-1294 | white space is blank, tab, newline, vertical tab, form feed and carriage return |
| Collation.PrefixCompare | src/utils.c:452-467 | comparing over the length of the argument gives zero exactly when the argument begins the keyword |
| Collation.PrefixMonotone | src/utils.c:452-467 | the comparison of a prefix is monotone along the order of the keywords |
| Help.PrefixFacts | src/act.informative.c:1451-1470 | on a sorted table the comparison goes from positive through zero to negative, zero exactly on the keywords that match |
| Help.Search | src/act.informative.c:1447-1470 | the search ends, stays in bounds, and finds the first keyword with that prefix, or none if and only if there is none |
| CommandList.SortSocials | src/act.social.c:441-455 | the socials become sorted and are still the same socials |
| CommandList.MergeInterleaves | src/act.social.c:475-498 | the merged list holds every command and every social once, both in their order |
| CommandList.MergeStands | src/act.social.c:475-498 | if and only if: when a command stands before a social: neither it nor a command before it, the reserved ones aside, sorts after that social |
| CommandList.ReservedFirst | src/act.social.c:482 | reserved commands keep their numbers |
| CommandList.MergeSorted | src/act.social.c:475-498 | past the reserved commands, the merge of sorted commands and sorted socials is sorted |
| CommandList.MergeStaysInside | src/act.social.c:475-498 | if and only if: when the merge stays inside the command table |
| CommandList.LateSocialOverruns | src/act.social.c:475-498 | a concrete command table, with one social that sorts after every command, that is overrun |
| CommandList.MergeLists | src/act.social.c:469-506 | the loop builds the reference list, whose order is that of MergeStands, closes it, and records in every social its place |
| CommandList.CreateCommandList | src/act.social.c:422-508 | sorting and merging together: the table is overrun exactly when it must be; else the list is an interleaving in which a social stands before exactly those commands up to which some command, not reserved, sorts after it; it is sorted if the commands are; a social keeps its position and level |
| CommandList.FindAction | src/act.social.c:70-93 | for ascending numbers, wherever they come from: a social with that number, or -1 if and only if there is none |
| CommandList.FoundIsSource | src/act.social.c:70-93 | after a merge, for every number k: that is the social that entry k came from, or -1 if it came from a command or is no entry |
| CommandList.FindMerged | src/act.social.c:188-196 | find_action on the merged list |
| Introductions.PoppedIff | src/act.social.c:102-124 | if and only if: when taking someone out leaves exactly the others in order; on a duplicate-free list it always does |
| Introductions.EverySecondStays | src/act.social.c:102-124 | of a run of neighbouring entries for one name every second one stays |
| Introductions.OthersConcat | src/act.social.c:102-124 | leaving out one name goes through the list from front to back |
| Introductions.SameIff | src/act.social.c:105-107 | if and only if: when two entries are for the same person |
| Introductions.TwinStays | src/act.social.c:102-124 | a concrete list where one of two entries stays |
| Introductions.GreetMoves | src/act.social.c:167-173 | greeting moves an entry to the recent end and keeps the order of the others; nobody else is forgotten, or, for someone known without an entry, only the oldest |
| Introductions.IntroduceAppends | src/act.social.c:175-186 | an introduction leaves the list alone or makes it the last thirty of the list and the new entry; its subject is known and the list distinct |
| Introductions.StepDistinctIff | src/act.social.c:96-186 | if and only if: when a step keeps a list free of duplicates; always within bounds |
| Introductions.RunDistinctIff | src/act.social.c:96-186 | any run keeps the list within bounds, and free of duplicates all along if and only if no mobile repeats itself |
| Introductions.PushDistinctIff | src/act.social.c:137-165 | if and only if: when adding an entry leaves the list free of duplicates, a full one having lost its oldest |
| Introductions.MobileTwice | src/act.social.c:175-181 | a concrete run that makes a duplicate |
| Introductions.IntroArray.Find | src/act.informative.c:1486-1493 | the search over all places finds exactly the entries of the list |
| Introductions.IntroArray.ShiftDown | src/act.social.c:110-120 | the entries after one place move down, without a gap |
| Introductions.IntroArray.Visit | src/act.social.c:102-124 | one turn of the outer search loop, which goes on one place after an entry it took out |
| Introductions.IntroArray.Pop | src/act.social.c:96-135 | for any list, duplicates included, the array shows what the search leaves, without a gap |
| Introductions.IntroArray.Add | src/act.social.c:137-165 | the array shows the list with the entry at the end; a full one has lost its oldest |
| Introductions.Player.Knows | src/act.informative.c:1476-1495 | who is known: immortals and oneself, and otherwise exactly the entries of the list; mobiles never |
| Introductions.ActGreet | src/act.social.c:167-173 | the listener's array after a greeting |
| Introductions.ActIntro | src/act.social.c:175-186 | both arrays after an introduction: an unknown speaker is added, a mobile always is, and for players who have met it is the speaker's own list that is refreshed |
| Greetings.Perform | src/act.social.c:211-243 | one social, guarded as in do_action: every record of every character afterwards |
| Greetings.NobodyMet | src/act.social.c:211-243 | socials on oneself and socials of immortals change no record |
| Greetings.GreetsMeans | src/act.social.c:167-173 | a greeting moves whoever greets to the recent end of the record of the one greeted, if that one knows him or is an immortal, and changes no other record |
| Greetings.IntroducesMeans | src/act.social.c:175-186 | an introduction adds the speaker, or else moves the other one to the recent end of the speaker's own record; no other record changes |
| Greetings.PerformAll | src/act.social.c:188-247 | any socials of anyone in turn: every record goes through the run of the operations that concern it |
| Greetings.PlayersStayDistinct | src/act.social.c:96-186 | among players no record ever gets a duplicate or grows too long |
| AliasFile.WriteAliases | src/alias.c:22-58 | the characters written for a list, and no file for none |
| AliasFile.WrittenSample | src/alias.c:45-55 | a concrete file |
| AliasFile.ReadAliases | src/alias.c:60-109 | the list that any file determines, by the white-space rules of fscanf and the limits of fgets |
| AliasFile.ReadTextBack | src/alias.c:86-94 | a text that survives is read back whole, also after white space left over |
| AliasFile.ReadTextWrong | src/alias.c:86-94 | any other text is read as something else |
| AliasFile.ReadOneIff | src/alias.c:45-104 | one alias is read back if and only if its texts survive; otherwise scans that succeed store a wrong text |
| AliasFile.RoundTripIff | src/alias.c:45-109 | the whole list is restored if and only if every alias in it survives |
| AliasFile.FirstWrong | src/alias.c:85-106 | when some alias does not survive, those before the first such one are restored and then a wrong text is stored, by scans that succeed |
| AliasFile.TwoSpacesLost | src/alias.c:92-95 | a concrete alias that is not restored |
| Snooping.StopSnooping | src/act.wizard.c:1283-1292 | both ends of the link go, no other link changes |
| Snooping.BegunKeeps | src/act.wizard.c:1336-1340 | dropping one victim for another keeps snoop links two-sided, with nobody snooping himself or his snooper |
| Snooping.Snoop | src/act.wizard.c:1295-1342 | exactly when a snoop begins, in terms of levels and links, which answer is given otherwise, and all links afterwards |
| Snooping.SwitchedKeeps | src/act.wizard.c:1373-1381 | a switch keeps body links two-sided, no body its own original, no body the original of two descriptors, and nobody unswitched in someone's original body |
| Snooping.Switch | src/act.wizard.c:1345-1383 | exactly when a switch succeeds, in terms of bodies, kind and level, and every descriptor and body afterwards |
| Snooping.ThrownOut | src/act.wizard.c:1390-1396 | whoever is thrown out of an original body is another descriptor, who had himself switched |
| Snooping.ReturnedKeeps | src/act.wizard.c:1386-1404 | a return keeps the same links |
| Snooping.Return | src/act.wizard.c:1386-1404 | every descriptor and body after a return, with whoever took the original body disconnected |
| Snooping.Run | src/act.wizard.c:1283-1404 | over every run of snoop, stop, switch and return all links stay consistent, and everyone keeps the body that is his by rights |
| DoorSpec.RevDirInvolution | src/constants.c:1529-1541 | reversing a direction twice gives it back, and no direction is its own reverse |
| DoorSpec.RevDirOpposite | src/constants.c:32-45 | the reverse of a direction is the one that leads the opposite way |
| DoorSpec.TurnedAt | src/act.movement.c:629-660 | a command changes the place acted on and the exit that leads straight back, and nothing else |
| DoorSpec.AgreementConserved | src/act.movement.c:638-672 | a command neither mends nor breaks the agreement of two mutually linked exits, on open and closed or on the lock |
| DoorSpec.StepAgreed | src/act.movement.c:638-672 | all linked exits agree after a command exactly when they agreed before |
| DoorSpec.LockSoundIff | src/act.movement.c:751-796 | if and only if: when a permitted command leaves nothing locked while open |
| DoorSpec.OneSidedLock | src/act.movement.c:638-652 | a concrete pair of rooms where opening leaves the far side locked and open |
| DoorSpec.RunKeepsDoors | src/act.movement.c:617-796 | over every run on any room graph, doors whose sides agree always agree, and then nothing is ever locked while open |
| DoorSpec.UndoneByOpposite | src/act.movement.c:647-672 | the opposite command puts back the whole world, both sides of the door |
| DoorSpec.NamesHold | src/act.movement.c:606-612 | each command does what its name says to the latch acted on, and only to one that is in the opposite state |
| DoorSpec.LockNeedsKey | src/act.movement.c:788-792 | a lock changes only for someone with its key, or for a successful picker of a lock with a keyhole that is not pickproof |
| DoorSpec.LockHolds | src/act.movement.c:788-792 | over any run a lock stays as it is if nobody with the key, and nobody who can pick it, works at either side |
| Doors.StrangersTurnNoLock | src/act.movement.c:751-796 | the same for requests of people: whoever carries and holds no key, is below the gods and cannot pick |
| Doors.HasKey | src/act.movement.c:587-602 | exactly when the key is carried or held |
| Doors.OkPick | src/act.movement.c:705-720 | picking needs a keyhole, a lock that is not pickproof and a successful try; other commands pass |
| Doors.World.Toggle | src/act.movement.c:626-627 | one bit of one exit or container changes |
| Doors.World.FindBack | src/act.movement.c:638-644 | the far side, exactly when its exit leads back |
| Doors.World.DoDoorCmd | src/act.movement.c:629-672 | the exits and containers in memory after the command, both sides |
| Doors.World.GenDoor | src/act.movement.c:751-796 | exactly when a command succeeds, in terms of the latch, of the key carried or held, of the level and of picking; it then does what its name says, on both sides, and otherwise nothing changes |
| Doors.World.Obey | src/act.movement.c:751-796 | any requests of anyone in turn are a run, so agreement is kept and nothing is locked while open |

## Left out

printf

- Floating point (`%f`), `%n` and the unfinished `%w`; `%e` and `%g` are modelled as the code has them: they take an
  argument and print nothing.
- Dopr: widths and precisions are unbounded integers, so formats whose width overflows an `int` (undefined in C)
  come out as if they did not. A format must be supplied with the arguments it asks for.
- Convert: and Dopr do not take `%f`, `%n` and `%w`, as above.
- SignedNumbersExact: the negation of the smallest long is taken to wrap, as machines do; C leaves it undefined.
- `snprintf` itself, which only collects the arguments.

Boards

- Board_reset_board, which frees slots of other boards when slot numbers are stale: corrupt files are not loaded.
- Load: needs an empty board, a file of one to sixty entries and enough free slots. Otherwise the source resets the board.
- Level and ownership guards, the listing of a board, and the defensive tests for missing headings and slot numbers
  out of range, which cannot fire in a valid state. Date and author are a parameter of a write.
- Descriptors that write are taken to be in the playing state.
- The editing commands of `string_add`; an edit replaces the text by any other.
- Several boards share a file name, so a save of one board replaces the file of another: Save and Load are stated for one
  board and the file of that name, and SaveAndBoot for all boards with that name.
- Boot: takes files in which every entry has text; what an entry without text does is LoadSoundIff.

Assemblies

- Numbers in the file are unbounded. Lines are shorter than the 256 characters that `get_line` takes,
  and type names have no line breaks.
- The type names are a parameter: the table `AssemblyTypes` is not part of this model.
- Component lists are sequences instead of reallocated arrays; freeing is not modelled.
- What extracting an object does to its contents; a null character; making the assembled object.
- Quit: does not write the assembly file afterwards, because `Save` covers that.
- Session.DeleteComponent and Session.SetFlags: need a valid position, which the source does not check.
- The stray `+` at `src/assedit.c:344` is read as the end of one assignment and the start of the next.

Command list, introductions, help

- Logging and freeing; the other fields of a command, which travel with it unchanged.
- StrCmp: characters compare by unsigned code, while a plain `char` may be signed; this matters only outside ASCII.
- Names are not empty and do not change during a call. The menus for socials.
- Search: takes the table sorted, as `index_boot` sorts it; arguments without text and paging are not modelled.

Aliases

- The list is a sequence, not a linked list; texts fit the buffer of `MAX_STRING_LENGTH`; replacements are not empty (the
  source reads before its text otherwise).
- ReadAliases: answers None when a scan fails, because what the source then stores is left over in memory. By then, if the
  file was written by the source, a wrong text has been stored already (`FirstWrong`).

Snooping and switching

- `close_socket`, which drops links of its own; messages; the flags that a switched mobile gets.
- Switch: needs a descriptor, which the source reads without a test.

Doors

- Finding the door or the container by name, and messages. Whether an attempt to pick succeeds is a parameter.
- Objects that are not containers are containers that cannot be closed: the commands refuse both alike.

Elsewhere in the server: combat, movement, mail, object handling, scripts and plain exchange sorts, which keep no
invariant of their own or depend on code that is not there.
