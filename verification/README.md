# pspssh, verified

Dafny models of the parts of pspssh (an SSH client for the PSP) that hold state and make
promises, with proofs of those promises for every input, every run and every crash.

* **Terminal.** `Screen` is the emulator's state as a value, with each grid operation in
  closed form; `Terminal` is the emulator as a class over a 40 by 80 array, changed in place
  by the loops of `term.c`, and each method is proved to reach the value `Screen` gives.
  `ByteTable` and `SequenceTable` say what every byte and sequence does on the fields and
  cells. `ParserLaws`, `SequenceLaws`, `ScreenLaws` and `TextWindow` prove what the emulator
  is for. The reference in `TextWindow` has no cursor and no scrolling: it cuts lines into rows
  and looks at the last ones.
* **Card.** `Card` is the memory card as a map from paths to bytes whose calls may do less
  than asked or fail; a ghost history holds every state it has been in, so a crash is any
  of them. On it run `cardfile.c` (`CardLaws`: atomic replacement, over any number of
  power losses), `hosts.c` (`Hosts`, `HostStore`) and `knownhosts.c` (`KnownHosts`,
  `KnownMap`, `KnownStore`), and on those the host key policy of `main.c` (`Trust`: trust on
  first use over whole runs, and `HostKeys` for the hosts of the list).
* **Log, encoder, sender.** `Console` proves the 22 by 80 boot log to be a window on an
  endless paper; `Base64` reads RFC 4648 section 4 as a string of bits cut into sixes and
  proves the encoder against that; `SendAll` is the retry loop over an arbitrary channel.
* **Tools.** `Riff` and `Sfo` give the two file formats readers of their own and prove what
  comes back from the files the tools write. `LittleEndian` and `Pieces` serve both.

Where code and documentation part:

* `check_hostkey` says a first sight is remembered either way it is answered
  (`src/psp/main.c:124-126`); it is remembered exactly when it is trusted, there is room and
  its parts fit (`Trust.FirstSightRemembered`), and a refusal stores nothing.
* `knownhosts_forget` promises the address is unknown afterwards
  (`src/psp/knownhosts.h:55-56`); that holds exactly when the key was in the list at most
  once (`KnownMap.ForgottenIsUnknown`), and a load does not merge duplicates.
* `cardfile.h` says a save that died between removing the old file and renaming the new one
  loses nothing (`src/psp/cardfile.h:25-27`). It does when the read at the next start fails:
  `cardfile_read` then answers that there is no file, `hosts_load` returns 0 with an empty
  list, and the next save truncates the only copy (`CardLaws.UnreadTempIsLost`,
  `HostStore.UnreadListIsLost`). The file is back in place but for exactly that
  (`CardLaws.InPlaceExactlyWhenRead`). A file in place is loaded whole or refused with -1;
  the list in memory is then empty, and a server added to it replaces the file
  (`HostStore.AddAfterRefusal`).
* A remembered key is safe through everything but its own forgetting exactly until a load
  is stopped by a read error (`Trust.PinHolds`); `main.c` then goes on with nothing
  remembered (`src/psp/main.c:489-495`), and another key, once trusted, takes its place
  (`Trust.UnreadKeyIsReplaced`).
* A control sequence with more than eight parameters is said to be truncated
  (`src/psp/term.c:17-20`); the digits of the late ones run on in the eighth instead
  (`ParserLaws.LateParamsJoinEighth`), which is truncation exactly when the eighth has
  reached its limit or they are all zero (`ParserLaws.TruncatedExactlyWhen`).

And promises whose exact condition is a theorem here: a write is atomic exactly when
the file it replaces exists or the text is empty (`CardLaws.AtomicExactlyWhenReplacing`); a
host list survives a reload exactly when no name starts with `#`
(`Hosts.ListComesBackWhole`, with a record that is accepted and then lost in
`Hosts.AcceptedThenDropped`); a remembered key survives one exactly when its address does
not start with `#` and its port is real (`KnownHosts.EntryRoundTrip`); a remembered key is
found again exactly when address and fingerprint fit their fields
(`KnownMap.RememberedIsFound`); a forgotten one is unknown exactly when it was there once
(`KnownMap.ForgottenIsUnknown`), and a file can hold it twice (`Trust.DuplicateLoads`).

Premises about the card, all in the contracts of `Card.MemoryCard`: rename fails only when
the source is absent or the target exists; an open for reading fails only when the file is
absent; a write or remove that fails changes nothing; completed calls are durable in order.
A path is short enough that its temporary name is not cut.

## Model

| member | source | states |
|---|---|---|
| Screen.Step | src/psp/term.c:448-564 | whatever the byte and the parser state, the sizes stay within 80 by 40, the cursor in its row (or waiting to wrap), the region inside the grid, at most eight parameters; colours and parameters are in range by type |
| Screen.Run | src/psp/term.c:441-566 | the same after every byte string |
| Screen.SizeIsClamped | src/psp/term.c:83-84 | the size is the argument brought between 1 and the maximum exactly when it is not below 1; below, it is the maximum |
| Terminal.Emulator.TermReset | src/psp/term.c:79-105 | the whole state after a reset to any two sizes, from any state |
| Terminal.Emulator.TermAt | src/psp/term.c:112-118 | a cell exactly for coordinates inside the grid, and it is that cell |
| Terminal.Emulator.TakeBell | src/psp/term.c:120-126 | says whether the bell rang, silences it, and changes nothing else |
| Terminal.Emulator.BlankRowAt | src/psp/term.c:60-77 | the visible columns of one row blank in the current background, every other cell as it was |
| Terminal.Emulator.ScrollRegionUp | src/psp/term.c:130-141 | the row-by-row loops, for any count, are one shift of the region by that count with blank rows coming in |
| Terminal.Emulator.ScrollRegionDown | src/psp/term.c:143-154 | the same downwards |
| Terminal.Emulator.LineFeedHere | src/psp/term.c:156-163 | scrolls at the bottom of the region, moves down otherwise, stops at the last row |
| Terminal.Emulator.PutCharacter | src/psp/term.c:167-188 | a pending wrap happens first; then the one cell under the cursor has the character in the pen's colours |
| Terminal.Emulator.Place | src/psp/term.c:209-215 | the cursor clamped onto the grid, nothing else changed |
| Terminal.Emulator.EraseInDisplay | src/psp/term.c:217-243 | exactly the cells the mode reaches are blank, the others as they were |
| Terminal.Emulator.EraseInLine | src/psp/term.c:245-262 | the same on the cursor's row |
| Terminal.Emulator.EraseSpan | src/psp/term.c:401-409 | the same for a count of cells |
| Terminal.Emulator.DeleteCharsHere | src/psp/term.c:264-275 | the in-place loop shifts the rest of the row left without losing a cell it still needs |
| Terminal.Emulator.InsertCharsHere | src/psp/term.c:277-288 | the in-place loop, from the right, shifts the rest of the row right |
| Terminal.Emulator.InsertLinesHere | src/psp/term.c:372-384 | a shift of the rows from the cursor to the region's bottom; the region itself is restored |
| Terminal.Emulator.DeleteLinesHere | src/psp/term.c:385-394 | the same upwards |
| Terminal.Emulator.ApplySgrHere | src/psp/term.c:290-348 | the parameters act on the pen one after the other, 256-colour triples as one |
| Terminal.Emulator.SetRegionHere | src/psp/term.c:413-425 | the new region, or the whole screen when the values are out of order or range, and the cursor at its top left |
| Terminal.Emulator.TabForward | src/psp/term.c:460-468 | the loop of spaces reaches the tab stop, writes only the cells it crosses, and never wraps |
| Terminal.Emulator.DispatchCsi | src/psp/term.c:350-437 | the in-place state goes to the value the specification gives for every final byte; what that is, on the fields and cells, is in the rows of `SequenceTable` |
| Terminal.Emulator.FeedByte | src/psp/term.c:448-564 | one byte takes the in-place state to the value `Screen.Step` gives |
| Terminal.Emulator.TermFeed | src/psp/term.c:441-566 | every byte string, in whatever state the parser was left, takes the state to `Screen.Run` of it, every grid and register access in bounds |
| ByteTable.PenTable | src/psp/term.c:60-68 | the colours of a written and of an erased cell for every pen, bold and reverse included |
| ByteTable.CharTable | src/psp/term.c:179-187 | a printable byte inside the row: that one cell, in the pen's colours, and the cursor one on |
| ByteTable.WrapTable | src/psp/term.c:171-177 | with the wrap pending it is the same as after a carriage return and a line feed |
| ByteTable.ControlTable | src/psp/term.c:449-477 | LF, CR, BS and BEL field by field; every other control byte and DEL do nothing |
| ByteTable.TabTable | src/psp/term.c:460-468 | HT writes spaces in the pen's colours up to the next multiple of eight or the last column, and nothing from there on |
| ByteTable.ReverseTable | src/psp/term.c:490-498 | `ESC M` goes up, or at the region's top moves its rows down by one |
| ByteTable.IndexTable | src/psp/term.c:499-501 | `ESC D` is a line feed |
| ByteTable.NextLineTable | src/psp/term.c:502-505 | `ESC E` is a carriage return and a line feed |
| ByteTable.ResetTable | src/psp/term.c:79-105 | every field and visible cell after a reset, columns and rows each in range or at the maximum |
| ByteTable.ResetSequence | src/psp/term.c:506-507 | the same after `ESC c`, at the size it had |
| ByteTable.CharsetTable | src/psp/term.c:488-489 | a character set selection is swallowed with the byte after it, and changes nothing at all |
| ByteTable.OtherEscapeTable | src/psp/term.c:508-510 | so is every escape that is not known |
| SequenceTable.CursorTable | src/psp/term.c:353-367 | where the cursor is after `A` to `G`, `d`, `H` and `f`, by row and column, for any digits (zero counts as one) and for none; nothing else shown changes |
| SequenceTable.PositionTable | src/psp/term.c:362-367 | the same for `H` and `f` with two numbers |
| SequenceTable.EditTable | src/psp/term.c:372-409 | every cell after `@`, `P`, `X`, `S`, `T`, `L` and `M`, for any digits and for none, in terms of the cells before; nothing else shown changes |
| SequenceTable.EraseTable | src/psp/term.c:217-262 | every cell after `J` and `K` in every mode and in none |
| SequenceTable.RegionTable | src/psp/term.c:413-425 | the region after `r` with two, one or no number: the one asked for when in order and on the screen, else all of it, and the cursor |
| SequenceTable.PenCodeTable | src/psp/term.c:290-326 | the pen after every single SGR code, known or not, and after none |
| SequenceTable.SgrInTurn | src/psp/term.c:299-344 | several codes act one after the other, an indexed colour taking three |
| SequenceTable.UnknownTable | src/psp/term.c:430-434 | a final byte that is not known does nothing that shows |
| SequenceTable.MarkerTable | src/psp/term.c:534-541 | private markers and intermediate bytes are consumed |
| ParserLaws.RunConcat | src/psp/term.h:49-52 | feeding two pieces is feeding their concatenation, cut anywhere |
| ParserLaws.AnyChunking | src/psp/term.h:49-52 | any two ways of cutting one stream into packets end in the same state |
| ParserLaws.SilentOsc | src/psp/term.c:544-558 | a title of any payload without BEL or ESC, ended by BEL or ST, leaves the whole state as it was, bell and registers included |
| ParserLaws.OscEscapeHidesBell | src/psp/term.c:555-558 | inside a title ESC swallows a BEL, and the title goes on |
| ParserLaws.TextIsConfined | src/psp/term.c:156-188 | any bytes without ESC, from inside the region, leave the rows outside it and the region itself unchanged and the cursor inside |
| ParserLaws.DigitsSaturate | src/psp/term.c:514-528 | digits of any number put the smaller of 9999 and the value in the current slot, without overflow |
| ParserLaws.ParamsRoundTrip | src/psp/term.c:513-538 | one to eight digit strings of any length joined by `;` fill exactly the slots with their values cut at 9999 |
| ParserLaws.LateParamsJoinEighth | src/psp/term.c:514-533 | eight parameters or any number more: the first seven fill their slots, the digits of all later ones run together in the eighth |
| ParserLaws.TruncatedExactlyWhen | src/psp/term.c:17-20 | more than eight parameters are read as the first eight if and only if the eighth has reached 9999 or it and all later ones are zero |
| ParserLaws.LeadingEmptyParamIsLost | src/psp/term.c:529-533 | after `ESC [ ; n H` the n is the row |
| ParserLaws.CsiRun | src/psp/term.c:513-538 | a whole control sequence is its final byte's action with exactly these parameters |
| ParserLaws.CursorAddress | src/psp/term.c:362-367 | `ESC [ r ; c H` for numbers of any size puts the cursor at both clamped, grid and pen unchanged |
| SequenceLaws.PenRoundTrip | src/psp/term.c:290-348 | for every pen the sequence that asks for it gives exactly that pen, from any pen before, and changes nothing else shown |
| SequenceLaws.IndexedColour | src/psp/term.c:327-344 | a 256-colour sequence changes one colour, the low sixteen straight, the rest to two greys |
| SequenceLaws.RegionConfines | src/psp/term.c:413-425 | after `ESC [ t ; b r` any text without ESC leaves every row outside alone and the cursor inside |
| SequenceLaws.EraseSequencesCut | src/psp/term.c:369-369 | as bytes, `ESC [ J` blanks exactly the cells at or after the cursor and `ESC [ 1 J` those at or before it, and nothing else shown changes |
| SequenceLaws.EraseSequencesMakeWhole | src/psp/term.c:369-369 | the sequences for the two halves, in either order, and the one for mode 2 leave a blank grid |
| SequenceLaws.EraseSequencesMakeLine | src/psp/term.c:370-370 | the two sequences for the halves of the line, in either order, blank exactly the cursor's row |
| SequenceLaws.SavedIsKept | src/psp/term.c:427-428 | no byte string that does not save again or reset changes the saved position |
| SequenceLaws.SaveRestore | src/psp/term.c:427-428 | save, anything of that kind, restore: the cursor is back, less a pending wrap, and only the cursor moved on the restore |
| ScreenLaws.ScrollsAdd | src/psp/term.c:130-154 | scrolling by n then m is scrolling by n + m, both ways |
| ScreenLaws.ScrollOut | src/psp/term.c:130-154 | from the region's height on every row of it is blank, the others untouched |
| ScreenLaws.InsertDeleteChars | src/psp/term.c:264-288 | insert n, delete n: all as before but the last n columns from the cursor on, which are blank |
| ScreenLaws.InsertDeleteLines | src/psp/term.c:372-394 | the same for lines and the last n rows of the region |
| ScreenLaws.InsertDeleteSequences | src/psp/term.c:396-397 | inserting and deleting characters by the two control sequences as bytes, whatever the digits, costs only those columns |
| ScreenLaws.InsertDeleteLineSequences | src/psp/term.c:372-394 | inserting and deleting lines by their two control sequences, whatever the digits, costs only those rows |
| ScreenLaws.EraseCutsAtCursor | src/psp/term.c:217-243 | ED 0 blanks exactly the cells at or after the cursor in reading order, ED 1 those at or before it, pending wrap included |
| ScreenLaws.ErasesMakeWhole | src/psp/term.c:217-243 | ED 0 and ED 1 in either order equal ED 2, a blank grid |
| ScreenLaws.ErasesMakeLine | src/psp/term.c:245-262 | EL 0 and EL 1 in either order blank exactly the cursor's row |
| TextWindow.WindowOfText | src/psp/term.c:165-188 | after a reset to any size, lines of printable bytes with CR LF between them leave the grid equal to the last rows of the text cut at the right edge, blank-padded, cursor at the end of the last row |
| TextWindow.FullLineLeavesNoBlankRow | src/psp/term.c:171-177 | on the screen of any size, below any text: a line that exactly fills its row, CR LF and the next line take two rows with no blank row between |
| TextWindow.FullFirstLineLeavesNoBlankRow | src/psp/term.c:171-177 | the same from the top of the screen |
| TextWindow.TypedWraps | src/psp/term.c:165-188 | wrapping at the moment the next character arrives is cutting the line every so many characters |
| TextWindow.NewRowShows | src/psp/term.c:156-163 | a line break moves the window down one row of the text |
| Card.MemoryCard.ReadFile | src/psp/cardfile.c:42-75 | under every schedule of short reads: the whole file, or -1 exactly when absent, or -2 exactly when it is not smaller than the limit or a read failed |
| Card.MemoryCard.CardfileRead | src/psp/cardfile.c:77-100 | a successful read had no read error and returns the file, or else what an interrupted write left, whole and put under the right name; -2 exactly when the file is there and too long or a read failed; -1 exactly when it is not there and the temporary file is absent, too long or failed to be read |
| Card.MemoryCard.FillTemp | src/psp/cardfile.c:108-128 | under every schedule of short writes and failures: the whole text under the temporary name; or after one failure the card as it was or without the temporary file; only when the remove fails too a part of the text; and no other file touched |
| Card.MemoryCard.SwapIn | src/psp/cardfile.c:130-138 | the old file makes way for the new one, or is still there; with no old file it always succeeds |
| Card.MemoryCard.CardfileWrite | src/psp/cardfile.c:102-139 | every state the card passes through is one of the protocol's; success exactly when the device failed no call; a failed write leaves the old file as it was, and with no old file, after one failure, the card as it was or without the temporary file |
| CardLaws.CrashIsAtomic | src/psp/cardfile.c:77-139 | a crash at any step of replacing a file: the next read finds the old text or the new, the file is back under its name, all other files are unchanged |
| CardLaws.AtomicExactlyWhenReplacing | src/psp/cardfile.c:89-99 | that holds at every crash point if and only if there was a file to replace or the text is empty |
| CardLaws.TornFirstSave | src/psp/cardfile.c:89-99 | a first save can be read back as any prefix of its text |
| CardLaws.FailedFirstSave | src/psp/cardfile.c:120-125 | so what can be read after a first save that failed is what could be read before, or nothing |
| CardLaws.InPlaceExactlyWhenRead | src/psp/cardfile.c:89-98 | after a crash in a write over an existing file, the start that follows fails to have the file in place if and only if the crash was between remove and rename and the start's read was stopped |
| CardLaws.UnreadTempIsLost | src/psp/cardfile.c:94-97 | in that case, if power fails again in the next save, a text that was whole on the card is gone and the file reads as empty |
| CardLaws.EveryRoundIsAtomic | src/psp/cardfile.h:14-17 | over any number of rounds of write, crash and read, each round kept the content or took the text being written, whole |
| Text.IntRoundTrip | src/psp/hosts.c:267-271 | every number printed with `%d` is read back by `atoi` |
| Text.SplitJoin | src/psp/hosts.c:119-133 | fields without tabs, joined by tabs, are split into the same fields |
| Text.SplitFields | src/psp/hosts.c:119-133 | the one-pass splitter finds the fields of the recursive definition, the last taking the rest |
| Text.ScanLine | src/psp/hosts.c:173-184 | the two inner loops find the end of the line and the start of the next |
| Text.FirstLine | src/psp/hosts.c:169-185 | a line ended by any run of line feeds and carriage returns, before any text, is its first line |
| Text.LastLine | src/psp/hosts.c:173-184 | the last line needs no end, and an empty one is none |
| Text.AtoiReads | src/psp/hosts.c:156-159 | white space, a sign and digits up to anything else are the number they spell |
| Text.DecimalIsCanonical | src/psp/hosts.c:267-271 | no number is printed with a zero in front |
| Hosts.AcceptedExactlyWhen | src/psp/hosts.c:77-104 | a host can be saved if and only if it has an address and a user, a port from 1 to 65535, a profile from 0 to 10, and no tab, line feed or carriage return in its four texts |
| Hosts.RecordLine | src/psp/hosts.c:266-271 | the line of a record: name, address, port, user, password, profile, with tabs between |
| Hosts.LineIsRead | src/psp/hosts.c:135-167 | any line of six fields or more, whoever wrote it: the fields in that order, each text cut to its array, the numbers as `atoi` reads them, when that can be saved and the line does not start with `#` |
| Hosts.ShortLineIsNone | src/psp/hosts.c:148-151 | a line with fewer fields is no record |
| Hosts.FileIsRead | src/psp/hosts.c:144-146 | a file gives the first 24 of the records its lines hold, in order |
| Hosts.RecordRoundTrip | src/psp/hosts.c:135-167 | a valid record printed and parsed is itself, or nothing exactly when its name starts with `#` |
| Hosts.ListRoundTrip | src/psp/hosts.c:258-288 | a saved and reloaded list is the list without the records whose names start with `#`, in order, ports and profiles included |
| Hosts.ListComesBackWhole | src/psp/hosts.c:141-143 | it comes back whole if and only if no name starts with `#` |
| Hosts.AcceptedThenDropped | src/psp/hosts.c:141-143 | a record named `#` is accepted for saving and missing after a reload |
| Hosts.TakenIsGood | src/psp/hosts.c:161-166 | whatever the line, what is taken from it is valid and no comment |
| Hosts.ReparseIsStable | src/psp/hosts.c:169-185 | for every text, what was understood of it survives being written and read again |
| Hosts.RecordSize | src/psp/hosts.h:37-44 | no record takes more than 225 bytes |
| Hosts.PrintSize | src/psp/hosts.c:253-275 | no list takes more than 225 bytes a record |
| HostStore.SavedText | src/psp/hosts.c:253-275 | so every full list fits the save buffer and stays under the reload limit, and a card that holds it loads as it |
| HostStore.Store.ParseInto | src/psp/hosts.c:169-185 | the in-place parser appends exactly the usable records, up to 24 |
| HostStore.Store.Load | src/psp/hosts.c:292-315 | without a read error the list on the card, none when there is no file, -1 exactly when the file is refused; after a read error an empty list and the card as it was, with -1 exactly when the file is there; a file that is there is loaded whole or not at all; what a line holds is in `Hosts.LineIsRead` |
| HostStore.Store.BuildText | src/psp/hosts.c:258-279 | the loop builds the list's text, each record as `Hosts.RecordLine` says, and never runs out of its buffer |
| HostStore.Store.Save | src/psp/hosts.c:258-288 | success means the card loads as this list; failure that it loads as before; every state in between as one of the two; a first save that fails, the card failing one call, leaves what loaded before or nothing |
| HostStore.Store.Add | src/psp/hosts.c:319-335 | refused exactly when full or invalid, changing nothing; else the entry is appended, saved as `Save` says, and the result is its index exactly when the save succeeded |
| HostStore.Store.Replace | src/psp/hosts.c:337-349 | the same for replacing one entry |
| HostStore.Store.Remove | src/psp/hosts.c:351-366 | the same for taking one entry out, the others in order |
| HostStore.CrashKeepsAList | src/psp/hosts.c:253-288 | a crash anywhere in a save over an existing file reloads as the list before or the list after |
| HostStore.SessionsLoseNothing | src/psp/cardfile.h:14-17 | over any number of power-ons cut short in a save, their loads stopped by read errors or not: each start can find the list the one before it could find or the one then being saved, and the file is in place, but for exactly the sessions that ended between remove and rename with the next load stopped; it holds up to and including the first of those |
| HostStore.AddAfterRefusal | src/psp/main.c:497-501 | when a load is refused and a server is then added, the file holds that server alone, or nothing if its name starts with `#` |
| HostStore.UnreadListIsLost | src/psp/hosts.c:300-310 | after such a session the next save can lose a whole list: the load after it finds none |
| KnownHosts.EntryLine | src/psp/knownhosts.c:86-88 | the line of an entry: address, port, fingerprint, with tabs between |
| KnownHosts.LineIsRead | src/psp/knownhosts.c:104-148 | any line of three fields, whoever wrote it: an entry if and only if address and fingerprint are there and fit, the port is 1 to 65535 and the line does not start with `#` |
| KnownHosts.ShortLineIsNone | src/psp/knownhosts.c:113-121 | a line with fewer fields is no entry |
| KnownHosts.FileIsRead | src/psp/knownhosts.c:109-111 | a file gives the first 48 of the entries its lines hold, in order |
| KnownHosts.EntryRoundTrip | src/psp/knownhosts.c:104-148 | an entry printed and parsed is itself, or nothing exactly when its address starts with `#` or its port is not 1 to 65535 |
| KnownHosts.ListRoundTrip | src/psp/knownhosts.c:79-102 | a saved and reloaded list is the list of the entries that last |
| KnownHosts.ReloadKeepsAnswers | src/psp/knownhosts.c:150-182 | a reload keeps the answer for every key that lasts, duplicates included, and forgets the others |
| KnownHosts.PrintSize | src/psp/knownhosts.c:85-95 | no list takes more than 180 bytes an entry, so the save buffer always suffices |
| KnownHosts.ParsedIsKept | src/psp/knownhosts.c:124-147 | whatever the file, the entries loaded fit their fields, none with an empty part |
| KnownMap.RememberUpdates | src/psp/knownhosts.c:186-221 | remembering is updating a map from address and port to fingerprint, and keeps keys unique |
| KnownMap.RememberRefusals | src/psp/knownhosts.c:190-211 | it is refused if and only if a part is empty or cannot be stored, or the list is full and the key new |
| KnownMap.RememberedIsFound | src/psp/knownhosts.c:215-218 | what was remembered is found if and only if address and fingerprint fit their fields |
| KnownMap.ForgetRemoves | src/psp/knownhosts.c:223-242 | forgetting is removing from the map, and keeps keys unique |
| KnownMap.ForgottenIsUnknown | src/psp/knownhosts.h:55-57 | a forgotten key is unknown if and only if it was in the list at most once |
| KnownMap.FindDefinesMap | src/psp/knownhosts.c:53-75 | `find` and `knownhosts_lookup` answer as the map does |
| KnownMap.ReloadRestricts | src/psp/knownhosts.c:150-182 | a save and a reload restrict the map to the keys that last |
| KnownStore.Store.FindEntry | src/psp/knownhosts.c:53-64 | the index of the first entry with the key, or -1 |
| KnownStore.Store.LookupEntry | src/psp/knownhosts.c:66-75 | the first entry's fingerprint, or nothing |
| KnownStore.Store.Load | src/psp/knownhosts.c:150-182 | without a read error the entries on the card, -1 exactly when the file is refused; after one nothing and the card as it was, with -1 exactly when the file is there |
| KnownStore.Store.RememberEntry | src/psp/knownhosts.c:186-221 | memory and card after it, refused or not, saved or not, and every state of the card in between |
| KnownStore.Store.ForgetEntry | src/psp/knownhosts.c:223-242 | the first entry with the key is gone, the others in order, saved or not; nothing happens when there is none |
| KnownStore.Store.CheckHostkey | src/psp/main.c:97-142 | accepts a key that is not remembered exactly when the user trusts it, and one that is exactly when it presents its fingerprint; its effect, finished or cut short at any point and whatever the next load does, is a step of the runs below |
| Trust.AnswerIsThePolicy | src/psp/main.c:106-132 | the same of the answer at every point of a run, whatever the sizes of the list and of the parts |
| Trust.PinHolds | src/psp/main.c:106-122 | a key bound in memory and on the card stays bound through any event but its own forgetting (other keys, failed saves, power cuts at any step, restarts) if and only if the event does not end in a start whose load is stopped by a read error |
| Trust.StoppedLoadUnpins | src/psp/main.c:489-495 | over a run a key that is not forgotten stays bound exactly until the first start whose load is stopped |
| Trust.FirstSightRemembered | src/psp/main.c:124-141 | a first sight is remembered if and only if it is trusted, there is room and its parts fit, whether or not the save succeeds |
| Trust.FirstSightPins | src/psp/main.c:124-141 | a first sight whose save, if it makes one, succeeds binds its key in memory and on the card if and only if it is trusted, there is room, its parts fit and the key is one that lasts |
| Trust.LoadedIsPinned | src/psp/knownhosts.c:150-182 | after a load a key is remembered with a fingerprint if and only if it is bound to it in memory and on the card |
| Trust.RunIsBound | src/psp/knownhosts.c:150-221 | in every run from any card, what is remembered of a lasting key is bound on the card too, as long as no save that changed it failed |
| Trust.FailedSaveIsForgotten | src/psp/main.c:133-140 | a failed save changes nothing for the next start |
| Trust.DuplicateLoads | src/psp/knownhosts.c:168-180 | a file can hold a key twice, a load keeps both, and forgetting the first brings out the second |
| Trust.ForgottenAfterRestart | src/psp/knownhosts.h:55-57 | a key whose forgetting was saved is unknown after the next load as well, if and only if it does not last or was there once |
| Trust.UnreadKeyIsReplaced | src/psp/main.c:489-495 | after a stopped load another fingerprint, trusted, takes a bound key's place in memory and on the card |
| Trust.AcceptedAgree | src/psp/main.c:97-142 | in any run from any card, after an accepted connection and until its key is forgotten or a load is stopped, connections to that key are accepted if and only if they present the same fingerprint, whether it was in the file before the run or first seen in it |
| Trust.OnePowerOn | src/psp/main.c:97-142 | within one power-on the same holds of every key that got into memory, whether or not saves succeed and whatever the card holds |
| HostKeys.PartsFit | src/psp/hosts.c:77-104 | a saved host's address and a fingerprint as `fingerprint_of` makes it always fit, and the key lasts if and only if the address does not start with `#` |
| HostKeys.SameKeyAccepted | src/psp/main.c:97-142 | for a saved host, after an accepted connection and until its key is forgotten or a load is stopped, a connection is accepted if and only if its key has the same SHA-256 digest |
| Trust.RefusalStoresNothing | src/psp/main.c:124-132 | a connection refused, changed key or untrusted first sight, changes neither memory nor card |
| Trust.PinnedKeyDecides | src/psp/main.c:101-122 | once a key is bound, and until it is forgotten or a load is stopped, a connection is accepted if and only if it presents that fingerprint |
| Trust.TrustOnFirstUse | src/psp/knownhosts.h:12-18 | over any run of connections, forgets of other keys, failed saves, power cuts and restarts, none of whose loads is stopped from then on, however the run began: after a saved first sight a connection to that key is accepted if and only if it presents the fingerprint first trusted |
| Trust.CommentAddressIsForgotten | src/psp/knownhosts.c:109-111 | a key the file cannot hold is trusted and saved, and unknown again after a restart |
| Console.Log.BlankRow | src/psp/console.c:24-32 | one row blank and white, the others as they were |
| Console.Log.ScrollUp | src/psp/console.c:47-56 | the row copies move every row up by one and blank the last |
| Console.Log.Newline | src/psp/console.c:58-65 | the grid is still the window on the paper, which has one row more |
| Console.Log.Put | src/psp/console.c:67-99 | for newline, return, tab and glyph the grid stays the last 22 rows of the paper, the cursor on the last of them |
| Console.Log.PutAll | src/psp/console.c:118-137 | so it does for every stream of bytes |
| Console.Log.Reset | src/psp/console.c:34-45 | an empty paper, the grid a window on it |
| ConsoleLaws.LogOfText | src/psp/console.c:67-99 | lines of glyphs since a reset are on the paper cut every 80 characters, row by row |
| ConsoleLaws.BreakTable | src/psp/console.c:69-76 | a line feed starts a blank row, a carriage return goes back to the start of this one and keeps what is on it |
| ConsoleLaws.GlyphTable | src/psp/console.c:93-98 | a glyph takes the cell at the cursor, on a new row when this one is full |
| ConsoleLaws.TabTable | src/psp/console.c:77-91 | a tab writes spaces up to the next multiple of eight; up to the edge, and a new row follows, when that is not short of it |
| ConsoleLaws.WindowTable | src/psp/console.c:47-65 | the grid is the last 22 rows, or all of them and blank ones below |
| Base64.RoundTrip | src/core/pspssh.c:121-147 | every byte string is decoded back from its encoding, the encoding being the bit string of RFC 4648 section 4 |
| Base64.Injective | src/core/pspssh.c:121-147 | two encodings are equal if and only if the inputs are |
| Base64.TripleParts | src/core/pspssh.c:135-143 | the shifts and masks take out the four six-bit groups of three bytes |
| Base64.EncodeThree | src/core/pspssh.c:129-145 | the four letters of three bytes are their bits cut in sixes |
| Base64.LetterTable | src/core/pspssh.c:124-125 | the letters are those of Table 1 of RFC 4648, by character code |
| Base64.EncodedCharacter | src/core/pspssh.c:135-143 | each character is the table's for its six bits of the input |
| Base64.Base64Unpadded | src/core/pspssh.c:121-147 | the buffer holds the terminated unpadded encoding of the input, or of its whole groups that fit, character by character the table's, and is never overrun |
| Base64.EncodedDigestFits | src/core/pspssh.c:149-178 | 32 bytes give 43 characters, all of which fit the 48-byte buffer |
| Base64.FingerprintOf | src/core/pspssh.c:149-179 | `SHA256:` and 43 characters, each the table's for its six bits of the digest, or a refusal exactly when the hash failed or the caller's buffer is short |
| Base64.FingerprintsIdentify | src/psp/knownhosts.h:31-33 | fingerprints are equal if and only if the digests are, are 50 characters, and can be stored |
| SendAll.SendAll | src/psp/main.c:247-267 | the bytes the channel was given are a prefix of the text in order; the result is 0 if and only if all of it; giving up takes an error or 2000 empty writes in a row, and nothing is sent after either or after the whole text; it terminates |
| SendAll.Channel.Write | src/core/pspssh.c:462-499 | a write takes some of the bytes, none, or fails |
| LittleEndian.WordBytes | tools/add-at3-loop.py:27-27 | words are read with the lowest byte first |
| Riff.ReadChunks | tools/add-at3-loop.py:22-29 | the loop yields the chunks, a short last one included |
| Riff.ReadTable | tools/add-at3-loop.py:22-29 | byte by byte what a chunk is: name, size, payload, one byte of padding after an odd one, and then the next |
| Riff.ShortTable | tools/add-at3-loop.py:25-28 | a last chunk with too large a size has what there is, and fewer than eight bytes are none |
| Riff.WriteTable | tools/add-at3-loop.py:90-93 | byte by byte what is written of a chunk, a zero for padding |
| Riff.ReadEmitted | tools/add-at3-loop.py:86-93 | any chunks as written, odd sizes padded, read back as the same chunks |
| Riff.OnlyLoopsAdded | tools/add-at3-loop.py:84-93 | taking the loops out again gives the original list, order kept |
| Riff.LoopsPrecedeData | tools/add-at3-loop.py:84-93 | every loop is right in front of a `data`, and every `data` has one there |
| Riff.ScanTable | tools/add-at3-loop.py:67-79 | the rate is the second word of the last `fmt `, the total the first of the last `fact` |
| Riff.ScanStops | tools/add-at3-loop.py:67-79 | the first pass stops exactly at the first `smpl`, or `fmt ` or `fact` too short for its word, and says which |
| Riff.LoopCoversEverything | tools/add-at3-loop.py:32-55 | all fifteen words: one forward endless loop from the first sample to the last, and the period in nanoseconds |
| Riff.EmitLooped | tools/add-at3-loop.py:86-93 | the second pass writes the list with one loop before each `data`, or fails exactly on a zero rate with a `data` |
| Riff.WriteAll | tools/add-at3-loop.py:86-95 | re-reading the output gives that list, and its size field is its length less 8 |
| Riff.Rewrite | tools/add-at3-loop.py:58-98 | the same from the input file, with rate and total from its last `fmt ` and `fact`; each kind of refusal exactly when it occurs; a result has no loop in its input |
| Sfo.SortIncreases | tools/make-sfo.py:45-45 | distinct keys come out in strictly increasing order |
| Sfo.LessMeans | tools/make-sfo.py:45-45 | that order is the lexicographic one on bytes |
| Sfo.HeaderTable | tools/make-sfo.py:77-80 | the header: magic, version, where keys and values start, how many |
| Sfo.IndexTable | tools/make-sfo.py:70-71 | each index entry: where its key is, its kind by number, its length, its room, where its value is |
| Sfo.KeyTable | tools/make-sfo.py:52-53 | the keys follow one another behind the index, each with its NUL |
| Sfo.ValueTable | tools/make-sfo.py:55-72 | each value follows the one before: four bytes of a number, or the text and zeros up to its room |
| Sfo.FileRoundTrip | tools/make-sfo.py:43-81 | a reader that follows the header and the index recovers exactly the pairs |
| Sfo.ValuesTile | tools/make-sfo.py:56-78 | the data table and every value start on four bytes, each value where the one before it ends, the last ending with the file |
| Sfo.Build | tools/make-sfo.py:43-81 | the loop writes the file of the sorted pairs, or fails exactly when a field does not fit |
| Sfo.MakeSfo | tools/make-sfo.py:101-108 | a key given twice is refused exactly when there is one; otherwise what is written reads back as exactly the pairs given, in strictly increasing key order |

## Left out

- Terminal.Emulator: the four variables of the pen are one record and `params` keeps its type's bounds, so range checks on them are the type checker's; cells outside the current size are in the array but not in the specification.
- Terminal.Emulator.ApplySgrHere: the order of the code's tests is kept except that the 256-colour case is tried first, which no other case overlaps; the pen is assigned once, at the end.
- Card.MemoryCard: directories, permissions, the error sentences and the cut at 64 bytes of the temporary name.
- Card.MemoryCard.CardfileRead: a file that is there but cannot be opened is, for the code, not there; the premise above leaves that case out.
- CardLaws.EveryRoundIsAtomic: a power-on ends with a read that is not stopped on a lone temporary file; what happens when it is stopped is in `CardLaws.InPlaceExactlyWhenRead` and `CardLaws.UnreadTempIsLost`.
- HostStore.Store.Load: importing `pspssh.cfg` when there is no host file is not modelled; the result is then an empty list.
- HostStore.Store: wiping of buffers and passwords, and the error sentences.
- Text.Atoi: the C library's `atoi` as an unbounded number; one that saturates gives the same answer to every range check made of it.
- Text.SplitFields: the parsers write NULs into their buffer; the model takes slices of it instead, so that a buffer is destroyed by parsing is not captured.
- KnownHosts.ListRoundTrip: for entries that `knownhosts_remember` or a load can make; a port is any C int.
- Trust.AcceptedAgree: it asks that no failed save changed what is remembered of the key (`Trust.FailedSaveIsForgotten` says what a failed save means, `Trust.OnePowerOn` what holds regardless), that there was room for the key if it was new (otherwise it is not remembered, by `Trust.FirstSightRemembered`), that the key lasts, and that no load in between was stopped (`Trust.UnreadKeyIsReplaced`).
- Console.Log.PutAll: `printf` formatting and drawing; the pen is a variable although the code never changes it from white.
- Base64.FingerprintOf: SHA-256 is a parameter, its digest or its failure.
- SendAll.Channel.Write: the SSH library behind it, pumping and delays.
- Riff.Rewrite: the errors Python raises (a short `fmt `, a zero rate, a size field that overflows) are results; reading and writing the files are not modelled.
- Sfo.MakeSfo: argument parsing, `int()` of the text of a number and UTF-8 encoding; keys and texts are their bytes, whose order is that of the code points.
- Key exchange, the handshake loop and everything inside wolfSSH and wolfSSL; networking, keyboard, framebuffer and menus; entropy gathering; the font and build tools.
