# posh: terminal, printers and codecs

A model of the parts of posh that have to undo each other, with proofs that
they do.

- **The terminal** (`Cells`, `Machine`, `Terminal`, `ScreenBuffer`, `Laws`): a grid of
  cells with wide pairs, wrap flags, cursor, pending wrap, pen, scroll region,
  saved cursor and scrollback ring. `Machine.Term` is the machine as a value,
  one step per control. `Terminal.Emulator` and `ScreenBuffer.Buffer` are the
  program, with the loops and fields of the source, and are proved to make
  those steps, so that what is proved of `Machine.Run` is proved of them.
- **The display diff** (`RowDiff`, `Frame`, `Display`, `NewFrame`, `Scans`): the frame
  builder that turns a terminal showing one picture into one showing the next.
- **The state dump** (`Tape`, `Emit`, `Flow`, `Dump`, `Replay`, `Mirror`,
  `Repaint`): the printer whose output a fresh terminal replays, its bounded
  form for mirrors, and its forms for a terminal in an unknown state.
  `EndToEnd` feeds the printers to the terminal program.
- **Resizing** (`Resize`, `Heights`, `Reflow`, `Rewrap`, `Relines`, `Rejoin`, `Reread`):
  rows exchanged with the ring, logical lines rewrapped, the cursor keeping its
  line, character and offset, and one reflow after another.
- **Control sequences** (`Parser`, `Sgr`, `Codes`): CSI parameters byte by byte, and the
  printed style read back.
- **DEFLATE, zlib and PNG** (`Bits`, `Huffman`, `Inflate`, `Deflate`,
  `DeflateStream`, `DeflateSound`, `Format`, `Zlib`, `Png`): RFC 1951, RFC 1950 and the
  filters of RFC 2083.
- **Graphics** (`Graphics`, `ImageStore`, `Compose`, `Pictures`), **the session
  viewport** (`Viewport`) and **the wire frames** (`Wire`, `Frames`, `Layout`). `Wrappers` holds
  `Option`, `Result` and the like.

`Laws`, `Scans`, `Heights`, `Codes`, `Format`, `Pictures` and `Layout` say once more,
cell by cell, byte by byte and in the numbers of the formats, what the
specifications that the programs are proved against compute.

Printers emit lists of controls, not bytes; the byte level is kept for SGR and
the parser. A printer method takes the target terminal as a ghost and promises
what `Machine.Run` of its output makes of it; what the dump prints is besides
given as a function of the source alone (`Emit.Printer`, `Replay.TailOut`).

## Where the source does less than its comments say

Each of these is proved as an exact condition; `Counterexamples` has an input
for each.

- ED and EL, and a wide character that does not fit, do not repair the pair
  they cut: a control keeps all pairs whole exactly when it does not cut one
  (`Invariants.StepKeepsWellFormed`).
- A frame whose diff ends past the right edge of the cursor's own row moves
  back by backspaces counted from the edge, and lands one column short
  (`NewFrame.NewFrameOpt`).
- The diff compares hyperlink ids, which are private to each terminal: a cell it
  leaves alone keeps its old link when the id now names another URI
  (`NewFrame.NewFrameOpt`).
- A pending wrap that DECRC brought back after autowrap went off is lost by a
  dump; everything else of the replay is as always, but for the marks of the last
  cell (`Mirror.PendingBack`, `Replay.DumpVtTail`).
- On a taller target, origin mode can move the replayed cursor off its own line
  (`Mirror.CursorOnItsLine`).
- The cell printed again to arm a pending wrap gets the pen's hyperlink, not its
  own, and with autowrap off the marks of a narrow one go to its left neighbour
  (`Mirror.GridKept`).
- The repaint for a screen switch turns LNM off and not on again
  (`Repaint.DumpScreenSwitch`); the attach replay does not show a hidden cursor
  again (`Repaint.DumpVtFlat`).
- The padding a wrap leaves before a wide character reads back as a cell of the
  line: reflowing to one width and then to another, whatever that is, equals
  reflowing to the other exactly when at the first width no line was padded but in
  its last row and no character was lost (`Reread.WidthPathExactly`).
- A shrink with too few blank rows below the cursor pushes the cursor's own row
  into the ring (`Resize.CursorRowKept`).
- The parser saturates values at 65535, keeps 16 parts and the last of a
  parameter, and 32 parameters (`Parser.ParamsRoundTrip`).
- The frame encoder writes more than 2^20 scrollback rows, which the decoder
  refuses, and the length of a row of 64 KiB or more in 16 bits, so that it is not
  read back, and at 64 KiB silently comes back empty (`Frames.FrameRoundTrip`); a
  diff needs shared lengths under 2^32 (`Wire.DiffRoundTrip`).

## Model

| member | source | states |
|---|---|---|
| Cells.RepairPairs | crates/posh-term/src/terminal.rs:391-412 | `repair_wide_halves` leaves every width-2 head followed by its spacer and every spacer preceded by its head, on any row |
| Cells.RepairIdentity | crates/posh-term/src/terminal.rs:391-412 | repair changes nothing exactly on rows whose pairs are whole, and repairing twice is repairing once |
| Cells.WriteKeepsPairs | crates/posh-term/src/terminal.rs:319-389 | `clean_wide` and the write in `print` keep every pair whole when the character fits |
| Cells.WriteEffect | crates/posh-term/src/terminal.rs:319-389 | the write changes its own columns, and beside them only the other half of a pair it cuts on either side, which becomes blank |
| Cells.RowEnd | crates/posh-term/src/dump.rs:733-744 | the emitted part of an unwrapped row ends right after the last cell that is not skippable |
| Invariants.StepKeepsWellFormed | crates/posh-term/src/terminal.rs:276-412 | every control keeps rows paired, marks real and a pending wrap in the last column if and only if it does not cut a wide pair whose halves stay |
| Invariants.RunKeepsWellFormed | crates/posh-term/src/terminal.rs:276-412 | the same over every run of controls that never cuts a pair |
| Invariants.EraseOk | crates/posh-term/src/csi.rs:310-328 | erasing a range keeps the pairs if and only if neither end of the range falls inside a pair |
| Invariants.UnfitSplits | crates/posh-term/src/terminal.rs:302-318 | a wide character that does not fit, printed on the second half of a pair, leaves a broken row exactly when the cut row survives on the screen or in the ring |
| Invariants.StuckRow | crates/posh-term/src/terminal.rs:302-318 | when the cursor cannot leave the cut row, the write mends it exactly on rows of fewer than four columns |
| Terminal.Emulator.Print | crates/posh-term/src/terminal.rs:276-357 | printing a character (combining, wrapping, unfit wide, insert mode) is the machine's print step |
| Terminal.Emulator.CleanWideAt | crates/posh-term/src/terminal.rs:361-389 | the loop blanks exactly the halves the specification names and touches no other row |
| Terminal.Emulator.RepairWideHalves | crates/posh-term/src/terminal.rs:395-412 | the left-to-right repair in place equals repairing every orphan of the original row at once |
| Terminal.Emulator.Combine | crates/posh-term/src/terminal.rs:415-435 | a mark joins the cell printed last, its head if that is a spacer, and nothing at the row's start |
| Terminal.Emulator.Index | crates/posh-term/src/terminal.rs:504-513 | down one line, or the region scrolls, with the ring fed only by a full-screen region |
| Terminal.Emulator.ReverseIndex | crates/posh-term/src/terminal.rs:516-525 | up one line, or the region scrolls down |
| Terminal.Emulator.ScrollUpN | crates/posh-term/src/terminal.rs:527-533 | the region scrolls up, rows go to the ring only when it is the whole screen |
| Terminal.Emulator.EraseLine | crates/posh-term/src/csi.rs:310-328 | EL blanks its part, and clears the wrap flag unless it erases to the left |
| Terminal.Emulator.EraseDisplay | crates/posh-term/src/csi.rs:276-308 | ED blanks its part of the screen, or the ring |
| Terminal.Emulator.InsertChars | crates/posh-term/src/csi.rs:356-367 | ICH inserts blanks one by one as `Laws.CharsInserted` says, then repairs the row |
| Terminal.Emulator.DeleteChars | crates/posh-term/src/csi.rs:369-382 | DCH deletes cell by cell what `Laws.CharsDeleted` says, then repairs the row |
| Terminal.Emulator.EraseChars | crates/posh-term/src/csi.rs:384-394 | ECH blanks up to the edge, then repairs the row |
| Terminal.Emulator.InsertLines | crates/posh-term/src/csi.rs:330-341 | IL acts inside the region only and returns the cursor to column 0 |
| Terminal.Emulator.DeleteLines | crates/posh-term/src/csi.rs:343-354 | DL likewise, without feeding the ring |
| Terminal.Emulator.MoveTo | crates/posh-term/src/csi.rs:232-243 | CUP is relative to the region under origin mode and clamped to it |
| Terminal.Emulator.CursorUp | crates/posh-term/src/csi.rs:199-205 | CUU stops at the top margin when it starts inside the region |
| Terminal.Emulator.SetRegion | crates/posh-term/src/csi.rs:159-171 | DECSTBM takes only a region of two rows or more and then homes the cursor |
| Terminal.Emulator.SaveCursor | crates/posh-term/src/terminal.rs:604-614 | DECSC keeps position, pen, pending wrap and origin mode |
| Terminal.Emulator.RestoreCursor | crates/posh-term/src/terminal.rs:616-631 | DECRC brings them back, clamped to the screen and under origin mode to the region |
| Terminal.Emulator.Process | crates/posh-term/src/terminal.rs:194-230 | a whole stream of controls takes the terminal program exactly where `Machine.Run` says |
| Laws.RepairAt | crates/posh-term/src/terminal.rs:395-412 | which cells a repair blanks, column by column |
| Laws.DeleteAt | crates/posh-term/src/csi.rs:369-382 | deleting n cells, column by column: below the cursor as before, then the cell n further right, then blanks |
| Laws.InsertAt | crates/posh-term/src/csi.rs:356-367 | inserting n, column by column: below the cursor as before, then n blanks, then the cell n further left |
| Laws.CharsDeleted | crates/posh-term/src/csi.rs:369-382 | DCH: from the cursor on each cell is the one n columns further right, then blanks, repaired; no other row changes |
| Laws.CharsInserted | crates/posh-term/src/csi.rs:356-367 | ICH: n blanks from the cursor on, then the cells that stood there, the last n falling off |
| Laws.CharsErased | crates/posh-term/src/csi.rs:384-394 | ECH: n cells blank in place, nothing moves |
| Laws.InsertDelete | crates/posh-term/src/csi.rs:356-382 | inserting and then deleting as many gives the row back but for what fell off its end |
| Laws.LinesEdited | crates/posh-term/src/csi.rs:330-354 | IL and DL row by row: outside the rows from the cursor to the bottom margin nothing moves, and outside the region nothing happens |
| Laws.Scrolls | crates/posh-term/src/terminal.rs:527-541 | SU and SD row by row; the ring is fed by the whole screen alone |
| Laws.LineFeed | crates/posh-term/src/terminal.rs:504-513 | each row of the screen and the ring after a line feed, at the bottom margin, at the bottom of the screen and elsewhere |
| Laws.ReverseLineFeed | crates/posh-term/src/terminal.rs:516-525 | the same for RI at the top |
| Laws.LineErased | crates/posh-term/src/csi.rs:310-328 | which columns each part of EL blanks, the cursor's among them, and when the wrap flag goes |
| Laws.DisplayErased | crates/posh-term/src/csi.rs:276-308 | which cells of the screen each part of ED blanks and which rows lose their flag; only part 3 empties the ring |
| Laws.Moves | crates/posh-term/src/csi.rs:199-243 | where CR, BS, CHA and CUU leave the cursor |
| Laws.Addressed | crates/posh-term/src/csi.rs:232-254 | CUP counts from 1, under origin mode from the region's top, and is clamped to it |
| Laws.AddressedHome | crates/posh-term/src/csi.rs:232-243 | a row or column left out of CUP is the first |
| Laws.RegionTaken | crates/posh-term/src/csi.rs:159-171 | DECSTBM takes a region of two rows or more and homes the cursor; anything else changes nothing |
| Laws.SavedRestored | crates/posh-term/src/terminal.rs:604-631 | DECRC on whatever the terminal has become brings back the cursor that DECSC kept, clamped |
| Laws.ModeTaken | crates/posh-term/src/csi.rs:408-441 | each mode is set by itself; what it does to the cursor |
| Laws.PenTaken | crates/posh-term/src/csi.rs:626-641 | SGR, DECSCA and links each set their part of the pen and no other |
| Laws.TabStops | crates/posh-term/src/csi.rs:95-107 | HTS sets the stop at the cursor and TBC clears all |
| Laws.Printed | crates/posh-term/src/terminal.rs:319-357 | a character that fits: the row with room made for it in insert mode, and the cursor after it, pending at the edge |
| Laws.Written | crates/posh-term/src/terminal.rs:319-389 | column by column what the write leaves of a row of whole pairs: the character, its spacer, and the halves it cuts blank |
| Laws.PrintedAfterWrap | crates/posh-term/src/terminal.rs:293-301 | with a wrap pending the row is marked as wrapped and the character goes to the start of the next |
| Laws.PrintedAtEdge | crates/posh-term/src/terminal.rs:302-318 | a wide character in the last column blanks it and goes to the next row |
| Laws.PrintedBack | crates/posh-term/src/terminal.rs:302-318 | without autowrap a wide character in the last column goes one column back, and on one column nowhere |
| Laws.Marked | crates/posh-term/src/terminal.rs:415-435 | which cell a mark joins, and that it changes no other |
| ScreenBuffer.Buffer.PushScrollback | crates/posh-term/src/screen.rs:168-174 | the ring holds the newest rows up to its maximum, and the total counts every push |
| ScreenBuffer.Buffer.ScrollUp | crates/posh-term/src/screen.rs:159-177 | removing and inserting row by row moves the region's rows up, and the rows that left are the newest of the ring |
| ScreenBuffer.Buffer.ScrollDown | crates/posh-term/src/screen.rs:180-189 | row by row, the region moves down and blanks come in above |
| ScreenBuffer.Buffer.ShrinkTo | crates/posh-term/src/screen.rs:221-245 | the shrink loop gives up blank rows below the cursor first, then top rows to the ring (bottom rows without reflow), the cursor following |
| ScreenBuffer.Buffer.GrowTo | crates/posh-term/src/screen.rs:246-255 | the growth loop takes rows back from the ring, then adds blank ones |
| ScreenBuffer.Buffer.Unwrap | crates/posh-term/src/screen.rs:285-305 | one logical line: the cells of its rows in order, the cursor's place in it, and the row after it |
| ScreenBuffer.Buffer.RewrapAll | crates/posh-term/src/screen.rs:281-418 | the loop over logical lines gives the rows of every line rewrapped and the cursor's new row and column |
| ScreenBuffer.Buffer.Window | crates/posh-term/src/screen.rs:420-438 | the last screenful, or from the cursor's row on if that is higher up, becomes the grid; the newest rows above it the ring |
| ScreenBuffer.Buffer.ReflowWidth | crates/posh-term/src/screen.rs:265-440 | the reflow in place computes the specification `Resize.Reflowed` of rows and cursor |
| ScreenBuffer.Buffer.Resize | crates/posh-term/src/screen.rs:206-259 | width, then height; afterwards every row is whole and of the new width, the ring within its maximum and the cursor on the screen |
| Resize.ShrunkConserves | crates/posh-term/src/screen.rs:221-245 | ring and grid together lose only evicted oldest rows and blank rows below the cursor; the total rises by the rows pushed |
| Resize.CursorRowKept | crates/posh-term/src/screen.rs:233-242 | the cursor stays on its own row, and that row on the screen, if and only if no more rows are pushed than stand above it |
| Resize.GrownConserves | crates/posh-term/src/screen.rs:246-255 | growing only appends blanks, and only once the ring is empty; the cursor keeps its row |
| Resize.PlainHeight | crates/posh-term/src/screen.rs:221-255 | without reflow, rows are cut or blank rows added at the bottom and the ring is left alone |
| Resize.ReflowedOk | crates/posh-term/src/screen.rs:265-440 | a reflow leaves whole rows of exactly the new width and the cursor in the grid: on the logical line with the number of its own, on the character with the number of its own, on the same half of it (two columns or more), and in a narrow line at its own offset |
| Resize.WindowIs | crates/posh-term/src/screen.rs:420-438 | what survives a reflow is one contiguous window of the rewrapped rows; rows below it are lost only to keep the cursor on the screen |
| Resize.CutRowOk | crates/posh-term/src/screen.rs:50-62 | cutting or padding a row without reflow leaves no half of a wide character |
| Resize.ResizedOk | crates/posh-term/src/screen.rs:206-259 | every resize keeps the invariant and never lowers the total |
| Resize.EditsKeep | crates/posh-term/src/screen.rs:159-259 | over every run of scrolls, cursor moves and resizes: `rows` rows of `cols` cells, no split pair, ring within its maximum, total never decreasing |
| Resize.ScrollConserves | crates/posh-term/src/screen.rs:159-177 | a full-screen scroll conserves ring and grid as one sequence, but for blanks joining and the oldest rows leaving |
| Heights.ShrunkIs | crates/posh-term/src/screen.rs:221-245 | a shrink by any number of rows, in one go: the blank rows at the bottom as far as they are below the cursor and needed go first, the rest go off the top into the ring, which keeps the newest |
| Heights.GrownIs | crates/posh-term/src/screen.rs:246-255 | a growth takes the newest rows of the ring back on top, in order, and adds blank ones only for what the ring has not |
| Heights.DropsSome | crates/posh-term/src/screen.rs:221-231 | there is always such a number of rows to drop |
| Heights.HeightSets | crates/posh-term/src/screen.rs:223-258 | a height change touches grid, ring, total, height and the cursor's row alone |
| Heights.Shorter | crates/posh-term/src/screen.rs:223-258 | fewer rows on a reflowing screen: grid, ring, total and cursor, exactly |
| Heights.Taller | crates/posh-term/src/screen.rs:223-258 | more rows: grid, ring, total and cursor, exactly |
| Heights.PlainHeights | crates/posh-term/src/screen.rs:223-258 | without reflow: grid and cursor exactly, the ring left alone |
| Heights.CutRowKeeps | crates/posh-term/src/screen.rs:50-62 | the cells of a cut or padded row are its own, but for a head whose spacer was cut off; its wrap flag stays |
| Heights.PlainWidth | crates/posh-term/src/screen.rs:211-219 | without reflow every row of grid and ring is cut or padded and the cursor clamped |
| Heights.LineEndIs | crates/posh-term/src/screen.rs:285-305 | a logical line is a row and those after it as long as the one before wraps |
| Heights.DropTailIs | crates/posh-term/src/screen.rs:271-279 | exactly the blank, unwrapped rows below the cursor are left out of a reflow |
| Heights.WindowFilled | crates/posh-term/src/screen.rs:420-438 | the grid is the last screenful, or begins with the cursor's row if that is higher; blanks fill it only if all the rows fit it, and then the ring is empty |
| Heights.ResizedIs | crates/posh-term/src/screen.rs:206-259 | a resize is a width change and then a height change, each nothing if the size is the same; nought counts as one |
| Reflow.WrappedRows | crates/posh-term/src/screen.rs:324-399 | every rewrapped row has exactly the new width and splits no wide character |
| Reflow.PlacedThere | crates/posh-term/src/screen.rs:324-399 | every character of the line stands whole, with its spacer, where the greedy wrap places it |
| Reflow.NarrowKept | crates/posh-term/src/screen.rs:324-399 | the rows of a line of narrow characters, joined, are the line and blanks after it |
| Reflow.NarrowOffset | crates/posh-term/src/screen.rs:324-399 | each narrow character keeps its offset in its logical line |
| Reflow.WrapOnIs | crates/posh-term/src/screen.rs:324-399 | filling rows one character at a time gives the rows of the greedy specification |
| Rewrap.RewrapLine | crates/posh-term/src/screen.rs:316-403 | the loop over a line's cells gives those rows, and the cursor the place of the character it was on |
| Rewrap.CursorFollows | crates/posh-term/src/screen.rs:320-371 | the cell at the new place is the character the cursor was on, or its spacer if it was on the spacer; only a wide character no column can hold is lost (its number in the line is `Rejoin.CharKept`) |
| Relines.RelinedRows | crates/posh-term/src/screen.rs:281-418 | every row of a reflowed tape is whole and of the new width |
| Relines.NarrowLineKept | crates/posh-term/src/screen.rs:281-418 | each logical line of narrow cells is unchanged up to its trailing blanks |
| Relines.CursorKept | crates/posh-term/src/screen.rs:281-418 | over the whole tape the cell at the new place has the value of the one the cursor was on, a spacer staying a spacer (its place is `Rejoin.CursorLocated`) |
| Rejoin.LineFound | crates/posh-term/src/screen.rs:281-418 | the cursor lands on the logical line with the number of its own, that line being the old one rewrapped, where the rewrap of that line takes it |
| Rejoin.SegmentsAre | crates/posh-term/src/screen.rs:324-399 | the rows are the segments of the line with padding behind; the segments in order are the characters of the line |
| Rejoin.PlaceCounts | crates/posh-term/src/screen.rs:324-399 | the place of character i, and of its spacer, is where i characters of the line end before it |
| Rejoin.CharKept | crates/posh-term/src/screen.rs:320-371 | within its rewrapped line the cursor is on the character with the number it had |
| Rejoin.CursorLocated | crates/posh-term/src/screen.rs:265-440 | over the whole tape the cursor keeps its logical line, its character in it, the half of that (two columns or more), and in a narrow line its offset |
| Reread.ReadsBack | crates/posh-term/src/screen.rs:324-399 | the rows of a line, joined, are its characters and blanks behind them if and only if no row but the last was padded for a wide character |
| Reread.LineBack | crates/posh-term/src/screen.rs:285-316 | the rows of a line whole at the width unwrap and trim to a line of the same text, its cursor on the same half of the same character |
| Reread.ReflowTwice | crates/posh-term/src/screen.rs:281-418 | line by line, reflowing a reflowed tape of such lines, wide characters included, gives what reflowing the tape itself gives, rows and cursor |
| Reread.WidthPathFree | crates/posh-term/src/screen.rs:265-440 | a tape whose lines are whole at one width, reflowed to it and then to another, is the tape reflowed to the other, row for row, with the cursor in the same place |
| Reread.WidthPathExactly | crates/posh-term/src/screen.rs:265-440 | that holds for every second width if and only if, at the first, every character fits a row and no row but the last of each line is padded |
| Reread.RowsDiffer | crates/posh-term/src/screen.rs:281-418 | a line that is not whole reads back as another one, and a row long enough for both shows it |
| Reread.NarrowWhole | crates/posh-term/src/screen.rs:281-418 | a tape of narrow cells is whole at every width |
| Printing.DrawCell | crates/posh-proto/src/display.rs:217-220 | printing a cell's character and then its marks puts exactly that cell at the cursor, also in insert mode at the row's end |
| Printing.DrawWrapped | crates/posh-term/src/terminal.rs:293-301 | with a wrap pending the line is left first and marked as wrapped |
| Printing.ScrollFeeds | crates/posh-proto/src/display.rs:446-464 | n line feeds on the bottom margin are one scroll by n, ring included |
| Frame.FrameState.AppendMove | crates/posh-proto/src/display.rs:244-264 | the terminal's cursor ends where the frame believes, or one column short after backspaces from past the edge |
| Frame.FrameState.AppendSilentMove | crates/posh-proto/src/display.rs:266-276 | likewise, hiding the cursor first when it jumps |
| RowDiff.DrawAdvances | crates/posh-proto/src/display.rs:701-713 | drawing the wanted cell extends the part of the row that is right without breaking what the model says of the rest |
| RowDiff.EchAdvances | crates/posh-proto/src/display.rs:679-688 | ECH over a run of blanks does so too |
| RowDiff.ElFinishes | crates/posh-proto/src/display.rs:720-727 | EL over the blank end finishes the row |
| Display.ScanRow | crates/posh-proto/src/display.rs:651-718 | the scan leaves the row as planned up to the pending blanks, and writes the last cell exactly when `EndsPrinted` says so beforehand |
| Display.PutRow | crates/posh-proto/src/display.rs:622-747 | after `put_row` every cell of the row looks as wanted, or as it was if the scan passes over it; no other row changed; the terminal is left mid-wrap exactly when the row wraps and its last cell was written |
| NewFrame.FindScroll | crates/posh-proto/src/display.rs:403-430 | the first old row equal to new row 0, and how far the match goes on, found as the specification does |
| NewFrame.ScrollShortcut | crates/posh-proto/src/display.rs:397-474 | after the shortcut the rows above the plan's top already have their new content, and the others show what the shifted model says |
| NewFrame.ScrollRegion | crates/posh-proto/src/display.rs:452-464 | scrolling inside a region of its own shifts the rows and restores the full region |
| Display.AheadStep | crates/posh-proto/src/display.rs:651-718 | which cells the scan passes over and which it draws, as computed beforehand, is what it does step by step |
| NewFrame.DrawRows | crates/posh-proto/src/display.rs:477-481 | all rows end up as planned, and the frame's position past the edge is the one computed beforehand |
| NewFrame.NewFrameOpt | crates/posh-proto/src/display.rs:313-500 | on every terminal showing `last` (or, uninitialized or resized, every terminal with autowrap on, insert, origin and LNM off, DECSCA off and no link open, whatever it shows) the frame leaves it at rest with `f`'s visibility; it shows all of `f`'s cells if and only if no cell left alone changed its URI (`Stale`), and has `f`'s cursor if and only if the frame is not `Short`; the rows it wraps are marked so (`Grouped`); the picture that is there already takes nothing, and no region is set unless the picture moved up and that is allowed |
| NewFrame.FinalCells | crates/posh-proto/src/display.rs:654-658 | all cells are shown if and only if no cell left alone resolves its id differently |
| NewFrame.RepaintNeverStale | crates/posh-proto/src/display.rs:367-376 | a full repaint leaves no old link |
| NewFrame.SharedNeverStale | crates/posh-proto/src/display.rs:144-149 | nor does a diff of pictures that resolve their ids alike |
| NewFrame.Begin | crates/posh-proto/src/display.rs:321-474 | the builder before any row: on a cleared screen, or where the old picture left the cursor, scrolled if the picture moved up |
| NewFrame.RepaintGroups | crates/posh-proto/src/display.rs:734-743 | after a repaint of three columns or more the outer terminal's rows wrap exactly where the session's do |
| NewFrame.RepaintWraps | crates/posh-proto/src/display.rs:734-743 | a repaint lets the wrap begin a row exactly where the session wrapped |
| NewFrame.SameQuiet | crates/posh-proto/src/display.rs:653-658 | the same picture is no scroll and no row of it needs anything |
| Scans.SkipsExactly | crates/posh-proto/src/display.rs:651-718 | a cell is passed over exactly if the model has it and the cell before was passed over or is not blank |
| Scans.SilentIs | crates/posh-proto/src/display.rs:653-658 | a row needs nothing exactly if the model has all its characters |
| Scans.EndsExactly | crates/posh-proto/src/display.rs:714-735 | the last cell is written exactly if it is not passed over and is not blank, or its blank cannot be erased because the row wraps or it has a style or a link |
| Scans.WrapsExactly | crates/posh-proto/src/display.rs:734-743 | a row is begun by the wrap exactly if the one above wraps and was written to its end |
| Scans.ScrollFound | crates/posh-proto/src/display.rs:403-430 | a picture is taken to have moved up exactly if its first row is an old one, the first such not being row 0, and by as many rows and for as long as they match |
| Scans.PlanIs | crates/posh-proto/src/display.rs:397-474 | what each row is then compared with: risen rows with nothing, the others with what the scroll leaves there |
| Repaint.RestDrawable | crates/posh-proto/src/display.rs:483-500 | every terminal a frame was shown on meets that demand, so a resize or a forced repaint may follow |
| Repaint.ResetDrawable | crates/posh-term/src/dump.rs:118-139 | every terminal, in whatever state, meets it after the state reset |
| EndToEnd.ShowFrame | crates/posh-proto/src/display.rs:1020-1075 | a terminal program fed the frame shows the picture, with the same exact conditions and the same demand on an uninitialized terminal |
| Tape.TapeIndex | crates/posh-term/src/terminal.rs:504-513 | an index starts one new line of the flow, wherever the screen stands on it, and the line pushed off is the ring's newest |
| Emit.EmitState.EmitRow | crates/posh-term/src/dump.rs:723-769 | one row makes one line that looks like it; a row that prints nothing after a wrapped one prints a space, so the wrap is taken; a wrapped row ends with the wrap pending |
| Flow.EmitTerminated | crates/posh-term/src/dump.rs:259-265 | a terminated row is followed by its new line, a wrapped one by nothing |
| Flow.EmitRows | crates/posh-term/src/dump.rs:480-491 | any list of whole rows makes exactly one line per row, in order, with the wrap flags of all but the last regenerated; the screen shows the last of them and the ring the rest |
| Dump.FlowOnScreen | crates/posh-term/src/dump.rs:456-497 | of n lines a screen of height H shows the last min(n, H), at the top if they are fewer |
| Dump.FlowInRing | crates/posh-term/src/dump.rs:456-497 | the ring holds the lines before those, newest last |
| Replay.SaveFlowAnchored | crates/posh-term/src/dump.rs:922-933 | the saved cursor is on the source cursor's own row and column, whatever the target's height |
| Emit.DrawFlat | crates/posh-term/src/terminal.rs:276-357 | with autowrap off, a character and its marks printed at the row's end put the cell there, and each mark where `combine` then puts it |
| Replay.DrawGrid | crates/posh-term/src/dump.rs:701-711 | on a cleared screen the grid makes one line per row from the top, whatever the ring holds |
| Replay.DumpTabs | crates/posh-term/src/dump.rs:894-904 | the tab stops are the source's, or the target's own where the source's are the default ones; only the cursor's position moved |
| Replay.DumpModes | crates/posh-term/src/dump.rs:800-874 | region, origin mode, autowrap, insert mode and LNM are the source's; screen, pen and saved cursor are untouched |
| Replay.Rearm | crates/posh-term/src/dump.rs:1006-1032 | the last cell is printed again: the whole state is then the replayed one, where with autowrap off no wrap is pending and the marks of a narrow last cell are on its left neighbour (in one column, gone) |
| Replay.DumpCursor | crates/posh-term/src/dump.rs:964-1037 | by the homed anchor or the flow anchor, cells, wrap flags, cursor, pen, visibility and region end as `Dump.Replayed` describes, whatever the modes |
| Replay.DumpVtTail | crates/posh-term/src/dump.rs:376-378 | replayed on any fresh terminal of the source's width and at least its height, the newest k ring rows and the grid give the whole state `Dump.Replayed` describes, and the ring the rest of the flow; what is printed depends on the source and k alone (`Replay.TailOut`) |
| Mirror.DumpVt | crates/posh-term/src/dump.rs:306-308 | the full dump, with the whole ring: the state `Dump.Replayed` describes, and the pending wrap comes back if and only if autowrap is on |
| Mirror.DumpVtMirror | crates/posh-term/src/dump.rs:353-369 | on a ring-less mirror of the shaped size the bounded dump gives, for every source and every ring depth, the state that any replay of the whole ring on a terminal of that height has: cells, wrap flags, cursor, modes, region and tab stops; the dump is `Mirror.MirrorOf` |
| Mirror.MirrorBounded | crates/posh-term/src/dump.rs:353-369 | the mirror dump depends on the screen and not on the ring: at the source's own height it is the same for all rings, on a taller mirror for all that agree in their newest 2 * rows - source rows |
| Mirror.TailLandsAlike | crates/posh-term/src/dump.rs:353-369 | the bounded tail lands as many lines as the whole ring |
| Mirror.SameReplay | crates/posh-term/src/dump.rs:310-352 | two replay depths that land equally many lines show the same state |
| Mirror.ReplaysAlike | crates/posh-term/src/dump.rs:310-352 | two terminals that replayed such depths show the same cells, wrap flags, cursor, modes, region and tab stops |
| Mirror.PendingBack | crates/posh-term/src/dump.rs:1006-1032 | in a replay the pending wrap comes back if and only if it was none or autowrap is on |
| Mirror.SharedExactly | crates/posh-term/src/dump.rs:172-186 | `is_dump_for` says yes exactly for the geometries whose mirror dump, bytes included, is this same dump |
| Mirror.CursorOnItsLine | crates/posh-term/src/dump.rs:456-526 | the replayed cursor is on the line of the source cursor's own row if and only if origin mode does not push it off |
| Mirror.CursorAtOwnHeight | crates/posh-term/src/dump.rs:964-1005 | at the source's own height that line is the source cursor's row |
| Mirror.GridKept | crates/posh-term/src/dump.rs:1006-1032 | every replayed terminal whose cursor is on its own line shows the source's grid cell for cell if and only if, when a wrap is pending, the cell printed again has the pen's link and (autowrap being off) is wide or without marks |
| Mirror.OwnReprinted | crates/posh-term/src/dump.rs:1006-1032 | the cursor's row printed again is itself under exactly that condition |
| EndToEnd.MakeMirror | crates/posh-term/src/dump.rs:1405-1422 | a terminal program fed the mirror dump shows what the whole ring replayed there shows |
| Repaint.ResetNormalizes | crates/posh-term/src/dump.rs:118-139 | whatever state a terminal is in, the reset gives it a full region, normal drawing modes, the default pen and no link, and leaves its cells, ring, saved cursor and tab stops alone |
| Repaint.DumpVtFlat | crates/posh-term/src/dump.rs:393-397 | on every cleared terminal of the source's width and at least its height, in whatever state, the attach replay shows the source and leaves the ring alone; the whole state is the source's if and only if a visible cursor was not hidden there and default tab stops were default there |
| Repaint.DumpScreenSwitch | crates/posh-term/src/dump.rs:540-576 | on every such terminal, whatever it shows, the repaint shows the source, region and drawing modes included, and leaves the ring alone; the whole state is the source's if and only if LNM is off and the tab stops agree |
| Repaint.EnterClears | crates/posh/src/session/client.rs:53-60 | taking over clears the grid and nothing else |
| EndToEnd.Attach | crates/posh/src/session/client.rs:2081-2113 | a terminal program in any state, taken over and fed the attach replay, shows the session, with the same exact conditions |
| Counterexamples.EraseSplits | crates/posh-term/src/csi.rs:310-328 | a wide character typed on two columns, then EL with the cursor on its second half, breaks the pair |
| Counterexamples.FrameFallsShort | crates/posh-proto/src/display.rs:258-261 | two letters typed on a blank row of two leave the cursor short |
| Counterexamples.OldLinkStays | crates/posh-proto/src/display.rs:654-658 | one letter whose id names another URI is not drawn again |
| Counterexamples.WrapNotRearmed | crates/posh-term/src/dump.rs:1006-1032 | a reachable terminal with a pending wrap and autowrap off |
| Counterexamples.WrapLost | crates/posh-term/src/dump.rs:1006-1032 | such a run on a terminal of one cell |
| Counterexamples.MarkMoves | crates/posh-term/src/terminal.rs:415-435 | two letters and a mark typed, DECSC, autowrap off, DECRC: every replay of that run on one row has the mark on the left neighbour, though the cell has the pen's own link |
| Counterexamples.OriginMovesCursor | crates/posh-term/src/dump.rs:466-497 | a run with a region and origin mode, of which every replay on four rows has the letter on the third and the cursor behind it on the second |
| Counterexamples.PenLinksCell | crates/posh-term/src/dump.rs:1006-1032 | a letter typed and then a link opened: every replay of that run on one row has the letter with the pen's link |
| Counterexamples.ShrinkLosesCursorRow | crates/posh-term/src/screen.rs:233-242 | shrinking two full rows to one pushes off the row the cursor is on |
| Counterexamples.PaddingStays | crates/posh-term/src/screen.rs:324-399 | a letter and a wide character at two columns read back with a blank between them |
| Counterexamples.SwitchDropsLnm | crates/posh-term/src/dump.rs:540-576 | no source with LNM on is replayed by a screen switch |
| Counterexamples.CursorStaysHidden | crates/posh-term/src/dump.rs:1033-1036 | a target with a hidden cursor after the attach replay of a new terminal |
| Counterexamples.LongRowEmptied | crates/posh-proto/src/frame.rs:233-242 | a row of 65536 bytes is read back as an empty one, without an error |
| Parser.ParamsRoundTrip | crates/posh-term/src/parser.rs:301-336 | every printed parameter list is read back with exactly the three caps applied |
| Parser.WithinCaps | crates/posh-term/src/parser.rs:9-11 | within the caps nothing is lost |
| Parser.CsiRoundTrip | crates/posh-term/src/parser.rs:338-398 | from every state outside payloads, a printed control sequence is one dispatch with those parameters, and a character it cut short is replaced |
| Codes.CsiWhole | crates/posh-term/src/parser.rs:338-415 | ESC [, a marker from < = > ? or none, parameters or none, intermediates and a final byte are one event with that marker, those parameters within the caps and the first two intermediates |
| Codes.EightBit | crates/posh-term/src/parser.rs:203-221 | the one-byte introducer 0x9B is ESC [ |
| Codes.EscWhole | crates/posh-term/src/parser.rs:245-299 | ESC, intermediates and a final byte are one event, unless they introduce something |
| Codes.TextRead | crates/posh-term/src/parser.rs:154-201 | a text of characters of one to four bytes, by their first, is read as those characters |
| Codes.CutShort | crates/posh-term/src/parser.rs:169-175 | a byte that cannot go on a character replaces it and is read afresh |
| Codes.NoCharacter | crates/posh-term/src/parser.rs:176-221 | what each byte that begins no character does |
| Codes.ActsInside | crates/posh-term/src/parser.rs:348-398 | a C0 control inside a sequence acts and the sequence goes on |
| Codes.GivenUp | crates/posh-term/src/parser.rs:223-241 | CAN and SUB end it, ESC begins another |
| Codes.Spoilt | crates/posh-term/src/parser.rs:379-414 | what spoils a sequence: a marker after parameters, a parameter after an intermediate |
| Codes.Ignored | crates/posh-term/src/parser.rs:416-428 | a spoilt sequence means nothing up to its final byte |
| Codes.NumberRead | crates/posh-term/src/parser.rs:301-304 | digits are read as the decimal number they spell, up to 65535 |
| Codes.DecimalIs | crates/posh-term/src/dump.rs:13-93 | a number is printed in its decimal digits, without leading noughts |
| Codes.Separated | crates/posh-term/src/dump.rs:13-93 | parts are set off by colons and parameters by semicolons |
| Codes.CapsAre | crates/posh-term/src/parser.rs:9-11 | the three caps in numbers: 32 parameters, 16 parts and the last, 65535 |
| Parser.CsiParser.Advance | crates/posh-term/src/parser.rs:112-130 | one byte takes the parser's fields and its events where the transition function says |
| Parser.CsiParser.TakeParams | crates/posh-term/src/parser.rs:325-336 | the accumulated parameters, a last one only if anything of it was seen, and an accumulator reset |
| Sgr.Select | crates/posh-term/src/csi.rs:626-707 | the index loop over parameters applies attributes and colours in order, consuming a colour's further parameters, and leaves DECSCA as it was |
| Codes.SetNumbers | crates/posh-term/src/csi.rs:639-661 | each number that sets something sets that and nothing else |
| Codes.ClearNumbers | crates/posh-term/src/csi.rs:662-671 | each that clears something clears that and nothing else |
| Codes.ColorNumbers | crates/posh-term/src/csi.rs:672-699 | each colour with a number of its own, and the defaults |
| Codes.OtherNumbers | crates/posh-term/src/csi.rs:700 | every other number changes nothing |
| Codes.FlagsTaken | crates/posh-term/src/csi.rs:639-671 | each flag is set by its number and cleared by its own off number or 0, and by no other |
| Codes.ColorsTaken | crates/posh-term/src/csi.rs:662-699 | the same of the underline and of the sixteen colours with numbers of their own, 39, 49 and 59 |
| Codes.UnderlineNumbers | crates/posh-term/src/csi.rs:644-656 | 4 with a part is the underline style of that number |
| Codes.LongColors | crates/posh-term/src/csi.rs:713-752 | 38, 48 and 58 with 5 or 2 and what follows, in parameters or in parts, set that colour, and what comes after is read on |
| Codes.BrokenColors | crates/posh-term/src/csi.rs:713-752 | a colour of neither kind changes nothing; one cut short has noughts |
| Codes.PenReset | crates/posh-term/src/csi.rs:626-641 | no parameters, or 0, reset all but DECSCA |
| Sgr.SgrParams | crates/posh-term/src/dump.rs:13-93 | the bytes pushed are the style's parameters, printed |
| Sgr.StyleRoundTrip | crates/posh-term/src/dump.rs:13-93 | from any pen those parameters set exactly that style, through semicolon and colon colour forms, and leave DECSCA alone |
| Sgr.SgrBytesRoundTrip | crates/posh-term/src/dump.rs:13-93 | byte for byte through the parser, in any state outside payloads, they set that style and do nothing else |
| Huffman.New | crates/posh-term/src/inflate.rs:61-91 | accepts exactly the lengths of at most 15 that satisfy Kraft's inequality, and its tables list the canonical code |
| Huffman.Subscribed | crates/posh-term/src/inflate.rs:70-78 | the running count of codes left stays non-negative exactly under Kraft's inequality |
| Huffman.FitsIsKraft | crates/posh-term/src/inflate.rs:70-78 | no length is over-subscribed if and only if Kraft's inequality holds |
| Huffman.PrefixFree | crates/posh-term/src/inflate.rs:61-91 | no symbol's code is a prefix of another's |
| Huffman.IsCode | crates/posh-term/src/inflate.rs:127-142 | a string among the codes of its length is the code of the symbol with that rank |
| Huffman.Sorted | crates/posh-term/src/inflate.rs:79-90 | the symbols in order of (length, symbol), each at the place the decoder looks |
| Format.AcceptedIs | crates/posh-term/src/inflate.rs:61-78 | which lengths are accepted, in numbers: at most 15, and no more than the 32768 strings of 15 bits taken up |
| Format.CodeNext | crates/posh-term/src/inflate.rs:61-91 | the code after a code, by length and then symbol, is the next number, with zeros behind it if it is longer |
| Format.CodeFirst | crates/posh-term/src/inflate.rs:61-91 | the first code is all zeros |
| Inflate.ReadCodeIs | crates/posh-term/src/inflate.rs:127-142 | reading a code gives a symbol exactly where that symbol's code stands, and stops right after it |
| Inflate.CodeFound | crates/posh-term/src/inflate.rs:127-142 | the table entry at the decoder's index is the symbol whose code was read |
| Inflate.NoCode | crates/posh-term/src/inflate.rs:127-142 | past every code there is none, and whether that is a bad symbol or a truncated input depends on the bits left alone |
| Inflate.BitReader.Take | crates/posh-term/src/inflate.rs:113-124 | the next n bits, least significant first, or the input ended |
| Inflate.BitReader.Decode | crates/posh-term/src/inflate.rs:127-142 | the bit-by-bit walk finds the code that stands there, or the right error, in bounds on every input |
| Inflate.FixedAccepted | crates/posh-term/src/inflate.rs:93-102 | the fixed codes are codes, the literal one complete |
| Inflate.DynamicTables | crates/posh-term/src/inflate.rs:146-188 | the tables of a dynamic block, or the error its header earns |
| Inflate.InflateCompressed | crates/posh-term/src/inflate.rs:191-232 | one compressed block, with the tables `Format.LengthTable` and `Format.DistanceTable` describe; it ends because every round takes at least one bit |
| Inflate.TakeStored | crates/posh-term/src/inflate.rs:242-259 | a stored block, aligned, checked and limited |
| Inflate.ComplementSum | crates/posh-term/src/inflate.rs:247-249 | two numbers are one's complements exactly when they add up to all ones |
| Inflate.Block | crates/posh-term/src/inflate.rs:191-232 | a block's output extends what was there, never past the limit, and ends within the input |
| Inflate.Inflate | crates/posh-term/src/inflate.rs:236-274 | the whole stream and the number of bytes it took, or the error |
| Format.LengthTable | crates/posh-term/src/inflate.rs:29-36 | the length symbols stand for 3 to 257 in runs without a gap and one for 258, with the extra bits of the format |
| Format.DistanceTable | crates/posh-term/src/inflate.rs:38-46 | the distance symbols for 1 to 32768 likewise |
| Format.SlotOrder | crates/posh-term/src/inflate.rs:48-51 | the order of the code-length code: the repeats, zero, and then outward from 8 |
| Format.RunTable | crates/posh-term/src/inflate.rs:160-178 | 16 repeats 3 to 6 times, 17 and 18 are 3 to 10 and 11 to 138 noughts |
| Format.FixedLengths | crates/posh-term/src/inflate.rs:93-102 | the lengths of the fixed codes |
| Format.NumberBits | crates/posh-term/src/inflate.rs:113-124 | numbers are written from their least significant bit up |
| Format.CodeNumber | crates/posh-term/src/inflate.rs:127-142 | codes are read from their most significant bit on |
| Format.BlockIntro | crates/posh-term/src/inflate.rs:239-241 | the bits before a block: is it the last, and of which type |
| Format.StoredLayout | crates/posh-term/src/inflate.rs:242-259 | where the length, its complement and the bytes of a stored block stand |
| Format.HeaderLayout | crates/posh-term/src/inflate.rs:146-150 | where the three counts of a dynamic header stand, and what they count from |
| Format.SlotLayout | crates/posh-term/src/inflate.rs:150-153 | three bits for each slot that is sent |
| Format.RefusedKind | crates/posh-term/src/inflate.rs:260-269 | there is no fourth type of block |
| Format.RefusedLength | crates/posh-term/src/inflate.rs:247-250 | a stored length that its complement does not match is refused |
| Deflate.CopiedIsPeriodic | crates/posh-term/src/inflate.rs:224-227 | a byte-by-byte copy, overlapping or not, is the periodic extension of the last d bytes and nothing else |
| Deflate.BlockDecodes | crates/posh-term/src/inflate.rs:191-232 | any list of literals and valid matches, encoded bit by bit, decompresses to its expansion, or is refused for being over the limit |
| Deflate.BlockEncodes | crates/posh-term/src/inflate.rs:191-232 | whatever a block decompresses to is the expansion of tokens whose encoding is exactly the bits it took |
| Format.TokensArePieces | crates/posh-term/src/inflate.rs:205-227 | every token copies 3 to 258 bytes from 1 to 32768 back, and every such pair has one |
| Format.PiecesExpand | crates/posh-term/src/inflate.rs:191-232 | the expansion of tokens is what their (length, distance) pairs mean: exactly that many bytes from that far back |
| Format.PiecesDecode | crates/posh-term/src/inflate.rs:191-232 | any list of literals and (length, distance) pairs whose symbols have codes decompresses to what it means |
| DeflateStream.LengthsDecode | crates/posh-term/src/inflate.rs:155-180 | code lengths packed with symbols 16, 17 and 18 unpack to themselves |
| DeflateStream.HeaderDecodes | crates/posh-term/src/inflate.rs:146-188 | a dynamic header gives back the two codes it was made for |
| DeflateStream.RawDecodes | crates/posh-term/src/inflate.rs:242-259 | a stored block gives back its bytes |
| DeflateStream.StreamDecodes | crates/posh-term/src/inflate.rs:236-274 | every stream of blocks of any kind decompresses to what it was made from and takes exactly its bits, or is over the limit |
| Format.FixedHasAll | crates/posh-term/src/inflate.rs:93-102 | the fixed codes have a code for every literal and every pair |
| Format.PiecesStream | crates/posh-term/src/inflate.rs:236-274 | any list of literals and pairs in one block of the fixed codes is a whole stream and decompresses to what it means |
| DeflateSound.HeaderEncodes | crates/posh-term/src/inflate.rs:146-188 | a dynamic header that is accepted is the encoding of one |
| DeflateSound.StreamEncodes | crates/posh-term/src/inflate.rs:236-274 | whatever a stream decompresses to was made from blocks whose encoding is exactly the bits it took |
| DeflateSound.InflatesExactly | crates/posh-term/src/inflate.rs:236-274 | inflate returns an output and a length if and only if the data encodes that output in that length and it is within the limit |
| Zlib.Adler32 | crates/posh-term/src/inflate.rs:276-290 | the modulo taken once per 5552-byte chunk gives the per-byte definition, and no sum leaves 32 bits |
| Zlib.AdlerHalves | crates/posh-term/src/inflate.rs:276-290 | the lower half is 1 plus the bytes, the upper one their number plus each byte times its place from the end, modulo 65521 |
| Zlib.HeaderMeans | crates/posh-term/src/inflate.rs:294-307 | which two header bytes are accepted (deflate, no dictionary, together a multiple of 31), and the trailer is read most significant byte first |
| Zlib.ChunkFits | crates/posh-term/src/inflate.rs:276-290 | 5552 bytes are the most whose sums fit in 32 bits |
| Zlib.ZlibDecompress | crates/posh-term/src/inflate.rs:294-311 | header, stream and trailer checks in the source's order, with its errors |
| Zlib.ZlibDecodes | crates/posh-term/src/inflate.rs:294-311 | a zlib stream made from blocks decompresses, and any other checksum is refused |
| Zlib.ZlibExactly | crates/posh-term/src/inflate.rs:294-311 | decompression accepts exactly the zlib streams within the limit and gives what each was made from |
| Png.Paeth | crates/posh-term/src/png.rs:89-101 | the neighbour nearest to a + b - c, ties going left, up, up-left |
| Png.SampleInverts | crates/posh-term/src/png.rs:104-135 | unfiltering undoes filtering for every choice of filter per row |
| Png.CopyWithin | crates/posh-term/src/png.rs:110-111 | the overlapping move down equals moving the bytes all at once |
| Png.Shifted | crates/posh-term/src/png.rs:110-112 | the move over the filter byte writes below every scanline not yet read |
| Png.UnfilterRow | crates/posh-term/src/png.rs:113-130 | byte by byte in place, each byte predicted from originals already restored |
| Png.Unfilter | crates/posh-term/src/png.rs:104-135 | in place over the scanlines still to be read, every row is restored; fails exactly on a filter type above 4 |
| Png.UnfilteredByte | crates/posh-term/src/png.rs:113-130 | what each filter adds to each byte, mod 256: nothing, the byte left, the byte above, half of both rounded down, or the nearest of three |
| Png.ApartIs | crates/posh-term/src/png.rs:89-101 | the distance Paeth measures by |
| Png.SubRow | crates/posh-term/src/png.rs:113-130 | in a row of filter 1 each byte is the sum of the raw bytes of its channel up to it |
| Png.FilterRoundTrip | crates/posh-term/src/png.rs:104-135 | the filtered scanlines of any image are accepted and give its bytes, row after row |
| Viewport.RunsValid | crates/posh/src/picker.rs:381-538 | after every sequence of events a pending pop has an entry to return to, so a pending transition names its target |
| Viewport.StackChanges | crates/posh/src/picker.rs:381-538 | entering without a pending pop and with a current session adds exactly one entry, the session being left; with one it takes the top off; a failed dial of the top takes it off on record; nothing else changes the stack |
| Viewport.EnteredStack | crates/posh/src/picker.rs:394-408 | entering takes the top off if a pop is pending; else it pushes the session being left, if there is one |
| Viewport.EnteredCurrent | crates/posh/src/picker.rs:394-423 | the session entered is the current one, of unknown kind, and what was pending is done with |
| Viewport.SwitchPop | crates/posh/src/picker.rs:381-538 | switching to a session and popping back restores stack and current session |
| Viewport.PendingDialled | crates/posh/src/picker.rs:450-462 | a return dials what is pending |
| Viewport.ReturnedBy | crates/posh/src/picker.rs:450-486 | how an attach ends decides between popping and exiting |
| Viewport.Recorded | crates/posh/src/picker.rs:383-393 | requests and verdicts are only written down, and a pop request only if there is an entry |
| Viewport.FailedOther | crates/posh/src/picker.rs:487-521 | a failed dial outside a cascade withdraws the request; in one, a target that is not the top is recorded by name |
| Viewport.Reported | crates/posh/src/picker.rs:424-445 | reports of kind and activity change that alone and never unsay anything |
| Viewport.KindStays | crates/posh/src/picker.rs:424-437 | a known kind stays known until the next arrival |
| Viewport.AnonymousUntilReported | crates/posh/src/picker.rs:409-437 | a session made anonymously counts as anonymous until its kind is reported |
| Viewport.WithoutLastIs | crates/posh/src/picker.rs:531-536 | closing takes out the newest overlay of the kind and no other |
| Viewport.OverlayRoundTrip | crates/posh/src/picker.rs:526-536 | opening an overlay and closing it changes nothing |
| Viewport.CascadeGoesOn | crates/posh/src/picker.rs:450-521 | after k failed dials the next entry is being dialled and the chain so far is on record |
| Viewport.CascadeLands | crates/posh/src/picker.rs:394-423 | landing after k failures leaves the stack without its top k+1 entries, on the next one, with one notice naming the end and the dead, top first |
| Viewport.CascadeExhausts | crates/posh/src/picker.rs:487-521 | if every dial fails there is exactly one exit, with the end that started it and every session skipped, after one failure per entry |
| Viewport.ViewportState.Apply | crates/posh/src/picker.rs:381-538 | the fields updated in place and the effects are those of the transition function |
| Viewport.ViewportState.CloseOverlay | crates/posh/src/picker.rs:531-536 | the newest overlay of the kind goes, the others stay in order |
| Wire.MakeDiff | crates/posh-proto/src/frame.rs:20-36 | the longest shared prefix, then the longest shared suffix of the rest; if either string is under 4 GiB the diff applies and gives the new bytes |
| Wire.DiffRoundTrip | crates/posh-proto/src/frame.rs:20-53 | applying a diff to its base gives the new bytes if and only if both shared lengths fit 32 bits |
| Layout.DiffLayout | crates/posh-proto/src/frame.rs:20-36 | both lengths in four bytes, least significant first, then the bytes between |
| Layout.DiffApplies | crates/posh-proto/src/frame.rs:38-53 | what any diff does to any base |
| Wire.TableRoundTrip | crates/posh-proto/src/caps.rs:745-783 | every table of at most 255 entries of at most 255 bytes is read back and nothing behind it touched |
| Layout.TableLayout | crates/posh-proto/src/caps.rs:745-757 | the count, and for each entry its id, the length of its payload and the payload |
| Layout.TableAccepted | crates/posh-proto/src/caps.rs:761-783 | whatever decodes is the encoding of what it decodes to |
| Wire.EncodeTableBytes | crates/posh-proto/src/caps.rs:745-757 | the loop writes the table's encoding |
| Wire.DecodeTableBytes | crates/posh-proto/src/caps.rs:761-783 | the offset loop decodes a table or refuses a truncated one |
| Frames.FrameRoundTrip | crates/posh-proto/src/frame.rs:192-399 | a frame of any body kind with any table is read back from its encoding if and only if it has no more scrollback rows than the cap and none of 64 KiB or more; too many rows, up to the 32 bits of their count, are refused as such |
| Frames.BodyRoundTrip | crates/posh-proto/src/frame.rs:192-395 | the same for a body at the end of the data |
| Frames.CountedDecodes | crates/posh-proto/src/frame.rs:320-395 | counted rows are read back if and only if they are within the cap and each has a length of 16 bits |
| Frames.RowsRead | crates/posh-proto/src/frame.rs:330-343 | whatever the data, the rows read are as many as asked for, none of 64 KiB or more |
| Frames.HeadRoundTrip | crates/posh-proto/src/frame.rs:401-424 | flags and table are read back and the fixed fields found, with the extension bit set only by a table |
| Layout.LeByte | crates/posh-proto/src/frame.rs:192-260 | byte k of a number in a frame is its byte k from the least significant |
| Layout.BeByte | crates/posh-proto/src/caps.rs:826-844 | the offset of an agent chunk has its most significant byte first |
| Layout.FrameLayout | crates/posh-proto/src/frame.rs:192-200 | where flags, table, the three numbers and the body stand, and the byte for each kind of body |
| Layout.ChangeLayout | crates/posh-proto/src/frame.rs:201-232 | a diff or morph body: base, checksum if any, change |
| Layout.RowsLayout | crates/posh-proto/src/frame.rs:233-258 | a scrollback body: base or epoch and offset, count, rows |
| Layout.RowLayout | crates/posh-proto/src/frame.rs:233-258 | each row behind its length in two bytes |
| Layout.RowCap | crates/posh-proto/src/frame.rs:189 | the cap on rows is 2^20, on each of them 64 KiB |
| Layout.DecodedFrame | crates/posh-proto/src/frame.rs:262-424 | whatever decodes begins with the encoding of what it decodes to, and is no more than that but behind a body that says where it ends |
| Layout.Refused | crates/posh-proto/src/frame.rs:262-424 | which data is refused, and with which error |
| Frames.EncodeFrame | crates/posh-proto/src/frame.rs:192-260 | the appended bytes are the frame's encoding |
| Frames.DecodeFrame | crates/posh-proto/src/frame.rs:262-399 | the walk over offsets decodes, or fails with the source's error, and never reads past the data |
| Frames.AgentRoundTrip | crates/posh-proto/src/caps.rs:826-852 | the chunks of an agent stream fit a table and reassemble to the stream, or to the prefix one message may carry |
| Layout.AgentLayout | crates/posh-proto/src/caps.rs:826-844 | entry i has id 7, offset base + 247 i most significant byte first, and the 247 bytes from there, the last fewer |
| Layout.AgentLimit | crates/posh-proto/src/caps.rs:696-705 | one message carries the first 59033 bytes at most, in 239 entries |
| Frames.EncodeAgentData | crates/posh-proto/src/caps.rs:826-844 | the loop cuts those chunks |
| Graphics.EvictedKeepsNewer | crates/posh-term/src/graphics.rs:506-525 | eviction fits the quota, takes older images before newer ones, with their frames and placements, and touches nothing else |
| Graphics.EvictedMinimal | crates/posh-term/src/graphics.rs:506-515 | with the newest evicted image back the store would still be over the quota |
| Graphics.NewestStays | crates/posh-term/src/graphics.rs:506-515 | the newest image is not evicted if it fits by itself |
| Graphics.TransmittedStays | crates/posh-term/src/graphics.rs:315-341 | an image that fits the quota is there after its transmission, with the newest sequence number |
| Graphics.RunsWithinQuota | crates/posh-term/src/graphics.rs:314-384 | in every reachable state the total is the bytes of all images and frames, frames belong to stored images, and the total is within the quota |
| Graphics.RunsKeepPixels | crates/posh-term/src/graphics.rs:314-463 | in every reachable state, if what comes in has the bytes its size asks for, so has every stored image and frame, which is what composing needs |
| Graphics.PutReplaces | crates/posh-term/src/graphics.rs:589-645 | after it is put a placement is the only one with its ids, and every other one is still there |
| Pictures.CountedAs | crates/posh-term/src/graphics.rs:314-384 | images and frames count by their bytes, and the quota is 320 MiB |
| Pictures.IdsGiven | crates/posh-term/src/graphics.rs:315-341 | an image without an id gets the one after the greatest so far; a query stores nothing |
| Pictures.FramePlaced | crates/posh-term/src/graphics.rs:352-384 | a frame replaces the one with its number where it is, or comes last |
| Pictures.FrameNumbered | crates/posh-term/src/graphics.rs:352-384 | a frame without a number gets the one after the greatest and comes last |
| Pictures.GoodSizeIs | crates/posh-term/src/graphics.rs:302-311 | which raw pixels are accepted: three or four bytes for each, and some |
| Pictures.KeptInOrder | crates/posh-term/src/graphics.rs:660-676 | placements that stay keep their order |
| Pictures.DeletedIs | crates/posh-term/src/graphics.rs:660-682 | exactly the placements hit go, and with freeing exactly the images that lost their last one |
| Pictures.ImageDeleted | crates/posh-term/src/graphics.rs:695-714 | deleting an image takes its placements, or only the one with that id, and with freeing its data; no other image is touched |
| Pictures.AllDeleted | crates/posh-term/src/graphics.rs:687-694 | deleting all takes every placement, and with freeing everything that counts |
| Pictures.NamedIs | crates/posh-term/src/graphics.rs:527-540 | which image an id or a number names |
| Graphics.SumSplit | crates/posh-term/src/graphics.rs:517-525 | the sum of all data lengths does not depend on the order of counting |
| ImageStore.GraphicsState.RemoveImageData | crates/posh-term/src/graphics.rs:517-525 | image, frames and animation go and exactly their bytes are uncounted |
| ImageStore.GraphicsState.EnforceQuota | crates/posh-term/src/graphics.rs:506-515 | the eviction loop, with the byte count right throughout |
| ImageStore.GraphicsState.Transmit | crates/posh-term/src/graphics.rs:315-341 | a transmitted image replaces its predecessor and is the newest; a query stores nothing |
| ImageStore.GraphicsState.StoreFrame | crates/posh-term/src/graphics.rs:352-384 | the frame with its number is edited or a new one appended, and the count follows |
| ImageStore.GraphicsState.Recompose | crates/posh-term/src/graphics.rs:447-463 | the destination frame becomes a whole canvas without a base, and the count follows |
| ImageStore.GraphicsState.ComposeFrames | crates/posh-term/src/graphics.rs:412-465 | the reply is the one the image, the frames and their base chains call for; only if all are there does the target become the canvas composed of both, of the size its image asks for, and all pixels stay right |
| ImageStore.ComposedOnto | crates/posh-term/src/graphics.rs:431-446 | the source canvas composed onto the target canvas, if and only if both chains reach the root and the image has a size |
| ImageStore.GraphicsState.Resolve | crates/posh-term/src/graphics.rs:527-540 | an id names itself if stored, a number its latest image |
| ImageStore.GraphicsState.DeletePlacements | crates/posh-term/src/graphics.rs:660-682 | placements hit go; freeing also drops images left without one |
| Compose.BlendIsBetween | crates/posh-term/src/graphics.rs:816-834 | every colour lies between source and destination unless the result is transparent; opacity never falls, so opaque stays opaque |
| Pictures.ChannelIs | crates/posh-term/src/graphics.rs:816-834 | each colour is the mean weighted by source alpha and by destination alpha of what that leaves, rounded down |
| Pictures.AlphaIs | crates/posh-term/src/graphics.rs:816-834 | the alpha is the source's and of the rest the destination's, rounded down |
| Pictures.BlendEnds | crates/posh-term/src/graphics.rs:816-834 | nothing over something is that, something over nothing too, and an opaque source replaces |
| Compose.ComposeRect | crates/posh-term/src/graphics.rs:840-866 | exactly the clipped rectangle is composed, pixel by pixel, and every other pixel of the destination is as it was |
| Pictures.RectPixel | crates/posh-term/src/graphics.rs:840-866 | byte by byte what every pixel of the destination becomes, under the rectangle and outside |
| Pictures.RgbaPixel | crates/posh-term/src/graphics.rs:798-814 | three bytes a pixel become four, opaque |
| Compose.ComposeChain | crates/posh-term/src/graphics.rs:479-504 | ends on every graph of bases; gives the canvas composed along the chain, or none exactly when a base is missing or they run in a circle |
| Compose.ComposedFrame | crates/posh-term/src/graphics.rs:471-477 | a canvas of width * height * 4 bytes composed along the chain, if and only if the chain reaches the root and the image has a size |
| Pictures.FramePixel | crates/posh-term/src/graphics.rs:479-504 | where a frame shows its own pixels and where its base's |
| Pictures.RewrittenShows | crates/posh-term/src/graphics.rs:447-463 | a frame rewritten as a canvas shows that canvas |
| Compose.CircleNotRooted | crates/posh-term/src/graphics.rs:479-490 | a base seen before never reaches the root |

## Left out

- NewFrame.NewFrameOpt: an uninitialized terminal with autowrap off, insert, origin or LNM on, DECSCA set or a link open, for which the source emits nothing; what such a repaint makes of it is not described. Also titles, bell, clipboard, reverse video, mouse, keypad, focus and keyboard modes, which are synchronized field by field, and the DECSCA flag, which SGR does not carry.
- EndToEnd.ShowFrame: the same uninitialized terminals.
- Mirror.DumpVtMirror: wider, narrower and shorter mirrors get the full dump.
- Replay.DumpVtTail: the alternate screen, graphics, colours, cursor shape, character sets and kitty keyboard state of a dump, and prompt marks.
- Dump.FlowOnScreen: looks compare what renders; the style and link stored in the spacer of a wide character are not compared, since nothing draws them.
- Resize.ReflowedOk: rows with split pairs are not reflowed, so the source's fallback for an orphaned cursor cell is not reached; prompt marks carried by rows are not modelled.
- Repaint.DumpVtFlat: a target that was not cleared, whose old cells stay behind the end of each row.
- Terminal.Emulator.Process: the alternate screen, tab motion, CUD, CUF, CUB, VPA, REP, RIS, DECSTR, DECCOLM, selective erase, C1 controls, character sets, titles, responses and modes that do not bear on drawing.
- Cells.WriteEffect: character widths are a property of the glyph (blank, narrow, wide, mark); the `wcwidth` tables are not part of this model. Hyperlinks and URIs are numbers. Coordinates are unbounded, where the source has 16 bits.
- Parser.CsiParser.Advance: the inside of OSC, DCS and APC strings, and what UTF-8 decoding makes of a collected character.
- Png.Unfilter: chunk walking, CRC and the conversion to RGBA.
- Graphics.RunsWithinQuota: base64, file transmission and chunked transmission before an image is stored; relative placements, extents and responses. The cells a deletion hits come in as a predicate. In runs of commands a recomposed canvas comes in as bytes of the size that `ImageStore.GraphicsState.ComposeFrames` proves, and `RunsKeepPixels` takes the PNG decoder at its word that a picture has the bytes its size asks for.
- Compose.ComposeChain: the list of frames seen is a set.
- Viewport.CascadeExhausts: a failed dial is taken to name the session that was dialled, as the caller does.
- Frames.FrameRoundTrip: the base checksum is carried, not computed; the fixed payloads of the other capabilities are not part of this model.
- Wire.TableRoundTrip: tables beyond 255 entries or payloads beyond 255 bytes, which the source asserts do not occur.
