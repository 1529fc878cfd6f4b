# Verified models of AvoryOS user-space code

This project models the parts of AvoryOS whose correctness is not obvious from
reading one function, and proves properties of them in Dafny 4.11.
`dafny verify dfyconfig.toml` checks everything.

- **Installer screen** (`userland/avory-installer.c`). Drawing interprets text with
  ANSI escapes onto a cell grid; a flush prints the difference of two grids through a
  64 KiB buffer. `Terminal` is the interpreter, `Control` what printed
  sequences do, `Repaint` the printed bytes, `Tui` the in-place renderer, `Session` whole runs of drawing, forced redraws and flushes.
- **MP3 decoder, integer side** (`userland/minimp3.h`, `userland/minimp3_ex.h`).
  `Bits` reads bits, `Mp3Header` and `Mp3Frames` find frames, `Mp3SideInfo` reads
  Layer III side info, `Mp3Reservoir` carries main data across frames, `Mp3Reader`
  hands out samples in chunks, `Mp3Index` builds and searches the seek index. They are
  held against what an encoder writes: `BitWriter` and `Mp3Written` for side info,
  `Mp3HeaderWritten` for headers, `Mp3Stream` and `Mp3Delivery` for files made of frames.
  The format is that of sections 2.4.1.3, 2.4.1.7, 2.4.2.3, 2.4.2.7 and 2.4.3.1 of
  ISO/IEC 11172-3.
- **Futex hand-off** (`userland/proc_bench.c`). `Futex` is the state machine of two
  threads that pass a turn with load, wait-if-equal, store and wake.
- **Makefile evaluator** (`scripts/linux/kbuild-subset.py`). `Conditionals` relates the
  line machine to structured programs, `Expansion` treats `$(...)` expansion as text,
  `Kbuild` is the evaluator with its variables.
- **Text editor** (`userland/kilo.c`). `Kilo` relates edits on an array of rows to
  edits on one flat text.
- **Disk tooling** (`scripts/`). `ImageCopy` is the sparse copy with all its fallbacks,
  `Symlinks` the two symlink resolvers, `BuildCache` the interruptible save and restore
  of a disk image.
- **DNS codec** (`userland/dns_resolver.c`). `Dns` builds queries, skips names and
  finds address records, as in sections 2.3.4, 4.1.2, 4.1.3 and 4.1.4 of RFC 1035.

Where a promise fails, the model keeps the code and the exact condition is proved:

- Drawing can leave an ESC in a cell. A flush then fails to repaint exactly where it sends
  the ESC directly in front of a bracket of the next cell: two neighbouring sent cells of
  one pen are painted if and only if they are not ESC and `[` (`Repaint.PairPaints`), and
  without such a pair every flush repaints (`Repaint.EmitRepaints`).
- The standard has no scale factor selection for the first granule, but its records get
  private bits of the frame, exactly when they are not short and those bits are not 0
  (`Mp3SideInfo.SelectionBits`, `Mp3SideInfo.PrivateBitsSelected`).
- What reading delivers is independent of the chunks for every decoder if and only if at
  most `INT_MAX + 1` bytes of the stream are left: up to there it is
  (`Mp3Reader.Reader.ReadInTwo`), and on every longer stream some decoder makes it depend
  on them (`Mp3Reader.LongStreamsDependOnChunks`).
- Conditions in arms that are not taken are still evaluated (`Kbuild.UntakenArmMatters`).
  The machine gets through if and only if none of them fails
  (`Conditionals.MachineSucceeds`). Its sequence of reports, which keeps their order and
  repetitions, is the right one if and only if none of them reports anything
  (`Conditionals.MachineMeetsMeaning`), and likewise for the reports of one kind
  (`Conditionals.MachineReports`). The program keeps undefined names in a set, where a
  repeated name changes nothing: a name is in it if and only if it was before, the meaning
  uses it or a skipped condition does (`Conditionals.MachineReported`).
- A key acts on rows and cursor as on one flat text and a position, for every cursor inside
  a row, if and only if it does not join rows while the column offset is other than 0
  (`Kilo.PressIsFlat`, `Kilo.JoinCursor`). Backspaces alone can lead to such a join
  (`Kilo.JoinTwiceMissesSeam`), and it keeps the cursor inside a row if and only if the
  condition of `Kilo.BackspaceInside` holds (`Kilo.JoinLeavesRow` says when it leaves one).
  A key keeps the cursor on the screen if and only if it does not join onto a row longer
  than the screen is wide (`Kilo.CursorOnScreen`).
  Loading and saving gives a file back if and only if it is empty or ends with a newline
  (`Kilo.LoadSave`).
- A query name is skipped if and only if it has at most 127 labels, which names within
  the 255 octets of RFC 1035 always do (`Dns.QueryName`); the builder itself does not
  enforce the 255 octets.

## Model

| member | source | states |
|---|---|---|
| `Terminal.ScanDecimal` | userland/avory-installer.c:173-181 | Scanning the decimal print of any number, followed by anything, stores that number as the current argument and continues after it. |
| `Terminal.InterpKeepsPens` | userland/avory-installer.c:164-239 | Whatever text is drawn, the pen and the pens of all cells stay among those a flush can reproduce. |
| `Terminal.InterpKeepsSize` | userland/avory-installer.c:226-235 | Drawing never changes the size of the grid, wherever the cursor is sent. |
| `Terminal.InterpKeepsDrawable` | userland/avory-installer.c:164-239 | Whatever text is drawn, no cell ever holds a line end and every pen stays valid. |
| `Terminal.InterpLeavesNoEsc` | userland/avory-installer.c:168-233 | Text whose ESCs all open control sequences leaves no ESC in a cell. |
| `Control.CsiObeyed` | userland/avory-installer.c:168-216 | A printed control sequence with one to eight arguments, any of them left out, is obeyed with exactly these arguments, 0 for one left out, and reading goes on behind it. |
| `Control.FurtherArguments` | userland/avory-installer.c:173-181 | Behind eight arguments a semicolon is read over, so further digits run into the eighth. |
| `Control.AttributesInOrder` | userland/avory-installer.c:184-211 | A sequence with several attributes acts as one sequence for each of them, in order. |
| `Control.SgrFg` | userland/avory-installer.c:188-207 | The foreground is decided by the last argument that is 0, 39 or one of the sixteen foreground codes, and kept if there is none. |
| `Control.SgrBg` | userland/avory-installer.c:188-211 | The same for the background with 0, 49 and the background codes. |
| `Control.SgrBold` | userland/avory-installer.c:188-203 | The same for bold with 0, 1 and 22. |
| `Control.CursorMoves` | userland/avory-installer.c:157-216 | H and f put the cursor at the printed row and column, counted from 1; 0 and a missing argument mean 1. |
| `Control.CursorHome` | userland/avory-installer.c:212-216 | Without any argument the cursor goes to the first cell. |
| `Control.OthersIgnored` | userland/avory-installer.c:184-216 | Any other command changes nothing. |
| `Control.TextIsWritten` | userland/avory-installer.c:226-235 | Plain text goes to the cells from the cursor on with the pen, what lies outside the grid is lost, and the cursor ends behind it. |
| `Control.LineEnds` | userland/avory-installer.c:218-224 | A line end leads to the first column of the next row, a carriage return to the first column. |
| `Repaint.JumpRuns` | userland/avory-installer.c:286-291 | The cursor jump that a flush prints is understood by the interpreter as exactly that jump. |
| `Repaint.PenRuns` | userland/avory-installer.c:293-302 | Reset plus the printed attributes takes any terminal from any pen to exactly the wanted pen. |
| `Repaint.CellRuns` | userland/avory-installer.c:284-306 | The bytes of one dirty cell, with jump and attributes left out where the tracked terminal state allows it, paint that cell and keep the tracking right, unless it is an ESC and a bracket follows. |
| `Repaint.LastSent` | userland/avory-installer.c:284-306 | The output of a row ends with its last dirty cell, and the tracked position and pen are those of that cell. |
| `Repaint.RowRuns` | userland/avory-installer.c:273-307 | The bytes of any prefix of a row paint its dirty cells and nothing else, as long as no two neighbouring sent cells of one pen hold ESC and a bracket. |
| `Repaint.PaintRowsShows` | userland/avory-installer.c:257-308 | Painting the dirty cells of the first rows makes those rows show the back grid and leaves the others alone. |
| `Repaint.EmitRepaints` | userland/avory-installer.c:251-316 | For all grids without such a pair, a terminal that shows the front grid (any terminal under a forced redraw) shows the back grid after interpreting the emitted bytes, NUL as blank. |
| `Repaint.IncrementalEqualsFull` | userland/avory-installer.c:251-321 | The minimal redraw and a forced full repaint of any other terminal end with the same picture. |
| `Repaint.SilentIfClean` | userland/avory-installer.c:251-308 | Nothing is sent if and only if no cell differs and no redraw is forced. |
| `Repaint.PairPaints` | userland/avory-installer.c:168-304 | The bytes of two neighbouring sent cells of one pen paint both, on every terminal, if and only if they are not ESC and a bracket; if they are, they paint neither. |
| `Repaint.CellCost` | userland/avory-installer.c:284-306 | A redrawn cell costs at most 30 bytes. |
| `Repaint.EmitCost` | userland/avory-installer.c:257-308 | The output of the first n rows is at most 30 bytes per cell. |
| `Session.StepStaysReady` | userland/avory-installer.c:164-321 | Drawing any text, a forced redraw and a flush without an ESC and bracket pair each keep front grid and terminal in agreement, and the flush shows the drawing. |
| `Session.SessionShowsDrawing` | userland/avory-installer.c:164-321 | In every run of draws, redraws and flushes, of which no flush sends an ESC and bracket pair, the terminal shows the drawing after each flush; on screens of at most 2184 cells every flush fits the buffer. |
| `Session.PlainTextIsShown` | userland/avory-installer.c:137-321 | From a screen of at most 2184 cells without ESC in a cell, in every run that draws only text whose ESCs open control sequences, every flush fits, sends no such pair and shows the drawing; nothing is supposed about the flushes. |
| `Session.SmallScreensFit` | userland/avory-installer.c:137-142 | On a screen of at most 2184 cells the output of a flush is shorter than the buffer, in every state of a session. |
| `Session.RedrawRecovers` | userland/avory-installer.c:251-330 | After a forced redraw one clear flush shows the drawing, whatever the terminal has come to show. |
| `Tui.SpanIsEnough` | userland/avory-installer.c:258-273 | Restricting a row to the span from its first to its last dirty cell changes neither output nor result. |
| `Tui.PlanGrid` | userland/avory-installer.c:257-308 | The row-by-row, cell-by-cell output built by the loops is the output of the specification. |
| `Tui.FlushEffect` | userland/avory-installer.c:137-142 | What was buffered is the whole output if and only if that is shorter than the buffer; up to 2184 cells it always is. |
| `Tui.Tui.RunCommand` | userland/avory-installer.c:183-217 | Obeying a scanned command in place has the effect of the specified command on grid, cursor and pen. |
| `Tui.Tui.ScanFrom` | userland/avory-installer.c:170-182 | The index loop scans the arguments that the recursive scan gives, stopping at the same place. |
| `Tui.Tui.BufWrite` | userland/avory-installer.c:164-239 | The pointer loop over the text is a drawing step of the session. |
| `Tui.Tui.RawWrite` | userland/avory-installer.c:137-142 | Text is appended if it fits and dropped whole otherwise, so the buffer holds the full output unless that has outgrown it. |
| `Tui.Tui.DirtySpan` | userland/avory-installer.c:258-269 | The reported first and last column are dirty, and no cell outside them is. |
| `Tui.Tui.SendCell` | userland/avory-installer.c:286-306 | The printf calls for one cell add exactly its bytes. |
| `Tui.Tui.FlushSpan` | userland/avory-installer.c:273-307 | The column loop sends the planned bytes and copies the span to the front row. |
| `Tui.Tui.FlushRow` | userland/avory-installer.c:257-308 | A row is brought up to date and sent as planned, clean rows at no cost. |
| `Tui.Tui.FlushRows` | userland/avory-installer.c:257-308 | After the row loop the front grid is the back grid and the buffer holds the specified output unless it overflowed. |
| `Tui.Tui.Flush` | userland/avory-installer.c:251-316 | Front becomes back; the terminal gets all bytes if and only if they fit, which 2184 cells guarantee, and then a terminal in step with the front grid shows the back grid unless an ESC and bracket pair was sent. |
| `Tui.Tui.ForceRedraw` | userland/avory-installer.c:318-321 | A forced redraw brings a terminal in any state back in step. |
| `Bits.ValueSplit` | userland/minimp3.h:248-262 | The number in a+b bits is the number in the first a bits shifted by b plus the number in the next b. |
| `Bits.ReadSplit` | userland/minimp3.h:248-262 | Inside the limit two reads compose to one; once the position has passed the limit every read answers 0. |
| `Bits.OrDisjoint` | userland/minimp3.h:258-261 | Or-ing numbers without common bits adds them. |
| `Bits.Gather` | userland/minimp3.h:250-261 | The byte loop with masks, shifts and or computes the big-endian number of the bits at the position. |
| `Bits.BitReader.GetBits` | userland/minimp3.h:248-262 | A read advances by n bits and answers the number there, or 0 past the limit. |
| `BitWriter.NumberStands` | userland/minimp3.h:248-262 | A number written in any number of bits, most significant first, anywhere in a buffer, is the number read there. |
| `BitWriter.FieldsRead` | userland/minimp3.h:248-262 | Fields written one after the other are all read back, each at its place. |
| `BitWriter.PackStands` | userland/minimp3.h:248-262 | Bits packed in eights stand in the bytes, whatever is put around them. |
| `Mp3Header.FrameBytesBounds` | userland/minimp3.h:281-314 | Every valid header that is not free format gives at least 20 bytes, in Layer III at most 1440. |
| `Mp3HeaderWritten.FieldsReadBack` | userland/minimp3.h:264-271 | A written header is valid if and only if its fields are legal, and every field is read back. |
| `Mp3HeaderWritten.AgreeingFields` | userland/minimp3.h:273-279 | Two headers agree if and only if the second is legal and version, layer, sampling rate and free format are the same. |
| `Mp3HeaderWritten.EveryHeader` | userland/minimp3.h:264-271 | Every four bytes that begin with the sync bits are written from some fields. |
| `Mp3HeaderWritten.RateIsStandard` | userland/minimp3.h:281-288 | The bitrate is that of the tables of the standard for version, layer and field. |
| `Mp3HeaderWritten.HzIsStandard` | userland/minimp3.h:290-294 | The sampling rate is that of MPEG-1, halved for MPEG-2 and again for MPEG-2.5. |
| `Mp3HeaderWritten.LengthIsStandard` | userland/minimp3.h:296-314 | A frame is 12 slots of four bytes, 144 bytes or 72 bytes times bitrate over sampling rate, as its layer and version have it, and padding adds one slot. |
| `Mp3Frames.MatchFrame` | userland/minimp3.h:1657-1669 | The answer is whether up to ten further headers agree with the first until the input ends, at least one of them. |
| `Mp3Frames.AcceptedFrame` | userland/minimp3.h:1671-1706 | A recognised frame lies inside the input and is all of it or is followed by an agreeing header; free-format sizes stay below 2304. |
| `Mp3Frames.FreeSearch` | userland/minimp3.h:1678-1693 | The search loop finds the free-format size of the specification. |
| `Mp3Frames.FindFrame` | userland/minimp3.h:1671-1706 | The result is the least offset at which a frame is recognised, or the input length when there is none. |
| `Mp3Frames.Locate` | userland/minimp3.h:1720-1737 | The frame chosen is the one that continues the stream, or else the first recognised one after clearing the decoder. |
| `Mp3Frames.LocatedFrame` | userland/minimp3.h:1720-1746 | A located frame is inside the input, in Layer III of at most 2304 bytes, and leaves a consistent synchronisation state. |
| `Mp3Stream.StreamInStep` | userland/minimp3.h:1657-1669 | Frames of any stream whose headers agree keep in step, from every frame on. |
| `Mp3Stream.StreamRecognised` | userland/minimp3.h:1671-1706 | The first frame of every stream of agreeing frames is recognised at its first byte, with its length. |
| `Mp3Stream.DecodesInOrder` | userland/minimp3.h:1720-1737 | A decoder without a state finds that frame, and what is left is the rest of the stream. |
| `Mp3Stream.StreamContinues` | userland/minimp3.h:1720-1730 | With the header of the frame before, the next one is taken up without a search. |
| `Mp3SideInfo.SideInfoFillsBytes` | userland/minimp3.h:517-607 | Head and records fill exactly 32, 17, 17 or 9 bytes. |
| `Mp3SideInfo.MainDataBeginLsf` | userland/minimp3.h:527-530 | In MPEG-2 the pointer is the first byte whatever private bits follow. |
| `Mp3SideInfo.MainDataBeginBound` | userland/minimp3.h:522-530 | The main-data pointer is at most 511. |
| `Mp3SideInfo.ScfsiStereo` | userland/minimp3.h:526-597 | After all masks and shifts each second-granule record holds the selection bits of its channel, 0 if either granule is short; first-granule records hold 0 and private bits. |
| `Mp3SideInfo.ScfsiMono` | userland/minimp3.h:526-597 | The same for mono, where the first record holds private bits unless it is short. |
| `Mp3SideInfo.SelectionBits` | userland/minimp3.h:522-597 | From the bits of the frame: each second-granule record gets the four selection bits of its channel, 0 if a granule of the channel is short; first-granule records get private bits unless short; in MPEG-2 all get 0. |
| `Mp3SideInfo.PrivateBitsSelected` | userland/minimp3.h:522-606 | A stereo frame with all private bits set and nothing else is accepted, and a record of its first granule gets selection 7. |
| `Mp3SideInfo.ReadWindow` | userland/minimp3.h:550-589 | Both window-switching branches read 23 bits, and block type 0 is refused. |
| `Mp3SideInfo.ReadGranule` | userland/minimp3.h:538-595 | A record is read field by field exactly as laid out, and refused exactly when big values exceed 288 or the block type is 0. |
| `Mp3SideInfo.TakeScfsi` | userland/minimp3.h:534-597 | The arithmetic on the word takes out the digits that the digit-wise chain prescribes. |
| `Mp3SideInfo.ReadGranules` | userland/minimp3.h:532-599 | The record loop reads all records of the layout, sums their lengths and stops at the first bad one. |
| `Mp3SideInfo.ReadSideInfo` | userland/minimp3.h:484-607 | Side info is accepted if and only if all records are sound and their data can be there, and then its fields are those of the layout, its selections those stated for SelectionBits and its size is exact. |
| `Mp3Written.RecordReads` | userland/minimp3.h:538-595 | A record written from fields in the order of the standard is read back, on both window branches and for both versions. |
| `Mp3Written.SideReadsBack` | userland/minimp3.h:484-607 | Side info written anywhere in a buffer is accepted if and only if its data can be there, and then pointer, every field of every record and the selections are those written. |
| `Mp3Written.WriteAndRead` | userland/minimp3.h:484-607 | Writing a side info between other bytes and reading it gives it back. |
| `Mp3Reservoir.Decoder.RestoreReservoir` | userland/minimp3.h:1228-1236 | The assembled data are the last reserved bytes asked for, followed by the payload; it succeeds if and only if enough were reserved. |
| `Mp3Reservoir.Decoder.SaveReservoir` | userland/minimp3.h:1212-1226 | What is kept is the unread tail, at most 511 bytes, and still a suffix of all payloads so far. |
| `Mp3Reservoir.Decoder.DecodeGranules` | userland/minimp3.h:1238-1247 | The position ends at the sum of the granule lengths. |
| `Mp3Reservoir.Decoder.ParseBody` | userland/minimp3.h:1753-1766 | In an accepted frame the granules' data end inside the payload counted from the pointer. |
| `Mp3Reservoir.Decoder.UsePayload` | userland/minimp3.h:1767-1777 | Assembling, decoding and saving keep the reservoir a suffix of the stream of payloads, the assembled data within 511+2304 bytes and the final position within them. |
| `Mp3Reservoir.Decoder.DecodeLayer3` | userland/minimp3.h:1759-1777 | An accepted frame adds its payload to the stream, and on success its data start exactly the pointer before that payload; a refused one changes no data. |
| `Mp3Reservoir.Decoder.DecodeFrame` | userland/minimp3.h:1713-1806 | Every call keeps the reservoir invariant over whole runs, through continued, resynchronised, refused and missing frames. |
| `Mp3Reader.RefillKeepsRest` | userland/minimp3_ex.h:909-974 | Decoding one more frame into the buffer changes nothing about the samples still to be delivered. |
| `Mp3Reader.FramesIgnoreInfo` | userland/minimp3_ex.h:989-991 | Within INT_MAX bytes of the end, starting without frame info does not change what is delivered. |
| `Mp3Reader.Deliver` | userland/minimp3_ex.h:975-984 | Handing out buffered samples takes them off the front of what is left, also where the detected length cuts it. |
| `Mp3Reader.Reader.Refill` | userland/minimp3_ex.h:933-973 | One turn of the decode loop sets the fields as specified, error exits included. |
| `Mp3Reader.Reader.Fill` | userland/minimp3_ex.h:909-974 | The loop ends with samples, at the end or with an error, and loses nothing. |
| `Mp3Reader.Reader.ReadFrame` | userland/minimp3_ex.h:895-985 | What is returned is a prefix of the samples left and the rest stays; nothing is returned only when nothing is left. |
| `Mp3Reader.Reader.Read` | userland/minimp3_ex.h:987-1013 | A read delivers exactly the requested number of the samples left, or all of them, and leaves the others if at most INT_MAX+1 bytes were left. |
| `Mp3Reader.Reader.ReadInTwo` | userland/minimp3_ex.h:987-1013 | With at most INT_MAX+1 bytes left, reading n and then m samples delivers what one read of n+m does; the position never passes a detected length. |
| `Mp3Reader.LongStreamsDependOnChunks` | userland/minimp3_ex.h:938-943 | On every stream longer than INT_MAX+1 bytes some decoder makes the chunks matter. |
| `Mp3Delivery.FileShifts` | userland/minimp3_ex.h:938-943 | What is delivered from an offset depends only on the bytes from there on: dropping bytes before it changes nothing. |
| `Mp3Delivery.FramesDeliver` | userland/minimp3_ex.h:909-974 | Frames that come next in the file deliver their samples in order without the first ones to skip, frames that cannot be decoded counting with their nominal length, and reading goes on behind them. |
| `Mp3Delivery.FileDelivers` | userland/minimp3_ex.h:895-985 | A reader opened on a file of frames will deliver exactly their samples without those to skip, cut at the detected length. |
| `Mp3Delivery.ReadAll` | userland/minimp3_ex.h:987-1013 | A read of such a file gives exactly the first of these samples. |
| `Mp3Delivery.FormatEnds` | userland/minimp3_ex.h:945-950 | A frame of another sampling rate or layer ends the delivery. |
| `Mp3Index.CountsGrow` | userland/minimp3_ex.h:687-697 | An entry with the running total keeps every entry the sum of the lengths before it, and the index sorted. |
| `Mp3Index.Index.LoadIndex` | userland/minimp3_ex.h:641-698 | A frame is indexed unless it is a tag or scanning is off; a usable tag gives the length without delay and padding. |
| `Mp3Index.Index.Restart` | userland/minimp3_ex.h:774-778 | A scan that was put off starts over from an empty index at sample 0. |
| `Mp3Index.Index.Iterate` | userland/minimp3_ex.h:527-564 | The first frame indexed is the first one recognised in the buffer or behind a leading tag, each further one the first recognised behind the one before, and at the end none is left. |
| `Mp3Index.BinarySearch` | userland/minimp3_ex.h:720-740 | For every position above 0 the search stays inside the index and finds an entry at the position or else the last one below it. |
| `Mp3Index.TaggedLength` | userland/minimp3_ex.h:660-667 | Where the announced frames are long enough, a tag gives their samples less delay and padding on each channel, and never more than all of them. |
| `Mp3Index.Index.Find` | userland/minimp3_ex.h:720-805 | In the index a scan has built, the search finds a frame before which at most the wanted number of samples lies, and unless that is the exact number or the last frame, the position is within the samples of that frame. |
| `Futex.StepKeepsInv` | userland/proc_bench.c:424-482 | Every atomic step of either thread keeps the protocol invariant. |
| `Futex.TimeoutKeepsInv` | userland/proc_bench.c:427-435 | So does a wait that times out. |
| `Futex.NotStuck` | userland/proc_bench.c:424-482 | In every reachable unfinished state some thread can step, without any timeout. |
| `Futex.StepDecreases` | userland/proc_bench.c:424-482 | Every step without timeout decreases a measure. |
| `Futex.HandOversAlternate` | userland/proc_bench.c:424-482 | In every run the helper is level with main or one ahead, as the word says, and a thread asleep on a stale word has a wake coming. |
| `Futex.RunsAreBounded` | userland/proc_bench.c:424-482 | No run without timeouts has more than 20*iter+5 states. |
| `Futex.RunsComplete` | userland/proc_bench.c:424-482 | A run that cannot go on has made iter hand-overs on both sides. |
| `Conditionals.BlockRuns` | scripts/linux/kbuild-subset.py:420-452 | The lines of any block, in any context, have the effect of the block where the stack is active and only evaluate conditions elsewhere. |
| `Conditionals.ChainRuns` | scripts/linux/kbuild-subset.py:362-394 | The same for the rest of an if chain under its frame. |
| `Conditionals.RealRefinesExec` | scripts/linux/kbuild-subset.py:328-394 | What the machine does is the structured meaning if no condition in a skipped arm fails, and an error otherwise. |
| `Conditionals.MachineMeetsMeaning` | scripts/linux/kbuild-subset.py:157-452 | For every well-nested file that the line machine gets through, it ends with an empty stack and the variables of the structured meaning; it also makes exactly the reports of the meaning if and only if no condition in a skipped arm fails or reports. |
| `Conditionals.MachineSucceeds` | scripts/linux/kbuild-subset.py:328-452 | The machine gets through a well-nested file if and only if its meaning is defined and no condition in a skipped arm fails. |
| `Conditionals.FilteredRuns` | scripts/linux/kbuild-subset.py:420-452 | Reports of other kinds never influence the machine: leaving them out of the language leaves them out of the log and changes nothing else. |
| `Conditionals.MachineReports` | scripts/linux/kbuild-subset.py:149-452 | Of any kind of reports the machine makes those of the meaning, in order, if and only if no condition in a skipped arm makes one of that kind. |
| `Conditionals.MachineReported` | scripts/linux/kbuild-subset.py:152-452 | The machine has reported something in the end if and only if it had before, the meaning reports it or a condition in a skipped arm does. |
| `Conditionals.UntakenConditionStops` | scripts/linux/kbuild-subset.py:328-347 | In every language and with any variables, a failing condition inside an arm that is not taken stops the machine although the meaning is defined. |
| `Conditionals.UntakenConditionReports` | scripts/linux/kbuild-subset.py:328-347 | A condition there that reports something adds its reports, which the meaning has not. |
| `Expansion.WordsGrow` | scripts/linux/kbuild-subset.py:188-197 | Appending with a blank and stripping appends the words. |
| `Expansion.ExpandJoin` | scripts/linux/kbuild-subset.py:201-229 | Texts that expand, joined by white space, expand to their expansions joined by it. |
| `Expansion.ExpandGrow` | scripts/linux/kbuild-subset.py:188-229 | A value grown by append expands to the words of both parts. |
| `Expansion.WordsReadBack` | scripts/linux/kbuild-subset.py:87-88 | The words of a text are those it was put together from, whatever white space is between them. |
| `Expansion.StripIsCore` | scripts/linux/kbuild-subset.py:193-196 | Stripping finds the one text without white space at its ends that is surrounded by white space only. |
| `Expansion.SourceExpands` | scripts/linux/kbuild-subset.py:201-229 | Every text written from characters, escaped dollar signs and references with balanced brackets expands to their meanings in order. |
| `Expansion.UnclosedFails` | scripts/linux/kbuild-subset.py:212-224 | A reference whose brackets are never closed is an error, whatever stands before it. |
| `Kbuild.SplitJoins` | scripts/linux/kbuild-subset.py:91-118 | The arguments joined by commas give the body back. |
| `Kbuild.SplitFuncArgs` | scripts/linux/kbuild-subset.py:91-118 | The index loop splits as specified and loses no character. |
| `Kbuild.SplitReadsBack` | scripts/linux/kbuild-subset.py:91-118 | Arguments with commas only inside references, and references closed before the next argument, are read back as they are. |
| `Kbuild.SplitIsWritten` | scripts/linux/kbuild-subset.py:91-118 | Every text is split into such arguments. |
| `Kbuild.ExpandText` | scripts/linux/kbuild-subset.py:201-229 | The index loop with its bracket counting computes the recursive expansion, errors included. |
| `Kbuild.EagerGrowth` | scripts/linux/kbuild-subset.py:167-197 | A variable set by := and grown by += has the words of each piece as expanded when it was added, whatever else is assigned. |
| `Kbuild.LazyGrowth` | scripts/linux/kbuild-subset.py:167-197 | The text of a variable set by = or += expands to the words of all its pieces, whatever the references mean where it is used. |
| `Kbuild.LazyValue` | scripts/linux/kbuild-subset.py:167-197 | The value of a variable set by = or += is, in any variables that hold its text, the words of all its pieces expanded in those variables. |
| `Kbuild.EagerIsFixed` | scripts/linux/kbuild-subset.py:185-187 | A variable set by := has the value its right-hand side had then, at any depth and whatever is assigned to other variables later. |
| `Kbuild.EagerFails` | scripts/linux/kbuild-subset.py:175-187 | Such an assignment is an error if and only if it names nothing or its right-hand side does not expand. |
| `Kbuild.EagerVariable` | scripts/linux/kbuild-subset.py:167-197 | From its := on, a variable grown by += has the words of every piece as expanded when it was added. |
| `Kbuild.LazyVariable` | scripts/linux/kbuild-subset.py:167-197 | From =, or ?= and += where it is not defined, a variable is expanded in the variables of the place of use: alone exactly as its text, grown by += with the words of all pieces. |
| `Kbuild.DefaultKeeps` | scripts/linux/kbuild-subset.py:177-180 | ?= does nothing to a defined variable. |
| `Kbuild.OthersKept` | scripts/linux/kbuild-subset.py:175-198 | Assignments leave all other variables as they are. |
| `Kbuild.ReferenceIsValue` | scripts/linux/kbuild-subset.py:231-237 | A reference to a name, with blanks around it, is the value of the variable. |
| `Kbuild.ReferenceCalls` | scripts/linux/kbuild-subset.py:231-240 | A reference with a blank calls the function before the first blank with the arguments behind it. |
| `Kbuild.ComparesTexts` | scripts/linux/kbuild-subset.py:337-341 | ifeq holds if and only if both sides expand to one text apart from surrounding white space, and ifneq if and only if not. |
| `Kbuild.TestsVariable` | scripts/linux/kbuild-subset.py:331-336 | ifdef holds if and only if the variable is defined and its value is not all white space, and ifndef if and only if not. |
| `Kbuild.SourceNotes` | scripts/linux/kbuild-subset.py:201-229 | A written text notes what its references note, in order, and nothing else. |
| `Kbuild.ReferenceNotes` | scripts/linux/kbuild-subset.py:160-172 | A reference notes a name if and only if it is not defined; a lazy variable adds what its text notes. |
| `Kbuild.UntakenArmMatters` | scripts/linux/kbuild-subset.py:328-360 | An ifdef arm that is not taken and holds a condition that cannot be parsed stops the evaluation; one that holds a condition on an undefined name adds that name to the undefined ones. |
| `Kbuild.Evaluator.PushCond` | scripts/linux/kbuild-subset.py:328-347 | Pushing a condition changes the stack as the machine specifies, error cases included. |
| `Kbuild.Evaluator.HandleElse` | scripts/linux/kbuild-subset.py:362-394 | A plain else switches the top frame as the machine specifies and is refused twice or without a condition. |
| `Kbuild.Evaluator.HandleElseIf` | scripts/linux/kbuild-subset.py:362-390 | An else-if tests its condition only where the chain is live and undecided. |
| `Kbuild.Evaluator.ParseLines` | scripts/linux/kbuild-subset.py:409-458 | The line loop runs the line machine on variables, notes and stack, for directives, assignments, bare references and refused lines. |
| `Kbuild.Evaluator.ParseWellNested` | scripts/linux/kbuild-subset.py:152-459 | A well-nested file is read to the end if and only if its meaning is defined and no condition in a skipped arm fails; it leaves exactly the variables of the meaning, the undefined names are those known before, of the meaning and of skipped conditions, and the list of unknown functions is that of the meaning if and only if no skipped condition adds to it. |
| `Kilo.InsertCharIsFlat` | userland/kilo.c:661-721 | With the position in a row, typing a character inserts it at the matching offset of the flat text. |
| `Kilo.InsertNewlineIsFlat` | userland/kilo.c:725-758 | Typing a newline inserts one at that offset. |
| `Kilo.DelCharIsFlat` | userland/kilo.c:684-793 | Backspace deletes the byte before that offset, within a row or by joining two, and keeps the position inside a row exactly under the condition of BackspaceInside. |
| `Kilo.BackspaceInside` | userland/kilo.c:761-793 | Away from the very start, backspace keeps the cursor inside a row if and only if it deletes within the row or the joined row has the old length of the row above plus the column offset as a column. |
| `Kilo.InsertCharUndone` | userland/kilo.c:661-793 | Backspace after a typed character restores rows and position. |
| `Kilo.InsertNewlineUndone` | userland/kilo.c:725-793 | Backspace after a typed newline restores rows and position. |
| `Kilo.JoinCursor` | userland/kilo.c:767-783 | Joining two rows puts the cursor at the seam if and only if the column offset is 0. |
| `Kilo.JoinTwiceMissesSeam` | userland/kilo.c:767-790 | On every screen width, backspaces through a row at least two longer than the screen leave a column offset below 0, and the next join misses the seam by as much as the row was too long. |
| `Kilo.JoinLeavesRow` | userland/kilo.c:761-793 | After these backspaces no edit is possible, the cursor being in front of the first column, if and only if the row above is shorter than that. |
| `Kilo.PressIsFlat` | userland/kilo.c:661-793 | From every state with the cursor in a row, a key keeps it in a row and edits the flat text and its position, if and only if it does not join rows while the column offset is other than 0. |
| `Kilo.EditingIsFlat` | userland/kilo.c:661-793 | Every run of keys without such a join, from every state with the cursor in a row and rows of any length, edits the flat text and its position one byte at a time. |
| `Kilo.CursorOnScreen` | userland/kilo.c:703-793 | A key keeps the cursor on the screen if and only if it does not join onto a row longer than the screen is wide. |
| `Kilo.LoadSave` | userland/kilo.c:637-657 | Loading a file and joining the rows gives the file back if and only if it is empty or ends with a newline. |
| `Kilo.Editor.InsertRowAt` | userland/kilo.c:592-610 | Growing the array and moving the rows behind the place up one by one puts the row between the others; beyond the end nothing happens. |
| `Kilo.Editor.DelRowAt` | userland/kilo.c:621-631 | Moving the rows behind the place down one by one removes the row and keeps the others in order. |
| `Kilo.Editor.InsertCharHere` | userland/kilo.c:703-721 | Rows and cursor become those of the specified edit, rows added below the end included; it is refused exactly where the position lies before the first column or row. |
| `Kilo.Editor.InsertNewlineHere` | userland/kilo.c:725-758 | The same for a newline, which needs no column where there is no row. |
| `Kilo.Editor.DelCharHere` | userland/kilo.c:761-793 | The same for backspace. |
| `Kilo.Editor.RowsToString` | userland/kilo.c:637-657 | The buffer filled row by row is the flat text. |
| `Kilo.Editor.Open` | userland/kilo.c:797-827 | The line loop appends one row for each line. |
| `Symlinks.WalkIsPlain` | scripts/image-runtime.py:18-37 | A resolved path has no empty, dot or dot-dot component and no prefix that is a link. |
| `Symlinks.ResolveIsFinal` | scripts/image-runtime.py:14-37 | Resolving a result again changes nothing. |
| `Symlinks.EntryLeads` | scripts/image-runtime.py:24-37 | For every directory that resolves: an ordinary entry stays, one that cannot be looked up is an error, and a link leads where its target leads, from the root if absolute and from the directory if relative, if and only if at most 40 links are followed in all. |
| `Symlinks.DotComponents` | scripts/image-runtime.py:18-23 | Empty and dot components stay in the directory, dot-dot leads to its parent and from the root to the root. |
| `Symlinks.BelowNothing` | scripts/image-runtime.py:14-37 | Below a path that does not resolve nothing does. |
| `Symlinks.FromRoot` | scripts/image-runtime.py:14-17 | A path without a leading slash is taken from the root. |
| `Symlinks.WalkInTwo` | scripts/image-runtime.py:14-37 | A path can be resolved in two parts, the links of the first counting for the second. |
| `Symlinks.WalkLater` | scripts/image-runtime.py:32-36 | Links followed before change nothing but how many are left. |
| `Symlinks.ResolvePath` | scripts/image-runtime.py:14-37 | The loop terminates within 40 links and computes the specified resolution, errors included. |
| `Symlinks.EveryPathCuts` | scripts/incremental-disk-apps.py:186-187 | Every path has a directory part and a name without a slash. |
| `Symlinks.DestinationIsResolvedParent` | scripts/incremental-disk-apps.py:186-240 | For every destination, with a slash or without, the result is its name in the resolved directory part, and an error exactly when the name is empty, dot or dot-dot or the directory part does not resolve. |
| `Symlinks.Installer.InstallDestination` | scripts/incremental-disk-apps.py:180-240 | With the memo in any state reached by earlier calls the result is that of a fresh resolution. |
| `ImageCopy.Copier.WriteChunk` | scripts/image_copy.py:99-105 | Short writes are repeated until the chunk is written, or the fault is raised. |
| `ImageCopy.Copier.CopyExtent` | scripts/image_copy.py:81-105 | An extent is copied byte for byte through any short counts and a switch from kernel copy to read and write. |
| `ImageCopy.Copier.CopySparse` | scripts/image_copy.py:31-105 | Copying only the data extents of a cleared range equals copying all of it, for every pattern of holes. |
| `ImageCopy.Copier.CopyImageRange` | scripts/image_copy.py:55-107 | An allowed copy succeeds if and only if no system call failed for good or made no progress, and then the range equals the source; nothing outside ever changes. |
| `BuildCache.StepKeepsInv` | scripts/disk-build-cache.py:92-143 | Every file operation, failure, interruption and outside change keeps metadata vouched for by a completed capture. |
| `BuildCache.CapturesAreSaves` | scripts/disk-build-cache.py:92-101 | Every capture goes back to a save that compared fingerprints with that copy in hand, while the disk held the same bytes. |
| `BuildCache.RunHasStart` | scripts/disk-build-cache.py:117-143 | Every state of a restore belongs to one run with a start; nothing is captured in between and the disk stays as it was up to the replacement. |
| `BuildCache.AcceptedWasCompared` | scripts/disk-build-cache.py:117-138 | A restore that goes on to replace the disk has, in the same run, compared the current fingerprint with the metadata and found them equal. |
| `BuildCache.RestoreIsRight` | scripts/disk-build-cache.py:92-143 | In every history a restore that returns 0 leaves the bytes that were on the disk when a save before its start captured it under the fingerprint this restore itself compared last, and one that returns 3 has not changed the disk since its start. |
| `BuildCache.SaveSaves` | scripts/disk-build-cache.py:92-114 | A save that is not disturbed leaves the bytes of the disk in the cache under the fingerprint of the inputs. |
| `BuildCache.RestoreRestores` | scripts/disk-build-cache.py:117-143 | A restore that is not disturbed puts the cached bytes on the disk and returns 0 if and only if the cache fits its metadata and the inputs, and else returns 3 and changes nothing. |
| `BuildCache.SaveThenRestore` | scripts/disk-build-cache.py:92-143 | With unchanged inputs a save and a restore bring the disk back, whatever was on it in between. |
| `Dns.SkipName` | userland/dns_resolver.c:12-25 | The loop with its hop counter skips as specified, reading only inside the packet. |
| `Dns.SkipEncoded` | userland/dns_resolver.c:12-25 | Every well-formed name, ended by the root or a compression pointer, is skipped to its end wherever it stands. |
| `Dns.SplitNameJoins` | userland/dns_resolver.c:32-38 | The labels of an accepted name, joined by dots, are the name apart from a trailing dot. |
| `Dns.StoreLabels` | userland/dns_resolver.c:31-38 | The loop writes the length-prefixed labels one by one and stops at an empty, long or unfitting one. |
| `Dns.BuildQuery` | userland/dns_resolver.c:27-41 | The buffer holds the specified query if and only if the name has valid labels and the query fits; else the result is -1. |
| `Dns.QueryName` | userland/dns_resolver.c:12-41 | From offset 12 the name is skipped to 4 bytes before the end if and only if it has at most 127 labels, its labels read back are those put in, and 255 octets imply at most 127 labels. |
| `Dns.QueryAsksForName` | userland/dns_resolver.c:27-41 | The labels read back from the query built for an accepted name, joined by dots, are that name apart from a trailing dot. |
| `Dns.QueryLayout` | userland/dns_resolver.c:27-41 | The bytes of a query: identifier, recursion desired, one question and no records, the name, the root, type and class IN. |
| `Dns.ParseReply` | userland/dns_resolver.c:47-84 | The parser computes the specified answer for every byte string, reading only inside it. |
| `Dns.FoundIsFirst` | userland/dns_resolver.c:53-61 | The record found is the first of the wanted type, class and length in the record walk, and one is found whenever the walk meets one. |
| `Dns.RecordFound` | userland/dns_resolver.c:55-60 | An encoded record is read back with its fields and data wherever it stands. |
| `Dns.ReplyAnswered` | userland/dns_resolver.c:47-84 | For every encoded reply the answer is the first wanted record of its list, records of other types before it included, if and only if identifier and flags are right. |

## Left out

- Integer widths: C and Python integers are unbounded here; argument values of control sequences, buffer offsets and sample counts that exceed the C types are not modelled.
- Installer screens, disk detection, partitioning, and a resize arriving in the middle of a flush.
- MP3 samples: Huffman tables, dequantisation, stereo, IMDCT and synthesis; `L3_huffman` is kept only as leaving the bit position at the granule's end.
- MP3 Layers I and II beyond frame search; whether such a frame decodes is a parameter.
- Side-info fields derived from tables (scale factor bands, region defaults); the table selectors are kept as one number.
- The modes of the decoder without an output buffer, callback and memory-mapped input, ring buffers, ID3 tags, VBR tag parsing (its result is a parameter), allocation failure and seeking beyond the index search.
- Futex: the final join on the child's thread id, and waiting threads other than the two.
- Kbuild.ExpandText: recursion is bounded by a limit, as Python's recursion limit bounds it; make functions other than references are a parameter.
- Kbuild.Evaluator.ParseLines: include lines, comments and line continuations are not modelled; lines come classified, and an else-if without an argument, which stops the program even where the chain is not live, is not among them.
- Kbuild: `$(call ...)` probes and object lists; white space is that of ASCII, and the additions to the set of undefined names and to the list of unknown functions are kept in one sequence.
- Kilo: what a write in front of a row destroys, row indices, rendering, syntax highlighting, screen drawing, file I/O.
- ImageCopy.Copier.CopyImageRange: opening the files, fsync and the progress message.
- Symlinks: the parsing of debugfs output; a look-up answers link, no link or error.
- `sync_partition` and the other partition steps of incremental-disk-apps.py: plain chunk loops.
- BuildCache: hashing and file identity are taken as collision-free, temporary files are private, and disk and cache are not touched by others while a script runs; two saves at the same time are not modelled.
- Dns: sockets, polling and retries; null pointers.
- The kernel, games, benchmarks and remaining user programs: plumbing or easy members.
