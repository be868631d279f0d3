# A verified model of the mission supervisor's stateful algorithms

LLM Bridge supervises long-running agent missions. Most of its code is input, output and
presentation; its correctness rests on a small number of stateful algorithms that each have a simple
meaning. This project models those algorithms in Dafny and proves that each one keeps its meaning:

- **Bracketed paste** (`Paste.dfy`, `Utf8.dfy`): an incremental parser with a bounded buffer answers
  for any byte stream, cut into any chunks, what "find START, find the first END, take what is
  between" says about the whole stream. Decoding is the strict UTF-8 of section 4 of RFC 3629.
- **Terminal cells** (`Cells.dfy`): clipping draws exactly a window of the cells the text would
  draw. Text is given a meaning as a grid of whole and half characters with their marks.
- **Wrapping** (`Wrapping.dfy`): the wrapping loop produces the one wrapping of a line, the slice
  fast path is that wrapping, and the maps between rows and columns invert each other.
- **Case-folded search** (`Search.dfy`): both search paths return the same, best source offset.
- **Background reload** (`Reload.dfy`): a screen thread and its workers, in every interleaving.
- **Event paging and skip-scan** (`EventLog.dfy`, `Paging.dfy`, `TopK.dfy`): a cursor cache against
  plain `OFFSET` paging, and per-kind reads against one filter over the log.
- **Log compaction** (`Refresh.dfy`): updating a row in place against always appending.
- **Control-mode stream and writer role** (`ControlStream.dfy`, `Writer.dfy`): a line reader over
  arbitrary chunks, and any number of sessions competing for one writer role per mission.
- **Rotating log** (`Logs.dfy`): nested loops over a file system, with a closed form in all bytes ever
  written.
- **Agent tree** (`Forest.dfy`, `ForestOrder.dfy`, `ChildClosure.dfy`): a stack-based preorder that survives cycles, and
  a worklist that computes a least fixed point.
- **Operator commands** (`Commands.dfy`): concurrent deliveries that may crash between any two steps.

Objects whose methods update fields are classes with those fields; each method is proved against a
function of the inputs or of the old state, and the promises are proved about that function. Ghost
fields (`stream`, `history`, `full`, ...) record what an object was given so far. Where several threads
or processes take part, each statement or locked region is a step of a state machine over values, the
class methods are tied to the same step functions, and the theorems are about every run of the machine.

Assumptions, in the terms of the program: SQLite transactions started with `BEGIN IMMEDIATE` are
serialised and roll back completely; event ids increase; file operations of the log sink succeed and
nobody else touches its files; a database load sees one version of the database; `PRAGMA data_version`
tells versions apart; one thread calls the screen side of a reload. Character widths and case foldings
are parameters: any function into 0, 1 or 2 cells that gives printable ASCII one cell, and any folding
that never drops a character.

## Model

| member | source | states |
|---|---|---|
| Utf8.DecodeIsInverse | llm_tools/bridge_input.py:242 | strict decoding succeeds on a byte string exactly when it is the encoding of a text, and then gives that text |
| Utf8.EncodingTable | llm_tools/bridge_input.py:242 | the encoding of each character has the length, the marker bits and the value bits of the table of RFC 3629 |
| Paste.NormalizeConvertsExactlyLoneCrs | llm_tools/bridge_input.py:143-150 | exactly the CRs not followed by LF become LF, everything else stays, none is left, and a second pass changes nothing |
| Paste.BracketedPaste.constructor | llm_tools/bridge_input.py:159-168 | a new decoder has received nothing and waits |
| Paste.BracketedPaste.Reset | llm_tools/bridge_input.py:174-182 | the decoder is as new |
| Paste.BracketedPaste.WaitingMeansUnanswered | llm_tools/bridge_input.py:170-172 | the decoder is waiting exactly when it was given bytes since its last answer |
| Paste.BracketedPaste.Interrupt | llm_tools/bridge_input.py:184-188 | what is unfinished is quarantined, without touching the buffer or the counts |
| Paste.BracketedPaste.Feed | llm_tools/bridge_input.py:190-248 | for any earlier chunks, the decoder answers exactly when the whole stream first has a meaning, with that meaning in result, `done` and `error`; afterwards at most max_bytes + 5 bytes are held (5 when outside a paste or discarding) |
| Paste.BracketedPaste.Locate | llm_tools/bridge_input.py:193-201 | START is found exactly when the whole stream has one, and keeping five bytes loses none |
| Paste.BracketedPaste.Overlap | llm_tools/bridge_input.py:219-222 | the longest proper prefix of END that ends the buffer |
| Paste.BracketedPaste.DiscardDone | llm_tools/bridge_input.py:204-210 | an oversized paste that was not interrupted is reported with its exact payload length, wherever discarding began |
| Paste.BracketedPaste.StillOpen | llm_tools/bridge_input.py:218-233 | discarding begins only when no continuation could still bring END within the limit, so a payload within the limit never enters it |
| Paste.ResumedSearch | llm_tools/bridge_input.py:202-203 | resuming the search just before the part already scanned never skips the first END |
| Paste.TooMuchIsPastLimit | llm_tools/bridge_input.py:219-224 | when the buffer without a partial END exceeds the limit, the payload must exceed it too |
| Paste.FeedAll | llm_tools/bridge_input.py:190-248 | over any sequence of chunks each answer is that of the stream since the last answer |
| Paste.MeaningOfPaste | llm_tools/bridge_input.py:234-248 | `pre START payload END` means: accepted with normalised text if and only if the payload is within the limit and valid UTF-8, otherwise the matching error |
| Paste.PrefixStillWaits | llm_tools/bridge_input.py:190-233 | a stream cut before its first END has no meaning yet |
| Paste.ChunkIndependence | llm_tools/bridge_input.py:190-248 | however one paste is cut into chunks, every chunk but the last answers nothing and the last answers for the payload alone |
| Paste.FeedPaste | llm_tools/bridge_input.py:190-248 | a new decoder fed one paste, cut anywhere, answers nothing, is not done and reports no error until the last chunk, and then is done: with the byte count and the limit when it is too long, an error when it is not UTF-8, and else with the text in which each CR not followed by LF is LF |
| Paste.FeedInterrupted | llm_tools/bridge_input.py:184-213 | a decoder interrupted anywhere in a paste, cut anywhere, never returns any of it, reports an incomplete paste, is done at its END and then waits for nothing |
| Cells.MeasureCellWidth | llm_tools/bridge_input.py:43-72 | the ASCII fast path and the measuring loop give one width, with tabs padding to multiples of eight |
| Cells.WidthOfNext | llm_tools/bridge_input.py:60-72 | a tab goes on to the next multiple of eight cells and any other character adds its own cells |
| Cells.ExpandedSpelled | llm_tools/bridge_input.py:86 | before clipping, a tab becomes one to eight spaces that end in a column divisible by eight, counted in characters since the last line break, and any other character stays |
| Cells.CellSliceMeasured | llm_tools/bridge_input.py:82-100 | the clipping loop with its early exit computes the clip of the whole expanded text |
| Cells.ClippingDrawsWindow | llm_tools/bridge_input.py:82-100 | for every text, start and non-negative width, what is drawn is exactly that window of the text's cells: characters wholly inside with their marks, a space for each half cut by an edge, nothing else |
| Cells.NoStrayMark | llm_tools/bridge_input.py:88-91 | no mark is kept without the character it sits on |
| Cells.NegativeWidthDrawsNothing | llm_tools/bridge_input.py:92-98 | a negative width draws nothing |
| Cells.AsciiClip | llm_tools/bridge_input.py:77-78 | on printable ASCII plain slicing gives the clip, and when the loop stops |
| Cells.ClippingIsExact | llm_tools/bridge_input.py:75-100 | for non-negative start and width the result has exactly min(width, max(0, total - start)) cells and draws the window |
| Cells.CellSlice | llm_tools/bridge_input.py:75-79 | the slice fast path equals the measured loop, for every start and width, and both are exact |
| Cells.InputView | llm_tools/bridge_input.py:103-108 | the caret column is the width of the text before the cursor, or the last column of the field when that is wider, and the text is clipped to a window that begins that many cells before the caret; on tab-free text no cell before the caret is missing |
| Wrapping.RowsAreTheWrapping | llm_tools/bridge_documents.py:373-397 | on a tab-free line whose characters fit the width, rows are the result if and only if they concatenate to the line, each is non-empty and fits, and each but the last is full or one cell short before a two-cell character; an empty line gives one empty row |
| Wrapping.WrappingIsUnique | llm_tools/bridge_documents.py:373-397 | a line has at most one such wrapping |
| Wrapping.WrapFoldKeeps | llm_tools/bridge_documents.py:381-394 | after every character the finished rows and the open row hold exactly the text read, finished rows are closed rightly and the open row is not full |
| Wrapping.TabWraps | llm_tools/bridge_documents.py:382-394 | after any text, tabs included, a tab pads the row to the next multiple of eight cells if the row is that wide; if not, it pads a new row, or the row itself while that has no cells, to eight cells or to the width |
| Wrapping.WideEnough | llm_tools/bridge_documents.py:374 | at width two or more every character fits |
| Wrapping.SlicesAreRows | llm_tools/bridge_documents.py:375-377 | on printable ASCII the plain slices are the rows of the loop |
| Wrapping.WrapCells | llm_tools/bridge_documents.py:373-397 | both paths return the rows of the line, tabs included |
| Wrapping.WrapCount | llm_tools/bridge_documents.py:366-370 | the count, rounded up by negated floor division on the fast path, is the number of rows |
| Wrapping.ColumnForWrappedRow | llm_tools/bridge_documents.py:341-359 | on tab-free text the column is the summed lengths of the rows before, and the end of the line past the last row; at widths below one every character counts as a row |
| Wrapping.WrappedRowForColumn | llm_tools/bridge_input.py:122-140 | at every width, when the text before the column is tab-free: the cell is that of the wrapping, and so is the row if and only if the width is at least two or no two-cell character comes before the column; otherwise it is lower by one row for each of them |
| Wrapping.MapsInvert | llm_tools/bridge_documents.py:341-359 | when no character is wider than the field, the start of row r maps back to (r, 0), except to (r - 1, width - 1) exactly when a two-cell character was pushed down to start it |
| Wrapping.PositionIsExact | llm_tools/bridge_input.py:122-140 | when no character is wider than the field, every source column of a tab-free line maps to the row whose span holds it and to exactly the cells between the start of that row and the column |
| Search.OffsetsTell | llm_tools/bridge_documents.py:414-418 | each entry of the offset table names the character whose folding holds that position |
| Search.FirstIsStart | llm_tools/bridge_documents.py:420-423 | the first table entry at or above a bound is where that character's folding begins |
| Search.OneToOne | llm_tools/bridge_documents.py:406-411 | when folding keeps the total length, folded positions are source offsets |
| Search.FindCasefold | llm_tools/bridge_documents.py:400-425 | forward: the least offset above `last` where a folded match begins; in reverse: the greatest whose match ends by `last`; -1 if and only if there is none or the needle is empty; on both paths |
| Search.FindDirect | llm_tools/bridge_documents.py:406-411 | the equal-length fast path meets that promise |
| Search.FindByTable | llm_tools/bridge_documents.py:412-425 | the offset-table path meets that promise |
| Search.FoundIsUnique | llm_tools/bridge_documents.py:400-425 | the promise leaves one answer, so the two paths agree in both directions |
| Search.MatchInPrefix | llm_tools/bridge_documents.py:419-421 | a match that ends by an offset is a match of the source cut at that offset, and conversely |
| Search.SearchAll | llm_tools/bridge_documents.py:254-263 | asking forward again from each answer lists every offset where a match begins, once each, in order, and ends |
| Reload.BackgroundReload.constructor | llm_tools/bridge_redraw.py:179-199 | a new object owes a first read |
| Reload.BackgroundReload.Request | llm_tools/bridge_redraw.py:201-203 | the next decision starts a read whatever the probe says |
| Reload.BackgroundReload.Invalidate | llm_tools/bridge_redraw.py:205-210 | the generation moves on, a waiting result is dropped, and a read is requested |
| Reload.RunningMeansReading | llm_tools/bridge_redraw.py:212-214 | in every run, running is reported exactly while some load is between its start and its `_done.set()` |
| Reload.BackgroundReload.Take | llm_tools/bridge_redraw.py:236-245 | the waiting result is taken once; a failure clears the baseline and delays the next probe; a missing baseline is set |
| Reload.BackgroundReload.Decide | llm_tools/bridge_redraw.py:248-264 | a read starts exactly when one was requested or a due probe failed or differs from the baseline, which becomes that probe's answer; a start uses up the request, and a probe sets the next one at the fast, slow or failure interval |
| Reload.BackgroundReload.Publish | llm_tools/bridge_redraw.py:271-273 | only an outcome of the current generation is published |
| Reload.BackgroundReload.SetDone | llm_tools/bridge_redraw.py:274 | the read no longer counts as running |
| Reload.BackgroundReload.Poll | llm_tools/bridge_redraw.py:228-260 | an uninterrupted poll holds, delivers, waits for the running read, or decides, and nothing else |
| Reload.RunsKeep | llm_tools/bridge_redraw.py:166-277 | in every interleaving: one reader, no stale outcome can be delivered, and the baseline is covered by a read that saw it or will |
| Reload.AtMostOneReader | llm_tools/bridge_redraw.py:246-277 | at most one load runs between a start and its `_done.set()` |
| Reload.DeliveredIsFresh | llm_tools/bridge_redraw.py:205-210 | whatever is delivered was loaded after the last invalidation |
| Reload.QuietMeansCurrent | llm_tools/bridge_redraw.py:248-259 | if a decision past the probe interval, with a successful probe, starts nothing and no result waits, the last delivered value is of the current version, when the last read started with a successful probe |
| Reload.StartIsEnough | llm_tools/bridge_redraw.py:248-260 | after a start with a successful probe no continuation starts another read, as long as nothing was requested or invalidated, no new version was committed, no probe failed and no failed read was delivered |
| Reload.StartsHaveCauses | llm_tools/bridge_redraw.py:248-260 | in every run, of two starts one saw its probe fail, or between them there was a request, an invalidation, a new version, a failed probe or the delivery of a failed read |
| Reload.RequestIsServed | llm_tools/bridge_redraw.py:201-210 | in every run, a new object, and one asked for a read or invalidated, starts a read at its next decision, whatever the probe says |
| Reload.StaleIffStartProbeFails | llm_tools/bridge_redraw.py:240-258 | from every reachable state where a read is due on a screen with a probe: starting it can lead, without another read, to a quiet screen that does not hold the current version if and only if the probe of that start fails |
| Reload.FailureIsRetried | llm_tools/bridge_redraw.py:242-256 | from the delivery of a failure until another read starts, every decision made once the probe interval is over starts one, and the interval never exceeds the longer of fast and slow |
| Reload.NoProbeNoRetry | llm_tools/bridge_redraw.py:248-256 | without a probe a failure is not retried until a read is requested |
| EventLog.BoundSelectsSuffix | llm_tools/bridge_monitor.py:167-170 | an id bound that separates the first k rows selects exactly the rest |
| EventLog.NewestDescends | llm_tools/bridge_monitor.py:157-170 | without an anchor the query lists exactly the mission's events, with one those of them up to it, strictly descending |
| Paging.CursorPageIsPlain | llm_tools/bridge_monitor.py:164-170 | a page read from any valid remembered bound is the plain page |
| Paging.PlainPageIsPage | llm_tools/bridge_monitor.py:157-170 | the plain page, told from the log alone: descending, as many rows as the mission has events up to the anchor beyond the offset, at most 20, and row i has exactly offset + i newer such events |
| Paging.PageIsUnique | llm_tools/bridge_monitor.py:157-170 | no other list of rows is that page |
| Paging.RowIsCursor | llm_tools/bridge_monitor.py:174-177 | the id of a row, and the id before the next row, are valid bounds for its offset and the next |
| Paging.RememberIsValid | llm_tools/bridge_monitor.py:171-177 | what a page read remembers selects the suffix at its offset |
| Paging.AppendKeepsCursors | llm_tools/bridge_monitor.py:149-156 | appended events never invalidate a bound below an issued anchor |
| Paging.EventPages.Append | llm_tools/bridge_monitor.py:149-156 | an event gets the next id, and every bound remembered for an issued anchor stays valid |
| Paging.EventPages.EventPageRows | llm_tools/bridge_monitor.py:146-180 | over any run of appends and reads, across eviction, each page is that page of the log: always without an anchor and at the first read of an anchor, and later unless rows were remembered before the anchor was issued; exactly the bounds of its first row and of the row after a full page are added, the other keys stay or are evicted, and the rows skipped are those above the greatest remembered offset |
| Paging.EventPages.BestStart | llm_tools/bridge_monitor.py:164-165 | the greatest remembered offset not above the one asked for |
| Paging.EventPages.Store | llm_tools/bridge_monitor.py:171-179 | the page's bounds are remembered, its key becomes the newest, and only the 64 newest keys remain |
| Paging.WithoutCuts | llm_tools/bridge_monitor.py:172-179 | marking a key most recently used leaves the order of the others |
| Paging.InterleavedReadIsPlain | llm_tools/bridge_monitor.py:162-177 | when other threads append events, read pages or evict between the two locked regions of a read, the page is still the plain page and what it adds to the changed cache is valid |
| Paging.RememberedIffIssued | llm_tools/bridge_monitor.py:146-180 | for every log, anchor and offset with a non-empty page: what the first read remembers stays valid under every continuation of the log if and only if the anchor had been issued |
| Paging.DeletionMovesPages | llm_tools/bridge_monitor.py:164-170 | after any rows are deleted, the page read from a remembered bound is the plain page if and only if none of the rows before the bound was deleted or the page lies past the end |
| TopK.LeastKindIsLeast | llm_tools/bridge_monitor.py:120-125 | the query gives the least kind above the last one, and nothing exactly when there is none |
| TopK.DistinctKinds | llm_tools/bridge_monitor.py:119-127 | the skip-scan lists every kind of the mission, only those, strictly ascending |
| TopK.LastOfKind | llm_tools/bridge_monitor.py:130-135 | an event among the newest `limit` of a list is among the newest `limit` of its kind |
| TopK.CutOfMerge | llm_tools/bridge_monitor.py:136-137 | merging lists that hold the newest `limit` rows and cutting gives exactly those rows |
| TopK.LatestOperatorEvents | llm_tools/bridge_monitor.py:109-137 | the result is the newest `limit` rows of one filter over the whole log by mission, anchor and kind, oldest first: as many as there are up to the limit, and any such event left out is older than all of them |
| Refresh.SignatureIsState | llm_tools/bridge_refresh.py:44-56 | two observations have one signature if and only if they are equal up to the volatile keys, at every depth |
| Refresh.AgreeMeansSameView | llm_tools/bridge_monitor.py:462-516 | logs with the same newest payloads and times and the same order of newest rows give the monitor one projection |
| Refresh.ProjectionReads | llm_tools/bridge_monitor.py:462-516 | the projection told from the rows: the newest refresh or selection, the newest wait, which of them is newer, and the newest of all with its own time or that of its row |
| Refresh.AgreeAfterUpdate | llm_tools/bridge_refresh.py:286-293 | updating the newest refresh row looks like appending one when no wait or selection came after it |
| Refresh.IdTestIsOrder | llm_tools/bridge_refresh.py:289-291 | comparing the newest wait or selection id with the row's id is exactly that test, and the row can be updated |
| Refresh.PruneKeepsLatest | llm_tools/bridge_refresh.py:298-320 | pruning plumbing and older refresh rows leaves every newest row |
| Refresh.CapacityRefreshWorker.RecordRefresh | llm_tools/bridge_refresh.py:265-296 | the full log gains a row; in the table, if the newest refresh, wait or selection row is a refresh row of the same state up to volatile keys, its payload and time are rewritten and no other row is touched, and otherwise a row is added; nothing after a stop |
| Refresh.CapacityRefreshWorker.Load | llm_tools/bridge_refresh.py:279-283 | a restarted worker continues from the newest refresh row of the table |
| Refresh.CapacityRefreshWorker.Record | llm_tools/bridge_refresh.py:254-263 | other events are appended to both logs |
| Refresh.CapacityRefreshWorker.Prune | llm_tools/bridge_refresh.py:298-320 | rows are deleted from the table alone and the views still agree |
| Refresh.CapacityRefreshWorker.MonitorCannotTell | llm_tools/bridge_monitor.py:496-516 | after any run the projection of the table, times included, equals that of the log in which every observation was appended, and refresh rows number at most 1 + signature changes + wait and selection events |
| ControlStream.DecodeControlOutput | llm_tools/bridge_terminal_stream.py:29-42 | the index loop computes the unescaped bytes |
| ControlStream.UnescapeInverts | llm_tools/bridge_terminal_stream.py:29-42 | unescaping returns every payload as it was before escaping, and escaped bytes are printable |
| ControlStream.UnescapedSpelled | llm_tools/bridge_terminal_stream.py:29-42 | a backslash with three octal digits stands for the low eight bits of their number, and every other byte for itself |
| ControlStream.ParseText | llm_tools/bridge_terminal_stream.py:45-55 | an output line of the pane, in either notation and with any carriage returns at its end, gives its payload; any other line gives nothing |
| ControlStream.NothingForPane | llm_tools/bridge_terminal_stream.py:45-55 | a line gives no output if and only if it begins neither as a plain nor as an extended output line of the pane, or is an extended one without a separator |
| ControlStream.OtherPanesGiveNothing | llm_tools/bridge_terminal_stream.py:45-55 | output lines of any other pane, in either notation, give nothing, even when one name begins with the other |
| ControlStream.RStripDrops | llm_tools/bridge_terminal_stream.py:50-54 | all carriage returns and newlines at the end of the data are dropped, and nothing else |
| ControlStream.OneKind | llm_tools/bridge_terminal_stream.py:152-160 | no line is two of an output line of the pane, a pause line of it and an exit line |
| ControlStream.SplitInSteps | llm_tools/bridge_terminal_stream.py:149-151 | splitting a stream in two steps loses, repeats and reorders no line |
| ControlStream.TmuxPaneSource.ReadOutput | llm_tools/bridge_terminal_stream.py:140-161 | a chunk yields the output of exactly the lines it completes, the end exactly on an exit line or end of file, and the pause flag exactly on a pause line of the pane |
| ControlStream.TmuxPaneSource.TakeResync | llm_tools/bridge_terminal_stream.py:163-171 | a pause is reported once and cleared |
| ControlStream.ReadAll | llm_tools/bridge_terminal_stream.py:140-161 | over any chunks the concatenated results are the output of the complete lines of the stream |
| ControlStream.ReadMessages | llm_tools/bridge_terminal_stream.py:29-161 | escaped payloads, mixed with other lines and cut anywhere, come out as sent, up to the unfinished last line |
| Writer.WriterRegistry.constructor | llm_tools/bridge_terminal_stream.py:67-69 | nobody holds a role |
| Writer.WriterRegistry.Acquire | llm_tools/bridge_terminal_stream.py:71-77 | granted exactly when the role is free or already held by the caller, who then holds it; otherwise nothing changes |
| Writer.WriterRegistry.Release | llm_tools/bridge_terminal_stream.py:79-82 | the caller's role is given up, and a role held by another stays |
| Writer.HolderWasGranted | llm_tools/bridge_terminal_stream.py:71-86 | after any sequence of acquire and release calls a session holds a role if and only if it was granted that role and has not released it since |
| Writer.TerminalSession.constructor | llm_tools/bridge_terminal_stream.py:194-209 | a session starts as a viewer |
| Writer.TerminalSession.RefreshRole | llm_tools/bridge_terminal_stream.py:219-238 | a session that wants to write is in write mode afterwards if and only if it holds the role, which takes a free or own role and no local terminal; the role is given up for a local terminal; only a change is reported, with a redraw exactly after a resize |
| Writer.TerminalSession.HandleFrame | llm_tools/bridge_terminal_stream.py:240-264 | input is typed or the screen resized only for the holder with no local terminal and valid bounds; the audit counts grow by exactly what was typed |
| Writer.OnlyOwnRelease | llm_tools/bridge_terminal_stream.py:71-82 | in any step of any session, a role passes from its holder only by the holder's own release, and then to nobody |
| Writer.RunsKeep | llm_tools/bridge_terminal_stream.py:219-298 | over every interleaving of any number of sessions, each one's phase and mode imply that it holds its role where it must |
| Writer.WriterHoldsRole | llm_tools/bridge_terminal_stream.py:252-264 | whenever input is typed or the screen resized, the acting session is its mission's holder |
| Writer.OneWriter | llm_tools/bridge_terminal_stream.py:252-264 | two sessions of one mission are never both about to type or resize |
| Writer.EndedHoldsNothing | llm_tools/bridge_terminal_stream.py:288-298 | a session whose run ended, by any path, holds no role |
| Writer.RefreshAlone | llm_tools/bridge_terminal_stream.py:219-238 | run alone, the steps of a role refresh end in write mode with the session as holder exactly when it wants to write, there is no local client and the role is free or its own; they give its role up for a local client and else leave the registry alone, exactly as RefreshRole does |
| Writer.FrameAlone | llm_tools/bridge_terminal_stream.py:247-264 | run alone, the steps for a frame in bounds type, resize and refresh exactly when HandleFrame does |
| Writer.AnySessionCanEnd | llm_tools/bridge_terminal_stream.py:288-298 | from every point of its run a session can end, which gives up its role and touches no other |
| Writer.FreeRoleIsTaken | llm_tools/bridge_terminal_stream.py:219-253 | a waiting session that wants to write gets a free role at its next refresh with no local client, and then receives input |
| Writer.RolePassesOn | llm_tools/bridge_terminal_stream.py:219-298 | once the holder of a role ended, any other session of the mission that wants to write gets it at its next refresh with no local client |
| Logs.RotatingLog.Rotate | llm_tools/bridge_logs.py:12-22 | every copy moves one place up, the oldest is lost, and there is no live file |
| Logs.RotatingLog.AppendRotating | llm_tools/bridge_logs.py:25-58 | after any appends the directory is exactly the closed form of all bytes written, for every limit and rotation count; nothing happens for a limit of zero or less |
| Logs.AppendAll | llm_tools/bridge_logs.py:25-58 | however the bytes are split into appends, the files are these blocks of all the bytes |
| Logs.ImageKeeps | llm_tools/bridge_logs.py:12-58 | cut into blocks of max_bytes, of which only the last may be short, copy i is the block i places before the last, as far as there are blocks and up to `rotations` copies, and there are no other files |
| Logs.FilesAreBounded | llm_tools/bridge_logs.py:35-49 | every file holds between 1 and max_bytes bytes and every copy is full |
| Logs.JoinedIsTail | llm_tools/bridge_logs.py:12-22 | the files joined from the oldest are exactly the end of everything written |
| Logs.ImageStep | llm_tools/bridge_logs.py:32-57 | one turn of the loop takes the closed form from the bytes before to the bytes after |
| ChildClosure.EmitChildren | llm_tools/bridge_agents.py:455-476 | the known ids are the root and those emitted, closed under listed children, and contained in every such closed set; each thread is emitted once, after its parent; the loop ends |
| ChildClosure.Pass | llm_tools/bridge_agents.py:459-476 | one pass keeps every record sound, adds records in the order listed and, when it removes nothing, leaves only threads whose parent is unknown |
| Forest.ByIdIsDictionary | llm_tools/bridge_agents.py:550 | distinct agents are the last listed with each id |
| ForestOrder.ByIdKeepsOrder | llm_tools/bridge_agents.py:550 | they stand in the order in which their ids are first listed |
| Forest.SortByProps | llm_tools/bridge_agents.py:560-577 | sorting orders by the key and keeps exactly the agents |
| ForestOrder.SortIsStable | llm_tools/bridge_agents.py:560-577 | sorting keeps the order of agents with one key |
| Forest.WalkVisits | llm_tools/bridge_agents.py:564-578 | the walk visits each agent at most once, with or without parent cycles, and everything on the stack |
| Forest.WalkAppend | llm_tools/bridge_agents.py:564-578 | walking two stacks in turn is walking their concatenation |
| Forest.OrderedAgents | llm_tools/bridge_agents.py:545-579 | the stack loop returns the preorder walk from true roots and then from what is left, cut at 20000 rows |
| Forest.RowsAreDistinctAgents | llm_tools/bridge_agents.py:545-579 | exactly min(n, 20000) rows, each distinct agent at most once, and every one when they fit, even with parent cycles |
| Forest.TreeRowsFollowParents | llm_tools/bridge_agents.py:568-578 | under a true root each row comes after its parent's and shows depth min(tree depth, 64) |
| Forest.SubtreesAreContiguous | llm_tools/bridge_agents.py:564-578 | under a true root every subtree is one block of rows that its top begins |
| Forest.ListedSubtreesAreContiguous | llm_tools/bridge_agents.py:564-578 | of the rows listed, cut at 20000, the subtree is the block from its top to the cut |
| ForestOrder.StackOrder | llm_tools/bridge_agents.py:564-578 | of two waiting agents the one nearer the top of the stack is shown first |
| ForestOrder.SiblingsAreOrdered | llm_tools/bridge_agents.py:572-577 | below a true root siblings are listed in the order of their keys |
| ForestOrder.RootsAreOrdered | llm_tools/bridge_agents.py:559-562 | true roots are listed in the order of theirs |
| ForestOrder.RowsFollow | llm_tools/bridge_agents.py:559-578 | every row, in a tree or on a cycle: at depth zero it has the least key of all agents not shown yet, true roots first; else it is a child of an earlier row and one level deeper, up to 64 |
| ForestOrder.RootSpelled | llm_tools/bridge_agents.py:553-558 | a true root names no parent or one that is not listed |
| Commands.BridgeStore.ApplyOperatorCommand | llm_tools/bridge.py:262-285 | one delivery alone: it raises exactly for an unusable id, an unknown mission, another request under the id, or a broken effect of an unfinished command, and then changes nothing but queueing; a finished command's outcome is returned and nothing changes; otherwise an accepted effect is committed with its applied mark and result, and a refusal is stored with the data untouched |
| Commands.EnqueueIsSound | llm_tools/bridge_store.py:980-995 | inserting an absent command keeps the database sound |
| Commands.ApplyIsSound | llm_tools/bridge.py:275-279 | committing an accepted effect with its applied mark keeps it sound |
| Commands.RejectIsSound | llm_tools/bridge.py:280-285 | marking a refusal, or finding the command finished meanwhile, keeps it sound |
| Commands.RunsKeep | llm_tools/bridge.py:262-285 | for any deliveries, interleavings, crashes and writes of others: a sound database, one owner of the write lock, and what each delivery knows stays true |
| Commands.EffectsHappenOnce | llm_tools/bridge_commands.py:18-20 | whatever others write between: every command took effect at most once, exactly the applied ones did, and the data is the replay of their effects and of the writes of others |
| Commands.OnlyCommitsChange | llm_tools/bridge.py:262-285 | besides the writes of others, the database changes only by queueing a command, marking a refusal, or committing one effect in the step that marks it applied |
| Commands.FinishedIsInert | llm_tools/bridge.py:269-277 | a delivery of a finished command changes nothing |
| Commands.RepliesAgree | llm_tools/bridge_commands.py:18-20 | any two replies to deliveries of one command are the same stored outcome of the same request |
| Commands.OutcomesAreFinal | llm_tools/bridge_store.py:1011-1023 | a stored outcome never changes |
| Commands.OutcomesWereDecided | llm_tools/bridge.py:275-285 | in every run, a command is stored as applied, or as rejected, only after some statement ran the effect on its request and the data of that moment and it accepted, or refused, with the text stored |
| Commands.NoDeliveryIsStuck | llm_tools/bridge.py:262-285 | a delivery that is not over can continue as soon as no other one holds the lock it needs |
| Commands.DeliveriesEnd | llm_tools/bridge.py:262-285 | in every run, no delivery runs more than eleven statements |
| Commands.RedeliveryCompletes | llm_tools/bridge_commands.py:18-20 | from any state that crashes and other deliveries left, once the lock is free, a delivery that is let run returns within eleven statements: a stored outcome with nothing changed, or else, applied, what the effect makes of the present data, or, rejected, its refusal with the data untouched |
| Commands.UnfitIsRaised | llm_tools/bridge_store.py:980-993 | a delivery with an unusable id, for an unknown mission or for another request than the one stored raises and changes nothing |

## Left out

- RedrawPlanner, TimedElements, timeout_ms, wake_in and wait: scheduling arithmetic with no promise beyond one body.
- StoreChangeProbe: its reading is a parameter, either the current version or a failure.
- Reload.QuietMeansCurrent: assumes that the last read started with a successful probe; Reload.StaleIffStartProbeFails shows that nothing less will do.
- Reload: a worker thread that dies of something other than an exception is not modelled; the screen's calls all come from one thread.
- Paging.EventPages.EventPageRows: looks up, reads and stores in one step, Paging.InterleavedReadIsPlain covers what other threads do between; the store path in the cache key is left out, one store is modelled.
- Paging: the reader's runs have no deletions; Paging.DeletionMovesPages says for every deletion when a remembered bound still gives the plain page, and pruning does delete rows below anchors.
- TopK.LatestOperatorEvents: the decoding of rows into event dictionaries is left out, and rows are read in one snapshot.
- Refresh.Signature: the signature is the cleaned value itself; printing it as JSON with sorted keys is left out.
- Refresh: the check of the newest ids and the update are one step, and only this worker writes refresh rows; which rows the pruning takes is a parameter.
- Refresh: of the conditions for showing a wait only the order of the newest wait and the newest selection is modelled; the others do not read these rows. Parsing of times is left out.
- Cells and Wrapping: the Unicode tables are a parameter. Results about columns and rows are for tab-free text, because the functions treat tab padding differently.
- Refresh: SQLite errors, which drop the connection and reach the caller, are left out.
- Search: the one-character-at-a-time case folding is a parameter; how a match is scrolled into view is left out.
- ControlStream: after an exit line only the end of the stream is modelled; `select`, the pipe and the snapshot are left out.
- Writer.TerminalSession: the text of frames, base64 and the output path of `run` are left out; a frame arrives decoded.
- Writer: the interleaved sessions are modelled on values, one statement a step, with the registry's methods as atomic steps.
- Logs.RotatingLog: the OSError fallbacks, the size check after a rotation, which then never fires, and the pipe that feeds the sink are left out.
- Forest.OrderedAgents: the two sort keys are ranks, and the dictionary keeps insertion order as a sequence.
- Forest.SubtreesAreContiguous: is about the list before it is cut at 20000 rows; Forest.ListedSubtreesAreContiguous is about the cut list.
- ChildClosure.EmitChildren: which threads give no record is decided by whether the id is usable; the fields of a record are left out.
- Commands: others write only the data a command's effect works on, not the commands; events written beside a command, timestamps, JSON encoding of payloads and savepoints are left out; a command id that the caller does not give is a parameter.
- Commands: the interleaved deliveries are modelled on values, one statement a step, with the draft of the open transaction.
- Mission and task lifecycle, wake arming, processes and signals, tmux, curses drawing, HTTP, configuration, argument parsing and help: their guarantees rest on code outside this model or are those of libraries.
