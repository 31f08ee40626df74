# open-relay: verified models of its byte-stream machinery

open-relay runs terminal sessions in a daemon, lets clients attach to them and peers relay them.
This project models the parts that move bytes between those three and have to agree with a much
simpler specification under every chunking, interleaving and failure. Each module holds the model of
one component, the specification it is compared with, and the lemmas that connect the two.

| module | component |
|---|---|
| `Utf8`, `MatchLines`, `MatchScan` | waiting for a pattern in a session's output (`oly logs --wait match`) |
| `Base64`, `LogExport`, `LogCursor` | exporting a recorded stream, resumable cursor tokens |
| `PasteInput` | the Windows input decoder for bracketed paste and VT sequences |
| `Framing`, `AttachStream` | IPC lines and attach frames; the attach client's cursor, batching and credits |
| `TerminalEngine`, `OuterTerminal`, `AttachRenderer`, `AttachSession` | the attach renderer, the terminal it draws on, and whole sessions |
| `WindowSize`, `AttachLoop` | the size that the attach loop believes the window has, and the loop around the renderer |
| `Handshake`, `SealedChannel`, `Federation` | the federation handshake and the sealed channel |
| `NodeConfig`, `NodeManager` | peer rows, live connectors and inbound connections |
| `DiskScan` | the budgeted scan of the state directory |
| `Bytes`, `Text` | shared helpers |

## Main results

- **Attach renderer** (`AttachSession.Session`). Output is a list of terminal commands, interpreted
  on an abstract outer terminal with margins, origin mode, text attributes, two buffers and
  scrollback. Over any sequence of snapshot, output chunks, window changes and renderer resizes, the
  terminal that runs the emitted commands looks, after every event, as the events alone say: a
  window of the engine's size has all of the screen drawn by a chunk after a resize or by one that
  scrolls or switches buffers, and otherwise exactly the rows that the chunk changes; and its
  scrollback is exactly the rows that scrolled off, in order, since history was last cleared, less
  those forwarded while the window was taller than the engine. What a chunk draws, it draws inside one
  synchronized update. `AttachLoop.LoopIsSession` and
  `AttachLoop.HandledResizeRecovers` say the same of the loop that handles queued resize events and
  notices.
- **Sealed channel** (`Federation.Federate`, `SealedChannel.RunConnection`). Under a network that
  drops, replays, reorders, reflects, alters and invents frames, every encode and every delivery has
  the result that an ideal link of two queues gives it: a frame is accepted exactly when it is the
  peer's next frame, unchanged, and its payload parses. So what an end accepts is at every point a
  prefix of what its peer encoded and is counted by its receive sequence, and the first failure of
  any kind is final in both directions. What was sealed is what the results show, and no nonce
  repeats under a key; nor does a key across connections with different joins
  (`Federation.Reconnect`).
- **Waiting for a match** (`MatchScan.WaitForMatch`). Over any number of polls, pages, appends and
  restarts, and however the wait ends, the output searched is one contiguous piece of the pinned
  incarnation. Every poll but the last searched everything that it announced unless the daemon served
  nothing for its last page, and no match was there; the verdict is justified by what was searched in
  the end. `MatchScan.MatchMissedIff` says exactly when a poll misses an announced match,
  `MatchLines.PageIndependentIffSteady` for which patterns the answer does not depend on how the
  output is cut into pages.
- **Export** (`LogExport.RunExport`). A finished export is exactly the prefix of one incarnation that
  was pinned by the first request, as raw bytes or as one padded base64 string written in pieces; and
  it finishes whenever the session does not restart and every page has something in it.
- **Input decoder** (`PasteInput.PasteDecoder.PushAll`). Pushing characters one by one gives what a
  whole-input tokenizer gives; that tokenizer loses nothing, and every sequence of the input grammar is
  exactly one event (`PasteInput.SequenceIsOneEvent`).
- **Attach output** (`AttachStream.Attach`). For every batching, the terminal receives exactly the
  stream from the snapshot boundary to the cursor, which is every byte of the frames taken; the
  session fails exactly at a frame that is out of place or reports a failure, and stops exactly at a
  completion notice, whose final offset, if known, is the end of what was written.
- **Frames and lines** (`Framing`). Any prefix of a frame stream is read as exactly the frames that
  lie completely in it, then an error; a bounded line does not depend on how the reader chunks bytes.
- **Peers** (`NodeManager.NodeManager.Serve`). Through any requests and database failures every answer,
  row and inbound connection is what the requests before it make it, and the live connectors are
  exactly the enabled primary rows, each spawned from its current row, all others having been stopped.
  `NodeManager.NodeManager.Handle` says what each request does in terms of the request alone.
- **Disk scan** (`DiskScan.ScanBreakdown`). The figures count exactly the entries that the budget pays
  for, in the order of the scan and past everything that cannot be read. Every figure is a lower bound
  of the recursive sum; a partial reason is given exactly when a call failed or the entries outnumber
  the budget, and without one every figure is exact.

## Where the code differs from what it promises

- `match_lines` is described as page-independent. It is exactly for the patterns that never take back
  a match on a line in progress (`MatchLines.PageIndependentIffSteady`): when the decided text of a
  non-empty part of a line matches, so does that of every longer part, and so does the finished line.
  Patterns without an end anchor are of this kind (`MatchLines.ClosedIsSteady`). A pattern for empty
  lines is not: a page that ends inside a line's first character matches it
  (`MatchLines.EmptyLinePatternIsNotSteady`).
- A wait can report that a session ended without matching although the matching output exists: the
  scan stops at an empty page, and the poll has seen a session that is no longer running. A poll
  misses an announced match if and only if nothing was served for its last page and the output that
  it did not reach matches, together with the line in progress (`MatchScan.MatchMissedIff`). On a
  stopped session whose pages come back empty this happens for every pattern and every output
  (`MatchScan.StarvedWaitEnds`, with one concrete session in `MatchScan.MissedMatch`); a match whose
  pages were served is reported by the poll that announced it (`MatchScan.ServedMatchIsReported`).
- The notice that another client resized the session overwrites the size used to suppress repeated
  resizes. If the window has changed and its resize event is still queued, that event is then dropped
  and the renderer keeps the old size (`WindowSize.NoticeHidesResize`). Over whole runs
  `WindowSize.RendererFollows` says exactly when handling a resize leaves the renderer at the real size.
- A client that only observes never resizes its renderer (`WindowSize.ObserverKeepsItsSize`). When
  its window is taller than the renderer's engine, rows that scroll off are lost
  (`AttachRenderer.HistoryStep`); scrollback falls short of the history by exactly the rows lost since
  the last clear (`AttachSession.ScrollbackFallsShort`).
- A window that changes and changes back before its resize event is handled has the size last sent, so
  the renderer never hears of it and goes on with diffs against a cache that no longer describes the
  window. The window is faithful again if and only if some chunk since has scrolled or switched
  buffers, or else every row was redrawn since or already showed the engine's row, and likewise for
  the cursor (`AttachSession.UnheardWindowIsFaithfulIff`).
- A session id that contains `|` gets tokens that it cannot use itself (`LogCursor.TokenRoundTrip`).
- The control frame writer compares the payload length after truncating it to 32 bits
  (`Framing.WriteAttachControlFrame`), so its size check is exact only below 4 GiB.

## What the models assume

- The terminal engine is given by its operations: each carries the screen that results from it, an
  operation scrolls at most one screenful, and only the main buffer feeds history. Writing a row and
  erasing to the end of the line is one command, which never wraps. Outer scrollback counts the rows
  that commands push off the screen; what a window does with its own screen when it is resized is
  arbitrary.
- Authenticated encryption opens exactly what was sealed, with the same key, nonce, associated data
  and ciphertext. Both sides compute the same Diffie-Hellman secret. Where a result says so, the hashes
  of the transcripts at hand differ (`CollisionFree`) and the key derivation inputs at hand with
  different salts or info strings give different keys (`Separates`).
- The network, the daemon's timing and database failures are finite scripts or parameters; a script
  that runs out stands for a lost connection. Timeouts are nondeterministic.
- A window reply's next offset is the requested offset plus the length of its data, as the daemon
  computes it.
- Incarnation numbers are never reused, and row revisions never repeat.
- Control payloads are written and read by an invertible codec. The key and URL parsers read their
  own output back unchanged (`Lawful`).
- The attach stream stays one credit stride below 2^64 bytes, so the cursor does not saturate.

## Model

| member | source | states |
|---|---|---|
| `Utf8.ScalarIffWellFormed` | src/client/logs.rs:622-632 | a front is accepted as a character exactly when it is one well-formed sequence |
| `Utf8.InvalidIsMaximalSubpart` | src/client/logs.rs:622-632 | what is replaced at once is the longest beginning of a well-formed sequence, or one byte; only what may still become a character is left open |
| `Utf8.TextIsWellFormed` | src/client/logs.rs:622-632 | text can be cut into well-formed sequences |
| `Utf8.WellFormedIsText` | src/client/logs.rs:622-632 | and whatever can is text |
| `Utf8.CompleteUtf8Prefix` | src/client/logs.rs:622-632 | the loop over check errors terminates with the decided prefix of its input |
| `Utf8.StablePrefix` | src/client/logs.rs:604-632 | the decided prefix drops at most 3 bytes, drops only a proper prefix of a well-formed sequence, and its lossy decoding is a prefix of that of every extension of the input |
| `Utf8.LongerPrefixIsUnstable` | src/client/logs.rs:609-616 | it is the longest such prefix: with one byte more, some continuation contradicts what was decoded |
| `Utf8.SettledTextGrows` | src/client/logs.rs:609-616 | text shown to the pattern is never taken back by later output |
| `Utf8.CheckFindsFirst` | src/client/logs.rs:622-632 | the check reports the first place that is no character, after text, and how long it is unless the input ends in it |
| `Utf8.LossyFollowsCheck` | src/client/logs.rs:609-616 | decoding keeps text as it is and puts one U+FFFD where the check reports an error |
| `Utf8.LossyOfDecidedPrefix` | src/client/logs.rs:609-616 | decoding the decided prefix gives exactly the text that no later input can change |
| `MatchLines.MatchPage` | src/client/logs.rs:592-620 | the loop over the parts of a page, with the retained line as state, computes the page's outcome: match, retained line or size error |
| `MatchLines.LinesMakeUpStream` | src/client/logs.rs:592-599 | finished lines with their newlines and the unfinished line make up the stream; it fits exactly if each of them does |
| `MatchLines.PageDecides` | src/client/logs.rs:592-620 | a page matches exactly when a finished line of the stream does, or it ends inside a line whose settled text does; otherwise the unfinished line is retained |
| `MatchLines.FinishedLineIsFound` | src/client/logs.rs:592-620 | for every pattern and every cut, a finished line whose decoding matches is found |
| `MatchLines.MatchIsReal` | src/client/logs.rs:592-620 | for every pattern and every cut, a reported match is one that some prefix of the stream shows |
| `MatchLines.FittingStreamIsAnswered` | src/client/logs.rs:600-602 | no line over 1 MiB means no size error, whatever the cut |
| `MatchLines.UnansweredScanFits` | src/client/logs.rs:600-602 | a scan that ends without an answer has seen no line over 1 MiB |
| `MatchLines.CutDoesNotMatter` | src/client/logs.rs:591-620 | for steady patterns the outcome of any cut of a stream is a function of the stream |
| `MatchLines.PageIndependentIffSteady` | src/client/logs.rs:591-620 | all cuts of every stream with fitting lines agree if and only if the pattern is steady: a match on the decided text of a line in progress survives its growth and its end |
| `MatchLines.ClosedIsSteady` | src/client/logs.rs:591-620 | patterns that stay matched when text is appended are steady |
| `MatchLines.StreamMatchSurvives` | src/client/logs.rs:591-620 | for steady patterns a match is never taken back by further output |
| `MatchLines.TwoCuts` | src/client/logs.rs:591-620 | where the decided part of a line matches, a page that ends there answers at once, while one page answers by the text at its end |
| `MatchLines.EmptyLinePatternIsNotSteady` | src/client/logs.rs:604-616 | a pattern for empty lines is answered differently for two cuts of one stream |
| `MatchScan.ReadWindow` | src/client/logs.rs:552-580 | a page that passes both incarnation checks is a slice of the pinned stream, empty before its end only if the daemon served nothing; it fails only on a lost connection or a restart |
| `MatchScan.ScanForMatch` | src/client/logs.rs:541-589 | the pages searched are consecutive pieces of the pinned stream, the result is that of matching them in order, and a scan without a result stops short of an end that the stream had reached exactly when nothing was served for its last page |
| `MatchScan.ScanIsJustified` | src/client/logs.rs:541-620 | what each verdict says about the searched output: matched at some point, no finished line matches, or a line over the limit; exact for patterns closed under extension |
| `MatchScan.Poll` | src/client/logs.rs:470-536 | one poll compares incarnations and searches all that is new, up to an empty page; it goes on only with a running session and no match, and every other result has its cause |
| `MatchScan.KeepPolling` | src/client/logs.rs:470-536 | every poll but the last went on so, each begins where the one before has left the daemon and the search, and the last one gives the result |
| `MatchScan.WaitForMatch` | src/client/logs.rs:446-537 | over a whole wait, request by request and for every result: each earlier poll saw a running session, searched what it announced up to an empty page and found no match; the verdict is justified by one piece of the pinned stream from the start cursor on; ended only when stopped, timed out only when running, broken only by a lost connection, a restart or a stale cursor |
| `MatchScan.MatchMissedIff` | src/client/logs.rs:470-522 | for steady patterns, a poll without a result has missed a match in the output announced if and only if nothing was served for its last page and the unread output matches together with the line in progress |
| `MatchScan.ServedMatchIsReported` | src/client/logs.rs:470-522 | a match in output that a poll announced and was served is reported by that poll and by no later one |
| `MatchScan.StarvedWaitEnds` | src/client/logs.rs:470-522 | on a stopped session whose pages come back empty every wait reports the end, whatever the output and the pattern |
| `MatchScan.MissedMatch` | src/client/logs.rs:470-522 | a concrete session whose only output matches and whose wait reports the end |
| `Base64.Base64UrlNoPad` | src/config.rs:665-683 | the hand-written chunk loop computes the unpadded base64url encoding |
| `Base64.EncodeSplit` | src/client/logs.rs:288-306 | encoding splits at multiples of three bytes |
| `Base64.RoundTrip` | src/client/log_cursor.rs:27-45 | strict decoding inverts unpadded encoding |
| `Base64.PaddedText` | src/client/logs.rs:293-306 | padded text is the unpadded text filled up with '=' to a multiple of four characters |
| `Base64.PaddedRoundTrip` | src/client/logs.rs:293-306 | strict padded decoding inverts padded encoding |
| `Base64.AlphabetOrder` | src/config.rs:666 | the characters of both alphabets in their order |
| `Base64.TestVectors` | src/config.rs:665-683 | the encodings of "foo" and "f" in section 10 of RFC 4648 |
| `Base64.Canonical` | src/client/log_cursor.rs:38-45 | decoding accepts exactly the encodings, so no two texts decode alike |
| `LogExport.Sandwich` | src/client/logs.rs:150-202 | an incarnation that is current before and after a read was current during it |
| `LogExport.ReadPage` | src/client/logs.rs:150-202 | a page that passes the checks is a slice of the pinned incarnation at the asked offset, empty before the end only if nothing was served, and comes with where the stream stood before it was read; every failure is a lost connection, a restart or a position past the end |
| `LogExport.EncodeReady` | src/client/logs.rs:288-298 | between pages the carry is shorter than three bytes, and text and carry account for all bytes so far |
| `LogExport.RunExport` | src/client/logs.rs:246-309 | a finished export is exactly bytes 0..end of the incarnation pinned by the first request, raw or as one padded base64 string that decodes to them; it aborts only on a lost connection, without a stream, after a restart, or after an empty page of the pinned incarnation; without any of these it finishes, after at most three requests for every byte |
| `LogCursor.DecimalRoundTrip` | src/client/log_cursor.rs:27-69 | the number parser inverts decimal formatting for every 64-bit value |
| `LogCursor.PlainFields` | src/client/log_cursor.rs:27-57 | splitting a token body gives back version, session and both numbers |
| `LogCursor.PlainFieldCount` | src/client/log_cursor.rs:46-57 | it has four fields plus one for every separator in the session id |
| `LogCursor.TokenRoundTrip` | src/client/log_cursor.rs:27-69 | decoding inverts encoding for all 64-bit positions exactly when the session id has no separator; otherwise it is a usage error |
| `LogCursor.TokenOfAnotherSession` | src/client/log_cursor.rs:38-69 | a token of one session is rejected for every other, naming its owner |
| `LogCursor.AcceptedToken` | src/client/log_cursor.rs:38-69 | a token is accepted only if it decodes to "v1", this very session id and two 64-bit numbers |
| `LogCursor.NamedToken` | src/client/log_cursor.rs:38-69 | a token of the form "v1", owner and two fields names its owner to any other session, and is a position exactly if both fields are 64-bit numbers |
| `LogCursor.UnnamedIsUsage` | src/client/log_cursor.rs:38-69 | any other token is a usage error |
| `LogCursor.OtherVersionRefused` | src/client/log_cursor.rs:46-52 | a token of another version is a usage error |
| `LogCursor.SplitIsInverse` | src/client/log_cursor.rs:49-53 | splitting cuts at every separator and drops nothing else |
| `LogCursor.ParseU64Iff` | src/client/log_cursor.rs:62-64 | a number is an optional plus sign and digits below 2^64 |
| `Text.TrimIs` | src/client/log_cursor.rs:45-48 | trimming takes whitespace off both ends and nothing else |
| `PasteInput.PasteDecoder.Push` | src/client/attach_input.rs:27-65 | one character: events and unread text are those of tokenizing the old unread text and the character |
| `PasteInput.PasteDecoder.PushAll` | src/client/attach_input.rs:27-65 | for every string the decoder produces what the tokenizer makes of the whole input |
| `PasteInput.TokenizeAppend` | src/client/attach_input.rs:27-65 | later input re-tokenizes only what was still pending |
| `PasteInput.InputIsConserved` | src/client/attach_input.rs:27-65 | events put back on the wire, followed by the unread rest, are the input |
| `PasteInput.EventsAreWell` | src/client/attach_input.rs:27-86 | a raw event is one ordinary character or a shortest complete sequence; a paste has no end marker before its own |
| `PasteInput.SequenceIsOneEvent` | src/client/attach_input.rs:27-86 | a control or SS3 sequence, a legacy mouse report, or ESC and one character is exactly one event whatever follows, and none of it is an event before its end |
| `PasteInput.EndlessSequenceIsCut` | src/client/attach_input.rs:73-76 | a sequence without an end is given up after 257 bytes |
| `PasteInput.CharacterIsOneEvent` | src/client/attach_input.rs:27-65 | any other character is one event |
| `PasteInput.BracketedIsOnePaste` | src/client/attach_input.rs:27-65 | a bracketed text without the end marker is one paste of exactly that text |
| `PasteInput.PendingIsBounded` | src/client/attach_input.rs:27-86 | pending text is at most 256 bytes; inside a paste it is the longest suffix that begins the end marker |
| `Framing.ReadLineBounded` | src/ipc.rs:29-65 | for every chunking: consumes exactly the bytes through the first newline or the end, appends exactly them, fails the size check exactly when they exceed the limit and otherwise is refused exactly when they are not text |
| `Framing.WriteAttachOutputFrame` | src/ipc.rs:274-288 | appends the encoding of the output frame |
| `Framing.WriteAttachControlFrame` | src/ipc.rs:291-309 | appends the encoding or nothing; refuses exactly when the truncated length is over the cap |
| `Framing.ReadAttachFrame` | src/ipc.rs:313-364 | reads what the frame grammar says, with its error for every malformed input, and leaves the rest |
| `Framing.FrameRoundTrip` | src/ipc.rs:274-364 | a frame within the caps is read back, whatever follows it |
| `Framing.ReadBackIffFits` | src/ipc.rs:274-364 | exactly the frames within their caps are read back; a larger one is refused by the reader |
| `Framing.MalformedIsRefused` | src/ipc.rs:313-364 | which error a short header, an unknown kind, a length over the cap or a cut payload gives |
| `Framing.WholeFrameIsRead` | src/ipc.rs:313-364 | a whole frame is read with its little-endian offset and data, or as its notice; refused exactly for a payload without an offset or a notice that does not parse |
| `Framing.CutFrameFails` | src/ipc.rs:313-364 | a frame cut anywhere is an error, never a frame |
| `Framing.PrefixReadsWholeFrames` | src/ipc.rs:274-364 | any prefix of a frame stream is read as exactly the frames that lie completely in it, then an error |
| `Framing.StreamRoundTrip` | src/ipc.rs:274-364 | frames written back to back are read back with nothing left over |
| `Framing.OutputFrameIsCanonical` | src/ipc.rs:313-350 | an accepted output frame is byte for byte what the writer produces for it |
| `AttachStream.StreamCursor.Accept` | src/client/cursor.rs:33-50 | a chunk is accepted exactly at the expected offset and advances it, saturating; otherwise the error names both offsets |
| `AttachStream.StreamCursor.Finish` | src/client/cursor.rs:54-65 | a known final offset is accepted exactly when it is the cursor |
| `AttachStream.InOrderMeans` | src/client/attach.rs:728-790 | frames in order begin where the one before has ended, complete where the stream stands and report no failure |
| `AttachStream.AttachClient.MaybeSendAck` | src/client/attach.rs:1384-1401 | a credit for the cursor is sent exactly when it is a stride past the last one |
| `AttachStream.AttachClient.Drain` | src/client/attach.rs:719-812 | a batch is the stream between the two cursors, below 2 MiB and, while frames are left, at least 1 MiB, and every byte of the frames applied; it is in error exactly when the last frame taken is out of place or reports a failure, and otherwise stops exactly at a completion notice |
| `AttachStream.AttachClient.HandleFrames` | src/client/attach.rs:719-825 | one turn writes every byte of the frames applied, keeps credits spaced, never ahead and less than a stride behind, and ends as its frames demand |
| `AttachStream.Attach` | src/client/attach.rs:719-825 | for every batching the output is the stream from the snapshot to the cursor and every byte of the frames applied; the session fails exactly at a frame out of place or reporting a failure and stops exactly at a completion notice, whose known final offset is the end of what was written; credits stay within a stride |
| `TerminalEngine.Apply` | src/terminal/render_effects.rs:26-59 | the adapter reports exactly the rows that scrolled off and every buffer switch; on the main buffer it keeps the newest screenful of history |
| `TerminalEngine.SameMemory` | src/terminal/render_effects.rs:26-59 | rows dropped from further back than a screenful are never missed |
| `TerminalEngine.GrownIsScrolled` | src/terminal/render_effects.rs:26-59 | with a screenful of headroom, history growth is exactly the scrolled rows even at capacity |
| `TerminalEngine.FeedRender` | src/terminal/mod.rs:183-193 | a chunk's effects are those of its operations in order; the newest screenful of history is that of an engine that never drops a row, and no more is kept on the main buffer |
| `TerminalEngine.ReportedIsOk` | src/terminal/render_effects.rs:26-82 | history rows are reported only on the main buffer and switches are complete |
| `TerminalEngine.EffectsTellHistory` | src/terminal/render_effects.rs:26-82 | replaying the effects gives the history of the operations, for a viewer that keeps the rows and for one that loses them |
| `TerminalEngine.StaysBehind` | src/terminal/render_effects.rs:26-82 | scrollback falls behind the history by exactly the rows lost since the last clear, and equals it if there are none |
| `TerminalEngine.StirsRepaints` | src/terminal/render_effects.rs:26-82 | a row or switch is reported exactly when some operation scrolls a row off or switches buffers |
| `AttachRenderer.ScreenDiffBytes` | src/client/attach.rs:215-246 | whatever the terminal shows, exactly the rows in which the states differ are drawn and the cursor is placed if anything is sent; nothing else changes on any terminal; empty exactly when nothing changed |
| `AttachRenderer.UpdatedIsFaithful` | src/client/attach.rs:143-164 | a full repaint, or a diff on a terminal that shows the previous screen, shows the next one |
| `AttachRenderer.RepaintBytes` | src/client/attach.rs:175-194 | a full repaint shows the screen from any state of a terminal of its size, and touches scrollback on none |
| `AttachRenderer.HistoryStep` | src/client/attach.rs:119-129 | a history step adds exactly the given row, and loses it exactly when the terminal is taller than the engine |
| `AttachRenderer.AttachRenderer.RenderInitial` | src/client/attach.rs:82-97 | a restored snapshot adds no history and is shown faithfully on a terminal of its size |
| `AttachRenderer.AttachRenderer.ForwardEffects` | src/client/attach.rs:109-141 | scrollback becomes the history that the effects tell, without its rows on a taller terminal; a full repaint is due exactly if it was or a row or switch is among the effects, and otherwise the drawing is unchanged |
| `AttachRenderer.AttachRenderer.Update` | src/client/attach.rs:143-164 | a full repaint if one is due, otherwise the diff of the cached screen and the engine's, whatever the terminal shows; a terminal that agreed with the cache shows the engine; the cache follows |
| `AttachRenderer.AttachRenderer.EmitUpdate` | src/client/attach.rs:143-173 | the update is sent inside the synchronized update that the effects have opened, or in one of its own, which is always closed |
| `AttachRenderer.AttachRenderer.RenderEffects` | src/client/attach.rs:109-173 | scrollback becomes what the effects tell and the cache current; rows and switches repaint whatever the cache says, other chunks draw the diff; all of it inside one synchronized update |
| `OuterTerminal.OneUpdateDrawsInside` | src/client/attach.rs:109-115 | then no command draws while no synchronized update is open |
| `AttachRenderer.AttachRenderer.RenderChunk` | src/client/attach.rs:99-173 | after any chunk scrollback grew by exactly what scrolled off unless the terminal is taller than the engine; a terminal of the engine's size is drawn in full if a repaint was due or the chunk scrolls or switches, else exactly in the rows that the chunk changed; a chunk that changes nothing visible repaints nothing; history rows, switches and repaint are drawn inside one synchronized update |
| `AttachRenderer.AttachRenderer.Resize` | src/client/attach.rs:202-207 | a reflow leaves a full repaint due |
| `AttachSession.HandleEvent` | src/client/attach.rs:99-207 | one event: what is sent for it and how the terminal looks after it |
| `AttachSession.Session` | src/client/attach.rs:82-207 | after every event of every run, the terminal that ran the emitted commands is as the events say: its drawing row by row where the sizes agree, its visibility, buffer and modes, and exactly the scrollback they give; every chunk is drawn inside one synchronized update |
| `AttachSession.SessionFaithfulIff` | src/client/attach.rs:82-207 | at every point of a session, unless a repaint is due, the terminal shows the engine's screen exactly when the events leave the drawing equal to it |
| `AttachSession.ChunkBringsInStep` | src/client/attach.rs:99-173 | a chunk that meets a window of the engine's size brings it in step if a repaint was due or it scrolls or switches, and keeps it in step |
| `AttachSession.UnheardWindow` | src/client/attach.rs:143-164 | after a window change that the renderer did not hear of, exactly the rows changed since, and the cursor if anything did, are the engine's, until a chunk scrolls or switches |
| `AttachSession.UnheardWindowIff` | src/client/attach.rs:143-164 | such a window is in step if and only if a chunk has scrolled or switched since, or every row and the cursor were redrawn or already right |
| `AttachSession.UnheardWindowIsFaithfulIff` | src/client/attach.rs:143-164 | the same of what the terminal shows |
| `AttachSession.ScrollbackFallsShort` | src/client/attach.rs:109-136 | scrollback equals the session's history exactly when no row was lost since the last clear |
| `AttachSession.NothingLost` | src/client/attach.rs:109-136 | no row is lost while no chunk meets a window taller than the engine |
| `WindowSize.RendererFollows` | src/client/attach.rs:621-642 | after any run, handling a resize leaves the renderer at the real size exactly when the last event that set the size sent was not a notice that found another size than the renderer's, or the window has changed since |
| `WindowSize.NoticeHidesResize` | src/client/attach.rs:770-780 | a notice that overtakes a resize event hides it exactly when the window has changed |
| `WindowSize.ObserverKeepsItsSize` | src/client/attach.rs:629-632 | an observing client never resizes its renderer |
| `AttachLoop.FirstSizes` | src/client/attach.rs:621-642 | the loop begins with the size that both have |
| `AttachLoop.LoopSizes` | src/client/attach.rs:621-642 | the sizes that the loop compares are those of the window and of the engine |
| `AttachLoop.InStepNeedsSize` | src/client/attach.rs:621-642 | the window can be faithful only while the loop has given the renderer its size |
| `AttachLoop.LoopIsSession` | src/client/attach.rs:621-825 | every run of the loop is a session of the renderer, so what is proved of sessions holds of it |
| `AttachLoop.HandledResizeRecovers` | src/client/attach.rs:621-780 | after any run, a handled resize event and a chunk: the sizes match exactly when no notice has misled the loop or the window has changed since; the window is in step if the event resized the renderer, and else exactly as the chunk leaves it |
| `Handshake.BuildTranscript` | src/federation_crypto.rs:187-217 | the loop produces the length-prefixed encoding that an independent reader takes apart into the ten fields in their order |
| `Handshake.ReadBack` | src/federation_crypto.rs:206-217 | reading length-prefixed fields inverts writing them |
| `Handshake.EncodeFieldsInjective` | src/federation_crypto.rs:206-217 | length-prefixed encodings of two field lists agree only if the lists do |
| `Handshake.TranscriptInjective` | src/federation_crypto.rs:187-217 | the transcript determines version, role, name, keys and nonces |
| `Handshake.OrderPairSymmetric` | src/federation_crypto.rs:447-449 | the order of two identities does not depend on who is local, and the smaller comes first |
| `Handshake.PeersAgree` | src/federation_crypto.rs:411-449 | with opposite roles each end's send key and context are the other's receive key and context, or both fail |
| `Handshake.ChannelInfoLayout` | src/federation_crypto.rs:430-445 | the info string is the prefix, the lower key, the higher key and the direction, with bars between |
| `Handshake.EndsLabelled` | src/federation_crypto.rs:411-445 | ends are refused exactly for a malformed key or a zero shared secret; the secondary sends and the primary receives as "c2s", with keys salted by the transcript's hash and bound to both identities |
| `Handshake.KeyIsFresh` | src/federation_crypto.rs:411-445 | a key determines its transcript, its pair of identities and its direction |
| `Handshake.EndsAreFresh` | src/federation_crypto.rs:611-645 | connections with different transcripts share neither keys nor contexts |
| `Handshake.DirectionsDiffer` | src/federation_crypto.rs:611-645 | the two directions never share a context, nor a key if derivation separates info strings |
| `SealedChannel.CounterLayout` | src/federation_crypto.rs:458-599 | nonce, header and associated data carry the counter big-endian behind their fixed parts |
| `SealedChannel.NonceInjective` | src/federation_crypto.rs:458-463 | distinct sequence numbers give distinct nonces |
| `SealedChannel.FrameAadInjective` | src/federation_crypto.rs:594-599 | associated data determines context and sequence number |
| `SealedChannel.ChannelSide.Seal` | src/federation_crypto.rs:487-521 | which seals succeed, the frame and the counter; a counter value is spent even if encryption fails; a failure poisons the side |
| `SealedChannel.ChannelSide.OpenValidated` | src/federation_crypto.rs:530-586 | poison on any failure; the receive counter is committed only after parsing |
| `SealedChannel.Channel.Encode` | src/federation_crypto.rs:651-656 | succeeds exactly at a healthy end with counter and cipher at hand; otherwise the end is failed |
| `SealedChannel.Channel.Decode` | src/federation_crypto.rs:658-663 | likewise for receiving |
| `SealedChannel.OpensExactly` | src/federation_crypto.rs:530-586 | with sequence number n the receiver opens exactly the sender's n-th frame, byte for byte |
| `SealedChannel.FlowGrows` | src/federation_crypto.rs:487-521 | a new seal extends the recorded flow of its direction |
| `SealedChannel.FlowKeeps` | src/federation_crypto.rs:594-599 | seals of the other direction or other connections leave it unchanged |
| `SealedChannel.NoncesStayUnique` | src/federation_crypto.rs:458-521 | sealing with the next counter keeps all nonces of a key distinct |
| `SealedChannel.Connection.EncodeUp` | src/federation_crypto.rs:651-656 | the secondary's encode succeeds exactly while healthy and below the counter limit, and keeps the connection invariant |
| `SealedChannel.Connection.EncodeDown` | src/federation_crypto.rs:651-656 | the same for the primary |
| `SealedChannel.Connection.DeliverUp` | src/federation_crypto.rs:530-586 | whatever arrives is accepted exactly when it is the secondary's next frame and parses; otherwise the primary fails |
| `SealedChannel.Connection.DeliverDown` | src/federation_crypto.rs:530-586 | the same for the secondary |
| `SealedChannel.Connection.Step` | src/federation_crypto.rs:601-664 | any event has the result that the ideal link gives it, moves the link accordingly and seals exactly what it shows |
| `SealedChannel.LinkIsFifo` | src/federation_crypto.rs:530-586 | on the ideal link, what an end has accepted is always a prefix of what its peer has encoded |
| `SealedChannel.FailureIsFinal` | src/federation_crypto.rs:651-663 | after a refusal an end refuses everything |
| `SealedChannel.RunConnection` | src/federation_crypto.rs:458-664 | over every history each result is the ideal link's; accepted payloads are at every point a prefix of those encoded and counted by the receive sequence, failure is final, the records are those the results show, and no nonce repeats under a key |
| `Federation.Federate` | src/federation_crypto.rs:411-664 | two peers with one transcript get both ends or none, and between the derived ends all of that holds |
| `Federation.EarlierIsElsewhere` | src/federation_crypto.rs:411-664 | what an earlier connection sealed is sealed under other keys than the later one's |
| `Federation.Reconnect` | src/federation_crypto.rs:411-664 | the same peers connecting again with a join that differs in anything share no key with the first connection, nothing sealed there is accepted again, and both connections run ideally |
| `NodeConfig.Validate` | src/node/config.rs:43-75 | in-place normalisation computes the normal form or an error |
| `NodeConfig.ValidatedIff` | src/node/config.rs:43-115 | exactly the rows with a visible name of 1 to 256 bytes, a key, and for a primary an endpoint and an advertised name are accepted; only key and endpoint are normalised |
| `NodeConfig.ValidatedIsNormal` | src/node/config.rs:43-75 | validation is idempotent and touches only key and URL |
| `NodeConfig.Apply` | src/node/config.rs:127-144 | an update overwrites what it names and is validated as a whole |
| `NodeConfig.AppliedIsNormal` | src/node/config.rs:127-144 | an accepted update has normal form and keeps name and role |
| `NodeConfig.NormalPrimaryConnects` | src/node/config.rs:87-103 | a validated primary row always yields a connection made of its own fields |
| `NodeManager.CommitKeepsConnectors` | src/daemon/node_manager.rs:148-170 | writing a row and reconciling keeps connectors equal to enabled primary rows, and every connector ever spawned live or stopped |
| `NodeManager.PutIsNormal` | src/daemon/node_manager.rs:26-93 | every row that a request writes has normal form and the new revision |
| `NodeManager.StaleStaysStale` | src/http/nodes.rs:95-106 | a row value that is no longer current never becomes current again |
| `NodeManager.NodeManager.Stop` | src/daemon/node_manager.rs:148-154 | exactly the named connector is stopped and the named inbound connection revoked |
| `NodeManager.NodeManager.Reconcile` | src/daemon/node_manager.rs:156-170 | cannot fail on a validated row, and runs a new connector exactly for an enabled primary |
| `NodeManager.NodeManager.Commit` | src/daemon/node_manager.rs:26-93 | a failed write changes neither side; a successful one changes one row and what runs for it |
| `NodeManager.NodeManager.Remove` | src/daemon/node_manager.rs:26-93 | removing a row stops whatever ran for it, or changes nothing |
| `NodeManager.NodeManager.Handle` | src/daemon/node_manager.rs:26-93 | every request succeeds exactly when the rows and the database allow it; then it has done to the rows what it says and nothing else, a disabled peer is disconnected, an effective change stops the old connection and revokes the inbound one, a request that changes nothing keeps both; a failed one changes nothing; the invariant holds |
| `NodeManager.IntendedIsFulfilled` | src/daemon/node_manager.rs:26-93 | enabling sets the flag and at most the revision, adding stores an enabled row with the given fields, an update exactly the named fields, normalised, removing drops the row |
| `NodeManager.AcceptsIff` | src/daemon/node_manager.rs:26-93 | which requests are accepted, in terms of rows, keys, acceptable fields and database failures |
| `NodeManager.ChangeNames` | src/daemon/node_manager.rs:26-93 | a change is to the row that the request names |
| `NodeManager.NodeManager.Restore` | src/daemon/node_manager.rs:172-178 | reconciling every stored row establishes the invariant |
| `NodeManager.NodeManager.Serve` | src/daemon/node_manager.rs:26-93 | through any sequence of requests and failures every answer, row and inbound connection is what the requests before it make it, the invariant holds and replaced rows authorise nothing |
| `DiskScan.ConsumeEntry` | src/disk.rs:478-486 | an entry is paid for or the budget reason is noted, the first reason winning |
| `DiskScan.ScanDirectory` | src/disk.rs:513-541 | exactly the entries that the budget pays for are counted or queued; it stops early exactly when the budget is too small, and a failing call leaves its reason and nothing else |
| `DiskScan.DirSize` | src/disk.rs:513-541 | the files among the entries that the budget pays for, in scan order; a lower bound of the recursive sum, unflagged exactly when nothing failed and the budget covers the tree, and then exact (saturating) with every entry paid for |
| `DiskScan.FileSize` | src/disk.rs:488-503 | the size of a regular file, 0 for anything else, flagged exactly when the call fails |
| `DiskScan.ScanSession` | src/disk.rs:405-428 | one session directory adds to journal and uploads exactly what the budget pays for, journal first |
| `DiskScan.OrderKeepsSize` | src/disk.rs:513-541 | the files in scan order add up to the recursive sum, less only what failing calls hide |
| `DiskScan.ScanSessions` | src/disk.rs:403-429 | the same for all session directories under one budget, stopping at the first entry over it |
| `DiskScan.ItemsBounds` | src/disk.rs:403-429 | what the session directories hold in scan order makes up their journal and uploads |
| `DiskScan.ScanBreakdown` | src/disk.rs:396-447 | journal, uploads and logs count exactly the entries that the budget pays for in the order of the whole scan; every figure is a lower bound, flagged exactly when a call failed or the budget is too small |

## Left out

- The terminal engine's interpretation of bytes: operations are given by their resulting screen.
- Passthrough of titles, progress and cursor shapes: one command without effect on the screen.
- The attach path without a renderer, key and mouse tables, the clipboard, focus events and raw-mode handling: easy members.
- Flushing a lone Escape after 50 ms: a timer outside the decoder.
- Wait conditions other than a match: one comparison each.
- AttachStream.Attach: assumes that output frames carry the stream bytes their offsets name; the daemon's sender is not modelled.
- AttachStream.AttachClient.Valid: does not cover a stream within one credit stride of 2^64 bytes, where the cursor saturates.
- AttachSession.Session: text that wraps because the window is narrower than the engine is not modelled.
- SealedChannel.RunConnection: encryption is ideal; a probabilistic argument is not modelled.
- SealedChannel.FrameAadInjective: contexts are byte strings of any length; their hash is not modelled.
- LogExport.Daemon: each request's turn says how much is served; journal persistence and the daemon's own restart check are not modelled.
- LogExport.RunExport: the 30-second stall is a nondeterministic abort after any empty page.
- MatchScan.WaitForMatch: the deadline is nondeterministic while the session runs.
- NodeManager.NodeManager.Handle: listing and summarising peers, connection state and SQL are not modelled; inbound registration is one request.
- DiskScan.ScanBreakdown: the tree does not change during the scan.
- Signatures, key files, gzip and JSON encodings, and the checked wrapper around the frame reader: library primitives or thin wrappers.
- Retention, metrics, supervision, daemon start-up, the web interface and the command line: not part of this model.
