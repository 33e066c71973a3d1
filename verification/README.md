# Verified model of serial-mcp's framing, matching, ring and profile store

serial-mcp serves serial ports over MCP. Its hard code is a set of small state machines over unbounded byte
streams plus one store that several processes write. This project models them in Dafny and proves what they
promise over every input, every chunking and every interleaving.

- **Framing.** `FrameDecoder.dfy` is the decoder as a class with the source's fields and loops, proved against
  specification functions. SLIP and COBS are specified by a byte-at-a-time machine (`ByteMachine.dfy`), the
  other modes by one search step and its drain loop (`BufferedModes.dfy`, `StartMarkers.dfy`). On these:
  refinement of every run of pushes, chunk independence with its exact conditions (`AutoLine.dfy`,
  `AutoSkipEmpty.dfy`, `StartMarkers.dfy`, `StartEndChunking.dfy`), conservation (`BufferedRuns.dfy`), what
  any bytes at all decode to and when they fail (`SlipStreams.dfy`, `CobsCodec.dfy`), what parser verdicts do
  to a stream (`ParserVerdicts.dfy`), flushes and pushes after them (`FlushedFrames.dfy`, `FlushRestart.dfy`)
  and exact round trips (`SlipCodec.dfy`, `CobsCodec.dfy`, `TxEncoding.dfy`, `AutoRoundTrips.dfy`,
  `NmeaSentence.dfy`), joined from TX setting to RX setting in `EndToEnd.dfy`.
- **Bounded matcher.** `LiteralMatcher.dfy` and `GlobMatcher.dfy`: the truncated window answers as a search of
  the whole stream does.
- **RX ring.** `RxRing.dfy` is the circular array; `RingWakeup.dfy` its wait/notify protocol.
- **Buffer budget.** `BufferBudget.dfy`: the compare-exchange loop under any schedule.
- **Profile store.** `ProfileStore.dfy` has the operations, `ConfigurationLog.dfy` the reference model of all
  configurations that they answer to, `ProfileHistory.dfy` the revision histories, `ProfileSelection.dfy` the
  most-recently-used choice, `StoreTransactions.dfy` the locked transactions of many processes,
  `StoreReplies.dfy` what each caller of them is told, `Learning.dfy` the revision compare-and-swap of many connections, `LearningRuns.dfy` runs that
  show its limits.

Where code and documentation differ, the model follows the code:

- The comment on blank frames (`src/framing/codecs.rs:189`) lists `\x0b`; the code does not treat it as blank.
- The COBS error kind exists but is never produced; every code byte is accepted.
- The length-prefixed encoder checks 1- and 2-byte lengths but truncates a 4-byte length
  (`TxEncoding.LengthPrefixedFrame` gives the exact condition).
- Stale bindings are documented to report the conflict until reopened. A learn that already succeeded in the
  store clears a mark set before it finishes (`LearningRuns.InFlightLearnLosesStaleMark`); no update is lost by
  it (`Learning.NoUpdateIsLost`).
- Learning is documented not to overwrite a newer profile. It does when the newer one came between the
  settings an open took and the revision it then recorded (`LearningRuns.OpenOverlooksUpdate`, with the exact
  condition in `Learning.FirstWriteReplacesPlanExactlyWhen`).
- A flush leaves a pending CR, a length, an open frame, escape or block in place, so later pushes go on from
  it (`FlushRestarts.RestartsCleanExactlyWhen`).
- Generated profiles take the clock as their last use and can tie with an earlier use
  (`ProfileSelection.GeneratedIsNewestExactlyWhen`).

Parsers, glob and line patterns are arbitrary functions, the clock and I/O failures arbitrary inputs, file
replacement atomic, and the advisory lock mutual exclusion.

## Model

| member | source | states |
|---|---|---|
| `FrameDecoding.FrameDecoder.Push` | src/framing/decoder.rs:639-813 | One push in place leaves exactly the specified state (byte machine up to the first fatal error for SLIP/COBS, drain loop otherwise) and returns exactly what was reported |
| `FrameDecoding.FrameDecoder.SlipDecode` | src/framing/decoder.rs:252-377 | The SLIP loop stops where the byte machine meets its first failure, with the unread bytes kept |
| `FrameDecoding.FrameDecoder.CobsDecode` | src/framing/decoder.rs:384-533 | The COBS loop, eager zero flush included, stops where the byte machine meets its first failure |
| `FrameDecoding.FrameDecoder.Emit` | src/framing/decoder.rs:215-247 | Blank skip, checksum drop, fatal error or numbered frame; the counter moves only for an emitted frame |
| `FrameDecoding.FrameDecoder.FlushPartial` | src/framing/decoder.rs:954-989 | Hands out the decoded or buffered bytes as an unparsed frame and empties nothing else |
| `FrameDecoding.FrameDecoder.MatchAutoLf` | src/framing/decoder.rs:835-880 | The `auto` search cuts what its specification cuts and moves to CR mode or a pending CR |
| `FrameDecoding.FrameDecoder.MatchPendingCr` | src/framing/decoder.rs:888-922 | The byte after a pending CR decides between CRLF and CR mode |
| `FrameDecoding.FrameDecoder.FindStart` | src/framing/decoder.rs:724-739 | The loop over the start markers computes the earliest start |
| `FrameDecoding.FrameDecoder.DrainBuffer` | src/framing/decoder.rs:666-813 | The loop of the buffered modes reaches the drained state and its outcome |
| `FrameDecoding.OutcomeListsFrames` | src/framing/decoder.rs:1047-1060 | An outcome lists the emitted frames in order, counts exactly the drops, and has an error exactly when a failure was reported |
| `ParserVerdicts.VerdictsDecide` | src/framing/decoder.rs:215-247 | With a parser, in every buffered mode: of the frames that are cut anyway, in order, exactly those that are not skipped and parse are reported with what the parser made of them, exactly the checksum mismatches are dropped and counted, and the first other rejection is the error, behind which the remaining frames are cut later |
| `ParserVerdicts.VerdictsDecideStreams` | src/framing/decoder.rs:252-533 | With a parser behind SLIP or COBS: the frames are those of the parserless decoder up to the first bad escape or fatal rejection, judged in the same way; behind the failure the decoder stands outside any frame |
| `ParserVerdicts.FramesCarryTheirType` | src/framing/decoder.rs:936-945 | In every run of every constructible decoder each frame carries the type of the configured framing |
| `FrameDecoding.ConstructedDecodersAreIdle` | src/framing/decoder.rs:540-633 | Every configuration that construction accepts starts with nothing to drain and non-empty markers |
| `FrameDecoding.DecodersIgnoreChunking` | src/framing/decoder.rs:639-813 | Every constructible decoder but `auto` ends in the same state with the same reports for every chunking of a stream without fatal error |
| `FrameDecoding.FlushCompletesTheInput` | src/framing/decoder.rs:954-989 | With terminators kept, frames plus the flushed partial frame are the whole input |
| `FlushedFrames.FlushKeepsNumbering` | src/framing/decoder.rs:954-989 | Frame indices stay contiguous from 0 through flushes |
| `FlushedFrames.FlushedSlipFrame` | src/framing/decoder.rs:954-989 | A flush inside a SLIP frame hands out the payload sent so far, unescaped, under the next index, and the frame goes on empty |
| `FlushedFrames.FlushedCobsBlocks` | src/framing/decoder.rs:954-989 | A flush behind any COBS blocks hands out their data with the implicit zeros between them and without the one still owed |
| `FlushRestarts.RestartsCleanExactlyWhen` | src/framing/decoder.rs:954-989 | Without parser and skip_empty, all pushes after a flush report what a decoder with nothing half-read reports if and only if no CR was pending, no length read ahead, no start/end frame, SLIP escape or COBS block open; the one invisible open frame is characterised on the markers |
| `FlushRestarts.PushAfterFlushSwallowsAByte` | src/framing/decoder.rs:888-922 | After a flush with a pending CR, without parser and skip_empty, a push that reaches beyond the stale position cuts there, whatever its bytes are, swallows the byte there, and goes on as after a real CR, LF included |
| `FlushRestarts.StaleCrCuts` | src/framing/decoder.rs:888-922 | The failing input for a pending CR: bytes without any line ending still yield a frame |
| `FlushRestarts.StaleLengthCuts` | src/framing/decoder.rs:679-717 | The failing input for a length read ahead: the next prefix is not believed, for every prefix size, order and offset |
| `FlushRestarts.StaleFrameCloses` | src/framing/decoder.rs:718-782 | The failing input for an open frame: an end marker without start yields a frame |
| `FlushRestarts.StaleFrameKeepsJunk` | src/framing/decoder.rs:718-782 | The failing input with markers kept: junk before a start marker becomes part of the frame |
| `ByteMachine.PushesRefineByteMachine` | src/framing/decoder.rs:252-533 | After any pushes the input is a consumed prefix plus `buf`, and mode, counter and all reports are those of the byte-at-a-time machine on the prefix |
| `ByteMachine.PushReportsErrorsLast` | src/framing/decoder.rs:294-325 | Frames reported before an error survive; at most one error per push, last; bytes stay unread only behind an error |
| `ByteMachine.PushesKeepNumbering` | src/framing/decoder.rs:240-246 | Emitted indices are 0, 1, 2, ... over all pushes, errors included |
| `ByteMachine.ChunkingIsInvisible` | src/framing/decoder.rs:252-533 | Without failure every chunking of a SLIP or COBS stream reaches the state of one run over it |
| `ByteMachine.EmptyPushMakesProgress` | src/framing/decoder.rs:306-325 | Bytes left behind an error are worked off by further pushes |
| `SlipCodec.SlipStuff` | src/framing/codecs.rs:233-249 | The stuffing loop computes the stuffed form, which contains no END |
| `SlipStreams.FailsExactlyWhenMalformed` | src/framing/decoder.rs:252-377 | A push into a parserless decoder fails if and only if, behind the first END, some ESC is followed by a byte that ends no escape; it then reports the first such byte last, stands outside any frame, and keeps everything behind it unread |
| `SlipStreams.BadEscapeIsReported` | src/framing/decoder.rs:294-327 | From any state outside a frame, with any parser: a stuffed payload and a bad escape add exactly one report, the error naming the byte, and leave the rest of the push in `buf` |
| `SlipStreams.CleanStreamsDecode` | src/framing/decoder.rs:252-377 | Every stream without malformed escape, canonical or not, for every chunking: the payloads are the unescaped bodies between ENDs, skip_empty applied, and nothing stays unread |
| `SlipCodec.SlipSelfStabilises` | src/framing/decoder.rs:252-377 | From any decoder state, mid-escape included, and whatever the parser made of the first frame, two transmitted frames bring the decoder in step and an acceptable second payload is the last report; only a parser fatal on the empty frame is excluded |
| `SlipCodec.SelfStabilisesExactlyWhen` | src/framing/decoder.rs:252-377 | That exclusion is exact: an acceptable payload gets through from every state if and only if the empty frame is not fatal |
| `SlipCodec.PushesSelfStabilise` | src/framing/decoder.rs:252-377 | The same through any junk, chunking and intermediate errors, once the input is drained |
| `SlipCodec.SlipRoundTrip` | src/framing/codecs.rs:109-114 | For every payload list and chunking: p1, empty, p2, ..., pn without error; with skip_empty exactly the non-blank payloads |
| `CobsCodec.CobsStuff` | src/framing/codecs.rs:259-295 | The patched-placeholder encoder computes the block encoding: no zero byte, at most n + n/254 + 1 bytes |
| `CobsCodec.CobsRoundTrip` | src/framing/codecs.rs:115-120 | For every payload list and chunking exactly those payloads, numbered from 0, without error |
| `CobsCodec.ArbitraryBlocksDecode` | src/framing/decoder.rs:384-533 | Arbitrary COBS bytes, junk between frames and zeros inside blocks included: for every chunking one frame per delimited list of blocks, their data with the implicit zeros, no error |
| `StartMarkers.EarliestStartWins` | src/framing/decoder.rs:724-739 | The start scan returns the earliest occurrence among all markers, ties to the marker listed first, and nothing exactly when none occurs |
| `StartMarkers.StartIsStableExactlyWhenUnambiguous` | src/framing/decoder.rs:718-760 | The start cut is independent of chunking if and only if no marker hides in or outranks another |
| `StartMarkers.TrimLosesNoStart` | src/framing/decoder.rs:748-759 | Trimming pre-start junk changes no later start |
| `StartEndChunking.FramesIgnoreChunkingExactlyWhen` | src/framing/decoder.rs:718-782 | When no start marker contains or completes the end marker, all frames on all streams are independent of chunking if and only if the markers are unambiguous |
| `BufferedModes.ExtractLaw` | src/framing/decoder.rs:667-782 | Searching early or after more bytes cuts the same frame and leaves the same rest, in every buffered mode |
| `BufferedModes.BufferedChunkIndependence` | src/framing/decoder.rs:663-813 | From any drained state every chunking of a chunk-proof stream gives the same frames, buffer and mode |
| `BufferedRuns.FramesAndBufferTileInput` | src/framing/decoder.rs:818-826 | With terminators kept, frames concatenated with `buf` equal the input in every push-only run |
| `BufferedRuns.PushesKeepNumbering` | src/framing/decoder.rs:215-247 | Frame indices are contiguous from 0 in every run of the buffered modes |
| `AutoLineFraming.AutoIsChunkIndependentExactlyWhen` | src/framing/decoder.rs:835-922 | Without parser and with skip_empty off, `auto` frames are the same for every chunking if and only if no LF follows a bare CR in the stream |
| `AutoSkipEmpty.SkippingAutoIsChunkIndependentExactlyWhen` | src/framing/decoder.rs:835-922 | With skip_empty on: if and only if no LF follows a bare CR, or everything behind the last line before the first bare CR is blank up to the first CR behind the last LF |
| `AutoLineFraming.AutoEqualsLfSplitting` | src/framing/decoder.rs:835-922 | Without bare CR, every chunking yields the LF lines with their CR stripped and keeps the unterminated rest |
| `AutoLineFraming.PendingCrIsAlwaysLast` | src/framing/decoder.rs:868-877 | In every push-only run a pending CR indexes the final byte of `buf`, which is a CR |
| `AutoRoundTrips.AutoRoundTripExactlyWhen` | src/framing/codecs.rs:17-25 | Lines sent with LF, CRLF or CR are recovered by RX `auto` under every chunking if and only if no payload contains CR or LF and, for CR, there is not just one |
| `AutoRoundTrips.CrLinesIntoAuto` | src/framing/decoder.rs:849-877 | Plain lines sent with CR: a single one is held back, two or more are all recovered, for every chunking |
| `TxEncoding.LengthPrefixedFrame` | src/framing/codecs.rs:39-86 | A length-prefixed payload is recovered if and only if its length fits the prefix; a 4-byte length is truncated silently |
| `TxEncoding.LengthPrefixedRoundTrip` | src/framing/codecs.rs:39-86 | Encoded payload lists are recovered, for every chunking, byte order and prefix size, if and only if every payload is below 4 GiB |
| `TxEncoding.DelimitedFrame` | src/framing/codecs.rs:26-38 | A delimited payload is recovered if and only if it neither contains the delimiter nor ends in a part that completes an early one |
| `TxEncoding.DelimitedRoundTrip` | src/framing/codecs.rs:199-212 | Payload lists are recovered for every chunking if and only if every payload is free of the delimiter in that sense |
| `TxEncoding.TerminatedLine` | src/framing/codecs.rs:17-25 | A terminated line is recovered by the RX mode of the same ending if and only if LF, CR or CR LF does not occur in the payload |
| `TxEncoding.LineRoundTrip` | src/framing/codecs.rs:17-25 | Payload lists are recovered for every chunking if and only if no payload contains its terminator; otherwise even the payloads are wrong |
| `TxEncoding.StartEndFrame` | src/framing/codecs.rs:87-108 | A payload between markers is recovered, with include_markers off or on, if and only if it is free of the end marker, counted from the start marker when that is part of the frame |
| `TxEncoding.StartEndRoundTrip` | src/framing/codecs.rs:87-108 | The exact start/end round trip for payload lists and every chunking, include_markers off or on, for unambiguous markers |
| `TxEncoding.SelfClosingMarkerNeverRoundTrips` | src/framing/codecs.rs:87-108 | With include_markers on, a start marker that begins with the end marker never round-trips |
| `TxEncoding.NmeaRoundTrip` | src/framing/config.rs:227-235 | Every list of accepted NMEA payloads decodes, for every chunking, to exactly one frame each, the bodies with their `*HH`, and nothing is left over |
| `EndToEnd.EncodeAcceptsExactlyWhen` | src/framing/codecs.rs:15-184 | Encoding fails exactly on an empty delimiter or marker, a prefix size that is not 1, 2 or 4, a payload too long for 1 or 2 bytes, and an NMEA payload that is unprintable or claims another checksum |
| `EndToEnd.RefusedExactlyWhen` | src/framing/decoder.rs:540-633 | Construction refuses exactly an empty delimiter, a prefix size that is not 1, 2 or 4, and an empty marker or marker list |
| `EndToEnd.LinksDeliver` | src/framing/decoder.rs:540-633 | Every mode from its TX setting to the decoder constructed for the matching RX setting, terminators kept or not: all lists of payloads that the setting can carry arrive in order, numbered from 0, for every chunking, with nothing left over |
| `EndToEnd.AutoLinkDelivers` | src/framing/decoder.rs:540-633 | The same into the decoder constructed for `auto`, from each line ending, a single CR line excepted |
| `EndToEnd.MarkedLinkDelivers` | src/framing/decoder.rs:718-782 | The same for start/end framing that keeps its markers: whole transmissions arrive |
| `EndToEnd.OffsetThenPayloads` | src/framing/decoder.rs:679-717 | With an initial offset that many bytes, whatever they are, are dropped, for every chunking, and the payloads behind them arrive |
| `EndToEnd.JunkIsBounded` | src/framing/decoder.rs:748-759 | Outside a frame a drained decoder holds fewer bytes than its longest start marker |
| `NmeaSentence.EncodedShape` | src/framing/codecs.rs:121-184 | The encoder's output is a sentence whose declared checksum is the XOR of its body |
| `NmeaSentence.EncodingIsIdempotent` | src/framing/codecs.rs:141-176 | Re-encoding an output without its CRLF gives the same output |
| `NmeaSentence.AcceptedExactlyWhen` | src/framing/codecs.rs:121-167 | A payload is accepted if and only if it is printable and any star with two hexadecimal digits, of either case, at its end writes the XOR of the bytes before |
| `NmeaSentence.OutputCarriesBody` | src/framing/codecs.rs:141-184 | The output carries the payload's lead and body unchanged when it claims a checksum, else with the XOR appended in upper-case digits |
| `NmeaSentence.ChecksumIsParity` | src/checksums.rs:15-17 | Each bit of the checksum is set if and only if an odd number of bytes have it |
| `NmeaSentence.ChecksumCancels` | src/checksums.rs:15-17 | Bytes followed by their checksum check to 0 |
| `NmeaSentence.ChecksumIgnoresOrder` | src/checksums.rs:15-17 | The checksum depends on the bytes but not on their order |
| `LiteralMatching.LiteralMatcher.PushBounded` | src/match_config.rs:469-486 | The in-place bounded push computes its specification |
| `LiteralMatching.BoundedPushRefinesSearch` | src/match_config.rs:469-500 | One bounded push with any cap reports the first global occurrence exactly when there is one, keeps base + window = bytes fed, and respects the limit |
| `LiteralMatching.BoundedRunRefinesSearch` | src/match_config.rs:333-341 | Every run of bounded pushes up to the first Found reports what the unbounded whole-stream search reports |
| `LiteralMatching.RunFromResetRefinesSearch` | src/match_config.rs:539-550 | From a window reset on, the same against the search of the bytes fed since |
| `LiteralMatching.BoundedContextIsLossless` | src/match_config.rs:430-460 | With a fixed cap the saved payload of the first match is the one shaped over the whole stream |
| `LiteralMatching.ContextIsStreamBytes` | src/match_config.rs:430-460 | That payload is the needle preceded by the stream bytes in front of the match, as many as there are up to the configured amount and the cap |
| `LiteralMatching.ContextIsOfLastPush` | src/match_config.rs:385-409 | A context is there exactly for the match that the last push found, if one was configured; every push and every reset forgets the one before |
| `GlobMatching.GlobMatcher.Check` | src/match_config.rs:347-374 | The line loop returns the first matching line that was not cut in the middle |
| `GlobMatching.MatchesByContent` | src/match_config.rs:355-368 | What a matching line is, byte for byte: it starts the stream or follows an LF, ends before the next LF or at the end, and matches without one CR at its end |
| `GlobMatching.BoundedPushReportsTrueLines` | src/match_config.rs:502-517 | Found(i) starts a true, matching line of everything fed, the first retained one; the partial flag says exactly whether the window starts inside a line |
| `GlobMatching.GlobIsSoundInEveryRun` | src/match_config.rs:347-375 | The same in every run of bounded pushes from a fresh matcher |
| `GlobMatching.GlobFindsEveryVisibleLine` | src/match_config.rs:411-419 | Completeness: in every run of bounded pushes, a matching line of everything fed that starts in the last chunk or in the cap + 256 bytes before it is found, or an earlier matching one |
| `RxRings.WriteRing` | src/rx_ring.rs:279-289 | The wrapping copy fills exactly the cells ahead of `phys` and keeps every other cell |
| `RxRings.RxRing.Append` | src/rx_ring.rs:130-171 | The in-place append keeps every retained offset in its cell and moves start and wrap total as on the plain stream |
| `RxRings.RxRing.ReadFrom` | src/rx_ring.rs:189-235 | A read returns the slice of all appended bytes at [from_offset, next_offset), with clamping and gap accounting |
| `RxRings.RingRefinesStream` | src/rx_ring.rs:130-248 | In every run received bytes are stream bytes at strictly increasing offsets, received plus lost is the cursor distance, and start = wrapped + cleared |
| `RxRings.NothingLostWhileRetained` | src/rx_ring.rs:189-235 | A reader told of no loss has received the stream itself |
| `RxRings.ReceivesStreamExactlyWhenKeepingUp` | src/rx_ring.rs:189-248 | Through any wraps and clears, a reader is told of no loss if and only if its cursor is inside the ring whenever it reads, and then it has received the stream itself |
| `RxRings.RingIsItsHistory` | src/rx_ring.rs:130-171 | After any appends, reads and clears the stream is what was appended, and the start offset is the larger of its length at the last clear and its length minus the capacity |
| `RxRings.ReadReturnsAllThereIs` | src/rx_ring.rs:189-235 | After any operations a read returns exactly the stream bytes from the cursor, or from that start offset if it is later, as many as there are up to max, and says how many were lost |
| `RxRings.ReaderCatchesUp` | src/rx_ring.rs:189-235 | One read with max at least the capacity brings the reader to the end of the stream, and received plus lost is the whole stream |
| `RingWakeup.NoWakeupIsEverLost` | src/rx_ring.rs:257-273 | Over every interleaving no waiter is parked over data without being woken or a notify pending; whoever returned has data |
| `RingWakeup.WaiterReturns` | src/rx_ring.rs:257-273 | With data past its offset and no notify pending a waiter's own steps return it, three at most |
| `RingWakeup.WaiterCanAlwaysReturn` | src/rx_ring.rs:257-273 | From every reachable state, whatever notifies are pending, a waiter with data past its offset can still return |
| `RingWakeup.ThreeOwnStepsReturn` | src/rx_ring.rs:257-273 | Whatever others do in between, a waiter with data past its offset has returned once it took three steps of its own |
| `BufferBudget.BudgetIsConserved` | src/buffer_budget.rs:95-164 | Over every interleaving of loads, exchanges, drop swaps and adds, available plus live reservations plus drops under way is the program limit, and each reservation is within the tool limit |
| `BufferBudget.ReserveSucceedsExactlyWhen` | src/buffer_budget.rs:95-129 | An uninterrupted reserve succeeds if and only if it asks for something, no more than the tool limit and no more than is available, an exact fit included; otherwise nothing changes and the answer says which |
| `BufferBudget.FailedExchangeMeansProgress` | src/buffer_budget.rs:107-124 | A failed exchange means other threads completed a reserve or release since this thread's load |
| `BufferBudget.SecondDropIsIdle` | src/buffer_budget.rs:158-164 | Once a reservation is released, every further drop by any thread, after any schedule, changes nothing |
| `BufferBudget.WholePoolReturns` | src/buffer_budget.rs:158-164 | In every run, once each reservation is dropped and no drop is under way the pool is whole again |
| `Profiles.AllocateGeneratedName` | src/profiles.rs:296-309 | The loop ends with the base if free, else the free suffix with the least number |
| `ProfileStore.AllocationAgrees` | src/profiles.rs:296-309 | The first free name is unique, so the loop's result is the name that the store's `create_generated` uses |
| `Profiles.RankingSorts` | src/profiles.rs:257-264 | Ranking is a permutation with the most recently used first |
| `Profiles.CanonicalSelectorIdentifies` | src/profiles.rs:226-254 | A generated selector matches exactly the high-confidence ports of the same identity |
| `ProfileStore.OperationsEvolveProfiles` | src/profile_store.rs:703-818 | Every writing operation leaves each profile's configuration alone, or moves it one revision up with the old state in the history, or creates it at revision 1 |
| `ProfileStore.OperationsKeepNamesUnique` | src/profile_store.rs:736-828 | No operation creates a second profile of a name |
| `ConfigurationLog.OperationsFollowTheLog` | src/profile_store.rs:703-828 | Against a model that keeps every configuration ever given: each operation is refused with the same error, skipped or taken as the model says, and the next store shows the next model: what upsert, configure, learn, generation and rollback were asked to store is what is live, for that name and no other |
| `ConfigurationLog.StoresFollowTheLog` | src/profile_store.rs:703-828 | In every run from an empty store each profile is the last configuration given for its name, its revision their number, its snapshots the five before it, its times and use count those of the run |
| `ProfileHistory.HistoriesAreShaped` | src/profile_store.rs:717-733 | Retained snapshots are exactly revisions max(1, rev-5)..rev-1 in order, in every run from an empty store |
| `ProfileHistory.LiveStatesAreRemembered` | src/profile_store.rs:717-733 | A state live at any moment is held by the snapshot of exactly its revision while that is among the last five |
| `ProfileHistory.SnapshotsWereLive` | src/profile_store.rs:717-733 | Every retained snapshot was the live state of the same profile at some earlier moment |
| `ProfileHistory.RollbackSucceedsExactlyWhen` | src/profile_store.rs:403-436 | Rollback writes if and only if the expected revision is current and the target is retained |
| `ProfileHistory.RollbackRestoresThePast` | src/profile_store.rs:437-452 | Rollback restores the state that was live under the target revision, under a larger revision, usage data untouched |
| `ProfileHistory.RollbackUndoesRollback` | src/profile_store.rs:397-452 | Rolling back to the replaced revision undoes a rollback |
| `ProfileSelection.ChoiceIsExact` | src/profile_store.rs:213-243 | Resolution selects exactly the unique maximum of last use and is ambiguous exactly on a tied maximum |
| `ProfileSelection.SelectedExactlyWhen` | src/profile_store.rs:199-244 | What automatic selection hands out in terms of the port: with unique names a profile is selected if and only if its selector carries the port's vendor, product and serial number and disagrees in nothing else, and every other such profile was used earlier; nothing at all for a port without identity |
| `ProfileSelection.MarkUsedMakesNewest` | src/profile_store.rs:286-313 | Marking makes a profile the newest whatever the clock says: its last use is the clock, or one behind the latest use |
| `ProfileSelection.MarkedProfileKeepsWinning` | src/profile_store.rs:286-313 | After mark_used the profile wins every port it matches through all other operations until the next mark_used or create_generated |
| `ProfileSelection.GeneratedIsNewestExactlyWhen` | src/profile_store.rs:250-276 | A generated profile becomes the newest if and only if the clock is ahead of every recorded use |
| `StoreTransactions.TransactionsLinearise` | src/profile_store.rs:463-590 | For every interleaving, failure and crash the file is the serial execution of the commits, every cache a committed state, and no cache moves back, restarts included |
| `StoreTransactions.AnswersAreLinearisable` | src/profile_store.rs:463-590 | Every answer a caller gets is the outcome of its request at one place of the commit order, between the commits there when it asked and when it is told, and answered commits appear once each, in that order |
| `StoreReplies.AnswerIsToTheRequest` | src/profile_store.rs:529-590 | The answer a caller gets is the one to what it asked, right at a place between the commits there when it asked and when it is told |
| `StoreReplies.BrokenOnlyAfterFailure` | src/profile_store.rs:540-581 | A caller is told of an I/O failure only if loading or writing failed for its task since it asked |
| `StoreReplies.WithoutFailuresNoneIsBrokenFromStart` | src/profile_store.rs:540-581 | In a schedule without failing loads and writes nobody is ever told of one |
| `StoreReplies.CommitIsAnswered` | src/profile_store.rs:543-581 | A committed transaction is answered as done, with what was written, at exactly its place, unless its process dies first |
| `StoreReplies.UninterruptedTransaction` | src/profile_store.rs:529-581 | A transaction that nobody interrupts turns the file into what its operation makes of it, commits and answers exactly that, or answers the refusal or the lack of a change; lock free, cache equal to the file |
| `StoreReplies.HolderCanFinish` | src/profile_store.rs:540-581 | No deadlock: from every state whoever is in its critical section can leave it by its own steps, which free the lock and answer its caller |
| `StoreReplies.PublishedIsCurrent` | src/profile_store.rs:547-572 | Publishing, and a refresh that succeeds, leave the process's cache at the current file |
| `StoreTransactions.OnlyPersistChangesTheFile` | src/profile_store.rs:529-581 | Only a successful atomic write under the lock changes the file, to its operation applied to the exact predecessor |
| `StoreTransactions.ReplayIsStoreAfter` | src/profile_store.rs:529-590 | The serial execution from an empty file is the run that the history and selection theorems speak of |
| `Learning.LearnedWriteLandsOnRecorded` | src/profile_store.rs:332-380 | A learned write changes the profile if and only if it finds it at the revision the connection last recorded and with other defaults; it then advances it by one, keeps the selector, and is recorded next |
| `Learning.UninterruptedLearn` | src/learning.rs:44-165 | A learn from begin to finish: refused at another revision or without its profile it leaves the binding stale and dirty with the conflict and the store alone; with equal defaults it only cleans the binding; else the profile gets the defaults and the binding the next revision |
| `Learning.FailedLearnCanRetry` | src/learning.rs:145-165 | A failed store call leaves the binding dirty, not stale, at the revision it had |
| `Learning.StaleLearnReports` | src/learning.rs:73-97 | A learn on a stale binding asks nothing of the store and keeps reporting the recorded error, or an external change |
| `Learning.CancelledLearnMayLand` | src/learning.rs:100-104 | A learn cancelled while it waits for the store may still write, if and only if it finds the revision recorded and other defaults; the binding, which never hears of it, is then left behind |
| `Learning.LeftBehindForever` | src/learning.rs:44-165 | Over any interleaving without deletion a connection left behind never changes the store again, cancelled calls included |
| `Learning.ConnectionsTrackTheirProfile` | src/tools/port_ops.rs:352-438 | In every run from a start without connections that never deletes the profile, each connection bound to it finds it, at the revision it recorded or a later one, also when marking it used failed at the open |
| `Learning.OthersWriteLeavesBehind` | src/learning.rs:100-141 | Any change of the profile's configuration but by a bound connection's own learn in flight leaves that connection behind: other learns, configures, rollbacks, detached writes |
| `Learning.NoUpdateIsLost` | src/learning.rs:44-165 | From the start of a server: once anybody else changed the profile after a connection was bound to it, that connection never changes the store again, in any continuation without deletion |
| `Learning.FirstWriteReplacesPlanExactlyWhen` | src/tools/port_ops.rs:483-600 | In any such run the first changing write of a connection replaces the state whose settings the open took if and only if the revision bound by the open is the planned one; otherwise it replaces an update it never saw |
| `Learning.OpenBindsPlanExactlyWhen` | src/tools/port_ops.rs:352-366 | The open binds the planned revision if and only if marking the profile used failed or nothing changed its configuration since the settings were taken |
| `LearningRuns.OpenOverlooksUpdate` | src/tools/port_ops.rs:483-600 | A run from an empty store in which a configure between the settings and the binding of an open is overwritten by the close, without a conflict |
| `Learning.BehindUntilDeleted` | src/profile_store.rs:820-828 | One step ends being left behind if and only if it deletes the profile |
| `Learning.StaleForever` | src/learning.rs:73-97 | A stale binding at rest stays stale and dirty in every run, and no write of its connection reaches the store but one detached earlier |
| `Learning.StaleIsLostExactlyWhen` | src/learning.rs:103-141 | One step clears the stale mark if and only if it finishes a learn that had succeeded in flight |
| `LearningRuns.InFlightLearnLosesStaleMark` | src/tools/port_ops.rs:1085-1105 | A run from an empty store in which a rollback's stale mark is cleared by a learn in flight; the connection is left behind all the same |
| `LearningRuns.DeletionDefeatsRevisions` | src/learning.rs:100-104 | A run from an empty store with delete and re-create in which a connection left behind overwrites the new profile |

## Left out

- Regex matching, lossy UTF-8 decoding and glob internals: the glob matcher is proved for an arbitrary predicate on line contents, for input on which lossy decoding changes nothing (ASCII).
- The parsers for AT, JSON lines, prompts, NMEA and Modbus: any deterministic parser is allowed instead.
- The text encodings of delimiters and markers (`src/codec.rs`): the model starts from their bytes, so errors of that decoding do not occur.
- Unbounded matcher pushes on frames: the framed path resets the window per frame and needs no truncation argument.
- Integer widths: offsets, revisions, use counts and timestamps are naturals, so saturation and wrap at 2^64 are not modelled; the matcher's saturating limit is.
- LiteralMatching.BoundedRunRefinesSearch: speaks of pushes up to the first Found, because afterwards the matched bytes may or may not still be in the window.
- Ephemeral stores and schema migration: the first are the same operations without a file, the second is deserialisation with defaults.
- Learning.NoUpdateIsLost: covers changes after the open has recorded a revision; for earlier ones it is false, as `LearningRuns.OpenOverlooksUpdate` shows.
- Learning.LeftBehindForever: assumes the profile is not deleted; by `Learning.BehindUntilDeleted` that is the one step that ends it, and `LearningRuns.DeletionDefeatsRevisions` shows what then happens.
- StartEndChunking.FramesIgnoreChunkingExactlyWhen: says nothing of start markers that contain or complete the end marker; for those the exact condition is on the start cut (`StartMarkers.StartIsStableExactlyWhenUnambiguous`), and the frames may happen to agree.
- AutoLineFraming.AutoIsChunkIndependentExactlyWhen: has no parser, since what a parser drops decides whether a difference is seen; for any parser that is not fatal the condition is sufficient (`BufferedModes.BufferedChunkIndependence`).
- FlushRestarts.RestartsCleanExactlyWhen: has no parser and no skip_empty, for the same reason.
- Label normalisation of generated profiles (`normalize_generated_label`): a character filter; the base name is a parameter.
- Tokio, the serial port sessions, MCP plumbing, the capture store and the log buffer.
- Memory ordering of the atomics: every load, exchange, swap and add is one atomic step.
- In StoreTransactions tasks of one process queue on the advisory lock only; the process-local mutex in front of it only reduces the interleavings.
