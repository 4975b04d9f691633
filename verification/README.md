# Verification of zdh's HTTP/2 core

zdh is an HTTP/2 server written from the sockets up. This project models the four components where its
correctness is hardest to see by reading, and proves what they promise of each other and of their peers:

- **Frames** (`internal/frame`): eleven frame types with nested envelopes, the reader that turns octets into frames
  and holds header blocks to section 6.10 of RFC 9113 and to two resource bounds, and the writer's queue. Printing and
  parsing are shown inverse, on single frames and on whole streams, and the reader safe on arbitrary octets.
- **HPACK** (`internal/hpack`, `internal/huffman`): integers, strings, the Huffman code, the dynamic table, the block
  decoder and the production encoder. What one end encodes the other decodes, over connections whose SETTINGS move the
  two tables' limits at different times; and no octets at all can make a decoder do more than instructions can say.
- **Send-side flow control** (`internal/flow`): a monitor shared by stream goroutines, which reserve credit from two
  windows in one decision, and a reader goroutine, which credits, resizes, retires and closes. No wakeup is lost, and
  every window is the sum of what was granted less what was taken, over every interleaving.
- **Request bodies** (`internal/exchange`): a queue between the connection's reader goroutine and the handlers, and the
  map of requests still arriving that enforces content-length. Handlers get the octets sent, in order, never more than
  was declared, and never sleep through the end.

## How it is modelled

What the source changes in place is a class here: `FrameReader.Reader`, `FrameWriter.Writer`, `FlowWindow.Window`,
`FlowSender.Sender`, `DynamicTable.Table`, `HpackCodec.Codec`, `RequestBody.Body`, `Exchange.Requests`. Each of their
methods is proved to do to its object what a function of the old value says, and the properties are lemmas about
those functions. What the source computes is functions, and its loops are loops.

Concurrency is a state machine. A method that holds the mutex is one step. Waiting on the condition variable is
explicit: `parked` are the goroutines asleep, `woken` those a notification has reached that have not run again. A run
is any sequence of steps, and a step that is not enabled changes nothing, so a lemma about every sequence is a lemma
about every interleaving. In `BodyRuns` and `ExchangeRuns` a change to a body and the notification after it are two
steps, because the source notifies after it has unlocked.

What a component holds and answers is also told from its history, by functions of the calls made: why it is closed,
what is open, in force or owed, and who waits (`SenderHistory`, `WriterHistory`, `BodyHistory`), what was sent to a
request (`ExchangeContents`), and what a reader without any state would report (`ReaderHistory`). The components are
proved to agree with that on every run. Two things are not told a second time there: the credit of a window, which
`SenderRuns.Ledger` accounts for, and what a body has queued, which `BodyRuns.BodyIsFaithful` does. Rules about one
frame, field or index are stated apart from the code that applies them as well (`FrameRules`, `HpackMeaning`).

Octets are integers from 0 to 255, and `uint16` and `uint32` are bounded integers. The places where the source narrows
or masks are written out: `Frames.Wrap` for lengths cut to 32 bits, `Octets.Mask31` for reserved bits, the 64-bit
accumulator of the Huffman encoder.

## Where the code does not do what one would hope

Each of these is kept as the code has it and shown to happen, and the exact condition is proved.

- A SETTINGS change that overflows some stream's window returns before its broadcast, having already raised the
  streams below that one. A writer asleep on a raised stream stays asleep: `SenderRuns.AWakeupCanBeLost`. A failing
  change does so exactly when `SenderRuns.FailingSettingsLosesWakeups` says, and over a whole run a wakeup is lost if
  and only if some failing change of it does so (`SenderRuns.QuietExactly`).
- The HPACK encoder announces no table size change. After the decoder's limit is lowered whatever short fields are sent
  still arrive, if and only if it was not lowered below the encoder's, or the encoder's is too small for any entry:
  `HpackRoundTrip.LoweringIsSafeExactly`.
- A string longer than 2^24 octets on the wire, which the encoder writes, its own decoder refuses. A connection delivers
  every block if and only if it sends none: `HpackRoundTrip.EveryBlockArrives`. With the Huffman code such strings
  exist, and one connection that sends one is `HpackHuffman.SomeConnectionIsLost`.
- A body can be read to its end with no read having reported that no more content may come. With every read returned,
  one has reported it if and only if, when the end was marked, a payload was queued and the last one was not empty:
  `BodyEnding.AnnouncedExactly`. So it fails in two ways, and both happen. An empty DATA frame with END_STREAM leaves an
  empty payload behind the last octet, and the read that takes an empty payload reports nothing
  (`BodyRuns.TheLastReadNeedNotSaySo`). And a reader may take the last octet after the connection goroutine has put it
  in and before it marks the end (`BodyRuns.TheEndMayComeAfterTheLastRead`). What a read does report is true: no more
  ever comes (`BodyRuns.LastMeansLast`).
- `Body.add` signals one reader, and a reader may take part of a payload. With several readers one may be
  left asleep beside octets with nobody notified. That can happen exactly if a payload can be larger than a buffer:
  `BodyRuns.NobodyIsStuckExactly`. With one reader, which is what every request has, it never happens, whatever its
  buffer (`BodyRuns.OneReaderLosesNoWakeup`).

## Model

| member | source | states |
|---|---|---|
| `FrameRoundTrip.HeaderRoundTrip` | `internal/frame/header.go:41-65` | a frame header within 24 and 31 bits is read back as itself, whatever follows it |
| `FrameRoundTrip.HeaderReprint` | `internal/frame/header.go:41-65` | a header read and printed again is the same nine octets, the reserved bit apart |
| `FrameRules.HeaderOctets` | `internal/frame/header.go:57-65` | nine octets, the first ones highest: a length of 24 bits, a type, flags and a stream of 31 bits |
| `FrameRules.TypeAndFlagOctets` | `internal/frame/types.go:28-107` | each frame's type octet and flags octet are the ones RFC 9113 and RFC 9218 assign |
| `FrameRoundTrip.DeclaredLength` | `internal/frame/padding.go:64-82` | the length a frame declares is the length of what it prints, cut to 32 bits: the narrowing misleads only above 2^32 |
| `FrameRoundTrip.PrintThenParse` | `internal/frame/headers.go:49-135` | for every frame of all eleven types: printed and parsed it comes back in its normal form if and only if it is one the parser accepts, and is refused otherwise |
| `FrameRoundTrip.ParseThenPrint` | `internal/frame/padding.go:36-82` | every accepted payload is accounted for whole, padding included, and prints back to the same octets but for reserved bits, undefined flags and padding contents, which parse to the same frame |
| `FrameRoundTrip.ParseReadsItsFrameOnly` | `internal/frame/reader.go:233-267` | no parser looks past the declared length, so what a reused buffer holds behind a frame is invisible |
| `FrameRules.RefusedExactly` | `internal/frame/reader.go:33-45` | on any payload of any type: refused if and only if a rule on its stream, its padding, its size, the stream it names or its credit refuses it, with that rule's code and scope, the first that does; reserved bits, undefined flags and padding contents never count |
| `FrameRules.SettingsExactly` | `internal/frame/settings.go:102-165` | a SETTINGS payload is its pairs in order if each is in the range of its identifier, and otherwise refused for the first that is not, with FLOW_CONTROL_ERROR for an initial window size and PROTOCOL_ERROR else; an unknown identifier has no range |
| `FrameRoundTrip.ReparseHeaders` | `internal/frame/headers.go:67-135` | the padding envelope outside the priority block outside the fragment is taken apart as it was put together |
| `FrameRoundTrip.ReparsePushPromise` | `internal/frame/pushpromise.go:66-116` | the promised identifier travels inside the padding and is refused exactly when it is zero |
| `FrameRoundTrip.ReparsePriorityUpdate` | `internal/frame/priorityupdate.go:75-131` | the prioritised identifier and the field value come back, a zero identifier is refused |
| `FrameRoundTrip.ReparseGoAway` | `internal/frame/goaway.go:42-76` | the three parts of GOAWAY come back with the reserved bit cleared |
| `FrameRoundTrip.ReparsePlain` | `internal/frame/data.go:45-85` | the same for the six types without nested parts: DATA, PRIORITY, RST_STREAM, PING, WINDOW_UPDATE, CONTINUATION |
| `FrameRoundTrip.SettingsRoundTrip` | `internal/frame/settings.go:53-121` | a list of settings is read back in order if and only if each one is in range |
| `FrameRoundTrip.SettingsReprint` | `internal/frame/settings.go:53-121` | settings that were accepted print back to the octets they were read from |
| `SettingsCodec.AppendPayload` | `internal/frame/settings.go:53-62` | the printing loop appends six octets for each setting, in order, after what is there |
| `SettingsCodec.ParsePairs` | `internal/frame/settings.go:102-120` | the parsing loop stops at the first setting that is out of range, and otherwise returns all of them (which are out of range: `FrameRules.SettingsExactly`) |
| `SettingsCodec.Get` | `internal/frame/settings.go:67-75` | the last value given for an identifier, as section 6.5 of RFC 9113 has a repeated one override |
| `FrameReader.Reader.constructor` | `internal/frame/reader.go:131-157` | a limit of zero takes its default, the block bound is never below one frame, and no block is open |
| `FrameReader.Reader.ReadFull` | `internal/frame/reader.go:216-231` | all the octets asked for, or an end between frames, or a truncation, or a failure |
| `FrameReader.Reader.FinishFrame` | `internal/frame/reader.go:353-384` | the block's bounds are checked before it is closed, so its closing frame counts |
| `FrameReader.Reader.TrackBlock` | `internal/frame/reader.go:317-348` | HEADERS, PUSH_PROMISE and CONTINUATION open, extend and close the block, other frames leave it alone |
| `FrameReader.Reader.ReadFrame` | `internal/frame/reader.go:216-277` | one call consumes, returns and leaves the block as the reading step does; the discard loop ends on every input |
| `ReaderGrammar.BlockGrammar` | `internal/frame/reader.go:287-384` | on arbitrary octets: an open block is continued on its own stream and by nothing else until END_HEADERS, stream errors fall outside blocks, neither bound is ever exceeded |
| `ReaderHistory.ReaderIsStateless` | `internal/frame/reader.go:216-384` | on arbitrary octets the reader reports, and ends with, what a reader without state would that judges each frame by its own octets and the events before it |
| `ReaderHistory.OversizeIsRefused` | `internal/frame/reader.go:233-240` | a header that announces more than the maximum frame size is FRAME_SIZE_ERROR at once, whatever its type and whatever block is open, with nothing of its payload read |
| `ReaderHistory.ReportedFramesFit` | `internal/frame/reader.go:233-240` | no frame any input makes the reader report has a payload above the maximum frame size |
| `ReaderBounds.RefusedExactlyForExcess` | `internal/frame/reader.go:287-384` | on arbitrary octets: ENHANCE_YOUR_CALM if and only if, after octets that read to a clean end, stands a whole frame, allowed there by the grammar, that takes its block past a bound; so a block within both is never refused for them, and one past either always is |
| `ReaderGrammar.BoundsRefuseOnlyExcess` | `internal/frame/reader.go:353-384` | of two readers that differ in their bounds only, the one with the tighter reports the same up to the first frame that takes its block past its own, and is cut there with ENHANCE_YOUR_CALM |
| `ReaderSync.OneSynchronised` | `internal/frame/reader.go:216-277` | one header and payload consumed for each frame, a stream error included |
| `ReaderSync.StepSynchronised` | `internal/frame/reader.go:216-277` | a call that does not end the connection stops on a frame boundary, however many unknown frames it discarded |
| `ReaderSync.Synchronised` | `internal/frame/reader.go:216-277` | over a whole reading every stop is a boundary; a clean end is reported only where input ends on one, a truncation only where it does not |
| `FrameStream.ReadingThenMore` | `internal/frame/reader.go:98-123` | a reading that comes to a clean end is continued by what arrives later as if all of it had arrived at once, the open block carried over |
| `FrameStream.AnySplit` | `internal/frame/reader.go:98-123` | wherever the octets are split, inside a frame too: what the first part reports begins what the whole reports, and a refusal in the first part is final |
| `FrameStream.UnknownFirst` | `internal/frame/reader.go:216-308` | a frame of unknown type is skipped when no block is open, and is PROTOCOL_ERROR when one is |
| `FrameStream.UnknownFramesAreInvisible` | `internal/frame/reader.go:216-308` | any number of unknown frames can be inserted or deleted between blocks without changing the reading; inside a block the first one ends it |
| `FrameStream.StreamRoundTrip` | `internal/frame/reader.go:216-277` | frames written one after another read back in order, in normal form and then a clean end, if and only if each is acceptable and together they obey the grammar and the bounds |
| `FrameStream.WrittenThenRead` | `internal/frame/writer.go:119-200` | the same for whatever any run of the writer accepted and delivered |
| `FrameWriter.Writer.constructor` | `internal/frame/writer.go:59-69` | an empty queue, and a maximum frame size clamped into the protocol's range |
| `FrameWriter.Writer.SetMaxFrameSize` | `internal/frame/writer.go:94-102` | a size in the permitted range is taken as it is, any other as the nearest that is (`WriterHistory.ClampIsNearest`), and nothing else changes |
| `FrameWriter.Writer.Queue` | `internal/frame/writer.go:119-167` | a frame is queued whole or refused with the buffer as it was; it is accepted if and only if no write has failed and its true length fits the limit |
| `FrameWriter.Writer.Flush` | `internal/frame/writer.go:182-200` | what is queued leaves, or the first failure is latched and the queue dropped |
| `FrameWriter.Writer.WriteFrame` | `internal/frame/writer.go:205-210` | queue and flush, the refusal of either reported |
| `FrameWriter.RunsWriteWholeFrames` | `internal/frame/writer.go:94-210` | over every run, delivered plus queued is the encodings of the accepted frames, a prefix of them after a failure; every accepted frame declares its true length |
| `WriterHistory.ClampIsNearest` | `internal/frame/writer.go:94-102` | the size in force is the permitted one nearest to the size asked for |
| `WriterHistory.RunsAreTold` | `internal/frame/writer.go:94-210` | on every run the frames accepted are exactly those that fit the size then in force and 31 bits of stream, before any failure; what has left is so much of their encodings as the byte stream took, the rest is queued, and the first failure, a short write being one, stays and drops it |
| `FlowWindow.Window.Conn` | `internal/flow/window.go:124-126` | 65535 octets on stream zero |
| `FlowWindow.Window.Stream` | `internal/flow/window.go:140-148` | the initial size, within the range an initial size has |
| `FlowWindow.Window.Consume` | `internal/flow/window.go:177-209` | all or nothing: an overdraft is FLOW_CONTROL_ERROR at the window's own scope and takes nothing |
| `FlowWindow.Window.Increase` | `internal/flow/window.go:225-236` | an increment is refused exactly when the window would pass 2^31-1, and then changes nothing |
| `FlowWindow.Window.SetInitialSize` | `internal/flow/window.go:252-287` | the difference from the old initial size is applied, to a negative window if need be; an overflow is a connection error that changes nothing |
| `FlowSender.Sender.constructor` | `internal/flow/sender.go:129-137` | no streams, 65535 octets for the connection, nobody waiting |
| `FlowSender.Sender.Open` | `internal/flow/sender.go:152-162` | a window at the current initial size; panics exactly on a stream already open, stream zero, or an initial size out of range |
| `FlowSender.Sender.Retire` | `internal/flow/sender.go:173-186` | the stream is gone and everybody is woken; an unknown stream is nothing |
| `FlowSender.Sender.CreditConn` | `internal/flow/sender.go:193-209` | the connection's window grows and everybody is woken, or overflow is reported with nothing changed |
| `FlowSender.Sender.CreditStream` | `internal/flow/sender.go:220-236` | the same for one stream; credit for a stream that is not open, stream zero included, is ignored |
| `FlowSender.Sender.ResizeInOrder` | `internal/flow/sender.go:262-273` | the walk resizes streams in increasing order and stops at the first that overflows |
| `FlowSender.Sender.SetInitialSize` | `internal/flow/sender.go:245-282` | fails if and only if some open stream would pass 2^31-1; the error names the least such, streams below it are resized, it and those above and the stored size are not |
| `FlowSender.AllResized` | `internal/flow/sender.go:245-282` | a walk that meets no overflow is a change that succeeds for every stream |
| `FlowSender.SomeResized` | `internal/flow/sender.go:262-273` | a walk in order that stops has stopped at the least overflowing stream |
| `FlowSender.SortedIds` | `internal/flow/sender.go:253-262` | the identifiers of a set, each once, in increasing order |
| `FlowSender.Sender.Close` | `internal/flow/sender.go:300-313` | the first reason is stored and kept, and everybody is woken |
| `FlowSender.Sender.Debit` | `internal/flow/sender.go:371-384` | both windows lose the same amount, and neither refusal can happen |
| `FlowSender.Sender.ReservePass` | `internal/flow/sender.go:336-395` | one pass under the lock: the close reason, then a stream that is gone, then credit, and otherwise asleep with nothing taken |
| `FlowSender.Sender.Resume` | `internal/flow/sender.go:387-393` | a woken writer decides again from the state it finds |
| `SenderRuns.NoLostWakeup` | `internal/flow/sender.go:336-395` | in every reachable state before a failed SETTINGS change, and again after Close, a sleeper not notified has no reason to return, an open stream, and no credit on one of its windows |
| `SenderRuns.ClosedForGood` | `internal/flow/sender.go:300-313` | once closed the first reason stays, nobody is asleep un-notified and every later pass of Reserve returns that reason |
| `SenderRuns.FailingSettingsLosesWakeups` | `internal/flow/sender.go:263-273` | a failing SETTINGS change keeps the property if and only if it raises no sleeper's window above zero before it fails |
| `SenderRuns.QuietExactly` | `internal/flow/sender.go:245-395` | over every run: in no state is a writer asleep un-notified beside credit it could take, if and only if no failing SETTINGS change of the run raises a stream that somebody sleeps on |
| `SenderRuns.AWakeupCanBeLost` | `internal/flow/sender.go:263-273` | a run whose SETTINGS values passed the frame layer and that leaves a writer asleep beside credit |
| `SenderRuns.Ledger` | `internal/flow/sender.go:152-282` | on every run each window is where it began plus every accepted grant less every reservation; for the connection, those of all streams there ever were |
| `SenderRuns.CreditClosedForm` | `internal/flow/sender.go:245-282` | with no failed SETTINGS change an open stream's window is the current initial size plus its grants less its reservations, whenever it was opened |
| `SenderRuns.SettingsKeepsRange` | `internal/flow/window.go:252-287` | a validated SETTINGS value leaves every window in range, failing or not |
| `SenderRuns.WindowsStayInRange` | `internal/flow/window.go:140-287` | with validated values the connection window stays in 0..2^31-1, stream windows within 2^31-1 either side of zero, and opening a fresh stream never panics |
| `SenderRuns.ReservationIsTheMost` | `internal/flow/sender.go:356-384` | at least one octet, at most what was asked, nothing overdrawn, and the request met in full or a window spent |
| `SenderRuns.SettingsReachTheFirstOverflow` | `internal/flow/sender.go:245-282` | a SETTINGS change moves exactly the windows with no overflowing stream at or below them, by the difference, and the stored size only if none overflows |
| `SenderHistory.ReasonIsTheFirst` | `internal/flow/sender.go:300-313` | on every run the close reason is the one given to the first Close, and none before it |
| `SenderHistory.SizeIsTheLast` | `internal/flow/sender.go:245-282` | on every run the size a stream opens with is that of the last SETTINGS change that took hold, 65535 before any |
| `SenderHistory.OpenMeansOpened` | `internal/flow/sender.go:152-186` | a stream has a window if and only if it was opened and not retired since, and opening panics exactly on stream zero, a stream that has one, or a size in force out of range |
| `SenderHistory.PassIsExact` | `internal/flow/sender.go:336-395` | a pass of Reserve, on every run: the first close reason if there was a Close, else gone exactly for a stream that is not open, else asleep exactly if a window is spent, else the least of what was asked and the two windows |
| `SenderHistory.EverybodyIsAccountedFor` | `internal/flow/sender.go:173-395` | on every run the goroutines asleep in Reserve and those about to run again are exactly those that parked on their last pass, before and after something they could wait for happened; none is lost, and none is woken for nothing |
| `PeerSettings.CarriedExactly` | `internal/frame/settings.go:137-142` | an accepted frame can carry an initial window size if and only if a window can have it |
| `PeerSettings.PeersCannotBreakWindows` | `internal/flow/sender.go:152-282` | whatever SETTINGS frames a peer gets accepted, over every interleaving, windows stay in range and a stream that is not open can be opened |
| `DynamicTable.Table.EvictFor` | `internal/hpack/dynamic.go:70-87` | the eviction loop keeps the longest prefix that leaves room |
| `DynamicTable.Table.EvictToFit` | `internal/hpack/dynamic.go:58-64` | the longest prefix whose accounted size is within the limit |
| `DynamicTable.Table.SetCeiling` | `internal/hpack/dynamic.go:38-44` | a lower ceiling lowers the limit and keeps the longest prefix that fits; a higher one never raises it |
| `DynamicTable.Table.SetMax` | `internal/hpack/dynamic.go:49-56` | refused exactly above the ceiling, and otherwise the limit, with the longest prefix that fits it kept |
| `DynamicTable.Table.Add` | `internal/hpack/dynamic.go:70-87` | the longest fitting prefix of the new field and the old entries, an oversized field leaving nothing |
| `DynamicTable.Table.Get` | `internal/hpack/dynamic.go:91-96` | found exactly for offsets from one to the number of entries, the newest first |
| `DynamicTable.Table.Find` | `internal/hpack/dynamic.go:102-116` | the first entry that matches in full if any does, and otherwise the first whose name matches |
| `DynamicTable.Table.FindName` | `internal/hpack/dynamic.go:120-127` | the first entry with the name, zero exactly when there is none |
| `DynamicTable.FitIsLongestFitting` | `internal/hpack/dynamic.go:58-87` | evicting from the old end leaves the longest prefix that fits |
| `DynamicTable.LongestFittingIsUnique` | `internal/hpack/dynamic.go:58-87` | and there is one such prefix only |
| `DynamicTable.FitTwice` | `internal/hpack/dynamic.go:49-64` | lowering the limit to a and then to b keeps what lowering it to the smaller of them keeps |
| `DynamicTable.TableIsRecentHistory` | `internal/hpack/dynamic.go:21-87` | after any run the table is a prefix of the insertion history, its octets and 32 for each entry within its limit, and that limit and the ceiling the ones the size updates and SETTINGS put in force |
| `DynamicTable.EveryStepKeepsTheLongest` | `internal/hpack/dynamic.go:38-87` | every insertion, size update and SETTINGS change keeps the longest prefix that fits, a refused update changing nothing |
| `DynamicTable.TotalIsAccounted` | `internal/hpack/dynamic.go:13-15` | the accounted size is the octets of all names and values held, and 32 for each entry |
| `DynamicTable.EntriesAreFew` | `internal/hpack/dynamic.go:13-15` | no more entries than one for each 32 octets accounted |
| `HpackPrimitives.AppendInt` | `internal/hpack/primitives.go:45-57` | the loop appends the integer's encoding and nothing else |
| `HpackPrimitives.ReadInt` | `internal/hpack/primitives.go:62-93` | the loop reads what the decoding function reads, and gives up where it does |
| `HpackPrimitives.IntRoundTrip` | `internal/hpack/primitives.go:45-93` | an integer comes back as itself if and only if it is at most 2^32, and a larger one is refused rather than misread |
| `HpackPrimitives.DecodeIntExactly` | `internal/hpack/primitives.go:62-93` | on arbitrary octets: what is read is the integer that stands there, minimal or not, of at most five groups after the prefix and at most 2^32, and nothing is read only where none stands |
| `HpackPrimitives.EncodedIntIsShortest` | `internal/hpack/primitives.go:45-57` | no octets that read as a number are fewer than those written for it |
| `HpackPrimitives.TailRoundTrip` | `internal/hpack/primitives.go:62-93` | the continuation octets of a number, met at any position and scale, add exactly that number or overflow |
| `HpackPrimitives.StringRoundTrip` | `internal/hpack/primitives.go:104-145` | a string comes back as itself, coded or not, if and only if its octets are at most 2^24 |
| `HpackPrimitives.ShorterIsShortest` | `internal/hpack/primitives.go:104-117` | a string travels in the shorter of its two forms, and plain when they are equal |
| `HuffmanCode.Encode` | `internal/huffman/encode.go:18-40` | the 64-bit accumulator writes the words one after another and fills the last octet with ones |
| `HuffmanCode.EncodedLen` | `internal/huffman/encode.go:7-13` | the length of the encoding without encoding |
| `HuffmanTrie.BuildTrie` | `internal/huffman/decode.go:28-47` | the trie after every symbol is inserted |
| `HuffmanTrie.WalkGrown` | `internal/huffman/decode.go:28-47` | a path leads to a node exactly when it starts some word, and to a leaf exactly when it is one, holding its symbol |
| `HuffmanTrie.Decode` | `internal/huffman/decode.go:53-91` | the bit by bit walk computes the decoding, its refusals included |
| `HuffmanTrie.CodeIsLawful` | `internal/huffman/decode.go:53-91` | the code is what the string representation assumes: decoding undoes encoding |
| `HuffmanCode.OneEncoding` | `internal/huffman/decode.go:53-91` | octets decode to a string if and only if they are that string's encoding, so no string has two |
| `HuffmanCode.DecodedIsWords` | `internal/huffman/decode.go:53-91` | any bits that decode are the words of the result and at most seven ones |
| `HpackCodec.Codec.LookupIndexed` | `internal/hpack/decoder.go:130-142` | one combined index space over the static and the dynamic table, zero and anything past the end refused |
| `HpackCodec.Codec.DecodeLiteral` | `internal/hpack/decoder.go:95-125` | a literal with its name resolved; the table is only read |
| `HpackCodec.Codec.Dispatch` | `internal/hpack/decoder.go:29-85` | one turn of the loop, chosen by the leading bits |
| `HpackCodec.Codec.Decode` | `internal/hpack/decoder.go:22-88` | the fields and the table of the whole block, or a refusal |
| `HpackCodec.Codec.FindExact` | `internal/hpack/encoder.go:58-68` | the least combined index of an entry with name and value, static entries first, or none |
| `HpackCodec.BuildNameIndex` | `internal/hpack/static.go:72-84` | the loop that builds the map gives each name of the static table the least index that carries it, and no other name any |
| `HpackCodec.Codec.FindName` | `internal/hpack/encoder.go:72-80` | the same by name alone |
| `HpackCodec.Codec.EncodeLiteral` | `internal/hpack/encoder.go:45-53` | the serialisation of the literal instruction chosen |
| `HpackCodec.Codec.Encode` | `internal/hpack/encoder.go:24-39` | the block and the table of the encoding specification |
| `HpackLockstep.InstrRoundTrip` | `internal/hpack/decoder.go:22-125` | a serialised instruction is parsed back as itself if and only if its numbers and strings are in range |
| `HpackLockstep.FirstOctet` | `internal/hpack/encoder.go:24-53` | the first octet of each representation is its pattern of leading bits over the number, or over all ones where that does not fit |
| `HpackLockstep.TurnIsInstruction` | `internal/hpack/decoder.go:29-85` | a turn of the loop is one instruction parsed and executed, a late size update refused |
| `HpackLockstep.DecodeSerialized` | `internal/hpack/decoder.go:22-88` | from any table, decoding a serialised list of instructions is exactly what they denote, fields and table; refused if one is out of range |
| `HpackMeaning.InstructionMeans` | `internal/hpack/decoder.go:29-142` | what an instruction yields and what it leaves in the table, both tables being one list: an entry, or a field inserted or not, sensitive or not, or a limit and the longest prefix that fits it; refused exactly for an index of zero or past the end and for a limit above the ceiling |
| `HpackMeaning.PartsOfABlock` | `internal/hpack/decoder.go:22-88` | a block means what its parts mean one after the other, from the table the first part left, with no size update once a field has been seen |
| `HpackLockstep.DecodedHasMeaning` | `internal/hpack/decoder.go:22-88` | any octets that decode are the meaning of some list of instructions |
| `HpackLockstep.SuccessMeansUpdatesFirst` | `internal/hpack/decoder.go:55-70` | only blocks whose size updates all come first and within the ceiling succeed |
| `HpackLockstep.SensitiveIsNeverInserted` | `internal/hpack/decoder.go:72-84` | no field marked sensitive ever enters the table |
| `HpackLockstep.DecodedBlocksAreWellBehaved` | `internal/hpack/decoder.go:22-88` | the last two for every octet sequence that decodes |
| `HpackRoundTrip.EncodedIsSerialized` | `internal/hpack/encoder.go:24-53` | the encoder writes instructions of section 6 of RFC 7541 and nothing else |
| `HpackMeaning.ChoiceIsExact` | `internal/hpack/encoder.go:24-80` | a sensitive field is a literal never to be indexed and leaves the table alone; a field that stands in a table is its least index; any other is a literal that goes into the table; a name is its least index if a table has it |
| `HpackRoundTrip.IndexesMatch` | `internal/hpack/encoder.go:58-80` | an index the encoder picks names at the decoder the field's name, and its value if both were matched |
| `HpackRoundTrip.AddKeepsInStep` | `internal/hpack/dynamic.go:70-87` | inserting at both ends keeps the smaller table the front of the larger |
| `HpackRoundTrip.ChosenDenotes` | `internal/hpack/encoder.go:24-39` | the instructions chosen denote the fields given, at the encoder's table and at any in step with it |
| `HpackRoundTrip.BlockIsExact` | `internal/hpack/encoder.go:24-39` | a block is delivered if and only if every instruction in it is in range |
| `HpackRoundTrip.ShortBlocksAreDelivered` | `internal/hpack/encoder.go:24-39` | fields whose strings are at most 2^24 octets on the wire are always delivered, whatever table size SETTINGS can name |
| `HpackRoundTrip.BlockRoundTrip` | `internal/hpack/encoder.go:24-39` | with an encoder's limit of at most 2^24, and it is 4096 at most, a block is delivered if and only if its fields are that short, and refused otherwise |
| `HpackRoundTrip.CeilingsKeepInStep` | `internal/hpack/codec.go:30-36` | the encoder may lower its limit at any time, the decoder down to the encoder's |
| `HpackRoundTrip.EveryBlockArrives` | `internal/hpack/codec.go:9-36` | over every connection of blocks and SETTINGS changes in that order: if every field is short every block arrives as it was sent, and otherwise the connection is lost |
| `HpackRoundTrip.LoweringFirstLosesABlock` | `internal/hpack/codec.go:30-36` | in every state, after the decoder's limit is lowered below the encoder's, any field of a size between the two and not in the static table, sent twice, ends the connection |
| `HpackRoundTrip.SomeFieldIsLost` | `internal/hpack/codec.go:30-36` | and there is such a field, itself short, wherever the encoder's limit holds an entry, and with a name wherever it holds one that has one |
| `HpackRoundTrip.LoweringIsSafeExactly` | `internal/hpack/codec.go:30-36` | in every state: whatever short fields are sent after the decoder's limit is lowered arrive, if and only if the new limit is not below the encoder's or the encoder's holds no entry |
| `HpackHuffman.LongTextIsNotShort` | `internal/huffman/encode.go:7-13` | no word of the code is empty, so a text of more than 2^27 octets is over 2^24 octets on the wire in either form |
| `HpackHuffman.SomeConnectionIsLost` | `internal/hpack/primitives.go:104-145` | there is a field the encoder writes in a block that ends the connection at its own decoder |
| `RequestBody.ApplyKeepsWellFormed` | `internal/exchange/body.go:183-219` | a payload joins the far end of what is left to read; ending and failing leave that alone |
| `RequestBody.TakeIsFaithful` | `internal/exchange/body.go:135-163` | a read takes the front of what there was and leaves the rest; it is empty only for an empty payload, and more is false exactly when the body has ended, one payload is left and the buffer holds the rest of it |
| `RequestBody.Body.constructor` | `internal/exchange/body.go:81-89` | nothing in it, neither ended nor failed |
| `RequestBody.Body.Add` | `internal/exchange/body.go:183-192` | the payload is queued and one sleeper, if there is one, is notified |
| `RequestBody.Body.End` | `internal/exchange/body.go:196-203` | ended, with the trailers, and everybody woken |
| `RequestBody.Body.Fail` | `internal/exchange/body.go:211-219` | the first reason is kept and everybody woken |
| `RequestBody.Body.TakePass` | `internal/exchange/body.go:135-163` | one pass under the lock: a failure before content, content before the end, and otherwise asleep |
| `RequestBody.Body.Resume` | `internal/exchange/body.go:139-150` | a notified reader decides again from the state it finds |
| `RequestBody.Body.Read` | `internal/exchange/body.go:116-126` | an empty buffer returns at once and looks at nothing; any other takes a pass |
| `BodyRuns.BodyIsFaithful` | `internal/exchange/body.go:116-192` | over every run the octets taken are a prefix of the octets put in, the rest being what is left, and each octet taken is reported or in a read about to report it |
| `BodyHistory.EveryReaderIsAccountedFor` | `internal/exchange/body.go:116-219` | on every run the failure is the first reason given, the end and its trailers the last marked, and the readers asleep and those about to run exactly those that found nothing on their last pass, before and after a notification reached them |
| `BodyHistory.PassIsExact` | `internal/exchange/body.go:135-163` | a pass of a read, on every run: the first reason if it was abandoned, whatever is queued; else the front of the first payload, as much as the buffer holds; else the end if it was marked; else a wait |
| `BodyRuns.LastMeansLast` | `internal/exchange/body.go:128-163` | once a read has found no more content to come, or the end, everything put in has been taken and nothing more ever is |
| `BodyEnding.AnnouncedExactly` | `internal/exchange/body.go:116-203` | over every run, of a body read to its end with every read returned: some read reported that no more content may come, if and only if a payload was queued when the end was marked and the last one was not empty |
| `BodyRuns.TheLastReadNeedNotSaySo` | `internal/exchange/exchange.go:336-345` | a body that ended with an empty payload, read to its end with no read having reported that no more may come |
| `BodyRuns.TheEndMayComeAfterTheLastRead` | `internal/exchange/exchange.go:336-345` | the same without any empty payload, the last octet being taken before the end is marked |
| `BodyRuns.NoneSleepsThroughTheEnd` | `internal/exchange/body.go:196-219` | with any number of readers nobody is asleep un-notified once an end or a failure has been broadcast |
| `BodyRuns.OneReaderLosesNoWakeup` | `internal/exchange/body.go:135-192` | one reader asleep with no notification owed has nothing to take, and the body has neither ended nor failed |
| `BodyRuns.WholeReadsLoseNoWakeup` | `internal/exchange/body.go:183-192` | with buffers that hold a payload whole, any number of readers: while one sleeps, each payload left has a notified reader on its way or its signal owed |
| `BodyRuns.NobodyIsStuckExactly` | `internal/exchange/body.go:183-192` | over all runs with buffers of at least want octets and payloads of at most size: nobody is ever asleep beside a payload with nobody notified, if and only if size is at most want |
| `BodyRuns.SecondReaderIsLeft` | `internal/exchange/body.go:135-192` | for every smaller buffer, the run of two readers that leaves one asleep beside the rest of the payload |
| `BodyRuns.ASecondReaderCanBeLeftAsleep` | `internal/exchange/body.go:183-192` | for one, with buffers of one octet and a payload of two |
| `Exchange.ParseContentLength` | `internal/request/fields.go:306-323` | accepted exactly for one or more digits whose value fits 63 bits, and then that value |
| `Exchange.DecimalOfPrinted` | `internal/request/fields.go:306-323` | the value of a number's decimal form is that number |
| `Exchange.SetContentLength` | `internal/request/request.go:544-573` | no field declares nothing; two fields, an empty or otherwise non-digit value, a length above 2^63-1, or one other than zero on a request that ends with its headers are malformed, and any other value is the length it spells |
| `Exchange.Requests.Headers` | `internal/exchange/exchange.go:281-308` | a complete request's body has ended and it is not arriving; any other arrives with what it declared and nothing received |
| `Exchange.Requests.Refuse` | `internal/exchange/exchange.go:471-476` | the body fails with the fault, everybody asleep on it is woken and the request arrives no more |
| `Exchange.Requests.Data` | `internal/exchange/exchange.go:324-347` | counted, then refused beyond the declared length without being handed on, else handed on with a signal, and at the end refused if short or completed, with everybody woken |
| `Exchange.Requests.Trailers` | `internal/exchange/exchange.go:355-374` | invalid trailers and a wrong length fail the body, anything else ends it with the section, and everybody is woken |
| `Exchange.Requests.Canceled` | `internal/exchange/exchange.go:386-393` | the body fails with the peer's code and everybody is woken; a request that is not arriving is nothing |
| `Exchange.Requests.Close` | `internal/exchange/exchange.go:407-412` | every body that was arriving fails with the reason, with nobody left asleep on it, and none arrives |
| `ExchangeRuns.ContentLengthIsSafe` | `internal/exchange/exchange.go:324-374` | over every interleaving a handler never gets more octets than were declared, and sees the end only when it has read everything sent, as much as was declared, with trailers that passed the rules |
| `ExchangeRuns.EveryBodyEndsOnce` | `internal/exchange/exchange.go:281-412` | between frames a request is arriving exactly when its body has neither ended nor failed, with its count right; none does both; after Close every body there ever was has done one |
| `ExchangeOutcomes.EveryBodyIsARun` | `internal/exchange/exchange.go:324-412` | every body of every connection has gone through a run of one body by itself with nothing put in after the end, so what holds of those runs holds of it |
| `ExchangeOutcomes.OutcomeIsThePeers` | `internal/exchange/exchange.go:324-412` | between frames: a request that is over completed if and only if it ended with its headers or its last frame ended it at the length declared with trailers within the rules, with those trailers, and otherwise failed with the reason that frame gives |
| `ExchangeOutcomes.CallerIsToldTheSame` | `internal/exchange/exchange.go:324-393` | the fault a frame's caller gets is the reason the body fails with, none if it does not fail or the peer reset it; the request leaves exactly when its body is over |
| `ExchangeContents.ContentIsThePeers` | `internal/exchange/exchange.go:324-374` | between frames, over every interleaving: a body was given, octet for octet and in order, what the DATA frames carried, less the last one if it went past the declared length; a handler has the front of that, and one that saw the end all of it |
| `ExchangeOutcomes.FailuresHaveACause` | `internal/exchange/exchange.go:324-412` | a body fails only if the peer reset it, the connection closed, its trailers broke the rules or its octets were not as many as declared |
| `ExchangeRuns.LastIsLastForEver` | `internal/exchange/body.go:128-163` | nothing that happens on the connection takes another octet from a body found to have no more |
| `ExchangeRuns.HandlersSleepOnlyForMore` | `internal/exchange/exchange.go:324-412` | between frames a handler asleep un-notified has taken all there was and its request is still arriving |

## Left out

- The contents of the two tables of RFC 7541: the static table is any 61 entries whose names are two octets or longer, are not sensitive and take up to 2^24 octets each, and the Huffman table any prefix-free one with thirty ones for the end of string. That the transcribed Huffman table is prefix-free is what TestTableIsPrefixFree is for (internal/huffman/tree_test.go:12-54).
- HpackRoundTrip.BlockRoundTrip: the encoder's limit is taken to be at most 2^24, because an encoder's starts at 4096 and nothing raises it; HpackRoundTrip.BlockIsExact is without that bound.
- HpackRoundTrip.LoweringIsSafeExactly: the same bound on the encoder's limit, for the same reason.
- HpackRoundTrip.SomeFieldIsLost: at a limit of exactly 32 octets the field it names has no name. The codec takes such a field, but the server's response layer refuses it (internal/response/fields.go:135-138), so for the server as a whole a limit of 32 is harmless too and the boundary is 33; that layer is not modelled.
- Both ends of an HPACK connection are this implementation; a decoder that expects a size update after its limit was lowered, as section 4.2 of RFC 7541 lets it, is not modelled.
- Where the decoder fails, the state of its table is not stated: the caller ends the connection.
- ExchangeRuns.AfterHeaders: stream identifiers are fresh, which the stream table sees to; a reused one would orphan a body.
- Everything request.Parse and request.ValidateTrailers check besides content-length: their verdicts are parameters.
- The stream table, the response writer and encoder, priorities and their scheduler: they appear only as callers, or not at all. The report of consumed octets is a step whose effect on the table is not modelled.
- Starting and finishing handler goroutines, panic recovery, logging and the 500 fallback.
- The connection preface and its HTTP/1 diagnosis, error message texts, String methods, code names, Waiters and the accessors for tests. A fault is kept as its scope, its code and its stream.
- Aliasing of slices, reuse of the read buffer and the atomic load of the maximum frame size: sequences are values.
- Go's int widths where a value cannot reach them: the count of received octets, the accounted table size, and the credit asked for in Reserve are unbounded.
- Which sleeper a signal reaches is any of them; that the runtime serves them in order is not used.
- Fairness: that a notified goroutine does run again is not stated, only that none that should run is left un-notified.
- Construction panics on missing dependencies.
