# A verified model of dns-collector

dns-collector reads DNS packets, pairs responses with requests and writes records. This project
models the parts of it that are hard to get right and proves what they promise, in Dafny 4.11.
`dafny verify dfyconfig.toml` checks the whole project.

**The matching pipeline** (`src/`). The input cuts the packet stream into frames, a bounded queue
carries them to the matcher, the matcher pairs responses with pending requests inside a time window,
and a second queue carries the result to the output, which rotates files and counts.

- `Packets`, `PacketTable`: keys, hash and comparisons; the resizing hash table as an index from keys
  to newest-first lists, with its amortised cost.
- `Frames`, `MatcherSpec`, `MatcherLaws`, `FrameLaws`, `WindowLaws`: the matcher as a state machine
  over values that finds requests by scanning its queue, and what every run of it keeps.
- `Window`, `Matcher`: the matcher thread itself, with loops, hash table and response pointers, proved
  to do what the state machine does.
- `InputSpec`, `Input`: cutting the stream into frames.
- `FrameQueue`: the circular array. `Channel`: the locking protocol of one queue: locks, waits and
  broadcasts are steps, what is done under the mutex between two of them is grouped into one.
  `MatcherSteps`, `Pipeline`, `PipelineLaws`: the three threads over two such queues, under every
  schedule, with the matcher moving one event at a time.
- `Records`, `Output`: files and totals. `EndToEnd`: all of it together.

**JSON** (`libucw/ucw-json`). `JsonText`, `JsonStrings`, `JsonSpec`: how text is read and values are
printed, as functions. `JsonLaws`, `JsonNormal`: the round trip, in both directions, for every value
and every text. `JsonLayout`: what printed text looks like. `JsonGrammar`, `JsonTrees`: a grammar,
that of RFC 7159 within the parser's limits on characters and keys, and that the parser accepts its
texts, no others, and gives each its value. `JsonObject`, `JsonParser`, `JsonPrinter`,
`JsonRoundTrip`: the parser and printer with their context, proved against those functions.

**Smaller parts.** `Sequences`, `Words`: shared facts and types. `Adler32`: the checksum with
deferred remainders. `Transport`: normalised weights and the greedy flow between two image
signatures. `Dump`: the token bucket. `Escape`: the CSV escaper.

Where comments and code disagree the model follows the code:

- The table is searched from the newest request on, although `src/packet_hash.h:101` and
  `src/packet_hash.c:153` speak of the oldest.
- Up to 33 requests are looked at (`src/packet_hash.c:163-170`), one more than the constant says.
- The packets of a bucket are newest first, not ascending by time as `src/packet_hash.h:47` says.

Some invariants are sealed: a predicate like `OpenTable(x)` that is always true guards the body, so
that a proof looks inside only where it asserts the guard. This changes no meaning.

## Model

| member | source | states |
|---|---|---|
| `Packets.PrimaryHash` | src/packet.c:189-211 | the hash, accumulated with 64-bit wrap-around and repeated remainder, is a function of the direction-free key alone, for every parameter above 0x100 and both address lengths |
| `Packets.HashSeesFields` | src/packet.c:194-201 | no fixed field is left out: keys that differ in one of family, protocol, id or a port have different hashes over these fields, under the largest parameter |
| `Packets.HashSeesWords` | src/packet.c:203-208 | nor is any address word: keys whose hashes agree up to a word and that differ in it, on one side, have different hashes after it |
| `Packets.PrimaryMatchIsKeyEquality` | src/packet.c:231-258 | two packets match exactly when family, protocol, id, client endpoint and server endpoint are equal, whatever their directions |
| `Packets.PrimaryMatchEquivalence` | src/packet.c:189-258 | matching is reflexive, symmetric and transitive over mixed directions, and packets that match have equal hashes |
| `Packets.QnameMatchMeans` | src/packet.c:214-229 | for a request and a response, as the source asserts, names match exactly when the response's name has size one or the names are equal |
| `PacketTable.Rehash` | src/packet_hash.c:68-77 | moving all chains to an array of another size keeps exactly the same buckets, each in its slot, and their number |
| `PacketTable.RequestsResized` | src/packet_hash.c:60-81 | the same buckets in any other arrangement give every key the same list of requests |
| `PacketTable.RequestsElsewhere` | src/packet_hash.c:103-143 | changing the bucket of one key does not change the list of any other key |
| `PacketTable.PutInBucket` | src/packet_hash.c:107-122 | a request put into an existing bucket becomes the first of its key's list; invariant and other lists are kept |
| `PacketTable.PutInNewBucket` | src/packet_hash.c:110-122 | a request in a new bucket is the only one of its key; invariant and other lists are kept |
| `PacketTable.TakeFromBucket` | src/packet_hash.c:129-143 | taking a request out removes it from its key's list and no other, and removes the bucket exactly when it was the last |
| `PacketTable.ScanIsFirst` | src/packet_hash.c:153-172 | the scan that the specification uses gives the first acceptable request of a list, if it is among the first 33, and nothing exactly if none of those is acceptable |
| `PacketTable.AcceptableMeans` | src/packet.c:214-229 | with names off every request is acceptable; with names on, those whose name is that of the response, or all if the response has the root name |
| `PacketTable.FirstAcceptable` | src/packet_hash.c:153-172 | the loop finds the first request with an acceptable name, if it is among the first 33; nothing exactly if none of those is acceptable |
| `PacketTable.ResizeIsPaid` | src/packet_hash.c:60-81 | a resize is paid for by the operations since the last one: the amortised bound survives every growth and shrinkage |
| `PacketTable.Table.constructor` | src/packet_hash.c:26-42 | a new table has no waiting requests and meets the invariant |
| `PacketTable.Table.Resize` | src/packet_hash.c:57-81 | never below the minimal capacity, and no request is lost, added or reordered |
| `PacketTable.Table.FindBucket` | src/packet_hash.c:83-101 | the place found holds the bucket of the packet's key if there is one |
| `PacketTable.Table.Insert` | src/packet_hash.c:103-123 | afterwards the request is the newest of its key and every other list is unchanged, across any resize |
| `PacketTable.Table.Remove` | src/packet_hash.c:175-182 | a waiting request is taken out of its list and nothing else changes; the assertion that its bucket exists holds |
| `PacketTable.Table.GetMatch` | src/packet_hash.c:145-173 | gives the newest acceptable request of the key if it is among the newest 33, nothing exactly if none of those is acceptable, and takes exactly that one out |
| `PacketTable.Table.Bounds` | src/packet_hash.h:51-53 | between calls the table is loaded within its limits, and all resizes together have moved at most three buckets per call |
| `Frames.TiledMeans` | src/packet_frame.h:30-53 | what a tiled sequence of frames is, frame by frame: no final one, within the limits, each starting where the one before it ends |
| `Frames.PacketFrame.Append` | src/packet_frame.c:58-66 | the packet is last, the end moves on only to a later time, count and size stay those of the packets |
| `Frames.PacketFrame.HandOver` | src/worker_packet_matcher.c:68-74 | the frame leaves as it was and an empty one takes its place |
| `MatcherLaws.TickFramed` | src/worker_packet_matcher.c:93-126 | one event loses no packet, keeps the frames gapless and within the limits, and the frame assertion holds |
| `MatcherLaws.AdvanceFramed` | src/worker_packet_matcher.c:83-127 | advancing ends at the later of the two times although the time may step back on the way, loses nothing and keeps the frames in order |
| `MatcherLaws.AdvanceQueue` | src/worker_packet_matcher.c:93-126 | packets leave the window only from its old end |
| `MatcherLaws.AdvanceDrains` | src/worker_packet_matcher.c:197-200 | once the time is past every packet's window the queue is empty |
| `MatcherLaws.AdvanceStops` | src/worker_packet_matcher.c:93-126 | an event that is due at the new time, a packet's or the frame's, is not put off, and nothing happens before one is due |
| `MatcherLaws.ChoicePending` | src/worker_packet_matcher.c:184-190 | the request chosen for a response is queued, has the response's key and no response yet: none is ever overwritten |
| `MatcherLaws.AcceptInv` | src/worker_packet_matcher.c:177-195 | taking a packet keeps the running invariant: conservation, order, pairing by key, one request per response |
| `MatcherLaws.PairedMeans` | src/packet.c:231-258 | a matched response goes back where its request came from, with the same id, family and protocol |
| `MatcherLaws.PendingAnswer` | src/worker_packet_matcher.c:184-190 | hanging a response on a request takes that request, and no other, out of the pending ones |
| `MatcherLaws.PendingEvict` | src/worker_packet_matcher.c:112-121 | the oldest packet leaves the pending requests exactly when it is one of them |
| `MatcherLaws.MatcherDelivers` | src/worker_packet_matcher.c:132-206 | whole runs, any order of times: the frames sent carry the packets in arrival order minus the matched responses, tile time within the limits, end with one final frame; every matched response hangs on one earlier request with its key; queue and pending requests are empty |
| `FrameLaws.EvictShaped` | src/worker_packet_matcher.c:111-124 | an eviction sends no frame without need |
| `FrameLaws.FramesSent` | src/worker_packet_matcher.c:83-205 | whole runs, any order of times: every frame but the last regular one has its full duration or had no room for the first packet of the next; the first begins where the input begins; the final one is sent a window and a microsecond after the latest time told |
| `Window.Window.Dequeue` | src/worker_packet_matcher.c:115-121 | the oldest packet leaves queue and table; the table holds exactly the queued requests without a response |
| `Window.Window.EnqueueRequest` | src/worker_packet_matcher.c:179-182 | a request enters queue and table, keeping the coupling |
| `Window.Window.EnqueueResponse` | src/worker_packet_matcher.c:191-194 | an unmatched response enters the queue only, keeping the coupling |
| `Window.Window.Answer` | src/worker_packet_matcher.c:183-190 | the table finds the request that a scan of the queue would choose, and the response field of that packet alone is set |
| `MatcherThread.Matcher.constructor` | src/worker_packet_matcher.c:31-51 | the thread starts in the initial state of its state machine |
| `MatcherThread.Matcher.OutputFrame` | src/worker_packet_matcher.c:68-74 | sends the current frame and goes on with an empty one from its end |
| `MatcherThread.Matcher.Evict` | src/worker_packet_matcher.c:111-124 | the eviction through the hash table does what eviction by scan does, and sends the frame exactly when the packet does not fit in; the removal's assertion holds |
| `MatcherThread.Matcher.Step` | src/worker_packet_matcher.c:93-126 | one round of the loop is one event of the state machine |
| `MatcherThread.Matcher.AdvanceTime` | src/worker_packet_matcher.c:83-127 | for every real time, as the source asserts, the loop terminates and computes all events up to it, the early return included |
| `MatcherThread.Matcher.Accept` | src/worker_packet_matcher.c:177-195 | request or response, the hash table leads to the same state as the scan |
| `MatcherThread.Matcher.NextPacket` | src/worker_packet_matcher.c:135-170 | the next packet of the input in order, or none after the final frame, with the time advanced on the way |
| `MatcherThread.Matcher.Finish` | src/worker_packet_matcher.c:197-205 | the final advance and the two last frames are those of the state machine; queue and hash table are empty afterwards if no packet is newer than the time reached |
| `MatcherThread.Matcher.Work` | src/worker_packet_matcher.c:172-206 | the whole thread, with its hash table and response fields, sends the frames and sets the responses of the reference run, and leaves queue and hash table empty |
| `WindowLaws.AdvanceInTime` | src/worker_packet_matcher.c:93-126 | when times do not run backwards exactly the packets of the window are queued, and time never steps back |
| `WindowLaws.NotChosen` | src/packet_hash.c:153-172 | an acceptable pending request is passed over only when names count and more than 32 newer ones with its key came after it |
| `WindowLaws.NewerNotPending` | src/packet_hash.c:153-172 | a request that came after the one chosen and expects the response too is not pending |
| `WindowLaws.AcceptWindow` | src/worker_packet_matcher.c:177-195 | taking a packet keeps the window guarantee |
| `WindowLaws.WindowGuarantee` | src/worker_packet_matcher.c:84-206 | in order of time: every matched pair is at most the window apart; a response goes to the newest request that expects it, later ones having got another response before; it stays unmatched only if every request that expects it had another response before, or was buried under more than 32 newer ones while names count; frames and packets sent are in order of time again |
| `InputSpec.CutInv` | src/input.c:93-97 | the assertion on the frame's end holds at every cut, and cutting loses nothing and keeps the limits |
| `InputSpec.HandleInv` | src/input.c:81-99 | every event keeps the frames tiled and within the limits and adds exactly the accepted packet |
| `InputSpec.InputDelivers` | src/input.c:66-115 | a whole input: the frames carry the accepted packets in order, are contiguous, within duration and size limits, not sent before that without need, and end with one final frame |
| `InputSpec.InputReaches` | src/input.c:81-279 | the frames begin at the first time told and reach the latest one, whatever the order; the clock counts the grace period behind |
| `InputSpec.InputOrdered` | src/input.c:81-115 | for events in order of time the frames and their packets are in order throughout |
| `Frames.OrderedFramesMeans` | src/input.c:257-262 | every packet then lies between the start and the end of its frame |
| `InputThread.Input.OutputFrame` | src/input.c:66-74 | sends the current frame and continues from its end |
| `InputThread.Input.AdvanceTimeTo` | src/input.c:81-99 | frames are cut until the time fits; the assertion inside the loop holds |
| `InputThread.Input.AcceptPacket` | src/input.c:257-262 | time first, then the size limit, then the packet |
| `InputThread.Input.CatchRealTime` | src/input.c:266-279 | time follows the clock, the grace period behind, exactly when the frame has fallen further behind |
| `InputThread.Input.Close` | src/input.c:101-111 | the last frame and one final frame are sent |
| `InputThread.Input.Work` | src/input.c:66-279 | for every sequence of events the frames are those of the specification |
| `FrameQueue.OfferedAllKeeps` | src/frame_queue.c:81-94 | of any number of frames offered to a queue nobody reads, dropping the newest keeps the first ones and dropping the oldest the last ones, up to the capacity |
| `FrameQueue.Queue.constructor` | src/frame_queue.c:28-42 | an empty queue of the given capacity |
| `FrameQueue.Queue.TakeOldest` | src/frame_queue.c:58-68 | the ring gives its oldest frame; order and byte count of the rest are kept |
| `FrameQueue.Queue.Enqueue` | src/frame_queue.c:70-105 | contents and total size after the offer, for each of the three behaviours of a full queue; the caller has to wait exactly when a blocking queue is full, and then nothing changes |
| `FrameQueue.Queue.Dequeue` | src/frame_queue.c:107-122 | frames leave in the order they came; the caller has to wait exactly when there is none |
| `Channel.ProducerKeeps` | src/frame_queue.c:79-104 | every step inside enqueue keeps mutual exclusion, the reasons to sleep and the line of frames, and brings the threads nearer to the end |
| `Channel.ConsumerKeeps` | src/frame_queue.c:112-120 | the same for every step inside dequeue |
| `Channel.TestIsEnqueue` | src/frame_queue.c:81-100 | the producer's step under the mutex is the queue's enqueue: same contents, and it sleeps exactly when a blocking queue is full |
| `Channel.TestIsDequeue` | src/frame_queue.c:112-117 | the consumer's step under the mutex takes the oldest frame, or sleeps when there is none |
| `Channel.DeliverKeeps` | src/frame_queue.c:117-121 | the frame handed over is the oldest of the line |
| `Channel.WakeKeeps` | src/frame_queue.c:84-114 | a wait that ends without a broadcast does no harm |
| `Channel.Blocked` | src/frame_queue.c:81-120 | no wakeup is lost: a thread that cannot run sleeps on a queue that is full, or empty, or the other thread can run |
| `MatcherSteps.OpStep` | src/worker_packet_matcher.c:132-206 | every operation of the matcher only adds to what it has sent and leaves the responses of packets already sent alone |
| `MatcherSteps.StepsFrozen` | src/worker_packet_matcher.c:184-190 | so whatever was sent at any time of a run is final |
| `MatcherSteps.MicroSteady` | src/worker_packet_matcher.c:93-206 | the same event by event inside an operation |
| `MatcherSteps.MicroRun` | src/worker_packet_matcher.c:93-206 | going event by event leads to the same state as going operation by operation |
| `MatcherSteps.MicroStepsLeft` | src/worker_packet_matcher.c:93-126 | and takes a number of events known beforehand |
| `PipelineLaws.StepInv` | src/main.c:155-212 | every step of every thread, one event of the matcher included, under every schedule, keeps the invariant of the whole pipeline |
| `PipelineLaws.NoDeadlock` | src/main.c:155-212 | in every reachable state some thread can run unless all have ended |
| `PipelineLaws.WrittenIsFinal` | src/output.c:308-314 | at any time what the output has received and written is a beginning of the final result, with final responses: the output never reads a packet the matcher will still change |
| `PipelineLaws.Ended` | src/main.c:206-210 | when the main thread has joined the others, all frames were delivered, in order and without loss, and both queues are empty |
| `PipelineLaws.RunWork` | src/main.c:155-212 | no schedule goes on for ever: its length is bounded beforehand, apart from waits that end without a broadcast |
| `PipelineLaws.CanFinish` | src/main.c:155-212 | from every reachable state there is a schedule on which all threads end |
| `PipelineLaws.PipelineDelivers` | src/main.c:155-212 | all of this from the start, for every queue capacity, every input and every schedule |
| `OutputThread.WriteAllKeeps` | src/output.c:276-291 | every record goes to exactly one file, in order, and no file was opened more than the period before a record's time |
| `OutputThread.ArrangedMeans` | src/common.c:139-148 | files are opened more than the period after each other; without a period there is one file; no record is later than the period after its file was opened |
| `OutputThread.WriteFramesOpened` | src/output.c:271-288 | every file is opened at the start of a frame or at the time of its first record |
| `OutputThread.WriteFramesCover` | src/output.c:310 | at the start of every frame that has a time, even an empty one, a file is open that is not due |
| `OutputThread.WriteFramesEarly` | src/output.c:271-316 | for a stream in order of time no file is opened after the time of one of its records |
| `OutputThread.StreamFiles` | src/output.c:293-325 | all of this for whole streams; in order of time a file spans at most the period |
| `OutputThread.Output.Open` | src/output.c:178-224 | a new file without records, for the time given |
| `OutputThread.Output.Close` | src/output.c:226-269 | the current counts go into the totals exactly once |
| `OutputThread.Output.CheckRotation` | src/output.c:271-291 | afterwards a file is open that is not due: the one before if that is not due, otherwise one opened at the time given; the time known is the later one |
| `OutputThread.Output.WritePacket` | src/output_csv.c:358-374 | the counts stay those of the records written, by kind |
| `OutputThread.Output.TakeFrame` | src/output.c:301-316 | final frames end the loop, frames without a time are skipped, others are written; the assertions on empty frames hold |
| `OutputThread.Output.Work` | src/output.c:293-325 | all packets of the stream are written once, in order and in time, to files opened at times of the stream that span at most the period if it is in order, and the totals count all of them, across any number of rotations |
| `EndToEnd.Accounted` | src/output_csv.c:366-371 | the totals are one record per packet that is not a matched response, the requests without a response and the responses without a request; packets received = records + records with both |
| `EndToEnd.MatcherStream` | src/output.c:301-306 | what the matcher sends meets the output's assertions |
| `EndToEnd.MatchAll` | src/worker_packet_matcher.c:172-206 | the response fields in memory end up as in the reference run |
| `EndToEnd.Collect` | src/main.c:155-212 | the three threads one after the other: every accepted packet that is not a matched response is in one file, in order, in time and with its response, and the totals account for every packet accepted; with input in order of time the window guarantee holds and a file spans at most the period |
| `EndToEnd.CollectorDelivers` | src/main.c:155-212 | the three threads under every schedule and for every rotation period: the records are the accepted packets without the matched responses, placed in the files in order and in time, the totals of those files account for all packets; with input in order of time the window guarantee holds and a file spans at most the period |
| `JsonText.NumberReads` | libucw/ucw-json/parse.c:60-135 | every number of the grammar in section 6 of RFC 7159 is read to its end when something else follows |
| `JsonText.NumberSplits` | libucw/ucw-json/parse.c:60-135 | whatever is read as a number is one, taken off the start of the text, and no digit is left behind |
| `JsonStrings.PairReads` | libucw/ucw-json/parse.c:241-254 | an escaped surrogate pair is read as the character it was printed for, and refused above U+F0000 |
| `JsonStrings.CharReads` | libucw/ucw-json/format.c:36-63 | every character that survives is read back from its printed form, escaped or raw |
| `JsonStrings.StringBack` | libucw/ucw-json/parse.c:185-278 | a printed string comes back as it was exactly when all its characters survive, and is read to its end if at all |
| `JsonStrings.StringReadable` | libucw/ucw-json/parse.c:199-270 | strings that were read have only characters 1..U+D7FF and U+F900..U+F0000 |
| `JsonGrammar.StringAccepted` | libucw/ucw-json/parse.c:185-278 | every sequence of characters, short escapes, code units and surrogate pairs that the grammar allows is read as the characters it stands for |
| `JsonGrammar.StringFound` | libucw/ucw-json/parse.c:185-278 | whatever is read as a string is such a sequence |
| `JsonLaws.ValueBack` | libucw/ucw-json/parse.c:353-437 | reading the text of any value fails, or ends where the text ends and gives the value exactly when it is fine, at every depth and under all options |
| `JsonLaws.RoundTrip` | libucw/ucw-json/format.c:92-165 | for every value and all four option combinations: parsing the printed text gives the value if and only if its strings and keys survive, its keys are distinct and its numbers are exact |
| `JsonNormal.FineMeans` | libucw/ucw-json/format.c:25-71 | when a value comes back, said for numbers, strings and keys apart |
| `JsonNormal.ReadSurvives` | libucw/ucw-json/parse.c:199-431 | everything that was read has surviving strings and distinct keys |
| `JsonNormal.Normalises` | libucw/ucw-json/parse.c:439-452 | for every text that parses, printing with escapes and parsing again gives the same value if and only if its numbers are exact; raw, if and only if it also lacks U+F0000 |
| `JsonNormal.LastCharacterEscaped` | libucw/ucw-json/parse.c:253-254 | U+F0000 is accepted escaped |
| `JsonNormal.LastCharacterRaw` | libucw/ucw-json/parse.c:206-212 | U+F0000 is refused raw, so printing it raw does not round-trip |
| `JsonLayout.CharLength` | libucw/ucw-json/format.c:36-63 | a character is printed as it is unless it is a quote, a backslash, a control character, or not ASCII while escaping is on; else it takes two, six or twelve characters, all printable ASCII with lower-case digits |
| `JsonLayout.EscapedString` | libucw/ucw-json/format.c:25-66 | with escaping on a string is printed in printable ASCII |
| `JsonLayout.PlainString` | libucw/ucw-json/format.c:62-64 | a string that needs no escapes is printed as it is between quotes |
| `JsonLayout.PrintAscii` | libucw/ucw-json/format.c:92-165 | with escaping on a whole value is printed in ASCII, and the only control characters are newlines and tabs |
| `JsonLayout.PrintLaidOut` | libucw/ucw-json/format.c:78-165 | blanks outside strings: after an opening bracket and a comma and before a closing bracket a newline with one tab for every bracket open there, or one blank; one blank after a colon; a newline at the end; none anywhere else |
| `JsonTrees.GrammarParses` | libucw/ucw-json/parse.c:280-452 | every text of the grammar, at any nesting and with any blanks, parses to the value its tree denotes |
| `JsonTrees.ParsedIsGrammar` | libucw/ucw-json/parse.c:280-452 | every text that parses is one of the grammar, and the tree denotes the value |
| `JsonTrees.ParsesExactly` | libucw/ucw-json/parse.c:280-452 | a text parses to a value if and only if the grammar gives it that value; no text has two |
| `JsonObject.Members.Get` | libucw/ucw-json/json.c:135-141 | the value of the key, or none |
| `JsonObject.Members.Set` | libucw/ucw-json/json.c:112-133 | afterwards the key has the value, or none, every other key is as before, keys stay distinct; a new key is appended |
| `JsonParser.Parser.ScanDigits` | libucw/ucw-json/parse.c:60-122 | the character loops compute the longest number, with the same errors |
| `JsonParser.Parser.ParseName` | libucw/ucw-json/parse.c:137-164 | the 16-byte buffer is as good as the whole name |
| `JsonParser.Parser.ParseHex4` | libucw/ucw-json/parse.c:166-183 | four hexadecimal digits of either case, or an error |
| `JsonParser.Parser.ParseString` | libucw/ucw-json/parse.c:185-278 | the character loop reads the string of the specification, with the same errors |
| `JsonParser.Parser.FetchToken` | libucw/ucw-json/parse.c:280-333 | the next token with one character of lookahead |
| `JsonParser.Parser.PeekToken` | libucw/ucw-json/parse.c:335-340 | looking at a token does not change the tokens to come |
| `JsonParser.Parser.NextToken` | libucw/ucw-json/parse.c:342-351 | the token that was looked at, or the next one of the text |
| `JsonParser.Parser.NextValue` | libucw/ucw-json/parse.c:353-437 | terminates and reads the value of the specification, or its error, or the end |
| `JsonParser.Parser.ParseText` | libucw/ucw-json/parse.c:439-452 | a text with exactly one value, or the error of the specification |
| `JsonPrinter.Printer.WriteString` | libucw/ucw-json/format.c:25-66 | appends the printed string: printable ASCII with escaping on, and the string itself between quotes when it needs no escapes |
| `JsonPrinter.Printer.WriteSpace` | libucw/ucw-json/format.c:78-90 | a blank, or a newline and as many tabs as the depth |
| `JsonPrinter.Printer.WriteValue` | libucw/ucw-json/format.c:92-158 | appends the printed value and restores the indentation |
| `JsonPrinter.Printer.Write` | libucw/ucw-json/format.c:160-165 | appends the value and a newline, laid out, and in ASCII with escaping on |
| `JsonRoundTrip.Reparse` | libucw/ucw-json/format.c:160-165 | printer and parser together give the value back if and only if it is fine |
| `JsonRoundTrip.Recognise` | libucw/ucw-json/parse.c:439-452 | the parser with its context returns the value the grammar gives the text, and an error exactly when the grammar gives none |
| `Adler32.PlainIsReduced` | libucw/ucw/adler32.c:13-48 | one remainder at the end equals a remainder after every byte |
| `Adler32.PlainIs` | libucw/ucw/adler32.c:13-48 | the two sums in closed form: the sum of the bytes, and the sum of the bytes weighted by their distance from the end |
| `Adler32.ChecksumIs` | libucw/ucw/adler32.c:23-48 | the checksum in closed form, for every start value and non-empty data |
| `Adler32.BlockFits` | libucw/ucw/adler32.c:13-14 | 5552 bytes after any two 16-bit halves, also above 65520, stay below 2^32 |
| `Adler32.ChecksumPieces` | libucw/ucw/adler32.c:23-48 | updating with x and then y equals updating with x followed by y |
| `Adler32.AddBlock` | libucw/ucw/adler32.c:33-46 | a block, sixteen bytes at a time and then the rest, equals the definition of section 2.2 of RFC 1950 without overflow |
| `Adler32.Update` | libucw/ucw/adler32.c:23-48 | the update equals the definition and the closed form for every start value and buffer; without a buffer it is 1 |
| `Transport.WeightsSum` | libucw/images/sig-init.c:277-286 | for any shares the weights are at least one and add up to what was to be given out |
| `Transport.WeightsMean` | libucw/images/sig-init.c:277-286 | which weights these are: every region but the first has its share, or one if that is nothing, or less only if all regions before it are down to one; shares that are weights stay as they are |
| `Transport.Normalise` | libucw/images/sig-init.c:277-286 | the loop over 1 to 16 regions yields such weights, 128 in all, that follow the shares as far as possible |
| `Transport.PackKeeps` | libucw/images/sig-cmp-gen.h:129-148 | the two region numbers and the low 24 bits of the distance survive in the packed word |
| `Transport.FillMatrix` | libucw/images/sig-cmp-gen.h:62-155 | every pair of regions gets an entry with the distance between those two, and len1*len2 entries there are |
| `Transport.SortedComplete` | libucw/images/sig-cmp-gen.h:167-168 | sorting does not change which pairs have an entry |
| `Transport.NotDone` | libucw/images/sig-cmp-gen.h:173-191 | while something is left to move there is a next entry |
| `Transport.CostFits` | libucw/images/sig-cmp-gen.h:190-191 | as long as 128 in all is moved the 32-bit sum does not overflow and is the sum of amounts times distances |
| `Transport.Significance` | libucw/images/sig-cmp-gen.h:170-191 | the loop reaches zero within the entries, for any order of them; every move is the most its two ends allow; what every region gives and takes is exactly its weight; the sum is the exact cost of the flow |
| `Transport.Compare` | libucw/images/sig-cmp-gen.h:62-191 | from the shares of two images to the sum: the weights follow the shares, the entries are all pairs with their distances in any order, and the flow along them is complete after at most len1*len2 moves at the exact cost |
| `Dump.Dumper.Refill` | src/dump.c:142-152 | the tokens afterwards are those earned since the last packet, capped at the burst, and the allowance covers them |
| `Dump.Dumper.Write` | src/dump.c:163-175 | a packet written costs its size in tokens and is the last of the file; a failed write costs nothing |
| `Dump.Dumper.DumpPacket` | src/dump.c:131-172 | a packet is skipped exactly when the bucket is in debt after pouring in what was earned; one written goes to the open file, or to one opened at its time when the period has passed; the bucket's invariant is kept |
| `Dump.Dumper.Limited` | src/dump.c:108-113 | a file never holds more than the burst, the rate for its time, and one packet |
| `Dump.Dumper.DumpAll` | src/dump.c:131-172 | the same after any sequence of packets, also with times that run backwards |
| `Escape.DecodesBack` | src/common.c:57-89 | with a graphic separator the configuration allows, or one from 0x40 on, the text decodes to exactly the data |
| `Escape.Ambiguous` | src/common.c:76-83 | with every other allowed separator two different strings have the same text |
| `Escape.EncodedClean` | src/common.c:57-89 | no newline, no zero byte, no separator that is not escaped, and no escape is split |
| `Escape.EncodedShort` | src/common.c:57-89 | nothing is escaped without need: the text is longer by one byte for every special byte, by three at most where the separator is not graphic, and data without special bytes stays as it is |
| `Escape.Escape` | src/common.c:57-89 | the text is the code of the longest prefix of the data that fits with its end mark |

## Left out

- Capture with libtrace, the event loop, signals, options, logging and statistics: the input is a sequence of accepted packets and clock readings.
- Parsing of DNS data by libknot: direction, id, name and sizes are fields of a packet.
- Timestamps and counters are unbounded integers; only the hash, the checksum, the packed distances and their sum have machine width.
- The configuration is taken as checked: frame duration and window above zero, queue capacity at least one, hash parameter above 0x100, both addresses of a packet of one family.
- Times at or below the reserved "no time" value cannot occur in packets.
- Hash chains are sequences of bucket values in the slots of an array, not nodes linked by `next`; the never-read `prevp` is absent. A new bucket has its request before a resize, not after it.
- A frame object that is handed over is modelled by its value; the thread goes on with its one frame object in place of a newly allocated one.
- Freeing of memory: ownership is membership in one container.
- Pipeline: the matcher's own computation for one event (an eviction, the end of a frame, a packet taken) is one step; it touches nothing the other threads read, and each frame it sends is enqueued before its next event.
- Pipeline: the locking protocol is modelled for the blocking behaviour, which `main` uses; the two dropping behaviours are in `FrameQueue` only.
- `dns_frame_queue_enqueue` with no queue, and destroying a queue that still has frames.
- For packets that come out of order of time no window guarantee is claimed; the laws of `MatcherLaws` hold for them too.
- Output: opening, writing and closing of files and subprocesses are state and counters; bytes written and rates are not modelled, nor are the fields of CSV and CBOR records.
- JSON: text is a sequence of code points, UTF-8 decoding and its errors are not modelled; line and column of an error are not kept; memory pools, push and pop are absent.
- JSON: `strtod` and the `%.16g` format are parameters. Doubles printed with 16 digits need not read back as the same number, so the round trip is stated with the exact condition that they do.
- JSON: RFC 7159 also allows repeated keys and characters that the parser refuses (zero, U+D800 to U+F8FF, those above U+F0000) and numbers out of range; the grammar of `JsonGrammar` and `JsonTrees` follows the parser.
- JSON: which error a text that does not parse gets is what the specification functions say; the grammar only decides whether there is one.
- JSON: tokens are values; the one node shared by all trivial tokens is not modelled, no token is used after the next one is read.
- JSON: strings given to the printer have no zero inside, since they end at the first one.
- Transport: the distances between regions are arbitrary numbers, the sorting routine is any permutation, and the final scaling of the distance is absent.
- Dump: amounts are reals; opening files and writing packets are given outcomes.
- Escape: characters are ASCII, with the `isgraph` and `isalnum` of the C locale.
- Charset conversion, image codecs, the XML parser, the frame logger and the CBOR encoder would only add members without a clean specification.
