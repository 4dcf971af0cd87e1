# Go library and runtime algorithms, modelled and proved in Dafny

This project models the parts of a copy of the Go 1.14 standard library and runtime whose
correctness rests on an argument that no single function body shows, and proves that argument
for all inputs, all runs or all reachable states.

| files | what they model |
|---|---|
| ChannelSpec, ChannelRuns | a channel as sequences; its operations, a close in many small steps, and the unlocked fast paths as steps of any number of goroutines, in every interleaving |
| WaitQueue, ChannelRuntime | the same operations as the code has them: ring buffer with running indices, linked wait queues, direct hand-off, proved against ChannelSpec |
| DeepEqual | equality of cyclic heaps with a visited map, against the greatest bisimulation |
| FieldLookup | breadth-first lookup of embedded fields, against "the only match at the shallowest depth" |
| DebugLogFormat, DebugLog, DebugLogRuns | the overwriting ring of framed records, its writer, the reader embedded in it, the printing loop, and runs of messages |
| Basics, Io | machine numbers, options, errors, and a reader that delivers in arbitrary pieces |
| Pipe | the synchronous pipe: readers, writers and closers as steps, in every interleaving |
| Search | substring search with a rolling hash modulo 2^32 |
| Scanner, BufReader, BufWriter, Buffer | buffered input and output, and the growing byte queue with its cost |
| FormatInteger | integers formatted from right to left into a fixed buffer |
| TypeBits, StructLayout, ArgFrames, FrameBits | pointer bitmaps computed in two ways, struct layout, argument frames laid out in three places, and their pointer maps |
| TypeHash | hashing of values by type, which must respect equality |

Code that updates state is modelled as classes and methods with loops, each proved against a
specification function or relation; concurrency is modelled as a transition system. Conditions
the code asserts or panics on appear as `assert false` where they are proved unreachable, or as
a result that says exactly when they happen.

Where the code and its own comments differ, the model follows the code:

- `runtime/chan.go:162-168` claims that a failed unlocked send always had a moment at which the
  channel was open and not ready. On an unbuffered channel a close can empty the receive queue
  between the two reads; `UnbufferedFastSendFooled` is such a run, and
  `FastSendIsRightIffBuffered` says exactly when the claim holds.
- `FieldByName` scans the struct's own fields first and reports the first of two fields of the
  same name, where the rule in the comments of `FieldByNameFunc` selects neither. It does so if
  and only if the struct itself declares the name twice, as it can the blank name;
  `TwinsDisagree` is such a struct.
- A debug log message whose tick is the largest 64-bit number is taken for the end of the log.
  `AllShown` says that nothing is lost if and only if there is no such tick; `LastTickHides` is
  a log that loses two messages of three.
- `ReadBytes` promises the error it meets (`bufio/bufio.go:427-430`), but takes an ErrBufferFull
  of the source itself for its own full buffer and reads on. `GatherThrough` says that the promise
  is kept if and only if the error is another one; `ErrorPassedOver` is an input.
- The size limit of `Scanner.Buffer` is documented as the larger of its two arguments
  (`bufio/scan.go:228-230`), but the buffer stops doubling before a size could overflow.
  `LargerOfTheTwo` gives the exact condition, `DoublingStops` an input. No machine allocates the
  2^62 bytes it takes to see the difference.

`ReadLine` reports an error if and only if no data came before it on the line, as its comments say
(`bufio/bufio.go:387-390`): an error after an unfinished line is not reported with that line.

## Model

| member | source | states |
|---|---|---|
| ChannelSpec.RecvTakesHead | runtime/chan.go:474-481 | With a sender parked, a receive takes the head of buffer and queue together and wakes that sender, whatever the buffer size |
| ChannelSpec.SendResults | runtime/chan.go:183-262 | A send panics exactly on a closed channel; on an open one it goes to the first receiver exactly if there is one, would block or parks exactly if there is neither receiver nor room, and is buffered otherwise, whether it may block or not |
| ChannelSpec.SendEffects | runtime/chan.go:183-262 | What each of these results does to the channel, which stays valid |
| ChannelSpec.RecvResults | runtime/chan.go:461-541 | A receive reports a closed channel exactly if it is closed and drained, would block or parks exactly if an open one has nothing, and otherwise gives the oldest value, from a parked sender exactly if there is one |
| ChannelSpec.RecvEffects | runtime/chan.go:461-541 | What each of these results does to the channel: the values move up by one |
| ChannelSpec.OneSlot | runtime/chan.go:197-217 | With one free slot a non-blocking send succeeds, and a non-blocking receive after it gets the value |
| WaitQueue.WaitQ.Enqueue | runtime/chan.go:712-724 | The linked queue gains the waiter at its end |
| WaitQueue.WaitQ.Dequeue | runtime/chan.go:726-756 | Returns the first waiter whose select has not been won elsewhere, which it thereby wins, drops just the waiters of selects already won before it, and leaves the rest in order |
| ChannelRuntime.Hchan.SendIndex | runtime/chan.go:205-208 | The running send index is (recvx + qcount) % dataqsiz, although the code only increments and wraps it |
| ChannelRuntime.Hchan.Chansend | runtime/chan.go:183-262 | The critical section of a send over ring and linked queues does exactly what the sequence model of a send does: closed, hand-off, buffer, would block, or park; no goroutine but the one served changes its param |
| ChannelRuntime.Hchan.Chanrecv | runtime/chan.go:461-541 | The critical section of a receive does exactly what the sequence model of a receive does; no goroutine but the one served changes its param |
| ChannelRuntime.Hchan.SendToReceiver | runtime/chan.go:270-301 | The value reaches the first live receiver and only that goroutine is made ready, with its waiter as param; the param of every other goroutine stays as it was |
| ChannelRuntime.Hchan.RecvFromSender | runtime/chan.go:556-597 | Head of the ring out and sender's value in at the same slot, or straight from the sender; that sender is made ready |
| ChannelRuntime.Hchan.TakeHead | runtime/chan.go:483-500 | The oldest buffered value leaves the ring, the others stay in order |
| ChannelRuntime.Hchan.PutTail | runtime/chan.go:197-209 | The value becomes the newest of the ring |
| ChannelRuntime.Hchan.Closechan | runtime/chan.go:335-402 | Closing a closed channel panics; otherwise every waiter is made ready once with param nil, the last to wait first, receivers get the zero value, the buffered values stay, and both queues are empty |
| ChannelRuntime.Hchan.AbsValid | runtime/chan.go:9-18 | Between operations, ring, indices and linked queues stand for a channel that satisfies the documented invariants of the sequence model |
| ChannelRuns.StepKeeps | runtime/chan.go:142-541 | Every atomic step, close being many, keeps the channel invariant |
| ChannelRuns.RunInv | runtime/chan.go:9-18 | The invariant holds in every reachable state of every interleaving |
| ChannelRuns.FifoLossless | runtime/chan.go:183-261 | In every run, values accepted in lock order = delivered ++ buffered ++ dropped ++ parked, with nothing dropped while open |
| ChannelRuns.WaitersMakeSense | runtime/chan.go:9-18 | Between critical sections, no receiver is parked while a value or a sender is there; room in the buffer means no parked sender; after close nobody waits |
| ChannelRuns.ReportsAreTrue | runtime/chan.go:461-541 | What each goroutine was told it sent and received is exactly its share of the accepted and delivered values |
| ChannelRuns.WokenOnce | runtime/chan.go:243-254 | Each park is ended by exactly one wake-up, with param nil only after close, so "spurious wakeup" is unreachable |
| ChannelRuns.SendHappens | runtime/chan.go:183-262 | What a send does to history and goroutines: an accepted value is recorded once, with its sender, and who is served is done with that value |
| ChannelRuns.RecvHappens | runtime/chan.go:461-541 | The same for a receive |
| ChannelRuns.NobodyForgotten | runtime/chan.go:9-18 | When nothing is left to do but new calls, no close is under way, and whoever does not run is parked on an open channel, in its queue: a receiver with nothing to take, a sender without room |
| ChannelRuns.CloseAtOnce | runtime/chan.go:335-402 | The steps of close together empty both queues, keep the buffer and drop the values of the parked senders, in order; on a closed channel nothing changes |
| ChannelRuns.ClosedForGood | runtime/chan.go:352-394 | Once closed, a channel stays closed and its buffer only loses values from the front |
| ChannelRuns.CloseDropsTheParked | runtime/chan.go:377-393 | Close drops exactly the values of the senders parked then; the buffered ones are delivered in order afterwards |
| ChannelRuns.FastReceiveIsRight | runtime/chan.go:438-454 | A non-blocking receive that fails without the lock had a moment in the call when the channel was open and nothing receivable |
| ChannelRuns.FastSendIsRightWhenBuffered | runtime/chan.go:159-176 | The same for a send on a buffered channel, even when a close falls between its two reads |
| ChannelRuns.FastSendReordered | runtime/chan.go:170-172 | Read in the other order, the two observations are right on every channel |
| ChannelRuns.UnbufferedFastSendFooled | runtime/chan.go:159-176 | A run on an unbuffered channel in which the failed send had no such moment: close empties the receive queue between the reads |
| ChannelRuns.FastSendIsRightIffBuffered | runtime/chan.go:159-176 | The send fast path is right in all runs if and only if the channel is buffered |
| DeepEqual.DeepEqual | reflect/deepequal.go:192-202 | Terminates on every finite, possibly cyclic heap and answers true exactly when the two values are bisimilar |
| DeepEqual.DeepValueEqual | reflect/deepequal.go:33-158 | A call answers true on every bisimilar pair; when it answers true, every pair it has newly assumed is justified by one layer of the pairs assumed in all |
| DeepEqual.CompareByKind | reflect/deepequal.go:88-157 | The same for one layer: shortcuts on equal pointers, elements, fields, map entries |
| DeepEqual.CompareMaps | reflect/deepequal.go:129-147 | Every key of the first map is found in the second with an acceptable value |
| DeepEqual.Visited.Enter | reflect/deepequal.go:65-84 | The canonical address order may swap a pair, and a pair met again in either order is assumed equal |
| DeepEqual.KeyDeterminesPair | reflect/deepequal.go:14-18 | The visited key (two ordered addresses and a type) stands for one pair of values up to order |
| DeepEqual.MatchedKeysCover | reflect/deepequal.go:129-147 | Maps of equal size whose first keys all occur in the second have the same keys |
| DeepEqual.UnvisitedShrinks | reflect/deepequal.go:76-84 | Entering a pair not seen before makes the set of unvisited keys strictly smaller |
| DeepEqual.BisimilarUnfolds | reflect/deepequal.go:88-157 | Bisimilar values agree in one layer, the children being bisimilar again |
| DeepEqual.LargestIsBisimulation | reflect/deepequal.go:88-157 | The union of all bisimulations is one, so the relation decided is the greatest |
| DeepEqual.DeepEqualSymmetric | reflect/deepequal.go:67-71 | The relation decided is symmetric, which is what makes the address swap harmless |
| DeepEqual.DeepEqualTransitive | reflect/deepequal.go:160-191 | The relation decided is transitive |
| DeepEqual.DeepEqualToItself | reflect/deepequal.go:181-187 | A pointer, slice or map equals itself whatever it leads to; a basic value exactly if it is not a NaN, a func exactly if it is nil |
| DeepEqual.RuleForTypes | reflect/deepequal.go:161-162 | Values of different types are never deeply equal, and the invalid value only to itself |
| DeepEqual.RuleForPlain | reflect/deepequal.go:148-156 | Basic values are deeply equal exactly if they are equal and no NaNs, functions exactly if both are nil |
| DeepEqual.RuleForElements | reflect/deepequal.go:163-164 | Arrays and structs exactly if all elements or fields are |
| DeepEqual.RuleForSlices | reflect/deepequal.go:172-175 | Slices exactly if both or neither are nil, of one length, and of the same first element or with deeply equal elements |
| DeepEqual.RuleForReferences | reflect/deepequal.go:112-121 | Pointers exactly if they are equal or lead to what is deeply equal; interfaces exactly if both are nil or hold what is |
| DeepEqual.RuleForMaps | reflect/deepequal.go:168-169 | Maps exactly if both or neither are nil, of one size, and the same object or with deeply equal values under every key of the first |
| FieldLookup.FieldByNameFunc | reflect/type.go:1194-1289 | Terminates on recursive embedded types; finds a field exactly when one path is the only match at the shallowest matching depth, and reports that path and field, despite counts cut off at 2 and pruning of visited types |
| FieldLookup.ScanLevel | reflect/type.go:1223-1283 | One level of the search: what is queued, counted and matched stands for all embedding paths of that depth |
| FieldLookup.ScanStruct | reflect/type.go:1224-1282 | One queued struct adds exactly its own matches and embedded structs |
| FieldLookup.NextCounts | reflect/type.go:1267-1277 | The cut-off count of a queued struct is 1 if one unshadowed path leads to it, and 2 if several do |
| FieldLookup.NextAbove | reflect/type.go:1225-1231 | After a level without a match, no embedding path of that depth or less matches, although visited structs were ignored |
| FieldLookup.LevelShrinks | reflect/type.go:1214-1231 | Every level visits a new struct or is the last, so the search ends |
| FieldLookup.FieldByIndex | reflect/type.go:1167-1184 | The loop over an index path computes the field at its end, stepping through pointers to structs |
| FieldLookup.WalkByIndex | reflect/type.go:1172-1182 | FieldByIndex follows the same structs as an embedding path |
| FieldLookup.IndexLeadsBack | reflect/type.go:1252-1256 | The index reported by the search leads FieldByIndex back to the very field found |
| FieldLookup.FieldByName | reflect/type.go:1292-1310 | Agrees with the search rule unless the struct itself declares the name twice: then it reports the first twin while the rule selects nothing; a name declared by the struct itself always gives its first such field |
| FieldLookup.OwnFieldFirst | reflect/type.go:1296-1300 | A field of the struct itself is selected by the rule exactly if it has no twin there |
| FieldLookup.TwinsDisagree | reflect/type.go:1296-1300 | A struct with two blank fields, where the rule selects nothing for "_" and the quick scan reports the first |
| FieldLookup.MatchMeans | reflect/type.go:1236-1258 | A path matches exactly if it leads to a field of a matching name and all fields on the way are embedded structs or embedded pointers to structs |
| FieldLookup.Promotes | reflect/type.go:1237-1242 | Field j of a struct embedded at i, directly or by pointer, matches at [i, j] exactly as by its own name |
| FieldLookup.NotPromotes | reflect/type.go:1237-1265 | No longer path matches through a field that is not embedded, or is of another type |
| FieldLookup.PromotesFurther | reflect/type.go:1260-1281 | The same step from any path through embedded fields to its extension |
| FieldLookup.PointerPromotes | reflect/type.go:1237-1242 | A field of a struct reached by an embedded pointer is selected |
| DebugLogFormat.ZigzagRoundTrip | runtime/debuglog.go:458-466 | Signed numbers and their zig-zag codes determine each other |
| DebugLogFormat.UvarintSize | runtime/debuglog.go:469-479 | No 64-bit number takes more than the ten bytes of the scratch buffer |
| DebugLogFormat.ZigzagSmall | runtime/debuglog.go:458-479 | A signed number takes at most n bytes exactly if its double, of either sign, fits n bytes |
| DebugLogFormat.TimeRoundTrip | runtime/debuglog.go:97-98 | Times kept as differences modulo 2^64 are recovered from the base |
| DebugLogFormat.LogBytesAppend | runtime/debuglog.go:141-153 | Committing a record appends its bytes, encoded against the time base in force |
| DebugLogFormat.AllShown | runtime/debuglog.go:739-749 | Every message of a log is shown if and only if none was logged at tick 2^64-1 |
| DebugLogFormat.ShownUpTo | runtime/debuglog.go:739-749 | A message at tick 2^64-1 hides itself and all that its log holds after it, and nothing before it |
| DebugLogFormat.LastTickHides | runtime/debuglog.go:739-749 | Three messages, the second at that tick: one is shown |
| DebugLog.Writer.Ensure | runtime/debuglog.go:390-403 | Makes room by dropping whole oldest records, none that could have stayed, and throws "record wrapped around" exactly when the uncommitted bytes would fill the ring |
| DebugLog.Writer.SkipOldest | runtime/debuglog.go:391-401 | One record is passed; the kept records remain the newest suffix and the embedded reader keeps the right time base |
| DebugLog.Writer.Bytes | runtime/debuglog.go:446-455 | The bytes follow the pending ones, also around the edge of the ring; the kept records are untouched |
| DebugLog.Writer.PutUvarint | runtime/debuglog.go:469-479 | The pending bytes grow by the variable-length code of the number |
| DebugLog.Writer.WriteFrameAt | runtime/debuglog.go:406-410 | Two bytes of the ring change, and the result says whether the size fits 16 bits |
| DebugLog.Writer.WriteSync | runtime/debuglog.go:413-421 | Commits a record that sets the time base; it never throws |
| DebugLog.Writer.Dlog | runtime/debuglog.go:93-113 | Starts a message, after a new time base if the old one is too far off; it never throws and each time difference takes at most three bytes |
| DebugLog.Writer.End | runtime/debuglog.go:141-153 | Commits the message as logged; "record too large" is unreachable |
| DebugLog.Writer.Commit | runtime/debuglog.go:420 | What is pending becomes the newest kept record |
| DebugLog.Writer.I64 | runtime/debuglog.go:214-221 | Appends a signed value, or throws exactly when it would fill the ring |
| DebugLog.Writer.S | runtime/debuglog.go:289-319 | Appends a constant by its place, or the text cut at the limit with a note of what is missing |
| DebugLog.Writer.TraceBack | runtime/debuglog.go:332-342 | Appends the program counters in order |
| DebugLog.Reader.Skip | runtime/debuglog.go:493-510 | Moves from record boundary to record boundary, taking over time bases, and reports the end exactly when no record is left |
| DebugLog.Reader.ReadUint16LEAt | runtime/debuglog.go:513-516 | Reads back any frame written |
| DebugLog.Reader.ReadUint64LEAt | runtime/debuglog.go:519-529 | Reads back any 64-bit number written |
| DebugLog.Reader.Peek | runtime/debuglog.go:531-569 | Passes sync records and reports the tick of the message in front, or the end |
| DebugLog.Reader.Header | runtime/debuglog.go:571-584 | Recovers absolute tick and nano, processor and extent of the message in front |
| DebugLog.Reader.GetUvarint | runtime/debuglog.go:586-597 | Inverse of the writer's code |
| DebugLog.Reader.GetVarint | runtime/debuglog.go:599-608 | Inverse of the writer's signed code |
| DebugLog.Reader.GetVal | runtime/debuglog.go:610-674 | Recovers the value logged; corrupted lengths and unknown types are unreachable |
| DebugLog.Reader.ReadMessage | runtime/debuglog.go:756-787 | Recovers a whole message and stands at the next record |
| DebugLog.PrintDebugLog | runtime/debuglog.go:720-790 | Prints the messages all rings still hold, always the oldest next, also while a message is being built |
| DebugLog.MergedShowsEach | runtime/debuglog.go:731-749 | Each log comes out whole and in order, up to a message that looks like the end of the log |
| DebugLog.MergedInOrder | runtime/debuglog.go:735-749 | If the ticks of every log are in order, so are the lines printed, and lines of the same tick come in the order of the logs |
| DebugLogRuns.PutArg | runtime/debuglog.go:181-342 | One call of the chain appends the fields of its value, or throws exactly when they would fill the ring |
| DebugLogRuns.Log | runtime/debuglog.go:93-153 | A whole chain from dlog to end commits the message as given, after a sync record if the base is too old, and throws exactly when the message fills the ring by itself |
| DebugLogRuns.LogAll | runtime/debuglog.go:344-356 | Any run of messages is logged in order, up to one that fills the ring by itself, and the messages the ring holds are the newest of all |
| DebugLogRuns.HoldsTheNewest | runtime/debuglog.go:390-403 | Between messages the ring holds a suffix of the log, and no longer one would fit |
| DebugLogRuns.SyncWhenNeeded | runtime/debuglog.go:93-99 | A new time base is written exactly if one of the time differences would take more than three bytes |
| DebugLogRuns.PrintedAsGiven | runtime/debuglog.go:610-676 | What printVal prints for the values of a message is what the caller passed: numbers as decimal, hexadecimal or code places as asked for, texts whole, or their first 2048 bytes and the number of the others |
| Pipe.OnceError.Store | io/pipe.go:20-27 | The first error stored stays |
| Pipe.StepKeeps | io/pipe.go:49-120 | Every step of every reader, writer and closer keeps the pipe invariant |
| Pipe.RunInv | io/pipe.go:49-120 | The invariant holds in every reachable state of every interleaving |
| Pipe.BytesPassThrough | io/pipe.go:56-60 | Bytes of all reads in rendezvous order = consumed parts of all writes in wrMu order, up to the chunk of the one read still to acknowledge |
| Pipe.ReadResult | io/pipe.go:49-64 | A read returns the number of bytes copied, within its room, having met a write exactly if it reports no error |
| Pipe.WriteResult | io/pipe.go:83-103 | A write returns exactly the bytes consumed; a non-empty one is complete if and only if there is no error; success means a read was met |
| Pipe.OneHolder | io/pipe.go:56-59 | At most one read has received and not yet acknowledged |
| Pipe.AckAwaited | io/pipe.go:58 | The write it received from is waiting for just that count, and the count is within its slice |
| Pipe.NoPanic | io/pipe.go:96 | No write slices out of range |
| Pipe.LateCallsFail | io/pipe.go:50-54 | A call that begins after the pipe is closed moves nothing and fails |
| Pipe.WhichError | io/pipe.go:66-72 | A failed call returns the other side's error or, if its own side is closed, ErrClosedPipe; certainly the latter if it was closed before the call |
| Pipe.WhoseError | io/pipe.go:113-117 | In every run the error stored for readers is that of the first CloseWrite to store one, EOF if it was given none, and the error for writers that of the first CloseRead, ErrClosedPipe if it was given none; each is of a call that has passed that point |
| Pipe.ReadersSeeEOF | io/pipe.go:66-72 | While the reading side is not closed and the writing side only without an error, every failed read returns EOF |
| Pipe.WritersSeeTheirError | io/pipe.go:105-111 | While the writing side is not closed, every failed write returns the error of a CloseRead call, ErrClosedPipe if that was given none |
| Pipe.ClosedForGood | io/pipe.go:74-80 | Closing and the stored errors are final |
| Pipe.StuckMeansWaiting | io/pipe.go:92-101 | If nothing can move, calls wait only for the other side, and on a closed pipe nothing waits |
| Pipe.CallsComeToRest | io/pipe.go:92-101 | Without new calls every run ends, within a number of steps fixed by where the calls stand |
| Search.PowerOfPrime | bytes/bytes.go:1078-1084 | The squaring loop computes primeRK to the n modulo 2^32 |
| Search.HashStr | bytes/bytes.go:1073-1086 | Hash and factor of the separator modulo 2^32 |
| Search.HashStrRev | bytes/bytes.go:1089-1102 | The same read from the back |
| Search.SlideRight | bytes/bytes.go:1058-1060 | The rolling hash is the hash of the next window, wrap-around included |
| Search.SlideLeft | bytes/bytes.go:137-139 | The same from right to left |
| Search.IndexRabinKarp | bytes/bytes.go:1037-1067 | The least occurrence, or -1 |
| Search.LastIndex | bytes/bytes.go:102-145 | The greatest occurrence, or -1, for all inputs |
| Search.LastIndexByte | bytes/bytes.go:148-155 | The last place of a byte, or -1 |
| Search.Index | bytes/bytes.go:947-1035 | The least occurrence, or -1, for all inputs and whatever the machine's limits for switching over are |
| Search.NextStart | bytes/bytes.go:1010-1016 | Jumping to the next first byte skips no occurrence |
| Io.ReplyKeeps | io/io.go:41-60 | A reader given little room keeps back the rest of its answer, with its error: no byte is lost or reordered |
| Scanner.Scanner.Scan | bufio/scan.go:107-205 | Each call cuts the next token of the whole input, however it arrives, or reports the end, or a token that a full buffer of the largest size does not show; the panic over empty tokens is unreachable |
| Scanner.Scanner.MakeRoom | bufio/scan.go:158-183 | Sliding and growing keep the data; growing fails exactly on a full buffer of the largest size |
| Scanner.Scanner.Fill | bufio/scan.go:187-203 | Reading changes nothing of what is still to be cut; too many empty reads count as an error |
| Scanner.StreamJoin | bufio/scan.go:187-197 | Data that a reader gives without error comes first in what there is to cut |
| Scanner.StreamEnds | bufio/scan.go:190-193 | An error ends the input after the data that comes with it; without one it ends in EOF |
| Scanner.StreamPauses | bufio/scan.go:198-202 | A hundred empty reads in a row are passed over, one more ends the input with ErrNoProgress |
| Scanner.Scanner.Advance | bufio/scan.go:208-219 | Advances within the data, or fails |
| Scanner.ScanLinesStable | bufio/scan.go:313-327 | ScanLines makes up its mind once: a line found stays found when more data follows |
| Scanner.ScanBytesStable | bufio/scan.go:257-262 | So does ScanBytes |
| Scanner.TokensAreBytes | bufio/scan.go:257-262 | The tokens of ScanBytes are the single bytes, in order |
| Scanner.AllTokens | bufio/scan.go:107-205 | For any stable split function, the tokens are those of the whole input; all of them and the reader's error if every token fits the largest buffer, ErrTooLong only if one does not; with no buffer to be had, ErrTooLong at once |
| Scanner.LargerOfTheTwo | bufio/scan.go:228-230 | The largest buffer is the larger of the two sizes given, if and only if the maximum can be reached before doubling stops for fear of overflow, as every maximum up to 2^62 can |
| Scanner.DoublingStops | bufio/scan.go:165-175 | From a first buffer of 4096 bytes and with the largest int as maximum, the largest buffer has 2^62 bytes |
| Scanner.TokensAreLines | bufio/scan.go:308-327 | The tokens of ScanLines are the lines of the text, cut byte by byte |
| Scanner.DropCRMeans | bufio/scan.go:301-306 | One carriage return at the very end is dropped and nothing else |
| Scanner.LinesOfTwo | bufio/scan.go:308-327 | Two lines separated by a newline, or by a carriage return and a newline, are these two lines |
| Scanner.FittingLines | bufio/scan.go:62-64 | A text fits if and only if each line with its newline does and a last one without newline is shorter, or with slack as long |
| Scanner.AllLines | bufio/scan.go:71-77 | A scanner with the default split function yields the lines of any text, through any reader, initial buffer and maximum, if they fit, and the first ones and ErrTooLong if they do not; a last line of just the largest size, without newline, is left open, as it depends on how the end arrives |
| BufReader.Reader.Fill | bufio/bufio.go:85-115 | Reading ahead changes nothing of what is to come; "tried to fill full buffer" is unreachable |
| BufReader.TapeJoin | bufio/bufio.go:99-112 | Data that the source gives without error comes first in what is to come |
| BufReader.TapeError | bufio/bufio.go:105-109 | An error of the source stands between the data that comes with it and what comes later |
| BufReader.TapePauses | bufio/bufio.go:100-114 | Fewer than a hundred empty reads in a row are passed over; a hundred are the error ErrNoProgress |
| BufReader.Reader.ReadSlice | bufio/bufio.go:334-378 | Data through the delimiter, or up to an error, or a full buffer without either, whatever errors the source has |
| BufReader.Reader.ReadBytes | bufio/bufio.go:431-466 | Exactly the data through the delimiter or up to an error other than ErrBufferFull, for every source, buffer size and chunking |
| BufReader.GatherThrough | bufio/bufio.go:427-430 | That is the data through the delimiter or up to any error, as promised, if and only if that error is not an ErrBufferFull of the source |
| BufReader.GatherDelim | bufio/bufio.go:427-430 | What ReadBytes returns comes without an error if and only if it ends in the delimiter, which occurs nowhere else, for every source |
| BufReader.GatherKeeps | bufio/bufio.go:431-466 | It is the data through the delimiter or up to an error of the stream without its ErrBufferFull errors; nothing else is lost |
| BufReader.ErrorPassedOver | bufio/bufio.go:439-445 | A source that says ErrBufferFull at once: the error is not reported |
| BufReader.Reader.ReadLine | bufio/bufio.go:392-425 | A line without its end or a piece of one; the error is reported if and only if no data came before it; a carriage return at the end of a piece is put back, and "rewind past start" is unreachable |
| BufReader.Reader.ReadWholeLine | bufio/bufio.go:380-425 | Joining pieces gives the stream line minus its end, also when the end straddles buffers, for every source; an error is reported if and only if the last piece is empty |
| BufReader.DropEOLMeans | bufio/bufio.go:417-423 | The end of a line is its newline and a carriage return before that, and nothing else is dropped |
| BufReader.ThroughDelim | bufio/bufio.go:427-430 | There is no error if and only if the data ends in the delimiter, which occurs nowhere else |
| BufReader.ThroughKeeps | bufio/bufio.go:427-430 | Data, error and rest make up the stream: nothing is lost |
| BufWriter.Writer.Flush | bufio/bufio.go:581-603 | With no earlier error and something buffered: if the writer takes what comes next, all of it is delivered and there is no error; if it fails, its error is returned and just the bytes it took are delivered. Otherwise nothing is written. Delivered plus buffered bytes stay the same |
| BufWriter.Writer.Write | bufio/bufio.go:614-636 | Delivered plus buffered grow by exactly the prefix reported; terminates; errors are sticky, and come only from the writer |
| BufWriter.Writer.WriteString | bufio/bufio.go:689-711 | The same without the direct way |
| BufWriter.Writer.WriteByte | bufio/bufio.go:639-650 | The byte is accepted exactly if there is no error, and an error comes only from the writer |
| BufWriter.Run | bufio/bufio.go:541-711 | For any run of calls over any writer within the io.Writer contract: delivered ++ buffered = concatenation of the reported prefixes; the first failure is one of the writer, and after it every call fails with the same error and accepts nothing |
| BufWriter.RunAndFlush | bufio/bufio.go:541-711 | Over a writer that takes everything no call of any run fails, and after a last Flush all data is delivered, in order |
| Buffer.Buffer.Write | bytes/buffer.go:152-170 | Appends to the queue, or panics exactly if the bytes do not fit and the larger slice exceeds what an int or the platform allows; then nothing changes |
| Buffer.Buffer.WriteByte | bytes/buffer.go:239-247 | Appends one byte, or panics under the same condition |
| Buffer.Buffer.Read | bytes/buffer.go:270-286 | Takes from the front of the queue; EOF exactly if it is empty and something was asked for |
| Buffer.Buffer.UnreadByte | bytes/buffer.go:358-367 | Right after a successful read, the last byte read is in front again |
| Buffer.Buffer.Truncate | bytes/buffer.go:73-83 | Keeps a prefix of the queue, or panics |
| Buffer.Buffer.Grow | bytes/buffer.go:106-137 | Keeps the queue, and gains the room, its copying paid for, or panics exactly if that takes too large a slice |
| Buffer.Buffer.Rebuild | bytes/buffer.go:120-136 | Sliding copies just what is held, fewer bytes than were read since; moving, just what is held, no more than the old capacity; panics as Grow does |
| Buffer.Buffer.AtMostFiveTimes | bytes/buffer.go:106-137 | Over any run, fewer than 4 bytes per byte written are copied to new slices and at most 1 within a slice |
| Buffer.Do | bytes/buffer.go:73-367 | Each operation does on the buffer what it does on a queue of bytes that remembers the last byte read, or panics under its exact condition |
| Buffer.Run | bytes/buffer.go:73-367 | Any run of operations yields the bytes and the queue it should, up to one that panics, and copies at most five bytes for each byte written |
| Buffer.FirstInFirstOut | bytes/buffer.go:152-286 | In any run of writes and reads, bytes read and bytes held are the bytes written, in order |
| Buffer.TakenAndBack | bytes/buffer.go:270-367 | A read takes all there is room for, from the front, and its last byte can be put back, once |
| Buffer.NothingBack | bytes/buffer.go:354-367 | After any other operation, or a read that got nothing, nothing can be put back; a cut keeps just the front |
| Buffer.RoomToWrite | bytes/buffer.go:95-137 | A write panics exactly if it does not fit behind the data, is not a small first one, would not leave half the capacity free by sliding, and doubling exceeds what an int or the platform allows |
| FormatInteger.Formatter.FmtInteger | fmt/format.go:191-330 | Appends exactly the padded text of the number, and the index never leaves the buffer |
| FormatInteger.OutputSides | fmt/format.go:87-102 | Spaces fill the width on the left, with the minus flag on the right, and without a width there are none |
| FormatInteger.TextOrder | fmt/format.go:285-323 | Sign, prefix and figures in this order; a minus exactly for negative numbers, else plus before space as the flags ask |
| FormatInteger.PrefixMeans | fmt/format.go:285-312 | 0o for %O; with # 0b in base 2, 0x or 0X in base 16, and in base 8 a leading 0 of the figures |
| FormatInteger.FiguresPlain | fmt/format.go:230-298 | All figures are digits of the case asked for, and there is no leading zero but for precision, width or # in base 8 |
| FormatInteger.OctalFigures | fmt/format.go:294-298 | In base 8, # adds one 0, but none where the figures begin with 0 anyway |
| FormatInteger.ZerosFillTheWidth | fmt/format.go:221-226 | With the zero flag and no precision, zeros fill the width exactly, the sign counted |
| FormatInteger.FortyTwo | fmt/format.go:191-330 | The number 42 in a width of five, with and without the minus flag |
| FormatInteger.TextDenotes | fmt/format.go:191-330 | The figures denote the magnitude, there are at least as many as asked for, the sign is that of the number, and the output fills the width |
| FormatInteger.DigitsDenote | fmt/format.go:230-279 | The digits read back in their base are the number |
| FormatInteger.TextFits | fmt/format.go:197-206 | The text with sign and prefixes fits a buffer of max(68, 3+wid+prec) bytes |
| FormatInteger.NoByteToSpare | fmt/format.go:200-205 | For any precision from 68 on there is a text that fills the buffer completely |
| FormatInteger.SixtyFourBits | fmt/format.go:47 | At most 64, 22, 20 and 16 digits in base 2, 8, 10 and 16 |
| FormatInteger.Formatter.PutDigits | fmt/format.go:230-279 | The digits stand at the end of the buffer |
| FormatInteger.Formatter.PutZeros | fmt/format.go:280-283 | Zeros fill up to the precision |
| FormatInteger.Formatter.PutPrefix | fmt/format.go:286-312 | The prefix of #, and of %O, stands before the figures |
| FormatInteger.Formatter.Pad | fmt/format.go:87-102 | Spaces fill the width on the side asked for |
| FormatInteger.Formatter.WritePadding | fmt/format.go:61-84 | n zeros or spaces are appended |
| TypeBits.BitVector.AddTypeBits | reflect/type.go:2981-3017 | Bits up to the last pointer of the type, bit k set if and only if word k holds a pointer; earlier bits are kept |
| TypeBits.BitVector.Append | reflect/type.go:2973-2979 | One bit more, all others kept |
| TypeBits.TypeMask | reflect/type.go:2629-2636 | The bitmap of a type: its length is the pointer data, its bits the words with pointers |
| TypeBits.EmitGCMask | reflect/type.go:2144-2159 | Sets exactly the bits of the words with pointers of n elements in a row |
| TypeBits.ArrayMask | reflect/type.go:2770-2788 | The branches of ArrayOf for arrays without pointers, of one element and of small size make the bitmap of the array |
| TypeBits.BothMasks | reflect/type.go:2782-2788 | For all these arrays, the mask made from the element's and the one made by recursion are the same bytes |
| TypeBits.OneBitmap | reflect/type.go:2981-3017 | A type has only one bitmap |
| TypeBits.PointersWithin | reflect/type.go:2692-2710 | No word with a pointer lies beyond ptrdata |
| TypeBits.LastPointer | reflect/type.go:2692-2710 | ptrdata ends with a pointer, so it is tight |
| TypeBits.WholeWords | reflect/type.go:2761-2764 | A type with pointers is word aligned, of whole words, and so is its ptrdata |
| TypeBits.WordsOfTypes | reflect/type.go:2986-3000 | An interface is two pointers, a string a pointer and a number, a slice a pointer and two numbers, and the other pointer types one pointer |
| TypeBits.ArrayAsStruct | reflect/type.go:3002-3016 | An array has its pointers where a struct with its elements as fields has them |
| StructLayout.LayOut | reflect/type.go:2465-2490 | The offset loop places each field at the least aligned offset after the one before, and pads a trailing field without size |
| StructLayout.NoFieldsNoAlign | reflect/type.go:2466-2468 | The loop leaves the alignment at 0 only without fields; otherwise it is a power of two |
| StructLayout.LaidInOrder | reflect/type.go:2465-2490 | With fields, they come out in order, aligned and apart, within a size that is a multiple of the alignment |
| StructLayout.LaidTight | reflect/type.go:2465-2486 | No padding but what alignment asks for: each field begins less than its alignment beyond the end of the one before, and the struct ends less than its own beyond its last field, with one byte more if a field without size ends there |
| StructLayout.NothingAtTheEnd | reflect/type.go:2479-2486 | No field without size is left at the very end of a struct with a size |
| StructLayout.StructTypeWellFormed | reflect/type.go:2465-2490 | Whatever the fields, the type is well formed and its alignment is never 0 |
| StructLayout.StructOf | reflect/type.go:2531-2577 | With the lookup among known types, the type returned is the one the program has for these fields; for no fields that is struct{}, which StructOf itself links in |
| ArgFrames.RoundingsAgree | reflect/value.go:418 | The two rounding formulas agree on all words, also where they wrap, and give the next multiple |
| ArgFrames.MultipleLeast | reflect/value.go:639-648 | That is the least multiple no less than the offset, unless it wraps |
| ArgFrames.FuncLayout | reflect/type.go:2902-2926 | Offsets of arguments and results, argSize, retOffset and size as in the one layout |
| ArgFrames.PlacesTight | reflect/type.go:2913-2925 | Each value begins at the next multiple of its alignment after the one before, with nothing else between |
| ArgFrames.FrameTight | reflect/type.go:2903-2926 | A receiver takes the first word, argSize is where the arguments end, results begin at the next whole word, and the frame ends at the next one after them |
| ArgFrames.CallOffsets | reflect/value.go:407-475 | Value.call uses the same offsets |
| ArgFrames.ReflectOffsets | reflect/value.go:497-566 | callReflect uses the same offsets |
| ArgFrames.ReceiverShifts | reflect/type.go:2904-2912 | With a receiver the whole frame is the frame without one, shifted by one word |
| ArgFrames.CallMethod | reflect/value.go:662-697 | The method is given receiver and arguments, its results come back, and the caller's arguments are untouched |
| ArgFrames.EachInPlace | reflect/value.go:671-697 | So each argument is found at its place in the method's frame, and each result in the caller's |
| FrameBits.FrameMap | reflect/type.go:2901-2936 | The bitmap of an argument frame has bit k set if and only if word k is a pointer of the receiver, an argument or a result at the offsets of the layout, and it does not reach beyond the frame |
| FrameBits.MapShifts | reflect/type.go:2904-2912 | With a receiver, the map of arguments and results is the map without one, one bit further on |
| TypeHash.TypeHash | runtime/alg.go:163-229 | Computes the hash of every value, with the random numbers drawn for NaNs; None is the panic over an unhashable type |
| TypeHash.StructHash | runtime/alg.go:198-223 | The struct loop hashes the planned items in order |
| TypeHash.CoversTheFields | runtime/alg.go:202-222 | The memory hashed of a struct is exactly that of its regular fields that are not blank |
| TypeHash.OwnFields | runtime/alg.go:211-214 | The fields hashed on their own are exactly the other ones that are not blank |
| TypeHash.ItemsInOrder | runtime/alg.go:202-222 | The items of a struct are hashed in the order of memory |
| TypeHash.PlainHash | runtime/alg.go:164-185 | Regular memory is hashed as its bytes, four and eight of them by their own routines, a string as its text |
| TypeHash.ComplexAsArray | runtime/alg.go:105-113 | A complex number is hashed as the array of its real and its imaginary part |
| TypeHash.ArraySplits | runtime/alg.go:192-197 | The hash of an array is that of its first elements, continued with the others, for every split |
| TypeHash.ArrayOfOne | runtime/alg.go:192-197 | An array of one element is hashed as the element, an empty one leaves the seed |
| TypeHash.InterfaceHash | runtime/alg.go:115-151 | A nil interface leaves the seed; one that holds an uncomparable type panics; any other is hashed as what it holds, mixed before and after |
| TypeHash.OnePiece | runtime/alg.go:198-223 | A struct of one regular field is hashed as its bytes in one piece |
| TypeHash.OneField | runtime/alg.go:211-214 | A struct of one field that is not regular is hashed as that field |
| TypeHash.FloatPatterns | runtime/alg.go:81-103 | Zero and NaN are the bit patterns of IEEE 754, the sign left aside |
| TypeHash.FloatsByBits | runtime/alg.go:81-103 | Zeros of both signs have one hash, a NaN draws a random number for its own, and other floats are hashed as their bytes |
| TypeHash.ComplexEqual | runtime/alg.go:260-265 | Complex numbers are equal exactly if both parts are |
| TypeHash.ArrayEqual | reflect/type.go:2826-2836 | Arrays are equal exactly if all their elements are |
| TypeHash.StructEqual | runtime/alg.go:202-222 | Structs are equal, as the language has it, exactly if all fields but the blank ones are, which the hash skips too |
| TypeHash.InterfaceEqual | runtime/alg.go:269-309 | Interfaces are equal if both are nil or hold equal values of one type; two values of one uncomparable type panic |
| TypeHash.PlainEqual | runtime/alg.go:236-268 | Regular memory is equal exactly if its bytes are, strings if their texts are, floats as numbers |
| TypeHash.FloatsAgree | runtime/alg.go:254-265 | Equal floats, zeros of both signs among them, have equal hashes, and no random number is drawn for them |
| TypeHash.EqualHashEqual | runtime/alg.go:163-310 | Equal values of any type, through interfaces too, hash equal for every seed, without a panic and without drawing a random number |

## Left out

- Channels: multi-channel `select` beyond waiters that a queue must skip, nil channels, race-detector branches, blocking profiles and garbage-collector barriers. Goroutines are numbers, and making one ready is recorded, not scheduled.
- Channels: the interleavings are proved for plain goroutines; stale select waiters are part of WaitQueue only.
- DeepEqual: values are a finite heap of typed cells; the conversion between interfaces and reflected values is not modelled. Keys of a map that are not equal to themselves are never found again, as in the code.
- FieldLookup.FieldByIndex: the panics of Field, on a type that is not a struct and on an index out of range, are the result None.
- Debug log: positions in the log are unbounded numbers, so wrap-around after 2^64 bytes written is not modelled; the pool of loggers, clocks, and the digits and headings of the printed text are not either; what printVal prints is a list of tokens. Ticks, times and processors are inputs.
- Debug log: `p` takes the pointer as a number; its throw on other types is not modelled.
- Pipe: mutexes, channels and `sync.Once` are atomic steps; memory aliasing between a write's slice and the chunk on offer is not modelled, since nobody changes it while it is on offer.
- Search.MachineIndex, Search.IndexByte: stand for machine-code routines of bytealg, taken at their specification.
- Search: Count, genSplit, Join, Replace and everything that decodes UTF-8 would add easier members only.
- Scanner: buffers that grow are taken to be allocated. Split functions that return errors, ErrFinalToken or a token without advancing, or skip data without a token, ScanRunes and ScanWords; tokens are values, so that a later call overwriting the buffer behind a token is not captured.
- BufReader: Peek, Discard, Read, UnreadByte and delegation to io.WriterTo.
- BufWriter: ReadFrom, WriteRune and Reset. The underlying writer obeys the io.Writer contract; one that takes nothing and reports no error would keep Write in its loop for ever.
- Buffer: a platform's largest allocation is a parameter; one below it that fails for lack of memory ends the program and is not modelled, nor is the first small slice ever refused. Grow as called by users, ReadFrom, WriteTo, runes and delimited reads; Go's slice of a shared array is an array with a length.
- FormatInteger.Formatter.Pad: takes text of one byte a character, which all that fmtInteger writes is; other formats and floating point are left out.
- FormatInteger: the four digit loops, one for each base, are one loop here.
- StructLayout: the fields StructOf is given have types of this program, so their alignments are powers of two up to 8; names, tags, methods and embedding do not matter to the layout, and the search among types of the same name is over a list. Sizes do not wrap.
- TypeBits: garbage-collection programs for large arrays, type caches and names. A byte of a bitmap is its eight bits; the length of a bit vector does not wrap at 2^32.
- TypeBits, ArgFrames: words have 8 bytes. For a power of two, masks are written as remainders.
- ArgFrames.CallMethod: demands, as FrameBits.FrameMap does, that no offset wraps around, which holds of every frame that exists in memory. The called method is a function from its arguments to its results; panics in it and stack growth are not modelled.
- TypeHash: memhash, memhash32, memhash64 and strhash are machine code and therefore parameters, and so are the numbers fastrand gives, which are drawn in the order of the calls; two types are the same if and only if they are the same pointer, and interface tables are the same if their dynamic types are. That the compiler generates the same hash functions is not part of this model. Blank fields do not count for equality; a struct made by StructOf compares them as well (`reflect/type.go:2639-2648`), which leaves fewer values equal.
