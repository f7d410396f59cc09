# phptrace in Dafny

phptrace traces a running PHP process. A PHP extension hooks every function call and, when a bit in a shared
control file is on, connects to the `phptrace` command-line tool over a Unix stream socket and sends it frames,
requests and status records. This project models the parts whose correctness only shows over whole runs, and
proves what they keep.

| files | part |
|---|---|
| `Basics.dfy` | bytes, options, histories, substring search |
| `Executor.dfy`, `Hooks.dfy` | the extension's request and call hooks: as functions on one state value, and as a class that updates the module globals and the time table in place |
| `ExclusiveTime.dfy` | the flat exclusive-time table against the call tree |
| `Session.dfy` | sockets, the control bit and the session filter over every run |
| `Nesting.dfy` | the stream of ENTRY and EXIT messages |
| `Commands.dfy` | what the tool's commands do to the extension, and what becomes of a lost connection |
| `Transcript.dfy` | what the tool hears: the times sent, and whole requests message by message |
| `Quoting.dfy`, `ArgSplitter.dfy` | quoted string representations and the argument splitter |
| `SdsSpec.dfy`, `SdsString.dfy`, `Splitting.dfy` | the SDS dynamic string, its growth policy, split and join |
| `Wire.dfy`, `Codec.dfy`, `Packing.dfy` | the packed records |
| `Framing.dfy`, `Comm.dfy` | messages on the stream and the buffer shared by both directions |
| `Delivery.dfy` | records on their whole way from extension to tool |
| `Multiplexer.dfy`, `Cli.dfy` | the command-line tool's select loop |

Code that changes state in place is a class or a method whose contract equates the new state with a function of
the old one; the lemmas are about that function.

## The environment

- Every outside influence is an argument: what other processes wrote to the control bit before each read, the
  result of each connection attempt, the messages each receive loop finds, clock readings, where a call bails
  out, how `recv` cuts the stream, which clients `select` reports. The theorems hold for all of them.
- Allocation succeeds and `send` delivers all bytes. Integers are stored in the order of the host, lowest byte first.
- `isprint` is any predicate that rejects NUL; `isspace` is that of the C locale.
- `accept` returns a descriptor that is not open and lies above the listening one.
- The clock is monotone only where a lemma asks for it (`Clock`).
- Clock readings, table slots and counters are unbounded integers; the packed fields have their widths.
- A filter type is four bits; a NULL filter content is the empty string.
- A bailout leaves every enclosing call up to the engine invocation it happens in, and later invocations of the
  same request still run.

## Findings

- Exclusive times are wrong when a traced frame has an untraced parent, which a function or class filter, or
  attaching in the middle of a call, brings about: `NameFilterReportsNegative` has -90 for a call that took 10.
  `ExactIffSlotWasZero`, `ExactIffNothingPending` and `FilteredExactIff` say exactly when times are right.
- Of a filter with more than 11 bytes of content only the first 11 reach the extension, because the message is
  declared as large as the filter record and not as large as its packed form. The extension reads the rest from
  whatever its buffer held before, so the filter is right only if those bytes happen to match (`FilterAsRead`).
- A message reaches the receiver only if its header arrives in one piece, its body is at most 1 MiB and ten
  further pieces carry it (`DeliveredIff`); otherwise the connection is given up, but nothing wrong is delivered.
- The comment on `sdssplitlen` says that an empty string yields NULL; the code yields zero tokens, and the model
  follows the code. `sdsIncrLen` asserts only the upper bound of its argument.

## Model

| member | source | states |
|---|---|---|
| Executor.Run | extension/trace.c:1252-1396 | the nesting level is restored after every call, however it ends, and the time table keeps its size |
| Executor.HandleCommand | extension/trace.c:1156-1213 | connection handling never touches the nesting level, the times or the table |
| Hooks.Tracer.constructor | extension/trace.c:201-285 | module start-up gives the initial state, with a zero table of 4096 slots |
| Hooks.Tracer.HandleError | extension/trace.c:1126-1154 | retry once while the bit is on; otherwise flag, bit, socket and filter are all reset |
| Hooks.Tracer.HandleCommand | extension/trace.c:1156-1213 | connect if needed, then obey every message until there are no more or an error |
| Hooks.Tracer.FilterFrame | extension/trace.c:602-628 | the flags captured are the global ones exactly when the filter lets the function through |
| Hooks.Tracer.EnterCore | extension/trace.c:1252-1304 | control check, captured flags, level and ENTRY message at a call's entry |
| Hooks.Tracer.LeaveCore | extension/trace.c:1347-1391 | table update, exclusive time, EXIT message and level at a call's end |
| Hooks.Tracer.ExecuteCore | extension/trace.c:1221-1396 | the re-entrant hook, with all nested calls and bailouts, computes Run in place and restores the level |
| Hooks.Tracer.RequestInit | extension/trace.c:325-367 | the request start, with the URL filter deciding the tool flag |
| Hooks.Tracer.RequestShutdown | extension/trace.c:369-388 | the request's EXIT message |
| Hooks.Tracer.Request | extension/trace.c:325-388 | a whole request as the engine drives the hooks |
| ExclusiveTime.RunReplays | extension/trace.c:1347-1355 | of a run, table and times depend only on the calls that happened and on which of them were traced |
| ExclusiveTime.SlotsBelow | extension/trace.c:1351-1355 | calls at a level leave the slots below alone and add their traced inclusive times to their own slot |
| ExclusiveTime.ExactIffSlotWasZero | extension/trace.c:1351-1355 | for every table and tracing pattern, a frame's exclusive time misses the tree's by what the slot below held at its entry, so it is exact exactly when that was zero; level 4094 gets its inclusive time, deeper frames 0 |
| ExclusiveTime.TableMeaning | extension/trace.c:1259-1355 | over all requests, slot L is the sum of inclusive times of traced exits at L since the last one at L-1, and every exclusive time follows from that history |
| ExclusiveTime.TableMeaningFromStart | extension/trace.c:265-271 | this holds from module start-up |
| ExclusiveTime.NothingLost | extension/trace.c:1351-1355 | whatever is traced, the table gains exactly what is reported as exclusive time |
| ExclusiveTime.TotalIsInTable | extension/trace.c:1347-1355 | over any number of requests, all exclusive times ever reported add up to the change of the table's sum |
| ExclusiveTime.TableRefinesTree | extension/trace.c:1347-1355 | with parent-closed tracing the flat table yields exactly inclusive minus traced direct children, at every depth, and leaves the slots zero |
| ExclusiveTime.RunConservesTime | extension/trace.c:1271-1391 | then, over a run with any bailouts, exclusive times add up exactly to the inclusive times of the outermost traced calls |
| ExclusiveTime.ExactIffNothingPending | extension/trace.c:1347-1355 | for every tracing pattern and every clock, all times are exact if and only if no traced frame begins while the frames that ended one level below, since one last ended at its own level, add up to some time |
| ExclusiveTime.RunExactIffNothingPending | extension/trace.c:1264-1355 | the same of every run of calls, with any bailouts and flag changes |
| ExclusiveTime.ExactIffNothingLeftover | extension/trace.c:1347-1355 | where no frame ends before it began, zero-time frames included, this can be told from which frames are traced and which took time |
| ExclusiveTime.RunExactIffNothingLeftover | extension/trace.c:1264-1355 | the same of every run of calls |
| ExclusiveTime.RunTimesSane | extension/trace.c:1303-1355 | with a monotone clock no exclusive time is negative and none exceeds its inclusive time |
| ExclusiveTime.SwitchingOffStaysClosed | extension/trace.c:1259-1269 | tracing that is only switched off, even in mid-recursion, stays parent-closed because the flags are captured at entry |
| ExclusiveTime.CalmRunIsExact | extension/trace.c:1259-1355 | so such runs report exactly the tree's times and lose none |
| ExclusiveTime.UndisturbedRun | extension/trace.c:602-628 | while the tool says nothing, exactly the calls that pass the filter are traced, and bailouts cut off exactly the calls behind them |
| ExclusiveTime.NameFilterSkewsTimes | extension/trace.c:1347-1355 | a name filter makes a call of 10 units report an exclusive time of -90 |
| ExclusiveTime.NameFilterReportsNegative | extension/trace.c:1184-1355 | from module start-up one request under a name filter reports that -90 |
| ExclusiveTime.FilteredExactIff | extension/trace.c:602-628 | in such a session the times are exact if and only if nothing is pending when a call that passes begins, a condition on the inputs alone, for any bailouts and any clock |
| ExclusiveTime.FilteredPatternExactIff | extension/trace.c:602-628 | where no call ends before it began, only which calls pass and which took time matters |
| Session.ServeAllGood | extension/trace.c:325-388 | the connection and session invariant holds over any number of requests and any environment |
| Session.ErrorGood | extension/trace.c:1126-1154 | an error exit, retry included, keeps it |
| Session.ReceiveGood | extension/trace.c:1176-1211 | every message, in any order, keeps it |
| Session.RunGood | extension/trace.c:1252-1396 | every run of calls keeps it, with any nesting and any bailout |
| Session.WithinGood | extension/trace.c:1252-1396 | the invariant holds at every beginning and end of a hook in every run |
| Session.NoSocketNoTrace | extension/trace.c:1126-1154 | at every hook of every run, without a socket the tool flag is off and the filter empty |
| Session.ToolFlagMeansFilter | src/trace.c:104-123 | at every hook of a session with filter F the tool flag is on only while F is in force and, for a URL filter, only in matching requests |
| Session.SendsNeedASocket | extension/trace.c:1296-1298 | no frame, request or status is ever sent without an open socket |
| Session.ClearedBitSilences | extension/trace.c:1253-1257 | once a function entry finds the bit off and it stays off, nothing more is sent, pending exits included |
| Session.SessionObeysFilter | src/trace.c:104-123 | in a session with filter F, reconnections included, every frame sent passes F, and under a URL filter every message belongs to a request whose URI contains its content |
| Nesting.RunNests | extension/trace.c:1264-1396 | each EXIT follows its own ENTRY at the same level, last in first out, and if the connection is never given up the messages of the calls form a balanced word |
| Nesting.AllRunsNest | extension/trace.c:1264-1396 | over any number of requests no EXIT is sent without its own open ENTRY |
| Nesting.StreamNestsFromStart | extension/trace.c:201-220 | this holds from module start-up |
| Commands.InboxObeyed | extension/trace.c:1176-1211 | every inbox is received in order, and afterwards the tool flag is on if and only if it was on or the inbox has a DO_TRACE |
| Commands.LastFilterWins | extension/trace.c:1195-1199 | after an inbox the filter of its last DO_FILTER is in force |
| Commands.EveryStatusAnswered | extension/trace.c:1201-1207 | over every run the status messages sent are as many as the DO_STATUS received, each directly behind its own |
| Commands.RetryIff | extension/trace.c:1126-1154 | after an error the session goes on, on the new socket, if and only if there was a socket, the bit is on and the one retry succeeds; otherwise all is cut |
| Commands.CheckConnects | extension/trace.c:1156-1213 | a function entry that finds the bit on connects if need be and obeys the whole inbox; a broken connection is retried or cut |
| Commands.CheckCuts | extension/trace.c:1252-1257 | a function entry that finds the bit off, or cannot connect, leaves everything cut |
| Commands.RequestConnects | extension/trace.c:341-352 | so does a request start, which however leaves an open connection alone when the bit is off |
| Commands.ScriptStartsSession | src/trace.c:104-123 | a process that received what the tool sends has the tool's filter in force, and its tool flag is on exactly if the filter is not by URL |
| Commands.FilterMeaning | extension/trace.c:602-628 | a function or class filter lets through exactly the functions whose name or class's name contains the content; the other kinds let all through |
| Transcript.SentTimesAreReal | extension/trace.c:1347-1377 | over every run the EXIT frames sent carry, in order, inclusive and exclusive times of traced calls, and with output off and no drop they carry all of them |
| Transcript.RunHeard | extension/trace.c:1259-1377 | the exact messages of an undisturbed run of calls, with any bailouts: ENTRY and EXIT of each call that passes, with level, function and times told without the table |
| Transcript.RunUnheard | extension/trace.c:1296-1374 | while the tool flag is off an undisturbed run sends nothing |
| Transcript.RequestStarts | extension/trace.c:338-362 | with a URL filter in force the tool flag after a request's start is on if and only if the request's URI contains the content, and the ENTRY request is sent if and only if the flag is on |
| Transcript.RequestHeard | extension/trace.c:325-388 | under a URL filter the tool hears the whole of an undisturbed request, ENTRY first, EXIT last and the frames between under its URI, if the URI contains the content, and nothing otherwise |
| Transcript.HeardTimesExactIff | extension/trace.c:1347-1377 | the times the tool receives are the durations and exclusive times of the calls that pass if and only if nothing is pending when one of them begins |
| Quoting.ScannerAccepts | deps/sds/sds.c:608-735 | every line of the grammar is split into its values |
| Quoting.ScannerReads | deps/sds/sds.c:608-735 | every line that is split is a line of the grammar with these values |
| Quoting.SplitIffInGrammar | deps/sds/sds.c:608-735 | a line is split into given arguments if and only if the grammar gives it those |
| Quoting.DoubleFailsIffBroken | deps/sds/sds.c:644-678 | a double-quoted part fails if and only if it is not closed or its closing quote is followed by a non-space |
| Quoting.SingleFailsIffBroken | deps/sds/sds.c:679-693 | the same for single quotes |
| Quoting.SplitFailsIff | deps/sds/sds.c:608-735 | a line is rejected if and only if the scanner opens a quoted part in it that is not closed or whose closing quote is followed by a non-space |
| Quoting.SplitFailsAtQuote | deps/sds/sds.c:668-692 | the position of such a quoted part in a rejected line |
| Quoting.QuoteFailsSplit | deps/sds/sds.c:668-692 | any such quoted part rejects its line, whatever follows |
| Quoting.QuoteRoundTrip | deps/sds/sds.c:552-735 | for every list of byte strings, quoting, joining with spaces and splitting gives the list back |
| Quoting.QuoteInGrammar | deps/sds/sds.c:552-575 | the printer's output is a quoted part of the grammar with the original value |
| Quoting.EscapeBounds | deps/sds/sds.c:546-575 | the quoted form is free of NULs and at most four times as long |
| Quoting.QuotePrints | deps/sds/sds.c:552-575 | where control bytes do not print and those of escapes do, every byte of the quoted form prints |
| Quoting.QuoteIsShortest | deps/sds/sds.c:552-575 | no quoted text of the grammar with the same value that prints is shorter |
| Quoting.EscapeTable | deps/sds/sds.c:557-569 | the letters of the escapes, the white space, the word ends and the hexadecimal digits, byte by byte |
| Quoting.ReprReadsBack | extension/trace.c:1080-1086 | the representation cut at a limit decodes to the prefix, carries "..." exactly when cut, and has at most 4*limit+5 bytes |
| ArgSplitter.Token | deps/sds/sds.c:636-716 | the three-mode inner loop reads one word, never looking beyond the terminator |
| ArgSplitter.SplitArgs | deps/sds/sds.c:627-735 | the splitter terminates on every line, agrees with the recursive grammar and reports zero arguments on failure |
| SdsSpec.AmortisedGrowth | deps/sds/sds.c:129-147 | below the preallocation limit, all reallocations of any appends move at most twice the length |
| SdsSpec.WasteBound | deps/sds/sds.c:129-147 | an append that fits moves nothing; one that does not moves the string once and leaves exactly min(length, 1 MiB) free |
| SdsSpec.TrimIsMiddle | deps/sds/sds.c:341-369 | trimming yields the unique maximal middle segment, NUL counting as trimmable |
| SdsSpec.RangeKeepsInclusive | deps/sds/sds.c:371-415 | a range is the contiguous part at exactly the positions between its inclusive ends, negative ones counted from the end of the string, an end before the beginning keeping the first byte |
| SdsString.Sds.constructor | deps/sds/sds.c:51-66 | a new string holds its bytes, with no room to spare |
| SdsString.Sds.MakeRoomFor | deps/sds/sds.c:129-147 | room is made by the growth policy, contents unchanged |
| SdsString.Sds.CatLen | deps/sds/sds.c:237-249 | the bytes follow the old contents, the terminator follows them, and length, free room and bytes moved obey the growth policy |
| SdsString.Sds.CpyLen | deps/sds/sds.c:269-284 | the contents become the given bytes and the capacity never shrinks |
| SdsString.Sds.GrowTo | deps/sds/sds.c:215-230 | a longer length appends zeros and nothing else, a shorter one changes nothing |
| SdsString.Sds.Clear | deps/sds/sds.c:116-121 | the string is empty and its capacity is unchanged |
| SdsString.Sds.IncrLen | deps/sds/sds.c:200-208 | the new contents are the bytes already in the buffer, the capacity is unchanged and a terminator is set, even if the old one was overwritten |
| SdsString.Sds.TrimChars | deps/sds/sds.c:355-369 | the contents become the maximal middle segment, moved to the front, with the capacity unchanged |
| SdsString.Sds.RangeInPlace | deps/sds/sds.c:387-415 | the contents become the inclusive range, moved to the front, for all signed indices |
| SdsString.Sds.CatAll | deps/sds/sds.c:237-249 | any number of appends follow the growth policy, and from a string without spare room that stays below the limit move at most twice its length in all |
| SdsString.Sds.CatRepr | deps/sds/sds.c:552-575 | the quoted form, which splits back to the bytes (QuoteRoundTrip) and is the shortest that prints (QuoteIsShortest), follows the old contents |
| SdsString.Sds.DoAll | deps/sds/sds.c:116-415 | any sequence of operations keeps length plus free equal to the capacity and the terminator in place, and agrees with a plain byte sequence |
| Splitting.SplitThenJoin | deps/sds/sds.c:470-517 | joining the tokens of any string restores it |
| Splitting.SplitIsFree | deps/sds/sds.c:470-517 | no token contains the separator |
| Splitting.JoinThenSplit | deps/sds/sds.c:470-517 | for every separator, splitting the join of tokens gives them back if and only if they do not run into the separators between them and are not the single empty token |
| Splitting.JoinThenSplitByByte | deps/sds/sds.c:774-783 | for a one-byte separator that is: no token contains the byte, and they are not the single empty token |
| Splitting.LongSeparatorRunsIn | deps/sds/sds.c:483-501 | tokens without a longer separator may still run into it: "a" and "b" joined by "aa" |
| Splitting.SplitLen | deps/sds/sds.c:470-517 | the loop computes the leftmost split; no result for an empty separator |
| Splitting.JoinSds | deps/sds/sds.c:774-783 | the loop computes the join |
| Wire.IntRoundTrip | common/trace_type.h:44-48 | an integer within its width is read back and exactly its bytes are consumed |
| Wire.IntLayout | common/trace_type.h:44-48 | byte i of an integer is its i-th lowest |
| Wire.TextRoundTrip | common/trace_type.h:55-75 | so is a string, an empty one coming back NULL |
| Codec.FrameRoundTrip | common/trace_type.c:69-127 | unpacking a packed frame, whatever follows, yields it with empty strings NULL and stops at its end |
| Codec.FrameLenExact | common/trace_type.c:42-67 | the length function predicts the packed size |
| Codec.FramePrefixFree | common/trace_type.c:69-127 | packed frames are prefix-free up to empty strings |
| Codec.FrameLayout | common/trace_type.c:69-94 | the fields of a packed frame, one behind the other in this order |
| Codec.RequestRoundTrip | common/trace_type.c:250-298 | the same round trip for requests, whose strings end at their first NUL |
| Codec.RequestPrefixFree | common/trace_type.c:250-298 | packed requests are prefix-free up to NULs and empty strings |
| Codec.RequestLayout | common/trace_type.c:250-271 | the same for a request |
| Codec.StatusRoundTrip | common/trace_type.c:360-435 | the same for status records with nested request and frames, and the predicted size |
| Codec.StatusPrefixFree | common/trace_type.c:382-435 | packed status records are prefix-free |
| Codec.StatusLayout | common/trace_type.c:382-405 | the same for a status record |
| Codec.FilterRoundTrip | common/trace_filter.c:45-60 | the same round trip for filters |
| Codec.FilterAsRead | common/trace_filter.c:53-60 | of a filter sent in the declared 16 bytes the first 11 bytes of content arrive and the rest is read from stale buffer bytes, so a longer filter arrives if and only if those happen to match |
| Packing.LenFrame | common/trace_type.c:42-67 | the loop computes the packed size of a frame |
| Packing.LenRequest | common/trace_type.c:228-248 | the loop predicts the packed size of a request, its strings measured up to their first NUL |
| Packing.LenStatus | common/trace_type.c:360-380 | the loop predicts the packed size of a status record with all its frames |
| Packing.PackFrame | common/trace_type.c:69-94 | exactly the packed bytes are written at the cursor and nothing beyond |
| Packing.PackRequest | common/trace_type.c:250-271 | the same for a request |
| Packing.PackStatus | common/trace_type.c:382-405 | the same for a status record, as many bytes as predicted |
| Packing.UnpackFrame | common/trace_type.c:96-127 | the cursor walk reads the frame at the cursor and ends behind it |
| Packing.UnpackRequest | common/trace_type.c:273-298 | the same for a request |
| Packing.UnpackStatus | common/trace_type.c:407-435 | the same for a status record |
| Packing.PackFilter | common/trace_filter.c:45-51 | exactly the packed filter is written at the cursor and nothing beyond |
| Packing.UnpackFilter | common/trace_filter.c:53-60 | the filter at the cursor is read and the cursor ends behind it |
| Framing.ReceiveExact | common/trace_comm.c:129-190 | for every chunking, a message returned is the first one sent and exactly its header and body are consumed; EMPTY consumes nothing |
| Framing.ListenExact | common/trace_comm.c:129-190 | for every chunking and failure the messages received are exactly the first ones sent, as many as get through: none lost, merged or split |
| Framing.ListenGetsAll | common/trace_comm.c:129-190 | if every message gets through, all are received in order |
| Framing.DeliveredIff | common/trace_comm.c:141-186 | a message is received if and only if its header comes in one piece, its body is at most 1 MiB and ten pieces carry it |
| Framing.FailureCode | common/trace_comm.c:141-186 | the code returned for every message that does not get through, by what went wrong first |
| Framing.CutShort | common/trace_comm.c:141-186 | a message whose sender went away in the middle of it is never received |
| Framing.HeaderLayout | common/trace_comm.h:51-56 | length, type and pid in this order, then the body |
| Comm.Buffer.Prepare | common/trace_comm.c:34-57 | the buffer grows to twice what is required, at least 4096, only when it is too small, and keeps what it holds |
| Comm.Buffer.RecvMsg | common/trace_comm.c:129-190 | the receive call on the reused buffer returns the code and leaves the message at its front, writing only within it |
| Comm.Buffer.BuildMsg | common/trace_comm.c:192-207 | a message is built at the front of the buffer |
| Comm.Buffer.SendMsg | common/trace_comm.c:220-242 | header and body go out in order |
| Comm.Transfer | common/trace_comm.c:129-242 | a message sent and received through two reused buffers arrives intact if and only if it gets through |
| Comm.StopCodes | common/trace_comm.h:31-49 | no error code can be taken for a user message |
| Multiplexer.LimitIsExact | src/trace.c:33-208 | with the stream of messages that all processes offer in the order they are polled, the run stops with the stop code if and only if the stream has as many EXIT frames or finished requests as a limit allows; it displays the stream up to exactly that message, or all of it, and ends with -1 exactly when it did not stop so and select failed |
| Multiplexer.ReadClientReads | src/trace.c:42-102 | one poll reads the first k messages and displays exactly their EXIT frames and finished requests; -2 exactly when message k-1 is the one that reaches a limit, else -1 exactly when the feed breaks off within the poll |
| Multiplexer.EveryClientTold | src/trace.c:155-175 | every client accepted is sent the commands of the tool's filter, and a loop that the user ends has accepted every connection |
| Multiplexer.LoopTracks | src/trace.c:125-196 | every tracked client is open and lies between the listening descriptor and the highest |
| Multiplexer.EveryClientClosedOnce | src/trace.c:158-205 | however the loop ends, each accepted descriptor is closed exactly once |
| Cli.Tool.TraceSingleProcess | src/trace.c:42-102 | at most ten messages of one client, each EXIT frame and finished request counted against the global limits |
| Cli.Tool.SendCommands | src/trace.c:104-123 | DO_FILTER before DO_TRACE, and no DO_TRACE under a URL filter |
| Cli.Tool.Pass | src/trace.c:135-196 | every pass, with any set of ready clients, takes the modelled step and leaves the loop exactly when it does |
| Cli.Tool.TraceExt | src/trace.c:125-208 | the whole loop and the closing of the remaining clients |
| Cli.Tool.TraceMain | src/trace.c:210-233 | switches the control file on before and off after the loop, whatever other processes write in between |
| Cli.ControlBits | common/trace_ctrl.h:43-47 | during the loop every traced process finds its bit on; afterwards the byte of a single pid is inactive and the others are untouched, or all bytes are clear |
| Delivery.FrameSend | extension/trace.c:909-932 | the hook's send puts exactly the frame's message on the stream |
| Delivery.FrameReadFromBuffer | src/trace.c:64-65 | the tool unpacks the frame from its reused buffer whatever lies behind the message |
| Delivery.FrameDelivered | extension/trace.c:909-932 | a frame packed, sent, cut into pieces, received and unpacked is that frame with empty strings NULL if the message gets through, and nothing is taken for a frame otherwise |
| Delivery.RecordReads | extension/trace.c:954-1040 | a request or status record too is sent under its own type code and unpacked from a reused buffer as it was sent |
| Delivery.RecordsDelivered | src/trace.c:49-99 | of any sequence of frames, requests and status records, for every chunking and failure, exactly the first ones that get through are received, and each unpacks to what was sent |

## Left out

- Executor.Run: does not model wrap-around of `long` clock differences and table slots, which unbounded integers stand for.
- Display to standard output (`TRACE_TO_OUTPUT`): the flag decides what is traced, but the text shown is not modelled.
- `frame_build`, `frame_set_retval`, `status_build` and `request_build`: they read Zend engine structures; a frame is a function name, a class name and its times.
- The messages of `Executor` are abstract; their packed forms and their way to the tool are proved in `Delivery`.
- Codec.FilterAsRead: does not say what happens when a filter's content reaches beyond the receiver's buffer, where the source reads out of bounds.
- The old socket that a successful retry leaves open in `handle_error`: descriptors of the extension are not counted.
- A name or URL filter with NULL content, or a NULL request URI, on which the source would dereference NULL.
- Unpacking bytes that are no packed record: the source reads out of bounds, so the unpacking methods require a record.
- Negative `argc` in a request, and strings of 4 GiB or more.
- `sdscmp` (comparison), `sdsmapchars`, `sdstolower` and `sdstoupper` (bytewise replacement): neither the extension nor the tool calls them, and they change no length.
- `sdsfromlonglong` (decimal printing), `sdsupdatelen` (length up to the first NUL) and `sdsRemoveFreeSpace` (giving back unused room): neither the extension nor the tool calls them; the last two are for strings changed behind the interface's back or kept without further appends.
- `sdsnew`, `sdscat`, `sdscpy`, `sdsjoin` and `sdscatprintf`: each measures or formats a C string and calls an operation that is modelled.
- Token vectors of the splitters are sequences; the doubling of their slots is not modelled.
- Debug-build functions, `trace_mmap.c`, `ptrace.c`, the status command's loop and output, option parsing and log output.
- Out-of-memory paths.
