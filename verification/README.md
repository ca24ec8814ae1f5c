# Models and proofs for GVSOC

GVSOC simulates whole systems on chip by discrete events. This project models seven of its parts in
Dafny and proves what they are for. Where the program changes objects step by step, so do the classes
here: they relink nodes, write arrays and update fields, and every method is proved to do to its
fields what a specification function says. The properties are then proved of those functions, for
every input, every run or every reachable state.

- **LXT2 trace writer** (`Lxt2*.dfy`): splay trees on pointers, dictionaries, the in-place merge sort,
  the differential value encoder, granules and sections, and an independent reader.
- **TLM-2.0 bus, bridge and target** (`Tlm*.dfy`, `DdrAdmission`): the bus among any number of
  initiators and targets with the protocol checkers' view of both hops (IEEE Std 1666-2011, clauses
  15.2.4 and 15.2.6), the wired memory system as a refinement of a two-place pipeline, and the
  admission of requests.
- **Event scheduler** (`Clock*.dfy`, `Time*.dfy`): the timing wheel and overflow list of a clock as a
  refinement of a calendar, the global list with its fast loop, and several clocks under it.
- **Trace engine** (`Trace*.dfy`): byte layout, the hand-off of buffers between two threads as atomic
  steps at the mutex, pending pulses on a doubly linked list, the merge of values, and the whole way
  from an event to the file.
- **Cache** (`Cache*.dfy`, `BankedCache`, `PendingQueue`): a set-associative cache with one
  asynchronous refill at a time over any memory, with its linked queue, and several of them behind the
  interleaver.
- **GDB packets** (`Rsp*.dfy`, `RingBuffer`): escaping, checksum, the decoder over an arbitrarily split
  stream and on its ring (GDB manual, Appendix E.1).
- **Interconnect** (`Router*.dfy`, `Interleaver`, `Converter*.dfy`): the router's table and search
  tree, address interleaving as one flat memory, and the width converter's splitting and stalling.

`Wrappers`, `Sequences` and `Arithmetic` hold what several modules share.

## Findings

Where the code does not do what it is for, the model follows the code. For each case there is the
condition under which it goes wrong, or right, and a run or an input that shows it.

- LXT2: a second change of a symbol at one time overwrites a code chosen against the previous value,
  so the reader may lose it (`SecondChangeIsLost`, `EmitDecodes`). `maxtime` is only ever the first
  time set, so a time earlier than the latest one is accepted (`AcceptedIff`) and the file's times may
  go back (`FileAscendsIff`, `FileGoesBack`).
- Bus: a request or response that is put on hold is lost, and takes its socket with it. Popping it
  fills the very slot it then waits for (`HeldRequestIsLost`, `HeldResponseIsLost`, `EndReqWedges`,
  `RequestIsHeldIff`, `ResponseIsHeldIff`). With one initiator and one target nothing is ever held.
- Memory admission: a response callback that submits exactly up to the limit makes the bridge follow a
  null pointer (`GrantFindsNobodyIff`, `GrantCanFindNobody`). A request whose size is no multiple of
  the width loses its remainder (`TransactionsCoverIff`).
- Clock: cancelling or enqueueing while a clock is parked can make it wake early and jump in cycles
  (`CancelKeepsTimeIff`, `EarlyWakeHappens`, `EnqueueKeepsTimeIff`, `OffEdgeWakesEarly`). Emptying the
  wheel from outside leaves a stale stop time, and the clock may overrun a waiting event
  (`EnqueueAfterEmptyingIff`, `OverrunHappens`) or jump to it too early (`EmptiedJumps`). Without such
  calls events run exactly when they were asked for (`EventsRunWhenAsked`).
- Trace engine: a flush writes its terminator without looking for room (`FlushInvIff`,
  `FlushCanOverrun`). Events that go back in time are moved to the latest time (`EveryEventIsLifted`).
  A null string with a length is not read back (`UnpackOnePacked`, `NullStringIsMisread`).
- Cache: a hit on the victim of a refill reads the new line, a write is never written back, a write
  that missed is lost, a request without a buffer leaves the old tag on new bytes
  (`CacheFindings`); a resumed request is dropped when the port refuses it (`ResumeDropsIff`,
  `DropIsReachable`); one that misses before the queue is resumed overtakes those in it
  (`FirstComeFirstServed`, `OvertakingIsReachable`); copies start at the beginning of the line whatever
  the address (`LineStartIff`).
- GDB packets: a checksum cut by the end of the ring is never read again (`ChecksumComesIff`,
  `ChecksumCanBeCut`); an over-long body is copied before its length is checked (`FeedOverrunsIff`,
  `LongBodyOverrunsIff`, `TwoArrivalsOverrun`); `write_copy` starts over with the second block
  (`CopyAlwaysRightIff`, `CopyGoesWrong`).
- Router: a 64-bit rest is cut down to a signed 32-bit piece (`StuckIff`, `StuckHappens`,
  `DefaultCompletesIff`); the
  default target takes the rest of a request, mapped bytes included (`BytesGoRightIff`,
  `MappedBytesGoAstray`); `add_offset` overrides `remove_offset` (`ForwardedIsRightIff`); only the last
  piece's status is reported (`FailureIsHiddenIff`).
- Interleaver: the alignment is worked out before `remove_offset` is taken away
  (`EveryByteIsPlacedIff`, `NoPieceCrossesIff`). A bank that is switched off scales the low bits
  (`BypassIsIdentityIff`).
- Converter: a width below the alignment makes the splitting loop endless (`SplittingEndsIff`); an
  empty request, or a refused piece, wedges it (`WedgesIff`, `EmptyRequestWedges`, `RefusalWedges`,
  `WaitingEmptyWedges`).

## Model

| member | source | states |
|---|---|---|
| Lxt2Trace.TraceReplays | engine/src/trace/lxt2_write.c:1456-2007 | After any calls of set-time and emit, the closed file, read back by an independent reader (section dictionaries, change masks, code lists), replays every finished row exactly when each code on record at a finished position still reads from the row before it; that flag changes only where a second change overwrites a code. |
| Lxt2Trace.GentleTraceReplays | engine/src/trace/lxt2_write.c:1784-2007 | With at most one non-redundant change per symbol and time position, every run's file replays the run row by row, whatever the configuration and the initial character. |
| Lxt2Trace.SecondChangeIsLost | engine/src/trace/lxt2_write.c:1985-2001 | Two changes of one symbol at one time can be lost: a run of four calls whose file does not replay it. |
| Lxt2Trace.OverwriteIsLost | engine/src/trace/lxt2_write.c:1985-2001 | Any position past the first at which 0000 becomes 0001 and then 0011 is left with a code the reader cannot resolve to the value held. |
| Lxt2Trace.EmitDecodes | engine/src/trace/lxt2_write.c:1890-2001 | At an open position a first code gives the reader the new value; an overwriting one does exactly if it reads the same from the finished row as from the value it was chosen against. |
| Lxt2Trace.EmitStaysTruthful | engine/src/trace/lxt2_write.c:1784-2007 | An emission keeps the exact record of which codes are readable, for its own symbol and all others. |
| Lxt2Trace.AdvanceIsFresh | engine/src/trace/lxt2_write.c:1462-1490 | Finishing a position appends a row that is replayed exactly when every code on record was readable. |
| Lxt2Trace.PackReadsBack | engine/src/trace/lxt2_write.c:1113-1190 | A granule's masks, mask numbers and code list, read back, give the events of its positions, symbol by symbol. |
| Lxt2Trace.GranuleIsStable | engine/src/trace/lxt2_write.c:1165-1190 | Growing dictionaries never change what an earlier granule of the section says. |
| Lxt2Trace.FlushStaysPacked | engine/src/trace/lxt2_write.c:1081-1448 | Writing a granule, and at a section's end its dictionaries, keeps everything logged so far readable from the file. |
| Lxt2Trace.CloseReplays | engine/src/trace/lxt2_write.c:1081-1448 | Closing from any state a run can reach writes a file that replays its rows exactly when they were recorded faithfully. |
| Lxt2Trace.MarkPosition | engine/src/trace/lxt2_write.c:1985-1998 | The number of set mask bits always equals the number of codes: setting the open position's bit adds one code slot and moves no earlier one. |
| Lxt2Trace.RunInv | engine/src/trace/lxt2_write.c:1456-2007 | Every operation keeps the data structures well formed and the record of readability exact. |
| Lxt2Sections.FileIsDivided | engine/src/trace/lxt2_write.c:1081-1448 | After any calls all sections of the closed file but the last have the configured number of granules, and all granules but the last of all have 64 positions. |
| Lxt2Sections.FinishIs | engine/src/trace/lxt2_write.c:1160-1448 | Finishing a position writes a granule exactly if it is full or the trace is closed, and a section exactly if it then has all its granules or the trace is closed; a section leaves both dictionaries empty. |
| Lxt2Sections.SectionsBeginWithAll | engine/src/trace/lxt2_write.c:1500-1540 | With checkpoints every section of the closed file begins with an event for every symbol. |
| Lxt2Times.AcceptedIff | engine/src/trace/lxt2_write.c:1456-1499 | In every run a set-time call moves the clock exactly if none was made before or its time is later than the first one ever set, however late the others were. |
| Lxt2Times.FileAscendsIff | engine/src/trace/lxt2_write.c:1456-1499 | After any calls the times a reader finds in the closed file strictly ascend exactly if every set-time call that is accepted, and whose time gets into the file, is later than the last position finished by then. |
| Lxt2Times.LaterIsGuarded | engine/src/trace/lxt2_write.c:1456-1499 | It is enough that every accepted call is later than the time of the open position. |
| Lxt2Times.FileGoesBack | engine/src/trace/lxt2_write.c:1456-1499 | A run whose file holds the times 0, 5 and 3 in this order. |
| Lxt2Values.EmitMeans | engine/src/trace/lxt2_write.c:1800-1840 | A value call gives its symbol the value its string stands for and leaves all others alone: the string at the end, in lower case, with 0 before it if it begins with 1 and its first character otherwise; of a string that is too long, the beginning. |
| Lxt2Values.OneMeaning | engine/src/trace/lxt2_write.c:1814-1840 | A string stands for exactly one value of each length. |
| Lxt2Values.NumberIsKept | engine/src/trace/lxt2_write.c:1814-1840 | A binary string that is not too long keeps its value as a number. |
| Lxt2Values.RowsAreWhatWasReported | engine/src/trace/lxt2_write.c:1456-2007 | After any calls and the close, every row holds for each symbol the value that the last call about it stood for at some point of the run, or the initial one, and the time set last by then among those later than the first; the points ascend and the last one is the end. |
| Lxt2Values.LaterTimeRecords | engine/src/trace/lxt2_write.c:1456-1499 | After a call that sets a later time the last row holds the values there were: no change slips through. |
| Lxt2Values.FileShowsWhatWasReported | engine/src/trace/lxt2_write.c:1456-2007 | With at most one non-redundant change per symbol and position a reader of the closed file finds those times and values, position by position. |
| Lxt2Codec.ChooseSound | engine/src/trace/lxt2_write.c:1890-1975 | Whichever code is chosen for a new value (uniform, inverted, shifted, up to four added or subtracted, dictionary word) decodes from the old value to the new one, under either reading of the signed shift at line 1935. |
| Lxt2Codec.DecodeReadsOnly | engine/src/trace/lxt2_write.c:1890-1975 | A code gives the same value from two bases exactly if the part of the base that this kind of code reads is the same in both. |
| Lxt2Codes.ChooseIsFirst | engine/src/trace/lxt2_write.c:1855-1962 | The code chosen is the first, in the order of the tests, that turns the old value into the new one, but for those the writer does not look at; a word goes to the dictionary exactly if there is none. |
| Lxt2Codec.PadUndoesTruncation | engine/src/trace/lxt2_write.c:31-55 | Truncation to a dictionary word loses nothing: padding it back to the length gives the value, for every non-empty value. |
| Lxt2Codec.WordIsShortest | engine/src/trace/lxt2_write.c:31-55 | No shorter suffix would pad back to the value. |
| Lxt2Codec.TruncateBitvec | engine/src/trace/lxt2_write.c:31-55 | The scan returns the start of exactly that word. |
| Lxt2Codec.EncodeChange | engine/src/trace/lxt2_write.c:1850-1975 | The writer's sequence of scans makes exactly the choice specified. |
| Lxt2Codec.ScanUniform | engine/src/trace/lxt2_write.c:1850-1880 | Finds a string of one repeated 0, 1, x or z, and no other. |
| Lxt2Codec.ScanInverse | engine/src/trace/lxt2_write.c:1880-1896 | Finds exactly the strings that are the old value inverted bit by bit. |
| Lxt2Codec.ScanNumbers | engine/src/trace/lxt2_write.c:1915-1935 | Reads both strings as binary numbers exactly if neither has another character. |
| Lxt2Splay.Splay | engine/src/trace/lxt2_write.c:109-152 | Top-down splay through real pointers, for any key order and any key: terminates, keeps the node objects, search order and list links, splits the tree by the key, and has the key at the root exactly when it is present. The same procedure serves the string-keyed tree of lines 192-241. |
| Lxt2Splay.RotationKeepsSearch | engine/src/trace/lxt2_write.c:120-140 | A rotation keeps nodes and search order, both ways. |
| Lxt2Splay.AssembledSplits | engine/src/trace/lxt2_write.c:140-152 | When the descent stops, the two side trees and the tree in hand make up a search tree split by the key. |
| Lxt2Splay.DescendLeft | engine/src/trace/lxt2_write.c:117-131 | One turn of the loop to the left rotates and links so that the parts stay those of the same tree. |
| Lxt2Splay.DescendRight | engine/src/trace/lxt2_write.c:131-145 | The same to the right. |
| Lxt2Splay.Assemble | engine/src/trace/lxt2_write.c:146-150 | The closing assignments reattach both side trees. |
| Lxt2Dictionary.Insert | engine/src/trace/lxt2_write.c:154-190 | Insertion leaves a search tree with the key at the root; the only new object is the node for an absent key, and no other node's list link changes. |
| Lxt2Dictionary.Dictionary.Intern | engine/src/trace/lxt2_write.c:1165-1185 | A key is looked up or given the next number; numbers are dense in list order. |
| Lxt2Dictionary.Dictionary.Find | engine/src/trace/lxt2_write.c:1165-1170 | The splay before every use tells exactly whether the key is listed, and brings it to the root if so. |
| Lxt2Dictionary.Dictionary.IdOf | engine/src/trace/lxt2_write.c:1190-1196 | A key known to be listed is found with its number, so the first internal-error exit is unreachable. |
| Lxt2Dictionary.Dictionary.Drain | engine/src/trace/lxt2_write.c:1345-1376 | The list is written out in number order and the number check cannot fail, so the second internal-error exit is unreachable; the dictionary is empty afterwards. |
| Lxt2Dictionary.IdsAreFinal | engine/src/trace/lxt2_write.c:1165-1185 | Interning more keys never changes the number of a key that has one. |
| Lxt2MergeSort.Msort | engine/src/trace/lxt2_write.c:98-107 | Sorts any array stably in place, equal names keeping their order, with num/2+1 buffer cells. |
| Lxt2MergeSort.Mergesort | engine/src/trace/lxt2_write.c:61-96 | Sorts a range stably and leaves the rest of the array alone; half the range, rounded up, is enough of the buffer. |
| Lxt2MergeSort.MergeRuns | engine/src/trace/lxt2_write.c:75-94 | The merge of two sorted runs in place, one of them parked in the buffer, is their stable merge. |
| Lxt2MergeSort.MergeIsStable | engine/src/trace/lxt2_write.c:75-94 | Among equal names the left run's go first. |
| Lxt2MergeSort.StableIsPermutation | engine/src/trace/lxt2_write.c:61-107 | Stability name by name implies that nothing is lost or duplicated. |
| Lxt2Writer.Writer.SetTimeTo | engine/src/trace/lxt2_write.c:1456-1548 | The procedure on the writer's own variables does exactly what the set-time operation of the state machine does. |
| Lxt2Writer.Writer.EmitBitString | engine/src/trace/lxt2_write.c:1784-2007 | The same for the emission of a bit string, from length fixing and case folding to the code list. |
| Lxt2Writer.Writer.Fit | engine/src/trace/lxt2_write.c:1814-1840 | The loops that bring a string to length and to lower case make exactly the value it stands for. |
| Lxt2Writer.Writer.FlushGranule | engine/src/trace/lxt2_write.c:1081-1448 | The same for writing a granule and closing a section. |
| Lxt2Writer.Writer.CloseTrace | engine/src/trace/lxt2_write.c:2150-2200 | The same for closing the trace. |
| Lxt2Writer.Writer.InitialBurst | engine/src/trace/lxt2_write.c:1508-1540 | The same for the initial value burst. |
| Lxt2Codes.CodeTable | engine/src/trace/lxt2_write.h:92-117 | What the numbers of the codes for uniform strings, inversion and shifts stand for; 17 stands for nothing here. |
| Lxt2Codes.IncrementTable | engine/src/trace/lxt2_write.h:92-117 | 7 to 10 add, and 11 to 14 subtract, 1 to 4, modulo the number of values. |
| Lxt2Codes.WordTable | engine/src/trace/lxt2_write.h:92-117 | 18 and more are the words of the dictionary, padded to length. |
| TlmBus.NoRunViolates | models/memory/ems_at_bus.h:134-440 | With any number of initiators and targets that keep to the protocol, no checker error, assertion or fatal report of the bus is reachable, at most one request is open per target socket and one response per initiator socket, and every call goes to the socket its transaction belongs to. |
| TlmBus.StepInv | models/memory/ems_at_bus.h:134-440 | Every step of the bus and its neighbours keeps each transaction's tokens, slots and phases consistent. |
| TlmBus.ForwardedIffIdle | models/memory/ems_at_bus.h:134-180 | A request is forwarded exactly if its target's slot is free when its BEGIN_REQ is handled; otherwise it is held. |
| TlmHolds.DeliveredIffIdle | models/memory/ems_at_bus.h:294-345 | A response is delivered exactly if its initiator's slot is free when its BEGIN_RESP is handled; otherwise it is held. |
| TlmBus.HeldRequestIsLost | models/memory/ems_at_bus.h:134-180 | A request that was ever held is never forwarded, in any continuation: popping it fills the slot it then waits for. |
| TlmBus.HeldResponseIsLost | models/memory/ems_at_bus.h:180-240 | A response that was ever held is never delivered, in any continuation. |
| TlmBus.EndReqWedges | models/memory/ems_at_bus.h:294-330 | Handling END_REQ wedges its target exactly if a request is waiting for that target. |
| TlmBus.WedgedForever | models/memory/ems_at_bus.h:134-180 | Nothing is ever forwarded to a wedged target again. |
| TlmHolds.RequestIsHeldIff | models/memory/ems_at_bus.h:134-180 | Some run holds a request exactly if there are at least two initiators and one target. |
| TlmHolds.ResponseIsHeldIff | models/memory/ems_at_bus.h:294-345 | Some run holds a response exactly if there are at least two targets and one initiator. |
| TlmBus.TwoInitiatorsCanWedge | models/memory/ems_at_bus.h:134-330 | A run of two initiators and one target that wedges the target. |
| TlmBus.NothingHeld | models/memory/ems_at_bus.h:134-440 | A single initiator never has a request held, a single target never a response. |
| TlmMachines.AtBus.OnForward | models/memory/ems_at_bus.h:134-240 | The forward callback makes the specified state change and call. |
| TlmMachines.AtBus.OnBackward | models/memory/ems_at_bus.h:294-409 | The backward callback makes the specified state change and call. |
| TlmMachines.AtBus.TransportFw | models/memory/ems_at_bus.h:242-292 | The forward transport call files the event and checks its socket as specified. |
| TlmAlarms.ForwardAlarmIff | models/memory/ems_at_bus.h:134-240 | A forward event raises an alarm of bus or checkers exactly with a phase that does not belong there, with a request to a target that knows it or has one open, or with the end of a response that the initiator's socket or the target is not in. |
| TlmAlarms.BackwardAlarmIff | models/memory/ems_at_bus.h:294-409 | A backward event does exactly with a phase that does not belong there, with an acceptance of a request not open, or with a response to an initiator that has one open or did not ask. |
| TlmAlarms.CallAlarmIff | models/memory/ems_at_bus.h:242-292 | A call that the caller's protocol allows does exactly if it ends a response on another socket or one that was not begun. |
| TlmMachines.AtBus.TransportBw | models/memory/ems_at_bus.h:411-440 | The backward transport call files the event and checks its socket as specified. |
| TlmSystem.NoRunFaults | models/memory/ems_gvsoc_tlm_br.h:106-254 | With bridge, bus and target wired together, no assertion, fatal report, checker error or double response is reachable, and the target never has more than two transactions. |
| TlmSystem.PhasesInOrder | models/memory/ems_gvsoc_tlm_br.h:121-178 | Every transaction goes through BEGIN_REQ, END_REQ, BEGIN_RESP and END_RESP in this order at both hops, skipping none. |
| TlmSystem.LastResponseCompletes | models/memory/ems_gvsoc_tlm_br.h:106-172 | When the response marked last arrives, every earlier transaction of the request has been answered, and exactly then the request completes. |
| TlmSystem.EveryRequestIsAnswered | models/memory/ems_gvsoc_tlm_br.h:180-254 | From every reachable state the system comes to rest after boundedly many steps unless new requests arrive, and it rests only when everything is answered: no deadlock and no lost wake-up. |
| TlmMachines.MemorySystem.RunThread | models/memory/ems_gvsoc_tlm_br.h:180-254 | A turn of the bridge's thread makes the specified state change. |
| TlmMachines.MemorySystem.SendNext | models/memory/ems_gvsoc_tlm_br.h:200-235 | Sending the next transaction makes the specified state change. |
| TlmMachines.MemorySystem.OnBridgeEvent | models/memory/ems_gvsoc_tlm_br.h:121-172 | The bridge's callback makes the specified state change. |
| TlmAlarms.BridgeFaultIff | models/memory/ems_gvsoc_tlm_br.h:121-172 | The bridge finds fault exactly with a phase that does not belong there, an acceptance without an open request, or a response not to its current request or not allowed by the protocol. |
| TlmSystem.RunRefines | models/memory/ems_at_target.h:115-293 | Every run of the three state machines is a run of a two-place pipeline, in which each transaction has one stage. |
| TlmSystem.StepRefines | models/memory/ems_at_target.h:115-293 | Every step moves one transaction on by one stage, and every internal step uses up some of a bounded amount of work. |
| TlmSystem.InternalRunsEnd | models/memory/ems_at_target.h:182-237 | No internal run is longer than the work left. |
| TlmMachines.MemorySystem.OnTargetEvent | models/memory/ems_at_target.h:248-293 | The target's callback makes the specified state change. |
| TlmAlarms.TargetFaultIff | models/memory/ems_at_target.h:182-293 | The target finds fault exactly with a phase that does not belong there, the end of a response it is not giving, or a turn it has then to take that the protocol forbids. |
| TlmAlarms.TimerFaultIff | models/memory/ems_at_target.h:182-237 | The end of the target's work is at fault exactly if there was none, if a response waits already behind the one being given, or if the protocol forbids the response. |
| TlmAlarms.TargetMovesOn | models/memory/ems_at_target.h:182-237 | When a response has ended the target gives the one that waited, once, and takes up the request it had put off, once, with its timer running; otherwise it is free. |
| TlmMachines.MemorySystem.AcceptRequest | models/memory/ems_at_target.h:115-127 | Accepting a request makes the specified state change. |
| TlmMachines.MemorySystem.IssueNextResponse | models/memory/ems_at_target.h:182-237 | Issuing the next response makes the specified state change. |
| TlmBus.ExclusiveByInv | models/memory/tlm2_base_protocol_checker.h:461-700 | The checker's exclusion rules, one open request and one open response per socket, follow from the invariant. |
| TlmAlarms.CheckersKnow | models/memory/tlm2_base_protocol_checker.h:461-700 | Over every run what the checkers have down for a socket on either hop is exactly the transaction at that point of the protocol there. |
| DdrAdmission.DeniedAreGrantedInOrder | models/memory/ddr_sc_impl.cpp:99-136 | In every run whose response callbacks leave room no null pointer is followed, each denied request is denied once, and the grants are the denied requests in the order of their denial, once each, except for those still waiting; with a positive limit a denied request is granted before the bridge takes it. |
| DdrAdmission.DeniedIffAboveLimit | models/memory/ddr_sc_impl.cpp:99-197 | In every such run, whatever comes later, a request is denied exactly if its submission, by a requester or by a response callback, makes the memory hold more than its limit. |
| DdrAdmission.ServeIsRightIff | models/memory/ddr_sc_impl.cpp:99-136 | Serving one request keeps the stall pointer right exactly if requests were waiting before, or the response callback submits fewer than the room left. |
| DdrAdmission.GrantFindsNobodyIff | models/memory/ddr_sc_impl.cpp:99-136 | The bridge follows a null pointer exactly if nobody was waiting and the response callback submits up to the limit and no further. |
| DdrAdmission.GrantCanFindNobody | models/memory/ddr_sc_impl.cpp:99-136 | A run from the start that does so, for every limit. |
| DdrAdmission.FrontDoor.Req | models/memory/ddr_sc_impl.cpp:99-136 | Submission files the request, counts it and moves the stall pointer as specified. |
| DdrAdmission.TransactionsCoverIff | models/memory/ems_gvsoc_tlm_br.h:186-200 | The transactions of a request cover its bytes and no others exactly if its size is a positive multiple of the width that fits 32 bits in transactions. |
| DdrAdmission.TransactionsAre | models/memory/ems_gvsoc_tlm_br.h:195-199 | A request becomes as many transactions as fit in it, but at least one. |
| DdrAdmission.FrontDoor.GrantStalled | models/memory/ems_gvsoc_tlm_br.h:225-250 | Granting moves the stall pointer on by one as specified. |
| ClockCalendar.EveryLifeIsPunctual | engine/src/vp.cpp:466-712 | Over every run of enqueues, cancels and executions, each event that runs does so at the cycle it was due, the numbers of runs, cancellations and waiting events add up to the number of enqueues, every waiting event is in exactly one place, and the cycle count never passes it. |
| ClockHistory.EveryEnqueueIsSettledOnce | engine/src/vp.cpp:466-712 | Over every run each single enqueue has exactly one fate: it ran once, at the cycle it was for; or it was cancelled; or it waits, alone for its event, for a cycle not past. Nothing else runs or waits. |
| ClockSystem.EveryClockIsPunctual | engine/src/vp.cpp:350-712 | The same for any number of clocks and periods under the global scheduler's list, with any callbacks on any clock: the list holds each clock exactly at its wake-up, and every step the list leads to is one the clock allows. |
| ClockSystem.StepIsAllowed | engine/src/vp.cpp:350-712 | A clock is executed only at its wake-up with events to run, and nothing is enqueued on a clock later than its wake-up. |
| ClockCalendar.NothingOverdue | engine/src/vp.cpp:620-712 | No enqueued event is overdue in any state the invariant allows. |
| ClockCalendar.CycleIsDone | engine/src/vp.cpp:652-712 | When an execution leaves the current slot empty, no event is due at that cycle any more. |
| ClockCalendar.DeltaIsPositive | engine/src/vp.cpp:652-712 | An execution returns -1 or a positive delay, -1 exactly if no event is enqueued; ClockTime.FinishTurnsOn and ClockTime.FinishIsOnTime say which. |
| ClockTime.FinishTurnsOn | engine/src/vp.cpp:675-688 | With events in the wheel the clock comes back one period later, for the next cycle. |
| ClockTime.FinishIsOnTime | engine/src/vp.cpp:689-712 | With an empty wheel it comes back exactly at the time of the first event that waits, or not at all if there is none. |
| ClockTime.EventsRunWhenAsked | engine/src/vp.cpp:466-717 | Over every run in which events are enqueued from outside on clock edges only, and no cancel empties the wheel between two cycles or takes away the first event a parked clock waits for, every cycle is executed at its time and every event enqueued d cycles on runs exactly d periods later. |
| ClockTime.InsertedAt | engine/src/vp.cpp:519-533 | On the list an event goes in front of those due at the same cycle and behind the earlier ones. |
| ClockTime.EnqueuedNowRunsNext | engine/src/vp.cpp:642-672 | An event that a callback enqueues for the present cycle is the next one to run, and running it leaves the clock as it was. |
| ClockCalendar.BeginInv | engine/src/vp.cpp:620-665 | Flushing the overflow list into the wheel loses no event and skips none. |
| ClockCalendar.RunOneInv | engine/src/vp.cpp:666-682 | The event taken from the wheel is due at the present cycle, and is enqueued nowhere afterwards. |
| ClockCalendar.CancelInv | engine/src/vp.cpp:561-618 | Cancelling removes exactly that event and changes no other event's due cycle. |
| ClockCalendar.EnqueueKeeps | engine/src/vp.cpp:488-536 | Enqueueing adds exactly that event, the given number of cycles on, and keeps the wake-up no later than the first waiting event. |
| ClockCalendar.UpdateKeepsTime | engine/src/vp.cpp:466-486 | Catching up keeps stop time minus cycles times period, and leaves the stop time within a period after the present. |
| ClockCalendar.UpdateInvIff | engine/src/vp.cpp:466-486 | Catching up keeps the calendar exactly if no more time has passed than the first waiting event allows. |
| ClockCalendar.ParkedCatchesUp | engine/src/vp.cpp:466-486 | A parked clock with a timely wake-up always meets that condition. |
| ClockCalendar.EnqueueAfterEmptyingIff | engine/src/vp.cpp:488-536 | After the wheel was emptied from outside, enqueueing keeps the calendar exactly under the same condition, the stop time being stale. |
| ClockFindings.OverrunHappens | engine/src/vp.cpp:488-536 | A run from the start in which it fails: the clock counts the cycles it slept a second time and passes a waiting event. |
| ClockFindings.EmptiedJumps | engine/src/vp.cpp:561-625 | Left alone instead, that clock wakes for the next cycle and jumps to the cycle of the waiting event, 39 cycles too early in time. |
| ClockCalendar.CancelKeepsTimeIff | engine/src/vp.cpp:561-618 | Cancelling while parked leaves the wake-up on time exactly if nothing is left or the next event is due at the same cycle. |
| ClockFindings.EarlyWakeHappens | engine/src/vp.cpp:561-665 | A run in which it fails: the clock wakes for the cancelled event and jumps ahead in cycles. |
| ClockCalendar.BeginJumps | engine/src/vp.cpp:620-640 | A clock that wakes with an empty wheel jumps to the cycle of its first waiting event, whatever the time. |
| ClockCalendar.EnqueueKeepsTimeIff | engine/src/vp.cpp:488-536 | Enqueueing while parked leaves the wake-up on time exactly if it happens on a clock edge or the event is not the next one. |
| ClockFindings.OffEdgeWakesEarly | engine/src/vp.cpp:488-536 | A run in which it fails. |
| ClockEngine.Engine.Enqueue | engine/src/vp.cpp:488-536 | The method on the wheel's array and the list changes the fields as specified, wake-up included. |
| ClockEngine.Engine.Cancel | engine/src/vp.cpp:561-618 | The same for cancelling. |
| ClockEngine.Engine.Update | engine/src/vp.cpp:466-486 | The same for catching up. |
| ClockEngine.Engine.FlushDelayedQueue | engine/src/vp.cpp:620-643 | The same for flushing, loop included. |
| ClockEngine.Engine.EndExec | engine/src/vp.cpp:684-712 | The same for the end of an execution and the delay it returns. |
| TimeEngine.Engine.Enqueue | engine/src/vp.cpp:371-414 | Enqueueing a client relinks the list so that it holds the same clients in time order, a client already due by then or running being left alone. |
| TimeEngine.Engine.Dequeue | engine/src/vp.cpp:350-369 | Dequeueing takes out exactly that client and says whether it was there. |
| TimeEngine.Engine.RunLoop | engine/vp/time_engine.cpp:527-595 | The loop with its same-client shortcut and its insert-behind-the-next step dispatches exactly the sequence of clients and times of the plain scheduler (pop the head, execute, put back), ties included, for any callbacks. |
| TimeEngine.Engine.RunRepeatedly | engine/vp/time_engine.cpp:398-595 | Stopping and restarting the loop at any points leaves the sequence unchanged. |
| TimeEngine.Engine.Settle | engine/vp/time_engine.cpp:540-590 | After an execution: go on with the same client, put it back, or put it back behind the next one, as the plain scheduler would. |
| TimeEngine.Engine.Execute | engine/vp/time_engine.cpp:540-560 | One execution carries out the callback's calls on the list as specified. |
| TimeQueue.PlainKeepsGood | engine/vp/time_engine.cpp:398-431 | The plain scheduler never goes back in time and keeps its list sorted, each client once. |
| TimeQueue.PlainSplits | engine/vp/time_engine.cpp:398-431 | A run of it can be cut anywhere and resumed. |
| TraceEndToEnd.EventsReachTheFile | engine/src/trace/trace.cpp:177-568 | From the calls that report events and pulses to the trace file: for any interleaving of the two threads over any buffers, once stopped and drained, the file shows for every trace and time exactly what that trace on its own reported last at that time, null values and pulse ends included, once, and in order of time. |
| TraceStream.NothingIsLost | engine/src/trace/trace.cpp:177-296 | For every interleaving, number and size of buffers, the events unpacked are the first of those packed, in order, all of them once no buffer is under way; each buffer is in exactly one place; nothing is written or read past one. |
| TraceStream.NobodyStarves | engine/src/trace/trace.cpp:177-209 | A producer without a buffer always has one to take or a consumer with work. |
| TraceStream.FreshHasRoom | engine/src/trace/trace.cpp:177-209 | One hand-off is enough for every event that fits a buffer at all. |
| TraceStream.FlushInvIff | engine/src/trace/trace.cpp:223-242 | A flush keeps all of this exactly if eight bytes are left in the current buffer. |
| TraceStream.FlushCanOverrun | engine/src/trace/trace.cpp:223-242 | From the start, any event that leaves fewer than eight bytes followed by a flush writes past the buffer. |
| TraceCodec.BufferRoundTrip | engine/src/trace/trace.cpp:244-296 | The events packed into a buffer are the events unpacked from it, in order, null values included. |
| TraceCodec.UnpackOnePacked | engine/src/trace/trace.cpp:475-520 | An event packed at any offset is unpacked from there with every field intact. |
| TraceCodec.NullStringIsMisread | engine/src/trace/trace.cpp:244-296 | A null event of a string trace with a length is never read back as it was: its mask is taken for the timestamp. |
| TraceBuffers.EventBuffers.DumpEventToBuffer | engine/src/trace/trace.cpp:244-296 | Packing into the byte array at the moving offset does what the hand-off model says. |
| TraceBuffers.EventBuffers.HandOff | engine/src/trace/trace.cpp:177-200 | So does handing a full buffer over. |
| TraceBuffers.EventBuffers.Unpack | engine/src/trace/trace.cpp:473-545 | The unpacking loop returns exactly the events of the buffer. |
| TraceBuffers.EventBuffers.Flush | engine/src/trace/trace.cpp:223-242 | So does flushing, where there is room for the terminator. |
| TraceMerge.LastValueWins | engine/src/trace/trace.cpp:401-560 | If event times never decrease, the file holds exactly the last value of each trace at each time, once, in order of time. |
| TraceMerge.EveryEventIsLifted | engine/src/trace/trace.cpp:401-560 | For events in any order the file is what it would be had every event come at the latest time so far, and an event keeps its own time exactly if no earlier one has a later time. |
| TraceMerge.ListedLatestFirst | engine/src/trace/trace.cpp:545-560 | Within one timestamp the traces are listed, and so dumped, in the opposite order of their first events. |
| TraceMerge.Dumper.HandleBuffer | engine/src/trace/trace.cpp:460-560 | The loop over a buffer's events does this to its fields. |
| TracePending.StreamNeverGoesBack | engine/src/trace/trace.cpp:298-389 | If event times never decrease and pulses end no earlier than they start, the packed stream, pulse ends included, never goes back in time; the pending ends stay sorted, one per trace. |
| TracePending.CheckMoves | engine/src/trace/trace.cpp:333-346 | A check moves pending ends into the stream and neither loses nor adds any. |
| TracePending.StopDumpsAll | engine/src/trace/trace.cpp:211-221 | Stopping dumps every pending end, in order. |
| TraceReports.PackedIsReported | engine/src/trace/trace.cpp:298-389 | For any calls at non-decreasing times what is packed is, as a multiset and sorted by time, exactly the events and pulses reported and for each pulse an end at its end time with the background value, but for the ends that a later pulse of the same trace replaced by beginning before they were due. |
| TraceReports.StreamHoldsReports | engine/src/trace/trace.cpp:298-389 | The same before the engine is stopped, of the stream and the ends that wait together. |
| TraceReports.PackedTraceByTrace | engine/src/trace/trace.cpp:298-389 | Traces do not get in each other's way: of each trace the stream holds, in this order, its events and pulses as reported and each end in front of the first of them that is not earlier. |
| TraceReports.InsertedAt | engine/src/trace/trace.cpp:360-389 | An end goes in front of those at the same time and behind the earlier ones. |
| TracePulses.PulseList.DumpEventPulse | engine/src/trace/trace.cpp:312-331 | The method on the doubly linked list does this, keeping every forward and backward link right. |
| TracePulses.PulseList.EnqueuePending | engine/src/trace/trace.cpp:360-391 | Insertion in front of the first trace not earlier, links both ways. |
| TracePulses.PulseList.CheckPendingEvents | engine/src/trace/trace.cpp:333-346 | Dumps from the head on as specified, links both ways. |
| CacheModel.EveryRunIsRight | models/cache/cache_impl.cpp:136-203 | In every run of reads that have a buffer, are no longer than a line and whose refill fetches their own line, with refills answered at once or later, any victims and flushes: every valid line holds memory's bytes for its tag (except a victim being refilled), is in its set, and no tag is held twice. |
| CacheModel.EveryRequestIsKept | models/cache/cache_impl.cpp:136-203 | In every run of any requests at all, each one taken on is answered once, dropped once or still held, a non-empty queue always has a refill outstanding or the event scheduled, and valid lines stay in their sets with no tag twice. |
| CacheOrder.FirstComeFirstServed | models/cache/cache_impl.cpp:136-191 | Over every run, of any requests, in which none overtakes, requests taken on are dealt with in the order of their arrival, and those held are in that order too. |
| CacheOrder.OvertakingJumpsTheQueue | models/cache/cache_impl.cpp:136-191 | A request that misses with its refill to come, while no refill is outstanding and others wait to be resumed, goes in front of all of them. |
| CacheOrder.OvertakingIsReachable | models/cache/cache_impl.cpp:136-191 | A run in which that happens. |
| CacheModel.ServedReadIsRight | models/cache/cache_impl.cpp:469-517 | Such a read served at once returns what memory holds from the start of its line, unless it hits the victim of a refill under way. |
| CacheModel.WaitingReadIsRight | models/cache/cache_impl.cpp:136-191 | So does the read that missed and the one that waited. |
| CacheModel.ResumeInv | models/cache/cache_impl.cpp:174-191 | In a right state without a write or bufferless request resuming keeps everything right, and what it answers is right. |
| CacheModel.ResumeDropsIff | models/cache/cache_impl.cpp:174-191 | For any requests, resuming forgets the first request exactly if no refill is outstanding, it misses, and the refill port answers with an error. |
| CacheModel.MissMeansNowhere | models/cache/cache_impl.cpp:432-467 | A miss in its set means that no line of the whole cache has the tag. |
| CacheModel.FlushForgets | models/cache/cache_impl.cpp:405-422 | After a flush with no refill outstanding the cache is right for any memory. |
| CacheModel.FlushKeepsRefillIff | models/cache/cache_impl.cpp:405-422 | With a refill already written, the line it completes agrees with a changed memory exactly if its bytes did not change. |
| CacheFlush.FlushLineEmpties | models/cache/cache_impl.cpp:390-403 | Flushing a line empties every line with the address's tag, in the whole cache, and changes nothing else. |
| CacheFlush.FlushedLineMisses | models/cache/cache_impl.cpp:390-403 | The next access to the line misses. |
| CacheFlush.FlushLineForgetsIff | models/cache/cache_impl.cpp:390-403 | With no refill outstanding the cache is then right for a changed memory exactly if nothing changed at the other lines it holds. |
| CacheFlush.FlushLineForgets | models/cache/cache_impl.cpp:390-403 | That is so for every change of that line's own bytes, as long as lines do not wrap around at the end of the address space. |
| CacheFlush.FlushedReadIsFresh | models/cache/cache_impl.cpp:390-403 | A read answered at once then gets the new bytes, of that line or of any other. |
| CacheModel.FetchesItsLineIff | models/cache/cache_impl.cpp:328 | A miss fetches the line of its tag exactly if its offset in the line, scaled by the refill shift, stays within a line. |
| CacheModel.LineStartIff | models/cache/cache_impl.cpp:328 | Without a refill shift the copy starts at the read's address exactly if that is line-aligned. |
| CacheModel.EmptyCacheHitIff | models/cache/cache_impl.cpp:432-467 | An empty cache is hit exactly by the tag that marks empty lines. |
| CacheFindings.HitDuringRefillIsRightIff | models/cache/cache_impl.cpp:469-517 | A read during a refill that has written is right over every memory exactly if it does not hit the victim, asks for nothing, or both lines are the same part of memory. |
| CacheFindings.HitDuringRefillIsReachable | models/cache/cache_impl.cpp:293-361 | A run that gets there, and reads the other address's byte. |
| CacheFindings.WriteAlwaysAgreesIff | models/cache/cache_impl.cpp:493-514 | A write keeps its line in agreement with every memory exactly if it writes nothing: nothing is written back. |
| CacheFindings.DisagreementIsReachable | models/cache/cache_impl.cpp:493-514 | A run after which a line disagrees. |
| CacheFindings.LateWriteIsKeptIff | models/cache/cache_impl.cpp:136-171 | A write that missed is in its line after the response, whatever was fetched, exactly if it writes nothing. |
| CacheFindings.LostWriteIsReachable | models/cache/cache_impl.cpp:136-171 | A run that answers a write and loses it. |
| CacheFindings.NoBufferAlwaysAgreesIff | models/cache/cache_impl.cpp:136-171 | After the response to a request without a buffer the line agrees with every memory exactly if it was empty or stood for the same part of memory. |
| CacheFindings.OldTagIsReachable | models/cache/cache_impl.cpp:136-171 | A run that leaves the old tag on the new bytes. |
| CacheFindings.DropIsReachable | models/cache/cache_impl.cpp:174-191 | A run in which a read that was taken on is neither answered nor held any more. |
| CacheEngine.Engine.HandleReq | models/cache/cache_impl.cpp:293-517 | Lookup, victim, refill and copy on the array of lines and the linked queue change the state as specified. |
| CacheEngine.Engine.RefillResponse | models/cache/cache_impl.cpp:136-171 | The same for the response to a refill. |
| CacheEngine.Engine.FsmHandler | models/cache/cache_impl.cpp:174-203 | The same for the resuming event. |
| CacheEngine.Engine.FlushLineAt | models/cache/cache_impl.cpp:390-403 | The same for flushing one line, loop over the ways included. |
| CacheEngine.Engine.GetLine | models/cache/cache_impl.cpp:432-467 | The search returns the first way of the set that holds the tag, if there is one. |
| PendingQueue.Queue.PushBack | engine/src/queue.cpp:62-78 | Appends to the linked queue, links and contents. |
| PendingQueue.Queue.PushFront | engine/src/queue.cpp:80-92 | Puts in front, links and contents. |
| PendingQueue.Queue.Pop | engine/src/queue.cpp:99-107 | Takes the first element off, or nothing from an empty queue. |
| RspPacket.PacketRoundTrip | models/gdbserver/rsp-packet-codec.cpp:116-317 | For every payload that fits, its packet cut into arrivals in any way is delivered exactly once and unchanged, and nothing else is reported. |
| RspSession.PacketThroughRing | models/gdbserver/rsp-packet-codec.cpp:192-317 | The same through a ring with as many cells as the packet has characters, arrivals and turns taken block by block. |
| RspPacket.EscapeRoundTrip | models/gdbserver/rsp-packet-codec.cpp:23-48 | Unescaping undoes escaping for every payload. |
| RspPacket.EscapeIsHashFree | models/gdbserver/rsp-packet-codec.cpp:116-176 | An escaped payload holds no bare # and does not end in an escape. |
| RspWire.EscapedAs | models/gdbserver/rsp-packet-codec.cpp:116-137 | The characters #, %, } and * are sent as } and the characters 3, 5, ] and 10, all others as themselves. |
| RspWire.EscapeJoins | models/gdbserver/rsp-packet-codec.cpp:116-137 | Escaping goes character by character. |
| RspWire.ChecksumIsSum | models/gdbserver/rsp-packet-codec.cpp:71-82 | The checksum is two digits out of 0-9 and a-f that, read as a number with the first one high, give the sum of the bytes modulo 256. |
| RspWire.SumJoins | models/gdbserver/rsp-packet-codec.cpp:73-77 | The sum is additive, and of one byte it is that byte. |
| RspWire.ChecksumIff | models/gdbserver/rsp-packet-codec.cpp:71-82 | Two characters are accepted as the checksum exactly if they are such digits and give that number. |
| RspWire.PacketIs | models/gdbserver/rsp-packet-codec.cpp:293-317 | A packet is $, the escaped payload, #, and the hexadecimal sum of what is between them. |
| RspWire.OkOnTheWire | models/gdbserver/rsp-packet-codec.cpp:293-317 | The payload OK is sent as $OK#9a. |
| RspWire.DeliveredIffSumMatches | models/gdbserver/rsp-packet-codec.cpp:263-290 | A packet is delivered exactly if its last two characters are the hexadecimal sum of its body; otherwise an error is reported; the decoder is then back at its start. |
| RspWire.NextIsDecoded | models/gdbserver/rsp-packet-codec.cpp:185-290 | Either way the next packet is decoded as if nothing had been before it. |
| RspWire.LeadInReports | models/gdbserver/rsp-packet-codec.cpp:201-228 | Between packets everything is skipped but three characters: + is reported as an acknowledgement, character 3 as an interrupt, and $ begins a body. |
| RspPacket.NextPacketWaits | models/gdbserver/rsp-packet-codec.cpp:185-190 | Decoding stops behind a packet; what follows it stays in the ring. |
| RspSession.CrcProgressIff | models/gdbserver/rsp-packet-codec.cpp:264-289 | Waiting for the checksum, a turn makes progress exactly if two digits are contiguous. |
| RspSession.ChecksumComesIff | models/gdbserver/rsp-packet-codec.cpp:264-289 | A checksum that is waited for can still be read, in some continuation, exactly if its first digit is not in the last cell of the ring. |
| RspSession.CutForever | models/gdbserver/rsp-packet-codec.cpp:264-289 | If it is, nothing is read or reported any more, whatever arrives. |
| RspSession.ChecksumCanBeCut | models/gdbserver/rsp-packet-codec.cpp:264-289 | A run from the empty ring, of any size, that gets there. |
| RspPacket.FeedOverrunsIff | models/gdbserver/rsp-packet-codec.cpp:230-261 | However bytes arrive, the packet buffer is overrun exactly if some turn's part of the body does not fit behind what it holds. |
| RspSession.RunOverrunsIff | models/gdbserver/rsp-packet-codec.cpp:230-261 | The same for every run of arrivals and turns on the ring. |
| RspPacket.LongBodyOverrunsIff | models/gdbserver/rsp-packet-codec.cpp:230-261 | A body too long for the buffer is reported as an error exactly if an arrival ends at the buffer's length, and overruns it exactly if one skips that. |
| RspPacket.TwoArrivalsOverrun | models/gdbserver/rsp-packet-codec.cpp:230-261 | Two arrivals of 10000 characters from the start overrun it. |
| RspCodec.DeescapeInPlace | models/gdbserver/rsp-packet-codec.cpp:23-48 | Unescapes a buffer in place and leaves the rest of it alone. |
| RspCodec.ScanForHash | models/gdbserver/rsp-packet-codec.cpp:50-69 | Finds the first bare #, carrying the escape flag from block to block. |
| RspCodec.VerifyChecksum | models/gdbserver/rsp-packet-codec.cpp:71-82 | Accepts exactly the two hexadecimal digits of the sum of the bytes modulo 256. |
| RspCodec.EncodeInto | models/gdbserver/rsp-packet-codec.cpp:293-317 | Builds exactly the packet of the payload in the output buffer. |
| RspCodec.Codec.DecodeAll | models/gdbserver/rsp-packet-codec.cpp:185-291 | The decoder's turns on a ring, wrapped or not, deliver what the specification says and report an overrun exactly when it does. |
| RingBuffer.Ring.WriteCopy | models/gdbserver/circular-buffer.cpp:29-42 | The copying loop appends the specified result, over up to two blocks. |
| RingBuffer.CopyIsRightIff | models/gdbserver/circular-buffer.cpp:29-42 | It appends what it was given exactly if that fits the first free block, or by chance repeats itself: the second block is filled from the start again. |
| RingBuffer.CopyAlwaysRightIff | models/gdbserver/circular-buffer.cpp:29-42 | It appends what it was given whatever that is exactly if it fits the first free block, and a beginning of it whatever that is exactly if it fits or there is no second block. |
| RingBuffer.CopyGoesWrong | models/gdbserver/circular-buffer.cpp:29-42 | In a new ring of three or more characters, with all but one arrived and one taken, a copy of two different characters appends the first of them twice; smaller rings never have a second block. |
| RingBuffer.ArriveIs | models/gdbserver/circular-buffer.cpp:74-95 | What is written into the free block is appended to the contents, and adds nothing to a front block that wraps around. |
| RingBuffer.TakenIs | models/gdbserver/circular-buffer.cpp:97-104 | Reading takes characters off the front. |
| RingBuffer.BlockIsPrefix | models/gdbserver/circular-buffer.cpp:106-115 | The block at hand is a prefix of the contents, and all of them exactly if they do not wrap around. |
| RingBuffer.Ring.CommitWrite | models/gdbserver/circular-buffer.cpp:74-81 | Moves the tail and the full flag as specified. |
| RingBuffer.Ring.CommitRead | models/gdbserver/circular-buffer.cpp:97-104 | Moves the head and the full flag as specified. |
| RouterTree.TreeFindsLast | models/interco/router_impl.cpp:491-552 | For every base-ordered table, descent in the tree built by pairwise merging finds the last region that begins at or before the offset (the first if none), in at most ceil(log2 n) steps. |
| RouterTree.TreeAgreesWithScan | models/interco/router_impl.cpp:191-204 | On disjoint regions descent and the bounds check agree with a linear scan of the table. |
| RouterTree.TableFindsBest | models/interco/router_impl.cpp:135-162 | Whatever the order of registration, an offset finds the region that begins last before it, of equals the first registered. |
| RouterTree.TableIsSorted | models/interco/router_impl.cpp:135-162 | The table holds every registered region exactly once, in the order of the bases. |
| RouterRegistry.RegistrationIs | models/interco/router_impl.cpp:135-162 | After any registrations the table is that of the mappings with a size and something behind them; of those without a size the last is the default target, of those with nothing behind them the last is the error region. |
| RouterRegistry.ByteIsMappedIff | models/interco/router_impl.cpp:135-206 | As long as those do not overlap, a byte goes to a mapped region exactly if one of them contains it, and then to that one. |
| RouterTree.PiecesTile | models/interco/router_impl.cpp:183-320 | The pieces of an accepted request tile it exactly; those of any other tile its beginning. |
| RouterTree.PiecesAreRouted | models/interco/router_impl.cpp:183-320 | A piece stays in the region its first byte is in and goes where that region maps it. |
| RouterTree.StuckIff | models/interco/router_impl.cpp:262-319 | On disjoint regions a request makes no more progress exactly if one of its bytes, reached over mapped bytes only, lies a multiple of 2^32 before the end of its region. |
| RouterTree.StuckHappens | models/interco/router_impl.cpp:262-319 | A request of eight bytes that gets stuck. |
| RouterTree.SmallRegionsNeverBlock | models/interco/router_impl.cpp:262-319 | With regions smaller than 2^32 every request is forwarded completely or rejected. |
| RouterTree.ForwardedIsRightIff | models/interco/router_impl.cpp:269-274 | The forwarded address honours both offsets exactly if one of them is zero. |
| RouterBytes.BytesGoRightIff | models/interco/router_impl.cpp:164-274 | On disjoint regions every byte that is forwarded goes to the target and the address that it alone would go to, exactly if the request is not completed or no byte behind its first unmapped one is mapped or in the error region. |
| RouterBytes.MappedBytesGoAstray | models/interco/router_impl.cpp:206-262 | Eight bytes of which the last four are mapped all go to the default target. |
| RouterBytes.CompleteIff | models/interco/router_impl.cpp:164-331 | On disjoint regions a request is forwarded to its end exactly if its bytes are mapped, none a multiple of 2^32 before its region's end, up to the end or to one from which on the default target takes the rest. |
| RouterBytes.DefaultCompletesIff | models/interco/router_impl.cpp:206-274 | Where there is only the default target, a request of any size is forwarded to its end exactly if it is below 2^31 bytes. |
| RouterBytes.RejectedIff | models/interco/router_impl.cpp:206-331 | On disjoint regions a request is rejected, and then reported as invalid, exactly if a byte reached over mapped ones is in no region and either the rest lies in the error region or there is no default target. |
| RouterBytes.FailureIsHiddenIff | models/interco/router_impl.cpp:276-331 | On disjoint regions a failed piece can be reported as success exactly if the request is forwarded to its end, its first byte is mapped, and what is left of that byte's region, cut down to 32 bits, ends before the request does. |
| Router.InitEntries | models/interco/router_impl.cpp:491-552 | Relinking level by level builds exactly that tree. |
| Router.MergeOnce | models/interco/router_impl.cpp:500-545 | One level: neighbours merged two by two, an odd one kept at the end. |
| Router.LinkIn | models/interco/router_impl.cpp:140-155 | An entry is linked in before the first whose base is not below its own. |
| Router.Router.Insert | models/interco/router_impl.cpp:135-162 | Registration puts a region into the table, or makes it the error region or the default target. |
| Router.Router.Req | models/interco/router_impl.cpp:164-320 | The split loop forwards exactly the specified pieces and reports the specified status. |
| Router.Descent | models/interco/router_impl.cpp:191-199 | Following the tree's pointers finds the specified region. |
| Interleaver.EveryByteIsPlacedIff | models/interco/interleaver_impl.cpp:78-125 | With more than one bank, every byte of every request goes to the place of its flat offset exactly if the removed offset is a multiple of the block size. |
| Interleaver.NoPieceCrossesIff | models/interco/interleaver_impl.cpp:78-125 | No piece of any request crosses a block exactly under the same condition. |
| Interleaver.WriteIsFlat | models/interco/interleaver_impl.cpp:78-125 | Then a write through the banks is a write to one flat memory, byte by byte, wrap-around included. |
| Interleaver.ReadIsFlat | models/interco/interleaver_impl.cpp:78-125 | Then a read through the banks reads the flat memory. |
| Interleaver.JoinUndoesSplit | models/interco/interleaver_impl.cpp:93-94 | Every offset is recovered from its bank and local offset. |
| Interleaver.SplitUndoesJoin | models/interco/interleaver_impl.cpp:93-94 | Every bank and local offset are those of some offset: the map is a bijection. |
| Interleaver.StageBitsFit | models/interco/interleaver_impl.cpp:155-158 | The default number of stage bits never selects a missing bank, and reaches every bank exactly if their number is a power of two. |
| Interleaver.Req | models/interco/interleaver_impl.cpp:64-131 | The split loop sends exactly the specified pieces; any refusal but one that is pending on the last piece is an error; the request is restored exactly if all pieces were accepted. |
| Interleaver.RefillIsIdentityIff | generators/ips/cache/hierarchical_cache.py:56-61 | Interleaver followed by the refill of the first-level bank is the identity exactly on line-aligned addresses. |
| Interleaver.RefillsOwnLineIff | generators/ips/cache/hierarchical_cache.py:56-61 | A miss makes the bank fetch the line of its flat address exactly if the low bits, shifted like the rest, stay within a line. |
| BankedCache.LineReadIsFlat | generators/ips/cache/hierarchical_cache.py:46-83 | After any run of the banks (clean reads, refills answered at once or later, flushes), a read that starts a line, however long, gets the bytes of the one flat memory if the banks it is spread over answer its pieces at once and not out of the victim of a refill. |
| BankedCache.IdleBanksServe | generators/ips/cache/hierarchical_cache.py:46-83 | While no bank waits for a refill and the refill port answers at once, the banks answer every piece of every read at once. |
| BankedCache.WaitingLineReadIsFlat | generators/ips/cache/hierarchical_cache.py:46-83 | So does a piece that waits for its bank's refill, and one that waits behind it. |
| BankedCache.AsksForLinesIff | generators/ips/cache/hierarchical_cache.py:46-75 | All refills of a first-level cache in front of the interleaver start a line of the banks exactly if the banks' line length divides its own. |
| Interleaver.BypassIsIdentityIff | models/cache/cache_impl.cpp:531-534 | A bank that is switched off passes an access on to its flat address exactly if that is line-aligned or there is one bank. |
| ConverterModel.EveryRunIsRight | models/interco/converter_impl.cpp:83-215 | In every run requests are dealt with once each in the order they arrived; what was sent is the pieces of those done, in order, then the first of the ongoing one's; open and refused pieces add up to the ongoing size; the event is enqueued exactly when there is a piece, and not before the slave is ready. |
| ConverterModel.PiecesTileIff | models/interco/converter_impl.cpp:135-183 | The pieces of a request tile it exactly whenever the loop ends. |
| ConverterModel.SplittingEndsIff | models/interco/converter_impl.cpp:135-183 | The loop ends for every request exactly if the width is at least the alignment. |
| ConverterModel.PiecesFitIff | models/interco/converter_impl.cpp:135-183 | Every request is cut into pieces that each lie in one word exactly if the width equals the alignment. |
| ConverterModel.QuietIsDone | models/interco/converter_impl.cpp:83-134 | When nothing is left to send and the converter is not wedged, every request that arrived is done. |
| ConverterModel.EventDoesWork | models/interco/converter_impl.cpp:83-123 | Every run of the event brings the number of pieces left down by one. |
| ConverterTiming.ForwardedWholeIff | models/interco/converter_impl.cpp:166-183 | A request that arrives when idle is sent as it is exactly if it lies in one word; otherwise nothing is sent yet. |
| ConverterTiming.ReplyTells | models/interco/converter_impl.cpp:185-215 | A requester is told that it is done exactly if its request was sent as it is and the slave was done, that it is denied exactly if its request was put aside, and otherwise that the answer comes later. |
| ConverterTiming.FirstPieceIsDue | models/interco/converter_impl.cpp:124-134 | Otherwise its first piece is due in the next cycle, or when the slave is ready. |
| ConverterTiming.NextPieceIsDue | models/interco/converter_impl.cpp:83-134 | The next piece is due one cycle after the latency the slave gave for the last one, or at cycle 2^31-1 if it refused that. |
| ConverterTiming.SlaveIsLeftAlone | models/interco/converter_impl.cpp:83-134 | Over every run no piece is sent while the latency of an accepted one lasts. |
| ConverterModel.WedgesIff | models/interco/converter_impl.cpp:83-215 | The steps that wedge it: an empty word-aligned request arriving when idle or coming up next, or the last piece of a request of which a piece was refused. |
| ConverterModel.WedgedForever | models/interco/converter_impl.cpp:83-215 | Once wedged nothing is sent or answered any more. |
| ConverterModel.EmptyRequestWedges | models/interco/converter_impl.cpp:135-183 | A run of one request that wedges it. |
| ConverterModel.RefusalWedges | models/interco/converter_impl.cpp:83-123 | A refusal that wedges it, at a state reached from the start. |
| ConverterModel.WaitingEmptyWedges | models/interco/converter_impl.cpp:83-123 | A waiting empty request that wedges it when its turn comes. |
| Converter.Converter.ProcessPendingReq | models/interco/converter_impl.cpp:135-164 | Cutting up pushes the pieces onto the linked list as specified. |
| Converter.Converter.EventHandler | models/interco/converter_impl.cpp:83-123 | The event changes both linked lists and the counters as specified. |
| Converter.Converter.Request | models/interco/converter_impl.cpp:185-215 | Arrival stalls, forwards or cuts up the request as specified. |
| Converter.Converter.Stall | models/interco/converter_impl.cpp:195-206 | A stalled request is linked in at the end. |

## Left out

Weaker than the source, by member:

- Lxt2Trace.TraceReplays: bit strings only; double and string values, aliases, arrays of rows, blackout and dumpoff, partial mode, break files and the explicit flush are not modelled, and files are sequences of sections rather than bytes.
- Lxt2Writer.Writer.FlushGranule: the widths of the numbers written, file offsets and compression are not modelled.
- Lxt2Splay.Splay: the two copies of the tree in the source, with numeric and with string keys, are one generic procedure here.
- TlmBus.NoRunViolates: neighbours always answer TLM_ACCEPTED, as all three components do; address decoding and payload data are parameters or absent.
- TlmSystem.NoRunFaults: one initiator and one target, with END_REQ arriving before BEGIN_RESP; delays are left open otherwise, and the target's accesses to its memory array are not modelled.
- DdrAdmission.DeniedAreGrantedInOrder: response callbacks that fill the limit exactly are excluded here and covered by GrantFindsNobodyIff.
- ClockCalendar.EveryLifeIsPunctual: the period is constant (apply_frequency is not modelled), and an enqueue after the wheel was emptied from outside must meet the condition of EnqueueAfterEmptyingIff; punctuality is in cycles.
- ClockTime.EventsRunWhenAsked: an enqueue from outside off a clock edge is excluded, see EnqueueKeepsTimeIff and OffEdgeWakesEarly.
- ClockEngine.Engine.Enqueue: the wheel's slots and the overflow list are sequences of event numbers, so links between event objects are not modelled there.
- TimeEngine.Engine.RunLoop: the plain path without SystemC or SystemVerilog; locks, notifiers and signals are not modelled.
- TraceStream.NothingIsLost: the two threads are atomic steps at the mutex; a flush must leave room for its terminator, see FlushInvIff.
- TraceBuffers.EventBuffers.Flush: where there is no room for the terminator only that fact is recorded, not what is overwritten.
- TraceCodec.BufferRoundTrip: null events of string traces that have a length are excluded; NullStringIsMisread says what happens to them, and event_string never makes one.
- TraceEndToEnd.EventsReachTheFile: a null background value of a pulse, which would be copied from, is not modelled.
- RouterBytes.BytesGoRightIff: for disjoint regions and requests below 2^31 bytes.
- BankedCache.LineReadIsFlat: addresses are below 2^32, as in the banks' own arithmetic, and the interleaver takes away whole blocks only.
- TracePulses.PulseList.DumpEventPulse: string events are not part of the pulse model.
- CacheModel.EveryRunIsRight: requests are reads with a buffer, no longer than a line, whose refill fetches their own line, over memory unchanged since the last flush; EveryRequestIsKept has no such restriction. The bytes that an access longer than a line reaches behind the line are not modelled.
- CacheFlush.FlushLineForgets: lines of which the addresses wrap around, so that two of them can share bytes, are covered by FlushLineForgetsIff; so are other lines that changed.
- CacheModel.ServedReadIsRight: what is returned starts at the beginning of the line; LineStartIff says when that is the address asked for.
- RspPacket.PacketRoundTrip: run-length encoding is not modelled, the server switches it off.
- RspCodec.Codec.DecodeAll: when the packet buffer is overrun only that fact is reported, not what the copy destroys.
- RspCodec.EncodeInto: the output buffer must have room for the packet; the code does not check it.
- RingBuffer.Ring.WriteCopy: read_copy, which has the same flaw, is not modelled.
- RspWire.DeliveredIffSumMatches: for payloads whose packet fits the buffer.
- RouterTree.StuckIff: for disjoint regions; overlapping ones are covered by StuckAtPieceIff, in terms of where pieces begin.
- Router.Router.Req: an empty request, for which the code returns an unset variable, is excluded; unconnected ports, bandwidth, latency and counters are not modelled.
- Interleaver.Split: shifts and masks are written as quotients and remainders by powers of two.
- ConverterModel.EveryRunIsRight: the slave answers at once, response callbacks do not re-enter, the width is at least the alignment, and requests are below 2^31 bytes and stay within the address space.

Not modelled at all:

- Power tables and traces, and everything in floating point.
- Component building and binding, json configuration, loading of libraries, sockets, launchers, proxies and other input and output.
- VCD, FST and raw trace writers, and gtkwave generators.
- The rest of the GDB server, above all target.cpp and breakpoints.cpp.
- Plain memories, registers, signals, clock generators and the bus watchpoint, which would only add easy members.
- Cancelling elements of the queue, which the cache never does.
