# Sniper: traces, tools and scheduling, modelled and proved in Dafny

Sniper is a parallel x86 simulator. A frontend records what a program executes as a SIFT trace, a
backend replays it, and a set of scripts turns the results into profiles and stacks. This project
models the parts of that chain that are hard to get right and proves what they are for.

**SIFT traces** (`SiftRecords`, `SiftLayouts`, `SiftMemory`, `SiftReading`, `SiftWriting`,
`SiftRoundTrip`, `SiftTraces`, `SiftPhysical`, `SiftWriter`, `SiftReader`, `SiftReplay`). The writer
sends code bytes once per page or once per instruction, address translations once per page, and each
instruction in a short form when its address is the expected one. The reader dispatches on the first
byte, keeps page buffers filled in place, a cache of static instructions linked by set-once
successor pointers, a translation table and the current instruction set. `SiftWriter.Writer` and
`SiftReader.Reader` are these two objects; their methods are proved against the value-level
functions in `SiftWriting` and `SiftReading`. The main results are the whole-trace round trip with
the two machines in step after every call, code coverage at every decode, the object cache whose
successor pointers always lead to the map's object, framing, and first-frame address translation;
and, in the terms of the format and of the caller, packed record layouts in numbers, texts that
arrive as C strings, code that is sent exactly once, and the short form exactly for consecutive
instructions.

**Blocking requests** (`SiftProtocol`, `SiftAnswers`). Sync, Syscall, Magic and Emulate calls with
nested memory accesses, as a state machine over two byte channels in which every write may arrive in
pieces. Over every run: answers of the type and size that the call expects, no errors, no deadlock,
a bound on the steps of a call, quiet channels after return; and, for any access at all, what comes
of it byte by byte, which is service exactly if the request is serviceable.

**Call-graph tools** (`CallGraph`, `Tarjan`, `ProfileCycles`, `CallRatios`, `ProfileRatios`,
`OpenedCycles`, `CyclePartials`, `CycleDivision`, `CallStacks`, `ProfileTotals`, `CallProfile`).
Strongly connected components with numbering that restarts per root; ratios of functions and of
cycles with memoised propagation, whose totals conserve the self values with or without cycles; the
division of a cycle's total from each of its entries, and exactly when its assertions let the
analysis come to an end; and bottom-up totals with stub folding, as sums over the lines of a trace
whose text continues the call's.

**JSON** (`Json`, `JsonReading`, `JsonRoundTrip`, `JsonLayouts`, `JsonObjects`). The small reader
and writer the scripts share: for every value, what is written reads back, if and only if no number
runs on; and so does any other text of it, with blanks, comments and escapes wherever they are
allowed.

**Scheduling** (`SchedulerModel`, `SchedulerScores`, `SchedulerWork`, `SchedulerObjects`). The
locality scheduler: one thread per core, only allowed cores, only runnable threads, over every run;
least-score selection; scores that grow exactly as a thread's metric does; and when a core stands
idle while a thread waits.

**Smaller pieces** (`CycleStacks`, `StackThresholds`, `CommandLine`, `BasicBlockVectors`,
`ConfigText`). Conservation of merged cycle stacks and exactly what they show, the in-place
command-line splitter, the basic-block-vector projection, and configuration text. `Options`,
`Bytes`, `Lists`, `Sums` and `RealSums` are shared vocabulary.

Where the code falls short of what one would expect of it, the model keeps the code and states when:

- A scheduler run stays safe if and only if no thread is started on a core in use
  (`SchedulerModel.RunSafeIff`); a resume of a thread that never stalled can lead there
  (`SchedulerModel.SpuriousResumeBreaksSafety`).
- In a safe run that starts every thread once, no core stands idle while a thread waits if and only if
  no thread is started after the first hand-out while a core is free (`SchedulerWork.RunBusyIff`,
  `SchedulerWork.LateStartHappens`).
- A waiting call returns on a record of its answer's size if and only if the record has its answer's
  type; an emulation call can also return on bytes inside a memory request that nobody serves
  (`SiftAnswers.AnswerTypeIff`, `SiftAnswers.HiddenAnswer`).
- A nested memory access is served if and only if it has a handler, a valid operation, a size above
  zero and a record size that does not wrap (`SiftProtocol.ServedIffServiceable`). Otherwise the call
  hangs, unless a write's payload, left in the channel, is taken for the next response
  (`SiftProtocol.UnservedFate`, `SiftProtocol.StrayBytes`).
- The writer's page loop ends if and only if its last page is not the topmost one
  (`SiftWriting.PageLoopEndsIff`). For an instruction that wraps past the top of the address space
  the last page is page zero, so the loop ends at once and sends nothing.
- A JSON value reads back if and only if no number runs on (`JsonRoundTrip.RoundTrip`).
- The roots of a call graph hold more than all self values by exactly the stated excess, for
  components with nothing coming in (`CallRatios.RootsHoldOwn`, `CallRatios.ExcessHappens`).
- The analysis of a call graph without negative values succeeds if and only if, at every function
  where a cycle is entered, the cycle has a total of zero, or a part of that total leaves there and
  what arrives is at most a thousandth too much (`CycleDivision.AnalysisHoldsIff`). Nothing leaves
  there, and the source divides by zero, if and only if no call that enters there carries the event,
  or those that do have none of a positive total (`CallRatios.EntryRatioZeroIff`,
  `CycleDivision.SilentEntry`).
- For plain names, every component of a stack has its column if and only if each is a top-level item
  or has the label of a part directly under its stack (`CycleStacks.ListedIffPart`); without
  collapsing, if and only if no part lies below the second level (`CycleStacks.ListedIffShallow`).
- A key name comes back if and only if it needs quotes or has no backslash (`ConfigText.SaveName`).
- The number of calls of a folded profile falls short by exactly the calls of the folded stubs
  (`CallProfile.TotalIsDataPlusChildren`).

## Model

| member | source | states |
|---|---|---|
| `SiftRecords.Parse` | sift/sift_reader.cc:200-538 | a record always consumes input and is well formed, and running out of input is told apart from a broken record |
| `SiftRecords.ParseEncode` | sift/sift_format.h:47-89 | framing: for every record and whatever follows it, the reader's dispatch on the first byte finds that record and consumes exactly its bytes |
| `SiftLayouts.SimpleLayout` | sift/sift_format.h:56-62 | the short form is the packed structure: 4 bits of size, 2 of the number of addresses, a bit each for branch and taken, then the addresses |
| `SiftLayouts.ExtLayout` | sift/sift_format.h:67-77 | so is the full form, with its four zero bits, six flag bits and its own address |
| `SiftLayouts.OtherLayout` | sift/sift_format.h:82-87 | and every other record: a zero byte, the type, 32 bits of size, the data |
| `SiftLayouts.PackedConcat` | sift/sift_format.h:49-89 | packing fields from the lowest bit up into little-endian bytes: whole bytes of first fields come first |
| `SiftLayouts.CallLayout` | sift/sift_writer.cc:831-899 | type code, size and field order of each record that a call other than an instruction ends with, in numbers |
| `SiftLayouts.PageLayout` | sift/sift_writer.cc:229-245 | a page of code: type 0, 4104 bytes |
| `SiftLayouts.CodeLayout` | sift/sift_writer.cc:190-218 | the code of one instruction: type 11 |
| `SiftLayouts.TranslationLayout` | sift/sift_writer.cc:1056-1087 | a translation: type 14, page number and frame |
| `SiftLayouts.EndLayout` | sift/sift_format.h:121 | the end: type 255, no data |
| `SiftLayouts.SizesAccepted` | sift/sift_reader.cc:208-490 | for every type, the sizes that the reader's assertions accept, in numbers |
| `SiftLayouts.TypesRead` | sift/sift_reader.cc:208-500 | exactly which types reach the backend as requests, and which are skipped by their size |
| `SiftLayouts.TooManyAddresses` | sift/sift_reader.cc:505-541 | both forms refuse three addresses, and nothing else for that reason |
| `SiftMemory.ScatterBytes` | sift/sift_reader.cc:230-258 | the page-splitting loop puts every byte where it belongs, creates the pages it needs and leaves every other byte of every page alone |
| `SiftMemory.GatherBytes` | sift/sift_reader.cc:669-687 | gathering succeeds exactly when every page it touches is present, and yields the bytes of those addresses, also across a page border |
| `SiftReading.RunEncoded` | sift/sift_reader.cc:198-500 | reading the bytes of any records does what the records say, one by one |
| `SiftReading.RunConcat` | sift/sift_reader.cc:198-559 | a trace is read in two parts as it is read in one, unless the first part ends or fails |
| `SiftReading.UnhandledRecordsAreInvisible` | sift/sift_reader.cc:491-497 | inserting records with unhandled type codes anywhere changes nothing that is decoded, nor any state |
| `SiftReader.Reader.GetStaticInstruction` | sift/sift_reader.cc:697-725 | the object cache with its set-once successor pointers: whichever way an object is found, it is the one the map holds for the address, every pointer still leads to the map's object, and the state is that of the value-level lookup |
| `SiftReading.LookupRefinesMap` | sift/sift_reader.cc:697-725 | on values, where a pointer is the address it leads to: the lookup agrees with the plain map and changes nothing else |
| `SiftReading.ReadNext` | sift/sift_reader.cc:187-564 | one read keeps the successor pointers consistent with the map, and makes progress whenever it returns an instruction |
| `SiftReading.ReadNextIsRunPrefix` | sift/sift_reader.cc:187-564 | repeated reads see exactly the items of the whole trace, in order, and then its ending |
| `SiftRoundTrip.RunCode` | sift/sift_writer.cc:190-247 | after the code records of an instruction the reader knows every byte the writer has sent, and among them all bytes of the instruction, in both modes |
| `SiftRoundTrip.DecodeYieldsCode` | sift/sift_reader.cc:669-687 | every page a decode needs is present and the gathered bytes equal code memory |
| `SiftRoundTrip.LookupYieldsCode` | sift/sift_reader.cc:697-725 | every cached instruction, found by any way, equals a fresh decode of code memory |
| `SiftRoundTrip.RunInstruction` | sift/sift_writer.cc:180-317 | the records of one instruction call make the reader deliver exactly that instruction and keep both machines in step |
| `SiftRoundTrip.RunCall` | sift/sift_writer.cc:366-427 | the same for every kind of call: what is delivered, the two expected addresses, tables and code bytes stay in agreement, and the instruction set follows |
| `SiftRoundTrip.RoundTrip` | sift/sift_reader.cc:187-564 | whole trace: for every list of calls ended by End, reading yields exactly the written instructions and events in order, each with the latest instruction set, and then the end |
| `SiftTraces.SentIs` | sift/sift_writer.cc:857-872 | a text is sent with its terminator, cut off where the 16-bit length wraps |
| `SiftTraces.RoutinesArrive` | sift/sift_writer.cc:850-874 | over any trace, the announced routines arrive in order, with the C strings that were passed |
| `SiftTraces.CodeSentOnce` | sift/sift_writer.cc:190-247 | over any trace and in both modes, code is sent exactly once if some instruction needs it, and never otherwise |
| `SiftTraces.ShortIffConsecutive` | sift/sift_writer.cc:257-308 | after any calls, an instruction takes one byte and its addresses if it starts where the last one ended and has no predicate, and ten bytes and its addresses otherwise |
| `Bytes.Signed32` | sift/sift_reader.cc:482-490 | the signed 32-bit number that differs from the one sent by a multiple of 2^32 |
| `SiftPhysical.SentAtMostOnce` | sift/sift_writer.cc:1056-1087 | over any trace a page translation is sent once if some lookup found a frame, and never otherwise |
| `SiftPhysical.TranslationIsFirstFrame` | sift/sift_reader.cc:805-826 | when an instruction has been returned, each of its addresses translates to the first frame found for its page, for ever after, or to zero if none was found |
| `SiftWriter.Writer.constructor` | sift/sift_writer.cc:38-104 | a new writer has written the header and nothing else |
| `SiftWriting.PageLoopEndsIff` | sift/sift_writer.cc:222 | with 64-bit wrap-around, from any first page, also one beyond the last, the page loop ends if and only if its last page is not the topmost one |
| `SiftWriter.Writer.SendPages` | sift/sift_writer.cc:222-246 | the page loop ends and has written exactly the pages of the instruction that were not sent before |
| `SiftWriter.Writer.SendInstructionBytes` | sift/sift_writer.cc:190-218 | the bytes of an instruction are written the first time its address occurs |
| `SiftWriter.Writer.SendTranslation` | sift/sift_writer.cc:1056-1087 | a page is looked up until a frame is found, which is then sent and remembered |
| `SiftWriter.Writer.SendTranslations` | sift/sift_writer.cc:253-255 | the instruction address and all dynamic addresses are translated in order |
| `SiftWriter.Writer.WriteInstruction` | sift/sift_writer.cc:257-308 | the short form exactly when the address is the expected one and there is no predicate, the full form otherwise; the expected address moves on, wrapping at 64 bits |
| `SiftWriter.Writer.Instruction` | sift/sift_writer.cc:180-317 | output and state become what the value-level writer says; a closed writer writes nothing |
| `SiftWriter.Writer.CacheOnly` | sift/sift_writer.cc:366-400 | translations, then the record |
| `SiftWriter.Writer.Output` | sift/sift_writer.cc:402-427 | the output record |
| `SiftWriter.Writer.RoutineChange` | sift/sift_writer.cc:831-848 | the routine record |
| `SiftWriter.Writer.RoutineAnnounce` | sift/sift_writer.cc:850-874 | three texts with 16-bit lengths and the place in the image |
| `SiftWriter.Writer.ISAChange` | sift/sift_writer.cc:876-899 | the instruction-set record |
| `SiftWriter.Writer.End` | sift/sift_writer.cc:116-160 | the end record, once |
| `SiftReader.Reader.GatherCode` | sift/sift_reader.cc:669-687 | the copying loop over pages computes the value-level gather, or reports the missing page |
| `SiftReader.Reader.AddStaticInstruction` | sift/sift_reader.cc:712-716 | a new object enters the map under its address and no successor pointer changes |
| `SiftReader.Reader.FindStaticInstruction` | sift/sift_reader.cc:699-716 | the object found is the map's object for the address |
| `SiftReader.Reader.StoreChunk` | sift/sift_reader.cc:240-256 | one round of the page-splitting loop, in place in the page buffer |
| `SiftReader.Reader.ScatterInput` | sift/sift_reader.cc:230-258 | the in-place loop consumes its bytes and leaves the pages of the value-level scatter |
| `SiftReader.Reader.StorePage` | sift/sift_reader.cc:220-229 | a whole page replaces what was there |
| `SiftReader.Reader.ReadBody` | sift/sift_reader.cc:220-490 | every other record consumes exactly its declared size and has its value-level effect |
| `SiftReader.Reader.ReadAnnounce` | sift/sift_reader.cc:457-481 | the three texts and the numbers are read back, and a cut-off record is reported |
| `SiftReader.Reader.ReadSimple` | sift/sift_reader.cc:505-522 | the one-byte form yields the instruction at the expected address |
| `SiftReader.Reader.ReadExt` | sift/sift_reader.cc:523-541 | the full form yields its own address and moves the expected one |
| `SiftReader.Reader.ReadOther` | sift/sift_reader.cc:208-500 | dispatch on the type code |
| `SiftReader.Reader.ReadRecord` | sift/sift_reader.cc:200-558 | one record does what parsing and applying it say |
| `SiftReader.Reader.Read` | sift/sift_reader.cc:187-564 | one call of Read is one value-level read: same result, same state, same rest of the input; after the end it returns true and changes nothing |
| `SiftReplay.HeaderRoundTrip` | sift/sift_reader.cc:108-157 | opening a written trace finds the written options and exactly the body |
| `SiftReplay.HeaderBytes` | sift/sift_format.h:24-47 | the header byte by byte: "SIFT", no extra header, and the option bits |
| `SiftReplay.WithoutFrames` | sift/sift_reader.cc:805-826 | a recording without frames is opened as one, and every address stands for itself |
| `SiftReplay.Record` | sift/sift_writer.cc:38-317 | a writer object driven by any list of calls produces the header and the value-level trace |
| `SiftReplay.Dump` | sift/siftdump.cc:67-99 | for any bytes at all, a reader object driven in a loop yields the items and the ending of the value-level run |
| `SiftReplay.RecordAndDump` | sift/siftdump.cc:67-99 | recording any list of calls and dumping the trace shows exactly what was recorded |
| `SiftProtocol.FramePrefix` | sift/sift_reader.cc:314-443 | after any part of a call's record has arrived, the backend still needs bytes exactly as long as some are outstanding, and never asks for more |
| `SiftProtocol.RequestPrefix` | sift/sift_writer.cc:906-1005 | a serviceable request is read to its last byte and no further, in whatever pieces it arrives, and is then served as it was sent |
| `SiftProtocol.AnswerPrefix` | sift/sift_writer.cc:628-682 | so is the answer to each of the four calls, which then returns it |
| `SiftProtocol.ReplyPrefix` | sift/sift_reader.cc:566-667 | AccessMemory reads exactly the response to its own request and accepts it with the payload sent, also where the size field wraps |
| `SiftProtocol.StepKeepsPhase` | sift/sift_writer.cc:628-682 | every step of either side, with data arriving in any pieces, keeps the two sides in one of the legal phases of a call |
| `SiftProtocol.NoErrors` | sift/sift_writer.cc:779-829 | in no legal phase does the frontend meet a record that it skips, gives up on or aborts at |
| `SiftProtocol.Safety` | sift/sift_writer.cc:492-568 | over every run: each call is answered once and by an answer to it, each nested access gets the response to its own request, nothing fails, and both channels are empty when a call has returned |
| `SiftProtocol.NoDeadlock` | sift/sift_writer.cc:729-777 | over every run: while a call is in progress some side can step, and otherwise a call can start |
| `SiftProtocol.StepSpends` | sift/sift_reader.cc:314-443 | every step of either side spends from a budget that only a new access can raise, by its own cost |
| `SiftProtocol.CallReturns` | sift/sift_writer.cc:492-568 | every call returns: over any run the number of steps is bounded by the cost of the call and of its nested accesses, and until it has returned a step other than a new access is possible |
| `SiftProtocol.AccessMeetsItsFate` | sift/sift_writer.cc:906-1005 | after any access, serviceable or not, every run leads to the one end that the bytes of the request determine, by the step and on the record it names, within a bounded number of steps |
| `SiftProtocol.HeadingGoesOn` | sift/sift_writer.cc:628-682 | as long as that end is not met a step is possible; a call that hangs ends in a state without any |
| `SiftProtocol.HangsForGood` | sift/sift_reader.cc:566-667 | a request that hangs is never answered, and neither side returns, in any run |
| `SiftProtocol.ServedIffServiceable` | sift/sift_writer.cc:919-1004 | a request is served, whole and as it was sent, if and only if it is serviceable |
| `SiftProtocol.UnservedFate` | sift/sift_writer.cc:919-1004 | without a payload an unserved request hangs; without a handler the payload of a write is read as the next responses; of a write whose size field wraps, with a handler or without, all but the header is |
| `SiftProtocol.StrayBytes` | sift/sift_writer.cc:541-563 | what each of the four calls does with bytes that were never meant for it, with a handler or without, record by record: hang, serve a memory request among them, give up, abort, skip or return them |
| `SiftProtocol.PayloadTakenForAnswer` | sift/sift_writer.cc:928-931 | a write without a handler whose payload looks like an answer makes the call return that payload |
| `SiftAnswers.ReturnsIff` | sift/sift_writer.cc:541-563 | exactly the bytes on which each call returns: types 3, 13, 16 and 20, sizes 8, 4, 8 and at most 49 |
| `SiftAnswers.BackAnswersWith` | sift/sift_reader.cc:728-770 | what the backend writes for each call: types 13, 3, 16 and 20 with 4, 8, 8 and 49 bytes |
| `SiftAnswers.ReturnedOnItsAnswer` | sift/sift_writer.cc:628-682 | over every run: a call returns on one whole record of its answer's type and size, with the value given to it |
| `SiftAnswers.OtherAnswers` | sift/sift_writer.cc:741-776 | no call returns on the answer to another kind of call: it gives up, aborts, or skips the header |
| `SiftAnswers.AnswerTypeIff` | sift/sift_writer.cc:791-828 | among records of the expected size, a call returns on those of its answer's type and on no other; the one way to return on bytes inside another record, and when it happens |
| `SiftAnswers.HiddenAnswer` | sift/sift_writer.cc:919-931 | a concrete family of such records |
| `SiftAnswers.ExchangeLayout` | sift/sift_reader.cc:566-616 | the records of calls, memory requests and responses, field by field, in numbers |
| `SiftAnswers.ServiceableIff` | sift/sift.h:27-32 | serviceable in numbers: operation 1 reads, 2 writes, and the largest size of a write |
| `Tarjan.CallCallee` | tools/gprof2dot.py:394-396 | returning from a recursive visit keeps the search invariant with the lower of the two lowlinks |
| `Tarjan.BackCallee` | tools/gprof2dot.py:397-398 | an edge to a function on the stack keeps the search invariant |
| `Tarjan.SegmentIsComponent` | tools/gprof2dot.py:399-401 | when a lowlink equals its own number, the top of the stack is exactly the set of functions that reach it and are reached by it |
| `Tarjan.PopVisited` | tools/gprof2dot.py:399-402 | popping that segment keeps everything the callers rely on |
| `Tarjan.StayVisited` | tools/gprof2dot.py:399-407 | so does leaving it on the stack |
| `ProfileCycles.Profile.AddFunction` | tools/gprof2dot.py:275-283 | the function joins the cycle and no other does: the loop over its previous cycle never reaches the recursive call that would merge that cycle |
| `ProfileCycles.Profile.MarkComponent` | tools/gprof2dot.py:403-406 | a component of several functions becomes one cycle object that lists exactly them, replacing any earlier one |
| `ProfileCycles.Profile.PopComponent` | tools/gprof2dot.py:401-406 | the segment is popped, and all its functions have their cycle if they need one |
| `ProfileCycles.Profile.Visit` | tools/gprof2dot.py:378-407 | the recursive visit: search invariant, lowlinks of others untouched, cycles correct |
| `ProfileCycles.Profile.SearchFrom` | tools/gprof2dot.py:318-319 | a search from one root, with numbering started afresh, finishes every function it reaches and keeps earlier cycles right |
| `ProfileCycles.Profile.FindCycles` | tools/gprof2dot.py:312-329 | two functions share a cycle object exactly when each reaches the other, a function has one exactly when it has a partner, and the list of cycles is without repetition and complete |
| `CallRatios.Ratio` | tools/gprof2dot.py:82-96 | always between zero and one, an exact fraction when numerator and denominator are in order, and one for a zero denominator |
| `CallRatios.RatioCutOff` | tools/gprof2dot.py:90-96 | of a positive denominator: zero for a negative numerator, one for a larger one |
| `CallRatios.IncomingShares` | tools/gprof2dot.py:409-448 | for every function outside cycles, and for every cycle as a whole: the ratios of the calls that enter it add up to one if and only if something positive comes in or one of them carries the event; with nothing coming in, each carrier gets everything |
| `CallRatios.InsideShares` | tools/gprof2dot.py:438-445 | calls within a cycle are shares of all that comes into their callee, from inside and outside |
| `CallRatios.EntryRatioZeroIff` | tools/gprof2dot.py:518-540 | the share of a cycle's total that leaves through one of its functions, by which the assertion on the division divides, is zero if and only if each call that enters there is without the event, or has none of it while a positive total enters the cycle |
| `CallRatios.KeptIsOwn` | tools/gprof2dot.py:483-516 | for any graph and any ratios under which the totals balance: summed over functions outside cycles and cycles, totals less what callers take of them equal the self values |
| `CallRatios.RootsHoldOwn` | tools/gprof2dot.py:450-516 | under any totals that balance, with cycles or without: the totals of the functions and cycles into which no outside call carries the event add up to all self values, plus exactly one extra copy of the total of a component with nothing coming in per further carrier |
| `CallRatios.ExcessHappens` | tools/gprof2dot.py:84-88 | a concrete profile whose roots hold more than all self values |
| `ProfileRatios.Profile.AddCalls` | tools/gprof2dot.py:421-430 | one function's calls add to the totals of their callees and of the cycles they enter, and to no others |
| `ProfileRatios.Profile.IncomingTotals` | tools/gprof2dot.py:410-430 | pass one computes the function totals and the cycle totals |
| `ProfileRatios.Profile.SetRatios` | tools/gprof2dot.py:435-448 | pass two sets each ratio of one function once, of the cycle total where the call enters a cycle and of the function total otherwise |
| `ProfileRatios.Profile.CallRatios` | tools/gprof2dot.py:409-448 | on every profile, every call of another function has its ratio, and no other |
| `ProfileRatios.Profile.IntegrateFunction` | tools/gprof2dot.py:483-493 | the memoised recursion: a finished function or cycle keeps its total, every finished total balances, and what is being integrated is not entered again |
| `ProfileRatios.Profile.IntegrateCycle` | tools/gprof2dot.py:503-516 | the total of a cycle is the own values of its functions plus their shares of what they call outside it |
| `ProfileRatios.Profile.IntegrateCalls` | tools/gprof2dot.py:508-514 | the loop over the calls of one function takes in exactly those that leave its component |
| `ProfileRatios.Profile.IntegrateCall` | tools/gprof2dot.py:495-501 | the call has no value yet, and gets its share of the callee's total |
| `ProfileRatios.Profile.Integrate` | tools/gprof2dot.py:450-481 | every total balances, every call between components has been integrated exactly once, the profile's total is the sum of self values, and the roots conserve it; whether the assertions inside cycles let the source get there is the subject of `CycleDivision.Analyse` |
| `ProfileRatios.OneSolution` | tools/gprof2dot.py:450-516 | the balance determines every total |
| `CycleDivision.RankFrom` | tools/gprof2dot.py:544-551 | the recursion that lowers ranks keeps every ranked function called by one of lower rank, and leaves no call of a finished function that raises the rank by more than one |
| `CycleDivision.RankCycle` | tools/gprof2dot.py:544-551 | every function of the cycle is ranked, by its distance from the entry |
| `CyclePartials.RankIsDistance` | tools/gprof2dot.py:544-551 | a rank is at most n if and only if the function is reached from the entry by at most n calls within the cycle |
| `CycleDivision.CollectRatios` | tools/gprof2dot.py:553-562 | the recursion over the calls that raise the rank adds up, for every function, the ratios of all such calls that come into it, each once |
| `CycleDivision.PartialFrom` | tools/gprof2dot.py:564-588 | the memoised recursion: every finished partial total is the entry's share of what the function has of its own and from outside the cycle, plus its shares of what it calls further from the entry |
| `CycleDivision.EntryRatios` | tools/gprof2dot.py:518-527 | exactly the functions at which the cycle is entered, each with the sum of the ratios of the calls that enter there |
| `OpenedCycles.EntryHolds` | tools/gprof2dot.py:564-588 | what arrives at the entry is all that the functions of the cycle bring in, plus one more copy of the partial total of a function with nothing coming in for every further caller it has |
| `OpenedCycles.EntryIsMost` | tools/gprof2dot.py:539 | without negative values no function has a larger partial total than the entry |
| `CyclePartials.OpenedOwn` | tools/gprof2dot.py:564-573 | all that the functions of a cycle bring in is the entry's share of the cycle's total |
| `CyclePartials.DivisionHoldsIff` | tools/gprof2dot.py:539-540 | without negative values both assertions about an entry hold if and only if the cycle has a total of zero, or its share at the entry is not zero and the surplus is at most a thousandth of it |
| `CyclePartials.SurplusPositive` | tools/gprof2dot.py:539-540 | there is no surplus unless a function with nothing coming in has several callers |
| `CycleDivision.DivideFrom` | tools/gprof2dot.py:532-540 | the partial totals from one entry, and whether its assertions hold |
| `CycleDivision.Divide` | tools/gprof2dot.py:517-540 | a cycle is divided once for each of its entries; the result is positive if and only if all assertions hold |
| `CycleDivision.Analyse` | tools/gprof2dot.py:1980-1983 | finding cycles, computing ratios, propagating and dividing compose: the profile is balanced and every cycle divided from every entry, and it tells whether all assertions hold |
| `CycleDivision.AnalysisHoldsIff` | tools/gprof2dot.py:503-542 | without negative values they do if and only if every entry is sound, as in `CyclePartials.DivisionHoldsIff` |
| `CycleDivision.SilentEntry` | tools/gprof2dot.py:540 | a concrete profile, a cycle of two functions entered by one call without data: whatever partial totals there are, the division by zero happens whenever the own values of the two do not add up to zero |
| `CallStacks.ForestSum` | tools/gen_profile.py:153-156 | a sum over all calls is the sum over the roots of the sums over their subtrees |
| `CallStacks.FoldedSum` | tools/gen_profile.py:46-53 | folding loses nothing: a subtree is its root, the stubs swallowed by it, and the subtrees of the calls shown below it, each exactly once, through chains of stubs of any length |
| `CallStacks.ParentOfFrame` | tools/gen_profile.py:150 | the parent of any stack with one more frame is that stack |
| `CallStacks.ParentOfOne` | tools/gen_profile.py:150 | a stack of one frame has no parent |
| `CallStacks.UnderIffPrefix` | tools/gen_profile.py:141-156 | a call lies below another if and only if its text continues the other's at a colon and no stack cut out at a colon between them is missing |
| `CallStacks.SubtreeIffPrefix` | tools/gen_profile.py:141-156 | in a set of calls with all their callers: if and only if its text continues the other's |
| `ProfileTotals.VisitOne` | tools/gen_profile.py:161-164 | one round of the worklist keeps children before parents and repeats nothing |
| `ProfileTotals.AddChild` | tools/gen_profile.py:43-53 | one child, folded or not, extends totals, data and shown children as specified |
| `CallProfile.Profile.AddLine` | tools/gen_profile.py:141-151 | a line adds to its call, or creates it under its parent |
| `CallProfile.Profile.FindRoots` | tools/gen_profile.py:153-156 | the roots are the calls whose parent is no call, and every removal finds its element |
| `CallProfile.Profile.VisitOrder` | tools/gen_profile.py:158-164 | every call exactly once, children before their parents |
| `CallProfile.Profile.BuildTotal` | tools/gen_profile.py:35-55 | one call, given its children are done: whole-subtree total, data with the swallowed stubs, children as shown, grand totals |
| `CallProfile.Profile.BuildTotals` | tools/gen_profile.py:165-169 | the pass turns the loaded lines into the finished profile |
| `CallProfile.Profile.constructor` | tools/gen_profile.py:115-169 | for every trace: each total is the sum of the lines at or below the call, each data the sum of its own lines and those of the stubs folded into it, each grand total the sum of all lines |
| `CallProfile.TotalIsDataPlusChildren` | tools/gen_profile.py:41-53 | each total is the call's data plus the totals of the children shown under it; only the number of calls falls short, by exactly the calls of the folded stubs |
| `CallProfile.TotalIsSumWithin` | tools/gen_profile.py:35-55 | each total is the sum over the lines of the trace whose stack is the call's or continues it |
| `CallProfile.WithinIffPrefix` | tools/gen_profile.py:141-151 | in a trace that leaves no caller out, those are the lines whose text starts with the call's |
| `CallProfile.RootsHoldTotals` | tools/gen_profile.py:38-40 | the grand total of every metric is the sum of the roots' totals |
| `Json.ChainIsPerCharacter` | tools/localjson.py:326-334 | the chain of replacements over the whole string equals one escape per character, in both slash modes |
| `JsonRoundTrip.StringRead` | tools/localjson.py:164-194 | every string reads back from its escaped form |
| `JsonRoundTrip.ValueRead` | tools/localjson.py:92-115 | wherever a value's text stands in a longer text, it is read there and reading stops behind it |
| `JsonRoundTrip.RoundTrip` | tools/localjson.py:302-348 | for every value and every suffix, the value is read back and the suffix left, if and only if the suffix does not carry on a number |
| `JsonRoundTrip.NumberRunsOn` | tools/localjson.py:143-162 | a number followed by a character of a number is never read back as it was |
| `JsonLayouts.LayoutSkipped` | tools/localjson.py:276-283 | any run of the six blanks and of comments of both kinds is skipped |
| `JsonLayouts.SpelledRead` | tools/localjson.py:164-203 | a string reads back however its characters are spelled: as themselves, by short escapes, or by four hexadecimal digits in either case |
| `JsonLayouts.LayoutsRead` | tools/localjson.py:92-283 | any text of a value, with any layout and spelling, followed by anything, is read as that value and to its end, if and only if it is not a number that the text carries on |
| `JsonLayouts.PutIs` | tools/localjson.py:267 | assigning an entry changes the value of its key and no other, moves no key, and appends a new one |
| `JsonObjects.Reader.EatWhitespace` | tools/localjson.py:276-283 | blanks and both kinds of comments are skipped as specified, and an unfinished comment is reported |
| `JsonObjects.Reader.ReadWord` | tools/localjson.py:117-141 | the literals |
| `JsonObjects.Reader.ReadInt` | tools/localjson.py:143-162 | digits up to the first character that is none |
| `JsonObjects.Reader.ReadText` | tools/localjson.py:164-194 | strings with all escapes, or the error |
| `JsonObjects.Reader.ReadList` | tools/localjson.py:236-250 | lists |
| `JsonObjects.Reader.ReadDict` | tools/localjson.py:252-274 | objects, a later entry replacing an earlier one of the same key |
| `JsonObjects.Reader.Read` | tools/localjson.py:92-115 | the recursive reader moves its position and returns as the value-level reader says, errors included |
| `JsonObjects.Writer.WriteString` | tools/localjson.py:324-336 | the quoted and escaped string is appended |
| `JsonObjects.Writer.Write` | tools/localjson.py:302-348 | the value's text is appended |
| `JsonObjects.WriteThenRead` | tools/localjson.py:350-354 | what is written reads back as the same value |
| `SchedulerModel.StartSafeIff` | scripts/scheduler-locality.py:68-76 | starting a thread keeps one thread per core if and only if the core handed out is not in use |
| `SchedulerModel.StallSafe` | scripts/scheduler-locality.py:78-94 | a stall or exit, with its core handed over, keeps safety |
| `SchedulerModel.ResumeSafe` | scripts/scheduler-locality.py:96-107 | a resume keeps safety |
| `SchedulerModel.PeriodicSafe` | scripts/scheduler-locality.py:109-135 | rebalancing keeps safety |
| `SchedulerModel.StepSafe` | scripts/scheduler-locality.py:68-135 | once the initial cores are handed out, every event keeps safety |
| `SchedulerModel.StepGood` | scripts/scheduler-locality.py:68-107 | while they are being handed out, every event keeps the cores still to come free, if only stalled threads resume and a resume takes the earliest free core |
| `SchedulerModel.StepSafeIff` | scripts/scheduler-locality.py:68-135 | from a safe state, any event leads to a safe state if and only if it is no start on a core in use |
| `SchedulerModel.RunSafeIff` | scripts/scheduler-locality.py:68-135 | over every run: all states are safe if and only if no start during the hand-out is given a core that another thread uses |
| `SchedulerModel.RunSafe` | scripts/scheduler-locality.py:68-135 | over every run in which only stalled threads resume and take the earliest free core, at every point: at most one thread per core, only allowed cores, only runnable threads on cores |
| `SchedulerModel.SpuriousResumeBreaksSafety` | scripts/scheduler-locality.py:96-107 | a concrete run in which a resume of a running thread leads to two threads on one core |
| `SchedulerModel.HoldersAreSelected` | scripts/scheduler-locality.py:119-135 | after the moves exactly the selected threads hold cores, and those that kept one keep the same |
| `SchedulerModel.PeriodicSelects` | scripts/scheduler-locality.py:109-135 | after rebalancing the holders are as many runnable threads as cores allow, with least scores at selection time |
| `SchedulerScores.StepKeepsBase` | scripts/scheduler-locality.py:23-31 | over every step: a thread's score grows exactly as its metric does, unless the thread is started or woken |
| `SchedulerScores.PeriodicUpdates` | scripts/scheduler-locality.py:109-111 | after the periodic callback the score of every thread that was on a core counts its metric up to now |
| `SchedulerScores.StallUpdates` | scripts/scheduler-locality.py:78-87 | so does that of a thread that stalls or exits |
| `SchedulerScores.WakeLevels` | scripts/scheduler-locality.py:96-102 | a woken thread starts level with the least score of all, from its metric now |
| `SchedulerScores.NeverWokenScore` | scripts/scheduler-locality.py:68-135 | over every run: the score of a thread that was never woken is its metric as last read |
| `SchedulerWork.StepBusyIff` | scripts/scheduler-locality.py:68-135 | from a safe state in which no core is idle for nothing, a step leads to another such state if and only if it is no late start |
| `SchedulerWork.PeriodicMakesBusy` | scripts/scheduler-locality.py:109-135 | after rebalancing no core is idle while a thread waits, whatever was the case before |
| `SchedulerWork.RunBusyIff` | scripts/scheduler-locality.py:68-135 | over every safe run that starts each thread once: no core is ever idle while a thread waits if and only if no start is late |
| `SchedulerWork.LateStartHappens` | scripts/scheduler-locality.py:70-76 | a concrete run in which a new thread waits beside a free core |
| `SchedulerObjects.EnoughFreeCores` | scripts/scheduler-locality.py:124-128 | the assertion before the moves holds |
| `SchedulerObjects.Scheduler.ThreadStart` | scripts/scheduler-locality.py:68-76 | the hook is the start event |
| `SchedulerObjects.Scheduler.ThreadStall` | scripts/scheduler-locality.py:78-94 | the hook is the stall event |
| `SchedulerObjects.Scheduler.HandOver` | scripts/scheduler-locality.py:89-94 | the freed core goes to a waiting runnable thread of least score, if there is one |
| `SchedulerObjects.Scheduler.Wake` | scripts/scheduler-locality.py:101-102 | the woken thread gets the least score of all and becomes runnable |
| `SchedulerObjects.Scheduler.TakeFreeCore` | scripts/scheduler-locality.py:103-107 | it takes a core that no thread uses, if there is one |
| `SchedulerObjects.Scheduler.ThreadResume` | scripts/scheduler-locality.py:96-107 | the hook is the resume event |
| `SchedulerObjects.Scheduler.RefreshScores` | scripts/scheduler-locality.py:110-111 | the scores of threads on cores, and no others, are updated |
| `SchedulerObjects.Scheduler.Choose` | scripts/scheduler-locality.py:113-118 | sorting and cutting off yields a least-score selection, in the order of scores |
| `SchedulerObjects.Scheduler.MoveAll` | scripts/scheduler-locality.py:130-135 | from any state, the loop moves the newcomers to free cores one after the other |
| `SchedulerObjects.Scheduler.PlaceChosen` | scripts/scheduler-locality.py:120-135 | from any state, kept threads stay, and newcomers in the order of their scores move to the lowest cores that no kept thread uses |
| `SchedulerObjects.Scheduler.Rebalance` | scripts/scheduler-locality.py:109-135 | from any state, safe or not, the hook is the periodic event |
| `CycleStacks.MergeConserves` | tools/buildstack.py:8-42 | for every item tree, all thresholds and both collapse modes: components shown plus what was too small are the values of the tree's keys, each key counted once and deleted |
| `CycleStacks.GetItems` | tools/buildstack.py:8-42 | the recursive walk computes the specified components, totals, rest and remaining values |
| `CycleStacks.TakeKeys` | tools/buildstack.py:29-34 | the values of the keys still present are added up, and deleted |
| `CycleStacks.MergeItems` | tools/buildstack.py:44-54 | per core the emitted components with "other" add up to all values |
| `StackThresholds.MergeIsShow` | tools/buildstack.py:8-42 | for every item tree in which no key is listed twice, the walk that uses up the values shows and hides what the tree read without it does: an item above its threshold shows its components, or itself if it has none |
| `StackThresholds.PartShownIff` | tools/buildstack.py:36-41 | among parts a component is shown, with its value, if and only if the value exceeds threshold times scale |
| `StackThresholds.OtherIsTooSmall` | tools/buildstack.py:36-38 | what goes to "other" is the sum of the values that do not |
| `StackThresholds.SmallStackIsHidden` | tools/buildstack.py:16-18 | a stack that does not exceed its threshold shows nothing, at any depth |
| `StackThresholds.LargeStackIsShown` | tools/buildstack.py:19-25 | one that does shows all its components, or itself with its total |
| `CycleStacks.EmittedAreListed` | tools/buildstack.py:58-71 | in trees of at most two levels every emitted label is listed, collapsing or not |
| `CycleStacks.LabelsEmitted` | tools/buildstack.py:8-42 | without collapsing, one component is emitted for every part, under its path of names, whatever the values |
| `CycleStacks.ListedIffShallow` | tools/buildstack.py:58-71 | without collapsing, for non-empty names without dashes: every emitted label is listed if and only if no part lies below the second level |
| `CycleStacks.ListedIffPart` | tools/buildstack.py:58-71 | in either mode, for such names: every emitted label is listed if and only if each is that of a top-level item or of a part directly under its stack |
| `CycleStacks.CollapsedStackListedIff` | tools/buildstack.py:18-20 | the smallest witness with collapsing: in a chain of three levels with a small part the inner stack is emitted under its path, which is listed if and only if all three names are the same |
| `CycleStacks.TableKeepsAll` | tools/cpistack_results.py:7-40 | the selected table then loses nothing if no two components share a label |
| `CycleStacks.ThirdLevelIsNotListed` | tools/buildstack.py:58-71 | the smallest witness: a single chain of three levels, with any names, emits a label that is not listed |
| `CommandLine.CommandLineToArgv` | frontend/ezOptionParser.hpp:309-388 | slots and text stay within what is allocated; the slots hold the words in order and then null, the words lie one behind the other with a NUL each |
| `CommandLine.Scan` | frontend/ezOptionParser.hpp:325-382 | the loop over the characters, with its three flags, lays out the specified words |
| `CommandLine.WordAt` | frontend/ezOptionParser.hpp:336-383 | each word has its own stretch of text that ends with its NUL, and the next starts behind it |
| `CommandLine.SlotReadsWord` | frontend/ezOptionParser.hpp:309-388 | the C string at every slot is its word |
| `CommandLine.JoinedWords` | frontend/ezOptionParser.hpp:336-382 | any words without quotes, even empty or with blanks, survive quoting, joining and splitting |
| `CommandLine.SplitAsWritten` | frontend/ezOptionParser.hpp:325-382 | any words in any pieces, bare or between quotes of either kind, with any blanks around them, are split into those words |
| `BasicBlockVectors.StateIsExact` | frontend/bbv_count.cc:6-20 | 64-bit wraparound, in the seed or in the products, changes no output of the exact 48-bit generator |
| `BasicBlockVectors.Bbv.Count` | frontend/bbv_count.cc:28-50 | after any hits every dimension is the weighted sum modulo 2^64, by output d / 4 + 1 of the generator seeded with address + d % 4 |
| `BasicBlockVectors.Bbv.Clear` | frontend/bbv_count.cc:52-57 | back to no hits |
| `BasicBlockVectors.OrderIsIrrelevant` | frontend/bbv_count.cc:28-50 | the order of the hits does not matter |
| `ConfigText.QuotedRoundTrip` | common/config/config_file.cpp:139-178 | every string comes back from its quoted, escaped form |
| `ConfigText.RawRoundTrip` | common/config/config_file.cpp:139-178 | text saved as it stands comes back if and only if it has no quotes around it and no backslash in it |
| `ConfigText.WrittenLoads` | common/config/config_file.cpp:139-178 | quoted text loads as what it means, whichever of the escapes it uses |
| `ConfigText.EscapedLength` | common/config/config_file.cpp:193-204 | saving adds one character per backslash and double quote, and nothing else |
| `ConfigText.EscapeText` | common/config/config_file.cpp:193-204 | the loop escapes every backslash and double quote |
| `ConfigText.UnEscapeText` | common/config/config_file.cpp:139-178 | the loop strips quotes and resolves escapes |
| `ConfigText.SaveName` | common/config/config_file.cpp:391-399 | a key name comes back if and only if it needs quotes or has no backslash |
| `ConfigText.ArrayRoundTrip` | common/config/config_file.cpp:275-293 | a saved sparse array loads as the same non-empty values at the same indices |
| `ConfigText.SaveArray` | common/config/config_file.cpp:406-423 | the value tokens and one separator per index |
| `ConfigText.LoadArray` | common/config/config_file.cpp:275-293 | separators count, non-empty values are stored at the current index |
| `ConfigText.SaveThenLoad` | common/config/config_file.cpp:381-426 | saving an array and loading it gives its non-empty values by index |

## Left out

- Compression, files, pipes and flushing: a trace is a byte sequence and the interactive channels are byte queues.
- Reads past the end of a file: where the original goes on with undefined bytes, the model reports an error.
- SiftRecords.Parse: a file that stops between records, without an End record, reads as out of input here; in the original that holds for compressed traces, while for an uncompressed one `peek` sets only the end-of-file bit and the loop goes on with a byte 0xff and an undefined record.
- SiftReading.ReadNext: the same.
- Unread page bytes: a page buffer is not cleared when it is made, so its first contents are an arbitrary function of the address.
- The page table of the operating system: the k-th lookup of a page is an arbitrary function of k and the page, so a page may be mapped late.
- SiftProtocol.Safety: a system call carries at least one byte of arguments, since the reader asserts it, and its size field does not wrap; the translations sent ahead of futex and write calls are left out.
- SiftProtocol.CallReturns: stated for runs whose accesses are serviceable; for the others see `SiftProtocol.UnservedFate`.
- SiftProtocol.StrayBytes: follows the call to its end or to its assertion; what later calls make of the rest of the channel is not described. A short emulation reply is taken as the original takes it, and one of size zero as its single result byte.
- NewThread, Join, Fork and InstructionCount: they wait for one fixed-size answer and add nothing to the blocking calls that are modelled.
- Statistics counters, hexdumps and debug output of the writer.
- SiftWriting.Emit: one instruction size per address, sizes 1 to 15 and at most two dynamic addresses are demanded of the caller, as the reader's assertions and the record layout do.
- SiftWriter.Writer.Instruction: an address used with two sizes is excluded, for the reader's cache asserts one size per address.
- SiftWriter.Writer.Output: empty output is excluded, for the reader asserts that an output record carries data.
- SiftWriter.Writer.SendPages: an instruction that ends in the topmost page of the address space is excluded, because there the original's loop does not end (`SiftWriting.PageLoopEndsIff`), and one that wraps past the top, of which it sends no page.
- SiftRoundTrip.RoundTrip: an instruction in short form is delivered as executed, whatever was passed, since the short form has no such bit; announced texts are cut off where their 16-bit length wraps; output is not empty.
- SiftReader.Reader.Read: all callbacks count as installed, and blocking requests appear as items of their own; their answers are the subject of `SiftProtocol`.
- SiftReader.Reader.Read: after a crash on malformed input nothing is said about the object.
- Decoding instructions: a static instruction is its address, size and bytes.
- JsonLayouts.LayoutsRead: numbers are written as the writer writes them, without leading zeros.
- JSON floats: `%f` loses precision, so a number with a fraction or an exponent is reported as an error of its own kind; reading from a stream is the same reader over another generator.
- JsonObjects.Reader.ReadInt: reports such a number as an error of its own kind, where the original returns a float.
- JsonObjects.Reader.Read: the same.
- JsonObjects.Writer.Write: values have no floats.
- JSON objects: a dictionary is a list of entries with distinct keys in the order of first insertion.
- Scheduler: affinity calls, the time stamps of scheduling in and out, and the command-line arguments; metrics are arbitrary functions of the thread.
- SchedulerWork.RunBusyIff: stated for runs that start each thread once.
- Call-graph profiles: the input formats, pruning, themes and drawing; ratios and totals are exact reals instead of floating point.
- ProfileRatios.Profile.IntegrateCycle: the division of the cycle's total is modelled apart, after the propagation (`CycleDivision.Divide`); it reads only values that are final by then, and nothing outside the cycle reads its results. If one of its assertions fails the original stops, and there are no totals at all.
- CycleDivision.Divide: returns the partial totals from each entry; adding them up over the entries, per function and per inner call, is left out.
- CycleDivision.AnalysisHoldsIff: stated for own values that are not negative; for others `CycleDivision.Analyse` still tells whether the assertions hold.
- CallProfile.Profile.constructor: lines are already split and their addresses translated, every line carries all metrics of the header, and no stack is empty; call objects are records in the profile's dictionary, and a call's set of children is the profile's.
- CallProfile.Profile.AddLine: a line with fewer metrics than the header is excluded; the original accepts it and fails later with a missing key.
- The call-stack printers, the Callgrind output and the categories of the profile.
- CycleStacks.EmittedAreListed: stacks need a name, since an empty one loses its dash in the list of names; `Names` is without the optional arguments that select keys or drop prefixes.
- StackThresholds.MergeIsShow: a key that two items list is left out; the walk then counts it for the first of them only (`CycleStacks.MergeConserves`).
- StackThresholds.SmallStackIsHidden: names are not empty, have no dash and differ among siblings, as otherwise one label can belong to two items.
- CycleStacks.MergeItems: exact reals, one core at a time, without the message about unknown values.
- CommandLine.CommandLineToArgv: pointers are offsets into the text, and the one block that holds slots and text is two arrays of the same sizes.
- Configuration sections, the grammar and the key types: text is modelled from tokens on; a value that reads as a number is one without quotes and backslashes.
- ConfigText.SaveThenLoad: saving and loading are composed at the level of tokens, without the text of the file between them.
- Everything else in the repository: timing models, caches, predictors, the recorder's instrumentation, power and drawing tools.
