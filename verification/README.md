# Verification of the SoC's software and protocol logic

This project models, in Dafny, the parts of the repository whose correctness is hardest to
see by reading them, and proves what they promise:

* **CoreMark's linked list** (`CoreList*` modules): construction, the in-place bottom-up
  mergesort with comparators that write to the data they compare, and the benchmark that
  reverses, splices, sorts, removes and re-inserts, and claims that the list is afterwards as
  it was: it is for every search index and number of searches if and only if the `idx` strictly
  ascend. Its result and the CRC register it leaves are stated from the data along the list alone.
  All of it works on real heap cells with `next` and `info` pointers.
* **The demand-paging test kernel** (`Lfsr`, `PagingModel`, `Paging`): free list, page table,
  the fault handler with Accessed and Dirty bits kept by software, and a TLB that may hold any
  entry written since a page was last flushed. The user sees one flat memory, no assert of the
  fault handler can fire, and the final sweep's assert on D fires exactly if the kernel changed a
  page that the user had accessed and not stored to.
* **The debug bus** (`DmiArbiter`, `Icb2DebugBus`, `DebugAccess`, `DebugProgram`, `DebugHazards`): two
  clocked ready/valid machines, their composition as wired in the core complex, what a program asks
  for and reads bit by bit, and, with both transport
  ports in use and every register written at any time, exactly when an operation gets the answer
  to the request it was started with, when it gets an older one, and when it hangs.
* **The UART receiver** of the testbench (`UartModel`): it inverts serial framing, and how it reports
  errors and recovers from them.
* **CoreMark's state scanner, CRC, matrix and number code** (`CoreState*`, `Crc`, `CoreMatrix`,
  `NumberFormat`, `ParseValue`) and the **word-at-a-time memory routines** of the paging
  environment (`StringRoutines`).

C code that changes state is imperative here (classes, arrays, loops); each clocked module is a
function from registers and inputs to registers, plus a class whose clock method updates the
registers block by block and is proved equal to that function. `StableOrder`,
`RegisterAlgebra`, `Bits` and `Machine` (the machine's number types) are shared by the other modules.

## Where the code differs from its own description

* `core_list_join.c:129` says the list is back in its original state after the benchmark. Over all
  search indices, numbers of searches, uninitialised words and sub-benchmark results that is so if
  and only if the `idx` strictly ascend along the list (`CoreListRestored.RestoredIff`). Otherwise
  a run with search index 0 and one search, or none, leaves another order, and so does one with
  index -1 if the node behind the first of two tied ones has a data word whose low byte is not 0
  (`CoreListRestored.BenchListFails`; three nodes in `CoreListBench.TiedListNotRestored`). With a
  positive index, such as the 1 of `core_main.c:49`, the list is sorted by content first, and tied
  nodes of different content end in the order of their content, whatever was searched
  (`CoreListRestored.ContentDecides`).
  `core_list_init` does not ensure it: with a seed that is one less than a multiple of eight and is
  the number of a mixed item, that item gets 0 like the head (`CoreListLife.SeedWithTie`). A
  constructed list is restored by every run exactly when no two `idx` are equal
  (`CoreListLife.InitRestoredIff`, `CoreListLife.InitAndBenchFails`).
* The comments at `core_list_join.c:174` and `:188` speak of the CRC of the list's content; both
  loops fold the head's data word once per remaining node. The model does what the code does.
* `core_state.c:87` undoes the corruption only if no visited byte becomes a comma
  (`CoreState.RestoredExactlyWhen`); with the mask 0x2c every visited NUL does
  (`CoreState.CommaMaskFails`). The pattern "-87e+832", listed as scientific, is invalid for
  the machine, which allows an exponent only after a decimal point
  (`CoreStateInit.PointlessPattern`).
* `uart_model.sv:124` says that the bit counter is reset on entering the stop state. It is not, so
  one half of a stop bit completes a frame whatever `ctrl_stops` is, up to the data width plus
  one, and beyond that no frame completes at all. With an odd number of clocks per bit the last
  data clock is already taken for a stop bit (`UartModel.FrameReportedIff`), so a stream is read
  correctly exactly if each of its frames ends with a data bit of 1 (`UartModel.StreamReportedIff`).
* `dmi_arbiter.sv:31` says that a handshake is complete when valid and ready are both high. A
  transport port shows ready while the other port owns the bus, and such a handshake is not a
  request (`DmiArbiter.HandshakeAcceptedWhen`, `DmiArbiter.HandshakeLost`). The system-bus module
  takes it for one and then waits until CTRL is written (`DebugHazards.HangsExactlyWhen`).
* `icb2debug_bus.sv:387` makes CTRL a reset of the module, but the arbiter still owes the answer,
  and an operation that is offered before it is delivered ends with it
  (`DebugHazards.CtrlMixesAnswers`).
* `icb2debug_bus.sv:48` puts the request address in bits 8 to 4; the code uses bits 10 to 4. A
  write to DM Request Others in the clock that ends an operation does not change the register and
  still starts an operation (`DebugAccess.LastClockWriteRepeats`).
* `vm.c:104` asserts D if a page differs from its image. The image is the kernel's own memory, so
  a page that the user only loaded and the kernel changed afterwards fails it
  (`PagingModel.LoadedThenChanged`). `vm.c:107` copies the image over the user's page, not the page
  back to the image.

## Model

| member | source | states |
|---|---|---|
| `CoreListSort.Mergesort` | sw/coremark/core_list_join.c:425-495 | for any chain of one or more nodes the sort terminates, keeps exactly the same nodes, and with two or more leaves the unique stable order by the keys the data have at the end, with every node compared at least once; by content, one operation is run for each cell without a cached result, in the order of the list before the sort, and `res.crc` is the CRC of just these results |
| `CoreListSort.SortLoop` | sw/coremark/core_list_join.c:431-491 | passes repeat and end with a chain of the same nodes, ordered by the keys that the comparisons have fixed and then by original position; termination rests on the run size staying below the length of the list |
| `CoreListSort.MergePass` | sw/coremark/core_list_join.c:438-486 | a pass over sorted runs of size k gives sorted runs of size 2k of the same nodes in original block order, and keys once known never change |
| `CoreListSort.MergeRuns` | sw/coremark/core_list_join.c:453-477 | merging two neighbouring runs splices their nodes, ordered by key and then by original position |
| `CoreListSort.MergeOne` | sw/coremark/core_list_join.c:455-476 | one step appends the head of one run to the output, which stays ordered by key and position (so the left run goes first on a tie), and keeps the unmerged chains intact |
| `CoreListSort.StepAlong` | sw/coremark/core_list_join.c:441-447 | the second run begins `insize` places on, or the list ends first |
| `StableOrder.StableSortUnique` | sw/coremark/core_list_join.c:408-411 | an arrangement of the nodes that is ordered by key and original position is the stable sort: the result of the sort is determined |
| `StableOrder.AscendingRestored` | sw/coremark/core_list_join.c:186-187 | with strictly ascending keys, sorting any rearrangement gives the original sequence back |
| `StableOrder.SortUndoesEveryRearrangement` | sw/coremark/core_list_join.c:186-187 | of the sort alone: it undoes every permutation of a list if and only if the keys strictly ascend; the same for the permutations that the benchmark makes is `CoreListRestored.RestoredIff` |
| `CoreListData.CalcFunc` | sw/coremark/core_list_join.c:62-94 | the first use caches a 7-bit result, keeps the upper byte and folds the full result into the CRC; later uses return the cache and change nothing |
| `CoreListData.RunOperation` | sw/coremark/core_list_join.c:70-86 | an unknown operation gives the data word itself; the two others get the four bits of the word twice, the state machine at least 0x22, and their registers keep the first result other than zero |
| `CoreListData.CompareComplex` | sw/coremark/core_list_join.c:99-104 | the sign compares the two keys as they are cached afterwards; the operation of the first cell is run before that of the second, each only without a cached result, and CRC and result registers are those of the results in this order |
| `CoreListData.CompareIdx` | sw/coremark/core_list_join.c:111-117 | without results both data words are regenerated from their upper bytes; the sign compares `idx` |
| `CoreListBench.Find` | sw/coremark/core_list_join.c:369-379 | the first node with the wanted `idx`, or with a negative `idx` the wanted low byte, or null when there is none |
| `CoreListBench.Reverse` | sw/coremark/core_list_join.c:394-403 | the chain leads through the same nodes in the opposite order |
| `CoreListBench.Remove` | sw/coremark/core_list_join.c:315-326 | the node after the item leaves the chain and takes the item's data with it |
| `CoreListBench.UndoRemove` | sw/coremark/core_list_join.c:344-354 | relinks the removed node and swaps the data back |
| `CoreListBench.CacheNext` | sw/coremark/core_list_join.c:155-161 | the node behind the found one moves behind the head, in each of the overlapping cases |
| `CoreListBench.FindPhase` | sw/coremark/core_list_join.c:142-169 | all turns together: the order of the list, the counters and the returned value are those of the find turns on a sequence, for any number of turns |
| `CoreListBench.FindsRearrange` | sw/coremark/core_list_join.c:142-168 | any number of find turns only rearranges the nodes |
| `CoreListBench.CrcAlong` | sw/coremark/core_list_join.c:178-181 | one fold of the head's data word for each remaining node |
| `CoreListBench.RemoveFindUndo` | sw/coremark/core_list_join.c:173-185 | removing, searching the shortened list, folding and undoing leaves chain and data pointers as they were |
| `CoreListBench.SearchesAre` | sw/coremark/core_list_join.c:142-169 | after any number of turns: `found` is the number of keys that some node carries, `missed` the number of the others, and the value the sum of the bits that each turn adds, with the order after each turn given element by element |
| `CoreListBench.BenchList` | sw/coremark/core_list_join.c:131-198 | for any list of three or more nodes, any `finder_idx` and any number of searches: the chain ends with the order of the turns, sorted by content if `finder_idx` is positive and then by `idx`; each node has its own data cell again and all data are regenerated; the result is the head's words folded in, starting from (bits + 4 hits - misses) modulo 65536; `res` is unchanged unless `finder_idx` is positive, and then `res.crc` is the CRC of the operations' results in list order |
| `CoreListBench.BenchListRestores` | sw/coremark/core_list_join.c:124-198 | with strictly ascending `idx` and regenerated data, chain, data pointers and data are exactly as before |
| `CoreListBench.TiedListNotRestored` | sw/coremark/core_list_join.c:142-187 | with `idx` 0, 0 and 5, `finder_idx` 0 and one search, the run ends with the tied nodes swapped |
| `CoreListRestored.RestoredIff` | sw/coremark/core_list_join.c:124-198 | for a list of three or more nodes: the runs for all `finder_idx`, `seed3`, uninitialised words and sub-benchmark results end with the original order if and only if the `idx` strictly ascend |
| `CoreListRestored.BenchListFails` | sw/coremark/core_list_join.c:124-198 | the benchmark itself, on any list whose `idx` do not strictly ascend, with one search or none: with `finder_idx` 0, or with -1 and no low byte 0 behind the tie, the chain it leaves is a different one |
| `CoreListRestored.ContentDecides` | sw/coremark/core_list_join.c:142-187 | with a positive `finder_idx` and tied nodes of different content, the list is restored if and only if the contents of tied nodes ascend, for every number of searches |
| `CoreListInit.InsertNew` | sw/coremark/core_list_join.c:281-300 | takes the next cell of both regions and links it behind the point, or changes nothing when either region has no cell to spare |
| `CoreListInit.FillList` | sw/coremark/core_list_join.c:224-241 | exactly one cell fewer than there is room for is used, heads and data in lock step, newest item first |
| `CoreListInit.NumberList` | sw/coremark/core_list_join.c:243-253 | every item between head and tail gets the `idx` of its position |
| `CoreListInit.InitList` | sw/coremark/core_list_join.c:212-265 | the list is the stable sort of the used cells by `idx`, the head node first and the 0x7fff node last, and every data word is its own backup |
| `CoreListInit.RegionsFit` | sw/coremark/core_list_join.c:214-218 | both regions lie one behind the other inside the block for heads of at most 16 bytes |
| `CoreListInit.ItemDataIs` | sw/coremark/core_list_join.c:236-238 | every digit of an item's data word, from the digits of its number and of the seed |
| `CoreListInit.MixedIdxIs` | sw/coremark/core_list_join.c:249-250 | every digit of a mixed `idx`, from the digits of the item's number, the next number and the seed |
| `CoreListInit.MixedDiffer` | sw/coremark/core_list_join.c:249-250 | two mixed items numbered below 256 never get the same `idx` |
| `CoreListInit.MixedTie` | sw/coremark/core_list_join.c:249-250 | the mixing formula gives 0 for an item whose number is the seed and one less than a multiple of eight |
| `CoreListLife.AscendingWhenDistinct` | sw/coremark/core_list_join.c:254-254 | the sorted list is strictly ascending if and only if no two `idx` are equal |
| `CoreListLife.SeedWithTie` | sw/coremark/core_list_join.c:243-253 | for every size and every mixed item numbered one less than a multiple of eight, the seed equal to that number gives two items of the list the same `idx` |
| `CoreListLife.InitRestoredIff` | sw/coremark/core_list_join.c:129-265 | the constructed list is given back by all runs of the benchmark if and only if no two of its `idx` are equal |
| `CoreListLife.InitAndBench` | sw/coremark/core_list_join.c:129-265 | the two C functions run one after the other: with distinct `idx` the list and all cells are exactly as constructed |
| `CoreListLife.InitAndBenchFails` | sw/coremark/core_list_join.c:129-265 | the two run one after the other with any seed that gives two items the same `idx`, and one search: the list is another one than was constructed |
| `Lfsr.StatesRegister` | isa-tests/env/v/riscv_test.h:43-44 | each state's digits are those of the one before, shifted down by one, with the sum of the two lowest on top |
| `Lfsr.AllDifferent` | isa-tests/env/v/riscv_test.h:43-44 | from any nonzero start the register visits 63 different nonzero states |
| `Lfsr.ComesBack` | isa-tests/env/v/riscv_test.h:43-44 | its period is 63, MAX_TEST_PAGES |
| `PagingModel.EntryFields` | isa-tests/env/v/vm.c:145-146 | frame number and flags can be read back from an entry, and it faults exactly for a missing A, or for a store with D clear |
| `PagingModel.EntryIs` | isa-tests/env/v/vm.c:145-146 | an entry as a number: the frame's page number times 0x400, 0x1F for the five flags, 0x40 for A and 0x80 for D |
| `PagingModel.FaultsIs` | isa-tests/env/v/vm.c:128-137 | an access faults exactly if V, U, A or the bit it needs is clear, a store also if R or D is |
| `PagingModel.SetFlags` | isa-tests/env/v/vm.c:129-134 | setting A or D changes only that bit |
| `PagingModel.FreeNodeLeft` | isa-tests/env/v/vm.c:139-143 | distinct pages 1 to 62 leave a free node for the next one: the list of 63 never runs dry |
| `PagingModel.MappedFramesApart` | isa-tests/env/v/vm.c:145-150 | mapped pages have different frames, none of them free or part of the image, and the entry gives the node's address |
| `PagingModel.HandledKeeps` | isa-tests/env/v/vm.c:123-160 | any fault on an incomplete page keeps the invariant, leaves the user's memory and the image unchanged, and moves the page one of three stages on |
| `PagingModel.WrittenKeeps` | isa-tests/env/v/vm.c:131-134 | a store through an entry with D changes exactly that page of the user's memory |
| `PagingModel.SweepAsserts` | isa-tests/env/v/vm.c:99-108 | at the end every mapped page has A, its comparison does not fault, and the assert on D depends only on the state before the sweep |
| `PagingModel.SurvivesMeans` | isa-tests/env/v/vm.c:99-108 | the asserts on D all hold exactly when every accessed page was stored to or is as the kernel has it |
| `PagingModel.ApartSurvives` | isa-tests/env/v/vm.c:94-172 | when the user stays away from the pages that the kernel changes, all accesses see one flat memory that starts as the image, and the asserts hold |
| `PagingModel.LoadedThenChanged` | isa-tests/env/v/vm.c:99-108 | a load from a page that the kernel then changes is enough to fail the assert on D |
| `Paging.Kernel.HandleFault` | isa-tests/env/v/vm.c:123-160 | the handler never fails an assert on a fault of pages 1 to 62 and leaves the specified state; its own copy through the user address cannot fault |
| `Paging.Kernel.MapFrame` | isa-tests/env/v/vm.c:139-159 | an absent page gets the first free frame, filled from the image, without A and D; no stale entry stays in the TLB |
| `Paging.Kernel.MarkEntry` | isa-tests/env/v/vm.c:128-137 | a present page gets A first and then D, the latter only for a store |
| `Paging.Kernel.MakeAccessible` | isa-tests/env/v/vm.c:186-191 | faulting and retrying ends, and shows the user the same memory |
| `Paging.Kernel.UserAccess` | isa-tests/env/v/vm.c:123-160 | one fetch, load or store reads and writes what it would in a flat memory |
| `Paging.Kernel.Run` | isa-tests/env/v/vm.c:123-160 | so does any run of accesses, with any changes of the kernel to its own pages between them, which the user sees on pages not accessed before |
| `Paging.Kernel.Evict` | isa-tests/env/v/vm.c:94-121 | ends at the assert on D exactly if the page is mapped without D and differs from the kernel's; otherwise its mapping slot is empty and its frame equals the kernel's page |
| `Paging.Kernel.Ecall` | isa-tests/env/v/vm.c:164-172 | the whole sweep comes to its end exactly if every page passes that assert; then the kernel's pages are untouched, all slots empty, all used frames equal to the kernel's pages |
| `Paging.Kernel.constructor` | isa-tests/env/v/vm.c:258-267 | boot establishes the invariant for every entropy value and every memory content, and the nodes hold the frames that the shift register picks from 1 + entropy % 63 on |
| `Paging.RunTest` | isa-tests/env/v/vm.c:94-273 | boot, any accesses and kernel stores, sweep: every result is that of the user's flat memory, each page faults at most three times, the k-th page accessed has the frame of the k-th state of the shift register, and the sweep comes to its end if and only if every accessed page was stored to or is as the kernel has it |
| `DmiArbiter.RunIsSerial` | rtl/dmi_arbiter.sv:97-356 | every run with a fair debug module refines the atomic specification: accept, forward unchanged, answer, deliver to the same port, and only then the next |
| `DmiArbiter.ExactlyOnce` | rtl/dmi_arbiter.sv:97-158 | accepted requests are forwarded in order, unchanged and once, with at most one pending; answers are delivered unchanged to the port that asked |
| `DmiArbiter.ShownToOnePort` | rtl/dmi_arbiter.sv:187-239 | an answer is never shown on both ports, and is the last answer on the port of the last accepted request |
| `DmiArbiter.OfferedUntilTaken` | rtl/dmi_arbiter.sv:99-118 | a request is offered unchanged until the debug module takes it |
| `DmiArbiter.AnswersAccepted` | rtl/dmi_arbiter.sv:202-209 | every answer a fair debug module offers is accepted at once |
| `DmiArbiter.Fair` | rtl/dmi_arbiter.sv:294-309 | from any state, a port that keeps asking waits for at most one acceptance of the other, and none if the other was served last |
| `DmiArbiter.FirstServed` | rtl/dmi_arbiter.sv:294-309 | the first request after reset is accepted at once, and if both ports make one it is that of port 1 |
| `DmiArbiter.WorkConserving` | rtl/dmi_arbiter.sv:306-309 | with no transaction under way a clock accepts exactly one request if there is one |
| `DmiArbiter.Progress` | rtl/dmi_arbiter.sv:313-356 | the measure falls exactly on the awaited handshake and never rises during a transaction; at its end nothing is pending and both ports are ready |
| `DmiArbiter.BoundedWait` | rtl/dmi_arbiter.sv:111-356 | a port that keeps asking loses at most seven responsive clocks before it is accepted |
| `DmiArbiter.HandshakeAcceptedWhen` | rtl/dmi_arbiter.sv:124-139 | valid and ready together are an acceptance exactly with no transaction under way and the other port quiet or served last |
| `DmiArbiter.HandshakeLost` | rtl/dmi_arbiter.sv:306-309 | a run in which a port's complete handshake is never forwarded |
| `DmiArbiter.Arbiter.PosEdge` | rtl/dmi_arbiter.sv:97-356 | the clocked blocks compute the next registers of the run, and the module's own assertion holds |
| `Icb2DebugBus.DebugBusMaster.PosEdge` | rtl/icb2debug_bus.sv:279-438 | the clocked blocks compute the next registers |
| `DebugAccess.RunIsConsistent` | rtl/zr_coreplex.sv:467-494 | the two machines stay in step over every polite run |
| `DebugAccess.EachStartOneRequest` | rtl/icb2debug_bus.sv:280-438 | the debug module is given exactly the requests of the started operations, in order and once, with the register contents of the start (bit by bit in `DebugProgram.RequestsEncode`); when no operation is under way or starting, all are answered and the response registers hold the last address and answer |
| `DebugAccess.ProgramReadsAnswer` | rtl/icb2debug_bus.sv:293-343 | once Status reads as not busy and no operation is starting, the response registers read as the address of the last request and the data and low status bit of its answer |
| `DebugProgram.RequestsEncode` | rtl/icb2debug_bus.sv:280-353 | over any polite run, every bit of every request that the debug module is given, from the program's own bus writes: data from the last word at address 0, operation and address from bits 2 to 10 of the word at address 4 |
| `DebugProgram.StickyIs` | rtl/icb2debug_bus.sv:293-371 | over any run, the sticky flag says whether a request register was written during an operation since the last write to CTRL, and bit 3 of DM Response Others says so for the last operation's end |
| `DebugProgram.RegistersRead` | rtl/icb2debug_bus.sv:326-343 | what a read of each address gives, bit by bit |
| `DebugProgram.NothingRead` | rtl/icb2debug_bus.sv:341-342 | without a read command the data lines are low |
| `DebugProgram.ResponsesRead` | rtl/icb2debug_bus.sv:293-343 | the response registers bit by bit: the answer's data, its low status bit, the sticky flag, and the address as the program wrote it |
| `DebugAccess.OperationAdvances` | rtl/icb2debug_bus.sv:398-438 | in one clock a started operation comes one step closer to its end unless it waits for the debug module, and never falls back |
| `DebugAccess.OperationFinishes` | rtl/icb2debug_bus.sv:398-438 | over any polite run, an operation is under way for at most five clocks that do not wait for the debug module |
| `DebugAccess.LastClockWriteRepeats` | rtl/icb2debug_bus.sv:314-323 | a write in the clock that ends an operation repeats the request just answered |
| `DebugHazards.AnswerDecided` | rtl/zr_coreplex.sv:467-494 | after any run, with JTAG in use and CTRL written at any time: the first clock in which a request is offered decides whether its operation ends with its own answer after exactly one acceptance, forward, answer and delivery of its request, ends with the port's older answer and is itself never accepted, or never ends; in the first two cases it is over after at most four responsive clocks |
| `DebugHazards.GetsOwnAnswerIff` | rtl/icb2debug_bus.sv:374-438 | an ended operation got the answer to the request it was started with, under its address, if and only if the command in the clock after the starting write keeps data and address, and in the next clock no transaction is under way and JTAG does not ask or was served last |
| `DebugHazards.CarriesIff` | rtl/icb2debug_bus.sv:280-384 | the offered request is the started one if and only if a write in between leaves data word and address the same; otherwise the new word or address goes out with the old operation code |
| `DebugHazards.HangsExactlyWhen` | rtl/dmi_arbiter.sv:294-309 | with the JTAG port in use and after any run: no continuation without a CTRL write ends the operation if and only if its request is lost, because JTAG's transaction is under way or JTAG is accepted in that clock |
| `DebugHazards.OrphanForever` | rtl/icb2debug_bus.sv:398-438 | an operation whose request was not accepted stays busy until CTRL is written, whatever both sides do |
| `DebugHazards.CtrlMixesAnswers` | rtl/icb2debug_bus.sv:387-395 | whatever is written meanwhile, CTRL included: an operation offered before the port's older answer is delivered ends with that answer under its own address, and its request is never accepted |
| `DebugHazards.PoliteNeverStale` | rtl/icb2debug_bus.sv:387-395 | with JTAG in use, a program that leaves CTRL alone during operations never has an older transaction under way when it offers a request |
| `UartModel.FrameReceived` | verilator/uart_model.sv:91-191 | with an even number of clocks per bit a frame is reported with its value, and half a bit of high line suffices before the next |
| `UartModel.FrameReportedIff` | verilator/uart_model.sv:91-191 | exactly when a correctly timed frame is reported with its value, as an error, or not at all, for every baud setting of two or more clocks, width and number of stop bits |
| `UartModel.TooManyStops` | verilator/uart_model.sv:130-172 | more stop bits than the width plus one are never counted, however long the line stays high |
| `UartModel.NeverGood` | verilator/uart_model.sv:63-191 | with that many stop bits no line whatever makes the receiver report a value |
| `UartModel.FalseStart` | verilator/uart_model.sv:101-116 | a start bit that does not last to its middle is reported as one error |
| `UartModel.BrokenStop` | verilator/uart_model.sv:130-150 | a line that goes low in the stop window of a well-timed frame is reported as one error |
| `UartModel.RecoveryIs` | verilator/uart_model.sv:151-172 | after an error there is no report and no start bit on any line until it was high for the stop bits, one at least, on end; then the receiver is as new |
| `UartModel.ErrorMeansReport` | verilator/uart_model.sv:63-191 | on any line the error output comes only with the ready output, and with the value zero |
| `UartModel.PaddedIs` | verilator/uart_model.sv:174-191 | the reported value has the frame's bits, lowest first, and zeros above them |
| `UartModel.RoundTrip` | verilator/uart_model.sv:63-191 | with an even number of clocks per bit any stream of frames is reported as exactly its values without an error |
| `UartModel.StreamReportedIff` | verilator/uart_model.sv:63-191 | exactly when a stream of well-timed frames is reported as sent, for every number of clocks per bit and of stop bits: it is empty, or there are no more stop bits than the width plus one and the clocks per bit are even or every frame's last bit is 1 |
| `UartModel.Receiver.PosEdge` | verilator/uart_model.sv:63-191 | the clocked blocks compute the next registers |
| `UartModel.Receiver.Receive` | verilator/uart_model.sv:63-191 | so they do over any line |
| `UartModel.ReceiveFrames` | verilator/uart_model.sv:63-191 | a fresh receiver reports a stream of frames as sent |
| `CoreStateModel.CharactersAre` | sw/coremark/core_state.c:168-203 | digits, signs, comma, point and the letter of the exponent are the ASCII characters |
| `CoreStateModel.Recognises` | sw/coremark/core_state.c:194-273 | the machine ends in a state exactly for the texts of that state's grammar: integer, float, scientific, or a prefix of one |
| `CoreStateModel.ScanClassifies` | sw/coremark/core_state.c:184-277 | the scanner returns the class of the input up to its comma or NUL, and stops behind the comma, at the NUL, or inside an invalid input |
| `CoreStateModel.ScanStopsAtNul` | sw/coremark/core_state.c:188-193 | a scan never passes a NUL |
| `CoreStateModel.ScanCounts` | sw/coremark/core_state.c:184-277 | what a scan adds to each counter: how often its state is left, with leaving the scientific state counted as invalid, and an input that is invalid from its first character counted there too |
| `CoreStateModel.IndexIs` | sw/coremark/coremark.h:121-131 | the order of the counters |
| `CoreState.CoreStateTransition` | sw/coremark/core_state.c:184-277 | the pointer loop stays inside the block and gives state, counters and end of `Scan` |
| `CoreState.ScanBlock` | sw/coremark/core_state.c:59-67 | the block is scanned input by input up to its first NUL; both sets of counters are those of the whole text |
| `CoreState.Corrupt` | sw/coremark/core_state.c:69-74 | masks exactly the visited bytes that are not commas |
| `CoreState.RestoredExactlyWhen` | sw/coremark/core_state.c:69-92 | corrupting twice restores the block if and only if no visited byte other than a comma becomes a comma |
| `CoreState.CommaMaskFails` | sw/coremark/core_state.c:69-92 | with the mask of a comma a visited NUL is still a comma after the repair, and the block is not restored |
| `CoreState.NulSurvives` | sw/coremark/core_state.c:69-79 | two NULs at the end and a step of two or more leave the corrupted block terminated |
| `CoreState.CoreBenchState` | sw/coremark/core_state.c:43-99 | both scans stay in the block, the CRC is that of all counters, and equal seeds restore the block exactly under that condition |
| `CoreStateInit.CoreInitState` | sw/coremark/core_state.c:116-166 | as many patterns as fit, each with its comma, then NULs, two at least |
| `CoreStateInit.PatternClass` | sw/coremark/core_state.c:101-157 | the class the machine gives to every pattern |
| `CoreStateInit.PointlessPattern` | sw/coremark/core_state.c:104-104 | the third scientific pattern is invalid to the machine |
| `Crc.Crcu8` | sw/coremark/core_util.c:142-165 | the byte loop is eight clocks of the reflected CRC-16 register |
| `Crc.Crcu16` | sw/coremark/core_util.c:166-170 | a word is folded as sixteen clocks |
| `Crc.Crcu32` | sw/coremark/core_util.c:171-175 | a double word is folded as its two halves, low first |
| `Crc.ShiftMultiplies` | sw/coremark/core_util.c:142-165 | a clock multiplies the register's polynomial by x and reduces it by x^16 + x^15 + x^2 + 1 |
| `Crc.CrcLinear` | sw/coremark/core_util.c:142-178 | the fold is XOR-linear over messages of any equal length |
| `Crc.OwnCrcGivesZero` | sw/coremark/core_util.c:166-178 | folding a message's own CRC in gives zero |
| `Crc.CrcInjective` | sw/coremark/core_util.c:142-178 | for a fixed message the fold is injective in the start value |
| `Crc.OneWordErrorDetected` | sw/coremark/core_util.c:142-178 | equal-length messages that differ in exactly one word have different CRCs |
| `Crc.TwoWordErrorMissedExactly` | sw/coremark/core_util.c:142-178 | exactly which errors in two neighbouring words go undetected |
| `NumberFormat.Number` | sw/coremark/barebone-arty-a7/ee_printf.c:49-124 | null for an impossible base, else sign, prefix, padding, zeros and digits in the order the flags ask for |
| `NumberFormat.TextLength` | sw/coremark/barebone-arty-a7/ee_printf.c:102-121 | the output is as long as the greater of the width and its parts |
| `NumberFormat.SignShows` | sw/coremark/barebone-arty-a7/ee_printf.c:62-80 | the output has a minus sign exactly for a negative signed number, and a plus sign exactly for another that asks for one |
| `NumberFormat.TextStarts` | sw/coremark/barebone-arty-a7/ee_printf.c:62-117 | the blank in place of a sign, and the prefixes of bases 8 and 16 |
| `NumberFormat.FillDigits` | sw/coremark/barebone-arty-a7/ee_printf.c:89-100 | `tmp` holds the digits, lowest first, and its 66 places suffice |
| `ParseValue.Parseval` | sw/coremark/core_util.c:64-102 | sign, hexadecimal mode, digits and multiplier are read, wrapping to 32 bits, without passing the NUL |
| `ParseValue.QualifiedIs` | sw/coremark/core_util.c:94-101 | K multiplies by 1024 and M by 1024 times 1024 |
| `ParseValue.RoundTrip` | sw/coremark/core_util.c:64-102 | the printed number is read back if and only if it is zero or the output starts with neither blank nor '+' |
| `ParseValue.PrintAndRead` | sw/coremark/core_util.c:64-102 | the same for the two loops run one after the other |
| `CoreMatrix.MatrixTest` | sw/coremark/core_matrix.c:117-148 | A and B are as before for every dimension and constant; C holds the bit-extracted product; the CRC is that of the four results, each summed over all entries, so a function of A, B and the constant |
| `CoreMatrix.AddConstUndone` | sw/coremark/core_matrix.c:146-146 | adding and subtracting a constant is the identity on 16-bit values, wrapping included and for -32768 |
| `CoreMatrix.MatrixMulMatrix` | sw/coremark/core_matrix.c:279-290 | every entry is the sum of products of its row and column |
| `CoreMatrix.MatrixMulMatrixBitextract` | sw/coremark/core_matrix.c:296-308 | the same with the two bit fields of each product |
| `CoreMatrix.MatrixMulVect` | sw/coremark/core_matrix.c:265-273 | each of the first n entries is the sum of products of its row and the vector, and the others stay as they were |
| `CoreMatrix.MatrixMulConst` | sw/coremark/core_matrix.c:240-247 | every entry of C is the entry of A times the constant, and no product needs more than 32 bits |
| `CoreMatrix.MatrixSum` | sw/coremark/core_matrix.c:216-234 | the clipped running sum over all entries in order |
| `CoreMatrix.SumIsPoints` | sw/coremark/core_matrix.c:216-234 | that is ten for each time the sum since the last reset goes above the clip value, and else one for each entry greater than the one before |
| `CoreMatrix.ExtractIs` | sw/coremark/core_matrix.c:296-308 | the extracted product is that of bits 2 to 5 and bits 5 to 11, for negative products too |
| `CoreMatrix.BigIs` | sw/coremark/core_matrix.c:46-46 | the clip value is the constant's low twelve bits with the upper four set |
| `CoreMatrix.SumWordIs` | sw/coremark/core_matrix.c:126-126 | a sum goes into the CRC as the 16 bits of its two's complement |
| `CoreMatrix.Dimension` | sw/coremark/core_matrix.c:174-178 | the greatest dimension that stays below the block size |
| `CoreMatrix.FillMatrices` | sw/coremark/core_matrix.c:182-193 | A gets bytes and B 16-bit values, by the seed recurrence |
| `CoreMatrix.CModIs` | sw/coremark/core_matrix.c:184-184 | the seed's remainder by 65536 has the sign of the product |
| `CoreMatrix.Exact` | sw/coremark/core_matrix.c:240-308 | up to dimension 128, with bytes in A and a byte as constant, every entry of every product is the exact integer sum |
| `CoreMatrix.Sharp` | sw/coremark/core_matrix.c:279-290 | for the extreme matrices that holds exactly up to dimension 128 |
| `StringRoutines.Memcmp` | isa-tests/env/v/string.c:60-85 | for all addresses, lengths and alignments, the difference at the first differing byte, or zero |
| `StringRoutines.DifferenceMeans` | isa-tests/env/v/string.c:77-84 | that is zero exactly for equal contents |
| `StringRoutines.DifferenceOrders` | isa-tests/env/v/string.c:77-84 | and negative exactly when the first differing byte of the first block is the smaller one |
| `StringRoutines.Memcpy` | isa-tests/env/v/string.c:5-19 | word loop and byte loop write the same: the destination becomes what the source was, and nothing else changes |
| `StringRoutines.Memset` | isa-tests/env/v/string.c:21-38 | word loop and byte loop write the low byte everywhere in the destination and nowhere else |
| `StringRoutines.FillWord` | isa-tests/env/v/string.c:24-27 | the doubling lines fill a word of four or eight bytes |

## Left out

- CoreListData.RunOperation: `core_bench_state` and `core_bench_matrix` may return any value here; they are proved on their own in `CoreState` and `CoreMatrix`.
- CoreListBench.BenchList: the empty list and lists of fewer than three nodes, on which the C code dereferences null; the local `info.data16` that is read uninitialised when no search is made is the parameter `garbage`.
- CoreListInit.InitList: blocks with fewer than three cells, and first fifths beyond 0x7fff, which do not fit `idx`; alignment of the regions.
- Paging.RunTest: accesses to page 0 or beyond page 62, which end the test by design; what the kernel writes to its own pages is arbitrary, and not tied to the variables that the model keeps as fields; the kernel's pages do not change during the sweep; one access stays inside one page.
- Paging.Kernel.Ecall: the shape of the free list after the sweep, where the program ends.
- Paging.Kernel.CopyIn: copies whole pages at once; that `memcpy` and `memcmp` do so byte for byte is proved in `StringRoutines`.
- DmiArbiter.RunIsSerial: the debug module is assumed to answer only requests it has taken, or takes in the same clock, and each once.
- DebugAccess.EachStartOneRequest: the JTAG port is idle, there is no CTRL write during an operation, and no write to a request register in the clock after one to DM Request Others; `DebugHazards` proves what happens otherwise.
- Icb2DebugBus.DebugBusMaster.PosEdge: the interrupt mask registers and their counter.
- UartModel.RoundTrip: glitches, frames with wrong timing, and recovery after an error.
- CoreState.CoreBenchState: a step of one, with which both final NULs are masked; `calc_func` always passes 0x22 or more.
- CoreStateInit.CoreInitState: blocks of one byte, which get a single NUL.
- ParseValue.RoundTrip: -2147483648, whose digits overflow the C type while they are read, and unsigned hexadecimal output of negative numbers.
- NumberFormat.Number: bounds of the caller's output buffer; the format loop around it and floating point.
- CoreMatrix.FillMatrices: placing the three matrices in the memory block, and alignment.
- StringRoutines.Memcpy: destinations that overlap their source from above; `strlen`, `strcmp`, `strcpy` and `atol`.
- `do_tohost`, `coherence_torture`, CSR and PMP setup, illegal-instruction traps and the trap frame in `vm.c`.
- `rtl/zr_soc.sv` and the rest of `rtl/zr_coreplex.sv`, `verilator/spi_model.sv`, the testbench, and the simulation and remote-bitbang servers: wiring, tri-state and sockets.
- `core_portme.*`, `core_main.c` and `cvt.c`: timing, reporting, process plumbing and floating point.
