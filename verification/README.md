# Verified models of five components

This project models five components of the repository in Dafny and proves their central promises.
Each component has a model written as functions over a state record, proofs about every reachable
state or run, and, where the original works by changing state in place, an imperative form (classes,
arrays, linked lists, loops) whose methods are proved to compute what the model says.

Check everything with `dafny verify dfyconfig.toml`.

## The components

**Demand-paged virtual memory** (`Vm*.dfy`, `SwapQueue.dfy`). Physical frames, the frame table, page
tables, dirty bits and a linked swap list with tokens, driven by START, STOP and access lines. The
numbers of frames, pages, bytes per page and processes are symbolic, and the random policy draws from
an arbitrary stream of parities. The main theorem is that all of it behaves like one flat zero-filled
byte array per process. The simulator's own self-check `check_validity` is proved to hold after every
line. `VmMachine.dfy` and `SwapQueue.dfy` do the same in place and are proved against the model.

A trace is well formed when only processes that are not running start, only running ones stop or access
memory, and addresses are in the virtual address space. There is one more condition, which is where the
code falls short of its purpose. If a process that stopped while it was the current one is started again
before another process accessed memory, the main loop sees the same pid and does not load the new page table. All is
well if and only if the first free frame is then the one that PTBR still names
(`VmLifecycle.RestartedCurrent`), and such restarts are well formed. Otherwise the process may be served by
another one's table, and that one reads what it writes (`VmRestart.RestartBreaksFlatMemory`). A well-formed
trace completes if and only if there are enough frames, which depends on the number of running processes
at each line alone (`VmRefinement.CompletesIff`).

**Five-stage RISC-V pipeline** (`RiscvIsa.dfy`, `Pipeline*.dfy`), against the repository's single-cycle
core (`DecodeCore.dfy`). One clock edge is a step over the PC and the IF/ID, ID/EX, EX/MEM and MEM/WB
buffers with the forwarding, stall and flush logic. The instructions that are executed are ADD, SUB, SLT,
ADDI, JAL and the all-zero word (sections 2.3 to 2.5 of the RISC-V Unprivileged ISA, chapter RV32I). What is
only fetched, behind a jump, or never reached may be anything; instruction memory is an arbitrary function
from addresses to words. A floating signal is `None`. The single-cycle core is the specification: same
register writes, same order, same values, with bounds on how long they take. `RiscvReference.dfy` says
independently of both cores how each instruction is encoded and what it does, and `RiscvConformance.dfy`
proves that both do that.

**Multi-CPU scheduler** (`Scheduler*.dfy`). Every section under a mutex is one atomic step, threads keep
their local variable and program point between steps, and a run is any interleaving. A condition signal
wakes at least one sleeper if there is one, and wakeups may be spurious. The simulator's side of the
contract is part of the enabling conditions: a CPU thread runs one callback at a time, `idle` is called
for a CPU without a process, and `wake_up` for a process that is new or waiting. `SchedulerCallbacks.dfy`
tells what the callbacks do from the actions of a run alone.

**Set-associative cache** (`Cache*.dfy`). The line arrays and the in-place LRU stack are proved to be
textbook LRU, from which inclusion between caches of different associativity follows. Tags are stored
in an `int`. Where a tag does not survive this the simulator departs from LRU: such a tag never hits, and
the one it is mistaken for does. A set is LRU throughout a run if and only if no such tag goes to it.
Any geometry with at least one set is covered, also when the number of sets is no power of two: the sets
above the largest power of two are then never used, and a block size that is no power of two splits blocks
(`CacheGeometry.dfy`). Hits, dirty lines and write-backs are characterised from the trace alone
(`CacheWriteBacks.dfy`).

**ADC peripheral** (`Adc*.dfy`). The four clocked VHDL processes step together; the four generics are
arbitrary positive numbers. Runs may contain any bus traffic, converter output and resets, and RESETN
acts at once. A conversion is described clock by clock in closed form; `AdcWire.dfy` states what the pins
and registers show in terms of the bus traffic.

## Model

The source column gives paths from the root of the repository.

| member | source | states |
|---|---|---|
| VmRefinement.PagingRefinesFlatMemory | virtual_memory_simulator/implementation/paging.c:38-85 | After every well-formed trace that there are enough frames for, and for every sequence of random draws, each byte of each running process is the last one that process wrote at that address since its START, or 0 |
| VmRefinement.ReadsReturnLastWrite | virtual_memory_simulator/implementation/paging.c:76-84 | Every read returns that byte and every write returns its own datum, through any faults, evictions, clean drops and swap-ins before it |
| VmRefinement.AccessEffect | virtual_memory_simulator/implementation/paging.c:38-85 | One access, seen from outside: it panics exactly when its page is absent and every frame is protected; otherwise it returns the addressed byte, changes that byte or nothing, and leaves every other page of every process alone |
| VmRefinement.PanicsIff | virtual_memory_simulator/implementation/page_replacement.c:67-70 | A line panics if and only if it is no STOP and a process runs for every frame but frame 0; the panic is then out of memory |
| VmRefinement.CompletesIff | virtual_memory_simulator/implementation/page_replacement.c:42-71 | A well-formed trace completes if and only if at every line other than STOP fewer processes run than there are frames beside frame 0 |
| VmRefinement.StoppedTraceLeavesNothing | virtual_memory_simulator/implementation/paging.c:88-116 | Once every process has stopped, the swap list is empty, no frame is mapped and only frame 0 is protected |
| VmRefinement.AllProtectedIff | virtual_memory_simulator/simulator-src/pagesim.c:190-217 | Every frame is protected if and only if the running processes are as many as the frames beside frame 0; they are never more |
| VmRefinement.ProtectedFrames | virtual_memory_simulator/simulator-src/pagesim.c:190-217 | The protected frames are frame 0 and one frame of its own for each running process |
| VmInvariant.EvictInv | virtual_memory_simulator/implementation/page_replacement.c:12-38 | Evicting any unprotected frame keeps the whole consistency invariant and every page of every process, and leaves the frame unmapped |
| VmInvariant.FreeFrameInv | virtual_memory_simulator/implementation/page_replacement.c:12-38 | The same for the frame that the policy picks; it fails exactly when all frames are protected |
| VmInvariant.MapFrameInv | virtual_memory_simulator/implementation/page_fault.c:17-35 | Mapping a free frame and filling it from swap or with zeros keeps the invariant and every page's contents, and cannot fail |
| VmInvariant.PageFaultInv | virtual_memory_simulator/implementation/page_fault.c:6-36 | A page fault keeps the invariant and every page's contents and makes the faulting page present |
| VmInvariant.TouchInv | virtual_memory_simulator/implementation/paging.c:56-84 | The access proper keeps the invariant and changes one byte of one page, or none |
| VmModel.VictimIsUnprotected | virtual_memory_simulator/implementation/page_replacement.c:42-71 | A victim is found if and only if some frame is unprotected; it is never protected and is unmapped whenever an unmapped one exists |
| VmModel.VictimIsChosen | virtual_memory_simulator/implementation/page_replacement.c:42-64 | The victim is the first frame that is unprotected and unmapped; without one it is the first unprotected frame whose draw is odd, and if all draws are even the last unprotected one |
| VmModel.EvictKeepsShape | virtual_memory_simulator/implementation/page_replacement.c:20-35 | Eviction resizes nothing, touches no other frame table entry, and resets the victim's |
| VmLifecycle.BootInv | virtual_memory_simulator/implementation/paging.c:10-15 | The state after `system_init` satisfies the invariant |
| VmLifecycle.StartInv | virtual_memory_simulator/implementation/paging.c:18-30 | START keeps the invariant, fails only when all frames are protected, changes no page of a running process, and gives the new one zeros everywhere, also when the process is still the current one and its old frame is the first free one |
| VmLifecycle.InstallInv | virtual_memory_simulator/implementation/paging.c:19-29 | Installing the new page table in a free frame, likewise |
| VmLifecycle.RestartedCurrent | virtual_memory_simulator/simulator-src/pagesim.c:132-135 | Starting a process that stopped while it was current keeps the invariant if and only if, before the line, the first free frame is the one that PTBR names |
| VmLifecycle.FreeFrameOfCurrent | virtual_memory_simulator/implementation/page_replacement.c:42-64 | While the current process is stopped, and for every random draw, `free_frame` hands out the frame PTBR names if and only if that is the first free one |
| VmRestart.RestartKeepsItsTable | virtual_memory_simulator/simulator-src/pagesim.c:99-113 | A run that restarts the current process at once, gives it its frame back and is covered by the theorems |
| VmRestart.RestartIsServedByOwner | virtual_memory_simulator/simulator-src/pagesim.c:132-135 | If another process has that frame for its table by then, the restarted process is served by that table |
| VmRestart.SharedTableLeaks | virtual_memory_simulator/implementation/paging.c:38-85 | In any state in which the current process is served by the table of another one, every byte it writes is what the other one reads next at that address |
| VmRestart.RestartBreaksFlatMemory | virtual_memory_simulator/simulator-src/pagesim.c:132-135 | A concrete run after which the restart of process 0 lets process 1 read a byte that it never wrote |
| VmRestart.RawAccessAgrees | virtual_memory_simulator/implementation/paging.c:38-85 | In a consistent state the unchecked access used for this is the access of the theorems |
| VmLifecycle.StopComputes | virtual_memory_simulator/implementation/paging.c:94-107 | The clean-up loop, page by page, never panics and amounts to one simultaneous release of the process's frames and tokens |
| VmLifecycle.CleanAll | virtual_memory_simulator/implementation/paging.c:94-107 | The loop run to its end from a consistent state, as a closed form |
| VmLifecycle.StopInv | virtual_memory_simulator/simulator-src/pagesim.c:115-124 | STOP never fails, keeps the invariant and changes no page of any other process |
| VmLifecycle.NothingLeaks | virtual_memory_simulator/implementation/paging.c:88-116 | In a consistent state without running processes swap is empty and only frame 0 is in use |
| VmChecks.InvPassesCheck | virtual_memory_simulator/simulator-src/pagesim.c:172-283 | The invariant implies everything that `check_validity` tests |
| VmChecks.EveryRunPassesCheck | virtual_memory_simulator/simulator-src/pagesim.c:172-283 | `check_validity` passes after every line of every well-formed trace |
| VmChecks.SwapIsExact | virtual_memory_simulator/simulator-src/pagesim.c:270-273 | On every run the swap tokens are exactly the nonzero `swap` fields of the running processes' entries, and no two entries share one |
| VmTranslation.AccessTranslates | virtual_memory_simulator/implementation/paging.c:43-84 | An access at `a` uses entry a / PAGE_SIZE of its process's table, faults exactly if that entry is invalid, and reads or writes the byte at physical address pfn * PAGE_SIZE + a % PAGE_SIZE of that entry, which lies in an unprotected, referenced frame of page bytes; the counters advance by exactly what the access is |
| VmTranslation.RunTranslates | virtual_memory_simulator/implementation/paging.c:43-84 | The same for every access of every run, with the byte that flat memory holds |
| VmTranslation.SamePageFaultsOnce | virtual_memory_simulator/implementation/page_splitting.h:6-13 | After an access of a process, its next one with the same quotient by PAGE_SIZE neither faults nor writes back, and no mapping changes |
| VmTranslation.RunFaultsOncePerPage | virtual_memory_simulator/implementation/page_splitting.h:6-8 | On every run two accesses in a row to one page fault at most once |
| VmTranslation.TouchTranslates | virtual_memory_simulator/implementation/paging.c:72-84 | The access proper uses that physical address, marks the frame referenced and, for a write, the entry dirty |
| VmChecks.EveryRunAccounts | virtual_memory_simulator/implementation/paging.c:47-82 | On every run accesses = reads + writes, faults <= accesses, and write-backs + dirty resident pages <= writes |
| VmChecks.EvictCounts | virtual_memory_simulator/implementation/page_replacement.c:24-28 | Eviction costs one write-back for a dirty page and nothing otherwise |
| SwapQueue.SwapQueue.Append | virtual_memory_simulator/simulator-src/swap.c:19-32 | Appending to the linked list: contents, links, size and maximum size |
| SwapQueue.SwapQueue.CreateEntry | virtual_memory_simulator/simulator-src/swap.c:9-17 | A fresh node whose token was never issued before |
| SwapQueue.SwapQueue.Enqueue | virtual_memory_simulator/simulator-src/swapops.c:18-23 | A new entry adds one token and its page to the map and keeps all others |
| SwapQueue.SwapQueue.Find | virtual_memory_simulator/simulator-src/swap.c:60-71 | The search returns the node of a live token, and null exactly when the token is not in the list |
| SwapQueue.SwapQueue.Overwrite | virtual_memory_simulator/simulator-src/swapops.c:23 | Overwriting a node's page changes that token only |
| SwapQueue.SwapQueue.Dequeue | virtual_memory_simulator/simulator-src/swap.c:35-58 | Removing a live token removes exactly it; every other token keeps its page and the list its order |
| SwapQueue.SwapQueue.Locate | virtual_memory_simulator/simulator-src/swap.c:37-54 | The search loop finds the node and its predecessor |
| SwapQueue.SwapQueue.Unlink | virtual_memory_simulator/simulator-src/swap.c:41-57 | Unlinking at the head, in the middle and at the tail keeps head, tail, size and links in agreement |
| SwapQueue.MapOfAppend | virtual_memory_simulator/simulator-src/swap.c:19-32 | Appending an unused token extends the map that the list stands for |
| SwapQueue.MapOfRemove | virtual_memory_simulator/simulator-src/swap.c:35-58 | Removing the node at any position removes one token from that map |
| SwapQueue.MapOfUpdate | virtual_memory_simulator/simulator-src/swapops.c:15-24 | Overwriting a page in the list updates one token of that map |
| VmMachine.Machine.constructor | virtual_memory_simulator/simulator-src/pagesim.c:95-96 | The machine boots into the model's initial state |
| VmMachine.Machine.SelectVictimFrame | virtual_memory_simulator/implementation/page_replacement.c:42-71 | The two scanning loops with their early exits compute the model's victim |
| VmMachine.Machine.EvictFrame | virtual_memory_simulator/implementation/page_replacement.c:19-35 | In-place eviction computes the model's |
| VmMachine.Machine.TakeFrame | virtual_memory_simulator/implementation/page_replacement.c:12-38 | `free_frame` in place, including its panic |
| VmMachine.Machine.WriteSwap | virtual_memory_simulator/simulator-src/swapops.c:15-24 | `swap_write` on the linked list computes the map update |
| VmMachine.Machine.FaultIn | virtual_memory_simulator/implementation/page_fault.c:6-36 | `page_fault` in place |
| VmMachine.Machine.FillFrame | virtual_memory_simulator/implementation/page_fault.c:28-35 | Restoring from the linked list or zero-filling |
| VmMachine.Machine.InitProcess | virtual_memory_simulator/implementation/paging.c:18-30 | `proc_init` and START in place |
| VmMachine.Machine.TouchByte | virtual_memory_simulator/implementation/paging.c:56-84 | The read or write proper in place |
| VmMachine.Machine.MemAccess | virtual_memory_simulator/implementation/paging.c:38-85 | Context switch and `mem_access` in place compute the model's access |
| VmMachine.Machine.StopProcess | virtual_memory_simulator/implementation/paging.c:88-116 | The clean-up loop over all pages in place computes STOP |
| VmMachine.Machine.ReleaseSwap | virtual_memory_simulator/simulator-src/swapops.c:26-33 | `swap_free` on the linked list |
| VmMachine.Machine.Line | virtual_memory_simulator/simulator-src/pagesim.c:98-151 | One line of the trace |
| VmMachine.OneLine | virtual_memory_simulator/simulator-src/pagesim.c:98-151 | The line after any well-formed trace answers as flat memory would, or panics for want of memory, exactly when no frame is left for it |
| VmMachine.NextOutput | virtual_memory_simulator/simulator-src/pagesim.c:98-151 | One pass through the main loop yields the flat-memory answer or an out-of-memory panic |
| VmMachine.RunTrace | virtual_memory_simulator/simulator-src/pagesim.c:98-151 | The whole loop, in place: every answer is the flat-memory answer, and it stops early exactly at the first line that no frame is left for |
| VmMachine.Simulate | virtual_memory_simulator/simulator-src/pagesim.c:86-151 | Boot and loop together, for every geometry, trace and random choice: the run completes if and only if there are enough frames for the trace |
| PipelineTheorems.PipelineRefinesCore | pipelined_riscv_core/ID_Stage.sv:239-351 | At every cycle the pipeline's register writes so far are those of the first instructions that the single-cycle core executes, in order, and its register file is that core's after them |
| PipelineTheorems.RunRefinesStream | pipelined_riscv_core/ID_Stage.sv:239-351 | The same for every run of the pipeline against any architectural history of the program |
| RiscvConformance.PipelineConforms | pipelined_riscv_core/ID_Stage.sv:133-234 | Against a reference of the instruction set that shares nothing with the cores (encodings, two's-complement meaning, PC): at every cycle the pipeline's register file is the reference's after the retired instructions, of which there are at least n by cycle 3n + 12 |
| RiscvConformance.CoreConforms | riscv_decode_core/Decode.sv:108-210 | When the word at the PC of the single-cycle core encodes an instruction of the reference, PC and registers after the edge are what the reference says: ADD, SUB, SLT, ADDI with a signed immediate, JAL with link and target, and the all-zero word |
| RiscvConformance.OtherFunctionsAreNop | riscv_decode_core/Decode.sv:114-127 | In the single-cycle core a register or immediate operation with any other function code writes nothing and the PC advances |
| RiscvConformance.ExecutionIsCore | riscv_decode_core/Core.sv:48-130 | Every execution of the reference from address 4 is the run of the single-cycle core |
| RiscvConformance.SupportedIffExecutes | pipelined_riscv_core/ID_Stage.sv:133-234 | A program is covered by the theorems if and only if the reference can execute it without end |
| RiscvConformance.SubsetIsEncoded | riscv_decode_core/Decode.sv:108-181 | The words of the subset are exactly the encodings of the reference's instructions |
| RiscvConformance.OffsetDecodes | riscv_decode_core/Decode.sv:88-90 | The scrambled fields of a jump are put together to the signed offset that was encoded |
| PipelineTheorems.LogsArePrefixes | pipelined_riscv_core/WB_Stage.sv:33-56 | Run side by side, the pipeline's write log is always a prefix of the single-cycle core's |
| PipelineTheorems.InFlightWrites | pipelined_riscv_core/Mem_Stage.sv:58-65 | With the writes in MEM/WB and EX/MEM applied, the register files agree at the instruction in EX |
| PipelineTheorems.OperandsAreArchitectural | pipelined_riscv_core/FWD_Control.sv:39-76 | Whatever is in EX either is the next instruction in program order, with architectural values on both muxed operands, or writes nothing and redirects nothing; nothing behind a JAL has any effect |
| PipelineTheorems.RetiresInTime | pipelined_riscv_core/Stall_Control.sv:37-105 | After 3n + 12 edges at least n instructions have retired |
| PipelineTheorems.EveryWriteArrives | pipelined_riscv_core/Stall_Control.sv:37-105 | Every register write of the single-cycle core is made by the pipeline, the n-th instruction's by edge 3n + 12 |
| PipelineTheorems.AtMostTwoStalls | pipelined_riscv_core/Stall_Control.sv:90-103 | Load-free programs never stall three cycles in a row |
| PipelineTheorems.LoadUseWaits | pipelined_riscv_core/Stall_Control.sv:77-88 | Whatever the pipeline holds, no instruction that reads a register enters EX right behind a load of that register |
| PipelineTheorems.StallHasReason | pipelined_riscv_core/Stall_Control.sv:77-103 | A stall always has a reason: the instruction in ID reads a register that the load in EX loads or that is written back in this cycle |
| PipelineTheorems.JumpLosesTwoSlots | pipelined_riscv_core/Flush_Control.sv:30-37 | A JAL loses exactly two slots; its target waits one more cycle if and only if it reads the link register |
| PipelineTheorems.IssueRate | pipelined_riscv_core/Stall_Control.sv:37-105 | The number of instructions issued is at least a third of the cycles, up to a constant |
| PipelineTheorems.WaitStep | pipelined_riscv_core/Stall_Control.sv:37-105 | The measure behind it: each cycle without an issue shortens the wait, each issue lengthens it by at most two |
| PipelineTheorems.JumpOffsetsAgree | pipelined_riscv_core/ID_Stage.sv:197 | The 21-bit signed field of one core and the twelve sign copies of the other are the same jump offset |
| PipelineTheorems.DecodersAgree | riscv_decode_core/Decode.sv:92-184 | On the instruction subset the two decoders agree on what is written and whether |
| PipelineTheorems.CoreIsStream | riscv_decode_core/Fetch.sv:30-58 | The single-cycle core executes one instruction per edge from address 4 |
| PipelineTheorems.AlignedIsSupported | pipelined_riscv_core/Instr_Mem.sv:42-58 | The theorems cover every image whose words at multiples of four are in the subset and whose jumps stay aligned, whatever the byte-addressed memory shows elsewhere |
| PipelineTheorems.RunInv | pipelined_riscv_core/Core.sv:108-329 | Every reachable state of the pipeline satisfies the stage invariant |
| PipelineProof.OperandArrives | pipelined_riscv_core/FWD_Control.sv:39-76 | A register read in ID reaches EX with its architectural value although up to three older writes are pending |
| PipelineProof.MuxesPick | pipelined_riscv_core/EX_Stage.sv:105-123 | The forwarding priority and the write-back stall with its two exemptions together always pick the youngest older value |
| PipelineProof.ExecuteStep | pipelined_riscv_core/EX_Stage.sv:70-99 | EX computes the architectural result, and redirects the PC exactly for a JAL, to its target |
| PipelineProof.RetireStep | pipelined_riscv_core/Register_File.sv:38-87 | One edge retires one instruction into the register file, never register 0 |
| PipelineProof.IssueStep | pipelined_riscv_core/ID_Stage.sv:323-350 | An instruction that ID issues arrives in EX decoded and with its operands in order |
| PipelineProof.FlushStep | pipelined_riscv_core/IF_Stage.sv:46-86 | After a flush both younger stages are empty and the target is fetched |
| PipelineProof.StallStep | pipelined_riscv_core/IF_Stage.sv:53-80 | A stall freezes the front end and loses nothing |
| PipelineProof.AdvanceStep | pipelined_riscv_core/IF_Stage.sv:57-85 | Without flush or stall the front end stays on the path of the program |
| PipelineProof.InvStep | pipelined_riscv_core/Core.sv:108-329 | Every clock edge keeps the stage invariant |
| Pipeline.ResetTakesThreeEdges | pipelined_riscv_core/EX_Stage.sv:88-99 | Three or more edges in reset clear the pipeline whatever it held, although EX/MEM and MEM/WB have no reset |
| Pipeline.TwoResetEdgesLeaveAWrite | pipelined_riscv_core/Mem_Stage.sv:58-65 | Two are not enough: a JAL in EX is still about to write |
| DecodeCore.ResetEdge | riscv_decode_core/Fetch.sv:39-58 | One edge in reset clears the single-cycle core whatever it held |
| DecodeCore.AtSteady | riscv_decode_core/Fetch.sv:39-58 | The single-cycle core always executes the word at its PC and first the one at address 4 |
| PipelineMachine.Core.RegisterFileEdge | pipelined_riscv_core/Register_File.sv:61-87 | The 32 flip-flops, one by one |
| PipelineMachine.Core.StallControl | pipelined_riscv_core/Stall_Control.sv:37-105 | The stall block, assignment by assignment, computes the stall rules |
| PipelineMachine.Core.ForwardControl | pipelined_riscv_core/FWD_Control.sv:39-76 | The forwarding block, case by case |
| PipelineMachine.Core.WriteBackMux | pipelined_riscv_core/WB_Stage.sv:33-56 | The write-back mux |
| PipelineMachine.Core.Execute | pipelined_riscv_core/EX_Stage.sv:101-145 | Operand muxes and ALU of the execute stage |
| PipelineMachine.Core.FlushControl | pipelined_riscv_core/Flush_Control.sv:30-37 | The flush condition |
| PipelineMachine.Core.SelectNextPc | pipelined_riscv_core/IF_Stage.sv:46-65 | The nested next-PC priority |
| PipelineMachine.Core.FetchBuffer | pipelined_riscv_core/IF_Stage.sv:70-86 | The IF/ID buffer: reset and flush clear, a stall holds |
| PipelineMachine.Core.DecodeInstruction | pipelined_riscv_core/ID_Stage.sv:133-234 | The decoder: defaults first, then what each opcode overrides |
| PipelineMachine.Core.DecodeBuffer | pipelined_riscv_core/ID_Stage.sv:239-351 | The ID/EX buffer |
| PipelineMachine.Core.ClockEdge | pipelined_riscv_core/Core.sv:108-329 | The stage blocks wired together: all registers are updated from the values before the edge as the model says |
| PipelineMachine.RunFromPowerUp | pipelined_riscv_core/Core.sv:108-329 | From any power-up contents, three or more reset edges and t clock edges leave the single-cycle core's register file |
| SchedulerProof.SleepersAreSafe | os_scheduler_simulator/src/scheduler.c:96-131 | No lost wakeup, over all interleavings: while a CPU thread is blocked in `idle`, the ready queue is no longer than the number of threads awake and bound for it |
| SchedulerProof.QuiescentIsBusy | os_scheduler_simulator/src/scheduler.c:96-105 | With no thread on its way to the queue, a non-empty queue means that no CPU sleeps |
| SchedulerProof.ExactlyOnePlace | os_scheduler_simulator/src/scheduler.c:71-183 | At every point of every interleaving each process is in exactly one place, and its state says which |
| SchedulerProof.TerminatedForGood | os_scheduler_simulator/src/scheduler.c:159-170 | Over every run a terminated process stays terminated |
| SchedulerProof.TerminatedIsFinal | os_scheduler_simulator/src/scheduler.c:159-170 | No step changes the state of a terminated process |
| SchedulerCallbacks.ControlFlow | os_scheduler_simulator/src/scheduler.c:71-183 | The order of each thread's steps, from the actions of the run alone: what a thread can do next is decided by its own last step, what it found then, and whether it has been signalled since; it sleeps exactly after finding the queue empty and until signalled |
| SchedulerCallbacks.FirstCall | os_scheduler_simulator/src/scheduler.c:96-170 | Until its first step a thread can be called with any callback, `idle` included |
| SchedulerCallbacks.DispatchInstallsHead | os_scheduler_simulator/src/scheduler.c:71-83 | `schedule` installs the process that was at the head of the queue when it looked, RUNNING, or none if the queue was empty |
| SchedulerCallbacks.PreemptRequeues | os_scheduler_simulator/src/scheduler.c:115-131 | `preempt` frees the CPU and puts the process it found there READY at the end of the queue |
| SchedulerCallbacks.YieldBlocks | os_scheduler_simulator/src/scheduler.c:141-151 | The process on the CPU is WAITING after `yield`, in no queue and on no CPU, nothing else changes, and `wake_up` can be called for it |
| SchedulerCallbacks.BlockedUntilWoken | os_scheduler_simulator/src/scheduler.c:141-151 | A process that waits does so, in no queue and on no CPU, until a `wake_up` names it |
| SchedulerCallbacks.NewUntilWoken | os_scheduler_simulator/src/scheduler.c:176-183 | Every process starts NEW and is in no queue and on no CPU until the first `wake_up` that names it |
| SchedulerCallbacks.WakeUpReadies | os_scheduler_simulator/src/scheduler.c:176-183 | `wake_up` can be called for exactly the new and the waiting processes, and puts its process READY at the end of the queue |
| SchedulerCallbacks.NothingToLeave | os_scheduler_simulator/src/scheduler.c:143-168 | `yield` and `terminate` on a CPU without a process change nothing |
| SchedulerCallbacks.TerminateEnds | os_scheduler_simulator/src/scheduler.c:159-170 | From `terminate` on the process that was on the CPU is TERMINATED and is never again in the queue or on a CPU |
| SchedulerCallbacks.RunHasActions | os_scheduler_simulator/src/scheduler.c:71-183 | Every run of the protocol is such a sequence of actions |
| SchedulerProof.DispatchedInOrder | os_scheduler_simulator/src/scheduler.c:42-66 | The process enqueued at position k is dispatched after exactly k others and waits in the queue until then |
| SchedulerProof.FifoStep | os_scheduler_simulator/src/scheduler.c:42-66 | Each step keeps: enqueue history = dequeue history + queue |
| SchedulerProof.ConservedStep | os_scheduler_simulator/src/scheduler.c:71-183 | Each step keeps: no process is lost, duplicated or held twice |
| SchedulerProof.WakeupStep | os_scheduler_simulator/src/scheduler.c:96-131 | Each step, signal and spurious wakeup keeps the bound on the queue |
| SchedulerProof.EnqueuedOnlyOnce | os_scheduler_simulator/src/scheduler.c:42-51 | A process about to be linked into the queue is never in it already |
| SchedulerProof.InvStep | os_scheduler_simulator/src/scheduler.c:71-183 | Each step keeps all three invariants |
| SchedulerProof.RunInv | os_scheduler_simulator/src/scheduler.c:71-183 | They hold in every state of every run |
| SchedulerMachine.ReadyQueue.Enqueue | os_scheduler_simulator/src/scheduler.c:42-51 | The intrusive list refines appending to a sequence |
| SchedulerMachine.ReadyQueue.Dequeue | os_scheduler_simulator/src/scheduler.c:54-66 | The intrusive list refines removing the first element |
| SchedulerMachine.Scheduler.ReadySection | os_scheduler_simulator/src/scheduler.c:178-182 | The locked section of `wake_up`, and the last of `preempt`, in place |
| SchedulerMachine.Scheduler.TakeSection | os_scheduler_simulator/src/scheduler.c:74-76 | The first section of `schedule` in place |
| SchedulerMachine.Scheduler.InstallSection | os_scheduler_simulator/src/scheduler.c:77-83 | The second section of `schedule` in place |
| SchedulerMachine.Scheduler.DetachSection | os_scheduler_simulator/src/scheduler.c:118-121 | The first section of `preempt` in place |
| SchedulerMachine.Scheduler.LeaveSection | os_scheduler_simulator/src/scheduler.c:143-149 | The section of `yield` and of `terminate` in place |
| SchedulerMachine.Scheduler.YieldSection | os_scheduler_simulator/src/scheduler.c:143-149 | The section of `yield`: the process is WAITING and the CPU free |
| SchedulerMachine.Scheduler.TerminateSection | os_scheduler_simulator/src/scheduler.c:161-168 | The section of `terminate`: the process is TERMINATED and the CPU free |
| SchedulerMachine.Scheduler.QueueIsEmpty | os_scheduler_simulator/src/scheduler.c:99 | The test that `idle` loops on |
| CacheTheorems.CacheIsIdealLru | cache_simulator/cachesim.c:77-125 | After every access sequence whose tags for that set fit an `int`, the valid lines of a set hold exactly the most recently used distinct tags that map there, as many as there are ways, and the stack lists them by recency |
| CacheTheorems.LruIffTagsFit | cache_simulator/cachesim.c:77-125 | A set is ideal LRU at every point of a run if and only if every tag that goes to it survives being stored in an `int` |
| CacheTheorems.LruKept | cache_simulator/cachesim.c:120 | An access keeps a set ideal LRU if and only if it goes elsewhere or its tag survives being stored |
| CacheTheorems.VictimIsLeastRecent | cache_simulator/lrustack.c:43-45 | In a full set the line that `lru_stack_get_lru` names holds the tag whose last use is earlier than that of every other line |
| CacheTheorems.HitIffResident | cache_simulator/cachesim.c:85-101 | An access hits if and only if its tag is among them |
| CacheTheorems.HitIffStackDistance | cache_simulator/cachesim.c:85-101 | An access hits if and only if its tag was used before and fewer distinct tags than ways were used in its set since |
| CacheTheorems.Inclusion | cache_simulator/lrustack.c:54-71 | Of two caches that differ in ways only, the larger holds every block that the smaller holds, at every point of a run |
| CacheTheorems.InclusionOfContents | cache_simulator/lrustack.c:54-71 | What the smaller cache holds in a set is a prefix, by recency, of what the larger holds |
| CacheTheorems.HitsGrowWithWays | cache_simulator/cachesim.c:94-101 | Hits never decrease when ways are added |
| CacheTheorems.RepeatHitsIffFits | cache_simulator/cachesim.c:88 | In whatever state, using a tag twice in a row hits the second time if and only if the tag survives being stored |
| CacheTheorems.UnfitNeverHits | cache_simulator/cachesim.c:88 | A tag that does not survive being stored never hits, in whatever state |
| CacheTheorems.FalseHit | cache_simulator/cachesim.c:88 | After the access of such a tag the tag it is mistaken for hits, whether it was ever used or not |
| CacheTheorems.FalseHitExample | cache_simulator/cachesim.c:88 | With only address 0x80000000 read, address 0xFFFFFFFF80000000 hits |
| CacheTheorems.CountersAddUp | cache_simulator/cachesim.c:78-117 | On every run hits + misses = accesses, misses = valid lines + replacements, and write-backs + dirty lines <= writes |
| CacheTheorems.AccessCounts | cache_simulator/cachesim.c:94-124 | How one access changes the numbers of valid and dirty lines |
| CacheWriteBacks.DirtyIffWritten | cache_simulator/cachesim.c:94-122 | A valid line is dirty if and only if the trace wrote its tag at or after the miss that last brought it in |
| CacheWriteBacks.CountersAreExact | cache_simulator/cachesim.c:78-117 | The four numbers printed, from the trace alone: the hits are the accesses that find their tag among the most recently used, and the write-backs are exactly the misses in a full set whose least recent tag has been written since it was last brought in |
| CacheWriteBacks.DirtyStep | cache_simulator/cachesim.c:94-122 | One access: which lines are dirty afterwards |
| CacheWriteBacks.WriteBackStep | cache_simulator/cachesim.c:112-117 | One access writes back if and only if it misses in a full set whose least recent tag is dirty |
| CacheGeometry.SharedIffSameBlock | cache_simulator/cachesim.c:80-82 | With blocks of a power of two, two addresses go to the same set with the same tag if and only if they have the same quotient by the block size |
| CacheGeometry.BlocksIffPowerOfTwo | cache_simulator/cachesim.c:52 | This holds for all pairs of addresses if and only if the block size is a power of two |
| CacheGeometry.UsualSplit | cache_simulator/cachesim.c:80-82 | With powers of two the index and the tag are remainder and quotient of the block number by the number of sets |
| CacheGeometry.UsedSets | cache_simulator/cachesim.c:51-53 | The cache has cacheSize / (blockSize * ways) sets; all are used if and only if that number is a power of two, and otherwise those below the largest power of two |
| CacheProof.AccessStep | cache_simulator/cachesim.c:77-125 | One access of a set is one step of ideal LRU, and whether it hits, fills or replaces |
| CacheProof.MissStep | cache_simulator/cachesim.c:103-124 | A miss puts its tag in front and drops the last one if the set was full |
| CacheProof.HitStep | cache_simulator/cachesim.c:94-101 | A hit moves its tag to the front and changes no tag |
| CacheProof.FillStep | cache_simulator/cachesim.c:103-124 | A miss with lines free takes the first invalid line |
| CacheProof.ReplaceStep | cache_simulator/cachesim.c:112-124 | A miss in a full set replaces the least recently used line and writes it back if it was dirty |
| CacheProof.TakeTouch | cache_simulator/lrustack.c:54-71 | Truncating a recency list commutes with using a tag, which is why LRU caches include each other |
| CacheProof.FreePosition | cache_simulator/cachesim.c:104-110 | While a set fills up, the first invalid line is the next one on the stack |
| CacheModel.FoundAgainIffFits | cache_simulator/cachesim.c:88 | A tag converted to `int` and back is unchanged if and only if it fits |
| CacheModel.IndexAndTagIdentify | cache_simulator/cachesim.c:80-82 | For every number of sets, power of two or not, the index is in bounds and index and tag determine the block |
| CacheModel.ShiftsSplitAddress | cache_simulator/cachesim.c:80-82 | The shifts and the mask, bit by bit, compute this index and tag |
| CacheModel.MadeGeometryOk | cache_simulator/cachesim.c:51-53 | A cache of at least one set gets a geometry with this property |
| CacheModel.Log2Bounds | cache_simulator/cachesim.c:21-28 | `simple_log_2` is the floor of the logarithm |
| CacheMachine.SimpleLog2 | cache_simulator/cachesim.c:21-28 | The halving loop |
| CacheMachine.LruStack.SetMru | cache_simulator/lrustack.c:54-71 | Search, early return and in-place shift equal moving to the front |
| CacheMachine.SetCell.Access | cache_simulator/cachesim.c:85-124 | The access of one set in place, with both scanning loops |
| CacheMachine.Simulator.constructor | cache_simulator/cachesim.c:45-68 | `cachesim_init` builds an empty cache of the derived geometry |
| CacheMachine.Simulator.Access | cache_simulator/cachesim.c:77-125 | `cachesim_access` in place: shifts, mask, counters, set selection and set |
| CacheMachine.Simulate | cache_simulator/cachesim.c:188-190 | A whole trace yields the counters of the model's run |
| AdcTheorems.SampleIntegrity | scomp_adc_peripheral/ADCTest/ADC_Peripheral.vhd:290-326 | At every moment of every run, with any traffic and resets, the data register is at its reset value with READY low, or holds all twelve bits sampled at the twelve SCK rises of one conversion, most significant first |
| AdcTheorems.ReadyRises | scomp_adc_peripheral/ADCTest/ADC_Peripheral.vhd:252-254 | READY rises only at the end of a conversion accepted exactly `Duration` clocks before, and its sample is then in the data register |
| AdcTheorems.Timing | scomp_adc_peripheral/ADCTest/ADC_Peripheral.vhd:180-265 | From the edge that accepts a start to the one that sets READY it takes exactly CONV_HIGH_CLKS + CONV_WAIT_CLKS + 23 * CLK_DIV + ACQ_HOLD_CLKS clocks, busy throughout, with CONVST high for the first CONV_HIGH_CLKS of them |
| AdcTheorems.TwelveRises | scomp_adc_peripheral/ADCTest/ADC_Peripheral.vhd:267-287 | A conversion has exactly twelve SCK rises |
| AdcTheorems.RisesAreBits | scomp_adc_peripheral/ADCTest/ADC_Peripheral.vhd:238-246 | At every clock of a conversion the number of rises so far is the number of bits that are in |
| AdcTheorems.CommandOut | scomp_adc_peripheral/ADCTest/ADC_Peripheral.vhd:300-312 | At the j-th rise SDI shows bit 11 - j of the command for the channel latched at acceptance, whatever is written later |
| AdcWire.CommandOnTheWire | scomp_adc_peripheral/ADCTest/ADC_Peripheral.vhd:95-95 | The twelve rises of SCK come CONV_HIGH_CLKS + CONV_WAIT_CLKS + (2 j + 1) CLK_DIV clocks after acceptance, and SDI then shows 1, bits 2, 1 and 0 of the word last written to 0xC3 before acceptance (0 if there was none since reset), 1, and zeros |
| AdcWire.ChannelLatched | scomp_adc_peripheral/ADCTest/ADC_Peripheral.vhd:171-175 | The channel register holds the low bits of that word at every moment of every run |
| AdcWire.Readable | scomp_adc_peripheral/ADCTest/ADC_Peripheral.vhd:100-140 | Exactly the addresses 0xC1 to 0xC3 can be read, and 0xC3 shows the channel last written |
| AdcWire.FirstConversion | scomp_adc_peripheral/ADCTest/ADC_Peripheral.vhd:143-215 | After a reset nothing happens up to the first START; the conversion is accepted one edge later, CONVST is high for exactly CONV_HIGH_CLKS clocks after that, and BUSY from then on |
| AdcTheorems.Course | scomp_adc_peripheral/ADCTest/ADC_Peripheral.vhd:198-263 | The value of every register at every clock of a conversion, in closed form |
| AdcTheorems.Origin | scomp_adc_peripheral/ADCTest/ADC_Peripheral.vhd:198-208 | Outside IDLE there is always a conversion under way that was accepted in time |
| AdcTheorems.ConversionsApart | scomp_adc_peripheral/ADCTest/ADC_Peripheral.vhd:259-262 | Two conversions are at least `Duration` + 2 clocks apart |
| AdcTheorems.StartWhileConverting | scomp_adc_peripheral/ADCTest/ADC_Peripheral.vhd:153-164 | A START written during a conversion leads to another one if and only if CONVST is low after that edge; before, it is lost |
| AdcTheorems.Handshake | scomp_adc_peripheral/ADCTest/ADC_Peripheral.vhd:143-265 | A driver that clears READY, later writes START, and polls from two edges after the clear, on any schedule, reads READY exactly from the end of its own conversion, and then that conversion's sample; BUSY reads 1 exactly from acceptance to the first clock of READY, and the other status bits 0 |
| AdcTheorems.EarlyPollIsStale | scomp_adc_peripheral/ADCTest/ADC_Peripheral.vhd:194-196 | One edge after the clear READY still shows its old value |
| AdcTheorems.CountersInRange | scomp_adc_peripheral/ADCTest/ADC_Peripheral.vhd:73-77 | Every counter stays in its declared range on every run |
| AdcTheorems.RunFromReset | scomp_adc_peripheral/ADCTest/ADC_Peripheral.vhd:144-148 | All traffic has exactly one run from reset |
| AdcProof.ConversionStep | scomp_adc_peripheral/ADCTest/ADC_Peripheral.vhd:198-263 | Each clock of a conversion leads to the next |
| AdcProof.ShiftStep | scomp_adc_peripheral/ADCTest/ADC_Peripheral.vhd:267-317 | Each clock of the shifting: sampling at rises, sending at falls, nothing in between |
| AdcProof.LastRise | scomp_adc_peripheral/ADCTest/ADC_Peripheral.vhd:239-243 | The twelfth rise ends the shifting with all bits in |
| AdcMachine.Peripheral.BusProcess | scomp_adc_peripheral/ADCTest/ADC_Peripheral.vhd:143-177 | The bus interface process, assignment by assignment |
| AdcMachine.Peripheral.ControlProcess | scomp_adc_peripheral/ADCTest/ADC_Peripheral.vhd:180-265 | The control state machine process |
| AdcMachine.Peripheral.SerialClockProcess | scomp_adc_peripheral/ADCTest/ADC_Peripheral.vhd:268-287 | The SCK process |
| AdcMachine.Peripheral.DataPathProcess | scomp_adc_peripheral/ADCTest/ADC_Peripheral.vhd:290-326 | The SPI data path process |
| AdcMachine.Peripheral.RisingEdge | scomp_adc_peripheral/ADCTest/ADC_Peripheral.vhd:143-326 | The four processes together: all read the values before the edge |
| AdcMachine.Run | scomp_adc_peripheral/ADCTest/ADC_Peripheral.vhd:143-326 | The peripheral driven by any events goes through the states of the run |

## Left out

- Virtual memory: option and trace parsing, printing, the floating-point average access time and the generator behind `prng_rand` (any stream of parities is allowed). CLOCKSWEEP has no implementation to model.
- Virtual memory: a frame is modelled by what it holds (frame table, page table or page bytes) instead of raw bytes under pointer casts; tokens do not wrap at 2^64; addresses outside the virtual address space and pids outside the table are not modelled.
- Virtual memory: `check_validity` is a predicate rather than its marker-filling loops; its duplicate-frame test is implied by the others.
- Pipeline: loads, stores and other opcodes or function codes outside the subset; the load-use rule is present in the stall logic but never fires. The memory data path, the LSU and the placement of data memory are not part of this model.
- Pipeline: instruction memory is a total function from addresses to words, so `mem_en` is high and no address is out of range; how a word is put together from four bytes is not modelled.
- Scheduler: the simulator in `os-sim.c` (thread handshake, timers, the simulated processes, the Gantt chart and its readers-writers lock) is replaced by the contract above; `context_switch` and the time slice have no effect on the scheduler's data.
- Scheduler: fairness and progress of the threads; the theorems are about safety.
- Cache: reading the trace, printing, and overflow of the counters and of `block_size * ways`; a geometry with no set, which the program cannot index.
- ADC: metavalues of `std_logic` and bus resolution beyond "drives a value or nothing"; the other designs and programs of that directory.
- The SCOMP processor, its assembly programs, memory images, displays, clock dividers and vendor primitives are not part of this model: a driver of the ADC is any bus traffic.
