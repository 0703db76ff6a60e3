# A verified model of the SecOS exam kernel

SecOS is a small x86-32 teaching kernel. This project models its four linked cores in Dafny and
proves what they promise:

- the two-task preemptive system of `tp_exam/tp.c`: the address spaces that `config_pgds` builds, the
  clock and system-call handlers run through the MMU, and whole runs of the machine (tasks, system
  calls and clock ticks in any order);
- the page tables of `tp4/tp.c`, edited through themselves once paging is on;
- the formatter of `kernel/core/print.c` and the byte operations of `kernel/include/string.h`;
- interrupt entry and exit: `kernel/core/idt.s`, `kernel/core/intr.c`, `kernel/core/pic.c`, and the
  descriptors of `kernel/include/intr.h`, `kernel/include/segmem.h` and `tp1/tp.c`.

## How it is built

| file | contents |
|---|---|
| `Words.dfy`, `Bytes.dfy`, `Paging.dfy` | 32-bit words, their bytes, physical memory, page entries, the page walk of the Intel SDM (volume 3A, sections 4.3 and 4.6), and the `Board` that loads and stores through it |
| `AddressSpaces.dfy` | `config_pgds`, and what its ten tables mean for all 2^32 addresses |
| `LiveEdit.dfy` | `tp4` |
| `Machine.dfy`, `Kernel.dfy` | registers, kernel variables, and the handlers as methods of a `Processor` that goes through the MMU for every word; each is proved equal to a function on states (`Tick`, `Finished`, `Syscall`), up to accessed and dirty bits |
| `Scheduling.dfy` | what a tick does to the two tasks, in ring 3 and in the middle of a launch |
| `Runs.dfy` | all runs, with arbitrary task programs |
| `Numbers.dfy` | the words of the page tables, contexts, records and frames as plain numbers at plain addresses |
| `Starts.dfy` | where tasks start in a run, that they can push there, and what the console of a run shows |
| `Projection.dfy` | preemption is invisible, and exactly when |
| `Launches.dfy` | the boot memory that decides it, and runs that fail without it |
| `Refinement.dfy` | a proof rule for task programs: what is proved of a task alone holds in every run |
| `Counter.dfy` | the two programs of `tp_exam`, and their counter |
| `TaskCode.dfy` | `task1_function` instruction by instruction, as compiled without optimisation |
| `Digits.dfy`, `Rendering.dfy`, `Formats.dfy` | numerals, the unbounded rendering of a format, and the grammar of formats |
| `Directives.dfy` | for each letter of a format, what it prints |
| `Print.dfy`, `Console.dfy` | the bounded formatter in place, `printf` |
| `ByteOps.dfy` | `memcpy`, `memset`, `strchr`, `strlen` |
| `BitFields.dfy`, `Descriptors.dfy` | packed structs, gates, segment descriptors, selectors, the GDT walk |
| `Trampolines.dfy` | a stack machine that runs `idt.s` |
| `Pic.dfy` | the 8259A pair and the way of an IRQ from its line to its EOI |

`dafny verify dfyconfig.toml` checks everything.

Physical memory is a sequence of 2^30 dwords, so addresses are modelled by the dword; the byte
operations have a byte memory of their own, and `ByteOps.CopiedDwords` and `ByteOps.FilledDwords` say that on the
bytes of physical memory they do what the kernel's dword copies do. The processor sets accessed and dirty bits in the entries
it walks through, so states are compared up to these bits inside the page tables, and the proofs
show that no translation depends on them. CR4.PSE and CR0.WP are zero, as in this kernel.

The theorems over runs are about real runs: `Kernel.Processor.Config` ends in a boot state for any memory in which
`current_task_idx` holds its initial -1, `Runs.AlwaysPreemptible` shows that a tick is possible in every state, and `Counter.SyscallIsReady` that
task 2 can always make its call. Their steps are instructions of the running task (among them both
software interrupts that ring 3 may raise, 0x80 and 32), clock ticks, and the steps of the kernel between
the EOI of a launch and its `iret`. `TaskCode.Task1NeverFaults` shows that the compiled task 1 has a next step
whenever it has the processor.

Many definitions are used on both sides of a statement: the code writes a table, a frame or a numeral with the same
function that the specification reads it with. For each of them there is a statement in numbers alone: those of
`Numbers.dfy` and `Directives.dfy`, the quadwords in the contracts of `Descriptors.dfy`, and the error codes and
frames of `Trampolines.dfy`.

## What is true and what is not

Four places behave otherwise than one would expect; each is stated exactly.

- **A launch can be interrupted.** The fresh-launch branch executes `sti` (tp_exam/tp.c:178) and sends
  its EOI (tp_exam/tp.c:188) before `iret`, so a tick can come in between, in ring 0. In the model a tick
  that launches a task therefore ends there (`StartTask`, `LaunchIsInterruptible`), `FinishLaunch` is
  a step of its own, and the next tick may come first. Such a tick saves, with the ring-0 registers, four
  of the five words of the launch frame; SS is the one word the 60-byte copy does not reach. When
  the launch is resumed its `iret` pops these four and, as SS, whatever lies above the copy, and
  `InterruptedLaunchCompletesIff` says that it completes if and only if that is the SS of the task. If
  the resuming tick itself came in a launch, it always is. On the interrupt stack of the other task
  it is a word beyond the stack top that the kernel never writes. So a tick keeps every task as it was if
  and only if `Completes` holds before it (`TickFidelity`); the tasks of a run have histories of
  their own if and only if all its ticks satisfy it (`WholeHistoryIff`); and all runs of a machine
  do if and only if the words at 0x381008 and 0x391008 hold 0x23 in their low halves at boot (`BootMemoryDecides`),
  which nothing in the source provides for. The low half decides because `iret` pops a selector as a dword and drops
  its upper 16 bits. `FailsForTask1` and `FailsForTask2` are the runs that fail
  otherwise, the first with three ticks and the second with four. Everything else that is stated of
  runs, the counter included, holds in all of them.
- **`memcpy` is `memmove`** exactly when the destination is not above the source inside it, or the
  size is one dword, which is read whole before it is written (`MemcpyIsMemmove`).
- **`strchr`** tests the remaining count, so a byte found in the last place is not reported (`StrchrFinds`).
- **`print_gdt_content`** ends exactly if the pointer past the table stays below 2^32, or the bound
  itself wraps (`WalkEndsIff`).

`create_tss_dsc` stores `sizeof(tss_t)` as the limit, so the described segment is one byte longer than the
TSS; `CreateTssDsc` says so. `tp_exam/objdump.txt` is the listing of an older version; the C source is
what is modelled. `tp_exam/kernel.elf` is a build of an older version as well, without optimisation, whose task 1
starts from 1 and yields after each increment; `TaskCode` covers that code and the code of the same layout for
the present source.

## Model

| member | source | states |
|---|---|---|
| `Paging.EntryDecodes` | kernel/include/pagemem.h:147-151 | an entry written by `pg_set_entry` is present, writable, has exactly the asked privilege and frame, and carries no mark |
| `Paging.MarkedEntryDecodes` | kernel/include/pagemem.h:74-99 | the same for an entry that walks have marked since |
| `Paging.AddressSplits` | kernel/include/pagemem.h:125-126 | directory index, table index and offset determine the address |
| `Paging.WalkIgnoresAD` | kernel/include/pagemem.h:74-99 | no translation depends on accessed and dirty bits |
| `Paging.MarkChangesOnlyAD` | kernel/include/pagemem.h:74-99 | a walk changes nothing else |
| `Paging.Board.PgSetEntry` | kernel/include/pagemem.h:147-151 | both stores and the load between them, through the translation in force, leave exactly the wanted entry, if the entry does not translate its own address |
| `Paging.Board.ClearPage` | tp4/tp.c:92 | `memset` of a page through the translation clears that frame and nothing else |
| `AddressSpaces.ClearTables` | tp_exam/tp.c:229-240 | all ten tables are zero, other memory is unchanged |
| `AddressSpaces.FillRound` | tp_exam/tp.c:242-252 | one round of the loop extends the five identity tables by one entry each |
| `AddressSpaces.SetKernelEntries` | tp_exam/tp.c:256-262 | the shared page and the kernel entries |
| `AddressSpaces.SetUserEntries` | tp_exam/tp.c:264-268 | the user entries of the two directories |
| `AddressSpaces.ConfigPgds` | tp_exam/tp.c:227-277 | every word of the ten tables is the intended one, no other word changes, paging is on with the boot directory |
| `AddressSpaces.ExactTranslation` | tp_exam/tp.c:227-277 | for all addresses, three directories and every kind of access the walk is exactly the intended map (kernel below 4 MB for the supervisor only, own 4 MB, shared page) |
| `AddressSpaces.OneSharedWindow` | tp_exam/tp.c:249-268 | two tasks reach one physical byte if and only if both go through their windows at the same offset |
| `AddressSpaces.KernelReaches` | tp_exam/tp.c:244-247 | the supervisor reaches every address below 4 MB at itself, whatever the directory |
| `AddressSpaces.UserStoreKeepsTables` | tp_exam/tp.c:37-48 | a user store changes one word above 4 MB and, below, only marks in the tables; every translation stays |
| `LiveEdit.BuildTables` | tp4/tp.c:14-81 | tables for 8 MB of identity, complete before paging goes on |
| `LiveEdit.EntryAvoidsItself` | tp4/tp.c:92-108 | an entry other than the five that map the tables does not translate its own address |
| `LiveEdit.EditLive` | tp4/tp.c:92-108 | a live edit, through the tables being edited, changes exactly the intended entry |
| `LiveEdit.AliasDirectory` | tp4/tp.c:86-96 | 0xc0000000 becomes the directory; both ways of reading its first entry agree |
| `LiveEdit.ShareFrame` | tp4/tp.c:103-108 | pages 0x700 and 0x7ff both map frame 2 |
| `LiveEdit.UnmapFirst` | tp4/tp.c:115 | the store through 0xc0000000 clears physical entry 0 of the directory and nothing else |
| `LiveEdit.Tp` | tp4/tp.c:7-120 | the whole sequence, from paging off to the final tables |
| `LiveEdit.EditedTranslation` | tp4/tp.c:86-115 | the exact map for all addresses before and after the last store: it takes away the first 4 MB and nothing else |
| `Machine.SetIF` | tp_exam/tp.c:178-181 | the flags a launch pushes have IF set and the I/O privilege level the kernel had |
| `Kernel.Processor.Accept` | kernel/include/intr.h:41-53 | the frame the processor pushes, on the stack of the TSS when it comes from ring 3; interrupts are then off |
| `Kernel.Processor.Enter` | tp_exam/tp.c:130-138 | frame and `pusha` words lie on the stack where the context argument points |
| `Kernel.Processor.SaveTask` | tp_exam/tp.c:154-158 | a raw copy of 15 words, two of them above the stack top, and the flag byte |
| `Kernel.Processor.SwitchTask` | tp_exam/tp.c:165-168 | esp0, CR3 and the index take the values of the task, the index being stored through the new directory |
| `Kernel.Processor.StartTask` | tp_exam/tp.c:174-188 | the hand-made frame and one EOI; the branch ends in ring 0 with interrupts enabled and nothing in service, before its `iret` |
| `Kernel.Processor.FinishLaunch` | tp_exam/tp.c:189 | the `iret` gives the task the registers of the frame on top of the stack and changes nothing else |
| `Kernel.Processor.ResumeTask` | tp_exam/tp.c:170-173 | the raw copy back, one EOI, and return to the copied context |
| `Kernel.Processor.Print` | kernel/core/print.c:7-55 | a printed line goes to the console, cut at 1023 characters; byte for byte, `vprint_buffer` then reads as that line and its terminator, its rest and all other memory being as before |
| `Kernel.Processor.ClockInterruptHandler` | tp_exam/tp.c:142-192 | both branches together, the launch up to its EOI, and the announcement printed |
| `Kernel.Processor.ClockInterrupt` | tp_exam/tp.c:130-192 | the whole tick, word by word through the MMU, refines the function `Tick`, whose launch branch is the interruptible state before `iret` |
| `Kernel.Processor.YieldInterrupt` | tp_exam/tp.c:285-288 | `int $32`, which ring 3 may raise, is a tick that nothing asked for |
| `Kernel.Processor.SyscallHandler` | tp_exam/tp.c:120-125 | the printed value is the word the task's own pointer stands for |
| `Kernel.Processor.SyscallInterrupt` | tp_exam/tp.c:109-125 | the whole system call refines `Syscall`: all registers come back, and of kernel memory only the stack and `vprint_buffer` change |
| `Kernel.Processor.ConfigTask` | tp_exam/tp.c:296-303 | the 20 words of the record as numbers: function, stack 0x403ffc or 0x803ffc, interrupt stack 0x381000 or 0x391000, directory 0x352000 or 0x356000, cleared context and flag; no other word changes |
| `Kernel.Processor.Config` | tp_exam/tp.c:306-322 | the machine ends in a boot state: paging on and announced, no task started, interrupts enabled |
| `Kernel.EnteredRestores` | tp_exam/tp.c:109-138 | `popa; iret` undoes `pusha` and the interrupt for ring 3 |
| `Kernel.EnteredKeepsUser` | tp_exam/tp.c:120-123 | entering the kernel changes neither the tables nor the word a user pointer stands for |
| `Numbers.TableWords` | tp_exam/tp.c:227-277 | all words of the ten tables that `config_pgds` writes |
| `Numbers.LiveWords` | tp4/tp.c:14-115 | all words of the four tables of `tp4`, before and after the last store, but for marks |
| `Numbers.WalkBits` | kernel/include/pagemem.h:74-99 | the walk in terms of bits 0, 1 and 2 and of the frame of the two entries |
| `Numbers.ContextFrom3` | tp_exam/tp.c:130-138 | the 13 words from the context argument up to the stack top of the TSS, when ring 3 is interrupted |
| `Numbers.ContextFrom0` | tp_exam/tp.c:130-138 | the 11 words from the context argument up, when ring 0 is interrupted |
| `Numbers.SavedRecord` | tp_exam/tp.c:154-158 | 15 words go to offset 16 of the record, 1 to the byte at offset 76, nothing else changes |
| `Numbers.SwitchedWords` | tp_exam/tp.c:165-168 | the stack word of the TSS and the index |
| `Numbers.LaunchedWords` | tp_exam/tp.c:174-188 | the five words of a launch frame: entry point, 0x1b, flags, stack, 0x23 |
| `Numbers.LaunchingNumbers` | tp_exam/tp.c:174-188 | the processor then: code segment 8, IF set, on top of that frame |
| `Numbers.ResumedWords` | tp_exam/tp.c:170-173 | which register takes which word of the record |
| `Numbers.PoppedWords` | tp_exam/tp.c:189 | which register takes which word of the launch frame |
| `Numbers.TickNumbers` | tp_exam/tp.c:142-168 | after a tick: the line printed, the index, the directory and the stack of the TSS, by the task that ran before |
| `Numbers.BootNumbers` | tp_exam/tp.c:296-322 | what `config` leaves in the kernel's variables |
| `Numbers.BufferBytesAre` | kernel/core/print.c:7-55 | the bytes of `vprint_buffer` after a line |
| `Scheduling.SavedIsInterrupted` | tp_exam/tp.c:154-158 | the copied context of interrupted ring-3 code is its processor state, and that of an interrupted launch the registers the launch was about to give, but for SS |
| `Scheduling.LaterSwitch` | tp_exam/tp.c:154-168 | saving and switching leave the other task's saved context alone |
| `Scheduling.TickResumes` | tp_exam/tp.c:165-173 | the next task runs as it was suspended, or is back before the `iret` of its launch, with the low half of the word above the context as SS |
| `Scheduling.TickFidelity` | tp_exam/tp.c:142-192 | one tick, from ring 3 or from a launch: the scheduler invariant advances, every chosen task keeps its registers up to SS, and keeps them all if and only if `Completes` holds; a task chosen for the first time is at its entry point |
| `Scheduling.TickKeepsUserMemory` | tp_exam/tp.c:142-192 | a tick changes no word at or above 4 MB |
| `Scheduling.ResumeRestoresIff` | tp_exam/tp.c:154-173 | the exact condition under which a saved context restores the interrupted processor state itself |
| `Scheduling.LaunchIsInterruptible` | tp_exam/tp.c:177-189 | a tick that launches a task ends in ring 0, interruptible, with only an `iret` to go that starts the task |
| `Scheduling.InterruptedLaunchCompletesIff` | tp_exam/tp.c:154-189 | a launch interrupted there and resumed from a copy of its context goes on at its `iret`, which gives the intended registers if and only if the low half of the word above the copy is its SS |
| `Scheduling.FinishKeepsInv` | tp_exam/tp.c:189 | the `iret` keeps the invariant and both tasks |
| `Runs.RunInv` | tp_exam/tp.c:52-192 | the scheduler invariant in every state of every run, ticks inside launches included |
| `Runs.AlwaysPreemptible` | tp_exam/tp.c:170-191 | in every state bit 9 of the flags is set and bits 12 and 13 are clear, IRQ0 is not in service, there was one EOI per tick and per `int $32`, and the next tick can be taken |
| `Runs.ScheduleOf` | tp_exam/tp.c:142-191 | after n switches: the running task is (n-1) mod 2 with its CR3 and esp0, in ring 3 or ready for its `iret`, and each task has a saved context exactly from its second switch on |
| `Runs.LaunchedOnce` | tp_exam/tp.c:170-190 | a task is launched at the first switch that chooses it and resumed at all later ones |
| `Runs.StableTranslations` | tp_exam/tp.c:227-277 | no run changes a translation |
| `Runs.SwitchKeepsFloor` | tp_exam/tp.c:165-173 | in every state, all directories translate the kernel's 4 MB alike |
| `Runs.TasksCannotReachKernel` | tp_exam/tp.c:37-48 | no stretch of task instructions changes memory below 4 MB, but for marks in the tables |
| `Starts.StartedTaskCanPush` | tp_exam/tp.c:66-70 | whenever a launch ends, however often it was interrupted, the task is at its entry point in ring 3 with its own stack, and its first push is a legal step that stores the value |
| `Starts.RunPrints` | tp_exam/tp.c:120-151 | the console of a run is the announcement of each switch and the counter of each system call, in order, and nothing else |
| `Projection.StepSeen` | tp_exam/tp.c:142-192 | each step is one legal instruction of the running task and nothing for the other |
| `Projection.PreemptionIsInvisible` | tp_exam/tp.c:142-192 | between any two states of any run whose resumed launches can complete, a chosen task has made a legal run of its own on a private machine, and nothing else happened to it |
| `Projection.WholeHistory` | tp_exam/tp.c:142-192 | the same from boot: the whole history of a task starts at its entry point with the memory it had at boot |
| `Projection.RoughBreaksHistory` | tp_exam/tp.c:154-189 | after any switch without that condition, the task is nowhere it could have come to on its own |
| `Projection.WholeHistoryIff` | tp_exam/tp.c:142-192 | for every run: all tasks have histories of their own throughout if and only if every switch satisfies the condition |
| `Launches.SpareIsSmooth` | tp_exam/tp.c:72-74 | with the tasks' stack selector in the low halves of the two words above the interrupt stacks, every launch of every run completes |
| `Launches.FailsForTask1` | tp_exam/tp.c:142-192 | a run of three ticks that leaves task 1 unable to start, without the selector above the stack of task 2 |
| `Launches.FailsForTask2` | tp_exam/tp.c:142-192 | a run of four ticks that leaves task 2 unable to start, without the selector above the stack of task 1 |
| `Launches.BootMemoryDecides` | tp_exam/tp.c:72-74 | all runs from a boot state satisfy the condition if and only if both words hold the tasks' stack selector in their low halves |
| `Refinement.InvariantHolds` | tp_exam/tp.c:142-192 | any invariant of a task on its private machine that does not look at SS holds in every state of every run, those with launches that fail among them |
| `Refinement.RunRefines` | tp_exam/tp.c:142-192 | programs that refine others on private machines may replace them: each run with the ones is a run with the others |
| `Counter.StepKeepsCounter` | tp_exam/tp.c:77-85 | the counter invariant, also when a tick splits the load from the store or comes in a launch, and when a task yields |
| `Counter.CounterIsExact` | tp_exam/tp.c:77-125 | in every run, every system call after the first store prints the value of that store (0 in the source) plus the number of completed increments, mod 2^32; the value in flight may be in a different place at every instruction |
| `Counter.IncrementsGrow` | tp_exam/tp.c:81-84 | later counts are no smaller |
| `Counter.SyscallIsReady` | tp_exam/tp.c:89-107 | the call task 2 makes is always one the kernel can serve |
| `TaskCode.InstructionIsListed` | tp_exam/tp.c:77-85 | each instruction of the unoptimised code, with the value in EAX after the load and in EDX after the addition, is a step of the abstract program of `Counter` |
| `TaskCode.FrameIsInvariant` | tp_exam/tp.c:77-85 | at every instruction the stack frame is where the code expects it and the local variable `counter` holds 0x800000 |
| `TaskCode.CompiledRunRefines` | tp_exam/tp.c:77-85 | every run of the machine with that code is a run with the abstract program |
| `TaskCode.Task1NeverFaults` | tp_exam/tp.c:77-85 | in every state of every run in which task 1 has the processor in ring 3, its next instruction can be executed |
| `TaskCode.CompiledCounterIsExact` | tp_exam/tp.c:77-125 | each system call after the store at offset 0x10 prints how often the store at offset 0x21 has been executed (plus the value of the first store), mod 2^32 |
| `Digits.ParseNumeral` | kernel/core/print.c:80-126 | reading a printed number gives the number |
| `Digits.NoLeadingZero` | kernel/core/print.c:80-126 | no leading zeros |
| `Digits.NumeralIsUnique` | kernel/core/print.c:80-126 | no other text without leading zeros reads as that number |
| `Digits.NumeralLength` | kernel/core/print.c:82 | bound on the number of digits |
| `Digits.ParseFixed` | kernel/core/print.c:68-78 | p digits denote the value modulo base^p |
| `Rendering.IntRoundTrip` | kernel/core/print.c:80-105 | signed decimals read back, with a sign exactly for negative values |
| `Rendering.RenderSplit` | kernel/core/print.c:179-279 | formats compose: the second part gets the arguments the first one left |
| `Rendering.SizeIsLocal` | kernel/core/print.c:272-276 | `size` left over from one directive does not reach the next |
| `Formats.FormatMeans` | kernel/core/print.c:179-279 | the state machine renders every format as its parsed directives mean; an unfinished directive at the end says nothing |
| `Directives.UnsignedLaw` | kernel/core/print.c:225-240 | `%u` with no modifier, `l`, `h`, `hh` or `ll` and any width: the decimal numeral, without leading zeros, of the 32, 32, 16, 8 or 64 bits on the stack, and the dwords consumed |
| `Directives.HexLaw` | kernel/core/print.c:225-240 | the same for `%x` in base 16 |
| `Directives.SignedLaw` | kernel/core/print.c:211-223 | `%d` and `%i`: the signed number congruent to those bits; the minimum of 64 bits has no meaning |
| `Directives.LongIntLaw` | kernel/core/print.c:243-245 | `%D` with any modifiers: a signed number of 64 bits |
| `Directives.LongHexLaw` | kernel/core/print.c:246-248 | `%X`: a hexadecimal number of 64 bits |
| `Directives.PointerLaw` | kernel/core/print.c:251-254 | `%p`: 0x and the hexadecimal number of one dword |
| `Directives.BinaryLaw` | kernel/core/print.c:203-208 | `%b` and `%B`: 32 and 64 binary digits that read back as the value |
| `Directives.TextLaw` | kernel/core/print.c:197-202 | `%s`, `%c` and `%%` |
| `Directives.UnsupportedLaw` | kernel/core/print.c:264-267 | exactly the other letters end in panic |
| `Formats.ScanUnparses` | kernel/core/print.c:179-279 | every format is the text of its pieces |
| `Formats.QuoteRoundTrip` | kernel/core/print.c:260-263 | every text has a format that prints exactly it |
| `Formats.ValueBetween` | kernel/core/print.c:225-239 | `%u` between plain texts |
| `Print.Buffer.Add` | kernel/include/string.h:124-128 | a character is added or dropped at the limit, nothing else changes |
| `Print.Buffer.AddStr` | kernel/core/print.c:57-61 | the string is appended, clipped at the limit |
| `Print.Buffer.AddBin` | kernel/core/print.c:68-78 | n binary digits |
| `Print.AddIdec` | kernel/core/print.c:80-105 | the signed numeral, within the 24-byte scratch |
| `Print.AddUdec` | kernel/core/print.c:107-126 | the unsigned numeral, within the 24-byte scratch |
| `Print.Uint64ToHex` | kernel/core/print.c:132-154 | minimal or exactly `precision` digits, within the 16-byte scratch, with termination despite the 2^32-1 sentinel; the digit count is returned even when clipped |
| `Print.HexTextDenotes` | kernel/core/print.c:132-154 | reading the digits back gives the value, or the value modulo 16^precision |
| `Print.Vsnprintf` | kernel/core/print.c:162-283 | the buffer holds the first len-1 characters of the rendering and a terminator (also for len 0), the rest of it is unchanged, the count is returned, the arguments consumed do not depend on len; an unsupported letter ends in panic |
| `Console.Uart.Vprintf` | kernel/core/print.c:48-55 | at most 1023 characters of the rendering are sent, without the terminator; after an unsupported letter, the panic message instead |
| `Console.Uart.Panic` | kernel/core/print.c:9-22 | the message for an unsupported letter, printed through the same buffer |
| `Console.CounterLineIsPrinted` | tp_exam/tp.c:123 | the format of the system call prints exactly the line that `Syscall` is specified by |
| `Console.CounterLineDenotes` | tp_exam/tp.c:123 | the counter can be read back from the console |
| `ByteOps.Memcpy` | kernel/include/string.h:75-99 | dword bulk and byte tail, in place; `memmove` under the exact condition, nothing else touched |
| `ByteOps.MemcpyIsMemmove` | kernel/include/string.h:75-99 | the exact condition, over all contents |
| `ByteOps.OverlapCorrupts` | kernel/include/string.h:39-44 | otherwise, which byte arrives twice |
| `ByteOps.CopiedDwords` | tp_exam/tp.c:154-173 | on the bytes of physical memory, `memcpy` of n dwords to separate or lower addresses is the dword copy that `SaveTask` and `ResumeTask` are specified by |
| `ByteOps.FilledDwords` | tp_exam/tp.c:301 | and `memset` of n dwords to 0 is the dword clearing of `ConfigTask` |
| `ByteOps.MovedBytes` | kernel/include/string.h:75-99 | what a block move leaves at each byte |
| `ByteOps.Memset` | kernel/include/string.h:50-73 | each of the n bytes is c, every other byte is as before |
| `ByteOps.Rep32Bytes` | kernel/include/string.h:23-24 | the replicated dword consists of the byte |
| `ByteOps.RepnzScasb` | kernel/include/string.h:33 | where the scan stops |
| `ByteOps.Strchr` | kernel/include/string.h:101-112 | the first match, if it is among the first len-1 bytes, and only then |
| `ByteOps.StrchrFinds` | kernel/include/string.h:101-112 | a byte that occurs is found exactly if its first place is not the last |
| `ByteOps.Strlen` | kernel/include/string.h:114-122 | the distance to the first zero byte |
| `BitFields.UnpackPack` | kernel/include/segmem.h:86-108 | fields written to a packed struct read back |
| `BitFields.PackUnpack` | kernel/include/intr.h:68-86 | and a raw value is determined by its fields |
| `BitFields.PackBound` | kernel/include/segmem.h:86-108 | a struct of n bits stays below 2^n |
| `BitFields.QuadsAreStructs` | kernel/include/intr.h:68-86 | 64-bit values and the fields of a struct of 64 bits are in one-to-one correspondence |
| `BitFields.UnpackAt` | kernel/include/segmem.h:86-108 | a field is the stretch of bits above the fields before it |
| `Descriptors.BuildIntDesc` | kernel/include/intr.h:102-110 | a present ring-0 interrupt gate to the given handler |
| `Descriptors.GateRoundTrip` | kernel/include/intr.h:68-86 | a gate is a value of 64 bits, which reads back as the gate |
| `Descriptors.QuadIsGate` | kernel/include/intr.h:68-86 | and every 64-bit value in the IDT is the raw value of a gate |
| `Descriptors.IntrInit` | kernel/core/intr.c:10-29 | all 256 gates lead to their own 16-byte slots; entry i is the quadword made of the two halves of that address, 0x8e00 and 0x0008 |
| `Descriptors.ConfigInterrupt` | tp_exam/tp.c:279-294 | vectors 32 and 0x80 go to their handlers and are open to ring 3 (0xee00 in their quadwords), all others are as before |
| `Descriptors.SegmentRoundTrip` | kernel/include/segmem.h:86-108 | a segment descriptor is a value of 64 bits, which reads back as the descriptor |
| `Descriptors.QuadIsSegment` | kernel/include/segmem.h:86-108 | and every 64-bit value in the GDT is the raw value of a descriptor |
| `Descriptors.GdtFlatDsc` | kernel/include/segmem.h:250-261 | described as [0, 2^32-1] at any privilege and type; the quadword is 0x00cf90000000ffff with both in their places |
| `Descriptors.CreateTssDsc` | kernel/include/segmem.h:263-272 | described with the TSS's base and the limit sizeof(tss_t), for every base; the quadword as a number |
| `Descriptors.StoredDescription` | tp1/tp.c:22-49 | encoder and decoder agree through memory |
| `Descriptors.PrintGdtContent` | tp1/tp.c:22-49 | one line per descriptor, whose fields are given bits of its own quadword; none if the bound wraps |
| `Descriptors.SegmentBits` | kernel/include/segmem.h:86-108 | which bits of a quadword each field is |
| `Descriptors.GateNumber` | kernel/include/intr.h:68-86 | the weight of each field in a gate's quadword |
| `Descriptors.WalkEndsIff` | tp1/tp.c:26 | when the walk ends at all |
| `Descriptors.WholeDescriptors` | tp1/tp.c:26 | for whole descriptors it visits (limit+1)/8 |
| `Descriptors.SelectorDecodes` | kernel/include/segmem.h:38-42 | selectors read back, those of tp_exam among them |
| `Trampolines.StackMachine.Interrupt` | kernel/core/idt.s:54-196 | the machine, instruction by instruction, runs the stub program |
| `Trampolines.AcksAre` | kernel/core/idt.s:13-23 | the acknowledgements leave every register as it was |
| `Trampolines.CommonIsTransparent` | kernel/core/idt.s:39-47 | from `idt_common` to `iret`; the handler is given the context in EAX |
| `Trampolines.InterruptIsTransparent` | kernel/core/idt.s:13-196 | for all vectors that reach `idt_common`, both hardware frames and any handler that leaves its `int_ctx_t` alone: registers, stack pointer, return frame, EOIs and what the handler saw |
| `Trampolines.EoisAreSent` | kernel/core/idt.s:13-23 | the EOIs of a vector are sent whatever its handler does to memory |
| `Trampolines.HandlerSees` | kernel/include/intr.h:41-61 | at the address passed in EAX, `nr` and `err` are at their offsets of `int_ctx_t`, `err` being the hardware code for vectors 8, 10 to 14 and 17 and -1 for all others |
| `Trampolines.InterruptedCodeResumes` | kernel/core/idt.s:13-196 | end to end from the processor's push to its pop: the frame word by word, the bytes sent to the controllers, the vector and the error code, with the processor's set of error codes and the stubs' own set defined apart |
| `Trampolines.ReservedReturns` | kernel/core/idt.s:168-172 | vectors 20-31 do nothing: the interrupted code goes on with its registers, stack pointer and stack, with no handler run and no controller written to |
| `Trampolines.WhatReturns` | kernel/core/intr.c:57-62 | by the vector its stub pushed, exactly NMI and the vectors from 32 on come back |
| `Trampolines.StubsMatchHardware` | kernel/core/idt.s:54-166 | the stubs that push no -1 are those for whose vectors the processor pushes an error code |
| `Trampolines.StubsAreEvenlySpaced` | kernel/core/idt.s:54-196 | `.align 16` puts stub v at base + 16 v |
| `Pic.Pics.PicInit` | kernel/core/pic.c:4-53 | from any state, both controllers are remapped, cascaded on line 2 and operational |
| `Pic.IrqVector` | kernel/core/pic.c:22-29 | IRQ n arrives as vector 32 + n |
| `Pic.IrqRouting` | kernel/core/pic.c:4-53 | IRQ n: vector, gate, stub address, one EOI to the master and one to the slave exactly for n >= 8, whatever the handler does |

## Left out

- TLB contents, caches, timing, and the masking and priority of the real controllers; CR3 loads take effect at once.
- Faults: a task whose access faults makes no step, and neither does an `iret` that would load a wrong SS; page faults and other exceptions end in `panic`.
- Runs.UserStep: instruction fetch is not a memory access of the model; a task's program is an arbitrary relation on registers and events, and only aligned dword accesses are modelled.
- Counter.CounterIsExact: task 1 is any code with the four phases of `*counter = *counter + 1` and any traffic on registers and private memory in between, task 2 any code that calls only with the pointer to its window; either may yield.
- TaskCode.CompiledCounterIsExact: for task 1 the instructions are those of an unoptimised build; for task 2, of which the repository holds no build, any code with an invariant under which it calls only with the pointer to its window.
- Kernel.Processor.ClockInterrupt: the compiled handler's own stack traffic is the parameter `depth`, and what it leaves in registers at a launch is the parameter `Leftover`; the data segment registers are not modelled.
- Kernel.Processor.YieldInterrupt: with `int $32` nothing is in service, so in a launch made that way a clock tick could come from the `sti` (tp_exam/tp.c:178) on, while the launch frame is still being pushed, and not only from the EOI on; what would then be saved depends on the words of the compiled handler's own stack frame, which are not modelled, so those states are not part of a run.
- Runs.Step: clock ticks are the only hardware interrupts of a run; `pic_init` leaves the other fifteen lines unmasked, and nothing is said about the default handler of an interrupt on one of them.
- Kernel.Processor.SyscallInterrupt: the pointer is one that the calling task can read itself; whether the kernel should check it is not the subject. The `outb` to port 0x80 has no effect in the model.
- Kernel.Processor.Config: `config_segmentation`, `config_interrupt` and the segment loads do not act on this machine; they are modelled by the selectors and by `Descriptors.dfy`. The kernel image lies in [0x302010, 0x350000) and overlaps neither the tables nor the interrupt stacks, and the boot stack has room for three nested ticks.
- Print.Vsnprintf: requires what C requires, namely that the arguments exist and that no `%d` gets the minimum of a 64-bit integer, for which `-value` is undefined; `%s` arguments are terminated strings outside the buffer.
- panic: its halt loop.
- Descriptors.PrintGdtContent: requires the walk to end, by the exact condition of `WalkEndsIff`; the text of the lines is left out.
- Pic.Pics.PicInit: OCW commands other than the EOI do nothing.
- `stack_trace`, the UART, the Multiboot structures, and the exercises tp0, tp2, tp3 and tp5.
