# riscv-python, modelled in Dafny

riscv-python is an emulator for a 32-bit RISC-V machine (RV32IMAC with Zicsr, machine mode only), written in
Python. This project models its core and proves what the emulator relies on:

- the CPU, its twelve opcode handlers, CSRs, traps, timer, LR/SC reservation and decode caches (`cpu.py`),
- the expander for compressed instructions (`rvc.py`),
- the RAM classes (`ram.py`),
- the execution loops, the argv block and `sbrk` (`machine.py`, `syscalls.py`),
- the memory-mapped timer (`peripherals.py`),
- the GDB packet layer and running under the debugger (`gdbstub.py`, `machine.py`),
- the guest code that sets and reads the timer (`advanced/freertos/port`).

`dafny verify dfyconfig.toml` checks the whole project.

## How it is built

`Isa` is the machine as one transition function on immutable states: decoding, arithmetic, CSR instructions,
traps, the timer. Registers, CSRs and addresses are integers below 2^32 (`Word`), instruction words are bit
vectors, memory is a sequence of bytes. An exception that ends the run is an outcome (`Halt`): `Terminated` for
ExecutionTerminated, `Fault` for MemoryAccessError, `NoEcallHandler`, `Violation` for a failed run-time check.
The system call handler is a function from the state to its answer: new registers, blocks stored into memory.

`Cpu.CPU`, `Ram.RAM`, `Machines.Machine`, `Machines.SyscallHandler`, `MmioTimer.MMIOTimer`, `Gdb.GDBPacket` and
`Gdb.GDBStub` are the objects that the emulator updates in place. Each of their methods is proved to take the
state where the specification says; the theorems are about the specification. A loop without end is run for n
iterations.

| module | about |
|---|---|
| PyInt, Memory, Binary64 | Python's integers, bytes in memory, binary64 division |
| Ram, Cpu, Immediates | the RAM classes, the CPU class, the immediates its handlers read |
| Cache, Aliasing | the decode caches, and exactly when they cannot be seen |
| Isa, Arithmetic, CsrBits, Calls | the machine, the M extension, the CSR instructions bit by bit, system calls |
| Manual, WordMeaning | the 32-bit instructions as the manual has them, and the agreement with them |
| Rvc, RvcManual, RvcMeaning | the expander, RV32C as the manual has it, their agreement |
| Steps, CachedRuns, Machines | the loops as step functions, with caches and debugger, as methods |
| Invariants, Reservation, Traps | what every run keeps, LR/SC, traps and interrupts |
| Clock, TimerRuns, MmioTimer | the two-phase timer writes, the pending bit |
| Guest, ReadClock, Handlers | guest code that sets and reads the timer, and interrupt handlers |
| Gdb, GdbFraming | packets, and packets in the midst of noise |
| Heap | the argv block and `sbrk` |

## Where the code departs from its documentation or from the manual

The model does what the code does. Each of these is a lemma.

- The 32-bit decode cache is indexed by the word without its two low bits; words that differ there only are
  confused (`Aliasing.TransparentExactly`, `Aliasing.LuiHidesIllegal`). The loops only hand it words that end in
  0b11, except `run_fast_no_rvc` and, without RVC, `run_with_checks`.
- A write to a read-only CSR traps and is then carried out (`Traps.ReadOnlyWriteLands`).
- A failed SC.W keeps the reservation (`Reservation.FailedStoreConditionalKeeps`).
- Timer CSR writes set `mtip` but not mip; the two may then disagree (`TimerRuns.InstructionAgrees`,
  `TimerRuns.CompareWriteBreaks`).
- CSRRS and CSRRC change a latched half of the timer without counting as a write of it
  (`TimerRuns.MeddlingShows`).
- A CSRRW that completes a pair of timer halves returns the value after the commit, where section 9.1 of the
  Unprivileged ISA has the old value (`TimerRuns.ReadsOldValue`).
- Some HINTs of RV32C are rejected, and shifts by 32 or more are expanded and then trap
  (`RvcMeaning.MeaningExactly`, `RvcMeaning.ReservedMeaning`).
- Without RVC, the loops other than `run_fast_no_rvc` and `run_with_checks` still execute 16-bit instructions
  (`Steps.NoRvcLoopsDiffer`, `Invariants.SuitedExactly`).
- An escaped hash contains 0x03, which the receiver takes for Ctrl+C (`GdbFraming.GetsThrough`).
- `setup_argv` counts characters, not bytes (`Heap.SurvivesExactly`, `Heap.WideCharacterBreaks`).
- An unchecked store at the end of memory may store a part and then fail (`Memory.UncheckedPartialStore`).

## Model

| member | source | states |
|---|---|---|
| RvcMeaning.CompressedMeaning | cpu.py:718-750 | On every state, `execute_16` of an accepted word gives exactly the state of the independent RV32C semantics (section 16.8 of the Unprivileged ISA), with fall-through and link address pc+2 |
| RvcMeaning.MeaningExactly | rvc.py:94-208 | So `execute_16` of a word that the manual defines gives that state on every state if and only if the word is not one of five kinds of HINT that the expander rejects |
| RvcMeaning.ReservedMeaning | rvc.py:108-120 | The reserved words the expander lets through are shifts by 32 or more, and end in an illegal-instruction trap |
| RvcMeaning.AcceptedWords | rvc.py:25-228 | The expander accepts a word if and only if the manual defines it and it is not one of the rejected HINTs, or it is a shift by 32 or more |
| RvcMeaning.ExpandsAll | rvc.py:25-228 | Every accepted word expands to a 32-bit word that decodes to the instruction the manual names, with the manual's operands |
| WordMeaning.WordsMean | cpu.py:694-715 | On every state with x0 zero, `execute_32` of every word gives exactly the state of an independent semantics written from the instruction listings and chapters 2, 7 and 8 of the Unprivileged ISA; of CSR instructions, ECALL, EBREAK and MRET it says which one it is, with which operands |
| WordMeaning.DecodesAll | cpu.py:553-566 | Every word decodes to the instruction that the manual lists, with the registers and immediates of its figures, or to an illegal one if it lists none |
| WordMeaning.BranchesCompare | cpu.py:235-254 | BEQ, BNE, BLT and BGE go to pc plus offset if and only if the signed integers in their registers compare so, BLTU and BGEU if the natural numbers do, and else to pc+4 |
| WordMeaning.SetsIfLess | cpu.py:58-74 | SLT, SLTI, SLTU and SLTIU leave 1 in rd if and only if the signed integers, or natural numbers, compare so, and else 0 |
| CsrBits.CsrInstruction | cpu.py:366-425 | Bit by bit: CSRRW writes its operand, with the mode bits of mtvec cleared, CSRRS sets and CSRRC clears the bits that are set in it, MPP of mstatus stays set, six CSRs keep their value, rd gets the old value, or that of a timer register after the write, and nothing else changes |
| CsrBits.ResetValues | cpu.py:572-630 | After reset everything is zero but misa, mstatus, mtimecmp and two identification registers, whose values are given |
| Calls.Served | cpu.py:311-315 | A served ECALL leaves the registers, pc and memory blocks of the host's answer, x0 zero, and goes on with the next instruction |
| Calls.BlocksLand | ram.py:113-117 | Each byte of memory is that of the last block that fits and covers it, or as before |
| Cache.CacheTransparent | cpu.py:694-744 | Over every history of `execute_32`/`execute_16` calls, with anything done to the state in between, whose 32-bit words decode alike where they share an entry, the cached run is the cache-free run, state for state, and the caches stay coherent |
| Cache.EndsIn11Harmless | cpu.py:696-704 | Words that end in 0b11 do: no two of them share an entry |
| Cache.CacheTransparentFromReset | cpu.py:694-744 | From empty caches that covers every history whose 32-bit words end in 0b11 |
| Aliasing.TransparentExactly | cpu.py:694-744 | From empty caches, on a RAM of any given size, with x0 zero and whatever else is done to the state between the calls, every history with 32-bit words of a family runs as without caches if and only if any two words of the family that share an entry decode alike, each with the fields of the other, or both to something that acts like an illegal instruction |
| Aliasing.NotAlwaysTransparent | cpu.py:694-715 | If all words are allowed the cache can be seen, on a RAM of any size |
| Aliasing.FaithfulRun | cpu.py:694-744 | If they do, the cached run is the cache-free run, state for state, from any caches whose entries are faithful in that sense, and they stay so |
| Aliasing.EntryExactly | cpu.py:694-715 | With x0 zero and any given memory, a word runs with the entry of another as it does afresh if and only if both decode it alike, or both to something that acts like an illegal instruction: that one, or an unknown AMO on x0 |
| Aliasing.Differs | cpu.py:27-550 | Every instruction but the illegal one can be told from it, on a state that is given for each memory |
| Aliasing.OneIsIllegal | cpu.py:553-566 | Of two words that share an entry and do not act alike, one does not end in 0b11, and its fields decode to an illegal instruction |
| Aliasing.IllegalFirst | cpu.py:694-715 | One that does not end in 0b11 can be taken to spoil the other |
| Aliasing.ExposingShows | cpu.py:694-715 | Executing that one and then the other is enough to show the difference, from any state |
| Aliasing.LuiHidesIllegal | cpu.py:696-704 | With any LUI cached, every word differing from it in the two low bits only runs as LUI, where afresh it is illegal |
| Reservation.ReservationHolds | cpu.py:462-545 | In every run of every loop, over any interleaving of loads, stores, AMOs, failed SCs, traps, interrupts and system calls, a valid reservation means that the word still is what the last LR.W loaded, as long as no system call of that run changes the word while it is reserved |
| Reservation.StepHolds | cpu.py:216-229 | The condition is exact: a step keeps the property if and only if it is not such a system call |
| Reservation.SuccessfulStoreConditional | cpu.py:469-476 | At any point of any such run that starts without a reservation, an SC.W that reports success overwrites the word that the last LR.W returned |
| Reservation.FailedStoreConditionalKeeps | cpu.py:469-476 | An aligned SC.W leaves a reservation if and only if there was one for another address; without a matching one it reports failure and changes nothing else |
| Reservation.LaterStoreConditional | cpu.py:469-476 | So after an SC.W to another address one to the reserved address still stores and reports success |
| Reservation.PerformHolds | cpu.py:462-545 | Every single instruction keeps that property if and only if it is not an ECALL in which the host changes the reserved word |
| Reservation.PerformFollows | cpu.py:462-545 | After an instruction there is a reservation if and only if it was a successful LR.W, or there was one and it was not a store, an AMO or a matching SC.W; and for which address |
| Reservation.LoadReserves | cpu.py:462-467 | An aligned LR.W whose load succeeds puts the word in rd, reserves its address and leaves memory alone |
| Reservation.StepFollows | cpu.py:462-545 | The same of every step of every loop |
| Reservation.StoreConditionalSucceeds | cpu.py:469-476 | After an LR.W and any number of steps without another LR.W, store, AMO or matching SC.W, traps and interrupts included, an SC.W to its address stores and reports success |
| Steps.FetchesAgree | machine.py:285-332 | Fetching a word and fetching halves give the same instruction if and only if pc is not at a 16-bit instruction in the last two bytes |
| Steps.LoopsAgree | machine.py:266-374 | n steps of any two loops with, or any two without, the timer give the same CPU and RAM state and the same exception, as long as no check fails, no fetch is at the edge of memory if only one of them fetches words, and no 16-bit instruction is met without RVC if only one of them is `run_with_checks` |
| Steps.FastNoRvcAgrees | machine.py:309-317 | `run_fast_no_rvc` joins them when every word it fetches ends in 0b11 |
| Steps.FailedCheckEnds | machine.py:266-299 | A run of `run_with_checks` in which the check fails ends there, with the state as it is |
| Steps.ChecksPass | machine.py:266-299 | With RVC and a check that never fails its run is that of the debugger's loop |
| Steps.NarrowStepsDiffer | machine.py:309-332 | At a C.NOP it ends the run where `run_fast` carries on |
| Steps.NoRvcLoopsDiffer | machine.py:266-348 | With RVC disabled, `run_with_checks` rejects a 16-bit instruction that `run_timer` executes |
| Steps.ExecuteDecoded | cpu.py:694-750 | Executing what was fetched is performing the instruction it decodes to, 16-bit words that do not expand being illegal instructions |
| CachedRuns.CachedRunIsRun | machine.py:266-374 | A run with coherent caches in which all 32-bit words end in 0b11 is the run without caches |
| CachedRuns.SortsAreDistinct | machine.py:285-332 | That is so of every loop that tells 16-bit from 32-bit instructions itself |
| CachedRuns.BothDistinct | machine.py:266-374 | Of any two loops that meet the conditions for agreeing, all 32-bit words end in 0b11 |
| CachedRuns.CachedLoopsAgree | machine.py:266-374 | So the loops agree on a CPU with caches, whatever coherent contents these have; two `run_with_checks` without RVC, when all words end in 0b11 |
| CachedRuns.CachesAreInvisible | cpu.py:686-688 | From empty caches, every loop that tells 16-bit from 32-bit instructions runs from every state as if there were no caches |
| CachedRuns.ContinueIsRun | machine.py:449-484 | The debugger's continue loop does what the run without debugger does, up to the first breakpoint that this run reaches, a Ctrl+C or an exception, or n steps; it never executes an instruction at a breakpoint, and stops for a Ctrl+C at the first multiple of 4096 cycles by which one has arrived, and then only |
| CachedRuns.NeverInterrupted | machine.py:449-484 | Without Ctrl+C it is the run up to the first breakpoint, an exception or n steps |
| CachedRuns.SingleStepsAreRun | machine.py:424-445 | n single steps are n steps of the run without debugger |
| CachedRuns.SteppingIsContinuing | machine.py:424-484 | n iterations of the continue loop that meet neither breakpoint nor interrupt reach the state that n single steps reach |
| Machines.Machine.StepByWord | machine.py:325-330 | Fetches a word and executes it or its low half, as the step function says |
| Machines.Machine.FetchHalves | machine.py:285-294 | Fetches one or two half-words, as the step function says |
| Machines.Machine.ExecuteHalves | machine.py:285-296 | `execute` of what was fetched in halves does what the step function says, RVC enabled or not |
| Machines.Machine.FinishStep | machine.py:297-299 | Timer update and new pc |
| Machines.Machine.LoopFast | machine.py:320-332 | n iterations take CPU, RAM and caches where n steps of the specification take them |
| Machines.Machine.LoopFastNoRvc | machine.py:309-317 | The same of this loop |
| Machines.Machine.LoopTimer | machine.py:335-348 | The same of this loop |
| Machines.Machine.LoopMmio | machine.py:351-374 | The same of this loop, which also polls the peripherals once in 256 iterations |
| Machines.Machine.LoopWithChecks | machine.py:266-306 | The same of this loop, with a failed check ending it before the instruction |
| Machines.Machine.RunSelected | machine.py:380-400 | Refuses a misaligned initial pc, else runs the loop that the features select |
| Machines.Machine.SelectedFits | machine.py:380-400 | The selected loop ticks, polls and checks as the machine's options say, and keeps pc aligned from every state if and only if RVC or the checks are on, or peripherals and timer are off |
| Machines.Machine.SelectedAgrees | machine.py:380-400 | With RVC, whichever loop is selected, the run is that of the debugger's loop, as long as no fetch is at the edge of memory and no check fails |
| Machines.Machine.StepUnderGdb | machine.py:426-439 | One step under the debugger |
| Machines.Machine.LoopWithGdb | machine.py:404-484 | A single step, or the continue loop with its breakpoints and its poll every 4096 cycles, as the specification has them; the peripherals are polled after a single step, and once in 256 executed instructions |
| Machines.Machine.SetupArgv | machine.py:91-108 | Succeeds if and only if the block fits; memory is then the layout of `Heap`, heap_end its 8-aligned end, a0 and a1 the count and the table |
| Machines.Machine.PlaceStrings | machine.py:92-98 | The strings, one after the other, 4-aligned |
| Machines.Machine.PlaceTable | machine.py:100-103 | The words of the table |
| Machines.SyscallHandler.HandleSbrk | syscalls.py:97-112 | Moves the break by the unsigned increment and returns the old one, or returns -1 and moves nothing; an error if the stack bottom is unknown |
| Heap.ArgvIsLaidOut | machine.py:91-108 | For NUL-free arguments that have room: every argv entry points to its argument as a C string, the table ends in NULL, heap_end is 8-aligned above the block, no byte outside the block changes |
| Heap.AsciiIsRoomy | machine.py:95-98 | ASCII arguments have room |
| Heap.ArgumentsPacked | machine.py:95-98 | Each argument starts at the first multiple of four after the one before, by its length in characters, and its NUL |
| Heap.TableCounts | machine.py:91-108 | For arguments that have room the block fits if its table does |
| Heap.SurvivesExactly | machine.py:91-108 | A NUL-free argument can be read back from a block that fits if and only if every byte it has beyond the space that its length in characters makes is the byte that is laid there last, if any is; no matter how the other arguments are |
| Heap.OneByteOver | machine.py:91-108 | If only the NUL runs over: if and only if the next argument is empty or starts with a NUL or, after the last one, the address of the block ends in a zero byte |
| Memory.CStringUnique | ram.py:119-125 | There is at most one C string at an address |
| Heap.WideCharacterBreaks | machine.py:95-98 | A one-character argument of four bytes cannot be read back before a nonempty argument |
| Heap.BreakIsSum | syscalls.py:101-109 | After any sequence of calls heap_end is its start plus the sum of the granted increments |
| Heap.GrantedExactly | syscalls.py:101-109 | Over any history, a call is granted if and only if the start of the heap, all that was granted before and its increment together stay below the stack, and it returns the end of what was granted before |
| Heap.AllGranted | syscalls.py:101-109 | If the sum of all increments stays below the stack every call is granted, and returns the start plus the sum of those before |
| Heap.RegionInBounds | syscalls.py:101-109 | Every granted region lies above the initial heap_end and below the stack |
| Heap.RegionsApart | syscalls.py:101-109 | Granted regions are pairwise disjoint, later above earlier |
| Binary64.RoundedQuotient | cpu.py:98-99 | Any rounding of the quotient with relative error at most 2^-53 that is exact on integers truncates to the true quotient |
| Binary64.DivideError | cpu.py:98-99 | Correct rounding to binary64 is such a rounding on 32-bit operands |
| Binary64.FloatQuotientExact | cpu.py:89-99 | For all signed 32-bit operands, `int(dividend / divisor)` is the truncated quotient |
| Binary64.DivisionLaw | cpu.py:128-138 | The remainder of the truncated quotient is smaller than the divisor and has the dividend's sign |
| Arithmetic.SignedDivision | cpu.py:89-138 | DIV and REM: dividend = quotient * divisor + remainder, with the manual's results for zero and overflow (section 7.2 of the Unprivileged ISA) |
| Arithmetic.UnsignedDivision | cpu.py:111-156 | DIVU and REMU likewise |
| Arithmetic.FullProduct | cpu.py:33-80 | MUL paired with MULH, MULHSU or MULHU is the full 64-bit product (section 7.1) |
| Arithmetic.LowWord | cpu.py:33-38 | MUL is the low word of the product however the factors are read |
| Invariants.StepKeeps | cpu.py:706-715 | A step of any loop keeps x0 = 0, MPP = 0b11 and never both halves of a timer register pending; and it keeps pc aligned, unless it hands a 16-bit instruction to a CPU without RVC |
| Invariants.RunKeeps | machine.py:266-374 | So does every run, for every loop |
| Invariants.Reachable | machine.py:380-400 | From reset, with any initial registers and entry point, every run of every loop keeps the first three, and all registers, CSRs and pc below 2^32; and from an aligned entry point it keeps pc aligned as long as no 16-bit instruction is handed to a CPU without RVC |
| Invariants.SuitedExactly | machine.py:266-374 | A loop keeps the whole invariant from every state that has it if and only if RVC is enabled or the loop is `run_fast_no_rvc` or `run_with_checks` |
| Invariants.SuitedFits | machine.py:285-317 | Those never hand a 16-bit instruction to a CPU without RVC, in any run |
| Invariants.MppForced | cpu.py:412-413 | A write to mstatus leaves both bits of MPP set |
| Invariants.UnsuitedBreaks | machine.py:335-348 | In the loops that ignore the RVC switch, a C.NOP at the reset address leaves pc misaligned for a CPU without RVC |
| Traps.PreciseTrap | cpu.py:27-550 | With a handler installed, an instruction that must trap changes nothing but the trap CSRs: registers, memory, reservation and timer stay, mepc = pc, next pc = mtvec with its low bits cleared, cause and mtval as the manual's rule for that instruction |
| Traps.PreciseStep | cpu.py:718-750 | The same of whatever is fetched, 16-bit words that do not expand included |
| Traps.NoSpuriousTrap | cpu.py:27-550 | An instruction that need not trap, a served ECALL apart, changes no CSR but its own: the one a CSR instruction names, mstatus for MRET |
| Traps.ReadOnlyWriteLands | cpu.py:374-425 | Every CSR instruction that traps on a read-only CSR also writes the CSR and rd; the trap is precise if and only if that changes nothing |
| Traps.NoHandler | cpu.py:765-768 | With no handler, every exception ends the run and changes nothing |
| Traps.EnterBits | cpu.py:775-779 | Trap entry clears MIE and saves it in MPIE (section 3.1.6.1 of the Privileged ISA) |
| Traps.EnterThenLeave | cpu.py:329-333 | Trap entry followed by MRET restores mstatus, but for MPIE, which is set |
| Traps.BypassIsTrapAndReturn | cpu.py:789-794 | Where it is called, with no handler installed, `bypassed_trap_return` leaves the CSRs as a trap to a handler and its MRET would, and MIE alone |
| Traps.TickInterrupts | cpu.py:797-821 | The interrupt is taken exactly when mtime has reached mtimecmp and MIE and MTIE are set; it changes no register, memory or reservation and saves the next pc |
| Traps.OneTrapPerStep | cpu.py:812-821 | After any synchronous trap the timer interrupt of the same step is masked |
| Traps.ResumesWhereInterrupted | cpu.py:321-333 | However the handler has used the machine, if it keeps mepc and mstatus, MRET resumes at the pc the uninterrupted program would have had next, with MIE and MPIE set |
| Traps.InterruptIsTransparent | cpu.py:765-821 | A step that is interrupted, any number of steps of a handler that gives back what it has found, and its MRET lead, if mtimecmp is ahead by then, to the state that the step alone would have led to, but for the timer and its CSRs, MPIE, the CSRs that record traps, the handler's own memory and perhaps a lost reservation; if not, to the handler again, with the same to give back |
| Handlers.LocalRun | cpu.py:216-550 | Code that runs with interrupts off, traps nowhere, stores to its own memory only, makes no reservation and writes no CSR, but for mcause, mtval, mip and the timer's, another value leaves alone all else that an interrupted program can see, registers apart |
| Handlers.SavingHandler | advanced/freertos/port/trap_handler.S:37-42 | A handler that saves registers on the stack, runs any such code that keeps to these registers, restores them and executes MRET gives back what it has found |
| Handlers.TimerHandlerGivesBack | advanced/freertos/port/trap_handler.S:14-42 | So does one that runs the macro in between, with mtimecmp advanced by the increment |
| Handlers.TimerInterruptServed | advanced/freertos/port/trap_handler.S:14-42 | An interrupt served by it is transparent, if mtimecmp is ahead when it is done; if not, the handler is entered again to give back the same |
| Traps.TimerDelivery | cpu.py:797-821 | From mtime t and mtimecmp c >= t, in a run whose instructions keep mtime, mtimecmp and mtvec and leave the interrupt enabled, each of the first c - t steps ends where its instruction leads, with the CSRs it has left, and step c - t + 1 enters the handler with that address in mepc |
| Clock.TwoPhaseCommit | cpu.py:383-391 | Over any history of half-writes and ticks the time jumps only at a write that completes a pair, to the latest halves since the jump before, in either order, and else counts ticks; never both halves are pending |
| Clock.NoOtherJumps | cpu.py:383-391 | An event that completes no pair moves the time by a tick or not at all |
| Clock.AccountsUnique | cpu.py:383-391 | The history determines the time and the pending halves |
| TimerRuns.PerformFollows | cpu.py:383-410 | An instruction does to mtime and mtimecmp what the half-write it makes, if any, does, if and only if it is not a CSRRS or CSRRC that changes a pending half |
| TimerRuns.LawInRuns | cpu.py:383-402 | So the two-phase law holds of mtime and of mtimecmp in every run of every loop in which no CSRRS or CSRRC changes a pending half of that register |
| TimerRuns.LawIsExact | cpu.py:383-410 | Where the law has held so far, it holds after one more step if and only if the step does not do that |
| TimerRuns.MeddlingShows | cpu.py:404-410 | If it does, the write of the other half commits another value than the halves written |
| TimerRuns.ReadsOldValue | cpu.py:415-425 | A CSR instruction puts the old value in rd if and only if it is not a CSRRW that commits a timer register and changes the half it writes |
| TimerRuns.InstructionAgrees | cpu.py:366-425 | After an instruction mip still agrees with `mtip` if and only if it is not a CSR instruction that puts another bit 7 in mip, nor a CSRRW that completes a timer register with which the comparison comes out otherwise than before |
| TimerRuns.CompareWriteBreaks | cpu.py:394-402 | Moving mtimecmp ahead of a pending interrupt leaves mip set, with `mtip` clear, through every update until the new time has come |
| TimerRuns.TickAgrees | cpu.py:797-810 | After a timer update mip bit 7, `mtip` and the comparison with the time before the tick agree |
| MmioTimer.MMIOTimer.Read32 | peripherals.py:54-64 | The halves of the two timer registers; an error elsewhere |
| MmioTimer.MMIOTimer.Write32 | peripherals.py:66-84 | mtime in two phases, a half of mtimecmp at once; never both halves of mtime are left pending |
| MmioTimer.MMIOTimer.Commit | peripherals.py:80-84 | The end of a write |
| MmioTimer.MmioTwoPhase | peripherals.py:66-84 | The two-phase law over any interleaving of device accesses and ticks |
| MmioTimer.SplitCompare | peripherals.py:67-70 | The two halves of mtimecmp may be written in either order; the value in between is in force |
| MmioTimer.ReadsWhole | peripherals.py:54-64 | The halves that the device returns make up mtime and mtimecmp, and it has no other registers |
| MmioTimer.ReadsBack | peripherals.py:54-84 | A half of mtimecmp that was written is read back, and the other is as before |
| MmioTimer.NextAgrees | cpu.py:797-810 | Instruction, device access or update: each keeps the agreement of mip and `mtip` if and only if it is not an instruction of that kind, and after an update both tell whether mtime had reached mtimecmp |
| MmioTimer.PendingBitAgrees | cpu.py:797-810 | A run keeps them in agreement throughout, with both telling after each update whether mtime had reached mtimecmp before the tick, if and only if no instruction in it is of that kind |
| MmioTimer.PendingBitFromReset | cpu.py:797-810 | In particular from reset, with any registers, entry point and device state |
| MmioTimer.OthersDoNotPart | cpu.py:383-410 | No instruction is of that kind unless it writes mip or a timer CSR |
| Guest.AdvancesCompare | advanced/freertos/port/trap_handler.S:14-23 | Run on the CPU model with interrupts off, the macro sets mtimecmp to (old + increment) mod 2^64, with no other value ever compared, if and only if no high half was pending |
| Guest.WriteMtimecmp | advanced/freertos/port/port_riscvpy.c:10-16 | `write_mtimecmp` sets the value with its second write, and no comparison sees another value, if and only if no high half was pending |
| Guest.AddWithCarry | advanced/freertos/port/trap_handler.S:18-20 | ADD, SLTU, ADD is 64-bit addition |
| ReadClock.TimePasses | cpu.py:797-801 | In a run that does not write it, mtime counts the steps |
| ReadClock.ReadMtimeOnCpu | advanced/freertos/port/port_riscvpy.c:18-27 | The loop as four instructions on the CPU model, with any detours between them that leave the clock alone, keep the three registers and come back: when it falls through, after any number of attempts, hi2:lo is what `ReadMtime` returns for the times of its reads, and more than two attempts take 2^32 ticks |
| ReadClock.ReadMtimeIsTrue | advanced/freertos/port/port_riscvpy.c:18-27 | So the value is the mtime of a state of that run |
| ReadClock.MaskedReadMtime | advanced/freertos/port/port_riscvpy.c:18-27 | With interrupts off it leaves after four steps, or after eight if the high half changes in the first attempt, with the time of the second read of the last attempt |
| ReadClock.CsrrReadsTime | cpu.py:415-425 | In every state, CSR reads of 0x7C0 and 0x7C1 give the halves of mtime |
| ReadClock.ReadMtime | advanced/freertos/port/port_riscvpy.c:18-27 | `read_mtime` returns the time of one of its own reads, in the first attempt in which the high half did not change, however many ticks go by between its reads; it retries at most once unless 2^32 ticks do |
| Gdb.GDBPacket.ChecksumOf | gdbstub.py:25-34 | The sum of the characters modulo 256 |
| Gdb.GDBPacket.EscapeText | gdbstub.py:37-54 | The loop computes the escaped string |
| Gdb.GDBPacket.UnescapeText | gdbstub.py:57-78 | The loop computes the unescaped string, a lone brace at the end standing for itself |
| Gdb.GDBPacket.EncodePacket | gdbstub.py:81-94 | The frame around the escaped string |
| Gdb.GDBPacket.DecodePacket | gdbstub.py:97-121 | The data of a good frame, None for anything else |
| Gdb.UnescapeEscape | gdbstub.py:37-78 | Unescaping undoes escaping, in front of any other text |
| Gdb.LoneBrace | gdbstub.py:55-80 | A text without braces is unescaped to itself, and a brace at its end to a brace |
| Gdb.EscapedChars | gdbstub.py:49-53 | An escaped string has no hash, dollar or star, and has a Ctrl+C if and only if the string has one or a hash |
| Gdb.EscapedLength | gdbstub.py:49-53 | It is longer by one character for each hash, dollar, brace and star, so nothing else is escaped |
| Gdb.ChecksumAdds | gdbstub.py:25-34 | The checksum of a text is that of its parts modulo 256, that of a character its code |
| Gdb.HexDigits | gdbstub.py:83-95 | The digits of a checksum that is sent are lower-case |
| Gdb.DigitsRead | gdbstub.py:97-121 | Those of a checksum that is received may be of either case |
| Gdb.NoNegativeSum | gdbstub.py:97-121 | A received checksum with a minus sign matches none but zero |
| Gdb.RoundTrip | gdbstub.py:81-121 | decode(encode(s)) is s, for every string |
| Gdb.GDBStub.ReceivePacket | gdbstub.py:307-365 | The loop ends as the receiver specified, having read as many characters and sent the same acknowledgements |
| Gdb.GDBStub.EndPacket | gdbstub.py:344-365 | Checksum and acknowledgement |
| Gdb.GDBStub.InsertBreakpoint | gdbstub.py:718-736 | Adds the address, and only that |
| Gdb.GDBStub.RemoveBreakpoint | gdbstub.py:738-755 | Removes the address, and only that |
| GdbFraming.Framing | gdbstub.py:307-365 | After any sequence of junk, bad packets and packets that break off, an encoded packet is received as what was encoded, exactly through its checksum, with a NACK for each bad packet and an ACK |
| GdbFraming.GetsThrough | gdbstub.py:307-365 | A packet gets through if and only if its text is ASCII without hash and Ctrl+C |
| GdbFraming.EscapedHashInterrupts | gdbstub.py:324-327 | The packet of a single hash is received as an interrupt after three characters |
| Memory.ReadOverWrite | ram.py:60-108 | Reading back what was written, at any width and alignment |
| Memory.ReadDisjoint | ram.py:60-108 | A store does not change what is read elsewhere |
| Memory.ReadSplit | ram.py:74-81 | A wide read is made of narrow ones, little-endian |
| Memory.ByteHistory | ram.py:83-108 | After any history of stores, overlapping or not, each byte is the one its last covering store put there |
| Memory.CheckedAgrees | ram.py:132-172 | On a history that SafeRAM accepts, RAM ends in the same memory |
| Memory.RejectedStoresVanish | ram.py:132-172 | The stores SafeRAM rejects change no byte |
| Memory.UncheckedPartialStore | ram.py:89-95 | An unchecked store at the end of memory fails after storing a part |
| Ram.RAM.LoadByte | ram.py:60-65 | The byte map's byte, sign-extended if asked; an error past the end |
| Ram.RAM.LoadHalf | ram.py:67-72 | The byte map's half-word |
| Ram.RAM.LoadWord | ram.py:74-81 | The byte map's word, through the word view or byte by byte |
| Ram.RAM.StoreByte | ram.py:83-87 | The byte map updated |
| Ram.RAM.StoreHalf | ram.py:89-95 | The byte map updated, in part if it runs off the end |
| Ram.RAM.StoreWord | ram.py:97-108 | The byte map updated, through the word view or byte by byte |
| Ram.RAM.SafeLoadByte | ram.py:136-139 | As RAM, on checked addresses |
| Ram.RAM.SafeLoadHalf | ram.py:141-144 | As RAM, on checked addresses |
| Ram.RAM.SafeLoadWord | ram.py:146-151 | As RAM, on checked addresses |
| Ram.RAM.SafeStoreByte | ram.py:153-155 | As RAM; a rejected store changes nothing |
| Ram.RAM.SafeStoreHalf | ram.py:157-161 | As RAM; a rejected store changes nothing |
| Ram.RAM.SafeStoreWord | ram.py:163-172 | As RAM; a rejected store changes nothing |
| Ram.RAM.OffsetLoadByte | ram.py:202-206 | SafeRAM shifted by the base address |
| Ram.RAM.OffsetLoadHalf | ram.py:208-212 | SafeRAM shifted by the base address |
| Ram.RAM.OffsetLoadWord | ram.py:214-220 | SafeRAM shifted by the base address |
| Ram.RAM.OffsetStoreByte | ram.py:222-225 | SafeRAM shifted by the base address |
| Ram.RAM.OffsetStoreHalf | ram.py:227-232 | SafeRAM shifted by the base address |
| Ram.RAM.OffsetStoreWord | ram.py:234-244 | SafeRAM shifted by the base address |
| Ram.RAM.StoreBinary | ram.py:113-117 | The block lands as a whole, or an error and no change |
| Ram.RAM.AnyStoreBinary | ram.py:178-180 | The same with checked addresses |
| Ram.RAM.LoadCString | ram.py:119-125 | The bytes before the first NUL, which must be in reach; an error if there is none; so a C string in reach is returned as it is |
| Cpu.CPU.constructor | cpu.py:571-688 | The state after reset, with the initial registers given |
| Cpu.CPU.TakeTrap | cpu.py:765-782 | Trap entry, or the end of the run without handler |
| Cpu.CPU.BypassTrap | cpu.py:789-794 | The CSR effects of trap and return |
| Cpu.CPU.UpdateTimer | cpu.py:797-821 | The tick of `Isa` |
| Cpu.CPU.SetPending | cpu.py:805-810 | mip follows `mtip` when that changes |
| Cpu.CPU.HandleRtype | cpu.py:27-160 | The result of `Alu` in rd, or an illegal-instruction trap |
| Cpu.CPU.Div | cpu.py:89-99 | Float division gives the truncated quotient, with the fixed results for zero and overflow |
| Cpu.CPU.Rem | cpu.py:128-138 | The remainder likewise |
| Cpu.CPU.HandleItype | cpu.py:162-194 | The result of `Alu` on the sign-extended immediate, or a trap |
| Cpu.CPU.HandleLoads | cpu.py:196-214 | The loaded value, extended, in rd; an access error; or a trap |
| Cpu.CPU.HandleStores | cpu.py:216-233 | The store, which drops the reservation; an access error; or a trap |
| Cpu.CPU.HandleBranches | cpu.py:235-258 | The branch, or a trap for a misaligned target, if taken |
| Cpu.CPU.HandleLui | cpu.py:260-262 | The upper immediate in rd |
| Cpu.CPU.HandleAuipc | cpu.py:264-266 | pc plus the upper immediate in rd |
| Cpu.CPU.HandleJal | cpu.py:268-286 | Jump and link, or a trap that leaves rd alone |
| Cpu.CPU.HandleJalr | cpu.py:288-309 | Jump and link to an even address, or a trap |
| Cpu.CPU.HandleSystem | cpu.py:311-433 | ECALL, MRET, EBREAK, CSR instructions and WFI |
| Cpu.CPU.HandleEcall | cpu.py:312-319 | The handler's answer and the effects of trap and return, or a trap, or an error |
| Cpu.CPU.HandleMret | cpu.py:321-333 | Return from trap |
| Cpu.CPU.HandleEbreak | cpu.py:335-364 | Breakpoint; the logging calls change nothing |
| Cpu.CPU.HandleCsr | cpu.py:366-425 | The CSR instruction of `Isa`, read-only CSRs included |
| Cpu.CPU.UpdateCsr | cpu.py:377-413 | The write, the timer commit and the forced MPP |
| Cpu.CPU.CommitMtime | cpu.py:383-391 | The two-phase write of mtime |
| Cpu.CPU.CommitMtimecmp | cpu.py:394-402 | The two-phase write of mtimecmp |
| Cpu.CPU.ReadTimer | cpu.py:415-425 | Timer CSRs read as the timer registers |
| Cpu.CPU.HandleMiscMem | cpu.py:435-441 | FENCE and FENCE.I do nothing |
| Cpu.CPU.HandleAmo | cpu.py:443-550 | LR, SC and the AMOs, with their traps |
| Cpu.CPU.LoadReserved | cpu.py:462-467 | LR.W |
| Cpu.CPU.StoreConditional | cpu.py:469-476 | SC.W |
| Cpu.CPU.ReadModifyWrite | cpu.py:478-545 | The AMOs |
| Cpu.CPU.AmoValue | cpu.py:478-545 | The word each AMO stores back |
| Cpu.CPU.DispatchOpcode | cpu.py:553-566 | The opcode table carries out the decoded instruction |
| Cpu.CPU.ExecuteWord | cpu.py:694-715 | Lookup, dispatch and x0, as the cached execution of the specification |
| Cpu.CPU.ExecuteHalf | cpu.py:718-750 | The same for 16-bit words |
| Cpu.CPU.ExecuteAny | cpu.py:753-762 | Routes a word to either, by its low bits and the RVC switch |
| Immediates.ValueI | cpu.py:162-166 | The handlers' sign extension by subtraction is two's complement: I format |
| Immediates.ValueS | cpu.py:216-219 | S format |
| Immediates.ValueB | cpu.py:235-248 | B format |
| Immediates.ValueJ | cpu.py:268-273 | J format |
| PyInt.MaskIsMod | cpu.py:30-37 | `x & (2^k - 1)` is the remainder modulo 2^k, for negative x too |
| PyInt.OneBit | cpu.py:805-809 | Or-ing with `1 << k` and and-ing with its complement set and clear one bit |
| PyInt.BitOfResult | cpu.py:404-410 | Each bit of the result of a bit operator is the truth table of the bits of its operands, for negative numbers too |
| PyInt.JoinHalves | cpu.py:388-388 | Or-ing `hi << k` with lo is addition when lo has k bits |

## Left out

- Host system calls apart from `sbrk`: represented by a function that answers with registers, pc and memory blocks.
- Cpu.CPU.HandleEcall: a handler that leaves a negative number in a0, as the file calls do on error, is outside the model, in which registers are below 2^32.
- Cpu.CPU.HandleEbreak: an access error while reading the string to be logged is not modelled; the logging calls have no effect on the guest.
- Machines.Machine.LoopMmio: the RAM is plain, as in the other loops, because peripherals on the bus are left out.
- Machines.Machine.LoopWithChecks: the run-time checks are one predicate on the state, without the switch that turns them on at a start address.
- Gdb.GDBStub.InsertBreakpoint: the parameter is taken as parsed, because parsing is Python's.
- Gdb.GDBStub.RemoveBreakpoint: likewise.
- The peripherals on the CPU's memory bus (the MMIO variants of the RAM classes, UART, block device): the CPU of this model has plain RAM, `MmioTimer` brings device accesses in as separate steps, and polling the peripherals has no effect on the guest.
- Register logging and tracing.
- ELF and flat-binary loading, command line, RAM initialisation patterns.
- GDB commands apart from breakpoints: string handling.
- The GDB socket is a character sequence: a read of two characters gets two unless the stream ends, and non-ASCII digits or blanks in a checksum count as malformed.
- Big-endian hosts: the word view of the RAM is taken to be little-endian.
- A guest clock beyond 2^64 and interrupts between the instructions of `Guest.AdvancesCompare` and `Guest.WriteMtimecmp`: the code runs with interrupts off.
- Handlers.TimerHandlerGivesBack: the context macros and the scheduler calls of the port's handler come from the FreeRTOS kernel, which is not part of this model; the handler here saves its registers with plain stores, restores them and does not switch tasks.
- Machines.Machine.SetupArgv: for a RAM of at most 2^32 bytes, so that addresses fit a register.
- The arguments of `setup_argv` are given by their length and their UTF-8 encoding; encoding itself is Python's.
- The copies of the core under `advanced/webapp`, the guest programs and the ports of CircuitPython, MicroPython and CoreMark.
