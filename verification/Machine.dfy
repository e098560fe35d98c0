/** The machine: a CPU, its RAM and the execution loops. A loop that the emulator runs until an exception
    ends it is run here for n iterations, or fewer if an exception ends it. */
module Machines {
  import opened PyInt
  import opened Memory
  import opened Isa
  import opened Rvc
  import opened Ram
  import opened Cpu
  import opened Cache
  import opened Steps
  import opened CachedRuns
  import opened Gdb
  import opened Heap
  import Invariants

  class Machine {
    const cpu: CPU
    const rvc: bool
    const timer: bool
    const mmio: bool

    /** Register logging, invariant checking or tracing is on; `check` is what `check_invariants` tests. */
    const checks: bool
    const check: State -> bool

    var heapEnd: nat
    var stackBottom: Option<Word>

    constructor (cpu: CPU, timer: bool, mmio: bool, checks: bool, check: State -> bool)
      requires cpu.Valid()
      ensures Valid() && this.cpu == cpu && this.timer == timer && this.mmio == mmio
      ensures this.checks == checks && this.check == check
    {
      this.cpu := cpu;
      this.rvc := cpu.rvcEnabled;
      this.timer := timer;
      this.mmio := mmio;
      this.checks := checks;
      this.check := check;
      heapEnd := 0;
      stackBottom := None;
    }

    ghost predicate Valid() { cpu.Valid() && rvc == cpu.rvcEnabled }

    /** The state of the CPU, the state of its caches, and how the loop has ended, if it has. */
    ghost function Now(halt: Halt): (Effect, Caches)
      reads cpu, cpu.ram.memory
    {
      (Effect(cpu.S(), halt), cpu.C())
    }

    // ----- The argv block -----

    function Limit(): nat { if cpu.ram.checked then cpu.ram.size else cpu.ram.memory.Length }

    method SetupArgv(argvList: seq<Arg>) returns (ok: bool)
      requires Valid() && cpu.ram.memory.Length <= WORD
      modifies this`heapEnd, cpu`registers, cpu.ram.memory
      ensures ok <==> BlockFits(Limit(), old(heapEnd), argvList)
      ensures ok ==> && cpu.ram.Contents() == Laid(old(cpu.ram.Contents()), old(heapEnd), argvList)
                     && heapEnd == HeapEnd(old(heapEnd), argvList)
                     && cpu.registers == old(cpu.registers)[10 := |argvList|][11 := TableAddr(old(heapEnd), argvList)]
      ensures !ok ==> cpu.registers == old(cpu.registers)
    {
      hide Strings; hide Table; hide Round; hide Addr; hide Memory.Write; hide Memory.Splice; hide StringsFit;
      ghost var mem, start := cpu.ram.Contents(), heapEnd;
      var argvPointers: seq<nat>;
      ok, argvPointers := PlaceStrings(argvList);
      if !ok { return; }
      var argvTableAddr := heapEnd;
      ok := PlaceTable(argvList, argvPointers + [0], start);
      if !ok { return; }
      RoundIs8(heapEnd);
      heapEnd := heapEnd + 7 - (heapEnd + 7) % 8;
      cpu.registers := WithReg(cpu.registers, 10, |argvList|);
      cpu.registers := WithReg(cpu.registers, 11, argvTableAddr);
    }

    /** The first loop of `setup_argv`. */
    method PlaceStrings(argvList: seq<Arg>) returns (ok: bool, argvPointers: seq<nat>)
      requires Valid()
      modifies this`heapEnd, cpu.ram.memory
      ensures ok <==> StringsFit(Limit(), old(heapEnd), argvList, |argvList|)
      ensures ok ==> && cpu.ram.Contents() == Strings(old(cpu.ram.Contents()), old(heapEnd), argvList, |argvList|)
                     && heapEnd == TableAddr(old(heapEnd), argvList) && |argvPointers| == |argvList|
                     && forall k | 0 <= k < |argvList| :: argvPointers[k] == Addr(old(heapEnd), argvList, k)
    {
      hide Splice; hide Round;
      ghost var mem, start := cpu.ram.Contents(), heapEnd;
      argvPointers := [];
      for i := 0 to |argvList|
        invariant heapEnd == Addr(start, argvList, i) && |argvPointers| == i
        invariant forall k | 0 <= k < i :: argvPointers[k] == Addr(start, argvList, k)
        invariant cpu.ram.Contents() == Strings(mem, start, argvList, i)
        invariant StringsFit(Limit(), start, argvList, i)
      {
        var addr := heapEnd;
        ok := cpu.ram.AnyStoreBinary(addr, argvList[i].bytes + [0]);
        if !ok { StringTooBig(Limit(), start, argvList, i); return; }
        argvPointers := argvPointers + [addr];
        heapEnd := heapEnd + argvList[i].chars + 1;
        RoundIs4(heapEnd);
        heapEnd := heapEnd + 3 - (heapEnd + 3) % 4;
      }
      ok := true;
    }

    /** The second loop: `words` is the table. */
    method PlaceTable(argvList: seq<Arg>, words: seq<nat>, ghost start: nat) returns (ok: bool)
      requires Valid() && |words| == |argvList| + 1
      requires forall k | 0 <= k < |words| :: words[k] == Entry(start, argvList, k)
      modifies this`heapEnd, cpu.ram.memory
      ensures ok <==> old(heapEnd) + 4 * |words| <= Limit()
      ensures ok ==> && cpu.ram.Contents() == Table(old(cpu.ram.Contents()), old(heapEnd), start, argvList, |words|)
                     && heapEnd == old(heapEnd) + 4 * |words|
    {
      hide Memory.Write; hide Entry;
      ghost var mem, at := cpu.ram.Contents(), heapEnd;
      for i := 0 to |words|
        invariant heapEnd == at + 4 * i
        invariant i > 0 ==> heapEnd <= Limit()
        invariant cpu.ram.Contents() == Table(mem, at, start, argvList, i)
      {
        ok := cpu.ram.AnyStoreWord(heapEnd, words[i]);
        if !ok { return; }
        heapEnd := heapEnd + 4;
      }
      ok := true;
    }

    // ----- The parts of an iteration -----

    /** Fetches one word, and executes all or half of it. */
    method StepByWord() returns (halt: Halt)
      requires Valid()
      modifies cpu, cpu.ram.memory
      ensures Now(halt) == CachedExecute(cpu.Cfg(), old(cpu.S()), old(cpu.C()), ByWord(cpu.Cfg(), old(cpu.S())))
    {
      hide OfWord; hide OfHalf; hide CachedExecute32; hide CachedExecute16;
      var inst := cpu.ram.AnyLoadWord(cpu.pc);
      if inst.None? { return Fault; }
      WordRange(cpu.ram.Contents(), cpu.pc);
      if inst.value % 4 == 3 {
        halt := cpu.ExecuteWord(OfWord(inst.value));
      } else {
        halt := cpu.ExecuteHalf(OfHalf(inst.value % 0x10000));
      }
    }

    /** Fetches a half-word, and the second one if the instruction has 32 bits. */
    method FetchHalves() returns (f: Fetched)
      requires Valid()
      ensures f == ByHalves(cpu.Cfg(), cpu.S())
    {
      hide OfWord; hide OfHalf; hide Memory.Read;
      var instLow := cpu.ram.AnyLoadHalf(cpu.pc, false);
      if instLow.None? { return NoInst; }
      HalfRange(cpu.ram.Contents(), cpu.pc);
      if instLow.value % 4 != 3 { return Half16(OfHalf(instLow.value)); }
      var instHigh := cpu.ram.AnyLoadHalf(cpu.pc + 2, false);
      if instHigh.None? { return NoInst; }
      HalfRange(cpu.ram.Contents(), cpu.pc + 2);
      return Word32(OfWord(instLow.value + 0x10000 * instHigh.value));
    }

    /** The end of an iteration: the timer, if there is one, and the new pc. */
    method FinishStep(ticks: bool) returns (halt: Halt)
      modifies cpu
      ensures Now(halt) == FinishWith(ticks, old(Now(Running)))
    {
      hide Isa.Tick;
      halt := Running;
      if ticks {
        halt := cpu.UpdateTimer();
        if halt != Running { return; }
      }
      cpu.pc := cpu.nextPc;
    }

    // ----- The loops -----

    method LoopFast(n: nat) returns (halt: Halt)
      requires Valid()
      modifies cpu, cpu.ram.memory
      ensures Now(halt) == CachedRun(cpu.Cfg(), RunFast, old(cpu.S()), old(cpu.C()), n)
    {
      hide CachedExecute; hide ByWord; hide Finish;
      halt := Running;
      for k := 0 to n
        invariant halt == Running
        invariant CachedRun(cpu.Cfg(), RunFast, old(cpu.S()), old(cpu.C()), n)
               == CachedRun(cpu.Cfg(), RunFast, cpu.S(), cpu.C(), n - k)
      {
        halt := StepByWord();
        if halt != Running { FinishHalted(false, Now(halt)); return; }
        halt := FinishStep(false);
        if halt != Running { return; }
      }
    }

    method LoopFastNoRvc(n: nat) returns (halt: Halt)
      requires Valid()
      modifies cpu, cpu.ram.memory
      ensures Now(halt) == CachedRun(cpu.Cfg(), RunFastNoRvc, old(cpu.S()), old(cpu.C()), n)
    {
      hide CachedExecute32; hide CachedExecute16; hide Finish; hide OfWord;
      halt := Running;
      for k := 0 to n
        invariant halt == Running
        invariant CachedRun(cpu.Cfg(), RunFastNoRvc, old(cpu.S()), old(cpu.C()), n)
               == CachedRun(cpu.Cfg(), RunFastNoRvc, cpu.S(), cpu.C(), n - k)
      {
        var inst := cpu.ram.AnyLoadWord(cpu.pc);
        if inst.None? { FinishHalted(false, Now(Fault)); return Fault; }
        WordRange(cpu.ram.Contents(), cpu.pc);
        halt := cpu.ExecuteWord(OfWord(inst.value));
        if halt != Running { FinishHalted(false, Now(halt)); return; }
        halt := FinishStep(false);
        if halt != Running { return; }
      }
    }

    method LoopTimer(n: nat) returns (halt: Halt)
      requires Valid()
      modifies cpu, cpu.ram.memory
      ensures Now(halt) == CachedRun(cpu.Cfg(), RunTimer, old(cpu.S()), old(cpu.C()), n)
    {
      hide CachedExecute; hide ByWord; hide Finish;
      halt := Running;
      for k := 0 to n
        invariant halt == Running
        invariant CachedRun(cpu.Cfg(), RunTimer, old(cpu.S()), old(cpu.C()), n)
               == CachedRun(cpu.Cfg(), RunTimer, cpu.S(), cpu.C(), n - k)
      {
        halt := StepByWord();
        if halt != Running { FinishHalted(true, Now(halt)); return; }
        halt := FinishStep(true);
        if halt != Running { return; }
      }
    }

    /** `polls` counts the calls of `peripherals_run`, which touch host buffers only: one in 256 cycles. */
    method LoopMmio(n: nat) returns (halt: Halt, polls: nat)
      requires Valid()
      modifies cpu, cpu.ram.memory
      ensures Now(halt) == CachedRun(cpu.Cfg(), RunMmio(timer), old(cpu.S()), old(cpu.C()), n)
      ensures halt == Running ==> polls == n / 256
    {
      hide CachedExecute; hide ByWord; hide Finish;
      halt, polls := Running, 0;
      var div := 0;
      for k := 0 to n
        invariant halt == Running && k == 256 * polls + div && 0 <= div < 256
        invariant CachedRun(cpu.Cfg(), RunMmio(timer), old(cpu.S()), old(cpu.C()), n)
               == CachedRun(cpu.Cfg(), RunMmio(timer), cpu.S(), cpu.C(), n - k)
      {
        halt := StepByWord();
        if halt != Running { FinishHalted(timer, Now(halt)); return; }
        halt := FinishStep(timer);
        if halt != Running { return; }
        div := div + 1;
        if div % 256 == 0 {
          polls := polls + 1;
          div := 0;
        }
      }
    }

    /** `execute`, on what has been fetched in halves. */
    method ExecuteHalves() returns (halt: Halt)
      requires Valid()
      modifies cpu, cpu.ram.memory
      ensures Now(halt) == CachedExecute(cpu.Cfg(), old(cpu.S()), old(cpu.C()),
                                         Fetch(cpu.Cfg(), RunWithChecks(check, timer), old(cpu.S())))
    {
      hide CachedExecuteAny; hide ByHalves; hide CachedExecute; hide Fetch; hide AsWord; hide Cache.EndsIn11;
      var f := FetchHalves();
      NothingToExecute(cpu.Cfg(), cpu.S(), cpu.C(), check, timer);
      if f == NoInst { return Fault; }
      AnyIsFetched(cpu.Cfg(), cpu.S(), cpu.C(), check, timer);
      halt := cpu.ExecuteAny(AsWord(f));
    }

    method LoopWithChecks(n: nat) returns (halt: Halt, polls: nat)
      requires Valid()
      modifies cpu, cpu.ram.memory
      ensures Now(halt) == CachedRun(cpu.Cfg(), RunWithChecks(check, timer), old(cpu.S()), old(cpu.C()), n)
      ensures halt == Running ==> polls == if mmio then n / 256 else 0
    {
      hide CachedExecute; hide Fetch; hide Finish;
      var loop := RunWithChecks(check, timer);
      halt, polls := Running, 0;
      var div := 0;
      for k := 0 to n
        invariant halt == Running && (if mmio then k == 256 * polls + div else polls == 0) && 0 <= div < 256
        invariant CachedRun(cpu.Cfg(), loop, old(cpu.S()), old(cpu.C()), n)
               == CachedRun(cpu.Cfg(), loop, cpu.S(), cpu.C(), n - k)
      {
        if !check(cpu.S()) { return Violation, polls; }
        halt := ExecuteHalves();
        if halt != Running { FinishHalted(timer, Now(halt)); return; }
        halt := FinishStep(timer);
        if halt != Running { return; }
        if mmio {
          div := div + 1;
          if div % 256 == 0 {
            polls := polls + 1;
            div := 0;
          }
        }
      }
    }

    /** The loop that `run` selects. */
    function Selected(): Loop {
      if checks then RunWithChecks(check, timer)
      else if mmio then RunMmio(timer)
      else if timer then RunTimer
      else if rvc then RunFast
      else RunFastNoRvc
    }

    /** It ticks if and only if the timer is on, polls the peripherals if they are, runs the checks if they are, and
        keeps pc aligned from every state unless RVC is off and it is one of the loops that ignore that. */
    lemma SelectedFits(cfg: Config)
      requires cfg.rvc == rvc
      ensures Selected().Ticks() == timer && (Selected().RunWithChecks? <==> checks)
      ensures Selected().RunMmio? <==> mmio && !checks
      ensures Invariants.AlwaysKeeps(cfg, Selected()) <==> rvc || checks || (!mmio && !timer)
    {
      hide Invariants.AlwaysKeeps;
      Invariants.SuitedExactly(cfg, Selected());
    }

    /** With RVC, whichever loop is selected, the run is that of the debugger's loop, as long as no fetch is at the edge
        of memory and no check fails. */
    lemma SelectedAgrees(cfg: Config, s: State, n: nat)
      requires cfg.rvc && rvc && UnremarkableRun(cfg, Selected(), RunWithGdb(timer), s, n)
      ensures Run(cfg, Selected(), s, n) == Run(cfg, RunWithGdb(timer), s, n)
    {
      hide UnremarkableRun; hide Run;
      LoopsAgree(cfg, Selected(), RunWithGdb(timer), s, n);
    }

    /** None if the initial pc is not aligned. */
    method RunSelected(n: nat) returns (halt: Option<Halt>)
      requires Valid()
      modifies cpu, cpu.ram.memory
      ensures halt.None? <==> Misaligned(cpu.Cfg(), old(cpu.S()).pc)
      ensures halt.None? ==> cpu.S() == old(cpu.S()) && cpu.C() == old(cpu.C())
      ensures halt.Some? ==> Now(halt.value) == CachedRun(cpu.Cfg(), Selected(), old(cpu.S()), old(cpu.C()), n)
    {
      hide CachedRun;
      if cpu.pc % (if rvc then 2 else 4) != 0 { return None; }
      var h, polls;
      if checks {
        h, polls := LoopWithChecks(n);
      } else if mmio {
        h, polls := LoopMmio(n);
      } else if timer {
        h := LoopTimer(n);
      } else if rvc {
        h := LoopFast(n);
      } else {
        h := LoopFastNoRvc(n);
      }
      return Some(h);
    }

    // ----- Under the debugger -----

    method StepUnderGdb() returns (halt: Halt)
      requires Valid()
      modifies cpu, cpu.ram.memory
      ensures Now(halt) == CachedStep(cpu.Cfg(), RunWithGdb(timer), old(cpu.S()), old(cpu.C()))
    {
      hide CachedExecute32; hide CachedExecute16; hide ByHalves; hide Finish;
      var f := FetchHalves();
      match f {
        case NoInst => halt := Fault;
        case Word32(inst) => halt := cpu.ExecuteWord(inst);
        case Half16(instLow) => halt := cpu.ExecuteHalf(instLow);
      }
      if halt != Running { FinishHalted(timer, Now(halt)); return; }
      halt := FinishStep(timer);
    }

    /** One call: a single step, or up to n iterations of the continue loop. `poll` says whether Ctrl+C has
        arrived by a cycle in which the loop looks for it; `polls` counts the calls of `peripherals_run`. */
    method LoopWithGdb(gdbStub: GDBStub, poll: nat -> bool, n: nat) returns (halt: Halt, stop: Stop, polls: nat)
      requires Valid()
      modifies cpu, cpu.ram.memory, gdbStub`running
      ensures old(gdbStub.singleStep) ==>
                Now(halt) == CachedStep(cpu.Cfg(), RunWithGdb(timer), old(cpu.S()), old(cpu.C()))
      ensures old(gdbStub.singleStep) ==> stop == if halt == Running then StepDone else Exception
      ensures !old(gdbStub.singleStep) && old(gdbStub.running) ==>
                (Now(halt), stop) == Continue(cpu.Cfg(), timer, old(cpu.S()), old(cpu.C()), gdbStub.swBreakpoints,
                                              poll, 0, n)
      ensures gdbStub.running == (old(gdbStub.running) && stop != Interrupted)
      ensures mmio && halt == Running ==>
                polls == if old(gdbStub.singleStep) then 1 else if !old(gdbStub.running) then 0
                         else Executed(cpu.Cfg(), timer, old(cpu.S()), old(cpu.C()), gdbStub.swBreakpoints,
                                       poll, 0, n) / 256
      ensures !mmio ==> polls == 0
    {
      hide CachedStep; hide Polled;
      halt, stop, polls := Running, NotYet, 0;
      if gdbStub.singleStep {
        halt := StepUnderGdb();
        if halt != Running { stop := Exception; return; }
        if mmio { polls := 1; }
        stop := StepDone;
        return;
      }
      var cycleCount, div := 0, 0;
      while gdbStub.running && cycleCount < n
        invariant halt == Running && stop == NotYet && cycleCount <= n && gdbStub.running == old(gdbStub.running)
        invariant Continue(cpu.Cfg(), timer, old(cpu.S()), old(cpu.C()), gdbStub.swBreakpoints, poll, 0, n)
               == Continue(cpu.Cfg(), timer, cpu.S(), cpu.C(), gdbStub.swBreakpoints, poll, cycleCount, n - cycleCount)
        invariant Executed(cpu.Cfg(), timer, old(cpu.S()), old(cpu.C()), gdbStub.swBreakpoints, poll, 0, n)
               == Executed(cpu.Cfg(), timer, cpu.S(), cpu.C(), gdbStub.swBreakpoints, poll, cycleCount, n - cycleCount)
                  + cycleCount
        invariant (if mmio then cycleCount == 256 * polls + div else polls == 0) && 0 <= div < 256
        invariant !gdbStub.running ==> cycleCount == 0
      {
        if gdbStub.IsBreakpoint(cpu.pc) { stop := Breakpoint; return; }
        cycleCount := cycleCount + 1;
        if Polled(poll, cycleCount) {
          gdbStub.running := false;
          stop := Interrupted;
          return;
        }
        halt := StepUnderGdb();
        if halt != Running { stop := Exception; return; }
        if mmio {
          div := div + 1;
          if div % 256 == 0 {
            polls := polls + 1;
            div := 0;
          }
        }
      }
    }
  }

  class SyscallHandler {
    const machine: Machine

    constructor (machine: Machine)
      ensures this.machine == machine
    {
      this.machine := machine;
    }

    /** False if the stack bottom is not known, which is an error. */
    method HandleSbrk() returns (ok: bool)
      modifies machine`heapEnd, machine.cpu`registers
      ensures ok == machine.stackBottom.Some?
      ensures !ok ==> machine.heapEnd == old(machine.heapEnd) && machine.cpu.registers == old(machine.cpu.registers)
      ensures ok ==>
        var inc, bottom := old(machine.cpu.registers[10]), machine.stackBottom.value;
        var answer := Sbrk(old(machine.heapEnd), bottom, inc);
        && machine.heapEnd == NewEnd(old(machine.heapEnd), bottom, inc)
        && machine.cpu.registers == old(machine.cpu.registers)[10 := if answer.Some? then answer.value else 0xFFFF_FFFF]
    {
      if machine.stackBottom.None? { return false; }
      var increment := machine.cpu.registers[10];
      var oldHeapEnd := machine.heapEnd;
      var newHeapEnd := oldHeapEnd + increment;
      if newHeapEnd >= machine.stackBottom.value {
        machine.cpu.registers := WithReg(machine.cpu.registers, 10, 0xFFFF_FFFF);
      } else {
        machine.heapEnd := newHeapEnd;
        machine.cpu.registers := WithReg(machine.cpu.registers, 10, oldHeapEnd);
      }
      return true;
    }
  }

  /** The instruction as one number. */
  function AsWord(f: Fetched): bv32
    requires f != NoInst
  {
    match f
    case Word32(w) => w
    case Half16(h) => Widen(h)
  }

  lemma NothingToExecute(cfg: Config, s: State, c: Caches, check: State -> bool, timed: bool)
    ensures ByHalves(cfg, s) == NoInst ==>
              CachedExecute(cfg, s, c, Fetch(cfg, RunWithChecks(check, timed), s)) == (Effect(s, Fault), c)
  {
    hide ByHalves;
  }

  lemma AnyOnWide(cfg: Config, s: State, c: Caches, w: bv32)
    requires EndsIn11(w)
    ensures CachedExecuteAny(cfg, s, c, w) == CachedExecute32(cfg, s, c, w)
  {
    hide CachedExecute32; hide CachedExecute16;
  }

  lemma AnyOnNarrow(cfg: Config, s: State, c: Caches, h: bv16)
    requires h & 0x3 != 0x3
    ensures CachedExecuteAny(cfg, s, c, Widen(h))
         == if cfg.rvc then CachedExecute16(cfg, s, c, h) else CachedExecute32(cfg, s, c, Widen(h))
  {
    hide CachedExecute32; hide CachedExecute16;
    Widened(h);
  }

  /** `execute` makes of it what the loop's fetch says. */
  lemma AnyIsFetched(cfg: Config, s: State, c: Caches, check: State -> bool, timed: bool)
    requires ByHalves(cfg, s) != NoInst
    ensures CachedExecuteAny(cfg, s, c, AsWord(ByHalves(cfg, s)))
         == CachedExecute(cfg, s, c, Fetch(cfg, RunWithChecks(check, timed), s))
  {
    hide CachedExecute32; hide CachedExecute16; hide CachedExecuteAny; hide ByHalves; hide EndsIn11;
    hide ByWord; hide OfWord; hide OfHalf; hide Memory.Load; hide Widen;
    HalvesSort(cfg, s);
    match ByHalves(cfg, s)
    case Word32(w) => AnyOnWide(cfg, s, c, w);
    case Half16(h) => AnyOnNarrow(cfg, s, c, h);
  }

  lemma Widened(h: bv16)
    ensures (Widen(h) & 0xFFFF) as bv16 == h && (Widen(h) & 0x3 == 0x3 <==> h & 0x3 == 0x3)
  {
  }

  lemma FinishHalted(ticks: bool, r: (Effect, Caches))
    requires r.0.halt != Running
    ensures FinishWith(ticks, r) == r
  {
  }

  lemma OddHalf(n: nat)
    requires n < 0x10000
    ensures OfHalf(n) & 1 == if n % 2 == 1 then 1 else 0
  {
  }

  lemma SecondHalfBit(n: nat)
    requires n < 0x10000
    ensures OfHalf(n) & 2 == if n / 2 % 2 == 1 then 2 else 0
  {
  }

  lemma HalfPair(h: bv16)
    requires h & 1 == 0 || h & 2 == 0
    ensures h & 0x3 != 0x3
  {
  }

  lemma NotBoth(n: nat)
    requires n % 4 != 3
    ensures n % 2 == 0 || n / 2 % 2 == 0
  {
    var q, r := n / 4, n % 4;
    EuclidUnique(n, 2, 2 * q + r / 2, r % 2);
    EuclidUnique(n / 2, 2, q, r / 2);
  }

  lemma NarrowHalf(n: nat)
    requires n < 0x10000 && n % 4 != 3
    ensures OfHalf(n) & 0x3 != 0x3
  {
    hide OfHalf;
    NotBoth(n);
    OddHalf(n);
    SecondHalfBit(n);
    HalfPair(OfHalf(n));
  }

  /** Fetching in halves tells the two kinds apart by the bits that `execute` looks at. */
  lemma HalvesSort(cfg: Config, s: State)
    ensures var f := ByHalves(cfg, s); (f.Word32? ==> EndsIn11(f.w)) && (f.Half16? ==> f.h & 0x3 != 0x3)
  {
    SortsWide(cfg.(rvc := true), RunWithGdb(false), s);
    hide OfWord; hide EndsIn11; hide OfHalf;
    forall n: nat | n < 0x10000 && n % 4 != 3 ensures OfHalf(n) & 0x3 != 0x3 { NarrowHalf(n); }
    if Fits(cfg.checked, s.mem, s.pc, 2) { HalfRange(s.mem, s.pc); }
  }
}
