/** Interrupt handlers: what they may do so that the interrupted program does not notice, and the timer handler
    that does so. */
module Handlers {
  import opened PyInt
  import opened Memory
  import opened Isa
  import opened Rvc
  import opened Steps
  import opened Clock
  import opened TimerRuns
  import opened Traps
  import opened Guest

  // ----- Code that keeps to itself -----

  /** Every byte of an access is the handler's own. */
  predicate Within(own: set<nat>, addr: nat, size: nat) { forall j: nat | addr <= j < addr + size :: j in own }

  /** A CSR instruction that writes no CSR but those a handler may use: mcause, mtval, mip and the timer's; or it
      leaves the CSR as it is. */
  predicate LocalCsr(s: State, op: CsrOp, src: Word, n: CsrIndex) {
    || (Bookkeeping(n) && n != MSTATUS && n != MEPC)
    || WriteCsr(s, op, n, s.csr[n], src).csr[n] == s.csr[n]
  }

  /** An instruction that does not trap, stores to the handler's own memory only, makes no reservation and
      writes only such CSRs. */
  predicate Local(cfg: Config, own: set<nat>, s: State, i: Instr) {
    && Exception(cfg, s, i, 0).None?
    && match i
       case Store(size, rs1, _, imm) => Within(own, (s.x[rs1] + imm) % WORD, size)
       case Amo(op, _, rs1, _) => op != LR && Within(own, s.x[rs1], 4)
       case Csr(op, _, rs1, immediate, n) => LocalCsr(s, op, CsrSource(s, rs1, immediate), n)
       case Ecall => false
       case Mret => false
       case Ebreak => s.x[17] >= 0xFFFF_0000
       case _ => true
  }

  lemma StoreConfined(cfg: Config, own: set<nat>, s: State, addr: Word, size: nat, v: Word)
    requires Within(own, addr, size)
    ensures var e := StoreTo(cfg, s, addr, size, v); e.halt == Running ==> Confined(own, s, e.s)
  {
    hide Memory.Write;
    if Fits(cfg.checked, s.mem, addr, size) {
      forall j: nat | j < |s.mem| && j !in own ensures Write(s.mem, addr, size, v)[j] == s.mem[j] {
        WriteAt(s.mem, addr, size, v, j);
      }
    }
  }

  lemma AmoConfined(cfg: Config, own: set<nat>, s: State, i: Instr, raw: Word)
    requires i.Amo? && Local(cfg, own, s, i)
    ensures var e := ExecAmo(cfg, s, i.amo, i.rd, s.x[i.rs1], s.x[i.rs2], raw);
            e.halt == Running ==> Confined(own, s, e.s)
  {
    hide Isa.StoreTo; hide Isa.Combine; hide Memory.Load; hide SameMemory; hide Bookkeeping; hide Within;
    var addr, b := s.x[i.rs1], s.x[i.rs2];
    StoreConfined(cfg, own, s, addr, 4, b);
    var r := Memory.Load(cfg.checked, s.mem, addr, 4);
    if r.Some? && r.value < WORD { StoreConfined(cfg, own, s, addr, 4, Combine(i.amo, r.value, b)); }
    if i.amo != SC && r.Some? { LoadedWord(cfg, s, addr); }
    SameMemoryAnyway(own, s.mem);
  }

  lemma LoadedWord(cfg: Config, s: State, addr: nat)
    requires Memory.Load(cfg.checked, s.mem, addr, 4).Some?
    ensures Memory.Load(cfg.checked, s.mem, addr, 4).value < WORD
  {
    WordRange(s.mem, addr);
  }

  lemma SameMemoryAnyway(own: set<nat>, mem: Bytes)
    ensures SameMemory(own, mem, mem)
  {
  }

  lemma CsrConfined(cfg: Config, own: set<nat>, s: State, i: Instr, raw: Word)
    requires i.Csr? && Local(cfg, own, s, i)
    ensures var e := ExecCsr(s, i.csrOp, i.rd, CsrSource(s, i.rs1, i.immediate), i.csr, raw);
            e.halt == Running && Confined(own, s, e.s)
  {
    hide Isa.NewCsr; hide Isa.On; hide Isa.WriteTime; hide Isa.WriteCompare; hide Isa.ReadBack; hide SameMemory;
    SameMemoryAnyway(own, s.mem);
  }

  lemma PlainConfined(cfg: Config, own: set<nat>, s: State, i: Instr, raw: Word, size: nat)
    requires Local(cfg, own, s, i) && !i.Csr? && !i.Amo? && !i.Store?
    ensures var e := Exec(cfg, s, i, raw, size); e.halt == Running ==> Confined(own, s, e.s)
  {
    hide Isa.Alu; hide Isa.Taken; hide Isa.Even; hide Isa.Loaded; hide Memory.Load; hide SameMemory;
    SameMemoryAnyway(own, s.mem);
  }

  lemma PerformConfined(cfg: Config, own: set<nat>, s: State, i: Instr, raw: Word, size: nat)
    requires Local(cfg, own, s, i)
    ensures var e := Perform(cfg, s, i, raw, size); e.halt == Running ==> Confined(own, s, e.s)
  {
    hide SameMemory; hide Bookkeeping; hide Within; hide Isa.StoreTo; hide Isa.ExecAmo; hide Isa.ExecCsr;
    var s' := s.(nextPc := (s.pc + size) % WORD);
    LocalAnyway(cfg, own, s, s', i);
    if i.Store? { StoreConfined(cfg, own, s', (s.x[i.rs1] + i.imm) % WORD, i.size, s.x[i.rs2]); }
    else if i.Amo? { AmoConfined(cfg, own, s', i, raw); }
    else if i.Csr? { CsrConfined(cfg, own, s', i, raw); }
    else { hide Isa.Exec; PlainConfined(cfg, own, s', i, raw, size); }
  }

  lemma LocalAnyway(cfg: Config, own: set<nat>, s: State, s': State, i: Instr)
    requires s' == s.(nextPc := s'.nextPc) && Local(cfg, own, s, i)
    ensures Local(cfg, own, s', i)
  {
    hide Isa.NewCsr; hide Isa.On; hide Exception; hide Within;
    SameException(cfg, s, s', i, 0);
  }

  // ----- Whole runs of it -----

  predicate LocalHere(cfg: Config, loop: Loop, own: set<nat>, s: State) {
    var d := DecodeFetched(Fetch(cfg, loop, s)); d.Decoded? && Local(cfg, own, s, d.i)
  }

  predicate LocalThroughout(cfg: Config, loop: Loop, own: set<nat>, s: State, n: nat)
    decreases n
  {
    n == 0 || (LocalHere(cfg, loop, own, s) &&
      var e := Step(cfg, loop, s); e.halt == Running ==> LocalThroughout(cfg, loop, own, e.s, n - 1))
  }

  lemma FinishConfined(loop: Loop, own: set<nat>, s: State, e: Effect)
    requires e.halt == Running && Confined(own, s, e.s) && Bit(s.csr[MSTATUS], BIT_MIE) == 0
    ensures var t := Finish(loop.Ticks(), e); t.halt == Running && Confined(own, s, t.s)
  {
    hide PyInt.Bit; hide Isa.On; hide Isa.Off; hide SameMemory; hide Isa.EnterTrap;
  }

  lemma StepConfined(cfg: Config, loop: Loop, own: set<nat>, s: State)
    requires Masked(s) && LocalHere(cfg, loop, own, s)
    ensures var e := Step(cfg, loop, s); e.halt == Running ==> Confined(own, s, e.s) && Masked(e.s)
  {
    hide Confined; hide Isa.Perform; hide Steps.Execute; hide Steps.Fetch; hide Steps.DecodeFetched; hide Steps.Finish;
    hide Local; hide PyInt.Bit;
    var f := Fetch(cfg, loop, s);
    NothingFetched(cfg, s, f);
    if Step(cfg, loop, s).halt == Running {
      StepsOnlyIfExecuted(cfg, loop, s);
      ExecuteDecoded(cfg, s, f);
      var d := DecodeFetched(f);
      PerformConfined(cfg, own, s, d.i, d.raw, d.size);
      FinishConfined(loop, own, s, Execute(cfg, s, f));
      ZeroStays(cfg, loop, s);
      StatusKept(own, s, Step(cfg, loop, s).s);
    }
  }

  lemma StepsOnlyIfExecuted(cfg: Config, loop: Loop, s: State)
    requires Step(cfg, loop, s).halt == Running
    ensures Checked(loop, s) && Execute(cfg, s, Fetch(cfg, loop, s)).halt == Running
    ensures Step(cfg, loop, s) == Finish(loop.Ticks(), Execute(cfg, s, Fetch(cfg, loop, s)))
  {
    hide Steps.Execute; hide Steps.Fetch; hide Isa.Tick;
  }

  lemma StatusKept(own: set<nat>, s: State, t: State)
    requires Confined(own, s, t)
    ensures t.csr[MSTATUS] == s.csr[MSTATUS]
  {
    hide SameProgram;
  }

  lemma ConfinedTrans(own: set<nat>, s: State, t: State, u: State)
    requires Confined(own, s, t) && Confined(own, t, u)
    ensures Confined(own, s, u)
  {
  }

  lemma ConfinedSame(own: set<nat>, s: State)
    ensures Confined(own, s, s)
  {
  }

  /** Code that keeps to itself, with interrupts off, does not touch what belongs to the program. */
  lemma {:induction false} LocalRun(cfg: Config, loop: Loop, own: set<nat>, s: State, n: nat)
    requires Masked(s) && LocalThroughout(cfg, loop, own, s, n)
    ensures var e := Run(cfg, loop, s, n); e.halt == Running ==> Confined(own, s, e.s) && Masked(e.s)
    decreases n
  {
    hide Confined; hide Steps.Step; hide LocalHere; hide Masked;
    ConfinedSame(own, s);
    if n > 0 {
      StepConfined(cfg, loop, own, s);
      var e := Step(cfg, loop, s);
      if e.halt == Running {
        LocalRun(cfg, loop, own, e.s, n - 1);
        var r := Run(cfg, loop, e.s, n - 1);
        if r.halt == Running { ConfinedTrans(own, s, e.s, r.s); }
      }
    }
  }

  // ----- Saving and restoring registers -----

  const SP: Index := 2

  /** Storing registers one after another on the stack, and loading them back. */
  function SaveCode(off: Word, regs: seq<Index>): seq<Instr> {
    seq(|regs|, k requires 0 <= k < |regs| => Isa.Store(4, SP, regs[k], (off + 4 * k) % WORD))
  }

  function RestoreCode(off: Word, regs: seq<Index>): seq<Instr> {
    seq(|regs|, k requires 0 <= k < |regs| => Isa.Load(4, false, regs[k], SP, (off + 4 * k) % WORD))
  }

  /** The part of the stack that they use. */
  function Base(x: Regs, off: Word): Word { (x[SP] + off) % WORD }

  predicate InSlots(j: nat, base: nat, n: nat) { base <= j < base + 4 * n }

  function Area(base: nat, n: nat): set<nat> { set j: nat | j < base + 4 * n && InSlots(j, base, n) }

  predicate Room(cfg: Config, mem: Bytes, base: nat, n: nat) {
    Fits(cfg.checked, mem, base, 4 * n) && base + 4 * n <= WORD
  }

  lemma SlotAddr(x: Regs, off: Word, k: nat)
    requires Base(x, off) + 4 * k < WORD
    ensures (x[SP] + (off + 4 * k) % WORD) % WORD == Base(x, off) + 4 * k
  {
  }

  function SavedMem(mem: Bytes, base: nat, x: Regs, regs: seq<Index>, k: nat): (mem': Bytes)
    requires k <= |regs| && base + 4 * k <= |mem|
    ensures |mem'| == |mem|
    decreases k
  {
    if k == 0 then mem else Write(SavedMem(mem, base, x, regs, k - 1), base + 4 * (k - 1), 4, x[regs[k - 1]])
  }

  lemma {:induction false} SavedReads(mem: Bytes, base: nat, x: Regs, regs: seq<Index>, k: nat, j: nat)
    requires j < k <= |regs| && base + 4 * k <= |mem|
    ensures Read(SavedMem(mem, base, x, regs, k), base + 4 * j, 4) == x[regs[j]]
    decreases k
  {
    hide Memory.Read; hide Memory.Write;
    var was, at, v := SavedMem(mem, base, x, regs, k - 1), base + 4 * (k - 1), x[regs[k - 1]];
    if j == k - 1 {
      ReadOverWrite(was, at, 4, v);
      assert Pow256(2) == 0x1_0000 && Pow256(4) == 0x1_0000 * Pow256(2);
    } else {
      SavedReads(mem, base, x, regs, k - 1, j);
      ReadDisjoint(was, at, 4, v, base + 4 * j, 4);
    }
  }

  /** The slots hold these registers. */
  predicate Holds(mem: Bytes, base: nat, x: Regs, regs: seq<Index>) {
    base + 4 * |regs| <= |mem| && forall j | 0 <= j < |regs| :: Read(mem, base + 4 * j, 4) == x[regs[j]]
  }

  function Restored(y: Regs, x: Regs, regs: seq<Index>, k: nat): Regs
    requires k <= |regs|
    decreases k
  {
    if k == 0 then y else Restored(y, x, regs, k - 1)[regs[k - 1] := x[regs[k - 1]]]
  }

  lemma {:induction false} RestoredAt(y: Regs, x: Regs, regs: seq<Index>, k: nat, r: Index)
    requires k <= |regs|
    ensures Restored(y, x, regs, k)[r] == if r in regs[..k] then x[r] else y[r]
    decreases k
  {
    if k > 0 {
      RestoredAt(y, x, regs, k - 1, r);
      assert regs[..k] == regs[..k - 1] + [regs[k - 1]];
    }
  }

  /** The program after k steps is what is left of the code. */
  lemma {:induction false} RunsOn(cfg: Config, loop: Loop, s: State, code: seq<Instr>, k: nat)
    requires k <= |code| && Runs(cfg, loop, s, code) && Run(cfg, loop, s, k).halt == Running
    ensures Runs(cfg, loop, Run(cfg, loop, s, k).s, code[k..])
    decreases k
  {
    hide Steps.Step; hide Runs1;
    if k == 0 {
      assert code[0..] == code;
    } else {
      RunsOn(cfg, loop, Step(cfg, loop, s).s, code[1..], k - 1);
      assert code[1..][k - 1..] == code[k..];
    }
  }

  lemma StepAfter(cfg: Config, loop: Loop, s: State, k: nat)
    requires Run(cfg, loop, s, k).halt == Running
    ensures Run(cfg, loop, s, k + 1) == Step(cfg, loop, Run(cfg, loop, s, k).s)
  {
    hide Steps.Step;
    RunSplit(cfg, loop, s, k, 1);
  }

  lemma StoreStep(cfg: Config, loop: Loop, s: State, rs: Index, imm: Word, addr: nat)
    requires Masked(s) && Runs1(cfg, loop, s, Isa.Store(4, SP, rs, imm))
    requires addr == (s.x[SP] + imm) % WORD && Fits(cfg.checked, s.mem, addr, 4)
    ensures var e := Step(cfg, loop, s);
            e.halt == Running && Sees(e.s, s.x, CompareLatch(s), Write(s.mem, addr, 4, s.x[rs]))
  {
    hide Steps.Step; hide Runs1; hide PyInt.Bit; hide Memory.Write;
    assert s.x[0 := 0] == s.x;
    StepSees(cfg, loop, s, Isa.Store(4, SP, rs, imm), s.x, CompareLatch(s), Write(s.mem, addr, 4, s.x[rs]));
  }

  lemma LocalIs(cfg: Config, loop: Loop, own: set<nat>, s: State, i: Instr)
    requires Runs1(cfg, loop, s, i) && Local(cfg, own, s, i)
    ensures LocalHere(cfg, loop, own, s)
  {
    hide Steps.Fetch; hide Steps.DecodeFetched; hide Local;
  }

  lemma SlotStored(cfg: Config, loop: Loop, t: State, off: Word, regs: seq<Index>, k: nat)
    requires Masked(t) && k < |regs| && Runs1(cfg, loop, t, SaveCode(off, regs)[k])
    requires Room(cfg, t.mem, Base(t.x, off), |regs|)
    ensures var e, base := Step(cfg, loop, t), Base(t.x, off);
            && e.halt == Running && Sees(e.s, t.x, CompareLatch(t), Write(t.mem, base + 4 * k, 4, t.x[regs[k]]))
            && Confined(Area(base, |regs|), t, e.s)
  {
    hide Steps.Step; hide Runs1; hide Confined; hide PyInt.Bit; hide Memory.Write; hide LocalHere; hide LatchOf;
    SlotAddr(t.x, off, k);
    StoreStep(cfg, loop, t, regs[k], (off + 4 * k) % WORD, Base(t.x, off) + 4 * k);
    LocalIs(cfg, loop, Area(Base(t.x, off), |regs|), t, SaveCode(off, regs)[k]);
    StepConfined(cfg, loop, Area(Base(t.x, off), |regs|), t);
  }

  /** After k stores. */
  lemma {:induction false} SaveRun(cfg: Config, loop: Loop, s: State, off: Word, regs: seq<Index>, k: nat)
    requires Masked(s) && Runs(cfg, loop, s, SaveCode(off, regs)) && k <= |regs|
    requires Room(cfg, s.mem, Base(s.x, off), |regs|)
    ensures var e, base := Run(cfg, loop, s, k), Base(s.x, off);
            && e.halt == Running && Sees(e.s, s.x, CompareLatch(s), SavedMem(s.mem, base, s.x, regs, k))
            && Confined(Area(base, |regs|), s, e.s)
    decreases k
  {
    hide Steps.Step; hide Runs1; hide Confined; hide PyInt.Bit; hide Memory.Write; hide Runs; hide LatchOf;
    hide Area; hide Base;
    var base, own := Base(s.x, off), Area(Base(s.x, off), |regs|);
    if k == 0 {
      ConfinedSame(own, s);
    } else {
      SaveRun(cfg, loop, s, off, regs, k - 1);
      var t, code := Run(cfg, loop, s, k - 1).s, SaveCode(off, regs);
      RunsOn(cfg, loop, s, code, k - 1);
      RunsNext(cfg, loop, t, code, k - 1);
      SlotStored(cfg, loop, t, off, regs, k - 1);
      StepAfter(cfg, loop, s, k - 1);
      ConfinedTrans(own, s, t, Step(cfg, loop, t).s);
    }
  }

  lemma SlotLoaded(cfg: Config, loop: Loop, t: State, off: Word, regs: seq<Index>, x: Regs, k: nat)
    requires Masked(t) && k < |regs| && regs[k] != 0 && Runs1(cfg, loop, t, RestoreCode(off, regs)[k])
    requires Room(cfg, t.mem, Base(t.x, off), |regs|) && Holds(t.mem, Base(t.x, off), x, regs)
    ensures var e := Step(cfg, loop, t);
            && e.halt == Running && Sees(e.s, t.x[regs[k] := x[regs[k]]], CompareLatch(t), t.mem)
            && Confined({}, t, e.s)
  {
    hide Steps.Step; hide Runs1; hide Confined; hide PyInt.Bit; hide Memory.Read; hide LocalHere; hide LatchOf;
    SlotAddr(t.x, off, k);
    LoadStep(cfg, loop, t, regs[k], SP, (off + 4 * k) % WORD, x[regs[k]]);
    LocalIs(cfg, loop, {}, t, RestoreCode(off, regs)[k]);
    StepConfined(cfg, loop, {}, t);
  }

  /** After k loads. */
  lemma {:induction false} RestoreRun(cfg: Config, loop: Loop, s: State, off: Word, regs: seq<Index>, x: Regs, k: nat,
      tail: seq<Instr>)
    requires Masked(s) && Runs(cfg, loop, s, RestoreCode(off, regs) + tail) && k <= |regs|
    requires SP !in regs && 0 !in regs && Room(cfg, s.mem, Base(s.x, off), |regs|)
    requires Holds(s.mem, Base(s.x, off), x, regs)
    ensures var e := Run(cfg, loop, s, k);
            && e.halt == Running && Sees(e.s, Restored(s.x, x, regs, k), CompareLatch(s), s.mem)
            && Confined({}, s, e.s)
    decreases k
  {
    hide Steps.Step; hide Runs1; hide Confined; hide PyInt.Bit; hide Memory.Read; hide Runs; hide LatchOf;
    hide Holds; hide Room;
    if k == 0 {
      ConfinedSame({}, s);
    } else {
      RestoreRun(cfg, loop, s, off, regs, x, k - 1, tail);
      var t, code, r := Run(cfg, loop, s, k - 1).s, RestoreCode(off, regs) + tail, regs[k - 1];
      RunsOn(cfg, loop, s, code, k - 1);
      RunsNext(cfg, loop, t, code, k - 1);
      RestoredAt(s.x, x, regs, k - 1, SP);
      SlotLoaded(cfg, loop, t, off, regs, x, k - 1);
      StepAfter(cfg, loop, s, k - 1);
      ConfinedTrans({}, s, t, Step(cfg, loop, t).s);
    }
  }

  lemma ConfinedMore(own: set<nat>, more: set<nat>, s: State, t: State)
    requires Confined(own, s, t) && own <= more
    ensures Confined(more, s, t)
  {
  }

  /** A handler that saves registers on the stack, runs any code that keeps to itself and to these
      registers, restores them and executes MRET gives back what it has found. */
  lemma SavingHandler(cfg: Config, loop: Loop, own: set<nat>, s: State, off: Word, regs: seq<Index>, m: nat)
    requires Masked(s) && SP !in regs && 0 !in regs
    requires Room(cfg, s.mem, Base(s.x, off), |regs|) && own !! Area(Base(s.x, off), |regs|)
    requires Runs(cfg, loop, s, SaveCode(off, regs))
    requires var t := Run(cfg, loop, s, |regs|).s;
             var u := Run(cfg, loop, t, m);
             && LocalThroughout(cfg, loop, own, t, m) && u.halt == Running
             && (forall r: Index | r !in regs :: u.s.x[r] == s.x[r])
             && Runs(cfg, loop, u.s, RestoreCode(off, regs) + [Mret])
    ensures var e := Run(cfg, loop, s, |regs| + m + |regs|);
            e.halt == Running && GivesBack(cfg, loop, own + Area(Base(s.x, off), |regs|), s, e.s)
  {
    hide Steps.Step; hide Steps.Run; hide Runs; hide Confined; hide LocalThroughout; hide Memory.Read; hide LatchOf;
    hide PyInt.Bit; hide SaveCode; hide RestoreCode; hide SavedMem; hide Restored; hide GivesBack; hide Room;
    hide Base; hide Area; hide Masked; hide Holds; hide Runs1;
    var n, area := |regs|, Area(Base(s.x, off), |regs|);
    SaveRun(cfg, loop, s, off, regs, n);
    var t := Run(cfg, loop, s, n).s;
    LocalRun(cfg, loop, own, t, m);
    var u := Run(cfg, loop, t, m).s;
    SlotsKept(cfg, own, s, off, regs, t, u);
    AfterRestore(cfg, loop, u, off, regs, s.x);
    var v := Run(cfg, loop, u, n).s;
    RunsOver(cfg, loop, s, n, m, n);
    ConfinedChain(own, area, s, t, u, v);
    Owes(cfg, loop, own + area, s, v);
  }

  lemma AfterRestore(cfg: Config, loop: Loop, u: State, off: Word, regs: seq<Index>, x: Regs)
    requires Masked(u) && SP !in regs && 0 !in regs && Runs(cfg, loop, u, RestoreCode(off, regs) + [Mret])
    requires Room(cfg, u.mem, Base(u.x, off), |regs|) && Holds(u.mem, Base(u.x, off), x, regs)
    requires forall r: Index | r !in regs :: u.x[r] == x[r]
    ensures var e := Run(cfg, loop, u, |regs|);
            e.halt == Running && Confined({}, u, e.s) && e.s.x == x && Runs1(cfg, loop, e.s, Mret)
  {
    hide Steps.Run; hide Runs; hide Runs1; hide Confined; hide Room; hide Holds; hide Base; hide Restored; hide Masked;
    RestoreRun(cfg, loop, u, off, regs, x, |regs|, [Mret]);
    AllRestored(u.x, x, regs);
    MretNext(cfg, loop, u, off, regs);
  }

  lemma RunsOver(cfg: Config, loop: Loop, s: State, n: nat, m: nat, k: nat)
    requires Run(cfg, loop, s, n).halt == Running && Run(cfg, loop, Run(cfg, loop, s, n).s, m).halt == Running
    ensures Run(cfg, loop, s, n + m + k) == Run(cfg, loop, Run(cfg, loop, Run(cfg, loop, s, n).s, m).s, k)
  {
    hide Steps.Run;
    RunSplit(cfg, loop, s, n, m);
    RunSplit(cfg, loop, s, n + m, k);
  }

  lemma ConfinedChain(own: set<nat>, area: set<nat>, s: State, t: State, u: State, v: State)
    requires Confined(area, s, t) && Confined(own, t, u) && Confined({}, u, v)
    ensures Confined(own + area, s, v)
  {
    hide Confined;
    ConfinedMore(area, own + area, s, t);
    ConfinedMore(own, own + area, t, u);
    ConfinedMore({}, own + area, u, v);
    ConfinedTrans(own + area, s, t, u);
    ConfinedTrans(own + area, s, u, v);
  }

  lemma AllRestored(y: Regs, x: Regs, regs: seq<Index>)
    requires forall r: Index | r !in regs :: y[r] == x[r]
    ensures Restored(y, x, regs, |regs|) == x
  {
    hide Restored;
    forall r: Index ensures Restored(y, x, regs, |regs|)[r] == x[r] {
      RestoredAt(y, x, regs, |regs|, r);
      assert regs[..|regs|] == regs;
    }
  }

  lemma Owes(cfg: Config, loop: Loop, own: set<nat>, s: State, v: State)
    requires Confined(own, s, v) && v.x == s.x && Runs1(cfg, loop, v, Mret)
    ensures GivesBack(cfg, loop, own, s, v)
  {
    hide Confined; hide Steps.Fetch; hide Steps.DecodeFetched;
  }

  lemma MretNext(cfg: Config, loop: Loop, u: State, off: Word, regs: seq<Index>)
    requires Runs(cfg, loop, u, RestoreCode(off, regs) + [Mret]) && Run(cfg, loop, u, |regs|).halt == Running
    ensures Runs1(cfg, loop, Run(cfg, loop, u, |regs|).s, Mret)
  {
    hide Runs; hide Runs1; hide Steps.Run; hide Steps.Step;
    var code := RestoreCode(off, regs) + [Mret];
    RunsOn(cfg, loop, u, code, |regs|);
    RunsNext(cfg, loop, Run(cfg, loop, u, |regs|).s, code, |regs|);
  }

  /** The code in between leaves the saved registers alone. */
  lemma SlotsKept(cfg: Config, own: set<nat>, s: State, off: Word, regs: seq<Index>, t: State, u: State)
    requires Room(cfg, s.mem, Base(s.x, off), |regs|) && own !! Area(Base(s.x, off), |regs|)
    requires t.mem == SavedMem(s.mem, Base(s.x, off), s.x, regs, |regs|) && Confined(own, t, u) && u.x[SP] == s.x[SP]
    ensures Base(u.x, off) == Base(s.x, off) && Room(cfg, u.mem, Base(u.x, off), |regs|)
    ensures Holds(u.mem, Base(u.x, off), s.x, regs)
  {
    hide Memory.Read; hide SavedMem; hide Bookkeeping;
    var base := Base(s.x, off);
    forall j | 0 <= j < |regs| ensures Read(u.mem, base + 4 * j, 4) == s.x[regs[j]] {
      SavedReads(s.mem, base, s.x, regs, |regs|, j);
      forall i | base + 4 * j <= i < base + 4 * j + 4 ensures u.mem[i] == t.mem[i] {
        assert i in Area(base, |regs|);
      }
      ReadSame(t.mem, u.mem, base + 4 * j, 4);
    }
  }

  // ----- The timer handler -----

  /** The timer handler: it saves registers, t0 to t3 among them, advances mtimecmp, restores them and returns. */
  function TimerHandler(off: Word, regs: seq<Index>, upper: Word, lower: Word): seq<Instr> {
    SaveCode(off, regs) + (UpdateCompareRegister(upper, lower) + (RestoreCode(off, regs) + [Mret]))
  }

  lemma {:induction false} RunsPrefix(cfg: Config, loop: Loop, s: State, a: seq<Instr>, b: seq<Instr>)
    requires Runs(cfg, loop, s, a + b)
    ensures Runs(cfg, loop, s, a)
    decreases |a|
  {
    hide Steps.Step; hide Runs1;
    if a != [] {
      assert (a + b)[1..] == a[1..] + b;
      var e := Step(cfg, loop, s);
      if e.halt == Running { RunsPrefix(cfg, loop, e.s, a[1..], b); }
    }
  }

  lemma RunsSuffix(cfg: Config, loop: Loop, s: State, a: seq<Instr>, b: seq<Instr>)
    requires Runs(cfg, loop, s, a + b) && Run(cfg, loop, s, |a|).halt == Running
    ensures Runs(cfg, loop, Run(cfg, loop, s, |a|).s, b)
  {
    hide Runs; hide Steps.Run;
    RunsOn(cfg, loop, s, a + b, |a|);
    assert (a + b)[|a|..] == b;
  }

  /** Instructions that are local wherever they are executed. */
  predicate AlwaysLocal(i: Instr) {
    i.Reg? || i.Imm? || i.Load? || i.Auipc? || (i.Csr? && i.csr in {CMP_LO, CMP_HI})
  }

  lemma {:induction false} CodeIsLocal(cfg: Config, loop: Loop, own: set<nat>, s: State, code: seq<Instr>)
    requires Runs(cfg, loop, s, code) && forall i | i in code :: AlwaysLocal(i)
    ensures LocalThroughout(cfg, loop, own, s, |code|)
    decreases |code|
  {
    hide Steps.Step; hide Runs1; hide LocalHere; hide Isa.WriteCsr;
    if code != [] {
      assert code[0] in code;
      LocalIs(cfg, loop, own, s, code[0]);
      var e := Step(cfg, loop, s);
      if e.halt == Running { CodeIsLocal(cfg, loop, own, e.s, code[1..]); }
    }
  }

  predicate LeavesTime(i: Instr) { i.Csr? ==> i.csr != TIME_LO && i.csr != TIME_HI }

  lemma ClockStep(cfg: Config, loop: Loop, s: State, i: Instr)
    requires s.x[0] == 0 && loop.Ticks() && Runs1(cfg, loop, s, i) && LeavesTime(i)
    requires Step(cfg, loop, s).halt == Running
    ensures Step(cfg, loop, s).s.timer.mtime == s.timer.mtime + 1
  {
    hide Steps.Step; hide Steps.Fetch; hide Steps.DecodeFetched; hide Isa.NewCsr;
    One(LatchOf(MTIME, s), Ticked);
    StepFollows(cfg, loop, MTIME, s);
    assert HalfWrites(MTIME, s, i) == [];
    assert StepEvents(cfg, loop, MTIME, s) == [Ticked];
  }

  lemma {:induction false} ClockRuns(cfg: Config, loop: Loop, s: State, code: seq<Instr>, n: nat)
    requires s.x[0] == 0 && loop.Ticks() && n <= |code| && Runs(cfg, loop, s, code)
    requires Run(cfg, loop, s, n).halt == Running
    requires forall i | i in code :: LeavesTime(i)
    ensures Run(cfg, loop, s, n).s.timer.mtime == s.timer.mtime + n
    decreases n
  {
    hide Steps.Step; hide Runs1; hide LeavesTime;
    if n > 0 {
      assert code[0] in code;
      ZeroStays(cfg, loop, s);
      ClockStep(cfg, loop, s, code[0]);
      ClockRuns(cfg, loop, Step(cfg, loop, s).s, code[1..], n - 1);
    }
  }

  /** The macro, with what else it does. */
  lemma MacroRun(cfg: Config, loop: Loop, s: State, upper: Word, lower: Word, inc: Word)
    requires Masked(s) && !s.timer.cmpHi && s.timer.mtimecmp < WORD * WORD
    requires Runs(cfg, loop, s, UpdateCompareRegister(upper, lower))
    requires Memory.Load(cfg.checked, s.mem, ((s.pc + upper) % WORD + lower) % WORD, 4) == Some(inc)
    ensures var e := Run(cfg, loop, s, 9);
            && e.halt == Running && Settled(e.s, (s.timer.mtimecmp + inc) % (WORD * WORD))
            && forall r: Index | r !in {T0, T1, T2, T3} :: e.s.x[r] == s.x[r]
  {
    hide Sets; hide Runs; hide Memory.Load; hide Steps.Run; hide Steps.Step; hide PyInt.Bit; hide Runs1; hide Csrw;
    hide Settled;
    AdvancesCompare(cfg, loop, s, upper, lower, inc);
    SetsSettles(cfg, loop, s, 9, (s.timer.mtimecmp + inc) % (WORD * WORD));
    var t := ComputesSum(cfg, loop, s, upper, lower, inc);
    TwoWrites(cfg, loop, t);
    RunSplit(cfg, loop, s, 7, 2);
  }

  lemma SetsSettles(cfg: Config, loop: Loop, s: State, n: nat, c: nat)
    requires n > 0 && Sets(cfg, loop, s, n, c)
    ensures Run(cfg, loop, s, n).halt == Running && Settled(Run(cfg, loop, s, n).s, c)
  {
    hide Steps.Run; hide Stays; hide Settled;
  }

  lemma TwoWrites(cfg: Config, loop: Loop, t: State)
    requires Masked(t) && Runs(cfg, loop, t, [Csrw(CMP_LO, T1), Csrw(CMP_HI, T2)])
    ensures var e := Run(cfg, loop, t, 2); e.halt == Running && e.s.x == t.x
  {
    hide Steps.Step; hide Runs1; hide PyInt.Bit; hide Csrw; hide LatchOf; hide Clock.WriteHalf;
    var code := [Csrw(CMP_LO, T1), Csrw(CMP_HI, T2)];
    assert code[1..] == [Csrw(CMP_HI, T2)];
    WriteStep(cfg, loop, t, CMP_LO, T1);
    var a := Step(cfg, loop, t).s;
    WriteStep(cfg, loop, a, CMP_HI, T2);
    RunOne(cfg, loop, t, 1);
    RunOne(cfg, loop, a, 0);
  }

  /** The timer handler gives back what it has found, with mtimecmp advanced by the increment. */
  lemma TimerHandlerGivesBack(cfg: Config, loop: Loop, s: State, off: Word, regs: seq<Index>, upper: Word, lower: Word,
      inc: Word)
    requires Masked(s) && loop.Ticks() && !s.timer.cmpHi && s.timer.mtimecmp < WORD * WORD
    requires SP !in regs && 0 !in regs && T0 in regs && T1 in regs && T2 in regs && T3 in regs
    requires Room(cfg, s.mem, Base(s.x, off), |regs|) && Runs(cfg, loop, s, TimerHandler(off, regs, upper, lower))
    requires var t := Run(cfg, loop, s, |regs|).s;
             Memory.Load(cfg.checked, t.mem, ((t.pc + upper) % WORD + lower) % WORD, 4) == Some(inc)
    ensures var e := Run(cfg, loop, s, |regs| + 9 + |regs|);
            && e.halt == Running && GivesBack(cfg, loop, Area(Base(s.x, off), |regs|), s, e.s)
            && e.s.timer.mtimecmp == (s.timer.mtimecmp + inc) % (WORD * WORD)
            && e.s.timer.mtime == s.timer.mtime + |regs| + 9 + |regs|
  {
    hide Steps.Run; hide Steps.Step; hide Runs; hide Memory.Load; hide PyInt.Bit; hide Room; hide GivesBack;
    hide Confined; hide LocalThroughout; hide Area; hide Base; hide SavedMem; hide UpdateCompareRegister;
    hide SaveCode; hide RestoreCode; hide Holds; hide Restored; hide Runs1;
    var n, macro, rest := |regs|, UpdateCompareRegister(upper, lower), RestoreCode(off, regs) + [Mret];
    var save := SaveCode(off, regs);
    CodeSizes(off, regs, upper, lower);
    RunsPrefix(cfg, loop, s, save, macro + rest);
    SaveRun(cfg, loop, s, off, regs, n);
    RunsSuffix(cfg, loop, s, save, macro + rest);
    var t := Run(cfg, loop, s, n).s;
    RunsPrefix(cfg, loop, t, macro, rest);
    MacroRun(cfg, loop, t, upper, lower, inc);
    CodeIsLocal(cfg, loop, {}, t, macro);
    var u := Run(cfg, loop, t, 9).s;
    RunsSuffix(cfg, loop, t, macro, rest);
    SavingHandler(cfg, loop, {}, s, off, regs, 9);
    assert {} + Area(Base(s.x, off), n) == Area(Base(s.x, off), n);
    RestoreKeepsCompare(cfg, loop, s, off, regs, t, u);
    RunsOver(cfg, loop, s, n, 9, n);
    ClockRuns(cfg, loop, s, TimerHandler(off, regs, upper, lower), n + 9 + n);
  }

  lemma CodeSizes(off: Word, regs: seq<Index>, upper: Word, lower: Word)
    ensures |SaveCode(off, regs)| == |RestoreCode(off, regs)| == |regs| && |UpdateCompareRegister(upper, lower)| == 9
    ensures forall i | i in UpdateCompareRegister(upper, lower) :: AlwaysLocal(i)
    ensures forall i | i in TimerHandler(off, regs, upper, lower) :: LeavesTime(i)
  {
  }

  lemma RestoreKeepsCompare(cfg: Config, loop: Loop, s: State, off: Word, regs: seq<Index>, t: State, u: State)
    requires Room(cfg, s.mem, Base(s.x, off), |regs|) && SP !in regs && 0 !in regs
    requires Masked(t) && t.mem == SavedMem(s.mem, Base(s.x, off), s.x, regs, |regs|)
    requires LocalThroughout(cfg, loop, {}, t, 9) && Run(cfg, loop, t, 9) == Go(u) && u.x[SP] == s.x[SP]
    requires Runs(cfg, loop, u, RestoreCode(off, regs) + [Mret])
    ensures Run(cfg, loop, u, |regs|).s.timer.mtimecmp == u.timer.mtimecmp
  {
    hide Steps.Run; hide Runs; hide Room; hide Confined; hide LocalThroughout; hide Base; hide SavedMem; hide Area;
    hide Holds; hide Restored; hide RestoreCode; hide PyInt.Bit;
    LocalRun(cfg, loop, {}, t, 9);
    SlotsKept(cfg, {}, s, off, regs, t, u);
    RestoreRun(cfg, loop, u, off, regs, s.x, |regs|, [Mret]);
  }

  /** The whole interrupt, with this handler: if the new mtimecmp is still ahead when the handler is done, the
      program goes on where it was interrupted, with nothing changed that is its own but for the stack below;
      else the handler is entered again, to give back the same. */
  lemma TimerInterruptServed(cfg: Config, loop: Loop, s: State, off: Word, regs: seq<Index>, upper: Word, lower: Word,
      inc: Word)
    requires s.x[0] == 0 && loop.Ticks() && Checked(loop, s)
    requires var e := Execute(cfg, s, Fetch(cfg, loop, s));
             e.halt == Running && e.s.csr[MTVEC] != 0 && Due(e.s) && InterruptsOn(e.s) && !Misaligned(cfg, e.s.nextPc)
    requires SP !in regs && 0 !in regs && T0 in regs && T1 in regs && T2 in regs && T3 in regs
    requires var found := Step(cfg, loop, s).s;
             var t := Run(cfg, loop, found, |regs|).s;
             && !found.timer.cmpHi && found.timer.mtimecmp < WORD * WORD
             && Room(cfg, found.mem, Base(found.x, off), |regs|)
             && Runs(cfg, loop, found, TimerHandler(off, regs, upper, lower))
             && Memory.Load(cfg.checked, t.mem, ((t.pc + upper) % WORD + lower) % WORD, 4) == Some(inc)
    ensures var e, found := Execute(cfg, s, Fetch(cfg, loop, s)).s, Step(cfg, loop, s).s;
            var left := Run(cfg, loop, found, |regs| + 9 + |regs|).s;
            var back, own := Step(cfg, loop, left), Area(Base(found.x, off), |regs|);
            if found.timer.mtime + |regs| + 9 + |regs| < (found.timer.mtimecmp + inc) % (WORD * WORD)
            then GoesOn(own, e, back) else ComesAgain(own, found, back)
  {
    hide Steps.Run; hide Runs; hide Memory.Load; hide Room; hide GivesBack; hide GoesOn; hide ComesAgain; hide Area;
    hide Base; hide TimerHandler; hide PyInt.Bit; hide Steps.Execute; hide Steps.Fetch; hide Isa.Tick;
    hide Isa.EnterTrap;
    var e := Execute(cfg, s, Fetch(cfg, loop, s)).s;
    ExecuteKeepsZero(cfg, s, Fetch(cfg, loop, s));
    TickInterrupts(e);
    EnterBits(e.csr[MSTATUS]);
    var found := Step(cfg, loop, s).s;
    TimerHandlerGivesBack(cfg, loop, found, off, regs, upper, lower, inc);
    hide Steps.Step;
    InterruptIsTransparent(cfg, loop, Area(Base(found.x, off), |regs|), s, |regs| + 9 + |regs|);
  }
}
