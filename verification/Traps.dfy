/** Traps, MRET and the timer interrupt: what they save, what they leave alone, when they come. */
module Traps {
  import opened PyInt
  import opened Memory
  import opened Isa
  import opened Rvc
  import opened Steps

  // ----- Synchronous traps -----

  /** When an instruction traps, and with what cause and mtval: one line per rule of the manual, in the
      order in which the emulator tests them. */
  function Exception(cfg: Config, s: State, i: Instr, raw: Word): Option<(Word, Word)> {
    match i
    case Illegal => Some((2, raw))
    case Ecall => if s.csr[MTVEC] != 0 then Some((11, 0)) else None
    case Ebreak => if s.x[17] < 0xFFFF_0000 && s.csr[MTVEC] != 0 then Some((3, 0)) else None
    case Mret => MisalignedTarget(cfg, s.csr[MEPC])
    case Jal(_, imm) => MisalignedTarget(cfg, (s.pc + imm) % WORD)
    case Jalr(_, rs1, imm) => MisalignedTarget(cfg, Even((s.x[rs1] + imm) % WORD))
    case Branch(c, rs1, rs2, imm) =>
      if Taken(c, s.x[rs1], s.x[rs2]) then MisalignedTarget(cfg, (s.pc + imm) % WORD) else None
    case Amo(op, _, rs1, _) =>
      if s.x[rs1] % 4 != 0 then Some((6, s.x[rs1])) else if op == UNKNOWN then Some((2, raw)) else None
    case Csr(op, _, rs1, immediate, n) =>
      if ReadOnly(n) && (op == RW || CsrSource(s, rs1, immediate) != 0) then Some((2, raw)) else None
    case _ => None
  }

  function MisalignedTarget(cfg: Config, target: Word): Option<(Word, Word)> {
    if Misaligned(cfg, target) then Some((0, target)) else None
  }

  /** A trap has been entered and nothing else has happened. */
  predicate Entered(s: State, t: State, cause: Word, mtval: Word, epc: Word) {
    && t.x == s.x && t.mem == s.mem && t.world == s.world && t.timer == s.timer
    && t.reserved == s.reserved && t.reservedAddr == s.reservedAddr && t.pc == s.pc
    && t.csr[MCAUSE] == cause && t.csr[MTVAL] == mtval && t.csr[MEPC] == epc
    && t.csr[MSTATUS] == EnterTrap(s.csr[MSTATUS])
    && t.nextPc == s.csr[MTVEC] - s.csr[MTVEC] % 4
    && (forall c: CsrIndex | c !in {MEPC, MCAUSE, MTVAL, MSTATUS} :: t.csr[c] == s.csr[c])
  }

  predicate ReadOnlyWrite(i: Instr) { i.Csr? && ReadOnly(i.csr) }

  /** Traps are precise: with a handler installed, an instruction that must trap does nothing but enter
      the trap, with the instruction's own address in mepc. Writes to read-only CSRs are set apart. */
  lemma PreciseTrap(cfg: Config, s: State, i: Instr, raw: Word, size: nat)
    requires s.csr[MTVEC] != 0 && !ReadOnlyWrite(i) && Exception(cfg, s, i, raw).Some?
    ensures var (cause, mtval) := Exception(cfg, s, i, raw).value;
            var e := Exec(cfg, s, i, raw, size);
            e.halt == Running && Entered(s, e.s, cause, mtval, s.pc)
  {
    hide Isa.EnterTrap; hide Isa.Alu; hide Isa.ExecLoad; hide Isa.StoreTo; hide Isa.Taken; hide Isa.WriteCsr;
    hide Isa.LeaveTrap; hide Memory.Load; hide Isa.Even;
  }

  /** The same of whatever is fetched, 16-bit words that do not expand included. */
  lemma PreciseStep(cfg: Config, s: State, f: Fetched)
    requires s.csr[MTVEC] != 0 && s.x[0] == 0 && f != NoInst
    requires var d := DecodeFetched(f); !ReadOnlyWrite(d.i) && Exception(cfg, s, d.i, d.raw).Some?
    ensures var d := DecodeFetched(f);
            var (cause, mtval) := Exception(cfg, s, d.i, d.raw).value;
            var e := Execute(cfg, s, f);
            e.halt == Running && Entered(s, e.s, cause, mtval, s.pc)
  {
    hide Steps.Execute; hide Isa.Exec; hide Isa.EnterTrap; hide Exception; hide Rvc.Expand; hide Isa.Val;
    hide Isa.Decode; hide Isa.Split;
    var d := DecodeFetched(f);
    var s' := s.(nextPc := (s.pc + d.size) % WORD);
    ExecuteDecoded(cfg, s, f);
    SameException(cfg, s, s', d.i, d.raw);
    PreciseTrap(cfg, s', d.i, d.raw, d.size);
    assert s.x[0 := 0] == s.x;
  }

  /** The CSR that an instruction may change without trapping. */
  function OwnCsr(i: Instr): Option<CsrIndex> {
    match i
    case Csr(_, _, _, _, n) => Some(n)
    case Mret => Some(MSTATUS)
    case _ => None
  }

  /** Conversely, an instruction that need not trap changes no CSR but its own, so that it leaves mepc,
      mcause, mtval and mstatus as they are unless it is about them. Set apart is an ECALL that the host
      serves, which is `BypassIsTrapAndReturn`. */
  lemma NoSpuriousTrap(cfg: Config, s: State, i: Instr, raw: Word, size: nat, c: CsrIndex)
    requires Exception(cfg, s, i, raw).None? && !i.Ecall? && OwnCsr(i) != Some(c)
    ensures var e := Exec(cfg, s, i, raw, size); e.halt == Running ==> e.s.csr[c] == s.csr[c]
  {
    hide Isa.EnterTrap; hide Isa.Alu; hide Isa.Taken; hide Isa.Combine; hide Isa.Loaded; hide Isa.On; hide Isa.NewCsr;
    hide Isa.LeaveTrap; hide Memory.Load; hide Memory.Store; hide Isa.Even; hide Isa.Trap;
  }

  /** What a trap on a read-only CSR does besides: the CSR and the destination register are written all the
      same. */
  function ReadOnlyResult(s: State, op: CsrOp, rd: Index, src: Word, n: CsrIndex, raw: Word): State {
    var t := Trap(s, 2, raw, true).s;
    var v := NewCsr(op, n, s.csr[n], src);
    t.(csr := t.csr[n := v], x := if rd == 0 then s.x else s.x[rd := s.csr[n]])
  }

  /** The exception to precision, for every CSR instruction: the trap is precise if and only if the write
      that follows it changes nothing. */
  lemma ReadOnlyWriteLands(cfg: Config, s: State, i: Instr, raw: Word, size: nat)
    requires s.csr[MTVEC] != 0 && ReadOnlyWrite(i) && Exception(cfg, s, i, raw).Some?
    ensures var src := CsrSource(s, i.rs1, i.immediate);
            var v := NewCsr(i.csrOp, i.csr, s.csr[i.csr], src);
            var e := Exec(cfg, s, i, raw, size);
            && e == Go(ReadOnlyResult(s, i.csrOp, i.rd, src, i.csr, raw))
            && (Entered(s, e.s, 2, raw, s.pc) <==> v == s.csr[i.csr] && (i.rd == 0 || s.x[i.rd] == s.csr[i.csr]))
  {
    hide Isa.EnterTrap; hide Isa.NewCsr; hide Isa.On;
    assert i.rd != 0 && s.x[i.rd] == s.csr[i.csr] ==> s.x[i.rd := s.csr[i.csr]] == s.x;
  }

  /** With no handler installed, every exception ends the run and changes nothing. */
  lemma NoHandler(cfg: Config, s: State, i: Instr, raw: Word, size: nat)
    requires s.csr[MTVEC] == 0 && Exception(cfg, s, i, raw).Some?
    ensures Exec(cfg, s, i, raw, size) == Effect(s, Terminated)
  {
    hide Isa.Alu; hide Isa.ExecLoad; hide Isa.StoreTo; hide Isa.Taken; hide Isa.WriteCsr;
    hide Isa.LeaveTrap; hide Memory.Load; hide Isa.Even;
  }

  // ----- The interrupt-enable stack -----

  /** On trap entry MIE is off and MPIE holds the old MIE. */
  lemma EnterBits(m: Word)
    ensures Bit(EnterTrap(m), BIT_MIE) == 0 && Bit(EnterTrap(m), BIT_MPIE) == Bit(m, BIT_MIE)
  {
    hide PyInt.SetBit; hide PyInt.ClearBit; hide PyInt.Bit;
    var a := Off(m, BIT_MIE);
    var b := Off(a, BIT_MPIE);
    var c := On(b, BIT_MPIE);
    BitUpdate(m, BIT_MIE);
    BitUpdate(a, BIT_MPIE);
    BitUpdate(b, BIT_MPIE);
    MieBelow(a);
    MieBelow(b);
    BitIsBit(m, BIT_MIE);
  }

  lemma BitIsBit(m: int, w: int)
    requires w > 0
    ensures Bit(m, w) == 0 || Bit(m, w) == 1
  {
  }

  /** MPIE and MIE do not disturb each other. */
  lemma MieBelow(m: Word)
    ensures Bit(On(m, BIT_MPIE), BIT_MIE) == Bit(m, BIT_MIE) == Bit(Off(m, BIT_MPIE), BIT_MIE)
  {
    hide PyInt.Bit;
    LowerBit(m, BIT_MIE, 8);
    LowerBit(m, BIT_MIE, -8);
  }

  lemma MpieAbove(m: Word)
    ensures Bit(On(m, BIT_MIE), BIT_MPIE) == Bit(m, BIT_MPIE) == Bit(Off(m, BIT_MIE), BIT_MPIE)
  {
    hide PyInt.SetBit; hide PyInt.ClearBit; hide PyInt.Bit;
    BitUpdate(m, BIT_MIE);
    HigherBit(m, On(m, BIT_MIE), BIT_MIE, 8);
    HigherBit(m, Off(m, BIT_MIE), BIT_MIE, 8);
  }

  /** Entering a trap and returning from it restores mstatus, but for MPIE, which ends up set. */
  lemma EnterThenLeave(m: Word)
    ensures LeaveTrap(EnterTrap(m)) == On(m, BIT_MPIE)
  {
    hide PyInt.Bit;
    var a := Off(m, BIT_MIE);
    var b := Off(a, BIT_MPIE);
    var t := EnterTrap(m);
    BitIsBit(m, BIT_MIE);
    BitIsBit(m, BIT_MPIE);
    BitUpdate(m, BIT_MIE);
    BitUpdate(a, BIT_MPIE);
    BitUpdate(b, BIT_MPIE);
    MpieAbove(m);
    MieBelow(a);
    MieBelow(b);
    MpieAbove(t);
  }

  /** Where the emulator handles a trap itself, there being no handler, `bypassed_trap_return` leaves the CSRs
      as the trap would, had a handler been installed at any address, followed by its MRET; so it does not
      change whether interrupts are enabled. */
  lemma BypassIsTrapAndReturn(cfg: Config, s: State, cause: Word, handler: Word, raw: Word, size: nat)
    requires s.csr[MTVEC] == 0 && handler != 0 && !Misaligned(cfg, s.pc)
    ensures var t := Trap(s.(csr := s.csr[MTVEC := handler]), cause, 0, true).s;
            var e := Exec(cfg, t, Mret, raw, size);
            e.halt == Running && BypassedTrapReturn(s, cause).csr == e.s.csr[MTVEC := 0]
    ensures Bit(BypassedTrapReturn(s, cause).csr[MSTATUS], BIT_MIE) == Bit(s.csr[MSTATUS], BIT_MIE)
  {
    hide Isa.EnterTrap; hide Isa.LeaveTrap; hide Isa.On; hide PyInt.Bit;
    EnterThenLeave(s.csr[MSTATUS]);
    MieBelow(s.csr[MSTATUS]);
  }

  // ----- The timer interrupt -----

  predicate InterruptsOn(s: State) {
    Bit(s.csr[MSTATUS], BIT_MIE) == 1 && Bit(s.csr[MIE], BIT_MTI) == 1
  }

  predicate Due(s: State) { s.timer.mtime >= s.timer.mtimecmp }

  /** The interrupt is taken exactly when the time has come and interrupts are enabled. Taking it changes
      no register, no memory and no reservation; mepc gets the address of the next instruction. */
  lemma TickInterrupts(s: State)
    requires s.csr[MTVEC] != 0
    ensures var e := Tick(s);
            && e.halt == Running
            && e.s.x == s.x && e.s.mem == s.mem && e.s.pc == s.pc && e.s.world == s.world
            && e.s.reserved == s.reserved && e.s.reservedAddr == s.reservedAddr
            && e.s.timer.mtime == s.timer.mtime + 1 && e.s.timer.mtimecmp == s.timer.mtimecmp
            && if Due(s) && InterruptsOn(s)
               then && e.s.csr[MCAUSE] == TIMER_INTERRUPT && e.s.csr[MEPC] == s.nextPc
                    && e.s.csr[MSTATUS] == EnterTrap(s.csr[MSTATUS]) && e.s.nextPc == s.csr[MTVEC] - s.csr[MTVEC] % 4
                    && forall c: CsrIndex | c !in {MSTATUS, MEPC, MCAUSE, MTVAL, MIP} :: e.s.csr[c] == s.csr[c]
               else && e.s.nextPc == s.nextPc
                    && forall c: CsrIndex | c != MIP :: e.s.csr[c] == s.csr[c]
  {
    hide Isa.EnterTrap; hide Isa.On; hide Isa.Off; hide PyInt.Bit;
  }

  /** A step takes at most one trap: a synchronous trap leaves the timer masked. */
  lemma OneTrapPerStep(cfg: Config, s: State, i: Instr, raw: Word, size: nat)
    requires s.csr[MTVEC] != 0 && Exception(cfg, s, i, raw).Some?
    ensures var e := Perform(cfg, s, i, raw, size);
            e.halt == Running && !InterruptsOn(e.s) && Tick(e.s).s.csr[MCAUSE] == e.s.csr[MCAUSE]
  {
    hide Isa.Exec; hide Isa.EnterTrap; hide PyInt.Bit; hide Isa.On; hide Isa.Off; hide Isa.Trap;
    var s' := s.(nextPc := (s.pc + size) % WORD);
    SameException(cfg, s, s', i, raw);
    if ReadOnlyWrite(i) { ReadOnlyMasks(cfg, s', i, raw, size); } else { PreciseTrap(cfg, s', i, raw, size); }
    EnterBits(s.csr[MSTATUS]);
  }

  lemma ReadOnlyMasks(cfg: Config, s: State, i: Instr, raw: Word, size: nat)
    requires s.csr[MTVEC] != 0 && ReadOnlyWrite(i) && Exception(cfg, s, i, raw).Some?
    ensures var e := Exec(cfg, s, i, raw, size); e.halt == Running && e.s.csr[MSTATUS] == EnterTrap(s.csr[MSTATUS])
  {
    hide Isa.EnterTrap; hide Isa.WriteTime; hide Isa.WriteCompare; hide Isa.NewCsr; hide Isa.ReadBack; hide Isa.On;
  }

  /** Whether an instruction traps does not depend on where the next one is. */
  lemma SameException(cfg: Config, s: State, s': State, i: Instr, raw: Word)
    requires s' == s.(nextPc := s'.nextPc)
    ensures Exception(cfg, s', i, raw) == Exception(cfg, s, i, raw)
  {
    hide Isa.Taken; hide Isa.Even;
  }

  /** Interrupt transparency: however the handler has used the machine meanwhile, if it leaves mepc and
      mstatus as it found them, MRET resumes at the very instruction that the uninterrupted program would
      have executed next, with interrupts enabled again and MPIE set. */
  lemma ResumesWhereInterrupted(cfg: Config, s: State, h: State, raw: Word, size: nat)
    requires s.csr[MTVEC] != 0 && Due(s) && InterruptsOn(s) && !Misaligned(cfg, s.nextPc)
    requires h.csr[MEPC] == Tick(s).s.csr[MEPC] && h.csr[MSTATUS] == Tick(s).s.csr[MSTATUS]
    ensures var e := Exec(cfg, h, Mret, raw, size);
            && e.halt == Running && e.s.nextPc == s.nextPc
            && e.s.csr[MSTATUS] == On(s.csr[MSTATUS], BIT_MPIE)
            && Bit(e.s.csr[MSTATUS], BIT_MIE) == 1 && Bit(e.s.csr[MSTATUS], BIT_MPIE) == 1
            && e.s.x == h.x && e.s.mem == h.mem
  {
    hide Isa.EnterTrap; hide Isa.LeaveTrap; hide PyInt.Bit; hide PyInt.SetBit; hide PyInt.ClearBit; hide Isa.Tick;
    hide Isa.Trap;
    TickInterrupts(s);
    EnterThenLeave(s.csr[MSTATUS]);
    BitUpdate(s.csr[MSTATUS], BIT_MPIE);
    MieBelow(s.csr[MSTATUS]);
  }

  /** The CSRs that record traps, hold the interrupt-enable stack and belong to the timer. */
  predicate Bookkeeping(c: CsrIndex) {
    c in {MSTATUS, MEPC, MCAUSE, MTVAL, MIP, TIME_LO, TIME_HI, CMP_LO, CMP_HI}
  }

  predicate SameMemory(own: set<nat>, mem: Bytes, mem': Bytes) {
    |mem'| == |mem| && forall j: nat | j < |mem| && j !in own :: mem'[j] == mem[j]
  }

  /** The same program state: all that a program works on, but for the timer, those CSRs and the bytes that are
      a handler's own. The reservation may be gone. */
  predicate SameProgram(own: set<nat>, s: State, t: State) {
    && t == s.(timer := t.timer, csr := t.csr, mem := t.mem, reserved := t.reserved, reservedAddr := t.reservedAddr)
    && SameMemory(own, s.mem, t.mem)
    && (t.reserved ==> s.reserved && t.reservedAddr == s.reservedAddr)
    && (forall c: CsrIndex | !Bookkeeping(c) :: t.csr[c] == s.csr[c])
  }

  /** Whatever happened between the two states, registers and pc apart, does not concern the program, and MRET
      will find what trap entry has saved. */
  predicate Confined(own: set<nat>, s: State, t: State) {
    && SameProgram(own, s, t.(x := s.x, pc := s.pc, nextPc := s.nextPc))
    && t.csr[MEPC] == s.csr[MEPC] && t.csr[MSTATUS] == s.csr[MSTATUS]
  }

  /** What a handler owes to the interrupted program: it gives back the registers and all else it has found, and
      is about to execute MRET. */
  predicate GivesBack(cfg: Config, loop: Loop, own: set<nat>, found: State, left: State) {
    && Confined(own, found, left) && left.x == found.x && Checked(loop, left)
    && DecodeFetched(Fetch(cfg, loop, left)).Decoded? && DecodeFetched(Fetch(cfg, loop, left)).i == Mret
  }

  /** The program goes on from e, with interrupts enabled again. */
  predicate GoesOn(own: set<nat>, e: State, back: Effect) {
    && back.halt == Running && SameProgram(own, e.(pc := e.nextPc), back.s)
    && back.s.csr[MSTATUS] == On(e.csr[MSTATUS], BIT_MPIE) && InterruptsOn(back.s)
  }

  /** The handler is entered anew, and finds what it has found before. */
  predicate ComesAgain(own: set<nat>, found: State, back: Effect) {
    && back.halt == Running && back.s.csr[MCAUSE] == TIMER_INTERRUPT
    && back.s.x == found.x && back.s.pc == found.pc && Confined(own, found, back.s)
  }

  /** Transparency of a whole interrupt: a step that is interrupted, n steps of a handler that gives back what
      it has found, and its MRET lead to where the step alone would have led, with interrupts enabled, if the
      handler has moved mtimecmp ahead; else they lead to the handler's first instruction, with the same to
      give back. */
  lemma InterruptIsTransparent(cfg: Config, loop: Loop, own: set<nat>, s: State, n: nat)
    requires s.x[0] == 0 && loop.Ticks() && Checked(loop, s)
    requires var e := Execute(cfg, s, Fetch(cfg, loop, s));
             e.halt == Running && e.s.csr[MTVEC] != 0 && Due(e.s) && InterruptsOn(e.s) && !Misaligned(cfg, e.s.nextPc)
    requires var e := Step(cfg, loop, s);
             && e.halt == Running && Run(cfg, loop, e.s, n).halt == Running
             && GivesBack(cfg, loop, own, e.s, Run(cfg, loop, e.s, n).s)
    ensures var e, found := Execute(cfg, s, Fetch(cfg, loop, s)).s, Step(cfg, loop, s).s;
            var left := Run(cfg, loop, found, n).s;
            var back := Step(cfg, loop, left);
            if !Due(left) then GoesOn(own, e, back) else ComesAgain(own, found, back)
  {
    hide Steps.Run; hide Steps.Execute; hide Steps.Fetch; hide Steps.DecodeFetched; hide PyInt.Bit; hide Isa.Tick;
    hide Isa.On; hide Isa.Exec; hide Isa.EnterTrap; hide GoesOn; hide ComesAgain;
    var e := Execute(cfg, s, Fetch(cfg, loop, s)).s;
    ExecuteKeepsZero(cfg, s, Fetch(cfg, loop, s));
    TickInterrupts(e);
    var i := Step(cfg, loop, s).s;
    var h := Run(cfg, loop, i, n).s;
    MretStep(cfg, loop, own, e, i, h);
  }

  /** The last of those steps. */
  lemma MretStep(cfg: Config, loop: Loop, own: set<nat>, e: State, i: State, h: State)
    requires e.csr[MTVEC] != 0 && Due(e) && InterruptsOn(e) && !Misaligned(cfg, e.nextPc) && loop.Ticks() && h.x[0] == 0
    requires i == Tick(e).s.(pc := Tick(e).s.nextPc) && GivesBack(cfg, loop, own, i, h)
    ensures var back := Step(cfg, loop, h);
            if !Due(h) then GoesOn(own, e, back) else ComesAgain(own, i, back)
  {
    hide Steps.Run; hide Steps.Execute; hide Steps.Fetch; hide Steps.DecodeFetched; hide PyInt.Bit; hide Isa.Tick;
    hide Isa.On; hide Isa.EnterTrap; hide Isa.LeaveTrap; hide SameMemory;
    var d := DecodeFetched(Fetch(cfg, loop, h));
    var h' := h.(nextPc := (h.pc + d.size) % WORD);
    TickInterrupts(e);
    ResumesWhereInterrupted(cfg, e, h', d.raw, d.size);
    NothingFetched(cfg, h, Fetch(cfg, loop, h));
    ExecuteDecoded(cfg, h, Fetch(cfg, loop, h));
    assert h.x[0 := 0] == h.x;
    var m := Perform(cfg, h, Mret, d.raw, d.size).s;
    TickInterrupts(m);
    EntersAlike(e.csr[MSTATUS]);
  }

  /** Trap entry does not look at MPIE. */
  lemma EntersAlike(m: Word)
    ensures EnterTrap(On(m, BIT_MPIE)) == EnterTrap(m)
  {
    hide PyInt.Bit;
    BitIsBit(m, BIT_MIE);
    BitIsBit(m, BIT_MPIE);
    BitUpdate(m, BIT_MPIE);
    MieBelow(m);
    MpieAbove(m);
    MpieAbove(On(m, BIT_MPIE));
  }

  // ----- When the interrupt comes -----

  /** The instruction at pc keeps mtime, mtimecmp and mtvec, and leaves the interrupt enabled, as one that traps
      does not. */
  predicate Quiet(cfg: Config, loop: Loop, s: State) {
    var e := Execute(cfg, s, Fetch(cfg, loop, s));
    && Checked(loop, s) && e.halt == Running
    && e.s.timer.mtime == s.timer.mtime && e.s.timer.mtimecmp == s.timer.mtimecmp
    && e.s.csr[MTVEC] == s.csr[MTVEC] && InterruptsOn(e.s)
  }

  /** The first n steps from `s` are quiet, as far as the run gets. */
  predicate QuietRun(cfg: Config, loop: Loop, s: State, n: nat)
    decreases n
  {
    n == 0 || (Quiet(cfg, loop, s) &&
      var e := Step(cfg, loop, s); e.halt == Running ==> QuietRun(cfg, loop, e.s, n - 1))
  }

  predicate Armed(s: State) { s.csr[MTVEC] != 0 && InterruptsOn(s) }

  /** The step ends where its instruction leads, with the CSRs that the instruction has left, mip apart. */
  predicate NotInterrupted(cfg: Config, loop: Loop, s: State) {
    var e, t := Execute(cfg, s, Fetch(cfg, loop, s)).s, Step(cfg, loop, s).s;
    t.pc == e.nextPc && forall c: CsrIndex | c != MIP :: t.csr[c] == e.csr[c]
  }

  /** The step enters the handler, and mepc gets the address to which its instruction leads. */
  predicate IsInterrupted(cfg: Config, loop: Loop, s: State) {
    var e, t := Execute(cfg, s, Fetch(cfg, loop, s)).s, Step(cfg, loop, s).s;
    && t.csr[MCAUSE] == TIMER_INTERRUPT && t.csr[MEPC] == e.nextPc
    && t.csr[MSTATUS] == EnterTrap(e.csr[MSTATUS]) && t.pc == e.csr[MTVEC] - e.csr[MTVEC] % 4
  }

  lemma QuietStep(cfg: Config, loop: Loop, s: State)
    requires loop.Ticks() && Armed(s) && Quiet(cfg, loop, s)
    ensures var e := Step(cfg, loop, s);
            && e.halt == Running && e.s.timer.mtime == s.timer.mtime + 1 && e.s.timer.mtimecmp == s.timer.mtimecmp
            && if Due(s) then IsInterrupted(cfg, loop, s) else NotInterrupted(cfg, loop, s) && Armed(e.s)
  {
    hide Steps.Execute; hide Steps.Fetch; hide Isa.Tick; hide PyInt.Bit; hide Steps.Checked; hide Isa.EnterTrap;
    TickInterrupts(Execute(cfg, s, Fetch(cfg, loop, s)).s);
  }

  /** Step `left` + 1 takes the interrupt, and none of the steps before it does. */
  predicate OnTime(cfg: Config, loop: Loop, s: State, left: nat, n: nat)
    decreases n
  {
    n == 0 ||
    (var e := Step(cfg, loop, s);
     && e.halt == Running
     && if left == 0 then IsInterrupted(cfg, loop, s)
        else NotInterrupted(cfg, loop, s) && OnTime(cfg, loop, e.s, left - 1, n - 1))
  }

  /** From mtime t and mtimecmp c >= t, in a run that leaves these, mtvec and the enables alone, the first c - t
      steps take no interrupt and step c - t + 1 does. */
  lemma {:induction false} TimerDelivery(cfg: Config, loop: Loop, s: State, n: nat)
    requires loop.Ticks() && Armed(s) && s.timer.mtimecmp >= s.timer.mtime
    requires n <= s.timer.mtimecmp - s.timer.mtime + 1 && QuietRun(cfg, loop, s, n)
    ensures OnTime(cfg, loop, s, s.timer.mtimecmp - s.timer.mtime, n)
    decreases n
  {
    hide Steps.Step; hide Quiet; hide Armed; hide NotInterrupted; hide IsInterrupted;
    if n > 0 {
      QuietStep(cfg, loop, s);
      if n > 1 { TimerDelivery(cfg, loop, Step(cfg, loop, s).s, n - 1); }
    }
  }
}
