/** What every reachable state satisfies. */
module Invariants {
  import opened PyInt
  import opened Memory
  import opened Isa
  import opened Rvc
  import opened Steps

  /** Both bits of mstatus.MPP are set: machine mode is the only mode. */
  predicate MppSet(m: Word) { Bit(m, BIT_MPP0) == 1 && Bit(m, BIT_MPP1) == 1 }

  /** Between instructions the halves of a timer register are never both waiting. */
  predicate OneHalf(t: Timer) { !(t.timeLo && t.timeHi) && !(t.cmpLo && t.cmpHi) }

  /** MPP is 0b11, no two halves wait, and the next instruction is to be found at an aligned address. The
      last part is kept apart, since the rest holds whether or not it does. */
  predicate Ready(cfg: Config, aligned: bool, s: State) {
    MppSet(s.csr[MSTATUS]) && OneHalf(s.timer) && (aligned ==> !Misaligned(cfg, s.nextPc))
  }

  /** The same between steps, with x0 zero. */
  predicate Inv(cfg: Config, aligned: bool, s: State) {
    s.x[0] == 0 && MppSet(s.csr[MSTATUS]) && OneHalf(s.timer) && (aligned ==> !Misaligned(cfg, s.pc))
  }

  // ----- mstatus -----

  lemma OnKeeps(m: Word, w: int)
    requires MppSet(m) && w in {BIT_MIE, BIT_MPIE}
    ensures MppSet(On(m, w))
  {
    hide PyInt.SetBit; hide PyInt.ClearBit; hide PyInt.Bit;
    BitUpdate(m, w);
    SameMpp(m, On(m, w), w);
  }

  lemma OffKeeps(m: Word, w: int)
    requires MppSet(m) && w in {BIT_MIE, BIT_MPIE}
    ensures MppSet(Off(m, w))
  {
    hide PyInt.SetBit; hide PyInt.ClearBit; hide PyInt.Bit;
    BitUpdate(m, w);
    SameMpp(m, Off(m, w), w);
  }

  lemma SameMpp(m: Word, m': Word, w: int)
    requires w in {BIT_MIE, BIT_MPIE} && m / (2 * w) == m' / (2 * w)
    ensures Bit(m, BIT_MPP0) == Bit(m', BIT_MPP0) && Bit(m, BIT_MPP1) == Bit(m', BIT_MPP1)
  {
    hide PyInt.Bit;
    if w == BIT_MIE { HigherBit(m, m', 8, 128); HigherBit(m, m', 8, 256); }
    else { HigherBit(m, m', 0x80, 8); HigherBit(m, m', 0x80, 16); }
  }

  lemma MppForced(m: Word)
    ensures MppSet(On(On(m, BIT_MPP0), BIT_MPP1))
  {
    hide PyInt.SetBit; hide PyInt.ClearBit; hide PyInt.Bit;
    var m' := On(m, BIT_MPP0);
    BitUpdate(m, BIT_MPP0);
    BitUpdate(m', BIT_MPP1);
    MppLow(m');
  }

  lemma MppLow(m: Word)
    ensures Bit(On(m, BIT_MPP1), BIT_MPP0) == Bit(m, BIT_MPP0)
  {
    LowerBit(m, BIT_MPP0, 1);
  }

  lemma TrapKeepsMpp(m: Word)
    requires MppSet(m)
    ensures MppSet(EnterTrap(m)) && MppSet(LeaveTrap(m)) && MppSet(On(m, BIT_MPIE))
  {
    hide Isa.On; hide Isa.Off; hide MppSet;
    OnKeeps(m, BIT_MPIE);
    OffKeeps(m, BIT_MIE);
    OffKeeps(Off(m, BIT_MIE), BIT_MPIE);
    OnKeeps(Off(Off(m, BIT_MIE), BIT_MPIE), BIT_MPIE);
    OnKeeps(Off(m, BIT_MIE), BIT_MIE);
    OnKeeps(On(Off(m, BIT_MIE), BIT_MIE), BIT_MPIE);
    OnKeeps(Off(m, BIT_MIE), BIT_MPIE);
  }

  // ----- Instructions -----

  /** Running again after the step only with MPP set and an aligned next pc. */
  predicate EndsReady(cfg: Config, aligned: bool, e: Effect) { e.halt == Running ==> Ready(cfg, aligned, e.s) }

  lemma TrapReady(cfg: Config, aligned: bool, s: State, cause: Word, mtval: Word, sync: bool)
    requires MppSet(s.csr[MSTATUS]) && OneHalf(s.timer)
    ensures EndsReady(cfg, aligned, Trap(s, cause, mtval, sync))
  {
    hide Isa.EnterTrap; hide MppSet;
    TrapKeepsMpp(s.csr[MSTATUS]);
  }

  lemma JumpReady(cfg: Config, aligned: bool, s: State, target: Word, linked: State)
    requires Ready(cfg, aligned, s) && linked.csr == s.csr && linked.timer == s.timer
    ensures EndsReady(cfg, aligned, Jump(cfg, s, target, linked))
  {
    hide MppSet; hide Isa.Trap;
    TrapReady(cfg, aligned, s, 0, target, true);
  }

  lemma WriteCsrReady(cfg: Config, aligned: bool, s: State, op: CsrOp, n: CsrIndex, prior: Word, src: Word)
    requires Ready(cfg, aligned, s)
    ensures Ready(cfg, aligned, WriteCsr(s, op, n, prior, src))
  {
    hide MppSet; hide Isa.On; hide Isa.NewCsr;
    var v := if (op != RW && src == 0) || IgnoresWrites(n) then s.csr[n] else NewCsr(op, n, prior, src);
    MppForced(v);
  }

  lemma CsrReady(cfg: Config, aligned: bool, s: State, op: CsrOp, rd: Index, src: Word, n: CsrIndex, raw: Word)
    requires Ready(cfg, aligned, s)
    ensures EndsReady(cfg, aligned, ExecCsr(s, op, rd, src, n, raw))
  {
    hide Ready; hide Isa.Trap; hide Isa.WriteCsr; hide Isa.ReadBack;
    var t := Trap(s, 2, raw, true);
    ReadyMpp(cfg, aligned, s);
    TrapReady(cfg, aligned, s, 2, raw, true);
    WriteCsrReady(cfg, aligned, s, op, n, s.csr[n], src);
    if t.halt == Running { WriteCsrReady(cfg, aligned, t.s, op, n, s.csr[n], src); }
    ReadyFrame(cfg, aligned);
  }

  lemma ReadyMpp(cfg: Config, aligned: bool, s: State)
    requires Ready(cfg, aligned, s)
    ensures MppSet(s.csr[MSTATUS]) && OneHalf(s.timer)
  {
    hide MppSet;
  }

  /** Readiness only looks at mstatus, the timer and the next pc. */
  lemma ReadyFrame(cfg: Config, aligned: bool)
    ensures forall s: State, t: State |
              Ready(cfg, aligned, s) && t.csr == s.csr && t.timer == s.timer && t.nextPc == s.nextPc ::
              Ready(cfg, aligned, t)
  {
    hide MppSet;
  }

  lemma AmoReady(cfg: Config, aligned: bool, s: State, op: AmoOp, rd: Index, addr: Word, b: Word, raw: Word)
    requires Ready(cfg, aligned, s)
    ensures EndsReady(cfg, aligned, ExecAmo(cfg, s, op, rd, addr, b, raw))
  {
    hide Ready; hide Isa.Trap; hide Isa.Combine; hide Memory.Load; hide Memory.Store;
    ReadyMpp(cfg, aligned, s);
    TrapReady(cfg, aligned, s, 6, addr, true);
    TrapReady(cfg, aligned, s, 2, raw, true);
    ReadyFrame(cfg, aligned);
  }

  lemma EcallReady(cfg: Config, aligned: bool, s: State)
    requires Ready(cfg, aligned, s)
    ensures EndsReady(cfg, aligned, ExecEcall(cfg, s)) && EndsReady(cfg, aligned, ExecEbreak(s))
  {
    hide MppSet; hide Isa.Trap; hide Isa.StoreBlocks; hide Isa.On;
    TrapReady(cfg, aligned, s, 11, 0, true);
    TrapReady(cfg, aligned, s, 3, 0, true);
    TrapKeepsMpp(s.csr[MSTATUS]);
  }

  lemma MretReady(cfg: Config, aligned: bool, s: State)
    requires Ready(cfg, aligned, s)
    ensures EndsReady(cfg, aligned, ExecMret(cfg, s))
  {
    hide MppSet; hide Isa.Trap; hide Isa.LeaveTrap;
    TrapReady(cfg, aligned, s, 0, s.csr[MEPC], true);
    TrapKeepsMpp(s.csr[MSTATUS]);
  }

  /** Instructions that transfer control or touch the CSRs. */
  lemma ControlReady(cfg: Config, aligned: bool, s: State, i: Instr, raw: Word, size: nat)
    requires Ready(cfg, aligned, s)
    requires i.Branch? || i.Jal? || i.Jalr? || i.Ecall? || i.Ebreak? || i.Mret? || i.Csr? || i.Amo? || i.Illegal?
    ensures EndsReady(cfg, aligned, Exec(cfg, s, i, raw, size))
  {
    hide Ready; hide Isa.Jump; hide Isa.Trap; hide Isa.ExecEcall; hide Isa.ExecEbreak; hide Isa.ExecMret;
    hide Isa.ExecCsr; hide Isa.ExecAmo; hide Isa.Alu; hide Isa.Taken; hide Isa.StoreTo; hide Isa.ExecLoad;
    hide Isa.Even;
    ReadyMpp(cfg, aligned, s);
    match i
    case Branch(c, rs1, rs2, imm) => JumpReady(cfg, aligned, s, (s.pc + imm) % WORD, s);
    case Jal(rd, imm) => JumpReady(cfg, aligned, s, (s.pc + imm) % WORD, Link(s, rd, size));
    case Jalr(rd, rs1, imm) => JumpReady(cfg, aligned, s, Even((s.x[rs1] + imm) % WORD), Link(s, rd, size));
    case Ecall => EcallReady(cfg, aligned, s);
    case Ebreak => EcallReady(cfg, aligned, s);
    case Mret => MretReady(cfg, aligned, s);
    case Csr(op, rd, rs1, immediate, n) => CsrReady(cfg, aligned, s, op, rd, CsrSource(s, rs1, immediate), n, raw);
    case Amo(op, rd, rs1, rs2) => AmoReady(cfg, aligned, s, op, rd, s.x[rs1], s.x[rs2], raw);
    case Illegal => TrapReady(cfg, aligned, s, 2, raw, true);
  }

  lemma ExecReady(cfg: Config, aligned: bool, s: State, i: Instr, raw: Word, size: nat)
    requires Ready(cfg, aligned, s)
    ensures EndsReady(cfg, aligned, Exec(cfg, s, i, raw, size))
  {
    hide Ready;
    if i.Branch? || i.Jal? || i.Jalr? || i.Ecall? || i.Ebreak? || i.Mret? || i.Csr? || i.Amo? || i.Illegal? {
      hide Isa.Exec;
      ControlReady(cfg, aligned, s, i, raw, size);
    } else {
      hide Isa.Alu; hide Memory.Load; hide Memory.Store; hide Isa.Loaded;
      ReadyFrame(cfg, aligned);
    }
  }

  /** An instruction of two or four bytes keeps the invariant; without RVC, one of two is not aligned. */
  lemma PerformKeeps(cfg: Config, aligned: bool, s: State, i: Instr, raw: Word, size: nat)
    requires Inv(cfg, aligned, s) && (aligned ==> size == 4 || (size == 2 && cfg.rvc))
    ensures var e := Perform(cfg, s, i, raw, size); e.halt == Running ==> Ready(cfg, aligned, e.s) && e.s.x[0] == 0
  {
    hide Isa.Exec; hide MppSet; hide OneHalf;
    if aligned { NextAligned(cfg, s.pc, size); }
    hide Isa.Misaligned;
    ExecReady(cfg, aligned, s.(nextPc := (s.pc + size) % WORD), i, raw, size);
  }

  lemma NextAligned(cfg: Config, pc: Word, size: nat)
    requires !Misaligned(cfg, pc) && (size == 4 || (size == 2 && cfg.rvc))
    ensures !Misaligned(cfg, (pc + size) % WORD)
  {
    var next := if pc + size < WORD then pc + size else pc + size - WORD;
    EuclidUnique(pc + size, WORD, (pc + size - next) / WORD, next);
  }

  lemma TickKeeps(cfg: Config, aligned: bool, s: State)
    requires Ready(cfg, aligned, s) && s.x[0] == 0
    ensures var e := Tick(s); e.halt == Running ==> Ready(cfg, aligned, e.s) && e.s.x[0] == 0
  {
    hide MppSet; hide Isa.On; hide Isa.Off; hide Isa.Trap;
    var due := s.timer.mtime >= s.timer.mtimecmp;
    var mip := if due == s.timer.mtip then s.csr[MIP]
               else if due then On(s.csr[MIP], BIT_MTI) else Off(s.csr[MIP], BIT_MTI);
    var s' := s.(timer := s.timer.(mtime := s.timer.mtime + 1, mtip := due), csr := s.csr[MIP := mip]);
    TrapReady(cfg, aligned, s', TIMER_INTERRUPT, 0, false);
    TrapKeepsRegs(s', TIMER_INTERRUPT, 0, false);
  }

  lemma TrapKeepsRegs(s: State, cause: Word, mtval: Word, sync: bool)
    ensures Trap(s, cause, mtval, sync).s.x == s.x
  {
  }

  lemma ExecuteKeeps(cfg: Config, aligned: bool, s: State, f: Fetched)
    requires Inv(cfg, aligned, s) && (aligned && f.Half16? ==> cfg.rvc)
    ensures var e := Execute(cfg, s, f); e.halt == Running ==> Ready(cfg, aligned, e.s) && e.s.x[0] == 0
  {
    hide Isa.Perform; hide Ready; hide Isa.Trap; hide Rvc.Expand; hide Isa.Decode; hide Isa.Split; hide Isa.Val;
    match f
    case NoInst =>
    case Word32(w) => PerformKeeps(cfg, aligned, s, Decode(Split(w), w), Val(w), 4);
    case Half16(h) =>
      match Expand(h)
      case None =>
        TrapReady(cfg, aligned, s, 2, h as int, true);
        TrapKeepsRegs(s, 2, h as int, true);
      case Some(w) => PerformKeeps(cfg, aligned, s, Decode(Split(w), w), Val(w), 2);
  }

  // ----- Runs -----

  /** A CPU without RVC is not handed a 16-bit instruction. */
  predicate Fits(cfg: Config, loop: Loop, s: State) { Fetch(cfg, loop, s).Half16? ==> cfg.rvc }

  predicate FitsThroughout(cfg: Config, loop: Loop, s: State, n: nat)
    decreases n
  {
    n == 0 || (Fits(cfg, loop, s) &&
      var e := Step(cfg, loop, s); e.halt == Running ==> FitsThroughout(cfg, loop, e.s, n - 1))
  }

  predicate EndsInv(cfg: Config, aligned: bool, e: Effect) { e.halt == Running ==> Inv(cfg, aligned, e.s) }

  lemma StepKeeps(cfg: Config, aligned: bool, loop: Loop, s: State)
    requires Inv(cfg, aligned, s) && (aligned ==> Fits(cfg, loop, s))
    ensures EndsInv(cfg, aligned, Step(cfg, loop, s))
  {
    hide Steps.Fetch; hide Steps.Execute; hide Isa.Tick; hide MppSet;
    ExecuteKeeps(cfg, aligned, s, Fetch(cfg, loop, s));
    var e := Execute(cfg, s, Fetch(cfg, loop, s));
    if e.halt == Running { TickKeeps(cfg, aligned, e.s); }
  }

  /** Every state of every run of every loop satisfies the invariant, its last part as long as the run hands
      no 16-bit instruction to a CPU without RVC. */
  lemma {:induction false} RunKeeps(cfg: Config, aligned: bool, loop: Loop, s: State, n: nat)
    requires Inv(cfg, aligned, s) && (aligned ==> FitsThroughout(cfg, loop, s, n))
    ensures EndsInv(cfg, aligned, Run(cfg, loop, s, n))
    decreases n
  {
    hide Steps.Step; hide Inv; hide Fits;
    if n > 0 {
      StepKeeps(cfg, aligned, loop, s);
      var e := Step(cfg, loop, s);
      if e.halt == Running { RunKeeps(cfg, aligned, loop, e.s, n - 1); }
    }
  }

  /** From reset, with any initial registers, as `setup_argv` or an initialisation pattern leave them: pc stays
      aligned if the entry point passes the alignment test of `run`. The ranges are the types'. */
  lemma Reachable(cfg: Config, loop: Loop, mem: Bytes, world: nat, x: Regs, entry: Word, n: nat)
    requires x[0] == 0
    ensures var s := Reset(cfg.rvc, mem, world).(x := x, pc := entry);
            var e := Run(cfg, loop, s, n);
            && (e.halt == Running ==> e.s.x[0] == 0 && MppSet(e.s.csr[MSTATUS]) && OneHalf(e.s.timer))
            && (e.halt == Running && !Misaligned(cfg, entry) && FitsThroughout(cfg, loop, s, n) ==>
                !Misaligned(cfg, e.s.pc))
            && (forall r: Index :: 0 <= e.s.x[r] < WORD) && (forall c: CsrIndex :: 0 <= e.s.csr[c] < WORD)
            && 0 <= e.s.pc < WORD
  {
    hide Steps.Run; hide FitsThroughout;
    var s := Reset(cfg.rvc, mem, world).(x := x, pc := entry);
    RunKeeps(cfg, false, loop, s, n);
    if !Misaligned(cfg, entry) && FitsThroughout(cfg, loop, s, n) { RunKeeps(cfg, true, loop, s, n); }
  }

  // ----- The loops that keep pc aligned -----

  predicate Suited(cfg: Config, loop: Loop) { cfg.rvc || loop.RunFastNoRvc? || loop.RunWithChecks? }

  /** Such a loop never hands a 16-bit instruction to a CPU without RVC, in any run. */
  lemma {:induction false} SuitedFits(cfg: Config, loop: Loop, s: State, n: nat)
    requires Suited(cfg, loop)
    ensures Fits(cfg, loop, s) && FitsThroughout(cfg, loop, s, n)
    decreases n
  {
    hide Steps.Step; hide Steps.ByWord; hide Steps.ByHalves; hide Steps.OfWord;
    if n > 0 {
      var e := Step(cfg, loop, s);
      if e.halt == Running { SuitedFits(cfg, loop, e.s, n - 1); }
    }
  }

  ghost predicate AlwaysKeeps(cfg: Config, loop: Loop) {
    forall s: State | Inv(cfg, true, s) :: EndsInv(cfg, true, Step(cfg, loop, s))
  }

  /** These loops, and no others, keep the whole invariant in every state: the others execute a 16-bit
      instruction whether or not the CPU was built with RVC. */
  lemma SuitedExactly(cfg: Config, loop: Loop)
    ensures AlwaysKeeps(cfg, loop) <==> Suited(cfg, loop)
  {
    hide Steps.Step; hide Inv; hide Suited; hide EndsInv;
    if Suited(cfg, loop) {
      forall s: State | Inv(cfg, true, s) ensures EndsInv(cfg, true, Step(cfg, loop, s)) {
        SuitedFits(cfg, loop, s, 0);
        StepKeeps(cfg, true, loop, s);
      }
    } else {
      UnsuitedBreaks(cfg, loop);
    }
  }

  const C_NOP_PROGRAM: Bytes := [1, 0, 0, 0, 0, 0, 0, 0]

  /** Without RVC, a single C.NOP at the reset address leaves pc off its four-byte alignment. */
  lemma UnsuitedBreaks(cfg: Config, loop: Loop)
    requires !Suited(cfg, loop)
    ensures var s := Reset(cfg.rvc, C_NOP_PROGRAM, 0);
            Inv(cfg, true, s) && !EndsInv(cfg, true, Step(cfg, loop, s))
  {
    hide Rvc.Execute16; hide Steps.OfHalf; hide Steps.ByWord; hide Steps.ByHalves;
    var s := Reset(cfg.rvc, C_NOP_PROGRAM, 0);
    CNopFetched(cfg, s);
    CNopRuns(cfg, s);
    CNopKeepsTimer(cfg, s);
    CNopFallsThrough(cfg, s);
  }

  lemma CNopFetched(cfg: Config, s: State)
    requires s.mem == C_NOP_PROGRAM && s.pc == 0
    ensures ByWord(cfg, s) == ByHalves(cfg, s) == Half16(OfHalf(0x0001))
  {
    hide Steps.OfHalf; hide Steps.OfWord;
  }

  lemma CNopFallsThrough(cfg: Config, s: State)
    ensures Execute16(cfg, s, OfHalf(0x0001)).s.nextPc == (s.pc + 2) % WORD
  {
    hide Isa.Val; hide Isa.Num; hide Isa.Split; hide Isa.Decode; hide Isa.Alu;
    assert OfHalf(0x0001) == 0x0001;
    CNopDecodes();
  }
}
