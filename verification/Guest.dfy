/** Guest code that works the timer through its CSRs, run on the CPU model. */
module Guest {
  import opened PyInt
  import opened Memory
  import opened Isa
  import opened Rvc
  import opened Steps
  import opened Clock
  import opened TimerRuns
  import Arithmetic

  const T0: Index := 5
  const T1: Index := 6
  const T2: Index := 7
  const T3: Index := 28

  /** `csrr rd, n` and `csrw n, rs`. */
  function Csrr(rd: Index, n: CsrIndex): Instr { Csr(RS, rd, 0, false, n) }

  function Csrw(n: CsrIndex, rs: Index): Instr { Csr(RW, 0, rs, false, n) }

  /** portUPDATE_MTIMER_COMPARE_REGISTER; its first line is assembled as AUIPC and LW. */
  function UpdateCompareRegister(upper: Word, lower: Word): seq<Instr> {
    [ Auipc(T0, upper), Load(4, false, T0, T0, lower),
      Csrr(T1, CMP_LO), Csrr(T2, CMP_HI),
      Reg(ADD, T1, T1, T0), Reg(SLTU, T3, T1, T0), Reg(ADD, T2, T2, T3),
      Csrw(CMP_LO, T1), Csrw(CMP_HI, T2) ]
  }

  predicate Runs1(cfg: Config, loop: Loop, s: State, i: Instr) {
    var d := DecodeFetched(Fetch(cfg, loop, s));
    Checked(loop, s) && d.Decoded? && d.i == i
  }

  /** The program at pc is `code`, as far as it gets. */
  predicate Runs(cfg: Config, loop: Loop, s: State, code: seq<Instr>)
    decreases |code|
  {
    code != [] ==>
      && Runs1(cfg, loop, s, code[0])
      && var e := Step(cfg, loop, s); e.halt == Running ==> Runs(cfg, loop, e.s, code[1..])
  }

  lemma RunsNext(cfg: Config, loop: Loop, s: State, code: seq<Instr>, k: nat)
    requires k < |code| && Runs(cfg, loop, s, code[k..])
    ensures Runs1(cfg, loop, s, code[k])
    ensures Step(cfg, loop, s).halt == Running ==> Runs(cfg, loop, Step(cfg, loop, s).s, code[k + 1..])
  {
    hide Runs1; hide Steps.Step;
    assert code[k..][1..] == code[k + 1..];
  }

  /** Interrupts are off, as they are in a trap handler. */
  predicate Masked(s: State) { s.x[0] == 0 && Bit(s.csr[MSTATUS], BIT_MIE) == 0 }

  function CompareLatch(s: State): Latch { LatchOf(MTIMECMP, s) }

  /** What the code below depends on. */
  predicate Sees(s: State, x: Regs, l: Latch, mem: Bytes) {
    Masked(s) && s.x == x && CompareLatch(s) == l && s.mem == mem
  }

  // ----- One instruction -----

  lemma FinishSees(loop: Loop, s: State, x: Regs, l: Latch, mem: Bytes)
    requires Sees(s, x, l, mem)
    ensures var e := Finish(loop.Ticks(), Go(s)); e.halt == Running && Sees(e.s, x, l, mem)
  {
    hide PyInt.Bit; hide Isa.On; hide Isa.Off;
  }

  /** A step that performs `i`, in terms of the instruction alone. */
  lemma StepSees(cfg: Config, loop: Loop, s: State, i: Instr, x: Regs, l: Latch, mem: Bytes)
    requires s.x[0] == 0 && Runs1(cfg, loop, s, i)
    requires forall raw, size :: var e := Perform(cfg, s, i, raw, size); e.halt == Running && Sees(e.s, x, l, mem)
    ensures var e := Step(cfg, loop, s); e.halt == Running && Sees(e.s, x, l, mem)
  {
    hide Sees; hide Isa.Perform; hide Steps.Execute; hide Steps.Fetch; hide Steps.DecodeFetched; hide Steps.Finish;
    var f := Fetch(cfg, loop, s);
    var d := DecodeFetched(f);
    NothingFetched(cfg, s, f);
    assert f != NoInst;
    ExecuteDecoded(cfg, s, f);
    var p := Perform(cfg, s, i, d.raw, d.size);
    FinishSees(loop, p.s, x, l, mem);
  }

  lemma AuipcStep(cfg: Config, loop: Loop, s: State, rd: Index, imm: Word)
    requires Masked(s) && rd != 0 && Runs1(cfg, loop, s, Auipc(rd, imm))
    ensures var e := Step(cfg, loop, s);
            e.halt == Running && Sees(e.s, s.x[rd := (s.pc + imm) % WORD], CompareLatch(s), s.mem)
  {
    hide Steps.Step; hide Runs1; hide PyInt.Bit;
    StepSees(cfg, loop, s, Auipc(rd, imm), s.x[rd := (s.pc + imm) % WORD], CompareLatch(s), s.mem);
  }

  lemma LoadStep(cfg: Config, loop: Loop, s: State, rd: Index, rs: Index, imm: Word, v: Word)
    requires Masked(s) && rd != 0 && Runs1(cfg, loop, s, Load(4, false, rd, rs, imm))
    requires Memory.Load(cfg.checked, s.mem, (s.x[rs] + imm) % WORD, 4) == Some(v)
    ensures var e := Step(cfg, loop, s); e.halt == Running && Sees(e.s, s.x[rd := v], CompareLatch(s), s.mem)
  {
    hide Steps.Step; hide Runs1; hide PyInt.Bit; hide Memory.Load;
    StepSees(cfg, loop, s, Isa.Load(4, false, rd, rs, imm), s.x[rd := v], CompareLatch(s), s.mem);
  }

  lemma RegStep(cfg: Config, loop: Loop, s: State, op: AluOp, rd: Index, rs1: Index, rs2: Index)
    requires Masked(s) && rd != 0 && Runs1(cfg, loop, s, Reg(op, rd, rs1, rs2))
    ensures var e := Step(cfg, loop, s);
            e.halt == Running && Sees(e.s, s.x[rd := Alu(op, s.x[rs1], s.x[rs2])], CompareLatch(s), s.mem)
  {
    hide Steps.Step; hide Runs1; hide PyInt.Bit; hide Isa.Alu;
    StepSees(cfg, loop, s, Reg(op, rd, rs1, rs2), s.x[rd := Alu(op, s.x[rs1], s.x[rs2])], CompareLatch(s), s.mem);
  }

  /** The timer CSRs read as the timer registers, whatever is latched. */
  lemma ReadStep(cfg: Config, loop: Loop, s: State, rd: Index, n: CsrIndex)
    requires Masked(s) && rd != 0 && (n == CMP_LO || n == CMP_HI) && Runs1(cfg, loop, s, Csrr(rd, n))
    ensures var e := Step(cfg, loop, s);
            e.halt == Running && Sees(e.s, s.x[rd := ReadBack(s.timer, n, 0)], CompareLatch(s), s.mem)
  {
    hide Steps.Step; hide Runs1; hide PyInt.Bit; hide Isa.NewCsr; hide Isa.On;
    StepSees(cfg, loop, s, Csrr(rd, n), s.x[rd := ReadBack(s.timer, n, 0)], CompareLatch(s), s.mem);
  }

  lemma WriteStep(cfg: Config, loop: Loop, s: State, n: CsrIndex, rs: Index)
    requires Masked(s) && (n == CMP_LO || n == CMP_HI) && Runs1(cfg, loop, s, Csrw(n, rs))
    ensures var e := Step(cfg, loop, s);
            e.halt == Running && Sees(e.s, s.x, WriteHalf(CompareLatch(s), n == CMP_LO, s.x[rs]), s.mem)
  {
    hide Steps.Step; hide Runs1; hide PyInt.Bit; hide Isa.NewCsr; hide Isa.On; hide Clock.WriteHalf;
    var l := WriteHalf(CompareLatch(s), n == CMP_LO, s.x[rs]);
    forall raw, size
      ensures var e := Perform(cfg, s, Csrw(n, rs), raw, size); e.halt == Running && Sees(e.s, s.x, l, s.mem)
    {
      CsrwPerforms(cfg, s, n, rs, raw, size);
    }
    StepSees(cfg, loop, s, Csrw(n, rs), s.x, l, s.mem);
  }

  lemma CsrwPerforms(cfg: Config, s: State, n: CsrIndex, rs: Index, raw: Word, size: nat)
    requires Masked(s) && (n == CMP_LO || n == CMP_HI)
    ensures var e := Perform(cfg, s, Csrw(n, rs), raw, size);
            e.halt == Running && Sees(e.s, s.x, WriteHalf(CompareLatch(s), n == CMP_LO, s.x[rs]), s.mem)
  {
    hide PyInt.Bit; hide Isa.On;
    WritesAreWrites(MTIMECMP, s.(nextPc := (s.pc + size) % WORD), n, s.csr[n], s.x[rs]);
    assert s.x[0 := 0] == s.x;
  }

  // ----- Setting mtimecmp -----

  /** mtimecmp is `c` now and after each of the next n steps, so that every comparison made meanwhile,
      by the timer update at the end of a step, is with `c`. */
  ghost predicate Stays(cfg: Config, loop: Loop, s: State, n: nat, c: nat) {
    forall k | 0 <= k <= n :: var e := Run(cfg, loop, s, k); e.halt == Running && e.s.timer.mtimecmp == c
  }

  predicate Settled(s: State, c: nat) { s.timer.mtimecmp == c && !s.timer.cmpLo && !s.timer.cmpHi }

  /** The n steps take mtimecmp to `c`, with no half left pending and no other value in between. */
  ghost predicate Sets(cfg: Config, loop: Loop, s: State, n: nat, c: nat)
    requires n > 0
  {
    && Stays(cfg, loop, s, n - 1, s.timer.mtimecmp)
    && var e := Run(cfg, loop, s, n); e.halt == Running && Settled(e.s, c)
  }

  lemma RunOne(cfg: Config, loop: Loop, s: State, n: nat)
    requires Step(cfg, loop, s).halt == Running
    ensures Run(cfg, loop, s, 0) == Go(s) && Run(cfg, loop, s, n + 1) == Run(cfg, loop, Step(cfg, loop, s).s, n)
  {
    hide Steps.Step;
  }

  /** One step before. */
  lemma SetsEarlier(cfg: Config, loop: Loop, s: State, n: nat, c: nat)
    requires var e := Step(cfg, loop, s);
             e.halt == Running && CompareLatch(e.s) == CompareLatch(s) && n > 0
    ensures Sets(cfg, loop, Step(cfg, loop, s).s, n, c) <==> Sets(cfg, loop, s, n + 1, c)
  {
    hide Steps.Step; hide Steps.Run;
    var e := Step(cfg, loop, s);
    forall k: nat ensures Run(cfg, loop, s, k + 1) == Run(cfg, loop, e.s, k) { RunOne(cfg, loop, s, k); }
    RunOne(cfg, loop, s, 0);
    if Sets(cfg, loop, s, n + 1, c) {
      forall k | 0 <= k <= n - 1
        ensures var r := Run(cfg, loop, e.s, k); r.halt == Running && r.s.timer.mtimecmp == s.timer.mtimecmp
      {
        assert Run(cfg, loop, s, k + 1) == Run(cfg, loop, e.s, k);
      }
    }
    if Sets(cfg, loop, e.s, n, c) {
      forall k | 0 <= k <= n
        ensures var r := Run(cfg, loop, s, k); r.halt == Running && r.s.timer.mtimecmp == s.timer.mtimecmp
      {
        if k > 0 { assert Run(cfg, loop, s, (k - 1) + 1) == Run(cfg, loop, e.s, k - 1); }
      }
    }
  }

  /** `write_mtimecmp`, low half first: the value is set by the second write and seen by no comparison
      before that, if and only if no high half was pending. Never both halves are, by `Invariants.Reachable`. */
  lemma WriteMtimecmp(cfg: Config, loop: Loop, s: State, lo: Index, hi: Index)
    requires Masked(s) && !(s.timer.cmpLo && s.timer.cmpHi)
    requires Runs(cfg, loop, s, [Csrw(CMP_LO, lo), Csrw(CMP_HI, hi)])
    ensures Sets(cfg, loop, s, 2, s.x[hi] * WORD + s.x[lo]) <==> !s.timer.cmpHi
  {
    hide Steps.Step; hide Runs1; hide Masked; hide Csrw;
    var code := [Csrw(CMP_LO, lo), Csrw(CMP_HI, hi)];
    assert code[1..] == [Csrw(CMP_HI, hi)];
    WriteStep(cfg, loop, s, CMP_LO, lo);
    var a := Step(cfg, loop, s).s;
    WriteStep(cfg, loop, a, CMP_HI, hi);
    var b := Step(cfg, loop, a).s;
    assert CompareLatch(b) == WriteHalf(WriteHalf(CompareLatch(s), true, s.x[lo]), false, s.x[hi]);
    RunOne(cfg, loop, s, 0);
    RunOne(cfg, loop, s, 1);
    RunOne(cfg, loop, a, 0);
    assert Run(cfg, loop, b, 0) == Go(b);
  }

  /** 64-bit addition in two words. */
  lemma AddWithCarry(c: nat, inc: Word)
    requires c < WORD * WORD
    ensures var lo := (c % WORD + inc) % WORD;
            var hi := (c / WORD % WORD + Flag(lo < inc)) % WORD;
            hi * WORD + lo == (c + inc) % (WORD * WORD)
  {
    var low, high := c % WORD, c / WORD;
    Arithmetic.HighHalf(c, WORD);
    Carry(low, inc);
    var lo := (low + inc) % WORD;
    var carry := Flag(lo < inc);
    Carry(high, carry);
    var hi := (high + carry) % WORD;
    EuclidUnique(c + inc, WORD * WORD, Flag(hi < carry), hi * WORD + lo);
  }

  lemma Carry(a: Word, b: Word)
    ensures var r := (a + b) % WORD; a + b == Flag(r < b) * WORD + r
  {
  }

  lemma SevenSteps(cfg: Config, loop: Loop, s: State, s1: State, s2: State, s3: State, s4: State, s5: State,
      s6: State, t: State)
    requires Step(cfg, loop, s) == Go(s1) && Step(cfg, loop, s1) == Go(s2) && Step(cfg, loop, s2) == Go(s3)
    requires Step(cfg, loop, s3) == Go(s4) && Step(cfg, loop, s4) == Go(s5) && Step(cfg, loop, s5) == Go(s6)
    requires Step(cfg, loop, s6) == Go(t)
    ensures Run(cfg, loop, s, 7) == Go(t)
  {
    hide Steps.Step;
    RunOne(cfg, loop, s6, 0);
    RunOne(cfg, loop, s5, 1);
    RunOne(cfg, loop, s4, 2);
    RunOne(cfg, loop, s3, 3);
    RunOne(cfg, loop, s2, 4);
    RunOne(cfg, loop, s1, 5);
    RunOne(cfg, loop, s, 6);
    assert Run(cfg, loop, t, 0) == Go(t);
  }

  /** The first seven instructions compute the sum in t2:t1 and leave mtimecmp, memory and all registers but t0 to
      t3 alone. */
  lemma ComputesSum(cfg: Config, loop: Loop, s: State, upper: Word, lower: Word, inc: Word) returns (t: State)
    requires Masked(s) && Runs(cfg, loop, s, UpdateCompareRegister(upper, lower))
    requires Memory.Load(cfg.checked, s.mem, ((s.pc + upper) % WORD + lower) % WORD, 4) == Some(inc)
    ensures Masked(t) && CompareLatch(t) == CompareLatch(s) && Runs(cfg, loop, t, [Csrw(CMP_LO, T1), Csrw(CMP_HI, T2)])
    ensures Run(cfg, loop, s, 7) == Go(t) && t.mem == s.mem
    ensures forall r: Index | r !in {T0, T1, T2, T3} :: t.x[r] == s.x[r]
    ensures t.x[T1] == (s.timer.mtimecmp % WORD + inc) % WORD
    ensures t.x[T2] == (s.timer.mtimecmp / WORD % WORD + Flag(t.x[T1] < inc)) % WORD
    ensures forall c :: Sets(cfg, loop, s, 9, c) <==> Sets(cfg, loop, t, 2, c)
  {
    hide Steps.Step; hide Runs1; hide Runs; hide Sets; hide PyInt.Bit; hide Memory.Load;
    var code := UpdateCompareRegister(upper, lower);
    assert code[0..] == code;
    RunsNext(cfg, loop, s, code, 0);
    AuipcStep(cfg, loop, s, T0, upper);
    var s1 := Step(cfg, loop, s).s;
    RunsNext(cfg, loop, s1, code, 1);
    LoadStep(cfg, loop, s1, T0, T0, lower, inc);
    var s2 := Step(cfg, loop, s1).s;
    RunsNext(cfg, loop, s2, code, 2);
    ReadStep(cfg, loop, s2, T1, CMP_LO);
    var s3 := Step(cfg, loop, s2).s;
    RunsNext(cfg, loop, s3, code, 3);
    ReadStep(cfg, loop, s3, T2, CMP_HI);
    var s4 := Step(cfg, loop, s3).s;
    RunsNext(cfg, loop, s4, code, 4);
    RegStep(cfg, loop, s4, ADD, T1, T1, T0);
    var s5 := Step(cfg, loop, s4).s;
    RunsNext(cfg, loop, s5, code, 5);
    RegStep(cfg, loop, s5, SLTU, T3, T1, T0);
    var s6 := Step(cfg, loop, s5).s;
    RunsNext(cfg, loop, s6, code, 6);
    RegStep(cfg, loop, s6, ADD, T2, T2, T3);
    t := Step(cfg, loop, s6).s;
    assert code[7..] == [Csrw(CMP_LO, T1), Csrw(CMP_HI, T2)];
    SevenSteps(cfg, loop, s, s1, s2, s3, s4, s5, s6, t);
    forall c ensures Sets(cfg, loop, s, 9, c) <==> Sets(cfg, loop, t, 2, c) {
      SetsEarlier(cfg, loop, s6, 2, c);
      SetsEarlier(cfg, loop, s5, 3, c);
      SetsEarlier(cfg, loop, s4, 4, c);
      SetsEarlier(cfg, loop, s3, 5, c);
      SetsEarlier(cfg, loop, s2, 6, c);
      SetsEarlier(cfg, loop, s1, 7, c);
      SetsEarlier(cfg, loop, s, 8, c);
    }
  }

  /** The macro advances mtimecmp by the increment, modulo 2^64, with no intermediate value ever compared,
      if and only if no high half is pending when it starts. */
  lemma AdvancesCompare(cfg: Config, loop: Loop, s: State, upper: Word, lower: Word, inc: Word)
    requires Masked(s) && !(s.timer.cmpLo && s.timer.cmpHi) && s.timer.mtimecmp < WORD * WORD
    requires Runs(cfg, loop, s, UpdateCompareRegister(upper, lower))
    requires Memory.Load(cfg.checked, s.mem, ((s.pc + upper) % WORD + lower) % WORD, 4) == Some(inc)
    ensures Sets(cfg, loop, s, 9, (s.timer.mtimecmp + inc) % (WORD * WORD)) <==> !s.timer.cmpHi
  {
    hide Sets; hide Runs; hide Masked; hide Memory.Load; hide Steps.Run;
    var t := ComputesSum(cfg, loop, s, upper, lower, inc);
    AddWithCarry(s.timer.mtimecmp, inc);
    WriteMtimecmp(cfg, loop, t, T1, T2);
  }
}
