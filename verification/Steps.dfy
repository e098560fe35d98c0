/** The execution loops as step functions, and the sense in which they are one machine. */
module Steps {
  import opened PyInt
  import opened Memory
  import opened Isa
  import opened Rvc

  /** The loops of the emulator. `check` stands for the run-time checks of `run_with_checks`. */
  datatype Loop =
    | RunWithChecks(check: State -> bool, timed: bool)
    | RunFastNoRvc
    | RunFast
    | RunTimer
    | RunMmio(timed: bool)
    | RunWithGdb(timed: bool)
  {
    predicate Ticks() {
      match this
      case RunFastNoRvc => false
      case RunFast => false
      case RunTimer => true
      case RunWithChecks(_, timed) => timed
      case RunMmio(timed) => timed
      case RunWithGdb(timed) => timed
    }
  }

  datatype Fetched = NoInst | Word32(w: bv32) | Half16(h: bv16)

  function OfWord(n: nat): bv32
    requires n < WORD
  {
    n as bv32
  }

  function OfHalf(n: nat): bv16
    requires n < 0x10000
  {
    n as bv16
  }

  function Widen(h: bv16): bv32 { h as bv32 }

  function Classify(n: nat): Fetched
    requires n < WORD
  {
    if n % 4 == 3 then Word32(OfWord(n)) else Half16(OfHalf(n % 0x10000))
  }

  function ByWord(cfg: Config, s: State): Fetched {
    match Memory.Load(cfg.checked, s.mem, s.pc, 4)
    case None => NoInst
    case Some(n) => WordRange(s.mem, s.pc); Classify(n)
  }

  function ByHalves(cfg: Config, s: State): Fetched {
    match Memory.Load(cfg.checked, s.mem, s.pc, 2)
    case None => NoInst
    case Some(lo) =>
      HalfRange(s.mem, s.pc);
      if lo % 4 != 3 then Half16(OfHalf(lo))
      else match Memory.Load(cfg.checked, s.mem, s.pc + 2, 2)
           case None => NoInst
           case Some(hi) => HalfRange(s.mem, s.pc + 2); Word32(OfWord(lo + 0x10000 * hi))
  }

  lemma HalfRange(mem: Bytes, addr: nat)
    requires addr + 2 <= |mem|
    ensures Read(mem, addr, 2) < 0x10000
  {
    ReadRange(mem, addr, 2);
  }

  /** What the loop hands to the CPU. Without RVC support, `run_fast_no_rvc` takes whole words, and
      `run_with_checks` widens the half-word it has read. */
  function Fetch(cfg: Config, loop: Loop, s: State): Fetched {
    match loop
    case RunFastNoRvc =>
      (match Memory.Load(cfg.checked, s.mem, s.pc, 4)
       case None => NoInst
       case Some(n) => WordRange(s.mem, s.pc); Word32(OfWord(n)))
    case RunWithChecks(_, _) =>
      var f := ByHalves(cfg, s);
      if f.Half16? && !cfg.rvc then Word32(Widen(f.h)) else f
    case RunWithGdb(_) => ByHalves(cfg, s)
    case _ => ByWord(cfg, s)
  }

  function Execute(cfg: Config, s: State, f: Fetched): Effect {
    match f
    case NoInst => Effect(s, Fault)
    case Word32(w) => Execute32(cfg, s, w)
    case Half16(h) => Execute16(cfg, s, h)
  }

  /** The end of a step: the timer, if the loop has one, and the new pc. */
  function Finish(ticks: bool, e: Effect): Effect {
    var t := if e.halt == Running && ticks then Tick(e.s) else e;
    if t.halt == Running then Go(t.s.(pc := t.s.nextPc)) else t
  }

  predicate Checked(loop: Loop, s: State) { loop.RunWithChecks? ==> loop.check(s) }

  function Step(cfg: Config, loop: Loop, s: State): Effect {
    if !Checked(loop, s) then Effect(s, Violation)
    else Finish(loop.Ticks(), Execute(cfg, s, Fetch(cfg, loop, s)))
  }

  /** n iterations of the loop, fewer if an exception ends it. */
  function Run(cfg: Config, loop: Loop, s: State, n: nat): Effect
    decreases n
  {
    if n == 0 then Go(s)
    else
      var e := Step(cfg, loop, s);
      if e.halt == Running then Run(cfg, loop, e.s, n - 1) else e
  }

  /** n steps and then m steps. */
  lemma {:induction false} RunSplit(cfg: Config, loop: Loop, s: State, n: nat, m: nat)
    ensures var e := Run(cfg, loop, s, n);
            Run(cfg, loop, s, n + m) == if e.halt == Running then Run(cfg, loop, e.s, m) else e
    decreases n
  {
    hide Step;
    if n > 0 {
      var e := Step(cfg, loop, s);
      if e.halt == Running { RunSplit(cfg, loop, e.s, n - 1, m); }
    }
  }

  // ----- What was executed -----

  /** A fetched instruction, with its encoding as reported in mtval and its size. A 16-bit word that does
      not expand is an illegal instruction. */
  datatype Decoded = Nothing | Decoded(i: Instr, raw: Word, size: nat)

  function DecodeFetched(f: Fetched): Decoded {
    match f
    case NoInst => Nothing
    case Word32(w) => Decoded(Decode(Split(w), w), Val(w), 4)
    case Half16(h) =>
      (match Expand(h)
       case None => Decoded(Illegal, h as int, 2)
       case Some(w) => Decoded(Decode(Split(w), w), Val(w), 2))
  }

  /** The same, but that only the second has advanced nextPc when the run ends in a trap without handler. */
  predicate SameOutcome(e: Effect, p: Effect) {
    e.halt == p.halt && e.s == p.s.(nextPc := e.s.nextPc) && (e.halt == Running ==> e == p)
  }

  lemma TrapDecoded(cfg: Config, s: State, raw: Word)
    requires s.x[0] == 0
    ensures SameOutcome(Trap(s, 2, raw, true), Perform(cfg, s, Illegal, raw, 2))
  {
    hide Isa.EnterTrap; hide Isa.Alu;
    assert s.x[0 := 0] == s.x;
  }

  /** Executing what was fetched is performing what it decodes to. */
  lemma ExecuteDecoded(cfg: Config, s: State, f: Fetched)
    requires s.x[0] == 0 && f != NoInst
    ensures var d := DecodeFetched(f); SameOutcome(Execute(cfg, s, f), Perform(cfg, s, d.i, d.raw, d.size))
  {
    hide Rvc.Expand; hide Isa.Val; hide Isa.Decode; hide Isa.Split; hide Isa.Perform; hide Isa.Trap;
    if f.Half16? && Expand(f.h).None? { TrapDecoded(cfg, s, f.h as int); }
  }

  lemma NothingFetched(cfg: Config, s: State, f: Fetched)
    ensures f == NoInst ==> Execute(cfg, s, f).halt == Fault && DecodeFetched(f) == Nothing
    ensures f != NoInst ==> DecodeFetched(f).Decoded?
  {
    hide Rvc.Expand; hide Isa.Decode; hide Isa.Split; hide Isa.Val; hide Isa.Perform;
  }

  /** x0 stays zero. */
  lemma ExecuteKeepsZero(cfg: Config, s: State, f: Fetched)
    requires s.x[0] == 0
    ensures var e := Execute(cfg, s, f); e.halt == Running ==> e.s.x[0] == 0
  {
    hide Isa.Exec; hide DecodeFetched; hide Execute;
    NothingFetched(cfg, s, f);
    if f != NoInst { ExecuteDecoded(cfg, s, f); }
  }

  lemma ZeroStays(cfg: Config, loop: Loop, s: State)
    requires s.x[0] == 0
    ensures var e := Step(cfg, loop, s); e.halt == Running ==> e.s.x[0] == 0
  {
    hide Fetch; hide Execute; hide Isa.On; hide Isa.Off; hide Isa.EnterTrap; hide PyInt.Bit;
    ExecuteKeepsZero(cfg, s, Fetch(cfg, loop, s));
  }

  // ----- Word fetch against half-word fetch -----

  /** A 16-bit instruction in the last two bytes: the word fetch runs off the end of memory. */
  predicate AtTheEdge(cfg: Config, s: State) {
    && Fits(cfg.checked, s.mem, s.pc, 2) && !Fits(cfg.checked, s.mem, s.pc, 4)
    && Read(s.mem, s.pc, 2) % 4 != 3
  }

  /** The two ways to fetch give the same instruction, except there. */
  lemma FetchesAgree(cfg: Config, s: State)
    ensures ByWord(cfg, s) == ByHalves(cfg, s) <==> !AtTheEdge(cfg, s)
  {
    hide OfWord; hide OfHalf; hide Memory.Read;
    if Fits(cfg.checked, s.mem, s.pc, 4) {
      var n, lo, hi := Read(s.mem, s.pc, 4), Read(s.mem, s.pc, 2), Read(s.mem, s.pc + 2, 2);
      TwoHalves(s.mem, s.pc);
      HalfRange(s.mem, s.pc);
      LowHalf(lo, hi);
    }
  }

  lemma LowHalf(lo: nat, hi: nat)
    requires lo < 0x10000
    ensures (lo + 0x10000 * hi) % 0x10000 == lo && (lo + 0x10000 * hi) % 4 == lo % 4
  {
    EuclidUnique(lo + 0x10000 * hi, 0x10000, hi, lo);
    EuclidUnique(lo + 0x10000 * hi, 4, lo / 4 + 0x4000 * hi, lo % 4);
  }

  lemma TwoHalves(mem: Bytes, addr: nat)
    requires addr + 4 <= |mem|
    ensures Read(mem, addr, 4) == Read(mem, addr, 2) + 0x10000 * Read(mem, addr + 2, 2)
  {
    ReadSplit(mem, addr, 2, 2);
  }

  // ----- Loops that do the same -----

  /** Both with or both without the timer. */
  predicate SameKind(loop: Loop, other: Loop) {
    !loop.RunFastNoRvc? && !other.RunFastNoRvc? && loop.Ticks() == other.Ticks()
  }

  predicate FetchesHalves(loop: Loop) { loop.RunWithChecks? || loop.RunWithGdb? }

  /** Nothing else tells such loops apart but the run-time checks, a word fetch off the end of memory and, with
      RVC disabled, the width that `run_with_checks` gives to a 16-bit instruction. */
  predicate Unremarkable(cfg: Config, loop: Loop, other: Loop, s: State) {
    && Checked(loop, s) && Checked(other, s)
    && (FetchesHalves(loop) == FetchesHalves(other) || !AtTheEdge(cfg, s))
    && (cfg.rvc || loop.RunWithChecks? == other.RunWithChecks? || !ByHalves(cfg, s).Half16?)
  }

  /** Every state that the run goes through is unremarkable. */
  predicate UnremarkableRun(cfg: Config, loop: Loop, other: Loop, s: State, n: nat)
    decreases n
  {
    n == 0 || (Unremarkable(cfg, loop, other, s) &&
      var e := Step(cfg, loop, s); e.halt == Running ==> UnremarkableRun(cfg, loop, other, e.s, n - 1))
  }

  lemma StepsAgree(cfg: Config, loop: Loop, other: Loop, s: State)
    requires SameKind(loop, other) && Unremarkable(cfg, loop, other, s)
    ensures Step(cfg, loop, s) == Step(cfg, other, s)
  {
    hide ByWord; hide ByHalves; hide Finish; hide Execute; hide AtTheEdge;
    FetchesAgree(cfg, s);
  }

  /** n steps of any two loops lead to the same CPU and RAM state and the same exception, if any. */
  lemma {:induction false} LoopsAgree(cfg: Config, loop: Loop, other: Loop, s: State, n: nat)
    requires SameKind(loop, other) && UnremarkableRun(cfg, loop, other, s, n)
    ensures Run(cfg, loop, s, n) == Run(cfg, other, s, n)
    decreases n
  {
    hide Step; hide Unremarkable; hide SameKind;
    if n > 0 {
      StepsAgree(cfg, loop, other, s);
      var e := Step(cfg, loop, s);
      if e.halt == Running { LoopsAgree(cfg, loop, other, e.s, n - 1); }
    }
  }

  /** A run of `run_with_checks` in which the check fails after k steps ends there, with the state as it is. */
  lemma FailedCheckEnds(cfg: Config, check: State -> bool, timed: bool, s: State, k: nat, n: nat)
    requires k < n && Run(cfg, RunWithChecks(check, timed), s, k).halt == Running
    requires !check(Run(cfg, RunWithChecks(check, timed), s, k).s)
    ensures var loop := RunWithChecks(check, timed);
            Run(cfg, loop, s, n) == Effect(Run(cfg, loop, s, k).s, Violation)
  {
    hide Fetch; hide Execute; hide Finish;
    RunSplit(cfg, RunWithChecks(check, timed), s, k, n - k);
  }

  /** With RVC, and a check that never fails, its run is that of the debugger's loop. */
  lemma {:induction false} ChecksPass(cfg: Config, check: State -> bool, timed: bool, s: State, n: nat)
    requires cfg.rvc && forall t: State :: check(t)
    ensures Run(cfg, RunWithChecks(check, timed), s, n) == Run(cfg, RunWithGdb(timed), s, n)
    decreases n
  {
    hide ByHalves; hide Execute; hide Finish;
    if n > 0 {
      var e := Step(cfg, RunWithGdb(timed), s);
      assert Step(cfg, RunWithChecks(check, timed), s) == e;
      if e.halt == Running { ChecksPass(cfg, check, timed, e.s, n - 1); }
    }
  }

  /** Every instruction that the run fetches is a 32-bit one, and passes the checks of the other loop. */
  predicate WideRun(cfg: Config, other: Loop, s: State, n: nat)
    decreases n
  {
    n == 0 || (ByWord(cfg, s).Word32? && Checked(other, s) &&
      var e := Step(cfg, RunFastNoRvc, s); e.halt == Running ==> WideRun(cfg, other, e.s, n - 1))
  }

  lemma WideStepsAgree(cfg: Config, other: Loop, s: State)
    requires ByWord(cfg, s).Word32? && !other.Ticks() && Checked(other, s)
    ensures Step(cfg, RunFastNoRvc, s) == Step(cfg, other, s)
  {
    hide ByHalves; hide Finish; hide Execute; hide AtTheEdge; hide OfWord; hide OfHalf;
    FetchesAgree(cfg, s);
    WideNotAtTheEdge(cfg, s);
  }

  lemma WideNotAtTheEdge(cfg: Config, s: State)
    requires ByWord(cfg, s).Word32?
    ensures !AtTheEdge(cfg, s)
  {
    hide OfWord; hide OfHalf;
  }

  /** `run_fast_no_rvc` joins in when every word it fetches ends in 0b11, RVC enabled or not. */
  lemma {:induction false} FastNoRvcAgrees(cfg: Config, other: Loop, s: State, n: nat)
    requires !other.Ticks() && WideRun(cfg, other, s, n)
    ensures Run(cfg, RunFastNoRvc, s, n) == Run(cfg, other, s, n)
    decreases n
  {
    hide Step; hide ByWord; hide Checked;
    if n > 0 {
      WideStepsAgree(cfg, other, s);
      var e := Step(cfg, RunFastNoRvc, s);
      if e.halt == Running { FastNoRvcAgrees(cfg, other, e.s, n - 1); }
    }
  }

  // ----- Where they part -----

  lemma NotAnOpcode(f: Fields, w: bv32)
    requires f.opcode & 0x3 != 0x3
    ensures Decode(f, w) == Illegal
  {
    hide Isa.Num; hide Isa.Val; hide Isa.ImmI; hide Isa.ImmS; hide Isa.ImmB; hide Isa.ImmU; hide Isa.ImmJ;
  }

  lemma OpcodeBits(w: bv32)
    requires w & 0x3 != 0x3
    ensures Split(w).opcode & 0x3 != 0x3
  {
  }

  /** To `execute_32`, any word that does not end in 0b11 is an illegal instruction. */
  lemma NarrowIsIllegal(cfg: Config, s: State, w: bv32)
    requires w & 0x3 != 0x3 && s.csr[MTVEC] == 0
    ensures Execute32(cfg, s, w).halt == Terminated
  {
    hide Isa.Val; hide Isa.Decode; hide Isa.Split;
    OpcodeBits(w);
    NotAnOpcode(Split(w), w);
  }

  /** On such a word, `run_fast_no_rvc` ends the run; where it starts with a C.NOP, the others carry on. */
  lemma NarrowStepsDiffer(cfg: Config, s: State)
    requires Fits(cfg.checked, s.mem, s.pc, 4) && Read(s.mem, s.pc, 4) == 0x0001 && s.csr[MTVEC] == 0
    ensures Step(cfg, RunFastNoRvc, s).halt == Terminated
    ensures Step(cfg, RunFast, s).halt == Running
  {
    hide Isa.Execute32; hide Rvc.Execute16; hide Memory.Read;
    assert OfWord(1) & 0x3 != 0x3;
    NarrowIsIllegal(cfg, s, OfWord(1));
    CNopRuns(cfg, s);
  }

  lemma CNopRuns(cfg: Config, s: State)
    ensures Execute16(cfg, s, OfHalf(0x0001)).halt == Running
  {
    hide Isa.Val; hide Isa.Num; hide Isa.Exec; hide Isa.Split; hide Isa.Decode;
    assert OfHalf(0x0001) == 0x0001;
    CNopDecodes();
    AddiRuns(cfg, s.(nextPc := (s.pc + 2) % WORD));
  }

  lemma CNopDecodes()
    ensures Expand(0x0001) == Some(0x0000_0013)
    ensures Decode(Split(0x0000_0013), 0x0000_0013) == Imm(ADD, 0, 0, 0)
  {
  }

  lemma AddiRuns(cfg: Config, s: State)
    ensures forall raw, size :: Exec(cfg, s, Imm(ADD, 0, 0, 0), raw, size).halt == Running
  {
  }

  lemma ChecksReject(cfg: Config, s: State, check: State -> bool)
    requires !cfg.rvc && check(s) && Fits(cfg.checked, s.mem, s.pc, 2) && s.csr[MTVEC] == 0
    requires Read(s.mem, s.pc, 2) == 0x0001
    ensures Step(cfg, RunWithChecks(check, true), s).halt == Terminated
  {
    hide Isa.Execute32; hide Rvc.Execute16; hide Memory.Read;
    assert Widen(OfHalf(1)) & 0x3 != 0x3;
    NarrowIsIllegal(cfg, s, Widen(OfHalf(1)));
  }

  lemma TimerAccepts(cfg: Config, s: State)
    requires Fits(cfg.checked, s.mem, s.pc, 4) && Read(s.mem, s.pc, 4) % 0x10000 == 0x0001
    requires s.timer.mtime < s.timer.mtimecmp
    ensures Step(cfg, RunTimer, s).halt == Running
  {
    hide Isa.Execute32; hide Rvc.Execute16; hide Memory.Read; hide OfWord;
    WordRange(s.mem, s.pc);
    CNopRuns(cfg, s);
    CNopKeepsTimer(cfg, s);
  }

  /** With RVC disabled, `run_with_checks` rejects 16-bit instructions that `run_timer` executes. */
  lemma NoRvcLoopsDiffer(cfg: Config, s: State, check: State -> bool)
    requires !cfg.rvc && check(s) && Fits(cfg.checked, s.mem, s.pc, 4) && s.csr[MTVEC] == 0
    requires Read(s.mem, s.pc, 4) % 0x10000 == 0x0001 && s.timer.mtime < s.timer.mtimecmp
    ensures Step(cfg, RunWithChecks(check, true), s).halt == Terminated
    ensures Step(cfg, RunTimer, s).halt == Running
  {
    hide Step; hide Memory.Read;
    TwoHalves(s.mem, s.pc);
    HalfRange(s.mem, s.pc);
    ChecksReject(cfg, s, check);
    TimerAccepts(cfg, s);
  }

  lemma CNopKeepsTimer(cfg: Config, s: State)
    ensures Execute16(cfg, s, OfHalf(0x0001)).s.timer == s.timer
  {
    hide Isa.Val; hide Isa.Num; hide Isa.Split; hide Isa.Decode; hide Isa.Alu;
    assert OfHalf(0x0001) == 0x0001;
    CNopDecodes();
  }
}
