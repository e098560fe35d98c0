/** The execution loops on a CPU with decode caches, and the debugger's variant of them. */
module CachedRuns {
  import opened PyInt
  import opened Memory
  import opened Isa
  import opened Rvc
  import opened Cache
  import opened Steps

  function CachedExecute(cfg: Config, s: State, c: Caches, f: Fetched): (Effect, Caches) {
    match f
    case NoInst => (Effect(s, Fault), c)
    case Word32(w) => CachedExecute32(cfg, s, c, w)
    case Half16(h) => CachedExecute16(cfg, s, c, h)
  }

  function FinishWith(ticks: bool, r: (Effect, Caches)): (Effect, Caches) { (Finish(ticks, r.0), r.1) }

  function CachedStep(cfg: Config, loop: Loop, s: State, c: Caches): (Effect, Caches) {
    if !Checked(loop, s) then (Effect(s, Violation), c)
    else FinishWith(loop.Ticks(), CachedExecute(cfg, s, c, Fetch(cfg, loop, s)))
  }

  function CachedRun(cfg: Config, loop: Loop, s: State, c: Caches, n: nat): (Effect, Caches)
    decreases n
  {
    if n == 0 then (Go(s), c)
    else
      var (e, c') := CachedStep(cfg, loop, s, c);
      if e.halt == Running then CachedRun(cfg, loop, e.s, c', n - 1) else (e, c')
  }

  // ----- The low bits of an instruction -----

  lemma OddWord(n: nat)
    requires n < WORD
    ensures OfWord(n) & 1 == if n % 2 == 1 then 1 else 0
  {
  }

  lemma SecondBit(n: nat)
    requires n < WORD
    ensures OfWord(n) & 2 == if n / 2 % 2 == 1 then 2 else 0
  {
  }

  lemma LowPair(w: bv32)
    requires w & 1 == 1 && w & 2 == 2
    ensures EndsIn11(w)
  {
  }

  lemma LastTwo(n: nat)
    requires n % 4 == 3
    ensures n % 2 == 1 && n / 2 % 2 == 1
  {
    var q := n / 4;
    EuclidUnique(n, 2, 2 * q + 1, 1);
    EuclidUnique(n / 2, 2, q, 1);
  }

  lemma WideWord(n: nat)
    requires n < WORD && n % 4 == 3
    ensures EndsIn11(OfWord(n))
  {
    hide OfWord; hide EndsIn11;
    LastTwo(n);
    OddWord(n);
    SecondBit(n);
    LowPair(OfWord(n));
  }

  // ----- Runs with caches are runs -----

  predicate WideHere(cfg: Config, loop: Loop, s: State) {
    var f := Fetch(cfg, loop, s); f.Word32? ==> EndsIn11(f.w)
  }

  /** Every 32-bit word that the run executes ends in 0b11. */
  predicate Distinct(cfg: Config, loop: Loop, s: State, n: nat)
    decreases n
  {
    n == 0 || (WideHere(cfg, loop, s) &&
      var e := Step(cfg, loop, s); e.halt == Running ==> Distinct(cfg, loop, e.s, n - 1))
  }

  /** That is so whenever the loop itself tells 16-bit instructions from 32-bit ones. */
  lemma {:induction false} SortsAreDistinct(cfg: Config, loop: Loop, s: State, n: nat)
    requires !loop.RunFastNoRvc? && (loop.RunWithChecks? ==> cfg.rvc)
    ensures Distinct(cfg, loop, s, n)
    decreases n
  {
    hide Step; hide WideHere;
    if n > 0 {
      SortsWide(cfg, loop, s);
      var e := Step(cfg, loop, s);
      if e.halt == Running { SortsAreDistinct(cfg, loop, e.s, n - 1); }
    }
  }

  lemma SortsWide(cfg: Config, loop: Loop, s: State)
    requires !loop.RunFastNoRvc? && (loop.RunWithChecks? ==> cfg.rvc)
    ensures WideHere(cfg, loop, s)
  {
    hide OfWord; hide OfHalf; hide EndsIn11;
    forall n: nat | n < WORD && n % 4 == 3 ensures EndsIn11(OfWord(n)) { WideWord(n); }
    if Fits(cfg.checked, s.mem, s.pc, 2) { HalfRange(s.mem, s.pc); }
    if Fits(cfg.checked, s.mem, s.pc + 2, 2) { HalfRange(s.mem, s.pc + 2); }
  }

  lemma StepIsStep(cfg: Config, loop: Loop, s: State, c: Caches)
    requires Coherent(c, EndsIn11) && WideHere(cfg, loop, s)
    ensures var (e, c') := CachedStep(cfg, loop, s, c); e == Step(cfg, loop, s) && Coherent(c', EndsIn11)
  {
    hide CachedExecute32; hide CachedExecute16; hide Isa.Execute32; hide Rvc.Execute16; hide Harmless;
    hide NarrowCoherent; hide WideKey; hide Isa.Decode; hide Isa.Split;
    hide Fetch; hide Finish; hide EndsIn11;
    EndsIn11Harmless();
    match Fetch(cfg, loop, s)
    case NoInst =>
    case Word32(w) => WideStep(cfg, s, c, w, EndsIn11);
    case Half16(h) => NarrowStep(cfg, s, c, h);
  }

  lemma {:induction false} CachedRunIsRun(cfg: Config, loop: Loop, s: State, c: Caches, n: nat)
    requires Coherent(c, EndsIn11) && Distinct(cfg, loop, s, n)
    ensures var (e, c') := CachedRun(cfg, loop, s, c, n); e == Run(cfg, loop, s, n) && Coherent(c', EndsIn11)
    decreases n
  {
    hide CachedStep; hide Step; hide Coherent; hide WideHere;
    if n > 0 {
      StepIsStep(cfg, loop, s, c);
      var (e, c') := CachedStep(cfg, loop, s, c);
      if e.halt == Running { CachedRunIsRun(cfg, loop, e.s, c', n - 1); }
    }
  }

  lemma BothWide(cfg: Config, loop: Loop, other: Loop, s: State)
    requires SameKind(loop, other) && Unremarkable(cfg, loop, other, s)
    requires !cfg.rvc && loop.RunWithChecks? && other.RunWithChecks? ==> WideHere(cfg, loop, s)
    ensures WideHere(cfg, loop, s) && WideHere(cfg, other, s)
  {
    hide ByHalves; hide ByWord; hide EndsIn11; hide AtTheEdge;
    var free := cfg.(rvc := true);
    HalvesAnyway(cfg, s);
    SortsWide(free, loop, s);
    SortsWide(free, other, s);
  }

  /** What is fetched does not depend on RVC, only what is made of it. */
  lemma HalvesAnyway(cfg: Config, s: State)
    ensures var free := cfg.(rvc := true); ByHalves(free, s) == ByHalves(cfg, s) && ByWord(free, s) == ByWord(cfg, s)
  {
  }

  lemma {:induction false} BothDistinct(cfg: Config, loop: Loop, other: Loop, s: State, n: nat)
    requires SameKind(loop, other) && UnremarkableRun(cfg, loop, other, s, n)
    requires !cfg.rvc && loop.RunWithChecks? && other.RunWithChecks? ==> Distinct(cfg, loop, s, n)
    ensures Distinct(cfg, loop, s, n) && Distinct(cfg, other, s, n)
    decreases n
  {
    hide Step; hide Unremarkable; hide SameKind; hide WideHere;
    if n > 0 {
      BothWide(cfg, loop, other, s);
      StepsAgree(cfg, loop, other, s);
      var e := Step(cfg, loop, s);
      if e.halt == Running { BothDistinct(cfg, loop, other, e.s, n - 1); }
    }
  }

  /** So the loops agree with their caches, too, whatever the caches hold: two of them that widen 16-bit words, as
      `run_with_checks` does without RVC, where there are none to widen. */
  lemma CachedLoopsAgree(cfg: Config, loop: Loop, other: Loop, s: State, c: Caches, d: Caches, n: nat)
    requires SameKind(loop, other) && UnremarkableRun(cfg, loop, other, s, n)
    requires !cfg.rvc && loop.RunWithChecks? && other.RunWithChecks? ==> Distinct(cfg, loop, s, n)
    requires Coherent(c, EndsIn11) && Coherent(d, EndsIn11)
    ensures CachedRun(cfg, loop, s, c, n).0 == CachedRun(cfg, other, s, d, n).0
  {
    hide CachedRun; hide Run; hide Coherent; hide UnremarkableRun; hide Distinct; hide EndsIn11;
    BothDistinct(cfg, loop, other, s, n);
    CachedRunIsRun(cfg, loop, s, c, n);
    CachedRunIsRun(cfg, other, s, d, n);
    LoopsAgree(cfg, loop, other, s, n);
  }

  lemma EmptyCoherent()
    ensures Coherent(Caches(map[], map[]), EndsIn11)
  {
  }

  /** From reset, when the caches are empty, the loops that sort their instructions run as if there were no
      caches, over any number of steps and from any state. */
  lemma CachesAreInvisible(cfg: Config, loop: Loop, s: State, n: nat)
    requires !loop.RunFastNoRvc? && (loop.RunWithChecks? ==> cfg.rvc)
    ensures CachedRun(cfg, loop, s, Caches(map[], map[]), n).0 == Run(cfg, loop, s, n)
  {
    hide CachedRun; hide Run; hide Coherent; hide Distinct;
    EmptyCoherent();
    SortsAreDistinct(cfg, loop, s, n);
    CachedRunIsRun(cfg, loop, s, Caches(map[], map[]), n);
  }

  /** n steps and then m steps. */
  lemma {:induction false} CachedRunSplit(cfg: Config, loop: Loop, s: State, c: Caches, n: nat, m: nat)
    ensures var (e, c') := CachedRun(cfg, loop, s, c, n);
            CachedRun(cfg, loop, s, c, n + m) == if e.halt == Running then CachedRun(cfg, loop, e.s, c', m) else (e, c')
    decreases n
  {
    hide CachedStep;
    if n > 0 {
      var (e, c') := CachedStep(cfg, loop, s, c);
      if e.halt == Running { CachedRunSplit(cfg, loop, e.s, c', n - 1, m); }
    }
  }

  // ----- Running under the debugger -----

  /** Why the debugger's loop stops: it has not yet, there is a breakpoint at pc, Ctrl+C, an exception, or a
      single step is complete. */
  datatype Stop = NotYet | Breakpoint | Interrupted | Exception | StepDone

  /** The interrupt is polled every 4096 cycles. */
  predicate Polled(poll: nat -> bool, cycle: nat) { cycle % 0x1000 == 0 && poll(cycle) }

  /** Up to n iterations of the continue loop, after `cycle` of them. `poll` says whether Ctrl+C has arrived. */
  function Continue(cfg: Config, timed: bool, s: State, c: Caches, at: set<nat>, poll: nat -> bool, cycle: nat, n: nat)
      : ((Effect, Caches), Stop)
    decreases n
  {
    if n == 0 then ((Go(s), c), NotYet)
    else if s.pc in at then ((Go(s), c), Breakpoint)
    else if Polled(poll, cycle + 1) then ((Go(s), c), Interrupted)
    else
      var (e, c') := CachedStep(cfg, RunWithGdb(timed), s, c);
      if e.halt == Running then Continue(cfg, timed, e.s, c', at, poll, cycle + 1, n - 1) else ((e, c'), Exception)
  }

  /** How many instructions that executes. */
  function Executed(cfg: Config, timed: bool, s: State, c: Caches, at: set<nat>, poll: nat -> bool, cycle: nat,
      n: nat): nat
    decreases n
  {
    if n == 0 || s.pc in at || Polled(poll, cycle + 1) then 0
    else
      var (e, c') := CachedStep(cfg, RunWithGdb(timed), s, c);
      1 + if e.halt == Running then Executed(cfg, timed, e.s, c', at, poll, cycle + 1, n - 1) else 0
  }

  /** No instruction at a breakpoint is among the first k to be executed. */
  ghost predicate Avoids(cfg: Config, loop: Loop, s: State, c: Caches, at: set<nat>, k: nat) {
    forall j | 0 <= j < k :: var e := CachedRun(cfg, loop, s, c, j).0; e.halt == Running && e.s.pc !in at
  }

  /** Ctrl+C has arrived by none of the cycles after `cycle`, up to `last`, in which the loop looks for it. */
  ghost predicate NoInterrupt(poll: nat -> bool, cycle: nat, last: nat) {
    forall m: nat | cycle < m <= last && m % 4096 == 0 :: !poll(m)
  }

  /** What `r` is, seen from the run without a debugger, if k instructions have been executed after `cycle` cycles. */
  ghost predicate DebugRun(cfg: Config, loop: Loop, s: State, c: Caches, at: set<nat>, poll: nat -> bool, cycle: nat,
                           k: nat, n: nat, r: ((Effect, Caches), Stop)) {
    && k <= n && Avoids(cfg, loop, s, c, at, k) && r.0 == CachedRun(cfg, loop, s, c, k)
    && NoInterrupt(poll, cycle, cycle + k)
    && match r.1
       case NotYet => k == n && r.0.0.halt == Running
       case Breakpoint => k < n && r.0.0.halt == Running && r.0.0.s.pc in at
       case Interrupted =>
         && k < n && r.0.0.halt == Running && r.0.0.s.pc !in at
         && (cycle + k + 1) % 4096 == 0 && poll(cycle + k + 1)
       case Exception => r.0.0.halt != Running
       case StepDone => false
  }

  /** Debug-run safety: the continue loop does exactly what the run without debugger does, up to the first
      breakpoint that this run reaches, an interrupt or an exception, and never executes an instruction at
      a breakpoint. */
  lemma {:induction false} ContinueIsRun(cfg: Config, timed: bool, s: State, c: Caches, at: set<nat>,
      poll: nat -> bool, cycle: nat, n: nat)
    ensures DebugRun(cfg, RunWithGdb(timed), s, c, at, poll, cycle, Executed(cfg, timed, s, c, at, poll, cycle, n), n,
                     Continue(cfg, timed, s, c, at, poll, cycle, n))
    decreases n
  {
    hide CachedStep; hide Polled; hide NoInterrupt; hide Avoids;
    var loop := RunWithGdb(timed);
    NothingYet(cfg, loop, s, c, at, poll, cycle);
    if n > 0 && s.pc !in at && !Polled(poll, cycle + 1) {
      var (e, c') := CachedStep(cfg, loop, s, c);
      RunAfterStep(cfg, loop, s, c);
      if e.halt == Running {
        ContinueIsRun(cfg, timed, e.s, c', at, poll, cycle + 1, n - 1);
        AvoidsEarlier(cfg, loop, s, c, at, Executed(cfg, timed, e.s, c', at, poll, cycle + 1, n - 1));
        NoneEarlier(poll, cycle, cycle + 1 + Executed(cfg, timed, e.s, c', at, poll, cycle + 1, n - 1));
      } else {
        OneAvoided(cfg, loop, s, c, at);
        NoneEarlier(poll, cycle, cycle + 1);
      }
    }
  }

  lemma NothingYet(cfg: Config, loop: Loop, s: State, c: Caches, at: set<nat>, poll: nat -> bool, cycle: nat)
    ensures Avoids(cfg, loop, s, c, at, 0) && NoInterrupt(poll, cycle, cycle)
    ensures CachedRun(cfg, loop, s, c, 0) == (Go(s), c)
    ensures Polled(poll, cycle + 1) <==> (cycle + 1) % 4096 == 0 && poll(cycle + 1)
  {
  }

  lemma OneAvoided(cfg: Config, loop: Loop, s: State, c: Caches, at: set<nat>)
    requires s.pc !in at
    ensures Avoids(cfg, loop, s, c, at, 1)
  {
    assert CachedRun(cfg, loop, s, c, 0) == (Go(s), c);
  }

  lemma NoneEarlier(poll: nat -> bool, cycle: nat, last: nat)
    requires !Polled(poll, cycle + 1) && (cycle + 1 < last ==> NoInterrupt(poll, cycle + 1, last))
    ensures NoInterrupt(poll, cycle, last)
  {
  }

  /** So without Ctrl+C the continue loop is the run up to the first breakpoint that it reaches, an exception or n
      steps. */
  lemma NeverInterrupted(cfg: Config, timed: bool, s: State, c: Caches, at: set<nat>, poll: nat -> bool, cycle: nat,
      n: nat)
    requires forall m :: !poll(m)
    ensures var k, r := Executed(cfg, timed, s, c, at, poll, cycle, n), Continue(cfg, timed, s, c, at, poll, cycle, n);
            && k <= n && r.0 == CachedRun(cfg, RunWithGdb(timed), s, c, k)
            && Avoids(cfg, RunWithGdb(timed), s, c, at, k)
            && (r.0.0.halt != Running || k == n || r.0.0.s.pc in at)
  {
    hide CachedRun; hide Continue; hide Executed; hide Avoids;
    ContinueIsRun(cfg, timed, s, c, at, poll, cycle, n);
  }

  lemma RunAfterStep(cfg: Config, loop: Loop, s: State, c: Caches)
    ensures var (e, c') := CachedStep(cfg, loop, s, c);
            if e.halt == Running
            then forall j: nat :: CachedRun(cfg, loop, s, c, j + 1) == CachedRun(cfg, loop, e.s, c', j)
            else CachedRun(cfg, loop, s, c, 1) == (e, c')
  {
    hide CachedStep;
  }

  lemma AvoidsEarlier(cfg: Config, loop: Loop, s: State, c: Caches, at: set<nat>, k: nat)
    requires s.pc !in at
    requires var (e, c') := CachedStep(cfg, loop, s, c); e.halt == Running && Avoids(cfg, loop, e.s, c', at, k)
    ensures Avoids(cfg, loop, s, c, at, k + 1)
  {
    hide CachedStep;
    RunAfterStep(cfg, loop, s, c);
    var (e, c') := CachedStep(cfg, loop, s, c);
    forall j | 0 <= j < k + 1
      ensures var r := CachedRun(cfg, loop, s, c, j).0; r.halt == Running && r.s.pc !in at
    {
      if j > 0 { assert CachedRun(cfg, loop, s, c, (j - 1) + 1) == CachedRun(cfg, loop, e.s, c', j - 1); }
    }
  }

  /** n single steps, each from where the one before has stopped. */
  function SingleSteps(cfg: Config, timed: bool, s: State, c: Caches, n: nat): (Effect, Caches)
    decreases n
  {
    if n == 0 then (Go(s), c)
    else
      var (e, c') := SingleSteps(cfg, timed, s, c, n - 1);
      if e.halt == Running then CachedStep(cfg, RunWithGdb(timed), e.s, c') else (e, c')
  }

  lemma {:induction false} SingleStepsAreRun(cfg: Config, timed: bool, s: State, c: Caches, n: nat)
    ensures SingleSteps(cfg, timed, s, c, n) == CachedRun(cfg, RunWithGdb(timed), s, c, n)
    decreases n
  {
    hide CachedStep;
    if n > 0 {
      var loop := RunWithGdb(timed);
      SingleStepsAreRun(cfg, timed, s, c, n - 1);
      CachedRunSplit(cfg, loop, s, c, n - 1, 1);
      var (e, c') := CachedRun(cfg, loop, s, c, n - 1);
      if e.halt == Running { RunOnce(cfg, loop, e.s, c'); }
    }
  }

  lemma RunOnce(cfg: Config, loop: Loop, s: State, c: Caches)
    ensures CachedRun(cfg, loop, s, c, 1) == CachedStep(cfg, loop, s, c)
  {
    hide CachedStep;
    RunAfterStep(cfg, loop, s, c);
    var (e, c') := CachedStep(cfg, loop, s, c);
    if e.halt == Running { assert CachedRun(cfg, loop, s, c, 0 + 1) == CachedRun(cfg, loop, e.s, c', 0); }
  }

  /** n iterations of the continue loop without breakpoint or interrupt are n single steps. */
  lemma SteppingIsContinuing(cfg: Config, timed: bool, s: State, c: Caches, at: set<nat>, poll: nat -> bool,
      cycle: nat, n: nat)
    requires Continue(cfg, timed, s, c, at, poll, cycle, n).1 == NotYet
    ensures Continue(cfg, timed, s, c, at, poll, cycle, n).0 == SingleSteps(cfg, timed, s, c, n)
  {
    hide Continue; hide SingleSteps;
    ContinueIsRun(cfg, timed, s, c, at, poll, cycle, n);
    SingleStepsAreRun(cfg, timed, s, c, n);
  }
}
