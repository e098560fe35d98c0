/** The timer CSRs over whole runs of the machine. */
module TimerRuns {
  import opened PyInt
  import opened Memory
  import opened Isa
  import opened Rvc
  import opened Steps
  import opened Clock
  import Traps

  /** CSRs 0x7C0 and 0x7C1 are a latch on mtime, 0x7C2 and 0x7C3 one on mtimecmp. */
  datatype Register = MTIME | MTIMECMP

  function LowOf(r: Register): CsrIndex { if r == MTIME then TIME_LO else CMP_LO }

  function HighOf(r: Register): CsrIndex { if r == MTIME then TIME_HI else CMP_HI }

  function LatchOf(r: Register, s: State): Latch {
    match r
    case MTIME => Latch(s.csr[TIME_LO], s.csr[TIME_HI], s.timer.timeLo, s.timer.timeHi, s.timer.mtime)
    case MTIMECMP => Latch(s.csr[CMP_LO], s.csr[CMP_HI], s.timer.cmpLo, s.timer.cmpHi, s.timer.mtimecmp)
  }

  /** The half-write that an instruction makes, if any. */
  function HalfWrites(r: Register, s: State, i: Instr): seq<Event> {
    if !i.Csr? || i.csrOp != RW then []
    else if i.csr == LowOf(r) then [Lo(CsrSource(s, i.rs1, i.immediate))]
    else if i.csr == HighOf(r) then [Hi(CsrSource(s, i.rs1, i.immediate))]
    else []
  }

  /** CSRRS and CSRRC change a half without counting as a write of it. That matters if the half is pending,
      and really changes. */
  predicate Alters(s: State, i: Instr, n: CsrIndex, pending: bool) {
    && pending && i.Csr? && i.csr == n && i.csrOp != RW
    && CsrSource(s, i.rs1, i.immediate) != 0
    && NewCsr(i.csrOp, n, s.csr[n], CsrSource(s, i.rs1, i.immediate)) != s.csr[n]
  }

  predicate Meddles(r: Register, s: State, i: Instr) {
    Alters(s, i, LowOf(r), LatchOf(r, s).loSet) || Alters(s, i, HighOf(r), LatchOf(r, s).hiSet)
  }

  // ----- One instruction -----

  lemma WritesAreWrites(r: Register, s: State, n: CsrIndex, prior: Word, src: Word)
    ensures var s' := WriteCsr(s, RW, n, prior, src);
            LatchOf(r, s') == (if n == LowOf(r) || n == HighOf(r)
                               then WriteHalf(LatchOf(r, s), n == LowOf(r), src) else LatchOf(r, s))
  {
    hide Isa.On;
  }

  /** CSRRS and CSRRC leave a latch alone, dead halves apart, exactly if they do not meddle. */
  lemma SetsAndClears(r: Register, s: State, i: Instr)
    requires i.Csr? && i.csrOp != RW
    ensures var s' := WriteCsr(s, i.csrOp, i.csr, s.csr[i.csr], CsrSource(s, i.rs1, i.immediate));
            SameLive(LatchOf(r, s'), LatchOf(r, s)) <==> !Meddles(r, s, i)
  {
    hide Isa.On; hide Isa.NewCsr;
  }

  lemma One(l: Latch, e: Event)
    ensures Play(l, [e]) == Happen(l, e) && Play(l, []) == l
  {
  }

  /** An instruction does to a latch what its half-writes do, exactly if it does not meddle. */
  predicate Follows(r: Register, s: State, i: Instr, e: Effect) {
    e.halt == Running ==>
      (SameLive(LatchOf(r, e.s), Play(LatchOf(r, s), HalfWrites(r, s, i))) <==> !Meddles(r, s, i))
  }

  lemma SetOrClearFollows(r: Register, s: State, i: Instr)
    requires i.Csr? && i.csrOp != RW
    ensures Follows(r, s, i, Go(WriteCsr(s, i.csrOp, i.csr, s.csr[i.csr], CsrSource(s, i.rs1, i.immediate))))
  {
    hide Isa.WriteCsr; hide Clock.Play; hide LatchOf; hide Meddles; hide Clock.SameLive;
    SetsAndClears(r, s, i);
    One(LatchOf(r, s), Ticked);
  }

  lemma WriteFollows(r: Register, s: State, i: Instr)
    requires i.Csr? && i.csrOp == RW
    ensures Follows(r, s, i, Go(WriteCsr(s, RW, i.csr, s.csr[i.csr], CsrSource(s, i.rs1, i.immediate))))
  {
    hide Isa.WriteCsr; hide Clock.Play; hide Clock.WriteHalf; hide LatchOf;
    var src := CsrSource(s, i.rs1, i.immediate);
    WritesAreWrites(r, s, i.csr, s.csr[i.csr], src);
    One(LatchOf(r, s), Lo(src));
    One(LatchOf(r, s), Hi(src));
  }

  /** The trap on a read-only CSR does not matter here, nor does rd. */
  lemma CsrFollows(r: Register, s: State, i: Instr, raw: Word)
    requires i.Csr?
    ensures Follows(r, s, i, ExecCsr(s, i.csrOp, i.rd, CsrSource(s, i.rs1, i.immediate), i.csr, raw))
  {
    hide Isa.ReadBack;
    var src := CsrSource(s, i.rs1, i.immediate);
    if ReadOnly(i.csr) {
      ReadOnlyFollows(r, s, i, raw);
    } else {
      hide Isa.WriteCsr; hide Follows;
      if i.csrOp == RW { WriteFollows(r, s, i); } else { SetOrClearFollows(r, s, i); }
      var t := WriteCsr(s, i.csrOp, i.csr, s.csr[i.csr], src);
      RegisterFree(r, s, i, t, ExecCsr(s, i.csrOp, i.rd, src, i.csr, raw).s);
    }
  }

  /** Following is about the timer and its CSRs only. */
  lemma RegisterFree(r: Register, s: State, i: Instr, t: State, u: State)
    requires u.timer == t.timer && u.csr == t.csr
    ensures Follows(r, s, i, Go(t)) == Follows(r, s, i, Go(u))
  {
    hide Clock.Play; hide Clock.SameLive; hide Meddles;
  }

  lemma ReadOnlyFollows(r: Register, s: State, i: Instr, raw: Word)
    requires i.Csr? && ReadOnly(i.csr)
    ensures Follows(r, s, i, ExecCsr(s, i.csrOp, i.rd, CsrSource(s, i.rs1, i.immediate), i.csr, raw))
  {
    hide Isa.ExecCsr; hide Follows;
    var src := CsrSource(s, i.rs1, i.immediate);
    ReadOnlyUntouched(s, i.csrOp, i.rd, src, i.csr, raw);
    UntouchedFollows(r, s, i, ExecCsr(s, i.csrOp, i.rd, src, i.csr, raw));
  }

  lemma ReadOnlyUntouched(s: State, op: CsrOp, rd: Index, src: Word, n: CsrIndex, raw: Word)
    requires ReadOnly(n)
    ensures Untouched(s, ExecCsr(s, op, rd, src, n, raw))
  {
    hide Isa.EnterTrap; hide Isa.NewCsr; hide Isa.ReadBack; hide Isa.WriteTime; hide Isa.WriteCompare; hide Isa.On;
  }

  /** Everything else leaves the timer, its CSRs and mip alone. */
  predicate Untouched(s: State, e: Effect) {
    && e.s.timer == s.timer
    && forall n: CsrIndex | n in {TIME_LO, TIME_HI, CMP_LO, CMP_HI, MIP} :: e.s.csr[n] == s.csr[n]
  }

  lemma MemoryUntouched(cfg: Config, s: State, i: Instr, raw: Word, size: nat)
    requires i.Amo? || i.Store? || i.Load?
    ensures Untouched(s, Exec(cfg, s, i, raw, size))
  {
    hide Memory.Load; hide Memory.Store; hide Isa.EnterTrap; hide Isa.Combine; hide Isa.Loaded;
  }

  lemma SystemUntouched(cfg: Config, s: State, i: Instr, raw: Word, size: nat)
    requires i.Ecall? || i.Ebreak? || i.Mret?
    ensures Untouched(s, Exec(cfg, s, i, raw, size))
  {
    hide Isa.EnterTrap; hide Isa.LeaveTrap; hide Isa.On; hide Isa.StoreBlocks;
  }

  lemma OtherUntouched(cfg: Config, s: State, i: Instr, raw: Word, size: nat)
    requires !i.Csr?
    ensures Untouched(s, Exec(cfg, s, i, raw, size))
  {
    hide Isa.EnterTrap; hide Isa.Alu; hide Isa.Taken; hide Isa.Even;
    if i.Amo? || i.Store? || i.Load? { MemoryUntouched(cfg, s, i, raw, size); }
    else if i.Ecall? || i.Ebreak? || i.Mret? { SystemUntouched(cfg, s, i, raw, size); }
  }

  lemma UntouchedFollows(r: Register, s: State, i: Instr, e: Effect)
    requires (i.Csr? ==> ReadOnly(i.csr)) && Untouched(s, e)
    ensures Follows(r, s, i, e)
  {
    hide Clock.Play; hide Isa.NewCsr;
    One(LatchOf(r, s), Ticked);
  }

  lemma ExecOnCsr(cfg: Config, s: State, i: Instr, raw: Word, size: nat)
    requires i.Csr?
    ensures Exec(cfg, s, i, raw, size) == ExecCsr(s, i.csrOp, i.rd, CsrSource(s, i.rs1, i.immediate), i.csr, raw)
  {
    hide Isa.ExecCsr;
  }

  lemma PerformFollows(cfg: Config, r: Register, s: State, i: Instr, raw: Word, size: nat)
    ensures Follows(r, s, i, Perform(cfg, s, i, raw, size))
  {
    hide Clock.Play; hide Isa.ExecCsr; hide Isa.Exec; hide Clock.SameLive; hide Isa.NewCsr;
    var s' := s.(nextPc := (s.pc + size) % WORD);
    if i.Csr? {
      CsrFollows(r, s', i, raw);
      ExecOnCsr(cfg, s', i, raw, size);
    } else {
      OtherUntouched(cfg, s', i, raw, size);
      UntouchedFollows(r, s', i, Exec(cfg, s', i, raw, size));
    }
  }

  /** What meddling does: the write of the other half commits another value than the halves written. */
  lemma MeddlingShows(cfg: Config, r: Register, s: State, i: Instr, raw: Word, size: nat, v: Word)
    requires Meddles(r, s, i) && !(LatchOf(r, s).loSet && LatchOf(r, s).hiSet)
    ensures var e := Exec(cfg, s, i, raw, size);
            var low := LatchOf(r, s).hiSet;
            e.halt == Running && WriteHalf(LatchOf(r, e.s), low, v).now != WriteHalf(LatchOf(r, s), low, v).now
  {
    hide Isa.NewCsr; hide Isa.ReadBack; hide Isa.On; hide Isa.Exec; hide Isa.Trap; hide Isa.WriteTime;
    hide Isa.WriteCompare;
    ExecOnCsr(cfg, s, i, raw, size);
  }

  // ----- Whole runs -----

  /** Only mtime counts. */
  function TickEvents(loop: Loop, r: Register): seq<Event> { if loop.Ticks() && r == MTIME then [Ticked] else [] }

  function StepEvents(cfg: Config, loop: Loop, r: Register, s: State): seq<Event> {
    match DecodeFetched(Fetch(cfg, loop, s))
    case Nothing => []
    case Decoded(i, _, _) => HalfWrites(r, s, i) + TickEvents(loop, r)
  }

  /** The half-writes of the register, and its ticks, in the first n steps. */
  function History(cfg: Config, loop: Loop, r: Register, s: State, n: nat): seq<Event>
    decreases n
  {
    if n == 0 then []
    else
      var e := Step(cfg, loop, s);
      StepEvents(cfg, loop, r, s) + if e.halt == Running then History(cfg, loop, r, e.s, n - 1) else []
  }

  predicate MeddlesHere(cfg: Config, loop: Loop, r: Register, s: State) {
    var d := DecodeFetched(Fetch(cfg, loop, s)); d.Decoded? && Meddles(r, s, d.i)
  }

  predicate NoMeddling(cfg: Config, loop: Loop, r: Register, s: State, n: nat)
    decreases n
  {
    n == 0 || (!MeddlesHere(cfg, loop, r, s) &&
      var e := Step(cfg, loop, s); e.halt == Running ==> NoMeddling(cfg, loop, r, e.s, n - 1))
  }

  lemma {:induction false} PlayBoth(l: Latch, a: seq<Event>, b: seq<Event>)
    ensures Play(l, a + b) == Play(Play(l, a), b)
    decreases |b|
  {
    if b == [] {
      assert a + b == a;
    } else {
      assert (a + b)[..|a + b| - 1] == a + b[..|b| - 1];
      PlayBoth(l, a, b[..|b| - 1]);
    }
  }

  lemma FinishTicks(loop: Loop, r: Register, e: Effect)
    requires Finish(loop.Ticks(), e).halt == Running
    ensures LatchOf(r, Finish(loop.Ticks(), e).s) == Play(LatchOf(r, e.s), TickEvents(loop, r))
  {
    hide Isa.On; hide Isa.Off; hide Isa.EnterTrap; hide PyInt.Bit;
    One(LatchOf(r, e.s), Ticked);
  }

  lemma StepFollows(cfg: Config, loop: Loop, r: Register, s: State)
    requires s.x[0] == 0 && Step(cfg, loop, s).halt == Running
    ensures SameLive(LatchOf(r, Step(cfg, loop, s).s), Play(LatchOf(r, s), StepEvents(cfg, loop, r, s)))
            <==> !MeddlesHere(cfg, loop, r, s)
  {
    hide Isa.Perform; hide Steps.Execute; hide Steps.Fetch; hide Steps.DecodeFetched; hide Clock.Play; hide LatchOf;
    hide HalfWrites; hide Meddles; hide TickEvents; hide Clock.SameLive;
    var f := Fetch(cfg, loop, s);
    NothingFetched(cfg, s, f);
    hide Steps.Finish;
    FaultsStay(loop, Execute(cfg, s, f));
    if f != NoInst {
      var d := DecodeFetched(f);
      ExecuteDecoded(cfg, s, f);
      PerformFollows(cfg, r, s, d.i, d.raw, d.size);
      var t := Execute(cfg, s, f).s;
      FinishTicks(loop, r, Execute(cfg, s, f));
      TickLive(LatchOf(r, t), Play(LatchOf(r, s), HalfWrites(r, s, d.i)), loop, r);
      PlayBoth(LatchOf(r, s), HalfWrites(r, s, d.i), TickEvents(loop, r));
    }
  }

  lemma TickLive(a: Latch, b: Latch, loop: Loop, r: Register)
    ensures SameLive(Play(a, TickEvents(loop, r)), Play(b, TickEvents(loop, r))) <==> SameLive(a, b)
  {
    One(a, Ticked);
    One(b, Ticked);
  }

  lemma FaultsStay(loop: Loop, e: Effect)
    ensures e.halt != Running ==> Finish(loop.Ticks(), e) == e
  {
  }

  lemma {:induction false} RunFollows(cfg: Config, loop: Loop, r: Register, s: State, n: nat)
    requires s.x[0] == 0 && NoMeddling(cfg, loop, r, s, n) && Run(cfg, loop, s, n).halt == Running
    ensures SameLive(LatchOf(r, Run(cfg, loop, s, n).s), Play(LatchOf(r, s), History(cfg, loop, r, s, n)))
    decreases n
  {
    hide Steps.Step; hide StepEvents; hide MeddlesHere; hide LatchOf; hide Clock.Play;
    if n == 0 {
      One(LatchOf(r, s), Ticked);
    } else {
      hide Clock.SameLive;
      var e := Step(cfg, loop, s);
      ZeroStays(cfg, loop, s);
      StepFollows(cfg, loop, r, s);
      RunFollows(cfg, loop, r, e.s, n - 1);
      var rest := History(cfg, loop, r, e.s, n - 1);
      PlayLive(LatchOf(r, e.s), Play(LatchOf(r, s), StepEvents(cfg, loop, r, s)), rest);
      PlayBoth(LatchOf(r, s), StepEvents(cfg, loop, r, s), rest);
      LiveTrans(LatchOf(r, Run(cfg, loop, s, n).s), Play(LatchOf(r, e.s), rest),
                Play(LatchOf(r, s), History(cfg, loop, r, s, n)));
    }
  }

  /** Two-phase commit in any run: mtime and mtimecmp jump only at a CSRRW that completes a pair, to the latest
      halves written since the jump before, in either order, and otherwise mtime advances by one per tick and
      mtimecmp stays. Between instructions never both halves are pending. */
  lemma LawInRuns(cfg: Config, loop: Loop, r: Register, s: State, n: nat)
    requires s.x[0] == 0 && !LatchOf(r, s).loSet && !LatchOf(r, s).hiSet
    requires NoMeddling(cfg, loop, r, s, n) && Run(cfg, loop, s, n).halt == Running
    ensures Accounts(LatchOf(r, Run(cfg, loop, s, n).s), LatchOf(r, s).now, History(cfg, loop, r, s, n))
  {
    hide Steps.Run; hide History; hide NoMeddling; hide Clock.Accounts; hide LatchOf;
    RunFollows(cfg, loop, r, s, n);
    var h := History(cfg, loop, r, s, n);
    TwoPhaseCommit(LatchOf(r, s), h);
    AccountsUnique(LatchOf(r, Run(cfg, loop, s, n).s), Play(LatchOf(r, s), h), LatchOf(r, s).now, h);
  }

  /** And the condition is exact: where the law has held so far, it holds after one more step if and only if
      that step does not meddle. */
  lemma LawIsExact(cfg: Config, loop: Loop, r: Register, s: State, start: nat, h: seq<Event>)
    requires s.x[0] == 0 && Step(cfg, loop, s).halt == Running && Accounts(LatchOf(r, s), start, h)
    ensures Accounts(LatchOf(r, Step(cfg, loop, s).s), start, h + StepEvents(cfg, loop, r, s))
            <==> !MeddlesHere(cfg, loop, r, s)
  {
    hide Steps.Step; hide StepEvents; hide MeddlesHere; hide LatchOf; hide Clock.Play; hide Clock.Accounts;
    hide Clock.SameLive;
    var l, ev := LatchOf(r, s), StepEvents(cfg, loop, r, s);
    StepFollows(cfg, loop, r, s);
    AccountsMore(l, start, h, ev);
    AccountsUnique(LatchOf(r, Step(cfg, loop, s).s), Play(l, ev), start, h + ev);
  }

  // ----- The pending bit -----

  predicate Agrees(s: State) { Bit(s.csr[MIP], BIT_MTI) == 1 <==> s.timer.mtip }

  /** A timer CSR write that takes effect at once, because the other half is pending. */
  predicate Commits(s: State, n: CsrIndex) {
    match n
    case 0x7C0 => s.timer.timeHi
    case 0x7C1 => s.timer.timeLo
    case 0x7C2 => s.timer.cmpHi
    case 0x7C3 => s.timer.cmpLo
    case _ => false
  }

  /** A CSR instruction puts the old value of the CSR in rd, except a CSRRW that commits a timer register and
      changes the half it writes: it gets the new value. */
  lemma ReadsOldValue(cfg: Config, s: State, i: Instr, raw: Word, size: nat)
    requires i.Csr? && i.rd != 0 && !(s.timer.timeLo && s.timer.timeHi) && !(s.timer.cmpLo && s.timer.cmpHi)
    ensures var e := Exec(cfg, s, i, raw, size);
            var src, was := CsrSource(s, i.rs1, i.immediate), ReadBack(s.timer, i.csr, s.csr[i.csr]);
            e.halt == Running ==>
              (e.s.x[i.rd] == was <==> !(i.csrOp == RW && Commits(s, i.csr) && src != was))
  {
    hide Isa.EnterTrap; hide Isa.On; hide Isa.NewCsr; hide Isa.WriteTime; hide Isa.WriteCompare;
    if i.csr in {TIME_LO, TIME_HI, CMP_LO, CMP_HI} {
      hide Isa.ReadBack; hide Isa.Trap;
      ExecOnCsr(cfg, s, i, raw, size);
      CommitReads(s, i.csr, CsrSource(s, i.rs1, i.immediate));
    }
  }

  lemma CommitReads(s: State, n: CsrIndex, src: Word)
    requires n in {TIME_LO, TIME_HI, CMP_LO, CMP_HI}
    requires !(s.timer.timeLo && s.timer.timeHi) && !(s.timer.cmpLo && s.timer.cmpHi)
    ensures ReadBack(WriteCsr(s, RW, n, s.csr[n], src).timer, n, s.csr[n])
         == if Commits(s, n) then src else ReadBack(s.timer, n, s.csr[n])
  {
    hide Isa.On;
    JoinedHalves(s.csr[TIME_HI], src);
    JoinedHalves(src, s.csr[TIME_LO]);
    JoinedHalves(s.csr[CMP_HI], src);
    JoinedHalves(src, s.csr[CMP_LO]);
  }

  lemma JoinedHalves(hi: Word, lo: Word)
    ensures (hi * WORD + lo) % WORD == lo && (hi * WORD + lo) / WORD % WORD == hi
  {
    EuclidUnique(hi * WORD + lo, WORD, hi, lo);
  }

  /** The outcome of the comparison that a committing write of v to CSR n makes. */
  predicate Compared(s: State, n: CsrIndex, v: Word) {
    match n
    case 0x7C0 => s.csr[TIME_HI] * WORD + v >= s.timer.mtimecmp
    case 0x7C1 => v * WORD + s.csr[TIME_LO] >= s.timer.mtimecmp
    case 0x7C2 => s.timer.mtime >= s.csr[CMP_HI] * WORD + v
    case 0x7C3 => s.timer.mtime >= v * WORD + s.csr[CMP_LO]
    case _ => false
  }

  /** The instructions that part mip and mtip: a CSR instruction that puts another bit 7 in mip, and a CSRRW
      that commits a timer register and so changes the outcome of the comparison, which mip does not see. */
  predicate Parts(s: State, i: Instr) {
    i.Csr? &&
    var src := CsrSource(s, i.rs1, i.immediate);
    if i.csr == MIP then
      (i.csrOp == RW || src != 0) && (Bit(NewCsr(i.csrOp, MIP, s.csr[MIP], src), BIT_MTI) == 1) != s.timer.mtip
    else i.csrOp == RW && Commits(s, i.csr) && Compared(s, i.csr, src) != s.timer.mtip
  }

  lemma WriteAgrees(s: State, i: Instr)
    requires Agrees(s) && i.Csr?
    ensures Agrees(WriteCsr(s, i.csrOp, i.csr, s.csr[i.csr], CsrSource(s, i.rs1, i.immediate))) <==> !Parts(s, i)
  {
    hide PyInt.Bit; hide Isa.On; hide PyInt.Or; hide PyInt.And; hide PyInt.Not;
    if i.csr == MIP { hide Isa.NewCsr; hide Isa.WriteTime; hide Isa.WriteCompare; }
    else if i.csr == TIME_LO || i.csr == TIME_HI { hide Isa.WriteCompare; }
    else { hide Isa.WriteTime; }
  }

  /** No other instruction does: mip and mtip still agree after an instruction exactly if it does not part them. */
  lemma InstructionAgrees(cfg: Config, s: State, i: Instr, raw: Word, size: nat)
    requires Agrees(s)
    ensures var e := Perform(cfg, s, i, raw, size); e.halt == Running ==> (Agrees(e.s) <==> !Parts(s, i))
  {
    hide Isa.Exec; hide PyInt.Bit; hide Isa.WriteCsr; hide Isa.NewCsr;
    var s' := s.(nextPc := (s.pc + size) % WORD);
    if !i.Csr? {
      OtherUntouched(cfg, s', i, raw, size);
    } else {
      ExecOnCsr(cfg, s', i, raw, size);
      WriteAgrees(s', i);
      if ReadOnly(i.csr) {
        hide Isa.ExecCsr;
        ReadOnlyUntouched(s', i.csrOp, i.rd, CsrSource(s, i.rs1, i.immediate), i.csr, raw);
      }
    }
  }

  /** n timer updates, as long as none of them traps without a handler. */
  function Ticks(s: State, n: nat): State
    decreases n
  {
    if n == 0 then s else Ticks(Tick(s).s, n - 1)
  }

  /** Once mip is set and `mtip` is not, updates before mtimecmp leave it so. */
  lemma {:induction false} StaysApart(s: State, n: nat)
    requires Bit(s.csr[MIP], BIT_MTI) == 1 && !s.timer.mtip && s.timer.mtime + n <= s.timer.mtimecmp
    ensures Bit(Ticks(s, n).csr[MIP], BIT_MTI) == 1 && !Ticks(s, n).timer.mtip
    decreases n
  {
    hide PyInt.Bit; hide Isa.On; hide Isa.Off; hide Isa.Trap;
    if n > 0 { StaysApart(Tick(s).s, n - 1); }
  }

  /** A run in which they part: the interrupt is pending, the handler moves mtimecmp ahead through the CSRs,
      and mip stays set through every update until the new time has come. */
  lemma CompareWriteBreaks(s: State, v: Word, n: nat)
    requires Agrees(s) && s.timer.mtip && s.timer.cmpLo && !s.timer.cmpHi
    requires s.timer.mtime + n <= v * WORD + s.csr[CMP_LO] && s.timer.mtime < v * WORD + s.csr[CMP_LO]
    ensures var t := Ticks(WriteCsr(s, RW, CMP_HI, s.csr[CMP_HI], v), n);
            !t.timer.mtip && Bit(t.csr[MIP], BIT_MTI) == 1
  {
    hide PyInt.Bit; hide Isa.On; hide Isa.Off; hide Ticks;
    StaysApart(WriteCsr(s, RW, CMP_HI, s.csr[CMP_HI], v), n);
  }

  /** After the update mip and mtip both say whether the time had come. */
  lemma TickAgrees(s: State)
    requires Agrees(s)
    ensures var t := Tick(s); Agrees(t.s) && (t.s.timer.mtip <==> Traps.Due(s))
  {
    hide PyInt.Bit; hide PyInt.SetBit; hide PyInt.ClearBit; hide Isa.EnterTrap;
    BitUpdate(s.csr[MIP], BIT_MTI);
  }
}
