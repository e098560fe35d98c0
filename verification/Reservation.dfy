/** Load-reserved and store-conditional. */
module Reservation {
  import opened PyInt
  import opened Memory
  import opened Isa
  import opened Rvc
  import opened Steps

  /** The value a successful LR.W loads. */
  function LrValue(cfg: Config, s: State, i: Instr): Option<nat> {
    if i.Amo? && i.amo == LR && s.x[i.rs1] % 4 == 0 then Memory.Load(cfg.checked, s.mem, s.x[i.rs1], 4) else None
  }

  function Latest(v: Option<nat>, seen: nat): nat { if v.Some? then v.value else seen }

  /** If the reservation is valid, the reserved word still is what the last LR.W has `seen` there. */
  predicate Held(cfg: Config, s: State, seen: nat) {
    s.reserved ==> Memory.Load(cfg.checked, s.mem, s.reservedAddr, 4) == Some(seen)
  }

  /** The instruction is not an ECALL in which the host changes the reserved word. */
  predicate Spares(cfg: Config, s: State, i: Instr, size: nat) {
    i.Ecall? && s.reserved && s.csr[MTVEC] == 0 && cfg.host.Some? ==>
      var writes := cfg.host.value(s.(nextPc := (s.pc + size) % WORD)).writes;
      Memory.Load(cfg.checked, StoreBlocks(cfg.checked, s.mem, writes), s.reservedAddr, 4)
        == Memory.Load(cfg.checked, s.mem, s.reservedAddr, 4)
  }

  predicate HoldsAfter(cfg: Config, e: Effect, seen: nat) { e.halt == Running ==> Held(cfg, e.s, seen) }

  // ----- One instruction -----

  lemma StoreHolds(cfg: Config, s: State, addr: Word, size: nat, v: Word, seen: nat)
    ensures HoldsAfter(cfg, StoreTo(cfg, s, addr, size, v), seen)
  {
    hide Memory.Store; hide Memory.Load;
  }

  lemma AmoHolds(cfg: Config, s: State, op: AmoOp, rd: Index, rs1: Index, rs2: Index, raw: Word, seen: nat)
    requires Held(cfg, s, seen)
    ensures HoldsAfter(cfg, ExecAmo(cfg, s, op, rd, s.x[rs1], s.x[rs2], raw),
                       Latest(LrValue(cfg, s, Amo(op, rd, rs1, rs2)), seen))
  {
    hide Memory.Store; hide Memory.Load; hide Isa.Combine; hide Isa.EnterTrap;
  }

  lemma EcallHolds(cfg: Config, s: State, size: nat, seen: nat)
    requires Held(cfg, s, seen) && s.nextPc == (s.pc + size) % WORD
    ensures var e := ExecEcall(cfg, s); e.halt == Running ==> (Held(cfg, e.s, seen) <==> Spares(cfg, s, Ecall, size))
  {
    hide Memory.Load; hide Isa.StoreBlocks; hide Isa.EnterTrap; hide Isa.On;
  }

  lemma OtherHolds(cfg: Config, s: State, i: Instr, raw: Word, size: nat, seen: nat)
    requires Held(cfg, s, seen) && !i.Amo? && !i.Ecall? && !i.Store?
    ensures HoldsAfter(cfg, Exec(cfg, s, i, raw, size), seen)
  {
    hide Memory.Load; hide Isa.Alu; hide Isa.Taken; hide Isa.EnterTrap; hide Isa.LeaveTrap; hide Isa.On; hide Isa.Off;
    hide Isa.NewCsr; hide Isa.WriteTime; hide Isa.WriteCompare; hide Isa.ReadBack; hide Isa.Even; hide Isa.Loaded;
  }

  /** Every instruction keeps the property, except an ECALL in which the host changes the reserved word. */
  lemma PerformHolds(cfg: Config, s: State, i: Instr, raw: Word, size: nat, seen: nat)
    requires Held(cfg, s, seen)
    ensures var e := Perform(cfg, s, i, raw, size);
            e.halt == Running ==> (Held(cfg, e.s, Latest(LrValue(cfg, s, i), seen)) <==> Spares(cfg, s, i, size))
  {
    hide Memory.Load; hide Isa.ExecAmo; hide Isa.ExecEcall; hide Isa.StoreTo; hide Isa.StoreBlocks;
    var s' := s.(nextPc := (s.pc + size) % WORD);
    if i.Amo? { AmoHolds(cfg, s', i.amo, i.rd, i.rs1, i.rs2, raw, seen); }
    else if i.Ecall? { EcallHolds(cfg, s', size, seen); }
    else if i.Store? { StoreHolds(cfg, s', (s.x[i.rs1] + i.imm) % WORD, i.size, s.x[i.rs2], seen); }
    else { hide Isa.Exec; OtherHolds(cfg, s', i, raw, size, seen); }
  }

  // ----- Whole runs -----

  /** What the last LR.W has seen after a step from `s`. */
  function SeenAfter(cfg: Config, loop: Loop, s: State, seen: nat): nat {
    match DecodeFetched(Fetch(cfg, loop, s))
    case Nothing => seen
    case Decoded(i, _, _) => Latest(LrValue(cfg, s, i), seen)
  }

  function SeenInRun(cfg: Config, loop: Loop, s: State, seen: nat, n: nat): nat
    decreases n
  {
    if n == 0 then seen
    else
      var e := Step(cfg, loop, s);
      var now := SeenAfter(cfg, loop, s, seen);
      if e.halt == Running then SeenInRun(cfg, loop, e.s, now, n - 1) else now
  }

  lemma FinishHolds(cfg: Config, ticks: bool, e: Effect, seen: nat)
    requires Finish(ticks, e).halt == Running
    ensures e.halt == Running && (Held(cfg, Finish(ticks, e).s, seen) <==> Held(cfg, e.s, seen))
  {
    hide Memory.Load; hide Isa.On; hide Isa.Off; hide Isa.EnterTrap; hide PyInt.Bit;
  }

  predicate SparesHere(cfg: Config, loop: Loop, s: State) {
    match DecodeFetched(Fetch(cfg, loop, s))
    case Nothing => true
    case Decoded(i, _, size) => Spares(cfg, s, i, size)
  }

  /** No system call of the first n steps changes the word that is reserved then. */
  predicate SparesThroughout(cfg: Config, loop: Loop, s: State, n: nat)
    decreases n
  {
    n == 0 || (SparesHere(cfg, loop, s) &&
      var e := Step(cfg, loop, s); e.halt == Running ==> SparesThroughout(cfg, loop, e.s, n - 1))
  }

  /** The condition is exact: a step keeps the property if and only if it is not such a system call. */
  lemma StepHolds(cfg: Config, loop: Loop, s: State, seen: nat)
    requires Held(cfg, s, seen) && s.x[0] == 0
    ensures var e := Step(cfg, loop, s);
            e.halt == Running ==> (Held(cfg, e.s, SeenAfter(cfg, loop, s, seen)) <==> SparesHere(cfg, loop, s))
  {
    hide Held; hide Isa.Perform; hide Steps.Execute; hide Steps.Fetch; hide Steps.Finish; hide Steps.DecodeFetched;
    hide LrValue; hide Spares;
    var f := Fetch(cfg, loop, s);
    NothingFetched(cfg, s, f);
    if Step(cfg, loop, s).halt == Running {
      FinishHolds(cfg, loop.Ticks(), Execute(cfg, s, f), SeenAfter(cfg, loop, s, seen));
      ExecuteDecoded(cfg, s, f);
      var d := DecodeFetched(f);
      PerformHolds(cfg, s, d.i, d.raw, d.size, seen);
    }
  }

  /** LR/SC safety: in every run of every loop, over any interleaving of loads, stores, AMOs, failed SCs,
      traps, interrupts and system calls, a valid reservation means an unchanged word, as long as no system
      call of the run changes the word while it is reserved. */
  lemma {:induction false} ReservationHolds(cfg: Config, loop: Loop, s: State, seen: nat, n: nat)
    requires Held(cfg, s, seen) && SparesThroughout(cfg, loop, s, n) && s.x[0] == 0
    ensures HoldsAfter(cfg, Run(cfg, loop, s, n), SeenInRun(cfg, loop, s, seen, n))
    decreases n
  {
    hide Held; hide Steps.Step; hide SeenAfter; hide SparesHere;
    if n > 0 {
      StepHolds(cfg, loop, s, seen);
      ZeroStays(cfg, loop, s);
      var e := Step(cfg, loop, s);
      if e.halt == Running { ReservationHolds(cfg, loop, e.s, SeenAfter(cfg, loop, s, seen), n - 1); }
    }
  }

  /** So whenever an SC.W succeeds, at any point of any such run that starts without a reservation, the word
      it overwrites is the one that the last LR.W returned. */
  lemma SuccessfulStoreConditional(cfg: Config, loop: Loop, s: State, n: nat, i: Instr, raw: Word)
    requires SparesThroughout(cfg, loop, s, n) && s.x[0] == 0 && !s.reserved
    requires i.Amo? && i.amo == SC && i.rd != 0
    requires var e := Run(cfg, loop, s, n);
             e.halt == Running && e.s.x[i.rs1] % 4 == 0 &&
             var f := Exec(cfg, e.s, i, raw, 4); f.halt == Running && f.s.x[i.rd] == 0
    ensures var t := Run(cfg, loop, s, n).s;
            Memory.Load(cfg.checked, t.mem, t.x[i.rs1], 4) == Some(SeenInRun(cfg, loop, s, 0, n))
  {
    hide Steps.Run; hide SeenInRun; hide SparesThroughout; hide Memory.Load; hide Memory.Store;
    ReservationHolds(cfg, loop, s, 0, n);
  }

  /** An SC.W leaves a reservation if and only if there was one, for another address: the case in which it
      fails and stores nothing. */
  lemma FailedStoreConditionalKeeps(cfg: Config, s: State, rd: Index, rs1: Index, rs2: Index, raw: Word)
    requires s.x[rs1] % 4 == 0
    ensures var e := Exec(cfg, s, Amo(SC, rd, rs1, rs2), raw, 4);
            && (e.halt == Running ==> (e.s.reserved <==> s.reserved && s.reservedAddr != s.x[rs1]))
            && (s.reservedAddr != s.x[rs1] || !s.reserved ==> e == Go(SetReg(s, rd, 1)))
  {
    hide Memory.Store;
  }

  /** Which lets a later one succeed: an SC.W to any other aligned address and then one to the reserved
      address, which stores its word and reports success. */
  lemma LaterStoreConditional(cfg: Config, s: State, other: Index, rs1: Index, rs2: Index, rd: Index, raw: Word)
    requires s.x[0] == 0 && rd != 0
    requires s.x[other] % 4 == 0 && s.reserved && s.reservedAddr == s.x[rs1] && s.x[rs1] % 4 == 0
    requires s.x[other] != s.x[rs1] && Fits(cfg.checked, s.mem, s.x[rs1], 4)
    ensures var e := Perform(cfg, s, Amo(SC, 0, other, rs2), raw, 4);
            var f := Perform(cfg, e.s, Amo(SC, rd, rs1, rs2), raw, 4);
            && e.halt == Running && f.halt == Running && f.s.x[rd] == 0
            && f.s.mem == Memory.Write(s.mem, s.x[rs1], 4, s.x[rs2]) && !f.s.reserved
  {
    hide Memory.Write;
    assert s.x[0 := 1][0 := 0] == s.x;
  }

  // ----- When there is a reservation -----

  /** An LR.W that loads its word. */
  predicate Reserves(cfg: Config, s: State, i: Instr) { LrValue(cfg, s, i).Some? }

  /** A store, an AMO or an SC.W to the reserved address. */
  predicate Drops(s: State, i: Instr) {
    || i.Store?
    || (i.Amo? && s.x[i.rs1] % 4 == 0 && i.amo != LR && i.amo != UNKNOWN
        && (i.amo == SC ==> s.reserved && s.reservedAddr == s.x[i.rs1]))
  }

  /** An LR.W makes a reservation for its address, and puts the word in rd. */
  lemma LoadReserves(cfg: Config, s: State, i: Instr, raw: Word, size: nat)
    requires Reserves(cfg, s, i)
    ensures var e := Perform(cfg, s, i, raw, size);
            && e.halt == Running && e.s.reserved && e.s.reservedAddr == s.x[i.rs1] && e.s.mem == s.mem
            && (i.rd != 0 ==> e.s.x[i.rd] == LrValue(cfg, s, i).value)
  {
    hide Memory.Read;
  }

  /** What the reservation of t is, if i has been performed in s and has not ended the run. */
  predicate Follows(cfg: Config, s: State, i: Instr, t: State) {
    && (t.reserved <==> Reserves(cfg, s, i) || (s.reserved && !Drops(s, i)))
    && (t.reserved ==> t.reservedAddr == if Reserves(cfg, s, i) then s.x[i.rs1] else s.reservedAddr)
    && |t.mem| == |s.mem|
  }

  lemma AmoFollows(cfg: Config, s: State, i: Instr, raw: Word)
    requires i.Amo?
    ensures var e := ExecAmo(cfg, s, i.amo, i.rd, s.x[i.rs1], s.x[i.rs2], raw);
            e.halt == Running ==> Follows(cfg, s, i, e.s)
  {
    hide Memory.Store; hide Memory.Load; hide Isa.Combine; hide Isa.EnterTrap;
  }

  lemma StoreFollows(cfg: Config, s: State, i: Instr, raw: Word, size: nat)
    requires i.Store?
    ensures var e := Exec(cfg, s, i, raw, size); e.halt == Running ==> Follows(cfg, s, i, e.s)
  {
    hide Memory.Store;
  }

  lemma OtherFollows(cfg: Config, s: State, i: Instr, raw: Word, size: nat)
    requires !i.Amo? && !i.Store?
    ensures var e := Exec(cfg, s, i, raw, size); e.halt == Running ==> Follows(cfg, s, i, e.s)
  {
    hide Memory.Load; hide Isa.Alu; hide Isa.Taken; hide Isa.EnterTrap; hide Isa.LeaveTrap; hide Isa.On; hide Isa.Off;
    hide Isa.NewCsr; hide Isa.WriteTime; hide Isa.WriteCompare; hide Isa.ReadBack; hide Isa.Even; hide Isa.Loaded;
    hide Isa.StoreBlocks;
  }

  lemma ExecOnAmo(cfg: Config, s: State, i: Instr, raw: Word, size: nat)
    requires i.Amo?
    ensures Exec(cfg, s, i, raw, size) == ExecAmo(cfg, s, i.amo, i.rd, s.x[i.rs1], s.x[i.rs2], raw)
  {
    hide Isa.ExecAmo;
  }

  /** After an instruction there is a reservation if and only if it was a successful LR.W, or there was one before and
      the instruction was not a store, an AMO or a matching SC.W. */
  lemma PerformFollows(cfg: Config, s: State, i: Instr, raw: Word, size: nat)
    ensures var e := Perform(cfg, s, i, raw, size); e.halt == Running ==> Follows(cfg, s, i, e.s)
  {
    hide Memory.Load; hide Isa.ExecAmo; hide Isa.Exec;
    var s' := s.(nextPc := (s.pc + size) % WORD);
    if i.Amo? {
      ExecOnAmo(cfg, s', i, raw, size);
      AmoFollows(cfg, s', i, raw);
    }
    else if i.Store? { StoreFollows(cfg, s', i, raw, size); }
    else { OtherFollows(cfg, s', i, raw, size); }
  }

  lemma FinishFollows(cfg: Config, s: State, i: Instr, ticks: bool, e: Effect)
    requires Finish(ticks, e).halt == Running
    ensures e.halt == Running && (Follows(cfg, s, i, Finish(ticks, e).s) <==> Follows(cfg, s, i, e.s))
  {
    hide Reserves; hide Drops; hide Isa.On; hide Isa.Off; hide Isa.EnterTrap; hide PyInt.Bit;
  }

  /** The same of a step. */
  lemma StepFollows(cfg: Config, loop: Loop, s: State)
    requires s.x[0] == 0 && Step(cfg, loop, s).halt == Running
    ensures var d := DecodeFetched(Fetch(cfg, loop, s)); d.Decoded? && Follows(cfg, s, d.i, Step(cfg, loop, s).s)
  {
    hide Follows; hide Isa.Perform; hide Steps.Execute; hide Steps.Fetch; hide Steps.Finish; hide Steps.DecodeFetched;
    var f := Fetch(cfg, loop, s);
    NothingFetched(cfg, s, f);
    var d := DecodeFetched(f);
    FinishFollows(cfg, s, if d.Decoded? then d.i else Illegal, loop.Ticks(), Execute(cfg, s, f));
    ExecuteDecoded(cfg, s, f);
    PerformFollows(cfg, s, d.i, d.raw, d.size);
  }

  /** None of the first n steps is another LR.W, a store, an AMO or a matching SC.W. */
  predicate LeftAlone(cfg: Config, loop: Loop, s: State, n: nat)
    decreases n
  {
    n == 0 ||
    (var d := DecodeFetched(Fetch(cfg, loop, s));
     && (d.Decoded? ==> !Reserves(cfg, s, d.i) && !Drops(s, d.i))
     && var e := Step(cfg, loop, s); e.halt == Running ==> LeftAlone(cfg, loop, e.s, n - 1))
  }

  lemma {:induction false} StaysReserved(cfg: Config, loop: Loop, s: State, n: nat)
    requires s.x[0] == 0 && s.reserved && LeftAlone(cfg, loop, s, n) && Run(cfg, loop, s, n).halt == Running
    ensures var t := Run(cfg, loop, s, n).s;
            t.x[0] == 0 && t.reserved && t.reservedAddr == s.reservedAddr && |t.mem| == |s.mem|
    decreases n
  {
    hide Steps.Step; hide Steps.Fetch; hide Steps.DecodeFetched; hide Reserves; hide Drops;
    if n > 0 {
      StepFollows(cfg, loop, s);
      ZeroStays(cfg, loop, s);
      StaysReserved(cfg, loop, Step(cfg, loop, s).s, n - 1);
    }
  }

  /** LR/SC progress: after an LR.W and any number of such steps, traps and interrupts included, an SC.W to the address
      stores its word and reports success. */
  lemma StoreConditionalSucceeds(cfg: Config, loop: Loop, s: State, n: nat, sc: Instr, raw: Word, size: nat)
    requires s.x[0] == 0 && sc.Amo? && sc.amo == SC && sc.rd != 0
    requires var d := DecodeFetched(Fetch(cfg, loop, s)); d.Decoded? && Reserves(cfg, s, d.i)
    requires var e, lr := Step(cfg, loop, s), DecodeFetched(Fetch(cfg, loop, s)).i;
             && e.halt == Running && LeftAlone(cfg, loop, e.s, n) && Run(cfg, loop, e.s, n).halt == Running
             && Run(cfg, loop, e.s, n).s.x[sc.rs1] == s.x[lr.rs1]
    ensures var t := Run(cfg, loop, Step(cfg, loop, s).s, n).s;
            var e := Perform(cfg, t, sc, raw, size);
            && e.halt == Running && e.s.x[sc.rd] == 0 && !e.s.reserved && Fits(cfg.checked, t.mem, t.x[sc.rs1], 4)
            && e.s.mem == Memory.Write(t.mem, t.x[sc.rs1], 4, t.x[sc.rs2])
  {
    hide Steps.Step; hide Steps.Run; hide Steps.Fetch; hide Steps.DecodeFetched; hide LeftAlone; hide Drops;
    hide Memory.Write; hide Memory.Read; hide Isa.Perform;
    StepFollows(cfg, loop, s);
    ZeroStays(cfg, loop, s);
    var e := Step(cfg, loop, s).s;
    StaysReserved(cfg, loop, e, n);
    MatchingSucceeds(cfg, Run(cfg, loop, e, n).s, sc, raw, size);
  }

  lemma MatchingSucceeds(cfg: Config, t: State, sc: Instr, raw: Word, size: nat)
    requires sc.Amo? && sc.amo == SC && sc.rd != 0 && t.x[sc.rs1] % 4 == 0
    requires t.reserved && t.reservedAddr == t.x[sc.rs1] && Fits(cfg.checked, t.mem, t.x[sc.rs1], 4)
    ensures var e := Perform(cfg, t, sc, raw, size);
            && e.halt == Running && e.s.x[sc.rd] == 0 && !e.s.reserved
            && e.s.mem == Memory.Write(t.mem, t.x[sc.rs1], 4, t.x[sc.rs2])
  {
    hide Memory.Write;
  }
}
