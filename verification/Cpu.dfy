/** The CPU object: registers, CSRs, timer, reservation and decode caches updated in place by the
    opcode handlers. Every handler is proved to do what `Isa` says of the instruction it handles. */
module Cpu {
  import opened PyInt
  import opened Memory
  import opened Isa
  import opened Ram
  import opened Rvc
  import opened Immediates
  import opened Cache
  import Binary64

  function WithReg(x: Regs, rd: Index, v: Word): Regs { x[rd := v] }

  function WithCsr(c: Csrs, n: CsrIndex, v: Word): Csrs { c[n := v] }

  function RegValue(funct7: bv7, funct3: bv3, a: Word, b: Word): Option<Word> {
    match RegOp(funct7, funct3)
    case Some(op) => Some(Alu(op, a, b))
    case None => None
  }

  class CPU {
    var registers: Regs
    var csrs: Csrs
    var pc: Word
    var nextPc: Word
    var mtime: nat
    var mtimecmp: nat
    var mtimeLoUpdated: bool
    var mtimeHiUpdated: bool
    var mtimecmpLoUpdated: bool
    var mtimecmpHiUpdated: bool
    var mtip: bool
    var reservationValid: bool
    var reservationAddr: Word
    var world: nat
    var decodeCache: map<nat, Fields>
    var decodeCacheCompressed: map<nat, (Fields, bv32)>
    const rvcEnabled: bool
    const ecallHandler: Option<State -> HostAnswer>
    const ram: RAM

    ghost predicate Valid() { ram.Valid() }

    ghost function Cfg(): Config { Config(rvcEnabled, ram.checked, ecallHandler) }

    function T(): Timer
      reads this
    {
      Timer(mtime, mtimecmp, mtimeLoUpdated, mtimeHiUpdated, mtimecmpLoUpdated, mtimecmpHiUpdated, mtip)
    }

    function S(): State
      reads this, ram.memory
    {
      State(registers, pc, nextPc, csrs, T(), reservationValid, reservationAddr, ram.Contents(), world)
    }

    ghost function C(): Caches
      reads this
    {
      Caches(decodeCache, decodeCacheCompressed)
    }

    /** `registers` are the initial ones, zeros unless a pattern is asked for. */
    constructor (ram: RAM, rvcEnabled: bool, registers: Regs, ecallHandler: Option<State -> HostAnswer>, world: nat)
      requires ram.Valid() && registers[0] == 0
      ensures Valid() && this.ram == ram && Cfg() == Config(rvcEnabled, ram.checked, ecallHandler)
      ensures S() == Reset(rvcEnabled, ram.Contents(), world).(x := registers) && C() == Caches(map[], map[])
    {
      this.ram := ram;
      this.rvcEnabled := rvcEnabled;
      this.ecallHandler := ecallHandler;
      this.world := world;
      this.registers := registers;
      pc, nextPc := 0, 0;
      var csr: Csrs := seq(4096, _ => 0);
      csr := csr[0x301 := 0x4000_1101 + if rvcEnabled then 4 else 0];
      csr := csr[0x300 := 0x0000_1800];
      csr := csr[0x7C2 := 0xFFFF_FFFF];
      csr := csr[0x7C3 := 0xFFFF_FFFF];
      csr := csr[0xF12 := 0x0000_0001];
      csr := csr[0xF13 := 0x2025_0400];
      csrs := csr;
      mtime, mtimecmp := 0, 0xFFFF_FFFF_FFFF_FFFF;
      mtimeLoUpdated, mtimeHiUpdated := false, false;
      mtimecmpLoUpdated, mtimecmpHiUpdated := false, false;
      mtip := false;
      reservationValid, reservationAddr := false, 0;
      decodeCache := map[];
      decodeCacheCompressed := map[];
    }

    // ----- Traps and the timer -----

    method TakeTrap(cause: Word, mtval: Word, sync: bool) returns (halt: Halt)
      modifies this`csrs, this`nextPc
      ensures C() == old(C())
      ensures Effect(S(), halt) == Trap(old(S()), cause, mtval, sync)
    {
      hide PyInt.And; hide PyInt.Or; hide Isa.EnterTrap; hide PyInt.Bit;
      if csrs[0x305] == 0 { return Terminated; }
      csrs := WithCsr(csrs, 0x341, if sync then pc else nextPc);
      csrs := WithCsr(csrs, 0x342, cause);
      csrs := WithCsr(csrs, 0x343, mtval);
      var mstatus := csrs[0x300];
      var mie := Bit(mstatus, 8);
      Pushes(mstatus);
      mstatus := And(mstatus, Not(0x88));
      mstatus := Or(mstatus, mie * 0x80);
      csrs := WithCsr(csrs, 0x300, mstatus);
      nextPc := csrs[0x305] - csrs[0x305] % 4;
      return Running;
    }

    method BypassTrap(cause: Word)
      modifies this`csrs
      ensures C() == old(C())
      ensures S() == BypassedTrapReturn(old(S()), cause)
    {
      csrs := WithCsr(csrs, 0x341, pc);
      csrs := WithCsr(csrs, 0x342, cause);
      csrs := WithCsr(csrs, 0x343, 0);
      SetsOrKeeps(csrs[0x300], 1, 0x80);
      csrs := WithCsr(csrs, 0x300, Or(csrs[0x300], 0x80));
    }

    /** mip follows mtip when that changes. */
    method SetPending(mtipAsserted: bool)
      modifies this`mtip, this`csrs
      ensures mtip == mtipAsserted
      ensures csrs == old(csrs)[MIP := if mtipAsserted == old(mtip) then old(csrs[MIP])
                                       else if mtipAsserted then On(old(csrs[MIP]), BIT_MTI)
                                       else Off(old(csrs[MIP]), BIT_MTI)]
    {
      hide Isa.On; hide Isa.Off; hide PyInt.And; hide PyInt.Or;
      assert csrs == csrs[MIP := csrs[MIP]];
      SetsOrKeeps(csrs[0x344], 1, 0x80);
      ClearsOne(csrs[0x344], 0x80);
      if mtipAsserted != mtip {
        if mtipAsserted {
          csrs := WithCsr(csrs, 0x344, Or(csrs[0x344], 0x80));
        } else {
          csrs := WithCsr(csrs, 0x344, And(csrs[0x344], Not(0x80)));
        }
        mtip := mtipAsserted;
      }
    }

    method UpdateTimer() returns (halt: Halt)
      modifies this`mtime, this`mtip, this`csrs, this`nextPc
      ensures C() == old(C())
      ensures Effect(S(), halt) == Tick(old(S()))
    {
      hide Isa.Trap; hide Isa.On; hide Isa.Off;
      var now := mtime;
      mtime := now + 1;
      var mtipAsserted := now >= mtimecmp;
      SetPending(mtipAsserted);
      if !mtipAsserted { return Running; }
      if Bit(csrs[0x300], 8) == 0 { return Running; }
      if Bit(csrs[0x304], 0x80) != 0 {
        halt := TakeTrap(0x8000_0007, 0, false);
      } else {
        halt := Running;
      }
    }

    // ----- Handlers -----

    method HandleRtype(inst: bv32, f: Fields) returns (halt: Halt)
      modifies this
      ensures C() == old(C())
      ensures Effect(S(), halt) ==
              match RegOp(f.funct7, f.funct3)
              case Some(op) =>
                Go(SetReg(old(S()), Num(f.rd), Alu(op, old(registers)[Num(f.rs1)], old(registers)[Num(f.rs2)])))
              case None => Trap(old(S()), 2, Val(inst), true)
    {
      var v: Option<Word>;
      if f.funct3 < 0x4 {
        v := RtypeLow(f.funct3, f.funct7, registers[Num(f.rs1)], registers[Num(f.rs2)]);
      } else {
        v := RtypeHigh(f.funct3, f.funct7, registers[Num(f.rs1)], registers[Num(f.rs2)]);
      }
      if v.Some? {
        registers := WithReg(registers, Num(f.rd), v.value);
        halt := Running;
      } else {
        halt := TakeTrap(2, Val(inst), true);
      }
    }

    /** The arms for funct3 0 to 3: what they assign to rd, or nothing for an invalid funct7. */
    static method RtypeLow(funct3: bv3, funct7: bv7, a: Word, b: Word) returns (v: Option<Word>)
      requires funct3 < 0x4
      ensures v == RegValue(funct7, funct3, a, b)
    {
      v := None;
      if funct3 == 0x0 {
        if funct7 == 0x00 {
          v := Some((a + b) % WORD);
        } else if funct7 == 0x20 {
          v := Some((a - b) % WORD);
        } else if funct7 == 0x01 {
          v := Some(Signed(a) * Signed(b) % WORD);
        }
      } else if funct3 == 0x1 {
        if funct7 == 0x00 {
          v := Some(a * Pow2(b % 32) % WORD);
        } else if funct7 == 0x01 {
          v := Some(Signed(a) * Signed(b) / WORD % WORD);
        }
      } else if funct3 == 0x2 {
        if funct7 == 0x00 {
          v := Some(Flag(Signed(a) < Signed(b)));
        } else if funct7 == 0x01 {
          v := Some(Signed(a) * b / WORD % WORD);
        }
      } else {
        if funct7 == 0x00 {
          v := Some(Flag(a < b));
        } else if funct7 == 0x01 {
          v := Some(a * b / WORD % WORD);
        }
      }
    }

    /** The arms for funct3 4 to 7. */
    static method RtypeHigh(funct3: bv3, funct7: bv7, a: Word, b: Word) returns (v: Option<Word>)
      requires funct3 >= 0x4
      ensures v == RegValue(funct7, funct3, a, b)
    {
      v := None;
      WordOps(a, b);
      if funct3 == 0x4 {
        if funct7 == 0x00 {
          v := Some(Xor(a, b));
        } else if funct7 == 0x01 {
          var q := Div(a, b);
          v := Some(q);
        }
      } else if funct3 == 0x5 {
        var shamt := b % 32;
        Shrinks(a, Pow2(shamt));
        if funct7 == 0x00 {
          v := Some(a / Pow2(shamt));
        } else if funct7 == 0x20 {
          v := Some(Signed(a) / Pow2(shamt) % WORD);
        } else if funct7 == 0x01 {
          var q := Divu(a, b);
          v := Some(q);
        }
      } else if funct3 == 0x6 {
        if funct7 == 0x00 {
          v := Some(Or(a, b));
        } else if funct7 == 0x01 {
          var r := Rem(a, b);
          v := Some(r);
        }
      } else {
        if funct7 == 0x00 {
          v := Some(And(a, b));
        } else if funct7 == 0x01 {
          var r := Remu(a, b);
          v := Some(r);
        }
      }
    }

    static method Divu(a: Word, b: Word) returns (q: Word)
      ensures q == Alu(DIVU, a, b)
    {
      if b == 0 {
        q := 0xFFFF_FFFF;
      } else {
        Shrinks(a, b);
        q := a / b;
      }
    }

    static method Remu(a: Word, b: Word) returns (r: Word)
      ensures r == Alu(REMU, a, b)
    {
      if b == 0 {
        r := a;
      } else {
        Shrinks(a, b);
        r := a % b;
      }
    }

    /** The DIV arm: floating point division, with the two special cases taken out first. */
    static method Div(a: Word, b: Word) returns (q: Word)
      ensures q == Alu(DIV, a, b)
    {
      hide Isa.Alu; hide Binary64.TruncatedQuotient; hide Binary64.FloatQuotient;
      Quotients(a, b);
      var dividend, divisor := Signed(a), Signed(b);
      if divisor == 0 {
        q := 0xFFFF_FFFF;
      } else if dividend == -0x8000_0000 && divisor == -1 {
        q := 0x8000_0000;
      } else {
        Binary64.FloatQuotientExact(dividend, divisor);
        q := Binary64.FloatQuotient(dividend, divisor) % WORD;
      }
    }

    static method Rem(a: Word, b: Word) returns (r: Word)
      ensures r == Alu(REM, a, b)
    {
      hide Isa.Alu; hide Binary64.TruncatedQuotient; hide Binary64.FloatQuotient;
      Quotients(a, b);
      var dividend, divisor := Signed(a), Signed(b);
      if divisor == 0 {
        r := a;
      } else if dividend == -0x8000_0000 && divisor == -1 {
        r := 0;
      } else {
        Binary64.FloatQuotientExact(dividend, divisor);
        r := (dividend - Binary64.FloatQuotient(dividend, divisor) * divisor) % WORD;
      }
    }

    // The immediates, as the handlers compute them: signed integers.

    static method ImmediateI(inst: bv32) returns (immI: int)
      ensures immI % WORD == Val(ImmI(inst)) && immI % 32 == Val((inst >> 20) & 0x1F)
      ensures -0x800 <= immI < 0x800
    {
      hide Isa.Val; hide Isa.ImmI; hide Isa.ImmS; hide Isa.ImmB; hide Isa.ImmJ;
      immI := Val(inst >> 20);
      Twelve(inst >> 20);
      if immI >= 0x800 { immI := immI - 0x1000; }
      ValueI(inst);
      ValueShamt(inst);
    }

    static method ImmediateS(inst: bv32) returns (immS: int)
      ensures immS % WORD == Val(ImmS(inst))
    {
      hide Isa.Val; hide Isa.ImmI; hide Isa.ImmS; hide Isa.ImmB; hide Isa.ImmJ;
      var raw := ((inst >> 7) & 0x1F) | ((inst >> 25) << 5);
      immS := Val(raw);
      if immS >= 0x800 { immS := immS - 0x1000; }
      ValueS(inst, raw);
    }

    static method ImmediateB(inst: bv32) returns (immB: int)
      ensures immB % WORD == Val(ImmB(inst))
    {
      hide Isa.Val; hide Isa.ImmI; hide Isa.ImmS; hide Isa.ImmB; hide Isa.ImmJ;
      var raw := (((inst >> 7) & 0x1) << 11) | (((inst >> 8) & 0xF) << 1) |
                 (((inst >> 25) & 0x3F) << 5) | ((inst >> 31) << 12);
      immB := Val(raw);
      if immB >= 0x1000 { immB := immB - 0x2000; }
      ValueB(inst, raw);
    }

    static method ImmediateJ(inst: bv32) returns (immJ: int)
      ensures immJ % WORD == Val(ImmJ(inst))
    {
      hide Isa.Val; hide Isa.ImmI; hide Isa.ImmS; hide Isa.ImmB; hide Isa.ImmJ;
      var raw := (((inst >> 21) & 0x3FF) << 1) | (((inst >> 20) & 0x1) << 11) |
                 (((inst >> 12) & 0xFF) << 12) | ((inst >> 31) << 20);
      immJ := Val(raw);
      if immJ >= 0x10_0000 { immJ := immJ - 0x20_0000; }
      ValueJ(inst, raw);
    }

    method HandleItype(inst: bv32, f: Fields) returns (halt: Halt)
      modifies this
      ensures C() == old(C())
      ensures Effect(S(), halt) ==
              match ImmOp(f.funct7, f.funct3)
              case Some(op) =>
                var imm := Val(if Shifts(op) then (inst >> 20) & 0x1F else ImmI(inst));
                Go(SetReg(old(S()), Num(f.rd), Alu(op, old(registers)[Num(f.rs1)], imm)))
              case None => Trap(old(S()), 2, Val(inst), true)
    {
      var v := ItypeValue(inst, f.funct3, f.funct7, registers[Num(f.rs1)]);
      if v.Some? {
        registers := WithReg(registers, Num(f.rd), v.value);
        halt := Running;
      } else {
        halt := TakeTrap(2, Val(inst), true);
      }
    }

    static method ItypeValue(inst: bv32, funct3: bv3, funct7: bv7, a: Word) returns (v: Option<Word>)
      ensures v == ImmValue(inst, funct7, funct3, a)
    {
      hide Isa.Val; hide Isa.ImmI; hide Isa.Alu;
      var immI := ImmediateI(inst);
      if funct3 == 0x1 || funct3 == 0x5 {
        v := ItypeShift(funct3, funct7, a, immI);
      } else {
        var r := ItypePlain(funct3, a, immI);
        v := Some(r);
      }
    }

    /** The arms that do not look at funct7. */
    static method ItypePlain(funct3: bv3, a: Word, immI: int) returns (v: Word)
      requires funct3 != 1 && funct3 != 5 && -0x800 <= immI < 0x800
      ensures Some(v) == RegValue(0x00, funct3, a, immI % WORD)
    {
      hide PyInt.Bitwise; hide PyInt.Pow2; hide Binary64.TruncatedQuotient;
      if funct3 == 0x0 {
        AddMod(a, immI);
        v := (a + immI) % WORD;
      } else if funct3 == 0x2 {
        SignedMod(immI);
        v := Flag(Signed(a) < Signed(immI));
      } else if funct3 == 0x3 {
        v := Flag(a < immI % WORD);
      } else if funct3 == 0x4 {
        MaskedBits(EXCL, a, immI);
        v := Xor(a, immI) % WORD;
      } else if funct3 == 0x6 {
        MaskedBits(DISJ, a, immI);
        v := Or(a, immI) % WORD;
      } else {
        MaskedBits(CONJ, a, immI);
        v := And(a, immI) % WORD;
      }
    }

    static method ItypeShift(funct3: bv3, funct7: bv7, a: Word, immI: int) returns (v: Option<Word>)
      requires funct3 == 1 || funct3 == 5
      ensures v == match ImmOp(funct7, funct3)
                   case Some(op) => Some(Alu(op, a, immI % 32))
                   case None => None
    {
      hide PyInt.Bitwise; hide PyInt.Pow2; hide Binary64.TruncatedQuotient;
      v := None;
      var shamt := immI % 32;
      assert shamt % 32 == shamt;
      Shrinks(a, Pow2(shamt));
      if funct3 == 0x1 {
        if funct7 == 0x00 {
          v := Some(a * Pow2(shamt) % WORD);
        }
      } else {
        if funct7 == 0x00 {
          v := Some(a / Pow2(shamt));
        } else if funct7 == 0x20 {
          v := Some(Signed(a) / Pow2(shamt) % WORD);
        }
      }
    }

    method HandleLoads(inst: bv32, f: Fields) returns (halt: Halt)
      requires Valid()
      modifies this
      ensures C() == old(C())
      ensures Effect(S(), halt) ==
              match LoadKind(f.funct3)
              case Some((n, signed)) =>
                ExecLoad(Cfg(), old(S()), n, signed, Num(f.rd), (old(registers)[Num(f.rs1)] + Val(ImmI(inst))) % WORD)
              case None => Trap(old(S()), 2, Val(inst), true)
    {
      hide Isa.Val; hide Isa.ImmI; hide Isa.ImmS; hide Isa.ImmB; hide Isa.ImmU; hide Isa.ImmJ;
      hide Memory.Load;
      var immI := ImmediateI(inst);
      var addr := (registers[Num(f.rs1)] + immI) % WORD;
      AddMod(registers[Num(f.rs1)], immI);
      var known, v := LoadByKind(f.funct3, addr);
      if !known {
        halt := TakeTrap(2, Val(inst), true);
      } else if v.None? {
        halt := Fault;
      } else {
        registers := WithReg(registers, Num(f.rd), v.value);
        halt := Running;
      }
    }

    method LoadByKind(funct3: bv3, addr: Word) returns (known: bool, v: Option<Word>)
      requires Valid()
      ensures known <==> LoadKind(funct3).Some?
      ensures known ==> var (n, signed) := LoadKind(funct3).value;
                        v == match Memory.Load(ram.checked, ram.Contents(), addr, n)
                             case None => None
                             case Some(x) => Some(Loaded(n, signed, x))
    {
      hide Memory.Load; hide Memory.SignExtend;
      known := true;
      var r: Option<int>;
      if funct3 == 0x0 {
        r := ram.AnyLoadByte(addr, true);
      } else if funct3 == 0x1 {
        r := ram.AnyLoadHalf(addr, true);
      } else if funct3 == 0x2 {
        r := ram.AnyLoadWord(addr);
      } else if funct3 == 0x4 {
        r := ram.AnyLoadByte(addr, false);
      } else if funct3 == 0x5 {
        r := ram.AnyLoadHalf(addr, false);
      } else {
        return false, None;
      }
      v := if r.None? then None else Some(r.value % WORD);
    }

    method HandleStores(inst: bv32, f: Fields) returns (halt: Halt)
      requires Valid()
      modifies this, ram.memory
      ensures C() == old(C())
      ensures Effect(S(), halt) ==
              match StoreKind(f.funct3)
              case Some(n) =>
                StoreTo(Cfg(), old(S()), (old(registers)[Num(f.rs1)] + Val(ImmS(inst))) % WORD, n,
                        old(registers)[Num(f.rs2)])
              case None => Trap(old(S()), 2, Val(inst), true)
    {
      hide Isa.Val; hide Isa.ImmI; hide Isa.ImmS; hide Isa.ImmB; hide Isa.ImmU; hide Isa.ImmJ;
      hide Memory.Store;
      var immS := ImmediateS(inst);
      var addr := (registers[Num(f.rs1)] + immS) % WORD;
      AddMod(registers[Num(f.rs1)], immS);
      var known, ok := StoreByKind(f.funct3, addr, registers[Num(f.rs2)]);
      if !known {
        halt := TakeTrap(2, Val(inst), true);
      } else if !ok {
        halt := Fault;
      } else {
        reservationValid := false;
        halt := Running;
      }
    }

    method StoreByKind(funct3: bv3, addr: Word, value: Word) returns (known: bool, ok: bool)
      requires Valid()
      modifies ram.memory
      ensures known <==> StoreKind(funct3).Some?
      ensures known ==>
                var n := StoreKind(funct3).value;
                (ram.Contents(), ok) == Memory.Store(ram.checked, old(ram.Contents()), addr, n, value)
      ensures !known ==> ram.Contents() == old(ram.Contents())
    {
      hide Memory.Store;
      known, ok := true, false;
      if funct3 == 0x0 {
        ok := ram.AnyStoreByte(addr, value);
      } else if funct3 == 0x1 {
        ok := ram.AnyStoreHalf(addr, value);
      } else if funct3 == 0x2 {
        ok := ram.AnyStoreWord(addr, value);
      } else {
        known := false;
      }
    }

    static method BranchTaken(funct3: bv3, a: Word, b: Word) returns (taken: bool)
      ensures taken <==> BranchKind(funct3).Some? && Taken(BranchKind(funct3).value, a, b)
    {
      taken := || (funct3 == 0x0 && a == b)
               || (funct3 == 0x1 && a != b)
               || (funct3 == 0x4 && Signed(a) < Signed(b))
               || (funct3 == 0x5 && Signed(a) >= Signed(b))
               || (funct3 == 0x6 && a < b)
               || (funct3 == 0x7 && a >= b);
    }

    predicate Unaligned(addr: Word) {
      addr % (if rvcEnabled then 2 else 4) != 0
    }

    method HandleBranches(inst: bv32, f: Fields) returns (halt: Halt)
      modifies this
      ensures C() == old(C())
      ensures Effect(S(), halt) ==
              match BranchKind(f.funct3)
              case Some(c) =>
                ExecBranch(Cfg(), old(S()), Taken(c, old(registers)[Num(f.rs1)], old(registers)[Num(f.rs2)]),
                    Val(ImmB(inst)))
              case None => Trap(old(S()), 2, Val(inst), true)
    {
      hide Isa.Val; hide Isa.ImmI; hide Isa.ImmS; hide Isa.ImmB; hide Isa.ImmU; hide Isa.ImmJ;
      halt := Running;
      var taken := BranchTaken(f.funct3, registers[Num(f.rs1)], registers[Num(f.rs2)]);
      if taken {
        var immB := ImmediateB(inst);
        AddMod(pc, immB);
        var addrTarget := (pc + immB) % WORD;
        if Unaligned(addrTarget) {
          halt := TakeTrap(0, addrTarget, true);
        } else {
          nextPc := addrTarget;
        }
      } else if f.funct3 == 0x2 || f.funct3 == 0x3 {
        halt := TakeTrap(2, Val(inst), true);
      }
    }

    method HandleLui(inst: bv32, f: Fields) returns (halt: Halt)
      modifies this
      ensures C() == old(C())
      ensures Effect(S(), halt) == Go(SetReg(old(S()), Num(f.rd), Val(ImmU(inst))))
    {
      hide Isa.Val; hide Isa.ImmI; hide Isa.ImmS; hide Isa.ImmB; hide Isa.ImmU; hide Isa.ImmJ;
      ValueU(inst);
      registers := WithReg(registers, Num(f.rd), Val(inst >> 12) * 0x1000 % WORD);
      halt := Running;
    }

    method HandleAuipc(inst: bv32, f: Fields) returns (halt: Halt)
      modifies this
      ensures C() == old(C())
      ensures Effect(S(), halt) == Go(SetReg(old(S()), Num(f.rd), (old(pc) + Val(ImmU(inst))) % WORD))
    {
      hide Isa.Val; hide Isa.ImmI; hide Isa.ImmS; hide Isa.ImmB; hide Isa.ImmU; hide Isa.ImmJ;
      ValueU(inst);
      registers := WithReg(registers, Num(f.rd), (pc + Val(inst >> 12) * 0x1000) % WORD);
      halt := Running;
    }

    /** The common end of JAL and JALR. */
    method LinkAndJump(addrTarget: Word, rd: Index, instSize: nat) returns (halt: Halt)
      modifies this
      ensures C() == old(C())
      ensures Effect(S(), halt) == JumpAndLink(Cfg(), old(S()), addrTarget, rd, instSize)
    {
      hide Isa.Trap;
      if Unaligned(addrTarget) {
        halt := TakeTrap(0, addrTarget, true);
      } else {
        if rd != 0 { registers := WithReg(registers, rd, (pc + instSize) % WORD); }
        nextPc := addrTarget;
        halt := Running;
      }
    }

    method HandleJal(inst: bv32, f: Fields, instSize: nat) returns (halt: Halt)
      modifies this
      ensures C() == old(C())
      ensures Effect(S(), halt) == JumpAndLink(Cfg(), old(S()), (old(pc) + Val(ImmJ(inst))) % WORD, Num(f.rd), instSize)
    {
      hide Isa.Val; hide Isa.ImmI; hide Isa.ImmS; hide Isa.ImmB; hide Isa.ImmU; hide Isa.ImmJ;
      var immJ := ImmediateJ(inst);
      AddMod(pc, immJ);
      halt := LinkAndJump((pc + immJ) % WORD, Num(f.rd), instSize);
    }

    method HandleJalr(inst: bv32, f: Fields, instSize: nat) returns (halt: Halt)
      modifies this
      ensures C() == old(C())
      ensures Effect(S(), halt) ==
              if f.funct3 != 0 then Trap(old(S()), 2, Val(inst), true)
              else JumpAndLink(Cfg(), old(S()), Even((old(registers)[Num(f.rs1)] + Val(ImmI(inst))) % WORD),
                  Num(f.rd), instSize)
    {
      hide Isa.Val; hide Isa.ImmI; hide Isa.ImmS; hide Isa.ImmB; hide Isa.ImmU; hide Isa.ImmJ;
      if f.funct3 != 0x0 {
        halt := TakeTrap(2, Val(inst), true);
        return;
      }
      var immI := ImmediateI(inst);
      AddMod(registers[Num(f.rs1)], immI);
      var sum := (registers[Num(f.rs1)] + immI) % WORD;
      halt := LinkAndJump(Even(sum), Num(f.rd), instSize);
    }

    method HandleMiscMem(inst: bv32, f: Fields) returns (halt: Halt)
      modifies this
      ensures C() == old(C())
      ensures Effect(S(), halt) ==
              if f.funct3 == 0 || f.funct3 == 1 then Go(old(S())) else Trap(old(S()), 2, Val(inst), true)
    {
      hide Isa.Val; hide Isa.ImmI; hide Isa.ImmS; hide Isa.ImmB; hide Isa.ImmU; hide Isa.ImmJ;
      halt := Running;
      if !(f.funct3 == 0 || f.funct3 == 1) { halt := TakeTrap(2, Val(inst), true); }
    }

    method HandleSystem(inst: bv32, f: Fields) returns (halt: Halt)
      requires Valid()
      modifies this, ram.memory
      ensures C() == old(C())
      ensures Effect(S(), halt) ==
              if inst == 0x0000_0073 then ExecEcall(Cfg(), old(S()))
              else if inst == 0x3020_0073 then ExecMret(Cfg(), old(S()))
              else if inst == 0x0010_0073 then ExecEbreak(old(S()))
              else match CsrKind(f.funct3)
                   case Some((op, immediate)) =>
                     ExecCsr(old(S()), op, Num(f.rd), CsrSource(old(S()), Num(f.rs1), immediate), CsrField(inst),
                         Val(inst))
                   case None => if inst == 0x1050_0073 then Go(old(S())) else Trap(old(S()), 2, Val(inst), true)
    {
      hide Isa.Val; hide Isa.CsrField; hide Isa.ExecCsr; hide Isa.ExecEcall; hide Isa.ExecMret; hide Isa.ExecEbreak;
      var funct3 := f.funct3;
      if inst == 0x0000_0073 {
        halt := HandleEcall();
      } else if inst == 0x3020_0073 {
        halt := HandleMret();
      } else if inst == 0x0010_0073 {
        halt := HandleEbreak();
      } else if funct3 == 1 || funct3 == 2 || funct3 == 3 || funct3 == 5 || funct3 == 6 || funct3 == 7 {
        var rs1Val := if funct3 < 5 then registers[Num(f.rs1)] else Num(f.rs1);
        halt := HandleCsr(Val(inst), Num(f.rd), funct3, CsrField(inst), rs1Val);
      } else if inst == 0x1050_0073 {
        halt := Running;
      } else {
        halt := TakeTrap(2, Val(inst), true);
      }
    }

    method HandleEcall() returns (halt: Halt)
      requires Valid()
      modifies this, ram.memory
      ensures C() == old(C())
      ensures Effect(S(), halt) == ExecEcall(Cfg(), old(S()))
    {
      hide Isa.Trap; hide Isa.BypassedTrapReturn; hide Isa.StoreBlocks;
      if csrs[0x305] == 0 && ecallHandler.Some? {
        var answer := ecallHandler.value(S());
        registers := answer.x;
        pc := answer.pc;
        ApplyWrites(answer.writes);
        world := answer.world;
        if answer.halt != Running { return answer.halt; }
        BypassTrap(11);
        halt := Running;
      } else if csrs[0x305] != 0 {
        halt := TakeTrap(11, 0, true);
      } else {
        halt := NoEcallHandler;
      }
    }

    /** The memory side effects of a system call. */
    method ApplyWrites(writes: seq<(nat, Bytes)>)
      requires Valid()
      modifies ram.memory
      ensures ram.Contents() == StoreBlocks(ram.checked, old(ram.Contents()), writes)
    {
      var i := 0;
      while i < |writes|
        invariant 0 <= i <= |writes|
        invariant ram.Contents() == StoreBlocks(ram.checked, old(ram.Contents()), writes[..i])
      {
        assert writes[..i + 1][..i] == writes[..i];
        var _ := ram.AnyStoreBinary(writes[i].0, writes[i].1);
        i := i + 1;
      }
      assert writes[..|writes|] == writes;
    }

    method HandleMret() returns (halt: Halt)
      modifies this`csrs, this`nextPc
      ensures C() == old(C())
      ensures Effect(S(), halt) == ExecMret(Cfg(), old(S()))
    {
      hide Isa.Trap; hide PyInt.And; hide PyInt.Or; hide Isa.LeaveTrap; hide PyInt.Bit;
      var mepc := csrs[0x341];
      if Unaligned(mepc) {
        halt := TakeTrap(0, mepc, true);
      } else {
        nextPc := mepc;
        var mstatus := csrs[0x300];
        var mpie := Bit(mstatus, 0x80);
        Pops(mstatus);
        mstatus := Or(And(mstatus, Not(8)), mpie * 8);
        mstatus := Or(mstatus, 0x80);
        csrs := WithCsr(csrs, 0x300, mstatus);
        halt := Running;
      }
    }

    method HandleEbreak() returns (halt: Halt)
      modifies this`csrs, this`nextPc
      ensures C() == old(C())
      ensures Effect(S(), halt) == ExecEbreak(old(S()))
    {
      hide Isa.Trap; hide Isa.BypassedTrapReturn;
      if registers[17] >= 0xFFFF_0000 { return Running; }  // logging only
      if csrs[0x305] == 0 {
        BypassTrap(3);
        halt := Terminated;
      } else {
        halt := TakeTrap(3, 0, true);
      }
    }

    /** The CSR arms. */
    method HandleCsr(raw: Word, rd: Index, funct3: bv3, csr: CsrIndex, rs1Val: Word) returns (halt: Halt)
      requires CsrKind(funct3).Some?
      modifies this`csrs, this`registers, this`nextPc, this`mtime, this`mtimecmp, this`mtimeLoUpdated,
               this`mtimeHiUpdated,
               this`mtimecmpLoUpdated, this`mtimecmpHiUpdated, this`mtip
      ensures C() == old(C())
      ensures Effect(S(), halt) == ExecCsr(old(S()), CsrKind(funct3).value.0, rd, rs1Val, csr, raw)
    {
      hide Isa.Trap; hide Isa.WriteCsr; hide Isa.ReadBack;
      var prior := csrs[csr];
      halt := Running;
      if ReadOnly(csr) && ((funct3 == 1 || funct3 == 5) || rs1Val != 0) {
        halt := TakeTrap(2, raw, true);
        if halt != Running { return; }
      }
      if funct3 == 1 || funct3 == 5 {
        UpdateCsr(RW, csr, prior, rs1Val);
      } else if funct3 == 2 || funct3 == 6 {
        UpdateCsr(RS, csr, prior, rs1Val);
      } else {
        UpdateCsr(RC, csr, prior, rs1Val);
      }
      if rd != 0 {
        prior := ReadTimer(csr, prior);
        registers := WithReg(registers, rd, prior);
      }
    }

    method ReadTimer(csr: CsrIndex, prior: Word) returns (v: Word)
      ensures v == ReadBack(T(), csr, prior)
    {
      if csr == 0x7C0 {
        v := mtime % WORD;
      } else if csr == 0x7C1 {
        v := mtime / WORD % WORD;
      } else if csr == 0x7C2 {
        v := mtimecmp % WORD;
      } else if csr == 0x7C3 {
        v := mtimecmp / WORD % WORD;
      } else {
        v := prior;
      }
    }

    method UpdateCsr(op: CsrOp, csr: CsrIndex, prior: Word, src: Word)
      modifies this`csrs, this`mtime, this`mtimecmp, this`mtimeLoUpdated, this`mtimeHiUpdated,
               this`mtimecmpLoUpdated, this`mtimecmpHiUpdated, this`mtip
      ensures C() == old(C())
      ensures S() == WriteCsr(old(S()), op, csr, prior, src)
    {
      hide Isa.On; hide Isa.WriteTime; hide Isa.WriteCompare; hide Isa.NewCsr; hide Isa.IgnoresWrites; hide WithMpp;
      StoreCsr(op, csr, prior, src);
      if op == RW { CommitTimer(csr); }
      Overwrites(old(csrs), csr, csrs[csr], WithMpp(csrs[csr]));
      if csr == 0x300 { csrs := WithCsr(csrs, 0x300, WithMpp(csrs[0x300])); }
    }

    method StoreCsr(op: CsrOp, csr: CsrIndex, prior: Word, src: Word)
      modifies this`csrs
      ensures csrs == old(csrs)[csr := if (op != RW && src == 0) || IgnoresWrites(csr) then old(csrs[csr])
                                       else NewCsr(op, csr, prior, src)]
    {
      hide PyInt.Bitwise;
      assert csrs == csrs[csr := csrs[csr]];
      WordOps(prior, src);
      match op {
        case RW =>
          if csr == 0x305 {
            csrs := WithCsr(csrs, csr, src - src % 4);
          } else if !IgnoresWrites(csr) {
            csrs := WithCsr(csrs, csr, src);
          }
        case RS =>
          if src != 0 && !IgnoresWrites(csr) { csrs := WithCsr(csrs, csr, Or(prior, src)); }
        case RC =>
          if src != 0 && !IgnoresWrites(csr) { csrs := WithCsr(csrs, csr, And(prior, Not(src))); }
      }
    }

    /** The two-phase update of mtime and mtimecmp after a CSRRW. */
    method CommitTimer(csr: CsrIndex)
      modifies this`mtime, this`mtimecmp, this`mtimeLoUpdated, this`mtimeHiUpdated,
               this`mtimecmpLoUpdated, this`mtimecmpHiUpdated, this`mtip
      ensures T() ==
              if csr == TIME_LO || csr == TIME_HI then WriteTime(old(T()), csr == TIME_LO, csrs[TIME_HI], csrs[TIME_LO])
              else if csr == CMP_LO || csr == CMP_HI
              then WriteCompare(old(T()), csr == CMP_LO, csrs[CMP_HI], csrs[CMP_LO])
              else old(T())
    {
      hide Isa.WriteTime; hide Isa.WriteCompare;
      if csr == 0x7C0 || csr == 0x7C1 { CommitMtime(csr); }
      if csr == 0x7C2 || csr == 0x7C3 { CommitMtimecmp(csr); }
    }

    method CommitMtime(csr: CsrIndex)
      requires csr == 0x7C0 || csr == 0x7C1
      modifies this`mtime, this`mtimeLoUpdated, this`mtimeHiUpdated, this`mtip
      ensures T() == WriteTime(old(T()), csr == TIME_LO, csrs[TIME_HI], csrs[TIME_LO])
    {
      hide PyInt.Or;
      mtimeLoUpdated := mtimeLoUpdated || csr == 0x7C0;
      mtimeHiUpdated := mtimeHiUpdated || csr == 0x7C1;
      if mtimeLoUpdated && mtimeHiUpdated {
        Join(csrs[0x7C1], csrs[0x7C0]);
        mtime := Or(csrs[0x7C1] * WORD, csrs[0x7C0]);
        mtimeLoUpdated := false;
        mtimeHiUpdated := false;
        mtip := mtime >= mtimecmp;
      }
    }

    method CommitMtimecmp(csr: CsrIndex)
      requires csr == 0x7C2 || csr == 0x7C3
      modifies this`mtimecmp, this`mtimecmpLoUpdated, this`mtimecmpHiUpdated, this`mtip
      ensures T() == WriteCompare(old(T()), csr == CMP_LO, csrs[CMP_HI], csrs[CMP_LO])
    {
      hide PyInt.Or;
      mtimecmpLoUpdated := mtimecmpLoUpdated || csr == 0x7C2;
      mtimecmpHiUpdated := mtimecmpHiUpdated || csr == 0x7C3;
      if mtimecmpLoUpdated && mtimecmpHiUpdated {
        Join(csrs[0x7C3], csrs[0x7C2]);
        mtimecmp := Or(csrs[0x7C3] * WORD, csrs[0x7C2]);
        mtimecmpLoUpdated := false;
        mtimecmpHiUpdated := false;
        mtip := mtime >= mtimecmp;
      }
    }

    method HandleAmo(inst: bv32, f: Fields) returns (halt: Halt)
      requires Valid()
      modifies this, ram.memory
      ensures C() == old(C())
      ensures Effect(S(), halt) ==
              if f.funct3 != 2 then Trap(old(S()), 2, Val(inst), true)
              else ExecAmo(Cfg(), old(S()), AmoOf((inst >> 27) as bv5), Num(f.rd), old(registers)[Num(f.rs1)],
                           old(registers)[Num(f.rs2)], Val(inst))
    {
      hide Isa.Val; hide Isa.Num; hide Isa.AmoOf; hide Isa.Trap; hide Isa.Combine; hide Isa.StoreTo;
      hide Memory.Load; hide Memory.Store;
      if f.funct3 != 0x2 {
        halt := TakeTrap(2, Val(inst), true);
        return;
      }
      var op := AmoOf((inst >> 27) as bv5);
      var rd, addr, b := Num(f.rd), registers[Num(f.rs1)], registers[Num(f.rs2)];
      if addr % 4 != 0 {
        halt := TakeTrap(6, addr, true);
        return;
      }
      if op == LR {
        halt := LoadReserved(rd, addr);
      } else if op == SC {
        halt := StoreConditional(rd, addr, b);
      } else if op != UNKNOWN {
        halt := ReadModifyWrite(op, rd, addr, b);
      } else {
        halt := TakeTrap(2, Val(inst), true);
      }
    }

    method LoadReserved(rd: Index, addr: Word) returns (halt: Halt)
      requires Valid() && addr % 4 == 0
      modifies this
      ensures C() == old(C())
      ensures forall b, raw :: Effect(S(), halt) == ExecAmo(Cfg(), old(S()), LR, rd, addr, b, raw)
    {
      hide Isa.Trap; hide Isa.Combine; hide Memory.Load; hide Memory.Store;
      var val := ram.AnyLoadWord(addr);
      if val.None? { return Fault; }
      LoadedWord(ram.checked, ram.Contents(), addr);
      registers := WithReg(registers, rd, val.value);
      reservationValid := true;
      reservationAddr := addr;
      halt := Running;
    }

    method StoreConditional(rd: Index, addr: Word, b: Word) returns (halt: Halt)
      requires Valid() && addr % 4 == 0
      modifies this, ram.memory
      ensures C() == old(C())
      ensures forall raw :: Effect(S(), halt) == ExecAmo(Cfg(), old(S()), SC, rd, addr, b, raw)
    {
      hide Isa.Trap; hide Isa.Combine; hide Memory.Load; hide Memory.Store;
      if reservationValid && reservationAddr == addr {
        var ok := ram.AnyStoreWord(addr, b);
        if !ok { return Fault; }
        registers := WithReg(registers, rd, 0);
        reservationValid := false;
      } else {
        registers := WithReg(registers, rd, 1);
      }
      halt := Running;
    }

    /** The arms from AMOSWAP to AMOMAXU, which differ in the value stored only. */
    method ReadModifyWrite(op: AmoOp, rd: Index, addr: Word, b: Word) returns (halt: Halt)
      requires Valid() && op != LR && op != SC && op != UNKNOWN && addr % 4 == 0
      modifies this, ram.memory
      ensures C() == old(C())
      ensures forall raw :: Effect(S(), halt) == ExecAmo(Cfg(), old(S()), op, rd, addr, b, raw)
    {
      hide Isa.Trap; hide Isa.Combine; hide Memory.Load; hide Memory.Store;
      var oldVal := ram.AnyLoadWord(addr);
      if oldVal.None? { return Fault; }
      LoadedWord(ram.checked, ram.Contents(), addr);
      var newVal := AmoValue(op, oldVal.value, b);
      var ok := ram.AnyStoreWord(addr, newVal);
      if !ok { return Fault; }
      registers := WithReg(registers, rd, oldVal.value);
      reservationValid := false;
      halt := Running;
    }

    static method AmoValue(op: AmoOp, oldVal: Word, b: Word) returns (newVal: Word)
      requires op != LR && op != SC && op != UNKNOWN
      ensures newVal == Combine(op, oldVal, b)
    {
      hide PyInt.And; hide PyInt.Or; hide PyInt.Xor; hide Isa.Signed;
      WordOps(oldVal, b);
      SignedBack(oldVal);
      SignedBack(b);
      match op {
        case SWAP => newVal := b;
        case AMOADD => newVal := (oldVal + b) % WORD;
        case AMOXOR => newVal := Xor(oldVal, b) % WORD;
        case AMOAND => newVal := And(oldVal, b) % WORD;
        case AMOOR => newVal := Or(oldVal, b) % WORD;
        case MIN =>
          var x, y := Signed(oldVal), Signed(b);
          newVal := (if x <= y then x else y) % WORD;
        case MAX =>
          var x, y := Signed(oldVal), Signed(b);
          newVal := (if x >= y then x else y) % WORD;
        case MINU => newVal := if oldVal <= b then oldVal else b;
        case MAXU => newVal := if oldVal >= b then oldVal else b;
      }
    }

    // ----- Dispatch, through the decode caches -----

    /** The opcode table: computation and memory here, control transfer and the rest below. */
    method DispatchOpcode(inst: bv32, instSize: nat, f: Fields) returns (halt: Halt)
      requires Valid()
      modifies this, ram.memory
      ensures C() == old(C())
      ensures Effect(S(), halt) == Exec(Cfg(), old(S()), Decode(f, inst), Val(inst), instSize)
    {
      hide Isa.Val; hide Isa.Num; hide Isa.ImmI; hide Isa.ImmS; hide Isa.ImmB; hide Isa.ImmU; hide Isa.ImmJ;
      hide Isa.Alu; hide Isa.Taken; hide Isa.ExecCsr; hide Isa.ExecAmo; hide Isa.ExecEcall; hide Isa.ExecEbreak;
      hide Isa.ExecMret; hide Isa.Trap; hide Isa.JumpAndLink; hide Isa.ExecBranch; hide Isa.StoreTo; hide Isa.ExecLoad;
      hide Isa.RegOp; hide Isa.ImmOp; hide Isa.LoadKind; hide Isa.StoreKind; hide Isa.BranchKind; hide Isa.CsrKind;
      hide Isa.AmoOf; hide Isa.CsrField; hide Isa.SetReg; hide Isa.CsrSource;
      match f.opcode {
        case 0x33 => halt := HandleRtype(inst, f);
        case 0x13 => halt := HandleItype(inst, f);
        case 0x03 => halt := HandleLoads(inst, f);
        case 0x23 => halt := HandleStores(inst, f);
        case 0x37 => halt := HandleLui(inst, f);
        case 0x17 => halt := HandleAuipc(inst, f);
        case _ => halt := DispatchRest(inst, instSize, f);
      }
    }

    method DispatchRest(inst: bv32, instSize: nat, f: Fields) returns (halt: Halt)
      requires Valid() && f.opcode !in {0x33, 0x13, 0x03, 0x23, 0x37, 0x17}
      modifies this, ram.memory
      ensures C() == old(C())
      ensures Effect(S(), halt) == Exec(Cfg(), old(S()), Decode(f, inst), Val(inst), instSize)
    {
      hide Isa.Val; hide Isa.Num; hide Isa.ImmI; hide Isa.ImmS; hide Isa.ImmB; hide Isa.ImmU; hide Isa.ImmJ;
      hide Isa.Alu; hide Isa.Taken; hide Isa.ExecCsr; hide Isa.ExecAmo; hide Isa.ExecEcall; hide Isa.ExecEbreak;
      hide Isa.ExecMret; hide Isa.Trap; hide Isa.JumpAndLink; hide Isa.ExecBranch; hide Isa.StoreTo; hide Isa.ExecLoad;
      hide Isa.RegOp; hide Isa.ImmOp; hide Isa.LoadKind; hide Isa.StoreKind; hide Isa.BranchKind; hide Isa.CsrKind;
      hide Isa.AmoOf; hide Isa.CsrField; hide Isa.SetReg; hide Isa.CsrSource;
      match f.opcode {
        case 0x63 => halt := HandleBranches(inst, f);
        case 0x6F => halt := HandleJal(inst, f, instSize);
        case 0x67 => halt := HandleJalr(inst, f, instSize);
        case _ => halt := DispatchSystem(inst, instSize, f);
      }
    }

    method DispatchSystem(inst: bv32, instSize: nat, f: Fields) returns (halt: Halt)
      requires Valid() && f.opcode !in {0x33, 0x13, 0x03, 0x23, 0x37, 0x17, 0x63, 0x6F, 0x67}
      modifies this, ram.memory
      ensures C() == old(C())
      ensures Effect(S(), halt) == Exec(Cfg(), old(S()), Decode(f, inst), Val(inst), instSize)
    {
      hide Isa.Val; hide Isa.Num; hide Isa.ImmI; hide Isa.ImmS; hide Isa.ImmB; hide Isa.ImmU; hide Isa.ImmJ;
      hide Isa.Alu; hide Isa.Taken; hide Isa.ExecCsr; hide Isa.ExecAmo; hide Isa.ExecEcall; hide Isa.ExecEbreak;
      hide Isa.ExecMret; hide Isa.Trap; hide Isa.JumpAndLink; hide Isa.ExecBranch; hide Isa.StoreTo; hide Isa.ExecLoad;
      hide Isa.RegOp; hide Isa.ImmOp; hide Isa.LoadKind; hide Isa.StoreKind; hide Isa.BranchKind; hide Isa.CsrKind;
      hide Isa.AmoOf; hide Isa.CsrField; hide Isa.SetReg; hide Isa.CsrSource;
      match f.opcode {
        case 0x73 => halt := HandleSystem(inst, f);
        case 0x0F => halt := HandleMiscMem(inst, f);
        case 0x2F => halt := HandleAmo(inst, f);
        case _ => halt := TakeTrap(2, Val(inst), true);
      }
    }

    method ExecuteWord(inst: bv32) returns (halt: Halt)
      requires Valid()
      modifies this, ram.memory
      ensures (Effect(S(), halt), C()) == CachedExecute32(Cfg(), old(S()), old(C()), inst)
    {
      hide Isa.Exec; hide Isa.Val; hide Isa.Decode; hide Isa.Split; hide Cache.WideKey;
      var f;
      var key := WideKey(inst);
      if key in decodeCache {
        f := decodeCache[key];
      } else {
        f := Split(inst);
        decodeCache := decodeCache[key := f];
      }
      assert decodeCache == old(decodeCache)[key := f];
      nextPc := (pc + 4) % WORD;
      halt := DispatchOpcode(inst, 4, f);
      if halt == Running { registers := WithReg(registers, 0, 0); }
    }

    method ExecuteHalf(inst16: bv16) returns (halt: Halt)
      requires Valid()
      modifies this, ram.memory
      ensures (Effect(S(), halt), C()) == CachedExecute16(Cfg(), old(S()), old(C()), inst16)
    {
      hide Isa.Exec; hide Isa.Val; hide Isa.Decode; hide Isa.Split; hide Rvc.Expand; hide Isa.Trap;
      hide Cache.NarrowKey;
      var f, expandedInst;
      var key := NarrowKey(inst16);
      if key in decodeCacheCompressed {
        f, expandedInst := decodeCacheCompressed[key].0, decodeCacheCompressed[key].1;
      } else {
        var e := Expand(inst16);
        if e.None? {
          halt := TakeTrap(2, inst16 as int, true);
          return;
        }
        expandedInst := e.value;
        f := Split(expandedInst);
        decodeCacheCompressed := decodeCacheCompressed[key := (f, expandedInst)];
      }
      nextPc := (pc + 2) % WORD;
      halt := DispatchOpcode(expandedInst, 2, f);
      if halt == Running { registers := WithReg(registers, 0, 0); }
    }

    method ExecuteAny(inst: bv32) returns (halt: Halt)
      requires Valid()
      modifies this, ram.memory
      ensures (Effect(S(), halt), C()) == CachedExecuteAny(Cfg(), old(S()), old(C()), inst)
    {
      hide Cache.CachedExecute32; hide Cache.CachedExecute16;
      if !rvcEnabled {
        halt := ExecuteWord(inst);
        return;
      }
      if inst & 0x3 == 0x3 {
        halt := ExecuteWord(inst);
      } else {
        halt := ExecuteHalf((inst & 0xFFFF) as bv16);
      }
    }
  }

  // ----- Facts the handlers use -----

  function ImmValue(inst: bv32, funct7: bv7, funct3: bv3, a: Word): Option<Word> {
    match ImmOp(funct7, funct3)
    case Some(op) => Some(Alu(op, a, Val(if Shifts(op) then (inst >> 20) & 0x1F else ImmI(inst))))
    case None => None
  }

  /** DIV and REM by cases. */
  lemma Quotients(a: Word, b: Word)
    ensures var x, y := Signed(a), Signed(b);
            if y == 0 then Alu(DIV, a, b) == 0xFFFF_FFFF && Alu(REM, a, b) == a
            else if x == -0x8000_0000 && y == -1 then Alu(DIV, a, b) == 0x8000_0000 && Alu(REM, a, b) == 0
            else && Alu(DIV, a, b) == Binary64.TruncatedQuotient(x, y) % WORD
                 && Alu(REM, a, b) == (x - Binary64.TruncatedQuotient(x, y) * y) % WORD
  {
    var x, y := Signed(a), Signed(b);
    if x == -0x8000_0000 && y == -1 {
      assert Binary64.TruncatedQuotient(x, y) == 0x8000_0000;
    } else {
      hide Binary64.TruncatedQuotient;
    }
  }

  lemma Join(hi: Word, lo: Word)
    ensures Or(hi * WORD, lo) == hi * WORD + lo
  {
    hide PyInt.Pow2; hide PyInt.Bitwise;
    Pow32();
    JoinHalves(hi, lo, 32);
  }

  lemma LoadedWord(checked: bool, mem: Bytes, addr: nat)
    ensures var r := Memory.Load(checked, mem, addr, 4); r.Some? ==> r.value < WORD
  {
    if Fits(checked, mem, addr, 4) { WordRange(mem, addr); }
  }

  /** `(a op imm) & 0xFFFFFFFF` for a word and a possibly negative immediate. */
  lemma MaskedBits(op: BitOp, a: Word, imm: int)
    ensures Bitwise(op, a, imm) % WORD == Bitwise(op, a, imm % WORD)
  {
    hide PyInt.Pow2; hide PyInt.Bitwise;
    Pow32();
    BitwiseMod(op, a, imm, 32);
  }

  lemma SignedBack(v: Word)
    ensures Signed(v) % WORD == v
  {
    if v >= 0x8000_0000 { EuclidUnique(Signed(v), WORD, -1, v); }
  }

  lemma SignedMod(imm: int)
    requires -0x800 <= imm < 0x800
    ensures Signed(imm) == Signed(imm % WORD)
  {
  }

  lemma AddMod(a: Word, imm: int)
    ensures (a + imm) % WORD == (a + imm % WORD) % WORD
  {
  }

  // ----- Masks of mstatus and mip -----

  lemma Weights()
    ensures Pow2(3) == 8 && Pow2(7) == 0x80 && Pow2(11) == 0x800 && Pow2(12) == 0x1000
  {
    assert Pow2(8) == 256;
  }

  /** `m | (b << k)` for a bit b. */
  lemma SetsOrKeeps(m: Word, b: int, w: int)
    requires 0 <= b <= 1 && w in {8, 0x80}
    ensures Or(m, b * w) == if b == 1 then On(m, w) else m
  {
    hide PyInt.Bitwise; hide PyInt.SetBit; hide PyInt.Pow2;
    Weights();
    OneBit(m, if w == 8 then 3 else 7);
    AndZero(m);
  }

  lemma ClearsOne(m: Word, w: int)
    requires w in {8, 0x80}
    ensures And(m, Not(w)) == Off(m, w)
  {
    hide PyInt.Bitwise; hide PyInt.ClearBit; hide PyInt.Pow2;
    Weights();
    OneBit(m, if w == 8 then 3 else 7);
  }

  lemma ClearsBoth(m: Word)
    ensures And(m, Not(0x88)) == Off(Off(m, 8), 0x80)
  {
    hide Isa.Off;
    assert And(Not(8), Not(0x80)) == Not(0x88);
    hide PyInt.Bitwise;
    ClearsOne(m, 8);
    ClearsOne(Off(m, 8), 0x80);
    BitwiseAssociates(CONJ, m, Not(8), Not(0x80));
  }

  /** The interrupt-enable stack on trap entry and on MRET. */
  lemma Pushes(m: Word)
    ensures Or(And(m, Not(0x88)), Bit(m, 8) * 0x80) == EnterTrap(m)
  {
    hide PyInt.And; hide PyInt.Or; hide Isa.On; hide Isa.Off;
    ClearsBoth(m);
    SetsOrKeeps(Off(Off(m, 8), 0x80), Bit(m, 8), 0x80);
  }

  lemma Pops(m: Word)
    ensures Or(Or(And(m, Not(8)), Bit(m, 0x80) * 8), 0x80) == LeaveTrap(m)
  {
    hide PyInt.And; hide PyInt.Or; hide Isa.On; hide Isa.Off;
    ClearsOne(m, 8);
    SetsOrKeeps(Off(m, 8), Bit(m, 0x80), 8);
    SetsOrKeeps(if Bit(m, 0x80) == 1 then On(Off(m, 8), 8) else Off(m, 8), 1, 0x80);
  }

  lemma Overwrites(c: Csrs, n: CsrIndex, v: Word, w: Word)
    ensures c[n := v][n := w] == c[n := w]
  {
  }

  function WithMpp(m: Word): (r: Word)
    ensures r == On(On(m, BIT_MPP0), BIT_MPP1)
  {
    SetsMpp(m);
    Or(m, 0x1800)
  }

  lemma SetsMpp(m: Word)
    ensures Or(m, 0x1800) == On(On(m, 0x800), 0x1000)
  {
    assert Or(0x800, 0x1000) == 0x1800;
    hide PyInt.Bitwise; hide PyInt.SetBit; hide PyInt.Pow2;
    Weights();
    OneBit(m, 11);
    OneBit(On(m, 0x800), 12);
    BitwiseAssociates(DISJ, m, 0x800, 0x1000);
  }
}
