/** Decoding and executing a 32-bit instruction amounts to what the manual says it does, on every state. */
module WordMeaning {
  import opened PyInt
  import opened Memory
  import opened Isa
  import opened Manual
  import Arithmetic
  import Binary64
  import RvcManual
  import RvcMeaning

  // ----- Each word decodes to the instruction it stands for -----

  /** The decoded instruction with the same meaning. */
  function Target(l: Line): Instr {
    match l.name
    case Computes(op) => Reg(op, l.rd, l.rs1, l.rs2)
    case ComputesImm(op) => Imm(op, l.rd, l.rs1, if Shifts(op) then l.rs2 else l.immI)
    case Branches(cond) => Branch(cond, l.rs1, l.rs2, l.immB)
    case Loads(n, signed) => Isa.Load(n, signed, l.rd, l.rs1, l.immI)
    case Stores(n) => Isa.Store(n, l.rs1, l.rs2, l.immS)
    case Atomic(amo) => Amo(amo, l.rd, l.rs1, l.rs2)
    case Csrr(op, immediate) => Csr(op, l.rd, l.rs1, immediate, l.csr)
    case LUI => Lui(l.rd, l.immU)
    case AUIPC => Auipc(l.rd, l.immU)
    case JAL => Jal(l.rd, l.immJ)
    case JALR => Jalr(l.rd, l.rs1, l.immI)
    case ECALL => Ecall
    case EBREAK => Ebreak
    case MRET => Mret
    case FENCE => Nop
    case WFI => Nop
    case NotListed => Illegal
  }

  predicate DecodesRight(w: bv32) { Decode(Split(w), w) == Target(LineOf(w)) }

  /** The fields and immediates are those of the figures. */
  lemma SameFields(w: bv32)
    ensures var f := Split(w);
            && f.rd == RdOf(w) && f.rs1 == Rs1Of(w) && f.rs2 == Rs2Of(w)
            && f.opcode == Opcode(w) && f.funct3 == Funct3(w) && f.funct7 == Funct7(w)
    ensures (w >> 27) as bv5 == Funct5(w) && CsrField(w) == CsrOf(w) as int
  {
  }

  lemma SameImmI(w: bv32)
    ensures ImmI(w) == IType(w)
  {
    if w & 0x8000_0000 == 0 { assert (w >> 20) & 0x800 == 0; } else { assert (w >> 20) & 0x800 == 0x800; }
  }

  lemma SameImmS(w: bv32)
    ensures ImmS(w) == SType(w)
  {
    if w & 0x8000_0000 == 0 {
      assert ((w >> 25) << 5) & 0x800 == 0;
    } else {
      assert ((w >> 25) << 5) & 0x800 == 0x800;
    }
  }

  lemma SameImmB(w: bv32)
    ensures ImmB(w) == BType(w)
  {
    if w & 0x8000_0000 == 0 {
      assert ((w >> 31) << 12) & 0x1000 == 0;
    } else {
      assert ((w >> 31) << 12) & 0x1000 == 0x1000;
    }
  }

  lemma SameImmU(w: bv32)
    ensures ImmU(w) == UType(w)
  {
  }

  lemma SameImmJ(w: bv32)
    ensures ImmJ(w) == JType(w)
  {
    if w & 0x8000_0000 == 0 {
      assert ((w >> 31) << 20) & 0x10_0000 == 0;
    } else {
      assert ((w >> 31) << 20) & 0x10_0000 == 0x10_0000;
    }
  }

  lemma ShiftAmount(w: bv32)
    ensures Val((w >> 20) & 0x1F) == Num(Rs2Of(w))
  {
  }

  lemma NamesRegister(funct7: bv7, funct3: bv3)
    ensures RegisterName(funct7, funct3) == match RegOp(funct7, funct3)
                                            case Some(op) => Computes(op)
                                            case None => NotListed
  {
  }

  lemma NamesImmediate(funct7: bv7, funct3: bv3)
    ensures ImmediateName(funct7, funct3) == match ImmOp(funct7, funct3)
                                             case Some(op) => ComputesImm(op)
                                             case None => NotListed
  {
  }

  lemma NamesAtomic(funct5: bv5)
    ensures AtomicName(funct5) == Atomic(AmoOf(funct5))
  {
  }

  lemma NamesOthers(funct3: bv3)
    ensures BranchName(funct3) == match BranchKind(funct3) case Some(c) => Branches(c) case None => NotListed
    ensures LoadName(funct3) == match LoadKind(funct3) case Some((n, signed)) => Loads(n, signed) case None => NotListed
    ensures StoreName(funct3) == match StoreKind(funct3) case Some(n) => Stores(n) case None => NotListed
  {
  }

  lemma DecodesAlu(w: bv32)
    requires Opcode(w) == 0x33 || Opcode(w) == 0x13
    ensures DecodesRight(w)
  {
    hide Isa.Num; hide Isa.Val; hide Isa.Split; hide Isa.ImmI; hide Isa.ImmS; hide Isa.ImmB; hide Isa.ImmU;
    hide Isa.ImmJ; hide IType; hide SType; hide BType; hide JType; hide UType; hide RdOf; hide Rs1Of; hide Rs2Of;
    hide CsrOf;
    hide Isa.RegOp; hide Isa.ImmOp; hide RegisterName; hide ImmediateName; hide Shifts; hide Funct7; hide Funct3;
    SameFields(w);
    NamesRegister(Funct7(w), Funct3(w));
    NamesImmediate(Funct7(w), Funct3(w));
    SameImmI(w);
    ShiftAmount(w);
  }

  lemma DecodesAccess(w: bv32)
    requires Opcode(w) == 0x03 || Opcode(w) == 0x23 || Opcode(w) == 0x63
    ensures DecodesRight(w)
  {
    hide Isa.Num; hide Isa.Val; hide Isa.Split; hide Isa.ImmI; hide Isa.ImmS; hide Isa.ImmB; hide Isa.ImmU;
    hide Isa.ImmJ; hide IType; hide SType; hide BType; hide JType; hide UType; hide RdOf; hide Rs1Of; hide Rs2Of;
    hide CsrOf;
    hide Isa.BranchKind; hide Isa.LoadKind; hide Isa.StoreKind; hide BranchName; hide LoadName; hide StoreName;
    hide Funct7; hide Funct3;
    SameFields(w);
    NamesOthers(Funct3(w));
    SameImmI(w);
    SameImmS(w);
    SameImmB(w);
  }

  lemma DecodesAtomic(w: bv32)
    requires Opcode(w) == 0x2F
    ensures DecodesRight(w)
  {
    hide Isa.Num; hide Isa.Val; hide Isa.Split; hide Isa.ImmI; hide Isa.ImmS; hide Isa.ImmB; hide Isa.ImmU;
    hide Isa.ImmJ; hide IType; hide SType; hide BType; hide JType; hide UType; hide RdOf; hide Rs1Of; hide Rs2Of;
    hide CsrOf;
    hide Isa.AmoOf; hide AtomicName; hide Funct5; hide Funct7; hide Funct3;
    SameFields(w);
    NamesAtomic(Funct5(w));
  }

  lemma NamesSystem(w: bv32, f: Fields)
    requires Opcode(w) == 0x73 && f.funct3 == Funct3(w)
    ensures SystemName(w, f.funct3) == if w == 0x73 then ECALL
                                       else if w == 0x3020_0073 then MRET
                                       else if w == 0x0010_0073 then EBREAK
                                       else match CsrKind(f.funct3)
                                            case Some((op, immediate)) => Csrr(op, immediate)
                                            case None => if w == 0x1050_0073 then WFI else NotListed
  {
  }

  lemma DecodesSystem(w: bv32)
    requires Opcode(w) == 0x73
    ensures DecodesRight(w)
  {
    hide Isa.Num; hide Isa.Val; hide Isa.Split; hide Isa.ImmI; hide Isa.ImmS; hide Isa.ImmB; hide Isa.ImmU;
    hide Isa.ImmJ; hide IType; hide SType; hide BType; hide JType; hide UType; hide RdOf; hide Rs1Of; hide Rs2Of;
    hide CsrOf;
    hide Isa.CsrKind; hide SystemName; hide Isa.CsrField; hide Funct7; hide Funct3;
    SameFields(w);
    NamesSystem(w, Split(w));
  }

  lemma DecodesOther(w: bv32)
    requires Opcode(w) !in {0x33, 0x13, 0x03, 0x23, 0x63, 0x2F, 0x73}
    ensures DecodesRight(w)
  {
    hide Isa.Num; hide Isa.Val; hide Isa.Split; hide Isa.ImmI; hide Isa.ImmS; hide Isa.ImmB; hide Isa.ImmU;
    hide Isa.ImmJ; hide IType; hide SType; hide BType; hide JType; hide UType; hide RdOf; hide Rs1Of; hide Rs2Of;
    hide CsrOf;
    hide Funct7; hide Funct3;
    SameFields(w);
    SameImmI(w);
    SameImmU(w);
    SameImmJ(w);
  }

  /** Every 32-bit word decodes to the instruction that the manual lists, with the manual's operands. */
  lemma DecodesAll(w: bv32)
    ensures DecodesRight(w)
  {
    hide DecodesRight;
    if Opcode(w) == 0x33 || Opcode(w) == 0x13 { DecodesAlu(w); }
    else if Opcode(w) == 0x03 || Opcode(w) == 0x23 || Opcode(w) == 0x63 { DecodesAccess(w); }
    else if Opcode(w) == 0x2F { DecodesAtomic(w); }
    else if Opcode(w) == 0x73 { DecodesSystem(w); }
    else { DecodesOther(w); }
  }

  // ----- Each instruction does what the manual says -----

  lemma BelowIsLess(a: Word, b: Word)
    ensures Below(a, b) <==> Signed(a) < Signed(b)
  {
    Flipped(a);
    Flipped(b);
  }

  lemma Flipped(a: Word)
    ensures (a + 0x8000_0000) % WORD == Signed(a) + 0x8000_0000
  {
  }

  lemma ShiftedIs(a: Word, n: nat)
    requires n < 32
    ensures Shifted(a, n) == Signed(a) / Pow2(n) % WORD
  {
    hide PyInt.Pow2;
    var p, q := Pow2(n), Pow2(32 - n);
    PowersMeet(n);
    Quotients(a, p, q);
    Shrinks(a, p);
    QuotientBelow(a, p, q);
    QuotientBelow(WORD - 1, p, q);
    hide RvcManual.ShiftRight;
    ShiftIs(a, n);
    ShiftIs(WORD - 1, n);
    if a >= 0x8000_0000 { EuclidUnique(a / p - q, WORD, -1, a / p - q + WORD); }
  }

  lemma ShiftIs(a: Word, n: nat)
    ensures RvcManual.ShiftRight(a, n) == a / Pow2(n)
  {
  }

  lemma Quotients(a: Word, p: int, q: int)
    requires p > 0 && q > 0 && p * q == WORD
    ensures (WORD - 1) / p == q - 1 && (a - WORD) / p == a / p - q && q <= WORD
  {
    Less(p, q, 1);
    Less(p, a / p, q);
    EuclidUnique(WORD - 1, p, q - 1, p - 1);
    EuclidUnique(a - WORD, p, a / p - q, a % p);
    Binary64.MulMono(1, p, q);
  }

  lemma Less(p: int, x: int, y: int)
    ensures p * (x - y) == p * x - p * y
  {
  }

  lemma QuotientBelow(a: Word, p: int, q: int)
    requires p > 0 && p * q == WORD
    ensures a / p < q
  {
    if a / p >= q { Binary64.MulMono(q, a / p, p); }
  }

  lemma PowersMeet(n: nat)
    requires n < 32
    ensures Pow2(n) * Pow2(32 - n) == WORD
  {
    Pow32();
    PowAdd(n, 32 - n);
  }

  lemma {:induction false} PowAdd(m: nat, n: nat)
    ensures Pow2(m + n) == Pow2(m) * Pow2(n)
    decreases m
  {
    if m > 0 {
      PowAdd(m - 1, n);
      assert Pow2(m) == 2 * Pow2(m - 1);
    }
  }

  lemma SameResult(op: AluOp, a: Word, b: Word)
    ensures Alu(op, a, b) == Computed(op, a, b)
  {
    hide PyInt.And; hide PyInt.Or; hide PyInt.Xor; hide PyInt.Pow2; hide Binary64.TruncatedQuotient; hide Shifted;
    hide Below;
    BelowIsLess(a, b);
    if op == SRA { ShiftedIs(a, b % 32); }
    if op == SUB && a < b { EuclidUnique(a - b, WORD, -1, a - b + WORD); }
  }

  lemma SameCondition(cond: Cond, a: Word, b: Word)
    ensures Taken(cond, a, b) <==> Holds(cond, a, b)
  {
    hide Below;
    BelowIsLess(a, b);
  }

  lemma SameCombination(amo: AmoOp, was: Word, b: Word)
    requires amo != LR && amo != SC && amo != UNKNOWN
    ensures Combine(amo, was, b) == Swapped(amo, was, b)
  {
    hide Below; hide PyInt.And; hide PyInt.Or; hide PyInt.Xor;
    BelowIsLess(b, was);
    BelowIsLess(was, b);
  }

  predicate LoadListed(n: nat, signed: bool) { (n == 1 || n == 2) || (n == 4 && !signed) }

  lemma SameValue(n: nat, signed: bool, v: nat)
    requires LoadListed(n, signed) && v < Pow256(n)
    ensures Loaded(n, signed, v) == if signed then Widened(n, v) else v % WORD
  {
    assert Pow256(1) == 0x100 && Pow256(2) == 0x1_0000;
  }

  function After4(s: State): State { s.(nextPc := (s.pc + 4) % WORD) }

  predicate SameMeaning(cfg: Config, s: State, l: Line) {
    Retire(Exec(cfg, s, Target(l), l.raw, 4)) == Meaning(cfg, s, l)
  }

  lemma ComputesMeaning(cfg: Config, s: State, l: Line)
    requires s.x[0] == 0 && (l.name.Computes? || l.name.ComputesImm?)
    ensures SameMeaning(cfg, s, l)
  {
    hide Isa.Alu; hide Computed; hide Isa.Retire;
    var a := s.x[l.rs1];
    var b := if l.name.Computes? then s.x[l.rs2] else if Shifts(l.name.op) then l.rs2 else l.immI;
    SameResult(l.name.op, a, b);
    RvcMeaning.PutRetires(s, l.rd, Alu(l.name.op, a, b));
  }

  lemma SameAlignment(cfg: Config, target: Word)
    ensures Misaligned(cfg, target) <==> target % 2 != 0 || (!cfg.rvc && target % 4 != 0)
  {
    if !cfg.rvc && target % 4 == 0 { EuclidUnique(target, 2, 2 * (target / 4), 0); }
  }

  lemma LinkRetires(cfg: Config, s: State, target: Word, rd: Index)
    requires s.x[0] == 0
    ensures Retire(Jump(cfg, s, target, Link(s, rd, 4))) == JumpTo(cfg, s, rd, target)
  {
    hide Isa.EnterTrap; hide Isa.Misaligned; hide Isa.Retire;
    SameAlignment(cfg, target);
    if Misaligned(cfg, target) {
      RvcMeaning.KeepsZero(Trap(s, 0, target, true));
    } else if rd == 0 {
      RvcMeaning.KeepsZero(Go(s.(nextPc := target)));
    } else {
      RvcMeaning.PutRetires(s.(nextPc := target), rd, (s.pc + 4) % WORD);
    }
  }

  lemma JumpMeaning(cfg: Config, s: State, l: Line)
    requires s.x[0] == 0 && (l.name.JAL? || l.name.JALR? || l.name.Branches?)
    ensures SameMeaning(cfg, s, l)
  {
    hide Isa.Jump; hide JumpTo; hide Isa.Taken; hide Holds;
    RvcMeaning.KeepsZero(Go(s));
    if l.name.JAL? {
      LinkRetires(cfg, s, (s.pc + l.immJ) % WORD, l.rd);
    } else if l.name.JALR? {
      EvenIs((s.x[l.rs1] + l.immI) % WORD);
      LinkRetires(cfg, s, Even((s.x[l.rs1] + l.immI) % WORD), l.rd);
    } else {
      SameCondition(l.name.cond, s.x[l.rs1], s.x[l.rs2]);
      LinkRetires(cfg, s, (s.pc + l.immB) % WORD, 0);
    }
  }

  lemma EvenIs(a: Word)
    ensures Even(a) == a / 2 * 2
  {
  }

  lemma AccessMeaning(cfg: Config, s: State, l: Line)
    requires s.x[0] == 0 && (l.name.Stores? || (l.name.Loads? && LoadListed(l.name.width, l.name.signed)))
    ensures SameMeaning(cfg, s, l)
  {
    hide Isa.Loaded; hide Widened; hide Memory.Read; hide Memory.Store; hide Isa.Retire;
    if l.name.Stores? {
      RvcMeaning.KeepsZero(StoreTo(cfg, s, (s.x[l.rs1] + l.immS) % WORD, l.name.width, s.x[l.rs2]));
    } else {
      var addr, n := (s.x[l.rs1] + l.immI) % WORD, l.name.width;
      RvcMeaning.KeepsZero(Effect(s, Fault));
      if Fits(cfg.checked, s.mem, addr, n) {
        var v := Read(s.mem, addr, n);
        ReadRange(s.mem, addr, n);
        SameValue(n, l.name.signed, v);
        RvcMeaning.PutRetires(s, l.rd, Loaded(n, l.name.signed, v));
      }
    }
  }

  lemma StoreIs(cfg: Config, s: State, n: nat, addr: Word, v: Word)
    ensures StoreTo(cfg, s, addr, n, v) == StoreInto(cfg, s, n, addr, v)
    ensures StoreInto(cfg, s, n, addr, v).s.x == s.x
  {
    hide Memory.Store;
  }

  lemma ConditionalMeaning(cfg: Config, s: State, rd: Index, addr: Word, b: Word, raw: Word)
    requires s.x[0] == 0 && addr % 4 == 0
    ensures Retire(ExecAmo(cfg, s, SC, rd, addr, b, raw)) == StoreConditional(cfg, s, rd, addr, b)
  {
    hide Isa.StoreTo; hide StoreInto;
    StoreIs(cfg, s, 4, addr, b);
    var e := StoreInto(cfg, s, 4, addr, b);
    RvcMeaning.PutRetires(s, rd, 1);
    RvcMeaning.PutRetires(e.s, rd, 0);
    RvcMeaning.KeepsZero(e);
  }

  lemma ReservedMeaning(cfg: Config, s: State, rd: Index, addr: Word, b: Word, raw: Word)
    requires s.x[0] == 0 && addr % 4 == 0
    ensures Retire(ExecAmo(cfg, s, LR, rd, addr, b, raw)) == LoadReserved(cfg, s, rd, addr)
  {
    hide Memory.Read;
    RvcMeaning.KeepsZero(Effect(s, Fault));
    if Fits(cfg.checked, s.mem, addr, 4) {
      WordRange(s.mem, addr);
      RvcMeaning.PutRetires(s.(reserved := true, reservedAddr := addr), rd, Read(s.mem, addr, 4));
    }
  }

  lemma ModifyMeaning(cfg: Config, s: State, amo: AmoOp, rd: Index, addr: Word, b: Word, raw: Word)
    requires s.x[0] == 0 && addr % 4 == 0 && amo != LR && amo != SC && amo != UNKNOWN
    ensures Retire(ExecAmo(cfg, s, amo, rd, addr, b, raw)) == ReadModifyWrite(cfg, s, amo, rd, addr, b)
  {
    hide Memory.Read; hide Isa.StoreTo; hide StoreInto; hide Isa.Combine; hide Swapped;
    RvcMeaning.KeepsZero(Effect(s, Fault));
    if Fits(cfg.checked, s.mem, addr, 4) {
      WordRange(s.mem, addr);
      var v := Read(s.mem, addr, 4);
      SameCombination(amo, v, b);
      StoreIs(cfg, s, 4, addr, Combine(amo, v, b));
      var e := StoreInto(cfg, s, 4, addr, Combine(amo, v, b));
      RvcMeaning.PutRetires(e.s, rd, v);
      RvcMeaning.KeepsZero(e);
    }
  }

  lemma AmoMeaning(cfg: Config, s: State, amo: AmoOp, rd: Index, addr: Word, b: Word, raw: Word)
    requires s.x[0] == 0
    ensures Retire(ExecAmo(cfg, s, amo, rd, addr, b, raw)) == AtomicMeaning(cfg, s, amo, rd, addr, b, raw)
  {
    if addr % 4 != 0 || amo == UNKNOWN {
      hide Isa.EnterTrap;
      RvcMeaning.KeepsZero(Trap(s, 6, addr, true));
      RvcMeaning.KeepsZero(Trap(s, 2, raw, true));
    } else {
      hide Isa.ExecAmo; hide Isa.Retire; hide LoadReserved; hide StoreConditional; hide ReadModifyWrite;
      if amo == LR { ReservedMeaning(cfg, s, rd, addr, b, raw); }
      else if amo == SC { ConditionalMeaning(cfg, s, rd, addr, b, raw); }
      else { ModifyMeaning(cfg, s, amo, rd, addr, b, raw); }
    }
  }

  lemma AtomicMeans(cfg: Config, s: State, l: Line)
    requires s.x[0] == 0 && l.name.Atomic?
    ensures SameMeaning(cfg, s, l)
  {
    hide Isa.ExecAmo; hide AtomicMeaning; hide Isa.Retire;
    AmoMeaning(cfg, s, l.name.amo, l.rd, s.x[l.rs1], s.x[l.rs2], l.raw);
  }

  lemma PlainMeans(cfg: Config, s: State, l: Line)
    requires s.x[0] == 0 && (l.name.LUI? || l.name.AUIPC? || l.name.FENCE? || l.name.WFI? || l.name.NotListed?)
    ensures SameMeaning(cfg, s, l)
  {
    hide Isa.EnterTrap; hide Isa.Retire;
    if l.name.LUI? { RvcMeaning.PutRetires(s, l.rd, l.immU); }
    else if l.name.AUIPC? { RvcMeaning.PutRetires(s, l.rd, (s.pc + l.immU) % WORD); }
    else if l.name.NotListed? { RvcMeaning.KeepsZero(Trap(s, 2, l.raw, true)); }
    else { RvcMeaning.KeepsZero(Go(s)); }
  }

  lemma SystemMeans(cfg: Config, s: State, l: Line)
    requires s.x[0] == 0 && (l.name.EBREAK? || l.name.MRET? || l.name.ECALL? || l.name.Csrr?)
    ensures SameMeaning(cfg, s, l)
  {
    hide Isa.EnterTrap; hide Isa.LeaveTrap; hide Isa.ExecEcall; hide Isa.ExecCsr; hide Isa.On; hide Isa.Retire;
    if l.name.EBREAK? { RvcMeaning.KeepsZero(ExecEbreak(s)); }
    if l.name.MRET? { RvcMeaning.KeepsZero(ExecMret(cfg, s)); }
  }

  lemma ListedWidths(w: bv32)
    ensures NameOf(w).Loads? ==> LoadListed(NameOf(w).width, NameOf(w).signed)
  {
    hide Funct7; hide Funct3; hide Funct5; hide Opcode;
  }

  lemma AnyMeans(cfg: Config, s: State, l: Line)
    requires s.x[0] == 0 && (l.name.Loads? ==> LoadListed(l.name.width, l.name.signed))
    ensures SameMeaning(cfg, s, l)
  {
    hide SameMeaning;
    if l.name.Computes? || l.name.ComputesImm? { ComputesMeaning(cfg, s, l); }
    else if l.name.JAL? || l.name.JALR? || l.name.Branches? { JumpMeaning(cfg, s, l); }
    else if l.name.Stores? || l.name.Loads? { AccessMeaning(cfg, s, l); }
    else if l.name.Atomic? { AtomicMeans(cfg, s, l); }
    else if l.name.EBREAK? || l.name.MRET? || l.name.ECALL? || l.name.Csrr? { SystemMeans(cfg, s, l); }
    else { PlainMeans(cfg, s, l); }
  }

  /** `execute_32` of every word does to every state what the manual says. */
  lemma WordsMean(cfg: Config, s: State, w: bv32)
    requires s.x[0] == 0
    ensures Execute32(cfg, s, w) == Meaning(cfg, After4(s), LineOf(w))
  {
    hide Isa.Decode; hide Isa.Split; hide Target; hide Isa.Exec; hide Isa.Retire; hide Meaning; hide NameOf;
    DecodesAll(w);
    ListedWidths(w);
    AnyMeans(cfg, After4(s), LineOf(w));
  }

  // ----- Comparisons, on the integers that the registers stand for -----

  predicate IsSigned(x: int) { -0x8000_0000 <= x < 0x8000_0000 }

  lemma BelowOnIntegers(x: int, y: int)
    requires IsSigned(x) && IsSigned(y)
    ensures Below(x % WORD, y % WORD) <==> x < y
  {
    hide Below;
    Arithmetic.SignedBack(x);
    Arithmetic.SignedBack(y);
    BelowIsLess(x % WORD, y % WORD);
  }

  lemma SameIntegers(x: int, y: int)
    requires IsSigned(x) && IsSigned(y)
    ensures x % WORD == y % WORD <==> x == y
  {
    Arithmetic.SignedBack(x);
    Arithmetic.SignedBack(y);
  }

  function BranchesTo(s: State, w: bv32, taken: bool): Effect {
    Go(s.(nextPc := (s.pc + if taken then Val(BType(w)) else 4) % WORD))
  }

  lemma BranchWord(cfg: Config, s: State, w: bv32, cond: Cond)
    requires s.x[0] == 0 && NameOf(w) == Branches(cond) && !Misaligned(cfg, (s.pc + Val(BType(w))) % WORD)
    ensures Execute32(cfg, s, w) == BranchesTo(s, w, Holds(cond, s.x[Num(Rs1Of(w))], s.x[Num(Rs2Of(w))]))
  {
    hide Isa.Execute32; hide Isa.Num; hide Isa.Val; hide BType; hide Holds; hide Isa.Misaligned; hide NameOf;
    hide Rs1Of; hide Rs2Of;
    WordsMean(cfg, s, w);
    SameAlignment(cfg, (s.pc + Val(BType(w))) % WORD);
  }

  /** BEQ, BNE, BLT and BGE compare the registers as signed integers, BLTU and BGEU as natural numbers. */
  predicate Condition(funct3: bv3, x: int, y: int) {
    match funct3
    case 0 => x == y
    case 1 => x != y
    case 4 => x < y
    case 5 => x >= y
    case 6 => x % WORD < y % WORD
    case _ => x % WORD >= y % WORD
  }

  lemma BranchesCompare(cfg: Config, s: State, w: bv32, x: int, y: int)
    requires s.x[0] == 0 && Opcode(w) == 0x63 && Funct3(w) != 2 && Funct3(w) != 3
    requires !Misaligned(cfg, (s.pc + Val(BType(w))) % WORD)
    requires IsSigned(x) && IsSigned(y) && s.x[Num(Rs1Of(w))] == x % WORD && s.x[Num(Rs2Of(w))] == y % WORD
    ensures Execute32(cfg, s, w) == BranchesTo(s, w, Condition(Funct3(w), x, y))
  {
    hide Isa.Execute32; hide Isa.Num; hide BranchesTo; hide Below; hide Isa.Misaligned; hide Funct3; hide Opcode;
    hide Rs1Of; hide Rs2Of; hide Isa.Val; hide BType;
    BelowOnIntegers(x, y);
    SameIntegers(x, y);
    BranchWord(cfg, s, w, NameOf(w).cond);
  }

  /** The two operands of a computation: registers, or a register and the I-immediate. */
  predicate Operands(s: State, w: bv32, x: int, y: int) {
    && s.x[Num(Rs1Of(w))] == x % WORD
    && ((Opcode(w) == 0x33 && Funct7(w) == 0x00 && s.x[Num(Rs2Of(w))] == y % WORD)
        || (Opcode(w) == 0x13 && Val(IType(w)) == y % WORD))
  }

  /** SLT and SLTI compare signed integers, SLTU and SLTIU natural numbers. */
  lemma SetsIfLess(cfg: Config, s: State, w: bv32, x: int, y: int)
    requires s.x[0] == 0 && IsSigned(x) && IsSigned(y) && Operands(s, w, x, y)
    ensures Funct3(w) == 2 ==> Execute32(cfg, s, w) == RvcManual.Put(After4(s), Num(RdOf(w)), if x < y then 1 else 0)
    ensures Funct3(w) == 3 ==>
              Execute32(cfg, s, w) == RvcManual.Put(After4(s), Num(RdOf(w)), if x % WORD < y % WORD then 1 else 0)
  {
    hide Isa.Execute32; hide Isa.Num; hide Isa.Val; hide IType; hide Below; hide Funct3; hide Opcode; hide Funct7;
    hide Rs1Of; hide Rs2Of; hide RdOf;
    WordsMean(cfg, s, w);
    BelowOnIntegers(x, y);
  }
}
