/** What the 32-bit instructions mean, written from the instruction listings of chapter 24 and the descriptions of
    chapters 2, 7, 8 and 9 of the RISC-V Unprivileged ISA 20191213 without reference to the emulator's decoder. */
module Manual {
  import opened PyInt
  import opened Memory
  import opened Isa
  import RvcManual

  // ----- Instruction listings -----

  /** The instructions that the emulator knows: computations on two registers or with an immediate, branches, loads,
      stores, atomic instructions, CSR instructions with a register or an immediate, and the rest. */
  datatype Mnemonic =
    | Computes(op: AluOp) | ComputesImm(op: AluOp) | Branches(cond: Cond)
    | Loads(width: nat, signed: bool) | Stores(width: nat) | Atomic(amo: AmoOp) | Csrr(csrOp: CsrOp, immediate: bool)
    | LUI | AUIPC | JAL | JALR | FENCE | ECALL | EBREAK | MRET | WFI
    | NotListed

  // The columns of the listings.

  function Opcode(w: bv32): bv7 { (w & 0x7F) as bv7 }

  function Funct3(w: bv32): bv3 { ((w >> 12) & 0x7) as bv3 }

  function Funct7(w: bv32): bv7 { (w >> 25) as bv7 }

  function Funct5(w: bv32): bv5 { (w >> 27) as bv5 }

  function BranchName(funct3: bv3): Mnemonic {
    match funct3
    case 0 => Branches(EQ)
    case 1 => Branches(NE)
    case 4 => Branches(LT)
    case 5 => Branches(GE)
    case 6 => Branches(LTU)
    case 7 => Branches(GEU)
    case _ => NotListed
  }

  function LoadName(funct3: bv3): Mnemonic {
    match funct3
    case 0 => Loads(1, true)
    case 1 => Loads(2, true)
    case 2 => Loads(4, false)
    case 4 => Loads(1, false)
    case 5 => Loads(2, false)
    case _ => NotListed
  }

  function StoreName(funct3: bv3): Mnemonic {
    match funct3
    case 0 => Stores(1)
    case 1 => Stores(2)
    case 2 => Stores(4)
    case _ => NotListed
  }

  function ImmediateName(funct7: bv7, funct3: bv3): Mnemonic {
    match funct3
    case 0 => ComputesImm(ADD)
    case 1 => if funct7 == 0x00 then ComputesImm(SLL) else NotListed
    case 2 => ComputesImm(SLT)
    case 3 => ComputesImm(SLTU)
    case 4 => ComputesImm(XOR)
    case 5 => if funct7 == 0x00 then ComputesImm(SRL) else if funct7 == 0x20 then ComputesImm(SRA) else NotListed
    case 6 => ComputesImm(OR)
    case _ => ComputesImm(AND)
  }

  function RegisterName(funct7: bv7, funct3: bv3): Mnemonic {
    match funct3
    case 0 =>
      if funct7 == 0x00 then Computes(ADD) else if funct7 == 0x20 then Computes(SUB)
      else if funct7 == 0x01 then Computes(MUL) else NotListed
    case 1 => if funct7 == 0x00 then Computes(SLL) else if funct7 == 0x01 then Computes(MULH) else NotListed
    case 2 => if funct7 == 0x00 then Computes(SLT) else if funct7 == 0x01 then Computes(MULHSU) else NotListed
    case 3 => if funct7 == 0x00 then Computes(SLTU) else if funct7 == 0x01 then Computes(MULHU) else NotListed
    case 4 => if funct7 == 0x00 then Computes(XOR) else if funct7 == 0x01 then Computes(DIV) else NotListed
    case 5 =>
      if funct7 == 0x00 then Computes(SRL) else if funct7 == 0x20 then Computes(SRA)
      else if funct7 == 0x01 then Computes(DIVU) else NotListed
    case 6 => if funct7 == 0x00 then Computes(OR) else if funct7 == 0x01 then Computes(REM) else NotListed
    case _ => if funct7 == 0x00 then Computes(AND) else if funct7 == 0x01 then Computes(REMU) else NotListed
  }

  /** The ordering bits of an atomic instruction do not matter, nor does rs2 of an LR.W. The emulator tests the
      address of one that does not exist before it finds that out. */
  function AtomicName(funct5: bv5): Mnemonic {
    match funct5
    case 0x02 => Atomic(LR)
    case 0x03 => Atomic(SC)
    case 0x01 => Atomic(SWAP)
    case 0x00 => Atomic(AMOADD)
    case 0x04 => Atomic(AMOXOR)
    case 0x0C => Atomic(AMOAND)
    case 0x08 => Atomic(AMOOR)
    case 0x10 => Atomic(MIN)
    case 0x14 => Atomic(MAX)
    case 0x18 => Atomic(MINU)
    case 0x1C => Atomic(MAXU)
    case _ => Atomic(UNKNOWN)
  }

  function SystemName(w: bv32, funct3: bv3): Mnemonic {
    match funct3
    case 0 =>
      if w == 0x0000_0073 then ECALL
      else if w == 0x0010_0073 then EBREAK
      else if w == 0x3020_0073 then MRET
      else if w == 0x1050_0073 then WFI
      else NotListed
    case 1 => Csrr(RW, false)
    case 2 => Csrr(RS, false)
    case 3 => Csrr(RC, false)
    case 5 => Csrr(RW, true)
    case 6 => Csrr(RS, true)
    case 7 => Csrr(RC, true)
    case _ => NotListed
  }

  function NameOf(w: bv32): Mnemonic {
    match Opcode(w)
    case 0x37 => LUI
    case 0x17 => AUIPC
    case 0x6F => JAL
    case 0x67 => if Funct3(w) == 0 then JALR else NotListed
    case 0x63 => BranchName(Funct3(w))
    case 0x03 => LoadName(Funct3(w))
    case 0x23 => StoreName(Funct3(w))
    case 0x13 => ImmediateName(Funct7(w), Funct3(w))
    case 0x33 => RegisterName(Funct7(w), Funct3(w))
    case 0x0F => if Funct3(w) == 0 || Funct3(w) == 1 then FENCE else NotListed
    case 0x73 => SystemName(w, Funct3(w))
    case 0x2F => if Funct3(w) == 2 then AtomicName(Funct5(w)) else NotListed
    case _ => NotListed
  }

  // ----- Operands -----

  function RdOf(w: bv32): bv5 { ((w >> 7) & 0x1F) as bv5 }

  function Rs1Of(w: bv32): bv5 { ((w >> 15) & 0x1F) as bv5 }

  function Rs2Of(w: bv32): bv5 { ((w >> 20) & 0x1F) as bv5 }

  /** Bit 31 in each of these bits. */
  function SignBits(w: bv32, bits: bv32): bv32 { if w & 0x8000_0000 == 0 then 0 else bits }

  /** The immediates, bit by bit as in figure 2.4. */
  function IType(w: bv32): bv32 { SignBits(w, 0xFFFF_F800) | ((w >> 20) & 0x7FF) }

  function SType(w: bv32): bv32 { SignBits(w, 0xFFFF_F800) | ((w >> 20) & 0x7E0) | ((w >> 7) & 0x1F) }

  function BType(w: bv32): bv32 {
    SignBits(w, 0xFFFF_F000) | ((w << 4) & 0x800) | ((w >> 20) & 0x7E0) | ((w >> 7) & 0x1E)
  }

  function UType(w: bv32): bv32 { (w >> 12) << 12 }

  function JType(w: bv32): bv32 {
    SignBits(w, 0xFFF0_0000) | (w & 0xF_F000) | ((w >> 9) & 0x800) | ((w >> 20) & 0x7FE)
  }

  function CsrOf(w: bv32): bv12 { (w >> 20) as bv12 }

  /** An instruction with all operands that its word might have; `raw` is the word. */
  datatype Line = Line(
    name: Mnemonic, rd: Index, rs1: Index, rs2: Index,
    immI: Word, immS: Word, immB: Word, immU: Word, immJ: Word, csr: CsrIndex, raw: Word)

  function LineOf(w: bv32): Line {
    Line(NameOf(w), Num(RdOf(w)), Num(Rs1Of(w)), Num(Rs2Of(w)),
         Val(IType(w)), Val(SType(w)), Val(BType(w)), Val(UType(w)), Val(JType(w)), CsrOf(w) as int, Val(w))
  }

  // ----- Meaning -----

  /** Order of two words as signed numbers: that of the words with their sign bits flipped. */
  predicate Below(a: Word, b: Word) { (a + 0x8000_0000) % WORD < (b + 0x8000_0000) % WORD }

  /** A jump; rd gets the address of the next instruction, unless the target is misaligned. */
  function JumpTo(cfg: Config, s: State, rd: Index, target: Word): Effect {
    if target % 2 != 0 || (!cfg.rvc && target % 4 != 0) then Trap(s, 0, target, true)
    else RvcManual.Put(s.(nextPc := target), rd, (s.pc + 4) % WORD)
  }

  /** The value of n bytes, extended to a word by copies of its top bit. */
  function Widened(n: nat, v: nat): Word {
    if n == 1 then (if v % 0x100 < 0x80 then v % 0x100 else v % 0x100 + 0xFFFF_FF00)
    else (if v % 0x1_0000 < 0x8000 then v % 0x1_0000 else v % 0x1_0000 + 0xFFFF_0000)
  }

  function LoadInto(cfg: Config, s: State, n: nat, signed: bool, rd: Index, addr: Word): Effect {
    match Memory.Load(cfg.checked, s.mem, addr, n)
    case None => Effect(s, Fault)
    case Some(v) => RvcManual.Put(s, rd, if signed then Widened(n, v) else v % WORD)
  }

  /** A store that succeeds drops the reservation. */
  function StoreInto(cfg: Config, s: State, n: nat, addr: Word, v: Word): Effect {
    var (mem, ok) := Memory.Store(cfg.checked, s.mem, addr, n, v);
    if ok then Go(s.(mem := mem, reserved := false)) else Effect(s.(mem := mem), Fault)
  }

  /** What an AMO leaves in memory. */
  function Swapped(amo: AmoOp, was: Word, b: Word): Word {
    match amo
    case AMOADD => (was + b) % WORD
    case AMOXOR => RvcManual.WordXor(was, b)
    case AMOAND => RvcManual.WordAnd(was, b)
    case AMOOR => RvcManual.WordOr(was, b)
    case MIN => if Below(b, was) then b else was
    case MAX => if Below(was, b) then b else was
    case MINU => if b < was then b else was
    case MAXU => if was < b then b else was
    case _ => b
  }

  function LoadReserved(cfg: Config, s: State, rd: Index, addr: Word): Effect {
    match Memory.Load(cfg.checked, s.mem, addr, 4)
    case None => Effect(s, Fault)
    case Some(v) => RvcManual.Put(s.(reserved := true, reservedAddr := addr), rd, v % WORD)
  }

  function StoreConditional(cfg: Config, s: State, rd: Index, addr: Word, b: Word): Effect {
    if !(s.reserved && s.reservedAddr == addr) then RvcManual.Put(s, rd, 1)
    else
      var e := StoreInto(cfg, s, 4, addr, b);
      if e.halt == Running then RvcManual.Put(e.s, rd, 0) else e
  }

  function ReadModifyWrite(cfg: Config, s: State, amo: AmoOp, rd: Index, addr: Word, b: Word): Effect {
    match Memory.Load(cfg.checked, s.mem, addr, 4)
    case None => Effect(s, Fault)
    case Some(v) =>
      var e := StoreInto(cfg, s, 4, addr, Swapped(amo, v % WORD, b));
      if e.halt == Running then RvcManual.Put(e.s, rd, v % WORD) else e
  }

  function AtomicMeaning(cfg: Config, s: State, amo: AmoOp, rd: Index, addr: Word, b: Word, raw: Word): Effect {
    if addr % 4 != 0 then Trap(s, 6, addr, true)
    else match amo
         case LR => LoadReserved(cfg, s, rd, addr)
         case SC => StoreConditional(cfg, s, rd, addr, b)
         case UNKNOWN => Trap(s, 2, raw, true)
         case _ => ReadModifyWrite(cfg, s, amo, rd, addr, b)
  }

  /** A right shift that copies the sign bit: the bits that come in at the top are ones for a negative number. */
  function Shifted(a: Word, n: nat): Word {
    (RvcManual.ShiftRight(a, n) + if a < 0x8000_0000 then 0 else WORD - RvcManual.ShiftRight(WORD - 1, n) - 1) % WORD
  }

  /** Computations. The results of multiplications and divisions are the subject of the module Arithmetic. */
  function Computed(op: AluOp, a: Word, b: Word): Word {
    match op
    case ADD => (a + b) % WORD
    case SUB => (a + WORD - b) % WORD
    case SLT => if Below(a, b) then 1 else 0
    case SLTU => if a < b then 1 else 0
    case XOR => RvcManual.WordXor(a, b)
    case OR => RvcManual.WordOr(a, b)
    case AND => RvcManual.WordAnd(a, b)
    case SLL => a * Pow2(b % 32) % WORD
    case SRL => RvcManual.ShiftRight(a, b % 32)
    case SRA => Shifted(a, b % 32)
    case _ => Alu(op, a, b)
  }

  predicate Holds(cond: Cond, a: Word, b: Word) {
    match cond
    case EQ => a == b
    case NE => a != b
    case LT => Below(a, b)
    case GE => !Below(a, b)
    case LTU => a < b
    case GEU => !(a < b)
  }

  /** Instruction by instruction. The state already has `nextPc` four bytes on. The CSR instructions, ECALL, EBREAK
      and MRET are only told apart here; what they do is the subject of the modules CsrBits, Calls and Traps. */
  function Meaning(cfg: Config, s: State, l: Line): Effect {
    var a, b := s.x[l.rs1], s.x[l.rs2];
    match l.name
    case Computes(op) => RvcManual.Put(s, l.rd, Computed(op, a, b))
    case ComputesImm(op) =>
      RvcManual.Put(s, l.rd, Computed(op, a, if op.SLL? || op.SRL? || op.SRA? then l.rs2 else l.immI))
    case Branches(cond) => if Holds(cond, a, b) then JumpTo(cfg, s, 0, (s.pc + l.immB) % WORD) else Go(s)
    case Loads(n, signed) => LoadInto(cfg, s, n, signed, l.rd, (a + l.immI) % WORD)
    case Stores(n) => StoreInto(cfg, s, n, (a + l.immS) % WORD, b)
    case Atomic(amo) => AtomicMeaning(cfg, s, amo, l.rd, a, b, l.raw)
    case Csrr(op, immediate) => Retire(ExecCsr(s, op, l.rd, if immediate then l.rs1 else a, l.csr, l.raw))
    case LUI => RvcManual.Put(s, l.rd, l.immU)
    case AUIPC => RvcManual.Put(s, l.rd, (s.pc + l.immU) % WORD)
    case JAL => JumpTo(cfg, s, l.rd, (s.pc + l.immJ) % WORD)
    case JALR => JumpTo(cfg, s, l.rd, (a + l.immI) % WORD / 2 * 2)
    case FENCE => Go(s)
    case WFI => Go(s)
    case ECALL => Retire(ExecEcall(cfg, s))
    case EBREAK => ExecEbreak(s)
    case MRET => ExecMret(cfg, s)
    case NotListed => Trap(s, 2, l.raw, true)
  }
}
