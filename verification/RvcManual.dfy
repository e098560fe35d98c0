/** What the compressed instructions mean, written from the instruction listings of chapter 16 of the
    RISC-V Unprivileged ISA 20191213 without reference to any 32-bit encoding. */
module RvcManual {
  import opened PyInt
  import opened Memory
  import opened Isa

  // ----- Formats -----

  /** The register fields: five bits, or three bits that name x8 to x15. */
  function Rd(c: bv16): bv5 { ((c >> 7) & 0x1F) as bv5 }

  function Rs2(c: bv16): bv5 { ((c >> 2) & 0x1F) as bv5 }

  function Rd'(c: bv16): bv5 { (((c >> 7) & 0x7) + 8) as bv5 }

  function Rs2'(c: bv16): bv5 { (((c >> 2) & 0x7) + 8) as bv5 }

  // The immediates, one group of bits at a time from the left end of the instruction.

  function SmallImm(c: bv16): bv32 {
    var w := c as bv32;
    Extend((((w >> 12) & 0x1) << 5) | ((w >> 2) & 0x1F), 0x20)
  }

  function StackAdd(c: bv16): bv32 {
    var w := c as bv32;
    Extend((((w >> 12) & 0x1) << 9) | (((w >> 6) & 0x1) << 4) | (((w >> 5) & 0x1) << 6) | (((w >> 3) & 0x3) << 7) |
           (((w >> 2) & 0x1) << 5), 0x200)
  }

  function WideStackAdd(c: bv16): bv32 {
    var w := c as bv32;
    (((w >> 11) & 0x3) << 4) | (((w >> 7) & 0xF) << 6) | (((w >> 6) & 0x1) << 2) | (((w >> 5) & 0x1) << 3)
  }

  function WordOffset(c: bv16): bv32 {
    var w := c as bv32;
    (((w >> 10) & 0x7) << 3) | (((w >> 6) & 0x1) << 2) | (((w >> 5) & 0x1) << 6)
  }

  function JumpOffset(c: bv16): bv32 {
    var w := c as bv32;
    Extend((((w >> 12) & 0x1) << 11) | (((w >> 11) & 0x1) << 4) | (((w >> 9) & 0x3) << 8) | (((w >> 8) & 0x1) << 10) |
           (((w >> 7) & 0x1) << 6) | (((w >> 6) & 0x1) << 7) | (((w >> 3) & 0x7) << 1) | (((w >> 2) & 0x1) << 5), 0x800)
  }

  function BranchOffset(c: bv16): bv32 {
    var w := c as bv32;
    Extend((((w >> 12) & 0x1) << 8) | (((w >> 10) & 0x3) << 3) | (((w >> 5) & 0x3) << 6) | (((w >> 3) & 0x3) << 1) |
           (((w >> 2) & 0x1) << 5), 0x100)
  }

  function StackLoadOffset(c: bv16): bv32 {
    var w := c as bv32;
    (((w >> 12) & 0x1) << 5) | (((w >> 4) & 0x7) << 2) | (((w >> 2) & 0x3) << 6)
  }

  function StackStoreOffset(c: bv16): bv32 {
    var w := c as bv32;
    (((w >> 9) & 0xF) << 2) | (((w >> 7) & 0x3) << 6)
  }

  // ----- Instructions -----

  datatype Name =
    | C_ADDI4SPN | C_LW | C_SW | C_ADDI | C_JAL | C_LI | C_ADDI16SP | C_LUI | C_SRLI | C_SRAI | C_ANDI
    | C_SUB | C_XOR | C_OR | C_AND | C_J | C_BEQZ | C_BNEZ | C_SLLI | C_LWSP | C_JR | C_MV | C_EBREAK
    | C_JALR | C_ADD | C_SWSP
    | Reserved

  /** Which instruction a word encodes. Shift amounts of 32 and more, and the code points that RV32C
      leaves to other extensions, are `Reserved`. */
  function NameOf(c: bv16): Name {
    var quadrant, funct3 := c & 0x3, c >> 13;
    var rd, rs2 := Rd(c), Rs2(c);
    var high := c & 0x1000 != 0;
    if quadrant == 0 then
      if funct3 == 0 && WideStackAdd(c) != 0 then C_ADDI4SPN
      else if funct3 == 2 then C_LW
      else if funct3 == 6 then C_SW
      else Reserved
    else if quadrant == 1 then
      match funct3
      case 0 => C_ADDI
      case 1 => C_JAL
      case 2 => C_LI
      case 3 =>
        if rd == 2 then (if StackAdd(c) != 0 then C_ADDI16SP else Reserved)
        else if SmallImm(c) != 0 then C_LUI else Reserved
      case 4 =>
        (match (c >> 10) & 0x3
         case 0 => if high then Reserved else C_SRLI
         case 1 => if high then Reserved else C_SRAI
         case 2 => C_ANDI
         case _ =>
           if high then Reserved
           else match (c >> 5) & 0x3
                case 0 => C_SUB case 1 => C_XOR case 2 => C_OR case _ => C_AND)
      case 5 => C_J
      case 6 => C_BEQZ
      case _ => C_BNEZ
    else if quadrant == 2 then
      match funct3
      case 0 => if high then Reserved else C_SLLI
      case 2 => if rd != 0 then C_LWSP else Reserved
      case 4 =>
        if !high && rs2 == 0 then (if rd != 0 then C_JR else Reserved)
        else if !high then C_MV
        else if rs2 != 0 then C_ADD
        else if rd != 0 then C_JALR else C_EBREAK
      case 6 => C_SWSP
      case _ => Reserved
    else Reserved
  }

  function Shamt(c: bv16): bv32 { (c as bv32 >> 2) & 0x1F }

  /** An instruction with its operands; those it does not have are zero. */
  datatype Compressed = Compressed(name: Name, rd: Index, rs1: Index, rs2: Index, imm: Word)

  function Operands(name: Name, c: bv16): (i: Compressed)
    ensures i.name == name
  {
    match name
    case C_ADDI4SPN => Compressed(name, Num(Rs2'(c)), 2, 0, Val(WideStackAdd(c)))
    case C_LW => Compressed(name, Num(Rs2'(c)), Num(Rd'(c)), 0, Val(WordOffset(c)))
    case C_SW => Compressed(name, 0, Num(Rd'(c)), Num(Rs2'(c)), Val(WordOffset(c)))
    case C_ADDI => Compressed(name, Num(Rd(c)), Num(Rd(c)), 0, Val(SmallImm(c)))
    case C_JAL => Compressed(name, 1, 0, 0, Val(JumpOffset(c)))
    case C_LI => Compressed(name, Num(Rd(c)), 0, 0, Val(SmallImm(c)))
    case C_ADDI16SP => Compressed(name, 2, 2, 0, Val(StackAdd(c)))
    case C_LUI => Compressed(name, Num(Rd(c)), 0, 0, Val(SmallImm(c) << 12))
    case C_SRLI => Compressed(name, Num(Rd'(c)), Num(Rd'(c)), 0, Val(Shamt(c)))
    case C_SRAI => Compressed(name, Num(Rd'(c)), Num(Rd'(c)), 0, Val(Shamt(c)))
    case C_ANDI => Compressed(name, Num(Rd'(c)), Num(Rd'(c)), 0, Val(SmallImm(c)))
    case C_SUB => Compressed(name, Num(Rd'(c)), Num(Rd'(c)), Num(Rs2'(c)), 0)
    case C_XOR => Compressed(name, Num(Rd'(c)), Num(Rd'(c)), Num(Rs2'(c)), 0)
    case C_OR => Compressed(name, Num(Rd'(c)), Num(Rd'(c)), Num(Rs2'(c)), 0)
    case C_AND => Compressed(name, Num(Rd'(c)), Num(Rd'(c)), Num(Rs2'(c)), 0)
    case C_J => Compressed(name, 0, 0, 0, Val(JumpOffset(c)))
    case C_BEQZ => Compressed(name, 0, Num(Rd'(c)), 0, Val(BranchOffset(c)))
    case C_BNEZ => Compressed(name, 0, Num(Rd'(c)), 0, Val(BranchOffset(c)))
    case C_SLLI => Compressed(name, Num(Rd(c)), Num(Rd(c)), 0, Val(Shamt(c)))
    case C_LWSP => Compressed(name, Num(Rd(c)), 2, 0, Val(StackLoadOffset(c)))
    case C_JR => Compressed(name, 0, Num(Rd(c)), 0, 0)
    case C_MV => Compressed(name, Num(Rd(c)), 0, Num(Rs2(c)), 0)
    case C_EBREAK => Compressed(name, 0, 0, 0, 0)
    case C_JALR => Compressed(name, 1, Num(Rd(c)), 0, 0)
    case C_ADD => Compressed(name, Num(Rd(c)), Num(Rd(c)), Num(Rs2(c)), 0)
    case C_SWSP => Compressed(name, 0, 2, Num(Rs2(c)), Val(StackStoreOffset(c)))
    case Reserved => Compressed(Reserved, 0, 0, 0, 0)
  }

  // ----- Meaning -----

  /** Writes to x0 are lost. */
  function Put(s: State, r: Index, v: Word): Effect {
    Go(if r == 0 then s else s.(x := s.x[r := v]))
  }

  function LoadInto(cfg: Config, s: State, r: Index, addr: Word): Effect {
    match Memory.Load(cfg.checked, s.mem, addr, 4)
    case None => Effect(s, Fault)
    case Some(v) => WordRange(s.mem, addr); Put(s, r, v)
  }

  function ShiftRight(a: Word, n: nat): Word { Shrinks(a, Pow2(n)); a / Pow2(n) }

  function WordAnd(a: Word, b: Word): Word { WordOps(a, b); And(a, b) }

  function WordOr(a: Word, b: Word): Word { WordOps(a, b); Or(a, b) }

  function WordXor(a: Word, b: Word): Word { WordOps(a, b); Xor(a, b) }

  /** Section 16.8, instruction by instruction. The state already has `nextPc` two bytes on. */
  function Meaning(cfg: Config, s: State, i: Compressed): Effect
    requires i.name != Reserved
  {
    var a, b, imm := s.x[i.rs1], s.x[i.rs2], i.imm;
    var linked := s.(x := s.x[1 := (s.pc + 2) % WORD]);
    match i.name
    case C_ADDI4SPN => Put(s, i.rd, (s.x[2] + imm) % WORD)
    case C_ADDI16SP => Put(s, 2, (s.x[2] + imm) % WORD)
    case C_ADDI => Put(s, i.rd, (a + imm) % WORD)
    case C_LI => Put(s, i.rd, imm)
    case C_LUI => Put(s, i.rd, imm)
    case C_MV => Put(s, i.rd, b)
    case C_ADD => Put(s, i.rd, (a + b) % WORD)
    case C_SUB => Put(s, i.rd, (a - b) % WORD)
    case C_XOR => Put(s, i.rd, WordXor(a, b))
    case C_OR => Put(s, i.rd, WordOr(a, b))
    case C_AND => Put(s, i.rd, WordAnd(a, b))
    case C_ANDI => Put(s, i.rd, WordAnd(a, imm))
    case C_SRLI => Put(s, i.rd, ShiftRight(a, imm))
    case C_SRAI => Put(s, i.rd, Signed(a) / Pow2(imm) % WORD)
    case C_SLLI => Put(s, i.rd, a * Pow2(imm) % WORD)
    case C_LW => LoadInto(cfg, s, i.rd, (a + imm) % WORD)
    case C_LWSP => LoadInto(cfg, s, i.rd, (s.x[2] + imm) % WORD)
    case C_SW => StoreTo(cfg, s, (a + imm) % WORD, 4, b)
    case C_SWSP => StoreTo(cfg, s, (s.x[2] + imm) % WORD, 4, b)
    case C_J => Jump(cfg, s, (s.pc + imm) % WORD, s)
    case C_JAL => Jump(cfg, s, (s.pc + imm) % WORD, linked)
    case C_JR => Jump(cfg, s, a - a % 2, s)
    case C_JALR => Jump(cfg, s, a - a % 2, linked)
    case C_BEQZ => if a == 0 then Jump(cfg, s, (s.pc + imm) % WORD, s) else Go(s)
    case C_BNEZ => if a != 0 then Jump(cfg, s, (s.pc + imm) % WORD, s) else Go(s)
    case C_EBREAK => ExecEbreak(s)
  }
}
