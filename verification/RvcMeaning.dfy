/** Expanding, decoding and executing a compressed instruction amounts to what the manual says it
    does, on every state. */
module RvcMeaning {
  import opened PyInt
  import opened Memory
  import opened Isa
  import opened Rvc
  import opened RvcManual
  import Binary64

  // ----- Where the expander departs from the manual -----

  /** Encodings the manual defines as HINTs, to be executed as no-ops, which the expander rejects. */
  predicate RejectedHint(c: bv16) {
    match NameOf(c)
    case C_LUI => Rd(c) == 0
    case C_SRLI => Rs2(c) == 0
    case C_SRAI => Rs2(c) == 0
    case C_SLLI => Rs2(c) == 0 || Rd(c) == 0
    case C_MV => Rd(c) == 0
    case _ => false
  }

  /** Shifts by 32 or more, which the expander passes on. */
  predicate ShiftTooFar(c: bv16) {
    && c & 0x1000 != 0
    && (c & 0xE803 == 0x8001 || (c & 0xE003 == 0x0002 && Rd(c) != 0))
  }

  /** The expander accepts exactly the defined encodings but for those HINTs, plus the shifts by 32 or
      more. */
  predicate Accepts(c: bv16) {
    (NameOf(c) != Reserved && !RejectedHint(c)) || ShiftTooFar(c)
  }

  // ----- Each expansion decodes to the instruction it stands for -----

  /** The 32-bit instruction with the same meaning. */
  function Target(i: Compressed): Instr {
    match i.name
    case C_ADDI4SPN => Imm(ADD, i.rd, i.rs1, i.imm)
    case C_ADDI => Imm(ADD, i.rd, i.rs1, i.imm)
    case C_ADDI16SP => Imm(ADD, i.rd, i.rs1, i.imm)
    case C_LI => Imm(ADD, i.rd, i.rs1, i.imm)
    case C_ANDI => Imm(AND, i.rd, i.rs1, i.imm)
    case C_SRLI => Imm(SRL, i.rd, i.rs1, i.imm)
    case C_SRAI => Imm(SRA, i.rd, i.rs1, i.imm)
    case C_SLLI => Imm(SLL, i.rd, i.rs1, i.imm)
    case C_LUI => Lui(i.rd, i.imm)
    case C_SUB => Reg(SUB, i.rd, i.rs1, i.rs2)
    case C_XOR => Reg(XOR, i.rd, i.rs1, i.rs2)
    case C_OR => Reg(OR, i.rd, i.rs1, i.rs2)
    case C_AND => Reg(AND, i.rd, i.rs1, i.rs2)
    case C_MV => Reg(ADD, i.rd, i.rs1, i.rs2)
    case C_ADD => Reg(ADD, i.rd, i.rs1, i.rs2)
    case C_LW => Load(4, false, i.rd, i.rs1, i.imm)
    case C_LWSP => Load(4, false, i.rd, i.rs1, i.imm)
    case C_SW => Store(4, i.rs1, i.rs2, i.imm)
    case C_SWSP => Store(4, i.rs1, i.rs2, i.imm)
    case C_J => Jal(i.rd, i.imm)
    case C_JAL => Jal(i.rd, i.imm)
    case C_JR => Jalr(i.rd, i.rs1, i.imm)
    case C_JALR => Jalr(i.rd, i.rs1, i.imm)
    case C_BEQZ => Branch(EQ, i.rs1, i.rs2, i.imm)
    case C_BNEZ => Branch(NE, i.rs1, i.rs2, i.imm)
    case C_EBREAK => Ebreak
    case Reserved => Illegal
  }

  /** What the expander accepts decodes to the instruction meant. */
  predicate ExpandsRight(c: bv16) {
    && (Expand(c).Some? <==> Accepts(c))
    && (Expand(c).Some? ==> var w := Expand(c).value; Decode(Split(w), w) == Target(Operands(NameOf(c), c)))
  }

  function PackI(imm: bv32, rs1: bv5, funct3: bv32, rd: bv5, op: bv32): bv32 {
    ((imm & 0xFFF) << 20) | (rs1 as bv32 << 15) | (funct3 << 12) | (rd as bv32 << 7) | op
  }

  function PackR(funct7: bv32, rs2: bv32, rs1: bv5, funct3: bv32, rd: bv5, op: bv32): bv32 {
    (funct7 << 25) | (rs2 << 20) | (rs1 as bv32 << 15) | (funct3 << 12) | (rd as bv32 << 7) | op
  }

  function PackU(imm: bv32, rd: bv5): bv32 { imm | (rd as bv32 << 7) | 0x37 }

  lemma JumpOffsets(c: bv16, w: bv32, link: bv5)
    requires w == JumpBits(c as bv32) | (link as bv32 << 7) | 0x6F
    ensures ImmJ(w) == JumpOffset(c)
  {
  }

  lemma JumpFields(c: bv32, w: bv32, link: bv5)
    requires w == JumpBits(c) | (link as bv32 << 7) | 0x6F
    ensures w & 0x7F == 0x6F && Split(w).rd == link
  {
  }

  lemma BranchOffsets(c: bv16, w: bv32, funct3: bv32)
    requires funct3 < 0x8 && w == BranchBits(c as bv32) | (funct3 << 12) | 0x63
    ensures w & 0x7F == 0x63 && (w >> 12) & 0x7 == funct3 && ImmB(w) == BranchOffset(c)
    ensures ((w >> 15) & 0x1F) as bv5 == Rd'(c) && (w >> 20) & 0x1F == 0
  {
  }

  // ----- Decoding by opcode -----

  lemma ReadsImm(w: bv32)
    requires w & 0x7F == 0x13
    ensures var f := Split(w);
            Decode(f, w) == match ImmOp(f.funct7, f.funct3)
                            case Some(op) => Imm(op, Num(f.rd), Num(f.rs1),
                                Val(if Shifts(op) then (w >> 20) & 0x1F else ImmI(w)))
                            case None => Illegal
  {
  }

  lemma ReadsReg(w: bv32)
    requires w & 0x7F == 0x33
    ensures var f := Split(w);
            Decode(f, w) == match RegOp(f.funct7, f.funct3)
                            case Some(op) => Reg(op, Num(f.rd), Num(f.rs1), Num(f.rs2))
                            case None => Illegal
  {
  }

  lemma ReadsLw(w: bv32)
    requires w & 0x7F == 0x03 && (w >> 12) & 0x7 == 2
    ensures Decode(Split(w), w) == Load(4, false, Num(Split(w).rd), Num(Split(w).rs1), Val(ImmI(w)))
  {
  }

  lemma ReadsSw(w: bv32)
    requires w & 0x7F == 0x23 && (w >> 12) & 0x7 == 2
    ensures Decode(Split(w), w) == Store(4, Num(Split(w).rs1), Num(Split(w).rs2), Val(ImmS(w)))
  {
  }

  lemma ReadsBranch(w: bv32)
    requires w & 0x7F == 0x63 && (w >> 12) & 0x6 == 0
    ensures Decode(Split(w), w)
         == Branch(if (w >> 12) & 0x1 == 0 then EQ else NE, Num(Split(w).rs1), Num(Split(w).rs2), Val(ImmB(w)))
  {
  }

  lemma ReadsJalr(w: bv32)
    requires w & 0x7F == 0x67 && (w >> 12) & 0x7 == 0
    ensures Decode(Split(w), w) == Jalr(Num(Split(w).rd), Num(Split(w).rs1), Val(ImmI(w)))
  {
  }

  lemma ReadsJal(w: bv32)
    requires w & 0x7F == 0x6F
    ensures Decode(Split(w), w) == Jal(Num(Split(w).rd), Val(ImmJ(w)))
  {
  }

  lemma ReadsLui(w: bv32)
    requires w & 0x7F == 0x37
    ensures Decode(Split(w), w) == Lui(Num(Split(w).rd), Val(ImmU(w)))
  {
  }

  lemma DecodesJal(c: bv16, w: bv32, link: bv5)
    requires w == JumpBits(c as bv32) | (link as bv32 << 7) | 0x6F
    ensures Decode(Split(w), w) == Jal(Num(link), Val(JumpOffset(c)))
  {
    JumpOffsets(c, w, link);
    JumpFields(c as bv32, w, link);
    ReadsJal(w);
  }

  lemma DecodesBranch(c: bv16, w: bv32, funct3: bv32)
    requires funct3 < 0x2 && w == BranchBits(c as bv32) | (funct3 << 12) | 0x63
    ensures Decode(Split(w), w) == Branch(if funct3 == 0 then EQ else NE, Num(Rd'(c)), 0, Val(BranchOffset(c)))
  {
    BranchOffsets(c, w, funct3);
    ReadsBranch(w);
  }

  lemma DecodesAddi(w: bv32, rd: bv5, rs1: bv5, imm: bv32)
    requires w == PackI(imm, rs1, 0, rd, 0x13)
    ensures Decode(Split(w), w) == Imm(ADD, Num(rd), Num(rs1), Val(Extend(imm & 0xFFF, 0x800)))
  {
    ReadsImm(w);
  }

  lemma DecodesAndi(w: bv32, rd: bv5, rs1: bv5, imm: bv32)
    requires w == PackI(imm, rs1, 7, rd, 0x13)
    ensures Decode(Split(w), w) == Imm(AND, Num(rd), Num(rs1), Val(Extend(imm & 0xFFF, 0x800)))
  {
    ReadsImm(w);
  }

  /** A shift by 32 or more spills into funct7 and becomes illegal. */
  lemma DecodesShift(w: bv32, rd: bv5, op: AluOp, funct7: bv32, funct3: bv32, shamt: bv32)
    requires shamt < 0x40
    requires (op == SLL && funct7 == 0 && funct3 == 1) || (op == SRL && funct7 == 0 && funct3 == 5)
          || (op == SRA && funct7 == 0x20 && funct3 == 5)
    requires w == PackR(funct7, shamt, rd, funct3, rd, 0x13)
    ensures Decode(Split(w), w) == if shamt >= 0x20 then Illegal else Imm(op, Num(rd), Num(rd), Val(shamt))
  {
    ReadsImm(w);
  }

  lemma DecodesReg(w: bv32, rd: bv5, rs1: bv5, rs2: bv5, op: AluOp, funct7: bv32, funct3: bv32)
    requires funct3 < 0x8 && funct7 < 0x80
    requires RegOp(funct7 as bv7, funct3 as bv3) == Some(op)
    requires w == PackR(funct7, rs2 as bv32, rs1, funct3, rd, 0x33)
    ensures Decode(Split(w), w) == Reg(op, Num(rd), Num(rs1), Num(rs2))
  {
    ReadsReg(w);
  }

  lemma DecodesJalr(w: bv32, rd: bv5, rs1: bv5)
    requires w == PackI(0, rs1, 0, rd, 0x67)
    ensures Decode(Split(w), w) == Jalr(Num(rd), Num(rs1), 0)
  {
    ReadsJalr(w);
  }

  lemma DecodesLw(w: bv32, rd: bv5, rs1: bv5, imm: bv32)
    requires imm < 0x800 && w == PackI(imm, rs1, 2, rd, 0x03)
    ensures Decode(Split(w), w) == Load(4, false, Num(rd), Num(rs1), Val(imm))
  {
    ReadsLw(w);
  }

  lemma DecodesSw(w: bv32, rs1: bv5, rs2: bv5, imm: bv32)
    requires imm < 0x800 && w == PackR(imm >> 5, rs2 as bv32, rs1, 2, (imm & 0x1F) as bv5, 0x23)
    ensures Decode(Split(w), w) == Store(4, Num(rs1), Num(rs2), Val(imm))
  {
    ReadsSw(w);
  }

  lemma DecodesLui(w: bv32, rd: bv5, imm: bv32)
    requires imm & 0xFFF == 0 && w == PackU(imm, rd)
    ensures Decode(Split(w), w) == Lui(Num(rd), Val(imm))
  {
    ReadsLui(w);
  }

  // ----- One instruction at a time -----

  function ShiftField(c: bv16): bv32 { ((c as bv32 >> 7) & 0x20) | ((c as bv32 >> 2) & 0x1F) }

  lemma SameSmallImm(c: bv16)
    ensures Imm6(c as bv32) == SmallImm(c)
  {
  }

  lemma FormAddi4spn(c: bv16)
    requires c & 0xE003 == 0x0000
    ensures (NameOf(c) == C_ADDI4SPN || NameOf(c) == Reserved)
            && Expand(c) == if Accepts(c) then Some(PackI(WideStackAdd(c), 2, 0, Rs2'(c), 0x13)) else None
  {
  }

  lemma ExpandsAddi4spn(c: bv16)
    requires c & 0xE003 == 0x0000
    ensures ExpandsRight(c)
  {
    hide Rvc.Expand; hide Isa.Decode; hide Isa.Split;
    FormAddi4spn(c);
    var w := PackI(WideStackAdd(c), 2, 0, Rs2'(c), 0x13);
    DecodesAddi(w, Rs2'(c), 2, WideStackAdd(c));
  }

  lemma FormLw(c: bv16)
    requires c & 0xE003 == 0x4000
    ensures NameOf(c) == C_LW && Accepts(c) && Expand(c) == Some(PackI(WordOffset(c), Rd'(c), 2, Rs2'(c), 0x03))
  {
  }

  lemma ExpandsLw(c: bv16)
    requires c & 0xE003 == 0x4000
    ensures ExpandsRight(c)
  {
    hide Rvc.Expand; hide Isa.Decode; hide Isa.Split;
    FormLw(c);
    var w := PackI(WordOffset(c), Rd'(c), 2, Rs2'(c), 0x03);
    DecodesLw(w, Rs2'(c), Rd'(c), WordOffset(c));
  }

  lemma FormSw(c: bv16)
    requires c & 0xE003 == 0xC000
    ensures NameOf(c) == C_SW && Accepts(c)
            && Expand(c) == Some(PackR(WordOffset(c) >> 5, Rs2'(c) as bv32, Rd'(c), 2, (WordOffset(c) & 0x1F) as bv5,
                0x23))
  {
  }

  lemma ExpandsSw(c: bv16)
    requires c & 0xE003 == 0xC000
    ensures ExpandsRight(c)
  {
    hide Rvc.Expand; hide Isa.Decode; hide Isa.Split;
    FormSw(c);
    var w := PackR(WordOffset(c) >> 5, Rs2'(c) as bv32, Rd'(c), 2, (WordOffset(c) & 0x1F) as bv5, 0x23);
    DecodesSw(w, Rd'(c), Rs2'(c), WordOffset(c));
  }

  lemma FormAddi(c: bv16)
    requires c & 0xE003 == 0x0001
    ensures NameOf(c) == C_ADDI && Accepts(c) && Expand(c) == Some(PackI(SmallImm(c), Rd(c), 0, Rd(c), 0x13))
  {
  }

  lemma ExpandsAddi(c: bv16)
    requires c & 0xE003 == 0x0001
    ensures ExpandsRight(c)
  {
    hide Rvc.Expand; hide Isa.Decode; hide Isa.Split;
    FormAddi(c);
    var w := PackI(SmallImm(c), Rd(c), 0, Rd(c), 0x13);
    DecodesAddi(w, Rd(c), Rd(c), SmallImm(c));
  }

  lemma FormJal(c: bv16)
    requires c & 0xE003 == 0x2001
    ensures NameOf(c) == C_JAL && Accepts(c) && Expand(c) == Some(JumpBits(c as bv32) | (1 << 7) | 0x6F)
  {
  }

  lemma ExpandsJal(c: bv16)
    requires c & 0xE003 == 0x2001
    ensures ExpandsRight(c)
  {
    hide Rvc.Expand; hide Isa.Decode; hide Isa.Split; hide Rvc.JumpBits; hide RvcManual.JumpOffset;
    FormJal(c);
    var w := JumpBits(c as bv32) | (1 << 7) | 0x6F;
    DecodesJal(c, w, 1);
  }

  lemma FormLi(c: bv16)
    requires c & 0xE003 == 0x4001
    ensures NameOf(c) == C_LI && Accepts(c) && Expand(c) == Some(PackI(SmallImm(c), 0, 0, Rd(c), 0x13))
  {
  }

  lemma ExpandsLi(c: bv16)
    requires c & 0xE003 == 0x4001
    ensures ExpandsRight(c)
  {
    hide Rvc.Expand; hide Isa.Decode; hide Isa.Split;
    FormLi(c);
    var w := PackI(SmallImm(c), 0, 0, Rd(c), 0x13);
    DecodesAddi(w, Rd(c), 0, SmallImm(c));
  }

  lemma FormAddi16sp(c: bv16)
    requires c & 0xE003 == 0x6001 && Rd(c) == 2
    ensures (NameOf(c) == C_ADDI16SP || NameOf(c) == Reserved)
            && Expand(c) == if Accepts(c) then Some(PackI(StackAdd(c), 2, 0, 2, 0x13)) else None
  {
  }

  lemma ExpandsAddi16sp(c: bv16)
    requires c & 0xE003 == 0x6001 && Rd(c) == 2
    ensures ExpandsRight(c)
  {
    hide Rvc.Expand; hide Isa.Decode; hide Isa.Split;
    FormAddi16sp(c);
    var w := PackI(StackAdd(c), 2, 0, 2, 0x13);
    DecodesAddi(w, 2, 2, StackAdd(c));
  }

  lemma FormLui(c: bv16)
    requires c & 0xE003 == 0x6001 && Rd(c) != 2
    ensures (NameOf(c) == C_LUI || NameOf(c) == Reserved)
            && Expand(c) == if Accepts(c) then Some(PackU(SmallImm(c) << 12, Rd(c))) else None
  {
    hide Rvc.Imm6; hide RvcManual.SmallImm; hide Rvc.JumpBits; hide Rvc.BranchBits; hide Rvc.Arithmetic;
    hide Rvc.Quadrant0; hide Rvc.Quadrant2;
    SameSmallImm(c);
    SmallImmZero(c);
  }

  lemma SmallImmZero(c: bv16)
    ensures SmallImm(c) == 0 <==> c & 0x107C == 0
  {
  }

  lemma ExpandsLui(c: bv16)
    requires c & 0xE003 == 0x6001 && Rd(c) != 2
    ensures ExpandsRight(c)
  {
    hide Rvc.Expand; hide Isa.Decode; hide Isa.Split;
    FormLui(c);
    var w := PackU(SmallImm(c) << 12, Rd(c));
    DecodesLui(w, Rd(c), SmallImm(c) << 12);
  }

  lemma FormSrli(c: bv16)
    requires c & 0xEC03 == 0x8001
    ensures (NameOf(c) == C_SRLI || NameOf(c) == Reserved)
            && Expand(c) == if Accepts(c) then Some(PackR(0, ShiftField(c), Rd'(c), 5, Rd'(c), 0x13)) else None
  {
  }

  lemma ExpandsSrli(c: bv16)
    requires c & 0xEC03 == 0x8001
    ensures ExpandsRight(c)
  {
    hide Rvc.Expand; hide Isa.Decode; hide Isa.Split;
    FormSrli(c);
    var w := PackR(0, ShiftField(c), Rd'(c), 5, Rd'(c), 0x13);
    DecodesShift(w, Rd'(c), SRL, 0, 5, ShiftField(c));
  }

  lemma FormSrai(c: bv16)
    requires c & 0xEC03 == 0x8401
    ensures (NameOf(c) == C_SRAI || NameOf(c) == Reserved)
            && Expand(c) == if Accepts(c) then Some(PackR(0x20, ShiftField(c), Rd'(c), 5, Rd'(c), 0x13)) else None
  {
  }

  lemma ExpandsSrai(c: bv16)
    requires c & 0xEC03 == 0x8401
    ensures ExpandsRight(c)
  {
    hide Rvc.Expand; hide Isa.Decode; hide Isa.Split;
    FormSrai(c);
    var w := PackR(0x20, ShiftField(c), Rd'(c), 5, Rd'(c), 0x13);
    DecodesShift(w, Rd'(c), SRA, 0x20, 5, ShiftField(c));
  }

  lemma FormAndi(c: bv16)
    requires c & 0xEC03 == 0x8801
    ensures NameOf(c) == C_ANDI && Accepts(c) && Expand(c) == Some(PackI(SmallImm(c), Rd'(c), 7, Rd'(c), 0x13))
  {
  }

  lemma ExpandsAndi(c: bv16)
    requires c & 0xEC03 == 0x8801
    ensures ExpandsRight(c)
  {
    hide Rvc.Expand; hide Isa.Decode; hide Isa.Split;
    FormAndi(c);
    var w := PackI(SmallImm(c), Rd'(c), 7, Rd'(c), 0x13);
    DecodesAndi(w, Rd'(c), Rd'(c), SmallImm(c));
  }

  lemma FormSub(c: bv16)
    requires c & 0xFC63 == 0x8C01
    ensures NameOf(c) == C_SUB && Accepts(c) && Expand(c) == Some(PackR(0x20, Rs2'(c) as bv32, Rd'(c), 0, Rd'(c), 0x33))
  {
  }

  lemma ExpandsSub(c: bv16)
    requires c & 0xFC63 == 0x8C01
    ensures ExpandsRight(c)
  {
    hide Rvc.Expand; hide Isa.Decode; hide Isa.Split;
    FormSub(c);
    var w := PackR(0x20, Rs2'(c) as bv32, Rd'(c), 0, Rd'(c), 0x33);
    DecodesReg(w, Rd'(c), Rd'(c), Rs2'(c), SUB, 0x20, 0);
  }

  lemma FormXor(c: bv16)
    requires c & 0xFC63 == 0x8C21
    ensures NameOf(c) == C_XOR && Accepts(c) && Expand(c) == Some(PackR(0, Rs2'(c) as bv32, Rd'(c), 4, Rd'(c), 0x33))
  {
  }

  lemma ExpandsXor(c: bv16)
    requires c & 0xFC63 == 0x8C21
    ensures ExpandsRight(c)
  {
    hide Rvc.Expand; hide Isa.Decode; hide Isa.Split;
    FormXor(c);
    var w := PackR(0, Rs2'(c) as bv32, Rd'(c), 4, Rd'(c), 0x33);
    DecodesReg(w, Rd'(c), Rd'(c), Rs2'(c), XOR, 0, 4);
  }

  lemma FormOr(c: bv16)
    requires c & 0xFC63 == 0x8C41
    ensures NameOf(c) == C_OR && Accepts(c) && Expand(c) == Some(PackR(0, Rs2'(c) as bv32, Rd'(c), 6, Rd'(c), 0x33))
  {
  }

  lemma ExpandsOr(c: bv16)
    requires c & 0xFC63 == 0x8C41
    ensures ExpandsRight(c)
  {
    hide Rvc.Expand; hide Isa.Decode; hide Isa.Split;
    FormOr(c);
    var w := PackR(0, Rs2'(c) as bv32, Rd'(c), 6, Rd'(c), 0x33);
    DecodesReg(w, Rd'(c), Rd'(c), Rs2'(c), OR, 0, 6);
  }

  lemma FormAnd(c: bv16)
    requires c & 0xFC63 == 0x8C61
    ensures NameOf(c) == C_AND && Accepts(c) && Expand(c) == Some(PackR(0, Rs2'(c) as bv32, Rd'(c), 7, Rd'(c), 0x33))
  {
  }

  lemma ExpandsAnd(c: bv16)
    requires c & 0xFC63 == 0x8C61
    ensures ExpandsRight(c)
  {
    hide Rvc.Expand; hide Isa.Decode; hide Isa.Split;
    FormAnd(c);
    var w := PackR(0, Rs2'(c) as bv32, Rd'(c), 7, Rd'(c), 0x33);
    DecodesReg(w, Rd'(c), Rd'(c), Rs2'(c), AND, 0, 7);
  }

  lemma FormJ(c: bv16)
    requires c & 0xE003 == 0xA001
    ensures NameOf(c) == C_J && Accepts(c) && Expand(c) == Some(JumpBits(c as bv32) | (0 << 7) | 0x6F)
  {
  }

  lemma ExpandsJ(c: bv16)
    requires c & 0xE003 == 0xA001
    ensures ExpandsRight(c)
  {
    hide Rvc.Expand; hide Isa.Decode; hide Isa.Split; hide Rvc.JumpBits; hide RvcManual.JumpOffset;
    FormJ(c);
    var w := JumpBits(c as bv32) | (0 << 7) | 0x6F;
    DecodesJal(c, w, 0);
  }

  lemma FormBeqz(c: bv16)
    requires c & 0xE003 == 0xC001
    ensures NameOf(c) == C_BEQZ && Accepts(c) && Expand(c) == Some(BranchBits(c as bv32) | (0 << 12) | 0x63)
  {
  }

  lemma ExpandsBeqz(c: bv16)
    requires c & 0xE003 == 0xC001
    ensures ExpandsRight(c)
  {
    hide Rvc.Expand; hide Isa.Decode; hide Isa.Split; hide Rvc.BranchBits; hide RvcManual.BranchOffset;
    FormBeqz(c);
    var w := BranchBits(c as bv32) | (0 << 12) | 0x63;
    DecodesBranch(c, w, 0);
  }

  lemma FormBnez(c: bv16)
    requires c & 0xE003 == 0xE001
    ensures NameOf(c) == C_BNEZ && Accepts(c) && Expand(c) == Some(BranchBits(c as bv32) | (1 << 12) | 0x63)
  {
  }

  lemma ExpandsBnez(c: bv16)
    requires c & 0xE003 == 0xE001
    ensures ExpandsRight(c)
  {
    hide Rvc.Expand; hide Isa.Decode; hide Isa.Split; hide Rvc.BranchBits; hide RvcManual.BranchOffset;
    FormBnez(c);
    var w := BranchBits(c as bv32) | (1 << 12) | 0x63;
    DecodesBranch(c, w, 1);
  }

  lemma NameSlli(c: bv16)
    requires c & 0xE003 == 0x0002
    ensures NameOf(c) == if c & 0x1000 != 0 then Reserved else C_SLLI
    ensures Accepts(c) <==> ShiftField(c) != 0 && Rd(c) != 0
  {
  }

  lemma FormSlli(c: bv16)
    requires c & 0xE003 == 0x0002
    ensures (NameOf(c) == C_SLLI || NameOf(c) == Reserved)
            && Expand(c) == if Accepts(c) then Some(PackR(0, ShiftField(c), Rd(c), 1, Rd(c), 0x13)) else None
  {
    NameSlli(c);
  }

  lemma ExpandsSlli(c: bv16)
    requires c & 0xE003 == 0x0002
    ensures ExpandsRight(c)
  {
    hide Rvc.Expand; hide Isa.Decode; hide Isa.Split;
    FormSlli(c);
    var w := PackR(0, ShiftField(c), Rd(c), 1, Rd(c), 0x13);
    DecodesShift(w, Rd(c), SLL, 0, 1, ShiftField(c));
  }

  lemma FormLwsp(c: bv16)
    requires c & 0xE003 == 0x4002
    ensures (NameOf(c) == C_LWSP || NameOf(c) == Reserved)
            && Expand(c) == if Accepts(c) then Some(PackI(StackLoadOffset(c), 2, 2, Rd(c), 0x03)) else None
  {
  }

  lemma ExpandsLwsp(c: bv16)
    requires c & 0xE003 == 0x4002
    ensures ExpandsRight(c)
  {
    hide Rvc.Expand; hide Isa.Decode; hide Isa.Split;
    FormLwsp(c);
    var w := PackI(StackLoadOffset(c), 2, 2, Rd(c), 0x03);
    DecodesLw(w, Rd(c), 2, StackLoadOffset(c));
  }

  lemma FormJr(c: bv16)
    requires c & 0xF07F == 0x8002
    ensures (NameOf(c) == C_JR || NameOf(c) == Reserved)
            && Expand(c) == if Accepts(c) then Some(PackI(0, Rd(c), 0, 0, 0x67)) else None
  {
  }

  lemma ExpandsJr(c: bv16)
    requires c & 0xF07F == 0x8002
    ensures ExpandsRight(c)
  {
    hide Rvc.Expand; hide Isa.Decode; hide Isa.Split;
    FormJr(c);
    var w := PackI(0, Rd(c), 0, 0, 0x67);
    DecodesJalr(w, 0, Rd(c));
  }

  lemma FormMv(c: bv16)
    requires c & 0xF003 == 0x8002 && Rs2(c) != 0
    ensures (NameOf(c) == C_MV || NameOf(c) == Reserved)
            && Expand(c) == if Accepts(c) then Some(PackR(0, Rs2(c) as bv32, 0, 0, Rd(c), 0x33)) else None
  {
  }

  lemma ExpandsMv(c: bv16)
    requires c & 0xF003 == 0x8002 && Rs2(c) != 0
    ensures ExpandsRight(c)
  {
    hide Rvc.Expand; hide Isa.Decode; hide Isa.Split;
    FormMv(c);
    var w := PackR(0, Rs2(c) as bv32, 0, 0, Rd(c), 0x33);
    DecodesReg(w, Rd(c), 0, Rs2(c), ADD, 0, 0);
  }

  lemma FormJalr(c: bv16)
    requires c & 0xF07F == 0x9002 && Rd(c) != 0
    ensures NameOf(c) == C_JALR && Accepts(c) && Expand(c) == Some(PackI(0, Rd(c), 0, 1, 0x67))
  {
  }

  lemma ExpandsJalr(c: bv16)
    requires c & 0xF07F == 0x9002 && Rd(c) != 0
    ensures ExpandsRight(c)
  {
    hide Rvc.Expand; hide Isa.Decode; hide Isa.Split;
    FormJalr(c);
    var w := PackI(0, Rd(c), 0, 1, 0x67);
    DecodesJalr(w, 1, Rd(c));
  }

  lemma FormEbreak(c: bv16)
    requires c == 0x9002
    ensures NameOf(c) == C_EBREAK && Accepts(c) && Expand(c) == Some(0x0010_0073)
  {
  }

  lemma DecodesEbreak()
    ensures Decode(Split(0x0010_0073), 0x0010_0073) == Ebreak
  {
  }

  lemma ExpandsEbreak(c: bv16)
    requires c == 0x9002
    ensures ExpandsRight(c)
  {
    hide Rvc.Expand; hide Isa.Decode; hide Isa.Split;
    FormEbreak(c);
    DecodesEbreak();
  }

  lemma FormAdd(c: bv16)
    requires c & 0xF003 == 0x9002 && Rs2(c) != 0
    ensures NameOf(c) == C_ADD && Accepts(c) && Expand(c) == Some(PackR(0, Rs2(c) as bv32, Rd(c), 0, Rd(c), 0x33))
  {
  }

  lemma ExpandsAdd(c: bv16)
    requires c & 0xF003 == 0x9002 && Rs2(c) != 0
    ensures ExpandsRight(c)
  {
    hide Rvc.Expand; hide Isa.Decode; hide Isa.Split;
    FormAdd(c);
    var w := PackR(0, Rs2(c) as bv32, Rd(c), 0, Rd(c), 0x33);
    DecodesReg(w, Rd(c), Rd(c), Rs2(c), ADD, 0, 0);
  }

  lemma FormSwsp(c: bv16)
    requires c & 0xE003 == 0xC002
    ensures NameOf(c) == C_SWSP && Accepts(c)
            && Expand(c) == Some(PackR(StackStoreOffset(c) >> 5, Rs2(c) as bv32, 2, 2,
                (StackStoreOffset(c) & 0x1F) as bv5, 0x23))
  {
  }

  lemma ExpandsSwsp(c: bv16)
    requires c & 0xE003 == 0xC002
    ensures ExpandsRight(c)
  {
    hide Rvc.Expand; hide Isa.Decode; hide Isa.Split;
    FormSwsp(c);
    var w := PackR(StackStoreOffset(c) >> 5, Rs2(c) as bv32, 2, 2, (StackStoreOffset(c) & 0x1F) as bv5, 0x23);
    DecodesSw(w, 2, Rs2(c), StackStoreOffset(c));
  }

  /** Nothing else is defined or accepted. */
  predicate Elsewhere(c: bv16) {
    || c & 0x3 == 3
    || (c & 0x3 == 0 && c >> 13 != 0 && c >> 13 != 2 && c >> 13 != 6)
    || (c & 0x3 == 2 && c & 0x2000 != 0)
    || c & 0xFC03 == 0x9C01
  }

  lemma ExpandsNowhere(c: bv16)
    requires Elsewhere(c)
    ensures Expand(c).None? && NameOf(c) == Reserved && !ShiftTooFar(c)
  {
  }

  lemma ExpandsAll(c: bv16)
    ensures ExpandsRight(c)
  {
    if c & 0xE003 == 0x0000 {
      ExpandsAddi4spn(c);
    } else if c & 0xE003 == 0x4000 {
      ExpandsLw(c);
    } else if c & 0xE003 == 0xC000 {
      ExpandsSw(c);
    } else if c & 0xE003 == 0x0001 {
      ExpandsAddi(c);
    } else if c & 0xE003 == 0x2001 {
      ExpandsJal(c);
    } else if c & 0xE003 == 0x4001 {
      ExpandsLi(c);
    } else if c & 0xE003 == 0x6001 && Rd(c) == 2 {
      ExpandsAddi16sp(c);
    } else if c & 0xE003 == 0x6001 && Rd(c) != 2 {
      ExpandsLui(c);
    } else if c & 0xEC03 == 0x8001 {
      ExpandsSrli(c);
    } else if c & 0xEC03 == 0x8401 {
      ExpandsSrai(c);
    } else if c & 0xEC03 == 0x8801 {
      ExpandsAndi(c);
    } else if c & 0xFC63 == 0x8C01 {
      ExpandsSub(c);
    } else if c & 0xFC63 == 0x8C21 {
      ExpandsXor(c);
    } else if c & 0xFC63 == 0x8C41 {
      ExpandsOr(c);
    } else if c & 0xFC63 == 0x8C61 {
      ExpandsAnd(c);
    } else if c & 0xE003 == 0xA001 {
      ExpandsJ(c);
    } else if c & 0xE003 == 0xC001 {
      ExpandsBeqz(c);
    } else if c & 0xE003 == 0xE001 {
      ExpandsBnez(c);
    } else if c & 0xE003 == 0x0002 {
      ExpandsSlli(c);
    } else if c & 0xE003 == 0x4002 {
      ExpandsLwsp(c);
    } else if c & 0xF07F == 0x8002 {
      ExpandsJr(c);
    } else if c & 0xF003 == 0x8002 && Rs2(c) != 0 {
      ExpandsMv(c);
    } else if c & 0xF07F == 0x9002 && Rd(c) != 0 {
      ExpandsJalr(c);
    } else if c == 0x9002 {
      ExpandsEbreak(c);
    } else if c & 0xF003 == 0x9002 && Rs2(c) != 0 {
      ExpandsAdd(c);
    } else if c & 0xE003 == 0xC002 {
      ExpandsSwsp(c);
    } else {
      ExpandsNowhere(c);
    }
  }

  // ----- The theorem -----

  lemma PutRetires(s: State, r: Index, v: Word)
    requires s.x[0] == 0
    ensures Retire(Go(SetReg(s, r, v))) == Put(s, r, v)
  {
    if r == 0 {
      assert s.x[0 := v][0 := 0] == s.x;
    } else {
      assert s.x[r := v][0 := 0] == s.x[r := v];
    }
  }

  lemma KeepsZero(e: Effect)
    requires e.s.x[0] == 0
    ensures Retire(e) == e
  {
    assert e.s.x[0 := 0] == e.s.x;
  }

  /** The parts of an instruction that its name fixes. */
  predicate Regular(i: Compressed) {
    && (i.name in {C_ADDI4SPN, C_ADDI16SP, C_LWSP, C_SWSP} ==> i.rs1 == 2)
    && (i.name == C_ADDI16SP ==> i.rd == 2)
    && (i.name in {C_LI, C_MV} ==> i.rs1 == 0)
    && (i.name in {C_J, C_JR} ==> i.rd == 0)
    && (i.name in {C_JAL, C_JALR} ==> i.rd == 1)
    && (i.name in {C_JR, C_JALR} ==> i.imm == 0)
    && (i.name in {C_BEQZ, C_BNEZ} ==> i.rs2 == 0)
    && (i.name in {C_SRLI, C_SRAI, C_SLLI} ==> i.imm < 32)
  }

  /** The 32-bit instruction has the meaning the manual gives the compressed one. */
  predicate SameMeaning(cfg: Config, s: State, i: Compressed, raw: Word)
    requires i.name != Reserved
  {
    Retire(Exec(cfg, s, Target(i), raw, 2)) == Meaning(cfg, s, i)
  }

  // Retired forms of the instructions that expansions use.

  lemma RetireReg(cfg: Config, s: State, op: AluOp, rd: Index, rs1: Index, rs2: Index, raw: Word)
    requires s.x[0] == 0
    ensures Retire(Exec(cfg, s, Reg(op, rd, rs1, rs2), raw, 2)) == Put(s, rd, Alu(op, s.x[rs1], s.x[rs2]))
  {
    PutRetires(s, rd, Alu(op, s.x[rs1], s.x[rs2]));
  }

  lemma RetireImm(cfg: Config, s: State, op: AluOp, rd: Index, rs1: Index, imm: Word, raw: Word)
    requires s.x[0] == 0
    ensures Retire(Exec(cfg, s, Imm(op, rd, rs1, imm), raw, 2)) == Put(s, rd, Alu(op, s.x[rs1], imm))
  {
    PutRetires(s, rd, Alu(op, s.x[rs1], imm));
  }

  lemma ExecAccess(cfg: Config, s: State, r: Index, rs1: Index, imm: Word, raw: Word)
    ensures var addr := (s.x[rs1] + imm) % WORD;
            && Exec(cfg, s, Load(4, false, r, rs1, imm), raw, 2) == ExecLoad(cfg, s, 4, false, r, addr)
            && Exec(cfg, s, Store(4, rs1, r, imm), raw, 2) == StoreTo(cfg, s, addr, 4, s.x[r])
  {
    hide Isa.ExecLoad; hide Isa.StoreTo;
  }

  lemma RetireLoad(cfg: Config, s: State, rd: Index, rs1: Index, imm: Word, raw: Word)
    requires s.x[0] == 0
    ensures Retire(Exec(cfg, s, Load(4, false, rd, rs1, imm), raw, 2)) == LoadInto(cfg, s, rd, (s.x[rs1] + imm) % WORD)
  {
    hide Isa.Exec; hide Memory.Read; hide Isa.Retire; hide Put;
    var addr := (s.x[rs1] + imm) % WORD;
    ExecAccess(cfg, s, rd, rs1, imm, raw);
    if Memory.Load(cfg.checked, s.mem, addr, 4).Some? {
      WordRange(s.mem, addr);
      PutRetires(s, rd, Read(s.mem, addr, 4));
    } else {
      KeepsZero(Effect(s, Fault));
    }
  }

  lemma RetireStore(cfg: Config, s: State, rs1: Index, rs2: Index, imm: Word, raw: Word)
    requires s.x[0] == 0
    ensures Retire(Exec(cfg, s, Store(4, rs1, rs2, imm), raw, 2)) ==
            StoreTo(cfg, s, (s.x[rs1] + imm) % WORD, 4, s.x[rs2])
  {
    hide Isa.Exec; hide Memory.Store;
    ExecAccess(cfg, s, rs2, rs1, imm, raw);
    KeepsZero(StoreTo(cfg, s, (s.x[rs1] + imm) % WORD, 4, s.x[rs2]));
  }

  lemma JumpKeepsZero(cfg: Config, s: State, target: Word, rd: Index)
    requires s.x[0] == 0
    ensures Retire(Jump(cfg, s, target, Link(s, rd, 2))) == Jump(cfg, s, target, Link(s, rd, 2))
  {
    KeepsZero(Jump(cfg, s, target, Link(s, rd, 2)));
  }

  lemma AddMeaning(cfg: Config, s: State, i: Compressed, raw: Word)
    requires i.name in {C_ADD, C_SUB, C_MV} && Regular(i) && s.x[0] == 0
    ensures SameMeaning(cfg, s, i, raw)
  {
    hide Isa.Exec; hide Isa.Retire; hide PyInt.Bitwise; hide PyInt.Pow2; hide Binary64.TruncatedQuotient;
    RetireReg(cfg, s, Target(i).op, i.rd, i.rs1, i.rs2, raw);
  }

  lemma BitMeaning(cfg: Config, s: State, i: Compressed, raw: Word)
    requires i.name in {C_XOR, C_OR, C_AND} && s.x[0] == 0
    ensures SameMeaning(cfg, s, i, raw)
  {
    hide Isa.Exec; hide Isa.Retire; hide PyInt.Bitwise; hide PyInt.Pow2; hide Binary64.TruncatedQuotient;
    RetireReg(cfg, s, Target(i).op, i.rd, i.rs1, i.rs2, raw);
  }

  lemma ImmMeaning(cfg: Config, s: State, i: Compressed, raw: Word)
    requires i.name in {C_ADDI4SPN, C_ADDI16SP, C_ADDI, C_LI, C_ANDI} && Regular(i) && s.x[0] == 0
    ensures SameMeaning(cfg, s, i, raw)
  {
    hide Isa.Exec; hide Isa.Retire; hide PyInt.Bitwise; hide PyInt.Pow2; hide Binary64.TruncatedQuotient;
    RetireImm(cfg, s, Target(i).op, i.rd, i.rs1, i.imm, raw);
  }

  lemma ShiftMeaning(cfg: Config, s: State, i: Compressed, raw: Word)
    requires i.name in {C_SRLI, C_SRAI, C_SLLI} && Regular(i) && s.x[0] == 0
    ensures SameMeaning(cfg, s, i, raw)
  {
    hide Isa.Exec; hide Isa.Retire; hide PyInt.Bitwise; hide PyInt.Pow2; hide Binary64.TruncatedQuotient;
    assert i.imm % 32 == i.imm;
    RetireImm(cfg, s, Target(i).op, i.rd, i.rs1, i.imm, raw);
  }

  lemma LoadMeaning(cfg: Config, s: State, i: Compressed, raw: Word)
    requires i.name in {C_LW, C_LWSP} && Regular(i) && s.x[0] == 0
    ensures SameMeaning(cfg, s, i, raw)
  {
    hide Isa.Exec; hide Isa.Retire; hide Isa.StoreTo; hide RvcManual.LoadInto;
    RetireLoad(cfg, s, i.rd, i.rs1, i.imm, raw);
  }

  lemma StoreMeaning(cfg: Config, s: State, i: Compressed, raw: Word)
    requires i.name in {C_SW, C_SWSP} && Regular(i) && s.x[0] == 0
    ensures SameMeaning(cfg, s, i, raw)
  {
    hide Isa.Exec; hide Isa.Retire; hide Isa.StoreTo; hide RvcManual.LoadInto;
    RetireStore(cfg, s, i.rs1, i.rs2, i.imm, raw);
  }

  lemma JumpMeaning(cfg: Config, s: State, i: Compressed, raw: Word)
    requires i.name in {C_J, C_JAL} && Regular(i) && s.x[0] == 0
    ensures SameMeaning(cfg, s, i, raw)
  {
    hide Isa.Alu; hide Isa.Trap; hide Isa.ExecCsr; hide Isa.ExecAmo; hide Isa.ExecEcall; hide Isa.ExecMret;
    hide Isa.ExecEbreak;
    JumpKeepsZero(cfg, s, (s.pc + i.imm) % WORD, i.rd);
  }

  lemma JalrJumps(cfg: Config, s: State, rd: Index, rs1: Index, raw: Word)
    ensures Exec(cfg, s, Jalr(rd, rs1, 0), raw, 2) == Jump(cfg, s, Even(s.x[rs1]), Link(s, rd, 2))
  {
    hide Isa.Jump; hide Isa.Link; hide Isa.Even;
    assert (s.x[rs1] + 0) % WORD == s.x[rs1];
  }

  lemma IndirectMeaning(cfg: Config, s: State, i: Compressed, raw: Word)
    requires i.name in {C_JR, C_JALR} && Regular(i) && s.x[0] == 0
    ensures SameMeaning(cfg, s, i, raw)
  {
    hide Isa.Exec; hide Isa.Jump; hide Isa.Retire;
    JalrJumps(cfg, s, i.rd, i.rs1, raw);
    JumpKeepsZero(cfg, s, Even(s.x[i.rs1]), i.rd);
  }

  lemma BranchMeaning(cfg: Config, s: State, i: Compressed, raw: Word)
    requires i.name in {C_BEQZ, C_BNEZ} && Regular(i) && s.x[0] == 0
    ensures SameMeaning(cfg, s, i, raw)
  {
    hide Isa.Alu; hide Isa.Trap; hide Isa.ExecCsr; hide Isa.ExecAmo; hide Isa.ExecEcall; hide Isa.ExecMret;
    hide Isa.ExecEbreak;
    KeepsZero(Go(s));
    JumpKeepsZero(cfg, s, (s.pc + i.imm) % WORD, 0);
  }

  lemma OtherMeaning(cfg: Config, s: State, i: Compressed, raw: Word)
    requires i.name in {C_EBREAK, C_LUI} && s.x[0] == 0
    ensures SameMeaning(cfg, s, i, raw)
  {
    if i.name == C_LUI { PutRetires(s, i.rd, i.imm); } else { KeepsZero(ExecEbreak(s)); }
  }

  lemma AnyMeaning(cfg: Config, s: State, i: Compressed, raw: Word)
    requires i.name != Reserved && Regular(i) && s.x[0] == 0
    ensures SameMeaning(cfg, s, i, raw)
  {
    if i.name in {C_ADD, C_SUB, C_MV} { AddMeaning(cfg, s, i, raw); }
    else if i.name in {C_XOR, C_OR, C_AND} { BitMeaning(cfg, s, i, raw); }
    else if i.name in {C_ADDI4SPN, C_ADDI16SP, C_ADDI, C_LI, C_ANDI} { ImmMeaning(cfg, s, i, raw); }
    else if i.name in {C_SRLI, C_SRAI, C_SLLI} { ShiftMeaning(cfg, s, i, raw); }
    else if i.name in {C_LW, C_LWSP} { LoadMeaning(cfg, s, i, raw); }
    else if i.name in {C_SW, C_SWSP} { StoreMeaning(cfg, s, i, raw); }
    else if i.name in {C_J, C_JAL} { JumpMeaning(cfg, s, i, raw); }
    else if i.name in {C_JR, C_JALR} { IndirectMeaning(cfg, s, i, raw); }
    else if i.name in {C_BEQZ, C_BNEZ} { BranchMeaning(cfg, s, i, raw); }
    else { OtherMeaning(cfg, s, i, raw); }
  }

  /** The state with which a 16-bit instruction starts. */
  function After2(s: State): State { s.(nextPc := (s.pc + 2) % WORD) }

  lemma PerformMeaning(cfg: Config, s: State, i: Compressed, raw: Word)
    requires i.name != Reserved && Regular(i) && s.x[0] == 0
    ensures Perform(cfg, s, Target(i), raw, 2) == Meaning(cfg, After2(s), i)
  {
    AnyMeaning(cfg, After2(s), i, raw);
  }

  lemma ShamtSmall(c: bv16)
    ensures Val(Shamt(c)) < 32
  {
  }

  lemma OperandsRegular(name: Name, c: bv16)
    ensures Regular(Operands(name, c))
  {
    hide Isa.Num; hide Isa.Val; hide RvcManual.Shamt; hide RvcManual.SmallImm; hide RvcManual.JumpOffset;
    hide RvcManual.BranchOffset;
    hide RvcManual.WordOffset; hide RvcManual.StackAdd; hide RvcManual.WideStackAdd; hide RvcManual.StackLoadOffset;
    hide RvcManual.StackStoreOffset;
    ShamtSmall(c);
  }

  /** Every compressed instruction that the expander accepts does to every state what the manual says,
      and leads to the instruction two bytes on. */
  lemma CompressedMeaning(cfg: Config, s: State, c: bv16)
    requires Expand(c).Some? && NameOf(c) != Reserved && s.x[0] == 0
    ensures Execute16(cfg, s, c) == Meaning(cfg, After2(s), Operands(NameOf(c), c))
  {
    ExpandsAll(c);
    OperandsRegular(NameOf(c), c);
    PerformMeaning(cfg, s, Operands(NameOf(c), c), Val(Expand(c).value));
  }

  lemma HintsRefused(c: bv16)
    requires RejectedHint(c)
    ensures Expand(c).None?
  {
    hide Rvc.Expand;
    ExpandsAll(c);
  }

  /** To the emulator such a HINT is an illegal instruction. */
  lemma HintDiffers(cfg: Config, c: bv16)
    requires RejectedHint(c)
    ensures var s := Reset(cfg.rvc, [], 0);
            Execute16(cfg, s, c).halt == Terminated && Meaning(cfg, After2(s), Operands(NameOf(c), c)).halt == Running
  {
    hide Rvc.Expand; hide RvcManual.NameOf; hide Isa.Num; hide Isa.Val; hide PyInt.Pow2; hide RvcManual.ShiftRight;
    HintsRefused(c);
  }

  ghost predicate MeansTheSame(cfg: Config, c: bv16)
    requires NameOf(c) != Reserved
  {
    forall s: State | s.x[0] == 0 :: Execute16(cfg, s, c) == Meaning(cfg, After2(s), Operands(NameOf(c), c))
  }

  /** So a defined word does what the manual says on every state if and only if it is not such a HINT. */
  lemma MeaningExactly(cfg: Config, c: bv16)
    requires NameOf(c) != Reserved
    ensures MeansTheSame(cfg, c) <==> !RejectedHint(c)
  {
    hide RvcManual.NameOf; hide RejectedHint; hide RvcManual.Meaning; hide RvcManual.Operands; hide Rvc.Execute16;
    if RejectedHint(c) {
      HintDiffers(cfg, c);
    } else {
      AcceptedWords(c);
      forall s: State | s.x[0] == 0
        ensures Execute16(cfg, s, c) == Meaning(cfg, After2(s), Operands(NameOf(c), c))
      {
        CompressedMeaning(cfg, s, c);
      }
    }
  }

  /** A reserved word that the expander lets through is a shift by 32 or more: an illegal instruction. */
  lemma ReservedMeaning(cfg: Config, s: State, c: bv16)
    requires Expand(c).Some? && NameOf(c) == Reserved && s.x[0] == 0
    ensures ShiftTooFar(c)
    ensures Execute16(cfg, s, c) == Trap(After2(s), 2, Val(Expand(c).value), true)
  {
    hide Rvc.Expand; hide RvcManual.NameOf; hide ShiftTooFar; hide Isa.Decode; hide Isa.Split; hide Isa.Val;
    hide Isa.Perform;
    hide RejectedHint; hide Isa.Trap;
    ExpandsAll(c);
    IllegalPerforms(cfg, s, Val(Expand(c).value));
  }

  lemma IllegalPerforms(cfg: Config, s: State, raw: Word)
    requires s.x[0] == 0
    ensures Perform(cfg, s, Illegal, raw, 2) == Trap(After2(s), 2, raw, true)
  {
    hide Isa.EnterTrap;
    KeepsZero(Trap(After2(s), 2, raw, true));
  }

  /** Exactly the words that are reserved, or HINTs the expander does not know, are refused. */
  lemma AcceptedWords(c: bv16)
    ensures Expand(c).Some? <==> Accepts(c)
  {
    ExpandsAll(c);
  }
}
