/** The expander from 16-bit to 32-bit instructions. */
module Rvc {
  import opened Memory
  import opened Isa

  /** Bit patterns, masks and shifts as in the source; a sign-extended immediate is a 32-bit
      two's-complement number. `None` is the source's `(0, False)`. */
  function Expand(inst16: bv16): Option<bv32> {
    var c := inst16 as bv32;
    var funct3 := (c >> 13) & 0x7;
    match c & 0x3
    case 0 => Quadrant0(c, funct3)
    case 1 => Quadrant1(c, funct3)
    case 2 => Quadrant2(c, funct3)
    case _ => None
  }

  function Quadrant0(c: bv32, funct3: bv32): Option<bv32> {
    if funct3 == 0 then  // C.ADDI4SPN
      var nzuimm := ((c >> 7) & 0x30) | ((c >> 1) & 0x3C0) | ((c >> 4) & 0x4) | ((c >> 2) & 0x8);
      var rd' := ((c >> 2) & 0x7) + 8;
      if nzuimm == 0 then None
      else Some((nzuimm << 20) | (2 << 15) | (0 << 12) | (rd' << 7) | 0x13)
    else if funct3 == 2 then  // C.LW
      var imm := ((c >> 7) & 0x38) | ((c >> 4) & 0x4) | ((c << 1) & 0x40);
      var rs1' := ((c >> 7) & 0x7) + 8;
      var rd' := ((c >> 2) & 0x7) + 8;
      Some((imm << 20) | (rs1' << 15) | (0x2 << 12) | (rd' << 7) | 0x03)
    else if funct3 == 6 then  // C.SW
      var imm := ((c >> 7) & 0x38) | ((c >> 4) & 0x4) | ((c << 1) & 0x40);
      var rs1' := ((c >> 7) & 0x7) + 8;
      var rs2' := ((c >> 2) & 0x7) + 8;
      Some((((imm >> 5) & 0x7F) << 25) | (rs2' << 20) | (rs1' << 15) | (0x2 << 12) | ((imm & 0x1F) << 7) | 0x23)
    else None
  }

  /** The six-bit immediate of the CI format, sign-extended. */
  function Imm6(c: bv32): bv32 {
    var imm := ((c >> 7) & 0x20) | ((c >> 2) & 0x1F);
    if imm & 0x20 != 0 then imm - 0x40 else imm
  }

  /** The bits of a JAL for a C.J or C.JAL, without the link register. */
  function JumpBits(c: bv32): bv32 {
    var raw := ((c >> 1) & 0x800) | ((c << 2) & 0x400) | ((c >> 1) & 0x300) |
               ((c << 1) & 0x80) | ((c >> 1) & 0x40) | ((c << 3) & 0x20) |
               ((c >> 7) & 0x10) | ((c >> 2) & 0xE);
    var imm := if raw & 0x800 != 0 then raw - 0x1000 else raw;
    ((imm & 0x10_0000) << 11) | ((imm & 0x7FE) << 20) | ((imm & 0x800) << 9) | (imm & 0xF_F000)
  }

  /** The bits of a BEQ or BNE against x0, without funct3. */
  function BranchBits(c: bv32): bv32 {
    var raw := ((c >> 4) & 0x100) | ((c << 1) & 0xC0) | ((c << 3) & 0x20) |
               ((c >> 7) & 0x18) | ((c >> 2) & 0x6);
    var imm := if raw & 0x100 != 0 then raw - 0x200 else raw;
    var rs1' := ((c >> 7) & 0x7) + 8;
    var bits := ((imm & 0x1000) << 19) | ((imm & 0x7E0) << 20) | ((imm & 0x1E) << 7) | ((imm & 0x800) >> 4);
    bits | (0 << 20) | (rs1' << 15)
  }

  function Quadrant1(c: bv32, funct3: bv32): Option<bv32> {
    var rd := (c >> 7) & 0x1F;
    if funct3 == 0 then  // C.NOP / C.ADDI
      Some(((Imm6(c) & 0xFFF) << 20) | (rd << 15) | (0 << 12) | (rd << 7) | 0x13)
    else if funct3 == 1 then  // C.JAL
      Some(JumpBits(c) | (1 << 7) | 0x6F)
    else if funct3 == 2 then  // C.LI
      Some(((Imm6(c) & 0xFFF) << 20) | (0 << 15) | (0 << 12) | (rd << 7) | 0x13)
    else if funct3 == 3 then
      if rd == 2 then  // C.ADDI16SP
        var raw := ((c >> 3) & 0x200) | ((c >> 2) & 0x10) |
                   ((c << 1) & 0x40) | ((c << 4) & 0x180) | ((c << 3) & 0x20);
        var nzimm := if raw & 0x200 != 0 then raw - 0x400 else raw;
        if nzimm == 0 then None
        else Some(((nzimm & 0xFFF) << 20) | (2 << 15) | (0 << 12) | (2 << 7) | 0x13)
      else  // C.LUI
        var nzimm := Imm6(c);
        if nzimm == 0 || rd == 0 then None
        else Some(((nzimm & 0xF_FFFF) << 12) | (rd << 7) | 0x37)
    else if funct3 == 4 then Arithmetic(c)
    else if funct3 == 5 then  // C.J
      Some(JumpBits(c) | (0 << 7) | 0x6F)
    else if funct3 == 6 then  // C.BEQZ
      Some(BranchBits(c) | (0x0 << 12) | 0x63)
    else  // C.BNEZ
      Some(BranchBits(c) | (0x1 << 12) | 0x63)
  }

  function Arithmetic(c: bv32): Option<bv32> {
    var funct2 := (c >> 10) & 0x3;
    var rd' := ((c >> 7) & 0x7) + 8;
    var shamt := ((c >> 7) & 0x20) | ((c >> 2) & 0x1F);
    if funct2 == 0 then  // C.SRLI
      if shamt == 0 then None
      else Some((0x00 << 25) | (shamt << 20) | (rd' << 15) | (0x5 << 12) | (rd' << 7) | 0x13)
    else if funct2 == 1 then  // C.SRAI
      if shamt == 0 then None
      else Some((0x20 << 25) | (shamt << 20) | (rd' << 15) | (0x5 << 12) | (rd' << 7) | 0x13)
    else if funct2 == 2 then  // C.ANDI
      Some(((Imm6(c) & 0xFFF) << 20) | (rd' << 15) | (0x7 << 12) | (rd' << 7) | 0x13)
    else
      var low := (c >> 5) & 0x3;
      var rs2' := ((c >> 2) & 0x7) + 8;
      if (c >> 12) & 0x1 != 0 then None
      else if low == 0 then  // C.SUB
        Some((0x20 << 25) | (rs2' << 20) | (rd' << 15) | (0x0 << 12) | (rd' << 7) | 0x33)
      else if low == 1 then  // C.XOR
        Some((0x00 << 25) | (rs2' << 20) | (rd' << 15) | (0x4 << 12) | (rd' << 7) | 0x33)
      else if low == 2 then  // C.OR
        Some((0x00 << 25) | (rs2' << 20) | (rd' << 15) | (0x6 << 12) | (rd' << 7) | 0x33)
      else  // C.AND
        Some((0x00 << 25) | (rs2' << 20) | (rd' << 15) | (0x7 << 12) | (rd' << 7) | 0x33)
  }

  function Quadrant2(c: bv32, funct3: bv32): Option<bv32> {
    var rd := (c >> 7) & 0x1F;
    var rs2 := (c >> 2) & 0x1F;
    if funct3 == 0 then  // C.SLLI
      var shamt := ((c >> 7) & 0x20) | ((c >> 2) & 0x1F);
      if shamt == 0 || rd == 0 then None
      else Some((0x00 << 25) | (shamt << 20) | (rd << 15) | (0x1 << 12) | (rd << 7) | 0x13)
    else if funct3 == 2 then  // C.LWSP
      var imm := (((c >> 2) & 0x3) << 6) | (((c >> 12) & 0x1) << 5) | (((c >> 4) & 0x7) << 2);
      if rd == 0 then None
      else Some((imm << 20) | (2 << 15) | (0x2 << 12) | (rd << 7) | 0x03)
    else if funct3 == 4 then
      if (c >> 12) & 0x1 == 0 then
        if rs2 == 0 then  // C.JR
          if rd == 0 then None else Some((0 << 20) | (rd << 15) | (0 << 12) | (0 << 7) | 0x67)
        else  // C.MV
          if rd == 0 then None else Some((0x00 << 25) | (rs2 << 20) | (0 << 15) | (0x0 << 12) | (rd << 7) | 0x33)
      else
        if rd == 0 && rs2 == 0 then Some(0x0010_0073)  // C.EBREAK
        else if rs2 == 0 then  // C.JALR
          Some((0 << 20) | (rd << 15) | (0 << 12) | (1 << 7) | 0x67)
        else  // C.ADD
          Some((0x00 << 25) | (rs2 << 20) | (rd << 15) | (0x0 << 12) | (rd << 7) | 0x33)
    else if funct3 == 6 then  // C.SWSP
      var imm := ((c >> 7) & 0x3C) | ((c >> 1) & 0xC0);
      Some((((imm >> 5) & 0x7F) << 25) | (rs2 << 20) | (2 << 15) | (0x2 << 12) | ((imm & 0x1F) << 7) | 0x23)
    else None
  }

  /** A 16-bit instruction runs as its expansion, but is two bytes long. */
  function Execute16(cfg: Config, s: State, c: bv16): Effect {
    match Expand(c)
    case None => Trap(s, 2, c as int, true)
    case Some(w) => Dispatch(cfg, s, Split(w), w, 2)
  }
}
