/** The machine the emulator implements, as a transition function on states: RV32IMA instructions,
    the CSRs, traps, the machine timer and the LR/SC reservation. The words of the RISC-V manual
    are followed where the emulator follows them, and the emulator where it departs from them. */
module Isa {
  import opened PyInt
  import opened Memory
  import Binary64

  // ----- State -----

  type Regs = x: seq<Word> | |x| == 32 witness seq(32, _ => 0)

  type Csrs = c: seq<Word> | |c| == 4096 witness seq(4096, _ => 0)

  const MSTATUS := 0x300
  const MISA := 0x301
  const MIE := 0x304
  const MTVEC := 0x305
  const MEPC := 0x341
  const MCAUSE := 0x342
  const MTVAL := 0x343
  const MIP := 0x344
  const TIME_LO := 0x7C0
  const TIME_HI := 0x7C1
  const CMP_LO := 0x7C2
  const CMP_HI := 0x7C3

  /** Weights of the bits in mstatus (MIE, MPIE, the two bits of MPP) and in mie and mip (MTI). */
  const BIT_MIE := 0x8
  const BIT_MPIE := 0x80
  const BIT_MTI := 0x80
  const BIT_MPP0 := 0x800
  const BIT_MPP1 := 0x1000

  const TIMER_INTERRUPT: Word := 0x8000_0007

  /** The timer registers, the half-write flags of the CSR interface and the latched comparison. */
  datatype Timer = Timer(
    mtime: nat, mtimecmp: nat,
    timeLo: bool, timeHi: bool, cmpLo: bool, cmpHi: bool,
    mtip: bool)

  /** `world` stands for whatever state the host's system call handler keeps. */
  datatype State = State(
    x: Regs, pc: Word, nextPc: Word, csr: Csrs, timer: Timer,
    reserved: bool, reservedAddr: Word, mem: Bytes, world: nat)

  /** What a system call does: new registers and pc, blocks stored into guest memory, new host state. */
  datatype HostAnswer = HostAnswer(x: Regs, pc: Word, writes: seq<(nat, Bytes)>, world: nat, halt: Halt)

  /** `checked` selects SafeRAM over RAM; `host` is the Python ecall handler, if one is installed. */
  datatype Config = Config(rvc: bool, checked: bool, host: Option<State -> HostAnswer>)

  /** Anything but `Running` is an exception that ends the run: a trap with no handler installed or
      a BREAKPOINT or exit, a memory access error, an ECALL nobody handles, a failed run-time check. */
  datatype Halt = Running | Terminated | Fault | NoEcallHandler | Violation

  datatype Effect = Effect(s: State, halt: Halt)

  /** The CSRs after reset: misa, mstatus with MPP set, mtimecmp, marchid and mimpid. */
  function ResetCsrs(rvc: bool): Csrs {
    seq(4096, _ => 0)[MISA := 0x4000_1101 + if rvc then 4 else 0][MSTATUS := BIT_MPP0 + BIT_MPP1]
      [CMP_LO := WORD - 1][CMP_HI := WORD - 1][0xF12 := 1][0xF13 := 0x2025_0400]
  }

  function Reset(rvc: bool, mem: Bytes, world: nat): State {
    State(seq(32, _ => 0), 0, 0, ResetCsrs(rvc), Timer(0, WORD * WORD - 1, false, false, false, false, false),
          false, 0, mem, world)
  }

  // ----- Instructions -----

  datatype AluOp = ADD | SUB | SLL | SLT | SLTU | XOR | SRL | SRA | OR | AND
                 | MUL | MULH | MULHSU | MULHU | DIV | DIVU | REM | REMU

  datatype Cond = EQ | NE | LT | GE | LTU | GEU

  datatype AmoOp = LR | SC | SWAP | AMOADD | AMOXOR | AMOAND | AMOOR | MIN | MAX | MINU | MAXU | UNKNOWN

  datatype CsrOp = RW | RS | RC

  /** A register number. */
  type Index = r: int | 0 <= r < 32

  /** Immediates and offsets are sign-extended to 32 bits. A CSR operand is a register, or the
      register field itself taken as a five-bit number. */
  datatype Instr =
    | Reg(op: AluOp, rd: Index, rs1: Index, rs2: Index)
    | Imm(op: AluOp, rd: Index, rs1: Index, imm: Word)
    | Load(size: nat, signed: bool, rd: Index, rs1: Index, imm: Word)
    | Store(size: nat, rs1: Index, rs2: Index, imm: Word)
    | Branch(cond: Cond, rs1: Index, rs2: Index, imm: Word)
    | Lui(rd: Index, imm: Word)
    | Auipc(rd: Index, imm: Word)
    | Jal(rd: Index, imm: Word)
    | Jalr(rd: Index, rs1: Index, imm: Word)
    | Ecall | Ebreak | Mret | Nop
    | Csr(csrOp: CsrOp, rd: Index, rs1: Index, immediate: bool, csr: CsrIndex)
    | Amo(amo: AmoOp, rd: Index, rs1: Index, rs2: Index)
    | Illegal

  type CsrIndex = n: int | 0 <= n < 4096

  // ----- Decoding -----

  datatype Fields = Fields(opcode: bv7, rd: bv5, funct3: bv3, rs1: bv5, rs2: bv5, funct7: bv7)

  /** The register number in a field, and the value of an immediate. */
  function Num(r: bv5): Index { r as int }

  function Val(v: bv32): Word { v as int }

  function Split(w: bv32): Fields {
    Fields((w & 0x7F) as bv7, ((w >> 7) & 0x1F) as bv5, ((w >> 12) & 0x7) as bv3,
           ((w >> 15) & 0x1F) as bv5, ((w >> 20) & 0x1F) as bv5, ((w >> 25) & 0x7F) as bv7)
  }

  /** Sign extension of a value whose sign bit has the given weight. */
  function Extend(v: bv32, sign: bv32): bv32 {
    if v & sign == 0 then v else v | !(sign | (sign - 1))
  }

  function ImmI(w: bv32): bv32 { Extend(w >> 20, 0x800) }

  function ImmS(w: bv32): bv32 { Extend(((w >> 25) << 5) | ((w >> 7) & 0x1F), 0x800) }

  function ImmB(w: bv32): bv32 {
    Extend(((w >> 31) << 12) | (((w >> 7) & 0x1) << 11) | (((w >> 25) & 0x3F) << 5) | (((w >> 8) & 0xF) << 1), 0x1000)
  }

  function ImmU(w: bv32): bv32 { w & 0xFFFF_F000 }

  function ImmJ(w: bv32): bv32 {
    Extend(((w >> 31) << 20) | (((w >> 12) & 0xFF) << 12) | (((w >> 20) & 0x1) << 11)
        | (((w >> 21) & 0x3FF) << 1), 0x10_0000)
  }

  function RegOp(funct7: bv7, funct3: bv3): Option<AluOp> {
    if funct7 == 0x00 then
      Some(match funct3
           case 0 => ADD case 1 => SLL case 2 => SLT case 3 => SLTU
           case 4 => XOR case 5 => SRL case 6 => OR case _ => AND)
    else if funct7 == 0x01 then
      Some(match funct3
           case 0 => MUL case 1 => MULH case 2 => MULHSU case 3 => MULHU
           case 4 => DIV case 5 => DIVU case 6 => REM case _ => REMU)
    else if funct7 == 0x20 && funct3 == 0 then Some(SUB)
    else if funct7 == 0x20 && funct3 == 5 then Some(SRA)
    else None
  }

  /** Only the shifts look at funct7. */
  function ImmOp(funct7: bv7, funct3: bv3): Option<AluOp> {
    if funct3 != 1 && funct3 != 5 then RegOp(0x00, funct3)
    else if funct7 == 0x00 || (funct7 == 0x20 && funct3 == 5) then RegOp(funct7, funct3)
    else None
  }

  predicate Shifts(op: AluOp) { op == SLL || op == SRL || op == SRA }

  function AmoOf(funct5: bv5): AmoOp {
    match funct5
    case 0x02 => LR case 0x03 => SC case 0x01 => SWAP case 0x00 => AMOADD case 0x04 => AMOXOR
    case 0x0C => AMOAND case 0x08 => AMOOR case 0x10 => MIN case 0x14 => MAX case 0x18 => MINU
    case 0x1C => MAXU case _ => UNKNOWN
  }

  /** Width in bytes, and whether the value is sign-extended. */
  function LoadKind(funct3: bv3): Option<(nat, bool)> {
    match funct3
    case 0 => Some((1, true))
    case 1 => Some((2, true))
    case 2 => Some((4, false))
    case 4 => Some((1, false))
    case 5 => Some((2, false))
    case _ => None
  }

  function StoreKind(funct3: bv3): Option<nat> {
    match funct3
    case 0 => Some(1)
    case 1 => Some(2)
    case 2 => Some(4)
    case _ => None
  }

  function BranchKind(funct3: bv3): Option<Cond> {
    match funct3
    case 0 => Some(EQ)
    case 1 => Some(NE)
    case 4 => Some(LT)
    case 5 => Some(GE)
    case 6 => Some(LTU)
    case 7 => Some(GEU)
    case _ => None
  }

  function DecodeLoad(f: Fields, imm: Word): Instr {
    match LoadKind(f.funct3)
    case Some((n, signed)) => Load(n, signed, Num(f.rd), Num(f.rs1), imm)
    case None => Illegal
  }

  function DecodeStore(f: Fields, imm: Word): Instr {
    match StoreKind(f.funct3)
    case Some(n) => Store(n, Num(f.rs1), Num(f.rs2), imm)
    case None => Illegal
  }

  function DecodeBranch(f: Fields, imm: Word): Instr {
    match BranchKind(f.funct3)
    case Some(c) => Branch(c, Num(f.rs1), Num(f.rs2), imm)
    case None => Illegal
  }

  /** CSR operation, and whether its operand is the register field itself. */
  function CsrKind(funct3: bv3): Option<(CsrOp, bool)> {
    match funct3
    case 1 => Some((RW, false))
    case 2 => Some((RS, false))
    case 3 => Some((RC, false))
    case 5 => Some((RW, true))
    case 6 => Some((RS, true))
    case 7 => Some((RC, true))
    case _ => None
  }

  function CsrField(w: bv32): CsrIndex { ((w >> 20) as bv12) as int }

  function DecodeSystem(f: Fields, w: bv32): Instr {
    if w == 0x0000_0073 then Ecall
    else if w == 0x3020_0073 then Mret
    else if w == 0x0010_0073 then Ebreak
    else match CsrKind(f.funct3)
         case Some((op, immediate)) => Csr(op, Num(f.rd), Num(f.rs1), immediate, CsrField(w))
         case None => if w == 0x1050_0073 then Nop else Illegal
  }

  /** The instruction that a handler sees: fields from `f`, everything else from the word itself. */
  function Decode(f: Fields, w: bv32): Instr {
    var rd, rs1, rs2 := Num(f.rd), Num(f.rs1), Num(f.rs2);
    match f.opcode
    case 0x33 => (match RegOp(f.funct7, f.funct3)
                  case Some(op) => Reg(op, rd, rs1, rs2)
                  case None => Illegal)
    case 0x13 => (match ImmOp(f.funct7, f.funct3)
                  case Some(op) => Imm(op, rd, rs1, Val(if Shifts(op) then (w >> 20) & 0x1F else ImmI(w)))
                  case None => Illegal)
    case 0x03 => DecodeLoad(f, Val(ImmI(w)))
    case 0x23 => DecodeStore(f, Val(ImmS(w)))
    case 0x63 => DecodeBranch(f, Val(ImmB(w)))
    case 0x37 => Lui(rd, Val(ImmU(w)))
    case 0x17 => Auipc(rd, Val(ImmU(w)))
    case 0x6F => Jal(rd, Val(ImmJ(w)))
    case 0x67 => if f.funct3 == 0 then Jalr(rd, rs1, Val(ImmI(w))) else Illegal
    case 0x73 => DecodeSystem(f, w)
    case 0x0F => if f.funct3 == 0 || f.funct3 == 1 then Nop else Illegal
    case 0x2F => if f.funct3 == 2 then Amo(AmoOf((w >> 27) as bv5), rd, rs1, rs2) else Illegal
    case _ => Illegal
  }

  // ----- Arithmetic -----

  function Signed(v: int): int {
    if v < 0x8000_0000 then v else v - WORD
  }

  function Flag(b: bool): Word { if b then 1 else 0 }

  function Alu(op: AluOp, a: Word, b: Word): Word {
    WordOps(a, b);
    Shrinks(a, Pow2(b % 32));
    match op
    case ADD => (a + b) % WORD
    case SUB => (a - b) % WORD
    case SLL => a * Pow2(b % 32) % WORD
    case SLT => Flag(Signed(a) < Signed(b))
    case SLTU => Flag(a < b)
    case XOR => Xor(a, b)
    case SRL => a / Pow2(b % 32)
    case SRA => Signed(a) / Pow2(b % 32) % WORD
    case OR => Or(a, b)
    case AND => And(a, b)
    case MUL => Signed(a) * Signed(b) % WORD
    case MULH => Signed(a) * Signed(b) / WORD % WORD
    case MULHSU => Signed(a) * b / WORD % WORD
    case MULHU => a * b / WORD % WORD
    case DIV => if b == 0 then WORD - 1 else Binary64.TruncatedQuotient(Signed(a), Signed(b)) % WORD
    case DIVU => if b == 0 then WORD - 1 else Shrinks(a, b); a / b
    case REM =>
      if b == 0 then a
      else (Signed(a) - Binary64.TruncatedQuotient(Signed(a), Signed(b)) * Signed(b)) % WORD
    case REMU => if b == 0 then a else Shrinks(a, b); a % b
  }

  lemma Shrinks(a: nat, d: nat)
    requires d > 0
    ensures 0 <= a / d <= a && 0 <= a % d <= a
  {
    Binary64.MulMono(1, d, a / d);
  }

  predicate Taken(c: Cond, a: Word, b: Word) {
    match c
    case EQ => a == b
    case NE => a != b
    case LT => Signed(a) < Signed(b)
    case GE => Signed(a) >= Signed(b)
    case LTU => a < b
    case GEU => a >= b
  }

  /** The word an AMO stores back. */
  function Combine(op: AmoOp, prior: Word, b: Word): Word {
    WordOps(prior, b);
    match op
    case SWAP => b
    case AMOADD => (prior + b) % WORD
    case AMOXOR => Xor(prior, b)
    case AMOAND => And(prior, b)
    case AMOOR => Or(prior, b)
    case MIN => if Signed(prior) <= Signed(b) then prior else b
    case MAX => if Signed(prior) >= Signed(b) then prior else b
    case MINU => if prior <= b then prior else b
    case MAXU => if prior >= b then prior else b
    case _ => prior
  }

  // ----- Traps -----

  function Go(s: State): Effect { Effect(s, Running) }

  /** Setting and clearing one of the bits of a CSR. */
  function On(x: Word, weight: int): Word
    requires weight in {BIT_MIE, BIT_MPIE, BIT_MPP0, BIT_MPP1}
  {
    SetBit(x, weight)
  }

  function Off(x: Word, weight: int): Word
    requires weight in {BIT_MIE, BIT_MPIE}
  {
    ClearBit(x, weight)
  }

  /** Interrupt-enable stack on trap entry: MPIE gets MIE, MIE is cleared. */
  function EnterTrap(mstatus: Word): Word {
    var off := Off(Off(mstatus, BIT_MIE), BIT_MPIE);
    if Bit(mstatus, BIT_MIE) == 1 then On(off, BIT_MPIE) else off
  }

  /** Interrupt-enable stack on MRET: MIE gets MPIE, MPIE is set. */
  function LeaveTrap(mstatus: Word): Word {
    var off := Off(mstatus, BIT_MIE);
    On(if Bit(mstatus, BIT_MPIE) == 1 then On(off, BIT_MIE) else off, BIT_MPIE)
  }

  function Trap(s: State, cause: Word, mtval: Word, sync: bool): Effect {
    if s.csr[MTVEC] == 0 then Effect(s, Terminated)
    else
      var csr := s.csr[MEPC := if sync then s.pc else s.nextPc][MCAUSE := cause][MTVAL := mtval];
      Go(s.(csr := csr[MSTATUS := EnterTrap(s.csr[MSTATUS])],
                  nextPc := s.csr[MTVEC] - s.csr[MTVEC] % 4))
  }

  /** The CSR side effects of a trap that the emulator handles itself. */
  function BypassedTrapReturn(s: State, cause: Word): State {
    var csr := s.csr[MEPC := s.pc][MCAUSE := cause][MTVAL := 0];
    s.(csr := csr[MSTATUS := On(s.csr[MSTATUS], BIT_MPIE)])
  }

  // ----- Timer -----

  /** A write to one half of mtime; the value is committed when both halves have been written. */
  function WriteTime(t: Timer, low: bool, hi: Word, lo: Word): Timer {
    if (t.timeLo || low) && (t.timeHi || !low) then
      var now := hi * WORD + lo;
      t.(mtime := now, timeLo := false, timeHi := false, mtip := now >= t.mtimecmp)
    else t.(timeLo := t.timeLo || low, timeHi := t.timeHi || !low)
  }

  function WriteCompare(t: Timer, low: bool, hi: Word, lo: Word): Timer {
    if (t.cmpLo || low) && (t.cmpHi || !low) then
      var cmp := hi * WORD + lo;
      t.(mtimecmp := cmp, cmpLo := false, cmpHi := false, mtip := t.mtime >= cmp)
    else t.(cmpLo := t.cmpLo || low, cmpHi := t.cmpHi || !low)
  }

  /** The comparison uses the time before the tick; mip is touched only when its outcome changes. */
  function Tick(s: State): Effect {
    var t := s.timer;
    var due := t.mtime >= t.mtimecmp;
    var mip := if due == t.mtip then s.csr[MIP]
               else if due then On(s.csr[MIP], BIT_MTI) else Off(s.csr[MIP], BIT_MTI);
    var s' := s.(timer := t.(mtime := t.mtime + 1, mtip := due), csr := s.csr[MIP := mip]);
    if due && Bit(s.csr[MSTATUS], BIT_MIE) == 1 && Bit(s.csr[MIE], BIT_MTI) == 1
    then Trap(s', TIMER_INTERRUPT, 0, false)
    else Go(s')
  }

  // ----- CSR instructions -----

  predicate ReadOnly(n: nat) { n in {0xF11, 0xF12, 0xF13, 0xF14} }

  predicate IgnoresWrites(n: nat) { n in {0x301, 0xB02, 0xB82, 0x7A0, 0x7A1, 0x7A2} }

  /** The value an instruction leaves in the CSR array, before MPP is forced. */
  function NewCsr(op: CsrOp, n: nat, prior: Word, src: Word): Word {
    WordOps(prior, src);
    match op
    case RW => if n == MTVEC then src - src % 4 else src
    case RS => Or(prior, src)
    case RC => And(prior, Not(src))
  }

  function WriteCsr(s: State, op: CsrOp, n: nat, prior: Word, src: Word): State
    requires n < 4096
  {
    var v := if (op != RW && src == 0) || IgnoresWrites(n) then s.csr[n] else NewCsr(op, n, prior, src);
    var csr: Csrs := s.csr[n := if n == MSTATUS then On(On(v, BIT_MPP0), BIT_MPP1) else v];
    var timer :=
      if op != RW then s.timer
      else if n == TIME_LO || n == TIME_HI then WriteTime(s.timer, n == TIME_LO, csr[TIME_HI], csr[TIME_LO])
      else if n == CMP_LO || n == CMP_HI then WriteCompare(s.timer, n == CMP_LO, csr[CMP_HI], csr[CMP_LO])
      else s.timer;
    s.(csr := csr, timer := timer)
  }

  /** The timer CSRs read as the timer registers, after the write of the same instruction. */
  function ReadBack(t: Timer, n: nat, prior: Word): Word {
    if n == TIME_LO then t.mtime % WORD
    else if n == TIME_HI then t.mtime / WORD % WORD
    else if n == CMP_LO then t.mtimecmp % WORD
    else if n == CMP_HI then t.mtimecmp / WORD % WORD
    else prior
  }

  /** A write to a read-only CSR traps and is then carried out all the same. */
  function ExecCsr(s: State, op: CsrOp, rd: Index, src: Word, n: nat, raw: Word): Effect
    requires n < 4096
  {
    var e := if ReadOnly(n) && (op == RW || src != 0) then Trap(s, 2, raw, true) else Go(s);
    if e.halt != Running then e
    else
      var s' := WriteCsr(e.s, op, n, s.csr[n], src);
      Go(if rd == 0 then s' else SetReg(s', rd, ReadBack(s'.timer, n, s.csr[n])))
  }

  function CsrSource(s: State, rs1: Index, immediate: bool): Word { if immediate then rs1 else s.x[rs1] }

  // ----- Execution -----

  function SetReg(s: State, rd: Index, v: Word): State {
    s.(x := s.x[rd := v])
  }

  predicate Misaligned(cfg: Config, addr: Word) {
    addr % (if cfg.rvc then 2 else 4) != 0
  }

  /** A jump to `target`, or the trap for a misaligned one. */
  function Jump(cfg: Config, s: State, target: Word, linked: State): Effect {
    if Misaligned(cfg, target) then Trap(s, 0, target, true)
    else Go(linked.(nextPc := target))
  }

  function Link(s: State, rd: Index, size: nat): State {
    if rd == 0 then s else SetReg(s, rd, (s.pc + size) % WORD)
  }

  function Even(addr: Word): Word { addr - addr % 2 }

  function JumpAndLink(cfg: Config, s: State, target: Word, rd: Index, size: nat): Effect {
    Jump(cfg, s, target, Link(s, rd, size))
  }

  function ExecBranch(cfg: Config, s: State, taken: bool, offset: Word): Effect {
    if taken then Jump(cfg, s, (s.pc + offset) % WORD, s) else Go(s)
  }

  function ExecMret(cfg: Config, s: State): Effect {
    Jump(cfg, s, s.csr[MEPC], s.(csr := s.csr[MSTATUS := LeaveTrap(s.csr[MSTATUS])]))
  }

  function ExecLoad(cfg: Config, s: State, size: nat, signed: bool, rd: Index, addr: Word): Effect {
    match Memory.Load(cfg.checked, s.mem, addr, size)
    case None => Effect(s, Fault)
    case Some(v) => Go(SetReg(s, rd, Loaded(size, signed, v)))
  }

  function Loaded(size: nat, signed: bool, v: nat): Word {
    (if !signed then v else if size == 1 then SignExtend(v, 0x80) else SignExtend(v, 0x8000)) % WORD
  }

  /** A store, which drops the reservation once it has succeeded. */
  function StoreTo(cfg: Config, s: State, addr: Word, size: nat, v: Word): Effect {
    var (mem, ok) := Memory.Store(cfg.checked, s.mem, addr, size, v);
    if ok then Go(s.(mem := mem, reserved := false)) else Effect(s.(mem := mem), Fault)
  }

  function ExecAmo(cfg: Config, s: State, op: AmoOp, rd: Index, addr: Word, b: Word, raw: Word): Effect {
    if addr % 4 != 0 then Trap(s, 6, addr, true)
    else if op == UNKNOWN then Trap(s, 2, raw, true)
    else if op == SC then
      if s.reserved && s.reservedAddr == addr then
        var e := StoreTo(cfg, s, addr, 4, b);
        if e.halt == Running then Go(SetReg(e.s, rd, 0)) else e
      else Go(SetReg(s, rd, 1))
    else match Memory.Load(cfg.checked, s.mem, addr, 4)
         case None => Effect(s, Fault)
         case Some(prior) =>
           WordRange(s.mem, addr);
           if op == LR then Go(SetReg(s, rd, prior).(reserved := true, reservedAddr := addr))
           else
             var e := StoreTo(cfg, s, addr, 4, Combine(op, prior, b));
             if e.halt == Running then Go(SetReg(e.s, rd, prior)) else e
  }

  /** The blocks a system call stored, in order. A block that does not fit was never stored. */
  function StoreBlocks(checked: bool, mem: Bytes, writes: seq<(nat, Bytes)>): (mem': Bytes)
    ensures |mem'| == |mem|
    decreases |writes|
  {
    if writes == [] then mem
    else
      var before := StoreBlocks(checked, mem, writes[..|writes| - 1]);
      var (addr, data) := writes[|writes| - 1];
      if data != [] && Fits(checked, mem, addr, |data|) then Splice(before, addr, data) else before
  }

  function ExecEcall(cfg: Config, s: State): Effect {
    if s.csr[MTVEC] != 0 then Trap(s, 11, 0, true)
    else match cfg.host
         case None => Effect(s, NoEcallHandler)
         case Some(h) =>
           var a := h(s);
           var s' := s.(x := a.x, pc := a.pc, mem := StoreBlocks(cfg.checked, s.mem, a.writes), world := a.world);
           if a.halt == Running then Go(BypassedTrapReturn(s', 11)) else Effect(s', a.halt)
  }

  function ExecEbreak(s: State): Effect {
    if s.x[17] >= 0xFFFF_0000 then Go(s)  // logging call
    else if s.csr[MTVEC] == 0 then Effect(BypassedTrapReturn(s, 3), Terminated)
    else Trap(s, 3, 0, true)
  }

  /** One instruction. `size` is its length in bytes and `raw` the word reported in mtval; the
      state already has `nextPc` set to the instruction that follows. */
  function Exec(cfg: Config, s: State, i: Instr, raw: Word, size: nat): Effect {
    match i
    case Reg(op, rd, rs1, rs2) => Go(SetReg(s, rd, Alu(op, s.x[rs1], s.x[rs2])))
    case Imm(op, rd, rs1, imm) => Go(SetReg(s, rd, Alu(op, s.x[rs1], imm)))
    case Load(n, signed, rd, rs1, imm) => ExecLoad(cfg, s, n, signed, rd, (s.x[rs1] + imm) % WORD)
    case Store(n, rs1, rs2, imm) =>
      StoreTo(cfg, s, (s.x[rs1] + imm) % WORD, n, s.x[rs2])
    case Branch(c, rs1, rs2, imm) => ExecBranch(cfg, s, Taken(c, s.x[rs1], s.x[rs2]), imm)
    case Lui(rd, imm) => Go(SetReg(s, rd, imm))
    case Auipc(rd, imm) => Go(SetReg(s, rd, (s.pc + imm) % WORD))
    case Jal(rd, imm) => JumpAndLink(cfg, s, (s.pc + imm) % WORD, rd, size)
    case Jalr(rd, rs1, imm) => JumpAndLink(cfg, s, Even((s.x[rs1] + imm) % WORD), rd, size)
    case Ecall => ExecEcall(cfg, s)
    case Ebreak => ExecEbreak(s)
    case Mret => ExecMret(cfg, s)
    case Nop => Go(s)
    case Csr(op, rd, rs1, immediate, n) =>
      ExecCsr(s, op, rd, CsrSource(s, rs1, immediate), n, raw)
    case Amo(op, rd, rs1, rs2) => ExecAmo(cfg, s, op, rd, s.x[rs1], s.x[rs2], raw)
    case Illegal => Trap(s, 2, raw, true)
  }

  /** x0 is cleared after every instruction that has not raised an exception. */
  function Retire(e: Effect): Effect {
    if e.halt == Running then Go(e.s.(x := e.s.x[0 := 0])) else e
  }

  /** An instruction of the given size, from start to end. */
  function Perform(cfg: Config, s: State, i: Instr, raw: Word, size: nat): Effect {
    Retire(Exec(cfg, s.(nextPc := (s.pc + size) % WORD), i, raw, size))
  }

  /** Dispatch of an instruction that has been decoded to `f`. */
  function Dispatch(cfg: Config, s: State, f: Fields, w: bv32, size: nat): Effect {
    Perform(cfg, s, Decode(f, w), Val(w), size)
  }

  function Execute32(cfg: Config, s: State, w: bv32): Effect {
    Dispatch(cfg, s, Split(w), w, 4)
  }
}
