/** What the CSR instructions do to a CSR, bit by bit: section 9.1 of the RISC-V Unprivileged ISA. */
module CsrBits {
  import opened PyInt
  import opened Memory
  import opened Isa
  import TimerRuns

  /** The CSRs that keep their value whatever is written: misa, minstret, minstreth and the trigger registers. The
      four identification registers are read-only. */
  const FIXED: set<int> := {0x301, 0xB02, 0xB82, 0x7A0, 0x7A1, 0x7A2}

  const IDENTIFICATION: set<int> := {0xF11, 0xF12, 0xF13, 0xF14}

  predicate IsSet(v: int, k: nat) { Bit(v, Pow2(k)) == 1 }

  /** Bit k of CSR n after an instruction, if it was `was` and is `given` in the operand. MPP of mstatus is always 0b11,
      and CSRRW leaves the mode bits of mtvec zero. */
  predicate Law(op: CsrOp, n: CsrIndex, k: nat, was: bool, given: bool) {
    if n == MSTATUS && (k == 11 || k == 12) then true
    else match op
         case RW => given && !(n == MTVEC && k < 2)
         case RS => was || given
         case RC => was && !given
  }

  lemma BitOfNew(op: CsrOp, n: CsrIndex, prior: Word, src: Word, k: nat)
    requires !(n == MSTATUS && (k == 11 || k == 12))
    ensures IsSet(NewCsr(op, n, prior, src), k) <==> Law(op, n, k, IsSet(prior, k), IsSet(src, k))
  {
    hide PyInt.Bit; hide PyInt.Bitwise;
    match op
    case RS => BitOfResult(DISJ, prior, src, k);
    case RC =>
      BitOfResult(CONJ, prior, Not(src), k);
      BitOfNot(src, k);
      BitIsBit(src, k);
    case RW => if n == MTVEC { BitOfCut(src, k); }
  }

  lemma BitIsBit(v: int, k: nat)
    ensures Bit(v, Pow2(k)) == 0 || Bit(v, Pow2(k)) == 1
  {
  }

  lemma BitOfCut(v: Word, k: nat)
    ensures IsSet(v - v % 4, k) <==> IsSet(v, k) && k >= 2
  {
    var q := v / 4;
    assert v - v % 4 == 4 * q;
    if k == 0 {
      BitAbove(4 * q, 0);
    } else {
      BitAbove(4 * q, k - 1);
      BitAbove(v, k - 1);
      assert 4 * q / 2 == 2 * q;
      if k == 1 {
        BitAbove(2 * q, 0);
      } else {
        BitAbove(2 * q, k - 2);
        BitAbove(v / 2, k - 2);
        assert 2 * q / 2 == q && v / 2 / 2 == q;
      }
    }
  }

  /** No operand, no write. */
  lemma BitOfNothing(op: CsrOp, n: CsrIndex, prior: Word, k: nat)
    requires op != RW && !(n == MSTATUS && (k == 11 || k == 12))
    ensures Law(op, n, k, IsSet(prior, k), IsSet(0, k)) == IsSet(prior, k)
  {
    hide PyInt.Bit;
    ZeroBit(k);
  }

  lemma Weights()
    ensures Pow2(11) == BIT_MPP0 && Pow2(12) == BIT_MPP1
  {
    assert Pow2(8) == 256;
  }

  /** Forcing MPP sets its two bits and leaves the others. */
  lemma BitOfForced(v: Word, k: nat)
    ensures IsSet(On(On(v, BIT_MPP0), BIT_MPP1), k) <==> IsSet(v, k) || k == 11 || k == 12
  {
    hide PyInt.Bit; hide PyInt.SetBit; hide PyInt.Pow2;
    Weights();
    BitOfSet(v, 11, k);
    BitOfSet(On(v, BIT_MPP0), 12, k);
  }

  lemma BitOfWritten(s: State, op: CsrOp, n: CsrIndex, src: Word, k: nat)
    requires n !in FIXED
    ensures IsSet(WriteCsr(s, op, n, s.csr[n], src).csr[n], k) <==> Law(op, n, k, IsSet(s.csr[n], k), IsSet(src, k))
  {
    hide IsSet; hide Isa.NewCsr; hide Isa.On; hide Isa.WriteTime; hide Isa.WriteCompare; hide Law;
    var v := if op != RW && src == 0 then s.csr[n] else NewCsr(op, n, s.csr[n], src);
    BitOfForced(v, k);
    if n == MSTATUS && (k == 11 || k == 12) {
      LawOfMpp(op, k, IsSet(s.csr[n], k), IsSet(src, k));
    } else {
      BitOfNew(op, n, s.csr[n], src, k);
      if op != RW && src == 0 { BitOfNothing(op, n, s.csr[n], k); }
    }
  }

  lemma LawOfMpp(op: CsrOp, k: nat, was: bool, given: bool)
    requires k == 11 || k == 12
    ensures Law(op, MSTATUS, k, was, given)
  {
  }

  /** The value that rd gets: the timer CSRs read as the halves of the timer registers, after the write. */
  function Seen(s: State, t: State, n: CsrIndex): nat {
    match n
    case 0x7C0 => t.timer.mtime % WORD
    case 0x7C1 => t.timer.mtime / WORD % WORD
    case 0x7C2 => t.timer.mtimecmp % WORD
    case 0x7C3 => t.timer.mtimecmp / WORD % WORD
    case _ => s.csr[n]
  }

  /** CSRRW writes the operand, CSRRS sets and CSRRC clears the bits that are set in it, rd gets the old value, and
      no other CSR, register or byte of memory changes. */
  lemma CsrInstruction(cfg: Config, s: State, i: Instr, raw: Word, size: nat, k: nat)
    requires i.Csr? && i.csr !in IDENTIFICATION && s.x[0] == 0
    ensures var e, src := Perform(cfg, s, i, raw, size), CsrSource(s, i.rs1, i.immediate);
            && e.halt == Running && e.s.mem == s.mem
            && (if i.csr in FIXED then e.s.csr[i.csr] == s.csr[i.csr]
                else IsSet(e.s.csr[i.csr], k) <==> Law(i.csrOp, i.csr, k, IsSet(s.csr[i.csr], k), IsSet(src, k)))
            && (forall c: CsrIndex | c != i.csr :: e.s.csr[c] == s.csr[c])
            && (forall r: Index :: e.s.x[r] == if r == i.rd && r != 0 then Seen(s, e.s, i.csr) else s.x[r])
  {
    hide IsSet; hide Law; hide Isa.NewCsr; hide Isa.On; hide Isa.WriteTime; hide Isa.WriteCompare; hide Isa.Exec;
    var s' := s.(nextPc := (s.pc + size) % WORD);
    TimerRuns.ExecOnCsr(cfg, s', i, raw, size);
    if i.csr !in FIXED { BitOfWritten(s', i.csrOp, i.csr, CsrSource(s, i.rs1, i.immediate), k); }
    hide Isa.WriteCsr;
    Written(s', i.csrOp, i.csr, CsrSource(s, i.rs1, i.immediate));
  }

  lemma Written(s: State, op: CsrOp, n: CsrIndex, src: Word)
    ensures var t := WriteCsr(s, op, n, s.csr[n], src);
            && t.x == s.x && t.mem == s.mem && (n in FIXED ==> t.csr[n] == s.csr[n])
            && forall c: CsrIndex | c != n :: t.csr[c] == s.csr[c]
  {
    hide Isa.NewCsr; hide Isa.On; hide Isa.WriteTime; hide Isa.WriteCompare;
  }

  // ----- Reset -----

  /** After reset everything is zero but misa, mstatus, mtimecmp and the identification registers. */
  lemma ResetValues(rvc: bool, mem: Bytes, world: nat)
    ensures var s := Reset(rvc, mem, world);
            && (forall r: Index :: s.x[r] == 0) && s.pc == 0 && !s.reserved && s.mem == mem
            && s.timer == Timer(0, WORD * WORD - 1, false, false, false, false, false)
            && s.csr[0x301] == (if rvc then 0x4000_1105 else 0x4000_1101) && s.csr[0x300] == 0x1800
            && s.csr[0x7C2] == s.csr[0x7C3] == 0xFFFF_FFFF && s.csr[0xF12] == 1 && s.csr[0xF13] == 0x2025_0400
            && forall c: CsrIndex | c !in {0x300, 0x301, 0x7C2, 0x7C3, 0xF12, 0xF13} :: s.csr[c] == 0
  {
  }
}
