/** The memory-mapped timer, and the pending bit over runs that use it. */
module MmioTimer {
  import opened PyInt
  import opened Memory
  import opened Isa
  import opened Clock
  import opened Cpu
  import opened TimerRuns
  import Traps

  const REG_MTIMECMP_LO := 0x0200_4000
  const REG_MTIMECMP_HI := 0x0200_4004
  const REG_MTIME_LO := 0x0200_BFF8
  const REG_MTIME_HI := 0x0200_BFFC

  /** The halves of mtime that the device has latched. */
  datatype Device = Device(lo: Word, hi: Word, loSet: bool, hiSet: bool)

  function DeviceLatch(t: Timer, d: Device): Latch { Latch(d.lo, d.hi, d.loSet, d.hiSet, t.mtime) }

  function Latched(t: Timer, l: Latch): (Timer, Device) {
    (t.(mtime := l.now), Device(l.lo, l.hi, l.loSet, l.hiSet))
  }

  /** Replacing one half of a 64-bit value. */
  function WithLow(c: nat, v: Word): nat { c / WORD % WORD * WORD + v }

  function WithHigh(c: nat, v: Word): nat { v * WORD + c % WORD }

  /** A write to a device register: mtime in two phases, each half of mtimecmp at once. */
  function Poke(t: Timer, d: Device, addr: nat, v: Word): Option<(Timer, Device)> {
    match addr
    case 0x0200_4000 => Some((t.(mtimecmp := WithLow(t.mtimecmp, v)), d))
    case 0x0200_4004 => Some((t.(mtimecmp := WithHigh(t.mtimecmp, v)), d))
    case 0x0200_BFF8 => Some(Latched(t, WriteHalf(DeviceLatch(t, d), true, v)))
    case 0x0200_BFFC => Some(Latched(t, WriteHalf(DeviceLatch(t, d), false, v)))
    case _ => None
  }

  function Peek(t: Timer, addr: nat): Option<nat> {
    match addr
    case 0x0200_BFF8 => Some(t.mtime % WORD)
    case 0x0200_BFFC => Some(t.mtime / WORD)
    case 0x0200_4000 => Some(t.mtimecmp % WORD)
    case 0x0200_4004 => Some(t.mtimecmp / WORD)
    case _ => None
  }

  lemma {:induction false} AndShifted(x: int, m: int, k: nat)
    ensures And(x, m * Pow2(k)) == And(x / Pow2(k), m) * Pow2(k)
    decreases k
  {
    hide PyInt.Bitwise;
    if k > 0 {
      var p := Pow2(k - 1);
      AndEven(x, m * p);
      AndShifted(x / 2, m, k - 1);
      HalveModulus(x, p);
      Double(m, p);
      Double(And(x / 2 / p, m), p);
    }
  }

  lemma AndEven(x: int, y: int)
    ensures And(x, 2 * y) == 2 * And(x / 2, y)
  {
    Unfold(CONJ, x, 2 * y);
  }

  lemma Double(a: int, p: int)
    ensures a * (2 * p) == 2 * (a * p)
  {
  }

  /** The masks that the device applies to mtimecmp. */
  lemma Masks(c: nat, v: Word)
    ensures Or(And(c, 0xFFFF_FFFF_0000_0000), v) == WithLow(c, v)
    ensures Or(And(c, 0xFFFF_FFFF), v * WORD) == WithHigh(c, v)
    ensures And(c, 0xFFFF_FFFF) == c % WORD && And(v, 0xFFFF_FFFF) == v
  {
    hide PyInt.And; hide PyInt.Or; hide PyInt.Pow2;
    Pow32();
    AndShifted(c, WORD - 1, 32);
    assert (WORD - 1) * WORD == 0xFFFF_FFFF_0000_0000;
    MaskIsMod(c / WORD, 32);
    MaskIsMod(c, 32);
    MaskIsMod(v, 32);
    JoinHalves(c / WORD % WORD, v, 32);
    JoinHalves(v, c % WORD, 32);
    OrCommutes(c % WORD, v * WORD);
  }

  lemma OrCommutes(a: int, b: int)
    ensures Or(a, b) == Or(b, a)
  {
    Commute(DISJ, a, b);
  }

  lemma {:induction false} Commute(op: BitOp, a: int, b: int)
    ensures Bitwise(op, a, b) == Bitwise(op, b, a)
    decreases Magnitude(a) + Magnitude(b)
  {
    if !((a == 0 || a == -1) && (b == 0 || b == -1)) { Commute(op, a / 2, b / 2); }
  }

  class MMIOTimer {
    const cpu: CPU
    var mtimeLo: Word
    var mtimeHi: Word
    var mtimeLoUpdated: bool
    var mtimeHiUpdated: bool

    function D(): Device
      reads this
    {
      Device(mtimeLo, mtimeHi, mtimeLoUpdated, mtimeHiUpdated)
    }

    /** Never both halves are waiting. */
    predicate Valid()
      reads this
    {
      !(mtimeLoUpdated && mtimeHiUpdated)
    }

    constructor (cpu: CPU)
      ensures Valid() && this.cpu == cpu && D() == Device(0, 0, false, false)
    {
      this.cpu := cpu;
      mtimeLo, mtimeHi := 0, 0;
      mtimeLoUpdated, mtimeHiUpdated := false, false;
    }

    /** `None` stands for MemoryAccessError. */
    method Read32(addr: nat) returns (v: Option<nat>)
      ensures v == Peek(cpu.T(), addr)
    {
      Masks(cpu.mtime, 0);
      Masks(cpu.mtimecmp, 0);
      if addr == REG_MTIME_LO { return Some(And(cpu.mtime, 0xFFFF_FFFF)); }
      else if addr == REG_MTIME_HI { return Some(cpu.mtime / WORD); }
      if addr == REG_MTIMECMP_LO { return Some(And(cpu.mtimecmp, 0xFFFF_FFFF)); }
      else if addr == REG_MTIMECMP_HI { return Some(cpu.mtimecmp / WORD); }
      else { return None; }
    }

    method Write32(addr: nat, value: Word) returns (ok: bool)
      requires Valid()
      modifies this, cpu`mtime, cpu`mtimecmp
      ensures Valid()
      ensures match Poke(old(cpu.T()), old(D()), addr, value)
              case Some((t, d)) => ok && cpu.T() == t && D() == d
              case None => !ok && cpu.T() == old(cpu.T()) && D() == old(D())
    {
      hide PyInt.And; hide PyInt.Or; hide PyInt.Pow2; hide WithLow; hide WithHigh;
      Masks(cpu.mtimecmp, value);
      if addr == REG_MTIMECMP_LO {
        cpu.mtimecmp := Or(And(cpu.mtimecmp, 0xFFFF_FFFF_0000_0000), And(value, 0xFFFF_FFFF));
      } else if addr == REG_MTIMECMP_HI {
        cpu.mtimecmp := Or(And(cpu.mtimecmp, 0xFFFF_FFFF), And(value, 0xFFFF_FFFF) * WORD);
      } else if addr == REG_MTIME_LO {
        mtimeLo := value;
        mtimeLoUpdated := true;
      } else if addr == REG_MTIME_HI {
        mtimeHi := value;
        mtimeHiUpdated := true;
      } else {
        return false;
      }
      Commit();
      return true;
    }

    /** The end of `write32`. */
    method Commit()
      modifies this`mtimeLoUpdated, this`mtimeHiUpdated, cpu`mtime
      ensures var both := old(mtimeLoUpdated && mtimeHiUpdated);
              && cpu.mtime == (if both then mtimeHi * WORD + mtimeLo else old(cpu.mtime))
              && mtimeLoUpdated == (!both && old(mtimeLoUpdated))
              && mtimeHiUpdated == (!both && old(mtimeHiUpdated))
    {
      hide PyInt.Or; hide PyInt.Pow2;
      if mtimeLoUpdated && mtimeHiUpdated {
        Pow32();
        JoinHalves(mtimeHi, mtimeLo, 32);
        cpu.mtime := Or(mtimeHi * WORD, mtimeLo);
        mtimeLoUpdated := false;
        mtimeHiUpdated := false;
      }
    }
  }

  // ----- Two-phase mtime, one-phase mtimecmp -----

  datatype Access = Access(addr: nat, v: Word) | Tick

  function Touch(t: Timer, d: Device, a: Access): (Timer, Device) {
    match a
    case Tick => (t.(mtime := t.mtime + 1), d)
    case Access(addr, v) =>
      var r := Poke(t, d, addr, v);
      if r.Some? then r.value else (t, d)
  }

  function Touches(t: Timer, d: Device, h: seq<Access>): (Timer, Device) {
    if h == [] then (t, d)
    else var (t', d') := Touches(t, d, h[..|h| - 1]); Touch(t', d', h[|h| - 1])
  }

  function EventOf(a: Access): seq<Event> {
    if a.Tick? then [Ticked]
    else if a.addr == REG_MTIME_LO then [Lo(a.v)]
    else if a.addr == REG_MTIME_HI then [Hi(a.v)]
    else []
  }

  function EventsOf(h: seq<Access>): seq<Event> {
    if h == [] then [] else EventsOf(h[..|h| - 1]) + EventOf(h[|h| - 1])
  }

  lemma TouchPlays(t: Timer, d: Device, a: Access)
    ensures var (t', d') := Touch(t, d, a); DeviceLatch(t', d') == Play(DeviceLatch(t, d), EventOf(a))
  {
    hide Clock.WriteHalf; hide Clock.Play; hide WithLow; hide WithHigh;
    var l := DeviceLatch(t, d);
    One(l, Ticked);
    if a.Access? { One(l, Lo(a.v)); One(l, Hi(a.v)); }
  }

  lemma {:induction false} TouchesPlay(t: Timer, d: Device, h: seq<Access>)
    ensures var (t', d') := Touches(t, d, h); DeviceLatch(t', d') == Play(DeviceLatch(t, d), EventsOf(h))
    decreases |h|
  {
    hide Clock.Play; hide Touch; hide EventOf;
    var l := DeviceLatch(t, d);
    One(l, Ticked);
    if h != [] {
      var p := h[..|h| - 1];
      TouchesPlay(t, d, p);
      var (t', d') := Touches(t, d, p);
      TouchPlays(t', d', h[|h| - 1]);
      PlayBoth(l, EventsOf(p), EventOf(h[|h| - 1]));
    }
  }

  /** Over any interleaving of device accesses and ticks mtime jumps only at a write that completes a
      pair, to the latest halves written since the jump before, and else counts the ticks. */
  lemma MmioTwoPhase(t: Timer, d: Device, h: seq<Access>)
    requires !d.loSet && !d.hiSet
    ensures var (t', d') := Touches(t, d, h); Accounts(DeviceLatch(t', d'), t.mtime, EventsOf(h))
  {
    hide Clock.Accounts; hide Touches; hide EventsOf;
    TouchesPlay(t, d, h);
    TwoPhaseCommit(DeviceLatch(t, d), EventsOf(h));
  }

  /** mtimecmp is not latched: the value between the two writes is in force, but after both, in either
      order, it is the one intended. */
  lemma SplitCompare(t: Timer, d: Device, lo: Word, hi: Word)
    ensures var a := Poke(t, d, REG_MTIMECMP_LO, lo).value;
            var b := Poke(t, d, REG_MTIMECMP_HI, hi).value;
            && a.0.mtimecmp == t.mtimecmp / WORD % WORD * WORD + lo
            && Poke(a.0, a.1, REG_MTIMECMP_HI, hi) == Poke(b.0, b.1, REG_MTIMECMP_LO, lo)
            && Poke(a.0, a.1, REG_MTIMECMP_HI, hi).value.0 == t.(mtimecmp := hi * WORD + lo)
  {
    var c := t.mtimecmp;
    EuclidUnique(WithLow(c, lo), WORD, c / WORD % WORD, lo);
    EuclidUnique(WithHigh(c, hi), WORD, hi, c % WORD);
    assert hi % WORD == hi;
  }

  /** Reading the halves gives the whole register, and the device has no other registers to read or write. */
  lemma ReadsWhole(t: Timer, d: Device)
    ensures var lo, hi := Peek(t, 0x0200_BFF8), Peek(t, 0x0200_BFFC);
            lo.Some? && hi.Some? && lo.value < WORD && t.mtime == hi.value * WORD + lo.value
    ensures var lo, hi := Peek(t, 0x0200_4000), Peek(t, 0x0200_4004);
            lo.Some? && hi.Some? && lo.value < WORD && t.mtimecmp == hi.value * WORD + lo.value
    ensures forall a: nat, v: Word :: Peek(t, a).Some? <==> Poke(t, d, a, v).Some?
  {
    hide WithLow; hide WithHigh; hide Clock.WriteHalf;
  }

  /** What is written to a half of mtimecmp is read back, and the other half is as before, modulo 2^32. */
  lemma ReadsBack(t: Timer, d: Device, v: Word)
    ensures var low, high := Poke(t, d, REG_MTIMECMP_LO, v).value.0, Poke(t, d, REG_MTIMECMP_HI, v).value.0;
            && Peek(low, REG_MTIMECMP_LO) == Some(v)
            && Peek(low, REG_MTIMECMP_HI) == Some(t.mtimecmp / WORD % WORD)
            && Peek(high, REG_MTIMECMP_HI) == Some(v)
            && Peek(high, REG_MTIMECMP_LO) == Peek(t, REG_MTIMECMP_LO)
  {
    var c := t.mtimecmp;
    EuclidUnique(WithLow(c, v), WORD, c / WORD % WORD, v);
    EuclidUnique(WithHigh(c, v), WORD, v, c % WORD);
  }

  // ----- The pending bit over whole runs -----

  datatype Machine = Machine(s: State, d: Device)

  /** What can happen to a machine with this device: an instruction, a load from a peripheral, whatever it
      returns, a store to the timer, a timer update. */
  datatype Happening =
    | Instruction(i: Instr, raw: Word, size: nat)
    | DeviceRead(rd: Index, v: Word)
    | DeviceWrite(addr: nat, v: Word)
    | Update

  function Next(cfg: Config, m: Machine, h: Happening): Option<Machine> {
    match h
    case Instruction(i, raw, size) =>
      var e := Perform(cfg, m.s, i, raw, size);
      if e.halt == Running then Some(m.(s := e.s)) else None
    case DeviceRead(rd, v) => Some(m.(s := SetReg(m.s, rd, v)))
    case DeviceWrite(addr, v) =>
      (match Poke(m.s.timer, m.d, addr, v)
       case Some((t, d)) => Some(Machine(m.s.(timer := t), d))
       case None => None)
    case Update =>
      var e := Isa.Tick(m.s);
      if e.halt == Running then Some(m.(s := e.s)) else None
  }

  /** A store to the device does not touch mip or mtip, nor does a load: only an instruction can part them, and
      an update brings both in line with the comparison. */
  predicate PartsIn(s: State, h: Happening) { h.Instruction? && Parts(s, h.i) }

  lemma NextAgrees(cfg: Config, m: Machine, h: Happening)
    requires Agrees(m.s)
    ensures var m' := Next(cfg, m, h);
            m'.Some? ==> && (Agrees(m'.value.s) <==> !PartsIn(m.s, h))
                         && (h.Update? ==> (m'.value.s.timer.mtip <==> Traps.Due(m.s)))
  {
    hide Isa.Perform; hide PyInt.Bit; hide Isa.Tick; hide WithLow; hide WithHigh; hide Parts;
    if h.Instruction? { InstructionAgrees(cfg, m.s, h.i, h.raw, h.size); }
    if h.Update? { TickAgrees(m.s); }
  }

  predicate NeverParts(cfg: Config, m: Machine, hs: seq<Happening>)
    decreases |hs|
  {
    hs != [] ==>
      var m' := Next(cfg, m, hs[0]);
      m'.Some? ==> !PartsIn(m.s, hs[0]) && NeverParts(cfg, m'.value, hs[1..])
  }

  /** Throughout the run bit 7 of mip equals mtip, and after each update both say whether mtime had reached
      mtimecmp before the tick. */
  predicate AgreesThroughout(cfg: Config, m: Machine, hs: seq<Happening>)
    decreases |hs|
  {
    Agrees(m.s) &&
    (hs != [] ==>
      var m' := Next(cfg, m, hs[0]);
      m'.Some? ==> && (hs[0].Update? ==> (m'.value.s.timer.mtip <==> Traps.Due(m.s)))
                   && AgreesThroughout(cfg, m'.value, hs[1..]))
  }

  /** That is so in a run exactly if no CSR write of the guest parts them. */
  lemma {:induction false} PendingBitAgrees(cfg: Config, m: Machine, hs: seq<Happening>)
    requires Agrees(m.s)
    ensures AgreesThroughout(cfg, m, hs) <==> NeverParts(cfg, m, hs)
    decreases |hs|
  {
    hide Next; hide Agrees; hide PartsIn; hide Traps.Due;
    if hs != [] {
      NextAgrees(cfg, m, hs[0]);
      var m' := Next(cfg, m, hs[0]);
      if m'.Some? && !PartsIn(m.s, hs[0]) { PendingBitAgrees(cfg, m'.value, hs[1..]); }
    }
  }

  lemma ResetAgrees(rvc: bool, mem: Bytes, world: nat)
    ensures Agrees(Reset(rvc, mem, world))
  {
  }

  /** In particular from reset, with any registers, entry point and device state. */
  lemma PendingBitFromReset(cfg: Config, mem: Bytes, world: nat, x: Regs, entry: Word, d: Device, hs: seq<Happening>)
    ensures var m := Machine(Reset(cfg.rvc, mem, world).(x := x, pc := entry), d);
            AgreesThroughout(cfg, m, hs) <==> NeverParts(cfg, m, hs)
  {
    hide AgreesThroughout; hide NeverParts;
    ResetAgrees(cfg.rvc, mem, world);
    PendingBitAgrees(cfg, Machine(Reset(cfg.rvc, mem, world).(x := x, pc := entry), d), hs);
  }

  /** A run without guest writes to mip or to the timer CSRs is such a run. */
  predicate WritesTimerCsr(s: State, i: Instr) {
    && i.Csr? && (i.csrOp == RW || CsrSource(s, i.rs1, i.immediate) != 0)
    && i.csr in {MIP, TIME_LO, TIME_HI, CMP_LO, CMP_HI}
  }

  lemma OthersDoNotPart(s: State, i: Instr)
    requires !WritesTimerCsr(s, i)
    ensures !Parts(s, i)
  {
    hide PyInt.Bit; hide Isa.NewCsr;
  }
}
