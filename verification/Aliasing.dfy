/** The exact condition for the 32-bit decode cache to be invisible. */
module Aliasing {
  import opened PyInt
  import opened Memory
  import opened Isa
  import opened Rvc
  import opened Cache
  import Steps

  // ----- Every instruction but the illegal one can be told from it -----

  /** A state in which every trap has a handler and no register is set, with any memory. */
  function Bench(mem: Bytes): State {
    var csr: Csrs := seq(4096, _ => 0)[MTVEC := 4];
    State(seq(32, _ => 0), 8, 8, csr, Timer(0, 0, false, false, false, false, false), false, 0, mem, 0)
  }

  /** The state that tells the instruction from an illegal one. */
  function Witness(i: Instr, mem: Bytes): State {
    var s := Bench(mem);
    match i
    case Amo(UNKNOWN, _, rs1, _) => s.(x := s.x[rs1 := 1])
    case Csr(RW, _, _, _, n) => if ReadOnly(n) then s.(csr := s.csr[n := WORD - 1]) else s
    case Csr(RC, _, rs1, _, n) => if ReadOnly(n) then s.(csr := s.csr[n := rs1]) else s
    case _ => s
  }

  /** What an illegal instruction does there. */
  predicate TrapsAsIllegal(s: State, e: Effect, raw: Word) {
    e.halt == Running && e.s.csr[MCAUSE] == 2 && e.s.csr[MTVAL] == raw && e.s.csr[MEPC] == s.pc
  }

  lemma IllegalTraps(cfg: Config, s: State, raw: Word)
    requires s.csr[MTVEC] != 0
    ensures TrapsAsIllegal(s, Perform(cfg, s, Illegal, raw, 4), raw)
    ensures forall n: CsrIndex | ReadOnly(n) :: Perform(cfg, s, Illegal, raw, 4).s.csr[n] == s.csr[n]
  {
    hide Isa.EnterTrap;
  }

  lemma PlainDiffers(cfg: Config, i: Instr, mem: Bytes, raw: Word)
    requires !i.Csr? && !i.Amo? && !i.Illegal?
    ensures var e := Perform(cfg, Bench(mem), i, raw, 4); !TrapsAsIllegal(Bench(mem), e, raw)
  {
    hide Isa.EnterTrap; hide Isa.LeaveTrap; hide Isa.Alu; hide Isa.Taken; hide Memory.Load; hide Memory.Store;
    hide Isa.Even;
    hide Isa.Loaded; hide Isa.On; hide Isa.StoreBlocks;
  }

  lemma AmoDiffers(cfg: Config, i: Instr, mem: Bytes, raw: Word)
    requires i.Amo?
    ensures !TrapsAsIllegal(Witness(i, mem), Perform(cfg, Witness(i, mem), i, raw, 4), raw)
  {
    hide Isa.EnterTrap; hide Memory.Load; hide Memory.Store; hide Isa.Combine;
  }

  /** The CSR instructions that trap, on read-only CSRs, write them. */
  lemma ReadOnlyDiffers(cfg: Config, i: Instr, mem: Bytes, raw: Word)
    requires i.Csr? && ReadOnly(i.csr) && (i.csrOp == RW || CsrSource(Witness(i, mem), i.rs1, i.immediate) != 0)
    ensures var s := Witness(i, mem); Perform(cfg, s, i, raw, 4).s.csr[i.csr] != s.csr[i.csr]
  {
    hide Isa.EnterTrap; hide PyInt.Or; hide PyInt.And; hide PyInt.Not;
    var s := Witness(i, mem);
    var src := CsrSource(s, i.rs1, i.immediate);
    ZeroOr(src);
    AndNot(src);
  }

  lemma CsrDiffers(cfg: Config, i: Instr, mem: Bytes, raw: Word)
    requires i.Csr? && !(ReadOnly(i.csr) && (i.csrOp == RW || CsrSource(Witness(i, mem), i.rs1, i.immediate) != 0))
    ensures !TrapsAsIllegal(Witness(i, mem), Perform(cfg, Witness(i, mem), i, raw, 4), raw)
  {
    hide Isa.NewCsr; hide Isa.On; hide Isa.ReadBack; hide Isa.WriteTime; hide Isa.WriteCompare;
  }

  /** So every instruction but the illegal one does something else than that in some state, whatever the memory. */
  lemma Differs(cfg: Config, i: Instr, mem: Bytes, raw: Word)
    requires i != Illegal
    ensures Perform(cfg, Witness(i, mem), i, raw, 4) != Perform(cfg, Witness(i, mem), Illegal, raw, 4)
  {
    hide Isa.Perform; hide Bench;
    MtvecSet(i, mem);
    IllegalTraps(cfg, Witness(i, mem), raw);
    if i.Amo? { AmoDiffers(cfg, i, mem, raw); }
    else if !i.Csr? { PlainDiffers(cfg, i, mem, raw); }
    else if ReadOnly(i.csr) && (i.csrOp == RW || CsrSource(Witness(i, mem), i.rs1, i.immediate) != 0) {
      ReadOnlyDiffers(cfg, i, mem, raw);
    }
    else { CsrDiffers(cfg, i, mem, raw); }
  }

  lemma MtvecSet(i: Instr, mem: Bytes)
    ensures Witness(i, mem).csr[MTVEC] != 0
  {
  }

  /** With x0 zero, an unknown AMO on x0 acts like an illegal instruction. */
  predicate LikeIllegal(i: Instr) { i == Illegal || (i.Amo? && i.amo == UNKNOWN && i.rs1 == 0) }

  lemma LikeIllegalIs(cfg: Config, s: State, i: Instr, raw: Word)
    requires LikeIllegal(i) && s.x[0] == 0
    ensures Perform(cfg, s, i, raw, 4) == Perform(cfg, s, Illegal, raw, 4)
  {
    hide Isa.EnterTrap;
  }

  /** It is the only one: the witness of any other has x0 zero. */
  lemma OnlyThose(i: Instr, mem: Bytes)
    requires !LikeIllegal(i)
    ensures Witness(i, mem).x[0] == 0
  {
  }

  // ----- Words that share an entry -----

  /** Instructions that act alike as long as x0 is zero, as it is in every run. */
  predicate SameEffect(i: Instr, j: Instr) { i == j || (LikeIllegal(i) && LikeIllegal(j)) }

  /** The word w, run with the fields that v has left in the cache, acts as it does afresh. */
  predicate ActsAlike(v: bv32, w: bv32) { SameEffect(Decode(Split(v), w), Decode(Split(w), w)) }

  lemma SameEffectIs(cfg: Config, s: State, i: Instr, j: Instr, raw: Word)
    requires SameEffect(i, j) && s.x[0] == 0
    ensures Perform(cfg, s, i, raw, 4) == Perform(cfg, s, j, raw, 4)
  {
    hide Isa.Perform; hide LikeIllegal;
    if i != j {
      LikeIllegalIs(cfg, s, i, raw);
      LikeIllegalIs(cfg, s, j, raw);
    }
  }

  /** Of two words that share an entry and do not act alike at most one ends in 0b11; the fields of the other one
      make every word illegal. */
  lemma OneIsIllegal(v: bv32, w: bv32)
    requires WideKey(v) == WideKey(w) && !ActsAlike(v, w)
    ensures (!EndsIn11(v) && Decode(Split(v), w) == Illegal) || (!EndsIn11(w) && Decode(Split(w), w) == Illegal)
  {
    hide Isa.Decode; hide Isa.Split; hide WideKey; hide LikeIllegal;
    if EndsIn11(v) && EndsIn11(w) {
      WideKeyInjective(v, w);
    } else if !EndsIn11(v) {
      NotAnInstruction(v, w);
    } else {
      NotAnInstruction(w, w);
    }
  }

  lemma NotAnInstruction(v: bv32, w: bv32)
    requires !EndsIn11(v)
    ensures Decode(Split(v), w) == Illegal
  {
    hide Isa.Decode; hide Isa.Split;
    Steps.OpcodeBits(v);
    Steps.NotAnOpcode(Split(v), w);
  }

  /** The one of the two instructions that is not illegal. */
  function Other(v: bv32, w: bv32): Instr {
    if Decode(Split(v), w) == Illegal then Decode(Split(w), w) else Decode(Split(v), w)
  }

  lemma EntryDiffers(cfg: Config, v: bv32, w: bv32, mem: Bytes)
    requires WideKey(v) == WideKey(w) && !ActsAlike(v, w)
    ensures var s := Witness(Other(v, w), mem);
            s.x[0] == 0 && Dispatch(cfg, s, Split(v), w, 4) != Execute32(cfg, s, w)
  {
    hide Isa.Decode; hide Isa.Split; hide WideKey; hide Isa.Perform; hide Witness; hide Isa.Val; hide LikeIllegal;
    OneIsIllegal(v, w);
    IllegalIs();
    OnlyThose(Other(v, w), mem);
    Differs(cfg, Other(v, w), mem, Val(w));
  }

  /** That is exact: w runs with the entry of v as it does afresh on all states with x0 zero if and only if the
      two decodings are the same instruction, or both act like an illegal one. One memory is enough to tell. */
  lemma EntryExactly(cfg: Config, v: bv32, w: bv32, mem: Bytes)
    requires WideKey(v) == WideKey(w)
    ensures (forall s: State | s.x[0] == 0 && s.mem == mem :: Dispatch(cfg, s, Split(v), w, 4) == Execute32(cfg, s, w))
            <==> ActsAlike(v, w)
  {
    hide Isa.Decode; hide Isa.Split; hide WideKey; hide Isa.Perform; hide Witness; hide Isa.Val; hide SameEffect;
    hide Other;
    if ActsAlike(v, w) {
      forall s: State | s.x[0] == 0 && s.mem == mem
        ensures Dispatch(cfg, s, Split(v), w, 4) == Execute32(cfg, s, w)
      {
        SameEffectIs(cfg, s, Decode(Split(v), w), Decode(Split(w), w), Val(w));
      }
    } else {
      EntryDiffers(cfg, v, w, mem);
      WitnessMemory(Other(v, w), mem);
    }
  }

  lemma WitnessMemory(i: Instr, mem: Bytes)
    ensures Witness(i, mem).mem == mem
  {
  }

  lemma IllegalIs()
    ensures LikeIllegal(Illegal)
  {
  }

  /** If w is spoilt by the entry of v, which ends in 0b11, then v is spoilt by the entry of w: what the fields of v
      make of w, they make of v, or an ECALL, EBREAK, MRET or WFI instead. */
  lemma OwnWord(v: bv32, w: bv32)
    requires Upper(v) == Upper(w) && !EndsIn11(w) && !LikeIllegal(Decode(Split(v), w))
    ensures !LikeIllegal(Decode(Split(v), v))
  {
    hide Isa.Num; hide Isa.Val; hide Isa.ImmI; hide Isa.ImmS; hide Isa.ImmB; hide Isa.ImmU; hide Isa.ImmJ;
    hide Isa.CsrField;
    SameTop(v, w);
  }

  lemma SameTop(v: bv32, w: bv32)
    requires Upper(v) == Upper(w)
    ensures (v >> 27) as bv5 == (w >> 27) as bv5
  {
  }

  /** So one that does not end in 0b11 can be taken first. */
  lemma IllegalFirst(v: bv32, w: bv32) returns (u: bv32, l: bv32)
    requires WideKey(v) == WideKey(w) && !ActsAlike(v, w)
    ensures (u == v && l == w) || (u == w && l == v)
    ensures !EndsIn11(u) && !ActsAlike(u, l)
  {
    hide Isa.Decode; hide Isa.Split; hide LikeIllegal; hide WideKey;
    u, l := v, w;
    if EndsIn11(v) {
      OneIsIllegal(v, w);
      IllegalIs();
      SameUpper(v, w);
      OwnWord(v, w);
      NotAnInstruction(w, v);
      u, l := w, v;
    }
  }

  lemma SameUpper(v: bv32, w: bv32)
    requires WideKey(v) == WideKey(w)
    ensures Upper(v) == Upper(w)
  {
    hide Isa.Val; hide OfVal;
    FromVal(Upper(v));
    FromVal(Upper(w));
  }

  // ----- Whole histories -----

  predicate From(calls: seq<Call>, family: bv32 -> bool) {
    forall i | 0 <= i < |calls| && calls[i].Wide? :: family(calls[i].w)
  }

  /** Nothing that happens between the calls sets x0. */
  ghost predicate KeepsZero(f: State -> State) { forall s: State | s.x[0] == 0 :: f(s).x[0] == 0 }

  ghost predicate KeepZero(calls: seq<Call>) { forall i | 0 <= i < |calls| :: KeepsZero(calls[i].before) }

  /** Nor does it change the size of the memory. */
  ghost predicate KeepsSize(f: State -> State) { forall s: State :: |f(s).mem| == |s.mem| }

  ghost predicate KeepSize(calls: seq<Call>) { forall i | 0 <= i < |calls| :: KeepsSize(calls[i].before) }

  /** From empty caches and with a memory of the given size, every history with words of the family runs as it does
      without caches. */
  ghost predicate Transparent(cfg: Config, size: nat, family: bv32 -> bool) {
    forall s: State, calls: seq<Call> | s.x[0] == 0 && |s.mem| == size && From(calls, family) && KeepZero(calls)
                                        && KeepSize(calls) ::
      Cached(cfg, s, Caches(map[], map[]), calls).0 == Plain(cfg, s, calls)
  }

  ghost predicate Invisible(family: bv32 -> bool) {
    forall v, w :: family(v) && family(w) && WideKey(v) == WideKey(w) ==> ActsAlike(v, w)
  }

  /** Every entry leads to an instruction that acts like the one that decoding afresh gives. */
  ghost predicate Faithful(c: Caches, family: bv32 -> bool) {
    && (forall w | family(w) && WideKey(w) in c.wide :: SameEffect(Decode(c.wide[WideKey(w)], w), Decode(Split(w), w)))
    && NarrowCoherent(c)
  }

  lemma FaithfulStep(cfg: Config, s: State, c: Caches, w: bv32, family: bv32 -> bool)
    requires Faithful(c, family) && Invisible(family) && family(w) && s.x[0] == 0
    ensures var (e, c') := CachedExecute32(cfg, s, c, w); e == Execute32(cfg, s, w) && Faithful(c', family)
  {
    hide Isa.Perform; hide Isa.Decode; hide Isa.Val; hide Isa.Split; hide WideKey; hide NarrowKey; hide Rvc.Expand;
    hide SameEffect;
    assert ActsAlike(w, w) by { Reflexive(Decode(Split(w), w)); }
    var f := if WideKey(w) in c.wide then c.wide[WideKey(w)] else Split(w);
    SameEffectIs(cfg, s, Decode(f, w), Decode(Split(w), w), Val(w));
  }

  lemma Reflexive(i: Instr)
    ensures SameEffect(i, i)
  {
  }

  lemma WordKeepsZero(cfg: Config, s: State, w: bv32)
    ensures var e := Execute32(cfg, s, w); e.halt == Running ==> e.s.x[0] == 0
  {
    hide Isa.Exec; hide Isa.Decode; hide Isa.Split;
  }

  lemma HalfKeepsZero(cfg: Config, s: State, h: bv16)
    requires s.x[0] == 0
    ensures var e := Execute16(cfg, s, h); e.halt == Running ==> e.s.x[0] == 0
  {
    hide Isa.Exec; hide Isa.Decode; hide Isa.Split; hide Rvc.Expand; hide Isa.EnterTrap;
  }

  lemma {:induction false} FaithfulRun(cfg: Config, s: State, c: Caches, calls: seq<Call>, family: bv32 -> bool)
    requires Faithful(c, family) && Invisible(family)
    requires s.x[0] == 0 && From(calls, family) && KeepZero(calls)
    ensures var (e, c') := Cached(cfg, s, c, calls);
            e == Plain(cfg, s, calls) && Faithful(c', family) && (e.halt == Running ==> e.s.x[0] == 0)
    decreases |calls|
  {
    hide CachedExecute32; hide CachedExecute16; hide Isa.Execute32; hide Rvc.Execute16; hide Invisible;
    hide NarrowCoherent; hide WideKey; hide Isa.Decode; hide Isa.Split; hide SameEffect;
    if calls != [] {
      var init, last := calls[..|calls| - 1], calls[|calls| - 1];
      FaithfulRun(cfg, s, c, init, family);
      var (e, c') := Cached(cfg, s, c, init);
      if e.halt == Running {
        assert KeepsZero(last.before);
        match last
        case Wide(before, w) =>
          FaithfulStep(cfg, before(e.s), c', w, family);
          WordKeepsZero(cfg, before(e.s), w);
        case Narrow(before, h) =>
          NarrowStep(cfg, before(e.s), c', h);
          HalfKeepsZero(cfg, before(e.s), h);
      }
    }
  }

  /** A history that shows the difference: u, and then l in the state that tells. */
  function Exposing(u: bv32, l: bv32): seq<Call> {
    var i := Other(u, l);
    [Wide((s: State) => Bench(s.mem), u), Wide((s: State) => Witness(i, s.mem), l)]
  }

  lemma IllegalRuns(cfg: Config, u: bv32, mem: Bytes)
    requires !EndsIn11(u)
    ensures Execute32(cfg, Bench(mem), u).halt == Running
  {
    hide Isa.Decode; hide Isa.Split; hide Isa.Val; hide Isa.Perform; hide EndsIn11;
    NotAnInstruction(u, u);
    IllegalTraps(cfg, Bench(mem), Val(u));
  }

  /** Two calls of `execute_32`, the first of which runs. */
  lemma TwoCalls(cfg: Config, s: State, c: Caches, f: State -> State, v: bv32, g: State -> State, w: bv32)
    requires Execute32(cfg, f(s), v).halt == Running && CachedExecute32(cfg, f(s), c, v).0 == Execute32(cfg, f(s), v)
    ensures var calls := [Wide(f, v), Wide(g, w)];
            var (e, c') := CachedExecute32(cfg, f(s), c, v);
            && Plain(cfg, s, calls) == Execute32(cfg, g(e.s), w)
            && Cached(cfg, s, c, calls) == CachedExecute32(cfg, g(e.s), c', w)
  {
    hide Isa.Execute32; hide CachedExecute32;
    var calls := [Wide(f, v), Wide(g, w)];
    var first := calls[..1];
    assert first == [Wide(f, v)] && first[..0] == [];
    assert Plain(cfg, s, first) == Execute32(cfg, f(s), v);
    assert Cached(cfg, s, c, first) == CachedExecute32(cfg, f(s), c, v);
  }

  lemma ExposingShows(cfg: Config, s: State, u: bv32, l: bv32)
    requires WideKey(u) == WideKey(l) && !EndsIn11(u) && !ActsAlike(u, l)
    ensures Cached(cfg, s, Caches(map[], map[]), Exposing(u, l)).0 != Plain(cfg, s, Exposing(u, l))
  {
    hide Isa.Dispatch; hide Isa.Split; hide WideKey; hide Isa.Decode; hide Bench; hide Witness; hide ActsAlike;
    hide Other; hide Cached; hide Plain; hide EndsIn11;
    var i := Other(u, l);
    IllegalRuns(cfg, u, s.mem);
    TwoCalls(cfg, s, Caches(map[], map[]), (t: State) => Bench(t.mem), u, (t: State) => Witness(i, t.mem), l);
    var calls := Exposing(u, l);
    assert calls == [Wide((t: State) => Bench(t.mem), u), Wide((t: State) => Witness(i, t.mem), l)];
    EntryDiffers(cfg, u, l, Execute32(cfg, Bench(s.mem), u).s.mem);
  }

  lemma ExposingAdmitted(v: bv32, w: bv32, family: bv32 -> bool)
    requires family(v) && family(w) && forall mem :: Witness(Other(v, w), mem).x[0] == 0
    ensures KeepZero(Exposing(v, w)) && KeepSize(Exposing(v, w)) && From(Exposing(v, w), family)
  {
    hide Witness; hide Other;
    forall mem ensures Witness(Other(v, w), mem).mem == mem { WitnessMemory(Other(v, w), mem); }
  }

  /** The cache is invisible over all histories with words of a family, on a memory of whatever size, if and only if
      any two of them that share an entry act alike, each with the fields of the other. */
  lemma TransparentExactly(cfg: Config, size: nat, family: bv32 -> bool)
    ensures Transparent(cfg, size, family) <==> Invisible(family)
  {
    hide Cached; hide Plain; hide ActsAlike; hide WideKey; hide Exposing; hide KeepZero; hide KeepSize; hide EndsIn11;
    if Invisible(family) {
      forall s: State, calls: seq<Call> | s.x[0] == 0 && |s.mem| == size && From(calls, family) && KeepZero(calls)
                                          && KeepSize(calls)
        ensures Cached(cfg, s, Caches(map[], map[]), calls).0 == Plain(cfg, s, calls)
      {
        FaithfulRun(cfg, s, Caches(map[], map[]), calls, family);
      }
    } else {
      var v, w :| family(v) && family(w) && WideKey(v) == WideKey(w) && !ActsAlike(v, w);
      var u, l := IllegalFirst(v, w);
      var s := Bench(seq(size, _ => 0));
      ExposingShows(cfg, s, u, l);
      forall mem ensures Witness(Other(u, l), mem).x[0] == 0 { EntryDiffers(cfg, u, l, mem); }
      ExposingAdmitted(u, l, family);
    }
  }

  /** For instance: any LUI in the cache makes each word that differs from it in the two low bits only run as
      LUI, where afresh it is illegal. */
  lemma LuiHidesIllegal(v: bv32, w: bv32)
    requires v & 0x7F == 0x37 && v != w && Upper(v) == Upper(w)
    ensures !RunsAlike(v, w) && Decode(Split(w), w) == Illegal
  {
    hide Isa.ImmI; hide Isa.ImmS; hide Isa.ImmB; hide Isa.ImmU; hide Isa.ImmJ; hide Isa.Val; hide Isa.Num;
    LuiFields(v, w);
  }

  lemma LuiFields(v: bv32, w: bv32)
    requires v & 0x7F == 0x37 && v != w && Upper(v) == Upper(w)
    ensures Split(v).opcode == 0x37 && Split(w).opcode in {0x34, 0x35, 0x36}
  {
  }

  /** So the cache can be seen, on a memory of any size, if all words are allowed. */
  lemma NotAlwaysTransparent(cfg: Config, size: nat)
    ensures !Transparent(cfg, size, (w: bv32) => true)
  {
    hide Transparent; hide Isa.Decode; hide Isa.Split; hide LikeIllegal;
    var all := (w: bv32) => true;
    TransparentExactly(cfg, size, all);
    assert WideKey(0x1237) == WideKey(0x1234) by { assert Upper(0x1237) == Upper(0x1234); }
    LuiIsNot();
    IllegalIs();
    assert !ActsAlike(0x1237, 0x1234);
    assert all(0x1237) && all(0x1234);
  }

  lemma LuiIsNot()
    ensures !LikeIllegal(Decode(Split(0x1237), 0x1234)) && Decode(Split(0x1234), 0x1234) == Illegal
  {
    assert Split(0x1237).opcode == 0x37;
    assert Split(0x1234).opcode == 0x34;
  }
}
