/** The handlers read immediates off the instruction word as integers and subtract to sign-extend
    them. These lemmas relate that to the two's-complement immediates of `Isa`. */
module Immediates {
  import opened PyInt
  import opened Isa

  /** `if imm >= sign: imm -= 2 * sign` */
  function Back(v: int, sign: int): int { if v >= sign then v - 2 * sign else v }

  lemma BackMod(v: Word, e: Word, sign: int)
    requires 0 < 2 * sign < WORD
    requires (v < sign && e == v) || (sign <= v < 2 * sign && e == v + WORD - 2 * sign)
    ensures e == Back(v, sign) % WORD
  {
  }

  lemma Extend12(v: bv32)
    requires v < 0x1000
    ensures Val(Extend(v, 0x800)) == Back(Val(v), 0x800) % WORD
  {
    hide Isa.Val; hide Isa.Extend;
    if v < 0x800 { Low12(v); } else { High12(v); }
    BackMod(Val(v), Val(Extend(v, 0x800)), 0x800);
  }

  lemma Low12(v: bv32)
    requires v < 0x800
    ensures Extend(v, 0x800) == v && Val(v) < 0x800
  {
    assert Val(v) == (v as bv11) as int;
  }

  lemma High12(v: bv32)
    requires 0x800 <= v < 0x1000
    ensures Val(Extend(v, 0x800)) == Val(v) + 0xFFFF_F000 && 0x800 <= Val(v) < 0x1000
  {
    assert Extend(v, 0x800) == v + 0xFFFF_F000;
  }

  lemma Extend13(v: bv32)
    requires v < 0x2000
    ensures Val(Extend(v, 0x1000)) == Back(Val(v), 0x1000) % WORD
  {
    hide Isa.Val; hide Isa.Extend;
    if v < 0x1000 { Low13(v); } else { High13(v); }
    BackMod(Val(v), Val(Extend(v, 0x1000)), 0x1000);
  }

  lemma Low13(v: bv32)
    requires v < 0x1000
    ensures Extend(v, 0x1000) == v && Val(v) < 0x1000
  {
    assert Val(v) == (v as bv12) as int;
  }

  lemma High13(v: bv32)
    requires 0x1000 <= v < 0x2000
    ensures Val(Extend(v, 0x1000)) == Val(v) + 0xFFFF_E000 && 0x1000 <= Val(v) < 0x2000
  {
    assert Extend(v, 0x1000) == v + 0xFFFF_E000;
  }

  lemma Extend21(v: bv32)
    requires v < 0x20_0000
    ensures Val(Extend(v, 0x10_0000)) == Back(Val(v), 0x10_0000) % WORD
  {
    hide Isa.Val; hide Isa.Extend;
    if v < 0x10_0000 { Low21(v); } else { High21(v); }
    BackMod(Val(v), Val(Extend(v, 0x10_0000)), 0x10_0000);
  }

  lemma Low21(v: bv32)
    requires v < 0x10_0000
    ensures Extend(v, 0x10_0000) == v && Val(v) < 0x10_0000
  {
    assert Val(v) == (v as bv20) as int;
  }

  lemma High21(v: bv32)
    requires 0x10_0000 <= v < 0x20_0000
    ensures Val(Extend(v, 0x10_0000)) == Val(v) + 0xFFE0_0000 && 0x10_0000 <= Val(v) < 0x20_0000
  {
    assert Extend(v, 0x10_0000) == v + 0xFFE0_0000;
  }

  lemma ValueI(w: bv32)
    ensures Val(ImmI(w)) == Back(Val(w >> 20), 0x800) % WORD
  {
    Extend12(w >> 20);
  }

  lemma ValueS(w: bv32, v: bv32)
    requires v == ((w >> 7) & 0x1F) | ((w >> 25) << 5)
    ensures Val(ImmS(w)) == Back(Val(v), 0x800) % WORD
  {
    assert v == ((w >> 25) << 5) | ((w >> 7) & 0x1F) && v < 0x1000;
    Extend12(v);
  }

  lemma ValueB(w: bv32, v: bv32)
    requires v == (((w >> 7) & 0x1) << 11) | (((w >> 8) & 0xF) << 1) | (((w >> 25) & 0x3F) << 5) | ((w >> 31) << 12)
    ensures Val(ImmB(w)) == Back(Val(v), 0x1000) % WORD
  {
    assert v < 0x2000;
    assert ImmB(w) == Extend(v, 0x1000);
    Extend13(v);
  }

  lemma ValueJ(w: bv32, v: bv32)
    requires v == (((w >> 21) & 0x3FF) << 1) | (((w >> 20) & 0x1) << 11) | (((w >> 12) & 0xFF) << 12)
             | ((w >> 31) << 20)
    ensures Val(ImmJ(w)) == Back(Val(v), 0x10_0000) % WORD
  {
    assert v < 0x20_0000;
    assert ImmJ(w) == Extend(v, 0x10_0000);
    Extend21(v);
  }

  lemma ValueU(w: bv32)
    ensures Val(ImmU(w)) == Val(w >> 12) * 0x1000
  {
  }

  lemma Twelve(v: bv32)
    requires v < 0x1000
    ensures Val(v) < 0x1000
  {
    assert Val(v) == (v as bv12) as int;
  }

  lemma Quintet(v: bv32)
    requires v < 0x1000
    ensures Val(v) == 32 * Val(v >> 5) + Val(v & 0x1F) && Val(v & 0x1F) < 32
  {
  }

  lemma BackLow(v: int, q: int, r: int, sign: int)
    requires v == 32 * q + r && 0 <= r < 32 && sign % 16 == 0
    ensures Back(v, sign) % 32 == r
  {
    var k := sign / 16;
    assert sign == 16 * k;
    EuclidUnique(Back(v, sign), 32, if v >= sign then q - k else q, r);
  }

  /** `imm & 0x1F` is the shift amount, whether or not the immediate was sign-extended first. */
  lemma ValueShamt(w: bv32)
    ensures Back(Val(w >> 20), 0x800) % 32 == Val((w >> 20) & 0x1F)
  {
    Quintet(w >> 20);
    BackLow(Val(w >> 20), Val((w >> 20) >> 5), Val((w >> 20) & 0x1F), 0x800);
  }
}
