/** Python's unbounded two's-complement integers: the bit operators the emulator applies to
    register and CSR values, and the arithmetic they amount to.

    `x & (2^k - 1)` is written `x % 2^k`, `x >> k` is `x / 2^k`, `x << k` is `x * 2^k`, and setting
    or clearing one bit is `SetBit` or `ClearBit`. `MaskIsMod`, `JoinHalves` and `OneBit` show that
    these are what the operators compute. */
module PyInt {

  const WORD: nat := 0x1_0000_0000

  /** A 32-bit value: a register, a CSR, an address. */
  type Word = v: int | 0 <= v < WORD

  function Pow2(k: nat): (p: int)
    ensures p >= 1
  {
    if k == 0 then 1 else 2 * Pow2(k - 1)
  }

  datatype BitOp = CONJ | DISJ | EXCL {
    predicate Table(p: bool, q: bool) {
      match this
      case CONJ => p && q
      case DISJ => p || q
      case EXCL => p != q
    }
  }

  function Magnitude(x: int): nat {
    if x >= 0 then x else -x - 1
  }

  /** A bit operator works on each pair of bits. Both operands end in an endless run of equal bits
      (zeros, or ones for a negative number); once both have reached it, so has the result. */
  function Bitwise(op: BitOp, a: int, b: int): int
    decreases Magnitude(a) + Magnitude(b)
  {
    if (a == 0 || a == -1) && (b == 0 || b == -1) then
      if op.Table(a == -1, b == -1) then -1 else 0
    else
      2 * Bitwise(op, a / 2, b / 2) + if op.Table(a % 2 == 1, b % 2 == 1) then 1 else 0
  }

  function And(a: int, b: int): int { Bitwise(CONJ, a, b) }

  function Or(a: int, b: int): int { Bitwise(DISJ, a, b) }

  function Xor(a: int, b: int): int { Bitwise(EXCL, a, b) }

  function Not(a: int): int { -a - 1 }

  function Bit(x: int, weight: int): int
    requires weight > 0
  {
    x / weight % 2
  }

  function SetBit(x: int, weight: int): int
    requires weight > 0
  {
    if Bit(x, weight) == 1 then x else x + weight
  }

  function ClearBit(x: int, weight: int): int
    requires weight > 0
  {
    if Bit(x, weight) == 1 then x - weight else x
  }

  /** One step of the recursion holds at the base case too. */
  lemma Unfold(op: BitOp, a: int, b: int)
    ensures Bitwise(op, a, b)
         == 2 * Bitwise(op, a / 2, b / 2) + if op.Table(a % 2 == 1, b % 2 == 1) then 1 else 0
  {
  }

  /** Operands that fit in k+1 two's-complement bits have a result that fits in k+1 bits. */
  lemma {:induction false} BitwiseFits(op: BitOp, a: int, b: int, k: nat)
    requires -Pow2(k) <= a < Pow2(k) && -Pow2(k) <= b < Pow2(k)
    ensures -Pow2(k) <= Bitwise(op, a, b) < Pow2(k)
    decreases k
  {
    if k > 0 { BitwiseFits(op, a / 2, b / 2, k - 1); }
  }

  /** The sign of the result is the truth table applied to the signs. */
  lemma {:induction false} BitwiseSign(op: BitOp, a: int, b: int)
    ensures Bitwise(op, a, b) < 0 <==> op.Table(a < 0, b < 0)
    decreases Magnitude(a) + Magnitude(b)
  {
    if !((a == 0 || a == -1) && (b == 0 || b == -1)) { BitwiseSign(op, a / 2, b / 2); }
  }

  lemma Pow32()
    ensures Pow2(32) == WORD
  {
    assert Pow2(8) == 256 && Pow2(16) == 256 * Pow2(8);
    assert Pow2(24) == 256 * Pow2(16) && Pow2(32) == 256 * Pow2(24);
  }

  /** Bit operators on two 32-bit words give a 32-bit word, and so does `old & ~mask`. */
  lemma WordOps(a: int, b: int)
    requires 0 <= a < WORD && 0 <= b < WORD
    ensures 0 <= And(a, b) < WORD && 0 <= Or(a, b) < WORD && 0 <= Xor(a, b) < WORD
    ensures 0 <= And(a, Not(b)) < WORD
  {
    Pow32();
    BitwiseFits(CONJ, a, b, 32); BitwiseSign(CONJ, a, b);
    BitwiseFits(DISJ, a, b, 32); BitwiseSign(DISJ, a, b);
    BitwiseFits(EXCL, a, b, 32); BitwiseSign(EXCL, a, b);
    BitwiseFits(CONJ, a, Not(b), 32); BitwiseSign(CONJ, a, Not(b));
  }

  /** Writing `x == 2 * q + r` splits off the low bit of a quotient and of a remainder. */
  lemma HalveModulus(x: int, m: int)
    requires m > 0
    ensures x % (2 * m) == 2 * (x / 2 % m) + x % 2
    ensures x / (2 * m) == x / 2 / m
  {
    var q, r := x / 2 / m, x / 2 % m;
    assert x == (2 * m) * q + (2 * r + x % 2);
    EuclidUnique(x, 2 * m, q, 2 * r + x % 2);
  }

  lemma EuclidUnique(x: int, m: int, q: int, r: int)
    requires m > 0 && 0 <= r < m && x == m * q + r
    ensures x / m == q && x % m == r
  {
    var d := x / m - q;
    assert m * d == r - x % m;
  }

  lemma {:induction false} MaskIsMod(x: int, k: nat)
    ensures And(x, Pow2(k) - 1) == x % Pow2(k)
    decreases k
  {
    hide Bitwise;
    if k == 0 {
      AndZero(x);
    } else {
      var p := Pow2(k - 1);
      Unfold(CONJ, x, 2 * p - 1);
      assert (2 * p - 1) / 2 == p - 1 && (2 * p - 1) % 2 == 1;
      MaskIsMod(x / 2, k - 1);
      HalveModulus(x, p);
    }
  }

  lemma {:induction false} AndZero(x: int)
    ensures And(x, 0) == 0 && Or(x, 0) == x
    decreases Magnitude(x)
  {
    if !(x == 0 || x == -1) { AndZero(x / 2); }
  }

  /** `(hi << k) | lo` is plain addition when `lo` has k bits. */
  lemma {:induction false} JoinHalves(hi: int, lo: int, k: nat)
    requires 0 <= lo < Pow2(k)
    ensures Or(hi * Pow2(k), lo) == hi * Pow2(k) + lo
    decreases k
  {
    if k == 0 {
      AndZero(hi);
    } else {
      var p := Pow2(k - 1);
      assert hi * Pow2(k) == 2 * (hi * p);
      Unfold(DISJ, hi * Pow2(k), lo);
      JoinHalves(hi, lo / 2, k - 1);
    }
  }

  /** `x | (1 << k)` and `x & ~(1 << k)` set and clear one bit. */
  lemma {:induction false} OneBit(x: int, k: nat)
    ensures Or(x, Pow2(k)) == SetBit(x, Pow2(k))
    ensures And(x, Not(Pow2(k))) == ClearBit(x, Pow2(k))
    decreases k
  {
    hide Bitwise;
    Unfold(DISJ, x, Pow2(k));
    Unfold(CONJ, x, Not(Pow2(k)));
    if k == 0 {
      AndZero(x / 2);
      AndOnes(x / 2);
    } else {
      OneBit(x / 2, k - 1);
      HalveModulus(x, Pow2(k - 1));
      assert Not(Pow2(k)) / 2 == Not(Pow2(k - 1));
    }
  }

  lemma BitAbove(x: int, k: nat)
    ensures Bit(x, Pow2(k + 1)) == Bit(x / 2, Pow2(k)) && Bit(x, 1) == x % 2
  {
    HalveModulus(x, Pow2(k));
  }

  /** Bit by bit, the operators are their truth tables. */
  lemma {:induction false} BitOfResult(op: BitOp, a: int, b: int, k: nat)
    ensures Bit(Bitwise(op, a, b), Pow2(k)) == 1 <==> op.Table(Bit(a, Pow2(k)) == 1, Bit(b, Pow2(k)) == 1)
    decreases k
  {
    hide Bitwise; hide Bit;
    Unfold(op, a, b);
    BitAbove(a, if k > 0 then k - 1 else 0);
    BitAbove(b, if k > 0 then k - 1 else 0);
    BitAbove(Bitwise(op, a, b), if k > 0 then k - 1 else 0);
    if k > 0 { BitOfResult(op, a / 2, b / 2, k - 1); }
  }

  lemma {:induction false} BitOfNot(x: int, k: nat)
    ensures Bit(Not(x), Pow2(k)) == 1 - Bit(x, Pow2(k))
    decreases k
  {
    hide Bit;
    BitAbove(x, if k > 0 then k - 1 else 0);
    BitAbove(Not(x), if k > 0 then k - 1 else 0);
    assert Not(x) / 2 == Not(x / 2);
    if k > 0 { BitOfNot(x / 2, k - 1); }
  }

  /** A power of two has one bit. */
  lemma {:induction false} BitOfPower(j: nat, k: nat)
    ensures Bit(Pow2(j), Pow2(k)) == 1 <==> j == k
    decreases j
  {
    hide Bit;
    BitAbove(Pow2(j), if k > 0 then k - 1 else 0);
    if j > 0 && k > 0 { BitOfPower(j - 1, k - 1); }
    if j == 0 && k > 0 { ZeroBit(k - 1); }
  }

  lemma ZeroBit(k: nat)
    ensures Bit(0, Pow2(k)) == 0
  {
    EuclidUnique(0, Pow2(k), 0, 0);
  }

  /** Setting bit j leaves the others. */
  lemma BitOfSet(x: int, j: nat, k: nat)
    ensures Bit(SetBit(x, Pow2(j)), Pow2(k)) == 1 <==> Bit(x, Pow2(k)) == 1 || j == k
  {
    hide Bit; hide SetBit; hide Pow2; hide Bitwise;
    OneBit(x, j);
    BitOfResult(DISJ, x, Pow2(j), k);
    BitOfPower(j, k);
  }

  lemma {:induction false} BitwiseAssociates(op: BitOp, a: int, b: int, c: int)
    ensures Bitwise(op, Bitwise(op, a, b), c) == Bitwise(op, a, Bitwise(op, b, c))
    decreases Magnitude(a) + Magnitude(b) + Magnitude(c)
  {
    if !((a == 0 || a == -1) && (b == 0 || b == -1) && (c == 0 || c == -1)) {
      hide Bitwise;
      BitwiseAssociates(op, a / 2, b / 2, c / 2);
      AssociatesStep(op, a, b, c);
    }
  }

  lemma AssociatesStep(op: BitOp, a: int, b: int, c: int)
    requires Bitwise(op, Bitwise(op, a / 2, b / 2), c / 2) == Bitwise(op, a / 2, Bitwise(op, b / 2, c / 2))
    ensures Bitwise(op, Bitwise(op, a, b), c) == Bitwise(op, a, Bitwise(op, b, c))
  {
    hide Bitwise;
    Unfold(op, a, b);
    Unfold(op, b, c);
    Unfold(op, Bitwise(op, a, b), c);
    Unfold(op, a, Bitwise(op, b, c));
  }

  lemma {:induction false} AndOnes(x: int)
    ensures And(x, -1) == x
    decreases Magnitude(x)
  {
    if !(x == 0 || x == -1) { AndOnes(x / 2); }
  }

  lemma {:induction false} AndNot(x: int)
    ensures And(x, Not(x)) == 0
    decreases Magnitude(x)
  {
    if !(x == 0 || x == -1) { AndNot(x / 2); }
  }

  lemma {:induction false} ZeroOr(x: int)
    ensures Or(0, x) == x
    decreases Magnitude(x)
  {
    if !(x == 0 || x == -1) { ZeroOr(x / 2); }
  }

  /** The low k bits of the result depend on the low k bits of the operands only. */
  lemma {:induction false} BitwiseMod(op: BitOp, a: int, b: int, k: nat)
    ensures Bitwise(op, a, b) % Pow2(k) == Bitwise(op, a % Pow2(k), b % Pow2(k))
    decreases k
  {
    hide Bitwise;
    if k == 0 {
      NoBits(op);
    } else {
      BitwiseMod(op, a / 2, b / 2, k - 1);
      OneMoreBit(op, a, b, Pow2(k - 1));
    }
  }

  lemma NoBits(op: BitOp)
    ensures Bitwise(op, 0, 0) == 0
  {
  }

  lemma OneMoreBit(op: BitOp, a: int, b: int, p: int)
    requires p > 0 && Bitwise(op, a / 2, b / 2) % p == Bitwise(op, a / 2 % p, b / 2 % p)
    ensures Bitwise(op, a, b) % (2 * p) == Bitwise(op, a % (2 * p), b % (2 * p))
  {
    hide Bitwise;
    ModParts(a, p);
    ModParts(b, p);
    Unfold(op, a % (2 * p), b % (2 * p));
    Unfold(op, a, b);
    HalveModulus(Bitwise(op, a, b), p);
  }

  lemma ModParts(x: int, m: int)
    requires m > 0
    ensures x % (2 * m) / 2 == x / 2 % m && x % (2 * m) % 2 == x % 2
  {
    HalveModulus(x, m);
  }

  // ----- Setting and clearing a bit, seen from the other bits -----

  lemma BitParts(x: int, w: int)
    requires w > 0
    ensures Bit(x, w) == if x % (2 * w) < w then 0 else 1
  {
    var q, r := x / (2 * w), x % (2 * w);
    if r < w { EuclidUnique(x, w, 2 * q, r); } else { EuclidUnique(x, w, 2 * q + 1, r - w); }
  }

  /** Above the bit, and below it, nothing changes; the bit itself becomes one or zero. */
  lemma BitUpdate(x: int, w: int)
    requires w > 0
    ensures SetBit(x, w) / (2 * w) == x / (2 * w) == ClearBit(x, w) / (2 * w)
    ensures Bit(SetBit(x, w), w) == 1 && Bit(ClearBit(x, w), w) == 0
  {
    BitParts(x, w);
    var q, r := x / (2 * w), x % (2 * w);
    if r < w {
      EuclidUnique(x + w, 2 * w, q, r + w);
      BitParts(x + w, w);
    } else {
      EuclidUnique(x - w, 2 * w, q, r - w);
      BitParts(x - w, w);
    }
  }

  lemma DivDiv(x: int, a: int, k: int)
    requires a > 0 && k > 0
    ensures a * k > 0 && x / (a * k) == x / a / k
  {
    var q, r := x / a, x % a;
    var q', r' := q / k, q % k;
    DivDivStep(x, a, k, q, r, q', r');
    EuclidUnique(x, a * k, q', a * r' + r);
  }

  lemma DivDivStep(x: int, a: int, k: int, q: int, r: int, q': int, r': int)
    requires a > 0 && k > 0 && x == a * q + r && 0 <= r < a && q == k * q' + r' && 0 <= r' < k
    ensures a * k > 0 && x == (a * k) * q' + (a * r' + r) && 0 <= a * r' + r < a * k
  {
    Distribute(a, k, q', r');
    Bounded(a, r', k - 1);
    assert a * (k - 1) == a * k - a;
  }

  lemma Distribute(a: int, k: int, q: int, r: int)
    ensures a * (k * q + r) == (a * k) * q + a * r
  {
    assert a * (k * q) == (a * k) * q;
  }

  lemma Bounded(a: int, r: int, m: int)
    requires a > 0 && 0 <= r <= m
    ensures 0 <= a * r <= a * m
  {
    assert a * (m - r) >= 0;
  }

  /** Numbers that agree above a bit agree on every higher bit. */
  lemma HigherBit(x: int, y: int, w: int, k: int)
    requires w > 0 && k > 0 && x / (2 * w) == y / (2 * w)
    ensures (2 * w) * k > 0 && Bit(x, (2 * w) * k) == Bit(y, (2 * w) * k)
  {
    DivDiv(x, 2 * w, k);
    DivDiv(y, 2 * w, k);
  }

  /** Adding or subtracting a multiple of `2 w` leaves the bit of weight `w` alone. */
  lemma LowerBit(x: int, w: int, k: int)
    requires w > 0
    ensures Bit(x + (2 * w) * k, w) == Bit(x, w)
  {
    var q, r := x / w, x % w;
    EuclidUnique(x + (2 * w) * k, w, q + 2 * k, r);
  }
}
