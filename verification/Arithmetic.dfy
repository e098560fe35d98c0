/** What the M extension's results mean together: sections 7.1 and 7.2 of the RISC-V Unprivileged ISA. */
module Arithmetic {
  import opened PyInt
  import opened Isa
  import opened Binary64

  lemma SignedRange(v: Word)
    ensures -0x8000_0000 <= Signed(v) < 0x8000_0000 && Signed(v) % WORD == v
  {
    if v >= 0x8000_0000 { EuclidUnique(Signed(v), WORD, -1, v); }
  }

  lemma SignedBack(v: int)
    requires -0x8000_0000 <= v < 0x8000_0000
    ensures Signed(v % WORD) == v
  {
    if v < 0 { EuclidUnique(v, WORD, -1, v + WORD); }
  }

  /** |x| <= m and |y| <= n bound the product. */
  lemma ProductBound(x: int, y: int, m: int, n: int)
    requires -m <= x <= m && -n <= y <= n
    ensures -(m * n) <= x * y <= m * n
  {
    MulMono(Abs(x), m, Abs(y));
    MulMono(Abs(y), n, m);
    assert Abs(x) * Abs(y) <= m * n;
    assert x * y == Abs(x) * Abs(y) || x * y == -(Abs(x) * Abs(y));
  }

  lemma HighHalf(p: int, m: int)
    requires -m * WORD <= p < m * WORD
    ensures -m <= p / WORD < m
  {
  }

  /** Reading a factor as unsigned adds a multiple of 2^32 to the product. */
  lemma SameLowWord(x: int, y: int, k: int)
    ensures (x * (y + k * WORD)) % WORD == (x * y) % WORD
  {
    var p := x * y;
    assert x * (y + k * WORD) == p + (x * k) * WORD by { assert x * (k * WORD) == (x * k) * WORD; }
    EuclidUnique(p + (x * k) * WORD, WORD, p / WORD + x * k, p % WORD);
  }

  lemma SignedIsShifted(v: Word)
    ensures exists k :: Signed(v) == v + k * WORD
  {
    assert Signed(v) == v + (if v < 0x8000_0000 then 0 else -1) * WORD;
  }

  /** MUL gives the low word of the product, however the factors are read. */
  lemma LowWord(a: Word, b: Word)
    ensures Alu(MUL, a, b) == (Signed(a) * b) % WORD == (a * b) % WORD
  {
    SignedIsShifted(a);
    SignedIsShifted(b);
    var j :| Signed(a) == a + j * WORD;
    var k :| Signed(b) == b + k * WORD;
    SameLowWord(Signed(a), b, k);
    SameLowWord(b, a, j);
    assert b * Signed(a) == Signed(a) * b && b * a == a * b;
    OnMul(a, b);
  }

  lemma OnMul(a: Word, b: Word)
    ensures Alu(MUL, a, b) == Signed(a) * Signed(b) % WORD
    ensures Alu(MULH, a, b) == Signed(a) * Signed(b) / WORD % WORD
    ensures Alu(MULHSU, a, b) == Signed(a) * b / WORD % WORD
    ensures Alu(MULHU, a, b) == a * b / WORD % WORD
  {
  }

  /** MUL paired with MULH, MULHSU or MULHU makes the full 64-bit product. */
  lemma FullProduct(a: Word, b: Word)
    ensures Signed(Alu(MULH, a, b)) * WORD + Alu(MUL, a, b) == Signed(a) * Signed(b)
    ensures Signed(Alu(MULHSU, a, b)) * WORD + Alu(MUL, a, b) == Signed(a) * b
    ensures Alu(MULHU, a, b) * WORD + Alu(MUL, a, b) == a * b
  {
    hide Isa.Alu;
    OnMul(a, b);
    LowWord(a, b);
    SignedRange(a);
    SignedRange(b);
    SignedHigh(Signed(a), Signed(b));
    SignedHigh(Signed(a), b);
    UnsignedHigh(a, b);
  }

  lemma SignedHigh(x: int, y: int)
    requires -0x8000_0000 <= x < 0x8000_0000 && -0x8000_0000 <= y < WORD
    ensures Signed(x * y / WORD % WORD) * WORD + x * y % WORD == x * y
  {
    ProductBound(x, y, 0x8000_0000, WORD - 1);
    HighHalf(x * y, 0x8000_0000);
    SignedBack(x * y / WORD);
  }

  lemma TwoWords(p: int)
    requires 0 <= p < WORD * WORD
    ensures (p / WORD % WORD) * WORD + p % WORD == p
  {
    HighHalf(p, WORD);
  }

  lemma UnsignedHigh(a: Word, b: Word)
    ensures (a * b / WORD % WORD) * WORD + a * b % WORD == a * b
  {
    ProductBound(a, b, WORD - 1, WORD - 1);
    MulMono(0, a, b);
    TwoWords(a * b);
  }

  /** The one quotient that does not fit. */
  predicate Overflows(a: Word, b: Word) { a == 0x8000_0000 && b == WORD - 1 }

  lemma OnDiv(a: Word, b: Word)
    requires b != 0
    ensures Alu(DIV, a, b) == TruncatedQuotient(Signed(a), Signed(b)) % WORD
    ensures Alu(REM, a, b) == (Signed(a) - TruncatedQuotient(Signed(a), Signed(b)) * Signed(b)) % WORD
    ensures Alu(DIVU, a, b) == a / b && Alu(REMU, a, b) == a % b
  {
  }

  lemma QuotientRange(x: int, y: int)
    requires -0x8000_0000 <= x < 0x8000_0000 && y != 0 && !(x == -0x8000_0000 && y == -1)
    ensures -0x8000_0000 <= TruncatedQuotient(x, y) < 0x8000_0000
  {
    var n, d := Abs(x), Abs(y);
    if d >= 2 {
      MulMono(2, d, n / d);
      Euclid(n, d);
    }
  }

  /** DIV and REM: dividend = quotient * divisor + remainder, with a remainder smaller than the divisor
      and of the dividend's sign; the results the manual fixes for division by zero and overflow. */
  lemma SignedDivision(a: Word, b: Word)
    ensures var q, r, x, y := Signed(Alu(DIV, a, b)), Signed(Alu(REM, a, b)), Signed(a), Signed(b);
            if b == 0 then q == -1 && r == x
            else if Overflows(a, b) then q == x && r == 0
            else x == q * y + r && Abs(r) < Abs(y) && (r != 0 ==> (r < 0 <==> x < 0))
  {
    hide Isa.Alu;
    SignedRange(a);
    SignedRange(b);
    if b == 0 {
      OnZero(a);
    } else {
      OnDiv(a, b);
      var x, y := Signed(a), Signed(b);
      var q := TruncatedQuotient(x, y);
      if Overflows(a, b) {
        assert q == 0x8000_0000;
      } else {
        hide Binary64.TruncatedQuotient;
        DivisionLaw(x, y);
        QuotientRange(x, y);
        SignedBack(q);
        SignedBack(x - q * y);
      }
    }
  }

  lemma OnZero(a: Word)
    ensures Alu(DIV, a, 0) == WORD - 1 && Alu(REM, a, 0) == a
    ensures Alu(DIVU, a, 0) == WORD - 1 && Alu(REMU, a, 0) == a
  {
  }

  /** DIVU and REMU likewise. */
  lemma UnsignedDivision(a: Word, b: Word)
    ensures var q, r := Alu(DIVU, a, b), Alu(REMU, a, b);
            if b == 0 then q == WORD - 1 && r == a else a == q * b + r && r < b
  {
    hide Isa.Alu;
    if b == 0 { OnZero(a); } else { OnDiv(a, b); Euclid(a, b); }
  }
}
