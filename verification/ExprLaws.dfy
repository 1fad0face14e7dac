/** What the operators of the expression language mean, apart from how they are worked
    out: the laws that the compiler's constant folding, the library routines and the
    source language all rest on. */
module ExprLaws {
  import opened Common
  import opened Expr

  // ----- bits -----

  lemma {:induction false} XorWithSelf(a: nat, n: nat)
    ensures Bits(BXor, a, a, n) == 0
    decreases n
  {
    if n > 0 { XorWithSelf(a / 2, n - 1); }
  }

  lemma {:induction false} XorTwice(a: nat, b: nat, n: nat)
    requires a < Pow2(n)
    ensures Bits(BXor, Bits(BXor, a, b, n), b, n) == a
    decreases n
  {
    if n > 0 { XorTwice(a / 2, b / 2, n - 1); }
  }

  lemma {:induction false} OrSplits(a: nat, b: nat, n: nat)
    requires a < Pow2(n) && b < Pow2(n)
    ensures Bits(BOr, a, b, n) == Bits(BAnd, a, b, n) + Bits(BXor, a, b, n)
    ensures Bits(BOr, a, b, n) + Bits(BAnd, a, b, n) == a + b
    decreases n
  {
    if n > 0 { OrSplits(a / 2, b / 2, n - 1); }
  }

  lemma {:induction false} AndWithOnes(a: nat, n: nat)
    requires a < Pow2(n)
    ensures Bits(BAnd, a, Pow2(n) - 1, n) == a
    decreases n
  {
    if n > 0 {
      assert (Pow2(n) - 1) / 2 == Pow2(n - 1) - 1 && (Pow2(n) - 1) % 2 == 1;
      AndWithOnes(a / 2, n - 1);
    }
  }

  /** The bit at place `i`. */
  function BitAt(x: nat, i: nat): (b: nat)
    ensures b <= 1
  {
    x / Pow2(i) % 2
  }

  lemma BitAtNext(x: nat, i: nat)
    ensures BitAt(x, 0) == x % 2 && (i > 0 ==> BitAt(x, i) == BitAt(x / 2, i - 1))
  {
    if i > 0 { HalfAgain(x, i); }
  }

  /** A bit of the result is the operator on the two bits there. */
  lemma {:induction false} BitOfBits(op: BitOp, a: nat, b: nat, n: nat, i: nat)
    requires i < n
    ensures BitAt(Bits(op, a, b, n), i) == OneBit(op, BitAt(a, i), BitAt(b, i))
    decreases n
  {
    hide Bits, BitAt, OneBit;
    BitsStep(op, a, b, n);
    BitAtNext(a, i);
    BitAtNext(b, i);
    BitAtNext(Bits(op, a, b, n), i);
    if i > 0 { BitOfBits(op, a / 2, b / 2, n - 1, i - 1); }
  }

  lemma BitsStep(op: BitOp, a: nat, b: nat, n: nat)
    requires n > 0
    ensures Bits(op, a, b, n) % 2 == OneBit(op, a % 2, b % 2) && Bits(op, a, b, n) / 2 == Bits(op, a / 2, b / 2, n - 1)
  {
    Halves(OneBit(op, a % 2, b % 2), Bits(op, a / 2, b / 2, n - 1));
  }

  lemma Halves(x: nat, y: nat)
    requires x <= 1
    ensures (x + 2 * y) % 2 == x && (x + 2 * y) / 2 == y
  {
  }

  lemma HalfAgain(a: nat, i: nat)
    requires i > 0
    ensures a / Pow2(i) == a / 2 / Pow2(i - 1)
  {
    var p := Pow2(i - 1);
    var q := a / 2 / p;
    assert a / 2 == q * p + a / 2 % p;
    assert a == q * (2 * p) + (2 * (a / 2 % p) + a % 2);
    DivIs(a, 2 * p, q, 2 * (a / 2 % p) + a % 2);
  }

  lemma DivIs(a: int, d: int, q: int, r: int)
    requires d > 0 && a == q * d + r && 0 <= r < d
    ensures a / d == q && a % d == r
  {
    var p := a / d;
    assert a == p * d + a % d;
    assert (q - p) * d == a % d - r;
    NoMultipleBetween(q - p, d);
  }

  lemma BitwiseLaws(a: Word, b: Word)
    ensures BitXor(a, a) == 0 && BitXor(BitXor(a, b), b) == a
    ensures BitOr(a, b) == BitAnd(a, b) + BitXor(a, b) && BitOr(a, b) + BitAnd(a, b) == a + b
    ensures BitAnd(a, 0xFFFF) == a && BitOr(a, 0) == a
  {
    hide Bits;
    Pow16();
    XorWithSelf(a, 16);
    XorTwice(a, b, 16);
    OrSplits(a, b, 16);
    AndWithOnes(a, 16);
    OrSplits(a, 0, 16);
    AndWithZero(a, 16);
  }

  lemma {:induction false} AndWithZero(a: nat, n: nat)
    ensures Bits(BAnd, a, 0, n) == 0
    decreases n
  {
    if n > 0 { AndWithZero(a / 2, n - 1); }
  }

  // ----- numbers -----

  /** A word stands for the number in its range that it is congruent to. */
  lemma NumberOfWord(w: Word)
    ensures -0x8000 <= Signed(w) < 0x8000 && Wrap(Signed(w)) == w
    ensures Num(w, false) == Signed(w) && 0 <= Num(w, true) < 0x10000 && Wrap(Num(w, true)) == w
  {
  }

  lemma WrapIsModular(x: int, k: int)
    ensures Wrap(x + 0x10000 * k) == Wrap(x) && (0 <= x < 0x10000 ==> Wrap(x) == x)
  {
    DivIs(x + 0x10000 * k, 0x10000, x / 0x10000 + k, x % 0x10000);
  }

  /** Division truncates, and the remainder has the sign of the dividend. */
  lemma DivisionTruncates(x: int, y: int)
    requires y != 0
    ensures x == Quotient(x, y) * y + Remainder(x, y) && Abs(Remainder(x, y)) < Abs(y)
    ensures (x >= 0 ==> Remainder(x, y) >= 0) && (x <= 0 ==> Remainder(x, y) <= 0)
    ensures Abs(x) == (if x < 0 then 0 - x else x)
  {
    var q := Abs(x) / Abs(y);
    Euclid(Abs(x), Abs(y));
    SignsOut(q, y);
    hide Abs;
    assert Quotient(x, y) == q || Quotient(x, y) == 0 - q;
    AbsIs(x);
    AbsIs(y);
  }

  lemma Euclid(a: nat, b: nat)
    requires b > 0
    ensures a == a / b * b + a % b && a % b < b
  {
  }

  lemma SignsOut(q: int, y: int)
    ensures (0 - q) * y == 0 - q * y && q * (0 - y) == 0 - q * y && (0 - q) * (0 - y) == q * y
  {
  }

  lemma AbsIs(x: int)
    ensures Abs(x) == if x < 0 then 0 - x else x
  {
  }

  /** Shifting right divides, rounding down. */
  lemma ShiftRightFloors(x: int, n: Word, q: int)
    requires q * Pow2(n) <= x < (q + 1) * Pow2(n)
    ensures Shr(x, n) == Wrap(q)
  {
    assert (q + 1) * Pow2(n) == q * Pow2(n) + Pow2(n);
    DivIs(x, Pow2(n), q, x - q * Pow2(n));
  }

  /** Shifting left doubles, once for each place. */
  lemma ShiftLeftDoubles(a: Word, n: Word)
    ensures Shl(a, 0) == a && (n > 0 ==> Shl(a, n) == Wrap(Shl(a, n - 1) + Shl(a, n - 1)))
  {
    if n > 0 {
      var x := a * Pow2(n - 1);
      assert a * Pow2(n) == x + x;
      WrapAdd(x, Wrap(x));
      WrapAdd(x, x);
    }
  }

  /** Powers of two multiply. */
  lemma {:induction false} PowersMultiply(m: nat, n: nat)
    ensures Pow2(m + n) == Pow2(m) * Pow2(n) && Pow2(1) == 2
    decreases m
  {
    if m > 0 {
      PowersMultiply(m - 1, n);
      assert m - 1 + n == m + n - 1;
      assert Pow2(m) * Pow2(n) == 2 * (Pow2(m - 1) * Pow2(n));
    }
  }

  // ----- types and memory -----

  /** One unsigned operand, or pointer, makes the operation unsigned. */
  lemma UnsignedIsContagious(l: Ty, r: Ty)
    ensures IsUnsigned(Join(l, r)) <==> IsUnsigned(l) || IsUnsigned(r)
    ensures Join(l, r) == l || Join(l, r) == r
    ensures IsUnsigned(l) <==> !l.TInt?
  {
  }

  /** A write changes the cell it names and no other. */
  lemma PutChangesOne(m: Memory, a: Word, v: Word, x: Word)
    ensures Put(m, a, v)(x) == if x == a then v else m(x)
  {
  }
}
