/** Expression code generation of the Q/C compiler for a machine with a primary
    register (HL), a secondary register (DE) and a stack. */
module Expr {
  import opened Common

  // ----- 16-bit arithmetic -----

  function Signed(w: Word): int {
    if w >= 0x8000 then w - 0x10000 else w
  }

  datatype BitOp = BOr | BXor | BAnd

  /** The operators on single bits. */
  function OneBit(op: BitOp, x: nat, y: nat): nat
    requires x <= 1 && y <= 1
  {
    match op
    case BOr => if x == 1 || y == 1 then 1 else 0
    case BXor => if x == y then 0 else 1
    case BAnd => if x == 1 && y == 1 then 1 else 0
  }

  /** And on the lowest `n` bits. */
  function Bits(op: BitOp, a: nat, b: nat, n: nat): (r: nat)
    ensures r < Pow2(n)
  {
    if n == 0 then 0 else OneBit(op, a % 2, b % 2) + 2 * Bits(op, a / 2, b / 2, n - 1)
  }

  function BitOr(a: Word, b: Word): Word {
    Pow16();
    Bits(BOr, a, b, 16)
  }

  function BitXor(a: Word, b: Word): Word {
    Pow16();
    Bits(BXor, a, b, 16)
  }

  function BitAnd(a: Word, b: Word): Word {
    Pow16();
    Bits(BAnd, a, b, 16)
  }

  lemma Pow16()
    ensures Pow2(16) == 0x10000
  {
    assert Pow2(8) == 0x100;
  }

  function Shl(a: Word, n: Word): Word {
    Wrap(a * Pow2(n))
  }

  /** Shift right; `x` is the value as a number, signed or not. */
  function Shr(x: int, n: Word): Word {
    Pow2Monotone(n, n);
    Wrap(x / Pow2(n))
  }

  /** Division truncating toward zero, as the library routines do it. */
  function Quotient(x: int, y: int): int
    requires y != 0
  {
    if (x >= 0) == (y > 0) then Abs(x) / Abs(y) else -(Abs(x) / Abs(y))
  }

  function Remainder(x: int, y: int): int
    requires y != 0
  {
    x - y * Quotient(x, y)
  }

  function Abs(x: int): nat {
    if x < 0 then -x else x
  }

  /** The value of a word as a signed or an unsigned number. */
  function Num(w: Word, unsigned: bool): int {
    if unsigned then w else Signed(w)
  }

  function Truth(b: bool): Word {
    if b then 1 else 0
  }

  // ----- the source language -----

  datatype Ty = TInt | TUnsigned | TPtr(base: Ty)

  /** The order of the type codes. */
  function Rank(t: Ty): nat {
    match t
    case TInt => 3
    case TUnsigned => 4
    case TPtr(_) => 6
  }

  function Join(l: Ty, r: Ty): Ty {
    if Rank(r) > Rank(l) then r else l
  }

  predicate IsUnsigned(t: Ty) {
    t.TUnsigned? || t.TPtr?
  }

  datatype UnOp = Neg | Com | Not
  datatype BinOp = Or | Xor | And | Eq | Ne | Le | Ge | Lt | Gt | Shr_ | Shl_ | Div | Mod | Mul | Add | Sub

  datatype Exp =
    | Const(v: Word)
    | Var(addr: Word, ty: Ty)
    | Deref(e: Exp)
    | Un(uop: UnOp, e: Exp)
    | Bin(op: BinOp, l: Exp, r: Exp)

  predicate Compares(op: BinOp) {
    op.Eq? || op.Ne? || op.Le? || op.Ge? || op.Lt? || op.Gt?
  }

  function Type(e: Exp): Ty {
    match e
    case Const(_) => TInt
    case Var(_, t) => t
    case Deref(p) => if Type(p).TPtr? then Type(p).base else TInt
    case Un(op, x) => if op.Not? then TInt else Type(x)
    case Bin(op, l, r) => if Compares(op) then TInt else Join(Type(l), Type(r))
  }

  /** Only pointers are dereferenced, and arithmetic is on scalars. */
  predicate WellTyped(e: Exp) {
    match e
    case Const(_) => true
    case Var(_, _) => true
    case Deref(p) => WellTyped(p) && Type(p).TPtr?
    case Un(_, x) => WellTyped(x)
    case Bin(op, l, r) => WellTyped(l) && WellTyped(r) && (Compares(op) || (!Type(l).TPtr? && !Type(r).TPtr?))
  }

  type Memory = Word -> Word

  function Put(m: Memory, a: Word, v: Word): Memory {
    (x: Word) => if x == a then v else m(x)
  }

  function UnVal(op: UnOp, a: Word): Word {
    match op
    case Neg => Wrap(0x10000 - a)
    case Com => 0xFFFF - a
    case Not => Truth(a == 0)
  }

  /** What a binary operator computes; division by zero is left to `Defined`. */
  function BinVal(op: BinOp, u: bool, a: Word, b: Word): Word {
    match op
    case Or => BitOr(a, b)
    case Xor => BitXor(a, b)
    case And => BitAnd(a, b)
    case Eq => Truth(a == b)
    case Ne => Truth(a != b)
    case Le => Truth(Num(a, u) <= Num(b, u))
    case Ge => Truth(Num(a, u) >= Num(b, u))
    case Lt => Truth(Num(a, u) < Num(b, u))
    case Gt => Truth(Num(a, u) > Num(b, u))
    case Shr_ => Shr(Num(a, u), b)
    case Shl_ => Shl(a, b)
    case Div => if b == 0 then 0 else Wrap(Quotient(Num(a, u), Num(b, u)))
    case Mod => if b == 0 then 0 else Wrap(Remainder(Num(a, u), Num(b, u)))
    case Mul => Wrap(a * b)
    case Add => Wrap(a + b)
    case Sub => Wrap(a - b)
  }

  function Val(e: Exp, mem: Memory): Word {
    match e
    case Const(v) => v
    case Var(a, _) => mem(a)
    case Deref(p) => mem(Val(p, mem))
    case Un(op, x) => UnVal(op, Val(x, mem))
    case Bin(op, l, r) => BinVal(op, IsUnsigned(Join(Type(l), Type(r))), Val(l, mem), Val(r, mem))
  }

  /** The operator is not a division by zero. */
  predicate Divides(op: BinOp, b: Word) {
    op.Div? || op.Mod? ==> b != 0
  }

  /** No division by zero happens. */
  predicate Defined(e: Exp, mem: Memory) {
    match e
    case Const(_) => true
    case Var(_, _) => true
    case Deref(p) => Defined(p, mem)
    case Un(_, x) => Defined(x, mem)
    case Bin(op, l, r) => Defined(l, mem) && Defined(r, mem) && Divides(op, Val(r, mem))
  }

  // ----- the machine -----

  datatype Lib =
    | LP | LS | LMult | LDiv | LUdiv | LO | LX | LA
    | LAsr | LAsr1 | LAsl | LAsl1 | LLsr | LLsr1
    | LNeg | LCom | LN
    | LE | LNe | LLt | LLe | LGt | LGe | LUlt | LUle | LUgt | LUge

  datatype Ins =
    | LdHL(n: Word) | LdDE(n: Word)   // load immediate; the first is known to keep A and the flags
    | Load(addr: Word)                // variable into HL
    | Indirect                        // ?g: HL := (HL)
    | IndirectS                       // ?gs: DE := (HL)
    | PushHL | PopHL | PopDE | ExDEHL
    | AddHLHL | AddHLDE | IncHL | DecHL
    | LdAH | OrL | OrH                // the pieces of a zero test
    | Store(addr: Word)               // HL into a variable
    | StoreImm(addr: Word, n: Word)   // a constant into a variable
    | StoreAt(n: Word)                // a constant into the cell HL points at
    | Call(f: Lib)

  /** A register or flag whose content is or is not known to the compiler. */
  datatype Known<T> = Unknown | Is(v: T)

  datatype State = State(hl: Word, de: Word, a: Known<Word>, zero: Known<bool>, stack: seq<Word>, mem: Memory)

  function High(w: Word): Word { w / 0x100 }

  function Low(w: Word): Word { w % 0x100 }

  /** HL as the result of a library routine; the accumulator and the flag as given. */
  function Result(s: State, v: Word, a: Known<Word>, z: Known<bool>): State {
    s.(hl := v, de := 0, a := a, zero := z)
  }

  function Compare(s: State, b: bool): State {
    Result(s, Truth(b), Unknown, Is(!b))
  }

  /** The library routines at their documented meaning: binary ones combine DE with
      HL; comparisons set HL to 0 or 1 and the zero flag to match; `?s`, `?o`, `?x`
      and `?a` leave H in the accumulator, `?neg` and `?com` leave L there. */
  function Library(f: Lib, s: State): State {
    match f
    case LP => s.(mem := Put(s.mem, s.de, s.hl), a := Is(High(s.hl)))
    case LS => var v := Wrap(s.de - s.hl); Result(s, v, Is(High(v)), Unknown)
    case LO => var v := BitOr(s.de, s.hl); Result(s, v, Is(High(v)), Unknown)
    case LX => var v := BitXor(s.de, s.hl); Result(s, v, Is(High(v)), Unknown)
    case LA => var v := BitAnd(s.de, s.hl); Result(s, v, Is(High(v)), Unknown)
    case LMult => Result(s, Wrap(s.de * s.hl), Unknown, Unknown)
    case LDiv =>
      if s.hl == 0 then Result(s, 0xFFFF, Unknown, Unknown)   // whatever dividing by zero leaves
      else s.(hl := Wrap(Quotient(Signed(s.de), Signed(s.hl))), de := Wrap(Remainder(Signed(s.de), Signed(s.hl))),
              a := Unknown, zero := Unknown)
    case LUdiv =>
      if s.hl == 0 then Result(s, 0xFFFF, Unknown, Unknown)   // whatever dividing by zero leaves
      else s.(hl := Wrap(Quotient(s.de, s.hl)), de := Wrap(Remainder(s.de, s.hl)), a := Unknown, zero := Unknown)
    case LAsr => Result(s, Shr(Signed(s.de), s.hl), Unknown, Unknown)
    case LAsr1 => Result(s, Shr(Signed(s.hl), s.de), Unknown, Unknown)
    case LLsr => Result(s, Shr(s.de, s.hl), Unknown, Unknown)
    case LLsr1 => Result(s, Shr(s.hl, s.de), Unknown, Unknown)
    case LAsl => Result(s, Shl(s.de, s.hl), Unknown, Unknown)
    case LAsl1 => Result(s, Shl(s.hl, s.de), Unknown, Unknown)
    case LNeg => var v := Wrap(0x10000 - s.hl); Result(s, v, Is(Low(v)), Unknown)
    case LCom => var v := 0xFFFF - s.hl; Result(s, v, Is(Low(v)), Unknown)
    case LN => Compare(s, s.hl == 0)
    case LE => Compare(s, s.de == s.hl)
    case LNe => Compare(s, s.de != s.hl)
    case LLt => Compare(s, Signed(s.de) < Signed(s.hl))
    case LLe => Compare(s, Signed(s.de) <= Signed(s.hl))
    case LGt => Compare(s, Signed(s.de) > Signed(s.hl))
    case LGe => Compare(s, Signed(s.de) >= Signed(s.hl))
    case LUlt => Compare(s, s.de < s.hl)
    case LUle => Compare(s, s.de <= s.hl)
    case LUgt => Compare(s, s.de > s.hl)
    case LUge => Compare(s, s.de >= s.hl)
  }

  function Exec1(i: Ins, s0: State): State {
    var s := s0.(a := Unknown, zero := Unknown);
    match i
    case LdHL(n) => s0.(hl := n)
    case LdDE(n) => s.(de := n)
    case Load(x) => s.(hl := s.mem(x))
    case Indirect => s.(hl := s.mem(s.hl))
    case IndirectS => s.(de := s.mem(s.hl))
    case PushHL => s.(stack := [s.hl] + s.stack)
    case PopHL => if s.stack == [] then s else s.(hl := s.stack[0], stack := s.stack[1..])
    case PopDE => if s.stack == [] then s else s.(de := s.stack[0], stack := s.stack[1..])
    case ExDEHL => s.(hl := s.de, de := s.hl)
    case AddHLHL => s.(hl := Wrap(s.hl + s.hl))
    case AddHLDE => s.(hl := Wrap(s.hl + s.de))
    case IncHL => s.(hl := Wrap(s.hl + 1))
    case DecHL => s.(hl := Wrap(s.hl - 1))
    case LdAH => s.(a := Is(High(s.hl)))
    case OrL => s.(zero := if s0.a.Is? then Is(s0.a.v == 0 && Low(s.hl) == 0) else Unknown)
    case OrH => s.(zero := if s0.a.Is? then Is(s0.a.v == 0 && High(s.hl) == 0) else Unknown)
    case Store(x) => s.(mem := Put(s.mem, x, s.hl))
    case StoreImm(x, n) => s.(mem := Put(s.mem, x, n))
    case StoreAt(n) => s.(mem := Put(s.mem, s.hl, n), hl := Wrap(s.hl + 1))
    case Call(f) => Library(f, s)
  }

  function Exec(c: seq<Ins>, s: State): State {
    if c == [] then s else Exec(c[1..], Exec1(c[0], s))
  }

  lemma {:induction false} ExecSnoc(c: seq<Ins>, i: Ins, s: State)
    ensures Exec(c + [i], s) == Exec1(i, Exec(c, s))
    decreases c
  {
    if c == [] {
      assert (c + [i])[1..] == [];
    } else {
      assert (c + [i])[1..] == c[1..] + [i];
      ExecSnoc(c[1..], i, Exec1(c[0], s));
    }
  }

  lemma {:induction false} BitsSwap(op: BitOp, a: nat, b: nat, n: nat)
    ensures Bits(op, a, b, n) == Bits(op, b, a, n)
    decreases n
  {
    if n > 0 { BitsSwap(op, a / 2, b / 2, n - 1); }
  }

  lemma BitsCommute(a: Word, b: Word)
    ensures BitOr(a, b) == BitOr(b, a) && BitXor(a, b) == BitXor(b, a) && BitAnd(a, b) == BitAnd(b, a)
  {
    hide Bits;
    BitsSwap(BOr, a, b, 16);
    BitsSwap(BXor, a, b, 16);
    BitsSwap(BAnd, a, b, 16);
  }
}
