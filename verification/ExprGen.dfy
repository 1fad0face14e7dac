/** The code generator proper: the operator levels, operand loading and the
    special cases of the Q/C compiler, with the globals it keeps while emitting. */
module ExprGen {
  import opened Common
  import opened Expr

  /** Where an operand is: a constant, a variable not loaded yet, a value whose
      address is in HL, or a value in HL. */
  datatype Place = AtConst(v: Word) | AtVar(addr: Word) | AtAddress | Loaded

  datatype Operand = Operand(place: Place, ty: Ty)

  /** What is known about the accumulator or the zero flag for testing HL. */
  datatype TestInfo = NoInfo | RegH | RegL

  datatype Order = BothConstant | Normal | Reversed

  // ----- what the emitted code has achieved, as relations between machine states -----

  /** The stack once HL has been saved exactly when it was in use. */
  function Saved(s: State, inUse: bool): seq<Word> {
    if inUse then [s.hl] + s.stack else s.stack
  }

  predicate InUse(p: Place, before: bool) {
    before || p.AtAddress? || p.Loaded?
  }

  /** From `c0` the code reached `c1`, where `p` is a place holding `v`. */
  ghost predicate Holds(p: Place, v: Word, inUse: bool, c0: State, c1: State) {
    match p
    case AtConst(k) => c1 == c0 && k == v
    case AtVar(a) => c1 == c0 && c0.mem(a) == v
    case AtAddress => c1.mem == c0.mem && c1.stack == Saved(c0, inUse) && c1.mem(c1.hl) == v
    case Loaded => c1.mem == c0.mem && c1.stack == Saved(c0, inUse) && c1.hl == v
  }

  /** The same for an expression, unless it divides by zero; a constant or a variable
      costs no code in any case. */
  ghost predicate Ready(p: Place, e: Exp, inUse: bool, c0: State, c1: State) {
    && (p.AtConst? || p.AtVar? ==> c1 == c0)
    && (Defined(e, c0.mem) ==> Holds(p, Val(e, c0.mem), inUse, c0, c1))
  }

  /** The value of a binary operator over two expressions has been computed. */
  ghost predicate Combined(p: Place, op: BinOp, u: bool, le: Exp, re: Exp, inUse: bool, c0: State, c1: State) {
    && (p.AtConst? || p.AtVar? ==> c1 == c0)
    && (Defined(le, c0.mem) && Defined(re, c0.mem) && Divides(op, Val(re, c0.mem)) ==>
          Holds(p, BinVal(op, u, Val(le, c0.mem), Val(re, c0.mem)), inUse, c0, c1))
  }

  /** Both operands are in the registers, DE first unless reversed. */
  ghost predicate InRegisters(order: Order, a: Word, b: Word, inUse: bool, c0: State, c1: State) {
    && c1.mem == c0.mem
    && c1.stack == Saved(c0, inUse)
    && (if order.Reversed? then c1.hl == a && c1.de == b else c1.de == a && c1.hl == b)
  }

  ghost predicate Gathered(order: Order, le: Exp, re: Exp, inUse: bool, c0: State, c1: State) {
    Defined(le, c0.mem) && Defined(re, c0.mem) ==>
      InRegisters(order, Val(le, c0.mem), Val(re, c0.mem), inUse, c0, c1)
  }

  /** What loading a place into HL does to the machine. */
  ghost predicate Fetched(p: Place, inUse: bool, c0: State, c1: State) {
    match p
    case Loaded => c1 == c0
    case AtAddress => c1.mem == c0.mem && c1.stack == c0.stack && c1.de == c0.de && c1.hl == c0.mem(c0.hl)
    case AtConst(v) => c1.mem == c0.mem && c1.stack == Saved(c0, inUse) && c1.de == c0.de && c1.hl == v
    case AtVar(a) => c1.mem == c0.mem && c1.stack == Saved(c0, inUse) && c1.de == c0.de && c1.hl == c0.mem(a)
  }

  /** The flags the generator remembers are true of the machine. */
  ghost predicate Truthful(test: TestInfo, done: bool, held: Option<Word>, c: State) {
    && (done ==> c.zero == Is(c.hl == 0) && c.hl <= 1)
    && (test.RegH? ==> c.a == Is(High(c.hl)))
    && (test.RegL? ==> c.a == Is(Low(c.hl)))
    && (held.Some? ==> c.hl == c.mem(held.value))
  }

  function Negative(v: Word): Word {
    Wrap(0x10000 - v)
  }

  // ----- the arithmetic behind the special cases -----

  lemma WrapTwice(x: int, y: int)
    ensures Wrap(Wrap(x) + Wrap(y)) == Wrap(x + y)
  {
    WrapAdd(x, Wrap(y));
    WrapAdd(y, x);
  }

  lemma AddingTheNegative(a: Word, b: Word)
    ensures BinVal(Add, false, a, Negative(b)) == BinVal(Sub, false, a, b)
  {
    WrapAdd(0x10000 - b, a);
    WrapAdd(a - b, 0x10000);
  }

  lemma NegativeOfZero(v: Word)
    ensures Negative(v) == 0 <==> v == 0
  {
  }

  lemma ConstantIsReady(k: Word, p: Place, e: Exp, inUse: bool, c0: State, c1: State)
    requires p.AtConst? && Ready(p, e, inUse, c0, c1)
    ensures Ready(AtConst(k), Const(k), inUse, c0, c1)
  {
  }

  /** Adding the negated constant computes the difference. */
  lemma CombinedBySum(r: Place, lop: Place, v: Word, le: Exp, re: Exp, inUse: bool, c0: State, cm: State, c1: State,
                      c2: State)
    requires Ready(lop, le, inUse, c0, cm) && Ready(AtConst(v), re, InUse(lop, inUse), cm, c1)
    requires Combined(r, Add, false, le, Const(Negative(v)), inUse, c0, c2)
    ensures Combined(r, Sub, false, le, re, inUse, c0, c2)
  {
    hide Negative;
    if Defined(le, c0.mem) && Defined(re, c0.mem) {
      AddingTheNegative(Val(le, c0.mem), v);
    }
  }

  lemma EqualityByNot(a: Word)
    ensures a == 0xFFFF <==> Wrap(a + 1) == 0
    ensures a == 1 <==> Wrap(a - 1) == 0
  {
  }

  /** The registers have been combined, HL and DE in either order. */
  ghost predicate Applied(op: BinOp, u: bool, reversed: bool, c0: State, c1: State) {
    && c1.mem == c0.mem
    && c1.stack == c0.stack
    && (Divides(op, if reversed then c0.de else c0.hl) ==>
          c1.hl == (if reversed then BinVal(op, u, c0.hl, c0.de) else BinVal(op, u, c0.de, c0.hl)))
  }

  /** HL has been combined with a constant, HL being the left operand. */
  ghost predicate AppliedTo(op: BinOp, n: Word, c0: State, c1: State) {
    && c1.mem == c0.mem
    && c1.stack == c0.stack
    && c1.hl == BinVal(op, false, c0.hl, n)
  }

  lemma GatheredApplied(order: Order, op: BinOp, u: bool, le: Exp, re: Exp, inUse: bool, c0: State, c1: State,
                        c2: State)
    requires Gathered(order, le, re, inUse, c0, c1) && Applied(op, u, order.Reversed?, c1, c2)
    ensures Combined(Loaded, op, u, le, re, inUse, c0, c2)
  {
  }

  lemma FetchedIsReady(p: Place, e: Exp, inUse: bool, c0: State, c1: State, c2: State)
    requires Ready(p, e, inUse, c0, c1) && Fetched(p, InUse(p, inUse), c1, c2)
    ensures Ready(Loaded, e, inUse, c0, c2)
  {
    hide Val, Defined;
  }

  /** A loaded left operand compared with a constant that cost no code. */
  lemma EqualCombined(v: Word, lop: Place, u: bool, le: Exp, re: Exp, inUse: bool, c0: State, cm: State, c1: State,
                      c2: State, c3: State)
    requires Ready(lop, le, inUse, c0, cm) && Ready(AtConst(v), re, InUse(lop, inUse), cm, c1)
    requires Fetched(lop, InUse(lop, inUse), c1, c2) && AppliedTo(Eq, v, c2, c3)
    ensures Combined(Loaded, Eq, u, le, re, inUse, c0, c3)
  {
    hide Fetched;
    assert cm == c1;
    FetchedIsReady(lop, le, inUse, c0, c1, c2);
  }

  /** What a unary operator's code does to HL. */
  lemma UnaryStep(op: UnOp, c: State)
    ensures var c1 := Exec1(Call(match op case Neg => LNeg case Com => LCom case Not => LN), c);
            && c1.mem == c.mem && c1.stack == c.stack && c1.hl == UnVal(op, c.hl)
            && Truthful(match op case Not => NoInfo case _ => RegL, op.Not?, None, c1)
  {
    hide Wrap;
  }

  lemma UnaryReady(op: UnOp, e: Exp, inUse: bool, c0: State, c1: State, c2: State)
    requires Ready(Loaded, e, inUse, c0, c1)
    requires c2.mem == c1.mem && c2.stack == c1.stack && c2.hl == UnVal(op, c1.hl)
    ensures Ready(Loaded, Un(op, e), inUse, c0, c2)
  {
  }

  lemma LeafReady(e: Exp, inUse: bool, c: State)
    requires e.Const? || e.Var?
    ensures Ready(if e.Const? then AtConst(e.v) else AtVar(e.addr), e, inUse, c, c)
  {
  }

  lemma ComplementReady(v: Word, e: Exp, inUse: bool, c0: State, c1: State)
    requires Ready(AtConst(v), e, inUse, c0, c1)
    ensures Ready(AtConst(0xFFFF - v), Un(Com, e), inUse, c0, c1)
  {
  }

  lemma DerefReady(e: Exp, inUse: bool, c0: State, c1: State)
    requires Ready(Loaded, e, inUse, c0, c1)
    ensures Ready(AtAddress, Deref(e), inUse, c0, c1)
  {
  }

  lemma CombinedIsReady(p: Place, op: BinOp, u: bool, le: Exp, re: Exp, inUse: bool, c0: State, c1: State)
    requires Combined(p, op, u, le, re, inUse, c0, c1)
    requires u == IsUnsigned(Join(Type(le), Type(re))) || op.Add? || op.Sub? || op.Mul?
    ensures Ready(p, Bin(op, le, re), inUse, c0, c1)
  {
    hide Holds;
    assert op.Add? || op.Sub? || op.Mul? ==> forall a, b :: BinVal(op, u, a, b) == BinVal(op, !u, a, b);
  }

  /** Folding two constants of type int. */
  lemma FoldedIsReady(op: BinOp, a: Word, b: Word, le: Exp, re: Exp, inUse: bool, c0: State, cm: State, c1: State)
    requires Ready(AtConst(a), le, inUse, c0, cm) && Ready(AtConst(b), re, inUse, cm, c1)
    requires Type(le).TInt? && Type(re).TInt?
    ensures Ready(AtConst(BinVal(op, false, a, b)), Bin(op, le, re), inUse, c0, c1)
  {
    hide BinVal;
  }

  lemma BitStep(op: BinOp, u: bool, reversed: bool, c: State)
    requires op.Or? || op.Xor? || op.And?
    ensures var c1 := Exec1(Call(if op.Or? then LO else if op.Xor? then LX else LA), c);
            Applied(op, u, reversed, c, c1) && Truthful(RegH, false, None, c1)
  {
    hide BitOr, BitXor, BitAnd;
    BitsCommute(c.hl, c.de);
  }

  lemma DivideStep(op: BinOp, u: bool, reversed: bool, c: State)
    requires op.Div? || op.Mod?
    ensures var c1 := if reversed then Exec1(ExDEHL, c) else c;
            var c2 := Exec1(Call(if u then LUdiv else LDiv), c1);
            Applied(op, u, reversed, c, if op.Mod? then Exec1(ExDEHL, c2) else c2)
  {
    hide Quotient, Remainder, Wrap;
  }

  lemma ShiftStep(op: BinOp, u: bool, reversed: bool, c: State)
    requires op.Shl_? || op.Shr_?
    ensures Applied(op, u, reversed, c, Exec1(Call(Shifter(op, u, reversed)), c))
  {
    hide Shl, Shr;
  }

  lemma CompareResult(c: State, b: bool)
    ensures var c1 := Compare(c, b);
            c1.mem == c.mem && c1.stack == c.stack && c1.hl == Truth(b) && Truthful(NoInfo, true, None, c1)
  {
  }

  lemma CompareRoutine(op: BinOp, u: bool, reversed: bool, c: State)
    requires Compares(op)
    ensures Exec1(Call(Comparison(op, u, reversed)), c)
         == Compare(c.(a := Unknown, zero := Unknown),
                    (if reversed then BinVal(op, u, c.hl, c.de) else BinVal(op, u, c.de, c.hl)) == 1)
  {
    hide Signed, Compare;
  }

  lemma CompareStep(op: BinOp, u: bool, reversed: bool, c: State)
    requires Compares(op)
    ensures var c1 := Exec1(Call(Comparison(op, u, reversed)), c);
            Applied(op, u, reversed, c, c1) && Truthful(NoInfo, true, None, c1)
  {
    hide Exec1, Comparison, Compare;
    CompareRoutine(op, u, reversed, c);
    var v := if reversed then BinVal(op, u, c.hl, c.de) else BinVal(op, u, c.de, c.hl);
    CompareResult(c.(a := Unknown, zero := Unknown), v == 1);
  }

  lemma SumStep(reversed: bool, c: State)
    ensures Applied(Add, false, reversed, c, Exec1(AddHLDE, c))
  {
  }

  lemma ProductStep(reversed: bool, c: State)
    ensures Applied(Mul, false, reversed, c, Exec1(Call(LMult), c))
  {
    assert c.hl * c.de == c.de * c.hl;
    hide Wrap;
  }

  lemma DifferenceStep(reversed: bool, c: State)
    ensures var c1 := Exec1(Call(LS), if reversed then Exec1(ExDEHL, c) else c);
            Applied(Sub, false, reversed, c, c1) && Truthful(RegH, false, None, c1)
  {
    hide Wrap;
  }

  lemma Commutes(a: Word, b: Word)
    ensures BinVal(Add, false, a, b) == BinVal(Add, false, b, a)
    ensures BinVal(Mul, false, a, b) == BinVal(Mul, false, b, a)
  {
    assert a * b == b * a;
  }

  lemma EqualStep(v: Word, c: State)
    ensures var c1 := Exec1(Call(LN), if v == 0xFFFF then Exec1(IncHL, c) else if v == 1 then Exec1(DecHL, c) else c);
            v == 0xFFFF || v == 0 || v == 1 ==> AppliedTo(Eq, v, c, c1) && Truthful(NoInfo, true, None, c1)
    ensures var c1 := Exec1(Call(LE), Exec1(LdDE(v), c));
            AppliedTo(Eq, v, c, c1) && Truthful(NoInfo, true, None, c1)
  {
    EqualityByNot(c.hl);
    hide Wrap;
  }

  function Shifter(op: BinOp, unsigned: bool, reversed: bool): Lib {
    if op.Shl_? then (if reversed then LAsl1 else LAsl)
    else if unsigned then (if reversed then LLsr1 else LLsr)
    else (if reversed then LAsr1 else LAsr)
  }

  /** The comparison routine, mirrored when the operands are reversed. */
  function Comparison(op: BinOp, unsigned: bool, reversed: bool): Lib
    requires Compares(op)
  {
    match op
    case Eq => LE
    case Ne => LNe
    case Le => if unsigned then (if reversed then LUge else LUle) else (if reversed then LGe else LLe)
    case Ge => if unsigned then (if reversed then LUle else LUge) else (if reversed then LLe else LGe)
    case Lt => if unsigned then (if reversed then LUgt else LUlt) else (if reversed then LGt else LLt)
    case Gt => if unsigned then (if reversed then LUlt else LUgt) else (if reversed then LLt else LGt)
  }

  // ----- assignment statements -----

  datatype Target = Name(addr: Word, automatic: bool) | At(p: Exp)

  datatype Assign = Assign(target: Target, e: Exp)

  predicate Proper(a: Assign) {
    WellTyped(a.e) && (a.target.At? ==> WellTyped(a.target.p))
  }

  predicate AssignDefined(a: Assign, m: Memory) {
    Defined(a.e, m) && (a.target.At? ==> Defined(a.target.p, m))
  }

  function Effect(a: Assign, m: Memory): Memory {
    Put(m, match a.target case Name(x, _) => x case At(p) => Val(p, m), Val(a.e, m))
  }

  function Meaning(prog: seq<Assign>, m: Memory): Memory {
    if prog == [] then m
    else var init := prog[..|prog| - 1]; Effect(prog[|prog| - 1], Meaning(init, m))
  }

  /** No assignment divides by zero when its turn comes. */
  predicate AllDefined(prog: seq<Assign>, m: Memory) {
    prog == [] ||
    var init := prog[..|prog| - 1];
    AllDefined(init, m) && AssignDefined(prog[|prog| - 1], Meaning(init, m))
  }

  ghost predicate Assigned(a: Assign, c0: State, c1: State) {
    AssignDefined(a, c0.mem) ==> c1.mem == Effect(a, c0.mem) && c1.stack == c0.stack
  }

  ghost predicate RanSoFar(prog: seq<Assign>, c0: State, c1: State) {
    AllDefined(prog, c0.mem) ==> c1.mem == Meaning(prog, c0.mem) && c1.stack == c0.stack
  }

  lemma StoreStep(p: Exp, e: Exp, c0: State, c1: State, c2: State)
    requires Ready(Loaded, p, false, c0, c1) && Ready(Loaded, e, true, c1, c2)
    ensures var c3 := Exec1(Call(LP), Exec1(PopDE, c2));
            Assigned(Assign(At(p), e), c0, c3) && Truthful(RegH, false, None, c3)
  {
    hide Val, Defined;
  }

  lemma RanNothing(c: State)
    ensures RanSoFar([], c, c)
  {
  }

  lemma RanOneMore(prog: seq<Assign>, k: nat, c0: State, c1: State, c2: State)
    requires k < |prog| && RanSoFar(prog[..k], c0, c1) && Assigned(prog[k], c1, c2)
    ensures RanSoFar(prog[..k + 1], c0, c2)
  {
    hide Effect, AssignDefined;
    assert prog[..k + 1][..k] == prog[..k];
  }

  // ----- which expressions end in a test -----

  /** The expression is worked out by the compiler. */
  predicate Folds(e: Exp) {
    match e
    case Const(_) => true
    case Un(op, x) => op.Com? && Folds(x)
    case Bin(_, l, r) => Folds(l) && Folds(r)
    case _ => false
  }

  /** The value it works out; memory does not matter. */
  function FoldVal(e: Exp): Word {
    Val(e, _ => 0)
  }

  /** The expression costs no code of its own. */
  predicate Silent(e: Exp) {
    Folds(e) || e.Var?
  }

  /** The constant that leaves the other operand as it is, for which nothing is emitted. */
  predicate Neutral(op: BinOp, v: Word) {
    if op.Mul? then v == 1 else v == 0
  }

  /** The code of the expression ends with a test that leaves 0 or 1 in HL. */
  predicate EndsInTest(e: Exp) {
    match e
    case Un(op, _) => op.Not?
    case Bin(op, l, r) =>
      if Folds(l) && Folds(r) then false
      else if op.Add? || op.Sub? || op.Mul? then
        || (Folds(r) && Neutral(op, FoldVal(r)) && EndsInTest(l))
        || (Folds(l) && !op.Sub? && Neutral(op, FoldVal(l)) && EndsInTest(r))
      else Compares(op)
    case _ => false
  }

  /** The same of a sum, difference or product of placed operands. */
  predicate PassesOn(op: BinOp, l: Place, r: Place) {
    || (r.AtConst? && Neutral(op, r.v) && l.Loaded?)
    || (l.AtConst? && !op.Sub? && Neutral(op, l.v) && r.Loaded?)
  }

  /** Whether a test has been done after an expression's code. */
  predicate TestedAfter(e: Exp, before: bool) {
    if Silent(e) then before else EndsInTest(e)
  }

  /** The place of an expression's value: in the instructions when it folds, in its
      variable, or in HL at least when it ends in a test. */
  predicate PlaceFits(p: Place, e: Exp) {
    && (if Folds(e) then p == AtConst(FoldVal(e)) else !p.AtConst?)
    && (p.AtVar? <==> e.Var?)
    && (EndsInTest(e) ==> p.Loaded?)
  }

  lemma TestsAreInts(e: Exp)
    requires WellTyped(e) && (EndsInTest(e) || Folds(e))
    ensures Type(e).TInt?
  {
  }

  lemma FoldsTo(op: BinOp, l: Exp, r: Exp)
    requires Folds(l) && Folds(r) && WellTyped(l) && WellTyped(r)
    ensures FoldVal(Bin(op, l, r)) == BinVal(op, false, FoldVal(l), FoldVal(r))
  {
    hide BinVal, Folds;
    TestsAreInts(l);
    TestsAreInts(r);
  }

  /** The sum, difference or product of two placed operands. */
  lemma ArithmeticFits(op: BinOp, le: Exp, re: Exp, l: Place, r: Place, p: Place, t0: bool, t: bool)
    requires (op.Add? || op.Sub? || op.Mul?) && PlaceFits(l, le) && PlaceFits(r, re) && WellTyped(le) && WellTyped(re)
    requires if l.AtConst? && r.AtConst? then p == AtConst(BinVal(op, false, l.v, r.v)) else p.Loaded?
    requires var t1 := TestedAfter(re, TestedAfter(le, t0));
             t == if l.AtConst? && r.AtConst? then t1 else PassesOn(op, l, r) && t1
    ensures PlaceFits(p, Bin(op, le, re)) && t == TestedAfter(Bin(op, le, re), t0)
    ensures Silent(Bin(op, le, re)) <==> l.AtConst? && r.AtConst?
    ensures l.AtConst? ==> Silent(le)
    ensures r.AtConst? ==> Silent(re)
  {
    hide FoldVal, BinVal, Type, WellTyped;
    if l.AtConst? && r.AtConst? { FoldsTo(op, le, re); }
  }

  /** The same for the other operators. */
  lemma OtherwiseFits(op: BinOp, le: Exp, re: Exp, l: Place, constant: bool, r: Place, p: Place, t0: bool, t: bool)
    requires !op.Add? && !op.Sub? && !op.Mul? && PlaceFits(l, le) && WellTyped(le) && WellTyped(re)
    requires constant <==> l.AtConst? && Folds(re)
    requires constant ==> PlaceFits(r, re) && p == AtConst(BinVal(op, false, l.v, r.v)) && t == TestedAfter(le, t0)
    requires !constant ==> p.Loaded? && t == Compares(op)
    ensures PlaceFits(p, Bin(op, le, re)) && t == TestedAfter(Bin(op, le, re), t0)
    ensures Silent(Bin(op, le, re)) <==> constant
    ensures constant ==> Silent(le)
  {
    hide FoldVal, BinVal, Type, WellTyped;
    if constant { FoldsTo(op, le, re); }
  }

  // ----- what is emitted, and what is spared -----

  /** Bringing a place into HL: nothing when it is there, or was just stored from there. */
  function FetchCode(p: Place, inUse: bool, held: Option<Word>): seq<Ins> {
    match p
    case Loaded => []
    case AtAddress => [Indirect]
    case AtConst(v) => if inUse then [PushHL, LdHL(v)] else [LdHL(v)]
    case AtVar(a) => if inUse then [PushHL, Load(a)] else if held == Some(a) then [] else [Load(a)]
  }

  /** Testing HL: nothing after a test, and one byte against the accumulator when that
      holds the other. */
  function TestCode(done: bool, flag: TestInfo): seq<Ins> {
    if done then []
    else match flag
      case NoInfo => [LdAH, OrL]
      case RegH => [OrL]
      case RegL => [OrH]
  }

  /** Adding a constant: up to three steps up or down, or an addition. */
  function AddCode(n: Word): seq<Ins> {
    if n <= 3 then seq(n, _ => IncHL)
    else if n >= 0xFFFD then seq(0x10000 - n, _ => DecHL)
    else [LdDE(n), AddHLDE]
  }

  /** How many doublings make `n`, for the powers of two up to 64. */
  function Doublings(n: Word): nat {
    if n >= 64 then 6 else if n >= 32 then 5 else if n >= 16 then 4 else if n >= 8 then 3 else if n >= 4 then 2
    else if n >= 2 then 1 else 0
  }

  /** Multiplying by a constant: doublings, or the routine. */
  function MultCode(n: Word): seq<Ins> {
    if n in {1, 2, 4, 8, 16, 32, 64} then seq(Doublings(n), _ => AddHLHL) else [LdDE(n), Call(LMult)]
  }

  class Generator {
    var code: seq<Ins>
    var pregflag: bool
    var testflag: TestInfo
    var testdone: bool
    var held: Option<Word>   // the variable just stored from HL, if nothing was emitted since

    ghost predicate Valid()
      reads this
    {
      && (forall s {:trigger Exec(code, s)} :: Truthful(testflag, testdone, held, Exec(code, s)))
      && (held.Some? ==> !testdone)
    }

    constructor ()
      ensures Valid() && code == [] && !pregflag
    {
      code := [];
      pregflag := false;
      testflag := NoInfo;
      testdone := false;
      held := None;
    }

    /** Anything written forgets the flags and the pending pattern. */
    method Emit(i: Ins)
      modifies this
      ensures Valid()
      ensures testflag == NoInfo && !testdone && held == None
      ensures pregflag == old(pregflag) && code == old(code) + [i]
      ensures forall s {:trigger Exec(code, s)} :: Exec(code, s) == Exec1(i, Exec(old(code), s))
    {
      forall s ensures Exec(code + [i], s) == Exec1(i, Exec(code, s)) {
        ExecSnoc(code, i, s);
      }
      code := code + [i];
      testflag := NoInfo;
      testdone := false;
      held := None;
    }

    method Savepreg()
      requires Valid()
      modifies this
      ensures old(code) <= code
      ensures Valid() && pregflag
      ensures !old(pregflag) ==> code == old(code) && held == old(held) && testdone == old(testdone)
      ensures old(pregflag) ==> !testdone && held == None && code == old(code) + [PushHL]
      ensures forall s {:trigger Exec(code, s)} ::
                var c0, c1 := Exec(old(code), s), Exec(code, s);
                if old(pregflag) then c1 == Exec1(PushHL, c0) else c1 == c0
    {
      hide Exec;
      if pregflag {
        Emit(PushHL);
      } else {
        pregflag := true;
      }
    }

    /** Load a place into HL, saving HL first when it is in use. A variable that was
        just stored from HL is not loaded again. */
    method Rvalp(p: Place)
      requires Valid()
      modifies this
      ensures old(code) <= code
      ensures Valid()
      ensures pregflag == (old(pregflag) || !p.Loaded?)
      ensures code == old(code) + FetchCode(p, old(pregflag), old(held))
      ensures p.Loaded? ==> code == old(code) && testflag == old(testflag)
      ensures testdone == (p.Loaded? && old(testdone))
      ensures forall s {:trigger Exec(code, s)} :: Fetched(p, old(pregflag), Exec(old(code), s), Exec(code, s))
    {
      hide Exec;
      match p {
        case Loaded =>
        case AtAddress =>
          Emit(Indirect);
          pregflag := true;
        case AtConst(v) =>
          Savepreg();
          Emit(LdHL(v));
        case AtVar(a) =>
          Savepreg();
          if held != Some(a) {
            Emit(Load(a));
          }
      }
    }

    /** Load a constant, or the value HL points at, into DE. */
    method Rvals(p: Place)
      requires Valid()
      modifies this
      ensures old(code) <= code
      ensures Valid()
      ensures pregflag == (old(pregflag) && !p.AtAddress?)
      ensures forall s {:trigger Exec(code, s)} ::
                var c0, c1 := Exec(old(code), s), Exec(code, s);
                match p
                case AtConst(v) => c1 == Exec1(LdDE(v), c0)
                case AtAddress => c1 == Exec1(IndirectS, c0)
                case _ => c1 == c0
    {
      hide Exec;
      match p {
        case AtConst(v) => Emit(LdDE(v));
        case AtAddress =>
          Emit(IndirectS);
          pregflag := false;
        case _ =>
      }
    }

    method Swap()
      modifies this
      ensures old(code) <= code
      ensures Valid() && pregflag == old(pregflag) && !testdone && testflag == NoInfo
      ensures forall s {:trigger Exec(code, s)} :: Exec(code, s) == Exec1(ExDEHL, Exec(old(code), s))
    {
      Emit(ExDEHL);
    }

    /** Bring both operands into the registers. `base` is the code before the left
        operand, `mid` the code between the two. */
    method Loadops(lop: Place, rop: Place, ghost le: Exp, ghost re: Exp, ghost base: seq<Ins>, ghost mid: seq<Ins>,
                   ghost inUse: bool)
      returns (order: Order)
      requires Valid()
      requires pregflag == InUse(rop, InUse(lop, inUse))
      requires forall s {:trigger Exec(mid, s)} :: Ready(lop, le, inUse, Exec(base, s), Exec(mid, s))
      requires forall s {:trigger Exec(code, s)} :: Ready(rop, re, InUse(lop, inUse), Exec(mid, s), Exec(code, s))
      modifies this
      ensures old(code) <= code
      ensures Valid()
      ensures order.BothConstant? <==> lop.AtConst? && rop.AtConst?
      ensures order.BothConstant? ==>
                code == old(code) && pregflag == old(pregflag) && testdone == old(testdone) && testflag == old(testflag)
      ensures !order.BothConstant? ==> pregflag
      ensures !order.BothConstant? ==>
                forall s {:trigger Exec(code, s)} :: Gathered(order, le, re, inUse, Exec(base, s), Exec(code, s))
    {
      hide Exec, Val, Defined, Truthful, PassesOn, EndsInTest, Library;
      order := Normal;
      match lop {
        case AtConst(_) =>
          if rop.AtConst? {
            return BothConstant;
          }
          Rvalp(rop);
          Rvals(lop);
        case Loaded =>
          match rop {
            case Loaded => Emit(PopDE);
            case AtConst(_) =>
              Rvals(rop);
              order := Reversed;
            case AtAddress =>
              Rvalp(rop);
              Emit(PopDE);
            case AtVar(_) =>
              Swap();
              pregflag := false;
              Rvalp(rop);
          }
        case _ =>
          order := LoadUnloaded(lop, rop, le, re, base, mid, inUse);
      }
    }

    /** The same for a left operand that is an address in HL or a variable. */
    method LoadUnloaded(lop: Place, rop: Place, ghost le: Exp, ghost re: Exp, ghost base: seq<Ins>, ghost mid: seq<Ins>,
                        ghost inUse: bool)
      returns (order: Order)
      requires Valid() && (lop.AtAddress? || lop.AtVar?)
      requires pregflag == InUse(rop, InUse(lop, inUse))
      requires forall s {:trigger Exec(mid, s)} :: Ready(lop, le, inUse, Exec(base, s), Exec(mid, s))
      requires forall s {:trigger Exec(code, s)} :: Ready(rop, re, InUse(lop, inUse), Exec(mid, s), Exec(code, s))
      modifies this
      ensures old(code) <= code
      ensures Valid() && !order.BothConstant? && pregflag
      ensures forall s {:trigger Exec(code, s)} :: Gathered(order, le, re, inUse, Exec(base, s), Exec(code, s))
    {
      hide Exec, Val, Defined, Truthful, PassesOn, EndsInTest, Library;
      order := Normal;
      match lop {
        case AtAddress =>
          match rop {
            case Loaded =>
              Swap();
              pregflag := false;
              Emit(PopHL);
              Rvalp(lop);
              order := Reversed;
            case AtAddress =>
              Rvals(rop);
              Emit(PopHL);
              Rvalp(lop);
              order := Reversed;
            case _ =>
              Rvals(lop);
              Rvalp(rop);
          }
        case AtVar(_) =>
          match rop {
            case AtConst(_) =>
              Rvalp(lop);
              Rvals(rop);
              order := Reversed;
            case Loaded =>
              Swap();
              pregflag := false;
              Rvalp(lop);
              order := Reversed;
            case AtAddress =>
              Rvals(rop);
              Rvalp(lop);
              order := Reversed;
            case AtVar(_) =>
              Rvalp(lop);
              Swap();
              pregflag := false;
              Rvalp(rop);
          }
      }
    }

    /** HL plus a constant: by increments or decrements when at most three away from 0. */
    method Addconst(n: Word)
      requires Valid()
      modifies this
      ensures code == old(code) + AddCode(n)
      ensures Valid() && pregflag == old(pregflag) && testdone == (n == 0 && old(testdone))
      ensures forall s {:trigger Exec(code, s)} ::
                AppliedTo(Add, n, Exec(old(code), s), Exec(code, s))
    {
      hide Exec;
      if n <= 3 {
        Repeat(IncHL, 1, n);
      } else if n >= 0xFFFD {
        Repeat(DecHL, -1, 0x10000 - n);
        ghost var before := old(code);
        forall s ensures Wrap(Exec(before, s).hl + -1 * (0x10000 - n)) == Wrap(Exec(before, s).hl + n) {
          WrapAdd(Exec(before, s).hl + n, -0x10000);
        }
      } else {
        Emit(LdDE(n));
        Emit(AddHLDE);
      }
    }

    /** `n` increments or decrements of HL. */
    method Repeat(i: Ins, d: int, n: nat)
      requires Valid() && ((i == IncHL && d == 1) || (i == DecHL && d == -1))
      modifies this
      ensures code == old(code) + seq(n, _ => i)
      ensures Valid() && pregflag == old(pregflag) && testdone == (n == 0 && old(testdone))
      ensures forall s {:trigger Exec(code, s)} ::
                var c0, c1 := Exec(old(code), s), Exec(code, s);
                c1.mem == c0.mem && c1.stack == c0.stack && c1.hl == Wrap(c0.hl + d * n)
    {
      hide Exec;
      for k := 0 to n
        invariant Valid() && pregflag == old(pregflag) && testdone == (k == 0 && old(testdone))
        invariant code == old(code) + seq(k, _ => i)
        invariant forall s {:trigger Exec(code, s)} ::
                    var c0, c1 := Exec(old(code), s), Exec(code, s);
                    c1.mem == c0.mem && c1.stack == c0.stack && c1.hl == Wrap(c0.hl + d * k)
      {
        ghost var before := old(code);
        forall s ensures Wrap(Wrap(Exec(before, s).hl + d * k) + d) == Wrap(Exec(before, s).hl + d * (k + 1)) {
          WrapAdd(Exec(before, s).hl + d * k, d);
        }
        Emit(i);
      }
    }

    /** HL times a constant: by doublings for the powers of two up to 64. */
    method Multconst(n: Word)
      requires Valid()
      modifies this
      ensures old(code) <= code && code[|old(code)|..] == MultCode(n)
      ensures Valid() && pregflag == old(pregflag) && testdone == (n == 1 && old(testdone))
      ensures forall s {:trigger Exec(code, s)} ::
                AppliedTo(Mul, n, Exec(old(code), s), Exec(code, s))
    {
      hide Exec;
      if n in {1, 2, 4, 8, 16, 32, 64} {
        Double(n);
      } else {
        Emit(LdDE(n));
        Emit(Call(LMult));
      }
    }

    method Double(n: Word)
      requires Valid() && n in {1, 2, 4, 8, 16, 32, 64}
      modifies this
      ensures code == old(code) + seq(Doublings(n), _ => AddHLHL)
      ensures Valid() && pregflag == old(pregflag) && testdone == (n == 1 && old(testdone))
      ensures forall s {:trigger Exec(code, s)} ::
                var c0, c1 := Exec(old(code), s), Exec(code, s);
                c1.mem == c0.mem && c1.stack == c0.stack && c1.hl == Wrap(c0.hl * n)
    {
      hide Exec;
      var k := 1;
      while k < n
        invariant Valid() && pregflag == old(pregflag) && testdone == (k == 1 && old(testdone)) && old(code) <= code
        invariant k in {1, 2, 4, 8, 16, 32, 64} && k <= n && code == old(code) + seq(Doublings(k), _ => AddHLHL)
        invariant forall s {:trigger Exec(code, s)} ::
                    var c0, c1 := Exec(old(code), s), Exec(code, s);
                    c1.mem == c0.mem && c1.stack == c0.stack && c1.hl == Wrap(c0.hl * k)
      {
        ghost var before := old(code);
        forall s
          ensures var x := Exec(before, s).hl;
                  Wrap(Wrap(x * k) + Wrap(x * k)) == Wrap(x * (k + k))
        {
          WrapTwice(Exec(before, s).hl * k, Exec(before, s).hl * k);
        }
        Emit(AddHLHL);
        k := k + k;
      }
    }

    method Doadd(lop: Place, rop: Place, ghost le: Exp, ghost re: Exp, ghost base: seq<Ins>, ghost mid: seq<Ins>,
                 ghost inUse: bool)
      returns (r: Place)
      requires Valid()
      requires pregflag == InUse(rop, InUse(lop, inUse))
      requires forall s {:trigger Exec(mid, s)} :: Ready(lop, le, inUse, Exec(base, s), Exec(mid, s))
      requires forall s {:trigger Exec(code, s)} :: Ready(rop, re, InUse(lop, inUse), Exec(mid, s), Exec(code, s))
      modifies this
      ensures old(code) <= code
      ensures Valid() && pregflag == InUse(r, inUse)
      ensures if lop.AtConst? && rop.AtConst? then code == old(code) && r == AtConst(BinVal(Add, false, lop.v, rop.v))
              else r.Loaded?
      ensures testdone == (if lop.AtConst? && rop.AtConst? then old(testdone)
                           else PassesOn(Add, lop, rop) && old(testdone))
      ensures forall s {:trigger Exec(code, s)} :: Combined(r, Add, false, le, re, inUse, Exec(base, s), Exec(code, s))
    {
      hide Exec, Exec1, Val, Defined, BinVal;
      if lop.AtConst? && rop.AtConst? {
        return AtConst(BinVal(Add, false, lop.v, rop.v));
      }
      r := Loaded;
      if rop.AtConst? {
        Rvalp(lop);
        Addconst(rop.v);
      } else if lop.AtConst? {
        Rvalp(rop);
        Addconst(lop.v);
        forall x ensures BinVal(Add, false, lop.v, x) == BinVal(Add, false, x, lop.v) { Commutes(lop.v, x); }
      } else {
        var order := Loadops(lop, rop, le, re, base, mid, inUse);
        ghost var before := code;
        Emit(AddHLDE);
        forall s ensures Combined(r, Add, false, le, re, inUse, Exec(base, s), Exec(code, s)) {
          SumStep(order.Reversed?, Exec(before, s));
          GatheredApplied(order, Add, false, le, re, inUse, Exec(base, s), Exec(before, s), Exec(code, s));
        }
      }
    }

    /** A constant is subtracted by adding its negative. */
    method SubtractConstant(lop: Place, v: Word, ghost le: Exp, ghost re: Exp, ghost base: seq<Ins>,
                            ghost mid: seq<Ins>, ghost inUse: bool)
      returns (r: Place)
      requires Valid()
      requires pregflag == InUse(lop, inUse)
      requires forall s {:trigger Exec(mid, s)} :: Ready(lop, le, inUse, Exec(base, s), Exec(mid, s))
      requires forall s {:trigger Exec(code, s)} ::
                 Ready(AtConst(v), re, InUse(lop, inUse), Exec(mid, s), Exec(code, s))
      modifies this
      ensures old(code) <= code
      ensures Valid() && pregflag == InUse(r, inUse)
      ensures if lop.AtConst? then code == old(code) && r == AtConst(BinVal(Sub, false, lop.v, v)) else r.Loaded?
      ensures testdone == (if lop.AtConst? then old(testdone) else PassesOn(Sub, lop, AtConst(v)) && old(testdone))
      ensures forall s {:trigger Exec(code, s)} :: Combined(r, Sub, false, le, re, inUse, Exec(base, s), Exec(code, s))
    {
      hide Exec, Exec1, Ready, Combined, Truthful, Negative;
      ghost var before, k := code, Negative(v);
      NegativeOfZero(v);
      if lop.AtConst? { AddingTheNegative(lop.v, v); }
      forall s ensures Ready(AtConst(k), Const(k), InUse(lop, inUse), Exec(mid, s), Exec(before, s)) {
        ConstantIsReady(k, AtConst(v), re, InUse(lop, inUse), Exec(mid, s), Exec(before, s));
      }
      r := Doadd(lop, AtConst(Negative(v)), le, Const(k), base, mid, inUse);
      forall s ensures Combined(r, Sub, false, le, re, inUse, Exec(base, s), Exec(code, s)) {
        CombinedBySum(r, lop, v, le, re, inUse, Exec(base, s), Exec(mid, s), Exec(before, s), Exec(code, s));
      }
    }

    method Dosub(lop: Place, rop: Place, ghost le: Exp, ghost re: Exp, ghost base: seq<Ins>, ghost mid: seq<Ins>,
                 ghost inUse: bool)
      returns (r: Place)
      requires Valid()
      requires pregflag == InUse(rop, InUse(lop, inUse))
      requires forall s {:trigger Exec(mid, s)} :: Ready(lop, le, inUse, Exec(base, s), Exec(mid, s))
      requires forall s {:trigger Exec(code, s)} :: Ready(rop, re, InUse(lop, inUse), Exec(mid, s), Exec(code, s))
      modifies this
      ensures old(code) <= code
      ensures Valid() && pregflag == InUse(r, inUse)
      ensures if lop.AtConst? && rop.AtConst? then code == old(code) && r == AtConst(BinVal(Sub, false, lop.v, rop.v))
              else r.Loaded?
      ensures !rop.AtConst? ==> testflag == RegH
      ensures testdone == (if lop.AtConst? && rop.AtConst? then old(testdone)
                           else PassesOn(Sub, lop, rop) && old(testdone))
      ensures forall s {:trigger Exec(code, s)} :: Combined(r, Sub, false, le, re, inUse, Exec(base, s), Exec(code, s))
    {
      hide Exec, Exec1, Val, Defined, BinVal, Ready, Combined, Gathered, Applied, Truthful;
      if rop.AtConst? {
        assert InUse(rop, InUse(lop, inUse)) == InUse(lop, inUse);
        r := SubtractConstant(lop, rop.v, le, re, base, mid, inUse);
      } else {
        r := Loaded;
        var order := Loadops(lop, rop, le, re, base, mid, inUse);
        ghost var before := code;
        if order.Reversed? { Swap(); }
        Emit(Call(LS));
        testflag := RegH;
        forall s
          ensures Combined(r, Sub, false, le, re, inUse, Exec(base, s), Exec(code, s))
                  && Truthful(testflag, testdone, held, Exec(code, s))
        {
          DifferenceStep(order.Reversed?, Exec(before, s));
          GatheredApplied(order, Sub, false, le, re, inUse, Exec(base, s), Exec(before, s), Exec(code, s));
        }
      }
    }

    method Domult(lop: Place, rop: Place, ghost le: Exp, ghost re: Exp, ghost base: seq<Ins>, ghost mid: seq<Ins>,
                  ghost inUse: bool)
      returns (r: Place)
      requires Valid()
      requires pregflag == InUse(rop, InUse(lop, inUse))
      requires forall s {:trigger Exec(mid, s)} :: Ready(lop, le, inUse, Exec(base, s), Exec(mid, s))
      requires forall s {:trigger Exec(code, s)} :: Ready(rop, re, InUse(lop, inUse), Exec(mid, s), Exec(code, s))
      modifies this
      ensures old(code) <= code
      ensures Valid() && pregflag == InUse(r, inUse)
      ensures if lop.AtConst? && rop.AtConst? then code == old(code) && r == AtConst(BinVal(Mul, false, lop.v, rop.v))
              else r.Loaded?
      ensures testdone == (if lop.AtConst? && rop.AtConst? then old(testdone)
                           else PassesOn(Mul, lop, rop) && old(testdone))
      ensures forall s {:trigger Exec(code, s)} :: Combined(r, Mul, false, le, re, inUse, Exec(base, s), Exec(code, s))
    {
      hide Exec, Exec1, Val, Defined, BinVal;
      if lop.AtConst? && rop.AtConst? {
        return AtConst(BinVal(Mul, false, lop.v, rop.v));
      }
      r := Loaded;
      if rop.AtConst? {
        Rvalp(lop);
        Multconst(rop.v);
      } else if lop.AtConst? {
        Rvalp(rop);
        Multconst(lop.v);
        forall x ensures BinVal(Mul, false, lop.v, x) == BinVal(Mul, false, x, lop.v) { Commutes(lop.v, x); }
      } else {
        var order := Loadops(lop, rop, le, re, base, mid, inUse);
        ghost var before := code;
        Emit(Call(LMult));
        forall s ensures Combined(r, Mul, false, le, re, inUse, Exec(base, s), Exec(code, s)) {
          ProductStep(order.Reversed?, Exec(before, s));
          GatheredApplied(order, Mul, false, le, re, inUse, Exec(base, s), Exec(before, s), Exec(code, s));
        }
      }
    }

    /** The operator applied to the registers, whichever order they were loaded in. */
    method Operate(op: BinOp, unsigned: bool, reversed: bool)
      requires Valid() && !op.Add? && !op.Sub? && !op.Mul?
      modifies this
      ensures old(code) <= code
      ensures Valid() && pregflag == old(pregflag) && testdone == Compares(op)
      ensures testflag == if op.Or? || op.Xor? || op.And? then RegH else NoInfo
      ensures forall s {:trigger Exec(code, s)} ::
                Applied(op, unsigned, reversed, Exec(old(code), s), Exec(code, s))
    {
      hide Exec, Exec1, Applied, Truthful, Comparison;
      ghost var before := code;
      if op.Or? || op.Xor? || op.And? {
        Emit(Call(if op.Or? then LO else if op.Xor? then LX else LA));
        testflag := RegH;
        forall s
          ensures Applied(op, unsigned, reversed, Exec(before, s), Exec(code, s))
                  && Truthful(testflag, testdone, held, Exec(code, s))
        {
          BitStep(op, unsigned, reversed, Exec(before, s));
        }
      } else if op.Div? || op.Mod? {
        if reversed { Swap(); }
        Emit(Call(if unsigned then LUdiv else LDiv));
        if op.Mod? { Swap(); }
        forall s ensures Applied(op, unsigned, reversed, Exec(before, s), Exec(code, s)) {
          DivideStep(op, unsigned, reversed, Exec(before, s));
        }
      } else if op.Shr_? || op.Shl_? {
        Emit(Call(Shifter(op, unsigned, reversed)));
        forall s ensures Applied(op, unsigned, reversed, Exec(before, s), Exec(code, s)) {
          ShiftStep(op, unsigned, reversed, Exec(before, s));
        }
      } else {
        Emit(Call(Comparison(op, unsigned, reversed)));
        testdone := true;
        forall s
          ensures Applied(op, unsigned, reversed, Exec(before, s), Exec(code, s))
                  && Truthful(testflag, testdone, held, Exec(code, s))
        {
          CompareStep(op, unsigned, reversed, Exec(before, s));
        }
      }
    }

    /** Equality with a constant: -1, 0 and 1 by a logical not. */
    method EqualConstant(v: Word)
      requires Valid()
      modifies this
      ensures old(code) <= code
      ensures Valid() && pregflag == old(pregflag) && testdone
      ensures forall s {:trigger Exec(code, s)} ::
                AppliedTo(Eq, v, Exec(old(code), s), Exec(code, s))
    {
      hide Exec, Exec1, AppliedTo, Truthful;
      ghost var before := code;
      if v == 0xFFFF || v == 0 || v == 1 {
        if v == 0xFFFF { Emit(IncHL); }
        if v == 1 { Emit(DecHL); }
        Emit(Call(LN));
      } else {
        Emit(LdDE(v));
        Emit(Call(LE));
      }
      testdone := true;
      forall s
        ensures AppliedTo(Eq, v, Exec(before, s), Exec(code, s)) && Truthful(testflag, testdone, held, Exec(code, s))
      {
        EqualStep(v, Exec(before, s));
      }
    }

    /** The right operand and the operator, after the left operand. */
    method Binop(lop: Operand, op: BinOp, re: Exp, ghost le: Exp, ghost base: seq<Ins>, ghost inUse: bool)
      returns (res: Operand, rop: Operand, constant: bool)
      requires Valid() && WellTyped(re) && !op.Add? && !op.Sub? && !op.Mul?
      requires lop.ty == Type(le)
      requires pregflag == InUse(lop.place, inUse)
      requires forall s {:trigger Exec(code, s)} :: Ready(lop.place, le, inUse, Exec(base, s), Exec(code, s))
      modifies this
      ensures old(code) <= code
      ensures Valid()
      ensures constant <==> lop.place.AtConst? && Folds(re)
      ensures constant ==>
                && res == lop && lop.place.AtConst? && rop.place.AtConst? && rop.ty == Type(re) && rop.ty.TInt?
                && pregflag == inUse && PlaceFits(rop.place, re) && testdone == old(testdone) && code == old(code)
                && forall s {:trigger Exec(code, s)} :: Ready(rop.place, re, inUse, Exec(old(code), s), Exec(code, s))
      ensures !constant ==>
                && res.place.Loaded? && pregflag && testdone == Compares(op)
                && (!Compares(op) ==> res.ty == Join(Type(le), Type(re)))
                && forall s {:trigger Exec(code, s)} ::
                  Combined(Loaded, op, IsUnsigned(Join(Type(le), Type(re))), le, re, inUse, Exec(base, s),
                           Exec(code, s))
      decreases re, 3
    {
      hide Exec, Exec1, Val, Defined, BinVal, Ready, Combined, Gathered, Applied, AppliedTo, Truthful, Fetched;
      ghost var mid := code;
      rop := Heir(re);
      ghost var after := code;
      var u := IsUnsigned(Join(lop.ty, rop.ty));
      if op.Eq? && !lop.place.AtConst? && rop.place.AtConst? {
        Rvalp(lop.place);
        ghost var loaded := code;
        EqualConstant(rop.place.v);
        forall s ensures Combined(Loaded, op, u, le, re, inUse, Exec(base, s), Exec(code, s)) {
          EqualCombined(rop.place.v, lop.place, u, le, re, inUse, Exec(base, s), Exec(mid, s), Exec(after, s),
                        Exec(loaded, s), Exec(code, s));
        }
        return Operand(Loaded, lop.ty), rop, false;
      }
      var order := Loadops(lop.place, rop.place, le, re, base, mid, inUse);
      if order.BothConstant? {
        return lop, rop, true;
      }
      ghost var gathered := code;
      Operate(op, u, order.Reversed?);
      forall s ensures Combined(Loaded, op, u, le, re, inUse, Exec(base, s), Exec(code, s)) {
        GatheredApplied(order, op, u, le, re, inUse, Exec(base, s), Exec(gathered, s), Exec(code, s));
      }
      return Operand(Loaded, Join(lop.ty, rop.ty)), rop, false;
    }

    /** Load an operand into HL and apply a unary operator to it. */
    method Unary(p: Place, op: UnOp, ghost e: Exp, ghost base: seq<Ins>, ghost inUse: bool)
      requires Valid() && pregflag == InUse(p, inUse)
      requires forall s {:trigger Exec(code, s)} :: Ready(p, e, inUse, Exec(base, s), Exec(code, s))
      modifies this
      ensures old(code) <= code
      ensures Valid() && pregflag && testdone == op.Not? && testflag == if op.Not? then NoInfo else RegL
      ensures forall s {:trigger Exec(code, s)} :: Ready(Loaded, Un(op, e), inUse, Exec(base, s), Exec(code, s))
    {
      hide Exec, Exec1, Ready, Fetched, Truthful, UnVal;
      ghost var before := code;
      Rvalp(p);
      ghost var loaded := code;
      Emit(Call(match op case Neg => LNeg case Com => LCom case Not => LN));
      if op.Not? { testdone := true; } else { testflag := RegL; }
      forall s
        ensures Ready(Loaded, Un(op, e), inUse, Exec(base, s), Exec(code, s))
                && Truthful(testflag, testdone, held, Exec(code, s))
      {
        FetchedIsReady(p, e, inUse, Exec(base, s), Exec(before, s), Exec(loaded, s));
        UnaryStep(op, Exec(loaded, s));
        UnaryReady(op, e, inUse, Exec(base, s), Exec(loaded, s), Exec(code, s));
      }
    }

    /** The operator levels: code for an expression, leaving its value where the
        returned operand says. HL is saved exactly when it was in use. */
    method Heir(e: Exp) returns (r: Operand)
      requires Valid() && WellTyped(e)
      modifies this
      ensures old(code) <= code
      ensures Valid() && r.ty == Type(e)
      ensures r.place.AtConst? ==> r.ty.TInt?
      ensures pregflag == InUse(r.place, old(pregflag))
      ensures PlaceFits(r.place, e) && testdone == TestedAfter(e, old(testdone))
      ensures Silent(e) ==> code == old(code)
      ensures forall s {:trigger Exec(code, s)} :: Ready(r.place, e, old(pregflag), Exec(old(code), s), Exec(code, s))
      decreases e, 2
    {
      hide Exec, Exec1, BinVal, Combined, Truthful, Fetched, Ready;
      ghost var base, inUse := code, pregflag;
      match e {
        case Const(v) =>
          forall s
            ensures Ready(AtConst(v), e, inUse, Exec(base, s), Exec(code, s))
          {
            LeafReady(e, inUse, Exec(base, s));
          }
          return Operand(AtConst(v), TInt);
        case Var(a, t) =>
          forall s
            ensures Ready(AtVar(a), e, inUse, Exec(base, s), Exec(code, s))
          {
            LeafReady(e, inUse, Exec(base, s));
          }
          return Operand(AtVar(a), t);
        case Deref(p) =>
          var op := Heir(p);
          ghost var before := code;
          Rvalp(op.place);
          forall s ensures Ready(AtAddress, e, inUse, Exec(base, s), Exec(code, s)) {
            FetchedIsReady(op.place, p, inUse, Exec(base, s), Exec(before, s), Exec(code, s));
            DerefReady(p, inUse, Exec(base, s), Exec(code, s));
          }
          return Operand(AtAddress, op.ty.base);
        case Un(uop, x) =>
          var op := Heir(x);
          if uop.Com? && op.place.AtConst? {
            forall s ensures Ready(AtConst(0xFFFF - op.place.v), e, inUse, Exec(base, s), Exec(code, s)) {
              ComplementReady(op.place.v, x, inUse, Exec(base, s), Exec(code, s));
            }
            return Operand(AtConst(0xFFFF - op.place.v), op.ty);
          }
          Unary(op.place, uop, x, base, inUse);
          return Operand(Loaded, if uop.Not? then TInt else op.ty);
        case Bin(op, le, re) =>
          r := Binary(op, le, re);
      }
    }

    method Binary(op: BinOp, le: Exp, re: Exp) returns (r: Operand)
      requires Valid() && WellTyped(Bin(op, le, re))
      modifies this
      ensures old(code) <= code
      ensures Valid() && r.ty == Type(Bin(op, le, re))
      ensures r.place.AtConst? ==> r.ty.TInt?
      ensures PlaceFits(r.place, Bin(op, le, re)) && testdone == TestedAfter(Bin(op, le, re), old(testdone))
      ensures Silent(Bin(op, le, re)) ==> code == old(code)
      ensures pregflag == InUse(r.place, old(pregflag))
      ensures forall s {:trigger Exec(code, s)} ::
                Ready(r.place, Bin(op, le, re), old(pregflag), Exec(old(code), s), Exec(code, s))
      decreases Bin(op, le, re), 1
    {
      hide Exec, Exec1, BinVal, Combined, Truthful, Fetched, Ready;
      if op.Add? || op.Sub? || op.Mul? {
        r := Arithmetic(op, le, re);
      } else {
        r := Otherwise(op, le, re);
      }
    }

    method Arithmetic(op: BinOp, le: Exp, re: Exp) returns (r: Operand)
      requires Valid() && (op.Add? || op.Sub? || op.Mul?) && WellTyped(Bin(op, le, re))
      modifies this
      ensures old(code) <= code
      ensures Valid() && r.ty == Type(Bin(op, le, re))
      ensures r.place.AtConst? ==> r.ty.TInt?
      ensures PlaceFits(r.place, Bin(op, le, re)) && testdone == TestedAfter(Bin(op, le, re), old(testdone))
      ensures Silent(Bin(op, le, re)) ==> code == old(code)
      ensures pregflag == InUse(r.place, old(pregflag))
      ensures forall s {:trigger Exec(code, s)} ::
                Ready(r.place, Bin(op, le, re), old(pregflag), Exec(old(code), s), Exec(code, s))
      decreases Bin(op, le, re), 0
    {
      hide Exec, Exec1, BinVal, Combined, Truthful, Fetched, Ready, PlaceFits, TestedAfter, Silent, EndsInTest,
           PassesOn;
      ghost var base, inUse := code, pregflag;
      var lop := Heir(le);
      ghost var mid := code;
      var rop := Heir(re);
      var p;
      if op.Add? {
        p := Doadd(lop.place, rop.place, le, re, base, mid, inUse);
      } else if op.Sub? {
        p := Dosub(lop.place, rop.place, le, re, base, mid, inUse);
      } else {
        p := Domult(lop.place, rop.place, le, re, base, mid, inUse);
      }
      forall s ensures Ready(p, Bin(op, le, re), inUse, Exec(base, s), Exec(code, s)) {
        CombinedIsReady(p, op, false, le, re, inUse, Exec(base, s), Exec(code, s));
      }
      ArithmeticFits(op, le, re, lop.place, rop.place, p, old(testdone), testdone);
      return Operand(p, Join(lop.ty, rop.ty));
    }

    method Otherwise(op: BinOp, le: Exp, re: Exp) returns (r: Operand)
      requires Valid() && !op.Add? && !op.Sub? && !op.Mul? && WellTyped(Bin(op, le, re))
      modifies this
      ensures old(code) <= code
      ensures Valid() && r.ty == Type(Bin(op, le, re))
      ensures r.place.AtConst? ==> r.ty.TInt?
      ensures PlaceFits(r.place, Bin(op, le, re)) && testdone == TestedAfter(Bin(op, le, re), old(testdone))
      ensures Silent(Bin(op, le, re)) ==> code == old(code)
      ensures pregflag == InUse(r.place, old(pregflag))
      ensures forall s {:trigger Exec(code, s)} ::
                Ready(r.place, Bin(op, le, re), old(pregflag), Exec(old(code), s), Exec(code, s))
      decreases Bin(op, le, re), 0
    {
      hide Exec, Exec1, BinVal, Combined, Truthful, Fetched, Ready, PlaceFits, TestedAfter, Silent, EndsInTest,
           PassesOn;
      ghost var base, inUse := code, pregflag;
      var lop := Heir(le);
      ghost var mid := code;
      var res, rop, constant := Binop(lop, op, re, le, base, inUse);
      if constant {
        ghost var a, b := lop.place.v, rop.place.v;
        forall s ensures Ready(AtConst(BinVal(op, false, a, b)), Bin(op, le, re), inUse, Exec(base, s), Exec(code, s)) {
          FoldedIsReady(op, a, b, le, re, inUse, Exec(base, s), Exec(mid, s), Exec(code, s));
        }
        r := Operand(AtConst(BinVal(op, false, lop.place.v, rop.place.v)), TInt);
        OtherwiseFits(op, le, re, lop.place, constant, rop.place, r.place, old(testdone), testdone);
        return;
      }
      forall s ensures Ready(Loaded, Bin(op, le, re), inUse, Exec(base, s), Exec(code, s)) {
        CombinedIsReady(Loaded, op, IsUnsigned(Join(Type(le), Type(re))), le, re, inUse, Exec(base, s), Exec(code, s));
      }
      OtherwiseFits(op, le, re, lop.place, constant, rop.place, Loaded, old(testdone), testdone);
      return Operand(Loaded, if Compares(op) then TInt else res.ty);
    }

    /** A whole expression: its value ends in HL and the stack is as before. */
    method Expression(e: Exp)
      requires Valid() && WellTyped(e)
      modifies this
      ensures old(code) <= code
      ensures Valid() && pregflag && testdone == EndsInTest(e)
      ensures forall s {:trigger Exec(code, s)} ::
                var c0, c1 := Exec(old(code), s), Exec(code, s);
                Defined(e, c0.mem) ==> c1.hl == Val(e, c0.mem) && c1.mem == c0.mem && c1.stack == c0.stack
    {
      hide Exec, Val, Defined, Fetched, Truthful;
      pregflag := false;
      var op := Heir(e);
      ghost var before := code;
      Rvalp(op.place);
      forall s ensures Ready(Loaded, e, false, Exec(old(code), s), Exec(code, s)) {
        FetchedIsReady(op.place, e, false, Exec(old(code), s), Exec(before, s), Exec(code, s));
      }
    }

    /** The test that precedes a conditional jump, as short as what is known allows. */
    method Dotest()
      requires Valid()
      modifies this
      ensures code == old(code) + TestCode(old(testdone), old(testflag))
      ensures Valid() && pregflag == old(pregflag) && testdone == old(testdone)
      ensures forall s {:trigger Exec(code, s)} ::
                var c0, c1 := Exec(old(code), s), Exec(code, s);
                c1.zero == Is(c0.hl == 0) && c1.hl == c0.hl && c1.mem == c0.mem && c1.stack == c0.stack
    {
      hide Exec;
      if !testdone {
        match testflag {
          case RegL => Emit(OrH);
          case RegH => Emit(OrL);
          case NoInfo =>
            Emit(LdAH);
            Emit(OrL);
        }
      }
    }

    /** A condition: the zero flag says whether its value is zero. */
    method Condition(e: Exp)
      requires Valid() && WellTyped(e)
      modifies this
      ensures old(code) <= code
      ensures Valid() && testdone == EndsInTest(e)
      ensures forall s {:trigger Exec(code, s)} ::
                var c0, c1 := Exec(old(code), s), Exec(code, s);
                Defined(e, c0.mem) ==> c1.zero == Is(Val(e, c0.mem) == 0) && c1.mem == c0.mem && c1.stack == c0.stack
    {
      hide Exec, Val, Defined, Truthful;
      Expression(e);
      Dotest();
    }

    /** Assignment to a variable; a constant goes straight into an automatic one. */
    method AssignVar(a: Word, automatic: bool, e: Exp)
      requires Valid() && WellTyped(e)
      modifies this
      ensures old(code) <= code
      ensures Valid() && held == if Folds(e) && automatic then None else Some(a)
      ensures Folds(e) && automatic ==> code == old(code) + [StoreImm(a, FoldVal(e))]
      ensures forall s {:trigger Exec(code, s)} ::
                Assigned(Assign(Name(a, automatic), e), Exec(old(code), s), Exec(code, s))
    {
      hide Exec, Val, Defined;
      pregflag := false;
      var rop := Heir(e);
      if rop.place.AtConst? && automatic {
        Emit(StoreImm(a, rop.place.v));
      } else {
        Rvalp(rop.place);
        Emit(Store(a));
        held := Some(a);
      }
    }

    /** Assignment through a pointer: the address waits in HL or on the stack. */
    method AssignDeref(p: Exp, e: Exp)
      requires Valid() && WellTyped(p) && WellTyped(e)
      modifies this
      ensures old(code) <= code
      ensures Valid()
      ensures forall s {:trigger Exec(code, s)} :: Assigned(Assign(At(p), e), Exec(old(code), s), Exec(code, s))
    {
      hide Exec, Val, Defined, Truthful;
      ghost var base := code;
      Expression(p);
      ghost var mid := code;
      var rop := Heir(e);
      ghost var after := code;
      if rop.place.AtConst? {
        Emit(StoreAt(rop.place.v));
        pregflag := false;
      } else {
        Rvalp(rop.place);
        ghost var loaded := code;
        Emit(PopDE);
        Emit(Call(LP));
        testflag := RegH;
        forall s
          ensures Assigned(Assign(At(p), e), Exec(base, s), Exec(code, s))
                  && Truthful(testflag, testdone, held, Exec(code, s))
        {
          FetchedIsReady(rop.place, e, true, Exec(mid, s), Exec(after, s), Exec(loaded, s));
          StoreStep(p, e, Exec(base, s), Exec(mid, s), Exec(loaded, s));
        }
      }
    }

    /** A sequence of assignments runs as the source says, memory and stack both. */
    method Assignments(prog: seq<Assign>)
      requires Valid() && forall i :: 0 <= i < |prog| ==> Proper(prog[i])
      modifies this
      ensures old(code) <= code
      ensures Valid()
      ensures forall s {:trigger Exec(code, s)} ::
                var c0, c1 := Exec(old(code), s), Exec(code, s);
                AllDefined(prog, c0.mem) ==> c1.mem == Meaning(prog, c0.mem) && c1.stack == c0.stack
    {
      hide Exec, Truthful, WellTyped, Assigned, Meaning, AllDefined;
      assert prog[..0] == [];
      forall c ensures RanSoFar([], c, c) { RanNothing(c); }
      for k := 0 to |prog|
        invariant Valid() && old(code) <= code
        invariant forall s {:trigger Exec(code, s)} :: RanSoFar(prog[..k], Exec(old(code), s), Exec(code, s))
      {
        ghost var before := code;
        assert Proper(prog[k]);
        match prog[k].target {
          case Name(a, automatic) => AssignVar(a, automatic, prog[k].e);
          case At(p) => AssignDeref(p, prog[k].e);
        }
        forall s ensures RanSoFar(prog[..k + 1], Exec(old(code), s), Exec(code, s)) {
          RanOneMore(prog, k, Exec(old(code), s), Exec(before, s), Exec(code, s));
        }
      }
      assert prog[..|prog|] == prog;
    }
  }
}
