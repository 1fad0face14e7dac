/** The code of `e1 && e2 && ...` and `e1 || e2 || ...`: operands tested one after the
    other, with jumps to the end past the ones that no longer matter. */
module ShortCircuit {
  import opened Common
  import opened Expr
  import opened ExprGen

  // ----- what the operators mean -----

  predicate AllTrue(es: seq<Exp>, m: Memory) {
    forall i :: 0 <= i < |es| ==> Val(es[i], m) != 0
  }

  predicate AnyTrue(es: seq<Exp>, m: Memory) {
    exists i :: 0 <= i < |es| && Val(es[i], m) != 0
  }

  /** The operands up to the first one that is zero, or not zero, do not divide by zero. */
  predicate DefinedWhile(es: seq<Exp>, m: Memory, stopAtZero: bool) {
    forall i {:trigger es[i]} ::
      0 <= i < |es| && (forall j :: 0 <= j < i ==> (Val(es[j], m) == 0) != stopAtZero) ==> Defined(es[i], m)
  }

  // ----- running code with jumps to its end -----

  /** Straight-line code with the places of the conditional jumps in it. */
  datatype Fragment = Fragment(ins: seq<Ins>, cuts: seq<nat>)

  predicate WellCut(f: Fragment) {
    forall i :: 0 <= i < |f.cuts| ==> f.cuts[i] <= |f.ins|
  }

  /** The state at the i-th jump. */
  function AtCut(f: Fragment, s: State, i: nat): State
    requires WellCut(f) && i < |f.cuts|
  {
    Exec(f.ins[..f.cuts[i]], s)
  }

  /** The first jump taken from the i-th on, when jumps are taken on `zero`. */
  function FirstTaken(f: Fragment, s: State, zero: bool, i: nat): (k: nat)
    requires WellCut(f) && i <= |f.cuts|
    ensures i <= k <= |f.cuts|
    decreases |f.cuts| - i
  {
    if i == |f.cuts| || AtCut(f, s, i).zero == Is(zero) then i else FirstTaken(f, s, zero, i + 1)
  }

  /** The code falls through to the end, or jumps there. */
  function Arrive(f: Fragment, s: State, zero: bool): State
    requires WellCut(f)
  {
    var k := FirstTaken(f, s, zero, 0);
    if k < |f.cuts| then AtCut(f, s, k) else Exec(f.ins, s)
  }

  /** `&&`: jumps on zero past the code that sets HL to 1. */
  function AndEnd(f: Fragment, set1: bool, s: State): State
    requires WellCut(f)
  {
    var k := FirstTaken(f, s, true, 0);
    var t := Arrive(f, s, true);
    if k == |f.cuts| && set1 then Exec1(LdHL(1), t) else t
  }

  /** `||`: jumps on nonzero to the code that sets HL to 1, which a last jump on zero
      goes past. */
  function OrEnd(f: Fragment, set1: bool, s: State): State
    requires WellCut(f)
  {
    var k := FirstTaken(f, s, false, 0);
    var t := Arrive(f, s, false);
    if set1 && !(k == |f.cuts| && t.zero == Is(true)) then Exec1(LdHL(1), t) else t
  }

  // ----- what holds at the operands -----

  ghost predicate DefinedTo(es: seq<Exp>, m: Memory, i: nat) {
    i < |es| && forall j :: 0 <= j <= i ==> Defined(es[j], m)
  }

  /** Operand `i` is in HL. */
  ghost predicate InHL(es: seq<Exp>, i: nat, c0: State, c: State) {
    DefinedTo(es, c0.mem, i) ==> c.hl == Val(es[i], c0.mem) && c.mem == c0.mem && c.stack == c0.stack
  }

  /** And has been tested. */
  ghost predicate Tested(es: seq<Exp>, i: nat, c0: State, c: State) {
    InHL(es, i, c0, c) && (DefinedTo(es, c0.mem, i) ==> c.zero == Is(Val(es[i], c0.mem) == 0))
  }

  /** Operand `i` is known to be 0 or 1. */
  ghost predicate IsTruth(es: seq<Exp>, i: nat, m: Memory) {
    DefinedTo(es, m, i) ==> Val(es[i], m) <= 1
  }

  ghost predicate TruthsTo(es: seq<Exp>, from: nat, to: int, m: Memory) {
    forall i: nat {:trigger IsTruth(es, i, m)} :: from <= i <= to ==> IsTruth(es, i, m)
  }

  ghost predicate CutOk(base: seq<Ins>, es: seq<Exp>, f: Fragment, i: nat, s: State)
    requires WellCut(f) && i < |f.cuts|
  {
    Tested(es, i, Exec(base, s), AtCut(f, s, i))
  }

  /** All jumps made so far come after their operands' tests. */
  ghost predicate CutsOk(base: seq<Ins>, es: seq<Exp>, f: Fragment) {
    && WellCut(f)
    && forall i: nat, s: State {:trigger AtCut(f, s, i)} :: i < |f.cuts| ==> CutOk(base, es, f, i, s)
  }

  lemma CutsKept(base: seq<Ins>, es: seq<Exp>, ins: seq<Ins>, ins': seq<Ins>, cuts: seq<nat>)
    requires CutsOk(base, es, Fragment(ins, cuts)) && ins <= ins'
    ensures CutsOk(base, es, Fragment(ins', cuts))
  {
    hide Tested, Exec;
    var f, f' := Fragment(ins, cuts), Fragment(ins', cuts);
    forall i: nat, s: State | i < |cuts| ensures CutOk(base, es, f', i, s) {
      assert ins'[..cuts[i]] == ins[..cuts[i]];
      assert AtCut(f', s, i) == AtCut(f, s, i);
      assert CutOk(base, es, f, i, s);
    }
  }

  lemma CutAdded(base: seq<Ins>, es: seq<Exp>, ins: seq<Ins>, cuts: seq<nat>)
    requires CutsOk(base, es, Fragment(ins, cuts)) && |cuts| < |es|
    requires forall s: State {:trigger Exec(ins, s)} :: Tested(es, |cuts|, Exec(base, s), Exec(ins, s))
    ensures CutsOk(base, es, Fragment(ins, cuts + [|ins|]))
  {
    hide Tested, Exec;
    var f, f' := Fragment(ins, cuts), Fragment(ins, cuts + [|ins|]);
    assert ins[..|ins|] == ins;
    forall i: nat, s: State | i < |cuts| + 1 ensures CutOk(base, es, f', i, s) {
      if i < |cuts| {
        assert AtCut(f', s, i) == AtCut(f, s, i);
        assert CutOk(base, es, f, i, s);
      } else {
        assert AtCut(f', s, i) == Exec(ins, s);
      }
    }
  }

  lemma OperandTested(es: seq<Exp>, i: nat, c0: State, c: State, t: State)
    requires InHL(es, i, c0, c) && t.zero == Is(c.hl == 0) && t.hl == c.hl && t.mem == c.mem && t.stack == c.stack
    ensures Tested(es, i, c0, t)
  {
  }

  lemma OperandNext(es: seq<Exp>, i: nat, c0: State, c: State, t: State)
    requires i + 1 < |es| && Tested(es, i, c0, c) && Ready(Loaded, es[i + 1], false, c, t)
    ensures InHL(es, i + 1, c0, t)
  {
    hide Val, Defined;
    if DefinedTo(es, c0.mem, i + 1) { assert DefinedTo(es, c0.mem, i); }
  }

  /** The compiler takes every operand for a test. */
  predicate AllTests(es: seq<Exp>, testdone: bool)
    requires |es| > 0
  {
    TestedAfter(es[0], testdone) && forall i :: 1 <= i < |es| ==> EndsInTest(es[i])
  }

  /** It takes the test before the expression for that of the first operand, which costs
      no code, and all other operands are tests. */
  predicate Fooled(es: seq<Exp>, testdone: bool)
    requires |es| > 0
  {
    Silent(es[0]) && testdone && forall i :: 1 <= i < |es| ==> EndsInTest(es[i])
  }

  /** The operands whose test is their own start here. */
  function Taken(es: seq<Exp>): nat
    requires |es| > 0
  {
    if Silent(es[0]) then 1 else 0
  }

  /** The first operand; the compiler looks whether a test was just done before it makes
      sure that the operand is loaded. */
  method FirstOperand(g: Generator, es: seq<Exp>) returns (resultset: bool)
    requires g.Valid() && |es| > 0 && WellTyped(es[0])
    modifies g
    ensures g.Valid() && old(g.code) <= g.code
    ensures forall s: State {:trigger Exec(g.code, s)} :: InHL(es, 0, Exec(old(g.code), s), Exec(g.code, s))
    ensures resultset == TestedAfter(es[0], old(g.testdone))
    ensures resultset ==>
              forall s: State {:trigger Exec(old(g.code), s)} :: TruthsTo(es, Taken(es), 0, Exec(old(g.code), s).mem)
  {
    hide Exec, Val, Defined, WellTyped, Fetched;
    ghost var base := g.code;
    g.pregflag := false;
    var op := g.Heir(es[0]);
    ghost var mid := g.code;
    resultset := g.testdone;
    g.Rvalp(op.place);
    forall s: State ensures Ready(Loaded, es[0], false, Exec(base, s), Exec(g.code, s)) {
      FetchedIsReady(op.place, es[0], false, Exec(base, s), Exec(mid, s), Exec(g.code, s));
    }
    if resultset && !Silent(es[0]) {
      forall s: State ensures TruthsTo(es, 0, 0, Exec(base, s).mem) {
        assert Exec(g.code, s).hl <= 1;
      }
    }
  }

  /** A further operand, loaded into HL. */
  method LoadNext(g: Generator, e: Exp)
    requires g.Valid() && WellTyped(e)
    modifies g
    ensures g.Valid() && old(g.code) <= g.code && g.testdone == EndsInTest(e)
    ensures forall s: State {:trigger Exec(g.code, s)} :: Ready(Loaded, e, false, Exec(old(g.code), s), Exec(g.code, s))
  {
    hide Exec, Val, Defined, WellTyped, Fetched, Ready;
    g.pregflag := false;
    g.held := None;
    ghost var base := g.code;
    var op := g.Heir(e);
    ghost var mid := g.code;
    g.Rvalp(op.place);
    forall s: State ensures Ready(Loaded, e, false, Exec(base, s), Exec(g.code, s)) {
      FetchedIsReady(op.place, e, false, Exec(base, s), Exec(mid, s), Exec(g.code, s));
    }
  }

  lemma NoCuts(base: seq<Ins>, es: seq<Exp>, ins: seq<Ins>)
    ensures CutsOk(base, es, Fragment(ins, []))
  {
  }

  lemma TruthAdded(es: seq<Exp>, from: nat, k: nat, c0: State, test: TestInfo, held: Option<Word>, c: State)
    requires k > 0 && TruthsTo(es, from, k - 1, c0.mem) && InHL(es, k, c0, c) && Truthful(test, true, held, c)
    ensures TruthsTo(es, from, k, c0.mem)
  {
  }

  /** All operands: each is loaded, tested, and jumped over if need be. */
  method Operands(g: Generator, es: seq<Exp>) returns (cuts: seq<nat>, resultset: bool)
    requires g.Valid() && |es| >= 2 && forall i :: 0 <= i < |es| ==> WellTyped(es[i])
    modifies g
    ensures g.Valid() && old(g.code) <= g.code && |cuts| == |es| - 1 && CutsOk(old(g.code), es, Fragment(g.code, cuts))
    ensures forall s: State {:trigger Exec(g.code, s)} :: InHL(es, |es| - 1, Exec(old(g.code), s), Exec(g.code, s))
    ensures resultset == AllTests(es, old(g.testdone))
    ensures resultset ==> g.testdone
    ensures resultset ==>
              forall s: State {:trigger Exec(old(g.code), s)} ::
                TruthsTo(es, Taken(es), |es| - 1, Exec(old(g.code), s).mem)
  {
    hide Exec, Val, Defined, WellTyped, Fetched, CutsOk, InHL, Tested, IsTruth, Truthful, Ready, TestedAfter,
         EndsInTest, Silent, Taken;
    ghost var base := g.code;
    resultset := FirstOperand(g, es);
    cuts := [];
    NoCuts(base, es, g.code);
    for k := 1 to |es|
      invariant g.Valid() && base <= g.code && |cuts| == k - 1 && CutsOk(base, es, Fragment(g.code, cuts))
      invariant forall s: State {:trigger Exec(g.code, s)} :: InHL(es, k - 1, Exec(base, s), Exec(g.code, s))
      invariant resultset && k > 1 ==> g.testdone
      invariant resultset ==>
                  forall s: State {:trigger Exec(base, s)} :: TruthsTo(es, Taken(es), k - 1, Exec(base, s).mem)
      invariant resultset <==> TestedAfter(es[0], old(g.testdone)) && forall i :: 1 <= i < k ==> EndsInTest(es[i])
    {
      ghost var c1 := g.code;
      g.Dotest();
      forall s: State ensures Tested(es, k - 1, Exec(base, s), Exec(g.code, s)) {
        OperandTested(es, k - 1, Exec(base, s), Exec(c1, s), Exec(g.code, s));
      }
      CutsKept(base, es, c1, g.code, cuts);
      CutAdded(base, es, g.code, cuts);
      cuts := cuts + [|g.code|];
      ghost var c2 := g.code;
      LoadNext(g, es[k]);
      CutsKept(base, es, c2, g.code, cuts);
      forall s: State ensures InHL(es, k, Exec(base, s), Exec(g.code, s)) {
        OperandNext(es, k - 1, Exec(base, s), Exec(c2, s), Exec(g.code, s));
      }
      resultset := resultset && g.testdone;
      if resultset {
        forall s: State ensures TruthsTo(es, Taken(es), k, Exec(base, s).mem) {
          TruthAdded(es, Taken(es), k, Exec(base, s), g.testflag, g.held, Exec(g.code, s));
        }
      }
    }
  }

  // ----- the results -----

  /** No operand before `k` stops the evaluation. */
  ghost predicate GoesOn(es: seq<Exp>, m: Memory, stopAtZero: bool, k: nat) {
    k <= |es| && forall j :: 0 <= j < k ==> (Val(es[j], m) == 0) != stopAtZero
  }

  lemma DefinedSoFar(es: seq<Exp>, m: Memory, stopAtZero: bool, k: nat)
    requires DefinedWhile(es, m, stopAtZero) && GoesOn(es, m, stopAtZero, k) && k < |es|
    ensures DefinedTo(es, m, k)
  {
    hide Val, Defined;
    forall j | 0 <= j <= k ensures Defined(es[j], m) {
      assert forall i :: 0 <= i < j ==> (Val(es[i], m) == 0) != stopAtZero;
    }
  }

  /** The first jump taken is that of the first operand that stops the evaluation. */
  lemma {:induction false} TakenAtStop(base: seq<Ins>, es: seq<Exp>, f: Fragment, s: State, zero: bool, i: nat)
    requires CutsOk(base, es, f) && i <= |f.cuts| <= |es| && DefinedWhile(es, Exec(base, s).mem, zero)
    requires GoesOn(es, Exec(base, s).mem, zero, i)
    ensures var k, m := FirstTaken(f, s, zero, i), Exec(base, s).mem;
            GoesOn(es, m, zero, k) && (k < |f.cuts| ==> DefinedTo(es, m, k) && (Val(es[k], m) == 0) == zero)
    decreases |f.cuts| - i
  {
    hide Exec, Val, Defined, DefinedWhile;
    if i < |f.cuts| {
      var m := Exec(base, s).mem;
      DefinedSoFar(es, m, zero, i);
      var t := AtCut(f, s, i);
      assert CutOk(base, es, f, i, s);
      assert t.zero == Is(Val(es[i], m) == 0);
      if t.zero != Is(zero) {
        assert GoesOn(es, m, zero, i + 1);
        TakenAtStop(base, es, f, s, zero, i + 1);
      }
    }
  }

  /** The value of `&&`, the zero flag to match, memory and stack as before. */
  ghost predicate Result(b: bool, c0: State, t: State) {
    t.hl == Truth(b) && t.zero == Is(!b) && t.mem == c0.mem && t.stack == c0.stack
  }

  lemma AndIsRight(base: seq<Ins>, es: seq<Exp>, f: Fragment, set1: bool, s: State)
    requires |es| >= 2 && CutsOk(base, es, f) && |f.cuts| == (if set1 then |es| else |es| - 1)
    requires Tested(es, |es| - 1, Exec(base, s), Exec(f.ins, s)) && (!set1 ==> IsTruth(es, |es| - 1, Exec(base, s).mem))
    requires DefinedWhile(es, Exec(base, s).mem, true)
    ensures Result(AllTrue(es, Exec(base, s).mem), Exec(base, s), AndEnd(f, set1, s))
  {
    hide Exec, Val, Defined, DefinedWhile, CutsOk;
    CutsWell(base, es, f);
    var c0, k, n := Exec(base, s), FirstTaken(f, s, true, 0), |es| - 1;
    TakenAtStop(base, es, f, s, true, 0);
    if k < |f.cuts| {
      CutAt(base, es, f, k, s);
    } else if k == n {
      DefinedSoFar(es, c0.mem, true, n);
      assert AllTrue(es, c0.mem) <==> Val(es[n], c0.mem) != 0;
    } else {
      assert GoesOn(es, c0.mem, true, n);
      DefinedSoFar(es, c0.mem, true, n);
    }
  }

  lemma CutAt(base: seq<Ins>, es: seq<Exp>, f: Fragment, k: nat, s: State)
    requires CutsOk(base, es, f) && k < |f.cuts|
    ensures WellCut(f) && Tested(es, k, Exec(base, s), AtCut(f, s, k))
  {
    assert CutOk(base, es, f, k, s);
  }

  /** `||`: the truth is always right; the value is 0 or 1 too unless HL is not set to 1
      at the end and the first operand, whose test was not its own, is neither. */
  lemma OrIsRight(base: seq<Ins>, es: seq<Exp>, f: Fragment, set1: bool, s: State)
    requires |es| >= 2 && CutsOk(base, es, f) && |f.cuts| == |es| - 1
    requires Tested(es, |es| - 1, Exec(base, s), Exec(f.ins, s))
    requires !set1 ==> TruthsTo(es, Taken(es), |es| - 1, Exec(base, s).mem)
    requires DefinedWhile(es, Exec(base, s).mem, false)
    ensures var c0, t := Exec(base, s), OrEnd(f, set1, s);
            && t.zero == Is(!AnyTrue(es, c0.mem)) && t.mem == c0.mem && t.stack == c0.stack
            && (t.hl != 0) == AnyTrue(es, c0.mem)
            && (t.hl == Truth(AnyTrue(es, c0.mem)) <==> set1 || !Silent(es[0]) || Val(es[0], c0.mem) <= 1)
  {
    hide Exec, Val, Defined, DefinedWhile, CutsOk;
    CutsWell(base, es, f);
    var c0, k, n := Exec(base, s), FirstTaken(f, s, false, 0), |es| - 1;
    TakenAtStop(base, es, f, s, false, 0);
    if k < |f.cuts| {
      CutAt(base, es, f, k, s);
      assert AnyTrue(es, c0.mem) by { assert Val(es[k], c0.mem) != 0; }
      if !set1 && (k > 0 || !Silent(es[0])) { assert IsTruth(es, k, c0.mem); }
      if k > 0 { assert Val(es[0], c0.mem) == 0; }
    } else {
      assert GoesOn(es, c0.mem, false, n);
      DefinedSoFar(es, c0.mem, false, n);
      assert Val(es[0], c0.mem) == 0;
      assert AnyTrue(es, c0.mem) <==> Val(es[n], c0.mem) != 0;
      if !set1 { assert IsTruth(es, n, c0.mem); }
    }
  }

  /** `e1 && e2 && ...` as a whole expression. */
  method And(g: Generator, es: seq<Exp>) returns (f: Fragment, set1: bool)
    requires g.Valid() && |es| >= 2 && forall i :: 0 <= i < |es| ==> WellTyped(es[i])
    modifies g
    ensures g.Valid() && old(g.code) <= g.code && f.ins == g.code && WellCut(f)
    ensures set1 <==> !AllTests(es, old(g.testdone))
    ensures forall s: State {:trigger AndEnd(f, set1, s)} :: DefinedWhile(es, Exec(old(g.code), s).mem, true) ==>
              Result(AllTrue(es, Exec(old(g.code), s).mem), Exec(old(g.code), s), AndEnd(f, set1, s))
  {
    hide Exec, Val, Defined, DefinedWhile, WellTyped, CutsOk, InHL, Tested, Result, AllTrue, Truthful, IsTruth;
    ghost var base, n := g.code, |es| - 1;
    var cuts, resultset := Operands(g, es);
    ghost var c1 := g.code;
    set1 := !resultset;
    if set1 {
      g.Dotest();
      CutsKept(base, es, c1, g.code, cuts);
      forall s: State ensures Tested(es, n, Exec(base, s), Exec(g.code, s)) {
        OperandTested(es, n, Exec(base, s), Exec(c1, s), Exec(g.code, s));
      }
      CutAdded(base, es, g.code, cuts);
      cuts := cuts + [|g.code|];
    } else {
      forall s: State ensures Tested(es, n, Exec(base, s), Exec(g.code, s)) {
        JustTested(es, n, Exec(base, s), g.testflag, g.held, Exec(g.code, s));
      }
    }
    f := Fragment(g.code, cuts);
    CutsWell(base, es, f);
    forall s: State | DefinedWhile(es, Exec(base, s).mem, true)
      ensures Result(AllTrue(es, Exec(base, s).mem), Exec(base, s), AndEnd(f, set1, s))
    {
      if !set1 { assert IsTruth(es, n, Exec(base, s).mem); }
      AndIsRight(base, es, f, set1, s);
    }
  }

  lemma CutsWell(base: seq<Ins>, es: seq<Exp>, f: Fragment)
    requires CutsOk(base, es, f)
    ensures WellCut(f)
  {
  }

  lemma JustTested(es: seq<Exp>, i: nat, c0: State, test: TestInfo, held: Option<Word>, c: State)
    requires InHL(es, i, c0, c) && Truthful(test, true, held, c)
    ensures Tested(es, i, c0, c)
  {
  }

  /** `e1 || e2 || ...` as a whole expression. */
  method Or(g: Generator, es: seq<Exp>) returns (f: Fragment, set1: bool)
    requires g.Valid() && |es| >= 2 && forall i :: 0 <= i < |es| ==> WellTyped(es[i])
    modifies g
    ensures g.Valid() && old(g.code) <= g.code && f.ins == g.code && WellCut(f)
    ensures set1 <==> !AllTests(es, old(g.testdone))
    ensures forall s: State {:trigger OrEnd(f, set1, s)} :: DefinedWhile(es, Exec(old(g.code), s).mem, false) ==>
              var c0, t := Exec(old(g.code), s), OrEnd(f, set1, s);
              && t.zero == Is(!AnyTrue(es, c0.mem)) && t.mem == c0.mem && t.stack == c0.stack
              && (t.hl != 0) == AnyTrue(es, c0.mem)
              && (t.hl == Truth(AnyTrue(es, c0.mem)) <==> set1 || !Silent(es[0]) || Val(es[0], c0.mem) <= 1)
  {
    hide Exec, Val, Defined, DefinedWhile, WellTyped, CutsOk, InHL, Tested, AnyTrue, Truthful, IsTruth, TruthsTo,
         OrEnd, EndsInTest;
    ghost var base, n := g.code, |es| - 1;
    var cuts, resultset := Operands(g, es);
    ghost var c1 := g.code;
    set1 := !resultset;
    if set1 {
      g.Dotest();
      CutsKept(base, es, c1, g.code, cuts);
      forall s: State ensures Tested(es, n, Exec(base, s), Exec(g.code, s)) {
        OperandTested(es, n, Exec(base, s), Exec(c1, s), Exec(g.code, s));
      }
    } else {
      forall s: State ensures Tested(es, n, Exec(base, s), Exec(g.code, s)) {
        JustTested(es, n, Exec(base, s), g.testflag, g.held, Exec(g.code, s));
      }
    }
    f := Fragment(g.code, cuts);
    CutsWell(base, es, f);
    forall s: State | DefinedWhile(es, Exec(base, s).mem, false)
      ensures var c0, t := Exec(base, s), OrEnd(f, set1, s);
              && t.zero == Is(!AnyTrue(es, c0.mem)) && t.mem == c0.mem && t.stack == c0.stack
              && (t.hl != 0) == AnyTrue(es, c0.mem)
              && (t.hl == Truth(AnyTrue(es, c0.mem)) <==> !Fooled(es, old(g.testdone)) || Val(es[0], c0.mem) <= 1)
    {
      OrIsRight(base, es, f, set1, s);
    }
  }

  /** `if (a == b) v = x || y == z;` with x at 2: the value of the right-hand side is 2. */
  method StaleTestExample(a: Word, b: Word, x: Word, y: Word, z: Word) returns (f: Fragment, set1: bool)
    ensures WellCut(f)
    ensures forall s: State {:trigger OrEnd(f, set1, s)} :: s.mem(x) == 2 ==> OrEnd(f, set1, s).hl != 1
  {
    hide Exec, OrEnd;
    var g := new Generator();
    var cond := Bin(Eq, Var(a, TInt), Var(b, TInt));
    g.Condition(cond);
    ghost var before := g.code;
    var es := [Var(x, TInt), Bin(Eq, Var(y, TInt), Var(z, TInt))];
    f, set1 := Or(g, es);
    forall s: State | s.mem(x) == 2 ensures OrEnd(f, set1, s).hl != 1 {
      StartsEmpty(s);
      var c0 := Exec(before, s);
      assert Defined(cond, Exec([], s).mem);
      assert c0.mem == s.mem;
      assert Val(es[0], c0.mem) == 2 && AnyTrue(es, c0.mem);
      assert DefinedWhile(es, c0.mem, false);
    }
  }

  lemma StartsEmpty(s: State)
    ensures Exec([], s) == s
  {
  }
}
