/** Lowering of Q/C statements to labels and jumps, and its correctness: the emitted
    code runs exactly the statement's meaning.  Expressions are sequences of plain
    instructions whose effect is a parameter; a condition is true when HL is nonzero
    after its code. */
module Stmt {
  import opened Common
  import opened Asm

  type Expr = seq<nat>

  datatype Stmt =
    | Empty
    | Do(e: Expr)
    | Seq(first: Stmt, second: Stmt)
    | If(c: Expr, yes: Stmt)
    | IfElse(c: Expr, yes: Stmt, no: Stmt)
    | While(c: Expr, body: Stmt)
    | For(init: Expr, cond: Option<Expr>, inc: Option<Expr>, body: Stmt)
    | DoWhile(body: Stmt, c: Expr)
    | Break
    | Continue

  /** An entry of the switch/loop queue. */
  datatype Loop = Loop(loop: Lbl, exit: Lbl)

  const NSWQ := 10       // entries in the switch/loop queue

  // ----- what a statement means -----

  datatype Exit = Norm | Brk | Cont

  datatype Result<S> = Timeout | Fin(exit: Exit, state: S)

  function RunPlain<S>(cpu: Cpu<S>, e: Expr, s: S): S {
    if e == [] then s else RunPlain(cpu, e[1..], cpu.act(e[0], s))
  }

  /** Run a statement with at most `k` iterations of each loop level. */
  function Eval<S>(cpu: Cpu<S>, st: Stmt, s: S, k: nat): Result<S>
    decreases k, st, 0
  {
    match st
    case Empty => Fin(Norm, s)
    case Do(e) => Fin(Norm, RunPlain(cpu, e, s))
    case Seq(a, b) =>
      var r := Eval(cpu, a, s, k);
      if r.Fin? && r.exit.Norm? then Eval(cpu, b, r.state, k) else r
    case If(c, yes) =>
      var s1 := RunPlain(cpu, c, s);
      if cpu.test(s1) then Eval(cpu, yes, s1, k) else Fin(Norm, s1)
    case IfElse(c, yes, no) =>
      var s1 := RunPlain(cpu, c, s);
      if cpu.test(s1) then Eval(cpu, yes, s1, k) else Eval(cpu, no, s1, k)
    case While(c, body) => EvalLoop(cpu, Some(c), None, body, s, k)
    case For(init, cond, inc, body) => EvalLoop(cpu, cond, inc, body, RunPlain(cpu, init, s), k)
    case DoWhile(body, c) => EvalDo(cpu, body, c, s, k)
    case Break => Fin(Brk, s)
    case Continue => Fin(Cont, s)
  }

  function EvalLoop<S>(cpu: Cpu<S>, cond: Option<Expr>, inc: Option<Expr>, body: Stmt, s: S, k: nat): Result<S>
    decreases k, body, 1
  {
    if k == 0 then Timeout
    else
      var s1 := if cond.Some? then RunPlain(cpu, cond.value, s) else s;
      if cond.Some? && !cpu.test(s1) then Fin(Norm, s1)
      else match Eval(cpu, body, s1, k)
        case Timeout => Timeout
        case Fin(Brk, s2) => Fin(Norm, s2)
        case Fin(_, s2) => EvalLoop(cpu, cond, inc, body, if inc.Some? then RunPlain(cpu, inc.value, s2) else s2, k - 1)
  }

  function EvalDo<S>(cpu: Cpu<S>, body: Stmt, c: Expr, s: S, k: nat): Result<S>
    decreases k, body, 1
  {
    if k == 0 then Timeout
    else match Eval(cpu, body, s, k)
      case Timeout => Timeout
      case Fin(Brk, s2) => Fin(Norm, s2)
      case Fin(_, s2) =>
        var s3 := RunPlain(cpu, c, s2);
        if cpu.test(s3) then EvalDo(cpu, body, c, s3, k - 1) else Fin(Norm, s3)
  }

  // ----- what is emitted -----

  /** How many labels a statement takes from getlabel(). */
  function Labels(st: Stmt): nat {
    match st
    case Seq(a, b) => Labels(a) + Labels(b)
    case If(_, yes) => 2 + Labels(yes)
    case IfElse(_, yes, no) => 2 + Labels(yes) + Labels(no)
    case While(_, body) => 2 + Labels(body)
    case For(_, cond, inc, body) => ForLabels(cond, inc) + Labels(body)
    case DoWhile(body, _) => 3 + Labels(body)
    case _ => 0
  }

  function ForLabels(cond: Option<Expr>, inc: Option<Expr>): nat {
    if cond.Some? then (if inc.Some? then 4 else 2) else (if inc.Some? then 3 else 2)
  }

  /** The queue entry of a for loop whose first label is `n + 1`. */
  function ForLoop(n: nat, cond: Option<Expr>, inc: Option<Expr>): Loop {
    Loop(n + ForLabels(cond, inc), n + 1)
  }

  function Push(q: seq<Loop>, l: Loop): seq<Loop> {
    if |q| >= NSWQ then q else q + [l]
  }

  function Pop(q: seq<Loop>): seq<Loop> {
    if q == [] then q else q[..|q| - 1]
  }

  /** The switch/loop queue after a statement. */
  function After(st: Stmt, n: nat, q: seq<Loop>): seq<Loop> {
    match st
    case Seq(a, b) => After(b, n + Labels(a), After(a, n, q))
    case If(_, yes) => After(yes, n + 2, q)
    case IfElse(_, yes, no) => After(no, n + 2 + Labels(yes), After(yes, n + 2, q))
    case While(_, body) => Pop(After(body, n + 2, Push(q, Loop(n + 1, n + 2))))
    case For(_, cond, inc, body) => Pop(After(body, n + ForLabels(cond, inc), Push(q, ForLoop(n, cond, inc))))
    case DoWhile(body, _) => Pop(After(body, n + 3, Push(q, Loop(n + 1, n + 2))))
    case _ => q
  }

  function Full(q: seq<Loop>): nat {
    if |q| >= NSWQ then 1 else 0
  }

  function Bare(q: seq<Loop>): nat {
    if q == [] then 1 else 0
  }

  /** The errors reported: queue overflow, break or continue outside a loop, and a
      queue found empty when a loop closes. */
  function Errors(st: Stmt, n: nat, q: seq<Loop>): nat {
    match st
    case Seq(a, b) => Errors(a, n, q) + Errors(b, n + Labels(a), After(a, n, q))
    case If(_, yes) => Errors(yes, n + 2, q)
    case IfElse(_, yes, no) => Errors(yes, n + 2, q) + Errors(no, n + 2 + Labels(yes), After(yes, n + 2, q))
    case While(_, body) =>
      var q' := Push(q, Loop(n + 1, n + 2));
      Full(q) + Errors(body, n + 2, q') + Bare(After(body, n + 2, q'))
    case For(_, cond, inc, body) =>
      var q' := Push(q, ForLoop(n, cond, inc));
      Full(q) + Errors(body, n + ForLabels(cond, inc), q') + Bare(After(body, n + ForLabels(cond, inc), q'))
    case DoWhile(body, _) =>
      var q' := Push(q, Loop(n + 1, n + 2));
      Full(q) + Errors(body, n + 3, q') + Bare(After(body, n + 3, q'))
    case Break => Bare(q)
    case Continue => Bare(q)
    case _ => 0
  }

  function Plains(e: Expr, rest: Code): Code {
    if e == [] then rest else Cons(Plain(e[0]), Plains(e[1..], rest))
  }

  /** The code of a statement followed by `rest`, with labels from `n + 1` up. */
  function Lower(st: Stmt, n: nat, q: seq<Loop>, rest: Code): Code
    decreases st
  {
    match st
    case Empty => rest
    case Do(e) => Plains(e, rest)
    case Seq(a, b) => Lower(a, n, q, Lower(b, n + Labels(a), After(a, n, q), rest))
    case If(c, yes) =>
      Plains(c, Cons(JumpIf(false, n + 1), Lower(yes, n + 2, q, Cons(Label(n + 1), rest))))
    case IfElse(c, yes, no) =>
      Plains(c, Cons(JumpIf(false, n + 1),
             Lower(yes, n + 2, q, Cons(Jump(n + 2), Cons(Label(n + 1),
             Lower(no, n + 2 + Labels(yes), After(yes, n + 2, q), Cons(Label(n + 2), rest)))))))
    case While(c, body) =>
      Cons(Label(n + 1), Plains(c, Cons(JumpIf(false, n + 2),
           Lower(body, n + 2, Push(q, Loop(n + 1, n + 2)), Cons(Jump(n + 1), Cons(Label(n + 2), rest))))))
    case For(init, cond, inc, body) =>
      var l := ForLoop(n, cond, inc);
      Plains(init, ForHead(cond, inc, n,
             Lower(body, n + ForLabels(cond, inc), Push(q, l), Cons(Jump(l.loop), Cons(Label(n + 1), rest)))))
    case DoWhile(body, c) =>
      Cons(Label(n + 3), Lower(body, n + 3, Push(q, Loop(n + 1, n + 2)),
           Cons(Label(n + 1), Plains(c, Cons(JumpIf(true, n + 3), Cons(Label(n + 2), rest))))))
    case Break => if q == [] then rest else Cons(Jump(q[|q| - 1].exit), rest)
    case Continue => if q == [] then rest else Cons(Jump(q[|q| - 1].loop), rest)
  }

  /** The four layouts of a for loop between its initialisation and its body. */
  function ForHead(cond: Option<Expr>, inc: Option<Expr>, n: nat, body: Code): Code {
    match (cond, inc)
    case (Some(c), None) => Cons(Label(n + 2), Plains(c, Cons(JumpIf(false, n + 1), body)))
    case (None, None) => Cons(Label(n + 2), body)
    case (Some(c), Some(i)) =>
      Cons(Label(n + 2), Plains(c, Cons(JumpIf(true, n + 3), Cons(Jump(n + 1), Cons(Label(n + 4),
           Plains(i, Cons(Jump(n + 2), Cons(Label(n + 3), body))))))))
    case (None, Some(i)) =>
      Cons(Jump(n + 2), Cons(Label(n + 3), Plains(i, Cons(Label(n + 2), body))))
  }

  // ----- errors -----

  /** Loops nest at most to the depth of the queue and every break and continue is
      inside a loop, starting `d` loops deep. */
  predicate Fits(st: Stmt, d: nat) {
    match st
    case Seq(a, b) => Fits(a, d) && Fits(b, d)
    case If(_, yes) => Fits(yes, d)
    case IfElse(_, yes, no) => Fits(yes, d) && Fits(no, d)
    case While(_, body) => d < 10 && Fits(body, d + 1)
    case For(_, _, _, body) => d < 10 && Fits(body, d + 1)
    case DoWhile(body, _) => d < 10 && Fits(body, d + 1)
    case Break => d > 0
    case Continue => d > 0
    case _ => true
  }

  /** A statement compiles without error exactly when it fits, and then leaves the
      switch/loop queue as it found it. */
  lemma {:induction false} ErrorFreeIsBalanced(st: Stmt, n: nat, q: seq<Loop>)
    requires |q| <= NSWQ
    ensures Errors(st, n, q) == 0 <==> Fits(st, |q|)
    ensures Errors(st, n, q) == 0 ==> After(st, n, q) == q
  {
    match st
    case Seq(a, b) =>
      ErrorFreeIsBalanced(a, n, q);
      if Fits(a, |q|) { ErrorFreeIsBalanced(b, n + Labels(a), q); }
    case If(_, yes) => ErrorFreeIsBalanced(yes, n + 2, q);
    case IfElse(_, yes, no) =>
      ErrorFreeIsBalanced(yes, n + 2, q);
      if Fits(yes, |q|) { ErrorFreeIsBalanced(no, n + 2 + Labels(yes), q); }
    case While(_, body) => ErrorFreeIsBalanced(body, n + 2, Push(q, Loop(n + 1, n + 2)));
    case For(_, cond, inc, body) => ErrorFreeIsBalanced(body, n + ForLabels(cond, inc), Push(q, ForLoop(n, cond, inc)));
    case DoWhile(body, _) => ErrorFreeIsBalanced(body, n + 3, Push(q, Loop(n + 1, n + 2)));
    case _ =>
  }

  // ----- the emitting parser -----

  /** The statement parser's state: the stream written so far, the label counter, the
      switch/loop queue and the errors reported.  Parsing itself is left out: the
      methods walk the statement that was parsed. */
  class Parser {
    var out: seq<Instr>
    var nextlabel: nat
    var swq: seq<Loop>
    var errors: nat

    constructor ()
      ensures out == [] && nextlabel == 0 && swq == [] && errors == 0
    {
      out, nextlabel, swq, errors := [], 0, [], 0;
    }

    method GetLabel() returns (l: Lbl)
      modifies this`nextlabel
      ensures nextlabel == old(nextlabel) + 1 == l
    {
      nextlabel := nextlabel + 1;
      l := nextlabel;
    }

    method Emit(i: Instr)
      modifies this`out
      ensures forall rest {:trigger Cons(i, rest)} :: Prepend(out, rest) == Prepend(old(out), Cons(i, rest))
    {
      ghost var o := out;
      out := out + [i];
      forall rest ensures Prepend(out, rest) == Prepend(o, Cons(i, rest)) {
        PrependSnoc(o, i, rest);
      }
    }

    /** Code of an expression. */
    method Expression(e: Expr)
      modifies this`out
      ensures forall rest {:trigger Plains(e, rest)} :: Prepend(out, rest) == Prepend(old(out), Plains(e, rest))
    {
      for k := 0 to |e|
        invariant forall rest {:trigger Plains(e[..k], rest)} ::
                    Prepend(out, rest) == Prepend(old(out), Plains(e[..k], rest))
      {
        ghost var o := out;
        Emit(Plain(e[k]));
        forall rest ensures Prepend(out, rest) == Prepend(old(out), Plains(e[..k + 1], rest)) {
          assert Prepend(out, rest) == Prepend(o, Cons(Plain(e[k]), rest));
          assert e[..k + 1] == e[..k] + [e[k]];
          PlainsSnoc(e[..k], e[k], rest);
        }
      }
      assert e[..|e|] == e;
    }

    method AddSwq(l: Loop)
      modifies this`swq, this`errors
      ensures swq == Push(old(swq), l) && errors == old(errors) + Full(old(swq))
    {
      if |swq| >= NSWQ {
        errors := errors + 1;
      } else {
        swq := swq + [l];
      }
    }

    method DelSwq()
      modifies this`swq, this`errors
      ensures swq == Pop(old(swq)) && errors == old(errors) + Bare(old(swq))
    {
      if swq != [] {
        swq := swq[..|swq| - 1];
      } else {
        errors := errors + 1;
      }
    }

    /** What has been emitted since `o`, with the label counter at `n` and the queue
        at `q` then, is the code of `st`. */
    ghost predicate Wrote(o: seq<Instr>, st: Stmt, n: nat, q: seq<Loop>)
      reads this
    {
      && nextlabel == n + Labels(st) && swq == After(st, n, q)
      && forall rest {:trigger Lower(st, n, q, rest)} :: Prepend(out, rest) == Prepend(o, Lower(st, n, q, rest))
    }

    method Statement(st: Stmt)
      modifies this
      ensures Wrote(old(out), st, old(nextlabel), old(swq))
      ensures errors == old(errors) + Errors(st, old(nextlabel), old(swq))
      decreases st, 1
    {
      hide Prepend, Plains, ForHead;
      match st {
        case Empty =>
        case Do(e) => Expression(e);
        case Seq(a, b) => Compound(a, b);
        case If(c, yes) => DoIf(c, yes);
        case IfElse(c, yes, no) => DoIfElse(c, yes, no);
        case While(c, body) => DoWhileLoop(c, body);
        case For(init, cond, inc, body) => DoFor(init, cond, inc, body);
        case DoWhile(body, c) => DoDoWhile(body, c);
        case Break =>
          if swq == [] { errors := errors + 1; } else { Emit(Jump(swq[|swq| - 1].exit)); }
        case Continue =>
          if swq == [] { errors := errors + 1; } else { Emit(Jump(swq[|swq| - 1].loop)); }
      }
    }

    /** Two statements of a compound in turn. */
    method Compound(a: Stmt, b: Stmt)
      modifies this
      ensures Wrote(old(out), Seq(a, b), old(nextlabel), old(swq))
      ensures errors == old(errors) + Errors(Seq(a, b), old(nextlabel), old(swq))
      decreases Seq(a, b), 0
    {
      hide Prepend, Plains, Lower, Labels, After, Errors;
      UnfoldSeq(a, b, nextlabel, swq);
      Statement(a);
      Statement(b);
    }

    method DoIf(c: Expr, yes: Stmt)
      modifies this
      ensures Wrote(old(out), If(c, yes), old(nextlabel), old(swq))
      ensures errors == old(errors) + Errors(If(c, yes), old(nextlabel), old(swq))
      decreases If(c, yes), 0
    {
      hide Prepend, Plains, Lower, Labels, After, Errors;
      UnfoldIf(c, yes, nextlabel, swq);
      var lab := GetLabel();
      var _ := GetLabel();
      Expression(c);
      Emit(JumpIf(false, lab));
      Statement(yes);
      Emit(Label(lab));
    }

    method DoIfElse(c: Expr, yes: Stmt, no: Stmt)
      modifies this
      ensures Wrote(old(out), IfElse(c, yes, no), old(nextlabel), old(swq))
      ensures errors == old(errors) + Errors(IfElse(c, yes, no), old(nextlabel), old(swq))
      decreases IfElse(c, yes, no), 0
    {
      hide Prepend, Plains, Lower, Labels, After, Errors;
      UnfoldIfElse(c, yes, no, nextlabel, swq);
      var lab := GetLabel();
      var _ := GetLabel();
      Expression(c);
      Emit(JumpIf(false, lab));
      Statement(yes);
      Emit(Jump(lab + 1));
      Emit(Label(lab));
      Statement(no);
      Emit(Label(lab + 1));
    }

    method DoWhileLoop(c: Expr, body: Stmt)
      modifies this
      ensures Wrote(old(out), While(c, body), old(nextlabel), old(swq))
      ensures errors == old(errors) + Errors(While(c, body), old(nextlabel), old(swq))
      decreases While(c, body), 0
    {
      hide Prepend, Plains, Lower, Labels, After, Errors;
      UnfoldWhile(c, body, nextlabel, swq);
      var loop := GetLabel();
      var exit := GetLabel();
      AddSwq(Loop(loop, exit));
      Emit(Label(loop));
      Expression(c);
      Emit(JumpIf(false, exit));
      Statement(body);
      Emit(Jump(loop));
      Emit(Label(exit));
      DelSwq();
    }

    method DoFor(init: Expr, cond: Option<Expr>, inc: Option<Expr>, body: Stmt)
      modifies this
      ensures Wrote(old(out), For(init, cond, inc, body), old(nextlabel), old(swq))
      ensures errors == old(errors) + Errors(For(init, cond, inc, body), old(nextlabel), old(swq))
      decreases For(init, cond, inc, body), 0
    {
      hide Prepend, Plains, Lower, Labels, After, Errors, ForHead;
      UnfoldFor(init, cond, inc, body, nextlabel, swq);
      ghost var n := nextlabel;
      var exit := GetLabel();
      Expression(init);
      var loop := ForTest(cond, inc, exit, n);
      AddSwq(Loop(loop, exit));
      Statement(body);
      Emit(Jump(loop));
      Emit(Label(exit));
      DelSwq();
    }

    /** The condition and the increment of a for loop, in whichever layout. */
    method ForTest(cond: Option<Expr>, inc: Option<Expr>, exit: Lbl, ghost n: nat) returns (loop: Lbl)
      requires exit == nextlabel == n + 1
      modifies this`out, this`nextlabel
      ensures nextlabel == n + ForLabels(cond, inc) == loop
      ensures forall rest {:trigger ForHead(cond, inc, n, rest)} ::
                Prepend(out, rest) == Prepend(old(out), ForHead(cond, inc, n, rest))
    {
      hide Prepend, Plains;
      var lab1: int := 0;
      if cond.Some? {
        lab1 := GetLabel();
        Emit(Label(lab1));
        Expression(cond.value);
      }
      if inc.None? {
        if lab1 != 0 {
          Emit(JumpIf(false, exit));
          loop := lab1;
        } else {
          loop := GetLabel();
          Emit(Label(loop));
        }
      } else {
        var lab2 := GetLabel();
        if lab1 != 0 {
          Emit(JumpIf(true, lab2));
          Emit(Jump(exit));
        } else {
          Emit(Jump(lab2));
        }
        loop := GetLabel();
        Emit(Label(loop));
        Expression(inc.value);
        if lab1 != 0 { Emit(Jump(lab1)); }
        Emit(Label(lab2));
      }
    }

    method DoDoWhile(body: Stmt, c: Expr)
      modifies this
      ensures Wrote(old(out), DoWhile(body, c), old(nextlabel), old(swq))
      ensures errors == old(errors) + Errors(DoWhile(body, c), old(nextlabel), old(swq))
      decreases DoWhile(body, c), 0
    {
      hide Prepend, Plains, Lower, Labels, After, Errors;
      UnfoldDo(body, c, nextlabel, swq);
      var loop := GetLabel();
      var exit := GetLabel();
      AddSwq(Loop(loop, exit));
      var top := GetLabel();
      Emit(Label(top));
      Statement(body);
      Emit(Label(loop));
      Expression(c);
      Emit(JumpIf(true, top));
      Emit(Label(exit));
      DelSwq();
    }
  }

  // One unfolding of the lowering of each compound statement.

  lemma {:induction false} UnfoldSeq(a: Stmt, b: Stmt, n: nat, q: seq<Loop>)
    ensures var st, q1, n1 := Seq(a, b), After(a, n, q), n + Labels(a);
            && Labels(st) == Labels(a) + Labels(b) && After(st, n, q) == After(b, n1, q1)
            && Errors(st, n, q) == Errors(a, n, q) + Errors(b, n1, q1)
            && forall rest :: Lower(st, n, q, rest) == Lower(a, n, q, Lower(b, n1, q1, rest))
  {
  }

  lemma {:induction false} UnfoldFor(init: Expr, cond: Option<Expr>, inc: Option<Expr>, body: Stmt, n: nat,
                                     q: seq<Loop>)
    ensures var st, l, n1 := For(init, cond, inc, body), ForLoop(n, cond, inc), n + ForLabels(cond, inc);
            var q1 := Push(q, l);
            && Labels(st) == ForLabels(cond, inc) + Labels(body) && After(st, n, q) == Pop(After(body, n1, q1))
            && Errors(st, n, q) == Full(q) + Errors(body, n1, q1) + Bare(After(body, n1, q1))
            && forall rest :: Lower(st, n, q, rest) ==
                              Plains(init, ForHead(cond, inc, n,
                                                   Lower(body, n1, q1, Cons(Jump(l.loop), Cons(Label(n + 1), rest)))))
  {
  }

  lemma {:induction false} UnfoldIf(c: Expr, yes: Stmt, n: nat, q: seq<Loop>)
    ensures var st := If(c, yes);
            && Labels(st) == 2 + Labels(yes) && After(st, n, q) == After(yes, n + 2, q)
            && Errors(st, n, q) == Errors(yes, n + 2, q)
            && forall rest ::
                 Lower(st, n, q, rest) == Plains(c,
                       Cons(JumpIf(false, n + 1), Lower(yes, n + 2, q, Cons(Label(n + 1), rest))))
  {
  }

  lemma {:induction false} UnfoldIfElse(c: Expr, yes: Stmt, no: Stmt, n: nat, q: seq<Loop>)
    ensures var st, q1, n1 := IfElse(c, yes, no), After(yes, n + 2, q), n + 2 + Labels(yes);
            && Labels(st) == 2 + Labels(yes) + Labels(no) && After(st, n, q) == After(no, n1, q1)
            && Errors(st, n, q) == Errors(yes, n + 2, q) + Errors(no, n1, q1)
            && forall rest :: Lower(st, n, q, rest) ==
                              Plains(c, Cons(JumpIf(false, n + 1),
                                             Lower(yes, n + 2, q, Cons(Jump(n + 2), Cons(Label(n + 1),
                                     Lower(no, n1, q1, Cons(Label(n + 2), rest)))))))
  {
  }

  lemma {:induction false} UnfoldWhile(c: Expr, body: Stmt, n: nat, q: seq<Loop>)
    ensures var st, q1 := While(c, body), Push(q, Loop(n + 1, n + 2));
            && Labels(st) == 2 + Labels(body) && After(st, n, q) == Pop(After(body, n + 2, q1))
            && Errors(st, n, q) == Full(q) + Errors(body, n + 2, q1) + Bare(After(body, n + 2, q1))
            && forall rest :: Lower(st, n, q, rest) ==
                              Cons(Label(n + 1), Plains(c, Cons(JumpIf(false, n + 2),
                                   Lower(body, n + 2, q1, Cons(Jump(n + 1), Cons(Label(n + 2), rest))))))
  {
  }

  lemma {:induction false} UnfoldDo(body: Stmt, c: Expr, n: nat, q: seq<Loop>)
    ensures var st, q1 := DoWhile(body, c), Push(q, Loop(n + 1, n + 2));
            && Labels(st) == 3 + Labels(body) && After(st, n, q) == Pop(After(body, n + 3, q1))
            && Errors(st, n, q) == Full(q) + Errors(body, n + 3, q1) + Bare(After(body, n + 3, q1))
            && forall rest :: Lower(st, n, q, rest) ==
                              Cons(Label(n + 3), Lower(body, n + 3, q1,
                                   Cons(Label(n + 1), Plains(c, Cons(JumpIf(true, n + 3), Cons(Label(n + 2), rest))))))
  {
  }

  lemma {:induction false} PlainsSnoc(e: Expr, x: nat, rest: Code)
    ensures Plains(e + [x], rest) == Plains(e, Cons(Plain(x), rest))
    decreases e
  {
    if e == [] {
      assert [x][1..] == [] && [] + [x] == [x];
    } else {
      assert (e + [x])[1..] == e[1..] + [x];
      PlainsSnoc(e[1..], x, rest);
    }
  }
}
