/** Labels of lowered statements: every label is defined once, in the range the
    statement took from getlabel(). */
module StmtLabels {
  import opened Common
  import opened Asm
  import opened Stmt

  /** The labels of `c` are those of `rest` and some in (lo, hi]. */
  ghost predicate Adds(c: Code, rest: Code, lo: int, hi: int) {
    forall l: Lbl :: l in LabelsOf(c) ==> l in LabelsOf(rest) || lo < l <= hi
  }

  /** No label of `c` is in (lo, hi]. */
  ghost predicate Clear(c: Code, lo: int, hi: int) {
    forall l: Lbl :: l in LabelsOf(c) ==> !(lo < l <= hi)
  }

  lemma {:induction false} PlainsLabels(e: Expr, rest: Code)
    ensures LabelsOf(Plains(e, rest)) == LabelsOf(rest) && Unique(Plains(e, rest)) == Unique(rest)
    decreases e
  {
    if e != [] { PlainsLabels(e[1..], rest); }
  }

  lemma {:induction false} ForHeadLabels(cond: Option<Expr>, inc: Option<Expr>, n: nat, b: Code)
    ensures Adds(ForHead(cond, inc, n, b), b, n + 1, n + ForLabels(cond, inc))
    ensures Unique(b) && Clear(b, n + 1, n + ForLabels(cond, inc)) ==> Unique(ForHead(cond, inc, n, b))
  {
    match (cond, inc)
    case (Some(c), None) => PlainsLabels(c, Cons(JumpIf(false, n + 1), b));
    case (None, None) =>
    case (Some(c), Some(i)) =>
      var c1 := Cons(Jump(n + 2), Cons(Label(n + 3), b));
      var c2 := Cons(Jump(n + 1), Cons(Label(n + 4), Plains(i, c1)));
      assert LabelsOf(c1) == {n + 3} + LabelsOf(b) && (n + 3 !in LabelsOf(b) && Unique(b) ==> Unique(c1));
      PlainsLabels(i, c1);
      assert LabelsOf(c2) == {n + 4} + LabelsOf(c1) && (n + 4 !in LabelsOf(c1) && Unique(c1) ==> Unique(c2));
      PlainsLabels(c, Cons(JumpIf(true, n + 3), c2));
    case (None, Some(i)) =>
      PlainsLabels(i, Cons(Label(n + 2), b));
      assert LabelsOf(Cons(Label(n + 2), b)) == {n + 2} + LabelsOf(b);
  }

  /** Each label of a statement is fresh and defined once. */
  lemma {:induction false} LowerLabels(st: Stmt, n: nat, q: seq<Loop>, rest: Code)
    requires Unique(rest) && Clear(rest, n, n + Labels(st))
    ensures Unique(Lower(st, n, q, rest)) && Adds(Lower(st, n, q, rest), rest, n, n + Labels(st))
    decreases st
  {
    match st
    case Empty =>
    case Do(e) => PlainsLabels(e, rest);
    case Seq(a, b) =>
      LowerLabels(b, n + Labels(a), After(a, n, q), rest);
      LowerLabels(a, n, q, Lower(b, n + Labels(a), After(a, n, q), rest));
    case If(c, yes) => IfLabels(st, n, q, rest);
    case IfElse(c, yes, no) => IfElseLabels(st, n, q, rest);
    case While(c, body) => WhileLabels(st, n, q, rest);
    case For(init, cond, inc, body) => ForStmtLabels(st, n, q, rest);
    case DoWhile(body, c) => DoLabels(st, n, q, rest);
    case _ =>
  }

  lemma {:induction false} IfLabels(st: Stmt, n: nat, q: seq<Loop>, rest: Code)
    requires st.If? && Unique(rest) && Clear(rest, n, n + Labels(st))
    ensures Unique(Lower(st, n, q, rest)) && Adds(Lower(st, n, q, rest), rest, n, n + Labels(st))
    decreases st, 0
  {
    var r := Cons(Label(n + 1), rest);
    LowerLabels(st.yes, n + 2, q, r);
    PlainsLabels(st.c, Cons(JumpIf(false, n + 1), Lower(st.yes, n + 2, q, r)));
  }

  lemma {:induction false} IfElseLabels(st: Stmt, n: nat, q: seq<Loop>, rest: Code)
    requires st.IfElse? && Unique(rest) && Clear(rest, n, n + Labels(st))
    ensures Unique(Lower(st, n, q, rest)) && Adds(Lower(st, n, q, rest), rest, n, n + Labels(st))
    decreases st, 0
  {
    var r := Cons(Label(n + 2), rest);
    var n' := n + 2 + Labels(st.yes);
    var els := Lower(st.no, n', After(st.yes, n + 2, q), r);
    LowerLabels(st.no, n', After(st.yes, n + 2, q), r);
    var e := Cons(Jump(n + 2), Cons(Label(n + 1), els));
    assert LabelsOf(e) == {n + 1} + LabelsOf(els) && Unique(e);
    LowerLabels(st.yes, n + 2, q, e);
    PlainsLabels(st.c, Cons(JumpIf(false, n + 1), Lower(st.yes, n + 2, q, e)));
  }

  lemma {:induction false} WhileLabels(st: Stmt, n: nat, q: seq<Loop>, rest: Code)
    requires st.While? && Unique(rest) && Clear(rest, n, n + Labels(st))
    ensures Unique(Lower(st, n, q, rest)) && Adds(Lower(st, n, q, rest), rest, n, n + Labels(st))
    decreases st, 0
  {
    var q' := Push(q, Loop(n + 1, n + 2));
    var r := Cons(Jump(n + 1), Cons(Label(n + 2), rest));
    assert LabelsOf(r) == {n + 2} + LabelsOf(rest) && Unique(r);
    LowerLabels(st.body, n + 2, q', r);
    PlainsLabels(st.c, Cons(JumpIf(false, n + 2), Lower(st.body, n + 2, q', r)));
  }

  lemma {:induction false} ForStmtLabels(st: Stmt, n: nat, q: seq<Loop>, rest: Code)
    requires st.For? && Unique(rest) && Clear(rest, n, n + Labels(st))
    ensures Unique(Lower(st, n, q, rest)) && Adds(Lower(st, n, q, rest), rest, n, n + Labels(st))
    decreases st, 0
  {
    var nb, l := n + ForLabels(st.cond, st.inc), ForLoop(n, st.cond, st.inc);
    var r := Cons(Jump(l.loop), Cons(Label(n + 1), rest));
    assert LabelsOf(r) == {n + 1} + LabelsOf(rest) && Unique(r);
    LowerLabels(st.body, nb, Push(q, l), r);
    var b := Lower(st.body, nb, Push(q, l), r);
    ForHeadLabels(st.cond, st.inc, n, b);
    PlainsLabels(st.init, ForHead(st.cond, st.inc, n, b));
  }

  lemma {:induction false} DoLabels(st: Stmt, n: nat, q: seq<Loop>, rest: Code)
    requires st.DoWhile? && Unique(rest) && Clear(rest, n, n + Labels(st))
    ensures Unique(Lower(st, n, q, rest)) && Adds(Lower(st, n, q, rest), rest, n, n + Labels(st))
    decreases st, 0
  {
    var q' := Push(q, Loop(n + 1, n + 2));
    var j := Cons(JumpIf(true, n + 3), Cons(Label(n + 2), rest));
    assert LabelsOf(j) == {n + 2} + LabelsOf(rest) && Unique(j);
    PlainsLabels(st.c, j);
    LowerLabels(st.body, n + 3, q', Cons(Label(n + 1), Plains(st.c, j)));
  }

  /** A whole statement: labels 1 to Labels(st), each defined once. */
  lemma {:induction false} ProgramIsUnique(st: Stmt)
    ensures Unique(Lower(st, 0, [], Nil))
  {
    LowerLabels(st, 0, [], Nil);
  }
}
