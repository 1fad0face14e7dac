/** The peephole applied to lowered statements: when it is safe, exactly, and what the
    whole compilation of a statement then preserves. */
module StmtPeep {
  import opened Common
  import opened Asm
  import opened Stmt
  import opened Peephole
  import StmtLabels
  import StmtProof

  // ----- a statement that breaks the peephole -----

  /** The statement emits nothing but jumps. */
  predicate OnlyJumps(st: Stmt) {
    match st
    case Empty => true
    case Do(e) => e == []
    case Seq(a, b) => OnlyJumps(a) && OnlyJumps(b)
    case Break => true
    case Continue => true
    case _ => false
  }

  /** How the first jump of a jumps-only statement leaves its loop. */
  function FirstJump(st: Stmt): Option<Exit> {
    match st
    case Seq(a, b) => if FirstJump(a).Some? then FirstJump(a) else FirstJump(b)
    case Break => Some(Brk)
    case Continue => Some(Cont)
    case _ => None
  }

  /** A loop tested at the top whose whole body is a jump to its own exit, such as
      `while (c) break;`. */
  predicate BareLoop(body: Stmt) {
    OnlyJumps(body) && FirstJump(body) == Some(Brk)
  }

  /** Some loop of that kind occurs. */
  predicate BareBreak(st: Stmt) {
    match st
    case Seq(a, b) => BareBreak(a) || BareBreak(b)
    case If(_, yes) => BareBreak(yes)
    case IfElse(_, yes, no) => BareBreak(yes) || BareBreak(no)
    case While(_, body) => BareBreak(body) || BareLoop(body)
    case For(_, cond, inc, body) => BareBreak(body) || (cond.Some? && inc.None? && BareLoop(body))
    case DoWhile(body, _) => BareBreak(body)
    case _ => false
  }

  lemma {:induction false} OnlyJumpsHasNoLoop(st: Stmt)
    requires OnlyJumps(st)
    ensures !BareBreak(st) && Labels(st) == 0
  {
    if st.Seq? { OnlyJumpsHasNoLoop(st.first); OnlyJumpsHasNoLoop(st.second); }
  }

  // ----- accumulating what the peephole writes -----

  /** Targets written and labels swallowed so far, and the pattern in progress. */
  datatype Acc = Acc(t: set<Lbl>, f: set<Lbl>, p: Pending)

  function PL(p: Pending): set<Lbl> {
    match p
    case Cond(_, a) => {a}
    case CondJump(_, a, b) => {a, b}
    case _ => {}
  }

  function Fuses(p: Pending, i: Instr): bool {
    p.CondJump? && i == Label(p.a)
  }

  function Feed(acc: Acc, i: Instr): Acc {
    Acc(acc.t + (match i
                 case Jump(l) => if acc.p.Idle? then {l} else {}
                 case _ => if Fuses(acc.p, i) then {acc.p.b} else PL(acc.p)),
        acc.f + (if Fuses(acc.p, i) then {acc.p.a} else {}),
        Next(acc.p, i))
  }

  function FeedPlains(acc: Acc, e: Expr): Acc {
    if e == [] then acc else Acc(acc.t + PL(acc.p), acc.f, Idle)
  }

  /** The final targets and swallowed labels if `c` is still to come. */
  function Total(acc: Acc, c: Code): (set<Lbl>, set<Lbl>) {
    (acc.t + Targets(Peep(acc.p, c)), acc.f + Fused(acc.p, c))
  }

  lemma {:induction false} FeedKeepsTotal(acc: Acc, i: Instr, rest: Code)
    ensures Total(acc, Cons(i, rest)) == Total(Feed(acc, i), rest)
  {
    var out := Peep(Next(acc.p, i), rest);
    DumpTargets(acc.p, out);
    DumpTargets(acc.p, Cons(i, out));
    assert Total(acc, Cons(i, rest)).0 == Total(Feed(acc, i), rest).0;
    assert Total(acc, Cons(i, rest)).1 == Total(Feed(acc, i), rest).1;
  }

  lemma {:induction false} FeedPlainsKeepsTotal(acc: Acc, e: Expr, rest: Code)
    ensures Total(acc, Plains(e, rest)) == Total(FeedPlains(acc, e), rest)
    decreases e
  {
    if e != [] {
      FeedKeepsTotal(acc, Plain(e[0]), Plains(e[1..], rest));
      var acc' := Feed(acc, Plain(e[0]));
      FeedPlainsKeepsTotal(acc', e[1..], rest);
      assert FeedPlains(acc', e[1..]) == FeedPlains(acc, e) by { assert acc'.t + {} == acc'.t; }
    }
  }

  function FeedForHead(acc: Acc, cond: Option<Expr>, inc: Option<Expr>, n: nat): Acc {
    match (cond, inc)
    case (Some(c), None) => Feed(FeedPlains(Feed(acc, Label(n + 2)), c), JumpIf(false, n + 1))
    case (None, None) => Feed(acc, Label(n + 2))
    case (Some(c), Some(i)) =>
      var a1 := Feed(Feed(FeedPlains(Feed(acc, Label(n + 2)), c), JumpIf(true, n + 3)), Jump(n + 1));
      Feed(Feed(FeedPlains(Feed(a1, Label(n + 4)), i), Jump(n + 2)), Label(n + 3))
    case (None, Some(i)) =>
      Feed(FeedPlains(Feed(Feed(acc, Jump(n + 2)), Label(n + 3)), i), Label(n + 2))
  }

  /** What feeding the code of a whole statement does. */
  function FeedStmt(acc: Acc, st: Stmt, n: nat, q: seq<Loop>): Acc
    decreases st
  {
    match st
    case Empty => acc
    case Do(e) => FeedPlains(acc, e)
    case Seq(a, b) => FeedStmt(FeedStmt(acc, a, n, q), b, n + Labels(a), After(a, n, q))
    case If(c, yes) => Feed(FeedStmt(Feed(FeedPlains(acc, c), JumpIf(false, n + 1)), yes, n + 2, q), Label(n + 1))
    case IfElse(c, yes, no) =>
      var a1 := FeedStmt(Feed(FeedPlains(acc, c), JumpIf(false, n + 1)), yes, n + 2, q);
      var a2 := Feed(Feed(a1, Jump(n + 2)), Label(n + 1));
      Feed(FeedStmt(a2, no, n + 2 + Labels(yes), After(yes, n + 2, q)), Label(n + 2))
    case While(c, body) =>
      var a1 := Feed(FeedPlains(Feed(acc, Label(n + 1)), c), JumpIf(false, n + 2));
      Feed(Feed(FeedStmt(a1, body, n + 2, Push(q, Loop(n + 1, n + 2))), Jump(n + 1)), Label(n + 2))
    case For(init, cond, inc, body) =>
      var a1 := FeedForHead(FeedPlains(acc, init), cond, inc, n);
      var nb, l := n + ForLabels(cond, inc), ForLoop(n, cond, inc);
      Feed(Feed(FeedStmt(a1, body, nb, Push(q, l)), Jump(l.loop)), Label(n + 1))
    case DoWhile(body, c) =>
      var a1 := Feed(FeedStmt(Feed(acc, Label(n + 3)), body, n + 3, Push(q, Loop(n + 1, n + 2))), Label(n + 1));
      Feed(Feed(FeedPlains(a1, c), JumpIf(true, n + 3)), Label(n + 2))
    case Break => if q == [] then acc else Feed(acc, Jump(q[|q| - 1].exit))
    case Continue => if q == [] then acc else Feed(acc, Jump(q[|q| - 1].loop))
  }

  lemma {:induction false} ForHeadKeepsTotal(acc: Acc, cond: Option<Expr>, inc: Option<Expr>, n: nat, b: Code)
    ensures Total(acc, ForHead(cond, inc, n, b)) == Total(FeedForHead(acc, cond, inc, n), b)
  {
    hide Total, Feed, FeedPlains, Plains;
    match (cond, inc)
    case (Some(c), None) =>
      var j := Cons(JumpIf(false, n + 1), b);
      FeedKeepsTotal(acc, Label(n + 2), Plains(c, j));
      FeedPlainsKeepsTotal(Feed(acc, Label(n + 2)), c, j);
      FeedKeepsTotal(FeedPlains(Feed(acc, Label(n + 2)), c), JumpIf(false, n + 1), b);
    case (None, None) => FeedKeepsTotal(acc, Label(n + 2), b);
    case (Some(c), Some(i)) =>
      var c1 := Cons(Jump(n + 2), Cons(Label(n + 3), b));
      var c2 := Cons(Jump(n + 1), Cons(Label(n + 4), Plains(i, c1)));
      var a1 := Feed(acc, Label(n + 2));
      var a2 := FeedPlains(a1, c);
      var a3 := Feed(a2, JumpIf(true, n + 3));
      var a4 := Feed(a3, Jump(n + 1));
      var a5 := Feed(a4, Label(n + 4));
      var a6 := FeedPlains(a5, i);
      FeedKeepsTotal(acc, Label(n + 2), Plains(c, Cons(JumpIf(true, n + 3), c2)));
      FeedPlainsKeepsTotal(a1, c, Cons(JumpIf(true, n + 3), c2));
      FeedKeepsTotal(a2, JumpIf(true, n + 3), c2);
      FeedKeepsTotal(a3, Jump(n + 1), c2.tail);
      FeedKeepsTotal(a4, Label(n + 4), Plains(i, c1));
      FeedPlainsKeepsTotal(a5, i, c1);
      FeedKeepsTotal(a6, Jump(n + 2), c1.tail);
      FeedKeepsTotal(Feed(a6, Jump(n + 2)), Label(n + 3), b);
    case (None, Some(i)) =>
      var c1 := Cons(Label(n + 2), b);
      var a1 := Feed(acc, Jump(n + 2));
      var a2 := Feed(a1, Label(n + 3));
      FeedKeepsTotal(acc, Jump(n + 2), Cons(Label(n + 3), Plains(i, c1)));
      FeedKeepsTotal(a1, Label(n + 3), Plains(i, c1));
      FeedPlainsKeepsTotal(a2, i, c1);
      FeedKeepsTotal(FeedPlains(a2, i), Label(n + 2), b);
  }

  /** Feeding a statement accounts for its code. */
  lemma {:induction false} StmtKeepsTotal(acc: Acc, st: Stmt, n: nat, q: seq<Loop>, rest: Code)
    ensures Total(acc, Lower(st, n, q, rest)) == Total(FeedStmt(acc, st, n, q), rest)
    decreases st
  {
    hide Total, Feed, FeedPlains, Plains, ForHead, FeedForHead, Labels, After;
    match st
    case Empty =>
    case Do(e) => FeedPlainsKeepsTotal(acc, e, rest);
    case Seq(a, b) =>
      StmtKeepsTotal(acc, a, n, q, Lower(b, n + Labels(a), After(a, n, q), rest));
      StmtKeepsTotal(FeedStmt(acc, a, n, q), b, n + Labels(a), After(a, n, q), rest);
    case If(c, yes) =>
      var r := Cons(Label(n + 1), rest);
      var j := Cons(JumpIf(false, n + 1), Lower(yes, n + 2, q, r));
      var a1 := FeedPlains(acc, c);
      FeedPlainsKeepsTotal(acc, c, j);
      FeedKeepsTotal(a1, JumpIf(false, n + 1), j.tail);
      StmtKeepsTotal(Feed(a1, JumpIf(false, n + 1)), yes, n + 2, q, r);
      FeedKeepsTotal(FeedStmt(Feed(a1, JumpIf(false, n + 1)), yes, n + 2, q), Label(n + 1), rest);
    case IfElse(c, yes, no) =>
      var r := Cons(Label(n + 2), rest);
      var els := Lower(no, n + 2 + Labels(yes), After(yes, n + 2, q), r);
      var e := Cons(Jump(n + 2), Cons(Label(n + 1), els));
      var j := Cons(JumpIf(false, n + 1), Lower(yes, n + 2, q, e));
      var a1 := FeedPlains(acc, c);
      var a2 := Feed(a1, JumpIf(false, n + 1));
      var a3 := FeedStmt(a2, yes, n + 2, q);
      var a4 := Feed(a3, Jump(n + 2));
      var a5 := Feed(a4, Label(n + 1));
      FeedPlainsKeepsTotal(acc, c, j);
      FeedKeepsTotal(a1, JumpIf(false, n + 1), j.tail);
      StmtKeepsTotal(a2, yes, n + 2, q, e);
      FeedKeepsTotal(a3, Jump(n + 2), e.tail);
      FeedKeepsTotal(a4, Label(n + 1), els);
      StmtKeepsTotal(a5, no, n + 2 + Labels(yes), After(yes, n + 2, q), r);
      FeedKeepsTotal(FeedStmt(a5, no, n + 2 + Labels(yes), After(yes, n + 2, q)), Label(n + 2), rest);
    case While(c, body) =>
      var q' := Push(q, Loop(n + 1, n + 2));
      var r := Cons(Jump(n + 1), Cons(Label(n + 2), rest));
      var j := Cons(JumpIf(false, n + 2), Lower(body, n + 2, q', r));
      var a1 := Feed(acc, Label(n + 1));
      var a2 := FeedPlains(a1, c);
      var a3 := Feed(a2, JumpIf(false, n + 2));
      FeedKeepsTotal(acc, Label(n + 1), Plains(c, j));
      FeedPlainsKeepsTotal(a1, c, j);
      FeedKeepsTotal(a2, JumpIf(false, n + 2), j.tail);
      StmtKeepsTotal(a3, body, n + 2, q', r);
      FeedKeepsTotal(FeedStmt(a3, body, n + 2, q'), Jump(n + 1), r.tail);
      FeedKeepsTotal(Feed(FeedStmt(a3, body, n + 2, q'), Jump(n + 1)), Label(n + 2), rest);
    case For(init, cond, inc, body) =>
      var nb, l := n + ForLabels(cond, inc), ForLoop(n, cond, inc);
      var r := Cons(Jump(l.loop), Cons(Label(n + 1), rest));
      var b := Lower(body, nb, Push(q, l), r);
      var a1 := FeedPlains(acc, init);
      var a2 := FeedForHead(a1, cond, inc, n);
      var a3 := FeedStmt(a2, body, nb, Push(q, l));
      FeedPlainsKeepsTotal(acc, init, ForHead(cond, inc, n, b));
      ForHeadKeepsTotal(a1, cond, inc, n, b);
      StmtKeepsTotal(a2, body, nb, Push(q, l), r);
      FeedKeepsTotal(a3, Jump(l.loop), r.tail);
      FeedKeepsTotal(Feed(a3, Jump(l.loop)), Label(n + 1), rest);
    case DoWhile(body, c) =>
      var q' := Push(q, Loop(n + 1, n + 2));
      var j := Cons(JumpIf(true, n + 3), Cons(Label(n + 2), rest));
      var r := Cons(Label(n + 1), Plains(c, j));
      var a1 := Feed(acc, Label(n + 3));
      var a2 := FeedStmt(a1, body, n + 3, q');
      var a3 := Feed(a2, Label(n + 1));
      var a4 := FeedPlains(a3, c);
      FeedKeepsTotal(acc, Label(n + 3), Lower(body, n + 3, q', r));
      StmtKeepsTotal(a1, body, n + 3, q', r);
      FeedKeepsTotal(a2, Label(n + 1), Plains(c, j));
      FeedPlainsKeepsTotal(a3, c, j);
      FeedKeepsTotal(a4, JumpIf(true, n + 3), j.tail);
      FeedKeepsTotal(Feed(a4, JumpIf(true, n + 3)), Label(n + 2), rest);
    case Break => if q != [] { FeedKeepsTotal(acc, Jump(q[|q| - 1].exit), rest); }
    case Continue => if q != [] { FeedKeepsTotal(acc, Jump(q[|q| - 1].loop), rest); }
  }

  // ----- when the accumulated output is safe -----

  ghost predicate Safe(acc: Acc) {
    forall l: Lbl :: l in acc.t ==> l !in acc.f
  }

  /** The labels of the loops open around a statement. */
  function QL(q: seq<Loop>): set<Lbl> {
    if q == [] then {} else QL(q[..|q| - 1]) + {q[|q| - 1].loop, q[|q| - 1].exit}
  }

  lemma {:induction false} QLPush(q: seq<Loop>, l: Loop)
    ensures QL(q + [l]) == QL(q) + {l.loop, l.exit}
  {
    assert (q + [l])[..|q|] == q;
  }

  /** Nothing accumulated so far touches the labels in (n, hi], and the labels still
      referred to from outside have not been swallowed. */
  ghost predicate Sep(acc: Acc, n: int, hi: int, q: seq<Loop>) {
    && (forall l: Lbl :: l in acc.t || l in acc.f || l in PL(acc.p) ==> !(n < l <= hi))
    && (forall l: Lbl :: l in QL(q) ==> l <= n && l !in acc.f)
    && (forall l: Lbl :: l in PL(acc.p) ==> l !in acc.f)
  }

  /** Only labels in (n, hi] have been added, or ones referred to before. */
  ghost predicate Grown(acc: Acc, acc': Acc, n: int, hi: int, q: seq<Loop>) {
    && acc.t <= acc'.t && acc.f <= acc'.f
    && (forall l: Lbl :: l in acc'.f ==> l in acc.f || n < l <= hi)
    && (forall l: Lbl :: l in acc'.t ==> l in acc.t || n < l <= hi || l in PL(acc.p) || l in QL(q))
  }

  function JumpTarget(x: Exit, q: seq<Loop>): Lbl
    requires q != []
  {
    if x.Brk? then q[|q| - 1].exit else q[|q| - 1].loop
  }

  /** A jumps-only statement acts as its first jump; any other ends outside a pattern. */
  ghost predicate Settled(acc: Acc, acc': Acc, st: Stmt, q: seq<Loop>) {
    if !OnlyJumps(st) then acc'.p.Idle? || acc'.p.AfterJump?
    else if FirstJump(st).None? then acc' == acc
    else q != [] && acc' == Feed(acc, Jump(JumpTarget(FirstJump(st).value, q)))
  }

  lemma {:induction false} SepAfter(acc: Acc, acc': Acc, st: Stmt, n: nat, hi: int, q: seq<Loop>)
    requires Sep(acc, n, hi, q) && Grown(acc, acc', n, n + Labels(st), q) && Settled(acc, acc', st, q)
    requires n + Labels(st) <= hi
    ensures Sep(acc', n + Labels(st), hi, q)
  {
    if OnlyJumps(st) { OnlyJumpsHasNoLoop(st); }
    if q != [] { assert q[|q| - 1].loop in QL(q) && q[|q| - 1].exit in QL(q); }
  }

  lemma {:induction false} SecondJumpDropped(acc: Acc, a: Lbl, b: Lbl)
    ensures Feed(Feed(acc, Jump(a)), Jump(b)) == Feed(acc, Jump(a))
  {
    var x := Feed(acc, Jump(a));
    assert x.t + {} == x.t && x.f + {} == x.f;
  }

  lemma {:induction false} JumpsSettle(acc: Acc, st: Stmt, n: nat, q: seq<Loop>)
    requires OnlyJumps(st) && |q| <= NSWQ && Fits(st, |q|)
    ensures Settled(acc, FeedStmt(acc, st, n, q), st, q) && After(st, n, q) == q
    decreases st
  {
    match st
    case Empty =>
    case Do(e) =>
    case Break =>
    case Continue =>
    case Seq(a, b) =>
      JumpsSettle(acc, a, n, q);
      var acc1 := FeedStmt(acc, a, n, q);
      JumpsSettle(acc1, b, n + Labels(a), q);
      if FirstJump(a).Some? && FirstJump(b).Some? {
        SecondJumpDropped(acc, JumpTarget(FirstJump(a).value, q), JumpTarget(FirstJump(b).value, q));
      }
  }

  /** Feeding a jump to a label nobody has swallowed. */
  lemma {:induction false} JumpSafe(acc: Acc, l: Lbl)
    requires l !in acc.f
    ensures Safe(Feed(acc, Jump(l))) <==> Safe(acc)
    ensures Feed(acc, Jump(l)).f == acc.f
  {
    assert acc.f + {} == acc.f;
  }

  /** Feeding something that dumps the pattern. */
  lemma {:induction false} DumpSafe(acc: Acc, i: Instr)
    requires !i.Jump? && !Fuses(acc.p, i) && forall l: Lbl :: l in PL(acc.p) ==> l !in acc.f
    ensures Safe(Feed(acc, i)) <==> Safe(acc)
    ensures Feed(acc, i).f == acc.f && Feed(acc, i).t == acc.t + PL(acc.p)
  {
    assert acc.f + {} == acc.f;
  }

  lemma {:induction false} PlainsSafe(acc: Acc, e: Expr, n: int, hi: int, q: seq<Loop>)
    requires Sep(acc, n, hi, q)
    ensures var acc' := FeedPlains(acc, e);
            && Sep(acc', n, hi, q) && Grown(acc, acc', n, n, q)
            && (Safe(acc') <==> Safe(acc)) && (e != [] ==> acc'.p == Idle)
            && PL(acc'.p) <= PL(acc.p) && acc'.f == acc.f
  {
  }

  /** The end of a loop tested at the top: the jump back and the exit label. */
  lemma {:induction false} TailSafe(acc: Acc, acc': Acc, body: Stmt, lo: nat, hi: int, l: Loop, q: seq<Loop>)
    requires acc.p == Cond(false, l.exit) && l.loop != l.exit
    requires Sep(acc, lo, hi, q + [l]) && Grown(acc, acc', lo, hi, q + [l]) && Settled(acc, acc', body, q + [l])
    requires l.exit !in acc.t && l.loop !in acc.t
    ensures var z := Feed(Feed(acc', Jump(l.loop)), Label(l.exit));
            && (Safe(z) <==> Safe(acc') && !BareLoop(body)) && z.p == Idle
            && acc'.t <= z.t <= acc'.t + {l.loop, l.exit} && acc'.f <= z.f <= acc'.f + {l.exit}
  {
    QLPush(q, l);
    assert l.loop in QL(q + [l]) && l.exit in QL(q + [l]);
    var y := Feed(acc', Jump(l.loop));
    var z := Feed(y, Label(l.exit));
    assert (q + [l])[|q + [l]| - 1] == l;
    if OnlyJumps(body) {
      assert acc.t + {} == acc.t && acc.f + {} == acc.f;
      assert acc'.t == acc.t && acc'.f == acc.f && (acc'.p == acc.p || acc'.p.CondJump?);
      assert y.t == acc.t && y.f == acc.f;
      var x := y.p.b;
      assert y.p == CondJump(false, l.exit, x);
      assert z == Acc(acc.t + {x}, acc.f + {l.exit}, Idle);
      assert x == (if FirstJump(body).Some? then JumpTarget(FirstJump(body).value, q + [l]) else l.loop);
      assert Safe(z) ==> x != l.exit;
    } else {
      JumpSafe(acc', l.loop);
      DumpSafe(y, Label(l.exit));
    }
  }

  /** What is claimed of every statement. */
  ghost predicate Claim(acc: Acc, acc': Acc, st: Stmt, n: nat, q: seq<Loop>) {
    && Grown(acc, acc', n, n + Labels(st), q) && Settled(acc, acc', st, q)
    && (Safe(acc') <==> Safe(acc) && !BareBreak(st))
  }

  lemma {:induction false} ClaimSeq(acc: Acc, a1: Acc, a2: Acc, a: Stmt, b: Stmt, n: nat, q: seq<Loop>)
    requires Sep(acc, n, n + Labels(a) + Labels(b), q)
    requires Claim(acc, a1, a, n, q) && Claim(a1, a2, b, n + Labels(a), q)
    requires OnlyJumps(Seq(a, b)) ==> Settled(acc, a2, Seq(a, b), q)
    ensures Claim(acc, a2, Seq(a, b), n, q)
  {
    if q != [] { assert q[|q| - 1].loop in QL(q) && q[|q| - 1].exit in QL(q); }
    assert forall l: Lbl :: l in PL(a1.p) ==> l in PL(acc.p) || l in QL(q);
  }

  /** The code before a loop body or a then-branch: it swallows nothing. */
  ghost predicate Headed(acc: Acc, h: Acc, n: int, lo: int) {
    && acc.t <= h.t && h.f == acc.f
    && (forall l: Lbl :: l in h.t ==> l in acc.t || l in PL(acc.p) || n < l <= lo)
    && (forall l: Lbl :: l in PL(h.p) ==> n < l <= lo)
    && (Safe(h) <==> Safe(acc))
  }

  lemma {:induction false} TestHead(acc: Acc, c: Expr, sense: bool, l: Lbl, n: int, lo: int, hi: int, q: seq<Loop>)
    requires Sep(acc, n, hi, q) && n < l <= lo <= hi
    ensures var h := Feed(FeedPlains(acc, c), JumpIf(sense, l));
            Headed(acc, h, n, lo) && h.p == Cond(sense, l) && forall x: Lbl :: n < x <= hi ==> x !in h.t && x !in h.f
    ensures forall x: Lbl :: x in QL(q) ==> x <= n
  {
    PlainsSafe(acc, c, n, hi, q);
    DumpSafe(FeedPlains(acc, c), JumpIf(sense, l));
  }

  lemma {:induction false} LabelHead(acc: Acc, l: Lbl, n: int, lo: int, hi: int, q: seq<Loop>)
    requires Sep(acc, n, hi, q) && n < l <= lo <= hi
    ensures Headed(acc, Feed(acc, Label(l)), n, lo) && Feed(acc, Label(l)).p == Idle
    ensures forall x: Lbl :: x in Feed(acc, Label(l)).t ==> x in acc.t || x in PL(acc.p)
  {
    assert Fuses(acc.p, Label(l)) ==> l in PL(acc.p);
    DumpSafe(acc, Label(l));
  }

  lemma {:induction false} SepHeaded(acc: Acc, h: Acc, n: int, lo: int, hi: int, q: seq<Loop>)
    requires Sep(acc, n, hi, q) && Headed(acc, h, n, lo) && n <= lo <= hi
    ensures Sep(h, lo, hi, q)
  {
  }

  lemma {:induction false} SepPush(acc: Acc, lo: int, hi: int, q: seq<Loop>, l: Loop)
    requires Sep(acc, lo, hi, q) && l.loop <= lo && l.exit <= lo && l.loop !in acc.f && l.exit !in acc.f
    ensures Sep(acc, lo, hi, q + [l])
  {
    QLPush(q, l);
  }

  lemma {:induction false} SafeIf(acc: Acc, c: Expr, yes: Stmt, n: nat, q: seq<Loop>)
    requires Sep(acc, n, n + 2 + Labels(yes), q) && |q| <= NSWQ && Fits(yes, |q|)
    ensures Claim(acc, Feed(FeedStmt(Feed(FeedPlains(acc, c), JumpIf(false, n + 1)), yes, n + 2, q), Label(n + 1)),
                  If(c, yes), n, q)
    decreases yes, 2
  {
    var hi := n + 2 + Labels(yes);
    hide Feed, FeedPlains, FeedStmt, Grown, Headed, Safe, Settled, PL, Labels, Fits;
    var h := Feed(FeedPlains(acc, c), JumpIf(false, n + 1));
    TestHead(acc, c, false, n + 1, n, n + 2, hi, q);
    SepHeaded(acc, h, n, n + 2, hi, q);
    StmtSafe(h, yes, n + 2, q);
    var a := FeedStmt(h, yes, n + 2, q);
    YesTail(h, a, yes, n, hi, q);
    ClaimIf(acc, h, a, Feed(a, Label(n + 1)), c, yes, n, q);
  }

  lemma {:induction false} ClaimIf(acc: Acc, h: Acc, a: Acc, z: Acc, c: Expr, yes: Stmt, n: nat, q: seq<Loop>)
    requires Headed(acc, h, n, n + 2) && Claim(h, a, yes, n + 2, q) && z.p == Idle && (Safe(z) <==> Safe(a))
    requires a.t <= z.t && a.f <= z.f <= a.f + {n + 1}
    requires forall l: Lbl :: l in z.t ==> l in a.t || l == n + 1 || l in QL(q)
    ensures Claim(acc, z, If(c, yes), n, q)
  {
  }

  /** The label after a then-branch. */
  lemma {:induction false} YesTail(h: Acc, a: Acc, yes: Stmt, n: nat, hi: int, q: seq<Loop>)
    requires h.p == Cond(false, n + 1) && n + 1 !in h.t && n + 1 !in h.f
    requires Sep(h, n + 2, hi, q) && Grown(h, a, n + 2, hi, q) && Settled(h, a, yes, q)
    requires forall l: Lbl :: l in QL(q) ==> l <= n
    ensures var z := Feed(a, Label(n + 1));
            && (Safe(z) <==> Safe(a)) && z.p == Idle
            && a.t <= z.t && a.f <= z.f <= a.f + {n + 1}
            && forall l: Lbl :: l in z.t ==> l in a.t || l == n + 1 || l in QL(q)
  {
    if q != [] { assert q[|q| - 1].loop in QL(q) && q[|q| - 1].exit in QL(q); }
    var z := Feed(a, Label(n + 1));
    if OnlyJumps(yes) && FirstJump(yes).Some? {
      assert h.t + {} == h.t && h.f + {} == h.f;
      assert a == Acc(h.t, h.f, CondJump(false, n + 1, JumpTarget(FirstJump(yes).value, q)));
    } else {
      DumpSafe(a, Label(n + 1));
    }
  }

  lemma {:induction false} Balanced(st: Stmt, n: nat, q: seq<Loop>)
    requires |q| <= NSWQ && Fits(st, |q|)
    ensures After(st, n, q) == q
  {
    ErrorFreeIsBalanced(st, n, q);
  }

  lemma {:induction false} IfElseStep(acc: Acc, c: Expr, yes: Stmt, no: Stmt, n: nat, q: seq<Loop>)
    requires |q| <= NSWQ && Fits(yes, |q|)
    ensures var h := Feed(FeedPlains(acc, c), JumpIf(false, n + 1));
            var z := Feed(Feed(FeedStmt(h, yes, n + 2, q), Jump(n + 2)), Label(n + 1));
            FeedStmt(acc, IfElse(c, yes, no), n, q) == Feed(FeedStmt(z, no, n + 2 + Labels(yes), q), Label(n + 2))
  {
    Balanced(yes, n + 2, q);
    IfElseUnfold(acc, c, yes, no, n, q);
    hide *;
  }

  lemma {:induction false} IfElseUnfold(acc: Acc, c: Expr, yes: Stmt, no: Stmt, n: nat, q: seq<Loop>)
    ensures var h := Feed(FeedPlains(acc, c), JumpIf(false, n + 1));
            var z := Feed(Feed(FeedStmt(h, yes, n + 2, q), Jump(n + 2)), Label(n + 1));
            FeedStmt(acc, IfElse(c, yes, no), n, q) == Feed(FeedStmt(z, no, n + 2 + Labels(yes), After(yes, n + 2, q)),
                     Label(n + 2))
  {
    hide Feed, FeedPlains, Labels, After;
  }

  lemma {:induction false} SafeIfElse(acc: Acc, c: Expr, yes: Stmt, no: Stmt, n: nat, q: seq<Loop>)
    requires Sep(acc, n, n + 2 + Labels(yes) + Labels(no), q) && |q| <= NSWQ && Fits(yes, |q|) && Fits(no, |q|)
    ensures Claim(acc, FeedStmt(acc, IfElse(c, yes, no), n, q), IfElse(c, yes, no), n, q)
    decreases IfElse(c, yes, no), 0
  {
    var hi, n' := n + 2 + Labels(yes) + Labels(no), n + 2 + Labels(yes);
    hide *;
    IfElseStep(acc, c, yes, no, n, q);
    var h := Feed(FeedPlains(acc, c), JumpIf(false, n + 1));
    var a := FeedStmt(h, yes, n + 2, q);
    var z := Feed(Feed(a, Jump(n + 2)), Label(n + 1));
    BranchHead(acc, c, n, n', hi, q);
    StmtSafe(h, yes, n + 2, q);
    ElseMid(acc, h, a, yes, n, n', hi, q);
    StmtSafe(z, no, n', q);
    ClaimIfElse(acc, h, a, z, FeedStmt(z, no, n', q), c, yes, no, n, q);
  }

  lemma {:induction false} BranchHead(acc: Acc, c: Expr, n: nat, n': int, hi: int, q: seq<Loop>)
    requires Sep(acc, n, hi, q) && n + 2 <= n' <= hi
    ensures var h := Feed(FeedPlains(acc, c), JumpIf(false, n + 1));
            && Headed(acc, h, n, n + 2) && h.p == Cond(false, n + 1) && Sep(h, n + 2, n', q)
            && forall x: Lbl :: n < x <= hi ==> x !in h.t && x !in h.f
  {
    TestHead(acc, c, false, n + 1, n, n + 2, hi, q);
    SepHeaded(acc, Feed(FeedPlains(acc, c), JumpIf(false, n + 1)), n, n + 2, hi, q);
  }

  lemma {:induction false} ElseMid(acc: Acc, h: Acc, a: Acc, yes: Stmt, n: nat, n': int, hi: int, q: seq<Loop>)
    requires Sep(acc, n, hi, q) && Headed(acc, h, n, n + 2) && h.p == Cond(false, n + 1) && n + 2 <= n' <= hi
    requires Sep(h, n + 2, n', q) && n' == n + 2 + Labels(yes) && Claim(h, a, yes, n + 2, q)
    requires forall x: Lbl :: n < x <= hi ==> x !in h.t && x !in h.f
    ensures var z := Feed(Feed(a, Jump(n + 2)), Label(n + 1));
            (Safe(z) <==> Safe(a)) && z.p == Idle && Sep(z, n', hi, q) && Grown(acc, z, n, n', q)
  {
    SepHeaded(acc, h, n, n + 2, hi, q);
    ElseTail(h, a, yes, n, n', q);
    hide Feed, Settled, Safe;
    SepElse(acc, h, a, Feed(Feed(a, Jump(n + 2)), Label(n + 1)), n, n', hi, q);
  }

  lemma {:induction false} ClaimIfElse(acc: Acc, h: Acc, a: Acc, z: Acc, y: Acc, c: Expr, yes: Stmt, no: Stmt, n: nat,
                                       q: seq<Loop>)
    requires Headed(acc, h, n, n + 2) && Claim(h, a, yes, n + 2, q) && z.p == Idle && (Safe(z) <==> Safe(a))
    requires Grown(acc, z, n, n + 2 + Labels(yes), q) && Claim(z, y, no, n + 2 + Labels(yes), q)
    ensures Claim(acc, Feed(y, Label(n + 2)), IfElse(c, yes, no), n, q)
  {
    assert PL(y.p) == {};
    DumpSafe(y, Label(n + 2));
  }

  lemma {:induction false} SepShrink(acc: Acc, lo: int, mid: int, hi: int, q: seq<Loop>)
    requires Sep(acc, lo, hi, q) && mid <= hi
    ensures Sep(acc, lo, mid, q)
  {
  }

  lemma {:induction false} ElseTail(h: Acc, a: Acc, yes: Stmt, n: nat, hi: int, q: seq<Loop>)
    requires h.p == Cond(false, n + 1) && n + 1 !in h.t && n + 1 !in h.f && n + 2 !in h.f
    requires Sep(h, n + 2, hi, q) && Grown(h, a, n + 2, hi, q) && Settled(h, a, yes, q)
    requires forall l: Lbl :: l in QL(q) ==> l <= n
    ensures var z := Feed(Feed(a, Jump(n + 2)), Label(n + 1));
            && (Safe(z) <==> Safe(a)) && z.p == Idle
            && a.t <= z.t && a.f <= z.f <= a.f + {n + 1}
            && forall l: Lbl :: l in z.t ==> l in a.t || n < l <= n + 2 || l in QL(q)
  {
    if q != [] { assert q[|q| - 1].loop in QL(q) && q[|q| - 1].exit in QL(q); }
    var y := Feed(a, Jump(n + 2));
    var z := Feed(y, Label(n + 1));
    if OnlyJumps(yes) {
      assert h.t + {} == h.t && h.f + {} == h.f;
      assert y == Acc(h.t, h.f, CondJump(false, n + 1, y.p.b));
      assert z == Acc(h.t + {y.p.b}, h.f + {n + 1}, Idle);
    } else {
      JumpSafe(a, n + 2);
      DumpSafe(y, Label(n + 1));
    }
  }

  lemma {:induction false} SepElse(acc: Acc, h: Acc, a: Acc, z: Acc, n: nat, n': int, hi: int, q: seq<Loop>)
    requires Sep(acc, n, hi, q) && Headed(acc, h, n, n + 2) && Sep(h, n + 2, hi, q) && Grown(h, a, n + 2, n', q)
    requires n + 2 <= n' <= hi && z.p == Idle && a.t <= z.t && a.f <= z.f <= a.f + {n + 1}
    requires forall l: Lbl :: l in z.t ==> l in a.t || n < l <= n + 2 || l in QL(q)
    ensures Sep(z, n', hi, q) && Grown(acc, z, n, n', q)
  {
  }

  lemma {:induction false} TopHead(acc: Acc, c: Expr, n: nat, hi: int, q: seq<Loop>, l: Loop)
    requires Sep(acc, n, hi, q) && n < l.loop <= n + 2 && n < l.exit <= n + 2 <= hi
    ensures var h := Feed(FeedPlains(Feed(acc, Label(l.loop)), c), JumpIf(false, l.exit));
            && Headed(acc, h, n, n + 2) && h.p == Cond(false, l.exit)
            && forall x: Lbl :: n < x <= hi ==> x !in h.t && x !in h.f
  {
    LabelHead(acc, l.loop, n, n + 2, hi, q);
    TestHead(Feed(acc, Label(l.loop)), c, false, l.exit, n, n + 2, hi, q);
  }

  /** A loop tested at the top, from its label to its exit. */
  lemma {:induction false} SafeTop(acc: Acc, c: Expr, body: Stmt, n: nat, q: seq<Loop>, l: Loop)
    requires Sep(acc, n, n + 2 + Labels(body), q) && |q| < NSWQ && Fits(body, |q| + 1)
    requires l == Loop(n + 1, n + 2) || l == Loop(n + 2, n + 1)
    ensures var h := Feed(FeedPlains(Feed(acc, Label(l.loop)), c), JumpIf(false, l.exit));
            var z := Feed(Feed(FeedStmt(h, body, n + 2, q + [l]), Jump(l.loop)), Label(l.exit));
            && Grown(acc, z, n, n + 2 + Labels(body), q) && z.p == Idle
            && (Safe(z) <==> Safe(acc) && !BareBreak(body) && !BareLoop(body))
    decreases body, 2
  {
    var hi := n + 2 + Labels(body);
    hide Feed, FeedPlains, FeedStmt, Grown, Safe, Settled, Sep, PL, BareBreak, BareLoop, Labels, Fits;
    TopHead(acc, c, n, hi, q, l);
    var h := Feed(FeedPlains(Feed(acc, Label(l.loop)), c), JumpIf(false, l.exit));
    SepHeaded(acc, h, n, n + 2, hi, q);
    SepPush(h, n + 2, hi, q, l);
    StmtSafe(h, body, n + 2, q + [l]);
    var b := FeedStmt(h, body, n + 2, q + [l]);
    TailSafe(h, b, body, n + 2, hi, l, q);
    GrownTop(acc, h, b, Feed(Feed(b, Jump(l.loop)), Label(l.exit)), n, hi, l, q);
  }

  lemma {:induction false} GrownTop(acc: Acc, h: Acc, b: Acc, z: Acc, n: nat, hi: int, l: Loop, q: seq<Loop>)
    requires Headed(acc, h, n, n + 2) && Grown(h, b, n + 2, hi, q + [l]) && n + 2 <= hi
    requires n < l.loop <= n + 2 && n < l.exit <= n + 2
    requires b.t <= z.t <= b.t + {l.loop, l.exit} && b.f <= z.f <= b.f + {l.exit}
    ensures Grown(acc, z, n, hi, q)
  {
    QLPush(q, l);
  }

  /** A loop body entered outside any pattern, then the jump back and the exit. */
  lemma {:induction false} SafeBody(acc: Acc, h: Acc, body: Stmt, n: nat, lo: nat, q: seq<Loop>, l: Loop)
    requires Sep(acc, n, lo + Labels(body), q) && Headed(acc, h, n, lo) && h.p == Idle && n < lo
    requires n < l.loop <= lo && n < l.exit <= lo && |q| < NSWQ && Fits(body, |q| + 1)
    ensures var z := Feed(Feed(FeedStmt(h, body, lo, q + [l]), Jump(l.loop)), Label(l.exit));
            Grown(acc, z, n, lo + Labels(body), q) && z.p == Idle && (Safe(z) <==> Safe(acc) && !BareBreak(body))
    decreases body, 2
  {
    var hi := lo + Labels(body);
    SepHeaded(acc, h, n, lo, hi, q);
    NotSwallowed(acc, h, n, lo, hi, q, l);
    hide *;
    SepPush(h, lo, hi, q, l);
    StmtSafe(h, body, lo, q + [l]);
    BodyTail(acc, h, FeedStmt(h, body, lo, q + [l]), body, n, lo, q, l);
  }

  lemma {:induction false} NotSwallowed(acc: Acc, h: Acc, n: nat, lo: nat, hi: int, q: seq<Loop>, l: Loop)
    requires Sep(acc, n, hi, q) && Headed(acc, h, n, lo) && n < l.loop <= lo <= hi && n < l.exit <= lo
    ensures l.loop !in h.f && l.exit !in h.f
  {
  }

  lemma {:induction false} BodyTail(acc: Acc, h: Acc, b: Acc, body: Stmt, n: nat, lo: nat, q: seq<Loop>, l: Loop)
    requires Sep(acc, n, lo + Labels(body), q) && Headed(acc, h, n, lo) && h.p == Idle && n < lo
    requires n < l.loop <= lo && n < l.exit <= lo && Claim(h, b, body, lo, q + [l])
    ensures var z := Feed(Feed(b, Jump(l.loop)), Label(l.exit));
            Grown(acc, z, n, lo + Labels(body), q) && z.p == Idle && (Safe(z) <==> Safe(acc) && !BareBreak(body))
  {
    hide FeedStmt, Labels, Fits, BareBreak;
    assert b.p.Idle? || b.p.AfterJump?;
    QLPush(q, l);
    JumpSafe(b, l.loop);
    DumpSafe(Feed(b, Jump(l.loop)), Label(l.exit));
  }

  lemma {:induction false} FullHead(acc: Acc, c: Expr, i: Expr, n: nat, hi: int, q: seq<Loop>)
    requires Sep(acc, n, hi, q) && n + 4 <= hi
    ensures var h := FeedForHead(acc, Some(c), Some(i), n);
            Headed(acc, h, n, n + 4) && h.p == Idle
  {
    var a1 := Feed(acc, Label(n + 2));
    LabelHead(acc, n + 2, n, n + 2, hi, q);
    var a2 := Feed(FeedPlains(a1, c), JumpIf(true, n + 3));
    TestHead(a1, c, true, n + 3, n, n + 3, hi, q);
    var a3 := Feed(a2, Jump(n + 1));
    assert a3 == Acc(a2.t, a2.f, CondJump(true, n + 3, n + 1)) by { assert a2.t + {} == a2.t && a2.f + {} == a2.f; }
    FullTail(acc, a1, a2, a3, i, n);
  }

  /** The increment between the test and the body. */
  lemma {:induction false} FullTail(acc: Acc, a1: Acc, a2: Acc, a3: Acc, i: Expr, n: nat)
    requires Headed(acc, a1, n, n + 2) && a1.p == Idle && Headed(a1, a2, n, n + 3)
    requires (forall x: Lbl :: x in a1.t ==> x in acc.t || x in PL(acc.p)) && n + 3 !in a2.f && n + 1 !in a2.f
    requires a3 == Acc(a2.t, a2.f, CondJump(true, n + 3, n + 1)) && n + 2 !in a2.f
    ensures var h := Feed(Feed(FeedPlains(Feed(a3, Label(n + 4)), i), Jump(n + 2)), Label(n + 3));
            Headed(acc, h, n, n + 4) && h.p == Idle
  {
    var a4 := Feed(a3, Label(n + 4));
    DumpSafe(a3, Label(n + 4));
    var a5 := FeedPlains(a4, i);
    var a6 := Feed(a5, Jump(n + 2));
    JumpSafe(a5, n + 2);
    DumpSafe(a6, Label(n + 3));
  }

  lemma {:induction false} NoTestHead(acc: Acc, i: Expr, n: nat, hi: int, q: seq<Loop>)
    requires Sep(acc, n, hi, q) && n + 3 <= hi
    ensures var h := FeedForHead(acc, None, Some(i), n);
            Headed(acc, h, n, n + 3) && h.p == Idle
  {
    var a1 := Feed(acc, Jump(n + 2));
    JumpSafe(acc, n + 2);
    assert forall l: Lbl :: l in PL(a1.p) ==> l in PL(acc.p) || l == n + 2;
    assert Fuses(a1.p, Label(n + 3)) ==> n + 3 in PL(acc.p);
    var a2 := Feed(a1, Label(n + 3));
    DumpSafe(a1, Label(n + 3));
    DumpSafe(FeedPlains(a2, i), Label(n + 2));
  }

  lemma {:induction false} ForStep(acc: Acc, init: Expr, cond: Option<Expr>, inc: Option<Expr>, body: Stmt, n: nat,
                                   q: seq<Loop>)
    requires |q| < NSWQ
    ensures var l := ForLoop(n, cond, inc);
            FeedStmt(acc, For(init, cond, inc, body), n, q) ==
            Feed(Feed(FeedStmt(FeedForHead(FeedPlains(acc, init), cond, inc, n),
                               body, n + ForLabels(cond, inc), q + [l]), Jump(l.loop)), Label(l.exit))
  {
    hide Feed, FeedPlains, FeedForHead, Labels;
  }

  lemma {:induction false} SafeFor(acc: Acc, init: Expr, cond: Option<Expr>, inc: Option<Expr>, body: Stmt, n: nat,
                                   q: seq<Loop>)
    requires Sep(acc, n, n + ForLabels(cond, inc) + Labels(body), q) && |q| < NSWQ && Fits(body, |q| + 1)
    ensures Claim(acc, FeedStmt(acc, For(init, cond, inc, body), n, q), For(init, cond, inc, body), n, q)
    decreases body, 3
  {
    var hi := n + ForLabels(cond, inc) + Labels(body);
    var nb, l := n + ForLabels(cond, inc), ForLoop(n, cond, inc);
    hide Feed, FeedPlains, FeedStmt, Grown, Headed, Safe, Sep, Labels, Fits, BareBreak, BareLoop;
    var a := FeedPlains(acc, init);
    PlainsSafe(acc, init, n, hi, q);
    ForStep(acc, init, cond, inc, body, n, q);
    if cond.Some? && inc.None? {
      SafeTop(a, cond.value, body, n, q, l);
    } else {
      var h := FeedForHead(a, cond, inc, n);
      match (cond, inc) {
        case (Some(c), Some(i)) => FullHead(a, c, i, n, hi, q);
        case (None, Some(i)) => NoTestHead(a, i, n, hi, q);
        case (None, None) => LabelHead(a, n + 2, n, n + 2, hi, q);
      }
      SafeBody(a, h, body, n, nb, q, l);
    }
    ClaimFor(acc, a, FeedStmt(acc, For(init, cond, inc, body), n, q), init, cond, inc, body, n, q);
  }

  lemma {:induction false} ClaimFor(acc: Acc, a: Acc, z: Acc, init: Expr, cond: Option<Expr>, inc: Option<Expr>,
                                    body: Stmt, n: nat, q: seq<Loop>)
    requires Grown(acc, a, n, n, q) && PL(a.p) <= PL(acc.p) && (Safe(a) <==> Safe(acc))
    requires Grown(a, z, n, n + ForLabels(cond, inc) + Labels(body), q) && z.p == Idle
    requires Safe(z) <==> Safe(a) && !BareBreak(body) && !(cond.Some? && inc.None? && BareLoop(body))
    ensures Claim(acc, z, For(init, cond, inc, body), n, q)
  {
  }

  lemma {:induction false} SafeDo(acc: Acc, body: Stmt, c: Expr, n: nat, q: seq<Loop>)
    requires Sep(acc, n, n + 3 + Labels(body), q) && |q| < NSWQ && Fits(body, |q| + 1)
    ensures var a1 := Feed(FeedStmt(Feed(acc, Label(n + 3)), body, n + 3, q + [Loop(n + 1, n + 2)]), Label(n + 1));
            Claim(acc, Feed(Feed(FeedPlains(a1, c), JumpIf(true, n + 3)), Label(n + 2)), DoWhile(body, c), n, q)
    decreases body, 2
  {
    var hi, l := n + 3 + Labels(body), Loop(n + 1, n + 2);
    hide FeedStmt, Labels, Fits;
    var h := Feed(acc, Label(n + 3));
    LabelHead(acc, n + 3, n, n + 3, hi, q);
    SepHeaded(acc, h, n, n + 3, hi, q);
    SepPush(h, n + 3, hi, q, l);
    StmtSafe(h, body, n + 3, q + [l]);
    hide Feed, Settled;
    DoTail(acc, h, FeedStmt(h, body, n + 3, q + [l]), body, c, n, q);
  }

  lemma {:induction false} DoTail(acc: Acc, h: Acc, b: Acc, body: Stmt, c: Expr, n: nat, q: seq<Loop>)
    requires Headed(acc, h, n, n + 3) && h.p == Idle && Claim(h, b, body, n + 3, q + [Loop(n + 1, n + 2)])
    requires forall l: Lbl :: n < l <= n + 3 ==> l !in h.f
    ensures Claim(acc, Feed(Feed(FeedPlains(Feed(b, Label(n + 1)), c), JumpIf(true, n + 3)), Label(n + 2)),
                  DoWhile(body, c), n, q)
  {
    QLPush(q, Loop(n + 1, n + 2));
    assert PL(b.p) == {};
    var a1 := Feed(b, Label(n + 1));
    DumpSafe(b, Label(n + 1));
    assert FeedPlains(a1, c) == a1 by { assert a1.t + {} == a1.t; }
    var a2 := Feed(a1, JumpIf(true, n + 3));
    DumpSafe(a1, JumpIf(true, n + 3));
    DumpSafe(a2, Label(n + 2));
  }

  /** Feeding a statement keeps the accumulated output safe exactly when the
      statement contains no bare break. */
  lemma {:induction false} StmtSafe(acc: Acc, st: Stmt, n: nat, q: seq<Loop>)
    requires Sep(acc, n, n + Labels(st), q) && |q| <= NSWQ && Fits(st, |q|)
    ensures Claim(acc, FeedStmt(acc, st, n, q), st, n, q)
    decreases st, 1
  {
    hide Feed, FeedPlains, Grown, Safe, Sep, QL, PL, FeedForHead;
    match st
    case Seq(a, b) => SafeSeq(acc, a, b, n, q);
    case If(c, yes) => SafeIf(acc, c, yes, n, q);
    case IfElse(c, yes, no) => SafeIfElse(acc, c, yes, no, n, q);
    case While(c, body) => SafeTop(acc, c, body, n, q, Loop(n + 1, n + 2));
    case For(init, cond, inc, body) => SafeFor(acc, init, cond, inc, body, n, q);
    case DoWhile(body, c) => SafeDo(acc, body, c, n, q);
    case Do(e) => SafeDoExpr(acc, e, n, q);
    case _ => SafeLeaf(acc, st, n, q);
  }

  lemma {:induction false} SafeSeq(acc: Acc, a: Stmt, b: Stmt, n: nat, q: seq<Loop>)
    requires Sep(acc, n, n + Labels(a) + Labels(b), q) && |q| <= NSWQ && Fits(a, |q|) && Fits(b, |q|)
    ensures Claim(acc, FeedStmt(acc, Seq(a, b), n, q), Seq(a, b), n, q)
    decreases Seq(a, b), 0
  {
    hide *;
    var hi := n + Labels(a) + Labels(b);
    var a1 := FeedStmt(acc, a, n, q);
    SeqStep(acc, a, b, n, q);
    SepShrink(acc, n, n + Labels(a), hi, q);
    StmtSafe(acc, a, n, q);
    SepAfterClaim(acc, a1, a, n, hi, q);
    StmtSafe(a1, b, n + Labels(a), q);
    ClaimSeq(acc, a1, FeedStmt(acc, Seq(a, b), n, q), a, b, n, q);
  }

  lemma {:induction false} SeqStep(acc: Acc, a: Stmt, b: Stmt, n: nat, q: seq<Loop>)
    requires |q| <= NSWQ && Fits(a, |q|) && Fits(b, |q|)
    ensures FeedStmt(acc, Seq(a, b), n, q) == FeedStmt(FeedStmt(acc, a, n, q), b, n + Labels(a), q)
    ensures OnlyJumps(Seq(a, b)) ==> Settled(acc, FeedStmt(acc, Seq(a, b), n, q), Seq(a, b), q)
  {
    SeqFeed(acc, a, b, n, q);
    assert Fits(Seq(a, b), |q|);
    hide *;
    if OnlyJumps(Seq(a, b)) { JumpsSettle(acc, Seq(a, b), n, q); }
  }

  lemma {:induction false} SeqFeed(acc: Acc, a: Stmt, b: Stmt, n: nat, q: seq<Loop>)
    requires |q| <= NSWQ && Fits(a, |q|)
    ensures FeedStmt(acc, Seq(a, b), n, q) == FeedStmt(FeedStmt(acc, a, n, q), b, n + Labels(a), q)
  {
    Balanced(a, n, q);
    SeqUnfold(acc, a, b, n, q);
    hide *;
  }

  lemma {:induction false} SeqUnfold(acc: Acc, a: Stmt, b: Stmt, n: nat, q: seq<Loop>)
    ensures FeedStmt(acc, Seq(a, b), n, q) == FeedStmt(FeedStmt(acc, a, n, q), b, n + Labels(a), After(a, n, q))
  {
    hide After, Labels, Feed, FeedPlains, FeedForHead, Push, ForLabels, ForLoop;
  }

  lemma {:induction false} SepAfterClaim(acc: Acc, acc': Acc, st: Stmt, n: nat, hi: int, q: seq<Loop>)
    requires Sep(acc, n, hi, q) && Claim(acc, acc', st, n, q) && n + Labels(st) <= hi
    ensures Sep(acc', n + Labels(st), hi, q)
  {
    hide Sep, Grown, Settled, Safe;
    SepAfter(acc, acc', st, n, hi, q);
  }

  lemma {:induction false} SafeDoExpr(acc: Acc, e: Expr, n: nat, q: seq<Loop>)
    requires Sep(acc, n, n, q)
    ensures Claim(acc, FeedPlains(acc, e), Do(e), n, q)
  {
    PlainsSafe(acc, e, n, n, q);
  }

  lemma {:induction false} SafeLeaf(acc: Acc, st: Stmt, n: nat, q: seq<Loop>)
    requires (st.Empty? || st.Break? || st.Continue?) && Sep(acc, n, n, q) && |q| <= NSWQ && Fits(st, |q|)
    ensures Claim(acc, FeedStmt(acc, st, n, q), st, n, q)
  {
    if !st.Empty? {
      assert q[|q| - 1].loop in QL(q) && q[|q| - 1].exit in QL(q);
      JumpSafe(acc, if st.Break? then q[|q| - 1].exit else q[|q| - 1].loop);
    }
  }

  // ----- the whole compilation -----

  /** The peephole is safe on a compiled statement exactly when the statement has no
      bare break. */
  lemma {:induction false} SafeIffNoBareBreak(st: Stmt)
    requires Fits(st, 0)
    ensures SafeFusion(Lower(st, 0, [], Nil)) <==> !BareBreak(st)
  {
    hide *;
    var acc := Acc({}, {}, Idle);
    SepAtStart(st);
    var z := FeedStmt(acc, st, 0, []);
    StmtKeepsTotal(acc, st, 0, [], Nil);
    StmtSafe(acc, st, 0, []);
    SafeTotals(acc, z, st);
  }

  lemma {:induction false} SepAtStart(st: Stmt)
    ensures Sep(Acc({}, {}, Idle), 0, Labels(st), []) && 0 <= NSWQ
  {
    hide Labels;
  }

  lemma {:induction false} SafeTotals(acc: Acc, z: Acc, st: Stmt)
    requires acc == Acc({}, {}, Idle) && Total(acc, Lower(st, 0, [], Nil)) == Total(z, Nil) && Claim(acc, z, st, 0, [])
    ensures SafeFusion(Lower(st, 0, [], Nil)) <==> !BareBreak(st)
  {
    hide Lower, BareBreak, Grown, Labels;
    var p := Lower(st, 0, [], Nil);
    assert PL(z.p) == {};
    assert Total(acc, p).0 == Targets(Peep(Idle, p)) && Total(acc, p).1 == Fused(Idle, p);
    assert Total(z, Nil).0 == z.t && Total(z, Nil).1 == z.f;
  }

  /** Compiling a statement: lowering and peephole together preserve its meaning.
      The final code halts in a state exactly when the statement ends in it. */
  lemma {:induction false} CompilationPreserves<S>(cpu: Cpu<S>, st: Stmt, s: S, r: Outcome<S>)
    requires Fits(st, 0) && !BareBreak(st) && r != Running
    ensures var o := Peep(Idle, Lower(st, 0, [], Nil));
            Ends(cpu, o, o, s, r) <==> r.Halted? && exists k: nat :: Eval(cpu, st, s, k) == Fin(Norm, r.state)
  {
    var p := Lower(st, 0, [], Nil);
    StmtLabels.ProgramIsUnique(st);
    SafeIffNoBareBreak(st);
    PeepholePreserves(cpu, p, s, r);
    StmtProof.LoweringPreserves(cpu, st, s, r);
  }

  /** And a bare break is compiled into a jump to a label that is defined nowhere. */
  lemma {:induction false} BareBreakLosesLabel(st: Stmt)
    requires Fits(st, 0) && BareBreak(st)
    ensures var p := Lower(st, 0, [], Nil);
            exists l: Lbl :: l in Targets(Peep(Idle, p)) && l in LabelsOf(p) && l !in LabelsOf(Peep(Idle, p))
  {
    StmtLabels.ProgramIsUnique(st);
    SafeIffNoBareBreak(st);
    SafeFusionIsExact(Lower(st, 0, [], Nil));
  }

  /** `while (c) break;` in full: the exit label 2 is jumped to but gone. */
  lemma {:induction false} WhileBreakExample()
    ensures Peep(Idle, Lower(While([7], Break), 0, [], Nil)) == Cons(Label(1),
                 Cons(Plain(7), Cons(JumpIf(true, 2), Nil)))
  {
    assert [7][1..] == [];
    var c1 := Cons(Jump(2), Cons(Jump(1), Cons(Label(2), Nil)));
    assert ([] + [Loop(1, 2)])[0] == Loop(1, 2);
    assert Lower(While([7], Break), 0, [], Nil) == Cons(Label(1), Cons(Plain(7), Cons(JumpIf(false, 2), c1)));
    assert Peep(Idle, Nil) == Nil;
    assert Peep(CondJump(false, 2, 2), Cons(Label(2), Nil)) == Cons(JumpIf(true, 2), Nil);
    assert Peep(CondJump(false, 2, 2), Cons(Jump(1), Cons(Label(2), Nil))) == Cons(JumpIf(true, 2), Nil);
    assert Peep(Cond(false, 2), c1) == Cons(JumpIf(true, 2), Nil);
    assert Peep(Idle, Cons(JumpIf(false, 2), c1)) == Cons(JumpIf(true, 2), Nil);
    assert Peep(Idle, Cons(Plain(7), Cons(JumpIf(false, 2), c1))) == Cons(Plain(7), Cons(JumpIf(true, 2), Nil));
  }
}
