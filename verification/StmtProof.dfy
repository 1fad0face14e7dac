/** The lowered statement runs the statement: forward simulation, and divergence when
    the statement diverges. */
module StmtProof {
  import opened Common
  import opened Asm
  import opened Stmt
  import StmtLabels

  datatype Conf<S> = Conf(c: Code, s: S)

  function Step<S>(cpu: Cpu<S>, p: Code, a: Conf<S>): Option<Conf<S>> {
    match a.c
    case Nil => None
    case Cons(Plain(i), rest) => Some(Conf(rest, cpu.act(i, a.s)))
    case Cons(Label(_), rest) => Some(Conf(rest, a.s))
    case Cons(Jump(l), _) => Land(p, l, a.s)
    case Cons(JumpIf(b, l), rest) => if cpu.test(a.s) == b then Land(p, l, a.s) else Some(Conf(rest, a.s))
  }

  function Land<S>(p: Code, l: Lbl, s: S): Option<Conf<S>> {
    match Find(p, l)
    case None => None
    case Some(c) => Some(Conf(c, s))
  }

  /** `b` is where `a` is after exactly `m` steps. */
  predicate Reach<S(==)>(cpu: Cpu<S>, p: Code, a: Conf<S>, b: Conf<S>, m: nat)
    decreases m
  {
    if m == 0 then a == b
    else var a' := Step(cpu, p, a); a'.Some? && Reach(cpu, p, a'.value, b, m - 1)
  }

  lemma {:induction false} ReachTrans<S>(cpu: Cpu<S>, p: Code, a: Conf<S>, b: Conf<S>, c: Conf<S>, m: nat, j: nat)
    requires Reach(cpu, p, a, b, m) && Reach(cpu, p, b, c, j)
    ensures Reach(cpu, p, a, c, m + j)
    decreases m
  {
    if m > 0 { ReachTrans(cpu, p, Step(cpu, p, a).value, b, c, m - 1, j); }
  }

  /** Steps and fuel agree. */
  lemma {:induction false} ReachExec<S>(cpu: Cpu<S>, p: Code, a: Conf<S>, b: Conf<S>, m: nat, k: nat)
    requires Reach(cpu, p, a, b, m)
    ensures k >= m ==> Exec(cpu, p, a.c, a.s, k) == Exec(cpu, p, b.c, b.s, k - m)
    ensures k <= m ==> Exec(cpu, p, a.c, a.s, k) == Running
    decreases m
  {
    if m > 0 && k > 0 { ReachExec(cpu, p, Step(cpu, p, a).value, b, m - 1, k - 1); }
  }

  lemma {:induction false} ReachPlains<S>(cpu: Cpu<S>, p: Code, e: Expr, rest: Code, s: S)
    ensures Reach(cpu, p, Conf(Plains(e, rest), s), Conf(rest, RunPlain(cpu, e, s)), |e|)
    decreases e
  {
    if e != [] { ReachPlains(cpu, p, e[1..], rest, cpu.act(e[0], s)); }
  }

  lemma {:induction false} PlainsWithin(e: Expr, rest: Code, p: Code)
    requires Within(Plains(e, rest), p)
    ensures Within(rest, p)
    decreases e
  {
    if e != [] {
      WithinTail(Plains(e, rest), p);
      PlainsWithin(e[1..], rest, p);
    }
  }

  lemma {:induction false} ForHeadWithin(cond: Option<Expr>, inc: Option<Expr>, n: nat, body: Code, p: Code)
    requires Within(ForHead(cond, inc, n, body), p)
    ensures Within(body, p)
  {
    var h := ForHead(cond, inc, n, body);
    WithinTail(h, p);
    match (cond, inc)
    case (Some(c), None) =>
      PlainsWithin(c, Cons(JumpIf(false, n + 1), body), p);
      WithinTail(Cons(JumpIf(false, n + 1), body), p);
    case (None, None) =>
    case (Some(c), Some(i)) =>
      var c1 := Cons(Jump(n + 2), Cons(Label(n + 3), body));
      var c2 := Cons(Jump(n + 1), Cons(Label(n + 4), Plains(i, c1)));
      PlainsWithin(c, Cons(JumpIf(true, n + 3), c2), p);
      WithinTail(Cons(JumpIf(true, n + 3), c2), p);
      WithinTail(c2, p); WithinTail(c2.tail, p);
      PlainsWithin(i, c1, p);
      WithinTail(c1, p); WithinTail(c1.tail, p);
    case (None, Some(i)) =>
      var c1 := Cons(Label(n + 2), body);
      WithinTail(h.tail, p);
      PlainsWithin(i, c1, p);
      WithinTail(c1, p);
  }

  /** What follows a statement is a place in the program if the statement is. */
  lemma {:induction false} LowerWithin(st: Stmt, n: nat, q: seq<Loop>, rest: Code, p: Code)
    requires Within(Lower(st, n, q, rest), p)
    ensures Within(rest, p)
    decreases st
  {
    match st
    case Empty =>
    case Do(e) => PlainsWithin(e, rest, p);
    case Seq(a, b) =>
      var r := Lower(b, n + Labels(a), After(a, n, q), rest);
      LowerWithin(a, n, q, r, p);
      LowerWithin(b, n + Labels(a), After(a, n, q), rest, p);
    case If(c, yes) =>
      var r := Cons(Label(n + 1), rest);
      var j := Cons(JumpIf(false, n + 1), Lower(yes, n + 2, q, r));
      PlainsWithin(c, j, p); WithinTail(j, p);
      LowerWithin(yes, n + 2, q, r, p); WithinTail(r, p);
    case IfElse(c, yes, no) =>
      var r := Cons(Label(n + 2), rest);
      var e := Cons(Label(n + 1), Lower(no, n + 2 + Labels(yes), After(yes, n + 2, q), r));
      var j := Cons(JumpIf(false, n + 1), Lower(yes, n + 2, q, Cons(Jump(n + 2), e)));
      PlainsWithin(c, j, p); WithinTail(j, p);
      LowerWithin(yes, n + 2, q, Cons(Jump(n + 2), e), p); WithinTail(Cons(Jump(n + 2), e), p); WithinTail(e, p);
      LowerWithin(no, n + 2 + Labels(yes), After(yes, n + 2, q), r, p); WithinTail(r, p);
    case While(c, body) =>
      var q' := Push(q, Loop(n + 1, n + 2));
      var r := Cons(Jump(n + 1), Cons(Label(n + 2), rest));
      var j := Cons(JumpIf(false, n + 2), Lower(body, n + 2, q', r));
      WithinTail(Lower(st, n, q, rest), p);
      PlainsWithin(c, j, p); WithinTail(j, p);
      LowerWithin(body, n + 2, q', r, p); WithinTail(r, p); WithinTail(r.tail, p);
    case For(init, cond, inc, body) =>
      var l := ForLoop(n, cond, inc);
      var r := Cons(Jump(l.loop), Cons(Label(n + 1), rest));
      var b := Lower(body, n + ForLabels(cond, inc), Push(q, l), r);
      PlainsWithin(init, ForHead(cond, inc, n, b), p);
      ForHeadWithin(cond, inc, n, b, p);
      LowerWithin(body, n + ForLabels(cond, inc), Push(q, l), r, p); WithinTail(r, p); WithinTail(r.tail, p);
    case DoWhile(body, c) =>
      var q' := Push(q, Loop(n + 1, n + 2));
      var j := Cons(JumpIf(true, n + 3), Cons(Label(n + 2), rest));
      var r := Cons(Label(n + 1), Plains(c, j));
      WithinTail(Lower(st, n, q, rest), p);
      LowerWithin(body, n + 3, q', r, p); WithinTail(r, p);
      PlainsWithin(c, j, p); WithinTail(j, p); WithinTail(j.tail, p);
    case Break => if q != [] { WithinTail(Lower(st, n, q, rest), p); }
    case Continue => if q != [] { WithinTail(Lower(st, n, q, rest), p); }
  }

  /** Where a statement that ended in way `r` leaves the machine. */
  ghost predicate Arrives<S>(p: Code, q: seq<Loop>, rest: Code, r: Result<S>, d: Conf<S>, m: nat, k: nat) {
    match r
    case Timeout => m >= k
    case Fin(Norm, s) => d == Conf(rest, s)
    case Fin(Brk, s) => m >= 1 && d.s == s && q != [] && Find(p, q[|q| - 1].exit) == Some(d.c)
    case Fin(Cont, s) => m >= 1 && d.s == s && q != [] && Find(p, q[|q| - 1].loop) == Some(d.c)
  }

  /** The innermost loop's labels are defined. */
  ghost predicate Known(p: Code, q: seq<Loop>) {
    q != [] ==> Find(p, q[|q| - 1].exit).Some? && Find(p, q[|q| - 1].loop).Some?
  }

  /** Running the code of a statement does what the statement means. */
  lemma {:induction false} Sim<S>(cpu: Cpu<S>, p: Code, st: Stmt, n: nat, q: seq<Loop>, rest: Code, s: S, k: nat)
    returns (d: Conf<S>, m: nat)
    requires Unique(p) && Within(Lower(st, n, q, rest), p) && Known(p, q) && |q| <= NSWQ && Fits(st, |q|)
    ensures Reach(cpu, p, Conf(Lower(st, n, q, rest), s), d, m) && Arrives(p, q, rest, Eval(cpu, st, s, k), d, m, k)
    decreases k, st, 1
  {
    hide Within, Plains, RunPlain, Find, Unique, Labels, EvalLoop, EvalDo;
    var code := Lower(st, n, q, rest);
    match st
    case Empty => d, m := Conf(rest, s), 0;
    case Do(e) =>
      ReachPlains(cpu, p, e, rest, s);
      d, m := Conf(rest, RunPlain(cpu, e, s)), |e|;
    case Seq(a, b) =>
      ErrorFreeIsBalanced(a, n, q);
      var r := Lower(b, n + Labels(a), q, rest);
      d, m := Sim(cpu, p, a, n, q, r, s, k);
      var e := Eval(cpu, a, s, k);
      if e.Fin? && e.exit.Norm? {
        LowerWithin(a, n, q, r, p);
        var d', m' := Sim(cpu, p, b, n + Labels(a), q, rest, e.state, k);
        ReachTrans(cpu, p, Conf(code, s), d, d', m, m');
        d, m := d', m + m';
      }
    case If(c, yes) => d, m := SimIf(cpu, p, st, n, q, rest, s, k);
    case IfElse(c, yes, no) => d, m := SimIfElse(cpu, p, st, n, q, rest, s, k);
    case While(c, body) => d, m := SimWhile(cpu, p, st, n, q, rest, s, k);
    case For(init, cond, inc, body) => d, m := SimFor(cpu, p, st, n, q, rest, s, k);
    case DoWhile(body, c) =>
      d, m := SimDo(cpu, p, c, body, n, q, rest, s, k);
      m := m + 1;
    case Break => d, m := Conf(Find(p, q[|q| - 1].exit).value, s), 1;
      assert Reach(cpu, p, d, d, 0);
    case Continue => d, m := Conf(Find(p, q[|q| - 1].loop).value, s), 1;
      assert Reach(cpu, p, d, d, 0);
  }

  lemma {:induction false} SimIf<S>(cpu: Cpu<S>, p: Code, st: Stmt, n: nat, q: seq<Loop>, rest: Code, s: S, k: nat)
    returns (d: Conf<S>, m: nat)
    requires Unique(p) && Within(Lower(st, n, q, rest), p) && Known(p, q) && |q| <= NSWQ && Fits(st, |q|) && st.If?
    ensures Reach(cpu, p, Conf(Lower(st, n, q, rest), s), d, m) && Arrives(p, q, rest, Eval(cpu, st, s, k), d, m, k)
    decreases k, st, 0
  {
    var r := Cons(Label(n + 1), rest);
    var body := Lower(st.yes, n + 2, q, r);
    var j := Cons(JumpIf(false, n + 1), body);
    var s1 := RunPlain(cpu, st.c, s);
    ReachPlains(cpu, p, st.c, j, s);
    PlainsWithin(st.c, j, p);
    WithinTail(j, p);
    LowerWithin(st.yes, n + 2, q, r, p);
    FindHere(p, n + 1, rest);
    if cpu.test(s1) {
      d, m := Sim(cpu, p, st.yes, n + 2, q, r, s1, k);
      var e := Eval(cpu, st.yes, s1, k);
      if e.Fin? && e.exit.Norm? {
        d, m := Onward(cpu, p, Conf(body, s1), d, m);
      }
      assert Reach(cpu, p, Conf(j, s1), d, m + 1);
    } else {
      d, m := Conf(rest, s1), 0;
      assert Reach(cpu, p, Conf(j, s1), d, m + 1);
    }
    ReachTrans(cpu, p, Conf(Lower(st, n, q, rest), s), Conf(j, s1), d, |st.c|, m + 1);
    m := |st.c| + (m + 1);
  }

  /** One step before. */
  lemma {:induction false} Before<S>(cpu: Cpu<S>, p: Code, a: Conf<S>, b: Conf<S>, c: Conf<S>, m: nat)
    requires Step(cpu, p, a) == Some(b) && Reach(cpu, p, b, c, m)
    ensures Reach(cpu, p, a, c, m + 1)
  {
  }

  lemma {:induction false} Start<S>(cpu: Cpu<S>, p: Code, a: Conf<S>)
    ensures Reach(cpu, p, a, a, 0)
  {
  }

  /** One more step. */
  lemma {:induction false} Onward<S>(cpu: Cpu<S>, p: Code, a: Conf<S>, b: Conf<S>, m: nat) returns (c: Conf<S>, m': nat)
    requires Reach(cpu, p, a, b, m) && Step(cpu, p, b).Some?
    ensures c == Step(cpu, p, b).value && m' == m + 1 && Reach(cpu, p, a, c, m')
  {
    c, m' := Step(cpu, p, b).value, m + 1;
    assert Reach(cpu, p, c, c, 0);
    assert Reach(cpu, p, b, c, 1);
    ReachTrans(cpu, p, a, b, c, m, 1);
  }

  lemma {:induction false} IfElseLayout(c: Expr, yes: Stmt, no: Stmt, n: nat, q: seq<Loop>, rest: Code, p: Code)
    requires Unique(p) && |q| <= NSWQ && Fits(yes, |q|)
    requires Within(Lower(IfElse(c, yes, no), n, q, rest), p)
    ensures var r := Cons(Label(n + 2), rest);
            var els := Lower(no, n + 2 + Labels(yes), q, r);
            var e := Cons(Jump(n + 2), Cons(Label(n + 1), els));
            && Lower(IfElse(c, yes, no), n, q, rest) == Plains(c, Cons(JumpIf(false, n + 1), Lower(yes, n + 2, q, e)))
            && Within(Lower(yes, n + 2, q, e), p) && Within(els, p)
            && Find(p, n + 1) == Some(els) && Find(p, n + 2) == Some(rest)
  {
    ErrorFreeIsBalanced(yes, n + 2, q);
    var r := Cons(Label(n + 2), rest);
    var els := Lower(no, n + 2 + Labels(yes), q, r);
    var e := Cons(Jump(n + 2), Cons(Label(n + 1), els));
    var j := Cons(JumpIf(false, n + 1), Lower(yes, n + 2, q, e));
    PlainsWithin(c, j, p);
    WithinTail(j, p);
    LowerWithin(yes, n + 2, q, e, p);
    WithinTail(e, p);
    WithinTail(e.tail, p);
    LowerWithin(no, n + 2 + Labels(yes), q, r, p);
    FindHere(p, n + 1, els);
    FindHere(p, n + 2, rest);
  }

  lemma {:induction false} SimIfElse<S>(cpu: Cpu<S>, p: Code, st: Stmt, n: nat, q: seq<Loop>, rest: Code, s: S, k: nat)
    returns (d: Conf<S>, m: nat)
    requires Unique(p) && Within(Lower(st, n, q, rest), p) && Known(p, q) && |q| <= NSWQ && Fits(st, |q|) && st.IfElse?
    ensures Reach(cpu, p, Conf(Lower(st, n, q, rest), s), d, m) && Arrives(p, q, rest, Eval(cpu, st, s, k), d, m, k)
    decreases k, st, 0
  {
    hide Lower, Within, Plains, RunPlain, Find, Unique, Labels;
    var r := Cons(Label(n + 2), rest);
    var no := Lower(st.no, n + 2 + Labels(st.yes), q, r);
    var e := Cons(Jump(n + 2), Cons(Label(n + 1), no));
    var yes := Lower(st.yes, n + 2, q, e);
    var j := Cons(JumpIf(false, n + 1), yes);
    var s1 := RunPlain(cpu, st.c, s);
    ReachPlains(cpu, p, st.c, j, s);
    IfElseLayout(st.c, st.yes, st.no, n, q, rest, p);
    if cpu.test(s1) {
      d, m := Sim(cpu, p, st.yes, n + 2, q, e, s1, k);
      var v := Eval(cpu, st.yes, s1, k);
      if v.Fin? && v.exit.Norm? { d, m := Onward(cpu, p, Conf(yes, s1), d, m); }
    } else {
      d, m := Sim(cpu, p, st.no, n + 2 + Labels(st.yes), q, r, s1, k);
      var v := Eval(cpu, st.no, s1, k);
      if v.Fin? && v.exit.Norm? { d, m := Onward(cpu, p, Conf(no, s1), d, m); }
    }
    assert Reach(cpu, p, Conf(j, s1), d, m + 1);
    ReachTrans(cpu, p, Conf(Lower(st, n, q, rest), s), Conf(j, s1), d, |st.c|, m + 1);
    m := |st.c| + (m + 1);
  }

  /** A loop body: it breaks to what follows the loop, or goes on at the loop label. */
  lemma {:induction false} SimBody<S>(cpu: Cpu<S>, p: Code, body: Stmt, n: nat, q: seq<Loop>, l: Loop, rest: Code,
                                      again: Code, s: S, k: nat)
    returns (d: Conf<S>, m: nat)
    requires Unique(p) && |q| < NSWQ && Fits(body, |q| + 1)
    requires Within(Lower(body, n, q + [l], Cons(Jump(l.loop), Cons(Label(l.exit), rest))), p)
    requires Find(p, l.exit) == Some(rest) && Find(p, l.loop) == Some(again)
    ensures Reach(cpu, p, Conf(Lower(body, n, q + [l], Cons(Jump(l.loop), Cons(Label(l.exit), rest))), s), d, m)
    ensures match Eval(cpu, body, s, k)
            case Timeout => m >= k
            case Fin(Brk, s2) => d == Conf(rest, s2)
            case Fin(_, s2) => m >= 1 && d == Conf(again, s2)
    decreases k, body, 2
  {
    var r := Cons(Jump(l.loop), Cons(Label(l.exit), rest));
    d, m := Sim(cpu, p, body, n, q + [l], r, s, k);
    var v := Eval(cpu, body, s, k);
    if v.Fin? && v.exit.Norm? { d, m := Onward(cpu, p, Conf(Lower(body, n, q + [l], r), s), d, m); }
  }

  lemma {:induction false} TopLayout(c: Expr, body: Stmt, n: nat, q: seq<Loop>, l: Loop, rest: Code, p: Code)
    requires Unique(p)
    requires var b := Lower(body, n, q + [l], Cons(Jump(l.loop), Cons(Label(l.exit), rest)));
             Within(Cons(Label(l.loop), Plains(c, Cons(JumpIf(false, l.exit), b))), p)
    ensures var r := Cons(Jump(l.loop), Cons(Label(l.exit), rest));
            var b := Lower(body, n, q + [l], r);
            && Within(b, p) && Find(p, l.exit) == Some(rest)
            && Find(p, l.loop) == Some(Plains(c, Cons(JumpIf(false, l.exit), b)))
  {
    var r := Cons(Jump(l.loop), Cons(Label(l.exit), rest));
    var j := Cons(JumpIf(false, l.exit), Lower(body, n, q + [l], r));
    WithinTail(Cons(Label(l.loop), Plains(c, j)), p);
    PlainsWithin(c, j, p);
    WithinTail(j, p);
    LowerWithin(body, n, q + [l], r, p);
    WithinTail(r, p);
    FindHere(p, l.exit, rest);
    FindHere(p, l.loop, Plains(c, j));
  }

  /** The loop with its test at the top and no increment, entered after its label. */
  lemma {:induction false} SimTop<S>(cpu: Cpu<S>, p: Code, c: Expr, body: Stmt, n: nat, q: seq<Loop>, l: Loop,
                                     rest: Code, b: Code, s: S, k: nat)
    returns (d: Conf<S>, m: nat)
    requires Unique(p) && |q| < NSWQ && Fits(body, |q| + 1)
    requires b == Lower(body, n, q + [l], Cons(Jump(l.loop), Cons(Label(l.exit), rest))) && Within(b, p)
    requires Find(p, l.exit) == Some(rest) && Find(p, l.loop) == Some(Plains(c, Cons(JumpIf(false, l.exit), b)))
    ensures Reach(cpu, p, Conf(Plains(c, Cons(JumpIf(false, l.exit), b)), s), d, m)
    ensures Arrives(p, q, rest, EvalLoop(cpu, Some(c), None, body, s, k), d, m, k)
    decreases k, body, 3
  {
    hide Lower, Within, Plains, RunPlain, Find, Unique, Eval, Fits, Reach;
    var j := Cons(JumpIf(false, l.exit), b);
    var top := Plains(c, j);
    d, m := Conf(top, s), 0;
    Start(cpu, p, d);
    if k > 0 {
      var s1 := RunPlain(cpu, c, s);
      ReachPlains(cpu, p, c, j, s);
      d, m := Onward(cpu, p, Conf(top, s), Conf(j, s1), |c|);
      if cpu.test(s1) {
        var db, mb := SimBody(cpu, p, body, n, q, l, rest, top, s1, k);
        ReachTrans(cpu, p, Conf(top, s), d, db, m, mb);
        d, m := db, m + mb;
        var v := Eval(cpu, body, s1, k);
        if v.Fin? && !v.exit.Brk? {
          var d', m' := SimTop(cpu, p, c, body, n, q, l, rest, b, v.state, k - 1);
          ReachTrans(cpu, p, Conf(top, s), db, d', m, m');
          d, m := d', m + m';
        }
      }
    }
  }

  lemma {:induction false} SimWhile<S>(cpu: Cpu<S>, p: Code, st: Stmt, n: nat, q: seq<Loop>, rest: Code, s: S, k: nat)
    returns (d: Conf<S>, m: nat)
    requires Unique(p) && Within(Lower(st, n, q, rest), p) && Known(p, q) && |q| <= NSWQ && Fits(st, |q|) && st.While?
    ensures Reach(cpu, p, Conf(Lower(st, n, q, rest), s), d, m) && Arrives(p, q, rest, Eval(cpu, st, s, k), d, m, k)
    decreases k, st, 0
  {
    var l := Loop(n + 1, n + 2);
    TopLayout(st.c, st.body, n + 2, q, l, rest, p);
    var b := Lower(st.body, n + 2, q + [l], Cons(Jump(n + 1), Cons(Label(n + 2), rest)));
    d, m := SimTop(cpu, p, st.c, st.body, n + 2, q, l, rest, b, s, k);
    m := m + 1;
  }

  /** The loop with neither test nor increment, entered after its label. */
  lemma {:induction false} SimForever<S>(cpu: Cpu<S>, p: Code, body: Stmt, n: nat, q: seq<Loop>, l: Loop, rest: Code,
                                         s: S, k: nat)
    returns (d: Conf<S>, m: nat)
    requires Unique(p) && |q| < NSWQ && Fits(body, |q| + 1)
    requires Within(Cons(Label(l.loop), Lower(body, n, q + [l], Cons(Jump(l.loop), Cons(Label(l.exit), rest)))), p)
    ensures Reach(cpu, p, Conf(Lower(body, n, q + [l], Cons(Jump(l.loop), Cons(Label(l.exit), rest))), s), d, m)
    ensures Arrives(p, q, rest, EvalLoop(cpu, None, None, body, s, k), d, m, k)
    decreases k, body, 3
  {
    var r := Cons(Jump(l.loop), Cons(Label(l.exit), rest));
    var b := Lower(body, n, q + [l], r);
    d, m := Conf(b, s), 0;
    if k > 0 {
      WithinTail(Cons(Label(l.loop), b), p);
      LowerWithin(body, n, q + [l], r, p);
      WithinTail(r, p);
      FindHere(p, l.exit, rest);
      FindHere(p, l.loop, b);
      d, m := SimBody(cpu, p, body, n, q, l, rest, b, s, k);
      var v := Eval(cpu, body, s, k);
      if v.Fin? && !v.exit.Brk? {
        var d', m' := SimForever(cpu, p, body, n, q, l, rest, v.state, k - 1);
        ReachTrans(cpu, p, Conf(b, s), d, d', m, m');
        d, m := d', m + m';
      }
    }
  }

  lemma {:induction false} FullLayout(c: Expr, i: Expr, n: nat, b: Code, p: Code)
    requires Unique(p) && Within(ForHead(Some(c), Some(i), n, b), p)
    ensures var I := Plains(i, Cons(Jump(n + 2), Cons(Label(n + 3), b)));
            && Find(p, n + 2) == Some(Plains(c, Cons(JumpIf(true, n + 3), Cons(Jump(n + 1), Cons(Label(n + 4), I)))))
            && Find(p, n + 3) == Some(b) && Find(p, n + 4) == Some(I) && Within(b, p)
  {
    var c1 := Cons(Jump(n + 2), Cons(Label(n + 3), b));
    var c2 := Cons(Jump(n + 1), Cons(Label(n + 4), Plains(i, c1)));
    var h := ForHead(Some(c), Some(i), n, b);
    FindHere(p, n + 2, h.tail);
    WithinTail(h, p);
    PlainsWithin(c, Cons(JumpIf(true, n + 3), c2), p);
    WithinTail(Cons(JumpIf(true, n + 3), c2), p);
    WithinTail(c2, p);
    FindHere(p, n + 4, Plains(i, c1));
    WithinTail(c2.tail, p);
    PlainsWithin(i, c1, p);
    WithinTail(c1, p);
    FindHere(p, n + 3, b);
    WithinTail(c1.tail, p);
  }

  /** The full for loop, entered at its test. */
  lemma {:induction false} ForTest<S>(cpu: Cpu<S>, p: Code, c: Expr, n: nat, rest: Code, b: Code, again: Code, s: S)
    returns (d: Conf<S>, m: nat)
    requires Find(p, n + 1) == Some(rest) && Find(p, n + 3) == Some(b)
    ensures var top := Plains(c, Cons(JumpIf(true, n + 3), Cons(Jump(n + 1), Cons(Label(n + 4), again))));
            var s' := RunPlain(cpu, c, s);
            m > 0 && d == Conf(if cpu.test(s') then b else rest, s') && Reach(cpu, p, Conf(top, s), d, m)
  {
    hide Plains, RunPlain, Find, Reach;
    var out := Cons(Jump(n + 1), Cons(Label(n + 4), again));
    var j := Cons(JumpIf(true, n + 3), out);
    var a, s' := Conf(Plains(c, j), s), RunPlain(cpu, c, s);
    ReachPlains(cpu, p, c, j, s);
    d, m := Onward(cpu, p, a, Conf(j, s'), |c|);
    if !cpu.test(s') { d, m := Onward(cpu, p, a, Conf(out, s'), m); }
  }

  lemma {:induction false} SimFull<S>(cpu: Cpu<S>, p: Code, c: Expr, i: Expr, body: Stmt, n: nat, q: seq<Loop>,
                                      rest: Code, b: Code, again: Code, s: S, k: nat)
    returns (d: Conf<S>, m: nat)
    requires Unique(p) && |q| < NSWQ && Fits(body, |q| + 1)
    requires b == Lower(body, n + 4, q + [Loop(n + 4, n + 1)], Cons(Jump(n + 4), Cons(Label(n + 1), rest)))
    requires Within(b, p)
    requires again == Plains(i, Cons(Jump(n + 2), Cons(Label(n + 3), b)))
    requires Find(p, n + 1) == Some(rest) && Find(p, n + 3) == Some(b) && Find(p, n + 4) == Some(again)
    requires Find(p, n + 2) == Some(Plains(c, Cons(JumpIf(true, n + 3), Cons(Jump(n + 1), Cons(Label(n + 4), again)))))
    ensures Reach(cpu, p, Conf(Plains(c, Cons(JumpIf(true, n + 3), Cons(Jump(n + 1), Cons(Label(n + 4), again)))), s),
                  d, m)
    ensures Arrives(p, q, rest, EvalLoop(cpu, Some(c), Some(i), body, s, k), d, m, k)
    decreases k, body, 3
  {
    hide Lower, Within, Plains, RunPlain, Find, Unique, Eval, Fits, Reach;
    var l := Loop(n + 4, n + 1);
    var top := Plains(c, Cons(JumpIf(true, n + 3), Cons(Jump(n + 1), Cons(Label(n + 4), again))));
    d, m := Conf(top, s), 0;
    Start(cpu, p, d);
    if k > 0 {
      var s1 := RunPlain(cpu, c, s);
      d, m := ForTest(cpu, p, c, n, rest, b, again, s);
      if cpu.test(s1) {
        var db, mb := SimBody(cpu, p, body, n + 4, q, l, rest, again, s1, k);
        ReachTrans(cpu, p, Conf(top, s), Conf(b, s1), db, m, mb);
        d, m := db, m + mb;
        var v := Eval(cpu, body, s1, k);
        if v.Fin? && !v.exit.Brk? {
          d, m := SimAgain(cpu, p, i, n + 2, Cons(Label(n + 3), b), top, Conf(top, s), v.state, m);
          var d', m' := SimFull(cpu, p, c, i, body, n, q, rest, b, again, d.s, k - 1);
          ReachTrans(cpu, p, Conf(top, s), d, d', m, m');
          d, m := d', m + m';
        }
      }
    }
  }

  /** From the increment back to the test. */
  lemma {:induction false} SimAgain<S>(cpu: Cpu<S>, p: Code, i: Expr, t: Lbl, rest: Code, top: Code, a: Conf<S>, s: S,
                                       m: nat)
    returns (d: Conf<S>, m': nat)
    requires Find(p, t) == Some(top) && Reach(cpu, p, a, Conf(Plains(i, Cons(Jump(t), rest)), s), m)
    ensures d == Conf(top, RunPlain(cpu, i, s)) && m' == m + |i| + 1 && Reach(cpu, p, a, d, m')
  {
    var j := Cons(Jump(t), rest);
    ReachPlains(cpu, p, i, j, s);
    ReachTrans(cpu, p, a, Conf(Plains(i, j), s), Conf(j, RunPlain(cpu, i, s)), m, |i|);
    d, m' := Onward(cpu, p, a, Conf(j, RunPlain(cpu, i, s)), m + |i|);
  }

  lemma {:induction false} NoTestLayout(i: Expr, n: nat, b: Code, p: Code)
    requires Unique(p) && Within(ForHead(None, Some(i), n, b), p)
    ensures Find(p, n + 2) == Some(b) && Find(p, n + 3) == Some(Plains(i, Cons(Label(n + 2), b))) && Within(b, p)
  {
    var c1 := Cons(Label(n + 2), b);
    var h := ForHead(None, Some(i), n, b);
    WithinTail(h, p);
    FindHere(p, n + 3, Plains(i, c1));
    WithinTail(h.tail, p);
    PlainsWithin(i, c1, p);
    FindHere(p, n + 2, b);
    WithinTail(c1, p);
  }

  /** The for loop with an increment and no test, entered at its body. */
  lemma {:induction false} SimNoTest<S>(cpu: Cpu<S>, p: Code, i: Expr, body: Stmt, n: nat, q: seq<Loop>, rest: Code,
                                        b: Code, s: S, k: nat)
    returns (d: Conf<S>, m: nat)
    requires Unique(p) && |q| < NSWQ && Fits(body, |q| + 1)
    requires b == Lower(body, n + 3, q + [Loop(n + 3, n + 1)], Cons(Jump(n + 3), Cons(Label(n + 1), rest)))
    requires Within(b, p)
    requires Find(p, n + 1) == Some(rest) && Find(p, n + 3) == Some(Plains(i, Cons(Label(n + 2), b)))
    ensures Reach(cpu, p, Conf(b, s), d, m)
    ensures Arrives(p, q, rest, EvalLoop(cpu, None, Some(i), body, s, k), d, m, k)
    decreases k, body, 3
  {
    hide Lower, Within, Plains, RunPlain, Find, Unique, Eval, Fits, Reach;
    var c1 := Cons(Label(n + 2), b);
    d, m := Conf(b, s), 0;
    Start(cpu, p, d);
    if k > 0 {
      d, m := SimBody(cpu, p, body, n + 3, q, Loop(n + 3, n + 1), rest, Plains(i, c1), s, k);
      var v := Eval(cpu, body, s, k);
      if v.Fin? && !v.exit.Brk? {
        var s2 := RunPlain(cpu, i, v.state);
        ReachPlains(cpu, p, i, c1, v.state);
        ReachTrans(cpu, p, Conf(b, s), d, Conf(c1, s2), m, |i|);
        d, m := Onward(cpu, p, Conf(b, s), Conf(c1, s2), m + |i|);
        var d', m' := SimNoTest(cpu, p, i, body, n, q, rest, b, s2, k - 1);
        ReachTrans(cpu, p, Conf(b, s), d, d', m, m');
        d, m := d', m + m';
      }
    }
  }

  /** A for loop after its initialisation, in each of its four layouts. */
  lemma {:induction false} SimHead<S>(cpu: Cpu<S>, p: Code, cond: Option<Expr>, inc: Option<Expr>, body: Stmt, n: nat,
                                      q: seq<Loop>, rest: Code, b: Code, s: S, k: nat)
    returns (d: Conf<S>, m: nat)
    requires Unique(p) && |q| < NSWQ && Fits(body, |q| + 1)
    requires b == Lower(body, n + ForLabels(cond, inc), q + [ForLoop(n, cond, inc)],
                        Cons(Jump(n + ForLabels(cond, inc)), Cons(Label(n + 1), rest)))
    requires Within(ForHead(cond, inc, n, b), p) && Within(b, p) && Find(p, n + 1) == Some(rest)
    ensures Reach(cpu, p, Conf(ForHead(cond, inc, n, b), s), d, m)
    ensures Arrives(p, q, rest, EvalLoop(cpu, cond, inc, body, s, k), d, m, k)
    decreases k, body, 4
  {
    hide Lower, Within, Plains, RunPlain, Find, Unique, Fits, Reach, EvalLoop;
    var l := ForLoop(n, cond, inc);
    var h := ForHead(cond, inc, n, b);
    match (cond, inc)
    case (Some(c), None) =>
      FindHere(p, n + 2, h.tail);
      d, m := SimTop(cpu, p, c, body, n + 2, q, l, rest, b, s, k);
      Before(cpu, p, Conf(h, s), Conf(h.tail, s), d, m);
      m := m + 1;
    case (None, None) =>
      d, m := SimForever(cpu, p, body, n + 2, q, l, rest, s, k);
      Before(cpu, p, Conf(h, s), Conf(b, s), d, m);
      m := m + 1;
    case (Some(c), Some(i)) =>
      FullLayout(c, i, n, b, p);
      d, m := SimFull(cpu, p, c, i, body, n, q, rest, b, Find(p, n + 4).value, s, k);
      Before(cpu, p, Conf(h, s), Conf(h.tail, s), d, m);
      m := m + 1;
    case (None, Some(i)) =>
      NoTestLayout(i, n, b, p);
      d, m := SimNoTest(cpu, p, i, body, n, q, rest, b, s, k);
      Before(cpu, p, Conf(h, s), Conf(b, s), d, m);
      m := m + 1;
  }

  lemma {:induction false} ForLayout(init: Expr, cond: Option<Expr>, inc: Option<Expr>, body: Stmt, n: nat,
                                     q: seq<Loop>, rest: Code, p: Code)
    requires Unique(p) && |q| < NSWQ && Within(Lower(For(init, cond, inc, body), n, q, rest), p)
    ensures var b := Lower(body, n + ForLabels(cond, inc), q + [ForLoop(n, cond, inc)],
                           Cons(Jump(n + ForLabels(cond, inc)), Cons(Label(n + 1), rest)));
            && Lower(For(init, cond, inc, body), n, q, rest) == Plains(init, ForHead(cond, inc, n, b))
            && Within(ForHead(cond, inc, n, b), p) && Within(b, p) && Find(p, n + 1) == Some(rest)
  {
    var nb, l := n + ForLabels(cond, inc), ForLoop(n, cond, inc);
    var r := Cons(Jump(nb), Cons(Label(n + 1), rest));
    var b := Lower(body, nb, q + [l], r);
    PlainsWithin(init, ForHead(cond, inc, n, b), p);
    ForHeadWithin(cond, inc, n, b, p);
    LowerWithin(body, nb, q + [l], r, p);
    WithinTail(r, p);
    FindHere(p, n + 1, rest);
  }

  lemma {:induction false} SimFor<S>(cpu: Cpu<S>, p: Code, st: Stmt, n: nat, q: seq<Loop>, rest: Code, s: S, k: nat)
    returns (d: Conf<S>, m: nat)
    requires Unique(p) && Within(Lower(st, n, q, rest), p) && Known(p, q) && |q| <= NSWQ && Fits(st, |q|) && st.For?
    ensures Reach(cpu, p, Conf(Lower(st, n, q, rest), s), d, m) && Arrives(p, q, rest, Eval(cpu, st, s, k), d, m, k)
    decreases k, st, 0
  {
    hide Lower, Within, Plains, RunPlain, Find, Unique, Reach, EvalLoop;
    var For(init, cond, inc, body) := st;
    var b := Lower(body, n + ForLabels(cond, inc), q + [ForLoop(n, cond, inc)],
                   Cons(Jump(n + ForLabels(cond, inc)), Cons(Label(n + 1), rest)));
    var h := ForHead(cond, inc, n, b);
    var s0 := RunPlain(cpu, init, s);
    ForLayout(init, cond, inc, body, n, q, rest, p);
    ReachPlains(cpu, p, init, h, s);
    var d', m' := SimHead(cpu, p, cond, inc, body, n, q, rest, b, s0, k);
    ReachTrans(cpu, p, Conf(Lower(st, n, q, rest), s), Conf(h, s0), d', |init|, m');
    d, m := d', |init| + m';
  }

  lemma {:induction false} DoLayout(c: Expr, body: Stmt, n: nat, q: seq<Loop>, rest: Code, p: Code)
    requires Unique(p) && |q| < NSWQ && Within(Lower(DoWhile(body, c), n, q, rest), p)
    ensures var test := Plains(c, Cons(JumpIf(true, n + 3), Cons(Label(n + 2), rest)));
            var b := Lower(body, n + 3, q + [Loop(n + 1, n + 2)], Cons(Label(n + 1), test));
            && Lower(DoWhile(body, c), n, q, rest) == Cons(Label(n + 3), b) && Within(b, p)
            && Find(p, n + 3) == Some(b) && Find(p, n + 1) == Some(test) && Find(p, n + 2) == Some(rest)
  {
    var j := Cons(JumpIf(true, n + 3), Cons(Label(n + 2), rest));
    var test := Plains(c, j);
    var b := Lower(body, n + 3, q + [Loop(n + 1, n + 2)], Cons(Label(n + 1), test));
    FindHere(p, n + 3, b);
    WithinTail(Cons(Label(n + 3), b), p);
    LowerWithin(body, n + 3, q + [Loop(n + 1, n + 2)], Cons(Label(n + 1), test), p);
    FindHere(p, n + 1, test);
    WithinTail(Cons(Label(n + 1), test), p);
    PlainsWithin(c, j, p);
    WithinTail(j, p);
    FindHere(p, n + 2, rest);
  }

  /** The test at the end of a do loop: back to the body, or on. */
  lemma {:induction false} DoTest<S>(cpu: Cpu<S>, p: Code, c: Expr, n: nat, rest: Code, b: Code, a: Conf<S>, s: S,
                                     m: nat)
    returns (d: Conf<S>, m': nat)
    requires Find(p, n + 3) == Some(b)
    requires Reach(cpu, p, a, Conf(Plains(c, Cons(JumpIf(true, n + 3), Cons(Label(n + 2), rest))), s), m)
    ensures var s' := RunPlain(cpu, c, s);
            m' > m && d == Conf(if cpu.test(s') then b else rest, s') && Reach(cpu, p, a, d, m')
  {
    hide Plains, RunPlain, Find, Reach;
    var j := Cons(JumpIf(true, n + 3), Cons(Label(n + 2), rest));
    var s' := RunPlain(cpu, c, s);
    ReachPlains(cpu, p, c, j, s);
    ReachTrans(cpu, p, a, Conf(Plains(c, j), s), Conf(j, s'), m, |c|);
    d, m' := Onward(cpu, p, a, Conf(j, s'), m + |c|);
    if !cpu.test(s') { d, m' := Onward(cpu, p, a, d, m'); }
  }

  /** The do loop, entered after its label. */
  lemma {:induction false} SimDo<S>(cpu: Cpu<S>, p: Code, c: Expr, body: Stmt, n: nat, q: seq<Loop>, rest: Code, s: S,
                                    k: nat)
    returns (d: Conf<S>, m: nat)
    requires Unique(p) && |q| < NSWQ && Fits(body, |q| + 1) && Within(Lower(DoWhile(body, c), n, q, rest), p)
    ensures Reach(cpu, p, Conf(Lower(DoWhile(body, c), n, q, rest).tail, s), d, m)
    ensures Arrives(p, q, rest, EvalDo(cpu, body, c, s, k), d, m, k)
    decreases k, body, 3
  {
    var q' := q + [Loop(n + 1, n + 2)];
    var j := Cons(JumpIf(true, n + 3), Cons(Label(n + 2), rest));
    var test := Plains(c, j);
    var e := Cons(Label(n + 1), test);
    var b := Lower(body, n + 3, q', e);
    DoLayout(c, body, n, q, rest, p);
    hide Lower, Within, Plains, RunPlain, Find, Unique, Eval, Fits, Reach;
    d, m := Conf(b, s), 0;
    Start(cpu, p, d);
    if k > 0 {
      d, m := Sim(cpu, p, body, n + 3, q', e, s, k);
      var v := Eval(cpu, body, s, k);
      if v.Fin? && v.exit.Norm? { d, m := Onward(cpu, p, Conf(b, s), d, m); }
      if v.Fin? && !v.exit.Brk? {
        d, m := DoTest(cpu, p, c, n, rest, b, Conf(b, s), v.state, m);
        if cpu.test(d.s) {
          var d', m' := SimDo(cpu, p, c, body, n, q, rest, d.s, k - 1);
          ReachTrans(cpu, p, Conf(b, s), d, d', m, m');
          d, m := d', m + m';
        }
      }
    }
  }

  /** The emitted code halts in a state exactly when the statement ends in it; so it
      runs for ever exactly when the statement does, and never jumps away. */
  lemma {:induction false} LoweringPreserves<S>(cpu: Cpu<S>, st: Stmt, s: S, r: Outcome<S>)
    requires Fits(st, 0) && r != Running
    ensures var p := Lower(st, 0, [], Nil);
            Ends(cpu, p, p, s, r) <==> r.Halted? && exists k: nat :: Eval(cpu, st, s, k) == Fin(Norm, r.state)
  {
    var p := Lower(st, 0, [], Nil);
    StmtLabels.ProgramIsUnique(st);
    assert Within(p, p);
    if Ends(cpu, p, p, s, r) {
      var k: nat :| Exec(cpu, p, p, s, k) == r;
      var d, m := Sim(cpu, p, st, 0, [], Nil, s, k);
      ReachExec(cpu, p, Conf(p, s), d, m, k);
      ReachExec(cpu, p, Conf(p, s), d, m, m + 1);
      MoreFuel(cpu, p, p, s, k, m + 1 + k);
      MoreFuel(cpu, p, p, s, m + 1, m + 1 + k);
      assert r.Halted? && Eval(cpu, st, s, k) == Fin(Norm, r.state);
    }
    if r.Halted? && exists k: nat :: Eval(cpu, st, s, k) == Fin(Norm, r.state) {
      var k: nat :| Eval(cpu, st, s, k) == Fin(Norm, r.state);
      var d, m := Sim(cpu, p, st, 0, [], Nil, s, k);
      ReachExec(cpu, p, Conf(p, s), d, m, m + 1);
      assert Exec(cpu, p, p, s, m + 1) == r;
    }
  }
}
