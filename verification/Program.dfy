/** Statements together with the code of their expressions: what the compiler emits for a
    C statement, down to single instructions, runs as the statement says. */
module Program {
  import opened Common
  import opened Expr
  import opened ExprGen
  import A = Asm
  import S = Stmt
  import StmtProof
  import P = Peephole
  import StmtPeep

  // ----- the source -----

  datatype C =
    | Skip
    | Block(assigns: seq<Assign>)
    | Then(first: C, second: C)
    | If(c: Exp, yes: C)
    | IfElse(c: Exp, yes: C, no: C)
    | While(c: Exp, body: C)
    | For(init: seq<Assign>, cond: Option<Exp>, inc: Option<seq<Assign>>, body: C)
    | DoWhile(body: C, c: Exp)
    | Break
    | Continue

  datatype Outcome = OutOfTime | Undefined | Done(exit: S.Exit, mem: Memory)

  /** A statement run on memory with at most `k` iterations of each loop level; undefined
      when it divides by zero. */
  function Eval(c: C, m: Memory, k: nat): Outcome
    decreases k, c, 0
  {
    match c
    case Skip => Done(S.Norm, m)
    case Block(a) => if AllDefined(a, m) then Done(S.Norm, Meaning(a, m)) else Undefined
    case Then(a, b) =>
      var r := Eval(a, m, k);
      if r.Done? && r.exit.Norm? then Eval(b, r.mem, k) else r
    case If(e, yes) =>
      if !Defined(e, m) then Undefined else if Val(e, m) != 0 then Eval(yes, m, k) else Done(S.Norm, m)
    case IfElse(e, yes, no) =>
      if !Defined(e, m) then Undefined else if Val(e, m) != 0 then Eval(yes, m, k) else Eval(no, m, k)
    case While(e, body) => EvalLoop(Some(e), None, body, m, k)
    case For(init, cond, inc, body) =>
      if AllDefined(init, m) then EvalLoop(cond, inc, body, Meaning(init, m), k) else Undefined
    case DoWhile(body, e) => EvalDo(body, e, m, k)
    case Break => Done(S.Brk, m)
    case Continue => Done(S.Cont, m)
  }

  function EvalLoop(cond: Option<Exp>, inc: Option<seq<Assign>>, body: C, m: Memory, k: nat): Outcome
    decreases k, body, 1
  {
    if k == 0 then OutOfTime
    else if cond.Some? && !Defined(cond.value, m) then Undefined
    else if cond.Some? && Val(cond.value, m) == 0 then Done(S.Norm, m)
    else match Eval(body, m, k)
      case OutOfTime => OutOfTime
      case Undefined => Undefined
      case Done(Brk, m2) => Done(S.Norm, m2)
      case Done(_, m2) =>
        if inc.None? then EvalLoop(cond, inc, body, m2, k - 1)
        else if AllDefined(inc.value, m2) then EvalLoop(cond, inc, body, Meaning(inc.value, m2), k - 1)
        else Undefined
  }

  function EvalDo(body: C, e: Exp, m: Memory, k: nat): Outcome
    decreases k, body, 1
  {
    if k == 0 then OutOfTime
    else match Eval(body, m, k)
      case OutOfTime => OutOfTime
      case Undefined => Undefined
      case Done(Brk, m2) => Done(S.Norm, m2)
      case Done(_, m2) =>
        if !Defined(e, m2) then Undefined
        else if Val(e, m2) != 0 then EvalDo(body, e, m2, k - 1) else Done(S.Norm, m2)
  }

  // ----- the machine: plain instructions are numbered by a table -----

  function Machine(table: seq<Ins>): A.Cpu<State> {
    A.Cpu((i: nat, s: State) => if i < |table| then Exec1(table[i], s) else s, (s: State) => s.zero == Is(false))
  }

  predicate InTable(table: seq<Ins>, ids: seq<nat>) {
    forall i :: 0 <= i < |ids| ==> ids[i] < |table|
  }

  function Decode(table: seq<Ins>, ids: seq<nat>): seq<Ins>
    requires InTable(table, ids)
  {
    seq(|ids|, i requires 0 <= i < |ids| => table[ids[i]])
  }

  lemma {:induction false} RunIsExec(table: seq<Ins>, ids: seq<nat>, s: State)
    requires InTable(table, ids)
    ensures S.RunPlain(Machine(table), ids, s) == Exec(Decode(table, ids), s)
    decreases |ids|
  {
    if ids != [] {
      assert Decode(table, ids)[1..] == Decode(table, ids[1..]);
      RunIsExec(table, ids[1..], Exec1(table[ids[0]], s));
    }
  }

  // ----- the relation between a statement and its code -----

  /** The code leaves the zero flag as the condition says, and memory and stack alone. */
  ghost predicate Tests(code: seq<Ins>, e: Exp) {
    forall s: State {:trigger Exec(code, s)} :: Defined(e, s.mem) ==>
      var t := Exec(code, s);
      t.zero == Is(Val(e, s.mem) == 0) && t.mem == s.mem && t.stack == s.stack
  }

  /** The code performs the assignments. */
  ghost predicate Assigns(code: seq<Ins>, a: seq<Assign>) {
    forall s: State {:trigger Exec(code, s)} :: AllDefined(a, s.mem) ==>
      var t := Exec(code, s);
      t.mem == Meaning(a, s.mem) && t.stack == s.stack
  }

  ghost predicate TestsWith(table: seq<Ins>, ids: seq<nat>, e: Exp) {
    InTable(table, ids) && Tests(Decode(table, ids), e)
  }

  ghost predicate AssignsWith(table: seq<Ins>, ids: seq<nat>, a: seq<Assign>) {
    InTable(table, ids) && Assigns(Decode(table, ids), a)
  }

  /** `st` is `c` with the code of its expressions in place. */
  ghost predicate Compiled(table: seq<Ins>, c: C, st: S.Stmt) {
    match c
    case Skip => st.Empty?
    case Block(a) => st.Do? && AssignsWith(table, st.e, a)
    case Then(a, b) => st.Seq? && Compiled(table, a, st.first) && Compiled(table, b, st.second)
    case If(e, yes) => st.If? && TestsWith(table, st.c, e) && Compiled(table, yes, st.yes)
    case IfElse(e, yes, no) =>
      && st.IfElse? && TestsWith(table, st.c, e)
      && Compiled(table, yes, st.yes) && Compiled(table, no, st.no)
    case While(e, body) => st.While? && TestsWith(table, st.c, e) && Compiled(table, body, st.body)
    case For(init, cond, inc, body) =>
      && st.For? && AssignsWith(table, st.init, init) && CompiledParts(table, cond, inc, st.cond, st.inc)
      && Compiled(table, body, st.body)
    case DoWhile(body, e) => st.DoWhile? && TestsWith(table, st.c, e) && Compiled(table, body, st.body)
    case Break => st.Break?
    case Continue => st.Continue?
  }

  ghost predicate CompiledParts(table: seq<Ins>, cond: Option<Exp>, inc: Option<seq<Assign>>, cond': Option<seq<nat>>,
                                inc': Option<seq<nat>>) {
    && cond.Some? == cond'.Some? && (cond.Some? ==> TestsWith(table, cond'.value, cond.value))
    && inc.Some? == inc'.Some? && (inc.Some? ==> AssignsWith(table, inc'.value, inc.value))
  }

  /** What the machine and the statement come to agree. */
  ghost predicate Agree(s: State, r: S.Result<State>, o: Outcome) {
    match o
    case Undefined => true
    case OutOfTime => r.Timeout?
    case Done(x, m) => r.Fin? && r.exit == x && r.state.mem == m && r.state.stack == s.stack
  }

  lemma TestRuns(table: seq<Ins>, ids: seq<nat>, e: Exp, s: State)
    requires TestsWith(table, ids, e) && Defined(e, s.mem)
    ensures var t := S.RunPlain(Machine(table), ids, s);
            t.mem == s.mem && t.stack == s.stack && Machine(table).test(t) == (Val(e, s.mem) != 0)
  {
    RunIsExec(table, ids, s);
  }

  lemma AssignRuns(table: seq<Ins>, ids: seq<nat>, a: seq<Assign>, s: State)
    requires AssignsWith(table, ids, a) && AllDefined(a, s.mem)
    ensures var t := S.RunPlain(Machine(table), ids, s);
            t.mem == Meaning(a, s.mem) && t.stack == s.stack
  {
    RunIsExec(table, ids, s);
  }

  /** The statement parser's meaning of the compiled statement is the meaning of the
      source. */
  lemma {:induction false} MeansTheSame(table: seq<Ins>, c: C, st: S.Stmt, s: State, k: nat)
    requires Compiled(table, c, st)
    ensures Agree(s, S.Eval(Machine(table), st, s, k), Eval(c, s.mem, k))
    decreases k, c, 0
  {
    hide S.RunPlain, TestsWith, AssignsWith, Machine, Defined, AllDefined, Val, Meaning, CompiledParts;
    match c
    case Block(a) => if AllDefined(a, s.mem) { AssignRuns(table, st.e, a, s); }
    case Then(a, b) =>
      MeansTheSame(table, a, st.first, s, k);
      var r := S.Eval(Machine(table), st.first, s, k);
      if r.Fin? { MeansTheSame(table, b, st.second, r.state, k); }
    case If(e, yes) =>
      if Defined(e, s.mem) {
        TestRuns(table, st.c, e, s);
        MeansTheSame(table, yes, st.yes, S.RunPlain(Machine(table), st.c, s), k);
      }
    case IfElse(e, yes, no) =>
      if Defined(e, s.mem) {
        TestRuns(table, st.c, e, s);
        MeansTheSame(table, yes, st.yes, S.RunPlain(Machine(table), st.c, s), k);
        MeansTheSame(table, no, st.no, S.RunPlain(Machine(table), st.c, s), k);
      }
    case While(e, body) =>
      WhileParts(table, st.c, e);
      LoopMeansTheSame(table, Some(e), None, body, Some(st.c), None, st.body, s, k);
    case For(init, cond, inc, body) =>
      if AllDefined(init, s.mem) {
        AssignRuns(table, st.init, init, s);
        LoopMeansTheSame(table, cond, inc, body, st.cond, st.inc, st.body, S.RunPlain(Machine(table), st.init, s), k);
      }
    case DoWhile(body, e) => DoMeansTheSame(table, body, e, st.body, st.c, s, k);
    case _ =>
  }

  lemma WhileParts(table: seq<Ins>, ids: seq<nat>, e: Exp)
    requires TestsWith(table, ids, e)
    ensures CompiledParts(table, Some(e), None, Some(ids), None)
  {
  }

  /** One iteration, on the machine. */
  lemma {:induction false} MachineLoop(cpu: A.Cpu<State>, cond: Option<seq<nat>>, inc: Option<seq<nat>>, body: S.Stmt,
                                       s: State, k: nat)
    requires k > 0
    ensures var s1 := if cond.Some? then S.RunPlain(cpu, cond.value, s) else s;
            var r := S.Eval(cpu, body, s1, k);
            S.EvalLoop(cpu, cond, inc, body, s, k) ==
              if cond.Some? && !cpu.test(s1) then S.Fin(S.Norm, s1)
              else if r.Timeout? then r
              else if r.exit.Brk? then S.Fin(S.Norm, r.state)
              else S.EvalLoop(cpu, cond, inc, body, if inc.Some? then S.RunPlain(cpu, inc.value, r.state) else r.state,
                              k - 1)
  {
    hide S.RunPlain, S.Eval;
  }

  /** One iteration, in the source. */
  lemma {:induction false} SourceLoop(cond: Option<Exp>, inc: Option<seq<Assign>>, body: C, m: Memory, k: nat)
    requires k > 0
    ensures var o := Eval(body, m, k);
            EvalLoop(cond, inc, body, m, k) ==
              if cond.Some? && !Defined(cond.value, m) then Undefined
              else if cond.Some? && Val(cond.value, m) == 0 then Done(S.Norm, m)
              else if !o.Done? then o
              else if o.exit.Brk? then Done(S.Norm, o.mem)
              else if inc.None? then EvalLoop(cond, inc, body, o.mem, k - 1)
              else if AllDefined(inc.value, o.mem) then EvalLoop(cond, inc, body, Meaning(inc.value, o.mem), k - 1)
              else Undefined
  {
    hide Eval, Defined, Val, AllDefined, Meaning;
  }

  lemma NoTimeLeft(cpu: A.Cpu<State>, cond: Option<Exp>, inc: Option<seq<Assign>>, body: C,
                   cond': Option<seq<nat>>, inc': Option<seq<nat>>, body': S.Stmt, s: State)
    ensures S.EvalLoop(cpu, cond', inc', body', s, 0).Timeout? && EvalLoop(cond, inc, body, s.mem, 0).OutOfTime?
  {
  }

  lemma {:induction false} LoopMeansTheSame(table: seq<Ins>, cond: Option<Exp>, inc: Option<seq<Assign>>, body: C,
                                            cond': Option<seq<nat>>, inc': Option<seq<nat>>, body': S.Stmt,
                                            s: State, k: nat)
    requires CompiledParts(table, cond, inc, cond', inc') && Compiled(table, body, body')
    ensures Agree(s, S.EvalLoop(Machine(table), cond', inc', body', s, k), EvalLoop(cond, inc, body, s.mem, k))
    decreases k, body, 1
  {
    hide S.RunPlain, S.Eval, S.EvalLoop, Eval, EvalLoop, Compiled, TestsWith, AssignsWith, Machine, Defined,
         AllDefined, Val, Meaning;
    if k == 0 {
      NoTimeLeft(Machine(table), cond, inc, body, cond', inc', body', s);
    } else {
      MachineLoop(Machine(table), cond', inc', body', s, k);
      SourceLoop(cond, inc, body, s.mem, k);
      if !(cond.Some? && !Defined(cond.value, s.mem)) {
        if cond.Some? { TestRuns(table, cond'.value, cond.value, s); }
        var s1 := if cond.Some? then S.RunPlain(Machine(table), cond'.value, s) else s;
        MeansTheSame(table, body, body', s1, k);
        var r := S.Eval(Machine(table), body', s1, k);
        if r.Fin? && !r.exit.Brk? {
          var s2 := r.state;
          if inc.None? {
            LoopMeansTheSame(table, cond, inc, body, cond', inc', body', s2, k - 1);
          } else if AllDefined(inc.value, s2.mem) {
            AssignRuns(table, inc'.value, inc.value, s2);
            LoopMeansTheSame(table, cond, inc, body, cond', inc', body', S.RunPlain(Machine(table), inc'.value, s2),
                             k - 1);
          }
        }
      }
    }
  }

  lemma {:induction false} DoMeansTheSame(table: seq<Ins>, body: C, e: Exp, body': S.Stmt, ids: seq<nat>, s: State,
                                          k: nat)
    requires TestsWith(table, ids, e) && Compiled(table, body, body')
    ensures Agree(s, S.EvalDo(Machine(table), body', ids, s, k), EvalDo(body, e, s.mem, k))
    decreases k, body, 1
  {
    hide S.RunPlain, S.Eval, Eval, Compiled, TestsWith, AssignsWith, Machine, Defined, AllDefined, Val, Meaning;
    if k > 0 {
      MeansTheSame(table, body, body', s, k);
      var r := S.Eval(Machine(table), body', s, k);
      if r.Fin? && !r.exit.Brk? && Defined(e, r.state.mem) {
        TestRuns(table, ids, e, r.state);
        DoMeansTheSame(table, body, e, body', ids, S.RunPlain(Machine(table), ids, r.state), k - 1);
      }
    }
  }

  /** From this memory the statement never divides by zero. */
  ghost predicate NeverUndefined(c: C, m: Memory) {
    forall k: nat {:trigger Eval(c, m, k)} :: !Eval(c, m, k).Undefined?
  }

  /** What is finally emitted for a statement: its lowering, through the peephole. */
  function Output(st: S.Stmt): A.Code {
    P.Peep(P.Idle, S.Lower(st, 0, [], A.Nil))
  }

  /** The instructions emitted for a statement, expressions and all, halt if and only if
      the statement ends, with the memory it ends with and the stack as before. */
  lemma {:induction false} ProgramRuns(table: seq<Ins>, c: C, st: S.Stmt, s: State, r: A.Outcome<State>)
    requires Compiled(table, c, st) && S.Fits(st, 0) && !StmtPeep.BareBreak(st) && NeverUndefined(c, s.mem)
    requires r != A.Running
    ensures A.Ends(Machine(table), Output(st), Output(st), s, r) ==>
              r.Halted? && r.state.stack == s.stack && exists k: nat :: Eval(c, s.mem, k) == Done(S.Norm, r.state.mem)
    ensures (exists k: nat :: Eval(c, s.mem, k).Done? && Eval(c, s.mem, k).exit.Norm?) ==>
              exists t: State :: A.Ends(Machine(table), Output(st), Output(st), s, A.Halted(t))
  {
    hide *;
    StmtPeep.CompilationPreserves(Machine(table), st, s, r);
    OutputIs(st);
    if A.Ends(Machine(table), Output(st), Output(st), s, r) {
      var k: nat :| S.Eval(Machine(table), st, s, k) == S.Fin(S.Norm, r.state);
      MeansTheSame(table, c, st, s, k);
      AgreeBack(s, r.state, c, k, S.Eval(Machine(table), st, s, k));
    }
    if k: nat :| Eval(c, s.mem, k).Done? && Eval(c, s.mem, k).exit.Norm? {
      MeansTheSame(table, c, st, s, k);
      var t := AgreeOn(s, S.Eval(Machine(table), st, s, k), Eval(c, s.mem, k));
      StmtPeep.CompilationPreserves(Machine(table), st, s, A.Halted(t));
    }
  }

  lemma OutputIs(st: S.Stmt)
    ensures Output(st) == P.Peep(P.Idle, S.Lower(st, 0, [], A.Nil))
  {
  }

  lemma AgreeBack(s: State, t: State, c: C, k: nat, r: S.Result<State>)
    requires Agree(s, r, Eval(c, s.mem, k)) && r == S.Fin(S.Norm, t) && NeverUndefined(c, s.mem)
    ensures Eval(c, s.mem, k) == Done(S.Norm, t.mem) && t.stack == s.stack
  {
  }

  lemma AgreeOn(s: State, r: S.Result<State>, o: Outcome) returns (t: State)
    requires Agree(s, r, o) && o.Done? && o.exit.Norm?
    ensures r == S.Fin(S.Norm, t)
  {
    t := r.state;
  }

  // ----- compiling -----

  /** Every expression of the statement is well typed. */
  predicate Typed(c: C) {
    match c
    case Block(a) => ProperAll(a)
    case Then(a, b) => Typed(a) && Typed(b)
    case If(e, yes) => WellTyped(e) && Typed(yes)
    case IfElse(e, yes, no) => WellTyped(e) && Typed(yes) && Typed(no)
    case While(e, body) => WellTyped(e) && Typed(body)
    case For(init, cond, inc, body) =>
      ProperAll(init) && (cond.Some? ==> WellTyped(cond.value)) && (inc.Some? ==> ProperAll(inc.value)) && Typed(body)
    case DoWhile(body, e) => WellTyped(e) && Typed(body)
    case _ => true
  }

  predicate ProperAll(a: seq<Assign>) {
    forall i :: 0 <= i < |a| ==> Proper(a[i])
  }

  /** The numbers of `code` once it has been put at the end of the table. */
  function Numbers(start: nat, n: nat): seq<nat> {
    seq(n, i => start + i)
  }

  lemma NumbersDecode(table: seq<Ins>, code: seq<Ins>)
    ensures InTable(table + code, Numbers(|table|, |code|)) && Decode(table + code, Numbers(|table|, |code|)) == code
  {
  }

  lemma DecodeKept(table: seq<Ins>, table': seq<Ins>, ids: seq<nat>)
    requires table <= table' && InTable(table, ids)
    ensures InTable(table', ids) && Decode(table', ids) == Decode(table, ids)
  {
  }

  lemma TestsKept(table: seq<Ins>, table': seq<Ins>, ids: seq<nat>, e: Exp)
    requires table <= table' && TestsWith(table, ids, e)
    ensures TestsWith(table', ids, e)
  {
    DecodeKept(table, table', ids);
  }

  lemma AssignsKept(table: seq<Ins>, table': seq<Ins>, ids: seq<nat>, a: seq<Assign>)
    requires table <= table' && AssignsWith(table, ids, a)
    ensures AssignsWith(table', ids, a)
  {
    DecodeKept(table, table', ids);
  }

  lemma {:induction false} CompiledKept(table: seq<Ins>, table': seq<Ins>, c: C, st: S.Stmt)
    requires table <= table' && Compiled(table, c, st)
    ensures Compiled(table', c, st)
    decreases c
  {
    hide TestsWith, AssignsWith;
    match c
    case Block(a) => AssignsKept(table, table', st.e, a);
    case Then(a, b) =>
      CompiledKept(table, table', a, st.first);
      CompiledKept(table, table', b, st.second);
    case If(e, yes) =>
      TestsKept(table, table', st.c, e);
      CompiledKept(table, table', yes, st.yes);
    case IfElse(e, yes, no) =>
      TestsKept(table, table', st.c, e);
      CompiledKept(table, table', yes, st.yes);
      CompiledKept(table, table', no, st.no);
    case While(e, body) =>
      TestsKept(table, table', st.c, e);
      CompiledKept(table, table', body, st.body);
    case For(init, cond, inc, body) =>
      AssignsKept(table, table', st.init, init);
      if cond.Some? { TestsKept(table, table', st.cond.value, cond.value); }
      if inc.Some? { AssignsKept(table, table', st.inc.value, inc.value); }
      CompiledKept(table, table', body, st.body);
    case DoWhile(body, e) =>
      TestsKept(table, table', st.c, e);
      CompiledKept(table, table', body, st.body);
    case _ =>
  }

  method CompileTest(table: seq<Ins>, e: Exp) returns (table': seq<Ins>, ids: seq<nat>)
    requires WellTyped(e)
    ensures table <= table' && TestsWith(table', ids, e)
  {
    hide Val, Defined, WellTyped;
    var g := new Generator();
    g.Condition(e);
    assert forall s: State :: Exec([], s) == s;
    assert Tests(g.code, e);
    table', ids := table + g.code, Numbers(|table|, |g.code|);
    NumbersDecode(table, g.code);
  }

  method CompileAssigns(table: seq<Ins>, a: seq<Assign>) returns (table': seq<Ins>, ids: seq<nat>)
    requires ProperAll(a)
    ensures table <= table' && AssignsWith(table', ids, a)
  {
    hide Meaning, AllDefined;
    var g := new Generator();
    g.Assignments(a);
    assert forall s: State :: Exec([], s) == s;
    assert Assigns(g.code, a);
    table', ids := table + g.code, Numbers(|table|, |g.code|);
    NumbersDecode(table, g.code);
  }

  /** Every typed statement is compiled to one that `ProgramRuns` applies to. */
  method Compile(table: seq<Ins>, c: C) returns (table': seq<Ins>, st: S.Stmt)
    requires Typed(c)
    ensures table <= table' && Compiled(table', c, st)
    decreases c, 0
  {
    hide TestsWith, AssignsWith, WellTyped, ProperAll;
    match c {
      case Skip => return table, S.Empty;
      case Break => return table, S.Break;
      case Continue => return table, S.Continue;
      case Block(a) =>
        var t, ids := CompileAssigns(table, a);
        return t, S.Do(ids);
      case Then(a, b) =>
        var t1, s1 := Compile(table, a);
        var t2, s2 := Compile(t1, b);
        CompiledKept(t1, t2, a, s1);
        return t2, S.Seq(s1, s2);
      case If(e, yes) =>
        var t1, ids := CompileTest(table, e);
        var t2, s2 := Compile(t1, yes);
        TestsKept(t1, t2, ids, e);
        return t2, S.If(ids, s2);
      case IfElse(e, yes, no) =>
        var t1, ids := CompileTest(table, e);
        var t2, s2 := Compile(t1, yes);
        var t3, s3 := Compile(t2, no);
        TestsKept(t1, t3, ids, e);
        CompiledKept(t2, t3, yes, s2);
        return t3, S.IfElse(ids, s2, s3);
      case While(e, body) =>
        var t1, ids := CompileTest(table, e);
        var t2, s2 := Compile(t1, body);
        TestsKept(t1, t2, ids, e);
        return t2, S.While(ids, s2);
      case DoWhile(body, e) =>
        var t1, s1 := Compile(table, body);
        var t2, ids := CompileTest(t1, e);
        CompiledKept(t1, t2, body, s1);
        return t2, S.DoWhile(s1, ids);
      case For(init, cond, inc, body) =>
        table', st := CompileFor(table, init, cond, inc, body);
    }
  }

  method CompileFor(table: seq<Ins>, init: seq<Assign>, cond: Option<Exp>, inc: Option<seq<Assign>>, body: C)
    returns (table': seq<Ins>, st: S.Stmt)
    requires Typed(For(init, cond, inc, body))
    ensures table <= table' && Compiled(table', For(init, cond, inc, body), st)
    decreases body, 1
  {
    hide TestsWith, AssignsWith, WellTyped, ProperAll;
    var t1, ids := CompileAssigns(table, init);
    var t2, cond' := t1, None;
    if cond.Some? {
      var test;
      t2, test := CompileTest(t1, cond.value);
      cond' := Some(test);
    }
    var t3, inc' := t2, None;
    if inc.Some? {
      var next;
      t3, next := CompileAssigns(t2, inc.value);
      inc' := Some(next);
    }
    var t4, s4 := Compile(t3, body);
    AssignsKept(t1, t4, ids, init);
    if cond.Some? { TestsKept(t2, t4, cond'.value, cond.value); }
    if inc.Some? { AssignsKept(t3, t4, inc'.value, inc.value); }
    return t4, S.For(ids, cond', inc', s4);
  }
}
