/** The jump peephole of the Q/C code generator: a streaming rewriter that drops jumps
    after jumps and turns `JP cc,A; JP B; A:` into the inverted jump to B. */
module Peephole {
  import opened Common
  import opened Asm

  /** The pattern the rewriter is in the middle of. */
  datatype Pending =
    | Idle
    | AfterJump
    | Cond(sense: bool, a: Lbl)
    | CondJump(sense: bool, a: Lbl, b: Lbl)

  /** Instructions held back in the pattern buffer. */
  function Buffered(st: Pending): seq<Instr> {
    match st
    case Idle => []
    case AfterJump => []
    case Cond(sense, a) => [JumpIf(sense, a)]
    case CondJump(sense, a, b) => [JumpIf(sense, a), Jump(b)]
  }

  /** What one instruction causes to be written out. */
  function Written(st: Pending, i: Instr): seq<Instr> {
    match i
    case Plain(_) => Buffered(st) + [i]
    case JumpIf(_, _) => Buffered(st)
    case Jump(_) => if st.Idle? then [i] else []
    case Label(l) => if st.CondJump? && l == st.a then [JumpIf(!st.sense, st.b)] else Buffered(st) + [i]
  }

  /** The pattern state after one instruction. */
  function Next(st: Pending, i: Instr): Pending {
    match i
    case Plain(_) => Idle
    case Label(_) => Idle
    case JumpIf(sense, l) => Cond(sense, l)
    case Jump(l) =>
      match st
      case Idle => AfterJump
      case Cond(sense, a) => CondJump(sense, a, l)
      case _ => st
  }

  /** The buffered instructions, then `rest`. */
  function Dump(st: Pending, rest: Code): Code {
    match st
    case Idle => rest
    case AfterJump => rest
    case Cond(sense, a) => Cons(JumpIf(sense, a), rest)
    case CondJump(sense, a, b) => Cons(JumpIf(sense, a), Cons(Jump(b), rest))
  }

  /** What one instruction causes to be written out, then `rest`. */
  function Write(st: Pending, i: Instr, rest: Code): Code {
    match i
    case Plain(_) => Dump(st, Cons(i, rest))
    case JumpIf(_, _) => Dump(st, rest)
    case Jump(_) => if st.Idle? then Cons(i, rest) else rest
    case Label(l) => if st.CondJump? && l == st.a then Cons(JumpIf(!st.sense, st.b), rest) else Dump(st, Cons(i, rest))
  }

  lemma {:induction false} DumpIsBuffered(st: Pending, rest: Code)
    ensures Prepend(Buffered(st), rest) == Dump(st, rest)
  {
    match st
    case Idle =>
    case AfterJump =>
    case Cond(_, a) => assert Buffered(st)[1..] == [];
    case CondJump(_, _, b) =>
      assert Buffered(st)[1..] == [Jump(b)] && [Jump(b)][1..] == [];
      assert Prepend([Jump(b)], rest) == Cons(Jump(b), rest);
  }

  lemma {:induction false} WriteIsWritten(st: Pending, i: Instr, rest: Code)
    ensures Prepend(Written(st, i), rest) == Write(st, i, rest)
  {
    DumpIsBuffered(st, rest);
    DumpIsBuffered(st, Cons(i, rest));
    PrependAppend(Buffered(st), [i], rest);
  }

  /** The whole output for input `c` from state `st`; the buffer is dumped at the end. */
  function Peep(st: Pending, c: Code): Code
    decreases c
  {
    match c
    case Nil => Dump(st, Nil)
    case Cons(i, rest) => Write(st, i, Peep(Next(st, i), rest))
  }

  /** The labels whose definition a rewrite swallows. */
  function Fused(st: Pending, c: Code): set<Lbl>
    decreases c
  {
    match c
    case Nil => {}
    case Cons(i, rest) =>
      (if st.CondJump? && i == Label(st.a) then {st.a} else {}) + Fused(Next(st, i), rest)
  }

  /** No jump that is left refers to a swallowed label. */
  predicate SafeFusion(p: Code) {
    forall l: Lbl :: l in Targets(Peep(Idle, p)) ==> l !in Fused(Idle, p)
  }

  // ----- the streaming implementation -----

  datatype PeepFlag = FlagNone | FlagJump | FlagTrue | FlagFalse

  class Emitter {
    var out: seq<Instr>
    var peepflag: PeepFlag
    var jcondlabel: int           // target of the last conditional jump
    var jumplabel: int            // target of the jump after it, 0 if none yet
    var peepbuf: seq<Instr>

    ghost predicate Valid()
      reads this
    {
      && (peepflag.FlagTrue? || peepflag.FlagFalse? ==> jcondlabel >= 1 && jumplabel >= 0)
      && peepbuf == Buffered(State())
    }

    ghost function State(): Pending
      reads this
    {
      match peepflag
      case FlagNone => Idle
      case FlagJump => AfterJump
      case _ =>
        if jcondlabel < 1 || jumplabel < 0 then Idle
        else if jumplabel == 0 then Cond(peepflag.FlagTrue?, jcondlabel)
        else CondJump(peepflag.FlagTrue?, jcondlabel, jumplabel)
    }

    constructor ()
      ensures Valid() && out == [] && State() == Idle
    {
      out, peepflag, jcondlabel, jumplabel, peepbuf := [], FlagNone, 0, 0, [];
    }

    /** Dump the pattern buffer. */
    method Dumpeep()
      requires Valid()
      modifies this
      ensures Valid() && out == old(out + Buffered(State())) && State() == Idle
    {
      peepflag := FlagNone;
      out := out + peepbuf;
      peepbuf := [];
    }

    /** Any plain line: it is no part of a pattern, so a pending one goes first. */
    method Line(i: Instr)
      requires Valid() && i.Plain?
      modifies this
      ensures Valid() && out == old(out) + old(Written(State(), i)) && State() == old(Next(State(), i))
    {
      Dumpeep();
      out := out + [i];
    }

    method Jump(l: Lbl)
      requires Valid()
      modifies this
      ensures Valid() && out == old(out) + old(Written(State(), Instr.Jump(l)))
      ensures State() == old(Next(State(), Instr.Jump(l)))
    {
      match peepflag {
        case FlagJump =>
        case FlagNone =>
          out := out + [Instr.Jump(l)];
          peepflag := FlagJump;
        case _ =>
          if jumplabel == 0 {
            peepbuf := peepbuf + [Instr.Jump(l)];
            jumplabel := l;
          }
      }
    }

    method JumpCond(sense: bool, l: Lbl)
      requires Valid()
      modifies this
      ensures Valid() && out == old(out) + old(Written(State(), JumpIf(sense, l)))
      ensures State() == old(Next(State(), JumpIf(sense, l)))
    {
      Dumpeep();
      peepflag := if sense then FlagTrue else FlagFalse;
      peepbuf := [JumpIf(sense, l)];
      jcondlabel := l;
      jumplabel := 0;
    }

    method LineLabel(l: Lbl)
      requires Valid()
      modifies this
      ensures Valid() && out == old(out) + old(Written(State(), Label(l))) && State() == old(Next(State(), Label(l)))
    {
      if (peepflag == FlagTrue || peepflag == FlagFalse) && jumplabel != 0 && l == jcondlabel {
        var inverted := JumpIf(peepflag != FlagTrue, jumplabel);
        peepflag := FlagNone;
        peepbuf := [];
        out := out + [inverted];
        return;
      }
      Dumpeep();
      out := out + [Label(l)];
    }

    /** Feeding a whole stream and dumping the buffer writes exactly `Peep`. */
    method Translate(stream: seq<Instr>)
      requires Valid() && out == [] && State() == Idle
      modifies this
      ensures Prepend(out, Nil) == Peep(Idle, Prepend(stream, Nil))
    {
      assert stream[0..] == stream;
      for k := 0 to |stream|
        invariant Valid()
        invariant Prepend(out, Peep(State(), Prepend(stream[k..], Nil))) == Peep(Idle, Prepend(stream, Nil))
      {
        ghost var out0, st0 := out, State();
        assert stream[k..][1..] == stream[k + 1..];
        match stream[k] {
          case Plain(_) => Line(stream[k]);
          case Jump(l) => Jump(l);
          case JumpIf(sense, l) => JumpCond(sense, l);
          case Label(l) => LineLabel(l);
        }
        PrependAppend(out0, Written(st0, stream[k]), Peep(State(), Prepend(stream[k + 1..], Nil)));
        WriteIsWritten(st0, stream[k], Peep(State(), Prepend(stream[k + 1..], Nil)));
      }
      PrependAppend(out, Buffered(State()), Nil);
      DumpIsBuffered(State(), Nil);
      Dumpeep();
    }
  }

  // ----- the output means what the input means -----

  lemma {:induction false} WrittenLabel(st: Pending, i: Instr, rest: Code, l: Lbl)
    ensures i == Label(l) && !(st.CondJump? && st.a == l) ==> Find(Write(st, i, rest), l) == Some(rest)
    ensures i != Label(l) || (st.CondJump? && st.a == l) ==> Find(Write(st, i, rest), l) == Find(rest, l)
    ensures Within(rest, Write(st, i, rest))
  {
    var c := Cons(i, rest);
    assert Within(rest, rest);
    assert Within(rest, c);
    assert Within(rest, Dump(st, rest)) && Within(rest, Dump(st, c)) by {
      if st.CondJump? {
        assert Within(rest, Cons(Jump(st.b), rest)) && Within(rest, Cons(Jump(st.b), c));
      }
    }
    if st.CondJump? {
      assert Find(Cons(Jump(st.b), rest), l) == Find(rest, l) && Find(Cons(Jump(st.b), c), l) == Find(c, l);
    }
  }

  /** A label that is not swallowed still leads to the translation of the same code. */
  lemma {:induction false} LookupKept(st: Pending, c: Code, l: Lbl)
    requires l !in Fused(st, c)
    ensures match Find(c, l)
            case None => Find(Peep(st, c), l) == None
            case Some(rest) => Find(Peep(st, c), l) == Some(Peep(Idle, rest)) && Within(Peep(Idle, rest), Peep(st, c))
    decreases c
  {
    match c
    case Nil =>
    case Cons(i, rest) =>
      WrittenLabel(st, i, Peep(Next(st, i), rest), l);
      if i != Label(l) {
        LookupKept(Next(st, i), rest, l);
        if Find(rest, l).Some? {
          WithinTrans(Peep(Idle, Find(rest, l).value), Peep(Next(st, i), rest), Peep(st, c));
        }
      }
  }

  /** A swallowed label is gone from the output. */
  lemma {:induction false} LookupLost(st: Pending, c: Code, l: Lbl)
    requires l in Fused(st, c) && Unique(c)
    ensures l in LabelsOf(c) && Find(Peep(st, c), l) == None
    decreases c
  {
    var Cons(i, rest) := c;
    WrittenLabel(st, i, Peep(Next(st, i), rest), l);
    FusedDefined(Next(st, i), rest, l);
    if st.CondJump? && i == Label(st.a) && l == st.a {
      LookupKept(Next(st, i), rest, l);
      FindWithin(rest, l);
    } else {
      LookupLost(Next(st, i), rest, l);
    }
  }

  lemma {:induction false} FusedDefined(st: Pending, c: Code, l: Lbl)
    ensures l in Fused(st, c) ==> l in LabelsOf(c)
    decreases c
  {
    if c.Cons? { FusedDefined(Next(st, c.head), c.tail, l); }
  }

  /** Every jump in `o` that had a target in `p` still has one. */
  predicate Resolved(p: Code, o: Code) {
    forall l: Lbl :: l in Targets(o) && l in LabelsOf(p) ==> l in LabelsOf(o)
  }

  /** Fusion is safe exactly when no jump that is left has lost its target. */
  lemma {:induction false} SafeFusionIsExact(p: Code)
    requires Unique(p)
    ensures SafeFusion(p) <==> Resolved(p, Peep(Idle, p))
  {
    var o := Peep(Idle, p);
    forall l: Lbl | l in Targets(o) ensures l in Fused(Idle, p) <==> l in LabelsOf(p) && l !in LabelsOf(o) {
      FindWithin(p, l);
      FindWithin(o, l);
      if l in Fused(Idle, p) { LookupLost(Idle, p, l); } else { LookupKept(Idle, p, l); }
    }
    if SafeFusion(p) {
      assert Resolved(p, o);
    }
    if Resolved(p, o) {
      forall l: Lbl | l in Targets(Peep(Idle, p)) ensures l !in Fused(Idle, p) {}
    }
  }

  lemma {:induction false} DumpTargets(st: Pending, rest: Code)
    ensures Targets(Dump(st, rest)) == Targets(rest) + match st
                                                       case Cond(_, a) => {a}
                                                       case CondJump(_, a, b) => {a, b}
                                                       case _ => {}
  {
    if st.CondJump? { assert Targets(Cons(Jump(st.b), rest)) == {st.b} + Targets(rest); }
  }

  lemma {:induction false} WriteTargets(st: Pending, i: Instr, rest: Code)
    ensures Targets(rest) <= Targets(Write(st, i, rest))
  {
    DumpTargets(st, rest);
    DumpTargets(st, Cons(i, rest));
  }

  /** The rewriter can be in state `st` with input `c` left while processing `p`. */
  ghost predicate Reachable(p: Code, st: Pending, c: Code) {
    && Unique(p) && SafeFusion(p) && Within(c, p) && !st.AfterJump?
    && Targets(Peep(st, c)) <= Targets(Peep(Idle, p))
  }

  /** Passing over an instruction without pending jump keeps the situation. */
  lemma {:induction false} ReachableNext(p: Code, st: Pending, c: Code)
    requires Reachable(p, st, c) && c.Cons? && !Next(st, c.head).AfterJump?
    ensures Reachable(p, Next(st, c.head), c.tail)
  {
    WithinTail(c, p);
    WriteTargets(st, c.head, Peep(Next(st, c.head), c.tail));
  }

  lemma {:induction false} ReachableIdle(p: Code, st: Pending, c: Code)
    requires Reachable(p, st, c) && Peep(st, c) == Dump(st, Peep(Idle, c))
    ensures Reachable(p, Idle, c)
  {
    DumpTargets(st, Peep(Idle, c));
  }

  /** Where a surviving jump leads in the output. */
  lemma {:induction false} JumpLands(p: Code, l: Lbl)
    requires Unique(p) && SafeFusion(p) && l in Targets(Peep(Idle, p))
    ensures match Find(p, l)
            case None => Find(Peep(Idle, p), l) == None
            case Some(c) => Find(Peep(Idle, p), l) == Some(Peep(Idle, c)) && Reachable(p, Idle, c)
  {
    LookupKept(Idle, p, l);
    FindWithin(p, l);
    if Find(p, l).Some? {
      WithinLabels(Peep(Idle, Find(p, l).value), Peep(Idle, p));
    }
  }

  /** Where no fusion happens, what is pending is simply written before the rest. */
  lemma {:induction false} DumpsUnlessJump(st: Pending, c: Code)
    requires c.Nil? || c.head.Plain? || c.head.JumpIf? || (c.head.Label? && !(st.CondJump? && st.a == c.head.name))
    ensures Peep(st, c) == Dump(st, Peep(Idle, c))
  {
  }

  /** If the input's run ends, the output's run ends the same way, no later. */
  lemma {:induction false} Forward<S>(cpu: Cpu<S>, p: Code, st: Pending, c: Code, s: S, k: nat)
    requires Reachable(p, st, c) && Exec(cpu, p, Dump(st, c), s, k) != Running
    ensures Exec(cpu, Peep(Idle, p), Peep(st, c), s, k) == Exec(cpu, p, Dump(st, c), s, k)
    decreases k, 0, c
  {
    match st
    case Idle => ForwardIdle(cpu, p, c, s, k);
    case Cond(sense, a) =>
      if c.Cons? && c.head.Jump? {
        ReachableNext(p, st, c);
        Forward(cpu, p, Next(st, c.head), c.tail, s, k);
      } else {
        DumpsUnlessJump(st, c);
        DumpTargets(st, Peep(Idle, c));
        ReachableIdle(p, st, c);
        if cpu.test(s) == sense { ForwardGoto(cpu, p, a, s, k - 1); } else { Forward(cpu, p, Idle, c, s, k - 1); }
      }
    case CondJump(sense, a, b) =>
      ForwardCondJump(cpu, p, st, c, s, k);
  }

  lemma {:induction false} ForwardIdle<S>(cpu: Cpu<S>, p: Code, c: Code, s: S, k: nat)
    requires Reachable(p, Idle, c) && Exec(cpu, p, c, s, k) != Running
    ensures Exec(cpu, Peep(Idle, p), Peep(Idle, c), s, k) == Exec(cpu, p, c, s, k)
    decreases k, 0, c, 0
  {
    if c.Cons? {
      match c.head
      case Plain(i) => ReachableNext(p, Idle, c); Forward(cpu, p, Idle, c.tail, cpu.act(i, s), k - 1);
      case Label(_) => ReachableNext(p, Idle, c); Forward(cpu, p, Idle, c.tail, s, k - 1);
      case Jump(l) => ForwardGoto(cpu, p, l, s, k - 1);
      case JumpIf(sense, l) => ReachableNext(p, Idle, c); Forward(cpu, p, Cond(sense, l), c.tail, s, k);
    }
  }

  lemma {:induction false} ForwardGoto<S>(cpu: Cpu<S>, p: Code, l: Lbl, s: S, k: nat)
    requires Unique(p) && SafeFusion(p) && l in Targets(Peep(Idle, p)) && Goto(cpu, p, l, s, k) != Running
    ensures Goto(cpu, Peep(Idle, p), l, s, k) == Goto(cpu, p, l, s, k)
    decreases k, 1
  {
    JumpLands(p, l);
    if Find(p, l).Some? { Forward(cpu, p, Idle, Find(p, l).value, s, k); }
  }

  lemma {:induction false} ForwardCondJump<S>(cpu: Cpu<S>, p: Code, st: Pending, c: Code, s: S, k: nat)
    requires st.CondJump? && Reachable(p, st, c) && Exec(cpu, p, Dump(st, c), s, k) != Running
    ensures Exec(cpu, Peep(Idle, p), Peep(st, c), s, k) == Exec(cpu, p, Dump(st, c), s, k)
    decreases k, 0, c, 0
  {
    var o := Peep(Idle, p);
    if c.Cons? && c.head.Jump? {
      ReachableNext(p, st, c);
      assert Exec(cpu, p, Dump(st, c.tail), s, k) == Exec(cpu, p, Dump(st, c), s, k);
      Forward(cpu, p, st, c.tail, s, k);
    } else if c.Cons? && c.head == Label(st.a) {
      FindHere(p, st.a, c.tail);
      ReachableNext(p, st, c);
      if cpu.test(s) == st.sense {
        Forward(cpu, p, Idle, c.tail, s, k - 1);
      } else {
        ForwardGoto(cpu, p, st.b, s, k - 2);
        JumpLands(p, st.b);
        if Find(p, st.b).Some? { MoreFuel(cpu, o, Find(o, st.b).value, s, k - 2, k - 1); }
      }
    } else {
      DumpsUnlessJump(st, c);
      DumpTargets(st, Peep(Idle, c));
      ReachableIdle(p, st, c);
      if cpu.test(s) == st.sense { ForwardGoto(cpu, p, st.a, s, k - 1); } else { ForwardGoto(cpu, p, st.b, s, k - 2); }
    }
  }

  /** If the output's run ends, the input's run ends the same way, at most twice as
      late. */
  lemma {:induction false} Backward<S>(cpu: Cpu<S>, p: Code, st: Pending, c: Code, s: S, k: nat)
    requires Reachable(p, st, c) && Exec(cpu, Peep(Idle, p), Peep(st, c), s, k) != Running
    ensures Exec(cpu, p, Dump(st, c), s, 2 * k) == Exec(cpu, Peep(Idle, p), Peep(st, c), s, k)
    decreases k, 0, c
  {
    match st
    case Idle => BackwardIdle(cpu, p, c, s, k);
    case Cond(sense, a) =>
      if c.Cons? && c.head.Jump? {
        ReachableNext(p, st, c);
        Backward(cpu, p, Next(st, c.head), c.tail, s, k);
      } else {
        DumpsUnlessJump(st, c);
        DumpTargets(st, Peep(Idle, c));
        ReachableIdle(p, st, c);
        if cpu.test(s) == sense {
          BackwardGoto(cpu, p, a, s, k - 1);
        } else {
          Backward(cpu, p, Idle, c, s, k - 1);
          MoreFuel(cpu, p, c, s, 2 * (k - 1), 2 * k - 1);
        }
      }
    case CondJump(sense, a, b) =>
      BackwardCondJump(cpu, p, st, c, s, k);
  }

  lemma {:induction false} BackwardIdle<S>(cpu: Cpu<S>, p: Code, c: Code, s: S, k: nat)
    requires Reachable(p, Idle, c) && Exec(cpu, Peep(Idle, p), Peep(Idle, c), s, k) != Running
    ensures Exec(cpu, p, c, s, 2 * k) == Exec(cpu, Peep(Idle, p), Peep(Idle, c), s, k)
    decreases k, 0, c, 0
  {
    if c.Cons? {
      match c.head
      case Plain(i) =>
        ReachableNext(p, Idle, c);
        Backward(cpu, p, Idle, c.tail, cpu.act(i, s), k - 1);
        MoreFuel(cpu, p, c.tail, cpu.act(i, s), 2 * (k - 1), 2 * k - 1);
      case Label(_) =>
        ReachableNext(p, Idle, c);
        Backward(cpu, p, Idle, c.tail, s, k - 1);
        MoreFuel(cpu, p, c.tail, s, 2 * (k - 1), 2 * k - 1);
      case Jump(l) => BackwardGoto(cpu, p, l, s, k - 1);
      case JumpIf(sense, l) =>
        ReachableNext(p, Idle, c);
        Backward(cpu, p, Cond(sense, l), c.tail, s, k);
    }
  }

  lemma {:induction false} BackwardGoto<S>(cpu: Cpu<S>, p: Code, l: Lbl, s: S, k: nat)
    requires Unique(p) && SafeFusion(p) && l in Targets(Peep(Idle, p)) && Goto(cpu, Peep(Idle, p), l, s, k) != Running
    ensures Goto(cpu, p, l, s, 2 * k) == Goto(cpu, Peep(Idle, p), l, s, k)
    ensures Goto(cpu, p, l, s, 2 * k + 1) == Goto(cpu, Peep(Idle, p), l, s, k)
    decreases k, 1
  {
    JumpLands(p, l);
    if Find(p, l).Some? {
      Backward(cpu, p, Idle, Find(p, l).value, s, k);
      MoreFuel(cpu, p, Find(p, l).value, s, 2 * k, 2 * k + 1);
    }
  }

  lemma {:induction false} BackwardCondJump<S>(cpu: Cpu<S>, p: Code, st: Pending, c: Code, s: S, k: nat)
    requires st.CondJump? && Reachable(p, st, c) && Exec(cpu, Peep(Idle, p), Peep(st, c), s, k) != Running
    ensures Exec(cpu, p, Dump(st, c), s, 2 * k) == Exec(cpu, Peep(Idle, p), Peep(st, c), s, k)
    decreases k, 0, c, 0
  {
    if c.Cons? && c.head.Jump? {
      ReachableNext(p, st, c);
      Backward(cpu, p, st, c.tail, s, k);
      assert Exec(cpu, p, Dump(st, c.tail), s, 2 * k) == Exec(cpu, p, Dump(st, c), s, 2 * k);
    } else if c.Cons? && c.head == Label(st.a) {
      FindHere(p, st.a, c.tail);
      ReachableNext(p, st, c);
      if cpu.test(s) == st.sense {
        Backward(cpu, p, Idle, c.tail, s, k - 1);
        MoreFuel(cpu, p, c.tail, s, 2 * (k - 1), 2 * k - 1);
      } else {
        BackwardGoto(cpu, p, st.b, s, k - 1);
      }
    } else {
      DumpsUnlessJump(st, c);
      DumpTargets(st, Peep(Idle, c));
      ReachableIdle(p, st, c);
      if cpu.test(s) == st.sense {
        BackwardGoto(cpu, p, st.a, s, k - 1);
      } else {
        assert Exec(cpu, p, Dump(st, c), s, 2 * k) == Exec(cpu, p, Cons(Jump(st.b), c), s, 2 * k - 1) == Goto(cpu, p,
                    st.b, s, 2 * k - 2);
        BackwardGoto(cpu, p, st.b, s, k - 2);
        JumpLands(p, st.b);
        if Find(p, st.b).Some? { MoreFuel(cpu, p, Find(p, st.b).value, s, 2 * (k - 2), 2 * k - 2); }
      }
    }
  }

  /** The peephole preserves execution: input and output end in the same outcomes. */
  lemma {:induction false} PeepholePreserves<S>(cpu: Cpu<S>, p: Code, s: S, r: Outcome<S>)
    requires Unique(p) && SafeFusion(p) && r != Running
    ensures Ends(cpu, p, p, s, r) <==> Ends(cpu, Peep(Idle, p), Peep(Idle, p), s, r)
  {
    assert Within(p, p);
    if Ends(cpu, p, p, s, r) {
      var k: nat :| Exec(cpu, p, p, s, k) == r;
      Forward(cpu, p, Idle, p, s, k);
    }
    if Ends(cpu, Peep(Idle, p), Peep(Idle, p), s, r) {
      var k: nat :| Exec(cpu, Peep(Idle, p), Peep(Idle, p), s, k) == r;
      Backward(cpu, p, Idle, p, s, k);
    }
  }

  /** References to `l` in a stream, each counted. */
  function References(c: Code, l: Lbl): nat {
    match c
    case Nil => 0
    case Cons(i, rest) => (if (i.Jump? || i.JumpIf?) && i.target == l then 1 else 0) + References(rest, l)
  }

  function PendingReferences(st: Pending, l: Lbl): nat {
    match st
    case Cond(_, a) => if a == l then 1 else 0
    case CondJump(_, a, b) => (if a == l then 1 else 0) + (if b == l then 1 else 0)
    case _ => 0
  }

  /** A rewrite that swallows a label removes one reference to it. */
  lemma {:induction false} ReferencesDrop(st: Pending, c: Code, l: Lbl)
    requires Unique(c)
    ensures References(Peep(st, c), l) + (if l in Fused(st, c) then 1 else 0)
         <= PendingReferences(st, l) + References(c, l)
    decreases c
  {
    match c
    case Nil => DumpReferences(st, Nil, l);
    case Cons(i, rest) =>
      ReferencesDrop(Next(st, i), rest, l);
      DumpReferences(st, Peep(Next(st, i), rest), l);
      DumpReferences(st, Cons(i, Peep(Next(st, i), rest)), l);
      FusedDefined(Next(st, i), rest, l);
  }

  lemma {:induction false} DumpReferences(st: Pending, rest: Code, l: Lbl)
    ensures References(Dump(st, rest), l) == PendingReferences(st, l) + References(rest, l)
  {
    if st.CondJump? { assert References(Cons(Jump(st.b), rest), l) == (if st.b == l then 1 else 0) + References(rest,
                                        l); }
  }

  lemma {:induction false} TargetsAreReferenced(c: Code, l: Lbl)
    ensures l in Targets(c) <==> References(c, l) > 0
  {
    if c.Cons? { TargetsAreReferenced(c.tail, l); }
  }

  /** A sufficient condition that can be read off the input: each swallowed label is
      the target of one jump only, its own conditional one. */
  lemma {:induction false} SingleReferencesAreSafe(p: Code)
    requires Unique(p) && forall l: Lbl :: l in Fused(Idle, p) ==> References(p, l) <= 1
    ensures SafeFusion(p)
  {
    forall l: Lbl | l in Targets(Peep(Idle, p)) ensures l !in Fused(Idle, p) {
      ReferencesDrop(Idle, p, l);
      TargetsAreReferenced(Peep(Idle, p), l);
    }
  }
}
