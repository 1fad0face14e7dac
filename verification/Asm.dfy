/** The instruction stream the Q/C compiler emits, reduced to what its control flow
    needs: plain instructions, jumps, conditional jumps and labels.  What a plain
    instruction does to the machine is a parameter, so every result holds for any
    instruction set. */
module Asm {
  import opened Common

  type Lbl = l: int | l >= 1 witness 1     // getlabel() starts at 1; 0 means "none"

  datatype Instr =
    | Plain(id: nat)
    | Jump(target: Lbl)
    | JumpIf(sense: bool, target: Lbl)     // JP NZ when `sense`, JP Z otherwise
    | Label(name: Lbl)

  datatype Code = Nil | Cons(head: Instr, tail: Code)

  /** What plain instructions do, and whether HL is nonzero. */
  datatype Cpu<!S> = Cpu(act: (nat, S) -> S, test: S -> bool)

  datatype Outcome<S> =
    | Running                              // not finished within the steps given
    | Halted(state: S)                     // ran off the end
    | Left(target: Lbl, state: S)          // jumped to a label defined elsewhere

  /** The code after the first definition of `l`. */
  function Find(p: Code, l: Lbl): Option<Code> {
    match p
    case Nil => None
    case Cons(i, rest) => if i == Label(l) then Some(rest) else Find(rest, l)
  }

  function Exec<S>(cpu: Cpu<S>, p: Code, c: Code, s: S, fuel: nat): Outcome<S>
    decreases fuel, 0
  {
    if fuel == 0 then Running
    else match c
      case Nil => Halted(s)
      case Cons(Plain(i), rest) => Exec(cpu, p, rest, cpu.act(i, s), fuel - 1)
      case Cons(Label(_), rest) => Exec(cpu, p, rest, s, fuel - 1)
      case Cons(Jump(l), _) => Goto(cpu, p, l, s, fuel - 1)
      case Cons(JumpIf(b, l), rest) =>
        if cpu.test(s) == b then Goto(cpu, p, l, s, fuel - 1) else Exec(cpu, p, rest, s, fuel - 1)
  }

  function Goto<S>(cpu: Cpu<S>, p: Code, l: Lbl, s: S, fuel: nat): Outcome<S>
    decreases fuel, 1
  {
    match Find(p, l)
    case None => Left(l, s)
    case Some(c) => Exec(cpu, p, c, s, fuel)
  }

  /** A run that ends within some number of steps ends the same way with more. */
  lemma {:induction false} MoreFuel<S>(cpu: Cpu<S>, p: Code, c: Code, s: S, k: nat, j: nat)
    requires k <= j && Exec(cpu, p, c, s, k) != Running
    ensures Exec(cpu, p, c, s, j) == Exec(cpu, p, c, s, k)
    decreases k
  {
    match c
    case Nil =>
    case Cons(Plain(i), rest) => MoreFuel(cpu, p, rest, cpu.act(i, s), k - 1, j - 1);
    case Cons(Label(_), rest) => MoreFuel(cpu, p, rest, s, k - 1, j - 1);
    case Cons(Jump(l), _) => if Find(p, l).Some? { MoreFuel(cpu, p, Find(p, l).value, s, k - 1, j - 1); }
    case Cons(JumpIf(b, l), rest) =>
      if cpu.test(s) != b {
        MoreFuel(cpu, p, rest, s, k - 1, j - 1);
      } else if Find(p, l).Some? {
        MoreFuel(cpu, p, Find(p, l).value, s, k - 1, j - 1);
      }
  }

  /** Running `c` from `s` under `p` ends with `r`. */
  ghost predicate Ends<S>(cpu: Cpu<S>, p: Code, c: Code, s: S, r: Outcome<S>) {
    exists k: nat :: Exec(cpu, p, c, s, k) == r
  }

  // ----- labels -----

  function LabelsOf(c: Code): set<Lbl> {
    match c
    case Nil => {}
    case Cons(Label(l), rest) => {l} + LabelsOf(rest)
    case Cons(_, rest) => LabelsOf(rest)
  }

  function Targets(c: Code): set<Lbl> {
    match c
    case Nil => {}
    case Cons(Jump(l), rest) => {l} + Targets(rest)
    case Cons(JumpIf(_, l), rest) => {l} + Targets(rest)
    case Cons(_, rest) => Targets(rest)
  }

  /** No label is defined twice. */
  predicate Unique(c: Code) {
    match c
    case Nil => true
    case Cons(Label(l), rest) => l !in LabelsOf(rest) && Unique(rest)
    case Cons(_, rest) => Unique(rest)
  }

  /** `c` is where control can be in `p`: some tail of it. */
  predicate Within(c: Code, p: Code) {
    c == p || (p.Cons? && Within(c, p.tail))
  }

  lemma {:induction false} FindWithin(p: Code, l: Lbl)
    ensures Find(p, l).Some? <==> l in LabelsOf(p)
    ensures Find(p, l).Some? ==> Within(Find(p, l).value, p)
  {
    if p.Cons? {
      FindWithin(p.tail, l);
    }
  }

  lemma {:induction false} WithinTrans(a: Code, b: Code, c: Code)
    requires Within(a, b) && Within(b, c)
    ensures Within(a, c)
  {
    if b != c { WithinTrans(a, b, c.tail); }
  }

  lemma {:induction false} WithinTail(c: Code, p: Code)
    requires Within(c, p) && c.Cons?
    ensures Within(c.tail, p)
  {
    if c == p {
      assert Within(c.tail, c.tail);
    } else {
      WithinTail(c, p.tail);
    }
  }

  lemma {:induction false} WithinLabels(c: Code, p: Code)
    requires Within(c, p)
    ensures LabelsOf(c) <= LabelsOf(p) && Targets(c) <= Targets(p)
  {
    if c != p { WithinLabels(c, p.tail); }
  }

  /** With unique labels, a definition met on the way is the one jumps go to. */
  lemma {:induction false} FindHere(p: Code, l: Lbl, rest: Code)
    requires Unique(p) && Within(Cons(Label(l), rest), p)
    ensures Find(p, l) == Some(rest)
  {
    if p != Cons(Label(l), rest) {
      FindHere(p.tail, l, rest);
      WithinLabels(Cons(Label(l), rest), p.tail);
    }
  }

  // ----- streams as sequences -----

  /** The code that starts with the instructions `s` and goes on with `rest`. */
  function Prepend(s: seq<Instr>, rest: Code): Code {
    if s == [] then rest else Cons(s[0], Prepend(s[1..], rest))
  }

  lemma {:induction false} PrependSnoc(s: seq<Instr>, i: Instr, rest: Code)
    ensures Prepend(s + [i], rest) == Prepend(s, Cons(i, rest))
  {
    if s == [] {
      assert ([i])[1..] == [];
    } else {
      assert (s + [i])[1..] == s[1..] + [i];
      PrependSnoc(s[1..], i, rest);
    }
  }

  lemma {:induction false} PrependAppend(s: seq<Instr>, t: seq<Instr>, rest: Code)
    ensures Prepend(s + t, rest) == Prepend(s, Prepend(t, rest))
    decreases t
  {
    if t == [] {
      assert s + t == s;
    } else {
      assert s + t == (s + [t[0]]) + t[1..];
      PrependAppend(s + [t[0]], t[1..], rest);
      PrependSnoc(s, t[0], Prepend(t[1..], rest));
    }
  }
}
