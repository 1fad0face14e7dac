/** The Z80 block copy instructions LDIR and LDDR, run in slices of a cycle budget. */
module BlockCopy {
  import opened Common

  type Memory = m: seq<Byte> | |m| == 0x10000 witness seq(0x10000, _ => 0)

  datatype Flags = Flags(s: bool, z: bool, y: bool, h: bool, x: bool, p: bool, n: bool, c: bool)

  datatype State = State(mem: Memory, a: Byte, f: Flags, bc: Word, de: Word, hl: Word, pc: Word, r: int, cycles: int)

  /** S, Z and C are kept; X and Y come from the byte copied plus A. */
  function CopyFlags(f: Flags, n: int, more: bool): Flags {
    Flags(f.s, f.z, n / 2 % 2 == 1, false, n / 8 % 2 == 1, more, false, f.c)
  }

  /** Bit 1 and bit 3 of the last byte copied plus A. */
  predicate UndocumentedBits(f: Flags, n: int) {
    f.y == (n % 4 >= 2) && f.x == (n % 16 >= 8)
  }

  lemma CopyFlagsMean(f: Flags, n: int, more: bool)
    ensures var g := CopyFlags(f, n, more);
            g.s == f.s && g.z == f.z && g.c == f.c && !g.h && !g.n && g.p == more && UndocumentedBits(g, n)
  {
    BitOf(n, 2);
    BitOf(n, 8);
  }

  lemma BitOf(n: int, d: nat)
    requires d == 2 || d == 8
    ensures n / d % 2 == 1 <==> n % (2 * d) >= d
  {
    var q, r := n / (2 * d), n % (2 * d);
    if d == 2 {
      assert n == 4 * q + r && n / 2 == 2 * q + r / 2;
    } else {
      assert n == 16 * q + r && n / 8 == 2 * q + r / 8;
    }
  }

  /** The refresh register counts modulo 128; its top bit is kept. */
  function Refresh(r: int, k: int): int {
    r / 0x80 * 0x80 + (r % 0x80 + k) % 0x80
  }

  /** A distance in the direction of the copy. */
  function Off(up: bool, k: int): int {
    if up then k else -k
  }

  function Opcode(up: bool): Byte {
    if up then 0xB0 else 0xB8
  }

  ghost predicate AtInstruction(s: State, up: bool) {
    s.mem[s.pc] == 0xED && s.mem[Wrap(s.pc + 1)] == Opcode(up)
  }

  /** One byte: the simple meaning of the instruction, repeated while BC is not 0. */
  function Step(s: State, up: bool): State {
    var n, bc := s.mem[s.hl], Wrap(s.bc - 1);
    s.(mem := s.mem[s.de := n],
       f := CopyFlags(s.f, n + s.a, bc != 0),
       bc := bc, de := Wrap(s.de + Off(up, 1)), hl := Wrap(s.hl + Off(up, 1)),
       pc := if bc != 0 then s.pc else Wrap(s.pc + 2),
       r := Refresh(s.r, 2),
       cycles := s.cycles + (if bc != 0 then 21 else 16))
  }

  function Steps(s: State, up: bool, k: nat): State {
    if k == 0 then s else Step(Steps(s, up, k - 1), up)
  }

  lemma {:induction false} StepsAdd(s: State, up: bool, j: nat, k: nat)
    ensures Steps(Steps(s, up, j), up, k) == Steps(s, up, j + k)
    decreases k
  {
    hide Step;
    if k > 0 {
      StepsAdd(s, up, j, k - 1);
      assert j + k - 1 == j + (k - 1);
    }
  }

  /** How many bytes there are to copy: BC, or 65536 when BC is 0. */
  function Count(s: State): nat {
    if s.bc == 0 then 0x10000 else s.bc
  }

  lemma {:induction false} StepsPointers(s: State, up: bool, k: nat)
    ensures var t := Steps(s, up, k);
            t.de == Wrap(s.de + Off(up, k)) && t.hl == Wrap(s.hl + Off(up, k)) && t.a == s.a
    decreases k
  {
    hide Wrap, Refresh, CopyFlags;
    if k == 0 {
      SmallWrap(s.de);
      SmallWrap(s.hl);
    } else {
      StepsPointers(s, up, k - 1);
      WrapAdd(s.de + Off(up, k - 1), Off(up, 1));
      WrapAdd(s.hl + Off(up, k - 1), Off(up, 1));
    }
  }

  lemma {:induction false} StepsRegisters(s: State, up: bool, k: nat)
    requires k <= Count(s)
    ensures var t := Steps(s, up, k);
            && t.bc == Wrap(Count(s) - k) && t.de == Wrap(s.de + Off(up, k)) && t.hl == Wrap(s.hl + Off(up, k))
            && t.a == s.a
            && t.pc == (if k == Count(s) then Wrap(s.pc + 2) else s.pc)
            && t.cycles == s.cycles + 21 * k - (if k == Count(s) then 5 else 0)
    decreases k
  {
    StepsPointers(s, up, k);
    hide Refresh, CopyFlags, Wrap;
    SmallWrap(Count(s) - k);
    if k > 0 {
      StepsRegisters(s, up, k - 1);
      WrapAdd(Count(s) - (k - 1), -1);
    } else {
      WholeTurn(s.bc);
      SmallWrap(s.bc);
    }
  }

  /** The flags depend on the last byte only. */
  lemma {:induction false} StepsFlags(s: State, up: bool, k: nat)
    requires k > 0
    ensures var u := Steps(s, up, k - 1);
            Steps(s, up, k).f == CopyFlags(s.f, u.mem[u.hl] + u.a, Steps(s, up, k).bc != 0)
    decreases k
  {
    hide Wrap, Refresh;
    if k > 1 { StepsFlags(s, up, k - 1); }
  }

  lemma SmallWrap(x: int)
    ensures 0 <= x < 0x10000 ==> Wrap(x) == x
  {
  }

  lemma RefreshIsByte(r: int, k: int)
    requires 0 <= r < 0x100
    ensures 0 <= Refresh(r, k) < 0x100
  {
  }

  lemma RefreshMeans(r: int, k: nat)
    requires 0 <= r < 0x100
    ensures var t := Refresh(r, k);
            0 <= t < 0x100 && (t >= 0x80 <==> r >= 0x80) && (t - r - k) % 0x80 == 0
  {
    var low := r % 0x80;
    var q := (low + k) / 0x80;
    assert Refresh(r, k) - r - k == 0x80 * (0 - q);
  }

  /** The last byte is found where it was copied to. */
  lemma LastByte(s: State, up: bool, k: nat)
    requires k > 0
    ensures var u := Steps(s, up, k - 1);
            Steps(s, up, k).mem[Wrap(s.de + Off(up, k - 1))] == u.mem[u.hl]
  {
    StepsPointers(s, up, k - 1);
  }

  lemma RefreshAdd(r: int, j: int, k: int)
    requires 0 <= r < 0x100
    ensures Refresh(Refresh(r, j), k) == Refresh(r, j + k)
  {
    var top, low := r / 0x80 * 0x80, (r % 0x80 + j) % 0x80;
    assert (top + low) % 0x80 == low && (top + low) / 0x80 == r / 0x80;
  }

  lemma {:induction false} StepsRefresh(s: State, up: bool, k: nat)
    requires 0 <= s.r < 0x100
    ensures Steps(s, up, k).r == Refresh(s.r, 2 * k)
    decreases k
  {
    if k > 0 {
      StepsRefresh(s, up, k - 1);
      RefreshAdd(s.r, 2 * (k - 1), 2);
    }
  }

  // ----- what is copied -----

  /** The address `i` places from the source start, in the direction of the copy. */
  function From(s: State, up: bool, i: int): Word {
    Wrap(s.hl + Off(up, i))
  }

  /** How far ahead of the source the destination is, in the direction of the copy. */
  function Lead(s: State, up: bool): nat {
    Wrap(Off(up, s.de - s.hl))
  }

  lemma Opposite(x: int, y: int)
    ensures Wrap(x + Wrap(y)) == Wrap(x + y) && Wrap(x - Wrap(y)) == Wrap(x - y)
  {
  }

  lemma DestinationIsAhead(s: State, up: bool, i: int)
    ensures Wrap(s.de + Off(up, i)) == From(s, up, Lead(s, up) + i)
  {
    var z := Off(up, s.de - s.hl);
    if up {
      Opposite(s.hl + i, z);
    } else {
      Opposite(s.hl - i, z);
    }
  }

  lemma FromDistinct(s: State, up: bool, i: int, j: int)
    requires 0 <= i < 0x10000 && 0 <= j < 0x10000
    ensures From(s, up, i) == From(s, up, j) <==> i == j
  {
  }

  ghost predicate RepeatsAt(s: State, up: bool, mem: Memory, i: nat)
    requires Lead(s, up) > 0
  {
    mem[From(s, up, i)] == s.mem[From(s, up, i % Lead(s, up))]
  }

  /** After `k` bytes memory repeats the source with the period of the lead. */
  ghost predicate Repeated(s: State, up: bool, k: nat, mem: Memory)
    requires Lead(s, up) > 0
  {
    && (forall i {:trigger RepeatsAt(s, up, mem, i)} :: 0 <= i < Lead(s, up) + k ==> RepeatsAt(s, up, mem, i))
    && (forall i {:trigger mem[From(s, up, i)]} ::
          Lead(s, up) + k <= i < 0x10000 ==> mem[From(s, up, i)] == s.mem[From(s, up, i)])
  }

  lemma RepeatedNext(s: State, up: bool, k: nat, mem: Memory)
    requires Lead(s, up) > 0 && Lead(s, up) + k < 0x10000 && Repeated(s, up, k, mem)
    ensures Repeated(s, up, k + 1, mem[From(s, up, Lead(s, up) + k) := mem[From(s, up, k)]])
  {
    var lead := Lead(s, up);
    var w := lead + k;
    var mem2 := mem[From(s, up, w) := mem[From(s, up, k)]];
    SamePeriod(k, lead);
    hide From, Wrap, Lead;
    assert RepeatsAt(s, up, mem, k);
    forall i | 0 <= i < lead + (k + 1) ensures RepeatsAt(s, up, mem2, i) {
      if i != w {
        FromDistinct(s, up, i, w);
        assert RepeatsAt(s, up, mem, i);
      }
    }
    forall i | lead + (k + 1) <= i < 0x10000 ensures mem2[From(s, up, i)] == s.mem[From(s, up, i)] {
      FromDistinct(s, up, i, w);
    }
  }

  lemma RepeatedNone(s: State, up: bool)
    requires Lead(s, up) > 0
    ensures Repeated(s, up, 0, s.mem)
  {
    hide From, Lead;
    var lead := Lead(s, up);
    forall i | 0 <= i < lead ensures RepeatsAt(s, up, s.mem, i) { SmallRemainder(i, lead); }
  }

  lemma StepMemory(s: State, up: bool, k: nat)
    ensures Steps(s, up, 0) == s
    ensures var u := Steps(s, up, k);
            Steps(s, up, k + 1).mem == u.mem[u.de := u.mem[u.hl]]
  {
  }

  /** A copy of `k` bytes reads back the source with the period of the lead: with a lead
      of at least `k` it is a plain copy, with less it repeats what lies between. */
  lemma {:induction false} CopyRepeats(s: State, up: bool, k: nat)
    requires Lead(s, up) > 0 && Lead(s, up) + k <= 0x10000
    ensures Repeated(s, up, k, Steps(s, up, k).mem)
    decreases k
  {
    hide From, Wrap, Lead, Steps, Repeated;
    if k == 0 {
      StepMemory(s, up, 0);
      RepeatedNone(s, up);
    } else {
      CopyRepeats(s, up, k - 1);
      StepMemory(s, up, k - 1);
      StepsPointers(s, up, k - 1);
      DestinationIsAhead(s, up, k - 1);
      FromAt(s, up, k - 1);
      RepeatedNext(s, up, k - 1, Steps(s, up, k - 1).mem);
    }
  }

  /** Destination clear of the source: every byte arrives. */
  lemma CopyIsFaithful(s: State, up: bool)
    requires s.bc <= Lead(s, up) && Lead(s, up) + s.bc <= 0x10000
    ensures forall i ::
              0 <= i < s.bc ==> Steps(s, up, s.bc).mem[Wrap(s.de + Off(up, i))] == s.mem[Wrap(s.hl + Off(up, i))]
  {
    if s.bc > 0 {
      CopyRepeats(s, up, s.bc);
      hide Wrap, Lead, Steps, From, Off;
      var lead := Lead(s, up);
      forall i | 0 <= i < s.bc
        ensures Steps(s, up, s.bc).mem[Wrap(s.de + Off(up, i))] == s.mem[Wrap(s.hl + Off(up, i))]
      {
        DestinationIsAhead(s, up, i);
        FromAt(s, up, i);
        assert RepeatsAt(s, up, Steps(s, up, s.bc).mem, lead + i);
        SamePeriod(i, lead);
        SmallRemainder(i, lead);
      }
    }
  }

  lemma LeadOne(s: State, up: bool)
    requires s.de == Wrap(s.hl + Off(up, 1))
    ensures Lead(s, up) == 1
  {
  }

  /** Destination one ahead of the source: the first byte fills the area. */
  lemma CopyFills(s: State, up: bool)
    requires s.de == Wrap(s.hl + Off(up, 1))
    ensures forall i :: 0 <= i < s.bc ==> Steps(s, up, s.bc).mem[Wrap(s.de + Off(up, i))] == s.mem[s.hl]
  {
    LeadOne(s, up);
    CopyRepeats(s, up, s.bc);
    FromAt(s, up, 0);
    SmallWrap(s.hl);
    hide Wrap, Lead, Steps;
    forall i | 0 <= i < s.bc ensures Steps(s, up, s.bc).mem[Wrap(s.de + Off(up, i))] == s.mem[s.hl] {
      DestinationIsAhead(s, up, i);
      assert RepeatsAt(s, up, Steps(s, up, s.bc).mem, 1 + i);
    }
  }

  lemma FromAt(s: State, up: bool, i: int)
    ensures From(s, up, i) == Wrap(s.hl + Off(up, i))
  {
  }

  lemma SmallRemainder(i: nat, m: nat)
    requires i < m
    ensures i % m == i
  {
  }

  lemma SamePeriod(i: nat, m: nat)
    requires m > 0
    ensures (m + i) % m == i % m
  {
    var q, r := i / m, i % m;
    assert m + i == (q + 1) * m + r;
    Decompose(q + 1, r, m);
  }

  // ----- the instruction's own bytes -----

  function Dest(s: State, up: bool, i: int): Word {
    Wrap(s.de + Off(up, i))
  }

  /** The copy never writes to its own instruction. */
  ghost predicate Untouched(s: State, up: bool) {
    forall i {:trigger Dest(s, up, i)} ::
      0 <= i < Count(s) ==> Dest(s, up, i) != s.pc && Dest(s, up, i) != Wrap(s.pc + 1)
  }

  /** Whenever the copy stops short, its instruction can be read again. */
  ghost predicate Intact(s: State, up: bool) {
    forall k {:trigger Steps(s, up, k)} :: 0 <= k < Count(s) ==> AtInstruction(Steps(s, up, k).(pc := s.pc), up)
  }

  lemma {:induction false} InstructionKept(s: State, up: bool, k: nat)
    requires k <= Count(s) && Untouched(s, up)
    ensures Steps(s, up, k).mem[s.pc] == s.mem[s.pc] && Steps(s, up, k).mem[Wrap(s.pc + 1)] == s.mem[Wrap(s.pc + 1)]
    decreases k
  {
    hide Wrap, Steps;
    StepMemory(s, up, 0);
    if k > 0 {
      InstructionKept(s, up, k - 1);
      StepMemory(s, up, k - 1);
      StepsPointers(s, up, k - 1);
      assert Steps(s, up, k - 1).de == Dest(s, up, k - 1);
    }
  }

  lemma UntouchedIsIntact(s: State, up: bool)
    requires AtInstruction(s, up) && Untouched(s, up)
    ensures Intact(s, up)
  {
    hide Wrap, Steps, Untouched;
    forall k | 0 <= k < Count(s) ensures AtInstruction(Steps(s, up, k).(pc := s.pc), up) {
      InstructionKept(s, up, k);
    }
  }

  /** Everything about the state after `k` bytes but the memory. */
  lemma StepsSummary(s: State, up: bool, k: nat)
    requires 1 <= k <= Count(s) && 0 <= s.r < 0x100
    ensures var t, u := Steps(s, up, k), Steps(s, up, k - 1);
            t == State(t.mem, s.a, CopyFlags(s.f, u.mem[u.hl] + s.a, k < Count(s)), Wrap(Count(s) - k),
                       Wrap(s.de + Off(up, k)), Wrap(s.hl + Off(up, k)),
                       if k < Count(s) then s.pc else Wrap(s.pc + 2), Refresh(s.r, 2 * k),
                       s.cycles + 21 * k - (if k < Count(s) then 0 else 5))
  {
    hide Wrap, Steps, Refresh, CopyFlags;
    StepsRegisters(s, up, k);
    StepsPointers(s, up, k - 1);
    StepsFlags(s, up, k);
    StepsRefresh(s, up, k);
    SmallWrap(Count(s) - k);
  }

  /** The registers and flags when the copy is complete. */
  lemma Ended(s: State, up: bool)
    ensures var t := Steps(s, up, Count(s));
            && t.bc == 0 && t.a == s.a && t.pc == Wrap(s.pc + 2) && t.cycles == s.cycles + 21 * (Count(s) - 1) + 16
            && t.hl == Wrap(if up then s.hl + s.bc else s.hl - s.bc)
            && t.de == Wrap(if up then s.de + s.bc else s.de - s.bc)
            && !t.f.p && !t.f.h && !t.f.n && t.f.s == s.f.s && t.f.z == s.f.z && t.f.c == s.f.c
  {
    hide Wrap, Steps, CopyFlags, UndocumentedBits;
    StepsRegisters(s, up, Count(s));
    StepsFlags(s, up, Count(s));
    var u := Steps(s, up, Count(s) - 1);
    CopyFlagsMean(s.f, u.mem[u.hl] + u.a, false);
    SmallWrap(0);
    WholeTurn(s.hl);
    WholeTurn(s.de);
  }

  lemma Resumable(s: State, up: bool, k: nat)
    requires k < Count(s) && Intact(s, up)
    ensures AtInstruction(Steps(s, up, k), up)
  {
    hide Wrap, Steps;
    StepsRegisters(s, up, k);
    assert AtInstruction(Steps(s, up, k).(pc := s.pc), up);
  }

  /** Counting cycles from zero again changes nothing else. */
  lemma {:induction false} CyclesShift(s: State, up: bool, k: nat, c: int)
    ensures Steps(s.(cycles := c), up, k) == Steps(s, up, k).(cycles := Steps(s, up, k).cycles - s.cycles + c)
    decreases k
  {
    hide Wrap, Refresh, CopyFlags, Off;
    if k > 0 { CyclesShift(s, up, k - 1, c); }
  }

  lemma Continued(s: State, up: bool, k: nat, done: nat, before: State, total: int)
    requires before.(cycles := total) == Steps(s, up, k) && before.cycles == 0
    ensures var t := Steps(before, up, done);
            Steps(s, up, k + done) == t.(cycles := total + t.cycles)
  {
    StepsAdd(s, up, k, done);
    CyclesShift(before, up, done, total);
  }

  class Cpu {
    const mem: array<Byte>
    var a: Byte
    var f: Flags
    var bc: Word
    var de: Word
    var hl: Word
    var pc: Word
    var r: Byte

    constructor (image: array<Byte>)
      ensures mem == image
    {
      mem := image;
    }

    ghost function At(cycles: int): State
      requires mem.Length == 0x10000
      reads this, mem
    {
      State(mem[..], a, f, bc, de, hl, pc, r, cycles)
    }

    /** The loop of the instruction: copy until done or out of budget. The counters are
        full integers here, cut to 16 bits only when they go back to the registers, so a
        count that starts at 0 goes below zero and never comes to 0. */
    method CopyBytes(up: bool, number: int, ghost s: State) returns (n: Byte, elapsed: int, stopped: bool, k: nat)
      requires mem.Length == 0x10000 && s == At(0)
      modifies mem
      ensures k >= 1 && mem[..] == Steps(s, up, k).mem && (s.bc > 0 ==> k <= s.bc)
      ensures stopped == !(s.bc > 0 && k == s.bc)
      ensures var u := Steps(s, up, k - 1); n == u.mem[u.hl]
      ensures elapsed == 21 * k - (if stopped then 0 else 5)
      ensures stopped ==> 21 * k >= number
      ensures k == 1 || 21 * (k - 1) < number
    {
      hide Wrap, Steps;
      var bcc: int, dee: int, hll: int := bc, de, hl;
      elapsed, k := 0, 0;
      StepMemory(s, up, 0);
      while true
        invariant bcc == s.bc - k && (s.bc > 0 ==> k < s.bc) && elapsed == 21 * k
        invariant hll == s.hl + Off(up, k) && dee == s.de + Off(up, k)
        invariant mem[..] == Steps(s, up, k).mem
        invariant k == 0 || 21 * k < number
        decreases if s.bc > 0 then bcc else if k == 0 then (if number < 0 then 1 else number + 1) else number - 21 * k
      {
        StepsPointers(s, up, k);
        StepMemory(s, up, k);
        n := mem[Wrap(hll)];
        mem[Wrap(dee)] := n;
        hll, dee, bcc := hll + Off(up, 1), dee + Off(up, 1), bcc - 1;
        k := k + 1;
        if bcc != 0 {
          elapsed := elapsed + 21;
          if elapsed >= number {
            stopped := true;
            break;
          }
        } else {
          elapsed := elapsed + 16;
          stopped := false;
          break;
        }
      }
    }

    /** One call of the emulator on a block copy: it goes on until the copy is complete
        or the budget is used up, in which case the instruction will be fetched again.
        With BC at 0 the copy is 65536 bytes long, and the call follows it if and only if
        the budget stops it before the last of them; otherwise it runs past the end. */
    method Slice(number: int, ghost up: bool) returns (elapsed: int, ghost done: nat)
      requires mem.Length == 0x10000 && AtInstruction(At(0), up)
      modifies this, mem
      ensures done >= 1 && (done == 1 || 21 * (done - 1) < number)
      ensures old(bc) > 0 || number <= LAST_STOP ==>
                done <= Count(old(At(0))) && At(elapsed) == Steps(old(At(0)), up, done)
      ensures old(bc) > 0 || number <= LAST_STOP ==> done == Count(old(At(0))) || 21 * done >= number
      ensures old(bc) == 0 && number <= LAST_STOP ==> done < 0x10000
      ensures old(bc) == 0 && number > LAST_STOP ==>
                done >= 0x10000 && pc == old(pc) && mem[..] == Steps(old(At(0)), up, done).mem
      ensures hl == Wrap(if up then old(hl) + done else old(hl) - done)
      ensures de == Wrap(if up then old(de) + done else old(de) - done)
      ensures bc == Wrap(old(bc) - done) && a == old(a) && pc == if f.p then old(pc) else Wrap(old(pc) + 2)
      ensures elapsed == 21 * done - (if f.p then 0 else 5)
      ensures (r >= 0x80 <==> old(r) >= 0x80) && (r - old(r) - 2 * done) % 0x80 == 0
      ensures f.s == old(f).s && f.z == old(f).z && f.c == old(f).c && !f.h && !f.n
      ensures UndocumentedBits(f, mem[Wrap(old(de) + (if up then done - 1 else 1 - done))] + a)
      ensures old(bc) > 0 || number <= 21 * 0xFFFF ==> (f.p <==> bc != 0)
    {
      hide Wrap, Steps, Refresh, CopyFlags, UndocumentedBits;
      ghost var s := At(0);
      var opcode := mem[Wrap(pc + 1)];
      var dir := opcode == 0xB0;
      var n, cycles, stopped, k := CopyBytes(dir, number, s);
      elapsed, done := cycles, k;
      if k <= Count(s) {
        StepsSummary(s, up, k);
        WrapCount(s.bc, k);
        SmallWrap(Count(s) - k);
      }
      hl, de, bc := Wrap(hl + Off(dir, k)), Wrap(de + Off(dir, k)), Wrap(bc - k);
      LastByte(s, up, k);
      CopyFlagsMean(f, n + a, stopped);
      RefreshMeans(r, 2 * k);
      f := CopyFlags(f, n + a, stopped);
      RefreshIsByte(r, 2 * k);
      r := Refresh(r, 2 * k);
      pc := if stopped then pc else Wrap(pc + 2);
    }

    /** Stopping and resuming under any budgets gives what the plain repetition gives, in
        the same number of cycles; a copy of 65536 bytes must be stopped once. */
    method Complete(budget: nat -> int, ghost up: bool) returns (total: int)
      requires mem.Length == 0x10000 && AtInstruction(At(0), up) && Intact(At(0), up)
      requires bc > 0 || budget(0) <= LAST_STOP
      modifies this, mem
      ensures At(total) == Steps(old(At(0)), up, Count(old(At(0))))
      ensures total == 21 * (Count(old(At(0))) - 1) + 16
      ensures bc == 0 && a == old(a) && pc == Wrap(old(pc) + 2)
      ensures hl == Wrap(if up then old(hl) + old(bc) else old(hl) - old(bc))
      ensures de == Wrap(if up then old(de) + old(bc) else old(de) - old(bc))
      ensures !f.p && !f.h && !f.n && f.s == old(f).s && f.z == old(f).z && f.c == old(f).c
    {
      hide Wrap, Steps, Refresh, CopyFlags, UndocumentedBits;
      ghost var s, k := At(0), 0;
      var calls, start, more := 0, pc, true;
      total := 0;
      StepMemory(s, up, 0);
      while more
        invariant 0 <= k <= Count(s) && (more <==> k < Count(s)) && At(total) == Steps(s, up, k)
        invariant k == 0 <==> calls == 0
        decreases Count(s) - k
      {
        Resumable(s, up, k);
        StepsRegisters(s, up, k);
        SmallWrap(Count(s) - k);
        ghost var before := At(0);
        var elapsed, done := Slice(budget(calls), up);
        Continued(s, up, k, done, before, total);
        total := total + elapsed;
        k := k + done;
        StepsRegisters(s, up, k);
        PastTheEnd(s.pc);
        more := pc == start;
        calls := calls + 1;
      }
      Ended(s, up);
    }
  }

  /** The largest budget that stops a copy of 65536 bytes before its last byte. */
  const LAST_STOP := 21 * 0xFFFF

  lemma WholeTurn(x: Word)
    ensures Wrap(x + 0x10000) == x && Wrap(x - 0x10000) == x && Wrap(x) == x
  {
  }

  lemma WrapCount(bc: Word, k: nat)
    ensures Wrap(bc - k) == Wrap((if bc == 0 then 0x10000 else bc) - k)
  {
    WrapAdd(0x10000, 0 - k);
  }

  lemma PastTheEnd(pc: Word)
    ensures Wrap(pc + 2) != pc
  {
  }
}
