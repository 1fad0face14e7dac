/** Requests of 65275 to 65529 bytes, for which the growth malloc asks for wraps to no
    bytes at all. A free run that holds the request is still handed out, and malloc still
    fails when the stack is near. Otherwise it hangs a chunk of no bytes on the arena: at
    an adjoining break it then searches for ever, and above a gap it leaves a broken ring
    and fails. */
module HeapBand {
  import opened Heap

  /** Exactly the band has no growth. */
  lemma BandHasNoGrowth(n: nat)
    requires n < WORD
    ensures Growth(Rounded(n)) == 0 <==> 65275 <= n <= 65529
    ensures 65275 <= n <= 65529 ==> Rounded(n) % UNIT == 0 && Rounded(n) > 0
  {
    var x := (n + 5) % WORD;
    var nw := x / 3 * 3;
    assert Rounded(n) == nw && x - 2 <= nw <= x;
    var y := nw + 257;
    assert Growth(nw) == y % WORD / 255 * 255;
    assert y % WORD == if y < WORD then y else y - WORD;
  }

  /** Memory after a chunk of no bytes was hung at the break `q`: the header meant for its
      end is just below the break, and the one at the break lies outside the chunk. */
  ghost function HungNothing(m: Memory, lo: int, hi: int, q: int): Memory
    requires hi in m && q in m && q - UNIT in m
  {
    if q == hi + UNIT then
      m[hi := SetBusy(ClearBusy(m[hi].(ptr := lo)))][q := ClearBusy(m[q].(ptr := hi))]
    else
      m[hi := SetBusy(m[hi].(ptr := q))][q - UNIT := SetBusy(m[q - UNIT].(ptr := lo))]
       [q := ClearBusy(m[q].(ptr := q - UNIT))]
  }

  method HangNothing(m: Memory, lo: int, hi: int, q: int) returns (m': Memory)
    requires hi in m && q in m && q - UNIT in m && (q == hi + UNIT || hi + 2 * UNIT <= q)
    ensures m' == HungNothing(m, lo, hi, q)
  {
    m' := m[hi := m[hi].(ptr := q)];
    m' := m'[hi := if q != hi + UNIT then SetBusy(m'[hi]) else ClearBusy(m'[hi])];
    m' := m'[q := m'[q].(ptr := q - UNIT)];
    m' := m'[q - UNIT := m'[q - UNIT].(ptr := lo)];
    m' := m'[q - UNIT := SetBusy(m'[q - UNIT])];
    m' := m'[q := ClearBusy(m'[q])];
  }

  lemma NotACell(m: Memory, top: int)
    requires Layout(m.Keys, top)
    ensures top !in m
  {
    assert top in m ==> Apart(top, top);
  }

  /** At an adjoining break nothing but the cell at the break changes. */
  lemma HungAdjoining(m: Memory, r: set<int>, lo: int, hi: int, live: set<int>, top: int, c: Cell)
    requires Sound(m, r, lo, hi, live) && Layout(m.Keys, top) && top == hi + UNIT
    ensures top !in m && HungNothing(m[top := c], lo, hi, top) - {top} == m
  {
    NotACell(m, top);
    var m' := HungNothing(m[top := c], lo, hi, top);
    assert m'[hi] == m[hi];
  }

  lemma StillNothingFits(m: Memory, r: set<int>, lo: int, hi: int, live: set<int>, nw: int)
    requires Sound(m, r, lo, hi, live) && forall x :: x in r ==> Checked(m, nw, x)
    ensures !RunFits(m, r, nw)
  {
    CoarserRefl(m, r, lo, hi);
    NothingFits(m, r, m, r, lo, hi, nw);
  }

  /** What came of a call, or of as many turns of its loop as were looked at. */
  datatype Answer = Handed | Refused | Broken | Searching

  /** One pass: a block found is cut; otherwise malloc asks for no bytes, which fails near
      the stack. */
  method Pass(h: Allocator, nw: nat, start: int) returns (answer: Answer, r: int)
    requires h.Valid() && h.Started() && start in h.ring && 0 < nw && nw % UNIT == 0
    modifies h
    ensures h.Valid() && h.Started() && h.memtop == old(h.memtop) && h.alloct == old(h.alloct) && h.sp == old(h.sp)
    ensures answer == if RunFits(old(h.mem), old(h.ring), nw) then Handed
                      else if h.memtop + STACK_GAP < h.sp then Searching else Refused
    ensures answer.Handed? ==> r != 0 && h.Anchored() && h.Handed(r - UNIT, nw, old(h.live))
    ensures answer.Handed? ==> FirstFit(old(h.mem), old(h.ring), start, nw, r - UNIT)
    ensures !answer.Handed? ==> r == 0 && h.live == old(h.live) && h.allocs in h.ring
    ensures !answer.Handed? ==> forall x :: x in h.ring ==> Checked(h.mem, nw, x)
    ensures LiveKept(old(h.mem), old(h.live), h.mem)
  {
    hide Sound, Layout, RunFits, FirstFit, OnlyHeaders, LiveKept, Checked, Coarser;
    ghost var m0, r0, hi, live := h.mem, h.ring, h.alloct, h.live;
    HeadersSame(m0, r0, live, h.allocs);
    assert forall x :: x in r0 ==> x in r0 || x >= h.memtop;
    var found, p := h.Scan(start, nw);
    CoarserKeys(m0, r0, h.mem, h.ring);
    LowestLeads(h.mem, h.ring, h.allocs, hi, live);
    ScanTouchesHeaders(m0, r0, h.allocs, hi, live, m0, r0, h.mem, h.ring, h.memtop);
    if found {
      FreeLeads(h.mem, h.ring, h.allocs, hi, live, p);
      CutFrames(m0, r0, h.allocs, hi, live, h.mem, h.ring, hi, p, nw, h.memtop);
      ghost var split := h.Cut(p, nw);
      return Handed, p + UNIT;
    }
    LowestIsNotLive(m0, r0, h.allocs, hi, live);
    LowestIsNotLive(h.mem, h.ring, h.allocs, hi, live);
    HeadersKeepLive(m0, r0, h.allocs, hi, live, h.mem, h.allocs);
    var q := h.Sbrk(0);
    return if q == WORD - 1 then Refused else Searching, 0;
  }

  /** One turn at an adjoining break: a pass, and if it is fruitless a growth by nothing.
      `c` is what happens to be at the break. */
  method Turn(h: Allocator, nw: nat, start: int, c: Cell) returns (answer: Answer, r: int)
    requires h.Valid() && h.Started() && start in h.ring && 0 < nw && nw % UNIT == 0 && h.memtop == h.alloct + UNIT
    modifies h
    ensures h.Valid() && h.Started() && h.memtop == old(h.memtop) && h.alloct == old(h.alloct) && h.sp == old(h.sp)
    ensures answer == if RunFits(old(h.mem), old(h.ring), nw) then Handed
                      else if h.memtop + STACK_GAP < h.sp then Searching else Refused
    ensures answer.Handed? ==> r != 0 && h.Anchored() && h.Handed(r - UNIT, nw, old(h.live))
    ensures answer.Handed? ==> FirstFit(old(h.mem), old(h.ring), start, nw, r - UNIT)
    ensures !answer.Handed? ==> r == 0 && h.live == old(h.live) && h.allocs in h.ring && !RunFits(h.mem, h.ring, nw)
    ensures LiveKept(old(h.mem), old(h.live), h.mem)
  {
    hide RunFits, FirstFit, LiveKept, Checked;
    answer, r := Pass(h, nw, start);
    if !answer.Handed? {
      StillNothingFits(h.mem, h.ring, h.allocs, h.alloct, h.live, nw);
    }
    if answer.Searching? {
      var q := h.memtop;
      HungAdjoining(h.mem, h.ring, h.allocs, h.alloct, h.live, q, c);
      var m := HangNothing(h.mem[q := c], h.allocs, h.alloct, q);
      h.mem := m - {q};   // the cell at the break is no cell of the arena
    }
  }

  lemma KeptTwice(m0: Memory, live: set<int>, m1: Memory, m2: Memory)
    requires LiveKept(m0, live, m1) && LiveKept(m1, live, m2)
    ensures LiveKept(m0, live, m2)
  {
    forall h, x | h in live && h in m0 && x in m0 && h <= x < m0[h].ptr ensures x in m2 && m2[x] == m0[x] {
      assert h <= h < m0[h].ptr && m1[h] == m0[h];
    }
  }

  /** At an adjoining break: whatever number of turns is looked at, a request that does
      not fit and does not come near the stack has not been answered. */
  method Turns(h: Allocator, nw: nat, start: int, turns: nat, c: Cell) returns (answer: Answer, r: int)
    requires h.Valid() && h.Started() && start in h.ring && 0 < nw && nw % UNIT == 0 && h.memtop == h.alloct + UNIT
    requires turns > 0
    modifies h
    ensures h.Valid() && h.Started() && h.memtop == old(h.memtop) && h.sp == old(h.sp)
    ensures answer == if RunFits(old(h.mem), old(h.ring), nw) then Handed
                      else if h.memtop + STACK_GAP < h.sp then Searching else Refused
    ensures answer.Handed? ==> r != 0 && h.Anchored() && h.Handed(r - UNIT, nw, old(h.live))
    ensures answer.Handed? ==> FirstFit(old(h.mem), old(h.ring), start, nw, r - UNIT)
    ensures !answer.Handed? ==> r == 0 && h.live == old(h.live) && !RunFits(h.mem, h.ring, nw)
    ensures LiveKept(old(h.mem), old(h.live), h.mem)
  {
    hide Sound, Layout, RunFits, FirstFit, LiveKept;
    answer, r := Turn(h, nw, start, c);
    var i := 1;
    while i < turns && answer.Searching?
      invariant h.Valid() && h.Started() && h.memtop == old(h.memtop) && h.alloct == old(h.alloct) && h.sp == old(h.sp)
      invariant answer == if RunFits(old(h.mem), old(h.ring), nw) then Handed
                          else if h.memtop + STACK_GAP < h.sp then Searching else Refused
      invariant answer.Handed? ==> r != 0 && h.Anchored() && h.Handed(r - UNIT, nw, old(h.live))
      invariant answer.Handed? ==> FirstFit(old(h.mem), old(h.ring), start, nw, r - UNIT)
      invariant !answer.Handed? ==> r == 0 && h.live == old(h.live) && h.allocs in h.ring && !RunFits(h.mem, h.ring, nw)
      invariant LiveKept(old(h.mem), old(h.live), h.mem)
    {
      ghost var m1 := h.mem;
      answer, r := Turn(h, nw, h.allocs, c);
      KeptTwice(old(h.mem), old(h.live), m1, h.mem);
      i := i + 1;
    }
  }

  // ----- above a gap -----

  /** How a pass of malloc's search ends on memory that need not be a ring. */
  datatype Verdict = Unfinished | Astray | Fits(m: Memory, p: int) | Null(m: Memory) | Fruitless(m: Memory)

  /** At most `k` steps of the pass: merge, take, go on, give up on a link that leads down
      from below the top, or stop at the second wrap. */
  function Walk(m: Memory, p: int, temp: nat, nw: nat, lo: int, top: int, k: nat): Verdict
    decreases k
  {
    if k == 0 then Unfinished
    else if p !in m || (!Busy(m[p]) && m[p].ptr !in m) then Astray
    else if !Busy(m[p]) && !Busy(m[m[p].ptr]) then
      Walk(m[p := m[p].(ptr := m[m[p].ptr].ptr)], p, temp, nw, lo, top, k - 1)
    else if !Busy(m[p]) && m[p].ptr >= p + nw then Fits(m, p)
    else if m[p].ptr > p then Walk(m, m[p].ptr, temp, nw, lo, top, k - 1)
    else if p != top || m[p].ptr != lo then Null(m)
    else if temp >= 1 then Fruitless(m)
    else Walk(m, lo, temp + 1, nw, lo, top, k - 1)
  }

  /** Memory after a growth by nothing above a gap, where `c` and `d` happened to be at the
      break and just below it. */
  ghost function HungApart(m: Memory, lo: int, hi: int, q: int, c: Cell, d: Cell): Memory
    requires hi in m
  {
    HungNothing(m[q := c][q - UNIT := d], lo, hi, q)
  }

  lemma HungApartIs(m: Memory, lo: int, hi: int, q: int, c: Cell, d: Cell)
    requires hi in m
    ensures HungApart(m, lo, hi, q, c, d) == HungNothing(m[q := c][q - UNIT := d], lo, hi, q)
  {
  }

  /** The pass after it gives up. */
  lemma {:induction false} WalkGivesUp(m: Memory, r: set<int>, lo: int, hi: int, live: set<int>, q: int,
                                       c: Cell, d: Cell, nw: nat, x: int)
    returns (k: nat)
    requires Sound(m, r, lo, hi, live) && forall y :: y in r ==> Checked(m, nw, y)
    requires hi + 2 * UNIT <= q && x in r
    ensures Walk(HungApart(m, lo, hi, q, c, d), x, 0, nw, lo, q - UNIT, k).Null?
    decreases hi - x
  {
    var m' := HungApart(m, lo, hi, q, c, d);
    if x == hi {
      assert Walk(m', q, 0, nw, lo, q - UNIT, 1).Null?;
      k := 2;
    } else {
      assert Link(m, r, x) && Checked(m, nw, x);
      var y := m[x].ptr;
      var j := WalkGivesUp(m, r, lo, hi, live, q, c, d, nw, y);
      assert m'[x] == m[x] && Busy(m'[y]) == Busy(m[y]);
      k := j + 1;
    }
  }

  /** And the header at the break leads down, so no ring runs through it and the old top. */
  lemma GapBreaksRing(m: Memory, lo: int, hi: int, q: int, c: Cell, d: Cell, r: set<int>, lo': int, hi': int)
    requires hi in m && hi + 2 * UNIT <= q && hi in r && q in r
    ensures !Ring(HungApart(m, lo, hi, q, c, d), r, lo', hi')
  {
    var m' := HungApart(m, lo, hi, q, c, d);
    assert m'[q].ptr == q - UNIT;
    assert !Link(m', r, q);
  }

  lemma LiveBelowTop(m: Memory, r: set<int>, lo: int, hi: int, live: set<int>, q: int, c: Cell, d: Cell)
    requires Sound(m, r, lo, hi, live) && hi + 2 * UNIT <= q
    ensures hi in m && LiveKept(m, live, HungApart(m, lo, hi, q, c, d))
  {
    forall h | h in live ensures h in m && m[h].ptr <= hi { assert Link(m, r, h); }
  }

  /** No ring runs through the old top and the header at the break. */
  ghost predicate RingBroken(m: Memory, hi: int, q: int) {
    forall r: set<int>, lo: int, hi': int {:trigger Ring(m, r, lo, hi')} :: hi in r && q in r ==> !Ring(m, r, lo, hi')
  }

  /** The search gives up from the bottom, whatever it is asked for. */
  ghost predicate GivesUp(m: Memory, nw: nat, lo: int, top: int) {
    exists k: nat :: Walk(m, lo, 0, nw, lo, top, k).Null?
  }

  // ----- the whole call -----

  /** malloc for a size of the band, followed for as many turns as one likes. */
  method Malloc(h: Allocator, n: nat, turns: nat, c: Cell, d: Cell) returns (answer: Answer, r: int)
    requires h.Valid() && h.Anchored() && 65275 <= n <= 65529 && turns > 0
    requires h.memtop == h.Top0() + UNIT || h.memtop >= h.Top0() + 2 * UNIT
    modifies h
    ensures h.sp == old(h.sp) && h.memtop == old(h.memtop)
    ensures answer == if RunFits(old(h.Before0()), old(h.Ring0()), Rounded(n)) then Handed
                      else if h.memtop + STACK_GAP >= h.sp then Refused
                      else if h.memtop == old(h.Top0()) + UNIT then Searching else Broken
    ensures r != 0 <==> answer.Handed?
    ensures answer.Handed? ==> h.Anchored() && h.Handed(r - UNIT, Rounded(n), old(h.live))
    ensures answer.Handed? ==> FirstFit(old(h.Before0()), old(h.Ring0()), old(h.Start0()), Rounded(n), r - UNIT)
    ensures !answer.Handed? ==> h.live == old(h.live)
    ensures !answer.Broken? ==> h.Valid() && h.Started()
    ensures answer.Broken? ==>
              RingBroken(h.mem, old(h.Top0()), h.memtop) && GivesUp(h.mem, Rounded(n), h.allocs, h.alloct)
    ensures LiveKept(old(h.Before0()), old(h.live), h.mem)
  {
    hide Sound, Layout, RunFits, FirstFit, LiveKept, Checked, Booted, HungApart, HungNothing, Walk, Ring;
    BandHasNoGrowth(n);
    var nw := Rounded(n);
    if h.mem[h.allocs].ptr == 0 { h.Boot(); }
    if h.memtop == h.alloct + UNIT {
      answer, r := Turns(h, nw, h.allocp, turns, c);
      return;
    }
    ghost var m0 := h.mem;
    answer, r := Pass(h, nw, h.allocp);
    if answer.Searching? {
      ghost var m1, hi := h.mem, h.alloct;
      LiveBelowTop(h.mem, h.ring, h.allocs, hi, h.live, h.memtop, c, d);
      ghost var k := WalkGivesUp(m1, h.ring, h.allocs, hi, h.live, h.memtop, c, d, nw, h.allocs);
      forall r: set<int>, lo: int, hi': int | hi in r && h.memtop in r
        ensures !Ring(HungApart(m1, h.allocs, hi, h.memtop, c, d), r, lo, hi')
      {
        GapBreaksRing(m1, h.allocs, hi, h.memtop, c, d, r, lo, hi');
      }
      var q := h.memtop;
      var m := HangNothing(h.mem[q := c][q - UNIT := d], h.allocs, h.alloct, q);
      HungApartIs(m1, h.allocs, hi, q, c, d);
      h.mem := m;
      h.alloct := h.memtop - UNIT;
      KeptTwice(m0, h.live, m1, h.mem);
      answer := Broken;
    }
  }
}
