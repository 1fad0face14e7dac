/** Runs of the allocator, from a fresh heap, on which properties one would expect of it
    fail. */
module HeapExamples {
  import opened Heap
  import HeapBand

  /** `p` is the only free header. */
  ghost predicate OneFree(m: Memory, r: set<int>, p: int) {
    && r <= m.Keys && p in r && !Busy(m[p])
    && forall x :: x in r && x != p ==> Busy(m[x])
  }

  ghost predicate NoneFree(m: Memory, r: set<int>) {
    r <= m.Keys && forall x :: x in r ==> Busy(m[x])
  }

  lemma NoneFreeRuns(m: Memory, r: set<int>, nw: int)
    requires NoneFree(m, r)
    ensures !RunFits(m, r, nw)
  {
  }

  lemma OneFreeRuns(m: Memory, r: set<int>, lo: int, hi: int, p: int, x: int, b: int)
    requires Ring(m, r, lo, hi) && OneFree(m, r, p) && p != hi && FreeRun(m, r, x, b)
    ensures x == p && b == m[p].ptr
  {
    assert Link(m, r, p);
  }

  lemma OneFreeFits(m: Memory, r: set<int>, lo: int, hi: int, p: int, nw: int)
    requires Ring(m, r, lo, hi) && OneFree(m, r, p) && p != hi
    ensures RunFits(m, r, nw) <==> nw <= m[p].ptr - p
  {
    assert Link(m, r, p);
    assert FreeRun(m, r, p, m[p].ptr);
    if x, b :| FreeRun(m, r, x, b) && b - x >= nw {
      OneFreeRuns(m, r, lo, hi, p, x, b);
    }
  }

  /** A header merged away was free, and so was the one that took it in. */
  lemma Absorber(m0: Memory, r0: set<int>, m: Memory, r: set<int>, lo: int, hi: int, x: int) returns (y: int)
    requires Ring(m0, r0, lo, hi) && Ring(m, r, lo, hi) && Coarser(m0, r0, m, r) && x in r0 && x !in r
    ensures y in r0 && y != x && !Busy(m0[y]) && !Busy(m0[x])
  {
    y := HeaderOf(m, r, lo, hi, x);
    assert Link(m, r, y) && Inside(m, y, x);
  }

  /** Where no free block follows another, a search changes nothing. */
  lemma SearchChangesNothing(m0: Memory, r0: set<int>, m: Memory, r: set<int>, lo: int, hi: int, p: int)
    requires Ring(m0, r0, lo, hi) && Ring(m, r, lo, hi) && Coarser(m0, r0, m, r) && p != hi
    requires OneFree(m0, r0, p) || NoneFree(m0, r0)
    ensures m == m0 && r == r0
  {
    forall x | x in r0 ensures x in r {
      if x !in r {
        var y := Absorber(m0, r0, m, r, lo, hi, x);
      }
    }
    forall x | x in m ensures m[x] == m0[x] {
      if x in r0 && x != hi {
        assert Link(m0, r0, x) && Link(m, r, x);
      }
    }
  }

  /** A malloc that fits the only free block takes its beginning. */
  lemma TakesTheOnlyOne(m0: Memory, r0: set<int>, lo: int, hi: int, top: int, s: int, nw: nat, t: Trace, p: int,
                        p': int)
    requires Ring(m0, r0, lo, hi) && OneFree(m0, r0, p) && p != hi && nw <= m0[p].ptr - p
    requires Searched(m0, r0, lo, hi, top, s, nw, t, p')
    ensures p' == p && t.m2 == m0 && t.r2 == r0
  {
    OneFreeFits(m0, r0, lo, hi, p, nw);
    SearchChangesNothing(m0, r0, t.m2, t.r2, lo, hi, p);
    OnlyFirstFit(m0, r0, lo, hi, p, s, nw, p');
  }

  /** The first malloc of a program takes the beginning of a first chunk, which does not
      adjoin the initial arena. */
  lemma TakesTheFirstChunk(m: Memory, lo: int, top: int, nw: nat, t: Trace, p: int)
    requires lo in m && lo + UNIT in m && m.Keys == {lo, lo + UNIT} && lo + 2 * UNIT < top && nw <= BLOCK - UNIT
    requires Growth(nw) == BLOCK
    requires Searched(Booted(m, lo), {lo, lo + UNIT}, lo, lo + UNIT, top, lo, nw, t, p)
    ensures p == top && t.r2 == {lo, lo + UNIT, top, top + BLOCK - UNIT}
    ensures t.r2 <= t.m2.Keys && OneFree(t.m2, t.r2, top) && t.m2[top].ptr == top + BLOCK - UNIT
  {
    hide Extended, Searched, Coarser, RunFits, FirstFit, Chunk, Booted;
    var m0, r0, hi := Booted(m, lo), {lo, lo + UNIT}, lo + UNIT;
    BootedRing(m, lo);
    NoneFreeRuns(m0, r0, nw);
    SearchedGrew(m0, r0, lo, hi, top, lo, nw, t, p);
    SearchedEnds(m0, r0, lo, hi, top, lo, nw, t, p);
    SearchChangesNothing(m0, r0, t.mA, t.rA, lo, hi, lo);
    var hi1 := top + BLOCK - UNIT;
    assert t.r1 == {lo, lo + UNIT, top, hi1};
    ExtendKeepsRing(m0, r0, lo, hi, t.f, top, BLOCK);
    assert t.r1 == r0 + {top, hi1};
    FirstChunkIsFree(m0, lo, t.f, top);
    SearchChangesNothing(t.m1, t.r1, t.m2, t.r2, lo, hi1, top);
    OnlyFirstFit(t.m1, t.r1, lo, hi1, top, lo, nw, p);
  }

  lemma BootedRing(m: Memory, lo: int)
    requires lo in m && lo + UNIT in m
    ensures Ring(Booted(m, lo), {lo, lo + UNIT}, lo, lo + UNIT) && NoneFree(Booted(m, lo), {lo, lo + UNIT})
  {
    assert Link(Booted(m, lo), {lo, lo + UNIT}, lo);
  }

  lemma SearchedEnds(m0: Memory, r0: set<int>, lo: int, hi: int, top: int, s: int, nw: nat, t: Trace, p: int)
    requires Searched(m0, r0, lo, hi, top, s, nw, t, p) && !RunFits(m0, r0, nw)
    ensures Coarser(t.m1, t.r1, t.m2, t.r2) && Ring(t.m2, t.r2, lo, top + Growth(nw) - UNIT)
  {
  }

  lemma FirstChunkIsFree(m0: Memory, lo: int, f: Memory, top: int)
    requires NoneFree(m0, {lo, lo + UNIT}) && lo + 2 * UNIT < top && Chunk(f, top, BLOCK)
    ensures var m1 := Extended(m0, lo, lo + UNIT, f, top, BLOCK);
            OneFree(m1, {lo, lo + UNIT, top, top + BLOCK - UNIT}, top) && m1[top].ptr == top + BLOCK - UNIT
  {
    assert OnGrid(top, top) && OnGrid(top, top + BLOCK - UNIT);
  }

  lemma OnlyFirstFit(m: Memory, r: set<int>, lo: int, hi: int, p: int, s: int, nw: int, p': int)
    requires Ring(m, r, lo, hi) && OneFree(m, r, p) && p != hi && FirstFit(m, r, s, nw, p')
    ensures p' == p
  {
    var b :| FreeRun(m, r, p', b) && b - p' >= nw;
    OneFreeRuns(m, r, lo, hi, p, p', b);
  }

  /** Cutting the only free block leaves the rest of it as the only free block. */
  lemma CutTheOnlyOne(m: Memory, r: set<int>, p: int, nw: int)
    requires OneFree(m, r, p) && 0 < nw < m[p].ptr - p && p + nw !in r
    ensures var m' := Carved(m, p, nw);
            && OneFree(m', r + {p + nw}, p + nw) && m'[p + nw].ptr == m[p].ptr && m'[p].ptr == p + nw
            && forall x :: x in r && x != p ==> m'[x] == m[x]
  {
  }

  lemma UseTheOnlyOne(m: Memory, r: set<int>, p: int, nw: int)
    requires OneFree(m, r, p) && 0 < nw == m[p].ptr - p && p + nw in r
    ensures var m' := Carved(m, p, nw);
            NoneFree(m', r + {p + nw}) && forall x :: x in r && x != p ==> m'[x] == m[x]
  {
  }

  lemma TopOfRing(m: Memory, r: set<int>, lo: int, hi: int, live: set<int>, top: int)
    requires Sound(m, r, lo, hi, live) && top in r && forall x :: x in r ==> x <= top
    ensures hi == top && Ring(m, r, lo, hi)
  {
  }

  /** A program whose data end at 9 and whose heap begins at 100 calls malloc(3). */
  method OneBlock() returns (h: Allocator)
    ensures fresh(h) && h.Valid() && h.Started() && h.Anchored()
    ensures h.allocs == 3 && h.alloct == 352 && h.memtop == 355 && h.sp == 1500
    ensures h.ring == {3, 6, 100, 106, 352} && h.live == {100} && OneFree(h.mem, h.ring, 106)
    ensures h.mem[100].ptr == 106 && h.mem[106].ptr == 352
  {
    hide Sound, Layout, Searched, LiveKept, OnlyHeaders, Absorbable, OneFree, Carved, FirstFit, Booted;
    h := new Allocator(3, 100, 1500);
    ghost var m := h.mem;
    assert Rounded(3) == 6 && Growth(6) == 255;
    var a, split, t := h.Malloc(3);
    TakesTheFirstChunk(m, 3, 100, 6, t, a - UNIT);
    CutTheOnlyOne(t.m2, t.r2, 100, 6);
    assert h.ring == {3, 6, 100, 106, 352};
    TopOfRing(h.mem, h.ring, 3, h.alloct, h.live, 352);
  }

  /** It calls malloc(3) again. */
  method TwoBlocks() returns (h: Allocator)
    ensures fresh(h) && h.Valid() && h.Started() && h.Anchored()
    ensures h.allocs == 3 && h.alloct == 352 && h.memtop == 355 && h.sp == 1500
    ensures h.ring == {3, 6, 100, 106, 112, 352} && h.live == {100, 106} && OneFree(h.mem, h.ring, 112)
    ensures h.mem[100].ptr == 106 && h.mem[106].ptr == 112 && h.mem[112].ptr == 352
  {
    hide Sound, Layout, Searched, LiveKept, OnlyHeaders, Absorbable, OneFree, Carved, FirstFit, RunFits;
    h := OneBlock();
    ghost var m, r, s := h.mem, h.ring, h.allocp;
    assert Rounded(3) == 6 && Growth(6) == 255;
    TopOfRing(m, r, 3, 352, h.live, 352);
    OneFreeFits(m, r, 3, 352, 106, 6);
    var a, split, t := h.Malloc(3);
    TakesTheOnlyOne(m, r, 3, 352, 355, s, 6, t, 106, a - UNIT);
    CutTheOnlyOne(m, r, 106, 6);
    assert h.ring == {3, 6, 100, 106, 112, 352};
    TopOfRing(h.mem, h.ring, 3, h.alloct, h.live, 352);
  }

  /** The search pointer can be lost: both blocks are freed, and a request that cannot be
      met merges away the header the next search was to start from. */
  method SearchPointerIsLost() returns (h: Allocator, r: int)
    ensures fresh(h) && h.Valid() && h.Started() && r == 0 && !h.Anchored()
  {
    hide Sound, Layout, LiveKept, OnlyHeaders, FirstFit, Searched, RunFits, Absorbable;
    h := TwoBlocks();
    ghost var m := h.mem;
    h.Free(103);
    h.Free(109);
    assert Rounded(300) == 303 && Growth(303) == 510;
    assert Absorbable(h.mem, h.ring, 106) by { FollowsFree(h.mem, h.ring, 100, 106); }
    NothingAbove(h.mem, h.ring);
    ghost var split, t;
    r, split, t := h.Malloc(300);
  }

  lemma FollowsFree(m: Memory, r: set<int>, x: int, y: int)
    requires x in r && x in m && !Busy(m[x]) && m[x].ptr == y && y in m && !Busy(m[y])
    ensures Absorbable(m, r, y)
  {
  }

  /** A ring between 100 and 352 has no run of 303 bytes. */
  lemma NothingAbove(m: Memory, r: set<int>)
    requires r == {3, 6, 100, 106, 112, 352} && 3 in m && 6 in m && Busy(m[3]) && Busy(m[6])
    ensures !RunFits(m, r, 303)
  {
  }

  /** The six headers after the search has merged all free blocks into the one at 100: the
      search pointer's 106 is stale. */
  ghost predicate Stale(m: Memory) {
    && {3, 6, 100, 106, 112, 352} <= m.Keys && Busy(m[3]) && Busy(m[6]) && Busy(m[352])
    && m[3].ptr == 6 && m[6].ptr == 100 && m[352].ptr == 3
    && !Busy(m[100]) && m[100].ptr == 352 && !Busy(m[106]) && m[106].ptr == 352
  }

  /** The six headers after both blocks were freed. */
  ghost predicate BothFreed(m: Memory) {
    && {3, 6, 100, 106, 112, 352} <= m.Keys && Busy(m[3]) && Busy(m[6]) && Busy(m[352])
    && m[3].ptr == 6 && m[6].ptr == 100 && m[352].ptr == 3
    && !Busy(m[100]) && m[100].ptr == 106 && !Busy(m[106]) && m[106].ptr == 112 && !Busy(m[112]) && m[112].ptr == 352
  }

  lemma Merges(m: Memory, p: int, temp: nat, nw: nat, k: nat)
    requires p in m && !Busy(m[p]) && m[p].ptr in m && !Busy(m[m[p].ptr])
    ensures HeapBand.Walk(m, p, temp, nw, 3, 352, k + 1) ==
            HeapBand.Walk(m[p := m[p].(ptr := m[m[p].ptr].ptr)], p, temp, nw, 3, 352, k)
  {
  }

  lemma GoesOn(m: Memory, p: int, temp: nat, nw: nat, k: nat)
    requires p in m && (!Busy(m[p]) ==> m[p].ptr in m && Busy(m[m[p].ptr]) && m[p].ptr < p + nw)
    requires m[p].ptr > p || (p == 352 && m[p].ptr == 3 && temp == 0)
    ensures HeapBand.Walk(m, p, temp, nw, 3, 352, k + 1) ==
            HeapBand.Walk(m, m[p].ptr, if m[p].ptr > p then temp else 1, nw, 3, 352, k)
  {
  }

  /** The pass for 303 bytes from the second block merges it and then the first. */
  lemma FruitlessPass(m: Memory) returns (m': Memory)
    requires BothFreed(m)
    ensures HeapBand.Walk(m, 106, 0, 303, 3, 352, 9) == HeapBand.Fruitless(m') && Stale(m')
  {
    hide HeapBand.Walk;
    Merges(m, 106, 0, 303, 8);
    var m1 := m[106 := m[106].(ptr := 352)];
    GoesOn(m1, 106, 0, 303, 7);
    GoesOn(m1, 352, 0, 303, 6);
    GoesOn(m1, 3, 1, 303, 5);
    GoesOn(m1, 6, 1, 303, 4);
    Merges(m1, 100, 1, 303, 3);
    m' := m1[100 := m1[100].(ptr := 352)];
    GoesOn(m', 100, 1, 303, 2);
    EndsFruitless(m', 1);
  }

  lemma EndsFruitless(m: Memory, k: nat)
    requires 352 in m && Busy(m[352]) && m[352].ptr == 3
    ensures HeapBand.Walk(m, 352, 1, 303, 3, 352, k + 1) == HeapBand.Fruitless(m)
  {
  }

  lemma FitsHere(m: Memory, p: int, temp: nat, nw: nat, k: nat)
    requires p in m && !Busy(m[p]) && m[p].ptr in m && Busy(m[m[p].ptr]) && m[p].ptr >= p + nw
    ensures HeapBand.Walk(m, p, temp, nw, 3, 352, k + 1) == HeapBand.Fits(m, p)
  {
  }

  /** After that, malloc(3) hands out the second block again, and malloc(243) one that
      contains it. */
  lemma OverlappingBlocks(m: Memory) returns (m1: Memory, m2: Memory)
    requires Stale(m)
    ensures HeapBand.Walk(m, 106, 0, Rounded(3), 3, 352, 1) == HeapBand.Fits(m, 106) && m1 == Carved(m, 106, Rounded(3))
    ensures HeapBand.Walk(m1, 112, 0, Rounded(243), 3, 352, 5) == HeapBand.Fits(m1, 100)
    ensures m2 == Carved(m1, 100, Rounded(243))
    ensures Busy(m2[100]) && Busy(m2[106]) && 100 < 106 < m2[106].ptr < m2[100].ptr
  {
    hide HeapBand.Walk;
    assert Rounded(3) == 6 && Rounded(243) == 246;
    FitsHere(m, 106, 0, 6, 0);
    m1 := Carved(m, 106, 6);
    GoesOn(m1, 112, 0, 246, 4);
    GoesOn(m1, 352, 0, 246, 3);
    GoesOn(m1, 3, 1, 246, 2);
    GoesOn(m1, 6, 1, 246, 1);
    FitsHere(m1, 100, 1, 246, 0);
    m2 := Carved(m1, 100, 246);
  }

  /** So the lost pointer makes two live blocks overlap: malloc(3), malloc(3), both freed, a
      malloc(300) that finds nothing and no room, then malloc(3) and malloc(243). */
  method LiveBlocksOverlap() returns (h: Allocator, ghost m0: Memory, ghost m1: Memory, ghost m2: Memory)
    ensures fresh(h) && h.Valid() && h.allocs == 3 && h.alloct == 352 && h.allocp == 106
    ensures h.memtop + Growth(Rounded(300)) + STACK_GAP >= h.sp
    ensures HeapBand.Walk(h.mem, h.allocp, 0, Rounded(300), 3, 352, 9) == HeapBand.Fruitless(m0)
    ensures 106 in m0 && 106 + 6 in m0
    ensures HeapBand.Walk(m0, h.allocp, 0, Rounded(3), 3, 352, 1) == HeapBand.Fits(m0, 106)
    ensures m1 == Carved(m0, 106, Rounded(3)) && 100 in m1 && m2 == Carved(m1, 100, Rounded(243))
    ensures HeapBand.Walk(m1, 106 + Rounded(3), 0, Rounded(243), 3, 352, 5) == HeapBand.Fits(m1, 100)
    ensures Busy(m2[100]) && Busy(m2[106]) && 100 < 106 < m2[106].ptr < m2[100].ptr
  {
    hide HeapBand.Walk;
    h := TwoBlocks();
    h.Free(103);
    h.Free(109);
    assert Rounded(300) == 303 && Growth(303) == 510;
    SixHeaders(h.mem, h.ring, h.live);
    m0 := FruitlessPass(h.mem);
    m1, m2 := OverlappingBlocks(m0);
  }

  lemma SixHeaders(m: Memory, r: set<int>, live: set<int>)
    requires Sound(m, r, 3, 352, live) && r == {3, 6, 100, 106, 112, 352}
    requires !Busy(m[100]) && !Busy(m[106]) && !Busy(m[112]) && Busy(m[6])
    ensures BothFreed(m)
  {
    assert Link(m, r, 3) && Link(m, r, 6) && Link(m, r, 100) && Link(m, r, 106) && Link(m, r, 112);
  }

  /** realloc can lose data: a third block uses up the chunk, the first is freed, and the
      second, whose one cell holds 7, is to become twice as large. */
  method FirstCellIsLost() returns (h: Allocator, q: int)
    ensures fresh(h) && h.Valid() && q != 0 && q - UNIT in h.live && q in h.mem && h.mem[q] != Cell(7, 7)
  {
    hide Sound, Layout, LiveKept, OnlyHeaders, FirstFit, Searched, RunFits, Carved, Transferred, WillLand;
    h := ThreeBlocks();
    h.Free(103);
    assert Rounded(6) == 9 && Growth(9) == 255;
    LandingAhead(h.mem, h.ring);
    q := h.Realloc(109, 6);
    LeadsUp(h.mem, h.ring, h.allocs, h.alloct, h.live, 109);
  }

  /** Three blocks that use up the chunk; the one cell of the second is set to 7. */
  method ThreeBlocks() returns (h: Allocator)
    ensures fresh(h) && h.Valid() && h.Started() && h.Anchored()
    ensures h.allocs == 3 && h.alloct == 352 && h.memtop == 355 && h.sp == 1500
    ensures h.ring == {3, 6, 100, 106, 112, 352} && h.live == {100, 106, 112} && NoneFree(h.mem, h.ring)
    ensures h.mem[100].ptr == 106 && h.mem[106].ptr == 112 && 109 in h.mem && h.mem[109] == Cell(7, 7)
  {
    hide Sound, Layout, Searched, LiveKept, OnlyHeaders, Absorbable, OneFree, Carved, FirstFit, RunFits, NoneFree;
    h := TwoBlocks();
    ghost var m, r, s := h.mem, h.ring, h.allocp;
    assert Rounded(237) == 240 && Growth(240) == 255;
    TopOfRing(m, r, 3, 352, h.live, 352);
    OneFreeFits(m, r, 3, 352, 112, 240);
    var a, split, t := h.Malloc(237);
    TakesTheOnlyOne(m, r, 3, 352, 355, s, 240, t, 112, a - UNIT);
    UseTheOnlyOne(m, r, 112, 240);
    assert h.ring == {3, 6, 100, 106, 112, 352};
    TopOfRing(h.mem, h.ring, 3, h.alloct, h.live, 352);
    CellOfSecond(h.mem, h.ring, 3, 352, h.live, Cell(7, 7));
    h.mem := h.mem[109 := Cell(7, 7)];
  }

  lemma CellOfSecond(m: Memory, r: set<int>, lo: int, hi: int, live: set<int>, c: Cell)
    requires Sound(m, r, lo, hi, live) && 106 in live && m[106].ptr == 112 && NoneFree(m, r) && 109 !in r
    ensures 109 in m && Sound(m[109 := c], r, lo, hi, live) && NoneFree(m[109 := c], r) && m[109 := c].Keys == m.Keys
  {
    assert Whole(m, 106, m[106].ptr) && OnGrid(106, 109);
    BodyWritesAreSafe(m, r, lo, hi, live, 106, m[109 := c]);
  }

  lemma LandingAhead(m: Memory, r: set<int>)
    requires r == {3, 6, 100, 106, 112, 352} && r <= m.Keys && m[106].ptr == 112 && !Busy(m[100])
    requires Busy(m[3]) && Busy(m[6]) && Busy(m[112]) && Busy(m[352])
    ensures WillLand(m[106 := ClearBusy(m[106])], r, 106, 9, 109)
  {
    var m' := m[106 := ClearBusy(m[106])];
    assert FreeRun(m', r, 100, 112);
    forall x | x in r && Before(106, x, 100) ensures TooShort(m', r, 9, x) {
      forall b | FreeRun(m', r, x, b) ensures b - x < 9 { }
    }
  }

  lemma LeadsUp(m: Memory, r: set<int>, lo: int, hi: int, live: set<int>, x: int)
    requires Sound(m, r, lo, hi, live) && x in r
    ensures m[x].ptr > x || m[x].ptr == lo
  {
    if x != hi { assert Link(m, r, x); }
  }

  // ----- requests whose growth wraps to nothing -----

  /** A ring below 353 has no run of 65280 bytes. */
  lemma NoSuchRun(m: Memory, r: set<int>, nw: int)
    requires nw > 353 && forall x :: x in r ==> 0 <= x <= 352
    ensures !RunFits(m, r, nw)
  {
  }

  /** After malloc(3), malloc(65275) is still searching after any number of turns. */
  method SearchesForEver(turns: nat) returns (h: Allocator, answer: HeapBand.Answer)
    requires turns > 0
    ensures fresh(h) && h.Valid() && answer.Searching?
  {
    hide Sound, Layout, RunFits, LiveKept, FirstFit;
    h := OneBlock();
    NoSuchRun(h.mem, h.ring, Rounded(65275));
    var r;
    answer, r := HeapBand.Malloc(h, 65275, turns, Cell(0, 0), Cell(0, 0));
  }

  /** As the first call of a program, whose heap does not adjoin the initial arena, it
      breaks the ring and fails. */
  method FirstCallBreaksRing() returns (h: Allocator, answer: HeapBand.Answer)
    ensures fresh(h) && answer.Broken? && HeapBand.GivesUp(h.mem, Rounded(65275), h.allocs, h.alloct)
  {
    hide Sound, Layout, RunFits, LiveKept, FirstFit, Booted;
    h := new Allocator(3, 100, 1500);
    NoSuchRun(h.Before0(), h.Ring0(), Rounded(65275));
    var r;
    answer, r := HeapBand.Malloc(h, 65275, 1, Cell(0, 0), Cell(0, 0));
  }
}
