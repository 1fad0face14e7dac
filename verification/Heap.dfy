/** The HI-TECH C storage allocator: a circular first-fit search over one
    monotone ring of headers.

    A `struct store` is three bytes on the Z80 (a 16-bit pointer and a flag), and
    every address the allocator touches is a multiple of three away from the start
    of its piece of arena.  Memory is therefore a map from the address of a
    three-byte cell to the cell; a cell of a live block is client data. */
module Heap {
  const UNIT := 3          // sizeof(struct store)
  const BLOCK := 255       // 85 * UNIT, the growth quantum
  const WORD := 0x10000    // pointers and `unsigned` are 16 bits wide
  const STACK_GAP := 1024  // what sbrk keeps free below the stack

  datatype Cell = Cell(ptr: int, flag: int)

  type Memory = map<int, Cell>

  predicate Busy(c: Cell) {
    c.flag % 2 == 1
  }

  function SetBusy(c: Cell): Cell {
    c.(flag := c.flag - c.flag % 2 + 1)
  }

  function ClearBusy(c: Cell): Cell {
    c.(flag := c.flag - c.flag % 2)
  }

  /** Marking a block touches the busy bit only. */
  lemma BusyBit(c: Cell)
    requires c.flag >= 0
    ensures Busy(SetBusy(c)) && SetBusy(c).flag / 2 == c.flag / 2 && SetBusy(c).ptr == c.ptr
    ensures !Busy(ClearBusy(c)) && ClearBusy(c).flag / 2 == c.flag / 2 && ClearBusy(c).ptr == c.ptr
    ensures Busy(Cell(c.ptr, 1)) && !Busy(Cell(c.ptr, 0))
  {
  }

  /** The request rounded up to whole cells plus a header, in 16-bit arithmetic. */
  function Rounded(n: nat): nat {
    (n - 1 + 2 * UNIT) % WORD / UNIT * UNIT
  }

  /** How much `malloc` asks `sbrk` for, in 16-bit arithmetic. */
  function Growth(nw: nat): nat {
    (nw + UNIT - 1 + BLOCK) % WORD / BLOCK * BLOCK
  }

  /** Sizes are rounded up to the next multiple of a cell and no further, growths to the
      next multiple of 255 bytes, short of where they wrap. */
  lemma RoundingIsTight(n: nat, nw: nat)
    ensures n <= 65530 ==> Rounded(n) % 3 == 0 && n + 3 <= Rounded(n) < n + 6
    ensures nw <= 65278 ==> Growth(nw) % 255 == 0 && nw + 3 <= Growth(nw) < nw + 3 + 255
  {
  }

  /** A block holds what was asked for exactly when the size did not wrap. */
  lemma RequestHonoured(n: nat)
    requires n < WORD
    ensures Rounded(n) - UNIT >= n <==> n <= 65530
    ensures Rounded(n) == 0 <==> 65531 <= n <= 65533
  {
  }

  /** One growth makes room for the request except for a band of sizes whose
      growth wraps round; there it asks for nothing or for one quantum. */
  lemma GrowthSuffices(n: nat)
    requires n < WORD
    ensures Growth(Rounded(n)) >= Rounded(n) + UNIT <==> !(65275 <= n <= 65530)
    ensures 65275 <= n <= 65530 ==> Growth(Rounded(n)) <= BLOCK < Rounded(n)
  {
  }

  /** Growth comes in whole quanta, and falls short of the request only for one size. */
  lemma GrowthIsQuanta(n: nat)
    requires n < WORD && Growth(Rounded(n)) > 0
    ensures Growth(Rounded(n)) >= BLOCK && Rounded(n) % UNIT == 0
    ensures Growth(Rounded(n)) < Rounded(n) + UNIT ==> Rounded(n) == WORD - 1 && Growth(Rounded(n)) == BLOCK
  {
  }

  // ----- the ring -----

  /** The link of header `x` leads to the next header above it. */
  ghost predicate Link(m: Memory, r: set<int>, x: int) {
    && x in m
    && m[x].ptr in r && x < m[x].ptr
    && (forall y :: y in r && x < y ==> m[x].ptr <= y)
  }

  /** The headers `r` form one ring through `m`: links lead strictly upwards from
      `lo` to `hi`, skipping no header, and `hi` leads back to `lo`. */
  ghost predicate Ring(m: Memory, r: set<int>, lo: int, hi: int) {
    && lo in r && hi in r && lo < hi && r <= m.Keys
    && (forall x :: x in r ==> lo <= x <= hi)
    && (forall x {:trigger Link(m, r, x)} :: x in r && x != hi ==> Link(m, r, x))
    && m[hi].ptr == lo
  }

  /** `x` is a whole number of cells away from `a`. */
  ghost predicate OnGrid(a: int, x: int) {
    (x - a) % UNIT == 0
  }

  /** Addresses [a, b) are whole cells of arena. */
  ghost predicate Whole(m: Memory, a: int, b: int) {
    && OnGrid(a, b)
    && forall x {:trigger OnGrid(a, x)} :: a <= x < b && OnGrid(a, x) ==> x in m
  }

  /** The heap invariant: a ring with busy ends, live headers busy on it, and every
      free or live block made of arena.  The other busy headers note gaps. */
  ghost predicate Sound(m: Memory, r: set<int>, lo: int, hi: int, live: set<int>) {
    && Ring(m, r, lo, hi)
    && Busy(m[lo]) && Busy(m[hi])
    && (forall h :: h in live ==> h in r && h != lo && h != hi && Busy(m[h]))
    && (forall h {:trigger Whole(m, h, m[h].ptr)} :: h in r && (!Busy(m[h]) || h in live) ==> Whole(m, h, m[h].ptr))
  }

  /** A cell at `x` ends at or below `y`. */
  ghost predicate Apart(x: int, y: int) {
    x + UNIT <= y
  }

  /** Cells lie below the break and three bytes apart, so distinct cells never
      share a byte. */
  ghost predicate Layout(cells: set<int>, top: int) {
    && (forall x {:trigger Apart(x, top)} :: x in cells ==> Apart(x, top))
    && (forall x, y {:trigger Apart(x, y)} :: x in cells && y in cells && x < y ==> Apart(x, y))
  }

  // ----- free runs -----

  ghost predicate FreeRun(m: Memory, r: set<int>, a: int, b: int) {
    && a in r && b in r && a < b
    && forall x :: x in r && a <= x < b ==> x in m && !Busy(m[x])
  }

  /** Some run of adjacent free blocks spans at least `nw` bytes. */
  ghost predicate RunFits(m: Memory, r: set<int>, nw: int) {
    exists a, b :: FreeRun(m, r, a, b) && b - a >= nw
  }

  /** Address `x` lies inside the block at `y`. */
  ghost predicate Inside(m: Memory, y: int, x: int) {
    y in m && y < x < m[y].ptr
  }

  /** `r` is `r0` with some free headers absorbed by the free block before them;
      nothing but the link of a free header has changed. */
  ghost predicate Coarser(m0: Memory, r0: set<int>, m: Memory, r: set<int>) {
    && r <= r0 <= m0.Keys && m.Keys == m0.Keys
    && (forall x :: x in m ==> m[x].flag == m0[x].flag)
    && (forall x :: x in m && m[x] != m0[x] ==> x in r0 && !Busy(m0[x]))
    && (forall x :: x in r0 && x !in r ==> !Busy(m0[x]))
    && (forall x, y {:trigger Inside(m, y, x)} :: x in r0 && y in r && Inside(m, y, x) ==> !Busy(m[y]))
  }

  /** The block at `x` has been looked at: if it is free it is fully merged and
      too small. */
  ghost predicate Checked(m: Memory, nw: int, x: int) {
    x in m && (!Busy(m[x]) ==> m[x].ptr in m && Busy(m[m[x].ptr]) && m[x].ptr - x < nw)
  }

  /** A circular search from `s` comes to `x` before it comes to `p`. */
  ghost predicate Before(s: int, x: int, p: int) {
    if s <= p then s <= x < p else x < p || s <= x
  }

  /** No run of free blocks from the header `x` on spans `nw` bytes. */
  ghost predicate TooShort(m: Memory, r: set<int>, nw: int, x: int) {
    forall b :: FreeRun(m, r, x, b) ==> b - x < nw
  }

  /** `p` is the first header in circular order from `s` whose run of free blocks
      holds `nw` bytes. */
  ghost predicate FirstFit(m: Memory, r: set<int>, s: int, nw: int, p: int) {
    && (exists b :: FreeRun(m, r, p, b) && b - p >= nw)
    && (forall x {:trigger Before(s, x, p)} :: x in r && Before(s, x, p) ==> TooShort(m, r, nw, x))
  }

  /** There is only one first fit. */
  lemma FirstFitIsUnique(m: Memory, r: set<int>, s: int, nw: int, p: int, p': int)
    requires FirstFit(m, r, s, nw, p) && FirstFit(m, r, s, nw, p')
    ensures p == p'
  {
    assert p != p' ==> Before(s, p, p') || Before(s, p', p);
  }

  lemma WholeJoins(m: Memory, a: int, b: int, c: int)
    requires Whole(m, a, b) && Whole(m, b, c) && a <= b <= c
    ensures Whole(m, a, c)
  {
    forall x | a <= x < c && OnGrid(a, x) ensures x in m {
      assert x >= b ==> OnGrid(b, x);
    }
  }

  lemma WholeSplits(m: Memory, a: int, b: int, c: int)
    requires Whole(m, a, c) && a <= b <= c && OnGrid(a, b)
    ensures Whole(m, a, b) && Whole(m, b, c) && (b < c ==> b in m)
  {
    forall x | b <= x < c && OnGrid(b, x) ensures x in m {
      assert OnGrid(a, x);
    }
  }

  lemma WholeKept(m: Memory, m': Memory, a: int, b: int)
    requires Whole(m, a, b) && m.Keys <= m'.Keys
    ensures Whole(m', a, b)
  {
  }

  /** A ring depends only on the links of its headers. */
  lemma RingKept(m: Memory, r: set<int>, lo: int, hi: int, m': Memory)
    requires Ring(m, r, lo, hi) && m.Keys <= m'.Keys && forall x :: x in r ==> m'[x].ptr == m[x].ptr
    ensures Ring(m', r, lo, hi)
  {
    forall x | x in r && x != hi ensures Link(m', r, x) {
      assert Link(m, r, x);
    }
  }

  /** Memory after the header at `p` absorbs the header after it. */
  ghost function Absorb(m: Memory, p: int): Memory
    requires p in m && m[p].ptr in m
  {
    m[p := m[p].(ptr := m[m[p].ptr].ptr)]
  }

  lemma MergeKeepsRing(m: Memory, r: set<int>, lo: int, hi: int, p: int)
    requires Ring(m, r, lo, hi) && p in r && p != hi && Link(m, r, p) && m[p].ptr != hi
    ensures Ring(Absorb(m, p), r - {m[p].ptr}, lo, hi)
  {
    var q := m[p].ptr;
    assert Link(m, r, p) && Link(m, r, q);
    forall x | x in r - {q} && x != hi ensures Link(Absorb(m, p), r - {q}, x) {
      assert Link(m, r, x);
      assert x != p ==> m[x].ptr != q;
    }
  }

  /** Absorbing the free header after a free header keeps the invariant. */
  lemma MergeKeepsSound(m: Memory, r: set<int>, lo: int, hi: int, live: set<int>, p: int)
    requires Sound(m, r, lo, hi, live) && p in r && !Busy(m[p]) && Link(m, r, p) && !Busy(m[m[p].ptr])
    ensures Sound(Absorb(m, p), r - {m[p].ptr}, lo, hi, live)
  {
    assert Link(m, r, p) && Link(m, r, m[p].ptr);
    MergeKeepsRing(m, r, lo, hi, p);
    WholeJoins(m, p, m[p].ptr, m[m[p].ptr].ptr);
    var m' := Absorb(m, p);
    forall h | h in r - {m[p].ptr} && (!Busy(m'[h]) || h in live) ensures Whole(m', h, m'[h].ptr) {
      assert h != p ==> Whole(m, h, m[h].ptr);
    }
  }

  lemma MergeKeepsCoarser(m0: Memory, r0: set<int>, m: Memory, r: set<int>, lo: int, hi: int, p: int)
    requires Ring(m, r, lo, hi) && p in r && p != hi && !Busy(m[p]) && Link(m, r, p)
    requires m[p].ptr != hi && !Busy(m[m[p].ptr])
    requires Coarser(m0, r0, m, r)
    ensures Coarser(m0, r0, Absorb(m, p), r - {m[p].ptr})
  {
    var m', r' := Absorb(m, p), r - {m[p].ptr};
    assert Link(m, r, p) && Link(m, r, m[p].ptr);
    forall x, y | x in r0 && y in r' && Inside(m', y, x) ensures !Busy(m'[y]) {
      assert y != p ==> Inside(m, y, x);
    }
  }

  lemma CoarserRefl(m: Memory, r: set<int>, lo: int, hi: int)
    requires Ring(m, r, lo, hi)
    ensures Coarser(m, r, m, r)
  {
    forall x, y | x in r && y in r ensures !Inside(m, y, x) {
      if y != hi { assert Link(m, r, y); }
    }
  }

  /** The last header at or below an address. */
  lemma HeaderOf(m: Memory, r: set<int>, lo: int, hi: int, a: int) returns (y: int)
    requires Ring(m, r, lo, hi) && lo <= a < hi
    ensures y in r && y <= a < m[y].ptr
  {
    y := lo;
    assert Link(m, r, y);
    while m[y].ptr <= a
      invariant y in r && y <= a && Link(m, r, y)
      decreases a - y
    {
      y := m[y].ptr;
      assert Link(m, r, y);
    }
  }

  /** After a fruitless full pass no free run of the original ring fits. */
  lemma NothingFits(m0: Memory, r0: set<int>, m: Memory, r: set<int>, lo: int, hi: int, nw: int)
    requires Ring(m0, r0, lo, hi) && Ring(m, r, lo, hi) && Coarser(m0, r0, m, r)
    requires forall x :: x in r ==> Checked(m, nw, x)
    ensures !RunFits(m0, r0, nw)
  {
    forall a, b | FreeRun(m0, r0, a, b) ensures b - a < nw {
      var y := HeaderOf(m, r, lo, hi, a);
      assert Checked(m, nw, y) && Link(m, r, y);
      assert y == a || Inside(m, y, a);
    }
  }

  /** Once a header has been looked at, neither it nor a header merged into it starts a
      long enough run of the original ring. */
  lemma CheckedIsShort(m0: Memory, r0: set<int>, m: Memory, r: set<int>, lo: int, hi: int, nw: int, p: int, x: int)
    requires Ring(m, r, lo, hi) && Coarser(m0, r0, m, r) && p in r && Checked(m, nw, p)
    requires x in r0 && p <= x && (if p == hi then x == hi && Busy(m[hi]) else x < m[p].ptr)
    ensures TooShort(m0, r0, nw, x)
  {
    if p != hi {
      assert Link(m, r, p);
      assert x == p || Inside(m, p, x);
    }
  }

  /** What a search from `s` that has come to `p` knows: every header it has passed has
      been looked at, and no header of the original ring it has passed starts a long
      enough run.  After the wrap it has passed the top. */
  ghost predicate Passed(m0: Memory, r0: set<int>, m: Memory, r: set<int>, nw: int, s: int, p: int, wrapped: bool) {
    && (forall x :: x in r && (if wrapped then x < p || s <= x else s <= x < p) ==> Checked(m, nw, x))
    && (forall x :: x in r0 && (if wrapped then x < p || s <= x else s <= x < p) ==> TooShort(m0, r0, nw, x))
    && (!wrapped ==> s <= p)
  }

  /** One step of the search past `p`, which may have been merged with its successors. */
  lemma PassOn(m0: Memory, r0: set<int>, m1: Memory, r1: set<int>, m: Memory, r: set<int>, lo: int, hi: int,
               nw: int, s: int, p: int, wrapped: bool)
    requires Passed(m0, r0, m1, r1, nw, s, p, wrapped) && r <= r1 && p in m1 && p in m && m == m1[p := m[p]]
    requires Busy(m[p]) == Busy(m1[p])
    requires Ring(m, r, lo, hi) && Coarser(m0, r0, m, r) && p in r && Checked(m, nw, p) && Busy(m[hi]) && s <= hi
    requires r <= m1.Keys
    requires forall x :: x in r0 ==> lo <= x <= hi
    ensures p != hi ==> m[p].ptr > p && Passed(m0, r0, m, r, nw, s, m[p].ptr, wrapped)
    ensures p == hi ==> Passed(m0, r0, m, r, nw, s, lo, true)
    ensures p == hi && wrapped ==> forall x :: x in r ==> Checked(m, nw, x)
  {
    CheckedKept(m1, m, r, nw, p);
    forall x | x in r0 && p <= x && (if p == hi then x == hi else x < m[p].ptr) ensures TooShort(m0, r0, nw, x) {
      CheckedIsShort(m0, r0, m, r, lo, hi, nw, p, x);
    }
    if p != hi { assert Link(m, r, p); }
    hide TooShort, Coarser, Checked;
  }

  lemma NothingPassed(m: Memory, r: set<int>, nw: int, s: int)
    ensures Passed(m, r, m, r, nw, s, s, false)
  {
  }

  lemma PassedIsFirst(m0: Memory, r0: set<int>, m: Memory, r: set<int>, nw: int, s: int, p: int, wrapped: bool, b: int)
    requires Passed(m0, r0, m, r, nw, s, p, wrapped) && FreeRun(m0, r0, p, b) && b - p >= nw
    ensures FirstFit(m0, r0, s, nw, p)
  {
    hide TooShort;
  }

  lemma FitsHere(m: Memory, r: set<int>, nw: int, p: int, b: int)
    requires FreeRun(m, r, p, b) && b - p >= nw
    ensures RunFits(m, r, nw)
  {
  }

  lemma CheckedKept(m: Memory, m': Memory, r: set<int>, nw: int, p: int)
    requires p in m && p in m' && m' == m[p := m'[p]] && Busy(m'[p]) == Busy(m[p]) && r <= m.Keys
    ensures forall x :: x in r && x != p && Checked(m, nw, x) ==> Checked(m', nw, x)
  {
  }

  /** A merged free block is a free run of the original ring. */
  lemma MergedIsRun(m0: Memory, r0: set<int>, m: Memory, r: set<int>, lo: int, hi: int, p: int)
    requires Ring(m, r, lo, hi) && Coarser(m0, r0, m, r) && p in r && p != hi && !Busy(m[p])
    ensures FreeRun(m0, r0, p, m[p].ptr)
  {
    assert Link(m, r, p);
  }

  /** A free header right after a free block: a full search merges it away. */
  ghost predicate Absorbable(m: Memory, r: set<int>, a: int) {
    a in m && !Busy(m[a]) && exists y :: y in r && y in m && !Busy(m[y]) && m[y].ptr == a
  }

  /** A full fruitless pass removes exactly the absorbable headers. */
  lemma PassRemovesAbsorbable(m0: Memory, r0: set<int>, m: Memory, r: set<int>, lo: int, hi: int, nw: int, a: int)
    requires Ring(m0, r0, lo, hi) && Ring(m, r, lo, hi) && Coarser(m0, r0, m, r) && Busy(m0[lo])
    requires forall x :: x in r ==> Checked(m, nw, x)
    requires a in r0
    ensures a in r <==> !Absorbable(m0, r0, a)
  {
    if Absorbable(m0, r0, a) {
      var y :| y in r0 && y in m0 && !Busy(m0[y]) && m0[y].ptr == a;
      assert y != hi;
      assert Link(m0, r0, y);
      var z := HeaderOf(m, r, lo, hi, y);
      assert Link(m, r, z) && Checked(m, nw, z);
      assert z == y || Inside(m, z, y);
    }
    if a !in r {
      var y := HeaderOf(m0, r0, lo, hi, a - 1);
      assert Link(m0, r0, y);
      var z := HeaderOf(m, r, lo, hi, a);
      assert Link(m, r, z) && Inside(m, z, a);
      assert y in r0 && !Busy(m0[y]) && m0[y].ptr == a;
    }
  }

  // ----- carving and growing -----

  /** Memory after `nw` bytes are cut from the free block at `p`. */
  ghost function Carved(m: Memory, p: int, nw: int): Memory
    requires p in m
  {
    var q := m[p].ptr;
    var a := p + nw;
    var m' := if q > a then m[a := Cell(q, 0)] else m;
    m'[p := SetBusy(Cell(a, m[p].flag))]
  }

  lemma CarveKeepsRing(m: Memory, r: set<int>, lo: int, hi: int, p: int, nw: int)
    requires Ring(m, r, lo, hi) && p in r && p != hi && 0 < nw <= m[p].ptr - p
    ensures Ring(Carved(m, p, nw), r + {p + nw}, lo, hi)
  {
    hide Carved, Link;
    var m', r', a := Carved(m, p, nw), r + {p + nw}, p + nw;
    assert Link(m, r, p);
    CarvedCells(m, r, p, nw);
    forall x | x in r' && x != hi ensures Link(m', r', x) {
      if x == p {
        CarvedLinks(m, r, m', p, a);
      } else if x in r {
        assert Link(m, r, x);
        LinkBesides(m, r, m', x, p, a);
      } else {
        CarvedLinks(m, r, m', p, a);
      }
    }
  }

  lemma CarvedCells(m: Memory, r: set<int>, p: int, nw: int)
    requires r <= m.Keys && p in r && Link(m, r, p) && 0 < nw <= m[p].ptr - p
    ensures var m', a := Carved(m, p, nw), p + nw;
            && m.Keys <= m'.Keys && a in m' && m'[p].ptr == a
            && (if a < m[p].ptr then a !in r && m'[a].ptr == m[p].ptr else a in r) && m[p].ptr in r
            && forall x :: x in r && x != p ==> m'[x] == m[x]
  {
  }

  /** The links out of a carved block and out of the rest of it. */
  lemma CarvedLinks(m: Memory, r: set<int>, m': Memory, p: int, a: int)
    requires Link(m, r, p) && p in r && p < a <= m[p].ptr && p in m' && a in m' && m'[p].ptr == a
    requires a < m[p].ptr ==> m'[a].ptr == m[p].ptr
    ensures Link(m', r + {a}, p) && (a < m[p].ptr ==> Link(m', r + {a}, a))
  {
  }

  /** A link elsewhere is not affected by a new header inside the block at `p`. */
  lemma LinkBesides(m: Memory, r: set<int>, m': Memory, x: int, p: int, a: int)
    requires Link(m, r, x) && Link(m, r, p) && p in r && x in r && x != p && p < a <= m[p].ptr
    requires x in m' && m'[x] == m[x]
    ensures Link(m', r + {a}, x)
  {
  }

  lemma CarveKeepsSound(m: Memory, r: set<int>, lo: int, hi: int, live: set<int>, p: int, nw: int)
    requires Sound(m, r, lo, hi, live) && p in r && !Busy(m[p])
    requires 0 < nw <= m[p].ptr - p && nw % UNIT == 0
    ensures Sound(Carved(m, p, nw), r + {p + nw}, lo, hi, live + {p})
    ensures p !in live
  {
    var m', a := Carved(m, p, nw), p + nw;
    assert Link(m, r, p);
    CarveKeepsRing(m, r, lo, hi, p, nw);
    assert Whole(m, p, m[p].ptr) && OnGrid(p, a);
    WholeSplits(m, p, a, m[p].ptr);
    forall h | h in r + {a} && (!Busy(m'[h]) || h in live + {p}) ensures Whole(m', h, m'[h].ptr) {
      if h != p && h != a { assert Whole(m, h, m[h].ptr); }
      if h == a && a in r { assert Whole(m, h, m[h].ptr); }
    }
  }

  /** Fresh arena of `size` bytes at `q`; what it holds is unknown. */
  ghost predicate Chunk(f: Memory, q: int, size: int) {
    && (forall x :: x in f ==> q <= x < q + size && OnGrid(q, x))
    && (forall x {:trigger OnGrid(q, x)} :: q <= x < q + size && OnGrid(q, x) ==> x in f)
  }

  /** Memory after the chunk `f` at `q` is hung on the top header `hi`. */
  ghost function Extended(m: Memory, lo: int, hi: int, f: Memory, q: int, size: int): Memory
    requires hi in m && Chunk(f, q, size) && size >= 2 * UNIT && size % UNIT == 0
  {
    var top := q + size - UNIT;
    assert OnGrid(q, q) && OnGrid(q, top);
    var m1 := m + f;
    var m2 := m1[hi := m1[hi].(ptr := q)];
    var m3 := m2[hi := if q != hi + UNIT then SetBusy(m2[hi]) else ClearBusy(m2[hi])];
    var m4 := m3[q := m3[q].(ptr := top)];
    var m5 := m4[top := SetBusy(m4[top].(ptr := lo))];
    m5[q := ClearBusy(m5[q])]
  }

  lemma ExtendKeepsRing(m: Memory, r: set<int>, lo: int, hi: int, f: Memory, q: int, size: int)
    requires Ring(m, r, lo, hi)
    requires Chunk(f, q, size) && size >= 2 * UNIT && size % UNIT == 0 && hi < q
    ensures Ring(Extended(m, lo, hi, f, q, size), r + {q, q + size - UNIT}, lo, q + size - UNIT)
  {
    var m', r' := Extended(m, lo, hi, f, q, size), r + {q, q + size - UNIT};
    assert OnGrid(q, q) && OnGrid(q, q + size - UNIT);
    forall x | x in r && x != hi ensures Link(m', r', x) {
      assert Link(m, r, x);
      assert x !in f && m'[x] == m[x];
    }
    assert Link(m', r', hi) && Link(m', r', q);
  }

  lemma ExtendKeepsSound(m: Memory, r: set<int>, lo: int, hi: int, live: set<int>, f: Memory, q: int, size: int)
    requires Sound(m, r, lo, hi, live)
    requires Chunk(f, q, size) && size >= 2 * UNIT && size % UNIT == 0 && hi + UNIT <= q
    ensures Sound(Extended(m, lo, hi, f, q, size), r + {q, q + size - UNIT}, lo, q + size - UNIT, live)
  {
    var m', top := Extended(m, lo, hi, f, q, size), q + size - UNIT;
    var r' := r + {q, top};
    ExtendKeepsRing(m, r, lo, hi, f, q, size);
    assert Whole(m', q, top);
    forall h | h in r' && (!Busy(m'[h]) || h in live) ensures Whole(m', h, m'[h].ptr) {
      if h != q && h != hi && h != top {
        assert Link(m, r, h);
        assert Whole(m, h, m[h].ptr);
      }
    }
  }

  lemma ExtendFacts(m: Memory, r: set<int>, lo: int, hi: int, f: Memory, q: int, size: int)
    requires Ring(m, r, lo, hi) && Layout(m.Keys, q)
    requires Chunk(f, q, size) && size >= 2 * UNIT && size % UNIT == 0
    ensures Layout(Extended(m, lo, hi, f, q, size).Keys, q + size)
    ensures FreeRun(Extended(m, lo, hi, f, q, size), r + {q, q + size - UNIT}, q, q + size - UNIT)
  {
    var m' := Extended(m, lo, hi, f, q, size);
    assert Apart(hi, q) && OnGrid(q, q) && OnGrid(q, q + size - UNIT);
    assert m'.Keys == m.Keys + f.Keys;
    LayoutGrows(m.Keys, f, q, size);
  }

  /** Fresh arena at the old break keeps cells apart. */
  lemma LayoutGrows(cells: set<int>, f: Memory, q: int, size: int)
    requires Layout(cells, q) && Chunk(f, q, size) && size >= 2 * UNIT && size % UNIT == 0
    ensures Layout(cells + f.Keys, q + size)
  {
    forall x, y | x in cells + f.Keys && y in cells + f.Keys && x < y ensures Apart(x, y) {
      if y in cells { assert Apart(y, q) && Apart(x, y); } else if x in cells { assert Apart(x, q); }
    }
    forall x | x in cells + f.Keys ensures Apart(x, q + size) {
      if x in cells { assert Apart(x, q); }
    }
  }

  lemma ExtendTouchesTop(m: Memory, lo: int, hi: int, f: Memory, q: int, size: int)
    requires hi in m && Layout(m.Keys, q)
    requires Chunk(f, q, size) && size >= 2 * UNIT && size % UNIT == 0
    ensures OnlyHeaders(m, {hi}, {}, Extended(m, lo, hi, f, q, size), hi)
  {
    assert OnGrid(q, q) && OnGrid(q, q + size - UNIT);
    forall x | x in m ensures x !in f {
      assert Apart(x, q);
    }
  }

  // ----- what a call may touch -----

  /** Only headers of non-live blocks, and possibly the cell `extra`, differ. */
  ghost predicate OnlyHeaders(m0: Memory, r0: set<int>, live: set<int>, m: Memory, extra: int) {
    && m0.Keys <= m.Keys
    && forall x :: x in m0 && m[x] != m0[x] ==> (x in r0 && x !in live) || x == extra
  }

  /** Every cell of every live block, header included, is as it was. */
  ghost predicate LiveKept(m0: Memory, live: set<int>, m: Memory) {
    forall h, x :: h in live && h in m0 && x in m0 && h <= x < m0[h].ptr ==> x in m && m[x] == m0[x]
  }

  lemma HeadersKeepLive(m0: Memory, r0: set<int>, lo: int, hi: int, live: set<int>, m: Memory, extra: int)
    requires Sound(m0, r0, lo, hi, live) && OnlyHeaders(m0, r0, live, m, extra)
    requires forall h :: h in live ==> extra <= h || m0[h].ptr <= extra
    requires extra !in live
    ensures LiveKept(m0, live, m)
  {
    forall h, x | h in live && x in m0 && h <= x < m0[h].ptr ensures m[x] == m0[x] {
      assert Link(m0, r0, h);
    }
  }

  lemma ScanTouchesHeaders(m0: Memory, r0: set<int>, lo: int, hi: int, live: set<int>,
                           m1: Memory, r1: set<int>, m: Memory, r: set<int>, top: int)
    requires Sound(m1, r1, lo, hi, live) && Coarser(m1, r1, m, r)
    requires OnlyHeaders(m0, r0, live, m1, lo)
    requires forall x :: x in r1 ==> x in r0 || x >= top
    requires Layout(m0.Keys, top)
    ensures OnlyHeaders(m0, r0, live, m, lo)
  {
    forall x | x in m0 && m[x] != m0[x] ensures (x in r0 && x !in live) || x == lo {
      assert Apart(x, top);
    }
  }

  /** Cutting a block found by the search touches no cell of a live block. */
  lemma CutFrames(m0: Memory, r0: set<int>, lo: int, hi0: int, live: set<int>,
                  m: Memory, r: set<int>, hi: int, p: int, nw: int, top: int)
    requires Sound(m0, r0, lo, hi0, live) && Layout(m0.Keys, top) && OnlyHeaders(m0, r0, live, m, lo)
    requires Sound(m, r, lo, hi, live) && p in r && !Busy(m[p]) && 0 < nw <= m[p].ptr - p && Link(m, r, p)
    requires forall x :: x in r ==> x in r0 || x >= top
    ensures OnlyHeaders(m0, r0, live, Carved(m, p, nw), if p + nw < m[p].ptr then p + nw else lo)
    ensures LiveKept(m0, live, Carved(m, p, nw))
  {
    var m', extra := Carved(m, p, nw), if p + nw < m[p].ptr then p + nw else lo;
    forall x | x in m0 && m'[x] != m0[x] ensures (x in r0 && x !in live) || x == extra {
      assert Apart(x, top);
    }
    forall h | h in live ensures extra <= h || m0[h].ptr <= extra {
      assert Link(m, r, h) && m[h] == m0[h];
    }
    assert extra in live ==> extra in r;
    HeadersKeepLive(m0, r0, lo, hi0, live, m', extra);
  }

  /** `m'` differs from `m` only in the body of the block at `h`. */
  ghost predicate BodyOnly(m: Memory, h: int, m': Memory) {
    && m'.Keys == m.Keys && h in m
    && forall x :: x in m && m'[x] != m[x] ==> h < x < m[h].ptr
  }

  /** A client writing inside its own block disturbs neither ring nor other blocks. */
  lemma BodyWritesAreSafe(m: Memory, r: set<int>, lo: int, hi: int, live: set<int>, h: int, m': Memory)
    requires Sound(m, r, lo, hi, live) && h in live && BodyOnly(m, h, m')
    ensures Sound(m', r, lo, hi, live) && LiveKept(m, live - {h}, m')
  {
    assert Link(m, r, h);
    RingKept(m, r, lo, hi, m');
    forall x | x in r && (!Busy(m'[x]) || x in live) ensures Whole(m', x, m'[x].ptr) {
      assert Whole(m, x, m[x].ptr);
      WholeKept(m, m', x, m[x].ptr);
    }
    forall g, x | g in live - {h} && x in m && g <= x < m[g].ptr ensures m'[x] == m[x] {
      assert Link(m, r, g);
    }
  }

  lemma FreeKeepsSound(m: Memory, r: set<int>, lo: int, hi: int, live: set<int>, p: int)
    requires Sound(m, r, lo, hi, live) && p in live
    ensures Sound(m[p := ClearBusy(m[p])], r, lo, hi, live - {p})
  {
    var m' := m[p := ClearBusy(m[p])];
    RingKept(m, r, lo, hi, m');
    forall x | x in r && (!Busy(m'[x]) || x in live - {p}) ensures Whole(m', x, m'[x].ptr) {
      assert Whole(m, x, m[x].ptr);
      WholeKept(m, m', x, m[x].ptr);
    }
  }

  /** Live blocks are arena and no two of them share a cell. */
  lemma LiveBlocksDisjoint(m: Memory, r: set<int>, lo: int, hi: int, live: set<int>, g: int, h: int)
    requires Sound(m, r, lo, hi, live) && g in live && h in live && g < h
    ensures m[g].ptr <= h && Whole(m, g, m[g].ptr) && Whole(m, h, m[h].ptr)
  {
    assert Link(m, r, g);
  }

  /** A cell that falls inside a whole block is on that block's grid. */
  lemma CellsAlign(m: Memory, top: int, h: int, e: int, x: int)
    requires Layout(m.Keys, top) && Whole(m, h, e) && x in m && h <= x < e
    ensures OnGrid(h, x)
  {
    var g := x - (x - h) % UNIT;
    assert OnGrid(h, g);
    assert g < x ==> Apart(g, x);
  }

  /** The cells of a free block are no headers. */
  lemma FreeCell(m: Memory, r: set<int>, lo: int, hi: int, live: set<int>, p: int, x: int)
    requires Sound(m, r, lo, hi, live) && p in r && !Busy(m[p]) && p + UNIT <= x < m[p].ptr && OnGrid(p + UNIT, x)
    ensures x in m && x !in r
  {
    GridShift(p, x);
    hide OnGrid;
    assert Link(m, r, p) && Whole(m, p, m[p].ptr);
    assert OnGrid(p, x);
  }

  lemma GridShift(a: int, x: int)
    ensures OnGrid(a + UNIT, x) <==> OnGrid(a, x)
  {
  }

  /** What a free block at `p` held before an allocation is still there, or is the
      one cell the split header at `extra` overwrote. */
  lemma DataKept(m0: Memory, r0: set<int>, lo: int, hi: int, live: set<int>, m: Memory, extra: int, p: int, x: int)
    requires Sound(m0, r0, lo, hi, live) && OnlyHeaders(m0, r0, live, m, extra)
    requires p in r0 && !Busy(m0[p]) && p + UNIT <= x < m0[p].ptr && OnGrid(p + UNIT, x)
    ensures x in m0 && x !in r0 && (x == extra || m[x] == m0[x])
  {
    FreeCell(m0, r0, lo, hi, live, p, x);
    hide Sound;
  }

  /** Where an old free block at `a - UNIT` and a newly live block at `q - UNIT` lie. */
  lemma MoveGeometry(m0: Memory, r0: set<int>, lo: int, hi0: int, live0: set<int>, top0: int,
                     m: Memory, r: set<int>, hi: int, live: set<int>, top: int, a: int, q: int)
    requires Sound(m0, r0, lo, hi0, live0) && Layout(m0.Keys, top0) && m0.Keys <= m.Keys
    requires Sound(m, r, lo, hi, live) && Layout(m.Keys, top)
    requires a - UNIT in r0 && !Busy(m0[a - UNIT]) && q - UNIT in live && q != a
    requires q - UNIT in r0 || q - UNIT >= top0
    ensures Whole(m, a, m0[a - UNIT].ptr) && Whole(m, q, m[q - UNIT].ptr)
    ensures q < a || m0[a - UNIT].ptr <= q - UNIT
    ensures q < a < m[q - UNIT].ptr ==> OnGrid(q, a) && q + (m[q - UNIT].ptr - a) in m
    ensures a <= m0[a - UNIT].ptr < top0 && q <= m[q - UNIT].ptr
  {
    var h, e := a - UNIT, m0[a - UNIT].ptr;
    assert Link(m0, r0, h) && Whole(m0, h, m0[h].ptr) && Link(m, r, q - UNIT) && Whole(m, q - UNIT, m[q - UNIT].ptr);
    assert Apart(e, top0) && Apart(h, e) && Apart(q - UNIT, m[q - UNIT].ptr);
    WholeKept(m0, m, h, e);
    assert OnGrid(h, a) && OnGrid(q - UNIT, q);
    WholeSplits(m, h, a, e);
    WholeSplits(m, q - UNIT, q, m[q - UNIT].ptr);
    if q < a < m[q - UNIT].ptr {
      CellsAlign(m, top, q, m[q - UNIT].ptr, a);
      assert OnGrid(q, q + (m[q - UNIT].ptr - a));
    }
  }

  /** `m2` is `m` after `n` bytes of cells at `from` were copied to `to`. */
  ghost predicate Copied(m: Memory, m2: Memory, from: int, to: int, n: int) {
    && m2.Keys == m.Keys
    && (forall x {:trigger OnGrid(from, x)} :: OnGrid(from, x) && from <= x < from + n ==>
          x in m && to + (x - from) in m2 && m2[to + (x - from)] == m[x])
    && (forall x :: x in m && m2[x] != m[x] ==> to <= x < to + n && OnGrid(to, x))
  }

  lemma NothingCopied(m: Memory, from: int, to: int)
    ensures Copied(m, m, from, to, 0)
  {
  }

  lemma CopyNext(m: Memory, m2: Memory, from: int, to: int, i: nat, n: int)
    requires Copied(m, m2, from, to, i) && i % UNIT == 0 && i < n && from + i in m && to + i in m
    requires (to <= from || from + n <= to) && (to <= from < to + n ==> OnGrid(to, from))
    ensures Copied(m, m2[to + i := m2[from + i]], from, to, i + UNIT)
  {
    assert m2[from + i] == m[from + i];
    var m3 := m2[to + i := m2[from + i]];
    forall x | OnGrid(from, x) && from <= x < from + i + UNIT
      ensures x in m && to + (x - from) in m3 && m3[to + (x - from)] == m[x]
    {
    }
    assert OnGrid(to, to + i);
  }

  /** Every cell common to the block at `q` and the old block at `a` reads the
      same, except possibly the one that was at `lost`. */
  ghost predicate Transferred(m0: Memory, m: Memory, a: int, q: int, lost: int) {
    a - UNIT in m0 && q - UNIT in m &&
    forall x {:trigger OnGrid(a, x)} ::
      OnGrid(a, x) && a <= x < m0[a - UNIT].ptr && q + (x - a) < m[q - UNIT].ptr && x != lost ==>
      x in m0 && q + (x - a) in m && m[q + (x - a)] == m0[x]
  }

  /** realloc's last write: put the saved cell where the split header's victim went. */
  ghost function Rescue(m: Memory, a: int, q: int, e: int, saved: Cell): Memory {
    if q < a < e then m[q + (e - a) := saved] else m
  }

  /** Copying and then rescuing moves the whole of the old data. */
  lemma MoveTransfers(m0: Memory, r0: set<int>, lo: int, hi: int, live: set<int>, top: int,
                      m: Memory, m2: Memory, a: int, q: int, e: int, n: int, saved: Cell, split: bool)
    requires Sound(m0, r0, lo, hi, live) && Layout(m0.Keys, top)
    requires OnlyHeaders(m0, r0, live, m, if split then e else lo)
    requires a - UNIT in r0 && !Busy(m0[a - UNIT]) && q - UNIT in m && m[q - UNIT].ptr == e && a <= m0[a - UNIT].ptr
    requires n == if m0[a - UNIT].ptr - a <= e - q then m0[a - UNIT].ptr - a else e - q
    requires Copied(m, m2, a, q, n) && q <= e && (q < a || m0[a - UNIT].ptr <= q)
    requires if split then e in m0 && e !in r0 ==> saved == m0[e] else e in r0 || e >= top
    ensures Transferred(m0, Rescue(m2, a, q, e, saved), a, q, if split && q < a && e == a then a else 0)
  {
    var lost := if split && q < a && e == a then a else 0;
    var m3 := Rescue(m2, a, q, e, saved);
    assert m2[q - UNIT] == m[q - UNIT];
    forall x | OnGrid(a, x) && a <= x < m0[a - UNIT].ptr && q + (x - a) < m3[q - UNIT].ptr && x != lost
      ensures x in m0 && q + (x - a) in m3 && m3[q + (x - a)] == m0[x]
    {
      DataKept(m0, r0, lo, hi, live, m, if split then e else lo, a - UNIT, x);
      assert Apart(x, top);
      assert Link(m0, r0, a - UNIT);
    }
  }

  /** A block allocated in place of the one just freed still holds its data. */
  lemma InPlaceTransfers(m0: Memory, r0: set<int>, lo: int, hi: int, live: set<int>, m: Memory, extra: int, a: int)
    requires Sound(m0, r0, lo, hi, live) && OnlyHeaders(m0, r0, live, m, extra)
    requires a - UNIT in r0 && !Busy(m0[a - UNIT]) && a - UNIT in m && (extra >= m[a - UNIT].ptr || extra == lo)
    ensures Transferred(m0, m, a, a, 0)
  {
    assert Link(m0, r0, a - UNIT);
    forall x | OnGrid(a, x) && a <= x < m0[a - UNIT].ptr && x < m[a - UNIT].ptr
      ensures x in m0 && x in m && m[x] == m0[x]
    {
      DataKept(m0, r0, lo, hi, live, m, extra, a - UNIT, x);
    }
  }

  lemma LiveKeptTrans(m0: Memory, live: set<int>, m1: Memory, m2: Memory)
    requires LiveKept(m0, live, m1) && LiveKept(m1, live, m2)
    requires forall h :: h in live ==> h in m0 && h < m0[h].ptr
    ensures LiveKept(m0, live, m2)
  {
    forall h, x | h in live && x in m0 && h <= x < m0[h].ptr ensures x in m2 && m2[x] == m0[x] {
      assert h in m1 && m1[h] == m0[h];
    }
  }

  /** Everything realloc promises about memory once the copy and the rescue are done. */
  lemma CarriedOver(m0: Memory, r0: set<int>, lo: int, hi0: int, live0: set<int>, top0: int,
                    m: Memory, r: set<int>, hi: int, live: set<int>, m2: Memory,
                    a: int, q: int, e: int, n: int, saved: Cell)
    requires Sound(m0, r0, lo, hi0, live0) && LiveKept(m0, live0, m)
    requires Sound(m, r, lo, hi, live) && q - UNIT in live && q - UNIT !in live0 && live == live0 + {q - UNIT}
    requires m[q - UNIT].ptr == e
    requires 0 <= n <= e - q && Copied(m, m2, a, q, n) && (q < a < e ==> q + (e - a) in m)
    ensures Sound(Rescue(m2, a, q, e, saved), r, lo, hi, live)
    ensures LiveKept(m0, live0, Rescue(m2, a, q, e, saved))
    ensures Rescue(m2, a, q, e, saved)[q - UNIT] == m[q - UNIT] && Rescue(m2, a, q, e, saved)[lo] == m[lo]
  {
    var m3 := Rescue(m2, a, q, e, saved);
    assert BodyOnly(m, q - UNIT, m3);
    BodyWritesAreSafe(m, r, lo, hi, live, q - UNIT, m3);
    assert live - {q - UNIT} == live0;
    forall h | h in live0 ensures h < m0[h].ptr {
      assert Link(m0, r0, h);
    }
    LiveKeptTrans(m0, live0, m, m3);
  }

  /** When the split header lands on the old block's first cell, that cell is lost:
      its place in the new block holds the header. */
  lemma LandedLoses(m: Memory, m2: Memory, a: int, q: int, n: int, saved: Cell)
    requires Copied(m, m2, a, q, n) && q < a && 0 < n <= a - q
    ensures q in m2 && a in m2 && Rescue(m2, a, q, a, saved)[q] == Rescue(m2, a, q, a, saved)[a] == m[a]
  {
    assert OnGrid(a, a);
  }

  /** The new block ends where the old block's data, of at least one cell, begins. */
  ghost predicate Landed(m0: Memory, a: int, q: int, nw: int) {
    q != 0 && q < a && q - UNIT + nw == a && a - UNIT in m0 && a < m0[a - UNIT].ptr
  }

  /** The same, foretold from the heap in which the old block has just been freed and a
      search is to start at `s`. */
  ghost predicate WillLand(m: Memory, r: set<int>, s: int, nw: int, a: int) {
    a - UNIT in m && a < m[a - UNIT].ptr && nw > UNIT && FirstFit(m, r, s, nw, a - nw)
  }

  /** Inside a free block there is no header. */
  lemma LandingPlace(m: Memory, r: set<int>, lo: int, hi: int, live: set<int>, top: int, a: int)
    requires Sound(m, r, lo, hi, live) && Layout(m.Keys, top) && a - UNIT in r && !Busy(m[a - UNIT])
    requires a <= m[a - UNIT].ptr
    ensures a < top && (a < m[a - UNIT].ptr ==> a !in r) && m[a - UNIT].ptr < top
  {
    assert Link(m, r, a - UNIT);
    assert Apart(m[a - UNIT].ptr, top);
  }

  /** A landing never follows a growth: the run it is cut from was there before. */
  lemma LandingNeedsRun(m0: Memory, r0: set<int>, lo: int, hi: int, live: set<int>, top: int, size: int, nw: nat,
                        a: int, t: Trace, p: int)
    requires Sound(m0, r0, lo, hi, live) && Layout(m0.Keys, top)
    requires Grown(m0, r0, lo, hi, top, size, t.mA, t.rA, t.f, t.m1, t.r1)
    requires a - UNIT in r0 && !Busy(m0[a - UNIT]) && a < m0[a - UNIT].ptr && p + nw == a && p < a - UNIT
    requires FirstFit(t.m1, t.r1, lo, nw, p)
    ensures RunFits(m0, r0, nw)
  {
    var e := m0[a - UNIT].ptr;
    var b :| FreeRun(t.m1, t.r1, p, b) && b - p >= nw;
    assert Link(m0, r0, a - UNIT) && Apart(e, top);
    forall x | x in r0 && p <= x < e ensures !Busy(m0[x]) {
      if x in t.rA {
        assert t.m1[x].flag == t.mA[x].flag;
      }
    }
    assert FreeRun(m0, r0, p, e);
  }

  /** The landing happens if and only if it was to be expected. */
  lemma LandingIsFirstFit(m0: Memory, r0: set<int>, lo: int, hi: int, live: set<int>, top: int, s: int, nw: nat, a: int,
                          q: int, t: Trace)
    requires Sound(m0, r0, lo, hi, live) && Layout(m0.Keys, top) && 1 <= lo && top < WORD
    requires a - UNIT in r0 && !Busy(m0[a - UNIT])
    requires if q == 0 then !RunFits(m0, r0, nw) || nw >= WORD - 1 else Searched(m0, r0, lo, hi, top, s, nw, t,
                                     q - UNIT)
    ensures Landed(m0, a, q, nw) <==> WillLand(m0, r0, s, nw, a)
  {
    hide Layout, Searched, Grown;
    if Landed(m0, a, q, nw) {
      if !RunFits(m0, r0, nw) {
        SearchedGrew(m0, r0, lo, hi, top, s, nw, t, q - UNIT);
        LandingNeedsRun(m0, r0, lo, hi, live, top, Growth(nw), nw, a, t, q - UNIT);
      }
      SearchedFits(m0, r0, lo, hi, top, s, nw, t, q - UNIT);
    }
    if WillLand(m0, r0, s, nw, a) {
      RunsAreShort(m0, r0, lo, hi, live, top, nw);
      SearchedFits(m0, r0, lo, hi, top, s, nw, t, q - UNIT);
      if q != 0 { FirstFitIsUnique(m0, r0, s, nw, q - UNIT, a - nw); }
    }
  }

  lemma SearchedGrew(m0: Memory, r0: set<int>, lo: int, hi: int, top: int, s: int, nw: nat, t: Trace, p: int)
    requires Searched(m0, r0, lo, hi, top, s, nw, t, p) && !RunFits(m0, r0, nw)
    ensures Grown(m0, r0, lo, hi, top, Growth(nw), t.mA, t.rA, t.f, t.m1, t.r1) && FirstFit(t.m1, t.r1, lo, nw, p)
  {
  }

  lemma SearchedFits(m0: Memory, r0: set<int>, lo: int, hi: int, top: int, s: int, nw: nat, t: Trace, p: int)
    ensures Searched(m0, r0, lo, hi, top, s, nw, t, p) && RunFits(m0, r0, nw) ==> FirstFit(m0, r0, s, nw, p)
  {
  }

  /** No run of free blocks spans 65535 bytes. */
  lemma RunsAreShort(m: Memory, r: set<int>, lo: int, hi: int, live: set<int>, top: int, nw: int)
    requires Sound(m, r, lo, hi, live) && Layout(m.Keys, top) && 1 <= lo && top < WORD
    ensures RunFits(m, r, nw) ==> nw < WORD - 1
  {
    assert Apart(hi, top);
  }

  lemma TransferredNothing(m0: Memory, m: Memory, a: int, q: int, lost: int, lost': int)
    requires Transferred(m0, m, a, q, lost) && m0[a - UNIT].ptr == a
    ensures Transferred(m0, m, a, q, lost')
  {
  }

  lemma LiveAscend(m: Memory, r: set<int>, lo: int, hi: int, live: set<int>)
    requires Sound(m, r, lo, hi, live)
    ensures forall h :: h in live ==> h in m && h < m[h].ptr
  {
    forall h | h in live ensures h < m[h].ptr {
      assert Link(m, r, h);
    }
  }

  lemma FreeFrames(m: Memory, r: set<int>, lo: int, hi: int, live: set<int>, p: int)
    requires Sound(m, r, lo, hi, live) && p in live
    ensures LiveKept(m, live - {p}, m[p := ClearBusy(m[p])])
  {
    forall h | h in live ensures h < p ==> m[h].ptr <= p {
      assert Link(m, r, h);
    }
  }

  lemma TransferredSame(m0: Memory, m1: Memory, m: Memory, a: int, q: int, lost: int)
    requires Transferred(m1, m, a, q, lost)
    requires a - UNIT in m0 && a - UNIT in m1 && m0[a - UNIT].ptr == m1[a - UNIT].ptr
    requires m1 == m0[a - UNIT := m1[a - UNIT]]
    ensures Transferred(m0, m, a, q, lost)
  {
  }

  /** Memory after the first call has linked the initial arena. */
  ghost function Booted(m: Memory, lo: int): Memory
    requires lo in m && lo + UNIT in m
  {
    var m' := m[lo := SetBusy(m[lo].(ptr := lo + UNIT))];
    m'[lo + UNIT := SetBusy(m'[lo + UNIT].(ptr := lo))]
  }

  /** A growth covers the request and a header. */
  predicate Roomy(nw: nat) {
    Growth(nw) >= nw + UNIT
  }

  /** How a search went: memory and ring after a first fruitless pass, the chunk then
      added, and memory and ring before and after the last pass. */
  datatype Trace = Trace(mA: Memory, rA: set<int>, f: Memory, m1: Memory, r1: set<int>, m2: Memory, r2: set<int>)

  /** The arena has grown by one chunk after a fruitless pass. */
  ghost predicate Grown(m0: Memory, r0: set<int>, lo: int, hi: int, top: int, size: int, mA: Memory, rA: set<int>,
                        f: Memory, m1: Memory, r1: set<int>) {
    && Coarser(m0, r0, mA, rA) && Ring(mA, rA, lo, hi)
    && size >= 2 * UNIT && size % UNIT == 0 && Chunk(f, top, size)
    && m1 == Extended(mA, lo, hi, f, top, size) && r1 == rA + {top, top + size - UNIT}
  }

  /** The block found is the first that fits: in the ring as it was when one fits there,
      and otherwise, from the bottom, in the ring grown by one chunk. */
  ghost predicate Searched(m0: Memory, r0: set<int>, lo: int, hi: int, top: int, s: int, nw: nat, t: Trace, p: int) {
    && Coarser(t.m1, t.r1, t.m2, t.r2)
    && Ring(t.m2, t.r2, lo, if RunFits(m0, r0, nw) then hi else top + Growth(nw) - UNIT)
    && if RunFits(m0, r0, nw) then t.m1 == m0 && t.r1 == r0 && FirstFit(m0, r0, s, nw, p)
       else Grown(m0, r0, lo, hi, top, Growth(nw), t.mA, t.rA, t.f, t.m1, t.r1) && FirstFit(t.m1, t.r1, lo, nw, p)
  }

  lemma HeadersSame(m: Memory, r: set<int>, live: set<int>, extra: int)
    ensures OnlyHeaders(m, r, live, m, extra)
  {
  }

  lemma HeadersKeys(m0: Memory, r0: set<int>, live: set<int>, m: Memory, extra: int)
    requires OnlyHeaders(m0, r0, live, m, extra)
    ensures m0.Keys <= m.Keys
  {
  }

  lemma LowestLeads(m: Memory, r: set<int>, lo: int, hi: int, live: set<int>)
    requires Sound(m, r, lo, hi, live)
    ensures lo in m && lo < m[lo].ptr
  {
    assert Link(m, r, lo);
  }

  lemma FreeLeads(m: Memory, r: set<int>, lo: int, hi: int, live: set<int>, p: int)
    requires Sound(m, r, lo, hi, live) && p in r && !Busy(m[p])
    ensures Link(m, r, p) && lo <= p
  {
  }

  lemma LowestIsNotLive(m: Memory, r: set<int>, lo: int, hi: int, live: set<int>)
    requires Sound(m, r, lo, hi, live)
    ensures lo !in live && lo in r && forall x :: x in live ==> x in m && lo <= x
  {
  }

  lemma SoundRing(m: Memory, r: set<int>, lo: int, hi: int, live: set<int>)
    requires Sound(m, r, lo, hi, live)
    ensures Ring(m, r, lo, hi) && lo in m && Busy(m[lo]) && hi in r && hi !in live
  {
  }

  lemma NotAHeader(m0: Memory, r0: set<int>, live: set<int>, m: Memory, lo: int, x: int)
    requires OnlyHeaders(m0, r0, live, m, lo) && lo != x
    ensures x in m0 && x !in r0 ==> x in m && m[x] == m0[x]
  {
  }

  lemma CoarserKeys(m0: Memory, r0: set<int>, m: Memory, r: set<int>)
    requires Coarser(m0, r0, m, r)
    ensures m.Keys == m0.Keys && r <= r0
  {
  }

  /** A growth changes the top header and what was no cell before. */
  lemma GrowthTouchesTop(m0: Memory, r0: set<int>, live: set<int>, m1: Memory, r1: set<int>, hi: int, m: Memory,
                         lo: int, top: int)
    requires OnlyHeaders(m0, r0, live, m1, lo) && OnlyHeaders(m1, {hi}, {}, m, hi)
    requires hi in r1 && hi !in live && (hi in r0 || hi >= top) && Layout(m0.Keys, top)
    ensures OnlyHeaders(m0, r0, live, m, lo)
  {
    forall x | x in m0 && m[x] != m0[x] ensures (x in r0 && x !in live) || x == lo {
      assert Apart(x, top);
    }
  }

  lemma GrownBy(m0: Memory, r0: set<int>, lo: int, hi: int, top: int, size: int, live: set<int>, t: Trace)
    requires Sound(t.mA, t.rA, lo, hi, live) && Coarser(m0, r0, t.mA, t.rA)
    requires size >= 2 * UNIT && size % UNIT == 0 && Chunk(t.f, top, size)
    requires t.m1 == Extended(t.mA, lo, hi, t.f, top, size) && t.r1 == t.rA + {top, top + size - UNIT}
    ensures Grown(m0, r0, lo, hi, top, size, t.mA, t.rA, t.f, t.m1, t.r1)
  {
  }

  lemma SearchedBy(m0: Memory, r0: set<int>, lo: int, hi: int, top: int, s: int, nw: nat, t: Trace, p: int)
    requires Coarser(t.m1, t.r1, t.m2, t.r2)
    requires Ring(t.m2, t.r2, lo, if RunFits(m0, r0, nw) then hi else top + Growth(nw) - UNIT)
    requires if RunFits(m0, r0, nw) then t.m1 == m0 && t.r1 == r0 && FirstFit(m0, r0, s, nw, p)
             else Grown(m0, r0, lo, hi, top, Growth(nw), t.mA, t.rA, t.f, t.m1, t.r1) && FirstFit(t.m1, t.r1, lo, nw, p)
    ensures Searched(m0, r0, lo, hi, top, s, nw, t, p)
  {
  }

  lemma NoRunAtFirst(m: Memory, r: set<int>, m0: Memory, r0: set<int>, nw: int)
    requires !RunFits(m, r, 0) && r0 == {} && nw >= 0
    ensures !RunFits(m, r, nw) && !RunFits(m0, r0, nw)
  {
  }

  /** No block has room for 65535 bytes. */
  lemma TooFar(m: Memory, r: set<int>, lo: int, hi: int, top: int, live: set<int>, h: int)
    requires Sound(m, r, lo, hi, live) && Layout(m.Keys, top) && 1 <= lo && top < WORD && h in live
    ensures m[h].ptr < h + (WORD - 1)
  {
    assert Link(m, r, h);
    assert Apart(m[h].ptr, top);
  }

  class Allocator {
    const allocs: int             // address of the two-cell initial arena
    var mem: Memory
    var allocp: int               // where the next search starts
    var alloct: int               // arena top
    var allocx: Cell              // the cell the last split header overwrote
    var memtop: int               // the program break
    var sp: int                   // the stack pointer sbrk compares with
    ghost var ring: set<int>
    ghost var live: set<int>      // headers of the blocks the client holds

    ghost predicate Started()
      reads this
    {
      allocs in mem && mem[allocs].ptr != 0
    }

    ghost predicate Valid()
      reads this
    {
      && 1 <= allocs && allocs in mem && allocs + UNIT in mem && Layout(mem.Keys, memtop)
      && memtop < WORD && sp < WORD
      && (if Started() then Sound(mem, ring, allocs, alloct, live) else ring == {} && live == {})
    }

    /** The search pointer names a header of the ring. */
    ghost predicate Anchored()
      reads this
    {
      Started() ==> allocp in ring
    }

    constructor (base: int, top: int, stack: int)
      requires 1 <= base && base + 2 * UNIT <= top < WORD && stack < WORD
      ensures Valid() && Anchored() && live == {} && !Started()
      ensures allocs == base && memtop == top && sp == stack && mem.Keys == {base, base + UNIT}
    {
      allocs := base;
      mem := map[base := Cell(0, 0), base + UNIT := Cell(0, 0)];
      allocp, alloct, allocx := 0, 0, Cell(0, 0);
      memtop, sp := top, stack;
      ring, live := {}, {};
    }

    /** The first call links the initial arena into a ring of two busy headers. */
    method Boot()
      requires Valid() && !Started()
      modifies this`mem, this`allocp, this`alloct, this`ring
      ensures Valid() && Started() && Anchored()
      ensures ring == {allocs, allocs + UNIT} && OnlyHeaders(old(mem), ring, {}, mem, 0) && !RunFits(mem, ring, 0)
      ensures mem == Booted(old(mem), allocs) && mem.Keys == old(mem.Keys) && allocp == allocs
      ensures alloct == allocs + UNIT
    {
      mem := mem[allocs := SetBusy(mem[allocs].(ptr := allocs + UNIT))];
      mem := mem[allocs + UNIT := SetBusy(mem[allocs + UNIT].(ptr := allocs))];
      alloct, allocp := allocs + UNIT, allocs;
      ring := {allocs, allocs + UNIT};
      assert Link(mem, ring, allocs);
    }

    ghost predicate InRing()
      reads this
    {
      Sound(mem, ring, allocs, alloct, live)
    }

    /** Merge every free block that follows the free block `p` into it. */
    method Coalesce(p: int, ghost m0: Memory, ghost r0: set<int>) returns (q: int)
      requires InRing() && p in ring && !Busy(mem[p]) && Coarser(m0, r0, mem, ring)
      modifies this`mem, this`ring
      ensures InRing() && Coarser(m0, r0, mem, ring)
      ensures p in ring && !Busy(mem[p]) && q == mem[p].ptr && q in ring && Busy(mem[q])
      ensures ring <= old(ring) && mem == old(mem)[p := mem[p]]
      ensures forall x :: x in old(ring) && (x <= p || q <= x) ==> x in ring
    {
      q := mem[p].ptr;
      assert Link(mem, ring, p);
      while !Busy(mem[q])
        invariant InRing() && Coarser(m0, r0, mem, ring)
        invariant p in ring && !Busy(mem[p]) && q == mem[p].ptr && Link(mem, ring, p)
        invariant ring <= old(ring) && mem == old(mem)[p := mem[p]]
        invariant forall x :: x in old(ring) && (x <= p || q <= x) ==> x in ring
        decreases alloct - q
      {
        MergeKeepsSound(mem, ring, allocs, alloct, live, p);
        MergeKeepsCoarser(m0, r0, mem, ring, allocs, alloct, p);
        assert Link(mem, ring, q);
        ring := ring - {q};
        mem := mem[p := mem[p].(ptr := mem[q].ptr)];
        q := mem[p].ptr;
        assert Link(mem, ring, p);
      }
    }

    /** One search: from `start` round to the second wrap past the top.  Returns the
        first block in that order that fits once merged, or has checked them all. */
    method Scan(start: int, nw: int) returns (found: bool, p: int)
      requires InRing() && start in ring
      modifies this`mem, this`ring
      ensures InRing() && Coarser(old(mem), old(ring), mem, ring)
      ensures found ==> p in ring && !Busy(mem[p]) && mem[p].ptr in mem && Busy(mem[mem[p].ptr]) && nw <= mem[p].ptr - p
      ensures found ==> FirstFit(old(mem), old(ring), start, nw, p)
      ensures !found ==> forall x :: x in ring ==> Checked(mem, nw, x)
      ensures found <==> RunFits(old(mem), old(ring), nw)
    {
      hide RunFits, Passed, FirstFit;
      ghost var m0, r0 := mem, ring;
      CoarserRefl(mem, ring, allocs, alloct);
      p := start;
      var temp := 0;
      assert Passed(m0, r0, mem, ring, nw, start, p, false) by { NothingPassed(mem, ring, nw, start); }
      while true
        invariant InRing() && Coarser(m0, r0, mem, ring) && p in ring
        invariant 0 <= temp <= 1 && Passed(m0, r0, mem, ring, nw, start, p, temp == 1)
        decreases 1 - temp, alloct - p
      {
        ghost var m1, r1 := mem, ring;
        if !Busy(mem[p]) {
          var q := Coalesce(p, m0, r0);
          if q >= p + nw {
            MergedIsRun(m0, r0, mem, ring, allocs, alloct, p);
            FitsHere(m0, r0, nw, p, q);
            PassedIsFirst(m0, r0, m1, r1, nw, start, p, temp == 1, q);
            return true, p;
          }
        }
        PassOn(m0, r0, m1, r1, mem, ring, allocs, alloct, nw, start, p, temp == 1);
        var q := p;
        assert q != alloct ==> Link(mem, ring, q);
        p := mem[p].ptr;
        if p > q {
        } else {
          temp := temp + 1;
          if temp > 1 { break; }
        }
      }
      NothingFits(m0, r0, mem, ring, allocs, alloct, nw);
      return false, p;
    }

    /** Move the break up by `n` if that leaves the stack its margin. */
    method Sbrk(n: nat) returns (q: int)
      modifies this`memtop
      ensures if old(memtop) + n + 1024 < sp then q == old(memtop) && memtop == q + n
              else q == WORD - 1 && memtop == old(memtop)
    {
      if memtop + n + STACK_GAP < sp {
        q := memtop;
        memtop := memtop + n;
      } else {
        q := WORD - 1;
      }
    }

    /** Cells that have never been written by the allocator. */
    method FreshCells(q: int, size: nat) returns (f: Memory)
      ensures Chunk(f, q, size)
    {
      f := map[];
      var x := q;
      while x < q + size
        invariant q <= x && OnGrid(q, x)
        invariant forall y :: y in f ==> q <= y < q + size && OnGrid(q, y)
        invariant forall y {:trigger OnGrid(q, y)} :: q <= y < x && y < q + size && OnGrid(q, y) ==> y in f
      {
        f := f[x := Cell(0, 0)];
        x := x + UNIT;
      }
    }

    /** Hang the chunk `f` at `q` on the arena top. */
    method Hang(q: int, temp: nat, f: Memory)
      requires alloct in mem && Chunk(f, q, temp) && temp >= 2 * UNIT && temp % UNIT == 0
      modifies this`mem, this`ring, this`alloct
      ensures mem == Extended(old(mem), allocs, old(alloct), f, q, temp)
      ensures alloct == q + temp - UNIT && ring == old(ring) + {q, alloct}
    {
      assert OnGrid(q, q) && OnGrid(q, q + temp - UNIT);
      mem := mem + f;
      mem := mem[alloct := mem[alloct].(ptr := q)];
      mem := mem[alloct := if q != alloct + UNIT then SetBusy(mem[alloct]) else ClearBusy(mem[alloct])];
      alloct := q + temp - UNIT;
      mem := mem[q := mem[q].(ptr := alloct)];
      mem := mem[alloct := SetBusy(mem[alloct].(ptr := allocs))];
      mem := mem[q := ClearBusy(mem[q])];
      ring := ring + {q, alloct};
    }

    /** Grow the arena by one request's worth.  It succeeds exactly when the break
        can move, and the new free block alone is then large enough. */
    method Extend(nw: nat) returns (ok: bool, ghost f: Memory)
      requires Valid() && Started() && Growth(nw) >= 2 * UNIT
      modifies this`mem, this`ring, this`alloct, this`memtop
      ensures Valid() && Started()
      ensures ok <==> old(memtop) + Growth(nw) + STACK_GAP < sp
      ensures !ok ==> mem == old(mem) && ring == old(ring) && alloct == old(alloct) && memtop == old(memtop)
      ensures ok ==> memtop == old(memtop) + Growth(nw) && (Roomy(nw) ==> RunFits(mem, ring, nw))
      ensures ok ==> Chunk(f, old(memtop), Growth(nw)) && Growth(nw) % UNIT == 0
      ensures ok ==>
                && mem == Extended(old(mem), allocs, old(alloct), f, old(memtop), Growth(nw))
                && alloct == old(memtop) + Growth(nw) - UNIT
      ensures ok ==> ring == old(ring) + {old(memtop), alloct} && alloct >= old(memtop)
      ensures ok ==> OnlyHeaders(old(mem), {old(alloct)}, {}, mem, old(alloct))
    {
      var temp := Growth(nw);
      var q := Sbrk(0);
      f := map[];
      if q + temp >= WORD { return false, f; }
      q := Sbrk(temp);
      if q == WORD - 1 { return false, f; }
      var cells := FreshCells(q, temp);
      f := cells;
      assert Apart(alloct, q);
      ExtendKeepsSound(mem, ring, allocs, alloct, live, f, q, temp);
      ExtendTouchesTop(mem, allocs, alloct, f, q, temp);
      ExtendFacts(mem, ring, allocs, alloct, f, q, temp);
      Hang(q, temp, cells);
      ok := true;
    }

    /** Search, growing the arena while nothing fits.  When one growth is enough, the
        break moves exactly when no free run holds the request, and then the next pass
        succeeds. */
    method Search(nw: nat) returns (found: bool, p: int, ghost t: Trace)
      requires Valid() && Started() && allocp in ring && Growth(nw) >= 2 * UNIT
      modifies this`mem, this`ring, this`alloct, this`memtop
      ensures Valid() && Started() && memtop >= old(memtop)
      ensures Roomy(nw) ==> (found <==> RunFits(old(mem), old(ring), nw) || old(memtop) + Growth(nw) + STACK_GAP < sp)
      ensures Roomy(nw) ==>
                memtop == if found && !RunFits(old(mem), old(ring), nw) then old(memtop) + Growth(nw) else old(memtop)
      ensures found ==> p in ring && !Busy(mem[p]) && mem[p].ptr in mem && Busy(mem[mem[p].ptr]) && nw <= mem[p].ptr - p
      ensures found && Roomy(nw) ==> Searched(old(mem), old(ring), allocs, old(alloct), old(memtop), allocp, nw, t, p)
      ensures found ==> t.m2 == mem && t.r2 == ring
      ensures !found ==> memtop + Growth(nw) + STACK_GAP >= sp
      ensures !found && memtop == old(memtop) ==>
                && alloct == old(alloct) && Coarser(old(mem), old(ring), mem, ring)
                && forall x :: x in ring ==> Checked(mem, nw, x)
      ensures forall x :: x in ring ==> x in old(ring) || x >= old(memtop)
      ensures OnlyHeaders(old(mem), old(ring), live, mem, allocs)
    {
      hide Layout, RunFits, FirstFit, Extended, OnlyHeaders, Coarser, Checked, Grown, Searched, Chunk, Sound, Ring;
      ghost var m0, r0 := mem, ring;
      assert OnlyHeaders(mem, ring, live, mem, allocs) by { HeadersSame(mem, ring, live, allocs); }
      var start := allocp;
      ghost var grown := false;
      t := Trace(mem, ring, map[], mem, ring, mem, ring);
      while true
        invariant Valid() && Started() && start in ring && memtop >= old(memtop) && t.m1 == mem && t.r1 == ring
        invariant !grown ==>
                    mem == m0 && ring == r0 && memtop == old(memtop) && start == allocp && alloct == old(alloct)
        invariant grown ==> !RunFits(m0, r0, nw) && start == allocs && memtop > old(memtop)
        invariant grown && Roomy(nw) ==>
                    RunFits(mem, ring, nw) && memtop == old(memtop) + Growth(nw) && memtop + STACK_GAP < sp
        invariant grown && Roomy(nw) ==> alloct == memtop - UNIT
        invariant grown && Roomy(nw) ==>
                    Grown(m0, r0, allocs, old(alloct), old(memtop), Growth(nw), t.mA, t.rA, t.f, t.m1, t.r1)
        invariant forall x :: x in ring ==> x in r0 || x >= old(memtop)
        invariant OnlyHeaders(m0, r0, live, mem, allocs)
        decreases sp - memtop
      {
        ghost var m1, r1 := mem, ring;
        found, p := Scan(start, nw);
        t := t.(m2 := mem, r2 := ring);
        CoarserKeys(m1, r1, mem, ring);
        LowestLeads(mem, ring, allocs, alloct, live);
        SoundRing(mem, ring, allocs, alloct, live);
        ScanTouchesHeaders(m0, r0, allocs, alloct, live, m1, r1, mem, ring, old(memtop));
        if found {
          if Roomy(nw) { SearchedBy(m0, r0, allocs, old(alloct), old(memtop), allocp, nw, t, p); }
          return;
        }
        ghost var m2, r2, hi := mem, ring, alloct;
        var ok, f := Extend(nw);
        if !ok { return false, p, t; }
        GrowthTouchesTop(m0, r0, live, m2, r2, hi, mem, allocs, old(memtop));
        t := Trace(m2, r2, f, mem, ring, mem, ring);
        if !grown { GrownBy(m0, r0, allocs, hi, old(memtop), Growth(nw), live, t); }
        grown := true;
        start := allocs;
      }
    }

    /** Cut `nw` bytes from the free block `p`: split off the rest, keeping in
        `allocx` the cell the new header overwrites, unless the fit is exact. */
    method Cut(p: int, nw: nat) returns (ghost split: bool)
      requires InRing() && p in ring && !Busy(mem[p]) && nw % UNIT == 0 && nw <= mem[p].ptr - p
      modifies this`mem, this`ring, this`live, this`allocp, this`allocx
      ensures allocp == p + nw
      ensures p in mem && mem[p].ptr == p + nw
      ensures nw > 0 ==>
                InRing() && mem == Carved(old(mem), p, nw) && ring == old(ring) + {allocp} && live == old(live) + {p}
      ensures nw > 0 ==> mem.Keys == old(mem.Keys) && p !in old(live)
      ensures split == (allocp < old(mem)[p].ptr)
      ensures if split then allocp in old(mem) && allocx == old(mem)[allocp]
              else allocx == old(allocx) && allocp in old(ring)
    {
      var q := mem[p].ptr;
      assert Link(mem, ring, p) && Whole(mem, p, mem[p].ptr) && OnGrid(p, p + nw);
      WholeSplits(mem, p, p + nw, q);
      if nw > 0 { CarveKeepsSound(mem, ring, allocs, alloct, live, p, nw); }
      allocp := p + nw;
      split := q > allocp;
      if q > allocp {
        allocx := mem[allocp];
        mem := mem[allocp := Cell(q, 0)];
      }
      mem := mem[p := SetBusy(mem[p].(ptr := allocp))];
      ring, live := ring + {allocp}, live + {p};
    }

    /** Find room for `nw` bytes and cut it. */
    method Allocate(nw: nat) returns (r: int, ghost split: bool, ghost t: Trace)
      requires Valid() && Started() && Anchored() && nw % UNIT == 0 && Growth(nw) >= 2 * UNIT
      modifies this
      ensures sp == old(sp) && (r == 0 || nw > 0 ==> Started())
      ensures Roomy(nw) ==>
                (r == 0 <==> !RunFits(old(mem), old(ring), nw) && old(memtop) + Growth(nw) + STACK_GAP >= sp)
      ensures Roomy(nw) ==>
                memtop == if r != 0 && !RunFits(old(mem), old(ring), nw) then old(memtop) + Growth(nw) else old(memtop)
      ensures r == 0 ==> Valid() && live == old(live) && allocp == old(allocp) && LiveKept(old(mem), old(live), mem)
      ensures r == 0 ==> memtop >= old(memtop) && memtop + Growth(nw) + STACK_GAP >= sp
      ensures r == 0 && memtop == old(memtop) ==> (Anchored() <==> !Absorbable(old(mem), old(ring), allocp))
      ensures r != 0 && nw == 0 ==> r - UNIT in mem && mem[r - UNIT].ptr == r - UNIT
      ensures r != 0 && nw > 0 ==> Valid() && Anchored() && Handed(r - UNIT, nw, old(live))
      ensures r != 0 && nw > 0 ==>
                (r - UNIT in old(ring) || r - UNIT >= old(memtop)) && LiveKept(old(mem), old(live), mem)
      ensures r != 0 && nw > 0 ==> OnlyHeaders(old(mem), old(ring), old(live), mem, if split then allocp else allocs)
      ensures r != 0 && nw > 0 ==> SplitSaved(split, old(mem), old(ring), old(memtop))
      ensures r != 0 && nw > 0 && Roomy(nw) ==>
                && Searched(old(mem), old(ring), allocs, old(alloct), old(memtop), old(allocp), nw, t, r - UNIT)
                && CutFrom(t, r - UNIT, nw)
    {
      hide Layout, RunFits, Searched, Sound, Ring, LiveKept, OnlyHeaders, Absorbable, Carved, Checked, Coarser;
      ghost var m0, r0, hi0 := mem, ring, alloct;
      LowestIsNotLive(m0, r0, allocs, hi0, live);
      var found, p;
      found, p, t := Search(nw);
      if !found {
        SoundRing(m0, r0, allocs, hi0, live);
        SoundRing(mem, ring, allocs, alloct, live);
        if memtop == old(memtop) { PassRemovesAbsorbable(m0, r0, mem, ring, allocs, alloct, nw, allocp); }
        HeadersKeepLive(m0, r0, allocs, hi0, live, mem, allocs);
        return 0, false, t;
      }
      FreeLeads(mem, ring, allocs, alloct, live, p);
      if nw > 0 { CutFrames(m0, r0, allocs, hi0, live, mem, ring, alloct, p, nw, old(memtop)); }
      if nw > 0 { NotAHeader(m0, r0, live, mem, allocs, p + nw); }
      split := Cut(p, nw);
      if nw > 0 { LowestLeads(mem, ring, allocs, alloct, live); }
      r := p + UNIT;
    }

    /** Memory and ring are those the search left, with `nw` bytes cut at `p`. */
    ghost predicate CutFrom(t: Trace, p: int, nw: int)
      reads this
    {
      p in t.m2 && mem == Carved(t.m2, p, nw) && ring == t.r2 + {p + nw}
    }

    /** The block with header `h` is newly live, of exactly `nw` bytes, and the search
        resumes after it. */
    ghost predicate Handed(h: int, nw: int, live0: set<int>)
      reads this
    {
      h !in live0 && live == live0 + {h} && h in mem && mem[h].ptr == h + nw == allocp
    }

    /** A split header overwrote the cell at `allocp`, and `allocx` holds it. */
    ghost predicate SplitSaved(split: bool, m0: Memory, r0: set<int>, top0: int)
      reads this
    {
      if split then allocp in m0 && allocp !in r0 ==> allocx == m0[allocp]
      else allocp in r0 || allocp >= top0
    }

    /** The ring malloc searches: the present one, or the initial arena on the first call. */
    ghost function Before0(): Memory
      requires allocs in mem && allocs + UNIT in mem
      reads this
    {
      if Started() then mem else Booted(mem, allocs)
    }

    ghost function Ring0(): set<int>
      reads this
    {
      if Started() then ring else {allocs, allocs + UNIT}
    }

    ghost function Top0(): int
      reads this
    {
      if Started() then alloct else allocs + UNIT
    }

    ghost function Start0(): int
      reads this
    {
      if Started() then allocp else allocs
    }

    /** malloc.  With a nonzero rounded size the heap invariant survives; the result
        is NULL exactly when no free run fits and the break cannot move, and otherwise
        the first fit.  For 65530 bytes the growth is too small: all memory is taken and
        the result is NULL. */
    method Malloc(n: nat) returns (r: int, ghost split: bool, ghost t: Trace)
      requires Valid() && Anchored() && n < WORD && Growth(Rounded(n)) > 0
      modifies this
      ensures sp == old(sp) && (r == 0 || Rounded(n) > 0 ==> Started())
      ensures Roomy(Rounded(n)) ==>
                (r == 0 <==> && !RunFits(old(mem), old(ring), Rounded(n))
                             && old(memtop) + Growth(Rounded(n)) + STACK_GAP >= sp)
      ensures Roomy(Rounded(n)) ==>
                memtop == if r != 0 && !RunFits(old(mem), old(ring), Rounded(n))
                          then old(memtop) + Growth(Rounded(n)) else old(memtop)
      ensures !Roomy(Rounded(n)) ==> r == 0
      ensures r == 0 ==> Valid() && live == old(live) && LiveKept(old(mem), old(live), mem)
      ensures r == 0 ==> memtop >= old(memtop) && memtop + Growth(Rounded(n)) + STACK_GAP >= sp
      ensures r == 0 && old(Started()) ==> allocp == old(allocp)
      ensures r == 0 && old(Started()) && memtop == old(memtop) ==>
                (Anchored() <==> !Absorbable(old(mem), old(ring), allocp))
      ensures r != 0 && Rounded(n) == 0 ==> r - UNIT in mem && mem[r - UNIT].ptr == r - UNIT
      ensures r != 0 && Rounded(n) > 0 ==>
                Valid() && Anchored() && Handed(r - UNIT, Rounded(n), old(live)) && LiveKept(old(mem), old(live), mem)
      ensures r != 0 && Rounded(n) > 0 && old(Started()) ==>
                && (r - UNIT in old(ring) || r - UNIT >= old(memtop))
                && OnlyHeaders(old(mem), old(ring), old(live), mem, if split then allocp else allocs)
                && SplitSaved(split, old(mem), old(ring), old(memtop))
      ensures r != 0 && Rounded(n) > 0 ==>
                && Searched(old(Before0()), old(Ring0()), allocs, old(Top0()), old(memtop), old(Start0()), Rounded(n),
                            t, r - UNIT)
                && CutFrom(t, r - UNIT, Rounded(n))
    {
      hide Searched, RunFits;
      GrowthIsQuanta(n);
      if mem[allocs].ptr == 0 {
        Boot();
        assert Link(mem, ring, allocs);
        NoRunAtFirst(mem, ring, old(mem), old(ring), Rounded(n));
      }
      r, split, t := Allocate(Rounded(n));
      if r != 0 && !Roomy(Rounded(n)) {
        TooFar(mem, ring, allocs, alloct, memtop, live, r - UNIT);
      }
    }

    /** free.  Nothing but the busy bit changes, and the search resumes here. */
    method Free(a: int)
      requires Valid() && a - UNIT in live
      modifies this`mem, this`allocp, this`live
      ensures Valid() && Started() && Anchored() && allocp == a - UNIT
      ensures live == old(live) - {a - UNIT}
      ensures mem == old(mem)[a - UNIT := ClearBusy(old(mem)[a - UNIT])]
    {
      var p := a - UNIT;
      assert Link(mem, ring, p);
      FreeKeepsSound(mem, ring, allocs, alloct, live, p);
      allocp := p;
      mem := mem[p := ClearBusy(mem[p])];
      live := live - {p};
    }

    /** Copy cells upwards, lowest address first. */
    method Bmove(from: int, to: int, units: nat)
      requires Whole(mem, from, from + UNIT * units) && Whole(mem, to, to + UNIT * units)
      requires to <= from || from + UNIT * units <= to
      requires to <= from < to + UNIT * units ==> OnGrid(to, from)
      modifies this`mem
      ensures mem.Keys == old(mem.Keys)
      ensures Copied(old(mem), mem, from, to, UNIT * units)
    {
      hide Copied;
      var i := 0;
      NothingCopied(mem, from, to);
      while i < UNIT * units
        invariant 0 <= i <= UNIT * units && i % UNIT == 0
        invariant mem.Keys == old(mem.Keys)
        invariant Copied(old(mem), mem, from, to, i)
      {
        assert OnGrid(from, from + i) && OnGrid(to, to + i);
        CopyNext(old(mem), mem, from, to, i, UNIT * units);
        mem := mem[to + i := mem[from + i]];
        i := i + UNIT;
      }
    }

    /** The moving half of realloc: copy what fits of the old cells to the new block
        at `q`, then put back the cell the split header destroyed. */
    method Move(a: int, q: int, units: nat) returns (ghost m2: Memory)
      requires q - UNIT in mem && q <= mem[q - UNIT].ptr
      requires Whole(mem, a, a + UNIT * units) && Whole(mem, q, mem[q - UNIT].ptr)
      requires q < a || a + UNIT * units <= q
      requires q < a < mem[q - UNIT].ptr ==> OnGrid(q, a)
      modifies this`mem
      ensures Copied(old(mem), m2, a, q,
                     if UNIT * units <= old(mem)[q - UNIT].ptr - q then UNIT * units else old(mem)[q - UNIT].ptr - q)
      ensures mem == Rescue(m2, a, q, old(mem)[q - UNIT].ptr, allocx)
      ensures mem.Keys == old(mem.Keys)
    {
      var ons, ns := units, (mem[q - UNIT].ptr - q) / UNIT;
      assert OnGrid(q, mem[q - UNIT].ptr) && UNIT * ns == mem[q - UNIT].ptr - q;
      if ons > ns { ons := ns; }
      assert OnGrid(a, a + UNIT * ons) && OnGrid(q, q + UNIT * ons);
      WholeSplits(mem, a, a + UNIT * ons, a + UNIT * units);
      WholeSplits(mem, q, q + UNIT * ons, q + UNIT * ns);
      Bmove(a, q, ons);
      m2 := mem;
      if q < a && q + UNIT * ns > a {
        assert OnGrid(q, q + (q + UNIT * ns - a));
        mem := mem[q + (q + UNIT * ns - a) := allocx];
      }
    }

    /** realloc once its block is free: allocate, then carry the data over. */
    method Renew(a: int, n: nat, units: nat) returns (q: int)
      requires Valid() && Started() && Anchored() && a - UNIT in ring && !Busy(mem[a - UNIT])
      requires mem[a - UNIT].ptr == a + UNIT * units
      requires n < WORD && Rounded(n) > 0 && Growth(Rounded(n)) > 0
      modifies this
      ensures Valid() && Started() && LiveKept(old(mem), old(live), mem)
      ensures sp == old(sp)
      ensures Roomy(Rounded(n)) ==>
                (q == 0 <==> && !RunFits(old(mem), old(ring), Rounded(n))
                             && old(memtop) + Growth(Rounded(n)) + STACK_GAP >= sp)
      ensures Roomy(Rounded(n)) ==>
                memtop == if q != 0 && !RunFits(old(mem), old(ring), Rounded(n))
                          then old(memtop) + Growth(Rounded(n)) else old(memtop)
      ensures q == 0 ==> live == old(live)
      ensures q != 0 ==> Anchored() && Handed(q - UNIT, Rounded(n), old(live))
      ensures q != 0 ==> Transferred(old(mem), mem, a, q, if Landed(old(mem), a, q, Rounded(n)) then a else 0)
      ensures Landed(old(mem), a, q, Rounded(n)) ==> q in mem && a in mem && a in ring && mem[q] == mem[a]
      ensures Landed(old(mem), a, q, Rounded(n)) <==> WillLand(old(mem), old(ring), old(allocp), Rounded(n), a)
    {
      hide Sound, Layout, OnlyHeaders, LiveKept, Transferred, Copied, RunFits, Absorbable, Rescue, Searched, FirstFit;
      ghost var m0, r0, hi0, live0, top0, s0 := mem, ring, alloct, live, memtop, allocp;
      ghost var split, t;
      q, split, t := Malloc(n);
      LandingIsFirstFit(m0, r0, allocs, hi0, live0, top0, s0, Rounded(n), a, q, t);
      if q == 0 { return; }
      if q == a {
        InPlaceTransfers(m0, r0, allocs, hi0, live0, mem, if split then allocp else allocs, a);
        return;
      }
      Carry(a, q, n, units, m0, r0, hi0, live0, top0, split);
    }

    /** The rest of realloc, once a block at another place has been allocated. */
    method Carry(a: int, q: int, n: nat, units: nat, ghost m0: Memory, ghost r0: set<int>, ghost hi0: int,
                 ghost live0: set<int>, ghost top0: int, ghost split: bool)
      requires Valid() && Started() && Anchored() && q != a && q != 0 && Rounded(n) > 0
      requires Sound(m0, r0, allocs, hi0, live0) && Layout(m0.Keys, top0)
      requires a - UNIT in r0 && !Busy(m0[a - UNIT]) && m0[a - UNIT].ptr == a + UNIT * units
      requires Handed(q - UNIT, Rounded(n), live0) && LiveKept(m0, live0, mem) && (q - UNIT in r0 || q - UNIT >= top0)
      requires OnlyHeaders(m0, r0, live0, mem, if split then allocp else allocs) && SplitSaved(split, m0, r0, top0)
      modifies this`mem
      ensures Valid() && Started() && Anchored() && Handed(q - UNIT, Rounded(n), live0) && LiveKept(m0, live0, mem)
      ensures Transferred(m0, mem, a, q, if Landed(m0, a, q, Rounded(n)) then a else 0)
      ensures Landed(m0, a, q, Rounded(n)) ==> q in mem && a in mem && a in ring && mem[q] == mem[a]
    {
      hide Sound, Layout, OnlyHeaders, LiveKept, Transferred, Copied, Rescue;
      LandingPlace(m0, r0, allocs, hi0, live0, top0, a);
      HeadersKeys(m0, r0, live0, mem, if split then allocp else allocs);
      ghost var m1, n0 := mem, if UNIT * units <= allocp - q then UNIT * units else allocp - q;
      MoveGeometry(m0, r0, allocs, hi0, live0, top0, mem, ring, alloct, live, memtop, a, q);
      ghost var m2 := Move(a, q, units);
      MoveTransfers(m0, r0, allocs, hi0, live0, top0, m1, m2, a, q, allocp, n0, allocx, split);
      if a == m0[a - UNIT].ptr { TransferredNothing(m0, mem, a, q, if split && q < a && allocp == a then a else 0, 0); }
      CarriedOver(m0, r0, allocs, hi0, live0, top0, m1, ring, alloct, live, m2, a, q, allocp, n0, allocx);
      if Landed(m0, a, q, Rounded(n)) { LandedLoses(m1, m2, a, q, n0, allocx); }
    }

    /** The first half of realloc: note how many cells the block has, and free it unless it
        is free already. */
    method Loosen(a: int) returns (units: nat)
      requires Valid() && Started() && a - UNIT in ring
      requires a - UNIT in live || (!Busy(mem[a - UNIT]) && Anchored())
      modifies this`mem, this`allocp, this`live
      ensures Valid() && Started() && Anchored() && live == old(live) - {a - UNIT} && LiveKept(old(mem), live, mem)
      ensures a - UNIT in mem && !Busy(mem[a - UNIT]) && mem[a - UNIT].ptr == a + UNIT * units
      ensures a - UNIT in old(mem) && mem == old(mem)[a - UNIT := ClearBusy(old(mem)[a - UNIT])]
      ensures allocp == if a - UNIT in old(live) then a - UNIT else old(allocp)
    {
      var p := a - UNIT;
      assert p != alloct;
      assert Link(mem, ring, p) && Whole(mem, p, mem[p].ptr);
      assert OnGrid(p, mem[p].ptr);
      units := (mem[p].ptr - a) / UNIT;
      LiveAscend(mem, ring, allocs, alloct, live);
      if Busy(mem[p]) {
        FreeFrames(mem, ring, allocs, alloct, live, p);
        Free(a);
      } else {
        assert LiveKept(mem, live, mem) && live - {p} == live;
        assert mem[p := ClearBusy(mem[p])] == mem;
      }
    }

    /** realloc of a live block, or of one freed and not yet searched over.  Every
        cell common to the old and the new block is kept, also when the new block
        overlaps the old one and the split header was written inside the old data,
        unless that header landed exactly on the old block's first cell: then the
        new block's first cell holds the header instead.  That happens if and only if
        the first fit, once the block is free, ends where the old data begins. */
    method Realloc(a: int, n: nat) returns (q: int)
      requires Valid() && Started() && a - UNIT in ring
      requires a - UNIT in live || (!Busy(mem[a - UNIT]) && Anchored())
      requires n < WORD && Rounded(n) > 0 && Growth(Rounded(n)) > 0
      modifies this
      ensures Valid() && Started() && LiveKept(old(mem), old(live) - {a - UNIT}, mem)
      ensures sp == old(sp)
      ensures Roomy(Rounded(n)) ==>
                (q == 0 <==> && !RunFits(old(mem)[a - UNIT := ClearBusy(old(mem)[a - UNIT])], old(ring), Rounded(n))
                             && old(memtop) + Growth(Rounded(n)) + STACK_GAP >= sp)
      ensures Roomy(Rounded(n)) ==>
                memtop == if && q != 0
                             && !RunFits(old(mem)[a - UNIT := ClearBusy(old(mem)[a - UNIT])], old(ring), Rounded(n))
                          then old(memtop) + Growth(Rounded(n)) else old(memtop)
      ensures q == 0 ==> live == old(live) - {a - UNIT}
      ensures q != 0 ==> Anchored() && Handed(q - UNIT, Rounded(n), old(live) - {a - UNIT})
      ensures q != 0 ==> Transferred(old(mem), mem, a, q, if Landed(old(mem), a, q, Rounded(n)) then a else 0)
      ensures Landed(old(mem), a, q, Rounded(n)) ==> q in mem && a in mem && a in ring && mem[q] == mem[a]
      ensures Landed(old(mem), a, q, Rounded(n)) <==>
                WillLand(old(mem)[a - UNIT := ClearBusy(old(mem)[a - UNIT])], old(ring),
                         if a - UNIT in old(live) then a - UNIT else old(allocp), Rounded(n), a)
    {
      hide Sound, Layout, LiveKept, Transferred, WillLand, RunFits;
      ghost var m0 := mem;
      LiveAscend(mem, ring, allocs, alloct, live);
      var units := Loosen(a);
      ghost var m1 := mem;
      q := Renew(a, n, units);
      LiveKeptTrans(m0, old(live) - {a - UNIT}, m1, mem);
      if q != 0 { TransferredSame(m0, m1, mem, a, q, if Landed(m0, a, q, Rounded(n)) then a else 0); }
    }
  }

  lemma LayoutRises(cells: set<int>, top: int, top': int)
    requires Layout(cells, top) && top <= top'
    ensures Layout(cells, top')
  {
    forall x | x in cells ensures Apart(x, top') {
      assert Apart(x, top);
    }
  }
}
