/** Clients of the allocator: whatever they do, in any order, their blocks hold what they
    last wrote there. */
module HeapRun {
  import opened Heap

  /** Sizes for which malloc is defined: they do not round to nothing, and a growth for
      them asks for memory. */
  predicate SizeOk(n: nat) {
    n < WORD && Rounded(n) > 0 && Growth(Rounded(n)) > 0
  }

  lemma SizesExactly(n: nat)
    requires n < 0x10000
    ensures SizeOk(n) <==> !(65275 <= n <= 65529) && !(65531 <= n <= 65533)
    ensures Roomy(Rounded(n)) <==> !(65275 <= n <= 65530)
  {
  }

  // ----- the book -----

  /** What a client knows of a block: where it is, how large, and the cells it wrote
      since it was handed the block, by their offset. */
  datatype Block = Block(addr: int, size: int, cells: map<int, Cell>)

  datatype Op =
    | DoAlloc(n: nat)
    | DoRelease(i: nat)
    | DoPut(i: nat, off: int, c: Cell)
    | DoRealloc(i: nat, n: nat)
    | DoOutside(top: int, sp: int)

  function Without<T>(s: seq<T>, i: nat): seq<T>
    requires i < |s|
  {
    s[..i] + s[i + 1..]
  }

  /** A block moved to `r`: what fits of it, without the first cell if the new block ends
      where the old one began. */
  function Resized(b: Block, r: int, n: nat): Block {
    var size := Rounded(n) - UNIT;
    var lost := r < b.addr && r + size == b.addr;
    Block(r, size, map off | off in b.cells && off < size && !(lost && off == 0) :: b.cells[off])
  }

  /** The book after an operation that returned `r`. */
  function Entered(book: seq<Block>, op: Op, r: int): seq<Block> {
    match op
    case DoAlloc(n) => if r == 0 then book else book + [Block(r, Rounded(n) - UNIT, map[])]
    case DoRelease(i) => if i < |book| then Without(book, i) else book
    case DoPut(i, off, c) =>
      if i < |book| && 0 <= off < book[i].size && off % UNIT == 0
      then book[i := book[i].(cells := book[i].cells[off := c])]
      else book
    case DoRealloc(i, n) =>
      if i < |book| && SizeOk(n) then Without(book, i) + (if r == 0 then [] else [Resized(book[i], r, n)]) else book
    case DoOutside(_, _) => book
  }

  /** The book after a sequence of operations with the results `out`. */
  function After(book: seq<Block>, ops: seq<Op>, out: seq<int>): seq<Block>
    requires |out| == |ops|
  {
    if ops == [] then book
    else
      var k := |ops| - 1;
      Entered(After(book, ops[..k], out[..k]), ops[k], out[k])
  }

  // ----- when there must be room -----

  /** How high an operation can bring the break, and how low the stack pointer. */
  function Highest(top: int, op: Op): int {
    match op
    case DoOutside(t, _) => if top < t then t else top
    case DoAlloc(n) => Asked(top, n)
    case DoRealloc(_, n) => Asked(top, n)
    case _ => top
  }

  function Asked(top: int, n: nat): int {
    if !SizeOk(n) then top else if Roomy(Rounded(n)) then top + Growth(Rounded(n)) else if top < WORD then WORD else top
  }

  function Lowest(sp: int, op: Op): int {
    if op.DoOutside? && op.sp < sp then op.sp else sp
  }

  /** The same for a sequence of operations. */
  function Ceiling(top: int, ops: seq<Op>): int {
    if ops == [] then top else Highest(Ceiling(top, ops[..|ops| - 1]), ops[|ops| - 1])
  }

  function Floor(sp: int, ops: seq<Op>): int {
    if ops == [] then sp else Lowest(Floor(sp, ops[..|ops| - 1]), ops[|ops| - 1])
  }

  lemma HighestRises(a: int, b: int, op: Op)
    requires a <= b
    ensures a <= Highest(a, op) <= Highest(b, op)
  {
    hide SizeOk, Roomy;
  }

  lemma LowestFalls(a: int, b: int, op: Op)
    requires a <= b
    ensures Lowest(a, op) <= Lowest(b, op) && Lowest(a, op) <= a
  {
  }

  /** All the operations leave the stack its margin. */
  predicate Clears(top: int, sp: int, ops: seq<Op>) {
    Ceiling(top, ops) + STACK_GAP < Floor(sp, ops)
  }

  lemma ClearsStep(top: int, sp: int, ops: seq<Op>, k: nat, top': int, sp': int)
    requires k < |ops| && top' <= Ceiling(top, ops[..k]) && sp' >= Floor(sp, ops[..k])
    ensures Highest(top', ops[k]) <= Ceiling(top, ops[..k + 1]) && Lowest(sp', ops[k]) >= Floor(sp, ops[..k + 1])
    ensures Clears(top, sp, ops[..k + 1]) ==>
              Clears(top, sp, ops[..k]) && Highest(top', ops[k]) + STACK_GAP < Lowest(sp', ops[k])
  {
    hide Highest, Lowest;
    assert ops[..k + 1][..k] == ops[..k];
    HighestRises(top', Ceiling(top, ops[..k]), ops[k]);
    HighestRises(Ceiling(top, ops[..k]), Ceiling(top, ops[..k]), ops[k]);
    LowestFalls(Floor(sp, ops[..k]), sp', ops[k]);
  }

  /** A request is met if the operations up to it leave the stack its margin. */
  ghost predicate Served(book: seq<Block>, ops: seq<Op>, out: seq<int>, top: int, sp: int, k: nat)
    requires k < |ops| && k < |out|
  {
    Requests(After(book, ops[..k], out[..k]), ops[k]) && Clears(top, sp, ops[..k + 1]) ==> out[k] != 0
  }

  /** The operation is a request malloc or realloc acts on. */
  predicate Requests(book: seq<Block>, op: Op) {
    (op.DoAlloc? && SizeOk(op.n)) || (op.DoRealloc? && SizeOk(op.n) && op.i < |book|)
  }

  /** The heap as an operation finds it. */
  datatype Snap = Snap(mem: Memory, ring: set<int>, memtop: int, sp: int, failed: bool)

  /** malloc answers 0 exactly when nothing fits and the break cannot move. */
  ghost predicate Fair(s: Snap, op: Op, r: int) {
    op.DoAlloc? && SizeOk(op.n) && !s.failed && Roomy(Rounded(op.n)) ==>
      (r == 0 <==> !RunFits(s.mem, s.ring, Rounded(op.n)) && s.memtop + Growth(Rounded(op.n)) + STACK_GAP >= s.sp)
  }

  // ----- the book agrees with memory -----

  ghost predicate CellKnown(m: Memory, b: Block, off: int) {
    off in b.cells ==> 0 <= off < b.size && off % UNIT == 0 && b.addr + off in m && m[b.addr + off] == b.cells[off]
  }

  ghost predicate Known(m: Memory, b: Block) {
    && b.addr - UNIT in m && m[b.addr - UNIT].ptr == b.addr + b.size
    && forall off {:trigger CellKnown(m, b, off)} :: CellKnown(m, b, off)
  }

  ghost predicate Booked(m: Memory, live: set<int>, book: seq<Block>) {
    && (forall i {:trigger book[i]} :: 0 <= i < |book| ==> book[i].addr - UNIT in live && Known(m, book[i]))
    && (forall i, j {:trigger book[i], book[j]} :: 0 <= i < j < |book| ==> book[i].addr != book[j].addr)
  }

  ghost predicate SameAddresses(held: seq<int>, book: seq<Block>) {
    |held| == |book| && forall i {:trigger held[i]} {:trigger book[i]} :: 0 <= i < |held| ==> held[i] == book[i].addr
  }

  lemma SameWithout(held: seq<int>, book: seq<Block>, i: nat)
    requires SameAddresses(held, book) && i < |held|
    ensures |book| == |held| && held[i] == book[i].addr && SameAddresses(Without(held, i), Without(book, i))
  {
  }

  lemma SameWith(held: seq<int>, book: seq<Block>, b: Block)
    requires SameAddresses(held, book)
    ensures SameAddresses(held + [b.addr], book + [b])
  {
  }

  lemma KnownKept(m0: Memory, live: set<int>, m: Memory, b: Block)
    requires Known(m0, b) && LiveKept(m0, live, m) && b.addr - UNIT in live && b.size >= 0
    ensures Known(m, b)
  {
    forall off ensures CellKnown(m, b, off) {
      assert CellKnown(m0, b, off);
    }
  }

  /** A block known is not negative in size. */
  lemma KnownSize(m: Memory, r: set<int>, lo: int, hi: int, live: set<int>, top: int, b: Block)
    requires Sound(m, r, lo, hi, live) && Layout(m.Keys, top) && b.addr - UNIT in live && Known(m, b)
    ensures b.size >= 0 && b.addr > lo
  {
    assert Link(m, r, b.addr - UNIT);
    assert Apart(b.addr - UNIT, m[b.addr - UNIT].ptr);
  }

  /** Operations that leave the blocks of `live` alone leave the book right. */
  lemma BookKept(m0: Memory, r0: set<int>, lo: int, hi: int, live0: set<int>, top: int, m: Memory, live: set<int>,
                 book: seq<Block>)
    requires Sound(m0, r0, lo, hi, live0) && Layout(m0.Keys, top) && Booked(m0, live0, book)
    requires forall i :: 0 <= i < |book| ==> book[i].addr - UNIT in live
    requires live <= live0 && LiveKept(m0, live, m)
    ensures Booked(m, live, book)
  {
    forall i | 0 <= i < |book| ensures Known(m, book[i]) {
      KnownSize(m0, r0, lo, hi, live0, top, book[i]);
      KnownKept(m0, live, m, book[i]);
    }
  }

  /** The same when the heap may not have been started yet. */
  lemma BookAfter(m0: Memory, r0: set<int>, lo: int, hi: int, live0: set<int>, top: int, m: Memory, live: set<int>,
                  book: seq<Block>, started: bool)
    requires if started then Sound(m0, r0, lo, hi, live0) && Layout(m0.Keys, top) else live0 == {}
    requires Booked(m0, live0, book) && live == live0 && LiveKept(m0, live, m)
    ensures Booked(m, live, book)
  {
    if started {
      BookKept(m0, r0, lo, hi, live0, top, m, live, book);
    } else if |book| > 0 {
      BlockIsLive(m0, live0, book, 0);
    }
  }

  lemma BlockIsLive(m: Memory, live: set<int>, book: seq<Block>, i: nat)
    requires Booked(m, live, book) && i < |book|
    ensures book[i].addr - UNIT in live && Known(m, book[i])
  {
  }

  lemma BookWithout(m: Memory, live: set<int>, book: seq<Block>, i: nat)
    requires Booked(m, live, book) && i < |book|
    ensures Booked(m, live, Without(book, i))
    ensures forall k :: 0 <= k < |book| - 1 ==> Without(book, i)[k].addr != book[i].addr
  {
    var w := Without(book, i);
    assert forall k :: 0 <= k < |w| ==> w[k] == book[if k < i then k else k + 1];
  }

  lemma BookKeptWithout(m0: Memory, r0: set<int>, lo: int, hi: int, live0: set<int>, top: int, m: Memory,
                        book: seq<Block>, i: nat)
    requires Sound(m0, r0, lo, hi, live0) && Layout(m0.Keys, top) && Booked(m0, live0, book) && i < |book|
    requires LiveKept(m0, live0 - {book[i].addr - UNIT}, m)
    ensures Booked(m, live0 - {book[i].addr - UNIT}, Without(book, i))
  {
    hide Sound, Layout, LiveKept;
    BookWithout(m0, live0, book, i);
    BookKept(m0, r0, lo, hi, live0, top, m, live0 - {book[i].addr - UNIT}, Without(book, i));
  }

  lemma BookWith(m: Memory, live: set<int>, book: seq<Block>, b: Block, live': set<int>)
    requires Booked(m, live, book) && live <= live' && b.addr - UNIT in live' && b.addr - UNIT !in live && Known(m, b)
    ensures Booked(m, live', book + [b])
  {
  }

  lemma MovedIsKnown(m0: Memory, m: Memory, a: int, r: int, n: nat, b: Block)
    requires Known(m0, b) && b.addr == a && b.size >= 0 && r != 0
    requires Transferred(m0, m, a, r, if Landed(m0, a, r, Rounded(n)) then a else 0) && a > 0
    requires r - UNIT in m && m[r - UNIT].ptr == r - UNIT + Rounded(n)
    ensures Known(m, Resized(b, r, n)) && Resized(b, r, n).addr == r
  {
    var c := Resized(b, r, n);
    forall off ensures CellKnown(m, c, off) {
      if off in c.cells {
        assert CellKnown(m0, b, off);
        assert OnGrid(a, a + off);
      }
    }
  }

  lemma PutIsKnown(m: Memory, r: set<int>, lo: int, hi: int, live: set<int>, book: seq<Block>, i: nat, off: int,
                   c: Cell)
    requires Sound(m, r, lo, hi, live) && Booked(m, live, book) && i < |book| && 0 <= off < book[i].size
    requires off % UNIT == 0
    ensures book[i].addr + off in m
    ensures Booked(m[book[i].addr + off := c], live, book[i := book[i].(cells := book[i].cells[off := c])])
  {
    var h, x := book[i].addr - UNIT, book[i].addr + off;
    assert Link(m, r, h) && Whole(m, h, m[h].ptr) && OnGrid(h, x);
    var m', book' := m[x := c], book[i := book[i].(cells := book[i].cells[off := c])];
    forall k | 0 <= k < |book'| ensures Known(m', book'[k]) {
      assert Link(m, r, book[k].addr - UNIT);
      forall o ensures CellKnown(m', book'[k], o) {
        assert CellKnown(m, book[k], o);
      }
    }
  }

  /** The offsets of the cells of memory between two addresses. */
  ghost function Offsets(m: Memory, a: int, e: int): (s: set<int>)
    ensures forall off :: off in s <==> a + off in m && 0 <= off < e - a && off % UNIT == 0
  {
    var s := set x | x in m.Keys && a <= x < e && (x - a) % UNIT == 0 :: x - a;
    forall off ensures off in s <==> a + off in m && 0 <= off < e - a && off % UNIT == 0 {
      assert a + off in m && 0 <= off < e - a && off % UNIT == 0 ==> (a + off) - a in s;
    }
    s
  }

  /** All there is to know of a block. */
  ghost function Opened(m: Memory, a: int): Block
    requires a - UNIT in m
  {
    var offsets := Offsets(m, a, m[a - UNIT].ptr);
    Block(a, m[a - UNIT].ptr - a, map off | off in offsets :: m[a + off])
  }

  lemma OpenedIsKnown(m: Memory, a: int)
    requires a - UNIT in m
    ensures Known(m, Opened(m, a)) && Opened(m, a).addr == a
  {
    forall off ensures CellKnown(m, Opened(m, a), off) { }
  }

  ghost function OpenedAll(m: Memory, held: seq<int>): (book: seq<Block>)
    requires forall i :: 0 <= i < |held| ==> held[i] - UNIT in m
    ensures |book| == |held| && forall i :: 0 <= i < |held| ==> book[i] == Opened(m, held[i])
  {
    seq(|held|, i requires 0 <= i < |held| => Opened(m, held[i]))
  }

  /** A book can be opened at any time with everything the blocks hold. */
  lemma OpenedIsBooked(m: Memory, r: set<int>, lo: int, hi: int, live: set<int>, held: seq<int>)
    requires Sound(m, r, lo, hi, live) && HeldOk(held, live)
    ensures (forall i :: 0 <= i < |held| ==> held[i] - UNIT in m)
    ensures Booked(m, live, OpenedAll(m, held)) && SameAddresses(held, OpenedAll(m, held))
  {
    forall i | 0 <= i < |held| ensures held[i] - UNIT in m && held[i] - UNIT in live { }
    hide Sound, Known, OpenedAll, Opened;
    forall i | 0 <= i < |held| ensures Known(m, Opened(m, held[i])) && Opened(m, held[i]).addr == held[i] {
      OpenedIsKnown(m, held[i]);
    }
  }

  // ----- the client -----

  ghost predicate HeldOk(held: seq<int>, live: set<int>) {
    && (forall i {:trigger held[i]} :: 0 <= i < |held| ==> held[i] - UNIT in live)
    && (forall i, j :: 0 <= i < j < |held| ==> held[i] != held[j])
  }

  lemma HeldWithout(held: seq<int>, live: set<int>, i: nat)
    requires HeldOk(held, live) && i < |held|
    ensures HeldOk(Without(held, i), live - {held[i] - UNIT})
  {
    var w := Without(held, i);
    assert forall k :: 0 <= k < |w| ==> w[k] == held[if k < i then k else k + 1];
  }

  lemma HeldIsLive(held: seq<int>, live: set<int>, i: nat)
    requires HeldOk(held, live) && i < |held|
    ensures held[i] - UNIT in live
  {
  }

  lemma LiveInRing(m: Memory, r: set<int>, lo: int, hi: int, live: set<int>, h: int)
    requires Sound(m, r, lo, hi, live) && h in live
    ensures h in r && h in m
  {
  }

  lemma HeldWith(held: seq<int>, live: set<int>, r: int)
    requires HeldOk(held, live) && r - UNIT !in live
    ensures HeldOk(held + [r], live + {r - UNIT})
  {
  }

  /** A program that uses the allocator, with the addresses of the blocks it holds. */
  class Client {
    const heap: Allocator
    var held: seq<int>
    var failed: bool   // malloc or realloc has failed and nothing was freed since

    ghost predicate Inv()
      reads this, heap
    {
      heap.Valid() && (!failed ==> heap.Anchored()) && HeldOk(held, heap.live)
    }

    ghost function Now(): Snap
      reads this, heap
    {
      Snap(heap.mem, heap.ring, heap.memtop, heap.sp, failed)
    }

    constructor (h: Allocator)
      requires h.Valid() && h.Anchored()
      ensures Inv() && heap == h && held == [] && !failed
    {
      heap, held, failed := h, [], false;
    }

    /** A new block, or 0; no cell of any live block changes. */
    method Alloc(n: nat) returns (r: int)
      requires Inv() && !failed && SizeOk(n)
      modifies this, heap
      ensures Inv() && failed == (r == 0) && LiveKept(old(heap.mem), old(heap.live), heap.mem)
      ensures Roomy(Rounded(n)) ==> (r == 0 <==> !RunFits(old(heap.mem), old(heap.ring), Rounded(n))
                                                 && old(heap.memtop) + Growth(Rounded(n)) + STACK_GAP >= heap.sp)
      ensures heap.sp == old(heap.sp) && heap.memtop <= Asked(old(heap.memtop), n)
      ensures Asked(old(heap.memtop), n) + STACK_GAP < heap.sp ==> r != 0
      ensures r == 0 ==> held == old(held) && heap.live == old(heap.live)
      ensures r != 0 ==>
                held == old(held) + [r] && heap.live == old(heap.live) + {r - UNIT} && r - UNIT !in old(heap.live)
      ensures r != 0 ==> r - UNIT in heap.mem && heap.mem[r - UNIT].ptr == r - UNIT + Rounded(n)
    {
      hide Sound, Layout, LiveKept, RunFits, Absorbable, OnlyHeaders, Searched, HeldOk;
      ghost var split, t;
      r, split, t := heap.Malloc(n);
      failed := r == 0;
      if r != 0 {
        HeldWith(held, old(heap.live), r);
        held := held + [r];
      }
    }

    /** A block is given back; no cell of any other live block changes. */
    method Release(i: nat)
      requires Inv() && i < |held|
      modifies this, heap
      ensures Inv() && held == Without(old(held), i) && !failed && heap.live == old(heap.live) - {old(held)[i] - UNIT}
      ensures LiveKept(old(heap.mem), heap.live, heap.mem)
      ensures heap.memtop == old(heap.memtop) && heap.sp == old(heap.sp)
    {
      var a := held[i];
      HeldWithout(held, heap.live, i);
      FreeFrames(heap.mem, heap.ring, heap.allocs, heap.alloct, heap.live, a - UNIT);
      heap.Free(a);
      held := Without(held, i);
      failed := false;
    }

    /** A block changes its size and perhaps its place, or is lost when there is no room;
        no cell of any other live block changes. */
    method Resize(i: nat, n: nat) returns (r: int)
      requires Inv() && i < |held| && SizeOk(n)
      modifies this, heap
      ensures Inv() && failed == (r == 0) && LiveKept(old(heap.mem), old(heap.live) - {old(held)[i] - UNIT}, heap.mem)
      ensures heap.sp == old(heap.sp) && heap.memtop <= Asked(old(heap.memtop), n)
      ensures Asked(old(heap.memtop), n) + STACK_GAP < heap.sp ==> r != 0
      ensures r == 0 ==> held == Without(old(held), i) && heap.live == old(heap.live) - {old(held)[i] - UNIT}
      ensures r != 0 ==> held == Without(old(held), i) + [r] && r - UNIT !in old(heap.live) - {old(held)[i] - UNIT}
      ensures r != 0 ==> heap.live == old(heap.live) - {old(held)[i] - UNIT} + {r - UNIT}
      ensures r != 0 ==> r - UNIT in heap.mem && heap.mem[r - UNIT].ptr == r - UNIT + Rounded(n)
      ensures r != 0 ==> Transferred(old(heap.mem), heap.mem, old(held)[i], r,
                                     if Landed(old(heap.mem), old(held)[i], r, Rounded(n)) then old(held)[i] else 0)
    {
      hide Layout, LiveKept, Transferred, FirstFit, RunFits, WillLand, Sound, HeldOk;
      var a := held[i];
      HeldIsLive(held, heap.live, i);
      LiveInRing(heap.mem, heap.ring, heap.allocs, heap.alloct, heap.live, a - UNIT);
      ghost var rest := heap.live - {a - UNIT};
      HeldWithout(held, heap.live, i);
      r := heap.Realloc(a, n);
      held := Without(held, i);
      failed := r == 0;
      if r != 0 {
        HeldWith(held, rest, r);
        held := held + [r];
      }
    }

    /** A cell of a held block is written, and nothing else. */
    method Put(i: nat, off: int, c: Cell)
      requires Inv() && i < |held| && off % UNIT == 0 && held[i] - UNIT in heap.mem
      requires 0 <= off < heap.mem[held[i] - UNIT].ptr - held[i]
      modifies heap`mem
      ensures Inv() && held[i] + off in old(heap.mem) && heap.mem == old(heap.mem)[held[i] + off := c]
    {
      var h, x := held[i] - UNIT, held[i] + off;
      assert Link(heap.mem, heap.ring, h) && Whole(heap.mem, h, heap.mem[h].ptr) && OnGrid(h, x);
      BodyWritesAreSafe(heap.mem, heap.ring, heap.allocs, heap.alloct, heap.live, h, heap.mem[x := c]);
      assert heap.mem[x := c].Keys == heap.mem.Keys;
      heap.mem := heap.mem[x := c];
    }

    /** The rest of the program raises the break and moves the stack. */
    method Outside(top: int, sp: int)
      requires Inv() && heap.memtop <= top < WORD && sp < WORD
      modifies heap`memtop, heap`sp
      ensures Inv() && heap.memtop == top && heap.sp == sp
    {
      LayoutRises(heap.mem.Keys, heap.memtop, top);
      heap.memtop := top;
      heap.sp := sp;
    }

    /** One operation.  Those that do not apply are passed over: a block not held, an
        offset outside the block, a size malloc is not defined for, a malloc after a
        failure with nothing freed since. */
    method Perform(op: Op, ghost book: seq<Block>) returns (r: int)
      requires Inv() && Booked(heap.mem, heap.live, book) && SameAddresses(held, book)
      modifies this, heap
      ensures Inv() && Booked(heap.mem, heap.live, Entered(book, op, r)) && SameAddresses(held, Entered(book, op, r))
      ensures Fair(old(Now()), op, r)
      ensures heap.memtop <= Highest(old(heap.memtop), op) && heap.sp >= Lowest(old(heap.sp), op)
      ensures !old(failed) && Highest(old(heap.memtop), op) + STACK_GAP < Lowest(old(heap.sp), op) ==>
                !failed && (Requests(book, op) ==> r != 0)
    {
      hide Sound, Layout, RunFits, Booked, HeldOk, SizeOk, Asked;
      r := 0;
      match op {
        case DoAlloc(n) => r := PerformAlloc(n, book);
        case DoRelease(i) => PerformRelease(i, book);
        case DoPut(i, off, c) => PerformPut(i, off, c, book);
        case DoRealloc(i, n) => r := PerformRealloc(i, n, book);
        case DoOutside(top, sp) =>
          if heap.memtop <= top < WORD && sp < WORD { Outside(top, sp); }
      }
    }

    method PerformAlloc(n: nat, ghost book: seq<Block>) returns (r: int)
      requires Inv() && Booked(heap.mem, heap.live, book) && SameAddresses(held, book)
      modifies this, heap
      ensures Inv() && Booked(heap.mem, heap.live, Entered(book, DoAlloc(n), r))
      ensures SameAddresses(held, Entered(book, DoAlloc(n), r))
      ensures SizeOk(n) && !old(failed) && Roomy(Rounded(n)) ==>
                (r == 0 <==> !RunFits(old(heap.mem), old(heap.ring), Rounded(n))
                             && old(heap.memtop) + Growth(Rounded(n)) + STACK_GAP >= heap.sp)
      ensures heap.memtop <= Asked(old(heap.memtop), n) && heap.sp == old(heap.sp)
      ensures !old(failed) && Asked(old(heap.memtop), n) + STACK_GAP < heap.sp ==> !failed && (SizeOk(n) ==> r != 0)
    {
      hide Sound, Layout, LiveKept, RunFits, Booked, HeldOk;
      r := 0;
      if SizeOk(n) && !failed {
        ghost var m0, r0, hi0, live0, top0 := heap.mem, heap.ring, heap.alloct, heap.live, heap.memtop;
        ghost var started := heap.Started();
        r := Alloc(n);
        BookAfter(m0, r0, heap.allocs, hi0, live0, top0, heap.mem, live0, book, started);
        if r != 0 {
          BookWith(heap.mem, live0, book, Block(r, Rounded(n) - UNIT, map[]), heap.live);
        }
      }
    }

    method PerformRelease(i: nat, ghost book: seq<Block>)
      requires Inv() && Booked(heap.mem, heap.live, book) && SameAddresses(held, book)
      modifies this, heap
      ensures Inv() && Booked(heap.mem, heap.live, Entered(book, DoRelease(i), 0))
      ensures SameAddresses(held, Entered(book, DoRelease(i), 0))
      ensures heap.memtop == old(heap.memtop) && heap.sp == old(heap.sp) && (failed ==> old(failed))
    {
      if i < |held| {
        hide Sound, Layout, LiveKept, HeldOk, Booked, SameAddresses, Without;
        ghost var m0, r0, hi0, live0, top0 := heap.mem, heap.ring, heap.alloct, heap.live, heap.memtop;
        SameWithout(held, book, i);
        BlockIsLive(m0, live0, book, i);
        Release(i);
        BookKeptWithout(m0, r0, heap.allocs, hi0, live0, top0, heap.mem, book, i);
      }
    }

    method PerformPut(i: nat, off: int, c: Cell, ghost book: seq<Block>)
      requires Inv() && Booked(heap.mem, heap.live, book) && SameAddresses(held, book)
      modifies this, heap
      ensures Inv() && Booked(heap.mem, heap.live, Entered(book, DoPut(i, off, c), 0))
      ensures SameAddresses(held, Entered(book, DoPut(i, off, c), 0))
      ensures heap.memtop == old(heap.memtop) && heap.sp == old(heap.sp) && (failed ==> old(failed))
    {
      if i < |held| {
        assert held[i] - UNIT in heap.live && held[i] == book[i].addr && Known(heap.mem, book[i]);
        if off % UNIT == 0 && 0 <= off < heap.mem[held[i] - UNIT].ptr - held[i] {
          PutIsKnown(heap.mem, heap.ring, heap.allocs, heap.alloct, heap.live, book, i, off, c);
          Put(i, off, c);
        }
      }
    }

    method PerformRealloc(i: nat, n: nat, ghost book: seq<Block>) returns (r: int)
      requires Inv() && Booked(heap.mem, heap.live, book) && SameAddresses(held, book)
      modifies this, heap
      ensures Inv() && Booked(heap.mem, heap.live, Entered(book, DoRealloc(i, n), r))
      ensures SameAddresses(held, Entered(book, DoRealloc(i, n), r))
      ensures heap.memtop <= Asked(old(heap.memtop), n) && heap.sp == old(heap.sp)
      ensures !old(failed) && Asked(old(heap.memtop), n) + STACK_GAP < heap.sp ==>
                !failed && (i < |book| && SizeOk(n) ==> r != 0)
    {
      r := 0;
      if i < |held| && SizeOk(n) {
        hide Sound, Layout, LiveKept, HeldOk, Transferred, Landed, Booked, Known, SameAddresses, Without, Resized;
        ghost var m0, r0, hi0, live0, top0, a := heap.mem, heap.ring, heap.alloct, heap.live, heap.memtop, held[i];
        SameWithout(held, book, i);
        BlockIsLive(m0, live0, book, i);
        KnownSize(m0, r0, heap.allocs, hi0, live0, top0, book[i]);
        BookWithout(m0, live0, book, i);
        r := Resize(i, n);
        ghost var rest := live0 - {a - UNIT};
        BookKeptWithout(m0, r0, heap.allocs, hi0, live0, top0, heap.mem, book, i);
        if r != 0 {
          MovedIsKnown(m0, heap.mem, a, r, n, book[i]);
          BookWith(heap.mem, rest, Without(book, i), Resized(book[i], r, n), heap.live);
          SameWith(Without(old(held), i), Without(book, i), Resized(book[i], r, n));
          assert Entered(book, DoRealloc(i, n), r) == Without(book, i) + [Resized(book[i], r, n)];
        } else {
          assert Entered(book, DoRealloc(i, n), r) == Without(book, i);
        }
      }
    }
  }

  /** Whatever a client does, for as long as it likes, the heap stays valid and every
      block it holds reads as its book says: a cell holds what was last put there since
      the block was handed out, through all resizing, and a block held from the start and
      never written holds what it held then. No request fails while the break, raised by
      all requests so far, would stay clear of the stack. */
  method Run(c: Client, ops: seq<Op>, ghost book: seq<Block>) returns (out: seq<int>, ghost seen: seq<Snap>)
    requires c.Inv() && Booked(c.heap.mem, c.heap.live, book) && SameAddresses(c.held, book)
    modifies c, c.heap
    ensures c.Inv() && |out| == |ops|
    ensures Booked(c.heap.mem, c.heap.live, After(book, ops, out)) && SameAddresses(c.held, After(book, ops, out))
    ensures !old(c.failed) ==>
              forall k :: 0 <= k < |ops| ==> Served(book, ops, out, old(c.heap.memtop), old(c.heap.sp), k)
    ensures |seen| == |ops| + 1 && seen[0] == old(c.Now()) && seen[|ops|] == c.Now()
    ensures forall k :: 0 <= k < |ops| ==> Fair(seen[k], ops[k], out[k])
  {
    hide Booked, SameAddresses, Entered, Sound, Layout, HeldOk, Fair, Requests, Highest, Lowest, Ceiling, Floor,
         Clears, Served;
    out, seen := [], [c.Now()];
    ghost var top, sp, ready := c.heap.memtop, c.heap.sp, !c.failed;
    NothingRaises(top, sp);
    for k := 0 to |ops|
      invariant c.Inv() && |out| == k && |seen| == k + 1 && seen[0] == old(c.Now()) && seen[k] == c.Now()
      invariant Booked(c.heap.mem, c.heap.live, After(book, ops[..k], out))
      invariant SameAddresses(c.held, After(book, ops[..k], out))
      invariant c.heap.memtop <= Ceiling(top, ops[..k]) && c.heap.sp >= Floor(sp, ops[..k])
      invariant ready && Clears(top, sp, ops[..k]) ==> !c.failed
      invariant ready ==> forall j :: 0 <= j < k ==> Served(book, ops, out, top, sp, j)
      invariant forall j :: 0 <= j < k ==> Fair(seen[j], ops[j], out[j])
    {
      ClearsStep(top, sp, ops, k, c.heap.memtop, c.heap.sp);
      var r := c.Perform(ops[k], After(book, ops[..k], out));
      AfterNext(book, ops, out, r, top, sp, ready);
      out, seen := out + [r], seen + [c.Now()];
    }
    assert ops[..|ops|] == ops;
  }

  lemma NothingRaises(top: int, sp: int)
    ensures Ceiling(top, []) == top && Floor(sp, []) == sp
  {
  }

  lemma AfterNext(book: seq<Block>, ops: seq<Op>, out: seq<int>, r: int, top: int, sp: int, ready: bool)
    requires |out| < |ops| && (ready ==> forall j :: 0 <= j < |out| ==> Served(book, ops, out, top, sp, j))
    requires ready && Clears(top, sp, ops[..|out| + 1]) && Requests(After(book, ops[..|out|], out), ops[|out|]) ==>
               r != 0
    ensures After(book, ops[..|out| + 1], out + [r]) == Entered(After(book, ops[..|out|], out), ops[|out|], r)
    ensures ready ==> forall j :: 0 <= j <= |out| ==> Served(book, ops, out + [r], top, sp, j)
  {
    hide Requests, Clears, Entered;
    var k, out' := |out|, out + [r];
    assert ops[..k + 1][..k] == ops[..k] && out'[..k] == out;
    if ready {
      forall j | 0 <= j <= k ensures Served(book, ops, out', top, sp, j) {
        assert out'[..j] == out[..j];
        assert j < k ==> Served(book, ops, out, top, sp, j);
        assert j == k ==> out[..j] == out;
      }
    }
  }
}
