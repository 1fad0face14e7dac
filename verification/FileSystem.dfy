/** The Micronix file system library: block allocation, the logical-to-physical
    mapping with its one-block cache, and freeing of files. */
module FileSystem {
  import opened Common
  import opened FreeList
  import opened Ownership

  /** The disk after a block is taken: a link block is cleared. */
  function Taken(nfree: int, disk: Disk, b: Word): Disk {
    if nfree == 1 then disk[b := Zeros()] else disk
  }

  /** The count in the superblock after a block is taken. */
  function CountAfter(nfree: int, disk: Disk, b: Word): int
    requires b in disk
  {
    if nfree == 1 then disk[b][0] else nfree - 1
  }

  function Last(st: seq<Word>): Word
    requires st != []
  {
    st[|st| - 1]
  }

  /** How many blocks an allocating map takes from the free list. */
  function Need(n: Inode, disk: Disk, l: nat): (k: nat)
    ensures k <= 3
  {
    if !n.large then
      if l < 8 then (if n.addr[l] == 0 then 1 else 0) else if l < 256 then 2 else 3
    else if l >= REACH || n.addr[l / 256] !in disk then 2
    else if disk[n.addr[l / 256]][l % 256] == 0 then 1
    else 0
  }

  ghost predicate Separate(owner: Owner, stack: seq<Word>) {
    forall b {:trigger b in owner} :: b in owner ==> b !in stack
  }

  ghost predicate CacheOk(iblkno: int, iblk: Block, disk: Disk, owner: Owner) {
    iblkno != -1 ==>
      0 < iblkno < 0x10000 && iblkno in owner && owner[iblkno].level >= 1 && iblkno in disk && disk[iblkno] == iblk
  }

  /** The whole state is in order. */
  ghost predicate Good(nfree: int, free: seq<Word>, stack: seq<Word>, files: Files, disk: Disk, owner: Owner) {
    Sound(nfree, free, disk, stack) && Owns(files, disk, owner) && 0 !in disk && Separate(owner, stack)
  }

  /** Taking a block leaves ownership, the mapping and the data alone. */
  lemma TakenKeeps(nfree: int, free: seq<Word>, stack: seq<Word>, files: Files, disk: Disk, owner: Owner)
    requires Good(nfree, free, stack, files, disk, owner) && stack != []
    ensures var disk2 := Taken(nfree, disk, Last(stack));
            && Owns(files, disk2, owner) && 0 !in disk2 && Separate(owner, Init(stack))
            && Same(files, disk, files, disk2) && DataKept(disk, disk2, owner)
            && Last(stack) !in owner && Last(stack) in disk2 && Last(stack) != 0 && disk2.Keys == disk.Keys
  {
    var b, disk2 := Last(stack), Taken(nfree, disk, Last(stack));
    assert b in stack;
    OwnsFrame(files, disk, disk2, owner);
    SameFrame(files, disk, disk2, owner);
  }

  ghost predicate Somewhere(owner: Owner, stack: seq<Word>, b: Word) {
    b in owner || b in stack
  }

  /** No block is lost or gained between the files and the free list. */
  ghost predicate Conserved(owner: Owner, stack: seq<Word>, owner2: Owner, stack2: seq<Word>) {
    forall b: Word {:trigger Somewhere(owner2, stack2, b)} ::
      Somewhere(owner, stack, b) <==> Somewhere(owner2, stack2, b)
  }

  lemma ConservedPop(owner: Owner, stack: seq<Word>, owner2: Owner)
    requires stack != [] && owner2.Keys == owner.Keys + {Last(stack)}
    ensures Conserved(owner, stack, owner2, Init(stack))
  {
    assert stack == Init(stack) + [Last(stack)];
  }

  lemma DistinctOf(nfree: int, free: seq<Word>, disk: Disk, stack: seq<Word>)
    requires Sound(nfree, free, disk, stack) && stack != []
    ensures Last(stack) !in Init(stack) && Last(stack) != 0 && Last(stack) in disk
    ensures forall b :: b in Init(stack) ==> b in stack
  {
  }

  lemma DataKeptBut(disk: Disk, disk2: Disk, owner: Owner, b: Word, v: Block)
    requires DataKept(disk, disk2, owner) && (b in owner ==> owner[b].level >= 1)
    ensures DataKept(disk, disk2[b := v], owner)
  {
  }

  /** The free list and separation after taking a block and then rewriting blocks off
      the list. */
  lemma StillGood(nfree: int, free: seq<Word>, stack: seq<Word>, files: Files, disk: Disk, disk2: Disk, owner: Owner)
    requires Sound(nfree, free, disk, stack) && Owns(files, disk2, owner) && 0 !in disk2 && Separate(owner, stack)
    requires forall b :: b in stack && b in disk ==> b in disk2 && disk2[b] == disk[b]
    ensures Good(nfree, free, stack, files, disk2, owner)
  {
    SoundFrame(nfree, free, disk, disk2, stack);
  }

  /** A fresh data block in an entry of an indirect block. */
  lemma EntryGood(nfree: int, free: seq<Word>, stack: seq<Word>, files: Files, disk: Disk, owner: Owner, f: nat, l: nat)
    requires Good(nfree, free, stack, files, disk, owner) && stack != []
    requires f in files && files[f].large && l < REACH && files[f].addr[l / 256] in disk
    requires Lookup(files, disk, f, l) == 0
    ensures var b, p, j := Last(stack), files[f].addr[l / 256], l % 256;
            var taken := Taken(nfree, disk, b);
            && p in taken && p in owner && owner[p] == Claim(f, Slot(l / 256), 1)
            && var disk2, owner2 := WithEntry(taken, p, j, b), owner[b := Claim(f, Entry(p, j), 0)];
               && Owns(files, disk2, owner2) && 0 !in disk2 && Separate(owner2, Init(stack))
               && SameBut(files, disk, files, disk2, f, l) && DataKept(disk, disk2, owner)
               && Conserved(owner, stack, owner2, Init(stack))
  {
    hide Same, SameBut, DataKept, Conserved;
    var b, p, j := Last(stack), files[f].addr[l / 256], l % 256;
    var taken := Taken(nfree, disk, b);
    assert SlotOk(files, owner, f, l / 256);
    TakenKeeps(nfree, free, stack, files, disk, owner);
    DistinctOf(nfree, free, disk, stack);
    hide Sound, Owns;
    assert taken[p] == disk[p];
    AddEntry(files, taken, owner, p, j, b);
    EntryChangesOne(files, taken, owner, f, l, b);
    SameThenBut(files, disk, files, taken, files, WithEntry(taken, p, j, b), f, l);
    DataKeptBut(disk, taken, owner, p, WithEntry(taken, p, j, b)[p]);
    ConservedPop(owner, stack, owner[b := Claim(f, Entry(p, j), 0)]);
  }

  /** A map with allocation did what it should: only the requested place may change,
      a mapped place keeps its block, a hole gets one off the free list; every other
      place, all data and the set of all blocks are as before. */
  ghost predicate Extended(files0: Files, disk0: Disk, owner0: Owner, stack0: seq<Word>,
                           files: Files, disk: Disk, owner: Owner, stack: seq<Word>, f: nat, l: nat, b: Word) {
    && f in files0 && files.Keys == files0.Keys && b == Lookup(files, disk, f, l) && b != 0
    && SameBut(files0, disk0, files, disk, f, l) && DataKept(disk0, disk, owner0)
    && Conserved(owner0, stack0, owner, stack)
    && (var b0 := Lookup(files0, disk0, f, l); if b0 != 0 then b == b0 else b in stack0 && b !in stack)
  }

  /** A change that takes a block but leaves the mapping and the data alone. */
  ghost predicate Prepared(files0: Files, disk0: Disk, owner0: Owner, stack0: seq<Word>,
                           files: Files, disk: Disk, owner: Owner, stack: seq<Word>) {
    && files.Keys == files0.Keys && disk.Keys == disk0.Keys
    && Same(files0, disk0, files, disk) && DataKept(disk0, disk, owner0) && Conserved(owner0, stack0, owner, stack)
    && (forall b {:trigger b in owner0} :: b in owner0 && owner0[b].level == 0 ==> b in owner && owner[b].level == 0)
    && stack0 != [] && stack == Init(stack0)
  }

  lemma PreparedThenExtended(files0: Files, disk0: Disk, owner0: Owner, stack0: seq<Word>,
                             files1: Files, disk1: Disk, owner1: Owner, stack1: seq<Word>,
                             files: Files, disk: Disk, owner: Owner, stack: seq<Word>, f: nat, l: nat, b: Word)
    requires Prepared(files0, disk0, owner0, stack0, files1, disk1, owner1, stack1)
    requires Extended(files1, disk1, owner1, stack1, files, disk, owner, stack, f, l, b)
    ensures Extended(files0, disk0, owner0, stack0, files, disk, owner, stack, f, l, b)
  {
    SameThenBut(files0, disk0, files1, disk1, files, disk, f, l);
    assert SameAt(files0, disk0, files1, disk1, f, l);
    forall x: Word ensures Somewhere(owner0, stack0, x) <==> Somewhere(owner, stack, x) {
      assert Somewhere(owner1, stack1, x) <==> Somewhere(owner, stack, x);
      assert Somewhere(owner0, stack0, x) <==> Somewhere(owner1, stack1, x);
    }
  }

  lemma PreparedSame(files0: Files, disk0: Disk, owner0: Owner, stack0: seq<Word>,
                     files: Files, disk: Disk, owner: Owner, stack: seq<Word>)
    requires Prepared(files0, disk0, owner0, stack0, files, disk, owner, stack)
    ensures Same(files0, disk0, files, disk)
  {
  }

  lemma SlotOwned(files: Files, disk: Disk, owner: Owner, f: nat, i: nat)
    requires Owns(files, disk, owner) && f in files && i < 8 && files[f].addr[i] != 0
    ensures files[f].addr[i] in owner && owner[files[f].addr[i]] == Claim(f, Slot(i), Level(files[f].large, i))
    ensures files[f].addr[i] in disk
  {
    assert SlotOk(files, owner, f, i);
  }

  lemma FreshExtended(files: Files, disk0: Disk, owner0: Owner, stack0: seq<Word>, disk: Disk, owner: Owner, f: nat,
                      l: nat)
    requires f in files && stack0 != [] && Lookup(files, disk0, f, l) == 0
    requires SameBut(files, disk0, files, disk, f, l) && DataKept(disk0, disk, owner0)
    requires Conserved(owner0, stack0, owner, Init(stack0))
    requires Lookup(files, disk, f, l) == Last(stack0) != 0 && Last(stack0) !in Init(stack0)
    ensures Extended(files, disk0, owner0, stack0, files, disk, owner, Init(stack0), f, l, Last(stack0))
  {
    hide SameBut, DataKept, Conserved;
  }

  lemma TopOf(stack: seq<Word>, b: Word)
    requires stack != []
    ensures b in stack <==> b == Last(stack) || b in Init(stack)
  {
    assert stack == Init(stack) + [Last(stack)];
  }

  ghost function NonZero(s: Block): (k: nat)
    requires s != Zeros()
    ensures k < 256 && s[k] != 0
  {
    var k :| 0 <= k < 256 && s[k] != 0;
    k
  }

  /** A stale entry in a fresh indirect block maps a place that was a hole. */
  lemma StaleShows(files: Files, disk: Disk, f: nat, l: nat, p: Word, disk2: Disk, k: nat)
    requires f in files && files[f].large && l < REACH && files[f].addr[l / 256] == 0 && 0 !in disk
    requires p in disk2 && k < 256 && k != l % 256 && disk2[p][k] != 0
    ensures !SameBut(files, disk, WithSlot(files, f, l / 256, p), disk2, f, l)
  {
    var m := 256 * (l / 256) + k;
    Decompose(l / 256, k, 256);
    assert !SameAt(files, disk, WithSlot(files, f, l / 256, p), disk2, f, m);
  }

  /** What the second block down looks like once the first has been taken. */
  lemma SecondDown(nfree: int, free: seq<Word>, disk: Disk, stack: seq<Word>)
    requires Sound(nfree, free, disk, stack) && |stack| >= 2
    ensures var b, c := Last(stack), Last(Init(stack));
            c != b && c in disk && b in disk
  {
    assert stack[|stack| - 2] in stack && stack[|stack| - 1] in stack;
  }

  lemma NothingChanged(files: Files, disk: Disk, owner: Owner, stack: seq<Word>, f: nat, l: nat)
    requires f in files && Lookup(files, disk, f, l) != 0
    ensures Extended(files, disk, owner, stack, files, disk, owner, stack, f, l, Lookup(files, disk, f, l))
  {
  }

  /** The outcome a caller counts on: no other place is remapped, a mapped place keeps
      its block, and a hole gets a block that just left the free list for this use. */
  ghost predicate Right(files0: Files, disk0: Disk, stack0: seq<Word>, files: Files, disk: Disk, stack: seq<Word>,
                        f: nat, l: nat, b: Word)
    requires f in files0 && f in files
  {
    && SameBut(files0, disk0, files, disk, f, l)
    && (var b0 := Lookup(files0, disk0, f, l);
        if b0 != 0 then b == b0 else b in stack0 && b !in stack && (files[f].large ==> b !in files[f].addr))
  }

  /** A fresh data block is none of the file's indirect blocks. */
  lemma ExtendedRight(files0: Files, disk0: Disk, owner0: Owner, stack0: seq<Word>,
                      files: Files, disk: Disk, owner: Owner, stack: seq<Word>, f: nat, l: nat, b: Word)
    requires Extended(files0, disk0, owner0, stack0, files, disk, owner, stack, f, l, b)
    requires Owns(files, disk, owner) && 0 !in disk
    ensures Right(files0, disk0, stack0, files, disk, stack, f, l, b)
  {
    LookupOwned(files, disk, owner, f, l);
    if files[f].large && b in files[f].addr {
      var i :| 0 <= i < 8 && files[f].addr[i] == b;
      SlotOwned(files, disk, owner, f, i);
    }
  }

  lemma NotRightBefore(files0: Files, disk0: Disk, stack0: seq<Word>, files1: Files, disk1: Disk,
                       files: Files, disk: Disk, stack: seq<Word>, f: nat, l: nat, b: Word)
    requires f in files0 && files0.Keys == files1.Keys == files.Keys && stack0 != []
    requires Same(files0, disk0, files1, disk1) && Lookup(files1, disk1, f, l) == 0
    requires files[f].large && Last(stack0) in files[f].addr
    requires !Right(files1, disk1, Init(stack0), files, disk, stack, f, l, b)
    ensures !Right(files0, disk0, stack0, files, disk, stack, f, l, b)
  {
    assert SameAt(files0, disk0, files1, disk1, f, l);
    TopOf(stack0, b);
    if SameBut(files0, disk0, files, disk, f, l) {
      forall g: nat, m: nat | g != f || m != l ensures SameAt(files1, disk1, files, disk, g, m) {
        assert SameAt(files0, disk0, files1, disk1, g, m) && SameAt(files0, disk0, files, disk, g, m);
      }
    }
  }

  /** The free list has run out: nothing is mapped anew and no data is touched, but the
      count in the superblock stands for no list any more. */
  ghost predicate Spent(files0: Files, disk0: Disk, owner0: Owner, files: Files, disk: Disk, nfree: int) {
    files.Keys == files0.Keys && Same(files0, disk0, files, disk) && DataKept(disk0, disk, owner0) && nfree == 0
  }

  lemma SelfSpent(files: Files, disk: Disk, owner: Owner, nfree: int)
    requires nfree == 0
    ensures Spent(files, disk, owner, files, disk, nfree)
  {
  }

  lemma PreparedThenSpent(files0: Files, disk0: Disk, owner0: Owner, stack0: seq<Word>,
                          files1: Files, disk1: Disk, owner1: Owner, stack1: seq<Word>,
                          files: Files, disk: Disk, nfree: int)
    requires Prepared(files0, disk0, owner0, stack0, files1, disk1, owner1, stack1)
    requires Spent(files1, disk1, owner1, files, disk, nfree)
    ensures Spent(files0, disk0, owner0, files, disk, nfree)
  {
    SameThenSame(files0, disk0, files1, disk1, files, disk);
  }

  lemma PreparedIsSpent(files0: Files, disk0: Disk, owner0: Owner, stack0: seq<Word>,
                        files: Files, disk: Disk, owner: Owner, stack: seq<Word>, nfree: int)
    requires Prepared(files0, disk0, owner0, stack0, files, disk, owner, stack) && nfree == 0
    ensures Spent(files0, disk0, owner0, files, disk, nfree)
  {
  }

  lemma NeedAfterGrowth(n0: Inode, n: Inode, disk: Disk, l: nat, p: Word)
    requires !n0.large && 8 <= l < REACH && n == GrownInode(n0, p) && p in disk && disk[p] == Grown(n0.addr)
    requires 0 !in disk
    ensures Need(n, disk, l) + 1 == Need(n0, disk, l)
  {
  }

  /** The place `bmap` looks at in its address array for logical block `l`, and how many
      places that array has. */
  function IndirectIndex(l: nat): int {
    if l / 256 == 7 then 7 - 7 * 256 else l / 256
  }

  function IndirectPlaces(l: nat): nat {
    if l / 256 == 7 then 256 else 8
  }

  /** Logical blocks below the double indirect range, and without allocation all of a small
      file, and the double indirect range of a file that has no such block. */
  predicate Mappable(n: Inode, l: nat, alloc: bool) {
    l < 1792 || (!alloc && (!n.large || (l < 2048 && n.addr[7] == 0)))
  }

  /** Those are exactly the ones for which `bmap` answers before it forms that index, or the
      index is inside the array. */
  lemma MappableExactly(n: Inode, l: nat, alloc: bool)
    ensures Mappable(n, l, alloc) <==>
              || (!alloc && !n.large)
              || (!alloc && l / 256 == 7 && n.addr[7] == 0)
              || 0 <= IndirectIndex(l) < IndirectPlaces(l)
  {
  }

  /** Whether an allocating map meets only cleared indirect blocks: a fresh one is
      clear when it comes off the list as a link, or was left clear on disk. */
  ghost predicate Clear(nfree: int, stack: seq<Word>, disk: Disk, n: Inode, l: nat) {
    if n.large then
      l < REACH && n.addr[l / 256] == 0 && stack != [] ==>
        nfree == 1 || (Last(stack) in disk && disk[Last(stack)] == Zeros())
    else
      l >= 256 && |stack| >= 2 && Last(stack) in disk ==>
        CountAfter(nfree, disk, Last(stack)) == 1 || (Last(Init(stack)) in disk && disk[Last(Init(stack))] == Zeros())
  }

  /** The conversion of a small file leaves the question whether the map will be right. */
  lemma ClearAfterGrowth(nfree0: int, stack0: seq<Word>, disk0: Disk, n0: Inode, l: nat, nfree: int, disk: Disk,
                         n: Inode)
    requires !n0.large && 8 <= l < REACH && stack0 != [] && Last(stack0) in disk0 && Last(stack0) != 0
    requires n == GrownInode(n0, Last(stack0)) && nfree == CountAfter(nfree0, disk0, Last(stack0))
    requires disk == Taken(nfree0, disk0, Last(stack0))[Last(stack0) := Grown(n0.addr)]
    requires |stack0| >= 2 ==> Last(Init(stack0)) != Last(stack0)
    ensures Clear(nfree, Init(stack0), disk, n, l) <==> Clear(nfree0, stack0, disk0, n0, l)
  {
    hide Grown;
  }

  /** `Clear`, told from the superblock and the disk. */
  predicate NextClear(nfree: int, free: seq<Word>, disk: Disk) {
    nfree <= 1 || |free| < nfree || (free[nfree - 1] in disk && disk[free[nfree - 1]] == Zeros())
  }

  predicate LooksClear(nfree: int, free: seq<Word>, disk: Disk, n: Inode, l: nat) {
    if n.large then
      l < REACH && n.addr[l / 256] == 0 ==> NextClear(nfree, free, disk)
    else
      l >= 256 && free != [] ==>
        if nfree == 1 && free[0] in disk then NextClear(disk[free[0]][0], disk[free[0]][1..101], disk)
        else NextClear(nfree - 1, free, disk)
  }

  lemma CountInRange(nfree: int, free: seq<Word>, disk: Disk, stack: seq<Word>)
    requires Sound(nfree, free, disk, stack)
    ensures |free| == LIST_SIZE && 1 <= nfree <= LIST_SIZE && (stack == [] ==> nfree == 1)
    ensures forall b :: b in stack ==> b in disk
  {
  }

  lemma TopIsNext(nfree: int, free: seq<Word>, disk: Disk, stack: seq<Word>)
    requires Sound(nfree, free, disk, stack)
    ensures forall b :: b in stack ==> b in disk
    ensures NextClear(nfree, free, disk) <==>
              (stack != [] ==> nfree == 1 || (Last(stack) in disk && disk[Last(stack)] == Zeros()))
  {
    hide Sound;
    CountInRange(nfree, free, disk, stack);
    EmptyIffSentinel(nfree, free, disk, stack);
  }

  lemma NothingLeft(free: seq<Word>, disk: Disk)
    ensures NextClear(0, free, disk) && NextClear(1, free, disk)
  {
  }

  lemma SecondIsNext(free: seq<Word>, disk: Disk, stack: seq<Word>)
    requires Sound(1, free, disk, stack) && stack != [] && free[0] != 0 && free[0] in disk
    ensures NextClear(disk[free[0]][0], disk[free[0]][1..101], disk) <==>
              (|stack| >= 2 ==>
                 disk[free[0]][0] == 1 || (Last(Init(stack)) in disk && disk[Last(Init(stack))] == Zeros()))
  {
    hide Sound, NextClear;
    CountInRange(1, free, disk, stack);
    EmptyIffSentinel(1, free, disk, stack);
    var b := free[0];
    PopLink(free, disk, stack);
    DistinctOf(1, free, disk, stack);
    SoundFrame(disk[b][0], disk[b][1..101], disk[b := Zeros()], disk, Init(stack));
    TopIsNext(disk[b][0], disk[b][1..101], disk, Init(stack));
  }

  /** The superblock and the disk tell whether the map will be right. */
  lemma LooksClearIsClear(nfree: int, free: seq<Word>, disk: Disk, stack: seq<Word>, n: Inode, l: nat)
    requires Sound(nfree, free, disk, stack) && 0 !in disk
    ensures LooksClear(nfree, free, disk, n, l) <==> Clear(nfree, stack, disk, n, l)
  {
    hide Sound, NextClear;
    CountInRange(nfree, free, disk, stack);
    EmptyIffSentinel(nfree, free, disk, stack);
    TopIsNext(nfree, free, disk, stack);
    if stack == [] {
      NothingLeft(free, disk);
    } else if nfree > 1 {
      PopEntry(nfree, free, disk, stack);
      TopIsNext(nfree - 1, free, disk, Init(stack));
    } else {
      SecondIsNext(free, disk, stack);
    }
  }

  // ----- freeing -----

  lemma EntryOwned(files: Files, disk: Disk, owner: Owner, p: Word, j: nat)
    requires Owns(files, disk, owner) && p in owner && p in disk && j < 256 && owner[p].level >= 1 && disk[p][j] != 0
    ensures var c := disk[p][j];
            c in owner && c in disk && owner[c] == Claim(owner[p].file, Entry(p, j), owner[p].level - 1)
  {
    assert EntriesOk(disk, owner, p) && EntryOk(disk, owner, p, j);
  }

  lemma SelfKept(owner: Owner, disk: Disk, stack: seq<Word>, f: nat, files: Files, view: Disk)
    requires Owns(files, view, owner) && view.Keys == disk.Keys
    ensures Progress(owner, stack, disk, owner, stack, disk, f) && Present(disk, owner)
  {
  }

  /** The state while a file is being freed. `view` is the disk as it will be once the
      blocks of pointers held in memory are written back. */
  ghost predicate Freeing(nfree: int, free: seq<Word>, stack: seq<Word>, files: Files, disk: Disk, view: Disk,
                          owner: Owner) {
    && Sound(nfree, free, disk, stack) && Owns(files, view, owner) && Separate(owner, stack)
    && 0 !in disk && view.Keys == disk.Keys
  }

  /** The view differs from the disk, on owned blocks, at most at `p` and `q`. */
  ghost predicate ViewOf(view: Disk, disk: Disk, owner: Owner, p: Word, q: Word) {
    forall b {:trigger b in owner} :: b in owner && b != p && b != q ==> b in view && b in disk && view[b] == disk[b]
  }

  /** Blocks of file `f` went from the files to the free list, and nothing else. */
  ghost predicate Progress(o0: Owner, s0: seq<Word>, d0: Disk, owner: Owner, stack: seq<Word>, disk: Disk, f: nat) {
    && Conserved(o0, s0, owner, stack) && OthersKept(o0, d0, owner, disk, f)
    && s0 <= stack && disk.Keys == d0.Keys
  }

  lemma NothingGained(o0: Owner, s0: seq<Word>, d0: Disk, owner: Owner, stack: seq<Word>, disk: Disk, f: nat, b: Word)
    requires Progress(o0, s0, d0, owner, stack, disk, f)
    ensures b in owner ==> b in o0
  {
  }

  lemma ProgressTrans(o0: Owner, s0: seq<Word>, d0: Disk, o1: Owner, s1: seq<Word>, d1: Disk, o2: Owner, s2: seq<Word>,
                      d2: Disk, f: nat)
    requires Progress(o0, s0, d0, o1, s1, d1, f) && Progress(o1, s1, d1, o2, s2, d2, f)
    ensures Progress(o0, s0, d0, o2, s2, d2, f)
  {
    forall b: Word ensures Somewhere(o0, s0, b) <==> Somewhere(o2, s2, b) {
      assert Somewhere(o1, s1, b) <==> Somewhere(o2, s2, b);
      assert Somewhere(o0, s0, b) <==> Somewhere(o1, s1, b);
    }
  }

  lemma ViewAt(nfree: int, free: seq<Word>, stack: seq<Word>, files: Files, disk: Disk, view: Disk, owner: Owner,
               p: Word, q: Word)
    requires Freeing(nfree, free, stack, files, disk, view, owner) && ViewOf(view, disk, owner, 0, q)
    requires p in owner && p != q && p in disk
    ensures p in view && view[p] == disk[p] && p != 0 && p !in stack && ViewOf(view, disk, owner, p, q)
  {
  }

  lemma FreeingOwns(nfree: int, free: seq<Word>, stack: seq<Word>, files: Files, disk: Disk, view: Disk, owner: Owner)
    requires Freeing(nfree, free, stack, files, disk, view, owner)
    ensures Owns(files, view, owner) && view.Keys == disk.Keys
  {
  }

  lemma SelfProgress(nfree: int, free: seq<Word>, stack: seq<Word>, files: Files, disk: Disk, view: Disk, owner: Owner,
                     f: nat)
    requires Freeing(nfree, free, stack, files, disk, view, owner)
    ensures Progress(owner, stack, disk, owner, stack, disk, f) && Present(disk, owner)
  {
    SelfKept(owner, disk, stack, f, files, view);
  }

  /** Once the block of pointers `p` is written back, the view is the disk there too. */
  lemma WrittenBack(nfree: int, free: seq<Word>, stack: seq<Word>, files: Files, disk: Disk, view: Disk, owner: Owner,
                    p: Word, q: Word, f: nat)
    requires Freeing(nfree, free, stack, files, disk, view, owner) && ViewOf(view, disk, owner, p, q)
    requires p in owner && owner[p].file == f && p in view
    ensures Freeing(nfree, free, stack, files, disk[p := view[p]], view, owner)
    ensures ViewOf(view, disk[p := view[p]], owner, 0, q)
    ensures Progress(owner, stack, disk, owner, stack, disk[p := view[p]], f)
  {
    SoundFrame(nfree, free, disk, disk[p := view[p]], stack);
  }

  /** With nothing left to write back, the disk itself is in order. */
  lemma ViewIsDisk(nfree: int, free: seq<Word>, stack: seq<Word>, files: Files, disk: Disk, view: Disk, owner: Owner)
    requires Freeing(nfree, free, stack, files, disk, view, owner) && ViewOf(view, disk, owner, 0, 0)
    ensures Freeing(nfree, free, stack, files, disk, disk, owner) && Good(nfree, free, stack, files, disk, owner)
  {
    OwnsFrame(files, view, disk, owner);
  }

  lemma GoodIsFreeing(nfree: int, free: seq<Word>, stack: seq<Word>, files: Files, disk: Disk, owner: Owner)
    requires Good(nfree, free, stack, files, disk, owner)
    ensures Freeing(nfree, free, stack, files, disk, disk, owner) && ViewOf(disk, disk, owner, 0, 0)
  {
  }

  /** A freed file maps nothing, unless the double indirect block was in use. */
  function Freed(n: Inode): Inode {
    Inode(n.io, false, 0, [0, 0, 0, 0, 0, 0, 0, if n.large then n.addr[7] else 0])
  }

  /** The cached block belongs to another file when this one is small. */
  lemma CacheSurvives(iblkno: int, iblk: Block, files: Files, o0: Owner, s0: seq<Word>, d0: Disk, owner: Owner,
                      stack: seq<Word>, disk: Disk, f: nat)
    requires CacheOk(iblkno, iblk, d0, o0) && Owns(files, d0, o0) && f in files && !files[f].large
    requires Progress(o0, s0, d0, owner, stack, disk, f)
    ensures CacheOk(iblkno, iblk, disk, owner)
  {
    if iblkno != -1 { assert Anchored(files, d0, o0, iblkno); }
  }

  lemma ZeroUnowned(files: Files, disk: Disk, owner: Owner)
    requires Owns(files, disk, owner)
    ensures 0 !in owner
  {
  }

  lemma WiderView(view: Disk, disk: Disk, owner: Owner, p: Word, q: Word, r: Word)
    requires ViewOf(view, disk, owner, p, q) && p == 0
    ensures q == 0 ==> ViewOf(view, disk, owner, 0, r)
    ensures r == 0 ==> ViewOf(view, disk, owner, q, 0)
  {
  }

  lemma SameKeys(o0: Owner, s0: seq<Word>, o1: Owner, o2: Owner, stack: seq<Word>, d0: Disk, disk: Disk, f: nat)
    requires Progress(o0, s0, d0, o1, stack, disk, f) && o2.Keys == o1.Keys
    ensures Conserved(o0, s0, o2, stack) && s0 <= stack && (Separate(o1, stack) ==> Separate(o2, stack))
  {
    forall b: Word ensures Somewhere(o0, s0, b) <==> Somewhere(o2, stack, b) {
      assert Somewhere(o0, s0, b) <==> Somewhere(o1, stack, b);
    }
  }

  lemma OwnedAfter(files: Files, o0: Owner, s0: seq<Word>, d0: Disk, owner: Owner, stack: seq<Word>, disk: Disk, f: nat,
                   b: Word)
    requires Progress(o0, s0, d0, owner, stack, disk, f) && Owns(files, disk, owner) && Present(d0, o0) && f in files
    requires forall i :: 0 <= i < 7 ==> files[f].addr[i] == 0
    requires files[f].addr[7] in disk ==> disk[files[f].addr[7]] == Zeros()
    ensures b in o0 && b !in owner <==> b in o0 && o0[b].file == f && b != files[f].addr[7]
  {
    if b in owner && owner[b].file == f { OnlyLast(files, disk, owner, f, b); }
    if files[f].addr[7] != 0 { SlotOwned(files, disk, owner, f, 7); }
  }

  lemma OthersReadOn(files0: Files, disk0: Disk, owner0: Owner, stack0: seq<Word>, files: Files, disk: Disk,
                     owner: Owner, stack: seq<Word>, f: nat, g: nat, m: nat)
    requires Owns(files0, disk0, owner0) && 0 !in disk0 && 0 !in disk
    requires Progress(owner0, stack0, disk0, owner, stack, disk, f)
    requires g in files0 && g in files && files[g] == files0[g] && g != f
    ensures Contents(files, disk, g, m) == Contents(files0, disk0, g, m)
  {
    OthersRead(files0, disk0, owner0, files, disk, owner, f, g, m);
  }

  lemma MapsNothing(files: Files, disk: Disk, f: nat)
    requires f in files && !files[f].large && forall i :: 0 <= i < 7 ==> files[f].addr[i] == 0
    requires 0 !in disk && (files[f].addr[7] in disk ==> disk[files[f].addr[7]] == Zeros())
    ensures (forall m: nat :: Lookup(files, disk, f, m) == 0) <==> files[f].addr[7] == 0
    ensures forall m: nat :: Contents(files, disk, f, m) == Zeros()
  {
    assert Lookup(files, disk, f, 7) == files[f].addr[7];
  }

  lemma OwnsPresent(files: Files, disk: Disk, owner: Owner)
    requires Owns(files, disk, owner)
    ensures Present(disk, owner)
  {
  }

  /** Exactly the blocks the file no longer owns were added to the free list. */
  lemma FreedExactly(nfree: int, free: seq<Word>, o0: Owner, s0: seq<Word>, d0: Disk, owner: Owner, stack: seq<Word>,
                     disk: Disk, f: nat, b: Word)
    requires Progress(o0, s0, d0, owner, stack, disk, f) && Separate(o0, s0) && Separate(owner, stack)
    requires Sound(nfree, free, disk, stack)
    ensures b in stack[|s0|..] <==> b in o0 && b !in owner
  {
    assert Somewhere(o0, s0, b) <==> Somewhere(owner, stack, b);
    assert stack == s0 + stack[|s0|..];
    assert b in stack <==> b in s0 || b in stack[|s0|..];
    if b in s0 {
      var i :| 0 <= i < |s0| && s0[i] == b;
      assert stack[i] == b;
      assert forall j :: |s0| <= j < |stack| ==> stack[j] != b;
    }
  }

  /** Where an indirect block is pointed at from. */
  ghost predicate CellOk(cell: Pointer, q: Word, f: nat, files: Files, iiblk: Block, view: Disk, owner: Owner) {
    && f in files && files[f].large && (q in owner ==> owner[q].level == 2)
    && match cell
       case Slot(i) => i < 7
       case Entry(p, j) => j < 256 && p == q && q in owner && owner[q].file == f && q in view && view[q] == iiblk
  }

  lemma CellOwned(cell: Pointer, q: Word, f: nat, files: Files, iiblk: Block, view: Disk, owner: Owner)
    requires CellOk(cell, q, f, files, iiblk, view, owner) && Owns(files, view, owner)
    requires (if cell.Slot? then files[f].addr[cell.i] else iiblk[cell.j]) != 0
    ensures var p := if cell.Slot? then files[f].addr[cell.i] else iiblk[cell.j];
            p in owner && p in view && owner[p] == Claim(f, cell, 1) && p != q
  {
    if cell.Slot? {
      SlotOwned(files, view, owner, f, cell.i);
    } else {
      EntryOwned(files, view, owner, q, cell.j);
    }
  }

  lemma Dropped(owner: Owner, stack: seq<Word>, disk: Disk, disk2: Disk, f: nat, c: Word)
    requires c in owner && owner[c].file == f && Separate(owner, stack)
    requires disk2.Keys == disk.Keys && (forall b :: b in disk && b != c ==> disk2[b] == disk[b])
    requires Present(disk, owner)
    ensures Progress(owner, stack, disk, owner - {c}, stack + [c], disk2, f)
    ensures Separate(owner - {c}, stack + [c])
  {
  }

  // ----- file contents -----

  /** A place read by every file. */
  ghost predicate ReadsAs(files0: Files, disk0: Disk, files: Files, disk: Disk, g: nat, m: nat) {
    g in files0 && g in files ==> Contents(files, disk, g, m) == Contents(files0, disk0, g, m)
  }

  /** Writing the mapped block changes what this place reads, and no other. */
  lemma WriteStep(files0: Files, disk0: Disk, owner0: Owner, stack0: seq<Word>,
                  files: Files, disk: Disk, owner: Owner, stack: seq<Word>, nfree: int, free: seq<Word>,
                  f: nat, l: nat, b: Word, buf: Block)
    requires Owns(files0, disk0, owner0) && 0 !in disk0
    requires Good(nfree, free, stack, files, disk, owner)
    requires Extended(files0, disk0, owner0, stack0, files, disk, owner, stack, f, l, b)
    ensures Good(nfree, free, stack, files, disk[b := buf], owner) && Contents(files, disk[b := buf], f, l) == buf
    ensures b in owner && owner[b].level == 0 && b in disk
    ensures forall g: nat, m: nat {:trigger ReadsAs(files0, disk0, files, disk[b := buf], g, m)} ::
              g != f || m != l ==> ReadsAs(files0, disk0, files, disk[b := buf], g, m)
  {
    var disk2 := disk[b := buf];
    LookupOwned(files, disk, owner, f, l);
    SoundFrame(nfree, free, disk, disk2, stack);
    OwnsFrame(files, disk, disk2, owner);
    SameFrame(files, disk, disk2, owner);
    assert SameAt(files, disk, files, disk2, f, l);
    forall g: nat, m: nat | g != f || m != l ensures ReadsAs(files0, disk0, files, disk2, g, m) {
      if g in files {
        assert SameAt(files0, disk0, files, disk, g, m) && SameAt(files, disk, files, disk2, g, m);
        var c := Lookup(files0, disk0, g, m);
        if c != 0 {
          LookupOwned(files0, disk0, owner0, g, m);
          if c == b { LookupInjective(files, disk, owner, f, l, g, m); }
        }
      }
    }
  }

  // ----- whole runs -----

  datatype Op = Write(f: nat, l: nat, buf: Block) | Read(f: nat, l: nat) | Free(f: nat)

  /** What each block of each file reads: the simple store the volume refines. */
  type Store = (nat, nat) -> Block

  function Apply(s: Store, op: Op, devices: set<nat>): Store {
    match op
    case Write(f, l, buf) => (g: nat, m: nat) => if g == f && m == l then buf else s(g, m)
    case Read(_, _) => s
    case Free(f) =>
      if f in devices then s else
      var zeros := Zeros();
      (g: nat, m: nat) => if g == f then zeros else s(g, m)
  }

  function After(s: Store, ops: seq<Op>, devices: set<nat>): Store {
    if ops == [] then s else Apply(After(s, ops[..|ops| - 1], devices), ops[|ops| - 1], devices)
  }

  ghost predicate Agrees(files: Files, disk: Disk, s: Store) {
    forall g: nat, m: nat {:trigger Contents(files, disk, g, m)} ::
      g in files ==> Contents(files, disk, g, m) == s(g, m)
  }

  function Devices(files: Files): set<nat> {
    set g | g in files && files[g].io
  }

  /** Every large file has its first indirect block. */
  ghost predicate Rooted(files: Files) {
    forall g {:trigger files[g]} :: g in files && files[g].large ==> files[g].addr[0] != 0
  }

  /** Operations on known files, below the double indirect range. */
  predicate InRange(files: Files, op: Op) {
    op.f in files && (op.Free? || op.l < REACH)
  }

  /** How a run ends: through, at a write that finds too few free blocks, or before a
      write that would go through an indirect block that is not clear. */
  datatype End = Through | Full | Stale

  /** A volume as an operation finds it. */
  datatype Snap = Snap(nfree: int, free: seq<Word>, stack: seq<Word>, files: Files, disk: Disk, owner: Owner)

  ghost predicate GoodSnap(v: Snap) {
    Good(v.nfree, v.free, v.stack, v.files, v.disk, v.owner)
  }

  /** There are fewer free blocks than the write needs. */
  ghost predicate TooFew(v: Snap, op: Op) {
    op.Write? && op.f in v.files && |v.stack| < Need(v.files[op.f], v.disk, op.l)
  }

  /** The write would go through an indirect block that is not clear. */
  ghost predicate NotClear(v: Snap, op: Op) {
    op.Write? && op.f in v.files && !Clear(v.nfree, v.stack, v.disk, v.files[op.f], op.l)
  }

  lemma WriteAgrees(files0: Files, disk0: Disk, files: Files, disk: Disk, s: Store, f: nat, l: nat, buf: Block,
                    devices: set<nat>)
    requires Agrees(files0, disk0, s) && f in files && files.Keys == files0.Keys && Contents(files, disk, f, l) == buf
    requires forall g: nat, m: nat {:trigger ReadsAs(files0, disk0, files, disk, g, m)} ::
               g != f || m != l ==> ReadsAs(files0, disk0, files, disk, g, m)
    ensures Agrees(files, disk, Apply(s, Write(f, l, buf), devices))
  {
    forall g: nat, m: nat | g in files
      ensures Contents(files, disk, g, m) == Apply(s, Write(f, l, buf), devices)(g, m)
    {
      if g != f || m != l { assert ReadsAs(files0, disk0, files, disk, g, m); }
    }
  }

  lemma FreeAgrees(files0: Files, disk0: Disk, files: Files, disk: Disk, s: Store, f: nat, devices: set<nat>)
    requires Agrees(files0, disk0, s) && f in files && f !in devices && files.Keys == files0.Keys
    requires forall m: nat :: Contents(files, disk, f, m) == Zeros()
    requires forall g: nat, m: nat ::
               g in files && g != f ==> Contents(files, disk, g, m) == Contents(files0, disk0, g, m)
    ensures Agrees(files, disk, Apply(s, Free(f), devices))
  {
    forall g: nat, m: nat | g in files ensures Contents(files, disk, g, m) == Apply(s, Free(f), devices)(g, m) {
    }
  }

  lemma AgreesAt(files: Files, disk: Disk, s: Store, g: nat, m: nat)
    requires Agrees(files, disk, s) && g in files
    ensures Contents(files, disk, g, m) == s(g, m)
  {
  }

  lemma SelfConserved(owner: Owner, stack: seq<Word>)
    ensures Conserved(owner, stack, owner, stack)
  {
  }

  lemma ConservedTrans(o0: Owner, s0: seq<Word>, o1: Owner, s1: seq<Word>, o2: Owner, s2: seq<Word>)
    requires Conserved(o0, s0, o1, s1) && Conserved(o1, s1, o2, s2)
    ensures Conserved(o0, s0, o2, s2)
  {
    forall b: Word ensures Somewhere(o0, s0, b) <==> Somewhere(o2, s2, b) {
      assert Somewhere(o1, s1, b) <==> Somewhere(o2, s2, b);
      assert Somewhere(o0, s0, b) <==> Somewhere(o1, s1, b);
    }
  }

  lemma TwoFree(disk: Disk)
    requires 5 in disk && 6 in disk
    ensures Sound(3, [0, 5, 6] + seq(97, _ => 0), disk, [5, 6])
  {
    var free: seq<Word> := [0, 5, 6] + seq(97, _ => 0);
    assert free[1..3] == [5, 6] == [5, 6][0..];
  }

  /** A fresh second indirect block that still holds an old block number. */
  lemma StaleIndirectExample()
    ensures var n := Inode(false, true, 0, [4, 0, 0, 0, 0, 0, 0, 0]);
            var disk: Disk := map[4 := Zeros(), 5 := Zeros(), 6 := Zeros()[0 := 9]];
            var free: seq<Word> := [0, 5, 6] + seq(97, _ => 0);
            Good(3, free, [5, 6], map[1 := n], disk, map[4 := Claim(1, Slot(0), 1)]) && !Clear(3, [5, 6], disk, n, 256)
  {
    var n := Inode(false, true, 0, [4, 0, 0, 0, 0, 0, 0, 0]);
    var disk: Disk := map[4 := Zeros(), 5 := Zeros(), 6 := Zeros()[0 := 9]];
    hide Sound;
    TwoFree(disk);
    assert disk[6][0] == 9 && Zeros()[0] == 0;
  }

  /** A large file with a double indirect block keeps that block when it is freed, as
      the data of logical block 7. */
  lemma LeakExample()
    ensures var n := Inode(false, true, 0, [0, 0, 0, 0, 0, 0, 0, 9]);
            var disk: Disk := map[9 := Zeros()];
            && Good(1, seq(100, _ => 0), [], map[1 := n], disk, map[9 := Claim(1, Slot(7), 2)])
            && Lookup(map[1 := Freed(n)], disk, 1, 7) == 9
  {
    var free: seq<Word> := seq(100, _ => 0);
    assert free[1..1] == [];
  }

  class Volume {
    var nfree: int            // superblock: entries in use
    var free: seq<Word>       // superblock: free block numbers
    var disk: Disk
    var files: Files          // inodes in memory
    var iblkno: int           // the cached indirect block, or -1
    var iblk: Block
    var iiblk: Block          // the double indirect block being freed
    ghost var stack: seq<Word>
    ghost var owner: Owner

    ghost predicate Valid()
      reads this
    {
      Good(nfree, free, stack, files, disk, owner) && CacheOk(iblkno, iblk, disk, owner)
    }

    ghost function Now(): Snap
      reads this
    {
      Snap(nfree, free, stack, files, disk, owner)
    }

    /** A volume of empty files whose free list is just the sentinel. */
    constructor (blocks: Disk, inodes: set<nat>)
      requires 0 !in blocks
      ensures Valid() && stack == [] && disk == blocks && files.Keys == inodes
    {
      nfree, free, disk := 1, seq(100, _ => 0), blocks;
      files := map f | f in inodes :: Inode(false, false, 0, seq(8, _ => 0));
      iblkno, iblk, iiblk := -1, Zeros(), Zeros();
      stack, owner := [], map[];
    }

    /** Allocation pops the stack of free blocks. On an empty one it fails and loses
        the sentinel, so the list is sound afterwards exactly when a block was free. */
    method Balloc() returns (b: Word)
      requires Sound(nfree, free, disk, stack)
      modifies this`nfree, this`free, this`disk, this`stack
      ensures Sound(nfree, free, disk, stack) <==> old(stack) != []
      ensures old(stack) == [] ==> b == 0 && nfree == 0 && free == old(free) && disk == old(disk) && stack == []
      ensures old(stack) != [] ==>
                b == Last(old(stack)) && stack == Init(old(stack)) && disk == Taken(old(nfree), old(disk), b)
      ensures old(stack) != [] ==> b in old(disk) && nfree == CountAfter(old(nfree), old(disk), b)
    {
      hide Holds;
      EmptyIffSentinel(nfree, free, disk, stack);
      CountInRange(nfree, free, disk, stack);
      nfree := nfree - 1;
      b := free[nfree];
      if b == 0 {
        ExhaustionLosesSentinel(free, disk, stack);
        return;
      }
      assert Last(stack) in stack;
      if nfree <= 0 {
        PopLink(free, disk, stack);
        var buf := disk[b];
        nfree, free := buf[0], buf[1..101];
        disk := disk[b := Zeros()];
      } else {
        PopEntry(nfree + 1, free, disk, stack);
      }
      stack := Init(stack);
    }

    /** Freeing pushes the block. */
    method Bfree(b: Word)
      requires Sound(nfree, free, disk, stack) && b != 0 && b in disk && b !in stack
      modifies this`nfree, this`free, this`disk, this`stack
      ensures Sound(nfree, free, disk, stack) && stack == old(stack) + [b]
      ensures disk.Keys == old(disk).Keys && forall c :: c in disk && c != b ==> disk[c] == old(disk)[c]
    {
      if nfree >= LIST_SIZE {
        var buf := new Word[256];
        buf[0] := nfree;
        forall i | 0 <= i < 100 { buf[i + 1] := free[i]; }
        assert buf[..][1..101] == free;
        PushLink(free, disk, stack, b, buf[..]);
        nfree := 0;
        disk := disk[b := buf[..]];
      } else {
        PushEntry(nfree, free, disk, stack, b);
      }
      free, nfree := free[nfree := b], nfree + 1;
      stack := stack + [b];
    }

    /** Grow a small file: its addresses move into a new indirect block. The mapping
        and all data stay as they were. Without a free block the program is stopped when
        it goes to write the indirect block as block 0. */
    method Grow(f: nat) returns (lost: bool)
      requires Valid() && f in files && !files[f].large
      modifies this
      ensures lost <==> old(stack) == []
      ensures lost ==> files == old(files)
      ensures !lost ==> Valid() && files == old(files)[f := GrownInode(old(files)[f], Last(old(stack)))]
      ensures !lost ==> stack == Init(old(stack)) && nfree == CountAfter(old(nfree), old(disk), Last(old(stack)))
      ensures !lost ==> Prepared(old(files), old(disk), old(owner), old(stack), files, disk, owner, stack)
      ensures !lost ==>
                disk == Taken(old(nfree), old(disk), Last(old(stack)))[Last(old(stack)) := Grown(old(files)[f].addr)]
    {
      hide Sound, Owns, Same, DataKept, Conserved;
      if stack != [] { TakenKeeps(nfree, free, stack, files, disk, owner); }
      var b := Balloc();
      if b == 0 {
        return true;
      }
      lost := false;
      ghost var taken := disk;
      Convert(files, disk, owner, f, b);
      ConvertChangesNone(files, disk, owner, f, b);
      iblkno := b;
      iblk := Grown(files[f].addr);
      files := files[f := GrownInode(files[f], b)];
      disk := disk[b := iblk];
      owner := GrownOwner(owner, f, b);
      SameThenSame(old(files), old(disk), old(files), taken, files, disk);
      DistinctOf(old(nfree), old(free), old(disk), old(stack));
      StillGood(nfree, free, stack, files, taken, disk, owner);
      DataKeptBut(old(disk), taken, old(owner), b, iblk);
      ConservedPop(old(owner), old(stack), owner);
    }

    /** Read the indirect block through the cache and take the entry, filling a hole
        with a fresh block when asked to. */
    method MapEntry(p: Word, j: nat, alloc: bool) returns (b: Word)
      requires Sound(nfree, free, disk, stack) && p != 0 && p in disk && p !in stack && j < 256
      requires iblkno == p ==> iblk == disk[p]
      modifies this`nfree, this`free, this`disk, this`stack, this`iblkno, this`iblk
      ensures iblkno == p && p in disk && iblk == disk[p] && b == disk[p][j]
      ensures Sound(nfree, free, disk, stack) <==> !(alloc && old(disk)[p][j] == 0 && old(stack) == [])
      ensures !alloc || old(disk)[p][j] != 0 ==>
                disk == old(disk) && stack == old(stack) && nfree == old(nfree) && free == old(free)
      ensures alloc && old(disk)[p][j] == 0 && old(stack) == [] ==>
                b == 0 && disk == old(disk) && stack == [] && nfree == 0
      ensures alloc && old(disk)[p][j] == 0 && old(stack) != [] ==>
                && b == Last(old(stack)) && stack == Init(old(stack)) && p in Taken(old(nfree), old(disk), b)
                && disk == WithEntry(Taken(old(nfree), old(disk), b), p, j, b)
    {
      hide Sound;
      if iblkno != p {
        iblkno, iblk := p, disk[p];
      }
      if iblk[j] == 0 && alloc {
        if stack != [] {
          DistinctOf(nfree, free, disk, stack);
          assert Last(stack) in stack;
        }
        var c := Balloc();
        if old(stack) == [] {
          assert iblk[j := c] == iblk && disk[p := iblk] == disk;
        } else {
          SoundFrame(nfree, free, disk, disk[p := iblk[j := c]], stack);
        }
        iblk := iblk[j := c];
        disk := disk[p := iblk];
      }
      b := iblk[j];
    }

    /** Fill an indirect hole. The block is not cleared here. Without a free block the
        program goes on with block 0 and is stopped when it goes to write it. */
    method NewIndirect(f: nat, i: nat) returns (lost: bool)
      requires Valid() && f in files && files[f].large && i < 7 && files[f].addr[i] == 0
      modifies this`nfree, this`free, this`disk, this`stack, this`files, this`owner
      ensures lost <==> old(stack) == []
      ensures lost ==> files == old(files)
      ensures !lost ==> Sound(nfree, free, disk, stack)
      ensures !lost ==> files == WithSlot(old(files), f, i, Last(old(stack))) && stack == Init(old(stack))
      ensures !lost ==>
                && disk == Taken(old(nfree), old(disk), Last(old(stack))) && Last(old(stack)) in disk
                && Last(old(stack)) !in stack
      ensures !lost ==> Last(old(stack)) != 0 && iblkno != Last(old(stack))
      ensures !lost && disk[Last(old(stack))] == Zeros() ==>
                Valid() && Prepared(old(files), old(disk), old(owner), old(stack), files, disk, owner, stack)
    {
      hide Sound, Owns, Same, DataKept, Conserved;
      if stack != [] {
        TakenKeeps(nfree, free, stack, files, disk, owner);
        DistinctOf(nfree, free, disk, stack);
      }
      var b := Balloc();
      if b == 0 {
        assert files[f].addr[i := 0] == files[f].addr;
        return true;
      }
      lost := false;
      files := WithSlot(files, f, i, b);
      if disk[b] == Zeros() {
        AddSlot(old(files), disk, owner, f, i, b);
        EmptyIndirectChangesNone(old(files), disk, f, i, b);
        SameThenSame(old(files), old(disk), old(files), disk, files, disk);
        owner := owner[b := Claim(f, Slot(i), 1)];
        ConservedPop(old(owner), old(stack), owner);
      }
    }

    /** The mapping through an indirect block that exists. */
    method MapKnown(f: nat, l: nat, alloc: bool) returns (b: Word)
      requires Valid() && f in files && files[f].large && l < REACH && files[f].addr[l / 256] != 0
      modifies this`nfree, this`free, this`disk, this`stack, this`iblkno, this`iblk, this`owner
      ensures b == Lookup(files, disk, f, l)
      ensures !alloc ==> Valid() && disk == old(disk) && stack == old(stack) && owner == old(owner)
      ensures alloc && |old(stack)| >= Need(files[f], old(disk), l) ==>
                && Valid() && Extended(files, old(disk), old(owner), old(stack), files, disk, owner, stack, f, l, b)
                && stack == old(stack)[..|old(stack)| - Need(files[f], old(disk), l)]
      ensures alloc && |old(stack)| < Need(files[f], old(disk), l) ==> b == 0 && disk == old(disk) && nfree == 0
    {
      hide Sound, Owns, SameBut, DataKept, Conserved, Extended;
      var i := l / 256;
      SlotOwned(files, disk, owner, f, i);
      var p := files[f].addr[i];
      if alloc && disk[p][l % 256] == 0 {
        if stack != [] {
          EntryGood(nfree, free, stack, files, disk, owner, f, l);
          DistinctOf(nfree, free, disk, stack);
        }
      } else if alloc {
        NothingChanged(files, disk, owner, stack, f, l);
      }
      b := MapEntry(p, l % 256, alloc);
      if alloc && old(disk)[p][l % 256] == 0 && old(stack) != [] {
        owner := owner[b := Claim(f, Entry(p, l % 256), 0)];
        assert Extended(files, old(disk), old(owner), old(stack), files, disk, owner, stack, f, l, b) by {
          FreshExtended(files, old(disk), old(owner), old(stack), disk, owner, f, l);
        }
      }
    }

    /** The mapping of a large file through an indirect hole. */
    method MapFresh(f: nat, l: nat) returns (b: Word, lost: bool)
      requires Valid() && f in files && files[f].large && l < REACH && files[f].addr[l / 256] == 0
      modifies this
      ensures files.Keys == old(files).Keys
      ensures |old(stack)| >= 2 ==>
                (Clear(old(nfree), old(stack), old(disk), old(files)[f], l) <==>
                 Right(old(files), old(disk), old(stack), files, disk, stack, f, l, b))
      ensures lost <==> old(stack) == []
      ensures lost ==> files == old(files)
      ensures !lost ==> files == WithSlot(old(files), f, l / 256, Last(old(stack))) && b == Lookup(files, disk, f, l)
      ensures |old(stack)| >= 2 && Clear(old(nfree), old(stack), old(disk), old(files)[f], l) ==>
                && Valid()
                && Extended(old(files), old(disk), old(owner), old(stack), files, disk, owner, stack, f, l, b)
                && stack == old(stack)[..|old(stack)| - 2]
      ensures |old(stack)| == 1 && Clear(old(nfree), old(stack), old(disk), old(files)[f], l) ==>
                b == 0 && Spent(old(files), old(disk), old(owner), files, disk, nfree)
    {
      hide Sound, Owns, SameBut, Same, DataKept, Conserved, Extended, Prepared, Spent;
      b := 0;
      if stack != [] { DistinctOf(nfree, free, disk, stack); }
      lost := NewIndirect(f, l / 256);
      if lost {
        return;
      }
      var p, j := files[f].addr[l / 256], l % 256;
      ghost var files1, disk1, owner1, stack1 := files, disk, owner, stack;
      if stack != [] {
        DistinctOf(nfree, free, disk, stack);
        if disk[p] == Zeros() {
          EntryGood(nfree, free, stack, files, disk, owner, f, l);
        }
      }
      b := MapEntry(p, j, true);
      if stack1 == [] {
        if disk1[p] == Zeros() {
          PreparedIsSpent(old(files), old(disk), old(owner), old(stack), files, disk, owner, stack, nfree);
        }
      } else if disk1[p] == Zeros() {
        owner := owner[b := Claim(f, Entry(p, j), 0)];
        FreshExtended(files, disk1, owner1, stack1, disk, owner, f, l);
        PreparedThenExtended(old(files), old(disk), old(owner), old(stack), files1, disk1, owner1, stack1, files, disk,
                             owner, stack, f, l, b);
        ExtendedRight(old(files), old(disk), old(owner), old(stack), files, disk, owner, stack, f, l, b);
      } else if disk1[p][j] == 0 {
        var k := NonZero(disk1[p]);
        StaleShows(old(files), old(disk), f, l, p, disk, k);
      } else {
        TopOf(old(stack), b);
      }
    }

    /** The large file case: below the double indirect block. */
    method MapLarge(f: nat, l: nat, alloc: bool) returns (b: Word, lost: bool)
      requires Valid() && f in files && files[f].large && l < REACH
      modifies this
      ensures lost <==> alloc && |old(stack)| + 1 < Need(old(files)[f], old(disk), l)
      ensures files.Keys == old(files).Keys && (!lost ==> b == Lookup(files, disk, f, l))
      ensures !alloc ==>
                Valid() && files == old(files) && disk == old(disk) && stack == old(stack) && owner == old(owner)
      ensures files == old(files)[f := files[f]] && files[f].io == old(files)[f].io
      ensures files[f].size == old(files)[f].size
      ensures alloc && |old(stack)| + 1 == Need(old(files)[f], old(disk), l)
              && Clear(old(nfree), old(stack), old(disk), old(files)[f], l) ==>
                b == 0 && Spent(old(files), old(disk), old(owner), files, disk, nfree)
      ensures alloc && |old(stack)| >= Need(old(files)[f], old(disk), l)
              && Clear(old(nfree), old(stack), old(disk), old(files)[f], l) ==>
                && Valid()
                && Extended(old(files), old(disk), old(owner), old(stack), files, disk, owner, stack, f, l, b)
                && stack == old(stack)[..|old(stack)| - Need(old(files)[f], old(disk), l)]
      ensures alloc && |old(stack)| >= Need(old(files)[f], old(disk), l) ==>
                (Clear(old(nfree), old(stack), old(disk), old(files)[f], l) <==>
                 Right(old(files), old(disk), old(stack), files, disk, stack, f, l, b))
      ensures files[f].large && (old(files)[f].addr[0] != 0 ==> files[f].addr[0] == old(files)[f].addr[0])
    {
      hide Sound, Owns, SameBut, Same, DataKept, Conserved, Extended, Right;
      if files[f].addr[l / 256] == 0 {
        if !alloc {
          return 0, false;
        }
        b, lost := MapFresh(f, l);
      } else {
        lost := false;
        SlotOwned(files, disk, owner, f, l / 256);
        b := MapKnown(f, l, alloc);
        if alloc && |old(stack)| < Need(old(files)[f], old(disk), l) {
          SelfSpent(files, disk, old(owner), nfree);
        } else if alloc {
          ExtendedRight(old(files), old(disk), old(owner), old(stack), files, disk, owner, stack, f, l, b);
        }
      }
    }

    /** A small file that outgrows its eight addresses. */
    method MapGrown(f: nat, l: nat) returns (b: Word, lost: bool)
      requires Valid() && f in files && !files[f].large && 8 <= l < REACH
      modifies this
      ensures lost <==> |old(stack)| + 1 < Need(old(files)[f], old(disk), l)
      ensures files.Keys == old(files).Keys && (!lost ==> b == Lookup(files, disk, f, l))
      ensures files == old(files)[f := files[f]] && files[f].io == old(files)[f].io
      ensures files[f].size == old(files)[f].size
      ensures |old(stack)| + 1 == Need(old(files)[f], old(disk), l)
              && Clear(old(nfree), old(stack), old(disk), old(files)[f], l) ==>
                b == 0 && Spent(old(files), old(disk), old(owner), files, disk, nfree)
      ensures |old(stack)| >= Need(old(files)[f], old(disk), l)
              && Clear(old(nfree), old(stack), old(disk), old(files)[f], l) ==>
                && Valid()
                && Extended(old(files), old(disk), old(owner), old(stack), files, disk, owner, stack, f, l, b)
                && stack == old(stack)[..|old(stack)| - Need(old(files)[f], old(disk), l)]
      ensures |old(stack)| >= Need(old(files)[f], old(disk), l) ==>
                (Clear(old(nfree), old(stack), old(disk), old(files)[f], l) <==>
                 Right(old(files), old(disk), old(stack), files, disk, stack, f, l, b))
      ensures files[f].large ==> files[f].addr[0] != 0
    {
      hide Sound, Owns, SameBut, Same, DataKept, Conserved, Extended, Prepared, Right, Spent, Clear, CountAfter, Taken;
      b := 0;
      if stack != [] { DistinctOf(nfree, free, disk, stack); }
      if |stack| >= 2 { SecondDown(nfree, free, disk, stack); }
      lost := Grow(f);
      if lost {
        return;
      }
      ghost var files1, disk1, owner1, stack1 := files, disk, owner, stack;
      ClearAfterGrowth(old(nfree), old(stack), old(disk), old(files)[f], l, nfree, disk, files[f]);
      NeedAfterGrowth(old(files)[f], files[f], disk, l, Last(old(stack)));
      b, lost := MapLarge(f, l, true);
      if |old(stack)| < Need(old(files)[f], old(disk), l) {
        if !lost && Clear(old(nfree), old(stack), old(disk), old(files)[f], l) {
          PreparedThenSpent(old(files), old(disk), old(owner), old(stack), files1, disk1, owner1, stack1, files, disk,
                            nfree);
        }
      } else if Clear(old(nfree), old(stack), old(disk), old(files)[f], l) {
        PreparedThenExtended(old(files), old(disk), old(owner), old(stack), files1, disk1, owner1, stack1, files, disk,
                             owner, stack, f, l, b);
        ExtendedRight(old(files), old(disk), old(owner), old(stack), files, disk, owner, stack, f, l, b);
      } else {
        PreparedSame(old(files), old(disk), old(owner), old(stack), files1, disk1, owner1, stack1);
        assert Lookup(files1, disk1, f, l) == 0;
        assert files[f].addr[0] == Last(old(stack));
        NotRightBefore(old(files), old(disk), old(stack), files1, disk1, files, disk, stack, f, l, b);
      }
    }

    /** Logical to physical block, allocating on demand. Small files hold eight blocks
        and are converted to large ones beyond that. When only the data block is lacking
        the result is 0, with the mapping as before but the free list lost; when an
        indirect block is lacking the program is stopped. */
    method Bmap(f: nat, offset: nat, alloc: bool) returns (b: Word, lost: bool)
      requires Valid() && f in files && Mappable(files[f], offset / 512, alloc)
      modifies this
      ensures lost <==> alloc && |old(stack)| + 1 < Need(old(files)[f], old(disk), offset / 512)
      ensures files.Keys == old(files).Keys && (!lost ==> b == Lookup(files, disk, f, offset / 512))
      ensures !alloc ==>
                Valid() && files == old(files) && disk == old(disk) && stack == old(stack) && owner == old(owner)
      ensures files == old(files)[f := files[f]] && files[f].io == old(files)[f].io
      ensures files[f].size == old(files)[f].size
      ensures alloc && |old(stack)| + 1 == Need(old(files)[f], old(disk), offset / 512)
              && Clear(old(nfree), old(stack), old(disk), old(files)[f], offset / 512) ==>
                b == 0 && Spent(old(files), old(disk), old(owner), files, disk, nfree)
      ensures alloc && |old(stack)| >= Need(old(files)[f], old(disk), offset / 512)
              && Clear(old(nfree), old(stack), old(disk), old(files)[f], offset / 512) ==>
                && Valid()
                && Extended(old(files), old(disk), old(owner), old(stack),
                            files, disk, owner, stack, f, offset / 512, b)
                && stack == old(stack)[..|old(stack)| - Need(old(files)[f], old(disk), offset / 512)]
      ensures alloc && |old(stack)| >= Need(old(files)[f], old(disk), offset / 512) ==>
                (Clear(old(nfree), old(stack), old(disk), old(files)[f], offset / 512) <==>
                 Right(old(files), old(disk), old(stack), files, disk, stack, f, offset / 512, b))
      ensures old(files)[f].large && files[f].addr[0] == 0 ==> old(files)[f].addr[0] == 0
      ensures files[f].large && !old(files)[f].large ==> files[f].addr[0] != 0
    {
      hide Sound, Owns, SameBut, Same, DataKept, Conserved, Extended, Prepared, Right, Spent;
      var l := offset / 512;
      lost := false;
      if !files[f].large {
        if l <= 7 {
          if files[f].addr[l] == 0 && alloc {
            MapDirect(f, l);
          } else if alloc {
            NothingChanged(files, disk, owner, stack, f, l);
          }
          b := files[f].addr[l];
          if alloc && (old(files)[f].addr[l] != 0 || old(stack) != []) {
            ExtendedRight(old(files), old(disk), old(owner), old(stack), files, disk, owner, stack, f, l, b);
          }
          return;
        } else if !alloc {
          return 0, false;
        }
        b, lost := MapGrown(f, l);
      } else if l >= REACH {
        return 0, false;   // no double indirect block to read
      } else {
        b, lost := MapLarge(f, l, alloc);
      }
    }

    /** A hole in a small file gets a block. */
    method MapDirect(f: nat, l: nat)
      requires Valid() && f in files && !files[f].large && l < 8 && files[f].addr[l] == 0
      modifies this
      ensures old(stack) == [] ==> files == old(files) && Spent(old(files), old(disk), old(owner), files, disk, nfree)
      ensures old(stack) != [] ==>
                Valid() && stack == Init(old(stack)) && files == WithSlot(old(files), f, l, Last(old(stack)))
      ensures old(stack) != [] ==>
                Extended(old(files), old(disk), old(owner), old(stack), files, disk, owner, stack, f, l,
                         files[f].addr[l])
    {
      hide Sound, Owns, SameBut, Same, DataKept, Conserved;
      if stack != [] {
        TakenKeeps(nfree, free, stack, files, disk, owner);
        DistinctOf(nfree, free, disk, stack);
      }
      var b := Balloc();
      if b == 0 {
        assert files[f].addr[l := 0] == files[f].addr;
        SelfSpent(files, disk, owner, nfree);
        return;
      }
      AddSlot(files, disk, owner, f, l, b);
      SlotChangesOne(files, disk, f, l, b);
      files := WithSlot(files, f, l, b);
      owner := owner[b := Claim(f, Slot(l), 0)];
      SameThenBut(old(files), old(disk), old(files), disk, files, disk, f, l);
      ConservedPop(old(owner), old(stack), owner);
    }

    // ----- freeing -----

    /** Free a block that nothing points at any more. */
    method Drop(c: Word, ghost view: Disk, ghost f: nat, ghost p: Word, ghost q: Word)
      requires Sound(nfree, free, disk, stack) && Separate(owner, stack) && 0 !in disk && view.Keys == disk.Keys
      requires c in owner && owner[c].file == f && Present(disk, owner)
      requires Owns(files, view, owner - {c}) && ViewOf(view, disk, owner, p, q)
      modifies this`nfree, this`free, this`disk, this`stack, this`owner
      ensures Freeing(nfree, free, stack, files, disk, view, owner) && ViewOf(view, disk, owner, p, q)
      ensures owner == old(owner) - {c} && Progress(old(owner), old(stack), old(disk), owner, stack, disk, f)
    {
      hide Sound, Owns, Progress;
      Bfree(c);
      Dropped(owner, old(stack), old(disk), disk, f, c);
      owner := owner - {c};
    }

    /** Free one data block listed by the indirect block `p`, held in memory. */
    method FreeEntry(p: Word, i: nat, ghost view: Disk, ghost f: nat, ghost q: Word)
      requires Freeing(nfree, free, stack, files, disk, view, owner) && ViewOf(view, disk, owner, p, q)
      requires p in owner && owner[p].level == 1 && owner[p].file == f && p in view && view[p] == iblk && i < 256
      requires iblk[i] != 0
      modifies this`nfree, this`free, this`disk, this`stack, this`owner, this`iblk
      ensures iblk == old(iblk)[i := 0]
      ensures Freeing(nfree, free, stack, files, disk, view[p := iblk], owner)
      ensures ViewOf(view[p := iblk], disk, owner, p, q)
      ensures Progress(old(owner), old(stack), old(disk), owner, stack, disk, f)
      ensures forall b :: b in old(owner) && old(owner)[b].level >= 1 ==> b in owner && owner[b] == old(owner)[b]
    {
      hide Sound, Owns, Progress;
      EntryOwned(files, view, owner, p, i);
      RemoveEntry(files, view, owner, p, i);
      SelfKept(owner, disk, stack, f, files, view);
      Drop(iblk[i], WithEntry(view, p, i, 0), f, p, q);
      iblk := iblk[i := 0];
    }

    /** Free the data blocks an indirect block lists. */
    method FreeEntries(p: Word, ghost view: Disk, ghost f: nat, ghost q: Word)
      requires Freeing(nfree, free, stack, files, disk, view, owner) && ViewOf(view, disk, owner, 0, q)
      requires p in owner && owner[p].level == 1 && owner[p].file == f && p in disk && p != q
      modifies this`nfree, this`free, this`disk, this`stack, this`owner, this`iblk
      ensures Freeing(nfree, free, stack, files, disk, view[p := Zeros()], owner)
      ensures ViewOf(view[p := Zeros()], disk, owner, p, q)
      ensures iblk == Zeros() && Progress(old(owner), old(stack), old(disk), owner, stack, disk, f)
      ensures forall b :: b in old(owner) && old(owner)[b].level >= 1 ==> b in owner && owner[b] == old(owner)[b]
    {
      hide Sound, Owns, Progress, Freeing, ViewOf;
      ViewAt(nfree, free, stack, files, disk, view, owner, p, q);
      iblk := disk[p];
      assert view[p := iblk] == view;
      SelfProgress(nfree, free, stack, files, disk, view, owner, f);
      for i := 0 to 256
        invariant Freeing(nfree, free, stack, files, disk, view[p := iblk], owner)
        invariant ViewOf(view[p := iblk], disk, owner, p, q)
        invariant forall k :: 0 <= k < i ==> iblk[k] == 0
        invariant Progress(old(owner), old(stack), old(disk), owner, stack, disk, f)
        invariant forall b :: b in old(owner) && old(owner)[b].level >= 1 ==> b in owner && owner[b] == old(owner)[b]
      {
        if iblk[i] != 0 {
          ghost var owner1, disk1, stack1, block1 := owner, disk, stack, iblk;
          FreeEntry(p, i, view[p := iblk], f, q);
          assert view[p := block1][p := iblk] == view[p := iblk];
          ProgressTrans(old(owner), old(stack), old(disk), owner1, stack1, disk1, owner, stack, disk, f);
        }
      }
      assert iblk == Zeros();
    }

    /** Free an indirect block and all it lists, and clear the pointer to it. */
    method Iblkfree(f: nat, cell: Pointer, ghost view: Disk, ghost q: Word) returns (ghost view2: Disk)
      requires Freeing(nfree, free, stack, files, disk, view, owner) && ViewOf(view, disk, owner, 0, q)
      requires CellOk(cell, q, f, files, iiblk, view, owner)
      modifies this`nfree, this`free, this`disk, this`stack, this`owner, this`iblk, this`files, this`iiblk
      ensures Freeing(nfree, free, stack, files, disk, view2, owner) && ViewOf(view2, disk, owner, 0, q)
      ensures Progress(old(owner), old(stack), old(disk), owner, stack, disk, f)
      ensures cell.Slot? ==> files == WithSlot(old(files), f, cell.i, 0) && iiblk == old(iiblk)
      ensures cell.Entry? ==> files == old(files) && iiblk == old(iiblk)[cell.j := 0]
      ensures q in old(owner) && q in view ==>
                && q in owner && owner[q] == old(owner)[q]
                && q in view2 && view2[q] == (if cell.Entry? then iiblk else view[q])
    {
      hide Sound, Owns, Progress, Freeing, ViewOf;
      view2 := view;
      var p := if cell.Slot? then files[f].addr[cell.i] else iiblk[cell.j];
      if p == 0 {
        SelfProgress(nfree, free, stack, files, disk, view, owner, f);
        if cell.Slot? { assert files[f].addr[cell.i := 0] == files[f].addr; }
        return;
      }
      assert Owns(files, view, owner) && view.Keys == disk.Keys by {
        FreeingOwns(nfree, free, stack, files, disk, view, owner);
      }
      CellOwned(cell, q, f, files, iiblk, view, owner);
      FreeEntries(p, view, f, q);
      view2 := view[p := Zeros()];
      NothingGained(old(owner), old(stack), old(disk), owner, stack, disk, f, q);
      ghost var owner1, stack1, disk1 := owner, stack, disk;
      WrittenBack(nfree, free, stack, files, disk, view2, owner, p, q, f);
      disk := disk[p := iblk];
      ProgressTrans(old(owner), old(stack), old(disk), owner1, stack1, disk1, owner, stack, disk, f);
      ghost var owner2, stack2, disk2 := owner, stack, disk;
      view2 := FreeIndirect(f, cell, p, view2, q);
      ProgressTrans(old(owner), old(stack), old(disk), owner2, stack2, disk2, owner, stack, disk, f);
    }

    /** The last step: free an emptied indirect block and clear the pointer to it. */
    method FreeIndirect(f: nat, cell: Pointer, p: Word, ghost view: Disk, ghost q: Word) returns (ghost view2: Disk)
      requires Freeing(nfree, free, stack, files, disk, view, owner) && ViewOf(view, disk, owner, 0, q)
      requires CellOk(cell, q, f, files, iiblk, view, owner)
      requires p == (if cell.Slot? then files[f].addr[cell.i] else iiblk[cell.j]) && p != 0 && p in view
      requires view[p] == Zeros()
      modifies this`nfree, this`free, this`disk, this`stack, this`owner, this`files, this`iiblk
      ensures Freeing(nfree, free, stack, files, disk, view2, owner) && ViewOf(view2, disk, owner, 0, q)
      ensures Progress(old(owner), old(stack), old(disk), owner, stack, disk, f)
      ensures cell.Slot? ==> files == WithSlot(old(files), f, cell.i, 0) && iiblk == old(iiblk)
      ensures cell.Entry? ==> files == old(files) && iiblk == old(iiblk)[cell.j := 0]
      ensures q in old(owner) && q in view ==>
                && q in owner && owner[q] == old(owner)[q]
                && q in view2 && view2[q] == (if cell.Entry? then iiblk else view[q])
    {
      hide Sound, Owns, Progress;
      CellOwned(cell, q, f, files, iiblk, view, owner);
      SelfKept(owner, disk, stack, f, files, view);
      if cell.Slot? {
        RemoveSlot(files, view, owner, f, cell.i);
        view2 := view;
        files := WithSlot(files, f, cell.i, 0);
      } else {
        RemoveEntry(files, view, owner, q, cell.j);
        view2 := WithEntry(view, q, cell.j, 0);
        iiblk := iiblk[cell.j := 0];
      }
      Drop(p, view2, f, 0, q);
    }

    /** Free the blocks of a small file, one address after the other. */
    method FreeSmall(f: nat)
      requires Valid() && f in files && !files[f].large
      modifies this`nfree, this`free, this`disk, this`stack, this`owner, this`files
      ensures Valid() && files == old(files)[f := old(files)[f].(addr := seq(8, _ => 0))]
      ensures Progress(old(owner), old(stack), old(disk), owner, stack, disk, f)
    {
      hide Sound, Owns, Progress, Freeing, ViewOf;
      GoodIsFreeing(nfree, free, stack, files, disk, owner);
      SelfProgress(nfree, free, stack, files, disk, disk, owner, f);
      for i := 0 to 8
        invariant Good(nfree, free, stack, files, disk, owner)
        invariant f in files && files == old(files)[f := old(files)[f].(addr := files[f].addr)]
        invariant forall k :: 0 <= k < i ==> files[f].addr[k] == 0
        invariant Progress(old(owner), old(stack), old(disk), owner, stack, disk, f)
      {
        if files[f].addr[i] != 0 {
          ghost var owner1, stack1, disk1 := owner, stack, disk;
          FreeSlot(f, i);
          ProgressTrans(old(owner), old(stack), old(disk), owner1, stack1, disk1, owner, stack, disk, f);
        }
      }
      assert files[f].addr == seq(8, _ => 0);
      CacheSurvives(iblkno, iblk, old(files), old(owner), old(stack), old(disk), owner, stack, disk, f);
    }

    method FreeSlot(f: nat, i: nat)
      requires Good(nfree, free, stack, files, disk, owner) && f in files && !files[f].large && i < 8
      requires files[f].addr[i] != 0
      modifies this`nfree, this`free, this`disk, this`stack, this`owner, this`files
      ensures Good(nfree, free, stack, files, disk, owner) && files == WithSlot(old(files), f, i, 0)
      ensures Progress(old(owner), old(stack), old(disk), owner, stack, disk, f)
    {
      hide Sound, Owns, Progress, Freeing;
      var b := files[f].addr[i];
      SlotOwned(files, disk, owner, f, i);
      RemoveSlot(files, disk, owner, f, i);
      SelfKept(owner, disk, stack, f, files, disk);
      files := WithSlot(files, f, i, 0);
      Drop(b, disk, f, 0, 0);
      ViewIsDisk(nfree, free, stack, files, disk, old(disk), owner);
    }

    /** Free the first seven indirect blocks of a large file. */
    method FreeSeven(f: nat)
      requires Good(nfree, free, stack, files, disk, owner) && f in files && files[f].large
      modifies this`nfree, this`free, this`disk, this`stack, this`owner, this`files, this`iblk, this`iiblk
      ensures Good(nfree, free, stack, files, disk, owner)
      ensures f in files && files == old(files)[f := old(files)[f].(addr := files[f].addr)]
      ensures files[f].addr == [0, 0, 0, 0, 0, 0, 0, old(files)[f].addr[7]]
      ensures Progress(old(owner), old(stack), old(disk), owner, stack, disk, f)
    {
      hide Sound, Owns, Progress, Freeing, ViewOf;
      GoodIsFreeing(nfree, free, stack, files, disk, owner);
      SelfProgress(nfree, free, stack, files, disk, disk, owner, f);
      assert 0 !in owner by { ZeroUnowned(files, disk, owner); }
      for i := 0 to 7
        invariant Good(nfree, free, stack, files, disk, owner) && 0 !in owner
        invariant f in files && files == old(files)[f := old(files)[f].(addr := files[f].addr)]
        invariant forall k :: 0 <= k < i ==> files[f].addr[k] == 0
        invariant files[f].addr[7] == old(files)[f].addr[7]
        invariant Progress(old(owner), old(stack), old(disk), owner, stack, disk, f)
      {
        ghost var owner1, stack1, disk1 := owner, stack, disk;
        GoodIsFreeing(nfree, free, stack, files, disk, owner);
        ghost var view := Iblkfree(f, Slot(i), disk, 0);
        ViewIsDisk(nfree, free, stack, files, disk, view, owner);
        ProgressTrans(old(owner), old(stack), old(disk), owner1, stack1, disk1, owner, stack, disk, f);
        ZeroUnowned(files, disk, owner);
      }
      assert files[f].addr == [0, 0, 0, 0, 0, 0, 0, old(files)[f].addr[7]];
    }

    /** Free what the double indirect block lists; the block itself stays. */
    method FreeDouble(f: nat)
      requires Good(nfree, free, stack, files, disk, owner) && f in files && files[f].large && files[f].addr[7] != 0
      modifies this`nfree, this`free, this`disk, this`stack, this`owner, this`files, this`iblk, this`iiblk
      ensures Good(nfree, free, stack, files, disk, owner) && files == old(files)
      ensures files[f].addr[7] in disk && disk[files[f].addr[7]] == Zeros()
      ensures Progress(old(owner), old(stack), old(disk), owner, stack, disk, f)
    {
      hide Sound, Owns, Progress, Freeing, ViewOf;
      var q := files[f].addr[7];
      SlotOwned(files, disk, owner, f, 7);
      iiblk := disk[q];
      ghost var view := disk;
      GoodIsFreeing(nfree, free, stack, files, disk, owner);
      SelfProgress(nfree, free, stack, files, disk, disk, owner, f);
      WiderView(view, disk, owner, 0, 0, q);
      for j := 0 to 256
        invariant Freeing(nfree, free, stack, files, disk, view, owner) && ViewOf(view, disk, owner, 0, q)
        invariant files == old(files) && q in owner && owner[q] == Claim(f, Slot(7), 2) && q in view && view[q] == iiblk
        invariant forall k :: 0 <= k < j ==> iiblk[k] == 0
        invariant Progress(old(owner), old(stack), old(disk), owner, stack, disk, f)
      {
        ghost var owner1, stack1, disk1 := owner, stack, disk;
        view := Iblkfree(f, Entry(q, j), view, q);
        ProgressTrans(old(owner), old(stack), old(disk), owner1, stack1, disk1, owner, stack, disk, f);
      }
      assert iiblk == Zeros();
      ghost var disk1 := disk;
      WiderView(view, disk, owner, 0, q, 0);
      WrittenBack(nfree, free, stack, files, disk, view, owner, q, 0, f);
      disk := disk[q := iiblk];
      ProgressTrans(old(owner), old(stack), old(disk), owner, stack, disk1, owner, stack, disk, f);
      ViewIsDisk(nfree, free, stack, files, disk, view, owner);
    }

    /** Free a file: its blocks go to the free list, each once, and the inode is small
        and empty afterwards exactly when it had no double indirect block. */
    method Filefree(f: nat)
      requires Valid() && f in files
      modifies this
      ensures Valid()
      ensures old(files)[f].io ==>
                files == old(files) && disk == old(disk) && stack == old(stack) && owner == old(owner)
      ensures !old(files)[f].io ==>
                && files == old(files)[f := Freed(old(files)[f])]
                && old(stack) <= stack
                && (forall b :: b in stack[|old(stack)|..] <==>
                      b in old(owner) && old(owner)[b].file == f && b != files[f].addr[7])
                && Conserved(old(owner), old(stack), owner, stack)
                && (forall g: nat, m: nat :: g in files && g != f ==>
                      Contents(files, disk, g, m) == Contents(old(files), old(disk), g, m))
      ensures !old(files)[f].io ==>
                && ((forall m: nat :: Lookup(files, disk, f, m) == 0) <==>
                    !(old(files)[f].large && old(files)[f].addr[7] != 0))
                && (forall m: nat :: Contents(files, disk, f, m) == Zeros())
    {
      hide Sound, Owns, Progress, Freeing, ViewOf, Conserved, Separate;
      if files[f].io {
        return;
      }
      OwnsPresent(files, disk, owner);
      if !files[f].large {
        FreeSmall(f);
        assert files[f].addr == [0, 0, 0, 0, 0, 0, 0, 0];
      } else {
        iblkno := -1;
        FreeSeven(f);
        if files[f].addr[7] != 0 {
          ghost var owner1, stack1, disk1 := owner, stack, disk;
          FreeDouble(f);
          ProgressTrans(old(owner), old(stack), old(disk), owner1, stack1, disk1, owner, stack, disk, f);
        }
      }
      MarkEmpty(f, old(files), old(owner), old(stack), old(disk));
    }

    /** The last step of freeing a file; the blocks have gone to the free list. */
    method MarkEmpty(f: nat, ghost files0: Files, ghost o0: Owner, ghost s0: seq<Word>, ghost d0: Disk)
      requires Valid() && Progress(o0, s0, d0, owner, stack, disk, f) && Separate(o0, s0) && Owns(files0, d0, o0)
      requires 0 !in d0
      requires f in files && f in files0 && files.Keys == files0.Keys
      requires forall g :: g in files && g != f ==> files[g] == files0[g]
      requires files[f].addr[..7] == [0, 0, 0, 0, 0, 0, 0]
      requires (files[f].addr[7] in disk ==> disk[files[f].addr[7]] == Zeros())
      requires iblkno == -1 || files[f].addr[7] == 0
      modifies this`files, this`owner
      ensures Valid() && files == old(files)[f := old(files)[f].(large := false, size := 0)]
      ensures s0 <= stack && Conserved(o0, s0, owner, stack)
      ensures forall b :: b in stack[|s0|..] <==> b in o0 && o0[b].file == f && b != files[f].addr[7]
      ensures forall g: nat, m: nat ::
                g in files && g != f ==> Contents(files, disk, g, m) == Contents(files0, d0, g, m)
      ensures (forall m: nat :: Lookup(files, disk, f, m) == 0) <==> files[f].addr[7] == 0
      ensures forall m: nat :: Contents(files, disk, f, m) == Zeros()
    {
      hide Sound, Owns, Progress, Freeing, ViewOf, Conserved, Separate, Lookup, Contents;
      OwnsPresent(files0, d0, o0);
      ZeroUnowned(files, disk, owner);
      assert forall i :: 0 <= i < 7 ==> files[f].addr[i] == files[f].addr[..7][i] == 0;
      MarkSmall(files, disk, owner, f);
      ghost var owner1, files1 := owner, files;
      owner := EmptiedOwner(owner, files[f]);
      files := files[f := files[f].(large := false, size := 0)];
      SameKeys(o0, s0, owner1, owner, stack, d0, disk, f);
      forall b ensures b in stack[|s0|..] <==> b in o0 && o0[b].file == f && b != files[f].addr[7] {
        FreedExactly(nfree, free, o0, s0, d0, owner1, stack, disk, f, b);
        OwnedAfter(files1, o0, s0, d0, owner1, stack, disk, f, b);
      }
      forall g: nat, m: nat | g in files && g != f ensures Contents(files, disk, g, m) == Contents(files0, d0, g, m) {
        OthersReadOn(files0, d0, o0, s0, files, disk, owner1, stack, f, g, m);
      }
      MapsNothing(files, disk, f);
    }

    // ----- reading and writing files -----

    /** Read a block of a file; a hole reads as zeros. */
    method Fileread(f: nat, offset: nat) returns (buf: Block, valid: int)
      requires Valid() && f in files && Mappable(files[f], offset / 512, false)
      modifies this
      ensures Valid() && files == old(files) && disk == old(disk) && stack == old(stack) && owner == old(owner)
      ensures buf == Contents(files, disk, f, offset / 512)
      ensures valid == (if files[f].size > offset + 512 then 512 else files[f].size - offset)
    {
      valid := files[f].size - offset;
      if Lookup(files, disk, f, offset / 512) != 0 {
        LookupOwned(files, disk, owner, f, offset / 512);
      }
      var b, lost := Bmap(f, offset, false);
      buf := if b == 0 then Zeros() else disk[b];
      if valid > 512 { valid := 512; }
    }

    /** Write a block of a file, allocating as needed; the program is stopped if and only
        if there are not enough free blocks. */
    method Filewrite(f: nat, offset: nat, buf: Block) returns (lost: bool)
      requires Valid() && f in files && offset / 512 < REACH
      modifies this
      ensures f in files && files == old(files)[f := files[f]]
      ensures Clear(old(nfree), old(stack), old(disk), old(files)[f], offset / 512) ==>
                (lost <==> |old(stack)| < Need(old(files)[f], old(disk), offset / 512))
      ensures !lost && Clear(old(nfree), old(stack), old(disk), old(files)[f], offset / 512) ==>
                && Valid() && Contents(files, disk, f, offset / 512) == buf
                && (forall g: nat, m: nat {:trigger ReadsAs(old(files), old(disk), files, disk, g, m)} ::
                      g != f || m != offset / 512 ==> ReadsAs(old(files), old(disk), files, disk, g, m))
                && Conserved(old(owner), old(stack), owner, stack) && |stack| >= |old(stack)| - 3
      ensures files[f].io == old(files)[f].io
      ensures files[f].large && (old(files)[f].large ==> old(files)[f].addr[0] != 0) ==> files[f].addr[0] != 0
    {
      hide Sound, Owns, SameBut, DataKept, Clear, Right, Conserved, Spent, Need;
      var l := offset / 512;
      var b;
      b, lost := Bmap(f, offset, true);
      ghost var right := && Clear(old(nfree), old(stack), old(disk), old(files)[f], l)
                         && |old(stack)| >= Need(old(files)[f], old(disk), l);
      if right {
        WriteStep(old(files), old(disk), old(owner), old(stack), files, disk, owner, stack, nfree, free, f, l, b, buf);
      }
      if lost || b == 0 || b !in disk {
        return true;
      }
      disk := disk[b := buf];
    }

    /** Whether an operation stays clear of stale indirect blocks. */
    method LookAhead(op: Op) returns (ok: bool)
      requires Valid() && InRange(files, op)
      ensures ok <==> (op.Write? ==> Clear(nfree, stack, disk, files[op.f], op.l))
      ensures Rooted(files) && (op.Free? || op.l < 256) ==> ok
    {
      hide Sound, Owns, CacheOk, LooksClear;
      if op.Write? {
        LooksClearIsClear(nfree, free, disk, stack, files[op.f], op.l);
        return LooksClear(nfree, free, disk, files[op.f], op.l);
      }
      return true;
    }

    /** One operation of a run. */
    method Perform(op: Op, ghost s: Store) returns (out: Block, lost: bool)
      requires Valid() && InRange(files, op) && Agrees(files, disk, s)
      requires op.Write? ==> Clear(nfree, stack, disk, files[op.f], op.l)
      modifies this
      ensures lost <==> op.Write? && |old(stack)| < Need(old(files)[op.f], old(disk), op.l)
      ensures !lost ==> Valid() && files.Keys == old(files).Keys && Devices(files) == Devices(old(files))
      ensures !lost ==> Agrees(files, disk, Apply(s, op, Devices(files))) && (op.Read? ==> out == s(op.f, op.l))
      ensures !lost ==> Conserved(old(owner), old(stack), owner, stack) && |stack| >= |old(stack)| - 3
      ensures !lost && Rooted(old(files)) ==> Rooted(files)
    {
      hide Good, CacheOk, Conserved, Lookup, Agrees, Contents, Need, Clear;
      out, lost := Zeros(), false;
      match op {
        case Write(f, l, buf) =>
          lost := Filewrite(f, 512 * l, buf);
          if !lost { WriteAgrees(old(files), old(disk), files, disk, s, f, l, buf, Devices(files)); }
        case Read(f, l) =>
          AgreesAt(files, disk, s, f, l);
          var valid;
          out, valid := Fileread(f, 512 * l);
          SelfConserved(owner, stack);
        case Free(f) =>
          Filefree(f);
          if files[f].io {
            SelfConserved(owner, stack);
          } else {
            FreeAgrees(old(files), old(disk), files, disk, s, f, Devices(files));
          }
      }
    }

    /** Any run of writes, reads and frees reads back what the simple store would, until a
        write finds too few free blocks, where the program stops. A client that looks at
        the superblock and the block on top stays clear of stale indirect blocks; one that
        keeps below logical block 256 need not look. */
    method Run(ops: seq<Op>, ghost s0: Store) returns (out: seq<Block>, end: End, ghost last: Snap)
      requires Valid() && Agrees(files, disk, s0)
      requires forall i :: 0 <= i < |ops| ==> InRange(files, ops[i])
      modifies this
      ensures if end.Through? then |out| == |ops| else |out| < |ops|
      ensures forall i :: 0 <= i < |out| && ops[i].Read? ==>
                out[i] == After(s0, ops[..i], Devices(old(files)))(ops[i].f, ops[i].l)
      ensures GoodSnap(last) && last.files.Keys == old(files).Keys
      ensures Agrees(last.files, last.disk, After(s0, ops[..|out|], Devices(old(files))))
      ensures Conserved(old(owner), old(stack), last.owner, last.stack)
      ensures !end.Full? ==> Valid() && last == Now()
      ensures end.Full? ==> TooFew(last, ops[|out|]) && !NotClear(last, ops[|out|])
      ensures end.Stale? ==> NotClear(last, ops[|out|])
      ensures |old(stack)| >= 3 * |ops| ==> !end.Full?
      ensures Rooted(old(files)) && (forall i :: 0 <= i < |ops| ==> ops[i].Free? || ops[i].l < 256) ==> !end.Stale?
    {
      hide Good, CacheOk, Conserved, Agrees, Apply, Need, Clear, Rooted, Devices;
      out, end, last := [], Through, Now();
      SelfConserved(owner, stack);
      assert ops[..0] == [];
      for k := 0 to |ops|
        invariant Valid() && files.Keys == old(files).Keys && Devices(files) == Devices(old(files))
        invariant last == Now() && (|old(stack)| >= 3 * |ops| ==> |stack| >= 3 * (|ops| - k))
        invariant Rooted(old(files)) ==> Rooted(files)
        invariant Agrees(files, disk, After(s0, ops[..k], Devices(old(files)))) && |out| == k
        invariant forall i :: 0 <= i < k && ops[i].Read? ==>
                    out[i] == After(s0, ops[..i], Devices(old(files)))(ops[i].f, ops[i].l)
        invariant Conserved(old(owner), old(stack), owner, stack)
      {
        ghost var owner1, stack1 := owner, stack;
        var ok := LookAhead(ops[k]);
        if !ok {
          end := Stale;
          return;
        }
        var r, lost := Perform(ops[k], After(s0, ops[..k], Devices(old(files))));
        if lost {
          end := Full;
          return;
        }
        out, last := out + [r], Now();
        ConservedTrans(old(owner), old(stack), owner1, stack1, owner, stack);
        assert ops[..k + 1][..k] == ops[..k];
      }
      assert ops[..|ops|] == ops;
    }
  }
}
