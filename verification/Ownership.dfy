/** Who points at which block: inodes with eight addresses, direct in a small file;
    in a large one the first seven lead to indirect blocks and the last to a double
    indirect one. */
module Ownership {
  import opened Common
  import opened FreeList

  type Addresses = s: seq<Word> | |s| == 8 witness seq(8, _ => 0)

  datatype Inode = Inode(io: bool, large: bool, size: nat, addr: Addresses)

  type Files = map<nat, Inode>

  /** The pointer that leads to a block: an inode address or an entry of a block. */
  datatype Pointer = Slot(i: nat) | Entry(p: Word, j: nat)

  /** The file a block belongs to, the pointer to it, and how many levels of pointers
      it holds (0 for data). */
  datatype Claim = Claim(file: nat, via: Pointer, level: nat)

  type Owner = map<Word, Claim>

  function Level(large: bool, i: nat): nat {
    if !large then 0 else if i < 7 then 1 else 2
  }

  ghost predicate SlotOk(files: Files, owner: Owner, f: nat, i: nat)
    requires f in files && i < 8
  {
    var b := files[f].addr[i];
    b != 0 ==> b in owner && owner[b] == Claim(f, Slot(i), Level(files[f].large, i))
  }

  ghost predicate EntryOk(disk: Disk, owner: Owner, p: Word, j: nat)
    requires p in owner && p in disk && j < 256
  {
    var c := disk[p][j];
    c != 0 ==>
      && c in owner && owner[c].file == owner[p].file && owner[c].via == Entry(p, j)
      && owner[c].level + 1 == owner[p].level
  }

  ghost predicate EntriesOk(disk: Disk, owner: Owner, p: Word)
    requires p in owner && p in disk
  {
    owner[p].level >= 1 ==>
      forall j {:trigger EntryOk(disk, owner, p, j)} :: 0 <= j < 256 ==> EntryOk(disk, owner, p, j)
  }

  /** The claimed pointer is there and leads to the block. */
  ghost predicate Anchored(files: Files, disk: Disk, owner: Owner, b: Word)
    requires b in owner
  {
    var c := owner[b];
    && c.file in files && c.level <= 2
    && match c.via
       case Slot(i) => i < 8 && files[c.file].addr[i] == b && c.level == Level(files[c.file].large, i)
       case Entry(p, j) =>
         && j < 256 && files[c.file].large
         && p in owner && owner[p].file == c.file && owner[p].level == c.level + 1
         && p in disk && disk[p][j] == b
  }

  ghost predicate SlotsOk(files: Files, owner: Owner) {
    forall f, i {:trigger SlotOk(files, owner, f, i)} :: f in files && 0 <= i < 8 ==> SlotOk(files, owner, f, i)
  }

  ghost predicate Present(disk: Disk, owner: Owner) {
    forall b {:trigger b in owner} :: b in owner ==> b != 0 && b in disk
  }

  /** Every pointer has its own block, and every owned block its own pointer. */
  ghost predicate Owns(files: Files, disk: Disk, owner: Owner) {
    && Present(disk, owner)
    && SlotsOk(files, owner)
    && (forall p {:trigger EntriesOk(disk, owner, p)} :: p in owner ==> EntriesOk(disk, owner, p))
    && (forall b {:trigger Anchored(files, disk, owner, b)} :: b in owner ==> Anchored(files, disk, owner, b))
  }

  /** What a block of pointers says is all that ownership depends on. */
  lemma OwnsFrame(files: Files, d1: Disk, d2: Disk, owner: Owner)
    requires Owns(files, d1, owner) && Present(d2, owner)
    requires forall b {:trigger b in owner} :: b in owner && owner[b].level >= 1 ==> d2[b] == d1[b]
    ensures Owns(files, d2, owner)
  {
    forall p | p in owner ensures EntriesOk(d2, owner, p) {
      assert EntriesOk(d1, owner, p);
      if owner[p].level >= 1 {
        forall j | 0 <= j < 256 ensures EntryOk(d2, owner, p, j) {
          assert EntryOk(d1, owner, p, j);
        }
      }
    }
    forall b | b in owner ensures Anchored(files, d2, owner, b) {
      assert Anchored(files, d1, owner, b);
    }
  }

  ghost predicate Childless(disk: Disk, owner: Owner, b: Word)
    requires b in owner && b in disk
  {
    owner[b].level == 0 || disk[b] == Zeros()
  }

  function WithSlot(files: Files, f: nat, i: nat, b: Word): Files
    requires f in files && i < 8
  {
    files[f := files[f].(addr := files[f].addr[i := b])]
  }

  function WithEntry(disk: Disk, p: Word, j: nat, b: Word): Disk
    requires p in disk && j < 256
  {
    disk[p := disk[p][j := b]]
  }

  lemma AddSlot(files: Files, disk: Disk, owner: Owner, f: nat, i: nat, b: Word)
    requires Owns(files, disk, owner) && f in files && i < 8 && files[f].addr[i] == 0
    requires b != 0 && b in disk && b !in owner
    requires files[f].large ==> disk[b] == Zeros()
    ensures Owns(WithSlot(files, f, i, b), disk, owner[b := Claim(f, Slot(i), Level(files[f].large, i))])
  {
    var files2, owner2 := WithSlot(files, f, i, b), owner[b := Claim(f, Slot(i), Level(files[f].large, i))];
    forall g, k | g in files2 && 0 <= k < 8 ensures SlotOk(files2, owner2, g, k) {
      assert SlotOk(files, owner, g, k);
    }
    forall p | p in owner2 ensures EntriesOk(disk, owner2, p) {
      if p != b && owner2[p].level >= 1 {
        assert EntriesOk(disk, owner, p);
        forall j | 0 <= j < 256 ensures EntryOk(disk, owner2, p, j) {
          assert EntryOk(disk, owner, p, j);
        }
      }
    }
    forall c | c in owner2 ensures Anchored(files2, disk, owner2, c) {
      if c != b { assert Anchored(files, disk, owner, c); }
    }
  }

  lemma AddEntry(files: Files, disk: Disk, owner: Owner, p: Word, j: nat, b: Word)
    requires Owns(files, disk, owner) && p in owner && owner[p].level == 1 && j < 256 && disk[p][j] == 0
    requires owner[p].file in files && files[owner[p].file].large
    requires b != 0 && b in disk && b !in owner
    ensures Owns(files, WithEntry(disk, p, j, b), owner[b := Claim(owner[p].file, Entry(p, j), 0)])
  {
    var disk2, owner2 := WithEntry(disk, p, j, b), owner[b := Claim(owner[p].file, Entry(p, j), 0)];
    forall g, k | g in files && 0 <= k < 8 ensures SlotOk(files, owner2, g, k) {
      assert SlotOk(files, owner, g, k);
    }
    forall q | q in owner2 ensures EntriesOk(disk2, owner2, q) {
      if q != b && owner2[q].level >= 1 {
        assert EntriesOk(disk, owner, q);
        forall k | 0 <= k < 256 ensures EntryOk(disk2, owner2, q, k) {
          assert EntryOk(disk, owner, q, k);
        }
      }
    }
    forall c | c in owner2 ensures Anchored(files, disk2, owner2, c) {
      if c != b { assert Anchored(files, disk, owner, c); }
    }
  }

  /** A childless block can be let go once its pointer is cleared. */
  lemma RemoveSlot(files: Files, disk: Disk, owner: Owner, f: nat, i: nat)
    requires Owns(files, disk, owner) && f in files && i < 8 && files[f].addr[i] != 0
    requires files[f].addr[i] in owner && files[f].addr[i] in disk && Childless(disk, owner, files[f].addr[i])
    ensures Owns(WithSlot(files, f, i, 0), disk, owner - {files[f].addr[i]})
  {
    var b := files[f].addr[i];
    var files2, owner2 := WithSlot(files, f, i, 0), owner - {b};
    assert SlotOk(files, owner, f, i);
    forall g, k | g in files2 && 0 <= k < 8 ensures SlotOk(files2, owner2, g, k) {
      assert SlotOk(files, owner, g, k);
    }
    forall p | p in owner2 ensures EntriesOk(disk, owner2, p) {
      assert EntriesOk(disk, owner, p);
      if owner2[p].level >= 1 {
        forall j | 0 <= j < 256 ensures EntryOk(disk, owner2, p, j) {
          assert EntryOk(disk, owner, p, j);
        }
      }
    }
    forall c | c in owner2 ensures Anchored(files2, disk, owner2, c) {
      assert Anchored(files, disk, owner, c);
    }
  }

  lemma RemoveEntry(files: Files, disk: Disk, owner: Owner, p: Word, j: nat)
    requires Owns(files, disk, owner) && p in owner && p in disk && owner[p].level >= 1 && j < 256 && disk[p][j] != 0
    requires disk[p][j] in owner && disk[p][j] in disk && Childless(disk, owner, disk[p][j])
    ensures Owns(files, WithEntry(disk, p, j, 0), owner - {disk[p][j]})
  {
    var b := disk[p][j];
    var disk2, owner2 := WithEntry(disk, p, j, 0), owner - {b};
    assert EntriesOk(disk, owner, p) && EntryOk(disk, owner, p, j);
    forall g, k | g in files && 0 <= k < 8 ensures SlotOk(files, owner2, g, k) {
      assert SlotOk(files, owner, g, k);
    }
    forall q | q in owner2 ensures EntriesOk(disk2, owner2, q) {
      assert EntriesOk(disk, owner, q);
      if owner2[q].level >= 1 {
        forall k | 0 <= k < 256 ensures EntryOk(disk2, owner2, q, k) {
          assert EntryOk(disk, owner, q, k);
        }
      }
    }
    forall c | c in owner2 ensures Anchored(files, disk2, owner2, c) {
      assert Anchored(files, disk, owner, c);
    }
  }

  // ----- growing a small file -----

  function Grown(addr: Addresses): Block {
    addr + seq(248, _ => 0)
  }

  function GrownInode(n: Inode, p: Word): Inode {
    n.(large := true, addr := [p, 0, 0, 0, 0, 0, 0, 0])
  }

  function Moved(c: Claim, f: nat, p: Word): Claim {
    match c.via
    case Slot(i) => if c.file == f then Claim(f, Entry(p, i), 0) else c
    case Entry(_, _) => c
  }

  function GrownOwner(owner: Owner, f: nat, p: Word): Owner {
    map b | b in owner.Keys + {p} :: if b == p then Claim(f, Slot(0), 1) else Moved(owner[b], f, p)
  }

  /** The eight addresses become the first entries of a new indirect block. */
  lemma Convert(files: Files, disk: Disk, owner: Owner, f: nat, p: Word)
    requires Owns(files, disk, owner) && f in files && !files[f].large
    requires p != 0 && p in disk && p !in owner
    ensures Owns(files[f := GrownInode(files[f], p)], disk[p := Grown(files[f].addr)], GrownOwner(owner, f, p))
  {
    var files2, disk2 := files[f := GrownInode(files[f], p)], disk[p := Grown(files[f].addr)];
    var owner2 := GrownOwner(owner, f, p);
    forall g, k | g in files2 && 0 <= k < 8 ensures SlotOk(files2, owner2, g, k) {
      assert SlotOk(files, owner, g, k);
    }
    forall q | q in owner2 ensures EntriesOk(disk2, owner2, q) {
      if q == p {
        forall k | 0 <= k < 256 ensures EntryOk(disk2, owner2, q, k) {
          if k < 8 { assert SlotOk(files, owner, f, k); }
        }
      } else {
        assert EntriesOk(disk, owner, q) && Anchored(files, disk, owner, q);
        if owner2[q].level >= 1 {
          forall k | 0 <= k < 256 ensures EntryOk(disk2, owner2, q, k) {
            assert EntryOk(disk, owner, q, k);
          }
        }
      }
    }
    forall c | c in owner2 ensures Anchored(files2, disk2, owner2, c) {
      if c != p {
        assert Anchored(files, disk, owner, c);
      }
    }
  }

  // ----- the mapping from logical blocks -----

  /** Logical blocks reached without the double indirect block. */
  const REACH := 7 * 256

  /** The block that holds logical block `l` of a file, or 0 for a hole. */
  function Lookup(files: Files, disk: Disk, f: nat, l: nat): Word
    requires f in files
  {
    var n := files[f];
    if !n.large then if l < 8 then n.addr[l] else 0
    else if l < REACH && n.addr[l / 256] in disk then disk[n.addr[l / 256]][l % 256]
    else 0
  }

  /** The pointer to logical block `l`. */
  function PointerTo(n: Inode, l: nat): Pointer {
    if !n.large || l >= REACH then Slot(l) else Entry(n.addr[l / 256], l % 256)
  }

  /** A mapped block is a data block that belongs to this place of this file only. */
  lemma LookupOwned(files: Files, disk: Disk, owner: Owner, f: nat, l: nat)
    requires Owns(files, disk, owner) && 0 !in disk && f in files && Lookup(files, disk, f, l) != 0
    ensures l < (if files[f].large then REACH else 8)
    ensures var b := Lookup(files, disk, f, l);
            b in owner && owner[b] == Claim(f, PointerTo(files[f], l), 0)
  {
    if files[f].large {
      var p := files[f].addr[l / 256];
      assert SlotOk(files, owner, f, l / 256);
      assert EntriesOk(disk, owner, p) && EntryOk(disk, owner, p, l % 256);
    } else {
      assert SlotOk(files, owner, f, l);
    }
  }

  /** The mapping is injective over all files. */
  lemma LookupInjective(files: Files, disk: Disk, owner: Owner, f: nat, l: nat, g: nat, m: nat)
    requires Owns(files, disk, owner) && 0 !in disk && f in files && g in files
    requires Lookup(files, disk, f, l) == Lookup(files, disk, g, m) != 0
    ensures f == g && l == m
  {
    LookupOwned(files, disk, owner, f, l);
    LookupOwned(files, disk, owner, g, m);
    if files[f].large {
      var p := files[f].addr[l / 256];
      assert SlotOk(files, owner, f, l / 256) && SlotOk(files, owner, f, m / 256);
      assert l == 256 * (l / 256) + l % 256 && m == 256 * (m / 256) + m % 256;
    }
  }

  // ----- what each change does to the mapping -----

  ghost predicate SameAt(files: Files, disk: Disk, files2: Files, disk2: Disk, g: nat, m: nat) {
    g in files && g in files2 ==> Lookup(files2, disk2, g, m) == Lookup(files, disk, g, m)
  }

  /** The mapping of every file is as before, except perhaps at one place. */
  ghost predicate SameBut(files: Files, disk: Disk, files2: Files, disk2: Disk, f: nat, l: nat) {
    forall g: nat, m: nat {:trigger SameAt(files, disk, files2, disk2, g, m)} ::
      g != f || m != l ==> SameAt(files, disk, files2, disk2, g, m)
  }

  /** The mapping of every file is as before. */
  ghost predicate Same(files: Files, disk: Disk, files2: Files, disk2: Disk) {
    forall g: nat, m: nat {:trigger SameAt(files, disk, files2, disk2, g, m)} ::
      SameAt(files, disk, files2, disk2, g, m)
  }

  /** The contents of every data block are as before. */
  ghost predicate DataKept(disk: Disk, disk2: Disk, owner: Owner) {
    forall b {:trigger b in owner} ::
      b in owner && owner[b].level == 0 && b in disk ==> b in disk2 && disk2[b] == disk[b]
  }

  lemma SameFrame(files: Files, disk: Disk, disk2: Disk, owner: Owner)
    requires Owns(files, disk, owner) && 0 !in disk && 0 !in disk2 && Present(disk2, owner)
    requires forall b {:trigger b in owner} :: b in owner && owner[b].level >= 1 ==> disk2[b] == disk[b]
    ensures Same(files, disk, files, disk2)
  {
    forall g: nat, m: nat ensures SameAt(files, disk, files, disk2, g, m) {
      if g in files && files[g].large && m < REACH {
        assert SlotOk(files, owner, g, m / 256);
      }
    }
  }

  lemma SlotChangesOne(files: Files, disk: Disk, f: nat, i: nat, b: Word)
    requires f in files && i < 8 && !files[f].large
    ensures SameBut(files, disk, WithSlot(files, f, i, b), disk, f, i)
    ensures Lookup(WithSlot(files, f, i, b), disk, f, i) == b
  {
  }

  lemma EmptyIndirectChangesNone(files: Files, disk: Disk, f: nat, i: nat, b: Word)
    requires f in files && i < 7 && files[f].large && files[f].addr[i] == 0 && 0 !in disk
    requires b in disk && disk[b] == Zeros()
    ensures Same(files, disk, WithSlot(files, f, i, b), disk)
  {
  }

  lemma EntryChangesOne(files: Files, disk: Disk, owner: Owner, f: nat, l: nat, b: Word)
    requires Owns(files, disk, owner) && 0 !in disk && f in files && files[f].large && l < REACH
    requires files[f].addr[l / 256] in disk
    ensures var disk2 := WithEntry(disk, files[f].addr[l / 256], l % 256, b);
            SameBut(files, disk, files, disk2, f, l) && Lookup(files, disk2, f, l) == b
  {
    var p := files[f].addr[l / 256];
    var disk2 := WithEntry(disk, p, l % 256, b);
    assert SlotOk(files, owner, f, l / 256);
    forall g: nat, m: nat | g != f || m != l ensures SameAt(files, disk, files, disk2, g, m) {
      if g in files && files[g].large && m < REACH && files[g].addr[m / 256] == p {
        assert SlotOk(files, owner, g, m / 256);
        assert l == 256 * (l / 256) + l % 256 && m == 256 * (m / 256) + m % 256;
      }
    }
  }

  lemma ConvertChangesNone(files: Files, disk: Disk, owner: Owner, f: nat, p: Word)
    requires Owns(files, disk, owner) && 0 !in disk && f in files && !files[f].large
    requires p != 0 && p in disk && p !in owner
    ensures Same(files, disk, files[f := GrownInode(files[f], p)], disk[p := Grown(files[f].addr)])
  {
    var files2, disk2 := files[f := GrownInode(files[f], p)], disk[p := Grown(files[f].addr)];
    forall g: nat, m: nat ensures SameAt(files, disk, files2, disk2, g, m) {
      if g in files && g != f && files[g].large && m < REACH {
        assert SlotOk(files, owner, g, m / 256);
      }
    }
  }

  lemma SameThenBut(f0: Files, d0: Disk, f1: Files, d1: Disk, f2: Files, d2: Disk, f: nat, l: nat)
    requires Same(f0, d0, f1, d1) && SameBut(f1, d1, f2, d2, f, l) && f0.Keys == f1.Keys == f2.Keys
    ensures SameBut(f0, d0, f2, d2, f, l)
  {
    forall g: nat, m: nat | g != f || m != l ensures SameAt(f0, d0, f2, d2, g, m) {
      assert SameAt(f0, d0, f1, d1, g, m) && SameAt(f1, d1, f2, d2, g, m);
    }
  }

  lemma SameThenSame(f0: Files, d0: Disk, f1: Files, d1: Disk, f2: Files, d2: Disk)
    requires Same(f0, d0, f1, d1) && Same(f1, d1, f2, d2) && f0.Keys == f1.Keys == f2.Keys
    ensures Same(f0, d0, f2, d2)
  {
    forall g: nat, m: nat ensures SameAt(f0, d0, f2, d2, g, m) {
      assert SameAt(f0, d0, f1, d1, g, m) && SameAt(f1, d1, f2, d2, g, m);
    }
  }

  // ----- emptying a file -----

  /** A file whose first seven addresses are clear, and whose last one is clear or
      leads to a block without pointers, owns nothing but that last block. */
  lemma OnlyLast(files: Files, disk: Disk, owner: Owner, f: nat, b: Word)
    requires Owns(files, disk, owner) && f in files && b in owner && owner[b].file == f
    requires forall i :: 0 <= i < 7 ==> files[f].addr[i] == 0
    requires files[f].addr[7] in disk ==> disk[files[f].addr[7]] == Zeros()
    ensures b == files[f].addr[7]
    decreases 3 - owner[b].level
  {
    assert Anchored(files, disk, owner, b);
    if owner[b].via.Entry? {
      OnlyLast(files, disk, owner, f, owner[b].via.p);
    }
  }

  function EmptiedOwner(owner: Owner, n: Inode): Owner {
    if n.addr[7] in owner then owner[n.addr[7] := owner[n.addr[7]].(level := 0)] else owner
  }

  /** Such a file can be marked small again. */
  lemma MarkSmall(files: Files, disk: Disk, owner: Owner, f: nat)
    requires Owns(files, disk, owner) && f in files && 0 !in disk
    requires forall i :: 0 <= i < 7 ==> files[f].addr[i] == 0
    requires files[f].addr[7] in disk ==> disk[files[f].addr[7]] == Zeros()
    ensures Owns(files[f := files[f].(large := false, size := 0)], disk, EmptiedOwner(owner, files[f]))
  {
    var files2, owner2 := files[f := files[f].(large := false, size := 0)], EmptiedOwner(owner, files[f]);
    var last := files[f].addr[7];
    assert SlotOk(files, owner, f, 7);
    forall g, k | g in files2 && 0 <= k < 8 ensures SlotOk(files2, owner2, g, k) {
      assert SlotOk(files, owner, g, k);
    }
    forall q | q in owner2 ensures EntriesOk(disk, owner2, q) {
      assert EntriesOk(disk, owner, q);
      if owner2[q].level >= 1 {
        forall k | 0 <= k < 256 ensures EntryOk(disk, owner2, q, k) {
          assert EntryOk(disk, owner, q, k);
        }
      }
    }
    forall c | c in owner2 ensures Anchored(files2, disk, owner2, c) {
      assert Anchored(files, disk, owner, c);
      if owner[c].file == f { OnlyLast(files, disk, owner, f, c); }
    }
  }

  /** The blocks of all files but `f`, and who owns them, are as before. */
  ghost predicate OthersKept(owner0: Owner, disk0: Disk, owner: Owner, disk: Disk, f: nat) {
    forall b {:trigger b in owner0} {:trigger b in owner} ::
      && (b in owner0 && owner0[b].file != f ==>
            b in owner && owner[b] == owner0[b] && b in disk0 && b in disk && disk[b] == disk0[b])
      && (b in owner ==> b in owner0 && owner[b].file == owner0[b].file)
  }

  function Contents(files: Files, disk: Disk, f: nat, l: nat): Block
    requires f in files
  {
    var b := Lookup(files, disk, f, l);
    if b in disk then disk[b] else Zeros()
  }

  /** So other files read as before. */
  lemma OthersRead(files0: Files, disk0: Disk, owner0: Owner, files: Files, disk: Disk, owner: Owner, f: nat, g: nat,
                   m: nat)
    requires Owns(files0, disk0, owner0) && 0 !in disk0 && 0 !in disk && OthersKept(owner0, disk0, owner, disk, f)
    requires g in files0 && g in files && files[g] == files0[g] && g != f
    ensures Lookup(files, disk, g, m) == Lookup(files0, disk0, g, m)
    ensures Contents(files, disk, g, m) == Contents(files0, disk0, g, m)
  {
    if files[g].large && m < REACH {
      assert SlotOk(files0, owner0, g, m / 256);
    }
    if Lookup(files0, disk0, g, m) != 0 { LookupOwned(files0, disk0, owner0, g, m); }
  }
}
