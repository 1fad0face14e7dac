/** The free list of the Micronix file system: up to 100 block numbers in the
    superblock, the first of which links to a block holding the next 100. */
module FreeList {
  import opened Common

  type Block = s: seq<Word> | |s| == 256 witness seq(256, _ => 0)

  type Disk = map<Word, Block>

  const LIST_SIZE := 100

  function Zeros(): (b: Block)
    ensures forall i :: 0 <= i < 256 ==> b[i] == 0
  {
    seq(256, _ => 0)
  }

  // ----- sector skew -----

  /** The place of a sector within its track: every other one when skewed. */
  function Skew(sec: nat, spt: nat, altsec: bool): (r: nat)
    requires sec < spt
    ensures r < spt
  {
    var twice := 2 * sec;
    if !altsec then sec
    else if twice < spt then twice
    else if spt % 2 == 0 then twice + 1 - spt
    else twice - spt
  }

  function Unskew(sec: nat, spt: nat, altsec: bool): (r: nat)
    requires sec < spt
    ensures r < spt
  {
    if !altsec then sec else if sec % 2 == 0 then sec / 2 else (sec + spt) / 2
  }

  function Place(trk: nat, sec: nat, spt: nat): nat {
    trk * spt + sec
  }

  function Secmap(blkno: nat, spt: nat, altsec: bool): nat
    requires spt > 0
  {
    var trk, sec := blkno / spt, blkno % spt;
    var doubled := if spt % 2 == 0 && 2 * sec >= spt then 2 * sec + 1 else 2 * sec;
    Place(trk, if altsec then doubled % spt else sec, spt)
  }

  /** The block at a physical place. */
  function Unmap(place: nat, spt: nat, altsec: bool): nat
    requires spt > 0
  {
    Place(place / spt, Unskew(place % spt, spt, altsec), spt)
  }

  lemma SkewIsRemainder(sec: nat, spt: nat)
    requires sec < spt
    ensures Skew(sec, spt, true) == (if spt % 2 == 0 && 2 * sec >= spt then 2 * sec + 1 else 2 * sec) % spt
  {
    var doubled := if spt % 2 == 0 && 2 * sec >= spt then 2 * sec + 1 else 2 * sec;
    if doubled < spt { Decompose(0, doubled, spt); } else { Decompose(1, doubled - spt, spt); }
  }

  lemma SkewInverse(sec: nat, spt: nat, altsec: bool)
    requires sec < spt
    ensures Unskew(Skew(sec, spt, altsec), spt, altsec) == sec
    ensures Skew(Unskew(sec, spt, altsec), spt, altsec) == sec
  {
  }

  lemma SecmapBySkew(x: nat, spt: nat, altsec: bool)
    requires spt > 0
    ensures Secmap(x, spt, altsec) == Place(x / spt, Skew(x % spt, spt, altsec), spt)
  {
    SkewIsRemainder(x % spt, spt);
    hide Skew, Place;
  }

  /** The skew permutes the blocks of every track, whatever the track size. */
  lemma SecmapPermutesTracks(x: nat, spt: nat, altsec: bool)
    requires spt > 0
    ensures Secmap(x, spt, altsec) / spt == x / spt && Unmap(x, spt, altsec) / spt == x / spt
    ensures Unmap(Secmap(x, spt, altsec), spt, altsec) == x
    ensures Secmap(Unmap(x, spt, altsec), spt, altsec) == x
  {
    hide Secmap, Skew, Unskew;
    var trk, sec := x / spt, x % spt;
    assert x == trk * spt + sec;
    SkewInverse(sec, spt, altsec);
    Decompose(trk, Skew(sec, spt, altsec), spt);
    Decompose(trk, Unskew(sec, spt, altsec), spt);
    SecmapBySkew(x, spt, altsec);
    SecmapBySkew(Unmap(x, spt, altsec), spt, altsec);
  }

  /** Without skew a block is where its number says. With it, the first half of a track's
      blocks go to the even places in order and the second half to the odd ones. */
  lemma SecmapInterleaves(trk: nat, j: nat, spt: nat)
    ensures j < spt ==> Secmap(trk * spt + j, spt, false) == trk * spt + j
    ensures 2 * j < spt ==> Secmap(trk * spt + j, spt, true) == trk * spt + 2 * j
    ensures 2 * j + 1 < spt ==> Secmap(trk * spt + ((spt + 1) / 2 + j), spt, true) == trk * spt + (2 * j + 1)
  {
    hide Secmap;
    if j < spt {
      Decompose(trk, j, spt);
      SecmapBySkew(trk * spt + j, spt, false);
      SecmapBySkew(trk * spt + j, spt, true);
    }
    if 2 * j + 1 < spt {
      Decompose(trk, (spt + 1) / 2 + j, spt);
      SecmapBySkew(trk * spt + ((spt + 1) / 2 + j), spt, true);
    }
  }

  // ----- what the list on disk represents -----

  /** The superblock entries and the link chain hold exactly the stack `st`, its top
      last. The first entry is the sentinel 0 or the link to the next hundred. */
  ghost predicate Holds(n: int, free: seq<Word>, disk: Disk, st: seq<Word>)
    decreases |st|
  {
    && |free| == LIST_SIZE && 1 <= n <= LIST_SIZE && n - 1 <= |st|
    && var k := |st| - (n - 1);
       && st[k..] == free[1..n]
       && (free[0] == 0 ==> k == 0)
       && (free[0] != 0 ==>
             && k > 0 && st[k - 1] == free[0] && free[0] in disk
             && Holds(disk[free[0]][0], disk[free[0]][1..101], disk, st[..k - 1]))
  }

  ghost predicate Distinct(st: seq<Word>) {
    forall i, j :: 0 <= i < j < |st| ==> st[i] != st[j]
  }

  ghost predicate Sound(n: int, free: seq<Word>, disk: Disk, st: seq<Word>) {
    Holds(n, free, disk, st) && Distinct(st) && 0 !in st && forall b :: b in st ==> b in disk
  }

  /** Only the blocks on the list matter to it. */
  lemma {:induction false} HoldsFrame(n: int, free: seq<Word>, d1: Disk, d2: Disk, st: seq<Word>)
    requires Holds(n, free, d1, st)
    requires forall b :: b in st && b in d1 ==> b in d2 && d2[b] == d1[b]
    ensures Holds(n, free, d2, st)
    decreases |st|
  {
    var k := |st| - (n - 1);
    if free[0] != 0 {
      var b := free[0];
      assert st[k - 1] in st;
      forall c | c in st[..k - 1] ensures c in st { }
      HoldsFrame(d1[b][0], d1[b][1..101], d1, d2, st[..k - 1]);
    }
  }

  lemma SoundFrame(n: int, free: seq<Word>, d1: Disk, d2: Disk, st: seq<Word>)
    requires Sound(n, free, d1, st)
    requires forall b :: b in st && b in d1 ==> b in d2 && d2[b] == d1[b]
    ensures Sound(n, free, d2, st)
  {
    HoldsFrame(n, free, d1, d2, st);
  }

  /** The list is exhausted exactly when its only entry is the sentinel. */
  lemma EmptyIffSentinel(n: int, free: seq<Word>, disk: Disk, st: seq<Word>)
    requires Sound(n, free, disk, st)
    ensures free[n - 1] == 0 <==> st == []
    ensures st != [] ==> free[n - 1] == st[|st| - 1]
  {
    if n > 1 {
      assert st[|st| - 1] == st[|st| - (n - 1)..][n - 2] == free[1..n][n - 2];
      assert st[|st| - 1] in st;
    } else if free[0] != 0 {
      assert st[|st| - 1] == free[0];
    }
  }

  function Init(st: seq<Word>): seq<Word>
    requires st != []
  {
    st[..|st| - 1]
  }

  lemma DistinctInit(st: seq<Word>)
    requires st != [] && Distinct(st)
    ensures Distinct(Init(st)) && st[|st| - 1] !in Init(st) && forall b :: b in Init(st) ==> b in st
  {
  }

  /** Taking the top while more entries are in the superblock. */
  lemma PopEntry(n: int, free: seq<Word>, disk: Disk, st: seq<Word>)
    requires Sound(n, free, disk, st) && n > 1
    ensures st != [] && Sound(n - 1, free, disk, Init(st))
  {
    var k := |st| - (n - 1);
    DistinctInit(st);
    assert Init(st)[k..] == st[k..][..n - 2] == free[1..n][..n - 2] == free[1..n - 1];
    assert Init(st)[..k] == st[..k];
    if k > 0 { assert Init(st)[..k - 1] == st[..k - 1]; }
  }

  /** Taking the link block brings in the hundred entries it holds. */
  lemma PopLink(free: seq<Word>, disk: Disk, st: seq<Word>)
    requires Sound(1, free, disk, st) && free[0] != 0
    ensures st != [] && Sound(disk[free[0]][0], disk[free[0]][1..101], disk[free[0] := Zeros()], Init(st))
  {
    var b := free[0];
    DistinctInit(st);
    assert st[|st|..] == [];
    assert Holds(disk[b][0], disk[b][1..101], disk, Init(st));
    assert Sound(disk[b][0], disk[b][1..101], disk, Init(st));
    SoundFrame(disk[b][0], disk[b][1..101], disk, disk[b := Zeros()], Init(st));
  }

  lemma DistinctPush(st: seq<Word>, b: Word)
    requires Distinct(st) && b !in st
    ensures Distinct(st + [b])
  {
  }

  lemma PushEntry(n: int, free: seq<Word>, disk: Disk, st: seq<Word>, b: Word)
    requires Sound(n, free, disk, st) && n < LIST_SIZE
    requires b != 0 && b !in st && b in disk
    ensures Sound(n + 1, free[n := b], disk, st + [b])
  {
    var k := |st| - (n - 1);
    DistinctPush(st, b);
    assert (st + [b])[k..] == st[k..] + [b] == free[1..n] + [b] == free[n := b][1..n + 1];
    if k > 0 { assert (st + [b])[..k - 1] == st[..k - 1]; }
  }

  /** A full superblock spills into the freed block, which becomes the link. */
  lemma PushLink(free: seq<Word>, disk: Disk, st: seq<Word>, b: Word, link: Block)
    requires Sound(LIST_SIZE, free, disk, st)
    requires b != 0 && b !in st && b in disk
    requires link[0] == LIST_SIZE && link[1..101] == free
    ensures Sound(1, free[0 := b], disk[b := link], st + [b])
  {
    var d := disk[b := link];
    DistinctPush(st, b);
    HoldsFrame(LIST_SIZE, free, disk, d, st);
    assert (st + [b])[..|st|] == st;
    assert (st + [b])[|st| + 1..] == [] == free[0 := b][1..1];
  }

  /** A failed allocation leaves a count of 0, which represents no list at all, not even
      the empty one it started from. */
  lemma ExhaustionLosesSentinel(free: seq<Word>, disk: Disk, st: seq<Word>)
    requires |free| == LIST_SIZE && free[0] == 0
    ensures Sound(1, free, disk, []) && !Holds(0, free, disk, st)
  {
    assert [][0..] == free[1..1];
  }
}
