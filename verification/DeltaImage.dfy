/** IMD disk images: a base image in memory, and a delta file that records every sector
    written since. */
module DeltaImage {
  import opened Common

  const HEADS := 2
  const CYLINDERS := 80
  const SECTORS := 32
  const MAX_SEC_SIZE := 1024
  const MAP_SIZE := 5120   // one byte for each of 80 * 2 * 32 sectors

  type Sector = seq<Byte>

  datatype Track = Track(secsize: nat, secmap: seq<Byte>, data: seq<Option<Sector>>)

  type Tracks = map<nat, Track>

  function Trknum(cyl: nat, head: nat): nat {
    cyl * HEADS + head
  }

  function DirtyOff(t: nat, s: nat): nat {
    t * SECTORS + s
  }

  function DeltaOff(t: nat, s: nat): nat {
    MAP_SIZE + MAX_SEC_SIZE * DirtyOff(t, s)
  }

  /** Different sectors have different flags and separate slots, all of them apart from
      the flags and within the file. */
  lemma SlotsDisjoint(c: nat, h: nat, s: nat, c2: nat, h2: nat, s2: nat)
    requires c < CYLINDERS && c2 < CYLINDERS && h < HEADS && h2 < HEADS && s < SECTORS && s2 < SECTORS
    ensures var t, t2 := Trknum(c, h), Trknum(c2, h2);
            && DirtyOff(t, s) < MAP_SIZE <= DeltaOff(t, s)
            && ((c, h, s) != (c2, h2, s2) ==>
                  && DirtyOff(t, s) != DirtyOff(t2, s2)
                  && (|| DeltaOff(t, s) + MAX_SEC_SIZE <= DeltaOff(t2, s2)
                      || DeltaOff(t2, s2) + MAX_SEC_SIZE <= DeltaOff(t, s)))
  {
  }

  /** The file holds a flag for each sector, cylinder by cylinder, head by head, and from
      byte 5120 on a slot of 1024 bytes for each, in the same order. */
  lemma FileLayout(c: nat, h: nat, s: nat)
    ensures DirtyOff(Trknum(c, h), s) == 64 * c + 32 * h + s
    ensures DeltaOff(Trknum(c, h), s) == 5120 + 1024 * (64 * c + 32 * h + s)
    ensures DELTA_LENGTH == 5120 + 1024 * (80 * 64) && CYLINDERS == 80 && HEADS == 2 && SECTORS == 32
  {
  }

  // ----- the delta file -----

  const DELTA_LENGTH := MAP_SIZE + MAX_SEC_SIZE * MAP_SIZE

  type Delta = d: seq<Byte> | |d| == DELTA_LENGTH witness seq(DELTA_LENGTH, _ => 0)

  function Overlay(d: Delta, o: nat, buf: seq<Byte>): Delta
    requires o + |buf| <= DELTA_LENGTH
  {
    d[..o] + buf + d[o + |buf|..]
  }

  lemma OverlayAt(d: Delta, o: nat, buf: seq<Byte>, p: nat, n: nat)
    requires o + |buf| <= DELTA_LENGTH && p + n <= DELTA_LENGTH
    ensures Overlay(d, o, buf)[o..o + |buf|] == buf
    ensures p + n <= o || o + |buf| <= p ==> Overlay(d, o, buf)[p..p + n] == d[p..p + n]
  {
    var e := Overlay(d, o, buf);
    assert forall i :: 0 <= i < |buf| ==> e[o + i] == buf[i];
    if p + n <= o || o + |buf| <= p {
      assert forall i :: p <= i < p + n ==> e[i] == d[i];
    }
  }

  // ----- what the image holds -----

  /** A sector's bytes; one absent from the image reads as zeros. */
  function Content(t: Track, s: nat): Sector
    requires s < |t.data|
  {
    if t.data[s].Some? then t.data[s].value else seq(t.secsize, _ => 0)
  }

  lemma AbsentIsZeros(t: Track, s: nat)
    requires s < |t.data|
    ensures if t.data[s].Some? then Content(t, s) == t.data[s].value
            else |Content(t, s)| == t.secsize && forall i :: 0 <= i < t.secsize ==> Content(t, s)[i] == 0
  {
  }

  ghost predicate Conforms(t: nat, k: Track) {
    && t < CYLINDERS * HEADS && k.secsize <= MAX_SEC_SIZE && |k.data| == |k.secmap| <= SECTORS
    && forall s {:trigger k.data[s]} :: 0 <= s < |k.data| && k.data[s].Some? ==> |k.data[s].value| == k.secsize
  }

  ghost predicate SameFormat(base: Tracks, mem: Tracks) {
    && base.Keys == mem.Keys
    && forall t {:trigger mem[t]} {:trigger base[t]} :: t in mem ==>
         && Conforms(t, mem[t]) && Conforms(t, base[t])
         && mem[t].secsize == base[t].secsize && mem[t].secmap == base[t].secmap
  }

  predicate Dirty(delta: Delta, t: nat, s: nat)
    requires t < CYLINDERS * HEADS && s < SECTORS
  {
    delta[DirtyOff(t, s)] == 1
  }

  function SlotOf(delta: Delta, t: nat, s: nat, n: nat): Sector
    requires t < CYLINDERS * HEADS && s < SECTORS && n <= MAX_SEC_SIZE
  {
    delta[DeltaOff(t, s)..DeltaOff(t, s) + n]
  }

  /** A sector in memory is the newest of the base and the delta. */
  ghost predicate SectorOk(base: Tracks, mem: Tracks, delta: Delta, t: nat, s: nat)
    requires SameFormat(base, mem) && t in mem && s < |mem[t].data|
  {
    Content(mem[t], s) == if Dirty(delta, t, s) then SlotOf(delta, t, s, base[t].secsize) else Content(base[t], s)
  }

  ghost predicate Coherent(base: Tracks, mem: Tracks, delta: Delta) {
    && SameFormat(base, mem)
    && (forall t, s {:trigger SectorOk(base, mem, delta, t, s)} ::
          t in mem && 0 <= s < |mem[t].data| ==> SectorOk(base, mem, delta, t, s))
    && forall t, s {:trigger Dirty(delta, t, s)} ::
         0 <= t < CYLINDERS * HEADS && 0 <= s < SECTORS && Dirty(delta, t, s) ==> t in mem && s < |mem[t].data|
  }

  /** So a reload of base and delta has the same contents as memory. */
  lemma ReloadAgrees(base: Tracks, mem: Tracks, mem2: Tracks, delta: Delta, t: nat, s: nat)
    requires Coherent(base, mem, delta) && Coherent(base, mem2, delta) && t in mem && s < |mem[t].data|
    ensures t in mem2 && s < |mem2[t].data| && Content(mem2[t], s) == Content(mem[t], s)
  {
    assert mem2[t].secmap == base[t].secmap == mem[t].secmap;
    assert SectorOk(base, mem, delta, t, s) && SectorOk(base, mem2, delta, t, s);
  }

  function Stored(mem: Tracks, t: nat, s: nat, buf: Sector): Tracks
    requires t in mem && s < |mem[t].data|
  {
    mem[t := mem[t].(data := mem[t].data[s := Some(buf)])]
  }

  function Recorded(delta: Delta, t: nat, s: nat, buf: Sector): Delta
    requires t < CYLINDERS * HEADS && s < SECTORS && |buf| <= MAX_SEC_SIZE
  {
    Overlay(Overlay(delta, DirtyOff(t, s), [1]), DeltaOff(t, s), buf)
  }

  lemma ByteOf(d: Delta, g: nat)
    requires g < DELTA_LENGTH
    ensures d[g] == d[g..g + 1][0]
  {
  }

  lemma RecordedFlag(delta: Delta, t: nat, s: nat, buf: Sector, t2: nat, s2: nat)
    requires t < CYLINDERS * HEADS && s < SECTORS && |buf| <= MAX_SEC_SIZE && t2 < CYLINDERS * HEADS && s2 < SECTORS
    ensures var d := Recorded(delta, t, s, buf);
            Dirty(d, t2, s2) == ((t == t2 && s == s2) || Dirty(delta, t2, s2))
  {
    var f, g := DirtyOff(t, s), DirtyOff(t2, s2);
    assert t == t2 && s == s2 <==> f == g;
    var d1 := Overlay(delta, f, [1]);
    var d := Overlay(d1, DeltaOff(t, s), buf);
    OverlayAt(delta, f, [1], g, 1);
    OverlayAt(d1, DeltaOff(t, s), buf, g, 1);
    ByteOf(d, g);
    ByteOf(d1, g);
    ByteOf(delta, g);
  }

  lemma RecordedSlot(delta: Delta, t: nat, s: nat, buf: Sector, t2: nat, s2: nat, n: nat)
    requires t < CYLINDERS * HEADS && s < SECTORS && |buf| <= MAX_SEC_SIZE
    requires t2 < CYLINDERS * HEADS && s2 < SECTORS && n <= MAX_SEC_SIZE
    ensures var d := Recorded(delta, t, s, buf);
            if t == t2 && s == s2 then SlotOf(d, t, s, |buf|) == buf else SlotOf(d, t2, s2, n) == SlotOf(delta, t2, s2,
                                              n)
  {
    assert t == t2 && s == s2 <==> DirtyOff(t, s) == DirtyOff(t2, s2);
    var d1 := Overlay(delta, DirtyOff(t, s), [1]);
    OverlayAt(delta, DirtyOff(t, s), [1], DeltaOff(t2, s2), n);
    OverlayAt(d1, DeltaOff(t, s), buf, DeltaOff(t2, s2), n);
    hide Overlay;
  }

  /** What a write does to flags and slots. */
  lemma RecordedAt(delta: Delta, t: nat, s: nat, buf: Sector, t2: nat, s2: nat, n: nat)
    requires t < CYLINDERS * HEADS && s < SECTORS && |buf| <= MAX_SEC_SIZE
    requires t2 < CYLINDERS * HEADS && s2 < SECTORS && n <= MAX_SEC_SIZE
    ensures var d := Recorded(delta, t, s, buf);
            if t == t2 && s == s2 then Dirty(d, t, s) && SlotOf(d, t, s, |buf|) == buf
            else Dirty(d, t2, s2) == Dirty(delta, t2, s2) && SlotOf(d, t2, s2, n) == SlotOf(delta, t2, s2, n)
  {
    RecordedFlag(delta, t, s, buf, t2, s2);
    RecordedSlot(delta, t, s, buf, t2, s2, n);
  }

  /** A write keeps image and delta coherent. */
  lemma WriteKeeps(base: Tracks, mem: Tracks, delta: Delta, t: nat, s: nat, buf: Sector)
    requires Coherent(base, mem, delta) && t in mem && s < |mem[t].data| && |buf| == mem[t].secsize
    ensures t < CYLINDERS * HEADS && s < SECTORS && |buf| <= MAX_SEC_SIZE
    ensures Coherent(base, Stored(mem, t, s, buf), Recorded(delta, t, s, buf))
  {
    assert Conforms(t, mem[t]);
    var mem2, delta2 := Stored(mem, t, s, buf), Recorded(delta, t, s, buf);
    hide Recorded, Dirty, SlotOf;
    forall u | u in mem2
      ensures Conforms(u, mem2[u]) && mem2[u].secsize == base[u].secsize && mem2[u].secmap == base[u].secmap
              && Conforms(u, base[u])
    {
      assert Conforms(u, mem[u]) && Conforms(u, base[u]);
    }
    assert SameFormat(base, mem2);
    forall u, v | u in mem2 && 0 <= v < |mem2[u].data| ensures SectorOk(base, mem2, delta2, u, v) {
      assert Conforms(u, mem[u]);
      RecordedAt(delta, t, s, buf, u, v, base[u].secsize);
      if u != t || v != s { assert SectorOk(base, mem, delta, u, v); }
    }
    forall u, v | 0 <= u < CYLINDERS * HEADS && 0 <= v < SECTORS && Dirty(delta2, u, v)
      ensures u in mem2 && v < |mem2[u].data|
    {
      RecordedAt(delta, t, s, buf, u, v, 0);
    }
  }

  // ----- loading -----

  /** Memory while the delta is read in: the sectors before `n` are overlaid. */
  ghost predicate Overlaid(base: Tracks, mem: Tracks, delta: Delta, n: nat, t: nat, s: nat)
    requires SameFormat(base, mem) && t in mem && s < |mem[t].data|
  {
    mem[t].data[s] == if DirtyOff(t, s) < n && Dirty(delta, t, s) then Some(SlotOf(delta, t, s, base[t].secsize))
                      else base[t].data[s]
  }

  ghost predicate LoadedTo(base: Tracks, mem: Tracks, delta: Delta, n: nat) {
    && SameFormat(base, mem)
    && forall t, s {:trigger Overlaid(base, mem, delta, n, t, s)} ::
         t in mem && 0 <= s < |mem[t].data| ==> Overlaid(base, mem, delta, n, t, s)
  }

  /** Every flag set is that of a sector of the image. */
  ghost predicate FlagsExist(base: Tracks, delta: Delta) {
    forall t, s {:trigger Dirty(delta, t, s)} ::
      0 <= t < CYLINDERS * HEADS && 0 <= s < SECTORS && Dirty(delta, t, s) ==> t in base && s < |base[t].data|
  }

  lemma LoadNext(base: Tracks, mem: Tracks, delta: Delta, t: nat, s: nat)
    requires LoadedTo(base, mem, delta, DirtyOff(t, s)) && FlagsExist(base, delta) && t < CYLINDERS * HEADS
    requires s < SECTORS
    ensures Dirty(delta, t, s) ==> t in mem && s < |mem[t].data| && mem[t].secsize <= MAX_SEC_SIZE
    ensures var mem2 := if Dirty(delta, t, s) then Stored(mem, t, s, SlotOf(delta, t, s, mem[t].secsize)) else mem;
            LoadedTo(base, mem2, delta, DirtyOff(t, s) + 1)
  {
    if Dirty(delta, t, s) {
      assert Conforms(t, mem[t]) && Conforms(t, base[t]);
    }
    hide Dirty, SlotOf;
    var mem2 := if Dirty(delta, t, s) then Stored(mem, t, s, SlotOf(delta, t, s, mem[t].secsize)) else mem;
    forall u | u in mem2
      ensures Conforms(u, mem2[u]) && mem2[u].secsize == base[u].secsize && mem2[u].secmap == base[u].secmap
              && Conforms(u, base[u])
    {
      assert Conforms(u, mem[u]) && Conforms(u, base[u]);
      if u == t && Dirty(delta, t, s) { SlotLength(delta, t, s, mem[t].secsize); }
    }
    assert SameFormat(base, mem2);
    var n2 := DirtyOff(t, s) + 1;
    forall u, v | u in mem2 && 0 <= v < |mem2[u].data| ensures Overlaid(base, mem2, delta, n2, u, v) {
      assert Conforms(u, mem[u]);
      assert Overlaid(base, mem, delta, DirtyOff(t, s), u, v);
      assert DirtyOff(u, v) == DirtyOff(t, s) <==> u == t && v == s;
    }
  }

  lemma SlotLength(delta: Delta, t: nat, s: nat, n: nat)
    requires t < CYLINDERS * HEADS && s < SECTORS && n <= MAX_SEC_SIZE
    ensures |SlotOf(delta, t, s, n)| == n
  {
  }

  lemma LoadStart(base: Tracks, delta: Delta)
    requires SameFormat(base, base)
    ensures LoadedTo(base, base, delta, 0)
  {
  }

  lemma LoadDone(base: Tracks, mem: Tracks, delta: Delta)
    requires LoadedTo(base, mem, delta, MAP_SIZE) && FlagsExist(base, delta)
    ensures Coherent(base, mem, delta)
  {
    forall t, s | t in mem && 0 <= s < |mem[t].data| ensures SectorOk(base, mem, delta, t, s) {
      assert Conforms(t, mem[t]);
      assert Overlaid(base, mem, delta, MAP_SIZE, t, s);
    }
    forall t, s | 0 <= t < CYLINDERS * HEADS && 0 <= s < SECTORS && Dirty(delta, t, s)
      ensures t in mem && s < |mem[t].data|
    {
      assert t in base;
      assert mem[t].secmap == base[t].secmap && Conforms(t, mem[t]);
    }
  }

  /** The tracks an image of this geometry must have. */
  ghost predicate Geometry(mem: Tracks, cyls: nat, heads: nat) {
    && cyls <= CYLINDERS && heads <= HEADS
    && forall c, h {:trigger Trknum(c, h)} ::
         0 <= c < cyls && 0 <= h < heads ==> Trknum(c, h) in mem && |mem[Trknum(c, h)].data| > 0
  }

  lemma SectorIsOk(base: Tracks, mem: Tracks, delta: Delta, t: nat, s: nat)
    requires Coherent(base, mem, delta) && t in mem && s < |mem[t].data|
    ensures SectorOk(base, mem, delta, t, s)
  {
  }

  /** A write that does not reach the file leaves memory ahead of it, unless it changes
      nothing. */
  lemma StrayWrite(base: Tracks, mem: Tracks, delta: Delta, t: nat, s: nat, buf: Sector)
    requires Coherent(base, mem, delta) && t in mem && s < |mem[t].data| && |buf| == mem[t].secsize
    ensures Coherent(base, Stored(mem, t, s, buf), delta) <==> buf == Content(mem[t], s)
  {
    var mem2 := Stored(mem, t, s, buf);
    assert SectorOk(base, mem, delta, t, s) && Conforms(t, mem[t]);
    assert Conforms(t, mem2[t]);
    assert Content(mem2[t], s) == buf;
    if buf == Content(mem[t], s) {
      forall u, v | u in mem2 && 0 <= v < |mem2[u].data| ensures SectorOk(base, mem2, delta, u, v) {
        assert SectorOk(base, mem, delta, u, v);
      }
    } else if Coherent(base, mem2, delta) {
      SectorIsOk(base, mem2, delta, t, s);
    }
  }

  /** Where a write goes in the file. */
  lemma RecordedPlain(delta: Delta, c: nat, h: nat, s: nat, buf: Sector)
    requires c < CYLINDERS && h < HEADS && s < SECTORS && |buf| <= MAX_SEC_SIZE
    ensures var k, d := 64 * c + 32 * h + s, Recorded(delta, Trknum(c, h), s, buf);
            k < 5120 && d[k] == 1 && d[5120 + 1024 * k..][..|buf|] == buf
  {
    var t := Trknum(c, h);
    FileLayout(c, h, s);
    SlotsDisjoint(c, h, s, c, h, s);
    var d1 := Overlay(delta, DirtyOff(t, s), [1]);
    var o := DeltaOff(t, s);
    OverlayAt(delta, DirtyOff(t, s), [1], 0, 0);
    OverlayAt(d1, o, buf, DirtyOff(t, s), 1);
    var d := Overlay(d1, o, buf);
    assert d[o..][..|buf|] == d[o..o + |buf|];
    assert d[DirtyOff(t, s)..DirtyOff(t, s) + 1] == d1[DirtyOff(t, s)..DirtyOff(t, s) + 1] == [1];
    assert d[DirtyOff(t, s)] == d[DirtyOff(t, s)..DirtyOff(t, s) + 1][0];
  }

  /** How the delta file was opened: not at all, for reading only, as one that exists is
      unless writing was asked for, or for writing. */
  datatype Mode = NoFile | ReadOnly | ReadWrite

  /** Without a file there are no flags. */
  function Blank(): (d: Delta)
    ensures forall p :: 0 <= p < DELTA_LENGTH ==> d[p] == 0
  {
    seq(DELTA_LENGTH, _ => 0)
  }

  lemma BlankHasNoFlags(base: Tracks, delta: Delta)
    requires delta == Blank()
    ensures FlagsExist(base, delta)
  {
    forall t, s | 0 <= t < CYLINDERS * HEADS && 0 <= s < SECTORS ensures !Dirty(delta, t, s) {
      assert delta[DirtyOff(t, s)] == 0;
    }
  }

  /** Every sector is what the delta has, if its flag is set, and else what the base has. */
  ghost predicate AsLoaded(base: Tracks, mem: Tracks, delta: Delta) {
    LoadedTo(base, mem, delta, MAP_SIZE)
  }

  class Image {
    var tracks: Tracks
    var delta: Delta
    var cyls: nat
    var heads: nat
    var mode: Mode
    ghost var base: Tracks

    ghost predicate Valid()
      reads this
    {
      Coherent(base, tracks, delta) && Geometry(tracks, cyls, heads) && (mode.NoFile? ==> delta == Blank())
    }

    /** Load the base image and overlay the sectors the delta file marks. */
    constructor (image: Tracks, file: Delta, c: nat, h: nat, m: Mode)
      requires SameFormat(image, image) && Geometry(image, c, h) && (!m.NoFile? ==> FlagsExist(image, file))
      ensures Valid() && base == image && cyls == c && heads == h && mode == m
      ensures delta == (if m.NoFile? then Blank() else file) && AsLoaded(base, tracks, delta)
    {
      tracks, cyls, heads, mode, base := image, c, h, m, image;
      delta := if m.NoFile? then Blank() else file;
      new;
      if m.NoFile? { BlankHasNoFlags(base, delta); }
      hide SameFormat, LoadedTo, FlagsExist, Blank, AsLoaded, Geometry;
      LoadDelta();
      GeometryKept(base, tracks, delta, cyls, heads);
    }

    /** Overlay every sector whose flag is set. */
    method LoadDelta()
      requires tracks == base && SameFormat(base, base) && FlagsExist(base, delta)
      modifies this`tracks
      ensures AsLoaded(base, tracks, delta) && Coherent(base, tracks, delta)
    {
      hide SameFormat, LoadedTo, FlagsExist;
      LoadStart(base, delta);
      for cyl := 0 to CYLINDERS
        invariant LoadedTo(base, tracks, delta, DirtyOff(Trknum(cyl, 0), 0))
      {
        for head := 0 to HEADS
          invariant LoadedTo(base, tracks, delta, DirtyOff(Trknum(cyl, head), 0))
        {
          for sec := 0 to SECTORS
            invariant LoadedTo(base, tracks, delta, DirtyOff(Trknum(cyl, head), sec))
          {
            var t := Trknum(cyl, head);
            LoadNext(base, tracks, delta, t, sec);
            if Dirty(delta, t, sec) {
              tracks := Stored(tracks, t, sec, SlotOf(delta, t, sec, tracks[t].secsize));
            }
          }
        }
      }
      LoadDone(base, tracks, delta);
    }

    /** Loading the base image with the current delta file gives the contents in memory,
        whatever was written and read before. */
    method Reopen(image: Tracks) returns (again: Image)
      requires Valid() && image == base && SameFormat(base, base)
      ensures again.Valid() && fresh(again) && again.tracks.Keys == tracks.Keys
      ensures again.base == base && again.delta == delta && again.cyls == cyls && again.heads == heads
      ensures again.mode == mode && AsLoaded(base, again.tracks, delta)
      ensures forall t :: t in tracks ==> |again.tracks[t].data| == |tracks[t].data|
      ensures forall t, s :: t in tracks && 0 <= s < |tracks[t].data| ==>
                s < |again.tracks[t].data| && Content(again.tracks[t], s) == Content(tracks[t], s)
    {
      FlagsOf(base, tracks, delta);
      GeometryBack(base, tracks, delta, cyls, heads);
      again := new Image(image, delta, cyls, heads, mode);
      forall t, s | t in tracks && 0 <= s < |tracks[t].data|
        ensures t in again.tracks && s < |again.tracks[t].data| && Content(again.tracks[t], s) == Content(tracks[t], s)
      {
        ReloadAgrees(base, tracks, again.tracks, delta, t, s);
      }
    }

    ghost predicate Fits(f: Format)
      reads this
    {
      && base == f.tracks && SameFormat(base, base) && cyls == f.cyls && heads == f.heads
      && mode == (if f.writable then ReadWrite else NoFile)
    }

    /** One operation of a run. */
    method Perform(f: Format, op: Op, ghost st: Store) returns (out: Sector)
      requires Valid() && Fits(f) && Shows(tracks, st)
      modifies this`tracks, this`delta
      ensures Valid() && Fits(f) && Shows(tracks, Next(f, st, op)) && out == Answer(f, st, op)
    {
      hide Coherent, Shows, Geometry, PlaceOf, Content;
      out := [];
      match op {
        case DoWrite(cyl, head, osec, buf) =>
          if cyl < cyls && head < heads && mode.ReadWrite? {
            var t := Trknum(cyl, head);
            AtFormat(base, tracks, delta, cyls, heads, cyl, head);
            if |buf| == tracks[t].secsize {
              var n, s := Write(cyl, head, osec, buf);
              PlacesIsPlaceOf(f.tracks[t].secmap, osec, s);
              StoredShows(f, old(tracks), st, cyl, head, osec, s, buf);
            }
          }
        case DoRead(cyl, head, osec) =>
          if cyl < cyls && head < heads {
            AtFormat(base, tracks, delta, cyls, heads, cyl, head);
            ghost var s;
            out, s := Read(cyl, head, osec);
            PlacesIsPlaceOf(f.tracks[Trknum(cyl, head)].secmap, osec, s);
            FilledShows(old(tracks), st, Trknum(cyl, head), s);
            ShowsAt(old(tracks), st, Trknum(cyl, head), s);
          }
        case DoReopen =>
          Reload(f.tracks, st);
      }
    }

    /** The image is closed and loaded again from its file and the delta file. */
    method Reload(image: Tracks, ghost st: Store)
      requires Valid() && image == base && SameFormat(base, base) && Shows(tracks, st)
      modifies this`tracks
      ensures Valid() && Shows(tracks, st) && AsLoaded(base, tracks, delta)
    {
      var again := Reopen(image);
      ReloadShows(tracks, again.tracks, st);
      tracks := again.tracks;
    }

    /** Over any run of writes, reads and reopenings, a read returns what was last written
        to that sector, or what the image held there. */
    method Run(f: Format, ops: seq<Op>, ghost st: Store) returns (out: seq<Sector>)
      requires Valid() && Fits(f) && Shows(tracks, st)
      modifies this`tracks, this`delta
      ensures Valid() && Fits(f) && Shows(tracks, After(f, st, ops)) && |out| == |ops|
      ensures forall k :: 0 <= k < |ops| ==> out[k] == Answer(f, After(f, st, ops[..k]), ops[k])
      ensures forall k :: 0 <= k < |ops| && FirstRead(f, ops, k) ==> AsFound(old(tracks), f, ops[k], out[k])
      ensures forall j, k :: 0 <= j < k < |ops| && ReadsBack(f, ops, j, k) ==> ops[j].DoWrite? && out[k] == ops[j].buf
    {
      hide Coherent, Shows, Geometry, Answer, Next, SameFormat, FirstRead, AsFound, ReadsBack;
      ghost var mem0 := tracks;
      assert SameTracks(mem0, f) by { TracksOfFormat(base, tracks, delta, f); }
      out := [];
      for k := 0 to |ops|
        invariant Valid() && Fits(f) && Shows(tracks, After(f, st, ops[..k])) && |out| == k
        invariant forall j :: 0 <= j < k ==> out[j] == Answer(f, After(f, st, ops[..j]), ops[j])
      {
        var r := Perform(f, ops[k], After(f, st, ops[..k]));
        assert ops[..k + 1][..k] == ops[..k];
        out := out + [r];
      }
      assert ops[..|ops|] == ops;
      forall k | 0 <= k < |ops| && FirstRead(f, ops, k) ensures AsFound(mem0, f, ops[k], out[k]) {
        FirstReadIsAsFound(f, mem0, st, ops, k);
      }
      forall j, k | 0 <= j < k < |ops| && ReadsBack(f, ops, j, k) ensures ops[j].DoWrite? && out[k] == ops[j].buf {
        LastWriteIsRead(f, st, ops, j, k);
      }
    }

    /** The index of a sector number: the last match, or 0 when there is none. */
    static method TranslateSector(t: Track, sec: int) returns (i: nat)
      ensures (exists k :: 0 <= k < |t.secmap| && t.secmap[k] == sec) ==>
                i < |t.secmap| && t.secmap[i] == sec && forall k :: i < k < |t.secmap| ==> t.secmap[k] != sec
      ensures (forall k :: 0 <= k < |t.secmap| ==> t.secmap[k] != sec) ==> i == 0
    {
      var mysec := -1;
      for k := 0 to |t.secmap|
        invariant -1 <= mysec < k
        invariant mysec >= 0 ==> t.secmap[mysec] == sec
        invariant forall j :: mysec < j < k ==> t.secmap[j] != sec
      {
        if t.secmap[k] == sec {
          mysec := k;
        }
      }
      i := if mysec == -1 then 0 else mysec;
    }

    /** Write a sector to memory and to the delta file. */
    method Write(cyl: nat, head: nat, osec: int, buf: Sector) returns (n: nat, ghost s: nat)
      requires Valid() && (cyl < cyls && head < heads ==> |buf| == tracks[Trknum(cyl, head)].secsize)
      modifies this`tracks, this`delta
      ensures !(cyl < cyls && head < heads) || mode.NoFile? ==>
                Valid() && n == 0 && tracks == old(tracks) && delta == old(delta)
      ensures cyl < cyls && head < heads && !mode.NoFile? ==>
                var t := Trknum(cyl, head);
                && n == |buf| && t in old(tracks) && s < |old(tracks)[t].data| && Places(old(tracks)[t], osec, s)
                && tracks == Stored(old(tracks), t, s, buf)
                && delta == (if mode.ReadWrite? then Recorded(old(delta), t, s, buf) else old(delta))
                && (Valid() <==> mode.ReadWrite? || buf == Content(old(tracks)[t], s))
      ensures cyl < cyls && head < heads && mode.ReadWrite? ==>
                && delta[64 * cyl + 32 * head + s] == 1
                && delta[5120 + 1024 * (64 * cyl + 32 * head + s)..][..|buf|] == buf
    {
      hide Coherent, Blank;
      n, s := 0, 0;
      if cyl >= cyls || head >= heads || mode.NoFile? {
        return;
      }
      var t := Trknum(cyl, head);
      var i := TranslateSector(tracks[t], osec);
      s := i;
      SameData(base, tracks, delta, t);
      WriteKeeps(base, tracks, delta, t, i, buf);
      RecordedPlain(delta, cyl, head, i, buf);
      StrayWrite(base, tracks, delta, t, i, buf);
      tracks := Stored(tracks, t, i, buf);
      if mode.ReadWrite? {
        delta := Recorded(delta, t, i, buf);
      }
      n := |buf|;
    }

    /** Read a sector; one absent from the image becomes zeros in memory. */
    method Read(cyl: nat, head: nat, osec: int) returns (buf: Sector, ghost s: nat)
      requires Valid()
      modifies this`tracks
      ensures Valid() && delta == old(delta)
      ensures !(cyl < cyls && head < heads) ==> buf == [] && tracks == old(tracks)
      ensures cyl < cyls && head < heads ==>
                var t := Trknum(cyl, head);
                && t in old(tracks) && s < |old(tracks)[t].data| && Places(old(tracks)[t], osec, s)
                && buf == Content(old(tracks)[t], s) && tracks == Stored(old(tracks), t, s, buf)
                && (if old(tracks)[t].data[s].Some? then buf == old(tracks)[t].data[s].value
                    else |buf| == old(tracks)[t].secsize && forall i :: 0 <= i < |buf| ==> buf[i] == 0)
    {
      hide Coherent;
      buf, s := [], 0;
      if cyl >= cyls || head >= heads {
        return;
      }
      var t := Trknum(cyl, head);
      var i := TranslateSector(tracks[t], osec);
      s := i;
      SameData(base, tracks, delta, t);
      AbsentIsZeros(tracks[t], i);
      buf := Content(tracks[t], i);
      FillKeeps(base, tracks, delta, t, i);
      tracks := Stored(tracks, t, i, buf);
    }
  }

  // ----- whole runs -----

  /** What each sector of each track holds. */
  type Store = (nat, nat) -> Sector

  datatype Op =
    | DoWrite(cyl: nat, head: nat, osec: int, buf: Sector)
    | DoRead(cyl: nat, head: nat, osec: int)
    | DoReopen

  /** Where a sector number goes: its last place in the map, or 0. */
  function PlaceOf(secmap: seq<Byte>, osec: int): nat {
    if secmap == [] then 0
    else if secmap[|secmap| - 1] == osec then |secmap| - 1
    else PlaceOf(secmap[..|secmap| - 1], osec)
  }

  lemma {:induction false} PlacesIsPlaceOf(secmap: seq<Byte>, osec: int, s: nat)
    requires if osec in secmap
             then s < |secmap| && secmap[s] == osec && forall k :: s < k < |secmap| ==> secmap[k] != osec
             else s == 0
    ensures s == PlaceOf(secmap, osec)
    decreases |secmap|
  {
    if secmap != [] && secmap[|secmap| - 1] != osec {
      var shorter := secmap[..|secmap| - 1];
      assert osec in shorter <==> osec in secmap by { assert secmap == shorter + [secmap[|secmap| - 1]]; }
      PlacesIsPlaceOf(shorter, osec, s);
    }
  }

  /** The image's geometry, which no operation changes. */
  datatype Format = Format(tracks: Tracks, cyls: nat, heads: nat, writable: bool)

  predicate Reaches(f: Format, cyl: nat, head: nat) {
    cyl < f.cyls && head < f.heads && Trknum(cyl, head) in f.tracks
  }

  /** The store after an operation: only a write in range and of the right size on a
      writable image changes it. */
  function Next(f: Format, st: Store, op: Op): Store {
    match op
    case DoWrite(cyl, head, osec, buf) =>
      if Reaches(f, cyl, head) && f.writable && |buf| == f.tracks[Trknum(cyl, head)].secsize then
        var t, s := Trknum(cyl, head), PlaceOf(f.tracks[Trknum(cyl, head)].secmap, osec);
        (u: nat, v: nat) => if u == t && v == s then buf else st(u, v)
      else st
    case DoRead(_, _, _) => st
    case DoReopen => st
  }

  function After(f: Format, st: Store, ops: seq<Op>): Store {
    if ops == [] then st else Next(f, After(f, st, ops[..|ops| - 1]), ops[|ops| - 1])
  }

  /** What an operation returns. */
  function Answer(f: Format, st: Store, op: Op): Sector {
    if op.DoRead? && Reaches(f, op.cyl, op.head)
    then st(Trknum(op.cyl, op.head), PlaceOf(f.tracks[Trknum(op.cyl, op.head)].secmap, op.osec))
    else []
  }

  /** The operation writes place `s` of track `t`. */
  predicate WritesTo(f: Format, op: Op, t: nat, s: nat) {
    && op.DoWrite? && Reaches(f, op.cyl, op.head) && f.writable && |op.buf| == f.tracks[Trknum(op.cyl, op.head)].secsize
    && t == Trknum(op.cyl, op.head) && s == PlaceOf(f.tracks[t].secmap, op.osec)
  }

  predicate ReadsFrom(f: Format, op: Op, t: nat, s: nat) {
    && op.DoRead? && Reaches(f, op.cyl, op.head)
    && t == Trknum(op.cyl, op.head) && s == PlaceOf(f.tracks[t].secmap, op.osec)
  }

  /** The k-th operation reads a sector no earlier one has written. */
  ghost predicate FirstRead(f: Format, ops: seq<Op>, k: nat)
    requires k < |ops|
  {
    exists t: nat, s: nat :: ReadsFrom(f, ops[k], t, s) && forall j :: 0 <= j < k ==> !WritesTo(f, ops[j], t, s)
  }

  /** The k-th operation reads the sector that the j-th was the last to write. */
  ghost predicate ReadsBack(f: Format, ops: seq<Op>, j: nat, k: nat)
    requires j < k < |ops|
  {
    exists t: nat, s: nat :: ReadsFrom(f, ops[k], t, s) && WritesTo(f, ops[j], t, s)
                             && forall i :: j < i < k ==> !WritesTo(f, ops[i], t, s)
  }

  /** The read returned what the image held: the sector's bytes, or as many zeros. */
  ghost predicate AsFound(mem: Tracks, f: Format, op: Op, out: Sector) {
    forall t: nat, s: nat {:trigger ReadsFrom(f, op, t, s)} :: ReadsFrom(f, op, t, s) ==>
      && t in mem && s < |mem[t].data|
      && (if mem[t].data[s].Some? then out == mem[t].data[s].value
          else |out| == mem[t].secsize && forall i :: 0 <= i < |out| ==> out[i] == 0)
  }

  /** Memory has the tracks of the format. */
  ghost predicate SameTracks(mem: Tracks, f: Format) {
    forall c: nat, h: nat {:trigger Reaches(f, c, h)} :: Reaches(f, c, h) ==>
      && Trknum(c, h) in mem && 0 < |mem[Trknum(c, h)].data| == |f.tracks[Trknum(c, h)].secmap|
  }

  lemma TracksOfFormat(base: Tracks, mem: Tracks, delta: Delta, f: Format)
    requires Coherent(base, mem, delta) && Geometry(mem, f.cyls, f.heads) && base == f.tracks
    ensures SameTracks(mem, f)
  {
    forall c: nat, h: nat | Reaches(f, c, h)
      ensures Trknum(c, h) in mem && 0 < |mem[Trknum(c, h)].data| == |f.tracks[Trknum(c, h)].secmap|
    {
      assert Conforms(Trknum(c, h), mem[Trknum(c, h)]);
    }
  }

  lemma {:induction false} PlaceInside(secmap: seq<Byte>, osec: int)
    requires secmap != []
    ensures PlaceOf(secmap, osec) < |secmap|
    decreases |secmap|
  {
    if |secmap| > 1 && secmap[|secmap| - 1] != osec { PlaceInside(secmap[..|secmap| - 1], osec); }
  }

  lemma {:induction false} Unwritten(f: Format, st: Store, ops: seq<Op>, t: nat, s: nat)
    requires forall j :: 0 <= j < |ops| ==> !WritesTo(f, ops[j], t, s)
    ensures After(f, st, ops)(t, s) == st(t, s)
    decreases |ops|
  {
    if ops != [] {
      var init := ops[..|ops| - 1];
      assert forall j :: 0 <= j < |init| ==> init[j] == ops[j];
      Unwritten(f, st, init, t, s);
    }
  }

  lemma {:induction false} LastWritten(f: Format, st: Store, ops: seq<Op>, j: nat, t: nat, s: nat)
    requires j < |ops| && WritesTo(f, ops[j], t, s) && forall i :: j < i < |ops| ==> !WritesTo(f, ops[i], t, s)
    ensures After(f, st, ops)(t, s) == ops[j].buf
    decreases |ops|
  {
    var init := ops[..|ops| - 1];
    if j < |ops| - 1 {
      assert forall i :: 0 <= i < |init| ==> init[i] == ops[i];
      LastWritten(f, st, init, j, t, s);
    }
  }

  lemma FirstReadIsAsFound(f: Format, mem: Tracks, st: Store, ops: seq<Op>, k: nat)
    requires k < |ops| && FirstRead(f, ops, k) && Shows(mem, st) && SameTracks(mem, f)
    ensures AsFound(mem, f, ops[k], Answer(f, After(f, st, ops[..k]), ops[k]))
  {
    var t: nat, s: nat :| ReadsFrom(f, ops[k], t, s) && forall j :: 0 <= j < k ==> !WritesTo(f, ops[j], t, s);
    hide After, PlaceOf;
    Unwritten(f, st, ops[..k], t, s);
    PlaceInside(f.tracks[t].secmap, ops[k].osec);
    assert Reaches(f, ops[k].cyl, ops[k].head);
    ShowsAt(mem, st, t, s);
    AbsentIsZeros(mem[t], s);
  }

  lemma LastWriteIsRead(f: Format, st: Store, ops: seq<Op>, j: nat, k: nat)
    requires j < k < |ops| && ReadsBack(f, ops, j, k)
    ensures ops[j].DoWrite? && Answer(f, After(f, st, ops[..k]), ops[k]) == ops[j].buf
  {
    var t: nat, s: nat :| ReadsFrom(f, ops[k], t, s) && WritesTo(f, ops[j], t, s)
                          && forall i :: j < i < k ==> !WritesTo(f, ops[i], t, s);
    LastWritten(f, st, ops[..k], j, t, s);
  }

  ghost predicate Shows(tracks: Tracks, st: Store) {
    forall t, s {:trigger Content(tracks[t], s)} ::
      t in tracks && 0 <= s < |tracks[t].data| ==> Content(tracks[t], s) == st(t, s)
  }

  lemma StoredShows(f: Format, mem: Tracks, st: Store, cyl: nat, head: nat, osec: int, s: nat, buf: Sector)
    requires Reaches(f, cyl, head) && f.writable && |buf| == f.tracks[Trknum(cyl, head)].secsize
    requires Shows(mem, st) && Trknum(cyl, head) in mem && s < |mem[Trknum(cyl, head)].data|
    requires s == PlaceOf(f.tracks[Trknum(cyl, head)].secmap, osec)
    ensures Shows(Stored(mem, Trknum(cyl, head), s, buf), Next(f, st, DoWrite(cyl, head, osec, buf)))
  {
    var t := Trknum(cyl, head);
    var mem2 := Stored(mem, t, s, buf);
    forall u, v | u in mem2 && 0 <= v < |mem2[u].data|
      ensures Content(mem2[u], v) == Next(f, st, DoWrite(cyl, head, osec, buf))(u, v)
    {
      if u != t || v != s { assert Content(mem[u], v) == st(u, v); }
    }
  }

  lemma FilledShows(mem: Tracks, st: Store, t: nat, s: nat)
    requires Shows(mem, st) && t in mem && s < |mem[t].data|
    ensures Shows(Stored(mem, t, s, Content(mem[t], s)), st)
  {
    var mem2 := Stored(mem, t, s, Content(mem[t], s));
    forall u, v | u in mem2 && 0 <= v < |mem2[u].data| ensures Content(mem2[u], v) == st(u, v) {
      assert Content(mem[u], v) == st(u, v);
    }
  }

  lemma ReloadShows(tracks: Tracks, tracks2: Tracks, st: Store)
    requires Shows(tracks, st) && tracks2.Keys == tracks.Keys
    requires forall t :: t in tracks ==> |tracks2[t].data| == |tracks[t].data|
    requires forall t, s ::
               t in tracks && 0 <= s < |tracks[t].data| && s < |tracks2[t].data| ==>
                 Content(tracks2[t], s) == Content(tracks[t], s)
    ensures Shows(tracks2, st)
  {
  }

  /** `s` is where sector number `osec` goes: the last place of that number, or 0. */
  ghost predicate Places(t: Track, osec: int, s: nat) {
    if osec in t.secmap then
      s < |t.secmap| && t.secmap[s] == osec && forall k :: s < k < |t.secmap| ==> t.secmap[k] != osec
    else s == 0
  }

  lemma SameData(base: Tracks, mem: Tracks, delta: Delta, t: nat)
    requires Coherent(base, mem, delta) && t in mem
    ensures |mem[t].data| == |mem[t].secmap|
  {
    assert Conforms(t, mem[t]);
  }

  lemma AtFormat(base: Tracks, mem: Tracks, delta: Delta, cyls: nat, heads: nat, c: nat, h: nat)
    requires Coherent(base, mem, delta) && Geometry(mem, cyls, heads) && c < cyls && h < heads
    ensures var t := Trknum(c, h);
            && t in mem && t in base && mem[t].secsize == base[t].secsize
            && mem[t].secmap == base[t].secmap && |mem[t].data| == |mem[t].secmap|
  {
    var t := Trknum(c, h);
    assert t in mem;
    assert Conforms(t, mem[t]);
  }

  lemma ShowsAt(tracks: Tracks, st: Store, t: nat, s: nat)
    requires Shows(tracks, st) && t in tracks && s < |tracks[t].data|
    ensures Content(tracks[t], s) == st(t, s)
  {
  }

  lemma GeometryKept(base: Tracks, mem: Tracks, delta: Delta, cyls: nat, heads: nat)
    requires Coherent(base, mem, delta) && Geometry(base, cyls, heads)
    ensures Geometry(mem, cyls, heads)
  {
    forall c, h | 0 <= c < cyls && 0 <= h < heads ensures Trknum(c, h) in mem && |mem[Trknum(c, h)].data| > 0 {
      var t := Trknum(c, h);
      assert t in base;
      assert mem[t].secmap == base[t].secmap && Conforms(t, mem[t]) && Conforms(t, base[t]);
    }
  }

  lemma GeometryBack(base: Tracks, mem: Tracks, delta: Delta, cyls: nat, heads: nat)
    requires Coherent(base, mem, delta) && Geometry(mem, cyls, heads)
    ensures Geometry(base, cyls, heads)
  {
    forall c, h | 0 <= c < cyls && 0 <= h < heads ensures Trknum(c, h) in base && |base[Trknum(c, h)].data| > 0 {
      var t := Trknum(c, h);
      assert t in mem;
      assert mem[t].secmap == base[t].secmap && Conforms(t, mem[t]) && Conforms(t, base[t]);
    }
  }

  lemma FlagsOf(base: Tracks, mem: Tracks, delta: Delta)
    requires Coherent(base, mem, delta)
    ensures FlagsExist(base, delta)
  {
    forall t, s | 0 <= t < CYLINDERS * HEADS && 0 <= s < SECTORS && Dirty(delta, t, s)
      ensures t in base && s < |base[t].data|
    {
      assert t in mem;
      assert mem[t].secmap == base[t].secmap && Conforms(t, mem[t]) && Conforms(t, base[t]);
    }
  }

  /** Turning an absent sector into zeros changes no contents. */
  lemma FillKeeps(base: Tracks, mem: Tracks, delta: Delta, t: nat, s: nat)
    requires Coherent(base, mem, delta) && t in mem && s < |mem[t].data|
    ensures Coherent(base, Stored(mem, t, s, Content(mem[t], s)), delta)
  {
    var mem2 := Stored(mem, t, s, Content(mem[t], s));
    hide Dirty, SlotOf;
    assert Conforms(t, mem[t]);
    forall u | u in mem2
      ensures Conforms(u, mem2[u]) && mem2[u].secsize == base[u].secsize && mem2[u].secmap == base[u].secmap
              && Conforms(u, base[u])
    {
      assert Conforms(u, mem[u]) && Conforms(u, base[u]);
    }
    assert SameFormat(base, mem2);
    forall u, v | u in mem2 && 0 <= v < |mem2[u].data| ensures SectorOk(base, mem2, delta, u, v) {
      assert SectorOk(base, mem, delta, u, v);
    }
  }
}
