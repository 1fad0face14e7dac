/** CP/M files as the library sees them: 128-byte records written and read at random,
    presented as bytes at a read/write position. */
module CpmFile {
  import opened Common

  const SEC_SIZE := 128
  const ETX: Byte := 0x1A

  type Record = r: seq<Byte> | |r| == SEC_SIZE witness seq(SEC_SIZE, _ => 0)

  type Records = map<nat, Record>

  /** The byte at a position, if its record exists. */
  function ByteAt(recs: Records, p: nat): Option<Byte> {
    if p / 128 in recs then Some(recs[p / 128][p % 128]) else None
  }

  /** Record `n` holds one of the `k` bytes from `start`. */
  predicate Touches(start: nat, k: nat, n: nat) {
    k > 0 && start / 128 <= n <= (start + k - 1) / 128
  }

  /** What a position holds after the first `k` bytes of `buf` are stored at `start`. */
  function Expected(recs: Records, start: nat, buf: seq<Byte>, k: nat, p: nat): Option<Byte>
    requires k <= |buf|
  {
    if start <= p < start + k then Some(buf[p - start])
    else if p / 128 in recs then ByteAt(recs, p)
    else if Touches(start, k, p / 128) then Some(0x1A)
    else None
  }

  /** How many records hold the `k` bytes from `start`. */
  function Spans(start: nat, k: nat): nat {
    if k == 0 then 0 else (start + k - 1) / 128 - start / 128 + 1
  }

  ghost predicate StoredAt(recs0: Records, recs: Records, start: nat, buf: seq<Byte>, k: nat, p: nat)
    requires k <= |buf|
  {
    ByteAt(recs, p) == Expected(recs0, start, buf, k, p)
  }

  /** Exactly `k` bytes are stored; a record made for them is padded with ^Z. */
  ghost predicate Stored(recs0: Records, recs: Records, start: nat, buf: seq<Byte>, k: nat)
    requires k <= |buf|
  {
    && (forall p: nat {:trigger StoredAt(recs0, recs, start, buf, k, p)} :: StoredAt(recs0, recs, start, buf, k, p))
    && (forall n: nat {:trigger n in recs} :: n in recs <==> n in recs0 || Touches(start, k, n))
  }

  /** The record as read, or fresh padding, with part of it replaced. */
  function Patched(recs: Records, n: nat, offs: nat, data: seq<Byte>): Record
    requires offs + |data| <= SEC_SIZE
  {
    var r: seq<Byte> := if n in recs then recs[n] else seq(SEC_SIZE, _ => ETX);
    r[..offs] + data + r[offs + |data|..]
  }

  lemma StoreNothing(recs: Records, start: nat, buf: seq<Byte>)
    ensures Stored(recs, recs, start, buf, 0)
  {
  }

  /** Storing the next piece, which lies within one record. */
  lemma StorePiece(recs0: Records, recs: Records, start: nat, buf: seq<Byte>, k: nat, size: nat)
    requires k + size <= |buf| && size > 0 && Stored(recs0, recs, start, buf, k)
    requires (start + k) % SEC_SIZE + size <= SEC_SIZE && (k > 0 ==> (start + k) % SEC_SIZE == 0)
    ensures var n, offs := (start + k) / SEC_SIZE, (start + k) % SEC_SIZE;
            Stored(recs0, recs[n := Patched(recs, n, offs, buf[k..k + size])], start, buf, k + size)
  {
    var n, offs := (start + k) / SEC_SIZE, (start + k) % SEC_SIZE;
    var recs2 := recs[n := Patched(recs, n, offs, buf[k..k + size])];
    assert (start + k + size - 1) / SEC_SIZE == n;
    forall m: nat ensures m in recs2 <==> m in recs0 || Touches(start, k + size, m) {
      assert m in recs <==> m in recs0 || Touches(start, k, m);
      assert Touches(start, k + size, m) <==> Touches(start, k, m) || m == n;
    }
    var k2 := k + size;
    forall p: nat ensures StoredAt(recs0, recs2, start, buf, k2, p) {
      assert StoredAt(recs0, recs, start, buf, k, p);
      PieceAt(recs0, recs, start, buf, k, size, p);
    }
  }

  lemma PieceAt(recs0: Records, recs: Records, start: nat, buf: seq<Byte>, k: nat, size: nat, p: nat)
    requires k + size <= |buf| && size > 0
    requires (start + k) % SEC_SIZE + size <= SEC_SIZE && (k > 0 ==> (start + k) % SEC_SIZE == 0)
    requires StoredAt(recs0, recs, start, buf, k, p)
    requires forall n: nat :: n in recs <==> n in recs0 || Touches(start, k, n)
    ensures var n, offs := (start + k) / SEC_SIZE, (start + k) % SEC_SIZE;
            StoredAt(recs0, recs[n := Patched(recs, n, offs, buf[k..k + size])], start, buf, k + size, p)
  {
    var n, offs := (start + k) / SEC_SIZE, (start + k) % SEC_SIZE;
    assert start + k == SEC_SIZE * n + offs;
    assert p == SEC_SIZE * (p / SEC_SIZE) + p % SEC_SIZE;
    assert n in recs <==> n in recs0 || Touches(start, k, n);
    if p / SEC_SIZE == n {
      var r := Patched(recs, n, offs, buf[k..k + size]);
      assert r[p % SEC_SIZE] ==
             if offs <= p % SEC_SIZE < offs + size then buf[k + (p % SEC_SIZE - offs)]
             else if n in recs then recs[n][p % SEC_SIZE] else ETX;
    }
  }

  lemma StepSizes(start: nat, k: nat, left: nat)
    requires left > 0 && (k > 0 ==> (start + k) % SEC_SIZE == 0)
    ensures var room := SEC_SIZE - (start + k) % SEC_SIZE;
            var size := if room > left then left else room;
            && size > 0 && (start + k) % SEC_SIZE + size <= SEC_SIZE
            && (size < left ==> (start + k + size) % SEC_SIZE == 0)
  {
  }

  /** Each piece lies in the next record. */
  lemma SpansGrow(start: nat, k: nat, size: nat, total: nat)
    requires size > 0 && k + size <= total && (start + k) % SEC_SIZE + size <= SEC_SIZE
    requires (k > 0 ==> (start + k) % SEC_SIZE == 0)
    ensures Spans(start, k + size) == Spans(start, k) + 1 && Spans(start, k) < Spans(start, total)
  {
  }

  // ----- reading -----

  /** The `k` bytes from `start` are all there and are `data`. */
  ghost predicate Holds(recs: Records, start: nat, data: seq<Byte>) {
    forall i {:trigger data[i]} :: 0 <= i < |data| ==> ByteAt(recs, start + i) == Some(data[i])
  }

  lemma ReadPiece(recs: Records, start: nat, data: seq<Byte>, size: nat)
    requires Holds(recs, start, data) && (start + |data|) / SEC_SIZE in recs
    requires (start + |data|) % SEC_SIZE + size <= SEC_SIZE
    ensures var n, offs := (start + |data|) / SEC_SIZE, (start + |data|) % SEC_SIZE;
            Holds(recs, start, data + recs[n][offs..offs + size])
  {
    var n, offs := (start + |data|) / SEC_SIZE, (start + |data|) % SEC_SIZE;
    var data2 := data + recs[n][offs..offs + size];
    forall i | 0 <= i < |data2| ensures ByteAt(recs, start + i) == Some(data2[i]) {
      if i >= |data| {
        assert start + i == SEC_SIZE * n + (offs + i - |data|);
        assert (start + i) / SEC_SIZE == n && (start + i) % SEC_SIZE == offs + i - |data|;
      } else {
        assert data2[i] == data[i];
      }
    }
  }

  /** Bytes just stored are read back. */
  lemma StoredIsHeld(recs0: Records, recs: Records, start: nat, buf: seq<Byte>, k: nat)
    requires k <= |buf| && Stored(recs0, recs, start, buf, k)
    ensures Holds(recs, start, buf[..k])
  {
    forall i | 0 <= i < k ensures ByteAt(recs, start + i) == Some(buf[..k][i]) {
      assert StoredAt(recs0, recs, start, buf, k, start + i);
    }
  }

  lemma HeldOnce(recs: Records, start: nat, a: seq<Byte>, b: seq<Byte>)
    requires Holds(recs, start, a) && Holds(recs, start, b) && |a| == |b|
    ensures a == b
  {
    forall i | 0 <= i < |a| ensures a[i] == b[i] {
      assert ByteAt(recs, start + i) == Some(a[i]);
      assert ByteAt(recs, start + i) == Some(b[i]);
    }
  }

  /** All records from `start` to `start + k - 1` exist. */
  ghost predicate Present(recs: Records, start: nat, k: nat) {
    forall n: nat {:trigger n in recs} :: Touches(start, k, n) ==> n in recs
  }

  lemma HeldPresent(recs: Records, start: nat, data: seq<Byte>)
    requires Holds(recs, start, data)
    ensures Present(recs, start, |data|)
  {
    forall n: nat | Touches(start, |data|, n) ensures n in recs {
      var p := if n * SEC_SIZE >= start then n * SEC_SIZE else start;
      assert ByteAt(recs, start + (p - start)) == Some(data[p - start]);
    }
  }

  lemma HoldsNothing(recs: Records, start: nat)
    ensures Holds(recs, start, [])
  {
  }

  datatype Use = Closed | Reading | Writing | Both

  class File {
    var use: Use
    var recs: Records   // what BDOS keeps on disk
    var rwp: int

    ghost predicate Valid()
      reads this
    {
      rwp >= 0
    }

    constructor (u: Use, r: Records)
      ensures Valid() && use == u && recs == r && rwp == 0
    {
      use, recs, rwp := u, r, 0;
    }

    /** Write: `full(i)` says whether BDOS refuses the i-th record written. */
    method Write(buf: seq<Byte>, full: nat -> bool) returns (count: int)
      requires Valid()
      modifies this`recs, this`rwp
      ensures Valid()
      ensures use.Closed? || use.Reading? ==> count == -1 && recs == old(recs) && rwp == old(rwp)
      ensures use.Writing? || use.Both? ==>
                && 0 <= count <= |buf| && rwp == old(rwp) + count && Stored(old(recs), recs, old(rwp), buf, count)
                && (count < |buf| ==> count == 0 || rwp % SEC_SIZE == 0)
                && (count < |buf| <==> exists i :: 0 <= i < Spans(old(rwp), |buf|) && full(i))
                && (count < |buf| ==> full(Spans(old(rwp), count)))
                && forall i :: 0 <= i < Spans(old(rwp), count) ==> !full(i)
    {
      hide Stored;
      if use.Closed? || use.Reading? {
        return -1;
      }
      count := 0;
      var i := 0;
      StoreNothing(recs, rwp, buf);
      while count < |buf|
        invariant 0 <= count <= |buf| && rwp == old(rwp) + count
        invariant 0 < count < |buf| ==> rwp % SEC_SIZE == 0
        invariant Stored(old(recs), recs, old(rwp), buf, count)
        invariant i == Spans(old(rwp), count) && forall k :: 0 <= k < i ==> !full(k)
      {
        var offs := rwp % SEC_SIZE;
        var size := if SEC_SIZE - offs > |buf| - count then |buf| - count else SEC_SIZE - offs;
        var n := rwp / SEC_SIZE;
        StepSizes(old(rwp), count, |buf| - count);
        var piece := buf[count..count + size];
        var data := if size == SEC_SIZE then piece else Patched(recs, n, offs, piece);
        assert size == SEC_SIZE ==> Patched(recs, n, offs, piece) == piece;
        SpansGrow(old(rwp), count, size, |buf|);
        if full(i) {
          break;
        }
        StorePiece(old(recs), recs, old(rwp), buf, count, size);
        recs := recs[n := data];
        rwp := rwp + size;
        count := count + size;
        i := i + 1;
      }
    }

    /** Read up to `nbytes`, stopping at the first record that does not exist. */
    method Read(nbytes: nat) returns (data: seq<Byte>, count: int)
      requires Valid()
      modifies this`rwp
      ensures Valid()
      ensures use.Closed? || use.Writing? ==> count == -1 && data == [] && rwp == old(rwp)
      ensures use.Reading? || use.Both? ==>
                && count == |data| <= nbytes && rwp == old(rwp) + count && Holds(recs, old(rwp), data)
                && (count < nbytes ==> rwp / SEC_SIZE !in recs && (count == 0 || rwp % SEC_SIZE == 0))
    {
      hide Holds;
      data := [];
      if use.Closed? || use.Writing? {
        return data, -1;
      }
      count := 0;
      assert Holds(recs, rwp, []) by { HoldsNothing(recs, rwp); }
      while count < nbytes
        invariant count == |data| <= nbytes && rwp == old(rwp) + count
        invariant 0 < count < nbytes ==> rwp % SEC_SIZE == 0
        invariant Holds(recs, old(rwp), data)
      {
        var offs := rwp % SEC_SIZE;
        var size := if SEC_SIZE - offs > nbytes - count then nbytes - count else SEC_SIZE - offs;
        StepSizes(old(rwp), count, nbytes - count);
        if rwp / SEC_SIZE !in recs {
          break;
        }
        ReadPiece(recs, old(rwp), data, size);
        data := data + recs[rwp / SEC_SIZE][offs..offs + size];
        rwp := rwp + size;
        count := count + size;
      }
    }

    /** Move the position; `records` is the record count BDOS reports for the file. */
    method Lseek(offs: int, whence: int, records: nat) returns (pos: int)
      requires Valid()
      modifies this`rwp
      ensures Valid()
      ensures var size := if records * SEC_SIZE > old(rwp) then records * SEC_SIZE else old(rwp);
              var target := offs + (if whence == 1 then old(rwp) else if whence == 2 then size else 0);
              if target >= 0 then pos == rwp == target else pos == -1 && rwp == old(rwp)
    {
      var target := offs;
      if whence == 1 {
        target := rwp + offs;
      } else if whence == 2 {
        var size := records * SEC_SIZE;
        target := offs + (if size > rwp then size else rwp);
      }
      if target >= 0 {
        rwp := target;
        return rwp;
      }
      return -1;
    }

    /** What was written, all of it or what was stored before BDOS refused a record, is
        read back after seeking to where it began. */
    method RoundTrip(buf: seq<Byte>, full: nat -> bool) returns (n: int, data: seq<Byte>)
      requires Valid() && use.Both?
      modifies this
      ensures 0 <= n <= |buf| && data == buf[..n] && rwp == old(rwp) + n
      ensures n < |buf| <==> exists i :: 0 <= i < Spans(old(rwp), |buf|) && full(i)
    {
      var start := rwp;
      n := Write(buf, full);
      var pos := Lseek(-n, 1, 0);
      var count;
      data, count := Read(n);
      StoredIsHeld(old(recs), recs, start, buf, n);
      HeldPresent(recs, start, buf[..n]);
      HeldOnce(recs, start, data, buf[..n]);
    }

    /** One operation of a run, on a file open for reading and writing. */
    method Perform(op: Op, ghost f: Plain) returns (out: Out)
      requires Valid() && use.Both? && Shows(recs, rwp, f)
      modifies this`recs, this`rwp
      ensures Valid() && Answers(f, op, out) && Shows(recs, rwp, Next(f, op, out))
    {
      hide Stored, Holds, Answers, Next;
      match op {
        case DoWrite(buf, full) =>
          var n := Write(buf, full);
          WriteShows(old(recs), recs, f, buf, full, n);
          out := Wrote(n);
        case DoRead(n) =>
          var data, count := Read(n);
          ReadShows(recs, f, n, data);
          out := Got(data);
        case DoSeek(offs, whence, records) =>
          var pos := Lseek(offs, whence, records);
          SeekShows(recs, f, op, pos);
          out := At(pos);
      }
    }

    /** Any sequence of writes, reads and seeks answers as a plain array of bytes with
        holes does, and leaves what it leaves. */
    method Run(ops: seq<Op>, ghost f: Plain) returns (out: seq<Out>)
      requires Valid() && use.Both? && Shows(recs, rwp, f)
      modifies this`recs, this`rwp
      ensures Valid() && |out| == |ops| && Shows(recs, rwp, After(f, ops, out))
      ensures forall k :: 0 <= k < |ops| ==> Answers(After(f, ops[..k], out[..k]), ops[k], out[k])
    {
      hide Shows, Answers, Next;
      out := [];
      for k := 0 to |ops|
        invariant Valid() && |out| == k && Shows(recs, rwp, After(f, ops[..k], out))
        invariant forall j :: 0 <= j < k ==> Answers(After(f, ops[..j], out[..j]), ops[j], out[j])
      {
        var r := Perform(ops[k], After(f, ops[..k], out));
        assert ops[..k + 1][..k] == ops[..k] && (out + [r])[..k] == out;
        assert forall j :: 0 <= j < k ==> (out + [r])[..j] == out[..j];
        out := out + [r];
      }
      assert ops[..|ops|] == ops;
    }
  }

  // ----- whole runs -----

  /** A file as a plain array of bytes with holes, and a position in it. */
  datatype Plain = Plain(bytes: nat -> Option<Byte>, pos: nat)

  datatype Op =
    | DoWrite(buf: seq<Byte>, full: nat -> bool)
    | DoRead(n: nat)
    | DoSeek(offs: int, whence: int, records: nat)

  datatype Out = Wrote(n: int) | Got(data: seq<Byte>) | At(pos: int)

  /** The bytes from `p` on, up to `n` of them, as far as there are any. */
  function Prefix(bytes: nat -> Option<Byte>, p: nat, n: nat): seq<Byte>
    decreases n
  {
    if n == 0 || bytes(p).None? then [] else [bytes(p).value] + Prefix(bytes, p + 1, n - 1)
  }

  function Target(f: Plain, offs: int, whence: int, records: nat): int {
    var size := if records * 128 > f.pos then records * 128 else f.pos;
    offs + (if whence == 1 then f.pos else if whence == 2 then size else 0)
  }

  /** What each operation answers. */
  ghost predicate Answers(f: Plain, op: Op, out: Out) {
    match op
    case DoWrite(buf, full) =>
      && out.Wrote? && 0 <= out.n <= |buf|
      && (out.n < |buf| <==> exists i :: 0 <= i < Spans(f.pos, |buf|) && full(i))
      && (out.n < |buf| ==> (out.n == 0 || (f.pos + out.n) % 128 == 0) && full(Spans(f.pos, out.n)))
      && (forall i :: 0 <= i < Spans(f.pos, out.n) ==> !full(i))
    case DoRead(n) => out == Got(Prefix(f.bytes, f.pos, n))
    case DoSeek(offs, whence, records) =>
      var t := Target(f, offs, whence, records);
      out == At(if t >= 0 then t else -1)
  }

  /** The file after an operation and its answer. */
  ghost function Next(f: Plain, op: Op, out: Out): Plain {
    match op
    case DoWrite(buf, _) =>
      if out.Wrote? && 0 <= out.n <= |buf| then
        Plain((p: nat) => if f.pos <= p < f.pos + out.n then Some(buf[p - f.pos])
                          else if f.bytes(p).None? && Touches(f.pos, out.n, p / 128) then Some(0x1A)
                          else f.bytes(p),
              f.pos + out.n)
      else f
    case DoRead(n) => f.(pos := f.pos + |Prefix(f.bytes, f.pos, n)|)
    case DoSeek(offs, whence, records) =>
      var t := Target(f, offs, whence, records);
      if t >= 0 then f.(pos := t) else f
  }

  ghost function After(f: Plain, ops: seq<Op>, out: seq<Out>): Plain
    requires |out| == |ops|
  {
    if ops == [] then f
    else
      var k := |ops| - 1;
      Next(After(f, ops[..k], out[..k]), ops[k], out[k])
  }

  /** The records and the position show the plain file. */
  ghost predicate Shows(recs: Records, rwp: int, f: Plain) {
    rwp == f.pos && forall p: nat {:trigger f.bytes(p)} :: ByteAt(recs, p) == f.bytes(p)
  }

  lemma WriteShows(recs0: Records, recs: Records, f: Plain, buf: seq<Byte>, full: nat -> bool, n: int)
    requires Shows(recs0, f.pos, f) && 0 <= n <= |buf| && Stored(recs0, recs, f.pos, buf, n)
    requires n < |buf| <==> exists i :: 0 <= i < Spans(f.pos, |buf|) && full(i)
    requires n < |buf| ==> (n == 0 || (f.pos + n) % SEC_SIZE == 0) && full(Spans(f.pos, n))
    requires forall i :: 0 <= i < Spans(f.pos, n) ==> !full(i)
    ensures Answers(f, DoWrite(buf, full), Wrote(n)) && Shows(recs, f.pos + n, Next(f, DoWrite(buf, full), Wrote(n)))
  {
    var g := Next(f, DoWrite(buf, full), Wrote(n));
    forall p: nat ensures ByteAt(recs, p) == g.bytes(p) {
      assert StoredAt(recs0, recs, f.pos, buf, n, p);
      assert ByteAt(recs0, p) == f.bytes(p);
    }
  }

  lemma {:induction false} PrefixIs(bytes: nat -> Option<Byte>, p: nat, n: nat, data: seq<Byte>)
    requires |data| <= n && (forall i {:trigger data[i]} :: 0 <= i < |data| ==> bytes(p + i) == Some(data[i]))
    requires |data| < n ==> bytes(p + |data|).None?
    ensures Prefix(bytes, p, n) == data
    decreases n
  {
    if data != [] {
      assert bytes(p + 0) == Some(data[0]);
      forall i | 0 <= i < |data[1..]| ensures bytes(p + 1 + i) == Some(data[1..][i]) {
        assert data[1..][i] == data[i + 1];
        assert p + 1 + i == p + (i + 1);
      }
      PrefixIs(bytes, p + 1, n - 1, data[1..]);
    }
  }

  lemma ReadShows(recs: Records, f: Plain, n: nat, data: seq<Byte>)
    requires Shows(recs, f.pos, f) && |data| <= n && Holds(recs, f.pos, data)
    requires |data| < n ==> (f.pos + |data|) / SEC_SIZE !in recs
    ensures Answers(f, DoRead(n), Got(data)) && Shows(recs, f.pos + |data|, Next(f, DoRead(n), Got(data)))
  {
    forall i | 0 <= i < |data| ensures f.bytes(f.pos + i) == Some(data[i]) {
      assert ByteAt(recs, f.pos + i) == f.bytes(f.pos + i);
    }
    assert ByteAt(recs, f.pos + |data|) == f.bytes(f.pos + |data|);
    PrefixIs(f.bytes, f.pos, n, data);
  }

  lemma SeekShows(recs: Records, f: Plain, op: Op, pos: int)
    requires op.DoSeek? && Shows(recs, f.pos, f)
    requires var t := Target(f, op.offs, op.whence, op.records); pos == if t >= 0 then t else -1
    ensures Answers(f, op, At(pos)) && Shows(recs, if pos >= 0 then pos else f.pos, Next(f, op, At(pos)))
  {
  }
}
