/** The Intel HEX writer of `dump` and the reader of the object tools. */
module IntelHex {
  import opened Common

  const ORIGIN := 0x100

  // ----- digits -----

  function Digit(n: nat): char
    requires n < 16
  {
    if n < 10 then '0' + n as char else 'A' + (n - 10) as char
  }

  predicate IsHex(c: char) {
    '0' <= c <= '9' || 'A' <= c <= 'F' || 'a' <= c <= 'f'
  }

  function ReadHex(c: char): (n: nat)
    requires IsHex(c)
    ensures n < 16
  {
    if '0' <= c <= '9' then (c - '0') as nat
    else if 'A' <= c <= 'F' then 10 + (c - 'A') as nat
    else 10 + (c - 'a') as nat
  }

  lemma {:induction false} DigitRoundTrip(n: nat)
    requires n < 16
    ensures IsHex(Digit(n)) && ReadHex(Digit(n)) == n
  {
  }

  /** Digits are written in upper case and read in either. */
  lemma {:induction false} DigitCases(n: nat)
    requires n < 16
    ensures if n < 10 then '0' <= Digit(n) <= '9' else 'A' <= Digit(n) <= 'F'
    ensures n >= 10 ==> IsHex('a' + (n - 10) as char) && ReadHex('a' + (n - 10) as char) == ReadHex(Digit(n)) == n
    ensures !IsHex('g') && !IsHex('G') && !IsHex(':') && !IsHex('/') && !IsHex('@') && !IsHex('`')
  {
  }

  function Hex(v: Byte): string {
    [Digit(v / 16), Digit(v % 16)]
  }

  predicate AllHex(s: string) {
    forall i :: 0 <= i < |s| ==> IsHex(s[i])
  }

  function Value(s: string): nat
    requires AllHex(s)
  {
    if s == [] then 0 else 16 * Value(s[..|s| - 1]) + ReadHex(s[|s| - 1])
  }

  /** What the running checksum gains: the value so far after every second digit. */
  function Checks(s: string): nat
    requires AllHex(s)
  {
    if |s| < 2 then 0
    else if |s| % 2 == 0 then Checks(s[..|s| - 1]) + Value(s)
    else Checks(s[..|s| - 1])
  }

  lemma {:induction false} ValueOfHex(v: Byte)
    ensures AllHex(Hex(v)) && Value(Hex(v)) == v && Checks(Hex(v)) == v
  {
    DigitRoundTrip(v / 16);
    DigitRoundTrip(v % 16);
    var s := Hex(v);
    assert s[..1] == [Digit(v / 16)] && s[..1][..0] == [];
    assert Value(s[..1]) == v / 16;
    assert Checks(s[..1]) == 0;
  }

  lemma {:induction false} OneMore(s: string, c: char)
    requires AllHex(s) && IsHex(c)
    ensures AllHex(s + [c]) && Value(s + [c]) == 16 * Value(s) + ReadHex(c)
    ensures Checks(s + [c]) == if |s| % 2 == 1 then Checks(s) + Value(s + [c]) else Checks(s)
  {
    assert (s + [c])[..|s|] == s;
  }

  /** The checksum is kept in a byte. */
  function Mod(x: int): Byte {
    x % 256
  }

  lemma {:induction false} ModSmall(x: int)
    ensures 0 <= x < 256 ==> Mod(x) == x
  {
  }

  lemma {:induction false} ModAdd(x: int, y: int)
    ensures Mod(Mod(x) + y) == Mod(x + y)
  {
  }

  lemma {:induction false} TwoDigits(s: string, c: char, d: char)
    requires AllHex(s) && |s| % 2 == 0 && IsHex(c) && IsHex(d)
    ensures AllHex(s + [c, d]) && Value(s + [c, d]) == 256 * Value(s) + 16 * ReadHex(c) + ReadHex(d)
    ensures Checks(s + [c, d]) == Checks(s) + Value(s + [c, d])
  {
    hide Value, Checks, AllHex;
    OneMore(s, c);
    OneMore(s + [c], d);
    assert s + [c] + [d] == s + [c, d];
  }

  /** Two more digits. */
  lemma {:induction false} TwoMore(s: string, v: Byte)
    requires AllHex(s) && |s| % 2 == 0
    ensures AllHex(s + Hex(v)) && Value(s + Hex(v)) == 256 * Value(s) + v
    ensures Checks(s + Hex(v)) == Checks(s) + Value(s + Hex(v))
  {
    hide Value, Checks, AllHex;
    DigitRoundTrip(v / 16);
    DigitRoundTrip(v % 16);
    TwoDigits(s, Digit(v / 16), Digit(v % 16));
  }

  lemma {:induction false} ValueOfWord(v: nat)
    requires v < 0x10000
    ensures var s := Hex(v / 256) + Hex(v % 256);
            AllHex(s) && Value(s) == v && Checks(s) == v / 256 + v
  {
    ValueOfHex(v / 256);
    hide Value, Checks, AllHex;
    TwoMore(Hex(v / 256), v % 256);
  }

  // ----- the text of a record -----

  function HexAll(data: seq<Byte>): string {
    if data == [] then "" else HexAll(data[..|data| - 1]) + Hex(data[|data| - 1])
  }

  function Total(data: seq<Byte>): int {
    if data == [] then 0 else Total(data[..|data| - 1]) + data[|data| - 1]
  }

  /** The bytes a data record writes before its checksum. */
  function Body(addr: nat, data: seq<Byte>): seq<Byte>
    requires |data| < 256
  {
    [|data| as Byte, addr / 256 % 256, addr % 256, 0] + data
  }

  function Checksum(s: seq<Byte>): Byte {
    (-Total(s)) % 256
  }

  /** Every record's bytes, checksum included, sum to 0. */
  lemma {:induction false} ChecksumIsZero(s: seq<Byte>)
    ensures Total(s + [Checksum(s)]) % 256 == 0
  {
    assert (s + [Checksum(s)])[..|s|] == s;
  }

  function RecordText(addr: nat, data: seq<Byte>): string
    requires |data| < 256
  {
    var body := Body(addr, data);
    ":" + HexAll(body + [Checksum(body)]) + "\n"
  }

  // ----- the writer -----

  class Dumper {
    var out: string
    var sum: Byte

    constructor ()
      ensures out == "" && sum == 0
    {
      out, sum := "", 0;
    }

    /** Two digits: the next of the record's bytes, of which `k` are out. */
    method Outhex(v: Byte, ghost head: string, ghost bytes: seq<Byte>, ghost k: nat)
      requires k < |bytes| && bytes[k] == v && out == head + HexAll(bytes[..k]) && sum == Total(bytes[..k]) % 256
      modifies this
      ensures out == head + HexAll(bytes[..k + 1]) && sum == Total(bytes[..k + 1]) % 256
    {
      hide Hex;
      assert bytes[..k + 1][..k] == bytes[..k];
      SumStep(Total(bytes[..k]), v);
      out := out + Hex(v);
      sum := (sum + v) % 256;
    }

    method Record(addr: nat, data: seq<Byte>)
      requires |data| < 256
      modifies this
      ensures out == old(out) + RecordText(addr, data)
    {
      hide HexAll, Total, Hex;
      sum := 0;
      ghost var head := out + ":";
      out := out + ":";
      ghost var body := Body(addr, data);
      ghost var all := body + [Checksum(body)];
      assert all[..0] == [];
      Empty();
      Outhex(|data|, head, all, 0);
      Outhex(addr / 256 % 256, head, all, 1);
      Outhex(addr % 256, head, all, 2);
      Outhex(0, head, all, 3);
      for i := 0 to |data|
        invariant out == head + HexAll(all[..4 + i]) && sum == Total(all[..4 + i]) % 256
      {
        Outhex(data[i], head, all, 4 + i);
      }
      assert all[..4 + |data|] == body;
      var check := (0x100 - sum) % 256;
      assert check == Checksum(body) by { Negated(Total(body)); }
      Outhex(check, head, all, |body|);
      assert all[..|body| + 1] == all;
      out := out + "\n";
    }

    /** The whole file: one record for each piece the input hands over, then the last line. */
    method Dump(pieces: seq<seq<Byte>>)
      requires forall i :: 0 <= i < |pieces| ==> 1 <= |pieces[i]| <= 16
      modifies this
      ensures out == old(out) + Text(0x100, pieces)
    {
      hide RecordText;
      var addr := ORIGIN;
      for i := 0 to |pieces|
        invariant addr == ORIGIN + Size(pieces[..i]) && out == old(out) + Lines(ORIGIN, pieces[..i])
      {
        assert pieces[..i + 1][..i] == pieces[..i];
        Record(addr, pieces[i]);
        addr := addr + |pieces[i]|;
      }
      assert pieces[..|pieces|] == pieces;
      out := out + LAST_LINE;
    }
  }

  const LAST_LINE := ":0000000000\n"

  function Size(pieces: seq<seq<Byte>>): nat {
    if pieces == [] then 0 else Size(pieces[..|pieces| - 1]) + |pieces[|pieces| - 1]|
  }

  function Lines(addr: nat, pieces: seq<seq<Byte>>): string
    requires forall i :: 0 <= i < |pieces| ==> |pieces[i]| < 256
  {
    if pieces == [] then ""
    else
      var before := pieces[..|pieces| - 1];
      Lines(addr, before) + RecordText(addr + Size(before), pieces[|pieces| - 1])
  }

  function Text(addr: nat, pieces: seq<seq<Byte>>): string
    requires forall i :: 0 <= i < |pieces| ==> |pieces[i]| < 256
  {
    Lines(addr, pieces) + LAST_LINE
  }

  lemma {:induction false} Empty()
    ensures HexAll([]) == "" && Total([]) == 0
  {
  }

  lemma {:induction false} Negated(t: int)
    ensures (0x100 - t % 256) % 256 == (-t) % 256
  {
  }

  // ----- the reader -----

  /** The text has the digits of `bytes` from position `p` on. */
  ghost predicate Spelled(input: string, p: nat, bytes: seq<Byte>) {
    && p + 2 * |bytes| <= |input|
    && forall k {:trigger bytes[k]} :: 0 <= k < |bytes| ==> input[p + 2 * k..p + 2 * k + 2] == Hex(bytes[k])
  }

  ghost predicate Follows(input: string, p: nat, t: string) {
    p + |t| <= |input| && input[p..p + |t|] == t
  }

  lemma {:induction false} HexAllSpells(input: string, p: nat, bytes: seq<Byte>)
    requires Follows(input, p, HexAll(bytes))
    ensures |HexAll(bytes)| == 2 * |bytes| && Spelled(input, p, bytes)
    decreases |bytes|
  {
    if bytes != [] {
      var before, t := bytes[..|bytes| - 1], HexAll(bytes);
      assert HexAll(before) == t[..|HexAll(before)|];
      assert input[p..p + |t|][..|HexAll(before)|] == input[p..p + |HexAll(before)|];
      HexAllSpells(input, p, before);
      hide Hex;
      assert t[2 * |before|..] == Hex(bytes[|before|]);
      assert input[p..p + |t|][2 * |before|..] == input[p + 2 * |before|..p + |t|];
    }
  }

  lemma {:induction false} Enclosed(input: string, p: nat, a: char, u: string, b: char)
    requires Follows(input, p, [a] + u + [b])
    ensures p + |u| + 2 <= |input| && input[p] == a && Follows(input, p + 1, u) && input[p + 1 + |u|] == b
  {
    var t := [a] + u + [b];
    forall i | 0 <= i < |t| ensures input[p + i] == t[i] {
      assert input[p..p + |t|][i] == t[i];
    }
    assert input[p + 0] == t[0] && input[p + (1 + |u|)] == t[1 + |u|];
    forall i | 0 <= i < |u| ensures input[p + 1..p + 1 + |u|][i] == u[i] {
      assert input[p + (1 + i)] == t[1 + i];
    }
  }

  lemma {:induction false} RecordSpells(input: string, p: nat, addr: nat, data: seq<Byte>)
    requires |data| < 256 && Follows(input, p, RecordText(addr, data))
    ensures var body := Body(addr, data);
            var all := body + [Checksum(body)];
            && |RecordText(addr, data)| == 2 * |all| + 2 && p + 2 * |all| + 2 <= |input| && input[p] == ':'
            && Spelled(input, p + 1, all)
            && input[p + 1 + 2 * |all|] == '\n'
  {
    var body := Body(addr, data);
    var all := body + [Checksum(body)];
    assert RecordText(addr, data) == [':'] + HexAll(all) + ['\n'];
    Enclosed(input, p, ':', HexAll(all), '\n');
    hide HexAll;
    HexAllSpells(input, p + 1, all);
  }

  // ----- what a record is -----

  /** The k-th pair of characters from `p` on is two digits. */
  predicate HexByte(input: string, p: nat, k: nat) {
    p + 2 * k + 2 <= |input| && IsHex(input[p + 2 * k]) && IsHex(input[p + 2 * k + 1])
  }

  function ByteOf(input: string, p: nat, k: nat): Byte
    requires HexByte(input, p, k)
  {
    16 * ReadHex(input[p + 2 * k]) + ReadHex(input[p + 2 * k + 1])
  }

  predicate HexRun(input: string, p: nat, n: nat) {
    forall k {:trigger HexByte(input, p, k)} :: 0 <= k < n ==> HexByte(input, p, k)
  }

  function Bytes(input: string, p: nat, n: nat): (b: seq<Byte>)
    requires HexRun(input, p, n)
    ensures |b| == n
  {
    if n == 0 then [] else Bytes(input, p, n - 1) + [ByteOf(input, p, n - 1)]
  }

  function DataSize(h: seq<Byte>): nat
    requires |h| == 4
  {
    h[0]
  }

  /** How many bytes a record with this header has, checksum included, or 0 when it is
      refused for its type or its address. */
  function RecordLength(h: seq<Byte>): nat
    requires |h| == 4
  {
    var addr := WordOf(h[1], h[2]);
    if h[3] == 0 then DataSize(h) + 5
    else if h[3] == 1 then 5
    else if h[3] == 2 then (if addr == 0 then 7 else 0)
    else if h[3] == 3 || h[3] == 5 then (if addr == 0 then 9 else 0)
    else if h[3] == 4 then 7
    else 0
  }

  predicate HeaderAt(input: string, q: nat) {
    q < |input| && input[q] == ':' && HexRun(input, q + 1, 4)
  }

  function Header(input: string, q: nat): (h: seq<Byte>)
    requires HeaderAt(input, q)
    ensures |h| == 4
  {
    Bytes(input, q + 1, 4)
  }

  /** A record that is not refused: a colon, as many bytes in digits as its header says, and
      a sum that comes to nothing. */
  predicate Accepted(input: string, q: nat) {
    HeaderAt(input, q) &&
    var n := RecordLength(Header(input, q));
    n > 0 && HexRun(input, q + 1, n) && Total(Bytes(input, q + 1, n)) % 256 == 0
  }

  /** The data of a record are all there in digits, and go to addresses of 16 bits. */
  predicate DataAt(input: string, q: nat) {
    HeaderAt(input, q) &&
    var h := Header(input, q);
    h[3] == 0 && HexRun(input, q + 1, 4 + DataSize(h)) && WordOf(h[1], h[2]) + DataSize(h) <= 0x10000
  }

  class Loader {
    const input: string
    var pos: nat
    var outbuf: seq<Byte>
    var outsize: int   // 16 bits: a full buffer counts as 0
    var outhigh: int

    ghost predicate Valid()
      reads this
    {
      pos <= |input| && 0 < |outbuf| && outsize == |outbuf| % 0x10000 && 0 <= outhigh < 0x10000
    }

    constructor (text: string)
      ensures input == text && pos == 0 && Valid() && outhigh == 0 && |outbuf| == 8192
    {
      input, pos := text, 0;
      outbuf, outsize, outhigh := seq(8192, _ => 0), 8192, 0;
    }

    /** The character at the cursor; the text ends with a NUL. */
    function Here(): char
      reads this
    {
      if pos < |input| then input[pos] else '\0'
    }

    /** Store a byte, growing the buffer in steps of 4K. Once full, the buffer's recorded
        size is 0 and every store resizes it again. */
    method Put(at: int, c: Byte)
      requires Valid() && 0 <= at
      modifies this`outbuf, this`outsize, this`outhigh
      ensures Valid() && at < |outbuf| && outbuf[at] == c
      ensures outhigh == if at > old(outhigh) then at % 0x10000 else old(outhigh)
      ensures |outbuf| == (if old(outsize) <= at then (at / 0x1000 + 1) * 0x1000 else |old(outbuf)|)
      ensures forall i :: 0 <= i < |outbuf| && i < |old(outbuf)| && i != at ==> outbuf[i] == old(outbuf)[i]
    {
      if at >= outsize {
        var size := (at / 0x1000 + 1) * 0x1000;
        outbuf := if size <= |outbuf| then outbuf[..size] else outbuf + seq(size - |outbuf|, _ => 0);
        outsize := size % 0x10000;
      }
      if at > outhigh {
        outhigh := at % 0x10000;
      }
      outbuf := outbuf[at := c];
    }

    /** Hex digits as a number, or -1 at the first character that is not one; the running
        checksum gains the number after every second digit. */
    method Gethex(digits: nat, sum0: Byte) returns (v: int, sum: Byte)
      requires pos <= |input| && digits % 2 == 0
      modifies this`pos
      ensures old(pos) <= pos <= |input| && v >= -1
      ensures v == -1 <==> !(old(pos) + digits <= |input| && AllHex(input[old(pos)..old(pos) + digits]))
      ensures v == -1 ==> Stuck(input, pos)
      ensures v != -1 ==>
                var t := input[old(pos)..old(pos) + digits];
                v == Value(t) && sum == Mod(sum0 + Checks(t)) && pos == old(pos) + digits
    {
      ModSmall(sum0);
      hide AllHex, Value, Checks, Run, Mod;
      ghost var p := pos;
      v, sum := 0, sum0;
      RunNone(input, p);
      for k := 0 to digits
        invariant p <= pos == p + k <= |input| && AllHex(Run(input, p, k))
        invariant v == Value(Run(input, p, k)) && sum == Mod(sum0 + Checks(Run(input, p, k)))
      {
        var c := Here();
        if !IsHex(c) {
          RunStops(input, p, k, digits);
          return -1, sum;
        }
        RunNext(input, p, k);
        v := 16 * v + ReadHex(c);
        pos := pos + 1;
        if (k + 1) % 2 == 0 {
          ModAdd(sum0 + Checks(Run(input, p, k)), v);
          sum := Mod(sum + v);
        }
      }
      RunIs(input, p, digits);
    }

    /** The next one, two or four bytes of a record as a number, or -1. `k` bytes have been
        read so far. */
    method Get(m: nat, sum0: Byte, ghost p: nat, ghost k: nat) returns (v: int, sum: Byte)
      requires (m == 1 || m == 2 || m == 4) && At(input, p, k, pos, sum0)
      modifies this`pos
      ensures old(pos) <= pos <= |input| && v >= -1
      ensures v == -1 <==> !HexRun(input, p, k + m)
      ensures v == -1 ==> Stuck(input, pos)
      ensures v != -1 ==> At(input, p, k + m, pos, sum)
      ensures v != -1 && m == 1 ==> v == ByteOf(input, p, k)
      ensures v != -1 && m == 2 ==> v == WordOf(ByteOf(input, p, k), ByteOf(input, p, k + 1))
    {
      hide AllHex, Value, Checks, Mod, Total;
      v, sum := Gethex(2 * m, sum0);
      ReadMore(input, p, k, m, sum0);
    }

    /** The data bytes of a record. */
    method LoadData(bc: nat, addr0: nat, sum0: Byte, ghost p: nat) returns (ok: bool, sum: Byte)
      requires Valid() && At(input, p, 4, pos, sum0)
      modifies this
      ensures Valid() && old(pos) <= pos
      ensures ok <==> HexRun(input, p, 4 + bc)
      ensures ok ==> At(input, p, 4 + bc, pos, sum)
      ensures ok && addr0 + bc <= 0x10000 ==>
                Placed(old(outbuf), old(outhigh), outbuf, outhigh, addr0, Bytes(input, p, 4 + bc)[4..])
    {
      hide Placed, At, Bytes, HexRun, Total, HexByte, ByteOf, Stuck;
      sum := sum0;
      AtMeans(input, p, 4, pos, sum);
      PlacedNone(outbuf, outhigh, addr0, Bytes(input, p, 4), 4);
      assert Bytes(input, p, 4)[4..4] == Bytes(input, p, 4)[4..];
      for i := 0 to bc
        invariant Valid() && old(pos) <= pos && HexRun(input, p, 4 + i) && At(input, p, 4 + i, pos, sum)
        invariant addr0 + bc <= 0x10000 ==>
                    Placed(old(outbuf), old(outhigh), outbuf, outhigh, addr0, Bytes(input, p, 4 + i)[4..])
      {
        ghost var before, high := outbuf, outhigh;
        var b;
        b, sum := Get(1, sum, p, 4 + i);
        if b == -1 {
          RunTooLong(input, p, 4 + i + 1, 4 + bc);
          return false, sum;
        }
        Put(addr0 + i, b % 256);
        ghost var data := Bytes(input, p, 4 + i)[4..];
        HexRunNext(input, p, 4 + i);
        BytesNext(input, p, 4 + i);
        assert Bytes(input, p, 4 + i + 1)[4..] == data + [ByteOf(input, p, 4 + i)];
        if addr0 + bc <= 0x10000 {
          PlacedNext(old(outbuf), old(outhigh), before, high, outbuf, outhigh, addr0, data, ByteOf(input, p, 4 + i));
        }
      }
      ok := true;
    }

    method SkipLineEnds()
      requires Valid()
      modifies this`pos
      ensures Valid() && old(pos) <= pos && !LineEnd(input, pos)
      ensures forall q :: old(pos) <= q < pos ==> LineEnd(input, q)
    {
      while Here() == '\r' || Here() == '\n' || Here() == '&'
        invariant Valid() && old(pos) <= pos
        invariant forall q :: old(pos) <= q < pos ==> LineEnd(input, q)
        decreases |input| - pos
      {
        pos := pos + 1;
      }
    }

    /** The body of a record without data: segment and start addresses, and the end. A
        missing segment address is noticed only at the checksum. */
    method OtherRecord(rectype: int, addr: int, sum0: Byte, ghost p: nat) returns (ok: bool, sum: Byte)
      requires Valid() && At(input, p, 4, pos, sum0) && rectype != 0
      modifies this`pos
      ensures Valid() && old(pos) <= pos
      ensures rectype == 1 ==> ok && At(input, p, 4, pos, sum)
      ensures rectype == 2 || rectype == 4 ==>
                && (ok <==> rectype == 4 || addr == 0)
                && (ok && HexRun(input, p, 6) ==> At(input, p, 6, pos, sum))
                && (ok && !HexRun(input, p, 6) ==> Stuck(input, pos))
      ensures rectype == 3 || rectype == 5 ==>
                (ok <==> addr == 0 && HexRun(input, p, 8)) && (ok ==> At(input, p, 8, pos, sum))
      ensures !(1 <= rectype <= 5) ==> !ok
    {
      hide At;
      ok, sum := false, sum0;
      if rectype == 2 || rectype == 4 {
        if rectype == 2 && addr != 0 { return; }
        var base;
        base, sum := Get(2, sum, p, 4);
      } else if rectype == 3 || rectype == 5 {
        if addr != 0 { return; }
        var start;
        start, sum := Get(4, sum, p, 4);
        if start == -1 { return; }
      } else if rectype != 1 {
        return;
      }
      ok := true;
    }

    /** The checksum, after `n - 1` bytes of a record: 0 when it is there and right. */
    method Check(sum0: Byte, ghost p: nat, ghost n: nat) returns (ok: bool)
      requires Valid() && n > 0
      requires At(input, p, n - 1, pos, sum0) || (Stuck(input, pos) && !HexRun(input, p, n))
      modifies this`pos
      ensures Valid() && old(pos) <= pos
      ensures ok <==> HexRun(input, p, n) && Total(Bytes(input, p, n)) % 256 == 0
      ensures ok ==> pos == p + 2 * n
    {
      hide AllHex, Value, Checks, Total;
      ghost var q := pos;
      var check, sum := Gethex(2, sum0);
      if Stuck(input, q) {
        StuckFails(input, q, 2);
        if At(input, p, n - 1, q, sum0) { StuckThere(input, p, n - 1); }
      } else {
        ReadMore(input, p, n - 1, 1, sum0);
      }
      ok := !(check == -1 || sum != 0);
    }

    /** One record. `more` says whether to go on with the next; `ok` is false when the
        record was refused, which is when it is not a colon, a header of a known type, the
        digits that header asks for and a right checksum. The data of a record are stored
        before its checksum is looked at. */
    method DoIntelHex() returns (more: bool, ok: bool)
      requires Valid()
      modifies this
      ensures Valid() && old(pos) <= pos && (more ==> pos > old(pos))
      ensures ok <==> Accepted(input, old(pos))
      ensures !ok ==> !more
      ensures ok ==>
                var h := Header(input, old(pos));
                var e := old(pos) + 1 + 2 * RecordLength(h);
                && e <= pos && !LineEnd(input, pos) && (forall q :: e <= q < pos ==> LineEnd(input, q))
                && (more <==> Here() != '\0' && h[3] != 1)
      ensures DataAt(input, old(pos)) ==>
                var h := Header(input, old(pos));
                Placed(old(outbuf), old(outhigh), outbuf, outhigh, WordOf(h[1], h[2]),
                       Bytes(input, old(pos) + 1, 4 + DataSize(h))[4..])
      ensures !HeaderAt(input, old(pos)) || Header(input, old(pos))[3] != 0 ==>
                outbuf == old(outbuf) && outhigh == old(outhigh)
    {
      hide Placed, Total, WordOf, LineEnd, Bytes, At, Stuck;
      more, ok := false, false;
      if Here() != ':' {
        return;
      }
      ghost var q := pos;
      pos := pos + 1;
      ghost var p := pos;
      StartAt(input, p);
      var bc, addr, rectype: int;
      var sum;
      bc, sum := Get(1, 0, p, 0);
      if bc == -1 { return; }
      addr, sum := Get(2, sum, p, 1);
      if addr == -1 { return; }
      rectype, sum := Get(1, sum, p, 3);
      if rectype != -1 { HeaderIs(input, p); }
      ghost var n := 0;
      var fine;
      if rectype == 0 {
        fine, sum := LoadData(bc, addr, sum, p);
        n := 5 + bc;
      } else if rectype == -1 {
        fine := false;
      } else {
        fine, sum := OtherRecord(rectype, addr, sum, p);
        n := RecordLength(Header(input, q));
      }
      if !fine { return; }
      ok := Check(sum, p, n);
      if ok {
        SkipLineEnds();
        more := !(Here() == '\0' || rectype == 1);
      }
    }

    /** Decode the text `dump` writes for a file read in any pieces: byte i of the file
        lands at 0x100 + i, every record is accepted, and the highest address is that of
        the last byte. */
    method Decode(ghost pieces: seq<seq<Byte>>)
      requires Valid() && pos == 0 && outhigh == 0
      requires forall i :: 0 <= i < |pieces| ==> 1 <= |pieces[i]| <= 16
      requires input == Text(0x100, pieces) && 0x100 + Size(pieces) <= 0x10000
      modifies this
      ensures pos == |input| && |Flat(pieces)| == Size(pieces)
      ensures 0x100 + Size(pieces) <= |outbuf| || pieces == []
      ensures forall i :: 0 <= i < Size(pieces) ==> outbuf[0x100 + i] == Flat(pieces)[i]
      ensures pieces != [] ==> outhigh == 0x100 + Size(pieces) - 1
    {
      hide RecordText, Placed, Follows, LineEnd, Accepted, DataAt, HeaderAt, Header, RecordLength, DataSize, Bytes,
           HexRun, WordOf, Text, Lines, Loaded, Flat;
      var more := true;
      ghost var k := 0;
      StartOfText(pieces, outbuf, outhigh);
      while more
        invariant Valid() && k <= |pieces| + 1 && (more ==> k <= |pieces|) && (!more ==> k == |pieces| + 1)
        invariant k <= |pieces| ==> pos == |Lines(ORIGIN, pieces[..k])|
        invariant k == |pieces| + 1 ==> pos == |input|
        invariant Loaded(outbuf, outhigh, pieces[..if k <= |pieces| then k else |pieces|])
        decreases |pieces| + 1 - k
      {
        ghost var out0, high0 := outbuf, outhigh;
        ghost var addr, data := 0, [];
        if k < |pieces| {
          RecordInText(pieces, k);
          addr, data := ORIGIN + Size(pieces[..k]), pieces[k];
        } else {
          assert pieces[..k] == pieces;
          LastInText(pieces);
        }
        ghost var q := pos;
        RecordIsAccepted(input, q, addr, data);
        var ok;
        more, ok := DoIntelHex();
        assert ok;
        SkippedOne(input, q + 1 + 2 * (5 + |data|), pos);
        if k < |pieces| {
          LoadedNext(out0, high0, outbuf, outhigh, pieces, k);
        } else {
          LoadedSame(out0, high0, outbuf, outhigh);
        }
        k := k + 1;
      }
      assert pieces[..|pieces|] == pieces;
      FlatSize(pieces);
      LoadedMeans(outbuf, outhigh, pieces);
    }
  }

  function Flat(pieces: seq<seq<Byte>>): seq<Byte> {
    if pieces == [] then [] else Flat(pieces[..|pieces| - 1]) + pieces[|pieces| - 1]
  }

  lemma {:induction false} FlatSize(pieces: seq<seq<Byte>>)
    ensures |Flat(pieces)| == Size(pieces)
    decreases |pieces|
  {
    if pieces != [] { FlatSize(pieces[..|pieces| - 1]); }
  }

  lemma {:induction false} SizeGrows(pieces: seq<seq<Byte>>, k: nat)
    requires k <= |pieces|
    ensures Size(pieces[..k]) <= Size(pieces)
    decreases |pieces|
  {
    if k < |pieces| {
      var before := pieces[..|pieces| - 1];
      assert before[..k] == pieces[..k];
      SizeGrows(before, k);
    } else {
      assert pieces[..k] == pieces;
    }
  }

  /** The pieces decoded so far are in the buffer. */
  ghost predicate Loaded(out: seq<Byte>, high: int, pieces: seq<seq<Byte>>) {
    && |Flat(pieces)| == Size(pieces)
    && (pieces != [] ==> ORIGIN + Size(pieces) <= |out| && high == ORIGIN + Size(pieces) - 1)
    && (pieces == [] ==> high == 0 && Size(pieces) == 0)
    && forall i {:trigger Flat(pieces)[i]} :: 0 <= i < Size(pieces) ==> out[ORIGIN + i] == Flat(pieces)[i]
  }

  lemma {:induction false} LoadedMeans(out: seq<Byte>, high: int, pieces: seq<seq<Byte>>)
    requires Loaded(out, high, pieces)
    ensures |Flat(pieces)| == Size(pieces)
    ensures pieces != [] ==> ORIGIN + Size(pieces) <= |out| && high == ORIGIN + Size(pieces) - 1
    ensures pieces == [] ==> Size(pieces) == 0
    ensures forall i :: 0 <= i < Size(pieces) ==> out[ORIGIN + i] == Flat(pieces)[i]
  {
  }

  lemma {:induction false} LoadedSame(out0: seq<Byte>, high0: int, out: seq<Byte>, high: int)
    requires Placed(out0, high0, out, high, 0, [])
    ensures out == out0 && high == high0
  {
  }

  lemma {:induction false} LoadedNext(out0: seq<Byte>, high0: int, out: seq<Byte>, high: int, pieces: seq<seq<Byte>>,
                                      k: nat)
    requires k < |pieces| && |pieces[k]| >= 1 && Loaded(out0, high0, pieces[..k])
    requires Placed(out0, high0, out, high, ORIGIN + Size(pieces[..k]), pieces[k])
    ensures Loaded(out, high, pieces[..k + 1])
  {
    var before, now := pieces[..k], pieces[..k + 1];
    assert now[..k] == before && now[k] == pieces[k];
    FlatSize(now);
    var n := Size(before);
    forall i | 0 <= i < Size(now) ensures out[ORIGIN + i] == Flat(now)[i] {
      if i < n {
        assert Flat(now)[i] == Flat(before)[i];
        var v := out0[ORIGIN + i];
        assert out[ORIGIN + i] == v;
      } else {
        assert Flat(now)[i] == pieces[k][i - n];
      }
    }
  }

  /** Record `k` stands in the text after the first `k`, and a colon follows it. */
  lemma {:induction false} LinesPrefix(pieces: seq<seq<Byte>>, k: nat)
    requires k <= |pieces| && forall i :: 0 <= i < |pieces| ==> |pieces[i]| < 256
    ensures Lines(ORIGIN, pieces[..k]) <= Lines(ORIGIN, pieces)
    decreases |pieces|
  {
    if k < |pieces| {
      var before := pieces[..|pieces| - 1];
      assert before[..k] == pieces[..k];
      LinesPrefix(before, k);
    } else {
      assert pieces[..k] == pieces;
    }
  }

  lemma {:induction false} StartOfText(pieces: seq<seq<Byte>>, out: seq<Byte>, high: int)
    requires high == 0
    ensures pieces[..0] == [] && Lines(ORIGIN, []) == "" && Loaded(out, high, [])
  {
  }

  /** A record's text begins with a colon. */
  lemma {:induction false} ColonNext(addr: nat, data: seq<Byte>)
    requires |data| < 256
    ensures |RecordText(addr, data)| > 0 && RecordText(addr, data)[0] == ':'
  {
  }

  lemma {:induction false} TextAfter(pieces: seq<seq<Byte>>, k: nat)
    requires k <= |pieces| && forall i :: 0 <= i < |pieces| ==> |pieces[i]| < 256
    ensures var n := |Lines(ORIGIN, pieces[..k])|;
            n < |Text(ORIGIN, pieces)| && Text(ORIGIN, pieces)[n] == ':' && Text(ORIGIN, pieces)[..n] == Lines(ORIGIN,
                      pieces[..k])
  {
    LinesPrefix(pieces, k);
    var n := |Lines(ORIGIN, pieces[..k])|;
    if k < |pieces| {
      LinesPrefix(pieces, k + 1);
      assert pieces[..k + 1][..k] == pieces[..k];
      ColonNext(ORIGIN + Size(pieces[..k]), pieces[k]);
      hide RecordText;
      assert Lines(ORIGIN, pieces[..k + 1])[n] == ':';
      assert Lines(ORIGIN, pieces)[n] == ':';
    } else {
      assert pieces[..k] == pieces;
    }
  }

  lemma {:induction false} RecordInText(pieces: seq<seq<Byte>>, k: nat)
    requires k < |pieces| && forall i :: 0 <= i < |pieces| ==> |pieces[i]| < 256
    ensures var text, n, addr := Text(ORIGIN, pieces), |Lines(ORIGIN, pieces[..k])|, ORIGIN + Size(pieces[..k]);
            && Follows(text, n, RecordText(addr, pieces[k])) && !LineEnd(text, n + |RecordText(addr, pieces[k])|)
            && n + |RecordText(addr, pieces[k])| == |Lines(ORIGIN, pieces[..k + 1])| < |text|
            && text[n + |RecordText(addr, pieces[k])|] == ':'
            && addr + |pieces[k]| <= ORIGIN + Size(pieces)
  {
    hide RecordText, Lines, Text, Size;
    TextAfter(pieces, k + 1);
    LinesSnoc(pieces, k);
    SizeGrows(pieces, k + 1);
    PrefixFollows(Text(ORIGIN, pieces), Lines(ORIGIN, pieces[..k]), RecordText(ORIGIN + Size(pieces[..k]), pieces[k]));
  }

  lemma {:induction false} LinesSnoc(pieces: seq<seq<Byte>>, k: nat)
    requires k < |pieces| && forall i :: 0 <= i < |pieces| ==> |pieces[i]| < 256
    ensures Size(pieces[..k + 1]) == Size(pieces[..k]) + |pieces[k]|
    ensures Lines(ORIGIN, pieces[..k + 1]) == Lines(ORIGIN, pieces[..k]) + RecordText(ORIGIN + Size(pieces[..k]),
                  pieces[k])
  {
    hide RecordText;
    assert pieces[..k + 1][..k] == pieces[..k];
  }

  lemma {:induction false} PrefixFollows(text: string, a: string, b: string)
    requires |a + b| <= |text| && text[..|a + b|] == a + b
    ensures Follows(text, |a|, b)
  {
    assert text[|a|..|a| + |b|] == text[..|a + b|][|a|..];
  }

  lemma {:induction false} LastInText(pieces: seq<seq<Byte>>)
    requires forall i :: 0 <= i < |pieces| ==> |pieces[i]| < 256
    ensures var text, n := Text(ORIGIN, pieces), |Lines(ORIGIN, pieces)|;
            && Follows(text, n, RecordText(0, [])) && !LineEnd(text, n + |RecordText(0, [])|)
            && n + |RecordText(0, [])| == |text|
  {
    EmptyRecord();
    hide RecordText, Lines;
    var text, n := Text(ORIGIN, pieces), |Lines(ORIGIN, pieces)|;
    assert text[n..n + |LAST_LINE|] == LAST_LINE;
  }

  /** The last line is a data record without data. */
  lemma {:induction false} EmptyRecord()
    ensures RecordText(0, []) == LAST_LINE
  {
    var body := Body(0, []);
    assert body == [0, 0, 0, 0];
    assert body[..3] == [0, 0, 0] && body[..2] == [0, 0] && body[..1] == [0] && body[..0] == [];
    assert body[..3][..2] == body[..2] && body[..2][..1] == body[..1] && body[..1][..0] == [];
    assert Total(body[..1]) == 0 && Total(body[..2]) == 0 && Total(body[..3]) == 0 && Total(body) == 0;
    var all := body + [Checksum(body)];
    assert all == [0, 0, 0, 0, 0] && all[..4] == body;
    assert Hex(0) == "00";
    assert HexAll(body[..0]) == "";
    assert HexAll(body[..1]) == HexAll(body[..0]) + Hex(0) == "00";
    assert HexAll(body[..2]) == HexAll(body[..1]) + Hex(0) == "0000";
    assert HexAll(body[..3]) == HexAll(body[..2]) + Hex(0) == "000000";
    assert HexAll(body) == "00000000" && HexAll(all) == "0000000000";
  }

  /** The characters skipped after a record. */
  predicate LineEnd(input: string, p: nat) {
    p < |input| && (input[p] == '\r' || input[p] == '\n' || input[p] == '&')
  }

  lemma {:induction false} NewlineEnds(input: string, p: nat)
    requires p < |input| && input[p] == '\n'
    ensures LineEnd(input, p)
  {
  }

  /** `data` went to `addr` on, and nothing below changed. */
  ghost predicate Placed(out0: seq<Byte>, high0: int, out: seq<Byte>, high: int, addr: nat, data: seq<Byte>) {
    && (if data == [] then out == out0 else addr + |data| <= |out|)
    && (forall i {:trigger data[i]} :: 0 <= i < |data| ==> out[addr + i] == data[i])
    && (forall i {:trigger out0[i]} :: 0 <= i < addr && i < |out0| ==> i < |out| && out[i] == out0[i])
    && high == (if data != [] && addr + |data| - 1 > high0 then addr + |data| - 1 else high0)
  }

  lemma {:induction false} PlacedNone(out: seq<Byte>, high: int, addr: nat, bytes: seq<Byte>, k: nat)
    ensures k <= |bytes| ==> Placed(out, high, out, high, addr, bytes[k..k])
  {
  }

  lemma {:induction false} PlacedNext(out0: seq<Byte>, high0: int, out1: seq<Byte>, high1: int, out: seq<Byte>,
                                      high: int, addr: nat, data: seq<Byte>, c: Byte)
    requires Placed(out0, high0, out1, high1, addr, data) && addr + |data| < 0x10000
    requires addr + |data| < |out| && out[addr + |data|] == c
    requires forall i :: 0 <= i < |out| && i < |out1| && i != addr + |data| ==> out[i] == out1[i]
    requires high == if addr + |data| > high1 then addr + |data| else high1
    ensures Placed(out0, high0, out, high, addr, data + [c])
  {
    forall i | 0 <= i < addr && i < |out0| ensures i < |out| && out[i] == out0[i] {
      var v := out0[i];
      assert i < |out1| && out1[i] == v;
    }
    forall i | 0 <= i < |data| ensures out[addr + i] == data[i] {
      assert out1[addr + i] == data[i];
    }
  }

  lemma {:induction false} TotalNext(bytes: seq<Byte>, k: nat)
    requires k < |bytes|
    ensures Total(bytes[..k + 1]) == Total(bytes[..k]) + bytes[k]
  {
    assert bytes[..k + 1][..k] == bytes[..k];
  }

  lemma {:induction false} SumStep(t: int, v: Byte)
    ensures (t % 256 + v) % 256 == (t + v) % 256
  {
  }

  /** The first `k` bytes from `p` have been read, and the checksum is theirs. */
  ghost predicate At(input: string, p: nat, k: nat, pos: nat, sum: Byte) {
    HexRun(input, p, k) && pos == p + 2 * k <= |input| && sum == Mod(Total(Bytes(input, p, k)))
  }

  /** There is no digit here. */
  predicate Stuck(input: string, pos: nat) {
    pos < |input| ==> !IsHex(input[pos])
  }

  /** A single line end is skipped. */
  lemma {:induction false} SkippedOne(input: string, e: nat, pos: nat)
    requires LineEnd(input, e) && !LineEnd(input, e + 1) && e <= pos && !LineEnd(input, pos)
    requires forall q :: e <= q < pos ==> LineEnd(input, q)
    ensures pos == e + 1
  {
    hide LineEnd;
  }

  lemma {:induction false} AtMeans(input: string, p: nat, k: nat, pos: nat, sum: Byte)
    requires At(input, p, k, pos, sum)
    ensures HexRun(input, p, k) && pos == p + 2 * k <= |input|
  {
  }

  lemma {:induction false} RunTooLong(input: string, p: nat, k: nat, n: nat)
    requires k <= n && !HexRun(input, p, k)
    ensures !HexRun(input, p, n)
  {
  }

  lemma {:induction false} StartAt(input: string, p: nat)
    requires p <= |input|
    ensures At(input, p, 0, p, 0)
  {
  }

  lemma {:induction false} StuckFails(input: string, q: nat, digits: nat)
    requires Stuck(input, q) && digits > 0
    ensures q + digits <= |input| ==> !AllHex(input[q..q + digits])
  {
    if q + digits <= |input| { assert input[q..q + digits][0] == input[q]; }
  }

  lemma {:induction false} StuckThere(input: string, p: nat, k: nat)
    requires Stuck(input, p + 2 * k)
    ensures !HexRun(input, p, k + 1)
  {
    assert !HexByte(input, p, k);
  }

  lemma {:induction false} BytesNext(input: string, p: nat, k: nat)
    requires HexRun(input, p, k) && HexByte(input, p, k)
    ensures HexRun(input, p, k + 1) && Bytes(input, p, k + 1) == Bytes(input, p, k) + [ByteOf(input, p, k)]
    ensures Total(Bytes(input, p, k + 1)) == Total(Bytes(input, p, k)) + ByteOf(input, p, k)
  {
    assert Bytes(input, p, k + 1)[..k] == Bytes(input, p, k);
  }

  /** What the checksum and the number make of the `m` bytes after the first `k`. */
  ghost predicate PairsOk(input: string, p: nat, k: nat, m: nat)
    requires HexRun(input, p, k) && p + 2 * (k + m) <= |input|
  {
    var r := Run(input, p + 2 * k, 2 * m);
    && (HexRun(input, p, k + m) <==> AllHex(r))
    && (HexRun(input, p, k + m) ==>
          && Mod(Checks(r) + Total(Bytes(input, p, k))) == Mod(Total(Bytes(input, p, k + m)))
          && (m == 0 ==> Value(r) == 0)
          && (m == 1 ==> Value(r) == ByteOf(input, p, k))
          && (m == 2 ==> Value(r) == WordOf(ByteOf(input, p, k), ByteOf(input, p, k + 1))))
  }

  lemma {:induction false} Pairs(input: string, p: nat, k: nat, m: nat)
    requires HexRun(input, p, k) && p + 2 * (k + m) <= |input|
    ensures PairsOk(input, p, k, m)
    decreases m
  {
    if m > 0 {
      hide PairsOk;
      Pairs(input, p, k, m - 1);
      OnePair(input, p, k, m);
    } else {
      RunNone(input, p + 2 * k);
    }
  }

  lemma {:induction false} RunIsAt(input: string, q: nat, n: nat)
    ensures q + n <= |input| ==> Run(input, q, n) == input[q..q + n]
  {
  }

  lemma {:induction false} OutOfText(input: string, p: nat, n: nat)
    requires n > 0 && p + 2 * n > |input|
    ensures !HexRun(input, p, n)
  {
    assert !HexByte(input, p, n - 1);
  }

  lemma {:induction false} RunPair(input: string, q: nat, n: nat)
    requires q + n + 2 <= |input|
    ensures Run(input, q, n + 2) == Run(input, q, n) + [input[q + n], input[q + n + 1]]
  {
  }

  lemma {:induction false} HexRunNext(input: string, p: nat, j: nat)
    ensures HexRun(input, p, j + 1) <==> HexRun(input, p, j) && HexByte(input, p, j)
  {
  }

  lemma {:induction false} OnePair(input: string, p: nat, k: nat, m: nat)
    requires m > 0 && HexRun(input, p, k) && p + 2 * (k + m) <= |input| && PairsOk(input, p, k, m - 1)
    ensures PairsOk(input, p, k, m)
  {
    hide Value, Checks, AllHex, Total, Bytes, Mod, Run, HexRun;
    var q, j := p + 2 * k, k + (m - 1);
    var r0 := Run(input, q, 2 * (m - 1));
    var c, d := input[p + 2 * j], input[p + 2 * j + 1];
    RunPair(input, q, 2 * (m - 1));
    AllHexPair(r0, c, d);
    HexRunNext(input, p, j);
    assert j + 1 == k + m && k + (m - 1) == j;
    if HexRun(input, p, k + m) {
      RunLength(input, q, 2 * (m - 1));
      TwoDigits(r0, c, d);
      BytesNext(input, p, j);
      ModSteps(Checks(r0), Total(Bytes(input, p, k)), Total(Bytes(input, p, j)), Value(r0), ByteOf(input, p, j));
    }
  }

  lemma {:induction false} RunLength(input: string, q: nat, n: nat)
    requires q + n <= |input|
    ensures |Run(input, q, n)| == n
  {
  }

  lemma {:induction false} AllHexPair(s: string, c: char, d: char)
    ensures AllHex(s + [c, d]) <==> AllHex(s) && IsHex(c) && IsHex(d)
  {
    var t := s + [c, d];
    if AllHex(t) {
      assert t[|s|] == c && t[|s| + 1] == d;
      forall i | 0 <= i < |s| ensures IsHex(s[i]) { assert t[i] == s[i]; }
    }
  }

  lemma {:induction false} ModSteps(checks: int, t0: int, t1: int, v: int, b: int)
    requires Mod(checks + t0) == Mod(t1)
    ensures Mod(checks + (256 * v + b) + t0) == Mod(t1 + b)
  {
  }

  lemma {:induction false} ReadMore(input: string, p: nat, k: nat, m: nat, sum0: Byte)
    requires At(input, p, k, p + 2 * k, sum0) && (m == 1 || m == 2 || m == 4)
    ensures var q := p + 2 * k;
            HexRun(input, p, k + m) <==> q + 2 * m <= |input| && AllHex(input[q..q + 2 * m])
    ensures HexRun(input, p, k + m) ==>
              var t := input[p + 2 * k..p + 2 * k + 2 * m];
              && Mod(sum0 + Checks(t)) == Mod(Total(Bytes(input, p, k + m)))
              && (m == 1 ==> Value(t) == ByteOf(input, p, k))
              && (m == 2 ==> Value(t) == WordOf(ByteOf(input, p, k), ByteOf(input, p, k + 1)))
  {
    hide Value, Checks, AllHex, Total, Bytes, Mod, HexRun;
    var q := p + 2 * k;
    RunIsAt(input, q, 2 * m);
    if q + 2 * m <= |input| {
      Pairs(input, p, k, m);
      if HexRun(input, p, k + m) {
        ModAdd(Total(Bytes(input, p, k)), Checks(Run(input, q, 2 * m)));
      }
    } else {
      OutOfText(input, p, k + m);
    }
  }

  lemma {:induction false} NoBytes(input: string, p: nat)
    ensures Bytes(input, p, 0) == []
  {
  }

  lemma {:induction false} HeaderIs(input: string, p: nat)
    requires HexRun(input, p, 4)
    ensures Bytes(input, p, 4) == [ByteOf(input, p, 0), ByteOf(input, p, 1), ByteOf(input, p, 2), ByteOf(input, p, 3)]
  {
    hide Bytes, HexRun, HexByte, ByteOf, Total;
    HexRunNext(input, p, 3);
    HexRunNext(input, p, 2);
    HexRunNext(input, p, 1);
    HexRunNext(input, p, 0);
    BytesNext(input, p, 0);
    BytesNext(input, p, 1);
    BytesNext(input, p, 2);
    BytesNext(input, p, 3);
    NoBytes(input, p);
  }

  lemma {:induction false} BytesPrefix(input: string, p: nat, k: nat, n: nat)
    requires k <= n && HexRun(input, p, n)
    ensures HexRun(input, p, k) && Bytes(input, p, k) == Bytes(input, p, n)[..k]
    decreases n
  {
    if k < n {
      BytesPrefix(input, p, k, n - 1);
      assert Bytes(input, p, n)[..n - 1] == Bytes(input, p, n - 1);
    } else {
      assert Bytes(input, p, n)[..n] == Bytes(input, p, n);
    }
  }

  /** Bytes spelled out are read as what they are. */
  lemma {:induction false} SpelledIsRead(input: string, p: nat, bytes: seq<Byte>, n: nat)
    requires Spelled(input, p, bytes) && n <= |bytes|
    ensures HexRun(input, p, n) && Bytes(input, p, n) == bytes[..n]
    decreases n
  {
    if n > 0 {
      SpelledIsRead(input, p, bytes, n - 1);
      var k := n - 1;
      assert input[p + 2 * k..p + 2 * k + 2] == Hex(bytes[k]);
      PairOfHex(input, p, k, bytes[k]);
      assert bytes[..n] == bytes[..k] + [bytes[k]];
    }
  }

  lemma {:induction false} PairOfHex(input: string, p: nat, k: nat, v: Byte)
    requires p + 2 * k + 2 <= |input| && input[p + 2 * k..p + 2 * k + 2] == Hex(v)
    ensures HexByte(input, p, k) && ByteOf(input, p, k) == v
  {
    DigitRoundTrip(v / 16);
    DigitRoundTrip(v % 16);
    var t := input[p + 2 * k..p + 2 * k + 2];
    assert t[0] == input[p + 2 * k] && t[1] == input[p + 2 * k + 1];
  }

  /** A record as the writer makes it is accepted. */
  lemma {:induction false} RecordIsAccepted(input: string, q: nat, addr: nat, data: seq<Byte>)
    requires |data| < 256 && Follows(input, q, RecordText(addr, data)) && addr < 0x10000 && addr + |data| <= 0x10000
    ensures Accepted(input, q) && DataAt(input, q)
    ensures var h := Header(input, q);
            && DataSize(h) == |data| && WordOf(h[1], h[2]) == addr && h[3] == 0 && RecordLength(h) == 5 + |data|
            && Bytes(input, q + 1, 4 + DataSize(h))[4..] == data
    ensures |RecordText(addr, data)| == 2 * (5 + |data|) + 2 && LineEnd(input, q + 1 + 2 * (5 + |data|))
  {
    hide RecordText, Follows, Total, Checksum, Spelled;
    var body := Body(addr, data);
    var all := body + [Checksum(body)];
    RecordSpells(input, q, addr, data);
    NewlineEnds(input, q + 1 + 2 * |all|);
    SpelledIsRead(input, q + 1, all, |all|);
    BytesPrefix(input, q + 1, 4, |all|);
    BytesPrefix(input, q + 1, 4 + |data|, |all|);
    assert all[..|all|] == all && all[..4] == body[..4] && all[..4 + |data|][4..] == data;
    ChecksumIsZero(body);
  }

  /** The `k` characters from `p`. */
  function Run(input: string, p: nat, k: nat): string
    requires p + k <= |input|
  {
    input[p..p + k]
  }

  lemma {:induction false} RunIs(input: string, p: nat, k: nat)
    requires p + k <= |input|
    ensures Run(input, p, k) == input[p..p + k]
  {
  }

  lemma {:induction false} RunNone(input: string, p: nat)
    requires p <= |input|
    ensures var r := Run(input, p, 0);
            AllHex(r) && Value(r) == 0 && Checks(r) == 0
  {
  }

  lemma {:induction false} RunNext(input: string, p: nat, k: nat)
    requires p + k < |input| && AllHex(Run(input, p, k)) && IsHex(input[p + k])
    ensures var r, r2 := Run(input, p, k), Run(input, p, k + 1);
            && AllHex(r2) && Value(r2) == 16 * Value(r) + ReadHex(input[p + k])
            && Checks(r2) == if k % 2 == 1 then Checks(r) + Value(r2) else Checks(r)
  {
    hide Value, Checks;
    assert Run(input, p, k + 1) == Run(input, p, k) + [input[p + k]];
    OneMore(Run(input, p, k), input[p + k]);
  }

  lemma {:induction false} RunStops(input: string, p: nat, k: nat, digits: nat)
    requires k < digits && p + k <= |input| && (p + k < |input| ==> !IsHex(input[p + k]))
    ensures p + digits <= |input| ==> !AllHex(input[p..p + digits])
  {
    if p + digits <= |input| { assert input[p..p + digits][k] == input[p + k]; }
  }

  function WordOf(hi: Byte, lo: Byte): nat {
    256 * (hi as int) + lo
  }
}
