/** Bytes, C strings, and the clipped writes that every text producer of the library is built from. */
module CText {

  type byte = x: int | 0 <= x < 256

  /** The characters of a C string, without its terminator. */
  type CString = s: seq<byte> | 0 !in s

  /** The byte of an ASCII character; no other occurs. */
  function ByteOf(c: char): byte {
    if c < 128 as char then c as int else 63
  }

  /** The bytes of a string literal. */
  function Ascii(s: string): (bs: seq<byte>) {
    seq(|s|, i requires 0 <= i < |s| => ByteOf(s[i]))
  }

  const SPACE: byte := 32
  const EQUALS: byte := 61
  const OPEN_BRACE: byte := 123
  const CLOSE_BRACE: byte := 125

  function Min(a: int, b: int): int {
    if a < b then a else b
  }

  /** One printed character. `wide` marks the characters `wcstombs` produced: alone among the
      producers it may put a character in the last byte of its window, leaving no terminator. */
  datatype Cell = Cell(ch: byte, wide: bool)

  function Cells(s: seq<byte>, wide: bool := false): (cs: seq<Cell>) {
    seq(|s|, i requires 0 <= i < |s| => Cell(s[i], wide))
  }

  function Text(cs: seq<Cell>): (s: seq<byte>) {
    seq(|cs|, i requires 0 <= i < |cs| => cs[i].ch)
  }

  /** The byte at index `i` once `cs` has been printed into the window `mem[at..at + room]`. */
  function PutAt(mem: seq<byte>, at: nat, room: nat, cs: seq<Cell>, i: nat): byte
    requires i < |mem|
  {
    var k := i - at;
    if k < 0 || room <= k then mem[i]
    else if k < |cs| then (if k < room - 1 || cs[k].wide then cs[k].ch else 0)
    else if k == |cs| then 0
    else mem[i]
  }

  /** Memory after printing `cs` at `at` with `room` bytes available: what fits of `cs`, then a
      terminator that takes the place of the last character when `cs` is too long. */
  function Put(mem: seq<byte>, at: nat, room: nat, cs: seq<Cell>): (r: seq<byte>)
    ensures |r| == |mem|
  {
    PutUpTo(mem, at, room, cs, |mem|)
  }

  /** The first `n` bytes of that memory. */
  function PutUpTo(mem: seq<byte>, at: nat, room: nat, cs: seq<Cell>, n: nat): (r: seq<byte>)
    requires n <= |mem|
    ensures |r| == n
  {
    if n == 0 then [] else PutUpTo(mem, at, room, cs, n - 1) + [PutAt(mem, at, room, cs, n - 1)]
  }

  lemma {:induction n} PutUpToIndex(mem: seq<byte>, at: nat, room: nat, cs: seq<Cell>, n: nat)
    requires n <= |mem|
    ensures forall i :: 0 <= i < n ==> PutUpTo(mem, at, room, cs, n)[i] == PutAt(mem, at, room, cs, i)
  {
  }

  lemma PutIndex(mem: seq<byte>, at: nat, room: nat, cs: seq<Cell>)
    ensures forall i :: 0 <= i < |mem| ==> Put(mem, at, room, cs)[i] == PutAt(mem, at, room, cs, i)
  {
    PutUpToIndex(mem, at, room, cs, |mem|);
  }

  /** Printing in two steps, the second one where the first left its cursor, is printing once. */
  lemma PutPut(mem: seq<byte>, at: nat, room: nat, a: seq<Cell>, b: seq<Cell>)
    ensures var n := Min(|a|, room);
            Put(Put(mem, at, room, a), at + n, room - n, b) == Put(mem, at, room, a + b)
  {
    var n := Min(|a|, room);
    PutIndex(mem, at, room, a);
    PutIndex(Put(mem, at, room, a), at + n, room - n, b);
    PutIndex(mem, at, room, a + b);
    assert Put(Put(mem, at, room, a), at + n, room - n, b) == Put(mem, at, room, a + b);
  }

  /** The two memories differ at most inside the window of `room` bytes at `at`. */
  predicate SameOutside(before: seq<byte>, after: seq<byte>, at: nat, room: nat) {
    && |before| == |after|
    && forall i :: 0 <= i < |before| && !(at <= i < at + room) ==> before[i] == after[i]
  }

  /** A write in a part of the window adds nothing to what the window allows. */
  lemma SameOutsideTrans(a: seq<byte>, b: seq<byte>, c: seq<byte>,
                         at: nat, room: nat, at2: nat, room2: nat)
    requires SameOutside(a, b, at, room) && SameOutside(b, c, at2, room2)
    requires at <= at2 && at2 + room2 <= at + room
    ensures SameOutside(a, c, at, room)
  {
  }

  /** `mem`, read as a C string from index `at`, is `s`. */
  predicate ReadsAs(mem: seq<byte>, at: nat, s: seq<byte>) {
    at + |s| < |mem| && mem[at..at + |s|] == s && 0 !in s && mem[at + |s|] == 0
  }

  /** What a reader finds in a window after a print: the longest prefix that leaves room for the
      terminator - unless the cut falls on a wide character. */
  lemma PutReads(mem: seq<byte>, at: nat, room: nat, cs: seq<Cell>)
    requires 0 < room && at + room <= |mem|
    requires 0 !in Text(cs)
    ensures var n := Min(|cs|, room - 1);
            var r := Put(mem, at, room, cs);
            && r[at..at + n] == Text(cs)[..n]
            && (ReadsAs(r, at, Text(cs)[..n]) <==> !(room <= |cs| && cs[room - 1].wide))
  {
    var n := Min(|cs|, room - 1);
    var r := Put(mem, at, room, cs);
    PutIndex(mem, at, room, cs);
    var a, b := r[at..at + n], Text(cs)[..n];
    forall k | 0 <= k < n
      ensures a[k] == b[k]
    {
      assert a[k] == r[at + k];
    }
    assert a == b;
    if room <= |cs| {
      assert Text(cs)[room - 1] in Text(cs);
    }
  }

  lemma TextConcat(a: seq<Cell>, b: seq<Cell>)
    ensures Text(a + b) == Text(a) + Text(b)
  {
  }

  lemma TextOfCells(s: seq<byte>, wide: bool)
    ensures Text(Cells(s, wide)) == s
  {
  }

  /** How a formatting call turns out. A failing call may leave anything in its window: noise that
      fills the window with wide cells is any content at all. */
  datatype Call = Good | Fails(noise: seq<Cell>)

  /** Memory after a call that prints `cs` into the window `mem[at..at + room]`. */
  function Print(mem: seq<byte>, at: nat, room: nat, cs: seq<Cell>, call: Call): (r: seq<byte>)
    ensures |r| == |mem|
  {
    Put(mem, at, room, if call.Good? then cs else call.noise)
  }

  /** No call writes outside the window it was given. */
  lemma PrintFrame(mem: seq<byte>, at: nat, room: nat, cs: seq<Cell>, call: Call)
    ensures SameOutside(mem, Print(mem, at, room, cs, call), at, room)
  {
    PutIndex(mem, at, room, if call.Good? then cs else call.noise);
  }

  method PutCells(buf: array<byte>, at: nat, room: nat, cs: seq<Cell>)
    requires at + room <= buf.Length
    modifies buf
    ensures buf[..] == Put(old(buf[..]), at, room, cs)
  {
    forall i | 0 <= i < Min(|cs|, room) {
      buf[at + i] := if i < room - 1 || cs[i].wide then cs[i].ch else 0;
    }
    if |cs| < room {
      buf[at + |cs|] := 0;
    }
    PutIndex(old(buf[..]), at, room, cs);
    assert buf[..] == Put(old(buf[..]), at, room, cs);
  }

  /** snprintf and vsnprintf (sections 7.21.6.5 and 7.21.6.12 of ISO/IEC 9899:2011), for a format
      whose expansion is `text`. */
  method Snprintf(buf: array<byte>, at: nat, room: nat, text: CString, call: Call) returns (r: int)
    requires at + room <= buf.Length
    modifies buf
    ensures r == if call.Fails? then -1 else |text|
    ensures buf[..] == Print(old(buf[..]), at, room, Cells(text), call)
  {
    PutCells(buf, at, room, if call.Good? then Cells(text) else call.noise);
    return if call.Fails? then -1 else |text|;
  }

  /** wcstombs (section 7.22.8.2 of ISO/IEC 9899:2011) for a string whose characters convert to
      the single bytes `text`: no terminator is written when the window is filled. */
  method Wcstombs(buf: array<byte>, at: nat, room: nat, text: CString, call: Call) returns (r: int)
    requires at + room <= buf.Length
    modifies buf
    ensures r == if call.Fails? then -1 else Min(|text|, room)
    ensures buf[..] == Print(old(buf[..]), at, room, Cells(text, true), call)
  {
    PutCells(buf, at, room, if call.Good? then Cells(text, true) else call.noise);
    return if call.Fails? then -1 else Min(|text|, room);
  }

  /** `bytes` stored at `at`. */
  function Overwrite(mem: seq<byte>, at: nat, bytes: seq<byte>): (r: seq<byte>)
    requires at + |bytes| <= |mem|
    ensures |r| == |mem|
  {
    mem[..at] + bytes + mem[at + |bytes|..]
  }

  /** memcpy. */
  method WriteBytes(a: array<byte>, at: nat, bytes: seq<byte>)
    requires at + |bytes| <= a.Length
    modifies a
    ensures a[..] == Overwrite(old(a[..]), at, bytes)
  {
    forall i | 0 <= i < |bytes| {
      a[at + i] := bytes[i];
    }
  }
}
