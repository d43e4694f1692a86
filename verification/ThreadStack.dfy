/** The buffer and bit arithmetic of v2/src/get_thread_stack.c. */
module ThreadStack {
  import opened CText

  // Writing the stack text

  const NEWLINE: byte := 10
  // "\nsnprintf failed"
  const FALLBACK: CString := [10, 115, 110, 112, 114, 105, 110, 116, 102, 32, 102, 97, 105, 108, 101, 100]

  /** What snprintf_fallback_impl adds to the buffer: the text, if its call is good and it fits with
      its terminator, else what fits of the fallback text. */
  function Piece(text: CString, call: Call, fallback: CString, room: nat): (piece: CString)
    ensures |piece| <= room
  {
    if call.Good? && |text| < room then text else fallback[..Min(room, |fallback|)]
  }

  /** Memory after that: the piece over whatever the formatting call left. */
  function WithPiece(mem: seq<byte>, at: nat, room: nat, text: CString, call: Call, fallback: CString): (r: seq<byte>)
    requires at + room <= |mem|
    ensures |r| == |mem|
  {
    Overwrite(Print(mem, at, room, Cells(text), call), at, Piece(text, call, fallback, room))
  }

  /** snprintf_fallback_impl: the cursor moves over what was written, and the end of the buffer stays
      where it is. */
  method SnprintfFallback(buf: array<byte>, at: nat, room: nat, text: CString, call: Call, fallback: CString)
    returns (newAt: nat, newRoom: nat)
    requires at + room <= buf.Length
    modifies buf
    ensures newAt == at + |Piece(text, call, fallback, room)| && newAt + newRoom == at + room
    ensures buf[..] == WithPiece(old(buf[..]), at, room, text, call, fallback)
  {
    var n := Snprintf(buf, at, room, text, call);
    if n >= 0 && n < room {
      TextIsThere(old(buf[..]), at, room, text);
    } else {
      n := if room < |fallback| + 1 then room else |fallback|;
      WriteBytes(buf, at, fallback[..n]);
    }
    newAt, newRoom := at + n, room - n;
  }

  /** A fitting text is in place already, with a terminator behind it. */
  lemma TextIsThere(mem: seq<byte>, at: nat, room: nat, text: CString)
    requires at + room <= |mem| && |text| < room
    ensures var r := Put(mem, at, room, Cells(text));
            Overwrite(r, at, text) == r && r[at + |text|] == 0
  {
    TextOfCells(text, false);
    PutReads(mem, at, room, Cells(text));
    assert text[..|text|] == text;
  }

  /** A good call that does not fit ends in a terminator. */
  lemma ClippedEnds(mem: seq<byte>, at: nat, room: nat, text: CString)
    requires at + room <= |mem| && 0 < room <= |text|
    ensures Put(mem, at, room, Cells(text))[at + room - 1] == 0
  {
    PutIndex(mem, at, room, Cells(text));
  }

  /** The piece stands behind what was written before, and nothing outside the window is touched. */
  lemma PieceIsAdded(mem: seq<byte>, start: nat, at: nat, room: nat, before: seq<byte>, text: CString, call: Call, fallback: CString)
    requires at == start + |before| && at + room <= |mem| && mem[start..at] == before
    ensures var r, piece := WithPiece(mem, at, room, text, call, fallback), Piece(text, call, fallback, room);
            r[start..at + |piece|] == before + piece && SameOutside(mem, r, at, room)
  {
    var r, piece := WithPiece(mem, at, room, text, call, fallback), Piece(text, call, fallback, room);
    PrintFrame(mem, at, room, Cells(text), call);
    assert r[start..at] == mem[start..at];
    assert r[at..at + |piece|] == piece;
    assert r[start..at + |piece|] == r[start..at] + r[at..at + |piece|];
  }

  /** `text` stands in the buffer, and nothing outside the buffer has changed. */
  ghost predicate Stands(origin: seq<byte>, mem: seq<byte>, at: nat, size: nat, text: seq<byte>) {
    && at + size <= |mem| && |text| <= size && SameOutside(origin, mem, at, size)
    && mem[at..at + |text|] == text
  }

  /** How the last formatting call, if there was one, came out. */
  datatype Last = FailedLast | ClippedLast | FittedLast

  function LastOf(text: CString, call: Call, room: nat): Last {
    if call.Fails? then FailedLast else if |text| < room then FittedLast else ClippedLast
  }

  /** Behind `n` bytes of text: if the last line fitted they are terminated; if it was clipped there is
      a terminator at the end of the buffer, unless the fallback text has reached that. */
  predicate Ends(mem: seq<byte>, at: nat, size: nat, n: nat, last: Last)
    requires at + size <= |mem| && n <= size
  {
    match last
    case FailedLast => true
    case ClippedLast => n < size ==> mem[at + size - 1] == 0
    case FittedLast => n < size && mem[at + n] == 0
  }

  /** One more piece, at the cursor behind the text. */
  lemma PieceStands(origin: seq<byte>, mem: seq<byte>, at: nat, size: nat, cursor: nat, room: nat,
                    text: seq<byte>, line: CString, call: Call, fallback: CString)
    requires Stands(origin, mem, at, size, text) && cursor == at + |text| && cursor + room == at + size
    ensures Stands(origin, WithPiece(mem, cursor, room, line, call, fallback), at, size,
                   text + Piece(line, call, fallback, room))
  {
    PieceIsAdded(mem, at, cursor, room, text, line, call, fallback);
    SameOutsideTrans(origin, mem, WithPiece(mem, cursor, room, line, call, fallback), at, size, cursor, room);
  }

  lemma PieceEnds(mem: seq<byte>, at: nat, size: nat, cursor: nat, room: nat, line: CString, call: Call,
                  fallback: CString)
    requires at <= cursor && cursor + room == at + size <= |mem|
    ensures Ends(WithPiece(mem, cursor, room, line, call, fallback), at, size,
                 cursor - at + |Piece(line, call, fallback, room)|, LastOf(line, call, room))
  {
    if call.Good? && |line| < room {
      TextIsThere(mem, cursor, room, line);
    } else if call.Good? && 0 < room {
      ClippedEnds(mem, cursor, room, line);
    }
  }

  // Frames

  /** A frame as it is printed: on a new line, except the first. */
  function LineOf(frames: seq<CString>, i: nat): CString
    requires i < |frames|
  {
    if i == 0 then frames[0] else [NEWLINE] + frames[i]
  }

  /** Everything the first `n` frames put into a buffer of `size` bytes. */
  function StackText(frames: seq<CString>, calls: seq<Call>, fallback: CString, n: nat, size: nat): (text: CString)
    requires n <= |frames| == |calls|
    ensures |text| <= size
  {
    if n == 0 then []
    else
      var text := StackText(frames, calls, fallback, n - 1, size);
      text + Piece(LineOf(frames, n - 1), calls[n - 1], fallback, size - |text|)
  }

  function LastCall(frames: seq<CString>, calls: seq<Call>, fallback: CString, n: nat, size: nat): (last: Last)
    requires n <= |frames| == |calls|
  {
    if n == 0 then FittedLast
    else LastOf(LineOf(frames, n - 1), calls[n - 1], size - |StackText(frames, calls, fallback, n - 1, size)|)
  }

  /** `text` and `last` are what `n` frames lead to. */
  predicate IsStack(frames: seq<CString>, calls: seq<Call>, fallback: CString, n: nat, size: nat,
                    text: seq<byte>, last: Last)
    requires n <= |frames| == |calls|
  {
    text == StackText(frames, calls, fallback, n, size) && last == LastCall(frames, calls, fallback, n, size)
  }

  lemma StackStep(frames: seq<CString>, calls: seq<Call>, fallback: CString, i: nat, size: nat,
                  text: seq<byte>, last: Last, room: nat)
    requires i < |frames| == |calls| && IsStack(frames, calls, fallback, i, size, text, last)
    requires |text| + room == size
    ensures IsStack(frames, calls, fallback, i + 1, size, text + Piece(LineOf(frames, i), calls[i], fallback, room),
                    LastOf(LineOf(frames, i), calls[i], room))
  {
  }

  /** One pass of the frame loop: a line behind `text`, in the buffer of `size` bytes at `at`. */
  method AddFrame(buf: array<byte>, at: nat, size: nat, destination: nat, room: nat, line: CString, call: Call,
                  fallback: CString, ghost text: seq<byte>, ghost origin: seq<byte>)
    returns (newDestination: nat, newRoom: nat)
    requires Stands(origin, buf[..], at, size, text)
    requires destination == at + |text| && destination + room == at + size
    modifies buf
    ensures var more := text + Piece(line, call, fallback, room);
            && newDestination == at + |more| && newDestination + newRoom == at + size
            && Stands(origin, buf[..], at, size, more)
            && Ends(buf[..], at, size, newDestination - at, LastOf(line, call, room))
  {
    PieceStands(origin, buf[..], at, size, destination, room, text, line, call, fallback);
    PieceEnds(buf[..], at, size, destination, room, line, call, fallback);
    newDestination, newRoom := SnprintfFallback(buf, destination, room, line, call, fallback);
  }

  /** The frame loop of get_thread_stack, for any frames the unwinder delivers and any formatting
      failures. */
  method WriteFrames(buf: array<byte>, at: nat, size: nat, frames: seq<CString>, calls: seq<Call>, fallback: CString)
    returns (destination: nat, room: nat)
    requires 0 < size && at + size <= buf.Length && |calls| == |frames| && buf[at] == 0
    modifies buf
    ensures var text := StackText(frames, calls, fallback, |frames|, size);
            && destination == at + |text| && destination + room == at + size
            && Stands(old(buf[..]), buf[..], at, size, text)
            && Ends(buf[..], at, size, |text|, LastCall(frames, calls, fallback, |frames|, size))
  {
    destination, room := at, size;
    ghost var origin := buf[..];
    ghost var text: seq<byte>, last := [], FittedLast;
    var i := 0;
    while i < |frames|
      invariant 0 <= i <= |frames| && destination == at + |text| && destination + room == at + size
      invariant IsStack(frames, calls, fallback, i, size, text, last)
      invariant Stands(origin, buf[..], at, size, text)
      invariant Ends(buf[..], at, size, |text|, last)
    {
      StackStep(frames, calls, fallback, i, size, text, last, room);
      var line, call := LineOf(frames, i), calls[i];
      ghost var more := text + Piece(line, call, fallback, room);
      last := LastOf(line, call, room);
      destination, room := AddFrame(buf, at, size, destination, room, line, call, fallback, text, origin);
      text := more;
      i := i + 1;
    }
  }

  /** get_thread_stack from its first byte on. Only the buffer is written, and it starts with the text
      of the frames; if the last of them fits it reads as that text. If the thread's resumption
      succeeds or is not needed, the last byte becomes a terminator. If it fails the function returns
      before that: then a text that fills the buffer leaves no terminator, and if the last call is good
      nothing else does. */
  method WriteStack(buf: array<byte>, at: nat, size: nat, frames: seq<CString>, calls: seq<Call>,
                    fallback: CString, resumed: bool)
    requires 0 < size && at + size <= buf.Length && |calls| == |frames|
    modifies buf
    ensures var text, last := StackText(frames, calls, fallback, |frames|, size), LastCall(frames, calls, fallback, |frames|, size);
            && SameOutside(old(buf[..]), buf[..], at, size)
            && ShowsStack(buf[..], at, size, text, last, resumed)
  {
    buf[at] := 0;
    ghost var cleared := buf[..];
    var destination, room := WriteFrames(buf, at, size, frames, calls, fallback);
    ghost var text, last := StackText(frames, calls, fallback, |frames|, size), LastCall(frames, calls, fallback, |frames|, size);
    ghost var before := buf[..];
    SameOutsideTrans(old(buf[..]), cleared, before, at, size, at, size);
    if !resumed {
      OpenStack(before, at, size, text, last);
    } else {
      buf[destination + room - 1] := 0;
      assert buf[..] == before[at + size - 1 := 0];
      ClosedStack(before, at, size, text, last);
    }
  }

  /** What the caller of get_thread_stack finds. */
  ghost predicate ShowsStack(mem: seq<byte>, at: nat, size: nat, text: CString, last: Last, resumed: bool) {
    && 0 < size && at + size <= |mem| && |text| <= size
    && (last.FittedLast? ==> ReadsAs(mem, at, text))
    && (if resumed then
          var n := Min(|text|, size - 1);
          mem[at..at + n] == text[..n] && mem[at + size - 1] == 0
        else
          && mem[at..at + |text|] == text
          && (|text| == size ==> 0 !in mem[at..at + size])
          && (!last.FailedLast? ==> (0 in mem[at..at + size] <==> |text| < size)))
  }

  lemma OpenStack(mem: seq<byte>, at: nat, size: nat, text: CString, last: Last)
    requires 0 < size && at + size <= |mem| && |text| <= size && mem[at..at + |text|] == text
    requires Ends(mem, at, size, |text|, last)
    ensures ShowsStack(mem, at, size, text, last, false)
  {
    var window := mem[at..at + size];
    if |text| < size && !last.FailedLast? {
      assert window[|text|] == 0 || window[size - 1] == 0;
    }
  }

  /** The final terminator costs at most the last character. */
  lemma ClosedStack(mem: seq<byte>, at: nat, size: nat, text: CString, last: Last)
    requires 0 < size && at + size <= |mem| && |text| <= size && mem[at..at + |text|] == text
    requires Ends(mem, at, size, |text|, last)
    ensures ShowsStack(mem[at + size - 1 := 0], at, size, text, last, true)
  {
    var n, r := Min(|text|, size - 1), mem[at + size - 1 := 0];
    assert r[at..at + n] == mem[at..at + |text|][..n];
    assert last.FittedLast? ==> text[..n] == text;
  }

  // What the text says

  /** The first `n` frames, one per line. */
  function Joined(frames: seq<CString>, n: nat): (text: CString)
    requires n <= |frames|
  {
    if n == 0 then [] else Joined(frames, n - 1) + LineOf(frames, n - 1)
  }

  /** Frame `i` is printed whole if the frames before it are. */
  predicate Fits(frames: seq<CString>, calls: seq<Call>, i: nat, size: nat)
    requires i < |frames| == |calls|
  {
    calls[i].Good? && |Joined(frames, i)| + |LineOf(frames, i)| < size
  }

  /** The number of frames before the first that fails or does not fit. */
  function Shown(frames: seq<CString>, calls: seq<Call>, n: nat, size: nat): (k: nat)
    requires n <= |frames| == |calls|
    ensures k <= n
    ensures forall i :: 0 <= i < k ==> Fits(frames, calls, i, size)
    ensures k < n ==> !Fits(frames, calls, k, size)
  {
    if n == 0 then 0
    else
      var k := Shown(frames, calls, n - 1, size);
      if k == n - 1 && Fits(frames, calls, k, size) then n else k
  }

  /** The text starts with those frames, and is no more than that if there are no others. Otherwise
      the fallback text follows, as far as it fits. */
  predicate StartsWith(frames: seq<CString>, fallback: CString, k: nat, n: nat, size: nat, text: seq<byte>, last: Last)
    requires k <= n <= |frames|
  {
    var shown := Joined(frames, k);
    && |shown| < size
    && if k == n then text == shown && last.FittedLast?
       else shown + fallback[..Min(size - |shown|, |fallback|)] <= text
  }

  lemma {:induction false} ShownFirst(frames: seq<CString>, calls: seq<Call>, fallback: CString, n: nat, size: nat,
                                      text: seq<byte>, last: Last)
    requires n <= |frames| == |calls| && 0 < size && IsStack(frames, calls, fallback, n, size, text, last)
    ensures FirstShown(frames, calls, fallback, n, size, text, last)
    decreases n
  {
    if 0 < n {
      var before, lastBefore := StackText(frames, calls, fallback, n - 1, size), LastCall(frames, calls, fallback, n - 1, size);
      ShownFirst(frames, calls, fallback, n - 1, size, before, lastBefore);
      StackStep(frames, calls, fallback, n - 1, size, before, lastBefore, size - |before|);
      if Shown(frames, calls, n - 1, size) < n - 1 {
        StillFirst(frames, fallback, Shown(frames, calls, n - 1, size), n - 1, size, before, lastBefore, text, last);
      } else {
        NextFrame(frames, calls, fallback, n - 1, size, before);
      }
    }
  }

  predicate FirstShown(frames: seq<CString>, calls: seq<Call>, fallback: CString, n: nat, size: nat,
                       text: seq<byte>, last: Last)
    requires n <= |frames| == |calls|
  {
    StartsWith(frames, fallback, Shown(frames, calls, n, size), n, size, text, last)
  }

  lemma StillFirst(frames: seq<CString>, fallback: CString, k: nat, n: nat, size: nat, text: seq<byte>, last: Last,
                   more: seq<byte>, next: Last)
    requires k < n < |frames| && StartsWith(frames, fallback, k, n, size, text, last) && text <= more
    ensures StartsWith(frames, fallback, k, n + 1, size, more, next)
  {
  }

  lemma NextFrame(frames: seq<CString>, calls: seq<Call>, fallback: CString, n: nat, size: nat, text: seq<byte>)
    requires n < |frames| == |calls| && text == Joined(frames, n) && |text| < size
    ensures var line, room := LineOf(frames, n), size - |text|;
            StartsWith(frames, fallback, if Fits(frames, calls, n, size) then n + 1 else n, n + 1, size,
                       text + Piece(line, calls[n], fallback, room), LastOf(line, calls[n], room))
  {
    assert Joined(frames, n + 1) == Joined(frames, n) + LineOf(frames, n);
  }

  /** Where frame `i` stands: behind the earlier frames and one newline each. */
  function FrameOffset(frames: seq<CString>, i: nat): nat
    requires i <= |frames|
  {
    if i == 0 then 0 else FrameOffset(frames, i - 1) + |frames[i - 1]| + 1
  }

  lemma {:induction false} JoinedLength(frames: seq<CString>, n: nat)
    requires 0 < n <= |frames|
    ensures |Joined(frames, n)| + 1 == FrameOffset(frames, n)
  {
    if 1 < n {
      JoinedLength(frames, n - 1);
    }
  }

  /** `frame` stands in the text at `at`, on a new line unless it is the first. */
  predicate OnItsLine(text: seq<byte>, frame: seq<byte>, at: nat, first: bool) {
    && at + |frame| <= |text| && text[at..at + |frame|] == frame
    && (!first ==> 0 < at && text[at - 1] == '\n' as int)
  }

  /** The first `n` frames have frame `i` in its place. */
  predicate ShowsFrame(frames: seq<CString>, n: nat, i: nat)
    requires i < n <= |frames|
  {
    OnItsLine(Joined(frames, n), frames[i], FrameOffset(frames, i), i == 0)
  }

  lemma {:induction false} FrameStands(frames: seq<CString>, n: nat, i: nat)
    requires i < n <= |frames|
    ensures ShowsFrame(frames, n, i)
    decreases n
  {
    if i < n - 1 {
      FrameStands(frames, n - 1, i);
      StillOnItsLine(Joined(frames, n - 1), LineOf(frames, n - 1), frames[i], FrameOffset(frames, i), i == 0);
    } else {
      LastFrameStands(frames, i);
    }
  }

  lemma LastFrameStands(frames: seq<CString>, i: nat)
    requires i < |frames|
    ensures ShowsFrame(frames, i + 1, i)
  {
    if 0 < i {
      JoinedLength(frames, i);
    }
    LastOnItsLine(Joined(frames, i), frames[i], LineOf(frames, i), FrameOffset(frames, i), i == 0);
  }

  lemma StillOnItsLine(text: seq<byte>, more: seq<byte>, frame: seq<byte>, at: nat, first: bool)
    requires OnItsLine(text, frame, at, first)
    ensures OnItsLine(text + more, frame, at, first)
  {
    assert (text + more)[at..at + |frame|] == text[at..at + |frame|];
  }

  lemma LastOnItsLine(text: seq<byte>, frame: seq<byte>, line: seq<byte>, at: nat, first: bool)
    requires if first then text == [] && line == frame && at == 0
             else line == [NEWLINE] + frame && at == |text| + 1
    ensures OnItsLine(text + line, frame, at, first)
  {
    assert (text + line)[at..at + |frame|] == frame;
  }

  lemma FallbackIsSpelled()
    ensures FALLBACK == Ascii("\nsnprintf failed")
  {
  }

  // No terminator

  const LONG_FRAME: CString := seq(100, _ => 97)

  /** Three long frames and a buffer of 40 bytes: two and a half fallback texts fill it, and a thread
      that cannot be resumed leaves it so. */
  lemma FilledStack()
    ensures var frames, calls := [LONG_FRAME, LONG_FRAME, LONG_FRAME], [Good, Good, Good];
            |StackText(frames, calls, FALLBACK, 3, 40)| == 40
  {
    var frames, calls := [LONG_FRAME, LONG_FRAME, LONG_FRAME], [Good, Good, Good];
    assert |StackText(frames, calls, FALLBACK, 1, 40)| == 16;
    assert |StackText(frames, calls, FALLBACK, 2, 40)| == 32;
  }

  /** After a failing call that leaves room there may or may not be a terminator: it depends on what
      that call has left in the buffer. */
  lemma NoiseDecides(mem: seq<byte>, at: nat, room: nat, text: CString, fallback: CString)
    requires at + room <= |mem| && |fallback| < room
    ensures var ones := seq(room, _ => 1);
            && 0 !in WithPiece(mem, at, room, text, Fails(Cells(ones, true)), fallback)[at..at + room]
            && 0 in WithPiece(mem, at, room, text, Fails(Cells(ones)), fallback)[at..at + room]
  {
    var ones: seq<byte> := seq(room, _ => 1);
    var open := WithPiece(mem, at, room, text, Fails(Cells(ones, true)), fallback)[at..at + room];
    var closed := WithPiece(mem, at, room, text, Fails(Cells(ones)), fallback)[at..at + room];
    PieceAt(mem, at, room, text, Fails(Cells(ones)), fallback, room - 1);
    assert closed[room - 1] == 0;
    forall k | 0 <= k < room
      ensures open[k] != 0
    {
      PieceAt(mem, at, room, text, Fails(Cells(ones, true)), fallback, k);
    }
  }

  /** Byte `k` of the window after a failing call. */
  lemma PieceAt(mem: seq<byte>, at: nat, room: nat, text: CString, call: Call, fallback: CString, k: nat)
    requires at + room <= |mem| && k < room && call.Fails?
    ensures WithPiece(mem, at, room, text, call, fallback)[at + k]
         == if k < |fallback| then fallback[k] else PutAt(mem, at, room, call.noise, at + k)
    ensures k < |fallback| ==> fallback[k] != 0
  {
    PutIndex(mem, at, room, call.noise);
    assert k < |fallback| ==> fallback[k] in fallback;
  }

  // The address mask

  /** The six shift-or steps of get_thread_stack_init. */
  function AddressMask(maxAddress: bv64): (mask: bv64) {
    var m := maxAddress | (maxAddress >> 1);
    var m := m | (m >> 2);
    var m := m | (m >> 4);
    var m := m | (m >> 8);
    var m := m | (m >> 16);
    m | (m >> 32)
  }

  function StripPac(address: bv64, mask: bv64): (r: bv64) {
    address & mask
  }

  /** Every set bit has all bits below it set. */
  predicate AllOnes(mask: bv64) {
    (mask >> 1) & mask == mask >> 1
  }

  lemma MaskIsAllOnes(a: bv64)
    ensures AllOnes(AddressMask(a))
  {
  }

  lemma MaskCovers(a: bv64)
    ensures a & AddressMask(a) == a
  {
  }

  lemma MaskIsNotBelow(a: bv64)
    ensures a <= AddressMask(a)
  {
  }

  lemma MaskIsLeast(a: bv64, m: bv64)
    requires AllOnes(m) && a <= m
    ensures AddressMask(a) <= m
  {
  }

  /** Stripping never touches a valid address ... */
  lemma StripKeepsValid(maxAddress: bv64, address: bv64)
    requires address <= maxAddress
    ensures StripPac(address, AddressMask(maxAddress)) == address
  {
  }

  /** ... and undoes any signature in the bits above the mask, once and for all. */
  lemma StripRecovers(address: bv64, signature: bv64, mask: bv64)
    requires StripPac(address, mask) == address && signature & mask == 0
    ensures StripPac(address | signature, mask) == address
    ensures StripPac(StripPac(address | signature, mask), mask) == StripPac(address | signature, mask)
  {
  }
}
