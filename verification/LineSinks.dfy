/** The sinks that build one line of text: v2/src/log_sink_callback.c and v2/src/log_sink_console.c. */
module LineSinks {
  import opened CText
  import opened PropertyForest
  import opened PropertyPrinter

  const MAX_MESSAGE_LENGTH := 4096

  /** What a line is made of: the expanded header, the context's forest (None for a NULL context; an
      overflowed context is the empty forest), the expanded message, and how the calls turn out. */
  datatype LineInput = LineInput(header: CString, context: Context, message: CString,
                                 headerCall: Call, contextCalls: Oracle, messageCall: Call)

  datatype Context = None | Some(forest: Forest)

  /** The line buffer at the end, or an error on the way. */
  datatype Line = Error | Line(mem: seq<byte>)

  function AfterHeader(mem: seq<byte>, input: LineInput): Cursor {
    Cursor(mem, 0, MAX_MESSAGE_LENGTH, 0)
      .Advance(Print(mem, 0, MAX_MESSAGE_LENGTH, Cells(input.header), input.headerCall), |input.header|)
      .(result := 0)
  }

  predicate ContextFails(c: Cursor, input: LineInput) {
    input.context.Some? &&
    (c.room == 0 || input.context.forest.Empty? ||
     Run(input.context.forest, 0, c, input.contextCalls).result < 0)
  }

  function AfterContext(c: Cursor, input: LineInput): Cursor
    requires !ContextFails(c, input)
  {
    if input.context.None? then c
    else
      var r := Run(input.context.forest, 0, c, input.contextCalls);
      c.Advance(r.mem, r.result)
  }

  function AfterMessage(c: Cursor, input: LineInput): Line
    requires c.at + c.room <= |c.mem|
  {
    if c.room <= 1 then Line(c.mem)
    else if input.messageCall.Fails? then Error
    else Line(Put(c.mem[c.at := SPACE], c.at + 1, c.room - 1, Cells(input.message)))
  }

  /** The line for `input` in a buffer that starts out as `mem`. */
  function LineFor(mem: seq<byte>, input: LineInput): Line
    requires |mem| == MAX_MESSAGE_LENGTH
  {
    if input.headerCall.Fails? then Error
    else
      var c := AfterHeader(mem, input);
      if ContextFails(c, input) then Error
      else
        assert |AfterContext(c, input).mem| == MAX_MESSAGE_LENGTH by {
          if input.context.Some? {
            RunFrame(input.context.forest, 0, c, input.contextCalls);
          }
        }
        AfterMessage(AfterContext(c, input), input)
  }

  /** The part the two sinks share: header, properties, a space and the message. */
  method BuildLine(temp: array<byte>, pairs: seq<Entry>, input: LineInput) returns (error: bool)
    requires temp.Length == MAX_MESSAGE_LENGTH
    requires input.context.Some? ==> LaidOut(pairs, 0, input.context.forest) && Size(input.context.forest) == |pairs|
    modifies temp
    ensures (if error then Error else Line(temp[..])) == LineFor(old(temp[..]), input)
  {
    var buffer, size := 0, MAX_MESSAGE_LENGTH;
    var n := Snprintf(temp, buffer, size, input.header, input.headerCall);
    if n < 0 {
      return true;
    }
    n := Min(n, size);
    buffer, size := buffer + n, size - n;
    ghost var c := AfterHeader(old(temp[..]), input);
    assert c == Cursor(temp[..], buffer, size, 0);
    if input.context.Some? {
      SiblingsAndSize(input.context.forest);
      n := LogContextPropertyToString(temp, buffer, size, pairs, input.contextCalls, input.context.forest);
      if n < 0 {
        return true;
      }
      n := Min(n, size);
      buffer, size := buffer + n, size - n;
    }
    ghost var d := AfterContext(c, input);
    assert d == Cursor(temp[..], buffer, size, d.result);
    error := AddMessage(temp, buffer, size, input, d);
  }

  /** A space and the message, if there is room for more than a terminator; `c` is the cursor. */
  method AddMessage(temp: array<byte>, buffer: nat, size: nat, input: LineInput, ghost c: Cursor) returns (error: bool)
    requires buffer + size <= temp.Length && c == Cursor(temp[..], buffer, size, c.result)
    modifies temp
    ensures (if error then Error else Line(temp[..])) == AfterMessage(c, input)
  {
    if size > 1 {
      temp[buffer] := SPACE;
      assert temp[..] == c.mem[buffer := SPACE];
      var n := Snprintf(temp, buffer + 1, size - 1, input.message, input.messageCall);
      if n < 0 {
        return true;
      }
    }
    return false;
  }

  // What the line says

  /** The whole line: header, context, a space, message. */
  function LineCells(input: LineInput): (cs: seq<Cell>) {
    ContextCells(input) + Cells([SPACE] + input.message)
  }

  function ContextCells(input: LineInput): (cs: seq<Cell>) {
    Cells(input.header) + if input.context.None? then [] else Render(input.context.forest)
  }

  predicate AllGood(input: LineInput) {
    && input.headerCall.Good? && input.messageCall.Good?
    && (input.context.Some? ==> Clean(input.context.forest, 0, input.contextCalls))
  }

  /** A given context can be printed: it holds pairs, and the header leaves room. */
  predicate ContextFits(input: LineInput) {
    input.context.Some? ==> |input.header| < MAX_MESSAGE_LENGTH && !input.context.forest.Empty?
  }

  lemma PutSpace(mem: seq<byte>, at: nat, room: nat, message: CString)
    requires 1 < room && at + room <= |mem|
    ensures Put(mem[at := SPACE], at + 1, room - 1, Cells(message)) == Put(mem, at, room, Cells([SPACE] + message))
  {
    var a, b := Put(mem[at := SPACE], at + 1, room - 1, Cells(message)), Put(mem, at, room, Cells([SPACE] + message));
    PutIndex(mem[at := SPACE], at + 1, room - 1, Cells(message));
    PutIndex(mem, at, room, Cells([SPACE] + message));
    assert a == b;
  }

  /** With at most one byte left there is only the terminator to write, and it is there already. */
  lemma PutFull(mem: seq<byte>, room: nat, a: seq<Cell>, b: seq<Cell>)
    requires 0 < room <= |mem| && room <= |a| + 1 && b != [] && !b[0].wide
    ensures Put(mem, 0, room, a + b) == Put(mem, 0, room, a)
  {
    PutIndex(mem, 0, room, a);
    PutIndex(mem, 0, room, a + b);
    assert Put(mem, 0, room, a + b) == Put(mem, 0, room, a);
  }

  /** Without encoding errors a sink fails exactly when it is given a context it cannot print. */
  lemma ErrorIff(mem: seq<byte>, input: LineInput)
    requires |mem| == MAX_MESSAGE_LENGTH && AllGood(input)
    ensures LineFor(mem, input).Error? <==> !ContextFits(input)
  {
    if input.context.Some? {
      CleanRun(input.context.forest, 0, AfterHeader(mem, input), input.contextCalls);
    }
  }

  /** Otherwise the buffer holds the whole line, clipped once at its end. */
  lemma LineIsClipped(mem: seq<byte>, input: LineInput)
    requires |mem| == MAX_MESSAGE_LENGTH && AllGood(input) && ContextFits(input)
    ensures LineFor(mem, input) == Line(Put(mem, 0, MAX_MESSAGE_LENGTH, LineCells(input)))
  {
    ContextIsClipped(mem, input);
    MessageIsClipped(mem, AfterContext(AfterHeader(mem, input), input), input);
  }

  /** The cells `cs` have been printed to the buffer that was `mem`, and the cursor is behind them. */
  predicate HasPrinted(c: Cursor, mem: seq<byte>, cs: seq<Cell>) {
    && c.mem == Put(mem, 0, MAX_MESSAGE_LENGTH, cs)
    && c.at == Min(|cs|, MAX_MESSAGE_LENGTH) && c.room == MAX_MESSAGE_LENGTH - c.at
  }

  lemma MessageIsClipped(mem: seq<byte>, c: Cursor, input: LineInput)
    requires |mem| == MAX_MESSAGE_LENGTH && input.messageCall.Good? && HasPrinted(c, mem, ContextCells(input))
    ensures AfterMessage(c, input) == Line(Put(mem, 0, MAX_MESSAGE_LENGTH, LineCells(input)))
  {
    var cs, tail := ContextCells(input), Cells([SPACE] + input.message);
    if c.room <= 1 {
      PutFull(mem, MAX_MESSAGE_LENGTH, cs, tail);
    } else {
      PutSpace(c.mem, c.at, c.room, input.message);
      PutPut(mem, 0, MAX_MESSAGE_LENGTH, cs, tail);
    }
  }

  lemma ContextIsClipped(mem: seq<byte>, input: LineInput)
    requires |mem| == MAX_MESSAGE_LENGTH && AllGood(input) && ContextFits(input)
    ensures var c := AfterHeader(mem, input);
            !ContextFails(c, input) && HasPrinted(AfterContext(c, input), mem, ContextCells(input))
  {
    var c := AfterHeader(mem, input);
    assert HasPrinted(c, mem, Cells(input.header));
    if input.context.None? {
      assert Cells(input.header) + [] == Cells(input.header);
    } else {
      ContextIsPrinted(c, input);
      RenderHead(input.context.forest);
      PrintedBehind(c, mem, Cells(input.header), Render(input.context.forest));
    }
  }

  lemma PrintedBehind(c: Cursor, mem: seq<byte>, a: seq<Cell>, b: seq<Cell>)
    requires HasPrinted(c, mem, a) && b != []
    ensures HasPrinted(Printed(c, b), mem, a + b)
  {
    PutPut(mem, 0, MAX_MESSAGE_LENGTH, a, b);
  }

  lemma ContextIsPrinted(c: Cursor, input: LineInput)
    requires input.context.Some? && !input.context.forest.Empty? && 0 < c.room && c.result == 0
    requires Clean(input.context.forest, 0, input.contextCalls)
    ensures !ContextFails(c, input) && AfterContext(c, input) == Printed(c, Render(input.context.forest))
  {
    var f := input.context.forest;
    CleanRun(f, 0, c, input.contextCalls);
    AdvanceOverFields(c, Render(f), Run(f, 0, c, input.contextCalls));
  }

  /** The whole line as plain text. */
  function LineText(input: LineInput): (text: seq<byte>) {
    input.header + ContextText(input.context) + [32] + input.message
  }

  function ContextText(context: Context): (text: seq<byte>) {
    if context.None? then [] else Text(Render(context.forest))
  }

  lemma LineTextIs(input: LineInput)
    ensures Text(LineCells(input)) == LineText(input)
  {
    TextConcat(ContextCells(input), Cells([SPACE] + input.message));
    TextOfCells([SPACE] + input.message, false);
    TextOfCells(input.header, false);
    if input.context.None? {
      assert Cells(input.header) + [] == Cells(input.header);
    } else {
      TextConcat(Cells(input.header), Render(input.context.forest));
    }
    Associative(input.header + ContextText(input.context), [32], input.message);
  }

  /** Character 4096 of the line belongs to a wide value. */
  predicate CutInWide(input: LineInput) {
    4096 <= |LineCells(input)| && LineCells(input)[4095].wide
  }

  /** The buffer shows the line of `input`: its first 4095 characters, terminated unless a wide
      character took the last byte. */
  ghost predicate ShowsLine(mem: seq<byte>, input: LineInput) {
    var text := LineText(input);
    var n := Min(|text|, 4095);
    && |mem| == 4096 && mem[..n] == text[..n]
    && (ReadsAs(mem, 0, text[..n]) <==> !CutInWide(input))
  }

  /** The line reads as the first 4095 characters of header, context, space and message - unless
      character 4096 of that text belongs to a wide value, when the buffer has no terminator. */
  lemma LineReads(mem: seq<byte>, input: LineInput)
    requires |mem| == MAX_MESSAGE_LENGTH && AllGood(input) && ContextFits(input)
    ensures LineFor(mem, input).Line? && ShowsLine(LineFor(mem, input).mem, input)
  {
    LineIsClipped(mem, input);
    LineHasNoNul(input);
    LineTextIs(input);
    PutReads(mem, 0, MAX_MESSAGE_LENGTH, LineCells(input));
  }

  lemma LineHasNoNul(input: LineInput)
    ensures 0 !in Text(LineCells(input))
  {
    LineTextIs(input);
    if input.context.Some? {
      RenderHasNoNul(input.context.forest);
    }
  }

  // Errors

  /** The room header and context leave, if nothing stops the line before. */
  function RoomForMessage(input: LineInput): (n: nat) {
    var room := 4096 - Min(|input.header|, 4096);
    if input.context.None? then room
    else room - Min(Max(Claim(input.context.forest, 0, room, 0, input.contextCalls), 0), room)
  }

  function Max(a: int, b: int): int {
    if a < b then b else a
  }

  /** With any failures: a sink reports an error exactly when the header cannot be formatted, the
      context is empty, has no room or reports a failure, or the message has room and fails. */
  predicate MustFail(input: LineInput) {
    || input.headerCall.Fails?
    || (input.context.Some? &&
        (|| 4096 <= |input.header| || input.context.forest.Empty?
         || Reported(input.context.forest, 0, 4096 - |input.header|, input.contextCalls)))
    || (input.messageCall.Fails? && 1 < RoomForMessage(input))
  }

  lemma ErrorExactly(mem: seq<byte>, input: LineInput)
    requires |mem| == MAX_MESSAGE_LENGTH
    ensures LineFor(mem, input).Error? <==> MustFail(input)
  {
    if input.headerCall.Good? && input.context.Some? {
      var c := AfterHeader(mem, input);
      NegativeIffReported(input.context.forest, 0, c, input.contextCalls);
    }
  }

  // The sinks

  /** The line of `input`, built in a local buffer that happens to hold `mem`. */
  method MakeLine(pairs: seq<Entry>, input: LineInput) returns (line: Line, ghost mem: seq<byte>)
    requires input.context.Some? ==> LaidOut(pairs, 0, input.context.forest) && Size(input.context.forest) == |pairs|
    ensures |mem| == MAX_MESSAGE_LENGTH && line == LineFor(mem, input)
    ensures AllGood(input) ==> (line.Error? <==> !ContextFits(input))
    ensures AllGood(input) && ContextFits(input) ==> ShowsLine(line.mem, input)
  {
    var temp := new byte[MAX_MESSAGE_LENGTH];
    mem := temp[..];
    var error := BuildLine(temp, pairs, input);
    line := if error then Error else Line(temp[..]);
    if AllGood(input) {
      ErrorIff(mem, input);
      if ContextFits(input) {
        LineReads(mem, input);
      }
    }
  }

  /** What reaches a callback or the console. */
  datatype Message = InvalidArguments | FormattingError | LineOf(mem: seq<byte>)

  datatype Delivery = Delivery(callback: nat, context: nat, level: int, message: Message)

  function ToMessage(line: Line): Message {
    if line.Error? then FormattingError else LineOf(line.mem)
  }

  // LOG_LEVEL, in its order of declaration
  const LEVEL_CRITICAL := 0
  const LEVEL_VERBOSE := 4

  /** The callback sink: callbacks and their contexts are identified by numbers, 0 for the callback
      that does nothing. */
  class CallbackSink {
    var callback: nat
    var context: nat
    var maxLevel: int

    constructor ()
      ensures callback == 0 && context == 0 && maxLevel == LEVEL_VERBOSE
    {
      callback, context, maxLevel := 0, 0, LEVEL_VERBOSE;
    }

    /** log_sink_callback_set_callback. */
    method SetCallback(isNull: bool, callback: nat, context: nat) returns (failed: bool)
      modifies this`callback, this`context
      ensures failed == isNull
      ensures this.callback == (if isNull then old(this.callback) else callback)
      ensures this.context == (if isNull then old(this.context) else context)
    {
      if isNull {
        return true;
      }
      this.callback, this.context := callback, context;
      return false;
    }

    /** log_sink_callback_set_max_level. */
    method SetMaxLevel(level: int)
      modifies this`maxLevel
      ensures maxLevel == level
    {
      maxLevel := level;
    }

    /** log_sink_callback_log: at most one call of the callback, made with the stored context; a
        line within the level filter arrives at its own level, an error as critical. `mem` is what
        the line buffer held at first. */
    method Log(level: int, formatIsNull: bool, pairs: seq<Entry>, input: LineInput)
      returns (calls: seq<Delivery>, ghost mem: seq<byte>)
      requires input.context.Some? ==> LaidOut(pairs, 0, input.context.forest) && Size(input.context.forest) == |pairs|
      ensures |mem| == MAX_MESSAGE_LENGTH
      ensures |calls| <= 1 && (calls == [] <==> !formatIsNull && level > maxLevel)
      ensures forall d :: d in calls ==>
                && d.callback == callback && d.context == context
                && d.level == (if d.message.LineOf? then level else LEVEL_CRITICAL)
                && d.message == (if formatIsNull then InvalidArguments else ToMessage(LineFor(mem, input)))
      ensures forall d :: d in calls && !formatIsNull ==> (d.message.FormattingError? <==> MustFail(input))
      ensures forall d :: d in calls && d.message.LineOf? && AllGood(input) ==> ShowsLine(d.message.mem, input)
    {
      mem := seq(MAX_MESSAGE_LENGTH, _ => 0);
      if formatIsNull {
        calls := [Delivery(callback, context, LEVEL_CRITICAL, InvalidArguments)];
      } else if level > maxLevel {
        calls := [];
      } else {
        var line;
        line, mem := MakeLine(pairs, input);
        ErrorExactly(mem, input);
        if line.Error? {
          calls := [Delivery(callback, context, LEVEL_CRITICAL, FormattingError)];
        } else {
          calls := [Delivery(callback, context, level, LineOf(line.mem))];
        }
      }
    }
  }

  /** log_sink_console_log, up to the final printf; `input.header` carries the colour and the level. */
  method ConsoleLog(formatIsNull: bool, pairs: seq<Entry>, input: LineInput)
    returns (r: Message, ghost mem: seq<byte>)
    requires input.context.Some? ==> LaidOut(pairs, 0, input.context.forest) && Size(input.context.forest) == |pairs|
    ensures |mem| == MAX_MESSAGE_LENGTH
    ensures r == if formatIsNull then InvalidArguments else ToMessage(LineFor(mem, input))
    ensures r.FormattingError? <==> !formatIsNull && MustFail(input)
    ensures r.LineOf? && AllGood(input) ==> ShowsLine(r.mem, input)
  {
    mem := seq(MAX_MESSAGE_LENGTH, _ => 0);
    if formatIsNull {
      r := InvalidArguments;
    } else {
      var line;
      line, mem := MakeLine(pairs, input);
      ErrorExactly(mem, input);
      r := if line.Error? then FormattingError else LineOf(line.mem);
    }
  }
}
