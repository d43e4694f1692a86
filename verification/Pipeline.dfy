/** The consumers of a log context meet: text printer, line sinks and ETW encoder see one tree. */
module Pipeline {
  import opened CText
  import opened PropertyForest
  import opened PropertyPrinter
  import opened ContextLayout
  import opened LogContexts
  import opened EtwEvent
  import opened EtwDecoder
  import LineSinks

  /** Every value in a context has its type's form. */
  lemma ViewIsWellTyped(c: Chain)
    requires AcceptableChain(c)
    ensures forall e :: e in View(c) ==> WellTyped(e.ty, e.value)
  {
    LayoutRoomy(c);
    forall e | e in View(c)
      ensures WellTyped(e.ty, e.value)
    {
      var i :| 0 <= i < |View(c)| && View(c)[i] == e;
      assert Layout(c)[i].entry == e;
    }
  }

  /** A context's pairs are what the printer needs. */
  lemma ViewIsLaidOut(c: Chain)
    requires Readable(c) && AcceptableChain(c)
    ensures LaidOut(View(c), 0, FoundTree(c)) && Size(FoundTree(c)) == |View(c)|
    ensures Sound(c) ==> FoundTree(c) == TreeOf(c)
  {
    WrappedCountMisreads(c);
    WalkFlattening(FoundTree(c));
    if Sound(c) {
      SoundIsReadable(c);
    }
  }

  /** Builds any chain of contexts and prints the last one: the window holds the clipped text of the
      tree found in it, which is the tree a sound chain stands for. */
  method BuildAndPrint(c: Chain, buffer: array<byte>, at: nat, size: nat, calls: Oracle) returns (result: int)
    requires Readable(c) && Stored(c) && AcceptableChain(c)
    requires 0 < size && at + size <= buffer.Length
    requires Clean(FoundTree(c), 0, calls)
    modifies buffer
    ensures result == Min(|Render(FoundTree(c))|, size)
    ensures buffer[..] == Put(old(buffer[..]), at, size, Render(FoundTree(c)))
    ensures Sound(c) ==> FoundTree(c) == TreeOf(c)
  {
    var ctx := Build(c);
    var pairs := ReadPairs(ctx, c);
    ViewIsLaidOut(c);
    result := LogContextPropertyToString(buffer, at, size, pairs, calls, FoundTree(c));
    CleanRun(FoundTree(c), 0, Cursor(old(buffer[..]), at, size, 0), calls);
    RenderHead(FoundTree(c));
  }

  /** Local contexts within their 64 pairs and 4096 bytes print all generations. */
  method BuildLocalAndPrint(c: Chain, buffer: array<byte>, at: nat, size: nat, calls: Oracle) returns (result: int)
    requires AllLocal(c) && c.Context? && TotalPairs(c) <= 64 && TotalData(c) <= 4096 && AcceptableChain(c)
    requires 0 < size && at + size <= buffer.Length
    requires Clean(FullTree(c), 0, calls)
    modifies buffer
    ensures result == Min(|Render(FullTree(c))|, size)
    ensures buffer[..] == Put(old(buffer[..]), at, size, Render(FullTree(c)))
  {
    LocalChainFits(c);
    FittingChainIsStored(c);
    FittingChainIsSound(c);
    SoundIsReadable(c);
    result := BuildAndPrint(c, buffer, at, size, calls);
  }

  /** A line with the tree found in `c`; a sink sees no context where the handle is NULL. */
  function LineInputFor(c: Chain, header: CString, message: CString, headerCall: Call, contextCalls: Oracle,
                        messageCall: Call): LineSinks.LineInput
  {
    var context := if IsNull(c) then LineSinks.Context.None else LineSinks.Context.Some(FoundTree(c));
    LineSinks.LineInput(header, context, message, headerCall, contextCalls, messageCall)
  }

  /** Builds any chain of contexts and logs a line with the last one: without encoding errors the line
      shows header, tree and message - unless the context has overflowed or the header leaves it no
      room, which is an error. */
  method BuildAndLog(c: Chain, header: CString, message: CString, headerCall: Call, contextCalls: Oracle,
                     messageCall: Call)
    returns (line: LineSinks.Line)
    requires Readable(c) && AcceptableChain(c)
    ensures Sound(c) ==> FoundTree(c) == TreeOf(c)
    ensures var input := LineInputFor(c, header, message, headerCall, contextCalls, messageCall);
            LineSinks.AllGood(input) ==>
              if !IsNull(c) && (!Stored(c) || LineSinks.MAX_MESSAGE_LENGTH <= |header|) then line.Error?
              else line.Line? && LineSinks.ShowsLine(line.mem, input)
  {
    var ctx := Build(c);
    var pairs := ReadPairs(ctx, c);
    ViewIsLaidOut(c);
    var input := LineInputFor(c, header, message, headerCall, contextCalls, messageCall);
    ghost var mem;
    line, mem := LineSinks.MakeLine(pairs, input);
  }

  /** The decoder found the fixed fields and every pair of `c`, in a sound chain its tree; or, where the
      properties were given up, the fixed fields alone with as much of the message as fits. */
  predicate FoundContext(d: Option<Decoded>, src: Source, c: Chain) {
    && d.Some? && d.value.eventName == src.eventName && 4 <= |d.value.fields|
    && var fields, kept := d.value.fields, Kept(src, View(c));
    && var n := if kept then |src.message| else Min(|src.message|, MAX_METADATA_SIZE - 1 - |Base(src.eventName)|);
    && 0 <= n && FixedFields(fields, src.file, src.func, src.line, src.message[..n])
    && (kept ==> CarriesAll(fields[4..], View(c)) && (Sound(c) ==> FoundForest(d, src, TreeOf(c))))
    && (!kept ==> |fields| == 4)
  }

  /** Pair by pair, `ds` carries `es`. */
  predicate CarriesAll(ds: seq<Entry>, es: seq<Entry>) {
    |ds| == |es| && forall i :: 0 <= i < |es| ==> Carries(ds[i], es[i])
  }

  lemma WireCarriesAll(es: seq<Entry>)
    requires forall e :: e in es ==> WellTyped(e.ty, e.value)
    ensures CarriesAll(AllOnWire(es), es)
  {
    forall i | 0 <= i < |es|
      ensures Carries(AllOnWire(es)[i], es[i])
    {
      AllOnWireAt(es, i);
      OnWireCarries(es[i]);
    }
  }

  lemma ContextDecodes(c: Chain, src: Source)
    requires AcceptableChain(c) && |src.eventName| <= 64 && |src.line| == 4
    ensures var event := EventFor(src, View(c));
            FoundContext(DecodeEvent(event.Blob(), Concat(event.data)), src, c)
  {
    var event := EventFor(src, View(c));
    var d := DecodeEvent(event.Blob(), Concat(event.data));
    ViewIsWellTyped(c);
    ViewCounts(c);
    assert Kept(src, View(c)) ==> AllEncodable(View(c));
    EventDecodes(src, View(c));
    if Kept(src, View(c)) {
      KeptDecodes(c, src, d);
    } else {
      GivenUpDecodes(c, src, d);
    }
  }

  lemma GivenUpDecodes(c: Chain, src: Source, d: Option<Decoded>)
    requires !Kept(src, View(c)) && |src.eventName| <= 64
    requires var n := Min(|src.message|, MAX_METADATA_SIZE - 1 - |Base(src.eventName)|);
             d == Some(Decoded(src.eventName, FixedEntries(src, src.message[..n])))
    ensures FoundContext(d, src, c)
  {
    var n := Min(|src.message|, MAX_METADATA_SIZE - 1 - |Base(src.eventName)|);
    FixedFieldsAre(src, src.message[..n], []);
    assert FixedEntries(src, src.message[..n]) + [] == d.value.fields;
  }

  lemma KeptDecodes(c: Chain, src: Source, d: Option<Decoded>)
    requires AcceptableChain(c) && Kept(src, View(c))
    requires d == Some(Decoded(src.eventName, FixedEntries(src, src.message) + AllOnWire(View(c))))
    ensures FoundContext(d, src, c)
  {
    ViewIsWellTyped(c);
    FixedFieldsAre(src, src.message, AllOnWire(View(c)));
    assert src.message[..|src.message|] == src.message;
    WireCarriesAll(View(c));
    assert d.value.fields[4..] == AllOnWire(View(c));
    if Sound(c) {
      ContextIsTree(c);
      FindsForest(d, src, TreeOf(c));
    }
  }

  /** Builds any chain of contexts, sound or not, and emits an event for the last one. */
  method BuildAndEmit(c: Chain, level: LogLevel, file: CString, func: CString, line: seq<byte>, message: CString)
    returns (r: Emission)
    requires AcceptableChain(c) && |line| == 4
    ensures r == Emitted(EventFor(SourceOf(level, file, func, line, message), CastPairs(View(c))))
    ensures NamesLevel(r.event, level)
    ensures PairCount(c) < 0x1_0000 ==>
              FoundContext(DecodeEvent(r.event.Blob(), Concat(r.event.data)),
                           Source(EventName(level), TraceLevel(level), file, func, line, message), c)
  {
    var ctx := Build(c);
    var pairs := ReadPairs(ctx, c);
    ViewCounts(c);
    r := LogEtw(level, pairs, file, func, line, false, message, true, Good, Good);
    if PairCount(c) < 0x1_0000 {
      assert CastPairs(pairs) == pairs;
      ContextDecodes(c, SourceOf(level, file, func, line, message));
    }
  }
}
