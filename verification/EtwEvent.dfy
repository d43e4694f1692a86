/** The encoder of self-described ETW events (v2/src/log_sink_etw.c). */
module EtwEvent {
  import opened CText
  import opened PropertyForest

  const MAX_METADATA_SIZE := 4096
  const MAX_PROPERTIES := 64

  const CONTENT: CString := [99, 111, 110, 116, 101, 110, 116]
  const FILE: CString := [102, 105, 108, 101]
  const FUNC: CString := [102, 117, 110, 99]
  const LINE: CString := [108, 105, 110, 101]

  // The type bytes of TraceLoggingProvider.h; the high bit announces a further byte.
  const IN_CHAIN: byte := 128
  const IN_STRUCT: byte := 24

  function InType(ty: PropertyType): (b: byte) {
    match ty
    case WcharPtr => 1
    case AsciiCharPtr => 2
    case Int8 => 3
    case UInt8 => 4
    case Int16 => 5
    case UInt16 => 6
    case Int32 => 7
    case UInt32 => 8
    case Int64 => 9
    case UInt64 => 10
    case Bool => 13
    case Struct => IN_STRUCT + IN_CHAIN
    case Invalid => 0
  }

  // Encoding

  /** The metadata of one property. */
  function EncodeField(e: Entry): (bs: seq<byte>) {
    e.name + [0] + [InType(e.ty)] + (if e.ty.Struct? && e.value != [] then [e.value[0]] else [])
  }

  function EncodeFields(es: seq<Entry>): (bs: seq<byte>) {
    if es == [] then [] else EncodeField(es[0]) + EncodeFields(es[1..])
  }

  /** The metadata of an event without properties. */
  function Base(eventName: CString): (bs: seq<byte>)
    ensures |bs| == |eventName| + 28
  {
    eventName + [0] + CONTENT + [0, 2] + FILE + [0, 2] + FUNC + [0, 2] + LINE + [0, 7]
  }

  predicate AllKnown(es: seq<Entry>) {
    forall e :: e in es ==> !e.ty.Invalid?
  }

  /** Writes the metadata of one property at `pos`, if it fits. */
  method AddField(meta: array<byte>, pos: nat, e: Entry) returns (ok: bool, next: nat)
    requires meta.Length == MAX_METADATA_SIZE && pos <= MAX_METADATA_SIZE
    requires e.ty.Struct? ==> |e.value| == 1
    modifies meta
    ensures ok <==> !e.ty.Invalid? && pos + |EncodeField(e)| <= MAX_METADATA_SIZE
    ensures meta[..pos] == old(meta[..pos])
    ensures ok ==> next == pos + |EncodeField(e)| && meta[pos..next] == EncodeField(e)
  {
    next := pos;
    if |e.name| > 0xFFFF || MAX_METADATA_SIZE - next < |e.name| + 1 + 1 {
      return false, next;
    }
    WriteBytes(meta, next, e.name + [0]);
    next := next + |e.name| + 1;
    if e.ty.Invalid? {
      return false, next;
    }
    meta[next] := InType(e.ty);
    if e.ty.Struct? {
      next := next + 1;
      if next == MAX_METADATA_SIZE {
        return false, next;
      }
      meta[next] := e.value[0];
    }
    next := next + 1;
    assert meta[pos..next] == EncodeField(e);
    return true, next;
  }

  /** Writes the metadata of all properties; on failure the bytes after `pos` are unspecified. */
  method AddFields(meta: array<byte>, pos: nat, es: seq<Entry>) returns (ok: bool, next: nat)
    requires meta.Length == MAX_METADATA_SIZE && pos <= MAX_METADATA_SIZE
    requires forall e :: e in es && e.ty.Struct? ==> |e.value| == 1
    modifies meta
    ensures ok <==> AllKnown(es) && pos + |EncodeFields(es)| <= MAX_METADATA_SIZE
    ensures meta[..pos] == old(meta[..pos])
    ensures ok ==> next == pos + |EncodeFields(es)| && meta[..next] == old(meta[..pos]) + EncodeFields(es)
  {
    next := pos;
    var i := 0;
    while i < |es|
      invariant 0 <= i <= |es| && pos <= next <= MAX_METADATA_SIZE
      invariant AllKnown(es[..i])
      invariant meta[..pos] == old(meta[..pos])
      invariant meta[..next] + EncodeFields(es[i..]) == old(meta[..pos]) + EncodeFields(es)
    {
      assert es[i..][1..] == es[i + 1..];
      ghost var before := meta[..next];
      var at := next;
      ok, next := AddField(meta, next, es[i]);
      if !ok {
        return false, next;
      }
      assert meta[..next] == before + EncodeField(es[i]);
      i := i + 1;
    }
    assert es[..i] == es;
    ok := true;
  }

  // The event

  /** The data of one property's descriptor: a bool goes out as a 32-bit integer. */
  function Payload(e: Entry): (bs: seq<byte>) {
    if e.ty.Bool? then (if e.value != [] && e.value[0] != 0 then [1, 0, 0, 0] else [0, 0, 0, 0]) else e.value
  }

  /** The descriptors of the properties: structs have none. */
  function Payloads(es: seq<Entry>): (ds: seq<seq<byte>>)
    ensures |ds| <= |es|
  {
    if es == [] then []
    else if es[0].ty.Struct? then Payloads(es[1..])
    else [Payload(es[0])] + Payloads(es[1..])
  }

  /** An emitted event: its level, the metadata after the tag bytes, and the data descriptors from
      index 2 on (the first two are the provider's and the event's metadata). */
  datatype Event = Event(level: byte, metadata: seq<byte>, data: seq<seq<byte>>) {

    /** The number of descriptors passed on. */
    function DescriptorCount(): nat {
      2 + |data|
    }

    /** The event metadata a decoder gets: its size in two bytes, the two tag bytes, the rest. */
    function Blob(): (bs: seq<byte>) {
      var size := |metadata| + 4;
      [size % 256, size / 256 % 256, 128, 0] + metadata
    }
  }

  datatype Emission = Nothing | Emitted(event: Event)

  /** What the caller of the emitter provides besides the properties. */
  datatype Source = Source(eventName: CString, level: byte, file: CString, func: CString,
                           line: seq<byte>, message: CString)

  /** The properties' metadata fits beside the fixed fields. */
  predicate MetadataFits(src: Source, es: seq<Entry>) {
    |es| <= MAX_PROPERTIES && AllKnown(es) && |Base(src.eventName)| + |EncodeFields(es)| <= MAX_METADATA_SIZE
  }

  /** The properties are kept: with the whole message and its terminator behind them they fit. */
  predicate Kept(src: Source, es: seq<Entry>) {
    MetadataFits(src, es) &&
    |Base(src.eventName)| + |EncodeFields(es)| + |src.message| < MAX_METADATA_SIZE
  }

  /** The event for `src` and `es`: all properties and the whole message, or no properties and as
      much of the message as fits. */
  function EventFor(src: Source, es: seq<Entry>): (e: Event)
    requires |src.eventName| <= 64
  {
    var kept := Kept(src, es);
    var message := if kept then src.message
                   else src.message[..Min(|src.message|, MAX_METADATA_SIZE - 1 - |Base(src.eventName)|)];
    Event(src.level,
          Base(src.eventName) + (if kept then EncodeFields(es) else []),
          [message + [0], src.file + [0], src.func + [0], src.line] + (if kept then Payloads(es) else []))
  }

  /** Formats the message behind the metadata, which ends at `pos` with properties and at `base`
      without; a second time, without properties, if the first leaves too little room for it. */
  method PlaceMessage(meta: array<byte>, base: nat, pos: nat, add: bool, message: CString,
                      first: Call, second: Call)
    returns (ok: bool, kept: bool)
    requires meta.Length == MAX_METADATA_SIZE && base <= pos <= MAX_METADATA_SIZE
    requires base < MAX_METADATA_SIZE && (!add ==> pos == base)
    modifies meta
    ensures kept <==> add && pos + |message| < MAX_METADATA_SIZE
    ensures ok <==> first.Good? && (add && !kept ==> second.Good?)
    ensures ok ==>
              var at := if kept then pos else base;
              && meta[..at] == old(meta[..at])
              && ReadsAs(meta[..], at, message[..Min(|message|, MAX_METADATA_SIZE - 1 - at)])
  {
    var available := MAX_METADATA_SIZE - pos;
    var length := Snprintf(meta, pos, available, message, first);
    kept := add && pos + |message| < MAX_METADATA_SIZE;
    if length < 0 {
      return false, kept;
    }
    MessageReads(old(meta[..]), pos, message);
    if length >= available && add {
      available := MAX_METADATA_SIZE - base;
      ghost var middle := meta[..];
      length := Snprintf(meta, base, available, message, second);
      if length < 0 {
        return false, kept;
      }
      MessageReads(middle, base, message);
      ghost var n := Min(|message|, available - 1);
      assert meta[base..base + n] == message[..n];
      meta[base + available - 1] := 0;
      assert meta[base..base + n] == message[..n];
      assert meta[..base] == middle[..base] == old(meta[..])[..base];
    }
    ok := true;
  }

  /** A message printed to the end of the buffer: what is before it stays, what fits reads back. */
  lemma MessageReads(mem: seq<byte>, at: nat, message: CString)
    requires |mem| == MAX_METADATA_SIZE && at <= MAX_METADATA_SIZE
    ensures var r := Put(mem, at, MAX_METADATA_SIZE - at, Cells(message));
            && r[..at] == mem[..at]
            && (at < MAX_METADATA_SIZE ==>
                  ReadsAs(r, at, message[..Min(|message|, MAX_METADATA_SIZE - 1 - at)]))
  {
    PrintFrame(mem, at, MAX_METADATA_SIZE - at, Cells(message), Good);
    TextOfCells(message, false);
    if at < MAX_METADATA_SIZE {
      PutReads(mem, at, MAX_METADATA_SIZE - at, Cells(message));
    }
  }

  const MAX_DESCRIPTORS := 2 + 1 + 1 + 1 + 1 + MAX_PROPERTIES

  /** The data descriptors, in an array with room for 64 properties. */
  method BuildDescriptors(src: Source, message: seq<byte>, es: seq<Entry>) returns (data: seq<seq<byte>>)
    requires |es| <= MAX_PROPERTIES
    ensures data == [message + [0], src.file + [0], src.func + [0], src.line] + Payloads(es)
  {
    var descriptors := new seq<byte>[MAX_DESCRIPTORS](_ => []);
    descriptors[2] := message + [0];
    descriptors[3] := src.file + [0];
    descriptors[4] := src.func + [0];
    descriptors[5] := src.line;
    assert descriptors[2..6] == [message + [0], src.file + [0], src.func + [0], src.line];
    var idx := AddDescriptors(descriptors, es);
    data := descriptors[2..idx];
  }

  /** Adds a descriptor for each property that is not a struct. */
  method AddDescriptors(descriptors: array<seq<byte>>, es: seq<Entry>) returns (idx: nat)
    requires descriptors.Length == MAX_DESCRIPTORS && |es| <= MAX_PROPERTIES
    modifies descriptors
    ensures 6 <= idx <= MAX_DESCRIPTORS
    ensures descriptors[2..idx] == old(descriptors[2..6]) + Payloads(es)
  {
    idx := 6;
    var i := 0;
    while i < |es|
      invariant 0 <= i <= |es| && 6 <= idx <= 6 + i
      invariant descriptors[2..idx] + Payloads(es[i..]) == old(descriptors[2..6]) + Payloads(es)
    {
      assert es[i..][1..] == es[i + 1..];
      ghost var before := descriptors[2..idx];
      if !es[i].ty.Struct? {
        descriptors[idx] := Payload(es[i]);
        idx := idx + 1;
        assert descriptors[2..idx] == before + [Payload(es[i])];
      }
      i := i + 1;
    }
  }

  /** Fills the buffer with the fixed fields' metadata and, if they fit, the properties'. */
  method WriteMetadata(meta: array<byte>, src: Source, es: seq<Entry>) returns (add: bool, pos: nat)
    requires meta.Length == MAX_METADATA_SIZE && |src.eventName| <= 64
    requires forall e :: e in es && e.ty.Struct? ==> |e.value| == 1
    modifies meta
    ensures add <==> MetadataFits(src, es)
    ensures pos == |Base(src.eventName)| + (if add then |EncodeFields(es)| else 0)
    ensures meta[..pos] == Base(src.eventName) + (if add then EncodeFields(es) else [])
  {
    var base := |Base(src.eventName)|;
    WriteBytes(meta, 0, Base(src.eventName));
    assert meta[..base] == Base(src.eventName);
    add, pos := false, base;
    if |es| <= MAX_PROPERTIES {
      add, pos := AddFields(meta, base, es);
    }
    if !add {
      pos := base;
    }
  }

  /** internal_emit_self_described_event_va. */
  method Emit(src: Source, es: seq<Entry>, enabled: bool, first: Call, second: Call) returns (r: Emission)
    requires |src.eventName| <= 64
    requires forall e :: e in es && e.ty.Struct? ==> |e.value| == 1
    ensures r == if !enabled || first.Fails? || (MetadataFits(src, es) && !Kept(src, es) && second.Fails?)
                 then Nothing else Emitted(EventFor(src, es))
  {
    if !enabled {
      return Nothing;
    }
    var meta := new byte[MAX_METADATA_SIZE];
    var add, pos := WriteMetadata(meta, src, es);
    var ok, kept, metadata, message := Compose(meta, pos, add, src, es, first, second);
    if !ok {
      return Nothing;
    }
    var data := BuildDescriptors(src, message, if kept then es else []);
    r := Emitted(Event(src.level, metadata, data));
  }

  /** Adds the message to the metadata: what the event then consists of. */
  method Compose(meta: array<byte>, pos: nat, add: bool, src: Source, es: seq<Entry>, first: Call, second: Call)
    returns (ok: bool, kept: bool, metadata: seq<byte>, message: seq<byte>)
    requires meta.Length == MAX_METADATA_SIZE && |src.eventName| <= 64 && add == MetadataFits(src, es)
    requires pos == |Base(src.eventName)| + (if add then |EncodeFields(es)| else 0)
    requires meta[..pos] == Base(src.eventName) + (if add then EncodeFields(es) else [])
    modifies meta
    ensures kept == Kept(src, es)
    ensures ok <==> first.Good? && (add && !kept ==> second.Good?)
    ensures ok ==> metadata == Base(src.eventName) + (if kept then EncodeFields(es) else [])
    ensures ok ==> message == if kept then src.message
                              else src.message[..Min(|src.message|, MAX_METADATA_SIZE - 1 - |Base(src.eventName)|)]
  {
    var base := |Base(src.eventName)|;
    FirstPart(meta[..], pos, Base(src.eventName), if add then EncodeFields(es) else []);
    ok, kept := PlaceMessage(meta, base, pos, add, src.message, first, second);
    var size := if kept then pos else base;
    metadata, message := meta[..size], AsciiText(meta[size..]);
    if ok {
      ghost var n := Min(|src.message|, MAX_METADATA_SIZE - 1 - size);
      ReadsAsText(meta[..], size, src.message[..n]);
      assert meta[..][size..] == meta[size..];
      assert kept ==> src.message[..n] == src.message;
    }
  }

  lemma FirstPart(mem: seq<byte>, n: nat, a: seq<byte>, b: seq<byte>)
    requires n <= |mem| && mem[..n] == a + b
    ensures |a| <= n && mem[..|a|] == a
  {
    assert mem[..|a|] == mem[..n][..|a|];
  }

  // The sink

  datatype LogLevel = Critical | Error | Warning | Info | Verbose | OtherLevel

  function EventName(level: LogLevel): (name: CString)
    ensures |name| <= 11
  {
    match level
    case Critical => [76, 111, 103, 67, 114, 105, 116, 105, 99, 97, 108]
    case Error => [76, 111, 103, 69, 114, 114, 111, 114]
    case Warning => [76, 111, 103, 87, 97, 114, 110, 105, 110, 103]
    case Info => [76, 111, 103, 73, 110, 102, 111]
    case Verbose => [76, 111, 103, 86, 101, 114, 98, 111, 115, 101]
    case OtherLevel => [85, 110, 107, 110, 111, 119, 110]
  }

  function TraceLevel(level: LogLevel): byte {
    match level
    case OtherLevel => 0
    case Critical => 1
    case Error => 2
    case Warning => 3
    case Info => 4
    case Verbose => 5
  }

  /** The event has the trace level and the name of its log level. */
  predicate NamesLevel(event: Event, level: LogLevel) {
    match level
    case Critical => event.level == 1 && Ascii("LogCritical") + [0] <= event.metadata
    case Error => event.level == 2 && Ascii("LogError") + [0] <= event.metadata
    case Warning => event.level == 3 && Ascii("LogWarning") + [0] <= event.metadata
    case Info => event.level == 4 && Ascii("LogInfo") + [0] <= event.metadata
    case Verbose => event.level == 5 && Ascii("LogVerbose") + [0] <= event.metadata
    case OtherLevel => event.level == 0 && Ascii("Unknown") + [0] <= event.metadata
  }

  lemma NamesAreSpelled(level: LogLevel)
    ensures EventName(level) ==
            Ascii(match level
                  case Critical => "LogCritical"
                  case Error => "LogError"
                  case Warning => "LogWarning"
                  case Info => "LogInfo"
                  case Verbose => "LogVerbose"
                  case OtherLevel => "Unknown")
  {
  }

  lemma EventNamesLevel(level: LogLevel, src: Source, es: seq<Entry>)
    requires src.eventName == EventName(level) && src.level == TraceLevel(level)
    ensures NamesLevel(EventFor(src, es), level)
  {
    NamesAreSpelled(level);
    assert src.eventName + [0] <= Base(src.eventName);
  }

  /** The pairs the sink looks at: their count is cut to 16 bits. */
  function CastPairs(es: seq<Entry>): (r: seq<Entry>) {
    es[..|es| % 0x1_0000]
  }

  function SourceOf(level: LogLevel, file: CString, func: CString, line: seq<byte>, message: CString): Source {
    Source(EventName(level), TraceLevel(level), file, func, line, message)
  }

  /** log_sink_etw_log; `es` are the context's pairs, none for a NULL context. */
  method LogEtw(level: LogLevel, es: seq<Entry>, file: CString, func: CString, line: seq<byte>,
                formatIsNull: bool, message: CString, enabled: bool, first: Call, second: Call)
    returns (r: Emission)
    requires forall e :: e in es && e.ty.Struct? ==> |e.value| == 1
    ensures var src := SourceOf(level, file, func, line, message);
            var seen := CastPairs(es);
            r == if formatIsNull || !enabled || first.Fails? ||
                    (MetadataFits(src, seen) && !Kept(src, seen) && second.Fails?)
                 then Nothing else Emitted(EventFor(src, seen))
    ensures r.Emitted? ==> NamesLevel(r.event, level)
  {
    if formatIsNull {
      return Nothing;
    }
    EventNamesLevel(level, SourceOf(level, file, func, line, message), CastPairs(es));
    r := Emit(SourceOf(level, file, func, line, message), CastPairs(es), enabled, first, second);
  }
}
