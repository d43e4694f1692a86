/** A decoder written from the wire format quoted at v2/src/log_sink_etw.c:77-157, and what it gets
    from the events the encoder emits. */
module EtwDecoder {
  import opened CText
  import opened PropertyForest
  import opened ContextLayout
  import opened EtwEvent

  datatype Option<+T> = None | Some(value: T)

  function TypeOf(b: byte): (ty: PropertyType) {
    match b
    case 1 => WcharPtr
    case 2 => AsciiCharPtr
    case 3 => Int8
    case 4 => UInt8
    case 5 => Int16
    case 6 => UInt16
    case 7 => Int32
    case 8 => UInt32
    case 9 => Int64
    case 10 => UInt64
    case 13 => Bool
    case 24 => Struct
    case _ => Invalid
  }

  /** Drops extension bytes: up to and including the first one whose high bit is unset. */
  function SkipExtension(bs: seq<byte>): (rest: seq<byte>)
    ensures |rest| <= |bs|
  {
    if bs == [] then [] else if bs[0] < 128 then bs[1..] else SkipExtension(bs[1..])
  }

  /** FieldMetadata: name, InType, OutType if InType has its high bit set, extension bytes if
      OutType has. A struct's OutType is its field count. Array types are not decoded. */
  function DecodeFields(bs: seq<byte>): (r: Option<seq<Entry>>)
    decreases |bs|
  {
    if bs == [] then Some([])
    else
      var name := AsciiText(bs);
      if |bs| < |name| + 2 then None
      else
        var inType := bs[|name| + 1];
        if inType < 128 then
          AddField(Entry(name, TypeOf(inType), []), DecodeFields(bs[|name| + 2..]))
        else if |bs| < |name| + 3 then None
        else
          var outType := bs[|name| + 2];
          var rest := if outType < 128 then bs[|name| + 3..] else SkipExtension(bs[|name| + 3..]);
          var ty := TypeOf(inType - 128);
          AddField(Entry(name, ty, if ty.Struct? then [outType % 128] else []), DecodeFields(rest))
  }

  function AddField(e: Entry, r: Option<seq<Entry>>): Option<seq<Entry>> {
    if r.None? || e.ty.Invalid? then None else Some([e] + r.value)
  }

  /** Reads the values of the fields from the data laid end to end: a fixed width, or up to the
      terminator. A struct has no data of its own. */
  function ReadValues(fields: seq<Entry>, data: seq<byte>): (r: Option<seq<Entry>>) {
    if fields == [] then (if data == [] then Some([]) else None)
    else if fields[0].ty.Struct? then AddField(fields[0], ReadValues(fields[1..], data))
    else
      var n := WireLength(fields[0].ty, data);
      if |data| < n then None
      else AddField(fields[0].(value := data[..n]), ReadValues(fields[1..], data[n..]))
  }

  /** The number of data bytes of a field. */
  function WireLength(ty: PropertyType, data: seq<byte>): (n: nat) {
    if ty.AsciiCharPtr? || ty.WcharPtr? then StringSpan(data, UnitSize(ty))
    else if ty.Bool? then 4
    else FixedSize(ty)
  }

  function Concat(ds: seq<seq<byte>>): (bs: seq<byte>) {
    if ds == [] then [] else ds[0] + Concat(ds[1..])
  }

  datatype Decoded = Decoded(eventName: CString, fields: seq<Entry>)

  /** EventMetadata and the data: the size must be right, the tag bytes are skipped. */
  function DecodeEvent(blob: seq<byte>, data: seq<byte>): (r: Option<Decoded>) {
    if |blob| < 4 || LittleEndian(blob[..2]) != |blob| then None
    else
      var bs := SkipExtension(blob[2..]);
      var name := AsciiText(bs);
      if |bs| <= |name| then None
      else
        var fields := DecodeFields(bs[|name| + 1..]);
        if fields.None? then None
        else
          var values := ReadValues(fields.value, data);
          if values.None? then None else Some(Decoded(name, values.value))
  }

  // Decoding what was encoded

  /** What is left of a pair in the metadata: everything but a leaf's value. */
  function Shape(e: Entry): Entry {
    if e.ty.Struct? then e else e.(value := [])
  }

  function Shapes(es: seq<Entry>): (r: seq<Entry>) {
    if es == [] then [] else [Shape(es[0])] + Shapes(es[1..])
  }

  /** A pair as it arrives: a bool has become four bytes. */
  function OnWire(e: Entry): Entry {
    if e.ty.Struct? then e else e.(value := Payload(e))
  }

  function AllOnWire(es: seq<Entry>): (r: seq<Entry>)
    ensures |r| == |es|
  {
    if es == [] then [] else [OnWire(es[0])] + AllOnWire(es[1..])
  }

  /** A pair whose value has its type's form and whose field count, if it has one, stays clear of
      the extension bit. */
  predicate Encodable(e: Entry) {
    WellTyped(e.ty, e.value) && (e.ty.Struct? ==> e.value[0] < 128)
  }

  predicate AllEncodable(es: seq<Entry>) {
    forall i :: 0 <= i < |es| ==> Encodable(es[i])
  }

  /** One field off the front, given its name. */
  lemma DecodeLeaf(name: CString, inType: byte, tail: seq<byte>)
    requires inType < 128
    ensures DecodeFields(name + [0] + ([inType] + tail))
         == AddField(Entry(name, TypeOf(inType), []), DecodeFields(tail))
  {
    var bs := name + [0] + ([inType] + tail);
    AsciiTextOf(name, [inType] + tail);
    assert bs[|name| + 1] == inType;
    assert bs[|name| + 2..] == tail;
  }

  lemma DecodeStruct(name: CString, count: byte, tail: seq<byte>)
    requires count < 128
    ensures DecodeFields(name + [0] + ([IN_STRUCT + IN_CHAIN, count] + tail))
         == AddField(Entry(name, Struct, [count]), DecodeFields(tail))
  {
    var bs := name + [0] + ([IN_STRUCT + IN_CHAIN, count] + tail);
    AsciiTextOf(name, [IN_STRUCT + IN_CHAIN, count] + tail);
    assert bs[|name| + 1] == IN_STRUCT + IN_CHAIN;
    assert bs[|name| + 2] == count;
    assert bs[|name| + 3..] == tail;
  }

  lemma DecodeOneField(e: Entry, tail: seq<byte>)
    requires !e.ty.Invalid? && (e.ty.Struct? ==> |e.value| == 1 && e.value[0] < 128)
    ensures DecodeFields(EncodeField(e) + tail) == AddField(Shape(e), DecodeFields(tail))
  {
    if e.ty.Struct? {
      DecodeStruct(e.name, e.value[0], tail);
      assert e.value == [e.value[0]];
      assert EncodeField(e) + tail == e.name + [0] + ([IN_STRUCT + IN_CHAIN, e.value[0]] + tail);
    } else {
      DecodeLeaf(e.name, InType(e.ty), tail);
      assert EncodeField(e) + tail == e.name + [0] + ([InType(e.ty)] + tail);
    }
  }

  /** The metadata decodes to the names, types and field counts it was made from. */
  lemma {:induction false} DecodeEncode(es: seq<Entry>)
    requires AllEncodable(es)
    ensures DecodeFields(EncodeFields(es)) == Some(Shapes(es))
  {
    if es != [] {
      assert Encodable(es[0]);
      DecodeOneField(es[0], EncodeFields(es[1..]));
      DecodeEncode(es[1..]);
    }
  }

  lemma PayloadLength(e: Entry, tail: seq<byte>)
    requires WellTyped(e.ty, e.value)
    ensures WireLength(e.ty, Payload(e) + tail) == |Payload(e)|
  {
    if e.ty.AsciiCharPtr? || e.ty.WcharPtr? {
      StringSpanStops(e.value, UnitSize(e.ty), tail);
    }
  }

  /** The descriptors match the metadata one by one: each leaf field takes exactly its descriptor's
      bytes from the data. */
  lemma {:induction false} ReadPayloads(es: seq<Entry>)
    requires AllEncodable(es)
    ensures ReadValues(Shapes(es), Concat(Payloads(es))) == Some(AllOnWire(es))
  {
    if es != [] {
      var e, rest := es[0], es[1..];
      assert Encodable(e);
      ReadPayloads(rest);
      assert Shapes(es)[1..] == Shapes(rest);
      if !e.ty.Struct? {
        assert Payloads(es)[1..] == Payloads(rest);
        var data := Concat(Payloads(es));
        assert data == Payload(e) + Concat(Payloads(rest));
        PayloadLength(e, Concat(Payloads(rest)));
        assert data[|Payload(e)|..] == Concat(Payloads(rest));
      }
    }
  }

  // Whole events

  lemma {:induction false} EncodeConcat(a: seq<Entry>, b: seq<Entry>)
    ensures EncodeFields(a + b) == EncodeFields(a) + EncodeFields(b)
  {
    if a == [] {
      assert a + b == b;
    } else {
      EncodeConcat(a[1..], b);
      assert (a + b)[1..] == a[1..] + b;
      Associative(EncodeField(a[0]), EncodeFields(a[1..]), EncodeFields(b));
    }
  }

  lemma {:induction false} PayloadsConcat(a: seq<Entry>, b: seq<Entry>)
    ensures Payloads(a + b) == Payloads(a) + Payloads(b)
  {
    if a == [] {
      assert a + b == b;
    } else {
      PayloadsConcat(a[1..], b);
      assert (a + b)[1..] == a[1..] + b;
      if !a[0].ty.Struct? {
        Associative([Payload(a[0])], Payloads(a[1..]), Payloads(b));
      }
    }
  }

  lemma {:induction false} OnWireConcat(a: seq<Entry>, b: seq<Entry>)
    ensures AllOnWire(a + b) == AllOnWire(a) + AllOnWire(b)
  {
    if a == [] {
      assert a + b == b;
    } else {
      OnWireConcat(a[1..], b);
      assert (a + b)[1..] == a[1..] + b;
      Associative([OnWire(a[0])], AllOnWire(a[1..]), AllOnWire(b));
    }
  }

  lemma Cons(e: Entry, es: seq<Entry>)
    ensures EncodeFields([e] + es) == EncodeField(e) + EncodeFields(es)
    ensures Payloads([e] + es) == (if e.ty.Struct? then [] else [Payload(e)]) + Payloads(es)
    ensures AllOnWire([e] + es) == [OnWire(e)] + AllOnWire(es)
  {
    assert ([e] + es)[1..] == es;
  }

  /** A pair as its reader wants it: a bool as a 32-bit 0 or 1, everything else byte for byte. */
  predicate Carries(d: Entry, e: Entry) {
    && d.name == e.name && d.ty == e.ty
    && if e.ty.Bool? then |d.value| == 4 && LittleEndian(d.value) == (if e.value == [0] then 0 else 1)
       else d.value == e.value
  }

  lemma OnWireCarries(e: Entry)
    requires WellTyped(e.ty, e.value)
    ensures Carries(OnWire(e), e)
    ensures !e.ty.Struct? ==> OnWire(e).value == Payload(e)
  {
    if e.ty.Bool? {
      OneOrZero();
    }
  }

  lemma OneOrZero()
    ensures LittleEndian([1, 0, 0, 0]) == 1 && LittleEndian([0, 0, 0, 0]) == 0
  {
    var zero: seq<byte> := [0];
    assert LittleEndian(zero) == 0 + 256 * LittleEndian(zero[1..]);
    var zeros: seq<byte> := [0, 0, 0];
    assert zeros[1..] == [0, 0] && zeros[1..][1..] == zero;
    assert LittleEndian(zeros[1..]) == 0 && LittleEndian(zeros) == 0;
    var one: seq<byte>, none: seq<byte> := [1, 0, 0, 0], [0, 0, 0, 0];
    assert one[1..] == zeros && none[1..] == zeros;
  }

  lemma {:induction false} AllOnWireAt(es: seq<Entry>, i: nat)
    requires i < |es|
    ensures AllOnWire(es)[i] == OnWire(es[i])
  {
    if 0 < i {
      AllOnWireAt(es[1..], i - 1);
    }
  }

  /** The fixed fields with their values. */
  function FixedEntries(src: Source, message: CString): (es: seq<Entry>) {
    [Entry(CONTENT, AsciiCharPtr, message + [0]), Entry(FILE, AsciiCharPtr, src.file + [0]),
     Entry(FUNC, AsciiCharPtr, src.func + [0]), Entry(LINE, Int32, src.line)]
  }

  /** The four fields every event starts with. */
  predicate FixedFields(fields: seq<Entry>, file: CString, func: CString, line: seq<byte>, message: CString) {
    && 4 <= |fields|
    && IsText(fields[0], "content", message) && IsText(fields[1], "file", file) && IsText(fields[2], "func", func)
    && fields[3].name == Ascii("line") && fields[3].ty.Int32? && fields[3].value == line
  }

  predicate IsText(e: Entry, name: string, text: CString) {
    e.name == Ascii(name) && e.ty.AsciiCharPtr? && e.value == text + [0]
  }

  lemma FixedFieldsAre(src: Source, message: CString, more: seq<Entry>)
    ensures FixedFields(FixedEntries(src, message) + more, src.file, src.func, src.line, message)
  {
    assert Ascii("content") == CONTENT && Ascii("file") == FILE && Ascii("func") == FUNC && Ascii("line") == LINE;
  }

  lemma FixedEncoding(src: Source, message: CString)
    requires |src.line| == 4
    ensures Base(src.eventName) == src.eventName + [0] + EncodeFields(FixedEntries(src, message))
    ensures Payloads(FixedEntries(src, message))
         == [message + [0], src.file + [0], src.func + [0], src.line]
    ensures AllEncodable(FixedEntries(src, message))
    ensures AllOnWire(FixedEntries(src, message)) == FixedEntries(src, message)
  {
    var es := FixedEntries(src, message);
    FourCons(es[0], es[1], es[2], es[3]);
    assert es == [es[0], es[1], es[2], es[3]];
    FixedEncodable(src, message);
    assert EncodeField(es[0]) == CONTENT + [0, 2] && EncodeField(es[1]) == FILE + [0, 2];
    assert EncodeField(es[2]) == FUNC + [0, 2] && EncodeField(es[3]) == LINE + [0, 7];
  }

  lemma FixedEncodable(src: Source, message: CString)
    requires |src.line| == 4
    ensures AllEncodable(FixedEntries(src, message))
  {
    TerminatedCString(message);
    TerminatedCString(src.file);
    TerminatedCString(src.func);
  }

  lemma FourCons(a: Entry, b: Entry, c: Entry, d: Entry)
    requires !a.ty.Struct? && !b.ty.Struct? && !c.ty.Struct? && !d.ty.Struct?
    ensures EncodeFields([a, b, c, d]) == EncodeField(a) + (EncodeField(b) + (EncodeField(c) + EncodeField(d)))
    ensures Payloads([a, b, c, d]) == [Payload(a), Payload(b), Payload(c), Payload(d)]
    ensures AllOnWire([a, b, c, d]) == [OnWire(a), OnWire(b), OnWire(c), OnWire(d)]
  {
    Cons(d, []);
    Cons(c, [d] + []);
    Cons(b, [c] + ([d] + []));
    Cons(a, [b] + ([c] + ([d] + [])));
    assert [a, b, c, d] == [a] + ([b] + ([c] + ([d] + [])));
  }

  lemma DecodeBlob(eventName: CString, es: seq<Entry>, data: seq<byte>, event: Event)
    requires event.metadata == eventName + [0] + EncodeFields(es) && |event.metadata| <= MAX_METADATA_SIZE
    requires AllEncodable(es)
    ensures DecodeEvent(event.Blob(), data) ==
            var values := ReadValues(Shapes(es), data);
            if values.None? then None else Some(Decoded(eventName, values.value))
  {
    var blob := event.Blob();
    var size := |event.metadata| + 4;
    assert blob[..2] == [size % 256, size / 256 % 256];
    TwoBytes(size);
    assert blob[2..] == [128, 0] + event.metadata;
    assert blob[2..][1..] == [0] + event.metadata;
    assert ([0] + event.metadata)[1..] == event.metadata;
    assert SkipExtension(blob[2..]) == event.metadata;
    AsciiTextOf(eventName, EncodeFields(es));
    assert event.metadata[|eventName| + 1..] == EncodeFields(es);
    DecodeEncode(es);
  }

  lemma TwoBytes(size: nat)
    requires size < 65536
    ensures LittleEndian([size % 256, size / 256 % 256]) == size
  {
    var bs: seq<byte> := [size % 256, size / 256 % 256];
    assert bs[1..] == [size / 256];
    assert bs[1..][1..] == [];
    assert LittleEndian(bs[1..]) == size / 256;
  }

  lemma EncodedDecodes(src: Source, message: CString, es: seq<Entry>, event: Event)
    requires |src.line| == 4 && AllEncodable(es)
    requires event.metadata == Base(src.eventName) + EncodeFields(es)
    requires |event.metadata| <= MAX_METADATA_SIZE
    requires event.data == [message + [0], src.file + [0], src.func + [0], src.line] + Payloads(es)
    ensures DecodeEvent(event.Blob(), Concat(event.data))
         == Some(Decoded(src.eventName, FixedEntries(src, message) + AllOnWire(es)))
  {
    var fixed := FixedEntries(src, message);
    FixedEncoding(src, message);
    EncodeConcat(fixed, es);
    PayloadsConcat(fixed, es);
    OnWireConcat(fixed, es);
    Associative(src.eventName + [0], EncodeFields(fixed), EncodeFields(es));
    DecodeBlob(src.eventName, fixed + es, Concat(event.data), event);
    ReadPayloads(fixed + es);
  }

  /** What every emitted event decodes to: the event name, the four fixed fields, and either all
      properties in order with the whole message, or none with the part of it that fits. */
  lemma EventDecodes(src: Source, es: seq<Entry>)
    requires |src.eventName| <= 64 && |src.line| == 4
    requires Kept(src, es) ==> AllEncodable(es)
    ensures var event := EventFor(src, es);
            var n := Min(|src.message|, MAX_METADATA_SIZE - 1 - |Base(src.eventName)|);
            DecodeEvent(event.Blob(), Concat(event.data)) ==
            Some(Decoded(src.eventName,
                         if Kept(src, es) then FixedEntries(src, src.message) + AllOnWire(es)
                         else FixedEntries(src, src.message[..n])))
  {
    var event := EventFor(src, es);
    if Kept(src, es) {
      EncodedDecodes(src, src.message, es, event);
    } else {
      var n := Min(|src.message|, MAX_METADATA_SIZE - 1 - |Base(src.eventName)|);
      EncodedDecodes(src, src.message[..n], [], event);
      assert FixedEntries(src, src.message[..n]) + AllOnWire([]) == FixedEntries(src, src.message[..n]);
    }
  }

  /** How many of the first `n` pairs are not structs. */
  function LeafCount(es: seq<Entry>, n: nat): (k: nat)
    requires n <= |es|
    ensures k <= n
  {
    if n == 0 then 0 else LeafCount(es, n - 1) + if es[n - 1].ty.Struct? then 0 else 1
  }

  lemma {:induction false} PayloadsOfPrefix(es: seq<Entry>, n: nat)
    requires n <= |es|
    ensures |Payloads(es[..n])| == LeafCount(es, n)
    ensures 0 < n && !es[n - 1].ty.Struct? ==> Payloads(es[..n])[LeafCount(es, n - 1)] == Payload(es[n - 1])
  {
    if 0 < n {
      PayloadsOfPrefix(es, n - 1);
      assert es[..n] == es[..n - 1] + [es[n - 1]];
      PayloadsConcat(es[..n - 1], [es[n - 1]]);
      assert [es[n - 1]] + [] == [es[n - 1]];
      Cons(es[n - 1], []);
    }
  }

  /** The payload of pair `i` stands behind those of all pairs before it that have one. */
  predicate InOrder(es: seq<Entry>, i: nat)
    requires i < |es|
  {
    LeafCount(es, i) < |Payloads(es)| && Payloads(es)[LeafCount(es, i)] == Payload(es[i])
  }

  lemma PayloadAt(es: seq<Entry>, i: nat)
    requires i < |es| && !es[i].ty.Struct?
    ensures InOrder(es, i)
  {
    PayloadsOfPrefix(es, i);
    PayloadsOfPrefix(es, i + 1);
    assert es == es[..i + 1] + es[i + 1..];
    PayloadsConcat(es[..i + 1], es[i + 1..]);
  }

  /** Two descriptors for the metadata, four for the fixed fields, one for each property that is not
      a struct; never more than the array holds. */
  lemma DescriptorsFit(src: Source, es: seq<Entry>)
    requires |src.eventName| <= 64
    ensures var n := EventFor(src, es).DescriptorCount();
            n == 6 + (if Kept(src, es) then LeafCount(es, |es|) else 0) && n <= 6 + MAX_PROPERTIES
    ensures |EventFor(src, es).metadata| + |EventFor(src, es).data[0]| <= MAX_METADATA_SIZE
  {
    PayloadsOfPrefix(es, |es|);
    assert es[..|es|] == es;
  }

  /** Each of them is the data of its property, in order: a bool as a 32-bit 0 or 1, everything else
      byte for byte, and as wide as its reader expects. */
  lemma DescriptorOf(src: Source, es: seq<Entry>, i: nat)
    requires |src.eventName| <= 64 && Kept(src, es)
    requires i < |es| && !es[i].ty.Struct? && WellTyped(es[i].ty, es[i].value)
    ensures var data, k := EventFor(src, es).data, 4 + LeafCount(es, i);
            && k < |data| && |data[k]| == WireLength(es[i].ty, data[k])
            && Carries(es[i].(value := data[k]), es[i])
  {
    PayloadAt(es, i);
    PayloadLength(es[i], []);
    OnWireCarries(es[i]);
    assert Payload(es[i]) + [] == Payload(es[i]);
  }

  /** The bytes of the properties' metadata. */
  function FieldsLength(es: seq<Entry>): nat {
    if es == [] then 0 else |es[0].name| + 2 + (if es[0].ty.Struct? then 1 else 0) + FieldsLength(es[1..])
  }

  lemma {:induction false} FieldsLengthIs(es: seq<Entry>)
    requires forall e :: e in es && e.ty.Struct? ==> |e.value| == 1
    ensures |EncodeFields(es)| == FieldsLength(es)
  {
    if es != [] {
      assert es[0] in es;
      FieldsLengthIs(es[1..]);
    }
  }

  /** When the properties are kept, in numbers. */
  lemma KeptIff(src: Source, es: seq<Entry>)
    requires forall e :: e in es && e.ty.Struct? ==> |e.value| == 1
    ensures Kept(src, es) <==>
            && |es| <= 64 && (forall e :: e in es ==> !e.ty.Invalid?)
            && |src.eventName| + 28 + FieldsLength(es) + |src.message| < 4096
  {
    FieldsLengthIs(es);
  }

  // The forest survives

  /** A struct in at most 64 pairs has fewer than 128 fields. */
  lemma {:induction false} CountsStaySmall(f: Forest, n: nat)
    requires Size(f) <= n < 128 && Proper(f)
    ensures forall e :: e in Flatten(f) && e.ty.Struct? ==> |e.value| == 1 && e.value[0] < 128
  {
    if f.Leaf? {
      CountsStaySmall(f.rest, n);
    } else if f.Node? {
      SizeBounds(f.fields);
      CountsStaySmall(f.fields, n);
      CountsStaySmall(f.rest, n);
    }
  }

  /** The forest with its values as they arrive. */
  function Wire(f: Forest): (r: Forest)
    ensures Siblings(r) == Siblings(f) && (Proper(f) ==> Proper(r))
  {
    match f
    case Empty => Empty
    case Leaf(name, ty, value, rest) => Leaf(name, ty, Payload(Entry(name, ty, value)), Wire(rest))
    case Node(name, fields, rest) => Node(name, Wire(fields), Wire(rest))
  }

  lemma {:induction false} WireFlatten(f: Forest)
    requires Proper(f)
    ensures AllOnWire(Flatten(f)) == Flatten(Wire(f))
  {
    match f
    case Empty =>
    case Leaf(name, ty, value, rest) =>
      WireFlatten(rest);
      Cons(Entry(name, ty, value), Flatten(rest));
    case Node(name, fields, rest) =>
      WireFlatten(fields);
      WireFlatten(rest);
      OnWireConcat(Flatten(fields), Flatten(rest));
      Cons(Entry(name, Struct, [FieldCount(fields)]), Flatten(fields) + Flatten(rest));
  }

  lemma WireParses(f: Forest)
    requires Proper(f)
    ensures Parse(AllOnWire(Flatten(f)), 0, Siblings(f)) == Parsed(Wire(f), |Flatten(f)|)
  {
    WireFlatten(f);
    WalkFlattening(Wire(f));
    ParseComplete(Flatten(Wire(f)), 0, Wire(f));
  }

  /** Leaf by leaf, `d` carries `f`. */
  predicate CarriesForest(d: Forest, f: Forest) {
    match f
    case Empty => d.Empty?
    case Leaf(name, ty, value, rest) =>
      d.Leaf? && Carries(Entry(d.name, d.ty, d.value), Entry(name, ty, value)) && CarriesForest(d.rest, rest)
    case Node(name, fields, rest) =>
      d.Node? && d.name == name && CarriesForest(d.fields, fields) && CarriesForest(d.rest, rest)
  }

  lemma {:induction false} WireCarries(f: Forest)
    requires Proper(f) && AllWellTyped(f)
    ensures CarriesForest(Wire(f), f)
  {
    match f
    case Empty =>
    case Leaf(name, ty, value, rest) =>
      OnWireCarries(Entry(name, ty, value));
      WireCarries(rest);
    case Node(_, fields, rest) =>
      WireCarries(fields);
      WireCarries(rest);
  }

  predicate AllWellTyped(f: Forest) {
    match f
    case Empty => true
    case Leaf(_, ty, value, rest) => WellTyped(ty, value) && AllWellTyped(rest)
    case Node(_, fields, rest) => AllWellTyped(fields) && AllWellTyped(rest)
  }

  lemma {:induction false} LeavesWellTyped(f: Forest)
    requires forall e :: e in Flatten(f) ==> WellTyped(e.ty, e.value)
    ensures AllWellTyped(f)
  {
    if f.Leaf? {
      assert Flatten(f)[0] == Entry(f.name, f.ty, f.value);
      LeavesWellTyped(f.rest);
    } else if f.Node? {
      LeavesWellTyped(f.fields);
      LeavesWellTyped(f.rest);
    }
  }

  /** The decoder found the event name, the fixed fields, and a forest that carries `f`. */
  predicate FoundForest(d: Option<Decoded>, src: Source, f: Forest) {
    && d.Some? && d.value.eventName == src.eventName
    && FixedFields(d.value.fields, src.file, src.func, src.line, src.message)
    && var p := Parse(d.value.fields[4..], 0, Siblings(f));
    && p.Parsed? && p.next == |d.value.fields| - 4 && CarriesForest(p.forest, f)
  }

  lemma FindsForest(d: Option<Decoded>, src: Source, f: Forest)
    requires Proper(f) && forall e :: e in Flatten(f) ==> WellTyped(e.ty, e.value)
    requires d == Some(Decoded(src.eventName, FixedEntries(src, src.message) + AllOnWire(Flatten(f))))
    ensures FoundForest(d, src, f)
  {
    FixedFieldsAre(src, src.message, AllOnWire(Flatten(f)));
    assert d.value.fields[4..] == AllOnWire(Flatten(f));
    WireParses(f);
    LeavesWellTyped(f);
    WireCarries(f);
  }

  /** When the properties of a well-typed forest are kept, the decoder rebuilds that forest. */
  lemma ForestDecodes(src: Source, f: Forest)
    requires |src.eventName| <= 64 && |src.line| == 4
    requires Proper(f) && Kept(src, Flatten(f))
    requires forall e :: e in Flatten(f) ==> WellTyped(e.ty, e.value)
    ensures var event := EventFor(src, Flatten(f));
            FoundForest(DecodeEvent(event.Blob(), Concat(event.data)), src, f)
  {
    var event := EventFor(src, Flatten(f));
    SizeBounds(f);
    CountsStaySmall(f, 64);
    assert AllEncodable(Flatten(f));
    EventDecodes(src, Flatten(f));
    FindsForest(DecodeEvent(event.Blob(), Concat(event.data)), src, f);
  }

  // The 16-bit pair count

  /** `n` contexts, each with nothing but its parent. */
  function Nest(n: nat): (f: Forest) {
    if n == 0 then Empty else Node([], Nest(n - 1), Empty)
  }

  lemma {:induction n} NestSize(n: nat)
    ensures Size(Nest(n)) == n && Proper(Nest(n)) && Siblings(Nest(n)) == if n == 0 then 0 else 1
  {
  }

  /** The event carries every property of `es`, or none. */
  predicate AllOrNothing(event: Event, src: Source, es: seq<Entry>) {
    4 <= |event.data| &&
    (|| (event.metadata == Base(src.eventName) && event.data[4..] == [])
     || (event.metadata == Base(src.eventName) + EncodeFields(es) && event.data[4..] == Payloads(es)))
  }

  /** Of more than 65535 pairs the sink sees a part. That breaks its promise exactly when the part is
      not empty and is kept. */
  lemma AllOrNothingIff(src: Source, es: seq<Entry>)
    requires |src.eventName| <= 64
    ensures AllOrNothing(EventFor(src, CastPairs(es)), src, es) <==>
            |es| < 0x1_0000 || |es| % 0x1_0000 == 0 || !Kept(src, CastPairs(es))
  {
    CutIsSeenIff(src, es, |es| % 0x1_0000);
  }

  lemma CutIsSeenIff(src: Source, es: seq<Entry>, n: nat)
    requires |src.eventName| <= 64 && n <= |es|
    ensures AllOrNothing(EventFor(src, es[..n]), src, es) <==> n == |es| || n == 0 || !Kept(src, es[..n])
  {
    var cut, event := es[..n], EventFor(src, es[..n]);
    var base := Base(src.eventName);
    assert es == cut + es[n..];
    EncodeConcat(cut, es[n..]);
    EncodingGrows(cut);
    EncodingGrows(es[n..]);
    if Kept(src, cut) {
      assert event.data[4..] == Payloads(cut);
      assert n == |es| ==> cut == es;
      assert n == 0 ==> event.metadata == base;
      assert 0 < n < |es| ==> |base| < |event.metadata| < |base + EncodeFields(es)|;
    } else {
      assert event.metadata == base;
    }
  }

  lemma {:induction false} EncodingGrows(es: seq<Entry>)
    ensures 2 * |es| <= |EncodeFields(es)|
  {
    if es != [] {
      EncodingGrows(es[1..]);
    }
  }

  /** It does break it: the sink can emit a struct without its field: of 65537 nested contexts, or 131073, one
      pair is left, and it is kept, but it is no forest's array. */
  lemma CastBreaksTree(src: Source, n: nat, f: Forest)
    requires |src.eventName| <= 64 && |src.message| <= 4000 && 1 < n && n % 0x1_0000 == 1
    ensures var es := CastPairs(Flatten(Nest(n)));
            es == [Entry([], Struct, [1])] && Kept(src, es) && !(Proper(f) && Flatten(f) == es)
  {
    NestSize(n);
    NestSize(n - 1);
    SizeBounds(Nest(n));
    var es := CastPairs(Flatten(Nest(n)));
    assert es[0] == Flatten(Nest(n))[0] == Entry([], Struct, [FieldCount(Nest(n - 1))]);
    assert es == [Entry([], Struct, [1])] + [];
    Cons(Entry([], Struct, [1]), []);
    if Proper(f) && Flatten(f) == es {
      FirstStructFits(f);
    }
  }
}
