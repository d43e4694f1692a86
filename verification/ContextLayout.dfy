/** How a log context stores a property tree: pairs, and a packed area of value bytes. The counting
    pass and the filling pass of the macros of v2/inc/c_logging/log_context.h, as functions. */
module ContextLayout {
  import opened CText
  import opened PropertyForest

  const MAX_STACK_DATA_SIZE := 4096
  const MAX_STACK_PAIR_COUNT := 64
  const WCHAR_SIZE := 2

  // Values

  /** sizeof, for the types whose values are not strings. */
  function FixedSize(ty: PropertyType): nat {
    match ty
    case Int64 | UInt64 => 8
    case Int32 | UInt32 => 4
    case Int16 | UInt16 => 2
    case Int8 | UInt8 | Bool | Struct => 1
    case AsciiCharPtr | WcharPtr | Invalid => 0
  }

  function UnitSize(ty: PropertyType): (w: nat)
    ensures 0 < w
  {
    if ty.WcharPtr? then WCHAR_SIZE else 1
  }

  predicate ZeroUnit(s: seq<byte>, w: nat)
    requires w <= |s|
  {
    forall k :: 0 <= k < w ==> s[k] == 0
  }

  /** `s` is a string of `w`-byte units with its terminator and nothing more. */
  predicate Terminated(s: seq<byte>, w: nat)
    requires 0 < w
    decreases |s|
  {
    w <= |s| && if ZeroUnit(s, w) then |s| == w else Terminated(s[w..], w)
  }

  /** The number of bytes strcpy or wcscpy moves when it reads from the start of `s`. */
  function StringSpan(s: seq<byte>, w: nat): (n: nat)
    requires 0 < w
    ensures n <= |s|
    decreases |s|
  {
    if |s| < w then |s| else if ZeroUnit(s, w) then w else w + StringSpan(s[w..], w)
  }

  /** The number of bytes a type's copy moves. */
  function Span(ty: PropertyType, s: seq<byte>): (n: nat)
    ensures n <= |s|
  {
    if ty.AsciiCharPtr? || ty.WcharPtr? then StringSpan(s, UnitSize(ty)) else Min(FixedSize(ty), |s|)
  }

  predicate WellTyped(ty: PropertyType, value: seq<byte>) {
    if ty.AsciiCharPtr? || ty.WcharPtr? then Terminated(value, UnitSize(ty))
    else !ty.Invalid? && |value| == FixedSize(ty)
  }

  lemma {:induction false} StringSpanStops(value: seq<byte>, w: nat, tail: seq<byte>)
    requires 0 < w && Terminated(value, w)
    ensures StringSpan(value + tail, w) == |value|
    decreases |value|
  {
    assert forall k :: 0 <= k < w ==> (value + tail)[k] == value[k];
    if !ZeroUnit(value, w) {
      assert !ZeroUnit(value + tail, w);
      StringSpanStops(value[w..], w, tail);
      assert (value + tail)[w..] == value[w..] + tail;
    }
  }

  /** A copy moves exactly the value, whatever bytes lie behind it. */
  lemma SpanOfValue(ty: PropertyType, value: seq<byte>, tail: seq<byte>)
    requires WellTyped(ty, value)
    ensures Span(ty, value + tail) == |value|
  {
    if ty.AsciiCharPtr? || ty.WcharPtr? {
      StringSpanStops(value, UnitSize(ty), tail);
    }
  }

  // Own properties

  /** One property of a LOG_CONTEXT_CREATE or LOG_CONTEXT_LOCAL_DEFINE: `counted` is what the
      counting pass reserves for it, `slot` the bytes the filling pass writes and steps over. */
  datatype Property = Property(name: CString, ty: PropertyType, counted: nat, slot: seq<byte>) {

    /** The bytes a reader of the value takes in. */
    function Value(): seq<byte> {
      slot[..Span(ty, slot)]
    }

    function ToEntry(): Entry {
      Entry(name, ty, Value())
    }
  }

  /** A leaf whose value is complete and for which both passes agree on the length. */
  predicate Acceptable(p: Property) {
    !p.ty.Struct? && WellTyped(p.ty, p.Value()) && p.counted == |p.slot|
  }

  predicate AllAcceptable(ps: seq<Property>) {
    forall p :: p in ps ==> Acceptable(p)
  }

  /** LOG_CONTEXT_PROPERTY. */
  function FixedProperty(ty: PropertyType, name: CString, bytes: seq<byte>): Property {
    Property(name, ty, FixedSize(ty), bytes)
  }

  /** LOG_CONTEXT_STRING_PROPERTY, whose format expands to `first` when counting and to `second`
      when filling. */
  function StringProperty(name: CString, first: CString, second: CString): Property {
    Property(name, AsciiCharPtr, |first| + 1, second + [0])
  }

  /** LOG_CONTEXT_WSTRING_PROPERTY, likewise, with the bytes of the expansions. */
  function WideProperty(name: CString, first: seq<byte>, second: seq<byte>): Property {
    Property(name, WcharPtr, |first| + WCHAR_SIZE, second + [0, 0])
  }

  /** `s` consists of `w`-byte units, none of them zero. */
  predicate Units(s: seq<byte>, w: nat)
    requires 0 < w
    decreases |s|
  {
    s == [] || (w <= |s| && !ZeroUnit(s, w) && Units(s[w..], w))
  }

  lemma {:induction false} UnitsTerminate(s: seq<byte>, w: nat, zeros: seq<byte>)
    requires 0 < w == |zeros| && ZeroUnit(zeros, w) && Units(s, w)
    ensures Terminated(s + zeros, w)
    decreases |s|
  {
    var t := s + zeros;
    if s == [] {
      assert t == zeros;
    } else {
      assert forall k :: 0 <= k < w ==> t[k] == s[k];
      assert !ZeroUnit(t, w);
      UnitsTerminate(s[w..], w, zeros);
      assert t[w..] == s[w..] + zeros;
    }
  }

  lemma {:induction false} CStringUnits(s: CString)
    ensures Units(s, 1)
  {
    if s != [] {
      assert s[0] in s;
      CStringUnits(s[1..]);
    }
  }

  lemma TerminatedCString(s: CString)
    ensures Terminated(s + [0], 1)
  {
    CStringUnits(s);
    UnitsTerminate(s, 1, [0]);
  }

  lemma FixedPropertyAcceptable(ty: PropertyType, name: CString, bytes: seq<byte>)
    requires 0 < FixedSize(ty) && !ty.Struct?
    ensures Acceptable(FixedProperty(ty, name, bytes)) <==> |bytes| == FixedSize(ty)
  {
  }

  /** A formatted string property is acceptable exactly when both expansions have one length. */
  lemma StringPropertyAcceptable(name: CString, first: CString, second: CString)
    ensures Acceptable(StringProperty(name, first, second)) <==> |first| == |second|
    ensures StringProperty(name, first, second).Value() == second + [0]
  {
    var p := StringProperty(name, first, second);
    TerminatedCString(second);
    StringSpanStops(second + [0], 1, []);
    assert second + [0] + [] == second + [0] == p.slot;
  }

  lemma WidePropertyAcceptable(name: CString, first: seq<byte>, second: seq<byte>)
    requires Units(second, WCHAR_SIZE)
    ensures Acceptable(WideProperty(name, first, second)) <==> |first| == |second|
    ensures WideProperty(name, first, second).Value() == second + [0, 0]
  {
    var p := WideProperty(name, first, second);
    UnitsTerminate(second, WCHAR_SIZE, [0, 0]);
    StringSpanStops(second + [0, 0], WCHAR_SIZE, []);
    assert second + [0, 0] + [] == second + [0, 0] == p.slot;
  }

  /** The counting pass over the value bytes. */
  function CountDataBytes(ps: seq<Property>): nat {
    if ps == [] then 0 else ps[0].counted + CountDataBytes(ps[1..])
  }

  // Chains of contexts

  datatype Placement = Heap(succeeded: bool) | Stack

  /** How a context handle came about: NULL, or a macro applied to a parent handle. */
  datatype Chain =
    | NoContext
    | Context(parent: Chain, name: CString, props: seq<Property>, place: Placement)

  predicate IsNull(c: Chain) {
    c.NoContext? || c.place == Heap(false)
  }

  /** The context holds pairs: it was allocated, or it fits the fixed arrays. A local context that
      does not fit is not NULL but holds nothing. */
  predicate Stored(c: Chain)
    decreases c, 1
  {
    && c.Context?
    && match c.place
       case Heap(succeeded) => succeeded
       case Stack => NeededPairs(c) <= MAX_STACK_PAIR_COUNT && NeededData(c) <= MAX_STACK_DATA_SIZE
  }

  function NeededPairs(c: Chain): nat
    requires c.Context?
    decreases c, 0
  {
    PairCount(c.parent) + 1 + |c.props|
  }

  function NeededData(c: Chain): nat
    requires c.Context?
    decreases c, 0
  {
    DataLength(c.parent) + 1 + CountDataBytes(c.props)
  }

  function PairCount(c: Chain): nat
    decreases c, 2
  {
    if Stored(c) then NeededPairs(c) else 0
  }

  function DataLength(c: Chain): nat
    decreases c, 2
  {
    if Stored(c) then NeededData(c) else 0
  }

  lemma NullIsEmpty(c: Chain)
    requires IsNull(c)
    ensures PairCount(c) == 0 && DataLength(c) == 0
  {
  }

  /** A pair's place: what it reads as, and its reserved bytes of the data area. */
  datatype Place = Place(entry: Entry, offset: nat, reserved: nat)

  function Shift(l: seq<Place>): (r: seq<Place>) {
    seq(|l|, i requires 0 <= i < |l| => l[i].(offset := l[i].offset + 1))
  }

  function OwnPlaces(ps: seq<Property>, offset: nat): (l: seq<Place>)
    ensures |l| == |ps|
  {
    if ps == [] then []
    else [Place(ps[0].ToEntry(), offset, ps[0].counted)] + OwnPlaces(ps[1..], offset + ps[0].counted)
  }

  /** The number of fields a context is given: a parent handle that is not NULL counts as one. */
  function Given(c: Chain): nat
    requires c.Context?
  {
    (if IsNull(c.parent) then 0 else 1) + |c.props|
  }

  /** The field count the macros store. */
  function StoredCount(c: Chain): byte
    requires c.Context?
  {
    Given(c) % 256
  }

  /** The pairs of a context: the struct entry, the parent's pairs one index and one byte further,
      then its own properties. */
  function Layout(c: Chain): (l: seq<Place>)
    ensures |l| == PairCount(c)
  {
    if !Stored(c) then []
    else
      [Place(Entry(c.name, Struct, [StoredCount(c)]), 0, 1)]
      + Shift(Layout(c.parent)) + OwnPlaces(c.props, 1 + DataLength(c.parent))
  }

  predicate AcceptableChain(c: Chain) {
    c.Context? ==> AllAcceptable(c.props) && AcceptableChain(c.parent)
  }

  // The data area is tiled

  /** The places take up the bytes from `from` to `to`, in order, without gap or overlap. */
  predicate Tiles(l: seq<Place>, from: nat, to: nat) {
    if l == [] then from == to
    else l[0].offset == from && Tiles(l[1..], from + l[0].reserved, to)
  }

  lemma {:induction false} TilesConcat(a: seq<Place>, b: seq<Place>, from: nat, mid: nat, to: nat)
    requires Tiles(a, from, mid) && Tiles(b, mid, to)
    ensures Tiles(a + b, from, to)
  {
    if a == [] {
      assert a + b == b;
    } else {
      TilesConcat(a[1..], b, from + a[0].reserved, mid, to);
      assert (a + b)[1..] == a[1..] + b;
    }
  }

  lemma {:induction false} TilesShift(l: seq<Place>, from: nat, to: nat)
    requires Tiles(l, from, to)
    ensures Tiles(Shift(l), from + 1, to + 1)
  {
    if l != [] {
      TilesShift(l[1..], from + l[0].reserved, to);
      assert Shift(l)[1..] == Shift(l[1..]);
    }
  }

  lemma {:induction false} TilesOwn(ps: seq<Property>, offset: nat)
    ensures Tiles(OwnPlaces(ps, offset), offset, offset + CountDataBytes(ps))
  {
    if ps != [] {
      TilesOwn(ps[1..], offset + ps[0].counted);
      assert OwnPlaces(ps, offset)[1..] == OwnPlaces(ps[1..], offset + ps[0].counted);
    }
  }

  /** Field count byte, inherited values and own values fill the data area exactly. */
  lemma {:induction false} LayoutTiles(c: Chain)
    ensures Tiles(Layout(c), 0, DataLength(c))
  {
    if Stored(c) {
      LayoutTiles(c.parent);
      var inherited, own := Shift(Layout(c.parent)), OwnPlaces(c.props, 1 + DataLength(c.parent));
      var root := [Place(Entry(c.name, Struct, [StoredCount(c)]), 0, 1)];
      TilesShift(Layout(c.parent), 0, DataLength(c.parent));
      TilesOwn(c.props, 1 + DataLength(c.parent));
      assert root[1..] == [];
      TilesConcat(root, inherited, 0, 1, 1 + DataLength(c.parent));
      assert DataLength(c) == 1 + DataLength(c.parent) + CountDataBytes(c.props);
      TilesConcat(root + inherited, own, 0, 1 + DataLength(c.parent), DataLength(c));
    }
  }

  /** Tiles are disjoint, ordered, and within bounds. */
  lemma {:induction false} TilesApart(l: seq<Place>, from: nat, to: nat, i: nat, j: nat)
    requires Tiles(l, from, to) && i < |l|
    ensures from <= l[i].offset && l[i].offset + l[i].reserved <= to
    ensures i < j < |l| ==> l[i].offset + l[i].reserved <= l[j].offset
    decreases |l|
  {
    TilesBounds(l[1..], from + l[0].reserved, to);
    if i == 0 {
      if 0 < j < |l| {
        TilesApart(l[1..], from + l[0].reserved, to, j - 1, j - 1);
      }
    } else {
      TilesApart(l[1..], from + l[0].reserved, to, i - 1, if j == 0 then 0 else j - 1);
    }
  }

  lemma {:induction false} TilesBounds(l: seq<Place>, from: nat, to: nat)
    requires Tiles(l, from, to)
    ensures from <= to
  {
    if l != [] {
      TilesBounds(l[1..], from + l[0].reserved, to);
    }
  }

  /** Every value fits what was reserved for it and can be copied. */
  predicate Roomy(l: seq<Place>) {
    forall i :: 0 <= i < |l| ==>
      WellTyped(l[i].entry.ty, l[i].entry.value) && |l[i].entry.value| <= l[i].reserved
  }

  lemma {:induction ps} OwnRoomy(ps: seq<Property>, offset: nat)
    requires AllAcceptable(ps)
    ensures Roomy(OwnPlaces(ps, offset))
  {
    if ps != [] {
      assert Acceptable(ps[0]);
      OwnRoomy(ps[1..], offset + ps[0].counted);
    }
  }

  lemma {:induction false} LayoutRoomy(c: Chain)
    requires AcceptableChain(c)
    ensures Roomy(Layout(c))
  {
    if Stored(c) {
      LayoutRoomy(c.parent);
      OwnRoomy(c.props, 1 + DataLength(c.parent));
    }
  }

  // What the pairs read as

  function Entries(l: seq<Place>): (es: seq<Entry>) {
    seq(|l|, i requires 0 <= i < |l| => l[i].entry)
  }

  function View(c: Chain): (es: seq<Entry>) {
    Entries(Layout(c))
  }

  function Leaves(ps: seq<Property>): (f: Forest) {
    if ps == [] then Empty else Leaf(ps[0].name, ps[0].ty, ps[0].Value(), Leaves(ps[1..]))
  }

  /** The tree a context stands for: its own properties after the tree of its parent. */
  function TreeOf(c: Chain): (f: Forest) {
    if !Stored(c) then Empty else Node(c.name, Append(TreeOf(c.parent), Leaves(c.props)), Empty)
  }

  lemma {:induction false} OwnEntries(ps: seq<Property>, offset: nat)
    ensures Entries(OwnPlaces(ps, offset)) == Flatten(Leaves(ps)) && Siblings(Leaves(ps)) == |ps|
    ensures AllAcceptable(ps) ==> Proper(Leaves(ps))
  {
    if ps != [] {
      OwnEntries(ps[1..], offset + ps[0].counted);
      assert Entries(OwnPlaces(ps, offset))
          == [ps[0].ToEntry()] + Entries(OwnPlaces(ps[1..], offset + ps[0].counted));
      assert ps[0] in ps;
    }
  }

  /** The pairs of a stored context, entry by entry. */
  lemma ViewParts(c: Chain)
    requires Stored(c)
    ensures View(c) == [Entry(c.name, Struct, [StoredCount(c)])] + (View(c.parent) + Flatten(Leaves(c.props)))
  {
    var inherited, own := Shift(Layout(c.parent)), OwnPlaces(c.props, 1 + DataLength(c.parent));
    OwnEntries(c.props, 1 + DataLength(c.parent));
    assert Entries(inherited) == View(c.parent);
    EntriesParts(Place(Entry(c.name, Struct, [StoredCount(c)]), 0, 1), inherited, own);
  }

  lemma EntriesParts(p: Place, a: seq<Place>, b: seq<Place>)
    ensures Entries([p] + a + b) == [p.entry] + (Entries(a) + Entries(b))
  {
  }

  /** Of the contexts whose pairs end up in this one, none has an overflowed parent and none is given
      more than 255 fields. */
  predicate Sound(c: Chain) {
    Stored(c) ==> Sound(c.parent) && (IsNull(c.parent) || Stored(c.parent)) && Given(c) < 256
  }

  /** Any chain of creations leaves the flattening of the tree it stands for. */
  lemma {:induction false} ContextIsTree(c: Chain)
    requires Sound(c) && AcceptableChain(c)
    ensures View(c) == Flatten(TreeOf(c)) && Proper(TreeOf(c))
    ensures Siblings(TreeOf(c)) == if Stored(c) then 1 else 0
    decreases c, 1
  {
    if Stored(c) {
      FieldsOf(c);
      FlattenSingle(c.name, TreeOf(c).fields);
    }
  }

  /** The fields of a stored context's tree, as the pairs behind its struct entry. */
  lemma FieldsOf(c: Chain)
    requires Stored(c) && AcceptableChain(c) && Sound(c.parent)
    ensures var fields := TreeOf(c).fields;
            && Proper(fields) && Siblings(fields) == (if Stored(c.parent) then 1 else 0) + |c.props|
            && View(c) == [Entry(c.name, Struct, [StoredCount(c)])] + Flatten(fields)
    decreases c, 0
  {
    ContextIsTree(c.parent);
    OwnEntries(c.props, 0);
    ViewParts(c);
    AppendKeeps(TreeOf(c.parent), Leaves(c.props));
    AppendFlatten(TreeOf(c.parent), Leaves(c.props));
  }

  /** Soundness is exact: however many fields a consumer asks for, it finds the tree the context
      stands for only as one field, and only in a sound chain. */
  lemma {:induction false} ReadsAsTreeIff(c: Chain, n: nat)
    requires Stored(c) && AcceptableChain(c)
    ensures Parse(View(c), 0, n) == Parsed(TreeOf(c), |View(c)|) <==> n == 1 && Sound(c)
  {
    if n == 1 && Sound(c) {
      ContextIsTree(c);
      WalkFlattening(TreeOf(c));
      ParseComplete(View(c), 0, TreeOf(c));
    }
    if Parse(View(c), 0, n) == Parsed(TreeOf(c), |View(c)|) {
      ParseSound(View(c), 0, n);
      ReadIsSound(c);
    }
  }

  lemma {:induction false} ReadIsSound(c: Chain)
    requires AcceptableChain(c) && LaidOut(View(c), 0, TreeOf(c))
    ensures Sound(c)
  {
    if Stored(c) {
      ViewParts(c);
      ParentIsLaidOut(c);
      ReadIsSound(c.parent);
      FieldsOf(c);
    }
  }

  /** If a context can be walked as its tree, so can its parent. */
  lemma ParentIsLaidOut(c: Chain)
    requires Stored(c) && LaidOut(View(c), 0, TreeOf(c))
    ensures LaidOut(View(c.parent), 0, TreeOf(c.parent))
  {
    var parent, own := TreeOf(c.parent), Flatten(Leaves(c.props));
    var fields := TreeOf(c).fields;
    LaidOutIff(View(c), 0, TreeOf(c));
    StandsAtIff(View(c), 0, Flatten(TreeOf(c)));
    TreeSize(c);
    TreeSize(c.parent);
    ViewParts(c);
    FlattenSingle(c.name, fields);
    AppendFlatten(parent, Leaves(c.props));
    SameMiddle(Entry(c.name, Struct, [StoredCount(c)]), View(c.parent),
               Entry(c.name, Struct, [FieldCount(fields)]), Flatten(parent), own);
    AppendKeeps(parent, Leaves(c.props));
    WalkFlattening(parent);
  }

  lemma SameMiddle(d: Entry, a: seq<Entry>, e: Entry, b: seq<Entry>, tail: seq<Entry>)
    requires |a| == |b| && [d] + (a + tail) == [e] + (b + tail)
    ensures a == b
  {
    assert a == ([d] + (a + tail))[1..1 + |a|];
    assert b == ([e] + (b + tail))[1..1 + |b|];
  }

  /** A tree has as many pairs as its context, sound or not. */
  lemma {:induction false} TreeSize(c: Chain)
    ensures |View(c)| == Size(TreeOf(c)) == |Flatten(TreeOf(c))|
  {
    SizeBounds(TreeOf(c));
    if Stored(c) {
      TreeSize(c.parent);
      OwnEntries(c.props, 0);
      SizeBounds(Leaves(c.props));
      AppendFlatten(TreeOf(c.parent), Leaves(c.props));
      SizeBounds(TreeOf(c).fields);
    }
  }

  // What is read instead

  function Take(f: Forest, n: nat): (r: Forest) {
    if n == 0 then Empty
    else
      match f
      case Empty => Empty
      case Leaf(name, ty, value, rest) => Leaf(name, ty, value, Take(rest, n - 1))
      case Node(name, fields, rest) => Node(name, fields, Take(rest, n - 1))
  }

  function Drop(f: Forest, n: nat): (r: Forest) {
    if n == 0 || f.Empty? then f else Drop(f.rest, n - 1)
  }

  lemma {:induction false} TakeDrop(f: Forest, n: nat)
    requires n <= Siblings(f)
    ensures Append(Take(f, n), Drop(f, n)) == f && Siblings(Take(f, n)) == n
    ensures n == Siblings(f) ==> Take(f, n) == f && Drop(f, n) == Empty
  {
    if 0 < n {
      TakeDrop(f.rest, n - 1);
    }
  }

  /** A struct that announces only the first `n` of its fields. */
  lemma CutTree(name: CString, fields: Forest, n: byte)
    requires Proper(fields) && n <= Siblings(fields)
    ensures var f := Node(name, Take(fields, n), Drop(fields, n));
            && Proper(f) && Flatten(f) == [Entry(name, Struct, [n])] + Flatten(fields)
            && (f == Node(name, fields, Empty) <==> n == Siblings(fields))
  {
    TakeDrop(fields, n);
    AppendFlatten(Take(fields, n), Drop(fields, n));
    AppendKeeps(Take(fields, n), Drop(fields, n));
  }

  /** The tree a consumer finds: the count byte alone says how many of the given fields are inside
      the context, the others become its siblings. */
  function FoundTree(c: Chain): (f: Forest) {
    if !Stored(c) then Empty
    else
      var fields := TreeOf(c).fields;
      Node(c.name, Take(fields, StoredCount(c)), Drop(fields, StoredCount(c)))
  }

  /** The parent is sound, and the context announces no more fields than it has. */
  predicate Readable(c: Chain) {
    Stored(c) ==> Sound(c.parent) && StoredCount(c) <= Siblings(TreeOf(c).fields)
  }

  /** With 256 fields or more the count wraps, and another tree is found. */
  lemma WrappedCountMisreads(c: Chain)
    requires AcceptableChain(c) && Readable(c)
    ensures Proper(FoundTree(c)) && View(c) == Flatten(FoundTree(c))
    ensures Stored(c) ==> (FoundTree(c) == TreeOf(c) <==> Given(c) < 256)
  {
    if Stored(c) {
      FieldsOf(c);
      CutTree(c.name, TreeOf(c).fields, StoredCount(c));
    }
  }

  lemma SoundIsReadable(c: Chain)
    requires AcceptableChain(c) && Sound(c)
    ensures Readable(c) && FoundTree(c) == TreeOf(c)
  {
    if Stored(c) {
      OrphanIff(c);
      WrappedCountMisreads(c);
    }
  }

  /** A child of an overflowed local context announces one field more than there are pairs: it is no
      forest's array at all - unless the count has wrapped. */
  lemma OrphanIsUnreadable(c: Chain, f: Forest)
    requires Stored(c) && !IsNull(c.parent) && !Stored(c.parent) && |c.props| < 255
    ensures !(Proper(f) && Flatten(f) == View(c))
  {
    ViewParts(c);
    assert View(c)[0] == Entry(c.name, Struct, [1 + |c.props|]);
    assert |View(c)| == 1 + |c.props|;
    if Proper(f) && Flatten(f) == View(c) {
      FirstStructFits(f);
    }
  }

  /** Between them the two say what becomes of every context with a sound parent. */
  lemma OrphanIff(c: Chain)
    requires Stored(c) && AcceptableChain(c) && Sound(c.parent)
    ensures Siblings(TreeOf(c).fields) < StoredCount(c) <==>
            !IsNull(c.parent) && !Stored(c.parent) && |c.props| < 255
  {
    FieldsOf(c);
  }

  /** Both happen: 64 properties overflow a local context and make its child an orphan; 256 on the
      heap wrap the count. */
  lemma UnsoundContexts()
    ensures var p := FixedProperty(UInt8, [97], [1]);
            var child := Context(Context(NoContext, [112], seq(64, _ => p), Stack), [99], [p], Heap(true));
            var big := Context(NoContext, [98], seq(256, _ => p), Heap(true));
            && AcceptableChain(child) && Stored(child) && !IsNull(child.parent) && !Stored(child.parent)
            && AcceptableChain(big) && Stored(big) && StoredCount(big) == 0 && FoundTree(big).fields == Empty
  {
  }

  /** Sound or not, no struct announces more fields than its context has pairs. */
  predicate CountsWithin(es: seq<Entry>, n: nat) {
    forall e :: e in es && e.ty.Struct? ==> |e.value| == 1 && e.value[0] <= n
  }

  lemma {:induction ps} LeavesHaveNoCounts(ps: seq<Property>)
    requires AllAcceptable(ps)
    ensures forall e :: e in Flatten(Leaves(ps)) ==> !e.ty.Struct?
  {
    if ps != [] {
      assert ps[0] in ps;
      LeavesHaveNoCounts(ps[1..]);
    }
  }

  lemma {:induction false} ViewCounts(c: Chain)
    requires AcceptableChain(c)
    ensures CountsWithin(View(c), PairCount(c))
  {
    if Stored(c) {
      ViewCounts(c.parent);
      LeavesHaveNoCounts(c.props);
      ViewParts(c);
      CountsOfParts(Entry(c.name, Struct, [StoredCount(c)]), View(c.parent), Flatten(Leaves(c.props)),
                    PairCount(c.parent), PairCount(c));
    }
  }

  lemma CountsOfParts(root: Entry, a: seq<Entry>, b: seq<Entry>, m: nat, n: nat)
    requires |root.value| == 1 && root.value[0] <= n && m <= n && CountsWithin(a, m)
    requires forall e :: e in b ==> !e.ty.Struct?
    ensures CountsWithin([root] + (a + b), n)
  {
  }

  // Chains in which nothing is missing

  /** The bytes the filling pass writes for the own properties. */
  function SlotBytes(ps: seq<Property>): nat {
    if ps == [] then 0 else |ps[0].slot| + SlotBytes(ps[1..])
  }

  lemma {:induction false} CountedIsWritten(ps: seq<Property>)
    requires AllAcceptable(ps)
    ensures CountDataBytes(ps) == SlotBytes(ps)
  {
    if ps != [] {
      assert Acceptable(ps[0]);
      CountedIsWritten(ps[1..]);
    }
  }

  /** Struct entries and properties of all generations, and their bytes. */
  function TotalPairs(c: Chain): nat {
    if c.NoContext? then 0 else TotalPairs(c.parent) + 1 + |c.props|
  }

  function TotalData(c: Chain): nat {
    if c.NoContext? then 0 else TotalData(c.parent) + 1 + SlotBytes(c.props)
  }

  /** Every allocation succeeds and every local context is within its 64 pairs and 4096 bytes. */
  predicate AllFit(c: Chain) {
    c.Context? ==>
      && AllFit(c.parent)
      && match c.place
         case Heap(succeeded) => succeeded
         case Stack => TotalPairs(c) <= 64 && TotalData(c) <= 4096
  }

  /** The tree of all generations. */
  function FullTree(c: Chain): (f: Forest) {
    if c.NoContext? then Empty else Node(c.name, Append(FullTree(c.parent), Leaves(c.props)), Empty)
  }

  /** Then nothing is missing from the context or its tree. */
  lemma {:induction false} FittingChainIsStored(c: Chain)
    requires AllFit(c) && AcceptableChain(c)
    ensures c.Context? ==> Stored(c)
    ensures PairCount(c) == TotalPairs(c) && DataLength(c) == TotalData(c) && TreeOf(c) == FullTree(c)
  {
    if c.Context? {
      FittingChainIsStored(c.parent);
      CountedIsWritten(c.props);
    }
  }

  /** No context has more than 255 properties, its parent included. */
  predicate FewFields(c: Chain) {
    c.Context? ==> FewFields(c.parent) && (if c.parent.NoContext? then 0 else 1) + |c.props| < 256
  }

  lemma {:induction false} FittingChainIsSound(c: Chain)
    requires AllFit(c) && AcceptableChain(c)
    ensures Sound(c) <==> FewFields(c)
  {
    FittingChainIsStored(c);
    if c.Context? {
      FittingChainIsStored(c.parent);
      FittingChainIsSound(c.parent);
    }
  }

  /** Local contexts alone never have too many fields. */
  predicate AllLocal(c: Chain) {
    c.Context? ==> AllLocal(c.parent) && c.place.Stack?
  }

  lemma {:induction false} LocalChainFits(c: Chain)
    requires AllLocal(c) && TotalPairs(c) <= 64 && TotalData(c) <= 4096
    ensures AllFit(c) && FewFields(c)
  {
    if c.Context? {
      LocalChainFits(c.parent);
    }
  }

  // Inheritance

  /** `d` is `n` generations below `c`, each of them stored. */
  predicate Descends(d: Chain, c: Chain, n: nat) {
    if n == 0 then d == c else Stored(d) && Descends(d.parent, c, n - 1)
  }

  /** Pair `i` of `c` is in `d` again, `n` indices and `n` bytes further, with the same name, type,
      value and reservation. */
  predicate Reappears(c: Chain, i: nat, d: Chain, n: nat) {
    && i < |Layout(c)| && i + n < |Layout(d)|
    && Layout(d)[i + n] == Layout(c)[i].(offset := Layout(c)[i].offset + n)
  }

  /** So it is after `n` generations. */
  lemma {:induction false} Inherited(d: Chain, c: Chain, n: nat, i: nat)
    requires Descends(d, c, n) && i < |Layout(c)|
    ensures Reappears(c, i, d, n)
    decreases n
  {
    if 0 < n {
      Inherited(d.parent, c, n - 1, i);
      InheritedOnce(d, i + n - 1);
    }
  }

  lemma InheritedOnce(d: Chain, i: nat)
    requires Stored(d) && i < |Layout(d.parent)|
    ensures Reappears(d.parent, i, d, 1)
  {
    ShiftedAt(Place(Entry(d.name, Struct, [StoredCount(d)]), 0, 1), Layout(d.parent),
              OwnPlaces(d.props, 1 + DataLength(d.parent)), i);
  }

  lemma ShiftedAt(p: Place, l: seq<Place>, own: seq<Place>, i: nat)
    requires i < |l|
    ensures ([p] + Shift(l) + own)[i + 1] == l[i].(offset := l[i].offset + 1)
  {
  }
}
