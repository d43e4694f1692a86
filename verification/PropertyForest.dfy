/** Property trees, the pre-order pair array they are flattened into, and the text they stand for. */
module PropertyForest {
  import opened CText

  datatype PropertyType =
    | Invalid | AsciiCharPtr | Bool
    | Int64 | UInt64 | Int32 | UInt32 | Int16 | UInt16 | Int8 | UInt8
    | Struct | WcharPtr

  /** A property/value pair as a consumer sees it: `value` is the meaningful bytes at its value
      pointer - a struct's field count, a string with its terminator, an integer's bytes. */
  datatype Entry = Entry(name: CString, ty: PropertyType, value: seq<byte>)

  /** A list of sibling properties, each carrying the siblings after it as `rest`. */
  datatype Forest =
    | Empty
    | Leaf(name: CString, ty: PropertyType, value: seq<byte>, rest: Forest)
    | Node(name: CString, fields: Forest, rest: Forest)

  function Siblings(f: Forest): nat {
    if f.Empty? then 0 else 1 + Siblings(f.rest)
  }

  /** The field count of a struct as it is stored, in one byte. */
  function FieldCount(fields: Forest): (n: byte)
    ensures Siblings(fields) < 256 ==> n == Siblings(fields)
  {
    Siblings(fields) % 256
  }

  /** The pair array: every struct is followed by its fields; its value is the number of its
      logical fields in one byte. */
  function Flatten(f: Forest): seq<Entry> {
    match f
    case Empty => []
    case Leaf(name, ty, value, rest) => [Entry(name, ty, value)] + Flatten(rest)
    case Node(name, fields, rest) =>
      [Entry(name, Struct, [FieldCount(fields)])] + (Flatten(fields) + Flatten(rest))
  }

  /** Every leaf has a leaf type and every struct's field count fits its byte. */
  predicate Proper(f: Forest) {
    match f
    case Empty => true
    case Leaf(_, ty, _, rest) => !ty.Struct? && Proper(rest)
    case Node(_, fields, rest) => Siblings(fields) < 256 && Proper(fields) && Proper(rest)
  }

  function Append(f: Forest, g: Forest): (r: Forest) {
    match f
    case Empty => g
    case Leaf(name, ty, value, rest) => Leaf(name, ty, value, Append(rest, g))
    case Node(name, fields, rest) => Node(name, fields, Append(rest, g))
  }

  lemma {:induction f} AppendKeeps(f: Forest, g: Forest)
    ensures Siblings(Append(f, g)) == Siblings(f) + Siblings(g)
    ensures Proper(Append(f, g)) <==> Proper(f) && Proper(g)
  {
  }

  lemma {:induction false} AppendFlatten(f: Forest, g: Forest)
    ensures Flatten(Append(f, g)) == Flatten(f) + Flatten(g)
  {
    match f
    case Empty =>
      assert Flatten(f) + Flatten(g) == Flatten(g);
    case Leaf(name, ty, value, rest) =>
      AppendFlatten(rest, g);
      Associative([Entry(name, ty, value)], Flatten(rest), Flatten(g));
    case Node(name, fields, rest) =>
      AppendFlatten(rest, g);
      Associative(Flatten(fields), Flatten(rest), Flatten(g));
      Associative([Entry(name, Struct, [FieldCount(fields)])], Flatten(fields) + Flatten(rest), Flatten(g));
  }

  lemma Associative<T>(a: seq<T>, b: seq<T>, c: seq<T>)
    ensures a + b + c == a + (b + c)
  {
  }

  function Size(f: Forest): nat {
    match f
    case Empty => 0
    case Leaf(_, _, _, rest) => 1 + Size(rest)
    case Node(_, fields, rest) => 1 + Size(fields) + Size(rest)
  }

  lemma {:induction f} SizeBounds(f: Forest)
    ensures |Flatten(f)| == Size(f) && Siblings(f) <= Size(f)
  {
  }

  /** The array `es` holds the pairs of the proper forest `f` from index `i` on. */
  predicate LaidOut(es: seq<Entry>, i: nat, f: Forest)
    ensures LaidOut(es, i, f) ==> i + Size(f) <= |es|
    decreases f
  {
    match f
    case Empty => i <= |es|
    case Leaf(name, ty, value, rest) =>
      i < |es| && es[i] == Entry(name, ty, value) && !ty.Struct? && LaidOut(es, i + 1, rest)
    case Node(name, fields, rest) =>
      && i < |es| && es[i] == Entry(name, Struct, [FieldCount(fields)]) && Siblings(fields) < 256
      && LaidOut(es, i + 1, fields) && LaidOut(es, i + 1 + Size(fields), rest)
  }

  /** The pairs `s` stand in the array from index `i` on. */
  predicate StandsAt(es: seq<Entry>, i: nat, s: seq<Entry>)
    decreases s
  {
    if s == [] then i <= |es| else i < |es| && es[i] == s[0] && StandsAt(es, i + 1, s[1..])
  }

  lemma {:induction false} StandsAtIff(es: seq<Entry>, i: nat, s: seq<Entry>)
    ensures StandsAt(es, i, s) <==> i + |s| <= |es| && es[i..i + |s|] == s
    decreases s
  {
    if s != [] {
      StandsAtIff(es, i + 1, s[1..]);
      if i + |s| <= |es| {
        assert es[i..i + |s|] == [es[i]] + es[i + 1..i + |s|];
        assert s == [s[0]] + s[1..];
      }
    }
  }

  lemma {:induction false} StandsAtConcat(es: seq<Entry>, i: nat, a: seq<Entry>, b: seq<Entry>)
    ensures StandsAt(es, i, a + b) <==> StandsAt(es, i, a) && StandsAt(es, i + |a|, b)
    decreases a
  {
    if a == [] {
      assert a + b == b;
      StandsAtIff(es, i, b);
    } else {
      assert (a + b)[1..] == a[1..] + b;
      StandsAtConcat(es, i + 1, a[1..], b);
    }
  }

  lemma StandsAtCons(es: seq<Entry>, i: nat, e: Entry, s: seq<Entry>)
    ensures StandsAt(es, i, [e] + s) <==> i < |es| && es[i] == e && StandsAt(es, i + 1, s)
  {
    assert ([e] + s)[1..] == s;
  }

  /** `f` is proper and its flattening is a window of the array. */
  predicate HoldsForest(es: seq<Entry>, i: nat, f: Forest) {
    Proper(f) && StandsAt(es, i, Flatten(f))
  }

  /** That is what can be walked. */
  predicate WalkIsWindow(es: seq<Entry>, i: nat, f: Forest) {
    LaidOut(es, i, f) <==> HoldsForest(es, i, f)
  }

  lemma {:induction false} LaidOutIff(es: seq<Entry>, i: nat, f: Forest)
    ensures WalkIsWindow(es, i, f)
    decreases f
  {
    match f
    case Empty =>
    case Leaf(name, ty, value, rest) =>
      LaidOutIff(es, i + 1, rest);
      HoldsLeaf(es, i, name, ty, value, rest);
    case Node(name, fields, rest) =>
      LaidOutIff(es, i + 1, fields);
      LaidOutIff(es, i + 1 + Size(fields), rest);
      HoldsNode(es, i, name, fields, rest);
  }

  lemma HoldsLeaf(es: seq<Entry>, i: nat, name: CString, ty: PropertyType, value: seq<byte>, rest: Forest)
    ensures HoldsForest(es, i, Leaf(name, ty, value, rest)) <==>
            i < |es| && es[i] == Entry(name, ty, value) && !ty.Struct? && HoldsForest(es, i + 1, rest)
  {
    StandsAtCons(es, i, Entry(name, ty, value), Flatten(rest));
  }

  lemma HoldsNode(es: seq<Entry>, i: nat, name: CString, fields: Forest, rest: Forest)
    ensures HoldsForest(es, i, Node(name, fields, rest)) <==>
            && i < |es| && es[i] == Entry(name, Struct, [FieldCount(fields)]) && Siblings(fields) < 256
            && HoldsForest(es, i + 1, fields) && HoldsForest(es, i + 1 + Size(fields), rest)
  {
    SizeBounds(fields);
    StandsAtCons(es, i, Entry(name, Struct, [FieldCount(fields)]), Flatten(fields) + Flatten(rest));
    StandsAtConcat(es, i + 1, Flatten(fields), Flatten(rest));
  }

  /** A proper forest's own array can be walked. */
  lemma WalkFlattening(f: Forest)
    requires Proper(f)
    ensures LaidOut(Flatten(f), 0, f) && |Flatten(f)| == Size(f)
  {
    SizeBounds(f);
    StandsAtIff(Flatten(f), 0, Flatten(f));
    LaidOutIff(Flatten(f), 0, f);
  }

  // Rebuilding the tree from the array

  datatype Parsed = Bad | Parsed(forest: Forest, next: nat) {

    function AddLeaf(e: Entry): Parsed {
      if Bad? then Bad else Parsed(Leaf(e.name, e.ty, e.value, forest), next)
    }

    function AddNode(e: Entry, fields: Forest): Parsed {
      if Bad? then Bad else Parsed(Node(e.name, fields, forest), next)
    }
  }

  /** Reads `n` logical fields from index `i` on. */
  function Parse(es: seq<Entry>, i: nat, n: nat): (p: Parsed)
    requires i <= |es|
    ensures p.Parsed? ==> i <= p.next <= |es|
    decreases |es| - i, n
  {
    if n == 0 then Parsed(Empty, i)
    else if i == |es| then Bad
    else if !es[i].ty.Struct? then Parse(es, i + 1, n - 1).AddLeaf(es[i])
    else if |es[i].value| != 1 then Bad
    else
      var inner := Parse(es, i + 1, es[i].value[0]);
      if inner.Bad? then Bad else Parse(es, inner.next, n - 1).AddNode(es[i], inner.forest)
  }

  /** The array reads as `f` from index `i` on. */
  predicate ReadsAt(es: seq<Entry>, i: nat, f: Forest)
    requires i <= |es|
  {
    Parse(es, i, Siblings(f)) == Parsed(f, i + Size(f))
  }

  /** Parsing inverts flattening. */
  lemma {:induction false} ParseComplete(es: seq<Entry>, i: nat, f: Forest)
    requires LaidOut(es, i, f) && i <= |es|
    ensures ReadsAt(es, i, f)
    decreases f
  {
    match f
    case Empty =>
    case Leaf(_, _, _, rest) =>
      ParseComplete(es, i + 1, rest);
    case Node(name, fields, rest) =>
      ParseComplete(es, i + 1, fields);
      ParseComplete(es, i + 1 + Size(fields), rest);
      ReadsNode(es, i, name, fields, rest);
  }

  lemma ReadsNode(es: seq<Entry>, i: nat, name: CString, fields: Forest, rest: Forest)
    requires i < |es| && es[i] == Entry(name, Struct, [FieldCount(fields)]) && Siblings(fields) < 256
    requires i + 1 + Size(fields) <= |es|
    requires ReadsAt(es, i + 1, fields) && ReadsAt(es, i + 1 + Size(fields), rest)
    ensures ReadsAt(es, i, Node(name, fields, rest))
  {
    ParseStruct(es, i, fields, 1 + Siblings(rest));
  }

  /** One step of Parse, at a struct whose fields have been read. */
  lemma ParseStruct(es: seq<Entry>, i: nat, fields: Forest, n: nat)
    requires i < |es| && 0 < n && es[i].ty.Struct? && Siblings(fields) < 256
    requires es[i].value == [Siblings(fields)] && Parse(es, i + 1, Siblings(fields)).Parsed?
    ensures var inner := Parse(es, i + 1, Siblings(fields));
            Parse(es, i, n) == Parse(es, inner.next, n - 1).AddNode(es[i], inner.forest)
  {
  }

  /** `p` is a reading of `n` fields that stand in the array from index `i` on. */
  predicate IsReading(es: seq<Entry>, i: nat, n: nat, p: Parsed)
    requires p.Parsed?
  {
    Siblings(p.forest) == n && LaidOut(es, i, p.forest) && p.next == i + Size(p.forest)
  }

  /** Flattening inverts parsing: an array has a reading only if it is some tree's array. */
  lemma {:induction false} ParseSound(es: seq<Entry>, i: nat, n: nat)
    requires i <= |es| && Parse(es, i, n).Parsed?
    ensures IsReading(es, i, n, Parse(es, i, n))
    decreases |es| - i, n
  {
    if n == 0 {
    } else if !es[i].ty.Struct? {
      ParseSound(es, i + 1, n - 1);
    } else {
      var inner := Parse(es, i + 1, es[i].value[0]);
      ParseSound(es, i + 1, es[i].value[0]);
      ParseSound(es, inner.next, n - 1);
      assert es[i].value == [es[i].value[0]];
    }
  }

  /** A proper forest's array never announces more fields than it has pairs left. */
  lemma FirstStructFits(f: Forest)
    requires Proper(f) && Flatten(f) != [] && Flatten(f)[0].ty.Struct?
    ensures |Flatten(f)[0].value| == 1 && Flatten(f)[0].value[0] < |Flatten(f)|
  {
    SizeBounds(f);
    if f.Node? {
      SizeBounds(f.fields);
      assert Flatten(f)[0] == Entry(f.name, Struct, [FieldCount(f.fields)]);
    }
  }

  lemma FlattenSingle(name: CString, fields: Forest)
    ensures Flatten(Node(name, fields, Empty)) == [Entry(name, Struct, [FieldCount(fields)])] + Flatten(fields)
  {
    assert Flatten(fields) + [] == Flatten(fields);
  }

  /** One pair array, one tree: whoever reads `n` fields of the array reads the same forest. */
  lemma FlattenInjective(f: Forest, g: Forest)
    requires Proper(f) && Proper(g) && Flatten(f) == Flatten(g) && Siblings(f) == Siblings(g)
    ensures f == g
  {
    WalkFlattening(f);
    WalkFlattening(g);
    ParseComplete(Flatten(f), 0, f);
    ParseComplete(Flatten(g), 0, g);
  }

  // Text

  function Decimal(n: nat): (s: CString) {
    (if n < 10 then [] else Decimal(n / 10)) + [48 + n % 10]
  }

  function SignedDecimal(n: int): (s: CString) {
    if n < 0 then [45] + Decimal(-n) else Decimal(n)
  }

  function LittleEndian(bs: seq<byte>): (n: nat) {
    if bs == [] then 0 else bs[0] + 256 * LittleEndian(bs[1..])
  }

  /** Two's complement reading of little-endian bytes. */
  function Signed(bs: seq<byte>): int {
    if bs != [] && 128 <= bs[|bs| - 1] then LittleEndian(bs) - Pow256(|bs|) else LittleEndian(bs)
  }

  function Pow256(n: nat): nat {
    if n == 0 then 1 else 256 * Pow256(n - 1)
  }

  /** The characters up to the terminator. */
  function AsciiText(bs: seq<byte>): (s: CString) {
    if bs == [] || bs[0] == 0 then [] else [bs[0]] + AsciiText(bs[1..])
  }

  lemma {:induction false} AsciiTextOf(s: seq<byte>, tail: seq<byte>)
    requires 0 !in s
    ensures AsciiText(s + [0] + tail) == s
  {
    if s != [] {
      assert (s + [0] + tail)[1..] == s[1..] + [0] + tail;
      assert s[0] in s;
      AsciiTextOf(s[1..], tail);
    }
  }

  lemma ReadsAsText(mem: seq<byte>, at: nat, s: seq<byte>)
    requires ReadsAs(mem, at, s)
    ensures AsciiText(mem[at..]) == s
  {
    assert mem[at..] == s + [0] + mem[at + |s| + 1..];
    AsciiTextOf(s, mem[at + |s| + 1..]);
  }

  /** The same for two-byte units, in a locale where a unit below 256 converts to that byte. */
  function WideText(bs: seq<byte>): (s: CString) {
    if |bs| < 2 || (bs[0] == 0 && bs[1] == 0) then []
    else [if bs[0] == 0 then 63 else bs[0]] + WideText(bs[2..])
  }

  const TRUE_TEXT: CString := [116, 114, 117, 101]       // "true"
  const FALSE_TEXT: CString := [102, 97, 108, 115, 101]  // "false"

  /** What a type's to_string prints for a value. */
  function ValueText(ty: PropertyType, value: seq<byte>): (s: CString) {
    match ty
    case AsciiCharPtr => AsciiText(value)
    case WcharPtr => WideText(value)
    case Bool => if value != [] && value[0] != 0 then TRUE_TEXT else FALSE_TEXT
    case Int64 | Int32 | Int16 | Int8 => SignedDecimal(Signed(value))
    case UInt64 | UInt32 | UInt16 | UInt8 => Decimal(LittleEndian(value))
    case Invalid | Struct => []
  }

  function LeafHead(name: CString): (s: CString) {
    [SPACE] + name + [EQUALS]
  }

  function OpenText(name: CString): (s: CString) {
    [SPACE] + name + (if name == [] then [] else [EQUALS]) + [OPEN_BRACE]
  }

  const CLOSE_TEXT: CString := [SPACE, CLOSE_BRACE]

  function ValueCells(ty: PropertyType, value: seq<byte>): (cs: seq<Cell>) {
    Cells(ValueText(ty, value), ty.WcharPtr?)
  }

  /** The text of a forest: ` name=value` for a leaf, ` name={ ... }` for a struct. */
  function Render(f: Forest): (cs: seq<Cell>) {
    match f
    case Empty => []
    case Leaf(name, ty, value, rest) =>
      Cells(LeafHead(name)) + ValueCells(ty, value) + Render(rest)
    case Node(name, fields, rest) =>
      Cells(OpenText(name)) + Render(fields) + Cells(CLOSE_TEXT) + Render(rest)
  }

  /** The same on plain text. */
  lemma RenderText(f: Forest)
    ensures Text(Render(f)) ==
            match f
            case Empty => []
            case Leaf(name, ty, value, rest) => LeafHead(name) + ValueText(ty, value) + Text(Render(rest))
            case Node(name, fields, rest) =>
              OpenText(name) + Text(Render(fields)) + CLOSE_TEXT + Text(Render(rest))
  {
    match f
    case Empty =>
    case Leaf(name, ty, value, rest) =>
      TextOfCells(LeafHead(name), false);
      TextOfCells(ValueText(ty, value), ty.WcharPtr?);
      TextConcat(Cells(LeafHead(name)), ValueCells(ty, value));
      TextConcat(Cells(LeafHead(name)) + ValueCells(ty, value), Render(rest));
    case Node(name, fields, rest) =>
      TextOfCells(OpenText(name), false);
      TextOfCells(CLOSE_TEXT, false);
      TextConcat(Cells(OpenText(name)), Render(fields));
      TextConcat(Cells(OpenText(name)) + Render(fields), Cells(CLOSE_TEXT));
      TextConcat(Cells(OpenText(name)) + Render(fields) + Cells(CLOSE_TEXT), Render(rest));
  }

  lemma {:induction false} RenderHasNoNul(f: Forest)
    ensures 0 !in Text(Render(f))
  {
    RenderText(f);
    if f.Leaf? {
      RenderHasNoNul(f.rest);
    } else if f.Node? {
      RenderHasNoNul(f.fields);
      RenderHasNoNul(f.rest);
    }
  }
}
