/** A reader of the printed text: where names and values keep clear of the separators, the text of a
    forest can be read back. */
module TextReader {
  import opened CText
  import opened PropertyForest

  /** What a text shows of a forest: names, the texts of values, and the nesting. */
  datatype Outline =
    | End
    | Value(name: seq<byte>, text: seq<byte>, rest: Outline)
    | Group(name: seq<byte>, fields: Outline, rest: Outline)

  function OutlineOf(f: Forest): (o: Outline) {
    match f
    case Empty => End
    case Leaf(name, ty, value, rest) => Value(name, ValueText(ty, value), OutlineOf(rest))
    case Node(name, fields, rest) => Group(name, OutlineOf(fields), OutlineOf(rest))
  }

  // Reading

  /** The bytes before the first `b`. */
  function Before(s: seq<byte>, b: byte): (r: seq<byte>)
    ensures |r| <= |s|
  {
    if s == [] || s[0] == b then [] else [s[0]] + Before(s[1..], b)
  }

  /** The words of a text, each with a space in front. */
  function Words(s: seq<byte>): (ws: seq<seq<byte>>)
    decreases |s|
  {
    if s == [] then []
    else
      var w := Before(s[1..], ' ' as int);
      [w] + Words(s[1 + |w|..])
  }

  datatype Reading = Unreadable | Reading(outline: Outline, left: seq<seq<byte>>)

  /** Items up to a closing brace: `name={`, `{`, or `name=text`. */
  function ReadItems(ws: seq<seq<byte>>): (r: Reading)
    ensures r.Reading? ==> |r.left| <= |ws|
    decreases |ws|
  {
    if ws == [] || ws[0] == Ascii("}") then Reading(End, ws)
    else
      var w := ws[0];
      if w != [] && w[|w| - 1] == '{' as int then
        var inner := ReadItems(ws[1..]);
        if inner.Unreadable? || inner.left == [] then Unreadable
        else
          var next := ReadItems(inner.left[1..]);
          if next.Unreadable? then Unreadable
          else Reading(Group(Before(w[..|w| - 1], '=' as int), inner.outline, next.outline), next.left)
      else
        var next := ReadItems(ws[1..]);
        var name := Before(w, '=' as int);
        if next.Unreadable? || |name| == |w| then Unreadable
        else Reading(Value(name, w[|name| + 1..], next.outline), next.left)
  }

  function ReadText(s: seq<byte>): (r: Reading) {
    ReadItems(Words(s))
  }

  // Reading what was printed

  predicate Plain(s: seq<byte>) {
    forall b :: b in s ==> b !in Ascii(" ={}")
  }

  predicate PlainForest(f: Forest) {
    match f
    case Empty => true
    case Leaf(name, ty, value, rest) => Plain(name) && Plain(ValueText(ty, value)) && PlainForest(rest)
    case Node(name, fields, rest) => Plain(name) && PlainForest(fields) && PlainForest(rest)
  }

  lemma PlainBytes(s: seq<byte>)
    requires Plain(s)
    ensures 32 !in s && 61 !in s && 123 !in s && 125 !in s
  {
    var separators := Ascii(" ={}");
    assert separators[0] == 32 && separators[1] == 61 && separators[2] == 123 && separators[3] == 125;
  }

  function LeafWord(name: seq<byte>, text: seq<byte>): (w: seq<byte>) {
    name + [61] + text
  }

  function OpenWord(name: seq<byte>): (w: seq<byte>) {
    (if name == [] then [] else name + [61]) + [123]
  }

  function WordsOf(f: Forest): (ws: seq<seq<byte>>) {
    match f
    case Empty => []
    case Leaf(name, ty, value, rest) => [LeafWord(name, ValueText(ty, value))] + WordsOf(rest)
    case Node(name, fields, rest) => [OpenWord(name)] + (WordsOf(fields) + ([[125]] + WordsOf(rest)))
  }

  lemma {:induction false} BeforeIs(s: seq<byte>, b: byte, tail: seq<byte>)
    requires b !in s && (tail == [] || tail[0] == b)
    ensures Before(s + tail, b) == s
  {
    if s == [] {
      assert s + tail == tail;
    } else {
      assert s[0] in s;
      assert (s + tail)[1..] == s[1..] + tail;
      BeforeIs(s[1..], b, tail);
    }
  }

  /** `s` is nothing, or starts with a space. */
  predicate Spaced(s: seq<byte>) {
    s == [] || s[0] == 32
  }

  lemma OneWord(w: seq<byte>, tail: seq<byte>)
    requires 32 !in w && Spaced(tail)
    ensures Words([32] + w + tail) == [w] + Words(tail)
  {
    var s := [32] + w + tail;
    assert s[1..] == w + tail;
    BeforeIs(w, 32, tail);
    assert s[1 + |w|..] == tail;
  }

  lemma TextIsSpaced(f: Forest, tail: seq<byte>)
    requires Spaced(tail)
    ensures Spaced(Text(Render(f)) + tail)
  {
    RenderText(f);
  }

  /** The words of the text, with more text behind it. */
  predicate HasWords(f: Forest, tail: seq<byte>) {
    Words(Text(Render(f)) + tail) == WordsOf(f) + Words(tail)
  }

  lemma {:induction false} TextWords(f: Forest, tail: seq<byte>)
    requires PlainForest(f) && Spaced(tail)
    ensures HasWords(f, tail)
    decreases f
  {
    match f
    case Empty =>
      assert Text(Render(f)) + tail == tail;
      assert WordsOf(f) + Words(tail) == Words(tail);
    case Leaf(name, ty, value, rest) =>
      TextWords(rest, tail);
      LeafWords(name, ty, value, rest, tail);
    case Node(name, fields, rest) =>
      TextWords(rest, tail);
      TextWords(fields, Closed(Text(Render(rest)) + tail));
      NodeWords(name, fields, rest, tail);
  }

  /** A closing brace and more text. */
  function Closed(more: seq<byte>): (s: seq<byte>)
    ensures Spaced(s)
  {
    [32, 125] + more
  }

  lemma LeafWords(name: CString, ty: PropertyType, value: seq<byte>, rest: Forest, tail: seq<byte>)
    requires Plain(name) && Plain(ValueText(ty, value)) && HasWords(rest, tail) && Spaced(tail)
    ensures HasWords(Leaf(name, ty, value, rest), tail)
  {
    var text, more := ValueText(ty, value), Text(Render(rest)) + tail;
    RenderText(Leaf(name, ty, value, rest));
    TextIsSpaced(rest, tail);
    PlainBytes(name);
    PlainBytes(text);
    OneWord(LeafWord(name, text), more);
    LeafPieces(name, text, Text(Render(rest)), tail);
    Associative([LeafWord(name, text)], WordsOf(rest), Words(tail));
  }

  lemma LeafPieces(name: CString, text: seq<byte>, a: seq<byte>, b: seq<byte>)
    ensures LeafHead(name) + text + a + b == [32] + LeafWord(name, text) + (a + b)
  {
  }

  lemma NodeWords(name: CString, fields: Forest, rest: Forest, tail: seq<byte>)
    requires Plain(name) && HasWords(rest, tail) && Spaced(tail)
    requires HasWords(fields, Closed(Text(Render(rest)) + tail))
    ensures HasWords(Node(name, fields, rest), tail)
  {
    RenderText(Node(name, fields, rest));
    TextIsSpaced(rest, tail);
    TextIsSpaced(fields, Closed(Text(Render(rest)) + tail));
    GroupWords(name, Text(Render(fields)), Text(Render(rest)), tail, WordsOf(fields), WordsOf(rest));
  }

  lemma GroupWords(name: CString, a: seq<byte>, b: seq<byte>, tail: seq<byte>, wa: seq<seq<byte>>, wb: seq<seq<byte>>)
    requires Plain(name) && Spaced(b + tail) && Spaced(a + Closed(b + tail))
    requires Words(b + tail) == wb + Words(tail) && Words(a + Closed(b + tail)) == wa + Words(Closed(b + tail))
    ensures Words(OpenText(name) + a + CLOSE_TEXT + b + tail)
         == [OpenWord(name)] + (wa + ([[125]] + wb)) + Words(tail)
  {
    PlainBytes(name);
    OneWord([125], b + tail);
    assert Closed(b + tail) == [32] + [125] + (b + tail);
    OneWord(OpenWord(name), a + Closed(b + tail));
    NodePieces(name, a, b, tail);
    WordPieces(OpenWord(name), wa, wb, Words(tail));
  }

  lemma NodePieces(name: CString, a: seq<byte>, b: seq<byte>, c: seq<byte>)
    ensures OpenText(name) + a + CLOSE_TEXT + b + c == [32] + OpenWord(name) + (a + Closed(b + c))
  {
    assert OpenText(name) == [32] + OpenWord(name);
    assert CLOSE_TEXT + (b + c) == Closed(b + c);
  }

  lemma WordPieces(w: seq<byte>, a: seq<seq<byte>>, b: seq<seq<byte>>, c: seq<seq<byte>>)
    ensures [w] + (a + ([[125]] + (b + c))) == [w] + (a + ([[125]] + b)) + c
  {
  }

  /** The words read as the outline, up to a closing brace. */
  predicate ReadsBack(f: Forest, tail: seq<seq<byte>>) {
    ReadItems(WordsOf(f) + tail) == Reading(OutlineOf(f), tail)
  }

  lemma {:induction false} ReadWords(f: Forest, tail: seq<seq<byte>>)
    requires PlainForest(f) && (tail == [] || tail[0] == [125])
    ensures ReadsBack(f, tail)
    decreases f
  {
    match f
    case Empty =>
      assert Ascii("}") == [125];
      assert WordsOf(f) + tail == tail;
    case Leaf(name, ty, value, rest) =>
      ReadWords(rest, tail);
      ReadsLeaf(name, ty, value, rest, tail);
    case Node(name, fields, rest) =>
      ReadWords(rest, tail);
      ReadWords(fields, [[125]] + (WordsOf(rest) + tail));
      ReadsGroup(name, fields, rest, tail);
  }

  lemma ReadsLeaf(name: CString, ty: PropertyType, value: seq<byte>, rest: Forest, tail: seq<seq<byte>>)
    requires Plain(name) && Plain(ValueText(ty, value)) && ReadsBack(rest, tail)
    ensures ReadsBack(Leaf(name, ty, value, rest), tail)
  {
    var w, more := LeafWord(name, ValueText(ty, value)), WordsOf(rest) + tail;
    LeafWordReads(name, ValueText(ty, value));
    ReadValue(w, more);
    Associative([w], WordsOf(rest), tail);
  }

  lemma ReadValue(w: seq<byte>, more: seq<seq<byte>>)
    requires w != [125] && w != [] && w[|w| - 1] != 123 && |Before(w, 61)| < |w| && ReadItems(more).Reading?
    ensures var next, name := ReadItems(more), Before(w, 61);
            ReadItems([w] + more) == Reading(Value(name, w[|name| + 1..], next.outline), next.left)
  {
    assert Ascii("}") == [125];
    assert ([w] + more)[1..] == more;
  }

  lemma ReadsGroup(name: CString, fields: Forest, rest: Forest, tail: seq<seq<byte>>)
    requires Plain(name) && ReadsBack(rest, tail) && ReadsBack(fields, [[125]] + (WordsOf(rest) + tail))
    ensures ReadsBack(Node(name, fields, rest), tail)
  {
    var more := WordsOf(rest) + tail;
    OpenWordReads(name);
    ReadGroup(OpenWord(name), WordsOf(fields) + ([[125]] + more), more);
    WordPieces(OpenWord(name), WordsOf(fields), WordsOf(rest), tail);
  }

  lemma ReadGroup(w: seq<byte>, inside: seq<seq<byte>>, more: seq<seq<byte>>)
    requires w != [125] && w != [] && w[|w| - 1] == 123
    requires ReadItems(inside).Reading? && ReadItems(inside).left == [[125]] + more && ReadItems(more).Reading?
    ensures var inner, next := ReadItems(inside), ReadItems(more);
            ReadItems([w] + inside) ==
              Reading(Group(Before(w[..|w| - 1], 61), inner.outline, next.outline), next.left)
  {
    assert Ascii("}") == [125];
    assert ([w] + inside)[1..] == inside;
    assert ([[125]] + more)[1..] == more;
  }

  lemma LeafWordReads(name: seq<byte>, text: seq<byte>)
    requires Plain(name) && Plain(text)
    ensures var w := LeafWord(name, text);
            && w != [125] && w[|w| - 1] != 123
            && Before(w, 61) == name && |name| < |w| && w[|name| + 1..] == text
  {
    var w := LeafWord(name, text);
    PlainBytes(name);
    PlainBytes(text);
    BeforeIs(name, 61, [61] + text);
    assert w == name + ([61] + text);
    assert text != [] ==> text[|text| - 1] in text;
    assert name != [] ==> name[0] in name;
  }

  lemma OpenWordReads(name: seq<byte>)
    requires Plain(name)
    ensures var w := OpenWord(name);
            w != [125] && w[|w| - 1] == 123 && Before(w[..|w| - 1], 61) == name
  {
    var w := OpenWord(name);
    PlainBytes(name);
    BeforeIs(name, 61, if name == [] then [] else [61]);
    assert w[..|w| - 1] == name + if name == [] then [] else [61];
  }

  /** The text of a forest, read back, shows its names, its values and its nesting. */
  lemma TextRoundTrip(f: Forest)
    requires PlainForest(f)
    ensures ReadText(Text(Render(f))) == Reading(OutlineOf(f), [])
  {
    TextWords(f, []);
    assert Text(Render(f)) + [] == Text(Render(f));
    assert WordsOf(f) + [] == WordsOf(f) + Words([]) == WordsOf(f);
    ReadWords(f, []);
  }
}
