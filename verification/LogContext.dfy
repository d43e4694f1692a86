/** Building a context in memory: LOG_CONTEXT_CREATE, LOG_CONTEXT_LOCAL_DEFINE and
    v2/src/log_context.c. */
module LogContexts {
  import opened CText
  import opened PropertyForest
  import opened ContextLayout

  /** LOG_CONTEXT_PROPERTY_VALUE_PAIR; the value pointer is an offset into the context's data. */
  datatype Pair = Pair(name: CString, ty: PropertyType, value: nat)

  predicate HoldsAt(data: seq<byte>, at: nat, value: seq<byte>) {
    at + |value| <= |data| && data[at..at + |value|] == value
  }

  lemma OverwriteHolds(data: seq<byte>, at: nat, bytes: seq<byte>, n: nat)
    requires at + |bytes| <= |data| && n <= |bytes|
    ensures HoldsAt(Overwrite(data, at, bytes), at, bytes[..n])
  {
  }

  lemma OverwriteKeeps(data: seq<byte>, at: nat, bytes: seq<byte>, other: nat, value: seq<byte>)
    requires at + |bytes| <= |data| && HoldsAt(data, other, value)
    requires other + |value| <= at || at + |bytes| <= other
    ensures HoldsAt(Overwrite(data, at, bytes), other, value)
  {
    var r := Overwrite(data, at, bytes);
    assert forall k :: other <= k < other + |value| ==> r[k] == data[k];
    assert r[other..other + |value|] == data[other..other + |value|];
  }

  /** Pair `i` is in place: its name and type, and its value where the layout puts it. */
  predicate InPlace(pairs: seq<Pair>, data: seq<byte>, l: seq<Place>, i: nat)
    requires i < |l|
  {
    && i < |pairs|
    && pairs[i] == Pair(l[i].entry.name, l[i].entry.ty, l[i].offset)
    && HoldsAt(data, l[i].offset, l[i].entry.value)
  }

  predicate AllInPlace(pairs: seq<Pair>, data: seq<byte>, l: seq<Place>, lo: nat, hi: nat)
    requires hi <= |l|
  {
    forall i :: lo <= i < hi ==> InPlace(pairs, data, l, i)
  }

  /** Writing one pair and bytes within its reservation leaves every other pair in place. */
  lemma StoreKeeps(pairs: seq<Pair>, data: seq<byte>, l: seq<Place>, j: nat, pair: Pair,
                   bytes: seq<byte>, to: nat, lo: nat, hi: nat)
    requires Tiles(l, 0, to) && Roomy(l) && to <= |data|
    requires j < |l| && j < |pairs| && hi <= |l| && |bytes| <= l[j].reserved
    requires l[j].offset + l[j].reserved <= to
    requires AllInPlace(pairs, data, l, lo, hi) && !(lo <= j < hi)
    ensures AllInPlace(pairs[j := pair], Overwrite(data, l[j].offset, bytes), l, lo, hi)
  {
    var pairs', data' := pairs[j := pair], Overwrite(data, l[j].offset, bytes);
    forall i | lo <= i < hi
      ensures InPlace(pairs', data', l, i)
    {
      assert InPlace(pairs, data, l, i);
      TilesApart(l, 0, to, i, j);
      TilesApart(l, 0, to, j, i);
      OverwriteKeeps(data, l[j].offset, bytes, l[i].offset, l[i].entry.value);
    }
  }

  class LogContext {
    var valuesData: array<byte>
    var valuesDataLength: nat
    var pairs: array<Pair>
    var pairCount: nat

    /** The arrays a context starts with; their contents are whatever memory held. */
    constructor (pairCapacity: nat, dataCapacity: nat, pairCount: nat, valuesDataLength: nat)
      ensures this.pairCount == pairCount && this.valuesDataLength == valuesDataLength
      ensures fresh(pairs) && fresh(valuesData)
      ensures pairs.Length == pairCapacity && valuesData.Length == dataCapacity
    {
      this.valuesData := new byte[dataCapacity];
      this.pairs := new Pair[pairCapacity];
      this.pairCount := pairCount;
      this.valuesDataLength := valuesDataLength;
    }

    /** The context is what the macros of chain `c` make. */
    ghost predicate Represents(c: Chain)
      reads this, valuesData, pairs
    {
      && pairCount == PairCount(c) <= pairs.Length
      && valuesDataLength == DataLength(c) <= valuesData.Length
      && AllInPlace(pairs[..], valuesData[..], Layout(c), 0, |Layout(c)|)
    }
  }

  /** Sets pair `j` and writes `bytes` to its value; `l` is the layout to be reached, `to` its end. */
  method StorePair(dest: LogContext, j: nat, pair: Pair, bytes: seq<byte>,
                   ghost l: seq<Place>, ghost to: nat, ghost lo: nat, ghost hi: nat)
    requires Tiles(l, 0, to) && Roomy(l) && |l| <= dest.pairs.Length && to <= dest.valuesData.Length
    requires j < |l| && pair == Pair(l[j].entry.name, l[j].entry.ty, l[j].offset)
    requires |bytes| <= l[j].reserved && l[j].entry.value <= bytes
    requires hi <= |l| && !(lo <= j < hi) && AllInPlace(dest.pairs[..], dest.valuesData[..], l, lo, hi)
    modifies dest.valuesData, dest.pairs
    ensures AllInPlace(dest.pairs[..], dest.valuesData[..], l, lo, hi)
    ensures InPlace(dest.pairs[..], dest.valuesData[..], l, j)
  {
    ghost var pairs, data := dest.pairs[..], dest.valuesData[..];
    TilesApart(l, 0, to, j, j);
    dest.pairs[j] := pair;
    WriteBytes(dest.valuesData, pair.value, bytes);
    assert dest.pairs[..] == pairs[j := pair];
    StoreKeeps(pairs, data, l, j, pair, bytes, to, lo, hi);
    OverwriteHolds(data, pair.value, bytes, |l[j].entry.value|);
  }

  /** One pass of the copying loop: strcpy, wcscpy, or as many bytes as the type has. */
  method CopyPair(dest: LogContext, parent: LogContext, i: nat, ghost l: seq<Place>, ghost to: nat)
    requires Tiles(l, 0, to) && Roomy(l) && i + 1 < |l| <= dest.pairs.Length && to <= dest.valuesData.Length
    requires dest.valuesData != parent.valuesData && dest.pairs != parent.pairs
    requires i < parent.pairs.Length
    requires var p := parent.pairs[i];
             && l[i + 1].entry.name == p.name && l[i + 1].entry.ty == p.ty && l[i + 1].offset == 1 + p.value
             && HoldsAt(parent.valuesData[..], p.value, l[i + 1].entry.value)
    requires AllInPlace(dest.pairs[..], dest.valuesData[..], l, 1, 1 + i)
    modifies dest.valuesData, dest.pairs
    ensures AllInPlace(dest.pairs[..], dest.valuesData[..], l, 1, 2 + i)
  {
    var p := parent.pairs[i];
    ghost var value := l[i + 1].entry.value;
    var source := parent.valuesData[p.value..];
    assert source == value + source[|value|..];
    SpanOfValue(p.ty, value, source[|value|..]);
    StorePair(dest, i + 1, Pair(p.name, p.ty, 1 + p.value), source[..Span(p.ty, source)], l, to, 1, 1 + i);
  }

  /** internal_log_context_init_from_parent: pairs move up one index, values one byte. `c` is the
      chain of the context being filled. */
  method InitFromParent(dest: LogContext, parent: LogContext?, ghost c: Chain)
    requires Stored(c) && AcceptableChain(c)
    requires parent == null ==> PairCount(c.parent) == 0
    requires parent != null ==> parent.Represents(c.parent)
    requires parent != null ==> dest.valuesData != parent.valuesData && dest.pairs != parent.pairs
    requires |Layout(c)| <= dest.pairs.Length && DataLength(c) <= dest.valuesData.Length
    modifies dest.valuesData, dest.pairs
    ensures AllInPlace(dest.pairs[..], dest.valuesData[..], Layout(c), 1, 1 + PairCount(c.parent))
  {
    if parent != null {
      ghost var l := Layout(c);
      LayoutTiles(c);
      LayoutRoomy(c);
      var i := 0;
      while i < parent.pairCount
        invariant 0 <= i <= parent.pairCount == PairCount(c.parent)
        invariant parent.Represents(c.parent)
        invariant AllInPlace(dest.pairs[..], dest.valuesData[..], l, 1, 1 + i)
      {
        Inherited(c, c.parent, 1, i);
        assert InPlace(parent.pairs[..], parent.valuesData[..], Layout(c.parent), i);
        CopyPair(dest, parent, i, l, DataLength(c));
        i := i + 1;
      }
    }
  }

  /** The part the two macros share: parent's pairs, struct entry, own properties. */
  method FillContext(dest: LogContext, parent: LogContext?, name: CString, props: seq<Property>, ghost c: Chain)
    returns (end: nat)
    requires Stored(c) && AcceptableChain(c) && c.name == name && c.props == props
    requires parent == null <==> IsNull(c.parent)
    requires parent != null ==> parent.Represents(c.parent)
    requires parent != null ==> dest.valuesData != parent.valuesData && dest.pairs != parent.pairs
    requires PairCount(c) <= dest.pairs.Length && DataLength(c) <= dest.valuesData.Length
    modifies dest.valuesData, dest.pairs
    ensures AllInPlace(dest.pairs[..], dest.valuesData[..], Layout(c), 0, |Layout(c)|)
    ensures end == DataLength(c)
  {
    ghost var l := Layout(c);
    LayoutTiles(c);
    LayoutRoomy(c);
    InitFromParent(dest, parent, c);
    var count := ((if parent != null then 1 else 0) + |props|) % 256;
    StorePair(dest, 0, Pair(name, Struct, 0), [count], l, DataLength(c), 1, 1 + PairCount(c.parent));
    var parentPairs := if parent == null then 0 else parent.pairCount;
    var dataPos := 1 + if parent == null then 0 else parent.valuesDataLength;
    assert l[1 + parentPairs..] == OwnPlaces(props, dataPos);
    end := SetupProperties(dest, 1 + parentPairs, dataPos, props, l, DataLength(c));
  }

  /** The filling pass over the own properties; the data cursor ends where the counting pass said. */
  method SetupProperties(dest: LogContext, pairPos: nat, dataPos: nat, props: seq<Property>,
                         ghost l: seq<Place>, ghost to: nat)
    returns (end: nat)
    requires Tiles(l, 0, to) && Roomy(l) && |l| <= dest.pairs.Length && to <= dest.valuesData.Length
    requires AllAcceptable(props) && pairPos <= |l| && l[pairPos..] == OwnPlaces(props, dataPos)
    requires AllInPlace(dest.pairs[..], dest.valuesData[..], l, 0, pairPos)
    modifies dest.valuesData, dest.pairs
    ensures AllInPlace(dest.pairs[..], dest.valuesData[..], l, 0, |l|)
    ensures end == dataPos + CountDataBytes(props)
  {
    var k, at := 0, dataPos;
    while k < |props|
      invariant 0 <= k <= |props| && at == dataPos + CountDataBytes(props[..k])
      invariant AllInPlace(dest.pairs[..], dest.valuesData[..], l, 0, pairPos + k)
    {
      var p := props[k];
      OwnPlaceAt(props, dataPos, k);
      assert l[pairPos + k] == l[pairPos..][k];
      assert p in props;
      StorePair(dest, pairPos + k, Pair(p.name, p.ty, at), p.slot, l, to, 0, pairPos + k);
      CountOneMore(props, k);
      at := at + |p.slot|;
      k := k + 1;
    }
    assert props[..k] == props;
    end := at;
  }

  lemma {:induction false} CountOneMore(ps: seq<Property>, k: nat)
    requires k < |ps|
    ensures CountDataBytes(ps[..k + 1]) == CountDataBytes(ps[..k]) + ps[k].counted
    decreases ps
  {
    if k == 0 {
      assert ps[..1][1..] == [];
    } else {
      CountOneMore(ps[1..], k - 1);
      assert ps[..k + 1][1..] == ps[1..][..k] && ps[..k][1..] == ps[1..][..k - 1];
    }
  }

  /** The place of own property `k`. */
  lemma {:induction false} OwnPlaceAt(ps: seq<Property>, offset: nat, k: nat)
    requires k < |ps|
    ensures OwnPlaces(ps, offset)[k]
         == Place(ps[k].ToEntry(), offset + CountDataBytes(ps[..k]), ps[k].counted)
    decreases ps
  {
    if 0 < k {
      OwnPlaceAt(ps[1..], offset + ps[0].counted, k - 1);
      assert ps[..k][1..] == ps[1..][..k - 1];
    }
  }

  /** What a context with pairs `pairs` and values `data` holds, made from a parent with `parentPairs` and
      `parentData`: the struct entry with its count, the parent's pairs one index and one byte further
      with the same values, and the own properties. */
  ghost predicate MadeFrom(pairs: seq<Pair>, data: seq<byte>, parentPairs: seq<Pair>, parentData: seq<byte>,
                           hasParent: bool, name: CString, props: seq<Property>)
  {
    && |pairs| == 1 + |parentPairs| + |props|
    && pairs[0] == Pair(name, Struct, 0) && HoldsAt(data, 0, [((if hasParent then 1 else 0) + |props|) % 256])
    && (forall i :: 0 <= i < |parentPairs| ==> Copied(pairs[1 + i], data, parentPairs[i], parentData))
    && (forall k :: 0 <= k < |props| ==> HasProperty(pairs[1 + |parentPairs| + k], data, props[k]))
  }

  ghost predicate Copied(pair: Pair, data: seq<byte>, from: Pair, fromData: seq<byte>) {
    && pair == Pair(from.name, from.ty, from.value + 1) && from.value <= |fromData|
    && HoldsAt(data, pair.value, fromData[from.value..][..Span(from.ty, fromData[from.value..])])
  }

  ghost predicate HasProperty(pair: Pair, data: seq<byte>, p: Property) {
    pair.name == p.name && pair.ty == p.ty && HoldsAt(data, pair.value, p.Value())
  }

  lemma LayoutIsMade(pairs: seq<Pair>, data: seq<byte>, parentPairs: seq<Pair>, parentData: seq<byte>, c: Chain)
    requires Stored(c) && AcceptableChain(c)
    requires |pairs| == PairCount(c) && |parentPairs| == PairCount(c.parent)
    requires AllInPlace(pairs, data, Layout(c), 0, |Layout(c)|)
    requires AllInPlace(parentPairs, parentData, Layout(c.parent), 0, |Layout(c.parent)|)
    ensures MadeFrom(pairs, data, parentPairs, parentData, !IsNull(c.parent), c.name, c.props)
  {
    var l := Layout(c);
    assert InPlace(pairs, data, l, 0);
    forall i | 0 <= i < |parentPairs|
      ensures Copied(pairs[1 + i], data, parentPairs[i], parentData)
    {
      PairIsCopied(pairs, data, parentPairs, parentData, c, i);
    }
    forall k | 0 <= k < |c.props|
      ensures HasProperty(pairs[1 + |parentPairs| + k], data, c.props[k])
    {
      PropertyIsThere(pairs, data, c, k);
    }
  }

  lemma PairIsCopied(pairs: seq<Pair>, data: seq<byte>, parentPairs: seq<Pair>, parentData: seq<byte>, c: Chain, i: nat)
    requires Stored(c) && AcceptableChain(c) && i < |parentPairs| == PairCount(c.parent) && |pairs| == PairCount(c)
    requires AllInPlace(pairs, data, Layout(c), 0, |Layout(c)|)
    requires AllInPlace(parentPairs, parentData, Layout(c.parent), 0, |Layout(c.parent)|)
    ensures Copied(pairs[1 + i], data, parentPairs[i], parentData)
  {
    LayoutRoomy(c.parent);
    Inherited(c, c.parent, 1, i);
    assert InPlace(pairs, data, Layout(c), 1 + i);
    assert InPlace(parentPairs, parentData, Layout(c.parent), i);
    var p, value := parentPairs[i], Layout(c.parent)[i].entry.value;
    var source := parentData[p.value..];
    assert source == value + source[|value|..];
    SpanOfValue(p.ty, value, source[|value|..]);
  }

  lemma PropertyIsThere(pairs: seq<Pair>, data: seq<byte>, c: Chain, k: nat)
    requires Stored(c) && k < |c.props| && |pairs| == PairCount(c)
    requires AllInPlace(pairs, data, Layout(c), 0, |Layout(c)|)
    ensures HasProperty(pairs[1 + PairCount(c.parent) + k], data, c.props[k])
  {
    var j := 1 + PairCount(c.parent) + k;
    assert InPlace(pairs, data, Layout(c), j);
    OwnPlaceAt(c.props, 1 + DataLength(c.parent), k);
    assert Layout(c)[j] == OwnPlaces(c.props, 1 + DataLength(c.parent))[k];
  }

  /** LOG_CONTEXT_CREATE. */
  method Create(parent: LogContext?, name: CString, props: seq<Property>, succeeds: bool, ghost p: Chain)
    returns (ctx: LogContext?)
    requires parent == null <==> IsNull(p)
    requires parent != null ==> parent.Represents(p)
    requires AllAcceptable(props) && AcceptableChain(p)
    ensures var c := Context(p, name, props, Heap(succeeds));
            && (ctx == null <==> IsNull(c))
            && (ctx != null ==> ctx.Represents(c) && fresh(ctx) && fresh(ctx.pairs) && fresh(ctx.valuesData))
    ensures ctx == null <==> !succeeds
    ensures ctx != null ==> ctx.pairCount == NewPairCount(parent, props) && ctx.valuesDataLength == NewDataLength(parent, props)
    ensures ctx != null ==> IsMadeFrom(ctx, parent, name, props)
  {
    if !succeeds {
      return null;
    }
    ghost var c := Context(p, name, props, Heap(true));
    if parent == null {
      NullIsEmpty(p);
    }
    assert Stored(c);
    var pairCount := (if parent == null then 0 else parent.pairCount) + 1 + |props|;
    var dataSize := (if parent == null then 0 else parent.valuesDataLength) + 1 + CountDataBytes(props);
    assert pairCount == PairCount(c) && dataSize == DataLength(c);
    ctx := new LogContext(pairCount, dataSize, pairCount, dataSize);
    var end := FillContext(ctx, parent, name, props, c);
    CountedIsWritten(props);
    ContextIsMade(ctx, parent, c);
  }

  function NewPairCount(parent: LogContext?, props: seq<Property>): nat
    reads parent
  {
    (if parent == null then 0 else parent.pairCount) + 1 + |props|
  }

  function NewDataLength(parent: LogContext?, props: seq<Property>): nat
    reads parent
  {
    (if parent == null then 0 else parent.valuesDataLength) + 1 + SlotBytes(props)
  }

  ghost predicate IsMadeFrom(ctx: LogContext, parent: LogContext?, name: CString, props: seq<Property>)
    reads ctx, ctx.pairs, ctx.valuesData, parent, if parent == null then {} else {parent.pairs, parent.valuesData}
  {
    && ctx.pairCount <= ctx.pairs.Length
    && (parent != null ==> parent.pairCount <= parent.pairs.Length)
    && var parentPairs := if parent == null then [] else parent.pairs[..parent.pairCount];
    && var parentData := if parent == null then [] else parent.valuesData[..];
    && MadeFrom(ctx.pairs[..ctx.pairCount], ctx.valuesData[..], parentPairs, parentData, parent != null, name, props)
  }

  lemma ContextIsMade(ctx: LogContext, parent: LogContext?, c: Chain)
    requires Stored(c) && AcceptableChain(c) && ctx.Represents(c)
    requires parent == null <==> IsNull(c.parent)
    requires parent != null ==> parent.Represents(c.parent)
    ensures IsMadeFrom(ctx, parent, c.name, c.props)
  {
    var parentPairs := if parent == null then [] else parent.pairs[..parent.pairCount];
    var parentData := if parent == null then [] else parent.valuesData[..];
    if parent == null {
      NullIsEmpty(c.parent);
    } else {
      CutInPlace(parent.pairs[..], parentData, Layout(c.parent), parent.pairCount);
    }
    CutInPlace(ctx.pairs[..], ctx.valuesData[..], Layout(c), ctx.pairCount);
    LayoutIsMade(ctx.pairs[..ctx.pairCount], ctx.valuesData[..], parentPairs, parentData, c);
  }

  lemma CutInPlace(pairs: seq<Pair>, data: seq<byte>, l: seq<Place>, n: nat)
    requires n == |l| <= |pairs| && AllInPlace(pairs, data, l, 0, n)
    ensures AllInPlace(pairs[..n], data, l, 0, n)
  {
    forall i | 0 <= i < n
      ensures InPlace(pairs[..n], data, l, i)
    {
      assert InPlace(pairs, data, l, i);
    }
  }

  /** LOG_CONTEXT_LOCAL_DEFINE. */
  method LocalDefine(parent: LogContext?, name: CString, props: seq<Property>, ghost p: Chain)
    returns (ctx: LogContext)
    requires parent == null <==> IsNull(p)
    requires parent != null ==> parent.Represents(p)
    requires AllAcceptable(props) && AcceptableChain(p)
    ensures ctx.Represents(Context(p, name, props, Stack))
    ensures var n, d := NewPairCount(parent, props), NewDataLength(parent, props);
            if n <= 64 && d <= 4096 then
              ctx.pairCount == n && ctx.valuesDataLength == d && IsMadeFrom(ctx, parent, name, props)
            else ctx.pairCount == 0 && ctx.valuesDataLength == 0
    ensures fresh(ctx) && fresh(ctx.pairs) && fresh(ctx.valuesData)
  {
    ghost var c := Context(p, name, props, Stack);
    CountedIsWritten(props);
    if parent == null {
      NullIsEmpty(p);
    }
    var pairCount := (if parent == null then 0 else parent.pairCount) + 1 + |props|;
    var dataSize := (if parent == null then 0 else parent.valuesDataLength) + 1 + CountDataBytes(props);
    assert pairCount == NeededPairs(c) && dataSize == NeededData(c);
    ctx := new LogContext(MAX_STACK_PAIR_COUNT, MAX_STACK_DATA_SIZE, pairCount, dataSize);
    if ctx.pairCount > MAX_STACK_PAIR_COUNT {
      ctx.pairCount, ctx.valuesDataLength := 0, 0;
    } else if ctx.valuesDataLength > MAX_STACK_DATA_SIZE {
      ctx.pairCount, ctx.valuesDataLength := 0, 0;
    } else {
      var end := FillContext(ctx, parent, name, props, c);
      ContextIsMade(ctx, parent, c);
    }
  }

  /** Any chain of creations, run. */
  method Build(c: Chain) returns (ctx: LogContext?)
    requires AcceptableChain(c)
    ensures ctx == null <==> IsNull(c)
    ensures ctx != null ==> ctx.Represents(c) && fresh(ctx) && fresh(ctx.pairs) && fresh(ctx.valuesData)
  {
    match c
    case NoContext =>
      ctx := null;
    case Context(parent, name, props, place) =>
      var p := Build(parent);
      match place
      case Heap(succeeds) =>
        ctx := Create(p, name, props, succeeds, parent);
      case Stack =>
        ctx := LocalDefine(p, name, props, parent);
  }

  /** log_context_get_property_value_pairs and _count, with every value read the way its type reads
      it: what the sinks work on. */
  method ReadPairs(ctx: LogContext?, ghost c: Chain) returns (es: seq<Entry>)
    requires AcceptableChain(c)
    requires ctx == null <==> IsNull(c)
    requires ctx != null ==> ctx.Represents(c)
    ensures es == View(c)
  {
    es := [];
    if ctx != null {
      LayoutRoomy(c);
      var i := 0;
      while i < ctx.pairCount
        invariant 0 <= i <= ctx.pairCount && es == View(c)[..i]
      {
        var p := ctx.pairs[i];
        ghost var value := Layout(c)[i].entry.value;
        assert InPlace(ctx.pairs[..], ctx.valuesData[..], Layout(c), i);
        assert ctx.valuesData[p.value..] == value + ctx.valuesData[p.value + |value|..];
        SpanOfValue(p.ty, value, ctx.valuesData[p.value + |value|..]);
        es := es + [Entry(p.name, p.ty, ctx.valuesData[p.value..p.value + Span(p.ty, ctx.valuesData[p.value..])])];
        i := i + 1;
      }
    }
  }
}
