/** The recursive, truncating text printer (v2/src/log_context_property_to_string.c). */
module PropertyPrinter {
  import opened CText
  import opened PropertyForest

  /** The places where a formatting call is made, by index in the pair array. */
  datatype Site = OpenSite(i: nat) | CloseSite(i: nat) | NameSite(i: nat) | ValueSite(i: nat)

  /** Says how each formatting call turns out. */
  type Oracle = Site -> Call

  /** The printer's variables: memory, cursor, bytes left, and the value to be returned so far. */
  datatype Cursor = Cursor(mem: seq<byte>, at: nat, room: nat, result: int) {

    /** UPDATE_BUFFER_AND_SIZE, after `n` characters went to `mem`. */
    function Advance(mem: seq<byte>, n: nat): (c: Cursor)
      ensures c.at + c.room == at + room && at <= c.at
    {
      var k := Min(n, room);
      Cursor(mem, at + k, room - k, result + k)
    }
  }

  /** The effect of printing one property: the loop is left, or it goes on. */
  datatype Step = Broke(mem: seq<byte>) | Went(next: Cursor)

  datatype Outcome = Outcome(mem: seq<byte>, result: int)

  function LeafStep(f: Forest, i: nat, c: Cursor, calls: Oracle): (s: Step)
    requires f.Leaf?
  {
    var mem := Print(c.mem, c.at, c.room, Cells(LeafHead(f.name)), calls(NameSite(i)));
    if calls(NameSite(i)).Fails? then Went(c.(mem := mem, result := -1))
    else
      var c := c.Advance(mem, |LeafHead(f.name)|);
      var mem := Print(c.mem, c.at, c.room, ValueCells(f.ty, f.value), calls(ValueSite(i)));
      if calls(ValueSite(i)).Fails? then Broke(mem)
      else Went(c.Advance(mem, |ValueText(f.ty, f.value)|))
  }

  function CloseStep(i: nat, c: Cursor, calls: Oracle): (s: Step) {
    var mem := Print(c.mem, c.at, c.room, Cells(CLOSE_TEXT), calls(CloseSite(i)));
    if calls(CloseSite(i)).Fails? then Broke(mem) else Went(c.Advance(mem, |CLOSE_TEXT|))
  }

  function NodeStep(f: Forest, i: nat, c: Cursor, calls: Oracle): (s: Step)
    requires f.Node?
    decreases f, 1
  {
    var mem := Print(c.mem, c.at, c.room, Cells(OpenText(f.name)), calls(OpenSite(i)));
    if calls(OpenSite(i)).Fails? then Broke(mem)
    else
      FieldsStep(f, i, c.Advance(mem, |OpenText(f.name)|), calls)
  }

  /** The fields of a struct, and its closing brace. */
  function FieldsStep(f: Forest, i: nat, c: Cursor, calls: Oracle): (s: Step)
    requires f.Node?
    decreases f, 0
  {
    var inner := Run(f.fields, i + 1, c.(result := 0), calls);
    if inner.result < 0 then Broke(inner.mem)
    else CloseStep(i, c.Advance(inner.mem, inner.result), calls)
  }

  function PropertyStep(f: Forest, i: nat, c: Cursor, calls: Oracle): (s: Step)
    requires !f.Empty?
    decreases f, 2
  {
    if f.Leaf? then LeafStep(f, i, c, calls) else NodeStep(f, i, c, calls)
  }

  /** What the printer makes of the siblings `f`, whose pairs start at index `i`. */
  function Run(f: Forest, i: nat, c: Cursor, calls: Oracle): (r: Outcome)
    decreases f, 3
  {
    if f.Empty? then Outcome(c.mem, c.result)
    else
      match PropertyStep(f, i, c, calls)
      case Broke(mem) => Outcome(mem, -1)
      case Went(next) => Run(f.rest, i + Head(f), next, calls)
  }

  /** The printer's outcome for `f` is `r`. */
  ghost predicate RunsTo(f: Forest, i: nat, c: Cursor, calls: Oracle, r: Outcome) {
    Run(f, i, c, calls) == r
  }

  /** The number of pairs the first property of `f` takes. */
  function Head(f: Forest): nat {
    match f
    case Empty => 0
    case Leaf(_, _, _, _) => 1
    case Node(_, fields, _) => 1 + Size(fields)
  }

  // The code

  /** A type's to_string. */
  method ToString(buf: array<byte>, at: nat, room: nat, ty: PropertyType, value: seq<byte>, call: Call)
    returns (r: int)
    requires at + room <= buf.Length
    modifies buf
    ensures r < 0 <==> call.Fails?
    ensures call.Good? ==> Min(r, room) == Min(|ValueText(ty, value)|, room)
    ensures buf[..] == Print(old(buf[..]), at, room, ValueCells(ty, value), call)
  {
    if ty.WcharPtr? {
      r := Wcstombs(buf, at, room, ValueText(ty, value), call);
    } else {
      r := Snprintf(buf, at, room, ValueText(ty, value), call);
    }
  }

  /** One pass of the loop at a leaf pair. */
  method PrintLeaf(buf: array<byte>, at: nat, room: nat, result: int, pairs: seq<Entry>, i: nat,
                   calls: Oracle, ghost f: Forest)
    returns (step: Step)
    requires at + room <= buf.Length
    requires f.Leaf? && i < |pairs| && pairs[i] == Entry(f.name, f.ty, f.value)
    modifies buf
    ensures step == LeafStep(f, i, Cursor(old(buf[..]), at, room, result), calls)
    ensures buf[..] == if step.Broke? then step.mem else step.next.mem
  {
    var n := Snprintf(buf, at, room, LeafHead(pairs[i].name), calls(NameSite(i)));
    if n < 0 {
      return Went(Cursor(buf[..], at, room, -1));
    }
    n := Min(n, room);
    var m := ToString(buf, at + n, room - n, pairs[i].ty, pairs[i].value, calls(ValueSite(i)));
    if m < 0 {
      return Broke(buf[..]);
    }
    m := Min(m, room - n);
    step := Went(Cursor(buf[..], at + n + m, room - n - m, result + n + m));
  }

  /** One pass of the loop at a struct pair; `added` counts the pairs of its fields. */
  method PrintStruct(buf: array<byte>, at: nat, room: nat, result: int, pairs: seq<Entry>, i: nat,
                     depth: nat, calls: Oracle, ghost f: Forest)
    returns (step: Step, added: nat)
    requires at + room <= buf.Length
    requires f.Node? && i < |pairs| && pairs[i].name == f.name
    requires |pairs[i].value| == 1 && pairs[i].value[0] == Siblings(f.fields)
    requires LaidOut(pairs, i + 1, f.fields)
    modifies buf
    ensures step == NodeStep(f, i, Cursor(old(buf[..]), at, room, result), calls)
    ensures buf[..] == if step.Broke? then step.mem else step.next.mem
    ensures step.Went? ==> added == Size(f.fields)
    decreases Size(f.fields), 4
  {
    added := 0;
    var n := Snprintf(buf, at, room, OpenText(pairs[i].name), calls(OpenSite(i)));
    if n < 0 {
      return Broke(buf[..]), added;
    }
    n := Min(n, room);
    step, added := PrintFields(buf, at + n, room - n, result + n, pairs, i, depth, calls, f);
  }

  /** The nested call and the closing brace. */
  method PrintFields(buf: array<byte>, at: nat, room: nat, result: int, pairs: seq<Entry>, i: nat,
                     depth: nat, calls: Oracle, ghost f: Forest)
    returns (step: Step, added: nat)
    requires at + room <= buf.Length
    requires f.Node? && i < |pairs| && |pairs[i].value| == 1 && pairs[i].value[0] == Siblings(f.fields)
    requires LaidOut(pairs, i + 1, f.fields)
    modifies buf
    ensures step == FieldsStep(f, i, Cursor(old(buf[..]), at, room, result), calls)
    ensures buf[..] == if step.Broke? then step.mem else step.next.mem
    ensures step.Went? ==> added == Size(f.fields)
    decreases Size(f.fields), 3
  {
    var count := pairs[i].value[0];
    var inner;
    inner, added := LogNProperties(buf, at, room, pairs, i + 1, count, depth + 1, calls, f.fields);
    if inner < 0 {
      return Broke(buf[..]), added;
    }
    var n := Min(inner, room);
    step := PrintClose(buf, at + n, room - n, result + n, i, calls);
  }

  method PrintClose(buf: array<byte>, at: nat, room: nat, result: int, i: nat, calls: Oracle)
    returns (step: Step)
    requires at + room <= buf.Length
    modifies buf
    ensures step == CloseStep(i, Cursor(old(buf[..]), at, room, result), calls)
    ensures buf[..] == if step.Broke? then step.mem else step.next.mem
  {
    var n := Snprintf(buf, at, room, CLOSE_TEXT, calls(CloseSite(i)));
    if n < 0 {
      return Broke(buf[..]);
    }
    n := Min(n, room);
    step := Went(Cursor(buf[..], at + n, room - n, result + n));
  }

  /** One pass of the loop; `increment` counts the pairs to skip. */
  method PrintProperty(buf: array<byte>, at: nat, room: nat, result: int, pairs: seq<Entry>, i: nat,
                       depth: nat, calls: Oracle, ghost f: Forest, ghost outcome: Outcome)
    returns (step: Step, increment: nat)
    requires at + room <= buf.Length
    requires !f.Empty? && LaidOut(pairs, i, f)
    requires RunsTo(f, i, Cursor(buf[..], at, room, result), calls, outcome)
    modifies buf
    ensures step.Broke? ==> outcome == Outcome(buf[..], -1)
    ensures step.Went? ==>
              && step.next.mem == buf[..] && step.next.at + step.next.room == at + room
              && increment + 1 == Head(f)
              && RunsTo(f.rest, i + Head(f), step.next, calls, outcome)
    decreases Size(f), 1
  {
    RunGoesOn(f, i, Cursor(buf[..], at, room, result), calls);
    if pairs[i].ty.Struct? {
      step, increment := PrintStruct(buf, at, room, result, pairs, i, depth, calls, f);
    } else {
      step := PrintLeaf(buf, at, room, result, pairs, i, calls, f);
      increment := 0;
    }
  }

  /** Prints the properties at `pairs[start..]`: all `count` pairs at depth 0, `count` logical
      fields below. `f` is the forest those pairs hold. */
  method LogNProperties(buf: array<byte>, at: nat, room: nat, pairs: seq<Entry>, start: nat,
                        count: nat, depth: nat, calls: Oracle, ghost f: Forest)
    returns (result: int, added: nat)
    requires at + room <= buf.Length
    requires LaidOut(pairs, start, f)
    requires count == if depth == 0 then Size(f) else Siblings(f)
    modifies buf
    ensures RunsTo(f, start, Cursor(old(buf[..]), at, room, 0), calls, Outcome(buf[..], result))
    ensures 0 <= result ==> added == Size(f)
    decreases Size(f), 2
  {
    result := 0;
    var buffer, size := at, room;
    var addedThisLevel: nat, i: nat := 0, 0;
    ghost var g, c := f, Cursor(buf[..], at, room, 0);
    ghost var outcome := Run(f, start, c, calls);
    while (depth == 0 && i < count) || (depth > 0 && addedThisLevel < count)
      invariant Left(pairs, start, f, g, i, depth, count, addedThisLevel)
      invariant c == Cursor(buf[..], buffer, size, result) && c.at + c.room == at + room
      invariant RunsTo(g, start + i, c, calls, outcome)
      decreases Size(g)
    {
      OneFewerLeft(pairs, start, f, g, i, depth, count, addedThisLevel);
      addedThisLevel := addedThisLevel + 1;
      var step, increment := PrintProperty(buf, buffer, size, result, pairs, start + i, depth, calls, g,
                                           outcome);
      if step.Broke? {
        return -1, i;
      }
      i := i + increment;
      buffer, size, result := step.next.at, step.next.room, step.next.result;
      g, c := g.rest, step.next;
      i := i + 1;
    }
    SiblingsAndSize(g);
    added := i;
  }

  /** A run is its first step and the run of the remaining siblings; the end of the window stays. */
  lemma RunGoesOn(f: Forest, i: nat, c: Cursor, calls: Oracle)
    requires !f.Empty?
    ensures match PropertyStep(f, i, c, calls)
            case Broke(mem) => Run(f, i, c, calls) == Outcome(mem, -1)
            case Went(next) =>
              && Run(f, i, c, calls) == Run(f.rest, i + Head(f), next, calls)
              && next.at + next.room == c.at + c.room
  {
    StepFrame(f, i, c, calls);
  }

  /** The cursor behind the opening brace of a struct. */
  function Opened(c: Cursor, name: CString): Cursor {
    c.Advance(Put(c.mem, c.at, c.room, Cells(OpenText(name))), |OpenText(name)|)
  }

  /** A struct whose opening brace is printed goes on with its fields. */
  lemma NodeGoesOn(f: Forest, i: nat, c: Cursor, calls: Oracle)
    requires f.Node? && calls(OpenSite(i)).Good?
    ensures PropertyStep(f, i, c, calls) == FieldsStep(f, i, Opened(c, f.name), calls)
  {
    assert NodeStep(f, i, c, calls) == FieldsStep(f, i, Opened(c, f.name), calls);
  }

  /** The loop's bookkeeping: of the forest `f` at `start`, `g` is left when `i` pairs and `fields`
      logical fields are done. */
  ghost predicate Left(pairs: seq<Entry>, start: nat, f: Forest, g: Forest, i: nat,
                       depth: nat, count: nat, fields: nat)
  {
    && i + Size(g) == Size(f) && LaidOut(pairs, start + i, g)
    && count == (if depth == 0 then i + Size(g) else fields + Siblings(g))
  }

  /** While the guard for the depth holds there is a property left. */
  lemma OneFewerLeft(pairs: seq<Entry>, start: nat, f: Forest, g: Forest, i: nat,
                     depth: nat, count: nat, fields: nat)
    requires Left(pairs, start, f, g, i, depth, count, fields)
    requires (depth == 0 && i < count) || (depth > 0 && fields < count)
    ensures !g.Empty?
    ensures Left(pairs, start, f, g.rest, i + Head(g), depth, count, fields + 1)
    ensures Size(g) == Head(g) + Size(g.rest) && 0 < Head(g) && Size(g) <= Size(f)
  {
    SiblingsAndSize(g);
    LaidOutRest(pairs, start + i, g);
  }

  lemma SiblingsAndSize(f: Forest)
    ensures f.Empty? <==> Siblings(f) == 0
    ensures f.Empty? <==> Size(f) == 0
  {
  }

  lemma LaidOutRest(es: seq<Entry>, i: nat, f: Forest)
    requires !f.Empty? && LaidOut(es, i, f)
    ensures LaidOut(es, i + Head(f), f.rest)
    ensures Size(f) == Head(f) + Size(f.rest) && Siblings(f) == 1 + Siblings(f.rest)
  {
  }

  /** log_context_property_to_string: `buffer` may be NULL. */
  method LogContextPropertyToString(buffer: array?<byte>, at: nat, size: nat, pairs: seq<Entry>,
                                    calls: Oracle, ghost f: Forest)
    returns (result: int)
    requires buffer != null ==> at + size <= buffer.Length
    requires LaidOut(pairs, 0, f) && Size(f) == |pairs|
    modifies buffer
    ensures buffer != null ==> SameOutside(old(buffer[..]), buffer[..], at, size)
    ensures buffer == null || size == 0 || pairs == [] ==> result == -1
    ensures buffer != null && 0 < size && pairs != [] ==>
              Outcome(buffer[..], result) == Run(f, 0, Cursor(old(buffer[..]), at, size, 0), calls)
  {
    if buffer == null || size == 0 || |pairs| == 0 {
      result := -1;
    } else {
      var added;
      result, added := LogNProperties(buffer, at, size, pairs, 0, |pairs|, 0, calls, f);
      RunFrame(f, 0, Cursor(old(buffer[..]), at, size, 0), calls);
    }
  }

  // What the code achieves

  /** The text of the first property of `f`. */
  function HeadCells(f: Forest): (cs: seq<Cell>) {
    match f
    case Empty => []
    case Leaf(name, ty, value, _) => Cells(LeafHead(name)) + ValueCells(ty, value)
    case Node(name, fields, _) => Cells(OpenText(name)) + Render(fields) + Cells(CLOSE_TEXT)
  }

  lemma RenderHead(f: Forest)
    requires !f.Empty?
    ensures HeadCells(f) != [] && Render(f) == HeadCells(f) + Render(f.rest)
  {
  }

  /** No call made for `f` fails. */
  predicate Clean(f: Forest, i: nat, calls: Oracle)
    decreases f
  {
    match f
    case Empty => true
    case Leaf(_, _, _, rest) =>
      calls(NameSite(i)).Good? && calls(ValueSite(i)).Good? && Clean(rest, i + 1, calls)
    case Node(_, fields, rest) =>
      && calls(OpenSite(i)).Good? && calls(CloseSite(i)).Good?
      && Clean(fields, i + 1, calls) && Clean(rest, i + 1 + Size(fields), calls)
  }

  /** The cursor after printing the cells `cs`, if there are any. */
  function Printed(c: Cursor, cs: seq<Cell>): Cursor {
    if cs == [] then c else c.Advance(Put(c.mem, c.at, c.room, cs), |cs|)
  }

  lemma PrintedTwice(c: Cursor, a: seq<Cell>, b: seq<Cell>)
    requires a != []
    ensures Printed(Printed(c, a), b) == Printed(c, a + b)
  {
    if b == [] {
      assert a + b == a;
    } else {
      PutPut(c.mem, c.at, c.room, a, b);
    }
  }

  /** The printer's outcome is that of printing the whole text at once. */
  predicate PrintsAll(f: Forest, i: nat, c: Cursor, calls: Oracle) {
    var end := Printed(c, Render(f));
    Run(f, i, c, calls) == Outcome(end.mem, end.result)
  }

  /** Without failures, the many clipped writes of the recursion are one clipped write of the whole
      text, and the value returned is the clipped length of that text. */
  lemma {:induction false} CleanRun(f: Forest, i: nat, c: Cursor, calls: Oracle)
    requires Clean(f, i, calls)
    ensures PrintsAll(f, i, c, calls)
    decreases f, 2
  {
    if !f.Empty? {
      CleanStep(f, i, c, calls);
      RunGoesOn(f, i, c, calls);
      var next := Printed(c, HeadCells(f));
      CleanRun(f.rest, i + Head(f), next, calls);
      RenderHead(f);
      PrintedTwice(c, HeadCells(f), Render(f.rest));
    }
  }

  lemma CleanStep(f: Forest, i: nat, c: Cursor, calls: Oracle)
    requires Clean(f, i, calls) && !f.Empty?
    ensures PropertyStep(f, i, c, calls) == Went(Printed(c, HeadCells(f)))
    decreases f, 1
  {
    if f.Leaf? {
      CleanLeaf(f, i, c, calls);
    } else {
      var open := Cells(OpenText(f.name));
      NodeGoesOn(f, i, c, calls);
      CleanFields(f, i, Opened(c, f.name), calls);
      PrintedTwice(c, open, Render(f.fields));
      PrintedTwice(c, open + Render(f.fields), Cells(CLOSE_TEXT));
    }
  }

  lemma CleanFields(f: Forest, i: nat, c: Cursor, calls: Oracle)
    requires Clean(f, i, calls) && f.Node?
    ensures FieldsStep(f, i, c, calls) == Went(Printed(Printed(c, Render(f.fields)), Cells(CLOSE_TEXT)))
    decreases f, 0
  {
    CleanRun(f.fields, i + 1, c.(result := 0), calls);
    AdvanceOverFields(c, Render(f.fields), Run(f.fields, i + 1, c.(result := 0), calls));
  }

  lemma AdvanceOverFields(c: Cursor, cs: seq<Cell>, inner: Outcome)
    requires inner == Outcome(Printed(c.(result := 0), cs).mem, Printed(c.(result := 0), cs).result)
    ensures 0 <= inner.result && c.Advance(inner.mem, inner.result) == Printed(c, cs)
  {
  }

  lemma CleanLeaf(f: Forest, i: nat, c: Cursor, calls: Oracle)
    requires f.Leaf? && calls(NameSite(i)).Good? && calls(ValueSite(i)).Good?
    ensures LeafStep(f, i, c, calls) == Went(Printed(c, HeadCells(f)))
  {
    PutPut(c.mem, c.at, c.room, Cells(LeafHead(f.name)), ValueCells(f.ty, f.value));
  }

  /** Whatever fails, nothing is written outside the window. */
  lemma {:induction false} RunFrame(f: Forest, i: nat, c: Cursor, calls: Oracle)
    ensures SameOutside(c.mem, Run(f, i, c, calls).mem, c.at, c.room)
    decreases f, 2
  {
    if !f.Empty? {
      StepFrame(f, i, c, calls);
      var step := PropertyStep(f, i, c, calls);
      if step.Went? {
        RunFrame(f.rest, i + Head(f), step.next, calls);
      }
    }
  }

  /** A step writes inside the window only, and leaves the rest of the window to the next. */
  predicate StaysInside(c: Cursor, s: Step) {
    match s
    case Broke(mem) => SameOutside(c.mem, mem, c.at, c.room)
    case Went(next) =>
      && SameOutside(c.mem, next.mem, c.at, c.room)
      && c.at <= next.at && next.at + next.room == c.at + c.room
  }

  lemma StepFrame(f: Forest, i: nat, c: Cursor, calls: Oracle)
    requires !f.Empty?
    ensures StaysInside(c, PropertyStep(f, i, c, calls))
    decreases f, 1
  {
    if f.Leaf? {
      PrintFrame(c.mem, c.at, c.room, Cells(LeafHead(f.name)), calls(NameSite(i)));
      var mem := Print(c.mem, c.at, c.room, Cells(LeafHead(f.name)), calls(NameSite(i)));
      var c1 := c.Advance(mem, |LeafHead(f.name)|);
      PrintFrame(mem, c1.at, c1.room, ValueCells(f.ty, f.value), calls(ValueSite(i)));
    } else {
      PrintFrame(c.mem, c.at, c.room, Cells(OpenText(f.name)), calls(OpenSite(i)));
      if calls(OpenSite(i)).Good? {
        NodeGoesOn(f, i, c, calls);
        FieldsFrame(f, i, Opened(c, f.name), calls);
      }
    }
  }

  lemma FieldsFrame(f: Forest, i: nat, c: Cursor, calls: Oracle)
    requires f.Node?
    ensures StaysInside(c, FieldsStep(f, i, c, calls))
    decreases f, 0
  {
    RunFrame(f.fields, i + 1, c.(result := 0), calls);
    var inner := Run(f.fields, i + 1, c.(result := 0), calls);
    if 0 <= inner.result {
      var next := c.Advance(inner.mem, inner.result);
      PrintFrame(next.mem, next.at, next.room, Cells(CLOSE_TEXT), calls(CloseSite(i)));
    }
  }

  /** Some failing call is one the printer reports, if `room` bytes are left. A failure at a brace, at
      a value or anywhere inside a struct always is. A failing property name is not, unless nothing
      is printed after it at its level: it is the last property there, or no room is left. */
  predicate Reported(f: Forest, i: nat, room: nat, calls: Oracle)
    decreases f
  {
    && !f.Empty?
    && (|| ReportedHere(f, i, room, calls)
        || Reported(f.rest, i + Head(f), room - Use(f, i, room, calls), calls))
  }

  predicate ReportedHere(f: Forest, i: nat, room: nat, calls: Oracle)
    requires !f.Empty?
    decreases f, 0
  {
    if f.Leaf? then
      if calls(NameSite(i)).Fails? then f.rest.Empty? || room == 0 else calls(ValueSite(i)).Fails?
    else
      || calls(OpenSite(i)).Fails?
      || calls(CloseSite(i)).Fails?
      || Reported(f.fields, i + 1, room - Min(|OpenText(f.name)|, room), calls)
  }

  /** By how much the first property of `f` moves the cursor, if it does not leave the loop. */
  function Use(f: Forest, i: nat, room: nat, calls: Oracle): (n: nat)
    requires !f.Empty?
    ensures n <= room
    decreases f, 0
  {
    if f.Leaf? then
      if calls(NameSite(i)).Fails? then 0 else Min(|LeafHead(f.name)| + |ValueText(f.ty, f.value)|, room)
    else
      var n := Min(|OpenText(f.name)|, room);
      n + Min(Claim(f.fields, i + 1, room - n, 0, calls) + |CLOSE_TEXT|, room - n)
  }

  /** The length the printer claims for `f`, if nothing leaves the loop: after a failing name it
      starts again from -1. */
  function Claim(f: Forest, i: nat, room: nat, result: int, calls: Oracle): (n: int)
    requires -1 <= result
    ensures -1 <= n
    decreases f, 1
  {
    if f.Empty? then result
    else
      var n := Use(f, i, room, calls);
      var failed := f.Leaf? && calls(NameSite(i)).Fails?;
      Claim(f.rest, i + Head(f), room - n, if failed then -1 else result + n, calls)
  }

  /** The value returned is negative exactly when a failure is reported, and otherwise the length that
      Claim gives; a run that starts behind a failing name may only repeat that failure. */
  predicate TellsFailures(f: Forest, i: nat, c: Cursor, calls: Oracle)
    requires -1 <= c.result
  {
    var result := Run(f, i, c, calls).result;
    && (result < 0 <==> Reported(f, i, c.room, calls) || (c.result == -1 && (f.Empty? || c.room == 0)))
    && result == if result < 0 then -1 else Claim(f, i, c.room, c.result, calls)
  }

  lemma {:induction false} NegativeIffReported(f: Forest, i: nat, c: Cursor, calls: Oracle)
    requires -1 <= c.result
    ensures TellsFailures(f, i, c, calls)
    decreases f, 2
  {
    if !f.Empty? {
      StepReported(f, i, c, calls);
      RunGoesOn(f, i, c, calls);
      var step := PropertyStep(f, i, c, calls);
      if step.Went? {
        NegativeIffReported(f.rest, i + Head(f), step.next, calls);
      }
    }
  }

  /** `step`, taken for the first property of `f`, moves the cursor by Use, and leaves the loop only
      with a failure that is reported. */
  predicate Matches(step: Step, f: Forest, i: nat, c: Cursor, calls: Oracle)
    requires !f.Empty?
  {
    match step
    case Broke(_) => ReportedHere(f, i, c.room, calls)
    case Went(next) =>
      var n := Use(f, i, c.room, calls);
      && next.room == c.room - n
      && (if f.Leaf? && calls(NameSite(i)).Fails? then next.result == -1
          else
            && !ReportedHere(f, i, c.room, calls)
            && next.result == c.result + n && (0 < c.room ==> 0 < n))
  }

  lemma StepReported(f: Forest, i: nat, c: Cursor, calls: Oracle)
    requires !f.Empty?
    ensures Matches(PropertyStep(f, i, c, calls), f, i, c, calls)
    decreases f, 1
  {
    if f.Leaf? {
      LeafReported(f, i, c, calls);
    } else if calls(OpenSite(i)).Good? {
      NodeGoesOn(f, i, c, calls);
      FieldsReported(f, i, Opened(c, f.name), calls);
    }
  }

  lemma LeafReported(f: Forest, i: nat, c: Cursor, calls: Oracle)
    requires f.Leaf?
    ensures Matches(LeafStep(f, i, c, calls), f, i, c, calls)
  {
  }

  lemma FieldsReported(f: Forest, i: nat, c: Cursor, calls: Oracle)
    requires f.Node?
    ensures match FieldsStep(f, i, c, calls)
            case Broke(_) => calls(CloseSite(i)).Fails? || Reported(f.fields, i + 1, c.room, calls)
            case Went(next) =>
              var n := Min(Claim(f.fields, i + 1, c.room, 0, calls) + |CLOSE_TEXT|, c.room);
              && calls(CloseSite(i)).Good? && !Reported(f.fields, i + 1, c.room, calls)
              && next.room == c.room - n && next.result == c.result + n
    decreases f, 0
  {
    NegativeIffReported(f.fields, i + 1, c.(result := 0), calls);
  }

  /** If no property name fails, every failure makes the result negative and nothing else does. */
  lemma {:induction false} FailuresAreReported(f: Forest, i: nat, c: Cursor, calls: Oracle)
    requires 0 <= c.result && NamesGood(f, i, calls)
    ensures Run(f, i, c, calls).result < 0 <==> !Clean(f, i, calls)
    decreases f, 1
  {
    if !f.Empty? {
      StepFailsIff(f, i, c, calls);
      RunGoesOn(f, i, c, calls);
      var step := PropertyStep(f, i, c, calls);
      if step.Went? {
        FailuresAreReported(f.rest, i + Head(f), step.next, calls);
      }
    }
  }

  lemma StepFailsIff(f: Forest, i: nat, c: Cursor, calls: Oracle)
    requires 0 <= c.result && !f.Empty? && NamesGood(f, i, calls)
    ensures match PropertyStep(f, i, c, calls)
            case Broke(_) => !Clean(f, i, calls)
            case Went(next) =>
              0 <= next.result && (Clean(f, i, calls) <==> Clean(f.rest, i + Head(f), calls))
    decreases f, 0
  {
    if f.Node? && calls(OpenSite(i)).Good? {
      NodeGoesOn(f, i, c, calls);
      FailuresAreReported(f.fields, i + 1, Opened(c, f.name).(result := 0), calls);
      assert FieldsStep(f, i, Opened(c, f.name), calls).Broke? <==>
             !Clean(f.fields, i + 1, calls) || calls(CloseSite(i)).Fails?;
    }
  }

  predicate NamesGood(f: Forest, i: nat, calls: Oracle)
    decreases f
  {
    match f
    case Empty => true
    case Leaf(_, _, _, rest) => calls(NameSite(i)).Good? && NamesGood(rest, i + 1, calls)
    case Node(_, fields, rest) =>
      NamesGood(fields, i + 1, calls) && NamesGood(rest, i + 1 + Size(fields), calls)
  }

  /** A failing name that goes unreported: of the properties a=1 and b=2, the name of the first
      fails, yet the printer claims success and three characters, and only the second is there. */
  lemma UnreportedFailure(mem: seq<byte>)
    requires |mem| == 16
    ensures var f := Leaf([97], UInt8, [1], Leaf([98], UInt8, [2], Empty));
            var calls := (s: Site) => if s == NameSite(0) then Fails([]) else Good;
            var r := Run(f, 0, Cursor(mem, 0, 16, 0), calls);
            !Clean(f, 0, calls) && r.result == 3 && ReadsAs(r.mem, 0, Ascii(" b=2"))
  {
    var f := Leaf([97], UInt8, [1], Leaf([98], UInt8, [2], Empty));
    var calls := (s: Site) => if s == NameSite(0) then Fails([]) else Good;
    var c := Cursor(Put(mem, 0, 16, []), 0, 16, -1);
    assert LittleEndian([2]) == 2 + 256 * LittleEndian([]);
    assert ValueText(UInt8, [2]) == [50];
    CleanRun(f.rest, 1, c, calls);
    assert |Render(f.rest)| == |LeafHead([98])| + 1 + |Render(Empty)|;
    RenderText(f.rest);
    assert Text(Render(f.rest)) == [32, 98, 61, 50] + [] == Ascii(" b=2");
    PutReads(c.mem, 0, 16, Render(f.rest));
    assert Run(f, 0, Cursor(mem, 0, 16, 0), calls) == Run(f.rest, 1, c, calls);
  }

  /** The printer's promise: unless the cut falls on a character of a wide value, the window reads
      back as the longest prefix of the text that leaves room for the terminator; and the value
      returned is the number of bytes used. */
  lemma PrinterTruncates(f: Forest, mem: seq<byte>, at: nat, size: nat, calls: Oracle)
    requires Clean(f, 0, calls) && !f.Empty? && 0 < size && at + size <= |mem|
    ensures var text := Text(Render(f));
            var r := Run(f, 0, Cursor(mem, at, size, 0), calls);
            var n := Min(|text|, size - 1);
            && r.result == Min(|text|, size)
            && |r.mem| == |mem| && r.mem[at..at + n] == text[..n]
            && (ReadsAs(r.mem, at, text[..n]) <==> !(size <= |text| && Render(f)[size - 1].wide))
  {
    CleanRun(f, 0, Cursor(mem, at, size, 0), calls);
    RenderHead(f);
    RenderHasNoNul(f);
    PutReads(mem, at, size, Render(f));
  }
}
