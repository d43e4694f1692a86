/** The counted life cycle of the logger (v2/src/logger.c) and of the ETW sink it drives
    (v2/src/log_sink_etw.c:572-636). */
module Loggers {

  /** Sinks are identified by numbers; the trace records every call made to one. */
  datatype SinkCall = InitCall(sink: nat, ok: bool) | DeinitCall(sink: nat) | LogCall(sink: nat)

  const COUNTER_RANGE := 0x1_0000_0000

  /** The module's globals, whether get_thread_stack is initialized, and the calls made so far. */
  datatype State = State(initialized: bool, initCount: nat, sinks: seq<nat>, stackUp: bool,
                         aborted: bool, trace: seq<SinkCall>)

  /** A request to the logger, with the outcomes of the initializations it leads to. */
  datatype Request =
    | Init(stackOk: bool, outcomes: seq<bool>)
    | Deinit
    | Log
    | LogWith(sinks: seq<nat>, sinksAreNull: bool)
    | SetConfig(sinks: seq<nat>)

  const START := State(false, 0, [], false, false, [])

  // Calls

  function InitCalls(sinks: seq<nat>): (cs: seq<SinkCall>) {
    seq(|sinks|, i requires 0 <= i < |sinks| => InitCall(sinks[i], true))
  }

  function DeinitCalls(sinks: seq<nat>): (cs: seq<SinkCall>) {
    seq(|sinks|, i requires 0 <= i < |sinks| => DeinitCall(sinks[i]))
  }

  function LogCalls(sinks: seq<nat>): (cs: seq<SinkCall>) {
    seq(|sinks|, i requires 0 <= i < |sinks| => LogCall(sinks[i]))
  }

  predicate Succeeds(outcomes: seq<bool>, i: nat) {
    i < |outcomes| ==> outcomes[i]
  }

  /** How many sinks initialize before one fails. */
  function Good(sinks: seq<nat>, outcomes: seq<bool>, i: nat): (k: nat)
    requires i <= |sinks|
    ensures i <= k <= |sinks|
    ensures forall j :: i <= j < k ==> Succeeds(outcomes, j)
    ensures k < |sinks| ==> !Succeeds(outcomes, k)
    decreases |sinks| - i
  {
    if i == |sinks| || !Succeeds(outcomes, i) then i else Good(sinks, outcomes, i + 1)
  }

  // Requests

  function AfterInit(s: State, stackOk: bool, outcomes: seq<bool>): (r: State) {
    if s.initialized then s.(initCount := (s.initCount + 1) % COUNTER_RANGE)
    else if !stackOk then s
    else
      var k := Good(s.sinks, outcomes, 0);
      var up := InitCalls(s.sinks[..k]);
      if k == |s.sinks| then
        s.(initialized := true, initCount := 1, stackUp := true, trace := s.trace + up)
      else
        s.(initCount := 1, stackUp := false,
           trace := s.trace + up + [InitCall(s.sinks[k], false)] + DeinitCalls(s.sinks[..k]))
  }

  function AfterDeinit(s: State): (r: State) {
    if !s.initialized then s
    else
      var count := (s.initCount + COUNTER_RANGE - 1) % COUNTER_RANGE;
      if count != 0 then s.(initCount := count)
      else s.(initialized := false, initCount := 0, stackUp := false, trace := s.trace + DeinitCalls(s.sinks))
  }

  function AfterLog(s: State, sinks: seq<nat>): (r: State) {
    if !s.initialized then s.(aborted := true) else s.(trace := s.trace + LogCalls(sinks))
  }

  function Step(s: State, q: Request): (r: State) {
    if s.aborted then s
    else
      match q
      case Init(stackOk, outcomes) => AfterInit(s, stackOk, outcomes)
      case Deinit => AfterDeinit(s)
      case Log => AfterLog(s, s.sinks)
      case LogWith(sinks, sinksAreNull) => if |sinks| > 0 && sinksAreNull then s else AfterLog(s, sinks)
      case SetConfig(sinks) => s.(sinks := sinks)
  }

  // The code

  class Logger {
    var initialized: bool
    var initCount: nat
    var sinks: seq<nat>
    var stackUp: bool
    var aborted: bool
    var trace: seq<SinkCall>

    ghost function Value(): State
      reads this
    {
      State(initialized, initCount, sinks, stackUp, aborted, trace)
    }

    constructor ()
      ensures Value() == START
    {
      initialized, initCount, sinks, stackUp, aborted, trace := false, 0, [], false, false, [];
    }

    /** logger_init; get_thread_stack_init and the sinks' init turn out as given. */
    method DoInit(stackOk: bool, outcomes: seq<bool>) returns (failed: bool)
      modifies this
      ensures Value() == AfterInit(old(Value()), stackOk, outcomes)
      ensures failed <==> !initialized
    {
      if initialized {
        initCount := (initCount + 1) % COUNTER_RANGE;
        return false;
      }
      if !stackOk {
        return true;
      }
      stackUp := true;
      initCount := 1;
      var i := 0;
      while i < |sinks|
        invariant 0 <= i <= |sinks|
        invariant Good(sinks, outcomes, i) == Good(sinks, outcomes, 0)
        invariant Value() == old(Value()).(stackUp := true, initCount := 1, trace := old(trace) + InitCalls(sinks[..i]))
      {
        trace := trace + [InitCall(sinks[i], Succeeds(outcomes, i))];
        if !Succeeds(outcomes, i) {
          break;
        }
        assert InitCalls(sinks[..i + 1]) == InitCalls(sinks[..i]) + [InitCall(sinks[i], true)];
        i := i + 1;
      }
      if i < |sinks| {
        DeinitFirst(i);
        stackUp := false;
        return true;
      }
      initialized := true;
      return false;
    }

    /** Calls deinit of the first `n` sinks. */
    method DeinitFirst(n: nat)
      requires n <= |sinks|
      modifies this`trace
      ensures trace == old(trace) + DeinitCalls(sinks[..n])
    {
      var j := 0;
      while j < n
        invariant 0 <= j <= n
        invariant trace == old(trace) + DeinitCalls(sinks[..j])
      {
        assert DeinitCalls(sinks[..j + 1]) == DeinitCalls(sinks[..j]) + [DeinitCall(sinks[j])];
        trace := trace + [DeinitCall(sinks[j])];
        j := j + 1;
      }
    }

    /** logger_deinit. */
    method DoDeinit()
      modifies this
      ensures Value() == AfterDeinit(old(Value()))
    {
      if initialized {
        initCount := (initCount + COUNTER_RANGE - 1) % COUNTER_RANGE;
        if initCount == 0 {
          DeinitFirst(|sinks|);
          assert sinks[..|sinks|] == sinks;
          stackUp := false;
          initialized := false;
        }
      }
    }

    /** logger_log, and logger_log_with_config once its arguments are checked. */
    method DoLog(targets: seq<nat>)
      modifies this
      ensures Value() == AfterLog(old(Value()), targets)
    {
      if !initialized {
        aborted := true;
        return;
      }
      var i := 0;
      while i < |targets|
        invariant 0 <= i <= |targets|
        invariant Value() == old(Value()).(trace := old(trace) + LogCalls(targets[..i]))
      {
        assert LogCalls(targets[..i + 1]) == LogCalls(targets[..i]) + [LogCall(targets[i])];
        trace := trace + [LogCall(targets[i])];
        i := i + 1;
      }
      assert targets[..i] == targets;
    }

    /** Any request. */
    method Serve(q: Request)
      modifies this
      ensures Value() == Step(old(Value()), q)
    {
      if !aborted {
        match q
        case Init(stackOk, outcomes) =>
          var failed := DoInit(stackOk, outcomes);
        case Deinit =>
          DoDeinit();
        case Log =>
          DoLog(sinks);
        case LogWith(targets, sinksAreNull) =>
          if !(|targets| > 0 && sinksAreNull) {
            DoLog(targets);
          }
        case SetConfig(newSinks) =>
          sinks := newSinks;
      }
    }
  }

  // Balance of initializations

  /** Successful inits minus deinits of sink `k`. */
  function Balance(trace: seq<SinkCall>, k: nat): int {
    if trace == [] then 0
    else
      Balance(trace[..|trace| - 1], k) +
      match trace[|trace| - 1]
      case InitCall(sink, ok) => if sink == k && ok then 1 else 0
      case DeinitCall(sink) => if sink == k then -1 else 0
      case LogCall(_) => 0
  }

  /** How often sink `k` is configured. */
  function Count(sinks: seq<nat>, k: nat): int {
    multiset(sinks)[k]
  }

  ghost predicate SameSinks(a: seq<nat>, b: seq<nat>) {
    forall k :: Count(a, k) == Count(b, k)
  }

  lemma {:induction false} BalanceConcat(a: seq<SinkCall>, b: seq<SinkCall>, k: nat)
    ensures Balance(a + b, k) == Balance(a, k) + Balance(b, k)
  {
    if b == [] {
      assert a + b == a;
    } else {
      BalanceConcat(a, b[..|b| - 1], k);
      assert (a + b)[..|a + b| - 1] == a + b[..|b| - 1];
    }
  }

  lemma {:induction false} BalanceOfCalls(sinks: seq<nat>, k: nat)
    ensures Balance(InitCalls(sinks), k) == Count(sinks, k)
    ensures Balance(DeinitCalls(sinks), k) == -Count(sinks, k)
    ensures Balance(LogCalls(sinks), k) == 0
  {
    if sinks != [] {
      var n := |sinks| - 1;
      BalanceOfCalls(sinks[..n], k);
      assert sinks == sinks[..n] + [sinks[n]];
      assert InitCalls(sinks)[..n] == InitCalls(sinks[..n]);
      assert DeinitCalls(sinks)[..n] == DeinitCalls(sinks[..n]);
      assert LogCalls(sinks)[..n] == LogCalls(sinks[..n]);
    }
  }

  /** Each configured sink has been initialized once more than deinitialized while the logger is
      initialized, and as often otherwise. */
  ghost predicate Balanced(s: State) {
    && (forall k :: Balance(s.trace, k) == if s.initialized then Count(s.sinks, k) else 0)
    && s.stackUp == s.initialized
  }

  /** The counter follows the number of inits not yet undone, as far as 32 bits allow. */
  predicate Counted(s: State, outstanding: int) {
    if s.initialized then 1 <= outstanding && s.initCount == outstanding % COUNTER_RANGE else outstanding == 0
  }

  /** Successful logger_init calls minus logger_deinit calls that find the logger initialized. */
  function Outstanding(before: State, q: Request, outstanding: int): int {
    if before.aborted then outstanding
    else if q.Init? && Step(before, q).initialized then outstanding + 1
    else if q.Deinit? && before.initialized then outstanding - 1
    else outstanding
  }

  /** The sink set keeps its members while in use, and no deinit brings the number of outstanding
      inits down to a positive multiple of 2^32. */
  ghost predicate Allowed(s: State, q: Request, outstanding: int) {
    match q
    case SetConfig(sinks) => s.initialized && !s.aborted ==> SameSinks(sinks, s.sinks)
    case Deinit => s.initialized && !s.aborted ==> outstanding == 1 || (outstanding - 1) % COUNTER_RANGE != 0
    case _ => true
  }

  /** Every allowed request keeps the books. */
  lemma StepKeepsBalance(s: State, q: Request, outstanding: int)
    requires Balanced(s) && Counted(s, outstanding) && Allowed(s, q, outstanding)
    ensures Balanced(Step(s, q)) && Counted(Step(s, q), Outstanding(s, q, outstanding))
  {
    var r := Step(s, q);
    if s.aborted {
      return;
    }
    forall k
      ensures Balance(r.trace, k) == if r.initialized then Count(r.sinks, k) else 0
    {
      assert Balance(s.trace, k) == if s.initialized then Count(s.sinks, k) else 0;
      match q
      case Init(_, outcomes) =>
        InitBalance(s, outcomes, k);
      case Deinit =>
        BalanceOfCalls(s.sinks, k);
        BalanceConcat(s.trace, DeinitCalls(s.sinks), k);
      case Log =>
        BalanceOfCalls(s.sinks, k);
        BalanceConcat(s.trace, LogCalls(s.sinks), k);
      case LogWith(sinks, _) =>
        BalanceOfCalls(sinks, k);
        BalanceConcat(s.trace, LogCalls(sinks), k);
      case SetConfig(_) =>
    }
  }

  /** Initialization and rollback: a failing sink leaves no other one initialized. */
  lemma InitBalance(s: State, outcomes: seq<bool>, k: nat)
    requires !s.initialized ==> Balance(s.trace, k) == 0
    ensures var r := AfterInit(s, true, outcomes);
            !s.initialized ==> Balance(r.trace, k) == if r.initialized then Count(s.sinks, k) else 0
  {
    if !s.initialized {
      var n := Good(s.sinks, outcomes, 0);
      var up, down := InitCalls(s.sinks[..n]), DeinitCalls(s.sinks[..n]);
      BalanceOfCalls(s.sinks[..n], k);
      BalanceConcat(s.trace, up, k);
      if n == |s.sinks| {
        assert s.sinks[..n] == s.sinks;
      } else {
        var failed := [InitCall(s.sinks[n], false)];
        assert Balance(failed, k) == Balance(failed[..0], k);
        BalanceConcat(s.trace + up, failed, k);
        BalanceConcat(s.trace + up + failed, down, k);
      }
    }
  }

  // Runs

  function Run(s: State, qs: seq<Request>): (r: State)
    decreases qs
  {
    if qs == [] then s else Run(Step(s, qs[0]), qs[1..])
  }

  function OutstandingAfter(s: State, qs: seq<Request>, outstanding: int): int
    decreases qs
  {
    if qs == [] then outstanding
    else OutstandingAfter(Step(s, qs[0]), qs[1..], Outstanding(s, qs[0], outstanding))
  }

  ghost predicate AllAllowed(s: State, qs: seq<Request>, outstanding: int)
    decreases qs
  {
    qs == [] ||
    (Allowed(s, qs[0], outstanding) && AllAllowed(Step(s, qs[0]), qs[1..], Outstanding(s, qs[0], outstanding)))
  }

  lemma {:induction false} RunKeepsBalance(s: State, qs: seq<Request>, outstanding: int)
    requires Balanced(s) && Counted(s, outstanding) && AllAllowed(s, qs, outstanding)
    ensures Balanced(Run(s, qs)) && Counted(Run(s, qs), OutstandingAfter(s, qs, outstanding))
    decreases qs
  {
    if qs != [] {
      StepKeepsBalance(s, qs[0], outstanding);
      RunKeepsBalance(Step(s, qs[0]), qs[1..], Outstanding(s, qs[0], outstanding));
    }
  }

  /** Over every allowed run from the start: sinks balanced, and initialized exactly while inits
      outnumber deinits. */
  lemma RunsAreBalanced(qs: seq<Request>)
    requires AllAllowed(START, qs, 0)
    ensures Balanced(Run(START, qs))
    ensures Run(START, qs).initialized <==> 0 < OutstandingAfter(START, qs, 0)
  {
    RunKeepsBalance(START, qs, 0);
  }

  // The conditions are exact

  /** Another sink set under an initialized logger is unbalanced at once. */
  lemma SetConfigKeepsIff(s: State, sinks: seq<nat>)
    requires Balanced(s) && s.initialized && !s.aborted
    ensures Balanced(Step(s, SetConfig(sinks))) <==> SameSinks(sinks, s.sinks)
  {
    forall k
      ensures Balance(s.trace, k) == Count(s.sinks, k)
    {
    }
  }

  /** The logger shuts down under its remaining users. */
  lemma DeinitIsEarlyIff(s: State, outstanding: int)
    requires Counted(s, outstanding) && s.initialized && 1 < outstanding
    ensures !AfterDeinit(s).initialized <==> (outstanding - 1) % COUNTER_RANGE == 0
  {
  }

  lemma StepKeepsIff(s: State, q: Request, outstanding: int)
    requires Balanced(s) && Counted(s, outstanding)
    ensures Balanced(Step(s, q)) && Counted(Step(s, q), Outstanding(s, q, outstanding)) <==>
            Allowed(s, q, outstanding)
  {
    if Allowed(s, q, outstanding) {
      StepKeepsBalance(s, q, outstanding);
    } else if q.SetConfig? {
      SetConfigKeepsIff(s, q.sinks);
    }
  }

  /** The books are right after the requests `qs`. */
  ghost predicate BooksRight(s: State, qs: seq<Request>, outstanding: int) {
    Balanced(Run(s, qs)) && Counted(Run(s, qs), OutstandingAfter(s, qs, outstanding))
  }

  /** They are right all along a run if and only if every request in it is allowed. */
  lemma {:induction false} RunsBalancedIff(s: State, qs: seq<Request>, outstanding: int)
    requires Balanced(s) && Counted(s, outstanding)
    ensures (forall n :: 0 <= n <= |qs| ==> BooksRight(s, qs[..n], outstanding)) <==>
            AllAllowed(s, qs, outstanding)
    decreases qs
  {
    if qs == [] {
      assert forall n :: 0 <= n <= |qs| ==> qs[..n] == [];
    } else {
      var next, rest, left := Step(s, qs[0]), qs[1..], Outstanding(s, qs[0], outstanding);
      StepKeepsIff(s, qs[0], outstanding);
      BooksAfterFirst(s, qs, 0, outstanding);
      if Allowed(s, qs[0], outstanding) {
        RunsBalancedIff(next, rest, left);
        forall n | 0 <= n <= |qs|
          ensures BooksRight(s, qs[..n], outstanding) <==> n == 0 || BooksRight(next, rest[..n - 1], left)
        {
          if n != 0 {
            BooksAfterFirst(s, qs, n - 1, outstanding);
          }
        }
        forall m | 0 <= m <= |rest|
          ensures BooksRight(next, rest[..m], left) <==> BooksRight(s, qs[..m + 1], outstanding)
        {
          BooksAfterFirst(s, qs, m, outstanding);
        }
      } else {
        assert !BooksRight(s, qs[..1], outstanding);
      }
    }
  }

  lemma BooksAfterFirst(s: State, qs: seq<Request>, n: nat, outstanding: int)
    requires n < |qs|
    ensures BooksRight(s, qs[..n + 1], outstanding)
         == BooksRight(Step(s, qs[0]), qs[1..][..n], Outstanding(s, qs[0], outstanding))
  {
    assert qs[..n + 1][1..] == qs[1..][..n];
  }

  /** The sinks of an initialized logger are exchanged: sink 1 is never deinitialized. */
  lemma ExchangedSinks()
    ensures var qs := [SetConfig([1]), Init(true, []), SetConfig([2]), Deinit];
            !Run(START, qs).initialized && Balance(Run(START, qs).trace, 1) == 1
  {
    var up := State(true, 1, [1], true, false, [InitCall(1, true)]);
    var down := State(false, 0, [2], false, false, [InitCall(1, true), DeinitCall(2)]);
    OneMore(START, [], SetConfig([1]), 0);
    OneMore(START, [SetConfig([1])], Init(true, []), 0);
    InitOne(START.(sinks := [1]));
    assert Run(START, [SetConfig([1]), Init(true, [])]) == up;
    OneMore(START, [SetConfig([1]), Init(true, [])], SetConfig([2]), 0);
    OneMore(START, [SetConfig([1]), Init(true, []), SetConfig([2])], Deinit, 0);
    assert Step(Step(up, SetConfig([2])), Deinit) == down;
    assert down.trace[..1] == up.trace && up.trace[..0] == [];
    assert Balance(up.trace, 1) == 1;
  }

  lemma InitOne(s: State)
    requires s.sinks == [1] && !s.initialized
    ensures AfterInit(s, true, [])
         == s.(initialized := true, initCount := 1, stackUp := true, trace := s.trace + [InitCall(1, true)])
  {
    assert Good(s.sinks, [], 0) == Good(s.sinks, [], 1) == 1;
    assert InitCalls([1]) == [InitCall(1, true)];
  }

  /** After 2^32 + 1 inits the first deinit shuts the logger down under 2^32 users. */
  lemma ForgottenUsers()
    ensures var qs := seq(COUNTER_RANGE + 1, _ => Init(true, [])) + [Deinit];
            !Run(START, qs).initialized && OutstandingAfter(START, qs, 0) == COUNTER_RANGE
  {
    var inits := seq(COUNTER_RANGE + 1, _ => Init(true, []));
    ManyInits(COUNTER_RANGE + 1);
    OneMore(START, inits, Deinit, 0);
  }

  lemma {:induction false} ManyInits(n: nat)
    requires 0 < n
    ensures var s := Run(START, seq(n, _ => Init(true, [])));
            s.initialized && !s.aborted && s.initCount == n % COUNTER_RANGE
    ensures OutstandingAfter(START, seq(n, _ => Init(true, [])), 0) == n
  {
    var before := seq(n - 1, _ => Init(true, []));
    assert seq(n, _ => Init(true, [])) == before + [Init(true, [])];
    OneMore(START, before, Init(true, []), 0);
    if 1 < n {
      ManyInits(n - 1);
    }
  }

  /** The last request of a run. */
  lemma {:induction false} OneMore(s: State, qs: seq<Request>, q: Request, outstanding: int)
    ensures Run(s, qs + [q]) == Step(Run(s, qs), q)
    ensures OutstandingAfter(s, qs + [q], outstanding)
         == Outstanding(Run(s, qs), q, OutstandingAfter(s, qs, outstanding))
    decreases qs
  {
    if qs == [] {
      assert qs + [q] == [q];
    } else {
      assert (qs + [q])[1..] == qs[1..] + [q];
      OneMore(Step(s, qs[0]), qs[1..], q, Outstanding(s, qs[0], outstanding));
    }
  }

  // Who is called

  /** `after` is `before` and `n` more calls. */
  predicate Adds(before: seq<SinkCall>, after: seq<SinkCall>, n: nat) {
    before <= after && |after| == |before| + n
  }

  /** The sinks a request to log goes to. */
  function Targets(s: State, q: Request): seq<nat> {
    if q.LogWith? then q.sinks else s.sinks
  }

  /** Logging calls every sink once, in order; a logger that is not initialized aborts instead, and a
      configuration without its sinks is ignored. */
  lemma LogCallsEverySink(s: State, q: Request)
    requires !s.aborted && (q.Log? || q.LogWith?)
    ensures var r, targets := Step(s, q), Targets(s, q);
            if q.LogWith? && q.sinks != [] && q.sinksAreNull then r == s
            else if !s.initialized then r == s.(aborted := true)
            else
              && r == s.(trace := r.trace) && Adds(s.trace, r.trace, |targets|)
              && forall i :: 0 <= i < |targets| ==> r.trace[|s.trace| + i] == LogCall(targets[i])
  {
  }

  /** An aborted logger does nothing any more. */
  lemma {:induction false} AbortedForGood(s: State, qs: seq<Request>)
    requires s.aborted
    ensures Run(s, qs) == s
    decreases qs
  {
    if qs != [] {
      AbortedForGood(s, qs[1..]);
    }
  }

  /** Initialization calls the sinks in order up to the first that fails, and then undoes those before
      it in the same order. */
  lemma InitCallsInOrder(s: State, outcomes: seq<bool>, k: nat)
    requires !s.aborted && !s.initialized && k <= |s.sinks|
    requires forall i :: 0 <= i < k ==> Succeeds(outcomes, i)
    requires k < |s.sinks| ==> !Succeeds(outcomes, k)
    ensures var r := Step(s, Init(true, outcomes));
            && r.initialized == (k == |s.sinks|)
            && Adds(s.trace, r.trace, if k == |s.sinks| then k else 2 * k + 1)
            && (forall i :: 0 <= i < k ==> r.trace[|s.trace| + i] == InitCall(s.sinks[i], true))
            && (k < |s.sinks| ==>
                  && r.trace[|s.trace| + k] == InitCall(s.sinks[k], false)
                  && forall i :: 0 <= i < k ==> r.trace[|s.trace| + k + 1 + i] == DeinitCall(s.sinks[i]))
  {
    GoodIs(s.sinks, outcomes, 0, k);
    var r, up := Step(s, Init(true, outcomes)), InitCalls(s.sinks[..k]);
    assert forall i :: 0 <= i < k ==> up[i] == InitCall(s.sinks[i], true);
    if k < |s.sinks| {
      var down := DeinitCalls(s.sinks[..k]);
      RollbackAt(s.trace, up, InitCall(s.sinks[k], false), down, r.trace);
      assert forall i :: 0 <= i < k ==> down[i] == DeinitCall(s.sinks[i]);
    }
  }

  lemma RollbackAt(t: seq<SinkCall>, up: seq<SinkCall>, failed: SinkCall, down: seq<SinkCall>, r: seq<SinkCall>)
    requires r == t + up + [failed] + down
    ensures Adds(t, r, |up| + 1 + |down|) && r[|t| + |up|] == failed
    ensures forall i :: 0 <= i < |up| ==> r[|t| + i] == up[i]
    ensures forall i :: 0 <= i < |down| ==> r[|t| + |up| + 1 + i] == down[i]
  {
  }

  lemma {:induction false} GoodIs(sinks: seq<nat>, outcomes: seq<bool>, i: nat, k: nat)
    requires i <= k <= |sinks| && (forall j :: 0 <= j < k ==> Succeeds(outcomes, j))
    requires k < |sinks| ==> !Succeeds(outcomes, k)
    ensures Good(sinks, outcomes, i) == k
    decreases k - i
  {
    if i < k {
      GoodIs(sinks, outcomes, i + 1, k);
    }
  }

  /** The last deinit calls the sinks in order; every other calls none. */
  lemma DeinitCallsInOrder(s: State)
    requires !s.aborted && s.initialized
    ensures var r := Step(s, Deinit);
            if r.initialized then r.trace == s.trace
            else
              && Adds(s.trace, r.trace, |s.sinks|)
              && forall i :: 0 <= i < |s.sinks| ==> r.trace[|s.trace| + i] == DeinitCall(s.sinks[i])
  {
  }

  /** How often sink `k` has been called to log. */
  function LogCount(trace: seq<SinkCall>, k: nat): nat {
    if trace == [] then 0
    else LogCount(trace[..|trace| - 1], k) + if trace[|trace| - 1] == LogCall(k) then 1 else 0
  }

  /** How many of the sinks that serve a request are sink `k`. */
  function Serves(s: State, q: Request, k: nat): nat {
    if s.aborted || !s.initialized || !(q.Log? || q.LogWith?) then 0
    else if q.LogWith? && q.sinks != [] && q.sinksAreNull then 0
    else multiset(Targets(s, q))[k]
  }

  function ServesIn(s: State, qs: seq<Request>, k: nat): nat
    decreases qs
  {
    if qs == [] then 0 else Serves(s, qs[0], k) + ServesIn(Step(s, qs[0]), qs[1..], k)
  }

  lemma {:induction false} LogCountConcat(a: seq<SinkCall>, b: seq<SinkCall>, k: nat)
    ensures LogCount(a + b, k) == LogCount(a, k) + LogCount(b, k)
  {
    if b == [] {
      assert a + b == a;
    } else {
      LogCountConcat(a, b[..|b| - 1], k);
      assert (a + b)[..|a + b| - 1] == a + b[..|b| - 1];
    }
  }

  lemma {:induction false} LogCountOfCalls(sinks: seq<nat>, k: nat)
    ensures LogCount(LogCalls(sinks), k) == multiset(sinks)[k]
    ensures LogCount(InitCalls(sinks), k) == 0 && LogCount(DeinitCalls(sinks), k) == 0
  {
    if sinks != [] {
      var n := |sinks| - 1;
      LogCountOfCalls(sinks[..n], k);
      assert sinks == sinks[..n] + [sinks[n]];
      assert LogCalls(sinks)[..n] == LogCalls(sinks[..n]);
      assert InitCalls(sinks)[..n] == InitCalls(sinks[..n]);
      assert DeinitCalls(sinks)[..n] == DeinitCalls(sinks[..n]);
    }
  }

  lemma StepLogs(s: State, q: Request, k: nat)
    ensures LogCount(Step(s, q).trace, k) == LogCount(s.trace, k) + Serves(s, q, k)
  {
    if !s.aborted {
      match q
      case Init(stackOk, outcomes) =>
        InitLogsNothing(s, outcomes, k);
      case Deinit =>
        LogCountOfCalls(s.sinks, k);
        LogCountConcat(s.trace, DeinitCalls(s.sinks), k);
      case Log =>
        LogCountOfCalls(s.sinks, k);
        LogCountConcat(s.trace, LogCalls(s.sinks), k);
      case LogWith(sinks, _) =>
        LogCountOfCalls(sinks, k);
        LogCountConcat(s.trace, LogCalls(sinks), k);
      case SetConfig(_) =>
    }
  }

  lemma InitLogsNothing(s: State, outcomes: seq<bool>, k: nat)
    ensures LogCount(AfterInit(s, true, outcomes).trace, k) == LogCount(s.trace, k)
  {
    if !s.initialized {
      var n := Good(s.sinks, outcomes, 0);
      var up, down := InitCalls(s.sinks[..n]), DeinitCalls(s.sinks[..n]);
      LogCountOfCalls(s.sinks[..n], k);
      LogCountConcat(s.trace, up, k);
      if n < |s.sinks| {
        var failed := [InitCall(s.sinks[n], false)];
        assert LogCount(failed, k) == LogCount(failed[..0], k);
        LogCountConcat(s.trace + up, failed, k);
        LogCountConcat(s.trace + up + failed, down, k);
      }
    }
  }

  /** Over every run, a sink is called to log once for each of its slots in each request served. */
  lemma {:induction false} EveryMessageArrives(s: State, qs: seq<Request>, k: nat)
    ensures LogCount(Run(s, qs).trace, k) == LogCount(s.trace, k) + ServesIn(s, qs, k)
    decreases qs
  {
    if qs != [] {
      StepLogs(s, qs[0], k);
      EveryMessageArrives(Step(s, qs[0]), qs[1..], k);
    }
  }

  // The ETW sink

  /** log_sink_etw's own state over the calls it gets: registered or not, or misused - initialized
      while registered, or deinitialized while not. */
  datatype Etw = Registered(yes: bool) | Misused

  function AfterCall(e: Etw, c: SinkCall, k: nat): Etw {
    if e.Misused? || c.sink != k then e
    else
      match c
      case InitCall(_, ok) => if e.yes then Misused else Registered(ok)
      case DeinitCall(_) => if e.yes then Registered(false) else Misused
      case LogCall(_) => e
  }

  function AfterCalls(e: Etw, cs: seq<SinkCall>, k: nat): (r: Etw) {
    if cs == [] then e else AfterCall(AfterCalls(e, cs[..|cs| - 1], k), cs[|cs| - 1], k)
  }

  lemma {:induction false} AfterConcat(e: Etw, a: seq<SinkCall>, b: seq<SinkCall>, k: nat)
    ensures AfterCalls(e, a + b, k) == AfterCalls(AfterCalls(e, a, k), b, k)
  {
    if b == [] {
      assert a + b == a;
    } else {
      AfterConcat(e, a, b[..|b| - 1], k);
      assert (a + b)[..|a + b| - 1] == a + b[..|b| - 1];
    }
  }

  lemma {:induction false} EtwCalls(sinks: seq<nat>, k: nat)
    requires Count(sinks, k) <= 1
    ensures AfterCalls(Registered(false), InitCalls(sinks), k) == Registered(k in sinks)
    ensures AfterCalls(Registered(k in sinks), DeinitCalls(sinks), k) == Registered(false)
  {
    if sinks != [] {
      var n := |sinks| - 1;
      assert sinks == sinks[..n] + [sinks[n]];
      EtwCalls(sinks[..n], k);
      assert InitCalls(sinks)[..n] == InitCalls(sinks[..n]);
      assert DeinitCalls(sinks)[..n] == DeinitCalls(sinks[..n]);
      if k !in sinks[..n] {
        NotCalled(Registered(k in sinks), sinks[..n], k);
      }
    }
  }

  lemma {:induction false} NotCalled(e: Etw, sinks: seq<nat>, k: nat)
    requires k !in sinks
    ensures AfterCalls(e, DeinitCalls(sinks), k) == e
  {
    if sinks != [] {
      NotCalled(e, sinks[..|sinks| - 1], k);
      assert DeinitCalls(sinks)[..|sinks| - 1] == DeinitCalls(sinks[..|sinks| - 1]);
    }
  }

  lemma {:induction false} LogsAreNeutral(e: Etw, sinks: seq<nat>, k: nat)
    ensures AfterCalls(e, LogCalls(sinks), k) == e
  {
    if sinks != [] {
      LogsAreNeutral(e, sinks[..|sinks| - 1], k);
      assert LogCalls(sinks)[..|sinks| - 1] == LogCalls(sinks[..|sinks| - 1]);
    }
  }

  /** The sink is registered exactly while the logger that has it configured is initialized. */
  predicate EtwInStep(s: State, k: nat) {
    AfterCalls(Registered(false), s.trace, k) == Registered(s.initialized && k in s.sinks)
  }

  /** A configuration with the sink in at most one slot, unchanged while in use. */
  predicate EtwAllowed(s: State, q: Request, k: nat) {
    q.SetConfig? ==> Count(q.sinks, k) <= 1 && (s.initialized && !s.aborted ==> (k in q.sinks <==> k in s.sinks))
  }

  lemma StepKeepsEtw(s: State, q: Request, k: nat)
    requires EtwInStep(s, k) && Count(s.sinks, k) <= 1 && EtwAllowed(s, q, k)
    ensures EtwInStep(Step(s, q), k) && (!s.aborted ==> Count(Step(s, q).sinks, k) <= 1)
  {
    if !s.aborted {
      var start := Registered(false);
      match q
      case Init(stackOk, outcomes) =>
        EtwInit(s, stackOk, outcomes, k);
      case Deinit =>
        EtwCalls(s.sinks, k);
        AfterConcat(start, s.trace, DeinitCalls(s.sinks), k);
      case Log =>
        LogsAreNeutral(AfterCalls(start, s.trace, k), s.sinks, k);
        AfterConcat(start, s.trace, LogCalls(s.sinks), k);
      case LogWith(sinks, _) =>
        LogsAreNeutral(AfterCalls(start, s.trace, k), sinks, k);
        AfterConcat(start, s.trace, LogCalls(sinks), k);
      case SetConfig(_) =>
    }
  }

  lemma EtwInit(s: State, stackOk: bool, outcomes: seq<bool>, k: nat)
    requires EtwInStep(s, k) && Count(s.sinks, k) <= 1
    ensures EtwInStep(AfterInit(s, stackOk, outcomes), k)
  {
    if !s.initialized && stackOk {
      var start := Registered(false);
      var n := Good(s.sinks, outcomes, 0);
      var up, down := InitCalls(s.sinks[..n]), DeinitCalls(s.sinks[..n]);
      assert multiset(s.sinks) == multiset(s.sinks[..n]) + multiset(s.sinks[n..]) by {
        assert s.sinks == s.sinks[..n] + s.sinks[n..];
      }
      EtwCalls(s.sinks[..n], k);
      AfterConcat(start, s.trace, up, k);
      if n == |s.sinks| {
        assert s.sinks[..n] == s.sinks;
      } else {
        var failed := [InitCall(s.sinks[n], false)];
        AfterConcat(start, s.trace + up, failed, k);
        AfterConcat(start, s.trace + up + failed, down, k);
        EtwRollback(s.sinks, n, k);
      }
    }
  }

  /** A failing sink and the deinits that undo the sinks before it. */
  lemma EtwRollback(sinks: seq<nat>, n: nat, k: nat)
    requires n < |sinks| && Count(sinks, k) <= 1
    ensures var e := AfterCalls(Registered(k in sinks[..n]), [InitCall(sinks[n], false)], k);
            AfterCalls(e, DeinitCalls(sinks[..n]), k) == Registered(false)
  {
    assert sinks == sinks[..n] + ([sinks[n]] + sinks[n + 1..]);
    var failed := [InitCall(sinks[n], false)];
    assert failed[..0] == [];
    assert AfterCalls(Registered(k in sinks[..n]), failed, k)
        == AfterCall(Registered(k in sinks[..n]), failed[0], k);
    EtwCalls(sinks[..n], k);
  }

  predicate EtwAllAllowed(s: State, qs: seq<Request>, k: nat)
    decreases qs
  {
    qs == [] || (EtwAllowed(s, qs[0], k) && EtwAllAllowed(Step(s, qs[0]), qs[1..], k))
  }

  /** Over every run with the sink in at most one slot, rollbacks included, it is never initialized
      while registered nor deinitialized while unregistered. */
  lemma {:induction false} EtwNeverMisused(s: State, qs: seq<Request>, k: nat)
    requires EtwInStep(s, k) && Count(s.sinks, k) <= 1 && EtwAllAllowed(s, qs, k)
    ensures EtwInStep(Run(s, qs), k)
    decreases qs
  {
    if qs != [] {
      StepKeepsEtw(s, qs[0], k);
      EtwNeverMisused(Step(s, qs[0]), qs[1..], k);
    }
  }

  /** log_sink_etw_init and log_sink_etw_deinit, which keep AfterCall's promise by refusing what would
      be misuse. */
  class EtwSink {
    var registered: bool

    constructor ()
      ensures !registered
    {
      registered := false;
    }

    method Init(registerOk: bool, ghost k: nat) returns (failed: bool)
      modifies this
      ensures failed <==> old(registered) || !registerOk
      ensures old(registered) ==> registered
      ensures !old(registered) ==>
                Registered(registered) == AfterCall(Registered(old(registered)), InitCall(k, !failed), k)
    {
      if registered || !registerOk {
        return true;
      }
      registered := true;
      return false;
    }

    method Deinit(ghost k: nat)
      modifies this
      ensures !registered
      ensures old(registered) ==>
                Registered(registered) == AfterCall(Registered(old(registered)), DeinitCall(k), k)
    {
      if registered {
        registered := false;
      }
    }
  }
}
