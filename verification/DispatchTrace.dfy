/** Dispatch tracing: dispatchers, fallthrough wrappers, Moto calls and the skeleton write one shared trace while a
    request runs; afterwards the trace is classified. */
module DispatchTrace {
  import opened Options

  datatype Entry = Entry(origin: string, handler: string, outcome: string)

  /** How a call ends: with a value, or with an exception of one of the kinds the handlers tell apart. */
  datatype Result =
    | Returned(value: Value)
    | NotImplemented(avoidFallback: bool)
    | ServiceException(code: int)
    | OtherException(id: int)

  /** `Rendered` is the HTTP response made from a result. */
  datatype Value = Plain(id: int) | Rendered(cause: Result)

  /** Calls that involve tracing. A `Forwarder` is a handler that writes no entry of its own. */
  datatype Call =
    | Dispatcher(origin: string, handler: string, body: Body)
    | Fallthrough(primary: Call, fallbackOrigin: string, handlerName: string, fallback: Call)
    | CallMoto(body: Body)
    | CallMotoWithRequest(body: Body)
    | Forwarder(body: Body)
    | Invoke(entry: Option<Call>)

  /** What runs inside a handler: calls in sequence, each outcome kind continuing its own way, and an end with a given
      result or with that of the last call. */
  datatype Body =
    | Finish(result: Result)
    | FinishLast
    | Do(call: Call, onReturned: Body, onNotImplemented: Body, onService: Body, onOther: Body)

  const STARTED := "started"
  const MOTO := "delegated:moto"
  const NOTHING := Returned(Plain(0))

  function OutcomeName(r: Result): string {
    match r
    case Returned(_) => "returned"
    case NotImplemented(_) => "not-implemented"
    case ServiceException(_) => "service-exception"
    case OtherException(_) => "error"
  }

  function Next(b: Body, r: Result): (n: Body)
    requires b.Do?
    ensures n < b
  {
    match r
    case Returned(_) => b.onReturned
    case NotImplemented(_) => b.onNotImplemented
    case ServiceException(_) => b.onService
    case OtherException(_) => b.onOther
  }

  predicate FallsThrough(r: Result) { r.NotImplemented? && !r.avoidFallback }

  /** `Skeleton.invoke` turns values, service exceptions and missing implementations into responses. */
  function Respond(r: Result): Result {
    if r.OtherException? then r else Returned(Rendered(r))
  }

  // ---------------------------------------------------------------- without a trace

  function Plainly(c: Call): Result {
    match c
    case Dispatcher(_, _, body) => PlainBody(body, NOTHING)
    case Fallthrough(primary, _, _, fallback) =>
      var r := Plainly(primary);
      if FallsThrough(r) then Plainly(fallback) else r
    case CallMoto(body) => PlainBody(body, NOTHING)
    case CallMotoWithRequest(body) => PlainBody(body, NOTHING)
    case Forwarder(body) => PlainBody(body, NOTHING)
    case Invoke(None) => Respond(NotImplemented(false))
    case Invoke(Some(c)) => Respond(Plainly(c))
  }

  function PlainBody(b: Body, last: Result): Result {
    match b
    case Finish(r) => r
    case FinishLast => last
    case Do(c, _, _, _, _) => var r := Plainly(c); PlainBody(Next(b, r), r)
  }

  // ---------------------------------------------------------------- with a trace

  function Started(t: seq<Entry>, origin: string, handler: string): seq<Entry> {
    t + [Entry(origin, handler, STARTED)]
  }

  function Finished(t: seq<Entry>, index: nat, outcome: string): seq<Entry>
    requires index < |t|
  {
    t[index := t[index].(outcome := outcome)]
  }

  /** The Moto entry of an enclosing call is still open and last, so no second one is made. */
  predicate MotoActive(t: seq<Entry>) {
    t != [] && t[|t| - 1].origin == MOTO && t[|t| - 1].outcome == STARTED
  }

  function Traced(c: Call, t: seq<Entry>): (o: (Result, seq<Entry>))
    ensures |t| <= |o.1|
    decreases c, 1
  {
    match c
    case Dispatcher(origin, handler, body) => InEntry(origin, handler, body, t)
    case Fallthrough(primary, origin, name, fallback) =>
      var (r, t1) := Traced(primary, t);
      if FallsThrough(r) then
        var (r2, t2) := Traced(fallback, Started(t1, "delegated:" + origin, name));
        (r2, Finished(t2, |t1|, OutcomeName(r2)))
      else (r, t1)
    case CallMoto(body) => if MotoActive(t) then TracedBody(body, NOTHING, t) else InEntry(MOTO, "call_moto", body, t)
    case CallMotoWithRequest(body) =>
      if MotoActive(t) then TracedBody(body, NOTHING, t) else InEntry(MOTO, "call_moto", body, t)
    case Forwarder(body) => TracedBody(body, NOTHING, t)
    case Invoke(None) => (Respond(NotImplemented(false)), t + [Entry("none", "dispatch-table", "missing")])
    case Invoke(Some(c)) => var (r, t1) := Traced(c, t); (Respond(r), t1)
  }

  function InEntry(origin: string, handler: string, body: Body, t: seq<Entry>): (o: (Result, seq<Entry>))
    ensures |t| < |o.1|
    decreases body, 1
  {
    var (r, t1) := TracedBody(body, NOTHING, Started(t, origin, handler));
    (r, Finished(t1, |t|, OutcomeName(r)))
  }

  function TracedBody(b: Body, last: Result, t: seq<Entry>): (o: (Result, seq<Entry>))
    ensures |t| <= |o.1|
    decreases b, 0
  {
    match b
    case Finish(r) => (r, t)
    case FinishLast => (last, t)
    case Do(c, _, _, _, _) => var (r, t1) := Traced(c, t); TracedBody(Next(b, r), r, t1)
  }

  // ---------------------------------------------------------------- transparency and closure

  /** Entries from `n` on are complete. */
  predicate ClosedFrom(t: seq<Entry>, n: nat) {
    forall i :: n <= i < |t| ==> t[i].outcome != STARTED
  }

  /** Tracing changes no outcome; earlier entries stay exactly as they are; and all new ones are complete. */
  ghost predicate Sound(o: (Result, seq<Entry>), plain: Result, t: seq<Entry>) {
    o.0 == plain && t <= o.1 && ClosedFrom(o.1, |t|)
  }

  lemma {:induction false} TracedIsSound(c: Call, t: seq<Entry>)
    ensures Sound(Traced(c, t), Plainly(c), t)
    decreases c, 1
  {
    match c {
      case Dispatcher(origin, handler, body) => EntryIsSound(origin, handler, body, t);
      case Fallthrough(primary, origin, name, fallback) =>
        TracedIsSound(primary, t);
        var (r, t1) := Traced(primary, t);
        if FallsThrough(r) {
          TracedIsSound(fallback, Started(t1, "delegated:" + origin, name));
        }
      case CallMoto(body) =>
        BodyIsSound(body, NOTHING, t);
        EntryIsSound(MOTO, "call_moto", body, t);
      case CallMotoWithRequest(body) =>
        BodyIsSound(body, NOTHING, t);
        EntryIsSound(MOTO, "call_moto", body, t);
      case Forwarder(body) => BodyIsSound(body, NOTHING, t);
      case Invoke(None) =>
      case Invoke(Some(c')) => TracedIsSound(c', t);
    }
  }

  /** The saved index still names the entry that was started: it is untouched when its own call finishes. */
  lemma {:induction false} EntryIsSound(origin: string, handler: string, body: Body, t: seq<Entry>)
    ensures Sound(InEntry(origin, handler, body, t), PlainBody(body, NOTHING), t)
    ensures TracedBody(body, NOTHING, Started(t, origin, handler)).1[|t|] == Entry(origin, handler, STARTED)
    ensures InEntry(origin, handler, body, t).1[|t|] == Entry(origin, handler, OutcomeName(PlainBody(body, NOTHING)))
    decreases body, 1
  {
    BodyIsSound(body, NOTHING, Started(t, origin, handler));
  }

  lemma {:induction false} BodyIsSound(b: Body, last: Result, t: seq<Entry>)
    ensures Sound(TracedBody(b, last, t), PlainBody(b, last), t)
    decreases b, 0
  {
    if b.Do? {
      TracedIsSound(b.call, t);
      var (r, t1) := Traced(b.call, t);
      BodyIsSound(Next(b, r), r, t1);
    }
  }

  // ---------------------------------------------------------------- classification

  function Origins(t: seq<Entry>): set<string> { set i | 0 <= i < |t| :: t[i].origin }
  function Outcomes(t: seq<Entry>): set<string> { set i | 0 <= i < |t| :: t[i].outcome }

  predicate Delegated(origin: string) { "delegated:" <= origin }

  /** `classify_dispatch_trace`. */
  function Classify(t: seq<Entry>): string {
    if t == [] then "invalid-observed"
    else if "error" in Outcomes(t) || STARTED in Outcomes(t) then "error-observed"
    else if "none" in Origins(t) || "missing" in Outcomes(t) then "missing-observed"
    else if exists o :: o in Origins(t) && Delegated(o) then "fallback-observed"
    else if "generated-mock" in Origins(t) then "mock-observed"
    else if "generated-stub" in Origins(t) || "not-implemented" in Outcomes(t) then "unsupported-observed"
    else if Origins(t) == {"native"} && Outcomes(t) <= {"returned", "service-exception"} then "native-observed"
    else "unknown-observed"
  }

  /** A step that ran, whether or not it left an entry. */
  datatype StepRun = StepRun(origin: string, outcome: string)

  /** All steps of a call, in order of their start, without any deduplication. */
  function Steps(c: Call): seq<StepRun>
    decreases c, 1
  {
    match c
    case Dispatcher(origin, _, body) => [StepRun(origin, OutcomeName(Plainly(c)))] + BodySteps(body)
    case Fallthrough(primary, origin, _, fallback) =>
      Steps(primary) +
      if FallsThrough(Plainly(primary))
      then [StepRun("delegated:" + origin, OutcomeName(Plainly(fallback)))] + Steps(fallback) else []
    case CallMoto(body) => [StepRun(MOTO, OutcomeName(Plainly(c)))] + BodySteps(body)
    case CallMotoWithRequest(body) => [StepRun(MOTO, OutcomeName(Plainly(c)))] + BodySteps(body)
    case Forwarder(body) => BodySteps(body)
    case Invoke(None) => [StepRun("none", "missing")]
    case Invoke(Some(c)) => Steps(c)
  }

  function BodySteps(b: Body): seq<StepRun>
    decreases b, 0
  {
    match b
    case Finish(_) => []
    case FinishLast => []
    case Do(c, _, _, _, _) => Steps(c) + BodySteps(Next(b, Plainly(c)))
  }

  /** `s` left one of the entries from `n` on. */
  predicate Recorded(t: seq<Entry>, n: nat, s: StepRun) {
    exists i :: n <= i < |t| && t[i].origin == s.origin && t[i].outcome == s.outcome
  }

  predicate MotoSeen(t: seq<Entry>) {
    exists i :: 0 <= i < |t| && t[i].origin == MOTO
  }

  /** The entries from `n` on are steps that ran, and a step without entry is a Moto step under a Moto entry. */
  ghost predicate Faithful(n: nat, t: seq<Entry>, steps: seq<StepRun>) {
    && (forall i :: n <= i < |t| ==> StepRun(t[i].origin, t[i].outcome) in steps)
    && (forall s :: s in steps ==> Recorded(t, n, s) || (s.origin == MOTO && MotoSeen(t)))
  }

  lemma FaithfulTogether(n: nat, t: seq<Entry>, t': seq<Entry>, steps: seq<StepRun>, steps': seq<StepRun>)
    requires n <= |t| && t <= t' && Faithful(n, t, steps) && Faithful(|t|, t', steps')
    ensures Faithful(n, t', steps + steps')
  {
  }

  /** Closing the entry of an enclosing step. */
  lemma FaithfulAround(n: nat, t: seq<Entry>, steps: seq<StepRun>, origin: string, outcome: string)
    requires n < |t| && t[n].origin == origin && Faithful(n + 1, t, steps)
    ensures Faithful(n, Finished(t, n, outcome), [StepRun(origin, outcome)] + steps)
  {
    var t' := Finished(t, n, outcome);
    forall i | n <= i < |t'| ensures StepRun(t'[i].origin, t'[i].outcome) in [StepRun(origin, outcome)] + steps {
      if i > n { assert StepRun(t[i].origin, t[i].outcome) in steps; }
    }
    forall s | s in [StepRun(origin, outcome)] + steps
      ensures Recorded(t', n, s) || (s.origin == MOTO && MotoSeen(t'))
    {
      if s in steps {
        if Recorded(t, n + 1, s) {
          var i :| n + 1 <= i < |t| && t[i].origin == s.origin && t[i].outcome == s.outcome;
          assert t'[i] == t[i];
        } else {
          var i :| 0 <= i < |t| && t[i].origin == MOTO;
          assert t'[i].origin == MOTO;
        }
      } else {
        assert t'[n].origin == s.origin && t'[n].outcome == s.outcome;
      }
    }
  }

  lemma {:induction false} TracedIsFaithful(c: Call, t: seq<Entry>)
    ensures Faithful(|t|, Traced(c, t).1, Steps(c))
    decreases c, 1
  {
    TracedIsSound(c, t);
    match c {
      case Dispatcher(origin, handler, body) => EntryIsFaithful(origin, handler, body, t);
      case Fallthrough(primary, origin, name, fallback) =>
        TracedIsSound(primary, t);
        TracedIsFaithful(primary, t);
        var (r, t1) := Traced(primary, t);
        if FallsThrough(r) {
          var t2 := Started(t1, "delegated:" + origin, name);
          TracedIsSound(fallback, t2);
          TracedIsFaithful(fallback, t2);
          var (r3, t3) := Traced(fallback, t2);
          FaithfulAround(|t1|, t3, Steps(fallback), "delegated:" + origin, OutcomeName(r3));
          FaithfulTogether(|t|, t1, Finished(t3, |t1|, OutcomeName(r3)), Steps(primary),
                           [StepRun("delegated:" + origin, OutcomeName(r3))] + Steps(fallback));
        }
      case CallMoto(body) => MotoIsFaithful(body, t);
      case CallMotoWithRequest(body) => MotoIsFaithful(body, t);
      case Forwarder(body) => BodyIsFaithful(body, NOTHING, t);
      case Invoke(None) =>
        assert Traced(c, t).1[|t|] == Entry("none", "dispatch-table", "missing");
      case Invoke(Some(c')) => TracedIsFaithful(c', t);
    }
  }

  lemma {:induction false} EntryIsFaithful(origin: string, handler: string, body: Body, t: seq<Entry>)
    ensures Faithful(|t|, InEntry(origin, handler, body, t).1,
                     [StepRun(origin, OutcomeName(PlainBody(body, NOTHING)))] + BodySteps(body))
    decreases body, 1
  {
    var t1 := Started(t, origin, handler);
    BodyIsSound(body, NOTHING, t1);
    BodyIsFaithful(body, NOTHING, t1);
    FaithfulAround(|t|, TracedBody(body, NOTHING, t1).1, BodySteps(body), origin,
                   OutcomeName(PlainBody(body, NOTHING)));
  }

  lemma {:induction false} MotoIsFaithful(body: Body, t: seq<Entry>)
    ensures Faithful(|t|, Traced(CallMoto(body), t).1, Steps(CallMoto(body)))
    decreases body, 2
  {
    if MotoActive(t) {
      BodyIsSound(body, NOTHING, t);
      BodyIsFaithful(body, NOTHING, t);
      var t' := TracedBody(body, NOTHING, t).1;
      assert t'[|t| - 1].origin == MOTO;
      assert MotoSeen(t');
    } else {
      EntryIsFaithful(MOTO, "call_moto", body, t);
    }
  }

  lemma {:induction false} BodyIsFaithful(b: Body, last: Result, t: seq<Entry>)
    ensures Faithful(|t|, TracedBody(b, last, t).1, BodySteps(b))
    decreases b, 0
  {
    if b.Do? {
      TracedIsSound(b.call, t);
      TracedIsFaithful(b.call, t);
      var (r, t1) := Traced(b.call, t);
      BodyIsSound(Next(b, r), r, t1);
      BodyIsFaithful(Next(b, r), r, t1);
      FaithfulTogether(|t|, t1, TracedBody(Next(b, r), r, t1).1, Steps(b.call), BodySteps(Next(b, r)));
    }
  }

  predicate NativeStep(s: StepRun) {
    s.origin == "native" && (s.outcome == "returned" || s.outcome == "service-exception")
  }

  lemma ClassifiedNative(t: seq<Entry>)
    ensures Classify(t) == "native-observed" <==>
              t != [] && forall i :: 0 <= i < |t| ==> NativeStep(StepRun(t[i].origin, t[i].outcome))
  {
    if t != [] && forall i :: 0 <= i < |t| ==> NativeStep(StepRun(t[i].origin, t[i].outcome)) {
      assert t[0].origin in Origins(t);
      assert Origins(t) == {"native"};
      assert !Delegated("native");
    }
    if Classify(t) == "native-observed" {
      forall i | 0 <= i < |t| ensures NativeStep(StepRun(t[i].origin, t[i].outcome)) {
        assert t[i].origin in Origins(t) && t[i].outcome in Outcomes(t);
      }
    }
  }

  /** A call traced from its start is classed native-observed exactly when something ran, every step was native, and
      every step returned or raised a service exception, although nested Moto calls leave no entries of their own. */
  lemma NativeObservedIsExact(c: Call)
    ensures Classify(Traced(c, []).1) == "native-observed" <==>
              Steps(c) != [] && forall i :: 0 <= i < |Steps(c)| ==> NativeStep(Steps(c)[i])
  {
    var t := Traced(c, []).1;
    TracedIsFaithful(c, []);
    ClassifiedNative(t);
    if Classify(t) == "native-observed" {
      assert StepRun(t[0].origin, t[0].outcome) in Steps(c);
      forall i | 0 <= i < |Steps(c)| ensures NativeStep(Steps(c)[i]) {
        assert Steps(c)[i] in Steps(c);
      }
    }
    if Steps(c) != [] { assert Steps(c)[0] in Steps(c); }
  }

  // ---------------------------------------------------------------- outcomes and classes, case by case

  /** The fallback runs exactly after a missing implementation that does not forbid it; any other result stands. */
  lemma FallbackRunsIff(primary: Call, origin: string, name: string, fallback: Call)
    ensures var r, all := Plainly(primary), Plainly(Fallthrough(primary, origin, name, fallback));
            && (r == NotImplemented(false) ==> all == Plainly(fallback))
            && (r == NotImplemented(true) || !r.NotImplemented? ==> all == r)
    ensures var r, t := Plainly(primary), Traced(primary, []).1;
            r != NotImplemented(false) ==> Traced(Fallthrough(primary, origin, name, fallback), []).1 == t
  {
    TracedIsSound(primary, []);
  }

  /** The entry of a handler says how it ended. */
  lemma EntryNamesOutcome(origin: string, handler: string, result: Result)
    ensures Traced(Dispatcher(origin, handler, Finish(result)), []) ==
              (result, [Entry(origin, handler, match result
                                               case Returned(_) => "returned"
                                               case NotImplemented(_) => "not-implemented"
                                               case ServiceException(_) => "service-exception"
                                               case OtherException(_) => "error")])
  {
    var t := Started([], origin, handler);
    assert t == [Entry(origin, handler, STARTED)];
    assert TracedBody(Finish(result), NOTHING, t) == (result, t);
    assert Finished(t, 0, OutcomeName(result)) == [Entry(origin, handler, OutcomeName(result))];
  }

  /** A request is always answered with a response, for a missing operation too, unless an unexpected exception
      leaves. */
  lemma InvokeResponds(entry: Option<Call>)
    ensures match entry
            case None => Plainly(Invoke(entry)) == Returned(Rendered(NotImplemented(false)))
            case Some(c) => Plainly(Invoke(entry)) ==
                              match Plainly(c) case OtherException(id) => OtherException(id)
                                               case r => Returned(Rendered(r))
  {
  }

  predicate SomeEntry(t: seq<Entry>, origin: string) { exists i :: 0 <= i < |t| && t[i].origin == origin }
  predicate SomeOutcome(t: seq<Entry>, outcome: string) { exists i :: 0 <= i < |t| && t[i].outcome == outcome }
  predicate SomeDelegated(t: seq<Entry>) { exists i :: 0 <= i < |t| && "delegated:" <= t[i].origin }

  /** The classes, entry by entry, and which of them wins. */
  lemma ClassesAre(t: seq<Entry>)
    ensures Classify(t) == "invalid-observed" <==> t == []
    ensures Classify(t) == "error-observed" <==> SomeOutcome(t, "error") || SomeOutcome(t, "started")
    ensures Classify(t) == "missing-observed" <==>
              !Failing(t) && (SomeEntry(t, "none") || SomeOutcome(t, "missing"))
    ensures Classify(t) == "fallback-observed" <==> !Failing(t) && !Missing(t) && SomeDelegated(t)
    ensures Classify(t) == "mock-observed" <==>
              !Failing(t) && !Missing(t) && !SomeDelegated(t) && SomeEntry(t, "generated-mock")
    ensures Classify(t) == "unsupported-observed" <==>
              !Failing(t) && !Missing(t) && !SomeDelegated(t) && !SomeEntry(t, "generated-mock") &&
              (SomeEntry(t, "generated-stub") || SomeOutcome(t, "not-implemented"))
  {
    EntriesAndSets(t);
  }

  predicate Failing(t: seq<Entry>) { SomeOutcome(t, "error") || SomeOutcome(t, "started") }
  predicate Missing(t: seq<Entry>) { SomeEntry(t, "none") || SomeOutcome(t, "missing") }

  lemma EntriesAndSets(t: seq<Entry>)
    ensures forall o :: o in Origins(t) <==> SomeEntry(t, o)
    ensures forall o :: o in Outcomes(t) <==> SomeOutcome(t, o)
    ensures SomeDelegated(t) <==> exists o :: o in Origins(t) && Delegated(o)
  {
    if SomeDelegated(t) {
      var i :| 0 <= i < |t| && "delegated:" <= t[i].origin;
      assert t[i].origin in Origins(t) && Delegated(t[i].origin);
    }
    if o :| o in Origins(t) && Delegated(o) {
      var i :| 0 <= i < |t| && t[i].origin == o;
    }
  }

  // ---------------------------------------------------------------- what exactly is recorded

  /** The entries a call leaves; `active` says that the last entry before it is an open Moto entry. A Moto step leaves
      none exactly while that is so, and any entry ends it. */
  function Logged(c: Call, active: bool): seq<Entry>
    decreases c, 1
  {
    match c
    case Dispatcher(origin, handler, body) =>
      [Entry(origin, handler, OutcomeName(Plainly(c)))] + LoggedBody(body, origin == MOTO)
    case Fallthrough(primary, origin, name, fallback) =>
      Logged(primary, active) +
      if FallsThrough(Plainly(primary))
      then [Entry("delegated:" + origin, name, OutcomeName(Plainly(fallback)))] +
           Logged(fallback, "delegated:" + origin == MOTO)
      else []
    case CallMoto(body) => MotoEntry(c, active) + LoggedBody(body, true)
    case CallMotoWithRequest(body) => MotoEntry(c, active) + LoggedBody(body, true)
    case Forwarder(body) => LoggedBody(body, active)
    case Invoke(None) => [Entry("none", "dispatch-table", "missing")]
    case Invoke(Some(c)) => Logged(c, active)
  }

  function MotoEntry(c: Call, active: bool): seq<Entry> {
    if active then [] else [Entry(MOTO, "call_moto", OutcomeName(Plainly(c)))]
  }

  function LoggedBody(b: Body, active: bool): seq<Entry>
    decreases b, 0
  {
    match b
    case Finish(_) => []
    case FinishLast => []
    case Do(c, _, _, _, _) =>
      var log := Logged(c, active);
      log + LoggedBody(Next(b, Plainly(c)), active && log == [])
  }

  lemma LogFinished(t: seq<Entry>, log: seq<Entry>, e: Entry, outcome: string)
    ensures Finished((t + [e]) + log, |t|, outcome) == t + ([e.(outcome := outcome)] + log)
  {
  }

  lemma JoinAssociates(a: seq<Entry>, b: seq<Entry>, c: seq<Entry>)
    ensures (a + b) + c == a + (b + c)
  {
  }

  /** After a call the open Moto entry is last only if it was before and nothing was recorded. */
  lemma ActiveAfter(c: Call, t: seq<Entry>, log: seq<Entry>)
    requires Traced(c, t).1 == t + log
    ensures MotoActive(t + log) == (MotoActive(t) && log == [])
  {
    TracedIsSound(c, t);
    if log == [] { assert t + log == t; }
  }

  /** The trace of a call is known from the call alone, entry by entry. */
  lemma {:induction false} TraceIsLog(c: Call, t: seq<Entry>)
    ensures Traced(c, t).1 == t + Logged(c, MotoActive(t))
    decreases c, 1
  {
    match c {
      case Dispatcher(origin, handler, body) => EntryIsLog(origin, handler, body, t);
      case Fallthrough(primary, origin, name, fallback) => FallthroughIsLog(primary, origin, name, fallback, t);
      case CallMoto(body) => MotoIsLog(body, t);
      case CallMotoWithRequest(body) => MotoIsLog(body, t);
      case Forwarder(body) => BodyIsLog(body, NOTHING, t);
      case Invoke(None) =>
      case Invoke(Some(c')) => TraceIsLog(c', t);
    }
  }

  lemma {:induction false} FallthroughIsLog(primary: Call, origin: string, name: string, fallback: Call, t: seq<Entry>)
    ensures var c := Fallthrough(primary, origin, name, fallback); Traced(c, t).1 == t + Logged(c, MotoActive(t))
    decreases Fallthrough(primary, origin, name, fallback), 0
  {
    TracedIsSound(primary, t);
    TraceIsLog(primary, t);
    var (r, t1) := Traced(primary, t);
    var log := Logged(primary, MotoActive(t));
    if FallsThrough(r) {
      var e := Entry("delegated:" + origin, name, STARTED);
      TracedIsSound(fallback, t1 + [e]);
      TraceIsLog(fallback, t1 + [e]);
      assert MotoActive(t1 + [e]) == ("delegated:" + origin == MOTO);
      var inner, outcome := Logged(fallback, MotoActive(t1 + [e])), OutcomeName(Plainly(fallback));
      LogFinished(t1, inner, e, outcome);
      JoinAssociates(t, log, [e.(outcome := outcome)] + inner);
    } else {
      assert log + [] == log;
    }
  }

  lemma {:induction false} EntryIsLog(origin: string, handler: string, body: Body, t: seq<Entry>)
    ensures InEntry(origin, handler, body, t).1 ==
              t + ([Entry(origin, handler, OutcomeName(PlainBody(body, NOTHING)))] + LoggedBody(body, origin == MOTO))
    decreases body, 1
  {
    var e := Entry(origin, handler, STARTED);
    BodyIsSound(body, NOTHING, t + [e]);
    BodyIsLog(body, NOTHING, t + [e]);
    assert MotoActive(t + [e]) == (origin == MOTO);
    LogFinished(t, LoggedBody(body, origin == MOTO), e, OutcomeName(PlainBody(body, NOTHING)));
  }

  lemma {:induction false} MotoIsLog(body: Body, t: seq<Entry>)
    ensures Traced(CallMoto(body), t).1 == t + (MotoEntry(CallMoto(body), MotoActive(t)) + LoggedBody(body, true))
    decreases body, 2
  {
    if MotoActive(t) {
      BodyIsLog(body, NOTHING, t);
      assert [] + LoggedBody(body, true) == LoggedBody(body, true);
    } else {
      EntryIsLog(MOTO, "call_moto", body, t);
    }
  }

  lemma {:induction false} BodyIsLog(b: Body, last: Result, t: seq<Entry>)
    ensures TracedBody(b, last, t).1 == t + LoggedBody(b, MotoActive(t))
    decreases b, 0
  {
    if b.Do? {
      TracedIsSound(b.call, t);
      TraceIsLog(b.call, t);
      var log := Logged(b.call, MotoActive(t));
      ActiveAfter(b.call, t, log);
      var r := Plainly(b.call);
      BodyIsLog(Next(b, r), r, t + log);
      JoinAssociates(t, log, LoggedBody(Next(b, r), MotoActive(t + log)));
    }
  }

  // ---------------------------------------------------------------- what deduplication hides

  /** The Moto steps of a call that run while an open Moto entry is the last one. */
  function Hidden(c: Call, active: bool): seq<StepRun>
    decreases c, 1
  {
    match c
    case Dispatcher(origin, _, body) => HiddenBody(body, origin == MOTO)
    case Fallthrough(primary, origin, _, fallback) =>
      Hidden(primary, active) +
      if FallsThrough(Plainly(primary)) then Hidden(fallback, "delegated:" + origin == MOTO) else []
    case CallMoto(body) => HiddenMoto(c, active) + HiddenBody(body, true)
    case CallMotoWithRequest(body) => HiddenMoto(c, active) + HiddenBody(body, true)
    case Forwarder(body) => HiddenBody(body, active)
    case Invoke(None) => []
    case Invoke(Some(c)) => Hidden(c, active)
  }

  function HiddenMoto(c: Call, active: bool): seq<StepRun> {
    if active then [StepRun(MOTO, OutcomeName(Plainly(c)))] else []
  }

  function HiddenBody(b: Body, active: bool): seq<StepRun>
    decreases b, 0
  {
    match b
    case Finish(_) => []
    case FinishLast => []
    case Do(c, _, _, _, _) => Hidden(c, active) + HiddenBody(Next(b, Plainly(c)), active && Logged(c, active) == [])
  }

  /** The steps that entries stand for. */
  function StepsOf(log: seq<Entry>): seq<StepRun> {
    if log == [] then [] else [StepRun(log[0].origin, log[0].outcome)] + StepsOf(log[1..])
  }

  lemma {:induction false} StepsOfJoin(a: seq<Entry>, b: seq<Entry>)
    ensures StepsOf(a + b) == StepsOf(a) + StepsOf(b)
  {
    if a == [] {
      assert a + b == b;
    } else {
      assert (a + b)[1..] == a[1..] + b;
      StepsOfJoin(a[1..], b);
    }
  }

  ghost predicate Split(steps: seq<StepRun>, log: seq<Entry>, hidden: seq<StepRun>) {
    && |steps| == |log| + |hidden|
    && forall s :: s in steps <==> s in StepsOf(log) || s in hidden
  }

  lemma SplitTogether(a: seq<StepRun>, l: seq<Entry>, h: seq<StepRun>, a': seq<StepRun>, l': seq<Entry>,
                      h': seq<StepRun>)
    requires Split(a, l, h) && Split(a', l', h')
    ensures Split(a + a', l + l', h + h')
  {
    StepsOfJoin(l, l');
  }

  /** A step that leaves an entry, before others. */
  lemma SplitLogged(e: Entry, steps: seq<StepRun>, log: seq<Entry>, hidden: seq<StepRun>)
    requires Split(steps, log, hidden)
    ensures Split([StepRun(e.origin, e.outcome)] + steps, [e] + log, hidden)
  {
    assert ([e] + log)[1..] == log;
  }

  lemma SplitHidden(s: StepRun, steps: seq<StepRun>, log: seq<Entry>, hidden: seq<StepRun>)
    requires Split(steps, log, hidden)
    ensures Split([s] + steps, log, [s] + hidden)
  {
  }

  /** Every step either leaves an entry or is hidden, and none does both. */
  lemma {:induction false} StepsSplit(c: Call, active: bool)
    ensures Split(Steps(c), Logged(c, active), Hidden(c, active))
    decreases c, 1
  {
    match c {
      case Dispatcher(origin, handler, body) =>
        BodySplit(body, origin == MOTO);
        SplitLogged(Entry(origin, handler, OutcomeName(Plainly(c))),
                    BodySteps(body), LoggedBody(body, origin == MOTO), HiddenBody(body, origin == MOTO));
      case Fallthrough(primary, origin, name, fallback) => FallthroughSplit(primary, origin, name, fallback, active);
      case CallMoto(body) => MotoSplit(c, body, active);
      case CallMotoWithRequest(body) => MotoSplit(c, body, active);
      case Forwarder(body) => BodySplit(body, active);
      case Invoke(None) => SplitLogged(Entry("none", "dispatch-table", "missing"), [], [], []);
      case Invoke(Some(c')) => StepsSplit(c', active);
    }
  }

  lemma {:induction false} FallthroughSplit(primary: Call, origin: string, name: string, fallback: Call, active: bool)
    ensures var c := Fallthrough(primary, origin, name, fallback); Split(Steps(c), Logged(c, active), Hidden(c, active))
    decreases Fallthrough(primary, origin, name, fallback), 0
  {
    StepsSplit(primary, active);
    if FallsThrough(Plainly(primary)) {
      var inner := "delegated:" + origin == MOTO;
      StepsSplit(fallback, inner);
      var e := Entry("delegated:" + origin, name, OutcomeName(Plainly(fallback)));
      SplitLogged(e, Steps(fallback), Logged(fallback, inner), Hidden(fallback, inner));
      SplitTogether(Steps(primary), Logged(primary, active), Hidden(primary, active),
                    [StepRun(e.origin, e.outcome)] + Steps(fallback), 
                    [e] + Logged(fallback, inner), Hidden(fallback, inner));
    } else {
      SplitTogether(Steps(primary), Logged(primary, active), Hidden(primary, active), [], [], []);
    }
  }

  lemma {:induction false} MotoSplit(c: Call, body: Body, active: bool)
    ensures Split([StepRun(MOTO, OutcomeName(Plainly(c)))] + BodySteps(body),
                  MotoEntry(c, active) + LoggedBody(body, true),
                  HiddenMoto(c, active) + HiddenBody(body, true))
    decreases body, 2
  {
    BodySplit(body, true);
    var log, hidden := LoggedBody(body, true), HiddenBody(body, true);
    if active {
      SplitHidden(StepRun(MOTO, OutcomeName(Plainly(c))), BodySteps(body), log, hidden);
      assert [] + log == log;
    } else {
      SplitLogged(Entry(MOTO, "call_moto", OutcomeName(Plainly(c))), BodySteps(body), log, hidden);
      assert [] + hidden == hidden;
    }
  }

  lemma {:induction false} BodySplit(b: Body, active: bool)
    ensures Split(BodySteps(b), LoggedBody(b, active), HiddenBody(b, active))
    decreases b, 0
  {
    if b.Do? {
      StepsSplit(b.call, active);
      var r := Plainly(b.call);
      var active' := active && Logged(b.call, active) == [];
      BodySplit(Next(b, r), active');
      SplitTogether(Steps(b.call), Logged(b.call, active), Hidden(b.call, active),
                    BodySteps(Next(b, r)), LoggedBody(Next(b, r), active'), HiddenBody(Next(b, r), active'));
    }
  }

  ghost predicate SomeErrs(steps: seq<StepRun>) {
    exists s :: s in steps && s.outcome == "error"
  }

  lemma SplitErrs(steps: seq<StepRun>, log: seq<Entry>, hidden: seq<StepRun>)
    requires Split(steps, log, hidden)
    ensures SomeErrs(steps) <==> SomeErrs(StepsOf(log)) || SomeErrs(hidden)
  {
  }

  lemma {:induction false} StepsOfAt(log: seq<Entry>)
    ensures |StepsOf(log)| == |log|
    ensures forall i :: 0 <= i < |log| ==> StepsOf(log)[i] == StepRun(log[i].origin, log[i].outcome)
  {
    if log != [] { StepsOfAt(log[1..]); }
  }

  lemma ErrorObservedFromLog(c: Call)
    ensures Classify(Traced(c, []).1) == "error-observed" <==> SomeErrs(StepsOf(Logged(c, false)))
  {
    TracedIsSound(c, []);
    TraceIsLog(c, []);
    assert [] + Logged(c, false) == Logged(c, false);
    ErrorClass(Logged(c, false));
  }

  lemma ErrorClass(t: seq<Entry>)
    requires ClosedFrom(t, 0)
    ensures Classify(t) == "error-observed" <==> SomeErrs(StepsOf(t))
  {
    StepsOfAt(t);
    if Classify(t) == "error-observed" {
      var i :| 0 <= i < |t| && (t[i].outcome == "error" || t[i].outcome == STARTED);
      assert StepsOf(t)[i].outcome == "error";
    }
    if s :| s in StepsOf(t) && s.outcome == "error" {
      var i :| 0 <= i < |t| && StepsOf(t)[i] == s;
      assert t[i].outcome in Outcomes(t);
    }
  }

  /** That the error class says whether some step ended in an error holds exactly for the calls in which no hidden step
      did, or another step did too. */
  lemma ErrorObservedIsExact(c: Call)
    ensures (Classify(Traced(c, []).1) == "error-observed" <==> SomeErrs(Steps(c))) <==>
              (!SomeErrs(Hidden(c, false)) || SomeErrs(StepsOf(Logged(c, false))))
  {
    ErrorObservedFromLog(c);
    StepsSplit(c, false);
    SplitErrs(Steps(c), Logged(c, false), Hidden(c, false));
  }

  /** An error class always has an error step behind it, and an error of any but a Moto step always shows. */
  lemma ErrorObservedBounds(c: Call)
    ensures Classify(Traced(c, []).1) == "error-observed" ==> exists s :: s in Steps(c) && s.outcome == "error"
    ensures (exists s :: s in Steps(c) && s.outcome == "error" && s.origin != MOTO) ==>
             Classify(Traced(c, []).1) == "error-observed"
  {
    var t := Traced(c, []).1;
    TracedIsSound(c, []);
    TracedIsFaithful(c, []);
    if Classify(t) == "error-observed" {
      var i :| 0 <= i < |t| && (t[i].outcome == "error" || t[i].outcome == STARTED);
      assert StepRun(t[i].origin, t[i].outcome) in Steps(c);
    }
    if s :| s in Steps(c) && s.outcome == "error" && s.origin != MOTO {
      var i :| 0 <= i < |t| && t[i].origin == s.origin && t[i].outcome == s.outcome;
      assert t[i].outcome in Outcomes(t);
    }
  }

  /** A provider that is not implemented, with a fallback called "moto" whose forwarder calls Moto, catches the error
      and answers by itself. */
  const SWALLOWING: Call :=
    Fallthrough(Dispatcher("native", "provider", Finish(NotImplemented(false))), "moto", "forward",
                Forwarder(Do(CallMoto(Finish(OtherException(1))), FinishLast, FinishLast, FinishLast, Finish(NOTHING))))

  /** A Moto error can be missed: caught under an open Moto entry, it leaves no entry of its own. */
  lemma DeduplicationHidesErrors()
    ensures SomeErrs(Steps(SWALLOWING)) && SomeErrs(Hidden(SWALLOWING, false))
    ensures Classify(Traced(SWALLOWING, []).1) == "fallback-observed"
  {
    var moto := CallMoto(Finish(OtherException(1)));
    var body := Do(moto, FinishLast, FinishLast, FinishLast, Finish(NOTHING));
    assert "delegated:" + "moto" == MOTO;
    assert Plainly(moto) == OtherException(1);
    assert Next(body, OtherException(1)) == Finish(NOTHING);
    assert Hidden(moto, true) == [StepRun(MOTO, "error")] + [];
    assert HiddenBody(body, true) == Hidden(moto, true) + HiddenBody(Finish(NOTHING), true && Logged(moto, true) == []);
    assert Hidden(SWALLOWING, false)[0] == StepRun(MOTO, "error");
    StepsSplit(SWALLOWING, false);
    SplitErrs(Steps(SWALLOWING), Logged(SWALLOWING, false), Hidden(SWALLOWING, false));
    assert Logged(moto, true) == [] + [];
    assert LoggedBody(body, true) == [];
    TraceIsLog(SWALLOWING, []);
    var t := [Entry("native", "provider", "not-implemented"), Entry(MOTO, "forward", "returned")];
    assert Logged(SWALLOWING, false) == t;
    assert Traced(SWALLOWING, []).1 == t;
    SwallowedClass(t);
  }

  lemma SwallowedClass(t: seq<Entry>)
    requires t == [Entry("native", "provider", "not-implemented"), Entry(MOTO, "forward", "returned")]
    ensures Classify(t) == "fallback-observed"
  {
    assert t[1].origin in Origins(t) && Delegated(MOTO);
  }

  // ---------------------------------------------------------------- the code, on shared trace objects

  /** The request-local list; several contexts of one request may refer to it. */
  class Trace {
    var entries: seq<Entry>
    constructor () ensures entries == [] { entries := []; }
  }

  class RequestContext {
    var trace: Trace?
    constructor () ensures trace == null { trace := null; }
  }

  /** What a context's calls may write to. */
  function Sink(trace: Trace?): set<Trace> {
    if trace == null then {} else {trace}
  }

  /** `enable_dispatch_trace`. */
  method EnableDispatchTrace(context: RequestContext) returns (trace: Trace)
    modifies context
    ensures context.trace == trace
    ensures old(context.trace) != null ==> trace == old(context.trace)
    ensures old(context.trace) == null ==> fresh(trace) && trace.entries == []
  {
    if context.trace == null { context.trace := new Trace(); }
    trace := context.trace;
  }

  /** `share_dispatch_trace`: the rewritten context appends to the same list. */
  method ShareDispatchTrace(source: RequestContext, target: RequestContext)
    modifies target
    ensures target.trace == if source.trace != null then source.trace else old(target.trace)
  {
    if source.trace != null { target.trace := source.trace; }
  }

  method StartDispatch(context: RequestContext, origin: string, handler: string, deduplicateActiveOrigin: bool)
    returns (index: Option<nat>)
    modifies Sink(context.trace)
    ensures context.trace == null ==> index.None?
    ensures context.trace != null ==>
              var old' := old(context.trace.entries);
              if deduplicateActiveOrigin && old' != [] && old'[|old'| - 1].origin == origin &&
                  old'[|old'| - 1].outcome == STARTED
              then index.None? && context.trace.entries == old'
              else index == Some(|old'|) && context.trace.entries == Started(old', origin, handler)
  {
    var trace := context.trace;
    if trace == null { return None; }
    if deduplicateActiveOrigin && trace.entries != [] {
      var last := trace.entries[|trace.entries| - 1];
      if last.origin == origin && last.outcome == STARTED { return None; }
    }
    trace.entries := trace.entries + [Entry(origin, handler, STARTED)];
    index := Some(|trace.entries| - 1);
  }

  method FinishDispatch(context: RequestContext, index: Option<nat>, outcome: string)
    requires index.Some? && context.trace != null ==> index.value < |context.trace.entries|
    modifies Sink(context.trace)
    ensures context.trace != null && index.None? ==> context.trace.entries == old(context.trace.entries)
    ensures context.trace != null && index.Some? ==>
              context.trace.entries == Finished(old(context.trace.entries), index.value, outcome)
  {
    if index.Some? && context.trace != null {
      var i := index.value;
      context.trace.entries := context.trace.entries[i := context.trace.entries[i].(outcome := outcome)];
    }
  }

  /** `ServiceRequestDispatcher.__call__`, the wrapper of `_wrap_with_fallthrough`, `call_moto`,
      `call_moto_with_request` and `Skeleton.invoke`, as they call each other on one trace. */
  method Execute(c: Call, context: RequestContext) returns (r: Result)
    modifies Sink(context.trace)
    ensures context.trace == null ==> r == Plainly(c)
    ensures context.trace != null ==> (r, context.trace.entries) == Traced(c, old(context.trace.entries))
    decreases c, 1
  {
    match c {
      case Dispatcher(origin, handler, body) =>
        if context.trace == null {
          r := ExecuteBody(body, NOTHING, context);
        } else {
          r := ExecuteInEntry(origin, handler, body, context, false);
        }
      case Fallthrough(primary, origin, name, fallback) =>
        r := Execute(primary, context);
        if !FallsThrough(r) { return; }
        if context.trace == null {
          r := Execute(fallback, context);
        } else {
          var index := StartDispatch(context, "delegated:" + origin, name, false);
          r := Execute(fallback, context);
          FinishDispatch(context, index, OutcomeName(r));
        }
      case CallMoto(body) =>
        r := ExecuteMoto(body, context);
      case CallMotoWithRequest(body) =>
        var rewritten := new RequestContext();
        ShareDispatchTrace(context, rewritten);
        r := ExecuteMoto(body, rewritten);
      case Forwarder(body) =>
        r := ExecuteBody(body, NOTHING, context);
      case Invoke(None) =>
        var index := StartDispatch(context, "none", "dispatch-table", false);
        FinishDispatch(context, index, "missing");
        if context.trace != null {
          assert context.trace.entries == old(context.trace.entries) + [Entry("none", "dispatch-table", "missing")];
        }
        r := Respond(NotImplemented(false));
      case Invoke(Some(entry)) =>
        r := Execute(entry, context);
        r := Respond(r);
    }
  }

  method ExecuteMoto(body: Body, context: RequestContext) returns (r: Result)
    modifies Sink(context.trace)
    ensures context.trace == null ==> r == Plainly(CallMoto(body))
    ensures context.trace != null ==> (r, context.trace.entries) == Traced(CallMoto(body), old(context.trace.entries))
    decreases body, 2
  {
    if context.trace == null {
      r := ExecuteBody(body, NOTHING, context);
    } else {
      r := ExecuteInEntry(MOTO, "call_moto", body, context, true);
    }
  }

  /** Start an entry, run the handler, and finish the entry on every way out. */
  method ExecuteInEntry(origin: string, handler: string, body: Body, context: RequestContext, deduplicate: bool)
    returns (r: Result)
    requires context.trace != null && (deduplicate ==> origin == MOTO)
    modifies context.trace
    ensures (r, context.trace.entries) ==
              if deduplicate && MotoActive(old(context.trace.entries))
              then TracedBody(body, NOTHING, old(context.trace.entries))
              else InEntry(origin, handler, body, old(context.trace.entries))
    decreases body, 1
  {
    var index := StartDispatch(context, origin, handler, deduplicate);
    r := ExecuteBody(body, NOTHING, context);
    FinishDispatch(context, index, OutcomeName(r));
  }

  method ExecuteBody(b: Body, last: Result, context: RequestContext) returns (r: Result)
    modifies Sink(context.trace)
    ensures context.trace == null ==> r == PlainBody(b, last)
    ensures context.trace != null ==> (r, context.trace.entries) == TracedBody(b, last, old(context.trace.entries))
    decreases b, 0
  {
    match b {
      case Finish(result) => r := result;
      case FinishLast => r := last;
      case Do(c, _, _, _, _) =>
        r := Execute(c, context);
        r := ExecuteBody(Next(b, r), r, context);
    }
  }
}
