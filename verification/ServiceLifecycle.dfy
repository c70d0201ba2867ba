/** The lifecycle of a service under sequences of manager calls. */
module ServiceLifecycle {
  import opened Options

  datatype State = Unknown | Available | Disabled | Starting | Running | Stopping | Stopped | Error

  /** How a hook of the service ends: normally, with an exception, or with one that no handler here catches (an
      interrupt). */
  datatype Hook = Fine | Raises(error: string) | Interrupted

  datatype Outcome = Service | True | False | Nothing | ServiceDisabled | TimeoutError | StateException
                   | Raised(error: string) | Interrupt

  /** A manager call on an existing service, with what the hooks will do if they are reached. */
  datatype Call = Require(start: Hook, check: Hook) | Check(hook: Hook) | Stop(hook: Hook)

  /** The state of a service together with its recorded errors. */
  datatype Status = Status(state: State, errors: seq<string>) {
    predicate Sound() { state == Error ==> errors != [] }
  }

  /** What other threads may have made of the service when a wait is over and the next line is reached: any state, with
      an error recorded if it is an error, and errors are never forgotten. */
  predicate Awaited(state: State, errors: seq<string>, started: Option<Status>, stopped: Option<Status>) {
    && (started.Some? ==> started.value.Sound() && errors <= started.value.errors)
    && (stopped.Some? ==> stopped.value.Sound() && errors <= stopped.value.errors)
    && (started.Some? && stopped.Some? && state == Starting ==> started.value.errors <= stopped.value.errors)
  }

  /** The state found under the lock, after the waits; none if one of them timed out. */
  function Found(state: State, started: Option<Status>, stopped: Option<Status>): Option<State> {
    var first := if state != Starting then Some(state) else if started.None? then None else Some(started.value.state);
    if first != Some(Stopping) then first else if stopped.None? then None else Some(stopped.value.state)
  }

  /** `ServiceContainer`, with the states `start` was called in. */
  class ServiceContainer {
    var state: State
    var errors: seq<string>
    ghost var startedIn: seq<State>

    constructor (enabled: bool)
      ensures Sound() && state == (if enabled then Available else Disabled) && errors == [] && startedIn == []
    {
      state, errors, startedIn := if enabled then Available else Disabled, [], [];
    }

    /** An error state has an error to show, and starting happens from two states only. */
    ghost predicate Sound()
      reads this
    {
      && (state == Error ==> errors != [])
      && forall i :: 0 <= i < |startedIn| ==> startedIn[i] == Available || startedIn[i] == Stopped
    }

    method Start(start: Hook, check: Hook) returns (r: Outcome)
      requires Sound() && (state == Available || state == Stopped)
      modifies this
      ensures Sound() && old(errors) <= errors && startedIn == old(startedIn) + [old(state)]
      ensures r == True <==> start == Fine && check == Fine
      ensures r == Interrupt <==> start == Interrupted || (start == Fine && check == Interrupted)
      ensures r == True || r == False || r == Interrupt
      ensures state == if r == True then Running else if r == False then Error else Starting
      ensures r == False ==> errors == old(errors) + [if start.Raises? then start.error else check.error]
      ensures r != False ==> errors == old(errors)
    {
      startedIn := startedIn + [state];
      state := Starting;
      match start {
        case Raises(error) =>
          state, errors := Error, errors + [error];
          return False;
        case Interrupted =>
          return Interrupt;
        case Fine =>
      }
      r := CheckService(check);
    }

    method CheckService(check: Hook) returns (r: Outcome)
      requires Sound()
      modifies this`state, this`errors
      ensures Sound()
      ensures check == Fine ==> r == True && state == Running && errors == old(errors)
      ensures check.Raises? ==> r == False && state == Error && errors == old(errors) + [check.error]
      ensures check == Interrupted ==> r == Interrupt && state == old(state) && errors == old(errors)
    {
      match check {
        case Fine =>
          state := Running;
          r := True;
        case Raises(error) =>
          state, errors := Error, errors + [error];
          r := False;
        case Interrupted =>
          r := Interrupt;
      }
    }

    method StopService(hook: Hook) returns (r: Outcome)
      requires Sound()
      modifies this`state, this`errors
      ensures Sound()
      ensures hook == Fine ==> r == Nothing && state == Stopped && errors == old(errors)
      ensures hook.Raises? ==> r == Nothing && state == Error && errors == old(errors) + [hook.error]
      ensures hook == Interrupted ==> r == Interrupt && state == Stopping && errors == old(errors)
    {
      state := Stopping;
      match hook {
        case Fine =>
          state := Stopped;
          r := Nothing;
        case Raises(error) =>
          state, errors := Error, errors + [error];
          r := Nothing;
        case Interrupted =>
          r := Interrupt;
      }
    }

    /** Another thread has moved the service while this one waited. */
    method Moved(to: Status)
      requires to.Sound() && errors <= to.errors
      modifies this`state, this`errors
      ensures state == to.state && errors == to.errors
    {
      state, errors := to.state, to.errors;
    }

    /** The part of `require` under the container's lock. The last error is always there to be raised, and a service
        is returned only when it is running. */
    method RequireLocked(start: Hook, check: Hook) returns (r: Outcome)
      requires Sound()
      modifies this
      ensures Sound() && old(errors) <= errors && old(startedIn) <= startedIn
      ensures Allowed(old(state), Require(start, check), state) && (r == Service <==> state == Running)
      ensures r == Service <==>
                old(state) == Running ||
                    ((old(state) == Available || old(state) == Stopped) && start == Fine && check == Fine)
      ensures r.Raised? <==> state == Error
      ensures r.Raised? ==> r.error == errors[|errors| - 1]
      ensures r != TimeoutError && (r == ServiceDisabled <==> old(state) == Disabled)
      ensures old(state) != Available && old(state) != Stopped ==>
                state == old(state) && errors == old(errors) && startedIn == old(startedIn)
    {
      if state == Disabled { return ServiceDisabled; }
      if state == Running { return Service; }
      if state == Error { return Raised(errors[|errors| - 1]); }
      if state == Available || state == Stopped {
        var answer := Start(start, check);
        if answer == True { return Service; }
        if answer == Interrupt { return Interrupt; }
        return Raised(errors[|errors| - 1]);
      }
      r := StateException;
    }

    /** `ServiceManager.require`. A wait for a service that is starting or stopping ends with the state that other
        threads have brought it to, or not at all. Still a service is returned only when it is running. */
    method RequireService(start: Hook, check: Hook, started: Option<Status>, stopped: Option<Status>)
      returns (r: Outcome)
      requires Sound() && Awaited(state, errors, started, stopped)
      modifies this
      ensures Sound() && old(errors) <= errors && old(startedIn) <= startedIn
      ensures r == Service ==> state == Running
      ensures r.Raised? ==> state == Error && r.error == errors[|errors| - 1]
      ensures match Found(old(state), started, stopped)
              case None => r == TimeoutError && (state == Starting || state == Stopping) && startedIn == old(startedIn)
              case Some(s) =>
                && Allowed(s, Require(start, check), state)
                && (r == Service <==> state == Running) && (r.Raised? <==> state == Error)
                && (r == ServiceDisabled <==> s == Disabled)
                && (s != Available && s != Stopped ==> startedIn == old(startedIn))
      ensures started.None? && stopped.None? ==> Allowed(old(state), Require(start, check), state)
      ensures (started.None? && stopped.None?) || (old(state) != Starting && old(state) != Stopping) ==>
                old(state) == Available || old(state) == Stopped ||
                (state == old(state) && errors == old(errors) && startedIn == old(startedIn))
    {
      if state == Starting {
        if started.None? { return TimeoutError; }
        Moved(started.value);
      }
      if state == Stopping {
        if stopped.None? { return TimeoutError; }
        Moved(stopped.value);
      }
      r := RequireLocked(start, check);
    }

    /** One manager call: `require`, `check` (only of running or failed services) or stopping (only of starting or
        running ones). */
    method Perform(call: Call) returns (r: Outcome)
      requires Sound()
      modifies this
      ensures Sound() && old(errors) <= errors
      ensures Allowed(old(state), call, state)
      ensures r == Service ==> state == Running
      ensures call.Check? && (old(state) == Running || old(state) == Error) ==>
                r == if call.hook.Raises? then False else if call.hook == Fine then True else Interrupt
      ensures call.Check? && old(state) != Running && old(state) != Error ==> r == Nothing
      ensures call.Stop? && call.hook != Interrupted ==> r == Nothing
    {
      match call {
        case Require(start, check) =>
          r := RequireService(start, check, None, None);
        case Check(hook) =>
          r := Nothing;
          if state == Running || state == Error { r := CheckService(hook); }
        case Stop(hook) =>
          r := Nothing;
          if state == Starting || state == Running { r := StopService(hook); }
      }
    }

    /** Any sequence of manager calls, with the states in between. */
    method Run(calls: seq<Call>) returns (states: seq<State>)
      requires Sound()
      modifies this
      ensures Sound() && old(errors) <= errors
      ensures |states| == |calls| + 1 && states[0] == old(state) && states[|calls|] == state && IsRun(calls, states)
    {
      states := [state];
      var i := 0;
      while i < |calls|
        invariant 0 <= i <= |calls| && Sound() && old(errors) <= errors
        invariant |states| == i + 1 && states[0] == old(state) && states[i] == state && IsRun(calls[..i], states)
      {
        var _ := Perform(calls[i]);
        states := states + [state];
        i := i + 1;
      }
      assert calls[..i] == calls;
    }
  }

  /** The state a call leads to. */
  predicate Allowed(before: State, call: Call, after: State) {
    match call
    case Require(start, check) =>
      if before == Available || before == Stopped then
        after == (if start.Raises? then Error else if start.Interrupted? then Starting
                  else if check.Raises? then Error else if check.Interrupted? then Starting else Running)
      else after == before
    case Check(hook) =>
      if before == Running || before == Error then
        after == (if hook.Raises? then Error else if hook.Interrupted? then before else Running)
      else after == before
    case Stop(hook) =>
      if before == Starting || before == Running then
        after == (if hook.Raises? then Error else if hook.Interrupted? then Stopping else Stopped)
      else after == before
  }

  predicate IsRun(calls: seq<Call>, states: seq<State>) {
    |states| == |calls| + 1 && forall i :: 0 <= i < |calls| ==> Allowed(states[i], calls[i], states[i + 1])
  }

  /** A disabled service stays disabled, and no other becomes so. */
  lemma {:induction false} DisabledForever(calls: seq<Call>, states: seq<State>, i: nat)
    requires IsRun(calls, states) && i < |states|
    ensures states[i] == Disabled <==> states[0] == Disabled
  {
    if i > 0 {
      DisabledForever(calls, states, i - 1);
      assert Allowed(states[i - 1], calls[i - 1], states[i]);
    }
  }

  /** A service that is stopping, because stopping it was interrupted, stays so: no call ever gets it out. */
  lemma {:induction false} StoppingForever(calls: seq<Call>, states: seq<State>, i: nat, j: nat)
    requires IsRun(calls, states) && i <= j < |states| && states[i] == Stopping
    ensures states[j] == Stopping
  {
    if i < j {
      StoppingForever(calls, states, i, j - 1);
      assert Allowed(states[j - 1], calls[j - 1], states[j]);
    }
  }

  /** Whenever a service is running and was not at the start, the last call that changed its state ended in a check that
      succeeded. */
  lemma {:induction false} RunningWasChecked(calls: seq<Call>, states: seq<State>, i: nat)
    requires IsRun(calls, states) && i < |states| && states[i] == Running && states[0] != Running
    ensures exists j :: 0 <= j < i && Succeeds(calls[j]) && forall k :: j < k <= i ==> states[k] == Running
  {
    assert Allowed(states[i - 1], calls[i - 1], states[i]);
    if states[i - 1] == Running {
      RunningWasChecked(calls, states, i - 1);
      var j :| 0 <= j < i - 1 && Succeeds(calls[j]) && forall k :: j < k <= i - 1 ==> states[k] == Running;
      assert forall k :: j < k <= i ==> states[k] == Running;
    } else {
      assert Succeeds(calls[i - 1]);
    }
  }

  predicate Succeeds(call: Call) {
    match call
    case Require(start, check) => start == Fine && check == Fine
    case Check(hook) => hook == Fine
    case Stop(_) => false
  }
}
