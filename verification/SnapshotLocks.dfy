/** The locking half of `save_service_snapshots`: a snapshot thread and any number of request threads over
    re-entrant store locks, as a step relation. */
module SnapshotLocks {
  import opened Options
  import opened Orders
  import opened SnapshotFormat
  import opened SnapshotDisk

  function Priority(service: string): int {
    if service == "cognito-idp" then 0
    else if service == "cognito-identity" then 1
    else if service == "cognito-sync" then 2
    else if service == "apigatewayv2" then 3
    else 100
  }

  /** The documented lock order: by priority, then by name. */
  predicate LockLess(a: string, b: string) {
    Priority(a) < Priority(b) || (Priority(a) == Priority(b) && StringLess(a, b))
  }

  lemma LockOrder()
    ensures StrictTotal(LockLess)
  {
    StringOrder();
  }

  /** The order in names: Cognito IDP, Identity, Sync and API Gateway v2 come first and in this order, as nested
      requests need it, and after them all others by name. */
  predicate Precedes(a: string, b: string) {
    if b == "cognito-idp" then false
    else if b == "cognito-identity" then a == "cognito-idp"
    else if b == "cognito-sync" then a == "cognito-idp" || a == "cognito-identity"
    else if b == "apigatewayv2" then a == "cognito-idp" || a == "cognito-identity" || a == "cognito-sync"
    else a == "cognito-idp" || a == "cognito-identity" || a == "cognito-sync" || a == "apigatewayv2" || StringLess(a, b)
  }

  ghost predicate Documented(services: seq<string>) {
    forall i, j :: 0 <= i < j < |services| ==> Precedes(services[i], services[j])
  }

  /** The documented order is the lock order. */
  lemma PrecedesIsLockLess(a: string, b: string)
    ensures Precedes(a, b) <==> LockLess(a, b)
  {
    StringOrder();
  }

  lemma DocumentedIsAscending(services: seq<string>)
    ensures Documented(services) <==> Ascending(LockLess, services)
  {
    forall a, b ensures Precedes(a, b) <==> LockLess(a, b) { PrecedesIsLockLess(a, b); }
  }

  /** `_validate_store_set`: the one ascending listing of a non-empty set of well-formed service names. */
  method ValidateStoreSet(stores: set<string>) returns (r: Result<seq<string>>)
    ensures r.Ok? <==>
              && stores != {} && "" !in stores
              && forall s, i :: s in stores && 0 <= i < |s| ==> 'a' <= s[i] <= 'z' || '0' <= s[i] <= '9' || s[i] == '-'
    ensures r.Ok? ==> Documented(r.value) && forall s :: s in r.value <==> s in stores
    ensures r.Ok? ==> Ascending(LockLess, r.value)
    ensures r.Err? ==> r.reason == InvalidServiceSet
  {
    LockOrder();
    var services := Sort(LockLess, stores);
    if services == [] || exists s :: s in stores && !IsService(s) {
      assert services == [] ==> forall s :: s !in stores;
      return Err(InvalidServiceSet);
    }
    assert services[0] in stores;
    DocumentedIsAscending(services);
    r := Ok(services);
  }

  /** A save and a later load of the same stores work through them in the same order. */
  lemma StoreOrderIsUnique(a: seq<string>, b: seq<string>)
    requires Ascending(LockLess, a) && Ascending(LockLess, b) && forall s :: s in a <==> s in b
    ensures a == b
  {
    LockOrder();
    AscendingUnique(LockLess, a, b);
  }

  // ---------------------------------------------------------------- threads and steps

  /** Locks held, most recent last (a lock taken twice appears twice), and the lock waited for. */
  datatype Thread = Thread(held: seq<string>, want: Option<string>)

  datatype Phase = Locking | Encoding | Releasing

  /** `owner` maps a taken lock to its thread; `stores` is the shared state each lock guards; the rest belongs to
      the snapshot thread. */
  datatype State = State(
    owner: map<string, nat>, threads: map<nat, Thread>, stores: map<string, int>,
    phase: Phase, encoded: map<string, int>, done: nat, failed: bool)

  const SNAPSHOT: nat := 0

  datatype Step =
    | Request(t: nat, lock: string) | Grant(t: nat) | Release(t: nat) | Write(t: nat, store: string, value: int)
    | SnapshotRequest | SnapshotLocked | SnapshotEncode | SnapshotEncoded | SnapshotFail | SnapshotRelease

  /** Nesting in the documented order: a new lock ranks above all held ones; taking a held lock again is free. */
  predicate InOrder(held: seq<string>, lock: string) {
    lock in held || forall i :: 0 <= i < |held| ==> LockLess(held[i], lock)
  }

  predicate Idle(s: State, t: nat) { t in s.threads && s.threads[t].want.None? }

  predicate Grantable(s: State, t: nat) {
    t in s.threads && s.threads[t].want.Some? &&
    (s.threads[t].want.value in s.owner ==> s.owner[s.threads[t].want.value] == t)
  }

  predicate Enabled(services: seq<string>, s: State, step: Step) {
    match step
    case Request(t, lock) => t != SNAPSHOT && Idle(s, t) && InOrder(s.threads[t].held, lock)
    case Grant(t) => Grantable(s, t)
    case Release(t) => t != SNAPSHOT && Idle(s, t) && s.threads[t].held != []
    case Write(t, store, _) => t != SNAPSHOT && Idle(s, t) && store in s.threads[t].held
    case SnapshotRequest => s.phase.Locking? && Idle(s, SNAPSHOT) && |s.threads[SNAPSHOT].held| < |services|
    case SnapshotLocked => s.phase.Locking? && Idle(s, SNAPSHOT) && |s.threads[SNAPSHOT].held| == |services|
    case SnapshotEncode => s.phase.Encoding? && s.done < |services| && services[s.done] in s.stores
    case SnapshotEncoded => s.phase.Encoding? && s.done == |services|
    case SnapshotFail => !s.phase.Releasing? && SNAPSHOT in s.threads
    case SnapshotRelease => s.phase.Releasing? && Idle(s, SNAPSHOT) && s.threads[SNAPSHOT].held != []
  }

  function Wanting(s: State, t: nat, want: Option<string>): State
    requires t in s.threads
  {
    s.(threads := s.threads[t := s.threads[t].(want := want)])
  }

  function Granted(s: State, t: nat): State
    requires Grantable(s, t)
  {
    var lock := s.threads[t].want.value;
    s.(owner := s.owner[lock := t], threads := s.threads[t := Thread(s.threads[t].held + [lock], None)])
  }

  function Released(s: State, t: nat): State
    requires Idle(s, t) && s.threads[t].held != []
  {
    var held := s.threads[t].held;
    var lock := held[|held| - 1];
    var rest := held[..|held| - 1];
    s.(owner := if lock in rest then s.owner else s.owner - {lock}, threads := s.threads[t := Thread(rest, None)])
  }

  function Apply(services: seq<string>, s: State, step: Step): State
    requires Enabled(services, s, step)
  {
    match step
    case Request(t, lock) => Wanting(s, t, Some(lock))
    case Grant(t) => Granted(s, t)
    case Release(t) => Released(s, t)
    case Write(_, store, value) => s.(stores := s.stores[store := value])
    case SnapshotRequest => Wanting(s, SNAPSHOT, Some(services[|s.threads[SNAPSHOT].held|]))
    case SnapshotLocked => s.(phase := Encoding)
    case SnapshotEncode => s.(encoded := s.encoded[services[s.done] := s.stores[services[s.done]]], done := s.done + 1)
    case SnapshotEncoded => s.(phase := Releasing)
    case SnapshotFail => Wanting(s, SNAPSHOT, None).(phase := Releasing, failed := true)
    case SnapshotRelease => Released(s, SNAPSHOT)
  }

  /** Nobody holds or waits for anything and the snapshot is about to take its first lock. */
  predicate Initial(services: seq<string>, s: State) {
    && s.owner == map[] && SNAPSHOT in s.threads
    && (forall t :: t in s.threads ==> s.threads[t] == Thread([], None))
    && s.phase.Locking? && s.encoded == map[] && s.done == 0 && !s.failed
    && forall i :: 0 <= i < |services| ==> services[i] in s.stores
  }

  ghost predicate IsRun(services: seq<string>, run: seq<State>) {
    && |run| > 0 && Initial(services, run[0])
    && forall i :: 0 < i < |run| ==> IsStep(services, run[i - 1], run[i])
  }

  ghost predicate IsStep(services: seq<string>, s: State, s': State) {
    exists step :: Enabled(services, s, step) && s' == Apply(services, s, step)
  }

  // ---------------------------------------------------------------- invariant

  predicate OwnersHold(s: State) {
    && (forall l :: l in s.owner ==> s.owner[l] in s.threads && l in s.threads[s.owner[l]].held)
    && (forall t, l :: t in s.threads && l in s.threads[t].held ==> Owns(s, t, l))
  }

  predicate Owns(s: State, t: nat, lock: string) { lock in s.owner && s.owner[lock] == t }

  predicate WantsInOrder(s: State) {
    forall t :: t in s.threads && s.threads[t].want.Some? ==> InOrder(s.threads[t].held, s.threads[t].want.value)
  }

  /** The snapshot holds the first locks of its list: all of them while it encodes, none but those at any time. */
  predicate SnapshotHolds(services: seq<string>, s: State) {
    && SNAPSHOT in s.threads && s.threads[SNAPSHOT].held <= services
    && (s.threads[SNAPSHOT].want.Some? ==>
          s.phase.Locking? && |s.threads[SNAPSHOT].held| < |services| &&
          s.threads[SNAPSHOT].want.value == services[|s.threads[SNAPSHOT].held|])
    && (s.phase.Encoding? ==> s.threads[SNAPSHOT].held == services)
    && (forall i :: 0 <= i < |services| ==> services[i] in s.stores)
  }

  predicate Inv(services: seq<string>, s: State) {
    OwnersHold(s) && WantsInOrder(s) && SnapshotHolds(services, s)
  }

  lemma GrantKeepsOwners(s: State, t: nat)
    requires OwnersHold(s) && Grantable(s, t)
    ensures OwnersHold(Granted(s, t))
  {
    var s' := Granted(s, t);
    var lock := s.threads[t].want.value;
    forall u, l | u in s'.threads && l in s'.threads[u].held ensures Owns(s', u, l) {
      assert (u == t && l == lock) || l in s.threads[u].held;
    }
  }

  lemma ReleaseKeepsOwners(s: State, t: nat)
    requires OwnersHold(s) && Idle(s, t) && s.threads[t].held != []
    ensures OwnersHold(Released(s, t))
  {
    var s' := Released(s, t);
    var held := s.threads[t].held;
    var lock := held[|held| - 1];
    assert held == held[..|held| - 1] + [lock];
    assert Owns(s, t, lock);
    forall u, l | u in s'.threads && l in s'.threads[u].held ensures Owns(s', u, l) {
      assert Owns(s, u, l);
    }
  }

  /** Every step of every thread keeps owners and holders in agreement. */
  lemma StepKeepsOwners(services: seq<string>, s: State, step: Step)
    requires OwnersHold(s) && Enabled(services, s, step)
    ensures OwnersHold(Apply(services, s, step))
  {
    match step {
      case Grant(t) => GrantKeepsOwners(s, t);
      case Release(t) => ReleaseKeepsOwners(s, t);
      case SnapshotRelease => ReleaseKeepsOwners(s, SNAPSHOT);
      case _ =>
    }
  }

  lemma StepKeepsSnapshot(services: seq<string>, s: State, step: Step)
    requires SnapshotHolds(services, s) && Enabled(services, s, step)
    ensures SnapshotHolds(services, Apply(services, s, step))
  {
    var held := s.threads[SNAPSHOT].held;
    assert |held| < |services| ==> held + [services[|held|]] <= services;
    assert held != [] ==> held[..|held| - 1] <= services;
  }

  /** The snapshot asks for its locks in ascending order; the other threads nest theirs by assumption. */
  lemma StepKeepsOrder(services: seq<string>, s: State, step: Step)
    requires Ascending(LockLess, services) && SnapshotHolds(services, s) && WantsInOrder(s) &&
             Enabled(services, s, step)
    ensures WantsInOrder(Apply(services, s, step))
  {
    if step.SnapshotRequest? {
      assert InOrder(s.threads[SNAPSHOT].held, services[|s.threads[SNAPSHOT].held|]);
    }
  }

  lemma StepKeepsInv(services: seq<string>, s: State, step: Step)
    requires Ascending(LockLess, services) && Inv(services, s) && Enabled(services, s, step)
    ensures Inv(services, Apply(services, s, step))
  {
    StepKeepsOwners(services, s, step);
    StepKeepsSnapshot(services, s, step);
    StepKeepsOrder(services, s, step);
  }

  lemma {:induction false} RunKeepsInv(services: seq<string>, run: seq<State>, i: nat)
    requires Ascending(LockLess, services) && IsRun(services, run) && i < |run|
    ensures Inv(services, run[i])
  {
    if i > 0 {
      RunKeepsInv(services, run, i - 1);
      assert IsStep(services, run[i - 1], run[i]);
      var step :| Enabled(services, run[i - 1], step) && run[i] == Apply(services, run[i - 1], step);
      StepKeepsInv(services, run[i - 1], step);
    }
  }

  // ---------------------------------------------------------------- deadlock freedom

  predicate Blocked(s: State, t: nat) {
    t in s.threads && s.threads[t].want.Some? && !Grantable(s, t)
  }

  /** `t` can take a step of its own that goes on with its work: not one that asks for more or gives up. */
  ghost predicate CanMove(services: seq<string>, s: State, t: nat) {
    exists step :: Enabled(services, s, step) && WorkOf(step, t)
  }

  predicate WorkOf(step: Step, t: nat) {
    match step
    case Grant(u) => u == t
    case Release(u) => u == t
    case Request(_, _) => false
    case Write(_, _, _) => false
    case SnapshotFail => false
    case _ => t == SNAPSHOT
  }

  /** A thread that owns a lock and is not blocked can move. */
  lemma OwnerMoves(services: seq<string>, s: State, t: nat, lock: string)
    requires Inv(services, s) && Progress(services, s) && Owns(s, t, lock) && !Blocked(s, t)
    ensures CanMove(services, s, t)
  {
    var step :=
      if s.threads[t].want.Some? then Grant(t)
      else if t != SNAPSHOT then Release(t)
      else if s.phase.Releasing? then SnapshotRelease
      else if s.phase.Encoding? then (if s.done < |services| then SnapshotEncode else SnapshotEncoded)
      else if |s.threads[t].held| < |services| then SnapshotRequest else SnapshotLocked;
    assert Enabled(services, s, step) && WorkOf(step, t);
  }

  /** A chain in which each thread waits for a lock of the next and the last one is not blocked. */
  predicate WaitChain(s: State, chain: seq<nat>) {
    && chain != []
    && (forall i :: 0 <= i < |chain| ==> chain[i] in s.threads)
    && (forall i :: 0 <= i < |chain| - 1 ==>
        Blocked(s, chain[i]) && Owns(s, chain[i + 1], s.threads[chain[i]].want.value))
    && !Blocked(s, chain[|chain| - 1])
  }

  function LocksAbove(s: State, lock: string): set<string> {
    set l | l in s.owner && LockLess(lock, l)
  }

  lemma {:induction false} OwnersFrom(services: seq<string>, s: State, t: nat) returns (chain: seq<nat>)
    requires Inv(services, s) && t in s.threads
    ensures WaitChain(s, chain) && chain[0] == t && (|chain| > 1 <==> Blocked(s, t))
    decreases if Blocked(s, t) then 1 + |LocksAbove(s, s.threads[t].want.value)| else 0
  {
    chain := [t];
    if Blocked(s, t) {
      LockOrder();
      var lock := s.threads[t].want.value;
      var u := s.owner[lock];
      assert lock in s.threads[u].held;
      if Blocked(s, u) {
        var next := s.threads[u].want.value;
        assert next !in s.threads[u].held;
        assert LockLess(lock, next);
        assert next in LocksAbove(s, lock) && next !in LocksAbove(s, next);
        SubsetSize(LocksAbove(s, next), LocksAbove(s, lock), next);
      }
      var rest := OwnersFrom(services, s, u);
      chain := [t] + rest;
    }
  }

  /** Whoever is blocked waits, through a chain of owners, for a thread that can go on with its work. */
  lemma ChainFrom(services: seq<string>, s: State, t: nat) returns (chain: seq<nat>)
    requires Inv(services, s) && Progress(services, s) && t in s.threads
    ensures WaitChain(s, chain) && chain[0] == t && (|chain| > 1 <==> Blocked(s, t))
    ensures |chain| > 1 ==> CanMove(services, s, chain[|chain| - 1])
  {
    chain := OwnersFrom(services, s, t);
    if |chain| > 1 {
      OwnerMoves(services, s, chain[|chain| - 1], s.threads[chain[|chain| - 2]].want.value);
    }
  }

  lemma SubsetSize(a: set<string>, b: set<string>, x: string)
    requires a <= b && x in b && x !in a
    ensures |a| < |b|
  {
    var c := b - {x};
    assert c == a + (c - a) && |c| == |a| + |c - a|;
    assert |b| == |c| + 1;
  }

  /** No reachable state is a deadlock: behind every blocked thread stands a chain of owners whose last one can go on
      with its work. */
  lemma NeverDeadlocked(services: seq<string>, run: seq<State>, i: nat, t: nat)
    requires Ascending(LockLess, services) && IsRun(services, run) && i < |run| && t in run[i].threads
    ensures exists chain :: WaitChain(run[i], chain) && chain[0] == t &&
              (Blocked(run[i], t) ==> |chain| > 1 && CanMove(services, run[i], chain[|chain| - 1]))
    ensures exists u :: u in run[i].threads && !Blocked(run[i], u)
  {
    RunKeepsInv(services, run, i);
    RunMakesProgress(services, run, i);
    var chain := ChainFrom(services, run[i], t);
    assert !Blocked(run[i], chain[|chain| - 1]);
  }

  // ---------------------------------------------------------------- the nesting of the requests

  /** How requests nest their locks: one alone, or again; Identity under IDP; Sync under Identity, or under both. */
  predicate Nests(held: seq<string>, lock: string) {
    || held == [] || lock in held
    || (lock == "cognito-identity" && forall i :: 0 <= i < |held| ==> held[i] == "cognito-idp")
    || (lock == "cognito-sync" &&
        forall i :: 0 <= i < |held| ==> held[i] == "cognito-idp" || held[i] == "cognito-identity")
  }

  /** A step in which a request for a lock, if it is one, follows that nesting. */
  ghost predicate IsNestedStep(services: seq<string>, s: State, s': State) {
    || (exists t, lock :: IsNestedRequest(s, t, lock, s'))
    || (exists step :: Enabled(services, s, step) && !step.Request? && s' == Apply(services, s, step))
  }

  predicate IsNestedRequest(s: State, t: nat, lock: string, s': State) {
    t != SNAPSHOT && Idle(s, t) && Nests(s.threads[t].held, lock) && s' == Wanting(s, t, Some(lock))
  }

  ghost predicate IsNestedRun(services: seq<string>, run: seq<State>) {
    && |run| > 0 && Initial(services, run[0])
    && forall i :: 0 < i < |run| ==> IsNestedStep(services, run[i - 1], run[i])
  }

  lemma NestsInOrder(held: seq<string>, lock: string)
    requires Nests(held, lock)
    ensures InOrder(held, lock)
  {
    forall i | 0 <= i < |held| && lock !in held ensures LockLess(held[i], lock) {
      PrecedesIsLockLess(held[i], lock);
    }
  }

  lemma NestedIsStep(services: seq<string>, s: State, s': State)
    requires IsNestedStep(services, s, s')
    ensures IsStep(services, s, s')
  {
    if t, lock :| IsNestedRequest(s, t, lock, s') {
      NestsInOrder(s.threads[t].held, lock);
      assert Enabled(services, s, Request(t, lock)) && s' == Apply(services, s, Request(t, lock));
    }
  }

  /** Requests that nest their locks as documented and a snapshot that takes them in the documented order never block
      each other for good. */
  lemma NestedNeverDeadlocked(services: seq<string>, run: seq<State>, i: nat, t: nat)
    requires Documented(services) && IsNestedRun(services, run) && i < |run| && t in run[i].threads
    ensures Blocked(run[i], t) ==> exists chain :: WaitChain(run[i], chain) && chain[0] == t &&
                                     |chain| > 1 && CanMove(services, run[i], chain[|chain| - 1])
    ensures exists u :: u in run[i].threads && !Blocked(run[i], u)
  {
    DocumentedIsAscending(services);
    forall k | 0 < k < |run| ensures IsStep(services, run[k - 1], run[k]) {
      NestedIsStep(services, run[k - 1], run[k]);
    }
    NeverDeadlocked(services, run, i, t);
  }

  /** The snapshot is over once it has nothing left to release; then it owns no lock, however it got there. */
  lemma SnapshotReleasesAll(services: seq<string>, run: seq<State>, i: nat)
    requires Ascending(LockLess, services) && IsRun(services, run) && i < |run|
    ensures forall l :: Owns(run[i], SNAPSHOT, l) ==> l in services
    ensures run[i].phase.Releasing? && !Enabled(services, run[i], SnapshotRelease) ==>
             forall l :: !Owns(run[i], SNAPSHOT, l)
    ensures run[i].phase.Releasing? ==> Idle(run[i], SNAPSHOT)
  {
    RunKeepsInv(services, run, i);
  }

  // ---------------------------------------------------------------- consistent cut

  predicate SameAt(a: map<string, int>, b: map<string, int>, key: string) {
    key in a && key in b && a[key] == b[key]
  }

  /** What the snapshot has encoded so far is what `cut` says; while it still encodes, so are its stores. */
  predicate MatchesCut(services: seq<string>, s: State, cut: map<string, int>) {
    && (forall j :: 0 <= j < s.done && j < |services| ==> SameAt(s.encoded, cut, services[j]))
    && (s.phase.Encoding? ==> forall j :: 0 <= j < |services| ==> SameAt(s.stores, cut, services[j]))
  }

  predicate Progress(services: seq<string>, s: State) {
    && s.done <= |services|
    && (forall l :: l in s.encoded ==> l in services)
    && (s.phase.Locking? ==> s.done == 0)
    && (s.phase.Releasing? && !s.failed ==> s.done == |services|)
  }

  lemma {:induction false} RunMakesProgress(services: seq<string>, run: seq<State>, i: nat)
    requires IsRun(services, run) && i < |run|
    ensures Progress(services, run[i])
  {
    if i > 0 {
      RunMakesProgress(services, run, i - 1);
      assert IsStep(services, run[i - 1], run[i]);
      var step :| Enabled(services, run[i - 1], step) && run[i] == Apply(services, run[i - 1], step);
      StepMakesProgress(services, run[i - 1], step);
    }
  }

  lemma StepMakesProgress(services: seq<string>, s: State, step: Step)
    requires Progress(services, s) && Enabled(services, s, step)
    ensures Progress(services, Apply(services, s, step))
  {
  }

  /** Nobody writes a store whose lock the snapshot holds. */
  lemma StepKeepsCut(services: seq<string>, s: State, step: Step, cut: map<string, int>)
    requires Inv(services, s) && Progress(services, s) && Enabled(services, s, step) && MatchesCut(services, s, cut)
    requires !step.SnapshotLocked?
    ensures MatchesCut(services, Apply(services, s, step), cut)
  {
    if step.Write? && s.phase.Encoding? {
      assert step.store !in services by { assert Owns(s, step.t, step.store); }
    }
    if step.SnapshotEncode? { assert SameAt(s.stores, cut, services[s.done]); }
    var s' := Apply(services, s, step);
    forall j | 0 <= j < s'.done && j < |services| ensures SameAt(s'.encoded, cut, services[j]) {
      if j < s.done { assert SameAt(s.encoded, cut, services[j]); }
    }
  }

  lemma {:induction false} CutExists(services: seq<string>, run: seq<State>, i: nat) returns (k: nat)
    requires Ascending(LockLess, services) && IsRun(services, run) && i < |run|
    ensures k <= i && MatchesCut(services, run[i], run[k].stores)
  {
    if i == 0 { return 0; }
    RunKeepsInv(services, run, i - 1);
    RunMakesProgress(services, run, i - 1);
    assert IsStep(services, run[i - 1], run[i]);
    var step :| Enabled(services, run[i - 1], step) && run[i] == Apply(services, run[i - 1], step);
    if step.SnapshotLocked? {
      CutBegins(services, run[i - 1]);
      k := i;
    } else {
      k := CutExists(services, run, i - 1);
      StepKeepsCut(services, run[i - 1], step, run[k].stores);
    }
  }

  lemma CutBegins(services: seq<string>, s: State)
    requires Inv(services, s) && Progress(services, s) && Enabled(services, s, SnapshotLocked)
    ensures MatchesCut(services, Apply(services, s, SnapshotLocked), s.stores)
  {
  }

  /** Consistent cut: when the snapshot has run to its end without failing, the encoded states of all services are
      the states the stores had at one single instant of the interleaving. */
  lemma SnapshotIsConsistentCut(services: seq<string>, run: seq<State>, i: nat)
    requires Ascending(LockLess, services) && IsRun(services, run) && i < |run|
    requires run[i].phase.Releasing? && !run[i].failed
    ensures forall l :: l in run[i].encoded <==> l in services
    ensures exists k :: 0 <= k <= i && forall l :: l in services ==> SameAt(run[i].encoded, run[k].stores, l)
  {
    var k := CutExists(services, run, i);
    RunMakesProgress(services, run, i);
    forall l | l in services ensures SameAt(run[i].encoded, run[k].stores, l) {
      var j :| 0 <= j < |services| && services[j] == l;
    }
  }
}
