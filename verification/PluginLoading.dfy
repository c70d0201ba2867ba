/** Lazy loading of service plugins: `ServicePluginManager.get_service_container` with its double-checked lock,
    which is dropped from the table once a service is installed, under every interleaving of requests. */
module PluginLoading {
  import opened Options

  /** Where a request for one service stands; `Raised` is an exception leaving the `with` block. */
  datatype Point =
    | Look | FetchLock | Acquire(lock: nat) | Recheck(lock: nat) | LoadPlugin(lock: nat) | Install(lock: nat)
    | DropLock(lock: nat) | ReadBack(lock: nat) | Leave(lock: nat, answer: Answer) | Done(answer: Answer)

  datatype Answer = Container(id: nat) | NoContainer | Raised

  datatype Request = Request(name: string, at: Point)

  /** `services` and `locks` are the manager's two tables, `owner` says who holds a lock object, `installed` lists
      every container ever put under a name. */
  datatype State = State(
    services: map<string, nat>, locks: map<string, nat>, owner: map<nat, nat>,
    requests: map<nat, Request>, installed: map<string, seq<nat>>, nextLock: nat, nextContainer: nat)

  datatype Outcome = Loaded | Unavailable | Failed

  /** One atomic action of request `r`; `outcome` is what the plugin manager answers when asked. */
  datatype Step = Step(r: nat, outcome: Outcome)

  predicate Holds(p: Point) {
    p.Recheck? || p.LoadPlugin? || p.Install? || p.DropLock? || p.ReadBack? || p.Leave?
  }

  predicate HasLock(p: Point) { p.Acquire? || Holds(p) }

  predicate Enabled(s: State, step: Step) {
    && step.r in s.requests
    && var p := s.requests[step.r].at;
       !p.Done? && (p.Acquire? ==> p.lock !in s.owner)
  }

  function Answered(s: State, name: string): Answer {
    if name in s.services then Container(s.services[name]) else NoContainer
  }

  function Installs(s: State, name: string): seq<nat> {
    if name in s.installed then s.installed[name] else []
  }

  /** Where the request goes next, from what it finds in the tables. */
  function NextPoint(available: set<string>, s: State, step: Step): Point
    requires Enabled(s, step)
  {
    var name := s.requests[step.r].name;
    match s.requests[step.r].at
    case Look =>
      if name in s.services then Done(Container(s.services[name]))
      else if name !in available then Done(NoContainer)
      else FetchLock
    case FetchLock => Acquire(if name in s.locks then s.locks[name] else s.nextLock)
    case Acquire(lock) => Recheck(lock)
    case Recheck(lock) => if name in s.services then Leave(lock, Container(s.services[name])) else LoadPlugin(lock)
    case LoadPlugin(lock) =>
      (match step.outcome
       case Loaded => Install(lock)
       case Unavailable => Leave(lock, NoContainer)
       case Failed => Leave(lock, Raised))
    case Install(lock) => DropLock(lock)
    case DropLock(lock) => if name in s.locks then ReadBack(lock) else Leave(lock, Raised)
    case ReadBack(lock) => Leave(lock, Answered(s, name))
    case Leave(_, answer) => Done(answer)
  }

  /** What the action changes in the shared tables. */
  function NextTables(s: State, step: Step): (s': State)
    requires Enabled(s, step)
    ensures s'.requests == s.requests
  {
    var name := s.requests[step.r].name;
    match s.requests[step.r].at
    case FetchLock =>
      if name in s.locks then s else s.(locks := s.locks[name := s.nextLock], nextLock := s.nextLock + 1)
    case Acquire(lock) => s.(owner := s.owner[lock := step.r])
    case Install(lock) =>
      s.(services := s.services[name := s.nextContainer], nextContainer := s.nextContainer + 1,
         installed := s.installed[name := Installs(s, name) + [s.nextContainer]])
    case DropLock(lock) => s.(locks := s.locks - {name})
    case Leave(lock, _) => s.(owner := s.owner - {lock})
    case _ => s
  }

  function Apply(available: set<string>, s: State, step: Step): State
    requires Enabled(s, step)
  {
    NextTables(s, step).(requests := s.requests[step.r := s.requests[step.r].(at := NextPoint(available, s, step))])
  }

  predicate Initial(s: State) {
    && s.services == map[] && s.locks == map[] && s.owner == map[] && s.installed == map[]
    && forall r :: r in s.requests ==> s.requests[r].at.Look?
  }

  ghost predicate IsStep(available: set<string>, s: State, s': State) {
    exists step :: Enabled(s, step) && s' == Apply(available, s, step)
  }

  ghost predicate IsRun(available: set<string>, run: seq<State>) {
    && |run| > 0 && Initial(run[0])
    && forall i :: 0 < i < |run| ==> IsStep(available, run[i - 1], run[i])
  }

  // ---------------------------------------------------------------- invariant

  /** Until a service is installed, everyone on the way to it has the lock that is in the table; whoever is past the
      second check without having found it is alone. */
  predicate RequestOk(s: State, r: nat)
    requires r in s.requests
  {
    var name, p := s.requests[r].name, s.requests[r].at;
    && (Holds(p) ==> p.lock in s.owner && s.owner[p.lock] == r)
    && (HasLock(p) && name !in s.services ==> name in s.locks && s.locks[name] == p.lock)
    && (p.LoadPlugin? || p.Install? ==> name !in s.services)
    && (p.DropLock? ==> name in s.services && name in s.locks && s.locks[name] == p.lock)
    && (p.ReadBack? ==> name in s.services)
    && ((p.Leave? || p.Done?) && p.answer.Container? ==> name in s.services && s.services[name] == p.answer.id)
  }

  /** What is installed under a name was installed once. */
  ghost predicate TablesOk(s: State) {
    forall n :: Installs(s, n) == if n in s.services then [s.services[n]] else []
  }

  ghost predicate Inv(s: State) {
    TablesOk(s) && forall r :: r in s.requests ==> RequestOk(s, r)
  }

  lemma StepKeepsTables(available: set<string>, s: State, step: Step)
    requires Inv(s) && Enabled(s, step)
    ensures TablesOk(Apply(available, s, step))
  {
    assert RequestOk(s, step.r);
    var s' := Apply(available, s, step);
    forall n ensures Installs(s', n) == if n in s'.services then [s'.services[n]] else [] {
      assert Installs(s, n) == if n in s.services then [s.services[n]] else [];
    }
  }

  lemma StepKeepsMover(available: set<string>, s: State, step: Step)
    requires Inv(s) && Enabled(s, step)
    ensures RequestOk(Apply(available, s, step), step.r)
  {
    assert RequestOk(s, step.r);
    match s.requests[step.r].at {
      case Look =>
      case FetchLock =>
      case Acquire(_) =>
      case Recheck(_) =>
      case LoadPlugin(_) =>
      case Install(_) =>
      case DropLock(_) =>
      case ReadBack(_) =>
      case Leave(_, _) =>
    }
  }

  /** The moving request disturbs no other: the lock keeps a second installer out, and the table entry only goes once
      nobody relies on it. */
  lemma StepKeepsOthers(available: set<string>, s: State, step: Step, u: nat)
    requires Inv(s) && Enabled(s, step) && u in s.requests && u != step.r
    ensures RequestOk(Apply(available, s, step), u)
  {
    assert RequestOk(s, step.r) && RequestOk(s, u);
    match s.requests[step.r].at {
      case Look =>
      case FetchLock =>
      case Acquire(_) =>
      case Recheck(_) =>
      case LoadPlugin(_) =>
      case Install(_) =>
      case DropLock(_) =>
      case ReadBack(_) =>
      case Leave(_, _) =>
    }
  }

  lemma StepKeepsInv(available: set<string>, s: State, step: Step)
    requires Inv(s) && Enabled(s, step)
    ensures Inv(Apply(available, s, step))
  {
    StepKeepsTables(available, s, step);
    StepKeepsMover(available, s, step);
    forall u | u in s.requests && u != step.r ensures RequestOk(Apply(available, s, step), u) {
      StepKeepsOthers(available, s, step, u);
    }
  }

  lemma {:induction false} RunKeepsInv(available: set<string>, run: seq<State>, i: nat)
    requires IsRun(available, run) && i < |run|
    ensures Inv(run[i])
  {
    if i > 0 {
      RunKeepsInv(available, run, i - 1);
      assert IsStep(available, run[i - 1], run[i]);
      var step :| Enabled(run[i - 1], step) && run[i] == Apply(available, run[i - 1], step);
      StepKeepsInv(available, run[i - 1], step);
    }
  }

  lemma {:induction false} InstallsOnlyGrow(available: set<string>, run: seq<State>, i: nat, j: nat, name: string)
    requires IsRun(available, run) && i <= j < |run|
    ensures Installs(run[i], name) <= Installs(run[j], name)
    decreases j
  {
    if i < j {
      InstallsOnlyGrow(available, run, i, j - 1, name);
      assert IsStep(available, run[j - 1], run[j]);
    }
  }

  // ---------------------------------------------------------------- what callers may rely on

  /** Load once: in every run a service is installed at most once, and all requests for it that are answered with a
      container, at whatever time, get that one. */
  lemma LoadedOnce(available: set<string>, run: seq<State>, i: nat, j: nat, r: nat, q: nat)
    requires IsRun(available, run) && i <= j < |run| && r in run[i].requests && q in run[j].requests
    requires run[i].requests[r].name == run[j].requests[q].name
    requires run[i].requests[r].at.Done? && run[i].requests[r].at.answer.Container?
    requires run[j].requests[q].at.Done? && run[j].requests[q].at.answer.Container?
    ensures run[i].requests[r].at.answer == run[j].requests[q].at.answer
    ensures Installs(run[j], run[j].requests[q].name) == [run[j].requests[q].at.answer.id]
  {
    RunKeepsInv(available, run, i);
    RunKeepsInv(available, run, j);
    var name := run[j].requests[q].name;
    assert RequestOk(run[i], r) && RequestOk(run[j], q);
    assert Installs(run[i], name) == [run[i].services[name]] && Installs(run[j], name) == [run[j].services[name]];
    InstallsOnlyGrow(available, run, i, j, name);
    assert Installs(run[i], name)[0] == Installs(run[j], name)[0];
  }

  /** `del self._plugin_load_locks[name]` always finds its key, and an installer never sees its service missing. */
  lemma LockDeletionFindsKey(available: set<string>, run: seq<State>, i: nat, r: nat)
    requires IsRun(available, run) && i < |run| && r in run[i].requests
    ensures run[i].requests[r].at.DropLock? ==> run[i].requests[r].name in run[i].locks
    ensures run[i].requests[r].at.ReadBack? ==> Answered(run[i], run[i].requests[r].name).Container?
  {
    RunKeepsInv(available, run, i);
    assert RequestOk(run[i], r);
  }

  /** The load lock of a service leaves the table right after its installation, and no other lock does. */
  lemma InstallerDropsLock(available: set<string>, run: seq<State>, i: nat, step: Step)
    requires IsRun(available, run) && i < |run| && Enabled(run[i], step) && run[i].requests[step.r].at.DropLock?
    ensures var name, s' := run[i].requests[step.r].name, Apply(available, run[i], step);
            && name in s'.services && name !in s'.locks
            && forall n :: n != name ==> (n in s'.locks <==> n in run[i].locks)
  {
    RunKeepsInv(available, run, i);
    assert RequestOk(run[i], step.r);
  }

  /** At most one request at a time is loading a given service, even with several lock objects around. */
  lemma LoadersExclude(available: set<string>, run: seq<State>, i: nat, r: nat, q: nat)
    requires IsRun(available, run) && i < |run| && r in run[i].requests && q in run[i].requests
    requires run[i].requests[r].name == run[i].requests[q].name
    requires run[i].requests[r].at.LoadPlugin? || run[i].requests[r].at.Install?
    requires run[i].requests[q].at.LoadPlugin? || run[i].requests[q].at.Install?
    ensures r == q
  {
    RunKeepsInv(available, run, i);
    assert RequestOk(run[i], r) && RequestOk(run[i], q);
  }

  /** Nobody waits in vain: the owner of a wanted lock is a request that can move and will leave it. */
  lemma WaitedForLockIsBeingUsed(available: set<string>, run: seq<State>, i: nat, r: nat)
    requires IsRun(available, run) && i < |run| && r in run[i].requests && run[i].requests[r].at.Acquire?
    requires run[i].requests[r].at.lock in run[i].owner
    ensures var u := run[i].owner[run[i].requests[r].at.lock];
            u in run[i].requests && Holds(run[i].requests[u].at) && Enabled(run[i], Step(u, Loaded))
  {
    OwnersUse(available, run, i, run[i].requests[r].at.lock);
  }

  ghost predicate OwnerHolds(s: State, lock: nat) {
    lock in s.owner ==>
      s.owner[lock] in s.requests && Holds(s.requests[s.owner[lock]].at) && s.requests[s.owner[lock]].at.lock == lock
  }

  lemma StepKeepsOwner(available: set<string>, s: State, step: Step, lock: nat)
    requires Inv(s) && Enabled(s, step) && OwnerHolds(s, lock)
    ensures OwnerHolds(Apply(available, s, step), lock)
  {
    assert RequestOk(s, step.r);
    match s.requests[step.r].at {
      case Look =>
      case FetchLock =>
      case Acquire(_) =>
      case Recheck(_) =>
      case LoadPlugin(_) =>
      case Install(_) =>
      case DropLock(_) =>
      case ReadBack(_) =>
      case Leave(_, _) =>
    }
  }

  lemma {:induction false} OwnersUse(available: set<string>, run: seq<State>, i: nat, lock: nat)
    requires IsRun(available, run) && i < |run|
    ensures OwnerHolds(run[i], lock)
  {
    if i > 0 {
      OwnersUse(available, run, i - 1, lock);
      RunKeepsInv(available, run, i - 1);
      assert IsStep(available, run[i - 1], run[i]);
      var step :| Enabled(run[i - 1], step) && run[i] == Apply(available, run[i - 1], step);
      StepKeepsOwner(available, run[i - 1], step, lock);
    }
  }

  // ---------------------------------------------------------------- when there is no container

  /** From `run[k]` on, request `r` asks the plugin manager, with nothing installed, and gets this outcome. */
  predicate LoadAt(available: set<string>, run: seq<State>, k: nat, r: nat, outcome: Outcome) {
    && k + 1 < |run| && r in run[k].requests && run[k].requests[r].at.LoadPlugin?
    && run[k].requests[r].name !in run[k].services
    && run[k + 1] == Apply(available, run[k], Step(r, outcome))
  }

  ghost predicate HadLoad(available: set<string>, run: seq<State>, i: nat, r: nat, outcome: Outcome) {
    exists k :: 0 <= k < i && LoadAt(available, run, k, r, outcome)
  }

  predicate Answers(p: Point, answer: Answer) {
    (p.Leave? || p.Done?) && p.answer == answer
  }

  /** A request without a container asked for an unknown name or had its own load answered so; one that raises had its
      own load fail. */
  ghost predicate Explained(available: set<string>, run: seq<State>, i: nat, r: nat)
    requires i < |run| && r in run[i].requests
  {
    var p := run[i].requests[r].at;
    && (Answers(p, NoContainer) ==>
          HadLoad(available, run, i, r, Unavailable) || (p.Done? && run[i].requests[r].name !in available))
    && (Answers(p, Raised) ==> HadLoad(available, run, i, r, Failed))
  }

  lemma ExplainedLater(available: set<string>, run: seq<State>, i: nat, r: nat)
    requires 0 < i < |run| && r in run[i].requests && r in run[i - 1].requests && Explained(available, run, i - 1, r)
    requires run[i].requests[r] == run[i - 1].requests[r]
    ensures Explained(available, run, i, r)
  {
  }

  lemma MoverExplained(available: set<string>, run: seq<State>, i: nat, step: Step)
    requires 0 < i < |run| && Inv(run[i - 1]) && Enabled(run[i - 1], step)
    requires run[i] == Apply(available, run[i - 1], step)
    requires Explained(available, run, i - 1, step.r)
    ensures Explained(available, run, i, step.r)
  {
    assert RequestOk(run[i - 1], step.r);
    if run[i - 1].requests[step.r].at.LoadPlugin? { assert LoadAt(available, run, i - 1, step.r, step.outcome); }
  }

  /** Every answer of every run has its reason. */
  lemma {:induction false} RunExplained(available: set<string>, run: seq<State>, i: nat, r: nat)
    requires IsRun(available, run) && i < |run| && r in run[i].requests
    ensures Explained(available, run, i, r)
  {
    if i > 0 {
      assert IsStep(available, run[i - 1], run[i]);
      var step :| Enabled(run[i - 1], step) && run[i] == Apply(available, run[i - 1], step);
      RunExplained(available, run, i - 1, r);
      RunKeepsInv(available, run, i - 1);
      if r == step.r { MoverExplained(available, run, i, step); } else { ExplainedLater(available, run, i, r); }
    }
  }

  /** Whoever is on the way to loading asked for a known name, and only known names are installed. */
  ghost predicate Known(available: set<string>, s: State) {
    && (forall n :: n in s.services ==> n in available)
    && forall r :: r in s.requests && (s.requests[r].at.FetchLock? || HasLock(s.requests[r].at)) ==>
         s.requests[r].name in available
  }

  lemma {:induction false} RunKnown(available: set<string>, run: seq<State>, i: nat)
    requires IsRun(available, run) && i < |run|
    ensures Known(available, run[i])
  {
    if i > 0 {
      RunKnown(available, run, i - 1);
      assert IsStep(available, run[i - 1], run[i]);
    }
  }

  lemma {:induction false} RequestsStay(available: set<string>, run: seq<State>, i: nat, j: nat, r: nat)
    requires IsRun(available, run) && i <= j < |run| && r in run[j].requests
    ensures r in run[i].requests && run[i].requests[r].name == run[j].requests[r].name
    decreases j
  {
    if i < j {
      assert IsStep(available, run[j - 1], run[j]);
      RequestsStay(available, run, i, j - 1, r);
    }
  }

  lemma ServicesStay(available: set<string>, run: seq<State>, i: nat, j: nat, name: string)
    requires IsRun(available, run) && i <= j < |run| && name in run[i].services
    ensures name in run[j].services && run[j].services[name] == run[i].services[name]
  {
    RunKeepsInv(available, run, i);
    RunKeepsInv(available, run, j);
    InstallsOnlyGrow(available, run, i, j, name);
    assert Installs(run[i], name) == [run[i].services[name]];
    assert Installs(run[j], name)[0] == Installs(run[i], name)[0];
  }

  /** Once a service is installed, every request for it that ends without a load of its own gets that container. */
  lemma InstalledIsAnswered(available: set<string>, run: seq<State>, i: nat, j: nat, r: nat)
    requires IsRun(available, run) && i <= j < |run| && r in run[j].requests && run[j].requests[r].at.Done?
    requires run[j].requests[r].name in run[i].services
    requires forall k :: 0 <= k < j && r in run[k].requests ==> !run[k].requests[r].at.LoadPlugin?
    ensures run[j].requests[r].at.answer == Container(run[i].services[run[j].requests[r].name])
  {
    RunExplained(available, run, j, r);
    RunKnown(available, run, i);
    RunKeepsInv(available, run, j);
    ServicesStay(available, run, i, j, run[j].requests[r].name);
    assert RequestOk(run[j], r);
  }

  /** Where a request can be after its own load. */
  predicate AfterLoad(p: Point, outcome: Outcome) {
    match outcome
    case Loaded => p.Install? || p.DropLock? || p.ReadBack? || ((p.Leave? || p.Done?) && p.answer.Container?)
    case Unavailable => Answers(p, NoContainer)
    case Failed => Answers(p, Raised)
  }

  lemma {:induction false} LoadDecides(available: set<string>, run: seq<State>, k: nat, i: nat, r: nat,
                                       outcome: Outcome)
    requires IsRun(available, run) && k < i < |run| && LoadAt(available, run, k, r, outcome)
    ensures r in run[i].requests && AfterLoad(run[i].requests[r].at, outcome)
    decreases i
  {
    if i > k + 1 {
      LoadDecides(available, run, k, i - 1, r, outcome);
      RunKeepsInv(available, run, i - 1);
      assert RequestOk(run[i - 1], r);
      assert IsStep(available, run[i - 1], run[i]);
    }
  }

  /** What a finished request was answered, and why: no container exactly for an unknown name or an own load that said
      so, an exception exactly for an own load that failed, and otherwise the one installed container. */
  lemma AnswerIsExplained(available: set<string>, run: seq<State>, i: nat, r: nat)
    requires IsRun(available, run) && i < |run| && r in run[i].requests && run[i].requests[r].at.Done?
    ensures var name, answer := run[i].requests[r].name, run[i].requests[r].at.answer;
            && (answer == NoContainer <==> name !in available || HadLoad(available, run, i, r, Unavailable))
            && (answer == Raised <==> HadLoad(available, run, i, r, Failed))
            && (answer.Container? ==> name in run[i].services && answer.id == run[i].services[name])
  {
    RunExplained(available, run, i, r);
    RunKnown(available, run, i);
    RunKeepsInv(available, run, i);
    assert RequestOk(run[i], r);
    if k :| 0 <= k < i && LoadAt(available, run, k, r, Unavailable) {
      LoadDecides(available, run, k, i, r, Unavailable);
    }
    if k :| 0 <= k < i && LoadAt(available, run, k, r, Failed) {
      LoadDecides(available, run, k, i, r, Failed);
      RunKnown(available, run, k);
      RequestsStay(available, run, k, i, r);
    }
  }
}
