/**
 * The supervisor task of a sync service: restarts it with a backoff after errors and stops it when
 * the session is gone. It is one sequential task among arbitrary other steps.
 */
module Supervisor {
  import opened ErrorClassification
  import opened Lifecycle
  import opened Wrappers

  datatype SyncState = Idle | Running | Terminated | Offline | Error(error: ChatError)

  /** What the task did and saw, in order. Delays are in seconds. */
  datatype Entry =
    | Observed(state: SyncState)
    | Slept(delay: nat)
    | SawPaused(paused: bool)
    | SawSession(session: SessionState)
    | Started
    | Stopped

  /** Where the task is between two awaits. */
  datatype Phase =
    | Selecting
    | Sleeping(delay: nat)
    | NotPaused
    /** The session was active when it was read, at this version. */
    | Starting(read: nat)
    | Stopping
    | Done

  datatype Task = Task(seen: nat, failures: nat, phase: Phase, log: seq<Entry>)

  datatype World = World(cell: Cell, paused: bool, task: Task)

  datatype Step =
    | StateChanged(state: SyncState)
    | StatesEnded
    | WokeUp
    | ReadSession
    | Start
    | SessionChanged
    | Stop
    /** `stop_sync` or a new `start_sync`. */
    | Aborted
    /** Anything else the client does. */
    | Client(step: Lifecycle.Step)
    | Pause(paused: bool)

  /** `2u64.saturating_pow(failures).min(30)`. */
  function RestartDelay(failures: nat): nat {
    var power := PowerOfTwo(failures);
    var saturated := if power < 0x1_0000_0000_0000_0000 then power else 0xFFFF_FFFF_FFFF_FFFF;
    if saturated < 30 then saturated else 30
  }

  function PowerOfTwo(n: nat): (p: nat)
    ensures p >= 1
  {
    if n == 0 then 1 else 2 * PowerOfTwo(n - 1)
  }

  /** `failures += 1` on a u32, as release builds compute it. */
  function OneMore(failures: nat): nat {
    (failures + 1) % 0x1_0000_0000
  }

  /** The task starts by subscribing to the session as it is then. */
  function Subscribed(cell: Cell, paused: bool): World {
    World(cell, paused, Task(cell.version, 0, Selecting, []))
  }

  predicate SessionGone(state: SessionState) {
    state.Expired? || state.Locked?
  }

  predicate CanStep(w: World, step: Step) {
    match step
    case StateChanged(_) => w.task.phase.Selecting?
    case StatesEnded => w.task.phase.Selecting?
    case WokeUp => w.task.phase.Sleeping?
    case ReadSession => w.task.phase.NotPaused?
    case Start => w.task.phase.Starting?
    case SessionChanged => w.task.phase.Selecting? && w.task.seen != w.cell.version
    case Stop => w.task.phase.Stopping?
    case Aborted => !w.task.phase.Done?
    case Client(_) => true
    case Pause(_) => true
  }

  function Failed(t: Task, log: seq<Entry>): Task {
    t.(failures := OneMore(t.failures), phase := Selecting, log := log)
  }

  function Stepped(w: World, step: Step): World {
    var t := w.task;
    match step
    case StateChanged(state) =>
      var log := t.log + [Observed(state)];
      (match state
       case Running => w.(task := t.(failures := 0, log := log))
       case Error(error) =>
         if EndsSession(error) then w.(cell := Reported(w.cell, error), task := Failed(t, log))
         else w.(task := t.(phase := Sleeping(RestartDelay(t.failures)), log := log))
       case _ => w.(task := t.(log := log)))
    case StatesEnded => w.(task := t.(phase := Done))
    case WokeUp =>
      if !t.phase.Sleeping? then w else
      var log := t.log + [Slept(t.phase.delay), SawPaused(w.paused)];
      w.(task := if w.paused then Failed(t, log) else t.(phase := NotPaused, log := log))
    case ReadSession =>
      var log := t.log + [SawSession(w.cell.value)];
      w.(task := if w.cell.value.Active? then t.(phase := Starting(w.cell.version), log := log) else Failed(t, log))
    case Start => w.(task := Failed(t, t.log + [Started]))
    case SessionChanged =>
      w.(task := t.(
        seen := w.cell.version,
        phase := if SessionGone(w.cell.value) then Stopping else Selecting,
        log := t.log + [SawSession(w.cell.value)]))
    case Stop => w.(task := t.(phase := Selecting, log := t.log + [Stopped]))
    case Aborted => w.(task := t.(phase := Done))
    case Client(step) => w.(cell := Lifecycle.After(w.cell, step))
    case Pause(paused) => w.(paused := paused)
  }

  ghost predicate Runs(w: World, steps: seq<Step>)
    decreases |steps|
  {
    steps != [] ==> CanStep(w, steps[0]) && Runs(Stepped(w, steps[0]), steps[1..])
  }

  function SteppedAll(w: World, steps: seq<Step>): World
    decreases |steps|
  {
    if steps == [] then w else SteppedAll(Stepped(w, steps[0]), steps[1..])
  }

  /** The task as code: each method runs from one await to the next. */
  class SupervisorTask {
    const lifecycle: LifecycleState
    var seen: nat
    var failures: nat
    var phase: Phase
    var log: seq<Entry>

    function Now(): World
      reads this, lifecycle
    {
      World(lifecycle.Now(), lifecycle.paused, Task(seen, failures, phase, log))
    }

    constructor (lifecycle: LifecycleState)
      ensures this.lifecycle == lifecycle
      ensures Now() == Subscribed(lifecycle.Now(), lifecycle.paused)
    {
      this.lifecycle := lifecycle;
      seen, failures, phase, log := lifecycle.version, 0, Selecting, [];
    }

    method CountFailure()
      modifies `failures, `phase
      ensures failures == OneMore(old(failures)) && phase == Selecting
    {
      failures := OneMore(failures);
      phase := Selecting;
    }

    method OnState(state: SyncState)
      requires CanStep(Now(), StateChanged(state))
      modifies this, lifecycle
      ensures Now() == Stepped(old(Now()), StateChanged(state))
    {
      log := log + [Observed(state)];
      match state {
        case Running => failures := 0;
        case Error(error) =>
          if error.SessionExpired? || error.AccountLocked? {
            lifecycle.Report(error);
            CountFailure();
          } else {
            phase := Sleeping(RestartDelay(failures));
          }
        case _ =>
      }
    }

    method WakeUp()
      requires CanStep(Now(), WokeUp)
      modifies this
      ensures Now() == Stepped(old(Now()), WokeUp)
    {
      log := log + [Slept(phase.delay), SawPaused(lifecycle.paused)];
      if lifecycle.paused {
        CountFailure();
      } else {
        phase := NotPaused;
      }
    }

    method LookAtSession()
      requires CanStep(Now(), ReadSession)
      modifies this
      ensures Now() == Stepped(old(Now()), ReadSession)
    {
      log := log + [SawSession(lifecycle.session)];
      if lifecycle.session != Active {
        CountFailure();
      } else {
        phase := Starting(lifecycle.version);
      }
    }

    method StartService()
      requires CanStep(Now(), Start)
      modifies this
      ensures Now() == Stepped(old(Now()), Start)
    {
      log := log + [Started];
      CountFailure();
    }

    method OnSessionChange()
      requires CanStep(Now(), SessionChanged)
      modifies this
      ensures Now() == Stepped(old(Now()), SessionChanged)
    {
      seen := lifecycle.version;
      var state := lifecycle.session;
      log := log + [SawSession(state)];
      phase := if state == Expired || state == Locked then Stopping else Selecting;
    }

    method StopService()
      requires CanStep(Now(), Stop)
      modifies this
      ensures Now() == Stepped(old(Now()), Stop)
    {
      log := log + [Stopped];
      phase := Selecting;
    }

    /** Whatever happens next, to the task or around it. */
    method Take(step: Step)
      requires CanStep(Now(), step)
      modifies this, lifecycle
      ensures Now() == Stepped(old(Now()), step)
    {
      match step {
        case StateChanged(state) => OnState(state);
        case StatesEnded => phase := Done;
        case WokeUp => WakeUp();
        case ReadSession => LookAtSession();
        case Start => StartService();
        case SessionChanged => OnSessionChange();
        case Stop => StopService();
        case Aborted => phase := Done;
        case Client(client) => lifecycle.Perform(client);
        case Pause(paused) => lifecycle.paused := paused;
      }
    }
  }

  // Safety: a gone session is stopped.

  /** The last command the task gave to the service. */
  function LastCommand(log: seq<Entry>): Option<Entry> {
    if log == [] then None
    else
      var last := log[|log| - 1];
      if last.Started? || last.Stopped? then Some(last) else LastCommand(log[..|log| - 1])
  }

  ghost predicate Safe(w: World, subscribedAt: nat) {
    var t := w.task;
    && subscribedAt <= t.seen <= w.cell.version
    && (t.phase.Starting? ==>
          && t.seen <= t.phase.read <= w.cell.version
          && (t.phase.read == w.cell.version ==> w.cell.value.Active?))
    && (t.seen == w.cell.version && subscribedAt < t.seen && SessionGone(w.cell.value) ==>
          t.phase.Stopping? || t.phase.Done? || LastCommand(t.log) == Some(Stopped))
  }

  lemma CellMoves(c: Cell, step: Lifecycle.Step)
    ensures Lifecycle.After(c, step) == c || Lifecycle.After(c, step).version == c.version + 1
  {
  }

  lemma LogGrows(log: seq<Entry>, entry: Entry)
    ensures LastCommand(log + [entry]) == if entry.Started? || entry.Stopped? then Some(entry) else LastCommand(log)
  {
    assert (log + [entry])[..|log|] == log;
  }

  lemma StepKeepsSafe(w: World, step: Step, subscribedAt: nat)
    requires Safe(w, subscribedAt) && CanStep(w, step)
    ensures Safe(Stepped(w, step), subscribedAt)
  {
    var t := w.task;
    match step
    case StateChanged(state) => LogGrows(t.log, Observed(state));
    case WokeUp =>
      LogGrows(t.log, Slept(t.phase.delay));
      LogGrows(t.log + [Slept(t.phase.delay)], SawPaused(w.paused));
      assert t.log + [Slept(t.phase.delay), SawPaused(w.paused)]
          == (t.log + [Slept(t.phase.delay)]) + [SawPaused(w.paused)];
    case ReadSession => LogGrows(t.log, SawSession(w.cell.value));
    case SessionChanged => LogGrows(t.log, SawSession(w.cell.value));
    case Start => LogGrows(t.log, Started);
    case Stop => LogGrows(t.log, Stopped);
    case Client(client) => CellMoves(w.cell, client);
    case _ =>
  }

  lemma {:induction false} RunKeepsSafe(w: World, steps: seq<Step>, subscribedAt: nat)
    requires Safe(w, subscribedAt) && Runs(w, steps)
    ensures Safe(SteppedAll(w, steps), subscribedAt)
    decreases |steps|
  {
    if steps != [] {
      StepKeepsSafe(w, steps[0], subscribedAt);
      RunKeepsSafe(Stepped(w, steps[0]), steps[1..], subscribedAt);
    }
  }

  /**
   * In every interleaving: once the task waits again after it has processed the latest change since
   * it subscribed, and the session is then expired or locked, its last command was to stop.
   */
  lemma GoneSessionIsStopped(cell: Cell, paused: bool, steps: seq<Step>)
    requires Runs(Subscribed(cell, paused), steps)
    ensures
      var w := SteppedAll(Subscribed(cell, paused), steps);
      && w.task.phase.Selecting?
      && w.task.seen == w.cell.version > cell.version
      && SessionGone(w.cell.value)
      ==> LastCommand(w.task.log) == Some(Stopped)
  {
    RunKeepsSafe(Subscribed(cell, paused), steps, cell.version);
  }

  // Every start follows its checks, and every delay its failure count.

  /** Errors observed since the service last ran. */
  function ErrorsIn(log: seq<Entry>): nat {
    if log == [] then 0
    else
      match log[|log| - 1]
      case Observed(Running) => 0
      case Observed(Error(_)) => 1 + ErrorsIn(log[..|log| - 1])
      case _ => ErrorsIn(log[..|log| - 1])
  }

  lemma ErrorsGrow(log: seq<Entry>, entry: Entry)
    ensures ErrorsIn(log + [entry]) ==
      if entry == Observed(Running) then 0
      else if entry.Observed? && entry.state.Error? then ErrorsIn(log) + 1
      else ErrorsIn(log)
  {
    assert (log + [entry])[..|log|] == log;
  }

  /** The entries before position `i` justify the entry there. */
  ghost predicate Justified(log: seq<Entry>, i: nat)
    requires i < |log|
  {
    match log[i]
    case Started =>
      && i >= 4
      && log[i - 1] == SawSession(Active) && log[i - 2] == SawPaused(false)
      && log[i - 3].Slept? && log[i - 4].Observed? && log[i - 4].state.Error?
    case Stopped => i >= 1 && log[i - 1].SawSession? && SessionGone(log[i - 1].session)
    case Slept(delay) =>
      && i >= 1 && log[i - 1].Observed? && log[i - 1].state.Error? && !EndsSession(log[i - 1].state.error)
      && delay == RestartDelay(ErrorsIn(log[..i - 1]) % 0x1_0000_0000)
    case _ => true
  }

  ghost predicate AllJustified(log: seq<Entry>) {
    forall i | 0 <= i < |log| :: Justified(log, i)
  }

  /** The errors of the log counted by `failures` in this phase: an error under way is not yet. */
  ghost predicate Coherent(t: Task) {
    && AllJustified(t.log)
    && match t.phase
       case Selecting => t.failures == ErrorsIn(t.log) % 0x1_0000_0000
       case Sleeping(delay) => Restarting(t, 1) && delay == RestartDelay(t.failures)
       case NotPaused => Restarting(t, 3)
       case Starting(_) => Restarting(t, 4)
       case Stopping =>
         && t.failures == ErrorsIn(t.log) % 0x1_0000_0000
         && t.log != [] && t.log[|t.log| - 1].SawSession? && SessionGone(t.log[|t.log| - 1].session)
       case Done => true
  }

  /** `n` entries ago an error was observed; since then the task is about to restart the service. */
  ghost predicate Restarting(t: Task, n: nat) {
    && 1 <= n <= |t.log|
    && var k := |t.log| - n;
    && t.log[k].Observed? && t.log[k].state.Error? && !EndsSession(t.log[k].state.error)
    && t.failures == ErrorsIn(t.log[..k]) % 0x1_0000_0000
    && ErrorsIn(t.log) == ErrorsIn(t.log[..k]) + 1
    && (n >= 2 ==> t.log[k + 1].Slept?)
    && (n >= 3 ==> t.log[k + 2] == SawPaused(false))
    && (n >= 4 ==> t.log[k + 3] == SawSession(Active))
  }

  lemma JustifiedGrow(log: seq<Entry>, entry: Entry)
    requires AllJustified(log) && Justified(log + [entry], |log|)
    ensures AllJustified(log + [entry])
  {
    var longer := log + [entry];
    forall i | 0 <= i < |longer| ensures Justified(longer, i) {
      if i < |log| {
        assert Justified(log, i);
        assert i >= 1 ==> longer[..i - 1] == log[..i - 1];
      }
    }
  }

  lemma StepKeepsCoherent(w: World, step: Step)
    requires Coherent(w.task) && CanStep(w, step)
    ensures Coherent(Stepped(w, step).task)
  {
    hide ErrorsIn, AllJustified, RestartDelay;
    match step
    case StateChanged(state) => StateKeepsCoherent(w, state);
    case WokeUp => WakeKeepsCoherent(w);
    case ReadSession => LookKeepsCoherent(w);
    case Start => StartKeepsCoherent(w);
    case SessionChanged => ChangeKeepsCoherent(w);
    case Stop =>
      ErrorsGrow(w.task.log, Stopped);
      JustifiedGrow(w.task.log, Stopped);
    case _ =>
  }

  lemma StateKeepsCoherent(w: World, state: SyncState)
    requires Coherent(w.task) && w.task.phase.Selecting?
    ensures Coherent(Stepped(w, StateChanged(state)).task)
  {
    hide ErrorsIn, AllJustified, Justified, RestartDelay, Reported;
    var t := w.task;
    ErrorsGrow(t.log, Observed(state));
    ObservedIsJustified(t.log, state);
    JustifiedGrow(t.log, Observed(state));
    assert (t.log + [Observed(state)])[..|t.log|] == t.log;
    match state
    case Error(error) =>
    case _ =>
  }

  lemma ObservedIsJustified(log: seq<Entry>, state: SyncState)
    ensures Justified(log + [Observed(state)], |log|)
  {
  }

  lemma WakeKeepsCoherent(w: World)
    requires Coherent(w.task) && w.task.phase.Sleeping?
    ensures Coherent(Stepped(w, WokeUp).task)
  {
    hide ErrorsIn, AllJustified, RestartDelay;
    var log, entry, look := w.task.log, Slept(w.task.phase.delay), SawPaused(w.paused);
    ErrorsGrow(log, entry);
    ErrorsGrow(log + [entry], look);
    assert (log + [entry])[..|log| - 1] == log[..|log| - 1];
    JustifiedGrow(log, entry);
    JustifiedGrow(log + [entry], look);
    assert log + [entry, look] == (log + [entry]) + [look];
    assert (log + [entry, look])[..|log| - 1] == log[..|log| - 1];
  }

  lemma LookKeepsCoherent(w: World)
    requires Coherent(w.task) && w.task.phase.NotPaused?
    ensures Coherent(Stepped(w, ReadSession).task)
  {
    hide ErrorsIn, AllJustified, RestartDelay;
    var log, look := w.task.log, SawSession(w.cell.value);
    ErrorsGrow(log, look);
    JustifiedGrow(log, look);
    assert (log + [look])[..|log| - 3] == log[..|log| - 3];
  }

  lemma StartKeepsCoherent(w: World)
    requires Coherent(w.task) && w.task.phase.Starting?
    ensures Coherent(Stepped(w, Start).task)
  {
    hide ErrorsIn, AllJustified, RestartDelay;
    ErrorsGrow(w.task.log, Started);
    JustifiedGrow(w.task.log, Started);
  }

  lemma ChangeKeepsCoherent(w: World)
    requires Coherent(w.task) && CanStep(w, SessionChanged)
    ensures Coherent(Stepped(w, SessionChanged).task)
  {
    hide ErrorsIn, AllJustified, RestartDelay;
    ErrorsGrow(w.task.log, SawSession(w.cell.value));
    JustifiedGrow(w.task.log, SawSession(w.cell.value));
  }

  lemma {:induction false} RunKeepsCoherent(w: World, steps: seq<Step>)
    requires Coherent(w.task) && Runs(w, steps)
    ensures Coherent(SteppedAll(w, steps).task)
    decreases |steps|
  {
    if steps != [] {
      StepKeepsCoherent(w, steps[0]);
      RunKeepsCoherent(Stepped(w, steps[0]), steps[1..]);
    }
  }

  /**
   * In every interleaving: each start follows, without another command in between, a look that
   * found the client not paused and then one that found the session active; each stop follows a
   * look at a gone session; each delay is the one for the errors since the service last ran.
   */
  lemma CommandsAreJustified(cell: Cell, paused: bool, steps: seq<Step>)
    requires Runs(Subscribed(cell, paused), steps)
    ensures
      var t := SteppedAll(Subscribed(cell, paused), steps).task;
      && AllJustified(t.log)
      && (t.phase.Selecting? ==> t.failures == ErrorsIn(t.log) % 0x1_0000_0000)
  {
    RunKeepsCoherent(Subscribed(cell, paused), steps);
  }

  // The backoff in numbers.

  lemma {:induction false} PowerGrows(m: nat, n: nat)
    requires m <= n
    ensures PowerOfTwo(m) <= PowerOfTwo(n)
    decreases n - m
  {
    if m < n { PowerGrows(m + 1, n); }
  }

  /** 1, 2, 4, 8, 16 seconds, then always 30, for any number of failures. */
  lemma DelayValue(failures: nat)
    ensures RestartDelay(failures) == if failures < 5 then PowerOfTwo(failures) else 30
  {
    assert PowerOfTwo(5) == 32 && PowerOfTwo(4) == 16;
    if failures < 5 { PowerGrows(failures, 4); } else { PowerGrows(5, failures); }
  }

  /** The time spent waiting in `n` consecutive delayed failures. */
  function TotalDelay(n: nat): nat {
    if n == 0 then 0 else TotalDelay(n - 1) + RestartDelay(n - 1)
  }

  lemma {:induction false} TotalDelayValue(n: nat)
    ensures TotalDelay(n) == if n <= 5 then PowerOfTwo(n) - 1 else 31 + 30 * (n - 5)
  {
    if n > 0 {
      TotalDelayValue(n - 1);
      DelayValue(n - 1);
      assert PowerOfTwo(5) == 32;
    }
  }

  // The backoff in a run.

  /** The seconds slept since the service last ran. */
  function SleptIn(log: seq<Entry>): nat {
    if log == [] then 0
    else
      match log[|log| - 1]
      case Observed(Running) => 0
      case Slept(delay) => SleptIn(log[..|log| - 1]) + delay
      case _ => SleptIn(log[..|log| - 1])
  }

  /** Whether an error ended the session since the service last ran; such an error is not delayed. */
  predicate EndedIn(log: seq<Entry>) {
    log != [] &&
    match log[|log| - 1]
    case Observed(Running) => false
    case Observed(Error(error)) => EndsSession(error) || EndedIn(log[..|log| - 1])
    case _ => EndedIn(log[..|log| - 1])
  }

  lemma SleepGrows(log: seq<Entry>, entry: Entry)
    ensures SleptIn(log + [entry]) ==
      if entry == Observed(Running) then 0 else SleptIn(log) + (if entry.Slept? then entry.delay else 0)
    ensures EndedIn(log + [entry]) <==>
      if entry == Observed(Running) then false
      else (entry.Observed? && entry.state.Error? && EndsSession(entry.state.error)) || EndedIn(log)
  {
    assert (log + [entry])[..|log|] == log;
  }

  /** The errors whose delay is over: all but the one being slept on. */
  function DelayedErrors(t: Task): int {
    if t.phase.Sleeping? then ErrorsIn(t.log) - 1 else ErrorsIn(t.log)
  }

  ghost predicate AddsUp(t: Task) {
    !t.phase.Done? && !EndedIn(t.log) && ErrorsIn(t.log) <= 0x1_0000_0000 ==>
      DelayedErrors(t) >= 0 && SleptIn(t.log) == TotalDelay(DelayedErrors(t))
  }

  lemma StepKeepsAddsUp(w: World, step: Step)
    requires Coherent(w.task) && AddsUp(w.task) && CanStep(w, step)
    ensures AddsUp(Stepped(w, step).task)
  {
    hide ErrorsIn, SleptIn, EndedIn, AllJustified, RestartDelay;
    var log := w.task.log;
    match step
    case StateChanged(state) =>
      ErrorsGrow(log, Observed(state));
      SleepGrows(log, Observed(state));
    case WokeUp => WakeKeepsAddsUp(w);
    case ReadSession =>
      ErrorsGrow(log, SawSession(w.cell.value));
      SleepGrows(log, SawSession(w.cell.value));
    case Start =>
      ErrorsGrow(log, Started);
      SleepGrows(log, Started);
    case SessionChanged =>
      ErrorsGrow(log, SawSession(w.cell.value));
      SleepGrows(log, SawSession(w.cell.value));
    case Stop =>
      ErrorsGrow(log, Stopped);
      SleepGrows(log, Stopped);
    case _ =>
  }

  lemma WakeKeepsAddsUp(w: World)
    requires Coherent(w.task) && AddsUp(w.task) && w.task.phase.Sleeping?
    ensures AddsUp(Stepped(w, WokeUp).task)
  {
    hide ErrorsIn, SleptIn, EndedIn, AllJustified, RestartDelay;
    var log, entry, look := w.task.log, Slept(w.task.phase.delay), SawPaused(w.paused);
    ErrorsGrow(log, entry);
    ErrorsGrow(log + [entry], look);
    SleepGrows(log, entry);
    SleepGrows(log + [entry], look);
    assert log + [entry, look] == (log + [entry]) + [look];
  }

  lemma {:induction false} RunKeepsAddsUp(w: World, steps: seq<Step>)
    requires Coherent(w.task) && AddsUp(w.task) && Runs(w, steps)
    ensures AddsUp(SteppedAll(w, steps).task)
    decreases |steps|
  {
    hide Coherent, AddsUp;
    if steps != [] {
      StepKeepsCoherent(w, steps[0]);
      StepKeepsAddsUp(w, steps[0]);
      RunKeepsAddsUp(Stepped(w, steps[0]), steps[1..]);
    }
  }

  /**
   * In every interleaving, whenever the task waits for the next event, n errors since the service
   * last ran that did not end the session have cost 2^n - 1 seconds up to five, and 31 + 30(n - 5)
   * beyond.
   */
  lemma DelaysAddUp(cell: Cell, paused: bool, steps: seq<Step>)
    requires Runs(Subscribed(cell, paused), steps)
    ensures
      var t := SteppedAll(Subscribed(cell, paused), steps).task;
      var n := ErrorsIn(t.log);
      t.phase.Selecting? && !EndedIn(t.log) && n <= 0x1_0000_0000 ==>
        SleptIn(t.log) == if n <= 5 then PowerOfTwo(n) - 1 else 31 + 30 * (n - 5)
  {
    hide Coherent, RestartDelay, PowerOfTwo;
    var w := SteppedAll(Subscribed(cell, paused), steps);
    NewTaskIsCoherent(cell, paused);
    RunKeepsAddsUp(Subscribed(cell, paused), steps);
    TotalDelayValue(ErrorsIn(w.task.log));
  }

  lemma NewTaskIsCoherent(cell: Cell, paused: bool)
    ensures
      var w := Subscribed(cell, paused);
      Coherent(w.task) && AddsUp(w.task)
  {
  }
}
