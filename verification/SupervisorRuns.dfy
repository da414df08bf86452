/**
 * Runs of the supervisor task: its log against what happened around it, what each entry calls for,
 * and the task run as code.
 */
module SupervisorRuns {
  import opened ErrorClassification
  import opened Lifecycle
  import opened Supervisor
  import opened Wrappers

  type Step = Supervisor.Step

  // What each entry of the log calls for.

  /** The session was looked at before a restart, with the client not paused. */
  predicate BeforeRestart(log: seq<Entry>, i: nat)
    requires i < |log|
  {
    log[i].SawSession? && i > 0 && log[i - 1] == SawPaused(false)
  }

  /** An error that does not end the session calls for a delay, and so on up to the start; a gone session for a stop. */
  predicate CallsFor(log: seq<Entry>, i: nat)
    requires i < |log|
  {
    match log[i]
    case Observed(Error(error)) => !EndsSession(error)
    case Slept(_) => true
    case SawPaused(paused) => !paused
    case SawSession(state) => if BeforeRestart(log, i) then state.Active? else SessionGone(state)
    case _ => false
  }

  predicate Answers(log: seq<Entry>, i: nat, next: Entry)
    requires i < |log|
  {
    match log[i]
    case Observed(_) => next.Slept?
    case Slept(_) => next.SawPaused?
    case SawPaused(_) => next.SawSession?
    case _ => if BeforeRestart(log, i) then next == Started else next == Stopped
  }

  ghost predicate AllAnswered(log: seq<Entry>) {
    forall i | 0 <= i < |log| - 1 :: CallsFor(log, i) ==> Answers(log, i, log[i + 1])
  }

  predicate Pending(log: seq<Entry>) {
    log != [] && CallsFor(log, |log| - 1)
  }

  /** Something is called for exactly while the task is about to do it. */
  ghost predicate Prompt(t: Task) {
    && AllAnswered(t.log)
    && match t.phase
       case Selecting => !Pending(t.log)
       case Sleeping(_) => Pending(t.log) && t.log[|t.log| - 1].Observed?
       case NotPaused => Pending(t.log) && t.log[|t.log| - 1].SawPaused?
       case Starting(_) => Pending(t.log) && BeforeRestart(t.log, |t.log| - 1)
       case Stopping => Pending(t.log) && t.log[|t.log| - 1].SawSession? && !BeforeRestart(t.log, |t.log| - 1)
       case Done => true
  }

  lemma AnsweredGrow(log: seq<Entry>, entry: Entry)
    requires AllAnswered(log) && (Pending(log) ==> Answers(log, |log| - 1, entry))
    ensures AllAnswered(log + [entry])
    ensures Pending(log + [entry]) <==>
      match entry
      case Observed(Error(error)) => !EndsSession(error)
      case Slept(_) => true
      case SawPaused(paused) => !paused
      case SawSession(state) =>
        if log != [] && log[|log| - 1] == SawPaused(false) then state.Active? else SessionGone(state)
      case _ => false
  {
    var longer := log + [entry];
    forall i | 0 <= i < |log| ensures CallsFor(longer, i) == CallsFor(log, i) {
    }
    forall i | 0 <= i < |longer| - 1 && CallsFor(longer, i) ensures Answers(longer, i, longer[i + 1]) {
      assert i < |log| - 1 ==> Answers(log, i, log[i + 1]);
    }
  }

  lemma StepKeepsPrompt(w: World, step: Step)
    requires Prompt(w.task) && CanStep(w, step)
    ensures Prompt(Stepped(w, step).task)
  {
    hide AllAnswered, Reported, RestartDelay;
    var log := w.task.log;
    match step
    case StateChanged(state) => AnsweredGrow(log, Observed(state));
    case WokeUp =>
      var slept := Slept(w.task.phase.delay);
      AnsweredGrow(log, slept);
      AnsweredGrow(log + [slept], SawPaused(w.paused));
      assert log + [slept, SawPaused(w.paused)] == (log + [slept]) + [SawPaused(w.paused)];
    case ReadSession => AnsweredGrow(log, SawSession(w.cell.value));
    case SessionChanged => AnsweredGrow(log, SawSession(w.cell.value));
    case Start => AnsweredGrow(log, Started);
    case Stop => AnsweredGrow(log, Stopped);
    case _ =>
  }

  lemma {:induction false} RunKeepsPrompt(w: World, steps: seq<Step>)
    requires Prompt(w.task) && Runs(w, steps)
    ensures Prompt(SteppedAll(w, steps).task)
    decreases |steps|
  {
    hide Prompt;
    if steps != [] {
      StepKeepsPrompt(w, steps[0]);
      RunKeepsPrompt(Stepped(w, steps[0]), steps[1..]);
    }
  }

  /** What is called for can be done, and nothing else; a waiting task takes whatever comes. */
  ghost predicate GoesOn(w: World) {
    && (Pending(w.task.log) ==> CanStep(w, WokeUp) || CanStep(w, ReadSession) || CanStep(w, Start) || CanStep(w, Stop))
    && (!Pending(w.task.log) ==>
          && (forall state :: CanStep(w, StateChanged(state)))
          && (CanStep(w, SessionChanged) <==> w.task.seen != w.cell.version))
  }

  /**
   * In every interleaving, nothing is left out: a delay follows each error that does not end the
   * session, the two looks follow the delay, the start follows the looks if they found the client
   * not paused and the session active, and a stop follows each other look at a gone session. A task
   * that waits for the next event owes nothing, and a task that does not wait can go on.
   */
  lemma NothingIsLeftOut(cell: Cell, paused: bool, steps: seq<Step>)
    requires Runs(Subscribed(cell, paused), steps)
    ensures
      var w := SteppedAll(Subscribed(cell, paused), steps);
      && AllAnswered(w.task.log)
      && (w.task.phase.Selecting? ==> !Pending(w.task.log))
      && (!w.task.phase.Done? ==> GoesOn(w))
  {
    RunKeepsPrompt(Subscribed(cell, paused), steps);
  }

  // What happened around the task, told from the steps alone.

  /** What the steps do to the session: the client's own steps, and the errors the task reports. */
  function SessionSteps(steps: seq<Step>): seq<Lifecycle.Step> {
    if steps == [] then []
    else SessionStep(steps[0]) + SessionSteps(steps[1..])
  }

  function SessionStep(step: Step): seq<Lifecycle.Step> {
    match step
    case Client(client) => [client]
    case StateChanged(Error(error)) => [CallFailed(error)]
    case _ => []
  }

  function LastPause(paused: bool, steps: seq<Step>): bool
    decreases |steps|
  {
    if steps == [] then paused
    else LastPause(if steps[0].Pause? then steps[0].paused else paused, steps[1..])
  }

  /** The version the task has seen: the one at the last change it processed. */
  function LastSeen(cell: Cell, seen: nat, steps: seq<Step>): nat
    decreases |steps|
  {
    if steps == [] then seen
    else LastSeen(
      AfterAll(cell, SessionStep(steps[0])), if steps[0].SessionChanged? then cell.version else seen, steps[1..])
  }

  /** What a truthful log says about the steps, but for the length of the delays. */
  function Happened(cell: Cell, paused: bool, steps: seq<Step>): seq<Entry>
    decreases |steps|
  {
    if steps == [] then []
    else
      var told := match steps[0]
        case StateChanged(state) => [Observed(state)]
        case WokeUp => [SawPaused(paused)]
        case ReadSession => [SawSession(cell.value)]
        case SessionChanged => [SawSession(cell.value)]
        case Start => [Started]
        case Stop => [Stopped]
        case _ => [];
      told + Happened(
        AfterAll(cell, SessionStep(steps[0])), if steps[0].Pause? then steps[0].paused else paused, steps[1..])
  }

  function Told(log: seq<Entry>): seq<Entry> {
    if log == [] then []
    else Told(log[..|log| - 1]) + if log[|log| - 1].Slept? then [] else [log[|log| - 1]]
  }

  lemma ToldGrows(log: seq<Entry>, entry: Entry)
    ensures Told(log + [entry]) == Told(log) + if entry.Slept? then [] else [entry]
  {
    assert (log + [entry])[..|log|] == log;
  }

  lemma OneSessionStep(w: World, step: Step)
    requires CanStep(w, step)
    ensures Stepped(w, step).cell == AfterAll(w.cell, SessionStep(step))
    ensures Stepped(w, step).paused == if step.Pause? then step.paused else w.paused
    ensures Stepped(w, step).task.seen == if step.SessionChanged? then w.cell.version else w.task.seen
  {
    var steps := SessionStep(step);
    if steps != [] {
      assert steps == [steps[0]] && steps[1..] == [];
    }
  }

  lemma OneToldStep(w: World, step: Step)
    requires CanStep(w, step)
    ensures Told(Stepped(w, step).task.log) == Told(w.task.log) + Happened(w.cell, w.paused, [step])
  {
    hide Told, AfterAll, Reported, RestartDelay;
    var log := w.task.log;
    assert [step][1..] == [];
    match step
    case StateChanged(state) => ToldGrows(log, Observed(state));
    case WokeUp =>
      var slept := Slept(w.task.phase.delay);
      ToldGrows(log, slept);
      ToldGrows(log + [slept], SawPaused(w.paused));
      assert log + [slept, SawPaused(w.paused)] == (log + [slept]) + [SawPaused(w.paused)];
    case ReadSession => ToldGrows(log, SawSession(w.cell.value));
    case SessionChanged => ToldGrows(log, SawSession(w.cell.value));
    case Start => ToldGrows(log, Started);
    case Stop => ToldGrows(log, Stopped);
    case _ =>
  }

  lemma HappenedFirst(cell: Cell, paused: bool, steps: seq<Step>)
    requires steps != []
    ensures Happened(cell, paused, steps) == Happened(cell, paused, [steps[0]]) + Happened(
      AfterAll(cell, SessionStep(steps[0])), if steps[0].Pause? then steps[0].paused else paused, steps[1..])
  {
    assert [steps[0]][1..] == [];
  }

  lemma {:induction false} SessionSplits(cell: Cell, a: seq<Lifecycle.Step>, b: seq<Lifecycle.Step>)
    ensures AfterAll(cell, a + b) == AfterAll(AfterAll(cell, a), b)
    decreases |a|
  {
    if a == [] {
      assert a + b == b;
    } else {
      assert (a + b)[0] == a[0] && (a + b)[1..] == a[1..] + b;
      SessionSplits(Lifecycle.After(cell, a[0]), a[1..], b);
    }
  }

  /** In every interleaving, session, pause and log are what the steps make them. */
  lemma {:induction false} LogIsTruthful(w: World, steps: seq<Step>)
    requires Runs(w, steps)
    ensures
      var after := SteppedAll(w, steps);
      && after.cell == AfterAll(w.cell, SessionSteps(steps))
      && after.paused == LastPause(w.paused, steps)
      && after.task.seen == LastSeen(w.cell, w.task.seen, steps)
      && Told(after.task.log) == Told(w.task.log) + Happened(w.cell, w.paused, steps)
    decreases |steps|
  {
    hide Told, Happened, Stepped, CanStep, SessionStep, AfterAll;
    if steps == [] {
      NothingHappens(w);
    } else {
      var next := Stepped(w, steps[0]);
      OneSessionStep(w, steps[0]);
      OneToldStep(w, steps[0]);
      HappenedFirst(w.cell, w.paused, steps);
      LogIsTruthful(next, steps[1..]);
      SessionSplits(w.cell, SessionStep(steps[0]), SessionSteps(steps[1..]));
      Associative(
        Told(w.task.log), Happened(w.cell, w.paused, [steps[0]]), Happened(next.cell, next.paused, steps[1..]));
    }
  }

  lemma NothingHappens(w: World)
    ensures AfterAll(w.cell, []) == w.cell
    ensures Told(w.task.log) + Happened(w.cell, w.paused, []) == Told(w.task.log)
  {
  }

  lemma Associative<T>(a: seq<T>, b: seq<T>, c: seq<T>)
    ensures a + (b + c) == (a + b) + c
  {
  }

  /** Once the service's states have ended or the task was aborted, it does nothing any more. */
  lemma {:induction false} NothingAfterTheEnd(w: World, steps: seq<Step>, i: nat, j: nat)
    requires Runs(w, steps) && i < j < |steps|
    requires steps[i].StatesEnded? || steps[i].Aborted?
    ensures steps[j].Client? || steps[j].Pause?
    decreases |steps|
  {
    hide SteppedAll;
    if i > 0 {
      NothingAfterTheEnd(Stepped(w, steps[0]), steps[1..], i - 1, j - 1);
    } else {
      DoneStays(Stepped(w, steps[0]), steps[1..], j - 1);
    }
  }

  lemma {:induction false} DoneStays(w: World, steps: seq<Step>, j: nat)
    requires Runs(w, steps) && w.task.phase.Done? && j < |steps|
    ensures steps[j].Client? || steps[j].Pause?
    decreases |steps|
  {
    if j > 0 {
      DoneStays(Stepped(w, steps[0]), steps[1..], j - 1);
    }
  }

  /** The events that can happen when they are due; the others are passed over. */
  function Due(w: World, events: seq<Step>): seq<Step>
    decreases |events|
  {
    if events == [] then []
    else if CanStep(w, events[0]) then [events[0]] + Due(Stepped(w, events[0]), events[1..])
    else Due(w, events[1..])
  }

  lemma {:induction false} DueRuns(w: World, events: seq<Step>)
    ensures Runs(w, Due(w, events))
    decreases |events|
  {
    hide CanStep, Stepped;
    if events != [] {
      if CanStep(w, events[0]) {
        DueRuns(Stepped(w, events[0]), events[1..]);
        assert Due(w, events)[1..] == Due(Stepped(w, events[0]), events[1..]);
      } else {
        DueRuns(w, events[1..]);
      }
    }
  }

  lemma DueStep(w: World, events: seq<Step>)
    requires events != []
    ensures SteppedAll(w, Due(w, events)) ==
      var next := if CanStep(w, events[0]) then Stepped(w, events[0]) else w;
      SteppedAll(next, Due(next, events[1..]))
  {
    hide CanStep, Stepped;
    if CanStep(w, events[0]) {
      assert Due(w, events)[1..] == Due(Stepped(w, events[0]), events[1..]);
    }
  }

  /**
   * The task among everything else that happens, subscribed after the client has done `before`:
   * exactly the events that can happen when they are due do happen.
   */
  method Supervise(before: seq<Lifecycle.Step>, paused: bool, events: seq<Step>) returns (w: World)
    ensures
      var start := Subscribed(AfterAll(NEW_CELL, before), paused);
      w == SteppedAll(start, Due(start, events))
    // Every start, stop and delay is justified by what was seen before it.
    ensures AllJustified(w.task.log)
    // What a look or an error calls for is done before the task waits again.
    ensures AllAnswered(w.task.log)
    ensures w.task.phase.Selecting? ==> !Pending(w.task.log)
    ensures !w.task.phase.Done? ==> GoesOn(w)
    // The log tells what happened.
    ensures
      var cell := AfterAll(NEW_CELL, before);
      var steps := Due(Subscribed(cell, paused), events);
      && w.cell == AfterAll(cell, SessionSteps(steps))
      && Told(w.task.log) == Happened(cell, paused, steps)
    // A gone session is stopped.
    ensures
      w.task.phase.Selecting? && w.task.seen == w.cell.version > Changes(NEW_CELL, before) && SessionGone(w.cell.value)
      ==> LastCommand(w.task.log) == Some(Stopped)
    // The count and the waiting time are those of the errors since the service last ran.
    ensures w.task.phase.Selecting? ==> w.task.failures == ErrorsIn(w.task.log) % 0x1_0000_0000
    ensures
      var n := ErrorsIn(w.task.log);
      w.task.phase.Selecting? && !EndedIn(w.task.log) && n <= 0x1_0000_0000 ==>
        SleptIn(w.task.log) == if n <= 5 then PowerOfTwo(n) - 1 else 31 + 30 * (n - 5)
  {
    hide AllAnswered, Pending, GoesOn, Happened, SessionSteps, AllJustified, Stepped, CanStep;
    hide SteppedAll, Due, LastCommand, ErrorsIn, SleptIn, EndedIn, PowerOfTwo;
    var lifecycle := new LifecycleState();
    for i := 0 to |before|
      invariant fresh(lifecycle) && !lifecycle.paused
      invariant lifecycle.Now() == AfterAll(NEW_CELL, before[..i])
    {
      assert before[..i + 1] == before[..i] + [before[i]];
      RunAppend(NEW_CELL, before[..i], before[i]);
      lifecycle.Perform(before[i]);
    }
    assert before[..|before|] == before;
    lifecycle.paused := paused;
    ghost var cell := AfterAll(NEW_CELL, before);
    ghost var start := Subscribed(cell, paused);
    var task := new SupervisorTask(lifecycle);
    assert events[0..] == events;
    for i := 0 to |events|
      invariant fresh(lifecycle) && fresh(task) && task.lifecycle == lifecycle
      invariant SteppedAll(task.Now(), Due(task.Now(), events[i..])) == SteppedAll(start, Due(start, events))
    {
      DueStep(task.Now(), events[i..]);
      assert events[i..][0] == events[i] && events[i..][1..] == events[i + 1..];
      if CanStep(task.Now(), events[i]) {
        task.Take(events[i]);
      }
    }
    w := task.Now();
    NothingIsDue(w);
    assert events[|events|..] == [];
    DueRuns(start, events);
    GoneSessionIsStopped(cell, paused, Due(start, events));
    CommandsAreJustified(cell, paused, Due(start, events));
    DelaysAddUp(cell, paused, Due(start, events));
    NothingIsLeftOut(cell, paused, Due(start, events));
    LogIsTruthful(start, Due(start, events));
    assert Told([]) == [];
    VersionCountsChanges(NEW_CELL, before);
  }

  lemma NothingIsDue(w: World)
    ensures SteppedAll(w, Due(w, [])) == w
  {
  }
}
