/** Runs of the room list watches, told by the positions of their steps. */
module RegistryRuns {
  import opened RoomListRegistry
  import opened RoomListTask
  import opened Wrappers

  type Step = RoomListRegistry.Step

  function At(steps: seq<Step>): Watches
    requires Runs(NO_WATCHES, steps)
  {
    RoomListRegistry.AfterAll(NO_WATCHES, steps)
  }

  lemma {:induction false} RunAppend(w: Watches, front: seq<Step>, last: Step)
    ensures Runs(w, front + [last]) <==> Runs(w, front) && CanStep(RoomListRegistry.AfterAll(w, front), last)
    ensures Runs(w, front + [last]) ==>
      RoomListRegistry.AfterAll(w, front + [last]) == Stepped(RoomListRegistry.AfterAll(w, front), last)
    decreases |front|
  {
    hide Stepped, CanStep;
    if front == [] {
      assert [last][1..] == [];
    } else {
      assert (front + [last])[0] == front[0] && (front + [last])[1..] == front[1..] + [last];
      if CanStep(w, front[0]) {
        RunAppend(Stepped(w, front[0]), front[1..], last);
      }
    }
  }

  /** The run without its last step, and the state in which that step is taken. */
  lemma Unroll(steps: seq<Step>)
    requires steps != [] && Runs(NO_WATCHES, steps)
    ensures
      var front, last := steps[..|steps| - 1], steps[|steps| - 1];
      && steps == front + [last]
      && Runs(NO_WATCHES, front) && CanStep(At(front), last) && At(steps) == Stepped(At(front), last)
      && Consistent(At(front))
  {
    hide Stepped, CanStep, Consistent;
    var front, last := steps[..|steps| - 1], steps[|steps| - 1];
    assert steps == front + [last];
    RunAppend(NO_WATCHES, front, last);
    NoWatchesAreConsistent();
    RunKeepsConsistent(NO_WATCHES, front);
  }

  lemma NoWatchesAreConsistent()
    ensures Consistent(NO_WATCHES)
  {
  }

  // What the steps say, without the states.

  /** Step `k` registers a task that was spawned for this watch. */
  predicate Registers(steps: seq<Step>, k: nat, id: nat)
    requires k < |steps|
  {
    steps[k].Register? && Spawn(steps[k].task, id) in steps[..k]
  }

  predicate Clears(step: Step, id: nat) {
    step == Step.Stop(id) || step.StopAll?
  }

  /** The registration made by step `k` is neither stopped nor replaced. */
  ghost predicate Holds(steps: seq<Step>, k: nat, id: nat) {
    && k < |steps| && Registers(steps, k, id)
    && forall j | k < j < |steps| :: !Clears(steps[j], id) && !Registers(steps, j, id)
  }

  /** Some step stops the watch while it is registered with this task. */
  ghost predicate WasStopped(steps: seq<Step>, task: nat) {
    exists j: nat, k: nat, id: nat :: StoppedBy(steps, task, j, k, id)
  }

  ghost predicate StoppedBy(steps: seq<Step>, task: nat, j: nat, k: nat, id: nat) {
    j < |steps| && Holds(steps[..j], k, id) && steps[k] == Register(task) && Clears(steps[j], id)
  }

  lemma HoldsGrows(front: seq<Step>, last: Step, k: nat, id: nat)
    ensures
      var steps := front + [last];
      Holds(steps, k, id) <==>
        if k == |front| then Registers(steps, |front|, id)
        else Holds(front, k, id) && !Clears(last, id) && !Registers(steps, |front|, id)
  {
    var steps := front + [last];
    assert steps[|front|] == last;
    forall i | 0 <= i < |front| ensures Registers(steps, i, id) <==> Registers(front, i, id) {
      assert steps[i] == front[i] && steps[..i] == front[..i];
    }
    if k < |front| && Holds(front, k, id) && !Clears(last, id) && !Registers(steps, |front|, id) {
      forall j | k < j < |steps| ensures !Clears(steps[j], id) && !Registers(steps, j, id) {
        if j < |front| {
          assert !Clears(front[j], id) && !Registers(front, j, id);
        }
      }
    }
    if k < |front| && Holds(steps, k, id) {
      assert forall j | k < j < |front| :: !Clears(steps[j], id) && !Registers(steps, j, id) && steps[j] == front[j];
    }
  }

  lemma StoppedGrows(front: seq<Step>, last: Step, task: nat)
    ensures WasStopped(front + [last], task) <==>
      || WasStopped(front, task)
      || exists k: nat, id: nat :: Holds(front, k, id) && front[k] == Register(task) && Clears(last, id)
  {
    hide Holds;
    var steps := front + [last];
    assert steps[..|front|] == front && steps[|front|] == last;
    assert forall i | 0 <= i < |front| :: steps[i] == front[i] && steps[..i] == front[..i];
    forall k: nat, id: nat ensures Holds(front, k, id) ==> k < |front| && front[k].Register? {
      HoldsBefore(front, k, id);
    }
    if WasStopped(steps, task) {
      var j: nat, k: nat, id: nat :| StoppedBy(steps, task, j, k, id);
      HoldsBefore(steps[..j], k, id);
      if j < |front| {
        assert StoppedBy(front, task, j, k, id);
      } else {
        assert Holds(front, k, id) && front[k] == Register(task) && Clears(last, id);
      }
    }
    if WasStopped(front, task) {
      var j: nat, k: nat, id: nat :| StoppedBy(front, task, j, k, id);
      HoldsBefore(front[..j], k, id);
      assert StoppedBy(steps, task, j, k, id);
    }
    if k: nat, id: nat :| k < |front| && Holds(front, k, id) && front[k] == Register(task) && Clears(last, id) {
      HoldsBefore(front, k, id);
      assert StoppedBy(steps, task, |front|, k, id);
    }
  }

  lemma HoldsBefore(steps: seq<Step>, k: nat, id: nat)
    ensures Holds(steps, k, id) ==> k < |steps| && steps[k].Register?
  {
  }

  /** The tasks are the spawned ones, each for its watch. */
  lemma {:induction false} TasksAreSpawned(steps: seq<Step>)
    requires Runs(NO_WATCHES, steps)
    ensures forall t, id :: Spawn(t, id) in steps <==> t in At(steps).tasks && At(steps).tasks[t].watchId == id
    decreases |steps|
  {
    if steps != [] {
      Unroll(steps);
      var front, last := steps[..|steps| - 1], steps[|steps| - 1];
      TasksAreSpawned(front);
      SpawnGrows(front, last);
      WatchIdsStay(At(front), last);
    }
  }

  lemma SpawnGrows(front: seq<Step>, last: Step)
    ensures forall step :: step in front + [last] <==> step in front || step == last
  {
  }

  lemma WatchIdsStay(w: Watches, step: Step)
    requires CanStep(w, step) && Consistent(w)
    ensures forall t :: t in Stepped(w, step).tasks <==> t in w.tasks || (step.Spawn? && step.task == t)
    ensures forall t | t in Stepped(w, step).tasks ::
      Stepped(w, step).tasks[t].watchId == if t in w.tasks then w.tasks[t].watchId else step.watchId
  {
  }

  /** A watch is registered exactly when some registration of it holds, and then with that task. */
  lemma {:induction false} RegistryByPosition(steps: seq<Step>)
    requires Runs(NO_WATCHES, steps)
    ensures forall id: nat :: id in At(steps).registry <==> exists k: nat :: Holds(steps, k, id)
    ensures forall k: nat, id | Holds(steps, k, id) :: steps[k] == Register(At(steps).registry[id])
    decreases |steps|
  {
    if steps != [] {
      Unroll(steps);
      var front, last := steps[..|steps| - 1], steps[|steps| - 1];
      RegistryByPosition(front);
      TasksAreSpawned(front);
      forall id: nat
        ensures id in At(steps).registry <==> exists k: nat :: Holds(steps, k, id)
        ensures forall k: nat | Holds(steps, k, id) :: steps[k] == Register(At(steps).registry[id])
      {
        RegistrationGrows(front, last, id);
      }
    }
  }

  lemma RegistrationGrows(front: seq<Step>, last: Step, id: nat)
    requires Runs(NO_WATCHES, front) && CanStep(At(front), last)
    requires forall t :: Spawn(t, id) in front <==> t in At(front).tasks && At(front).tasks[t].watchId == id
    requires id in At(front).registry <==> exists k: nat :: Holds(front, k, id)
    requires forall k: nat | Holds(front, k, id) :: front[k] == Register(At(front).registry[id])
    ensures
      var steps, w := front + [last], Stepped(At(front), last);
      && (id in w.registry <==> exists k: nat :: Holds(steps, k, id))
      && forall k: nat | Holds(steps, k, id) :: steps[k] == Register(w.registry[id])
  {
    hide Holds, At;
    var steps, before := front + [last], At(front);
    assert steps[|front|] == last && steps[..|front|] == front;
    assert forall i | 0 <= i < |front| :: steps[i] == front[i];
    forall k: nat
      ensures Holds(steps, k, id) <==>
        if k == |front| then Registers(steps, |front|, id)
        else Holds(front, k, id) && !Clears(last, id) && !Registers(steps, |front|, id)
      ensures Holds(front, k, id) ==> k < |front|
    {
      HoldsGrows(front, last, k, id);
      HoldsBefore(front, k, id);
    }
    assert Registers(steps, |front|, id) <==> last.Register? && before.tasks[last.task].watchId == id;
    RegistryStep(before, last, id);
    if Registers(steps, |front|, id) {
      assert Holds(steps, |front|, id);
    } else if id in before.registry && !Clears(last, id) {
      var k: nat :| Holds(front, k, id);
      assert Holds(steps, k, id);
    }
  }

  lemma RegistryStep(w: Watches, step: Step, id: nat)
    requires CanStep(w, step)
    ensures
      var next, registered := Stepped(w, step).registry, step.Register? && w.tasks[step.task].watchId == id;
      && (id in next <==> registered || (id in w.registry && !Clears(step, id)))
      && (id in next ==> next[id] == if registered then step.task else w.registry[id])
  {
  }

  /** A task is aborted exactly when its watch was stopped while registered with it, or it was replaced. */
  lemma {:induction false} AbortedByPosition(steps: seq<Step>)
    requires Runs(NO_WATCHES, steps)
    ensures forall t | t in At(steps).tasks ::
      At(steps).tasks[t].aborted <==> AbortReplaced(t) in steps || WasStopped(steps, t)
    ensures forall t | t !in At(steps).tasks :: AbortReplaced(t) !in steps && !WasStopped(steps, t)
    decreases |steps|
  {
    hide Holds, WasStopped;
    if steps == [] {
      NothingWasStopped();
    } else {
      Unroll(steps);
      var front, last := steps[..|steps| - 1], steps[|steps| - 1];
      AbortedByPosition(front);
      RegistryByPosition(front);
      SpawnGrows(front, last);
      forall t: nat
        ensures t in At(steps).tasks ==>
          (At(steps).tasks[t].aborted <==> AbortReplaced(t) in steps || WasStopped(steps, t))
        ensures t !in At(steps).tasks ==> AbortReplaced(t) !in steps && !WasStopped(steps, t)
      {
        StoppedGrows(front, last, t);
        ClearedByPosition(front, last, t);
        AbortStep(At(front), last, t);
      }
    }
  }

  lemma NothingWasStopped()
    ensures forall t :: !WasStopped([], t)
  {
  }

  /** A step clears the registration of a task exactly when it clears the watch registered with it. */
  ghost predicate ClearsTask(w: Watches, step: Step, task: nat) {
    exists id :: id in w.registry && w.registry[id] == task && Clears(step, id)
  }

  lemma ClearedByPosition(front: seq<Step>, last: Step, task: nat)
    requires Runs(NO_WATCHES, front)
    requires forall id: nat :: id in At(front).registry <==> exists k: nat :: Holds(front, k, id)
    requires forall k: nat, id | Holds(front, k, id) :: front[k] == Register(At(front).registry[id])
    ensures ClearsTask(At(front), last, task) <==>
      exists k: nat, id: nat :: Holds(front, k, id) && front[k] == Register(task) && Clears(last, id)
  {
    hide Holds, At;
    if ClearsTask(At(front), last, task) {
      var id :| id in At(front).registry && At(front).registry[id] == task && Clears(last, id);
      var k: nat :| Holds(front, k, id);
      HoldsBefore(front, k, id);
      assert front[k] == Register(task);
    }
    if k: nat, id: nat :| k < |front| && Holds(front, k, id) && front[k] == Register(task) && Clears(last, id) {
      assert id in At(front).registry && At(front).registry[id] == task;
    }
  }

  lemma AbortStep(w: Watches, step: Step, task: nat)
    requires CanStep(w, step) && Consistent(w)
    ensures task in Stepped(w, step).tasks <==> task in w.tasks || (step.Spawn? && step.task == task)
    ensures task in w.tasks ==>
      (Stepped(w, step).tasks[task].aborted <==>
        w.tasks[task].aborted || step == AbortReplaced(task) || ClearsTask(w, step, task))
    ensures task !in w.tasks ==> !ClearsTask(w, step, task) && step != AbortReplaced(task)
    ensures task !in w.tasks && task in Stepped(w, step).tasks ==> !Stepped(w, step).tasks[task].aborted
  {
  }

  /** A task has ended exactly when it said so. */
  lemma {:induction false} EndedByPosition(steps: seq<Step>)
    requires Runs(NO_WATCHES, steps)
    ensures forall t | t in At(steps).tasks :: At(steps).tasks[t].ended <==> End(t) in steps
    ensures forall t | t !in At(steps).tasks :: End(t) !in steps
    decreases |steps|
  {
    if steps != [] {
      Unroll(steps);
      var front, last := steps[..|steps| - 1], steps[|steps| - 1];
      EndedByPosition(front);
      SpawnGrows(front, last);
      EndStep(At(front), last);
    }
  }

  lemma EndStep(w: Watches, step: Step)
    requires CanStep(w, step) && Consistent(w)
    ensures forall t :: t in Stepped(w, step).tasks <==> t in w.tasks || (step.Spawn? && step.task == t)
    ensures forall t | t in Stepped(w, step).tasks ::
      Stepped(w, step).tasks[t].ended <==> t in w.tasks && (w.tasks[t].ended || step == End(t))
    ensures forall t | t !in w.tasks :: step != End(t)
  {
  }

  // Channels: first in, first out, and nothing is lost.

  /** The command a step sends to the task, if its watch is registered with it and it still listens. */
  function SentBy(w: Watches, step: Step, task: nat): seq<RoomListCommand> {
    if task !in w.tasks || !Open(w.tasks[task]) then []
    else if step.Send? && step.watchId in w.registry && w.registry[step.watchId] == task then [step.command]
    else if step.RefilterAll? && task in w.registry.Values then [Refilter]
    else []
  }

  function Sent(steps: seq<Step>, task: nat): seq<RoomListCommand>
    requires Runs(NO_WATCHES, steps)
    decreases |steps|
  {
    if steps == [] then []
    else
      Unroll(steps);
      Sent(steps[..|steps| - 1], task) + SentBy(At(steps[..|steps| - 1]), steps[|steps| - 1], task)
  }

  function Taken(steps: seq<Step>, task: nat): nat {
    if steps == [] then 0
    else Taken(steps[..|steps| - 1], task) + if steps[|steps| - 1] == Receive(task) then 1 else 0
  }

  /** The queue holds what was sent and not yet taken; the filter is the one of the commands taken. */
  lemma {:induction false} QueueIsWhatWasSent(steps: seq<Step>, task: nat)
    requires Runs(NO_WATCHES, steps)
    ensures task !in At(steps).tasks ==> Sent(steps, task) == [] && Taken(steps, task) == 0
    ensures task in At(steps).tasks ==>
      var t, sent, taken := At(steps).tasks[task], Sent(steps, task), Taken(steps, task);
      taken <= |sent| && t.queue == sent[taken..] && t.activeFilter == Pending(All, sent[..taken])
    decreases |steps|
  {
    hide Stepped, CanStep, Consistent, At, SentBy, Pending;
    NothingSent();
    if steps != [] {
      Unroll(steps);
      var front, last := steps[..|steps| - 1], steps[|steps| - 1];
      QueueIsWhatWasSent(front, task);
      QueueStep(At(front), last, task);
      if task in At(front).tasks {
        QueueGrows(Sent(front, task), SentBy(At(front), last, task), Taken(front, task), last == Receive(task));
      }
    }
  }

  lemma NothingSent()
    ensures At([]).tasks == map[] && Pending(All, []) == All
  {
  }

  /** Sending puts a command at the end, taking removes the first and lets it choose the filter. */
  lemma QueueGrows(sent: seq<RoomListCommand>, more: seq<RoomListCommand>, taken: nat, takes: bool)
    requires taken <= |sent| && (takes ==> taken < |sent| && more == [])
    ensures (sent + more)[taken..] == sent[taken..] + more
    ensures (sent + more)[..taken] == sent[..taken]
    ensures takes ==>
      && (sent + more)[taken + 1..] == sent[taken..][1..] && sent[taken..][0] == sent[taken]
      && Pending(All, (sent + more)[..taken + 1]) ==
         FilterAfter(Pending(All, sent[..taken]), Command(Some(sent[taken])))
  {
    if takes {
      PendingAppend(All, sent[..taken], sent[taken]);
      assert (sent + more)[..taken + 1] == sent[..taken] + [sent[taken]];
    }
  }

  lemma QueueStep(w: Watches, step: Step, task: nat)
    requires CanStep(w, step) && Consistent(w)
    ensures task in Stepped(w, step).tasks <==> task in w.tasks || (step.Spawn? && step.task == task)
    ensures task !in w.tasks ==> SentBy(w, step, task) == [] && step != Receive(task)
    ensures task !in w.tasks && task in Stepped(w, step).tasks ==>
      Stepped(w, step).tasks[task].queue == [] && Stepped(w, step).tasks[task].activeFilter == All
    ensures task in w.tasks ==>
      var t, next := w.tasks[task], Stepped(w, step).tasks[task];
      if step == Receive(task) then
        && t.queue != [] && SentBy(w, step, task) == [] && next.queue == t.queue[1..]
        && next.activeFilter == FilterAfter(t.activeFilter, Command(Some(t.queue[0])))
      else next.queue == t.queue + SentBy(w, step, task) && next.activeFilter == t.activeFilter
  {
    assert task in w.tasks ==> w.tasks[task].queue + [] == w.tasks[task].queue;
  }

  /** Any interleaving of calls and tasks, taken step by step on the registry. */
  method RunWatches(steps: seq<Step>) returns (registry: map<nat, nat>, tasks: map<nat, WatchTask>)
    requires Runs(NO_WATCHES, steps)
    ensures registry == At(steps).registry && tasks == At(steps).tasks
    // A watch is registered exactly when some registration was neither stopped nor replaced since, with its task.
    ensures forall id: nat :: id in registry <==> exists k: nat :: Holds(steps, k, id)
    ensures forall k: nat, id | Holds(steps, k, id) :: steps[k] == Register(registry[id])
    // Aborted are exactly the tasks whose watch was stopped, or that were replaced.
    ensures forall t | t in tasks :: tasks[t].aborted <==> AbortReplaced(t) in steps || WasStopped(steps, t)
    // Nothing that was sent is lost or overtaken.
    ensures forall t | t in tasks ::
      Taken(steps, t) <= |Sent(steps, t)| && tasks[t].queue == Sent(steps, t)[Taken(steps, t)..]
    // Once no call is under way, the tasks not aborted are exactly the registered ones.
    ensures At(steps).spawned == {} && At(steps).replaced == {} ==>
      (set t | t in tasks && !tasks[t].aborted) == registry.Values
    ensures forall id | id in registry :: registry[id] in tasks && tasks[registry[id]].watchId == id
    // Watches do not disturb each other.
    ensures forall t | t in tasks && tasks[t].queue == [] ::
      tasks[t].activeFilter == Chosen(NO_WATCHES, steps, t, All)
  {
    hide Stepped, CanStep, Chosen, Holds, WasStopped, Sent, Taken;
    var lists := new RoomLists();
    for i := 0 to |steps|
      invariant fresh(lists) && Consistent(lists.Now())
      invariant Runs(lists.Now(), steps[i..])
      invariant RoomListRegistry.AfterAll(lists.Now(), steps[i..]) == At(steps)
    {
      assert steps[i..][0] == steps[i] && steps[i..][1..] == steps[i + 1..];
      StepKeepsConsistent(lists.Now(), steps[i]);
      lists.Take(steps[i]);
    }
    RunningTasksAreRegistered(steps);
    RegistryByPosition(steps);
    AbortedByPosition(steps);
    forall t: nat {
      QueueIsWhatWasSent(steps, t);
    }
    forall t: nat {
      DrainedTaskHasItsFilter(steps, t);
    }
    assert steps[|steps|..] == [] && lists.Now() == At(steps);
    registry, tasks := lists.registry, lists.tasks;
    assert forall id: nat :: id in At(steps).registry <==> exists k: nat :: Holds(steps, k, id);
  }
}
