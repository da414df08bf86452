/** The room list watches of a client: which tasks run, and which commands reach them. */
module RoomListRegistry {
  import opened RoomListTask
  import opened Wrappers

  /** A spawned task. Its receiver is gone once it has ended or was aborted. */
  datatype WatchTask = WatchTask(
    watchId: nat, activeFilter: RoomFilter, queue: seq<RoomListCommand>, ended: bool, aborted: bool)

  /**
   * Between the steps of `watch_room_list` a task is spawned but not yet registered, or already
   * replaced but not yet aborted.
   */
  datatype Watches = Watches(
    registry: map<nat, nat>, tasks: map<nat, WatchTask>, spawned: set<nat>, replaced: set<nat>)

  const NO_WATCHES := Watches(map[], map[], {}, {})

  datatype Step =
    | Spawn(task: nat, watchId: nat)
    | Register(task: nat)
    | AbortReplaced(task: nat)
    | Stop(watchId: nat)
    | StopAll
    | Send(watchId: nat, command: RoomListCommand)
    | RefilterAll
    /** The task takes the next command from its channel. */
    | Receive(task: nat)
    /** The task returns by itself (list unavailable, stream ended, sink closed). */
    | End(task: nat)

  predicate Open(t: WatchTask) {
    !t.ended && !t.aborted
  }

  function Enqueue(t: WatchTask, command: RoomListCommand): WatchTask {
    if Open(t) then t.(queue := t.queue + [command]) else t
  }

  function Abort(w: Watches, gone: set<nat>): map<nat, WatchTask> {
    map t | t in w.tasks :: if t in gone then w.tasks[t].(aborted := true) else w.tasks[t]
  }

  /** A step that the code can take in this state. */
  predicate CanStep(w: Watches, step: Step) {
    match step
    case Spawn(task, _) => task !in w.tasks
    case Register(task) => task in w.spawned && task in w.tasks
    case AbortReplaced(task) => task in w.replaced && task in w.tasks
    case Receive(task) => task in w.tasks && Open(w.tasks[task]) && w.tasks[task].queue != []
    case End(task) => task in w.tasks && Open(w.tasks[task])
    case _ => true
  }

  function Stepped(w: Watches, step: Step): Watches
    requires CanStep(w, step)
  {
    match step
    case Spawn(task, watchId) =>
      w.(tasks := w.tasks[task := WatchTask(watchId, All, [], false, false)], spawned := w.spawned + {task})
    case Register(task) =>
      var watchId := w.tasks[task].watchId;
      Watches(
        w.registry[watchId := task], w.tasks, w.spawned - {task},
        if watchId in w.registry then w.replaced + {w.registry[watchId]} else w.replaced)
    case AbortReplaced(task) => w.(tasks := Abort(w, {task}), replaced := w.replaced - {task})
    case Stop(watchId) =>
      if watchId in w.registry then
        w.(registry := w.registry - {watchId}, tasks := Abort(w, {w.registry[watchId]}))
      else w
    case StopAll => w.(registry := map[], tasks := Abort(w, w.registry.Values))
    case Send(watchId, command) =>
      if watchId in w.registry && w.registry[watchId] in w.tasks then
        var t := w.registry[watchId];
        w.(tasks := w.tasks[t := Enqueue(w.tasks[t], command)])
      else w
    case RefilterAll =>
      w.(tasks := map t | t in w.tasks ::
        if t in w.registry.Values then Enqueue(w.tasks[t], Refilter) else w.tasks[t])
    case Receive(task) =>
      var t := w.tasks[task];
      w.(tasks := w.tasks[task := t.(
        activeFilter := FilterAfter(t.activeFilter, Command(Some(t.queue[0]))), queue := t.queue[1..])])
    case End(task) => w.(tasks := w.tasks[task := w.tasks[task].(ended := true)])
  }

  /** The facade's side of the registry; the lock makes each method one step. */
  class RoomLists {
    var registry: map<nat, nat>
    var tasks: map<nat, WatchTask>
    ghost var spawned: set<nat>
    ghost var replaced: set<nat>

    ghost function Now(): Watches
      reads this
    {
      Watches(registry, tasks, spawned, replaced)
    }

    constructor ()
      ensures Now() == NO_WATCHES
    {
      registry, tasks, spawned, replaced := map[], map[], {}, {};
    }

    /** `insert(watch_id, watch)`: returns the task whose place was taken. */
    method Insert(task: nat) returns (previous: Option<nat>)
      requires CanStep(Now(), Register(task))
      modifies this
      ensures Now() == Stepped(old(Now()), Register(task))
      ensures previous ==
        var watchId := old(tasks)[task].watchId;
        if watchId in old(registry) then Some(old(registry)[watchId]) else None
    {
      var watchId := tasks[task].watchId;
      previous := if watchId in registry then Some(registry[watchId]) else None;
      registry := registry[watchId := task];
      spawned := spawned - {task};
      replaced := if previous.Some? then replaced + {previous.value} else replaced;
    }

    method StopRoomList(watchId: nat)
      requires forall t | t in registry.Values :: t in tasks
      modifies this
      ensures Now() == Stepped(old(Now()), Step.Stop(watchId))
    {
      if watchId in registry {
        var task := registry[watchId];
        registry := registry - {watchId};
        tasks := tasks[task := tasks[task].(aborted := true)];
      }
    }

    /** Drains the registry, aborting each task. */
    method StopRoomLists()
      requires forall t | t in registry.Values :: t in tasks
      modifies this
      ensures Now() == Stepped(old(Now()), StopAll)
    {
      ghost var before := Now();
      while registry != map[]
        invariant registry.Keys <= before.registry.Keys
        invariant forall id | id in registry :: registry[id] == before.registry[id]
        invariant spawned == before.spawned && replaced == before.replaced
        invariant tasks == Abort(before, set id | id in before.registry && id !in registry :: before.registry[id])
        decreases registry.Keys
      {
        var id :| id in registry;
        var task := registry[id];
        assert task in before.registry.Values;
        registry := registry - {id};
        tasks := tasks[task := tasks[task].(aborted := true)];
      }
      assert before.registry.Values == set id | id in before.registry && id !in registry :: before.registry[id];
    }

    method RefilterRoomLists()
      requires Consistent(Now())
      modifies `tasks
      ensures Now() == Stepped(old(Now()), RefilterAll)
    {
      var ids := registry.Keys;
      while ids != {}
        invariant ids <= registry.Keys && tasks.Keys == old(tasks).Keys
        invariant forall t | t in tasks ::
          tasks[t] == if t in registry.Values && old(tasks)[t].watchId !in ids
            then Enqueue(old(tasks)[t], Refilter) else old(tasks)[t]
        decreases ids
      {
        var id :| id in ids;
        var task := registry[id];
        ids := ids - {id};
        tasks := tasks[task := Enqueue(tasks[task], Refilter)];
      }
    }

    method SendRoomCommand(watchId: nat, command: RoomListCommand) returns (sent: bool)
      requires forall t | t in registry.Values :: t in tasks
      modifies `tasks
      ensures Now() == Stepped(old(Now()), Step.Send(watchId, command))
      ensures sent <==> watchId in registry && Open(old(tasks)[registry[watchId]])
    {
      if watchId !in registry {
        return false;
      }
      var task := registry[watchId];
      sent := Open(tasks[task]);
      tasks := tasks[task := Enqueue(tasks[task], command)];
    }

    /** The next step of any call or task. */
    method Take(step: Step)
      requires Consistent(Now()) && CanStep(Now(), step)
      modifies this
      ensures Now() == Stepped(old(Now()), step)
    {
      match step {
        case Spawn(task, watchId) =>
          tasks := tasks[task := WatchTask(watchId, All, [], false, false)];
          spawned := spawned + {task};
        case Register(task) => var _ := Insert(task);
        case AbortReplaced(task) =>
          tasks := tasks[task := tasks[task].(aborted := true)];
          replaced := replaced - {task};
        case Stop(watchId) => StopRoomList(watchId);
        case StopAll => StopRoomLists();
        case Send(watchId, command) => var _ := SendRoomCommand(watchId, command);
        case RefilterAll => RefilterRoomLists();
        case Receive(task) =>
          var t := tasks[task];
          tasks := tasks[task := t.(
            activeFilter := FilterAfter(t.activeFilter, Command(Some(t.queue[0]))), queue := t.queue[1..])];
        case End(task) => tasks := tasks[task := tasks[task].(ended := true)];
      }
    }
  }

  // What holds in every interleaving.

  ghost predicate Consistent(w: Watches) {
    && (forall id | id in w.registry :: w.registry[id] in w.tasks && w.tasks[w.registry[id]].watchId == id)
    && (forall t | t in w.spawned + w.replaced :: t in w.tasks)
    && (forall t | t in w.spawned :: t !in w.registry.Values && t !in w.replaced)
    && (forall t | t in w.replaced :: t !in w.registry.Values)
    && (forall t | t in w.tasks ::
          !w.tasks[t].aborted <==> t in w.registry.Values || t in w.spawned || t in w.replaced)
  }

  lemma StepKeepsConsistent(w: Watches, step: Step)
    requires Consistent(w) && CanStep(w, step)
    ensures Consistent(Stepped(w, step))
  {
    var next := Stepped(w, step);
    match step
    case Register(task) => RegisterKeepsConsistent(w, task);
    case Stop(watchId) => if watchId in w.registry { StopKeepsConsistent(w, watchId); }
    case StopAll =>
    case _ => assert next.registry == w.registry;
  }

  lemma RegisterKeepsConsistent(w: Watches, task: nat)
    requires Consistent(w) && CanStep(w, Register(task))
    ensures Consistent(Stepped(w, Register(task)))
  {
    var next := Stepped(w, Register(task));
    var watchId := w.tasks[task].watchId;
    forall t ensures t in next.registry.Values <==>
      t == task || (t in w.registry.Values && !(watchId in w.registry && t == w.registry[watchId]))
    {
      if t in w.registry.Values {
        var id :| id in w.registry && w.registry[id] == t;
        if id != watchId { assert id in next.registry && next.registry[id] == t; }
      }
      assert watchId in next.registry && next.registry[watchId] == task;
      if t in next.registry.Values {
        var id :| id in next.registry && next.registry[id] == t;
        assert id != watchId ==> id in w.registry && w.registry[id] == t;
      }
    }
  }

  lemma StopKeepsConsistent(w: Watches, watchId: nat)
    requires Consistent(w) && watchId in w.registry
    ensures Consistent(Stepped(w, Step.Stop(watchId)))
  {
    var next := Stepped(w, Step.Stop(watchId));
    forall t ensures t in next.registry.Values <==> t in w.registry.Values && t != w.registry[watchId] {
      if t in w.registry.Values && t != w.registry[watchId] {
        var id :| id in w.registry && w.registry[id] == t;
        assert id in next.registry && next.registry[id] == t;
      }
      if t in next.registry.Values {
        var id :| id in next.registry && next.registry[id] == t;
        assert id in w.registry && w.registry[id] == t;
      }
    }
  }

  ghost predicate Runs(w: Watches, steps: seq<Step>)
    decreases |steps|
  {
    steps != [] ==> CanStep(w, steps[0]) && Runs(Stepped(w, steps[0]), steps[1..])
  }

  function AfterAll(w: Watches, steps: seq<Step>): Watches
    requires Runs(w, steps)
    decreases |steps|
  {
    if steps == [] then w else AfterAll(Stepped(w, steps[0]), steps[1..])
  }

  lemma {:induction false} RunKeepsConsistent(w: Watches, steps: seq<Step>)
    requires Consistent(w) && Runs(w, steps)
    ensures Consistent(AfterAll(w, steps))
    decreases |steps|
  {
    if steps != [] {
      StepKeepsConsistent(w, steps[0]);
      RunKeepsConsistent(Stepped(w, steps[0]), steps[1..]);
    }
  }

  /**
   * In every interleaving, the tasks not aborted are exactly those registered, about to be
   * registered, or just replaced; so once every call has returned, exactly the registered ones.
   */
  lemma RunningTasksAreRegistered(steps: seq<Step>)
    requires Runs(NO_WATCHES, steps)
    ensures
      var w := AfterAll(NO_WATCHES, steps);
      (set t | t in w.tasks && !w.tasks[t].aborted) == w.registry.Values + w.spawned + w.replaced
  {
    RunKeepsConsistent(NO_WATCHES, steps);
    var w := AfterAll(NO_WATCHES, steps);
    forall t | t in w.registry.Values ensures t in w.tasks {
      var id :| id in w.registry && w.registry[id] == t;
    }
  }

  // Which filter a task ends up with.

  /** The filter last chosen for a task over the run: by commands accepted on its watch id. */
  function Chosen(w: Watches, steps: seq<Step>, task: nat, filter: RoomFilter): RoomFilter
    requires Runs(w, steps)
    decreases |steps|
  {
    if steps == [] then filter
    else Chosen(Stepped(w, steps[0]), steps[1..], task, ChosenBy(w, steps[0], task, filter))
  }

  function ChosenBy(w: Watches, step: Step, task: nat, filter: RoomFilter): RoomFilter {
    if step.Spawn? && step.task == task then All
    else if
      && step.Send? && step.command.Filter?
      && step.watchId in w.registry && w.registry[step.watchId] == task
      && task in w.tasks && Open(w.tasks[task])
    then step.command.filter
    else filter
  }

  function Pending(filter: RoomFilter, queue: seq<RoomListCommand>): RoomFilter
    decreases |queue|
  {
    if queue == [] then filter
    else Pending(FilterAfter(filter, Command(Some(queue[0]))), queue[1..])
  }

  lemma {:induction false} PendingAppend(filter: RoomFilter, queue: seq<RoomListCommand>, command: RoomListCommand)
    ensures Pending(filter, queue + [command]) == FilterAfter(Pending(filter, queue), Command(Some(command)))
    decreases |queue|
  {
    if queue == [] {
      assert [command][1..] == [];
    } else {
      assert (queue + [command])[1..] == queue[1..] + [command];
      PendingAppend(FilterAfter(filter, Command(Some(queue[0]))), queue[1..], command);
    }
  }

  ghost predicate Tracks(w: Watches, task: nat, filter: RoomFilter) {
    task in w.tasks ==> Pending(w.tasks[task].activeFilter, w.tasks[task].queue) == filter
  }

  lemma StepTracks(w: Watches, step: Step, task: nat, filter: RoomFilter)
    requires CanStep(w, step) && Tracks(w, task, filter)
    ensures Tracks(Stepped(w, step), task, ChosenBy(w, step, task, filter))
  {
    if task in w.tasks {
      var t := w.tasks[task];
      match step
      case Send(watchId, command) => PendingAppend(t.activeFilter, t.queue, command);
      case RefilterAll => PendingAppend(t.activeFilter, t.queue, Refilter);
      case _ =>
    }
  }

  lemma {:induction false} RunTracks(w: Watches, steps: seq<Step>, task: nat, filter: RoomFilter)
    requires Runs(w, steps) && Tracks(w, task, filter)
    ensures Tracks(AfterAll(w, steps), task, Chosen(w, steps, task, filter))
    decreases |steps|
  {
    if steps != [] {
      StepTracks(w, steps[0], task, filter);
      RunTracks(Stepped(w, steps[0]), steps[1..], task, ChosenBy(w, steps[0], task, filter));
    }
  }

  /**
   * Watches are isolated: a task that has drained its channel has the filter last sent to its own
   * watch since it started, or all rooms; refilters and other watches never change it.
   */
  lemma DrainedTaskHasItsFilter(steps: seq<Step>, task: nat)
    requires Runs(NO_WATCHES, steps)
    ensures
      var w := AfterAll(NO_WATCHES, steps);
      task in w.tasks && w.tasks[task].queue == [] ==>
        w.tasks[task].activeFilter == Chosen(NO_WATCHES, steps, task, All)
  {
    RunTracks(NO_WATCHES, steps, task, All);
  }
}
