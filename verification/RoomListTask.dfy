/** The room list task: one loop over SDK diffs, settings changes, room updates and commands. */
module RoomListTask {
  import opened AppCodec
  import opened DiffCodec
  import opened FacadeList
  import opened Integers
  import opened Pipeline
  import opened RoomCodec
  import opened Sse
  import opened Utf8
  import opened Wrappers
  import SdkVector

  datatype RoomFilter = All | People | Groups | Invites | Unread

  datatype RoomListCommand = Filter(filter: RoomFilter) | LoadMore | Refilter

  /** What a broadcast receiver returns. */
  datatype Received<T> = Got(value: T) | Lagged | Closed

  /** The live details of a room when it is summarized; they may differ from call to call. */
  type Live = (nat, Str) -> RoomSummary

  datatype Event =
    /** `stream.next()`; `None` when the stream ended. */
    | Entries(diffs: Option<SdkBatch<Str>>, live: Live, sinkOpen: bool)
    | Settings(change: Received<()>, live: Live, sinkOpen: bool)
    /** The number of rooms a sync reported as left. */
    | RoomUpdate(left: Received<nat>)
    /** `None` when the command channel is closed. */
    | Command(command: Option<RoomListCommand>)

  datatype State = State(
    visible: seq<Str>,
    activeFilter: RoomFilter,
    settingsOpen: bool,
    roomUpdatesOpen: bool,
    running: bool,
    sinkClosed: bool,
    sent: seq<seq<ListDiff<RoomSummary>>>,
    filters: seq<RoomFilter>,
    pages: nat)

  /** The state in which the loop starts: the first filter is already set. */
  const START := State([], All, true, true, true, false, [], [All], 0)

  function RoomId(summary: RoomSummary): Str {
    summary.id
  }

  /** `summarize`: everything is read live except for the room's own id. */
  function Summarize(live: Live, k: nat): Str -> RoomSummary {
    (room: Str) => live(k, room).(id := room)
  }

  function MapLive(live: Live, diffs: SdkBatch<Str>, k: nat): seq<ListDiff<RoomSummary>> {
    if diffs == [] then []
    else [Translate(Summarize(live, k), diffs[0])] + MapLive(live, diffs[1..], k + 1)
  }

  /** `sink.add(batch)`: a closed sink ends the loop. */
  function Send(s: State, batch: seq<ListDiff<RoomSummary>>, sinkOpen: bool): State {
    if sinkOpen then s.(sent := s.sent + [batch]) else s.(running := false, sinkClosed := true)
  }

  function SetFilter(s: State, filter: RoomFilter): State {
    s.(activeFilter := filter, filters := s.filters + [filter])
  }

  function Next(s: State, e: Event): State {
    match e
    case Entries(None, _, _) => s.(running := false)
    case Entries(Some(diffs), live, sinkOpen) =>
      var after := SdkVector.ApplyAll(diffs, s.visible);
      if after.None? then s.(running := false)
      else Send(s.(visible := after.value), MapLive(live, diffs, 0), sinkOpen)
    case Settings(Closed, _, _) => s.(settingsOpen := false)
    case Settings(_, live, sinkOpen) =>
      Send(s, [ListDiff.Reset(MapAll(Summarize(live, 0), s.visible))], sinkOpen)
    case RoomUpdate(Got(left)) => if left > 0 then SetFilter(s, s.activeFilter) else s
    case RoomUpdate(Lagged) => SetFilter(s, s.activeFilter)
    case RoomUpdate(Closed) => s.(roomUpdatesOpen := false)
    case Command(Some(Filter(filter))) => SetFilter(s, filter)
    case Command(Some(Refilter)) => SetFilter(s, s.activeFilter)
    case Command(Some(LoadMore)) => s.(pages := s.pages + 1)
    case Command(None) => s.(running := false)
  }

  /** The branches `select!` polls. */
  predicate Enabled(s: State, e: Event) {
    s.running && (e.Settings? ==> s.settingsOpen) && (e.RoomUpdate? ==> s.roomUpdatesOpen)
  }

  class Task {
    var visible: seq<Str>
    var activeFilter: RoomFilter
    var settingsOpen: bool
    var roomUpdatesOpen: bool
    var running: bool
    var sinkClosed: bool
    var sent: seq<seq<ListDiff<RoomSummary>>>
    var filters: seq<RoomFilter>
    var pages: nat

    ghost function Now(): State
      reads this
    {
      State(visible, activeFilter, settingsOpen, roomUpdatesOpen, running, sinkClosed, sent, filters, pages)
    }

    constructor ()
      ensures Now() == START
    {
      visible, sent, pages := [], [], 0;
      settingsOpen, roomUpdatesOpen, running, sinkClosed := true, true, true, false;
      activeFilter := All;
      filters := [All];
    }

    method SetControllerFilter(filter: RoomFilter)
      modifies `filters
      ensures filters == old(filters) + [filter]
    {
      filters := filters + [filter];
    }

    method Add(batch: seq<ListDiff<RoomSummary>>, sinkOpen: bool)
      modifies `sent, `running, `sinkClosed
      ensures Now() == Send(old(Now()), batch, sinkOpen)
    {
      if sinkOpen {
        sent := sent + [batch];
      } else {
        running, sinkClosed := false, true;
      }
    }

    /** Applies each diff to the mirror and maps it; `None` where applying panics. */
    method Mirror(diffs: SdkBatch<Str>, live: Live) returns (mapped: Option<seq<ListDiff<RoomSummary>>>)
      modifies `visible
      ensures var after := SdkVector.ApplyAll(diffs, old(visible));
        if after.Some? then visible == after.value && mapped == Some(MapLive(live, diffs, 0))
        else visible == old(visible) && mapped == None
    {
      var before := visible;
      var list: seq<ListDiff<RoomSummary>> := [];
      for i := 0 to |diffs|
        invariant SdkVector.ApplyAll(diffs, before) == SdkVector.ApplyAll(diffs[i..], visible)
        invariant list + MapLive(live, diffs[i..], i) == MapLive(live, diffs, 0)
      {
        assert diffs[i..][0] == diffs[i] && diffs[i..][1..] == diffs[i + 1..];
        var applied := SdkVector.Apply(diffs[i], visible);
        if applied.None? {
          visible := before;
          return None;
        }
        visible := applied.value;
        list := list + [Translate(Summarize(live, i), diffs[i])];
      }
      assert list + [] == list;
      return Some(list);
    }

    method Handle(e: Event)
      requires Enabled(Now(), e)
      modifies this
      ensures Now() == Next(old(Now()), e)
    {
      match e {
        case Entries(None, _, _) =>
          running := false;
        case Entries(Some(diffs), live, sinkOpen) =>
          var mapped := Mirror(diffs, live);
          if mapped.None? {
            running := false;
          } else {
            Add(mapped.value, sinkOpen);
          }
        case Settings(Closed, _, _) =>
          settingsOpen := false;
        case Settings(_, live, sinkOpen) =>
          Add([ListDiff.Reset(MapAll(Summarize(live, 0), visible))], sinkOpen);
        case RoomUpdate(Got(left)) =>
          if left > 0 {
            SetControllerFilter(activeFilter);
          }
        case RoomUpdate(Lagged) =>
          SetControllerFilter(activeFilter);
        case RoomUpdate(Closed) =>
          roomUpdatesOpen := false;
        case Command(Some(Filter(filter))) =>
          activeFilter := filter;
          SetControllerFilter(filter);
        case Command(Some(Refilter)) =>
          SetControllerFilter(activeFilter);
        case Command(Some(LoadMore)) =>
          pages := pages + 1;
        case Command(None) =>
          running := false;
      }
    }
  }

  // Runs.

  /** Every event is polled, and the SDK's diffs can be followed where they arrive. */
  ghost predicate Run(s: State, events: seq<Event>)
    decreases |events|
  {
    events != [] ==>
      && Enabled(s, events[0])
      && (events[0].Entries? && events[0].diffs.Some? ==> Translatable(events[0].diffs.value, s.visible))
      && Run(Next(s, events[0]), events[1..])
  }

  function After(s: State, events: seq<Event>): State
    decreases |events|
  {
    if events == [] then s else After(Next(s, events[0]), events[1..])
  }

  /** The app's list after all sent batches. */
  function Shown(s: State): Option<seq<RoomSummary>> {
    ApplyBatches(s.sent, [])
  }

  ghost predicate SameRooms(list: Option<seq<RoomSummary>>, rooms: seq<Str>) {
    list.Some? && MapAll(RoomId, list.value) == rooms
  }

  lemma {:induction false} ApplyBatchesAppend<T>(
    batches: seq<seq<ListDiff<T>>>, batch: seq<ListDiff<T>>, list: seq<T>)
    ensures ApplyBatches(batches + [batch], list) ==
      if ApplyBatches(batches, list).Some? then ApplyAll(batch, ApplyBatches(batches, list).value) else None
  {
    if batches == [] {
      assert [batch][1..] == [];
    } else {
      assert (batches + [batch])[1..] == batches[1..] + [batch];
      if ApplyAll(batches[0], list).Some? {
        ApplyBatchesAppend(batches[1..], batch, ApplyAll(batches[0], list).value);
      }
    }
  }

  function SameId(room: Str): Str {
    room
  }

  /** A mapped diff moves the room ids of the app's list exactly as the SDK's diff moves the rooms. */
  lemma DiffKeepsIds(live: Live, k: nat, diff: SdkVector.VectorDiff<Str>, shown: seq<RoomSummary>, rooms: seq<Str>)
    requires MapAll(RoomId, shown) == rooms
    requires SdkVector.Apply(diff, rooms).Some? && Fits(diff) && !RemovesNothing(diff, rooms)
    ensures SameRooms(Apply(Translate(Summarize(live, k), diff), shown), SdkVector.Apply(diff, rooms).value)
  {
    var f := Summarize(live, k);
    TranslateThenView(f, RoomId, SameId, diff);
    TranslationCommutes(SameId, diff, rooms);
    assert MapAll(SameId, rooms) == rooms;
    assert MapAll(SameId, SdkVector.Apply(diff, rooms).value) == SdkVector.Apply(diff, rooms).value;
    ApplyIsNatural(RoomId, Translate(f, diff), shown);
  }

  lemma {:induction false} BatchKeepsIds(
    live: Live, k: nat, diffs: SdkBatch<Str>, shown: seq<RoomSummary>, rooms: seq<Str>)
    requires MapAll(RoomId, shown) == rooms && Translatable(diffs, rooms)
    ensures SdkVector.ApplyAll(diffs, rooms).Some?
    ensures SameRooms(ApplyAll(MapLive(live, diffs, k), shown), SdkVector.ApplyAll(diffs, rooms).value)
    decreases |diffs|
  {
    if diffs != [] {
      DiffKeepsIds(live, k, diffs[0], shown, rooms);
      var next := Apply(Translate(Summarize(live, k), diffs[0]), shown).value;
      BatchKeepsIds(live, k + 1, diffs[1..], next, SdkVector.Apply(diffs[0], rooms).value);
      assert MapLive(live, diffs, k)[1..] == MapLive(live, diffs[1..], k + 1);
    }
  }

  lemma StepKeepsIds(s: State, e: Event)
    requires Enabled(s, e)
    requires e.Entries? && e.diffs.Some? ==> Translatable(e.diffs.value, s.visible)
    requires !s.sinkClosed && SameRooms(Shown(s), s.visible)
    ensures !Next(s, e).sinkClosed ==> SameRooms(Shown(Next(s, e)), Next(s, e).visible)
  {
    match e
    case Entries(Some(diffs), live, sinkOpen) =>
      BatchKeepsIds(live, 0, diffs, Shown(s).value, s.visible);
      ApplyBatchesAppend(s.sent, MapLive(live, diffs, 0), []);
    case Settings(change, live, sinkOpen) =>
      var reset := [ListDiff.Reset(MapAll(Summarize(live, 0), s.visible))];
      ApplyBatchesAppend(s.sent, reset, []);
      assert reset[1..] == [] && ApplyAll(reset, Shown(s).value) == Some(reset[0].values);
      assert MapAll(RoomId, reset[0].values) == s.visible;
    case _ =>
  }

  lemma {:induction false} RunKeepsIds(s: State, events: seq<Event>)
    requires Run(s, events) && !s.sinkClosed && SameRooms(Shown(s), s.visible)
    ensures !After(s, events).sinkClosed ==> SameRooms(Shown(After(s, events)), After(s, events).visible)
    decreases |events|
  {
    if events != [] {
      StepKeepsIds(s, events[0]);
      if !Next(s, events[0]).sinkClosed {
        RunKeepsIds(Next(s, events[0]), events[1..]);
      } else {
        ClosedSinkStays(Next(s, events[0]), events[1..]);
      }
    }
  }

  lemma ClosedSinkStays(s: State, events: seq<Event>)
    requires Run(s, events) && s.sinkClosed && !s.running
    ensures After(s, events).sinkClosed
  {
  }

  /**
   * However diffs, filters, refilters and settings changes are mixed, the app shows the rooms that
   * are visible, in the same order, until it closes its sink.
   */
  lemma AppShowsVisibleRooms(events: seq<Event>)
    requires Run(START, events) && !After(START, events).sinkClosed
    ensures SameRooms(Shown(After(START, events)), After(START, events).visible)
  {
    assert Shown(START) == Some([]) && MapAll(RoomId, []) == [];
    RunKeepsIds(START, events);
  }

  /** ... and so does the list the app decodes from the bytes sent. */
  lemma ReceivedRoomsAreVisible(events: seq<Event>)
    requires Run(START, events) && !After(START, events).sinkClosed
    requires forall batch | batch in After(START, events).sent :: SizedRoomListBatch(batch)
    ensures
      var s := After(START, events);
      SameRooms(ReceiveAll(EncodeRoomListBatch, AppRoomListBatch, s.sent, []), s.visible)
  {
    AppShowsVisibleRooms(events);
    AppReadsRoomListBatches();
    ReceivedAsSent(EncodeRoomListBatch, AppRoomListBatch, SizedRoomListBatch, After(START, events).sent, []);
  }

  // Filters.

  /** The last filter command, or the filter before. */
  function LastFilter(filter: RoomFilter, events: seq<Event>): RoomFilter
    decreases |events|
  {
    if events == [] then filter else LastFilter(FilterAfter(filter, events[0]), events[1..])
  }

  function FilterAfter(filter: RoomFilter, e: Event): RoomFilter {
    if e.Command? && e.command.Some? && e.command.value.Filter? then e.command.value.filter else filter
  }

  lemma FilterStep(s: State, e: Event)
    requires s.filters != [] && s.filters[|s.filters| - 1] == s.activeFilter
    ensures Next(s, e).activeFilter == FilterAfter(s.activeFilter, e)
    ensures s.filters <= Next(s, e).filters
    ensures Next(s, e).filters[|Next(s, e).filters| - 1] == Next(s, e).activeFilter
  {
    hide SdkVector.ApplyAll, MapLive, MapAll, Summarize;
    match e
    case Entries(_, _, _) =>
    case Settings(_, _, _) =>
    case RoomUpdate(_) =>
    case Command(_) =>
  }

  /**
   * Only filter commands choose the filter: refilters, left rooms and lagging updates apply the
   * active one again, which is always the one the controller has.
   */
  lemma {:induction false} FilterIsTheLastOneSent(s: State, events: seq<Event>)
    requires s.filters != [] && s.filters[|s.filters| - 1] == s.activeFilter
    ensures
      var t := After(s, events);
      && t.activeFilter == LastFilter(s.activeFilter, events)
      && s.filters <= t.filters && t.filters[|t.filters| - 1] == t.activeFilter
    decreases |events|
  {
    hide Next;
    if events != [] {
      FilterStep(s, events[0]);
      FilterIsTheLastOneSent(Next(s, events[0]), events[1..]);
    }
  }

  function DiffsOf(e: Event): SdkBatch<Str> {
    if e.Entries? && e.diffs.Some? then e.diffs.value else []
  }

  // What a run does to the controller and to the app, counted on its events.

  /** The filters the events make the task set: a new one, or the one in use once more. */
  function FiltersSet(filter: RoomFilter, events: seq<Event>): seq<RoomFilter>
    decreases |events|
  {
    if events == [] then []
    else
      match events[0]
      case Command(Some(Filter(chosen))) => [chosen] + FiltersSet(chosen, events[1..])
      case Command(Some(Refilter)) => [filter] + FiltersSet(filter, events[1..])
      case RoomUpdate(Got(left)) => (if left > 0 then [filter] else []) + FiltersSet(filter, events[1..])
      case RoomUpdate(Lagged) => [filter] + FiltersSet(filter, events[1..])
      case _ => FiltersSet(filter, events[1..])
  }

  function PagesLoaded(events: seq<Event>): nat {
    if events == [] then 0
    else (if events[0] == Command(Some(LoadMore)) then 1 else 0) + PagesLoaded(events[1..])
  }

  /** Stream batches and settings changes are passed on, as long as the app takes them. */
  function BatchesSent(events: seq<Event>): nat {
    if events == [] then 0
    else (if SendsBatch(events[0]) && !ClosesSink(events[0]) then 1 else 0) + BatchesSent(events[1..])
  }

  predicate SendsBatch(e: Event) {
    (e.Entries? && e.diffs.Some?) || (e.Settings? && !e.change.Closed?)
  }

  predicate EndsTask(e: Event) {
    (e.Entries? && e.diffs.None?) || e == Command(None) || ClosesSink(e)
  }

  lemma TurnCounts(s: State, e: Event)
    requires Enabled(s, e)
    requires e.Entries? && e.diffs.Some? ==> Translatable(e.diffs.value, s.visible)
    ensures
      var next := Next(s, e);
      && next.filters == s.filters + FiltersSet(s.activeFilter, [e])
      && next.activeFilter == FilterAfter(s.activeFilter, e)
      && next.pages == s.pages + PagesLoaded([e])
      && |next.sent| == |s.sent| + BatchesSent([e])
  {
    hide MapLive, MapAll, Summarize, Translatable, SdkVector.Apply, SdkVector.ApplyAll;
    assert [e][1..] == [];
    if e.Entries? && e.diffs.Some? {
      TranslatableApplies(e.diffs.value, s.visible);
    }
    match e
    case Entries(_, _, _) =>
    case Settings(_, _, _) =>
    case RoomUpdate(_) =>
    case Command(_) =>
  }

  /** The task ends, and a source is no longer polled, exactly on the events that say so. */
  lemma TurnFlags(s: State, e: Event)
    requires Enabled(s, e)
    requires e.Entries? && e.diffs.Some? ==> Translatable(e.diffs.value, s.visible)
    ensures
      var next := Next(s, e);
      && (next.running <==> !EndsTask(e))
      && (next.settingsOpen <==> s.settingsOpen && !(e.Settings? && e.change.Closed?))
      && (next.roomUpdatesOpen <==> s.roomUpdatesOpen && !(e.RoomUpdate? && e.left.Closed?))
  {
    hide MapLive, MapAll, Summarize, Translatable, SdkVector.Apply, SdkVector.ApplyAll;
    if e.Entries? && e.diffs.Some? {
      TranslatableApplies(e.diffs.value, s.visible);
    }
    match e
    case Entries(_, _, _) =>
    case Settings(_, _, _) =>
    case RoomUpdate(_) =>
    case Command(_) =>
  }

  lemma CountsFirst(filter: RoomFilter, events: seq<Event>)
    requires events != []
    ensures FiltersSet(filter, events) ==
      FiltersSet(filter, [events[0]]) + FiltersSet(FilterAfter(filter, events[0]), events[1..])
    ensures PagesLoaded(events) == PagesLoaded([events[0]]) + PagesLoaded(events[1..])
    ensures BatchesSent(events) == BatchesSent([events[0]]) + BatchesSent(events[1..])
  {
    assert [events[0]][1..] == [];
  }

  /** Every filter command, refilter and update with left rooms sets a filter, and no event is ignored. */
  lemma {:induction false} RunCounts(s: State, events: seq<Event>)
    requires Run(s, events)
    ensures
      var after := After(s, events);
      && after.filters == s.filters + FiltersSet(s.activeFilter, events)
      && after.pages == s.pages + PagesLoaded(events)
      && |after.sent| == |s.sent| + BatchesSent(events)
      && (after.running <==> s.running && forall i | 0 <= i < |events| :: !EndsTask(events[i]))
    decreases |events|
  {
    hide Next, FiltersSet, PagesLoaded, BatchesSent, EndsTask;
    if events == [] {
      NothingCounts(s.activeFilter);
    } else {
      var next := Next(s, events[0]);
      TurnCounts(s, events[0]);
      TurnFlags(s, events[0]);
      CountsFirst(s.activeFilter, events);
      RunCounts(next, events[1..]);
      assert s.filters + (FiltersSet(s.activeFilter, [events[0]]) + FiltersSet(next.activeFilter, events[1..]))
        == (s.filters + FiltersSet(s.activeFilter, [events[0]])) + FiltersSet(next.activeFilter, events[1..]);
      assert forall i | 0 < i < |events| :: events[i] == events[1..][i - 1];
      assert forall i | 0 <= i < |events| - 1 :: events[1..][i] == events[i + 1];
    }
  }

  lemma NothingCounts(filter: RoomFilter)
    ensures FiltersSet(filter, []) == [] && PagesLoaded([]) == 0 && BatchesSent([]) == 0
  {
  }

  /** After a settings change, the app shows every visible room as it is live at that moment. */
  lemma SettingsShowLive(s: State, e: Event)
    requires e.Settings? && !e.change.Closed? && e.sinkOpen && Shown(s).Some?
    ensures Shown(Next(s, e)) == Some(MapAll(Summarize(e.live, 0), s.visible)) && Next(s, e).visible == s.visible
  {
    var reset := [ListDiff.Reset(MapAll(Summarize(e.live, 0), s.visible))];
    ApplyBatchesAppend(s.sent, reset, []);
    assert reset[1..] == [] && ApplyAll(reset, Shown(s).value) == Some(reset[0].values);
  }

  lemma {:induction false} RunAppend(s: State, front: seq<Event>, last: Event)
    requires Run(s, front + [last])
    ensures Run(s, front) && After(s, front + [last]) == Next(After(s, front), last) && Enabled(After(s, front), last)
    decreases |front|
  {
    hide Next, Enabled, Translatable;
    if front == [] {
      assert (front + [last])[1..] == [];
    } else {
      assert (front + [last])[0] == front[0] && (front + [last])[1..] == front[1..] + [last];
      RunAppend(Next(s, front[0]), front[1..], last);
    }
  }

  lemma LastSettingsShown(events: seq<Event>)
    requires events != [] && Run(START, events) && !After(START, events).sinkClosed
    requires events[|events| - 1].Settings? && !events[|events| - 1].change.Closed?
    ensures
      var after := After(START, events);
      Shown(after) == Some(MapAll(Summarize(events[|events| - 1].live, 0), after.visible))
  {
    hide Shown, Next, MapAll, Summarize, Run, Enabled, SameRooms;
    var front, last := events[..|events| - 1], events[|events| - 1];
    assert events == front + [last];
    RunAppend(START, front, last);
    OpenSettings(After(START, front), last);
    AppShowsVisibleRooms(front);
    ShownIsSome(Shown(After(START, front)), After(START, front).visible);
    SettingsShowLive(After(START, front), last);
  }

  lemma OpenSettings(s: State, e: Event)
    requires e.Settings? && !e.change.Closed? && !Next(s, e).sinkClosed
    ensures e.sinkOpen && !s.sinkClosed
  {
  }

  lemma ShownIsSome(list: Option<seq<RoomSummary>>, rooms: seq<Str>)
    ensures SameRooms(list, rooms) ==> list.Some?
  {
  }

  /** All diffs of the SDK's stream, in order. */
  function StreamOf(events: seq<Event>): SdkBatch<Str> {
    if events == [] then []
    else DiffsOf(events[0]) + StreamOf(events[1..])
  }

  lemma {:induction false} SdkApplyAllSplits<T>(a: SdkBatch<T>, b: SdkBatch<T>, v: seq<T>)
    ensures SdkVector.ApplyAll(a + b, v) ==
      if SdkVector.ApplyAll(a, v).Some? then SdkVector.ApplyAll(b, SdkVector.ApplyAll(a, v).value) else None
  {
    if a == [] {
      assert a + b == b;
    } else {
      assert (a + b)[0] == a[0] && (a + b)[1..] == a[1..] + b;
      if SdkVector.Apply(a[0], v).Some? {
        SdkApplyAllSplits(a[1..], b, SdkVector.Apply(a[0], v).value);
      }
    }
  }

  lemma StepMirrors(s: State, e: Event)
    requires Enabled(s, e)
    requires e.Entries? && e.diffs.Some? ==> Translatable(e.diffs.value, s.visible)
    ensures SdkVector.ApplyAll(DiffsOf(e), s.visible) == Some(Next(s, e).visible)
  {
    hide MapLive, MapAll, Summarize, SdkVector.Apply, Translatable;
    match e
    case Entries(Some(diffs), _, _) => TranslatableApplies(diffs, s.visible);
    case _ =>
  }

  /** The mirror is the SDK's vector, whatever else happens in between. */
  lemma {:induction false} MirrorIsSdkVector(s: State, events: seq<Event>)
    requires Run(s, events)
    ensures SdkVector.ApplyAll(StreamOf(events), s.visible) == Some(After(s, events).visible)
    decreases |events|
  {
    hide Next, SdkVector.Apply, DiffsOf;
    if events != [] {
      StepMirrors(s, events[0]);
      MirrorIsSdkVector(Next(s, events[0]), events[1..]);
      SdkApplyAllSplits(DiffsOf(events[0]), StreamOf(events[1..]), s.visible);
    }
  }

  lemma {:induction false} TranslatableApplies<T>(diffs: SdkBatch<T>, v: seq<T>)
    requires Translatable(diffs, v)
    ensures SdkVector.ApplyAll(diffs, v).Some?
  {
    if diffs != [] {
      TranslatableApplies(diffs[1..], SdkVector.Apply(diffs[0], v).value);
    }
  }

  /** What a turn sends: nothing, or one batch. */
  lemma TurnSends(s: State, e: Event)
    ensures Next(s, e).sent == s.sent
         || (|Next(s, e).sent| == |s.sent| + 1 && Next(s, e).sent == s.sent + [Next(s, e).sent[|s.sent|]])
  {
    hide SdkVector.ApplyAll, MapLive, MapAll, Summarize;
  }

  /**
   * The task and the app together: each turn of the loop, and the app's `applyDiffs` on what it
   * sends. Until the app closes its sink it shows the rooms of the SDK's vector, in the same order, and
   * the filter in use is the last one commanded.
   */
  method WatchRoomList(events: seq<Event>)
    returns (shown: seq<RoomSummary>, filter: RoomFilter, open: bool, filters: seq<RoomFilter>, pages: nat)
    requires Run(START, events)
    ensures open <==> forall i | 0 <= i < |events| :: !ClosesSink(events[i])
    ensures open ==> SdkVector.ApplyAll(StreamOf(events), []) == Some(MapAll(RoomId, shown))
    ensures open && events != [] && SendsBatch(events[|events| - 1]) && events[|events| - 1].Settings? ==>
      var visible := SdkVector.ApplyAll(StreamOf(events), []);
      visible.Some? && shown == MapAll(Summarize(events[|events| - 1].live, 0), visible.value)
    ensures filter == LastFilter(All, events)
    ensures filters == [All] + FiltersSet(All, events) && pages == PagesLoaded(events)
  {
    hide Next, MapLive, Summarize, ApplyAll, ClosesSink, Translatable;
    var task := new Task();
    shown := [];
    for i := 0 to |events|
      invariant fresh(task)
      invariant Run(task.Now(), events[i..]) && After(task.Now(), events[i..]) == After(START, events)
      invariant !task.sinkClosed ==> Shown(task.Now()) == Some(shown) && SameRooms(Some(shown), task.visible)
      invariant task.filters != [] && task.filters[|task.filters| - 1] == task.activeFilter
      invariant LastFilter(task.activeFilter, events[i..]) == LastFilter(All, events)
      invariant task.sinkClosed ==> !task.running
      invariant !task.sinkClosed <==> forall j | 0 <= j < i :: !ClosesSink(events[j])
    {
      ghost var before := task.Now();
      var n := |task.sent|;
      assert events[i..][0] == events[i] && events[i..][1..] == events[i + 1..];
      StepKeepsIds(before, events[i]);
      FilterStep(before, events[i]);
      TurnSends(before, events[i]);
      SinkCloses(before, events[i]);
      task.Handle(events[i]);
      if |task.sent| > n && !task.sinkClosed {
        ApplyBatchesAppend(before.sent, task.sent[n], []);
        var applied := ApplyDiffs(shown, task.sent[n]);
        shown := applied.value;
      }
    }
    MirrorIsSdkVector(START, events);
    RunCounts(START, events);
    if events != [] && SendsBatch(events[|events| - 1]) && events[|events| - 1].Settings? && !task.sinkClosed {
      LastSettingsShown(events);
    }
    return shown, task.activeFilter, !task.sinkClosed, task.filters, task.pages;
  }

  /** The event sends a batch, and the app does not take it. */
  predicate ClosesSink(e: Event) {
    || (e.Entries? && e.diffs.Some? && !e.sinkOpen)
    || (e.Settings? && !e.change.Closed? && !e.sinkOpen)
  }

  lemma SinkCloses(s: State, e: Event)
    requires Enabled(s, e) && !s.sinkClosed
    requires e.Entries? && e.diffs.Some? ==> Translatable(e.diffs.value, s.visible)
    ensures Next(s, e).sinkClosed <==> ClosesSink(e)
    ensures Next(s, e).sinkClosed ==> !Next(s, e).running
  {
    hide MapLive, MapAll, Summarize, Translatable, SdkVector.Apply;
    if e.Entries? && e.diffs.Some? {
      TranslatableApplies(e.diffs.value, s.visible);
    }
  }
}
