/** Runs of the client's session calls over restarts: who is signed in, and who is found again. */
module ClientRuns {
  import opened ChatClient
  import opened ErrorClassification
  import opened Wrappers
  import L = Lifecycle
  import S = StoredSessions

  /** What all calls do to the store and to the SDK's session. */
  function Trace(calls: seq<Call>): seq<S.Step> {
    if calls == [] then []
    else
      var before := Trace(calls[..|calls| - 1]);
      before + StoreSteps(S.AfterAll(S.NEW_DEVICE, before), calls[|calls| - 1])
  }

  function DeviceAfter(calls: seq<Call>): S.Device {
    S.AfterAll(S.NEW_DEVICE, Trace(calls))
  }

  /** What the calls since the last restart did to the session state. */
  function Outcomes(calls: seq<Call>): seq<L.Step> {
    if calls == [] || calls[|calls| - 1].Restart? then []
    else
      var front := calls[..|calls| - 1];
      Outcomes(front) + SessionSteps(DeviceAfter(front), calls[|calls| - 1])
  }

  /** A sign-in, token update or restore that succeeds. */
  predicate Activates(d: S.Device, call: Call) {
    && ErrorOf(d, call).None?
    && (|| call.FinishLogin? || call.SignInWithToken? || call.UpdateAccessToken?
        || (call.RestoreSession? && d.store.Some?))
  }

  predicate Ends(d: S.Device, call: Call) {
    || call.Restart? || call.UnknownToken?
    || (call.Logout? && ErrorOf(d, call).None?)
    || (ErrorOf(d, call).Some? && EndsSession(ErrorOf(d, call).value))
  }

  /** Some call has activated the session, and no later one has ended it. */
  ghost predicate ActiveAfter(calls: seq<Call>) {
    exists k: nat :: ActiveSince(calls, k)
  }

  ghost predicate ActiveSince(calls: seq<Call>, k: nat) {
    && k < |calls| && Activates(DeviceAfter(calls[..k]), calls[k])
    && forall i | k < i < |calls| :: !Ends(DeviceAfter(calls[..i]), calls[i])
  }

  /** The call puts another session into the store or into the SDK's memory, or empties the store. */
  predicate Replaces(d: S.Device, call: Call) {
    || (call.FinishLogin? && call.fails(LoginSdk).None?)
    || (call.SignInWithToken? && call.fails(WriteStore).None?)
    || (call.Logout? && ErrorOf(d, call).None?)
  }

  /** A refresh is persisted, whether or not there still is a session to refresh. */
  predicate PersistsRefresh(d: S.Device, call: Call) {
    call.TokensRefreshed? && call.fails(WriteStore).None? && d.memory.Some?
  }

  predicate SignsIn(call: Call) {
    (call.FinishLogin? || call.SignInWithToken?) && ErrorOf(S.NEW_DEVICE, call).None?
  }

  function SignedInBy(call: Call): S.SessionInfo
    requires SignsIn(call)
  {
    if call.FinishLogin? then S.InfoOf(call.session) else S.SessionInfo(call.userId, call.deviceId)
  }

  /** Call `k` signs in, and no later call replaces the session; any number of them may fail. */
  ghost predicate SignInLasts(calls: seq<Call>, k: nat) {
    && k < |calls| && SignsIn(calls[k])
    && forall i | k < i < |calls| :: !Replaces(DeviceAfter(calls[..i]), calls[i])
  }

  ghost predicate LastLogout(calls: seq<Call>, k: nat) {
    && k < |calls| && calls[k].Logout? && ErrorOf(DeviceAfter(calls[..k]), calls[k]).None?
    && forall i | k < i < |calls| :: !Replaces(DeviceAfter(calls[..i]), calls[i])
  }

  function Stepped(d: S.Device, call: Call): S.Device {
    S.AfterAll(d, StoreSteps(d, call))
  }

  lemma CallIsStep(front: seq<Call>, call: Call)
    ensures Trace(front + [call]) == Trace(front) + StoreSteps(DeviceAfter(front), call)
    ensures DeviceAfter(front + [call]) == Stepped(DeviceAfter(front), call)
    ensures forall i | 0 <= i <= |front| :: (front + [call])[..i] == front[..i]
    ensures front[..|front|] == front
  {
    hide StoreSteps;
    assert (front + [call])[..|front|] == front;
    S.RunSplits(S.NEW_DEVICE, Trace(front), StoreSteps(DeviceAfter(front), call));
  }

  lemma SteppedIs(d: S.Device, call: Call)
    ensures
      var steps := StoreSteps(d, call);
      && |steps| <= 2
      && Stepped(d, call) ==
         if |steps| == 0 then d
         else if |steps| == 1 then S.After(d, steps[0])
         else S.After(S.After(d, steps[0]), steps[1])
  {
    hide S.After;
    var steps := StoreSteps(d, call);
    if |steps| >= 1 {
      S.RunAppend(d, [], steps[0]);
      assert [] + [steps[0]] == [steps[0]] == steps[..1];
    }
    if |steps| == 1 {
      assert steps[..1] == steps;
    } else if |steps| == 2 {
      S.RunAppend(d, [steps[0]], steps[1]);
      assert steps == [steps[0]] + [steps[1]];
    }
  }

  /** The session found is the one named, and a session in memory is the same one. */
  ghost predicate Holds(d: S.Device, info: S.SessionInfo) {
    && d.store.Some? && S.InfoOf(d.store.value) == info
    && (d.memory.Some? ==> S.SameIdentity(d.memory.value, d.store.value))
  }

  lemma SignInHolds(d: S.Device, call: Call)
    requires SignsIn(call)
    ensures Holds(Stepped(d, call), SignedInBy(call))
  {
    SteppedIs(d, call);
  }

  lemma CallKeepsHolding(d: S.Device, call: Call, info: S.SessionInfo)
    requires Holds(d, info) && !Replaces(d, call)
    ensures Holds(Stepped(d, call), info)
  {
    SteppedIs(d, call);
  }

  /**
   * A sign-in lasts: through restarts, refreshes, token updates, rejected tokens and failures of any
   * kind its user and device are the ones stored, until another sign-in or a logout.
   */
  lemma {:induction false} SignInIsKept(calls: seq<Call>, k: nat)
    requires SignInLasts(calls, k)
    ensures Holds(DeviceAfter(calls), SignedInBy(calls[k]))
    decreases |calls|
  {
    hide Stepped, Replaces, Holds, SignsIn, DeviceAfter, SignedInBy;
    var front, last := calls[..|calls| - 1], calls[|calls| - 1];
    assert calls == front + [last];
    CallIsStep(front, last);
    if k == |front| {
      SignInHolds(DeviceAfter(front), last);
    } else {
      assert forall i | k < i < |front| :: calls[i] == front[i] && calls[..i] == front[..i];
      SignInIsKept(front, k);
      assert calls[..|front|] == front;
      CallKeepsHolding(DeviceAfter(front), last, SignedInBy(calls[k]));
    }
  }

  lemma StoreChanges(d: S.Device, call: Call)
    ensures call.Logout? && ErrorOf(d, call).None? ==> Stepped(d, call).store.None?
    ensures !Replaces(d, call) ==>
      (Stepped(d, call).store.Some? <==> d.store.Some? || PersistsRefresh(d, call))
  {
    SteppedIs(d, call);
  }

  /** After the last logout nothing is found, exactly when no refresh is persisted late. */
  lemma {:induction false} LogoutForgetsExactlyWhen(calls: seq<Call>, k: nat)
    requires LastLogout(calls, k)
    ensures DeviceAfter(calls).store.None? <==>
      forall i | k < i < |calls| :: !PersistsRefresh(DeviceAfter(calls[..i]), calls[i])
    decreases |calls|
  {
    hide Stepped, Replaces, DeviceAfter, PersistsRefresh, ErrorOf;
    var front, last := calls[..|calls| - 1], calls[|calls| - 1];
    assert calls == front + [last];
    CallIsStep(front, last);
    assert calls[..|front|] == front;
    StoreChanges(DeviceAfter(front), last);
    if k < |front| {
      assert forall i | k <= i < |front| :: calls[i] == front[i] && calls[..i] == front[..i];
      LogoutForgetsExactlyWhen(front, k);
    }
  }

  lemma CallChangesSession(c: L.Cell, d: S.Device, call: Call)
    requires !call.Restart?
    ensures
      var after := L.AfterAll(c, SessionSteps(d, call));
      after.value.Active? <==> Activates(d, call) || (c.value.Active? && !Ends(d, call))
  {
    var steps := SessionSteps(d, call);
    if steps != [] {
      assert steps == [steps[0]] && steps[1..] == [];
      L.StepChanges(c, steps[0]);
    }
  }

  lemma OutcomesGrow(front: seq<Call>, call: Call)
    requires !call.Restart?
    ensures Outcomes(front + [call]) == Outcomes(front) + SessionSteps(DeviceAfter(front), call)
    ensures L.AfterAll(L.NEW_CELL, Outcomes(front + [call])) ==
      L.AfterAll(L.AfterAll(L.NEW_CELL, Outcomes(front)), SessionSteps(DeviceAfter(front), call))
  {
    assert (front + [call])[..|front|] == front;
    var steps := SessionSteps(DeviceAfter(front), call);
    if steps == [] {
      assert Outcomes(front) + [] == Outcomes(front);
    } else {
      assert steps == [steps[0]] && steps[1..] == [];
      L.RunAppend(L.NEW_CELL, Outcomes(front), steps[0]);
    }
  }

  /** Over every run of calls, the session is active exactly when an activating call has not been ended. */
  lemma {:induction false} ActiveExactlyWhen(calls: seq<Call>)
    ensures L.AfterAll(L.NEW_CELL, Outcomes(calls)).value.Active? <==> ActiveAfter(calls)
    decreases |calls|
  {
    hide Activates, Ends, DeviceAfter, SessionSteps, L.AfterAll;
    if calls == [] {
      assert L.AfterAll(L.NEW_CELL, []) == L.NEW_CELL by { NothingHappened(); }
    } else {
      var front, last := calls[..|calls| - 1], calls[|calls| - 1];
      assert calls == front + [last];
      CallIsStep(front, last);
      ActiveExactlyWhen(front);
      ActiveGrows(front, last);
      if last.Restart? {
        NothingHappened();
      } else {
        OutcomesGrow(front, last);
        CallChangesSession(L.AfterAll(L.NEW_CELL, Outcomes(front)), DeviceAfter(front), last);
      }
    }
  }

  lemma NothingHappened()
    ensures L.AfterAll(L.NEW_CELL, []) == L.NEW_CELL
  {
  }

  lemma ActiveGrows(front: seq<Call>, last: Call)
    ensures ActiveAfter(front + [last]) <==>
      Activates(DeviceAfter(front), last) || (ActiveAfter(front) && !Ends(DeviceAfter(front), last))
    ensures last.Restart? ==> !Activates(DeviceAfter(front), last) && Ends(DeviceAfter(front), last)
  {
    hide DeviceAfter, ErrorOf;
    var calls := front + [last];
    assert calls[|front|] == last && calls[..|front|] == front;
    assert forall i | 0 <= i < |front| :: calls[i] == front[i] && calls[..i] == front[..i];
    if Activates(DeviceAfter(front), last) {
      assert ActiveSince(calls, |front|);
    }
    if ActiveAfter(front) && !Ends(DeviceAfter(front), last) {
      var k: nat :| ActiveSince(front, k);
      assert ActiveSince(calls, k);
    }
    if ActiveAfter(calls) {
      var k: nat :| ActiveSince(calls, k);
      if k < |front| {
        assert ActiveSince(front, k);
      }
    }
  }

  lemma WhatIsFound(calls: seq<Call>)
    ensures forall k: nat | SignInLasts(calls, k) :: Found(DeviceAfter(calls).store) == Some(SignedInBy(calls[k]))
    ensures forall k: nat | LastLogout(calls, k) ::
      Found(DeviceAfter(calls).store).None? <==>
        forall i | k < i < |calls| :: !PersistsRefresh(DeviceAfter(calls[..i]), calls[i])
  {
    hide DeviceAfter, SignsIn, Replaces, PersistsRefresh, ErrorOf;
    forall k: nat | SignInLasts(calls, k)
      ensures Found(DeviceAfter(calls).store) == Some(SignedInBy(calls[k]))
    {
      SignInIsKept(calls, k);
    }
    forall k: nat | LastLogout(calls, k)
      ensures Found(DeviceAfter(calls).store).None? <==>
        forall i | k < i < |calls| :: !PersistsRefresh(DeviceAfter(calls[..i]), calls[i])
    {
      LogoutForgetsExactlyWhen(calls, k);
    }
  }

  /**
   * Whatever calls are made, whatever fails and whenever the process restarts: each call reports its
   * error, the session is active exactly when some activating call has not been ended, and then the
   * next process finds it again and activates it. What is found is the last sign-in while it lasts,
   * and nothing after a logout unless a refresh is persisted late.
   */
  method RunAndRestart(calls: seq<Call>)
    returns (
      errors: seq<Option<ChatError>>, session: L.SessionState,
      restored: Option<S.SessionInfo>, tokens: Option<S.StoredSession>, next: L.SessionState)
    ensures |errors| == |calls|
    ensures forall i | 0 <= i < |calls| :: errors[i] == ErrorOf(DeviceAfter(calls[..i]), calls[i])
    ensures session == L.AfterAll(L.NEW_CELL, Outcomes(calls)).value
    ensures session.Active? <==> ActiveAfter(calls)
    ensures restored == Found(DeviceAfter(calls).store) && tokens == DeviceAfter(calls).store
    ensures session.Active? ==> restored.Some?
    ensures forall k: nat | SignInLasts(calls, k) :: restored == Some(SignedInBy(calls[k]))
    ensures forall k: nat | LastLogout(calls, k) ::
      restored.None? <==> forall i | k < i < |calls| :: !PersistsRefresh(DeviceAfter(calls[..i]), calls[i])
    ensures S.AlwaysInSync(Trace(calls)) ==> S.RestoresLatest(Trace(calls), restored, tokens)
    ensures next == if restored.Some? then L.Active else L.SignedOut
  {
    hide ErrorOf, StoreSteps, SessionSteps, S.AfterAll, L.AfterAll, Trace, Outcomes, S.RestoresLatest, S.AlwaysInSync;
    hide ActiveAfter, SignInLasts, LastLogout, PersistsRefresh, SignedInBy;
    hide S.HoldsLatest, S.LastSignIn, S.LastTokens, L.SignedInSince;
    var sessions := new S.SessionStore();
    var client := new Client(sessions);
    errors := [];
    NoCalls();
    for i := 0 to |calls|
      invariant fresh(sessions) && fresh(client) && fresh(client.lifecycle)
      invariant client.sessions == sessions && client.Valid()
      invariant sessions.history == Trace(calls[..i]) && client.outcomes == Outcomes(calls[..i])
      invariant |errors| == i
      invariant forall j | 0 <= j < i :: errors[j] == ErrorOf(DeviceAfter(calls[..j]), calls[j])
    {
      assert calls[..i + 1] == calls[..i] + [calls[i]];
      CallIsStep(calls[..i], calls[i]);
      if calls[i].Restart? {
        RestartStep(calls[..i], calls[i]);
        sessions.RestartProcess();
        client := new Client(sessions);
        errors := errors + [None];
      } else {
        OutcomesGrow(calls[..i], calls[i]);
        var error := client.Perform(calls[i]);
        errors := errors + [error];
      }
    }
    assert calls[..|calls|] == calls;
    session := client.lifecycle.session;
    ActiveExactlyWhen(calls);
    WhatIsFound(calls);
    NothingHappened();
    if S.AlwaysInSync(Trace(calls)) {
      S.RestoredIsLatest(Trace(calls));
    }
    sessions.RestartProcess();
    client := new Client(sessions);
    var r := client.RestoreSession(_ => None);
    restored, tokens := r.value, sessions.memory;
    next := client.lifecycle.session;
  }

  lemma NoCalls()
    ensures Trace([]) == [] && Outcomes([]) == []
  {
  }

  lemma RestartStep(front: seq<Call>, call: Call)
    requires call.Restart?
    ensures StoreSteps(DeviceAfter(front), call) == [S.Restart]
    ensures ErrorOf(DeviceAfter(front), call) == None && Outcomes(front + [call]) == []
  {
  }
}
