/** The session persisted in the encrypted store, and the one a running client holds in memory. */
module StoredSessions {
  import opened Wrappers

  datatype StoredSession = StoredSession(
    clientId: string, userId: string, deviceId: string, accessToken: string, refreshToken: Option<string>)

  datatype SessionInfo = SessionInfo(userId: string, deviceId: string)

  const ISSUED_SESSION_CLIENT_ID := "ngotools-issued"

  /** The persistent cell survives a restart; the memory does not. */
  datatype Device = Device(store: Option<StoredSession>, memory: Option<StoredSession>)

  const NEW_DEVICE := Device(None, None)

  datatype Step =
    /** The SDK completed a login. */
    | Authenticated(session: StoredSession)
    /** `persist_session` after a login. */
    | PersistSignIn
    /** The SDK rotated the tokens of the session in memory ... */
    | TokensRotated(accessToken: string, refreshToken: Option<string>)
    /** ... and its callback persists the session. */
    | PersistRefresh
    | StoreIssued(userId: string, deviceId: string, accessToken: string)
    | StoreToken(accessToken: string)
    /** The SDK reloads the tokens through its callback instead of refreshing. */
    | Reload
    | Forget
    | Restart
    | Restore

  function WithTokens(s: StoredSession, accessToken: string, refreshToken: Option<string>): StoredSession {
    s.(accessToken := accessToken, refreshToken := refreshToken)
  }

  function After(d: Device, step: Step): Device {
    match step
    case Authenticated(session) => d.(memory := Some(session))
    case PersistSignIn => if d.memory.Some? then d.(store := d.memory) else d
    case TokensRotated(access, refresh) =>
      if d.memory.Some? then d.(memory := Some(WithTokens(d.memory.value, access, refresh))) else d
    case PersistRefresh => if d.memory.Some? then d.(store := d.memory) else d
    case StoreIssued(userId, deviceId, token) =>
      d.(store := Some(StoredSession(ISSUED_SESSION_CLIENT_ID, userId, deviceId, token, None)))
    case StoreToken(token) =>
      if d.store.Some? then d.(store := Some(WithTokens(d.store.value, token, None))) else d
    case Reload =>
      if d.store.Some? && d.memory.Some? then
        d.(memory := Some(WithTokens(d.memory.value, d.store.value.accessToken, d.store.value.refreshToken)))
      else d
    case Forget => d.(store := None)
    case Restart => d.(memory := None)
    case Restore => if d.store.Some? then d.(memory := d.store) else d
  }

  function InfoOf(s: StoredSession): SessionInfo {
    SessionInfo(s.userId, s.deviceId)
  }

  function AfterAll(d: Device, steps: seq<Step>): Device
    decreases |steps|
  {
    if steps == [] then d else AfterAll(After(d, steps[0]), steps[1..])
  }

  lemma {:induction false} RunAppend(d: Device, steps: seq<Step>, last: Step)
    ensures AfterAll(d, steps + [last]) == After(AfterAll(d, steps), last)
    decreases |steps|
  {
    if steps == [] {
      assert [last][1..] == [];
    } else {
      assert (steps + [last])[1..] == steps[1..] + [last];
      RunAppend(After(d, steps[0]), steps[1..], last);
    }
  }

  lemma {:induction false} RunSplits(d: Device, a: seq<Step>, b: seq<Step>)
    ensures AfterAll(d, a + b) == AfterAll(AfterAll(d, a), b)
    decreases |a|
  {
    if a == [] {
      assert a + b == b;
    } else {
      assert (a + b)[0] == a[0] && (a + b)[1..] == a[1..] + b;
      RunSplits(After(d, a[0]), a[1..], b);
    }
  }

  // What a run should leave in the store, by the positions of its steps.

  predicate Issued(s: StoredSession) {
    s.clientId == ISSUED_SESSION_CLIENT_ID
  }

  predicate SameIdentity(a: StoredSession, b: StoredSession) {
    a.clientId == b.clientId && a.userId == b.userId && a.deviceId == b.deviceId
  }

  /** The device of a new client when it takes step `k` of the run. */
  function At(steps: seq<Step>, k: nat): Device
    requires k <= |steps|
  {
    AfterAll(NEW_DEVICE, steps[..k])
  }

  predicate SignsIn(d: Device, step: Step) {
    step.StoreIssued? || (step.PersistSignIn? && d.memory.Some?)
  }

  /** The session a sign-in names: its arguments, or the session the SDK has just authenticated. */
  function SignedInAs(d: Device, step: Step): StoredSession
    requires SignsIn(d, step)
  {
    if step.StoreIssued? then
      StoredSession(ISSUED_SESSION_CLIENT_ID, step.userId, step.deviceId, step.accessToken, None)
    else d.memory.value
  }

  /** Step `k` signs in, and nothing after it signs in or forgets. */
  ghost predicate LastSignIn(steps: seq<Step>, k: nat) {
    && k < |steps| && SignsIn(At(steps, k), steps[k])
    && forall i | k < i < |steps| :: !SignsIn(At(steps, i), steps[i]) && !steps[i].Forget?
  }

  predicate BringsTokens(d: Device, step: Step) {
    SignsIn(d, step) || step.StoreToken? || (step.PersistRefresh? && d.memory.Some?)
  }

  function TokensOf(d: Device, step: Step): (string, Option<string>)
    requires BringsTokens(d, step)
  {
    match step
    case StoreIssued(_, _, token) => (token, None)
    case StoreToken(token) => (token, None)
    case _ => (d.memory.value.accessToken, d.memory.value.refreshToken)
  }

  ghost predicate LastTokens(steps: seq<Step>, k: nat) {
    && k < |steps| && BringsTokens(At(steps, k), steps[k])
    && forall i | k < i < |steps| :: !BringsTokens(At(steps, i), steps[i])
  }

  /**
   * The store holds a session exactly when some sign-in has not been forgotten; it is then the
   * latest one, with the tokens that were stored last.
   */
  ghost predicate HoldsLatest(steps: seq<Step>) {
    var store := AfterAll(NEW_DEVICE, steps).store;
    && (store.Some? <==> exists k: nat :: LastSignIn(steps, k))
    && (store.Some? ==> exists k: nat :: LastTokens(steps, k))
    && (forall k: nat | LastSignIn(steps, k) ::
          store.Some? && SameIdentity(store.value, SignedInAs(At(steps, k), steps[k])))
    && (forall k: nat | LastTokens(steps, k) && store.Some? ::
          (store.value.accessToken, store.value.refreshToken) == TokensOf(At(steps, k), steps[k]))
  }

  /** A refresh is persisted only for the session that is stored. */
  predicate InSync(d: Device, step: Step) {
    step.PersistRefresh? && d.memory.Some? ==> d.store.Some? && SameIdentity(d.memory.value, d.store.value)
  }

  ghost predicate AlwaysInSync(steps: seq<Step>) {
    forall k | 0 <= k < |steps| :: InSync(At(steps, k), steps[k])
  }

  lemma PositionsOfFront(front: seq<Step>, last: Step)
    ensures forall k | 0 <= k <= |front| :: At(front + [last], k) == At(front, k)
    ensures AfterAll(NEW_DEVICE, front + [last]) == After(At(front, |front|), last)
    ensures At(front, |front|) == AfterAll(NEW_DEVICE, front)
  {
    assert forall k | 0 <= k <= |front| :: (front + [last])[..k] == front[..k];
    assert front[..|front|] == front;
    RunAppend(NEW_DEVICE, front, last);
  }

  lemma SignInOfFront(front: seq<Step>, last: Step, k: nat)
    ensures LastSignIn(front + [last], k) <==>
      if SignsIn(At(front, |front|), last) then k == |front| else !last.Forget? && LastSignIn(front, k)
  {
    hide AfterAll, At, SignsIn;
    PositionsOfFront(front, last);
    var steps := front + [last];
    assert steps[|front|] == last;
    assert forall i | 0 <= i < |front| :: steps[i] == front[i];
    if LastSignIn(front, k) && !SignsIn(At(front, |front|), last) && !last.Forget? {
      assert forall i | k < i < |steps| :: i < |front| ==> steps[i] == front[i];
    }
  }

  lemma TokensOfFront(front: seq<Step>, last: Step, k: nat)
    ensures LastTokens(front + [last], k) <==>
      if BringsTokens(At(front, |front|), last) then k == |front| else LastTokens(front, k)
  {
    hide AfterAll, At, BringsTokens;
    PositionsOfFront(front, last);
    var steps := front + [last];
    assert steps[|front|] == last;
    assert forall i | 0 <= i < |front| :: steps[i] == front[i];
    if LastTokens(front, k) && !BringsTokens(At(front, |front|), last) {
      assert forall i | k < i < |steps| :: i < |front| ==> steps[i] == front[i];
    }
  }

  /** One step keeps the store right exactly when it does not persist a refresh out of sync. */
  lemma StepHoldsLatest(front: seq<Step>, last: Step)
    requires HoldsLatest(front)
    ensures HoldsLatest(front + [last]) <==> InSync(At(front, |front|), last)
  {
    hide AfterAll, At, LastSignIn, LastTokens;
    var d, steps := At(front, |front|), front + [last];
    PositionsOfFront(front, last);
    assert steps[|front|] == last;
    assert forall i | 0 <= i < |front| :: steps[i] == front[i];
    forall k: nat
      ensures LastSignIn(steps, k) <==> if SignsIn(d, last) then k == |front| else !last.Forget? && LastSignIn(front, k)
      ensures LastTokens(steps, k) <==> if BringsTokens(d, last) then k == |front| else LastTokens(front, k)
      ensures LastSignIn(front, k) ==> k < |front|
      ensures LastTokens(front, k) ==> k < |front|
    {
      SignInOfFront(front, last, k);
      TokensOfFront(front, last, k);
      PositionsEnd(front, k);
    }
    if SignsIn(d, last) {
      assert LastSignIn(steps, |front|);
    }
    if BringsTokens(d, last) {
      assert LastTokens(steps, |front|);
    }
    if !InSync(d, last) {
      assert AfterAll(NEW_DEVICE, steps).store == d.memory;
      if d.store.Some? {
        var k :| LastSignIn(front, k);
        assert LastSignIn(steps, k);
      }
    }
  }

  lemma PositionsEnd(steps: seq<Step>, k: nat)
    ensures LastSignIn(steps, k) || LastTokens(steps, k) ==> k < |steps|
  {
  }

  /**
   * Over runs with a restart at any step, the store holds the latest sign-in with its latest
   * tokens at every point, exactly when each refresh that is persisted belongs to the stored
   * session.
   */
  lemma {:induction false} StoreHoldsLatestWhenInSync(steps: seq<Step>)
    ensures (forall n | 0 <= n <= |steps| :: HoldsLatest(steps[..n])) <==> AlwaysInSync(steps)
  {
    hide HoldsLatest, AfterAll, InSync;
    if steps == [] {
      EmptyHoldsLatest();
      assert steps[..0] == [];
    } else {
      var front, last := steps[..|steps| - 1], steps[|steps| - 1];
      assert steps == front + [last] && steps[..|steps|] == steps && front[..|front|] == front;
      assert forall n | 0 <= n <= |front| :: steps[..n] == front[..n];
      StoreHoldsLatestWhenInSync(front);
      if HoldsLatest(front) {
        StepHoldsLatest(front, last);
      }
      assert InSync(At(steps, |front|), last) <==> InSync(At(front, |front|), last);
      assert forall k | 0 <= k < |front| :: At(steps, k) == At(front, k) && steps[k] == front[k];
    }
  }

  lemma EmptyHoldsLatest()
    ensures HoldsLatest([])
  {
  }

  /** A restore, after any run in sync: the user and device of the latest sign-in, with the latest tokens. */
  ghost predicate RestoresLatest(steps: seq<Step>, info: Option<SessionInfo>, restored: Option<StoredSession>) {
    && (info.Some? <==> exists k: nat :: LastSignIn(steps, k))
    && (forall k: nat | LastSignIn(steps, k) ::
          info == Some(InfoOf(SignedInAs(At(steps, k), steps[k]))))
    && (info.Some? ==> restored.Some? && exists k: nat :: LastTokens(steps, k))
    && (forall k: nat | LastTokens(steps, k) && info.Some? && restored.Some? ::
          (restored.value.accessToken, restored.value.refreshToken) == TokensOf(At(steps, k), steps[k]))
  }

  lemma RestoredIsLatest(steps: seq<Step>)
    requires AlwaysInSync(steps)
    ensures
      var store := AfterAll(NEW_DEVICE, steps).store;
      RestoresLatest(steps, if store.Some? then Some(InfoOf(store.value)) else None, store)
  {
    hide AfterAll, At, LastSignIn, LastTokens, AlwaysInSync;
    StoreHoldsLatestWhenInSync(steps);
    assert steps[..|steps|] == steps;
    assert HoldsLatest(steps);
  }

  /** However often the tokens are replaced, user, device and the issued flag stay. */
  lemma {:induction false} TokenUpdatesKeepIdentity(steps: seq<Step>, n: nat)
    requires n <= |steps| && AlwaysInSync(steps)
    requires forall i | n <= i < |steps| ::
      !steps[i].PersistSignIn? && !steps[i].StoreIssued? && !steps[i].Forget?
    ensures
      var before, after := At(steps, n).store, AfterAll(NEW_DEVICE, steps).store;
      && (before.Some? <==> after.Some?)
      && (after.Some? ==>
            SameIdentity(before.value, after.value) && (Issued(before.value) <==> Issued(after.value)))
    decreases |steps|
  {
    hide AfterAll;
    if n == |steps| {
      assert steps[..n] == steps;
    } else {
      var front, last := steps[..|steps| - 1], steps[|steps| - 1];
      assert steps == front + [last];
      PositionsOfFront(front, last);
      assert forall k | 0 <= k < |front| :: At(steps, k) == At(front, k) && steps[k] == front[k];
      TokenUpdatesKeepIdentity(front, n);
      assert InSync(At(steps, |front|), last);
    }
  }

  lemma RunOfFive(a: Step, b: Step, c: Step, d: Step, e: Step)
    ensures
      var steps := [a, b, c, d, e];
      && At(steps, 3) == After(After(After(NEW_DEVICE, a), b), c)
      && At(steps, 4) == After(At(steps, 3), d)
      && AfterAll(NEW_DEVICE, steps) == After(At(steps, 4), e)
  {
    hide After, AfterAll;
    RunOfThree(a, b, c);
    RunAppend(NEW_DEVICE, [a, b, c], d);
    RunAppend(NEW_DEVICE, [a, b, c, d], e);
    assert [a, b, c] + [d] == [a, b, c, d] && [a, b, c, d] + [e] == [a, b, c, d, e];
    assert [a, b, c, d, e][..4] == [a, b, c, d] && [a, b, c, d, e][..3] == [a, b, c];
  }

  lemma RunOfThree(a: Step, b: Step, c: Step)
    ensures AfterAll(NEW_DEVICE, [a, b, c]) == After(After(After(NEW_DEVICE, a), b), c)
  {
    hide After;
    RunAppend(NEW_DEVICE, [], a);
    RunAppend(NEW_DEVICE, [a], b);
    RunAppend(NEW_DEVICE, [a, b], c);
    assert [] + [a] == [a] && [a] + [b] == [a, b] && [a, b] + [c] == [a, b, c];
  }

  /**
   * Two runs from a new device that break it: the tokens of a login rotate, and before the callback
   * has persisted them the session is forgotten, or another user signs in.
   */
  lemma LateRefreshOverwrites(
    s: StoredSession, access: string, refresh: Option<string>, userId: string, deviceId: string, token: string)
    requires userId != s.userId
    ensures
      var forgotten := [Authenticated(s), PersistSignIn, TokensRotated(access, refresh), Forget, PersistRefresh];
      && AfterAll(NEW_DEVICE, forgotten).store == Some(WithTokens(s, access, refresh))
      && !exists k: nat :: LastSignIn(forgotten, k)
    ensures
      var replaced := [
        Authenticated(s), PersistSignIn, TokensRotated(access, refresh),
        StoreIssued(userId, deviceId, token), PersistRefresh];
      && AfterAll(NEW_DEVICE, replaced).store == Some(WithTokens(s, access, refresh))
      && LastSignIn(replaced, 3)
  {
    hide AfterAll;
    RunOfFive(Authenticated(s), PersistSignIn, TokensRotated(access, refresh), Forget, PersistRefresh);
    RunOfFive(
      Authenticated(s), PersistSignIn, TokensRotated(access, refresh),
      StoreIssued(userId, deviceId, token), PersistRefresh);
    var forgotten := [Authenticated(s), PersistSignIn, TokensRotated(access, refresh), Forget, PersistRefresh];
    assert forgotten[3] == Forget;
    forall k: nat ensures !LastSignIn(forgotten, k) {
    }
  }

  /** The store and the SDK's session, with the steps taken on this device so far. */
  class SessionStore {
    var store: Option<StoredSession>
    var memory: Option<StoredSession>
    ghost var history: seq<Step>

    function Now(): Device
      reads this
    {
      Device(store, memory)
    }

    ghost predicate Valid()
      reads this
    {
      Now() == AfterAll(NEW_DEVICE, history)
    }

    constructor ()
      ensures Valid() && history == [] && store == None && memory == None
    {
      store, memory := None, None;
      history := [];
    }

    ghost method Record(step: Step)
      requires Now() == After(AfterAll(NEW_DEVICE, history), step)
      modifies `history
      ensures Valid() && history == old(history) + [step]
    {
      RunAppend(NEW_DEVICE, history, step);
      history := history + [step];
    }

    /** After a run in sync, the user and device of the latest sign-in and its latest tokens, or nothing. */
    method RestoreStoredSession() returns (info: Option<SessionInfo>)
      requires Valid()
      modifies `memory, `history
      ensures Valid() && history == old(history) + [Restore]
      ensures if store.None? then info == None && memory == old(memory)
        else info == Some(InfoOf(store.value)) && memory == store
      ensures AlwaysInSync(old(history)) ==> RestoresLatest(old(history), info, memory)
    {
      hide AfterAll, AlwaysInSync, LastSignIn, LastTokens;
      if AlwaysInSync(history) {
        RestoredIsLatest(history);
      }
      if store.None? {
        Record(Restore);
        return None;
      }
      memory := store;
      Record(Restore);
      return Some(SessionInfo(store.value.userId, store.value.deviceId));
    }

    /** Fails without a session in memory; otherwise that is what a restore finds. */
    method PersistSession(ghost signIn: bool) returns (done: bool)
      requires Valid()
      modifies `store, `history
      ensures Valid() && history == old(history) + [if signIn then PersistSignIn else PersistRefresh]
      ensures done <==> memory.Some?
      ensures store == if done then memory else old(store)
    {
      if memory.None? {
        Record(if signIn then PersistSignIn else PersistRefresh);
        return false;
      }
      var session := memory.value;
      store := Some(StoredSession(
        session.clientId, session.userId, session.deviceId, session.accessToken, session.refreshToken));
      Record(if signIn then PersistSignIn else PersistRefresh);
      return true;
    }

    method StoreIssuedSession(userId: string, deviceId: string, accessToken: string)
      requires Valid()
      modifies `store, `history
      ensures Valid() && history == old(history) + [StoreIssued(userId, deviceId, accessToken)]
      ensures store == Some(StoredSession(ISSUED_SESSION_CLIENT_ID, userId, deviceId, accessToken, None))
    {
      store := Some(StoredSession(ISSUED_SESSION_CLIENT_ID, userId, deviceId, accessToken, None));
      Record(StoreIssued(userId, deviceId, accessToken));
    }

    /** Fails without a stored session; otherwise user, device and issued flag stay. */
    method StoreAccessToken(accessToken: string) returns (done: bool)
      requires Valid()
      modifies `store, `history
      ensures Valid() && history == old(history) + [StoreToken(accessToken)]
      ensures (done <==> old(store).Some?) && (done <==> store.Some?)
      ensures done ==>
        && SameIdentity(store.value, old(store).value)
        && (Issued(store.value) <==> Issued(old(store).value))
        && store.value.accessToken == accessToken && store.value.refreshToken == None
    {
      if store.None? {
        Record(StoreToken(accessToken));
        return false;
      }
      var stored := store.value;
      stored := stored.(accessToken := accessToken);
      stored := stored.(refreshToken := None);
      store := Some(stored);
      Record(StoreToken(accessToken));
      return true;
    }

    method IsIssuedSession() returns (issued: bool)
      ensures issued <==> store.Some? && Issued(store.value)
    {
      return store.Some? && store.value.clientId == ISSUED_SESSION_CLIENT_ID;
    }

    method ForgetSession()
      requires Valid()
      modifies `store, `history
      ensures Valid() && history == old(history) + [Forget] && store == None
    {
      store := None;
      Record(Forget);
    }

    // What the SDK and the process do to the session in memory.

    method Authenticate(session: StoredSession)
      requires Valid()
      modifies `memory, `history
      ensures Valid() && history == old(history) + [Authenticated(session)] && memory == Some(session)
    {
      memory := Some(session);
      Record(Authenticated(session));
    }

    method RotateTokens(accessToken: string, refreshToken: Option<string>)
      requires Valid()
      modifies `memory, `history
      ensures Valid() && history == old(history) + [TokensRotated(accessToken, refreshToken)]
      ensures memory == if old(memory).None? then None
        else Some(WithTokens(old(memory).value, accessToken, refreshToken))
    {
      if memory.Some? {
        memory := Some(WithTokens(memory.value, accessToken, refreshToken));
      }
      Record(TokensRotated(accessToken, refreshToken));
    }

    method ReloadTokens()
      requires Valid()
      modifies `memory, `history
      ensures Valid() && history == old(history) + [Reload]
      ensures memory.Some? <==> old(memory).Some?
      ensures store.Some? && memory.Some? ==>
        memory == Some(WithTokens(old(memory).value, store.value.accessToken, store.value.refreshToken))
    {
      if store.Some? && memory.Some? {
        memory := Some(WithTokens(memory.value, store.value.accessToken, store.value.refreshToken));
      }
      Record(Reload);
    }

    method RestartProcess()
      requires Valid()
      modifies `memory, `history
      ensures Valid() && history == old(history) + [Restart] && memory == None
    {
      memory := None;
      Record(Restart);
    }
  }
}
