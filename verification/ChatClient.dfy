/**
 * The client's session calls, made one after another: each changes the session state and the
 * persisted session. Failures of the network, the SDK and the store are arbitrary.
 */
module ChatClient {
  import opened ErrorClassification
  import opened Wrappers
  import L = Lifecycle
  import S = StoredSessions

  /** Where a call can fail. */
  datatype Stage =
    | StopSync | ReadStore | WriteStore | EmptyStore
    | RestoreSdk | LoginSdk | Revoke | Announce | Refresh

  type Failures = Stage -> Option<ChatError>

  datatype Call =
    | RestoreSession(fails: Failures)
    | FinishLogin(session: S.StoredSession, fails: Failures)
    | SignInWithToken(userId: string, deviceId: string, accessToken: string, fails: Failures)
    | UpdateAccessToken(accessToken: string, fails: Failures)
    | Logout(fails: Failures)
    /** The server rejects the token. */
    | UnknownToken
    /** The SDK refreshes the tokens and persists them through its callback. */
    | TokensRefreshed(accessToken: string, refreshToken: Option<string>, fails: Failures)
    /** Any other call of the facade fails. */
    | OtherCall(error: ChatError)
    /** The process ends; a new client opens the same store. */
    | Restart

  // What a call does, in terms of the stages it goes through.

  /** What a restore returns for this store. */
  function Found(store: Option<S.StoredSession>): Option<S.SessionInfo> {
    if store.Some? then Some(S.InfoOf(store.value)) else None
  }

  function ErrorIn<T>(r: Result<T, ChatError>): Option<ChatError> {
    if r.Failure? then Some(r.error) else None
  }

  function Or(first: Option<ChatError>, second: Option<ChatError>): Option<ChatError> {
    if first.Some? then first else second
  }

  const NO_STORED_SESSION := Internal("no stored session")
  const NOT_TAKEN_OVER := Internal("the new access token was not taken over")

  /** The error of the first stage that fails, in the order of the stages. */
  function ErrorOf(d: S.Device, call: Call): Option<ChatError> {
    match call
    case RestoreSession(fails) => Or(fails(ReadStore), if d.store.Some? then fails(RestoreSdk) else None)
    case FinishLogin(_, fails) => Or(fails(LoginSdk), fails(WriteStore))
    case SignInWithToken(_, _, _, fails) => Or(fails(WriteStore), Or(fails(ReadStore), fails(RestoreSdk)))
    case UpdateAccessToken(_, fails) =>
      Or(TokenNotStored(d, fails), Or(NotRefreshed(fails), if d.memory.Some? then None else Some(NOT_TAKEN_OVER)))
    case Logout(fails) =>
      var issued := d.store.Some? && S.Issued(d.store.value);
      Or(Or(fails(StopSync), fails(ReadStore)), Or(if issued then None else fails(Revoke), fails(EmptyStore)))
    case OtherCall(error) => Some(error)
    case _ => None
  }

  function TokenNotStored(d: S.Device, fails: Failures): Option<ChatError> {
    Or(fails(ReadStore), if d.store.Some? then fails(WriteStore) else Some(NO_STORED_SESSION))
  }

  function NotRefreshed(fails: Failures): Option<ChatError> {
    Or(fails(Announce), fails(Refresh))
  }

  /** The stages a call goes through on this device if all goes well, in order. */
  function Stages(d: S.Device, call: Call): seq<Stage> {
    match call
    case RestoreSession(_) => if d.store.Some? then [ReadStore, RestoreSdk] else [ReadStore]
    case FinishLogin(_, _) => [LoginSdk, WriteStore]
    case SignInWithToken(_, _, _, _) => [WriteStore, ReadStore, RestoreSdk]
    case UpdateAccessToken(_, _) => [ReadStore, WriteStore, Announce, Refresh]
    case Logout(_) =>
      if d.store.Some? && S.Issued(d.store.value) then [StopSync, ReadStore, EmptyStore]
      else [StopSync, ReadStore, Revoke, EmptyStore]
    case _ => []
  }

  /** Stage `k` fails with the error, and no stage before it fails. */
  ghost predicate FailsAt(fails: Failures, stages: seq<Stage>, k: nat, error: ChatError) {
    k < |stages| && fails(stages[k]) == Some(error) && forall i | 0 <= i < k :: fails(stages[i]).None?
  }

  /** Calls report the error of the first of their stages that fails; a token update needs a session. */
  lemma FirstFailingStageIsReported(d: S.Device, call: Call, error: ChatError)
    requires !call.UnknownToken? && !call.TokensRefreshed? && !call.OtherCall? && !call.Restart?
    requires call.UpdateAccessToken? ==> d.store.Some? && d.memory.Some?
    ensures ErrorOf(d, call) == Some(error) <==> exists k: nat :: FailsAt(call.fails, Stages(d, call), k, error)
  {
    var fails, stages := call.fails, Stages(d, call);
    assert |stages| <= 4;
    if ErrorOf(d, call) == Some(error) {
      var k := if fails(stages[0]).Some? then 0 else if fails(stages[1]).Some? then 1
        else if fails(stages[2]).Some? then 2 else 3;
      assert FailsAt(fails, stages, k, error);
    }
    if k: nat :| FailsAt(fails, stages, k, error) {
      assert (k > 0 ==> fails(stages[0]).None?) && (k > 1 ==> fails(stages[1]).None?);
      assert k > 2 ==> fails(stages[2]).None?;
    }
  }

  /** What the call does to the store and to the SDK's session. */
  function StoreSteps(d: S.Device, call: Call): seq<S.Step> {
    match call
    case RestoreSession(_) => if ErrorOf(d, call).None? then [S.Restore] else []
    case FinishLogin(session, fails) =>
      if fails(LoginSdk).Some? then []
      else if fails(WriteStore).Some? then [S.Authenticated(session)]
      else [S.Authenticated(session), S.PersistSignIn]
    case SignInWithToken(userId, deviceId, token, fails) =>
      if fails(WriteStore).Some? then []
      else if ErrorOf(d, call).Some? then [S.StoreIssued(userId, deviceId, token)]
      else [S.StoreIssued(userId, deviceId, token), S.Restore]
    case UpdateAccessToken(token, fails) =>
      if fails(ReadStore).Some? || (d.store.Some? && fails(WriteStore).Some?) then []
      else if d.store.None? || NotRefreshed(fails).Some? then [S.StoreToken(token)]
      else [S.StoreToken(token), S.Reload]
    case Logout(_) => if ErrorOf(d, call).None? then [S.Forget] else []
    case TokensRefreshed(access, refresh, fails) =>
      if fails(WriteStore).Some? then [S.TokensRotated(access, refresh)]
      else [S.TokensRotated(access, refresh), S.PersistRefresh]
    case Restart => [S.Restart]
    case _ => []
  }

  /** What the call does to the session state. */
  function SessionSteps(d: S.Device, call: Call): seq<L.Step> {
    match call
    case UnknownToken => [L.UnknownTokenChange]
    case TokensRefreshed(_, _, _) => []
    case Restart => []
    case _ =>
      if ErrorOf(d, call).Some? then [L.CallFailed(ErrorOf(d, call).value)]
      else if call.RestoreSession? then [L.Restored(d.store.Some?)]
      else if call.Logout? then [L.LoggedOut]
      else [L.SignedIn]
  }

  class Client {
    const lifecycle: L.LifecycleState
    const sessions: S.SessionStore
    /** What happened to the session since the client was created. */
    ghost var outcomes: seq<L.Step>

    /** The session state follows from the outcomes, and an active session is persisted. */
    ghost predicate Valid()
      reads this, lifecycle, sessions
    {
      && sessions.Valid()
      && lifecycle.Now() == L.AfterAll(L.NEW_CELL, outcomes)
      && (lifecycle.session.Active? ==> sessions.store.Some? && sessions.memory.Some?)
    }

    /** The call returned this error, and did to both sessions exactly what it does on such a device. */
    twostate predicate Did(call: Call, new error: Option<ChatError>)
      reads this, sessions
    {
      && error == ErrorOf(old(sessions.Now()), call)
      && sessions.history == old(sessions.history) + StoreSteps(old(sessions.Now()), call)
      && outcomes == old(outcomes) + SessionSteps(old(sessions.Now()), call)
    }

    constructor (sessions: S.SessionStore)
      requires sessions.Valid()
      ensures this.sessions == sessions && fresh(lifecycle)
      ensures Valid() && outcomes == []
    {
      this.sessions := sessions;
      lifecycle := new L.LifecycleState();
      outcomes := [];
    }

    method Fail(error: ChatError)
      requires Valid()
      modifies `outcomes, lifecycle
      ensures Valid() && outcomes == old(outcomes) + [L.CallFailed(error)]
      ensures lifecycle.session.Active? ==> old(lifecycle.session).Active?
    {
      L.RunAppend(L.NEW_CELL, outcomes, L.CallFailed(error));
      lifecycle.Report(error);
      outcomes := outcomes + [L.CallFailed(error)];
    }

    /** Sets the session at the end of a call that succeeded. */
    method Succeed(step: L.Step)
      requires step.SignedIn? || step.LoggedOut? || step.UnknownTokenChange? || step.Restored?
      requires sessions.Valid() && lifecycle.Now() == L.AfterAll(L.NEW_CELL, outcomes)
      requires L.Activates(step) || (lifecycle.session.Active? && step.Restored?) ==>
        sessions.store.Some? && sessions.memory.Some?
      modifies `outcomes, lifecycle
      ensures Valid() && outcomes == old(outcomes) + [step]
      ensures lifecycle.session == L.After(old(lifecycle.Now()), step).value
    {
      L.RunAppend(L.NEW_CELL, outcomes, step);
      lifecycle.Perform(step);
      outcomes := outcomes + [step];
    }

    /** Finds the latest sign-in, if its tokens were persisted in sync, and activates the session with it. */
    method RestoreSession(fails: Failures) returns (r: Result<Option<S.SessionInfo>, ChatError>)
      requires Valid()
      modifies `outcomes, lifecycle, sessions
      ensures Valid() && sessions.store == old(sessions.store)
      ensures Did(Call.RestoreSession(fails), ErrorIn(r))
      ensures r.Success? <==> fails(ReadStore).None? && (sessions.store.Some? ==> fails(RestoreSdk).None?)
      ensures r.Success? ==> r.value == Found(sessions.store)
      ensures r.Success? ==> sessions.memory == if sessions.store.Some? then sessions.store else old(sessions.memory)
      ensures r.Success? && S.AlwaysInSync(old(sessions.history)) ==>
        S.RestoresLatest(old(sessions.history), r.value, sessions.memory)
      ensures r.Success? && r.value.Some? ==> lifecycle.session.Active?
      ensures r.Success? && r.value.None? ==> lifecycle.session == old(lifecycle.session)
      ensures r.Failure? ==>
        && outcomes == old(outcomes) + [L.CallFailed(r.error)]
        && Some(r.error) in {fails(ReadStore), fails(RestoreSdk)}
    {
      if fails(ReadStore).Some? {
        Fail(fails(ReadStore).value);
        return Failure(fails(ReadStore).value);
      }
      if sessions.store.Some? && fails(RestoreSdk).Some? {
        Fail(fails(RestoreSdk).value);
        return Failure(fails(RestoreSdk).value);
      }
      var restored := sessions.RestoreStoredSession();
      Succeed(L.Restored(restored.Some?));
      return Success(restored);
    }

    /** The user and device the server authenticated are the ones a restore finds from now on. */
    method FinishLogin(session: S.StoredSession, fails: Failures) returns (r: Result<S.SessionInfo, ChatError>)
      requires Valid()
      modifies `outcomes, lifecycle, sessions
      ensures Valid()
      ensures Did(Call.FinishLogin(session, fails), ErrorIn(r))
      ensures r.Success? <==> fails(LoginSdk).None? && fails(WriteStore).None?
      ensures r.Success? ==>
        && r.value == S.InfoOf(session)
        && lifecycle.session.Active?
        && sessions.store == Some(session)
        && sessions.history == old(sessions.history) + [S.Authenticated(session), S.PersistSignIn]
        && S.LastSignIn(sessions.history, |sessions.history| - 1)
      ensures r.Failure? ==>
        outcomes == old(outcomes) + [L.CallFailed(r.error)] && sessions.store == old(sessions.store)
    {
      if fails(LoginSdk).Some? {
        Fail(fails(LoginSdk).value);
        return Failure(fails(LoginSdk).value);
      }
      sessions.Authenticate(session);
      if fails(WriteStore).Some? {
        Fail(fails(WriteStore).value);
        return Failure(fails(WriteStore).value);
      }
      ghost var before := sessions.history;
      var persisted := sessions.PersistSession(true);
      S.SignInOfFront(before, S.PersistSignIn, |before|);
      assert before[..|before|] == before;
      Succeed(L.SignedIn);
      return Success(S.SessionInfo(session.userId, session.deviceId));
    }

    /** Signs in with an issued token; the session in use is the one that was stored. */
    method SignInWithToken(userId: string, deviceId: string, accessToken: string, fails: Failures)
      returns (r: Result<S.SessionInfo, ChatError>)
      requires Valid()
      modifies `outcomes, lifecycle, sessions
      ensures Valid()
      ensures Did(Call.SignInWithToken(userId, deviceId, accessToken, fails), ErrorIn(r))
      ensures r.Success? <==> fails(WriteStore).None? && fails(ReadStore).None? && fails(RestoreSdk).None?
      ensures r.Success? ==>
        && r.value == S.SessionInfo(userId, deviceId)
        && lifecycle.session.Active?
        && sessions.memory == sessions.store && sessions.store.Some?
        && S.InfoOf(sessions.store.value) == r.value && S.Issued(sessions.store.value)
        && sessions.store.value.accessToken == accessToken
      ensures r.Failure? ==> outcomes == old(outcomes) + [L.CallFailed(r.error)]
    {
      if fails(WriteStore).Some? {
        Fail(fails(WriteStore).value);
        return Failure(fails(WriteStore).value);
      }
      sessions.StoreIssuedSession(userId, deviceId, accessToken);
      if fails(ReadStore).Some? {
        Fail(fails(ReadStore).value);
        return Failure(fails(ReadStore).value);
      }
      if fails(RestoreSdk).Some? {
        Fail(fails(RestoreSdk).value);
        return Failure(fails(RestoreSdk).value);
      }
      var restored := sessions.RestoreStoredSession();
      Succeed(L.SignedIn);
      return Success(restored.value);
    }

    /** Only succeeds when the running client has taken over the token that was stored. */
    method UpdateAccessToken(accessToken: string, fails: Failures) returns (r: Result<(), ChatError>)
      requires Valid()
      modifies `outcomes, lifecycle, sessions
      ensures Valid()
      ensures Did(Call.UpdateAccessToken(accessToken, fails), ErrorIn(r))
      ensures r.Success? <==>
        && old(sessions.store).Some? && old(sessions.memory).Some?
        && fails(ReadStore).None? && fails(WriteStore).None? && fails(Announce).None? && fails(Refresh).None?
      ensures sessions.store.Some? <==> old(sessions.store).Some?
      ensures sessions.store.Some? ==> S.SameIdentity(sessions.store.value, old(sessions.store).value)
      ensures r.Success? ==>
        && lifecycle.session.Active?
        && sessions.store.Some? && sessions.store.value.accessToken == accessToken
        && sessions.memory.Some? && sessions.memory.value.accessToken == accessToken
      ensures r.Failure? ==> outcomes == old(outcomes) + [L.CallFailed(r.error)]
    {
      if fails(ReadStore).Some? {
        Fail(fails(ReadStore).value);
        return Failure(fails(ReadStore).value);
      }
      if sessions.store.Some? && fails(WriteStore).Some? {
        Fail(fails(WriteStore).value);
        return Failure(fails(WriteStore).value);
      }
      var stored := sessions.StoreAccessToken(accessToken);
      if !stored {
        Fail(NO_STORED_SESSION);
        return Failure(NO_STORED_SESSION);
      }
      if fails(Announce).Some? {
        Fail(fails(Announce).value);
        return Failure(fails(Announce).value);
      }
      if fails(Refresh).Some? {
        Fail(fails(Refresh).value);
        return Failure(fails(Refresh).value);
      }
      sessions.ReloadTokens();
      if sessions.memory.None? || sessions.memory.value.accessToken != accessToken {
        Fail(NOT_TAKEN_OVER);
        return Failure(NOT_TAKEN_OVER);
      }
      Succeed(L.SignedIn);
      return Success(());
    }

    /** Forgets the session only if everything before has succeeded; issued sessions are not revoked here. */
    method Logout(fails: Failures) returns (r: Result<(), ChatError>)
      requires Valid()
      modifies `outcomes, lifecycle, sessions
      ensures Valid()
      ensures Did(Call.Logout(fails), ErrorIn(r))
      ensures r.Success? <==>
        && fails(StopSync).None? && fails(ReadStore).None? && fails(EmptyStore).None?
        && ((old(sessions.store).Some? && S.Issued(old(sessions.store).value)) || fails(Revoke).None?)
      ensures r.Success? ==> lifecycle.session.SignedOut? && sessions.store == None
      ensures r.Failure? ==>
        outcomes == old(outcomes) + [L.CallFailed(r.error)] && sessions.store == old(sessions.store)
    {
      if fails(StopSync).Some? {
        Fail(fails(StopSync).value);
        return Failure(fails(StopSync).value);
      }
      if fails(ReadStore).Some? {
        Fail(fails(ReadStore).value);
        return Failure(fails(ReadStore).value);
      }
      var issued := sessions.IsIssuedSession();
      if !issued && fails(Revoke).Some? {
        Fail(fails(Revoke).value);
        return Failure(fails(Revoke).value);
      }
      if fails(EmptyStore).Some? {
        Fail(fails(EmptyStore).value);
        return Failure(fails(EmptyStore).value);
      }
      sessions.ForgetSession();
      Succeed(L.LoggedOut);
      return Success(());
    }

    /** The SDK's save callback: the rotated tokens are persisted with the session in memory. */
    method OnTokensRefreshed(accessToken: string, refreshToken: Option<string>, fails: Failures)
      requires Valid()
      modifies sessions
      ensures Valid()
      ensures sessions.history == old(sessions.history)
        + StoreSteps(old(sessions.Now()), TokensRefreshed(accessToken, refreshToken, fails))
      ensures old(sessions.store).Some? ==> sessions.store.Some?
      ensures sessions.memory == if old(sessions.memory).None? then None
        else Some(S.WithTokens(old(sessions.memory).value, accessToken, refreshToken))
      ensures sessions.store ==
        if fails(WriteStore).None? && sessions.memory.Some? then sessions.memory else old(sessions.store)
    {
      sessions.RotateTokens(accessToken, refreshToken);
      if fails(WriteStore).None? {
        var persisted := sessions.PersistSession(false);
      }
    }

    /** Starts the sync service exactly when some sign-in has not been ended since. */
    method Resume() returns (start: Result<(), ChatError>)
      requires Valid()
      modifies lifecycle`paused
      ensures Valid() && !lifecycle.paused
      ensures start.Success? <==> L.SignedInSince(outcomes)
      ensures start == Failure(AccountLocked) <==> lifecycle.session.Locked?
      ensures start.Failure? ==> EndsSession(start.error)
    {
      lifecycle.paused := false;
      L.ActiveExactlyWhenSignedIn(outcomes);
      match lifecycle.session {
        case Active => return Success(());
        case Locked => return Failure(AccountLocked);
        case _ => return Failure(SessionExpired);
      }
    }

    /** Any call; a restart makes a new client instead. */
    method Perform(call: Call) returns (error: Option<ChatError>)
      requires Valid() && !call.Restart?
      modifies `outcomes, lifecycle, sessions
      ensures Valid()
      ensures Did(call, error)
    {
      hide ErrorOf, StoreSteps, SessionSteps;
      match call {
        case RestoreSession(fails) =>
          var r := RestoreSession(fails);
          return ErrorIn(r);
        case FinishLogin(session, fails) =>
          var r := FinishLogin(session, fails);
          return ErrorIn(r);
        case SignInWithToken(userId, deviceId, token, fails) =>
          var r := SignInWithToken(userId, deviceId, token, fails);
          return ErrorIn(r);
        case UpdateAccessToken(token, fails) =>
          var r := UpdateAccessToken(token, fails);
          return ErrorIn(r);
        case Logout(fails) =>
          var r := Logout(fails);
          return ErrorIn(r);
        case UnknownToken => error := HearOf(call);
        case TokensRefreshed(_, _, _) => error := HearOf(call);
        case OtherCall(_) => error := HearOf(call);
      }
    }

    /** What happens to the client between its session calls. */
    method HearOf(call: Call) returns (error: Option<ChatError>)
      requires Valid() && (call.UnknownToken? || call.TokensRefreshed? || call.OtherCall?)
      modifies `outcomes, lifecycle, sessions
      ensures Valid()
      ensures Did(call, error)
    {
      match call {
        case UnknownToken =>
          Succeed(L.UnknownTokenChange);
          return None;
        case TokensRefreshed(token, refresh, fails) =>
          OnTokensRefreshed(token, refresh, fails);
          return None;
        case OtherCall(other) =>
          Fail(other);
          return Some(other);
      }
    }
  }
}
