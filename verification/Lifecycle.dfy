/** The session state of a client: a watched cell that calls, sign-ins and the server change. */
module Lifecycle {
  import opened ErrorClassification
  import opened Wrappers

  datatype SessionState = SignedOut | Active | Expired | Locked

  /** The watch channel: its value, and a version that receivers compare with the one they saw. */
  datatype Cell = Cell(value: SessionState, version: nat)

  const NEW_CELL := Cell(SignedOut, 0)

  function Set(c: Cell, state: SessionState): Cell {
    if c.value != state then Cell(state, c.version + 1) else c
  }

  function Reported(c: Cell, error: ChatError): Cell {
    if c.value.Active? && EndsSession(error) then
      Cell(if error.SessionExpired? then Expired else Locked, c.version + 1)
    else c
  }

  class LifecycleState {
    var session: SessionState
    /** The watch channel's version: changes notified so far. */
    var version: nat
    var paused: bool

    function Now(): Cell
      reads this
    {
      Cell(session, version)
    }

    constructor ()
      ensures Now() == NEW_CELL && !paused
    {
      session, version, paused := SignedOut, 0, false;
    }

    /** `send_if_modified`: receivers are notified exactly when the closure reports a change. */
    method SetSession(state: SessionState)
      modifies `session, `version
      ensures Now() == Set(old(Now()), state)
    {
      var changed := session != state;
      session := state;
      if changed {
        version := version + 1;
      }
    }

    method Report(error: ChatError)
      modifies `session, `version
      ensures Now() == Reported(old(Now()), error)
    {
      var next;
      match error {
        case SessionExpired => next := Expired;
        case AccountLocked => next := Locked;
        case _ => return;
      }
      if session != Active {
        return;
      }
      session := next;
      version := version + 1;
    }

    /** A facade call: its error, if any, is reported. */
    method Run<T>(outcome: Result<T, ChatError>) returns (r: Result<T, ChatError>)
      modifies `session, `version
      ensures r == outcome
      ensures Now() == if outcome.Failure? then Reported(old(Now()), outcome.error) else old(Now())
    {
      if outcome.Failure? {
        Report(outcome.error);
      }
      return outcome;
    }

    /** Whatever the client does to the session while another task runs. */
    method Perform(step: Step)
      modifies `session, `version
      ensures Now() == After(old(Now()), step)
    {
      match step {
        case Restored(found) =>
          if found {
            SetSession(Active);
          }
        case SignedIn => SetSession(Active);
        case LoggedOut => SetSession(SignedOut);
        case UnknownTokenChange => SetSession(Expired);
        case CallFailed(error) => Report(error);
      }
    }
  }

  // Runs of everything that touches the session.

  datatype Step =
    /** A restore without error: whether a stored session was found. */
    | Restored(found: bool)
    /** A login, token sign-in or token update that succeeded. */
    | SignedIn
    | LoggedOut
    | UnknownTokenChange
    | CallFailed(error: ChatError)

  function After(c: Cell, step: Step): Cell {
    match step
    case Restored(found) => if found then Set(c, Active) else c
    case SignedIn => Set(c, Active)
    case LoggedOut => Set(c, SignedOut)
    case UnknownTokenChange => Set(c, Expired)
    case CallFailed(error) => Reported(c, error)
  }

  function AfterAll(c: Cell, steps: seq<Step>): Cell
    decreases |steps|
  {
    if steps == [] then c else AfterAll(After(c, steps[0]), steps[1..])
  }

  predicate Activates(step: Step) {
    step == Restored(true) || step == SignedIn
  }

  predicate Ends(step: Step) {
    step.LoggedOut? || step.UnknownTokenChange? || (step.CallFailed? && EndsSession(step.error))
  }

  /** Some successful sign-in or restore has no ending step after it. */
  ghost predicate SignedInSince(steps: seq<Step>) {
    exists k :: 0 <= k < |steps| && Activates(steps[k]) && forall i | k < i < |steps| :: !Ends(steps[i])
  }

  /** The version counts exactly the changes of the value; reports only leave `Active`. */
  lemma StepChanges(c: Cell, step: Step)
    ensures After(c, step).version == c.version + (if After(c, step).value != c.value then 1 else 0)
    ensures !c.value.Active? && After(c, step).value.Active? ==> Activates(step)
    ensures step.CallFailed? && After(c, step) != c ==>
      c.value.Active? && (After(c, step).value.Expired? || After(c, step).value.Locked?)
    ensures c.value.Active? ==> (After(c, step).value.Active? <==> !Ends(step))
  {
  }

  lemma {:induction false} RunAppend(c: Cell, steps: seq<Step>, last: Step)
    ensures AfterAll(c, steps + [last]) == After(AfterAll(c, steps), last)
    decreases |steps|
  {
    if steps == [] {
      assert [last][1..] == [];
    } else {
      assert (steps + [last])[1..] == steps[1..] + [last];
      RunAppend(After(c, steps[0]), steps[1..], last);
    }
  }

  /** Over every run: a session is active exactly when a sign-in has not been ended since. */
  lemma {:induction false} ActiveExactlyWhenSignedIn(steps: seq<Step>)
    ensures AfterAll(NEW_CELL, steps).value.Active? <==> SignedInSince(steps)
    decreases |steps|
  {
    if steps != [] {
      var front, last := steps[..|steps| - 1], steps[|steps| - 1];
      assert steps == front + [last];
      RunAppend(NEW_CELL, front, last);
      ActiveExactlyWhenSignedIn(front);
      StepChanges(AfterAll(NEW_CELL, front), last);
      if SignedInSince(front) && !Ends(last) {
        var k :| 0 <= k < |front| && Activates(front[k]) && forall i | k < i < |front| :: !Ends(front[i]);
        assert Activates(steps[k]);
        assert forall i | k < i < |steps| :: i == |front| || steps[i] == front[i];
      }
      if Activates(last) {
        assert Activates(steps[|steps| - 1]);
      }
      if SignedInSince(steps) {
        var k :| 0 <= k < |steps| && Activates(steps[k]) && forall i | k < i < |steps| :: !Ends(steps[i]);
        if k < |front| {
          assert Activates(front[k]) && !Ends(steps[|front|]);
          assert forall i | k < i < |front| :: front[i] == steps[i];
        }
      }
    }
  }

  /** The version of the cell counts the changes of the run. */
  function Changes(c: Cell, steps: seq<Step>): nat
    decreases |steps|
  {
    if steps == [] then 0
    else (if After(c, steps[0]).value != c.value then 1 else 0) + Changes(After(c, steps[0]), steps[1..])
  }

  lemma {:induction false} VersionCountsChanges(c: Cell, steps: seq<Step>)
    ensures AfterAll(c, steps).version == c.version + Changes(c, steps)
    decreases |steps|
  {
    if steps != [] {
      StepChanges(c, steps[0]);
      VersionCountsChanges(After(c, steps[0]), steps[1..]);
    }
  }

  /** Failures for lack of connectivity, however wrapped, never end an active session. */
  lemma {:induction false} ConnectivityKeepsActive(c: Cell, failures: seq<(seq<Cause>, string)>)
    requires c.value.Active?
    requires forall i | 0 <= i < |failures| :: ConnectivityChain(failures[i].0)
    ensures AfterAll(c, Failures(failures)) == c
    decreases |failures|
  {
    if failures != [] {
      ChainIsNetworkWhen(failures[0].0, failures[0].1);
      ConnectivityKeepsActive(c, failures[1..]);
      assert Failures(failures)[1..] == Failures(failures[1..]);
    }
  }

  function Failures(failures: seq<(seq<Cause>, string)>): seq<Step> {
    seq(|failures|, i requires 0 <= i < |failures| =>
      CallFailed(ClassifyError(failures[i].0, failures[i].1)))
  }

  /** What ends a lock; errors that are reported never do. */
  predicate Unlocks(step: Step) {
    Activates(step) || step.LoggedOut? || step.UnknownTokenChange?
  }

  ghost predicate StaysLocked(c: Cell, steps: seq<Step>)
    decreases |steps|
  {
    c.value.Locked? && (steps != [] ==> StaysLocked(After(c, steps[0]), steps[1..]))
  }

  /** A locked session stays locked exactly as long as nobody signs in or out and no token is rejected. */
  lemma {:induction false} LockedStaysExactlyWhen(c: Cell, steps: seq<Step>)
    requires c.value.Locked?
    ensures StaysLocked(c, steps) <==> forall i | 0 <= i < |steps| :: !Unlocks(steps[i])
    decreases |steps|
  {
    if steps != [] {
      if Unlocks(steps[0]) {
        assert !StaysLocked(After(c, steps[0]), steps[1..]);
      } else {
        LockedStaysExactlyWhen(After(c, steps[0]), steps[1..]);
        assert forall i | 0 < i < |steps| :: steps[i] == steps[1..][i - 1];
        assert forall i | 0 <= i < |steps| - 1 :: steps[1..][i] == steps[i + 1];
      }
    }
  }

  /** Step `k` locks the session: a locked account is reported while it is active. */
  ghost predicate LocksAt(steps: seq<Step>, k: nat) {
    k < |steps| && steps[k] == CallFailed(AccountLocked) && SignedInSince(steps[..k])
  }

  /** Step `k` expires the session: an unknown token whatever it was, or a rejected one while it is active. */
  ghost predicate ExpiresAt(steps: seq<Step>, k: nat) {
    && k < |steps|
    && (steps[k].UnknownTokenChange? || (steps[k] == CallFailed(SessionExpired) && SignedInSince(steps[..k])))
  }

  ghost predicate LockedSince(steps: seq<Step>, k: nat) {
    LocksAt(steps, k) && forall i | k < i < |steps| :: !Unlocks(steps[i])
  }

  ghost predicate ExpiredSince(steps: seq<Step>, k: nat) {
    ExpiresAt(steps, k) && forall i | k < i < |steps| :: !Activates(steps[i]) && !steps[i].LoggedOut?
  }

  /** Over every run, each state by the steps that lead to it; otherwise nobody is signed in. */
  lemma {:induction false} StateByPosition(steps: seq<Step>)
    ensures
      var value := AfterAll(NEW_CELL, steps).value;
      && (value.Active? <==> SignedInSince(steps))
      && (value.Locked? <==> exists k: nat :: LockedSince(steps, k))
      && (value.Expired? <==> exists k: nat :: ExpiredSince(steps, k))
    decreases |steps|
  {
    hide SignedInSince, Activates, Unlocks, AfterAll;
    ActiveExactlyWhenSignedIn(steps);
    if steps == [] {
      assert AfterAll(NEW_CELL, steps) == NEW_CELL by { NothingChanged(); }
    } else {
      var front, last := steps[..|steps| - 1], steps[|steps| - 1];
      assert steps == front + [last];
      RunAppend(NEW_CELL, front, last);
      ActiveExactlyWhenSignedIn(front);
      StateByPosition(front);
      LockedGrows(front, last);
      ExpiredGrows(front, last);
      ValueAfter(AfterAll(NEW_CELL, front), last);
    }
  }

  lemma NothingChanged()
    ensures AfterAll(NEW_CELL, []) == NEW_CELL
  {
  }

  lemma ValueAfter(c: Cell, step: Step)
    ensures After(c, step).value.Locked? <==>
      (step == CallFailed(AccountLocked) && c.value.Active?) || (c.value.Locked? && !Unlocks(step))
    ensures After(c, step).value.Expired? <==>
      || step.UnknownTokenChange? || (step == CallFailed(SessionExpired) && c.value.Active?)
      || (c.value.Expired? && !Activates(step) && !step.LoggedOut?)
  {
  }

  lemma LockedGrows(front: seq<Step>, last: Step)
    ensures (exists k: nat :: LockedSince(front + [last], k)) <==>
      || (last == CallFailed(AccountLocked) && SignedInSince(front))
      || ((exists k: nat :: LockedSince(front, k)) && !Unlocks(last))
  {
    hide SignedInSince, Unlocks;
    var steps := front + [last];
    assert steps[..|front|] == front && steps[|front|] == last;
    assert forall i | 0 <= i < |front| :: steps[i] == front[i] && steps[..i] == front[..i];
    if last == CallFailed(AccountLocked) && SignedInSince(front) {
      assert LockedSince(steps, |front|);
    }
    if k: nat :| LockedSince(front, k) && !Unlocks(last) {
      assert LockedSince(steps, k);
    }
    if k: nat :| LockedSince(steps, k) {
      if k < |front| {
        assert !Unlocks(steps[|front|]);
        assert LockedSince(front, k);
      }
    }
  }

  lemma ExpiredGrows(front: seq<Step>, last: Step)
    ensures (exists k: nat :: ExpiredSince(front + [last], k)) <==>
      || last.UnknownTokenChange? || (last == CallFailed(SessionExpired) && SignedInSince(front))
      || ((exists k: nat :: ExpiredSince(front, k)) && !Activates(last) && !last.LoggedOut?)
  {
    hide SignedInSince, Activates;
    var steps := front + [last];
    assert steps[..|front|] == front && steps[|front|] == last;
    assert forall i | 0 <= i < |front| :: steps[i] == front[i] && steps[..i] == front[..i];
    if last.UnknownTokenChange? || (last == CallFailed(SessionExpired) && SignedInSince(front)) {
      assert ExpiredSince(steps, |front|);
    }
    if k: nat :| ExpiredSince(front, k) && !Activates(last) && !last.LoggedOut? {
      assert ExpiredSince(steps, k);
    }
    if k: nat :| ExpiredSince(steps, k) {
      if k < |front| {
        assert !Activates(steps[|front|]) && !steps[|front|].LoggedOut?;
        assert ExpiredSince(front, k);
      }
    }
  }

  /** A run from a new client in which the handler of unknown tokens overwrites a lock. */
  lemma LockIsNotSticky()
    ensures AfterAll(NEW_CELL, [SignedIn, CallFailed(AccountLocked)]).value == Locked
    ensures AfterAll(NEW_CELL, [SignedIn, CallFailed(AccountLocked), UnknownTokenChange]).value == Expired
  {
    var locked := [SignedIn, CallFailed(AccountLocked)];
    assert locked[1..] == [CallFailed(AccountLocked)] && locked[1..][1..] == [];
    RunAppend(NEW_CELL, locked, UnknownTokenChange);
    assert locked + [UnknownTokenChange] == [SignedIn, CallFailed(AccountLocked), UnknownTokenChange];
  }
}
