/**
  The per-container restart policy tracker of the ECS agent
  (ecs-agent/api/container/restart/restart_tracker.go).

  A tracker holds a restart policy and a restart counter.  `ShouldRestart`
  walks a fixed chain of checks; the first check that fails blocks the restart
  and names itself in the reason string.  `RecordRestart` bumps the counter.

  Times are integer nanoseconds: `time.Duration` is a nanosecond count, and the
  wall-clock reading behind `time.Since(startedAt)` is passed in as `now`.
  Trackers are immutable values here; an operation that mutates the tracker in
  the Go code returns the updated tracker instead.
 */
module Restart {
  import opened Wrappers
  import Decimal

  /** A point in time or a duration, in nanoseconds. */
  type Nanos = int

  /** Desired status of a container.  The status enumeration lives outside
      this component; the only variant it distinguishes is `Stopped`. */
  datatype ContainerStatus = Running | Stopped | OtherStatus(ordinal: nat)

  datatype RestartPolicy = RestartPolicy(
    enabled: bool,
    ignoredExitCodes: seq<int>,
    attemptResetPeriod: Nanos)

  datatype RestartTracker = RestartTracker(
    restartCount: nat,
    restartPolicy: RestartPolicy)

  /** The pair `(shouldRestart, reason)` that `ShouldRestart` returns. */
  datatype Decision = Decision(shouldRestart: bool, reason: string)

  /** The check that blocked a restart. */
  datatype Blocker =
    | PolicyNotEnabled
    | DesiredStatusStopped
    | ExitCodeNil
    | ExitCodeIgnored(code: int)
    | ResetPeriodNotElapsed

  const NotEnabledReason := "restart policy is not enabled"
  const StoppedReason := "container's desired status is stopped"
  const NilExitCodeReason := "exit code is nil"
  const IgnoredPrefix := "exit code "
  const IgnoredSuffix := " should be ignored"
  const ResetPeriodReason := "attempt reset period has not elapsed"

  /** The reason string reported for a blocked restart; the ignored-code
      message is `fmt.Sprintf("exit code %d should be ignored", code)`. */
  function Message(b: Blocker): (s: string)
    ensures s != ""
  {
    match b
    case PolicyNotEnabled => NotEnabledReason
    case DesiredStatusStopped => StoppedReason
    case ExitCodeNil => NilExitCodeReason
    case ExitCodeIgnored(code) => IgnoredPrefix + Decimal.IntToString(code) + IgnoredSuffix
    case ResetPeriodNotElapsed => ResetPeriodReason
  }

  /** Recovers the blocking check from a reason string; `None` for the empty
      reason of an approved restart and for any string no check produces. */
  function ParseReason(s: string): (r: Option<Blocker>)
    ensures s == "" ==> r.None?
  {
    if s == NotEnabledReason then Some(PolicyNotEnabled)
    else if s == StoppedReason then Some(DesiredStatusStopped)
    else if s == NilExitCodeReason then Some(ExitCodeNil)
    else if s == ResetPeriodReason then Some(ResetPeriodNotElapsed)
    else if |s| >= |IgnoredPrefix| + |IgnoredSuffix|
         && s[..|IgnoredPrefix|] == IgnoredPrefix
         && s[|s| - |IgnoredSuffix|..] == IgnoredSuffix then
      match Decimal.ParseInt(s[|IgnoredPrefix|..|s| - |IgnoredSuffix|])
      case Some(code) => Some(ExitCodeIgnored(code))
      case None => None
    else None
  }

  /** Every reason string reads back as the check that produced it. */
  lemma ParseMessage(b: Blocker)
    ensures ParseReason(Message(b)) == Some(b)
  {
    if b.ExitCodeIgnored? {
      var digits := Decimal.IntToString(b.code);
      var s := Message(b);
      assert s == IgnoredPrefix + digits + IgnoredSuffix;
      assert s[0] == 'e';
      assert s[10] == digits[0];
      assert s[10] != 'i';
      assert s != NotEnabledReason && s != StoppedReason && s != ResetPeriodReason;
      assert s != NilExitCodeReason;
      assert s[..|IgnoredPrefix|] == IgnoredPrefix;
      assert s[|s| - |IgnoredSuffix|..] == IgnoredSuffix;
      assert s[|IgnoredPrefix|..|s| - |IgnoredSuffix|] == digits;
      Decimal.IntRoundTrip(b.code);
    }
  }

  /** Every string that reads back as a check is that check's reason string. */
  lemma ParseReasonSound(s: string)
    requires ParseReason(s).Some?
    ensures Message(ParseReason(s).value) == s
  {
    if ParseReason(s).value.ExitCodeIgnored? {
      var mid := s[|IgnoredPrefix|..|s| - |IgnoredSuffix|];
      Decimal.ParseIntRoundTrip(mid);
      assert s == s[..|IgnoredPrefix|] + mid + s[|s| - |IgnoredSuffix|..];
    }
  }

  /** Distinct checks give distinct reasons. */
  lemma MessageInjective(a: Blocker, b: Blocker)
    requires Message(a) == Message(b)
    ensures a == b
  {
    ParseMessage(a);
    ParseMessage(b);
  }

  /** Reference definition: every check of the chain passes.  Elapsed time
      equal to the reset period is enough. */
  predicate RestartPermitted(p: RestartPolicy, exitCode: Option<int>, elapsed: Nanos, desired: ContainerStatus) {
    && p.enabled
    && desired != Stopped
    && exitCode.Some?
    && exitCode.value !in p.ignoredExitCodes
    && elapsed >= p.attemptResetPeriod
  }

  /** The first failing check of the chain, in the Go implementation's order. */
  function FirstBlocker(p: RestartPolicy, exitCode: Option<int>, elapsed: Nanos, desired: ContainerStatus): (b: Option<Blocker>)
    ensures b.None? <==> RestartPermitted(p, exitCode, elapsed, desired)
    ensures b == Some(PolicyNotEnabled) <==> !p.enabled
    ensures b == Some(DesiredStatusStopped) <==> p.enabled && desired == Stopped
    ensures b == Some(ExitCodeNil) <==> p.enabled && desired != Stopped && exitCode.None?
    ensures b.Some? && b.value.ExitCodeIgnored? <==>
              p.enabled && desired != Stopped && exitCode.Some? && exitCode.value in p.ignoredExitCodes
    ensures b.Some? && b.value.ExitCodeIgnored? ==> exitCode == Some(b.value.code)
    ensures b == Some(ResetPeriodNotElapsed) <==>
              p.enabled && desired != Stopped && exitCode.Some? && exitCode.value !in p.ignoredExitCodes
              && elapsed < p.attemptResetPeriod
  {
    if !p.enabled then Some(PolicyNotEnabled)
    else if desired == Stopped then Some(DesiredStatusStopped)
    else if exitCode.None? then Some(ExitCodeNil)
    else if exitCode.value in p.ignoredExitCodes then Some(ExitCodeIgnored(exitCode.value))
    else if elapsed < p.attemptResetPeriod then Some(ResetPeriodNotElapsed)
    else None
  }

  /** Whether the container should be restarted, and if not, why not.
      `now - startedAt` is `time.Since(startedAt)`. */
  function ShouldRestart(t: RestartTracker, exitCode: Option<int>, startedAt: Nanos, now: Nanos,
                         desired: ContainerStatus): (d: Decision)
    ensures d.shouldRestart <==> RestartPermitted(t.restartPolicy, exitCode, now - startedAt, desired)
    ensures d.reason == "" <==> d.shouldRestart
    ensures ParseReason(d.reason) == FirstBlocker(t.restartPolicy, exitCode, now - startedAt, desired)
    ensures !t.restartPolicy.enabled ==> d == Decision(false, "restart policy is not enabled")
    ensures t.restartPolicy.enabled && desired == Stopped ==>
              d == Decision(false, "container's desired status is stopped")
    ensures t.restartPolicy.enabled && desired != Stopped && exitCode.None? ==>
              d == Decision(false, "exit code is nil")
    ensures t.restartPolicy.enabled && desired != Stopped && exitCode.Some?
            && exitCode.value in t.restartPolicy.ignoredExitCodes ==>
              d == Decision(false, "exit code " + Decimal.IntToString(exitCode.value) + " should be ignored")
    ensures t.restartPolicy.enabled && desired != Stopped && exitCode.Some?
            && exitCode.value !in t.restartPolicy.ignoredExitCodes ==>
              d == if now - startedAt < t.restartPolicy.attemptResetPeriod
                   then Decision(false, "attempt reset period has not elapsed")
                   else Decision(true, "")
  {
    match FirstBlocker(t.restartPolicy, exitCode, now - startedAt, desired)
    case None => Decision(true, "")
    case Some(b) => ParseMessage(b); Decision(false, Message(b))
  }

  /** `NewRestartTracker`: a fresh tracker with a zero count. */
  function NewRestartTracker(p: RestartPolicy): (t: RestartTracker)
    ensures t.restartCount == 0
    ensures t.restartPolicy == p
  {
    RestartTracker(0, p)
  }

  function GetRestartCount(t: RestartTracker): nat {
    t.restartCount
  }

  /** `RecordRestart`: one more restart has happened. */
  function RecordRestart(t: RestartTracker): (t': RestartTracker)
    ensures GetRestartCount(t') == GetRestartCount(t) + 1
    ensures t'.restartPolicy == t.restartPolicy
  {
    t.(restartCount := t.restartCount + 1)
  }

  /** The policy update the tracker's owner performs by assigning the field. */
  function WithRestartPolicy(t: RestartTracker, p: RestartPolicy): (t': RestartTracker)
    ensures t'.restartPolicy == p
    ensures GetRestartCount(t') == GetRestartCount(t)
  {
    t.(restartPolicy := p)
  }

  /** `n` successive calls of `RecordRestart`. */
  function RecordRestarts(t: RestartTracker, n: nat): (t': RestartTracker)
    ensures GetRestartCount(t') == GetRestartCount(t) + n
    ensures t'.restartPolicy == t.restartPolicy
    decreases n
  {
    if n == 0 then t else RecordRestart(RecordRestarts(t, n - 1))
  }

  /** After `n` recorded restarts a fresh tracker reports `n`. */
  lemma CountFromFresh(p: RestartPolicy, n: nat)
    ensures GetRestartCount(RecordRestarts(NewRestartTracker(p), n)) == n
    ensures RecordRestarts(NewRestartTracker(p), n).restartPolicy == p
  {
  }

  /** The count never goes down: recording more restarts never reports fewer. */
  lemma CountMonotonic(t: RestartTracker, m: nat, n: nat)
    requires m <= n
    ensures GetRestartCount(RecordRestarts(t, m)) <= GetRestartCount(RecordRestarts(t, n))
  {
  }

  /** The count is for reporting only: recording a restart never changes a
      later decision. */
  lemma RecordRestartKeepsDecisions(t: RestartTracker, exitCode: Option<int>, startedAt: Nanos, now: Nanos,
                                    desired: ContainerStatus)
    ensures ShouldRestart(RecordRestart(t), exitCode, startedAt, now, desired)
         == ShouldRestart(t, exitCode, startedAt, now, desired)
  {
  }

  /** Only membership in the ignored list matters, not its order or repeats. */
  lemma OnlyMembershipMatters(t: RestartTracker, u: RestartTracker, exitCode: Option<int>, startedAt: Nanos,
                              now: Nanos, desired: ContainerStatus)
    requires t.restartPolicy.enabled == u.restartPolicy.enabled
    requires t.restartPolicy.attemptResetPeriod == u.restartPolicy.attemptResetPeriod
    requires forall c :: c in t.restartPolicy.ignoredExitCodes <==> c in u.restartPolicy.ignoredExitCodes
    ensures ShouldRestart(t, exitCode, startedAt, now, desired) == ShouldRestart(u, exitCode, startedAt, now, desired)
  {
  }

  /** Raising the elapsed time never withdraws an approved restart. */
  lemma LaterNeverBlocks(t: RestartTracker, exitCode: Option<int>, startedAt: Nanos, now: Nanos, later: Nanos,
                         desired: ContainerStatus)
    requires now <= later
    requires ShouldRestart(t, exitCode, startedAt, now, desired).shouldRestart
    ensures ShouldRestart(t, exitCode, startedAt, later, desired) == Decision(true, "")
  {
  }

  /** The range loop over the ignored exit codes, which stops at the first
      match.  It finds the code exactly when the code is a member of the list,
      which is why `FirstBlocker` can test membership with `in`. */
  method ScanIgnoredExitCodes(ignored: seq<int>, code: int) returns (found: bool)
    ensures found <==> code in ignored
  {
    var i := 0;
    while i < |ignored|
      invariant i <= |ignored|
      invariant forall j :: 0 <= j < i ==> ignored[j] != code
    {
      if ignored[i] == code {
        return true;
      }
      i := i + 1;
    }
    return false;
  }
}
