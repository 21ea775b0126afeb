/**
  The decision and counter scenarios of
  ecs-agent/api/container/restart/restart_tracker_test.go, stated for every
  clock reading.  Each case builds `startedAt` from a clock reading `t0` and the
  decision reads the clock again as `now`; the cases hold whenever less than a
  second passes between the two readings.  The test's exit code -1 means
  "leave the pointer nil" and appears here as `None`.
 */
module RestartScenarios {
  import opened Wrappers
  import opened Restart
  import Decimal

  const Second: Nanos := 1_000_000_000
  const Minute: Nanos := 60 * Second

  /** The tracker the test builds once, with its policy replaced per case. */
  function CaseTracker(p: RestartPolicy): (t: RestartTracker)
    ensures t.restartPolicy == p
    ensures GetRestartCount(t) == 0
  {
    WithRestartPolicy(NewRestartTracker(RestartPolicy(false, [0], Minute)), p)
  }

  predicate ClockAdvance(t0: Nanos, now: Nanos) {
    0 <= now - t0 < Second
  }

  lemma PolicyDisabledCase(t0: Nanos, now: Nanos)
    requires ClockAdvance(t0, now)
    ensures ShouldRestart(CaseTracker(RestartPolicy(false, [0], Minute)), Some(1), t0 + 2 * Minute, now, Running)
         == Decision(false, "restart policy is not enabled")
  {
  }

  lemma IgnoredExitCodeCase(t0: Nanos, now: Nanos)
    requires ClockAdvance(t0, now)
    ensures ShouldRestart(CaseTracker(RestartPolicy(true, [0], Minute)), Some(0), t0 + 2 * Minute, now, Running)
         == Decision(false, "exit code 0 should be ignored")
  {
    assert Decimal.IntToString(0) == "0";
    assert "exit code " + "0" + " should be ignored" == "exit code 0 should be ignored";
  }

  lemma NonIgnoredExitCodeCase(t0: Nanos, now: Nanos)
    requires ClockAdvance(t0, now)
    ensures ShouldRestart(CaseTracker(RestartPolicy(true, [0], Minute)), Some(1), t0 - 2 * Minute, now, Running)
         == Decision(true, "")
  {
  }

  lemma NilExitCodeCase(t0: Nanos, now: Nanos)
    requires ClockAdvance(t0, now)
    ensures ShouldRestart(CaseTracker(RestartPolicy(true, [0], Minute)), None, t0 + 2 * Minute, now, Running)
         == Decision(false, "exit code is nil")
  {
  }

  lemma DesiredStatusStoppedCase(t0: Nanos, now: Nanos)
    requires ClockAdvance(t0, now)
    ensures ShouldRestart(CaseTracker(RestartPolicy(true, [0], Minute)), Some(1), t0 + 2 * Minute, now, Stopped)
         == Decision(false, "container's desired status is stopped")
  {
  }

  lemma ResetPeriodNotElapsedCase(t0: Nanos, now: Nanos)
    requires ClockAdvance(t0, now)
    ensures ShouldRestart(CaseTracker(RestartPolicy(true, [0], Minute)), Some(1), t0, now, Running)
         == Decision(false, "attempt reset period has not elapsed")
  {
  }

  lemma ResetPeriodNotElapsedWithinOneSecondCase(t0: Nanos, now: Nanos)
    requires ClockAdvance(t0, now)
    ensures ShouldRestart(CaseTracker(RestartPolicy(true, [0], Minute)), Some(1), t0 - 59 * Second, now, Running)
         == Decision(false, "attempt reset period has not elapsed")
  {
  }

  /** Elapsed time exactly equal to the reset period permits the restart. */
  lemma ResetPeriodBoundaryCase(t0: Nanos)
    ensures ShouldRestart(CaseTracker(RestartPolicy(true, [0], Minute)), Some(1), t0 - Minute, t0, Running)
         == Decision(true, "")
    ensures ShouldRestart(CaseTracker(RestartPolicy(true, [0], Minute)), Some(1), t0 - Minute + 1, t0, Running)
         == Decision(false, "attempt reset period has not elapsed")
  {
  }

  /** The counter test: a fresh tracker reads 0, and after the i-th recorded
      restart it reads i, for i from 1 to 999. */
  method RecordRestartCase() returns (t: RestartTracker)
    ensures GetRestartCount(t) == 999
    ensures t.restartPolicy == RestartPolicy(false, [0], Minute)
  {
    t := NewRestartTracker(RestartPolicy(false, [0], Minute));
    assert GetRestartCount(t) == 0;
    var i := 1;
    while i < 1000
      invariant 1 <= i <= 1000
      invariant GetRestartCount(t) == i - 1
      invariant t.restartPolicy == RestartPolicy(false, [0], Minute)
    {
      t := RecordRestart(t);
      assert GetRestartCount(t) == i;
      i := i + 1;
    }
  }

  /** A tracker built with a policy that leaves the ignored codes out stores
      the empty list and a zero count. */
  lemma RecordRestartPolicyCase()
    ensures NewRestartTracker(RestartPolicy(false, [], Minute)).restartPolicy.ignoredExitCodes == []
    ensures GetRestartCount(NewRestartTracker(RestartPolicy(false, [], Minute))) == 0
  {
  }
}
