# Container restart tracker — Dafny model

This project models the per-container restart policy tracker of the Amazon ECS
agent (`ecs-agent/api/container/restart/restart_tracker.go`).

A `RestartTracker` holds a `RestartPolicy` and a restart counter. The policy has
three parts: an enable flag, a list of ignored exit codes, and an attempt-reset
period. `ShouldRestart` decides whether an exited container should be
restarted. It runs five checks in a fixed order, and the first check that fails
blocks the restart and supplies its reason string:

1. the policy is disabled;
2. the desired status is `Stopped`;
3. the exit code is nil;
4. the exit code is in the ignored list;
5. the time since the container started is less than the reset period.

When every check passes, the answer is `(true, "")`. `RecordRestart` adds one
to the counter, and `GetRestartCount` reads it.

Modules:

- `Wrappers` (`wrappers.dfy`): `Option`, which stands in for Go's nil-able `*int` exit code.
- `Decimal` (`decimal.dfy`): Go's `%d` rendering of a signed integer, and a parser for it. The two are proved inverse in both directions.
- `Restart` (`restart_tracker.dfy`): the policy, the tracker, the decision and the counter.
  - The reason strings are rendered from a `Blocker` datatype, which names the check that failed.
  - `ParseReason` recovers the blocker from a reason string.
  - `RestartPermitted` is a reference definition of "every check passes". The decision is proved equal to it.
- `RestartScenarios` (`restart_scenarios.dfy`): the test file's scenarios, stated for every clock reading.

Inputs that come from outside the component:

- Wall-clock time. `time.Since(startedAt)` becomes `now - startedAt`, where `now` and `startedAt` are integer nanoseconds passed as parameters. `time.Duration` is already a nanosecond count.
- The desired status. It belongs to a package that is not part of this model. It is the datatype `ContainerStatus`, and the only variant that matters is `Stopped`.

Trackers are immutable values. The Go code mutates a tracker through a pointer. Here, `RecordRestart` and a policy assignment each return the updated tracker. `ShouldRestart` and `GetRestartCount` are pure functions, so they cannot change a tracker.

## Model

| member | source | states |
|---|---|---|
| Restart.ShouldRestart | ecs-agent/api/container/restart/restart_tracker.go:54-77 | the restart is approved exactly when the reference condition `RestartPermitted` holds: policy enabled, status not Stopped, exit code present and not ignored, and elapsed time at least the reset period. The reason is empty exactly when the restart is approved. The reason reads back as the first failing check. Each check, in order, yields its exact reason string whatever the later inputs are; elapsed time equal to the period approves |
| Restart.FirstBlocker | ecs-agent/api/container/restart/restart_tracker.go:58-76 | each check is reported exactly when every earlier check passes and it fails; no check is reported exactly when `RestartPermitted` holds; an ignored-code report carries the container's exit code |
| Restart.Message | ecs-agent/api/container/restart/restart_tracker.go:59-73 | every check's reason string is non-empty, so an empty reason always means an approved restart; the exact strings are stated by `ShouldRestart` and read back by `ParseReason` |
| Restart.ParseMessage | ecs-agent/api/container/restart/restart_tracker.go:59-73 | every reason string, including `exit code %d should be ignored` for any integer code, reads back as the check that produced it |
| Restart.ParseReasonSound | ecs-agent/api/container/restart/restart_tracker.go:59-73 | every string that reads back as a check is exactly that check's reason string |
| Restart.MessageInjective | ecs-agent/api/container/restart/restart_tracker.go:59-73 | two checks (or two ignored codes) never share a reason string |
| Restart.OnlyMembershipMatters | ecs-agent/api/container/restart/restart_tracker.go:67-71 | two policies whose ignored lists have the same members give the same decision, whatever the order or repeats |
| Restart.ScanIgnoredExitCodes | ecs-agent/api/container/restart/restart_tracker.go:67-71 | the range loop, which stops at the first match, finds the code exactly when it is a member of the list; this justifies the membership test in `FirstBlocker` |
| Restart.LaterNeverBlocks | ecs-agent/api/container/restart/restart_tracker.go:72-76 | if a restart is approved at one clock reading, it is still approved, with an empty reason, at every later reading |
| Restart.NewRestartTracker | ecs-agent/api/container/restart/restart_tracker.go:36-40 | a new tracker stores the given policy and has count 0 |
| Restart.RecordRestart | ecs-agent/api/container/restart/restart_tracker.go:42-52 | the count read by `GetRestartCount` goes up by exactly one; the policy is unchanged |
| Restart.RecordRestartKeepsDecisions | ecs-agent/api/container/restart/restart_tracker.go:31-77 | the code as written never reads the count in `ShouldRestart`, so recording a restart never changes any later decision |
| Restart.RecordRestarts | ecs-agent/api/container/restart/restart_tracker.go:50-52 | after `n` calls of `RecordRestart`, the count has risen by exactly `n` and the policy is unchanged |
| Restart.CountFromFresh | ecs-agent/api/container/restart/restart_tracker.go:36-52 | a fresh tracker reports `n` after `n` recorded restarts and still holds its original policy |
| Restart.CountMonotonic | ecs-agent/api/container/restart/restart_tracker.go:50-52 | recording more restarts never reports a smaller count |
| Restart.WithRestartPolicy | ecs-agent/api/container/restart/restart_tracker_test.go:106 | replacing the policy installs the new policy and keeps the count |
| Decimal.IntToString | ecs-agent/api/container/restart/restart_tracker.go:69 | `%d` of a signed integer: a canonical decimal string (no leading zeros, no "-0") that starts with '-' exactly when the integer is negative |
| Decimal.IntRoundTrip | ecs-agent/api/container/restart/restart_tracker.go:69 | the `%d` rendering of every integer, negative ones included, parses back to that integer |
| Decimal.ParseIntRoundTrip | ecs-agent/api/container/restart/restart_tracker.go:69 | every string that parses as an integer is the `%d` rendering of what it parses to |
| Decimal.IntToStringInjective | ecs-agent/api/container/restart/restart_tracker.go:69 | distinct exit codes render to distinct decimal strings |
| RestartScenarios.CaseTracker | ecs-agent/api/container/restart/restart_tracker_test.go:29 | the test's shared tracker, with its policy replaced per case, holds that policy and has count 0 |
| RestartScenarios.PolicyDisabledCase | ecs-agent/api/container/restart/restart_tracker_test.go:39-47 | with a disabled policy, the decision is `(false, "restart policy is not enabled")` |
| RestartScenarios.IgnoredExitCodeCase | ecs-agent/api/container/restart/restart_tracker_test.go:48-56 | with exit code 0 ignored, the decision is `(false, "exit code 0 should be ignored")` even though the start time is in the future |
| RestartScenarios.NonIgnoredExitCodeCase | ecs-agent/api/container/restart/restart_tracker_test.go:57-65 | with exit code 1 and a start two minutes ago, the decision is `(true, "")` |
| RestartScenarios.NilExitCodeCase | ecs-agent/api/container/restart/restart_tracker_test.go:66-74 | with no exit code, the decision is `(false, "exit code is nil")` |
| RestartScenarios.DesiredStatusStoppedCase | ecs-agent/api/container/restart/restart_tracker_test.go:75-83 | with desired status Stopped, the decision is `(false, "container's desired status is stopped")` |
| RestartScenarios.ResetPeriodNotElapsedCase | ecs-agent/api/container/restart/restart_tracker_test.go:84-92 | with a container started just now, the decision is `(false, "attempt reset period has not elapsed")` |
| RestartScenarios.ResetPeriodNotElapsedWithinOneSecondCase | ecs-agent/api/container/restart/restart_tracker_test.go:93-101 | with a start 59 seconds ago and a one-minute period, the restart is still blocked |
| RestartScenarios.ResetPeriodBoundaryCase | ecs-agent/api/container/restart/restart_tracker.go:72 | elapsed time exactly equal to the period approves the restart; one nanosecond less blocks it |
| RestartScenarios.RecordRestartCase | ecs-agent/api/container/restart/restart_tracker_test.go:123-130 | a fresh tracker reads 0, reads `i` after the i-th recorded restart, and ends at 999 with its policy unchanged |
| RestartScenarios.RecordRestartPolicyCase | ecs-agent/api/container/restart/restart_tracker_test.go:132-134 | a tracker built from a policy with no ignored codes stores the empty list and has count 0 |

## Left out

- Reading the wall clock. `time.Now` and `time.Since` are replaced by the `now` parameter, so every property holds for every clock reading.
- Go's saturating `Time.Sub` on overflow, and the monotonic-clock reading inside `time.Time`. Times and durations are mathematical integers of nanoseconds.
- Go's 64-bit `int`. The restart count and exit codes are unbounded integers, so the count does not wrap after 2^63 restarts.
- The JSON struct tags of `RestartPolicy` and `RestartTracker` (restart_tracker.go:26-32). They carry no logic, and the encoding library is not part of this model.
- The container status package. `ContainerStatus` only keeps `Stopped` distinct from the other statuses.
- Concurrency. The tracker has no locking, and no property depends on it.
- The assertion at restart_tracker_test.go:135, which compares a struct-valued policy with `nil`. A struct value is never `nil`, so the assertion says nothing about the code.
- Sharing of the ignored-codes slice. `NewRestartTracker` (restart_tracker.go:36-40) and the policy assignment (restart_tracker_test.go:106) copy the policy struct but not the backing array of `IgnoredExitCodes`. So a caller that later writes into its own slice changes the tracker's later decisions. The model treats the list as an immutable value, so the stored policy changes only through `WithRestartPolicy`.
- Restart.Message: its own contract only states that every reason is non-empty. The exact reason strings are stated in the ensures of `ShouldRestart`, and `ParseMessage` and `ParseReasonSound` state that `Message` and `ParseReason` are inverses.
- The doc comment of `RecordRestart` (restart_tracker.go:46-49) says the count is used to decide when restarts should occur, and that the method receives a start time. The code does neither: `RecordRestart` takes no argument, and `ShouldRestart` never reads the count. The model follows the code.
- GetRestartCount: it has no contract of its own. It only reads the count. The contracts of `RecordRestart`, `RecordRestarts` and `CountFromFresh` state what it reports.
- The scenario lemmas assume that less than one second passes between the test building a case and the decision reading the clock. The test relies on this too.
