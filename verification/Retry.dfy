/** The retry policy, `RetryHandler` and `TaskExecutor`: one attempt at a task and what is decided after it. */
module Retry {
  import opened Wrappers
  import opened Jobs
  import opened Workflow

  function Pow(base: real, exponent: nat): real {
    if exponent == 0 then 1.0 else Pow(base, exponent - 1) * base
  }

  function ComputeBackoffDelay(policy: RetryPolicy, attempt: int): int {
    if attempt <= 0 then policy.initialDelayMs
    else
      var raw := (policy.initialDelayMs as real * Pow(policy.backoffMultiplier, attempt - 1)).Floor;
      if raw <= policy.maxDelayMs then raw else policy.maxDelayMs
  }

  predicate ShouldRetry(policy: RetryPolicy, attempt: int) {
    attempt < policy.maxAttempts
  }

  /** `RetryHandler.decide`; `None` means no retry. */
  function Decide(policy: RetryPolicy, attempt: nat): Option<int> {
    var nextAttempt := attempt + 1;
    if ShouldRetry(policy, nextAttempt) then Some(ComputeBackoffDelay(policy, nextAttempt)) else None
  }

  /** What the input schema guarantees about a policy. */
  predicate SanePolicy(policy: RetryPolicy) {
    && policy.maxAttempts >= 1
    && policy.initialDelayMs >= 0
    && policy.backoffMultiplier >= 1.0
    && policy.maxDelayMs >= 0
  }

  /** The most attempts a task can get: the handler compares an attempt that was already counted,
      so one attempt less than `maxAttempts`, but never none. */
  function Cap(policy: RetryPolicy): nat {
    if policy.maxAttempts >= 2 then policy.maxAttempts - 1 else 1
  }

  lemma {:induction false} PowGrows(base: real, e: nat, f: nat)
    requires base >= 1.0 && e <= f
    ensures 1.0 <= Pow(base, e) <= Pow(base, f)
    decreases f
  {
    if e < f {
      PowGrows(base, e, f - 1);
      Scale(Pow(base, f - 1), 1.0, base);
    } else if e > 0 {
      PowGrows(base, e - 1, f - 1);
      Scale(Pow(base, e - 1), 1.0, base);
    }
  }

  lemma Scale(x: real, a: real, b: real)
    requires x >= 0.0 && a <= b
    ensures x * a <= x * b
  {
  }

  lemma FloorGrows(x: real, y: real)
    requires x <= y
    ensures x.Floor <= y.Floor
  {
  }

  lemma Associate(x: real, y: real, z: real)
    ensures x * (y * z) == x * y * z
  {
  }

  lemma NextRaw(initial: real, m: real, a: nat)
    requires a > 0
    ensures initial * Pow(m, a) == initial * Pow(m, a - 1) * m
  {
    Associate(initial, Pow(m, a - 1), m);
  }

  /** The initial delay, multiplied `a` times. */
  ghost function RawDelay(policy: RetryPolicy, a: nat): real {
    if a == 0 then policy.initialDelayMs as real else RawDelay(policy, a - 1) * policy.backoffMultiplier
  }

  lemma {:induction false} RawDelayIs(policy: RetryPolicy, a: nat)
    ensures RawDelay(policy, a) == policy.initialDelayMs as real * Pow(policy.backoffMultiplier, a)
  {
    if a > 0 {
      RawDelayIs(policy, a - 1);
      NextRaw(policy.initialDelayMs as real, policy.backoffMultiplier, a);
    }
  }

  /** The delay for attempt number `a + 1`: rounded down, and cut off at the ceiling. */
  lemma {:induction false} BackoffIs(policy: RetryPolicy, a: nat)
    ensures ComputeBackoffDelay(policy, a + 1) ==
            if RawDelay(policy, a).Floor <= policy.maxDelayMs then RawDelay(policy, a).Floor else policy.maxDelayMs
  {
    RawDelayIs(policy, a);
  }

  /** Later retries never wait less, and never more than the ceiling. */
  lemma BackoffGrows(policy: RetryPolicy, a: int, b: int)
    requires SanePolicy(policy) && 1 <= a <= b
    ensures 0 <= ComputeBackoffDelay(policy, a) <= ComputeBackoffDelay(policy, b) <= policy.maxDelayMs
  {
    PowGrows(policy.backoffMultiplier, a - 1, b - 1);
    var initial := policy.initialDelayMs as real;
    var pa, pb := Pow(policy.backoffMultiplier, a - 1), Pow(policy.backoffMultiplier, b - 1);
    Scale(initial, 0.0, pa);
    Scale(initial, pa, pb);
    FloorGrows(0.0, initial * pa);
    FloorGrows(initial * pa, initial * pb);
  }

  /** What a handler call does: return success, return failure, or throw. */
  datatype Outcome = Returned(output: Payload) | Declined(message: string) | Threw(message: string)

  datatype ExecuteResult = ExecuteResult(task: TaskRun, retryAfterMs: Option<int>)

  function HandleFailure(task: TaskRun, policy: RetryPolicy, message: string): ExecuteResult {
    var failed := task.(status := Faulted, errorMessage := Some(message));
    var decision := Decide(policy, failed.attempt);
    if decision.Some? then ExecuteResult(failed.(status := Retrying), decision)
    else ExecuteResult(failed, None)
  }

  /** `TaskExecutor.run`: one attempt, given what the handler does. */
  function RunTask(taskRun: TaskRun, policy: RetryPolicy, outcome: Outcome): ExecuteResult {
    var running := taskRun.(status := Executing, attempt := taskRun.attempt + 1);
    match outcome
    case Returned(output) => ExecuteResult(running.(status := Succeeded, output := Some(output)), None)
    case Declined(message) => HandleFailure(running, policy, message)
    case Threw(message) => HandleFailure(running, policy, message)
  }

  /** What an attempt leaves of a task run: one attempt more, and the output of a handler that returned or the message
      of one that did not. A failing attempt below the cap leaves the task in state `between`. */
  ghost predicate Recorded(
      before: TaskRun, policy: RetryPolicy, outcome: Outcome, between: TaskStatus, after: TaskRun)
  {
    && after.id == before.id && after.definitionTaskId == before.definitionTaskId && after.handler == before.handler
    && after.attempt == before.attempt + 1
    && match outcome
       case Returned(output) =>
         after.status == Succeeded && after.output == Some(output) && after.errorMessage == before.errorMessage
       case _ =>
         && after.status == (if after.attempt < Cap(policy) then between else Faulted)
         && after.output == before.output && after.errorMessage == Some(outcome.message)
  }

  lemma RunTaskRecords(taskRun: TaskRun, policy: RetryPolicy, outcome: Outcome)
    ensures Recorded(taskRun, policy, outcome, Retrying, RunTask(taskRun, policy, outcome).task)
  {
  }

  /** A failing attempt is retried exactly while the attempts used stay below the cap. */
  lemma RetriedBelowCap(taskRun: TaskRun, policy: RetryPolicy, outcome: Outcome)
    requires policy.maxAttempts >= 1 && !outcome.Returned?
    ensures var r := RunTask(taskRun, policy, outcome);
            && (r.task.status == Retrying <==> taskRun.attempt + 1 < Cap(policy))
            && (r.task.status == Faulted <==> taskRun.attempt + 1 >= Cap(policy))
            && (r.retryAfterMs.Some? <==> r.task.status == Retrying)
            && (r.retryAfterMs.Some? ==> r.retryAfterMs == Some(ComputeBackoffDelay(policy, taskRun.attempt + 2)))
  {
  }
}
