/** Retry policies: the layering of request, workflow and default values, and the retry decision. */
module RetryPolicies {
  import opened Basics

  datatype RetryPolicy = RetryPolicy(
    maximumAttempts: int,
    initialIntervalMs: int,
    backoffCoefficient: real,
    maximumIntervalMs: int,
    nonRetryableErrors: seq<string>)

  const DEFAULT_POLICY := RetryPolicy(5, 1000, 2.0, 60000, [])

  /** An error reported for a step. */
  datatype StepError = StepError(message: string, nonRetryable: bool, retryAfterMs: Option<nat>)

  predicate ShouldRetry(p: RetryPolicy, attempt: int) {
    p.maximumAttempts < 0 || attempt < p.maximumAttempts
  }

  /** Some listed error is a prefix of the message. */
  predicate IsNonRetryable(p: RetryPolicy, message: string) {
    exists i :: 0 <= i < |p.nonRetryableErrors| && p.nonRetryableErrors[i] <= message
  }

  /** The effect of `merge_proto_policy`: a request field overrides the fallback when it is set,
      that is, non-zero or non-empty. */
  function Merge(proto: Option<RetryPolicy>, fallback: Option<RetryPolicy>): Option<RetryPolicy> {
    match proto
    case None => fallback
    case Some(p) =>
      var base := fallback.GetOr(DEFAULT_POLICY);
      Some(RetryPolicy(
             if p.maximumAttempts != 0 then p.maximumAttempts else base.maximumAttempts,
             if p.initialIntervalMs != 0 then p.initialIntervalMs else base.initialIntervalMs,
             if p.backoffCoefficient != 0.0 then p.backoffCoefficient else base.backoffCoefficient,
             if p.maximumIntervalMs != 0 then p.maximumIntervalMs else base.maximumIntervalMs,
             if p.nonRetryableErrors != [] then p.nonRetryableErrors else base.nonRetryableErrors))
  }

  method MergeProtoPolicy(proto: Option<RetryPolicy>, fallback: Option<RetryPolicy>)
    returns (merged: Option<RetryPolicy>)
    ensures merged == Merge(proto, fallback)
    ensures merged.None? <==> proto.None? && fallback.None?
  {
    if proto.None? {
      return fallback;
    }
    var p := proto.value;
    var policy := fallback.GetOr(DEFAULT_POLICY);
    if p.maximumAttempts != 0 {
      policy := policy.(maximumAttempts := p.maximumAttempts);
    }
    if p.initialIntervalMs != 0 {
      policy := policy.(initialIntervalMs := p.initialIntervalMs);
    }
    if p.backoffCoefficient != 0.0 {
      policy := policy.(backoffCoefficient := p.backoffCoefficient);
    }
    if p.maximumIntervalMs != 0 {
      policy := policy.(maximumIntervalMs := p.maximumIntervalMs);
    }
    if p.nonRetryableErrors != [] {
      policy := policy.(nonRetryableErrors := p.nonRetryableErrors);
    }
    return Some(policy);
  }

  /** The policy stored with a run when it is started. */
  function StoredWithRun(workflowRequest: Option<RetryPolicy>): Option<RetryPolicy> {
    Merge(workflowRequest, None)
  }

  /** The policy stored with a step attempt when it begins. */
  function StoredWithAttempt(stepRequest: Option<RetryPolicy>, run: Option<RetryPolicy>): Option<RetryPolicy> {
    Merge(stepRequest, run)
  }

  /** The policy consulted when an attempt fails: COALESCE over attempt and run, then the default. */
  function PolicyAtFailure(attempt: Option<RetryPolicy>, run: Option<RetryPolicy>): RetryPolicy {
    attempt.Or(run).GetOr(DEFAULT_POLICY)
  }

  /** The first non-zero value among the step request, the workflow request and the default. */
  function FirstSet(step: Option<RetryPolicy>, workflow: Option<RetryPolicy>, field: RetryPolicy -> int, default: int)
    : int
  {
    if step.Some? && field(step.value) != 0 then field(step.value)
    else if workflow.Some? && field(workflow.value) != 0 then field(workflow.value)
    else default
  }

  /** What one step request and one workflow request amount to after both merges, the two stored
      copies, COALESCE and the default: field by field, the first value that was set. */
  function EffectivePolicy(step: Option<RetryPolicy>, workflow: Option<RetryPolicy>): (p: RetryPolicy)
    ensures p.maximumAttempts == FirstSet(step, workflow, (q: RetryPolicy) => q.maximumAttempts, 5)
    ensures p.initialIntervalMs == FirstSet(step, workflow, (q: RetryPolicy) => q.initialIntervalMs, 1_000)
    ensures p.maximumIntervalMs == FirstSet(step, workflow, (q: RetryPolicy) => q.maximumIntervalMs, 60_000)
    ensures p.backoffCoefficient ==
            if step.Some? && step.value.backoffCoefficient != 0.0 then step.value.backoffCoefficient
            else if workflow.Some? && workflow.value.backoffCoefficient != 0.0 then workflow.value.backoffCoefficient
            else 2.0
    ensures p.nonRetryableErrors ==
            if step.Some? && step.value.nonRetryableErrors != [] then step.value.nonRetryableErrors
            else if workflow.Some? then workflow.value.nonRetryableErrors
            else []
    ensures p.maximumAttempts != 0
  {
    var run := StoredWithRun(workflow);
    PolicyAtFailure(StoredWithAttempt(step, run), run)
  }
}
