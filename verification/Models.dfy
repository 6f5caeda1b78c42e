/**
  Domain model of the job runtime: task definitions, intents, runs and their states.
  Dates and instants are integers; an instant's day is what a window or a watermark holds.
 */
module Models {
  import opened Options

  datatype JobKind = Sync | Backfill | Import | Derive | BuildRm | Quality | CacheInvalidate | Export

  datatype JobStatus = Queued | Running | Succeeded | Failed | Retrying | Dead | Interrupted | Cancelled

  datatype Condition = OnSuccess | OnComplete | Always

  datatype JobDependency = JobDependency(parent: string, child: string, condition: Condition)

  datatype TaskSpec = TaskSpec(
    jobId: string, kind: JobKind, dataset: string, schedule: Option<string>, priority: int, maxAttempts: int, scope: string,
    dependencies: seq<string>, condition: Condition, hasVersionProvider: bool, marksWatermark: bool)

  /** What the metadata tables show of a task. */
  datatype JobDef = JobDef(
    jobId: string, kind: JobKind, dataset: string, schedule: Option<string>, priority: int, maxAttempts: int)

  datatype JobIntent = JobIntent(
    kind: JobKind, jobId: string, dataset: string, scope: string,
    windowStart: Option<int>, windowEnd: Option<int>, version: Option<string>,
    priority: int, maxAttempts: int)

  /** The idempotency key, taken as an injective tuple of what the source hashes. */
  datatype JobKey = JobKey(
    kind: JobKind, jobId: string, scope: string,
    windowStart: Option<int>, windowEnd: Option<int>, version: Option<string>)

  datatype JobRun = JobRun(
    runId: nat, key: JobKey, jobId: string, kind: JobKind, dataset: string, scope: string,
    status: JobStatus, attempt: nat, maxAttempts: int, priority: int, scheduledAt: int,
    windowStart: Option<int>, windowEnd: Option<int>, version: Option<string>,
    startedAt: Option<int>, finishedAt: Option<int>, rowsWritten: Option<nat>,
    error: Option<string>, requestId: Option<string>, worker: Option<string>)

  /** Statuses a worker may claim. */
  predicate Claimable(status: JobStatus) { status.Queued? || status.Retrying? }

  /** Statuses that never change again as far as the dependency gate is concerned. */
  predicate Terminal(status: JobStatus) { status.Succeeded? || status.Dead? || status.Cancelled? }

  /** Statuses that make creation of another run with the same key a duplicate. */
  predicate Blocking(status: JobStatus) { Claimable(status) || status.Running? || status.Succeeded? }

  /** Only these kinds carry a version in their key. */
  predicate Versioned(kind: JobKind) { kind.Derive? || kind.BuildRm? }

  /** An empty version counts as no version, as in a Python truth test. */
  predicate HasVersion(version: Option<string>) { version.Some? && version.value != "" }

  /** The key is refused exactly when the kind and the version disagree. */
  predicate KeyAccepted(intent: JobIntent) { Versioned(intent.kind) <==> HasVersion(intent.version) }

  function KeyOf(intent: JobIntent): JobKey {
    JobKey(intent.kind, intent.jobId, intent.scope, intent.windowStart, intent.windowEnd, intent.version)
  }
}
