/**
  The job-run table as a value: what each repository call does to it, and what every call keeps.
 */
module RunStore {
  import opened Options
  import opened Models

  datatype RepoState = RepoState(
    runs: map<nat, JobRun>,
    deps: seq<JobDependency>,
    marks: map<(string, string), Option<int>>,
    nextRunId: nat)

  datatype CreateResult = Created(run: JobRun) | Duplicate | BadKey

  const RETRY_BACKOFF_SECONDS := 5

  ghost predicate WellFormed(st: RepoState) {
    && st.nextRunId >= 1
    && (forall id: nat :: id in st.runs <==> 1 <= id < st.nextRunId)
    && (forall id :: id in st.runs ==> st.runs[id].runId == id)
    && (forall id :: id in st.runs ==>
          st.runs[id].key == JobKey(st.runs[id].kind, st.runs[id].jobId, st.runs[id].scope,
                                    st.runs[id].windowStart, st.runs[id].windowEnd, st.runs[id].version))
  }

  // ---------------------------------------------------------------- creation

  predicate KeyTaken(st: RepoState, key: JobKey) {
    exists id :: id in st.runs && st.runs[id].key == key && Blocking(st.runs[id].status)
  }

  function NewRun(id: nat, intent: JobIntent, requestId: Option<string>, now: int): JobRun {
    JobRun(id, KeyOf(intent), intent.jobId, intent.kind, intent.dataset, intent.scope,
           Queued, 1, intent.maxAttempts, intent.priority, now,
           intent.windowStart, intent.windowEnd, intent.version,
           None, None, None, None, requestId, None)
  }

  function CreateRun(st: RepoState, intent: JobIntent, requestId: Option<string>, now: int): (RepoState, CreateResult) {
    if !KeyAccepted(intent) then
      (st, BadKey)
    else if KeyTaken(st, KeyOf(intent)) then
      (st, Duplicate)
    else
      var run := NewRun(st.nextRunId, intent, requestId, now);
      (st.(runs := st.runs[st.nextRunId := run], nextRunId := st.nextRunId + 1), Created(run))
  }

  // ---------------------------------------------------------------- claiming

  predicate ScopeBusy(st: RepoState, dataset: string, scope: string) {
    exists id :: id in st.runs && st.runs[id].status.Running?
                 && st.runs[id].dataset == dataset && st.runs[id].scope == scope
  }

  predicate Candidate(st: RepoState, id: nat, now: int) {
    && id in st.runs
    && Claimable(st.runs[id].status)
    && st.runs[id].scheduledAt <= now
    && !ScopeBusy(st, st.runs[id].dataset, st.runs[id].scope)
  }

  /** The claim order: smaller priority number first, then the older run. */
  predicate Before(a: JobRun, b: JobRun) {
    a.priority < b.priority || (a.priority == b.priority && a.runId <= b.runId)
  }

  predicate FirstCandidate(st: RepoState, id: nat, now: int) {
    && Candidate(st, id, now)
    && forall other :: other in st.runs && Candidate(st, other, now) ==> Before(st.runs[id], st.runs[other])
  }

  function Claim(st: RepoState, id: nat, worker: string, now: int): RepoState
    requires id in st.runs
  {
    var run := st.runs[id].(status := Running, startedAt := Some(now), worker := Some(worker));
    st.(runs := st.runs[id := run])
  }

  // ---------------------------------------------------------------- finishing

  function Pow2(n: nat): (p: nat)
    ensures p >= 1
  {
    if n == 0 then 1 else 2 * Pow2(n - 1)
  }

  function Finished(run: JobRun, status: JobStatus, rows: Option<nat>, error: Option<string>,
                    attempt: Option<nat>, scheduledAt: Option<int>, now: int): JobRun {
    run.(status := status, rowsWritten := rows, error := error,
         attempt := if attempt.Some? then attempt.value else run.attempt,
         scheduledAt := if scheduledAt.Some? then scheduledAt.value else run.scheduledAt,
         finishedAt := if status.Retrying? then None else Some(now))
  }

  /** Leaves a run that is not running as it is. */
  function Finish(st: RepoState, id: nat, status: JobStatus, rows: Option<nat>, error: Option<string>,
                  attempt: Option<nat>, scheduledAt: Option<int>, now: int): RepoState
    requires id in st.runs
  {
    if !st.runs[id].status.Running? then st
    else st.(runs := st.runs[id := Finished(st.runs[id], status, rows, error, attempt, scheduledAt, now)])
  }

  function Succeed(st: RepoState, id: nat, rows: nat, now: int): RepoState
    requires id in st.runs
  {
    Finish(st, id, Succeeded, Some(rows), None, None, None, now)
  }

  function Backoff(attempt: nat): nat {
    RETRY_BACKOFF_SECONDS * Pow2(if attempt == 0 then 0 else attempt - 1)
  }

  function Fail(st: RepoState, id: nat, error: string, now: int): RepoState
    requires id in st.runs
  {
    var run := st.runs[id];
    if run.attempt < run.maxAttempts then
      Finish(st, id, Retrying, None, Some(error), Some(run.attempt + 1), Some(now + Backoff(run.attempt)), now)
    else
      Finish(st, id, Dead, None, Some(error), None, None, now)
  }

  function Interrupt(st: RepoState, id: nat, reason: string, now: int): RepoState
    requires id in st.runs
  {
    Finish(st, id, Interrupted, None, Some(reason), None, None, now)
  }

  const STOP_TIMEOUT := "stop timeout"

  predicate StuckUnder(run: JobRun, prefix: string) {
    run.status.Running? && prefix <= (if run.worker.Some? then run.worker.value else "")
  }

  function Reclaimed(run: JobRun, prefix: string, now: int): JobRun {
    if StuckUnder(run, prefix) then Finished(run, Interrupted, None, Some(STOP_TIMEOUT), None, None, now) else run
  }

  function InterruptRunning(st: RepoState, prefix: string, now: int): RepoState {
    st.(runs := map id | id in st.runs :: Reclaimed(st.runs[id], prefix, now))
  }

  // ---------------------------------------------------------------- queries

  function QueuedIds(st: RepoState): set<nat> {
    set id | id in st.runs && Claimable(st.runs[id].status)
  }

  function RunningIds(st: RepoState): set<nat> {
    set id | id in st.runs && st.runs[id].status.Running?
  }

  predicate Matches(run: JobRun, job: string, scope: string, windowStart: Option<int>, windowEnd: Option<int>) {
    run.jobId == job && run.scope == scope && run.windowStart == windowStart && run.windowEnd == windowEnd
  }

  predicate Meets(status: JobStatus, condition: Condition) {
    match condition
    case Always => true
    case OnComplete => Terminal(status)
    case OnSuccess => status.Succeeded?
  }

  /** Some run of the parent, for the same scope and window and with an id below `bound`, meets the condition. */
  predicate GateMet(st: RepoState, dep: JobDependency, scope: string,
                    windowStart: Option<int>, windowEnd: Option<int>, bound: nat) {
    exists id :: id in st.runs && id < bound
                 && Matches(st.runs[id], dep.parent, scope, windowStart, windowEnd)
                 && Meets(st.runs[id].status, dep.condition)
  }

  predicate ParentsReady(st: RepoState, child: string, scope: string, windowStart: Option<int>, windowEnd: Option<int>) {
    forall dep :: dep in st.deps && dep.child == child ==>
                    GateMet(st, dep, scope, windowStart, windowEnd, st.nextRunId)
  }

  function MarkOf(st: RepoState, dataset: string, scope: string): Option<int> {
    if (dataset, scope) in st.marks then st.marks[(dataset, scope)] else None
  }

  /** The watermark never moves back. */
  function Advance(st: RepoState, dataset: string, scope: string, time: int): RepoState {
    var current := MarkOf(st, dataset, scope);
    if current.Some? && current.value >= time then st
    else st.(marks := st.marks[(dataset, scope) := Some(time)])
  }
}
