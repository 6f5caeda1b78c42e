/**
  Scheduler, dispatcher and workers interleaving over one repository.
  Each step below is one call under the repository's lock, or a step of one thread between two
  such calls; a run of the runtime is any sequence of steps.
 */
module Runtime {
  import opened Options
  import opened Models
  import opened RunStore
  import opened RunLaws
  import opened Executions

  /** `Counted` has passed the back-pressure check, `Gated` also the dependency gate. */
  datatype DispatcherPc = Free | Counted(intent: JobIntent) | Gated(intent: JobIntent)

  /** The run a worker thread works on is the record it received when it claimed. */
  datatype WorkerPc =
    | Idle
    | Executing(run: JobRun)
    | Returned(run: JobRun, rows: nat)
    | Calling(run: JobRun, rows: nat)

  datatype Config = Config(
    tasks: map<string, TaskSpec>,
    starts: map<string, int>,        // configured first day, by job
    labels: map<nat, string>,        // worker threads and their names
    maxQueued: int)

  datatype System = System(
    repo: RepoState,
    pending: set<JobIntent>,         // every intent handed to the dispatcher so far; any may be (re)submitted
    dispatcher: DispatcherPc,
    workers: map<nat, WorkerPc>,
    claims: map<nat, nat>,           // history: how often a run was claimed
    normal: set<nat>)                // history: runs whose executor returned normally

  datatype Step =
    | Tick(job: string, lastClosed: Option<int>, version: Option<string>)
    | Request(intent: JobIntent)
    | CountQueue(intent: JobIntent)
    | CheckParents
    | Create(now: int)
    | ClaimRun(worker: nat, id: nat, now: int)
    | ExecutorReturns(worker: nat, rows: nat)
    | ExecutorFails(worker: nat, error: string, now: int)
    | RecordSuccess(worker: nat, now: int)
    | OnSuccess(worker: nat, today: int)
    | OnSuccessRaises(worker: nat)
    | InterruptOne(id: nat, reason: string, now: int)
    | StopPool(prefix: string, now: int)

  // ---------------------------------------------------------------- windows and watermarks

  /** The window provider: from the day after the watermark, or the configured start, to the last closed day. */
  function DueWindow(cfg: Config, repo: RepoState, spec: TaskSpec, lastClosed: Option<int>): Option<(int, int)> {
    if lastClosed.None? then None
    else
      var mark := MarkOf(repo, spec.dataset, spec.scope);
      if mark.None? && spec.jobId !in cfg.starts then None
      else
        var start := if mark.Some? then mark.value + 1 else cfg.starts[spec.jobId];
        if start > lastClosed.value then None else Some((start, lastClosed.value))
  }

  function IntentFor(spec: TaskSpec, window: (int, int), version: Option<string>): JobIntent {
    JobIntent(spec.kind, spec.jobId, spec.dataset, spec.scope, Some(window.0), Some(window.1),
              if spec.hasVersionProvider then version else None, spec.priority, spec.maxAttempts)
  }

  /** A run ending today without data leaves today to the next round. */
  function MarkTarget(windowEnd: int, rows: nat, today: int): int {
    if windowEnd >= today && rows == 0 then windowEnd - 1 else windowEnd
  }

  /** What the success callback asks of the repository. */
  function MarkCall(cfg: Config, run: JobRun, rows: nat, today: int): Option<Call> {
    if run.jobId in cfg.tasks && cfg.tasks[run.jobId].marksWatermark && run.windowEnd.Some? then
      var spec := cfg.tasks[run.jobId];
      Some(AdvanceCall(spec.dataset, spec.scope, MarkTarget(run.windowEnd.value, rows, today)))
    else None
  }

  /** An executor can only return when the job is registered and a bar sync has its own window and scope. */
  predicate MayReturn(cfg: Config, run: JobRun) {
    && run.jobId in cfg.tasks
    && (cfg.tasks[run.jobId].marksWatermark ==>
          && run.windowStart.Some? && run.windowEnd.Some?
          && (run.scope == "" || run.scope == cfg.tasks[run.jobId].scope))
  }

  // ---------------------------------------------------------------- the step relation

  ghost predicate Start(cfg: Config, s: System) {
    && s.repo.runs == map[] && s.repo.nextRunId == 1
    && s.pending == {} && s.dispatcher.Free?
    && s.workers.Keys == cfg.labels.Keys && (forall w :: w in s.workers ==> s.workers[w].Idle?)
    && s.claims == map[] && s.normal == {}
  }

  predicate AtWork(s: System, w: nat, step: Step) {
    && w in s.workers
    && match step
       case ClaimRun(_, _, _) => s.workers[w].Idle?
       case ExecutorReturns(_, _) => s.workers[w].Executing?
       case ExecutorFails(_, _, _) => s.workers[w].Executing?
       case RecordSuccess(_, _) => s.workers[w].Returned?
       case OnSuccess(_, _) => s.workers[w].Calling?
       case OnSuccessRaises(_) => s.workers[w].Calling?
       case _ => false
  }

  /** When a thread is at the step. */
  predicate Poised(cfg: Config, s: System, step: Step) {
    match step
    case Tick(job, _, _) => job in cfg.tasks
    case CountQueue(intent) => s.dispatcher.Free? && intent in s.pending
    case CheckParents => s.dispatcher.Counted?
    case Create(_) => s.dispatcher.Gated?
    case ClaimRun(w, id, _) => AtWork(s, w, step) && w in cfg.labels && id in s.claims
    case ExecutorReturns(w, _) => AtWork(s, w, step) && MayReturn(cfg, s.workers[w].run)
    case ExecutorFails(w, _, _) => AtWork(s, w, step)
    case RecordSuccess(w, _) => AtWork(s, w, step)
    case OnSuccess(w, _) => AtWork(s, w, step)
    case OnSuccessRaises(w) => AtWork(s, w, step)
    case _ => true
  }

  /** The repository call the step makes, if it changes the repository. */
  function CallOf(cfg: Config, s: System, step: Step): Option<Call>
    requires Poised(cfg, s, step)
  {
    match step
    case Create(now) => Some(CreateCall(s.dispatcher.intent, None, now))
    case ClaimRun(w, id, now) => Some(ClaimCall(id, cfg.labels[w], now))
    case ExecutorFails(w, error, now) => Some(FailCall(s.workers[w].run.runId, error, now))
    case RecordSuccess(w, now) => Some(SucceedCall(s.workers[w].run.runId, s.workers[w].rows, now))
    case OnSuccess(w, today) => MarkCall(cfg, s.workers[w].run, s.workers[w].rows, today)
    case InterruptOne(id, reason, now) => Some(InterruptCall(id, reason, now))
    case StopPool(prefix, now) => Some(InterruptRunningCall(prefix, now))
    case _ => None
  }

  ghost predicate Enabled(cfg: Config, s: System, step: Step) {
    Poised(cfg, s, step) && (CallOf(cfg, s, step).Some? ==> Allowed(s.repo, CallOf(cfg, s, step).value))
  }

  ghost function RepoAfter(cfg: Config, s: System, step: Step): RepoState
    requires Enabled(cfg, s, step)
  {
    var call := CallOf(cfg, s, step);
    if call.None? then s.repo else After(s.repo, call.value)
  }

  function PendingAfter(cfg: Config, s: System, step: Step): set<JobIntent>
    requires Poised(cfg, s, step)
  {
    match step
    case Request(intent) => s.pending + {intent}
    case Tick(job, lastClosed, version) =>
      var window := DueWindow(cfg, s.repo, cfg.tasks[job], lastClosed);
      if window.None? then s.pending
      else s.pending + {IntentFor(cfg.tasks[job], window.value, version)}
    case _ => s.pending
  }

  ghost function DispatcherAfter(cfg: Config, s: System, step: Step): DispatcherPc
    requires Poised(cfg, s, step)
  {
    match step
    case CountQueue(intent) => if |QueuedIds(s.repo)| >= cfg.maxQueued then Free else Counted(intent)
    case CheckParents =>
      var i := s.dispatcher.intent;
      if ParentsReady(s.repo, i.jobId, i.scope, i.windowStart, i.windowEnd) then Gated(i) else Free
    case Create(_) => Free
    case _ => s.dispatcher
  }

  ghost function WorkersAfter(cfg: Config, s: System, step: Step): map<nat, WorkerPc>
    requires Enabled(cfg, s, step)
  {
    match step
    case ClaimRun(w, id, _) => s.workers[w := Executing(RepoAfter(cfg, s, step).runs[id])]
    case ExecutorReturns(w, rows) => s.workers[w := Returned(s.workers[w].run, rows)]
    case ExecutorFails(w, _, _) => s.workers[w := Idle]
    case RecordSuccess(w, _) => s.workers[w := Calling(s.workers[w].run, s.workers[w].rows)]
    case OnSuccess(w, _) => s.workers[w := Idle]
    case OnSuccessRaises(w) => s.workers[w := Idle]
    case _ => s.workers
  }

  ghost function ClaimsAfter(cfg: Config, s: System, step: Step): map<nat, nat>
    requires Enabled(cfg, s, step)
  {
    match step
    case Create(now) =>
      if CreateRun(s.repo, s.dispatcher.intent, None, now).1.Created? then s.claims[s.repo.nextRunId := 0] else s.claims
    case ClaimRun(_, id, _) => s.claims[id := s.claims[id] + 1]
    case _ => s.claims
  }

  function NormalAfter(cfg: Config, s: System, step: Step): set<nat>
    requires Poised(cfg, s, step)
  {
    if step.ExecutorReturns? then s.normal + {s.workers[step.worker].run.runId} else s.normal
  }

  ghost predicate Next(cfg: Config, s: System, step: Step, s': System) {
    && Enabled(cfg, s, step)
    && s'.repo == RepoAfter(cfg, s, step)
    && s'.pending == PendingAfter(cfg, s, step)
    && s'.dispatcher == DispatcherAfter(cfg, s, step)
    && s'.workers == WorkersAfter(cfg, s, step)
    && s'.claims == ClaimsAfter(cfg, s, step)
    && s'.normal == NormalAfter(cfg, s, step)
  }

  ghost predicate IsRun(cfg: Config, states: seq<System>, steps: seq<Step>) {
    && Follows((s, step, s') => Next(cfg, s, step, s'), states, steps)
    && Start(cfg, states[0])
  }

  // ---------------------------------------------------------------- every step evolves the table

  lemma StepEvolves(cfg: Config, s: System, step: Step, s': System)
    requires TableInv(s.repo) && Next(cfg, s, step, s')
    ensures TableInv(s'.repo) && Evolves(s.repo, s'.repo)
  {
    var call := CallOf(cfg, s, step);
    if call.Some? {
      EveryCallKeepsTable(s.repo, call.value);
      EveryCallEvolves(s.repo, call.value);
    }
  }

  // ---------------------------------------------------------------- who executes what

  predicate Holds(pc: WorkerPc) { pc.Executing? || pc.Returned? }

  ghost predicate HeldBySome(workers: map<nat, WorkerPc>, id: nat) {
    exists w :: w in workers && Holds(workers[w]) && workers[w].run.runId == id
  }

  predicate WorksOn(pc: WorkerPc, runs: map<nat, JobRun>)
    requires !pc.Idle?
  {
    && pc.run.runId in runs && SameJob(pc.run, runs[pc.run.runId])
    && (Holds(pc) ==> runs[pc.run.runId].status.Running? || runs[pc.run.runId].status.Interrupted?)
  }

  /** Each running run has a thread; what a thread executes is its own and is running or was interrupted. */
  ghost predicate Held(workers: map<nat, WorkerPc>, runs: map<nat, JobRun>) {
    && (forall id :: id in runs && runs[id].status.Running? ==> HeldBySome(workers, id))
    && (forall w :: w in workers && !workers[w].Idle? ==> WorksOn(workers[w], runs))
    && (forall w, x | w in workers && x in workers && Holds(workers[w]) && Holds(workers[x]) ::
          workers[w].run.runId == workers[x].run.runId ==> w == x)
  }

  /** Runs appear, none of them running, and running ones may be interrupted. */
  ghost predicate Quiet(runs: map<nat, JobRun>, runs': map<nat, JobRun>) {
    && (forall id :: id in runs ==>
          id in runs' && SameJob(runs[id], runs'[id])
          && (runs'[id].status == runs[id].status || (runs[id].status.Running? && runs'[id].status.Interrupted?)))
    && (forall id :: id in runs' && id !in runs ==> !runs'[id].status.Running?)
  }

  lemma QuietInterrupt(st: RepoState, id: nat, reason: string, now: int)
    requires WellFormed(st) && id in st.runs
    ensures Quiet(st.runs, Interrupt(st, id, reason, now).runs)
  {
  }

  lemma QuietReclaim(st: RepoState, prefix: string, now: int)
    requires WellFormed(st)
    ensures Quiet(st.runs, InterruptRunning(st, prefix, now).runs)
  {
    var st' := InterruptRunning(st, prefix, now);
    forall id | id in st.runs
      ensures id in st'.runs && SameJob(st.runs[id], st'.runs[id])
      ensures st'.runs[id].status == st.runs[id].status || (st.runs[id].status.Running? && st'.runs[id].status.Interrupted?)
    {
    }
  }

  lemma QuietCreate(st: RepoState, intent: JobIntent, requestId: Option<string>, now: int)
    requires WellFormed(st)
    ensures Quiet(st.runs, CreateRun(st, intent, requestId, now).0.runs)
  {
  }

  lemma QuietCall(st: RepoState, call: Call)
    requires WellFormed(st)
    requires call.CreateCall? || call.InterruptCall? || call.InterruptRunningCall? || call.AdvanceCall?
    requires Allowed(st, call)
    ensures Quiet(st.runs, After(st, call).runs)
  {
    if call.CreateCall? {
      QuietCreate(st, call.intent, call.requestId, call.now);
    } else if call.InterruptCall? {
      QuietInterrupt(st, call.id, call.reason, call.now);
    } else if call.InterruptRunningCall? {
      QuietReclaim(st, call.prefix, call.now);
    }
  }

  lemma QuietKeepsHeld(workers: map<nat, WorkerPc>, runs: map<nat, JobRun>,
                       workers': map<nat, WorkerPc>, runs': map<nat, JobRun>)
    requires Held(workers, runs) && Quiet(runs, runs') && workers'.Keys == workers.Keys
    requires forall w :: w in workers ==> Holds(workers'[w]) == Holds(workers[w])
    requires forall w :: w in workers && !workers'[w].Idle? ==> !workers[w].Idle? && workers'[w].run == workers[w].run
    ensures Held(workers', runs')
  {
    forall id | id in runs' && runs'[id].status.Running?
      ensures HeldBySome(workers', id)
    {
      assert HeldBySome(workers, id);
      var w :| w in workers && Holds(workers[w]) && workers[w].run.runId == id;
      assert Holds(workers'[w]) && workers'[w].run.runId == id;
    }
  }

  lemma FinishKeepsWork(workers: map<nat, WorkerPc>, runs: map<nat, JobRun>, w: nat, pc: WorkerPc, run: JobRun, x: nat)
    requires Held(workers, runs) && w in workers && Holds(workers[w])
    requires pc.Idle? || (pc.Calling? && pc.run == workers[w].run)
    requires var id := workers[w].run.runId; SameJob(runs[id], run) && !run.status.Running?
    requires x in workers && !workers[w := pc][x].Idle?
    ensures WorksOn(workers[w := pc][x], runs[workers[w].run.runId := run])
  {
    assert WorksOn(workers[x], runs);
    if x != w && Holds(workers[x]) {
      assert workers[x].run.runId != workers[w].run.runId;
    }
  }

  lemma FinishKeepsHeld(workers: map<nat, WorkerPc>, runs: map<nat, JobRun>, w: nat, pc: WorkerPc, run: JobRun)
    requires Held(workers, runs) && w in workers && Holds(workers[w])
    requires pc.Idle? || (pc.Calling? && pc.run == workers[w].run)
    requires var id := workers[w].run.runId; SameJob(runs[id], run) && !run.status.Running?
    ensures Held(workers[w := pc], runs[workers[w].run.runId := run])
  {
    var id := workers[w].run.runId;
    forall r | r in runs && r != id && runs[r].status.Running?
      ensures HeldBySome(workers[w := pc], r)
    {
      assert HeldBySome(workers, r);
      var x :| x in workers && Holds(workers[x]) && workers[x].run.runId == r;
      assert workers[w := pc][x] == workers[x];
    }
    forall x | x in workers && !workers[w := pc][x].Idle?
      ensures WorksOn(workers[w := pc][x], runs[workers[w].run.runId := run])
    {
      FinishKeepsWork(workers, runs, w, pc, run, x);
    }
  }

  lemma ClaimKeepsHeld(workers: map<nat, WorkerPc>, runs: map<nat, JobRun>, w: nat, id: nat, run: JobRun)
    requires Held(workers, runs) && w in workers && workers[w].Idle? && id in runs && Claimable(runs[id].status)
    requires SameJob(runs[id], run) && run.runId == id && run.status.Running?
    ensures Held(workers[w := Executing(run)], runs[id := run])
  {
    var workers', runs' := workers[w := Executing(run)], runs[id := run];
    forall r | r in runs' && runs'[r].status.Running?
      ensures HeldBySome(workers', r)
    {
      if r == id {
        assert Holds(workers'[w]) && workers'[w].run.runId == r;
      } else {
        assert HeldBySome(workers, r);
        var x :| x in workers && Holds(workers[x]) && workers[x].run.runId == r;
        assert workers'[x] == workers[x];
      }
    }
  }

  /** The result of a holder's last call, whether or not the run was interrupted meanwhile. */
  lemma HolderCall(st: RepoState, id: nat, call: Call)
    requires WellFormed(st) && id in st.runs && (call.FailCall? || call.SucceedCall?) && call.id == id
    requires st.runs[id].status.Running? || st.runs[id].status.Interrupted?
    ensures var st' := After(st, call);
            && id in st'.runs && SameJob(st.runs[id], st'.runs[id]) && !st'.runs[id].status.Running?
            && st'.runs == st.runs[id := st'.runs[id]]
  {
  }

  lemma HeldAfterClaim(cfg: Config, s: System, step: Step, s': System)
    requires TableInv(s.repo) && Held(s.workers, s.repo.runs) && Next(cfg, s, step, s') && step.ClaimRun?
    ensures Held(s'.workers, s'.repo.runs)
  {
    ClaimKeepsHeld(s.workers, s.repo.runs, step.worker, step.id, s'.repo.runs[step.id]);
  }

  lemma HeldAfterFinish(cfg: Config, s: System, step: Step, s': System)
    requires TableInv(s.repo) && Held(s.workers, s.repo.runs) && Next(cfg, s, step, s')
    requires step.ExecutorFails? || step.RecordSuccess?
    ensures Held(s'.workers, s'.repo.runs)
  {
    var w := step.worker;
    var id := s.workers[w].run.runId;
    assert WorksOn(s.workers[w], s.repo.runs);
    HolderCall(s.repo, id, CallOf(cfg, s, step).value);
    FinishKeepsHeld(s.workers, s.repo.runs, w, s'.workers[w], s'.repo.runs[id]);
  }

  /** Neither a claim nor the report that ends an execution. */
  predicate Quieter(step: Step) {
    !step.ClaimRun? && !step.ExecutorFails? && !step.RecordSuccess?
  }

  lemma QuietRuns(cfg: Config, s: System, step: Step, s': System)
    requires TableInv(s.repo) && Next(cfg, s, step, s') && Quieter(step)
    ensures Quiet(s.repo.runs, s'.repo.runs)
  {
    var call := CallOf(cfg, s, step);
    if call.Some? {
      QuietCall(s.repo, call.value);
    }
  }

  lemma QuietWorkers(cfg: Config, s: System, step: Step, s': System)
    requires Next(cfg, s, step, s') && Quieter(step)
    ensures s'.workers.Keys == s.workers.Keys
    ensures forall w :: w in s.workers ==> Holds(s'.workers[w]) == Holds(s.workers[w])
    ensures forall w :: w in s.workers && !s'.workers[w].Idle? ==>
              !s.workers[w].Idle? && s'.workers[w].run == s.workers[w].run
  {
  }

  lemma HeldAfterStep(cfg: Config, s: System, step: Step, s': System)
    requires TableInv(s.repo) && Held(s.workers, s.repo.runs) && Next(cfg, s, step, s')
    ensures Held(s'.workers, s'.repo.runs)
  {
    if step.ClaimRun? {
      HeldAfterClaim(cfg, s, step, s');
    } else if step.ExecutorFails? || step.RecordSuccess? {
      HeldAfterFinish(cfg, s, step, s');
    } else {
      QuietRuns(cfg, s, step, s');
      QuietWorkers(cfg, s, step, s');
      QuietKeepsHeld(s.workers, s.repo.runs, s'.workers, s'.repo.runs);
    }
  }

  // ---------------------------------------------------------------- how often a run is claimed

  /** The claim counter is the attempt number, less one while the run waits to be claimed. */
  ghost predicate ClaimsCounted(claims: map<nat, nat>, runs: map<nat, JobRun>) {
    && claims.Keys == runs.Keys
    && (forall id :: id in runs ==> claims[id] == runs[id].attempt - (if Claimable(runs[id].status) then 1 else 0))
  }

  lemma CallKeepsCount(claims: map<nat, nat>, st: RepoState, call: Call)
    requires TableInv(st) && Allowed(st, call) && ClaimsCounted(claims, st.runs)
    requires !call.CreateCall? && !call.ClaimCall?
    ensures ClaimsCounted(claims, After(st, call).runs)
  {
    EveryCallEvolves(st, call);
    OnlyClaimStarts(st, call);
    CountKept(claims, st, After(st, call));
  }

  lemma CountKept(claims: map<nat, nat>, st: RepoState, st': RepoState)
    requires ClaimsCounted(claims, st.runs) && Evolves(st, st') && st'.runs.Keys == st.runs.Keys
    requires forall id :: id in st'.runs && st'.runs[id].status.Running? ==> st'.runs[id] == st.runs[id]
    ensures ClaimsCounted(claims, st'.runs)
  {
    forall id | id in st.runs
      ensures claims[id] == st'.runs[id].attempt - (if Claimable(st'.runs[id].status) then 1 else 0)
    {
      assert Moves(st.runs[id], st'.runs[id]);
    }
  }

  lemma CreationIsCounted(claims: map<nat, nat>, st: RepoState, intent: JobIntent, now: int)
    requires WellFormed(st) && ClaimsCounted(claims, st.runs)
    ensures var (st', result) := CreateRun(st, intent, None, now);
            ClaimsCounted(if result.Created? then claims[st.nextRunId := 0] else claims, st'.runs)
  {
  }

  lemma ClaimsAfterCreate(cfg: Config, s: System, step: Step, s': System)
    requires TableInv(s.repo) && ClaimsCounted(s.claims, s.repo.runs) && Next(cfg, s, step, s') && step.Create?
    ensures ClaimsCounted(s'.claims, s'.repo.runs)
  {
    CreationIsCounted(s.claims, s.repo, s.dispatcher.intent, step.now);
  }

  lemma ClaimsAfterClaim(cfg: Config, s: System, step: Step, s': System)
    requires TableInv(s.repo) && ClaimsCounted(s.claims, s.repo.runs) && Next(cfg, s, step, s') && step.ClaimRun?
    ensures ClaimsCounted(s'.claims, s'.repo.runs)
  {
  }

  lemma ClaimsAfterStep(cfg: Config, s: System, step: Step, s': System)
    requires TableInv(s.repo) && ClaimsCounted(s.claims, s.repo.runs) && Next(cfg, s, step, s')
    ensures ClaimsCounted(s'.claims, s'.repo.runs)
  {
    if step.Create? {
      ClaimsAfterCreate(cfg, s, step, s');
    } else if step.ClaimRun? {
      ClaimsAfterClaim(cfg, s, step, s');
    } else if CallOf(cfg, s, step).Some? {
      CallKeepsCount(s.claims, s.repo, CallOf(cfg, s, step).value);
    }
  }
}
