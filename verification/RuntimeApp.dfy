/**
  The roles as objects over one repository, each method here taken without interference:
  start-up, one scheduling round, one submission, one execution, and the loop that drains the queue.
 */
module RuntimeApp {
  import opened Options
  import opened Models
  import opened RunStore
  import opened RunLaws
  import opened MetaRepository
  import opened TaskGraph
  import opened CallLaws
  import R = Runtime
  import S = StepLaws
  import L = RuntimeLaws

  /** Mirrors the registry into the repository, or refuses to start and leaves it alone. */
  method SyncMetadata(registry: TaskRegistry, sortedNames: seq<string>, repo: InMemoryMetaRepository)
    returns (errors: seq<ValidationError>)
    requires registry.Valid()
    requires forall name :: name in sortedNames <==> name in registry.tasks
    modifies repo
    ensures errors == [] <==>
              (forall name :: name in registry.tasks ==> WellDeclared(registry.tasks, registry.tasks[name]))
              && Acyclic(registry.tasks)
    ensures errors == [] ==> L.Mirrors(registry.tasks, repo.deps)
    ensures repo.State() == (if errors == [] then old(repo.State()).(deps := repo.deps) else old(repo.State()))
    ensures errors == [] ==> forall job :: job in registry.tasks ==>
              job in repo.defs && repo.defs[job] == DefOf(registry.tasks[job])
    ensures errors == [] ==> forall job :: job !in registry.tasks ==>
              (job in repo.defs <==> job in old(repo.defs)) && (job in old(repo.defs) ==> repo.defs[job] == old(repo.defs)[job])
    ensures errors != [] ==> repo.defs == old(repo.defs)
  {
    errors := registry.Validate(sortedNames);
    if errors == [] {
      var defs := registry.Defs();
      RegisteredDefs(registry.tasks, registry.names, defs, repo.defs);
      repo.SyncDefs(defs);
      var deps := registry.Dependencies();
      repo.SyncDependencies(deps);
    }
  }

  lemma RegisteredDefs(tasks: Tasks, names: seq<string>, defs: seq<JobDef>, before: map<string, JobDef>)
    requires forall name :: name in names <==> name in tasks
    requires forall name :: name in tasks ==> tasks[name].jobId == name
    requires |defs| == |names| && forall i :: 0 <= i < |names| ==> names[i] in tasks && defs[i] == DefOf(tasks[names[i]])
    ensures forall job :: job in tasks ==>
              job in Mirrored(before, defs) && Mirrored(before, defs)[job] == DefOf(tasks[job])
    ensures forall job :: job !in tasks ==>
              (job in Mirrored(before, defs) <==> job in before) && (job in before ==> Mirrored(before, defs)[job] == before[job])
  {
    forall job: string
      ensures job in tasks ==> job in Mirrored(before, defs) && Mirrored(before, defs)[job] == DefOf(tasks[job])
      ensures job !in tasks ==>
                (job in Mirrored(before, defs) <==> job in before) && (job in before ==> Mirrored(before, defs)[job] == before[job])
    {
      MirroredIs(before, defs, job);
      if job in tasks {
        var i :| 0 <= i < |names| && names[i] == job;
        assert defs[i] in defs && defs[i].jobId == job;
      }
    }
  }

  /** After a start-up that was not refused the gate can never block every unfinished job. */
  lemma ValidatedStartCannotDeadlock(
    tasks: Tasks, st: RepoState, scope: string, windowStart: Option<int>, windowEnd: Option<int>)
    requires WellFormed(st) && Acyclic(tasks) && L.Mirrors(tasks, st.deps)
    requires forall job :: job in tasks && !L.HasSucceeded(st, job, scope, windowStart, windowEnd) ==>
               !ParentsReady(st, job, scope, windowStart, windowEnd)
    ensures forall job :: job in tasks ==> L.HasSucceeded(st, job, scope, windowStart, windowEnd)
  {
    if job :| job in tasks && !L.HasSucceeded(st, job, scope, windowStart, windowEnd) {
      var ready := L.NoDeadlock(tasks, st, scope, windowStart, windowEnd);
      assert false;
    }
  }

  /** One scheduling round: the selected jobs that have wanted days, in registration order, each over exactly those days. */
  method Tick(cfg: R.Config, names: seq<string>, only: Option<set<string>>, repo: InMemoryMetaRepository,
              lastClosed: Option<int>, versions: map<string, Option<string>>)
    returns (intents: seq<JobIntent>, ghost places: seq<nat>)
    requires forall name :: name in names ==> name in cfg.tasks && name in versions
    ensures |places| == |intents| && forall k, l :: 0 <= k < l < |places| ==> places[k] < places[l] < |names|
    ensures forall k :: 0 <= k < |intents| ==>
              && places[k] < |names| && (only.Some? ==> names[places[k]] in only.value)
              && S.Offers(cfg, repo.State(), cfg.tasks[names[places[k]]], lastClosed, versions[names[places[k]]], intents[k])
    ensures forall p, day | 0 <= p < |names| && (only.Some? ==> names[p] in only.value) ::
              S.Wanted(cfg, repo.State(), cfg.tasks[names[p]], lastClosed, day) ==> p in places
  {
    intents, places := [], [];
    for n := 0 to |names|
      invariant |places| == |intents| && (forall k :: 0 <= k < |places| ==> places[k] < n)
      invariant forall k, l :: 0 <= k < l < |places| ==> places[k] < places[l]
      invariant forall k :: 0 <= k < |intents| ==>
                  && (only.Some? ==> names[places[k]] in only.value)
                  && S.Offers(cfg, repo.State(), cfg.tasks[names[places[k]]], lastClosed, versions[names[places[k]]], intents[k])
      invariant forall p, day | 0 <= p < n && (only.Some? ==> names[p] in only.value) ::
                  S.Wanted(cfg, repo.State(), cfg.tasks[names[p]], lastClosed, day) ==> p in places
    {
      if only.Some? && names[n] !in only.value {
        continue;
      }
      var spec := cfg.tasks[names[n]];
      var window := R.DueWindow(cfg, repo.State(), spec, lastClosed);
      forall day
        ensures S.Wanted(cfg, repo.State(), spec, lastClosed, day) <==> window.Some? && window.value.0 <= day <= window.value.1
      {
        S.WantedIs(cfg, repo.State(), spec, lastClosed, day);
      }
      if window.Some? {
        S.ProviderOffers(cfg, repo.State(), spec, lastClosed, versions[names[n]], R.IntentFor(spec, window.value, versions[names[n]]));
        intents, places := intents + [R.IntentFor(spec, window.value, versions[names[n]])], places + [n];
      }
    }
  }

  datatype SubmitResult = SubmitCreated | SubmitDuplicate | SubmitDependency | SubmitBackpressure | SubmitBadKey

  class Dispatcher {
    const repo: InMemoryMetaRepository
    const maxQueued: int
    var created: nat
    var duplicate: nat
    var dependencyBlocked: nat
    var backpressureBlocked: nat

    constructor (repo: InMemoryMetaRepository, maxQueued: int)
      ensures this.repo == repo && this.maxQueued == maxQueued
      ensures created == 0 && duplicate == 0 && dependencyBlocked == 0 && backpressureBlocked == 0
    {
      this.repo, this.maxQueued := repo, maxQueued;
      created, duplicate, dependencyBlocked, backpressureBlocked := 0, 0, 0, 0;
    }

    /** Back-pressure first, then the gate, then idempotent creation; only creation changes the table. */
    method Submit(intent: JobIntent, now: int) returns (result: SubmitResult)
      requires WellFormed(repo.State())
      modifies this, repo
      ensures WellFormed(repo.State())
      ensures var st := old(repo.State());
              var full := |set id | id in st.runs && st.runs[id].status in {Queued, Retrying}| >= maxQueued;
              var ready := forall dep :: dep in st.deps && dep.child == intent.jobId ==>
                             ParentDone(st, dep, intent.scope, intent.windowStart, intent.windowEnd);
              && (result == SubmitBackpressure <==> full)
              && (result == SubmitDependency <==> !full && !ready)
              && (result == SubmitBadKey <==> !full && ready && !KeyFits(intent))
              && (result == SubmitDuplicate <==> !full && ready && KeyFits(intent) && LiveTwin(st, intent))
              && (result != SubmitCreated ==> repo.State() == st)
      ensures result == SubmitCreated ==>
                var st, id := old(repo.State()), old(repo.nextRunId);
                && id !in st.runs && id in repo.runs && FreshRun(repo.runs[id], id, intent, None, now)
                && repo.State() == st.(runs := st.runs[id := repo.runs[id]], nextRunId := id + 1)
      ensures created == old(created) + (if result == SubmitCreated then 1 else 0)
      ensures duplicate == old(duplicate) + (if result == SubmitDuplicate then 1 else 0)
      ensures dependencyBlocked == old(dependencyBlocked) + (if result == SubmitDependency then 1 else 0)
      ensures backpressureBlocked == old(backpressureBlocked) + (if result == SubmitBackpressure then 1 else 0)
    {
      QueueIs(repo.State());
      GateIs(repo.State(), intent.jobId, intent.scope, intent.windowStart, intent.windowEnd);
      CreationIs(repo.State(), intent, None, now);
      var queued := repo.CountQueued();
      if queued >= maxQueued {
        backpressureBlocked := backpressureBlocked + 1;
        return SubmitBackpressure;
      }
      var ready := repo.Ready(intent.jobId, intent.scope, intent.windowStart, intent.windowEnd);
      if !ready {
        dependencyBlocked := dependencyBlocked + 1;
        return SubmitDependency;
      }
      var outcome := repo.Create(intent, None, now);
      match outcome
      case BadKey => result := SubmitBadKey;
      case Duplicate =>
        duplicate := duplicate + 1;
        result := SubmitDuplicate;
      case Created(_) =>
        created := created + 1;
        result := SubmitCreated;
    }
  }

  /** How the outside world answers one execution: the executor, the callback and the clock. */
  datatype Answer = Answer(completed: bool, rows: nat, error: string, callbackRaises: bool, now: int, today: int)

  /** The executor is reached only for a registered job, and a bar sync needs its own window and scope. */
  predicate Completes(cfg: R.Config, run: JobRun, answer: Answer) {
    answer.completed && R.MayReturn(cfg, run)
  }

  /** The call that records the outcome of the claimed run. */
  function OutcomeCall(cfg: R.Config, run: JobRun, answer: Answer): Call {
    if Completes(cfg, run, answer) then SucceedCall(run.runId, answer.rows, answer.now)
    else if run.jobId !in cfg.tasks then FailCall(run.runId, "job not registered", answer.now)
    else FailCall(run.runId, answer.error, answer.now)
  }

  /** What the success callback leaves of the watermarks. */
  ghost function CalledBack(cfg: R.Config, done: RepoState, run: JobRun, answer: Answer): RepoState {
    var mark := R.MarkCall(cfg, run, answer.rows, answer.today);
    if Completes(cfg, run, answer) && !answer.callbackRaises && mark.Some? then After(done, mark.value) else done
  }

  /** The repository after the first candidate was claimed, executed and recorded. */
  ghost function ExecutedState(cfg: R.Config, st: RepoState, id: nat, worker: string, now: int, answer: Answer): RepoState
    requires WellFormed(st) && FirstCandidate(st, id, now)
  {
    var mid := Claim(st, id, worker, now);
    CalledBack(cfg, After(mid, OutcomeCall(cfg, mid.runs[id], answer)), mid.runs[id], answer)
  }

  /** What the report makes of a run: done if the executor completed, waiting for another attempt, or dead; only a running one changes. */
  predicate Settled(cfg: R.Config, run: JobRun, was: JobRun, settled: JobRun, answer: Answer) {
    var error := if run.jobId in cfg.tasks then answer.error else "job not registered";
    settled ==
      if was.status != Running then was
      else if answer.completed && S.Returnable(cfg, run) then
        was.(status := Succeeded, rowsWritten := Some(answer.rows), error := None, finishedAt := Some(answer.now))
      else if was.attempt < was.maxAttempts then
        was.(status := Retrying, attempt := was.attempt + 1, scheduledAt := answer.now + Backoff(was.attempt),
             rowsWritten := None, error := Some(error), finishedAt := None)
      else was.(status := Dead, rowsWritten := None, error := Some(error), finishedAt := Some(answer.now))
  }

  /** What is recorded of an execution: success exactly when the executor completed, else another attempt or the end. */
  lemma OutcomeIs(cfg: R.Config, st: RepoState, run: JobRun, answer: Answer)
    requires WellFormed(st) && run.runId in st.runs
    ensures Allowed(st, OutcomeCall(cfg, run, answer))
    ensures var st' := After(st, OutcomeCall(cfg, run, answer));
            && run.runId in st'.runs && Settled(cfg, run, st.runs[run.runId], st'.runs[run.runId], answer)
            && st' == st.(runs := st.runs[run.runId := st'.runs[run.runId]])
  {
    var error := if run.jobId in cfg.tasks then answer.error else "job not registered";
    SettlingIs(st, run.runId, answer.rows, error, answer.now);
    assert st.runs[run.runId := st.runs[run.runId]] == st.runs;
  }

  lemma CalledBackIs(cfg: R.Config, st: RepoState, done: RepoState, run: JobRun, answer: Answer)
    requires done.marks == st.marks
    ensures var st' := CalledBack(cfg, done, run, answer);
            st' == done.(marks := st'.marks)
    ensures forall dataset, scope, day ::
              Reached(CalledBack(cfg, done, run, answer), dataset, scope, day) <==>
                Reached(st, dataset, scope, day)
                || (answer.completed && S.Returnable(cfg, run) && !answer.callbackRaises
                    && S.MarksTrack(cfg, run, dataset, scope)
                    && S.DoneBy(run.windowEnd.value, answer.rows, answer.today, day))
  {
    forall dataset, scope, day
      ensures Reached(done, dataset, scope, day) <==> Reached(st, dataset, scope, day)
      ensures Reached(CalledBack(cfg, done, run, answer), dataset, scope, day) <==>
                Reached(st, dataset, scope, day)
                || (answer.completed && S.Returnable(cfg, run) && !answer.callbackRaises
                    && S.MarksTrack(cfg, run, dataset, scope)
                    && S.DoneBy(run.windowEnd.value, answer.rows, answer.today, day))
    {
      SameMarksReach(done, st, dataset, scope, day);
      S.MarkCallIs(cfg, done, run, answer.rows, answer.today, dataset, scope, day);
    }
  }

  lemma SameMarksReach(a: RepoState, b: RepoState, dataset: string, scope: string, day: int)
    requires a.marks == b.marks
    ensures Reached(a, dataset, scope, day) <==> Reached(b, dataset, scope, day)
  {
    ReachedIs(a, dataset, scope, day);
    ReachedIs(b, dataset, scope, day);
  }

  lemma CallbackKeepsRuns(cfg: R.Config, done: RepoState, run: JobRun, answer: Answer)
    requires TableInv(done)
    ensures var st' := CalledBack(cfg, done, run, answer);
            TableInv(st') && st'.runs == done.runs && st'.nextRunId == done.nextRunId
  {
  }

  lemma OutcomeKeepsTable(st: RepoState, id: nat, worker: string, now: int, call: Call)
    requires TableInv(st) && FirstCandidate(st, id, now)
    requires (call.SucceedCall? || call.FailCall?) && call.id == id
    ensures var mid := Claim(st, id, worker, now);
            Allowed(mid, call) && TableInv(After(mid, call)) && After(mid, call).runs.Keys == st.runs.Keys
  {
    var mid := Claim(st, id, worker, now);
    ClaimKeepsTable(st, id, worker, now);
    EveryCallKeepsTable(mid, call);
    LeavingCalls(mid, call);
  }

  lemma SameAttemptsLeft(a: RepoState, b: RepoState)
    requires a.runs == b.runs && a.nextRunId == b.nextRunId
    ensures AttemptsLeft(a) == AttemptsLeft(b)
  {
  }

  lemma ExecutionKeepsTable(cfg: R.Config, st: RepoState, id: nat, worker: string, now: int, answer: Answer)
    requires TableInv(st) && FirstCandidate(st, id, now)
    ensures var st' := ExecutedState(cfg, st, id, worker, now, answer);
            && TableInv(st') && st'.runs.Keys == st.runs.Keys
            && 0 <= AttemptsLeft(st') < AttemptsLeft(st)
  {
    var mid := Claim(st, id, worker, now);
    var call := OutcomeCall(cfg, mid.runs[id], answer);
    OutcomeKeepsTable(st, id, worker, now, call);
    ExecutionUsesAttempt(st, id, worker, now, call);
    CallbackKeepsRuns(cfg, After(mid, call), mid.runs[id], answer);
    SameAttemptsLeft(ExecutedState(cfg, st, id, worker, now, answer), After(mid, call));
  }

  function Started(run: JobRun, worker: string, now: int): JobRun {
    run.(status := Running, startedAt := Some(now), worker := Some(worker))
  }

  /** One execution takes the first due run, settles it, marks the days it has done and touches nothing else. */
  lemma ExecutionIs(cfg: R.Config, st: RepoState, id: nat, worker: string, now: int, answer: Answer)
    requires TableInv(st) && FirstCandidate(st, id, now)
    ensures Due(st, id, now)
    ensures forall other :: Due(st, other, now) ==>
              st.runs[id].priority < st.runs[other].priority
              || (st.runs[id].priority == st.runs[other].priority && id <= other)
    ensures var st' := ExecutedState(cfg, st, id, worker, now, answer);
            && id in st'.runs && Settled(cfg, st.runs[id], Started(st.runs[id], worker, now), st'.runs[id], answer)
            && st' == st.(runs := st.runs[id := st'.runs[id]], marks := st'.marks)
    ensures forall dataset, scope, day ::
              Reached(ExecutedState(cfg, st, id, worker, now, answer), dataset, scope, day) <==>
                Reached(st, dataset, scope, day)
                || (answer.completed && S.Returnable(cfg, st.runs[id]) && !answer.callbackRaises
                    && S.MarksTrack(cfg, st.runs[id], dataset, scope)
                    && S.DoneBy(st.runs[id].windowEnd.value, answer.rows, answer.today, day))
  {
    ClaimIs(st, id, worker, now);
    ClaimKeepsTable(st, id, worker, now);
    var mid := Claim(st, id, worker, now);
    OutcomeIs(cfg, mid, mid.runs[id], answer);
    CalledBackIs(cfg, st, After(mid, OutcomeCall(cfg, mid.runs[id], answer)), mid.runs[id], answer);
  }

  class WorkerPool {
    const repo: InMemoryMetaRepository
    const cfg: R.Config
    var executed: nat

    constructor (repo: InMemoryMetaRepository, cfg: R.Config)
      ensures this.repo == repo && this.cfg == cfg && executed == 0
    {
      this.repo, this.cfg, executed := repo, cfg, 0;
    }

    /** Executes a claimed run and records the outcome. */
    method Execute(run: JobRun, answer: Answer) returns (finished: JobRun)
      requires WellFormed(repo.State()) && run.runId in repo.runs
      modifies this, repo
      ensures repo.State() == CalledBack(cfg, After(old(repo.State()), OutcomeCall(cfg, run, answer)), run, answer)
      ensures run.runId in repo.runs && finished == repo.runs[run.runId]
      ensures Settled(cfg, run, old(repo.runs)[run.runId], finished, answer)
      ensures repo.State() == old(repo.State()).(runs := old(repo.runs)[run.runId := finished], marks := repo.marks)
      ensures forall dataset, scope, day ::
                Reached(repo.State(), dataset, scope, day) <==>
                  Reached(old(repo.State()), dataset, scope, day)
                  || (answer.completed && S.Returnable(cfg, run) && !answer.callbackRaises
                      && S.MarksTrack(cfg, run, dataset, scope)
                      && S.DoneBy(run.windowEnd.value, answer.rows, answer.today, day))
      ensures executed == old(executed) + (if run.jobId in cfg.tasks then 1 else 0)
    {
      ghost var was := repo.State();
      OutcomeIs(cfg, was, run, answer);
      CalledBackIs(cfg, was, After(was, OutcomeCall(cfg, run, answer)), run, answer);
      if run.jobId !in cfg.tasks {
        finished := repo.FailRun(run.runId, "job not registered", answer.now);
        return;
      }
      var spec := cfg.tasks[run.jobId];
      if answer.completed && R.MayReturn(cfg, run) {
        finished := repo.SucceedRun(run.runId, answer.rows, answer.now);
        if !answer.callbackRaises && spec.marksWatermark && run.windowEnd.Some? {
          var target := R.MarkTarget(run.windowEnd.value, answer.rows, answer.today);
          var _ := repo.AdvanceWatermark(spec.dataset, spec.scope, target);
        }
      } else {
        finished := repo.FailRun(run.runId, answer.error, answer.now);
      }
      executed := executed + 1;
    }

    /** Claims the first due run and executes it; idle when nothing is due. */
    method ExecuteOnce(worker: string, now: int, answer: Answer) returns (ran: Option<JobRun>)
      requires TableInv(repo.State())
      modifies this, repo
      ensures ran.None? ==> repo.State() == old(repo.State())
                            && forall id :: id in repo.runs ==> !Candidate(repo.State(), id, now)
      ensures ran.Some? ==>
                && FirstCandidate(old(repo.State()), ran.value.runId, now)
                && repo.State() == ExecutedState(cfg, old(repo.State()), ran.value.runId, worker, now, answer)
                && ran.value.runId in repo.runs && ran.value == repo.runs[ran.value.runId]
      ensures ran.Some? ==>
                var st, id := old(repo.State()), ran.value.runId;
                && Due(st, id, now) && Settled(cfg, st.runs[id], Started(st.runs[id], worker, now), ran.value, answer)
                && repo.State() == st.(runs := st.runs[id := ran.value], marks := repo.marks)
    {
      ghost var st := repo.State();
      var claimed := repo.ClaimNext(worker, now);
      if claimed.None? {
        return None;
      }
      var run := claimed.value;
      var finished := Execute(run, answer);
      ExecutionKeepsTable(cfg, st, run.runId, worker, now, answer);
      ExecutionIs(cfg, st, run.runId, worker, now, answer);
      ran := Some(finished);
    }

    /** Drains the queue; ends because every execution uses up an attempt, whatever the executors do. */
    method RunPending(worker: string, clock: int -> int, answers: int -> Answer) returns (count: nat)
      requires TableInv(repo.State())
      modifies this, repo
      ensures TableInv(repo.State())
      ensures forall id :: id in repo.runs ==> !Candidate(repo.State(), id, clock(count))
      ensures count + AttemptsLeft(repo.State()) <= AttemptsLeft(old(repo.State()))
      ensures repo.runs.Keys == old(repo.runs.Keys)
    {
      count := 0;
      ghost var ids := repo.runs.Keys;
      while true
        invariant TableInv(repo.State()) && repo.runs.Keys == ids
        invariant count + AttemptsLeft(repo.State()) <= AttemptsLeft(old(repo.State()))
        decreases AttemptsLeft(repo.State())
      {
        ghost var st := repo.State();
        var ran := ExecuteOnce(worker, clock(count), answers(count));
        if ran.None? {
          return;
        }
        ExecutionKeepsTable(cfg, st, ran.value.runId, worker, clock(count), answers(count));
        count := count + 1;
      }
    }
  }
}
