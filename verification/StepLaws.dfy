/**
  What each step of the runtime does, in terms of runs, edges and watermarks: the dispatcher's two
  checks, a worker's claim and report, the window a scheduling round offers and the days a success
  marks; and over whole runs, that a day held back by a success is offered again.
 */
module StepLaws {
  import opened Options
  import opened Models
  import opened RunStore
  import opened RunLaws
  import opened CallLaws
  import opened Runtime
  import opened Executions

  // ---------------------------------------------------------------- dispatcher

  /** Back-pressure lets an intent through exactly while fewer runs wait than the limit. */
  lemma CountingIs(cfg: Config, s: System, step: Step, s': System)
    requires Next(cfg, s, step, s') && step.CountQueue?
    ensures var waiting := set id | id in s.repo.runs && s.repo.runs[id].status in {Queued, Retrying};
            s'.dispatcher == if |waiting| < cfg.maxQueued then Counted(step.intent) else Free
    ensures s'.repo == s.repo
  {
    QueueIs(s.repo);
  }

  /** The gate lets an intent through exactly when each declared parent has a run as its edge asks. */
  lemma CheckingIs(cfg: Config, s: System, step: Step, s': System)
    requires WellFormed(s.repo) && Next(cfg, s, step, s') && step.CheckParents?
    ensures s.dispatcher.Counted?
    ensures var i := s.dispatcher.intent;
            && (s'.dispatcher == Gated(i) <==>
                  forall dep :: dep in s.repo.deps && dep.child == i.jobId ==>
                    ParentDone(s.repo, dep, i.scope, i.windowStart, i.windowEnd))
            && (s'.dispatcher == Gated(i) || s'.dispatcher == Free)
    ensures s'.repo == s.repo
  {
    var i := s.dispatcher.intent;
    GateIs(s.repo, i.jobId, i.scope, i.windowStart, i.windowEnd);
  }

  /** What passed both checks becomes a queued run unless its version misfits or its work is live or done. */
  lemma CreatingIs(cfg: Config, s: System, step: Step, s': System)
    requires WellFormed(s.repo) && Next(cfg, s, step, s') && step.Create?
    ensures s.dispatcher.Gated? && s'.dispatcher.Free? && s.repo.nextRunId !in s.repo.runs
    ensures if KeyFits(s.dispatcher.intent) && !LiveTwin(s.repo, s.dispatcher.intent) then
              var id := s.repo.nextRunId;
              && s'.repo.runs.Keys == s.repo.runs.Keys + {id}
              && FreshRun(s'.repo.runs[id], id, s.dispatcher.intent, None, step.now)
              && s'.repo == s.repo.(runs := s.repo.runs[id := s'.repo.runs[id]], nextRunId := id + 1)
            else s'.repo == s.repo
  {
    CreationIs(s.repo, s.dispatcher.intent, None, step.now);
  }

  // ---------------------------------------------------------------- workers

  /** A claim starts a due run of smallest priority number and then id, and the thread gets it as started. */
  lemma ClaimingIs(cfg: Config, s: System, step: Step, s': System)
    requires WellFormed(s.repo) && Next(cfg, s, step, s') && step.ClaimRun?
    ensures step.worker in s.workers && s.workers[step.worker].Idle? && step.worker in cfg.labels
    ensures Due(s.repo, step.id, step.now)
    ensures forall other :: Due(s.repo, other, step.now) ==>
              s.repo.runs[step.id].priority < s.repo.runs[other].priority
              || (s.repo.runs[step.id].priority == s.repo.runs[other].priority && step.id <= other)
    ensures var started := s.repo.runs[step.id].(status := Running, startedAt := Some(step.now),
                                                 worker := Some(cfg.labels[step.worker]));
            && s'.repo == s.repo.(runs := s.repo.runs[step.id := started])
            && s'.workers == s.workers[step.worker := Executing(started)]
  {
    ClaimIs(s.repo, step.id, cfg.labels[step.worker], step.now);
  }

  /** A report settles the thread's own run, if that still runs; a success leaves the thread with its callback. */
  lemma ReportingIs(cfg: Config, s: System, step: Step, s': System)
    requires WellFormed(s.repo) && Next(cfg, s, step, s') && (step.RecordSuccess? || step.ExecutorFails?)
    ensures step.worker in s.workers && !s.workers[step.worker].Idle? && s.workers[step.worker].run.runId in s.repo.runs
    ensures var id := s.workers[step.worker].run.runId;
            var was := s.repo.runs[id];
            s'.repo == s.repo.(runs := s.repo.runs[id :=
              if was.status != Running then was
              else if step.RecordSuccess? then
                was.(status := Succeeded, rowsWritten := if s.workers[step.worker].Returned? then Some(s.workers[step.worker].rows) else None,
                     error := None, finishedAt := Some(step.now))
              else if was.attempt < was.maxAttempts then
                was.(status := Retrying, attempt := was.attempt + 1, scheduledAt := step.now + Backoff(was.attempt),
                     rowsWritten := None, error := Some(step.error), finishedAt := None)
              else was.(status := Dead, rowsWritten := None, error := Some(step.error), finishedAt := Some(step.now))])
    ensures step.RecordSuccess? ==>
              s.workers[step.worker].Returned?
              && s'.workers == s.workers[step.worker := Calling(s.workers[step.worker].run, s.workers[step.worker].rows)]
    ensures step.ExecutorFails? ==> s'.workers == s.workers[step.worker := Idle]
  {
    var pc := s.workers[step.worker];
    var id := pc.run.runId;
    if step.RecordSuccess? {
      SettlingIs(s.repo, id, pc.rows, "", step.now);
    } else {
      SettlingIs(s.repo, id, 0, step.error, step.now);
    }
    assert s.repo.runs[id := s.repo.runs[id]] == s.repo.runs;
  }

  /** An executor can return exactly for a registered job and, where it keeps a watermark, a full window and its own scope. */
  lemma ReturningIs(cfg: Config, s: System, w: nat, rows: nat)
    ensures Enabled(cfg, s, ExecutorReturns(w, rows)) <==>
              && w in s.workers && s.workers[w].Executing?
              && Returnable(cfg, s.workers[w].run)
  {
  }

  predicate Returnable(cfg: Config, run: JobRun) {
    && run.jobId in cfg.tasks
    && (cfg.tasks[run.jobId].marksWatermark ==>
          && run.windowStart != None && run.windowEnd != None
          && (run.scope == "" || run.scope == cfg.tasks[run.jobId].scope))
  }

  // ---------------------------------------------------------------- the window a round offers

  /** Not marked yet and not before the first configured day, and closed by now. */
  ghost predicate Wanted(cfg: Config, repo: RepoState, spec: TaskSpec, lastClosed: Option<int>, day: int) {
    && (exists last :: lastClosed == Some(last) && day <= last)
    && !Reached(repo, spec.dataset, spec.scope, day)
    && ((exists mark :: Marked(repo, spec.dataset, spec.scope, mark))
        || (spec.jobId in cfg.starts && cfg.starts[spec.jobId] <= day))
  }

  /** An intent for the task over exactly the wanted days, and there are some. */
  ghost predicate Offers(cfg: Config, repo: RepoState, spec: TaskSpec, lastClosed: Option<int>, version: Option<string>, i: JobIntent) {
    && i.kind == spec.kind && i.jobId == spec.jobId && i.dataset == spec.dataset && i.scope == spec.scope
    && i.priority == spec.priority && i.maxAttempts == spec.maxAttempts
    && i.version == (if spec.hasVersionProvider then version else None)
    && i.windowStart.Some? && i.windowEnd.Some?
    && (exists day :: Wanted(cfg, repo, spec, lastClosed, day))
    && (forall day :: Wanted(cfg, repo, spec, lastClosed, day) <==> i.windowStart.value <= day <= i.windowEnd.value)
  }

  lemma WantedIs(cfg: Config, repo: RepoState, spec: TaskSpec, lastClosed: Option<int>, day: int)
    ensures Wanted(cfg, repo, spec, lastClosed, day) <==>
              var window := DueWindow(cfg, repo, spec, lastClosed);
              window.Some? && window.value.0 <= day <= window.value.1
  {
    ReachedIs(repo, spec.dataset, spec.scope, day);
    var mark := MarkOf(repo, spec.dataset, spec.scope);
    if mark.Some? {
      assert Marked(repo, spec.dataset, spec.scope, mark.value);
    }
  }

  /** The provider offers an intent exactly when some day is wanted, and then over exactly the wanted days. */
  lemma ProviderOffers(cfg: Config, repo: RepoState, spec: TaskSpec, lastClosed: Option<int>, version: Option<string>, i: JobIntent)
    ensures var window := DueWindow(cfg, repo, spec, lastClosed);
            (window.Some? && i == IntentFor(spec, window.value, version)) <==> Offers(cfg, repo, spec, lastClosed, version, i)
  {
    var window := DueWindow(cfg, repo, spec, lastClosed);
    forall day
      ensures Wanted(cfg, repo, spec, lastClosed, day) <==> window.Some? && window.value.0 <= day <= window.value.1
    {
      WantedIs(cfg, repo, spec, lastClosed, day);
    }
    if window.Some? {
      assert Wanted(cfg, repo, spec, lastClosed, window.value.0) && Wanted(cfg, repo, spec, lastClosed, window.value.1);
    }
    if Offers(cfg, repo, spec, lastClosed, version, i) {
      var day :| Wanted(cfg, repo, spec, lastClosed, day);
      var a, b := i.windowStart.value, i.windowEnd.value;
      assert Wanted(cfg, repo, spec, lastClosed, a) && Wanted(cfg, repo, spec, lastClosed, b);
      assert a == window.value.0 && b == window.value.1;
    }
  }

  /** A scheduling round for a task adds exactly what the provider offers, and changes nothing else. */
  lemma TickingIs(cfg: Config, s: System, step: Step, s': System, i: JobIntent)
    requires Next(cfg, s, step, s') && step.Tick?
    ensures step.job in cfg.tasks
    ensures i in s'.pending <==> i in s.pending || Offers(cfg, s.repo, cfg.tasks[step.job], step.lastClosed, step.version, i)
    ensures s'.repo == s.repo
  {
    ProviderOffers(cfg, s.repo, cfg.tasks[step.job], step.lastClosed, step.version, i);
  }

  // ---------------------------------------------------------------- the days a success marks

  /** The run's task is registered and keeps a watermark on this track, and the run has a last day. */
  ghost predicate MarksTrack(cfg: Config, run: JobRun, dataset: string, scope: string) {
    && run.jobId in cfg.tasks && cfg.tasks[run.jobId].marksWatermark && run.windowEnd.Some?
    && cfg.tasks[run.jobId].dataset == dataset && cfg.tasks[run.jobId].scope == scope
  }

  /** Days before the last one are done; the last one is unless it is today or later and brought no row. */
  predicate DoneBy(last: int, rows: nat, today: int, day: int) {
    day < last || (day == last && (rows > 0 || last < today))
  }

  /** After the call the days marked are those marked before and, on the run's own track, the days it has done. */
  lemma MarkCallIs(cfg: Config, repo: RepoState, run: JobRun, rows: nat, today: int, dataset: string, scope: string, day: int)
    ensures var call := MarkCall(cfg, run, rows, today);
            var repo' := if call.Some? then After(repo, call.value) else repo;
            && repo' == repo.(marks := repo'.marks)
            && (Reached(repo', dataset, scope, day) <==>
                  Reached(repo, dataset, scope, day)
                  || (MarksTrack(cfg, run, dataset, scope) && DoneBy(run.windowEnd.value, rows, today, day)))
  {
    if run.jobId in cfg.tasks && cfg.tasks[run.jobId].marksWatermark && run.windowEnd.Some? {
      var spec := cfg.tasks[run.jobId];
      AdvanceIs(repo, spec.dataset, spec.scope, MarkTarget(run.windowEnd.value, rows, today), dataset, scope, day);
    }
  }

  /** Only a success callback marks days, and it marks exactly those its run has done. */
  lemma CallbackMarks(cfg: Config, s: System, step: Step, s': System, dataset: string, scope: string, day: int)
    requires Next(cfg, s, step, s')
    ensures !step.OnSuccess? ==> s'.repo.marks == s.repo.marks
    ensures step.OnSuccess? ==>
              && step.worker in s.workers && s.workers[step.worker].Calling?
              && s'.repo == s.repo.(marks := s'.repo.marks)
              && var pc := s.workers[step.worker];
                 (Reached(s'.repo, dataset, scope, day) <==>
                    Reached(s.repo, dataset, scope, day)
                    || (MarksTrack(cfg, pc.run, dataset, scope) && DoneBy(pc.run.windowEnd.value, pc.rows, step.today, day)))
  {
    if step.OnSuccess? {
      var pc := s.workers[step.worker];
      MarkCallIs(cfg, s.repo, pc.run, pc.rows, step.today, dataset, scope, day);
    }
  }

  // ---------------------------------------------------------------- held back and offered again

  lemma MarkStays(cfg: Config, s: System, step: Step, s': System, dataset: string, scope: string)
    requires Next(cfg, s, step, s')
    requires exists mark :: Marked(s.repo, dataset, scope, mark)
    ensures exists mark :: Marked(s'.repo, dataset, scope, mark)
  {
    var mark :| Marked(s.repo, dataset, scope, mark);
    if step.OnSuccess? {
      var pc := s.workers[step.worker];
      assert Reached(s.repo, dataset, scope, mark);
      MarkCallIs(cfg, s.repo, pc.run, pc.rows, step.today, dataset, scope, mark);
      assert Reached(s'.repo, dataset, scope, mark);
    } else {
      CallbackMarks(cfg, s, step, s', dataset, scope, mark);
      assert Marked(s'.repo, dataset, scope, mark);
    }
  }

  lemma {:induction false} MarksStay(cfg: Config, states: seq<System>, steps: seq<Step>, j: nat, k: nat, dataset: string, scope: string)
    requires IsRun(cfg, states, steps) && j <= k <= |steps|
    requires exists mark :: Marked(states[j].repo, dataset, scope, mark)
    ensures exists mark :: Marked(states[k].repo, dataset, scope, mark)
  {
    if j < k {
      MarksStay(cfg, states, steps, j, k - 1, dataset, scope);
      assert Next(cfg, states[k - 1], steps[k - 1], states[k - 1 + 1]);
      MarkStays(cfg, states[k - 1], steps[k - 1], states[k], dataset, scope);
    }
  }

  /**
    No gap is forgotten: a success without rows on a day that is not over leaves that day unmarked unless
    it was marked before, and every later round of the task offers it from its close on until it is marked.
   */
  lemma HeldBackIsOfferedAgain(cfg: Config, states: seq<System>, steps: seq<Step>, j: nat, k: nat)
    requires IsRun(cfg, states, steps) && j < k < |steps|
    requires steps[j].OnSuccess? && steps[k].Tick? && steps[j].worker in states[j].workers
    requires var pc := states[j].workers[steps[j].worker];
             && pc.Calling? && pc.run.jobId in cfg.tasks && cfg.tasks[pc.run.jobId].marksWatermark
             && pc.run.windowEnd.Some? && pc.rows == 0 && steps[j].today <= pc.run.windowEnd.value
             && steps[k].job in cfg.tasks
             && cfg.tasks[steps[k].job].dataset == cfg.tasks[pc.run.jobId].dataset
             && cfg.tasks[steps[k].job].scope == cfg.tasks[pc.run.jobId].scope
    ensures var pc, spec := states[j].workers[steps[j].worker], cfg.tasks[steps[k].job];
            var day := pc.run.windowEnd.value;
            && (Reached(states[j + 1].repo, spec.dataset, spec.scope, day) ==>
                  Reached(states[j].repo, spec.dataset, spec.scope, day))
            && (!Reached(states[k].repo, spec.dataset, spec.scope, day)
                && (exists last :: steps[k].lastClosed == Some(last) && day <= last) ==>
                  exists offer :: offer in states[k + 1].pending && offer.jobId == spec.jobId
                    && offer.dataset == spec.dataset && offer.scope == spec.scope
                    && offer.windowStart.Some? && offer.windowEnd.Some?
                    && offer.windowStart.value <= day <= offer.windowEnd.value)
  {
    var pc, spec := states[j].workers[steps[j].worker], cfg.tasks[steps[k].job];
    var day := pc.run.windowEnd.value;
    assert Next(cfg, states[j], steps[j], states[j + 1]) && Next(cfg, states[k], steps[k], states[k + 1]);
    CallbackMarks(cfg, states[j], steps[j], states[j + 1], spec.dataset, spec.scope, day);
    CallbackMarks(cfg, states[j], steps[j], states[j + 1], spec.dataset, spec.scope, day - 1);
    assert Reached(states[j + 1].repo, spec.dataset, spec.scope, day - 1);
    MarksStay(cfg, states, steps, j + 1, k, spec.dataset, spec.scope);
    if !Reached(states[k].repo, spec.dataset, spec.scope, day)
       && (exists last :: steps[k].lastClosed == Some(last) && day <= last) {
      assert Wanted(cfg, states[k].repo, spec, steps[k].lastClosed, day);
      WantedIsOffered(cfg, states[k], steps[k], states[k + 1], day);
    }
  }

  /** Every wanted day lies in the window the round offers. */
  lemma WantedIsOffered(cfg: Config, s: System, step: Step, s': System, day: int)
    requires Next(cfg, s, step, s') && step.Tick? && step.job in cfg.tasks
    requires Wanted(cfg, s.repo, cfg.tasks[step.job], step.lastClosed, day)
    ensures var spec := cfg.tasks[step.job];
            exists offer :: offer in s'.pending && offer.jobId == spec.jobId
              && offer.dataset == spec.dataset && offer.scope == spec.scope
              && offer.windowStart.Some? && offer.windowEnd.Some?
              && offer.windowStart.value <= day <= offer.windowEnd.value
  {
    var spec := cfg.tasks[step.job];
    WantedIs(cfg, s.repo, spec, step.lastClosed, day);
    var offer := IntentFor(spec, DueWindow(cfg, s.repo, spec, step.lastClosed).value, step.version);
    assert offer in s'.pending;
  }
}
