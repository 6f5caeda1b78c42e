/**
  Watermark coverage: when every intent comes from the window provider, the watermark of a dataset
  and scope never passes a day that no returned execution has covered.
 */
module WatermarkLaws {
  import opened Options
  import opened Models
  import opened RunStore
  import opened RunLaws
  import opened Runtime
  import opened RuntimeLaws
  import opened Executions

  /** One dataset and scope, and the first day it is to cover. */
  datatype Track = Track(dataset: string, scope: string, origin: int)

  predicate OnTrack(t: Track, dataset: string, scope: string) {
    dataset == t.dataset && scope == t.scope
  }

  /** The latest day a window of this track may start on. */
  function Frontier(repo: RepoState, t: Track): int {
    var mark := MarkOf(repo, t.dataset, t.scope);
    if mark.Some? && mark.value + 1 > t.origin then mark.value + 1 else t.origin
  }

  /** Without a watermark, no job of the track is configured to start after the origin. */
  predicate StartsByOrigin(cfg: Config, t: Track) {
    forall job :: job in cfg.tasks && job in cfg.starts && OnTrack(t, cfg.tasks[job].dataset, cfg.tasks[job].scope) ==>
      cfg.starts[job] <= t.origin
  }

  ghost predicate OriginFits(cfg: Config, repo: RepoState, t: Track) {
    var mark := MarkOf(repo, t.dataset, t.scope);
    if mark.None? then StartsByOrigin(cfg, t) else mark.value < t.origin
  }

  /** A job of the registry with its own dataset and scope and a full window that starts in time. */
  predicate Provided(cfg: Config, t: Track, frontier: int, jobId: string, dataset: string, scope: string,
                     windowStart: Option<int>, windowEnd: Option<int>) {
    && jobId in cfg.tasks && cfg.tasks[jobId].dataset == dataset && cfg.tasks[jobId].scope == scope
    && windowStart.Some? && windowEnd.Some?
    && (OnTrack(t, dataset, scope) ==> windowStart.value <= frontier)
  }

  predicate ProvidedIntent(cfg: Config, t: Track, frontier: int, i: JobIntent) {
    Provided(cfg, t, frontier, i.jobId, i.dataset, i.scope, i.windowStart, i.windowEnd)
  }

  predicate ProvidedRun(cfg: Config, t: Track, frontier: int, run: JobRun) {
    Provided(cfg, t, frontier, run.jobId, run.dataset, run.scope, run.windowStart, run.windowEnd)
  }

  predicate InWindow(run: JobRun, day: int) {
    run.windowStart.Some? && run.windowEnd.Some? && run.windowStart.value <= day <= run.windowEnd.value
  }

  /** Some execution over a window with this day returned normally. */
  ghost predicate DayCovered(runs: map<nat, JobRun>, normal: set<nat>, t: Track, day: int) {
    exists id :: id in normal && id in runs && OnTrack(t, runs[id].dataset, runs[id].scope) && InWindow(runs[id], day)
  }

  ghost predicate MarkCovered(repo: RepoState, normal: set<nat>, t: Track) {
    var mark := MarkOf(repo, t.dataset, t.scope);
    mark.Some? ==> forall day :: t.origin <= day <= mark.value ==> DayCovered(repo.runs, normal, t, day)
  }

  ghost predicate IntentsProvided(cfg: Config, s: System, t: Track) {
    && (forall i :: i in s.pending ==> ProvidedIntent(cfg, t, Frontier(s.repo, t), i))
    && (!s.dispatcher.Free? ==> s.dispatcher.intent in s.pending)
  }

  ghost predicate RunsProvided(cfg: Config, s: System, t: Track) {
    forall id :: id in s.repo.runs ==> ProvidedRun(cfg, t, Frontier(s.repo, t), s.repo.runs[id])
  }

  ghost predicate ReturnsRecorded(s: System) {
    forall w :: w in s.workers && (s.workers[w].Returned? || s.workers[w].Calling?) ==>
                  s.workers[w].run.runId in s.normal
  }

  ghost predicate Registered(cfg: Config) {
    forall job :: job in cfg.tasks ==> cfg.tasks[job].jobId == job
  }

  ghost predicate CoverInv(cfg: Config, s: System, t: Track) {
    && Inv(cfg, s)
    && (MarkOf(s.repo, t.dataset, t.scope).None? ==> StartsByOrigin(cfg, t))
    && IntentsProvided(cfg, s, t)
    && RunsProvided(cfg, s, t)
    && ReturnsRecorded(s)
    && MarkCovered(s.repo, s.normal, t)
  }

  // ---------------------------------------------------------------- single steps

  /** The provider's window starts on the day after the watermark, or on the configured start. */
  lemma DueWindowStartsInTime(cfg: Config, repo: RepoState, t: Track, job: string, lastClosed: Option<int>, version: Option<string>)
    requires Registered(cfg) && job in cfg.tasks
    requires MarkOf(repo, t.dataset, t.scope).None? ==> StartsByOrigin(cfg, t)
    ensures var window := DueWindow(cfg, repo, cfg.tasks[job], lastClosed);
            window.Some? ==>
              && ProvidedIntent(cfg, t, Frontier(repo, t), IntentFor(cfg.tasks[job], window.value, version))
              && window.value.0 <= window.value.1 && lastClosed == Some(window.value.1)
  {
  }

  lemma MarkStepsForward(st: RepoState, call: Call, t: Track)
    requires Allowed(st, call)
    ensures var before, now := MarkOf(st, t.dataset, t.scope), MarkOf(After(st, call), t.dataset, t.scope);
            && (before.Some? ==> now.Some? && now.value >= before.value)
            && (!call.AdvanceCall? ==> now == before)
            && (now != before ==> call.AdvanceCall? && OnTrack(t, call.dataset, call.scope) && now == Some(call.time))
  {
  }

  lemma FrontierGrows(cfg: Config, s: System, step: Step, s': System, t: Track)
    requires Next(cfg, s, step, s')
    ensures Frontier(s.repo, t) <= Frontier(s'.repo, t)
    ensures MarkOf(s'.repo, t.dataset, t.scope).None? ==> MarkOf(s.repo, t.dataset, t.scope).None?
  {
    if CallOf(cfg, s, step).Some? {
      MarkStepsForward(s.repo, CallOf(cfg, s, step).value, t);
    }
  }

  lemma IntentsAfterStep(cfg: Config, s: System, step: Step, s': System, t: Track)
    requires Registered(cfg) && CoverInv(cfg, s, t) && Next(cfg, s, step, s') && !step.Request?
    ensures IntentsProvided(cfg, s', t)
  {
    FrontierGrows(cfg, s, step, s', t);
    if step.Tick? {
      DueWindowStartsInTime(cfg, s.repo, t, step.job, step.lastClosed, step.version);
    }
    forall i | i in s'.pending
      ensures ProvidedIntent(cfg, t, Frontier(s'.repo, t), i)
    {
      if i in s.pending {
        assert ProvidedIntent(cfg, t, Frontier(s.repo, t), i);
      }
    }
  }

  lemma OldRunStaysProvided(cfg: Config, t: Track, frontier: int, frontier': int, run: JobRun, run': JobRun)
    requires ProvidedRun(cfg, t, frontier, run) && frontier <= frontier' && Moves(run, run')
    ensures ProvidedRun(cfg, t, frontier', run')
  {
  }

  lemma NewRunIsProvided(cfg: Config, s: System, step: Step, s': System, t: Track, id: nat)
    requires CoverInv(cfg, s, t) && Next(cfg, s, step, s') && id in s'.repo.runs && id !in s.repo.runs
    ensures ProvidedRun(cfg, t, Frontier(s'.repo, t), s'.repo.runs[id])
  {
    AppearsByCreation(cfg, s, step, s', id);
    FrontierGrows(cfg, s, step, s', t);
    assert ProvidedIntent(cfg, t, Frontier(s.repo, t), s.dispatcher.intent);
    assert s'.repo.runs[id] == NewRun(id, s.dispatcher.intent, None, step.now);
  }

  lemma RunsAfterStep(cfg: Config, s: System, step: Step, s': System, t: Track)
    requires CoverInv(cfg, s, t) && Next(cfg, s, step, s')
    ensures RunsProvided(cfg, s', t)
  {
    FrontierGrows(cfg, s, step, s', t);
    StepEvolves(cfg, s, step, s');
    forall id | id in s'.repo.runs
      ensures ProvidedRun(cfg, t, Frontier(s'.repo, t), s'.repo.runs[id])
    {
      if id in s.repo.runs {
        OldRunStaysProvided(cfg, t, Frontier(s.repo, t), Frontier(s'.repo, t), s.repo.runs[id], s'.repo.runs[id]);
      } else {
        NewRunIsProvided(cfg, s, step, s', t, id);
      }
    }
  }

  lemma ReturnsAfterStep(cfg: Config, s: System, step: Step, s': System)
    requires ReturnsRecorded(s) && Next(cfg, s, step, s')
    ensures ReturnsRecorded(s') && s.normal <= s'.normal
  {
  }

  lemma CoveredStays(st: RepoState, st': RepoState, normal: set<nat>, normal': set<nat>, t: Track, day: int)
    requires Evolves(st, st') && normal <= normal' && DayCovered(st.runs, normal, t, day)
    ensures DayCovered(st'.runs, normal', t, day)
  {
    var id :| id in normal && id in st.runs && OnTrack(t, st.runs[id].dataset, st.runs[id].scope) && InWindow(st.runs[id], day);
    assert Moves(st.runs[id], st'.runs[id]);
  }

  /** What the success callback may add to the watermark, its own run has covered. */
  lemma CallbackCovers(cfg: Config, s: System, step: Step, t: Track, time: int, day: int)
    requires CoverInv(cfg, s, t) && Enabled(cfg, s, step) && step.OnSuccess?
    requires CallOf(cfg, s, step) == Some(AdvanceCall(t.dataset, t.scope, time))
    requires Frontier(s.repo, t) <= day <= time
    ensures DayCovered(s.repo.runs, s.normal, t, day)
  {
    var pc := s.workers[step.worker];
    var id := pc.run.runId;
    assert WorksOn(pc, s.repo.runs);
    assert id in s.normal;
    var run := s.repo.runs[id];
    assert ProvidedRun(cfg, t, Frontier(s.repo, t), run);
    assert time <= run.windowEnd.value;
    assert OnTrack(t, run.dataset, run.scope) && InWindow(run, day);
  }

  /** A mark moves only by a success callback for the track. */
  lemma MarkMovesByCallback(cfg: Config, s: System, step: Step, s': System, t: Track)
    requires Next(cfg, s, step, s')
    ensures var before, after := MarkOf(s.repo, t.dataset, t.scope), MarkOf(s'.repo, t.dataset, t.scope);
            after != before ==>
              && after.Some? && (before.Some? ==> before.value <= after.value) && step.OnSuccess?
              && CallOf(cfg, s, step) == Some(AdvanceCall(t.dataset, t.scope, after.value))
  {
    if CallOf(cfg, s, step).Some? {
      MarkStepsForward(s.repo, CallOf(cfg, s, step).value, t);
    }
  }

  lemma DayCoveredBefore(cfg: Config, s: System, step: Step, s': System, t: Track, day: int)
    requires CoverInv(cfg, s, t) && Next(cfg, s, step, s')
    requires MarkOf(s'.repo, t.dataset, t.scope).Some? && t.origin <= day <= MarkOf(s'.repo, t.dataset, t.scope).value
    ensures DayCovered(s.repo.runs, s.normal, t, day)
  {
    var before, after := MarkOf(s.repo, t.dataset, t.scope), MarkOf(s'.repo, t.dataset, t.scope);
    MarkMovesByCallback(cfg, s, step, s', t);
    if before.None? || day > before.value {
      CallbackCovers(cfg, s, step, t, after.value, day);
    }
  }

  lemma MarkAfterStep(cfg: Config, s: System, step: Step, s': System, t: Track)
    requires CoverInv(cfg, s, t) && Next(cfg, s, step, s')
    ensures MarkCovered(s'.repo, s'.normal, t)
  {
    StepEvolves(cfg, s, step, s');
    ReturnsAfterStep(cfg, s, step, s');
    var after := MarkOf(s'.repo, t.dataset, t.scope);
    if after.Some? {
      forall day | t.origin <= day <= after.value
        ensures DayCovered(s'.repo.runs, s'.normal, t, day)
      {
        DayCoveredBefore(cfg, s, step, s', t, day);
        CoveredStays(s.repo, s'.repo, s.normal, s'.normal, t, day);
      }
    }
  }

  lemma CoverAfterStep(cfg: Config, s: System, step: Step, s': System, t: Track)
    requires Registered(cfg) && CoverInv(cfg, s, t) && Next(cfg, s, step, s') && !step.Request?
    ensures CoverInv(cfg, s', t)
  {
    InvAfterStep(cfg, s, step, s');
    FrontierGrows(cfg, s, step, s', t);
    IntentsAfterStep(cfg, s, step, s', t);
    RunsAfterStep(cfg, s, step, s', t);
    ReturnsAfterStep(cfg, s, step, s');
    MarkAfterStep(cfg, s, step, s', t);
  }

  // ---------------------------------------------------------------- whole runs

  /** All intents come from the provider: nobody submits a window of their own. */
  ghost predicate ProviderOnly(steps: seq<Step>) {
    forall k :: 0 <= k < |steps| ==> !steps[k].Request?
  }

  lemma CoverOverRuns(cfg: Config, states: seq<System>, steps: seq<Step>, k: nat, t: Track)
    requires IsRun(cfg, states, steps) && ProviderOnly(steps) && k <= |steps|
    requires Registered(cfg) && OriginFits(cfg, states[0].repo, t)
    ensures CoverInv(cfg, states[k], t)
  {
    InvAtStart(cfg, states[0]);
    forall s, step, s' | CoverInv(cfg, s, t) && Next(cfg, s, step, s') && !step.Request?
      ensures CoverInv(cfg, s', t)
    {
      CoverAfterStep(cfg, s, step, s', t);
    }
    Invariance(s => CoverInv(cfg, s, t), (s, step: Step, s') => Next(cfg, s, step, s') && !step.Request?, states, steps, k);
  }

  /**
    Coverage: in every reachable state each day from the origin to the watermark lies in the window of
    a run whose executor returned normally, and no run starts beyond the day after the watermark.
   */
  lemma WatermarkIsCovered(cfg: Config, states: seq<System>, steps: seq<Step>, k: nat, t: Track)
    requires IsRun(cfg, states, steps) && ProviderOnly(steps) && k <= |steps|
    requires Registered(cfg) && OriginFits(cfg, states[0].repo, t)
    ensures var repo, mark := states[k].repo, MarkOf(states[k].repo, t.dataset, t.scope);
            mark.Some? ==> forall day :: t.origin <= day <= mark.value ==>
              DayCovered(repo.runs, states[k].normal, t, day)
    ensures var repo := states[k].repo;
            forall id :: id in repo.runs && OnTrack(t, repo.runs[id].dataset, repo.runs[id].scope) ==>
              repo.runs[id].windowStart.Some? && repo.runs[id].windowStart.value <= Frontier(repo, t)
  {
    CoverOverRuns(cfg, states, steps, k, t);
    assert MarkCovered(states[k].repo, states[k].normal, t);
    var repo := states[k].repo;
    forall id | id in repo.runs && OnTrack(t, repo.runs[id].dataset, repo.runs[id].scope)
      ensures repo.runs[id].windowStart.Some? && repo.runs[id].windowStart.value <= Frontier(repo, t)
    {
      assert ProvidedRun(cfg, t, Frontier(repo, t), repo.runs[id]);
    }
  }
}
