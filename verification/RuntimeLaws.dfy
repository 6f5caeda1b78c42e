/**
  Safety over whole runs of the runtime: exclusivity, retry budget, bounded queue, dependency order
  and watermark coverage, in every state that any interleaving can reach.
 */
module RuntimeLaws {
  import opened Options
  import opened Models
  import opened RunStore
  import opened RunLaws
  import opened Runtime
  import opened TaskGraph
  import opened Executions

  // ---------------------------------------------------------------- bounded queue

  predicate Live(status: JobStatus) { Claimable(status) || status.Running? }

  function LiveIds(st: RepoState): set<nat> {
    set id | id in st.runs && Live(st.runs[id].status)
  }

  lemma LiveSplits(st: RepoState)
    ensures |LiveIds(st)| == |QueuedIds(st)| + |RunningIds(st)|
  {
    assert LiveIds(st) == QueuedIds(st) + RunningIds(st);
    assert QueuedIds(st) !! RunningIds(st);
  }

  lemma SubsetSize<T>(a: set<T>, b: set<T>)
    requires a <= b
    ensures |a| <= |b|
  {
    assert b == a + (b - a);
  }

  /** Runs enter the live set by creation only: claims and failures keep them there. */
  lemma LiveAfterCall(st: RepoState, call: Call)
    requires WellFormed(st) && Allowed(st, call)
    ensures |LiveIds(After(st, call))| <= |LiveIds(st)| + (if call.CreateCall? then 1 else 0)
  {
    EveryCallEvolves(st, call);
    LiveAfterEvolving(st, After(st, call));
  }

  lemma LiveAfterEvolving(st: RepoState, st': RepoState)
    requires WellFormed(st) && WellFormed(st') && Evolves(st, st') && st'.nextRunId <= st.nextRunId + 1
    ensures |LiveIds(st')| <= |LiveIds(st)| + st'.nextRunId - st.nextRunId
  {
    var added := if st'.nextRunId == st.nextRunId then {} else {st.nextRunId};
    forall id | id in LiveIds(st')
      ensures id in LiveIds(st) + added
    {
      if id in st.runs {
        assert Moves(st.runs[id], st'.runs[id]);
      }
    }
    SubsetSize(LiveIds(st'), LiveIds(st) + added);
  }

  lemma {:induction false} HeldCount(threads: set<nat>, workers: map<nat, WorkerPc>, ids: set<nat>)
    requires threads <= workers.Keys
    requires forall id :: id in ids ==> exists w :: w in threads && Holds(workers[w]) && workers[w].run.runId == id
    ensures |ids| <= |threads|
    decreases |threads|
  {
    if ids == {} {
      return;
    }
    var id :| id in ids;
    var w :| w in threads && Holds(workers[w]) && workers[w].run.runId == id;
    forall other | other in ids - {id}
      ensures exists x :: x in threads - {w} && Holds(workers[x]) && workers[x].run.runId == other
    {
      var x :| x in threads && Holds(workers[x]) && workers[x].run.runId == other;
      assert x in threads - {w};
    }
    HeldCount(threads - {w}, workers, ids - {id});
  }

  lemma RunningAtMostThreads(workers: map<nat, WorkerPc>, st: RepoState)
    requires Held(workers, st.runs)
    ensures |RunningIds(st)| <= |workers.Keys|
  {
    forall id | id in RunningIds(st)
      ensures exists w :: w in workers.Keys && Holds(workers[w]) && workers[w].run.runId == id
    {
      assert HeldBySome(workers, id);
    }
    HeldCount(workers.Keys, workers, RunningIds(st));
  }

  /** The limit on queued, retrying and running runs together. */
  function LoadLimit(cfg: Config): int {
    (if cfg.maxQueued > 0 then cfg.maxQueued else 0) + |cfg.labels.Keys|
  }

  ghost predicate QueueBounded(cfg: Config, s: System) {
    && |LiveIds(s.repo)| <= LoadLimit(cfg)
    && (!s.dispatcher.Free? ==> |LiveIds(s.repo)| < LoadLimit(cfg))
  }

  lemma QueueAfterStep(cfg: Config, s: System, step: Step, s': System)
    requires TableInv(s.repo) && Held(s.workers, s.repo.runs) && s.workers.Keys == cfg.labels.Keys
    requires QueueBounded(cfg, s) && Next(cfg, s, step, s')
    ensures QueueBounded(cfg, s')
  {
    if CallOf(cfg, s, step).Some? {
      LiveAfterCall(s.repo, CallOf(cfg, s, step).value);
    }
    if step.CountQueue? {
      LiveSplits(s.repo);
      RunningAtMostThreads(s.workers, s.repo);
    }
  }

  // ---------------------------------------------------------------- dependency order

  ghost predicate RunGated(st: RepoState, id: nat)
    requires id in st.runs
  {
    forall dep :: dep in st.deps && dep.child == st.runs[id].jobId ==>
      GateMet(st, dep, st.runs[id].scope, st.runs[id].windowStart, st.runs[id].windowEnd, id)
  }

  /** Each run has, for every declared parent, an older matching run that meets the condition. */
  ghost predicate EveryRunGated(st: RepoState) {
    forall id {:trigger RunGated(st, id)} :: id in st.runs ==> RunGated(st, id)
  }

  ghost predicate GateKept(s: System) {
    && EveryRunGated(s.repo)
    && (s.dispatcher.Gated? ==>
          var i := s.dispatcher.intent; ParentsReady(s.repo, i.jobId, i.scope, i.windowStart, i.windowEnd))
  }

  lemma OldRunsStayGated(st: RepoState, st': RepoState, id: nat)
    requires WellFormed(st) && Evolves(st, st') && id in st.runs && RunGated(st, id)
    ensures RunGated(st', id)
  {
    assert Moves(st.runs[id], st'.runs[id]);
    forall dep | dep in st'.deps && dep.child == st'.runs[id].jobId
      ensures GateMet(st', dep, st'.runs[id].scope, st'.runs[id].windowStart, st'.runs[id].windowEnd, id)
    {
      GateStays(st, st', dep, st.runs[id].scope, st.runs[id].windowStart, st.runs[id].windowEnd, id);
    }
  }

  lemma NewRunIsGated(st: RepoState, intent: JobIntent, now: int)
    requires WellFormed(st) && CreateRun(st, intent, None, now).1.Created?
    requires ParentsReady(st, intent.jobId, intent.scope, intent.windowStart, intent.windowEnd)
    ensures RunGated(CreateRun(st, intent, None, now).0, st.nextRunId)
  {
    var st' := CreateRun(st, intent, None, now).0;
    CreateEvolves(st, intent, None, now);
    forall dep | dep in st'.deps && dep.child == intent.jobId
      ensures GateMet(st', dep, intent.scope, intent.windowStart, intent.windowEnd, st.nextRunId)
    {
      GateStays(st, st', dep, intent.scope, intent.windowStart, intent.windowEnd, st.nextRunId);
    }
  }

  lemma GateAfterStep(cfg: Config, s: System, step: Step, s': System)
    requires TableInv(s.repo) && GateKept(s) && Next(cfg, s, step, s')
    ensures GateKept(s')
  {
    StepEvolves(cfg, s, step, s');
    forall id | id in s'.repo.runs
      ensures RunGated(s'.repo, id)
    {
      if id in s.repo.runs {
        OldRunsStayGated(s.repo, s'.repo, id);
      } else {
        AppearsByCreation(cfg, s, step, s', id);
        NewRunIsGated(s.repo, s.dispatcher.intent, step.now);
      }
    }
    if s'.dispatcher.Gated? && s.dispatcher.Gated? {
      var i := s.dispatcher.intent;
      ReadyStays(s.repo, s'.repo, i.jobId, i.scope, i.windowStart, i.windowEnd);
    }
  }

  lemma AppearsByCreation(cfg: Config, s: System, step: Step, s': System, id: nat)
    requires TableInv(s.repo) && Next(cfg, s, step, s')
    requires id in s'.repo.runs && id !in s.repo.runs
    ensures step.Create? && id == s.repo.nextRunId
    ensures CreateRun(s.repo, s.dispatcher.intent, None, step.now).1.Created?
    ensures s'.repo == CreateRun(s.repo, s.dispatcher.intent, None, step.now).0
  {
    if CallOf(cfg, s, step).Some? && !step.Create? && !step.ClaimRun? {
      OnlyClaimStarts(s.repo, CallOf(cfg, s, step).value);
    }
  }

  // ---------------------------------------------------------------- the invariant of every reachable state

  ghost predicate Inv(cfg: Config, s: System) {
    && TableInv(s.repo)
    && s.workers.Keys == cfg.labels.Keys
    && Held(s.workers, s.repo.runs)
    && ClaimsCounted(s.claims, s.repo.runs)
    && QueueBounded(cfg, s)
    && GateKept(s)
  }

  lemma InvAfterStep(cfg: Config, s: System, step: Step, s': System)
    requires Inv(cfg, s) && Next(cfg, s, step, s')
    ensures Inv(cfg, s')
  {
    StepEvolves(cfg, s, step, s');
    HeldAfterStep(cfg, s, step, s');
    ClaimsAfterStep(cfg, s, step, s');
    QueueAfterStep(cfg, s, step, s');
    GateAfterStep(cfg, s, step, s');
  }

  lemma InvAtStart(cfg: Config, s: System)
    requires Start(cfg, s)
    ensures Inv(cfg, s)
  {
    assert s.repo == RepoState(map[], s.repo.deps, s.repo.marks, 1);
    EmptyTable(s.repo.deps, s.repo.marks);
    assert LiveIds(s.repo) == {};
  }

  lemma StepOf(cfg: Config, states: seq<System>, steps: seq<Step>, k: nat) returns (s: System, step: Step, s': System)
    requires IsRun(cfg, states, steps) && 0 < k <= |steps|
    ensures s == states[k - 1] && step == steps[k - 1] && s' == states[k]
    ensures Next(cfg, s, step, s')
  {
    var j := k - 1;
    assert Next(cfg, states[j], steps[j], states[j + 1]);
    s, step, s' := states[j], steps[j], states[j + 1];
  }

  lemma InvOverRuns(cfg: Config, states: seq<System>, steps: seq<Step>, k: nat)
    requires IsRun(cfg, states, steps) && k <= |steps|
    ensures Inv(cfg, states[k])
  {
    InvAtStart(cfg, states[0]);
    forall s, step, s' | Inv(cfg, s) && Next(cfg, s, step, s')
      ensures Inv(cfg, s')
    {
      InvAfterStep(cfg, s, step, s');
    }
    Invariance(s => Inv(cfg, s), (s, step, s') => Next(cfg, s, step, s'), states, steps, k);
  }

  /** At most one running run per dataset and scope, and at most one executing thread per running run. */
  lemma ScopesAreExclusive(cfg: Config, states: seq<System>, steps: seq<Step>, k: nat, i: nat, j: nat)
    requires IsRun(cfg, states, steps) && k <= |steps|
    requires i in states[k].repo.runs && j in states[k].repo.runs
    requires states[k].repo.runs[i].status.Running? && states[k].repo.runs[j].status.Running?
    requires states[k].repo.runs[i].dataset == states[k].repo.runs[j].dataset
    requires states[k].repo.runs[i].scope == states[k].repo.runs[j].scope
    ensures i == j
    ensures exists w :: w in states[k].workers && Holds(states[k].workers[w]) && states[k].workers[w].run.runId == i
                        && forall x | x in states[k].workers && Holds(states[k].workers[x]) ::
                             states[k].workers[x].run.runId == i ==> x == w
  {
    InvOverRuns(cfg, states, steps, k);
    var s := states[k];
    assert ScopeExclusive(s.repo);
    assert HeldBySome(s.workers, i);
    var w :| w in s.workers && Holds(s.workers[w]) && s.workers[w].run.runId == i;
  }

  /** A run that is newer than one of its key that has succeeded would have been created after the success. */
  lemma SucceededStaysNewest(cfg: Config, states: seq<System>, steps: seq<Step>, k: nat, m: nat, i: nat, j: nat)
    requires IsRun(cfg, states, steps) && k <= m <= |steps|
    requires i in states[k].repo.runs && states[k].repo.runs[i].status.Succeeded?
    requires i in states[m].repo.runs && j in states[m].repo.runs
    requires states[m].repo.runs[i].key == states[m].repo.runs[j].key
    ensures j <= i
  {
    SettledOverRuns(cfg, states, steps, k, m, i);
    TableOverRuns(cfg, states, steps, m);
    KeyIsIdempotent(states[m].repo, i, j);
  }

  lemma TableOverRuns(cfg: Config, states: seq<System>, steps: seq<Step>, k: nat)
    requires IsRun(cfg, states, steps) && k <= |steps|
    ensures TableInv(states[k].repo)
  {
    InvOverRuns(cfg, states, steps, k);
  }

  lemma OlderRunExists(st: RepoState, i: nat, j: nat)
    requires TableInv(st) && i in st.runs && 1 <= j <= i
    ensures j in st.runs
  {
  }

  lemma IdsStartAtOne(st: RepoState, j: nat)
    requires TableInv(st) && j in st.runs
    ensures 1 <= j
  {
  }

  /** A key has at most one live or succeeded run, and once it succeeded it never gets another. */
  lemma KeysAreIdempotent(cfg: Config, states: seq<System>, steps: seq<Step>, k: nat, m: nat, i: nat, j: nat)
    requires IsRun(cfg, states, steps) && k <= m <= |steps|
    requires i in states[m].repo.runs && j in states[m].repo.runs
    requires states[m].repo.runs[i].key == states[m].repo.runs[j].key
    ensures Blocking(states[m].repo.runs[i].status) && Blocking(states[m].repo.runs[j].status) ==> i == j
    ensures i in states[k].repo.runs && states[k].repo.runs[i].status.Succeeded? ==> j in states[k].repo.runs
  {
    var before, after := states[k].repo, states[m].repo;
    TableOverRuns(cfg, states, steps, k);
    TableOverRuns(cfg, states, steps, m);
    KeyIsIdempotent(after, i, j);
    if i in before.runs && before.runs[i].status.Succeeded? {
      SucceededStaysNewest(cfg, states, steps, k, m, i, j);
      IdsStartAtOne(after, j);
      OlderRunExists(before, i, j);
    }
  }

  lemma StepEvolvesAt(cfg: Config, states: seq<System>, steps: seq<Step>, m: nat)
    requires IsRun(cfg, states, steps) && 0 < m <= |steps|
    ensures Evolves(states[m - 1].repo, states[m].repo)
  {
    InvOverRuns(cfg, states, steps, m - 1);
    var s, step, s' := StepOf(cfg, states, steps, m);
    StepEvolves(cfg, s, step, s');
  }

  lemma {:induction false} EvolvesOverRuns(cfg: Config, states: seq<System>, steps: seq<Step>, k: nat, m: nat)
    requires IsRun(cfg, states, steps) && k <= m <= |steps|
    ensures states[k].repo.runs.Keys <= states[m].repo.runs.Keys
    ensures states[k].repo.deps == states[m].repo.deps
    ensures forall id :: id in states[k].repo.runs ==> SameJob(states[k].repo.runs[id], states[m].repo.runs[id])
    decreases m
  {
    if k < m {
      EvolvesOverRuns(cfg, states, steps, k, m - 1);
      StepEvolvesAt(cfg, states, steps, m);
      forall id | id in states[k].repo.runs
        ensures SameJob(states[k].repo.runs[id], states[m].repo.runs[id])
      {
        assert Moves(states[m - 1].repo.runs[id], states[m].repo.runs[id]);
      }
    }
  }

  /** A run that has left the running state for good is never changed again, by late calls included. */
  lemma {:induction false} SettledOverRuns(cfg: Config, states: seq<System>, steps: seq<Step>, k: nat, m: nat, id: nat)
    requires IsRun(cfg, states, steps) && k <= m <= |steps|
    requires id in states[k].repo.runs && !Live(states[k].repo.runs[id].status)
    ensures id in states[m].repo.runs && states[m].repo.runs[id] == states[k].repo.runs[id]
    decreases m
  {
    if k < m {
      SettledOverRuns(cfg, states, steps, k, m - 1, id);
      StepEvolvesAt(cfg, states, steps, m);
      assert Moves(states[m - 1].repo.runs[id], states[m].repo.runs[id]);
    }
  }

  /** Attempts stay within the budget, and no run is claimed more often than the budget allows. */
  lemma RetriesAreBudgeted(cfg: Config, states: seq<System>, steps: seq<Step>, k: nat, id: nat)
    requires IsRun(cfg, states, steps) && k <= |steps| && id in states[k].repo.runs
    ensures 1 <= states[k].repo.runs[id].attempt <= Budget(states[k].repo.runs[id])
    ensures id in states[k].claims && states[k].claims[id] <= Budget(states[k].repo.runs[id])
    ensures !Claimable(states[k].repo.runs[id].status) ==> states[k].claims[id] == states[k].repo.runs[id].attempt
  {
    InvOverRuns(cfg, states, steps, k);
  }

  /** Queued, retrying and running runs together never exceed the queue limit plus the thread count. */
  lemma BackPressureHolds(cfg: Config, states: seq<System>, steps: seq<Step>, k: nat)
    requires IsRun(cfg, states, steps) && k <= |steps|
    ensures |QueuedIds(states[k].repo)| + |RunningIds(states[k].repo)| <= LoadLimit(cfg)
    ensures |RunningIds(states[k].repo)| <= |cfg.labels.Keys|
  {
    InvOverRuns(cfg, states, steps, k);
    LiveSplits(states[k].repo);
    RunningAtMostThreads(states[k].workers, states[k].repo);
  }

  /** Every run was preceded, for each declared parent, by a matching run that meets the condition now. */
  lemma ParentsComeFirst(cfg: Config, states: seq<System>, steps: seq<Step>, k: nat, id: nat, dep: JobDependency)
    returns (parent: nat)
    requires IsRun(cfg, states, steps) && k <= |steps| && id in states[k].repo.runs
    requires dep in states[k].repo.deps && dep.child == states[k].repo.runs[id].jobId
    ensures parent < id && parent in states[k].repo.runs
    ensures Matches(states[k].repo.runs[parent], dep.parent, states[k].repo.runs[id].scope,
                    states[k].repo.runs[id].windowStart, states[k].repo.runs[id].windowEnd)
    ensures Meets(states[k].repo.runs[parent].status, dep.condition)
  {
    InvOverRuns(cfg, states, steps, k);
    var st := states[k].repo;
    var run := st.runs[id];
    assert RunGated(st, id);
    assert GateMet(st, dep, run.scope, run.windowStart, run.windowEnd, id);
    parent :| parent in st.runs && parent < id
              && Matches(st.runs[parent], dep.parent, run.scope, run.windowStart, run.windowEnd)
              && Meets(st.runs[parent].status, dep.condition);
  }

  // ---------------------------------------------------------------- cycles and deadlock

  /** The dependency table mirrors the registry and every parent is registered. */
  ghost predicate Mirrors(tasks: Tasks, deps: seq<JobDependency>) {
    && (forall dep :: dep in deps <==>
          dep.child in tasks && dep.parent in tasks[dep.child].dependencies
          && dep.condition == tasks[dep.child].condition)
    && (forall job :: job in tasks ==> forall parent :: parent in tasks[job].dependencies ==> parent in tasks)
  }

  /** Every job of the group declares a parent in the group. */
  ghost predicate Trapped(deps: seq<JobDependency>, group: set<string>) {
    forall job {:trigger HasParentIn(deps, job, group)} :: job in group ==> HasParentIn(deps, job, group)
  }

  ghost predicate HasParentIn(deps: seq<JobDependency>, job: string, group: set<string>) {
    exists dep :: dep in deps && dep.child == job && dep.parent in group
  }

  lemma ParentInGroup(st: RepoState, group: set<string>, id: nat) returns (parent: nat)
    requires EveryRunGated(st) && Trapped(st.deps, group) && id in st.runs && st.runs[id].jobId in group
    ensures parent in st.runs && parent < id && st.runs[parent].jobId in group
  {
    var run := st.runs[id];
    assert HasParentIn(st.deps, run.jobId, group);
    var dep :| dep in st.deps && dep.child == run.jobId && dep.parent in group;
    assert RunGated(st, id);
    assert GateMet(st, dep, run.scope, run.windowStart, run.windowEnd, id);
    parent :| parent in st.runs && parent < id
              && Matches(st.runs[parent], dep.parent, run.scope, run.windowStart, run.windowEnd);
  }

  lemma {:induction false} TrappedJobsNeverRun(st: RepoState, group: set<string>, id: nat)
    requires EveryRunGated(st) && Trapped(st.deps, group) && id in st.runs
    ensures st.runs[id].jobId !in group
    decreases id
  {
    if st.runs[id].jobId in group {
      var parent := ParentInGroup(st, group, id);
      TrappedJobsNeverRun(st, group, parent);
    }
  }

  /** No job on a declared cycle ever gets a run. */
  lemma CyclesNeverRun(cfg: Config, states: seq<System>, steps: seq<Step>, k: nat, cycle: seq<string>, id: nat)
    requires IsRun(cfg, states, steps) && k <= |steps| && id in states[k].repo.runs
    requires Mirrors(cfg.tasks, states[k].repo.deps) && Cycle(cfg.tasks, cycle)
    ensures states[k].repo.runs[id].jobId !in cycle
  {
    InvOverRuns(cfg, states, steps, k);
    var st := states[k].repo;
    var group := set node | node in cycle;
    forall job | job in group
      ensures HasParentIn(st.deps, job, group)
    {
      var i :| 0 <= i < |cycle| && cycle[i] == job;
      var j := if i == |cycle| - 1 then 0 else i;
      assert Edge(cfg.tasks, cycle[j], cycle[j + 1]);
      assert JobDependency(cycle[j + 1], job, cfg.tasks[job].condition) in st.deps;
    }
    TrappedJobsNeverRun(st, group, id);
  }

  ghost predicate HasSucceeded(st: RepoState, job: string, scope: string, windowStart: Option<int>, windowEnd: Option<int>) {
    exists id :: id in st.runs && Matches(st.runs[id], job, scope, windowStart, windowEnd) && st.runs[id].status.Succeeded?
  }

  /**
    In an acyclic graph something can always be submitted: while some job has not succeeded for a scope
    and window, some such job passes the gate, and creating its run is refused only by a live run.
   */
  lemma NoDeadlock(tasks: Tasks, st: RepoState, scope: string, windowStart: Option<int>, windowEnd: Option<int>)
    returns (ready: string)
    requires WellFormed(st) && Acyclic(tasks) && Mirrors(tasks, st.deps)
    requires exists job :: job in tasks && !HasSucceeded(st, job, scope, windowStart, windowEnd)
    ensures ready in tasks && !HasSucceeded(st, ready, scope, windowStart, windowEnd)
    ensures ParentsReady(st, ready, scope, windowStart, windowEnd)
    ensures forall intent: JobIntent, now ::
              intent.jobId == ready && intent.scope == scope
              && intent.windowStart == windowStart && intent.windowEnd == windowEnd
              && KeyAccepted(intent) && CreateRun(st, intent, None, now).1.Duplicate? ==>
                exists id :: id in st.runs && st.runs[id].key == KeyOf(intent) && Live(st.runs[id].status)
  {
    var waiting := set job | job in tasks && !HasSucceeded(st, job, scope, windowStart, windowEnd);
    var some :| some in tasks && !HasSucceeded(st, some, scope, windowStart, windowEnd);
    assert some in waiting;
    ready := MinimalMember(tasks, waiting);
    forall dep | dep in st.deps && dep.child == ready
      ensures GateMet(st, dep, scope, windowStart, windowEnd, st.nextRunId)
    {
      assert Edge(tasks, ready, dep.parent);
      assert HasSucceeded(st, dep.parent, scope, windowStart, windowEnd);
    }
    forall intent: JobIntent, now |
      intent.jobId == ready && intent.scope == scope
      && intent.windowStart == windowStart && intent.windowEnd == windowEnd
      && KeyAccepted(intent) && CreateRun(st, intent, None, now).1.Duplicate?
      ensures exists id :: id in st.runs && st.runs[id].key == KeyOf(intent) && Live(st.runs[id].status)
    {
      var id :| id in st.runs && st.runs[id].key == KeyOf(intent) && Blocking(st.runs[id].status);
      assert Matches(st.runs[id], ready, scope, windowStart, windowEnd);
    }
  }
}
