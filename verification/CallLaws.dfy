/**
  What each repository call does, in terms of the runs, edges and watermarks themselves: when a run is
  created, which one is claimed, how one is settled, when the gate is open and how a watermark moves.
 */
module CallLaws {
  import opened Options
  import opened Models
  import opened RunStore
  import opened RunLaws

  /** Derivations and model builds need a version that is not empty, and nothing else may have one. */
  ghost predicate KeyFits(intent: JobIntent) {
    (intent.kind == Derive || intent.kind == BuildRm) <==> (exists v :: intent.version == Some(v) && v != "")
  }

  /** A run for the same work that is waiting, running or done. */
  ghost predicate LiveTwin(st: RepoState, intent: JobIntent) {
    exists id :: id in st.runs
      && st.runs[id].status in {Queued, Retrying, Running, Succeeded}
      && st.runs[id].kind == intent.kind && st.runs[id].jobId == intent.jobId && st.runs[id].scope == intent.scope
      && st.runs[id].windowStart == intent.windowStart && st.runs[id].windowEnd == intent.windowEnd
      && st.runs[id].version == intent.version
  }

  lemma KeyFitsIs(intent: JobIntent)
    ensures KeyAccepted(intent) <==> KeyFits(intent)
  {
    assert HasVersion(intent.version) ==> intent.version == Some(intent.version.value);
  }

  lemma LiveTwinIs(st: RepoState, intent: JobIntent)
    requires WellFormed(st)
    ensures KeyTaken(st, KeyOf(intent)) <==> LiveTwin(st, intent)
  {
    if KeyTaken(st, KeyOf(intent)) {
      var id :| id in st.runs && st.runs[id].key == KeyOf(intent) && Blocking(st.runs[id].status);
      assert st.runs[id].status in {Queued, Retrying, Running, Succeeded};
    }
  }

  /** The one run a creation adds: queued for now, at its first attempt, with what the intent asks for. */
  ghost predicate FreshRun(run: JobRun, id: nat, intent: JobIntent, requestId: Option<string>, now: int) {
    && run.runId == id && run.status == Queued && run.attempt == 1 && run.scheduledAt == now
    && run.kind == intent.kind && run.jobId == intent.jobId && run.dataset == intent.dataset
    && run.scope == intent.scope && run.windowStart == intent.windowStart && run.windowEnd == intent.windowEnd
    && run.version == intent.version && run.priority == intent.priority && run.maxAttempts == intent.maxAttempts
    && run.requestId == requestId && run.worker == None && run.startedAt == None && run.finishedAt == None
    && run.rowsWritten == None && run.error == None
  }

  /** A misfitting version is refused, work already live or done is a duplicate, and anything else adds one run. */
  lemma CreationIs(st: RepoState, intent: JobIntent, requestId: Option<string>, now: int)
    requires WellFormed(st)
    ensures var (st', result) := CreateRun(st, intent, requestId, now);
            && (result.BadKey? <==> !KeyFits(intent))
            && (result.Duplicate? <==> KeyFits(intent) && LiveTwin(st, intent))
            && (!result.Created? ==> st' == st)
    ensures var (st', result) := CreateRun(st, intent, requestId, now);
            result.Created? ==>
              && st.nextRunId !in st.runs && FreshRun(result.run, st.nextRunId, intent, requestId, now)
              && st' == st.(runs := st.runs[st.nextRunId := result.run], nextRunId := st.nextRunId + 1)
  {
    KeyFitsIs(intent);
    LiveTwinIs(st, intent);
  }

  /** Waiting, due, and nothing running for the same dataset and scope. */
  ghost predicate Due(st: RepoState, id: nat, now: int) {
    && id in st.runs && st.runs[id].status in {Queued, Retrying} && st.runs[id].scheduledAt <= now
    && forall other :: other in st.runs && st.runs[other].status == Running ==>
         st.runs[other].dataset != st.runs[id].dataset || st.runs[other].scope != st.runs[id].scope
  }

  /** A claim takes a due run than which no due run has a smaller priority number or, on a par, a smaller id, and starts it. */
  lemma ClaimIs(st: RepoState, id: nat, worker: string, now: int)
    requires WellFormed(st)
    ensures FirstCandidate(st, id, now) <==>
              && Due(st, id, now)
              && forall other :: Due(st, other, now) ==>
                   st.runs[id].priority < st.runs[other].priority
                   || (st.runs[id].priority == st.runs[other].priority && id <= other)
    ensures FirstCandidate(st, id, now) ==>
              Claim(st, id, worker, now) ==
                st.(runs := st.runs[id := st.runs[id].(status := Running, startedAt := Some(now), worker := Some(worker))])
  {
    forall other: nat
      ensures Candidate(st, other, now) <==> Due(st, other, now)
    {
    }
  }

  /** The pause before a retry starts at five seconds and doubles with every attempt. */
  lemma BackoffDoubles(attempt: nat)
    ensures Backoff(1) == 5
    ensures Backoff(attempt + 2) == 2 * Backoff(attempt + 1)
  {
  }

  /** How a running run is settled; a run that is not running is left alone. */
  lemma SettlingIs(st: RepoState, id: nat, rows: nat, text: string, now: int)
    requires id in st.runs
    ensures st.runs[id].status != Running ==>
              Succeed(st, id, rows, now) == st && Fail(st, id, text, now) == st && Interrupt(st, id, text, now) == st
    ensures st.runs[id].status == Running ==>
              && Succeed(st, id, rows, now) == st.(runs := st.runs[id :=
                   st.runs[id].(status := Succeeded, rowsWritten := Some(rows), error := None, finishedAt := Some(now))])
              && Interrupt(st, id, text, now) == st.(runs := st.runs[id :=
                   st.runs[id].(status := Interrupted, rowsWritten := None, error := Some(text), finishedAt := Some(now))])
              && Fail(st, id, text, now) == st.(runs := st.runs[id :=
                   if st.runs[id].attempt < st.runs[id].maxAttempts
                   then st.runs[id].(status := Retrying, attempt := st.runs[id].attempt + 1,
                                     scheduledAt := now + Backoff(st.runs[id].attempt),
                                     rowsWritten := None, error := Some(text), finishedAt := None)
                   else st.runs[id].(status := Dead, rowsWritten := None, error := Some(text), finishedAt := Some(now))])
  {
  }

  /** Stopping a pool interrupts exactly the running runs of workers whose name starts with its prefix. */
  lemma StopIs(st: RepoState, prefix: string, now: int, id: nat)
    requires WellFormed(st)
    ensures var st' := InterruptRunning(st, prefix, now);
            && st'.runs.Keys == st.runs.Keys && st' == st.(runs := st'.runs)
            && (id in st.runs ==>
                  var named := if st.runs[id].worker.Some? then st.runs[id].worker.value else "";
                  st'.runs[id] ==
                    if st.runs[id].status == Running && |prefix| <= |named| && named[..|prefix|] == prefix
                    then st.runs[id].(status := Interrupted, rowsWritten := None, error := Some("stop timeout"),
                                      finishedAt := Some(now))
                    else st.runs[id])
  {
  }

  /** Some run of the parent for the same scope and window is as the condition of the edge asks. */
  ghost predicate ParentDone(st: RepoState, dep: JobDependency, scope: string, windowStart: Option<int>, windowEnd: Option<int>) {
    exists id :: id in st.runs && st.runs[id].jobId == dep.parent && st.runs[id].scope == scope
      && st.runs[id].windowStart == windowStart && st.runs[id].windowEnd == windowEnd
      && (dep.condition == OnSuccess ==> st.runs[id].status == Succeeded)
      && (dep.condition == OnComplete ==> st.runs[id].status in {Succeeded, Dead, Cancelled})
  }

  /** The gate is open exactly when every declared parent has such a run. */
  lemma GateIs(st: RepoState, child: string, scope: string, windowStart: Option<int>, windowEnd: Option<int>)
    requires WellFormed(st)
    ensures ParentsReady(st, child, scope, windowStart, windowEnd) <==>
              forall dep :: dep in st.deps && dep.child == child ==> ParentDone(st, dep, scope, windowStart, windowEnd)
  {
    forall dep | dep in st.deps && dep.child == child
      ensures GateMet(st, dep, scope, windowStart, windowEnd, st.nextRunId) <==>
                ParentDone(st, dep, scope, windowStart, windowEnd)
    {
      GateMetIs(st, dep, scope, windowStart, windowEnd);
    }
  }

  lemma GateMetIs(st: RepoState, dep: JobDependency, scope: string, windowStart: Option<int>, windowEnd: Option<int>)
    requires WellFormed(st)
    ensures GateMet(st, dep, scope, windowStart, windowEnd, st.nextRunId) <==> ParentDone(st, dep, scope, windowStart, windowEnd)
  {
    if ParentDone(st, dep, scope, windowStart, windowEnd) {
      var id :| id in st.runs && st.runs[id].jobId == dep.parent && st.runs[id].scope == scope
        && st.runs[id].windowStart == windowStart && st.runs[id].windowEnd == windowEnd
        && (dep.condition == OnSuccess ==> st.runs[id].status == Succeeded)
        && (dep.condition == OnComplete ==> st.runs[id].status in {Succeeded, Dead, Cancelled});
      assert id < st.nextRunId && Matches(st.runs[id], dep.parent, scope, windowStart, windowEnd);
    }
  }

  /** The queue is counted over the runs that wait, for their first attempt or for another. */
  lemma QueueIs(st: RepoState)
    ensures QueuedIds(st) == set id | id in st.runs && st.runs[id].status in {Queued, Retrying}
  {
  }

  /** The track has been marked up to the day or beyond. */
  ghost predicate Reached(st: RepoState, dataset: string, scope: string, day: int) {
    exists mark :: Marked(st, dataset, scope, mark) && day <= mark
  }

  predicate Marked(st: RepoState, dataset: string, scope: string, mark: int) {
    (dataset, scope) in st.marks && st.marks[(dataset, scope)] == Some(mark)
  }

  /** An advance reaches the days up to its time, on its own track, and forgets none. */
  lemma AdvanceIs(st: RepoState, dataset: string, scope: string, time: int, d: string, s: string, day: int)
    ensures var st' := Advance(st, dataset, scope, time);
            && st' == st.(marks := st'.marks)
            && (Reached(st', d, s, day) <==> Reached(st, d, s, day) || (d == dataset && s == scope && day <= time))
  {
    var st' := Advance(st, dataset, scope, time);
    ReachedIs(st, d, s, day);
    ReachedIs(st', d, s, day);
  }

  lemma ReachedIs(st: RepoState, dataset: string, scope: string, day: int)
    ensures Reached(st, dataset, scope, day) <==>
              MarkOf(st, dataset, scope).Some? && day <= MarkOf(st, dataset, scope).value
  {
    if MarkOf(st, dataset, scope).Some? {
      assert Marked(st, dataset, scope, MarkOf(st, dataset, scope).value);
    }
  }
}
