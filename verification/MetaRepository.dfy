/**
  The in-memory repository: its fields are replaced entry by entry under one lock, so each method
  is one atomic step.  Every method is proved to do to the fields what RunStore says.
 */
module MetaRepository {
  import opened Options
  import opened Models
  import opened RunStore

  /** The table after the reclaiming loop has passed the ids below `bound`. */
  function ReclaimedBelow(st: RepoState, prefix: string, now: int, bound: nat): RepoState {
    st.(runs := map id | id in st.runs :: if id < bound then Reclaimed(st.runs[id], prefix, now) else st.runs[id])
  }

  function StuckBelow(st: RepoState, prefix: string, bound: nat): set<nat> {
    set id | id in st.runs && id < bound && StuckUnder(st.runs[id], prefix)
  }

  lemma ReclaimNone(st: RepoState, prefix: string, now: int)
    requires WellFormed(st)
    ensures ReclaimedBelow(st, prefix, now, 1) == st && StuckBelow(st, prefix, 1) == {}
  {
    assert ReclaimedBelow(st, prefix, now, 1).runs == st.runs;
  }

  lemma ReclaimEvery(st: RepoState, prefix: string, now: int)
    requires WellFormed(st)
    ensures ReclaimedBelow(st, prefix, now, st.nextRunId) == InterruptRunning(st, prefix, now)
  {
    assert ReclaimedBelow(st, prefix, now, st.nextRunId).runs == InterruptRunning(st, prefix, now).runs;
  }

  lemma ReclaimedOne(st: RepoState, prefix: string, now: int, id: nat)
    requires WellFormed(st) && id in st.runs
    ensures var here, next := ReclaimedBelow(st, prefix, now, id).runs, ReclaimedBelow(st, prefix, now, id + 1).runs;
            && id in here && here[id] == st.runs[id]
            && next == here[id := Reclaimed(st.runs[id], prefix, now)]
  {
  }

  lemma StuckOne(st: RepoState, prefix: string, id: nat)
    requires id in st.runs
    ensures |StuckBelow(st, prefix, id + 1)| ==
            |StuckBelow(st, prefix, id)| + (if StuckUnder(st.runs[id], prefix) then 1 else 0)
  {
    if StuckUnder(st.runs[id], prefix) {
      assert StuckBelow(st, prefix, id + 1) == StuckBelow(st, prefix, id) + {id};
    } else {
      assert StuckBelow(st, prefix, id + 1) == StuckBelow(st, prefix, id);
    }
  }

  lemma ReclaimOne(st: RepoState, prefix: string, now: int, id: nat)
    requires WellFormed(st) && id in st.runs
    ensures var here, next := ReclaimedBelow(st, prefix, now, id), ReclaimedBelow(st, prefix, now, id + 1);
            && id in here.runs && here.runs[id] == st.runs[id]
            && next == (if StuckUnder(st.runs[id], prefix)
                        then Finish(here, id, Interrupted, None, Some(STOP_TIMEOUT), None, None, now) else here)
  {
    var here := ReclaimedBelow(st, prefix, now, id);
    ReclaimedOne(st, prefix, now, id);
    if !StuckUnder(st.runs[id], prefix) {
      assert here.runs[id := here.runs[id]] == here.runs;
    }
  }

  /** The definitions by job, the later of one job replacing the earlier. */
  function Mirrored(defs: map<string, JobDef>, declared: seq<JobDef>): map<string, JobDef> {
    if declared == [] then defs
    else
      var last := declared[|declared| - 1];
      Mirrored(defs, declared[..|declared| - 1])[last.jobId := last]
  }

  /** One definition for each job declared, as declared, and the old one for every other. */
  lemma {:induction false} MirroredIs(defs: map<string, JobDef>, declared: seq<JobDef>, job: string)
    requires forall i, j :: 0 <= i < j < |declared| && declared[i].jobId == declared[j].jobId ==> declared[i] == declared[j]
    ensures forall def :: def in declared && def.jobId == job ==>
              job in Mirrored(defs, declared) && Mirrored(defs, declared)[job] == def
    ensures (forall def :: def in declared ==> def.jobId != job) ==>
              (job in Mirrored(defs, declared) <==> job in defs)
              && (job in defs ==> Mirrored(defs, declared)[job] == defs[job])
  {
    if declared != [] {
      var n := |declared| - 1;
      MirroredIs(defs, declared[..n], job);
      assert forall def :: def in declared <==> def in declared[..n] || def == declared[n];
    }
  }

  class InMemoryMetaRepository {
    var runs: map<nat, JobRun>
    var deps: seq<JobDependency>
    var marks: map<(string, string), Option<int>>
    var nextRunId: nat
    var defs: map<string, JobDef>

    function State(): RepoState
      reads this
    {
      RepoState(runs, deps, marks, nextRunId)
    }

    constructor ()
      ensures State() == RepoState(map[], [], map[], 1) && WellFormed(State()) && defs == map[]
    {
      runs, deps, marks, nextRunId, defs := map[], [], map[], 1, map[];
    }

    /** Definitions are added or replaced; those of jobs no longer registered stay. */
    method SyncDefs(declared: seq<JobDef>)
      modifies this`defs
      ensures defs == Mirrored(old(defs), declared)
    {
      for i := 0 to |declared|
        invariant defs == Mirrored(old(defs), declared[..i])
      {
        assert declared[..i + 1][..i] == declared[..i];
        defs := defs[declared[i].jobId := declared[i]];
      }
      assert declared[..|declared|] == declared;
    }

    method SyncDependencies(declared: seq<JobDependency>)
      modifies this`deps
      ensures State() == old(State()).(deps := declared)
    {
      deps := declared;
    }

    method Create(intent: JobIntent, requestId: Option<string>, now: int) returns (result: CreateResult)
      requires WellFormed(State())
      modifies this
      ensures WellFormed(State())
      ensures (State(), result) == CreateRun(old(State()), intent, requestId, now)
    {
      if Versioned(intent.kind) != HasVersion(intent.version) {
        return BadKey;
      }
      var key := KeyOf(intent);
      for id := 1 to nextRunId
        invariant forall earlier :: 1 <= earlier < id ==> !(runs[earlier].key == key && Blocking(runs[earlier].status))
      {
        var status := runs[id].status;
        if runs[id].key == key && (Claimable(status) || status.Running? || status.Succeeded?) {
          return Duplicate;
        }
      }
      var run := NewRun(nextRunId, intent, requestId, now);
      runs := runs[run.runId := run];
      nextRunId := nextRunId + 1;
      result := Created(run);
    }

    method RunningScopes() returns (scopes: set<(string, string)>)
      requires WellFormed(State())
      ensures forall dataset, scope :: (dataset, scope) in scopes <==> ScopeBusy(State(), dataset, scope)
    {
      scopes := {};
      for id := 1 to nextRunId
        invariant forall dataset, scope :: (dataset, scope) in scopes <==>
                    exists r: nat :: 1 <= r < id && runs[r].status.Running? && runs[r].dataset == dataset && runs[r].scope == scope
      {
        if runs[id].status.Running? {
          scopes := scopes + {(runs[id].dataset, runs[id].scope)};
        }
      }
    }

    method ClaimNext(worker: string, now: int) returns (claimed: Option<JobRun>)
      requires WellFormed(State())
      modifies this
      ensures WellFormed(State())
      ensures claimed.None? ==> State() == old(State())
                                && forall id :: id in old(runs) ==> !Candidate(old(State()), id, now)
      ensures claimed.Some? ==> FirstCandidate(old(State()), claimed.value.runId, now)
                                && State() == Claim(old(State()), claimed.value.runId, worker, now)
                                && claimed.value == runs[claimed.value.runId]
    {
      var busy := RunningScopes();
      var best: Option<nat> := None;
      for id := 1 to nextRunId
        invariant best.None? ==> forall r: nat :: 1 <= r < id ==> !Candidate(State(), r, now)
        invariant best.Some? ==> 1 <= best.value < id && Candidate(State(), best.value, now)
                                 && forall r: nat :: 1 <= r < id && Candidate(State(), r, now) ==> Before(runs[best.value], runs[r])
      {
        var run := runs[id];
        if Claimable(run.status) && run.scheduledAt <= now && (run.dataset, run.scope) !in busy {
          assert Candidate(State(), id, now);
          if best.None? || run.priority < runs[best.value].priority {
            best := Some(id);
          }
        }
      }
      if best.None? {
        return None;
      }
      var run := runs[best.value].(status := Running, startedAt := Some(now), worker := Some(worker));
      runs := runs[best.value := run];
      claimed := Some(run);
    }

    method FinishRun(id: nat, status: JobStatus, rows: Option<nat>, error: Option<string>,
                     attempt: Option<nat>, scheduledAt: Option<int>, now: int) returns (run: JobRun)
      requires WellFormed(State()) && id in runs
      modifies this
      ensures WellFormed(State())
      ensures State() == Finish(old(State()), id, status, rows, error, attempt, scheduledAt, now)
      ensures run == runs[id]
    {
      run := runs[id];
      if !run.status.Running? {
        return;
      }
      run := run.(status := status, rowsWritten := rows, error := error,
                  finishedAt := if status.Retrying? then None else Some(now));
      if attempt.Some? {
        run := run.(attempt := attempt.value);
      }
      if scheduledAt.Some? {
        run := run.(scheduledAt := scheduledAt.value);
      }
      runs := runs[id := run];
    }

    method SucceedRun(id: nat, rows: nat, now: int) returns (run: JobRun)
      requires WellFormed(State()) && id in runs
      modifies this
      ensures WellFormed(State()) && State() == Succeed(old(State()), id, rows, now) && run == runs[id]
    {
      run := FinishRun(id, Succeeded, Some(rows), None, None, None, now);
    }

    method FailRun(id: nat, error: string, now: int) returns (run: JobRun)
      requires WellFormed(State()) && id in runs
      modifies this
      ensures WellFormed(State()) && State() == Fail(old(State()), id, error, now) && run == runs[id]
    {
      run := runs[id];
      if run.attempt < run.maxAttempts {
        run := FinishRun(id, Retrying, None, Some(error), Some(run.attempt + 1), Some(now + Backoff(run.attempt)), now);
      } else {
        run := FinishRun(id, Dead, None, Some(error), None, None, now);
      }
    }

    method InterruptRun(id: nat, reason: string, now: int) returns (run: JobRun)
      requires WellFormed(State()) && id in runs
      modifies this
      ensures WellFormed(State()) && State() == Interrupt(old(State()), id, reason, now) && run == runs[id]
    {
      run := FinishRun(id, Interrupted, None, Some(reason), None, None, now);
    }

    /** Returns how many runs were reclaimed from the stopped pool. */
    method InterruptAll(prefix: string, now: int) returns (count: nat)
      requires WellFormed(State())
      modifies this
      ensures WellFormed(State())
      ensures State() == InterruptRunning(old(State()), prefix, now)
      ensures count == |StuckBelow(old(State()), prefix, old(nextRunId))|
    {
      count := 0;
      ghost var was := State();
      ReclaimNone(was, prefix, now);
      for id := 1 to nextRunId
        invariant State() == ReclaimedBelow(was, prefix, now, id) && WellFormed(State())
        invariant count == |StuckBelow(was, prefix, id)|
      {
        ReclaimOne(was, prefix, now, id);
        StuckOne(was, prefix, id);
        if StuckUnder(runs[id], prefix) {
          var _ := FinishRun(id, Interrupted, None, Some(STOP_TIMEOUT), None, None, now);
          count := count + 1;
        }
      }
      ReclaimEvery(was, prefix, now);
    }

    method CountQueued() returns (count: nat)
      requires WellFormed(State())
      ensures count == |QueuedIds(State())|
    {
      count := 0;
      ghost var seen: set<nat> := {};
      for id := 1 to nextRunId
        invariant seen == set r | r in runs && r < id && Claimable(runs[r].status)
        invariant count == |seen|
      {
        if Claimable(runs[id].status) {
          count := count + 1;
          seen := seen + {id};
        }
      }
      assert seen == QueuedIds(State());
    }

    method Ready(child: string, scope: string, windowStart: Option<int>, windowEnd: Option<int>) returns (ready: bool)
      requires WellFormed(State())
      ensures ready == ParentsReady(State(), child, scope, windowStart, windowEnd)
    {
      for i := 0 to |deps|
        invariant forall j :: 0 <= j < i && deps[j].child == child ==>
                    GateMet(State(), deps[j], scope, windowStart, windowEnd, nextRunId)
      {
        if deps[i].child == child {
          var met := false;
          for id := 1 to nextRunId
            invariant met == exists r: nat :: 1 <= r < id && Matches(runs[r], deps[i].parent, scope, windowStart, windowEnd)
                                              && Meets(runs[r].status, deps[i].condition)
          {
            met := met || (Matches(runs[id], deps[i].parent, scope, windowStart, windowEnd)
                           && Meets(runs[id].status, deps[i].condition));
          }
          if !met {
            return false;
          }
        }
      }
      ready := true;
    }

    method AdvanceWatermark(dataset: string, scope: string, time: int) returns (mark: int)
      modifies this
      ensures State() == Advance(old(State()), dataset, scope, time)
      ensures MarkOf(State(), dataset, scope) == Some(mark) && mark >= time
      ensures MarkOf(old(State()), dataset, scope).Some? ==> mark >= MarkOf(old(State()), dataset, scope).value
    {
      if (dataset, scope) in marks && marks[(dataset, scope)].Some? && marks[(dataset, scope)].value >= time {
        return marks[(dataset, scope)].value;
      }
      marks := marks[(dataset, scope) := Some(time)];
      mark := time;
    }
  }
}
