/**
  What every repository call keeps, whoever makes it and in whatever order: run states move only
  along the state machine, scopes are exclusive, keys are idempotent and attempts stay in budget.
 */
module RunLaws {
  import opened Options
  import opened Models
  import opened RunStore

  /** The calls of the scheduler, dispatcher, workers and stop procedure; each is one atomic step. */
  datatype Call =
    | CreateCall(intent: JobIntent, requestId: Option<string>, now: int)
    | ClaimCall(id: nat, worker: string, now: int)
    | SucceedCall(id: nat, rows: nat, now: int)
    | FailCall(id: nat, error: string, now: int)
    | InterruptCall(id: nat, reason: string, now: int)
    | InterruptRunningCall(prefix: string, now: int)
    | AdvanceCall(dataset: string, scope: string, time: int)

  ghost predicate Allowed(st: RepoState, call: Call) {
    match call
    case ClaimCall(id, _, now) => FirstCandidate(st, id, now)
    case SucceedCall(id, _, _) => id in st.runs
    case FailCall(id, _, _) => id in st.runs
    case InterruptCall(id, _, _) => id in st.runs
    case _ => true
  }

  ghost function After(st: RepoState, call: Call): RepoState
    requires Allowed(st, call)
  {
    match call
    case CreateCall(intent, requestId, now) => CreateRun(st, intent, requestId, now).0
    case ClaimCall(id, worker, now) => Claim(st, id, worker, now)
    case SucceedCall(id, rows, now) => Succeed(st, id, rows, now)
    case FailCall(id, error, now) => Fail(st, id, error, now)
    case InterruptCall(id, reason, now) => Interrupt(st, id, reason, now)
    case InterruptRunningCall(prefix, now) => InterruptRunning(st, prefix, now)
    case AdvanceCall(dataset, scope, time) => Advance(st, dataset, scope, time)
  }

  // ---------------------------------------------------------------- the state machine of one run

  /** What identifies a run and says what it is to do never changes. */
  predicate SameJob(a: JobRun, b: JobRun) {
    && a.runId == b.runId && a.key == b.key && a.jobId == b.jobId && a.kind == b.kind
    && a.dataset == b.dataset && a.scope == b.scope && a.maxAttempts == b.maxAttempts
    && a.priority == b.priority && a.windowStart == b.windowStart && a.windowEnd == b.windowEnd
    && a.version == b.version && a.requestId == b.requestId
  }

  predicate ClaimedFrom(before: JobRun, now: JobRun) {
    Claimable(before.status) && now.status.Running? && now.attempt == before.attempt
  }

  predicate FinishedFrom(before: JobRun, now: JobRun) {
    && before.status.Running?
    && ( || (now.status.Succeeded? && now.attempt == before.attempt)
         || (now.status.Interrupted? && now.attempt == before.attempt)
         || (now.status.Dead? && now.attempt == before.attempt && before.attempt >= before.maxAttempts)
         || (now.status.Retrying? && now.attempt == before.attempt + 1 && before.attempt < before.maxAttempts))
  }

  predicate Moves(before: JobRun, now: JobRun) {
    before == now || (SameJob(before, now) && (ClaimedFrom(before, now) || FinishedFrom(before, now)))
  }

  /** All runs stay, each along its state machine; ids are handed out in order. */
  ghost predicate Evolves(st: RepoState, st': RepoState) {
    && st'.deps == st.deps
    && st.nextRunId <= st'.nextRunId
    && (forall id :: id in st.runs ==> id in st'.runs && Moves(st.runs[id], st'.runs[id]))
    && (forall id :: id in st'.runs && id !in st.runs ==> id >= st.nextRunId)
  }

  lemma UpdateEvolves(st: RepoState, id: nat, run: JobRun)
    requires WellFormed(st) && id in st.runs && Moves(st.runs[id], run)
    ensures var st' := st.(runs := st.runs[id := run]); Evolves(st, st') && WellFormed(st')
  {
  }

  lemma FinishEvolves(st: RepoState, id: nat, status: JobStatus, rows: Option<nat>, error: Option<string>,
                      attempt: Option<nat>, scheduledAt: Option<int>, now: int)
    requires WellFormed(st) && id in st.runs
    requires st.runs[id].status.Running? ==>
               FinishedFrom(st.runs[id], Finished(st.runs[id], status, rows, error, attempt, scheduledAt, now))
    ensures var st' := Finish(st, id, status, rows, error, attempt, scheduledAt, now);
            Evolves(st, st') && WellFormed(st')
  {
    if st.runs[id].status.Running? {
      UpdateEvolves(st, id, Finished(st.runs[id], status, rows, error, attempt, scheduledAt, now));
    }
  }

  lemma CreateEvolves(st: RepoState, intent: JobIntent, requestId: Option<string>, now: int)
    requires WellFormed(st)
    ensures var st' := CreateRun(st, intent, requestId, now).0; Evolves(st, st') && WellFormed(st')
  {
  }

  lemma ReclaimEvolves(st: RepoState, prefix: string, now: int)
    requires WellFormed(st)
    ensures var st' := InterruptRunning(st, prefix, now); Evolves(st, st') && WellFormed(st')
  {
    var st' := InterruptRunning(st, prefix, now);
    forall id | id in st.runs
      ensures Moves(st.runs[id], st'.runs[id])
    {
    }
  }

  lemma FailEvolves(st: RepoState, id: nat, error: string, now: int)
    requires WellFormed(st) && id in st.runs
    ensures Evolves(st, Fail(st, id, error, now)) && WellFormed(Fail(st, id, error, now))
  {
    var run := st.runs[id];
    if run.attempt < run.maxAttempts {
      FinishEvolves(st, id, Retrying, None, Some(error), Some(run.attempt + 1), Some(now + Backoff(run.attempt)), now);
    } else {
      FinishEvolves(st, id, Dead, None, Some(error), None, None, now);
    }
  }

  lemma ClaimEvolves(st: RepoState, id: nat, worker: string, now: int)
    requires WellFormed(st) && id in st.runs && Claimable(st.runs[id].status)
    ensures Evolves(st, Claim(st, id, worker, now)) && WellFormed(Claim(st, id, worker, now))
  {
    UpdateEvolves(st, id, st.runs[id].(status := Running, startedAt := Some(now), worker := Some(worker)));
  }

  lemma AdvanceEvolves(st: RepoState, dataset: string, scope: string, time: int)
    requires WellFormed(st)
    ensures Evolves(st, Advance(st, dataset, scope, time)) && WellFormed(Advance(st, dataset, scope, time))
  {
  }

  lemma EveryCallEvolves(st: RepoState, call: Call)
    requires WellFormed(st) && Allowed(st, call)
    ensures Evolves(st, After(st, call)) && WellFormed(After(st, call))
  {
    match call
    case CreateCall(intent, requestId, now) => CreateEvolves(st, intent, requestId, now);
    case ClaimCall(id, worker, now) => ClaimEvolves(st, id, worker, now);
    case SucceedCall(id, rows, now) => FinishEvolves(st, id, Succeeded, Some(rows), None, None, None, now);
    case FailCall(id, error, now) => FailEvolves(st, id, error, now);
    case InterruptCall(id, reason, now) => FinishEvolves(st, id, Interrupted, None, Some(reason), None, None, now);
    case InterruptRunningCall(prefix, now) => ReclaimEvolves(st, prefix, now);
    case AdvanceCall(dataset, scope, time) => AdvanceEvolves(st, dataset, scope, time);
  }

  /** A run that left the running state for good keeps its whole record under every later call. */
  lemma SettledRunsKeepTheirRecord(st: RepoState, call: Call, id: nat)
    requires WellFormed(st) && Allowed(st, call) && id in st.runs
    requires !st.runs[id].status.Running? && !Claimable(st.runs[id].status)
    ensures After(st, call).runs[id] == st.runs[id]
  {
    EveryCallEvolves(st, call);
  }

  /** A late report about a run that is not running, queued and retrying runs included, changes nothing at all. */
  lemma LateCallsChangeNothing(st: RepoState, call: Call)
    requires WellFormed(st) && Allowed(st, call)
    requires call.SucceedCall? || call.FailCall? || call.InterruptCall?
    ensures !st.runs[call.id].status.Running? <==> After(st, call) == st
  {
    if st.runs[call.id].status.Running? {
      assert After(st, call).runs[call.id].status != st.runs[call.id].status;
    }
  }

  // ---------------------------------------------------------------- invariants of the table

  ghost predicate ScopeExclusive(st: RepoState) {
    forall i, j | i in st.runs && j in st.runs && st.runs[i].status.Running? && st.runs[j].status.Running? ::
      st.runs[i].dataset == st.runs[j].dataset && st.runs[i].scope == st.runs[j].scope ==> i == j
  }

  /** Only the newest run of a key may be live or succeeded. */
  ghost predicate OneLivePerKey(st: RepoState) {
    forall i, j :: i in st.runs && j in st.runs && i < j && st.runs[i].key == st.runs[j].key ==>
                     !Blocking(st.runs[i].status)
  }

  function Budget(run: JobRun): int {
    if run.maxAttempts < 1 then 1 else run.maxAttempts
  }

  ghost predicate AttemptsInBudget(st: RepoState) {
    forall id :: id in st.runs ==> 1 <= st.runs[id].attempt <= Budget(st.runs[id])
  }

  ghost predicate TableInv(st: RepoState) {
    WellFormed(st) && ScopeExclusive(st) && OneLivePerKey(st) && AttemptsInBudget(st)
  }

  lemma EmptyTable(deps: seq<JobDependency>, marks: map<(string, string), Option<int>>)
    ensures TableInv(RepoState(map[], deps, marks, 1))
  {
  }

  lemma CreateKeepsTable(st: RepoState, intent: JobIntent, requestId: Option<string>, now: int)
    requires TableInv(st)
    ensures TableInv(CreateRun(st, intent, requestId, now).0)
  {
    var st' := CreateRun(st, intent, requestId, now).0;
    if st' != st {
      forall i, j | i in st'.runs && j in st'.runs && i < j && st'.runs[i].key == st'.runs[j].key
        ensures !Blocking(st'.runs[i].status)
      {
        if j == st.nextRunId {
          assert i in st.runs && !KeyTaken(st, st.runs[i].key);
        }
      }
    }
  }

  lemma ClaimKeepsTable(st: RepoState, id: nat, worker: string, now: int)
    requires TableInv(st) && FirstCandidate(st, id, now)
    ensures TableInv(Claim(st, id, worker, now))
  {
    assert !ScopeBusy(st, st.runs[id].dataset, st.runs[id].scope);
  }

  /** A step that creates and claims nothing cannot break the table. */
  lemma LeavingKeepsTable(st: RepoState, st': RepoState)
    requires TableInv(st) && WellFormed(st') && Evolves(st, st') && st'.runs.Keys == st.runs.Keys
    requires forall id :: id in st.runs && st'.runs[id].status.Running? ==> st'.runs[id] == st.runs[id]
    ensures TableInv(st')
  {
    forall id | id in st.runs
      ensures Moves(st.runs[id], st'.runs[id])
      ensures 1 <= st'.runs[id].attempt <= Budget(st'.runs[id])
      ensures Blocking(st'.runs[id].status) ==> Blocking(st.runs[id].status)
      ensures st'.runs[id].key == st.runs[id].key
    {
    }
    assert OneLivePerKey(st');
    assert ScopeExclusive(st');
  }

  /** Reports, interrupts and watermarks create and claim nothing. */
  lemma LeavingCalls(st: RepoState, call: Call)
    requires WellFormed(st) && Allowed(st, call) && !call.CreateCall? && !call.ClaimCall?
    ensures After(st, call).runs.Keys == st.runs.Keys
    ensures forall id :: id in st.runs && After(st, call).runs[id].status.Running? ==> After(st, call).runs[id] == st.runs[id]
  {
  }

  lemma LeavingCallKeepsTable(st: RepoState, call: Call)
    requires TableInv(st) && Allowed(st, call) && !call.CreateCall? && !call.ClaimCall?
    ensures TableInv(After(st, call))
  {
    LeavingCalls(st, call);
    EveryCallEvolves(st, call);
    LeavingKeepsTable(st, After(st, call));
  }

  lemma EveryCallKeepsTable(st: RepoState, call: Call)
    requires TableInv(st) && Allowed(st, call)
    ensures TableInv(After(st, call))
  {
    if call.CreateCall? {
      CreateKeepsTable(st, call.intent, call.requestId, call.now);
    } else if call.ClaimCall? {
      ClaimKeepsTable(st, call.id, call.worker, call.now);
    } else {
      LeavingCallKeepsTable(st, call);
    }
  }

  /** Only a claim makes a run running, and only a creation adds a run. */
  lemma OnlyClaimStarts(st: RepoState, call: Call)
    requires WellFormed(st) && Allowed(st, call) && !call.ClaimCall?
    ensures forall id :: id in After(st, call).runs && After(st, call).runs[id].status.Running? ==>
                           id in st.runs && After(st, call).runs[id] == st.runs[id]
    ensures !call.CreateCall? ==> After(st, call).runs.Keys == st.runs.Keys
  {
  }

  /** What the invariant says of one key: at most one live or succeeded run, and none after a success. */
  lemma KeyIsIdempotent(st: RepoState, i: nat, j: nat)
    requires TableInv(st) && i in st.runs && j in st.runs && st.runs[i].key == st.runs[j].key
    ensures Blocking(st.runs[i].status) && Blocking(st.runs[j].status) ==> i == j
    ensures st.runs[i].status.Succeeded? ==> j <= i
  {
    if i < j {
      assert !Blocking(st.runs[i].status);
    } else if j < i {
      assert !Blocking(st.runs[j].status);
    }
  }

  /** Creation is refused exactly when the key is malformed or a live or succeeded run has it. */
  lemma CreationIsIdempotent(st: RepoState, intent: JobIntent, requestId: Option<string>, now: int)
    requires TableInv(st)
    ensures var result := CreateRun(st, intent, requestId, now).1;
            && (result.BadKey? <==> !KeyAccepted(intent))
            && (result.Duplicate? ==> CreateRun(st, intent, requestId, now).0 == st)
            && (result.Created? ==> KeyAccepted(intent) && !KeyTaken(st, KeyOf(intent)))
    ensures CreateRun(st, intent, requestId, now).1.Created? ==>
              forall again, later ::
                CreateRun(CreateRun(st, intent, requestId, now).0, intent, again, later).1 == Duplicate
  {
    var (st', result) := CreateRun(st, intent, requestId, now);
    if result.Created? {
      assert st'.runs[st.nextRunId].key == KeyOf(intent) && Blocking(st'.runs[st.nextRunId].status);
      assert KeyTaken(st', KeyOf(intent));
    }
  }

  // ---------------------------------------------------------------- the dependency gate is stable

  lemma GateStays(st: RepoState, st': RepoState, dep: JobDependency, scope: string,
                  windowStart: Option<int>, windowEnd: Option<int>, bound: nat)
    requires Evolves(st, st') && GateMet(st, dep, scope, windowStart, windowEnd, bound)
    ensures GateMet(st', dep, scope, windowStart, windowEnd, bound)
  {
    var id :| id in st.runs && id < bound
              && Matches(st.runs[id], dep.parent, scope, windowStart, windowEnd)
              && Meets(st.runs[id].status, dep.condition);
    assert Moves(st.runs[id], st'.runs[id]);
  }

  /** Once the parents are ready they stay ready, which makes check-then-create safe. */
  lemma ReadyStays(st: RepoState, st': RepoState, child: string, scope: string,
                   windowStart: Option<int>, windowEnd: Option<int>)
    requires Evolves(st, st') && ParentsReady(st, child, scope, windowStart, windowEnd)
    ensures ParentsReady(st', child, scope, windowStart, windowEnd)
  {
    forall dep | dep in st'.deps && dep.child == child
      ensures GateMet(st', dep, scope, windowStart, windowEnd, st'.nextRunId)
    {
      GateStays(st, st', dep, scope, windowStart, windowEnd, st.nextRunId);
    }
  }

  // ---------------------------------------------------------------- remaining attempts

  /** Attempts a claimable run has left, the current one included. */
  function Left(run: JobRun): int {
    if Claimable(run.status) then Budget(run) - run.attempt + 1 else 0
  }

  function LeftBelow(runs: map<nat, JobRun>, bound: nat): int {
    if bound == 0 then 0
    else LeftBelow(runs, bound - 1) + (if bound - 1 in runs then Left(runs[bound - 1]) else 0)
  }

  function AttemptsLeft(st: RepoState): int {
    LeftBelow(st.runs, st.nextRunId)
  }

  lemma {:induction false} LeftAfterUpdate(runs: map<nat, JobRun>, id: nat, run: JobRun, bound: nat)
    requires id in runs
    ensures LeftBelow(runs[id := run], bound) ==
            LeftBelow(runs, bound) + (if id < bound then Left(run) - Left(runs[id]) else 0)
  {
    if bound > 0 {
      LeftAfterUpdate(runs, id, run, bound - 1);
    }
  }

  lemma {:induction false} LeftIsNatural(st: RepoState, bound: nat)
    requires AttemptsInBudget(st)
    ensures LeftBelow(st.runs, bound) >= 0
  {
    if bound > 0 {
      LeftIsNatural(st, bound - 1);
    }
  }

  /** One claimed and finished execution uses up at least one of the attempts left. */
  lemma ExecutionUsesAttempt(st: RepoState, id: nat, worker: string, now: int, finish: Call)
    requires TableInv(st) && FirstCandidate(st, id, now)
    requires (finish.SucceedCall? || finish.FailCall?) && finish.id == id
    ensures Allowed(Claim(st, id, worker, now), finish)
    ensures 0 <= AttemptsLeft(After(Claim(st, id, worker, now), finish)) < AttemptsLeft(st)
  {
    var mid := Claim(st, id, worker, now);
    var end := After(mid, finish);
    ClaimKeepsTable(st, id, worker, now);
    EveryCallKeepsTable(mid, finish);
    LeftAfterUpdate(st.runs, id, mid.runs[id], st.nextRunId);
    LeftAfterUpdate(mid.runs, id, end.runs[id], st.nextRunId);
    LeftIsNatural(end, end.nextRunId);
  }
}
