/**
  The layered cache's single flight across processes: one key, a reliable L2 and any number of
  processes, each between its second lookup and giving its lock back.  A step is one L2 call, one
  reading of the clock, or the passing of time.  A process is its own lock token.
 */
module CrossProcess {
  import opened Executions
  import L = LeaseLocks

  type Process = L.Token

  /** What entitles a process to load: a lease, or a wait that is over. */
  datatype License = Leased(until: int) | WaitOver(deadline: int)

  datatype Pc = Out | Missed | Waiting(deadline: int) | Loading(license: License) | Loaded(license: License)

  /** `stored` says that L2 holds the value; nothing removes it. */
  datatype State = State(time: int, stored: bool, leases: L.Leases, pcs: Process -> Pc)

  datatype Limits = Limits(lock: L.Key, ttl: int, wait: int)

  datatype Step =
    | Pass(to: int)
    | Look(p: Process)
    | Acquire(p: Process)
    | Poll(p: Process)
    | GiveUpWaiting(p: Process)
    | Store(p: Process, kept: bool)   // a value that cannot be written is not kept
    | Release(p: Process)

  predicate LeaseLive(limits: Limits, s: State) {
    L.Leased(s.leases, limits.lock, s.time)
  }

  predicate Enabled(s: State, step: Step) {
    match step
    case Pass(to) => s.time <= to
    case Look(p) => s.pcs(p).Out?
    case Acquire(p) => s.pcs(p).Missed?
    case Poll(p) => s.pcs(p).Waiting?
    case GiveUpWaiting(p) => s.pcs(p).Waiting? && s.pcs(p).deadline <= s.time
    case Store(p, _) => s.pcs(p).Loading?
    case Release(p) => s.pcs(p).Loaded?
  }

  function PcAfter(limits: Limits, s: State, step: Step): Pc
    requires Enabled(s, step) && !step.Pass?
  {
    match step
    case Look(p) => if s.stored then Out else Missed
    case Acquire(p) =>
      if LeaseLive(limits, s) then Waiting(s.time + limits.wait) else Loading(Leased(s.time + limits.ttl))
    case Poll(p) => if s.stored then Out else s.pcs(p)
    case GiveUpWaiting(p) => Loading(WaitOver(s.pcs(p).deadline))
    case Store(p, _) => Loaded(s.pcs(p).license)
    case Release(p) => Out
  }

  /** Only a lock that was acquired is given back. */
  function LeasesAfter(limits: Limits, s: State, step: Step): L.Leases
    requires Enabled(s, step)
  {
    if step.Acquire? then L.Taken(s.leases, limits.lock, step.p, limits.ttl, s.time)
    else if step.Release? && s.pcs(step.p).license.Leased? then L.Given(s.leases, limits.lock, step.p)
    else s.leases
  }

  function After(limits: Limits, s: State, step: Step): State
    requires Enabled(s, step)
  {
    State(if step.Pass? then step.to else s.time,
          s.stored || (step.Store? && step.kept),
          LeasesAfter(limits, s, step),
          if step.Pass? then s.pcs else (q: Process) => if q == step.p then PcAfter(limits, s, step) else s.pcs(q))
  }

  ghost predicate Next(limits: Limits, s: State, step: Step, s': State) {
    Enabled(s, step) && s' == After(limits, s, step)
  }

  /** The steps lead from each state to the next. */
  ghost predicate Runs(limits: Limits, states: seq<State>, steps: seq<Step>) {
    Follows((s, step, s') => Next(limits, s, step, s'), states, steps)
  }

  ghost predicate IsRun(limits: Limits, states: seq<State>, steps: seq<Step>) {
    Runs(limits, states, steps) && states[0] == State(states[0].time, false, map[], (p: Process) => Out)
  }

  // ---------------------------------------------------------------- who may load at the same time

  predicate AtWork(pc: Pc) {
    pc.Loading? || pc.Loaded?
  }

  /** A lease that has not run out is the one L2 knows; a wait that ended has ended. */
  predicate LicenseHolds(limits: Limits, s: State, p: Process) {
    AtWork(s.pcs(p)) ==>
      match s.pcs(p).license
      case Leased(until) => s.time < until ==> limits.lock in s.leases && s.leases[limits.lock] == L.Lease(p, until)
      case WaitOver(deadline) => deadline <= s.time
  }

  ghost predicate Licensed(limits: Limits, s: State) {
    forall p :: LicenseHolds(limits, s, p)
  }

  lemma LicensedAfterStep(limits: Limits, s: State, step: Step)
    requires Licensed(limits, s) && Enabled(s, step)
    ensures Licensed(limits, After(limits, s, step))
  {
    var s' := After(limits, s, step);
    forall p
      ensures LicenseHolds(limits, s', p)
    {
      assert LicenseHolds(limits, s, p);
      if !step.Pass? {
        assert LicenseHolds(limits, s, step.p);
      }
    }
  }

  lemma LicensedOverRuns(limits: Limits, states: seq<State>, steps: seq<Step>, k: nat)
    requires IsRun(limits, states, steps) && k <= |steps|
    ensures Licensed(limits, states[k])
  {
    forall s, step, s' | Licensed(limits, s) && Next(limits, s, step, s')
      ensures Licensed(limits, s')
    {
      LicensedAfterStep(limits, s, step);
    }
    Invariance(s => Licensed(limits, s), (s, step, s') => Next(limits, s, step, s'), states, steps, k);
  }

  /** The process has used up what entitles it: its lease has run out, or it loads because its wait was over. */
  predicate Overdue(s: State, p: Process)
    requires AtWork(s.pcs(p))
  {
    s.pcs(p).license.WaitOver? || s.pcs(p).license.until <= s.time
  }

  /** Two processes load at the same time only when a lease has run out or a wait was over. */
  lemma LoadersOverlapOnlyOverdue(limits: Limits, states: seq<State>, steps: seq<Step>, k: nat, p: Process, q: Process)
    requires IsRun(limits, states, steps) && k <= |steps| && p != q
    requires AtWork(states[k].pcs(p)) && AtWork(states[k].pcs(q))
    ensures Overdue(states[k], p) || Overdue(states[k], q)
  {
    LicensedOverRuns(limits, states, steps, k);
    assert LicenseHolds(limits, states[k], p) && LicenseHolds(limits, states[k], q);
  }

  /** A second loader starts beside a first that is within its lease exactly by giving up its wait. */
  lemma StartsBesideExactlyByGivingUp(limits: Limits, states: seq<State>, steps: seq<Step>, k: nat, p: Process, q: Process)
    requires IsRun(limits, states, steps) && k < |steps| && p != q
    requires AtWork(states[k].pcs(p)) && !Overdue(states[k], p) && !AtWork(states[k].pcs(q))
    ensures AtWork(states[k + 1].pcs(q)) <==> steps[k] == GiveUpWaiting(q)
  {
    LicensedOverRuns(limits, states, steps, k);
    assert LicenseHolds(limits, states[k], p);
    assert Next(limits, states[k], steps[k], states[k + 1]);
  }

  // ---------------------------------------------------------------- how long a process waits

  /** A process that waits was refused by a live lease, and its deadline is that moment plus the time to wait. */
  lemma {:induction false} WaitsSince(limits: Limits, states: seq<State>, steps: seq<Step>, k: nat, p: Process) returns (i: nat)
    requires IsRun(limits, states, steps) && k <= |steps| && states[k].pcs(p).Waiting?
    ensures i < k && steps[i] == Acquire(p) && states[k].pcs(p).deadline == states[i].time + limits.wait
    ensures limits.lock in states[i].leases && states[i].time < states[i].leases[limits.lock].until
  {
    assert k > 0;
    assert Next(limits, states[k - 1], steps[k - 1], states[k - 1 + 1]);
    if steps[k - 1] == Acquire(p) {
      i := k - 1;
    } else {
      i := WaitsSince(limits, states, steps, k - 1, p);
    }
  }

  /** A process loads without the lock only when a live lease refused it and the whole time to wait has passed since. */
  lemma GivesUpAfterItsWait(limits: Limits, states: seq<State>, steps: seq<Step>, k: nat, p: Process) returns (i: nat)
    requires IsRun(limits, states, steps) && k < |steps| && steps[k] == GiveUpWaiting(p)
    ensures i < k && steps[i] == Acquire(p) && states[i].time + limits.wait <= states[k].time
    ensures limits.lock in states[i].leases && states[i].time < states[i].leases[limits.lock].until
  {
    assert Next(limits, states[k], steps[k], states[k + 1]);
    i := WaitsSince(limits, states, steps, k, p);
  }

  /** A waiting process that polls leaves without loading exactly when the value is stored. */
  lemma PollsUntilStored(limits: Limits, states: seq<State>, steps: seq<Step>, k: nat, p: Process)
    requires Runs(limits, states, steps) && k < |steps| && steps[k] == Poll(p)
    ensures if states[k].stored then states[k + 1].pcs(p) == Out else states[k + 1].pcs(p) == states[k].pcs(p)
    ensures states[k].pcs(p).Waiting?
  {
    assert Next(limits, states[k], steps[k], states[k + 1]);
  }

  // ---------------------------------------------------------------- loads after the value is stored

  /** Once the value is stored, a process that was outside then never loads. */
  lemma {:induction false} LateComersNeverLoad(limits: Limits, states: seq<State>, steps: seq<Step>, j: nat, k: nat, p: Process)
    requires Runs(limits, states, steps) && j <= k <= |steps|
    requires states[j].stored && states[j].pcs(p).Out?
    ensures states[k].stored && states[k].pcs(p).Out?
  {
    if j < k {
      LateComersNeverLoad(limits, states, steps, j, k - 1, p);
      assert Next(limits, states[k - 1], steps[k - 1], states[k - 1 + 1]);
    }
  }

  /** However the run goes on from here, the process does not load. */
  ghost predicate NeverLoads(limits: Limits, s: State, p: Process) {
    forall states: seq<State>, steps: seq<Step>, k: nat ::
      Runs(limits, states, steps) && states[0] == s && k <= |steps| ==> !AtWork(states[k].pcs(p))
  }

  /** Let the time pass that a process still has to wait, if any, and it loads. */
  lemma InsidersMayLoad(limits: Limits, s: State, p: Process) returns (states: seq<State>, steps: seq<Step>)
    requires s.pcs(p).Missed? || s.pcs(p).Waiting?
    ensures Runs(limits, states, steps) && states[0] == s && |steps| == 2 && AtWork(states[2].pcs(p))
  {
    var free := if s.pcs(p).Waiting? then s.pcs(p).deadline
                else if limits.lock in s.leases then s.leases[limits.lock].until else s.time;
    var pass := Pass(if free > s.time then free else s.time);
    var start := if s.pcs(p).Missed? then Acquire(p) else GiveUpWaiting(p);
    var later := After(limits, s, pass);
    states, steps := [s, later, After(limits, later, start)], [pass, start];
  }

  /** After the value is stored, a process that is not loading yet never will exactly when it is outside. */
  lemma NeverLoadsExactlyWhenOutside(limits: Limits, s: State, p: Process)
    requires s.stored && !AtWork(s.pcs(p))
    ensures NeverLoads(limits, s, p) <==> s.pcs(p).Out?
  {
    if s.pcs(p).Out? {
      forall states: seq<State>, steps: seq<Step>, k: nat | Runs(limits, states, steps) && states[0] == s && k <= |steps|
        ensures !AtWork(states[k].pcs(p))
      {
        LateComersNeverLoad(limits, states, steps, 0, k, p);
      }
    } else {
      var states, steps := InsidersMayLoad(limits, s, p);
      assert AtWork(states[2].pcs(p));
    }
  }

  /**
    The lookup is not repeated once the lock is held, so a process whose last lookup missed still loads
    after another has stored the value and given the lock back, though it never waited and no lease ran out.
   */
  lemma SecondLoadWithoutWaiting(limits: Limits, p: Process, q: Process) returns (states: seq<State>, steps: seq<Step>)
    requires p != q && limits.ttl > 0
    ensures IsRun(limits, states, steps) && steps == [Look(p), Look(q), Acquire(p), Store(p, true), Release(p), Acquire(q)]
    ensures states[5].stored && states[6].pcs(q).Loading? && !Overdue(states[6], q)
    ensures forall k :: 0 <= k <= 6 ==> !states[k].pcs(q).Waiting? && states[k].time == states[0].time
  {
    var s0 := State(0, false, map[], (x: Process) => Out);
    var s1 := After(limits, s0, Look(p));
    var s2 := After(limits, s1, Look(q));
    var s3 := After(limits, s2, Acquire(p));
    var s4 := After(limits, s3, Store(p, true));
    var s5 := After(limits, s4, Release(p));
    assert limits.lock !in s5.leases && s5.pcs(q).Missed? && s5.stored;
    var s6 := After(limits, s5, Acquire(q));
    steps := [Look(p), Look(q), Acquire(p), Store(p, true), Release(p), Acquire(q)];
    states := [s0, s1, s2, s3, s4, s5, s6];
  }
}
