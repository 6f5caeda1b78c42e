/**
  Domain generations: a counter in each layer, read as the larger of the two.  A cache key holds the
  generation it was built under, so raising the counter makes every earlier key unreachable.
 */
module Generations {
  import opened Options
  import opened Executions

  // ---------------------------------------------------------------- keys

  datatype Pit = AsOf(text: string) | KnowledgeTime(text: string)

  /** The cache key as the tuple that its text encodes. */
  datatype CacheKey = CacheKey(domain: string, panel: string, generation: nat, pit: Pit, params: string)

  datatype KeyResult = Built(key: CacheKey) | Refused(error: string)

  datatype KeyRequest = KeyRequest(
    domain: string, panel: string, asOf: Option<string>, knowledgeTime: Option<string>, params: string)

  /** A key needs a domain, a panel and exactly one of the two time axes. */
  function BuildKey(request: KeyRequest, generation: nat): KeyResult {
    if request.domain == "" || request.panel == "" then Refused("domain / panel")
    else if request.asOf.Some? && request.knowledgeTime.Some? then Refused("both axes")
    else if request.asOf.Some? then
      Built(CacheKey(request.domain, request.panel, generation, AsOf(request.asOf.value), request.params))
    else if request.knowledgeTime.Some? then
      Built(CacheKey(request.domain, request.panel, generation, KnowledgeTime(request.knowledgeTime.value), request.params))
    else Refused("no axis")
  }

  // ---------------------------------------------------------------- one process, any failures of L2

  /** A call on L2 that raises may still have changed the counter. */
  datatype Fault = Fine | Raises | LandsAndRaises

  datatype Counters = Counters(l1: nat, l2: Option<nat>)

  function Max(a: nat, b: nat): nat { if a > b then a else b }

  /** A layer that cannot be read counts as nothing. */
  function Generation(c: Counters, readable: bool): nat {
    if c.l2.Some? && readable then Max(c.l1, c.l2.value) else c.l1
  }

  /** The faults of one bump: of the increment of L2, of the write to L2, of the write to L1. */
  datatype BumpFaults = BumpFaults(incr: Fault, setL2: Fault, setL1: Fault)

  function Incremented(c: Counters, fault: Fault): Counters
    requires c.l2.Some?
  {
    if fault.Raises? then c else c.(l2 := Some(c.l2.value + 1))
  }

  function Bumped(c: Counters, faults: BumpFaults): (Counters, nat) {
    var local := c.l1 + 1;
    if c.l2.None? then (Counters(local, None), local)
    else
      var next := Incremented(c, faults.incr).(l1 := local);
      var remote := next.l2.value;
      if !faults.incr.Fine? then (next, local)
      else if local > remote then (if faults.setL2.Raises? then next else next.(l2 := Some(local)), local)
      else if remote > local then (if faults.setL1.Raises? then next else next.(l1 := remote), remote)
      else (next, local)
  }

  class DomainCounter {
    var l1: nat
    var l2: Option<nat>

    function State(): Counters
      reads this
    {
      Counters(l1, l2)
    }

    constructor (hasL2: bool, remote: nat)
      ensures State() == Counters(0, if hasL2 then Some(remote) else None)
    {
      l1, l2 := 0, if hasL2 then Some(remote) else None;
    }

    method Read(readable: bool) returns (generation: nat)
      ensures generation == Generation(State(), readable)
      ensures generation >= l1 && (l2.Some? && readable ==> generation >= l2.value)
    {
      generation := l1;
      if l2.Some? && readable && l2.value > generation {
        generation := l2.value;
      }
    }

    method Bump(faults: BumpFaults) returns (generation: nat)
      modifies this
      ensures (State(), generation) == Bumped(old(State()), faults)
      ensures generation > old(l1) && l1 > old(l1)
    {
      l1 := l1 + 1;
      var local := l1;
      if l2.None? {
        return local;
      }
      if !faults.incr.Raises? {
        l2 := Some(l2.value + 1);
      }
      if !faults.incr.Fine? {
        return local;
      }
      var remote := l2.value;
      if local > remote {
        if !faults.setL2.Raises? {
          l2 := Some(local);
        }
        return local;
      }
      if remote > local && !faults.setL1.Raises? {
        l1 := remote;
      }
      generation := Max(local, remote);
    }
  }

  function BumpAll(c: Counters, bumps: seq<BumpFaults>): Counters {
    if bumps == [] then c else Bumped(BumpAll(c, bumps[..|bumps| - 1]), bumps[|bumps| - 1]).0
  }

  ghost predicate LocalLeads(c: Counters) {
    c.l2.Some? ==> c.l2.value <= c.l1
  }

  /**
    With one process bumping, L2 never gets ahead of L1, so what is read does not depend on whether L2
    answers, and it is exactly the number of bumps: each is seen, whatever failed.
   */
  lemma {:induction false} OneBumperCounts(c: Counters, bumps: seq<BumpFaults>, readable: bool)
    requires LocalLeads(c)
    ensures LocalLeads(BumpAll(c, bumps))
    ensures Generation(BumpAll(c, bumps), readable) == c.l1 + |bumps|
  {
    if bumps != [] {
      OneBumperCounts(c, bumps[..|bumps| - 1], readable);
    }
  }

  /** No key built before a bump can be built again after it, whatever is asked for. */
  lemma BumpRetiresKeys(
    c: Counters, before: seq<BumpFaults>, bumps: seq<BumpFaults>, readable: bool, readableLater: bool,
    was: KeyRequest, next: KeyRequest)
    requires LocalLeads(c) && before < bumps
    requires BuildKey(was, Generation(BumpAll(c, before), readable)).Built?
    ensures BuildKey(was, Generation(BumpAll(c, before), readable)) != BuildKey(next, Generation(BumpAll(c, bumps), readableLater))
  {
    OneBumperCounts(c, before, readable);
    OneBumperCounts(c, bumps, readableLater);
  }

  /** A process that starts behind L2 is ahead of it again after its first bump that both layers take. */
  lemma FirstGoodBumpCatchesUp(c: Counters, faults: BumpFaults)
    requires c.l2.Some? && faults.incr.Fine?
    ensures LocalLeads(Bumped(c, faults).0) <==> c.l2.value <= c.l1 || !faults.setL1.Raises?
    ensures Bumped(c, faults).1 > c.l1 && Bumped(c, faults).1 > c.l2.value
  {
  }

  /** A bump that nothing disturbs leaves both counters one past the larger of them, and returns that. */
  lemma UndisturbedBump(c: Counters, faults: BumpFaults)
    requires c.l2.Some? && faults == BumpFaults(Fine, Fine, Fine)
    ensures var next := (if c.l1 > c.l2.value then c.l1 else c.l2.value) + 1;
            Bumped(c, faults) == (Counters(next, Some(next)), next)
  {
  }

  /**
    A key is built exactly for a domain, a panel and one time axis; two requests build the same key only
    under the same generation and for the same domain, panel, axis, moment and parameters.
   */
  lemma KeysTellApart(a: KeyRequest, g: nat, b: KeyRequest, h: nat)
    ensures BuildKey(a, g).Built? <==> a.domain != "" && a.panel != "" && (a.asOf == None) != (a.knowledgeTime == None)
    ensures BuildKey(a, g).Built? && BuildKey(a, g) == BuildKey(b, h) ==>
              g == h && a.domain == b.domain && a.panel == b.panel && a.params == b.params
              && a.asOf == b.asOf && a.knowledgeTime == b.knowledgeTime
  {
  }

  /** Behind L2, an outage makes the generation fall back: a read that fails is answered from L1 alone. */
  lemma OutageFallsBackExactlyWhenBehind(c: Counters)
    ensures Generation(c, false) < Generation(c, true) <==> !LocalLeads(c)
  {
  }

  // ---------------------------------------------------------------- many processes, L2 reliable

  type Process = nat
  type Thread = nat

  /** Where a thread is in a bump. */
  datatype Pc = Idle | Raised(local: nat) | Answered(local: nat, remote: nat)

  /** Each thread lives in a process, and the threads of a process share its L1. */
  datatype State = State(l1: Process -> nat, l2: nat, pcs: Thread -> Pc, home: Thread -> Process)

  datatype Step = RaiseLocal(t: Thread) | RaiseRemote(t: Thread) | Level(t: Thread)

  predicate Enabled(s: State, step: Step) {
    match step
    case RaiseLocal(t) => s.pcs(t).Idle?
    case RaiseRemote(t) => s.pcs(t).Raised?
    case Level(t) => s.pcs(t).Answered?
  }

  function PcAfter(s: State, step: Step): Pc
    requires Enabled(s, step)
  {
    match step
    case RaiseLocal(t) => Raised(s.l1(s.home(t)) + 1)
    case RaiseRemote(t) => Answered(s.pcs(t).local, s.l2 + 1)
    case Level(t) => Idle
  }

  function LocalAfter(s: State, step: Step): nat
    requires Enabled(s, step)
  {
    var here := s.l1(s.home(step.t));
    if step.RaiseLocal? then here + 1
    else if step.Level? && s.pcs(step.t).remote > s.pcs(step.t).local then s.pcs(step.t).remote
    else here
  }

  function RemoteAfter(s: State, step: Step): nat
    requires Enabled(s, step)
  {
    if step.RaiseRemote? then s.l2 + 1
    else if step.Level? && s.pcs(step.t).local > s.pcs(step.t).remote then s.pcs(step.t).local
    else s.l2
  }

  function After(s: State, step: Step): State
    requires Enabled(s, step)
  {
    State(
      (p: Process) => if p == s.home(step.t) then LocalAfter(s, step) else s.l1(p),
      RemoteAfter(s, step),
      (t: Thread) => if t == step.t then PcAfter(s, step) else s.pcs(t),
      s.home)
  }

  ghost predicate Next(s: State, step: Step, s': State) {
    Enabled(s, step) && s' == After(s, step)
  }

  /** What the thread reads when both layers answer. */
  function ReadBy(s: State, t: Thread): nat {
    Max(s.l1(s.home(t)), s.l2)
  }

  /** Each process bumps from one thread. */
  ghost predicate OneBumperEach(home: Thread -> Process) {
    forall t, u :: home(t) == home(u) ==> t == u
  }

  /** L1 is ahead by the one increment that L2 has not had yet, and never otherwise. */
  predicate ThreadInv(s: State, t: Thread) {
    var l1 := s.l1(s.home(t));
    match s.pcs(t)
    case Idle => l1 <= s.l2
    case Raised(local) => l1 == local <= s.l2 + 1
    case Answered(local, remote) => l1 == local <= remote <= s.l2
  }

  ghost predicate Inv(s: State) {
    OneBumperEach(s.home) && forall t :: ThreadInv(s, t)
  }

  lemma InvStep(s: State, step: Step, s': State)
    requires Inv(s) && Next(s, step, s')
    ensures Inv(s')
    ensures s'.l2 == s.l2 + (if step.RaiseRemote? then 1 else 0)
  {
    assert ThreadInv(s, step.t);
    forall t
      ensures ThreadInv(s', t)
    {
      assert ThreadInv(s, t);
    }
  }

  /** At the end of a bump its process reads the value the shared counter gave to it even when L2 does not answer. */
  lemma LevelledKnowsItsBump(s: State, t: Thread, s': State)
    requires Inv(s) && Next(s, Level(t), s')
    ensures s.pcs(t).Answered? && s'.pcs(t).Idle? && s'.l1(s.home(t)) == s.pcs(t).remote && s'.l2 == s.l2
  {
    assert ThreadInv(s, t);
  }

  lemma InvOverRuns(states: seq<State>, steps: seq<Step>, k: nat)
    requires Follows(Next, states, steps) && k <= |steps| && Inv(states[0])
    ensures Inv(states[k])
  {
    forall s, t, s' | Inv(s) && Next(s, t, s')
      ensures Inv(s')
    {
      InvStep(s, t, s');
    }
    Invariance(Inv, Next, states, steps, k);
  }

  function Bumps(steps: seq<Step>): nat {
    if steps == [] then 0 else Bumps(steps[..|steps| - 1]) + if steps[|steps| - 1].RaiseRemote? then 1 else 0
  }

  /** However the bumps of many processes interleave, the shared counter counts them. */
  lemma {:induction false} SharedCounterCounts(states: seq<State>, steps: seq<Step>, j: nat, k: nat)
    requires Follows(Next, states, steps) && j <= k <= |steps| && Inv(states[0])
    ensures states[k].l2 == states[j].l2 + Bumps(steps[j..k])
  {
    if j < k {
      SharedCounterCounts(states, steps, j, k - 1);
      InvOverRuns(states, steps, k - 1);
      assert Next(states[k - 1], steps[k - 1], states[k - 1 + 1]);
      InvStep(states[k - 1], steps[k - 1], states[k]);
      assert steps[j..k][..k - 1 - j] == steps[j..k - 1];
    }
  }

  /** Threads that are not in the middle of a bump read the shared counter; the others at most one more. */
  lemma ReadersAgree(states: seq<State>, steps: seq<Step>, k: nat, t: Thread)
    requires Follows(Next, states, steps) && k <= |steps| && Inv(states[0])
    ensures states[k].l2 <= ReadBy(states[k], t) <= states[k].l2 + 1
    ensures !states[k].pcs(t).Raised? ==> ReadBy(states[k], t) == states[k].l2
  {
    InvOverRuns(states, steps, k);
    assert ThreadInv(states[k], t);
  }

  /** What was read before another process raised L2 is never read by anyone afterwards. */
  lemma IncrementRetiresKeys(states: seq<State>, steps: seq<Step>, i: nat, j: nat, k: nat, t: Thread, u: Thread)
    requires Follows(Next, states, steps) && Inv(states[0])
    requires i <= j < k <= |steps| && steps[j].RaiseRemote? && !states[i].pcs(t).Raised?
    ensures ReadBy(states[i], t) < ReadBy(states[k], u)
  {
    SharedCounterCounts(states, steps, i, j);
    SharedCounterCounts(states, steps, j, j + 1);
    SharedCounterCounts(states, steps, j + 1, k);
    assert steps[j..j + 1][|steps[j..j + 1]| - 1].RaiseRemote?;
    ReadersAgree(states, steps, i, t);
    ReadersAgree(states, steps, k, u);
  }

  // ---------------------------------------------------------------- exactly when it is monotone

  /** Nobody has bumped yet. */
  function FreshAt(home: Thread -> Process): State {
    State((p: Process) => 0, 0, (t: Thread) => Idle, home)
  }

  /** In no interleaving does the shared counter ever fall. */
  ghost predicate NeverLowered(home: Thread -> Process) {
    forall states: seq<State>, steps: seq<Step>, j: nat, k: nat ::
      Follows(Next, states, steps) && states[0] == FreshAt(home) && j <= k <= |steps| ==> states[j].l2 <= states[k].l2
  }

  /** The state after the steps, as far as they are enabled. */
  function Run(s: State, steps: seq<Step>): State {
    if steps == [] then s
    else
      var before := Run(s, steps[..|steps| - 1]);
      if Enabled(before, steps[|steps| - 1]) then After(before, steps[|steps| - 1]) else before
  }

  ghost predicate AllEnabled(s: State, steps: seq<Step>) {
    steps == [] || (AllEnabled(s, steps[..|steps| - 1]) && Enabled(Run(s, steps[..|steps| - 1]), steps[|steps| - 1]))
  }

  lemma RunOneMore(s: State, steps: seq<Step>, step: Step)
    requires AllEnabled(s, steps) && Enabled(Run(s, steps), step)
    ensures AllEnabled(s, steps + [step]) && Run(s, steps + [step]) == After(Run(s, steps), step)
  {
    assert (steps + [step])[..|steps|] == steps;
  }

  /** Enabled steps make an interleaving. */
  lemma {:induction false} RunIsFollowed(s: State, steps: seq<Step>) returns (states: seq<State>)
    requires AllEnabled(s, steps)
    ensures Follows(Next, states, steps) && states[0] == s && states[|steps|] == Run(s, steps)
    ensures steps != [] ==> states[|steps| - 1] == Run(s, steps[..|steps| - 1])
  {
    if steps == [] {
      states := [s];
    } else {
      var init := steps[..|steps| - 1];
      var before := RunIsFollowed(s, init);
      states := before + [Run(s, steps)];
      forall k | 0 <= k < |steps|
        ensures Next(states[k], steps[k], states[k + 1])
      {
        if k < |init| {
          assert Next(before[k], init[k], before[k + 1]);
        }
      }
    }
  }

  /**
    Two threads of one process lose a generation, though L2 never fails: `u` reads an L2 that is behind
    their common L1, `t` raises L2 twice more, and levelling by `u` then lowers it from three to two.
   */
  lemma TwoBumpersCanLowerIt(home: Thread -> Process, t: Thread, u: Thread) returns (steps: seq<Step>, last: Step)
    requires t != u && home(t) == home(u)
    ensures AllEnabled(FreshAt(home), steps) && Enabled(Run(FreshAt(home), steps), last)
    ensures Run(FreshAt(home), steps).l2 == 3 && After(Run(FreshAt(home), steps), last).l2 == 2
  {
    var s := FreshAt(home);
    steps := [];
    RunOneMore(s, steps, RaiseLocal(t));
    steps := steps + [RaiseLocal(t)];
    RunOneMore(s, steps, RaiseLocal(u));
    steps := steps + [RaiseLocal(u)];
    RunOneMore(s, steps, RaiseRemote(u));
    steps := steps + [RaiseRemote(u)];
    RunOneMore(s, steps, RaiseRemote(t));
    steps := steps + [RaiseRemote(t)];
    RunOneMore(s, steps, Level(t));
    steps := steps + [Level(t)];
    RunOneMore(s, steps, RaiseLocal(t));
    steps := steps + [RaiseLocal(t)];
    RunOneMore(s, steps, RaiseRemote(t));
    steps := steps + [RaiseRemote(t)];
    last := Level(u);
  }

  lemma FreshIsSound(home: Thread -> Process)
    requires OneBumperEach(home)
    ensures Inv(FreshAt(home))
  {
  }

  /** The shared counter never falls, in any interleaving, exactly when each process bumps from one thread. */
  lemma MonotoneExactlyWhenOneBumperEach(home: Thread -> Process)
    ensures NeverLowered(home) <==> OneBumperEach(home)
  {
    if OneBumperEach(home) {
      forall states: seq<State>, steps: seq<Step>, j: nat, k: nat |
        Follows(Next, states, steps) && states[0] == FreshAt(home) && j <= k <= |steps|
        ensures states[j].l2 <= states[k].l2
      {
        FreshIsSound(home);
        SharedCounterCounts(states, steps, j, k);
      }
    } else {
      var t, u :| home(t) == home(u) && t != u;
      var steps, last := TwoBumpersCanLowerIt(home, t, u);
      RunOneMore(FreshAt(home), steps, last);
      var longer := steps + [last];
      assert longer[..|longer| - 1] == steps;
      var states := RunIsFollowed(FreshAt(home), longer);
      assert states[|longer| - 1].l2 > states[|longer|].l2;
    }
  }
}
