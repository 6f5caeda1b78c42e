/**
  The single-flight protocol of the memory cache: threads, each at a point of get_or_load, sharing a
  table of open flights.  A step is one critical section, or one thread's move between two of them.
 */
module SingleFlight {
  import opened Options
  import opened Executions

  type Key = string
  type FlightId = nat
  type Thread = nat

  datatype Outcome = Loaded(value: int) | Raised(error: string)

  /** What one load attempt shares with its followers; `result` is there once the event is set. */
  datatype Flight = Flight(key: Key, creator: Thread, result: Option<Outcome>)

  /** `mine` is the flight the thread opened itself; a forced caller has none. */
  datatype Pc =
    | Out
    | Probe(key: Key)
    | Join(key: Key)
    | Wait(key: Key, flight: FlightId)
    | Recheck(key: Key, flight: FlightId)
    | Load(key: Key, mine: Option<FlightId>)
    | Storing(key: Key, mine: Option<FlightId>, value: int)
    | Finish(key: Key, mine: Option<FlightId>, outcome: Outcome)
    | Setting(popped: FlightId, mine: Option<FlightId>, outcome: Outcome)
    | Done(part: Option<FlightId>, outcome: Outcome)

  datatype State = State(
    cache: map<Key, int>,
    open: map<Key, FlightId>,
    flights: seq<Flight>,
    threads: map<Thread, Pc>,
    answers: map<FlightId, Outcome>,   // history: what the creator of a flight came back with
    loads: map<Key, nat>)              // history: how often the loader of a key returned

  datatype Step =
    | Enter(t: Thread, key: Key, force: bool)
    | FirstGet(t: Thread)
    | JoinFlight(t: Thread)
    | Wake(t: Thread)
    | SecondGet(t: Thread)
    | LoaderReturns(t: Thread, value: int)
    | LoaderRaises(t: Thread, error: string)
    | Store(t: Thread, accepted: bool)
    | StoreRaises(t: Thread)
    | PopFlight(t: Thread)
    | SetFlight(t: Thread)
    | Leave(t: Thread)
    | Evict(key: Key)

  function Count(loads: map<Key, nat>, key: Key): nat {
    if key in loads then loads[key] else 0
  }

  /** When a thread at `pc` may take the step; a follower wakes only after the event was set. */
  predicate Ready(s: State, step: Step, pc: Pc) {
    match step
    case Evict(_) => true
    case Enter(_, _, _) => pc.Out?
    case FirstGet(_) => pc.Probe?
    case JoinFlight(_) => pc.Join?
    case Wake(_) => pc.Wait? && pc.flight < |s.flights| && s.flights[pc.flight].result.Some?
    case SecondGet(_) => pc.Recheck?
    case LoaderReturns(_, _) => pc.Load?
    case LoaderRaises(_, _) => pc.Load?
    case Store(_, _) => pc.Storing?
    case StoreRaises(_) => pc.Storing?
    case PopFlight(_) => pc.Finish?
    case SetFlight(_) => pc.Setting? && pc.popped < |s.flights|
    case Leave(_) => pc.Done?
  }

  predicate Enabled(s: State, step: Step) {
    step.Evict? || (step.t in s.threads && Ready(s, step, s.threads[step.t]))
  }

  function PcAfter(s: State, step: Step): Pc
    requires Enabled(s, step) && !step.Evict?
  {
    var pc := s.threads[step.t];
    match step
    case Enter(_, key, force) => if force then Load(key, None) else Probe(key)
    case FirstGet(_) => if pc.key in s.cache then Done(None, Loaded(s.cache[pc.key])) else Join(pc.key)
    case JoinFlight(_) => if pc.key in s.open then Wait(pc.key, s.open[pc.key]) else Recheck(pc.key, |s.flights|)
    case Wake(_) => Done(Some(pc.flight), s.flights[pc.flight].result.value)
    case SecondGet(_) =>
      if pc.key in s.cache then Finish(pc.key, Some(pc.flight), Loaded(s.cache[pc.key]))
      else Load(pc.key, Some(pc.flight))
    case LoaderReturns(_, value) => Storing(pc.key, pc.mine, value)
    case LoaderRaises(_, error) => Finish(pc.key, pc.mine, Raised(error))
    case Store(_, _) => Finish(pc.key, pc.mine, Loaded(pc.value))
    case StoreRaises(_) => Out
    case PopFlight(_) =>
      if pc.key in s.open then Setting(s.open[pc.key], pc.mine, pc.outcome) else Done(pc.mine, pc.outcome)
    case SetFlight(_) => Done(pc.mine, pc.outcome)
    case Leave(_) => Out
  }

  function CacheAfter(s: State, step: Step): map<Key, int>
    requires Enabled(s, step)
  {
    if step.Evict? then s.cache - {step.key}
    else if step.Store? && step.accepted then s.cache[s.threads[step.t].key := s.threads[step.t].value]
    else s.cache
  }

  function OpenAfter(s: State, step: Step): map<Key, FlightId>
    requires Enabled(s, step)
  {
    if step.JoinFlight? && s.threads[step.t].key !in s.open then s.open[s.threads[step.t].key := |s.flights|]
    else if step.PopFlight? then s.open - {s.threads[step.t].key}
    else s.open
  }

  function FlightsAfter(s: State, step: Step): seq<Flight>
    requires Enabled(s, step)
  {
    if step.JoinFlight? && s.threads[step.t].key !in s.open then
      s.flights + [Flight(s.threads[step.t].key, step.t, None)]
    else if step.SetFlight? then
      var pc := s.threads[step.t];
      s.flights[pc.popped := s.flights[pc.popped].(result := Some(pc.outcome))]
    else s.flights
  }

  /** The creator's outcome is noted where it is decided. */
  function AnswersAfter(s: State, step: Step): map<FlightId, Outcome>
    requires Enabled(s, step)
  {
    if step.SecondGet? || step.LoaderRaises? || step.Store? then
      var pc := PcAfter(s, step);
      if pc.Finish? && pc.mine.Some? then s.answers[pc.mine.value := pc.outcome] else s.answers
    else s.answers
  }

  function LoadsAfter(s: State, step: Step): map<Key, nat>
    requires Enabled(s, step)
  {
    if step.LoaderReturns? then
      var key := s.threads[step.t].key;
      s.loads[key := Count(s.loads, key) + 1]
    else s.loads
  }

  function After(s: State, step: Step): State
    requires Enabled(s, step)
  {
    State(CacheAfter(s, step), OpenAfter(s, step), FlightsAfter(s, step),
          if step.Evict? then s.threads else s.threads[step.t := PcAfter(s, step)],
          AnswersAfter(s, step), LoadsAfter(s, step))
  }

  ghost predicate Next(s: State, step: Step, s': State) {
    Enabled(s, step) && s' == After(s, step)
  }

  ghost predicate Start(s: State) {
    s.open == map[] && s.flights == [] && s.answers == map[] && s.loads == map[] && s.cache == map[]
    && forall t :: t in s.threads ==> s.threads[t].Out?
  }

  ghost predicate IsRun(states: seq<State>, steps: seq<Step>) {
    Follows((s, step, s') => Next(s, step, s'), states, steps) && Start(states[0])
  }

  // ---------------------------------------------------------------- nobody is stranded

  /** Between becoming the leader of the flight and taking it off the table. */
  predicate Leads(pc: Pc, key: Key, f: FlightId) {
    || pc == Recheck(key, f)
    || (pc.Load? && pc.key == key && pc.mine == Some(f))
    || (pc.Storing? && pc.key == key && pc.mine == Some(f))
    || (pc.Finish? && pc.key == key && pc.mine == Some(f))
  }

  predicate OwnFlight(s: State, t: Thread, key: Key, f: FlightId) {
    f < |s.flights| && s.flights[f].creator == t && s.flights[f].key == key
  }

  /** A thread leads only flights it created itself, waits only on existing ones. */
  predicate PcWellFormed(s: State, t: Thread, pc: Pc) {
    match pc
    case Wait(key, f) => f < |s.flights| && s.flights[f].key == key
    case Recheck(key, f) => OwnFlight(s, t, key, f)
    case Load(key, mine) => mine.Some? ==> OwnFlight(s, t, key, mine.value)
    case Storing(key, mine, _) => mine.Some? ==> OwnFlight(s, t, key, mine.value)
    case Finish(key, mine, _) => mine.Some? ==> OwnFlight(s, t, key, mine.value)
    case Setting(popped, _, _) => popped < |s.flights| && !IsOpen(s, popped)
    case _ => true
  }

  ghost predicate ThreadsWellFormed(s: State) {
    forall t :: t in s.threads ==> PcWellFormed(s, t, s.threads[t])
  }

  predicate IsOpen(s: State, f: FlightId) {
    f < |s.flights| && s.flights[f].key in s.open && s.open[s.flights[f].key] == f
  }

  /** The creator of an open flight has yet to finish. */
  predicate CreatorPending(s: State, f: FlightId)
    requires f < |s.flights|
  {
    s.flights[f].creator in s.threads && Leads(s.threads[s.flights[f].creator], s.flights[f].key, f)
  }

  ghost predicate BeingSet(s: State, f: FlightId) {
    exists t :: t in s.threads && s.threads[t].Setting? && s.threads[t].popped == f
  }

  ghost predicate OpenExist(s: State) {
    forall key :: key in s.open ==>
      s.open[key] < |s.flights| && s.flights[s.open[key]].key == key && s.flights[s.open[key]].result.None?
  }

  /** Every entry of the table is an unfinished flight of that key with its creator yet to finish. */
  ghost predicate OpenPending(s: State) {
    forall key :: key in s.open ==>
      s.open[key] < |s.flights| && s.flights[s.open[key]].key == key && s.flights[s.open[key]].result.None?
      && CreatorPending(s, s.open[key])
  }

  /** A flight without a result is on the table or about to be set. */
  ghost predicate NoneLost(s: State) {
    forall f :: 0 <= f < |s.flights| && s.flights[f].result.None? ==> IsOpen(s, f) || BeingSet(s, f)
  }

  ghost predicate Sound(s: State) {
    ThreadsWellFormed(s) && OpenPending(s) && NoneLost(s)
  }

  lemma FlightsKeepKeys(s: State, step: Step)
    requires Enabled(s, step)
    ensures |s.flights| <= |FlightsAfter(s, step)|
    ensures forall f :: 0 <= f < |s.flights| ==>
              FlightsAfter(s, step)[f].key == s.flights[f].key && FlightsAfter(s, step)[f].creator == s.flights[f].creator
  {
  }

  lemma WellFormedAfterStep(s: State, step: Step)
    requires ThreadsWellFormed(s) && OpenExist(s) && Enabled(s, step)
    ensures ThreadsWellFormed(After(s, step))
  {
    var s' := After(s, step);
    FlightsKeepKeys(s, step);
    forall t | t in s'.threads
      ensures PcWellFormed(s', t, s'.threads[t])
    {
      assert PcWellFormed(s, t, s.threads[t]);
    }
  }

  lemma MoverKeepsLead(s: State, step: Step, key: Key, f: FlightId)
    requires Enabled(s, step) && !step.Evict? && !step.StoreRaises? && !step.PopFlight?
    requires Leads(s.threads[step.t], key, f)
    ensures Leads(PcAfter(s, step), key, f)
  {
  }

  /** Only the step that takes the flight off the table ends the lead; a raising size estimate skips it. */
  lemma LeadKept(s: State, step: Step, f: FlightId)
    requires Sound(s) && Enabled(s, step) && !step.StoreRaises? && IsOpen(s, f)
    requires !(step.PopFlight? && s.threads[step.t].key == s.flights[f].key)
    ensures f < |FlightsAfter(s, step)| && CreatorPending(After(s, step), f)
  {
    var t, key := s.flights[f].creator, s.flights[f].key;
    FlightsKeepKeys(s, step);
    assert CreatorPending(s, f);
    if !step.Evict? && step.t == t {
      MoverKeepsLead(s, step, key, f);
    }
  }

  lemma OpenAfterStep(s: State, step: Step)
    requires Sound(s) && Enabled(s, step) && !step.StoreRaises?
    ensures OpenPending(After(s, step))
  {
    var s' := After(s, step);
    FlightsKeepKeys(s, step);
    forall key | key in s'.open
      ensures s'.open[key] < |s'.flights| && s'.flights[s'.open[key]].key == key && CreatorPending(s', s'.open[key])
      ensures s'.flights[s'.open[key]].result.None?
    {
      if step.SetFlight? {
        assert PcWellFormed(s, step.t, s.threads[step.t]);
      }
      if key in s.open {
        LeadKept(s, step, s.open[key]);
      }
    }
  }

  lemma NoneLostAfterStep(s: State, step: Step)
    requires Sound(s) && Enabled(s, step)
    ensures NoneLost(After(s, step))
  {
    var s' := After(s, step);
    FlightsKeepKeys(s, step);
    forall f | 0 <= f < |s'.flights| && s'.flights[f].result.None?
      ensures IsOpen(s', f) || BeingSet(s', f)
    {
      if f < |s.flights| {
        assert s.flights[f].result.None?;
        if IsOpen(s, f) {
          if step.PopFlight? && s.threads[step.t].key == s.flights[f].key {
            assert s'.threads[step.t].Setting? && s'.threads[step.t].popped == f;
          }
        } else {
          var t :| t in s.threads && s.threads[t].Setting? && s.threads[t].popped == f;
          assert s'.threads[t] == s.threads[t];
        }
      }
    }
  }

  lemma SoundOverRuns(states: seq<State>, steps: seq<Step>, k: nat)
    requires IsRun(states, steps) && k <= |steps|
    requires forall i :: 0 <= i < |steps| ==> !steps[i].StoreRaises?
    ensures Sound(states[k])
  {
    forall s, step, s' | Sound(s) && Next(s, step, s') && !step.StoreRaises?
      ensures Sound(s')
    {
      WellFormedAfterStep(s, step);
      OpenAfterStep(s, step);
      NoneLostAfterStep(s, step);
    }
    Invariance(s => Sound(s), (s, step: Step, s') => Next(s, step, s') && !step.StoreRaises?, states, steps, k);
  }

  /**
    While no size estimate raises, forced callers or not: a waiting thread can wake, or another thread,
    not itself waiting, still has to finish the flight it waits for.
   */
  lemma NoWaiterIsStranded(states: seq<State>, steps: seq<Step>, k: nat, t: Thread)
    requires IsRun(states, steps) && k <= |steps|
    requires forall i :: 0 <= i < |steps| ==> !steps[i].StoreRaises?
    requires t in states[k].threads && states[k].threads[t].Wait?
    ensures var s, f := states[k], states[k].threads[t].flight;
            || Enabled(s, Wake(t))
            || exists u :: u in s.threads && !s.threads[u].Wait?
                           && (Leads(s.threads[u], s.threads[t].key, f) || (s.threads[u].Setting? && s.threads[u].popped == f))
  {
    SoundOverRuns(states, steps, k);
    var s := states[k];
    var f := s.threads[t].flight;
    assert PcWellFormed(s, t, s.threads[t]);
    if s.flights[f].result.None? {
      if IsOpen(s, f) {
        assert CreatorPending(s, f);
        assert !s.threads[s.flights[f].creator].Wait?;
      } else {
        assert BeingSet(s, f);
      }
    }
  }

  /** A raising size estimate breaks the table exactly when its thread leads an open flight. */
  lemma RaisingSizeStrands(s: State, t: Thread)
    requires Sound(s) && Enabled(s, StoreRaises(t))
    ensures var mine := s.threads[t].mine;
            OpenPending(After(s, StoreRaises(t))) <==> !(mine.Some? && IsOpen(s, mine.value))
  {
    var s' := After(s, StoreRaises(t));
    var mine := s.threads[t].mine;
    assert PcWellFormed(s, t, s.threads[t]);
    if mine.Some? && IsOpen(s, mine.value) {
      assert s.threads[t].key in s'.open && !CreatorPending(s', mine.value);
    } else {
      forall key | key in s'.open
        ensures CreatorPending(s', s'.open[key])
      {
        assert CreatorPending(s, s.open[key]);
      }
    }
  }

  // ---------------------------------------------------------------- without forced callers

  predicate Noted(s: State, f: FlightId, outcome: Outcome) {
    f in s.answers && s.answers[f] == outcome
  }

  predicate Undecided(s: State, key: Key, mine: Option<FlightId>) {
    mine.Some? && key in s.open && s.open[key] == mine.value && mine.value !in s.answers
  }

  /** Without forced callers a leader's flight stays on the table until the leader takes it off. */
  predicate PcUnforced(s: State, pc: Pc) {
    match pc
    case Recheck(key, f) => Undecided(s, key, Some(f))
    case Load(key, mine) => Undecided(s, key, mine)
    case Storing(key, mine, _) => Undecided(s, key, mine)
    case Finish(key, mine, outcome) =>
      mine.Some? && key in s.open && s.open[key] == mine.value && Noted(s, mine.value, outcome)
    case Setting(popped, mine, outcome) => mine == Some(popped) && Noted(s, popped, outcome)
    case Done(part, outcome) => part.Some? ==> Noted(s, part.value, outcome)
    case _ => true
  }

  ghost predicate Unforced(s: State) {
    && ThreadsWellFormed(s) && OpenExist(s)
    && (forall t :: t in s.threads ==> PcUnforced(s, s.threads[t]))
    && (forall f :: 0 <= f < |s.flights| && s.flights[f].result.Some? ==> Noted(s, f, s.flights[f].result.value))
    && (forall f :: f in s.answers ==> f < |s.flights|)
  }

  predicate ForcedEntry(step: Step) { step.Enter? && step.force }

  predicate LeadsKey(pc: Pc, key: Key) {
    (pc.Recheck? || pc.Load? || pc.Storing? || pc.Finish?) && pc.key == key
  }

  /** At most one thread is between becoming leader and finishing. */
  lemma OneLeader(s: State, t: Thread, u: Thread, key: Key)
    requires Unforced(s) && t in s.threads && u in s.threads
    requires LeadsKey(s.threads[t], key) && LeadsKey(s.threads[u], key)
    ensures t == u
  {
    assert PcUnforced(s, s.threads[t]) && PcUnforced(s, s.threads[u]);
    assert PcWellFormed(s, t, s.threads[t]) && PcWellFormed(s, u, s.threads[u]);
  }

  lemma AnswersAfterStepGrow(s: State, step: Step)
    requires Unforced(s) && Enabled(s, step)
    ensures forall f :: f in s.answers ==> f in AnswersAfter(s, step) && AnswersAfter(s, step)[f] == s.answers[f]
    ensures forall f :: f in AnswersAfter(s, step) && f !in s.answers ==>
              !step.Evict? && step.t in s.threads && LeadsKey(s.threads[step.t], PcAfter(s, step).key)
              && PcAfter(s, step) == Finish(s.threads[step.t].key, Some(f), AnswersAfter(s, step)[f])
  {
    if !step.Evict? {
      assert PcUnforced(s, s.threads[step.t]);
    }
  }

  lemma OthersStayUnforced(s: State, step: Step, u: Thread)
    requires Unforced(s) && Enabled(s, step) && u in s.threads && (step.Evict? || u != step.t)
    ensures PcUnforced(After(s, step), s.threads[u])
  {
    AnswersAfterStepGrow(s, step);
    var pc := s.threads[u];
    assert PcUnforced(s, pc) && PcWellFormed(s, u, pc);
    if !step.Evict? && (pc.Recheck? || pc.Load? || pc.Storing? || pc.Finish?) && LeadsKey(s.threads[step.t], pc.key) {
      OneLeader(s, step.t, u, pc.key);
    }
    if !step.Evict? {
      assert PcUnforced(s, s.threads[step.t]) && PcWellFormed(s, step.t, s.threads[step.t]);
    }
  }

  lemma MoverStaysUnforced(s: State, step: Step)
    requires Unforced(s) && Enabled(s, step) && !step.Evict? && !ForcedEntry(step)
    ensures PcUnforced(After(s, step), PcAfter(s, step))
  {
    assert PcUnforced(s, s.threads[step.t]) && PcWellFormed(s, step.t, s.threads[step.t]);
  }

  lemma OpenExistAfterStep(s: State, step: Step)
    requires OpenExist(s) && ThreadsWellFormed(s) && Enabled(s, step)
    ensures OpenExist(After(s, step))
  {
    FlightsKeepKeys(s, step);
    if step.SetFlight? {
      assert PcWellFormed(s, step.t, s.threads[step.t]);
    }
  }

  lemma UnforcedAfterStep(s: State, step: Step)
    requires Unforced(s) && Enabled(s, step) && !ForcedEntry(step)
    ensures Unforced(After(s, step))
  {
    var s' := After(s, step);
    WellFormedAfterStep(s, step);
    OpenExistAfterStep(s, step);
    AnswersAfterStepGrow(s, step);
    FlightsKeepKeys(s, step);
    forall t | t in s'.threads
      ensures PcUnforced(s', s'.threads[t])
    {
      if step.Evict? || t != step.t {
        OthersStayUnforced(s, step, t);
      } else {
        MoverStaysUnforced(s, step);
      }
    }
    if step.SetFlight? {
      assert PcUnforced(s, s.threads[step.t]);
    }
    if !step.Evict? {
      assert PcWellFormed(s, step.t, s.threads[step.t]);
    }
  }

  lemma UnforcedOverRuns(states: seq<State>, steps: seq<Step>, k: nat)
    requires IsRun(states, steps) && k <= |steps|
    requires forall i :: 0 <= i < |steps| ==> !ForcedEntry(steps[i])
    ensures Unforced(states[k])
  {
    forall s, step, s' | Unforced(s) && Next(s, step, s') && !ForcedEntry(step)
      ensures Unforced(s')
    {
      UnforcedAfterStep(s, step);
    }
    Invariance(s => Unforced(s), (s, step: Step, s') => Next(s, step, s') && !ForcedEntry(step), states, steps, k);
  }

  /** All who took part in a flight, its leader included, come back with the leader's outcome. */
  lemma FollowersGetTheirLeadersAnswer(states: seq<State>, steps: seq<Step>, k: nat, t: Thread, u: Thread, f: FlightId)
    requires IsRun(states, steps) && k <= |steps|
    requires forall i :: 0 <= i < |steps| ==> !ForcedEntry(steps[i])
    requires t in states[k].threads && states[k].threads[t].Done? && states[k].threads[t].part == Some(f)
    requires u in states[k].threads && states[k].threads[u].Done? && states[k].threads[u].part == Some(f)
    ensures states[k].threads[t].outcome == states[k].threads[u].outcome
    ensures f in states[k].answers && states[k].answers[f] == states[k].threads[t].outcome
  {
    UnforcedOverRuns(states, steps, k);
    assert PcUnforced(states[k], states[k].threads[t]) && PcUnforced(states[k], states[k].threads[u]);
  }

  lemma SingleLeaderOverRuns(states: seq<State>, steps: seq<Step>, k: nat, t: Thread, u: Thread, key: Key)
    requires IsRun(states, steps) && k <= |steps|
    requires forall i :: 0 <= i < |steps| ==> !ForcedEntry(steps[i])
    requires t in states[k].threads && u in states[k].threads
    requires LeadsKey(states[k].threads[t], key) && LeadsKey(states[k].threads[u], key)
    ensures t == u
  {
    UnforcedOverRuns(states, steps, k);
    OneLeader(states[k], t, u, key);
  }

  /** An open flight that nobody leads any more. */
  ghost predicate Stranded(s: State, key: Key, f: FlightId) {
    && Unforced(s)
    && key in s.open && s.open[key] == f
    && (forall t :: t in s.threads ==> !LeadsKey(s.threads[t], key))
  }

  lemma RaisingSizeLeavesItsFlight(s: State, t: Thread)
    requires Unforced(s) && Enabled(s, StoreRaises(t))
    ensures s.threads[t].mine.Some? && Stranded(After(s, StoreRaises(t)), s.threads[t].key, s.threads[t].mine.value)
  {
    var s' := After(s, StoreRaises(t));
    var key := s.threads[t].key;
    UnforcedAfterStep(s, StoreRaises(t));
    assert PcUnforced(s, s.threads[t]);
    forall u | u in s'.threads
      ensures !LeadsKey(s'.threads[u], key)
    {
      if u != t && LeadsKey(s.threads[u], key) {
        OneLeader(s, t, u, key);
      }
    }
  }

  lemma StrandedAfterStep(s: State, step: Step, key: Key, f: FlightId)
    requires Stranded(s, key, f) && Enabled(s, step) && !ForcedEntry(step)
    ensures Stranded(After(s, step), key, f)
    ensures step.Wake? ==> s.threads[step.t].flight != f
  {
    UnforcedAfterStep(s, step);
    if !step.Evict? {
      NoNewLeader(s, step, key);
    }
  }

  /** From then on, however the run goes on without forced callers, the flight stays open and its followers wait. */
  lemma {:induction false} StrandedForGood(states: seq<State>, steps: seq<Step>, j: nat, k: nat, key: Key, f: FlightId, t: Thread)
    requires Follows((s, step, s') => Next(s, step, s'), states, steps) && j <= k <= |steps|
    requires forall i :: j <= i < k ==> !ForcedEntry(steps[i])
    requires Stranded(states[j], key, f)
    requires t in states[j].threads && states[j].threads[t] == Wait(key, f)
    ensures Stranded(states[k], key, f)
    ensures t in states[k].threads && states[k].threads[t] == Wait(key, f)
  {
    if j < k {
      StrandedForGood(states, steps, j, k - 1, key, f, t);
      assert Next(states[k - 1], steps[k - 1], states[k - 1 + 1]);
      StrandedAfterStep(states[k - 1], steps[k - 1], key, f);
    }
  }

  lemma NoNewLeader(s: State, step: Step, key: Key)
    requires Enabled(s, step) && !step.Evict? && !ForcedEntry(step) && key in s.open && !LeadsKey(s.threads[step.t], key)
    ensures !LeadsKey(PcAfter(s, step), key)
    ensures key in OpenAfter(s, step) && OpenAfter(s, step)[key] == s.open[key]
  {
  }

  // ---------------------------------------------------------------- only a forced caller ends it

  /** Among the threads that will finish a flight of the key, only forced callers are left. */
  predicate ForcedOnly(pc: Pc, key: Key) {
    LeadsKey(pc, key) ==> !pc.Recheck? && pc.mine.None?
  }

  /** A flight on the table that nobody is going to finish as its own. */
  ghost predicate Orphaned(s: State, key: Key, f: FlightId) {
    && f < |s.flights| && key in s.open && s.open[key] == f
    && (forall t :: t in s.threads ==> ForcedOnly(s.threads[t], key))
  }

  /** The step takes whatever flight the key has off the table. */
  predicate TakesOff(s: State, step: Step, key: Key)
    requires Enabled(s, step)
  {
    step.PopFlight? && s.threads[step.t].key == key
  }

  predicate OnTable(s: State, key: Key, f: FlightId) {
    key in s.open && s.open[key] == f
  }

  lemma OrphanedAfterStep(s: State, step: Step, key: Key, f: FlightId)
    requires Orphaned(s, key, f) && Enabled(s, step)
    ensures TakesOff(s, step, key) ==> s.threads[step.t].mine.None? && PcAfter(s, step).Setting? && PcAfter(s, step).popped == f
    ensures if TakesOff(s, step, key) then !OnTable(After(s, step), key, f) else Orphaned(After(s, step), key, f)
  {
    if !step.Evict? {
      assert ForcedOnly(s.threads[step.t], key);
    }
    FlightsKeepKeys(s, step);
  }

  lemma GoneAfterStep(s: State, step: Step, key: Key, f: FlightId)
    requires f < |s.flights| && !OnTable(s, key, f) && Enabled(s, step)
    ensures f < |FlightsAfter(s, step)| && !OnTable(After(s, step), key, f)
  {
    FlightsKeepKeys(s, step);
  }

  /** A stranded flight leaves the table exactly when a forced caller of the key finishes, and then for good. */
  lemma {:induction false} OrphanLeavesExactlyByForcedCaller(
    states: seq<State>, steps: seq<Step>, j: nat, k: nat, key: Key, f: FlightId)
    requires Follows((s, step, s') => Next(s, step, s'), states, steps) && j <= k <= |steps|
    requires Orphaned(states[j], key, f)
    ensures if OnTable(states[k], key, f) then Orphaned(states[k], key, f) else f < |states[k].flights|
    ensures OnTable(states[k], key, f) <==>
            forall i :: j <= i < k ==> Enabled(states[i], steps[i]) && !TakesOff(states[i], steps[i], key)
  {
    if j < k {
      OrphanLeavesExactlyByForcedCaller(states, steps, j, k - 1, key, f);
      assert Next(states[k - 1], steps[k - 1], states[k - 1 + 1]);
      if OnTable(states[k - 1], key, f) {
        OrphanedAfterStep(states[k - 1], steps[k - 1], key, f);
      } else {
        GoneAfterStep(states[k - 1], steps[k - 1], key, f);
      }
    }
  }

  /** The forced caller that takes it off then wakes its followers. */
  lemma ForcedCallerWakesFollowers(s: State, t: Thread, key: Key, f: FlightId, u: Thread)
    requires Orphaned(s, key, f) && Enabled(s, PopFlight(t)) && s.threads[t].key == key
    requires u in s.threads && s.threads[u] == Wait(key, f)
    ensures var popped := After(s, PopFlight(t)); Enabled(popped, SetFlight(t)) && Enabled(After(popped, SetFlight(t)), Wake(u))
  {
  }

  lemma StrandedIsOrphaned(s: State, key: Key, f: FlightId)
    requires Stranded(s, key, f)
    ensures Orphaned(s, key, f)
  {
  }

  // ---------------------------------------------------------------- the loader runs once

  /** No forced caller, no removal, no rejected or raising store. */
  predicate Calm(step: Step) {
    !ForcedEntry(step) && !step.Evict? && !step.StoreRaises? && (step.Store? ==> step.accepted)
  }

  ghost predicate StoringSome(s: State, key: Key) {
    exists t :: t in s.threads && s.threads[t].Storing? && s.threads[t].key == key
  }

  predicate LoadFits(s: State, pc: Pc) {
    && (pc.Load? ==> Count(s.loads, pc.key) == 0 && pc.key !in s.cache)
    && (pc.Storing? ==> pc.key !in s.cache)
  }

  /** A key that was loaded is cached or about to be; nobody loads a key that is. */
  ghost predicate LoadedOnce(s: State) {
    && Unforced(s)
    && (forall key :: Count(s.loads, key) <= 1)
    && (forall t :: t in s.threads ==> LoadFits(s, s.threads[t]))
    && (forall key :: key in s.loads && Count(s.loads, key) == 1 ==> key in s.cache || StoringSome(s, key))
  }

  lemma StoringAfterStep(s: State, step: Step, key: Key)
    requires LoadedOnce(s) && Enabled(s, step) && Calm(step)
    requires Count(LoadsAfter(s, step), key) == 1
    ensures key in CacheAfter(s, step) || StoringSome(After(s, step), key)
  {
    var s' := After(s, step);
    if step.LoaderReturns? && s.threads[step.t].key == key {
      assert s'.threads[step.t].Storing? && s'.threads[step.t].key == key;
    } else if key !in s.cache {
      assert Count(s.loads, key) == 1;
      assert StoringSome(s, key);
      var t :| t in s.threads && s.threads[t].Storing? && s.threads[t].key == key;
      if t != step.t {
        assert s'.threads[t] == s.threads[t];
      }
    }
  }

  lemma LoadFitsAfterStep(s: State, step: Step, t: Thread)
    requires LoadedOnce(s) && Enabled(s, step) && Calm(step) && t in After(s, step).threads
    ensures LoadFits(After(s, step), After(s, step).threads[t])
  {
    var s' := After(s, step);
    var pc := s'.threads[t];
    assert t in s.threads && LoadFits(s, s.threads[t]);
    if t == step.t && step.SecondGet? && pc.Load? && Count(s.loads, pc.key) == 1 {
      assert StoringSome(s, pc.key);
      var u :| u in s.threads && s.threads[u].Storing? && s.threads[u].key == pc.key;
      OneLeader(s, t, u, pc.key);
    } else if t != step.t && (pc.Load? || pc.Storing?) && LeadsKey(s.threads[step.t], pc.key) {
      OneLeader(s, t, step.t, pc.key);
    }
  }

  lemma LoadedOnceAfterStep(s: State, step: Step)
    requires LoadedOnce(s) && Enabled(s, step) && Calm(step)
    ensures LoadedOnce(After(s, step))
  {
    var s' := After(s, step);
    UnforcedAfterStep(s, step);
    forall key
      ensures Count(s'.loads, key) <= 1
    {
      if step.LoaderReturns? {
        assert LoadFits(s, s.threads[step.t]);
      }
      assert Count(s.loads, key) <= 1;
    }
    forall t | t in s'.threads
      ensures LoadFits(s', s'.threads[t])
    {
      LoadFitsAfterStep(s, step, t);
    }
    forall key | key in s'.loads && Count(s'.loads, key) == 1
      ensures key in s'.cache || StoringSome(s', key)
    {
      StoringAfterStep(s, step, key);
    }
  }

  /** Without forced callers and removals, each key's loader returns at most once, however threads interleave. */
  lemma LoaderReturnsOnce(states: seq<State>, steps: seq<Step>, k: nat, key: Key)
    requires IsRun(states, steps) && k <= |steps|
    requires forall i :: 0 <= i < |steps| ==> Calm(steps[i])
    ensures Count(states[k].loads, key) <= 1
  {
    forall s, step, s' | LoadedOnce(s) && Next(s, step, s') && Calm(step)
      ensures LoadedOnce(s')
    {
      LoadedOnceAfterStep(s, step);
    }
    Invariance(s => LoadedOnce(s), (s, step: Step, s') => Next(s, step, s') && Calm(step), states, steps, k);
  }

  // ---------------------------------------------------------------- what a call comes back with

  /** From here on the call can only come back with this outcome. */
  predicate Carries(pc: Pc, outcome: Outcome) {
    || pc.Out?
    || (pc.Storing? && outcome == Loaded(pc.value))
    || (pc.Finish? && outcome == pc.outcome)
    || (pc.Setting? && outcome == pc.outcome)
    || (pc.Done? && outcome == pc.outcome)
  }

  predicate EnteredBy(step: Step, t: Thread) {
    step.Enter? && step.t == t
  }

  lemma CarriedOn(s: State, step: Step, t: Thread, outcome: Outcome)
    requires Enabled(s, step) && !EnteredBy(step, t) && t in s.threads && Carries(s.threads[t], outcome)
    ensures t in After(s, step).threads && Carries(After(s, step).threads[t], outcome)
  {
  }

  lemma {:induction false} CarriedOverRun(states: seq<State>, steps: seq<Step>, j: nat, k: nat, t: Thread, outcome: Outcome)
    requires IsRun(states, steps) && j <= k <= |steps|
    requires forall i :: j <= i < k ==> !EnteredBy(steps[i], t)
    requires t in states[j].threads && Carries(states[j].threads[t], outcome)
    ensures t in states[k].threads && Carries(states[k].threads[t], outcome)
  {
    if j < k {
      CarriedOverRun(states, steps, j, k - 1, t, outcome);
      assert Next(states[k - 1], steps[k - 1], states[k - 1 + 1]);
      CarriedOn(states[k - 1], steps[k - 1], t, outcome);
    }
  }

  /** The call of thread `t` that is in progress at state `i` has come back by state `k`. */
  ghost predicate SameCallDone(states: seq<State>, steps: seq<Step>, i: nat, k: nat, t: Thread) {
    && IsRun(states, steps) && i < k <= |steps|
    && (forall m :: i < m < k ==> !EnteredBy(steps[m], t))
    && t in states[i].threads && t in states[k].threads && states[k].threads[t].Done?
  }

  /** A call comes back with what its own loader returned or raised, forced or not, whatever the cache holds. */
  lemma LoaderDecides(states: seq<State>, steps: seq<Step>, i: nat, k: nat, t: Thread)
    requires SameCallDone(states, steps, i, k, t)
    ensures forall value :: steps[i] == LoaderReturns(t, value) ==> states[k].threads[t].outcome == Loaded(value)
    ensures forall error :: steps[i] == LoaderRaises(t, error) ==> states[k].threads[t].outcome == Raised(error)
  {
    assert Next(states[i], steps[i], states[i + 1]);
    if steps[i].LoaderReturns? && steps[i].t == t {
      CarriedOverRun(states, steps, i + 1, k, t, Loaded(steps[i].value));
    }
    if steps[i].LoaderRaises? && steps[i].t == t {
      CarriedOverRun(states, steps, i + 1, k, t, Raised(steps[i].error));
    }
  }

  /** A call whose first or second lookup hits comes back with the cached value of that moment. */
  lemma HitDecides(states: seq<State>, steps: seq<Step>, i: nat, k: nat, t: Thread)
    requires SameCallDone(states, steps, i, k, t)
    ensures steps[i] == FirstGet(t) && states[i].threads[t].Probe? && states[i].threads[t].key in states[i].cache ==>
              states[k].threads[t].outcome == Loaded(states[i].cache[states[i].threads[t].key])
    ensures steps[i] == SecondGet(t) && states[i].threads[t].Recheck? && states[i].threads[t].key in states[i].cache ==>
              states[k].threads[t].outcome == Loaded(states[i].cache[states[i].threads[t].key])
  {
    assert Next(states[i], steps[i], states[i + 1]);
    if (steps[i] == FirstGet(t) && states[i].threads[t].Probe?) || (steps[i] == SecondGet(t) && states[i].threads[t].Recheck?) {
      if states[i].threads[t].key in states[i].cache {
        CarriedOverRun(states, steps, i + 1, k, t, Loaded(states[i].cache[states[i].threads[t].key]));
      }
    }
  }

  /** A forced call comes back only after a loader run of its own, whatever the cache and the other flights hold. */
  lemma {:induction false} ForcedCallLoads(states: seq<State>, steps: seq<Step>, i: nat, k: nat, t: Thread, key: Key) returns (m: nat)
    requires SameCallDone(states, steps, i, k, t) && steps[i] == Enter(t, key, true)
    ensures i < m < k && (steps[m].LoaderReturns? || steps[m].LoaderRaises?) && steps[m].t == t
  {
    m := LoadsOrWillLoad(states, steps, i, k, t, key);
  }

  lemma {:induction false} LoadsOrWillLoad(states: seq<State>, steps: seq<Step>, i: nat, k: nat, t: Thread, key: Key) returns (m: nat)
    requires IsRun(states, steps) && i < k <= |steps| && t in states[i].threads
    requires steps[i] == Enter(t, key, true) && forall j :: i < j < k ==> !EnteredBy(steps[j], t)
    ensures t in states[k].threads
    ensures states[k].threads[t] == Load(key, None)
            || (i < m < k && (steps[m].LoaderReturns? || steps[m].LoaderRaises?) && steps[m].t == t)
  {
    assert Next(states[k - 1], steps[k - 1], states[k - 1 + 1]);
    m := k - 1;
    if k - 1 > i {
      var before := LoadsOrWillLoad(states, steps, i, k - 1, t, key);
      if states[k - 1].threads[t] != Load(key, None) || steps[k - 1].Evict? || steps[k - 1].t != t {
        m := before;
      }
    }
  }

  /** What an accepted store leaves in the cache is what the loader of that call returned. */
  lemma StoredIsLoaded(states: seq<State>, steps: seq<Step>, i: nat, k: nat, t: Thread, value: int)
    requires IsRun(states, steps) && i < k < |steps| && steps[i] == LoaderReturns(t, value)
    requires forall m :: i < m < k ==> !EnteredBy(steps[m], t)
    requires steps[k].Store? && steps[k].t == t
    ensures t in states[k].threads && states[k].threads[t].Storing?
    ensures var key := states[k].threads[t].key;
            if steps[k].accepted then key in states[k + 1].cache && states[k + 1].cache[key] == value
            else states[k + 1].cache == states[k].cache
    ensures forall other :: other != states[k].threads[t].key ==>
              (other in states[k + 1].cache <==> other in states[k].cache)
              && (other in states[k].cache ==> states[k + 1].cache[other] == states[k].cache[other])
  {
    assert Next(states[i], steps[i], states[i + 1]);
    CarriedOverRun(states, steps, i + 1, k, t, Loaded(value));
    assert Next(states[k], steps[k], states[k + 1]);
  }

  /** Step `i` decides flight `f`: its creator's loader returned or raised, or its second lookup hit. */
  ghost predicate DecidedBy(states: seq<State>, steps: seq<Step>, i: nat, f: FlightId, outcome: Outcome)
    requires |states| == |steps| + 1 && i < |steps|
  {
    var s, step := states[i], steps[i];
    && !step.Evict? && step.t in s.threads && f < |s.flights| && s.flights[f].creator == step.t
    && match step
       case LoaderReturns(t, value) => s.threads[t] == Load(s.flights[f].key, Some(f)) && outcome == Loaded(value)
       case LoaderRaises(t, error) => s.threads[t] == Load(s.flights[f].key, Some(f)) && outcome == Raised(error)
       case SecondGet(t) =>
         s.threads[t] == Recheck(s.flights[f].key, f) && s.flights[f].key in s.cache && outcome == Loaded(s.cache[s.flights[f].key])
       case _ => false
  }

  ghost predicate DecidedBefore(states: seq<State>, steps: seq<Step>, k: nat, f: FlightId, outcome: Outcome)
    requires |states| == |steps| + 1 && k <= |steps|
  {
    exists i :: 0 <= i < k && DecidedBy(states, steps, i, f, outcome)
  }

  /** Leaders about to store carry their loader's value, and every noted answer was decided by its flight's creator. */
  ghost predicate Traced(states: seq<State>, steps: seq<Step>, k: nat)
    requires |states| == |steps| + 1 && k <= |steps|
  {
    && (forall t :: t in states[k].threads && states[k].threads[t].Storing? && states[k].threads[t].mine.Some? ==>
          DecidedBefore(states, steps, k, states[k].threads[t].mine.value, Loaded(states[k].threads[t].value)))
    && (forall f :: f in states[k].answers ==> DecidedBefore(states, steps, k, f, states[k].answers[f]))
  }

  lemma DecidedStays(states: seq<State>, steps: seq<Step>, k: nat, f: FlightId, outcome: Outcome)
    requires |states| == |steps| + 1 && k < |steps| && DecidedBefore(states, steps, k, f, outcome)
    ensures DecidedBefore(states, steps, k + 1, f, outcome)
  {
    var i :| 0 <= i < k && DecidedBy(states, steps, i, f, outcome);
    assert DecidedBy(states, steps, i, f, outcome);
  }

  lemma StoringTraced(states: seq<State>, steps: seq<Step>, k: nat, t: Thread)
    requires IsRun(states, steps) && k < |steps| && ThreadsWellFormed(states[k]) && Traced(states, steps, k)
    requires t in states[k + 1].threads && states[k + 1].threads[t].Storing? && states[k + 1].threads[t].mine.Some?
    ensures DecidedBefore(states, steps, k + 1, states[k + 1].threads[t].mine.value, Loaded(states[k + 1].threads[t].value))
  {
    var s, step := states[k], steps[k];
    assert Next(s, step, states[k + 1]);
    assert PcWellFormed(s, t, s.threads[t]);
    if step.LoaderReturns? && step.t == t {
      assert DecidedBy(states, steps, k, states[k + 1].threads[t].mine.value, Loaded(step.value));
    } else {
      assert states[k + 1].threads[t] == s.threads[t];
      DecidedStays(states, steps, k, s.threads[t].mine.value, Loaded(s.threads[t].value));
    }
  }

  lemma AnswerTraced(states: seq<State>, steps: seq<Step>, k: nat, f: FlightId)
    requires IsRun(states, steps) && k < |steps| && ThreadsWellFormed(states[k]) && Traced(states, steps, k)
    requires f in states[k + 1].answers
    ensures DecidedBefore(states, steps, k + 1, f, states[k + 1].answers[f])
  {
    var s, step := states[k], steps[k];
    assert Next(s, step, states[k + 1]);
    if f in s.answers && states[k + 1].answers[f] == s.answers[f] {
      DecidedStays(states, steps, k, f, s.answers[f]);
    } else {
      assert PcWellFormed(s, step.t, s.threads[step.t]);
      if step.Store? {
        DecidedStays(states, steps, k, f, Loaded(s.threads[step.t].value));
      } else {
        assert DecidedBy(states, steps, k, f, states[k + 1].answers[f]);
      }
    }
  }

  lemma {:induction false} TracedOverRuns(states: seq<State>, steps: seq<Step>, k: nat)
    requires IsRun(states, steps) && k <= |steps|
    requires forall i :: 0 <= i < |steps| ==> !ForcedEntry(steps[i])
    ensures Traced(states, steps, k)
  {
    if k > 0 {
      TracedOverRuns(states, steps, k - 1);
      UnforcedOverRuns(states, steps, k - 1);
      forall t | t in states[k].threads && states[k].threads[t].Storing? && states[k].threads[t].mine.Some?
        ensures DecidedBefore(states, steps, k, states[k].threads[t].mine.value, Loaded(states[k].threads[t].value))
      {
        StoringTraced(states, steps, k - 1, t);
      }
      forall f | f in states[k].answers
        ensures DecidedBefore(states, steps, k, f, states[k].answers[f])
      {
        AnswerTraced(states, steps, k - 1, f);
      }
    }
  }

  /**
    Whoever took part in a flight comes back with what its creator's loader returned or raised, or with
    what its creator's second lookup found, and with nothing else.
   */
  lemma FollowersGetWhatWasLoaded(states: seq<State>, steps: seq<Step>, k: nat, t: Thread, f: FlightId) returns (i: nat)
    requires IsRun(states, steps) && k <= |steps|
    requires forall i :: 0 <= i < |steps| ==> !ForcedEntry(steps[i])
    requires t in states[k].threads && states[k].threads[t].Done? && states[k].threads[t].part == Some(f)
    ensures i < k && DecidedBy(states, steps, i, f, states[k].threads[t].outcome)
  {
    TracedOverRuns(states, steps, k);
    FollowersGetTheirLeadersAnswer(states, steps, k, t, t, f);
    assert DecidedBefore(states, steps, k, f, states[k].threads[t].outcome);
    i :| 0 <= i < k && DecidedBy(states, steps, i, f, states[k].threads[t].outcome);
  }

  /** A thread that waits takes part in the flight it waits for and in no other. */
  lemma WaitersTakePart(states: seq<State>, steps: seq<Step>, k: nat, t: Thread)
    requires IsRun(states, steps) && k < |steps| && steps[k] == Wake(t)
    ensures t in states[k].threads && states[k].threads[t].Wait?
    ensures t in states[k + 1].threads && states[k + 1].threads[t].Done?
    ensures states[k + 1].threads[t].part == Some(states[k].threads[t].flight)
  {
    assert Next(states[k], steps[k], states[k + 1]);
  }

  /** Step `m` gives the flight this outcome: a thread that took the flight off the table sets it and comes back with the same. */
  ghost predicate SetBy(states: seq<State>, steps: seq<Step>, m: nat, f: FlightId, outcome: Outcome)
    requires |states| == |steps| + 1 && m < |steps|
  {
    steps[m].SetFlight?
    && var u := steps[m].t;
      && u in states[m].threads && states[m].threads[u].Setting? && states[m].threads[u].popped == f
      && states[m].threads[u].outcome == outcome
      && u in states[m + 1].threads && states[m + 1].threads[u].Done? && states[m + 1].threads[u].outcome == outcome
  }

  lemma {:induction false} ResultsAreSet(states: seq<State>, steps: seq<Step>, k: nat, f: FlightId) returns (m: nat)
    requires IsRun(states, steps) && k <= |steps|
    requires f < |states[k].flights| && states[k].flights[f].result.Some?
    ensures m < k && SetBy(states, steps, m, f, states[k].flights[f].result.value)
  {
    assert k > 0 ==> Next(states[k - 1], steps[k - 1], states[k - 1 + 1]);
    if f < |states[k - 1].flights| && states[k - 1].flights[f] == states[k].flights[f] {
      m := ResultsAreSet(states, steps, k - 1, f);
    } else {
      m := k - 1;
    }
  }

  /** With forced callers too: a waiter comes back with what the thread that set its flight comes back with. */
  lemma WaitersGetTheSettersOutcome(states: seq<State>, steps: seq<Step>, k: nat, t: Thread) returns (m: nat)
    requires IsRun(states, steps) && k < |steps| && steps[k] == Wake(t)
    ensures t in states[k].threads && states[k].threads[t].Wait? && t in states[k + 1].threads && states[k + 1].threads[t].Done?
    ensures m < k && SetBy(states, steps, m, states[k].threads[t].flight, states[k + 1].threads[t].outcome)
  {
    assert Next(states[k], steps[k], states[k + 1]);
    m := ResultsAreSet(states, steps, k, states[k].threads[t].flight);
  }

  // ---------------------------------------------------------------- the stranded flight is reachable

  lemma Onward(states: seq<State>, steps: seq<Step>, step: Step) returns (states': seq<State>, steps': seq<Step>)
    requires IsRun(states, steps) && Enabled(states[|steps|], step)
    ensures IsRun(states', steps') && steps' == steps + [step] && |states'| == |states| + 1
    ensures states'[|steps'|] == After(states[|steps|], step) && states'[|steps|] == states[|steps|]
  {
    states', steps' := states + [After(states[|steps|], step)], steps + [step];
    forall k | 0 <= k < |steps'|
      ensures Next(states'[k], steps'[k], states'[k + 1])
    {
      if k < |steps| {
        assert Next(states[k], steps[k], states[k + 1]);
      }
    }
  }

  /** Two threads that have not started. */
  function TwoThreads(): State {
    State(map[], map[], [], map[0 := Out, 1 := Out], map[], map[])
  }

  /** The state with one open flight of thread 0 and the two threads where they are. */
  function OneFlight(key: Key, leader: Pc, follower: Pc, loads: map<Key, nat>): State {
    State(map[], map[key := 0], [Flight(key, 0, None)], map[0 := leader, 1 := follower], map[], loads)
  }

  lemma LeaderJoins(key: Key) returns (states: seq<State>, steps: seq<Step>)
    ensures IsRun(states, steps) && steps == [Enter(0, key, false), FirstGet(0), JoinFlight(0)]
    ensures states[3] == OneFlight(key, Recheck(key, 0), Out, map[])
  {
    var first := TwoThreads();
    states, steps := [first], [];
    states, steps := Onward(states, steps, Enter(0, key, false));
    assert states[1] == first.(threads := map[0 := Probe(key), 1 := Out]);
    states, steps := Onward(states, steps, FirstGet(0));
    assert states[2] == first.(threads := map[0 := Join(key), 1 := Out]);
    states, steps := Onward(states, steps, JoinFlight(0));
  }

  lemma FollowerJoins(key: Key) returns (states: seq<State>, steps: seq<Step>)
    ensures IsRun(states, steps)
    ensures steps == [Enter(0, key, false), FirstGet(0), JoinFlight(0), Enter(1, key, false), FirstGet(1), JoinFlight(1)]
    ensures states[6] == OneFlight(key, Recheck(key, 0), Wait(key, 0), map[])
  {
    states, steps := LeaderJoins(key);
    states, steps := Onward(states, steps, Enter(1, key, false));
    assert states[4] == OneFlight(key, Recheck(key, 0), Probe(key), map[]);
    states, steps := Onward(states, steps, FirstGet(1));
    assert states[5] == OneFlight(key, Recheck(key, 0), Join(key), map[]);
    states, steps := Onward(states, steps, JoinFlight(1));
  }

  lemma LeaderLoads(key: Key, value: int) returns (states: seq<State>, steps: seq<Step>)
    ensures IsRun(states, steps) && forall i :: 0 <= i < |steps| ==> !ForcedEntry(steps[i])
    ensures states[|steps|] == OneFlight(key, Storing(key, Some(0), value), Wait(key, 0), map[key := 1])
  {
    states, steps := FollowerJoins(key);
    states, steps := Onward(states, steps, SecondGet(0));
    assert states[7] == OneFlight(key, Load(key, Some(0)), Wait(key, 0), map[]);
    states, steps := Onward(states, steps, LoaderReturns(0, value));
  }

  /** A leader whose size estimate raises while another thread waits: the flight is stranded and so is the follower. */
  lemma SizeErrorStrandsFollower(key: Key, value: int) returns (states: seq<State>, steps: seq<Step>)
    ensures IsRun(states, steps) && forall i :: 0 <= i < |steps| ==> !ForcedEntry(steps[i])
    ensures |steps| > 0 && steps[|steps| - 1] == StoreRaises(0)
    ensures states[|steps| - 1].threads == map[0 := Storing(key, Some(0), value), 1 := Wait(key, 0)]
    ensures Stranded(states[|steps|], key, 0) && states[|steps|].threads == map[0 := Out, 1 := Wait(key, 0)]
  {
    states, steps := LeaderLoads(key, value);
    UnforcedOverRuns(states, steps, |steps|);
    RaisingSizeLeavesItsFlight(states[|steps|], 0);
    states, steps := Onward(states, steps, StoreRaises(0));
  }
}
