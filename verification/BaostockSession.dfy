/**
  The BaoStock session that all adapters of a process share: one login, counted by its holders, and a
  generation that every connection failure moves on.  Each operation here is one section under the
  global lock; between two attempts of a query other adapters may do anything.
 */
module BaostockSession {
  import opened Options

  type AdapterId = nat

  datatype Adapter = Adapter(acquired: bool, generation: Option<nat>, closed: bool)

  /** `server` is the generation of the login the server still knows, as far as the process can tell. */
  datatype State = State(loginCount: nat, generation: nat, adapters: map<AdapterId, Adapter>, server: Option<nat>)

  datatype LoginReply = Accepted | Rejected | LoginRaises

  datatype Reply = Rows(rows: seq<string>) | ConnectionFailure | SourceFailure(message: string) | CallRaises

  /** What the service would answer during one attempt. */
  datatype Round = Round(login: LoginReply, reply: Reply)

  datatype Verdict = Answer(rows: seq<string>) | SourceError(message: string) | Retry

  datatype Op = Open(id: AdapterId) | Try(id: AdapterId, round: Round) | Close(id: AdapterId)

  // ---------------------------------------------------------------- one operation

  function Invalidated(st: State): State {
    st.(generation := st.generation + 1, loginCount := 0)
  }

  predicate Holds(st: State, id: AdapterId) {
    id in st.adapters && st.adapters[id].acquired && st.adapters[id].generation == Some(st.generation)
  }

  function Opened(st: State, id: AdapterId): State {
    if id in st.adapters then st else st.(adapters := st.adapters[id := Adapter(false, None, false)])
  }

  /** Whether the adapter may go on to call the service. */
  predicate LogsIn(st: State, id: AdapterId, login: LoginReply) {
    Holds(st, id) || st.loginCount > 0 || login.Accepted?
  }

  function Joined(st: State, id: AdapterId): State
    requires id in st.adapters
  {
    if Holds(st, id) then st
    else
      State(st.loginCount + 1, st.generation,
            st.adapters[id := st.adapters[id].(acquired := true, generation := Some(st.generation))],
            if st.loginCount == 0 then Some(st.generation) else st.server)
  }

  function Forgotten(st: State, id: AdapterId): State
    requires id in st.adapters
  {
    st.(adapters := st.adapters[id := st.adapters[id].(generation := None)])
  }

  /** A connection error that the reply reports moves the generation twice. */
  function Tried(st: State, id: AdapterId, round: Round): (State, Verdict)
    requires id in st.adapters
  {
    if !LogsIn(st, id, round.login) then (Forgotten(Invalidated(st), id), Retry)
    else
      var joined := Joined(st, id);
      match round.reply
      case Rows(rows) => (joined, Answer(rows))
      case SourceFailure(message) => (joined, SourceError(message))
      case ConnectionFailure => (Forgotten(Invalidated(Invalidated(joined)), id), Retry)
      case CallRaises => (Forgotten(Invalidated(joined), id), Retry)
  }

  function Closed(st: State, id: AdapterId): State
    requires id in st.adapters
  {
    var a := st.adapters[id];
    if a.closed then st
    else if !Holds(st, id) then st.(adapters := st.adapters[id := Adapter(a.acquired, None, true)])
    else
      var left := if st.loginCount > 0 then st.loginCount - 1 else 0;
      State(left, st.generation, st.adapters[id := Adapter(false, None, true)], if left == 0 then None else st.server)
  }

  predicate Enabled(st: State, op: Op) {
    op.Open? || op.id in st.adapters
  }

  function Apply(st: State, op: Op): State {
    if !Enabled(st, op) then st
    else
      match op
      case Open(id) => Opened(st, id)
      case Try(id, round) => Tried(st, id, round).0
      case Close(id) => Closed(st, id)
  }

  function ApplyAll(st: State, ops: seq<Op>): State {
    if ops == [] then st else Apply(ApplyAll(st, ops[..|ops| - 1]), ops[|ops| - 1])
  }

  // ---------------------------------------------------------------- the invariant

  ghost function Holders(st: State): set<AdapterId> {
    set id | id in st.adapters && Holds(st, id)
  }

  /** The count is the number of holders, and there is a live login exactly when somebody holds it. */
  ghost predicate Inv(st: State) {
    && st.loginCount == |Holders(st)|
    && (forall id :: id in st.adapters && st.adapters[id].generation.Some? ==> st.adapters[id].generation.value <= st.generation)
    && (st.server.Some? ==> st.server.value <= st.generation)
    && (st.loginCount > 0 <==> st.server == Some(st.generation))
  }

  lemma InvalidatedKeepsInv(st: State)
    requires Inv(st)
    ensures Inv(Invalidated(st)) && Holders(Invalidated(st)) == {}
  {
    assert Holders(Invalidated(st)) == {};
  }

  lemma ForgottenKeepsInv(st: State, id: AdapterId)
    requires Inv(st) && id in st.adapters && !Holds(st, id)
    ensures Inv(Forgotten(st, id)) && Holders(Forgotten(st, id)) == Holders(st)
  {
    assert Holders(Forgotten(st, id)) == Holders(st);
  }

  lemma OpenedKeepsInv(st: State, id: AdapterId)
    requires Inv(st)
    ensures Inv(Opened(st, id)) && Holders(Opened(st, id)) == Holders(st)
  {
    assert Holders(Opened(st, id)) == Holders(st);
  }

  /** Every call of the service is made by a holder of the current login. */
  lemma CallsRunLoggedIn(st: State, id: AdapterId)
    requires Inv(st) && id in st.adapters
    ensures var joined := Joined(st, id);
            Inv(joined) && Holds(joined, id) && joined.server == Some(joined.generation)
            && Holders(joined) == Holders(st) + {id}
  {
    var joined := Joined(st, id);
    assert Holders(joined) == Holders(st) + {id};
    if !Holds(st, id) {
      assert id !in Holders(st);
    } else {
      assert id in Holders(st);
    }
  }

  lemma TriedKeepsInv(st: State, id: AdapterId, round: Round)
    requires Inv(st) && id in st.adapters
    ensures Inv(Tried(st, id, round).0)
  {
    if !LogsIn(st, id, round.login) {
      InvalidatedKeepsInv(st);
      NobodyHolds(Invalidated(st), id);
      ForgottenKeepsInv(Invalidated(st), id);
    } else {
      var joined := Joined(st, id);
      CallsRunLoggedIn(st, id);
      InvalidatedKeepsInv(joined);
      InvalidatedKeepsInv(Invalidated(joined));
      NobodyHolds(Invalidated(joined), id);
      NobodyHolds(Invalidated(Invalidated(joined)), id);
      ForgottenKeepsInv(Invalidated(joined), id);
      ForgottenKeepsInv(Invalidated(Invalidated(joined)), id);
    }
  }

  lemma NobodyHolds(st: State, id: AdapterId)
    requires Holders(st) == {}
    ensures !Holds(st, id)
  {
    assert Holds(st, id) ==> id in Holders(st);
  }

  lemma HoldersAfterClose(st: State, id: AdapterId)
    requires id in st.adapters && !st.adapters[id].closed
    ensures Holders(Closed(st, id)) == Holders(st) - {id}
  {
  }

  lemma ClosedKeepsInv(st: State, id: AdapterId)
    requires Inv(st) && id in st.adapters
    ensures Inv(Closed(st, id))
  {
    if !st.adapters[id].closed {
      HoldersAfterClose(st, id);
      if Holds(st, id) {
        assert id in Holders(st);
      } else {
        assert id !in Holders(st) && Holders(st) - {id} == Holders(st);
      }
    }
  }

  /** Closing the last holder logs out; closing any other leaves the login alone. */
  lemma LogoutExactlyWithLastHolder(st: State, id: AdapterId)
    requires Inv(st) && id in st.adapters
    ensures Closed(st, id).server != st.server <==> !st.adapters[id].closed && Holders(st) == {id}
  {
    if Holds(st, id) {
      assert id in Holders(st);
      assert st.loginCount == 1 <==> Holders(st) == {id} by {
        if st.loginCount == 1 {
          assert |Holders(st) - {id}| == 0;
        }
      }
    } else {
      assert id !in Holders(st);
    }
  }

  lemma ApplyKeepsInv(st: State, op: Op)
    requires Inv(st)
    ensures Inv(Apply(st, op))
  {
    if Enabled(st, op) {
      match op
      case Open(id) => OpenedKeepsInv(st, id);
      case Try(id, round) => TriedKeepsInv(st, id, round);
      case Close(id) => ClosedKeepsInv(st, id);
    }
  }

  /** However queries, failures and closes interleave, the login count is the number of holders. */
  lemma {:induction false} CountsOverRuns(st: State, ops: seq<Op>)
    requires Inv(st)
    ensures Inv(ApplyAll(st, ops))
  {
    if ops != [] {
      CountsOverRuns(st, ops[..|ops| - 1]);
      ApplyKeepsInv(ApplyAll(st, ops[..|ops| - 1]), ops[|ops| - 1]);
    }
  }

  /** The generation never goes back, so an adapter that lost its session never gets the old one again. */
  lemma {:induction false} GenerationOnlyRises(st: State, ops: seq<Op>)
    ensures st.generation <= ApplyAll(st, ops).generation
    ensures st.adapters.Keys <= ApplyAll(st, ops).adapters.Keys
  {
    if ops != [] {
      GenerationOnlyRises(st, ops[..|ops| - 1]);
    }
  }

  // ---------------------------------------------------------------- logins that nobody ends

  /** The attempt logs in anew: nobody holds the session and the service accepts. */
  predicate LogsInAnew(st: State, op: Op) {
    op.Try? && op.id in st.adapters && !Holds(st, op.id) && st.loginCount == 0 && op.round.login.Accepted?
  }

  /** The attempt loses a live login, its own included. */
  predicate Drops(st: State, op: Op) {
    op.Try? && op.id in st.adapters && LogsIn(st, op.id, op.round.login)
    && (op.round.reply.ConnectionFailure? || op.round.reply.CallRaises?)
  }

  predicate DropsAt(st: State, ops: seq<Op>, k: nat)
    requires k < |ops|
  {
    Drops(ApplyAll(st, ops[..k]), ops[k])
  }

  predicate LogsInAnewAt(st: State, ops: seq<Op>, k: nat)
    requires k < |ops|
  {
    LogsInAnew(ApplyAll(st, ops[..k]), ops[k])
  }

  /** The last lost login was not followed by a new one. */
  ghost predicate LostForGood(st: State, ops: seq<Op>) {
    exists k :: 0 <= k < |ops| && DropsAt(st, ops, k) && forall m :: k < m < |ops| ==> !LogsInAnewAt(st, ops, m)
  }

  /** The server still knows a login of an older generation, which no logout will end. */
  predicate Stale(st: State) {
    st.server.Some? && st.server.value < st.generation
  }

  lemma StaleAfterStep(st: State, op: Op)
    requires Inv(st)
    ensures Stale(Apply(st, op)) <==> Drops(st, op) || (Stale(st) && !LogsInAnew(st, op))
  {
    if op.Try? && op.id in st.adapters {
      CallsRunLoggedIn(st, op.id);
    }
    if op.Close? && op.id in st.adapters && Holds(st, op.id) {
      assert op.id in Holders(st);
    }
  }

  lemma SameInPrefix(st: State, ops: seq<Op>, n: nat, k: nat)
    requires k < n <= |ops|
    ensures DropsAt(st, ops[..n], k) == DropsAt(st, ops, k) && LogsInAnewAt(st, ops[..n], k) == LogsInAnewAt(st, ops, k)
  {
    assert ops[..n][..k] == ops[..k];
  }

  lemma LostStays(st: State, ops: seq<Op>, n: nat)
    requires |ops| == n + 1
    requires DropsAt(st, ops, n) || (LostForGood(st, ops[..n]) && !LogsInAnewAt(st, ops, n))
    ensures LostForGood(st, ops)
  {
    if !DropsAt(st, ops, n) {
      var init := ops[..n];
      var k :| 0 <= k < n && DropsAt(st, init, k) && forall m :: k < m < n ==> !LogsInAnewAt(st, init, m);
      SameInPrefix(st, ops, n, k);
      forall m | k < m < |ops|
        ensures !LogsInAnewAt(st, ops, m)
      {
        if m < n {
          SameInPrefix(st, ops, n, m);
        }
      }
    }
  }

  lemma LostBefore(st: State, ops: seq<Op>, n: nat)
    requires |ops| == n + 1 && LostForGood(st, ops) && !DropsAt(st, ops, n)
    ensures LostForGood(st, ops[..n]) && !LogsInAnewAt(st, ops, n)
  {
    var init := ops[..n];
    var k :| 0 <= k < |ops| && DropsAt(st, ops, k) && forall m :: k < m < |ops| ==> !LogsInAnewAt(st, ops, m);
    SameInPrefix(st, ops, n, k);
    forall m | k < m < n
      ensures !LogsInAnewAt(st, init, m)
    {
      SameInPrefix(st, ops, n, m);
    }
  }

  /** A stale login is left exactly when the last lost login was not followed by a new one. */
  lemma {:induction false} StaleExactlyWhenLost(st: State, ops: seq<Op>)
    requires Inv(st) && !Stale(st)
    ensures Stale(ApplyAll(st, ops)) <==> LostForGood(st, ops)
  {
    if ops != [] {
      var n := |ops| - 1;
      StaleExactlyWhenLost(st, ops[..n]);
      CountsOverRuns(st, ops[..n]);
      StaleAfterStep(ApplyAll(st, ops[..n]), ops[n]);
      if LostForGood(st, ops) && !DropsAt(st, ops, n) {
        LostBefore(st, ops, n);
      }
      if DropsAt(st, ops, n) || (LostForGood(st, ops[..n]) && !LogsInAnewAt(st, ops, n)) {
        LostStays(st, ops, n);
      }
    }
  }

  // ---------------------------------------------------------------- closing, and use after close

  ghost predicate NoUseAfterClose(st: State, ops: seq<Op>) {
    ops != [] ==>
      && NoUseAfterClose(st, ops[..|ops| - 1])
      && var before, last := ApplyAll(st, ops[..|ops| - 1]), ops[|ops| - 1];
        last.Try? && last.id in before.adapters ==> !before.adapters[last.id].closed
  }

  ghost predicate ClosedHoldNothing(st: State) {
    forall id :: id in st.adapters && st.adapters[id].closed ==> st.adapters[id].generation.None?
  }

  lemma {:induction false} ClosedHoldNothingOverRuns(st: State, ops: seq<Op>)
    requires ClosedHoldNothing(st) && NoUseAfterClose(st, ops)
    ensures ClosedHoldNothing(ApplyAll(st, ops))
  {
    if ops != [] {
      ClosedHoldNothingOverRuns(st, ops[..|ops| - 1]);
    }
  }

  ghost predicate AllClosed(st: State) {
    forall id :: id in st.adapters ==> st.adapters[id].closed
  }

  /**
    When every adapter has been closed and none was used after that, nobody holds the session, and the
    server knows no login at all exactly when every lost login was followed by a new one.
   */
  lemma AllClosedMeansLoggedOut(st: State, ops: seq<Op>)
    requires Inv(st) && !Stale(st) && ClosedHoldNothing(st) && NoUseAfterClose(st, ops)
    requires AllClosed(ApplyAll(st, ops))
    ensures var end := ApplyAll(st, ops); end.loginCount == 0 && end.server != Some(end.generation)
    ensures ApplyAll(st, ops).server.None? <==> !LostForGood(st, ops)
  {
    var end := ApplyAll(st, ops);
    CountsOverRuns(st, ops);
    ClosedHoldNothingOverRuns(st, ops);
    StaleExactlyWhenLost(st, ops);
    assert Holders(end) == {};
  }

  /** One adapter, one call that raises, one close: its login is never logged out. */
  lemma LostLoginIsNeverLoggedOut()
    ensures var st, ops := State(0, 0, map[], None), [Open(0), Try(0, Round(Accepted, CallRaises)), Close(0)];
            && Inv(st) && !Stale(st) && ClosedHoldNothing(st) && NoUseAfterClose(st, ops)
            && AllClosed(ApplyAll(st, ops)) && ApplyAll(st, ops).server == Some(0)
  {
    var st := State(0, 0, map[], None);
    var first, second, third := Open(0), Try(0, Round(Accepted, CallRaises)), Close(0);
    assert Holders(st) == {};
    var one, two := [first], [first, second];
    var ops := [first, second, third];
    assert ops[..2] == two && two[..1] == one && one[..0] == [];
    assert ApplyAll(st, one) == Opened(st, 0);
    assert ApplyAll(st, two) == Tried(ApplyAll(st, one), 0, second.round).0;
    assert ApplyAll(st, ops) == Closed(ApplyAll(st, two), 0);
    assert NoUseAfterClose(st, []) && NoUseAfterClose(st, one) && NoUseAfterClose(st, two);
  }

  /** Trying a closed adapter is harmless exactly when it cannot log in or its call fails on the connection. */
  lemma UseAfterCloseHoldsExactlyWhen(st: State, id: AdapterId, round: Round)
    requires Inv(st) && ClosedHoldNothing(st) && id in st.adapters && st.adapters[id].closed
    ensures ClosedHoldNothing(Tried(st, id, round).0) <==>
            !LogsIn(st, id, round.login) || round.reply.ConnectionFailure? || round.reply.CallRaises?
  {
    assert st.adapters[id].generation.None?;
    if LogsIn(st, id, round.login) && (round.reply.Rows? || round.reply.SourceFailure?) {
      var next := Tried(st, id, round).0;
      assert next.adapters[id].closed && next.adapters[id].generation.Some?;
    }
  }

  /** A closed adapter that holds a login keeps it: closing it once more does nothing. */
  lemma UseAfterCloseLeaks(st: State, id: AdapterId)
    requires Holds(st, id) && st.adapters[id].closed
    ensures Apply(st, Close(id)) == st
  {
  }

  // ---------------------------------------------------------------- schedules, whatever the service does

  /** What the adapters' users do; how the service answers the k-th act is not theirs to say. */
  datatype Act = Opens(id: AdapterId) | Tries(id: AdapterId) | Closes(id: AdapterId)

  function Performed(act: Act, round: Round): Op {
    match act
    case Opens(id) => Open(id)
    case Tries(id) => Try(id, round)
    case Closes(id) => Close(id)
  }

  function With(acts: seq<Act>, service: nat -> Round): seq<Op> {
    if acts == [] then [] else With(acts[..|acts| - 1], service) + [Performed(acts[|acts| - 1], service(|acts| - 1))]
  }

  /** Which adapters exist, and whether each is closed. */
  function Shut(st: State): map<AdapterId, bool> {
    map id | id in st.adapters :: st.adapters[id].closed
  }

  function ShutAfter(shut: map<AdapterId, bool>, acts: seq<Act>): map<AdapterId, bool> {
    if acts == [] then shut
    else
      ShutByAct(ShutAfter(shut, acts[..|acts| - 1]), acts[|acts| - 1])
  }

  function ShutByAct(shut: map<AdapterId, bool>, act: Act): map<AdapterId, bool> {
    match act
    case Opens(id) => if id in shut then shut else shut[id := false]
    case Tries(_) => shut
    case Closes(id) => if id in shut then shut[id := true] else shut
  }

  ghost predicate NeverTriedAfterClose(shut: map<AdapterId, bool>, acts: seq<Act>) {
    acts != [] ==>
      && NeverTriedAfterClose(shut, acts[..|acts| - 1])
      && var before, last := ShutAfter(shut, acts[..|acts| - 1]), acts[|acts| - 1];
        last.Tries? && last.id in before ==> !before[last.id]
  }

  lemma ShutAfterOne(st: State, act: Act, round: Round)
    ensures Shut(Apply(st, Performed(act, round))) == ShutByAct(Shut(st), act)
  {
    var next, shut := Apply(st, Performed(act, round)), ShutByAct(Shut(st), act);
    assert next.adapters.Keys == shut.Keys;
    forall id | id in shut
      ensures next.adapters[id].closed == shut[id]
    {
    }
  }

  lemma {:induction false} ShutByActs(st: State, acts: seq<Act>, service: nat -> Round)
    ensures Shut(ApplyAll(st, With(acts, service))) == ShutAfter(Shut(st), acts)
    ensures NoUseAfterClose(st, With(acts, service)) <==> NeverTriedAfterClose(Shut(st), acts)
  {
    if acts != [] {
      var init, last := acts[..|acts| - 1], acts[|acts| - 1];
      ShutByActs(st, init, service);
      var ops := With(init, service);
      var before := ApplyAll(st, ops);
      assert With(acts, service)[..|ops|] == ops;
      ShutAfterOne(before, last, service(|acts| - 1));
    }
  }

  /** A service that is always well. */
  function Well(): nat -> Round {
    (k: nat) => Round(Accepted, Rows([]))
  }

  predicate ShutButHolding(st: State, id: AdapterId) {
    Holds(st, id) && st.adapters[id].closed
  }

  /** While the service is well, a closed adapter keeps what it holds. */
  lemma ShutKeepsHolding(st: State, act: Act, id: AdapterId)
    requires ShutButHolding(st, id)
    ensures ShutButHolding(Apply(st, Performed(act, Round(Accepted, Rows([])))), id)
  {
  }

  lemma TryingShutHolds(st: State, id: AdapterId)
    requires id in st.adapters && st.adapters[id].closed
    ensures ShutButHolding(Apply(st, Performed(Tries(id), Round(Accepted, Rows([])))), id)
  {
  }

  /** With a service that is well, a closed adapter that was tried holds its login for good. */
  lemma {:induction false} TriedAfterCloseHolds(st: State, acts: seq<Act>) returns (id: AdapterId)
    requires !NeverTriedAfterClose(Shut(st), acts)
    ensures ShutButHolding(ApplyAll(st, With(acts, Well())), id)
  {
    var init, last := acts[..|acts| - 1], acts[|acts| - 1];
    var ops := With(init, Well());
    assert With(acts, Well())[..|ops|] == ops;
    ShutByActs(st, init, Well());
    if NeverTriedAfterClose(Shut(st), init) {
      id := last.id;
      TryingShutHolds(ApplyAll(st, ops), id);
    } else {
      id := TriedAfterCloseHolds(st, init);
      ShutKeepsHolding(ApplyAll(st, ops), last, id);
    }
  }

  /**
    A schedule that closes all its adapters leaves nobody holding the session, whatever the service does,
    exactly when no adapter is tried after its close.
   */
  lemma LeavesNoHolderExactlyWhen(st: State, acts: seq<Act>)
    requires Inv(st) && !Stale(st) && ClosedHoldNothing(st)
    requires forall id :: id in ShutAfter(Shut(st), acts) ==> ShutAfter(Shut(st), acts)[id]
    ensures (forall service :: ApplyAll(st, With(acts, service)).loginCount == 0) <==> NeverTriedAfterClose(Shut(st), acts)
  {
    if NeverTriedAfterClose(Shut(st), acts) {
      forall service: nat -> Round
        ensures ApplyAll(st, With(acts, service)).loginCount == 0
      {
        ShutByActs(st, acts, service);
        AllShutIsAllClosed(ApplyAll(st, With(acts, service)));
        AllClosedMeansLoggedOut(st, With(acts, service));
      }
    } else {
      var id := TriedAfterCloseHolds(st, acts);
      var end := ApplyAll(st, With(acts, Well()));
      CountsOverRuns(st, With(acts, Well()));
      assert id in Holders(end);
      assert ApplyAll(st, With(acts, Well())).loginCount != 0;
    }
  }

  lemma AllShutIsAllClosed(st: State)
    requires forall id :: id in Shut(st) ==> Shut(st)[id]
    ensures AllClosed(st)
  {
    forall id | id in st.adapters
      ensures st.adapters[id].closed
    {
      assert id in Shut(st);
    }
  }

  // ---------------------------------------------------------------- a whole query

  datatype Result = Fetched(rows: seq<string>) | Failed(message: string) | GaveUp

  /** Attempts `k` up to `n`; other adapters do `others(k)` while the query sleeps after attempt `k`. */
  function QueryFrom(st: State, id: AdapterId, k: nat, n: nat, rounds: nat -> Round, others: nat -> seq<Op>): (State, Result)
    requires id in st.adapters
    decreases n - k
  {
    if k >= n then (st, GaveUp)
    else
      var (next, verdict) := Tried(st, id, rounds(k));
      match verdict
      case Answer(rows) => (next, Fetched(rows))
      case SourceError(message) => (next, Failed(message))
      case Retry =>
        if k + 1 < n then
          GenerationOnlyRises(next, others(k));
          QueryFrom(ApplyAll(next, others(k)), id, k + 1, n, rounds, others)
        else (next, GaveUp)
  }

  /** A round whose login is accepted and whose reply has rows succeeds in every state. */
  predicate Good(round: Round) {
    round.login.Accepted? && round.reply.Rows?
  }

  /** A query gives up only if none of its attempts met a service that was well. */
  lemma {:induction false} GoodRoundSucceeds(
    st: State, id: AdapterId, k: nat, n: nat, rounds: nat -> Round, others: nat -> seq<Op>, good: nat)
    requires id in st.adapters && k <= good < n && Good(rounds(good))
    requires forall j :: k <= j < good ==> !rounds(j).reply.SourceFailure?
    ensures QueryFrom(st, id, k, n, rounds, others).1.Fetched?
    decreases n - k
  {
    var (next, verdict) := Tried(st, id, rounds(k));
    if verdict.Retry? {
      GenerationOnlyRises(next, others(k));
      GoodRoundSucceeds(ApplyAll(next, others(k)), id, k + 1, n, rounds, others, good);
    }
  }

  /** An attempt that is to be retried moved the generation on and holds nothing; any other holds the session. */
  lemma AttemptHoldsOrMoves(st: State, id: AdapterId, round: Round)
    requires Inv(st) && id in st.adapters
    ensures var (next, verdict) := Tried(st, id, round);
            && id in next.adapters
            && (if verdict.Retry? then next.generation > st.generation && !Holds(next, id)
                else next.generation == st.generation && Holds(next, id))
  {
    CallsRunLoggedIn(st, id);
  }

  /** The session survives a query that succeeds or is refused, and the adapter ends up holding it. */
  lemma {:induction false} QueryKeepsInv(
    st: State, id: AdapterId, k: nat, n: nat, rounds: nat -> Round, others: nat -> seq<Op>)
    requires Inv(st) && id in st.adapters
    ensures var (end, result) := QueryFrom(st, id, k, n, rounds, others);
            Inv(end) && id in end.adapters && st.generation <= end.generation
            && (!result.GaveUp? ==> Holds(end, id))
            && (result.GaveUp? && k < n ==> end.generation >= st.generation + (n - k) && !Holds(end, id))
    decreases n - k
  {
    if k < n {
      var (next, verdict) := Tried(st, id, rounds(k));
      TriedKeepsInv(st, id, rounds(k));
      AttemptHoldsOrMoves(st, id, rounds(k));
      if verdict.Retry? && k + 1 < n {
        GenerationOnlyRises(next, others(k));
        CountsOverRuns(next, others(k));
        QueryKeepsInv(ApplyAll(next, others(k)), id, k + 1, n, rounds, others);
      }
    }
  }

  // ---------------------------------------------------------------- what an attempt and a query do, field by field

  /** The adapter logged in under the present generation. */
  predicate InSession(st: State, id: AdapterId) {
    id in st.adapters && st.adapters[id].acquired && st.adapters[id].generation == Some(st.generation)
  }

  /** The adapter is in session, somebody else is, or the service lets it in. */
  predicate Reaches(st: State, id: AdapterId, round: Round) {
    InSession(st, id) || st.loginCount > 0 || round.login == Accepted
  }

  /** No login, or a failure of the connection: the attempt does not decide the query. */
  predicate Undecided(st: State, id: AdapterId, round: Round) {
    !Reaches(st, id, round) || round.reply == ConnectionFailure || round.reply == CallRaises
  }

  /**
    An attempt that decides joins the session, with a login of the service only when nobody holds one, and
    tells the service's reply; one that does not leaves everybody out: reported connection failures move
    the generation by two, all others by one.
   */
  lemma AttemptIs(st: State, id: AdapterId, round: Round)
    requires id in st.adapters
    ensures var (next, verdict) := Tried(st, id, round);
            && (verdict == Retry <==> Undecided(st, id, round))
            && (forall rows :: verdict == Answer(rows) <==> Reaches(st, id, round) && round.reply == Rows(rows))
            && (forall text :: verdict == SourceError(text) <==> Reaches(st, id, round) && round.reply == SourceFailure(text))
    ensures var next := Tried(st, id, round).0;
            if Undecided(st, id, round) then
              && next.loginCount == 0
              && next.generation == st.generation + (if Reaches(st, id, round) && round.reply == ConnectionFailure then 2 else 1)
              && id in next.adapters && next.adapters[id].generation == None
            else
              && next.loginCount == st.loginCount + (if InSession(st, id) then 0 else 1)
              && next.generation == st.generation && InSession(next, id)
    ensures var next := Tried(st, id, round).0;
            && next.adapters.Keys == st.adapters.Keys && next.adapters[id].closed == st.adapters[id].closed
            && (forall other :: other in st.adapters && other != id ==> next.adapters[other] == st.adapters[other])
            && next.server == (if Reaches(st, id, round) && !InSession(st, id) && st.loginCount == 0
                               then Some(st.generation) else st.server)
  {
  }

  /** A first close gives back the adapter's own login, logging out of the service when it was the last; a second does nothing. */
  lemma CloseIs(st: State, id: AdapterId)
    requires Inv(st) && id in st.adapters
    ensures st.adapters[id].closed ==> Closed(st, id) == st
    ensures var next := Closed(st, id);
            !st.adapters[id].closed ==>
              && next.adapters.Keys == st.adapters.Keys && next.generation == st.generation
              && next.adapters[id].closed && next.adapters[id].generation == None
              && next.loginCount == st.loginCount - (if InSession(st, id) then 1 else 0)
              && next.server == (if InSession(st, id) && st.loginCount == 1 then None else st.server)
              && forall other :: other in st.adapters && other != id ==> next.adapters[other] == st.adapters[other]
  {
    if Holds(st, id) {
      assert id in Holders(st);
    }
  }

  /** The states in which the attempts of a query begin: each but the last decided nothing, and then the others acted. */
  ghost predicate Trail(trail: seq<State>, id: AdapterId, rounds: nat -> Round, others: nat -> seq<Op>) {
    && trail != [] && (forall j :: 0 <= j < |trail| ==> id in trail[j].adapters)
    && forall j :: 0 <= j < |trail| - 1 ==> Undecided(trail[j], id, rounds(j)) && Follows(trail[j], trail[j + 1], id, rounds(j), others(j))
  }

  predicate Follows(st: State, next: State, id: AdapterId, round: Round, others: seq<Op>) {
    id in st.adapters && next == ApplyAll(Tried(st, id, round).0, others)
  }

  lemma UndecidedIsRetried(st: State, id: AdapterId, round: Round)
    requires id in st.adapters
    ensures Tried(st, id, round).1.Retry? <==> Undecided(st, id, round)
    ensures Tried(st, id, round).0.adapters.Keys == st.adapters.Keys
  {
  }

  lemma QueryStep(st: State, id: AdapterId, k: nat, n: nat, rounds: nat -> Round, others: nat -> seq<Op>)
    requires id in st.adapters && k + 1 < n && Undecided(st, id, rounds(k))
    ensures id in Tried(st, id, rounds(k)).0.adapters && id in ApplyAll(Tried(st, id, rounds(k)).0, others(k)).adapters
    ensures QueryFrom(st, id, k, n, rounds, others) ==
            QueryFrom(ApplyAll(Tried(st, id, rounds(k)).0, others(k)), id, k + 1, n, rounds, others)
  {
    UndecidedIsRetried(st, id, rounds(k));
    GenerationOnlyRises(Tried(st, id, rounds(k)).0, others(k));
  }

  lemma LastAttempt(st: State, id: AdapterId, k: nat, n: nat, rounds: nat -> Round, others: nat -> seq<Op>)
    requires id in st.adapters && k < n && (k + 1 == n || !Undecided(st, id, rounds(k)))
    ensures QueryFrom(st, id, k, n, rounds, others).1 ==
              if Undecided(st, id, rounds(k)) then GaveUp
              else if rounds(k).reply.Rows? then Fetched(rounds(k).reply.rows)
              else if rounds(k).reply.SourceFailure? then Failed(rounds(k).reply.message) else GaveUp
  {
    AttemptIs(st, id, rounds(k));
  }

  /**
    The first attempt that decides answers the query, with the rows or the message of its own reply; the
    query gives up exactly when none of its attempts decides.
   */
  lemma FirstDecisionAnswers(st: State, id: AdapterId, n: nat, rounds: nat -> Round, others: nat -> seq<Op>) returns (trail: seq<State>)
    requires id in st.adapters && n > 0
    ensures Trail(trail, id, rounds, others) && trail[0] == st && |trail| <= n
    ensures var k, result := |trail| - 1, QueryFrom(st, id, 0, n, rounds, others).1;
            if Undecided(trail[k], id, rounds(k)) then |trail| == n && result == GaveUp
            else match rounds(k).reply
                 case Rows(rows) => result == Fetched(rows)
                 case SourceFailure(text) => result == Failed(text)
                 case _ => false
  {
    trail := [st];
    var last := st;
    while |trail| < n && Undecided(last, id, rounds(|trail| - 1))
      invariant 0 < |trail| <= n && trail[0] == st && last == trail[|trail| - 1]
      invariant Trail(trail, id, rounds, others)
      invariant QueryFrom(st, id, 0, n, rounds, others) == QueryFrom(last, id, |trail| - 1, n, rounds, others)
    {
      QueryStep(last, id, |trail| - 1, n, rounds, others);
      last := ApplyAll(Tried(last, id, rounds(|trail| - 1)).0, others(|trail| - 1));
      trail := trail + [last];
    }
    LastAttempt(last, id, |trail| - 1, n, rounds, others);
  }

  // ---------------------------------------------------------------- the adapters of one process

  class BaoStock {
    var loginCount: nat
    var generation: nat
    var adapters: map<AdapterId, Adapter>
    var server: Option<nat>

    function Abstract(): State
      reads this
    {
      State(loginCount, generation, adapters, server)
    }

    constructor ()
      ensures Abstract() == State(0, 0, map[], None) && Inv(Abstract())
    {
      loginCount, generation, adapters, server := 0, 0, map[], None;
      new;
      assert Holders(Abstract()) == {};
    }

    method OpenAdapter(id: AdapterId)
      modifies this
      ensures Abstract() == Opened(old(Abstract()), id)
    {
      if id !in adapters {
        adapters := adapters[id := Adapter(false, None, false)];
      }
    }

    method InvalidateSession()
      modifies this
      ensures Abstract() == Invalidated(old(Abstract()))
    {
      generation := generation + 1;
      loginCount := 0;
    }

    method EnsureLogin(id: AdapterId, login: LoginReply) returns (ok: bool)
      requires id in adapters
      modifies this
      ensures ok == LogsIn(old(Abstract()), id, login)
      ensures Abstract() == if ok then Joined(old(Abstract()), id) else old(Abstract())
    {
      if adapters[id].acquired && adapters[id].generation == Some(generation) {
        return true;
      }
      if loginCount == 0 {
        if !login.Accepted? {
          return false;
        }
        server := Some(generation);
      }
      loginCount := loginCount + 1;
      adapters := adapters[id := adapters[id].(acquired := true, generation := Some(generation))];
      ok := true;
    }

    method Attempt(id: AdapterId, round: Round) returns (verdict: Verdict)
      requires id in adapters
      modifies this
      ensures (Abstract(), verdict) == Tried(old(Abstract()), id, round)
    {
      var ok := EnsureLogin(id, round.login);
      if ok && round.reply.Rows? {
        return Answer(round.reply.rows);
      }
      if ok && round.reply.SourceFailure? {
        return SourceError(round.reply.message);
      }
      if ok && round.reply.ConnectionFailure? {
        InvalidateSession();
        adapters := adapters[id := adapters[id].(generation := None)];
      }
      InvalidateSession();
      ghost var held := adapters;
      adapters := adapters[id := adapters[id].(generation := None)];
      assert held[id].generation.None? ==> adapters == held;
      verdict := Retry;
    }

    method CloseAdapter(id: AdapterId)
      requires id in adapters
      modifies this
      ensures Abstract() == Closed(old(Abstract()), id)
    {
      if adapters[id].closed {
        return;
      }
      var a := adapters[id].(closed := true);
      if a.acquired && a.generation == Some(generation) {
        a := a.(acquired := false);
        if loginCount > 0 {
          loginCount := loginCount - 1;
        }
        if loginCount == 0 {
          server := None;
        }
      }
      adapters := adapters[id := a.(generation := None)];
    }

    method Perform(op: Op)
      modifies this
      ensures Abstract() == Apply(old(Abstract()), op)
    {
      if op.Open? || op.id in adapters {
        match op
        case Open(id) => OpenAdapter(id);
        case Try(id, round) => var _ := Attempt(id, round);
        case Close(id) => CloseAdapter(id);
      }
    }

    method PerformAll(ops: seq<Op>)
      modifies this
      ensures Abstract() == ApplyAll(old(Abstract()), ops)
    {
      for i := 0 to |ops|
        invariant Abstract() == ApplyAll(old(Abstract()), ops[..i])
      {
        assert ops[..i + 1][..i] == ops[..i];
        Perform(ops[i]);
      }
      assert ops[..|ops|] == ops;
    }

    /** Retries after connection failures; each attempt is one section under the lock. */
    method Query(id: AdapterId, maxAttempts: int, rounds: nat -> Round, others: nat -> seq<Op>) returns (result: Result)
      requires id in adapters
      modifies this
      ensures (Abstract(), result) == QueryFrom(old(Abstract()), id, 0, if maxAttempts > 1 then maxAttempts else 1, rounds, others)
    {
      var n := if maxAttempts > 1 then maxAttempts else 1;
      for k := 0 to n
        invariant id in adapters
        invariant QueryFrom(Abstract(), id, k, n, rounds, others) ==
                  QueryFrom(old(Abstract()), id, 0, n, rounds, others)
      {
        ghost var before := Abstract();
        var verdict := Attempt(id, rounds(k));
        match verdict {
          case Answer(rows) => return Fetched(rows);
          case SourceError(message) => return Failed(message);
          case Retry =>
        }
        GenerationOnlyRises(Abstract(), others(k));
        if k + 1 < n {
          PerformAll(others(k));
        }
      }
      result := GaveUp;
    }
  }
}
