/** The expiring locks of a cache backend: a token holds a key until its lease runs out or it gives it back. */
module LeaseLocks {
  type Key = string
  type Token = nat

  datatype Lease = Lease(token: Token, until: int)

  type Leases = map<Key, Lease>

  predicate Leased(leases: Leases, key: Key, time: int) {
    key in leases && leases[key].until > time
  }

  /** A lease that has run out is taken over. */
  function Taken(leases: Leases, key: Key, token: Token, ttl: int, time: int): Leases {
    if Leased(leases, key, time) then leases else leases[key := Lease(token, time + ttl)]
  }

  /** Only the holder's own token removes a lease. */
  function Given(leases: Leases, key: Key, token: Token): Leases {
    if key in leases && leases[key].token == token then leases - {key} else leases
  }

  datatype Op = Acquire(key: Key, token: Token, ttl: int, time: int) | Release(key: Key, token: Token, time: int)

  predicate Granted(leases: Leases, op: Op) {
    op.Acquire? && !Leased(leases, op.key, op.time)
  }

  function Apply(leases: Leases, op: Op): Leases {
    match op
    case Acquire(key, token, ttl, time) => Taken(leases, key, token, ttl, time)
    case Release(key, token, _) => Given(leases, key, token)
  }

  function ApplyAll(leases: Leases, ops: seq<Op>): Leases {
    if ops == [] then leases else Apply(ApplyAll(leases, ops[..|ops| - 1]), ops[|ops| - 1])
  }

  /** Nothing in the run gives back the holder's lease, and all of it happens before the lease runs out. */
  ghost predicate WhileHeld(ops: seq<Op>, holder: Op)
    requires holder.Acquire?
  {
    forall op :: op in ops ==>
      op.time < holder.time + holder.ttl && !(op.Release? && op.key == holder.key && op.token == holder.token)
  }

  /**
    From a granted acquisition until its lease runs out or its token gives it back, nobody else is
    granted the key, whatever others try; and the very next acquisition is granted exactly from the end
    of the lease on, so a holder that died blocks the others no longer than that.
   */
  lemma {:induction false} HolderIsAlone(leases: Leases, holder: Op, ops: seq<Op>, next: Op)
    requires Granted(leases, holder) && WhileHeld(ops, holder)
    requires next.Acquire? && next.key == holder.key
    ensures Granted(ApplyAll(Apply(leases, holder), ops), next) <==> next.time >= holder.time + holder.ttl
    ensures var held := ApplyAll(Apply(leases, holder), ops);
            holder.key in held && held[holder.key] == Lease(holder.token, holder.time + holder.ttl)
  {
    if ops != [] {
      HolderIsAlone(leases, holder, ops[..|ops| - 1], next);
    }
  }

  /** A holder whose lease was taken over cannot give back the new holder's. */
  lemma LateReleaseIsHarmless(leases: Leases, late: Op, holder: Op, ops: seq<Op>)
    requires late.Release? && holder.Acquire? && late.key == holder.key && late.token != holder.token
    requires Granted(leases, holder) && WhileHeld(ops, holder)
    ensures Apply(ApplyAll(Apply(leases, holder), ops), late) == ApplyAll(Apply(leases, holder), ops)
  {
    HolderIsAlone(leases, holder, ops, holder);
  }

  /** Giving back right after a grant leaves no lease on the key, so the next one is granted at once. */
  lemma ReleaseFrees(leases: Leases, holder: Op, ops: seq<Op>, next: Op)
    requires Granted(leases, holder) && WhileHeld(ops, holder)
    requires next.Acquire? && next.key == holder.key
    ensures Granted(Given(ApplyAll(Apply(leases, holder), ops), holder.key, holder.token), next)
  {
    HolderIsAlone(leases, holder, ops, next);
  }
}
