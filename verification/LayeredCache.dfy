/**
  The two-layer fail-open cache.  Each call on a backend happens at a moment: what expiry, eviction,
  corruption and other processes have made of the backend by then, and whether the call fails.
 */
module LayeredCache {
  import opened Options
  import opened CacheCodec
  import opened LeaseLocks

  datatype Outcome = Returned(value: Value) | Raised(error: string)

  /** A call that fails may still have had its effect. */
  datatype Moment = Moment(entries: map<Key, Stored>, leases: Leases, time: int, fails: bool, lands: bool)

  datatype Write = Write(key: Key, bytes: Stored, ttl: int)

  datatype Got = Failed | Absent | Bytes(bytes: Stored)

  datatype Acquired = Held | Refused | Unknown

  function Seen(m: Moment, key: Key): Got {
    if m.fails then Failed else if key in m.entries then Bytes(m.entries[key]) else Absent
  }

  predicate Takes(m: Moment) {
    !m.fails || m.lands
  }

  /** One layer: mechanical operations only, failures are for the caller to handle. */
  class Backend {
    var entries: map<Key, Stored>
    var leases: Leases
    var written: seq<Write>     // the writes asked for

    constructor ()
      ensures entries == map[] && leases == map[] && written == []
    {
      entries, leases, written := map[], map[], [];
    }

    method Get(key: Key, m: Moment) returns (got: Got)
      modifies this
      ensures got == Seen(m, key)
      ensures entries == m.entries && leases == m.leases && written == old(written)
    {
      entries, leases := m.entries, m.leases;
      got := if m.fails then Failed else if key in entries then Bytes(entries[key]) else Absent;
    }

    method Set(key: Key, bytes: Stored, ttl: int, m: Moment) returns (ok: bool)
      modifies this
      ensures ok == !m.fails
      ensures entries == if Takes(m) then m.entries[key := bytes] else m.entries
      ensures leases == m.leases && written == old(written) + [Write(key, bytes, ttl)]
    {
      entries, leases, written := m.entries, m.leases, written + [Write(key, bytes, ttl)];
      if !m.fails || m.lands {
        entries := entries[key := bytes];
      }
      ok := !m.fails;
    }

    method AcquireLock(key: Key, token: Token, ttl: int, m: Moment) returns (acquired: Acquired)
      modifies this
      ensures acquired == if m.fails then Unknown else if Leased(m.leases, key, m.time) then Refused else Held
      ensures leases == if Takes(m) then Taken(m.leases, key, token, ttl, m.time) else m.leases
      ensures entries == m.entries && written == old(written)
    {
      entries, leases := m.entries, m.leases;
      if m.fails && !m.lands {
        return Unknown;
      }
      if key in leases && leases[key].until > m.time {
        acquired := Refused;
      } else {
        leases := leases[key := Lease(token, m.time + ttl)];
        acquired := Held;
      }
      if m.fails {
        acquired := Unknown;
      }
    }

    method ReleaseLock(key: Key, token: Token, m: Moment) returns (ok: bool)
      modifies this
      ensures ok == !m.fails
      ensures leases == if Takes(m) then Given(m.leases, key, token) else m.leases
      ensures entries == m.entries && written == old(written)
    {
      entries, leases := m.entries, m.leases;
      if (!m.fails || m.lands) && key in leases && leases[key].token == token {
        leases := leases - {key};
      }
      ok := !m.fails;
    }
  }

  // ---------------------------------------------------------------- what a call meets, and what it answers

  /** The moments of one get_or_load: lookup `k` meets `l1(k)` and `l2(k)`, and the clock is read in order. */
  datatype Script = Script(
    hasL2: bool, l1: nat -> Moment, l2: nat -> Moment, acquire: Moment,
    store1: Moment, store2: Moment, release: Moment, clock: nat -> int)

  datatype Look = Hit(value: Value) | Miss | Escape(error: string)

  function LookAt(m: Moment, key: Key): Look {
    match Seen(m, key)
    case Bytes(bytes) =>
      (match Decode(bytes)
       case Known(value) => Hit(value)
       case FormatError => Miss
       case OtherError(error) => Escape(error))
    case _ => Miss
  }

  /** L1 first; an absent, failing or unreadable entry falls through to L2. */
  function Lookup(script: Script, key: Key, k: nat): Look {
    var first := LookAt(script.l1(k), key);
    if first.Miss? && script.hasL2 then LookAt(script.l2(k), key) else first
  }

  /** The first lookup from `k` on that is not a miss decides; after `n` lookups the loader does. */
  function Answered(script: Script, key: Key, k: nat, n: nat, loaded: Outcome): Outcome
    decreases n - k
  {
    if k >= n then loaded
    else
      match Lookup(script, key, k)
      case Hit(value) => Returned(value)
      case Escape(error) => Raised(error)
      case Miss => Answered(script, key, k + 1, n, loaded)
  }

  predicate AllMiss(script: Script, key: Key, n: nat) {
    forall k :: 0 <= k < n ==> Lookup(script, key, k).Miss?
  }

  predicate LockRefused(script: Script, key: Key) {
    script.hasL2 && !script.acquire.fails && Leased(script.acquire.leases, key, script.acquire.time)
  }

  predicate LockHeld(script: Script, key: Key) {
    script.hasL2 && !script.acquire.fails && !Leased(script.acquire.leases, key, script.acquire.time)
  }

  /** Every sleep lets the clock move on by at least the polling interval. */
  ghost predicate Sleeps(script: Script, pollInterval: int) {
    0 < pollInterval && forall k: nat :: k > 0 ==> script.clock(k + 1) >= script.clock(k) + pollInterval
  }

  lemma {:induction false} AnsweredAfterMisses(script: Script, key: Key, k: nat, n: nat, loaded: Outcome)
    requires k <= n && forall j :: 0 <= j < k ==> Lookup(script, key, j).Miss?
    ensures Answered(script, key, 0, n, loaded) == Answered(script, key, k, n, loaded)
  {
    if k > 0 {
      AnsweredAfterMisses(script, key, k - 1, n, loaded);
    }
  }

  /** Times to live by domain; absent where the resolver raises. */
  datatype Resolver = NoResolver | Resolver(ttlOf: string -> Option<int>)

  function Resolved(resolver: Resolver, domain: Option<string>): Option<int> {
    if resolver.NoResolver? || domain.None? || domain.value == "" then None else resolver.ttlOf(domain.value)
  }

  class LayeredCache {
    const l1: Backend
    const l2: Backend
    const hasL2: bool
    const lockTtl: int
    const lockWait: int
    const pollInterval: int
    const defaultTtl: int
    const resolver: Resolver
    var errors: nat
    var formatErrors: nat
    var lockWaits: nat
    var lockTimeouts: nat

    constructor (l1: Backend, l2: Backend, hasL2: bool, lockTtl: int, lockWait: int, pollInterval: int,
                 defaultTtl: int, resolver: Resolver)
      requires l1 != l2 && 0 < pollInterval
      ensures this.l1 == l1 && this.l2 == l2 && this.hasL2 == hasL2 && this.pollInterval == pollInterval
      ensures this.lockTtl == lockTtl && this.lockWait == lockWait
      ensures this.defaultTtl == defaultTtl && this.resolver == resolver
      ensures errors == 0 && formatErrors == 0 && lockWaits == 0 && lockTimeouts == 0
    {
      this.l1, this.l2, this.hasL2 := l1, l2, hasL2;
      this.lockTtl, this.lockWait, this.pollInterval := lockTtl, lockWait, pollInterval;
      this.defaultTtl, this.resolver := defaultTtl, resolver;
      errors, formatErrors, lockWaits, lockTimeouts := 0, 0, 0, 0;
    }

    /** An explicit time to live, else the domain's, else the default. */
    function EffectiveTtl(ttl: Option<int>, domain: Option<string>): int {
      if ttl.Some? then ttl.value
      else
        var found := Resolved(resolver, domain);
        if found.Some? then found.value else defaultTtl
    }

    /** A resolver that raises leaves the default. */
    method TtlOf(domain: Option<string>) returns (ttl: int)
      modifies this`errors
      ensures ttl == EffectiveTtl(None, domain)
    {
      if domain.Some? && domain.value != "" && resolver.Resolver? {
        var found := resolver.ttlOf(domain.value);
        if found.Some? {
          return found.value;
        }
        errors := errors + 1;
      }
      ttl := defaultTtl;
    }

    method ReadLayer(backend: Backend, key: Key, m: Moment) returns (look: Look)
      requires backend == l1 || backend == l2
      modifies this, backend
      ensures look == LookAt(m, key) && backend.written == old(backend.written)
      ensures lockWaits == old(lockWaits) && lockTimeouts == old(lockTimeouts)
      ensures formatErrors == old(formatErrors) + (if Seen(m, key).Bytes? && look.Miss? then 1 else 0)
      ensures errors == old(errors) + (if look.Miss? && !Seen(m, key).Absent? then 1 else 0)
    {
      var got := backend.Get(key, m);
      match got
      case Failed =>
        errors := errors + 1;
        look := Miss;
      case Absent =>
        look := Miss;
      case Bytes(bytes) =>
        match Decode(bytes)
        case Known(value) => look := Hit(value);
        case FormatError =>
          formatErrors := formatErrors + 1;
          errors := errors + 1;
          look := Miss;
        case OtherError(error) => look := Escape(error);
    }

    method LookUp(key: Key, script: Script, k: nat) returns (look: Look)
      requires l1 != l2 && script.hasL2 == hasL2
      modifies this, l1, l2
      ensures look == Lookup(script, key, k)
      ensures l1.written == old(l1.written) && l2.written == old(l2.written)
      ensures lockWaits == old(lockWaits) && lockTimeouts == old(lockTimeouts)
    {
      look := ReadLayer(l1, key, script.l1(k));
      if look.Miss? && hasL2 {
        look := ReadLayer(l2, key, script.l2(k));
      }
    }

    /** Writes both layers; a value that cannot be written is not cached and a failing layer is skipped. */
    method Store(key: Key, value: Value, ttl: int, script: Script)
      requires l1 != l2 && script.hasL2 == hasL2
      modifies this, l1, l2
      ensures l1.written == old(l1.written) + WritesOf(key, Returned(value), ttl)
      ensures l2.written == old(l2.written) + (if hasL2 then WritesOf(key, Returned(value), ttl) else [])
      ensures lockWaits == old(lockWaits) && lockTimeouts == old(lockTimeouts)
    {
      var payload := Encode(value);
      if payload.None? {
        errors := errors + 1;
        return;
      }
      var ok := l1.Set(key, payload.value, ttl, script.store1);
      if !ok {
        errors := errors + 1;
      }
      if hasL2 {
        ok := l2.Set(key, payload.value, ttl, script.store2);
        if !ok {
          errors := errors + 1;
        }
      }
    }

    /** Polls while another process holds the lock, until a lookup decides or the wait is over. */
    method WaitForOther(key: Key, script: Script) returns (look: Look, looks: nat)
      requires l1 != l2 && script.hasL2 == hasL2 && Sleeps(script, pollInterval)
      requires AllMiss(script, key, 2)
      modifies this, l1, l2
      ensures looks >= 2 && AllMiss(script, key, if look.Miss? then looks else looks - 1)
      ensures looks == 2 ==> look.Miss?
      ensures looks > 2 ==> look == Lookup(script, key, looks - 1)
      ensures look.Miss? ==> script.clock(looks - 1) >= script.clock(0) + lockWait
      ensures l1.written == old(l1.written) && l2.written == old(l2.written)
      ensures lockWaits == old(lockWaits) + 1 && lockTimeouts == old(lockTimeouts) + (if look.Miss? then 1 else 0)
    {
      look, looks := Miss, 2;
      lockWaits := lockWaits + 1;
      var deadline := script.clock(0) + lockWait;
      while script.clock(looks - 1) < deadline
        invariant looks >= 2 && AllMiss(script, key, looks) && look.Miss?
        invariant looks > 2 ==> look == Lookup(script, key, looks - 1)
        invariant l1.written == old(l1.written) && l2.written == old(l2.written)
        invariant lockWaits == old(lockWaits) + 1 && lockTimeouts == old(lockTimeouts)
        decreases deadline - script.clock(looks - 1)
      {
        look := LookUp(key, script, looks);
        looks := looks + 1;
        if !look.Miss? {
          return;
        }
      }
      lockTimeouts := lockTimeouts + 1;
    }

    /** Runs the loader, keeps what it returned, and gives back a lock that was taken. */
    method LoadAndStore(key: Key, load: Key -> Outcome, ttl: int, token: Token, script: Script, held: bool) returns (r: Outcome)
      requires l1 != l2 && script.hasL2 == hasL2
      modifies this, l1, l2
      ensures r == load(key)
      ensures l1.written == old(l1.written) + WritesOf(key, load(key), ttl)
      ensures l2.written == old(l2.written) + (if hasL2 then WritesOf(key, load(key), ttl) else [])
      ensures held && hasL2 && Takes(script.release) ==> !(key in l2.leases && l2.leases[key].token == token)
      ensures lockWaits == old(lockWaits) && lockTimeouts == old(lockTimeouts)
    {
      r := load(key);
      if r.Returned? {
        Store(key, r.value, ttl, script);
      }
      if held && hasL2 {
        var ok := l2.ReleaseLock(key, token, script.release);
        if !ok {
          errors := errors + 1;
        }
      }
    }

    /** Held for the time to live of locks; without an L2 there is nothing to hold. */
    method Acquire(key: Key, token: Token, script: Script) returns (acquired: Acquired)
      requires l1 != l2 && script.hasL2 == hasL2
      modifies this, l2
      ensures acquired.Refused? <==> LockRefused(script, key)
      ensures hasL2 ==> (acquired.Held? <==> LockHeld(script, key))
      ensures hasL2 && acquired.Held? ==> l2.leases == script.acquire.leases[key := Lease(token, script.acquire.time + lockTtl)]
      ensures hasL2 && acquired.Refused? ==> l2.leases == script.acquire.leases
      ensures l2.written == old(l2.written)
      ensures lockWaits == old(lockWaits) && lockTimeouts == old(lockTimeouts)
    {
      acquired := Held;
      if hasL2 {
        acquired := l2.AcquireLock(key, token, lockTtl, script.acquire);
        if acquired.Unknown? {
          errors := errors + 1;
        }
      }
    }

    /**
      A hit is answered at once; otherwise one caller loads and the others poll until it has stored a
      value or the wait is over.  `looks` counts the lookups and `ran` says whether the loader ran.
     */
    method FetchOrLoad(key: Key, load: Key -> Outcome, ttl: int, token: Token, script: Script)
      returns (r: Outcome, looks: nat, ran: bool)
      requires l1 != l2 && script.hasL2 == hasL2 && Sleeps(script, pollInterval)
      modifies this, l1, l2
      ensures r == Answered(script, key, 0, looks, load(key))
      ensures looks >= 1 && AllMiss(script, key, looks - 1) && (ran <==> AllMiss(script, key, looks))
      ensures ran ==> looks >= 2
      ensures looks > 2 ==> LockRefused(script, key)
      ensures ran && LockRefused(script, key) ==> script.clock(looks - 1) >= script.clock(0) + lockWait
      ensures l1.written == old(l1.written) + (if ran then WritesOf(key, load(key), ttl) else [])
      ensures l2.written == old(l2.written) + (if ran && hasL2 then WritesOf(key, load(key), ttl) else [])
      ensures ran && LockHeld(script, key) && Takes(script.release) ==>
                !(key in l2.leases && l2.leases[key].token == token)
    {
      var look := LookUp(key, script, 0);
      if !look.Miss? {
        return AnswerOf(look), 1, false;
      }
      look := LookUp(key, script, 1);
      if !look.Miss? {
        Decided(script, key, 2, load(key));
        return AnswerOf(look), 2, false;
      }
      looks := 2;
      var acquired := Acquire(key, token, script);
      if acquired.Refused? {
        look, looks := WaitForOther(key, script);
        if !look.Miss? {
          Decided(script, key, looks, load(key));
          return AnswerOf(look), looks, false;
        }
      }
      AnsweredAfterMisses(script, key, looks, looks, load(key));
      r := LoadAndStore(key, load, ttl, token, script, acquired.Held?);
      ran := true;
    }

    /**
      The same with the time to live that applies: the caller's, else what the resolver gives for the domain,
      else the default.  The loader runs exactly when both layers passed at every lookup; a third lookup
      is made only beside a live lease, and beside one the loader runs only when the wait is over.
     */
    method GetOrLoad(key: Key, load: Key -> Outcome, ttl: Option<int>, domain: Option<string>, token: Token, script: Script)
      returns (r: Outcome, looks: nat, ran: bool)
      requires l1 != l2 && script.hasL2 == hasL2 && Sleeps(script, pollInterval)
      modifies this, l1, l2
      ensures r == Answered(script, key, 0, looks, load(key))
      ensures looks >= 1 && (forall k :: 0 <= k < looks - 1 ==> BothPass(script, key, k))
      ensures ran <==> BothPass(script, key, looks - 1)
      ensures ran ==> r == load(key) && looks >= 2
      ensures looks > 2 ==> BesideLease(script, key)
      ensures ran && BesideLease(script, key) ==> script.clock(looks - 1) >= script.clock(0) + lockWait
      ensures !ran ==> l1.written == old(l1.written) && l2.written == old(l2.written)
      ensures ran && load(key).Returned? && Encode(load(key).value).Some? ==>
                var write := Write(key, Encode(load(key).value).value,
                                   if ttl.Some? then ttl.value
                                   else if resolver.Resolver? && domain.Some? && domain.value != "" && resolver.ttlOf(domain.value).Some?
                                   then resolver.ttlOf(domain.value).value
                                   else defaultTtl);
                l1.written == old(l1.written) + [write] && l2.written == old(l2.written) + (if hasL2 then [write] else [])
      ensures ran && (load(key).Raised? || Encode(load(key).value).None?) ==>
                l1.written == old(l1.written) && l2.written == old(l2.written)
      ensures ran && hasL2 && !script.acquire.fails && !BesideLease(script, key) && (!script.release.fails || script.release.lands) ==>
                !(key in l2.leases && l2.leases[key].token == token)
    {
      var effective;
      if ttl.Some? {
        effective := ttl.value;
      } else {
        effective := TtlOf(domain);
      }
      r, looks, ran := FetchOrLoad(key, load, effective, token, script);
      forall k | 0 <= k < looks
        ensures Lookup(script, key, k) == Miss <==> BothPass(script, key, k)
      {
        LookupIs(script, key, k, Nothing, "");
      }
      AllPassed(script, key, looks, load(key));
    }
  }

  lemma AllPassed(script: Script, key: Key, n: nat, loaded: Outcome)
    ensures AllMiss(script, key, n) ==> Answered(script, key, 0, n, loaded) == loaded
  {
    if AllMiss(script, key, n) {
      AnsweredAfterMisses(script, key, n, n, loaded);
    }
  }

  lemma Decided(script: Script, key: Key, n: nat, loaded: Outcome)
    requires n > 0 && AllMiss(script, key, n - 1) && !Lookup(script, key, n - 1).Miss?
    ensures Answered(script, key, 0, n, loaded) == AnswerOf(Lookup(script, key, n - 1))
    ensures !AllMiss(script, key, n)
  {
    AnsweredAfterMisses(script, key, n - 1, n, loaded);
  }

  function AnswerOf(look: Look): Outcome
    requires !look.Miss?
  {
    if look.Hit? then Returned(look.value) else Raised(look.error)
  }

  /** The bytes one load asks each layer to keep. */
  function WritesOf(key: Key, loaded: Outcome, ttl: int): seq<Write> {
    if loaded.Returned? && Encode(loaded.value).Some? then [Write(key, Encode(loaded.value).value, ttl)] else []
  }

  // ---------------------------------------------------------------- what decides, in terms of the moments

  /** The call came through and what is stored decodes to this. */
  predicate Gives(m: Moment, key: Key, decoded: Decoded) {
    !m.fails && key in m.entries && Decode(m.entries[key]) == decoded
  }

  /** The call failed, or nothing is stored, or its format is not known. */
  predicate Passes(m: Moment, key: Key) {
    m.fails || key !in m.entries || Decode(m.entries[key]) == FormatError
  }

  predicate BothPass(script: Script, key: Key, k: nat) {
    Passes(script.l1(k), key) && (script.hasL2 ==> Passes(script.l2(k), key))
  }

  /** The lock can be asked for and somebody's lease on the key is not over. */
  predicate BesideLease(script: Script, key: Key) {
    script.hasL2 && !script.acquire.fails && key in script.acquire.leases && script.acquire.leases[key].until > script.acquire.time
  }

  /** L1 decides where it gives a value or an error, L2 where L1 passes; where both pass it is a miss. */
  lemma LookupIs(script: Script, key: Key, k: nat, value: Value, error: string)
    ensures Lookup(script, key, k) == Miss <==> BothPass(script, key, k)
    ensures Lookup(script, key, k) == Hit(value) <==>
              Gives(script.l1(k), key, Known(value))
              || (Passes(script.l1(k), key) && script.hasL2 && Gives(script.l2(k), key, Known(value)))
    ensures Lookup(script, key, k) == Escape(error) <==>
              Gives(script.l1(k), key, OtherError(error))
              || (Passes(script.l1(k), key) && script.hasL2 && Gives(script.l2(k), key, OtherError(error)))
  {
  }

  /** The first lookup at which a layer does not pass decides the answer; the loader does when both pass at all of them. */
  lemma FirstToGiveDecides(script: Script, key: Key, k: nat, n: nat, loaded: Outcome, value: Value, error: string)
    requires k <= n && forall j :: 0 <= j < k ==> BothPass(script, key, j)
    ensures k == n ==> Answered(script, key, 0, n, loaded) == loaded
    ensures k < n && Gives(script.l1(k), key, Known(value)) ==> Answered(script, key, 0, n, loaded) == Returned(value)
    ensures k < n && Gives(script.l1(k), key, OtherError(error)) ==> Answered(script, key, 0, n, loaded) == Raised(error)
    ensures k < n && Passes(script.l1(k), key) && script.hasL2 && Gives(script.l2(k), key, Known(value)) ==>
              Answered(script, key, 0, n, loaded) == Returned(value)
    ensures k < n && Passes(script.l1(k), key) && script.hasL2 && Gives(script.l2(k), key, OtherError(error)) ==>
              Answered(script, key, 0, n, loaded) == Raised(error)
  {
    forall j | 0 <= j < k
      ensures Lookup(script, key, j).Miss?
    {
      LookupIs(script, key, j, value, error);
    }
    AnsweredAfterMisses(script, key, k, n, loaded);
    LookupIs(script, key, k, value, error);
  }

  // ---------------------------------------------------------------- fail-open transparency

  /** Bytes under a key are what encoding the loader's value gives, or some of the garbage allowed for. */
  ghost predicate Sound(entries: map<Key, Stored>, load: Key -> Outcome, garbage: Stored -> bool) {
    forall key :: key in entries ==>
      garbage(entries[key]) || (load(key).Returned? && Encode(load(key).value) == Some(entries[key]))
  }

  ghost predicate SoundScript(script: Script, load: Key -> Outcome, garbage: Stored -> bool) {
    forall k: nat :: Sound(script.l1(k).entries, load, garbage) && Sound(script.l2(k).entries, load, garbage)
  }

  /** No garbage escapes, and what it holds, if anything, is what the loader says. */
  ghost predicate Harmless(garbage: Stored -> bool, loaded: Outcome) {
    forall bytes :: garbage(bytes) ==> !Escapes(bytes) && HoldsOnly(bytes, loaded)
  }

  ghost predicate HoldsOnly(bytes: Stored, loaded: Outcome) {
    forall value :: CacheCodec.Holds(bytes, value) ==> loaded == Returned(value)
  }

  predicate Survives(loaded: Outcome) {
    loaded.Raised? || Encode(loaded.value).None? || loaded.value.Frame? || Plain(loaded.value)
  }

  /** Every write keeps the layer sound, so whatever other processes add by this code is sound too. */
  lemma WritesKeepSound(entries: map<Key, Stored>, load: Key -> Outcome, garbage: Stored -> bool, key: Key, ttl: int, write: Write)
    requires Sound(entries, load, garbage) && write in WritesOf(key, load(key), ttl)
    ensures Sound(entries[write.key := write.bytes], load, garbage)
  {
  }

  lemma SoundLook(m: Moment, key: Key, load: Key -> Outcome, garbage: Stored -> bool)
    requires Sound(m.entries, load, garbage) && Harmless(garbage, load(key)) && Survives(load(key))
    ensures var look := LookAt(m, key); look.Miss? || (load(key).Returned? && look == Hit(load(key).value))
  {
    if Seen(m, key).Bytes? {
      var bytes := m.entries[key];
      if !garbage(bytes) {
        RoundTripsExactlyWhenPlain(load(key).value);
      } else if Decode(bytes).Known? {
        DecodesExactly(bytes, Decode(bytes).value);
      } else {
        DecodesExactly(bytes, Nothing);
      }
    }
  }

  /** Misses, expiries, garbage, refused locks and failing calls never change the answer. */
  lemma {:induction false} FailsOpen(script: Script, key: Key, k: nat, n: nat, load: Key -> Outcome, garbage: Stored -> bool)
    requires SoundScript(script, load, garbage) && Harmless(garbage, load(key)) && Survives(load(key))
    ensures Answered(script, key, k, n, load(key)) == load(key)
    decreases n - k
  {
    if k < n {
      SoundLook(script.l1(k), key, load, garbage);
      SoundLook(script.l2(k), key, load, garbage);
      FailsOpen(script, key, k + 1, n, load, garbage);
    }
  }

  /** Both layers hold the same entries at every moment and no call fails. */
  function Steady(entries: map<Key, Stored>): Script {
    var m := Moment(entries, map[], 0, false, false);
    Script(true, (k: nat) => m, (k: nat) => m, m, m, m, m, (k: nat) => k)
  }

  ghost predicate Transparent(key: Key, load: Key -> Outcome, garbage: Stored -> bool) {
    forall script: Script, n: nat :: SoundScript(script, load, garbage) ==>
      Answered(script, key, 0, n, load(key)) == load(key)
  }

  /**
    The answer is the loader's for every pattern of faults exactly when the loader's value comes back
    from its bytes as it was, and no garbage decodes to another value or raises another error.
   */
  lemma TransparentExactlyWhen(key: Key, load: Key -> Outcome, garbage: Stored -> bool)
    requires load(key).Returned?
    ensures Transparent(key, load, garbage) <==> Survives(load(key)) && Harmless(garbage, load(key))
  {
    if Survives(load(key)) && Harmless(garbage, load(key)) {
      forall script: Script, n: nat | SoundScript(script, load, garbage)
        ensures Answered(script, key, 0, n, load(key)) == load(key)
      {
        FailsOpen(script, key, 0, n, load, garbage);
      }
    }
    if Transparent(key, load, garbage) {
      if !Survives(load(key)) {
        RoundTripsExactlyWhenPlain(load(key).value);
        WrittenIsReadable(load(key).value);
        NotTransparentTo(key, load, garbage, Encode(load(key).value).value);
      }
      forall bytes | garbage(bytes)
        ensures !Escapes(bytes) && HoldsOnly(bytes, load(key))
      {
        HarmlessIfTransparent(key, load, garbage, bytes);
      }
    }
  }

  lemma HarmlessIfTransparent(key: Key, load: Key -> Outcome, garbage: Stored -> bool, bytes: Stored)
    requires load(key).Returned? && Transparent(key, load, garbage) && garbage(bytes)
    ensures !Escapes(bytes) && HoldsOnly(bytes, load(key))
  {
    DecodesExactly(bytes, load(key).value);
    if !Decode(bytes).FormatError? && Decode(bytes) != Known(load(key).value) {
      NotTransparentTo(key, load, garbage, bytes);
    }
    forall value | CacheCodec.Holds(bytes, value)
      ensures load(key) == Returned(value)
    {
      DecodesExactly(bytes, value);
    }
  }

  lemma NotTransparentTo(key: Key, load: Key -> Outcome, garbage: Stored -> bool, bytes: Stored)
    requires load(key).Returned?
    requires garbage(bytes) || Encode(load(key).value) == Some(bytes)
    requires !Decode(bytes).FormatError? && Decode(bytes) != Known(load(key).value)
    ensures !Transparent(key, load, garbage)
  {
    var script := Steady(map[key := bytes]);
    assert SoundScript(script, load, garbage);
    assert Lookup(script, key, 0) == LookAt(script.l1(0), key);
    assert Answered(script, key, 0, 1, load(key)) != load(key);
  }

  /** A header whose version is infinite, whatever else it says, is garbage that the cache does not swallow. */
  lemma OverflowEscapes(key: Key, load: Key -> Outcome, garbage: Stored -> bool, bytes: Stored)
    requires load(key).Returned? && garbage(bytes) && InfiniteVersion(bytes)
    ensures !Transparent(key, load, garbage)
  {
    TransparentExactlyWhen(key, load, garbage);
  }

  /** Nor does it swallow an Arrow stream that was cut short. */
  lemma TruncatedStreamEscapes(key: Key, load: Key -> Outcome, garbage: Stored -> bool, bytes: Stored)
    requires load(key).Returned? && garbage(bytes) && Announces(bytes, "arrow") && bytes.payload.stream.CutShort?
    ensures !Transparent(key, load, garbage)
  {
    TransparentExactlyWhen(key, load, garbage);
  }

  /** A loader that returns a tuple: the first caller gets the tuple and the next one a list. */
  lemma TuplesAreNotTransparent(key: Key, load: Key -> Outcome, items: seq<Value>, garbage: Stored -> bool)
    requires load(key) == Returned(Tuple(items)) && AllPlain(items)
    ensures !Transparent(key, load, garbage)
  {
    TupleIsWritten(items);
    assert !Survives(load(key));
    TransparentExactlyWhen(key, load, garbage);
  }
}
