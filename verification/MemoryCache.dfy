/**
  The hub's in-process cache: an ordered table changed in place under one lock.
  Each method is proved to do what CacheModel says, and to keep the byte total in step.
 */
module MemoryCache {
  import opened Options
  import opened CacheModel

  /** How many keys an accepted put evicts: those before the longest suffix that fits. */
  function Displaced<V>(limits: Limits, st: CacheState<V>, key: Key, entry: Entry<V>, size: nat): nat {
    KeepFrom(limits, Inserted(st, key, entry, size).order, Inserted(st, key, entry, size).sizes)
  }

  class MemoryCache<V> {
    const limits: Limits
    var order: seq<Key>
    var entries: map<Key, Entry<V>>
    var sizes: map<Key, nat>
    var totalBytes: int
    var hits: nat
    var misses: nat
    var evictions: nat
    var stores: nat

    function State(): CacheState<V>
      reads this
    {
      CacheState(order, entries, sizes, stores)
    }

    /** The running total is the sum of the stored sizes. */
    ghost predicate Tallied()
      reads this
    {
      Consistent(State()) && totalBytes == Bytes(order, sizes)
    }

    ghost predicate Valid()
      reads this
    {
      Tallied() && WithinLimits(limits, State())
    }

    constructor (limits: Limits)
      ensures Valid() && this.limits == limits
      ensures State() == CacheState([], map[], map[], 0) && hits == 0 && misses == 0 && evictions == 0
    {
      this.limits := limits;
      order, entries, sizes, totalBytes := [], map[], map[], 0;
      hits, misses, evictions, stores := 0, 0, 0, 0;
    }

    method Remove(key: Key)
      requires Tallied()
      modifies this`order, this`entries, this`sizes, this`totalBytes
      ensures Tallied()
      ensures State() == if key in old(entries) then Drop(old(State()), {key}) else old(State())
    {
      if key in entries {
        DropKeepsTally(State(), key);
        totalBytes := totalBytes - sizes[key];
        order, entries, sizes := Minus(order, {key}), entries - {key}, sizes - {key};
      }
    }

    method Lookup(key: Key, now: int) returns (found: Option<V>)
      requires Valid()
      modifies this
      ensures Valid()
      ensures found == Find(old(State()), key, now) && State() == Get(old(State()), key, now)
      ensures hits == old(hits) + (if found.Some? then 1 else 0)
      ensures misses == old(misses) + (if found.Some? then 0 else 1)
      ensures evictions == old(evictions)
    {
      EveryOpKeepsLimits(limits, State(), GetOp(key, now));
      if key !in entries {
        misses := misses + 1;
        return None;
      }
      if Expired(entries[key], now) {
        Remove(key);
        misses := misses + 1;
        return None;
      }
      MovedFits(limits, order, key, sizes);
      order := Minus(order, {key}) + [key];
      hits := hits + 1;
      found := Some(entries[key].value);
    }

    /** The lookup that leaves hits, misses and order alone. */
    method Contains(key: Key, now: int) returns (present: bool)
      requires Valid()
      modifies this
      ensures Valid()
      ensures present == Find(old(State()), key, now).Some? && State() == Peek(old(State()), key, now)
      ensures hits == old(hits) && misses == old(misses) && evictions == old(evictions)
    {
      EveryOpKeepsLimits(limits, State(), ContainsOp(key, now));
      if key !in entries {
        return false;
      }
      if Expired(entries[key], now) {
        Remove(key);
        return false;
      }
      present := true;
    }

    /** Pops least recently used keys while either limit is exceeded. */
    method Evict()
      requires Tallied()
      modifies this`order, this`entries, this`sizes, this`totalBytes, this`evictions
      ensures Tallied() && State() == Evicted(limits, old(State()))
      ensures evictions - old(evictions) == |old(order)| - |order|
    {
      ghost var was := State();
      PoppedIsEvicted(limits, was);
      while order != [] && (totalBytes > limits.maxBytes || |order| > limits.maxEntries)
        invariant Tallied() && Popped(limits, State()) == Popped(limits, was)
        invariant evictions - old(evictions) == |was.order| - |order|
        decreases |order|
      {
        PopFirst();
        evictions := evictions + 1;
      }
    }

    method PopFirst()
      requires Tallied() && order != []
      modifies this`order, this`entries, this`sizes, this`totalBytes
      ensures Tallied() && State() == Pop(old(State()))
    {
      PopKeepsTally(State());
      var first := order[0];
      totalBytes := totalBytes - sizes[first];
      order, entries, sizes := order[1..], entries - {first}, sizes - {first};
    }

    /** Removes the keys that were found expired. */
    method Sweep(now: int)
      requires Tallied()
      modifies this`order, this`entries, this`sizes, this`totalBytes
      ensures Tallied() && State() == Drop(old(State()), ExpiredKeys(old(State()), now))
    {
      ghost var was := State();
      var expired := ExpiredList(entries, order, now);
      NothingDropped(was);
      for i := 0 to |expired|
        invariant Tallied() && State() == Drop(was, FirstKeys(expired, i))
      {
        DropOneMore(was, FirstKeys(expired, i), expired[i]);
        Remove(expired[i]);
      }
      ListedAreExpired(was, expired, now);
    }

    /** Refuses an oversized value and leaves any old value of the key in place. */
    method Store(key: Key, value: V, size: nat, ttl: Option<int>, now: int, sweepNow: int) returns (accepted: bool)
      requires Valid()
      modifies this
      ensures Valid()
      ensures accepted == (size <= limits.maxEntryBytes)
      ensures State() == Put(limits, old(State()), key, value, size, ttl, now, sweepNow)
      ensures hits == old(hits) && misses == old(misses)
      ensures evictions == old(evictions) + if accepted then
                                              Displaced(limits, old(State()), key, Entry(value, Expiry(limits, ttl, now)), size)
                                            else 0
    {
      PutKeepsLimits(limits, State(), key, value, size, ttl, now, sweepNow);
      if size > limits.maxEntryBytes {
        return false;
      }
      Admit(key, Entry(value, Expiry(limits, ttl, now)), size);
      if stores % SWEEP_EVERY == 0 {
        Sweep(sweepNow);
      }
      accepted := true;
    }

    method Admit(key: Key, entry: Entry<V>, size: nat)
      requires Tallied()
      modifies this`order, this`entries, this`sizes, this`totalBytes, this`evictions, this`stores
      ensures Tallied() && State() == Admitted(limits, old(State()), key, entry, size)
      ensures evictions == old(evictions) + Displaced(limits, old(State()), key, entry, size)
    {
      Append(key, entry, size);
      EvictionKeepsLongestSuffix(limits, State());
      Evict();
      stores := stores + 1;
    }

    /** Replaces or adds the entry at the most recent end, limits not yet enforced. */
    method Append(key: Key, entry: Entry<V>, size: nat)
      requires Tallied()
      modifies this`order, this`entries, this`sizes, this`totalBytes
      ensures Tallied() && State() == Inserted(old(State()), key, entry, size)
    {
      ghost var was := State();
      Remove(key);
      InsertIsConsistent(was, key, entry, size);
      Reinserted(was, State(), key, entry, size);
      ReinsertedBytes(was, State(), key, size);
      order, entries, sizes := order + [key], entries[key := entry], sizes[key := size];
      totalBytes := totalBytes + size;
    }

    method Invalidate(key: Key)
      requires Valid()
      modifies this
      ensures Valid()
      ensures State() == Apply(limits, old(State()), InvalidateOp(key))
    {
      EveryOpKeepsLimits(limits, State(), InvalidateOp(key));
      Remove(key);
    }

    method Clear()
      requires Valid()
      modifies this
      ensures Valid()
      ensures State() == Apply(limits, old(State()), ClearOp) && totalBytes == 0
    {
      order, entries, sizes, totalBytes := [], map[], map[], 0;
    }
  }

  function ExpiredList<V>(entries: map<Key, Entry<V>>, keys: seq<Key>, now: int): seq<Key> {
    if keys == [] then []
    else if keys[0] in entries && Expired(entries[keys[0]], now) then [keys[0]] + ExpiredList(entries, keys[1..], now)
    else ExpiredList(entries, keys[1..], now)
  }

  lemma {:induction false} ListedKeys<V>(entries: map<Key, Entry<V>>, keys: seq<Key>, now: int)
    ensures KeySet(ExpiredList(entries, keys, now)) ==
            set key | key in KeySet(keys) && key in entries && Expired(entries[key], now)
  {
    if keys != [] {
      var rest := ExpiredList(entries, keys[1..], now);
      ListedKeys(entries, keys[1..], now);
      assert ([keys[0]] + rest)[1..] == rest;
    }
  }

  lemma {:induction false} FirstKeysAreAll(keys: seq<Key>, k: nat)
    requires k <= |keys|
    ensures FirstKeys(keys, k) + KeySet(keys[k..]) == KeySet(keys)
  {
    if k == 0 {
      assert keys[0..] == keys;
    } else {
      FirstKeysAreAll(keys, k - 1);
      assert keys[k - 1..][1..] == keys[k..];
    }
  }

  function Pop<V>(st: CacheState<V>): CacheState<V>
    requires st.order != []
  {
    CacheState(st.order[1..], st.entries - {st.order[0]}, st.sizes - {st.order[0]}, st.stores)
  }

  /** Popping until both limits hold. */
  function Popped<V>(limits: Limits, st: CacheState<V>): CacheState<V>
    decreases |st.order|
  {
    if st.order == [] || Fits(limits, st.order, st.sizes) then st else Popped(limits, Pop(st))
  }

  lemma PopKeepsTally<V>(st: CacheState<V>)
    requires Consistent(st) && st.order != []
    ensures Consistent(Pop(st)) && st.order[0] in st.sizes
    ensures Bytes(Pop(st).order, Pop(st).sizes) == Bytes(st.order, st.sizes) - st.sizes[st.order[0]]
    ensures Pop(st) == Drop(st, {st.order[0]})
    ensures Bytes(st.order[1..], Pop(st).sizes) == Bytes(st.order[1..], st.sizes)
  {
    MinusAbsent(st.order[1..], {st.order[0]});
    DropIsConsistent(st, {st.order[0]});
    BytesAgree(st.order[1..], st.sizes, Pop(st).sizes);
  }

  lemma {:induction false} KeepFromAgrees(limits: Limits, keys: seq<Key>, a: map<Key, nat>, b: map<Key, nat>)
    requires AgreeOn(KeySet(keys), a, b)
    ensures KeepFrom(limits, keys, a) == KeepFrom(limits, keys, b)
  {
    BytesAgree(keys, a, b);
    if !Fits(limits, keys, a) {
      KeepFromAgrees(limits, keys[1..], a, b);
    }
  }

  /** The loop stops at the longest suffix that fits. */
  lemma {:induction false} PoppedIsEvicted<V>(limits: Limits, st: CacheState<V>)
    requires Consistent(st)
    ensures Popped(limits, st) == Evicted(limits, st)
    decreases |st.order|
  {
    if Fits(limits, st.order, st.sizes) {
      NothingDropped(st);
    } else {
      var first, next := st.order[0], Pop(st);
      PopKeepsTally(st);
      PoppedIsEvicted(limits, next);
      KeepFromAgrees(limits, next.order, st.sizes, next.sizes);
      var k := KeepFrom(limits, next.order, next.sizes);
      FirstKeysOfTail(st.order, k);
      DropTwice(st, {first}, FirstKeys(next.order, k));
    }
  }

  lemma NothingDropped<V>(was: CacheState<V>)
    ensures Drop(was, {}) == was
  {
    MinusAbsent(was.order, {});
  }

  lemma DropKeepsTally<V>(st: CacheState<V>, key: Key)
    requires Consistent(st) && key in st.entries
    ensures Consistent(Drop(st, {key}))
    ensures Bytes(Drop(st, {key}).order, Drop(st, {key}).sizes) == Bytes(st.order, st.sizes) - st.sizes[key]
  {
    MinusOne(st.order, key, st.sizes);
    MinusKeys(st.order, {key});
    BytesAgree(Minus(st.order, {key}), st.sizes, st.sizes - {key});
    DropIsConsistent(st, {key});
  }

  /** Removing the key first, if it was there, and adding it at the end. */
  lemma Reinserted<V>(was: CacheState<V>, mid: CacheState<V>, key: Key, entry: Entry<V>, size: nat)
    requires Consistent(was)
    requires mid == if key in was.entries then Drop(was, {key}) else was
    ensures Inserted(was, key, entry, size) ==
            CacheState(mid.order + [key], mid.entries[key := entry], mid.sizes[key := size], mid.stores)
  {
    if key !in was.entries {
      MinusAbsent(was.order, {key});
    }
    assert mid.entries[key := entry] == was.entries[key := entry];
    assert mid.sizes[key := size] == was.sizes[key := size];
  }

  lemma ReinsertedBytes<V>(was: CacheState<V>, mid: CacheState<V>, key: Key, size: nat)
    requires Consistent(was)
    requires mid == if key in was.entries then Drop(was, {key}) else was
    ensures Bytes(mid.order + [key], mid.sizes[key := size]) == Bytes(mid.order, mid.sizes) + size
  {
    MinusKeys(was.order, {key});
    Appended(mid.order, key, mid.sizes[key := size]);
    BytesAgree(mid.order, mid.sizes, mid.sizes[key := size]);
  }

  lemma RemovingAbsent<V>(st: CacheState<V>, key: Key)
    requires Consistent(st)
    ensures key !in st.entries ==> Drop(st, {key}) == st
  {
    if key !in st.entries {
      MinusAbsent(st.order, {key});
      assert st.entries - {key} == st.entries && st.sizes - {key} == st.sizes;
    }
  }

  lemma DropOneMore<V>(was: CacheState<V>, gone: set<Key>, key: Key)
    requires Consistent(Drop(was, gone))
    ensures var here := Drop(was, gone);
            Drop(was, gone + {key}) == if key in here.entries then Drop(here, {key}) else here
  {
    DropTwice(was, gone, {key});
    RemovingAbsent(Drop(was, gone), key);
  }

  lemma ListedAreExpired<V>(st: CacheState<V>, expired: seq<Key>, now: int)
    requires Consistent(st) && expired == ExpiredList(st.entries, st.order, now)
    ensures FirstKeys(expired, |expired|) == ExpiredKeys(st, now)
  {
    ListedKeys(st.entries, st.order, now);
    FirstKeysAreAll(expired, |expired|);
  }

  lemma DropTwice<V>(was: CacheState<V>, gone: set<Key>, more: set<Key>)
    ensures Drop(Drop(was, gone), more) == Drop(was, gone + more)
  {
    MinusTwice(was.order, gone, more);
    assert was.entries - (gone + more) == (was.entries - gone) - more;
    assert was.sizes - (gone + more) == (was.sizes - gone) - more;
  }

  lemma {:induction false} MinusTwice(keys: seq<Key>, a: set<Key>, b: set<Key>)
    ensures Minus(Minus(keys, a), b) == Minus(keys, a + b)
  {
    if keys != [] {
      MinusTwice(keys[1..], a, b);
      if keys[0] !in a {
        assert ([keys[0]] + Minus(keys[1..], a))[1..] == Minus(keys[1..], a);
      }
    }
  }
}
