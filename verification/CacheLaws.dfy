/**
  What the memory cache promises its callers, in terms of the operations made and the times they were
  made at: how long a stored value is found, what each operation removes, and what room is kept.
 */
module CacheLaws {
  import opened Options
  import opened CacheModel

  /** The moment is before the end of the put's life: its own time to live, or the cache's, or no end at all. */
  predicate Lives<V>(limits: Limits, put: Op<V>, t: int)
    requires put.PutOp?
  {
    match (put.ttl, limits.ttl)
    case (Some(own), _) => t < put.now + own
    case (None, Some(default)) => t < put.now + default
    case (None, None) => true
  }

  /** No accepted put or invalidation of the key, and no clearing; lookups, refused puts and other keys may be there. */
  predicate Spares<V>(limits: Limits, op: Op<V>, key: Key) {
    match op
    case PutOp(k, _, size, _, _, _) => k != key || size > limits.maxEntryBytes
    case InvalidateOp(k) => k != key
    case ClearOp => false
    case _ => true
  }

  /** The put at this place was accepted for the key and the operations after it spare the key. */
  ghost predicate LastPut<V>(limits: Limits, ops: seq<Op<V>>, i: nat, key: Key) {
    && i < |ops| && ops[i].PutOp? && ops[i].key == key && ops[i].size <= limits.maxEntryBytes
    && forall j :: i < j < |ops| ==> Spares(limits, ops[j], key)
  }

  /** How a put's entry answers lookups, in any state that holds it. */
  lemma EntryLives<V>(limits: Limits, put: Op<V>, st: CacheState<V>, t: int)
    requires put.PutOp? && put.key in st.entries
    requires st.entries[put.key] == Entry(put.value, Expiry(limits, put.ttl, put.now))
    ensures Find(st, put.key, t) == if Lives(limits, put, t) then Some(put.value) else None
  {
  }

  lemma {:induction false} StoredSince<V>(limits: Limits, ops: seq<Op<V>>, key: Key) returns (i: nat)
    requires key in Replay(limits, ops).entries
    ensures LastPut(limits, ops, i, key)
    ensures Replay(limits, ops).entries[key] == Entry(ops[i].value, Expiry(limits, ops[i].ttl, ops[i].now))
    ensures key in Replay(limits, ops).sizes && Replay(limits, ops).sizes[key] == ops[i].size
  {
    var before, op := ops[..|ops| - 1], ops[|ops| - 1];
    var st := Replay(limits, before);
    LimitsAlwaysHold(limits, before);
    LimitsAlwaysHold(limits, ops);
    EntryAfterOp(limits, st, op, key);
    SizeAfterOp(limits, st, op, key);
    if AcceptedPutOf(limits, op, key) {
      i := |ops| - 1;
    } else {
      i := StoredSince(limits, before, key);
    }
  }

  /** Any stored key comes from its last accepted put, with that put's value and size, and is over when that put's time is. */
  lemma StoredIsLastAccepted<V>(limits: Limits, ops: seq<Op<V>>, key: Key) returns (i: nat)
    requires key in Replay(limits, ops).entries
    ensures LastPut(limits, ops, i, key)
    ensures var st := Replay(limits, ops);
            && st.entries[key].value == ops[i].value && key in st.sizes && st.sizes[key] == ops[i].size
            && forall t :: Over(st, key, t) <==> !Lives(limits, ops[i], t)
  {
    i := StoredSince(limits, ops, key);
  }

  lemma SizeAfterOp<V>(limits: Limits, st: CacheState<V>, op: Op<V>, key: Key)
    requires Consistent(st) && key in Apply(limits, st, op).sizes && key in Apply(limits, st, op).entries
    ensures if AcceptedPutOf(limits, op, key) then Apply(limits, st, op).sizes[key] == op.size
            else key in st.sizes && Apply(limits, st, op).sizes[key] == st.sizes[key]
  {
  }

  lemma OneLastPut<V>(limits: Limits, ops: seq<Op<V>>, i: nat, j: nat, key: Key)
    requires LastPut(limits, ops, i, key) && LastPut(limits, ops, j, key)
    ensures i == j
  {
    assert i < j ==> Spares(limits, ops[j], key);
    assert j < i ==> Spares(limits, ops[i], key);
  }

  /** While its entry is kept, a stored value is found at a moment exactly when its time is not over. */
  lemma FoundWhileItLives<V>(limits: Limits, ops: seq<Op<V>>, i: nat, key: Key, t: int)
    requires LastPut(limits, ops, i, key) && key in Replay(limits, ops).entries
    ensures Find(Replay(limits, ops), key, t) == if Lives(limits, ops[i], t) then Some(ops[i].value) else None
  {
    var j := StoredSince(limits, ops, key);
    OneLastPut(limits, ops, i, j, key);
    EntryLives(limits, ops[i], Replay(limits, ops), t);
  }

  /** A hit answers the value of the last accepted put, made at a time from which that value is still alive. */
  lemma HitIsLastAccepted<V>(limits: Limits, ops: seq<Op<V>>, key: Key, t: int)
    ensures var found := Find(Replay(limits, ops), key, t);
            found.Some? ==>
              exists i: nat :: LastPut(limits, ops, i, key) && ops[i].value == found.value && Lives(limits, ops[i], t)
  {
    if Find(Replay(limits, ops), key, t).Some? {
      var i := StoredSince(limits, ops, key);
      EntryLives(limits, ops[i], Replay(limits, ops), t);
    }
  }

  /** Over: the entry has a time to live and that is past. */
  predicate Over<V>(st: CacheState<V>, key: Key, now: int) {
    key in st.entries && st.entries[key].expiresAt != None && st.entries[key].expiresAt.value <= now
  }

  /** What each operation but an accepted put removes: an entry seen to be over, an invalidated one, or all; nothing is added. */
  lemma RemovalIs<V>(limits: Limits, st: CacheState<V>, op: Op<V>, key: Key)
    requires op.PutOp? ==> op.size > limits.maxEntryBytes
    ensures key in Apply(limits, st, op).entries <==>
              && key in st.entries
              && match op
                 case GetOp(k, now) => k == key ==> !Over(st, key, now)
                 case ContainsOp(k, now) => k == key ==> !Over(st, key, now)
                 case InvalidateOp(k) => k != key
                 case ClearOp => false
                 case PutOp(_, _, _, _, _, _) => true
    ensures Apply(limits, st, op).stores == st.stores
  {
  }

  /** Every 128th accepted put also removes everything that is over at the moment of the sweep; the others nothing more. */
  lemma SweepIs<V>(limits: Limits, st: CacheState<V>, put: Op<V>, key: Key)
    requires put.PutOp? && put.size <= limits.maxEntryBytes
    ensures var admitted := Admitted(limits, st, put.key, Entry(put.value, Expiry(limits, put.ttl, put.now)), put.size);
            var st' := Apply(limits, st, put);
            && st'.stores == st.stores + 1
            && (key in st'.entries <==> key in admitted.entries && ((st.stores + 1) % 128 == 0 ==> !Over(admitted, key, put.sweepNow)))
  {
  }

  /** There is room for these keys. */
  predicate Room(limits: Limits, keys: seq<Key>, sizes: map<Key, nat>) {
    |keys| <= limits.maxEntries && Bytes(keys, sizes) <= limits.maxBytes
  }

  /** An accepted put moves the key to the recent end and then keeps as many of the most recent keys as there is room for. */
  lemma RoomIsKept<V>(limits: Limits, st: CacheState<V>, put: Op<V>) returns (k: nat)
    requires Consistent(st) && put.PutOp?
    ensures var all, sizes := Minus(st.order, {put.key}) + [put.key], st.sizes[put.key := put.size];
            var kept := Admitted(limits, st, put.key, Entry(put.value, Expiry(limits, put.ttl, put.now)), put.size).order;
            && k <= |all| && kept == all[k..] && Room(limits, all[k..], sizes)
            && forall j {:trigger all[j..]} :: 0 <= j < k ==> !Room(limits, all[j..], sizes)
  {
    var all, sizes := Minus(st.order, {put.key}) + [put.key], st.sizes[put.key := put.size];
    AcceptedPutKeepsLongestSuffix(limits, st, put.key, Entry(put.value, Expiry(limits, put.ttl, put.now)), put.size);
    k := KeepFrom(limits, all, sizes);
    forall j {:trigger all[j..]} | 0 <= j < k
      ensures !Room(limits, all[j..], sizes)
    {
      assert !Fits(limits, all[j..], sizes);
    }
  }

  /** At any time the keys in use order are those stored, and they are within both limits. */
  lemma RoomAlwaysHolds<V>(limits: Limits, ops: seq<Op<V>>)
    ensures var st := Replay(limits, ops);
            && KeySet(st.order) == st.entries.Keys == st.sizes.Keys && Distinct(st.order)
            && Room(limits, st.order, st.sizes)
  {
    LimitsAlwaysHold(limits, ops);
  }
}
