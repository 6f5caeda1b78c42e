/**
  The hub's memory cache as a value: keys from least to most recently used, entries and their sizes.
 */
module CacheModel {
  import opened Options

  datatype Entry<+V> = Entry(value: V, expiresAt: Option<int>)

  datatype Limits = Limits(maxBytes: nat, maxEntries: nat, maxEntryBytes: nat, ttl: Option<int>)

  datatype CacheState<V> = CacheState(order: seq<Key>, entries: map<Key, Entry<V>>, sizes: map<Key, nat>, stores: nat)

  type Key = string

  const SWEEP_EVERY := 128

  predicate Expired<V>(entry: Entry<V>, now: int) {
    entry.expiresAt.Some? && now >= entry.expiresAt.value
  }

  function KeySet(keys: seq<Key>): set<Key> {
    if keys == [] then {} else {keys[0]} + KeySet(keys[1..])
  }

  predicate Distinct(keys: seq<Key>) {
    keys == [] || (keys[0] !in KeySet(keys[1..]) && Distinct(keys[1..]))
  }

  /** The order lists exactly the stored keys, each once, and each has a size. */
  ghost predicate Consistent<V>(st: CacheState<V>) {
    && Distinct(st.order)
    && KeySet(st.order) == st.entries.Keys == st.sizes.Keys
  }

  /** The bytes of the listed keys. */
  function Bytes(keys: seq<Key>, sizes: map<Key, nat>): nat {
    if keys == [] then 0
    else (if keys[0] in sizes then sizes[keys[0]] else 0) + Bytes(keys[1..], sizes)
  }

  predicate Fits(limits: Limits, keys: seq<Key>, sizes: map<Key, nat>) {
    |keys| <= limits.maxEntries && Bytes(keys, sizes) <= limits.maxBytes
  }

  /** The longest suffix of the order that fits both limits starts here. */
  function KeepFrom(limits: Limits, keys: seq<Key>, sizes: map<Key, nat>): (k: nat)
    ensures k <= |keys| && Fits(limits, keys[k..], sizes)
    ensures forall j {:trigger Fits(limits, keys[j..], sizes)} :: 0 <= j < k ==> !Fits(limits, keys[j..], sizes)
  {
    if Fits(limits, keys, sizes) then
      assert keys[0..] == keys;
      0
    else
      var k := KeepFrom(limits, keys[1..], sizes);
      assert keys[1..][k..] == keys[k + 1..];
      assert forall j {:trigger Fits(limits, keys[j..], sizes)} :: 1 <= j < k + 1 ==>
          keys[1..][j - 1..] == keys[j..] && !Fits(limits, keys[1..][j - 1..], sizes);
      assert keys[0..] == keys;
      k + 1
  }

  function Minus(keys: seq<Key>, gone: set<Key>): seq<Key> {
    if keys == [] then []
    else if keys[0] in gone then Minus(keys[1..], gone)
    else [keys[0]] + Minus(keys[1..], gone)
  }

  function Drop<V>(st: CacheState<V>, gone: set<Key>): CacheState<V> {
    CacheState(Minus(st.order, gone), st.entries - gone, st.sizes - gone, st.stores)
  }

  // ---------------------------------------------------------------- operations

  /** A key is found when it is stored and not expired. */
  function Find<V>(st: CacheState<V>, key: Key, now: int): Option<V> {
    if key in st.entries && !Expired(st.entries[key], now) then Some(st.entries[key].value) else None
  }

  /** A hit makes the key the most recent; an expired entry is removed on sight. */
  function Get<V>(st: CacheState<V>, key: Key, now: int): CacheState<V> {
    if key !in st.entries then st
    else if Expired(st.entries[key], now) then Drop(st, {key})
    else st.(order := Minus(st.order, {key}) + [key])
  }

  /** The looser lookup that does not count as a use. */
  function Peek<V>(st: CacheState<V>, key: Key, now: int): CacheState<V> {
    if key in st.entries && Expired(st.entries[key], now) then Drop(st, {key}) else st
  }

  function Expiry(limits: Limits, ttl: Option<int>, now: int): Option<int> {
    var effective := if ttl.None? then limits.ttl else ttl;
    if effective.None? then None else Some(now + effective.value)
  }

  function Inserted<V>(st: CacheState<V>, key: Key, entry: Entry<V>, size: nat): CacheState<V> {
    CacheState(Minus(st.order, {key}) + [key], st.entries[key := entry], st.sizes[key := size], st.stores)
  }

  function Evicted<V>(limits: Limits, st: CacheState<V>): CacheState<V> {
    var k := KeepFrom(limits, st.order, st.sizes);
    Drop(st, FirstKeys(st.order, k))
  }

  /** An accepted put before any sweep. */
  function Admitted<V>(limits: Limits, st: CacheState<V>, key: Key, entry: Entry<V>, size: nat): CacheState<V> {
    var stored := Evicted(limits, Inserted(st, key, entry, size));
    stored.(stores := stored.stores + 1)
  }

  function ExpiredKeys<V>(st: CacheState<V>, now: int): set<Key> {
    set key | key in st.entries && Expired(st.entries[key], now)
  }

  /** The keys of a prefix of the order. */
  function FirstKeys(keys: seq<Key>, k: nat): set<Key>
    requires k <= |keys|
  {
    if k == 0 then {} else FirstKeys(keys, k - 1) + {keys[k - 1]}
  }

  function Put<V>(limits: Limits, st: CacheState<V>, key: Key, value: V, size: nat, ttl: Option<int>,
                     now: int, sweepNow: int): CacheState<V> {
    if size > limits.maxEntryBytes then st
    else
      var counted := Admitted(limits, st, key, Entry(value, Expiry(limits, ttl, now)), size);
      if counted.stores % SWEEP_EVERY == 0 then Drop(counted, ExpiredKeys(counted, sweepNow)) else counted
  }

  datatype Op<V> =
    | GetOp(key: Key, now: int)
    | ContainsOp(key: Key, now: int)
    | PutOp(key: Key, value: V, size: nat, ttl: Option<int>, now: int, sweepNow: int)
    | InvalidateOp(key: Key)
    | ClearOp

  function Apply<V>(limits: Limits, st: CacheState<V>, op: Op<V>): CacheState<V> {
    match op
    case GetOp(key, now) => Get(st, key, now)
    case ContainsOp(key, now) => Peek(st, key, now)
    case PutOp(key, value, size, ttl, now, sweepNow) => Put(limits, st, key, value, size, ttl, now, sweepNow)
    case InvalidateOp(key) => if key in st.entries then Drop(st, {key}) else st
    case ClearOp => CacheState([], map[], map[], st.stores)
  }

  function Replay<V>(limits: Limits, ops: seq<Op<V>>): CacheState<V> {
    if ops == [] then CacheState([], map[], map[], 0)
    else Apply(limits, Replay(limits, ops[..|ops| - 1]), ops[|ops| - 1])
  }

  // ---------------------------------------------------------------- sums over the order

  lemma {:induction false} Appended(keys: seq<Key>, key: Key, sizes: map<Key, nat>)
    ensures KeySet(keys + [key]) == KeySet(keys) + {key}
    ensures key !in KeySet(keys) && Distinct(keys) ==> Distinct(keys + [key])
    ensures Bytes(keys + [key], sizes) == Bytes(keys, sizes) + (if key in sizes then sizes[key] else 0)
  {
    if keys == [] {
      assert Bytes([key], sizes) == (if key in sizes then sizes[key] else 0) + Bytes([], sizes);
    } else {
      assert (keys + [key])[1..] == keys[1..] + [key];
      Appended(keys[1..], key, sizes);
    }
  }

  ghost predicate AgreeOn(keys: set<Key>, a: map<Key, nat>, b: map<Key, nat>) {
    forall key :: key in keys ==> (key in a <==> key in b) && (key in a && key in b ==> a[key] == b[key])
  }

  /** Sizes of keys that are not listed do not matter. */
  lemma {:induction false} BytesAgree(keys: seq<Key>, a: map<Key, nat>, b: map<Key, nat>)
    requires AgreeOn(KeySet(keys), a, b)
    ensures Bytes(keys, a) == Bytes(keys, b)
  {
    if keys != [] {
      BytesAgree(keys[1..], a, b);
    }
  }

  lemma {:induction false} MinusAbsent(keys: seq<Key>, gone: set<Key>)
    requires KeySet(keys) !! gone
    ensures Minus(keys, gone) == keys
  {
    if keys != [] {
      MinusAbsent(keys[1..], gone);
    }
  }

  lemma {:induction false} MinusAgree(keys: seq<Key>, a: set<Key>, b: set<Key>)
    requires KeySet(keys) * a == KeySet(keys) * b
    ensures Minus(keys, a) == Minus(keys, b)
  {
    if keys != [] {
      assert keys[0] in a <==> keys[0] in KeySet(keys) * a;
      assert keys[0] in b <==> keys[0] in KeySet(keys) * b;
      assert KeySet(keys[1..]) * a == KeySet(keys[1..]) * (KeySet(keys) * a);
      assert KeySet(keys[1..]) * b == KeySet(keys[1..]) * (KeySet(keys) * b);
      MinusAgree(keys[1..], a, b);
    }
  }

  lemma {:induction false} MinusKeys(keys: seq<Key>, gone: set<Key>)
    ensures KeySet(Minus(keys, gone)) == KeySet(keys) - gone
    ensures |Minus(keys, gone)| <= |keys|
    ensures Distinct(keys) ==> Distinct(Minus(keys, gone))
  {
    if keys != [] {
      var rest := Minus(keys[1..], gone);
      MinusKeys(keys[1..], gone);
      assert ([keys[0]] + rest)[1..] == rest;
    }
  }

  lemma {:induction false} MinusOne(keys: seq<Key>, key: Key, sizes: map<Key, nat>)
    requires Distinct(keys) && key in KeySet(keys) && key in sizes
    ensures Bytes(Minus(keys, {key}), sizes) == Bytes(keys, sizes) - sizes[key]
    ensures |Minus(keys, {key})| == |keys| - 1
  {
    var rest := Minus(keys[1..], {key});
    if keys[0] == key {
      MinusAbsent(keys[1..], {key});
    } else {
      MinusOne(keys[1..], key, sizes);
      assert ([keys[0]] + rest)[1..] == rest;
    }
  }

  lemma {:induction false} FirstKeysOfTail(keys: seq<Key>, k: nat)
    requires k < |keys|
    ensures FirstKeys(keys, k + 1) == {keys[0]} + FirstKeys(keys[1..], k)
  {
    if k > 0 {
      FirstKeysOfTail(keys, k - 1);
    }
  }

  lemma {:induction false} MinusPrefix(keys: seq<Key>, k: nat)
    requires Distinct(keys) && k <= |keys|
    ensures Minus(keys, FirstKeys(keys, k)) == keys[k..]
  {
    if k == 0 {
      MinusAbsent(keys, {});
    } else {
      var gone, rest := FirstKeys(keys, k), FirstKeys(keys[1..], k - 1);
      FirstKeysOfTail(keys, k - 1);
      MinusPrefix(keys[1..], k - 1);
      MinusAgree(keys[1..], gone, rest);
    }
  }

  // ---------------------------------------------------------------- what every operation keeps

  lemma DropIsConsistent<V>(st: CacheState<V>, gone: set<Key>)
    requires Consistent(st)
    ensures Consistent(Drop(st, gone))
  {
    MinusKeys(st.order, gone);
  }

  lemma InsertIsConsistent<V>(st: CacheState<V>, key: Key, entry: Entry<V>, size: nat)
    requires Consistent(st)
    ensures Consistent(Inserted(st, key, entry, size))
  {
    MinusKeys(st.order, {key});
    Appended(Minus(st.order, {key}), key, st.sizes[key := size]);
  }

  /** Eviction leaves exactly the longest most-recent suffix of the order that fits both limits. */
  lemma EvictionKeepsLongestSuffix<V>(limits: Limits, st: CacheState<V>)
    requires Consistent(st)
    ensures var st' := Evicted(limits, st);
            && Consistent(st') && Fits(limits, st'.order, st'.sizes)
            && st'.order == st.order[KeepFrom(limits, st.order, st.sizes)..]
            && (forall key :: key in st'.entries ==> st'.entries[key] == st.entries[key])
  {
    var k := KeepFrom(limits, st.order, st.sizes);
    var st' := Evicted(limits, st);
    MinusPrefix(st.order, k);
    DropIsConsistent(st, FirstKeys(st.order, k));
    assert st'.order == st.order[k..];
    BytesAgree(st'.order, st.sizes, st'.sizes);
  }

  /** Dropping keys can only make room. */
  lemma {:induction false} FitsAfterMinus(limits: Limits, keys: seq<Key>, sizes: map<Key, nat>, gone: set<Key>)
    requires Fits(limits, keys, sizes)
    ensures Fits(limits, Minus(keys, gone), sizes - gone)
  {
    BytesShrink(keys, sizes, gone);
    MinusKeys(keys, gone);
  }

  lemma {:induction false} BytesShrink(keys: seq<Key>, sizes: map<Key, nat>, gone: set<Key>)
    ensures Bytes(Minus(keys, gone), sizes - gone) <= Bytes(keys, sizes)
  {
    if keys != [] {
      BytesShrink(keys[1..], sizes, gone);
      if keys[0] !in gone {
        assert ([keys[0]] + Minus(keys[1..], gone))[1..] == Minus(keys[1..], gone);
      }
    }
  }

  lemma MovedFits(limits: Limits, keys: seq<Key>, key: Key, sizes: map<Key, nat>)
    requires Distinct(keys) && key in KeySet(keys) && key in sizes && Fits(limits, keys, sizes)
    ensures Fits(limits, Minus(keys, {key}) + [key], sizes)
    ensures Bytes(Minus(keys, {key}) + [key], sizes) == Bytes(keys, sizes)
    ensures Distinct(Minus(keys, {key}) + [key]) && KeySet(Minus(keys, {key}) + [key]) == KeySet(keys)
  {
    MinusKeys(keys, {key});
    MinusOne(keys, key, sizes);
    Appended(Minus(keys, {key}), key, sizes);
  }

  ghost predicate WithinLimits<V>(limits: Limits, st: CacheState<V>) {
    Consistent(st) && Fits(limits, st.order, st.sizes)
  }

  /**
    An accepted put leaves, before any sweep, exactly the longest most-recent suffix of the use order
    (the new key last) that fits both limits; the kept entries are untouched and both limits hold.
   */
  lemma AcceptedPutKeepsLongestSuffix<V>(limits: Limits, st: CacheState<V>, key: Key, entry: Entry<V>, size: nat)
    requires Consistent(st)
    ensures var st' := Admitted(limits, st, key, entry, size);
            var all, sizes := Minus(st.order, {key}) + [key], st.sizes[key := size];
            && st'.order == all[KeepFrom(limits, all, sizes)..]
            && (key in st'.entries ==> st'.entries[key] == entry && st'.sizes[key] == size)
            && (forall other :: other in st'.entries && other != key ==>
                  other in st.entries && st'.entries[other] == st.entries[other])
  {
    var inserted := Inserted(st, key, entry, size);
    InsertIsConsistent(st, key, entry, size);
    MinusPrefix(inserted.order, KeepFrom(limits, inserted.order, inserted.sizes));
  }

  lemma AcceptedPutKeepsLimits<V>(limits: Limits, st: CacheState<V>, key: Key, entry: Entry<V>, size: nat)
    requires Consistent(st)
    ensures WithinLimits(limits, Admitted(limits, st, key, entry, size))
  {
    InsertIsConsistent(st, key, entry, size);
    EvictedKeepsLimits(limits, Inserted(st, key, entry, size));
  }

  lemma EvictedKeepsLimits<V>(limits: Limits, st: CacheState<V>)
    requires Consistent(st)
    ensures WithinLimits(limits, Evicted(limits, st))
    ensures forall stores :: WithinLimits(limits, Evicted(limits, st).(stores := stores))
  {
    EvictionKeepsLongestSuffix(limits, st);
  }

  lemma PutKeepsLimits<V>(limits: Limits, st: CacheState<V>, key: Key, value: V, size: nat, ttl: Option<int>,
                          now: int, sweepNow: int)
    requires WithinLimits(limits, st)
    ensures WithinLimits(limits, Put(limits, st, key, value, size, ttl, now, sweepNow))
  {
    if size <= limits.maxEntryBytes {
      var entry := Entry(value, Expiry(limits, ttl, now));
      var counted := Admitted(limits, st, key, entry, size);
      assert WithinLimits(limits, counted) by {
        AcceptedPutKeepsLimits(limits, st, key, entry, size);
      }
      if counted.stores % SWEEP_EVERY == 0 {
        DropKeepsLimits(limits, counted, ExpiredKeys(counted, sweepNow));
      }
    }
  }

  lemma DropKeepsLimits<V>(limits: Limits, st: CacheState<V>, gone: set<Key>)
    requires WithinLimits(limits, st)
    ensures WithinLimits(limits, Drop(st, gone))
  {
    DropIsConsistent(st, gone);
    FitsAfterMinus(limits, st.order, st.sizes, gone);
  }

  lemma EveryOpKeepsLimits<V>(limits: Limits, st: CacheState<V>, op: Op<V>)
    requires WithinLimits(limits, st)
    ensures WithinLimits(limits, Apply(limits, st, op))
  {
    match op
    case PutOp(key, value, size, ttl, now, sweepNow) => PutKeepsLimits(limits, st, key, value, size, ttl, now, sweepNow);
    case ClearOp =>
    case _ =>
      DropKeepsLimits(limits, st, {op.key});
      if op.key in st.entries {
        MovedFits(limits, st.order, op.key, st.sizes);
      }
  }

  /** After any operations both limits hold and order, entries and sizes list the same keys. */
  lemma {:induction false} LimitsAlwaysHold<V>(limits: Limits, ops: seq<Op<V>>)
    ensures WithinLimits(limits, Replay(limits, ops))
  {
    if ops != [] {
      LimitsAlwaysHold(limits, ops[..|ops| - 1]);
      EveryOpKeepsLimits(limits, Replay(limits, ops[..|ops| - 1]), ops[|ops| - 1]);
    }
  }

  // ---------------------------------------------------------------- what a lookup may answer

  predicate AcceptedPutOf<V>(limits: Limits, op: Op<V>, key: Key) {
    op.PutOp? && op.key == key && op.size <= limits.maxEntryBytes
  }

  /** An operation leaves an entry as it is, unless it is an accepted put of that key. */
  lemma EntryAfterOp<V>(limits: Limits, st: CacheState<V>, op: Op<V>, key: Key)
    requires key in Apply(limits, st, op).entries
    ensures if AcceptedPutOf(limits, op, key)
            then Apply(limits, st, op).entries[key] == Entry(op.value, Expiry(limits, op.ttl, op.now))
            else key in st.entries && Apply(limits, st, op).entries[key] == st.entries[key]
    ensures !op.ClearOp? && !(op.InvalidateOp? && op.key == key)
  {
  }

  lemma {:induction false} FirstKeyAt(keys: seq<Key>, k: nat, key: Key)
    requires k <= |keys| && key in FirstKeys(keys, k)
    ensures exists j :: 0 <= j < k && keys[j] == key
  {
    if keys[k - 1] != key {
      FirstKeyAt(keys, k - 1, key);
    }
  }

  /** A refused put is as if it had not been made: the older value is found exactly as before. */
  lemma RefusedPutChangesNothing<V>(limits: Limits, ops: seq<Op<V>>, put: Op<V>, key: Key, now: int)
    requires put.PutOp? && put.size > limits.maxEntryBytes
    ensures Replay(limits, ops + [put]) == Replay(limits, ops)
    ensures Find(Replay(limits, ops + [put]), key, now) == Find(Replay(limits, ops), key, now)
  {
    assert (ops + [put])[..|ops|] == ops;
  }

  /** An entry is lost only by removal, by expiry, or because the newer keys alone fill the limits. */
  lemma NothingIsLostSilently<V>(limits: Limits, st: CacheState<V>, op: Op<V>, key: Key)
    requires Consistent(st) && key in st.entries && key !in Apply(limits, st, op).entries
    ensures match op
            case GetOp(k, now) => k == key && Expired(st.entries[key], now)
            case ContainsOp(k, now) => k == key && Expired(st.entries[key], now)
            case InvalidateOp(k) => k == key
            case ClearOp => true
            case PutOp(k, value, size, ttl, now, sweepNow) =>
              var inserted := Inserted(st, k, Entry(value, Expiry(limits, ttl, now)), size);
              || Expired(inserted.entries[key], sweepNow)
              || exists j :: 0 <= j < |inserted.order| && inserted.order[j] == key
                             && !Fits(limits, inserted.order[j..], inserted.sizes)
  {
    if op.PutOp? {
      PutLosesOnlyThese(limits, st, op, key);
    }
  }

  /** What eviction drops lies before the longest suffix that fits. */
  lemma EvictionLosesOnlyThese<V>(limits: Limits, inserted: CacheState<V>, key: Key)
    requires key in inserted.entries && key !in Evicted(limits, inserted).entries
    ensures exists j :: 0 <= j < |inserted.order| && inserted.order[j] == key
                        && !Fits(limits, inserted.order[j..], inserted.sizes)
  {
    var k := KeepFrom(limits, inserted.order, inserted.sizes);
    assert key in FirstKeys(inserted.order, k);
    FirstKeyAt(inserted.order, k, key);
    var j :| 0 <= j < k && inserted.order[j] == key;
  }

  lemma PutLosesOnlyThese<V>(limits: Limits, st: CacheState<V>, op: Op<V>, key: Key)
    requires op.PutOp? && key in st.entries && key !in Apply(limits, st, op).entries
    ensures var inserted := Inserted(st, op.key, Entry(op.value, Expiry(limits, op.ttl, op.now)), op.size);
            || Expired(inserted.entries[key], op.sweepNow)
            || exists j :: 0 <= j < |inserted.order| && inserted.order[j] == key
                           && !Fits(limits, inserted.order[j..], inserted.sizes)
  {
    var inserted := Inserted(st, op.key, Entry(op.value, Expiry(limits, op.ttl, op.now)), op.size);
    if key !in Evicted(limits, inserted).entries {
      EvictionLosesOnlyThese(limits, inserted, key);
    }
  }

  // ---------------------------------------------------------------- the order is the order of use

  /** A use is an accepted put or a hit. */
  predicate Uses<V>(limits: Limits, st: CacheState<V>, op: Op<V>, key: Key) {
    || AcceptedPutOf(limits, op, key)
    || (op.GetOp? && op.key == key && Find(st, key, op.now).Some?)
  }

  /** The position of the last operation that used the key, or -1. */
  function LastUse<V>(limits: Limits, ops: seq<Op<V>>, key: Key): (at: int)
    ensures -1 <= at < |ops|
  {
    if ops == [] then -1
    else if Uses(limits, Replay(limits, ops[..|ops| - 1]), ops[|ops| - 1], key) then |ops| - 1
    else LastUse(limits, ops[..|ops| - 1], key)
  }

  ghost predicate AllBelow(keys: set<Key>, rank: Key -> int, bound: int) {
    forall key :: key in keys ==> rank(key) < bound
  }

  ghost predicate AllAbove(keys: set<Key>, rank: Key -> int, bound: int) {
    forall key :: key in keys ==> bound < rank(key)
  }

  ghost predicate Ascending(keys: seq<Key>, rank: Key -> int) {
    keys == [] || (AllAbove(KeySet(keys[1..]), rank, rank(keys[0])) && Ascending(keys[1..], rank))
  }

  lemma {:induction false} AscendingMinus(keys: seq<Key>, rank: Key -> int, gone: set<Key>)
    requires Ascending(keys, rank)
    ensures Ascending(Minus(keys, gone), rank)
  {
    if keys != [] {
      var rest := Minus(keys[1..], gone);
      AscendingMinus(keys[1..], rank, gone);
      MinusKeys(keys[1..], gone);
      assert ([keys[0]] + rest)[1..] == rest;
    }
  }

  lemma {:induction false} AscendingLast(rest: seq<Key>, last: Key, rank: Key -> int)
    requires Ascending(rest, rank) && AllBelow(KeySet(rest), rank, rank(last))
    ensures Ascending(rest + [last], rank)
  {
    if rest != [] {
      AscendingLast(rest[1..], last, rank);
      assert (rest + [last])[1..] == rest[1..] + [last];
      Appended(rest[1..], last, map[]);
    }
  }

  lemma {:induction false} AscendingAgrees(keys: seq<Key>, a: Key -> int, b: Key -> int)
    requires Ascending(keys, a) && forall key :: key in KeySet(keys) ==> a(key) == b(key)
    ensures Ascending(keys, b)
  {
    if keys != [] {
      AscendingAgrees(keys[1..], a, b);
    }
  }

  function UseRank<V>(limits: Limits, ops: seq<Op<V>>): Key -> int {
    key => LastUse(limits, ops, key)
  }

  ghost predicate ByLastUse<V>(limits: Limits, ops: seq<Op<V>>, keys: seq<Key>) {
    Ascending(keys, UseRank(limits, ops))
  }

  lemma RankAfterOp<V>(limits: Limits, before: seq<Op<V>>, op: Op<V>, key: Key)
    ensures UseRank(limits, before + [op])(key) ==
            (if Uses(limits, Replay(limits, before), op, key) then |before| else UseRank(limits, before)(key))
    ensures UseRank(limits, before)(key) < |before|
  {
    assert (before + [op])[..|before|] == before;
  }

  /** The cache's order is the order of last use, so what eviction drops first was used longest ago. */
  lemma {:induction false} OrderIsByLastUse<V>(limits: Limits, ops: seq<Op<V>>)
    ensures ByLastUse(limits, ops, Replay(limits, ops).order)
  {
    if ops != [] {
      var before, op := ops[..|ops| - 1], ops[|ops| - 1];
      var st := Replay(limits, before);
      OrderIsByLastUse(limits, before);
      LimitsAlwaysHold(limits, before);
      OrderAfterOp(limits, before, op);
      assert before + [op] == ops;
    }
  }

  lemma OrderAfterOp<V>(limits: Limits, before: seq<Op<V>>, op: Op<V>)
    requires ByLastUse(limits, before, Replay(limits, before).order) && Consistent(Replay(limits, before))
    ensures ByLastUse(limits, before + [op], Apply(limits, Replay(limits, before), op).order)
  {
    var st := Replay(limits, before);
    if op.PutOp? {
      OrderAfterPut(limits, before, op);
    } else if !op.ClearOp? {
      OthersKeepRank(limits, before, op, st.order, op.key);
      if op.GetOp? && Find(st, op.key, op.now).Some? {
        UsedIsLast(limits, before, op, st.order, op.key);
      }
    }
  }

  lemma OrderAfterPut<V>(limits: Limits, before: seq<Op<V>>, op: Op<V>)
    requires ByLastUse(limits, before, Replay(limits, before).order) && op.PutOp?
    ensures ByLastUse(limits, before + [op], Apply(limits, Replay(limits, before), op).order)
  {
    var st := Replay(limits, before);
    var rank := UseRank(limits, before + [op]);
    OthersKeepRank(limits, before, op, st.order, op.key);
    if op.size <= limits.maxEntryBytes {
      var entry := Entry(op.value, Expiry(limits, op.ttl, op.now));
      var inserted := Inserted(st, op.key, entry, op.size);
      UsedIsLast(limits, before, op, st.order, op.key);
      AscendingMinus(inserted.order, rank, FirstKeys(inserted.order, KeepFrom(limits, inserted.order, inserted.sizes)));
      var counted := Admitted(limits, st, op.key, entry, op.size);
      AscendingMinus(counted.order, rank, ExpiredKeys(counted, op.sweepNow));
    }
  }

  /** Keys the operation does not use keep their rank. */
  lemma OthersKeepRank<V>(limits: Limits, before: seq<Op<V>>, op: Op<V>, keys: seq<Key>, key: Key)
    requires ByLastUse(limits, before, keys) && !op.ClearOp? && op.key == key
    ensures ByLastUse(limits, before + [op], Minus(keys, {key}))
    ensures !Uses(limits, Replay(limits, before), op, key) ==> ByLastUse(limits, before + [op], keys)
  {
    var was, now := UseRank(limits, before), UseRank(limits, before + [op]);
    forall k
      ensures k != key || !Uses(limits, Replay(limits, before), op, key) ==> now(k) == was(k)
    {
      RankAfterOp(limits, before, op, k);
    }
    AscendingMinus(keys, was, {key});
    MinusKeys(keys, {key});
    AscendingAgrees(Minus(keys, {key}), was, now);
    if !Uses(limits, Replay(limits, before), op, key) {
      AscendingAgrees(keys, was, now);
    }
  }

  /** The used key ranks above all others. */
  lemma UsedIsLast<V>(limits: Limits, before: seq<Op<V>>, op: Op<V>, keys: seq<Key>, key: Key)
    requires ByLastUse(limits, before, keys) && !op.ClearOp? && op.key == key
    requires Uses(limits, Replay(limits, before), op, key)
    ensures ByLastUse(limits, before + [op], Minus(keys, {key}) + [key])
  {
    var rest, rank := Minus(keys, {key}), UseRank(limits, before + [op]);
    OthersKeepRank(limits, before, op, keys, key);
    MinusKeys(keys, {key});
    forall k | k in KeySet(rest)
      ensures rank(k) < rank(key)
    {
      RankAfterOp(limits, before, op, k);
      RankAfterOp(limits, before, op, key);
    }
    AscendingLast(rest, key, rank);
  }
}
