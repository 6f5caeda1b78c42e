/**
  What readers of the daily-bar table get and what a synchronisation writes, in terms of the stored rows:
  which row an as-of read answers, which versions a fetched bar leaves behind, and over whole runs what
  is known of a fetched day at each moment.
 */
module BarLaws {
  import opened Options
  import opened BarStore

  /** A version of the bar that a reader at the moment may see; without a moment, any version. */
  predicate Visible(bar: Bar, key: BusinessKey, asOf: Option<int>) {
    bar.entity == key.entity && bar.date == key.date && (asOf == None || bar.knowledge <= asOf.value)
  }

  lemma {:induction false} ReadFinds(table: seq<Bar>, key: BusinessKey, asOf: Option<int>)
    ensures Read(table, key, asOf).Some? ==>
              Read(table, key, asOf).value in table && Visible(Read(table, key, asOf).value, key, asOf)
    ensures forall bar :: bar in table && Visible(bar, key, asOf) ==>
              Read(table, key, asOf).Some? && !Newer(bar, Read(table, key, asOf).value)
  {
    if table != [] {
      var init := table[..|table| - 1];
      ReadFinds(init, key, asOf);
      assert forall bar :: bar in table <==> bar in init || bar == table[|table| - 1];
    }
  }

  /** A read answers exactly when some visible row is stored, with such a row than which none has a greater (knowledge, version). */
  lemma ReadIs(table: seq<Bar>, key: BusinessKey, asOf: Option<int>)
    ensures Read(table, key, asOf).Some? <==> exists bar :: bar in table && Visible(bar, key, asOf)
    ensures Read(table, key, asOf).Some? ==>
              var found := Read(table, key, asOf).value;
              && found in table && Visible(found, key, asOf)
              && forall bar :: bar in table && Visible(bar, key, asOf) ==>
                   bar.knowledge < found.knowledge || (bar.knowledge == found.knowledge && bar.version <= found.version)
  {
    ReadFinds(table, key, asOf);
  }

  /** The history of a bar is its rows of the table. */
  lemma {:induction false} HistoryIs(table: seq<Bar>, key: BusinessKey, bar: Bar)
    ensures bar in History(table, key) <==> bar in table && bar.entity == key.entity && bar.date == key.date
  {
    if table != [] {
      HistoryIs(table[..|table| - 1], key, bar);
    }
  }

  function Tolerances(a: real, b: real): seq<real> {
    [0.000001, 0.000000001 * a, -0.000000001 * a, 0.000000001 * b, -0.000000001 * b]
  }

  /** Two values pass as the same when their distance is within one millionth or a billionth of either's size. */
  lemma ToleranceIs(a: real, b: real)
    ensures IsClose(a, b) <==> exists i :: 0 <= i < 5 && -Tolerances(a, b)[i] <= a - b <= Tolerances(a, b)[i]
  {
    var sizes := Tolerances(a, b);
    assert sizes[0] == 0.000001 && sizes[1] == 0.000000001 * a && sizes[2] == -0.000000001 * a;
    assert sizes[3] == 0.000000001 * b && sizes[4] == -0.000000001 * b;
  }

  function Fields(v: Values): seq<Option<real>> {
    [v.open, v.high, v.low, v.close, v.volume, v.amount]
  }

  /** Both absent, or both there and within some tolerance. */
  ghost predicate Agree(a: Option<real>, b: Option<real>) {
    if a == None || b == None then a == b
    else exists i :: 0 <= i < 5 && -Tolerances(a.value, b.value)[i] <= a.value - b.value <= Tolerances(a.value, b.value)[i]
  }

  /** A fetched bar counts as unchanged exactly when all six fields agree. */
  lemma SameValuesIs(a: Values, b: Values)
    ensures SameValues(a, b) <==> forall f :: 0 <= f < 6 ==> Agree(Fields(a)[f], Fields(b)[f])
  {
    forall x: Option<real>, y: Option<real>
      ensures SameField(x, y) <==> Agree(x, y)
    {
      if x.Some? && y.Some? {
        ToleranceIs(x.value, y.value);
      }
    }
    var p, q := Fields(a), Fields(b);
    assert p[0] == a.open && p[1] == a.high && p[2] == a.low && p[3] == a.close && p[4] == a.volume && p[5] == a.amount;
    assert q[0] == b.open && q[1] == b.high && q[2] == b.low && q[3] == b.close && q[4] == b.volume && q[5] == b.amount;
  }

  // ---------------------------------------------------------------- what one synchronisation writes

  /** Latest in a history, which need not be the last in a table that is no chain. */
  lemma LatestIsLast(table: seq<Bar>, clock: int, key: BusinessKey)
    requires TableInv(table, clock)
    ensures var history := History(table, key);
            && (history == [] ==> LatestOf(table, key) == None)
            && (history != [] ==> LatestOf(table, key) == Some(history[|history| - 1])
                                  && history[|history| - 1].version == |history|)
  {
    ReadHistory(table, key, None);
    ReadChain(History(table, key), key, clock, None);
  }

  /** The record of a fetched bar, by its history. */
  lemma RecordIs(table: seq<Bar>, clock: int, sync: Sync, item: Fetched)
    requires TableInv(table, clock) && item.date.Some? && sync.start <= item.date.value <= sync.end
    ensures var key := BusinessKey(sync.entity, item.date.value);
            var was := History(table, key);
            RecordFor(table, sync, item) ==
              if was == [] then
                Some(Bar(sync.entity, key.date, key.date * 86400 + 25200, 1, item.values, sync.now, sync.provider))
              else if SameValues(was[|was| - 1].values, item.values) then None
              else Some(Bar(sync.entity, key.date, sync.now, |was| + 1, item.values, sync.now, sync.provider))
  {
    LatestIsLast(table, clock, BusinessKey(sync.entity, item.date.value));
  }

  /** The record's place is free. */
  lemma RecordFits(table: seq<Bar>, clock: int, sync: Sync, item: Fetched)
    requires TableInv(table, clock) && item.date.Some? && sync.start <= item.date.value <= sync.end
    ensures !HasKey(table, KeyToWrite(table, sync, item.date.value))
  {
    var key := BusinessKey(sync.entity, item.date.value);
    var pk := KeyToWrite(table, sync, key.date);
    LatestIsLast(table, clock, key);
    HasKeyInHistory(table, pk);
    ChainKeys(History(table, key), key, clock, pk);
  }

  /**
    What a fetched bar leaves behind: a first version, known from the close of its day; a restatement, known
    from now on and numbered one higher, when the values differ from the last version's; nothing otherwise.
   */
  lemma FetchedBarIs(table: seq<Bar>, clock: int, sync: Sync, item: Fetched)
    requires TableInv(table, clock) && UniqueDates(sync.frame) && InWindow(sync)
    requires item in sync.frame && item.date.Some?
    ensures var key := BusinessKey(sync.entity, item.date.value);
            var was, after := History(table, key), History(Synced(table, sync), key);
            after == if was == [] then
                       [Bar(sync.entity, key.date, key.date * 86400 + 25200, 1, item.values, sync.now, sync.provider)]
                     else if SameValues(was[|was| - 1].values, item.values) then was
                     else was + [Bar(sync.entity, key.date, sync.now, |was| + 1, item.values, sync.now, sync.provider)]
  {
    var key := BusinessKey(sync.entity, item.date.value);
    OnlyRecordOfDate(table, sync, sync.frame, item, key.date);
    HistoryAfterSync(table, sync, key);
    RecordIs(table, clock, sync, item);
    RecordFits(table, clock, sync, item);
  }

  /** The bars that are not fetched keep their versions. */
  lemma OthersStay(table: seq<Bar>, sync: Sync, key: BusinessKey)
    requires key.entity != sync.entity || forall item :: item in sync.frame ==> item.date != Some(key.date)
    ensures History(Synced(table, sync), key) == History(table, key)
  {
    HistoryAfterSync(table, sync, key);
    if key.entity == sync.entity {
      NoRecordOfDate(table, sync, sync.frame, key.date);
    }
  }

  // ---------------------------------------------------------------- what is known of a fetched day

  lemma {:induction false} EmptyHistoryGetsRecord(table: seq<Bar>, sync: Sync, frame: seq<Fetched>, item: Fetched)
    requires item in frame && item.date.Some? && History(table, BusinessKey(sync.entity, item.date.value)) == []
    ensures FirstFetched(table, sync, frame, item.date.value).Some?
  {
    var init, last := frame[..|frame| - 1], frame[|frame| - 1];
    if item in init {
      EmptyHistoryGetsRecord(table, sync, init, item);
    } else {
      ReadHistory(table, BusinessKey(sync.entity, item.date.value), None);
    }
  }

  /** A fetched bar has a version afterwards. */
  lemma FetchedIsStored(table: seq<Bar>, sync: Sync, item: Fetched)
    requires item in sync.frame && item.date.Some?
    ensures History(Synced(table, sync), BusinessKey(sync.entity, item.date.value)) != []
  {
    var key := BusinessKey(sync.entity, item.date.value);
    HistoryAfterSync(table, sync, key);
    HasKeyInHistory(table, KeyToWrite(table, sync, key.date));
    if History(table, key) == [] {
      EmptyHistoryGetsRecord(table, sync, sync.frame, item);
    }
  }

  lemma {:induction false} FirstIsAtClose(history: seq<Bar>, key: BusinessKey, clock: int)
    requires IsChain(history, key, clock) && history != []
    ensures KeyOf(history[0]) == key && history[0].knowledge == KnowledgeTime(key.date) && history[0].version == 1
    ensures forall bar :: bar in history ==> bar.knowledge >= KnowledgeTime(key.date)
  {
    var init := history[..|history| - 1];
    if init != [] {
      FirstIsAtClose(init, key, clock);
      assert init[|init| - 1] in init;
    }
  }

  /** A stored bar is answered exactly from the close of its day on. */
  lemma AnsweredFromClose(table: seq<Bar>, clock: int, key: BusinessKey, asOf: int)
    requires TableInv(table, clock) && History(table, key) != []
    ensures Read(table, key, Some(asOf)).Some? <==> key.date * 86400 + 25200 <= asOf
  {
    var history := History(table, key);
    FirstIsAtClose(history, key, clock);
    ReadIs(table, key, Some(asOf));
    HistoryIs(table, key, history[0]);
    if Read(table, key, Some(asOf)).Some? {
      HistoryIs(table, key, Read(table, key, Some(asOf)).value);
    }
  }

  /** Over any run of synchronisations a day fetched in any of them is answered exactly from its close on. */
  lemma {:induction false} FetchedDaysAreAnswered(table: seq<Bar>, clock: int, syncs: seq<Sync>, k: nat, item: Fetched, asOf: int)
    requires TableInv(table, clock) && InOrder(syncs, clock)
    requires k < |syncs| && item in syncs[k].frame && item.date.Some?
    ensures Read(SyncAll(table, syncs), BusinessKey(syncs[k].entity, item.date.value), Some(asOf)).Some?
            <==> item.date.value * 86400 + 25200 <= asOf
  {
    ChainsOverRuns(table, clock, syncs);
    FetchedStaysStored(table, syncs, k, item);
    AnsweredFromClose(SyncAll(table, syncs), LastClock(syncs, clock), BusinessKey(syncs[k].entity, item.date.value), asOf);
  }

  lemma {:induction false} FetchedStaysStored(table: seq<Bar>, syncs: seq<Sync>, k: nat, item: Fetched)
    requires k < |syncs| && item in syncs[k].frame && item.date.Some?
    ensures History(SyncAll(table, syncs), BusinessKey(syncs[k].entity, item.date.value)) != []
  {
    var init, last := syncs[..|syncs| - 1], syncs[|syncs| - 1];
    if k == |init| {
      FetchedIsStored(SyncAll(table, init), last, item);
    } else {
      FetchedStaysStored(table, init, k, item);
      HistoryAfterSync(SyncAll(table, init), last, BusinessKey(syncs[k].entity, item.date.value));
    }
  }

  /** Nothing after the k-th synchronisation is known by the moment. */
  predicate LaterThan(syncs: seq<Sync>, k: nat, asOf: int) {
    forall j :: k < j < |syncs| ==> asOf < syncs[j].now
  }

  lemma InOrderPrefix(syncs: seq<Sync>, clock: int, k: nat)
    requires InOrder(syncs, clock) && k <= |syncs|
    ensures InOrder(syncs[..k], clock)
  {
    if k < |syncs| {
      var init := syncs[..|syncs| - 1];
      InOrderPrefix(init, clock, k);
      assert init[..k] == syncs[..k];
    } else {
      assert syncs[..k] == syncs;
    }
  }

  /** What a read at the moment answers is settled by the last synchronisation that is not later. */
  lemma {:induction false} LaterSyncsDoNotShow(table: seq<Bar>, clock: int, syncs: seq<Sync>, k: nat, key: BusinessKey, asOf: int)
    requires TableInv(table, clock) && InOrder(syncs, clock) && k < |syncs| && LaterThan(syncs, k, asOf)
    requires History(SyncAll(table, syncs[..k + 1]), key) != []
    ensures Read(SyncAll(table, syncs), key, Some(asOf)) == Read(SyncAll(table, syncs[..k + 1]), key, Some(asOf))
  {
    if k + 1 == |syncs| {
      assert syncs[..k + 1] == syncs;
    } else {
      var init, last := syncs[..|syncs| - 1], syncs[|syncs| - 1];
      assert init[..k + 1] == syncs[..k + 1];
      LaterSyncsDoNotShow(table, clock, init, k, key, asOf);
      ChainsOverRuns(table, clock, init);
      HistoryGrowsTo(table, init, k + 1, key);
      PastReadsAreStable(SyncAll(table, init), LastClock(init, clock), last, key, asOf);
    }
  }

  lemma {:induction false} HistoryGrowsTo(table: seq<Bar>, syncs: seq<Sync>, k: nat, key: BusinessKey)
    requires k <= |syncs|
    ensures History(SyncAll(table, syncs[..k]), key) <= History(SyncAll(table, syncs), key)
  {
    if k == |syncs| {
      assert syncs[..k] == syncs;
    } else {
      var init, last := syncs[..|syncs| - 1], syncs[|syncs| - 1];
      assert init[..k] == syncs[..k];
      HistoryGrowsTo(table, init, k, key);
      HistoryAfterSync(SyncAll(table, init), last, key);
    }
  }

  /** In the state a synchronisation leaves, a reader from now on gets the fetched values, up to tolerance. */
  lemma ReadIsFetched(table: seq<Bar>, clock: int, sync: Sync, item: Fetched, asOf: int)
    requires TableInv(table, clock) && clock <= sync.now <= asOf && AllClosed(sync)
    requires UniqueDates(sync.frame) && InWindow(sync) && item in sync.frame && item.date.Some?
    ensures var found := Read(Synced(table, sync), BusinessKey(sync.entity, item.date.value), Some(asOf));
            found.Some? && SameValues(found.value.values, item.values)
  {
    var key := BusinessKey(sync.entity, item.date.value);
    var table' := Synced(table, sync);
    SyncKeepsTable(table, clock, sync);
    FetchedBarIs(table, clock, sync, item);
    SameValuesReflexive(item.values);
    ReadHistory(table', key, Some(asOf));
    ReadChain(History(table', key), key, sync.now, Some(asOf));
  }

  /**
    The past as it was known: over any run, a reader at a moment gets the values fetched by the last
    synchronisation of the bar's day before that moment, whatever was fetched later.
   */
  lemma ReadersGetWhatWasFetched(table: seq<Bar>, clock: int, syncs: seq<Sync>, k: nat, item: Fetched, asOf: int)
    requires TableInv(table, clock) && InOrder(syncs, clock)
    requires k < |syncs| && item in syncs[k].frame && item.date.Some?
    requires UniqueDates(syncs[k].frame) && InWindow(syncs[k])
    requires syncs[k].now <= asOf && LaterThan(syncs, k, asOf)
    ensures var found := Read(SyncAll(table, syncs), BusinessKey(syncs[k].entity, item.date.value), Some(asOf));
            found.Some? && SameValues(found.value.values, item.values)
  {
    var key, upto := BusinessKey(syncs[k].entity, item.date.value), syncs[..k + 1];
    InOrderPrefix(syncs, clock, k + 1);
    InOrderPrefix(syncs, clock, k);
    assert upto[..k] == syncs[..k];
    ChainsOverRuns(table, clock, syncs[..k]);
    assert SyncAll(table, upto) == Synced(SyncAll(table, syncs[..k]), syncs[k]);
    FetchedIsStored(SyncAll(table, syncs[..k]), syncs[k], item);
    ReadIsFetched(SyncAll(table, syncs[..k]), LastClock(syncs[..k], clock), syncs[k], item, asOf);
    LaterSyncsDoNotShow(table, clock, syncs, k, key, asOf);
  }

  /** A day filled in late is known as from its close: until it is restated, readers get that very row. */
  lemma BackfillIsKnownFromClose(table: seq<Bar>, clock: int, syncs: seq<Sync>, k: nat, item: Fetched, asOf: int)
    requires TableInv(table, clock) && InOrder(syncs, clock)
    requires k < |syncs| && item in syncs[k].frame && item.date.Some?
    requires UniqueDates(syncs[k].frame) && InWindow(syncs[k])
    requires History(SyncAll(table, syncs[..k]), BusinessKey(syncs[k].entity, item.date.value)) == []
    requires LaterThan(syncs, k, asOf)
    ensures Read(SyncAll(table, syncs), BusinessKey(syncs[k].entity, item.date.value), Some(asOf)) ==
              var close := item.date.value * 86400 + 25200;
              if close <= asOf
              then Some(Bar(syncs[k].entity, item.date.value, close, 1, item.values, syncs[k].now, syncs[k].provider))
              else None
  {
    var key, upto := BusinessKey(syncs[k].entity, item.date.value), syncs[..k + 1];
    InOrderPrefix(syncs, clock, k);
    assert upto[..k] == syncs[..k];
    ChainsOverRuns(table, clock, syncs[..k]);
    assert SyncAll(table, upto) == Synced(SyncAll(table, syncs[..k]), syncs[k]);
    FetchedBarIs(SyncAll(table, syncs[..k]), LastClock(syncs[..k], clock), syncs[k], item);
    LaterSyncsDoNotShow(table, clock, syncs, k, key, asOf);
    ReadHistory(SyncAll(table, upto), key, Some(asOf));
    LoneRead(History(SyncAll(table, upto), key)[0], key, asOf);
  }

  lemma LoneRead(bar: Bar, key: BusinessKey, asOf: int)
    requires KeyOf(bar) == key
    ensures Read([bar], key, Some(asOf)) == if bar.knowledge <= asOf then Some(bar) else None
  {
    assert [bar][..0] == [] && Read([], key, Some(asOf)) == None;
  }
}
