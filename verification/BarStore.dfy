/**
  The daily-bar table: append-only versions of each bar, `ON CONFLICT DO NOTHING` on the physical
  key, and reads that take the newest version known at a moment.  Instants are seconds, dates are days.
 */
module BarStore {
  import opened Options

  datatype Values = Values(
    open: Option<real>, high: Option<real>, low: Option<real>,
    close: Option<real>, volume: Option<real>, amount: Option<real>)

  datatype Bar = Bar(
    entity: nat, date: int, knowledge: int, version: nat, values: Values, ingest: int, provider: string)

  /** A fetched row; a date that cannot be parsed is absent. */
  datatype Fetched = Fetched(date: Option<int>, values: Values)

  datatype BusinessKey = BusinessKey(entity: nat, date: int)

  datatype PhysicalKey = PhysicalKey(entity: nat, date: int, knowledge: int, version: nat)

  const DAY := 86400
  const CLOSE := 25200      // 07:00 UTC, the close of the session

  function KnowledgeTime(date: int): int {
    date * DAY + CLOSE
  }

  // ---------------------------------------------------------------- comparing values

  function Abs(x: real): real { if x < 0.0 then -x else x }

  function Larger(x: real, y: real): real { if x > y then x else y }

  predicate IsClose(a: real, b: real) {
    Abs(a - b) <= Larger(0.000000001 * Larger(Abs(a), Abs(b)), 0.000001)
  }

  predicate SameField(a: Option<real>, b: Option<real>) {
    if a.None? || b.None? then a.None? && b.None? else IsClose(a.value, b.value)
  }

  predicate SameValues(a: Values, b: Values) {
    && SameField(a.open, b.open) && SameField(a.high, b.high) && SameField(a.low, b.low)
    && SameField(a.close, b.close) && SameField(a.volume, b.volume) && SameField(a.amount, b.amount)
  }

  lemma SameValuesReflexive(v: Values)
    ensures SameValues(v, v)
  {
  }

  // ---------------------------------------------------------------- the table

  function KeyOf(bar: Bar): BusinessKey { BusinessKey(bar.entity, bar.date) }

  function PhysicalKeyOf(bar: Bar): PhysicalKey { PhysicalKey(bar.entity, bar.date, bar.knowledge, bar.version) }

  function HasKey(table: seq<Bar>, key: PhysicalKey): bool {
    table != [] && (PhysicalKeyOf(table[|table| - 1]) == key || HasKey(table[..|table| - 1], key))
  }

  /** Inserts row by row and skips a row whose physical key is there already. */
  function Appended(table: seq<Bar>, rows: seq<Bar>): seq<Bar> {
    if rows == [] then table
    else
      var sofar, last := Appended(table, rows[..|rows| - 1]), rows[|rows| - 1];
      if HasKey(sofar, PhysicalKeyOf(last)) then sofar else sofar + [last]
  }

  predicate Newer(a: Bar, b: Bar) {
    a.knowledge > b.knowledge || (a.knowledge == b.knowledge && a.version > b.version)
  }

  predicate KnownBy(bar: Bar, asOf: Option<int>) {
    asOf.Some? ==> bar.knowledge <= asOf.value
  }

  /** The newest version of the key known at the moment, or of all versions. */
  function Read(table: seq<Bar>, key: BusinessKey, asOf: Option<int>): Option<Bar> {
    if table == [] then None
    else
      var best, last := Read(table[..|table| - 1], key, asOf), table[|table| - 1];
      if KeyOf(last) == key && KnownBy(last, asOf) && (best.None? || Newer(last, best.value)) then Some(last) else best
  }

  function LatestOf(table: seq<Bar>, key: BusinessKey): Option<Bar> {
    Read(table, key, None)
  }

  // ---------------------------------------------------------------- one synchronisation

  datatype Sync = Sync(entity: nat, start: int, end: int, frame: seq<Fetched>, provider: string, now: int)

  /** The stored version a fetched bar is compared with; only the window is looked up. */
  function Prior(table: seq<Bar>, sync: Sync, date: int): Option<Bar> {
    if sync.start <= date <= sync.end then LatestOf(table, BusinessKey(sync.entity, date)) else None
  }

  /** The row a fetched bar gives: a first version, a restatement, or nothing. */
  function RecordFor(table: seq<Bar>, sync: Sync, item: Fetched): Option<Bar> {
    if item.date.None? then None
    else
      var date := item.date.value;
      var prior := Prior(table, sync, date);
      if prior.None? then
        Some(Bar(sync.entity, date, KnowledgeTime(date), 1, item.values, sync.now, sync.provider))
      else if SameValues(prior.value.values, item.values) then None
      else
        Some(Bar(sync.entity, date, sync.now, prior.value.version + 1, item.values, sync.now, sync.provider))
  }

  function Records(table: seq<Bar>, sync: Sync, frame: seq<Fetched>): seq<Bar> {
    if frame == [] then []
    else
      var rest, record := Records(table, sync, frame[..|frame| - 1]), RecordFor(table, sync, frame[|frame| - 1]);
      if record.None? then rest else rest + [record.value]
  }

  function Synced(table: seq<Bar>, sync: Sync): seq<Bar> {
    Appended(table, Records(table, sync, sync.frame))
  }

  // ---------------------------------------------------------------- the history of one bar

  function History(table: seq<Bar>, key: BusinessKey): seq<Bar> {
    if table == [] then []
    else
      var rest, last := History(table[..|table| - 1], key), table[|table| - 1];
      if KeyOf(last) == key then rest + [last] else rest
  }

  /** Versions 1..n, the first known at the close, knowledge never going back nor past the clock. */
  predicate IsChain(history: seq<Bar>, key: BusinessKey, clock: int) {
    if history == [] then true
    else
      var init, last := history[..|history| - 1], history[|history| - 1];
      && KeyOf(last) == key && last.version == |history| && last.knowledge <= clock
      && (if init == [] then last.knowledge == KnowledgeTime(key.date) else last.knowledge >= init[|init| - 1].knowledge)
      && IsChain(init, key, clock)
  }

  ghost predicate TableInv(table: seq<Bar>, clock: int) {
    forall key :: IsChain(History(table, key), key, clock)
  }

  lemma ReadAfterOne(table: seq<Bar>, row: Bar, key: BusinessKey, asOf: Option<int>)
    ensures var best := Read(table, key, asOf);
            Read(table + [row], key, asOf) ==
              if KeyOf(row) == key && KnownBy(row, asOf) && (best.None? || Newer(row, best.value)) then Some(row) else best
  {
    assert (table + [row])[..|table|] == table;
  }

  lemma {:induction false} ReadHistory(table: seq<Bar>, key: BusinessKey, asOf: Option<int>)
    ensures Read(table, key, asOf) == Read(History(table, key), key, asOf)
  {
    if table != [] {
      var init, last := table[..|table| - 1], table[|table| - 1];
      ReadHistory(init, key, asOf);
      ReadAfterOne(History(init, key), last, key, asOf);
    }
  }

  /** In a chain the newest known version is the last one known. */
  lemma {:induction false} ReadChain(history: seq<Bar>, key: BusinessKey, clock: int, asOf: Option<int>)
    requires IsChain(history, key, clock)
    ensures var found := Read(history, key, asOf);
            && (history != [] && KnownBy(history[|history| - 1], asOf) ==> found == Some(history[|history| - 1]))
            && (found.Some? ==> found.value.knowledge <= history[|history| - 1].knowledge && found.value.version <= |history|)
  {
    if history != [] {
      ReadChain(history[..|history| - 1], key, clock, asOf);
    }
  }

  lemma {:induction false} HasKeyInHistory(table: seq<Bar>, key: PhysicalKey)
    ensures HasKey(table, key) <==> HasKey(History(table, BusinessKey(key.entity, key.date)), key)
  {
    if table != [] {
      var bk := BusinessKey(key.entity, key.date);
      var init, last := table[..|table| - 1], table[|table| - 1];
      HasKeyInHistory(init, key);
      if KeyOf(last) == bk {
        assert History(table, bk)[..|History(init, bk)|] == History(init, bk);
      }
    }
  }

  lemma {:induction false} ChainKeys(history: seq<Bar>, key: BusinessKey, clock: int, pk: PhysicalKey)
    requires IsChain(history, key, clock)
    ensures HasKey(history, pk) ==> 1 <= pk.version <= |history|
    ensures history != [] ==> HasKey(history, PhysicalKey(key.entity, key.date, KnowledgeTime(key.date), 1))
  {
    if history != [] {
      ChainKeys(history[..|history| - 1], key, clock, pk);
    }
  }

  // ---------------------------------------------------------------- what one synchronisation does to one bar

  /** The first record of the batch for the key. */
  function FirstFor(rows: seq<Bar>, key: BusinessKey): Option<Bar> {
    if rows == [] then None
    else
      var first := FirstFor(rows[..|rows| - 1], key);
      if first.Some? then first else if KeyOf(rows[|rows| - 1]) == key then Some(rows[|rows| - 1]) else None
  }

  ghost predicate SameKeyForAll(rows: seq<Bar>, key: BusinessKey, pk: PhysicalKey) {
    forall row :: row in rows && KeyOf(row) == key ==> PhysicalKeyOf(row) == pk
  }

  lemma HistoryAfterOne(table: seq<Bar>, row: Bar, key: BusinessKey)
    ensures History(table + [row], key) == if KeyOf(row) == key then History(table, key) + [row] else History(table, key)
  {
    assert (table + [row])[..|table|] == table;
  }

  lemma HasKeyAfterOne(table: seq<Bar>, row: Bar, pk: PhysicalKey)
    ensures HasKey(table + [row], pk) <==> PhysicalKeyOf(row) == pk || HasKey(table, pk)
  {
    assert (table + [row])[..|table|] == table;
  }

  /** Records of one bar share their physical key, so at most the first of them is inserted. */
  lemma {:induction false} HistoryAfterAppend(table: seq<Bar>, rows: seq<Bar>, key: BusinessKey, pk: PhysicalKey)
    requires SameKeyForAll(rows, key, pk)
    ensures var first := FirstFor(rows, key);
            && History(Appended(table, rows), key) ==
                 (if first.Some? && !HasKey(table, pk) then History(table, key) + [first.value] else History(table, key))
            && (BusinessKey(pk.entity, pk.date) == key ==>
                  (HasKey(Appended(table, rows), pk) <==> HasKey(table, pk) || first.Some?))
  {
    if rows != [] {
      var init, last := rows[..|rows| - 1], rows[|rows| - 1];
      assert forall row :: row in init ==> row in rows;
      HistoryAfterAppend(table, init, key, pk);
      var sofar := Appended(table, init);
      HistoryAfterOne(sofar, last, key);
      HasKeyAfterOne(sofar, last, pk);
      assert last in rows;
    }
  }

  /** The physical key that any record of the date would have. */
  function KeyToWrite(table: seq<Bar>, sync: Sync, date: int): PhysicalKey {
    var prior := Prior(table, sync, date);
    if prior.None? then PhysicalKey(sync.entity, date, KnowledgeTime(date), 1)
    else PhysicalKey(sync.entity, date, sync.now, prior.value.version + 1)
  }

  /** The first fetched row of the date that differs from what is stored. */
  function FirstFetched(table: seq<Bar>, sync: Sync, frame: seq<Fetched>, date: int): Option<Bar> {
    if frame == [] then None
    else
      var first, last := FirstFetched(table, sync, frame[..|frame| - 1], date), frame[|frame| - 1];
      if first.Some? then first
      else if last.date == Some(date) then RecordFor(table, sync, last) else None
  }

  lemma FirstForLonger(rows: seq<Bar>, last: Bar, key: BusinessKey)
    ensures FirstFor(rows + [last], key) ==
            if FirstFor(rows, key).Some? then FirstFor(rows, key) else if KeyOf(last) == key then Some(last) else None
  {
    assert (rows + [last])[..|rows|] == rows;
  }

  /** What a record of the key is. */
  lemma RecordHasKey(table: seq<Bar>, sync: Sync, item: Fetched, key: BusinessKey)
    ensures var record := RecordFor(table, sync, item);
            record.Some? ==>
              && (KeyOf(record.value) == key <==> key.entity == sync.entity && item.date == Some(key.date))
              && (KeyOf(record.value) == key ==> PhysicalKeyOf(record.value) == KeyToWrite(table, sync, key.date))
  {
  }

  lemma {:induction false} RecordsOfDate(table: seq<Bar>, sync: Sync, frame: seq<Fetched>, key: BusinessKey)
    ensures SameKeyForAll(Records(table, sync, frame), key, KeyToWrite(table, sync, key.date))
    ensures FirstFor(Records(table, sync, frame), key) ==
            if key.entity == sync.entity then FirstFetched(table, sync, frame, key.date) else None
  {
    if frame != [] {
      var init, last := frame[..|frame| - 1], frame[|frame| - 1];
      var rest := Records(table, sync, init);
      var record := RecordFor(table, sync, last);
      RecordsOfDate(table, sync, init, key);
      RecordHasKey(table, sync, last, key);
      if record.Some? {
        FirstForLonger(rest, record.value, key);
      }
    }
  }

  /** A synchronisation appends at most one version to each bar's history. */
  lemma HistoryAfterSync(table: seq<Bar>, sync: Sync, key: BusinessKey)
    ensures var first := if key.entity == sync.entity then FirstFetched(table, sync, sync.frame, key.date) else None;
            History(Synced(table, sync), key) ==
              if first.Some? && !HasKey(table, KeyToWrite(table, sync, key.date)) then History(table, key) + [first.value]
              else History(table, key)
  {
    RecordsOfDate(table, sync, sync.frame, key);
    HistoryAfterAppend(table, Records(table, sync, sync.frame), key, KeyToWrite(table, sync, key.date));
  }

  lemma {:induction false} FirstFetchedIsRecord(table: seq<Bar>, sync: Sync, frame: seq<Fetched>, date: int)
    ensures var first := FirstFetched(table, sync, frame, date);
            first.Some? ==> exists item :: item in frame && item.date == Some(date) && RecordFor(table, sync, item) == first
  {
    if frame != [] {
      FirstFetchedIsRecord(table, sync, frame[..|frame| - 1], date);
    }
  }

  // ---------------------------------------------------------------- the invariant of the table

  /** Every fetched bar's session is over when it is synchronised. */
  ghost predicate AllClosed(sync: Sync) {
    forall item :: item in sync.frame && item.date.Some? ==> KnowledgeTime(item.date.value) <= sync.now
  }

  lemma ChainAtLaterClock(history: seq<Bar>, key: BusinessKey, clock: int, later: int)
    requires IsChain(history, key, clock) && clock <= later
    ensures IsChain(history, key, later)
  {
  }

  /** A new version continues the chain of its bar, whatever the frame repeats and whatever the window. */
  lemma SyncKeepsChain(table: seq<Bar>, clock: int, sync: Sync, key: BusinessKey)
    requires TableInv(table, clock) && clock <= sync.now && AllClosed(sync)
    ensures IsChain(History(Synced(table, sync), key), key, sync.now)
  {
    var history := History(table, key);
    var pk := KeyToWrite(table, sync, key.date);
    ChainAtLaterClock(history, key, clock, sync.now);
    HistoryAfterSync(table, sync, key);
    FirstFetchedIsRecord(table, sync, sync.frame, key.date);
    if key.entity == sync.entity {
      HasKeyInHistory(table, pk);
      ReadHistory(table, key, None);
      ReadChain(history, key, clock, None);
      ChainKeys(history, key, clock, pk);
      var history' := History(Synced(table, sync), key);
      if history' != history {
        assert history'[..|history|] == history;
      }
    }
  }

  lemma SyncKeepsTable(table: seq<Bar>, clock: int, sync: Sync)
    requires TableInv(table, clock) && clock <= sync.now && AllClosed(sync)
    ensures TableInv(Synced(table, sync), sync.now)
  {
    forall key
      ensures IsChain(History(Synced(table, sync), key), key, sync.now)
    {
      SyncKeepsChain(table, clock, sync, key);
    }
  }

  // ---------------------------------------------------------------- point-in-time stability

  /** A restatement at `now` cannot be seen by a reader who looks at an earlier moment. */
  lemma PastReadsAreStable(table: seq<Bar>, clock: int, sync: Sync, key: BusinessKey, asOf: int)
    requires TableInv(table, clock) && asOf < sync.now && History(table, key) != []
    ensures Read(Synced(table, sync), key, Some(asOf)) == Read(table, key, Some(asOf))
  {
    var history, history' := History(table, key), History(Synced(table, sync), key);
    ReadHistory(table, key, Some(asOf));
    ReadHistory(Synced(table, sync), key, Some(asOf));
    HistoryAfterSync(table, sync, key);
    FirstFetchedIsRecord(table, sync, sync.frame, key.date);
    if history' != history {
      var pk := KeyToWrite(table, sync, key.date);
      HasKeyInHistory(table, pk);
      ChainKeys(history, key, clock, pk);
      assert history'[..|history|] == history;
    }
  }

  // ---------------------------------------------------------------- the latest version is what was fetched

  /** No date occurs twice. */
  ghost predicate UniqueDates(frame: seq<Fetched>) {
    forall i, j :: 0 <= i < j < |frame| && frame[i].date.Some? ==> frame[i].date != frame[j].date
  }

  lemma {:induction false} OnlyRecordOfDate(table: seq<Bar>, sync: Sync, frame: seq<Fetched>, item: Fetched, date: int)
    requires UniqueDates(frame) && item in frame && item.date == Some(date)
    ensures FirstFetched(table, sync, frame, date) == RecordFor(table, sync, item)
  {
    var init, last := frame[..|frame| - 1], frame[|frame| - 1];
    if item in init {
      OnlyRecordOfDate(table, sync, init, item, date);
    } else {
      NoRecordOfDate(table, sync, init, date);
    }
  }

  lemma {:induction false} NoRecordOfDate(table: seq<Bar>, sync: Sync, frame: seq<Fetched>, date: int)
    requires forall item :: item in frame ==> item.date != Some(date)
    ensures FirstFetched(table, sync, frame, date) == None
  {
    if frame != [] {
      NoRecordOfDate(table, sync, frame[..|frame| - 1], date);
    }
  }

  ghost predicate InWindow(sync: Sync) {
    forall item :: item in sync.frame && item.date.Some? ==> sync.start <= item.date.value <= sync.end
  }

  /** After the synchronisation the latest version of each fetched bar has the fetched values, up to tolerance. */
  lemma LatestIsFetched(table: seq<Bar>, clock: int, sync: Sync, item: Fetched)
    requires TableInv(table, clock) && clock <= sync.now && AllClosed(sync)
    requires UniqueDates(sync.frame) && InWindow(sync)
    requires item in sync.frame && item.date.Some?
    ensures var latest := LatestOf(Synced(table, sync), BusinessKey(sync.entity, item.date.value));
            latest.Some? && SameValues(latest.value.values, item.values)
  {
    var key := BusinessKey(sync.entity, item.date.value);
    var pk := KeyToWrite(table, sync, key.date);
    var history, history' := History(table, key), History(Synced(table, sync), key);
    OnlyRecordOfDate(table, sync, sync.frame, item, key.date);
    HistoryAfterSync(table, sync, key);
    SyncKeepsChain(table, clock, sync, key);
    ReadHistory(table, key, None);
    ReadHistory(Synced(table, sync), key, None);
    ReadChain(history, key, clock, None);
    ReadChain(history', key, sync.now, None);
    HasKeyInHistory(table, pk);
    ChainKeys(history, key, clock, pk);
    SameValuesReflexive(item.values);
  }

  lemma {:induction false} NothingToWrite(table: seq<Bar>, sync: Sync, frame: seq<Fetched>)
    requires forall item :: item in frame ==> RecordFor(table, sync, item).None?
    ensures Records(table, sync, frame) == []
  {
    if frame != [] {
      NothingToWrite(table, sync, frame[..|frame| - 1]);
    }
  }

  /** Repeating a synchronisation, at any later moment, writes nothing. */
  lemma RepeatWritesNothing(table: seq<Bar>, clock: int, sync: Sync, again: Sync)
    requires TableInv(table, clock) && clock <= sync.now && AllClosed(sync)
    requires UniqueDates(sync.frame) && InWindow(sync)
    requires again == sync.(now := again.now, provider := again.provider)
    ensures Synced(Synced(table, sync), again) == Synced(table, sync)
  {
    var table' := Synced(table, sync);
    forall item | item in again.frame
      ensures RecordFor(table', again, item).None?
    {
      if item.date.Some? {
        LatestIsFetched(table, clock, sync, item);
      }
    }
    NothingToWrite(table', again, again.frame);
  }

  /** No stored version of the key is newer than the latest. */
  lemma {:induction false} LatestIsNewest(table: seq<Bar>, key: BusinessKey, pk: PhysicalKey)
    requires HasKey(table, pk) && BusinessKey(pk.entity, pk.date) == key
    ensures var latest := LatestOf(table, key);
            latest.Some? && (pk.knowledge < latest.value.knowledge
                             || (pk.knowledge == latest.value.knowledge && pk.version <= latest.value.version))
  {
    var init, last := table[..|table| - 1], table[|table| - 1];
    if HasKey(init, pk) {
      LatestIsNewest(init, key, pk);
    }
  }

  /** A restatement becomes the latest version exactly when the stored version was known by now. */
  lemma RestatementShowsIff(table: seq<Bar>, sync: Sync, item: Fetched, prior: Bar)
    requires UniqueDates(sync.frame) && item in sync.frame && item.date.Some?
    requires Prior(table, sync, item.date.value) == Some(prior) && !SameValues(prior.values, item.values)
    ensures LatestOf(Synced(table, sync), BusinessKey(sync.entity, item.date.value)) == RecordFor(table, sync, item)
            <==> prior.knowledge <= sync.now
  {
    var key := BusinessKey(sync.entity, item.date.value);
    OnlyRecordOfDate(table, sync, sync.frame, item, key.date);
    HistoryAfterSync(table, sync, key);
    ReadHistory(table, key, None);
    ReadHistory(Synced(table, sync), key, None);
    var record := RecordFor(table, sync, item).value;
    if HasKey(table, KeyToWrite(table, sync, key.date)) {
      LatestIsNewest(table, key, KeyToWrite(table, sync, key.date));
    } else {
      ReadAfterOne(History(table, key), record, key, None);
    }
  }

  function OneBar(close: real): seq<Fetched> {
    [Fetched(Some(0), Values(None, None, None, Some(close), None, None))]
  }

  /** Stored at midnight, hours before its close, and restated a second later: the first version stays the latest. */
  lemma EarlyRestatementIsHidden(provider: string)
    ensures var first := Sync(7, 0, 0, OneBar(1.0), provider, 0);
            var second := Sync(7, 0, 0, OneBar(2.0), provider, 1);
            var table := Synced([], first);
            && LatestOf(table, BusinessKey(7, 0)).Some?
            && |Synced(table, second)| == |table| + 1
            && LatestOf(Synced(table, second), BusinessKey(7, 0)) == LatestOf(table, BusinessKey(7, 0))
  {
    var first, second := Sync(7, 0, 0, OneBar(1.0), provider, 0), Sync(7, 0, 0, OneBar(2.0), provider, 1);
    var key := BusinessKey(7, 0);
    var bar := Bar(7, 0, KnowledgeTime(0), 1, OneBar(1.0)[0].values, 0, provider);
    assert RecordFor([], first, OneBar(1.0)[0]) == Some(bar);
    OneRecord([], first);
    var table := Synced([], first);
    assert table == [bar];
    LoneBar(bar);
    assert !SameValues(bar.values, OneBar(2.0)[0].values);
    OneRecord(table, second);
    var late := RecordFor(table, second, OneBar(2.0)[0]).value;
    ReadAfterOne([bar], late, key, None);
  }

  lemma LoneBar(bar: Bar)
    ensures LatestOf([bar], KeyOf(bar)) == Some(bar)
    ensures forall pk :: HasKey([bar], pk) <==> PhysicalKeyOf(bar) == pk
  {
    assert [bar][..0] == [] && Read([], KeyOf(bar), None) == None;
  }

  /** A frame of one row that gives a record whose key is free appends that record. */
  lemma OneRecord(table: seq<Bar>, sync: Sync)
    requires |sync.frame| == 1 && RecordFor(table, sync, sync.frame[0]).Some?
    requires !HasKey(table, PhysicalKeyOf(RecordFor(table, sync, sync.frame[0]).value))
    ensures Synced(table, sync) == table + [RecordFor(table, sync, sync.frame[0]).value]
  {
    var record := RecordFor(table, sync, sync.frame[0]).value;
    assert sync.frame[..0] == [] && Records(table, sync, []) == [];
    assert Records(table, sync, sync.frame) == [record];
    assert [record][..0] == [] && Appended(table, []) == table;
  }

  // ---------------------------------------------------------------- whole runs

  function SyncAll(table: seq<Bar>, syncs: seq<Sync>): seq<Bar> {
    if syncs == [] then table else Synced(SyncAll(table, syncs[..|syncs| - 1]), syncs[|syncs| - 1])
  }

  /** The clock never goes back and only closed sessions are synchronised. */
  ghost predicate InOrder(syncs: seq<Sync>, clock: int) {
    syncs != [] ==>
      && InOrder(syncs[..|syncs| - 1], clock)
      && AllClosed(syncs[|syncs| - 1])
      && (if |syncs| == 1 then clock else syncs[|syncs| - 2].now) <= syncs[|syncs| - 1].now
  }

  function LastClock(syncs: seq<Sync>, clock: int): int {
    if syncs == [] then clock else syncs[|syncs| - 1].now
  }

  /** After any run of synchronisations each bar's versions are 1..n with knowledge in order. */
  lemma {:induction false} ChainsOverRuns(table: seq<Bar>, clock: int, syncs: seq<Sync>)
    requires TableInv(table, clock) && InOrder(syncs, clock)
    ensures TableInv(SyncAll(table, syncs), LastClock(syncs, clock))
  {
    if syncs != [] {
      ChainsOverRuns(table, clock, syncs[..|syncs| - 1]);
      SyncKeepsTable(SyncAll(table, syncs[..|syncs| - 1]), LastClock(syncs[..|syncs| - 1], clock), syncs[|syncs| - 1]);
    }
  }

  /** No stored version is ever changed or removed: each bar's history is extended at its end. */
  lemma {:induction false} HistoryOnlyGrows(table: seq<Bar>, syncs: seq<Sync>, key: BusinessKey)
    ensures History(table, key) <= History(SyncAll(table, syncs), key)
  {
    if syncs != [] {
      HistoryOnlyGrows(table, syncs[..|syncs| - 1], key);
      HistoryAfterSync(SyncAll(table, syncs[..|syncs| - 1]), syncs[|syncs| - 1], key);
    }
  }

  /** What was known of a stored bar at a moment stays the answer for that moment for good. */
  lemma {:induction false} PastReadsAreFrozen(table: seq<Bar>, clock: int, syncs: seq<Sync>, key: BusinessKey, asOf: int)
    requires TableInv(table, clock) && InOrder(syncs, clock) && History(table, key) != []
    requires forall sync :: sync in syncs ==> asOf < sync.now
    ensures Read(SyncAll(table, syncs), key, Some(asOf)) == Read(table, key, Some(asOf))
  {
    if syncs != [] {
      var init, last := syncs[..|syncs| - 1], syncs[|syncs| - 1];
      PastReadsAreFrozen(table, clock, init, key, asOf);
      ChainsOverRuns(table, clock, init);
      HistoryOnlyGrows(table, init, key);
      PastReadsAreStable(SyncAll(table, init), LastClock(init, clock), last, key, asOf);
    }
  }

  // ---------------------------------------------------------------- the calendar's windows are closed

  /** The last day whose session counts as over at the moment, by the time of day after which it does. */
  function ClosedEnd(now: int, cutoff: int): int {
    if now % DAY >= cutoff then now / DAY else now / DAY - 1
  }

  /** Windows that end by the last closed day hold only sessions known by now. */
  ghost predicate ClosedWindowsKnown(cutoff: int) {
    forall sync: Sync :: InWindow(sync) && sync.end <= ClosedEnd(sync.now, cutoff) ==> AllClosed(sync)
  }

  /** The cutoff is safe exactly when it does not come before the close. */
  lemma ClosedWindowsAreKnownExactlyWhen(cutoff: int)
    requires 0 <= cutoff < DAY
    ensures ClosedWindowsKnown(cutoff) <==> cutoff >= CLOSE
  {
    if cutoff >= CLOSE {
      forall sync: Sync | InWindow(sync) && sync.end <= ClosedEnd(sync.now, cutoff)
        ensures AllClosed(sync)
      {
      }
    } else {
      var early := Sync(0, 0, 0, OneBar(1.0), "", cutoff);
      assert InWindow(early) && early.end <= ClosedEnd(early.now, cutoff);
      assert OneBar(1.0)[0] in early.frame && !AllClosed(early);
    }
  }
}
