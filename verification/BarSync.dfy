/** The sync engine's loops over the bar table: the window's latest versions, the records, the insert. */
module BarSync {
  import opened Options
  import opened BarStore

  class BarTable {
    var rows: seq<Bar>

    constructor ()
      ensures rows == [] && TableInv(rows, 0)
    {
      rows := [];
    }

    /** Inserts what is not there yet and counts it. */
    method AppendRows(records: seq<Bar>) returns (written: nat)
      modifies this
      ensures rows == Appended(old(rows), records)
      ensures written == |rows| - |old(rows)|
    {
      written := 0;
      for i := 0 to |records|
        invariant rows == Appended(old(rows), records[..i])
        invariant |rows| == |old(rows)| + written
      {
        assert records[..i + 1][..i] == records[..i];
        if !HasKey(rows, PhysicalKeyOf(records[i])) {
          rows := rows + [records[i]];
          written := written + 1;
        }
      }
      assert records[..|records|] == records;
    }

    /** The latest version of each trading day of the window. */
    method LatestRows(entity: nat, start: int, end: int) returns (latest: map<int, Bar>)
      ensures forall date :: date in latest <==> start <= date <= end && LatestOf(rows, BusinessKey(entity, date)).Some?
      ensures forall date :: date in latest ==> Some(latest[date]) == LatestOf(rows, BusinessKey(entity, date))
    {
      latest := map[];
      for i := 0 to |rows|
        invariant forall date :: date in latest <==>
                    start <= date <= end && LatestOf(rows[..i], BusinessKey(entity, date)).Some?
        invariant forall date :: date in latest ==> Some(latest[date]) == LatestOf(rows[..i], BusinessKey(entity, date))
      {
        var row := rows[i];
        assert rows[..i + 1][..i] == rows[..i];
        if row.entity == entity && start <= row.date <= end {
          if row.date !in latest || Newer(row, latest[row.date]) {
            latest := latest[row.date := row];
          }
        }
      }
      assert rows[..|rows|] == rows;
    }

    /** Fetch, compare, append; the comparison is against the table as it was before the batch. */
    method SyncDailyBar(sync: Sync) returns (written: nat)
      modifies this
      ensures rows == Synced(old(rows), sync)
      ensures written == |rows| - |old(rows)|
    {
      var latest := LatestRows(sync.entity, sync.start, sync.end);
      var records: seq<Bar> := [];
      for i := 0 to |sync.frame|
        invariant records == Records(rows, sync, sync.frame[..i])
      {
        var item := sync.frame[i];
        assert sync.frame[..i + 1][..i] == sync.frame[..i];
        if item.date.None? {
          continue;
        }
        var date := item.date.value;
        if date !in latest {
          records := records + [Bar(sync.entity, date, KnowledgeTime(date), 1, item.values, sync.now, sync.provider)];
        } else if !SameValues(latest[date].values, item.values) {
          records := records + [Bar(sync.entity, date, sync.now, latest[date].version + 1, item.values, sync.now, sync.provider)];
        }
      }
      assert sync.frame[..|sync.frame|] == sync.frame;
      written := AppendRows(records);
    }
  }
}
