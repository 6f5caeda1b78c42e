/**
  The registry service over its in-memory repository: lists that only grow.  Each change is carried
  out append by append and proved to leave exactly the log that the timeline and index laws speak of.
 */
module RegistryService {
  import opened Options
  import opened EntityTimeline
  import opened CodeIndex
  import opened EntityRegistry

  const EPOCH := 726468  // 1 January 1990 as a day number

  const FIRST_ENTITY_ID := 10001

  /** The resolution order: later start first, then greater version. */
  predicate Above(a: Entry, b: Entry) {
    a.validFrom > b.validFrom || (a.validFrom == b.validFrom && a.version > b.version)
  }

  ghost predicate Eligible(codes: seq<Entry>, code: string, target: Option<int>, e: Entry) {
    e.code == code && Latest(codes, KeyOf(e)) == Some(e)
    && (target.Some? ==> e.validFrom <= target.value && (e.validTo.None? || target.value <= e.validTo.value))
  }

  ghost predicate Topmost(codes: seq<Entry>, code: string, target: Option<int>, e: Entry) {
    Eligible(codes, code, target, e)
    && forall o :: Eligible(codes, code, target, o) ==>
         o.validFrom < e.validFrom || (o.validFrom == e.validFrom && o.version <= e.version)
  }

  /** A row is appended exactly when the name or some attribute differs from the current row's. */
  function RefreshedIn(rows: map<nat, seq<Row>>, id: nat, name: string, updates: map<string, string>, now: int): map<nat, seq<Row>>
    requires id in rows && rows[id] != []
  {
    var current := Current(rows[id]);
    var name' := if name == "" then current.name else name;
    if name' == current.name && current.facets + updates == current.facets then rows
    else rows[id := Refreshed(rows[id], name', current.facets + updates, now)]
  }

  class Registry {
    var rows: map<nat, seq<Row>>
    var codes: seq<Entry>
    var nextId: nat

    /** Only existing entities have rows or codes. */
    ghost predicate Valid()
      reads this
    {
      && (forall id :: id in rows ==> id < nextId && rows[id] != [])
      && (forall e :: e in codes ==> e.entity in rows)
    }

    constructor ()
      ensures Valid() && rows == map[] && codes == [] && nextId == FIRST_ENTITY_ID
    {
      rows, codes, nextId := map[], [], FIRST_ENTITY_ID;
    }

    function RecordOf(id: nat): Record
      requires id in rows
      reads this
    {
      Record(rows[id], codes)
    }

    method Create(code: string, name: string, facets: map<string, string>, validFrom: Option<int>, now: int) returns (id: nat)
      requires Valid()
      modifies this
      ensures Valid()
      ensures id == old(nextId) && nextId == id + 1 && id !in old(rows)
      ensures var start := if validFrom.Some? then validFrom.value else EPOCH;
              && rows == old(rows)[id := Created(code, name, facets, start, now)]
              && RecordOf(id) == CreatedRecord(id, old(codes), code, name, facets, start, now)
      ensures forall e :: e in old(codes) ==> e.entity != id
    {
      var start := if validFrom.Some? then validFrom.value else EPOCH;
      id := nextId;
      nextId := nextId + 1;
      codes := codes + [Entry(id, code, start, None, 1, now)];
      rows := rows[id := [Row(code, name, facets, None, start, None, 1, now)]];
    }

    method AppendRow(id: nat, row: Row)
      requires Valid() && id in rows
      modifies this`rows
      ensures Valid()
      ensures rows == old(rows)[id := old(rows)[id] + [row]]
    {
      rows := rows[id := rows[id] + [row]];
    }

    method CloseCovering(id: nat, previous: Option<Row>, before: int, now: int)
      requires Valid() && id in rows && previous == Winner(rows[id], before)
      modifies this`rows
      ensures Valid()
      ensures rows == old(rows)[id := CloseBefore(old(rows)[id], before + 1, now)]
    {
      if previous.Some? && (previous.value.validTo.None? || previous.value.validTo.value > before) {
        AppendRow(id, Closed(rows[id], previous.value, before, now));
      }
    }

    /** Refuses an unknown entity. */
    method AddNameChange(id: nat, name: string, start: int, end: Option<int>, annDate: Option<int>, now: int) returns (ok: bool)
      requires Valid()
      modifies this
      ensures Valid()
      ensures ok == (id in old(rows)) && codes == old(codes) && nextId == old(nextId)
      ensures rows == if ok then old(rows)[id := Renamed(old(rows)[id], name, start, end, annDate, now)] else old(rows)
    {
      if id !in rows {
        return false;
      }
      var before := start - 1;
      var previous := Winner(rows[id], before);
      var resumeName := if previous.Some? then previous.value.name else Current(rows[id]).name;
      CloseCovering(id, previous, before, now);
      var current := Current(rows[id]);
      AppendRow(id, NameRow(rows[id], current, name, start, end, annDate, now));
      if end.Some? {
        AppendRow(id, NameRow(rows[id], current, resumeName, end.value + 1, None, None, now));
      }
      ok := true;
    }

    /** Appends a closed copy of each open entry of the entity, as the history was before. */
    method CloseEntries(id: nat, before: int, now: int)
      requires Valid() && id in rows
      modifies this`codes
      ensures Valid() && codes == old(codes) + ClosingCopies(old(codes), id, before, now)
    {
      var history := codes;
      for i := 0 to |history|
        invariant Valid() && codes == history + ClosingCopies(history[..i], id, before, now)
      {
        assert history[..i + 1][..i] == history[..i];
        if history[i].entity == id && history[i].validTo.None? {
          codes := codes + [ClosedEntry(history[i], before, now)];
        }
      }
      assert history[..|history|] == history;
    }

    /** Closes every open code entry, then the current row, and opens the new code in both. */
    method AddCodeChange(id: nat, code: string, start: int, now: int) returns (ok: bool)
      requires Valid()
      modifies this
      ensures Valid()
      ensures ok == (id in old(rows)) && nextId == old(nextId)
      ensures !ok ==> rows == old(rows) && codes == old(codes)
      ensures ok ==> rows.Keys == old(rows).Keys && (forall other :: other in rows && other != id ==> rows[other] == old(rows)[other])
                     && RecordOf(id) == Apply(id, old(RecordOf(id)), Own(Recode(code, start, now)))
    {
      if id !in rows {
        return false;
      }
      var before := start - 1;
      CloseEntries(id, before, now);
      var current := Current(rows[id]);
      AppendRow(id, Closed(rows[id], current, before, now));
      codes := codes + [Entry(id, code, start, None, 1, now)];
      AppendRow(id, current.(code := code, validFrom := start, validTo := None, knowledge := now,
                             version := MaxVersion(rows[id]) + 1));
      ok := true;
    }

    /** Appends only when something differs; an empty name or an absent attribute means no opinion. */
    method RefreshEntity(id: nat, name: string, updates: map<string, string>, now: int) returns (updated: bool)
      requires Valid() && id in rows
      modifies this
      ensures Valid() && codes == old(codes) && nextId == old(nextId)
      ensures rows == RefreshedIn(old(rows), id, name, updates, now)
      ensures updated <==> rows != old(rows)
    {
      var current := Current(rows[id]);
      var name' := if name == "" then current.name else name;
      var facets := current.facets + updates;
      updated := name' != current.name || facets != current.facets;
      if updated {
        assert Refreshed(rows[id], name', facets, now) != rows[id] by {
          assert |Refreshed(rows[id], name', facets, now)| > |rows[id]|;
        }
        AppendRow(id, current.(name := name', facets := facets, validTo := None, knowledge := now,
                               version := MaxVersion(rows[id]) + 1));
      }
    }

    /** The covering row that no other beats; without a day the current row. */
    method EntityAsOf(id: nat, target: Option<int>) returns (row: Option<Row>)
      requires Valid()
      ensures id !in rows ==> row.None?
      ensures id in rows && target.None? ==> row == Some(Current(rows[id]))
      ensures id in rows && target.Some? ==> row == Winner(rows[id], target.value)
      ensures row.Some? ==> row.value in rows[id]
      ensures row.Some? && target.Some? ==>
                && row.value.validFrom <= target.value
                && (row.value.validTo.None? || target.value <= row.value.validTo.value)
                && forall other :: other in rows[id] && other.validFrom <= target.value
                                   && (other.validTo.None? || target.value <= other.validTo.value) ==>
                     other.validFrom < row.value.validFrom
                     || (other.validFrom == row.value.validFrom && other.version <= row.value.version)
      ensures row.None? && id in rows ==>
                target.Some? && forall other :: other in rows[id] && other.validFrom <= target.value ==>
                                  other.validTo.Some? && other.validTo.value < target.value
    {
      if id !in rows {
        return None;
      }
      if target.None? {
        CurrentIsARow(rows[id]);
        return Some(Current(rows[id]));
      }
      var log, day := rows[id], target.value;
      row := None;
      for i := 0 to |log|
        invariant row == Winner(log[..i], day)
      {
        assert log[..i + 1][..i] == log[..i];
        if Covers(log[i], day) && (row.None? || Beats(log[i], row.value)) {
          row := Some(log[i]);
        }
      }
      assert log[..|log|] == log;
      ReadersGetTheGreatest(log, day);
    }

    /** The latest version of each key of one code, with the keys in order of first appearance. */
    method LatestByKey(code: string) returns (latest: map<EntryKey, Entry>, keys: seq<EntryKey>)
      ensures forall key :: key in latest <==> key.code == code && Latest(codes, key).Some?
      ensures forall key :: key in latest ==> Some(latest[key]) == Latest(codes, key)
      ensures forall key :: key in keys <==> key in latest
    {
      latest, keys := map[], [];
      for i := 0 to |codes|
        invariant forall key :: key in latest <==> key.code == code && Latest(codes[..i], key).Some?
        invariant forall key :: key in latest ==> Some(latest[key]) == Latest(codes[..i], key)
        invariant forall key :: key in keys <==> key in latest
      {
        var entry := codes[i];
        var entryKey := KeyOf(entry);
        assert codes[..i + 1][..i] == codes[..i];
        if entry.code == code {
          if entryKey !in latest {
            keys := keys + [entryKey];
            latest := latest[entryKey := entry];
          } else if entry.version > latest[entryKey].version {
            latest := latest[entryKey := entry];
          }
        }
      }
      assert codes[..|codes|] == codes;
    }

    /** The entity of the greatest entry that covers the day; without a day, of the greatest entry. */
    method ResolveCode(code: string, target: Option<int>) returns (answer: Option<nat>)
      requires Valid()
      ensures target.Some? ==> Resolves(codes, code, target.value, answer)
      ensures target.None? ==> (answer.None? <==> forall e :: e in codes ==> e.code != code)
      ensures answer.Some? ==> answer.value in rows
      ensures answer.Some? ==> exists e: Entry :: e.entity == answer.value && Topmost(codes, code, target, e)
    {
      var latest, keys := LatestByKey(code);
      answer := None;
      var best: Option<Entry> := None;
      for i := 0 to |keys|
        invariant best.None? <==> answer.None?
        invariant best.None? ==> forall j :: 0 <= j < i && target.Some? ==> !EntryCovers(latest[keys[j]], target.value)
        invariant best.None? && target.None? ==> i == 0
        invariant best.Some? ==> KeyOf(best.value) in latest && latest[KeyOf(best.value)] == best.value
                                 && answer == Some(best.value.entity)
                                 && (target.Some? ==> EntryCovers(best.value, target.value))
        invariant best.Some? ==> forall j :: 0 <= j < i && (target.Some? ==> EntryCovers(latest[keys[j]], target.value)) ==>
                                   !Above(latest[keys[j]], best.value)
      {
        assert keys[i] in keys;
        var entry := latest[keys[i]];
        LatestIsAnEntry(codes, keys[i]);
        if (best.None? || Above(entry, best.value)) && (target.Some? ==> EntryCovers(entry, target.value)) {
          best, answer := Some(entry), Some(entry.entity);
        }
      }
      if best.Some? {
        var key := KeyOf(best.value);
        LatestIsAnEntry(codes, key);
        forall o | Eligible(codes, code, target, o)
          ensures o.validFrom < best.value.validFrom
                  || (o.validFrom == best.value.validFrom && o.version <= best.value.version)
        {
          assert KeyOf(o) in keys;
        }
        assert Topmost(codes, code, target, best.value);
        if target.Some? {
          assert HoldsFrom(codes, key.entity, code, key.validFrom, target.value);
        }
      } else {
        NobodyHolds(codes, code, target, latest, keys);
      }
    }

    /** Registers a new code or refreshes the entity that has ever held it. */
    method Register(code: string, name: string, facets: map<string, string>, validFrom: Option<int>, now: int)
      returns (id: nat, created: bool)
      requires Valid()
      modifies this
      ensures Valid() && id in rows
      ensures created <==> forall e :: e in old(codes) ==> e.code != code
      ensures created ==>
                var start := if validFrom.Some? then validFrom.value else EPOCH;
                && id == old(nextId) && rows == old(rows)[id := Created(code, name, facets, start, now)]
                && RecordOf(id) == CreatedRecord(id, old(codes), code, name, facets, start, now)
      ensures !created ==>
                && codes == old(codes) && id in old(rows)
                && (exists e: Entry :: e.entity == id && Topmost(codes, code, None, e))
                && rows == RefreshedIn(old(rows), id, name, facets, now)
    {
      var known := ResolveCode(code, None);
      if known.None? {
        id := Create(code, name, facets, validFrom, now);
        created := true;
      } else {
        id, created := known.value, false;
        var _ := RefreshEntity(id, name, facets, now);
      }
    }
  }

  lemma CurrentIsARow(rows: seq<Row>)
    requires rows != []
    ensures Current(rows) in rows
  {
    BestOpenIsGreatest(rows);
    BestIsARow(rows);
  }

  lemma {:induction false} BestIsARow(rows: seq<Row>)
    ensures BestOfAll(rows).Some? ==> BestOfAll(rows).value in rows
  {
    if rows != [] {
      BestIsARow(rows[..|rows| - 1]);
    }
  }

  lemma NobodyHolds(codes: seq<Entry>, code: string, target: Option<int>, latest: map<EntryKey, Entry>, keys: seq<EntryKey>)
    requires forall key :: key in latest <==> key.code == code && Latest(codes, key).Some?
    requires forall key :: key in latest ==> Some(latest[key]) == Latest(codes, key)
    requires forall key :: key in keys <==> key in latest
    requires forall j :: 0 <= j < |keys| && target.Some? ==> keys[j] in latest && !EntryCovers(latest[keys[j]], target.value)
    requires target.None? ==> keys == []
    ensures target.Some? ==> forall id :: !Holds(codes, id, code, target.value)
    ensures target.None? ==> forall e :: e in codes ==> e.code != code
  {
    if target.Some? {
      forall id, from: int
        ensures !HoldsFrom(codes, id, code, from, target.value)
      {
        var key := EntryKey(id, code, from);
        if key in latest {
          assert key in keys;
        }
      }
    } else {
      forall e | e in codes
        ensures e.code != code
      {
        LatestIsAnEntry(codes, KeyOf(e));
        assert KeyOf(e) !in latest;
      }
    }
  }

  /**
    What a refresh tells: from the current row's start on the given name unless it is empty and every given
    attribute, with the others as they were; before that, of other entities and of codes it changes nothing.
   */
  lemma RefreshTells(rows: map<nat, seq<Row>>, id: nat, name: string, updates: map<string, string>, now: int, day: int)
    requires id in rows && LogInv(rows[id])
    ensures var rows' := RefreshedIn(rows, id, name, updates, now);
            && rows'.Keys == rows.Keys && (forall other :: other in rows && other != id ==> rows'[other] == rows[other])
            && (day < Current(rows[id]).validFrom ==> Told(rows'[id], day) == Told(rows[id], day))
    ensures var rows' := RefreshedIn(rows, id, name, updates, now);
            day >= Current(rows[id]).validFrom ==>
              && Told(rows[id], day).Some? && Told(rows'[id], day).Some?
              && var was, told := Told(rows[id], day).value, Told(rows'[id], day).value;
                 && told.code == was.code && told.annDate == was.annDate
                 && told.name == (if name == "" then was.name else name)
                 && told.facets == was.facets + updates
  {
    var current := Current(rows[id]);
    CurrentIsLast(rows[id], day);
    RefreshLaw(rows[id], if name == "" then current.name else name, current.facets + updates, now, day);
  }
}
