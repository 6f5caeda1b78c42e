/**
  The registry: per-entity row logs and one code history, both append-only, and the law that ties
  them together over any history of changes that each start after the current row.
 */
module EntityRegistry {
  import opened Options
  import opened EntityTimeline
  import opened CodeIndex

  /** One entity's rows beside the whole code history. */
  datatype Record = Record(rows: seq<Row>, entries: seq<Entry>)

  /** A change of the entity itself, or another entity's entry arriving in the shared history. */
  datatype Change = Own(change: RowChange) | Foreign(entry: Entry)

  function Apply(id: nat, rec: Record, change: Change): (rec': Record)
    requires rec.rows != []
    ensures rec'.rows != []
  {
    match change
    case Own(c) =>
      Record(Changed(rec.rows, c),
             if c.Recode? then CodeChanged(rec.entries, id, c.code, c.start, c.now) else rec.entries)
    case Foreign(entry) => rec.(entries := rec.entries + [entry])
  }

  /** Each change starts after the current row does. */
  predicate Forward(id: nat, rec: Record, change: Change)
    requires rec.rows != []
  {
    match change
    case Own(c) => (c.Refresh? || c.start > Current(rec.rows).validFrom) && NotInverted(c)
    case Foreign(entry) => entry.entity != id
  }

  predicate TellsCode(rows: seq<Row>, day: int, code: string) {
    Told(rows, day).Some? && Told(rows, day).value.code == code
  }

  /** The row log and the code index give the same code for every day. */
  ghost predicate Agrees(id: nat, rec: Record) {
    forall day, code :: TellsCode(rec.rows, day, code) <==> Holds(rec.entries, id, code, day)
  }

  ghost predicate RecordInv(id: nat, rec: Record, last: int) {
    && LogInv(rec.rows) && IndexInv(rec.entries, id, last)
    && last <= Current(rec.rows).validFrom
    && Agrees(id, rec)
  }

  // ---------------------------------------------------------------- each change keeps the agreement

  lemma ForeignKeepsRecord(id: nat, rec: Record, last: int, entry: Entry)
    requires RecordInv(id, rec, last) && entry.entity != id
    ensures RecordInv(id, rec.(entries := rec.entries + [entry]), last)
  {
    var entries' := rec.entries + [entry];
    forall key: EntryKey | key.entity == id
      ensures Latest(entries', key) == Latest(rec.entries, key)
    {
      LatestAfterAppend(rec.entries, entry, key);
    }
    forall key: EntryKey | key.entity == id
      ensures KeyShaped(entries', key, last)
    {
      assert KeyShaped(rec.entries, key, last);
    }
    forall day, code
      ensures Holds(entries', id, code, day) <==> Holds(rec.entries, id, code, day)
    {
      assert forall from: int :: HoldsFrom(entries', id, code, from, day) <==> HoldsFrom(rec.entries, id, code, from, day);
    }
  }

  /** A change that leaves the code of every day alone keeps the agreement. */
  lemma SameCodesKeepAgreement(id: nat, rec: Record, rows': seq<Row>)
    requires Agrees(id, rec)
    requires forall day, code :: TellsCode(rows', day, code) <==> TellsCode(rec.rows, day, code)
    ensures Agrees(id, rec.(rows := rows'))
  {
  }

  lemma RenameKeepsRecord(id: nat, rec: Record, last: int, change: RowChange)
    requires RecordInv(id, rec, last) && change.Rename? && Forward(id, rec, Own(change))
    ensures RecordInv(id, Apply(id, rec, Own(change)), last)
  {
    var rows' := Apply(id, rec, Own(change)).rows;
    RenameKeepsLog(rec.rows, change.name, change.start, change.end, change.annDate, change.now);
    forall day, code
      ensures TellsCode(rows', day, code) <==> TellsCode(rec.rows, day, code)
    {
      NameChangeLaw(rec.rows, change.name, change.start, change.end, change.annDate, change.now, day);
      CurrentIsLast(rec.rows, day);
    }
    SameCodesKeepAgreement(id, rec, rows');
  }

  lemma RefreshKeepsRecord(id: nat, rec: Record, last: int, change: RowChange)
    requires RecordInv(id, rec, last) && change.Refresh?
    ensures RecordInv(id, Apply(id, rec, Own(change)), last)
  {
    var rows' := Apply(id, rec, Own(change)).rows;
    RefreshKeepsLog(rec.rows, change.name, change.facets, change.now);
    forall day, code
      ensures TellsCode(rows', day, code) <==> TellsCode(rec.rows, day, code)
    {
      RefreshLaw(rec.rows, change.name, change.facets, change.now, day);
      CurrentIsLast(rec.rows, day);
    }
    SameCodesKeepAgreement(id, rec, rows');
  }

  lemma RecodeKeepsRecord(id: nat, rec: Record, last: int, change: RowChange)
    requires RecordInv(id, rec, last) && change.Recode? && Forward(id, rec, Own(change))
    ensures RecordInv(id, Apply(id, rec, Own(change)), change.start)
  {
    var rec' := Apply(id, rec, Own(change));
    CodeChangeKeepsLog(rec.rows, change.code, change.start, change.now);
    ChangeKeepsIndex(rec.entries, id, change.code, change.start, change.now, last);
    forall day, code
      ensures TellsCode(rec'.rows, day, code) <==> Holds(rec'.entries, id, code, day)
    {
      CodeChangeLaw(rec.rows, change.code, change.start, change.now, day);
      CurrentIsLast(rec.rows, day);
      HoldsAfterChange(rec.entries, id, change.code, change.start, change.now, last, code, day);
      assert TellsCode(rec.rows, day, code) <==> Holds(rec.entries, id, code, day);
    }
  }

  lemma ChangeKeepsRecord(id: nat, rec: Record, last: int, change: Change) returns (last': int)
    requires RecordInv(id, rec, last) && Forward(id, rec, change)
    ensures RecordInv(id, Apply(id, rec, change), last')
  {
    last' := last;
    if change.Foreign? {
      ForeignKeepsRecord(id, rec, last, change.entry);
    } else if change.change.Rename? {
      RenameKeepsRecord(id, rec, last, change.change);
    } else if change.change.Recode? {
      RecodeKeepsRecord(id, rec, last, change.change);
      last' := change.change.start;
    } else {
      RefreshKeepsRecord(id, rec, last, change.change);
    }
  }

  // ---------------------------------------------------------------- whole histories

  function CreatedRecord(id: nat, earlier: seq<Entry>, code: string, name: string, facets: map<string, string>, start: int, now: int): Record {
    Record(Created(code, name, facets, start, now), earlier + [Entry(id, code, start, None, 1, now)])
  }

  lemma CreationAgrees(id: nat, earlier: seq<Entry>, code: string, name: string, facets: map<string, string>, start: int, now: int)
    requires forall e :: e in earlier ==> e.entity != id
    ensures RecordInv(id, CreatedRecord(id, earlier, code, name, facets, start, now), start)
  {
    var rec := CreatedRecord(id, earlier, code, name, facets, start, now);
    var first := rec.rows[0];
    CreationIsLog(code, name, facets, start, now);
    assert rec.rows[..0] == [] && BestOpen(rec.rows) == Some(first);
    forall key: EntryKey | key.entity == id
      ensures Latest(rec.entries, key) ==
                if key == EntryKey(id, code, start) then Some(Entry(id, code, start, None, 1, now)) else None
    {
      LatestAfterAppend(earlier, Entry(id, code, start, None, 1, now), key);
      LatestIsAnEntry(earlier, key);
    }
    forall key: EntryKey | key.entity == id
      ensures KeyShaped(rec.entries, key, start)
    {
    }
    forall day, c
      ensures TellsCode(rec.rows, day, c) <==> Holds(rec.entries, id, c, day)
    {
      assert Winner(rec.rows, day) == if start <= day then Some(first) else None;
      assert forall from: int :: HoldsFrom(rec.entries, id, c, from, day) <==> c == code && from == start && start <= day;
      assert c == code && start <= day ==> HoldsFrom(rec.entries, id, c, start, day);
    }
  }

  /** Every change of the history is forward when it happens. */
  ghost predicate AllForward(id: nat, rec: Record, changes: seq<Change>)
    requires rec.rows != []
    decreases |changes|
  {
    changes != [] ==>
      && Forward(id, rec, changes[0])
      && AllForward(id, Apply(id, rec, changes[0]), changes[1..])
  }

  function ApplyAll(id: nat, rec: Record, changes: seq<Change>): Record
    requires rec.rows != []
    decreases |changes|
  {
    if changes == [] then rec else ApplyAll(id, Apply(id, rec, changes[0]), changes[1..])
  }

  lemma {:induction false} RecordOverHistory(id: nat, rec: Record, last: int, changes: seq<Change>) returns (last': int)
    requires RecordInv(id, rec, last) && AllForward(id, rec, changes)
    ensures RecordInv(id, ApplyAll(id, rec, changes), last')
    decreases |changes|
  {
    if changes == [] {
      last' := last;
    } else {
      var next := ChangeKeepsRecord(id, rec, last, changes[0]);
      last' := RecordOverHistory(id, Apply(id, rec, changes[0]), next, changes[1..]);
    }
  }

  /** How resolve answers: an entity that holds the code on the day, or none when nobody does. */
  ghost predicate Resolves(entries: seq<Entry>, code: string, day: int, answer: Option<nat>) {
    if answer.None? then forall id :: !Holds(entries, id, code, day)
    else Holds(entries, answer.value, code, day)
  }

  /**
    After a creation and any forward history, on every day: the row tells a code exactly when the index
    lists it, the entity is resolved only from a code it tells, a told code resolves to some holder of it,
    and, when nobody else holds the code that day, to the entity exactly when the row tells it.
   */
  lemma CodeIndexAgreesWithRows(
    id: nat, earlier: seq<Entry>, code: string, name: string, facets: map<string, string>, start: int, now: int,
    changes: seq<Change>, day: int, asked: string, answer: Option<nat>)
    requires forall e :: e in earlier ==> e.entity != id
    requires AllForward(id, CreatedRecord(id, earlier, code, name, facets, start, now), changes)
    requires Resolves(ApplyAll(id, CreatedRecord(id, earlier, code, name, facets, start, now), changes).entries, asked, day, answer)
    ensures var rec := ApplyAll(id, CreatedRecord(id, earlier, code, name, facets, start, now), changes);
            && (TellsCode(rec.rows, day, asked) <==> Holds(rec.entries, id, asked, day))
            && (answer == Some(id) ==> TellsCode(rec.rows, day, asked))
            && (TellsCode(rec.rows, day, asked) ==> answer.Some? && Holds(rec.entries, answer.value, asked, day))
            && ((forall other :: other != id ==> !Holds(rec.entries, other, asked, day)) ==>
                  (answer == Some(id) <==> TellsCode(rec.rows, day, asked)) && (answer.None? || answer == Some(id)))
  {
    CreationAgrees(id, earlier, code, name, facets, start, now);
    var rec := ApplyAll(id, CreatedRecord(id, earlier, code, name, facets, start, now), changes);
    var last := RecordOverHistory(id, CreatedRecord(id, earlier, code, name, facets, start, now), start, changes);
    assert TellsCode(rec.rows, day, asked) <==> Holds(rec.entries, id, asked, day);
  }

  // ---------------------------------------------------------------- name changes of the past

  /** A name change keeps rows and index together exactly when every day it rewrites already tells the current code. */
  lemma RenameAgreesExactlyWhen(
    id: nat, rec: Record, name: string, start: int, end: Option<int>, annDate: Option<int>, now: int)
    requires LogInv(rec.rows) && Agrees(id, rec)
    ensures Agrees(id, rec.(rows := Renamed(rec.rows, name, start, end, annDate, now))) <==>
            forall day :: InNewName(rec.rows, start, end, day) || InResumed(rec.rows, end, day) ==>
              TellsCode(rec.rows, day, Current(rec.rows).code)
  {
    var rows' := Renamed(rec.rows, name, start, end, annDate, now);
    var code := Current(rec.rows).code;
    forall day
      ensures if InNewName(rec.rows, start, end, day) || InResumed(rec.rows, end, day) then TellsCode(rows', day, code)
              else Told(rows', day) == Told(rec.rows, day)
    {
      NameChangeLaw(rec.rows, name, start, end, annDate, now, day);
    }
    if Agrees(id, rec.(rows := rows')) {
      forall day | InNewName(rec.rows, start, end, day) || InResumed(rec.rows, end, day)
        ensures TellsCode(rec.rows, day, code)
      {
        assert TellsCode(rows', day, code);
        assert Holds(rec.entries, id, code, day);
      }
    }
  }

  /** Code A from day 0, recoded to B at 100, then renamed for days 50 to 60: day 55 tells B though the index lists A. */
  lemma BackdatedRenameDisagrees(id: nat, name: string, later: string)
    ensures var rec := CreatedRecord(id, [], "A", name, map[], 0, 0);
            var recoded := Apply(id, rec, Own(Recode("B", 100, 1)));
            var renamed := Apply(id, recoded, Own(Rename(later, 50, Some(60), None, 2)));
            && TellsCode(renamed.rows, 55, "B")
            && Holds(renamed.entries, id, "A", 55) && !Holds(renamed.entries, id, "B", 55)
  {
    var rec := CreatedRecord(id, [], "A", name, map[], 0, 0);
    CreationAgrees(id, [], "A", name, map[], 0, 0);
    LoneRow(rec.rows[0], 55);
    assert rec.rows == [rec.rows[0]];
    var recoded := Apply(id, rec, Own(Recode("B", 100, 1)));
    RecodeKeepsRecord(id, rec, 0, Recode("B", 100, 1));
    CodeChangeKeepsLog(rec.rows, "B", 100, 1);
    RecodedWinner(rec.rows, "B", 100, 1, 55);
    NameChangeLaw(recoded.rows, later, 50, Some(60), None, 2, 55);
    CodeChangeLaw(rec.rows, "B", 100, 1, 55);
    assert TellsCode(recoded.rows, 55, "A");
    assert Holds(recoded.entries, id, "A", 55) && !Holds(recoded.entries, id, "B", 55);
  }

  lemma LoneRow(row: Row, day: int)
    requires row.validTo.None? && row.validFrom <= day
    ensures Winner([row], day) == Some(row) && Current([row]) == row
  {
    assert [row][..0] == [] && Winner([], day) == None && BestOpen([]) == None;
  }

  /** Before a code change the winning row starts where it did. */
  lemma RecodedWinner(rows: seq<Row>, code: string, start: int, now: int, day: int)
    requires LogInv(rows) && day < start && Winner(rows, day) == Some(Current(rows))
    ensures Winner(Recoded(rows, code, start, now), day).Some?
    ensures Winner(Recoded(rows, code, start, now), day).value.validFrom == Current(rows).validFrom
  {
    var current := Current(rows);
    var copy := Closed(rows, current, start - 1, now);
    var closed := rows + [copy];
    WinnerAfterAppend(rows, copy, day);
    WinnerAfterAppend(closed, current.(code := code, validFrom := start, validTo := None, knowledge := now, version := MaxVersion(closed) + 1), day);
  }
}
