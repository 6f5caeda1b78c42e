/**
  One entity's append-only row log.  Rows are never changed: an interval is closed by appending a
  shorter copy, and the row valid on a day is the covering one with the greatest (start, version).
 */
module EntityTimeline {
  import opened Options

  datatype Row = Row(
    code: string, name: string, facets: map<string, string>, annDate: Option<int>,
    validFrom: int, validTo: Option<int>, version: nat, knowledge: int)

  predicate Covers(row: Row, day: int) {
    row.validFrom <= day && (row.validTo.Some? ==> day <= row.validTo.value)
  }

  predicate Beats(a: Row, b: Row) {
    a.validFrom > b.validFrom || (a.validFrom == b.validFrom && a.version > b.version)
  }

  /** The later row takes over only when it is strictly greater, as Python's max keeps the first. */
  function Better(best: Option<Row>, row: Row, eligible: bool): Option<Row> {
    if eligible && (best.None? || Beats(row, best.value)) then Some(row) else best
  }

  /** The row valid on a day. */
  function Winner(rows: seq<Row>, day: int): Option<Row> {
    if rows == [] then None
    else
      var last := rows[|rows| - 1];
      Better(Winner(rows[..|rows| - 1], day), last, Covers(last, day))
  }

  function BestOpen(rows: seq<Row>): Option<Row> {
    if rows == [] then None
    else
      var last := rows[|rows| - 1];
      Better(BestOpen(rows[..|rows| - 1]), last, last.validTo.None?)
  }

  function BestOfAll(rows: seq<Row>): Option<Row> {
    if rows == [] then None else Better(BestOfAll(rows[..|rows| - 1]), rows[|rows| - 1], true)
  }

  lemma {:induction false} SomeRowIsBest(rows: seq<Row>)
    ensures rows != [] ==> BestOfAll(rows).Some?
  {
    if rows != [] {
      SomeRowIsBest(rows[..|rows| - 1]);
    }
  }

  /** The current row: the greatest open one, or the greatest of all when none is open. */
  function Current(rows: seq<Row>): Row
    requires rows != []
  {
    if BestOpen(rows).Some? then BestOpen(rows).value
    else
      SomeRowIsBest(rows);
      BestOfAll(rows).value
  }

  function MaxVersion(rows: seq<Row>): nat {
    if rows == [] then 0
    else
      var rest, last := MaxVersion(rows[..|rows| - 1]), rows[|rows| - 1].version;
      if last > rest then last else rest
  }

  // ---------------------------------------------------------------- the four ways to append

  function Closed(rows: seq<Row>, row: Row, before: int, now: int): Row {
    row.(validTo := Some(before), knowledge := now, version := MaxVersion(rows) + 1)
  }

  function Created(code: string, name: string, facets: map<string, string>, start: int, now: int): seq<Row> {
    [Row(code, name, facets, None, start, None, 1, now)]
  }

  /** A refresh appends a full copy of the current row, open from the same start. */
  function Refreshed(rows: seq<Row>, name: string, facets: map<string, string>, now: int): seq<Row>
    requires rows != []
  {
    var current := Current(rows);
    rows + [current.(name := name, facets := facets, validTo := None, knowledge := now, version := MaxVersion(rows) + 1)]
  }

  function NeedsClosing(row: Option<Row>, before: int): bool {
    row.Some? && (row.value.validTo.None? || row.value.validTo.value > before)
  }

  function CloseBefore(rows: seq<Row>, start: int, now: int): seq<Row> {
    var previous := Winner(rows, start - 1);
    if NeedsClosing(previous, start - 1) then rows + [Closed(rows, previous.value, start - 1, now)] else rows
  }

  function NameRow(rows: seq<Row>, base: Row, name: string, start: int, end: Option<int>, annDate: Option<int>, now: int): Row {
    base.(name := name, validFrom := start, validTo := end, knowledge := now, version := MaxVersion(rows) + 1,
          annDate := if annDate.Some? then annDate else base.annDate)
  }

  function ResumeName(rows: seq<Row>, start: int): string
    requires rows != []
  {
    var previous := Winner(rows, start - 1);
    if previous.Some? then previous.value.name else Current(rows).name
  }

  function Renamed(rows: seq<Row>, name: string, start: int, end: Option<int>, annDate: Option<int>, now: int): seq<Row>
    requires rows != []
  {
    var closed := CloseBefore(rows, start, now);
    var base := Current(closed);
    var named := closed + [NameRow(closed, base, name, start, end, annDate, now)];
    if end.None? then named
    else named + [NameRow(named, base, ResumeName(rows, start), end.value + 1, None, None, now)]
  }

  function Recoded(rows: seq<Row>, code: string, start: int, now: int): seq<Row>
    requires rows != []
  {
    var current := Current(rows);
    var closed := rows + [Closed(rows, current, start - 1, now)];
    closed + [current.(code := code, validFrom := start, validTo := None, knowledge := now, version := MaxVersion(closed) + 1)]
  }

  // ---------------------------------------------------------------- what a log keeps

  ghost predicate Versioned(rows: seq<Row>) {
    rows == [] || (rows[|rows| - 1].version > MaxVersion(rows[..|rows| - 1]) && Versioned(rows[..|rows| - 1]))
  }

  predicate Bounded(row: Row) {
    row.validTo.Some? && row.validFrom <= row.validTo.value
  }

  /** On every day after a bounded row's end, the row valid there starts after that end. */
  ghost predicate Succeeded(rows: seq<Row>, row: Row) {
    Bounded(row) ==>
      forall day :: day > row.validTo.value ==>
        Winner(rows, day).Some? && Winner(rows, day).value.validFrom > row.validTo.value
  }

  ghost predicate LogInv(rows: seq<Row>) {
    && rows != [] && Versioned(rows)
    && BestOpen(rows).Some?
    && (forall row :: row in rows ==> Succeeded(rows, row))
  }

  lemma {:induction false} VersionsBelow(rows: seq<Row>, row: Row)
    requires row in rows
    ensures row.version <= MaxVersion(rows)
  {
    if row != rows[|rows| - 1] {
      assert row in rows[..|rows| - 1];
      VersionsBelow(rows[..|rows| - 1], row);
    }
  }

  lemma {:induction false} SameVersionSameRow(rows: seq<Row>, a: Row, b: Row)
    requires Versioned(rows) && a in rows && b in rows && a.version == b.version
    ensures a == b
  {
    var init, last := rows[..|rows| - 1], rows[|rows| - 1];
    if a in init && b in init {
      SameVersionSameRow(init, a, b);
    } else if a in init {
      VersionsBelow(init, a);
    } else if b in init {
      VersionsBelow(init, b);
    }
  }

  lemma {:induction false} WinnerIsGreatest(rows: seq<Row>, day: int)
    ensures Winner(rows, day).Some? ==> Winner(rows, day).value in rows && Covers(Winner(rows, day).value, day)
    ensures forall row :: row in rows && Covers(row, day) ==>
              Winner(rows, day).Some? && !Beats(row, Winner(rows, day).value)
  {
    if rows != [] {
      var init := rows[..|rows| - 1];
      WinnerIsGreatest(init, day);
      assert forall row :: row in rows <==> row in init || row == rows[|rows| - 1];
    }
  }

  /** The row a reader gets, by the fields alone: it covers the day, and no row that does has a greater start and version. */
  lemma ReadersGetTheGreatest(rows: seq<Row>, day: int)
    ensures Winner(rows, day).Some? <==>
              exists row :: row in rows && row.validFrom <= day && (row.validTo.None? || day <= row.validTo.value)
    ensures Winner(rows, day).Some? ==>
              var won := Winner(rows, day).value;
              && won in rows && won.validFrom <= day && (won.validTo.None? || day <= won.validTo.value)
              && forall row :: row in rows && row.validFrom <= day && (row.validTo.None? || day <= row.validTo.value) ==>
                   row.validFrom < won.validFrom || (row.validFrom == won.validFrom && row.version <= won.version)
  {
    WinnerIsGreatest(rows, day);
  }

  lemma {:induction false} BestOpenIsGreatest(rows: seq<Row>)
    ensures BestOpen(rows).Some? ==> BestOpen(rows).value in rows && BestOpen(rows).value.validTo.None?
    ensures forall row :: row in rows && row.validTo.None? ==>
              BestOpen(rows).Some? && !Beats(row, BestOpen(rows).value)
  {
    if rows != [] {
      var init := rows[..|rows| - 1];
      BestOpenIsGreatest(init);
      assert forall row :: row in rows <==> row in init || row == rows[|rows| - 1];
    }
  }

  // ---------------------------------------------------------------- appending one row

  /** A newly appended row wins exactly where it covers and the old answer does not start later. */
  lemma WinnerAfterAppend(rows: seq<Row>, row: Row, day: int)
    requires row.version > MaxVersion(rows)
    ensures var was := Winner(rows, day);
            Winner(rows + [row], day) ==
              if Covers(row, day) && (was.None? || row.validFrom >= was.value.validFrom) then Some(row) else was
  {
    assert (rows + [row])[..|rows|] == rows;
    WinnerIsGreatest(rows, day);
    if Winner(rows, day).Some? {
      VersionsBelow(rows, Winner(rows, day).value);
    }
  }

  lemma CurrentAfterAppend(rows: seq<Row>, row: Row)
    requires row.version > MaxVersion(rows) && BestOpen(rows).Some?
    ensures rows + [row] != [] && BestOpen(rows + [row]).Some?
    ensures Current(rows + [row]) ==
              if row.validTo.None? && row.validFrom >= Current(rows).validFrom then row else Current(rows)
  {
    assert (rows + [row])[..|rows|] == rows;
    BestOpenIsGreatest(rows);
    VersionsBelow(rows, Current(rows));
  }

  /** Appending keeps the log's invariant as soon as the new row itself is succeeded. */
  lemma AppendKeepsLog(rows: seq<Row>, row: Row)
    requires LogInv(rows) && row.version > MaxVersion(rows) && Succeeded(rows + [row], row)
    ensures LogInv(rows + [row])
  {
    var longer := rows + [row];
    assert longer[..|rows|] == rows;
    CurrentAfterAppend(rows, row);
    forall r | r in longer
      ensures Succeeded(longer, r)
    {
      if r in rows {
        OldRowStaysSucceeded(rows, row, r);
      }
    }
  }

  lemma OldRowStaysSucceeded(rows: seq<Row>, row: Row, r: Row)
    requires Succeeded(rows, r) && row.version > MaxVersion(rows)
    ensures Succeeded(rows + [row], r)
  {
    if Bounded(r) {
      forall day | day > r.validTo.value
        ensures Winner(rows + [row], day).Some? && Winner(rows + [row], day).value.validFrom > r.validTo.value
      {
        WinnerAfterAppend(rows, row, day);
      }
    }
  }

  // ---------------------------------------------------------------- the current row is the future

  function Horizon(rows: seq<Row>): int {
    if rows == [] then 0
    else
      var rest, last := Horizon(rows[..|rows| - 1]), rows[|rows| - 1];
      if last.validTo.Some? && last.validTo.value >= rest then last.validTo.value + 1 else rest
  }

  lemma {:induction false} NothingBoundedAtHorizon(rows: seq<Row>, row: Row, day: int)
    requires row in rows && Covers(row, day) && day >= Horizon(rows)
    ensures row.validTo.None?
  {
    if row != rows[|rows| - 1] {
      assert row in rows[..|rows| - 1];
      NothingBoundedAtHorizon(rows[..|rows| - 1], row, day);
    }
  }

  /** No row that covers a day starts after the current row, and from its start on only the current row wins. */
  lemma CurrentIsLast(rows: seq<Row>, day: int)
    requires LogInv(rows)
    ensures Winner(rows, day).Some? ==> Winner(rows, day).value.validFrom <= Current(rows).validFrom
    ensures day >= Current(rows).validFrom ==> Winner(rows, day) == Some(Current(rows))
  {
    WinnerIsGreatest(rows, day);
    BestOpenIsGreatest(rows);
    var current := Current(rows);
    var won := Winner(rows, day);
    if won.Some? {
      if Bounded(won.value) {
        var far := if won.value.validTo.value >= Horizon(rows) then won.value.validTo.value + 1 else Horizon(rows);
        assert Succeeded(rows, won.value);
        WinnerIsGreatest(rows, far);
        NothingBoundedAtHorizon(rows, Winner(rows, far).value, far);
        assert won.value.validFrom < current.validFrom;
      } else {
        assert won.value.validTo.None?;
        if day >= current.validFrom {
          SameVersionSameRow(rows, won.value, current);
        }
      }
    }
  }

  // ---------------------------------------------------------------- what readers are told

  datatype Answer = Answer(code: string, name: string, facets: map<string, string>, annDate: Option<int>)

  function AnswerOf(row: Row): Answer {
    Answer(row.code, row.name, row.facets, row.annDate)
  }

  /** What a reader is told about a day. */
  function Told(rows: seq<Row>, day: int): Option<Answer> {
    var won := Winner(rows, day);
    if won.None? then None else Some(AnswerOf(won.value))
  }

  /** The start of the row valid on a day lies within the bound, or no row is valid. */
  predicate StartsBy(rows: seq<Row>, day: int, bound: int) {
    Winner(rows, day).Some? ==> Winner(rows, day).value.validFrom <= bound
  }

  /** Same answer and same start of the winning row, on every day. */
  ghost predicate SameTimeline(a: seq<Row>, b: seq<Row>) {
    forall day ::
      && Told(a, day) == Told(b, day)
      && (Winner(a, day).Some? ==> Winner(a, day).value.validFrom == Winner(b, day).value.validFrom)
  }

  /** Closing the row valid on the day before changes no answer: the shorter copy only replaces its original. */
  lemma CloseBeforeTellsTheSame(rows: seq<Row>, start: int, now: int)
    requires LogInv(rows)
    ensures SameTimeline(CloseBefore(rows, start, now), rows)
  {
    var before := start - 1;
    var previous := Winner(rows, before);
    if NeedsClosing(previous, before) {
      var copy := Closed(rows, previous.value, before, now);
      WinnerIsGreatest(rows, before);
      forall day
        ensures Told(rows + [copy], day) == Told(rows, day)
        ensures Winner(rows + [copy], day).Some? ==>
                  Winner(rows, day).Some? && Winner(rows + [copy], day).value.validFrom == Winner(rows, day).value.validFrom
      {
        WinnerAfterAppend(rows, copy, day);
        if Covers(copy, day) {
          CopyReplacesOriginal(rows, previous.value, before, day);
        }
      }
    }
  }

  lemma CopyReplacesOriginal(rows: seq<Row>, previous: Row, before: int, day: int)
    requires LogInv(rows) && Winner(rows, before) == Some(previous) && previous.validFrom <= day <= before
    ensures Winner(rows, day).Some?
    ensures previous.validFrom >= Winner(rows, day).value.validFrom ==> Winner(rows, day).value == previous
  {
    WinnerIsGreatest(rows, before);
    WinnerIsGreatest(rows, day);
    assert Covers(previous, day);
    var won := Winner(rows, day).value;
    if previous.validFrom >= won.validFrom && won != previous {
      if won.version == previous.version {
        SameVersionSameRow(rows, won, previous);
      }
      assert !Covers(won, before);
      assert Bounded(won) && Succeeded(rows, won);
      assert false;
    }
  }

  lemma CloseBeforeKeepsCurrent(rows: seq<Row>, start: int, now: int)
    requires LogInv(rows)
    ensures CloseBefore(rows, start, now) != [] && BestOpen(CloseBefore(rows, start, now)).Some?
    ensures Current(CloseBefore(rows, start, now)) == Current(rows)
    ensures Versioned(CloseBefore(rows, start, now))
  {
    if NeedsClosing(Winner(rows, start - 1), start - 1) {
      var copy := Closed(rows, Winner(rows, start - 1).value, start - 1, now);
      CurrentAfterAppend(rows, copy);
      assert (rows + [copy])[..|rows|] == rows;
    }
  }

  /** The two days ranges a name change answers for. */
  predicate InNewName(rows: seq<Row>, start: int, end: Option<int>, day: int) {
    start <= day && (end.Some? ==> day <= end.value) && StartsBy(rows, day, start)
  }

  predicate InResumed(rows: seq<Row>, end: Option<int>, day: int) {
    end.Some? && day > end.value && StartsBy(rows, day, end.value + 1)
  }

  /**
    The timeline law of a name change, for every day and any start and end: a later day gets the resumed
    name and a day inside gets the new name, each unless its winning row starts later still; every other
    answer stays.
   */
  lemma NameChangeLaw(rows: seq<Row>, name: string, start: int, end: Option<int>, annDate: Option<int>, now: int, day: int)
    requires LogInv(rows)
    ensures var base, before := AnswerOf(Current(rows)), Told(rows, start - 1);
            Told(Renamed(rows, name, start, end, annDate, now), day) ==
              if InResumed(rows, end, day)
              then Some(base.(name := if before.Some? then before.value.name else base.name))
              else if InNewName(rows, start, end, day)
              then Some(base.(name := name, annDate := if annDate.Some? then annDate else base.annDate))
              else Told(rows, day)
  {
    var closed := CloseBefore(rows, start, now);
    CloseBeforeTellsTheSame(rows, start, now);
    CloseBeforeKeepsCurrent(rows, start, now);
    var row := NameRow(closed, Current(rows), name, start, end, annDate, now);
    WinnerAfterAppend(closed, row, day);
    if end.Some? {
      var named := closed + [row];
      WinnerAfterAppend(named, NameRow(named, Current(rows), ResumeName(rows, start), end.value + 1, None, None, now), day);
    }
  }

  /** The interval of the row that answers: the new name's window, the open one after it, or an old row's start. */
  lemma NameChangeIntervals(rows: seq<Row>, name: string, start: int, end: Option<int>, annDate: Option<int>, now: int, day: int)
    requires LogInv(rows)
    ensures var after := Winner(Renamed(rows, name, start, end, annDate, now), day);
            if InResumed(rows, end, day) then after.Some? && after.value.validFrom == end.value + 1 && after.value.validTo == None
            else if InNewName(rows, start, end, day) then after.Some? && after.value.validFrom == start && after.value.validTo == end
            else (after.Some? <==> Winner(rows, day).Some?)
                 && (after.Some? ==> after.value.validFrom == Winner(rows, day).value.validFrom)
  {
    var closed := CloseBefore(rows, start, now);
    CloseBeforeTellsTheSame(rows, start, now);
    CloseBeforeKeepsCurrent(rows, start, now);
    var row := NameRow(closed, Current(rows), name, start, end, annDate, now);
    WinnerAfterAppend(closed, row, day);
    if end.Some? {
      var named := closed + [row];
      WinnerAfterAppend(named, NameRow(named, Current(rows), ResumeName(rows, start), end.value + 1, None, None, now), day);
    }
    assert Told(closed, day) == Told(rows, day);
  }

  /** The row valid on the day before a name change ends on that day, and starts where it did. */
  lemma NameChangeCloses(rows: seq<Row>, name: string, start: int, end: Option<int>, annDate: Option<int>, now: int)
    requires LogInv(rows) && Winner(rows, start - 1).Some?
    requires end.Some? ==> start <= end.value + 1
    ensures var was, after := Winner(rows, start - 1).value, Winner(Renamed(rows, name, start, end, annDate, now), start - 1);
            after.Some? && after.value.validFrom == was.validFrom && after.value.validTo == Some(start - 1)
  {
    var closed := CloseBefore(rows, start, now);
    var previous := Winner(rows, start - 1).value;
    WinnerIsGreatest(rows, start - 1);
    CloseBeforeKeepsCurrent(rows, start, now);
    if NeedsClosing(Some(previous), start - 1) {
      WinnerAfterAppend(rows, Closed(rows, previous, start - 1, now), start - 1);
    }
    assert Winner(closed, start - 1).value.validTo == Some(start - 1);
    var row := NameRow(closed, Current(rows), name, start, end, annDate, now);
    WinnerAfterAppend(closed, row, start - 1);
    if end.Some? {
      WinnerAfterAppend(closed + [row], NameRow(closed + [row], Current(rows), ResumeName(rows, start), end.value + 1, None, None, now), start - 1);
    }
  }

  /** With start at most one day after end, the past is untouched. */
  lemma PastIsKept(rows: seq<Row>, name: string, start: int, end: Option<int>, annDate: Option<int>, now: int, day: int)
    requires LogInv(rows) && day < start
    requires end.Some? ==> start <= end.value + 1
    ensures Told(Renamed(rows, name, start, end, annDate, now), day) == Told(rows, day)
  {
    NameChangeLaw(rows, name, start, end, annDate, now, day);
  }

  /** The change leaves every earlier answer alone, whatever the log and the name. */
  ghost predicate KeepsEveryPast(start: int, end: Option<int>) {
    forall rows, name, annDate, now, day :: LogInv(rows) && day < start ==>
      Told(Renamed(rows, name, start, end, annDate, now), day) == Told(rows, day)
  }

  /** Nothing refuses an end before the start, and that guard is exactly what keeping the past needs. */
  lemma PastIsKeptExactlyWhenOrdered(start: int, end: Option<int>)
    ensures KeepsEveryPast(start, end) <==> (end.Some? ==> start <= end.value + 1)
  {
    if end.Some? && end.value + 1 < start {
      InvertedWindowRewritesPast(start, end.value);
      CreationIsLog("600000.SH", "first", map[], start, 0);
    } else {
      forall rows, name, annDate, now, day | LogInv(rows) && day < start
        ensures Told(Renamed(rows, name, start, end, annDate, now), day) == Told(rows, day)
      {
        PastIsKept(rows, name, start, end, annDate, now, day);
      }
    }
  }

  /** A concrete log: an entity known from `start` on gains an answer for a day before it existed. */
  lemma InvertedWindowRewritesPast(start: int, end: int)
    requires end + 1 < start
    ensures var rows := Created("600000.SH", "first", map[], start, 0);
            && Told(rows, end + 1) == None
            && Told(Renamed(rows, "second", start, Some(end), None, 1), end + 1) == Some(Answer("600000.SH", "first", map[], None))
  {
    var rows := Created("600000.SH", "first", map[], start, 0);
    CreationIsLog("600000.SH", "first", map[], start, 0);
    NameChangeLaw(rows, "second", start, Some(end), None, 1, end + 1);
    assert rows[..0] == [] && BestOpen(rows) == Some(rows[0]);
    assert Winner(rows, end + 1) == None && Winner(rows, start - 1) == None;
    assert Current(rows) == rows[0];
  }

  /** A refresh tells the new attributes wherever the current row was the answer, and nothing else. */
  lemma RefreshLaw(rows: seq<Row>, name: string, facets: map<string, string>, now: int, day: int)
    requires LogInv(rows)
    ensures Told(Refreshed(rows, name, facets, now), day) ==
              if day >= Current(rows).validFrom then Some(Answer(Current(rows).code, name, facets, Current(rows).annDate)) else Told(rows, day)
  {
    var row := Current(rows).(name := name, facets := facets, validTo := None, knowledge := now, version := MaxVersion(rows) + 1);
    WinnerAfterAppend(rows, row, day);
    CurrentIsLast(rows, day);
  }

  /** A code change tells the new code from its start on, unless the day's row starts later still. */
  lemma CodeChangeLaw(rows: seq<Row>, code: string, start: int, now: int, day: int)
    requires LogInv(rows)
    ensures Told(Recoded(rows, code, start, now), day) ==
              if day >= start && StartsBy(rows, day, start) then Some(AnswerOf(Current(rows)).(code := code))
              else Told(rows, day)
  {
    var current := Current(rows);
    var copy := Closed(rows, current, start - 1, now);
    var closed := rows + [copy];
    WinnerAfterAppend(rows, copy, day);
    CurrentIsLast(rows, day);
    WinnerAfterAppend(closed, current.(code := code, validFrom := start, validTo := None, knowledge := now, version := MaxVersion(closed) + 1), day);
  }

  /** The row that was current ends on the day before the new code starts. */
  lemma CodeChangeCloses(rows: seq<Row>, code: string, start: int, now: int)
    requires LogInv(rows) && start > Current(rows).validFrom
    ensures var after := Winner(Recoded(rows, code, start, now), start - 1);
            after.Some? && after.value.validFrom == Current(rows).validFrom && after.value.validTo == Some(start - 1)
  {
    var current := Current(rows);
    var copy := Closed(rows, current, start - 1, now);
    var closed := rows + [copy];
    CurrentIsLast(rows, start - 1);
    WinnerAfterAppend(rows, copy, start - 1);
    WinnerAfterAppend(closed, current.(code := code, validFrom := start, validTo := None, knowledge := now, version := MaxVersion(closed) + 1), start - 1);
  }

  // ---------------------------------------------------------------- every change keeps the log sound

  /** A new entity tells what it was created with from its start on, and nothing before. */
  lemma CreationTells(code: string, name: string, facets: map<string, string>, start: int, now: int, day: int)
    ensures Told(Created(code, name, facets, start, now), day) ==
              if start <= day then Some(Answer(code, name, facets, None)) else None
  {
    var rows := Created(code, name, facets, start, now);
    assert rows[..0] == [] && Winner([], day) == None;
  }

  lemma CreationIsLog(code: string, name: string, facets: map<string, string>, start: int, now: int)
    ensures LogInv(Created(code, name, facets, start, now))
  {
    var rows := Created(code, name, facets, start, now);
    assert rows[..0] == [];
  }

  lemma RefreshKeepsLog(rows: seq<Row>, name: string, facets: map<string, string>, now: int)
    requires LogInv(rows)
    ensures LogInv(Refreshed(rows, name, facets, now))
    ensures Current(Refreshed(rows, name, facets, now)).validFrom == Current(rows).validFrom
    ensures Current(Refreshed(rows, name, facets, now)).code == Current(rows).code
  {
    var row := Current(rows).(name := name, facets := facets, validTo := None, knowledge := now, version := MaxVersion(rows) + 1);
    CurrentAfterAppend(rows, row);
    AppendKeepsLog(rows, row);
  }

  /** Winning rows only ever start later. */
  ghost predicate OnlyLater(rows: seq<Row>, longer: seq<Row>) {
    forall day :: Winner(rows, day).Some? ==>
      Winner(longer, day).Some? && Winner(longer, day).value.validFrom >= Winner(rows, day).value.validFrom
  }

  lemma AppendOnlyLater(rows: seq<Row>, row: Row)
    requires row.version > MaxVersion(rows)
    ensures OnlyLater(rows, rows + [row])
  {
    forall day | Winner(rows, day).Some?
      ensures Winner(rows + [row], day).Some? && Winner(rows + [row], day).value.validFrom >= Winner(rows, day).value.validFrom
    {
      WinnerAfterAppend(rows, row, day);
    }
  }

  lemma SucceededStays(rows: seq<Row>, longer: seq<Row>, r: Row)
    requires Succeeded(rows, r) && OnlyLater(rows, longer)
    ensures Succeeded(longer, r)
  {
  }

  /** A sound log followed by appended rows is sound once each of those is succeeded in the end. */
  lemma AppendsKeepLog(rows: seq<Row>, mid: seq<Row>, longer: seq<Row>, row: Row)
    requires (forall r :: r in rows ==> Succeeded(rows, r)) && OnlyLater(rows, mid)
    requires longer == mid + [row] && row.version > MaxVersion(mid)
    requires forall r :: r in mid && r !in rows ==> Succeeded(longer, r)
    requires Succeeded(longer, row)
    ensures OnlyLater(rows, longer)
    ensures forall r :: r in longer ==> Succeeded(longer, r)
  {
    AppendOnlyLater(mid, row);
    forall r | r in longer
      ensures Succeeded(longer, r)
    {
      if r in rows {
        SucceededStays(rows, longer, r);
      }
    }
  }

  lemma CloseOnlyLater(rows: seq<Row>, start: int, now: int)
    requires LogInv(rows)
    ensures var closed := CloseBefore(rows, start, now);
            && OnlyLater(rows, closed)
            && (forall r :: r in closed && r !in rows ==> r.validTo == Some(start - 1) && r.validFrom <= start - 1)
  {
    var previous := Winner(rows, start - 1);
    WinnerIsGreatest(rows, start - 1);
    if NeedsClosing(previous, start - 1) {
      AppendOnlyLater(rows, Closed(rows, previous.value, start - 1, now));
    } else {
      assert OnlyLater(rows, rows);
    }
  }

  /** Everything in a log's invariant but the successor rows. */
  ghost predicate Started(rows: seq<Row>) {
    rows != [] && Versioned(rows) && BestOpen(rows).Some?
  }

  lemma AppendKeepsStarted(rows: seq<Row>, row: Row)
    requires Started(rows) && row.version > MaxVersion(rows)
    ensures Started(rows + [row])
    ensures Current(rows + [row]) ==
              if row.validTo.None? && row.validFrom >= Current(rows).validFrom then row else Current(rows)
  {
    assert (rows + [row])[..|rows|] == rows;
    CurrentAfterAppend(rows, row);
  }

  lemma OpenRenameKeepsLog(rows: seq<Row>, name: string, start: int, annDate: Option<int>, now: int)
    requires LogInv(rows)
    ensures LogInv(Renamed(rows, name, start, None, annDate, now))
    ensures var current := Current(Renamed(rows, name, start, None, annDate, now));
            && current.code == Current(rows).code && current.facets == Current(rows).facets
            && current.validFrom >= Current(rows).validFrom
  {
    var closed := CloseBefore(rows, start, now);
    CloseBeforeKeepsCurrent(rows, start, now);
    CloseOnlyLater(rows, start, now);
    var row := NameRow(closed, Current(rows), name, start, None, annDate, now);
    var longer := closed + [row];
    AppendKeepsStarted(closed, row);
    forall r | r in longer && r !in rows
      ensures Succeeded(longer, r)
    {
      NewRowsSucceeded(closed, row, None, r, start);
    }
    AppendsKeepLog(rows, closed, longer, row);
  }

  /** The days after the closed row belong to the new name, and the days after that to the resumed one. */
  lemma EndedRenameKeepsLog(rows: seq<Row>, name: string, start: int, end: int, annDate: Option<int>, now: int)
    requires LogInv(rows) && start <= end + 1
    ensures LogInv(Renamed(rows, name, start, Some(end), annDate, now))
    ensures var current := Current(Renamed(rows, name, start, Some(end), annDate, now));
            && current.code == Current(rows).code && current.facets == Current(rows).facets
            && current.validFrom >= Current(rows).validFrom
  {
    EndedRenameKeepsStarted(rows, name, start, end, annDate, now);
    EndedRenameSucceeds(rows, name, start, end, annDate, now);
  }

  lemma EndedRenameKeepsStarted(rows: seq<Row>, name: string, start: int, end: int, annDate: Option<int>, now: int)
    requires LogInv(rows) && start <= end + 1
    ensures Started(Renamed(rows, name, start, Some(end), annDate, now))
    ensures var current := Current(Renamed(rows, name, start, Some(end), annDate, now));
            && current.code == Current(rows).code && current.facets == Current(rows).facets
            && current.validFrom >= Current(rows).validFrom
  {
    var closed := CloseBefore(rows, start, now);
    CloseBeforeKeepsCurrent(rows, start, now);
    var row := NameRow(closed, Current(rows), name, start, Some(end), annDate, now);
    var named := closed + [row];
    AppendKeepsStarted(closed, row);
    AppendKeepsStarted(named, NameRow(named, Current(rows), ResumeName(rows, start), end + 1, None, None, now));
  }

  lemma EndedRenameSucceeds(rows: seq<Row>, name: string, start: int, end: int, annDate: Option<int>, now: int)
    requires LogInv(rows) && start <= end + 1
    ensures var longer := Renamed(rows, name, start, Some(end), annDate, now);
            forall r :: r in longer ==> Succeeded(longer, r)
  {
    var closed := CloseBefore(rows, start, now);
    CloseBeforeKeepsCurrent(rows, start, now);
    CloseOnlyLater(rows, start, now);
    var row := NameRow(closed, Current(rows), name, start, Some(end), annDate, now);
    var named := closed + [row];
    var resumed := NameRow(named, Current(rows), ResumeName(rows, start), end + 1, None, None, now);
    EndedPartsSucceed(rows, closed, row, resumed, start);
  }

  lemma EndedPartsSucceed(rows: seq<Row>, closed: seq<Row>, row: Row, resumed: Row, start: int)
    requires (forall r :: r in rows ==> Succeeded(rows, r)) && OnlyLater(rows, closed)
    requires row.version > MaxVersion(closed) && resumed.version > MaxVersion(closed + [row])
    requires row.validFrom == start && row.validTo.Some? && start <= row.validTo.value + 1
    requires resumed.validFrom == row.validTo.value + 1 && resumed.validTo.None?
    requires forall r :: r in closed && r !in rows ==> r.validTo == Some(start - 1) && r.validFrom <= start - 1
    ensures forall r :: r in closed + [row] + [resumed] ==> Succeeded(closed + [row] + [resumed], r)
  {
    var named := closed + [row];
    AppendOnlyLater(closed, row);
    AllNewSucceeded(rows, closed, row, resumed, start);
    assert forall r :: r in named ==> r in named + [resumed];
    AppendsKeepLog(rows, named, named + [resumed], resumed);
  }

  lemma AllNewSucceeded(rows: seq<Row>, closed: seq<Row>, row: Row, resumed: Row, start: int)
    requires row.version > MaxVersion(closed) && resumed.version > MaxVersion(closed + [row])
    requires row.validFrom == start && row.validTo.Some? && start <= row.validTo.value + 1
    requires resumed.validFrom == row.validTo.value + 1 && resumed.validTo.None?
    requires forall r :: r in closed && r !in rows ==> r.validTo == Some(start - 1) && r.validFrom <= start - 1
    ensures forall r :: r in closed + [row] + [resumed] && r !in rows ==> Succeeded(closed + [row] + [resumed], r)
    ensures Succeeded(closed + [row] + [resumed], resumed)
  {
    forall r | r in closed + [row] + [resumed] && r !in rows
      ensures Succeeded(closed + [row] + [resumed], r)
    {
      NewRowsSucceeded(closed, row, Some(resumed), r, start);
    }
  }

  /** A name change keeps the log sound; it changes neither code nor attributes of the current row. */
  lemma RenameKeepsLog(rows: seq<Row>, name: string, start: int, end: Option<int>, annDate: Option<int>, now: int)
    requires LogInv(rows)
    requires end.Some? ==> start <= end.value + 1
    ensures LogInv(Renamed(rows, name, start, end, annDate, now))
    ensures var current := Current(Renamed(rows, name, start, end, annDate, now));
            && current.code == Current(rows).code && current.facets == Current(rows).facets
            && current.validFrom >= Current(rows).validFrom
  {
    if end.None? {
      OpenRenameKeepsLog(rows, name, start, annDate, now);
    } else {
      EndedRenameKeepsLog(rows, name, start, end.value, annDate, now);
    }
  }

  lemma NewRowsSucceeded(closed: seq<Row>, row: Row, resumed: Option<Row>, r: Row, start: int)
    requires row.version > MaxVersion(closed) && row.validFrom == start
    requires if resumed.None? then row.validTo.None?
             else resumed.value.version > MaxVersion(closed + [row]) && row.validTo.Some?
                  && start <= row.validTo.value + 1
                  && resumed.value.validFrom == row.validTo.value + 1 && resumed.value.validTo.None?
    requires r == row || (resumed.Some? && r == resumed.value) || (r.validTo == Some(start - 1) && r.validFrom <= start - 1)
    ensures Succeeded(if resumed.None? then closed + [row] else closed + [row] + [resumed.value], r)
  {
    var longer := if resumed.None? then closed + [row] else closed + [row] + [resumed.value];
    if Bounded(r) {
      forall day | day > r.validTo.value
        ensures Winner(longer, day).Some? && Winner(longer, day).value.validFrom > r.validTo.value
      {
        WinnerAfterAppend(closed, row, day);
        if resumed.Some? {
          WinnerAfterAppend(closed + [row], resumed.value, day);
        }
      }
    }
  }

  lemma CodeChangeKeepsLog(rows: seq<Row>, code: string, start: int, now: int)
    requires LogInv(rows)
    ensures LogInv(Recoded(rows, code, start, now))
    ensures start >= Current(rows).validFrom ==>
              Current(Recoded(rows, code, start, now)).validFrom == start && Current(Recoded(rows, code, start, now)).code == code
  {
    var current := Current(rows);
    var copy := Closed(rows, current, start - 1, now);
    var closed := rows + [copy];
    var row := current.(code := code, validFrom := start, validTo := None, knowledge := now, version := MaxVersion(closed) + 1);
    var longer := closed + [row];
    assert closed[..|rows|] == rows && longer[..|closed|] == closed;
    CurrentAfterAppend(rows, copy);
    CurrentAfterAppend(closed, row);
    AppendOnlyLater(rows, copy);
    forall r | r in longer && r !in rows
      ensures Succeeded(longer, r)
    {
      if Bounded(r) {
        forall day | day > r.validTo.value
          ensures Winner(longer, day).Some? && Winner(longer, day).value.validFrom > r.validTo.value
        {
          WinnerAfterAppend(closed, row, day);
        }
      }
    }
    AppendsKeepLog(rows, closed, longer, row);
  }

  // ---------------------------------------------------------------- histories in any order

  /** What can happen to an entity's rows. */
  datatype RowChange =
    | Rename(name: string, start: int, end: Option<int>, annDate: Option<int>, now: int)
    | Recode(code: string, start: int, now: int)
    | Refresh(name: string, facets: map<string, string>, now: int)

  function Changed(rows: seq<Row>, change: RowChange): (rows': seq<Row>)
    requires rows != []
    ensures rows' != []
  {
    match change
    case Rename(name, start, end, annDate, now) => Renamed(rows, name, start, end, annDate, now)
    case Recode(code, start, now) => Recoded(rows, code, start, now)
    case Refresh(name, facets, now) => Refreshed(rows, name, facets, now)
  }

  function AfterAll(rows: seq<Row>, changes: seq<RowChange>): (rows': seq<Row>)
    requires rows != []
    ensures rows' != []
  {
    if changes == [] then rows else Changed(AfterAll(rows, changes[..|changes| - 1]), changes[|changes| - 1])
  }

  /** More rows, known from now on and numbered onward, behind the old ones. */
  ghost predicate Continues(rows: seq<Row>, longer: seq<Row>, now: int) {
    && rows <= longer && MaxVersion(longer) == MaxVersion(rows) + (|longer| - |rows|)
    && forall i :: |rows| <= i < |longer| ==> longer[i].knowledge == now && longer[i].version == MaxVersion(rows) + 1 + (i - |rows|)
  }

  lemma ContinuedByOne(rows: seq<Row>, mid: seq<Row>, row: Row, now: int)
    requires Continues(rows, mid, now) && row.knowledge == now && row.version == MaxVersion(mid) + 1
    ensures Continues(rows, mid + [row], now)
  {
    assert (mid + [row])[..|mid|] == mid;
  }

  /** A change only appends: rows known from its moment on, each with the next version, and the old rows stay in place. */
  lemma ChangesAreAppended(rows: seq<Row>, change: RowChange)
    requires rows != []
    ensures rows < Changed(rows, change) && Continues(rows, Changed(rows, change), change.now)
  {
    match change
    case Rename(name, start, end, annDate, now) =>
      var closed := CloseBefore(rows, start, now);
      if closed != rows {
        ContinuedByOne(rows, rows, closed[|rows|], now);
      }
      RenameAppends(rows, closed, name, start, end, annDate, now);
    case Recode(code, start, now) =>
      var copy := Closed(rows, Current(rows), start - 1, now);
      ContinuedByOne(rows, rows, copy, now);
      ContinuedByOne(rows, rows + [copy], Recoded(rows, code, start, now)[|rows| + 1], now);
    case Refresh(name, facets, now) =>
      ContinuedByOne(rows, rows, Refreshed(rows, name, facets, now)[|rows|], now);
  }

  lemma RenameAppends(rows: seq<Row>, closed: seq<Row>, name: string, start: int, end: Option<int>, annDate: Option<int>, now: int)
    requires rows != [] && closed == CloseBefore(rows, start, now) && Continues(rows, closed, now)
    ensures rows < Renamed(rows, name, start, end, annDate, now) && Continues(rows, Renamed(rows, name, start, end, annDate, now), now)
  {
    var base := Current(closed);
    var named := closed + [NameRow(closed, base, name, start, end, annDate, now)];
    ContinuedByOne(rows, closed, NameRow(closed, base, name, start, end, annDate, now), now);
    if end.Some? {
      ContinuedByOne(rows, named, NameRow(named, base, ResumeName(rows, start), end.value + 1, None, None, now), now);
    }
  }

  predicate NotInverted(change: RowChange) {
    change.Rename? && change.end.Some? ==> change.start <= change.end.value + 1
  }

  /** The log of an entity is sound after any changes, in any order and at any starts, so every law here holds of it. */
  lemma {:induction false} LogOverHistory(rows: seq<Row>, changes: seq<RowChange>)
    requires LogInv(rows) && forall change :: change in changes ==> NotInverted(change)
    ensures LogInv(AfterAll(rows, changes))
  {
    if changes != [] {
      var init, last := changes[..|changes| - 1], changes[|changes| - 1];
      LogOverHistory(rows, init);
      var before := AfterAll(rows, init);
      assert last in changes && NotInverted(last);
      match last
      case Rename(name, start, end, annDate, now) => RenameKeepsLog(before, name, start, end, annDate, now);
      case Recode(code, start, now) => CodeChangeKeepsLog(before, code, start, now);
      case Refresh(name, facets, now) => RefreshKeepsLog(before, name, facets, now);
    }
  }

  /** From its creation on: what an entity told of the days before a name change is never changed by it. */
  lemma NameChangesKeepThePast(
    code: string, first: string, facets: map<string, string>, born: int, changes: seq<RowChange>,
    name: string, start: int, end: Option<int>, annDate: Option<int>, now: int, day: int)
    requires forall change :: change in changes ==> NotInverted(change)
    requires day < start && (end.Some? ==> start <= end.value + 1)
    ensures var rows := AfterAll(Created(code, first, facets, born, 0), changes);
            Told(Renamed(rows, name, start, end, annDate, now), day) == Told(rows, day)
  {
    CreationIsLog(code, first, facets, born, 0);
    LogOverHistory(Created(code, first, facets, born, 0), changes);
    PastIsKept(AfterAll(Created(code, first, facets, born, 0), changes), name, start, end, annDate, now, day);
  }

  /** From its creation on: the days after an ended name change are told the name that was told the day before it. */
  lemma NamesResumeOverHistory(
    code: string, first: string, facets: map<string, string>, born: int, changes: seq<RowChange>,
    name: string, start: int, end: int, annDate: Option<int>, now: int, day: int)
    requires forall change :: change in changes ==> NotInverted(change)
    requires born < start <= end + 1 && end < day
    ensures var rows := AfterAll(Created(code, first, facets, born, 0), changes);
            var longer := Renamed(rows, name, start, Some(end), annDate, now);
            && Told(rows, start - 1).Some? && Winner(rows, day).Some? && Told(longer, day).Some?
            && Told(longer, day).value.name ==
                 if Winner(rows, day).value.validFrom <= end + 1 then Told(rows, start - 1).value.name
                 else Told(rows, day).value.name
  {
    CreationIsLog(code, first, facets, born, 0);
    var created := Created(code, first, facets, born, 0);
    CreationTells(code, first, facets, born, 0, start - 1);
    CreationTells(code, first, facets, born, 0, day);
    LogOverHistory(created, changes);
    TellingGoesOn(created, changes, start - 1);
    TellingGoesOn(created, changes, day);
    NameChangeLaw(AfterAll(created, changes), name, start, Some(end), annDate, now, day);
  }

  /** A day that has an answer keeps having one. */
  lemma {:induction false} TellingGoesOn(rows: seq<Row>, changes: seq<RowChange>, day: int)
    requires LogInv(rows) && Winner(rows, day).Some?
    requires forall change :: change in changes ==> NotInverted(change)
    ensures Told(AfterAll(rows, changes), day).Some?
  {
    if changes != [] {
      var init, last := changes[..|changes| - 1], changes[|changes| - 1];
      LogOverHistory(rows, init);
      TellingGoesOn(rows, init, day);
      var before := AfterAll(rows, init);
      match last
      case Rename(name, start, end, annDate, now) => NameChangeLaw(before, name, start, end, annDate, now, day);
      case Recode(code, start, now) => CodeChangeLaw(before, code, start, now, day);
      case Refresh(name, facets, now) => RefreshLaw(before, name, facets, now, day);
    }
  }
}
