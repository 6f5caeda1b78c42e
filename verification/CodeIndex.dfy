/**
  The code history: append-only entries of all entities.  A code change closes every open entry of
  the entity by appending a copy, old open entries included; readers keep the first of equal versions.
 */
module CodeIndex {
  import opened Options
  import opened EntityTimeline

  datatype Entry = Entry(entity: nat, code: string, validFrom: int, validTo: Option<int>, version: nat, knowledge: int)

  datatype EntryKey = EntryKey(entity: nat, code: string, validFrom: int)

  function KeyOf(e: Entry): EntryKey {
    EntryKey(e.entity, e.code, e.validFrom)
  }

  /** The latest version of a key, the first one appended when versions are equal. */
  function Latest(entries: seq<Entry>, key: EntryKey): Option<Entry> {
    if entries == [] then None
    else
      var best, last := Latest(entries[..|entries| - 1], key), entries[|entries| - 1];
      if KeyOf(last) == key && (best.None? || last.version > best.value.version) then Some(last) else best
  }

  predicate EntryCovers(e: Entry, day: int) {
    e.validFrom <= day && (e.validTo.Some? ==> day <= e.validTo.value)
  }

  function ClosedEntry(e: Entry, before: int, now: int): Entry {
    e.(validTo := Some(before), knowledge := now, version := e.version + 1)
  }

  /** The closing copies of the entity's open entries, in order of appearance. */
  function ClosingCopies(entries: seq<Entry>, entity: nat, before: int, now: int): seq<Entry> {
    if entries == [] then []
    else
      var rest, last := ClosingCopies(entries[..|entries| - 1], entity, before, now), entries[|entries| - 1];
      if last.entity == entity && last.validTo.None? then rest + [ClosedEntry(last, before, now)] else rest
  }

  function CodeChanged(entries: seq<Entry>, entity: nat, code: string, start: int, now: int): seq<Entry> {
    entries + ClosingCopies(entries, entity, start - 1, now) + [Entry(entity, code, start, None, 1, now)]
  }

  // ---------------------------------------------------------------- the index of one entity

  /** The code holds on the day according to the latest entries of the entity. */
  ghost predicate Holds(entries: seq<Entry>, entity: nat, code: string, day: int) {
    exists from: int :: HoldsFrom(entries, entity, code, from, day)
  }

  predicate HoldsFrom(entries: seq<Entry>, entity: nat, code: string, from: int, day: int) {
    var latest := Latest(entries, EntryKey(entity, code, from));
    latest.Some? && EntryCovers(latest.value, day)
  }

  /** Open entries have version 1, closing copies version 2; none starts after the last code. */
  ghost predicate EntriesShaped(entries: seq<Entry>, entity: nat, last: int) {
    forall e :: e in entries && e.entity == entity ==>
      e.validFrom <= last && e.version == (if e.validTo.None? then 1 else 2)
  }

  /** Only keys that start with the last code are still open; all others end before it. */
  predicate KeyShaped(entries: seq<Entry>, key: EntryKey, last: int) {
    var latest := Latest(entries, key);
    latest.Some? ==> if latest.value.validTo.None? then key.validFrom == last
                     else key.validFrom < last && latest.value.validTo.value < last
  }

  ghost predicate IndexInv(entries: seq<Entry>, entity: nat, last: int) {
    && EntriesShaped(entries, entity, last)
    && (forall key: EntryKey :: key.entity == entity ==> KeyShaped(entries, key, last))
  }

  lemma {:induction false} LatestIsAnEntry(entries: seq<Entry>, key: EntryKey)
    ensures Latest(entries, key).Some? ==> Latest(entries, key).value in entries && KeyOf(Latest(entries, key).value) == key
    ensures forall e :: e in entries && KeyOf(e) == key ==>
              Latest(entries, key).Some? && e.version <= Latest(entries, key).value.version
  {
    if entries != [] {
      var init := entries[..|entries| - 1];
      LatestIsAnEntry(init, key);
      assert forall e :: e in entries <==> e in init || e == entries[|entries| - 1];
    }
  }

  lemma LatestAfterAppend(entries: seq<Entry>, e: Entry, key: EntryKey)
    ensures var best := Latest(entries, key);
            Latest(entries + [e], key) ==
              if KeyOf(e) == key && (best.None? || e.version > best.value.version) then Some(e) else best
  {
    assert (entries + [e])[..|entries|] == entries;
  }

  /** Entries of another key change nothing. */
  lemma {:induction false} LatestAfterOthers(entries: seq<Entry>, more: seq<Entry>, key: EntryKey)
    requires forall e :: e in more ==> KeyOf(e) != key
    ensures Latest(entries + more, key) == Latest(entries, key)
  {
    if more == [] {
      assert entries + more == entries;
    } else {
      var init, last := more[..|more| - 1], more[|more| - 1];
      assert entries + more == (entries + init) + [last];
      LatestAfterAppend(entries + init, last, key);
      LatestAfterOthers(entries, init, key);
    }
  }

  /** Is an open entry with this key listed? */
  ghost predicate ListsOpen(entries: seq<Entry>, key: EntryKey) {
    exists e :: e in entries && KeyOf(e) == key && e.validTo.None?
  }

  /** The closing copy every open entry of the key gets: version 2, ending before the change. */
  predicate IsClosing(e: Entry, key: EntryKey, before: int, now: int) {
    KeyOf(e) == key && e.validTo == Some(before) && e.version == 2 && e.knowledge == now
  }

  /**
    What the closing copies do to one key: an open latest entry becomes its closed copy; a key that was
    closed before keeps its first closed copy although it gets another one.
   */
  lemma {:induction false} LatestAfterClosing(
    entries: seq<Entry>, history: seq<Entry>, entity: nat, before: int, now: int, key: EntryKey)
    requires key.entity == entity && Latest(entries, key).Some? && Latest(entries, key).value.version <= 2
    requires forall e :: e in history && e.entity == entity && e.validTo.None? ==> e.version == 1
    ensures var was, after := Latest(entries, key).value, Latest(entries + ClosingCopies(history, entity, before, now), key);
            && after.Some?
            && (if was.version < 2 && ListsOpen(history, key) then IsClosing(after.value, key, before, now) else after.value == was)
  {
    if history == [] {
      assert entries + ClosingCopies(history, entity, before, now) == entries;
    } else {
      var init, last := history[..|history| - 1], history[|history| - 1];
      var copies := ClosingCopies(init, entity, before, now);
      LatestAfterClosing(entries, init, entity, before, now, key);
      assert forall e :: e in history <==> e in init || e == last;
      if last.entity == entity && last.validTo.None? {
        var copy := ClosedEntry(last, before, now);
        assert entries + ClosingCopies(history, entity, before, now) == (entries + copies) + [copy];
        LatestAfterAppend(entries + copies, copy, key);
        if KeyOf(last) == key {
          assert ListsOpen(history, key);
        }
      }
      assert ListsOpen(history, key) <==> ListsOpen(init, key) || (KeyOf(last) == key && last.validTo.None?);
    }
  }

  lemma {:induction false} ClosingCopiesAre(history: seq<Entry>, entity: nat, before: int, now: int)
    ensures forall c :: c in ClosingCopies(history, entity, before, now) ==>
              exists e :: e in history && e.entity == entity && e.validTo.None? && c == ClosedEntry(e, before, now)
  {
    if history != [] {
      var init := history[..|history| - 1];
      ClosingCopiesAre(init, entity, before, now);
      assert forall e :: e in init ==> e in history;
      assert history[|history| - 1] in history;
    }
  }

  /** A key nobody listed open gets no closing copy. */
  lemma LatestOfUnknownKey(entries: seq<Entry>, entity: nat, before: int, now: int, key: EntryKey)
    requires Latest(entries, key).None?
    ensures Latest(entries + ClosingCopies(entries, entity, before, now), key).None?
  {
    LatestIsAnEntry(entries, key);
    ClosingCopiesAre(entries, entity, before, now);
    LatestAfterOthers(entries, ClosingCopies(entries, entity, before, now), key);
  }

  /** The closing copies close the latest entry of a key exactly when it was open. */
  lemma LatestAfterCopies(entries: seq<Entry>, entity: nat, before: int, now: int, last: int, key: EntryKey)
    requires IndexInv(entries, entity, last) && key.entity == entity && Latest(entries, key).Some?
    ensures var was, after := Latest(entries, key).value, Latest(entries + ClosingCopies(entries, entity, before, now), key);
            after.Some? && (if was.validTo.None? then IsClosing(after.value, key, before, now) else after.value == was)
  {
    LatestIsAnEntry(entries, key);
    LatestAfterClosing(entries, entries, entity, before, now, key);
    var was := Latest(entries, key).value;
    if was.validTo.None? {
      assert ListsOpen(entries, key);
    }
  }

  /** The latest entry of every key of the entity after a code change that starts after the last code. */
  lemma LatestAfterChange(entries: seq<Entry>, entity: nat, code: string, start: int, now: int, last: int, key: EntryKey)
    requires IndexInv(entries, entity, last) && last < start && key.entity == entity
    ensures var was, after := Latest(entries, key), Latest(CodeChanged(entries, entity, code, start, now), key);
            if key == EntryKey(entity, code, start) then after == Some(Entry(entity, code, start, None, 1, now))
            else if was.None? then after.None?
            else if was.value.validTo.None? then after.Some? && IsClosing(after.value, key, start - 1, now)
            else after == was
  {
    LatestAfterAppend(entries + ClosingCopies(entries, entity, start - 1, now), Entry(entity, code, start, None, 1, now), key);
    if Latest(entries, key).None? {
      LatestOfUnknownKey(entries, entity, start - 1, now, key);
    } else {
      LatestAfterCopies(entries, entity, start - 1, now, last, key);
      NoKeyStartsLater(entries, entity, last, key);
    }
  }

  lemma NoKeyStartsLater(entries: seq<Entry>, entity: nat, last: int, key: EntryKey)
    requires IndexInv(entries, entity, last) && key.entity == entity && Latest(entries, key).Some?
    ensures key.validFrom <= last
  {
    LatestIsAnEntry(entries, key);
  }

  lemma ChangeKeepsIndex(entries: seq<Entry>, entity: nat, code: string, start: int, now: int, last: int)
    requires IndexInv(entries, entity, last) && last < start
    ensures IndexInv(CodeChanged(entries, entity, code, start, now), entity, start)
  {
    var entries' := CodeChanged(entries, entity, code, start, now);
    ClosingCopiesAre(entries, entity, start - 1, now);
    forall key: EntryKey | key.entity == entity
      ensures KeyShaped(entries', key, start)
    {
      assert KeyShaped(entries, key, last);
      LatestIsAnEntry(entries, key);
      LatestAfterChange(entries, entity, code, start, now, last, key);
    }
    forall e | e in entries' && e.entity == entity
      ensures e.validFrom <= start && e.version == (if e.validTo.None? then 1 else 2)
    {
    }
  }

  lemma HoldsFromAfterChange(entries: seq<Entry>, entity: nat, code: string, start: int, now: int, last: int,
                             c: string, from: int, day: int)
    requires IndexInv(entries, entity, last) && last < start
    ensures HoldsFrom(CodeChanged(entries, entity, code, start, now), entity, c, from, day) <==>
              if day >= start then c == code && from == start else HoldsFrom(entries, entity, c, from, day)
  {
    var key := EntryKey(entity, c, from);
    assert KeyShaped(entries, key, last);
    LatestIsAnEntry(entries, key);
    LatestAfterChange(entries, entity, code, start, now, last, key);
  }

  /** From the change on only the new code holds; before it the same codes hold as ever. */
  lemma HoldsAfterChange(entries: seq<Entry>, entity: nat, code: string, start: int, now: int, last: int, c: string, day: int)
    requires IndexInv(entries, entity, last) && last < start
    ensures Holds(CodeChanged(entries, entity, code, start, now), entity, c, day) <==>
              if day >= start then c == code else Holds(entries, entity, c, day)
  {
    var entries' := CodeChanged(entries, entity, code, start, now);
    forall from: int
      ensures HoldsFrom(entries', entity, c, from, day) <==>
                if day >= start then c == code && from == start else HoldsFrom(entries, entity, c, from, day)
    {
      HoldsFromAfterChange(entries, entity, code, start, now, last, c, from, day);
    }
    if day >= start {
      assert c == code ==> HoldsFrom(entries', entity, c, start, day);
    } else if Holds(entries, entity, c, day) {
      var from: int :| HoldsFrom(entries, entity, c, from, day);
      assert HoldsFrom(entries', entity, c, from, day);
    }
  }
}
