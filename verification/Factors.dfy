/**
  Step factors and price adjustment.  A factor holds from its event day until the next one; prices are
  adjusted by the factor of the day, or by its ratio to the factor of the last bar.
 */
module Factors {
  import opened Options
  import opened Arrangement

  datatype Step = Step(date: int, factor: real)

  ghost predicate Ascending(steps: seq<Step>) {
    forall i, j :: 0 <= i < j < |steps| ==> steps[i].date < steps[j].date
  }

  /** The factor of the last row at or before the day. */
  function Lookup(steps: seq<Step>, day: int): Option<real> {
    if steps == [] then None
    else if steps[|steps| - 1].date <= day then Some(steps[|steps| - 1].factor)
    else Lookup(steps[..|steps| - 1], day)
  }

  /** The factor of the day by the whole history; before the first event it is one. */
  function InForce(history: seq<Step>, day: int): real {
    var found := Lookup(history, day);
    if found.Some? then found.value else 1.0
  }

  // ---------------------------------------------------------------- the windowed frame

  function Between(steps: seq<Step>, start: int, end: int): seq<Step> {
    if steps == [] then []
    else
      var rest, last := Between(steps[..|steps| - 1], start, end), steps[|steps| - 1];
      if start <= last.date <= end then rest + [last] else rest
  }

  function Before(steps: seq<Step>, start: int): seq<Step> {
    if steps == [] then []
    else
      var rest, last := Before(steps[..|steps| - 1], start), steps[|steps| - 1];
      if last.date < start then rest + [last] else rest
  }

  /** The last factor before the window, or one. */
  function Base(history: seq<Step>, start: int): real {
    var before := Before(history, start);
    if before == [] then 1.0 else before[|before| - 1].factor
  }

  /** The events of the window, with a row at its start unless an event falls on it. */
  function WindowFrame(history: seq<Step>, start: int, end: int): seq<Step> {
    var window := Between(history, start, end);
    if window == [] || window[0].date != start then [Step(start, Base(history, start))] + window else window
  }

  lemma {:induction false} BaseIsInForce(history: seq<Step>, start: int)
    ensures Base(history, start) == InForce(history, start - 1)
  {
    if history != [] {
      BaseIsInForce(history[..|history| - 1], start);
    }
  }

  lemma LookupLonger(steps: seq<Step>, last: Step, day: int)
    ensures Lookup(steps + [last], day) == if last.date <= day then Some(last.factor) else Lookup(steps, day)
  {
    assert (steps + [last])[..|steps|] == steps;
  }

  lemma {:induction false} LookupBehind(first: Step, steps: seq<Step>, day: int)
    ensures Lookup([first] + steps, day) ==
            if Lookup(steps, day).Some? then Lookup(steps, day) else if first.date <= day then Some(first.factor) else None
  {
    if steps == [] {
      assert [first] + steps == [first];
    } else {
      var init, last := steps[..|steps| - 1], steps[|steps| - 1];
      assert [first] + steps == ([first] + init) + [last];
      LookupLonger([first] + init, last, day);
      LookupBehind(first, init, day);
    }
  }

  /** The day up to which the window knows the history. */
  function Horizon(start: int, end: int, day: int): int {
    if day <= end then day else if start <= end then end else start - 1
  }

  lemma {:induction false} LookupInWindow(history: seq<Step>, start: int, end: int, day: int)
    requires Ascending(history) && start <= day
    ensures var window := Between(history, start, end);
            && (window != [] ==> start <= window[0].date <= end)
            && (Lookup(window, day).Some? ==> Lookup(history, Horizon(start, end, day)) == Lookup(window, day))
            && (Lookup(window, day).None? ==> Lookup(history, Horizon(start, end, day)) == Lookup(history, start - 1))
            && (window != [] && window[0].date <= day ==> Lookup(window, day).Some?)
  {
    if history != [] {
      var init, last := history[..|history| - 1], history[|history| - 1];
      LookupInWindow(init, start, end, day);
      if start <= last.date <= end {
        LookupLonger(Between(init, start, end), last, day);
      }
      if last.date < start {
        NothingSince(history, start, end);
      }
    }
  }

  lemma {:induction false} NothingSince(history: seq<Step>, start: int, end: int)
    requires forall step :: step in history ==> step.date < start
    ensures Between(history, start, end) == []
  {
    if history != [] {
      NothingSince(history[..|history| - 1], start, end);
    }
  }

  /**
    The windowed frame is the whole history seen from the window: it answers every day from its start on
    with the factor in force on that day, or on the last day it covers, and no day before its start.
   */
  lemma WindowAgreesWithHistory(history: seq<Step>, start: int, end: int, day: int)
    requires Ascending(history)
    ensures Lookup(WindowFrame(history, start, end), day) ==
            if start <= day then Some(InForce(history, Horizon(start, end, day))) else None
  {
    var window := Between(history, start, end);
    BaseIsInForce(history, start);
    LookupInWindow(history, start, end, if start <= day then day else start);
    LookupBehind(Step(start, Base(history, start)), window, day);
    if day < start {
      NothingBefore(history, start, end, day);
    }
  }

  lemma {:induction false} NothingBefore(history: seq<Step>, start: int, end: int, day: int)
    requires day < start
    ensures Lookup(Between(history, start, end), day) == None
  {
    if history != [] {
      var init, last := history[..|history| - 1], history[|history| - 1];
      NothingBefore(init, start, end, day);
      LookupLonger(Between(init, start, end), last, day);
    }
  }

  // ---------------------------------------------------------------- the factor table

  /** A factor row as it comes in; a missing date or factor makes it unusable. */
  datatype FactorRow = FactorRow(code: string, date: Option<int>, factor: Option<real>)

  function Usable(rows: seq<FactorRow>): seq<FactorRow> {
    if rows == [] then []
    else
      var rest, last := Usable(rows[..|rows| - 1]), rows[|rows| - 1];
      if last.date.Some? && last.factor.Some? then rest + [last] else rest
  }

  /** Puts a step in date order, after those of the same day. */
  function Placed(steps: seq<Step>, step: Step): seq<Step> {
    if steps == [] || steps[|steps| - 1].date <= step.date then steps + [step]
    else Placed(steps[..|steps| - 1], step) + [steps[|steps| - 1]]
  }

  predicate StepRow(row: FactorRow, code: string, step: Step) {
    row.code == code && row.date == Some(step.date) && row.factor == Some(step.factor)
  }

  /** The steps of one code, in date order. */
  function StepsOf(rows: seq<FactorRow>, code: string): seq<Step> {
    if rows == [] then []
    else
      var rest, last := StepsOf(rows[..|rows| - 1], code), rows[|rows| - 1];
      if last.code == code && last.date.Some? && last.factor.Some? then Placed(rest, Step(last.date.value, last.factor.value))
      else rest
  }

  ghost predicate InDateOrder(steps: seq<Step>) {
    forall i, j :: 0 <= i < j < |steps| ==> steps[i].date <= steps[j].date
  }

  lemma {:induction false} PlacedHolds(steps: seq<Step>, step: Step)
    requires InDateOrder(steps)
    ensures InDateOrder(Placed(steps, step))
    ensures forall s :: s in Placed(steps, step) <==> s in steps || s == step
  {
    if steps != [] && steps[|steps| - 1].date > step.date {
      var init, last := steps[..|steps| - 1], steps[|steps| - 1];
      PlacedHolds(init, step);
      assert forall s :: s in steps <==> s in init || s == last;
      forall i | 0 <= i < |Placed(init, step)|
        ensures Placed(init, step)[i].date <= last.date
      {
        assert Placed(init, step)[i] in Placed(init, step);
      }
    }
  }

  ghost predicate Listed(rows: seq<FactorRow>, code: string, step: Step) {
    exists row :: row in rows && StepRow(row, code, step)
  }

  lemma ListedInLonger(rows: seq<FactorRow>, code: string, step: Step)
    requires rows != []
    ensures Listed(rows, code, step) <==> Listed(rows[..|rows| - 1], code, step) || StepRow(rows[|rows| - 1], code, step)
  {
    assert forall row :: row in rows <==> row in rows[..|rows| - 1] || row == rows[|rows| - 1];
  }

  /** The steps are the usable rows of the code, whatever order the table has. */
  lemma {:induction false} StepsAreTheRows(rows: seq<FactorRow>, code: string)
    ensures InDateOrder(StepsOf(rows, code))
    ensures forall step :: step in StepsOf(rows, code) <==> Listed(rows, code, step)
  {
    if rows != [] {
      var init, last := rows[..|rows| - 1], rows[|rows| - 1];
      StepsAreTheRows(init, code);
      if last.code == code && last.date.Some? && last.factor.Some? {
        PlacedHolds(StepsOf(init, code), Step(last.date.value, last.factor.value));
      }
      forall step
        ensures step in StepsOf(rows, code) <==> Listed(rows, code, step)
      {
        ListedInLonger(rows, code, step);
      }
    }
  }

  lemma {:induction false} LookupIsLatestStep(steps: seq<Step>, day: int)
    requires InDateOrder(steps)
    ensures Lookup(steps, day).None? <==> forall step :: step in steps ==> step.date > day
    ensures Lookup(steps, day).Some? ==>
              exists step :: step in steps && step.date <= day && Lookup(steps, day) == Some(step.factor)
                             && forall other :: other in steps && other.date <= day ==> other.date <= step.date
  {
    if steps != [] {
      var init, last := steps[..|steps| - 1], steps[|steps| - 1];
      assert last in steps && forall s :: s in steps <==> s in init || s == last;
      if last.date > day {
        LookupIsLatestStep(init, day);
      }
    }
  }

  /** The join finds the usable row of the code with the latest day that is not later, wherever it stands in the table. */
  lemma JoinFindsLatestRow(rows: seq<FactorRow>, code: string, day: int)
    ensures Lookup(StepsOf(rows, code), day).None? <==> forall step :: Listed(rows, code, step) ==> step.date > day
    ensures Lookup(StepsOf(rows, code), day).Some? ==>
              exists step :: Listed(rows, code, step) && step.date <= day && Lookup(StepsOf(rows, code), day) == Some(step.factor)
                             && forall other :: Listed(rows, code, other) && other.date <= day ==> other.date <= step.date
  {
    StepsAreTheRows(rows, code);
    LookupIsLatestStep(StepsOf(rows, code), day);
  }

  // ---------------------------------------------------------------- adjusting prices

  /** A frame of bars by column; a missing price stays missing. */
  datatype Bars = Bars(codes: seq<string>, dates: seq<int>, columns: map<string, seq<Option<real>>>)

  predicate WellFormed(bars: Bars) {
    |bars.codes| == |bars.dates| && forall c :: c in bars.columns ==> |bars.columns[c]| == |bars.codes|
  }

  ghost predicate SortedByDate(bars: Bars) {
    forall i, j :: 0 <= i < j < |bars.dates| ==> bars.dates[i] <= bars.dates[j]
  }

  datatype Result = Adjusted(bars: Bars) | ValueError | FactorMissing

  const QFQ := "qfq"
  const HFQ := "hfq"
  const PRICES := ["open", "high", "low", "close"]

  /** Every bar with the factor of its code and day: the backward join. */
  function Joined(bars: Bars, rows: seq<FactorRow>): seq<Option<real>>
    requires |bars.codes| == |bars.dates|
  {
    seq(|bars.codes|, (i: nat) requires i < |bars.codes| => Lookup(StepsOf(rows, bars.codes[i]), bars.dates[i]))
  }

  /** The factor of the last row of the code. */
  function LastOf(codes: seq<string>, factors: seq<Option<real>>, code: string): Option<real>
    requires |codes| == |factors|
  {
    if codes == [] then None
    else if codes[|codes| - 1] == code then factors[|codes| - 1]
    else LastOf(codes[..|codes| - 1], factors[..|codes| - 1], code)
  }

  /** Dividing by a zero factor leaves no usable price. */
  function Ratio(factor: Option<real>, latest: Option<real>, adjust: string): Option<real> {
    if adjust == HFQ then factor
    else if factor.None? || latest.None? || latest.value == 0.0 then None
    else Some(factor.value / latest.value)
  }

  function Ratios(codes: seq<string>, factors: seq<Option<real>>, adjust: string): seq<Option<real>>
    requires |codes| == |factors|
  {
    seq(|codes|, (i: nat) requires i < |codes| => Ratio(factors[i], LastOf(codes, factors, codes[i]), adjust))
  }

  function Times(price: Option<real>, ratio: Option<real>): Option<real> {
    if price.None? || ratio.None? then None else Some(price.value * ratio.value)
  }

  function Scaled(prices: seq<Option<real>>, ratios: seq<Option<real>>): seq<Option<real>>
    requires |prices| == |ratios|
  {
    seq(|prices|, (i: nat) requires i < |prices| => Times(prices[i], ratios[i]))
  }

  /** The rows taken in an order. */
  function Taken<T>(column: seq<T>, order: seq<nat>): seq<T>
    requires forall i :: 0 <= i < |order| ==> order[i] < |column|
  {
    seq(|order|, (i: nat) requires i < |order| => column[order[i]])
  }

  function Arranged(bars: Bars, order: seq<nat>): Bars
    requires WellFormed(bars) && forall i :: 0 <= i < |order| ==> order[i] < |bars.codes|
  {
    Bars(Taken(bars.codes, order), Taken(bars.dates, order), map c | c in bars.columns :: Taken(bars.columns[c], order))
  }

  function DateAt(bars: Bars, i: nat): int {
    if i < |bars.dates| then bars.dates[i] else 0
  }

  function CodeAt(bars: Bars, i: nat): string {
    if i < |bars.codes| then bars.codes[i] else ""
  }

  function ByDate(bars: Bars): (nat, nat) -> bool {
    (x: nat, y: nat) => DateAt(bars, x) < DateAt(bars, y)
  }

  predicate CodeThenDate(bars: Bars, x: nat, y: nat) {
    TextLess(CodeAt(bars, x), CodeAt(bars, y)) || (CodeAt(bars, x) == CodeAt(bars, y) && DateAt(bars, x) < DateAt(bars, y))
  }

  function ByCodeAndDate(bars: Bars): (nat, nat) -> bool {
    (x: nat, y: nat) => CodeThenDate(bars, x, y)
  }

  lemma OrdersAreWeak(bars: Bars)
    ensures WeakOrder(ByDate(bars)) && WeakOrder(ByCodeAndDate(bars))
  {
    var before := ByCodeAndDate(bars);
    forall a: nat, b: nat, c: nat | !before(b, a) && !before(c, b)
      ensures !before(c, a)
    {
      TextsAreOrdered(CodeAt(bars, a), CodeAt(bars, b), CodeAt(bars, c));
      CodesInOrder(bars, a, b, c);
    }
    forall a: nat, b: nat | before(a, b)
      ensures !before(b, a)
    {
      TextsAreOrdered(CodeAt(bars, a), CodeAt(bars, b), CodeAt(bars, a));
    }
  }

  lemma CodesInOrder(bars: Bars, a: nat, b: nat, c: nat)
    requires !CodeThenDate(bars, b, a) && !CodeThenDate(bars, c, b)
    ensures !CodeThenDate(bars, c, a)
  {
    var x, y, z := CodeAt(bars, a), CodeAt(bars, b), CodeAt(bars, c);
    TextsAreOrdered(x, y, z);
    if x == z {
      SameText(x, y);
    }
  }

  // ---------------------------------------------------------------- the ratio of a row, whatever the order

  predicate LatestOfCode(bars: Bars, i: nat)
    requires |bars.codes| == |bars.dates| && i < |bars.codes|
  {
    forall j :: 0 <= j < |bars.codes| && bars.codes[j] == bars.codes[i] ==> bars.dates[j] <= bars.dates[i]
  }

  /** The ratio of a row: its factor, over that of the latest day of its code for qfq. */
  ghost predicate IsRatio(bars: Bars, rows: seq<FactorRow>, adjust: string, i: nat, ratio: Option<real>)
    requires |bars.codes| == |bars.dates| && i < |bars.codes|
  {
    exists m: nat :: m < |bars.codes| && bars.codes[m] == bars.codes[i] && LatestOfCode(bars, m)
      && ratio == Ratio(Joined(bars, rows)[i], Joined(bars, rows)[m], adjust)
  }

  lemma {:induction false} LastOfIsSome(codes: seq<string>, factors: seq<Option<real>>, code: string) returns (last: nat)
    requires |codes| == |factors| && code in codes
    ensures last < |codes| && codes[last] == code && LastOf(codes, factors, code) == factors[last]
    ensures forall j :: last < j < |codes| ==> codes[j] != code
  {
    if codes[|codes| - 1] == code {
      last := |codes| - 1;
    } else {
      last := LastOfIsSome(codes[..|codes| - 1], factors[..|codes| - 1], code);
    }
  }

  /** With the bars in date order, the last factor of a code is that of its latest day. */
  lemma LastFactorIsLatest(bars: Bars, rows: seq<FactorRow>, i: nat)
    requires WellFormed(bars) && SortedByDate(bars) && i < |bars.codes|
    ensures exists m: nat :: m < |bars.codes| && bars.codes[m] == bars.codes[i] && LatestOfCode(bars, m)
              && LastOf(bars.codes, Joined(bars, rows), bars.codes[i]) == Joined(bars, rows)[m]
  {
    var last := LastOfIsSome(bars.codes, Joined(bars, rows), bars.codes[i]);
    assert LatestOfCode(bars, last);
  }

  /** Arranging the rows gives each the ratio it had. */
  lemma RatioOfArranged(bars: Bars, order: seq<nat>, rows: seq<FactorRow>, adjust: string, i: nat, ratio: Option<real>)
    requires WellFormed(bars) && IsPermutation(order, |bars.codes|) && i < |order|
    requires forall k :: 0 <= k < |order| ==> order[k] in order && order[k] < |bars.codes|
    requires IsRatio(Arranged(bars, order), rows, adjust, i, ratio)
    ensures IsRatio(bars, rows, adjust, order[i], ratio)
  {
    var dated := Arranged(bars, order);
    var m: nat :| m < |dated.codes| && dated.codes[m] == dated.codes[i] && LatestOfCode(dated, m)
                  && ratio == Ratio(Joined(dated, rows)[i], Joined(dated, rows)[m], adjust);
    forall j | 0 <= j < |bars.codes| && bars.codes[j] == bars.codes[order[m]]
      ensures bars.dates[j] <= bars.dates[order[m]]
    {
      assert j in order;
      var k :| 0 <= k < |order| && order[k] == j;
      assert dated.codes[k] == dated.codes[m];
    }
    assert LatestOfCode(bars, order[m]);
    assert Joined(bars, rows)[order[i]] == Joined(dated, rows)[i] && Joined(bars, rows)[order[m]] == Joined(dated, rows)[m];
  }

  lemma DatedIsSorted(bars: Bars, order: seq<nat>)
    requires WellFormed(bars) && order == Order(|bars.codes|, ByDate(bars))
    ensures IsPermutation(order, |bars.codes|) && forall k :: 0 <= k < |order| ==> order[k] in order && order[k] < |bars.codes|
    ensures SortedByDate(Arranged(bars, order))
  {
    var dated := ByDate(bars);
    OrderIsPermutation(|bars.codes|, dated);
    OrdersAreWeak(bars);
    OrderIsSorted(|bars.codes|, dated);
    assert forall k :: 0 <= k < |order| ==> order[k] in order;
    forall i, j | 0 <= i < j < |order|
      ensures bars.dates[order[i]] <= bars.dates[order[j]]
    {
      assert !dated(order[j], order[i]);
    }
  }

  /** The multiplication of the price columns that are there, one column after the other. */
  method ScalePrices(bars: Bars, ratios: seq<Option<real>>) returns (scaled: Bars)
    requires WellFormed(bars) && |ratios| == |bars.codes|
    ensures scaled.codes == bars.codes && scaled.dates == bars.dates && scaled.columns.Keys == bars.columns.Keys
    ensures forall c :: c in bars.columns ==>
              scaled.columns[c] == if c in PRICES then Scaled(bars.columns[c], ratios) else bars.columns[c]
  {
    var columns := bars.columns;
    for k := 0 to |PRICES|
      invariant columns.Keys == bars.columns.Keys
      invariant forall c :: c in columns ==>
                  columns[c] == if c in PRICES[..k] then Scaled(bars.columns[c], ratios) else bars.columns[c]
    {
      var column := PRICES[k];
      PricesAreDistinct(k);
      assert PRICES[..k + 1] == PRICES[..k] + [column];
      if column in columns {
        columns := columns[column := Scaled(columns[column], ratios)];
      }
    }
    scaled := Bars(bars.codes, bars.dates, columns);
  }

  lemma PricesAreDistinct(k: nat)
    requires k < |PRICES|
    ensures PRICES[k] !in PRICES[..k]
  {
    var lengths := ["open", "high", "low", "close"];
    assert lengths[0][0] == 'o' && lengths[1][0] == 'h' && lengths[2][0] == 'l' && lengths[3][0] == 'c';
  }

  lemma {:induction false} NothingUsable(rows: seq<FactorRow>, code: string)
    requires Usable(rows) == []
    ensures StepsOf(rows, code) == []
  {
    if rows != [] {
      NothingUsable(rows[..|rows| - 1], code);
    }
  }

  ghost predicate SortedByCodeAndDate(bars: Bars) {
    forall i: nat, j: nat :: i < j < |bars.codes| ==> !CodeThenDate(bars, j, i)
  }

  /** Row `i` of the result is row `from` of the bars, its prices times its ratio and its other columns as they were. */
  ghost predicate RowAdjusted(bars: Bars, rows: seq<FactorRow>, adjust: string, result: Bars, i: nat, from: nat)
    requires WellFormed(bars) && WellFormed(result) && i < |result.codes| && from < |bars.codes|
    requires result.columns.Keys == bars.columns.Keys
  {
    && result.codes[i] == bars.codes[from] && result.dates[i] == bars.dates[from]
    && exists ratio :: IsRatio(bars, rows, adjust, from, ratio)
         && forall c :: c in bars.columns ==>
              result.columns[c][i] == if c in PRICES then Times(bars.columns[c][from], ratio) else bars.columns[c][from]
  }

  /** The result lists each row of the bars once, adjusted, in the order of code and date. */
  ghost predicate IsAdjusted(bars: Bars, rows: seq<FactorRow>, adjust: string, result: Bars, perm: seq<nat>)
    requires WellFormed(bars)
  {
    && WellFormed(result) && |result.codes| == |bars.codes| && result.columns.Keys == bars.columns.Keys
    && SortedByCodeAndDate(result) && IsPermutation(perm, |bars.codes|)
    && forall i: nat :: i < |bars.codes| ==> perm[i] < |bars.codes| && RowAdjusted(bars, rows, adjust, result, i, perm[i])
  }

  /** The scaled rows in their final order; `perm` says where each came from. */
  method SortByCode(bars: Bars, rows: seq<FactorRow>, adjust: string, order: seq<nat>, scaled: Bars)
    returns (result: Bars, ghost perm: seq<nat>)
    requires WellFormed(bars) && IsPermutation(order, |bars.codes|)
    requires forall k :: 0 <= k < |order| ==> order[k] in order && order[k] < |bars.codes|
    requires SortedByDate(Arranged(bars, order)) && ScaledFrom(Arranged(bars, order), rows, adjust, scaled)
    ensures IsAdjusted(bars, rows, adjust, result, perm)
  {
    var n := |bars.codes|;
    var last := Order(n, ByCodeAndDate(scaled));
    OrderIsPermutation(n, ByCodeAndDate(scaled));
    ComposedIsPermutation(order, last, n);
    result := Arranged(scaled, last);
    perm := seq(n, (i: nat) requires i < n => order[last[i]]);
    ResultIsSorted(scaled, last);
    forall i: nat | i < n
      ensures perm[i] < n && RowAdjusted(bars, rows, adjust, result, i, perm[i])
    {
      RowIsAdjusted(bars, rows, adjust, order, scaled, last, i);
    }
  }

  /** Price columns times the ratios, the rest as it was. */
  ghost predicate ScaledFrom(dated: Bars, rows: seq<FactorRow>, adjust: string, scaled: Bars)
    requires WellFormed(dated)
  {
    var ratios := Ratios(dated.codes, Joined(dated, rows), adjust);
    && scaled.codes == dated.codes && scaled.dates == dated.dates && scaled.columns.Keys == dated.columns.Keys
    && (forall c :: c in dated.columns ==>
          scaled.columns[c] == if c in PRICES then Scaled(dated.columns[c], ratios) else dated.columns[c])
  }

  /** Sorts by date, joins, scales, and sorts by code and date. */
  method ApplyAdjustment(bars: Bars, rows: seq<FactorRow>, adjust: string) returns (r: Result, ghost perm: seq<nat>)
    requires WellFormed(bars)
    ensures r.ValueError? <==> adjust != "qfq" && adjust != "hfq"
    ensures r.FactorMissing? <==> (adjust == "qfq" || adjust == "hfq") && None in Joined(bars, rows)
    ensures r.Adjusted? && bars.codes == [] ==> r.bars == bars
    ensures r.Adjusted? && bars.codes != [] ==> IsAdjusted(bars, rows, adjust, r.bars, perm)
  {
    perm := [];
    if adjust != QFQ && adjust != HFQ {
      return ValueError, [];
    }
    if bars.codes == [] {
      return Adjusted(bars), [];
    }
    if Usable(rows) == [] {
      NothingUsable(rows, bars.codes[0]);
      assert Joined(bars, rows)[0] == None;
      return FactorMissing, [];
    }
    var order := Order(|bars.codes|, ByDate(bars));
    DatedIsSorted(bars, order);
    var dated := Arranged(bars, order);
    SameMissing(bars, order, rows);
    if None in Joined(dated, rows) {
      return FactorMissing, [];
    }
    var scaled := ScalePrices(dated, Ratios(dated.codes, Joined(dated, rows), adjust));
    var result;
    result, perm := SortByCode(bars, rows, adjust, order, scaled);
    r := Adjusted(result);
  }

  lemma SameMissing(bars: Bars, order: seq<nat>, rows: seq<FactorRow>)
    requires WellFormed(bars) && IsPermutation(order, |bars.codes|)
    requires forall k :: 0 <= k < |order| ==> order[k] < |bars.codes|
    ensures None in Joined(Arranged(bars, order), rows) <==> None in Joined(bars, rows)
  {
    var dated := Arranged(bars, order);
    if None in Joined(dated, rows) {
      var i :| 0 <= i < |order| && Joined(dated, rows)[i] == None;
      assert Joined(bars, rows)[order[i]] == None;
    }
    if None in Joined(bars, rows) {
      var j :| 0 <= j < |bars.codes| && Joined(bars, rows)[j] == None;
      assert j in order;
      var i :| 0 <= i < |order| && order[i] == j;
      assert Joined(dated, rows)[i] == None;
    }
  }

  lemma ResultIsSorted(scaled: Bars, last: seq<nat>)
    requires WellFormed(scaled) && last == Order(|scaled.codes|, ByCodeAndDate(scaled))
    requires forall k :: 0 <= k < |last| ==> last[k] < |scaled.codes|
    ensures SortedByCodeAndDate(Arranged(scaled, last))
  {
    OrdersAreWeak(scaled);
    OrderIsSorted(|scaled.codes|, ByCodeAndDate(scaled));
    forall i: nat, j: nat | i < j < |last|
      ensures !CodeThenDate(Arranged(scaled, last), j, i)
    {
      assert !ByCodeAndDate(scaled)(last[j], last[i]);
    }
  }

  lemma RowIsAdjusted(bars: Bars, rows: seq<FactorRow>, adjust: string, order: seq<nat>, scaled: Bars, last: seq<nat>, i: nat)
    requires WellFormed(bars) && IsPermutation(order, |bars.codes|) && i < |bars.codes|
    requires forall k :: 0 <= k < |order| ==> order[k] in order && order[k] < |bars.codes|
    requires SortedByDate(Arranged(bars, order))
    requires IsPermutation(last, |bars.codes|) && forall k :: 0 <= k < |last| ==> last[k] < |bars.codes|
    requires ScaledFrom(Arranged(bars, order), rows, adjust, scaled)
    ensures RowAdjusted(bars, rows, adjust, Arranged(scaled, last), i, order[last[i]])
  {
    var dated := Arranged(bars, order);
    var k := last[i];
    var ratio := Ratios(dated.codes, Joined(dated, rows), adjust)[k];
    LastFactorIsLatest(dated, rows, k);
    assert IsRatio(dated, rows, adjust, k, ratio);
    RatioOfArranged(bars, order, rows, adjust, k, ratio);
  }

  // ---------------------------------------------------------------- what adjusted prices mean

  lemma LatestAgree(bars: Bars, rows: seq<FactorRow>, i: nat, m: nat)
    requires WellFormed(bars) && i < |bars.codes| && m < |bars.codes| && bars.codes[i] == bars.codes[m]
    requires LatestOfCode(bars, i) && LatestOfCode(bars, m)
    ensures Joined(bars, rows)[i] == Joined(bars, rows)[m]
  {
    assert bars.dates[i] == bars.dates[m];
  }

  /** A row has one ratio, whichever of the latest rows of its code is taken. */
  lemma RatioIsUnique(bars: Bars, rows: seq<FactorRow>, adjust: string, i: nat, a: Option<real>, b: Option<real>)
    requires WellFormed(bars) && i < |bars.codes|
    requires IsRatio(bars, rows, adjust, i, a) && IsRatio(bars, rows, adjust, i, b)
    ensures a == b
  {
    var m: nat :| m < |bars.codes| && bars.codes[m] == bars.codes[i] && LatestOfCode(bars, m)
                  && a == Ratio(Joined(bars, rows)[i], Joined(bars, rows)[m], adjust);
    var n: nat :| n < |bars.codes| && bars.codes[n] == bars.codes[i] && LatestOfCode(bars, n)
                  && b == Ratio(Joined(bars, rows)[i], Joined(bars, rows)[n], adjust);
    LatestAgree(bars, rows, m, n);
  }

  /** The last bar of a code keeps its raw price under qfq. */
  lemma LastBarKeepsItsPrice(bars: Bars, rows: seq<FactorRow>, i: nat, ratio: Option<real>, price: Option<real>)
    requires WellFormed(bars) && i < |bars.codes| && LatestOfCode(bars, i) && IsRatio(bars, rows, QFQ, i, ratio)
    requires Joined(bars, rows)[i].Some? && Joined(bars, rows)[i].value != 0.0
    ensures Times(price, ratio) == price
  {
    var m: nat :| m < |bars.codes| && bars.codes[m] == bars.codes[i] && LatestOfCode(bars, m)
                  && ratio == Ratio(Joined(bars, rows)[i], Joined(bars, rows)[m], QFQ);
    LatestAgree(bars, rows, i, m);
    var f := Joined(bars, rows)[i].value;
    assert f / f == 1.0;
  }

  /** Per code qfq prices are hfq prices divided by one constant, the factor of the code's last bar. */
  lemma QfqIsHfqOverConstant(
    bars: Bars, rows: seq<FactorRow>, i: nat, m: nat, qfq: Option<real>, hfq: Option<real>, price: real)
    requires WellFormed(bars) && i < |bars.codes| && m < |bars.codes| && bars.codes[m] == bars.codes[i] && LatestOfCode(bars, m)
    requires IsRatio(bars, rows, QFQ, i, qfq) && IsRatio(bars, rows, HFQ, i, hfq)
    requires Joined(bars, rows)[i].Some? && Joined(bars, rows)[m].Some? && Joined(bars, rows)[m].value != 0.0
    ensures qfq.Some? && hfq.Some?
    ensures Times(Some(price), qfq).value == Times(Some(price), hfq).value / Joined(bars, rows)[m].value
  {
    RatioIs(bars, rows, QFQ, i, m, qfq);
    RatioIs(bars, rows, HFQ, i, m, hfq);
    PriceQuotient(price, Joined(bars, rows)[i], Joined(bars, rows)[m]);
  }

  lemma RatioIs(bars: Bars, rows: seq<FactorRow>, adjust: string, i: nat, m: nat, ratio: Option<real>)
    requires WellFormed(bars) && i < |bars.codes| && m < |bars.codes| && bars.codes[m] == bars.codes[i] && LatestOfCode(bars, m)
    requires IsRatio(bars, rows, adjust, i, ratio)
    ensures ratio == Ratio(Joined(bars, rows)[i], Joined(bars, rows)[m], adjust)
  {
    RatioIsUnique(bars, rows, adjust, i, ratio, Ratio(Joined(bars, rows)[i], Joined(bars, rows)[m], adjust));
  }

  lemma PriceQuotient(price: real, factor: Option<real>, latest: Option<real>)
    requires factor.Some? && latest.Some? && latest.value != 0.0
    ensures var qfq, hfq := Ratio(factor, latest, QFQ), Ratio(factor, latest, HFQ);
            qfq.Some? && hfq.Some? && Times(Some(price), qfq).value == Times(Some(price), hfq).value / latest.value
  {
    Quotient(price, factor.value, latest.value);
  }

  lemma Quotient(p: real, f: real, l: real)
    requires l != 0.0
    ensures p * (f / l) == (p * f) / l
  {
    assert (f / l) * l == f;
    assert ((p * f) / l) * l == p * f;
    assert (p * (f / l) - (p * f) / l) * l == 0.0;
  }

  // ---------------------------------------------------------------- the window is enough

  /** The table holds, for each of the codes, the windowed frame of its history. */
  ghost predicate Windowed(codes: seq<string>, rows: seq<FactorRow>, histories: string -> seq<Step>, start: int, end: int) {
    forall code :: code in codes ==> StepsOf(rows, code) == WindowFrame(histories(code), start, end)
  }

  /** The table holds, for each of the codes, its whole history behind a factor of one. */
  ghost predicate Whole(codes: seq<string>, rows: seq<FactorRow>, histories: string -> seq<Step>, first: int) {
    forall code :: code in codes ==> StepsOf(rows, code) == [Step(first, 1.0)] + histories(code)
  }

  /** Prices of the window's days are the same whether adjusted by the windowed frames or the whole histories. */
  lemma WindowGivesSameFactors(
    bars: Bars, rows: seq<FactorRow>, whole: seq<FactorRow>, histories: string -> seq<Step>, first: int, start: int, end: int)
    requires WellFormed(bars) && first <= start
    requires Windowed(bars.codes, rows, histories, start, end) && Whole(bars.codes, whole, histories, first)
    requires forall code :: Ascending(histories(code))
    requires forall day :: day in bars.dates ==> start <= day <= end
    ensures Joined(bars, rows) == Joined(bars, whole) && None !in Joined(bars, rows)
    ensures forall adjust, i: nat, ratio :: i < |bars.codes| ==>
              (IsRatio(bars, rows, adjust, i, ratio) <==> IsRatio(bars, whole, adjust, i, ratio))
  {
    forall i | 0 <= i < |bars.codes|
      ensures Joined(bars, rows)[i] == Joined(bars, whole)[i] && Joined(bars, rows)[i].Some?
    {
      var code, day := bars.codes[i], bars.dates[i];
      assert day in bars.dates;
      WindowAgreesWithHistory(histories(code), start, end, day);
      LookupBehind(Step(first, 1.0), histories(code), day);
    }
  }

  /** A bar before the window's start is exactly what makes adjustment by windowed frames fail. */
  lemma FailsExactlyBeforeStart(bars: Bars, rows: seq<FactorRow>, histories: string -> seq<Step>, start: int, end: int)
    requires WellFormed(bars) && Windowed(bars.codes, rows, histories, start, end)
    requires forall code :: Ascending(histories(code))
    ensures None in Joined(bars, rows) <==> exists day :: day in bars.dates && day < start
  {
    forall i | 0 <= i < |bars.codes|
      ensures Joined(bars, rows)[i].None? <==> bars.dates[i] < start
    {
      WindowAgreesWithHistory(histories(bars.codes[i]), start, end, bars.dates[i]);
    }
    if None in Joined(bars, rows) {
      var i :| 0 <= i < |bars.codes| && Joined(bars, rows)[i] == None;
      assert bars.dates[i] in bars.dates;
    }
    if day :| day in bars.dates && day < start {
      var i :| 0 <= i < |bars.dates| && bars.dates[i] == day;
      assert Joined(bars, rows)[i] == None;
    }
  }
}
