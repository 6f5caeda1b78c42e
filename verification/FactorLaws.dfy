/**
  What adjusted prices are, in terms of the factor table: each price times the factor in force on its
  day, over that of its code's last bar for qfq, and what makes an adjustment fail.
 */
module FactorLaws {
  import opened Options
  import opened Arrangement
  import opened Factors

  /** Some usable row of the code gives this factor, and none has a later day that is not past the asked one. */
  ghost predicate FactorOn(rows: seq<FactorRow>, code: string, day: int, factor: real) {
    exists date: int ::
      && HasRow(rows, code, date, factor) && date <= day
      && forall later: int, other: real :: HasRow(rows, code, later, other) && later <= day ==> later <= date
  }

  ghost predicate HasRow(rows: seq<FactorRow>, code: string, date: int, factor: real) {
    FactorRow(code, Some(date), Some(factor)) in rows
  }

  lemma ListedIsRow(rows: seq<FactorRow>, code: string, step: Step)
    ensures Listed(rows, code, step) <==> HasRow(rows, code, step.date, step.factor)
  {
    if HasRow(rows, code, step.date, step.factor) {
      assert StepRow(FactorRow(code, Some(step.date), Some(step.factor)), code, step);
    }
  }

  /** The join gives each bar the factor of its day; it gives none exactly when all usable rows of the code come later. */
  lemma JoinIs(bars: Bars, rows: seq<FactorRow>, i: nat)
    requires WellFormed(bars) && i < |bars.codes|
    ensures Joined(bars, rows)[i].Some? ==> FactorOn(rows, bars.codes[i], bars.dates[i], Joined(bars, rows)[i].value)
    ensures Joined(bars, rows)[i].None? <==>
              forall date: int, factor: real :: HasRow(rows, bars.codes[i], date, factor) ==> date > bars.dates[i]
  {
    var code, day := bars.codes[i], bars.dates[i];
    JoinFindsLatestRow(rows, code, day);
    forall date: int, factor: real
      ensures HasRow(rows, code, date, factor) <==> Listed(rows, code, Step(date, factor))
    {
      ListedIsRow(rows, code, Step(date, factor));
    }
    if Joined(bars, rows)[i].None? {
      forall date: int, factor: real | HasRow(rows, code, date, factor)
        ensures date > day
      {
        assert Listed(rows, code, Step(date, factor));
      }
    } else {
      var step :| Listed(rows, code, step) && step.date <= day && Lookup(StepsOf(rows, code), day) == Some(step.factor)
                  && forall other :: Listed(rows, code, other) && other.date <= day ==> other.date <= step.date;
      ListedIsRow(rows, code, step);
      forall later: int, other: real | HasRow(rows, code, later, other) && later <= day
        ensures later <= step.date
      {
        assert Listed(rows, code, Step(later, other));
      }
      assert HasRow(rows, code, step.date, step.factor);
    }
  }

  /** No usable row of the code is in force on the bar's day. */
  ghost predicate Uncovered(bars: Bars, rows: seq<FactorRow>, i: nat)
    requires WellFormed(bars) && i < |bars.codes|
  {
    forall date: int, factor: real :: HasRow(rows, bars.codes[i], date, factor) ==> date > bars.dates[i]
  }

  /** An adjustment of a known kind fails exactly when some bar has no factor in force. */
  lemma FailsExactlyWhenUncovered(bars: Bars, rows: seq<FactorRow>)
    requires WellFormed(bars)
    ensures None in Joined(bars, rows) <==> exists i: nat :: i < |bars.codes| && Uncovered(bars, rows, i)
  {
    forall i: nat | i < |bars.codes|
      ensures Joined(bars, rows)[i].None? <==> Uncovered(bars, rows, i)
    {
      JoinIs(bars, rows, i);
    }
    if None in Joined(bars, rows) {
      var i :| 0 <= i < |bars.codes| && Joined(bars, rows)[i] == None;
      assert Uncovered(bars, rows, i);
    }
    if i: nat :| i < |bars.codes| && Uncovered(bars, rows, i) {
      assert Joined(bars, rows)[i] == None;
    }
  }

  /** The bar is of its code's last day. */
  ghost predicate LastDay(bars: Bars, m: nat)
    requires WellFormed(bars) && m < |bars.codes|
  {
    forall j: nat :: j < |bars.codes| && bars.codes[j] == bars.codes[m] ==> bars.dates[j] <= bars.dates[m]
  }

  /** The price after adjustment by the factor of the day and that of the last day; none to divide by leaves no price. */
  predicate AdjustedPrice(adjusted: Option<real>, price: Option<real>, adjust: string, factor: real, latest: real) {
    if price == None || (adjust == "qfq" && latest == 0.0) then adjusted == None
    else adjusted.Some? && adjusted.value == (if adjust == "qfq" then price.value * (factor / latest) else price.value * factor)
  }

  lemma PriceIs(price: Option<real>, adjust: string, factor: real, latest: real)
    requires adjust == "qfq" || adjust == "hfq"
    ensures AdjustedPrice(Times(price, Ratio(Some(factor), Some(latest), adjust)), price, adjust, factor, latest)
  {
    var ratio := Ratio(Some(factor), Some(latest), adjust);
    if adjust == "qfq" {
      assert adjust[0] == 'q' && "hfq"[0] == 'h';
      assert latest != 0.0 ==> ratio.Some? && ratio.value == factor / latest;
    } else {
      assert adjust[0] == 'h' && "qfq"[0] == 'q';
      assert ratio.Some? && ratio.value == factor;
    }
  }

  /**
    Each row of the result is its row of the bars: open, high, low and close adjusted by the factor in force
    on its day, and, for qfq, by that of its code's last day; every other column as it was.
   */
  lemma RowsAreAdjusted(bars: Bars, rows: seq<FactorRow>, adjust: string, result: Bars, perm: seq<nat>, i: nat)
    returns (factor: real, latest: real, last: nat)
    requires WellFormed(bars) && IsAdjusted(bars, rows, adjust, result, perm) && i < |bars.codes|
    requires None !in Joined(bars, rows) && (adjust == "qfq" || adjust == "hfq")
    ensures perm[i] < |bars.codes| && result.codes[i] == bars.codes[perm[i]] && result.dates[i] == bars.dates[perm[i]]
    ensures FactorOn(rows, bars.codes[perm[i]], bars.dates[perm[i]], factor)
    ensures last < |bars.codes| && bars.codes[last] == bars.codes[perm[i]] && LastDay(bars, last)
    ensures FactorOn(rows, bars.codes[last], bars.dates[last], latest)
    ensures forall c :: c in bars.columns ==>
              if c in ["open", "high", "low", "close"]
              then AdjustedPrice(result.columns[c][i], bars.columns[c][perm[i]], adjust, factor, latest)
              else result.columns[c][i] == bars.columns[c][perm[i]]
  {
    var from := perm[i];
    assert RowAdjusted(bars, rows, adjust, result, i, from);
    var ratio :| IsRatio(bars, rows, adjust, from, ratio)
                 && forall c :: c in bars.columns ==>
                      result.columns[c][i] == if c in PRICES then Times(bars.columns[c][from], ratio) else bars.columns[c][from];
    last :| last < |bars.codes| && bars.codes[last] == bars.codes[from] && LatestOfCode(bars, last)
            && ratio == Ratio(Joined(bars, rows)[from], Joined(bars, rows)[last], adjust);
    JoinIs(bars, rows, from);
    JoinIs(bars, rows, last);
    assert Joined(bars, rows)[from] != None && Joined(bars, rows)[last] != None;
    factor, latest := Joined(bars, rows)[from].value, Joined(bars, rows)[last].value;
    forall c | c in bars.columns
      ensures AdjustedPrice(Times(bars.columns[c][from], ratio), bars.columns[c][from], adjust, factor, latest)
    {
      PriceIs(bars.columns[c][from], adjust, factor, latest);
    }
  }

  /** The result lists codes in the order of their texts, and each code's rows in the order of their days. */
  lemma ResultIsInOrder(result: Bars, i: nat, j: nat)
    requires WellFormed(result) && SortedByCodeAndDate(result) && i < j < |result.codes|
    ensures result.codes[i] == result.codes[j] ==> result.dates[i] <= result.dates[j]
    ensures result.codes[i] != result.codes[j] ==> exists k: nat :: DiffersBelow(result.codes[i], result.codes[j], k)
  {
    assert !CodeThenDate(result, j, i);
    if result.codes[i] != result.codes[j] {
      if !TextLess(result.codes[i], result.codes[j]) {
        SameText(result.codes[i], result.codes[j]);
      }
      TextLessIs(result.codes[i], result.codes[j]);
    }
  }
}
