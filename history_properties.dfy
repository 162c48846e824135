/**
 * What the five records of `getPriceHistory` mean: each window holds the
 * cheapest of its newest samples (the nearest one on ties), the windows get
 * no dearer as they lengthen, and only the newest 360 samples matter.
 */
module HistoryProperties {
  import opened Options
  import opened PriceFormat
  import opened PriceHistory

  /** How many of the newest samples window `k` ranges over. */
  function WindowLength(series: seq<Sample>, k: nat): nat
    requires k < |Periods|
  {
    Min(Periods[k].days, Min(|series|, MaxSamples))
  }

  /** An empty series leaves every record as `periods.map` built it. */
  lemma EmptySeries(formatDate: int -> string)
    ensures forall k :: 0 <= k < |Periods| ==>
      History([], formatDate)[k] == Initial(k) &&
      History([], formatDate)[k].price == Infinity && History([], formatDate)[k].date == ""
  {
  }

  /** Entry 0 is the newest sample, taken verbatim, with difference "-". */
  lemma CurrentIsNewestSample(series: seq<Sample>, formatDate: int -> string)
    requires |series| > 0
    ensures var newest := series[|series| - 1];
            History(series, formatDate)[0] ==
              Lowest(Periods[0].name, None, Cents(newest.price), formatDate(newest.timestamp), Dash)
  {
    RecentIsNewestFirst(series);
  }

  /** Record `k` of the result is the scan's record `k` after the whole list. */
  lemma HistoryAt(series: seq<Sample>, formatDate: int -> string, k: nat)
    requires k < |Periods|
    ensures History(series, formatDate)[k] == EntryAfter(Recent(series), formatDate, |Recent(series)|, k)
  {
  }

  /** The scan's record of window `k` is its first minimum, or the initial record. */
  lemma ScannedWindowIsFirstMinimum(list: seq<Sample>, formatDate: int -> string, k: nat, n: nat)
    requires 1 <= k < |Periods| && n <= |list|
    ensures Min(n, Periods[k].days) == 0 ==> WindowAfter(list, formatDate, k, n) == Initial(k)
    ensures Min(n, Periods[k].days) > 0 ==>
      var w, m := WindowAfter(list, formatDate, k, n), Min(n, Periods[k].days);
      exists j :: 0 <= j < m &&
        w.price == Cents(list[j].price) && w.date == formatDate(list[j].timestamp) &&
        w.difference == CalculateDifference(list[0].price, list[j].price) &&
        (forall i :: 0 <= i < m ==> list[j].price <= list[i].price) &&
        (forall i :: 0 <= i < j ==> list[j].price < list[i].price)
  {
    var m := Min(n, Periods[k].days);
    if m > 0 {
      FirstMinIndexIsFirstMinimum(list, m);
      var j := FirstMinIndex(list, m);
      assert 0 <= j < m && WindowAfter(list, formatDate, k, n).price == Cents(list[j].price);
    }
  }

  /**
   * Window `k` holds the cheapest of the newest `WindowLength` samples, the
   * date of the nearest sample at that price, and the difference from the
   * current price; with no sample it stays at Infinity.
   */
  lemma WindowIsFirstMinimum(series: seq<Sample>, formatDate: int -> string, k: nat)
    requires 1 <= k < |Periods|
    ensures WindowLength(series, k) == 0 ==> History(series, formatDate)[k] == Initial(k)
    ensures WindowLength(series, k) > 0 ==>
      var list, w, n := Recent(series), History(series, formatDate)[k], WindowLength(series, k);
      exists j :: 0 <= j < n &&
        w.price == Cents(list[j].price) && w.date == formatDate(list[j].timestamp) &&
        w.difference == CalculateDifference(list[0].price, list[j].price) &&
        (forall i :: 0 <= i < n ==> list[j].price <= list[i].price) &&
        (forall i :: 0 <= i < j ==> list[j].price < list[i].price)
  {
    HistoryAt(series, formatDate, k);
    ScannedWindowIsFirstMinimum(Recent(series), formatDate, k, |Recent(series)|);
  }

  /** The price of a scanned window is the price of its first-minimum sample. */
  lemma ScannedWindowPrice(list: seq<Sample>, formatDate: int -> string, k: nat)
    requires 1 <= k < |Periods| && 0 < |list|
    ensures WindowAfter(list, formatDate, k, |list|).price ==
              Cents(list[FirstMinIndex(list, Min(|list|, Periods[k].days))].price)
  {
  }

  /** A longer scanned window is never dearer than a shorter one. */
  lemma ScannedWindowsNeverRise(list: seq<Sample>, formatDate: int -> string, k: nat, k': nat)
    requires 1 <= k < k' < |Periods|
    ensures AtMost(WindowAfter(list, formatDate, k', |list|).price, WindowAfter(list, formatDate, k, |list|).price)
  {
    if |list| > 0 {
      var d, d' := Periods[k].days, Periods[k'].days;
      PeriodsLengthen(k, k');
      PrefixMinimaNeverRise(list, Min(|list|, d), Min(|list|, d'));
      ScannedWindowPrice(list, formatDate, k);
      ScannedWindowPrice(list, formatDate, k');
    }
  }

  /** The windows are listed from the shortest to the longest. */
  lemma PeriodsLengthen(k: nat, k': nat)
    requires k < k' < |Periods|
    ensures Periods[k].days < Periods[k'].days
  {
  }

  /** The first minimum of a longer prefix is never dearer than that of a shorter one. */
  lemma PrefixMinimaNeverRise(list: seq<Sample>, m: nat, m': nat)
    requires 0 < m <= m' <= |list|
    ensures list[FirstMinIndex(list, m')].price <= list[FirstMinIndex(list, m)].price
  {
    FirstMinIndexIsFirstMinimum(list, m');
  }

  /** A scanned window is never dearer than the current price. */
  lemma ScannedWindowAtMostCurrent(list: seq<Sample>, formatDate: int -> string, k: nat)
    requires 1 <= k < |Periods|
    ensures AtMost(WindowAfter(list, formatDate, k, |list|).price, CurrentAfter(list, formatDate, |list|).price)
  {
    if |list| > 0 {
      ScannedWindowPrice(list, formatDate, k);
      FirstMinIndexIsFirstMinimum(list, Min(|list|, Periods[k].days));
    }
  }

  /** The window minima never go up as the window lengthens, and none is above the current price. */
  lemma WindowsNeverRise(series: seq<Sample>, formatDate: int -> string)
    ensures forall k, k' :: 1 <= k < k' < |Periods| ==>
      AtMost(History(series, formatDate)[k'].price, History(series, formatDate)[k].price)
    ensures forall k :: 1 <= k < |Periods| ==>
      AtMost(History(series, formatDate)[k].price, History(series, formatDate)[0].price)
  {
    var list := Recent(series);
    forall k, k' | 1 <= k < k' < |Periods|
      ensures AtMost(History(series, formatDate)[k'].price, History(series, formatDate)[k].price)
    {
      HistoryAt(series, formatDate, k);
      HistoryAt(series, formatDate, k');
      ScannedWindowsNeverRise(list, formatDate, k, k');
    }
    forall k | 1 <= k < |Periods|
      ensures AtMost(History(series, formatDate)[k].price, History(series, formatDate)[0].price)
    {
      HistoryAt(series, formatDate, 0);
      HistoryAt(series, formatDate, k);
      ScannedWindowAtMostCurrent(list, formatDate, k);
    }
  }

  /**
   * A window's difference is "-" exactly when its minimum equals the current
   * price; otherwise the minimum is lower and the difference starts with "↑".
   */
  lemma DifferenceAgainstCurrent(series: seq<Sample>, formatDate: int -> string, k: nat)
    requires 1 <= k < |Periods|
    ensures var h := History(series, formatDate);
            (h[k].difference == Dash <==> h[k].price == h[0].price) &&
            (h[k].difference != Dash ==> h[k].difference.Arrow() == "↑" && Less(h[k].price, h[0].price))
  {
    var list := Recent(series);
    HistoryAt(series, formatDate, 0);
    HistoryAt(series, formatDate, k);
    if |list| > 0 {
      FirstMinIndexIsFirstMinimum(list, Min(|list|, Periods[k].days));
    }
  }

  /** Samples older than the newest 360 are never looked at. */
  lemma OlderSamplesIgnored(older: seq<Sample>, series: seq<Sample>, formatDate: int -> string)
    requires |series| >= MaxSamples
    ensures History(older + series, formatDate) == History(series, formatDate)
  {
    ReverseAppend(older, series);
    assert Recent(older + series) == Recent(series);
  }

  /**
   * A worked example: newest-first prices 100, 90, 110 give a
   * current price of 100 and a minimum of 90, from the second sample, in
   * every longer window.
   */
  lemma ThreeSampleExample(formatDate: int -> string, t0: int, t1: int, t2: int)
    ensures var h := History([Sample(t2, 110), Sample(t1, 90), Sample(t0, 100)], formatDate);
            h[0].price == Cents(100) && h[0].date == formatDate(t0) &&
            forall k :: 1 <= k < |Periods| ==>
              h[k].price == Cents(90) && h[k].date == formatDate(t1) && h[k].difference == Change(true, 10)
  {
    var series := [Sample(t2, 110), Sample(t1, 90), Sample(t0, 100)];
    var list := Recent(series);
    RecentIsNewestFirst(series);
    assert list == [Sample(t0, 100), Sample(t1, 90), Sample(t2, 110)];
    assert FirstMinIndex(list, 3) == 1;
  }
}
