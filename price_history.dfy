/**
 * The window aggregator of jd_price.js (`getPriceHistory`): from a series of
 * (timestamp, price) samples, oldest first, it derives the current price and
 * the lowest price of the last 30, 90, 180 and 360 samples ("days").
 */
module PriceHistory {
  import opened Options
  import opened PriceFormat

  /** One parsed `[timestamp, price]` pair of the price-history payload. */
  datatype Sample = Sample(timestamp: int, price: int)

  /** A look-back window: how many of the newest samples it covers, and its label. */
  datatype Period = Period(days: nat, name: string)

  const Periods: seq<Period> := [
    Period(1, "当前价格"),
    Period(30, "三十天最低"),
    Period(90, "九十天最低"),
    Period(180, "半年最低"),
    Period(360, "一年最低")
  ]

  /** At most this many of the newest samples are looked at. */
  const MaxSamples: nat := 360

  /**
   * One of the five result records. `days` is None for the record that
   * replaces entry 0 at the first sample: that object literal has no `days`
   * field, and `index < undefined` is false.
   */
  datatype Lowest = Lowest(name: string, days: Option<nat>, price: Price, date: string, difference: Difference)

  function Min(a: int, b: int): (m: int) {
    if a < b then a else b
  }

  function Reverse<T>(s: seq<T>): (r: seq<T>)
    ensures |r| == |s|
  {
    if s == [] then [] else Reverse(s[1..]) + [s[0]]
  }

  lemma {:induction false} ReverseAt<T>(s: seq<T>, i: nat)
    requires i < |s|
    ensures Reverse(s)[i] == s[|s| - 1 - i]
  {
    if i < |s| - 1 {
      ReverseAt(s[1..], i);
    }
  }

  lemma {:induction false} ReverseAppend<T>(a: seq<T>, b: seq<T>)
    ensures Reverse(a + b) == Reverse(b) + Reverse(a)
  {
    if a == [] {
      assert a + b == b;
    } else {
      assert (a + b)[1..] == a[1..] + b;
      ReverseAppend(a[1..], b);
    }
  }

  /** `reverse().slice(0, 360)`: the newest samples first, at most 360 of them. */
  function Recent(series: seq<Sample>): (list: seq<Sample>)
    ensures |list| == Min(|series|, MaxSamples)
  {
    Reverse(series)[..Min(|series|, MaxSamples)]
  }

  /** Sample `i` of the list is the `i`-th newest sample of the series. */
  lemma RecentIsNewestFirst(series: seq<Sample>)
    ensures forall i :: 0 <= i < |Recent(series)| ==> Recent(series)[i] == series[|series| - 1 - i]
  {
    forall i | 0 <= i < |Recent(series)|
      ensures Recent(series)[i] == series[|series| - 1 - i]
    {
      ReverseAt(series, i);
    }
  }

  /** The record `periods.map` builds for window `k` before any sample is seen. */
  function Initial(k: nat): (w: Lowest)
    requires k < |Periods|
    ensures w.name == Periods[k].name && w.days == Some(Periods[k].days)
    ensures w.price == Infinity && w.date == "" && w.difference == Dash
  {
    Lowest(Periods[k].name, Some(Periods[k].days), Infinity, "", Dash)
  }

  /**
   * The index the strict running minimum settles on after the first `n`
   * samples: a later sample replaces it only when strictly cheaper.
   */
  function FirstMinIndex(list: seq<Sample>, n: nat): (j: nat)
    requires 0 < n <= |list|
    ensures j < n
    decreases n
  {
    if n == 1 then 0
    else
      var j := FirstMinIndex(list, n - 1);
      if list[n - 1].price < list[j].price then n - 1 else j
  }

  /** The running minimum is the cheapest of the first `n` samples, and the first such. */
  lemma {:induction false} FirstMinIndexIsFirstMinimum(list: seq<Sample>, n: nat)
    requires 0 < n <= |list|
    ensures forall i :: 0 <= i < n ==> list[FirstMinIndex(list, n)].price <= list[i].price
    ensures forall i :: 0 <= i < FirstMinIndex(list, n) ==> list[FirstMinIndex(list, n)].price < list[i].price
    decreases n
  {
    if n > 1 {
      FirstMinIndexIsFirstMinimum(list, n - 1);
    }
  }

  /** Window `k` (1 to 4) after the samples with index below `n` have been scanned. */
  function WindowAfter(list: seq<Sample>, formatDate: int -> string, k: nat, n: nat): (w: Lowest)
    requires 1 <= k < |Periods| && n <= |list|
    ensures w.name == Periods[k].name && w.days == Some(Periods[k].days)
  {
    var limit := Min(n, Periods[k].days);
    if limit == 0 then Initial(k)
    else
      var j := FirstMinIndex(list, limit);
      Initial(k).(price := Cents(list[j].price), date := formatDate(list[j].timestamp),
                  difference := CalculateDifference(list[0].price, list[j].price))
  }

  /** Entry 0 after `n` samples: the initial record, or sample 0 taken verbatim. */
  function CurrentAfter(list: seq<Sample>, formatDate: int -> string, n: nat): (w: Lowest)
    requires n <= |list|
    ensures w.name == Periods[0].name
  {
    if n == 0 then Initial(0)
    else Lowest(Periods[0].name, None, Cents(list[0].price), formatDate(list[0].timestamp), Dash)
  }

  /** Record `k` after the samples with index below `n` have been scanned. */
  function EntryAfter(list: seq<Sample>, formatDate: int -> string, n: nat, k: nat): (w: Lowest)
    requires k < |Periods| && n <= |list|
  {
    if k == 0 then CurrentAfter(list, formatDate, n) else WindowAfter(list, formatDate, k, n)
  }

  /** The five records `getPriceHistory` returns, as a function of the series. */
  function History(series: seq<Sample>, formatDate: int -> string): (h: seq<Lowest>)
    ensures |h| == |Periods|
    ensures forall k :: 0 <= k < |h| ==> h[k].name == Periods[k].name
  {
    var list := Recent(series);
    seq(|Periods|, k requires 0 <= k < |Periods| => EntryAfter(list, formatDate, |list|, k))
  }

  /** JavaScript's `index < lowest.days`, false when `days` is absent. */
  predicate Below(index: nat, days: Option<nat>) {
    days.Some? && index < days.value
  }

  /** One step of the inner `forEach`: scanning sample `i` moves window `k` from `i` to `i + 1` samples. */
  lemma WindowStep(list: seq<Sample>, formatDate: int -> string, k: nat, i: nat)
    requires 1 <= k < |Periods| && i < |list|
    ensures var w := WindowAfter(list, formatDate, k, i);
            WindowAfter(list, formatDate, k, i + 1) ==
              if Below(i, w.days) && Less(Cents(list[i].price), w.price)
              then w.(price := Cents(list[i].price), date := formatDate(list[i].timestamp),
                      difference := CalculateDifference(list[0].price, list[i].price))
              else w
  {
    if 0 < i < Periods[k].days {
      assert FirstMinIndex(list, i + 1) ==
        if list[i].price < list[FirstMinIndex(list, i)].price then i else FirstMinIndex(list, i);
    }
  }

  /** What the body of the inner `forEach` does to one record when it scans a sample. */
  function Scan(lowest: Lowest, index: nat, price: int, date: string, currentPrice: int): (r: Lowest)
    ensures AtMost(r.price, lowest.price)
  {
    if Below(index, lowest.days) && Less(Cents(price), lowest.price)
    then lowest.(price := Cents(price), date := date, difference := CalculateDifference(currentPrice, price))
    else lowest
  }

  /**
   * Scanning sample `index` leaves entry 0 (already replaced) alone and
   * advances each window by one sample.
   */
  lemma InnerStep(list: seq<Sample>, formatDate: int -> string, index: nat, k: nat, lowest: Lowest)
    requires index < |list| && k < |Periods|
    requires lowest == EntryAfter(list, formatDate, if k == 0 then index + 1 else index, k)
    ensures EntryAfter(list, formatDate, index + 1, k) ==
              Scan(lowest, index, list[index].price, formatDate(list[index].timestamp), list[0].price)
  {
    if k > 0 {
      WindowStep(list, formatDate, k, index);
    }
  }

  lemma HistoryOfEntries(series: seq<Sample>, formatDate: int -> string, h: seq<Lowest>)
    requires |h| == 5
    requires forall k :: 0 <= k < 5 ==> h[k] == EntryAfter(Recent(series), formatDate, |Recent(series)|, k)
    ensures h == History(series, formatDate)
  {
  }

  /**
   * `getPriceHistory` on an already-parsed series: reverse, keep 360, then
   * one pass over the samples that updates the five records in place.
   */
  method GetPriceHistory(series: seq<Sample>, formatDate: int -> string) returns (history: seq<Lowest>)
    ensures history == History(series, formatDate)
    ensures |history| == 5
    ensures forall k :: 0 <= k < 5 ==> history[k].name == Periods[k].name
  {
    var list := Recent(series);
    var lowestPrices := new Lowest[5](k requires 0 <= k < 5 => Initial(k));
    var currentPrice := 0;
    for index := 0 to |list|
      invariant index > 0 ==> currentPrice == list[0].price
      invariant forall k :: 0 <= k < 5 ==> lowestPrices[k] == EntryAfter(list, formatDate, index, k)
    {
      var price := list[index].price;
      var date := formatDate(list[index].timestamp);
      if index == 0 {
        currentPrice := price;
        lowestPrices[0] := Lowest(Periods[0].name, None, Cents(price), date, Dash);
      }
      ghost var before := lowestPrices[..];
      for k := 0 to 5
        invariant forall k' :: 0 <= k' < k ==> lowestPrices[k'] == Scan(before[k'], index, price, date, currentPrice)
        invariant forall k' :: k <= k' < 5 ==> lowestPrices[k'] == before[k']
      {
        var lowest := lowestPrices[k];
        if Below(index, lowest.days) && Less(Cents(price), lowest.price) {
          lowestPrices[k] := lowest.(price := Cents(price), date := date,
                                      difference := CalculateDifference(currentPrice, price));
        }
      }
      forall k | 0 <= k < 5
        ensures lowestPrices[k] == EntryAfter(list, formatDate, index + 1, k)
      {
        InnerStep(list, formatDate, index, k, before[k]);
      }
    }
    history := lowestPrices[..];
    HistoryOfEntries(series, formatDate, history);
  }
}
