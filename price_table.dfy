/**
 * The row loop of `generatePriceHTML` in jd_price.js: one table row per
 * record of the price history, in order, coloured against the current price.
 */
module PriceTable {
  import opened PriceFormat
  import opened PriceHistory
  import HistoryProperties

  /** The four cells of a row and the class of its price and difference cells. */
  datatype Row = Row(name: string, date: string, priceText: string, priceClass: string, difference: Difference)

  /** The row the template string builds for one record. */
  function RowOf(currentPrice: Price, item: Lowest): (r: Row)
    ensures r.name == item.name && r.date == item.date && r.difference == item.difference
    ensures r.priceText == "-" <==> item.price == Infinity
    ensures r.priceClass == "" <==> item.price == currentPrice
  {
    Row(item.name, item.date, FormatPrice(item.price), GetPriceClass(currentPrice, item.price), item.difference)
  }

  /** `priceHistory.forEach(item => tableRows += ...)`: the rows, one per record, in order. */
  method TableRows(priceHistory: seq<Lowest>, currentPrice: Price) returns (tableRows: seq<Row>)
    ensures |tableRows| == |priceHistory|
    ensures forall i :: 0 <= i < |priceHistory| ==> tableRows[i] == RowOf(currentPrice, priceHistory[i])
  {
    tableRows := [];
    for i := 0 to |priceHistory|
      invariant |tableRows| == i
      invariant forall j :: 0 <= j < i ==> tableRows[j] == RowOf(currentPrice, priceHistory[j])
    {
      tableRows := tableRows + [RowOf(currentPrice, priceHistory[i])];
    }
  }

  /**
   * The table built from a price history has five rows in the fixed period
   * order. The colour of each row agrees with its difference: neutral with
   * "-", red with "↑", and no row is ever green.
   */
  lemma HistoryRows(series: seq<Sample>, formatDate: int -> string)
    ensures var h := History(series, formatDate);
            forall k :: 0 <= k < |Periods| ==>
              var r := RowOf(h[0].price, h[k]);
              r.name == Periods[k].name &&
              (r.priceClass == "" <==> r.difference == Dash) &&
              (r.priceClass == "price-up" <==> r.difference.Arrow() == "↑") &&
              r.priceClass != "price-down"
  {
    var h := History(series, formatDate);
    HistoryProperties.WindowsNeverRise(series, formatDate);
    forall k | 0 <= k < |Periods|
      ensures var r := RowOf(h[0].price, h[k]);
              (r.priceClass == "" <==> r.difference == Dash) &&
              (r.priceClass == "price-up" <==> r.difference.Arrow() == "↑") &&
              r.priceClass != "price-down"
    {
      if k == 0 {
        HistoryProperties.HistoryAt(series, formatDate, 0);
      } else {
        HistoryProperties.DifferenceAgainstCurrent(series, formatDate, k);
      }
    }
  }

  /**
   * The table part of `generatePriceHTML`: aggregate the series, take the
   * current price from record 0 and build the rows.
   */
  method GeneratePriceRows(series: seq<Sample>, formatDate: int -> string) returns (rows: seq<Row>)
    ensures |rows| == |Periods|
    ensures forall k :: 0 <= k < |Periods| ==> rows[k].name == Periods[k].name
    ensures forall k :: 0 <= k < |Periods| ==>
              rows[k] == RowOf(History(series, formatDate)[0].price, History(series, formatDate)[k])
  {
    var priceHistory := GetPriceHistory(series, formatDate);
    var currentPrice := priceHistory[0].price;
    rows := TableRows(priceHistory, currentPrice);
  }
}
