# jd_price: price-history panel for JD product pages

`jd_price.js` is a proxy script for JD's mobile product pages. It takes the
product id from the request URL and builds the share URL that the
price-history service expects. It then turns the service's
`[timestamp, price]` series into five records: the current price and the
lowest price of the last 30, 90, 180 and 360 samples. It renders these
records as a table and splices the table into the page before `</body>`.

This project models that pipeline in Dafny and proves what it computes:

- `Options`: the optional value used for "no match" and "no field".
- `Text`: the ASCII digit class shared by the price text and the URL
  matcher.
- `PriceFormat`: prices in cents, with `Infinity` as the "no sample yet"
  sentinel. It also holds `getPriceClass`, the sentinel branch and the
  two-decimal text of `formatPrice` for whole cents, and the sign and amount of
  `calculateDifference`.
- `PriceHistory`: `getPriceHistory`. This is an imperative method: a
  `for` over the samples with a nested `for` over five records in a local
  array, updated in place. It is proved equal to the specification
  function `History`.
- `HistoryProperties`: what `History` means. Each window holds the
  cheapest of its samples, and the nearest such sample wins a tie. Windows
  never get dearer as they lengthen. The difference is "-" or starts with
  "↑". Samples older than the newest 360 are ignored.
- `PriceTable`: the row loop of `generatePriceHTML`. It builds one row
  per record, in order, and each row's colour agrees with its difference.
- `ShareUrl`: the leftmost match of `/product\/graphext\/(\d+)\.html/` and
  the share URL built from it.
- `ResponsePatch`: `body.replace('</body>', html + '</body>')`, with the
  `$` patterns of JavaScript's `String.prototype.replace`.

Prices are whole numbers of cents. `formatDate` is a parameter of type
`int -> string`, because it depends on the host's clock and time zone.

Two behaviours of the code are kept on purpose:

- A URL without a match makes line 17 throw a TypeError, because it reads
  `match[1]` on `null`. The script then never reaches `$done`.
  `ShareUrlOf` returns `None` for that case.
- The record that replaces entry 0 at the first sample has no `days`
  field. `index < undefined` is false, so entry 0 never changes after the
  first sample. The model writes this as `days == None`.

## Model

| member | source | states |
|---|---|---|
| `PriceFormat.GetPriceClass` | jd_price.js:187-190 | the class is `''` exactly when the two prices are equal, `'price-up'` exactly when the current price is higher, and `'price-down'` exactly when it is lower; Infinity is above every finite price |
| `PriceFormat.PriceClassSwap` | jd_price.js:187-190 | swapping the two prices swaps red and green and keeps neutral |
| `PriceFormat.FormatPrice` | jd_price.js:176-178 | the text is `'-'` exactly for the Infinity sentinel; a finite price gives `'¥'` followed by a text that reads back to that price |
| `PriceFormat.FormatPriceShape` | jd_price.js:177 | after the `'¥'`, a finite price's text has the `toFixed(2)` shape: optional minus sign, whole part without a leading zero, point, two digits, never `-0.00` |
| `PriceFormat.CentsText` | jd_price.js:177 | the text of `cents / 100` has at least four characters; its shape is stated by `CentsTextShape` and its value by `CentsTextRoundTrip` |
| `PriceFormat.CentsTextShape` | jd_price.js:177 | the text of any whole number of cents has the `toFixed(2)` shape |
| `PriceFormat.CentsTextRoundTrip` | jd_price.js:177 | the two-decimal text of a whole number of cents reads back to the same number |
| `PriceFormat.FormatPriceInjective` | jd_price.js:177 | distinct prices never share a price text |
| `PriceFormat.CalculateDifference` | jd_price.js:180-185 | `'-'` exactly when the prices are equal; otherwise the amount is the non-zero absolute difference, and the text starts with `↑` exactly when current > compare and with `↓` exactly when current < compare |
| `PriceFormat.ArrowMatchesClass` | jd_price.js:180-190 | for finite prices, the colour class and the difference's arrow agree: neutral with `'-'`, up with `↑`, down with `↓` |
| `PriceHistory.Recent` | jd_price.js:126 | the reversed and truncated list has min(length, 360) samples |
| `PriceHistory.RecentIsNewestFirst` | jd_price.js:126 | sample i of the list is the i-th newest sample of the series |
| `PriceHistory.Initial` | jd_price.js:137-143 | the record `periods.map` builds for window k: its label and `days`, price Infinity, date `''`, difference `'-'`; `EmptySeries` shows that all five stay so without samples |
| `PriceHistory.Scan` | jd_price.js:160-164 | one record after one inner step never has a higher price; `WindowStep` and `InnerStep` tie it to the windows |
| `PriceHistory.FirstMinIndex` | jd_price.js:159-165 | the index where the strict running minimum settles lies inside the scanned prefix |
| `PriceHistory.FirstMinIndexIsFirstMinimum` | jd_price.js:160-163 | that index holds the lowest price of the prefix, and every earlier sample is strictly dearer, so later equal prices never overwrite it |
| `HistoryProperties.PrefixMinimaNeverRise` | jd_price.js:159-165 | the running minimum over a longer prefix is never above the one over a shorter prefix |
| `HistoryProperties.PeriodsLengthen` | jd_price.js:129-135 | the five windows are listed from the shortest to the longest |
| `PriceHistory.WindowStep` | jd_price.js:159-165 | scanning one more sample: a window changes only when the index is inside it and the price is strictly lower, and then it takes that sample's price, date and difference |
| `PriceHistory.History` | jd_price.js:124-169 | the result always has five records, labelled 当前价格, 三十天最低, 九十天最低, 半年最低, 一年最低 in that order |
| `PriceHistory.GetPriceHistory` | jd_price.js:124-169 | the nested in-place loops produce exactly `History(series, formatDate)`: five records in label order |
| `HistoryProperties.EmptySeries` | jd_price.js:137-143 | an empty series leaves all five records at price Infinity, date `''` and difference `'-'` |
| `HistoryProperties.CurrentIsNewestSample` | jd_price.js:145-157 | for a non-empty series, entry 0 is the newest sample verbatim (price, formatted date) with difference `'-'`, and no later sample changes it |
| `HistoryProperties.WindowIsFirstMinimum` | jd_price.js:159-165 | each longer window holds the lowest price among the newest min(days, length, 360) samples, the date of the nearest sample at that price, and the difference from the current price; it stays at Infinity when no sample is in range |
| `HistoryProperties.WindowsNeverRise` | jd_price.js:129-165 | 30-day ≥ 90-day ≥ 180-day ≥ 360-day minimum, and none is above the current price |
| `HistoryProperties.DifferenceAgainstCurrent` | jd_price.js:159-165 | a window's difference is `'-'` exactly when its minimum equals the current price; otherwise the minimum is lower and the difference starts with `↑` |
| `HistoryProperties.OlderSamplesIgnored` | jd_price.js:126 | once the series has 360 samples, prepending older samples does not change the result |
| `HistoryProperties.ThreeSampleExample` | jd_price.js:124-169 | newest-first prices 100, 90, 110 give current price 100 and, in every longer window, 90 with the second sample's date and an upward difference of 10 |
| `HistoryProperties.ScannedWindowIsFirstMinimum` | jd_price.js:159-165 | after n samples, a window holds the first minimum of its prefix, or its initial record |
| `HistoryProperties.ScannedWindowsNeverRise` | jd_price.js:159-165 | after the scan, a longer window is never dearer than a shorter one |
| `HistoryProperties.ScannedWindowAtMostCurrent` | jd_price.js:149-165 | after the scan, no window is dearer than entry 0 |
| `PriceTable.RowOf` | jd_price.js:95-103 | a row carries the record's name, date and difference; its price text is `'-'` exactly for Infinity; its class is neutral exactly when the price equals the current price |
| `PriceTable.TableRows` | jd_price.js:93-104 | one row per record, in the records' order |
| `PriceTable.GeneratePriceRows` | jd_price.js:90-104 | the table has five rows in the fixed period order, coloured against record 0's price |
| `PriceTable.HistoryRows` | jd_price.js:90-104 | every row's colour agrees with its difference (neutral with `'-'`, red with `↑`), and no row is green |
| `ShareUrl.DigitRun` | jd_price.js:15 | the greedy `\d+` takes the longest run of ASCII digits |
| `ShareUrl.MatchAt` | jd_price.js:15 | a match at a position has a non-empty all-digit group and starts with `product/graphext/`; `MatchAtIff` gives both directions |
| `ShareUrl.MatchAtIff` | jd_price.js:15 | the pattern matches at a position with digit group d exactly when the text there is `product/graphext/<d>.html` with d a non-empty run of digits |
| `ShareUrl.MatchAtText` | jd_price.js:15 | the text `product/graphext/<d>.html` at a position, with d a non-empty run of digits, is a match there with digit group d |
| `ShareUrl.TextOfMatchAt` | jd_price.js:15 | a match at a position is the text `product/graphext/<d>.html` there, with d a non-empty run of digits |
| `ShareUrl.NoMarkerInHost` | jd_price.js:7 | no match starts inside the host part `https://in.m.jd.com/` |
| `ShareUrl.FirstMatch` | jd_price.js:16 | `url.match` finds the leftmost position where the pattern matches, or reports that none does |
| `ShareUrl.ShareUrlOf` | jd_price.js:15-17 | the share URL is `https://item.m.jd.com/product/<d>.html` for the digit group of the leftmost match, the one `url.match` returns; None (the TypeError of line 17) exactly when no position matches |
| `ShareUrl.TriggeredUrl` | jd_price.js:7-17 | for every URL the script is installed for (`https://in.m.jd.com/product/graphext/<digits>.html…`), the digit group is the product id and the share URL carries it |
| `ResponsePatch.IndexOf` | jd_price.js:215 | the first occurrence of the pattern at or after a position, or none |
| `ResponsePatch.Substitute` | jd_price.js:215 | the `$` expansion of a replacement text: a text without `$` comes out unchanged |
| `ResponsePatch.SubstituteEscapedDollar` | jd_price.js:215 | `$$` at the head of the replacement text becomes a single `$` |
| `ResponsePatch.Replace` | jd_price.js:215 | `replace` with a string pattern: the text is unchanged when the pattern does not occur; otherwise only the first occurrence is replaced, by the expanded replacement text |
| `ResponsePatch.ModifyResponse` | jd_price.js:213-215 | the patched body as the source computes it; a body without `</body>` is unchanged. `ModifyResponseInserts` and `DollarInFragment` relate it to the intended splice |
| `ResponsePatch.InsertBeforeBodyClose` | jd_price.js:213-217 | the fragment goes immediately before the first `</body>` and the rest of the body is kept; the body is unchanged when `</body>` is absent |
| `ResponsePatch.ModifyResponseInserts` | jd_price.js:215 | for a fragment without `$`, the source's `replace` is exactly that splice |
| `ResponsePatch.DollarInFragment` | jd_price.js:215 | with the fragment `$$`, the source's `replace` inserts `$`, not `$$` |

## Left out

- `request_history_price` (jd_price.js:192-211): the HTTP POST through the host's `$.post` and its Promise. This is network I/O.
- `$request`, `$response`, `$done`, `Env` and the `then`/`catch` flow (jd_price.js:13-14, 19-28, 216, 219). These belong to the host proxy. The `ok === 1 && single` test is part of that flow.
- `JSON.parse` of the payload and of `` `[${single.jiagequshiyh}]` `` (jd_price.js:125, 207). The aggregator takes an already-parsed `seq<Sample>`.
- `formatDate` (jd_price.js:171-174). It depends on `Date` and on the host's time zone, so it is a parameter.
- Floating point. Prices are whole cents, so `toFixed(2)` is modelled as exact two-decimal text. The rounding of prices that are not whole cents is not modelled, and neither is the exponent form `toFixed` uses at 10^21 and above.
- `PriceFormat.CalculateDifference`: the percentage `((diff / compare) * 100).toFixed(1)` and the text of the amount are not modelled. The result keeps the sign and the absolute amount. The percentage needs floating-point rounding, and it divides by zero when the historical price is 0. The code's percentage text also loses a trailing `.0`: `Math.abs` turns the string `"10.0"` into the number 10, so `calculateDifference(90, 100)` reads `"↓10.00(10%)"`.
- The CSS, the theme and the page template of `generatePriceHTML` (jd_price.js:31-88, 106-121), including the tip line. This is static markup.
- `PriceTable.TableRows`: the rows are values. The HTML text that each row's template appends to `tableRows` is not modelled.
- The `|| '-'` fallback at jd_price.js:91 depends on JavaScript truthiness. With a current price of 0 it would make `currentPrice` the string `'-'` and turn every row's class into `'price-down'`.
- `ResponsePatch.ModifyResponse`: the host call `$done({ body })` that follows the splice is not modelled.

## Findings

| source | as written | input that shows it | evidently intended | confidence | as-written member | corrected member |
|---|---|---|---|---|---|---|
| jd_price.js:215 | `body.replace('</body>', html + '</body>')` expands `$$`, `$&`, `` $` `` and `$'` in the replacement, so any `$` pattern in the fragment is rewritten. The tip text comes from the third-party service and can contain one. | body `</body>`, fragment `$$`: the result is `$</body>` | the fragment inserted verbatim before the first `</body>` | not executed; follows the ECMAScript rules for replacement patterns | `ResponsePatch.DollarInFragment` | `ResponsePatch.InsertBeforeBodyClose` |
