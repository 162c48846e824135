/**
 * Prices and their presentation in the price-history table of jd_price.js:
 * the Infinity sentinel, the three-way colour class, the "¥" price text and
 * the sign of a price difference.
 */
module PriceFormat {
  import opened Text

  /** A price in cents, or the `Infinity` a window holds until some sample qualifies. */
  datatype Price = Cents(value: int) | Infinity

  /** JavaScript's `<` on two prices, where every finite price is below Infinity. */
  predicate Less(a: Price, b: Price) {
    match a
    case Infinity => false
    case Cents(x) => b.Infinity? || x < b.value
  }

  /** `a <= b` for prices. */
  predicate AtMost(a: Price, b: Price) {
    a == b || Less(a, b)
  }

  // ---------------------------------------------------------------------------
  // getPriceClass

  /**
   * The CSS class of a table cell: neutral when the row's price equals the
   * current price, red when the current price is above it, green otherwise.
   */
  function GetPriceClass(current: Price, compare: Price): (r: string)
    ensures r == "" <==> current == compare
    ensures r == "price-up" <==> Less(compare, current)
    ensures r == "price-down" <==> Less(current, compare)
  {
    if current == compare then ""
    else if Less(compare, current) then "price-up"
    else "price-down"
  }

  /** Swapping the two prices swaps the red and green classes. */
  lemma PriceClassSwap(a: Price, b: Price)
    ensures GetPriceClass(a, b) == "price-up" <==> GetPriceClass(b, a) == "price-down"
    ensures GetPriceClass(a, b) == "" <==> GetPriceClass(b, a) == ""
  {
  }

  // ---------------------------------------------------------------------------
  // Decimal text of a price (the `toFixed(2)` of a whole number of cents)

  function Abs(x: int): (r: nat) {
    if x < 0 then -x else x
  }

  function DigitChar(d: nat): (c: char)
    requires d < 10
    ensures IsDigit(c)
  {
    ('0' as int + d) as char
  }

  function DigitValue(c: char): nat {
    if IsDigit(c) then (c as int - '0' as int) as nat else 0
  }

  /** The decimal digits of `n`, without leading zeros ("0" for zero). */
  function NatText(n: nat): (s: string)
    ensures |s| > 0 && IsDigit(s[0])
    decreases n
  {
    if n < 10 then [DigitChar(n)] else NatText(n / 10) + [DigitChar(n % 10)]
  }

  /** The number a string of decimal digits denotes. */
  function NatValue(s: string): (n: nat)
    decreases |s|
  {
    if s == [] then 0 else NatValue(s[..|s| - 1]) * 10 + DigitValue(s[|s| - 1])
  }

  /** The text of `n` is all digits, one of them exactly when `n < 10`, and starts with `0` only for zero. */
  lemma {:induction false} NatTextDigits(n: nat)
    ensures AllDigits(NatText(n))
    ensures |NatText(n)| == 1 <==> n < 10
    ensures n > 0 ==> NatText(n)[0] != '0'
    decreases n
  {
    if n >= 10 {
      NatTextDigits(n / 10);
      assert NatText(n)[0] == NatText(n / 10)[0];
    }
  }

  lemma {:induction false} NatTextRoundTrip(n: nat)
    ensures NatValue(NatText(n)) == n
    decreases n
  {
    var s := NatText(n);
    if n < 10 {
      assert s[..|s| - 1] == [];
    } else {
      assert s[..|s| - 1] == NatText(n / 10);
      NatTextRoundTrip(n / 10);
    }
  }

  /**
   * The shape `toFixed(2)` gives a number: an optional minus sign, the whole
   * part in digits without a leading zero, a point and two digits; never
   * a negative zero.
   */
  predicate TwoDecimalText(s: string) {
    var negative := |s| > 0 && s[0] == '-';
    var t := if negative then s[1..] else s;
    |t| >= 4 && t[|t| - 3] == '.' && IsDigit(t[|t| - 2]) && IsDigit(t[|t| - 1]) &&
    AllDigits(t[..|t| - 3]) && (|t| > 4 ==> t[0] != '0') && (negative ==> t != "0.00")
  }

  /** `cents / 100` written with exactly two decimals, as `toFixed(2)` renders it. */
  function CentsText(c: int): (s: string)
    ensures |s| >= 4
  {
    var m := Abs(c);
    (if c < 0 then "-" else "") + NatText(m / 100) + "." + [DigitChar(m % 100 / 10), DigitChar(m % 10)]
  }

  /** Reads back a text of the shape CentsText produces. */
  function ReadCents(s: string): (c: int) {
    var negative := |s| > 0 && s[0] == '-';
    var t := if negative then s[1..] else s;
    if |t| < 4 then 0
    else
      var m := NatValue(t[..|t| - 3]) * 100 + DigitValue(t[|t| - 2]) * 10 + DigitValue(t[|t| - 1]);
      if negative then -m else m
  }

  lemma DigitRoundTrip(d: nat)
    requires d < 10
    ensures DigitValue(DigitChar(d)) == d
  {
  }

  lemma SplitCents(m: nat)
    ensures (m / 100) * 100 + (m % 100 / 10) * 10 + m % 10 == m
  {
    var q, r := m / 100, m % 100;
    assert m == q * 100 + r;
    assert r == (r / 10) * 10 + r % 10;
    assert r % 10 == m % 10 by {
      assert m == (q * 10 + r / 10) * 10 + r % 10;
    }
  }

  /** The two-decimal text of `c`, after its sign: whole part, point, two digits. */
  lemma CentsTextUnsigned(c: int, t: string)
    requires t == NatText(Abs(c) / 100) + "." + [DigitChar(Abs(c) % 100 / 10), DigitChar(Abs(c) % 10)]
    ensures |t| >= 4 && NatValue(t[..|t| - 3]) * 100 + DigitValue(t[|t| - 2]) * 10 + DigitValue(t[|t| - 1]) == Abs(c)
  {
    var m := Abs(c);
    assert t[..|t| - 3] == NatText(m / 100);
    NatTextRoundTrip(m / 100);
    DigitRoundTrip(m % 100 / 10);
    DigitRoundTrip(m % 10);
    SplitCents(m);
  }

  /** The text of whole cents has the shape `toFixed(2)` gives. */
  lemma CentsTextShape(c: int)
    ensures TwoDecimalText(CentsText(c))
  {
    var m := Abs(c);
    var digits := NatText(m / 100);
    var t := digits + "." + [DigitChar(m % 100 / 10), DigitChar(m % 10)];
    NatTextDigits(m / 100);
    assert t[..|t| - 3] == digits;
    assert t[0] == digits[0];
    if c < 0 {
      assert t != "0.00" by {
        if t == "0.00" {
          assert digits == "0";
          assert t[|t| - 2] == DigitChar(m % 100 / 10) && t[|t| - 1] == DigitChar(m % 10);
          DigitRoundTrip(m % 100 / 10);
          DigitRoundTrip(m % 10);
          SplitCents(m);
        }
      }
      assert CentsText(c) == "-" + t;
      assert CentsText(c)[1..] == t;
    } else {
      assert CentsText(c) == t;
    }
  }

  lemma CentsTextRoundTrip(c: int)
    ensures ReadCents(CentsText(c)) == c
  {
    var m := Abs(c);
    var digits := NatText(m / 100);
    var t := digits + "." + [DigitChar(m % 100 / 10), DigitChar(m % 10)];
    CentsTextUnsigned(c, t);
    if c < 0 {
      assert CentsText(c) == "-" + t;
      assert CentsText(c)[1..] == t;
    } else {
      assert CentsText(c) == t;
      assert t[0] == digits[0];
    }
  }

  // ---------------------------------------------------------------------------
  // formatPrice

  /**
   * The text of a price cell: "-" for the Infinity sentinel, otherwise "¥"
   * followed by the two-decimal amount.
   */
  function FormatPrice(p: Price): (r: string)
    ensures r == "-" <==> p == Infinity
    ensures p.Cents? ==> |r| > 1 && r[0] == '¥' && ReadCents(r[1..]) == p.value
  {
    match p
    case Infinity => "-"
    case Cents(v) =>
      CentsTextRoundTrip(v);
      assert ("¥" + CentsText(v))[1..] == CentsText(v);
      "¥" + CentsText(v)
  }

  /** After the "¥", a finite price's text has the two-decimal shape of `toFixed(2)`. */
  lemma FormatPriceShape(p: Price)
    requires p.Cents?
    ensures TwoDecimalText(FormatPrice(p)[1..])
  {
    CentsTextShape(p.value);
    assert FormatPrice(p)[1..] == CentsText(p.value);
  }

  /** Two cells with the same price text show the same price. */
  lemma FormatPriceInjective(a: Price, b: Price)
    requires FormatPrice(a) == FormatPrice(b)
    ensures a == b
  {
  }

  // ---------------------------------------------------------------------------
  // calculateDifference

  /**
   * A difference cell: "-" when the two prices are equal, otherwise an arrow
   * (up when the current price is the higher one) and the absolute amount.
   */
  datatype Difference = Dash | Change(rising: bool, amount: nat) {
    /** The text a difference cell starts with. */
    function Arrow(): string {
      match this
      case Dash => "-"
      case Change(up, _) => if up then "↑" else "↓"
    }
  }

  function CalculateDifference(current: int, compare: int): (d: Difference)
    ensures d == Dash <==> current == compare
    ensures d.Change? ==> d.amount == Abs(current - compare) && d.amount > 0
    ensures d.Arrow() == "↑" <==> current > compare
    ensures d.Arrow() == "↓" <==> current < compare
  {
    if current == compare then Dash
    else
      var diff := current - compare;
      Change(diff > 0, Abs(diff))
  }

  /** The arrow of a difference agrees with the colour class of the same comparison. */
  lemma ArrowMatchesClass(current: int, compare: int)
    ensures GetPriceClass(Cents(current), Cents(compare)) == "" <==> CalculateDifference(current, compare) == Dash
    ensures GetPriceClass(Cents(current), Cents(compare)) == "price-up" <==> CalculateDifference(current, compare).Arrow() == "↑"
    ensures GetPriceClass(Cents(current), Cents(compare)) == "price-down" <==> CalculateDifference(current, compare).Arrow() == "↓"
  {
  }
}
