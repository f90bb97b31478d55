/**
 * The current-price label of the order form and the two ways the page reads it back.
 * `updateCurrentPrice` writes the price with thousands separators; the order summary strips
 * every character but digits, "." and "-" before `parseFloat`, while the confirmation modal
 * strips only the "$" and so stops reading at the first comma.
 */
module PriceText {
  import opened Wrappers
  import opened DecimalText
  import opened OrderForm

  /** The digits of n in groups of three separated by commas, as `toLocaleString('en-US')` writes a whole number. */
  function Grouped(n: nat): string
    decreases n
  {
    if n < 1000 then Digits(n)
    else
      assert Pow10(3) == 1000;
      Grouped(n / 1000) + "," + PadDigits(n % 1000, 3)
  }

  /** The label `updateCurrentPrice` writes for a price of `cents` hundredths: "$", grouped whole part, two decimals. */
  function PriceLabel(cents: nat): string {
    assert Pow10(2) == 100;
    "$" + Grouped(cents / 100) + "." + PadDigits(cents % 100, 2)
  }

  /** The longest prefix of s made of decimal digits. */
  function LeadingDigits(s: string): (d: string)
    ensures AllDigits(d) && d <= s
    ensures |d| < |s| ==> !IsDigit(s[|d|])
  {
    if s == [] || !IsDigit(s[0]) then [] else [s[0]] + LeadingDigits(s[1..])
  }

  /**
   * JavaScript `parseFloat` on an unsigned decimal: the longest prefix of the form digits,
   * optionally followed by "." and more digits; NaN (None) when that prefix holds no digit.
   */
  function ParseFloat(s: string): (r: Option<real>)
    ensures r.None? ==> LeadingDigits(s) == []
  {
    var whole := LeadingDigits(s);
    var rest := s[|whole|..];
    var frac := if |rest| > 0 && rest[0] == '.' then LeadingDigits(rest[1..]) else [];
    if whole == [] && frac == [] then None else Some(DecimalValue(whole, frac))
  }

  /** The number spelled by a whole part and a fraction part of decimal digits. */
  function DecimalValue(whole: string, frac: string): real
    requires AllDigits(whole) && AllDigits(frac)
  {
    Value(whole) as real + Value(frac) as real / Pow10(|frac|) as real
  }

  /** JavaScript `s.replace(c, '')` with a one-character string pattern: only the first occurrence goes. */
  function RemoveFirst(s: string, c: char): (r: string)
    ensures c !in s ==> r == s
  {
    if s == [] then [] else if s[0] == c then s[1..] else [s[0]] + RemoveFirst(s[1..], c)
  }

  /** When c occurs, `RemoveFirst` drops its first occurrence and keeps everything else in order. */
  lemma RemoveFirstDropsFirst(s: string, c: char)
    requires c in s
    ensures exists i :: 0 <= i < |s| && s[i] == c && c !in s[..i] && RemoveFirst(s, c) == s[..i] + s[i + 1..]
  {
    var i := FirstIndex(s, c);
    RemoveFirstAt(s, c, i);
  }

  /** The position of the first c in s. */
  function FirstIndex(s: string, c: char): (i: nat)
    requires c in s
    ensures i < |s| && s[i] == c && c !in s[..i]
    decreases |s|
  {
    if s[0] == c then 0
    else
      assert s == [s[0]] + s[1..];
      var k := FirstIndex(s[1..], c);
      assert s[..k + 1] == [s[0]] + s[1..][..k];
      k + 1
  }

  /** Removing the first occurrence, when it stands at i. */
  lemma {:induction false} RemoveFirstAt(s: string, c: char, i: nat)
    requires i < |s| && s[i] == c && c !in s[..i]
    ensures RemoveFirst(s, c) == s[..i] + s[i + 1..]
    decreases i
  {
    if i > 0 {
      var t := s[1..];
      assert s[0] == s[..i][0];
      assert t[..i - 1] == s[1..i];
      assert c !in t[..i - 1] by {
        assert forall x :: x in s[1..i] ==> x in s[..i];
      }
      RemoveFirstAt(t, c, i - 1);
      assert s[..i] == [s[0]] + t[..i - 1];
      assert s[i + 1..] == t[i..];
    }
  }

  predicate IsNumeric(c: char) {
    IsDigit(c) || c == '.' || c == '-'
  }

  /** JavaScript `s.replace(/[^0-9.-]+/g, '')`: every character but digits, "." and "-" removed. */
  function KeepNumeric(s: string): (r: string)
    ensures |r| <= |s|
    ensures forall i :: 0 <= i < |r| ==> IsNumeric(r[i])
  {
    if s == [] then [] else (if IsNumeric(s[0]) then [s[0]] else []) + KeepNumeric(s[1..])
  }

  /** The modal's reading of the label, as written (script.js:409-410); the use-market-price button copies the same text into the price field (script.js:303-304). */
  function ModalReading(shown: string): Option<real> {
    ParseFloat(RemoveFirst(shown, '$'))
  }

  /** The summary's reading of the label (script.js:370-371), which the modal evidently meant to share. */
  function SummaryReading(shown: string): Option<real> {
    ParseFloat(KeepNumeric(shown))
  }

  /** The leftmost comma-separated group of n's digits. */
  function LeadingGroup(n: nat): (g: nat)
    ensures g < 1000 && g <= n
    ensures n >= 1000 ==> g < n / 1000 + 1
    decreases n
  {
    if n < 1000 then n else LeadingGroup(n / 1000)
  }

  lemma {:induction false} KeepNumericAppend(a: string, b: string)
    ensures KeepNumeric(a + b) == KeepNumeric(a) + KeepNumeric(b)
    decreases |a|
  {
    if a != [] {
      assert (a + b)[0] == a[0];
      assert (a + b)[1..] == a[1..] + b;
      KeepNumericAppend(a[1..], b);
    } else {
      assert a + b == b;
    }
  }

  /** Text made only of digits, '.' and '-' survives the replacement whole. */
  lemma {:induction false} KeepNumericOfNumeric(s: string)
    requires forall i :: 0 <= i < |s| ==> IsNumeric(s[i])
    ensures KeepNumeric(s) == s
    decreases |s|
  {
    if s != [] {
      KeepNumericOfNumeric(s[1..]);
      assert s == [s[0]] + s[1..];
    }
  }

  /** Text with no digit, '.' or '-' is removed entirely. */
  lemma {:induction false} KeepNumericOfOthers(s: string)
    requires forall i :: 0 <= i < |s| ==> !IsNumeric(s[i])
    ensures KeepNumeric(s) == []
    decreases |s|
  {
    if s != [] {
      KeepNumericOfOthers(s[1..]);
    }
  }


  /** The digits left once the commas of `Grouped(n)` are dropped spell n. */
  lemma {:induction false} GroupedDigitsValue(n: nat)
    ensures AllDigits(KeepNumeric(Grouped(n)))
    ensures Value(KeepNumeric(Grouped(n))) == n
    decreases n
  {
    if n < 1000 {
      KeepNumericOfNumeric(Digits(n));
      ValueOfDigits(n);
    } else {
      assert Pow10(3) == 1000;
      var head, group := Grouped(n / 1000), PadDigits(n % 1000, 3);
      assert Grouped(n) == head + (",") + group;
      KeepNumericAppend(head + ",", group);
      KeepNumericAppend(head, ",");
      assert KeepNumeric(",") == [];
      assert KeepNumeric(Grouped(n)) == KeepNumeric(head) + group by {
        KeepNumericOfNumeric(group);
      }
      GroupedDigitsValue(n / 1000);
      ValueAppend(KeepNumeric(head), group);
      ValueOfPadDigits(n % 1000, 3);
    }
  }

  lemma {:induction false} LeadingDigitsOf(d: string, rest: string)
    requires AllDigits(d)
    requires rest == [] || !IsDigit(rest[0])
    ensures LeadingDigits(d + rest) == d
    decreases |d|
  {
    if d == [] {
      assert d + rest == rest;
    } else {
      assert (d + rest)[0] == d[0];
      assert (d + rest)[1..] == d[1..] + rest;
      LeadingDigitsOf(d[1..], rest);
      assert d == [d[0]] + d[1..];
    }
  }

  /** `Grouped(n)` opens with the digits of its leading group, followed by a comma when there are more groups. */
  lemma {:induction false} GroupedHead(n: nat) returns (tail: string)
    ensures Grouped(n) == Digits(LeadingGroup(n)) + tail
    ensures n >= 1000 ==> |tail| > 0 && tail[0] == ','
    decreases n
  {
    if n < 1000 {
      tail := [];
      assert Grouped(n) == Digits(n) + tail;
    } else {
      assert Pow10(3) == 1000;
      var t := GroupedHead(n / 1000);
      var group := PadDigits(n % 1000, 3);
      tail := t + "," + group;
      assert Grouped(n) == Digits(LeadingGroup(n)) + t + "," + group;
    }
  }

  /** Dropping the "$" and the commas leaves the whole part's digits, the point and the two decimals. */
  lemma KeptLabel(cents: nat)
    ensures AllDigits(KeepNumeric(Grouped(cents / 100)))
    ensures Value(KeepNumeric(Grouped(cents / 100))) == cents / 100
    ensures KeepNumeric(PriceLabel(cents)) == KeepNumeric(Grouped(cents / 100)) + ("." + PadDigits(cents % 100, 2))
  {
    assert Pow10(2) == 100;
    var g, f := Grouped(cents / 100), PadDigits(cents % 100, 2);
    assert PriceLabel(cents) == "$" + g + "." + f;
    KeepNumericAppend("$" + g + ".", f);
    KeepNumericAppend("$" + g, ".");
    KeepNumericAppend("$", g);
    assert KeepNumeric("$") == [];
    assert KeepNumeric(".") == ".";
    KeepNumericOfNumeric(f);
    GroupedDigitsValue(cents / 100);
  }

  /** `parseFloat` of digits, a point and more digits is the decimal they spell. */
  lemma ParseWithFraction(d: string, f: string)
    requires AllDigits(d) && AllDigits(f) && f != []
    ensures ParseFloat(d + ("." + f)) == Some(DecimalValue(d, f))
  {
    var s := d + ("." + f);
    LeadingDigitsOf(d, "." + f);
    assert s[|d|..] == "." + f;
    assert ("." + f)[1..] == f + [];
    LeadingDigitsOf(f, []);
  }

  lemma CentsAsReal(cents: nat)
    ensures (cents / 100) as real + (cents % 100) as real / 100.0 == cents as real / 100.0
  {
    var n, m := cents / 100, cents % 100;
    assert cents == 100 * n + m;
    assert cents as real == 100.0 * n as real + m as real;
  }

  /** The whole part and two decimals of a price in hundredths spell that price. */
  lemma DecimalValueOfCents(d: string, f: string, cents: nat)
    requires AllDigits(d) && AllDigits(f) && |f| == 2
    requires Value(d) == cents / 100 && Value(f) == cents % 100
    ensures DecimalValue(d, f) == cents as real / 100.0
  {
    assert Pow10(2) == 100;
    CentsAsReal(cents);
  }

  /** The summary reads text whose numeric characters spell d "." f as that decimal. */
  lemma SummaryReadsDecimal(shown: string, d: string, f: string, v: real)
    requires AllDigits(d) && AllDigits(f) && f != []
    requires KeepNumeric(shown) == d + ("." + f) && DecimalValue(d, f) == v
    ensures SummaryReading(shown) == Some(v)
  {
    ParseWithFraction(d, f);
  }

  /** The summary reads every label back as the price it shows. */
  lemma SummaryReadsLabel(cents: nat)
    ensures SummaryReading(PriceLabel(cents)) == Some(cents as real / 100.0)
  {
    KeptLabel(cents);
    LabelDecimal(cents);
    SummaryReadsDecimal(PriceLabel(cents), KeepNumeric(Grouped(cents / 100)), PadDigits(cents % 100, 2), cents as real / 100.0);
  }

  /** The label's whole-part digits and two decimals spell the price. */
  lemma LabelDecimal(cents: nat)
    ensures AllDigits(KeepNumeric(Grouped(cents / 100))) && AllDigits(PadDigits(cents % 100, 2))
    ensures |PadDigits(cents % 100, 2)| == 2
    ensures DecimalValue(KeepNumeric(Grouped(cents / 100)), PadDigits(cents % 100, 2)) == cents as real / 100.0
  {
    assert Pow10(2) == 100;
    GroupedDigitsValue(cents / 100);
    ValueOfPadDigits(cents % 100, 2);
    DecimalValueOfCents(KeepNumeric(Grouped(cents / 100)), PadDigits(cents % 100, 2), cents);
  }

  /** `parseFloat` stops at a comma: digits followed by "," read as the digits alone. */
  lemma ParseStopsAtComma(d: string, rest: string)
    requires AllDigits(d) && d != []
    requires rest != [] && rest[0] == ','
    ensures ParseFloat(d + rest) == Some(Value(d) as real)
  {
    LeadingDigitsOf(d, rest);
    assert (d + rest)[|d|..] == rest;
    assert DecimalValue(d, []) == Value(d) as real;
  }

  /** Removing the first "$" of a label leaves the grouped whole part and what follows it. */
  lemma ModalText(cents: nat) returns (rest: string)
    requires cents / 100 >= 1000
    ensures RemoveFirst(PriceLabel(cents), '$') == Digits(LeadingGroup(cents / 100)) + rest
    ensures rest != [] && rest[0] == ','
  {
    var tail := GroupedHead(cents / 100);
    var lead := Digits(LeadingGroup(cents / 100));
    rest := tail + "." + PadDigits(cents % 100, 2);
    assert PriceLabel(cents) == "$" + (lead + rest);
    assert RemoveFirst("$" + (lead + rest), '$') == lead + rest;
  }

  /** From 1,000 on, the modal reads only the leading group of the whole part. */
  lemma ModalReadsLeadingGroup(cents: nat)
    requires cents / 100 >= 1000
    ensures ModalReading(PriceLabel(cents)) == Some(LeadingGroup(cents / 100) as real)
    ensures ModalReading(PriceLabel(cents)) != SummaryReading(PriceLabel(cents))
  {
    var g := LeadingGroup(cents / 100);
    var rest := ModalText(cents);
    ParseStopsAtComma(Digits(g), rest);
    ValueOfDigits(g);
    SummaryReadsLabel(cents);
    assert (g as real) < (cents / 100) as real <= cents as real / 100.0 by {
      CentsAsReal(cents);
    }
  }

  /** The Bitcoin price of the page, $45,230.50, reads as 45 in the modal and as 45230.5 in the summary. */
  lemma BitcoinPriceMisread(cents: nat)
    requires cents == 4523050
    ensures ModalReading(PriceLabel(cents)) == Some(45.0)
    ensures SummaryReading(PriceLabel(cents)) == Some(45230.5)
  {
    ModalReadsLeadingGroup(cents);
    assert LeadingGroup(cents / 100) == 45 by {
      assert cents / 100 == 45230;
      assert LeadingGroup(45230) == LeadingGroup(45);
    }
    SummaryReadsLabel(cents);
    assert cents as real / 100.0 == 45230.5;
  }

  /** The modal cost on the label as written: quantity times the misread price when no price is entered. */
  function ModalCostAsWritten(quantity: Option<real>, price: Option<real>, shown: string): Option<real> {
    ModalCost(quantity, price, ModalReading(shown))
  }

  /** The modal cost with the label read the way the summary reads it. */
  function ModalCostCorrected(quantity: Option<real>, price: Option<real>, shown: string): Option<real> {
    ModalCost(quantity, price, SummaryReading(shown))
  }

  /** With the corrected reading, a MARKET order with no price costs the same in the modal and in the summary. */
  lemma CorrectedModalMatchesSummary(q: real, cents: nat)
    ensures ModalCostCorrected(Some(q), None, PriceLabel(cents)) ==
            Some(SummaryCost("MARKET", Some(q), None, SummaryReading(PriceLabel(cents))))
  {
    var price := cents as real / 100.0;
    SummaryReadsLabel(cents);
    assert ModalCostCorrected(Some(q), None, PriceLabel(cents)) == ModalCost(Some(q), None, Some(price));
    SummaryAgreesWithModal("MARKET", q, None, price);
  }

  /** As written, the modal undercharges a MARKET order on $45,230.50 by a factor of about a thousand. */
  lemma ModalCostMisquotes(q: real, cents: nat)
    requires q != 0.0 && cents == 4523050
    ensures ModalCostAsWritten(Some(q), None, PriceLabel(cents)).value == q * 45.0
    ensures ModalCostAsWritten(Some(q), None, PriceLabel(cents)) != ModalCostCorrected(Some(q), None, PriceLabel(cents))
  {
    BitcoinPriceMisread(cents);
    assert ModalCostAsWritten(Some(q), None, PriceLabel(cents)).value == q * 45.0;
    assert ModalCostCorrected(Some(q), None, PriceLabel(cents)).value == q * 45230.5;
  }
}
