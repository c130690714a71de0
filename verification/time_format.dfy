/**
 * `Card.formatMinutes` (Card.js): a number of minutes shown as "HH:MM". The
 * hours are the whole hours in the count, the minutes what is left, each field
 * turned into its decimal string and left-padded with zeros to two characters.
 * From 100 hours on the hour string has three or more digits, the repeat count
 * is negative, and the call throws a RangeError.
 */
module TimeFormat {
  import opened Wrappers

  datatype Error = RangeError

  predicate IsDigit(c: char) { '0' <= c <= '9' }

  predicate AllDigits(s: string) { forall i :: 0 <= i < |s| ==> IsDigit(s[i]) }

  function DigitChar(d: nat): (c: char)
    requires d < 10
    ensures IsDigit(c) && c as int - '0' as int == d
  {
    (d + '0' as int) as char
  }

  function DigitValue(c: char): nat
    requires IsDigit(c)
  {
    c as int - '0' as int
  }

  /** `String(n)` for a non-negative integer: its decimal digits, without
      leading zeros. */
  function DecimalString(n: nat): (s: string)
    ensures |s| >= 1 && AllDigits(s)
    ensures |s| == 1 || s[0] != '0'
    decreases n
  {
    if n < 10 then [DigitChar(n)] else DecimalString(n / 10) + [DigitChar(n % 10)]
  }

  /** The number a string of decimal digits denotes (leading zeros allowed). */
  function ParseDecimal(s: string): nat
    requires AllDigits(s)
  {
    if s == [] then 0 else 10 * ParseDecimal(s[..|s| - 1]) + DigitValue(s[|s| - 1])
  }

  /** Decimal strings read back as the number they were made from. */
  lemma {:induction false} ParseDecimalString(n: nat)
    ensures ParseDecimal(DecimalString(n)) == n
    decreases n
  {
    if n >= 10 {
      var s := DecimalString(n);
      assert s[..|s| - 1] == DecimalString(n / 10);
      ParseDecimalString(n / 10);
    }
  }

  /** A number's decimal string has at most two characters exactly when the
      number is below 100. */
  lemma {:induction false} DecimalStringLength(n: nat)
    ensures |DecimalString(n)| <= 2 <==> n < 100
    decreases n
  {
    if n >= 10 {
      DecimalStringLength(n / 10);
    }
  }

  /** `c.repeat(count)` for a one-character string `c`: a negative count
      throws a RangeError. */
  function RepeatChar(c: char, count: int): (r: Result<string, Error>)
    ensures r.Failure? <==> count < 0
    ensures r.Success? ==> |r.value| == count && forall i :: 0 <= i < count ==> r.value[i] == c
    decreases if count < 0 then 0 else count
  {
    if count < 0 then Failure(RangeError)
    else if count == 0 then Success("")
    else Success([c] + RepeatChar(c, count - 1).value)
  }

  /** The padding applied to each field: as many '0's as the field falls short
      of two characters are put in front of it. A field of at most two
      characters comes out exactly two long; a longer one makes the repeat
      count negative, and the call throws. */
  function PadField(s: string): (r: Result<string, Error>)
    ensures r.Failure? <==> |s| > 2
    ensures r.Success? ==> |r.value| == 2 && r.value[2 - |s|..] == s
    ensures r.Success? ==> forall i :: 0 <= i < 2 - |s| ==> r.value[i] == '0'
  {
    var pad := RepeatChar('0', 2 - |s|);
    if pad.Failure? then Failure(pad.error) else Success(pad.value + s)
  }

  /** A number below 100, padded, is its two decimal digits. */
  lemma PadFieldDigits(n: nat)
    requires n < 100
    ensures PadField(DecimalString(n)) == Success([DigitChar(n / 10), DigitChar(n % 10)])
  {
    var s := DecimalString(n);
    if n < 10 {
      assert s == [DigitChar(n)];
      assert RepeatChar('0', 1).value == ['0'];
      assert PadField(s) == Success(['0'] + s);
      assert n / 10 == 0 && n % 10 == n && DigitChar(0) == '0';
      assert ['0'] + s == [DigitChar(n / 10), DigitChar(n % 10)];
    } else {
      assert s == DecimalString(n / 10) + [DigitChar(n % 10)];
      assert DecimalString(n / 10) == [DigitChar(n / 10)];
      assert s == [DigitChar(n / 10), DigitChar(n % 10)];
      assert RepeatChar('0', 0).value == [];
      assert PadField(s) == Success(s);
    }
  }

  /** Two digits read back as the number below 100 they were made from. */
  lemma ParseTwoDigits(n: nat)
    requires n < 100
    ensures ParseDecimal([DigitChar(n / 10), DigitChar(n % 10)]) == n
  {
    var t := [DigitChar(n / 10), DigitChar(n % 10)];
    assert t[..1] == [DigitChar(n / 10)];
    assert [DigitChar(n / 10)][..0] == [];
    assert ParseDecimal([DigitChar(n / 10)]) == n / 10;
  }

  function FormatMinutes(minutes: nat): (r: Result<string, Error>)
    ensures r.Failure? <==> minutes >= 6000
    ensures r.Success? ==> |r.value| == 5 && r.value[2] == ':'
    ensures r.Success? ==> AllDigits(r.value[..2]) && AllDigits(r.value[3..])
  {
    var hours := minutes / 60;
    var mins := minutes - hours * 60;
    DecimalStringLength(hours);
    DecimalStringLength(mins);
    var hh := PadField(DecimalString(hours));
    // the minute field, below 60, never throws
    var mm := PadField(DecimalString(mins));
    if hh.Failure? then Failure(hh.error)
    else
      var s := hh.value + ":" + mm.value;
      assert s[..2] == hh.value && s[3..] == mm.value;
      Success(s)
  }

  /** The hour string reaches three characters exactly from 6000 minutes
      (100 hours) on, which is what makes the padding throw. */
  lemma HourFieldTooLong(minutes: nat)
    ensures |DecimalString(minutes / 60)| >= 3 <==> minutes >= 6000
  {
    DecimalStringLength(minutes / 60);
  }

  /** Reads an "HH:MM" string back as minutes. */
  function ParseClock(s: string): Option<nat> {
    if |s| == 5 && s[2] == ':' && AllDigits(s[..2]) && AllDigits(s[3..])
    then Some(60 * ParseDecimal(s[..2]) + ParseDecimal(s[3..]))
    else None
  }

  /** Below 100 hours the two fields are the whole hours and the minutes left
      over (below 60), and reading the string back gives the input. */
  lemma FormatMinutesRoundTrip(minutes: nat)
    requires minutes < 6000
    ensures FormatMinutes(minutes).Success?
    ensures var s := FormatMinutes(minutes).value;
      && ParseDecimal(s[..2]) == minutes / 60
      && ParseDecimal(s[3..]) == minutes - 60 * (minutes / 60) < 60
      && ParseClock(s) == Some(minutes)
  {
    var hours := minutes / 60;
    var mins := minutes - hours * 60;
    PadFieldDigits(hours);
    PadFieldDigits(mins);
    var s := FormatMinutes(minutes).value;
    assert s[..2] == [DigitChar(hours / 10), DigitChar(hours % 10)];
    assert s[3..] == [DigitChar(mins / 10), DigitChar(mins % 10)];
    ParseTwoDigits(hours);
    ParseTwoDigits(mins);
  }

  /** Distinct inputs below 100 hours are shown differently. */
  lemma FormatMinutesInjective(a: nat, b: nat)
    requires a < 6000 && b < 6000 && FormatMinutes(a) == FormatMinutes(b)
    ensures a == b
  {
    FormatMinutesRoundTrip(a);
    FormatMinutesRoundTrip(b);
  }
}
