/**
 * The text the timer shows: integers rendered in decimal the way JavaScript's
 * `Number.prototype.toString()` renders integers, left padding as
 * `String.prototype.padStart(width, '0')` does it, JavaScript's truncating `%`
 * and the floor division of `Math.floor(a / b)`, and a parser for the
 * `minutes:seconds` text that both the timer face and the history table show.
 */
module Text {

  datatype Option<T> = None | Some(value: T)

  predicate IsDigit(c: char) {
    '0' <= c <= '9'
  }

  predicate AllDigits(s: string) {
    forall i :: 0 <= i < |s| ==> IsDigit(s[i])
  }

  function DigitValue(c: char): (d: nat)
    requires IsDigit(c)
    ensures d < 10
  {
    c as int - '0' as int
  }

  function DigitChar(d: nat): (c: char)
    requires d < 10
    ensures IsDigit(c) && DigitValue(c) == d
  {
    ('0' as int + d) as char
  }

  /** Decimal digits of `n` without leading zeros, as `n.toString()` gives them. */
  function NatToDecimal(n: nat): (s: string)
    ensures AllDigits(s)
    ensures |s| >= 1
    ensures (n < 10) == (|s| == 1)
    ensures n < 100 ==> |s| <= 2
    ensures |s| > 1 ==> s[0] != '0'
    decreases n
  {
    if n < 10 then [DigitChar(n)] else NatToDecimal(n / 10) + [DigitChar(n % 10)]
  }

  /** The number a string of decimal digits denotes; leading zeros are allowed. */
  function DecimalValue(s: string): nat
    requires AllDigits(s)
  {
    if s == [] then 0 else DecimalValue(s[..|s| - 1]) * 10 + DigitValue(s[|s| - 1])
  }

  lemma {:induction false} DecimalRoundTrip(n: nat)
    ensures DecimalValue(NatToDecimal(n)) == n
  {
    if n >= 10 {
      var s := NatToDecimal(n / 10);
      var t := s + [DigitChar(n % 10)];
      assert t[..|t| - 1] == s;
      DecimalRoundTrip(n / 10);
    }
  }

  /** A leading '0' does not change the number a digit string denotes. */
  lemma {:induction false} LeadingZero(s: string)
    requires AllDigits(s)
    ensures AllDigits(['0'] + s) && DecimalValue(['0'] + s) == DecimalValue(s)
  {
    var t := ['0'] + s;
    if s != [] {
      assert t[..|t| - 1] == ['0'] + s[..|s| - 1];
      LeadingZero(s[..|s| - 1]);
    }
  }

  /** `s.padStart(width, '0')`: left padding with '0' up to `width` characters; a longer `s` is kept whole. */
  function PadStart(s: string, width: nat): (r: string)
    ensures |r| == if |s| >= width then |s| else width
    ensures r[|r| - |s|..] == s
    ensures forall i :: 0 <= i < |r| - |s| ==> r[i] == '0'
    decreases width - |s|
  {
    if |s| >= width then s
    else
      var r := PadStart(['0'] + s, width);
      assert r[|r| - |s|..] == r[|r| - |s| - 1..][1..];
      r
  }

  lemma {:induction false} PadStartValue(s: string, width: nat)
    requires AllDigits(s)
    ensures AllDigits(PadStart(s, width))
    ensures DecimalValue(PadStart(s, width)) == DecimalValue(s)
    decreases width - |s|
  {
    if |s| < width {
      LeadingZero(s);
      PadStartValue(['0'] + s, width);
    }
  }

  /** `i.toString()` for an integer `i`: a '-' in front of the digits of a negative number. */
  function IntToDecimal(i: int): (s: string)
    ensures i >= 0 ==> s == NatToDecimal(i)
    ensures i < 0 ==> |s| >= 2 && s[0] == '-' && s[1..] == NatToDecimal(-i)
  {
    if i < 0 then "-" + NatToDecimal(-i) else NatToDecimal(i)
  }

  /** `i.toString().padStart(2, '0')`, the field format of the clock texts. */
  function PadTwo(i: int): (s: string)
    ensures |s| >= 2
    ensures i >= 0 ==> AllDigits(s) && DecimalValue(s) == i
    ensures 0 <= i < 100 ==> |s| == 2
  {
    if i >= 0 then
      PaddedDecimal(i, 2);
      PadStart(NatToDecimal(i), 2)
    else
      PadStart(IntToDecimal(i), 2)
  }

  /** JavaScript's `a % 60`: truncated, so the remainder takes the sign of `a`. */
  function JsRem60(a: int): (r: int)
    ensures a >= 0 ==> 0 <= r < 60
    ensures a < 0 ==> -60 < r <= 0
    ensures (a - r) % 60 == 0
  {
    if a >= 0 then a % 60 else -((-a) % 60)
  }

  /** `Math.floor(a / b)` for a positive divisor. */
  function FloorDiv(a: int, b: int): (q: int)
    requires b > 0
    ensures q * b <= a < q * b + b
  {
    a / b
  }

  /**
   * Reads back a `minutes:seconds` text: one or more digits, a ':', then exactly two
   * digits denoting less than 60 (the first of them at most '5'). Yields the
   * number of seconds it denotes.
   */
  function ParseClock(t: string): Option<int>
  {
    if && |t| >= 4 && t[|t| - 3] == ':' && AllDigits(t[..|t| - 3]) && AllDigits(t[|t| - 2..])
       && t[|t| - 2] <= '5'
    then
      Some(DecimalValue(t[..|t| - 3]) * 60 + DecimalValue(t[|t| - 2..]))
    else
      None
  }

  /** Digits denoting `m`, a ':' and two digits denoting `sec` below 60 read back as `m * 60 + sec`. */
  lemma ParseClockParts(mt: string, st: string, m: nat, sec: nat)
    requires AllDigits(mt) && AllDigits(st) && |mt| >= 1 && |st| == 2
    requires DecimalValue(mt) == m && DecimalValue(st) == sec && sec < 60
    ensures ParseClock(mt + ":" + st) == Some(m * 60 + sec)
  {
    var t := mt + ":" + st;
    assert t[..|t| - 3] == mt;
    assert t[|t| - 2..] == st;
    TwoDigits(st);
  }

  /** Two digits denote less than 60 exactly when the first is at most '5'. */
  lemma TwoDigits(st: string)
    requires AllDigits(st) && |st| == 2
    ensures DecimalValue(st) == DigitValue(st[0]) * 10 + DigitValue(st[1])
    ensures DecimalValue(st) < 60 <==> st[0] <= '5'
  {
    var hi := st[..1];
    assert hi[..0] == [] && hi[0] == st[0];
    assert DecimalValue(hi) == DigitValue(st[0]);
    assert st[..|st| - 1] == hi;
  }

  /** Two two-character fields around a ':' are found again at positions 0-1 and 3-4. */
  lemma ClockFields(mt: string, st: string)
    requires |mt| == 2 && |st| == 2
    ensures |mt + ":" + st| == 5 && (mt + ":" + st)[2] == ':'
    ensures (mt + ":" + st)[..2] == mt && (mt + ":" + st)[3..] == st
  {
    var t := mt + ":" + st;
    assert t[..2] == mt;
    assert t[3..] == st;
  }

  /** The zero-padded decimal text of `n` is a non-empty digit string that still denotes `n`. */
  lemma PaddedDecimal(n: nat, width: nat)
    ensures AllDigits(PadStart(NatToDecimal(n), width))
    ensures |PadStart(NatToDecimal(n), width)| >= 1
    ensures DecimalValue(PadStart(NatToDecimal(n), width)) == n
  {
    PadStartValue(NatToDecimal(n), width);
    DecimalRoundTrip(n);
  }
}
