/**
 * Decimal rendering of hours, as JavaScript's template literals render a
 * non-negative integer (`${hour}`), and the reading back of a time-of-day
 * label such as "9:00" into minutes after midnight.
 */
module Decimal {
  import opened Results

  predicate IsDigit(c: char) {
    '0' <= c <= '9'
  }

  function DigitValue(c: char): (d: nat)
    requires IsDigit(c)
    ensures d < 10
  {
    c as int - '0' as int
  }

  function DigitChar(d: nat): (c: char)
    requires d < 10
    ensures IsDigit(c) && DigitValue(c) == d
  {
    (d + '0' as int) as char
  }

  /** The shortest decimal spelling of `n`, with no sign and no leading zero. */
  function Digits(n: nat): (s: string)
    ensures |s| >= 1
    ensures forall i :: 0 <= i < |s| ==> IsDigit(s[i])
    ensures s[0] == '0' ==> n == 0 && |s| == 1
    decreases n
  {
    if n < 10 then [DigitChar(n)] else Digits(n / 10) + [DigitChar(n % 10)]
  }

  /** Reads a non-empty string of decimal digits; anything else is `None`. */
  function ParseDigits(s: string): (r: Option<nat>)
    decreases |s|
  {
    if |s| == 0 || !IsDigit(s[|s| - 1]) then None
    else if |s| == 1 then Some(DigitValue(s[0]))
    else match ParseDigits(s[..|s| - 1])
      case None => None
      case Some(v) => Some(10 * v + DigitValue(s[|s| - 1]))
  }

  lemma {:induction false} DigitsRoundTrip(n: nat)
    ensures ParseDigits(Digits(n)) == Some(n)
    decreases n
  {
    if n >= 10 {
      var front := Digits(n / 10);
      var s := front + [DigitChar(n % 10)];
      assert s[..|s| - 1] == front;
      DigitsRoundTrip(n / 10);
    }
  }

  lemma DigitsInjective(m: nat, n: nat)
    requires Digits(m) == Digits(n)
    ensures m == n
  {
    DigitsRoundTrip(m);
    DigitsRoundTrip(n);
  }

  /** The label `${hour}:00` that both slot templates write for the start of an hour. */
  function ClockLabel(hour: nat): string {
    Digits(hour) + ":00"
  }

  /**
   * Minutes after midnight that a label "H:MM" (hour digits, a colon, two
   * minute digits) stands for; `None` when the label is not a time of day.
   * This is what a label means to a reader, whatever its hour's width.
   */
  function ParseClock(s: string): (r: Option<int>)
    ensures r.Some? ==> 0 <= r.value <= 24 * 60
  {
    if |s| < 4 || s[|s| - 3] != ':' then None
    else match (ParseDigits(s[..|s| - 3]), ParseDigits(s[|s| - 2..]))
      case (Some(h), Some(m)) =>
        if m < 60 && (h < 24 || (h == 24 && m == 0)) then Some(h * 60 + m) else None
      case _ => None
  }

  /** Two decimal digits read as the number they spell. */
  lemma ParseTwoDigits(s: string)
    requires |s| == 2 && IsDigit(s[0]) && IsDigit(s[1])
    ensures ParseDigits(s) == Some(10 * DigitValue(s[0]) + DigitValue(s[1]))
  {
    assert s[..1] == [s[0]];
  }

  /** A five-character label that reads as a time of day has the shape `HH:mm`. */
  lemma FiveCharClockShape(s: string)
    requires |s| == 5 && ParseClock(s).Some?
    ensures IsDigit(s[0]) && IsDigit(s[1]) && s[2] == ':' && IsDigit(s[3]) && IsDigit(s[4])
    ensures ParseClock(s).value == (10 * DigitValue(s[0]) + DigitValue(s[1])) * 60 + 10 * DigitValue(s[3]) + DigitValue(s[4])
  {
    var hh, mm := s[..2], s[3..];
    assert ParseDigits(hh).Some? && ParseDigits(mm).Some?;
    assert hh[..1] == [s[0]] && hh[1] == s[1];
    assert mm[..1] == [s[3]] && mm[1] == s[4];
    assert ParseDigits(hh[..1]).Some? && ParseDigits(mm[..1]).Some?;
    ParseTwoDigits(hh);
    ParseTwoDigits(mm);
  }

  /**
   * The time part of `${day}T${label}` as V8, the engine under Deno, reads it
   * into a Date. Among labels "H:MM", V8 accepts exactly those with a
   * two-digit hour; the others give an invalid Date (`None`). Longer time
   * parts (seconds, fractions, a zone suffix) are not modelled, because the
   * labels never carry them.
   */
  function ParseIsoTime(s: string): (r: Option<int>)
    ensures r.Some? ==>
      && |s| == 5 && IsDigit(s[0]) && IsDigit(s[1]) && s[2] == ':' && IsDigit(s[3]) && IsDigit(s[4])
      && r.value == (10 * DigitValue(s[0]) + DigitValue(s[1])) * 60 + 10 * DigitValue(s[3]) + DigitValue(s[4])
  {
    if |s| == 5 && ParseClock(s).Some? then
      FiveCharClockShape(s);
      ParseClock(s)
    else None
  }

  lemma ClockRoundTrip(hour: nat)
    requires hour <= 24
    ensures ParseClock(ClockLabel(hour)) == Some(hour * 60)
  {
    var s := ClockLabel(hour);
    assert s[..|s| - 3] == Digits(hour);
    assert s[|s| - 2..] == "00";
    assert "00"[..1] == "0";
    assert ParseDigits("00") == Some(0);
    DigitsRoundTrip(hour);
  }

  /**
   * The `${hour}:00` label is a valid date-time time part only from hour 10 on:
   * the single-digit hours 0 to 9 give an invalid Date.
   */
  lemma IsoTimeOfLabel(hour: nat)
    requires hour <= 24
    ensures ParseIsoTime(ClockLabel(hour)) == if hour < 10 then None else Some(hour * 60)
  {
    ClockRoundTrip(hour);
    if hour >= 10 {
      assert Digits(hour) == Digits(hour / 10) + [DigitChar(hour % 10)];
      assert |Digits(hour)| == 2;
    }
  }
}
