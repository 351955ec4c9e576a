/**
 * Decimal text of Kotlin integers, `String.padStart`, `Int.zeroPadStart` and the
 * time sentence built by `currentTimeAt` (App.kt). The clock read and the
 * time-zone conversion are not modelled: the local wall-clock time enters as a
 * `LocalTime` value.
 */
module TimeFormat {
  import opened Wrappers

  /** Kotlin's `Int`: a 32-bit two's-complement integer. */
  newtype Int32 = x: int | -0x8000_0000 <= x < 0x8000_0000

  predicate IsDigit(c: char) { '0' <= c <= '9' }

  predicate AllDigits(s: string) { forall i :: 0 <= i < |s| ==> IsDigit(s[i]) }

  function DigitValue(c: char): (d: nat)
    requires IsDigit(c)
    ensures d < 10
  {
    c as int - '0' as int
  }

  function DigitChar(d: nat): (c: char)
    requires d < 10
    ensures IsDigit(c) && DigitValue(c) == d
  {
    (d + '0' as int) as char
  }

  /** The value of a string of decimal digits, most significant digit first. */
  function DigitsValue(s: string): nat
    requires AllDigits(s)
  {
    if s == [] then 0 else 10 * DigitsValue(s[..|s| - 1]) + DigitValue(s[|s| - 1])
  }

  /** Reads a non-empty string of decimal digits (leading zeros allowed); anything else is rejected. */
  function ParseNat(s: string): Option<nat>
  {
    if s != [] && AllDigits(s) then Some(DigitsValue(s)) else None
  }

  /** Reads what Kotlin's `Int.toString` writes: an optional '-' and then digits. */
  function ParseInt(s: string): Option<int>
  {
    if s != [] && s[0] == '-' then
      match ParseNat(s[1..])
      case Some(n) => Some(0 - n)
      case None => None
    else
      match ParseNat(s)
      case Some(n) => Some(n)
      case None => None
  }

  /** Decimal text of a natural number: digits only, no leading zero. */
  function NatToString(n: nat): (r: string)
    ensures r != [] && AllDigits(r)
    ensures |r| == 1 <==> n < 10
    ensures r[0] == '0' <==> n == 0
  {
    if n < 10 then [DigitChar(n)] else NatToString(n / 10) + [DigitChar(n % 10)]
  }

  lemma {:induction false} NatToStringRoundTrip(n: nat)
    ensures ParseNat(NatToString(n)) == Some(n)
  {
    var r := NatToString(n);
    if n < 10 {
      assert r[..0] == [];
    } else {
      NatToStringRoundTrip(n / 10);
      assert r[..|r| - 1] == NatToString(n / 10);
      assert r[|r| - 1] == DigitChar(n % 10);
      assert DigitsValue(r) == 10 * (n / 10) + n % 10;
    }
  }

  /** Kotlin's `Int.toString()`: a '-' in front of the magnitude for negative values. */
  function IntToString(n: Int32): string
  {
    if n < 0 then "-" + NatToString(-(n as int)) else NatToString(n as int)
  }

  /** Every Int's text reads back as that Int, and negative values are exactly those written with '-'. */
  lemma IntToStringRoundTrip(n: Int32)
    ensures ParseInt(IntToString(n)) == Some(n as int)
    ensures IntToString(n)[0] == '-' <==> n < 0
  {
    var r := IntToString(n);
    if n < 0 {
      NatToStringRoundTrip(-(n as int));
      assert r[1..] == NatToString(-(n as int));
    } else {
      NatToStringRoundTrip(n as int);
    }
  }

  /** The text of an Int is shorter than two characters exactly for the values 0 to 9. */
  lemma IntToStringShort(n: Int32)
    ensures |IntToString(n)| < 2 <==> 0 <= n <= 9
  {
  }

  function Repeat(c: char, k: nat): (r: string)
    ensures |r| == k
    ensures forall i :: 0 <= i < k ==> r[i] == c
  {
    if k == 0 then [] else [c] + Repeat(c, k - 1)
  }

  /**
   * Kotlin's `String.padStart(length, padChar)`: a string at least `length` long comes
   * back as it is; a shorter one gets `padChar` in front until it is `length` long.
   */
  function PadStart(s: string, length: nat, padChar: char): (r: string)
    ensures |r| == if |s| < length then length else |s|
    ensures r[|r| - |s|..] == s
    ensures forall i :: 0 <= i < |r| - |s| ==> r[i] == padChar
  {
    if length <= |s| then s else Repeat(padChar, length - |s|) + s
  }

  /** `Int.zeroPadStart()`: the decimal text of `n`, padded on the left with '0' to two characters. */
  function ZeroPadStart(n: Int32): string
  {
    PadStart(IntToString(n), 2, '0')
  }

  /** A single digit gets one leading zero. */
  lemma ZeroPadOneDigit(n: Int32)
    requires 0 <= n <= 9
    ensures ZeroPadStart(n) == ['0', DigitChar(n as nat)]
  {
  }

  /** Two-digit values are written as they are. */
  lemma ZeroPadTwoDigits(n: Int32)
    requires 10 <= n <= 99
    ensures ZeroPadStart(n) == IntToString(n) == [DigitChar(n as nat / 10), DigitChar(n as nat % 10)]
  {
    assert NatToString(n as nat / 10) == [DigitChar(n as nat / 10)];
  }

  /** Padding never truncates: the text is unchanged exactly when it already has two or more characters. */
  lemma ZeroPadUnchanged(n: Int32)
    ensures ZeroPadStart(n) == IntToString(n) <==> (n < 0 || n >= 10)
  {
    IntToStringShort(n);
    if 0 <= n <= 9 {
      ZeroPadOneDigit(n);
      assert |ZeroPadStart(n)| != |IntToString(n)|;
    }
  }

  lemma ZeroPadNegativeFive()
    ensures ZeroPadStart(-5) == "-5"
  {
  }

  /** Two digits read back as tens and units. */
  lemma ParseTwoDigits(a: char, b: char)
    requires IsDigit(a) && IsDigit(b)
    ensures ParseNat([a, b]) == Some(10 * DigitValue(a) + DigitValue(b))
  {
    var s := [a, b];
    assert s[..1] == [a] && s[..1][..0] == [];
    assert DigitsValue(s[..1]) == DigitValue(a);
    assert DigitsValue(s) == 10 * DigitsValue(s[..1]) + DigitValue(b);
  }

  /** For 0 to 99 the padded text is two digits that read back as the value. */
  lemma ZeroPadRoundTrip(n: Int32)
    requires 0 <= n <= 99
    ensures |ZeroPadStart(n)| == 2 && AllDigits(ZeroPadStart(n))
    ensures ParseNat(ZeroPadStart(n)) == Some(n as nat)
  {
    if n <= 9 {
      ZeroPadOneDigit(n);
      ParseTwoDigits('0', DigitChar(n as nat));
    } else {
      ZeroPadTwoDigits(n);
      ParseTwoDigits(DigitChar(n as nat / 10), DigitChar(n as nat % 10));
    }
  }

  /** The fields of kotlinx-datetime's `LocalTime` that `currentTimeAt` reads. */
  datatype LocalTime = LocalTime(hour: Int32, minute: Int32, second: Int32)

  /** The ranges a wall-clock time has: hour 0-23, minute and second 0-59. */
  predicate InRange(t: LocalTime)
  {
    0 <= t.hour <= 23 && 0 <= t.minute <= 59 && 0 <= t.second <= 59
  }

  /** The "HH:MM:SS" part of the sentence. */
  function ClockText(t: LocalTime): string
  {
    ZeroPadStart(t.hour) + ":" + ZeroPadStart(t.minute) + ":" + ZeroPadStart(t.second)
  }

  /**
   * `currentTimeAt(location, zone)` with the local time in `zone` given as `time`:
   * "The time in {location} is HH:MM:SS".
   */
  function CurrentTimeAt(location: string, time: LocalTime): string
  {
    "The time in " + location + " is " + ClockText(time)
  }

  /** Eight characters, ':' at offsets 2 and 5 and a digit everywhere else. */
  predicate ClockShape(c: string)
  {
    |c| == 8 && c[2] == ':' && c[5] == ':' &&
    forall i :: 0 <= i < 8 && i != 2 && i != 5 ==> IsDigit(c[i])
  }

  /** Reads "HH:MM:SS" back into a wall-clock time; anything else is rejected. */
  function ReadClock(c: string): Option<LocalTime>
  {
    if |c| != 8 || c[2] != ':' || c[5] != ':' then None
    else
      match (ParseNat(c[..2]), ParseNat(c[3..5]), ParseNat(c[6..]))
      case (Some(h), Some(m), Some(s)) =>
        if h <= 23 && m <= 59 && s <= 59 then Some(LocalTime(h as Int32, m as Int32, s as Int32)) else None
      case _ => None
  }

  /** What a reader of the label learns from it: the location and the displayed time. */
  datatype Reading = Reading(location: string, time: LocalTime)

  /** Reads a sentence "The time in {location} is HH:MM:SS" back; anything else is rejected. */
  function ReadTimeText(t: string): Option<Reading>
  {
    if |t| < 24 || t[..12] != "The time in " || t[|t| - 12..|t| - 8] != " is " then None
    else
      match ReadClock(t[|t| - 8..])
      case Some(clock) => Some(Reading(t[12..|t| - 12], clock))
      case None => None
  }

  /** Where the three fields and the two colons of "aa:bb:cc" sit. */
  lemma ClockSlices(a: string, b: string, c: string)
    requires |a| == 2 && |b| == 2 && |c| == 2
    ensures var r := a + ":" + b + ":" + c;
      |r| == 8 && r[..2] == a && r[2] == ':' && r[3..5] == b && r[5] == ':' && r[6..] == c
  {
    var ab := a + ":" + b;
    var r := ab + ":" + c;
    assert r[..5] == ab && r[6..] == c;
    assert ab[..2] == a && ab[3..] == b;
  }

  /** Three two-digit fields joined by colons read back as the time whose fields they spell. */
  lemma ReadClockOfFields(a: string, b: string, c: string, t: LocalTime)
    requires |a| == 2 && |b| == 2 && |c| == 2
    requires AllDigits(a) && AllDigits(b) && AllDigits(c)
    requires InRange(t)
    requires ParseNat(a) == Some(t.hour as nat) && ParseNat(b) == Some(t.minute as nat)
    requires ParseNat(c) == Some(t.second as nat)
    ensures ClockShape(a + ":" + b + ":" + c)
    ensures ReadClock(a + ":" + b + ":" + c) == Some(t)
  {
    ClockSlices(a, b, c);
    var r := a + ":" + b + ":" + c;
    assert forall i :: 0 <= i < 2 ==> r[i] == a[i] && r[3 + i] == b[i] && r[6 + i] == c[i];
  }

  /** For an in-range time the clock part has the HH:MM:SS shape and reads back as that time. */
  lemma ClockTextRoundTrip(t: LocalTime)
    requires InRange(t)
    ensures ClockShape(ClockText(t))
    ensures ReadClock(ClockText(t)) == Some(t)
  {
    ZeroPadRoundTrip(t.hour);
    ZeroPadRoundTrip(t.minute);
    ZeroPadRoundTrip(t.second);
    ReadClockOfFields(ZeroPadStart(t.hour), ZeroPadStart(t.minute), ZeroPadStart(t.second), t);
  }

  /** Where the parts of "The time in {location} is {clock}" sit. */
  lemma SentenceSlices(location: string, clock: string)
    ensures var r := "The time in " + location + " is " + clock;
      |r| == |location| + 16 + |clock| &&
      r[..12] == "The time in " &&
      r[12..12 + |location|] == location &&
      r[12 + |location|..16 + |location|] == " is " &&
      r[16 + |location|..] == clock
  {
    var a := "The time in " + location;
    var b := a + " is ";
    var r := b + clock;
    assert r[..|b|] == b && r[|b|..] == clock;
    assert b[..|a|] == a && b[|a|..] == " is ";
    assert a[..12] == "The time in " && a[12..] == location;
  }

  /** Layout of the sentence: fixed prefix, the location verbatim, " is ", and an HH:MM:SS clock. */
  lemma CurrentTimeAtLayout(location: string, time: LocalTime)
    requires InRange(time)
    ensures var r := CurrentTimeAt(location, time);
      |r| == |location| + 24 &&
      r[..12] == "The time in " &&
      r[12..12 + |location|] == location &&
      r[12 + |location|..16 + |location|] == " is " &&
      ClockShape(r[16 + |location|..])
  {
    ClockTextRoundTrip(time);
    SentenceSlices(location, ClockText(time));
  }

  /** The sentence reads back as the location and time it was built from. */
  lemma CurrentTimeAtRoundTrip(location: string, time: LocalTime)
    requires InRange(time)
    ensures ReadTimeText(CurrentTimeAt(location, time)) == Some(Reading(location, time))
  {
    var r := CurrentTimeAt(location, time);
    CurrentTimeAtLayout(location, time);
    ClockTextRoundTrip(time);
    assert r[|r| - 8..] == ClockText(time);
    assert r[12..|r| - 12] == location;
  }

  /** Different locations or times never give the same sentence. */
  lemma CurrentTimeAtInjective(l1: string, t1: LocalTime, l2: string, t2: LocalTime)
    requires InRange(t1) && InRange(t2)
    requires CurrentTimeAt(l1, t1) == CurrentTimeAt(l2, t2)
    ensures l1 == l2 && t1 == t2
  {
    CurrentTimeAtRoundTrip(l1, t1);
    CurrentTimeAtRoundTrip(l2, t2);
  }

  /** Midnight is written "00:00:00". */
  lemma MidnightText(location: string)
    ensures CurrentTimeAt(location, LocalTime(0, 0, 0)) == "The time in " + location + " is 00:00:00"
  {
  }

  /** Single-digit fields keep their leading zero: 03:07:09, not 3:7:9. */
  lemma LeadingZerosKept(location: string)
    ensures CurrentTimeAt(location, LocalTime(3, 7, 9)) == "The time in " + location + " is 03:07:09"
  {
  }
}
