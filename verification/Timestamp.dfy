/** Instants as the serializer prints them: RFC 3339 in UTC with the shortest exact fraction. */
module Timestamp {
  import opened Common
  import opened Decimal

  /** A civil instant. `second` may be 60 in a leap second. */
  datatype DateTime = DateTime(year: int, month: nat, day: nat, hour: nat, minute: nat, second: nat, nanos: nat)

  predicate IsLeap(year: int) {
    year % 4 == 0 && (year % 100 != 0 || year % 400 == 0)
  }

  function DaysIn(year: int, month: nat): nat {
    if month == 2 then (if IsLeap(year) then 29 else 28)
    else if month in {4, 6, 9, 11} then 30
    else 31
  }

  predicate Valid(d: DateTime) {
    && 1 <= d.month <= 12 && 1 <= d.day <= DaysIn(d.year, d.month)
    && d.hour < 24 && d.minute < 60 && d.second <= 60 && d.nanos < 1_000_000_000
  }

  // ----- Fixed-width numbers ---------------------------------------------------------------------

  function Fixed(n: nat, width: nat): (s: string)
    ensures |s| == width && AllDigits(s)
  {
    if width == 0 then [] else Fixed(n / 10, width - 1) + [Digit(n % 10)]
  }

  function Pow10(n: nat): nat {
    if n == 0 then 1 else 10 * Pow10(n - 1)
  }

  lemma {:induction false} ValueOfFixed(n: nat, width: nat)
    requires n < Pow10(width)
    ensures Value(Fixed(n, width)) == n
  {
    if width > 0 {
      ValueOfFixed(n / 10, width - 1);
      assert Fixed(n, width)[..width - 1] == Fixed(n / 10, width - 1);
    }
  }

  lemma FixedInjective(a: nat, b: nat, width: nat)
    requires a < Pow10(width) && b < Pow10(width) && Fixed(a, width) == Fixed(b, width)
    ensures a == b
  {
    ValueOfFixed(a, width);
    ValueOfFixed(b, width);
  }

  /** At least four digits. */
  function Padded(n: nat): (s: string)
    ensures AllDigits(s) && |s| >= 1
  {
    if n < 10_000 then Fixed(n, 4) else Digits(n)
  }

  lemma ValueOfPadded(n: nat)
    ensures Value(Padded(n)) == n
  {
    if n < 10_000 {
      assert Pow10(4) == 10_000;
      ValueOfFixed(n, 4);
    } else {
      ValueOfDigits(n);
    }
  }

  // ----- The text --------------------------------------------------------------------------------

  function YearText(year: int): (s: string)
    ensures forall i :: 0 <= i < |s| ==> IsDigit(s[i]) || s[i] in "+-"
  {
    if 0 <= year < 10_000 then Fixed(year, 4)
    else if year >= 0 then ['+'] + Padded(year)
    else ['-'] + Padded(-year)
  }

  function MonthDayText(d: DateTime): (s: string)
    ensures |s| == 6
  {
    ['-'] + Fixed(d.month, 2) + ['-'] + Fixed(d.day, 2)
  }

  function DateText(d: DateTime): string {
    YearText(d.year) + MonthDayText(d)
  }

  /** Hours, minutes and seconds with a separator between them. */
  function ClockText(d: DateTime, separator: char): (s: string)
    ensures |s| == 8
  {
    Fixed(d.hour, 2) + [separator] + Fixed(d.minute, 2) + [separator] + Fixed(d.second, 2)
  }

  function FractionText(nanos: nat): string {
    if nanos == 0 then []
    else if nanos % 1_000_000 == 0 then ['.'] + Fixed(nanos / 1_000_000, 3)
    else if nanos % 1_000 == 0 then ['.'] + Fixed(nanos / 1_000, 6)
    else ['.'] + Fixed(nanos, 9)
  }

  function InstantText(d: DateTime): string {
    DateText(d) + ['T'] + (ClockText(d, ':') + (FractionText(d.nanos) + ['Z']))
  }

  /** The instant to the second, with `-` for `:`. */
  function SecondText(d: DateTime): string {
    DateText(d) + ['T'] + (ClockText(d, '-') + ['Z'])
  }

  // ----- Injectivity -----------------------------------------------------------------------------

  lemma YearTextInjective(a: int, b: int)
    requires YearText(a) == YearText(b)
    ensures a == b
  {
    var s, t := YearText(a), YearText(b);
    ValueOfPadded(if a >= 0 then a else -a);
    ValueOfPadded(if b >= 0 then b else -b);
    if !(0 <= a < 10_000) {
      assert s[1..] == Padded(if a >= 0 then a else -a);
    } else {
      assert IsDigit(s[0]);
    }
    if !(0 <= b < 10_000) {
      assert t[1..] == Padded(if b >= 0 then b else -b);
    } else {
      assert IsDigit(t[0]);
    }
  }

  lemma DateTextInjective(d: DateTime, d': DateTime)
    requires Valid(d) && Valid(d') && DateText(d) == DateText(d')
    ensures d.year == d'.year && d.month == d'.month && d.day == d'.day
  {
    var s, n := DateText(d), |DateText(d)|;
    assert YearText(d.year) == s[..n - 6] == YearText(d'.year);
    var tail := MonthDayText(d);
    assert tail == s[n - 6..] == MonthDayText(d');
    assert Fixed(d.month, 2) == tail[1..3] == Fixed(d'.month, 2);
    assert Fixed(d.day, 2) == tail[4..] == Fixed(d'.day, 2);
    YearTextInjective(d.year, d'.year);
    assert Pow10(2) == 100;
    FixedInjective(d.month, d'.month, 2);
    FixedInjective(d.day, d'.day, 2);
  }

  lemma ClockTextInjective(d: DateTime, d': DateTime, separator: char)
    requires Valid(d) && Valid(d') && ClockText(d, separator) == ClockText(d', separator)
    ensures d.hour == d'.hour && d.minute == d'.minute && d.second == d'.second
  {
    var s := ClockText(d, separator);
    assert Fixed(d.hour, 2) == s[..2] == Fixed(d'.hour, 2);
    assert Fixed(d.minute, 2) == s[3..5] == Fixed(d'.minute, 2);
    assert Fixed(d.second, 2) == s[6..] == Fixed(d'.second, 2);
    assert Pow10(2) == 100;
    FixedInjective(d.hour, d'.hour, 2);
    FixedInjective(d.minute, d'.minute, 2);
    FixedInjective(d.second, d'.second, 2);
  }

  lemma FractionTextInjective(a: nat, b: nat)
    requires a < 1_000_000_000 && b < 1_000_000_000 && FractionText(a) == FractionText(b)
    ensures a == b
  {
    var s := FractionText(a);
    assert Pow10(3) == 1_000;
    assert Pow10(6) == 1_000 * Pow10(3);
    assert Pow10(9) == 1_000 * Pow10(6);
    if |s| == 4 {
      assert Fixed(a / 1_000_000, 3) == s[1..] == Fixed(b / 1_000_000, 3);
      FixedInjective(a / 1_000_000, b / 1_000_000, 3);
    } else if |s| == 7 {
      assert Fixed(a / 1_000, 6) == s[1..] == Fixed(b / 1_000, 6);
      FixedInjective(a / 1_000, b / 1_000, 6);
    } else if |s| == 10 {
      assert Fixed(a, 9) == s[1..] == Fixed(b, 9);
      FixedInjective(a, b, 9);
    }
  }

  lemma DateHasNoT(d: DateTime)
    ensures 'T' !in DateText(d)
  {
  }

  /** Distinct instants print differently. */
  lemma InstantTextInjective(d: DateTime, d': DateTime)
    requires Valid(d) && Valid(d') && InstantText(d) == InstantText(d')
    ensures d == d'
  {
    DateHasNoT(d);
    DateHasNoT(d');
    var time, time' := ClockText(d, ':') + (FractionText(d.nanos) + ['Z']), ClockText(d', ':') + (FractionText(d'.nanos) + ['Z']);
    SplitUnique('T', DateText(d), time, DateText(d'), time');
    DateTextInjective(d, d');
    assert ClockText(d, ':') == time[..8] == ClockText(d', ':');
    ClockTextInjective(d, d', ':');
    assert FractionText(d.nanos) == time[8..|time| - 1] == FractionText(d'.nanos);
    FractionTextInjective(d.nanos, d'.nanos);
  }

  ghost predicate SameSecond(d: DateTime, d': DateTime) {
    d.(nanos := 0) == d'.(nanos := 0)
  }

  lemma SecondTextWith(d: DateTime, rest: string)
    ensures SecondText(d) + rest == DateText(d) + ['T'] + (ClockText(d, '-') + (['Z'] + rest))
  {
    var date, clock := DateText(d), ClockText(d, '-');
    assert date + ['T'] + (clock + ['Z']) + rest == date + ['T'] + (clock + (['Z'] + rest));
  }

  /** The text to the second, followed by anything, determines the second and what follows. */
  lemma SecondTextSplits(d: DateTime, rest: string, d': DateTime, rest': string)
    requires Valid(d) && Valid(d') && SecondText(d) + rest == SecondText(d') + rest'
    ensures SameSecond(d, d') && rest == rest'
  {
    DateHasNoT(d);
    DateHasNoT(d');
    var time, time' := ClockText(d, '-') + (['Z'] + rest), ClockText(d', '-') + (['Z'] + rest');
    SecondTextWith(d, rest);
    SecondTextWith(d', rest');
    SplitUnique('T', DateText(d), time, DateText(d'), time');
    DateTextInjective(d, d');
    TimeSplits(ClockText(d, '-'), rest, ClockText(d', '-'), rest');
    ClockTextInjective(d, d', '-');
  }

  lemma TimeSplits(clock: string, rest: string, clock': string, rest': string)
    requires |clock| == |clock'| == 8 && clock + (['Z'] + rest) == clock' + (['Z'] + rest')
    ensures clock == clock' && rest == rest'
  {
    var time := clock + (['Z'] + rest);
    assert clock == time[..8] && clock' == time[..8] && rest == time[9..] && rest' == time[9..];
  }
}
