/**
 Instants read by position, as section 5.6 of RFC 3339 lays them out, and the order of their texts. The
 reader is defined apart from the printer.
 */
module Rfc3339 {
  import opened Common
  import opened Decimal
  import opened Text
  import opened Timestamp

  // ----- The reader ------------------------------------------------------------------------------

  /** How many digits a text begins with. */
  function DigitRun(s: string): (n: nat)
    ensures n <= |s| && AllDigits(s[..n]) && (n < |s| ==> !IsDigit(s[n]))
  {
    if s == [] || !IsDigit(s[0]) then 0 else 1 + DigitRun(s[1..])
  }

  /** The number written in `width` digits from position `at` on. */
  function NumberAt(s: string, at: nat, width: nat): Option<nat> {
    if at + width <= |s| && AllDigits(s[at..at + width]) then Some(Value(s[at..at + width])) else None
  }

  /** The year and how many characters it takes: four digits, or a sign and four digits or more. */
  function ReadYear(s: string): (r: Option<(int, nat)>)
    ensures r.Some? ==> r.value.1 <= |s|
  {
    if s != [] && s[0] in "+-" then
      var n := DigitRun(s[1..]);
      if n < 4 then None
      else
        var magnitude: int := Value(s[1..][..n]);
        Some((if s[0] == '-' then -magnitude else magnitude, 1 + n))
    else
      var year := NumberAt(s, 0, 4);
      if year == None then None else Some((year.value, 4))
  }

  /** Nanoseconds of a decimal fraction; what comes after the ninth place is dropped. */
  function Nanos(digits: string): nat
    requires AllDigits(digits)
  {
    if |digits| >= 9 then Value(digits[..9]) else Value(digits) * Pow10(9 - |digits|)
  }

  /** The nanoseconds and how many characters they take: a point and digits, or nothing. */
  function ReadFraction(s: string): (r: Option<(nat, nat)>)
    ensures r.Some? ==> r.value.1 <= |s|
  {
    if s == [] || s[0] != '.' then Some((0, 0))
    else
      var n := DigitRun(s[1..]);
      if n == 0 then None else Some((Nanos(s[1..][..n]), 1 + n))
  }

  /** After the year: month, day, hour, minute and second, with the separators between them. */
  predicate Laid(s: string) {
    && |s| >= 15 && s[0] == '-' && s[3] == '-' && s[6] == 'T' && s[9] == ':' && s[12] == ':'
    && NumberAt(s, 1, 2).Some? && NumberAt(s, 4, 2).Some?
    && NumberAt(s, 7, 2).Some? && NumberAt(s, 10, 2).Some? && NumberAt(s, 13, 2).Some?
  }

  /** An instant in UTC. */
  function ReadInstant(s: string): (r: Option<DateTime>)
    ensures r.Some? ==> Valid(r.value)
  {
    var year := ReadYear(s);
    if year == None then None
    else
      var t := s[year.value.1..];
      if !Laid(t) then None
      else
        var fraction := ReadFraction(t[15..]);
        if fraction == None || t[15..][fraction.value.1..] != "Z" then None
        else
          var d := DateTime(year.value.0, NumberAt(t, 1, 2).value, NumberAt(t, 4, 2).value, NumberAt(t, 7, 2).value,
                            NumberAt(t, 10, 2).value, NumberAt(t, 13, 2).value, fraction.value.0);
          if Valid(d) then Some(d) else None
  }

  // ----- Reading what is printed -----------------------------------------------------------------

  lemma {:induction false} RunOfDigits(digits: string, rest: string)
    requires AllDigits(digits) && (rest != [] ==> !IsDigit(rest[0]))
    ensures DigitRun(digits + rest) == |digits| && (digits + rest)[..|digits|] == digits && (digits + rest)[|digits|..] == rest
  {
    if digits != [] {
      RunOfDigits(digits[1..], rest);
      assert (digits + rest)[1..] == digits[1..] + rest;
    } else {
      assert digits + rest == rest;
    }
  }

  lemma {:induction false} DigitsAtLeast(n: nat, width: nat)
    requires n >= Pow10(width)
    ensures |Digits(n)| > width
  {
    if width > 0 {
      DigitsAtLeast(n / 10, width - 1);
    }
  }

  lemma PaddedIsLong(n: nat)
    ensures |Padded(n)| >= 4
  {
    if n >= 10_000 {
      assert Pow10(4) == 10_000;
      DigitsAtLeast(n, 4);
    }
  }

  lemma ReadShortYear(year: nat, rest: string)
    requires year < 10_000
    ensures var s := Fixed(year, 4) + rest; ReadYear(s) == Some((year, 4)) && s[4..] == rest
  {
    var s := Fixed(year, 4) + rest;
    assert Pow10(4) == 10_000;
    ValueOfFixed(year, 4);
    assert s[0..4] == Fixed(year, 4) && IsDigit(s[0]);
  }

  lemma ReadSignedYear(sign: char, n: nat, rest: string)
    requires sign in "+-" && rest != [] && !IsDigit(rest[0])
    ensures var s, magnitude: int := [sign] + Padded(n) + rest, n;
            && ReadYear(s) == Some((if sign == '-' then -magnitude else magnitude, 1 + |Padded(n)|))
            && s[1 + |Padded(n)|..] == rest
  {
    var s := [sign] + Padded(n) + rest;
    PaddedIsLong(n);
    ValueOfPadded(n);
    assert s[1..] == Padded(n) + rest;
    RunOfDigits(Padded(n), rest);
  }

  lemma ReadPrintedYear(year: int, rest: string)
    requires rest != [] && !IsDigit(rest[0])
    ensures ReadYear(YearText(year) + rest) == Some((year, |YearText(year)|)) && (YearText(year) + rest)[|YearText(year)|..] == rest
  {
    if 0 <= year < 10_000 {
      ReadShortYear(year, rest);
    } else if year >= 0 {
      ReadSignedYear('+', year, rest);
    } else {
      ReadSignedYear('-', -year, rest);
    }
  }

  lemma Scaled(digits: string, n: nat, scale: nat)
    requires AllDigits(digits) && |digits| < 9 && Value(digits) == n && Pow10(9 - |digits|) == scale
    ensures Nanos(digits) == n * scale
  {
  }

  lemma Powers()
    ensures Pow10(3) == 1_000 && Pow10(6) == 1_000_000 && Pow10(9) == 1_000_000_000
  {
    assert Pow10(6) == 1_000 * Pow10(3);
    assert Pow10(9) == 1_000 * Pow10(6);
  }

  lemma Millis(n: nat)
    requires n < 1_000
    ensures Nanos(Fixed(n, 3)) == n * 1_000_000
  {
    Powers();
    ValueOfFixed(n, 3);
    Scaled(Fixed(n, 3), n, 1_000_000);
  }

  lemma Micros(n: nat)
    requires n < 1_000_000
    ensures Nanos(Fixed(n, 6)) == n * 1_000
  {
    Powers();
    ValueOfFixed(n, 6);
    Scaled(Fixed(n, 6), n, 1_000);
  }

  lemma AllNanos(n: nat)
    requires n < 1_000_000_000
    ensures Nanos(Fixed(n, 9)) == n
  {
    Powers();
    ValueOfFixed(n, 9);
    assert Fixed(n, 9)[..9] == Fixed(n, 9);
  }

  lemma ReadPlaces(digits: string)
    requires AllDigits(digits) && digits != []
    ensures var s := ['.'] + digits + ['Z']; ReadFraction(s) == Some((Nanos(digits), 1 + |digits|)) && s[1 + |digits|..] == "Z"
  {
    assert (['.'] + digits + ['Z'])[1..] == digits + ['Z'];
    RunOfDigits(digits, ['Z']);
  }

  lemma ReadPrintedFraction(nanos: nat)
    requires nanos < 1_000_000_000
    ensures ReadFraction(FractionText(nanos) + ['Z']) == Some((nanos, |FractionText(nanos)|))
    ensures (FractionText(nanos) + ['Z'])[|FractionText(nanos)|..] == "Z"
  {
    if nanos == 0 {
      assert FractionText(nanos) + ['Z'] == ['Z'];
    } else if nanos % 1_000_000 == 0 {
      Millis(nanos / 1_000_000);
      ReadPlaces(Fixed(nanos / 1_000_000, 3));
    } else if nanos % 1_000 == 0 {
      Micros(nanos / 1_000);
      ReadPlaces(Fixed(nanos / 1_000, 6));
    } else {
      AllNanos(nanos);
      ReadPlaces(Fixed(nanos, 9));
    }
  }

  lemma TwoDigits(n: nat)
    requires n < 100
    ensures Value(Fixed(n, 2)) == n
  {
    assert Pow10(2) == 100;
    ValueOfFixed(n, 2);
  }

  lemma PrintedDay(d: DateTime, rest: string)
    requires Valid(d)
    ensures var t := MonthDayText(d) + rest;
            && t[0] == '-' && NumberAt(t, 1, 2) == Some(d.month) && t[3] == '-' && NumberAt(t, 4, 2) == Some(d.day) && t[6..] == rest
  {
    var t := MonthDayText(d) + rest;
    assert t[1..3] == Fixed(d.month, 2) && t[4..6] == Fixed(d.day, 2);
    TwoDigits(d.month);
    TwoDigits(d.day);
  }

  lemma PrintedTime(d: DateTime, rest: string)
    requires Valid(d)
    ensures var t := ['T'] + (ClockText(d, ':') + rest);
            && t[0] == 'T' && NumberAt(t, 1, 2) == Some(d.hour) && t[3] == ':' && NumberAt(t, 4, 2) == Some(d.minute)
            && t[6] == ':' && NumberAt(t, 7, 2) == Some(d.second) && t[9..] == rest
  {
    var t := ['T'] + (ClockText(d, ':') + rest);
    assert t[1..3] == Fixed(d.hour, 2) && t[4..6] == Fixed(d.minute, 2) && t[7..9] == Fixed(d.second, 2);
    TwoDigits(d.hour);
    TwoDigits(d.minute);
    TwoDigits(d.second);
  }

  lemma NumberLater(t: string, from: nat, at: nat, width: nat)
    requires from <= |t|
    ensures NumberAt(t, from + at, width) == NumberAt(t[from..], at, width)
  {
    if from + at + width <= |t| {
      assert t[from + at..from + at + width] == t[from..][at..at + width];
    }
  }

  /** What follows the year. */
  lemma PrintedIsLaid(d: DateTime, rest: string)
    requires Valid(d)
    ensures var t := MonthDayText(d) + (['T'] + (ClockText(d, ':') + rest));
            && Laid(t) && t[15..] == rest
            && NumberAt(t, 1, 2) == Some(d.month) && NumberAt(t, 4, 2) == Some(d.day)
            && NumberAt(t, 7, 2) == Some(d.hour) && NumberAt(t, 10, 2) == Some(d.minute) && NumberAt(t, 13, 2) == Some(d.second)
  {
    var time := ['T'] + (ClockText(d, ':') + rest);
    var t := MonthDayText(d) + time;
    PrintedDay(d, time);
    PrintedTime(d, rest);
    NumberLater(t, 6, 1, 2);
    NumberLater(t, 6, 4, 2);
    NumberLater(t, 6, 7, 2);
    assert t[6] == time[0] && t[9] == time[3] && t[12] == time[6] && t[15..] == time[9..];
  }

  lemma PrintedAfterYear(d: DateTime)
    ensures InstantText(d) == YearText(d.year) + (MonthDayText(d) + (['T'] + (ClockText(d, ':') + (FractionText(d.nanos) + ['Z']))))
  {
    Regrouped(YearText(d.year), MonthDayText(d), ['T'], ClockText(d, ':') + (FractionText(d.nanos) + ['Z']));
  }

  /** A printed instant is read back, year, month, day, hour, minute, second and fraction each in its place. */
  lemma ReadPrintedInstant(d: DateTime)
    requires Valid(d)
    ensures ReadInstant(InstantText(d)) == Some(d)
  {
    var rest := FractionText(d.nanos) + ['Z'];
    PrintedAfterYear(d);
    ReadPrintedYear(d.year, MonthDayText(d) + (['T'] + (ClockText(d, ':') + rest)));
    PrintedIsLaid(d, rest);
    ReadPrintedFraction(d.nanos);
  }

  // ----- Order -----------------------------------------------------------------------------------

  lemma {:induction false} LexConcat(a: string, b: string, x: string, y: string)
    requires |a| == |b|
    ensures LexLeq(a + x, b + y) <==> if a == b then LexLeq(x, y) else LexLeq(a, b)
    decreases a
  {
    if a == [] {
      assert a + x == x && b + y == y;
    } else {
      LexConcat(a[1..], b[1..], x, y);
      assert (a + x)[1..] == a[1..] + x && (b + y)[1..] == b[1..] + y;
      assert a == [a[0]] + a[1..] && b == [b[0]] + b[1..];
    }
  }

  lemma LexOne(c: char, c': char)
    ensures LexLeq([c], [c']) <==> c <= c'
  {
  }

  /** Numbers of one width are ordered as their texts are. */
  lemma {:induction false} LexFixed(n: nat, m: nat, width: nat)
    requires n < Pow10(width) && m < Pow10(width)
    ensures LexLeq(Fixed(n, width), Fixed(m, width)) <==> n <= m
    ensures Fixed(n, width) == Fixed(m, width) <==> n == m
  {
    if width > 0 {
      LexFixed(n / 10, m / 10, width - 1);
      LexConcat(Fixed(n / 10, width - 1), Fixed(m / 10, width - 1), [Digit(n % 10)], [Digit(m % 10)]);
      LexOne(Digit(n % 10), Digit(m % 10));
      if Fixed(n, width) == Fixed(m, width) {
        FixedInjective(n, m, width);
      }
    }
  }

  /** A separator and a field, and what follows. */
  lemma LexField(n: nat, m: nat, separator: char, x: string, y: string)
    requires n < 100 && m < 100
    ensures LexLeq([separator] + (Fixed(n, 2) + x), [separator] + (Fixed(m, 2) + y)) <==> n < m || (n == m && LexLeq(x, y))
  {
    assert Pow10(2) == 100;
    LexFixed(n, m, 2);
    LexConcat(Fixed(n, 2), Fixed(m, 2), x, y);
    LexConcat([separator], [separator], Fixed(n, 2) + x, Fixed(m, 2) + y);
  }

  /** `d` is no later than `d'`, to the second. */
  predicate NoLater(d: DateTime, d': DateTime) {
    if d.year != d'.year then d.year < d'.year
    else if d.month != d'.month then d.month < d'.month
    else if d.day != d'.day then d.day < d'.day
    else if d.hour != d'.hour then d.hour < d'.hour
    else if d.minute != d'.minute then d.minute < d'.minute
    else d.second <= d'.second
  }

  function TimeFields(d: DateTime, rest: string): string {
    ['T'] + (Fixed(d.hour, 2) + (['-'] + (Fixed(d.minute, 2) + (['-'] + (Fixed(d.second, 2) + (['Z'] + rest))))))
  }

  function DayFields(d: DateTime, rest: string): string {
    ['-'] + (Fixed(d.month, 2) + (['-'] + (Fixed(d.day, 2) + TimeFields(d, rest))))
  }

  lemma SecondFields(d: DateTime, rest: string)
    requires 0 <= d.year < 10_000
    ensures SecondText(d) + rest == Fixed(d.year, 4) + DayFields(d, rest)
  {
    var clock := ClockText(d, '-') + (['Z'] + rest);
    SecondTextWith(d, rest);
    ClockFields(d, rest);
    MonthFields(d, rest);
    Regrouped(Fixed(d.year, 4), MonthDayText(d), ['T'], clock);
  }

  lemma Regrouped(a: string, b: string, c: string, x: string)
    ensures a + b + c + x == a + (b + (c + x))
  {
  }

  lemma ClockFields(d: DateTime, rest: string)
    ensures ['T'] + (ClockText(d, '-') + (['Z'] + rest)) == TimeFields(d, rest)
  {
    var h, m, s, z := Fixed(d.hour, 2), Fixed(d.minute, 2), Fixed(d.second, 2), ['Z'] + rest;
    assert (h + ['-'] + m + ['-'] + s) + z == h + (['-'] + (m + (['-'] + (s + z))));
  }

  lemma MonthFields(d: DateTime, rest: string)
    ensures MonthDayText(d) + TimeFields(d, rest) == DayFields(d, rest)
  {
    var m, n, t := Fixed(d.month, 2), Fixed(d.day, 2), TimeFields(d, rest);
    assert (['-'] + m + ['-'] + n) + t == ['-'] + (m + (['-'] + (n + t)));
  }

  lemma TimesSort(d: DateTime, rest: string, d': DateTime, rest': string)
    requires Valid(d) && Valid(d')
    ensures LexLeq(TimeFields(d, rest), TimeFields(d', rest')) <==>
            if d.hour != d'.hour then d.hour < d'.hour
            else if d.minute != d'.minute then d.minute < d'.minute
            else if d.second != d'.second then d.second < d'.second
            else LexLeq(rest, rest')
  {
    LexField(d.hour, d'.hour, 'T', ['-'] + (Fixed(d.minute, 2) + (['-'] + (Fixed(d.second, 2) + (['Z'] + rest)))),
             ['-'] + (Fixed(d'.minute, 2) + (['-'] + (Fixed(d'.second, 2) + (['Z'] + rest')))));
    LexField(d.minute, d'.minute, '-', ['-'] + (Fixed(d.second, 2) + (['Z'] + rest)), ['-'] + (Fixed(d'.second, 2) + (['Z'] + rest')));
    LexField(d.second, d'.second, '-', ['Z'] + rest, ['Z'] + rest');
    LexConcat(['Z'], ['Z'], rest, rest');
  }

  /** For years of four digits, texts to the second, whatever follows them, sort as the instants do. */
  lemma SecondsSort(d: DateTime, rest: string, d': DateTime, rest': string)
    requires Valid(d) && Valid(d') && 0 <= d.year < 10_000 && 0 <= d'.year < 10_000
    ensures LexLeq(SecondText(d) + rest, SecondText(d') + rest') <==> if SameSecond(d, d') then LexLeq(rest, rest') else NoLater(d, d')
  {
    SecondFields(d, rest);
    SecondFields(d', rest');
    assert Pow10(4) == 10_000;
    LexFixed(d.year, d'.year, 4);
    LexConcat(Fixed(d.year, 4), Fixed(d'.year, 4), DayFields(d, rest), DayFields(d', rest'));
    LexField(d.month, d'.month, '-', ['-'] + (Fixed(d.day, 2) + TimeFields(d, rest)), ['-'] + (Fixed(d'.day, 2) + TimeFields(d', rest')));
    LexField(d.day, d'.day, '-', TimeFields(d, rest), TimeFields(d', rest'));
    TimesSort(d, rest, d', rest');
  }

  /** The order of the texts is the order of the instants. */
  lemma SecondTextSorts(d: DateTime, d': DateTime)
    requires Valid(d) && Valid(d') && 0 <= d.year < 10_000 && 0 <= d'.year < 10_000
    ensures LexLeq(SecondText(d), SecondText(d')) <==> NoLater(d, d')
  {
    SecondsSort(d, [], d', []);
    assert SecondText(d) + [] == SecondText(d) && SecondText(d') + [] == SecondText(d');
  }
}
