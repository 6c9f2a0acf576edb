/**
 * The creation timestamp as the report reads it: `YYYY-MM-DDTHH:MM:SS`
 * (the part of the tracker's ISO-8601 value before the first '.'), parsed
 * with the calendar checks of a date-time constructor, and printed back
 * with `%Y-%m-%d`.
 */
module Timestamps {
  import opened Wrappers
  import opened Text

  datatype DateTime = DateTime(year: nat, month: nat, day: nat, hour: nat, minute: nat, second: nat)

  predicate IsLeapYear(y: nat)
  {
    y % 4 == 0 && (y % 100 != 0 || y % 400 == 0)
  }

  function DaysInMonth(y: nat, m: nat): nat
    requires 1 <= m <= 12
  {
    if m == 2 then (if IsLeapYear(y) then 29 else 28)
    else if m == 4 || m == 6 || m == 9 || m == 11 then 30
    else 31
  }

  /** A real calendar instant between years 1 and 9999. */
  predicate Valid(t: DateTime)
  {
    1 <= t.year <= 9999 && 1 <= t.month <= 12 && 1 <= t.day <= DaysInMonth(t.year, t.month) &&
    t.hour < 24 && t.minute < 60 && t.second < 60
  }

  /** The calendar date in `%Y-%m-%d` form. */
  function FormatDate(t: DateTime): (s: string)
    requires Valid(t)
    ensures |s| == 10
  {
    Padded(t.year, 4) + "-" + Padded(t.month, 2) + "-" + Padded(t.day, 2)
  }

  /** The time of day in `HH:MM:SS` form. */
  function FormatClock(t: DateTime): (s: string)
    requires Valid(t)
    ensures |s| == 8
  {
    Padded(t.hour, 2) + ":" + Padded(t.minute, 2) + ":" + Padded(t.second, 2)
  }

  /** The whole instant in `YYYY-MM-DDTHH:MM:SS` form. */
  function Format(t: DateTime): (s: string)
    requires Valid(t)
    ensures |s| == 19
  {
    FormatDate(t) + "T" + FormatClock(t)
  }

  /** Where the three fields and the two separators of `a x b y c` sit. */
  lemma ThreeFields(a: string, x: char, b: string, y: char, c: string)
    ensures var s := a + [x] + b + [y] + c;
      && s[..|a|] == a && s[|a|] == x && s[|a| + 1..|a| + 1 + |b|] == b && s[|a| + 1 + |b|] == y
      && s[|a| + 2 + |b|..] == c
  {
    var s := a + [x] + b + [y] + c;
    var j := |a| + 1 + |b|;
    forall k | 0 <= k < |a| ensures s[k] == a[k] {
    }
    forall k | 0 <= k < |b| ensures s[|a| + 1 + k] == b[k] {
    }
    forall k | 0 <= k < |c| ensures s[j + 1 + k] == c[k] {
    }
    assert s[..|a|] == a;
    assert s[|a| + 1..j] == b;
    assert s[j + 1..] == c;
  }

  lemma DateFields(t: DateTime)
    requires Valid(t)
    ensures var s := FormatDate(t);
      s[0..4] == Padded(t.year, 4) && s[4] == '-' && s[5..7] == Padded(t.month, 2) && s[7] == '-' &&
      s[8..10] == Padded(t.day, 2)
  {
    var y, m, d := Padded(t.year, 4), Padded(t.month, 2), Padded(t.day, 2);
    assert FormatDate(t) == y + ['-'] + m + ['-'] + d;
    DateShape(y, m, d);
  }

  lemma DateShape(y: string, m: string, d: string)
    requires |y| == 4 && |m| == 2 && |d| == 2
    ensures var s := y + ['-'] + m + ['-'] + d;
      s[0..4] == y && s[4] == '-' && s[5..7] == m && s[7] == '-' && s[8..10] == d
  {
    ThreeFields(y, '-', m, '-', d);
  }

  lemma ClockFields(t: DateTime)
    requires Valid(t)
    ensures var s := FormatClock(t);
      s[0..2] == Padded(t.hour, 2) && s[2] == ':' && s[3..5] == Padded(t.minute, 2) && s[5] == ':' &&
      s[6..8] == Padded(t.second, 2)
  {
    var h, m, sec := Padded(t.hour, 2), Padded(t.minute, 2), Padded(t.second, 2);
    assert FormatClock(t) == h + [':'] + m + [':'] + sec;
    ThreeFields(h, ':', m, ':', sec);
  }

  /** The digits and separators are where the fixed format puts them. */
  predicate WellShaped(s: string)
  {
    |s| == 19 && s[4] == '-' && s[7] == '-' && s[10] == 'T' && s[13] == ':' && s[16] == ':' &&
    AllDigits(s[0..4]) && AllDigits(s[5..7]) && AllDigits(s[8..10]) &&
    AllDigits(s[11..13]) && AllDigits(s[14..16]) && AllDigits(s[17..19])
  }

  /** Reads `YYYY-MM-DDTHH:MM:SS`; None when the shape or the calendar is wrong (the source's ValueError). */
  function Parse(s: string): (r: Option<DateTime>)
    ensures r.Some? ==> WellShaped(s) && Valid(r.value)
  {
    if !WellShaped(s) then None
    else
      var t := DateTime(NumberOf(s[0..4]), NumberOf(s[5..7]), NumberOf(s[8..10]),
                        NumberOf(s[11..13]), NumberOf(s[14..16]), NumberOf(s[17..19]));
      if Valid(t) then Some(t) else None
  }

  /** A string is its three fields around the separators at `i` and `j`, put back together. */
  lemma Reassemble(u: string, i: nat, j: nat)
    requires i < j < |u|
    ensures u == u[..i] + [u[i]] + u[i + 1..j] + [u[j]] + u[j + 1..]
  {
    ThreeFields(u[..i], u[i], u[i + 1..j], u[j], u[j + 1..]);
  }

  lemma DateOfParse(s: string)
    requires Parse(s).Some?
    ensures FormatDate(Parse(s).value) == s[..10]
  {
    var t := Parse(s).value;
    var u := s[..10];
    assert t.year == NumberOf(s[0..4]) && t.month == NumberOf(s[5..7]) && t.day == NumberOf(s[8..10]);
    PaddedOfNumber(s[0..4]);
    PaddedOfNumber(s[5..7]);
    PaddedOfNumber(s[8..10]);
    Reassemble(u, 4, 7);
    assert u[..4] == s[0..4];
    assert u[5..7] == s[5..7];
    assert u[8..] == s[8..10];
    assert FormatDate(t) == s[0..4] + ['-'] + s[5..7] + ['-'] + s[8..10];
  }

  lemma ClockOfParse(s: string)
    requires Parse(s).Some?
    ensures FormatClock(Parse(s).value) == s[11..]
  {
    var t := Parse(s).value;
    var u := s[11..19];
    assert s[11..] == u;
    assert t.hour == NumberOf(s[11..13]) && t.minute == NumberOf(s[14..16]) && t.second == NumberOf(s[17..19]);
    PaddedOfNumber(s[11..13]);
    PaddedOfNumber(s[14..16]);
    PaddedOfNumber(s[17..19]);
    Reassemble(u, 2, 5);
    assert u[..2] == s[11..13];
    assert u[3..5] == s[14..16];
    assert u[6..] == s[17..19];
    assert FormatClock(t) == s[11..13] + [':'] + s[14..16] + [':'] + s[17..19];
  }

  /** Where the two fields and the separator of `a x b` sit. */
  lemma TwoFields(a: string, x: char, b: string)
    ensures var s := a + [x] + b;
      s[..|a|] == a && s[|a|] == x && s[|a| + 1..] == b
  {
    var s := a + [x] + b;
    forall k | 0 <= k < |a| ensures s[k] == a[k] {
    }
    forall k | 0 <= k < |b| ensures s[|a| + 1 + k] == b[k] {
    }
    assert s[..|a|] == a;
    assert s[|a| + 1..] == b;
  }

  /** A string is the part before position 10, the character there and the part after it. */
  lemma AroundT(s: string)
    requires |s| == 19
    ensures s[..10] + [s[10]] + s[11..] == s
  {
    TwoFields(s[..10], s[10], s[11..]);
  }

  /** Every accepted string is the rendering of the instant it denotes. */
  lemma FormatOfParse(s: string)
    requires Parse(s).Some?
    ensures Format(Parse(s).value) == s
    ensures FormatDate(Parse(s).value) == s[..10]
  {
    var t := Parse(s).value;
    DateOfParse(s);
    ClockOfParse(s);
    AroundT(s);
    assert Format(t) == FormatDate(t) + ['T'] + FormatClock(t);
  }

  /** Every valid instant is read back from its rendering. */
  lemma ParseOfFormat(t: DateTime)
    requires Valid(t)
    ensures Parse(Format(t)) == Some(t)
  {
    var s, date, clock := Format(t), FormatDate(t), FormatClock(t);
    DateFields(t);
    ClockFields(t);
    assert s == date + ['T'] + clock;
    TwoFields(date, 'T', clock);
    assert s[0..4] == date[0..4];
    assert s[5..7] == date[5..7];
    assert s[8..10] == date[8..10];
    assert s[11..13] == clock[0..2];
    assert s[14..16] == clock[3..5];
    assert s[17..19] == clock[6..8];
  }
}
