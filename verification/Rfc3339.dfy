/**
 UTC times as fixed-width text, in the form of RFC 3339. Stored times are compared as
 text; section 5.1 of RFC 3339 says that this orders them as times.
 */
module Rfc3339 {
  import opened Text

  datatype Civil = Civil(year: nat, month: nat, day: nat, hour: nat, minute: nat, second: nat)

  predicate IsLeap(year: nat) {
    year % 4 == 0 && (year % 100 != 0 || year % 400 == 0)
  }

  function DaysIn(year: nat, month: nat): nat {
    if month == 2 then (if IsLeap(year) then 29 else 28)
    else if month == 4 || month == 6 || month == 9 || month == 11 then 30
    else 31
  }

  predicate IsCivil(c: Civil) {
    c.year <= 9999 && 1 <= c.month <= 12 && 1 <= c.day <= DaysIn(c.year, c.month)
    && c.hour < 24 && c.minute < 60 && c.second < 60
  }

  // ----- Time -----

  /** Days before the first of January of a year, from year 0 on. */
  function DaysBeforeYear(year: nat): nat {
    if year == 0 then 0 else DaysBeforeYear(year - 1) + if IsLeap(year - 1) then 366 else 365
  }

  function DaysBeforeMonth(year: nat, month: nat): nat {
    if month <= 1 then 0 else DaysBeforeMonth(year, month - 1) + DaysIn(year, month - 1)
  }

  function Days(c: Civil): nat
    requires IsCivil(c)
  {
    DaysBeforeYear(c.year) + DaysBeforeMonth(c.year, c.month) + (c.day - 1)
  }

  function Seconds(c: Civil): nat
    requires IsCivil(c)
  {
    Days(c) * 86400 + c.hour * 3600 + c.minute * 60 + c.second
  }

  lemma {:induction false} YearsGrow(a: nat, b: nat)
    requires a < b
    ensures DaysBeforeYear(a) + (if IsLeap(a) then 366 else 365) <= DaysBeforeYear(b)
  {
    if a + 1 < b { YearsGrow(a, b - 1); }
  }

  lemma {:induction false} MonthsGrow(year: nat, a: nat, b: nat)
    requires 1 <= a < b
    ensures DaysBeforeMonth(year, a) + DaysIn(year, a) <= DaysBeforeMonth(year, b)
  {
    if a + 1 < b { MonthsGrow(year, a, b - 1); }
  }

  lemma MonthsFillYear(year: nat)
    ensures DaysBeforeMonth(year, 13) == if IsLeap(year) then 366 else 365
  {
    var february := DaysIn(year, 2);
    assert DaysBeforeMonth(year, 1) == 0 && DaysBeforeMonth(year, 2) == 31;
    assert DaysBeforeMonth(year, 3) == 31 + february;
    assert DaysBeforeMonth(year, 4) == 62 + february;
    assert DaysBeforeMonth(year, 5) == 92 + february;
    assert DaysBeforeMonth(year, 6) == 123 + february;
    assert DaysBeforeMonth(year, 7) == 153 + february;
    assert DaysBeforeMonth(year, 8) == 184 + february;
    assert DaysBeforeMonth(year, 9) == 215 + february;
    assert DaysBeforeMonth(year, 10) == 245 + february;
    assert DaysBeforeMonth(year, 11) == 276 + february;
    assert DaysBeforeMonth(year, 12) == 306 + february;
  }

  /** The fields of one are before those of the other, the first difference deciding. */
  predicate IsBefore(a: Civil, b: Civil) {
    || a.year < b.year
    || (a.year == b.year && (|| a.month < b.month
       || (a.month == b.month && (|| a.day < b.day
          || (a.day == b.day && IsBeforeInDay(a, b))))))
  }

  predicate IsBeforeInDay(a: Civil, b: Civil) {
    || a.hour < b.hour
    || (a.hour == b.hour && (a.minute < b.minute || (a.minute == b.minute && a.second < b.second)))
  }

  lemma DayBeforeDay(a: Civil, b: Civil)
    requires IsCivil(a) && IsCivil(b)
    requires a.year < b.year || (a.year == b.year && (a.month < b.month || (a.month == b.month && a.day < b.day)))
    ensures Days(a) < Days(b)
  {
    if a.year < b.year {
      YearsGrow(a.year, b.year);
      MonthsGrow(a.year, a.month, 13);
      MonthsFillYear(a.year);
    } else if a.month < b.month {
      MonthsGrow(a.year, a.month, b.month);
    }
  }

  lemma BeforeIsEarlier(a: Civil, b: Civil)
    requires IsCivil(a) && IsCivil(b) && IsBefore(a, b)
    ensures Seconds(a) < Seconds(b)
  {
    if a.year < b.year || a.month < b.month || a.day < b.day {
      DayBeforeDay(a, b);
    }
  }

  // ----- Text -----

  /** n in decimal, with leading zeros. */
  function Digits(n: nat, width: nat): (s: string)
    ensures |s| == width
    decreases width
  {
    if width == 0 then "" else Digits(n / 10, width - 1) + [DigitChar(n % 10)]
  }

  function Power10(k: nat): nat {
    if k == 0 then 1 else 10 * Power10(k - 1)
  }

  /** The time as the layout "2006-01-02T15:04:05Z07:00" prints it in UTC. */
  function Format(c: Civil): string {
    Digits(c.year, 4) + ("-" + (Digits(c.month, 2) + ("-" + (Digits(c.day, 2) + ("T" +
    (Digits(c.hour, 2) + (":" + (Digits(c.minute, 2) + (":" + (Digits(c.second, 2) + "Z"))))))))))
  }

  /** Texts that start with parts of one length are ordered by those parts, then by the rest. */
  lemma {:induction false} LessByParts(a: string, b: string, s: string, t: string)
    requires |a| == |b|
    ensures Less(a + s, b + t) <==> Less(a, b) || (a == b && Less(s, t))
  {
    if a == "" {
      assert a + s == s && b + t == t;
    } else {
      assert (a + s)[1..] == a[1..] + s && (b + t)[1..] == b[1..] + t;
      LessByParts(a[1..], b[1..], s, t);
      assert a == [a[0]] + a[1..] && b == [b[0]] + b[1..];
    }
  }

  lemma {:induction false} DigitsOrder(n: nat, m: nat, width: nat)
    requires n < Power10(width) && m < Power10(width)
    ensures Less(Digits(n, width), Digits(m, width)) <==> n < m
    ensures Digits(n, width) == Digits(m, width) <==> n == m
    decreases width
  {
    if width > 0 {
      DigitsOrder(n / 10, m / 10, width - 1);
      var a, b := Digits(n / 10, width - 1), Digits(m / 10, width - 1);
      LastDigitOrder(n % 10, m % 10);
      LessByParts(a, b, [DigitChar(n % 10)], [DigitChar(m % 10)]);
      assert Digits(n, width)[..width - 1] == a && Digits(m, width)[..width - 1] == b;
      assert Digits(n, width)[width - 1] == DigitChar(n % 10) && Digits(m, width)[width - 1] == DigitChar(m % 10);
    }
  }

  lemma LastDigitOrder(d: nat, e: nat)
    requires d < 10 && e < 10
    ensures Less([DigitChar(d)], [DigitChar(e)]) <==> d < e
    ensures DigitChar(d) == DigitChar(e) <==> d == e
  {}

  /** Two fixed-width numbers and what follows them, after a separator. */
  lemma FieldOrder(n: nat, m: nat, width: nat, separator: string, s: string, t: string)
    requires n < Power10(width) && m < Power10(width)
    ensures Less(Digits(n, width) + (separator + s), Digits(m, width) + (separator + t)) <==>
            n < m || (n == m && Less(s, t))
  {
    DigitsOrder(n, m, width);
    LessByParts(Digits(n, width), Digits(m, width), separator + s, separator + t);
    LessByParts(separator, separator, s, t);
    LessTrichotomy(separator, separator);
  }

  /** The order of the texts is the order of the fields. */
  lemma FormatOrder(a: Civil, b: Civil)
    requires IsCivil(a) && IsCivil(b)
    ensures Less(Format(a), Format(b)) <==> IsBefore(a, b)
  {
    assert Power10(2) == 100 && Power10(4) == 10000 by { assert Power10(3) == 1000; }
    var a6, b6 := Digits(a.second, 2) + "Z", Digits(b.second, 2) + "Z";
    var a5, b5 := Digits(a.minute, 2) + (":" + a6), Digits(b.minute, 2) + (":" + b6);
    var a4, b4 := Digits(a.hour, 2) + (":" + a5), Digits(b.hour, 2) + (":" + b5);
    var a3, b3 := Digits(a.day, 2) + ("T" + a4), Digits(b.day, 2) + ("T" + b4);
    var a2, b2 := Digits(a.month, 2) + ("-" + a3), Digits(b.month, 2) + ("-" + b3);
    DigitsOrder(a.second, b.second, 2);
    LessByParts(Digits(a.second, 2), Digits(b.second, 2), "Z", "Z");
    LessTrichotomy("Z", "Z");
    FieldOrder(a.minute, b.minute, 2, ":", a6, b6);
    FieldOrder(a.hour, b.hour, 2, ":", a5, b5);
    FieldOrder(a.day, b.day, 2, "T", a4, b4);
    FieldOrder(a.month, b.month, 2, "-", a3, b3);
    FieldOrder(a.year, b.year, 4, "-", a2, b2);
  }

  /** Comparing the texts compares the times. */
  lemma TextOrderIsTimeOrder(a: Civil, b: Civil)
    requires IsCivil(a) && IsCivil(b)
    ensures Less(Format(a), Format(b)) <==> Seconds(a) < Seconds(b)
    ensures Format(a) == Format(b) <==> Seconds(a) == Seconds(b)
  {
    FormatOrder(a, b);
    FormatOrder(b, a);
    LessTrichotomy(Format(a), Format(b));
    if IsBefore(a, b) {
      BeforeIsEarlier(a, b);
    } else if IsBefore(b, a) {
      BeforeIsEarlier(b, a);
    } else {
      assert a == b;
    }
  }

  // ----- Every time has a text -----

  /** The day after, at midnight. */
  function NextDay(c: Civil): Civil {
    if c.day < DaysIn(c.year, c.month) then Civil(c.year, c.month, c.day + 1, 0, 0, 0)
    else if c.month < 12 then Civil(c.year, c.month + 1, 1, 0, 0, 0)
    else Civil(c.year + 1, 1, 1, 0, 0, 0)
  }

  lemma NextDayIsNext(c: Civil)
    requires IsCivil(c) && Days(c) + 1 < DaysBeforeYear(10000)
    ensures IsCivil(NextDay(c)) && Days(NextDay(c)) == Days(c) + 1
  {
    MonthsFillYear(c.year);
    assert DaysBeforeMonth(c.year, 13) == DaysBeforeMonth(c.year, 12) + 31;
  }

  lemma {:induction false} DayExists(days: nat) returns (c: Civil)
    requires days < DaysBeforeYear(10000)
    ensures IsCivil(c) && Days(c) == days
  {
    if days == 0 {
      c := Civil(0, 1, 1, 0, 0, 0);
    } else {
      c := DayExists(days - 1);
      NextDayIsNext(c);
      c := NextDay(c);
    }
  }

  /** Up to the year 9999, every second is written by exactly one text. */
  lemma TimeHasText(t: nat) returns (c: Civil)
    requires t < DaysBeforeYear(10000) * 86400
    ensures IsCivil(c) && Seconds(c) == t
  {
    var day := DayExists(t / 86400);
    var rest := t % 86400;
    c := Civil(day.year, day.month, day.day, rest / 3600, rest / 60 % 60, rest % 60);
  }

  // ----- Stored times -----

  /** Seconds before the year 1, in which Go's zero time is. */
  const BEFORE_GO := 366 * 86400

  /** A stored time, in seconds from Go's zero time, with a year up to 9999. */
  predicate IsWritable(t: int) {
    0 <= t + BEFORE_GO < DaysBeforeYear(10000) * 86400
  }

  lemma CivilExists(t: int)
    requires IsWritable(t)
    ensures exists c :: IsCivil(c) && Seconds(c) == t + BEFORE_GO
  {
    var c := TimeHasText(t + BEFORE_GO);
  }

  ghost function CivilOf(t: int): (c: Civil)
    requires IsWritable(t)
    ensures IsCivil(c) && Seconds(c) == t + BEFORE_GO && Days(c) == t / 86400 + 366
  {
    CivilExists(t);
    var c :| IsCivil(c) && Seconds(c) == t + BEFORE_GO;
    c
  }

  /** What is stored for a time. */
  ghost function StampText(t: int): string
    requires IsWritable(t)
  {
    Format(CivilOf(t))
  }

  /** Stored times are compared as texts; that compares the times. */
  lemma StampOrderIsTextOrder(a: int, b: int)
    requires IsWritable(a) && IsWritable(b)
    ensures Less(StampText(a), StampText(b)) <==> a < b
    ensures StampText(a) == StampText(b) <==> a == b
  {
    TextOrderIsTimeOrder(CivilOf(a), CivilOf(b));
  }

  /** The time as SQLite's datetime prints it. */
  function SqliteText(c: Civil): string {
    Digits(c.year, 4) + ("-" + (Digits(c.month, 2) + ("-" + (Digits(c.day, 2) + (" " +
    (Digits(c.hour, 2) + (":" + (Digits(c.minute, 2) + (":" + Digits(c.second, 2))))))))))
  }

  /** Against a text of the other form, only the day counts: at the same day, "T" is above the space. */
  lemma SqliteOrderIsDayOrder(a: Civil, b: Civil)
    requires IsCivil(a) && IsCivil(b)
    ensures Less(Format(a), SqliteText(b)) <==> Days(a) < Days(b)
  {
    assert Power10(2) == 100 && Power10(4) == 10000 by { assert Power10(3) == 1000; }
    var a4 := Digits(a.hour, 2) + (":" + (Digits(a.minute, 2) + (":" + (Digits(a.second, 2) + "Z"))));
    var b4 := Digits(b.hour, 2) + (":" + (Digits(b.minute, 2) + (":" + Digits(b.second, 2))));
    var a3, b3 := Digits(a.day, 2) + ("T" + a4), Digits(b.day, 2) + (" " + b4);
    var a2, b2 := Digits(a.month, 2) + ("-" + a3), Digits(b.month, 2) + ("-" + b3);
    DigitsOrder(a.day, b.day, 2);
    LessByParts(Digits(a.day, 2), Digits(b.day, 2), "T" + a4, " " + b4);
    FieldOrder(a.month, b.month, 2, "-", a3, b3);
    FieldOrder(a.year, b.year, 4, "-", a2, b2);
    if Less(Format(a), SqliteText(b)) { DayBeforeDay(a, b); }
    if IsBefore(b, a) && (a.year, a.month, a.day) != (b.year, b.month, b.day) { DayBeforeDay(b, a); }
  }

  // ----- The calendar and the fields of a text -----

  lemma FourthYears(y: nat)
    ensures (y + 4) / 4 == (y + 3) / 4 + if y % 4 == 0 then 1 else 0
  {}

  lemma HundredthYears(y: nat)
    ensures (y + 100) / 100 == (y + 99) / 100 + if y % 100 == 0 then 1 else 0
  {}

  lemma FourHundredthYears(y: nat)
    ensures (y + 400) / 400 == (y + 399) / 400 + if y % 400 == 0 then 1 else 0
  {}

  lemma HundredthIsFourth(y: nat)
    ensures y % 100 == 0 ==> y % 4 == 0
    ensures y % 400 == 0 ==> y % 100 == 0
  {
    if y % 100 == 0 { assert y == 4 * (25 * (y / 100)); }
    if y % 400 == 0 { assert y == 100 * (4 * (y / 400)); }
  }

  /** Every fourth year has a day more, except the hundredth years that are no four hundredth. */
  lemma {:induction false} DaysBeforeYearIs(year: nat)
    ensures DaysBeforeYear(year) == 365 * year + (year + 3) / 4 - (year + 99) / 100 + (year + 399) / 400
  {
    if year > 0 {
      DaysBeforeYearIs(year - 1);
      FourthYears(year - 1);
      HundredthYears(year - 1);
      FourHundredthYears(year - 1);
      HundredthIsFourth(year - 1);
    }
  }

  lemma DaysTo1970()
    ensures DaysBeforeYear(1970) == 719_528 && DaysBeforeYear(10000) == 3_652_425
  {
    DaysBeforeYearIs(1970);
    DaysBeforeYearIs(10000);
  }

  /** The stored time 62135596800 is the Unix epoch. */
  lemma StampOfEpoch()
    ensures IsWritable(62_135_596_800) && CivilOf(62_135_596_800) == Civil(1970, 1, 1, 0, 0, 0)
  {
    DaysTo1970();
    EpochFrom(DaysBeforeYear(1970));
  }

  lemma EpochFrom(days: nat)
    requires days == DaysBeforeYear(1970) == 719_528 && IsWritable(62_135_596_800)
    ensures CivilOf(62_135_596_800) == Civil(1970, 1, 1, 0, 0, 0)
  {
    var epoch := Civil(1970, 1, 1, 0, 0, 0);
    assert DaysBeforeMonth(1970, 1) == 0;
    assert Seconds(epoch) == 719_528 * 86400;
    OneTime(CivilOf(62_135_596_800), epoch);
  }

  /** Different times are different seconds. */
  lemma OneTime(a: Civil, b: Civil)
    requires IsCivil(a) && IsCivil(b) && Seconds(a) == Seconds(b)
    ensures a == b
  {
    if IsBefore(a, b) { BeforeIsEarlier(a, b); }
    if IsBefore(b, a) { BeforeIsEarlier(b, a); }
  }

  lemma {:induction false} DigitsRead(n: nat, width: nat)
    requires n < Power10(width)
    ensures DigitsValue(Digits(n, width)) == n && forall i :: 0 <= i < width ==> IsDigit(Digits(n, width)[i])
    decreases width
  {
    if width > 0 {
      DigitsRead(n / 10, width - 1);
      assert Digits(n, width)[..width - 1] == Digits(n / 10, width - 1);
    }
  }

  /** A text with the date in front, in the order year, month, day, each in digits with "-" between them. */
  predicate HasDate(s: string, c: Civil) {
    && |s| >= 19 && DigitsValue(s[..4]) == c.year && s[4] == '-' && DigitsValue(s[5..7]) == c.month && s[7] == '-'
    && DigitsValue(s[8..10]) == c.day
  }

  /** The same for the time of the day, from position 11 on and with ":". */
  predicate HasTime(s: string, c: Civil) {
    && |s| >= 19 && DigitsValue(s[11..13]) == c.hour && s[13] == ':' && DigitsValue(s[14..16]) == c.minute && s[16] == ':'
    && DigitsValue(s[17..19]) == c.second
  }

  /** The part of a text after its first part and a separator. */
  lemma NextField(part: string, separator: char, rest: string, s: string)
    requires s == part + ([separator] + rest)
    ensures |s| == |part| + 1 + |rest| && s[..|part|] == part && s[|part|] == separator && s[|part| + 1..] == rest
  {
    assert s == (part + [separator]) + rest;
  }

  lemma Positions(s: string, from: nat, rest: string, i: nat, j: nat)
    requires from <= |s| && s[from..] == rest && i <= j <= |rest|
    ensures s[from + i..from + j] == rest[i..j] && (j < |rest| ==> s[from + j] == rest[j])
    ensures s[from + j..] == rest[j..]
  {
    assert s[from..][i..j] == s[from + i..from + j];
    assert s[from..][j..] == s[from + j..];
  }

  lemma ThreeFields(a: string, b: string, c: string, separator: char, rest: string, s: string)
    requires s == a + ([separator] + (b + ([separator] + (c + rest)))) && |b| == 2 && |c| == 2
    ensures var k := |a|;
            && |s| == k + 6 + |rest| && s[..k] == a && s[k] == separator && s[k + 1..k + 3] == b && s[k + 3] == separator
            && s[k + 4..k + 6] == c && s[k + 6..] == rest
  {
    NextField(a, separator, b + ([separator] + (c + rest)), s);
    var tail := s[|a| + 1..];
    NextField(b, separator, c + rest, tail);
    Positions(s, |a| + 1, tail, 0, 2);
    Positions(s, |a| + 1, tail, 2, 3);
    var last := s[|a| + 4..];
    assert last == c + rest;
    Positions(s, |a| + 4, last, 0, 2);
    assert last[..2] == c && last[2..] == rest;
  }

  lemma DateFields(c: Civil, rest: string)
    requires IsCivil(c) && |rest| >= 9
    ensures HasDate(Digits(c.year, 4) + ("-" + (Digits(c.month, 2) + ("-" + (Digits(c.day, 2) + rest)))), c)
  {
    assert Power10(2) == 100 && Power10(4) == 10000 by { assert Power10(3) == 1000; }
    DigitsRead(c.year, 4);
    DigitsRead(c.month, 2);
    DigitsRead(c.day, 2);
    ThreeFields(Digits(c.year, 4), Digits(c.month, 2), Digits(c.day, 2), '-', rest,
                Digits(c.year, 4) + ("-" + (Digits(c.month, 2) + ("-" + (Digits(c.day, 2) + rest)))));
  }

  lemma TimeFields(c: Civil, date: string, rest: string)
    requires IsCivil(c) && |date| == 11
    ensures HasTime(date + (Digits(c.hour, 2) + (":" + (Digits(c.minute, 2) + (":" + (Digits(c.second, 2) + rest))))), c)
  {
    var time := Digits(c.hour, 2) + (":" + (Digits(c.minute, 2) + (":" + (Digits(c.second, 2) + rest))));
    assert Power10(2) == 100;
    DigitsRead(c.hour, 2);
    DigitsRead(c.minute, 2);
    DigitsRead(c.second, 2);
    ThreeFields(Digits(c.hour, 2), Digits(c.minute, 2), Digits(c.second, 2), ':', rest, time);
    TimeAfterDate(c, date, time);
  }

  lemma TimeAfterDate(c: Civil, date: string, time: string)
    requires |date| == 11 && |time| >= 8
    requires DigitsValue(time[..2]) == c.hour && time[2] == ':' && DigitsValue(time[3..5]) == c.minute && time[5] == ':'
    requires DigitsValue(time[6..8]) == c.second
    ensures HasTime(date + time, c)
  {
    var s := date + time;
    assert s[11..] == time;
    Positions(s, 11, time, 0, 2);
    Positions(s, 11, time, 3, 5);
    Positions(s, 11, time, 6, 8);
  }

  /** Date and time as they stand in both kinds of text. */
  lemma Regroup(c: Civil, separator: string, rest: string)
    ensures Digits(c.year, 4) + ("-" + (Digits(c.month, 2) + ("-" + (Digits(c.day, 2) + (separator + rest)))))
            == (Digits(c.year, 4) + ("-" + (Digits(c.month, 2) + ("-" + (Digits(c.day, 2) + separator))))) + rest
  {}

  /** Both texts hold the fields of the time in digits, with "T" or a space between date and time. */
  lemma TextsHoldFields(c: Civil)
    requires IsCivil(c)
    ensures HasDate(Format(c), c) && HasTime(Format(c), c) && |Format(c)| == 20
    ensures Format(c)[10] == 'T' && Format(c)[19] == 'Z'
    ensures HasDate(SqliteText(c), c) && HasTime(SqliteText(c), c) && |SqliteText(c)| == 19 && SqliteText(c)[10] == ' '
  {
    var zulu := Digits(c.hour, 2) + (":" + (Digits(c.minute, 2) + (":" + (Digits(c.second, 2) + "Z"))));
    DateFields(c, "T" + zulu);
    Regroup(c, "T", zulu);
    TimeFields(c, Digits(c.year, 4) + ("-" + (Digits(c.month, 2) + ("-" + (Digits(c.day, 2) + "T")))), "Z");
    var plain := Digits(c.hour, 2) + (":" + (Digits(c.minute, 2) + (":" + Digits(c.second, 2))));
    DateFields(c, " " + plain);
    Regroup(c, " ", plain);
    assert Digits(c.second, 2) + "" == Digits(c.second, 2);
    TimeFields(c, Digits(c.year, 4) + ("-" + (Digits(c.month, 2) + ("-" + (Digits(c.day, 2) + " ")))), "");
  }
}
