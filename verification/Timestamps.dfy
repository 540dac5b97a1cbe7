/** Timestamps as text: the CLI prints them, the daemon parses them, and SQLite compares them as text. */
module Timestamps {
  import opened Wrappers
  import opened Strings
  import opened Decimal
  import opened Calendar
  import opened Store

  /** What the parser returns: nothing, an instant, or no return at all (an out-of-bounds index). */
  datatype Parsed = Rejected | Aborted | Instant(seconds: int)

  datatype Fields = Fields(date: Date, hour: nat, minute: nat, second: nat)

  const I64_LIMIT := 0x8000_0000_0000_0000

  // ---------------------------------------------------------------- the two programs

  function TextOfFields(f: Fields): string {
    Join([Join([ZeroPadded(f.date.year, 4), ZeroPadded(f.date.month, 2), ZeroPadded(f.date.day, 2)], '-'),
          Join([ZeroPadded(f.hour, 2), ZeroPadded(f.minute, 2), ZeroPadded(f.second, 2)], ':')], ' ')
  }

  ghost function FieldsOf(seconds: nat): Fields {
    var t := seconds % 86400;
    Fields(DateOf(seconds / 86400), t / 3600, t % 3600 / 60, t % 60)
  }

  /** The timestamp text of an instant from 1970 on. */
  ghost function Text(seconds: nat): string {
    TextOfFields(FieldsOf(seconds))
  }

  /** The CLI's `format_timestamp`. Its cast to `u64` wraps negative seconds. */
  method FormatTimestamp(seconds: int) returns (text: string)
    requires -I64_LIMIT <= seconds < I64_LIMIT
    ensures text == Text(seconds % (2 * I64_LIMIT))
  {
    var secs := seconds % (2 * I64_LIMIT);
    var days, timeSecs := secs / 86400, secs % 86400;
    var hours, mins, s := timeSecs / 3600, timeSecs % 3600 / 60, timeSecs % 60;
    var date := DaysToDate(days);
    text := ZeroPadded(date.year, 4) + "-" + ZeroPadded(date.month, 2) + "-" + ZeroPadded(date.day, 2) + " "
            + ZeroPadded(hours, 2) + ":" + ZeroPadded(mins, 2) + ":" + ZeroPadded(s, 2);
    TextIsDateAndTime(FieldsOf(secs));
  }

  /** The value of a timestamp text, loops in closed form. */
  function ParseText(s: string): Parsed {
    var parts := Split(s, ' ');
    if |parts| != 2 then Rejected
    else
      var date, time := Numbers(Split(parts[0], '-')), Numbers(Split(parts[1], ':'));
      if |date| != 3 || |time| != 3 then Rejected
      else if date[1] > 13 then Aborted
      else Instant(DaysFromFields(date[0], date[1], date[2]) * 86400 + time[0] * 3600 + time[1] * 60 + time[2])
  }

  /** The daemon's `chrono_parse_naive`. */
  method ParseNaive(s: string) returns (r: Parsed)
    ensures r == ParseText(s)
  {
    var parts := Split(s, ' ');
    if |parts| != 2 {
      return Rejected;
    }
    var date, time := Numbers(Split(parts[0], '-')), Numbers(Split(parts[1], ':'));
    if |date| != 3 || |time| != 3 {
      return Rejected;
    }
    var days := CountDays(date[0], date[1], date[2]);
    if days.None? {
      return Aborted;
    }
    return Instant(days.value * 86400 + time[0] * 3600 + time[1] * 60 + time[2]);
  }

  // ---------------------------------------------------------------- joining and splitting

  lemma JoinTwo(a: string, b: string, sep: char)
    ensures Join([a, b], sep) == a + [sep] + b
  {
    assert [a, b][1..] == [b];
  }

  lemma JoinThree(a: string, b: string, c: string, sep: char)
    ensures Join([a, b, c], sep) == a + [sep] + b + [sep] + c
  {
    assert [a, b, c][1..] == [b, c];
    JoinTwo(b, c, sep);
  }

  lemma TextIsJoined(f: Fields)
    ensures TextOfFields(f) ==
            Join([ZeroPadded(f.date.year, 4), ZeroPadded(f.date.month, 2), ZeroPadded(f.date.day, 2)], '-') + " "
            + Join([ZeroPadded(f.hour, 2), ZeroPadded(f.minute, 2), ZeroPadded(f.second, 2)], ':')
  {
    JoinTwo(Join([ZeroPadded(f.date.year, 4), ZeroPadded(f.date.month, 2), ZeroPadded(f.date.day, 2)], '-'),
            Join([ZeroPadded(f.hour, 2), ZeroPadded(f.minute, 2), ZeroPadded(f.second, 2)], ':'), ' ');
  }

  function DateText(d: Date): string {
    ZeroPadded(d.year, 4) + "-" + ZeroPadded(d.month, 2) + "-" + ZeroPadded(d.day, 2)
  }

  /** The one format string of the CLI. */
  lemma TextIsDateAndTime(f: Fields)
    ensures TextOfFields(f) == DateText(f.date) + " " + ZeroPadded(f.hour, 2) + ":" + ZeroPadded(f.minute, 2)
                               + ":" + ZeroPadded(f.second, 2)
  {
    TextIsJoined(f);
    var y, m, d := ZeroPadded(f.date.year, 4), ZeroPadded(f.date.month, 2), ZeroPadded(f.date.day, 2);
    var h, n, s := ZeroPadded(f.hour, 2), ZeroPadded(f.minute, 2), ZeroPadded(f.second, 2);
    JoinThree(y, m, d, '-');
    JoinThree(h, n, s, ':');
    SixParts(y, m, d, h, n, s);
  }

  lemma SixParts(y: string, m: string, d: string, h: string, n: string, s: string)
    ensures y + ['-'] + m + ['-'] + d + " " + (h + [':'] + n + [':'] + s)
         == y + "-" + m + "-" + d + " " + h + ":" + n + ":" + s
  {
  }

  lemma SplitThree(a: string, b: string, c: string, sep: char)
    requires AllDigits(a) && AllDigits(b) && AllDigits(c) && !IsDigit(sep)
    ensures Split(Join([a, b, c], sep), sep) == [a, b, c]
    ensures forall x <- Join([a, b, c], sep) :: IsDigit(x) || x == sep
  {
    SplitOfJoin([a, b, c], sep);
    JoinThree(a, b, c, sep);
  }

  lemma SplitText(f: Fields)
    ensures var parts := Split(TextOfFields(f), ' ');
            && |parts| == 2
            && Split(parts[0], '-')
               == [ZeroPadded(f.date.year, 4), ZeroPadded(f.date.month, 2), ZeroPadded(f.date.day, 2)]
            && Split(parts[1], ':') == [ZeroPadded(f.hour, 2), ZeroPadded(f.minute, 2), ZeroPadded(f.second, 2)]
  {
    SplitThree(ZeroPadded(f.date.year, 4), ZeroPadded(f.date.month, 2), ZeroPadded(f.date.day, 2), '-');
    SplitThree(ZeroPadded(f.hour, 2), ZeroPadded(f.minute, 2), ZeroPadded(f.second, 2), ':');
    SplitOfJoin([Join([ZeroPadded(f.date.year, 4), ZeroPadded(f.date.month, 2), ZeroPadded(f.date.day, 2)], '-'),
                 Join([ZeroPadded(f.hour, 2), ZeroPadded(f.minute, 2), ZeroPadded(f.second, 2)], ':')], ' ');
  }

  lemma NumbersUnfold(first: string, rest: seq<string>)
    ensures Numbers([first] + rest) ==
            (match ParseU32(first) case Some(n) => [n] case None => []) + Numbers(rest)
    ensures |Numbers([first] + rest)| <= 1 + |Numbers(rest)|
  {
    assert ([first] + rest)[1..] == rest;
  }

  lemma NumbersOfThree(a: string, b: string, c: string)
    ensures var all := Numbers([a, b, c]);
            var kept := [ParseU32(a), ParseU32(b), ParseU32(c)];
            && (kept[0].Some? && kept[1].Some? && kept[2].Some? ==>
                  all == [kept[0].value, kept[1].value, kept[2].value])
            && (kept[0].None? || kept[1].None? || kept[2].None? ==> |all| <= 2)
  {
    NumbersUnfold(a, [b, c]);
    NumbersUnfold(b, [c]);
    NumbersUnfold(c, []);
    assert [a] + [b, c] == [a, b, c] && [b] + [c] == [b, c] && [c] + [] == [c];
  }

  // ---------------------------------------------------------------- parsing what was printed

  ghost predicate IsClock(f: Fields) {
    IsLegal(f.date) && f.hour < 24 && f.minute < 60 && f.second < 60
  }

  function SecondsOf(f: Fields): int
    requires 1 <= f.date.month <= 13
  {
    DayNumber(f.date) * 86400 + f.hour * 3600 + f.minute * 60 + f.second
  }

  /** Every field fits the parser's `u32`. */
  predicate FieldsFit(f: Fields) {
    && f.date.year < U32_LIMIT && f.date.month < U32_LIMIT && f.date.day < U32_LIMIT
    && f.hour < U32_LIMIT && f.minute < U32_LIMIT && f.second < U32_LIMIT
  }

  lemma NumbersOfPadded(a: nat, b: nat, c: nat, width: nat)
    ensures var all := Numbers([ZeroPadded(a, width), ZeroPadded(b, 2), ZeroPadded(c, 2)]);
            if a < U32_LIMIT && b < U32_LIMIT && c < U32_LIMIT then all == [a, b, c] else |all| <= 2
  {
    ParsePadded(a, width);
    ParsePadded(b, 2);
    ParsePadded(c, 2);
    NumbersOfThree(ZeroPadded(a, width), ZeroPadded(b, 2), ZeroPadded(c, 2));
  }

  /** Nothing is checked of the fields but that they fit and that the month does not run off its table. */
  lemma ParseOfAnyFields(f: Fields)
    ensures ParseText(TextOfFields(f)) ==
            if !FieldsFit(f) then Rejected
            else if f.date.month > 13 then Aborted
            else Instant(DaysFromFields(f.date.year, f.date.month, f.date.day) * 86400
                         + f.hour * 3600 + f.minute * 60 + f.second)
  {
    SplitText(f);
    NumbersOfPadded(f.date.year, f.date.month, f.date.day, 4);
    NumbersOfPadded(f.hour, f.minute, f.second, 2);
  }

  lemma ParseOfFields(f: Fields)
    requires IsClock(f)
    ensures ParseText(TextOfFields(f)) == if f.date.year < U32_LIMIT then Instant(SecondsOf(f)) else Rejected
  {
    assert DaysInMonth(f.date.year, f.date.month) <= 31;
    ParseOfAnyFields(f);
    CountIsExact(f.date.year, f.date.month, f.date.day);
  }

  lemma TextIsInjective(f: Fields, g: Fields)
    requires TextOfFields(f) == TextOfFields(g)
    ensures f == g
  {
    SplitText(f);
    SplitText(g);
    PaddedIsInjective(f.date.year, g.date.year, 4);
    PaddedIsInjective(f.date.month, g.date.month, 2);
    PaddedIsInjective(f.date.day, g.date.day, 2);
    PaddedIsInjective(f.hour, g.hour, 2);
    PaddedIsInjective(f.minute, g.minute, 2);
    PaddedIsInjective(f.second, g.second, 2);
  }

  lemma PaddedIsInjective(n: nat, m: nat, width: nat)
    ensures ZeroPadded(n, width) == ZeroPadded(m, width) ==> n == m
  {
    ValueOfPadded(n, width);
    ValueOfPadded(m, width);
  }

  /** The parser reads fields that are no date or no time of day as some instant; that instant prints as the text
      it was read from exactly when the fields are a legal date from 1970 on and a time of day. */
  lemma ReadingIsExact(f: Fields)
    requires FieldsFit(f) && f.date.month <= 13
    ensures var r := ParseText(TextOfFields(f));
            r.Instant? && (r.seconds >= 0 && Text(r.seconds) == TextOfFields(f) <==> IsClock(f))
  {
    ParseOfAnyFields(f);
    var n := ParseText(TextOfFields(f)).seconds;
    if IsClock(f) {
      ParseOfFields(f);
      ClockOfSeconds(f);
    } else if n >= 0 && Text(n) == TextOfFields(f) {
      TextIsInjective(FieldsOf(n), f);
      FieldsAreClock(n);
    }
  }

  /** A part that is no number is dropped wherever it stands, before the parts are counted. */
  lemma {:induction false} JunkIsDropped(before: seq<string>, junk: string, after: seq<string>)
    requires ParseU32(junk).None?
    ensures Numbers(before + [junk] + after) == Numbers(before + after)
    decreases |before|
  {
    if before == [] {
      assert before + [junk] + after == [junk] + after && ([junk] + after)[1..] == after && before + after == after;
    } else {
      JunkIsDropped(before[1..], junk, after);
      assert (before + [junk] + after)[1..] == before[1..] + [junk] + after;
      assert (before + after)[1..] == before[1..] + after;
    }
  }

  /** What the parser wants of any text: one space, and three numbers among the parts on either side. */
  lemma ParsingIsExact(s: string, date: string, time: string)
    requires ' ' !in date && ' ' !in time && s == date + [' '] + time
    ensures var d, t := Numbers(Split(date, '-')), Numbers(Split(time, ':'));
            && (ParseText(s).Rejected? <==> |d| != 3 || |t| != 3)
            && (ParseText(s).Aborted? <==> |d| == |t| == 3 && d[1] > 13)
            && (|d| == |t| == 3 && d[1] <= 13 ==>
                  ParseText(s) == Instant(DaysFromFields(d[0], d[1], d[2]) * 86400 + t[0] * 3600 + t[1] * 60 + t[2]))
  {
    SplitAtSeparator(date, time, ' ');
    SplitWithoutSeparator(time, ' ');
  }

  /** In particular a text of a month from 1 to 12 is read as the instant of its fields exactly from 1970 on. */
  lemma ReadingIsRightFrom1970(f: Fields)
    requires FieldsFit(f) && 1 <= f.date.month <= 12
    ensures ParseText(TextOfFields(f)) == Instant(SecondsOf(f)) <==> f.date.year >= 1970
  {
    ParseOfAnyFields(f);
    CountIsExact(f.date.year, f.date.month, f.date.day);
  }

  /** A year before 1970 is read as 1970. */
  lemma EarlyYearIsMisread(s: string)
    requires s == "1969-01-01 00:00:00"
    ensures ParseText(s) == Instant(0)
  {
    Read("1969", 1969, "01", 1, "01", 1);
    Midnight(s, "1969", "01", "01");
  }

  /** Day 0 is read as the day before. */
  lemma DayZeroIsMisread(s: string)
    requires s == "1970-01-00 00:00:00"
    ensures ParseText(s) == Instant(-86400)
  {
    Read("1970", 1970, "01", 1, "00", 0);
    Midnight(s, "1970", "01", "00");
    YearStep(1970);
  }

  /** Month 13 is read as the next January. */
  lemma MonthThirteenIsMisread(s: string)
    requires s == "1970-13-01 00:00:00"
    ensures ParseText(s) == Instant(DayNumber(Date(1971, 1, 1)) * 86400)
  {
    Read("1970", 1970, "13", 13, "01", 1);
    Midnight(s, "1970", "13", "01");
    YearStep(1970);
    MonthStep(1970, 12);
  }

  lemma Read(y: string, year: nat, m: string, month: nat, d: string, day: nat)
    requires |y| == 4 && |m| == |d| == 2 && AllDigits(y) && AllDigits(m) && AllDigits(d)
    requires year == DigitValue(y[0]) * 1000 + DigitValue(y[1]) * 100 + DigitValue(y[2]) * 10 + DigitValue(y[3])
    requires month == DigitValue(m[0]) * 10 + DigitValue(m[1]) && day == DigitValue(d[0]) * 10 + DigitValue(d[1])
    ensures Value(y) == year && Value(m) == month && Value(d) == day
  {
    FourDigits(y);
    TwoDigits(m);
    TwoDigits(d);
  }

  lemma TwoDigits(s: string)
    requires |s| == 2 && AllDigits(s)
    ensures Value(s) == DigitValue(s[0]) * 10 + DigitValue(s[1])
  {
    LastDigit("", s[0]);
    LastDigit(s[..1], s[1]);
    assert s == s[..1] + [s[1]] && s[..1] == "" + [s[0]];
  }

  lemma FourDigits(s: string)
    requires |s| == 4 && AllDigits(s)
    ensures Value(s)
         == DigitValue(s[0]) * 1000 + DigitValue(s[1]) * 100 + DigitValue(s[2]) * 10 + DigitValue(s[3])
  {
    TwoDigits(s[..2]);
    LastDigit(s[..2], s[2]);
    LastDigit(s[..3], s[3]);
    assert s == s[..3] + [s[3]] && s[..3] == s[..2] + [s[2]];
  }

  lemma Midnight(s: string, y: string, m: string, d: string)
    requires |y| == 4 && |m| == |d| == 2 && AllDigits(y) && AllDigits(m) && AllDigits(d) && Value(m) <= 13
    requires s == y + "-" + m + "-" + d + " 00:00:00"
    ensures ParseText(s) == Instant(DaysFromFields(Value(y), Value(m), Value(d)) * 86400)
  {
    PaddedOfValue(y);
    PaddedOfValue(m);
    PaddedOfValue(d);
    PowersOfTen();
    var f := Fields(Date(Value(y), Value(m), Value(d)), 0, 0, 0);
    MidnightText(f, y + "-" + m + "-" + d);
    ParseOfAnyFields(f);
  }

  lemma MidnightText(f: Fields, date: string)
    requires DateText(f.date) == date && f.hour == f.minute == f.second == 0
    ensures TextOfFields(f) == date + " 00:00:00"
  {
    TextIsDateAndTime(f);
    assert Zeros(1) == "0" && Digits(0) == "0";
    assert ZeroPadded(0, 2) == "00";
    assert date + " " + "00" + ":" + "00" + ":" + "00" == date + " 00:00:00";
  }

  lemma FieldsAreClock(seconds: nat)
    ensures IsClock(FieldsOf(seconds)) && SecondsOf(FieldsOf(seconds)) == seconds
  {
    var t := seconds % 86400;
    assert t == t / 3600 * 3600 + t % 3600;
    assert t % 3600 == t % 3600 / 60 * 60 + t % 3600 % 60;
    assert t % 3600 % 60 == t % 60;
  }

  /** The first instant whose year no longer fits the parser's `u32`. */
  const FIRST_UNPARSABLE: int := DaysBeforeYear(U32_LIMIT) * 86400

  lemma YearFits(seconds: nat)
    ensures FieldsOf(seconds).date.year < U32_LIMIT <==> seconds < FIRST_UNPARSABLE
    ensures I64_LIMIT > FIRST_UNPARSABLE
  {
    var d := FieldsOf(seconds).date;
    DayInYear(d);
    if d.year < U32_LIMIT {
      YearsAreOrdered(d.year, U32_LIMIT);
    } else if d.year > U32_LIMIT {
      YearsAreOrdered(U32_LIMIT, d.year);
    }
  }

  lemma ParseOfText(seconds: nat)
    ensures ParseText(Text(seconds)) == if seconds < FIRST_UNPARSABLE then Instant(seconds) else Rejected
  {
    FieldsAreClock(seconds);
    ParseOfFields(FieldsOf(seconds));
    YearFits(seconds);
  }

  /** Printing then parsing, over all of `i64`: the identity exactly from the epoch up to the last year that
      fits a `u32`; everything else is rejected, never misread. */
  lemma PrintThenParse(seconds: int)
    requires -I64_LIMIT <= seconds < I64_LIMIT
    ensures ParseText(Text(seconds % (2 * I64_LIMIT))) ==
            if 0 <= seconds < FIRST_UNPARSABLE then Instant(seconds) else Rejected
  {
    YearFits(0);
    Wrap(seconds);
    ParseOfText(seconds % (2 * I64_LIMIT));
  }

  /** `ts.seconds as u64` */
  lemma Wrap(seconds: int)
    requires -I64_LIMIT <= seconds < I64_LIMIT
    ensures seconds % (2 * I64_LIMIT) == if seconds >= 0 then seconds else seconds + 2 * I64_LIMIT
  {
  }

  // ---------------------------------------------------------------- printing what was parsed

  /** A text of the form "YYYY-MM-DD HH:MM:SS" that names a legal date and time of day from 1970 to 9999. */
  ghost predicate IsValidText(s: string) {
    && |s| == 19
    && s[4] == '-' && s[7] == '-' && s[10] == ' ' && s[13] == ':' && s[16] == ':'
    && AllDigits(s[0..4]) && AllDigits(s[5..7]) && AllDigits(s[8..10])
    && AllDigits(s[11..13]) && AllDigits(s[14..16]) && AllDigits(s[17..19])
    && IsClock(ReadFields(s))
  }

  ghost function ReadFields(s: string): Fields
    requires |s| == 19
    requires AllDigits(s[0..4]) && AllDigits(s[5..7]) && AllDigits(s[8..10])
    requires AllDigits(s[11..13]) && AllDigits(s[14..16]) && AllDigits(s[17..19])
  {
    Fields(Date(Value(s[0..4]), Value(s[5..7]), Value(s[8..10])),
           Value(s[11..13]), Value(s[14..16]), Value(s[17..19]))
  }

  lemma ValidTextIsPrinted(s: string)
    requires IsValidText(s)
    ensures s == TextOfFields(ReadFields(s)) && ReadFields(s).date.year < U32_LIMIT
  {
    var f := ReadFields(s);
    PaddedOfValue(s[0..4]);
    PaddedOfValue(s[5..7]);
    PaddedOfValue(s[8..10]);
    PaddedOfValue(s[11..13]);
    PaddedOfValue(s[14..16]);
    PaddedOfValue(s[17..19]);
    PowersOfTen();
    TextIsDateAndTime(f);
    Nineteen(s);
  }

  lemma Nineteen(s: string)
    requires |s| == 19 && s[4] == '-' && s[7] == '-' && s[10] == ' ' && s[13] == ':' && s[16] == ':'
    ensures s == s[0..4] + "-" + s[5..7] + "-" + s[8..10] + " " + s[11..13] + ":" + s[14..16] + ":" + s[17..19]
  {
  }

  lemma PowersOfTen()
    ensures Pow10(2) == 100 && Pow10(4) == 10000
  {
    assert Pow10(1) == 10 && Pow10(2) == 100 && Pow10(3) == 1000;
  }

  lemma ClockOfSeconds(f: Fields)
    requires IsClock(f)
    ensures SecondsOf(f) >= 0 && FieldsOf(SecondsOf(f)) == f
  {
    LegalDaysAreNotNegative(f.date);
    var t := f.hour * 3600 + f.minute * 60 + f.second;
    var seconds := SecondsOf(f);
    assert t < 86400 && seconds == DayNumber(f.date) * 86400 + t;
    assert seconds / 86400 == DayNumber(f.date) && seconds % 86400 == t;
    assert t % 3600 == f.minute * 60 + f.second;
    DayNumbersFollowDates(f.date, DateOf(seconds / 86400));
  }

  /** Parsing then printing is the identity on every valid text. */
  lemma ParseThenPrint(s: string)
    requires IsValidText(s)
    ensures ParseText(s).Instant? && ParseText(s).seconds >= 0 && Text(ParseText(s).seconds) == s
  {
    ValidTextIsPrinted(s);
    ParseOfFields(ReadFields(s));
    ClockOfSeconds(ReadFields(s));
  }

  // ---------------------------------------------------------------- text order is time order

  ghost predicate ClockEarlier(f: Fields, g: Fields) {
    Earlier(f.date, g.date) ||
    (f.date == g.date && (f.hour < g.hour || (f.hour == g.hour && (f.minute < g.minute ||
      (f.minute == g.minute && f.second < g.second)))))
  }

  lemma SecondsFollowClock(f: Fields, g: Fields)
    requires IsClock(f) && IsClock(g)
    ensures ClockEarlier(f, g) <==> SecondsOf(f) < SecondsOf(g)
  {
    DayNumbersFollowDates(f.date, g.date);
    DayNumbersFollowDates(g.date, f.date);
  }

  /** Appending equal separators and a field extends the order lexicographically. */
  lemma NextField(a: string, b: string, sep: string, n: nat, m: nat, width: nat)
    requires |a| == |b| && width >= 1 && n < Pow10(width) && m < Pow10(width)
    ensures var x, y := a + sep + ZeroPadded(n, width), b + sep + ZeroPadded(m, width);
            && |x| == |y|
            && (TextLess(x, y) <==> TextLess(a, b) || (a == b && n < m))
            && (x == y <==> a == b && n == m)
  {
    TextOrderOfPadded(n, m, width);
    PaddedLength(n, width);
    PaddedLength(m, width);
    NextPart(a, b, sep, ZeroPadded(n, width), ZeroPadded(m, width));
  }

  lemma NextPart(a: string, b: string, sep: string, p: string, q: string)
    requires |a| == |b| && |p| == |q|
    ensures TextLess(a + sep + p, b + sep + q) <==> TextLess(a, b) || (a == b && TextLess(p, q))
    ensures a + sep + p == b + sep + q <==> a == b && p == q
  {
    OrderAfterSeparator(sep, p, q);
    TextLessOfConcat(a, b, sep + p, sep + q);
    Regroup(a, sep, p);
    Regroup(b, sep, q);
    EqualParts(a, b, sep, p, q);
    SameEnd(sep, p, q);
  }

  lemma Regroup(a: string, b: string, c: string)
    ensures a + b + c == a + (b + c)
  {
  }

  lemma SameEnd(sep: string, p: string, q: string)
    ensures sep + p == sep + q <==> p == q
  {
    assert (sep + p)[|sep|..] == p && (sep + q)[|sep|..] == q;
  }

  lemma OrderAfterSeparator(sep: string, p: string, q: string)
    ensures TextLess(sep + p, sep + q) <==> TextLess(p, q)
  {
    NotLessThanItself(sep);
    TextLessOfConcat(sep, sep, p, q);
  }

  lemma EqualParts(a: string, b: string, sep: string, p: string, q: string)
    requires |a| == |b|
    ensures a + sep + p == b + sep + q <==> a == b && p == q
  {
    var x, y := a + sep + p, b + sep + q;
    assert x[..|a|] == a && y[..|b|] == b;
    assert x[|a + sep|..] == p && y[|b + sep|..] == q;
  }

  lemma {:induction false} NotLessThanItself(s: string)
    ensures !TextLess(s, s)
  {
    if s != "" {
      NotLessThanItself(s[1..]);
    }
  }

  lemma DateTextOrder(d: Date, e: Date)
    requires IsLegal(d) && IsLegal(e) && d.year < 10000 && e.year < 10000
    ensures |DateText(d)| == |DateText(e)|
    ensures TextLess(DateText(d), DateText(e)) <==> Earlier(d, e)
    ensures DateText(d) == DateText(e) <==> d == e
  {
    PowersOfTen();
    assert DaysInMonth(d.year, d.month) <= 31 && DaysInMonth(e.year, e.month) <= 31;
    var d1, e1 := ZeroPadded(d.year, 4), ZeroPadded(e.year, 4);
    TextOrderOfPadded(d.year, e.year, 4);
    PaddedLength(d.year, 4);
    PaddedLength(e.year, 4);
    NextField(d1, e1, "-", d.month, e.month, 2);
    NextField(d1 + "-" + ZeroPadded(d.month, 2), e1 + "-" + ZeroPadded(e.month, 2), "-", d.day, e.day, 2);
  }

  /** On texts of four-digit years, text order is the order of the instants. */
  lemma TextOrderIsTimeOrder(f: Fields, g: Fields)
    requires IsClock(f) && IsClock(g) && f.date.year < 10000 && g.date.year < 10000
    ensures TextLess(TextOfFields(f), TextOfFields(g)) <==> SecondsOf(f) < SecondsOf(g)
  {
    PowersOfTen();
    TextIsDateAndTime(f);
    TextIsDateAndTime(g);
    DateTextOrder(f.date, g.date);
    var f1, g1 := DateText(f.date), DateText(g.date);
    NextField(f1, g1, " ", f.hour, g.hour, 2);
    var f2, g2 := f1 + " " + ZeroPadded(f.hour, 2), g1 + " " + ZeroPadded(g.hour, 2);
    NextField(f2, g2, ":", f.minute, g.minute, 2);
    NextField(f2 + ":" + ZeroPadded(f.minute, 2), g2 + ":" + ZeroPadded(g.minute, 2), ":", f.second, g.second, 2);
    SecondsFollowClock(f, g);
  }

  /** Valid texts, compared as SQLite does, are in the order of the instants they parse to. */
  lemma ValidTextsAreOrdered(s: string, t: string)
    requires IsValidText(s) && IsValidText(t)
    ensures ParseText(s).Instant? && ParseText(t).Instant?
    ensures TextLess(s, t) <==> ParseText(s).seconds < ParseText(t).seconds
  {
    ValidTextIsPrinted(s);
    ValidTextIsPrinted(t);
    PowersOfTen();
    PaddedOfValue(s[0..4]);
    PaddedOfValue(t[0..4]);
    ParseOfFields(ReadFields(s));
    ParseOfFields(ReadFields(t));
    TextOrderIsTimeOrder(ReadFields(s), ReadFields(t));
  }

  // ---------------------------------------------------------------- the lease statements compare text

  /** The first instant of the year 10000. */
  const YEAR_10000: int := DaysBeforeYear(10000) * 86400

  lemma StoredTextsAreOrdered(a: nat, b: nat)
    requires a < YEAR_10000 && b < YEAR_10000
    ensures TextLess(Text(a), Text(b)) <==> a < b
  {
    FourDigitYear(a);
    FourDigitYear(b);
    FieldsAreClock(a);
    FieldsAreClock(b);
    TextOrderIsTimeOrder(FieldsOf(a), FieldsOf(b));
  }

  lemma FourDigitYear(seconds: nat)
    requires seconds < YEAR_10000
    ensures FieldsOf(seconds).date.year < 10000
  {
    var d := FieldsOf(seconds).date;
    DayInYear(d);
    if d.year > 10000 {
      YearsAreOrdered(10000, d.year);
    }
  }

  /** The WHERE clause of `expire_leases`, on the stored texts. */
  ghost predicate OverdueByText(r: Row, now: nat) {
    (r.state.Active? || r.state.Pending?) && r.expiresAt.Some? && !TextLess(Text(now), Text(r.expiresAt.value))
  }

  /** The WHERE clause of `purge_released`, on the stored texts; `horizon` is now minus the retention time. */
  ghost predicate StaleByText(r: Row, horizon: nat) {
    r.state.Released? && !TextLess(Text(horizon), Text(r.updatedAt))
  }

  /** Until the year 10000 the text comparison of expiry decides what comparing instants decides. */
  lemma ExpiryComparesInstants(r: Row, now: nat)
    requires now < YEAR_10000 && (r.expiresAt.Some? ==> r.expiresAt.value < YEAR_10000)
    ensures OverdueByText(r, now) <==> Overdue(r, now)
  {
    if r.expiresAt.Some? {
      StoredTextsAreOrdered(now, r.expiresAt.value);
    }
  }

  /** And so does the text comparison of the purge. */
  lemma PurgeComparesInstants(r: Row, now: nat, ttl: nat, horizon: nat)
    requires horizon < YEAR_10000 && r.updatedAt < YEAR_10000 && now == horizon + ttl
    ensures StaleByText(r, horizon) <==> Stale(r, now, ttl)
  {
    StoredTextsAreOrdered(horizon, r.updatedAt);
  }
}
