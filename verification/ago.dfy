/**
  The duration humanizer (ago): the gap between the formatted timestamp and
  a reference time as one amount of one unit, in a "... назад" (ago) or
  "через ..." (in) template.
 */
module Ago {
  import opened Options
  import opened Text
  import opened Calendar
  import opened Plural
  import opened Formatter

  /** How much of which unit a gap is rendered as. */
  datatype Amount = Amount(unit: Unit, count: nat)

  /** Units of a fixed length in seconds (all but months and years). */
  predicate Fixed(u: Unit) {
    !u.Month? && !u.Year?
  }

  function UnitSeconds(u: Unit): nat
    requires Fixed(u)
  {
    match u
    case Second => 1
    case Minute => MinuteSeconds
    case Hour => HourSeconds
    case Day => DaySeconds
    case Week => WeekSeconds
  }

  /** How many of unit u fit before the next bucket takes over. */
  function Span(u: Unit): nat
    requires Fixed(u)
  {
    match u
    case Second => 60
    case Minute => 60
    case Hour => 24
    case Day => 7
    case Week => 4
  }

  /**
    The reference reading of a short gap: a whole number of units that does
    not exceed the gap and that the next unit up could not express (at least
    one unit, fewer than Span units). Weeks are admissible only when enabled.
   */
  predicate FixedReading(dt: nat, weeks: bool, a: Amount) {
    && Fixed(a.unit)
    && (a.unit.Week? ==> weeks)
    && UnitSeconds(a.unit) * a.count <= dt < UnitSeconds(a.unit) * (a.count + 1)
    && (!a.unit.Second? ==> 1 <= a.count)
    && a.count < Span(a.unit)
  }

  /** A gap has at most one fixed reading. */
  lemma FixedReadingUnique(dt: nat, weeks: bool, a: Amount, b: Amount)
    requires FixedReading(dt, weeks, a) && FixedReading(dt, weeks, b)
    ensures a == b
  {
    FixedReadingRange(dt, weeks, a);
    FixedReadingRange(dt, weeks, b);
  }

  /** The interval of gaps each unit's fixed reading covers. */
  lemma FixedReadingRange(dt: nat, weeks: bool, a: Amount)
    requires FixedReading(dt, weeks, a)
    ensures a.unit.Second? <==> dt < MinuteSeconds
    ensures a.unit.Minute? <==> MinuteSeconds <= dt < HourSeconds
    ensures a.unit.Hour? <==> HourSeconds <= dt < DaySeconds
    ensures a.unit.Day? <==> DaySeconds <= dt < WeekSeconds
    ensures a.unit.Week? <==> WeekSeconds <= dt < FourWeeksSeconds
    ensures a.count == dt / UnitSeconds(a.unit)
  {
  }

  /**
    The anniversary rule of the year and month branches. Two dates are at
    least one whole period apart when their period numbers differ by more
    than one, or by exactly one and the later date's day (on a tie, its time
    of day) has reached the earlier date's.
   */
  predicate Reached(span: int, loDay: int, hiDay: int, loTime: int, hiTime: int) {
    span > 1 || (span == 1 && (hiDay > loDay || (hiDay == loDay && hiTime >= loTime)))
  }

  /**
    Whole periods between two dates whose period numbers differ by span: one
    fewer when the later date's day has not reached the earlier date's.
   */
  function Whole(span: int, loDay: int, hiDay: int): (w: int)
    ensures span > 1 || (span == 1 && hiDay >= loDay) ==> 1 <= w <= span
  {
    if hiDay < loDay then span - 1 else span
  }

  /** Lexicographic order on (period, day, time) stamps. */
  predicate LexLe(a: (int, int, int), b: (int, int, int)) {
    a.0 < b.0 || (a.0 == b.0 && (a.1 < b.1 || (a.1 == b.1 && a.2 <= b.2)))
  }

  /** Lexicographic order on (period, day) stamps. */
  predicate DayLe(a: (int, int), b: (int, int)) {
    a.0 < b.0 || (a.0 == b.0 && a.1 <= b.1)
  }

  /**
    The rule read as an anniversary: at least one whole period has passed
    exactly when the earlier date moved one period on is at or before the
    later date, comparing period, then day, then time of day.
   */
  lemma ReachedIsAnniversary(span: int, loDay: int, hiDay: int, loTime: int, hiTime: int)
    ensures Reached(span, loDay, hiDay, loTime, hiTime)
        <==> LexLe((1, loDay, loTime), (span, hiDay, hiTime))
  {
  }

  /**
    Once a period has passed, the count is the number of anniversaries the
    later date has reached by day: the earlier date moved on by the count is
    at or before the later one, moved on by one more it is after it. The
    count lies between 1 and span.
   */
  lemma WholeCountsDayAnniversaries(span: int, loDay: int, hiDay: int, loTime: int, hiTime: int)
    requires Reached(span, loDay, hiDay, loTime, hiTime)
    ensures 1 <= Whole(span, loDay, hiDay) <= span
    ensures DayLe((Whole(span, loDay, hiDay), loDay), (span, hiDay))
    ensures !DayLe((Whole(span, loDay, hiDay) + 1, loDay), (span, hiDay))
  {
  }

  /**
    Months forward from month loMon to month hiMon, wrapped into one year:
    for months 1..12 it is the one value in 0..11 congruent to
    hiMon - loMon modulo 12.
   */
  function MonthSpan(loMon: int, hiMon: int): (d: int)
    ensures 1 <= loMon <= 12 && 1 <= hiMon <= 12 ==> 0 <= d <= 11
    ensures 1 <= loMon <= 12 && 1 <= hiMon <= 12 ==> d % 12 == (hiMon - loMon) % 12
  {
    var d := hiMon - loMon;
    if d < 0 then d + 12 else d
  }

  /**
    The calendar branch, for gaps of four weeks or more (one week or more
    with weeks off): whole years if a year anniversary has passed, else whole
    months if a month anniversary has passed, else weeks or days counted
    from the gap in seconds.
   */
  function CalendarAmount(dt: nat, weeks: bool, lo: CalendarPoint, hi: CalendarPoint): (a: Amount)
    ensures a.unit.Year? ==> 1 <= a.count <= hi.year - lo.year
    ensures a.unit.Month? ==> 1 <= a.count <= MonthSpan(lo.mon, hi.mon)
    ensures a.unit.Week? ==> weeks
    ensures a.unit.Year? || a.unit.Month? || a.unit.Week? || a.unit.Day?
  {
    var years := hi.year - lo.year;
    if Reached(years, lo.yday, hi.yday, DayTs(lo), DayTs(hi)) then
      Amount(Year, Whole(years, lo.yday, hi.yday))
    else
      var months := MonthSpan(lo.mon, hi.mon);
      if Reached(months, lo.mday, hi.mday, DayTs(lo), DayTs(hi)) then
        Amount(Month, Whole(months, lo.mday, hi.mday))
      else if weeks then
        Amount(Week, dt / WeekSeconds)
      else
        Amount(Day, dt / DaySeconds)
  }

  /**
    The unit buckets, tried in order: seconds, minutes, hours, days, weeks
    (when enabled), then the calendar branch on the earlier and later points.
   */
  function AmountOf(dt: nat, weeks: bool, lo: CalendarPoint, hi: CalendarPoint): (a: Amount)
    ensures dt < WeekSeconds || (weeks && dt < FourWeeksSeconds) ==> FixedReading(dt, weeks, a)
    ensures a.unit.Week? ==> weeks
  {
    if dt < MinuteSeconds then Amount(Second, dt)
    else if dt < HourSeconds then Amount(Minute, dt / MinuteSeconds)
    else if dt < DaySeconds then Amount(Hour, dt / HourSeconds)
    else if dt < WeekSeconds then Amount(Day, dt / DaySeconds)
    else if dt < FourWeeksSeconds && weeks then Amount(Week, dt / WeekSeconds)
    else CalendarAmount(dt, weeks, lo, hi)
  }

  /**
    A gap below four weeks (below one week with weeks off) gets its one fixed
    reading; every longer gap, and only those, goes to the calendar branch.
   */
  lemma AmountOfShortGap(dt: nat, weeks: bool, lo: CalendarPoint, hi: CalendarPoint)
    ensures dt < WeekSeconds || (weeks && dt < FourWeeksSeconds)
        ==> FixedReading(dt, weeks, AmountOf(dt, weeks, lo, hi))
    ensures (exists a :: FixedReading(dt, weeks, a))
        <==> dt < WeekSeconds || (weeks && dt < FourWeeksSeconds)
    ensures !(dt < WeekSeconds || (weeks && dt < FourWeeksSeconds))
        ==> AmountOf(dt, weeks, lo, hi) == CalendarAmount(dt, weeks, lo, hi)
  {
    if !(dt < WeekSeconds || (weeks && dt < FourWeeksSeconds)) {
      forall a | FixedReading(dt, weeks, a)
        ensures false
      {
        FixedReadingRange(dt, weeks, a);
      }
    }
  }

  /**
    The calendar branch stated on the calendar points: years exactly when
    the later point has reached the earlier one's first anniversary by year,
    day of the year and time of day; months exactly when no year has passed
    and it has reached the earlier one's first month anniversary by month
    (wrapped into one year), day of the month and time of day; otherwise
    the gap's whole weeks, or whole days with weeks off.
   */
  lemma CalendarRule(dt: nat, weeks: bool, lo: CalendarPoint, hi: CalendarPoint)
    ensures var a := CalendarAmount(dt, weeks, lo, hi);
      && (a.unit.Year? <==>
            LexLe((lo.year + 1, lo.yday, DayTs(lo)), (hi.year, hi.yday, DayTs(hi))))
      && (a.unit.Year? ==>
            && 1 <= a.count <= hi.year - lo.year
            && DayLe((lo.year + a.count, lo.yday), (hi.year, hi.yday))
            && !DayLe((lo.year + a.count + 1, lo.yday), (hi.year, hi.yday)))
      && (a.unit.Month? <==>
            !LexLe((lo.year + 1, lo.yday, DayTs(lo)), (hi.year, hi.yday, DayTs(hi)))
            && LexLe((1, lo.mday, DayTs(lo)), (MonthSpan(lo.mon, hi.mon), hi.mday, DayTs(hi))))
      && (a.unit.Month? ==>
            && 1 <= a.count <= MonthSpan(lo.mon, hi.mon)
            && DayLe((a.count, lo.mday), (MonthSpan(lo.mon, hi.mon), hi.mday))
            && !DayLe((a.count + 1, lo.mday), (MonthSpan(lo.mon, hi.mon), hi.mday)))
      && (!a.unit.Year? && !a.unit.Month? ==>
            a == (if weeks then Amount(Week, dt / WeekSeconds) else Amount(Day, dt / DaySeconds)))
  {
    var years := hi.year - lo.year;
    ReachedIsAnniversary(years, lo.yday, hi.yday, DayTs(lo), DayTs(hi));
    assert LexLe((lo.year + 1, lo.yday, DayTs(lo)), (hi.year, hi.yday, DayTs(hi)))
       <==> LexLe((1, lo.yday, DayTs(lo)), (years, hi.yday, DayTs(hi)));
    var months := MonthSpan(lo.mon, hi.mon);
    ReachedIsAnniversary(months, lo.mday, hi.mday, DayTs(lo), DayTs(hi));
    if Reached(years, lo.yday, hi.yday, DayTs(lo), DayTs(hi)) {
      WholeCountsDayAnniversaries(years, lo.yday, hi.yday, DayTs(lo), DayTs(hi));
    } else if Reached(months, lo.mday, hi.mday, DayTs(lo), DayTs(hi)) {
      WholeCountsDayAnniversaries(months, lo.mday, hi.mday, DayTs(lo), DayTs(hi));
    }
  }

  /**
    When the calendar branch falls back to weeks or days, the count is the
    original gap in whole weeks or days, and at least what the bucket before
    it could express: four weeks, or seven days with weeks off.
   */
  lemma CalendarFallbackCount(dt: nat, weeks: bool, lo: CalendarPoint, hi: CalendarPoint)
    requires dt >= (if weeks then FourWeeksSeconds else WeekSeconds)
    ensures var a := CalendarAmount(dt, weeks, lo, hi);
      (a.unit.Week? ==> a.count >= 4 && a.count == dt / WeekSeconds)
      && (a.unit.Day? ==> a.count >= 7 && a.count == dt / DaySeconds)
  {
  }

  /**
    The amount as text: the numeral only when the count exceeds one, then
    the word of the unit in the form the true count takes. So the phrase
    opens with a digit exactly when the numeral is printed, and with the
    space of the word otherwise.
   */
  function Phrase(a: Amount): (p: string)
    ensures |p| >= 2
    ensures a.count > 1 <==> IsDigit(p[0])
    ensures a.count <= 1 <==> p[0] == ' '
  {
    var numeral := if a.count > 1 then NatToString(a.count) else "";
    var p := numeral + WordCase(a.unit, a.count);
    assert a.count > 1 ==> p[0] == numeral[0];
    p
  }

  /** The word at the end of a phrase always agrees with the true count. */
  lemma PhraseShape(a: Amount)
    ensures EndsWith(Phrase(a), WordCase(a.unit, a.count))
  {
    var p := Phrase(a);
    assert p[|p| - |WordCase(a.unit, a.count)|..] == WordCase(a.unit, a.count);
  }

  /** Reads a phrase back to the amount it renders. */
  function ParsePhrase(s: string): Option<Amount> {
    match SplitAtSpace(s)
    case None => None
    case Some((numeral, noun)) =>
      match NounIndex(noun)
      case None => None
      case Some((u, f)) =>
        if numeral == "" then
          (match f
           case One => Some(Amount(u, 1))
           case Many => Some(Amount(u, 0))
           case Few => None)
        else
          match ParseNat(numeral)
          case Some(n) => if n > 1 && FormOf(n) == f then Some(Amount(u, n)) else None
          case None => None
  }

  /** A phrase splits at its first space into the numeral and the noun. */
  lemma PhraseSplit(a: Amount)
    ensures SplitAtSpace(Phrase(a))
         == Some((if a.count > 1 then NatToString(a.count) else "", Noun(a.unit, FormOf(a.count))))
  {
    var numeral := if a.count > 1 then NatToString(a.count) else "";
    var noun := Noun(a.unit, FormOf(a.count));
    assert Phrase(a) == numeral + " " + noun;
    SplitAtSpaceOfJoin(numeral, noun);
  }

  /**
    A phrase determines its amount: even with the numeral suppressed, the
    singular word means one and the plural word means zero.
   */
  lemma ParsePhraseOfPhrase(a: Amount)
    ensures ParsePhrase(Phrase(a)) == Some(a)
  {
    PhraseSplit(a);
    ParsePhraseOfParts(Phrase(a), a);
  }

  /** Any text that splits into a's numeral and noun reads back to a. */
  lemma ParsePhraseOfParts(s: string, a: Amount)
    requires SplitAtSpace(s)
          == Some((if a.count > 1 then NatToString(a.count) else "", Noun(a.unit, FormOf(a.count))))
    ensures ParsePhrase(s) == Some(a)
  {
    NounTable(a.unit, FormOf(a.count));
    if a.count > 1 {
      ParseNatToString(a.count);
    }
  }

  /** Which way the gap points, and how large it is. */
  datatype Reading = Reading(past: bool, amount: Amount)

  /** The template: "<phrase> назад" for the past, "через <phrase>" otherwise. */
  function RenderReading(rd: Reading): (s: string)
    ensures rd.past <==> EndsWith(s, " назад") && !StartsWith(s, "через ")
    ensures !rd.past <==> StartsWith(s, "через ")
  {
    if rd.past then Phrase(rd.amount) + " назад" else "через " + Phrase(rd.amount)
  }

  /** Reads a rendered reading back. */
  function ParseReading(s: string): Option<Reading> {
    if StartsWith(s, "через ") then
      match ParsePhrase(s[|"через "|..])
      case Some(a) => Some(Reading(false, a))
      case None => None
    else if EndsWith(s, " назад") then
      match ParsePhrase(s[..|s| - |" назад"|])
      case Some(a) => Some(Reading(true, a))
      case None => None
    else None
  }

  /** The rendered text determines the direction and the amount. */
  lemma ParseReadingOfRender(rd: Reading)
    ensures ParseReading(RenderReading(rd)) == Some(rd)
  {
    if rd.past {
      ParsePastReading(rd.amount);
    } else {
      ParseFutureReading(rd.amount);
    }
  }

  lemma ParsePastReading(a: Amount)
    ensures ParseReading(RenderReading(Reading(true, a))) == Some(Reading(true, a))
  {
    var p := Phrase(a);
    var s := RenderReading(Reading(true, a));
    assert s[..|s| - |" назад"|] == p;
    ParsePhraseOfPhrase(a);
  }

  lemma ParseFutureReading(a: Amount)
    ensures ParseReading(RenderReading(Reading(false, a))) == Some(Reading(false, a))
  {
    var p := Phrase(a);
    var s := RenderReading(Reading(false, a));
    assert s[|"через "|..] == p;
    ParsePhraseOfPhrase(a);
  }

  /** The reference time: currtime, or the current time when it is 0. */
  function Reference(currtime: int, now: int): int {
    if currtime == 0 then now else currtime
  }

  /**
    ago's decision: the gap from the reference time to the formatted
    timestamp points to the past exactly when the timestamp is earlier. A
    short gap gets its fixed reading; a longer one gets the calendar
    branch's amount, on the calendar points of the earlier and the later
    instant read in the zone getTimezone reports. Only the size of the gap
    and those two instants matter.
   */
  function AgoReading(c: Config, weeks: bool, currtime: int, now: int, host: string, cal: Decompose): (rd: Reading)
    ensures rd.past <==> c.ts < Reference(currtime, now)
    ensures var d := Abs(c.ts - Reference(currtime, now));
      d < WeekSeconds || (weeks && d < FourWeeksSeconds) ==> FixedReading(d, weeks, rd.amount)
    ensures var ref := Reference(currtime, now);
            var zone := GetTimezone(c, host);
            var d := Abs(c.ts - ref);
      !(d < WeekSeconds || (weeks && d < FourWeeksSeconds)) ==>
        rd.amount == CalendarAmount(d, weeks, cal(zone, Min(c.ts, ref)), cal(zone, Max(c.ts, ref)))
  {
    var ref := Reference(currtime, now);
    var zone := GetTimezone(c, host);
    var lo := cal(zone, Min(c.ts, ref));
    var hi := cal(zone, Max(c.ts, ref));
    AmountOfShortGap(Abs(c.ts - ref), weeks, lo, hi);
    Reading(c.ts - ref < 0, AmountOf(Abs(c.ts - ref), weeks, lo, hi))
  }

  function Min(a: int, b: int): int {
    if a < b then a else b
  }

  function Max(a: int, b: int): int {
    if a < b then b else a
  }

  /**
    ago: the rendered reading. It says "назад" exactly for a timestamp
    before the reference and "через" otherwise, equality included.
   */
  function AgoText(c: Config, weeks: bool, currtime: int, now: int, host: string, cal: Decompose): (s: string)
    ensures c.ts < Reference(currtime, now) <==> EndsWith(s, " назад") && !StartsWith(s, "через ")
    ensures c.ts >= Reference(currtime, now) <==> StartsWith(s, "через ")
  {
    RenderReading(AgoReading(c, weeks, currtime, now, host, cal))
  }

  /** The text ago returns names the direction and the amount the decision chose. */
  lemma AgoTextReadsBack(c: Config, weeks: bool, currtime: int, now: int, host: string, cal: Decompose)
    ensures ParseReading(AgoText(c, weeks, currtime, now, host, cal))
         == Some(AgoReading(c, weeks, currtime, now, host, cal))
  {
    ParseReadingOfRender(AgoReading(c, weeks, currtime, now, host, cal));
  }

  /**
    Swapping the timestamp and the reference time flips the direction and
    keeps the amount: only the size of the gap and the two instants matter.
   */
  lemma AgoMirror(c: Config, weeks: bool, a: int, b: int, now: int, host: string, cal: Decompose)
    requires a != 0 && b != 0 && a != b
    ensures var x := AgoReading(c.(ts := a), weeks, b, now, host, cal);
            var y := AgoReading(c.(ts := b), weeks, a, now, host, cal);
            x.amount == y.amount && x.past == !y.past
  {
  }

  /**
    The bucket boundaries are exact: each threshold gap is the first gap of
    the next unit, counted as one of it.
   */
  lemma BucketBoundaries(lo: CalendarPoint, hi: CalendarPoint)
    ensures AmountOf(0, true, lo, hi) == Amount(Second, 0)
    ensures AmountOf(59, true, lo, hi) == Amount(Second, 59)
    ensures AmountOf(60, true, lo, hi) == Amount(Minute, 1)
    ensures AmountOf(3599, true, lo, hi) == Amount(Minute, 59)
    ensures AmountOf(3600, true, lo, hi) == Amount(Hour, 1)
    ensures AmountOf(86399, true, lo, hi) == Amount(Hour, 23)
    ensures AmountOf(86400, true, lo, hi) == Amount(Day, 1)
    ensures AmountOf(604799, true, lo, hi) == Amount(Day, 6)
    ensures AmountOf(604800, true, lo, hi) == Amount(Week, 1)
    ensures AmountOf(2419199, true, lo, hi) == Amount(Week, 3)
    ensures AmountOf(604800, false, lo, hi) == CalendarAmount(604800, false, lo, hi)
  {
  }

  /** The phrases of the example amounts, one word at a time. */
  lemma PhraseExamples()
    ensures Phrase(Amount(Minute, 1)) == " минуту"
    ensures Phrase(Amount(Second, 0)) == " секунд"
    ensures Phrase(Amount(Second, 57)) == "57 секунд"
    ensures Phrase(Amount(Hour, 3)) == "3 часа"
  {
    assert Phrase(Amount(Minute, 1)) == " минуту" by {
      assert WordCase(Minute, 1) == " " + Noun(Minute, One);
    }
    assert Phrase(Amount(Second, 0)) == " секунд" by {
      assert WordCase(Second, 0) == " " + Noun(Second, Many);
    }
    assert Phrase(Amount(Second, 57)) == "57 секунд" by {
      assert NatToString(57) == "57";
      assert WordCase(Second, 57) == " " + Noun(Second, Many);
    }
    assert Phrase(Amount(Hour, 3)) == "3 часа" by {
      assert NatToString(3) == "3";
      assert WordCase(Hour, 3) == " " + Noun(Hour, Few);
    }
  }

  /**
    Counts of zero and one print no numeral, so the template keeps the space
    that word_case puts before the noun: a leading space in the past and a
    double space after "через".
   */
  lemma AgoTextExamples(host: string, cal: Decompose)
    ensures AgoText(Config(900, true, false, ""), true, 1000, 0, host, cal) == " минуту назад"
    ensures AgoText(Config(1100, true, false, ""), true, 1000, 0, host, cal) == "через  минуту"
    ensures AgoText(Config(1000, true, false, ""), true, 1000, 0, host, cal) == "через  секунд"
  {
    PhraseExamples();
    assert AgoReading(Config(900, true, false, ""), true, 1000, 0, host, cal)
        == Reading(true, Amount(Minute, 1));
    assert AgoReading(Config(1100, true, false, ""), true, 1000, 0, host, cal)
        == Reading(false, Amount(Minute, 1));
    assert AgoReading(Config(1000, true, false, ""), true, 1000, 0, host, cal)
        == Reading(false, Amount(Second, 0));
  }

  /** Larger counts print their numeral; a zero reference time means "now". */
  lemma AgoTextNumeralExamples(host: string, cal: Decompose)
    ensures AgoText(Config(943, true, false, ""), true, 1000, 0, host, cal) == "57 секунд назад"
    ensures AgoText(Config(0, true, false, ""), true, 0, 10800, host, cal) == "3 часа назад"
  {
    PhraseExamples();
    assert AgoReading(Config(943, true, false, ""), true, 1000, 0, host, cal)
        == Reading(true, Amount(Second, 57));
    assert AgoReading(Config(0, true, false, ""), true, 0, 10800, host, cal)
        == Reading(true, Amount(Hour, 3));
  }

  /**
    With the months equal but the later date's day of the month behind, the
    month count is zero and the branch falls back to weeks: 2020-01-15 to
    2021-01-14 reads as 52 weeks (not 11 months), while 2021-01-15 reads as
    one year.
   */
  lemma CalendarExamples()
    ensures var lo := CalendarPoint(2020, 1, 15, 14, 3, 12, 0, 0);
            var hi := CalendarPoint(2021, 1, 14, 13, 4, 12, 0, 0);
            CalendarAmount(365 * DaySeconds, true, lo, hi) == Amount(Week, 52)
            && CalendarAmount(365 * DaySeconds, false, lo, hi) == Amount(Day, 365)
    ensures var lo := CalendarPoint(2020, 1, 15, 14, 3, 12, 0, 0);
            var hi := CalendarPoint(2021, 1, 15, 14, 5, 12, 0, 0);
            CalendarAmount(366 * DaySeconds, true, lo, hi) == Amount(Year, 1)
    ensures var lo := CalendarPoint(2020, 1, 31, 30, 5, 12, 0, 0);
            var hi := CalendarPoint(2020, 3, 30, 89, 1, 12, 0, 0);
            CalendarAmount(59 * DaySeconds, true, lo, hi) == Amount(Month, 1)
  {
  }

  /**
    The year count drops one only when the later day of the year is behind,
    not when the day is the same and the time of day is behind: 2021-01-10
    12:00 to 2023-01-10 11:00 counts two years, though the second anniversary
    (by time of day) is an hour away, while 2022-01-10 11:00 does not count
    a year at all.
   */
  lemma YearCountIgnoresTimeOfDay()
    ensures var lo := CalendarPoint(2021, 1, 10, 9, 0, 12, 0, 0);
            var hi := CalendarPoint(2023, 1, 10, 9, 2, 11, 0, 0);
            CalendarAmount(729 * DaySeconds + 23 * HourSeconds, true, lo, hi) == Amount(Year, 2)
            && !LexLe((lo.year + 2, lo.yday, DayTs(lo)), (hi.year, hi.yday, DayTs(hi)))
    ensures var lo := CalendarPoint(2021, 1, 10, 9, 0, 12, 0, 0);
            var hi := CalendarPoint(2022, 1, 10, 9, 1, 11, 0, 0);
            CalendarAmount(364 * DaySeconds + 23 * HourSeconds, true, lo, hi) == Amount(Week, 52)
  {
  }
}
