/**
  The relative-day formatter (generate): a timestamp as today, yesterday,
  the day before yesterday, tomorrow, the day after tomorrow, a weekday,
  a day and month, or a full date, followed by the clock time when enabled.
 */
module Generate {
  import opened Options
  import opened Text
  import opened Calendar
  import opened Formatter

  /** What the phrase before the clock time says. */
  datatype DayLabel =
    | Today
    | Yesterday
    | DayBeforeYesterday
    | Tomorrow
    | DayAfterTomorrow
    | OnWeekday(wday: int)
    | DayMonth(mday: int, mon: int)
    | DayMonthYear(mday: int, mon: int, year: int)

  /** Days from today that a relative-day word stands for. */
  function Offset(l: DayLabel): Option<int> {
    match l
    case Today => Some(0)
    case Yesterday => Some(-1)
    case DayBeforeYesterday => Some(-2)
    case Tomorrow => Some(1)
    case DayAfterTomorrow => Some(2)
    case _ => None
  }

  /**
    Relative wording applies when the target lies in the current year or at
    most a week away from now.
   */
  predicate Near(now: CalendarPoint, t: CalendarPoint, gap: nat) {
    t.year == now.year || gap <= WeekSeconds
  }

  /**
    The classification, by day of the year against today's (no correction
    across a year boundary): the five relative-day words for offsets -2..2,
    a weekday up to six days away, the day and month further out, and the
    full date when the target is neither in this year nor within a week.
   */
  function Classify(now: CalendarPoint, t: CalendarPoint, gap: nat): (l: DayLabel)
    ensures l.DayMonthYear? <==> !Near(now, t, gap)
    ensures l.DayMonthYear? ==> l == DayMonthYear(t.mday, t.mon, t.year)
    ensures Offset(l).Some? <==> Near(now, t, gap) && -2 <= t.yday - now.yday <= 2
    ensures Offset(l).Some? ==> Offset(l).value == t.yday - now.yday
    ensures l.OnWeekday? <==> Near(now, t, gap) && 3 <= Abs(t.yday - now.yday) <= 6
    ensures l.OnWeekday? ==> l.wday == t.wday
    ensures l.DayMonth? <==> Near(now, t, gap) && Abs(t.yday - now.yday) > 6
    ensures l.DayMonth? ==> l == DayMonth(t.mday, t.mon)
  {
    if Near(now, t, gap) then
      if t.yday == now.yday then Today
      else if t.yday == now.yday - 1 then Yesterday
      else if t.yday == now.yday - 2 then DayBeforeYesterday
      else if t.yday == now.yday + 1 then Tomorrow
      else if t.yday == now.yday + 2 then DayAfterTomorrow
      else if Abs(t.yday - now.yday) <= 6 then OnWeekday(t.wday)
      else DayMonth(t.mday, t.mon)
    else
      DayMonthYear(t.mday, t.mon, t.year)
  }

  /**
    The words of a label. A full date, and only a full date, ends with the
    '.' of "г.", and a weekday phrase opens with the preposition "в".
   */
  function LabelText(l: DayLabel): (s: string)
    ensures |s| > 0
    ensures l.DayMonthYear? <==> s[|s| - 1] == '.'
    ensures l.OnWeekday? ==> s[0] == 'в'
  {
    match l
    case Today => "сегодня"
    case Yesterday => "вчера"
    case DayBeforeYesterday => "позавчера"
    case Tomorrow => "завтра"
    case DayAfterTomorrow => "послезавтра"
    case OnWeekday(w) => "в" + WeekdayName(w)
    case DayMonth(d, m) =>
      MonthNameTable(m);
      var s := IntToString(d) + " " + MonthName(m);
      assert s[|s| - 1] == (if MonthName(m) == "" then ' ' else MonthName(m)[|MonthName(m)| - 1]);
      s
    case DayMonthYear(d, m, y) => IntToString(d) + " " + MonthName(m) + " " + IntToString(y) + " г."
  }

  /** The clock time shown after the label, if any. */
  datatype ClockReading =
    | NoClock
    | HoursMinutes(h: int, m: int)
    | HoursMinutesSeconds(h: int, m: int, s: int)

  /** getTime's choice: nothing, HH:MM, or HH:MM:SS of the target's local time. */
  function ClockOf(c: Config, t: CalendarPoint): (k: ClockReading)
    ensures k.NoClock? <==> !c.time
    ensures k.HoursMinutesSeconds? <==> c.time && c.seconds
    ensures !k.NoClock? ==> k.h == t.hours && k.m == t.minutes
    ensures k.HoursMinutesSeconds? ==> k.s == t.seconds
  {
    if !c.time then NoClock
    else if c.seconds then HoursMinutesSeconds(t.hours, t.minutes, t.seconds)
    else HoursMinutes(t.hours, t.minutes)
  }

  /**
    " в " and the zero-padded 24-hour fields, as date("H:i") or date("H:i:s");
    nothing when there is no clock. Fields of two digits give a fixed length.
   */
  function ClockText(k: ClockReading): (s: string)
    ensures k.NoClock? <==> s == ""
    ensures !k.NoClock? ==> |s| > 3 && s[0] == ' ' && s[1] == 'в' && s[2] == ' '
    ensures k.HoursMinutes? && 0 <= k.h < 100 && 0 <= k.m < 100 ==> |s| == 8
    ensures k.HoursMinutesSeconds? && 0 <= k.h < 100 && 0 <= k.m < 100 && 0 <= k.s < 100 ==> |s| == 11
  {
    match k
    case NoClock => ""
    case HoursMinutes(h, m) => " в " + Pad2(h) + ":" + Pad2(m)
    case HoursMinutesSeconds(h, m, s) => " в " + Pad2(h) + ":" + Pad2(m) + ":" + Pad2(s)
  }

  /** Length of the clock text for the given options and a valid point. */
  function ClockLength(time: bool, seconds: bool): nat {
    if !time then 0 else if seconds then 11 else 8
  }

  /**
    getTime: empty exactly when the time option is off; otherwise " в "
    followed by HH:MM, or HH:MM:SS with seconds on, for a valid point.
   */
  function TimeSuffix(c: Config, t: CalendarPoint): (r: string)
    ensures r == "" <==> !c.time
    ensures c.time ==> StartsWith(r, " в ")
    ensures Valid(t) ==> |r| == ClockLength(c.time, c.seconds)
  {
    ClockText(ClockOf(c, t))
  }

  /**
    generate's decision: the classification of the target against now and
    the target's clock reading, both calendar points read in the zone
    getTimezone reports. A valid target gives a valid label.
   */
  function GenerateReading(c: Config, now: int, host: string, cal: Decompose): (r: (DayLabel, ClockReading))
    ensures r.0 == Classify(cal(GetTimezone(c, host), now), cal(GetTimezone(c, host), c.ts), Abs(now - c.ts))
    ensures r.1 == ClockOf(c, cal(GetTimezone(c, host), c.ts))
    ensures Valid(cal(GetTimezone(c, host), c.ts)) ==> ValidLabel(r.0)
  {
    GenerateZoneIsReported(c, host);
    var zone := GenerateZone(c, host);
    var n := cal(zone, now);
    var t := cal(zone, c.ts);
    ClassifyValid(n, t, Abs(now - c.ts));
    (Classify(n, t, Abs(now - c.ts)), ClockOf(c, t))
  }

  /**
    generate: the label's words followed by the clock text; the text ends
    with getTime's suffix for the target in getTimezone's zone.
   */
  function GenerateText(c: Config, now: int, host: string, cal: Decompose): (s: string)
    ensures EndsWith(s, TimeSuffix(c, cal(GetTimezone(c, host), c.ts)))
  {
    var r := GenerateReading(c, now, host, cal);
    var s := LabelText(r.0) + ClockText(r.1);
    assert s[|s| - |ClockText(r.1)|..] == ClockText(r.1);
    s
  }

  /** Reads a label's words back. */
  function ParseLabel(s: string): Option<DayLabel> {
    if s == "сегодня" then Some(Today)
    else if s == "вчера" then Some(Yesterday)
    else if s == "позавчера" then Some(DayBeforeYesterday)
    else if s == "завтра" then Some(Tomorrow)
    else if s == "послезавтра" then Some(DayAfterTomorrow)
    else if |s| > 0 && s[0] == 'в' then
      match WeekdayIndex(s[1..])
      case Some(w) => Some(OnWeekday(w))
      case None => None
    else if EndsWith(s, " г.") then ParseFullDate(s[..|s| - 3])
    else ParseDayAndMonth(s)
  }

  /** Reads "<day> <month name>". */
  function ParseDayAndMonth(s: string): Option<DayLabel> {
    match SplitAtSpace(s)
    case None => None
    case Some((day, month)) =>
      match (ParseNat(day), MonthIndex(month))
      case (Some(d), Some(m)) => Some(DayMonth(d, m))
      case _ => None
  }

  /** Reads "<day> <month name> <year>" (the text before " г."). */
  function ParseFullDate(s: string): Option<DayLabel> {
    match SplitAtSpace(s)
    case None => None
    case Some((day, rest)) =>
      match SplitAtSpace(rest)
      case None => None
      case Some((month, year)) =>
        match (ParseNat(day), MonthIndex(month), ParseInt(year))
        case (Some(d), Some(m), Some(y)) => Some(DayMonthYear(d, m, y))
        case _ => None
  }

  /** Reads a clock text back, given the options that produced it. */
  function ParseClock(time: bool, seconds: bool, s: string): Option<ClockReading> {
    if !time then (if s == "" then Some(NoClock) else None)
    else if !StartsWith(s, " в ") then None
    else
      var b := s[3..];
      if !seconds && |b| == 5 && b[2] == ':' then
        match (ParseNat(b[..2]), ParseNat(b[3..]))
        case (Some(h), Some(m)) => Some(HoursMinutes(h, m))
        case _ => None
      else if seconds && |b| == 8 && b[2] == ':' && b[5] == ':' then
        match (ParseNat(b[..2]), ParseNat(b[3..5]), ParseNat(b[6..]))
        case (Some(h), Some(m), Some(sec)) => Some(HoursMinutesSeconds(h, m, sec))
        case _ => None
      else None
  }

  /** Reads generate's output back, given the time options. */
  function ParseGenerated(time: bool, seconds: bool, s: string): Option<(DayLabel, ClockReading)> {
    var k := ClockLength(time, seconds);
    if |s| < k then None
    else
      match (ParseLabel(s[..|s| - k]), ParseClock(time, seconds, s[|s| - k..]))
      case (Some(l), Some(clock)) => Some((l, clock))
      case _ => None
  }

  /** The labels a valid calendar point can produce. */
  predicate ValidLabel(l: DayLabel) {
    match l
    case OnWeekday(w) => 0 <= w <= 6
    case DayMonth(d, m) => d >= 0 && 1 <= m <= 12
    case DayMonthYear(d, m, y) => d >= 0 && 1 <= m <= 12
    case _ => true
  }

  /** Text that opens with a digit is none of the fixed words. */
  lemma DigitFirstIsNoWord(s: string)
    requires |s| > 0 && IsDigit(s[0])
    ensures s != "сегодня" && s != "вчера" && s != "позавчера"
    ensures s != "завтра" && s != "послезавтра"
    ensures s[0] != 'в'
  {
  }

  lemma ParseDayMonth(d: nat, m: int)
    requires 1 <= m <= 12
    ensures ParseLabel(LabelText(DayMonth(d, m))) == Some(DayMonth(d, m))
  {
    var s := LabelText(DayMonth(d, m));
    var day := NatToString(d);
    assert s == day + " " + MonthName(m);
    DigitFirstIsNoWord(s);
    MonthNameTable(m);
    assert s[|s| - 1] == MonthName(m)[|MonthName(m)| - 1];
    assert !EndsWith(s, " г.") by {
      assert |s| >= 3 ==> s[|s| - 3..][2] == s[|s| - 1];
    }
    SplitAtSpaceOfJoin(day, MonthName(m));
    ParseNatToString(d);
    assert ParseDayAndMonth(s) == Some(DayMonth(d, m));
  }

  lemma ParseFullDateOfText(d: nat, m: int, y: int)
    requires 1 <= m <= 12
    ensures ParseFullDate(IntToString(d) + " " + MonthName(m) + " " + IntToString(y))
         == Some(DayMonthYear(d, m, y))
  {
    var day := NatToString(d);
    var year := IntToString(y);
    var rest := MonthName(m) + " " + year;
    assert IntToString(d) + " " + MonthName(m) + " " + year == day + " " + rest;
    MonthNameTable(m);
    SplitAtSpaceOfJoin(day, rest);
    SplitAtSpaceOfJoin(MonthName(m), year);
    ParseNatToString(d);
    ParseIntToString(y);
  }

  lemma ParseDayMonthYear(d: nat, m: int, y: int)
    requires 1 <= m <= 12
    ensures ParseLabel(LabelText(DayMonthYear(d, m, y))) == Some(DayMonthYear(d, m, y))
  {
    var s := LabelText(DayMonthYear(d, m, y));
    var body := IntToString(d) + " " + MonthName(m) + " " + IntToString(y);
    assert s == body + " г.";
    assert IsDigit(s[0]) by {
      assert s[0] == NatToString(d)[0];
    }
    DigitFirstIsNoWord(s);
    assert EndsWith(s, " г.");
    assert s[..|s| - 3] == body;
    ParseFullDateOfText(d, m, y);
  }

  lemma ParseWeekday(w: int)
    requires 0 <= w <= 6
    ensures ParseLabel(LabelText(OnWeekday(w))) == Some(OnWeekday(w))
  {
    var s := LabelText(OnWeekday(w));
    assert s[1..] == WeekdayName(w);
  }

  /** A valid label's words determine the label. */
  lemma ParseLabelOfText(l: DayLabel)
    requires ValidLabel(l)
    ensures ParseLabel(LabelText(l)) == Some(l)
  {
    match l
    case OnWeekday(w) => ParseWeekday(w);
    case DayMonth(d, m) => ParseDayMonth(d, m);
    case DayMonthYear(d, m, y) => ParseDayMonthYear(d, m, y);
    case _ =>
  }

  /** The clock text of a valid point determines the clock reading. */
  lemma ParseClockOfText(c: Config, t: CalendarPoint)
    requires Valid(t)
    ensures ParseClock(c.time, c.seconds, ClockText(ClockOf(c, t))) == Some(ClockOf(c, t))
  {
    if c.time {
      ParsePad2(t.hours);
      ParsePad2(t.minutes);
      ParsePad2(t.seconds);
      ParseClockFields(Pad2(t.hours), Pad2(t.minutes), Pad2(t.seconds), t.hours, t.minutes, t.seconds);
    }
  }

  /** Two-character fields after " в ", separated by ':', read back one by one. */
  lemma ParseClockFields(x: string, y: string, z: string, h: nat, m: nat, sec: nat)
    requires |x| == 2 && |y| == 2 && |z| == 2
    requires ParseNat(x) == Some(h) && ParseNat(y) == Some(m) && ParseNat(z) == Some(sec)
    ensures ParseClock(true, false, " в " + x + ":" + y) == Some(HoursMinutes(h, m))
    ensures ParseClock(true, true, " в " + x + ":" + y + ":" + z) == Some(HoursMinutesSeconds(h, m, sec))
  {
    var s := " в " + x + ":" + y;
    assert s[..3] == " в " && s[3..] == x + ":" + y;
    assert (x + ":" + y)[..2] == x && (x + ":" + y)[3..] == y;
    var s' := " в " + x + ":" + y + ":" + z;
    var b := x + ":" + y + ":" + z;
    assert s'[..3] == " в " && s'[3..] == b;
    assert b[..2] == x && b[3..5] == y && b[6..] == z;
  }

  /** Labels classified from a valid target point are valid. */
  lemma ClassifyValid(now: CalendarPoint, t: CalendarPoint, gap: nat)
    ensures Valid(t) ==> ValidLabel(Classify(now, t, gap))
  {
  }

  /**
    generate's text, read back with the time options, gives the label and
    the clock reading it was rendered from: the phrase never leaves the
    classification ambiguous, and the clock suffix is separable.
   */
  lemma GenerateTextReadsBack(c: Config, now: int, host: string, cal: Decompose)
    requires Valid(cal(GetTimezone(c, host), c.ts))
    ensures ParseGenerated(c.time, c.seconds, GenerateText(c, now, host, cal))
         == Some(GenerateReading(c, now, host, cal))
  {
    var t := cal(GetTimezone(c, host), c.ts);
    var r := GenerateReading(c, now, host, cal);
    var lt := LabelText(r.0);
    var ct := ClockText(r.1);
    var s := GenerateText(c, now, host, cal);
    assert s == lt + ct;
    var k := ClockLength(c.time, c.seconds);
    assert |ct| == k;
    assert s[..|s| - k] == lt;
    assert s[|s| - k..] == ct;
    ParseLabelOfText(r.0);
    ParseClockOfText(c, t);
  }

  /**
    A target equal to now is today, in whatever zone is configured, and the
    clock suffix is the target's.
   */
  lemma GenerateNowIsToday(c: Config, host: string, cal: Decompose)
    ensures GenerateText(c, c.ts, host, cal)
         == "сегодня" + TimeSuffix(c, cal(GetTimezone(c, host), c.ts))
  {
    GenerateZoneIsReported(c, host);
  }

  /** A relative-day word with the clock time, as in "вчера в 11:48". */
  lemma YesterdayExample()
    ensures LabelText(Yesterday) + ClockText(HoursMinutes(11, 48)) == "вчера в 11:48"
  {
    MinutesClock();
  }

  lemma MinutesClock()
    ensures ClockText(HoursMinutes(11, 48)) == " в 11:48"
  {
    assert Pad2(11) == "11" && Pad2(48) == "48";
  }

  /** Weekday phrases, with "во" before Tuesday and seconds on. */
  lemma WeekdayExamples()
    ensures LabelText(OnWeekday(2)) + ClockText(NoClock) == "во вторник"
    ensures LabelText(OnWeekday(3)) + ClockText(HoursMinutesSeconds(9, 5, 0)) == "в среду в 09:05:00"
  {
    WeekdayWords();
    SecondsClock();
  }

  lemma WeekdayWords()
    ensures LabelText(OnWeekday(2)) == "во вторник"
    ensures LabelText(OnWeekday(3)) == "в среду"
  {
  }

  lemma SecondsClock()
    ensures ClockText(HoursMinutesSeconds(9, 5, 0)) == " в 09:05:00"
  {
    assert Pad2(9) == "09" && Pad2(5) == "05" && Pad2(0) == "00";
  }

  /** A full date, as in "11 ноября 2013 г. в 11:48". */
  lemma FullDateExample()
    ensures LabelText(DayMonthYear(11, 11, 2013)) + ClockText(HoursMinutes(11, 48))
         == "11 ноября 2013 г. в 11:48"
  {
    FullDateLabel();
    MinutesClock();
  }

  lemma FullDateLabel()
    ensures LabelText(DayMonthYear(11, 11, 2013)) == "11 ноября 2013 г."
  {
    YearText();
    DayMonthText();
    assert LabelText(DayMonthYear(11, 11, 2013)) == "11" + " " + "ноября" + " " + "2013" + " г.";
  }

  lemma DayMonthText()
    ensures IntToString(11) == "11" && MonthName(11) == "ноября"
  {
  }

  lemma YearText()
    ensures IntToString(2013) == "2013"
  {
    assert NatToString(20) == "20";
    assert NatToString(201) == "201";
  }

  /**
    Day-of-year offsets are not corrected across a year boundary: on
    2021-01-01, a target on 2020-12-31 (one day earlier, so within a week)
    is 365 days of the year away and reads as its day and month, not as
    yesterday.
   */
  lemma YearBoundaryNotYesterday()
    ensures var now := CalendarPoint(2021, 1, 1, 0, 5, 10, 0, 0);
            var t := CalendarPoint(2020, 12, 31, 365, 4, 10, 0, 0);
            Classify(now, t, DaySeconds) == DayMonth(31, 12)
  {
  }
}
