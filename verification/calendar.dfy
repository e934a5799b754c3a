/**
  Calendar points and the Russian name tables.

  A calendar point is what PHP's getdate() reports for a timestamp in a
  timezone. Producing it is the host time library's job, so the model takes
  it as given (see Decompose) and never computes it.
 */
module Calendar {
  import opened Options

  /** Lengths of the fixed calendar units, in seconds. */
  const MinuteSeconds: nat := 60
  const HourSeconds: nat := 3600
  const DaySeconds: nat := 86400
  const WeekSeconds: nat := 604800
  const FourWeeksSeconds: nat := 2419200

  /** The fields of getdate() that the formatter reads. */
  datatype CalendarPoint = CalendarPoint(
    year: int,
    mon: int,      // month of the year, 1..12
    mday: int,     // day of the month, 1..31
    yday: int,     // day of the year, 0-based, 0..365
    wday: int,     // day of the week, 0 = Sunday .. 6 = Saturday
    hours: int,    // 0..23
    minutes: int,  // 0..59
    seconds: int   // 0..59
  )

  /** The ranges getdate() keeps every field in. */
  predicate Valid(p: CalendarPoint) {
    && 1 <= p.mon <= 12
    && 1 <= p.mday <= 31
    && 0 <= p.yday <= 365
    && 0 <= p.wday <= 6
    && 0 <= p.hours < 24
    && 0 <= p.minutes < 60
    && 0 <= p.seconds < 60
  }

  /**
    The host's calendar decomposition: the calendar point of an epoch
    timestamp read in a named timezone.
   */
  type Decompose = (string, int) -> CalendarPoint

  /** Seconds elapsed since the start of the point's day (day_ts). */
  function DayTs(p: CalendarPoint): (t: int)
    ensures Valid(p) ==> 0 <= t < 86400
  {
    p.hours * 3600 + p.minutes * 60 + p.seconds
  }

  /**
    For a valid point, the seconds-since-midnight count is a faithful
    encoding of the clock fields: they can be read back from it.
   */
  lemma DayTsDecodes(p: CalendarPoint)
    requires Valid(p)
    ensures DayTs(p) / 3600 == p.hours
    ensures DayTs(p) % 3600 / 60 == p.minutes
    ensures DayTs(p) % 60 == p.seconds
  {
    var t := DayTs(p);
    var r := p.minutes * 60 + p.seconds;
    assert 0 <= r < 3600;
    assert t == p.hours * 3600 + r;
    assert t / 3600 == p.hours && t % 3600 == r;
    assert r / 60 == p.minutes;
    assert t == (p.hours * 60 + p.minutes) * 60 + p.seconds;
  }

  /**
    Comparing seconds-since-midnight is comparing the clock fields in
    hour, minute, second order; this is what the same-day tie-break relies on.
   */
  lemma DayTsOrder(a: CalendarPoint, b: CalendarPoint)
    requires Valid(a) && Valid(b)
    ensures DayTs(a) <= DayTs(b) <==>
      (a.hours < b.hours
       || (a.hours == b.hours && (a.minutes < b.minutes
           || (a.minutes == b.minutes && a.seconds <= b.seconds))))
  {
    DayTsDecodes(a);
    DayTsDecodes(b);
  }

  /**
    Genitive month name for month 1..12, the empty string otherwise. A name
    reads back to its month.
   */
  function MonthName(index: int): (name: string)
    ensures 1 <= index <= 12 ==> MonthIndex(name) == Some(index)
    ensures !(1 <= index <= 12) <==> name == ""
  {
    match index
    case 1 => "января"
    case 2 => "февраля"
    case 3 => "марта"
    case 4 => "апреля"
    case 5 => "мая"
    case 6 => "июня"
    case 7 => "июля"
    case 8 => "августа"
    case 9 => "сентября"
    case 10 => "октября"
    case 11 => "ноября"
    case 12 => "декабря"
    case _ => ""
  }

  /** Reads a month name back to its number. */
  function MonthIndex(name: string): Option<int> {
    if name == "января" then Some(1)
    else if name == "февраля" then Some(2)
    else if name == "марта" then Some(3)
    else if name == "апреля" then Some(4)
    else if name == "мая" then Some(5)
    else if name == "июня" then Some(6)
    else if name == "июля" then Some(7)
    else if name == "августа" then Some(8)
    else if name == "сентября" then Some(9)
    else if name == "октября" then Some(10)
    else if name == "ноября" then Some(11)
    else if name == "декабря" then Some(12)
    else None
  }

  /**
    The month names are non-empty words: they contain no space and do not
    end in '.', so a name can sit between spaces and before " г.".
   */
  lemma MonthNameTable(index: int)
    ensures 1 <= index <= 12 ==> |MonthName(index)| > 0
    ensures 1 <= index <= 12 ==> MonthName(index)[|MonthName(index)| - 1] != '.'
    ensures forall i :: 0 <= i < |MonthName(index)| ==> MonthName(index)[i] != ' '
  {
  }

  /**
    Weekday phrase that follows the preposition "в" for weekday 0..6
    (Sunday first), the empty string otherwise. Tuesday carries the "о" that
    turns the preposition into "во". A phrase reads back to its weekday.
   */
  function WeekdayName(index: int): (name: string)
    ensures 0 <= index <= 6 ==> WeekdayIndex(name) == Some(index)
    ensures !(0 <= index <= 6) <==> name == ""
  {
    match index
    case 0 => " воскресенье"
    case 1 => " понедельник"
    case 2 => "о вторник"
    case 3 => " среду"
    case 4 => " четверг"
    case 5 => " пятницу"
    case 6 => " субботу"
    case _ => ""
  }

  /** Reads a weekday phrase back to its weekday number. */
  function WeekdayIndex(name: string): Option<int> {
    if name == " воскресенье" then Some(0)
    else if name == " понедельник" then Some(1)
    else if name == "о вторник" then Some(2)
    else if name == " среду" then Some(3)
    else if name == " четверг" then Some(4)
    else if name == " пятницу" then Some(5)
    else if name == " субботу" then Some(6)
    else None
  }

  /**
    After the preposition "в" every weekday phrase opens with a space except
    Tuesday's, which opens with "о " and so reads "во вторник".
   */
  lemma WeekdayNameTable(index: int)
    ensures 0 <= index <= 6 && index != 2 ==> |WeekdayName(index)| > 1 && WeekdayName(index)[0] == ' '
    ensures index == 2 <==> |WeekdayName(index)| > 1 && WeekdayName(index)[..2] == "о "
  {
  }
}
