# DateOutput in Dafny

A model of the `DateOutput` PHP class, which renders timestamps as Russian
phrases. It has two operations:

- `generate` renders the formatted timestamp relative to the current day:
  "сегодня" (today), "вчера" (yesterday), "позавчера" (the day before
  yesterday), "завтра" (tomorrow), "послезавтра" (the day after tomorrow),
  "в <weekday>", "<day> <month>" or "<day> <month> <year> г.". When the time
  option is on, it appends " в HH:MM" (or " в HH:MM:SS").
- `ago` renders the gap between the timestamp and a reference time as one
  amount of one unit ("57 секунд", "3 часа", "4 месяца") inside
  "<phrase> назад" (ago) or "через <phrase>" (in).

`ago` picks the noun form with the plural selector `word_case`. `generate`
uses the month and weekday name tables instead.

Modules:

- `Calendar` (calendar.dfy) holds the calendar point that PHP's `getdate()`
  reports (year, mon, mday, yday, wday, hours, minutes, seconds). It also
  holds `day_ts` and the month and weekday name tables. The host library
  produces calendar points, so the model takes a decomposition function
  `Decompose = (zone, timestamp) -> CalendarPoint` as a parameter.
- `Plural` (plural.dfy) holds `word_case`, its seven three-form noun tables,
  and the rule for choosing a form.
- `Formatter` (formatter.dfy) holds the object's configuration and
  `getTimezone`/`setTimezone`. It also holds the zone that `generate`
  switches to before it decomposes timestamps.
- `Ago` (ago.dfy) holds the bucket selection, the calendar year/month branch
  and its fallback, the numeral rule, and the template.
- `Generate` (generate.dfy) holds the day classification, `getTime` and the
  rendered text.
- `Text` (text.dfy) holds PHP's decimal rendering of integers, the
  zero-padded clock fields, the matching parsers, and `abs`.
- `Options` (options.dfy) holds the optional value the parsers return.

Each rendering has a parser beside it. A round-trip lemma for each one shows
that the text determines the decision it was rendered from:

- the direction and amount for `ago`;
- the label and clock reading for `generate`;
- the unit and form for `word_case`.

Behaviour kept as written:

- A count of 0 or 1 prints no numeral. The space that `word_case` puts
  before the noun stays in the text. So one minute ago is " минуту назад",
  with a leading space. One minute ahead is "через  минуту", with two spaces.
- Day-of-year comparisons in `generate` are not corrected across a year
  boundary. On 1 January, 31 December of the previous year reads
  "31 декабря", not "вчера".
- In the calendar branch of `ago`, the month count ignores the year. The
  gap from 2020-01-15 to 2021-01-14 has equal months, so the month count is
  0 and the result falls back to 52 weeks. A reader might expect
  "11 months" here; the code gives 52 weeks because the month difference
  is 0 (`Ago.CalendarExamples`).
- The year count is reduced by one only when the later day of the year is
  behind. It is not reduced when the day is equal and the time of day is
  behind, even though the branch test uses that tie-break
  (`Ago.YearCountIgnoresTimeOfDay`).

## Model

| member | source | states |
|---|---|---|
| Plural.FormOf | dateoutput.class.php:202-215 | A count takes the singular exactly when its magnitude ends in 1 but not in 11. It takes the paucal exactly when its magnitude ends in 2-4 but not in 12-14. Every other count, 0 included, takes the plural. |
| Plural.WordCase | dateoutput.class.php:191-216 | The word is a space followed by a noun with no further space, so it can follow a numeral. Which noun it is, and that it reads back to the unit and the form, is stated in `Plural.WordCaseShape`; the form rule is `Plural.FormOf`. |
| Plural.WordCaseIgnoresSign | dateoutput.class.php:202-205 | word_case(t, -n) equals word_case(t, n): the sign is dropped before the form is chosen. |
| Plural.FormOfPeriodic | dateoutput.class.php:206-215 | Adding any multiple of 100 to a non-negative count does not change its form. |
| Plural.WordCaseShape | dateoutput.class.php:191-216 | Every result is one space followed by one of the unit's three nouns. Reading it back gives the unit and the form of the count. |
| Plural.NounTable | dateoutput.class.php:193-201 | The 21 nouns of the seven units are pairwise distinct, non-empty and contain no space. |
| Plural.FormOfExamples | dateoutput.class.php:202-215 | 0 takes the plural. 1, 21 and 101 take the singular. 2-4 and 22-24 take the paucal. 5-20 and 111 take the plural. -3 takes the paucal. |
| Calendar.DayTs | dateoutput.class.php:226-229 | Seconds since midnight of a valid calendar point lie in 0..86399. |
| Calendar.DayTsDecodes | dateoutput.class.php:226-229 | The hours, minutes and seconds can be read back from seconds since midnight, so day_ts loses nothing. |
| Calendar.DayTsOrder | dateoutput.class.php:226-229 | Comparing day_ts values compares clock times in hour, minute, second order. This is the same-day tie-break the calendar branch uses. |
| Calendar.MonthName | dateoutput.class.php:64-82 | Each month 1..12 has a genitive name that reads back to the month. Every other index gives the empty string. The word shape is in `Calendar.MonthNameTable`. |
| Calendar.MonthNameTable | dateoutput.class.php:64-82 | The month names are non-empty, contain no space and do not end in ".", so a name reads as one word between spaces and before " г.". |
| Calendar.WeekdayName | dateoutput.class.php:116-129 | Each weekday 0..6 (Sunday first) has a phrase that reads back to the weekday. Every other index gives the empty string. The "в"/"во" shape is in `Calendar.WeekdayNameTable`. |
| Calendar.WeekdayNameTable | dateoutput.class.php:116-129 | Every weekday phrase opens with a space except Tuesday's, which opens with "о ", so the preposition reads "во" only before Tuesday. |
| Formatter.GetTimezone | dateoutput.class.php:91-94 | Returns the override when it is non-empty in PHP's sense ("" and "0" are empty), and the host default otherwise. |
| Formatter.SetTimezone | dateoutput.class.php:103-106 | Replaces the override and changes no other field. |
| Formatter.GetAfterSet | dateoutput.class.php:91-106 | Getting the zone after setting id returns id, or the host default when id is empty. |
| Formatter.GenerateZone | dateoutput.class.php:153-155 | generate leaves the host zone only for a non-empty override. That this is the zone getTimezone reports is `Formatter.GenerateZoneIsReported`. |
| Formatter.GenerateZoneIsReported | dateoutput.class.php:153-155 | generate switches to the zone getTimezone reports: the override when it is set and differs from the host zone, else the host zone. |
| Ago.FixedReadingRange | dateoutput.class.php:247-268 | A fixed reading of a gap is its whole number of units. Each unit's reading covers exactly one range: seconds below 60, minutes 60..3599, hours 3600..86399, days 86400..604799, weeks 604800..2419199. |
| Ago.FixedReadingUnique | dateoutput.class.php:247-268 | A gap has at most one fixed reading. |
| Ago.AmountOf | dateoutput.class.php:247-270 | A gap under 4 weeks (under 1 week with weeks off) gets its fixed reading, and weeks appear only with weeks on. That no longer gap has a fixed reading, and that longer gaps go to the calendar branch, is `Ago.AmountOfShortGap`. |
| Ago.AmountOfShortGap | dateoutput.class.php:247-270 | A gap under 4 weeks (under 1 week with weeks off) gets its single fixed reading: whole units, at least one except for seconds, which may be 0, and fewer than the next unit holds. Exactly these gaps have a fixed reading. Every other gap goes to the calendar branch. |
| Ago.BucketBoundaries | dateoutput.class.php:247-268 | The thresholds are exact: 59 gives 59 seconds, 60 one minute, 3599 59 minutes, 3600 one hour, 86399 23 hours, 86400 one day, 604799 6 days, 604800 one week. With weeks off, 604800 goes to the calendar branch. |
| Ago.ReachedIsAnniversary | dateoutput.class.php:281 | The year/month test holds exactly when the earlier date, moved one period on, is at or before the later date. Period, then day, then time of day are compared. |
| Ago.WholeCountsDayAnniversaries | dateoutput.class.php:283-285 | Once the test holds, the count lies between 1 and the period difference. It is the number of anniversaries reached by day: one more would pass the later date. |
| Ago.MonthSpan | dateoutput.class.php:290-292 | For months 1..12, the month difference is normalised into 0..11 and is congruent to hi.mon - lo.mon modulo 12. |
| Ago.CalendarAmount | dateoutput.class.php:281-309 | The calendar branch gives years, months, weeks or days, never a shorter unit. A year count lies in 1..year difference and a month count in 1..wrapped month difference. Weeks appear only with weeks on. Which unit is chosen is `Ago.CalendarRule`. |
| Ago.CalendarRule | dateoutput.class.php:281-309 | Years exactly when the later point has reached the earlier one's first year anniversary (year, day of year, time of day). Months exactly when no year has passed and the first month anniversary is reached (wrapped month difference, day of month, time of day). Each count is the number of anniversaries reached by day: that many lies at or before the later date, one more lies after it. Otherwise weeks (gap div 604800), or days (gap div 86400) with weeks off. |
| Ago.CalendarFallbackCount | dateoutput.class.php:300-308 | The weeks/days fallback counts the original gap in whole weeks (gap div 604800), or in whole days (gap div 86400) with weeks off. That count is at least 4 weeks, or at least 7 days. |
| Ago.Phrase | dateoutput.class.php:248-308 | The phrase opens with a digit exactly when the count exceeds 1, and with word_case's space otherwise. That it reads back to the amount is `Ago.ParsePhraseOfPhrase`. |
| Ago.CalendarExamples | dateoutput.class.php:281-309 | 2020-01-15 to 2021-01-14 gives 52 weeks (365 days with weeks off). 2020-01-15 to 2021-01-15 gives 1 year. 2020-01-31 to 2020-03-30 gives 1 month. |
| Ago.YearCountIgnoresTimeOfDay | dateoutput.class.php:281-286 | 2021-01-10 12:00 to 2023-01-10 11:00 counts 2 years, although the second anniversary by time of day is not reached. 2021-01-10 12:00 to 2022-01-10 11:00 gives 52 weeks. |
| Ago.ParsePhraseOfPhrase | dateoutput.class.php:248-267 | The phrase determines the amount. The numeral is printed only above 1. With no numeral, the singular word means 1 and the plural word means 0. |
| Ago.PhraseShape | dateoutput.class.php:248-308 | The phrase always ends with word_case of the true count, also when the numeral is suppressed. |
| Ago.RenderReading | dateoutput.class.php:245-311 | A past reading gives text that ends in " назад" and does not start with "через ". A future reading gives text that starts with "через ". That it reads back is `Ago.ParseReadingOfRender`. |
| Ago.ParseReadingOfRender | dateoutput.class.php:245-246 | Parsing "<phrase> назад" or "через <phrase>" gives back the direction and the amount. |
| Ago.Reference | dateoutput.class.php:242-243 | A reference time of 0 means the current time. Its effect on the direction is stated in `Ago.AgoReading` and exercised in `Ago.AgoTextNumeralExamples`. |
| Ago.AgoReading | dateoutput.class.php:240-312 | The direction is "past" exactly when the timestamp is before the reference time. A reference of 0 means now. A gap under a week, or under four weeks with weeks on, gets the fixed reading. A longer gap gets the calendar amount of the earlier and the later instant, read in the zone getTimezone reports. |
| Ago.AgoText | dateoutput.class.php:240-313 | The text ends in " назад" exactly when the timestamp is before the reference time. It starts with "через " otherwise, equality included. That it reads back to the decision is `Ago.AgoTextReadsBack`. |
| Ago.AgoTextReadsBack | dateoutput.class.php:240-313 | Parsing the ago text gives back the direction and the amount the decision chose. |
| Ago.AgoMirror | dateoutput.class.php:244-278 | For a distinct, non-zero timestamp and reference, swapping them flips the direction and keeps the amount. Equal values are not mirrored: both read as future. A zero reference means now, so swapping a zero changes the computation. The amount depends only on the size of the gap and the earlier and later instants. |
| Ago.AgoTextExamples | dateoutput.class.php:244-248 | With reference 1000: 900 gives " минуту назад", 1100 gives "через  минуту", and 1000 gives "через  секунд". |
| Ago.AgoTextNumeralExamples | dateoutput.class.php:240-257 | 943 against 1000 gives "57 секунд назад". A zero reference with now at 10800 gives "3 часа назад" for timestamp 0. |
| Generate.Classify | dateoutput.class.php:158-176 | Full date exactly when the target is neither in the current year nor within a week. Otherwise: the relative-day words exactly for day-of-year offsets -2..2, naming that offset; the target's weekday exactly for offsets of 3..6 either way; its day and month beyond that. |
| Generate.LabelText | dateoutput.class.php:160-176 | The words are never empty. They end in "." exactly for a full date (the "г." suffix), and a weekday phrase opens with "в". That they read back to the label is `Generate.ParseLabelOfText`. |
| Generate.ClockOf | dateoutput.class.php:139-142 | No clock when the time option is off. Hours and minutes of the target, plus seconds when the seconds option is on. |
| Generate.ClockText | dateoutput.class.php:141-142 | Empty exactly when there is no clock. Otherwise it opens with " в ", and two-digit fields give 8 characters (" в HH:MM") or 11 (" в HH:MM:SS"). That it reads back is `Generate.ParseClockOfText`. |
| Generate.TimeSuffix | dateoutput.class.php:137-143 | Empty exactly when the time option is off. Otherwise it starts with " в ". For a valid point it is 8 characters long (" в HH:MM") or 11 (" в HH:MM:SS"). |
| Generate.ParseLabelOfText | dateoutput.class.php:160-176 | Each label's words, read back, give the label: the fixed words, "в"/"во" with a weekday, "<day> <month>", and "<day> <month> <year> г.". |
| Generate.ParseClockOfText | dateoutput.class.php:141-142 | The clock text of a valid point, read back with the time options, gives its hours, minutes and seconds. |
| Generate.GenerateReading | dateoutput.class.php:151-180 | The label is the day-of-year classification of the target against now, and the clock reading is the target's. Both calendar points are read in the zone getTimezone reports. A valid target point gives a label whose weekday and month are in range. |
| Generate.GenerateText | dateoutput.class.php:151-180 | The text ends with getTime's suffix for the target, read in the zone getTimezone reports. That the text reads back to the label and clock is `Generate.GenerateTextReadsBack`. |
| Generate.GenerateTextReadsBack | dateoutput.class.php:151-180 | generate's text, read back with the time options, gives the classification and clock reading it was rendered from. This holds whenever the target's calendar point is valid. |
| Generate.GenerateNowIsToday | dateoutput.class.php:153-161 | A target equal to now renders as "сегодня" followed by the target's clock suffix in the configured zone. |
| Generate.YearBoundaryNotYesterday | dateoutput.class.php:158-173 | On 2021-01-01, a target on 2020-12-31 classifies as "31 декабря", not yesterday. Day-of-year offsets are not corrected across a year boundary. |
| Generate.YesterdayExample | dateoutput.class.php:163 | Yesterday at 11:48 reads "вчера в 11:48". |
| Generate.WeekdayExamples | dateoutput.class.php:171 | Tuesday reads "во вторник". Wednesday at 09:05:00 with seconds reads "в среду в 09:05:00". |
| Generate.FullDateExample | dateoutput.class.php:176 | 11 November 2013 at 11:48 reads "11 ноября 2013 г. в 11:48". |
| Text.NatToString | dateoutput.class.php:248 | A count is written as a non-empty run of decimal digits with no leading zero. |
| Text.ParseIntToString | dateoutput.class.php:176 | The decimal text of the day and the year, read back, gives the number. |
| Text.ParsePad2 | dateoutput.class.php:141-142 | A clock field 0..99 is written as exactly two digits, zero-padded, and reads back as the field. |

## Left out

- Constructor: building from a non-integer string uses PHP's `strtotime`, a natural-language date parser outside the class. Only the integer path is modelled, by building `Formatter.Config` directly. The timestamp is then kept unchanged.
- Calendar decomposition: `getdate`, `date` and `time()` belong to the host time library. Calendar points come from a `Decompose` parameter and the current time from a `now` parameter. `generate` calls the clock twice (`getdate()` and `time()`). The model uses one `now` for both.
- Global timezone state: switching and restoring the process-wide default zone is not modelled. Only the zone each operation reads calendar points in is modelled (`GetTimezone`, `GenerateZone`). `ago` tests a misspelled field (`timzeone`) before restoring the zone, so it never restores it. That leaves the override as the process default. This is not modelled.
- Unknown timezones: the host's failure behaviour for a zone it cannot resolve is outside the class.
- Output encoding: `iconv` transcoding is outside the class. All strings are already-decoded text.
- `__toString`, `write` and `writeAgo`: these only forward to `generate`, the constructor and `ago`.
- Integer width: PHP integers are 64-bit, and `$this->ts - $currtime` (line 244) and `time() - $this->ts` (line 158) turn into floats when they overflow. The model uses unbounded integers, so timestamps near the 64-bit limits are not modelled.
- Floating point: PHP's `floor` returns a float, but here it always divides non-negative integers. The model uses integer division. PHP prints the whole-valued float as the same digits.
- Generate.GenerateTextReadsBack: requires that the target's calendar point is valid (month 1..12, clock fields in range). `getdate` guarantees this. The month and weekday tables give empty names outside those ranges.
