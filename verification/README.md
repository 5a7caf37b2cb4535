# MDBatchEntry occurrence generator, in Dafny

MDBatchEntry is a small command-line tool. It writes a batch of recurring
Moneydance transactions, one row per date. Its core is the block of `main`
that turns a frequency, a raw specifier string and a `[start, end]` window
into the ordered list of dates the transaction recurs on. That block, and
the `Frequency`, `Day` and `FrequencySpecifier` enums it depends on, are
what this project models.

The generator has four branches, one per specifier kind of the frequency:

- `DAILY` takes no specifier and produces no dates.
- `ANUAL` takes a formatted date and produces exactly that date.
- `MONTHLY`, `QUARTERLY` and `BIANUALLY` take a comma-separated list of
  days of the month.
  - The list is validated, de-duplicated and sorted.
  - A cursor starts at `start` and moves 1, 3 or 6 months at a time.
  - Every listed day is emitted in each visited month, with no clipping to
    the window.
- `WEEKLY` and `BIMONTHLY` take a comma-separated list of three-letter
  weekday codes.
  - An anchor starts on the Sunday of `start`'s week and moves 7 or 14 days
    at a time.
  - Only the requested weekdays that fall inside `[start, end]` are emitted.

Any parse error aborts the run with exit status 1 before any row is
written.

Files, each one module:

- `outcomes.dfy` (`Outcomes`): `Option` and `Result`.
- `seqs.dfy` (`Seqs`): de-duplication by first occurrence, insertion sort, flattening.
- `javatext.dfy` (`JavaText`): the `String.split(",")`, `trim`, `toUpperCase`
  and `Integer.parseInt` behaviour the parsers rely on, and decimal writing,
  which states that `parseInt` reads back every 32-bit value.
- `calendar.dfy` (`Calendar`): a day-granular proleptic Gregorian calendar. It has:
  - serial day numbers and weekdays;
  - lenient `set(DAY_OF_MONTH)`, which rolls a day past the month's end into the next month;
  - `add(MONTH)`, which pins the day to the target month's length;
  - `add(DATE)`;
  - `set(DAY_OF_WEEK, SUNDAY)` with Sunday as the first day of the week.
- `schedule.dfy` (`Schedule`): the three enums.
- `specifiers.dfy` (`Specifiers`): the two specifier parsers and their exceptions.
- `generator.dfy` (`Generator`): the monthly and weekly loops, the whole
  generator `Occurrences`, and `Run`, the generator together with its
  `catch` and `System.exit(1)`.
- `examples.dfy` (`Examples`): concrete runs of the parsers and loops.

Three consequences of the code are easy to miss, and the model keeps them:

- The monthly loop's guard tests the cursor left on the last day set,
  moved on by the step. So monthly `1,15` from 2024-01-01 to 2024-03-01
  gives four dates: Jan 1, Jan 15, Feb 1 and Feb 15. After February the
  cursor is 2024-03-15, which is not before `end`
  (`Examples.JanuaryToMarchLoop`).
- Within a week, the weekly loop emits dates in the order of the parsed
  list, not Sunday to Saturday. `FRI,MON` in the week of 2024-01-01 gives
  Jan 5 before Jan 1 (`Examples.FridayMondayLoop`).
- The weekly guard is a strict `before`, so when `end` is a Sunday that
  Sunday's week is never visited. A weekly `SUN` run from 2024-01-01 to
  2024-01-07 gives no date, although Jan 7 is inside the window
  (`Examples.SundayEndLoop`).

## Model

Every row cites `trunk/MDBatchEntry/src/com/mike/MDBatchEntry.java`, which "## Left out" shortens to `MDBatchEntry.java`.

| member | source | states |
|---|---|---|
| Schedule.SpecifierKinds | trunk/MDBatchEntry/src/com/mike/MDBatchEntry.java:16-23 | `SpecifierOf` gives no specifier exactly for `DAILY`, a date exactly for `ANUAL`, weekdays exactly for `WEEKLY` and `BIMONTHLY`, and days of the month exactly for the other three |
| Schedule.MonthSteps | trunk/MDBatchEntry/src/com/mike/MDBatchEntry.java:201-213 | `MonthStepOf` is 3 exactly for `QUARTERLY`, 6 exactly for `BIANUALLY` and 1 for every other frequency; each step divides a year |
| Schedule.DaySteps | trunk/MDBatchEntry/src/com/mike/MDBatchEntry.java:234-243 | `DayStepOf` is 14 exactly for `BIMONTHLY` and 7 for every other frequency |
| Schedule.DayNamed | trunk/MDBatchEntry/src/com/mike/MDBatchEntry.java:49-56 | `Day.valueOf` returns a day exactly when the text is that day's constant name (`THR`, not `THU`) |
| Schedule.DayFieldInjective | trunk/MDBatchEntry/src/com/mike/MDBatchEntry.java:49-66 | distinct days have distinct `Calendar` fields, so de-duplicating fields de-duplicates days |
| Schedule.DayOfDate | trunk/MDBatchEntry/src/com/mike/MDBatchEntry.java:248 | the `Day` of a date has the calendar field matching the date's weekday |
| Calendar.AddDays | trunk/MDBatchEntry/src/com/mike/MDBatchEntry.java:253 | `add(DATE, n)` moves the serial day number by exactly `n` |
| Calendar.AddDaysTo | trunk/MDBatchEntry/src/com/mike/MDBatchEntry.java:253 | the date `n` days on is the unique date whose serial number is `n` larger |
| Calendar.DayOfWeekShift | trunk/MDBatchEntry/src/com/mike/MDBatchEntry.java:248 | moving `n` days moves the weekday by `n` modulo 7 |
| Calendar.SundayOf | trunk/MDBatchEntry/src/com/mike/MDBatchEntry.java:244 | `set(DAY_OF_WEEK, SUNDAY)` with Sunday first gives the Sunday that starts the date's week, at most six days earlier |
| Calendar.SetDayOfMonth | trunk/MDBatchEntry/src/com/mike/MDBatchEntry.java:216 | lenient `set(DAY_OF_MONTH, d)` is `d - 1` days after the first of the month, staying in the month or rolling into the next one |
| Calendar.AddMonths | trunk/MDBatchEntry/src/com/mike/MDBatchEntry.java:219 | `add(MONTH, k)` moves exactly `k` months and keeps the day unless the target month is shorter, when it is that month's last day |
| JavaText.JoinFields | trunk/MDBatchEntry/src/com/mike/MDBatchEntry.java:190 | joining the comma-separated pieces with commas gives back the text |
| JavaText.FieldsJoin | trunk/MDBatchEntry/src/com/mike/MDBatchEntry.java:227 | comma-free pieces are recovered by splitting their join |
| JavaText.Split | trunk/MDBatchEntry/src/com/mike/MDBatchEntry.java:190 | `split(",")` returns comma-free pieces: the text itself when it has no comma, otherwise the pieces minus the trailing empty ones |
| JavaText.SplitJoin | trunk/MDBatchEntry/src/com/mike/MDBatchEntry.java:227 | splitting two or more comma-free pieces, the last non-empty, recovers exactly those pieces |
| JavaText.ToUpper | trunk/MDBatchEntry/src/com/mike/MDBatchEntry.java:230 | `toUpperCase` keeps the length, leaves no lower-case ASCII letter, and changes only lower-case letters, each to its capital |
| JavaText.Trim | trunk/MDBatchEntry/src/com/mike/MDBatchEntry.java:230 | `trim` gives the slice of the text left once the characters up to the space are removed from both ends, and that slice starts and ends with a kept character |
| JavaText.ParseInt | trunk/MDBatchEntry/src/com/mike/MDBatchEntry.java:192 | `parseInt` succeeds exactly on an optionally signed, non-empty digit string whose value fits in 32 bits, and then returns that value |
| JavaText.DecimalRoundTrip | trunk/MDBatchEntry/src/com/mike/MDBatchEntry.java:192 | `parseInt` reads back every 32-bit value written in decimal |
| Seqs.FirstOccurrences | trunk/MDBatchEntry/src/com/mike/MDBatchEntry.java:197-198 | removing repeats leaves a list without repeats holding every element of the input, and nothing else |
| Seqs.FirstOccurrencesElements | trunk/MDBatchEntry/src/com/mike/MDBatchEntry.java:231-232 | an element is kept exactly when it occurs in the input |
| Seqs.FirstOccurrencesOrder | trunk/MDBatchEntry/src/com/mike/MDBatchEntry.java:231-232 | the kept elements come in the order of their first occurrence |
| Seqs.AddIfAbsent | trunk/MDBatchEntry/src/com/mike/MDBatchEntry.java:197-198 | the `contains`-then-`add` step keeps a repeat-free list repeat-free, extends it by at most the new element, and always leaves that element in the list |
| Seqs.AddIfAbsentStep | trunk/MDBatchEntry/src/com/mike/MDBatchEntry.java:197-198 | the `contains`-then-`add` step agrees with the reference de-duplication on any continuation of the list |
| Seqs.Sort | trunk/MDBatchEntry/src/com/mike/MDBatchEntry.java:200 | `Collections.sort` returns an ascending permutation of its input, strictly ascending when the input has no repeats |
| Seqs.SortKeepsElements | trunk/MDBatchEntry/src/com/mike/MDBatchEntry.java:200 | sorting neither adds nor drops a value |
| Seqs.StrictlyIncreasingUnique | trunk/MDBatchEntry/src/com/mike/MDBatchEntry.java:200 | two strictly ascending lists with the same elements are equal |
| Specifiers.MonthDayTokenOfDecimal | trunk/MDBatchEntry/src/com/mike/MDBatchEntry.java:192-196 | a token written as the decimal of any 32-bit value is refused as above 31, refused as below 1, or accepted as that value |
| Specifiers.MonthDayValues | trunk/MDBatchEntry/src/com/mike/MDBatchEntry.java:191-196 | when every token passes, each token's value is a day in 1..31, in token order |
| Specifiers.CollectMonthDays | trunk/MDBatchEntry/src/com/mike/MDBatchEntry.java:191-199 | the token loop succeeds exactly when every token is a number in 1..31, and otherwise fails with the first bad token's exception |
| Specifiers.CollectMonthDaysDedup | trunk/MDBatchEntry/src/com/mike/MDBatchEntry.java:197-198 | on success the loop's list is the token values with repeats removed, in first-occurrence order |
| Specifiers.ParseMonthDays | trunk/MDBatchEntry/src/com/mike/MDBatchEntry.java:190-200 | succeeds exactly when every token is a day; otherwise gives the first bad token's exception; on success the days are strictly ascending, in 1..31, and exactly the token values |
| Specifiers.ParseMonthDaysSorted | trunk/MDBatchEntry/src/com/mike/MDBatchEntry.java:197-200 | the parsed list is the one strictly ascending list of the token values |
| Specifiers.DayTokenIgnoresCase | trunk/MDBatchEntry/src/com/mike/MDBatchEntry.java:230 | a token names a day exactly when its trimmed text spells that day's code with each letter in either case |
| Specifiers.DayValues | trunk/MDBatchEntry/src/com/mike/MDBatchEntry.java:229-230 | each token names the day its trimmed, upper-cased text names, in token order |
| Specifiers.CollectDays | trunk/MDBatchEntry/src/com/mike/MDBatchEntry.java:229-233 | the token loop succeeds exactly when every token names a day, and otherwise fails on the first token that does not, reporting its upper-cased text |
| Specifiers.CollectDaysDedup | trunk/MDBatchEntry/src/com/mike/MDBatchEntry.java:231-232 | on success the loop's list is the named days with repeats removed, in first-mention order |
| Specifiers.ParseWeekdays | trunk/MDBatchEntry/src/com/mike/MDBatchEntry.java:227-233 | succeeds exactly when every token names a day; otherwise fails on the first bad token; on success it gives the named days with repeats removed |
| Specifiers.ParseWeekdaysNamed | trunk/MDBatchEntry/src/com/mike/MDBatchEntry.java:227-233 | the parsed list is determined by the named days alone, however each token is spelled or padded |
| Specifiers.ParsedWeekdays | trunk/MDBatchEntry/src/com/mike/MDBatchEntry.java:228-233 | a parsed weekday list has no repeats, holds exactly the named days and keeps first-mention order |
| Generator.SetEachDay | trunk/MDBatchEntry/src/com/mike/MDBatchEntry.java:215-218 | one pass emits one date per listed day; each lies in the cursor's month or the next, and in the cursor's month when that month has 31 days; the first date is after the cursor when its day is larger than the cursor's |
| Generator.SetEachDayChained | trunk/MDBatchEntry/src/com/mike/MDBatchEntry.java:215-218 | the sets are chained: day `days[i]` counts from the first of the cursor's month until an earlier listed day has rolled over, and from the first of the next month after that; the date lies in the cursor's month unless it or an earlier day rolled over |
| Generator.SetEachDayChronological | trunk/MDBatchEntry/src/com/mike/MDBatchEntry.java:215-218 | ascending days give strictly increasing dates within a pass, roll-overs included |
| Generator.NextCursor | trunk/MDBatchEntry/src/com/mike/MDBatchEntry.java:219 | the next cursor is exactly `step` months after the cursor's month, plus one when some listed day lies past that month's end; its day is the last day set, pinned to the length of the month it lands in |
| Generator.MonthlyRounds | trunk/MDBatchEntry/src/com/mike/MDBatchEntry.java:214-220 | the loop runs at least once exactly when the cursor is before `end`, and every round has one date per listed day |
| Generator.MonthlyRoundsWalk | trunk/MDBatchEntry/src/com/mike/MDBatchEntry.java:214-220 | the loop visits cursors starting at `start`, each the next cursor of the one before and each before `end`, while the cursor after the last is not before `end`; round `k` is the pass from cursor `k` |
| Generator.MonthlyRoundsChained | trunk/MDBatchEntry/src/com/mike/MDBatchEntry.java:214-220 | in every round, date `i` is `days[i]` counted from the first of that round's cursor month, or of the month after once an earlier day of the round rolled over |
| Generator.MonthlyRoundsBound | trunk/MDBatchEntry/src/com/mike/MDBatchEntry.java:214-220 | the loop runs at most once per `step` months between the first cursor and `end`, so it terminates |
| Generator.MonthlyRoundsSpan | trunk/MDBatchEntry/src/com/mike/MDBatchEntry.java:214-220 | no date comes before the first cursor's month or after the month following `end`'s; otherwise dates are not clipped to the window |
| Generator.MonthlyRoundsChronological | trunk/MDBatchEntry/src/com/mike/MDBatchEntry.java:214-220 | with ascending days every date is strictly after the previous one, across rounds |
| Generator.MonthlyCount | trunk/MDBatchEntry/src/com/mike/MDBatchEntry.java:214-218 | the number of dates is the number of listed days times the number of rounds, and at least one round's worth when `start` is before `end` |
| Generator.MonthlyFacts | trunk/MDBatchEntry/src/com/mike/MDBatchEntry.java:186-221 | the monthly loop gives the list length times the number of rounds of dates, in calendar order, from `start`'s month to the month after `end`'s |
| Generator.DayOfAnchoredWeek | trunk/MDBatchEntry/src/com/mike/MDBatchEntry.java:248 | `set(DAY_OF_WEEK, w)` in the week of a Sunday is the one date in that week falling on `w` |
| Generator.WeekRoundMembers | trunk/MDBatchEntry/src/com/mike/MDBatchEntry.java:247-251 | a week's round (`WeekRound`) holds exactly the in-window dates of that week on a requested day |
| Generator.WeekRoundOrder | trunk/MDBatchEntry/src/com/mike/MDBatchEntry.java:247-251 | within a week, dates come in the order their days are listed |
| Generator.ScheduledWeekStep | trunk/MDBatchEntry/src/com/mike/MDBatchEntry.java:252-253 | the Sundays visited are the current one and those visited from the Sunday `step` days later |
| Generator.WeeklyRounds | trunk/MDBatchEntry/src/com/mike/MDBatchEntry.java:245-254 | the loop runs at least once exactly when the anchor Sunday is before `end` |
| Generator.WeeklyRoundsMembers | trunk/MDBatchEntry/src/com/mike/MDBatchEntry.java:244-254 | a date is emitted exactly when it is in `[start, end]`, on a requested day, and in a week whose Sunday is a whole number of steps after the first anchor and before `end` |
| Generator.WeeklyRoundsOrder | trunk/MDBatchEntry/src/com/mike/MDBatchEntry.java:244-254 | dates come week by week in increasing week order, and within a week in list order |
| Generator.WeekOrderedDistinct | trunk/MDBatchEntry/src/com/mike/MDBatchEntry.java:247-250 | week-ordered dates never repeat |
| Generator.WeekOrderedChronological | trunk/MDBatchEntry/src/com/mike/MDBatchEntry.java:247-250 | when the days are listed Sunday to Saturday, the weekly dates are in calendar order |
| Generator.WeeklyFacts | trunk/MDBatchEntry/src/com/mike/MDBatchEntry.java:223-255 | the days-of-the-week branch gives exactly the matching dates, week-ordered and without repeats |
| Generator.MonthlyDates | trunk/MDBatchEntry/src/com/mike/MDBatchEntry.java:186-221 | the days-of-the-month branch fails exactly when the specifier parser fails, with its exception; otherwise it has the monthly loop's count, order and span |
| Generator.WeeklyDates | trunk/MDBatchEntry/src/com/mike/MDBatchEntry.java:223-255 | the days-of-the-week branch fails exactly when the specifier parser fails, with its exception; otherwise it gives exactly the matching dates, week-ordered and without repeats |
| Generator.Occurrences | trunk/MDBatchEntry/src/com/mike/MDBatchEntry.java:179-256 | `DAILY` gives no dates; `ANUAL` gives exactly the parsed date or fails; each list branch fails exactly when its parser fails, with the parser's exception, and otherwise has the monthly or weekly properties above |
| Generator.Run | trunk/MDBatchEntry/src/com/mike/MDBatchEntry.java:257-260 | a run exits with status 1 exactly when generation throws, and otherwise writes exactly the generated dates |
| Generator.RunByFamily | trunk/MDBatchEntry/src/com/mike/MDBatchEntry.java:179-260 | a run writes nothing for `DAILY`, the parsed date for `ANUAL`, and the monthly or weekly loop's dates for the list frequencies once the specifier parses, and exits with status 1 whenever parsing fails |
| Examples.DayZeroIsRejected | trunk/MDBatchEntry/src/com/mike/MDBatchEntry.java:195-196 | `0,15` is refused with the below-range exception for 0 |
| Examples.DayFortyIsRejected | trunk/MDBatchEntry/src/com/mike/MDBatchEntry.java:193-194 | `15,40` is refused with the above-range exception for 40 |
| Examples.SpacedMonthDaysAreRejected | trunk/MDBatchEntry/src/com/mike/MDBatchEntry.java:190-192 | `1, 15` is refused because `parseInt` does not trim ` 15` |
| Examples.MonthDaysAreDeduplicatedAndSorted | trunk/MDBatchEntry/src/com/mike/MDBatchEntry.java:190-200 | `15,15,3` parses to `[3, 15]` |
| Examples.LoneCommaIsEmpty | trunk/MDBatchEntry/src/com/mike/MDBatchEntry.java:190 | `,` splits into no tokens, so it parses to the empty day list |
| Examples.EmptyTextIsRejected | trunk/MDBatchEntry/src/com/mike/MDBatchEntry.java:190-192 | the empty specifier is one empty token, which `parseInt` refuses |
| Examples.FirstAndFifteenthParse | trunk/MDBatchEntry/src/com/mike/MDBatchEntry.java:190-200 | `1,15` parses to `[1, 15]` |
| Examples.MonthEndParse | trunk/MDBatchEntry/src/com/mike/MDBatchEntry.java:190-200 | `30,31` parses to `[30, 31]` |
| Examples.WeekdaysAreNormalised | trunk/MDBatchEntry/src/com/mike/MDBatchEntry.java:227-233 | ` fri ,Mon,FRI` parses to `[FRI, MON]`: tokens are trimmed and upper-cased, repeats dropped |
| Examples.LongNameIsRejected | trunk/MDBatchEntry/src/com/mike/MDBatchEntry.java:230 | `MONDAY` is not a day code |
| Examples.ThuIsRejected | trunk/MDBatchEntry/src/com/mike/MDBatchEntry.java:230 | `thu` is refused as `THU`, since Thursday's code is `THR` |
| Examples.ThursdayParse | trunk/MDBatchEntry/src/com/mike/MDBatchEntry.java:227-233 | `thr` parses to `[THR]` |
| Examples.FridayMondayParse | trunk/MDBatchEntry/src/com/mike/MDBatchEntry.java:227-233 | `FRI,MON` parses to `[FRI, MON]`, in that order |
| Examples.ThirtiethOfFebruary | trunk/MDBatchEntry/src/com/mike/MDBatchEntry.java:216 | setting day 30 in February 2023 rolls over to March 2 |
| Examples.AprilPinned | trunk/MDBatchEntry/src/com/mike/MDBatchEntry.java:219 | one month after March 31 is April 30 |
| Examples.NewYearWeek | trunk/MDBatchEntry/src/com/mike/MDBatchEntry.java:244 | the weekly anchor for 2024-01-01, a Monday, is Sunday 2023-12-31 |
| Examples.JanuaryToMarchLoop | trunk/MDBatchEntry/src/com/mike/MDBatchEntry.java:214-220 | days `[1, 15]` from 2024-01-01 to 2024-03-01 give Jan 1, Jan 15, Feb 1, Feb 15 and no March date |
| Examples.FebruaryRollOverLoop | trunk/MDBatchEntry/src/com/mike/MDBatchEntry.java:214-220 | days `[30, 31]` from 2023-02-01 to 2023-03-01 give March 2 and March 31, and the loop stops at the pinned cursor April 30 |
| Examples.FridayMondayLoop | trunk/MDBatchEntry/src/com/mike/MDBatchEntry.java:244-254 | days `[FRI, MON]` from 2024-01-01 to 2024-01-05 give Jan 5 then Jan 1, in list order |
| Examples.SundayEndLoop | trunk/MDBatchEntry/src/com/mike/MDBatchEntry.java:245 | a `SUN` run from 2024-01-01 to Sunday 2024-01-07 gives no date, because Jan 7's week is never visited |
| Examples.UnreadableDateExits | trunk/MDBatchEntry/src/com/mike/MDBatchEntry.java:184 | an `ANUAL` date the date format cannot read ends the run with status 1 |

## Left out

- Command-line parsing, help and usage text, and the required-option checks (MDBatchEntry.java:93-177, 31-41, 79-90; AutoHelpParser.java). These are glue over a `CmdLineParser` that is not part of this model. The model starts from a frequency and a specifier string that are both present.
- `DateFormat.getDateInstance().parse` for the `ANUAL` date depends on the locale. It is the parameter `parseDate`, which returns a date or nothing.
- Creating and writing the output file, row formatting, and exit statuses 3 and 4 (MDBatchEntry.java:263-290). These are I/O.
- The amount's sign and the debit/deposit marker are floating point and output only.
- The message printed before `System.exit(1)`. `Run` keeps only the exit status, while `Occurrences` keeps the exception itself.
- Time of day, time zones and the locale's first day of the week. Dates are calendar days. `start` defaults to `new Date()`, and a start with a time of day could compare differently with `before` than its day does. The source fixes Sunday as the first day of the week.
- The Julian calendar before 1582. `GregorianCalendar` switches calendars in October 1582; the model is proleptic Gregorian throughout.
- JavaText.ParseInt: accepts only ASCII digits, whereas `Integer.parseInt` also accepts other Unicode decimal digits.
- JavaText.ToUpper: upper-cases only the ASCII letters `a` to `z`. Java's `toUpperCase` also maps other characters onto day-code letters: `ſ` (U+017F) becomes `S` and dotless `ı` (U+0131) becomes `I`, so Java accepts `ſun`, `ſat` and `frı` while the model refuses them. `toUpperCase` also uses the default locale: under a Turkish or Azerbaijani locale `fri` becomes `FRİ`, which Java refuses and the model accepts.
- Generator.Occurrences: for the list branches, it states the dates' properties (count, order, span, membership) rather than the dates themselves. `Generator.RunByFamily` connects a run to the exact loop output.
- End-to-end examples at the level of `Occurrences`, and weekly examples longer than one week, are stated for the loops, not for the whole generator.
