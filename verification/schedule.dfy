/**
 The `Frequency`, `FrequencySpecifier` and `Day` enums of MDBatchEntry:
 which kind of specifier each frequency takes, the step each frequency
 walks the calendar by, and the three-letter weekday codes.
 */
module Schedule {
  import opened Outcomes
  import opened Calendar

  /** The seven frequencies, spelled as the command line spells them. */
  datatype Frequency = Daily | Weekly | Bimonthly | Monthly | Quarterly | Bianually | Anual

  /** The kinds of specifier text a frequency can require. */
  datatype FrequencySpecifier = DaysOfTheWeek | DaysOfTheMonth | DateSpecifier

  /** The specifier kind attached to each frequency; `None` for `Daily`. */
  function SpecifierOf(f: Frequency): Option<FrequencySpecifier> {
    match f
    case Daily => None
    case Weekly | Bimonthly => Some(DaysOfTheWeek)
    case Monthly | Quarterly | Bianually => Some(DaysOfTheMonth)
    case Anual => Some(DateSpecifier)
  }

  /** Months the monthly loop advances by; any frequency other than the two named ones takes 1. */
  function MonthStepOf(f: Frequency): int {
    match f
    case Quarterly => 3
    case Bianually => 6
    case _ => 1
  }

  /** Days the weekly loop advances by; any frequency other than `Bimonthly` takes 7. */
  function DayStepOf(f: Frequency): int {
    match f
    case Bimonthly => 14
    case _ => 7
  }

  /**
   Only `Daily` takes no specifier and only `Anual` a date; the two weekly
   frequencies take weekdays and the other three days of the month.
   */
  lemma SpecifierKinds(f: Frequency)
    ensures SpecifierOf(f).None? <==> f == Daily
    ensures SpecifierOf(f) == Some(DateSpecifier) <==> f == Anual
    ensures SpecifierOf(f) == Some(DaysOfTheWeek) <==> f == Weekly || f == Bimonthly
    ensures SpecifierOf(f) == Some(DaysOfTheMonth) <==> f == Monthly || f == Quarterly || f == Bianually
  {
  }

  /** The month step is 3 exactly for `Quarterly`, 6 exactly for `Bianually`, else 1; each divides a year. */
  lemma MonthSteps(f: Frequency)
    ensures MonthStepOf(f) == 3 <==> f == Quarterly
    ensures MonthStepOf(f) == 6 <==> f == Bianually
    ensures MonthStepOf(f) == 1 <==> f != Quarterly && f != Bianually
    ensures MonthStepOf(f) >= 1 && 12 % MonthStepOf(f) == 0
  {
  }

  /** The day step is two weeks exactly for `Bimonthly`, else one week. */
  lemma DaySteps(f: Frequency)
    ensures DayStepOf(f) == 14 <==> f == Bimonthly
    ensures DayStepOf(f) == 7 <==> f != Bimonthly
  {
  }

  /** The `Day` enum: note Thursday's code is `THR`. */
  datatype Day = Mon | Tue | Wed | Thr | Fri | Sat | Sun

  /** `Calendar.DAY_OF_WEEK` constant of each day: SUNDAY = 1 through SATURDAY = 7. */
  function DayField(d: Day): int {
    match d
    case Sun => 1 case Mon => 2 case Tue => 3 case Wed => 4
    case Thr => 5 case Fri => 6 case Sat => 7
  }

  /** The enum constant's name. */
  function DayName(d: Day): string {
    match d
    case Mon => "MON" case Tue => "TUE" case Wed => "WED" case Thr => "THR"
    case Fri => "FRI" case Sat => "SAT" case Sun => "SUN"
  }

  /** `Day.valueOf(s)`: the day whose name is exactly `s`, if any. */
  function DayNamed(s: string): (r: Option<Day>)
    ensures forall d: Day :: r == Some(d) <==> s == DayName(d)
  {
    if s == "MON" then Some(Mon)
    else if s == "TUE" then Some(Tue)
    else if s == "WED" then Some(Wed)
    else if s == "THR" then Some(Thr)
    else if s == "FRI" then Some(Fri)
    else if s == "SAT" then Some(Sat)
    else if s == "SUN" then Some(Sun)
    else None
  }

  /** Distinct days have distinct calendar fields, so de-duplicating fields de-duplicates days. */
  lemma DayFieldInjective(a: Day, b: Day)
    requires DayField(a) == DayField(b)
    ensures a == b
  {
  }

  /** The `Day` a calendar date falls on. */
  function DayOfDate(date: Date): (w: Day)
    ensures DayField(w) == DayOfWeek(date) + 1
  {
    match DayOfWeek(date)
    case 0 => Sun case 1 => Mon case 2 => Tue case 3 => Wed
    case 4 => Thr case 5 => Fri case _ => Sat
  }
}
