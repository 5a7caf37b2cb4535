/**
 Worked runs of the generator on concrete specifiers and windows. Each run
 is taken apart into single computation steps, one lemma each, and the steps
 are put together by the general lemmas at the top of this module;
 `MonthlyRun` and `WeeklyRun` carry the results over to `Occurrences`.
 */
module Examples {
  import opened Outcomes
  import opened JavaText
  import opened Seqs
  import opened Calendar
  import opened Schedule
  import opened Specifiers
  import opened Generator

  /** A date parser that recognises nothing, for frequencies that never consult it. */
  function NoDates(s: string): Option<Date> {
    None
  }

  // ---------------------------------------------------------------------------
  // Putting steps together

  /** Two tokens whose first is a day: the parse fails exactly as the second token does. */
  lemma SecondTokenRejected(spec: string, a: string, b: string)
    requires Split(spec) == [a, b]
    requires MonthDayToken(a).Success? && MonthDayToken(b).Failure?
    ensures ParseMonthDays(spec) == Failure(MonthDayToken(b).error)
  {
    var toks := Split(spec);
    assert toks[0] == a && toks[1] == b;
    assert !AllMonthDays(toks);
    var i :| FirstMonthDayFailure(toks, i) && ParseMonthDays(spec).error == MonthDayToken(toks[i]).error;
    assert FirstMonthDayFailure(toks, i);
  }

  /** A first token that is no day fails the parse whatever follows it. */
  lemma FirstTokenRejected(spec: string, a: string)
    requires |Split(spec)| > 0 && Split(spec)[0] == a && MonthDayToken(a).Failure?
    ensures ParseMonthDays(spec) == Failure(MonthDayToken(a).error)
  {
    var toks := Split(spec);
    assert !AllMonthDays(toks);
    var i :| FirstMonthDayFailure(toks, i) && ParseMonthDays(spec).error == MonthDayToken(toks[i]).error;
    assert FirstMonthDayFailure(toks, i);
  }

  /** A first token that names no day fails the weekday parse whatever follows it. */
  lemma FirstDayRejected(spec: string, a: string)
    requires |Split(spec)| > 0 && Split(spec)[0] == a && DayToken(a).None?
    ensures ParseWeekdays(spec) == Failure(NoSuchDay(DayCode(a)))
  {
    var toks := Split(spec);
    assert !AllDayTokens(toks);
    var i :| FirstDayFailure(toks, i) && ParseWeekdays(spec).error == NoSuchDay(DayCode(toks[i]));
    assert FirstDayFailure(toks, i);
  }

  /** A round before `end`, followed by the rest of the monthly loop. */
  lemma MonthlyRoundThen(cursor: Date, end: Date, days: seq<int>, step: int, next: Date, round: seq<Date>, rest: seq<Date>)
    requires step >= 1 && DaysInRange(days) && Before(cursor, end)
    requires SetEachDay(cursor, days) == round && NextCursor(cursor, days, step) == next
    requires MonthlyOccurrences(next, end, days, step) == rest
    ensures MonthlyOccurrences(cursor, end, days, step) == round + rest
  {
    MonthlyRoundsUnfold(cursor, end, days, step);
  }

  /** A round before `end` after which the cursor is no longer before it. */
  lemma MonthlyLastRound(cursor: Date, end: Date, days: seq<int>, step: int, next: Date, round: seq<Date>)
    requires step >= 1 && DaysInRange(days) && Before(cursor, end)
    requires SetEachDay(cursor, days) == round && NextCursor(cursor, days, step) == next
    requires !Before(next, end)
    ensures MonthlyOccurrences(cursor, end, days, step) == round
  {
    MonthlyRoundsUnfold(cursor, end, days, step);
    assert round + [] == round;
  }

  /** A weekly loop of one round: the Sunday after the start date's week is not before `end`. */
  lemma SingleWeek(start: Date, end: Date, days: seq<Day>, anchor: Date, next: Date, round: seq<Date>)
    requires SundayOf(start) == anchor && Before(anchor, end)
    requires AddDays(anchor, 7) == next && !Before(next, end)
    requires WeekRound(anchor, start, end, days) == round
    ensures WeeklyOccurrences(start, end, days, 7) == round
  {
    WeeklyRoundsUnfold(anchor, start, end, days, 7);
    assert round + [] == round;
  }

  // ---------------------------------------------------------------------------
  // Days of the month

  lemma SplitZeroFifteen()
    ensures Split("0,15") == ["0", "15"]
  {
    var ps := ["0", "15"];
    assert ps[1..] == ["15"];
    assert "0" + "," + "15" == "0,15";
    SplitJoin(ps);
  }

  lemma ZeroToken()
    ensures MonthDayToken("0") == Failure(DayBelowRange(0))
  {
    MonthDayTokenOfDecimal(0);
  }

  /** Day 0 is below the range, and the parse stops at it. */
  lemma DayZeroIsRejected()
    ensures ParseMonthDays("0,15") == Failure(DayBelowRange(0))
  {
    SplitZeroFifteen();
    ZeroToken();
    FirstTokenRejected("0,15", "0");
  }

  lemma SplitFifteenForty()
    ensures Split("15,40") == ["15", "40"]
  {
    var ps := ["15", "40"];
    assert ps[1..] == ["40"];
    assert "15" + "," + "40" == "15,40";
    SplitJoin(ps);
  }

  lemma FifteenToken()
    ensures MonthDayToken("15") == Success(15)
  {
    MonthDayTokenOfDecimal(15);
    assert Decimal(15) == "15";
  }

  lemma FortyToken()
    ensures MonthDayToken("40") == Failure(DayAboveRange(40))
  {
    MonthDayTokenOfDecimal(40);
    assert Decimal(40) == "40";
  }

  /** The first token is a day; the second is a number above 31. */
  lemma DayFortyIsRejected()
    ensures ParseMonthDays("15,40") == Failure(DayAboveRange(40))
  {
    SplitFifteenForty();
    FifteenToken();
    FortyToken();
    SecondTokenRejected("15,40", "15", "40");
  }

  lemma SplitSpacedFifteen()
    ensures Split("1, 15") == ["1", " 15"]
  {
    var ps := ["1", " 15"];
    assert ps[1..] == [" 15"];
    assert "1" + "," + " 15" == "1, 15";
    SplitJoin(ps);
  }

  lemma OneToken()
    ensures MonthDayToken("1") == Success(1)
  {
    MonthDayTokenOfDecimal(1);
  }

  lemma SpacedToken()
    ensures MonthDayToken(" 15") == Failure(NotANumber(" 15"))
  {
    assert " 15"[0] == ' ';
  }

  /** A blank after the comma is not a number: days of the month are not trimmed. */
  lemma SpacedMonthDaysAreRejected()
    ensures ParseMonthDays("1, 15") == Failure(NotANumber(" 15"))
  {
    SplitSpacedFifteen();
    OneToken();
    SpacedToken();
    SecondTokenRejected("1, 15", "1", " 15");
  }

  lemma SplitRepeatedFifteen()
    ensures Split("15,15,3") == ["15", "15", "3"]
  {
    var ps := ["15", "15", "3"];
    assert ps[1..] == ["15", "3"] && ps[1..][1..] == ["3"];
    assert "15" + "," + ("15" + "," + "3") == "15,15,3";
    SplitJoin(ps);
  }

  lemma ThreeToken()
    ensures MonthDayToken("3") == Success(3)
  {
    MonthDayTokenOfDecimal(3);
  }

  lemma RepeatedFifteenValues()
    ensures AllMonthDays(["15", "15", "3"]) && MonthDayValues(["15", "15", "3"]) == [15, 15, 3]
  {
    FifteenToken();
    ThreeToken();
  }

  lemma RepeatedFifteenMembers()
    ensures forall x :: x in [3, 15] <==> x in [15, 15, 3]
  {
  }

  /** Repeats are dropped and the days come out in ascending order. */
  lemma MonthDaysAreDeduplicatedAndSorted()
    ensures ParseMonthDays("15,15,3") == Success([3, 15])
  {
    SplitRepeatedFifteen();
    RepeatedFifteenValues();
    RepeatedFifteenMembers();
    ParseMonthDaysSorted("15,15,3", [3, 15]);
  }

  lemma SplitLoneComma()
    ensures Split(",") == []
  {
    assert ","[1..] == "";
    assert Fields(",") == ["", ""];
    assert DropTrailingEmpty(["", ""]) == [];
  }

  /** A lone comma splits into no tokens at all, so it parses to no days. */
  lemma LoneCommaIsEmpty()
    ensures ParseMonthDays(",") == Success([])
  {
    SplitLoneComma();
    ParseMonthDaysSorted(",", []);
  }

  /** The empty text splits into one empty token, which is not a number. */
  lemma EmptyTextIsRejected()
    ensures ParseMonthDays("") == Failure(NotANumber(""))
  {
    FirstTokenRejected("", "");
  }

  // ---------------------------------------------------------------------------
  // Days of the week

  lemma PaddedFridayCode()
    ensures DayToken(" fri ") == Some(Fri)
  {
    var s := " fri ";
    assert s[1..] == "fri " && "fri "[1..] == "ri ";
    assert LeadingTrimmed(s) == 1;
    assert "fri "[..3] == "fri";
    assert TrimEnd("fri ") == "fri";
    assert ToUpper("fri") == "FRI";
  }

  lemma MixedCaseMondayCode()
    ensures DayToken("Mon") == Some(Mon)
  {
    assert LeadingTrimmed("Mon") == 0;
    assert ToUpper("Mon") == "MON";
  }

  lemma FridayCode()
    ensures DayToken("FRI") == Some(Fri)
  {
    assert LeadingTrimmed("FRI") == 0;
  }

  lemma MondayCode()
    ensures DayToken("MON") == Some(Mon)
  {
    assert LeadingTrimmed("MON") == 0;
  }

  lemma SundayCode()
    ensures DayToken("SUN") == Some(Sun)
  {
    assert LeadingTrimmed("SUN") == 0;
  }

  lemma SplitPaddedWeekdays()
    ensures Split(" fri ,Mon,FRI") == [" fri ", "Mon", "FRI"]
  {
    var ps := [" fri ", "Mon", "FRI"];
    assert ps[1..] == ["Mon", "FRI"] && ps[1..][1..] == ["FRI"];
    assert " fri " + "," + ("Mon" + "," + "FRI") == " fri ,Mon,FRI";
    SplitJoin(ps);
  }

  lemma PaddedWeekdayValues()
    ensures AllDayTokens([" fri ", "Mon", "FRI"]) && DayValues([" fri ", "Mon", "FRI"]) == [Fri, Mon, Fri]
  {
    PaddedFridayCode();
    MixedCaseMondayCode();
    FridayCode();
  }

  lemma RepeatedFriday()
    ensures FirstOccurrences([Fri, Mon, Fri]) == [Fri, Mon]
  {
    assert [Fri, Mon, Fri][..2] == [Fri, Mon] && [Fri, Mon][..1] == [Fri] && [Fri][..0] == [];
  }

  /** Weekday tokens are trimmed and upper-cased, and keep the order of first mention. */
  lemma WeekdaysAreNormalised()
    ensures ParseWeekdays(" fri ,Mon,FRI") == Success([Fri, Mon])
  {
    SplitPaddedWeekdays();
    PaddedWeekdayValues();
    RepeatedFriday();
    ParseWeekdaysNamed(" fri ,Mon,FRI", [Fri, Mon, Fri], [Fri, Mon]);
  }

  lemma LongMondayCode()
    ensures DayToken("MONDAY") == None && DayCode("MONDAY") == "MONDAY"
  {
    assert LeadingTrimmed("MONDAY") == 0;
  }

  /** Only the enum's own three-letter codes name days. */
  lemma LongNameIsRejected()
    ensures ParseWeekdays("MONDAY") == Failure(NoSuchDay("MONDAY"))
  {
    LongMondayCode();
    FirstDayRejected("MONDAY", "MONDAY");
  }

  lemma ThuCode()
    ensures DayToken("thu") == None && DayCode("thu") == "THU"
  {
    assert LeadingTrimmed("thu") == 0;
    assert ToUpper("thu") == "THU";
  }

  /** Thursday's code is `THR`; the usual abbreviation names no day. */
  lemma ThuIsRejected()
    ensures ParseWeekdays("thu") == Failure(NoSuchDay("THU"))
  {
    ThuCode();
    FirstDayRejected("thu", "thu");
  }

  lemma ThrCode()
    ensures DayToken("thr") == Some(Thr)
  {
    assert LeadingTrimmed("thr") == 0;
    assert ToUpper("thr") == "THR";
  }

  lemma SingleDay(d: Day)
    ensures FirstOccurrences([d]) == [d]
  {
    assert [d][..0] == [];
  }

  lemma ThursdayParse()
    ensures ParseWeekdays("thr") == Success([Thr])
  {
    ThrCode();
    SingleDay(Thr);
    ParseWeekdaysNamed("thr", [Thr], [Thr]);
  }

  // ---------------------------------------------------------------------------
  // Monthly runs

  lemma SplitFirstAndFifteenth()
    ensures Split("1,15") == ["1", "15"]
  {
    var ps := ["1", "15"];
    assert ps[1..] == ["15"];
    assert "1" + "," + "15" == "1,15";
    SplitJoin(ps);
  }

  lemma FirstAndFifteenthParse()
    ensures ParseMonthDays("1,15") == Success([1, 15])
  {
    SplitFirstAndFifteenth();
    OneToken();
    FifteenToken();
    ParseMonthDaysSorted("1,15", [1, 15]);
  }

  lemma JanuaryRound()
    ensures SetEachDay(Civil(2024, 1, 1), [1, 15]) == [Civil(2024, 1, 1), Civil(2024, 1, 15)]
  {
    assert SetDayOfMonth(Civil(2024, 1, 1), 1) == Civil(2024, 1, 1);
    assert SetDayOfMonth(Civil(2024, 1, 1), 15) == Civil(2024, 1, 15);
    assert [1, 15][1..] == [15] && [15][1..] == [];
  }

  lemma FebruaryFifteenth()
    ensures AddMonths(Civil(2024, 1, 15), 1) == Civil(2024, 2, 15)
  {
    assert MonthIndex(Civil(2024, 1, 15)) + 1 == 2024 * 12 + 1;
  }

  lemma JanuaryCursor()
    ensures NextCursor(Civil(2024, 1, 1), [1, 15], 1) == Civil(2024, 2, 15)
  {
    JanuaryRound();
    FebruaryFifteenth();
  }

  lemma FebruaryRound()
    ensures SetEachDay(Civil(2024, 2, 15), [1, 15]) == [Civil(2024, 2, 1), Civil(2024, 2, 15)]
  {
    assert SetDayOfMonth(Civil(2024, 2, 15), 1) == Civil(2024, 2, 1);
    assert SetDayOfMonth(Civil(2024, 2, 1), 15) == Civil(2024, 2, 15);
    assert [1, 15][1..] == [15] && [15][1..] == [];
  }

  lemma MarchFifteenth()
    ensures AddMonths(Civil(2024, 2, 15), 1) == Civil(2024, 3, 15)
  {
    assert MonthIndex(Civil(2024, 2, 15)) + 1 == 2024 * 12 + 2;
  }

  lemma FebruaryCursor()
    ensures NextCursor(Civil(2024, 2, 15), [1, 15], 1) == Civil(2024, 3, 15)
  {
    FebruaryRound();
    MarchFifteenth();
  }

  lemma FirstQuarterOrder()
    ensures Before(Civil(2024, 1, 1), Civil(2024, 3, 1))
    ensures Before(Civil(2024, 2, 15), Civil(2024, 3, 1))
    ensures !Before(Civil(2024, 3, 15), Civil(2024, 3, 1))
  {
  }

  lemma FebruaryOnwards()
    ensures MonthlyOccurrences(Civil(2024, 2, 15), Civil(2024, 3, 1), [1, 15], 1)
      == [Civil(2024, 2, 1), Civil(2024, 2, 15)]
  {
    FebruaryRound();
    FebruaryCursor();
    FirstQuarterOrder();
    MonthlyLastRound(Civil(2024, 2, 15), Civil(2024, 3, 1), [1, 15], 1, Civil(2024, 3, 15),
                     [Civil(2024, 2, 1), Civil(2024, 2, 15)]);
  }

  lemma FourDates()
    ensures [Civil(2024, 1, 1), Civil(2024, 1, 15)] + [Civil(2024, 2, 1), Civil(2024, 2, 15)]
      == [Civil(2024, 1, 1), Civil(2024, 1, 15), Civil(2024, 2, 1), Civil(2024, 2, 15)]
  {
  }

  /**
   Monthly on the 1st and 15th from 2024-01-01 to 2024-03-01: after February
   the cursor sits on March 15th, which is not before March 1st, so March 1st
   is not emitted.
   */
  lemma JanuaryToMarchLoop()
    ensures MonthlyOccurrences(Civil(2024, 1, 1), Civil(2024, 3, 1), [1, 15], 1)
      == [Civil(2024, 1, 1), Civil(2024, 1, 15), Civil(2024, 2, 1), Civil(2024, 2, 15)]
  {
    JanuaryRound();
    JanuaryCursor();
    FirstQuarterOrder();
    FebruaryOnwards();
    FourDates();
    MonthlyRoundThen(Civil(2024, 1, 1), Civil(2024, 3, 1), [1, 15], 1, Civil(2024, 2, 15),
                     [Civil(2024, 1, 1), Civil(2024, 1, 15)], [Civil(2024, 2, 1), Civil(2024, 2, 15)]);
  }

  lemma SplitMonthEnd()
    ensures Split("30,31") == ["30", "31"]
  {
    var ps := ["30", "31"];
    assert ps[1..] == ["31"];
    assert "30" + "," + "31" == "30,31";
    SplitJoin(ps);
  }

  lemma ThirtyToken()
    ensures MonthDayToken("30") == Success(30)
  {
    MonthDayTokenOfDecimal(30);
    assert Decimal(30) == "30";
  }

  lemma ThirtyOneToken()
    ensures MonthDayToken("31") == Success(31)
  {
    MonthDayTokenOfDecimal(31);
    assert Decimal(31) == "31";
  }

  lemma MonthEndParse()
    ensures ParseMonthDays("30,31") == Success([30, 31])
  {
    SplitMonthEnd();
    ThirtyToken();
    ThirtyOneToken();
    ParseMonthDaysSorted("30,31", [30, 31]);
  }

  /** Day 30 of February 2023 is March 2nd. */
  lemma ThirtiethOfFebruary()
    ensures SetDayOfMonth(Civil(2023, 2, 1), 30) == Civil(2023, 3, 2)
  {
  }

  /** Day 31 is then set on the rolled-over calendar, in March. */
  lemma ThirtyFirstAfterRollOver()
    ensures SetDayOfMonth(Civil(2023, 3, 2), 31) == Civil(2023, 3, 31)
  {
  }

  lemma FebruaryRollOverRound()
    ensures SetEachDay(Civil(2023, 2, 1), [30, 31]) == [Civil(2023, 3, 2), Civil(2023, 3, 31)]
  {
    ThirtiethOfFebruary();
    ThirtyFirstAfterRollOver();
    assert [30, 31][1..] == [31] && [31][1..] == [];
  }

  /** A month after March 31st is pinned to April 30th. */
  lemma AprilPinned()
    ensures AddMonths(Civil(2023, 3, 31), 1) == Civil(2023, 4, 30)
  {
    assert MonthIndex(Civil(2023, 3, 31)) + 1 == 2023 * 12 + 3;
  }

  /** The cursor is left on March 31st. */
  lemma FebruaryRollOverCursor()
    ensures NextCursor(Civil(2023, 2, 1), [30, 31], 1) == Civil(2023, 4, 30)
  {
    FebruaryRollOverRound();
    AprilPinned();
  }

  lemma RollOverOrder()
    ensures Before(Civil(2023, 2, 1), Civil(2023, 3, 1)) && !Before(Civil(2023, 4, 30), Civil(2023, 3, 1))
  {
  }

  /** Days past the end of February roll over into March; both dates lie past `end`. */
  lemma FebruaryRollOverLoop()
    ensures MonthlyOccurrences(Civil(2023, 2, 1), Civil(2023, 3, 1), [30, 31], 1)
      == [Civil(2023, 3, 2), Civil(2023, 3, 31)]
  {
    FebruaryRollOverRound();
    FebruaryRollOverCursor();
    RollOverOrder();
    MonthlyLastRound(Civil(2023, 2, 1), Civil(2023, 3, 1), [30, 31], 1, Civil(2023, 4, 30),
                     [Civil(2023, 3, 2), Civil(2023, 3, 31)]);
  }

  // ---------------------------------------------------------------------------
  // Weekly runs

  lemma SplitFridayMonday()
    ensures Split("FRI,MON") == ["FRI", "MON"]
  {
    var ps := ["FRI", "MON"];
    assert ps[1..] == ["MON"];
    assert "FRI" + "," + "MON" == "FRI,MON";
    SplitJoin(ps);
  }

  lemma FridayMondayDistinct()
    ensures FirstOccurrences([Fri, Mon]) == [Fri, Mon]
  {
    assert [Fri, Mon][..1] == [Fri] && [Fri][..0] == [];
  }

  lemma FridayMondayValues()
    ensures AllDayTokens(["FRI", "MON"]) && DayValues(["FRI", "MON"]) == [Fri, Mon]
  {
    FridayCode();
    MondayCode();
  }

  lemma FridayMondayParse()
    ensures ParseWeekdays("FRI,MON") == Success([Fri, Mon])
  {
    SplitFridayMonday();
    FridayMondayValues();
    FridayMondayDistinct();
    ParseWeekdaysNamed("FRI,MON", [Fri, Mon], [Fri, Mon]);
  }

  lemma NewYearMonday()
    ensures DayOfWeek(Civil(2024, 1, 1)) == 1
  {
  }

  lemma NewYearsEveSunday()
    ensures DayOfWeek(Civil(2023, 12, 31)) == 0
  {
  }

  /** 2024-01-01 was a Monday, so its week began on 2023-12-31. */
  lemma NewYearWeek()
    ensures SundayOf(Civil(2024, 1, 1)) == Civil(2023, 12, 31)
  {
    NewYearMonday();
    AddDaysTo(Civil(2024, 1, 1), -1, Civil(2023, 12, 31));
  }

  lemma FirstWeekStep()
    ensures AddDays(Civil(2023, 12, 31), 7) == Civil(2024, 1, 7)
  {
    AddDaysTo(Civil(2023, 12, 31), 7, Civil(2024, 1, 7));
  }

  lemma FirstWeekDays()
    ensures AddDays(Civil(2023, 12, 31), DayOffset(Fri)) == Civil(2024, 1, 5)
    ensures AddDays(Civil(2023, 12, 31), DayOffset(Mon)) == Civil(2024, 1, 1)
  {
    AddDaysTo(Civil(2023, 12, 31), 5, Civil(2024, 1, 5));
    AddDaysTo(Civil(2023, 12, 31), 1, Civil(2024, 1, 1));
  }

  /** The week's dates come out in the order the days are listed, not in calendar order. */
  lemma FirstWeek()
    ensures DayOfWeek(Civil(2023, 12, 31)) == 0
    ensures WeekRound(Civil(2023, 12, 31), Civil(2024, 1, 1), Civil(2024, 1, 5), [Fri, Mon])
      == [Civil(2024, 1, 5), Civil(2024, 1, 1)]
  {
    NewYearsEveSunday();
    FirstWeekDays();
    assert [Fri, Mon][1..] == [Mon] && [Mon][1..] == [];
  }

  lemma FirstWeekOrder()
    ensures Before(Civil(2023, 12, 31), Civil(2024, 1, 5)) && !Before(Civil(2024, 1, 7), Civil(2024, 1, 5))
  {
  }

  lemma SundayEndOrder()
    ensures Before(Civil(2023, 12, 31), Civil(2024, 1, 7)) && !Before(Civil(2024, 1, 7), Civil(2024, 1, 7))
  {
  }

  /**
   Weekly on Fridays and Mondays over the first five days of 2024: Friday
   the 5th is emitted before Monday the 1st.
   */
  lemma FridayMondayLoop()
    ensures WeeklyOccurrences(Civil(2024, 1, 1), Civil(2024, 1, 5), [Fri, Mon], 7)
      == [Civil(2024, 1, 5), Civil(2024, 1, 1)]
  {
    NewYearWeek();
    FirstWeek();
    FirstWeekStep();
    FirstWeekOrder();
    SingleWeek(Civil(2024, 1, 1), Civil(2024, 1, 5), [Fri, Mon], Civil(2023, 12, 31), Civil(2024, 1, 7),
               [Civil(2024, 1, 5), Civil(2024, 1, 1)]);
  }

  lemma SundayParse()
    ensures ParseWeekdays("SUN") == Success([Sun])
  {
    SundayCode();
    SingleDay(Sun);
    ParseWeekdaysNamed("SUN", [Sun], [Sun]);
  }

  /** The Sunday of the first week falls before the window opens. */
  lemma NewYearsEveOutside()
    ensures WeekRound(Civil(2023, 12, 31), Civil(2024, 1, 1), Civil(2024, 1, 7), [Sun]) == []
  {
    NewYearsEveSunday();
    assert AddDays(Civil(2023, 12, 31), DayOffset(Sun)) == Civil(2023, 12, 31);
    assert [Sun][1..] == [];
  }

  /**
   When `end` is a Sunday its own week is never visited: the only Sunday
   visited is 2023-12-31, outside the window, and 2024-01-07 is not emitted
   although it lies in the window.
   */
  lemma SundayEndLoop()
    ensures WeeklyOccurrences(Civil(2024, 1, 1), Civil(2024, 1, 7), [Sun], 7) == []
  {
    NewYearWeek();
    NewYearsEveSunday();
    NewYearsEveOutside();
    FirstWeekStep();
    SundayEndOrder();
    SingleWeek(Civil(2024, 1, 1), Civil(2024, 1, 7), [Sun], Civil(2023, 12, 31), Civil(2024, 1, 7), []);
  }

  // ---------------------------------------------------------------------------
  // Other frequencies

  /** An unreadable fixed date aborts the run with status 1. */
  lemma UnreadableDateExits()
    ensures Run(Anual, "31/02/2024", Civil(2024, 1, 1), Civil(2024, 12, 31), NoDates) == Exit(1)
  {
  }
}
