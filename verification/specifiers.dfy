/**
 Parsing of the raw specifier text into the list the generators walk: a
 list of days of the month, or a list of weekdays. Every error aborts the
 run before a single date is produced; the error is the exception the
 first offending token raises.
 */
module Specifiers {
  import opened Outcomes
  import opened JavaText
  import opened Seqs
  import opened Schedule

  /** The exceptions the specifier parsing can raise. */
  datatype SpecifierError =
    | NotANumber(token: string)       // NumberFormatException from Integer.parseInt
    | DayAboveRange(value: int)       // "Day values cannot be greater than 31"
    | DayBelowRange(value: int)       // "Day values cannot be less than 1"
    | NoSuchDay(name: string)         // IllegalArgumentException from Day.valueOf
    | UnparseableDate(text: string)   // ParseException from DateFormat.parse

  predicate InMonthRange(d: int) {
    1 <= d <= 31
  }

  // ---------------------------------------------------------------------------
  // Days of the month

  /** One token of a days-of-the-month list, checked in the order the loop checks it. */
  function MonthDayToken(t: string): Result<int, SpecifierError>
  {
    match ParseInt(t)
    case None => Failure(NotANumber(t))
    case Some(n) =>
      if n > 31 then Failure(DayAboveRange(n))
      else if n < 1 then Failure(DayBelowRange(n))
      else Success(n)
  }

  /**
   Every 32-bit number written in decimal is accepted exactly when it is a
   day of the month, and otherwise refused with the exception for the side
   of the range it misses.
   */
  lemma MonthDayTokenOfDecimal(n: int)
    requires MinInt <= n <= MaxInt
    ensures MonthDayToken(Decimal(n)) ==
      if n > 31 then Failure(DayAboveRange(n)) else if n < 1 then Failure(DayBelowRange(n)) else Success(n)
  {
    DecimalRoundTrip(n);
  }

  predicate AllMonthDays(toks: seq<string>) {
    forall i :: 0 <= i < |toks| ==> MonthDayToken(toks[i]).Success?
  }

  /** Token `i` is the first one that does not denote a day of the month. */
  predicate FirstMonthDayFailure(toks: seq<string>, i: int) {
    && 0 <= i < |toks|
    && MonthDayToken(toks[i]).Failure?
    && forall j :: 0 <= j < i ==> MonthDayToken(toks[j]).Success?
  }

  /** The day each token denotes, in token order, duplicates included. */
  function MonthDayValues(toks: seq<string>): (r: seq<int>)
    requires AllMonthDays(toks)
    ensures |r| == |toks|
    ensures forall i :: 0 <= i < |r| ==> InMonthRange(r[i]) && MonthDayToken(toks[i]) == Success(r[i])
  {
    if |toks| == 0 then [] else [MonthDayToken(toks[0]).value] + MonthDayValues(toks[1..])
  }

  /**
   The token loop: parse and range-check each token, and append the day to
   `acc` unless `acc` already lists it.
   */
  function CollectMonthDays(acc: seq<int>, toks: seq<string>): (r: Result<seq<int>, SpecifierError>)
    requires NoDuplicates(acc)
    ensures r.Success? <==> AllMonthDays(toks)
    ensures r.Failure? ==> exists i :: FirstMonthDayFailure(toks, i) && r.error == MonthDayToken(toks[i]).error
    decreases |toks|
  {
    if |toks| == 0 then
      Success(acc)
    else
      MonthDayTail(toks);
      match MonthDayToken(toks[0])
      case Failure(e) =>
        assert FirstMonthDayFailure(toks, 0);
        Failure(e)
      case Success(day) =>
        CollectMonthDays(AddIfAbsent(acc, day), toks[1..])
  }

  /** The token loop removes duplicates exactly as the reference definition does. */
  lemma {:induction false} CollectMonthDaysDedup(acc: seq<int>, toks: seq<string>)
    requires NoDuplicates(acc) && AllMonthDays(toks)
    ensures CollectMonthDays(acc, toks) == Success(FirstOccurrences(acc + MonthDayValues(toks)))
    decreases |toks|
  {
    if |toks| == 0 {
      FirstOccurrencesOfDistinct(acc);
      assert acc + [] == acc;
    } else {
      MonthDayTail(toks);
      var day := MonthDayToken(toks[0]).value;
      CollectMonthDaysDedup(AddIfAbsent(acc, day), toks[1..]);
      AddIfAbsentStep(acc, day, MonthDayValues(toks[1..]));
    }
  }

  /** How the three token predicates split off the first token. */
  lemma MonthDayTail(toks: seq<string>)
    requires |toks| > 0
    ensures AllMonthDays(toks) <==> MonthDayToken(toks[0]).Success? && AllMonthDays(toks[1..])
    ensures MonthDayToken(toks[0]).Success? ==>
      forall i :: FirstMonthDayFailure(toks[1..], i) ==> FirstMonthDayFailure(toks, i + 1)
    ensures AllMonthDays(toks) ==> MonthDayValues(toks) == [MonthDayToken(toks[0]).value] + MonthDayValues(toks[1..])
  {
    assert forall i :: 0 < i < |toks| ==> toks[i] == toks[1..][i - 1];
  }

  /**
   A days-of-the-month specifier: the comma-separated tokens as days 1..31,
   de-duplicated and sorted ascending.
   */
  function ParseMonthDays(spec: string): (r: Result<seq<int>, SpecifierError>)
    ensures r.Success? <==> AllMonthDays(Split(spec))
    ensures r.Failure? ==>
      exists i :: FirstMonthDayFailure(Split(spec), i) && r.error == MonthDayToken(Split(spec)[i]).error
    ensures r.Success? ==> StrictlyIncreasing(r.value)
    ensures r.Success? ==> forall i :: 0 <= i < |r.value| ==> InMonthRange(r.value[i])
    ensures r.Success? ==> forall d :: d in r.value <==> d in MonthDayValues(Split(spec))
  {
    var toks := Split(spec);
    var days :- CollectMonthDays([], toks);
    CollectMonthDaysDedup([], toks);
    assert [] + MonthDayValues(toks) == MonthDayValues(toks);
    SortKeepsElements(days);
    var sorted := Sort(days);
    assert forall i :: 0 <= i < |sorted| ==> InMonthRange(sorted[i]) by {
      forall i | 0 <= i < |sorted| ensures InMonthRange(sorted[i]) {
        var vals := MonthDayValues(toks);
        assert days == FirstOccurrences(vals);
        assert sorted[i] in days;
        var j :| 0 <= j < |days| && days[j] == sorted[i];
        assert days[j] in vals;
        var k :| 0 <= k < |vals| && vals[k] == sorted[i];
      }
    }
    Success(sorted)
  }

  /** The parsed list is the ascending list of the distinct token values. */
  lemma ParseMonthDaysSorted(spec: string, days: seq<int>)
    requires AllMonthDays(Split(spec)) && StrictlyIncreasing(days)
    requires forall d :: d in days <==> d in MonthDayValues(Split(spec))
    ensures ParseMonthDays(spec) == Success(days)
  {
    StrictlyIncreasingUnique(ParseMonthDays(spec).value, days);
  }

  // ---------------------------------------------------------------------------
  // Days of the week

  /** The text `Day.valueOf` is given for a token. */
  function DayCode(t: string): string {
    ToUpper(Trim(t))
  }

  function DayToken(t: string): Option<Day> {
    DayNamed(DayCode(t))
  }

  /** `t` spells `code` with each of its capital letters in either case. */
  predicate SpelledIgnoringCase(t: string, code: string) {
    |t| == |code| && forall i :: 0 <= i < |t| ==> t[i] == code[i] || t[i] as int == code[i] as int + 32
  }

  /**
   A token names a day exactly when, once trimmed, it spells that day's
   code in any mixture of capital and small letters.
   */
  lemma DayTokenIgnoresCase(t: string, d: Day)
    ensures DayToken(t) == Some(d) <==> SpelledIgnoringCase(Trim(t), DayName(d))
  {
    var u, n := Trim(t), DayName(d);
    var v := ToUpper(u);
    DayNameCapitals(d);
    if SpelledIgnoringCase(u, n) {
      forall i | 0 <= i < |v| ensures v[i] == n[i] {
        if u[i] != n[i] {
          assert IsLower(u[i]);
        }
      }
      assert v == n;
    }
  }

  /** Day codes are three capital letters. */
  lemma DayNameCapitals(d: Day)
    ensures |DayName(d)| == 3 && forall i :: 0 <= i < 3 ==> 'A' <= DayName(d)[i] <= 'Z'
  {
  }

  predicate AllDayTokens(toks: seq<string>) {
    forall i :: 0 <= i < |toks| ==> DayToken(toks[i]).Some?
  }

  /** Token `i` is the first one that names no day. */
  predicate FirstDayFailure(toks: seq<string>, i: int) {
    && 0 <= i < |toks|
    && DayToken(toks[i]).None?
    && forall j :: 0 <= j < i ==> DayToken(toks[j]).Some?
  }

  /** The day each token names, in token order, duplicates included. */
  function DayValues(toks: seq<string>): (r: seq<Day>)
    requires AllDayTokens(toks)
    ensures |r| == |toks|
    ensures forall i :: 0 <= i < |r| ==> DayToken(toks[i]) == Some(r[i])
  {
    if |toks| == 0 then [] else [DayToken(toks[0]).value] + DayValues(toks[1..])
  }

  /**
   The token loop: look each trimmed, upper-cased token up in `Day`, and
   append it to `acc` unless `acc` already lists the same calendar field.
   */
  function CollectDays(acc: seq<Day>, toks: seq<string>): (r: Result<seq<Day>, SpecifierError>)
    requires NoDuplicates(acc)
    ensures r.Success? <==> AllDayTokens(toks)
    ensures r.Failure? ==> exists i :: FirstDayFailure(toks, i) && r.error == NoSuchDay(DayCode(toks[i]))
    decreases |toks|
  {
    if |toks| == 0 then
      Success(acc)
    else
      DayTail(toks);
      match DayToken(toks[0])
      case None =>
        assert FirstDayFailure(toks, 0);
        Failure(NoSuchDay(DayCode(toks[0])))
      case Some(day) =>
        CollectDays(AddIfAbsent(acc, day), toks[1..])
  }

  /** The token loop removes duplicates exactly as the reference definition does. */
  lemma {:induction false} CollectDaysDedup(acc: seq<Day>, toks: seq<string>)
    requires NoDuplicates(acc) && AllDayTokens(toks)
    ensures CollectDays(acc, toks) == Success(FirstOccurrences(acc + DayValues(toks)))
    decreases |toks|
  {
    if |toks| == 0 {
      FirstOccurrencesOfDistinct(acc);
      assert acc + [] == acc;
    } else {
      DayTail(toks);
      var day := DayToken(toks[0]).value;
      CollectDaysDedup(AddIfAbsent(acc, day), toks[1..]);
      AddIfAbsentStep(acc, day, DayValues(toks[1..]));
    }
  }

  lemma DayTail(toks: seq<string>)
    requires |toks| > 0
    ensures AllDayTokens(toks) <==> DayToken(toks[0]).Some? && AllDayTokens(toks[1..])
    ensures DayToken(toks[0]).Some? ==>
      forall i :: FirstDayFailure(toks[1..], i) ==> FirstDayFailure(toks, i + 1)
    ensures AllDayTokens(toks) ==> DayValues(toks) == [DayToken(toks[0]).value] + DayValues(toks[1..])
  {
    assert forall i :: 0 < i < |toks| ==> toks[i] == toks[1..][i - 1];
  }

  /**
   A days-of-the-week specifier: the comma-separated tokens as weekdays,
   each kept at its first occurrence, in the order given.
   */
  function ParseWeekdays(spec: string): (r: Result<seq<Day>, SpecifierError>)
    ensures r.Success? <==> AllDayTokens(Split(spec))
    ensures r.Failure? ==>
      exists i :: FirstDayFailure(Split(spec), i) && r.error == NoSuchDay(DayCode(Split(spec)[i]))
    ensures r.Success? ==> r.value == FirstOccurrences(DayValues(Split(spec)))
  {
    var toks := Split(spec);
    var r := CollectDays([], toks);
    if r.Success? then
      CollectDaysDedup([], toks);
      assert [] + DayValues(toks) == DayValues(toks);
      r
    else
      r
  }

  /** The parsed list is the tokens' days with repeats removed, whatever the spelling of each token. */
  lemma ParseWeekdaysNamed(spec: string, named: seq<Day>, days: seq<Day>)
    requires AllDayTokens(Split(spec)) && DayValues(Split(spec)) == named
    requires FirstOccurrences(named) == days
    ensures ParseWeekdays(spec) == Success(days)
  {
  }

  /** A parsed weekday list has no repeats, names exactly the tokens' days, and keeps first-mention order. */
  lemma ParsedWeekdays(spec: string)
    requires ParseWeekdays(spec).Success?
    ensures NoDuplicates(ParseWeekdays(spec).value)
    ensures forall d :: d in ParseWeekdays(spec).value <==> d in DayValues(Split(spec))
    ensures var days, named := ParseWeekdays(spec).value, DayValues(Split(spec));
      forall i, j :: 0 <= i < j < |days| ==> IndexOf(named, days[i]) < IndexOf(named, days[j])
  {
    var named := DayValues(Split(spec));
    var days := ParseWeekdays(spec).value;
    assert days == FirstOccurrences(named);
    FirstOccurrencesElements(named);
    FirstOccurrencesOrder(named);
  }
}
