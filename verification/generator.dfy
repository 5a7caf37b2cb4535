/**
 The occurrence generator of MDBatchEntry: from a frequency, the raw
 specifier text and the `[start, end]` window, the ordered list of dates on
 which the transaction is entered.

 The monthly family walks a cursor month by month and emits every listed
 day without looking at the window; the weekly family walks the Sundays
 from the week of `start` and emits only the requested weekdays that fall
 inside the window.
 */
module Generator {
  import opened Outcomes
  import opened Calendar
  import opened Seqs
  import opened Schedule
  import opened Specifiers

  predicate DaysInRange(days: seq<int>) {
    forall i :: 0 <= i < |days| ==> InMonthRange(days[i])
  }

  predicate Chronological(ds: seq<Date>) {
    forall i, j :: 0 <= i < j < |ds| ==> Before(ds[i], ds[j])
  }

  lemma {:induction false} ChronologicalConcat(a: seq<Date>, b: seq<Date>)
    requires Chronological(a) && Chronological(b)
    requires |a| > 0 ==> forall x :: x in b ==> Before(a[|a| - 1], x)
    ensures Chronological(a + b)
  {
    var ab := a + b;
    forall i, j | 0 <= i < j < |ab| ensures Before(ab[i], ab[j]) {
      if j >= |a| && i < |a| {
        assert ab[j] == b[j - |a|] && b[j - |a|] in b;
        assert ab[i] == a[i];
        assert i < |a| - 1 ==> Before(a[i], a[|a| - 1]);
      }
    }
  }

  // ---------------------------------------------------------------------------
  // Days of the month

  /**
   `d` is the day `dom` counted leniently from the first of its own month,
   or from the first of the month before (a day past that month's end).
   */
  predicate CountedFromMonthStart(d: Date, dom: int) {
    || DayNumber(d) == MonthStart(MonthIndex(d)) + dom - 1
    || DayNumber(d) == MonthStart(MonthIndex(d) - 1) + dom - 1
  }

  /**
   One pass of the inner monthly loop: set each listed day of the month in
   turn, every set acting on the calendar as the previous set left it.
   */
  function SetEachDay(c: Date, days: seq<int>): (r: seq<Date>)
    requires DaysInRange(days)
    ensures |r| == |days|
    ensures forall i :: 0 <= i < |r| ==> CountedFromMonthStart(r[i], days[i])
    ensures forall i :: 0 <= i < |r| ==> MonthIndex(c) <= MonthIndex(r[i]) <= MonthIndex(c) + 1
    ensures DaysInMonth(c.year, c.month) == 31 ==> forall i :: 0 <= i < |r| ==> MonthIndex(r[i]) == MonthIndex(c)
    ensures |days| > 0 && c.day < days[0] ==> Before(c, r[0])
    decreases |days|
  {
    if |days| == 0 then []
    else
      var e := SetDayOfMonth(c, days[0]);
      var rest := SetEachDay(e, days[1..]);
      SetEachDayCons(c, days, e, rest);
      [e] + rest
  }

  /** The first set day, put in front of the rest of the pass, keeps the pass's properties. */
  lemma SetEachDayCons(c: Date, days: seq<int>, e: Date, rest: seq<Date>)
    requires DaysInRange(days) && |days| > 0 && e == SetDayOfMonth(c, days[0])
    requires |rest| == |days| - 1
    requires forall i :: 0 <= i < |rest| ==> CountedFromMonthStart(rest[i], days[1..][i])
    requires forall i :: 0 <= i < |rest| ==> MonthIndex(e) <= MonthIndex(rest[i]) <= MonthIndex(e) + 1
    requires DaysInMonth(e.year, e.month) == 31 ==> forall i :: 0 <= i < |rest| ==> MonthIndex(rest[i]) == MonthIndex(e)
    ensures var r := [e] + rest;
      && (forall i :: 0 <= i < |r| ==> CountedFromMonthStart(r[i], days[i]))
      && (forall i :: 0 <= i < |r| ==> MonthIndex(c) <= MonthIndex(r[i]) <= MonthIndex(c) + 1)
      && (DaysInMonth(c.year, c.month) == 31 ==> forall i :: 0 <= i < |r| ==> MonthIndex(r[i]) == MonthIndex(c))
      && (c.day < days[0] ==> Before(c, r[0]))
  {
    DayNumberInMonth(c);
    LongMonthAfterRollOver(c, days[0]);
    var r := [e] + rest;
    forall i | 0 < i < |r| ensures r[i] == rest[i - 1] && days[i] == days[1..][i - 1] {
    }
  }

  /** Only a month shorter than 31 days rolls over, and the month after it has 31. */
  lemma LongMonthAfterRollOver(c: Date, dom: int)
    requires InMonthRange(dom)
    ensures var e := SetDayOfMonth(c, dom);
      && CountedFromMonthStart(e, dom)
      && (MonthIndex(e) == MonthIndex(c) + 1 ==> DaysInMonth(c.year, c.month) < 31 && DaysInMonth(e.year, e.month) == 31)
  {
    var e := SetDayOfMonth(c, dom);
    DayNumberInMonth(e);
    if MonthIndex(e) == MonthIndex(c) + 1 {
      assert e.month == c.month + 1;
    }
  }

  /** Some day among the first `n` listed lies past the end of `c`'s month. */
  predicate RollsOver(c: Date, days: seq<int>, n: int)
    requires 0 <= n <= |days|
  {
    exists j :: 0 <= j < n && days[j] > DaysInMonth(c.year, c.month)
  }

  /**
   The month the `n`-th set of a pass starting on `c` counts from: `c`'s
   own, or the next one once an earlier day has rolled over.
   */
  function CountingMonth(c: Date, days: seq<int>, n: int): int
    requires 0 <= n <= |days|
  {
    MonthIndex(c) + (if RollsOver(c, days, n) then 1 else 0)
  }

  /**
   The pass is chained: day `days[i]` is counted from the first of `c`'s
   month until some earlier day has rolled over, and from the first of the
   next month after that; the date then lies in `c`'s month unless this or
   an earlier day rolled over.
   */
  lemma SetEachDayChained(c: Date, days: seq<int>)
    requires DaysInRange(days)
    ensures var r := SetEachDay(c, days);
      forall i :: 0 <= i < |days| ==>
        && DayNumber(r[i]) == MonthStart(CountingMonth(c, days, i)) + days[i] - 1
        && MonthIndex(r[i]) == CountingMonth(c, days, i + 1)
  {
    forall i | 0 <= i < |days|
      ensures DayNumber(SetEachDay(c, days)[i]) == MonthStart(CountingMonth(c, days, i)) + days[i] - 1
      ensures MonthIndex(SetEachDay(c, days)[i]) == CountingMonth(c, days, i + 1)
    {
      SetEachDayAt(c, days, i);
    }
  }

  /** The chained pass, at one index. */
  lemma SetEachDayAt(c: Date, days: seq<int>, i: int)
    requires DaysInRange(days) && 0 <= i < |days|
    ensures DayNumber(SetEachDay(c, days)[i]) == MonthStart(CountingMonth(c, days, i)) + days[i] - 1
    ensures MonthIndex(SetEachDay(c, days)[i]) == CountingMonth(c, days, i + 1)
  {
    SetEachDayDayAt(c, days, i);
    SetEachDayMonthAt(c, days, i);
  }

  /** The `i`-th date of a pass is `days[i]` counted from the month the `i`-th set counts from. */
  lemma {:induction false} SetEachDayDayAt(c: Date, days: seq<int>, i: int)
    requires DaysInRange(days) && 0 <= i < |days|
    ensures DayNumber(SetEachDay(c, days)[i]) == MonthStart(CountingMonth(c, days, i)) + days[i] - 1
    decreases i
  {
    SetEachDayIndex(c, days);
    var e := SetDayOfMonth(c, days[0]);
    if i == 0 {
      assert !RollsOver(c, days, 0);
      assert CountingMonth(c, days, 0) == MonthIndex(c);
    } else {
      var x := SetEachDay(e, days[1..])[i - 1];
      var m := CountingMonth(e, days[1..], i - 1);
      SetEachDayDayAt(e, days[1..], i - 1);
      assert DayNumber(x) == MonthStart(m) + days[1..][i - 1] - 1;
      CountingMonthStep(c, days, i - 1);
      assert m == CountingMonth(c, days, i) && days[i] == days[1..][i - 1];
    }
  }

  /** The `i`-th date of a pass lies in the month the `i+1`-th set would count from. */
  lemma {:induction false} SetEachDayMonthAt(c: Date, days: seq<int>, i: int)
    requires DaysInRange(days) && 0 <= i < |days|
    ensures MonthIndex(SetEachDay(c, days)[i]) == CountingMonth(c, days, i + 1)
    decreases i
  {
    SetEachDayIndex(c, days);
    if i == 0 {
      CountingMonthFirst(c, days);
    } else {
      var e := SetDayOfMonth(c, days[0]);
      CountingMonthStep(c, days, i);
      SetEachDayMonthAt(e, days[1..], i - 1);
    }
  }

  /** A non-empty pass is the first set followed by the pass from it over the remaining days. */
  lemma SetEachDayUnfold(c: Date, days: seq<int>)
    requires DaysInRange(days) && |days| > 0
    ensures SetEachDay(c, days) == [SetDayOfMonth(c, days[0])] + SetEachDay(SetDayOfMonth(c, days[0]), days[1..])
  {
  }

  /** The `i`-th date of a pass is the first set for `i == 0` and otherwise the rest of the pass's `i-1`-th. */
  lemma SetEachDayIndex(c: Date, days: seq<int>)
    requires DaysInRange(days) && |days| > 0
    ensures var e := SetDayOfMonth(c, days[0]);
      && SetEachDay(c, days)[0] == e
      && forall i :: 0 < i < |days| ==> SetEachDay(c, days)[i] == SetEachDay(e, days[1..])[i - 1]
  {
    var e := SetDayOfMonth(c, days[0]);
    assert SetEachDay(c, days) == [e] + SetEachDay(e, days[1..]);
  }

  /** The first set lands in the month the second set counts from. */
  lemma CountingMonthFirst(c: Date, days: seq<int>)
    requires DaysInRange(days) && |days| > 0
    ensures MonthIndex(SetDayOfMonth(c, days[0])) == CountingMonth(c, days, 1)
  {
    var e := SetDayOfMonth(c, days[0]);
    if days[0] <= DaysInMonth(c.year, c.month) {
      assert e == Civil(c.year, c.month, days[0]);
      assert !RollsOver(c, days, 1);
    } else {
      assert MonthIndex(e) == MonthIndex(c) + 1;
      assert RollsOver(c, days, 1);
    }
  }

  /** After the first set, the rest of the pass counts from the month the whole pass would. */
  lemma CountingMonthStep(c: Date, days: seq<int>, k: int)
    requires DaysInRange(days) && 0 <= k < |days|
    ensures CountingMonth(SetDayOfMonth(c, days[0]), days[1..], k) == CountingMonth(c, days, k + 1)
  {
    var e := SetDayOfMonth(c, days[0]);
    var len := DaysInMonth(c.year, c.month);
    if days[0] <= len {
      assert e == Civil(c.year, c.month, days[0]);
      if RollsOver(c, days, k + 1) {
        var j :| 0 <= j < k + 1 && days[j] > len;
        assert days[1..][j - 1] == days[j];
      }
      if RollsOver(e, days[1..], k) {
        var j :| 0 <= j < k && days[1..][j] > len;
        assert days[j + 1] == days[1..][j];
      }
    } else {
      LongMonthAfterRollOver(c, days[0]);
      assert MonthIndex(e) == MonthIndex(c) + 1;
      assert RollsOver(c, days, k + 1);
      forall j | 0 <= j < k ensures days[1..][j] <= DaysInMonth(e.year, e.month) {
        assert InMonthRange(days[j + 1]);
      }
    }
  }

  /** The month the inner loop leaves the cursor in. */
  lemma LastSetMonth(c: Date, days: seq<int>)
    requires DaysInRange(days)
    ensures MonthIndex(LastSet(c, SetEachDay(c, days))) == CountingMonth(c, days, |days|)
  {
    if |days| > 0 {
      SetEachDayAt(c, days, |days| - 1);
    }
  }

  /** A date before the first of a chronological list is before all of it. */
  lemma BeforeAll(e: Date, ds: seq<Date>)
    requires Chronological(ds) && |ds| > 0 && Before(e, ds[0])
    ensures forall x :: x in ds ==> Before(e, x)
  {
    forall x | x in ds ensures Before(e, x) {
      var k :| 0 <= k < |ds| && ds[k] == x;
      if k > 0 {
        assert Before(ds[0], ds[k]);
      }
    }
  }

  /** Ascending days of the month are emitted in calendar order, roll-overs included. */
  lemma {:induction false} SetEachDayChronological(c: Date, days: seq<int>)
    requires DaysInRange(days) && StrictlyIncreasing(days)
    ensures Chronological(SetEachDay(c, days))
    decreases |days|
  {
    if |days| > 0 {
      var e := SetDayOfMonth(c, days[0]);
      var rest := SetEachDay(e, days[1..]);
      SetEachDayUnfold(c, days);
      assert StrictlyIncreasing(days[1..]);
      SetEachDayChronological(e, days[1..]);
      if |rest| > 0 {
        assert e.day <= days[0] < days[1..][0];
        assert Before(e, rest[0]);
        BeforeAll(e, rest);
      }
      ChronologicalConcat([e], rest);
    }
  }

  /** The cursor as the inner loop leaves it: the last day set, or `c` if none is. */
  function LastSet(c: Date, emitted: seq<Date>): Date {
    if |emitted| == 0 then c else emitted[|emitted| - 1]
  }

  /**
   The cursor of the next round: `step` months after the cursor's month, or
   one month more when some listed day lies past the end of that month; its
   day is the last day set, pinned to the length of the month it lands in.
   */
  function NextCursor(cursor: Date, days: seq<int>, step: int): (next: Date)
    requires DaysInRange(days)
    ensures MonthIndex(next) == MonthIndex(cursor) + step + (if RollsOver(cursor, days, |days|) then 1 else 0)
    ensures MonthIndex(cursor) + step <= MonthIndex(next) <= MonthIndex(cursor) + step + 1
    ensures next.day == Min(LastSet(cursor, SetEachDay(cursor, days)).day, DaysInMonth(next.year, next.month))
  {
    LastSetMonth(cursor, days);
    AddMonths(LastSet(cursor, SetEachDay(cursor, days)), step)
  }

  /**
   The monthly loop: while the cursor is before `end`, emit one round of
   listed days, then advance the cursor (left on the last day set) by `step`
   months.
   */
  function MonthlyRounds(cursor: Date, end: Date, days: seq<int>, step: int): (rounds: seq<seq<Date>>)
    requires step >= 1 && DaysInRange(days)
    ensures |rounds| > 0 <==> Before(cursor, end)
    ensures forall k :: 0 <= k < |rounds| ==> |rounds[k]| == |days|
    decreases MonthIndex(end) - MonthIndex(cursor)
  {
    if !Before(cursor, end) then []
    else
      BeforeMonth(cursor, end);
      var next := NextCursor(cursor, days, step);
      var rest := MonthlyRounds(next, end, days, step);
      assert forall k :: 0 < k <= |rest| ==> ([SetEachDay(cursor, days)] + rest)[k] == rest[k - 1];
      [SetEachDay(cursor, days)] + rest
  }

  /** A non-empty loop starts before `end` and continues from the next cursor. */
  lemma MonthlyRoundsUnfold(cursor: Date, end: Date, days: seq<int>, step: int)
    requires step >= 1 && DaysInRange(days) && Before(cursor, end)
    ensures var rest := MonthlyRounds(NextCursor(cursor, days, step), end, days, step);
      && MonthlyRounds(cursor, end, days, step) == [SetEachDay(cursor, days)] + rest
      && Flatten(MonthlyRounds(cursor, end, days, step)) == SetEachDay(cursor, days) + Flatten(rest)
      && MonthIndex(cursor) <= MonthIndex(end)
  {
    var rounds := MonthlyRounds(cursor, end, days, step);
    assert rounds[1..] == MonthlyRounds(NextCursor(cursor, days, step), end, days, step);
    BeforeMonth(cursor, end);
  }

  /** The cursors the monthly loop visits, one per round. */
  function MonthlyCursors(cursor: Date, end: Date, days: seq<int>, step: int): (cs: seq<Date>)
    requires step >= 1 && DaysInRange(days)
    ensures |cs| == |MonthlyRounds(cursor, end, days, step)|
    decreases MonthIndex(end) - MonthIndex(cursor)
  {
    if !Before(cursor, end) then []
    else
      MonthlyRoundsUnfold(cursor, end, days, step);
      [cursor] + MonthlyCursors(NextCursor(cursor, days, step), end, days, step)
  }

  /**
   The monthly loop as a walk: the cursors start at the first one, each is
   the next cursor of the one before, each is before `end`, the cursor after
   the last is not, and round `k` is the pass over the days from cursor `k`.
   */
  lemma {:induction false} MonthlyRoundsWalk(cursor: Date, end: Date, days: seq<int>, step: int)
    requires step >= 1 && DaysInRange(days)
    ensures var rounds, cs := MonthlyRounds(cursor, end, days, step), MonthlyCursors(cursor, end, days, step);
      && |cs| == |rounds|
      && (|cs| > 0 ==> cs[0] == cursor && !Before(NextCursor(cs[|cs| - 1], days, step), end))
      && (forall k :: 0 <= k < |cs| ==> Before(cs[k], end) && rounds[k] == SetEachDay(cs[k], days))
      && (forall k :: 0 < k < |cs| ==> cs[k] == NextCursor(cs[k - 1], days, step))
    decreases MonthIndex(end) - MonthIndex(cursor)
  {
    if Before(cursor, end) {
      var next := NextCursor(cursor, days, step);
      MonthlyRoundsUnfold(cursor, end, days, step);
      var rounds, cs := MonthlyRounds(cursor, end, days, step), MonthlyCursors(cursor, end, days, step);
      var rounds', cs' := MonthlyRounds(next, end, days, step), MonthlyCursors(next, end, days, step);
      assert cs == [cursor] + cs';
      assert rounds == [SetEachDay(cursor, days)] + rounds';
      MonthlyRoundsWalk(next, end, days, step);
      WalkConsRounds(cursor, cs', rounds', end, days);
      WalkConsCursors(cursor, cs', end, days, step);
    }
  }

  /** One more cursor and its pass in front of a walk's rounds keep each round the pass of its cursor. */
  lemma WalkConsRounds(cursor: Date, cs': seq<Date>, rounds': seq<seq<Date>>, end: Date, days: seq<int>)
    requires DaysInRange(days) && Before(cursor, end) && |cs'| == |rounds'|
    requires forall k :: 0 <= k < |cs'| ==> Before(cs'[k], end) && rounds'[k] == SetEachDay(cs'[k], days)
    ensures var rounds, cs := [SetEachDay(cursor, days)] + rounds', [cursor] + cs';
      forall k :: 0 <= k < |cs| ==> Before(cs[k], end) && rounds[k] == SetEachDay(cs[k], days)
  {
    var rounds, cs := [SetEachDay(cursor, days)] + rounds', [cursor] + cs';
    forall k | 0 <= k < |cs| ensures Before(cs[k], end) && rounds[k] == SetEachDay(cs[k], days) {
      if k > 0 {
        assert cs[k] == cs'[k - 1] && rounds[k] == rounds'[k - 1];
      }
    }
  }

  /** One more cursor in front of a walk from its next cursor keeps the cursors chained and the last one final. */
  lemma WalkConsCursors(cursor: Date, cs': seq<Date>, end: Date, days: seq<int>, step: int)
    requires DaysInRange(days)
    requires |cs'| > 0 ==> cs'[0] == NextCursor(cursor, days, step) && !Before(NextCursor(cs'[|cs'| - 1], days, step), end)
    requires |cs'| == 0 ==> !Before(NextCursor(cursor, days, step), end)
    requires forall k :: 0 < k < |cs'| ==> cs'[k] == NextCursor(cs'[k - 1], days, step)
    ensures var cs := [cursor] + cs';
      && !Before(NextCursor(cs[|cs| - 1], days, step), end)
      && (forall k :: 0 < k < |cs| ==> cs[k] == NextCursor(cs[k - 1], days, step))
  {
    var cs := [cursor] + cs';
    forall k | 0 < k < |cs| ensures cs[k] == NextCursor(cs[k - 1], days, step) {
      assert cs[k] == cs'[k - 1];
      if k > 1 {
        assert cs[k - 1] == cs'[k - 2];
      }
    }
    if |cs'| > 0 {
      assert cs[|cs| - 1] == cs'[|cs'| - 1];
    }
  }

  /**
   Every round is a chained pass from its cursor: its `i`-th date is
   `days[i]` counted from the first of the cursor's month, or of the month
   after once an earlier day of that round has rolled over.
   */
  lemma MonthlyRoundsChained(cursor: Date, end: Date, days: seq<int>, step: int)
    requires step >= 1 && DaysInRange(days)
    ensures var rounds, cs := MonthlyRounds(cursor, end, days, step), MonthlyCursors(cursor, end, days, step);
      forall k, i :: 0 <= k < |rounds| && 0 <= i < |days| ==>
        DayNumber(rounds[k][i]) == MonthStart(CountingMonth(cs[k], days, i)) + days[i] - 1
  {
    var rounds, cs := MonthlyRounds(cursor, end, days, step), MonthlyCursors(cursor, end, days, step);
    MonthlyRoundsWalk(cursor, end, days, step);
    forall k, i | 0 <= k < |rounds| && 0 <= i < |days|
      ensures DayNumber(rounds[k][i]) == MonthStart(CountingMonth(cs[k], days, i)) + days[i] - 1
    {
      SetEachDayChained(cs[k], days);
    }
  }

  /** The loop runs at most once per `step` months between the first cursor and `end`. */
  lemma {:induction false} MonthlyRoundsBound(cursor: Date, end: Date, days: seq<int>, step: int)
    requires step >= 1 && DaysInRange(days)
    ensures var n := |MonthlyRounds(cursor, end, days, step)|;
      n > 0 ==> (n - 1) * step <= MonthIndex(end) - MonthIndex(cursor)
    decreases MonthIndex(end) - MonthIndex(cursor)
  {
    if Before(cursor, end) {
      var next := NextCursor(cursor, days, step);
      MonthlyRoundsUnfold(cursor, end, days, step);
      MonthlyRoundsBound(next, end, days, step);
      RoundsArithmetic(|MonthlyRounds(next, end, days, step)|, step, MonthIndex(end), MonthIndex(next), MonthIndex(cursor));
    }
  }

  lemma RoundsArithmetic(m: int, step: int, e: int, n: int, c: int)
    requires m >= 0 && step >= 1 && c + step <= n && c <= e
    requires m > 0 ==> (m - 1) * step <= e - n
    ensures m * step <= e - c
  {
    if m > 0 {
      assert m * step == (m - 1) * step + step;
    }
  }

  /**
   No date is emitted before the first cursor's month, nor after the month
   following `end`'s: the dates are not clipped to the window otherwise.
   */
  lemma {:induction false} MonthlyRoundsSpan(cursor: Date, end: Date, days: seq<int>, step: int)
    requires step >= 1 && DaysInRange(days)
    ensures forall d :: d in Flatten(MonthlyRounds(cursor, end, days, step)) ==>
      MonthIndex(cursor) <= MonthIndex(d) <= MonthIndex(end) + 1
    decreases MonthIndex(end) - MonthIndex(cursor)
  {
    if Before(cursor, end) {
      var next := NextCursor(cursor, days, step);
      MonthlyRoundsUnfold(cursor, end, days, step);
      MonthlyRoundsSpan(next, end, days, step);
      var emitted := SetEachDay(cursor, days);
      forall d | d in emitted ensures MonthIndex(cursor) <= MonthIndex(d) <= MonthIndex(end) + 1 {
        var i :| 0 <= i < |emitted| && emitted[i] == d;
      }
    }
  }

  /** Ascending day lists give dates in calendar order across all rounds. */
  lemma {:induction false} MonthlyRoundsChronological(cursor: Date, end: Date, days: seq<int>, step: int)
    requires step >= 1 && DaysInRange(days) && StrictlyIncreasing(days)
    ensures Chronological(Flatten(MonthlyRounds(cursor, end, days, step)))
    decreases MonthIndex(end) - MonthIndex(cursor)
  {
    if Before(cursor, end) {
      var next := NextCursor(cursor, days, step);
      MonthlyRoundsUnfold(cursor, end, days, step);
      MonthlyRoundsChronological(next, end, days, step);
      MonthlyRoundsSpan(next, end, days, step);
      var emitted := SetEachDay(cursor, days);
      var later := Flatten(MonthlyRounds(next, end, days, step));
      SetEachDayChronological(cursor, days);
      forall x | x in later ensures |emitted| > 0 ==> Before(emitted[|emitted| - 1], x) {
        if |emitted| > 0 {
          MonthOrder(emitted[|emitted| - 1], x);
        }
      }
      ChronologicalConcat(emitted, later);
    }
  }

  /** The dates of the monthly family, starting the cursor at `start`. */
  function MonthlyOccurrences(start: Date, end: Date, days: seq<int>, step: int): seq<Date>
    requires step >= 1 && DaysInRange(days)
  {
    Flatten(MonthlyRounds(start, end, days, step))
  }

  /** Every monthly round emits one date per listed day, so the count is a multiple of the list length. */
  lemma MonthlyCount(start: Date, end: Date, days: seq<int>, step: int)
    requires step >= 1 && DaysInRange(days)
    ensures |MonthlyOccurrences(start, end, days, step)| == |days| * |MonthlyRounds(start, end, days, step)|
    ensures Before(start, end) ==> |MonthlyOccurrences(start, end, days, step)| >= |days|
  {
    var rounds := MonthlyRounds(start, end, days, step);
    FlattenLength(rounds, |days|);
  }

  // ---------------------------------------------------------------------------
  // Days of the week

  /** Days from the Sunday of a week to the given day of that week. */
  function DayOffset(w: Day): int {
    DayField(w) - 1
  }

  /** `!d.before(start) && !d.after(end)`. */
  predicate InWindow(d: Date, start: Date, end: Date) {
    !Before(d, start) && !Before(end, d)
  }

  /** The day `w` of the week beginning on Sunday `anchor`, and no other date, has both. */
  lemma DayOfAnchoredWeek(anchor: Date, w: Day)
    requires DayOfWeek(anchor) == 0
    ensures DayOfDate(AddDays(anchor, DayOffset(w))) == w
    ensures WeekStart(AddDays(anchor, DayOffset(w))) == DayNumber(anchor)
    ensures forall x: Date :: WeekStart(x) == DayNumber(anchor) && DayOfDate(x) == w ==> x == AddDays(anchor, DayOffset(w))
  {
    var d := AddDays(anchor, DayOffset(w));
    DayInWeek(anchor, DayOffset(w));
    DayFieldInjective(DayOfDate(d), w);
    forall x: Date | WeekStart(x) == DayNumber(anchor) && DayOfDate(x) == w ensures x == d {
      DayNumberInjective(x, d);
    }
  }

  /**
   The inner weekly loop: for each requested day in list order, the date
   of that day in the week of Sunday `anchor`, kept only inside the window.
   */
  function WeekRound(anchor: Date, start: Date, end: Date, days: seq<Day>): (r: seq<Date>)
    requires DayOfWeek(anchor) == 0
    ensures |r| <= |days|
    decreases |days|
  {
    if |days| == 0 then []
    else
      var d := AddDays(anchor, DayOffset(days[0]));
      (if InWindow(d, start, end) then [d] else []) + WeekRound(anchor, start, end, days[1..])
  }

  /** One week's round holds exactly the in-window dates of that week on a requested day. */
  lemma {:induction false} WeekRoundMembers(anchor: Date, start: Date, end: Date, days: seq<Day>)
    requires DayOfWeek(anchor) == 0
    ensures forall x :: x in WeekRound(anchor, start, end, days) <==>
      InWindow(x, start, end) && WeekStart(x) == DayNumber(anchor) && DayOfDate(x) in days
    decreases |days|
  {
    if |days| > 0 {
      var d := AddDays(anchor, DayOffset(days[0]));
      var head := if InWindow(d, start, end) then [d] else [];
      var rest := WeekRound(anchor, start, end, days[1..]);
      WeekRoundMembers(anchor, start, end, days[1..]);
      WeekRoundStep(anchor, start, end, days, head, rest);
    }
  }

  lemma WeekRoundStep(anchor: Date, start: Date, end: Date, days: seq<Day>, head: seq<Date>, rest: seq<Date>)
    requires DayOfWeek(anchor) == 0 && |days| > 0
    requires head == if InWindow(AddDays(anchor, DayOffset(days[0])), start, end) then [AddDays(anchor, DayOffset(days[0]))] else []
    requires forall x :: x in rest <==> InWindow(x, start, end) && WeekStart(x) == DayNumber(anchor) && DayOfDate(x) in days[1..]
    ensures forall x :: x in head + rest <==> InWindow(x, start, end) && WeekStart(x) == DayNumber(anchor) && DayOfDate(x) in days
  {
    DayOfAnchoredWeek(anchor, days[0]);
    assert days == [days[0]] + days[1..];
    forall x ensures x in head + rest <==> InWindow(x, start, end) && WeekStart(x) == DayNumber(anchor) && DayOfDate(x) in days {
      assert x in head + rest <==> x in head || x in rest;
      assert DayOfDate(x) in days <==> DayOfDate(x) == days[0] || DayOfDate(x) in days[1..];
    }
  }

  /** The weekday of each date. */
  function DaysOf(ds: seq<Date>): (ws: seq<Day>)
    ensures |ws| == |ds| && forall i :: 0 <= i < |ds| ==> ws[i] == DayOfDate(ds[i])
  {
    seq(|ds|, i requires 0 <= i < |ds| => DayOfDate(ds[i]))
  }

  lemma DaysOfConcat(a: seq<Date>, b: seq<Date>)
    ensures DaysOf(a + b) == DaysOf(a) + DaysOf(b)
  {
  }

  /** Every day of `ws` is listed in `days`, and they come in the order of that list. */
  predicate ListedInOrder(ws: seq<Day>, days: seq<Day>) {
    && (forall i :: 0 <= i < |ws| ==> ws[i] in days)
    && forall i, j :: 0 <= i < j < |ws| ==> IndexOf(days, ws[i]) < IndexOf(days, ws[j])
  }

  lemma ListedInOrderCons(days: seq<Day>, hs: seq<Day>, ts: seq<Day>)
    requires NoDuplicates(days) && |days| > 0 && |hs| <= 1
    requires forall k :: 0 <= k < |hs| ==> hs[k] == days[0]
    requires ListedInOrder(ts, days[1..])
    ensures ListedInOrder(hs + ts, days)
  {
    forall k | 0 <= k < |ts| ensures ts[k] in days && IndexOf(days, ts[k]) == 1 + IndexOf(days[1..], ts[k]) {
      TailIndexOf(days, ts[k]);
    }
    var all := hs + ts;
    forall i, j | 0 <= i < j < |all| ensures IndexOf(days, all[i]) < IndexOf(days, all[j]) {
      if i < |hs| {
        assert all[j] == ts[j - |hs|];
      } else {
        assert all[i] == ts[i - |hs|] && all[j] == ts[j - |hs|];
      }
    }
  }

  /** Within one week the dates come in the order their days are listed. */
  lemma {:induction false} WeekRoundOrder(anchor: Date, start: Date, end: Date, days: seq<Day>)
    requires DayOfWeek(anchor) == 0 && NoDuplicates(days)
    ensures ListedInOrder(DaysOf(WeekRound(anchor, start, end, days)), days)
    decreases |days|
  {
    if |days| > 0 {
      var d := AddDays(anchor, DayOffset(days[0]));
      var head := if InWindow(d, start, end) then [d] else [];
      var rest := WeekRound(anchor, start, end, days[1..]);
      assert WeekRound(anchor, start, end, days) == head + rest;
      assert NoDuplicates(days[1..]);
      WeekRoundOrder(anchor, start, end, days[1..]);
      var hs, ts := DaysOf(head), DaysOf(rest);
      DayOfAnchoredWeek(anchor, days[0]);
      DaysOfConcat(head, rest);
      ListedInOrderCons(days, hs, ts);
    }
  }

  /**
   The dates the weekly loop emits when its first Sunday has serial number
   `origin`: inside the window, on a requested weekday, in a week whose
   Sunday is `origin` plus a whole number of steps and is before `end`.
   */
  predicate WeeklyMatch(d: Date, origin: int, start: Date, end: Date, days: seq<Day>, step: int)
    requires step > 0
  {
    && InWindow(d, start, end)
    && DayOfDate(d) in days
    && ScheduledWeek(WeekStart(d), origin, DayNumber(end), step)
  }

  /** Sunday `w` is one the loop visits: `origin` plus a whole number of steps, and before `end`. */
  predicate ScheduledWeek(w: int, origin: int, end: int, step: int)
    requires step > 0
  {
    origin <= w < end && (w - origin) % step == 0
  }

  /** The visited Sundays are the first one and those visited from the next. */
  lemma ScheduledWeekStep(w: int, origin: int, end: int, step: int)
    requires step == 7 || step == 14
    requires origin < end
    ensures ScheduledWeek(w, origin, end, step) <==> w == origin || ScheduledWeek(w, origin + step, end, step)
  {
    StepModulo(w - origin, step);
  }

  /**
   Dates grouped week by week in increasing week order, and within one week
   in the order of `days`.
   */
  predicate WeekOrdered(ds: seq<Date>, days: seq<Day>) {
    forall i, j :: 0 <= i < j < |ds| ==>
      || WeekStart(ds[i]) < WeekStart(ds[j])
      || (&& WeekStart(ds[i]) == WeekStart(ds[j])
          && DayOfDate(ds[i]) in days && DayOfDate(ds[j]) in days
          && IndexOf(days, DayOfDate(ds[i])) < IndexOf(days, DayOfDate(ds[j])))
  }

  lemma StepModulo(x: int, step: int)
    requires step == 7 || step == 14
    ensures x % step == 0 && x > 0 ==> x >= step
    ensures (x - step) % step == 0 <==> x % step == 0
  {
  }

  /**
   The weekly loop: while the Sunday `anchor` is before `end`, emit one
   round for its week, then restore the anchor and advance it by `step` days.
   */
  function WeeklyRounds(anchor: Date, start: Date, end: Date, days: seq<Day>, step: int): (rounds: seq<seq<Date>>)
    requires step == 7 || step == 14
    requires DayOfWeek(anchor) == 0
    ensures |rounds| > 0 <==> Before(anchor, end)
    decreases DayNumber(end) - DayNumber(anchor)
  {
    if !Before(anchor, end) then []
    else
      SundayAfterWeeks(anchor, step);
      [WeekRound(anchor, start, end, days)] + WeeklyRounds(AddDays(anchor, step), start, end, days, step)
  }

  /** A non-empty weekly loop is this week's round followed by the loop from the Sunday `step` days on. */
  lemma WeeklyRoundsUnfold(anchor: Date, start: Date, end: Date, days: seq<Day>, step: int)
    requires step == 7 || step == 14
    requires DayOfWeek(anchor) == 0 && Before(anchor, end)
    ensures DayOfWeek(AddDays(anchor, step)) == 0
    ensures Flatten(WeeklyRounds(anchor, start, end, days, step)) ==
      WeekRound(anchor, start, end, days) + Flatten(WeeklyRounds(AddDays(anchor, step), start, end, days, step))
  {
    SundayAfterWeeks(anchor, step);
    var rounds := WeeklyRounds(anchor, start, end, days, step);
    assert rounds[1..] == WeeklyRounds(AddDays(anchor, step), start, end, days, step);
  }

  /** The weekly loop emits exactly the dates `WeeklyMatch` describes. */
  lemma {:induction false} WeeklyRoundsMembers(anchor: Date, start: Date, end: Date, days: seq<Day>, step: int)
    requires step == 7 || step == 14
    requires DayOfWeek(anchor) == 0
    ensures forall x :: x in Flatten(WeeklyRounds(anchor, start, end, days, step)) <==>
      WeeklyMatch(x, DayNumber(anchor), start, end, days, step)
    decreases DayNumber(end) - DayNumber(anchor)
  {
    if Before(anchor, end) {
      var o := DayNumber(anchor);
      var next := AddDays(anchor, step);
      WeeklyRoundsUnfold(anchor, start, end, days, step);
      WeeklyRoundsMembers(next, start, end, days, step);
      WeekRoundMembers(anchor, start, end, days);
      var round := WeekRound(anchor, start, end, days);
      var later := Flatten(WeeklyRounds(next, start, end, days, step));
      forall x ensures x in round + later <==> WeeklyMatch(x, o, start, end, days, step) {
        assert x in round + later <==> x in round || x in later;
        ScheduledWeekStep(WeekStart(x), o, DayNumber(end), step);
      }
    }
  }

  /** The weekly loop emits week by week, each week in the order the days are listed. */
  lemma {:induction false} WeeklyRoundsOrder(anchor: Date, start: Date, end: Date, days: seq<Day>, step: int)
    requires step == 7 || step == 14
    requires DayOfWeek(anchor) == 0 && NoDuplicates(days)
    ensures WeekOrdered(Flatten(WeeklyRounds(anchor, start, end, days, step)), days)
    decreases DayNumber(end) - DayNumber(anchor)
  {
    if Before(anchor, end) {
      var next := AddDays(anchor, step);
      WeeklyRoundsUnfold(anchor, start, end, days, step);
      WeeklyRoundsOrder(next, start, end, days, step);
      WeeklyRoundsMembers(next, start, end, days, step);
      WeekRoundMembers(anchor, start, end, days);
      WeekRoundOrder(anchor, start, end, days);
      WeekOrderedConcat(WeekRound(anchor, start, end, days), Flatten(WeeklyRounds(next, start, end, days, step)), days, DayNumber(anchor));
    }
  }

  lemma WeekOrderedConcat(a: seq<Date>, b: seq<Date>, days: seq<Day>, o: int)
    requires forall x :: x in a ==> WeekStart(x) == o
    requires forall x :: x in b ==> WeekStart(x) > o
    requires ListedInOrder(DaysOf(a), days) && WeekOrdered(b, days)
    ensures WeekOrdered(a + b, days)
  {
    var ab := a + b;
    forall i, j | 0 <= i < j < |ab|
      ensures || WeekStart(ab[i]) < WeekStart(ab[j])
              || (&& WeekStart(ab[i]) == WeekStart(ab[j])
                  && DayOfDate(ab[i]) in days && DayOfDate(ab[j]) in days
                  && IndexOf(days, DayOfDate(ab[i])) < IndexOf(days, DayOfDate(ab[j])))
    {
      if j < |a| {
        assert ab[i] == a[i] && ab[j] == a[j];
        assert a[i] in a && a[j] in a;
        assert DaysOf(a)[i] == DayOfDate(a[i]) && DaysOf(a)[j] == DayOfDate(a[j]);
      } else if i < |a| {
        assert ab[i] == a[i] && a[i] in a;
        assert ab[j] == b[j - |a|] && b[j - |a|] in b;
      } else {
        assert ab[i] == b[i - |a|] && ab[j] == b[j - |a|];
      }
    }
  }

  /** The dates of the weekly family, anchored on the Sunday of `start`'s week. */
  function WeeklyOccurrences(start: Date, end: Date, days: seq<Day>, step: int): seq<Date>
    requires step == 7 || step == 14
  {
    Flatten(WeeklyRounds(SundayOf(start), start, end, days, step))
  }

  /** Week-ordered dates of distinct weekdays never repeat a date. */
  lemma WeekOrderedDistinct(ds: seq<Date>, days: seq<Day>)
    requires WeekOrdered(ds, days)
    ensures NoDuplicates(ds)
  {
  }

  /** When the requested days are listed Sunday-to-Saturday, the weekly dates are in calendar order. */
  lemma WeekOrderedChronological(ds: seq<Date>, days: seq<Day>)
    requires WeekOrdered(ds, days)
    requires forall i, j :: 0 <= i < j < |days| ==> DayField(days[i]) < DayField(days[j])
    ensures Chronological(ds)
  {
    forall i, j | 0 <= i < j < |ds| ensures Before(ds[i], ds[j]) {
      WeekOrderedPair(ds[i], ds[j], days);
    }
  }

  lemma WeekOrderedPair(a: Date, b: Date, days: seq<Day>)
    requires forall i, j :: 0 <= i < j < |days| ==> DayField(days[i]) < DayField(days[j])
    requires || WeekStart(a) < WeekStart(b)
             || (&& WeekStart(a) == WeekStart(b)
                 && DayOfDate(a) in days && DayOfDate(b) in days
                 && IndexOf(days, DayOfDate(a)) < IndexOf(days, DayOfDate(b)))
    ensures Before(a, b)
  {
    var wa, wb := WeekStart(a), WeekStart(b);
    var na, nb := DayNumber(a), DayNumber(b);
    WeekAlign(na);
    WeekAlign(nb);
    if wa < wb {
      AlignedGap(wa, wb);
    } else {
      var ka, kb := IndexOf(days, DayOfDate(a)), IndexOf(days, DayOfDate(b));
      assert DayField(days[ka]) < DayField(days[kb]);
    }
  }

  /** The Sunday before serial day `n` is one less than a multiple of 7, at most 6 days back. */
  lemma WeekAlign(n: int)
    ensures (n - (n + 1) % 7 + 1) % 7 == 0
    ensures 0 <= (n + 1) % 7 <= 6
  {
    var q := (n + 1) / 7;
    assert n + 1 == 7 * q + (n + 1) % 7;
    assert n - (n + 1) % 7 + 1 == 7 * q;
  }

  lemma AlignedGap(x: int, y: int)
    requires (x + 1) % 7 == 0 && (y + 1) % 7 == 0 && x < y
    ensures x + 7 <= y
  {
    var p, q := (x + 1) / 7, (y + 1) / 7;
    assert x + 1 == 7 * p && y + 1 == 7 * q;
  }

  // ---------------------------------------------------------------------------
  // The whole generator

  /**
   The occurrence list of one run, or the exception that aborts it. The
   fixed date of `Anual` comes from `parseDate`, which stands for the
   locale's `DateFormat`.
   */
  function Occurrences(f: Frequency, spec: string, start: Date, end: Date, parseDate: string -> Option<Date>)
    : (r: Result<seq<Date>, SpecifierError>)
    ensures SpecifierOf(f) == None ==> r == Success([])
    ensures SpecifierOf(f) == Some(DateSpecifier) ==>
      && (r.Success? <==> parseDate(spec).Some?)
      && (r.Success? ==> r.value == [parseDate(spec).value])
    ensures SpecifierOf(f) == Some(DaysOfTheMonth) ==> MonthlyOutcome(r, spec, start, end, MonthStepOf(f))
    ensures SpecifierOf(f) == Some(DaysOfTheWeek) ==> WeeklyOutcome(r, spec, start, end, DayStepOf(f))
  {
    match SpecifierOf(f)
    case None => Success([])
    case Some(DateSpecifier) =>
      (match parseDate(spec)
       case Some(d) => Success([d])
       case None => Failure(UnparseableDate(spec)))
    case Some(DaysOfTheMonth) => MonthlyDates(spec, start, end, MonthStepOf(f))
    case Some(DaysOfTheWeek) => WeeklyDates(spec, start, end, DayStepOf(f))
  }

  /**
   What the days-of-the-month branch promises: it fails exactly when the
   specifier parser fails, with the parser's exception; otherwise it gives
   one date per listed day per round of the monthly loop, in calendar order,
   from `start`'s month to the month after `end`'s.
   */
  ghost predicate MonthlyOutcome(r: Result<seq<Date>, SpecifierError>, spec: string, start: Date, end: Date, step: int)
    requires step >= 1
  {
    && (r.Success? <==> ParseMonthDays(spec).Success?)
    && (r.Failure? ==> r.error == ParseMonthDays(spec).error)
    && (r.Success? ==>
      var days := ParseMonthDays(spec).value;
      && |r.value| == |days| * |MonthlyRounds(start, end, days, step)|
      && Chronological(r.value)
      && forall d :: d in r.value ==> MonthIndex(start) <= MonthIndex(d) <= MonthIndex(end) + 1)
  }

  /**
   What the days-of-the-week branch promises: it fails exactly when the
   specifier parser fails, with the parser's exception; otherwise it gives
   exactly the matching dates, week-ordered and without repeats.
   */
  ghost predicate WeeklyOutcome(r: Result<seq<Date>, SpecifierError>, spec: string, start: Date, end: Date, step: int)
    requires step > 0
  {
    && (r.Success? <==> ParseWeekdays(spec).Success?)
    && (r.Failure? ==> r.error == ParseWeekdays(spec).error)
    && (r.Success? ==>
      var days := ParseWeekdays(spec).value;
      && (forall d :: d in r.value <==> WeeklyMatch(d, WeekStart(start), start, end, days, step))
      && WeekOrdered(r.value, days)
      && NoDuplicates(r.value))
  }

  /** The days-of-the-month branch: parse the specifier, then run the monthly loop. */
  function MonthlyDates(spec: string, start: Date, end: Date, step: int): (r: Result<seq<Date>, SpecifierError>)
    requires step >= 1
    ensures MonthlyOutcome(r, spec, start, end, step)
  {
    var days :- ParseMonthDays(spec);
    MonthlyFacts(start, end, days, step);
    Success(MonthlyOccurrences(start, end, days, step))
  }

  /** The days-of-the-week branch: parse the specifier, then run the weekly loop. */
  function WeeklyDates(spec: string, start: Date, end: Date, step: int): (r: Result<seq<Date>, SpecifierError>)
    requires step == 7 || step == 14
    ensures WeeklyOutcome(r, spec, start, end, step)
  {
    var days :- ParseWeekdays(spec);
    ParsedWeekdays(spec);
    WeeklyFacts(start, end, days, step);
    Success(WeeklyOccurrences(start, end, days, step))
  }

  /** The monthly family's dates: one per listed day per round, in calendar order, within the months of the window. */
  lemma MonthlyFacts(start: Date, end: Date, days: seq<int>, step: int)
    requires step >= 1 && DaysInRange(days) && StrictlyIncreasing(days)
    ensures var r := MonthlyOccurrences(start, end, days, step);
      && |r| == |days| * |MonthlyRounds(start, end, days, step)|
      && Chronological(r)
      && forall d :: d in r ==> MonthIndex(start) <= MonthIndex(d) <= MonthIndex(end) + 1
  {
    MonthlyCount(start, end, days, step);
    MonthlyRoundsChronological(start, end, days, step);
    MonthlyRoundsSpan(start, end, days, step);
  }

  /** The weekly family's dates: exactly the matching dates, week by week, without repeats. */
  lemma WeeklyFacts(start: Date, end: Date, days: seq<Day>, step: int)
    requires (step == 7 || step == 14) && NoDuplicates(days)
    ensures var r := WeeklyOccurrences(start, end, days, step);
      && (forall d :: d in r <==> WeeklyMatch(d, WeekStart(start), start, end, days, step))
      && WeekOrdered(r, days)
      && NoDuplicates(r)
  {
    var anchor := SundayOf(start);
    WeeklyRoundsMembers(anchor, start, end, days, step);
    WeeklyRoundsOrder(anchor, start, end, days, step);
    WeekOrderedDistinct(WeeklyOccurrences(start, end, days, step), days);
  }

  /** A days-of-the-month frequency yields the monthly loop's dates once the specifier parses. */
  lemma MonthlyRun(f: Frequency, spec: string, start: Date, end: Date, parseDate: string -> Option<Date>,
                   days: seq<int>, dates: seq<Date>)
    requires SpecifierOf(f) == Some(DaysOfTheMonth) && ParseMonthDays(spec) == Success(days)
    requires DaysInRange(days) && MonthlyOccurrences(start, end, days, MonthStepOf(f)) == dates
    ensures Occurrences(f, spec, start, end, parseDate) == Success(dates)
  {
  }

  /** A days-of-the-week frequency yields the weekly loop's dates once the specifier parses. */
  lemma WeeklyRun(f: Frequency, spec: string, start: Date, end: Date, parseDate: string -> Option<Date>,
                  days: seq<Day>, dates: seq<Date>)
    requires SpecifierOf(f) == Some(DaysOfTheWeek) && ParseWeekdays(spec) == Success(days)
    requires WeeklyOccurrences(start, end, days, DayStepOf(f)) == dates
    ensures Occurrences(f, spec, start, end, parseDate) == Success(dates)
  {
  }

  /** How a run ends: with exit status 1 after a parse error, or by writing one row per date. */
  datatype RunOutcome = Exit(status: int) | Rows(dates: seq<Date>)

  /** The generation step of `main` together with its `catch`. */
  function Run(f: Frequency, spec: string, start: Date, end: Date, parseDate: string -> Option<Date>): (o: RunOutcome)
    ensures o.Exit? ==> o.status == 1
    ensures o.Exit? <==> Occurrences(f, spec, start, end, parseDate).Failure?
    ensures o.Rows? ==> o.dates == Occurrences(f, spec, start, end, parseDate).value
  {
    match Occurrences(f, spec, start, end, parseDate)
    case Success(ds) => Rows(ds)
    case Failure(_) => Exit(1)
  }

  /**
   What a run writes, family by family: nothing for `Daily`; the parsed date
   for `Anual`; the monthly loop's or the weekly loop's dates once the
   specifier parses; and exit status 1 whenever parsing fails.
   */
  lemma RunByFamily(f: Frequency, spec: string, start: Date, end: Date, parseDate: string -> Option<Date>)
    ensures SpecifierOf(f) == None ==> Run(f, spec, start, end, parseDate) == Rows([])
    ensures SpecifierOf(f) == Some(DateSpecifier) ==>
      Run(f, spec, start, end, parseDate) == if parseDate(spec).Some? then Rows([parseDate(spec).value]) else Exit(1)
    ensures SpecifierOf(f) == Some(DaysOfTheMonth) ==>
      Run(f, spec, start, end, parseDate) ==
        if ParseMonthDays(spec).Success?
        then Rows(MonthlyOccurrences(start, end, ParseMonthDays(spec).value, MonthStepOf(f)))
        else Exit(1)
    ensures SpecifierOf(f) == Some(DaysOfTheWeek) ==>
      Run(f, spec, start, end, parseDate) ==
        if ParseWeekdays(spec).Success?
        then Rows(WeeklyOccurrences(start, end, ParseWeekdays(spec).value, DayStepOf(f)))
        else Exit(1)
  {
    if SpecifierOf(f) == Some(DaysOfTheMonth) && ParseMonthDays(spec).Success? {
      MonthlyRun(f, spec, start, end, parseDate, ParseMonthDays(spec).value,
                 MonthlyOccurrences(start, end, ParseMonthDays(spec).value, MonthStepOf(f)));
    }
    if SpecifierOf(f) == Some(DaysOfTheWeek) && ParseWeekdays(spec).Success? {
      WeeklyRun(f, spec, start, end, parseDate, ParseWeekdays(spec).value,
                WeeklyOccurrences(start, end, ParseWeekdays(spec).value, DayStepOf(f)));
    }
  }
}
