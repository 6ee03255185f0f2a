/** What the 1460-day window of the search does to dispatch: entries that never fire, and entries that stop firing. */
module FiringWindow {
  import opened Common
  import opened Text
  import opened Calendar
  import opened Cron
  import opened Scheduler

  // ---------------------------------------------------------------------------------------------
  // When an entry can fire at all

  /** Without a next match the last run stays what it is, whatever ticks come. */
  lemma {:induction false} NeverRuns(next: int -> Option<int>, first: int, ticks: seq<int>)
    requires next(first).None?
    ensures LastAfter(next, first, ticks) == first
  {
    if ticks != [] {
      NeverRuns(next, first, ticks[..|ticks| - 1]);
    }
  }

  /** Some ticks make an entry fire whose last run was at `first`. */
  ghost predicate CanFire(next: int -> Option<int>, first: int) {
    exists ticks: seq<int>, k: nat :: Nondecreasing(ticks) && k < |ticks| && FiresAt(next, first, ticks, k)
  }

  lemma CanFireIffNext(next: int -> Option<int>, first: int)
    ensures CanFire(next, first) <==> next(first).Some?
  {
    if next(first).Some? {
      var ticks := [next(first).value * MINUTE];
      assert ticks[..0] == [];
      assert FiresAt(next, first, ticks, 0);
    } else {
      forall ticks: seq<int>, k: nat | k < |ticks| ensures !FiresAt(next, first, ticks, k) {
        NeverRuns(next, first, ticks[..k]);
      }
    }
  }

  /**
   * An entry that last ran at `first` can ever fire again exactly when its schedule has a match in the 1460 days after
   * that. An entry that never ran counts from the zero time, 1 January of year 1.
   */
  lemma CanFireIff(c: Schedule, first: int)
    ensures CanFire(Search(c), first) <==>
            exists minute :: first < minute * MINUTE < first + WINDOW && Matches(c, minute)
  {
    var next := Search(c);
    CanFireIffNext(next, first);
    SearchIsLeast(c, next, first);
    if next(first).Some? {
      assert first < next(first).value * MINUTE < first + WINDOW && Matches(c, next(first).value);
    }
  }

  // ---------------------------------------------------------------------------------------------
  // Expressions of plain numbers and stars

  predicate IsWordOf(s: string) {
    s != "" && forall i | 0 <= i < |s| :: !IsSpace(s[i])
  }

  lemma {:induction false} WordLengthOf(word: string, rest: string)
    requires (forall i | 0 <= i < |word| :: !IsSpace(word[i])) && (rest == "" || rest[0] == ' ')
    ensures WordLength(word + rest) == |word|
  {
    if word == "" {
      assert word + rest == rest;
    } else {
      WordLengthOf(word[1..], rest);
      assert (word + rest)[1..] == word[1..] + rest;
    }
  }

  lemma FirstField(word: string, rest: string)
    requires IsWordOf(word) && (rest == "" || rest[0] == ' ')
    ensures Fields(word + rest) == [word] + Fields(rest)
  {
    var s := word + rest;
    WordLengthOf(word, rest);
    assert s[..|word|] == word && s[|word|..] == rest;
  }

  /** Words joined by single spaces are split into those words. */
  lemma {:induction false} FieldsOfJoin(words: seq<string>)
    requires forall i | 0 <= i < |words| :: IsWordOf(words[i])
    ensures Fields(Join(words, " ")) == words
  {
    if |words| == 1 {
      FirstField(words[0], "");
      assert words[0] + "" == words[0];
    } else if |words| > 1 {
      var tail := Join(words[1..], " ");
      FieldsOfJoin(words[1..]);
      FirstField(words[0], " " + tail);
      SpaceBefore(tail);
      assert words[0] + (" " + tail) == words[0] + " " + tail;
    }
  }

  lemma SpaceBefore(s: string)
    ensures Fields(" " + s) == Fields(s)
  {
    assert (" " + s)[1..] == s;
  }

  /** The field is one part: no comma and nothing to trim. */
  lemma OnePart(field: string)
    requires IsWordOf(field) && ',' !in field
    ensures Parts(field) == [field]
  {
    assert IndexOf(field, ',') == |field|;
    assert Split(field, ',') == [field];
  }

  lemma NumberField(field: string, n: int, min: int, max: int)
    requires IsWordOf(field) && ',' !in field && '-' !in field && '*' !in field && ParseInt(field) == Some(n)
    requires min <= n <= max
    ensures FieldValid(field, min, max) && forall v :: FieldAllows(field, min, max, v) <==> v == n
  {
    OnePart(field);
    assert PartValid(Parts(field)[0], min, max);
    assert field != "*" && !IsStep(field);
    forall v ensures FieldAllows(field, min, max, v) <==> v == n {
      assert PartAllows(Parts(field)[0], min, max, v) <==> v == n;
    }
  }

  lemma StarField(min: int, max: int)
    ensures FieldValid("*", min, max) && forall v :: FieldAllows("*", min, max, v)
  {
    OnePart("*");
    forall v ensures FieldAllows("*", min, max, v) {
      assert PartAllows(Parts("*")[0], min, max, v);
    }
  }

  lemma OneDigit(s: string, n: int)
    requires |s| == 1 && IsDigit(s[0]) && n == (s[0] - '0') as int
    ensures ParseInt(s) == Some(n) && IsWordOf(s) && ',' !in s && '-' !in s && '*' !in s
  {
    assert s[..0] == "";
    assert Value(s) == 10 * Value(s[..0]) + n;
  }

  lemma TwentyNine()
    ensures ParseInt("29") == Some(29) && IsWordOf("29") && ',' !in "29" && '-' !in "29" && '*' !in "29"
  {
    OneDigit("2", 2);
    assert "29"[..1] == "2";
    assert Value("29") == 10 * Value("2") + 9;
  }

  /** Midnight on a 29 February. */
  predicate IsLeapMidnight(t: int) {
    var date := DateOf(Day(t));
    Minute(t) == 0 && Hour(t) == 0 && date.month == 2 && date.day == 29
  }

  /** The expression asks for midnight on 29 February, and for the weekdays its last field allows. */
  lemma LeapExpression(expr: string, dow: string, t: int)
    requires IsWordOf(dow) && FieldValid(dow, 0, 6)
    requires expr == Join(["0", "0", "29", "2", dow], " ")
    ensures ExprValid(expr)
    ensures ExprMatches(expr, t) <==> IsLeapMidnight(t) && FieldAllows(dow, 0, 6, Weekday(Day(t)))
  {
    OneDigit("0", 0);
    OneDigit("2", 2);
    TwentyNine();
    FieldsOfJoin(["0", "0", "29", "2", dow]);
    NumberField("0", 0, 0, 59);
    NumberField("0", 0, 0, 23);
    NumberField("29", 29, 1, 31);
    NumberField("2", 2, 1, 12);
  }

  /** `0 0 29 2 1`: only when that day is a Monday. */
  const LEAP_MONDAY := "0 0 29 2 1"

  /** `0 0 29 2 *`: every 29 February. */
  const LEAP_DAY := "0 0 29 2 *"

  lemma LeapText(dow: string)
    ensures Join(["0", "0", "29", "2", dow], " ") == "0 0 29 2 " + dow
  {
    assert ["2", dow][1..] == [dow] && ["29", "2", dow][1..] == ["2", dow];
    assert ["0", "29", "2", dow][1..] == ["29", "2", dow];
    assert ["0", "0", "29", "2", dow][1..] == ["0", "29", "2", dow];
    assert Join(["2", dow], " ") == "2 " + dow;
    assert Join(["29", "2", dow], " ") == "29 2 " + dow;
    assert Join(["0", "29", "2", dow], " ") == "0 29 2 " + dow;
  }

  lemma LeapMondayMeans(t: int)
    ensures ExprValid(LEAP_MONDAY) && (ExprMatches(LEAP_MONDAY, t) <==> IsLeapMidnight(t) && Weekday(Day(t)) == 1)
  {
    OneDigit("1", 1);
    NumberField("1", 1, 0, 6);
    LeapText("1");
    LeapExpression(LEAP_MONDAY, "1", t);
  }

  lemma LeapDayMeans(t: int)
    ensures ExprValid(LEAP_DAY) && (ExprMatches(LEAP_DAY, t) <==> IsLeapMidnight(t))
  {
    StarField(0, 6);
    LeapText("*");
    LeapExpression(LEAP_DAY, "*", t);
  }

  // ---------------------------------------------------------------------------------------------
  // 29 February on a Monday: never

  lemma EarlyYear(day: int, d: Date)
    requires 0 <= day < 1460 && Valid(d) && DayNumber(d) == day
    ensures 1 <= d.year <= 4
  {
    DayInYear(d);
    var y := d.year;
    if y >= 5 {
      YearStartClosedForm(5);
      YearsIncrease(5, y);
    } else if y <= 0 {
      YearStartClosedForm(1);
      YearsIncrease(y + 1, 1);
    }
  }

  lemma FirstLeapDay(d: Date)
    requires Valid(d) && 1 <= d.year <= 4 && d.month == 2 && d.day == 29
    ensures DayNumber(d) == 1154
  {
    assert Leap(d.year);
    assert d.year == 4;
    YearStartClosedForm(4);
    assert MonthStart(4, 2) == MonthStart(4, 1) + 31;
  }

  /** The only 29 February of the first window was a Sunday. */
  lemma EarlyLeapDaysAreSundays(day: int, d: Date)
    requires 0 <= day < 1460 && d == DateOf(day) && d.month == 2 && d.day == 29
    ensures Weekday(day) == 0
  {
    EarlyYear(day, d);
    FirstLeapDay(d);
  }

  lemma NoEarlyLeapMonday(c: Schedule, minute: int, day: int, d: Date)
    requires Scheduler.Means(LEAP_MONDAY, c) && 0 < minute * MINUTE < WINDOW && day == Day(minute) && d == DateOf(day)
    ensures !Matches(c, minute)
  {
    LeapMondayMeans(minute);
    if d.month == 2 && d.day == 29 {
      EarlyLeapDaysAreSundays(day, d);
    }
  }

  lemma LeapDay2016()
    ensures Valid(Date(2016, 2, 29)) && DayNumber(Date(2016, 2, 29)) == 736022
  {
    YearStartClosedForm(2016);
    assert MonthStart(2016, 2) == MonthStart(2016, 1) + 31;
  }

  lemma Midnight(day: int)
    ensures Day(day * 1440) == day && Hour(day * 1440) == 0 && Minute(day * 1440) == 0
  {
    assert day * 1440 / 60 == day * 24;
  }

  lemma LeapDate(day: int, d: Date)
    requires Valid(d) && DayNumber(d) == day
    ensures DateOf(day) == d
  {
    DateUnique(d, DateOf(day));
  }

  lemma LeapMidnightOf(day: int, d: Date)
    requires Valid(d) && DayNumber(d) == day && d.month == 2 && d.day == 29
    ensures IsLeapMidnight(day * 1440) && Day(day * 1440) == day
  {
    Midnight(day);
    LeapDate(day, d);
  }

  lemma SomeLeapMonday(c: Schedule)
    requires Scheduler.Means(LEAP_MONDAY, c)
    ensures exists minute :: Matches(c, minute)
  {
    LeapDay2016();
    LeapMondayMidnight(c, 736022, Date(2016, 2, 29));
  }

  lemma LeapMondayMidnight(c: Schedule, day: int, d: Date)
    requires Scheduler.Means(LEAP_MONDAY, c)
    requires Valid(d) && DayNumber(d) == day && d.month == 2 && d.day == 29 && Weekday(day) == 1
    ensures Matches(c, day * 1440)
  {
    LeapMidnightOf(day, d);
    LeapMondayMeans(day * 1440);
  }

  /** A valid expression that matches 29 February 2016 and yet never fires: in year 4 that day was a Sunday. */
  lemma LeapMondayNeverFires(c: Schedule)
    requires Scheduler.Means(LEAP_MONDAY, c)
    ensures !CanFire(Search(c), 0) && exists minute :: Matches(c, minute)
  {
    CanFireIff(c, 0);
    forall minute | 0 < minute * MINUTE < WINDOW ensures !Matches(c, minute) {
      NoEarlyLeapMonday(c, minute, Day(minute), DateOf(Day(minute)));
    }
    SomeLeapMonday(c);
  }

  // ---------------------------------------------------------------------------------------------
  // Every 29 February: never again after a firing on the day itself

  const DAY := 1440 * MINUTE

  lemma LeapDaysApart(x: Date, y: Date)
    requires Valid(x) && Valid(y) && x.month == y.month == 2 && x.day == y.day == 29
    requires DayNumber(x) < DayNumber(y)
    ensures DayNumber(x) + 1461 <= DayNumber(y)
  {
    assert Leap(x.year) && Leap(y.year);
    DayInYear(x);
    DayInYear(y);
    if y.year < x.year {
      YearsIncrease(y.year + 1, x.year);
    } else if y.year > x.year {
      YearStep(x.year);
      YearsIncrease(x.year + 1, y.year);
      assert MonthStart(x.year, 2) == 31 && MonthStart(y.year, 2) == 31;
    }
  }

  lemma AtMidnight(t: int)
    requires Hour(t) == 0 && Minute(t) == 0
    ensures t == Day(t) * 1440
  {
    assert t / 1440 == t / 60 / 24;
  }

  lemma NoLeapMidnightInReach(last: int, day: int, t: int, x: Date, y: Date)
    requires day * DAY <= last < (day + 1) * DAY && x == DateOf(day) && x.month == 2 && x.day == 29
    requires IsLeapMidnight(t) && y == DateOf(Day(t)) && last < t * MINUTE
    ensures last + WINDOW <= t * MINUTE
  {
    AtMidnight(t);
    assert t * MINUTE == Day(t) * DAY;
    LeapDaysApart(x, y);
  }

  /** An entry for every 29 February that fires on such a day has no next match and never fires again. */
  lemma LeapDayFiresNoMore(c: Schedule, last: int, day: int, ticks: seq<int>)
    requires Scheduler.Means(LEAP_DAY, c) && day * DAY <= last < (day + 1) * DAY
    requires DateOf(day).month == 2 && DateOf(day).day == 29
    ensures !CanFire(Search(c), last) && LastAfter(Search(c), last, ticks) == last
  {
    CanFireIff(c, last);
    forall t | last < t * MINUTE < last + WINDOW ensures !Matches(c, t) {
      LeapDayMeans(t);
      if IsLeapMidnight(t) {
        NoLeapMidnightInReach(last, day, t, DateOf(day), DateOf(Day(t)));
      }
    }
    CanFireIffNext(Search(c), last);
    NeverRuns(Search(c), last, ticks);
  }
}
