/** The cron engine: the five-field parser and the skip-ahead search for the next matching minute. */
module Cron {
  import opened Common
  import opened Text
  import opened Calendar

  // ---------------------------------------------------------------------------------------------
  // What a field means

  /** `x` is 0, `n`, `2n` and so on. */
  predicate Multiple(x: int, n: int)
    requires n > 0
    decreases x
  {
    if x < n then x == 0 else Multiple(x - n, n)
  }

  predicate IsStep(part: string) {
    |part| >= 2 && part[0] == '*' && part[1] == '/'
  }

  function Lower(part: string): (n: Option<int>)
    requires '-' in part
  {
    ParseInt(part[..IndexOf(part, '-')])
  }

  function Upper(part: string): (n: Option<int>)
    requires '-' in part
  {
    ParseInt(part[IndexOf(part, '-') + 1..])
  }

  /** The parts the parser accepts, for values from `min` to `max`. */
  predicate PartValid(part: string, min: int, max: int) {
    if part == "*" then true
    else if IsStep(part) then ParseInt(part[2..]).Some? && ParseInt(part[2..]).value > 0
    else if '-' in part then
      Lower(part).Some? && Upper(part).Some? && min <= Lower(part).value <= Upper(part).value <= max
    else ParseInt(part).Some? && min <= ParseInt(part).value <= max
  }

  /** Whether an accepted part lets the value through. */
  predicate PartAllows(part: string, min: int, max: int, v: int)
    requires PartValid(part, min, max)
  {
    if part == "*" then true
    else if IsStep(part) then Multiple(v - min, ParseInt(part[2..]).value)
    else if '-' in part then Lower(part).value <= v <= Upper(part).value
    else v == ParseInt(part).value
  }

  function Parts(field: string): (parts: seq<string>)
    ensures |parts| >= 1
  {
    var raw := Split(field, ',');
    seq(|raw|, i requires 0 <= i < |raw| => TrimSpace(raw[i]))
  }

  predicate FieldValid(field: string, min: int, max: int) {
    forall i | 0 <= i < |Parts(field)| :: PartValid(Parts(field)[i], min, max)
  }

  /** Any one of the comma-separated parts suffices. */
  predicate FieldAllows(field: string, min: int, max: int, v: int)
    requires FieldValid(field, min, max)
  {
    exists i | 0 <= i < |Parts(field)| :: PartAllows(Parts(field)[i], min, max, v)
  }

  predicate ExprValid(expr: string) {
    var f := Fields(expr);
    && |f| == 5
    && FieldValid(f[0], 0, 59) && FieldValid(f[1], 0, 23) && FieldValid(f[2], 1, 31)
    && FieldValid(f[3], 1, 12) && FieldValid(f[4], 0, 6)
  }

  // ---------------------------------------------------------------------------------------------
  // Time

  const WINDOW: int := 1460 * 24 * 60 * MINUTE

  function Day(t: int): (d: int) { t / 1440 }

  function Hour(t: int): (h: int)
    ensures 0 <= h <= 23
  {
    (t / 60) % 24
  }

  function Minute(t: int): (m: int)
    ensures 0 <= m <= 59
  {
    t % 60
  }

  /** Minute `t` after the zero time satisfies all five fields; day-of-month and day-of-week must both agree. */
  predicate ExprMatches(expr: string, t: int)
    requires ExprValid(expr)
  {
    var f, date := Fields(expr), DateOf(Day(t));
    && FieldAllows(f[0], 0, 59, Minute(t)) && FieldAllows(f[1], 0, 23, Hour(t)) && FieldAllows(f[2], 1, 31, date.day)
    && FieldAllows(f[3], 1, 12, date.month) && FieldAllows(f[4], 0, 6, Weekday(Day(t)))
  }

  /** The parsed form: one membership table per field. */
  datatype Tables = Tables(minutes: seq<bool>, hours: seq<bool>, doms: seq<bool>, months: seq<bool>, dows: seq<bool>)

  predicate WellFormed(c: Tables) {
    |c.minutes| == 60 && |c.hours| == 24 && |c.doms| == 31 && |c.months| == 12 && |c.dows| == 7
  }

  function Never(n: nat): (bits: seq<bool>) {
    seq(n, _ => false)
  }

  type Schedule = c: Tables | WellFormed(c) witness Tables(Never(60), Never(24), Never(31), Never(12), Never(7))

  predicate DateMatches(c: Schedule, day: int)
  {
    var date := DateOf(day);
    c.months[date.month - 1] && c.doms[date.day - 1] && c.dows[Weekday(day)]
  }

  predicate Matches(c: Schedule, t: int)
  {
    DateMatches(c, Day(t)) && c.hours[Hour(t)] && c.minutes[Minute(t)]
  }

  // ---------------------------------------------------------------------------------------------
  // The parser

  /** The table holds exactly the allowed values. */
  predicate Denotes(bits: seq<bool>, field: string, min: int, max: int)
    requires FieldValid(field, min, max) && min <= max
  {
    |bits| == max - min + 1 && forall v | min <= v <= max :: bits[v - min] <==> FieldAllows(field, min, max, v)
  }

  lemma {:induction false} MultiplesAreApart(i: int, v: int, n: int)
    requires n > 0 && 0 <= i && Multiple(i, n) && i < v < i + n
    ensures !Multiple(v, n)
    decreases i
  {
    if i >= n {
      MultiplesAreApart(i - n, v - n, n);
    }
  }

  /** `for i := 0; i <= max-min; i += n` sets the multiples of `n`. */
  method MarkSteps(bits: array<bool>, n: int)
    requires n > 0
    modifies bits
    ensures forall k | 0 <= k < bits.Length :: bits[k] == (old(bits[k]) || Multiple(k, n))
  {
    var i := 0;
    while i < bits.Length
      invariant 0 <= i && Multiple(i, n)
      invariant forall k | 0 <= k < bits.Length :: bits[k] == (old(bits[k]) || (k < i && Multiple(k, n)))
    {
      bits[i] := true;
      forall k | i < k < i + n ensures !Multiple(k, n) {
        MultiplesAreApart(i, k, n);
      }
      i := i + n;
    }
  }

  method MarkRange(bits: array<bool>, lo: int, hi: int)
    requires 0 <= lo <= hi < bits.Length
    modifies bits
    ensures forall k | 0 <= k < bits.Length :: bits[k] == (old(bits[k]) || lo <= k <= hi)
  {
    for i := lo to hi + 1
      invariant forall k | 0 <= k < bits.Length :: bits[k] == (old(bits[k]) || lo <= k < i)
    {
      bits[i] := true;
    }
  }

  /** One comma-separated part. */
  method ParsePart(bits: array<bool>, part: string, min: int, max: int) returns (ok: bool)
    requires min <= max && bits.Length == max - min + 1
    modifies bits
    ensures ok <==> PartValid(part, min, max)
    ensures ok ==> forall k | 0 <= k < bits.Length :: bits[k] == (old(bits[k]) || PartAllows(part, min, max, min + k))
  {
    if part == "*" {
      MarkRange(bits, 0, max - min);
    } else if IsStep(part) {
      var n := ParseInt(part[2..]);
      if n.None? || n.value <= 0 {
        return false;
      }
      MarkSteps(bits, n.value);
    } else if '-' in part {
      var lo, hi := Lower(part), Upper(part);
      if lo.None? || hi.None? || lo.value < min || hi.value > max || lo.value > hi.value {
        return false;
      }
      MarkRange(bits, lo.value - min, hi.value - min);
    } else {
      var n := ParseInt(part);
      if n.None? || n.value < min || n.value > max {
        return false;
      }
      bits[n.value - min] := true;
    }
    return true;
  }

  /** Some part among the first `i` lets the value at offset `k` through. */
  predicate SomeAllows(parts: seq<string>, i: nat, min: int, max: int, k: int)
    requires i <= |parts| && forall j | 0 <= j < i :: PartValid(parts[j], min, max)
  {
    exists j | 0 <= j < i :: PartAllows(parts[j], min, max, min + k)
  }

  lemma OneMorePart(parts: seq<string>, i: nat, min: int, max: int, k: int)
    requires i < |parts| && forall j | 0 <= j <= i :: PartValid(parts[j], min, max)
    ensures SomeAllows(parts, i + 1, min, max, k) <==>
            SomeAllows(parts, i, min, max, k) || PartAllows(parts[i], min, max, min + k)
  {
  }

  method ParseField(field: string, min: int, max: int) returns (r: Option<seq<bool>>)
    requires min <= max
    ensures r.Some? <==> FieldValid(field, min, max)
    ensures r.Some? ==> Denotes(r.value, field, min, max)
  {
    var parts := Parts(field);
    r := ParseParts(parts, min, max);
    if r.Some? {
      forall v | min <= v <= max ensures r.value[v - min] <==> FieldAllows(field, min, max, v) {
        assert SomeAllows(parts, |parts|, min, max, v - min) <==> FieldAllows(field, min, max, v);
      }
    }
  }

  /** The table marks exactly the offsets that some part among the first `i` lets through. */
  ghost predicate Collected(parts: seq<string>, i: nat, min: int, max: int, bits: seq<bool>) {
    && i <= |parts| && (forall j | 0 <= j < i :: PartValid(parts[j], min, max))
    && forall k | 0 <= k < |bits| :: bits[k] == SomeAllows(parts, i, min, max, k)
  }

  lemma CollectOne(parts: seq<string>, i: nat, min: int, max: int, before: seq<bool>, after: seq<bool>)
    requires Collected(parts, i, min, max, before) && i < |parts| && PartValid(parts[i], min, max)
    requires |after| == |before|
    requires forall k | 0 <= k < |after| :: after[k] == (before[k] || PartAllows(parts[i], min, max, min + k))
    ensures Collected(parts, i + 1, min, max, after)
  {
    forall k | 0 <= k < |after| ensures after[k] == SomeAllows(parts, i + 1, min, max, k) {
      OneMorePart(parts, i, min, max, k);
    }
  }

  method ParseParts(parts: seq<string>, min: int, max: int) returns (r: Option<seq<bool>>)
    requires min <= max
    ensures r.Some? <==> forall j | 0 <= j < |parts| :: PartValid(parts[j], min, max)
    ensures r.Some? ==> |r.value| == max - min + 1 && Collected(parts, |parts|, min, max, r.value)
  {
    var bits := new bool[max - min + 1](_ => false);
    for i := 0 to |parts|
      invariant Collected(parts, i, min, max, bits[..])
    {
      ghost var before := bits[..];
      var ok := ParsePart(bits, parts[i], min, max);
      if !ok {
        return None;
      }
      CollectOne(parts, i, min, max, before, bits[..]);
    }
    return Some(bits[..]);
  }

  /** Accepts exactly the valid expressions, and the schedule it returns matches exactly the minutes they mean. */
  method ParseCron(expr: string) returns (r: Option<Schedule>)
    ensures r.Some? <==> ExprValid(expr)
    ensures r.Some? ==> forall t :: Matches(r.value, t) <==> ExprMatches(expr, t)
  {
    var f := Fields(expr);
    if |f| != 5 {
      return None;
    }
    var minutes := ParseField(f[0], 0, 59);
    var hours := ParseField(f[1], 0, 23);
    var doms := ParseField(f[2], 1, 31);
    var months := ParseField(f[3], 1, 12);
    var dows := ParseField(f[4], 0, 6);
    if minutes.None? || hours.None? || doms.None? || months.None? || dows.None? {
      return None;
    }
    var c := Tables(minutes.value, hours.value, doms.value, months.value, dows.value);
    forall t ensures Matches(c, t) <==> ExprMatches(expr, t) {
      TablesMean(expr, c, t);
    }
    return Some(c);
  }

  lemma TableMeans(bits: seq<bool>, field: string, min: int, max: int, v: int)
    requires min <= v <= max && FieldValid(field, min, max) && Denotes(bits, field, min, max)
    ensures bits[v - min] <==> FieldAllows(field, min, max, v)
  {
  }

  lemma TablesMean(expr: string, c: Schedule, t: int)
    requires ExprValid(expr)
    requires Denotes(c.minutes, Fields(expr)[0], 0, 59) && Denotes(c.hours, Fields(expr)[1], 0, 23)
    requires Denotes(c.doms, Fields(expr)[2], 1, 31) && Denotes(c.months, Fields(expr)[3], 1, 12)
    requires Denotes(c.dows, Fields(expr)[4], 0, 6)
    ensures Matches(c, t) <==> ExprMatches(expr, t)
  {
    var f, date := Fields(expr), DateOf(Day(t));
    TableMeans(c.minutes, f[0], 0, 59, Minute(t));
    TableMeans(c.hours, f[1], 0, 23, Hour(t));
    TableMeans(c.doms, f[2], 1, 31, date.day);
    TableMeans(c.months, f[3], 1, 12, date.month);
    TableMeans(c.dows, f[4], 0, 6, Weekday(Day(t)));
  }

  // ---------------------------------------------------------------------------------------------
  // The search

  /** The plain search: every minute in turn. */
  function Scan(c: Schedule, t: int, limit: int): (r: Option<int>)
    decreases limit - t * MINUTE
  {
    if t * MINUTE >= limit then None else if Matches(c, t) then Some(t) else Scan(c, t + 1, limit)
  }

  /** The least matching whole minute strictly after `from` and within the window. */
  function NextMatch(c: Schedule, from: int): (r: Option<int>)
  {
    Scan(c, from / MINUTE + 1, from + WINDOW)
  }

  lemma {:induction false} ScanIsLeast(c: Schedule, t: int, limit: int)
    ensures var r := Scan(c, t, limit);
            && (r.Some? ==> t <= r.value && r.value * MINUTE < limit && Matches(c, r.value))
            && (forall u | t <= u && u * MINUTE < limit && Matches(c, u) :: r.Some? && r.value <= u)
    decreases limit - t * MINUTE
  {
    if t * MINUTE < limit && !Matches(c, t) {
      ScanIsLeast(c, t + 1, limit);
    }
  }

  /** What NextMatch is, in terms of times: strictly later, inside the window, and before every other match. */
  lemma NextMatchIsLeast(c: Schedule, from: int)
    ensures var r := NextMatch(c, from);
            && (r.Some? ==> from < r.value * MINUTE < from + WINDOW && Matches(c, r.value))
            && (forall u | from < u * MINUTE < from + WINDOW && Matches(c, u) :: r.Some? && r.value <= u)
  {
    ScanIsLeast(c, from / MINUTE + 1, from + WINDOW);
  }

  /** No minute from `t` up to `u` matches. */
  predicate IsClear(c: Schedule, t: int, u: int)
    decreases u - t
  {
    t >= u || (!Matches(c, t) && IsClear(c, t + 1, u))
  }

  lemma {:induction false} NoneMeansClear(c: Schedule, t: int, u: int)
    requires forall v | t <= v < u :: !Matches(c, v)
    ensures IsClear(c, t, u)
    decreases u - t
  {
    if t < u {
      NoneMeansClear(c, t + 1, u);
    }
  }

  /** Skipping over minutes without a match does not change the result. */
  lemma {:induction false} SkipKeepsScan(c: Schedule, t: int, u: int, limit: int)
    requires t <= u && IsClear(c, t, u)
    ensures Scan(c, t, limit) == Scan(c, u, limit)
    decreases u - t
  {
    if t < u {
      if t * MINUTE >= limit {
        assert u * MINUTE >= limit;
      } else {
        SkipKeepsScan(c, t + 1, u, limit);
      }
    }
  }

  lemma SkipMonth(c: Schedule, t: int)
    requires !c.months[DateOf(Day(t)).month - 1]
    ensures t < FirstOfNextMonth(Day(t)) * 1440
    ensures forall u | t <= u < FirstOfNextMonth(Day(t)) * 1440 :: !Matches(c, u)
  {
    MonthEnd(Day(t));
    forall u | t <= u < FirstOfNextMonth(Day(t)) * 1440 ensures !Matches(c, u) {
      assert Day(t) <= Day(u) < FirstOfNextMonth(Day(t));
      SameMonth(Day(t), Day(u));
    }
  }

  lemma SkipDay(c: Schedule, t: int)
    requires !DateMatches(c, Day(t))
    ensures t < (Day(t) + 1) * 1440
    ensures forall u | t <= u < (Day(t) + 1) * 1440 :: !Matches(c, u)
  {
    forall u | t <= u < (Day(t) + 1) * 1440 ensures !Matches(c, u) {
      assert Day(u) == Day(t);
    }
  }

  lemma SkipHour(c: Schedule, t: int)
    requires !c.hours[Hour(t)]
    ensures t < (t / 60 + 1) * 60
    ensures forall u | t <= u < (t / 60 + 1) * 60 :: !Matches(c, u)
  {
    forall u | t <= u < (t / 60 + 1) * 60 ensures !Matches(c, u) {
      assert u / 60 == t / 60;
    }
  }

  /** Where the loop goes from a minute it rejects: the first field that fails decides how far. */
  method Advance(c: Schedule, t: int) returns (u: int)
    ensures u == t <==> Matches(c, t)
    ensures t <= u && forall v | t <= v < u :: !Matches(c, v)
  {
    var day := Day(t);
    var date := DateOf(day);
    if !c.months[date.month - 1] {
      SkipMonth(c, t);
      u := FirstOfNextMonth(day) * 1440;
    } else if !c.doms[date.day - 1] || !c.dows[Weekday(day)] {
      SkipDay(c, t);
      u := (day + 1) * 1440;
    } else if !c.hours[Hour(t)] {
      SkipHour(c, t);
      u := (t / 60 + 1) * 60;
    } else if !c.minutes[Minute(t)] {
      u := t + 1;
    } else {
      u := t;
    }
  }

  /** The skip-ahead loop finds what the plain search finds; `from` is any time, in nanoseconds from the zero time. */
  method Next(c: Schedule, from: int) returns (r: Option<int>)
    ensures r == NextMatch(c, from)
  {
    var t := (from + MINUTE) / MINUTE;
    var limit := from + WINDOW;
    while t * MINUTE < limit
      invariant Scan(c, t, limit) == NextMatch(c, from)
      decreases limit - t * MINUTE
    {
      var u := Advance(c, t);
      if u == t {
        return Some(t);
      }
      NoneMeansClear(c, t, u);
      SkipKeepsScan(c, t, u, limit);
      t := u;
    }
    return None;
  }

  /**
   * For every accepted expression, Next returns the least matching minute the five fields describe, or none. From the
   * zero time on a match is never the zero time itself, which is what the source returns for none.
   */
  method NextForExpression(expr: string, from: int) returns (r: Option<int>)
    requires ExprValid(expr)
    ensures r.Some? ==> from < r.value * MINUTE < from + WINDOW && ExprMatches(expr, r.value)
    ensures forall u | from < u * MINUTE < from + WINDOW && ExprMatches(expr, u) :: r.Some? && r.value <= u
    ensures from >= 0 && r.Some? ==> r.value > 0
  {
    var c := ParseCron(expr);
    NextMatchIsLeast(c.value, from);
    r := Next(c.value, from);
  }
}
