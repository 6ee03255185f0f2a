/** The cron scheduler: registration and the dispatch of due entries at each tick. */
module Scheduler {
  import opened Common
  import opened Calendar
  import opened Cron

  datatype Entry = Entry(name: string, cron: string, enabled: bool)

  /** An entry whose last run was at `last` is due at `now`; 0 is the zero time of an entry that never ran. */
  predicate Due(next: Option<int>, now: int) {
    next.Some? && next.value * MINUTE <= now
  }

  function LastRun(lastRun: map<string, int>, name: string): (last: int) {
    if name in lastRun then lastRun[name] else 0
  }

  class Scheduler {
    var entries: map<string, Entry>
    var schedules: map<string, Schedule>
    var lastRun: map<string, int>

    ghost predicate Valid()
      reads this
    {
      && schedules.Keys == entries.Keys
      && forall name | name in entries :: entries[name].name == name && Means(entries[name].cron, schedules[name])
    }

    /** The table was parsed from the expression. */
    static ghost predicate Means(expr: string, c: Schedule) {
      ExprValid(expr) && forall t :: Matches(c, t) <==> ExprMatches(expr, t)
    }

    constructor ()
      ensures Valid() && entries == map[] && lastRun == map[]
    {
      entries, schedules, lastRun := map[], map[], map[];
    }

    /** Adds or replaces an entry; its last run, if any, is kept. */
    method Register(entry: Entry) returns (ok: bool)
      requires Valid()
      modifies this
      ensures Valid() && lastRun == old(lastRun)
      ensures ok <==> entry.name != "" && ExprValid(entry.cron)
      ensures entries == if ok then old(entries)[entry.name := entry] else old(entries)
    {
      if entry.name == "" {
        return false;
      }
      var c := ParseCron(entry.cron);
      if c.None? {
        return false;
      }
      assert Means(entry.cron, c.value);
      entries := entries[entry.name := entry];
      schedules := schedules[entry.name := c.value];
      return true;
    }

    /** Fires exactly the enabled entries that are due, and records the tick as their last run. */
    method Dispatch(now: int) returns (fired: set<string>)
      requires Valid()
      modifies this`lastRun
      ensures Valid()
      ensures fired == set name | name in entries && entries[name].enabled
                                  && Due(NextMatch(schedules[name], LastRun(old(lastRun), name)), now)
      ensures forall name :: LastRun(lastRun, name) == if name in fired then now else LastRun(old(lastRun), name)
    {
      fired := DueEntries(entries, schedules, lastRun, now);
      lastRun := lastRun + map name | name in fired :: now;
    }

    /** The ticker loop: over any ticks, each enabled entry's last run evolves as LastAfter says. */
    method Loop(ticks: seq<int>)
      requires Valid()
      modifies this`lastRun
      ensures Valid()
      ensures forall name | name in entries && entries[name].enabled ::
                LastRun(lastRun, name) == LastAfter(Search(schedules[name]), LastRun(old(lastRun), name), ticks)
    {
      for k := 0 to |ticks|
        invariant Valid()
        invariant forall name | name in entries && entries[name].enabled ::
                    LastRun(lastRun, name)
                    == LastAfter(Search(schedules[name]), LastRun(old(lastRun), name), ticks[..k])
      {
        var fired := Dispatch(ticks[k]);
        assert ticks[..k + 1][..k] == ticks[..k];
      }
      assert ticks[..|ticks|] == ticks;
    }

    /** The loop over the snapshot of entries. */
    static method DueEntries(
      entries: map<string, Entry>, schedules: map<string, Schedule>, lastRun: map<string, int>, now: int)
      returns (fired: set<string>)
      requires schedules.Keys == entries.Keys
      ensures fired == set name | name in entries && entries[name].enabled
                                  && Due(NextMatch(schedules[name], LastRun(lastRun, name)), now)
    {
      fired := {};
      var rest := entries.Keys;
      while rest != {}
        invariant rest <= entries.Keys && fired <= entries.Keys - rest
        invariant forall name | name in entries && name !in rest ::
                    name in fired <==>
                    entries[name].enabled && Due(NextMatch(schedules[name], LastRun(lastRun, name)), now)
        decreases rest
      {
        var name :| name in rest;
        if entries[name].enabled {
          var next := Next(schedules[name], LastRun(lastRun, name));
          if next.Some? && next.value * MINUTE <= now {
            fired := fired + {name};
          }
        }
        rest := rest - {name};
      }
    }
  }

  // ---------------------------------------------------------------------------------------------
  // One enabled entry over a sequence of ticks; `next` is the search its schedule makes

  predicate Nondecreasing(ticks: seq<int>) {
    forall i, j | 0 <= i < j < |ticks| :: ticks[i] <= ticks[j]
  }

  /** The entry's last run after those ticks, as Dispatch updates it, when it was `first` before them. */
  function LastAfter(next: int -> Option<int>, first: int, ticks: seq<int>): (last: int) {
    if ticks == [] then first
    else
      var last := LastAfter(next, first, ticks[..|ticks| - 1]);
      if Due(next(last), ticks[|ticks| - 1]) then ticks[|ticks| - 1] else last
  }

  predicate FiresAt(next: int -> Option<int>, first: int, ticks: seq<int>, k: nat)
    requires k < |ticks|
  {
    Due(next(LastAfter(next, first, ticks[..k])), ticks[k])
  }

  lemma LastStep(next: int -> Option<int>, first: int, ticks: seq<int>, k: nat)
    requires k < |ticks|
    ensures LastAfter(next, first, ticks[..k + 1])
         == if FiresAt(next, first, ticks, k) then ticks[k] else LastAfter(next, first, ticks[..k])
  {
    assert ticks[..k + 1][..k] == ticks[..k];
  }

  /** With no firing in between, the last run is still the earlier firing. */
  lemma {:induction false} LastBetween(next: int -> Option<int>, first: int, ticks: seq<int>, i: nat, j: nat)
    requires i < j <= |ticks| && FiresAt(next, first, ticks, i)
    requires forall k | i < k < j :: !FiresAt(next, first, ticks, k)
    ensures LastAfter(next, first, ticks[..j]) == ticks[i]
    decreases j
  {
    LastStep(next, first, ticks, j - 1);
    if i < j - 1 {
      LastBetween(next, first, ticks, i, j - 1);
    }
  }

  lemma {:induction false} PreviousFiring(next: int -> Option<int>, first: int, ticks: seq<int>, i: nat, j: nat)
    returns (p: nat)
    requires i < j <= |ticks| && FiresAt(next, first, ticks, i)
    ensures i <= p < j && FiresAt(next, first, ticks, p) && forall k | p < k < j :: !FiresAt(next, first, ticks, k)
    decreases j
  {
    if FiresAt(next, first, ticks, j - 1) {
      p := j - 1;
    } else {
      p := PreviousFiring(next, first, ticks, i, j - 1);
    }
  }

  /** The minute a firing answers. */
  function Answered(next: int -> Option<int>, first: int, ticks: seq<int>, k: nat): (minute: int)
    requires k < |ticks| && FiresAt(next, first, ticks, k)
  {
    next(LastAfter(next, first, ticks[..k])).value
  }

  /** The search made for a schedule. */
  function Search(c: Schedule): (next: int -> Option<int>) {
    from => NextMatch(c, from)
  }

  lemma SearchIsLeast(c: Schedule, next: int -> Option<int>, from: int)
    requires next == Search(c)
    ensures next(from).Some? ==> from < next(from).value * MINUTE < from + WINDOW && Matches(c, next(from).value)
    ensures forall u | from < u * MINUTE < from + WINDOW && Matches(c, u) :: next(from).Some? && next(from).value <= u
  {
    NextMatchIsLeast(c, from);
  }

  /** Each firing after the first answers a matching minute after the previous firing and not after this one. */
  lemma FiringHasItsMinute(c: Schedule, next: int -> Option<int>, first: int, ticks: seq<int>, i: nat, j: nat)
    requires next == Search(c) && i < j < |ticks| && FiresAt(next, first, ticks, i) && FiresAt(next, first, ticks, j)
    requires forall k | i < k < j :: !FiresAt(next, first, ticks, k)
    ensures Matches(c, Answered(next, first, ticks, j))
    ensures ticks[i] < Answered(next, first, ticks, j) * MINUTE <= ticks[j]
  {
    LastBetween(next, first, ticks, i, j);
    SearchIsLeast(c, next, ticks[i]);
  }

  lemma FiringsIncrease(c: Schedule, next: int -> Option<int>, first: int, ticks: seq<int>, i: nat, j: nat)
    requires next == Search(c) && Nondecreasing(ticks) && i < j < |ticks|
    requires FiresAt(next, first, ticks, i) && FiresAt(next, first, ticks, j)
    ensures Answered(next, first, ticks, i) < Answered(next, first, ticks, j)
  {
    var p := PreviousFiring(next, first, ticks, i, j);
    FiringHasItsMinute(c, next, first, ticks, p, j);
    assert Answered(next, first, ticks, i) * MINUTE <= ticks[i] <= ticks[p];
  }

  /** No two firings answer the same minute, so a matching minute fires an entry at most once. */
  lemma MinutesAreNotShared(c: Schedule, next: int -> Option<int>, first: int, ticks: seq<int>, i: nat, j: nat)
    requires next == Search(c) && Nondecreasing(ticks) && i < |ticks| && j < |ticks|
    requires FiresAt(next, first, ticks, i) && FiresAt(next, first, ticks, j)
    requires Answered(next, first, ticks, i) == Answered(next, first, ticks, j)
    ensures i == j
  {
    if i < j {
      FiringsIncrease(c, next, first, ticks, i, j);
    } else if j < i {
      FiringsIncrease(c, next, first, ticks, j, i);
    }
  }

  /** After a tick no matching minute of the window after the last run is at or before the tick. */
  lemma NothingLeftUnfired(c: Schedule, next: int -> Option<int>, first: int, ticks: seq<int>, k: nat, minute: int)
    requires next == Search(c) && k < |ticks| && Matches(c, minute)
    requires var last := LastAfter(next, first, ticks[..k + 1]); last < minute * MINUTE < last + WINDOW
    ensures ticks[k] < minute * MINUTE
  {
    LastStep(next, first, ticks, k);
    SearchIsLeast(c, next, LastAfter(next, first, ticks[..k]));
  }
}
