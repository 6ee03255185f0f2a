/** Keyset pagination: ListJobs, and walks that follow its cursors while the table changes. */
module Pagination {
  import opened Common
  import opened Jobs
  import opened Cursor
  import opened Text

  // ---------------------------------------------------------------------------------------------
  // The order (created_at, id)

  predicate TextLess(a: string, b: string) {
    b != "" && (a == "" || a[0] < b[0] || (a[0] == b[0] && TextLess(a[1..], b[1..])))
  }

  lemma {:induction false} TextLessTransitive(a: string, b: string, c: string)
    requires TextLess(a, b) && TextLess(b, c)
    ensures TextLess(a, c)
  {
    if a != "" && a[0] == b[0] == c[0] {
      TextLessTransitive(a[1..], b[1..], c[1..]);
    }
  }

  lemma {:induction false} TextLessTotal(a: string, b: string)
    ensures TextLess(a, b) || a == b || TextLess(b, a)
    ensures !(TextLess(a, b) && TextLess(b, a)) && !TextLess(a, a)
  {
    if a != "" {
      TextLessTotal(a[1..], a[1..]);
      if b != "" {
        TextLessTotal(a[1..], b[1..]);
        assert a == [a[0]] + a[1..] && b == [b[0]] + b[1..];
      }
    }
  }

  datatype Key = Key(createdAt: int, id: Id)

  predicate Less(a: Key, b: Key) {
    a.createdAt < b.createdAt || (a.createdAt == b.createdAt && TextLess(a.id, b.id))
  }

  lemma LessTransitive(a: Key, b: Key, c: Key)
    requires Less(a, b) && Less(b, c)
    ensures Less(a, c)
  {
    if a.createdAt == b.createdAt == c.createdAt {
      TextLessTransitive(a.id, b.id, c.id);
    }
  }

  lemma LessTotal(a: Key, b: Key)
    ensures Less(a, b) || a == b || Less(b, a)
    ensures !(Less(a, b) && Less(b, a)) && !Less(a, a)
  {
    TextLessTotal(a.id, b.id);
    TextLessTotal(a.id, a.id);
  }

  function KeyOf(rows: Rows, id: Id): (k: Key)
    requires id in rows
  {
    Key(rows[id].createdAt, id)
  }

  // ---------------------------------------------------------------------------------------------
  // The query

  /** The rows of the wanted state whose key is below the cursor. */
  function Selected(rows: Rows, state: Option<JobState>, below: Option<Key>): (ids: set<Id>)
    ensures ids <= rows.Keys
  {
    set id | id in rows && (state.None? || rows[id].state == state.value)
             && (below.None? || Less(KeyOf(rows, id), below.value))
  }

  /** `id` comes first in (created_at DESC, id DESC). */
  predicate IsTop(rows: Rows, ids: set<Id>, id: Id)
    requires ids <= rows.Keys
  {
    id in ids && forall other | other in ids && other != id :: Less(KeyOf(rows, other), KeyOf(rows, id))
  }

  lemma {:induction false} TopExists(rows: Rows, ids: set<Id>)
    requires ids <= rows.Keys && ids != {}
    ensures exists id :: IsTop(rows, ids, id)
    decreases ids
  {
    var some :| some in ids;
    if ids == {some} {
      assert IsTop(rows, ids, some);
    } else {
      TopExists(rows, ids - {some});
      var rest :| IsTop(rows, ids - {some}, rest);
      LessTotal(KeyOf(rows, some), KeyOf(rows, rest));
      var id := if Less(KeyOf(rows, rest), KeyOf(rows, some)) then some else rest;
      forall other | other in ids && other != id ensures Less(KeyOf(rows, other), KeyOf(rows, id)) {
        if id == some && other != rest {
          LessTransitive(KeyOf(rows, other), KeyOf(rows, rest), KeyOf(rows, some));
        }
      }
      assert IsTop(rows, ids, id);
    }
  }

  ghost function Top(rows: Rows, ids: set<Id>): (id: Id)
    requires ids <= rows.Keys && ids != {}
    ensures IsTop(rows, ids, id)
  {
    TopExists(rows, ids);
    var id :| IsTop(rows, ids, id);
    id
  }

  /** ORDER BY created_at DESC, id DESC. */
  ghost function Sorted(rows: Rows, ids: set<Id>): (s: seq<Id>)
    requires ids <= rows.Keys
    ensures |s| == |ids| && forall id :: id in s <==> id in ids
    decreases ids
  {
    if ids == {} then [] else
    var top := Top(rows, ids);
    assert |ids - {top}| == |ids| - 1;
    [top] + Sorted(rows, ids - {top})
  }

  predicate Descending(rows: Rows, s: seq<Id>)
    requires forall id | id in s :: id in rows
  {
    forall i, j | 0 <= i < j < |s| :: Less(KeyOf(rows, s[j]), KeyOf(rows, s[i]))
  }

  lemma {:induction false} SortedDescends(rows: Rows, ids: set<Id>)
    requires ids <= rows.Keys
    ensures Descending(rows, Sorted(rows, ids))
    decreases ids
  {
    if ids != {} {
      var top := Top(rows, ids);
      SortedDescends(rows, ids - {top});
      PrependTop(rows, ids, top, Sorted(rows, ids - {top}));
    }
  }

  lemma PrependTop(rows: Rows, ids: set<Id>, top: Id, rest: seq<Id>)
    requires ids <= rows.Keys && IsTop(rows, ids, top) && (forall id | id in rest :: id in ids && id != top)
    requires Descending(rows, rest)
    ensures (forall id | id in [top] + rest :: id in rows) && Descending(rows, [top] + rest)
  {
    var s := [top] + rest;
    forall i, j | 0 <= i < j < |s| ensures Less(KeyOf(rows, s[j]), KeyOf(rows, s[i])) {
      assert s[j] == rest[j - 1] && rest[j - 1] in rest;
    }
  }

  const DEFAULT_LIMIT: int := 50
  const MAX_LIMIT: int := 500

  function EffectiveLimit(limit: int): (n: nat)
    ensures 1 <= n <= MAX_LIMIT
  {
    if limit <= 0 then DEFAULT_LIMIT else if limit > MAX_LIMIT then MAX_LIMIT else limit
  }

  datatype Page = Page(ids: seq<Id>, next: string)

  /** The Unix epoch, in nanoseconds from the zero time. */
  const EPOCH: Time := 62_135_596_800_000_000_000

  /** time.UnixMicro of a time and back. */
  function UnixMicro(t: Time): (micros: int) {
    (t - EPOCH) / 1000
  }

  function FromUnixMicro(micros: int): (t: Time) {
    EPOCH + 1000 * micros
  }

  /** A time as a timestamp column holds it: whole microseconds, within the range the cursor's number has. */
  predicate IsStored(t: Time) {
    FromUnixMicro(UnixMicro(t)) == t && MIN_INT64 <= UnixMicro(t) <= MAX_INT64
  }

  /** The keys of stored rows, with ids as byte strings. */
  predicate IsKey(k: Key) {
    IsBytes(k.id) && IsStored(k.createdAt)
  }

  predicate Listable(rows: Rows) {
    forall id | id in rows :: IsKey(KeyOf(rows, id))
  }

  function CursorFor(k: Key): (c: string)
    requires IsKey(k)
  {
    CursorRoundTrip(UnixMicro(k.createdAt), k.id);
    EncodeCursor(UnixMicro(k.createdAt), k.id)
  }

  /** What a cursor asks for: everything, the rows below a key, or nothing because it does not decode. */
  function Below(cursor: string): (r: Result<Option<Key>, ()>) {
    if cursor == "" then Ok(None)
    else
      var k := DecodeCursor(cursor);
      if k.None? then Err(()) else Ok(Some(Key(FromUnixMicro(k.value.0), k.value.1)))
  }

  /** One answer of ListJobs. */
  ghost function List(rows: Rows, state: Option<JobState>, limit: nat, cursor: string): (r: Result<Page, ()>)
    requires Listable(rows) && limit >= 1
  {
    var below := Below(cursor);
    if below.Err? then Err(())
    else
      var ids := Sorted(rows, Selected(rows, state, below.value));
      if |ids| > limit
      then
        assert ids[limit - 1] in ids;
        Ok(Page(ids[..limit], CursorFor(KeyOf(rows, ids[limit - 1]))))
      else Ok(Page(ids, ""))
  }

  lemma SortedStep(rows: Rows, ids: set<Id>, top: Id)
    requires ids <= rows.Keys && IsTop(rows, ids, top)
    ensures Sorted(rows, ids) == [top] + Sorted(rows, ids - {top})
  {
    TopIsUnique(rows, ids, top, Top(rows, ids));
  }

  lemma MoveTop(rows: Rows, all: seq<Id>, ids: seq<Id>, rest: set<Id>, top: Id)
    requires rest <= rows.Keys && IsTop(rows, rest, top) && all == ids + Sorted(rows, rest)
    ensures all == (ids + [top]) + Sorted(rows, rest - {top})
  {
    SortedStep(rows, rest, top);
  }

  lemma TakePrefix(all: seq<Id>, ids: seq<Id>, tail: seq<Id>, count: nat)
    requires all == ids + tail && |ids| <= count && (|ids| == count || tail == [])
    ensures ids == Take(all, count)
  {
  }

  /** The database's answer to the SELECT: the first `count` of these rows in order. */
  method Query(rows: Rows, wanted: set<Id>, count: nat) returns (ids: seq<Id>)
    requires wanted <= rows.Keys
    ensures ids == Take(Sorted(rows, wanted), count)
  {
    ids := [];
    var rest := wanted;
    ghost var all := Sorted(rows, wanted);
    while rest != {} && |ids| < count
      invariant rest <= rows.Keys && |ids| <= count
      invariant all == ids + Sorted(rows, rest)
      decreases rest
    {
      var top := FindTop(rows, rest);
      MoveTop(rows, all, ids, rest, top);
      ids := ids + [top];
      rest := rest - {top};
    }
    TakePrefix(all, ids, Sorted(rows, rest), count);
  }

  lemma TopIsUnique(rows: Rows, ids: set<Id>, a: Id, b: Id)
    requires ids <= rows.Keys && IsTop(rows, ids, a) && IsTop(rows, ids, b)
    ensures a == b
  {
    LessTotal(KeyOf(rows, a), KeyOf(rows, b));
  }

  method FindTop(rows: Rows, ids: set<Id>) returns (top: Id)
    requires ids <= rows.Keys && ids != {}
    ensures IsTop(rows, ids, top)
  {
    top :| top in ids;
    var rest := ids - {top};
    while rest != {}
      invariant rest <= ids && IsTop(rows, ids - rest, top)
      decreases rest
    {
      var id :| id in rest;
      LessTotal(KeyOf(rows, id), KeyOf(rows, top));
      if Less(KeyOf(rows, top), KeyOf(rows, id)) {
        forall other | other in ids - rest && other != top ensures Less(KeyOf(rows, other), KeyOf(rows, id)) {
          LessTransitive(KeyOf(rows, other), KeyOf(rows, top), KeyOf(rows, id));
        }
        top := id;
      }
      rest := rest - {id};
    }
    assert ids - rest == ids;
  }

  function Take(s: seq<Id>, n: nat): (r: seq<Id>) {
    if |s| <= n then s else s[..n]
  }

  /** The rows of a page, as callers see them. */
  function Fetched(rows: Rows, ids: seq<Id>): (jobs: seq<Job>)
    requires forall id | id in ids :: id in rows
  {
    seq(|ids|, i requires 0 <= i < |ids| => JobOf(ids[i], rows[ids[i]]))
  }

  /** The loop that scans the rows. */
  method Scan(rows: Rows, ids: seq<Id>) returns (jobs: seq<Job>)
    requires forall id | id in ids :: id in rows
    ensures jobs == Fetched(rows, ids)
  {
    jobs := [];
    for i := 0 to |ids|
      invariant |jobs| == i && forall j | 0 <= j < i :: jobs[j] == JobOf(ids[j], rows[ids[j]])
    {
      jobs := jobs + [JobOf(ids[i], rows[ids[i]])];
    }
  }

  lemma OneExtra(all: seq<Id>, n: nat)
    ensures |Take(all, n + 1)| > n <==> |all| > n
    ensures |all| > n ==> Take(all, n + 1)[..n] == all[..n]
    ensures |all| <= n ==> Take(all, n + 1) == all
  {
  }

  /** Fetches one row more than asked for to learn whether there is a next page. */
  method ListJobs(rows: Rows, state: Option<JobState>, limit: int, cursor: string)
    returns (r: Result<seq<Job>, ()>, next: string)
    requires Listable(rows)
    ensures var page := List(rows, state, EffectiveLimit(limit), cursor);
            && (r.Ok? <==> page.Ok?)
            && (page.Ok? ==> && next == page.value.next
                             && (forall id | id in page.value.ids :: id in rows)
                             && r == Ok(Fetched(rows, page.value.ids)))
  {
    var n := EffectiveLimit(limit);
    var below := Below(cursor);
    if below.Err? {
      return Err(()), "";
    }
    var wanted := Selected(rows, state, below.value);
    ghost var all := Sorted(rows, wanted);
    var ids := Query(rows, wanted, n + 1);
    OneExtra(all, n);
    assert forall id | id in ids :: id in all;
    next := "";
    if |ids| > n {
      assert ids[n - 1] in ids;
      next := CursorFor(KeyOf(rows, ids[n - 1]));
      ids := ids[..n];
    }
    var jobs := Scan(rows, ids);
    r := Ok(jobs);
  }
}
