/** Following the cursors of ListJobs to the end, on a table that may change between pages. */
module PaginationWalk {
  import opened Common
  import opened Jobs
  import opened Cursor
  import opened Pagination
  import Text

  /** Between two pages rows may be added and changed, but ids and creation times stay. */
  ghost predicate Evolves(a: Rows, b: Rows) {
    a.Keys <= b.Keys && forall id | id in a :: b[id].createdAt == a[id].createdAt
  }

  function CursorAt(pages: seq<Page>, k: nat): (cursor: string)
    requires k <= |pages|
  {
    if k == 0 then "" else pages[k - 1].next
  }

  /** Page `k` was answered from table `k`, with the cursor the page before returned. */
  ghost predicate IsAnswered(tables: seq<Rows>, state: Option<JobState>, limit: nat, pages: seq<Page>, k: nat)
    requires limit >= 1 && k < |tables| == |pages|
  {
    Listable(tables[k]) && List(tables[k], state, limit, CursorAt(pages, k)) == Ok(pages[k])
  }

  ghost predicate IsWalk(tables: seq<Rows>, state: Option<JobState>, limit: nat, pages: seq<Page>) {
    && limit >= 1 && |tables| == |pages|
    && (forall k | 0 <= k < |pages| :: IsAnswered(tables, state, limit, pages, k))
    && (forall k | 0 <= k < |pages| - 1 :: pages[k].next != "")
    && (forall i, j | 0 <= i <= j < |tables| :: Evolves(tables[i], tables[j]))
  }

  /** The walk has come to its end. */
  predicate Finished(pages: seq<Page>) {
    |pages| >= 1 && pages[|pages| - 1].next == ""
  }

  // ---------------------------------------------------------------------------------------------
  // One page, in terms of keys

  /** The rows were listed from those below `below`; `next` is the last one's key if some did not fit. */
  ghost predicate Lists(rows: Rows, state: Option<JobState>, below: Option<Key>, ids: seq<Id>, next: Option<Key>) {
    && (forall id | id in ids :: id in Selected(rows, state, below))
    && Descending(rows, ids)
    && (next.None? ==> forall id | id in Selected(rows, state, below) :: id in ids)
    && (next.Some? ==>
          && ids != [] && next.value == KeyOf(rows, ids[|ids| - 1])
          && forall id | id in Selected(rows, state, below) && id !in ids :: Less(KeyOf(rows, id), next.value))
  }

  lemma LeftOver(rows: Rows, all: seq<Id>, limit: nat, id: Id)
    requires (forall x | x in all :: x in rows) && Descending(rows, all) && 1 <= limit < |all|
    requires id in all && id !in all[..limit]
    ensures all[limit - 1] in rows && Less(KeyOf(rows, id), KeyOf(rows, all[limit - 1]))
  {
    assert all == all[..limit] + all[limit..] && all[limit - 1] in all;
    var i :| 0 <= i < |all[limit..]| && all[limit..][i] == id;
    assert all[limit + i] == id;
  }

  lemma PrefixLists(rows: Rows, state: Option<JobState>, below: Option<Key>, limit: nat, all: seq<Id>)
    requires limit >= 1 && all == Sorted(rows, Selected(rows, state, below))
    ensures |all| > limit ==>
              all[limit - 1] in rows && Lists(rows, state, below, all[..limit], Some(KeyOf(rows, all[limit - 1])))
    ensures |all| <= limit ==> Lists(rows, state, below, all, None)
  {
    SortedDescends(rows, Selected(rows, state, below));
    if |all| > limit {
      FullPage(rows, state, below, limit, all);
    }
  }

  lemma FullPage(rows: Rows, state: Option<JobState>, below: Option<Key>, limit: nat, all: seq<Id>)
    requires 1 <= limit < |all| && (forall id :: id in all <==> id in Selected(rows, state, below))
    requires Descending(rows, all)
    ensures all[limit - 1] in rows && Lists(rows, state, below, all[..limit], Some(KeyOf(rows, all[limit - 1])))
  {
    assert all[limit - 1] in all;
    forall id | id in all && id !in all[..limit] ensures Less(KeyOf(rows, id), KeyOf(rows, all[limit - 1])) {
      LeftOver(rows, all, limit, id);
    }
    assert forall id | id in all[..limit] :: id in all;
  }

  /** What a page's cursor will ask for. */
  function NextKey(page: Page): (k: Option<Key>) {
    if page.next == "" || Below(page.next).Err? then None else Below(page.next).value
  }

  lemma CursorNamesKey(k: Key)
    requires IsKey(k)
    ensures CursorFor(k) != "" && Below(CursorFor(k)) == Ok(Some(k))
  {
    CursorRoundTrip(UnixMicro(k.createdAt), k.id);
  }

  lemma ListLists(rows: Rows, state: Option<JobState>, limit: nat, cursor: string, page: Page)
    requires Listable(rows) && limit >= 1 && List(rows, state, limit, cursor) == Ok(page)
    ensures Below(cursor).Ok? && Lists(rows, state, Below(cursor).value, page.ids, NextKey(page))
    ensures page.next != "" ==> Below(page.next) == Ok(NextKey(page)) && NextKey(page).Some? && |page.ids| == limit
  {
    var below := Below(cursor).value;
    var all := Sorted(rows, Selected(rows, state, below));
    PrefixLists(rows, state, below, limit, all);
    if |all| > limit {
      CursorNamesKey(KeyOf(rows, all[limit - 1]));
    }
  }

  // ---------------------------------------------------------------------------------------------
  // The whole walk, in terms of keys

  /** `bounds[k]` is what page `k` was asked for, and `bounds[k + 1]` what it says comes next. */
  ghost predicate KeyWalk(tables: seq<Rows>, state: Option<JobState>, bounds: seq<Option<Key>>, ids: seq<seq<Id>>) {
    && |tables| == |ids| && |bounds| == |ids| + 1 && bounds[0].None?
    && (forall k | 0 <= k < |ids| :: Lists(tables[k], state, bounds[k], ids[k], bounds[k + 1]))
    && (forall k | 1 <= k < |ids| :: bounds[k].Some?)
    && (forall i, j | 0 <= i <= j < |tables| :: Evolves(tables[i], tables[j]))
  }

  function Bounds(pages: seq<Page>): (bounds: seq<Option<Key>>) {
    seq(|pages| + 1, k requires 0 <= k <= |pages| => if k == 0 then None else NextKey(pages[k - 1]))
  }

  function Ids(pages: seq<Page>): (ids: seq<seq<Id>>) {
    seq(|pages|, k requires 0 <= k < |pages| => pages[k].ids)
  }

  lemma WalkCursor(tables: seq<Rows>, state: Option<JobState>, limit: nat, pages: seq<Page>, k: nat)
    requires IsWalk(tables, state, limit, pages) && k < |pages|
    ensures Below(CursorAt(pages, k)) == Ok(Bounds(pages)[k])
  {
    if k > 0 {
      assert IsAnswered(tables, state, limit, pages, k - 1);
      ListLists(tables[k - 1], state, limit, CursorAt(pages, k - 1), pages[k - 1]);
    }
  }

  lemma WalkPage(tables: seq<Rows>, state: Option<JobState>, limit: nat, pages: seq<Page>, k: nat)
    requires IsWalk(tables, state, limit, pages) && k < |pages|
    ensures Lists(tables[k], state, Bounds(pages)[k], pages[k].ids, Bounds(pages)[k + 1])
    ensures pages[k].next != "" ==> Bounds(pages)[k + 1].Some? && |pages[k].ids| == limit
    ensures pages[k].next == "" ==> Bounds(pages)[k + 1].None?
  {
    WalkCursor(tables, state, limit, pages, k);
    assert IsAnswered(tables, state, limit, pages, k);
    ListLists(tables[k], state, limit, CursorAt(pages, k), pages[k]);
  }

  lemma WalkHasKeys(tables: seq<Rows>, state: Option<JobState>, limit: nat, pages: seq<Page>)
    requires IsWalk(tables, state, limit, pages)
    ensures KeyWalk(tables, state, Bounds(pages), Ids(pages))
  {
    forall k | 0 <= k < |pages| ensures Lists(tables[k], state, Bounds(pages)[k], pages[k].ids, Bounds(pages)[k + 1]) {
      WalkPage(tables, state, limit, pages, k);
    }
    forall k | 1 <= k < |pages| ensures Bounds(pages)[k].Some? {
      InnerBound(tables, state, limit, pages, k);
    }
  }

  lemma InnerBound(tables: seq<Rows>, state: Option<JobState>, limit: nat, pages: seq<Page>, k: nat)
    requires IsWalk(tables, state, limit, pages) && 1 <= k < |pages|
    ensures Bounds(pages)[k].Some?
  {
    WalkPage(tables, state, limit, pages, k - 1);
  }

  lemma ListedBelow(
    tables: seq<Rows>, state: Option<JobState>, bounds: seq<Option<Key>>, ids: seq<seq<Id>>, k: nat, id: Id)
    requires KeyWalk(tables, state, bounds, ids) && k < |ids| && id in ids[k]
    ensures id in tables[k] && (k > 0 ==> Less(KeyOf(tables[k], id), bounds[k].value))
  {
    assert Lists(tables[k], state, bounds[k], ids[k], bounds[k + 1]);
  }

  lemma ListedAtOrAbove(
    tables: seq<Rows>, state: Option<JobState>, bounds: seq<Option<Key>>, ids: seq<seq<Id>>, k: nat, id: Id)
    requires KeyWalk(tables, state, bounds, ids) && k + 1 < |ids| && id in ids[k]
    ensures id in tables[k]
    ensures KeyOf(tables[k], id) == bounds[k + 1].value || Less(bounds[k + 1].value, KeyOf(tables[k], id))
  {
    assert Lists(tables[k], state, bounds[k], ids[k], bounds[k + 1]);
    var i :| 0 <= i < |ids[k]| && ids[k][i] == id;
  }

  lemma {:induction false} BoundsDescend(
    tables: seq<Rows>, state: Option<JobState>, bounds: seq<Option<Key>>, ids: seq<seq<Id>>, j: nat, k: nat)
    requires KeyWalk(tables, state, bounds, ids) && 1 <= j <= k < |ids|
    ensures bounds[k] == bounds[j] || Less(bounds[k].value, bounds[j].value)
    decreases k
  {
    if j < k {
      BoundsDescend(tables, state, bounds, ids, j, k - 1);
      assert Lists(tables[k - 1], state, bounds[k - 1], ids[k - 1], bounds[k]);
      var last := ids[k - 1][|ids[k - 1]| - 1];
      ListedBelow(tables, state, bounds, ids, k - 1, last);
      if bounds[k - 1] != bounds[j] {
        LessTransitive(bounds[k].value, bounds[k - 1].value, bounds[j].value);
      }
    }
  }

  lemma PagesDescend(
    tables: seq<Rows>, state: Option<JobState>, bounds: seq<Option<Key>>, ids: seq<seq<Id>>, j: nat, k: nat, a: Id,
    b: Id)
    requires KeyWalk(tables, state, bounds, ids) && j < k < |ids| && a in ids[j] && b in ids[k]
    ensures a in tables[j] && b in tables[k] && Less(KeyOf(tables[k], b), KeyOf(tables[j], a)) && a != b
  {
    ListedAtOrAbove(tables, state, bounds, ids, j, a);
    ListedBelow(tables, state, bounds, ids, k, b);
    BoundsDescend(tables, state, bounds, ids, j + 1, k);
    var ka, kb, kj, kk := KeyOf(tables[j], a), KeyOf(tables[k], b), bounds[j + 1].value, bounds[k].value;
    Chain(kb, kk, kj, ka);
    assert Evolves(tables[j], tables[k]);
    LessTotal(ka, kb);
  }

  lemma Chain(a: Key, b: Key, c: Key, d: Key)
    requires Less(a, b) && (b == c || Less(b, c)) && (c == d || Less(c, d))
    ensures Less(a, d)
  {
    if b != c {
      LessTransitive(a, b, c);
    }
    if c != d {
      LessTransitive(a, c, d);
    }
  }

  lemma LaterPage(
    tables: seq<Rows>, state: Option<JobState>, limit: nat, pages: seq<Page>, j: nat, k: nat, a: Id, b: Id)
    requires IsWalk(tables, state, limit, pages) && j < k < |pages| && a in pages[j].ids && b in pages[k].ids
    ensures a in tables[j] && b in tables[k] && Less(KeyOf(tables[k], b), KeyOf(tables[j], a)) && a != b
  {
    WalkHasKeys(tables, state, limit, pages);
    PagesDescend(tables, state, Bounds(pages), Ids(pages), j, k, a, b);
  }

  lemma SamePage(
    rows: Rows, state: Option<JobState>, below: Option<Key>, ids: seq<Id>, next: Option<Key>, x: nat, y: nat)
    requires Lists(rows, state, below, ids, next) && x < y < |ids|
    ensures ids[x] in rows && ids[y] in rows && Less(KeyOf(rows, ids[y]), KeyOf(rows, ids[x])) && ids[x] != ids[y]
  {
    assert ids[x] in ids && ids[y] in ids;
    LessTotal(KeyOf(rows, ids[x]), KeyOf(rows, ids[y]));
  }

  /**
   * What comes later in a walk, on the same page or on a later one, has a strictly smaller key, so no row is returned
   * twice, whatever happened in between.
   */
  lemma NoRowTwice(tables: seq<Rows>, state: Option<JobState>, limit: nat, pages: seq<Page>, j: nat, x: nat, k: nat,
                   y: nat)
    requires IsWalk(tables, state, limit, pages) && j < |pages| && k < |pages| && (j < k || (j == k && x < y))
    requires x < |pages[j].ids| && y < |pages[k].ids|
    ensures var a, b := pages[j].ids[x], pages[k].ids[y];
            a in tables[j] && b in tables[k] && Less(KeyOf(tables[k], b), KeyOf(tables[j], a)) && a != b
  {
    if j < k {
      LaterPage(tables, state, limit, pages, j, k, pages[j].ids[x], pages[k].ids[y]);
    } else {
      WalkPage(tables, state, limit, pages, j);
      SamePage(tables[j], state, Bounds(pages)[j], pages[j].ids, Bounds(pages)[j + 1], x, y);
    }
  }

  /** The row is there from the first page on and has the wanted state at every page. */
  ghost predicate MatchesThroughout(tables: seq<Rows>, state: Option<JobState>, id: Id) {
    forall k | 0 <= k < |tables| :: id in tables[k] && (state.None? || tables[k][id].state == state.value)
  }

  lemma {:induction false} ListedOrStillAhead(
    tables: seq<Rows>, state: Option<JobState>, bounds: seq<Option<Key>>, ids: seq<seq<Id>>, k: nat, id: Id)
    requires KeyWalk(tables, state, bounds, ids) && k < |ids| && MatchesThroughout(tables, state, id)
    requires forall j | 0 <= j < k :: id !in ids[j]
    ensures id in Selected(tables[k], state, bounds[k])
    decreases k
  {
    assert id in tables[k];
    if k > 0 {
      ListedOrStillAhead(tables, state, bounds, ids, k - 1, id);
      assert Lists(tables[k - 1], state, bounds[k - 1], ids[k - 1], bounds[k]);
      assert Evolves(tables[k - 1], tables[k]);
    }
  }

  lemma KeyWalkCovers(tables: seq<Rows>, state: Option<JobState>, bounds: seq<Option<Key>>, ids: seq<seq<Id>>, id: Id)
    requires KeyWalk(tables, state, bounds, ids) && ids != [] && bounds[|ids|].None?
    requires MatchesThroughout(tables, state, id)
    ensures exists k | 0 <= k < |ids| :: id in ids[k]
  {
    var n := |ids| - 1;
    if forall j | 0 <= j < n :: id !in ids[j] {
      ListedOrStillAhead(tables, state, bounds, ids, n, id);
      assert Lists(tables[n], state, bounds[n], ids[n], bounds[n + 1]);
    }
  }

  /** A finished walk has returned every row that matched throughout, whatever was added or changed meanwhile. */
  lemma NoRowMissed(tables: seq<Rows>, state: Option<JobState>, limit: nat, pages: seq<Page>, id: Id)
    requires IsWalk(tables, state, limit, pages) && Finished(pages) && MatchesThroughout(tables, state, id)
    ensures exists k | 0 <= k < |pages| :: id in pages[k].ids
  {
    WalkHasKeys(tables, state, limit, pages);
    WalkPage(tables, state, limit, pages, |pages| - 1);
    KeyWalkCovers(tables, state, Bounds(pages), Ids(pages), id);
    var k :| 0 <= k < |pages| && id in Ids(pages)[k];
    assert id in pages[k].ids;
  }

  // ---------------------------------------------------------------------------------------------
  // A table that does not change

  function Concat(ids: seq<seq<Id>>): (all: seq<Id>) {
    if ids == [] then [] else Concat(ids[..|ids| - 1]) + ids[|ids| - 1]
  }

  lemma {:induction false} ConcatMembers(ids: seq<seq<Id>>, id: Id)
    ensures id in Concat(ids) <==> exists k | 0 <= k < |ids| :: id in ids[k]
  {
    if ids != [] {
      var n := |ids| - 1;
      ConcatMembers(ids[..n], id);
      assert forall k | 0 <= k < n :: ids[..n][k] == ids[k];
      if id in Concat(ids[..n]) {
        var k :| 0 <= k < n && id in ids[..n][k];
        assert id in ids[k];
      }
    }
  }

  ghost predicate Unchanging(rows: Rows, tables: seq<Rows>) {
    forall k | 0 <= k < |tables| :: tables[k] == rows
  }

  lemma {:induction false} ConcatSelected(
    rows: Rows, tables: seq<Rows>, state: Option<JobState>, bounds: seq<Option<Key>>, ids: seq<seq<Id>>, n: nat)
    requires KeyWalk(tables, state, bounds, ids) && Unchanging(rows, tables) && n <= |ids|
    ensures forall id | id in Concat(ids[..n]) :: id in Selected(rows, state, None)
  {
    forall id | id in Concat(ids[..n]) ensures id in Selected(rows, state, None) {
      ConcatMembers(ids[..n], id);
      var k :| 0 <= k < n && id in ids[..n][k];
      assert Lists(tables[k], state, bounds[k], ids[k], bounds[k + 1]);
    }
  }

  lemma {:induction false} ConcatDescends(
    rows: Rows, tables: seq<Rows>, state: Option<JobState>, bounds: seq<Option<Key>>, ids: seq<seq<Id>>, n: nat)
    requires KeyWalk(tables, state, bounds, ids) && Unchanging(rows, tables) && n <= |ids|
    ensures forall id | id in Concat(ids[..n]) :: id in rows
    ensures Descending(rows, Concat(ids[..n]))
  {
    ConcatSelected(rows, tables, state, bounds, ids, n);
    if n > 0 {
      ConcatDescends(rows, tables, state, bounds, ids, n - 1);
      var front, last := Concat(ids[..n - 1]), ids[n - 1];
      assert ids[..n][..n - 1] == ids[..n - 1];
      PageDescends(rows, tables, state, bounds, ids, n - 1);
      forall a, b | a in front && b in last ensures Less(KeyOf(rows, b), KeyOf(rows, a)) {
        AfterTheFront(rows, tables, state, bounds, ids, n - 1, a, b);
      }
      AppendDescends(rows, front, last);
    }
  }

  lemma PageDescends(
    rows: Rows, tables: seq<Rows>, state: Option<JobState>, bounds: seq<Option<Key>>, ids: seq<seq<Id>>, k: nat)
    requires KeyWalk(tables, state, bounds, ids) && Unchanging(rows, tables) && k < |ids|
    ensures (forall id | id in ids[k] :: id in rows) && Descending(rows, ids[k])
  {
    assert Lists(tables[k], state, bounds[k], ids[k], bounds[k + 1]);
  }

  lemma {:induction false} AfterTheFront(
    rows: Rows, tables: seq<Rows>, state: Option<JobState>, bounds: seq<Option<Key>>, ids: seq<seq<Id>>, n: nat, a: Id,
    b: Id)
    requires KeyWalk(tables, state, bounds, ids) && Unchanging(rows, tables) && n < |ids|
    requires a in Concat(ids[..n]) && b in ids[n]
    ensures a in rows && b in rows && Less(KeyOf(rows, b), KeyOf(rows, a))
  {
    ConcatMembers(ids[..n], a);
    var k :| 0 <= k < n && a in ids[..n][k];
    PagesDescend(tables, state, bounds, ids, k, n, a, b);
  }

  lemma AppendDescends(rows: Rows, s: seq<Id>, t: seq<Id>)
    requires forall id | id in s + t :: id in rows
    requires (forall id | id in s :: id in rows) && (forall id | id in t :: id in rows)
    requires Descending(rows, s) && Descending(rows, t)
    requires forall a, b | a in s && b in t :: Less(KeyOf(rows, b), KeyOf(rows, a))
    ensures Descending(rows, s + t)
  {
    var u := s + t;
    forall i, j | 0 <= i < j < |u| ensures Less(KeyOf(rows, u[j]), KeyOf(rows, u[i])) {
      if i < |s| <= j {
        assert u[i] in s && u[j] in t;
      }
    }
  }

  lemma TailMembers(rows: Rows, s: seq<Id>, id: Id)
    requires s != [] && (forall x | x in s :: x in rows) && Descending(rows, s)
    ensures id in s[1..] <==> id in s && id != s[0]
  {
    LessTotal(KeyOf(rows, s[0]), KeyOf(rows, s[0]));
    if id in s[1..] {
      var i :| 0 <= i < |s[1..]| && s[1..][i] == id;
      assert s[i + 1] == id;
    }
  }

  lemma SameHead(rows: Rows, s: seq<Id>, t: seq<Id>)
    requires (forall id | id in s :: id in rows) && (forall id | id in t :: id in rows)
    requires Descending(rows, s) && Descending(rows, t) && s != [] && t != [] && s[0] in t && t[0] in s
    ensures s[0] == t[0]
  {
    var i :| 0 <= i < |t| && t[i] == s[0];
    var j :| 0 <= j < |s| && s[j] == t[0];
    LessTotal(KeyOf(rows, s[0]), KeyOf(rows, t[0]));
  }

  /** A set of rows can be listed in only one descending order. */
  lemma {:induction false} DescendingUnique(rows: Rows, s: seq<Id>, t: seq<Id>)
    requires (forall id | id in s :: id in rows) && (forall id | id in t :: id in rows)
    requires Descending(rows, s) && Descending(rows, t) && forall id :: id in s <==> id in t
    ensures s == t
  {
    assert |s| > 0 ==> s[0] in t;
    assert |t| > 0 ==> t[0] in s;
    if s != [] && t != [] {
      SameHead(rows, s, t);
      forall id ensures id in s[1..] <==> id in t[1..] {
        TailMembers(rows, s, id);
        TailMembers(rows, t, id);
      }
      DescendingUnique(rows, s[1..], t[1..]);
    }
  }

  /** On a fixed table the pages of a finished walk, put together, are the whole sorted, filtered table. */
  lemma FixedTableIsListedWhole(rows: Rows, tables: seq<Rows>, state: Option<JobState>, limit: nat, pages: seq<Page>)
    requires IsWalk(tables, state, limit, pages) && Finished(pages) && Unchanging(rows, tables)
    ensures Concat(Ids(pages)) == Sorted(rows, Selected(rows, state, None))
  {
    WalkHasKeys(tables, state, limit, pages);
    var wanted, ids := Selected(rows, state, None), Ids(pages);
    var all := Sorted(rows, wanted);
    assert ids[..|ids|] == ids;
    ConcatSelected(rows, tables, state, Bounds(pages), ids, |ids|);
    ConcatDescends(rows, tables, state, Bounds(pages), ids, |ids|);
    SortedDescends(rows, wanted);
    forall id | id in wanted ensures id in Concat(ids) {
      assert MatchesThroughout(tables, state, id);
      NoRowMissed(tables, state, limit, pages, id);
      var k :| 0 <= k < |pages| && id in pages[k].ids;
      assert id in ids[k];
      ConcatMembers(ids, id);
    }
    DescendingUnique(rows, Concat(ids), all);
  }

  lemma {:induction false} DistinctFits(rows: Rows, s: seq<Id>, ids: set<Id>)
    requires (forall id | id in s :: id in rows) && Descending(rows, s) && forall id | id in s :: id in ids
    ensures |s| <= |ids|
  {
    if s != [] {
      forall id | id in s[1..] ensures id in ids - {s[0]} {
        TailMembers(rows, s, id);
      }
      DistinctFits(rows, s[1..], ids - {s[0]});
    }
  }

  lemma {:induction false} FullPages(ids: seq<seq<Id>>, limit: nat)
    requires forall k | 0 <= k < |ids| :: |ids[k]| == limit
    ensures |Concat(ids)| == limit * |ids|
  {
    if ids != [] {
      FullPages(ids[..|ids| - 1], limit);
    }
  }

  /** A walk over a fixed table that has not finished yet has used up a full page of rows at each step. */
  lemma FixedTableWalkEnds(rows: Rows, tables: seq<Rows>, state: Option<JobState>, limit: nat, pages: seq<Page>)
    requires IsWalk(tables, state, limit, pages) && Unchanging(rows, tables)
    requires forall k | 0 <= k < |pages| :: pages[k].next != ""
    ensures limit * |pages| <= |Selected(rows, state, None)|
  {
    WalkHasKeys(tables, state, limit, pages);
    var ids := Ids(pages);
    forall k | 0 <= k < |ids| ensures |ids[k]| == limit {
      WalkPage(tables, state, limit, pages, k);
    }
    FullPages(ids, limit);
    assert ids[..|ids|] == ids;
    ConcatSelected(rows, tables, state, Bounds(pages), ids, |ids|);
    ConcatDescends(rows, tables, state, Bounds(pages), ids, |ids|);
    DistinctFits(rows, Concat(ids), Selected(rows, state, None));
  }
}
