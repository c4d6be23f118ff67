/**
 * Keyset pagination (internal/handler/pagination.go applyPagination, and its use by the API-key and
 * audit lists): each page asks for the rows below the last one seen, one row more than it shows.
 */
module KeysetPaging {
  import opened Prelude

  // ---------------------------------------------------------------- Sort keys

  // Row identifiers are 128-bit UUIDs, compared as unsigned integers.
  const ID_SPACE: int := 0x1_0000_0000_0000_0000_0000_0000_0000_0000

  // Times are ticks since some instant before every row.
  datatype Key = Key(createdAt: nat, id: nat)

  /** The SQL row comparison (created_at, id) < (?, ?). */
  predicate RowLess(a: Key, b: Key) {
    a.createdAt < b.createdAt || (a.createdAt == b.createdAt && a.id < b.id)
  }

  /** One integer per key: the API-key list pages over ranks, the audit list over its integer ids. */
  function Rank(k: Key): nat {
    k.createdAt * ID_SPACE + k.id
  }

  lemma RankPreservesOrder(a: Key, b: Key)
    requires a.id < ID_SPACE && b.id < ID_SPACE
    ensures RowLess(a, b) <==> Rank(a) < Rank(b)
    ensures a == b <==> Rank(a) == Rank(b)
  {
  }

  // ---------------------------------------------------------------- The query

  ghost predicate StrictlyDescending(s: seq<nat>) {
    forall i, j | 0 <= i < j < |s| :: s[i] > s[j]
  }

  /** `r` lists the set `s` in strictly descending order. */
  ghost predicate Lists(r: seq<nat>, s: set<nat>) {
    StrictlyDescending(r) && forall x :: x in r <==> x in s
  }

  lemma {:induction false} MaximumExists(s: set<nat>)
    requires s != {}
    ensures exists m :: m in s && forall x | x in s :: x <= m
  {
    var m :| m in s;
    var rest := s - {m};
    if rest == {} {
      assert s == {m};
    } else {
      MaximumExists(rest);
      var other :| other in rest && forall x | x in rest :: x <= other;
      var top := if m < other then other else m;
      forall x | x in s ensures x <= top {
        assert x == m || x in rest;
      }
    }
  }

  ghost function Maximum(s: set<nat>): (m: nat)
    requires s != {}
    ensures m in s && forall x | x in s :: x <= m
  {
    MaximumExists(s);
    var m :| m in s && forall x | x in s :: x <= m;
    m
  }

  /** ORDER BY key DESC. */
  ghost function Descending(s: set<nat>): (r: seq<nat>)
    decreases |s|
  {
    if s == {} then [] else [Maximum(s)] + Descending(s - {Maximum(s)})
  }

  lemma {:induction false} DescendingLists(s: set<nat>)
    ensures Lists(Descending(s), s) && |Descending(s)| == |s|
    decreases |s|
  {
    if s != {} {
      var m, rest := Maximum(s), Descending(s - {Maximum(s)});
      DescendingLists(s - {m});
      forall x ensures x in [m] + rest <==> x in s {
        assert x in rest <==> x in s - {m};
      }
      JoinDescending([m], rest);
    }
  }

  /** A strictly descending listing is determined by its elements. */
  lemma {:induction false} ListingIsUnique(r: seq<nat>, t: seq<nat>, s: set<nat>)
    requires Lists(r, s) && Lists(t, s)
    ensures r == t
    decreases |r|
  {
    if r == [] {
      if t != [] {
        HeadListed(t, s);
      }
    } else {
      assert r[0] in r && t[0] in t;
      assert r[0] == t[0];
      TailLists(r, s);
      TailLists(t, s);
      ListingIsUnique(r[1..], t[1..], s - {r[0]});
      assert r == [r[0]] + r[1..] && t == [t[0]] + t[1..];
    }
  }

  lemma HeadListed(r: seq<nat>, s: set<nat>)
    requires Lists(r, s) && r != []
    ensures r[0] in s
  {
    assert r[0] in r;
  }

  lemma TailLists(r: seq<nat>, s: set<nat>)
    requires Lists(r, s) && r != []
    ensures Lists(r[1..], s - {r[0]})
  {
    assert r == [r[0]] + r[1..];
  }

  function Below(table: set<nat>, cursor: Option<int>): set<nat> {
    if cursor.None? then table else set x | x in table && x < cursor.value
  }

  /** WHERE key < cursor ORDER BY key DESC LIMIT limit + 1. */
  ghost function Fetch(table: set<nat>, cursor: Option<int>, limit: nat): seq<nat> {
    var all := Descending(Below(table, cursor));
    if |all| <= limit + 1 then all else all[..limit + 1]
  }

  datatype Page<T> = Page(items: seq<T>, next: Option<int>)

  /** The handler's view of what it fetched: at most `limit` rows, and a cursor when there was one more. */
  function PageOf(found: seq<nat>, limit: nat): Page<nat>
    requires limit > 0
  {
    if |found| > limit then Page(found[..limit], Some(found[limit - 1])) else Page(found, None)
  }

  datatype Row<T> = Row(key: nat, data: T)

  function Keys<T>(rows: seq<Row<T>>): seq<nat> {
    seq(|rows|, i requires 0 <= i < |rows| => rows[i].key)
  }

  /** The List handlers after the query: truncate, render in a loop, and point at the last shown row. */
  method List<T, U>(found: seq<Row<T>>, limit: nat, render: T -> U)
    returns (items: seq<U>, hasMore: bool, next: Option<int>)
    requires limit > 0
    ensures
      var page := PageOf(Keys(found), limit);
      && |items| == |page.items| && next == page.next && hasMore == page.next.Some?
      && forall i | 0 <= i < |items| :: items[i] == render(found[i].data)
  {
    var rows := found;
    hasMore := |rows| > limit;
    if hasMore {
      rows := rows[..limit];
    }
    items := [];
    for i := 0 to |rows|
      invariant |items| == i
      invariant forall j | 0 <= j < i :: items[j] == render(found[j].data)
    {
      items := items + [render(rows[i].data)];
    }
    next := None;
    if hasMore {
      next := Some(rows[|rows| - 1].key);
    }
  }

  // ---------------------------------------------------------------- Following the cursor

  datatype Walk = Walk(items: seq<nat>, pages: nat, completed: bool)

  /** A client following next_cursor, one table state per request: the table may change in between. */
  ghost function Follow(tables: seq<set<nat>>, cursor: Option<int>, limit: nat): Walk
    requires limit > 0
    decreases |tables|
  {
    if tables == [] then Walk([], 0, false) else
    var page := PageAt(tables[0], cursor, limit);
    if page.next.None? then Walk(page.items, 1, true)
    else
      var rest := Follow(tables[1..], page.next, limit);
      Walk(page.items + rest.items, rest.pages + 1, rest.completed)
  }

  /** One page: descending rows of the table below the cursor, and no such row skipped above the next cursor. */
  ghost predicate CoversTop(page: Page<nat>, rows: set<nat>) {
    && StrictlyDescending(page.items)
    && (forall x | x in page.items :: x in rows)
    && (forall x | x in rows :: x in page.items || (page.next.Some? && x < page.next.value))
    && (page.next.Some? ==> |page.items| > 0 && page.next.value == page.items[|page.items| - 1])
  }

  lemma PrefixCoversTop(all: seq<nat>, rows: set<nat>, limit: nat)
    requires limit > 0 && Lists(all, rows)
    ensures CoversTop(PageOf(all, limit), rows)
    ensures PageOf(if |all| <= limit + 1 then all else all[..limit + 1], limit) == PageOf(all, limit)
  {
    if |all| > limit {
      forall x | x in rows ensures x in all[..limit] || x < all[limit - 1] {
        assert x in all;
        var i :| 0 <= i < |all| && all[i] == x;
        if i < limit {
          assert all[..limit][i] == x;
        }
      }
    }
  }

  /** The page a request gets: LIMIT limit + 1 is enough to see whether there is more. */
  ghost function PageAt(table: set<nat>, cursor: Option<int>, limit: nat): Page<nat>
    requires limit > 0
  {
    PageOf(Fetch(table, cursor, limit), limit)
  }

  lemma PageAtCoversTop(table: set<nat>, cursor: Option<int>, limit: nat)
    requires limit > 0
    ensures CoversTop(PageAt(table, cursor, limit), Below(table, cursor))
    ensures PageAt(table, cursor, limit) == PageOf(Descending(Below(table, cursor)), limit)
  {
    DescendingLists(Below(table, cursor));
    PrefixCoversTop(Descending(Below(table, cursor)), Below(table, cursor), limit);
  }

  /** Main theorem, any concurrent change: a walk shows rows in strictly descending order, so never twice. */
  lemma {:induction false} WalkNeverRepeats(tables: seq<set<nat>>, cursor: Option<int>, limit: nat)
    requires limit > 0
    ensures StrictlyDescending(Follow(tables, cursor, limit).items)
    ensures forall x | x in Follow(tables, cursor, limit).items :: cursor.Some? ==> x < cursor.value
    decreases |tables|
  {
    if tables != [] {
      PageAtCoversTop(tables[0], cursor, limit);
      var page := PageAt(tables[0], cursor, limit);
      if page.next.Some? {
        WalkNeverRepeats(tables[1..], page.next, limit);
        JoinDescending(page.items, Follow(tables[1..], page.next, limit).items);
        assert page.next.value in page.items;
      }
    }
  }

  lemma JoinDescending(s: seq<nat>, t: seq<nat>)
    requires StrictlyDescending(s) && StrictlyDescending(t) && s != []
    requires forall x | x in t :: x < s[|s| - 1]
    ensures StrictlyDescending(s + t)
  {
    forall i, j | 0 <= i < j < |s + t| ensures (s + t)[i] > (s + t)[j] {
      if i < |s| <= j {
        assert t[j - |s|] in t;
      }
    }
  }

  /** A walk shows only rows that were there when their page was read. */
  lemma {:induction false} WalkShowsOnlyRows(tables: seq<set<nat>>, cursor: Option<int>, limit: nat)
    requires limit > 0
    ensures Follow(tables, cursor, limit).pages <= |tables|
    ensures forall x | x in Follow(tables, cursor, limit).items ::
              exists i :: 0 <= i < Follow(tables, cursor, limit).pages && x in tables[i]
    decreases |tables|
  {
    if tables != [] {
      PageAtCoversTop(tables[0], cursor, limit);
      var walk, page := Follow(tables, cursor, limit), PageAt(tables[0], cursor, limit);
      if page.next.Some? {
        WalkShowsOnlyRows(tables[1..], page.next, limit);
      }
      forall x | x in walk.items ensures exists i :: 0 <= i < walk.pages && x in tables[i] {
        if x in page.items {
          assert x in tables[0];
        } else {
          var rest := Follow(tables[1..], page.next, limit);
          assert x in rest.items;
          var i :| 0 <= i < rest.pages && x in tables[1..][i];
          assert x in tables[i + 1];
        }
      }
    }
  }

  /** Main theorem, any concurrent change: a completed walk shows every row that was there throughout. */
  lemma {:induction false} CompletedWalkMissesNothing(tables: seq<set<nat>>, cursor: Option<int>, limit: nat, x: nat)
    requires limit > 0 && Follow(tables, cursor, limit).completed
    requires forall i | 0 <= i < |tables| :: x in tables[i]
    requires cursor.Some? ==> x < cursor.value
    ensures x in Follow(tables, cursor, limit).items
    decreases |tables|
  {
    PageAtCoversTop(tables[0], cursor, limit);
    var page := PageAt(tables[0], cursor, limit);
    assert x in Below(tables[0], cursor);
    if x !in page.items {
      CompletedWalkMissesNothing(tables[1..], page.next, limit, x);
    }
  }

  // ---------------------------------------------------------------- An unchanged table

  /** What is below the last row of a page is the rest of the listing. */
  lemma BelowLastIsRest(all: seq<nat>, rows: set<nat>, below: set<nat>, k: nat)
    requires Lists(all, rows) && 0 < k <= |all|
    requires forall x :: x in below <==> x in rows && x < all[k - 1]
    ensures Descending(below) == all[k..]
  {
    forall x ensures x in all[k..] <==> x in below {
      if x in below {
        assert x in all;
        var i :| 0 <= i < |all| && all[i] == x;
        assert i >= k && all[k..][i - k] == x;
      }
      if x in all[k..] {
        var i :| 0 <= i < |all[k..]| && all[k..][i] == x;
        assert all[k + i] == x && x in all;
      }
    }
    DescendingLists(below);
    ListingIsUnique(Descending(below), all[k..], below);
  }

  /** max(1, ceil(n / limit)) */
  function PageCount(n: nat, limit: nat): nat
    requires limit > 0
  {
    if n <= limit then 1 else 1 + PageCount(n - limit, limit)
  }

  lemma {:induction false} PageCountIsCeiling(n: nat, limit: nat)
    requires limit > 0
    ensures n == 0 ==> PageCount(n, limit) == 1
    ensures n > 0 ==> (PageCount(n, limit) - 1) * limit < n <= PageCount(n, limit) * limit
    decreases n
  {
    if n > limit {
      PageCountIsCeiling(n - limit, limit);
    }
  }

  /** On a table that does not change, the pages are the whole sorted list, in the least number of requests. */
  lemma {:induction false} UnchangedTableIsListed(
    tables: seq<set<nat>>, table: set<nat>, cursor: Option<int>, limit: nat)
    requires limit > 0 && |tables| >= PageCount(|Below(table, cursor)|, limit)
    requires forall i | 0 <= i < |tables| :: tables[i] == table
    ensures
      Follow(tables, cursor, limit)
      == Walk(Descending(Below(table, cursor)), PageCount(|Below(table, cursor)|, limit), true)
    decreases |tables|
  {
    if |Below(table, cursor)| > limit {
      var cut := FirstCut(table, cursor, limit);
      LaterTablesListed(tables, table, cursor, cut, limit);
      UnchangedTableIsListed(tables[1..], table, cut, limit);
      ListedOnward(tables, table, cursor, cut, limit);
    } else {
      FirstPage(table, cursor, limit);
      OnlyPage(tables, cursor, limit, Descending(Below(table, cursor)));
    }
  }

  /** Where the second page starts. */
  lemma FirstCut(table: set<nat>, cursor: Option<int>, limit: nat) returns (cut: Option<int>)
    requires limit > 0 && |Below(table, cursor)| > limit
    ensures
      var all := Descending(Below(table, cursor));
      |all| > limit && cut == Some(all[limit - 1])
    ensures |Below(table, cut)| == |Below(table, cursor)| - limit
  {
    FirstPage(table, cursor, limit);
    cut := Some(Descending(Below(table, cursor))[limit - 1]);
  }

  lemma ListedOnward(tables: seq<set<nat>>, table: set<nat>, cursor: Option<int>, cut: Option<int>, limit: nat)
    requires limit > 0 && tables != [] && tables[0] == table && |Below(table, cursor)| > limit
    requires
      var all := Descending(Below(table, cursor));
      |all| > limit && cut == Some(all[limit - 1])
    requires Follow(tables[1..], cut, limit)
          == Walk(Descending(Below(table, cut)), PageCount(|Below(table, cut)|, limit), true)
    ensures Follow(tables, cursor, limit)
         == Walk(Descending(Below(table, cursor)), 1 + PageCount(|Below(table, cut)|, limit), true)
  {
    FirstPage(table, cursor, limit);
    FirstPageAndLater(
      tables, cursor, cut, limit, Descending(Below(table, cursor)), PageCount(|Below(table, cut)|, limit));
  }

  lemma OnlyPage(tables: seq<set<nat>>, cursor: Option<int>, limit: nat, all: seq<nat>)
    requires limit > 0 && tables != [] && PageAt(tables[0], cursor, limit) == PageOf(all, limit) && |all| <= limit
    ensures Follow(tables, cursor, limit) == Walk(all, PageCount(|all|, limit), true)
  {
    WalkFromFirstPage(tables, cursor, limit, all);
  }

  lemma FirstPageAndLater(
    tables: seq<set<nat>>, cursor: Option<int>, cut: Option<int>, limit: nat, all: seq<nat>, pages: nat)
    requires limit > 0 && tables != [] && PageAt(tables[0], cursor, limit) == PageOf(all, limit)
    requires |all| > limit && cut == Some(all[limit - 1])
    requires Follow(tables[1..], cut, limit) == Walk(all[limit..], pages, true)
    ensures Follow(tables, cursor, limit) == Walk(all, pages + 1, true)
  {
    WalkFromFirstPage(tables, cursor, limit, all);
    LaterPages(all, limit, pages, Follow(tables[1..], cut, limit));
  }

  /** There are enough requests left for the rows behind the first page. */
  lemma LaterTablesListed(tables: seq<set<nat>>, table: set<nat>, cursor: Option<int>, cut: Option<int>, limit: nat)
    requires limit > 0 && |tables| >= PageCount(|Below(table, cursor)|, limit) && |Below(table, cursor)| > limit
    requires |Below(table, cut)| == |Below(table, cursor)| - limit
    requires forall i | 0 <= i < |tables| :: tables[i] == table
    ensures |tables[1..]| >= PageCount(|Below(table, cut)|, limit)
    ensures forall i | 0 <= i < |tables[1..]| :: tables[1..][i] == table
  {
  }

  lemma LaterPages(all: seq<nat>, limit: nat, pages: nat, rest: Walk)
    requires limit < |all| && rest == Walk(all[limit..], pages, true)
    ensures Walk(all[..limit] + rest.items, rest.pages + 1, rest.completed) == Walk(all, pages + 1, true)
  {
    assert all == all[..limit] + all[limit..];
  }

  /** A walk whose first page is cut from the listing `all`. */
  lemma WalkFromFirstPage(tables: seq<set<nat>>, cursor: Option<int>, limit: nat, all: seq<nat>)
    requires limit > 0 && tables != [] && PageAt(tables[0], cursor, limit) == PageOf(all, limit)
    ensures |all| <= limit ==> Follow(tables, cursor, limit) == Walk(all, 1, true)
    ensures |all| > limit ==>
      var rest := Follow(tables[1..], Some(all[limit - 1]), limit);
      Follow(tables, cursor, limit) == Walk(all[..limit] + rest.items, rest.pages + 1, rest.completed)
  {
  }

  /** The first page of a table, and what the second starts from. */
  lemma FirstPage(table: set<nat>, cursor: Option<int>, limit: nat)
    requires limit > 0
    ensures
      var rows := Below(table, cursor);
      var all := Descending(rows);
      && |all| == |rows| && PageAt(table, cursor, limit) == PageOf(all, limit)
      && (|all| > limit ==>
            var rest := Below(table, Some(all[limit - 1]));
            Descending(rest) == all[limit..] && |rest| == |rows| - limit)
  {
    var rows := Below(table, cursor);
    var all := Descending(rows);
    DescendingLists(rows);
    PageAtCoversTop(table, cursor, limit);
    if |all| > limit {
      var rest := Below(table, Some(all[limit - 1]));
      assert all[limit - 1] in all;
      BelowLastIsRest(all, rows, rest, limit);
      DescendingLists(rest);
    }
  }
}
