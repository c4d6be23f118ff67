/**
 * Paging and the cursor text together (internal/handler/pagination.go and the List handlers): a client
 * that sends back each next_cursor it is given walks over the rows as if it sent back their sort keys.
 */
module CursorWalk {
  import opened Prelude
  import opened CursorCodec
  import opened KeysetPaging

  // ---------------------------------------------------------------- The sort keys of rows

  /** A UUID as the unsigned number it is compared as. */
  function Number(id: seq<int>): int {
    if id == [] then 0 else Number(id[..|id| - 1]) * 256 + id[|id| - 1]
  }

  function Power(n: nat): nat { if n == 0 then 1 else 256 * Power(n - 1) }

  lemma {:induction false} NumberIsBounded(id: seq<int>)
    requires Octets(id)
    ensures 0 <= Number(id) < Power(|id|)
  {
    if id != [] {
      NumberIsBounded(id[..|id| - 1]);
    }
  }

  lemma {:induction false} NumberIsInjective(id: seq<int>, id2: seq<int>)
    requires Octets(id) && Octets(id2) && |id| == |id2| && Number(id) == Number(id2)
    ensures id == id2
  {
    if id != [] {
      var n := |id| - 1;
      assert id[n] == id2[n];
      NumberIsInjective(id[..n], id2[..n]);
      assert id == id[..n] + [id[n]] && id2 == id2[..n] + [id2[n]];
    }
  }

  lemma IdFits(id: seq<int>)
    requires ValidUUID(id)
    ensures 0 <= Number(id) < ID_SPACE
  {
    NumberIsBounded(id);
    assert Power(4) == 0x1_0000_0000;
    assert Power(8) == 256 * (256 * (256 * (256 * Power(4))));
    assert Power(12) == 256 * (256 * (256 * (256 * Power(8))));
    assert Power(16) == 256 * (256 * (256 * (256 * Power(12))));
  }

  /** The instants that the database gives the civil times of the rows. */
  type Instants = Stamp -> nat

  /** The sort key of a row, as one integer. */
  function RankOf(at: Instants, row: Cursor): nat
    requires ValidCursor(row)
  {
    IdFits(row.id);
    Rank(Key(at(row.createdAt), Number(row.id)))
  }

  /** The table: rows with identifiers of their own. */
  ghost predicate IsTable(rows: set<Cursor>) {
    && (forall row | row in rows :: ValidCursor(row))
    && (forall r1, r2 | r1 in rows && r2 in rows && r1.id == r2.id :: r1 == r2)
  }

  ghost function Ranks(at: Instants, rows: set<Cursor>): set<nat>
    requires IsTable(rows)
  {
    set row | row in rows :: RankOf(at, row)
  }

  // ---------------------------------------------------------------- One request

  ghost function RowWith(at: Instants, rows: set<Cursor>, rank: nat): (row: Cursor)
    requires IsTable(rows) && rank in Ranks(at, rows)
    ensures row in rows && RankOf(at, row) == rank
  {
    var row :| row in rows && RankOf(at, row) == rank;
    row
  }

  /** The rows with these ranks, in this order. */
  ghost function RowsWith(at: Instants, rows: set<Cursor>, ranks: seq<nat>): seq<Cursor>
    requires IsTable(rows) && forall i | 0 <= i < |ranks| :: ranks[i] in Ranks(at, rows)
  {
    seq(|ranks|, i requires 0 <= i < |ranks| => RowWith(at, rows, ranks[i]))
  }

  /** What parsePagination makes of the cursor parameter: an error, no cursor, or a position. */
  function Position(text: string): Option<Option<Cursor>> {
    if text == "" || text == "0" then Some(None)
    else
      var c := DecodeCursor(text);
      if c.None? then None else Some(c)
  }

  /** The position is that of some valid row; it need not be in the table any more. */
  predicate IsPosition(position: Option<Cursor>) {
    position.Some? ==> ValidCursor(position.value)
  }

  function PositionRank(at: Instants, position: Option<Cursor>): Option<int>
    requires IsPosition(position)
  {
    if position.Some? then Some(RankOf(at, position.value)) else None
  }

  /** The rows of one response, and its next_cursor. */
  datatype TextPage = TextPage(items: seq<Cursor>, next: Option<string>)

  lemma FetchedAreRows(table: set<nat>, cursor: Option<int>, limit: nat, i: nat)
    requires i < |Fetch(table, cursor, limit)|
    ensures Fetch(table, cursor, limit)[i] in table
  {
    var rows := Below(table, cursor);
    DescendingLists(rows);
    assert Descending(rows)[i] in Descending(rows);
  }

  predicate AllValid(rows: seq<Cursor>) { forall i | 0 <= i < |rows| :: ValidCursor(rows[i]) }

  function RanksOf(at: Instants, rows: seq<Cursor>): seq<nat>
    requires AllValid(rows)
  {
    seq(|rows|, i requires 0 <= i < |rows| => RankOf(at, rows[i]))
  }

  /** What the query of applyPagination finds. */
  ghost function Found(at: Instants, rows: set<Cursor>, position: Option<Cursor>, limit: nat): seq<Cursor>
    requires IsTable(rows) && IsPosition(position)
  {
    var ranks := Fetch(Ranks(at, rows), PositionRank(at, position), limit);
    assert forall i | 0 <= i < |ranks| :: ranks[i] in Ranks(at, rows) by {
      forall i | 0 <= i < |ranks| ensures ranks[i] in Ranks(at, rows) {
        FetchedAreRows(Ranks(at, rows), PositionRank(at, position), limit, i);
      }
    }
    RowsWith(at, rows, ranks)
  }

  lemma FoundRows(at: Instants, rows: set<Cursor>, position: Option<Cursor>, limit: nat)
    requires IsTable(rows) && IsPosition(position)
    ensures
      var found := Found(at, rows, position, limit);
      && (forall i | 0 <= i < |found| :: found[i] in rows) && AllValid(found)
      && RanksOf(at, found) == Fetch(Ranks(at, rows), PositionRank(at, position), limit)
  {
  }

  /** What the List handler makes of it. */
  function TextPageOf(found: seq<Cursor>, limit: nat): TextPage
    requires limit > 0 && AllValid(found)
  {
    if |found| > limit then TextPage(found[..limit], Some(EncodeCursor(found[limit - 1]))) else TextPage(found, None)
  }

  /** The text leads back to the position. */
  predicate LeadsTo(at: Instants, text: string, rank: int) {
    && text != "" && Position(text).Some? && Position(text).value.Some? && IsPosition(Position(text).value)
    && PositionRank(at, Position(text).value) == Some(rank)
  }

  lemma EncodedLeadsBack(at: Instants, row: Cursor)
    requires ValidCursor(row)
    ensures LeadsTo(at, EncodeCursor(row), RankOf(at, row))
  {
    CursorRoundTrip(row);
  }

  /** The response shows the page, and its text leads back to the page's cursor. */
  predicate Shows(at: Instants, response: TextPage, page: Page<nat>) {
    && AllValid(response.items) && RanksOf(at, response.items) == page.items
    && (response.next.Some? <==> page.next.Some?)
    && (response.next.Some? ==> LeadsTo(at, response.next.value, page.next.value))
  }

  lemma TextPageShows(at: Instants, found: seq<Cursor>, limit: nat)
    requires limit > 0 && AllValid(found)
    ensures Shows(at, TextPageOf(found, limit), PageOf(RanksOf(at, found), limit))
  {
    if |found| > limit {
      EncodedLeadsBack(at, found[limit - 1]);
      CutPageShows(at, found, limit, EncodeCursor(found[limit - 1]));
    }
  }

  lemma CutPageShows(at: Instants, found: seq<Cursor>, limit: nat, text: string)
    requires 0 < limit < |found| && AllValid(found) && LeadsTo(at, text, RankOf(at, found[limit - 1]))
    ensures Shows(at, TextPage(found[..limit], Some(text)), PageOf(RanksOf(at, found), limit))
  {
    CutRanks(at, found, limit);
  }

  lemma CutRanks(at: Instants, found: seq<Cursor>, limit: nat)
    requires limit <= |found| && AllValid(found)
    ensures AllValid(found[..limit]) && RanksOf(at, found[..limit]) == RanksOf(at, found)[..limit]
  {
  }

  /** applyPagination, then the List handler. */
  ghost function Respond(at: Instants, rows: set<Cursor>, position: Option<Cursor>, limit: nat): TextPage
    requires IsTable(rows) && IsPosition(position) && limit > 0
  {
    FoundRows(at, rows, position, limit);
    TextPageOf(Found(at, rows, position, limit), limit)
  }

  /** A response shows the page of ranks. */
  lemma ResponseIsPage(at: Instants, rows: set<Cursor>, position: Option<Cursor>, limit: nat)
    requires IsTable(rows) && IsPosition(position) && limit > 0
    ensures
      var response := Respond(at, rows, position, limit);
      && (forall i | 0 <= i < |response.items| :: response.items[i] in rows)
      && Shows(at, response, PageAt(Ranks(at, rows), PositionRank(at, position), limit))
  {
    FoundRows(at, rows, position, limit);
    TextPageShows(at, Found(at, rows, position, limit), limit);
  }

  // ---------------------------------------------------------------- The walk through the text

  datatype TextWalk = TextWalk(items: seq<Cursor>, pages: nat, completed: bool, rejected: bool)

  /** A client sends back each next_cursor; the table may change in between. */
  ghost function FollowText(at: Instants, tables: seq<set<Cursor>>, text: string, limit: nat): TextWalk
    requires limit > 0 && forall i | 0 <= i < |tables| :: IsTable(tables[i])
    decreases |tables|
  {
    if tables == [] then TextWalk([], 0, false, false)
    else if Position(text).None? || !IsPosition(Position(text).value) then TextWalk([], 0, false, true)
    else
      var response := Respond(at, tables[0], Position(text).value, limit);
      if response.next.None? then TextWalk(response.items, 1, true, false)
      else
        var rest := FollowText(at, tables[1..], response.next.value, limit);
        TextWalk(response.items + rest.items, rest.pages + 1, rest.completed, rest.rejected)
  }

  ghost function AllRanks(at: Instants, tables: seq<set<Cursor>>): seq<set<nat>>
    requires forall i | 0 <= i < |tables| :: IsTable(tables[i])
  {
    seq(|tables|, i requires 0 <= i < |tables| => Ranks(at, tables[i]))
  }

  lemma RanksOfConcat(at: Instants, r: seq<Cursor>, t: seq<Cursor>)
    requires AllValid(r) && AllValid(t)
    ensures AllValid(r + t)
    ensures RanksOf(at, r + t) == RanksOf(at, r) + RanksOf(at, t)
  {
  }

  /** Main theorem: no cursor is ever rejected, and the walk through the texts shows, page by page, the
      rows of the walk over the sort keys, so that everything proved of that one holds of it. */
  lemma {:induction false} TextWalkIsWalk(at: Instants, tables: seq<set<Cursor>>, text: string, limit: nat)
    requires limit > 0 && forall i | 0 <= i < |tables| :: IsTable(tables[i])
    requires Position(text).Some? && IsPosition(Position(text).value)
    ensures
      var walk := FollowText(at, tables, text, limit);
      && !walk.rejected && AllValid(walk.items)
      && Walk(RanksOf(at, walk.items), walk.pages, walk.completed)
         == Follow(AllRanks(at, tables), PositionRank(at, Position(text).value), limit)
    decreases |tables|
  {
    if tables != [] {
      var position := Position(text).value;
      var response := Respond(at, tables[0], position, limit);
      ResponseIsPage(at, tables[0], position, limit);
      assert AllRanks(at, tables)[1..] == AllRanks(at, tables[1..]);
      if response.next.Some? {
        TextWalkIsWalk(at, tables[1..], response.next.value, limit);
        PagesGoOn(at, AllRanks(at, tables), PositionRank(at, position), limit, response,
                  FollowText(at, tables[1..], response.next.value, limit));
      }
    }
  }

  /** One more page in front of a walk. */
  lemma PagesGoOn(
    at: Instants, tables: seq<set<nat>>, cursor: Option<int>, limit: nat, response: TextPage, rest: TextWalk)
    requires limit > 0 && tables != [] && Shows(at, response, PageAt(tables[0], cursor, limit)) && response.next.Some?
    requires AllValid(rest.items)
    requires Walk(RanksOf(at, rest.items), rest.pages, rest.completed)
          == Follow(tables[1..], PageAt(tables[0], cursor, limit).next, limit)
    ensures AllValid(response.items + rest.items)
    ensures Walk(RanksOf(at, response.items + rest.items), rest.pages + 1, rest.completed)
         == Follow(tables, cursor, limit)
  {
    RanksOfConcat(at, response.items, rest.items);
  }

  /** From the first request on: no row comes twice, however the table changes. */
  lemma TextWalkNeverRepeats(at: Instants, tables: seq<set<Cursor>>, limit: nat, i: nat, j: nat)
    requires limit > 0 && forall k | 0 <= k < |tables| :: IsTable(tables[k])
    requires i < j < |FollowText(at, tables, "", limit).items|
    ensures FollowText(at, tables, "", limit).items[i] != FollowText(at, tables, "", limit).items[j]
  {
    TextWalkIsWalk(at, tables, "", limit);
    WalkNeverRepeats(AllRanks(at, tables), None, limit);
    var items := FollowText(at, tables, "", limit).items;
    assert RanksOf(at, items)[i] > RanksOf(at, items)[j];
  }

  /** The row with this identifier is among those shown. */
  ghost predicate Listed(rows: seq<Cursor>, row: Cursor) {
    exists i :: 0 <= i < |rows| && rows[i].id == row.id
  }

  /** A completed walk shows every row that was there throughout. */
  lemma CompletedTextWalkMissesNothing(at: Instants, tables: seq<set<Cursor>>, limit: nat, row: Cursor)
    requires limit > 0 && forall i | 0 <= i < |tables| :: IsTable(tables[i]) && row in tables[i]
    requires FollowText(at, tables, "", limit).completed
    ensures Listed(FollowText(at, tables, "", limit).items, row)
  {
    var items := FollowText(at, tables, "", limit).items;
    TextWalkIsWalk(at, tables, "", limit);
    assert row in tables[0];
    CompletedWalkMissesNothing(AllRanks(at, tables), None, limit, RankOf(at, row));
    assert RankOf(at, row) in RanksOf(at, items);
    var i :| 0 <= i < |items| && RanksOf(at, items)[i] == RankOf(at, row);
    SameRankSameId(at, items[i], row);
  }

  lemma SameRankSameId(at: Instants, r1: Cursor, r2: Cursor)
    requires ValidCursor(r1) && ValidCursor(r2) && RankOf(at, r1) == RankOf(at, r2)
    ensures r1.id == r2.id
  {
    IdFits(r1.id);
    IdFits(r2.id);
    RankPreservesOrder(Key(at(r1.createdAt), Number(r1.id)), Key(at(r2.createdAt), Number(r2.id)));
    NumberIsInjective(r1.id, r2.id);
  }
}
