/** One page of a client's trade history, newest first. */
module TradeHistory {
  import opened Schema

  /** The columns the page is ordered and filtered by; timestamps have microseconds. */
  datatype Row = Row(clientId: ClientId, createdAtMicros: int, id: nat)

  /** What a cursor carries: the row's timestamp as a Date, so in whole milliseconds, and its id. */
  datatype Cursor = Cursor(createdAtMs: int, id: nat)

  datatype CursorText = Absent | Encoded(cursor: Cursor) | Malformed

  datatype Page = Page(trades: seq<Row>, nextCursor: Option<Cursor>)
  datatype Response = Ok(page: Page) | BadRequest

  // ---- Order ----

  /** (createdAt, id) of a before that of b. */
  predicate Older(a: Row, b: Row) {
    a.createdAtMicros < b.createdAtMicros || (a.createdAtMicros == b.createdAtMicros && a.id < b.id)
  }

  function CursorOf(r: Row): Cursor {
    Cursor(r.createdAtMicros / 1000, r.id)
  }

  /** (createdAt, id) < (cursor.createdAt, cursor.id). */
  predicate Below(r: Row, c: Cursor) {
    r.createdAtMicros < c.createdAtMs * 1000 || (r.createdAtMicros == c.createdAtMs * 1000 && r.id < c.id)
  }

  predicate NewestFirst(rows: seq<Row>) {
    forall i, j :: 0 <= i < j < |rows| ==> Older(rows[j], rows[i])
  }

  /** The primary key. */
  predicate Keyed(table: seq<Row>) {
    forall i, j :: 0 <= i < j < |table| ==> table[i].id != table[j].id
  }

  // ---- The query ----

  datatype Condition = OwnedBy(clientId: ClientId) | OlderThan(cursor: Cursor)

  predicate Holds(c: Condition, r: Row) {
    match c
    case OwnedBy(clientId) => r.clientId == clientId
    case OlderThan(cursor) => Below(r, cursor)
  }

  predicate Meets(r: Row, conditions: seq<Condition>) {
    forall i :: 0 <= i < |conditions| ==> Holds(conditions[i], r)
  }

  function Where(table: seq<Row>, conditions: seq<Condition>): seq<Row> {
    if table == [] then []
    else
      var last := table[|table| - 1];
      Where(table[..|table| - 1], conditions) + if Meets(last, conditions) then [last] else []
  }

  function Place(r: Row, rows: seq<Row>): seq<Row> {
    if rows == [] || Older(rows[0], r) then [r] + rows else [rows[0]] + Place(r, rows[1..])
  }

  /** ORDER BY created_at DESC, id DESC. */
  function OrderByNewest(rows: seq<Row>): seq<Row> {
    if rows == [] then [] else Place(rows[|rows| - 1], OrderByNewest(rows[..|rows| - 1]))
  }

  function Limit(rows: seq<Row>, n: nat): seq<Row> {
    if |rows| <= n then rows else rows[..n]
  }

  lemma {:induction false} WhereSelects(table: seq<Row>, conditions: seq<Condition>)
    ensures forall r :: r in Where(table, conditions) <==> r in table && Meets(r, conditions)
    ensures Keyed(table) ==> Keyed(Where(table, conditions))
  {
    if table != [] {
      var before := table[..|table| - 1];
      WhereSelects(before, conditions);
      assert table == before + [table[|table| - 1]];
      if Keyed(table) {
        forall r | r in Where(before, conditions) ensures r.id != table[|table| - 1].id {
          var k :| 0 <= k < |before| && before[k] == r;
        }
      }
    }
  }

  lemma {:induction false} PlaceKeepsOrder(r: Row, rows: seq<Row>)
    requires NewestFirst(rows) && forall x :: x in rows ==> x.id != r.id
    ensures NewestFirst(Place(r, rows))
    ensures forall x :: x in Place(r, rows) <==> x == r || x in rows
  {
    if rows != [] && !Older(rows[0], r) {
      PlaceKeepsOrder(r, rows[1..]);
      assert rows == [rows[0]] + rows[1..];
      var rest := Place(r, rows[1..]);
      forall j | 0 <= j < |rest| ensures Older(rest[j], rows[0]) {
        assert rest[j] in rest && rows[0] in rows;
        if rest[j] != r {
          var k :| 0 <= k < |rows[1..]| && rows[1..][k] == rest[j];
          assert rows[k + 1] == rest[j];
        }
      }
    }
  }

  lemma {:induction false} OrderSorts(rows: seq<Row>)
    requires Keyed(rows)
    ensures NewestFirst(OrderByNewest(rows))
    ensures forall x :: x in OrderByNewest(rows) <==> x in rows
  {
    if rows != [] {
      var before := rows[..|rows| - 1];
      OrderSorts(before);
      assert rows == before + [rows[|rows| - 1]];
      PlaceKeepsOrder(rows[|rows| - 1], OrderByNewest(before));
    }
  }

  // ---- The page ----

  predicate Wanted(r: Row, clientId: ClientId, after: Option<Cursor>) {
    r.clientId == clientId && (after.Some? ==> Below(r, after.value))
  }

  /**
   * The page is the newest wanted rows, newest first; there is a next cursor exactly
   * when a wanted row is left over, and it then points at the last row of a full page.
   */
  predicate IsPage(table: seq<Row>, clientId: ClientId, after: Option<Cursor>, limit: nat, page: Page) {
    && NewestFirst(page.trades) && |page.trades| <= limit
    && (forall r :: r in page.trades ==> r in table && Wanted(r, clientId, after))
    && (page.nextCursor.Some? <==> exists r :: r in table && Wanted(r, clientId, after) && r !in page.trades)
    && (page.nextCursor.Some? ==>
          && |page.trades| == limit && limit > 0
          && page.nextCursor.value == CursorOf(page.trades[limit - 1])
          && forall r :: r in table && Wanted(r, clientId, after) && r !in page.trades ==>
               Older(r, page.trades[limit - 1]))
  }

  function ConditionsFor(clientId: ClientId, after: Option<Cursor>): seq<Condition> {
    if after.Some? then [OwnedBy(clientId), OlderThan(after.value)] else [OwnedBy(clientId)]
  }

  lemma WhatIsAsked(table: seq<Row>, clientId: ClientId, after: Option<Cursor>)
    requires Keyed(table)
    ensures var rows := OrderByNewest(Where(table, ConditionsFor(clientId, after)));
      NewestFirst(rows) && forall r :: r in rows <==> r in table && Wanted(r, clientId, after)
  {
    var conditions := ConditionsFor(clientId, after);
    WhereSelects(table, conditions);
    OrderSorts(Where(table, conditions));
    forall r ensures Meets(r, conditions) <==> Wanted(r, clientId, after) {
      assert Holds(conditions[0], r) <==> r.clientId == clientId;
      if after.Some? { assert Holds(conditions[1], r) <==> Below(r, after.value); }
    }
  }

  /** The first rows, and a cursor when that leaves some out. */
  function Cut(rows: seq<Row>, limit: nat): Page
    requires limit > 0
  {
    if |rows| > limit then Page(rows[..limit], Some(CursorOf(rows[limit - 1]))) else Page(rows, None)
  }

  lemma PageOfSorted(table: seq<Row>, clientId: ClientId, after: Option<Cursor>, limit: nat, rows: seq<Row>)
    requires limit > 0 && NewestFirst(rows) && forall r :: r in rows <==> r in table && Wanted(r, clientId, after)
    ensures IsPage(table, clientId, after, limit, Cut(rows, limit))
  {
    if |rows| > limit {
      var page := rows[..limit];
      assert rows[limit] in rows && rows[limit] !in page;
      assert forall i :: 0 <= i < limit ==> page[i] == rows[i] && rows[i] in page;
      forall r | r in table && Wanted(r, clientId, after) && r !in page ensures Older(r, page[limit - 1]) {
        assert r in rows;
        var k :| 0 <= k < |rows| && rows[k] == r;
      }
    }
  }

  lemma QueryGivesPage(table: seq<Row>, clientId: ClientId, after: Option<Cursor>, limit: nat)
    requires Keyed(table) && limit > 0
    ensures IsPage(table, clientId, after, limit, Cut(OrderByNewest(Where(table, ConditionsFor(clientId, after))), limit))
  {
    WhatIsAsked(table, clientId, after);
    PageOfSorted(table, clientId, after, limit, OrderByNewest(Where(table, ConditionsFor(clientId, after))));
  }

  /** TradesService.getTradeHistory. */
  method GetTradeHistory(table: seq<Row>, clientId: ClientId, limit: nat, cursor: CursorText) returns (response: Response)
    requires Keyed(table) && limit >= 1
    ensures cursor.Malformed? <==> response.BadRequest?
    ensures cursor.Absent? ==> IsPage(table, clientId, None, limit, response.page)
    ensures cursor.Encoded? ==> IsPage(table, clientId, Some(cursor.cursor), limit, response.page)
  {
    var conditions := [OwnedBy(clientId)];
    if !cursor.Absent? {
      if cursor.Malformed? {
        return BadRequest;
      }
      conditions := conditions + [OlderThan(cursor.cursor)];
    }
    var rows := Limit(OrderByNewest(Where(table, conditions)), limit + 1);
    var hasMore := |rows| > limit;
    var page := if hasMore then rows[..limit] else rows;
    response := Ok(Page(page, if hasMore then Some(CursorOf(page[|page| - 1])) else None));
    ghost var after := if cursor.Absent? then None else Some(cursor.cursor);
    assert conditions == ConditionsFor(clientId, after);
    assert response.page == Cut(OrderByNewest(Where(table, conditions)), limit);
    QueryGivesPage(table, clientId, after, limit);
  }

  /** Two pages that answer the same request are the same page. */
  lemma PageIsUnique(table: seq<Row>, clientId: ClientId, after: Option<Cursor>, limit: nat, p: Page, q: Page)
    requires IsPage(table, clientId, after, limit, p) && IsPage(table, clientId, after, limit, q)
    ensures p == q
  {
    SameRows(table, clientId, after, limit, p, q);
    SameRows(table, clientId, after, limit, q, p);
    SameOrder(p.trades, q.trades);
  }

  lemma SameRows(table: seq<Row>, clientId: ClientId, after: Option<Cursor>, limit: nat, p: Page, q: Page)
    requires IsPage(table, clientId, after, limit, p) && IsPage(table, clientId, after, limit, q)
    ensures forall r :: r in p.trades ==> r in q.trades
  {
    forall r | r in p.trades ensures r in q.trades {
      if r !in q.trades {
        var i :| 0 <= i < |p.trades| && p.trades[i] == r;
        // q is full and all of q is newer than r, so q and r make one row more than p can hold.
        forall x | x in q.trades ensures x in p.trades[..i] {
          var k :| 0 <= k < |q.trades| && q.trades[k] == x;
          assert Older(r, x);
          if x in p.trades {
            var j :| 0 <= j < |p.trades| && p.trades[j] == x;
            assert j < i;
            assert p.trades[..i][j] == x;
          } else {
            assert false;
          }
        }
        NoLonger(q.trades, p.trades[..i]);
      }
    }
  }

  lemma {:induction false} DistinctRows(rows: seq<Row>)
    requires NewestFirst(rows)
    ensures |set r | r in rows| == |rows|
  {
    if rows != [] {
      var rest := rows[..|rows| - 1];
      DistinctRows(rest);
      assert rows == rest + [rows[|rows| - 1]];
      assert (set r | r in rows) == (set r | r in rest) + {rows[|rows| - 1]};
    }
  }

  lemma {:induction false} AtMostLength(rows: seq<Row>)
    ensures |set r | r in rows| <= |rows|
  {
    if rows != [] {
      var rest := rows[..|rows| - 1];
      AtMostLength(rest);
      assert rows == rest + [rows[|rows| - 1]];
      assert (set r | r in rows) == (set r | r in rest) + {rows[|rows| - 1]};
    }
  }

  lemma SubsetIsSmaller(a: set<Row>, b: set<Row>)
    requires a <= b
    ensures |a| <= |b|
  {
    assert b == a + (b - a);
  }

  /** Rows in strict order that all occur in another list are no more than that list has. */
  lemma NoLonger(rows: seq<Row>, among: seq<Row>)
    requires NewestFirst(rows) && forall r :: r in rows ==> r in among
    ensures |rows| <= |among|
  {
    DistinctRows(rows);
    AtMostLength(among);
    SubsetIsSmaller(set r | r in rows, set r | r in among);
  }

  lemma TailRows(a: seq<Row>, b: seq<Row>)
    requires NewestFirst(a) && a != [] && b != [] && a[0] == b[0] && forall r :: r in a ==> r in b
    ensures forall r :: r in a[1..] ==> r in b[1..]
  {
    forall r | r in a[1..] ensures r in b[1..] {
      var k :| 0 <= k < |a[1..]| && a[1..][k] == r;
      assert Older(a[k + 1], a[0]) && a[k + 1] in a;
      assert b == [b[0]] + b[1..];
    }
  }

  lemma {:induction false} SameOrder(a: seq<Row>, b: seq<Row>)
    requires NewestFirst(a) && NewestFirst(b) && forall r :: r in a <==> r in b
    ensures a == b
  {
    assert a != [] ==> a[0] in a && a[0] in b;
    assert b != [] ==> b[0] in b && b[0] in a;
    if a != [] {
      var i :| 0 <= i < |b| && b[i] == a[0];
      var j :| 0 <= j < |a| && a[j] == b[0];
      assert a[0] == b[0];
      TailRows(a, b);
      TailRows(b, a);
      SameOrder(a[1..], b[1..]);
      assert a == [a[0]] + a[1..] && b == [b[0]] + b[1..];
    }
  }
}
