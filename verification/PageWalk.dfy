/**
 * Following nextCursor from page to page while trades are being added: what the
 * walk shows, what it can miss, and that it ends.
 */
module PageWalk {
  import opened Schema
  import opened TradeHistory

  /** The table and the limit a page was fetched with. */
  datatype Fetch = Fetch(table: seq<Row>, limit: nat)

  /** Rows are only ever added; (created_at, id) may come to stand anywhere. */
  predicate AppendOnly(fetches: seq<Fetch>) {
    && (forall i :: 0 <= i < |fetches| ==> Keyed(fetches[i].table) && fetches[i].limit > 0)
    && (forall i, j :: 0 <= i <= j < |fetches| ==> forall r :: r in fetches[i].table ==> r in fetches[j].table)
  }

  /** The cursor the k-th page was asked for with. */
  function CursorFor(pages: seq<Page>, k: nat): Option<Cursor>
    requires k <= |pages|
  {
    if k == 0 then None else pages[k - 1].nextCursor
  }

  predicate PageAt(clientId: ClientId, fetches: seq<Fetch>, pages: seq<Page>, k: int)
    requires 0 <= k < |pages| && |pages| == |fetches|
  {
    IsPage(fetches[k].table, clientId, CursorFor(pages, k), fetches[k].limit, pages[k])
  }

  /** The pages a client gets by following nextCursor, one fetch each. */
  predicate Walk(clientId: ClientId, fetches: seq<Fetch>, pages: seq<Page>) {
    && AppendOnly(fetches) && |pages| == |fetches| > 0
    && (forall k {:trigger PageAt(clientId, fetches, pages, k)} :: 0 <= k < |pages| ==> PageAt(clientId, fetches, pages, k))
    && (forall k :: 0 <= k < |pages| - 1 ==> pages[k].nextCursor.Some?)
  }

  predicate Ended(pages: seq<Page>) {
    pages != [] && pages[|pages| - 1].nextCursor.None?
  }

  /** Everything the walk has shown, in the order shown. */
  function Shown(pages: seq<Page>): seq<Row> {
    if pages == [] then [] else Shown(pages[..|pages| - 1]) + pages[|pages| - 1].trades
  }

  function LastRow(page: Page): Row
    requires page.trades != []
  {
    page.trades[|page.trades| - 1]
  }

  // ---- Cursors ----

  /** A truncated cursor never lets a row through that is not older than the row it was made from. */
  lemma BelowIsOlder(r: Row, last: Row)
    requires Below(r, CursorOf(last))
    ensures Older(r, last)
  {
  }

  /** Older than the row the cursor was made from, and still not below the cursor. */
  predicate LostAt(r: Row, last: Row) {
    Older(r, last) && !Below(r, CursorOf(last))
  }

  /** What truncation loses: rows of the same millisecond as a row that is not on the millisecond. */
  lemma LostIsSameMillisecond(r: Row, last: Row)
    ensures LostAt(r, last) <==>
      && Older(r, last) && last.createdAtMicros % 1000 != 0
      && r.createdAtMicros / 1000 == last.createdAtMicros / 1000
      && (r.createdAtMicros % 1000 == 0 ==> r.id >= last.id)
  {
  }

  lemma BelowOlder(r: Row, s: Row, c: Cursor)
    requires Older(r, s) && Below(s, c)
    ensures Below(r, c)
  {
  }

  // ---- No repeats ----

  lemma NextPageIsBelow(clientId: ClientId, fetches: seq<Fetch>, pages: seq<Page>, k: nat, r: Row)
    requires Walk(clientId, fetches, pages) && 0 < k < |pages| && r in pages[k].trades
    ensures pages[k - 1].trades != [] && Below(r, CursorOf(LastRow(pages[k - 1])))
  {
    assert PageAt(clientId, fetches, pages, k);
    assert PageAt(clientId, fetches, pages, k - 1);
  }

  /** Everything shown after a page is below that page's cursor. */
  lemma {:induction false} LaterIsBelow(clientId: ClientId, fetches: seq<Fetch>, pages: seq<Page>, i: nat, j: nat, r: Row)
    requires Walk(clientId, fetches, pages) && i < j < |pages| && r in pages[j].trades
    ensures pages[i].trades != [] && Below(r, CursorOf(LastRow(pages[i])))
    decreases j
  {
    NextPageIsBelow(clientId, fetches, pages, j, r);
    if i < j - 1 {
      var last := LastRow(pages[j - 1]);
      LaterIsBelow(clientId, fetches, pages, i, j - 1, last);
      BelowIsOlder(r, last);
      BelowOlder(r, last, CursorOf(LastRow(pages[i])));
    }
  }

  lemma PageDescends(clientId: ClientId, fetches: seq<Fetch>, pages: seq<Page>, k: nat)
    requires Walk(clientId, fetches, pages) && k < |pages|
    ensures NewestFirst(pages[k].trades)
  {
    assert PageAt(clientId, fetches, pages, k);
  }

  lemma OlderTransitive(a: Row, b: Row, c: Row)
    requires Older(a, b) && (b == c || Older(b, c))
    ensures Older(a, c)
  {
  }

  lemma OlderThanLast(rows: seq<Row>, s: Row)
    requires NewestFirst(rows) && s in rows
    ensures s == rows[|rows| - 1] || Older(rows[|rows| - 1], s)
  {
    var k :| 0 <= k < |rows| && rows[k] == s;
  }

  lemma PagesDescend(clientId: ClientId, fetches: seq<Fetch>, pages: seq<Page>, i: nat, j: nat, s: Row, r: Row)
    requires Walk(clientId, fetches, pages) && i < j < |pages| && s in pages[i].trades && r in pages[j].trades
    ensures Older(r, s)
  {
    LaterIsBelow(clientId, fetches, pages, i, j, r);
    BelowIsOlder(r, LastRow(pages[i]));
    PageDescends(clientId, fetches, pages, i);
    OlderThanLast(pages[i].trades, s);
    OlderTransitive(r, LastRow(pages[i]), s);
  }

  lemma {:induction false} ShownIsPages(pages: seq<Page>, r: Row)
    ensures r in Shown(pages) <==> exists k :: 0 <= k < |pages| && r in pages[k].trades
  {
    if pages != [] {
      var before := pages[..|pages| - 1];
      ShownIsPages(before, r);
      if r in Shown(before) {
        var k :| 0 <= k < |before| && r in before[k].trades;
        assert r in pages[k].trades;
      }
      if k :| 0 <= k < |pages| && r in pages[k].trades {
        if k < |before| { assert r in before[k].trades; }
      }
    }
  }

  lemma WalkPrefix(clientId: ClientId, fetches: seq<Fetch>, pages: seq<Page>, n: nat)
    requires Walk(clientId, fetches, pages) && 0 < n <= |pages|
    ensures Walk(clientId, fetches[..n], pages[..n])
  {
    forall k | 0 <= k < n
      ensures PageAt(clientId, fetches[..n], pages[..n], k)
    {
      assert PageAt(clientId, fetches, pages, k);
      assert CursorFor(pages[..n], k) == CursorFor(pages, k);
    }
  }

  lemma NewestFirstConcat(a: seq<Row>, b: seq<Row>)
    requires NewestFirst(a) && NewestFirst(b) && forall s, r :: s in a && r in b ==> Older(r, s)
    ensures NewestFirst(a + b)
  {
    var c := a + b;
    forall i, j | 0 <= i < j < |c| ensures Older(c[j], c[i]) {
      if i < |a| <= j {
        assert c[i] in a && c[j] in b;
      }
    }
  }

  /** The whole walk is strictly newest first: no row is ever shown twice. */
  lemma {:induction false} WalkDescends(clientId: ClientId, fetches: seq<Fetch>, pages: seq<Page>)
    requires Walk(clientId, fetches, pages)
    ensures NewestFirst(Shown(pages))
  {
    var n := |pages| - 1;
    assert PageAt(clientId, fetches, pages, n);
    var before := pages[..n];
    if n > 0 {
      WalkPrefix(clientId, fetches, pages, n);
      WalkDescends(clientId, fetches[..n], before);
    }
    forall s, r | s in Shown(before) && r in pages[n].trades ensures Older(r, s) {
      ShownIsPages(before, s);
      var k :| 0 <= k < |before| && s in before[k].trades;
      PagesDescend(clientId, fetches, pages, k, n, s, r);
    }
    NewestFirstConcat(Shown(before), pages[n].trades);
  }

  /** Only the client's own rows are shown. */
  lemma ShownAreRows(clientId: ClientId, fetches: seq<Fetch>, pages: seq<Page>, r: Row)
    requires Walk(clientId, fetches, pages) && r in Shown(pages)
    ensures r.clientId == clientId && r in fetches[|fetches| - 1].table
  {
    ShownIsPages(pages, r);
    var k :| 0 <= k < |pages| && r in pages[k].trades;
    assert PageAt(clientId, fetches, pages, k);
  }

  // ---- Nothing missed but what truncation loses ----

  /** The cursor of some page has stepped over this row. */
  predicate SteppedOver(pages: seq<Page>, r: Row) {
    exists k :: 0 <= k < |pages| && pages[k].nextCursor.Some? && pages[k].trades != [] && LostAt(r, LastRow(pages[k]))
  }

  /** A row there from the start is shown so far, or stepped over, or still below the next cursor. */
  lemma {:induction false} NothingElseMissed(clientId: ClientId, fetches: seq<Fetch>, pages: seq<Page>, r: Row, n: nat)
    requires Walk(clientId, fetches, pages) && n < |pages|
    requires r in fetches[0].table && r.clientId == clientId
    requires forall k :: 0 <= k < n ==> r !in pages[k].trades
    requires forall k :: 0 <= k < n ==> pages[k].trades != [] ==> !LostAt(r, LastRow(pages[k]))
    ensures Wanted(r, clientId, CursorFor(pages, n))
  {
    if n > 0 {
      NothingElseMissed(clientId, fetches, pages, r, n - 1);
      assert PageAt(clientId, fetches, pages, n - 1);
      assert r in fetches[n - 1].table;
    }
  }

  lemma ShownOrSteppedOver(clientId: ClientId, fetches: seq<Fetch>, pages: seq<Page>, r: Row)
    requires Walk(clientId, fetches, pages) && Ended(pages)
    requires r in fetches[0].table && r.clientId == clientId && !SteppedOver(pages, r)
    ensures r in Shown(pages)
  {
    ShownIsPages(pages, r);
    var n := |pages| - 1;
    if forall k :: 0 <= k < n ==> r !in pages[k].trades {
      NothingElseMissed(clientId, fetches, pages, r, n);
      assert PageAt(clientId, fetches, pages, n);
      assert r in fetches[n].table;
      assert r in pages[n].trades;
    }
  }

  lemma SteppedOverNotShown(clientId: ClientId, fetches: seq<Fetch>, pages: seq<Page>, r: Row)
    requires Walk(clientId, fetches, pages) && SteppedOver(pages, r)
    ensures r !in Shown(pages)
  {
    ShownIsPages(pages, r);
    var k :| 0 <= k < |pages| && pages[k].nextCursor.Some? && pages[k].trades != [] && LostAt(r, LastRow(pages[k]));
    assert PageAt(clientId, fetches, pages, k);
    if j :| 0 <= j < |pages| && r in pages[j].trades {
      if j > k {
        LaterIsBelow(clientId, fetches, pages, k, j, r);
      } else if j == k {
        OlderThanLast(pages[k].trades, r);
      } else {
        PagesDescend(clientId, fetches, pages, j, k, r, LastRow(pages[k]));
      }
      assert false;
    }
  }

  /**
   * A walk that has ended has shown a row that was there when it began if and only
   * if no page's truncated cursor stepped over the row.
   */
  lemma ShownExactlyWhen(clientId: ClientId, fetches: seq<Fetch>, pages: seq<Page>, r: Row)
    requires Walk(clientId, fetches, pages) && Ended(pages)
    requires r in fetches[0].table && r.clientId == clientId
    ensures r in Shown(pages) <==> !SteppedOver(pages, r)
  {
    if SteppedOver(pages, r) {
      SteppedOverNotShown(clientId, fetches, pages, r);
    } else {
      ShownOrSteppedOver(clientId, fetches, pages, r);
    }
  }

  /** None of the client's rows would, as the last row of a page, step over r. */
  predicate SafeIn(table: seq<Row>, r: Row) {
    forall x :: x in table && x.clientId == r.clientId ==> !LostAt(r, x)
  }

  /** A row no row of the client steps over is shown by every walk, whatever the page limits. */
  lemma SafeRowsAreShown(clientId: ClientId, fetches: seq<Fetch>, pages: seq<Page>, r: Row)
    requires Walk(clientId, fetches, pages) && Ended(pages)
    requires forall k :: 0 <= k < |fetches| ==> SafeIn(fetches[k].table, r)
    requires r in fetches[0].table && r.clientId == clientId
    ensures r in Shown(pages)
  {
    ShownExactlyWhen(clientId, fetches, pages, r);
    forall k | 0 <= k < |pages| && pages[k].nextCursor.Some? && pages[k].trades != []
      ensures !LostAt(r, LastRow(pages[k]))
    {
      assert PageAt(clientId, fetches, pages, k);
      assert LastRow(pages[k]) in fetches[k].table;
    }
  }

  /** With every timestamp on the millisecond the walk shows every row there from the start. */
  lemma MillisecondsMissNothing(clientId: ClientId, fetches: seq<Fetch>, pages: seq<Page>, r: Row)
    requires Walk(clientId, fetches, pages) && Ended(pages)
    requires forall k, x :: 0 <= k < |fetches| && x in fetches[k].table ==> x.createdAtMicros % 1000 == 0
    requires r in fetches[0].table && r.clientId == clientId
    ensures r in Shown(pages)
  {
    forall k | 0 <= k < |fetches| ensures SafeIn(fetches[k].table, r) {
      forall x | x in fetches[k].table && x.clientId == r.clientId ensures !LostAt(r, x) {
        LostIsSameMillisecond(r, x);
      }
    }
    SafeRowsAreShown(clientId, fetches, pages, r);
  }

  // ---- A table that stays as it is ----

  predicate OnTable(fetches: seq<Fetch>, table: seq<Row>) {
    forall k :: 0 <= k < |fetches| ==> fetches[k].table == table
  }

  /** Every walk over the table, with any page limits, shows the row. */
  ghost predicate AlwaysShown(clientId: ClientId, table: seq<Row>, r: Row) {
    forall fetches, pages ::
      Walk(clientId, fetches, pages) && Ended(pages) && OnTable(fetches, table) ==> r in Shown(pages)
  }

  lemma IndexIsLater(rows: seq<Row>, k: nat, r: Row) returns (i: nat)
    requires NewestFirst(rows) && k < |rows| && r in rows && Older(r, rows[k])
    ensures k < i < |rows| && rows[i] == r
  {
    i :| 0 <= i < |rows| && rows[i] == r;
  }

  /** The first page of a walk can be made to end at any row that has an older one. */
  lemma PageEndingAt(table: seq<Row>, clientId: ClientId, x: Row, r: Row) returns (limit: nat, page: Page)
    requires Keyed(table) && x in table && r in table && x.clientId == clientId && r.clientId == clientId && Older(r, x)
    ensures 0 < limit <= |table| && IsPage(table, clientId, None, limit, page)
    ensures page.trades != [] && LastRow(page) == x && page.nextCursor == Some(CursorOf(x))
  {
    var rows := OrderByNewest(Where(table, ConditionsFor(clientId, None)));
    WhatIsAsked(table, clientId, None);
    assert x in rows && r in rows;
    var k :| 0 <= k < |rows| && rows[k] == x;
    var i := IndexIsLater(rows, k, r);
    NoLonger(rows, table);
    limit := k + 1;
    page := Cut(rows, limit);
    PageOfSorted(table, clientId, None, limit, rows);
  }

  /** A page as large as the table is a last page. */
  lemma LastPage(table: seq<Row>, clientId: ClientId, after: Option<Cursor>) returns (page: Page)
    requires Keyed(table) && table != []
    ensures IsPage(table, clientId, after, |table|, page) && page.nextCursor.None?
  {
    var rows := OrderByNewest(Where(table, ConditionsFor(clientId, after)));
    WhatIsAsked(table, clientId, after);
    NoLonger(rows, table);
    page := Cut(rows, |table|);
    PageOfSorted(table, clientId, after, |table|, rows);
  }

  /** A row some other row steps over is missed by a walk of two pages, neither limit beyond the table's size. */
  lemma WalkMissing(clientId: ClientId, table: seq<Row>, r: Row, x: Row) returns (fetches: seq<Fetch>, pages: seq<Page>)
    requires Keyed(table) && x in table && r in table && x.clientId == clientId && r.clientId == clientId && LostAt(r, x)
    ensures Walk(clientId, fetches, pages) && Ended(pages) && OnTable(fetches, table) && r !in Shown(pages)
    ensures forall k :: 0 <= k < |fetches| ==> fetches[k].limit <= |table|
  {
    var limit, first := PageEndingAt(table, clientId, x, r);
    var second := LastPage(table, clientId, first.nextCursor);
    fetches, pages := [Fetch(table, limit), Fetch(table, |table|)], [first, second];
    assert PageAt(clientId, fetches, pages, 0) && PageAt(clientId, fetches, pages, 1);
    assert LastRow(pages[0]) == x;
    SteppedOverNotShown(clientId, fetches, pages, r);
  }

  /**
   * On a table that stays as it is, a row is shown by every walk, whatever the page
   * limits, if and only if no row of its client would step over it.
   */
  lemma AlwaysShownExactlyWhen(clientId: ClientId, table: seq<Row>, r: Row)
    requires Keyed(table) && r in table && r.clientId == clientId
    ensures AlwaysShown(clientId, table, r) <==> SafeIn(table, r)
  {
    if SafeIn(table, r) {
      forall fetches, pages | Walk(clientId, fetches, pages) && Ended(pages) && OnTable(fetches, table)
        ensures r in Shown(pages)
      {
        SafeRowsAreShown(clientId, fetches, pages, r);
      }
    } else {
      var x :| x in table && x.clientId == r.clientId && LostAt(r, x);
      var fetches, pages := WalkMissing(clientId, table, r, x);
    }
  }

  /** Two rows 0.3 ms apart, one to a page: the older one is never shown. */
  lemma SameMillisecondIsMissed()
    ensures var newer, older := Row(0, 1_000_500, 2), Row(0, 1_000_200, 1);
      var fetches := seq(2, _ => Fetch([older, newer], 1));
      var pages := [Page([newer], Some(Cursor(1000, 2))), Page([], None)];
      && Walk(0, fetches, pages) && Ended(pages) && older !in Shown(pages)
  {
    var newer, older := Row(0, 1_000_500, 2), Row(0, 1_000_200, 1);
    var pages := [Page([newer], Some(Cursor(1000, 2))), Page([], None)];
    assert older in [older, newer] && newer in [older, newer];
    assert PageAt(0, seq(2, _ => Fetch([older, newer], 1)), pages, 0);
    assert PageAt(0, seq(2, _ => Fetch([older, newer], 1)), pages, 1);
    ShownIsPages(pages, older);
  }

  // ---- The walk ends ----

  lemma {:induction false} PagesShowRows(clientId: ClientId, fetches: seq<Fetch>, pages: seq<Page>)
    requires Walk(clientId, fetches, pages)
    ensures |Shown(pages)| >= |pages| - 1
    ensures pages[|pages| - 1].nextCursor.Some? ==> |Shown(pages)| >= |pages|
  {
    var n := |pages| - 1;
    assert PageAt(clientId, fetches, pages, n);
    if n > 0 {
      WalkPrefix(clientId, fetches, pages, n);
      PagesShowRows(clientId, fetches[..n], pages[..n]);
      assert pages[n - 1].nextCursor.Some?;
    }
  }

  /** No walk is longer than the table it ends on has rows, and one more. */
  lemma WalkIsShort(clientId: ClientId, fetches: seq<Fetch>, pages: seq<Page>)
    requires Walk(clientId, fetches, pages)
    ensures |pages| <= |fetches[|fetches| - 1].table| + 1
    ensures |pages| == |fetches[|fetches| - 1].table| + 1 ==> Ended(pages)
  {
    var table := fetches[|fetches| - 1].table;
    PagesShowRows(clientId, fetches, pages);
    WalkDescends(clientId, fetches, pages);
    forall r | r in Shown(pages) ensures r in table {
      ShownAreRows(clientId, fetches, pages, r);
    }
    NoLonger(Shown(pages), table);
  }
}
