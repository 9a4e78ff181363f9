/** Paged reads of settled events, and the stream made of them
    (packages/eventstore/src/EventStore.ts, `readImpl` and `stream`; packages/eventstore/src/internal/sql.ts, `queryPage`;
    packages/event-poller/src/internal/sql.ts). */
module Pages {
  import opened Options
  import opened Events
  import opened LogPositions
  import opened Store
  import opened StoreRuns
  import RS = ReadSnapshot

  /** What a page selects from: committed events that are settled now, wanted, and after the cursor. */
  ghost predicate Selects(db: Db, now: RS.Parts, wants: Event -> bool, after: Cursor, r: Row) {
    IsCommitted(db, r) && r.xid < now.xmin && wants(r.event) && after.Before(r.At())
  }

  /** ORDER BY transaction id, position, LIMIT. */
  ghost predicate IsPage(db: Db, now: RS.Parts, wants: Event -> bool, after: Cursor, limit: nat, page: seq<Row>) {
    && TakenIn(db, None, now)
    && Ordered(page) && |page| <= limit
    && (forall r :: r in page ==> Selects(db, now, wants, after, r))
    && (forall r :: Selects(db, now, wants, after, r) && r !in page ==> |page| == limit && forall p :: p in page ==> p.At().Before(r.At()))
  }

  /** Where the page stopped: at its last event, or where it started. */
  function CursorAfter(page: seq<Row>, after: Cursor): Cursor {
    if page == [] then after else page[|page| - 1].At()
  }

  /** The clause the event store writes for a cursor: left out at position 0, by position alone for transaction 0. */
  predicate StoreClause(after: Cursor, c: Cursor) {
    after.pos > 0 ==> if after.xid != 0 then after.Before(c) else c.pos > after.pos
  }

  /** It says "after the cursor" for every event exactly for a cursor before the first event or an event's own. A cursor
      such as 5/0, which `Cursor.fromString` accepts, reads from the start again; 0/7 compares by position. */
  lemma StoreClauseIsAfter(after: Cursor)
    ensures (if after.pos == 0 then after.xid <= 1 else after.xid >= 1)
            <==> forall c: Cursor :: c.xid >= 1 && c.pos >= 1 ==> (StoreClause(after, c) <==> after.Before(c))
  {
    if after.xid == 0 && after.pos > 0 {
      assert !StoreClause(after, Cursor(1, after.pos)) && after.Before(Cursor(1, after.pos));
    }
    if after.xid > 1 && after.pos == 0 {
      assert StoreClause(after, Cursor(1, 1)) && !after.Before(Cursor(1, 1));
    }
  }

  /** A page is the first of all that is selected, as many as the limit allows. */
  lemma PageIsTheFirst(db: Db, now: RS.Parts, wants: Event -> bool, after: Cursor, limit: nat, page: seq<Row>, all: seq<Row>)
    requires IsPage(db, now, wants, after, limit, page)
    requires Ordered(all)
    requires forall r :: r in all <==> IsCommitted(db, r) && r.xid < now.xmin && wants(r.event)
                                       && (after.xid < r.xid || (after.xid == r.xid && after.pos < r.pos))
    ensures page == all[..if |all| < limit then |all| else limit]
  {
    forall r ensures r in all <==> Selects(db, now, wants, after, r) {
    }
    FirstOfAll(all, page, limit);
  }

  lemma {:induction false} FirstOfAll(all: seq<Row>, page: seq<Row>, limit: nat)
    requires Ordered(all) && Ordered(page) && |page| <= limit && forall r :: r in page ==> r in all
    requires forall r :: r in all && r !in page ==> |page| == limit && forall p :: p in page ==> p.At().Before(r.At())
    ensures page == all[..if |all| < limit then |all| else limit]
    decreases |all|
  {
    if page == [] {
      assert all != [] ==> all[0] in all;
    } else {
      assert page[0] in page;
      FirstIsFirst(all, page);
      RestIsRest(all, page, limit);
      FirstOfAll(all[1..], page[1..], limit - 1);
      assert all == [all[0]] + all[1..] && page == [page[0]] + page[1..];
    }
  }

  lemma HeadIsLowest(rows: seq<Row>, r: Row)
    requires Ordered(rows) && r in rows
    ensures rows[0] == r || rows[0].At().Before(r.At())
  {
    var i :| 0 <= i < |rows| && rows[i] == r;
  }

  lemma FirstIsFirst(all: seq<Row>, page: seq<Row>)
    requires Ordered(all) && Ordered(page) && all != [] && page != [] && forall r :: r in page ==> r in all
    requires forall r :: r in all && r !in page ==> forall p :: p in page ==> p.At().Before(r.At())
    ensures page[0] == all[0]
  {
    assert page[0] in page && all[0] in all;
    HeadIsLowest(all, page[0]);
    if all[0] in page {
      HeadIsLowest(page, all[0]);
    }
  }

  lemma RestIsRest(all: seq<Row>, page: seq<Row>, limit: nat)
    requires Ordered(all) && Ordered(page) && all != [] && page != [] && page[0] == all[0] && |page| <= limit
    requires forall r :: r in page ==> r in all
    requires forall r :: r in all && r !in page ==> |page| == limit && forall p :: p in page ==> p.At().Before(r.At())
    ensures Ordered(all[1..]) && Ordered(page[1..])
    ensures forall r :: r in page[1..] ==> r in all[1..]
    ensures forall r :: r in all[1..] && r !in page[1..] ==> |page[1..]| == limit - 1 && forall p :: p in page[1..] ==> p.At().Before(r.At())
  {
    forall r | r in page[1..] ensures r in all[1..] {
      var j :| 0 <= j < |page| - 1 && page[1..][j] == r;
      assert page[j + 1] in page && page[0].At().Before(page[j + 1].At());
      var i :| 0 <= i < |all| && all[i] == r;
      assert i > 0;
      assert all[1..][i - 1] == r;
    }
    assert page == [page[0]] + page[1..];
    forall r | r in all[1..] && r !in page[1..] ensures r in all && r !in page {
      var i :| 0 <= i < |all| - 1 && all[1..][i] == r;
      assert all[0].At().Before(all[i + 1].At());
    }
  }

  /** One page of a stream: the state of the run it was read in, that statement's snapshot, and what came back. */
  datatype PageRead = PageRead(at: nat, now: RS.Parts, page: seq<Row>)

  /** A stream from `after`: page after page, each from the cursor of the one before and not earlier in time, until one
      is not full. */
  ghost predicate IsStream(run: seq<Db>, wants: Event -> bool, after: Cursor, limit: nat, since: nat, pages: seq<PageRead>)
    decreases |pages|
  {
    && pages != []
    && since <= pages[0].at < |run|
    && IsPage(run[pages[0].at], pages[0].now, wants, after, limit, pages[0].page)
    && if |pages| == 1 then |pages[0].page| < limit
       else |pages[0].page| == limit && IsStream(run, wants, CursorAfter(pages[0].page, after), limit, pages[0].at, pages[1..])
  }

  function Streamed(pages: seq<PageRead>): seq<Row> {
    if pages == [] then [] else pages[0].page + Streamed(pages[1..])
  }

  lemma BeforeIsTransitive(a: Cursor, b: Cursor, c: Cursor)
    requires a.AtOrBefore(b) && b.Before(c)
    ensures a.Before(c)
  {
  }

  lemma OrderedConcat(a: seq<Row>, b: seq<Row>)
    requires Ordered(a) && Ordered(b)
    requires a != [] ==> forall r :: r in b ==> a[|a| - 1].At().Before(r.At())
    ensures Ordered(a + b)
  {
    var s := a + b;
    forall i, j | 0 <= i < j < |s| ensures s[i].At().Before(s[j].At()) {
      if i < |a| && j >= |a| {
        assert s[j] in b;
        assert i < |a| - 1 ==> a[i].At().Before(a[|a| - 1].At());
      }
    }
  }

  lemma LastIsHighest(page: seq<Row>, r: Row)
    requires Ordered(page) && r in page
    ensures r.At().AtOrBefore(page[|page| - 1].At())
  {
    var i :| 0 <= i < |page| && page[i] == r;
    assert i < |page| - 1 ==> page[i].At().Before(page[|page| - 1].At());
  }

  /** A stream yields the wanted events after its start in log order, each once. */
  lemma {:induction false} StreamIsOrdered(run: seq<Db>, wants: Event -> bool, after: Cursor, limit: nat, since: nat, pages: seq<PageRead>)
    requires limit >= 1 && IsStream(run, wants, after, limit, since, pages)
    ensures Ordered(Streamed(pages))
    ensures forall r :: r in Streamed(pages) ==> after.Before(r.At()) && wants(r.event)
    decreases |pages|
  {
    var page := pages[0].page;
    if |pages| == 1 {
      assert pages[1..] == [];
      assert Streamed(pages) == page;
    } else {
      StreamIsOrdered(run, wants, CursorAfter(page, after), limit, pages[0].at, pages[1..]);
      OrderedConcat(page, Streamed(pages[1..]));
      assert page[|page| - 1] in page;
    }
  }

  /** What was settled and wanted below a page's cursor when the page was read is all there is, at any later time. */
  lemma PageIsFinal(run: seq<Db>, steps: seq<Action>, i: nat, j: nat, now: RS.Parts, wants: Event -> bool, after: Cursor, limit: nat, page: seq<Row>, r: Row)
    requires IsRun(run, steps) && i <= j < |run| && IsPage(run[i], now, wants, after, limit, page)
    requires IsCommitted(run[j], r) && wants(r.event) && after.Before(r.At()) && r.At().AtOrBefore(CursorAfter(page, after))
    ensures r in page && IsCommitted(run[i], r)
  {
    assert page != [];
    var last := page[|page| - 1];
    assert last in page && Selects(run[i], now, wants, after, last);
    EveryStateIsOk(run, steps, j);
    SettledIsFinal(run, steps, i, j, None, now, r);
    if r !in page {
      assert Selects(run[i], now, wants, after, r);
      assert false;
    }
  }

  /** A stream misses nothing: every wanted event after its start that was settled when its last page was read came out. */
  lemma {:induction false} StreamIsComplete(run: seq<Db>, steps: seq<Action>, wants: Event -> bool, after: Cursor, limit: nat, since: nat, pages: seq<PageRead>, r: Row)
    requires limit >= 1 && IsRun(run, steps) && IsStream(run, wants, after, limit, since, pages)
    requires LastPageSelects(run, wants, pages, r) && after.Before(r.At())
    ensures r in Streamed(pages)
    decreases |pages|
  {
    var page := pages[0].page;
    if |pages| > 1 {
      var next := CursorAfter(page, after);
      if next.Before(r.At()) {
        assert pages[1..][|pages| - 2] == pages[|pages| - 1];
        StreamIsComplete(run, steps, wants, next, limit, pages[0].at, pages[1..], r);
      } else {
        TimeGoesForward(run, wants, after, limit, since, pages);
        PageIsFinal(run, steps, pages[0].at, pages[|pages| - 1].at, pages[0].now, wants, after, limit, page, r);
      }
    } else {
      assert Selects(run[pages[0].at], pages[0].now, wants, after, r);
      assert r in page;
    }
  }

  ghost predicate LastPageSelects(run: seq<Db>, wants: Event -> bool, pages: seq<PageRead>, r: Row) {
    && pages != [] && pages[|pages| - 1].at < |run|
    && var last := pages[|pages| - 1];
       IsCommitted(run[last.at], r) && r.xid < last.now.xmin && wants(r.event)
  }

  lemma {:induction false} TimeGoesForward(run: seq<Db>, wants: Event -> bool, after: Cursor, limit: nat, since: nat, pages: seq<PageRead>)
    requires IsStream(run, wants, after, limit, since, pages)
    ensures since <= pages[0].at <= pages[|pages| - 1].at < |run|
    decreases |pages|
  {
    if |pages| > 1 {
      TimeGoesForward(run, wants, CursorAfter(pages[0].page, after), limit, pages[0].at, pages[1..]);
    }
  }
}
