/** The keyset page reader: `GET /audit/logs`, and the walk that follows `nextCursor`. */
module AuditPages {
  import opened Options
  import opened AuditLog

  const MAX_LIMIT: int := 200

  datatype AuditQuery = AuditQuery(cursor: Option<int>, filter: Filter, limit: int)
  datatype AuditPage = AuditPage(data: seq<WireRow>, nextCursor: Option<int>, hasMore: bool)

  function ClampLimit(limit: int): (r: nat)
    ensures 1 <= r <= MAX_LIMIT
  {
    if limit < 1 then 1 else if limit > MAX_LIMIT then MAX_LIMIT else limit
  }

  /** A limit in range is kept; any other becomes the nearer end of the range. */
  lemma {:induction false} LimitIsNearest(limit: int, other: int)
    requires 1 <= other <= 200
    ensures 1 <= ClampLimit(limit) <= 200
    ensures limit <= ClampLimit(limit) <= other || other <= ClampLimit(limit) <= limit
  {
  }

  predicate PageHasMore(fetched: nat, limit: nat) {
    fetched > limit
  }

  function ListLogs(log: seq<LogRow>, query: AuditQuery): AuditPage {
    var limit := ClampLimit(query.limit);
    var rows := Take(Reversed(Where(log, query.filter, None, query.cursor)), limit + 1);
    var hasMore := PageHasMore(|rows|, limit);
    var data := WireRows(Take(rows, limit));
    AuditPage(data, if hasMore && data != [] then Some(data[|data| - 1].id) else None, hasMore)
  }

  /** One request of a walk: rows appended since the previous one, and the limit asked for. */
  datatype Request = Request(appended: seq<LogRow>, limit: int)

  function LogAfter(log: seq<LogRow>, requests: seq<Request>): seq<LogRow>
    decreases |requests|
  {
    if requests == [] then log else LogAfter(log + requests[0].appended, requests[1..])
  }

  /** The pages a client receives by following `nextCursor` while `hasMore` holds. */
  function Walk(log: seq<LogRow>, f: Filter, cursor: Option<int>, requests: seq<Request>): seq<AuditPage>
    decreases |requests|
  {
    if requests == [] then []
    else
      var now := log + requests[0].appended;
      var page := ListLogs(now, AuditQuery(cursor, f, requests[0].limit));
      [page] + if page.hasMore then Walk(now, f, page.nextCursor, requests[1..]) else []
  }

  function Rows(pages: seq<AuditPage>): seq<WireRow> {
    if pages == [] then [] else pages[0].data + Rows(pages[1..])
  }

  /** The rows a walk standing at `cursor` still has to deliver, newest first. */
  function Remaining(log: seq<LogRow>, f: Filter, cursor: Option<int>): seq<WireRow> {
    WireRows(Reversed(Where(log, f, None, cursor)))
  }

  predicate Finished(pages: seq<AuditPage>) {
    pages != [] && !pages[|pages| - 1].hasMore
  }

  lemma {:induction false} LogAfterExtends(log: seq<LogRow>, requests: seq<Request>)
    ensures log <= LogAfter(log, requests)
    decreases |requests|
  {
    if requests != [] {
      LogAfterExtends(log + requests[0].appended, requests[1..]);
    }
  }

  /** Rows appended later are newer than every cursor a walk can hold. */
  lemma {:induction false} AppendIsInvisible(log: seq<LogRow>, appended: seq<LogRow>, f: Filter, cursor: int)
    requires Ascending(log + appended)
    requires IsRowId(log, cursor)
    ensures Remaining(log + appended, f, Some(cursor)) == Remaining(log, f, Some(cursor))
  {
    WhereAppend(log, appended, f, None, Some(cursor));
    var i :| 0 <= i < |log| && log[i].id == cursor;
    forall j | 0 <= j < |appended| ensures appended[j].id > cursor {
      assert (log + appended)[i].id < (log + appended)[|log| + j].id;
    }
    NothingBelow(appended, f, cursor);
  }

  lemma {:induction false} NothingBelow(rows: seq<LogRow>, f: Filter, cursor: int)
    requires forall j :: 0 <= j < |rows| ==> rows[j].id > cursor
    ensures Where(rows, f, None, Some(cursor)) == []
  {
    if rows != [] {
      NothingBelow(rows[..|rows| - 1], f, cursor);
    }
  }

  /** One page carries the next clamped-limit rows of what remains, and knows whether more do. */
  lemma {:induction false} PageContents(log: seq<LogRow>, query: AuditQuery)
    ensures var page := ListLogs(log, query);
            var rest := Remaining(log, query.filter, query.cursor);
            var limit := ClampLimit(query.limit);
            && page.hasMore == (|rest| > limit) == page.nextCursor.Some?
            && page.data == Take(rest, limit)
  {
    var newest := Reversed(Where(log, query.filter, None, query.cursor));
    var limit := ClampLimit(query.limit);
    assert Take(Take(newest, limit + 1), limit) == Take(newest, limit);
    assert WireRows(Take(newest, limit)) == Take(WireRows(newest), limit);
  }

  ghost predicate IsRowId(log: seq<LogRow>, id: int) {
    exists i :: 0 <= i < |log| && log[i].id == id
  }

  /** Moving the cursor onto a selected row leaves exactly the selected rows older than it. */
  lemma {:induction false} CursorOnRow(log: seq<LogRow>, f: Filter, cursor: Option<int>, cut: nat)
    requires Ascending(log)
    requires cut < |Where(log, f, None, cursor)|
    ensures var selected := Where(log, f, None, cursor);
            Where(log, f, None, Some(selected[cut].id)) == selected[..cut]
  {
    var rows := Filtered(log, f);
    var to := |rows|;
    if cursor.Some? {
      to := FindSplit(rows, cursor.value - 1);
    }
    WhereIsSlice(log, f, None, cursor, 0, to);
    WhereAscends(log, f, None, None);
    WhereIsSlice(log, f, None, Some(rows[cut].id), 0, cut);
  }

  lemma {:induction false} NewestFirstFrom(rows: seq<LogRow>, cut: nat)
    requires cut <= |rows|
    ensures WireRows(Reversed(rows[..cut])) == WireRows(Reversed(rows))[|rows| - cut..]
  {
  }

  /** A page's cursor is the id of a row, and stands exactly after the page's rows. */
  lemma {:induction false} PageCursor(log: seq<LogRow>, query: AuditQuery)
    requires Ascending(log)
    requires ListLogs(log, query).hasMore
    ensures var page := ListLogs(log, query);
            && page.nextCursor.Some? && IsRowId(log, page.nextCursor.value)
            && ClampLimit(query.limit) <= |Remaining(log, query.filter, query.cursor)|
            && Remaining(log, query.filter, page.nextCursor)
               == Remaining(log, query.filter, query.cursor)[ClampLimit(query.limit)..]
  {
    PageContents(log, query);
    var selected := Where(log, query.filter, None, query.cursor);
    var cut := |selected| - ClampLimit(query.limit);
    assert ListLogs(log, query).nextCursor == Some(selected[cut].id);
    CursorOnRow(log, query.filter, query.cursor, cut);
    WhereFrom(log, query.filter, None, query.cursor, cut);
    NewestFirstFrom(selected, cut);
  }

  /** The pages are the start of `rest`, and all of it once the walk has finished. */
  ghost predicate Delivers(pages: seq<AuditPage>, rest: seq<WireRow>) {
    Rows(pages) <= rest && (Finished(pages) ==> Rows(pages) == rest)
  }

  /** Every page but the last is full, and an unfinished walk used all of its requests. */
  ghost predicate Paced(pages: seq<AuditPage>, requests: seq<Request>) {
    && 1 <= |pages| <= |requests|
    && (Finished(pages) || (|pages| == |requests| && |Rows(pages)| >= |requests|))
    && (forall i :: 0 <= i < |pages| - 1 ==> |pages[i].data| == ClampLimit(requests[i].limit))
  }

  lemma {:induction false} PrependPage(page: AuditPage, later: seq<AuditPage>, rest: seq<WireRow>, requests: seq<Request>)
    requires requests != []
    requires var limit := ClampLimit(requests[0].limit);
             && limit <= |rest| && page.data == rest[..limit]
             && Delivers(later, rest[limit..]) && Paced(later, requests[1..])
    ensures Delivers([page] + later, rest) && Paced([page] + later, requests)
  {
    var pages := [page] + later;
    assert pages[1..] == later;
    assert pages[|pages| - 1] == later[|later| - 1];
    assert Rows(pages) == page.data + Rows(later);
    forall i | 0 <= i < |pages| - 1 ensures |pages[i].data| == ClampLimit(requests[i].limit) {
      if i > 0 {
        assert pages[i] == later[i - 1] && requests[i] == requests[1..][i - 1];
      }
    }
  }

  /** The first page of a walk is cut from what remained before the request's appends. */
  lemma {:induction false} FirstPage(log: seq<LogRow>, f: Filter, cursor: Option<int>, request: Request)
    requires Ascending(log + request.appended)
    requires cursor.None? ==> request.appended == []
    requires cursor.Some? ==> IsRowId(log, cursor.value)
    ensures var page := ListLogs(log + request.appended, AuditQuery(cursor, f, request.limit));
            var rest := Remaining(log, f, cursor);
            var limit := ClampLimit(request.limit);
            page.hasMore == (|rest| > limit) && page.data == Take(rest, limit)
    ensures Remaining(log + request.appended, f, cursor) == Remaining(log, f, cursor)
  {
    PageContents(log + request.appended, AuditQuery(cursor, f, request.limit));
    if cursor.Some? {
      AppendIsInvisible(log, request.appended, f, cursor.value);
    } else {
      assert log + [] == log;
    }
  }

  lemma {:induction false} OnlyPage(page: AuditPage, rest: seq<WireRow>, requests: seq<Request>)
    requires requests != [] && (page.hasMore ==> |requests| == 1)
    requires var limit := ClampLimit(requests[0].limit);
             page.hasMore == (|rest| > limit) && page.data == Take(rest, limit)
    ensures Delivers([page], rest) && Paced([page], requests)
  {
    assert Rows([page]) == page.data + Rows([]);
  }

  /**
   A walk interleaved with arbitrary appends, from any cursor it can stand at: the pages
   deliver, in order and without repetition, exactly what remained when it got there.
   */
  lemma {:induction false} WalkFrom(log: seq<LogRow>, f: Filter, cursor: Option<int>, requests: seq<Request>)
    requires requests != [] && Ascending(LogAfter(log, requests))
    requires cursor.None? ==> requests[0].appended == []
    requires cursor.Some? ==> IsRowId(log, cursor.value)
    ensures Delivers(Walk(log, f, cursor, requests), Remaining(log, f, cursor))
    ensures Paced(Walk(log, f, cursor, requests), requests)
    decreases |requests|
  {
    var now := log + requests[0].appended;
    LogAfterExtends(now, requests[1..]);
    FirstPage(log, f, cursor, requests[0]);
    var query := AuditQuery(cursor, f, requests[0].limit);
    var page, rest := ListLogs(now, query), Remaining(log, f, cursor);
    if page.hasMore && |requests| > 1 {
      PageCursor(now, query);
      var later := Walk(now, f, page.nextCursor, requests[1..]);
      assert Walk(log, f, cursor, requests) == [page] + later;
      WalkFrom(now, f, page.nextCursor, requests[1..]);
      PrependPage(page, later, rest, requests);
    } else {
      assert Walk(log, f, cursor, requests) == [page];
      OnlyPage(page, rest, requests);
    }
  }

  /**
   The page walk reads the filtered log. Whatever is appended between the requests and
   whatever limits they carry, the pages are the rows present at the first request, newest
   first, each once; every page but the last is full; and a walk with more requests than
   rows finishes.
   */
  lemma {:induction false} WalkReadsTheFilteredLog(log: seq<LogRow>, f: Filter, requests: seq<Request>)
    requires requests != [] && Ascending(LogAfter(log, requests))
    ensures var present := WireRows(Reversed(Filtered(log + requests[0].appended, f)));
            var pages := Walk(log, f, None, requests);
            && Delivers(pages, present) && Paced(pages, requests)
            && (|requests| > |present| ==> Finished(pages))
  {
    var now := log + requests[0].appended;
    var settled := [Request([], requests[0].limit)] + requests[1..];
    assert settled[1..] == requests[1..];
    assert now + [] == now;
    assert Walk(log, f, None, requests) == Walk(now, f, None, settled);
    WalkFrom(now, f, None, settled);
    assert forall i :: 0 <= i < |requests| ==> settled[i].limit == requests[i].limit;
  }

  /** The number of pages of a quiet log read with one limit: `n / limit` rounded up, at least one. */
  function PageCount(rows: nat, limit: nat): nat
    requires limit > 0
  {
    if rows <= limit then 1 else 1 + PageCount(rows - limit, limit)
  }

  /** `count` requests with one limit and no append between them. */
  function Quiet(limit: int, count: nat): seq<Request> {
    seq(count, _ => Request([], limit))
  }

  lemma {:induction false} QuietWalk(log: seq<LogRow>, f: Filter, cursor: Option<int>, limit: int, count: nat)
    requires Ascending(log)
    requires count >= PageCount(|Remaining(log, f, cursor)|, ClampLimit(limit))
    ensures var pages := Walk(log, f, cursor, Quiet(limit, count));
            Finished(pages) && |pages| == PageCount(|Remaining(log, f, cursor)|, ClampLimit(limit))
    decreases count
  {
    var requests := Quiet(limit, count);
    assert requests[0] == Request([], limit) && log + [] == log;
    assert requests[1..] == Quiet(limit, count - 1);
    var query := AuditQuery(cursor, f, limit);
    PageContents(log, query);
    var page := ListLogs(log, query);
    if page.hasMore {
      PageCursor(log, query);
      QuietWalk(log, f, page.nextCursor, limit, count - 1);
      FinishedLater(page, Walk(log, f, page.nextCursor, Quiet(limit, count - 1)));
    } else {
      assert Walk(log, f, cursor, requests) == [page];
    }
  }

  lemma {:induction false} FinishedLater(page: AuditPage, later: seq<AuditPage>)
    requires Finished(later)
    ensures Finished([page] + later)
  {
  }
}
