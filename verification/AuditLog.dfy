/**
 The append-only `audit_log` table and the two query shapes the read API runs over it.

 A log is the sequence of its rows in insertion order; `Ascending` is the guarantee of the
 BIGSERIAL key that rows become visible in increasing id order.
 */
module AuditLog {
  import opened Numbers
  import opened Options

  /** One stored row. `createdAt` and `details` are the rendered column values. */
  datatype LogRow = LogRow(
    id: int,
    event: string,
    actorEmail: Option<string>,
    actorId: Option<string>,
    tenantId: Option<string>,
    ip: Option<string>,
    createdAt: string,
    details: string)

  /** One row as it travels to the browser, by page or by event stream. */
  datatype WireRow = WireRow(
    id: int,
    event: string,
    actor: string,
    tenantId: Option<string>,
    ip: Option<string>,
    createdAt: string,
    details: string)

  /** The optional facets; an absent facet constrains nothing. */
  datatype Filter = Filter(actor: Option<string>, event: Option<string>, tenantId: Option<string>)

  const SYSTEM_ACTOR := "system"

  function ActorDisplay(actorEmail: Option<string>, actorId: Option<string>): string {
    match (actorEmail, actorId)
    case (Some(email), _) => email
    case (None, Some(id)) => id
    case (None, None) => SYSTEM_ACTOR
  }

  function ToWire(row: LogRow): WireRow {
    WireRow(row.id, row.event, ActorDisplay(row.actorEmail, row.actorId), row.tenantId, row.ip,
            row.createdAt, row.details)
  }

  function WireRows(rows: seq<LogRow>): (r: seq<WireRow>)
    ensures |r| == |rows|
    ensures forall i :: 0 <= i < |rows| ==> r[i] == ToWire(rows[i])
  {
    seq(|rows|, i requires 0 <= i < |rows| => ToWire(rows[i]))
  }

  /** The three facet conjuncts of both queries; a NULL column never equals a facet. */
  predicate Matches(f: Filter, row: LogRow) {
    && (f.actor.None? || row.actorId == f.actor || row.actorEmail == f.actor)
    && (f.event.None? || Some(row.event) == f.event)
    && (f.tenantId.None? || row.tenantId == f.tenantId)
  }

  /** The actor a row shows, its email first, finds that row again; only the system actor does not. */
  lemma {:induction false} ShownActorFindsRow(row: LogRow)
    ensures Matches(Filter(Some(ToWire(row).actor), None, None), row) <==> row.actorEmail.Some? || row.actorId.Some?
    ensures row.actorEmail.Some? ==> row.actorEmail == Some(ToWire(row).actor)
    ensures row.actorEmail.None? && row.actorId.None? ==> ToWire(row).actor == "system"
  {
  }

  predicate Above(low: Option<int>, id: int) {
    low.None? || low.value < id
  }

  predicate Below(high: Option<int>, id: int) {
    high.None? || id < high.value
  }

  /** The rows a query selects, in table order: facets and both (strict) keyset bounds. */
  function Where(log: seq<LogRow>, f: Filter, low: Option<int>, high: Option<int>): seq<LogRow> {
    if log == [] then []
    else
      var row := log[|log| - 1];
      Where(log[..|log| - 1], f, low, high)
      + if Matches(f, row) && Above(low, row.id) && Below(high, row.id) then [row] else []
  }

  /** The filtered log: the one abstract object that both readers enumerate. */
  function Filtered(log: seq<LogRow>, f: Filter): seq<LogRow> {
    Where(log, f, None, None)
  }

  ghost predicate Ascending(rows: seq<LogRow>) {
    forall i, j :: 0 <= i < j < |rows| ==> rows[i].id < rows[j].id
  }

  function Take<T>(s: seq<T>, n: nat): seq<T> {
    if n < |s| then s[..n] else s
  }

  function Reversed<T>(s: seq<T>): (r: seq<T>)
    ensures |r| == |s|
    ensures forall i :: 0 <= i < |s| ==> r[i] == s[|s| - 1 - i]
  {
    seq(|s|, i requires 0 <= i < |s| => s[|s| - 1 - i])
  }

  /** The first `k` rows have an id of at most `bound`, the others a greater one. */
  ghost predicate Splits(rows: seq<LogRow>, bound: int, k: nat) {
    && k <= |rows|
    && (k > 0 ==> rows[k - 1].id <= bound)
    && (k < |rows| ==> rows[k].id > bound)
  }

  lemma {:induction false} FindSplit(rows: seq<LogRow>, bound: int) returns (k: nat)
    ensures Splits(rows, bound, k)
  {
    k := |rows|;
    if rows != [] && rows[|rows| - 1].id > bound {
      k := FindSplit(rows[..|rows| - 1], bound);
    }
  }

  lemma {:induction false} WhereAppend(a: seq<LogRow>, b: seq<LogRow>, f: Filter, low: Option<int>, high: Option<int>)
    ensures Where(a + b, f, low, high) == Where(a, f, low, high) + Where(b, f, low, high)
  {
    if b == [] {
      assert a + b == a;
    } else {
      WhereAppend(a, b[..|b| - 1], f, low, high);
      assert (a + b)[..|a + b| - 1] == a + b[..|b| - 1];
    }
  }

  lemma {:induction false} WhereAscends(log: seq<LogRow>, f: Filter, low: Option<int>, high: Option<int>)
    requires Ascending(log)
    ensures Ascending(Where(log, f, low, high))
  {
    WhereIsSelection(log, f, low, high);
  }

  /** Every selected row is a row of the log. */
  lemma {:induction false} WhereFrom(log: seq<LogRow>, f: Filter, low: Option<int>, high: Option<int>, k: nat)
    requires Ascending(log)
    requires k < |Where(log, f, low, high)|
    ensures Where(log, f, low, high)[k] in log
  {
    WhereIsSelection(log, f, low, high);
    assert Where(log, f, low, high)[k] in Where(log, f, low, high);
  }

  /**
   A query returns exactly the log rows that satisfy its WHERE clause, in id order: none
   missing, none extra, none twice.
   */
  lemma {:induction false} WhereIsSelection(log: seq<LogRow>, f: Filter, low: Option<int>, high: Option<int>)
    requires Ascending(log)
    ensures Ascending(Where(log, f, low, high))
    ensures forall row :: row in Where(log, f, low, high) <==>
                          row in log && Matches(f, row) && Above(low, row.id) && Below(high, row.id)
  {
    if log != [] {
      var init := log[..|log| - 1];
      WhereIsSelection(init, f, low, high);
      assert log == init + [log[|log| - 1]];
      var w := Where(init, f, low, high);
      forall i | 0 <= i < |w| ensures w[i].id < log[|log| - 1].id {
        assert w[i] in w;
        assert w[i] in init;
      }
    }
  }

  /** The rows strictly between two bounds form one slice of the filtered log. */
  lemma {:induction false} WhereIsSlice(log: seq<LogRow>, f: Filter, low: Option<int>, high: Option<int>, from: nat, to: nat)
    requires Ascending(log) && from <= to <= |Filtered(log, f)|
    requires if low.None? then from == 0 else Splits(Filtered(log, f), low.value, from)
    requires if high.None? then to == |Filtered(log, f)| else Splits(Filtered(log, f), high.value - 1, to)
    ensures Where(log, f, low, high) == Filtered(log, f)[from..to]
  {
    var rows := Filtered(log, f);
    WhereAscends(log, f, None, None);
    BoundsOfSplits(rows, low, high, from, to);
    KeepOfWhere(log, f, low, high);
    KeepIsSlice(rows, low, high, from, to);
  }

  lemma {:induction false} BoundsOfSplits(rows: seq<LogRow>, low: Option<int>, high: Option<int>, from: nat, to: nat)
    requires Ascending(rows) && from <= to <= |rows|
    requires if low.None? then from == 0 else Splits(rows, low.value, from)
    requires if high.None? then to == |rows| else Splits(rows, high.value - 1, to)
    ensures forall i :: 0 <= i < |rows| ==> (Above(low, rows[i].id) <==> from <= i)
    ensures forall i :: 0 <= i < |rows| ==> (Below(high, rows[i].id) <==> i < to)
  {
  }

  /** Applying the bounds after the facets is the same as applying them together. */
  ghost function Keep(rows: seq<LogRow>, low: Option<int>, high: Option<int>): seq<LogRow> {
    if rows == [] then []
    else
      var row := rows[|rows| - 1];
      Keep(rows[..|rows| - 1], low, high) + if Above(low, row.id) && Below(high, row.id) then [row] else []
  }

  lemma {:induction false} KeepSnoc(rows: seq<LogRow>, row: LogRow, low: Option<int>, high: Option<int>)
    ensures Keep(rows + [row], low, high)
            == Keep(rows, low, high) + if Above(low, row.id) && Below(high, row.id) then [row] else []
  {
    assert (rows + [row])[..|rows|] == rows;
  }

  lemma {:induction false} KeepOfWhere(log: seq<LogRow>, f: Filter, low: Option<int>, high: Option<int>)
    ensures Where(log, f, low, high) == Keep(Filtered(log, f), low, high)
  {
    if log != [] {
      var init, row := log[..|log| - 1], log[|log| - 1];
      KeepOfWhere(init, f, low, high);
      if Matches(f, row) {
        assert Filtered(log, f) == Filtered(init, f) + [row];
        KeepSnoc(Filtered(init, f), row, low, high);
      } else {
        assert Filtered(log, f) == Filtered(init, f);
      }
    }
  }

  lemma {:induction false} KeepIsSlice(rows: seq<LogRow>, low: Option<int>, high: Option<int>, from: nat, to: nat)
    requires from <= to <= |rows|
    requires forall i :: 0 <= i < |rows| ==> (Above(low, rows[i].id) <==> from <= i)
    requires forall i :: 0 <= i < |rows| ==> (Below(high, rows[i].id) <==> i < to)
    ensures Keep(rows, low, high) == rows[from..to]
  {
    if rows != [] {
      var n := |rows| - 1;
      KeepSnoc(rows[..n], rows[n], low, high);
      assert rows == rows[..n] + [rows[n]];
      KeepIsSlice(rows[..n], low, high, Min(from, n), Min(to, n));
    }
  }
}
