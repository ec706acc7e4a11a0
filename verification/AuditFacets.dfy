/** What the audit page shows: the columns of its rows, and which rows each facet keeps. */
module AuditFacets {
  import opened Options
  import opened AuditLog
  import opened AuditPages

  const NO_FACETS := Filter(None, None, None)

  /** The shown rows that satisfy a test, in order. */
  function Select(rows: seq<WireRow>, keep: WireRow -> bool): seq<WireRow> {
    if rows == [] then [] else (if keep(rows[0]) then [rows[0]] else []) + Select(rows[1..], keep)
  }

  /** Everything a client reads by walking an unchanging log to its end. */
  ghost predicate Reads(log: seq<LogRow>, f: Filter, requests: seq<Request>, rows: seq<WireRow>) {
    && requests != [] && requests[0].appended == [] && Ascending(LogAfter(log, requests))
    && Finished(Walk(log, f, None, requests)) && rows == Rows(Walk(log, f, None, requests))
  }

  lemma {:induction false} ReadsFiltered(log: seq<LogRow>, f: Filter, requests: seq<Request>, rows: seq<WireRow>)
    requires Reads(log, f, requests, rows)
    ensures rows == WireRows(Reversed(Filtered(log, f)))
  {
    WalkReadsTheFilteredLog(log, f, requests);
    assert log + [] == log;
  }

  /** Without facets a client reads every row of the log, newest first, column by column. */
  lemma {:induction false} PageShowsColumns(log: seq<LogRow>, requests: seq<Request>, rows: seq<WireRow>)
    requires Reads(log, NO_FACETS, requests, rows)
    ensures |rows| == |log|
    ensures forall k :: 0 <= k < |log| ==>
              var row, shown := log[|log| - 1 - k], rows[k];
              && shown.id == row.id && shown.event == row.event && shown.tenantId == row.tenantId && shown.ip == row.ip
              && shown.createdAt == row.createdAt && shown.details == row.details
              && (row.actorEmail.Some? ==> shown.actor == row.actorEmail.value)
              && (row.actorEmail.None? && row.actorId.Some? ==> shown.actor == row.actorId.value)
              && (row.actorEmail.None? && row.actorId.None? ==> shown.actor == "system")
  {
    ReadsFiltered(log, NO_FACETS, requests, rows);
    NoFacetsKeepAll(log);
  }

  lemma {:induction false} NoFacetsKeepAll(log: seq<LogRow>)
    ensures Filtered(log, NO_FACETS) == log
  {
    if log != [] {
      NoFacetsKeepAll(log[..|log| - 1]);
      assert log == log[..|log| - 1] + [log[|log| - 1]];
    }
  }

  /** When one filter keeps of another's rows those that show a property, so do the readings. */
  lemma {:induction false} NarrowerReads(log: seq<LogRow>, f: Filter, narrow: Filter, keep: WireRow -> bool)
    requires forall i :: 0 <= i < |log| ==> (Matches(narrow, log[i]) <==> Matches(f, log[i]) && keep(ToWire(log[i])))
    ensures WireRows(Reversed(Filtered(log, narrow))) == Select(WireRows(Reversed(Filtered(log, f))), keep)
  {
    if log != [] {
      var init, row := log[..|log| - 1], log[|log| - 1];
      NarrowerReads(init, f, narrow, keep);
      NewestFirst(init, row, f);
      NewestFirst(init, row, narrow);
      assert log == init + [row];
      var older := WireRows(Reversed(Filtered(init, f)));
      assert Matches(narrow, row) <==> Matches(f, row) && keep(ToWire(row));
      SelectFirst(ToWire(row), older, keep);
      assert [] + older == older && [] + Select(older, keep) == Select(older, keep);
    }
  }

  lemma {:induction false} SelectFirst(row: WireRow, older: seq<WireRow>, keep: WireRow -> bool)
    ensures Select([row] + older, keep) == (if keep(row) then [row] else []) + Select(older, keep)
  {
    assert ([row] + older)[1..] == older;
  }

  lemma {:induction false} NewestFirst(init: seq<LogRow>, row: LogRow, f: Filter)
    ensures WireRows(Reversed(Filtered(init + [row], f)))
            == (if Matches(f, row) then [ToWire(row)] else []) + WireRows(Reversed(Filtered(init, f)))
  {
    assert (init + [row])[..|init|] == init;
    assert Filtered(init + [row], f) == if Matches(f, row) then Filtered(init, f) + [row] else Filtered(init, f);
  }

  /** Asking for a tenant keeps exactly the rows that show that tenant, whatever else is asked for. */
  lemma {:induction false} TenantFacet(log: seq<LogRow>, f: Filter, tenant: string, wide: seq<Request>, narrow: seq<Request>,
                                       all: seq<WireRow>, rows: seq<WireRow>)
    requires f.tenantId.None?
    requires Reads(log, f, wide, all) && Reads(log, f.(tenantId := Some(tenant)), narrow, rows)
    ensures rows == Select(all, (row: WireRow) => row.tenantId == Some(tenant))
  {
    ReadsFiltered(log, f, wide, all);
    ReadsFiltered(log, f.(tenantId := Some(tenant)), narrow, rows);
    NarrowerReads(log, f, f.(tenantId := Some(tenant)), (row: WireRow) => row.tenantId == Some(tenant));
  }

  /** Asking for an event keeps exactly the rows that show that event. */
  lemma {:induction false} EventFacet(log: seq<LogRow>, f: Filter, event: string, wide: seq<Request>, narrow: seq<Request>,
                                      all: seq<WireRow>, rows: seq<WireRow>)
    requires f.event.None?
    requires Reads(log, f, wide, all) && Reads(log, f.(event := Some(event)), narrow, rows)
    ensures rows == Select(all, (row: WireRow) => row.event == event)
  {
    ReadsFiltered(log, f, wide, all);
    ReadsFiltered(log, f.(event := Some(event)), narrow, rows);
    NarrowerReads(log, f, f.(event := Some(event)), (row: WireRow) => row.event == event);
  }

  /** The ids of the rows an actor caused, by id or by email. */
  function CausedBy(log: seq<LogRow>, actor: string): set<int> {
    set i | 0 <= i < |log| && (log[i].actorId == Some(actor) || log[i].actorEmail == Some(actor)) :: log[i].id
  }

  /** Asking for an actor keeps exactly the rows that actor caused. */
  lemma {:induction false} ActorFacet(log: seq<LogRow>, f: Filter, actor: string, wide: seq<Request>, narrow: seq<Request>,
                                      all: seq<WireRow>, rows: seq<WireRow>)
    requires f.actor.None?
    requires Reads(log, f, wide, all) && Reads(log, f.(actor := Some(actor)), narrow, rows)
    ensures rows == Select(all, (row: WireRow) => row.id in CausedBy(log, actor))
  {
    ReadsFiltered(log, f, wide, all);
    ReadsFiltered(log, f.(actor := Some(actor)), narrow, rows);
    LogAscends(log, wide);
    forall i | 0 <= i < |log|
      ensures log[i].id in CausedBy(log, actor) <==> log[i].actorId == Some(actor) || log[i].actorEmail == Some(actor)
    {
      CausedByRow(log, actor, i);
    }
    NarrowerReads(log, f, f.(actor := Some(actor)), (row: WireRow) => row.id in CausedBy(log, actor));
  }

  lemma {:induction false} CausedByRow(log: seq<LogRow>, actor: string, i: nat)
    requires Ascending(log) && i < |log|
    ensures log[i].id in CausedBy(log, actor) <==> log[i].actorId == Some(actor) || log[i].actorEmail == Some(actor)
  {
    assert forall k :: 0 <= k < |log| && log[k].id == log[i].id ==> k == i;
  }

  lemma {:induction false} LogAscends(log: seq<LogRow>, requests: seq<Request>)
    requires Ascending(LogAfter(log, requests))
    ensures Ascending(log)
  {
    LogAfterExtends(log, requests);
  }
}
