/**
 The lifecycle hooks: every one records an audit row, and `on_new_session` first publishes the
 realtime event. A hook awaits its insert, so it is cut there: it begins, and some time later
 its insert settles, while any other hooks begin and settle in between. The row's id and
 timestamp come from the database, and whether the insert succeeds is up to it; all three are
 inputs.
 */
module AuditHooks {
  import opened Options
  import opened Collections
  import opened AuditLog
  import AuditPages
  import opened Fanout

  const NEW_SESSION := "on_new_session"

  datatype HookContext = HookContext(email: Option<string>, tenantId: Option<string>, ip: string)
  datatype HookUser = HookUser(id: string, tenantId: string)

  /** What the database does with one insert. */
  datatype Insert = Insert(id: int, createdAt: string, succeeds: bool)

  /** A new session, or any of the hooks that only record. */
  datatype Call =
    | NewSession(user: HookUser, ctx: HookContext)
    | Other(event: string, actorId: Option<string>, ctx: HookContext)

  /** The masked row; the hooks write no metadata, which the reader renders as `{}`. */
  function RowOf(event: string, actorId: Option<string>, ctx: HookContext, insert: Insert): LogRow {
    LogRow(insert.id, event, ctx.email, actorId, ctx.tenantId, Some(ctx.ip), insert.createdAt, "{}")
  }

  function EventName(call: Call): string {
    if call.NewSession? then NEW_SESSION else call.event
  }

  function ActorId(call: Call): Option<string> {
    if call.NewSession? then Some(call.user.id) else call.actorId
  }

  function EventOf(user: HookUser, ctx: HookContext): SessionEvent {
    SessionEvent(user.id, user.tenantId, ctx.ip)
  }

  // ---------------------------------------------------------------------------------------
  // What any interleaving of hooks leaves behind
  // ---------------------------------------------------------------------------------------

  /** A begun call, and whether a socket was subscribed to a wired channel at that moment. */
  datatype Begun = Begun(call: Call, heard: bool)

  /** The insert of call number `call` has settled. */
  datatype Settlement = Settlement(call: nat, insert: Insert)

  /** The calls in the order they began, and the inserts in the order they settled. */
  datatype Journal = Journal(begun: seq<Begun>, settled: seq<Settlement>)

  const NO_CALLS := Journal([], [])

  /** Only begun calls settle, each at most once. */
  ghost predicate WellFormed(j: Journal) {
    && CallsInRange(|j.begun|, j.settled)
    && (forall a, b :: 0 <= a < b < |j.settled| ==> j.settled[a].call != j.settled[b].call)
  }

  ghost predicate CallsInRange(calls: nat, settled: seq<Settlement>) {
    forall a :: 0 <= a < |settled| ==> settled[a].call < calls
  }

  predicate Settles(s: Settlement, i: nat) {
    s.call == i
  }

  /** The insert of call `i` has not settled yet. */
  ghost predicate Unsettled(j: Journal, i: nat) {
    i < |j.begun| && forall a :: 0 <= a < |j.settled| ==> !Settles(j.settled[a], i)
  }

  ghost predicate Failed(j: Journal, i: nat) {
    exists a :: 0 <= a < |j.settled| && Settles(j.settled[a], i) && !j.settled[a].insert.succeeds
  }

  ghost predicate Stored(j: Journal, i: nat) {
    exists a :: 0 <= a < |j.settled| && Settles(j.settled[a], i) && j.settled[a].insert.succeeds
  }

  function Begins(j: Journal, call: Call, heard: bool): Journal {
    j.(begun := j.begun + [Begun(call, heard)])
  }

  function SettlesNext(j: Journal, i: nat, insert: Insert): Journal {
    j.(settled := j.settled + [Settlement(i, insert)])
  }

  /** The events in the channel; a send without a receiver leaves none. */
  function Published(begun: seq<Begun>): seq<SessionEvent> {
    if begun == [] then []
    else
      var last := begun[|begun| - 1];
      Published(begun[..|begun| - 1])
      + if last.call.NewSession? && last.heard then [EventOf(last.call.user, last.call.ctx)] else []
  }

  function CallRow(call: Call, insert: Insert): LogRow {
    RowOf(EventName(call), ActorId(call), call.ctx, insert)
  }

  /** The rows in the log, in the order the inserts settled. */
  ghost function Rows(begun: seq<Begun>, settled: seq<Settlement>): seq<LogRow>
    requires CallsInRange(|begun|, settled)
  {
    if settled == [] then []
    else
      var last := settled[|settled| - 1];
      Rows(begun, settled[..|settled| - 1])
      + if last.insert.succeeds then [CallRow(begun[last.call].call, last.insert)] else []
  }

  class AuditAuthHooks {
    const sessionEvents: Broadcast?
    var log: seq<LogRow>
    ghost var journal: Journal

    /** The log holds the rows of the successful inserts, in the order they settled. */
    ghost predicate Valid()
      reads this
    {
      WellFormed(journal) && log == Rows(journal.begun, journal.settled)
    }

    constructor (sessionEvents: Broadcast?)
      ensures Valid() && this.sessionEvents == sessionEvents && journal == NO_CALLS
    {
      this.sessionEvents := sessionEvents;
      log := [];
      journal := NO_CALLS;
    }

    /** Whether a send now would reach anyone. */
    predicate Listened()
      reads this, if sessionEvents == null then {} else {sessionEvents}
    {
      sessionEvents != null && sessionEvents.receivers > 0
    }

    /** `on_new_session` up to its await: the event is out before the insert is. */
    method OnNewSession(user: HookUser, ctx: HookContext)
      requires Valid() && (sessionEvents != null ==> sessionEvents.Valid())
      modifies this, if sessionEvents == null then {} else {sessionEvents, sessionEvents.buffer}
      ensures Valid() && log == old(log)
      ensures journal == Begins(old(journal), NewSession(user, ctx), old(Listened()))
      ensures sessionEvents != null ==>
                && sessionEvents.Valid() && sessionEvents.receivers == old(sessionEvents.receivers)
                && sessionEvents.history
                   == old(sessionEvents.history) + Published([Begun(NewSession(user, ctx), old(Listened()))])
    {
      ghost var begun := Begun(NewSession(user, ctx), Listened());
      RowsKeep(journal.begun, begun, journal.settled);
      PublishedSnoc([], begun);
      assert [] + [begun] == [begun];
      journal := Begins(journal, NewSession(user, ctx), Listened());
      if sessionEvents != null {
        sessionEvents.Send(EventOf(user, ctx));
      }
    }

    /** Any other hook up to its await: nothing has happened yet. */
    ghost method OtherHook(event: string, actorId: Option<string>, ctx: HookContext)
      requires Valid()
      modifies this
      ensures Valid() && log == old(log) && journal == Begins(old(journal), Other(event, actorId, ctx), false)
    {
      RowsKeep(journal.begun, Begun(Other(event, actorId, ctx), false), journal.settled);
      journal := Begins(journal, Other(event, actorId, ctx), false);
    }

    /** The insert a begun call awaits settles; a failure is reported to the caller. */
    method Record(event: string, actorId: Option<string>, ctx: HookContext, insert: Insert, ghost call: nat)
        returns (ok: bool)
      requires Valid() && Unsettled(journal, call)
      requires var begun := journal.begun[call].call;
               EventName(begun) == event && ActorId(begun) == actorId && begun.ctx == ctx
      modifies this
      ensures Valid() && journal == SettlesNext(old(journal), call, insert)
      ensures ok <==> Stored(journal, call)
      ensures ok ==> NewestShows(log, event, actorId, ctx, insert)
    {
      ok := insert.succeeds;
      RecordLeaves(journal, log, call, event, actorId, ctx, insert);
      journal := SettlesNext(journal, call, insert);
      if ok {
        log := log + [RowOf(event, actorId, ctx, insert)];
      }
    }
  }

  /** The first row of a page shows a hook's name, actor, tenant and address. */
  ghost predicate TopShows(data: seq<WireRow>, event: string, actorId: Option<string>, ctx: HookContext, insert: Insert) {
    && data != [] && data[0].id == insert.id && data[0].event == event && data[0].createdAt == insert.createdAt
    && data[0].tenantId == ctx.tenantId && data[0].ip == Some(ctx.ip) && data[0].details == "{}"
    && data[0].actor == (if ctx.email.Some? then ctx.email.value else if actorId.Some? then actorId.value else "system")
  }

  /** The facets that describe the hook: its event, its email, its actor id, its tenant, or none. */
  ghost predicate Describes(f: Filter, event: string, actorId: Option<string>, ctx: HookContext) {
    && (f.event.None? || f.event == Some(event))
    && (f.tenantId.None? || f.tenantId == ctx.tenantId)
    && (f.actor.None? || f.actor == ctx.email || f.actor == actorId)
  }

  /**
   What the audit page shows of a hook that was just recorded: at the top of the first page,
   under all and any of the facets that describe it and for any limit, a row with its fields.
   */
  ghost predicate NewestShows(log: seq<LogRow>, event: string, actorId: Option<string>, ctx: HookContext, insert: Insert) {
    forall f, limit :: Describes(f, event, actorId, ctx) ==>
                         TopShows(AuditPages.ListLogs(log, AuditPages.AuditQuery(None, f, limit)).data, event, actorId, ctx, insert)
  }

  lemma {:induction false} TopOfPage(log: seq<LogRow>, row: LogRow, f: Filter, limit: int)
    requires Matches(f, row)
    ensures var data := AuditPages.ListLogs(log + [row], AuditPages.AuditQuery(None, f, limit)).data;
            data != [] && data[0] == ToWire(row)
  {
    AuditPages.PageContents(log + [row], AuditPages.AuditQuery(None, f, limit));
    FilteredSnoc(log, row, f);
  }

  lemma {:induction false} RecordedShows(log: seq<LogRow>, event: string, actorId: Option<string>, ctx: HookContext,
                                         insert: Insert)
    ensures NewestShows(log + [RowOf(event, actorId, ctx, insert)], event, actorId, ctx, insert)
  {
    var row := RowOf(event, actorId, ctx, insert);
    forall f, limit | Describes(f, event, actorId, ctx)
      ensures TopShows(AuditPages.ListLogs(log + [row], AuditPages.AuditQuery(None, f, limit)).data, event, actorId, ctx, insert)
    {
      TopOfPage(log, row, f, limit);
    }
  }

  lemma {:induction false} RecordLeaves(j: Journal, log: seq<LogRow>, i: nat, event: string, actorId: Option<string>,
                                        ctx: HookContext, insert: Insert)
    requires WellFormed(j) && log == Rows(j.begun, j.settled) && Unsettled(j, i)
    requires var call := j.begun[i].call; EventName(call) == event && ActorId(call) == actorId && call.ctx == ctx
    ensures var after := SettlesNext(j, i, insert);
            var log' := if insert.succeeds then log + [RowOf(event, actorId, ctx, insert)] else log;
            && WellFormed(after) && log' == Rows(after.begun, after.settled) && (Stored(after, i) <==> insert.succeeds)
            && (insert.succeeds ==> NewestShows(log', event, actorId, ctx, insert))
  {
    SettlesOnce(j, i, insert);
    RecordedShows(log, event, actorId, ctx, insert);
    assert log + [] == log;
  }

  /** From hook to page: a call whose insert succeeds is shown under its own fields. */
  lemma {:induction false} SettledCallIsShown(j: Journal, i: nat, insert: Insert)
    requires WellFormed(j) && Unsettled(j, i) && insert.succeeds
    ensures var after, call := SettlesNext(j, i, insert), j.begun[i].call;
            && WellFormed(after)
            && NewestShows(Rows(after.begun, after.settled), if call.NewSession? then "on_new_session" else call.event,
                           if call.NewSession? then Some(call.user.id) else call.actorId, call.ctx, insert)
  {
    var call := j.begun[i].call;
    SettlesOnce(j, i, insert);
    RecordedShows(Rows(j.begun, j.settled), EventName(call), ActorId(call), call.ctx, insert);
  }

  lemma {:induction false} RowsKeep(begun: seq<Begun>, more: Begun, settled: seq<Settlement>)
    requires CallsInRange(|begun|, settled)
    ensures CallsInRange(|begun + [more]|, settled) && Rows(begun + [more], settled) == Rows(begun, settled)
  {
    if settled != [] {
      RowsKeep(begun, more, settled[..|settled| - 1]);
    }
  }

  lemma {:induction false} RowsSnoc(begun: seq<Begun>, settled: seq<Settlement>, last: Settlement)
    requires CallsInRange(|begun|, settled) && last.call < |begun|
    ensures CallsInRange(|begun|, settled + [last])
    ensures Rows(begun, settled + [last])
            == Rows(begun, settled) + if last.insert.succeeds then [CallRow(begun[last.call].call, last.insert)] else []
  {
    assert (settled + [last])[..|settled|] == settled;
  }

  /** Settling a pending call keeps the journal well formed; the call is then stored or failed. */
  lemma {:induction false} SettlesOnce(j: Journal, i: nat, insert: Insert)
    requires WellFormed(j) && Unsettled(j, i)
    ensures var after := SettlesNext(j, i, insert);
            && WellFormed(after) && !Unsettled(after, i)
            && (Stored(after, i) <==> insert.succeeds) && (Failed(after, i) <==> !insert.succeeds)
            && Rows(after.begun, after.settled)
               == Rows(j.begun, j.settled) + if insert.succeeds then [CallRow(j.begun[i].call, insert)] else []
  {
    var after := SettlesNext(j, i, insert);
    RowsSnoc(j.begun, j.settled, Settlement(i, insert));
    assert forall a :: 0 <= a < |j.settled| ==> after.settled[a] == j.settled[a] && !Settles(j.settled[a], i);
    assert Settles(after.settled[|j.settled|], i);
  }

  lemma {:induction false} PublishedSnoc(begun: seq<Begun>, last: Begun)
    ensures Published(begun + [last])
            == Published(begun)
               + if last.call.NewSession? && last.heard then [EventOf(last.call.user, last.call.ctx)] else []
  {
    assert (begun + [last])[..|begun|] == begun;
  }

  // ---------------------------------------------------------------------------------------
  // One user's rows and alerts, as numbers of calls
  // ---------------------------------------------------------------------------------------

  function SessionsOf(sub: string, tenant: string): Filter {
    Filter(Some(sub), Some(NEW_SESSION), Some(tenant))
  }

  /** Rows as the alerts they stand for. */
  function AsAlerts(rows: seq<LogRow>): seq<Alert> {
    seq(|rows|, i requires 0 <= i < |rows| => Alert(if rows[i].ip.Some? then rows[i].ip.value else ""))
  }

  /** One user's new sessions, as the audit page filters them. */
  ghost function Trail(j: Journal, sub: string, tenant: string): seq<Alert>
    requires WellFormed(j)
  {
    AsAlerts(Filtered(Rows(j.begun, j.settled), SessionsOf(sub, tenant)))
  }

  /** The same user's realtime alerts. */
  function Alerted(begun: seq<Begun>, sub: string, tenant: string): seq<Alert> {
    Alerts(Published(begun), sub, tenant)
  }

  /** The context names the user's own tenant, and nobody else's email reads as the user's id. */
  predicate Identifies(call: Call, sub: string) {
    if call.NewSession? then
      call.ctx.tenantId == Some(call.user.tenantId) && (call.ctx.email == Some(sub) ==> call.user.id == sub)
    else call.event != NEW_SESSION
  }

  ghost predicate AllIdentify(begun: seq<Begun>, sub: string) {
    forall i :: 0 <= i < |begun| ==> Identifies(begun[i].call, sub)
  }

  /** A new session of this user in this tenant. */
  predicate Concerns(call: Call, sub: string, tenant: string) {
    call.NewSession? && call.user == HookUser(sub, tenant)
  }

  /** Call `i` is a session of this user. */
  predicate Mine(begun: seq<Begun>, i: nat, sub: string, tenant: string) {
    i < |begun| && Concerns(begun[i].call, sub, tenant)
  }

  /** The user's heard sessions, in the order they were published. */
  function HeardCalls(begun: seq<Begun>, sub: string, tenant: string): seq<nat> {
    if begun == [] then []
    else
      var n := |begun| - 1;
      HeardCalls(begun[..n], sub, tenant)
      + if Concerns(begun[n].call, sub, tenant) && begun[n].heard then [n] else []
  }

  /** The user's stored sessions, in the order their inserts settled. */
  ghost function StoredCalls(begun: seq<Begun>, settled: seq<Settlement>, sub: string, tenant: string): seq<nat>
    requires CallsInRange(|begun|, settled)
  {
    if settled == [] then []
    else
      var last := settled[|settled| - 1];
      StoredCalls(begun, settled[..|settled| - 1], sub, tenant)
      + if last.insert.succeeds && Concerns(begun[last.call].call, sub, tenant) then [last.call] else []
  }

  /** The alerts that calls stand for. */
  ghost function AlertsOf(begun: seq<Begun>, calls: seq<nat>): seq<Alert>
    requires AllBegun(begun, calls)
  {
    seq(|calls|, k requires 0 <= k < |calls| => Alert(begun[calls[k]].call.ctx.ip))
  }

  ghost predicate AllBegun(begun: seq<Begun>, calls: seq<nat>) {
    forall k :: 0 <= k < |calls| ==> calls[k] < |begun|
  }

  lemma {:induction false} HeardCallsAre(begun: seq<Begun>, sub: string, tenant: string)
    ensures var heard := HeardCalls(begun, sub, tenant);
            && Increasing(heard)
            && (forall i: nat :: i in heard <==> Mine(begun, i, sub, tenant) && begun[i].heard)
  {
    if begun != [] {
      var n := |begun| - 1;
      var before, last := begun[..n], begun[n];
      var init := HeardCalls(before, sub, tenant);
      HeardCallsAre(before, sub, tenant);
      IncreasingSnoc(init, n);
      var mine := Concerns(last.call, sub, tenant) && last.heard;
      assert HeardCalls(begun, sub, tenant) == if mine then init + [n] else init;
      assert forall i: nat :: Mine(begun, i, sub, tenant) && begun[i].heard
                              <==> (Mine(before, i, sub, tenant) && before[i].heard) || (i == n && mine);
    }
  }

  lemma {:induction false} AlertedAre(begun: seq<Begun>, sub: string, tenant: string)
    ensures AllBegun(begun, HeardCalls(begun, sub, tenant))
    ensures Alerted(begun, sub, tenant) == AlertsOf(begun, HeardCalls(begun, sub, tenant))
  {
    if begun != [] {
      var n := |begun| - 1;
      var init, last := begun[..n], begun[n];
      assert begun == init + [last];
      AlertedAre(init, sub, tenant);
      PublishedSnoc(init, last);
      if last.call.NewSession? && last.heard {
        AlertsSnoc(Published(init), EventOf(last.call.user, last.call.ctx), sub, tenant);
      } else {
        assert Published(init) + [] == Published(init);
      }
    }
  }

  lemma {:induction false} StoredCallsAre(begun: seq<Begun>, settled: seq<Settlement>, sub: string, tenant: string)
    requires CallsInRange(|begun|, settled)
    ensures AllBegun(begun, StoredCalls(begun, settled, sub, tenant))
    ensures forall i: nat :: i in StoredCalls(begun, settled, sub, tenant)
                        <==> Mine(begun, i, sub, tenant) && Stored(Journal(begun, settled), i)
  {
    if settled != [] {
      var n := |settled| - 1;
      var init, last := settled[..n], settled[n];
      StoredCallsAre(begun, init, sub, tenant);
      forall i: nat ensures Stored(Journal(begun, settled), i)
                            <==> Stored(Journal(begun, init), i) || (last.call == i && last.insert.succeeds) {
        StoredSnoc(begun, init, last, i);
        assert init + [last] == settled;
      }
    }
  }

  lemma {:induction false} StoredSnoc(begun: seq<Begun>, init: seq<Settlement>, last: Settlement, i: nat)
    ensures Stored(Journal(begun, init + [last]), i)
            <==> Stored(Journal(begun, init), i) || (last.call == i && last.insert.succeeds)
  {
    var settled := init + [last];
    assert forall a :: 0 <= a < |init| ==> settled[a] == init[a];
    assert settled[|init|] == last;
    if Stored(Journal(begun, init), i) {
      var a :| 0 <= a < |init| && Settles(init[a], i) && init[a].insert.succeeds;
      assert Settles(settled[a], i);
    }
    if last.call == i && last.insert.succeeds {
      assert Settles(settled[|init|], i);
    }
  }

  lemma {:induction false} TrailIs(begun: seq<Begun>, settled: seq<Settlement>, sub: string, tenant: string)
    requires CallsInRange(|begun|, settled) && AllIdentify(begun, sub)
    ensures AllBegun(begun, StoredCalls(begun, settled, sub, tenant))
    ensures AsAlerts(Filtered(Rows(begun, settled), SessionsOf(sub, tenant)))
            == AlertsOf(begun, StoredCalls(begun, settled, sub, tenant))
  {
    if settled != [] {
      var init, last := settled[..|settled| - 1], settled[|settled| - 1];
      assert settled == init + [last];
      TrailIs(begun, init, sub, tenant);
      SettlementExtends(begun, init, last, sub, tenant);
      if last.insert.succeeds && Concerns(begun[last.call].call, sub, tenant) {
        AlertsOfSnoc(begun, StoredCalls(begun, init, sub, tenant), last.call);
      }
    }
  }

  /** A settlement adds a row and a number for each session stored of this user's, and nothing else. */
  lemma {:induction false} SettlementExtends(begun: seq<Begun>, init: seq<Settlement>, last: Settlement, sub: string,
                                             tenant: string)
    requires CallsInRange(|begun|, init) && last.call < |begun| && AllIdentify(begun, sub)
    ensures CallsInRange(|begun|, init + [last])
    ensures var adds := last.insert.succeeds && Concerns(begun[last.call].call, sub, tenant);
            var f := SessionsOf(sub, tenant);
            && StoredCalls(begun, init + [last], sub, tenant)
               == (if adds then StoredCalls(begun, init, sub, tenant) + [last.call] else StoredCalls(begun, init, sub, tenant))
            && AsAlerts(Filtered(Rows(begun, init + [last]), f))
               == (if adds then AsAlerts(Filtered(Rows(begun, init), f)) + [Alert(begun[last.call].call.ctx.ip)]
                   else AsAlerts(Filtered(Rows(begun, init), f)))
  {
    assert (init + [last])[..|init|] == init;
    RowsSnoc(begun, init, last);
    if last.insert.succeeds {
      var row := CallRow(begun[last.call].call, last.insert);
      RowMatches(begun[last.call].call, last.insert, sub, tenant);
      FilteredSnoc(Rows(begun, init), row, SessionsOf(sub, tenant));
      AsAlertsSnoc(Filtered(Rows(begun, init), SessionsOf(sub, tenant)), row);
    } else {
      assert Rows(begun, init) + [] == Rows(begun, init);
    }
  }

  lemma {:induction false} AsAlertsSnoc(rows: seq<LogRow>, row: LogRow)
    ensures AsAlerts(rows + [row]) == AsAlerts(rows) + [Alert(if row.ip.Some? then row.ip.value else "")]
  {
  }

  lemma {:induction false} AlertsOfSnoc(begun: seq<Begun>, calls: seq<nat>, last: nat)
    requires AllBegun(begun, calls) && last < |begun|
    ensures AllBegun(begun, calls + [last])
    ensures AlertsOf(begun, calls + [last]) == AlertsOf(begun, calls) + [Alert(begun[last].call.ctx.ip)]
  {
  }

  lemma {:induction false} RowMatches(call: Call, insert: Insert, sub: string, tenant: string)
    requires Identifies(call, sub)
    ensures Matches(SessionsOf(sub, tenant), CallRow(call, insert)) <==> Concerns(call, sub, tenant)
  {
  }

  lemma {:induction false} FilteredSnoc(log: seq<LogRow>, row: LogRow, f: Filter)
    ensures Filtered(log + [row], f) == Filtered(log, f) + if Matches(f, row) then [row] else []
  {
    assert (log + [row])[..|log|] == log;
  }

  lemma {:induction false} StoredCallsDistinct(j: Journal, sub: string, tenant: string)
    requires WellFormed(j)
    ensures Distinct(StoredCalls(j.begun, j.settled, sub, tenant))
    decreases |j.settled|
  {
    if j.settled != [] {
      var n := |j.settled| - 1;
      var init, last := Journal(j.begun, j.settled[..n]), j.settled[n];
      StoredCallsDistinct(init, sub, tenant);
      StoredCallsAre(init.begun, init.settled, sub, tenant);
      assert !Stored(init, last.call);
    }
  }

  // ---------------------------------------------------------------------------------------
  // The durable trail against the realtime alerts
  // ---------------------------------------------------------------------------------------

  /** Every heard session of the user is stored: its insert neither failed nor is pending. */
  ghost predicate HeardAreStored(j: Journal, sub: string, tenant: string) {
    forall i: nat :: Mine(j.begun, i, sub, tenant) && j.begun[i].heard ==> Stored(j, i)
  }

  ghost predicate StoredAreHeard(j: Journal, sub: string, tenant: string) {
    forall i: nat :: Mine(j.begun, i, sub, tenant) && Stored(j, i) ==> j.begun[i].heard
  }

  /** Settlement `a` stored a heard session of the user. */
  ghost predicate StoresHeard(j: Journal, a: nat, sub: string, tenant: string)
    requires WellFormed(j)
  {
    a < |j.settled| && j.settled[a].insert.succeeds
    && Mine(j.begun, j.settled[a].call, sub, tenant) && j.begun[j.settled[a].call].heard
  }

  /** The inserts of the user's heard sessions succeeded in the order the sessions were published. */
  ghost predicate StoredInOrder(j: Journal, sub: string, tenant: string)
    requires WellFormed(j)
  {
    forall a: nat, b: nat :: a < b && StoresHeard(j, a, sub, tenant) && StoresHeard(j, b, sub, tenant) ==>
                               j.settled[a].call < j.settled[b].call
  }

  /** The user's sessions come from different addresses, so that an alert tells which one it is. */
  ghost predicate DistinctAddresses(begun: seq<Begun>, sub: string, tenant: string) {
    forall i: nat, j: nat :: i < j && Mine(begun, i, sub, tenant) && Mine(begun, j, sub, tenant) ==>
                               begun[i].call.ctx.ip != begun[j].call.ctx.ip
  }

  /** The settlements that stored a session of the user, by position. */
  ghost function StoringSettlements(begun: seq<Begun>, settled: seq<Settlement>, sub: string, tenant: string): seq<nat>
    requires CallsInRange(|begun|, settled)
  {
    if settled == [] then []
    else
      var n := |settled| - 1;
      StoringSettlements(begun, settled[..n], sub, tenant)
      + if settled[n].insert.succeeds && Concerns(begun[settled[n].call].call, sub, tenant) then [n] else []
  }

  /** The settlement stored a session of the user. */
  ghost predicate Storing(begun: seq<Begun>, settled: seq<Settlement>, a: nat, sub: string, tenant: string) {
    a < |settled| && settled[a].insert.succeeds && Mine(begun, settled[a].call, sub, tenant)
  }

  lemma {:induction false} StoringSettlementsAre(begun: seq<Begun>, settled: seq<Settlement>, sub: string, tenant: string)
    requires CallsInRange(|begun|, settled)
    ensures var at := StoringSettlements(begun, settled, sub, tenant);
            Increasing(at) && forall a: nat :: a in at <==> Storing(begun, settled, a, sub, tenant)
  {
    if settled != [] {
      var n := |settled| - 1;
      var init := settled[..n];
      var at := StoringSettlements(begun, init, sub, tenant);
      StoringSettlementsAre(begun, init, sub, tenant);
      IncreasingSnoc(at, n);
      var storing := Storing(begun, settled, n, sub, tenant);
      assert StoringSettlements(begun, settled, sub, tenant) == if storing then at + [n] else at;
      assert forall a: nat :: Storing(begun, settled, a, sub, tenant)
                              <==> Storing(begun, init, a, sub, tenant) || (a == n && storing);
    }
  }

  /** They are, in order, the settlements of the stored calls. */
  lemma {:induction false} StoringSettlementsStore(begun: seq<Begun>, settled: seq<Settlement>, sub: string, tenant: string)
    requires CallsInRange(|begun|, settled)
    ensures var at, calls := StoringSettlements(begun, settled, sub, tenant), StoredCalls(begun, settled, sub, tenant);
            |at| == |calls| && forall k :: 0 <= k < |at| ==> at[k] < |settled| && settled[at[k]].call == calls[k]
  {
    if settled != [] {
      StoringSettlementsStore(begun, settled[..|settled| - 1], sub, tenant);
    }
  }

  /** The order of the inserts, as an order of the calls' numbers. */
  lemma {:induction false} OrderOfStored(j: Journal, sub: string, tenant: string)
    requires WellFormed(j)
    ensures StoredInOrder(j, sub, tenant)
            <==> KeepsOrder(HeardCalls(j.begun, sub, tenant), StoredCalls(j.begun, j.settled, sub, tenant))
  {
    var heard, calls := HeardCalls(j.begun, sub, tenant), StoredCalls(j.begun, j.settled, sub, tenant);
    var at := StoringSettlements(j.begun, j.settled, sub, tenant);
    HeardCallsAre(j.begun, sub, tenant);
    StoringSettlementsAre(j.begun, j.settled, sub, tenant);
    StoringSettlementsStore(j.begun, j.settled, sub, tenant);
    assert forall k :: 0 <= k < |at| ==> at[k] in at && Storing(j.begun, j.settled, at[k], sub, tenant);
    assert forall k :: 0 <= k < |at| ==> (calls[k] in heard <==> StoresHeard(j, at[k], sub, tenant));
    assert forall a: nat :: StoresHeard(j, a, sub, tenant) ==> a in at;
    PositionsCarryOrder(j, heard, calls, at, sub, tenant);
  }

  lemma {:induction false} PositionsCarryOrder(j: Journal, heard: seq<nat>, calls: seq<nat>, at: seq<nat>, sub: string,
                                               tenant: string)
    requires WellFormed(j) && Increasing(at) && |at| == |calls|
    requires forall k :: 0 <= k < |at| ==> at[k] < |j.settled| && j.settled[at[k]].call == calls[k]
    requires forall k :: 0 <= k < |at| ==> (calls[k] in heard <==> StoresHeard(j, at[k], sub, tenant))
    requires forall a: nat :: StoresHeard(j, a, sub, tenant) ==> a in at
    ensures StoredInOrder(j, sub, tenant) <==> KeepsOrder(heard, calls)
  {
    if KeepsOrder(heard, calls) {
      forall a: nat, b: nat | a < b && StoresHeard(j, a, sub, tenant) && StoresHeard(j, b, sub, tenant)
        ensures j.settled[a].call < j.settled[b].call
      {
        var i :| 0 <= i < |at| && at[i] == a;
        var k :| 0 <= k < |at| && at[k] == b;
        assert i < k;
        assert calls[i] in heard && calls[k] in heard;
      }
    }
    if StoredInOrder(j, sub, tenant) {
      forall i, k | 0 <= i < k < |calls| && calls[i] in heard && calls[k] in heard ensures calls[i] < calls[k] {
        assert at[i] < at[k];
        assert StoresHeard(j, at[i], sub, tenant) && StoresHeard(j, at[k], sub, tenant);
      }
    }
  }

  // ---------------------------------------------------------------------------------------
  // From numbers back to alerts
  // ---------------------------------------------------------------------------------------

  /** No two of the calls have the same address. */
  ghost predicate TellsApart(begun: seq<Begun>, a: seq<nat>, b: seq<nat>)
    requires AllBegun(begun, a) && AllBegun(begun, b)
  {
    forall i, k :: 0 <= i < |a| && 0 <= k < |b| && begun[a[i]].call.ctx.ip == begun[b[k]].call.ctx.ip ==> a[i] == b[k]
  }

  lemma {:induction false} SameAlerts(begun: seq<Begun>, a: seq<nat>, b: seq<nat>)
    requires AllBegun(begun, a) && AllBegun(begun, b) && TellsApart(begun, a, b)
    ensures AlertsOf(begun, a) == AlertsOf(begun, b) <==> a == b
  {
    if AlertsOf(begun, a) == AlertsOf(begun, b) {
      assert |a| == |AlertsOf(begun, a)| == |b|;
      forall k | 0 <= k < |a| ensures a[k] == b[k] {
        assert AlertsOf(begun, a)[k] == AlertsOf(begun, b)[k];
      }
    }
  }

  lemma {:induction false} AlertsContained(begun: seq<Begun>, a: seq<nat>, b: seq<nat>)
    requires AllBegun(begun, a) && AllBegun(begun, b)
    ensures Contained(a, b) ==> Contained(AlertsOf(begun, a), AlertsOf(begun, b))
    ensures TellsApart(begun, a, b) && Contained(AlertsOf(begun, a), AlertsOf(begun, b)) ==> Contained(a, b)
  {
    var alertsA, alertsB := AlertsOf(begun, a), AlertsOf(begun, b);
    if Contained(a, b) {
      forall x | x in alertsA ensures x in alertsB {
        var i :| 0 <= i < |alertsA| && alertsA[i] == x;
        assert a[i] in b;
        var k :| 0 <= k < |b| && b[k] == a[i];
        assert alertsB[k] == x;
      }
    }
    if TellsApart(begun, a, b) && Contained(alertsA, alertsB) {
      forall x | x in a ensures x in b {
        var i :| 0 <= i < |a| && a[i] == x;
        assert alertsA[i] in alertsB;
        var k :| 0 <= k < |alertsB| && alertsB[k] == alertsA[i];
        assert b[k] == x;
      }
    }
  }

  lemma {:induction false} AlertsSubsequence(begun: seq<Begun>, a: seq<nat>, b: seq<nat>)
    requires AllBegun(begun, a) && AllBegun(begun, b)
    ensures IsSubsequence(a, b) ==> IsSubsequence(AlertsOf(begun, a), AlertsOf(begun, b))
    ensures TellsApart(begun, a, b) && IsSubsequence(AlertsOf(begun, a), AlertsOf(begun, b)) ==> IsSubsequence(a, b)
    decreases |b|
  {
    if a != [] && b != [] {
      var initA, initB := a[..|a| - 1], b[..|b| - 1];
      AlertsSubsequence(begun, a, initB);
      AlertsSubsequence(begun, initA, initB);
      assert AlertsOf(begun, a)[..|a| - 1] == AlertsOf(begun, initA);
      assert AlertsOf(begun, b)[..|b| - 1] == AlertsOf(begun, initB);
    }
  }

  /** Of distinct calls, those with a given alert. */
  ghost function CallsWith(begun: seq<Begun>, calls: seq<nat>, alert: Alert): set<nat>
    requires AllBegun(begun, calls)
  {
    set i | i in calls && i < |begun| && Alert(begun[i].call.ctx.ip) == alert
  }

  lemma {:induction false} AlertCount(begun: seq<Begun>, calls: seq<nat>, alert: Alert)
    requires AllBegun(begun, calls) && Distinct(calls)
    ensures multiset(AlertsOf(begun, calls))[alert] == |CallsWith(begun, calls, alert)|
    decreases |calls|
  {
    if calls != [] {
      var init, last := calls[..|calls| - 1], calls[|calls| - 1];
      assert calls == init + [last] && last !in init;
      AlertCount(begun, init, alert);
      AlertsOfSnoc(begun, init, last);
      CallsWithSnoc(begun, init, last, alert);
    }
  }

  lemma {:induction false} CallsWithSnoc(begun: seq<Begun>, init: seq<nat>, last: nat, alert: Alert)
    requires AllBegun(begun, init) && last < |begun| && last !in init
    ensures AllBegun(begun, init + [last])
    ensures |CallsWith(begun, init + [last], alert)|
            == |CallsWith(begun, init, alert)| + if Alert(begun[last].call.ctx.ip) == alert then 1 else 0
  {
    var before := CallsWith(begun, init, alert);
    assert last !in before;
    assert CallsWith(begun, init + [last], alert)
        == before + if Alert(begun[last].call.ctx.ip) == alert then {last} else {};
  }

  /** The same calls in any order stand for the same alerts, each as often. */
  lemma {:induction false} AlertsMultiset(begun: seq<Begun>, a: seq<nat>, b: seq<nat>)
    requires AllBegun(begun, a) && AllBegun(begun, b) && Distinct(a) && Distinct(b)
    requires Contained(a, b) && Contained(b, a)
    ensures multiset(AlertsOf(begun, a)) == multiset(AlertsOf(begun, b))
  {
    forall alert ensures multiset(AlertsOf(begun, a))[alert] == multiset(AlertsOf(begun, b))[alert] {
      AlertCount(begun, a, alert);
      AlertCount(begun, b, alert);
      assert CallsWith(begun, a, alert) == CallsWith(begun, b, alert);
    }
  }

  // ---------------------------------------------------------------------------------------
  // The theorems
  // ---------------------------------------------------------------------------------------

  /** Rows and alerts of a user, and what is known of the calls they stand for. */
  lemma {:induction false} InNumbers(j: Journal, sub: string, tenant: string) returns (heard: seq<nat>, stored: seq<nat>)
    requires WellFormed(j) && AllIdentify(j.begun, sub)
    ensures heard == HeardCalls(j.begun, sub, tenant) && stored == StoredCalls(j.begun, j.settled, sub, tenant)
    ensures Increasing(heard) && Distinct(heard) && Distinct(stored) && AllBegun(j.begun, heard) && AllBegun(j.begun, stored)
    ensures Alerted(j.begun, sub, tenant) == AlertsOf(j.begun, heard)
    ensures Trail(j, sub, tenant) == AlertsOf(j.begun, stored)
    ensures forall i: nat :: i in heard <==> Mine(j.begun, i, sub, tenant) && j.begun[i].heard
    ensures forall i: nat :: i in stored <==> Mine(j.begun, i, sub, tenant) && Stored(j, i)
    ensures Contained(heard, stored) <==> HeardAreStored(j, sub, tenant)
    ensures Contained(stored, heard) <==> StoredAreHeard(j, sub, tenant)
    ensures KeepsOrder(heard, stored) <==> StoredInOrder(j, sub, tenant)
  {
    heard, stored := HeardCalls(j.begun, sub, tenant), StoredCalls(j.begun, j.settled, sub, tenant);
    HeardCallsAre(j.begun, sub, tenant);
    AlertedAre(j.begun, sub, tenant);
    StoredCallsAre(j.begun, j.settled, sub, tenant);
    StoredCallsDistinct(j, sub, tenant);
    TrailIs(j.begun, j.settled, sub, tenant);
    OrderOfStored(j, sub, tenant);
  }

  lemma {:induction false} AddressesTellApart(j: Journal, sub: string, tenant: string, a: seq<nat>, b: seq<nat>)
    requires DistinctAddresses(j.begun, sub, tenant) && AllBegun(j.begun, a) && AllBegun(j.begun, b)
    requires forall x :: x in a || x in b ==> Mine(j.begun, x, sub, tenant)
    ensures TellsApart(j.begun, a, b)
  {
    forall i, k | 0 <= i < |a| && 0 <= k < |b| && j.begun[a[i]].call.ctx.ip == j.begun[b[k]].call.ctx.ip
      ensures a[i] == b[k]
    {
      assert a[i] in a && b[k] in b;
      assert Mine(j.begun, a[i], sub, tenant) && Mine(j.begun, b[k], sub, tenant);
    }
  }

  /**
   The durable record, at any moment of any interleaving: every alert of a user is among the
   user's rows if and only if no session somebody heard failed to be stored or is still
   pending; and they are there in the order they were published if and only if, besides,
   those inserts succeeded in that order.
   */
  lemma {:induction false} TrailIsDurable(j: Journal, sub: string, tenant: string)
    requires WellFormed(j) && AllIdentify(j.begun, sub) && DistinctAddresses(j.begun, sub, tenant)
    ensures Contained(Alerted(j.begun, sub, tenant), Trail(j, sub, tenant)) <==> HeardAreStored(j, sub, tenant)
    ensures IsSubsequence(Alerted(j.begun, sub, tenant), Trail(j, sub, tenant))
            <==> HeardAreStored(j, sub, tenant) && StoredInOrder(j, sub, tenant)
  {
    var heard, stored := InNumbers(j, sub, tenant);
    AddressesTellApart(j, sub, tenant, heard, stored);
    AlertsContained(j.begun, heard, stored);
    AlertsSubsequence(j.begun, heard, stored);
    SubsequenceWhen(heard, stored);
  }

  /** With none of the user's inserts pending, being stored is not having failed. */
  lemma {:induction false} NothingPending(j: Journal, sub: string, tenant: string)
    requires WellFormed(j)
    requires forall i: nat :: Mine(j.begun, i, sub, tenant) ==> !Unsettled(j, i)
    ensures HeardAreStored(j, sub, tenant)
            <==> forall i: nat :: Mine(j.begun, i, sub, tenant) && j.begun[i].heard ==> !Failed(j, i)
  {
    forall i: nat | Mine(j.begun, i, sub, tenant) ensures Stored(j, i) <==> !Failed(j, i) {
      assert !Unsettled(j, i);
      var a :| 0 <= a < |j.settled| && Settles(j.settled[a], i);
      assert forall b :: 0 <= b < |j.settled| && Settles(j.settled[b], i) ==> b == a;
    }
  }

  /** Whatever the addresses: alerts whose sessions are all stored are all among the rows. */
  lemma {:induction false} TrailKeepsAlerts(j: Journal, sub: string, tenant: string)
    requires WellFormed(j) && AllIdentify(j.begun, sub) && HeardAreStored(j, sub, tenant)
    ensures Contained(Alerted(j.begun, sub, tenant), Trail(j, sub, tenant))
    ensures StoredInOrder(j, sub, tenant) ==> IsSubsequence(Alerted(j.begun, sub, tenant), Trail(j, sub, tenant))
  {
    var heard, stored := InNumbers(j, sub, tenant);
    AlertsContained(j.begun, heard, stored);
    AlertsSubsequence(j.begun, heard, stored);
    SubsequenceWhen(heard, stored);
  }

  /**
   Rows against alerts, at any moment of any interleaving: a user's rows and alerts read the
   same if and only if exactly the sessions somebody heard are stored, and their inserts
   succeeded in the order they were published.
   */
  lemma {:induction false} TrailRecordsAlerts(j: Journal, sub: string, tenant: string)
    requires WellFormed(j) && AllIdentify(j.begun, sub) && DistinctAddresses(j.begun, sub, tenant)
    ensures Trail(j, sub, tenant) == Alerted(j.begun, sub, tenant)
            <==> HeardAreStored(j, sub, tenant) && StoredAreHeard(j, sub, tenant) && StoredInOrder(j, sub, tenant)
  {
    var heard, stored := InNumbers(j, sub, tenant);
    AddressesTellApart(j, sub, tenant, heard, stored);
    SameAlerts(j.begun, heard, stored);
    SameWhen(heard, stored);
  }

  lemma {:induction false} SameWhen(heard: seq<nat>, stored: seq<nat>)
    requires Increasing(heard) && Distinct(stored)
    ensures heard == stored <==> Contained(heard, stored) && Contained(stored, heard) && KeepsOrder(heard, stored)
  {
    if Contained(heard, stored) && Contained(stored, heard) && KeepsOrder(heard, stored) {
      assert forall i :: 0 <= i < |stored| ==> stored[i] in stored;
      assert Increasing(stored);
      IncreasingIsUnique(heard, stored);
    }
  }

  /** Every session of the user is heard. */
  ghost predicate AllHeard(begun: seq<Begun>, sub: string, tenant: string) {
    forall i: nat :: Mine(begun, i, sub, tenant) ==> begun[i].heard
  }

  /**
   While all of a user's sessions are heard, whatever their addresses: rows and alerts are the
   same, each as often, if and only if no insert has failed or is pending.
   */
  lemma {:induction false} HeardTrail(j: Journal, sub: string, tenant: string)
    requires WellFormed(j) && AllIdentify(j.begun, sub) && AllHeard(j.begun, sub, tenant)
    ensures multiset(Trail(j, sub, tenant)) == multiset(Alerted(j.begun, sub, tenant)) <==> HeardAreStored(j, sub, tenant)
  {
    var heard, stored := InNumbers(j, sub, tenant);
    SameSizeSameElements(stored, heard);
    if Contained(heard, stored) {
      AlertsMultiset(j.begun, heard, stored);
    }
    if multiset(AlertsOf(j.begun, stored)) == multiset(AlertsOf(j.begun, heard)) {
      assert |multiset(AlertsOf(j.begun, stored))| == |stored| && |multiset(AlertsOf(j.begun, heard))| == |heard|;
    }
  }

  // ---------------------------------------------------------------------------------------
  // Concrete runs
  // ---------------------------------------------------------------------------------------

  function ExampleSession(ip: string): Call {
    NewSession(HookUser("u", "acme"), HookContext(None, Some("acme"), ip))
  }

  /** Publishing comes first, so a failed insert leaves an alert without a row. */
  lemma {:induction false} AlertWithoutRow()
    ensures var j := SettlesNext(Begins(NO_CALLS, ExampleSession("1"), true), 0, Insert(1, "", false));
            Published(j.begun) == [SessionEvent("u", "acme", "1")] && WellFormed(j) && Rows(j.begun, j.settled) == []
  {
    PublishedSnoc([], Begun(ExampleSession("1"), true));
    SettlesOnce(Begins(NO_CALLS, ExampleSession("1"), true), 0, Insert(1, "", false));
  }

  /** With nobody listening a stored session raises no alert. */
  lemma {:induction false} RowWithoutAlert()
    ensures var j := SettlesNext(Begins(NO_CALLS, ExampleSession("1"), false), 0, Insert(1, "", true));
            Published(j.begun) == [] && WellFormed(j) && |Rows(j.begun, j.settled)| == 1
  {
    PublishedSnoc([], Begun(ExampleSession("1"), false));
    SettlesOnce(Begins(NO_CALLS, ExampleSession("1"), false), 0, Insert(1, "", true));
  }

  /** Two sessions of one user, both heard; the second's insert overtakes the first's. */
  ghost function Overtaken(): Journal {
    Journal([Begun(ExampleSession("1"), true), Begun(ExampleSession("2"), true)],
            [Settlement(1, Insert(1, "", true)), Settlement(0, Insert(2, "", true))])
  }

  lemma {:induction false} BothAreStored()
    ensures var j := Overtaken(); WellFormed(j) && HeardAreStored(j, "u", "acme") && !StoredInOrder(j, "u", "acme")
  {
    var j := Overtaken();
    assert Settles(j.settled[1], 0) && Settles(j.settled[0], 1);
    assert Stored(j, 0) && Stored(j, 1);
    assert StoresHeard(j, 0, "u", "acme") && StoresHeard(j, 1, "u", "acme");
  }

  /** Neither insert fails, and yet the rows are not in the order of the alerts. */
  lemma {:induction false} OvertakenExample()
    ensures var j := Overtaken();
            && WellFormed(j) && HeardAreStored(j, "u", "acme")
            && Contained(Alerted(j.begun, "u", "acme"), Trail(j, "u", "acme"))
            && !IsSubsequence(Alerted(j.begun, "u", "acme"), Trail(j, "u", "acme"))
  {
    var j := Overtaken();
    assert AllIdentify(j.begun, "u") && DistinctAddresses(j.begun, "u", "acme");
    BothAreStored();
    TrailIsDurable(j, "u", "acme");
  }
}
