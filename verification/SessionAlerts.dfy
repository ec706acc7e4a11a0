/**
 The hooks and the sockets as one system: sessions are announced and recorded, each insert
 some time after its event, while any number of sockets come, read and go.
 */
module SessionAlerts {
  import opened Options
  import opened Collections
  import opened AuditLog
  import opened Fanout
  import opened AuditHooks

  datatype World = World(hub: Hub, journal: Journal)

  datatype Action =
    | Begin(call: Call)
    | Settle(number: nat, insert: Insert)
    | Move(step: Fanout.Step)

  /**
   A hook holds a publisher, so it only begins while one lives; it alone publishes. An insert
   settles once, after its call began.
   */
  ghost function Act(w: World, action: Action): (w': World)
    requires InRange(w.hub)
    ensures InRange(w'.hub)
  {
    match action
    case Begin(call) =>
      if !w.hub.alive then w
      else
        World(if call.NewSession? then Fanout.Next(w.hub, Publish(EventOf(call.user, call.ctx))) else w.hub,
              Begins(w.journal, call, Listening(w.hub)))
    case Settle(number, insert) =>
      if Unsettled(w.journal, number) then w.(journal := SettlesNext(w.journal, number, insert)) else w
    case Move(step) => if step.Publish? then w else w.(hub := Fanout.Next(w.hub, step))
  }

  ghost function Perform(w: World, actions: seq<Action>): (w': World)
    requires InRange(w.hub)
    ensures InRange(w'.hub)
    decreases |actions|
  {
    if actions == [] then w else Perform(Act(w, actions[0]), actions[1..])
  }

  const START := World(EMPTY_HUB, NO_CALLS)

  /**
   What the actions do: a hook begins heard exactly when some socket is open, a pending insert
   settles into a row or a failure, and a socket moves as it would alone.
   */
  lemma {:induction false} ActionsDo(w: World, call: Call, number: nat, insert: Insert, step: Fanout.Step)
    requires InRange(w.hub) && WellFormed(w.journal)
    ensures w.hub.alive ==>
              var after := Act(w, Begin(call));
              && after.journal.settled == w.journal.settled
              && after.journal.begun
                 == w.journal.begun + [Begun(call, exists id :: id in w.hub.sockets && w.hub.sockets[id].open)]
    ensures Unsettled(w.journal, number) ==>
              var after := Act(w, Settle(number, insert));
              && WellFormed(after.journal) && after.hub == w.hub && !Unsettled(after.journal, number)
              && (Stored(after.journal, number) <==> insert.succeeds)
              && (Failed(after.journal, number) <==> !insert.succeeds)
    ensures !step.Publish? ==> Act(w, Move(step)) == World(Fanout.Next(w.hub, step), w.journal)
  {
    assert Listening(w.hub) <==> exists id :: id in w.hub.sockets && w.hub.sockets[id].open;
    if Unsettled(w.journal, number) {
      SettlesOnce(w.journal, number, insert);
    }
  }

  /** The hub has exactly the events that heard calls published, and every socket its account. */
  ghost predicate InStep(w: World) {
    HubInvariant(w.hub) && w.hub.history == Published(w.journal.begun) && WellFormed(w.journal)
  }

  lemma {:induction false} BeginKeepsInStep(w: World, call: Call)
    requires InStep(w) && InRange(w.hub) && w.hub.alive
    ensures InStep(Act(w, Begin(call)))
  {
    PublishedSnoc(w.journal.begun, Begun(call, Listening(w.hub)));
    assert Published(w.journal.begun) + [] == Published(w.journal.begun);
    if call.NewSession? {
      Fanout.StepKeepsInvariant(w.hub, Publish(EventOf(call.user, call.ctx)));
    }
  }

  lemma {:induction false} MoveKeepsInStep(w: World, step: Fanout.Step)
    requires InStep(w) && InRange(w.hub) && !step.Publish?
    ensures InStep(Act(w, Move(step)))
  {
    Fanout.StepKeepsInvariant(w.hub, step);
    MoveKeepsHistory(w.hub, step);
  }

  lemma {:induction false} MoveKeepsHistory(hub: Hub, step: Fanout.Step)
    requires InRange(hub) && !step.Publish?
    ensures Fanout.Next(hub, step).history == hub.history
  {
  }

  lemma {:induction false} ActKeepsInStep(w: World, action: Action)
    requires InStep(w) && InRange(w.hub)
    ensures InStep(Act(w, action))
  {
    match action
    case Begin(call) =>
      if w.hub.alive {
        BeginKeepsInStep(w, call);
      }
    case Settle(number, insert) =>
      if Unsettled(w.journal, number) {
        SettlesOnce(w.journal, number, insert);
      }
    case Move(step) =>
      if !step.Publish? {
        MoveKeepsInStep(w, step);
      }
  }

  lemma {:induction false} PerformKeepsInStep(w: World, actions: seq<Action>)
    requires InStep(w) && InRange(w.hub)
    ensures InStep(Perform(w, actions))
    decreases |actions|
  {
    if actions != [] {
      ActKeepsInStep(w, actions[0]);
      PerformKeepsInStep(Act(w, actions[0]), actions[1..]);
    }
  }

  // ---------------------------------------------------------------------------------------
  // A socket that joins
  // ---------------------------------------------------------------------------------------

  /** Every session begun from call number `base` on was heard. */
  ghost predicate HeardFrom(begun: seq<Begun>, base: nat) {
    forall i :: base <= i < |begun| && begun[i].call.NewSession? ==> begun[i].heard
  }

  /** The socket that joined after `base` calls had begun: while it is open, it hears every later one. */
  ghost predicate Attends(w: World, id: nat, sub: string, tenant: string, base: nat) {
    var begun := w.journal.begun;
    && id in w.hub.sockets && w.hub.sockets[id].sub == sub && w.hub.sockets[id].tenant == tenant
    && base <= |begun| && w.hub.sockets[id].joined == |Published(begun[..base])|
    && (w.hub.sockets[id].open ==> HeardFrom(begun, base))
  }

  /** No step changes who a socket is or when it joined, and none opens it again. */
  lemma {:induction false} StepKeepsIdentity(hub: Hub, step: Fanout.Step, id: nat)
    requires InRange(hub) && id in hub.sockets
    ensures var hub' := Fanout.Next(hub, step);
            && id in hub'.sockets
            && hub'.sockets[id].sub == hub.sockets[id].sub && hub'.sockets[id].tenant == hub.sockets[id].tenant
            && hub'.sockets[id].joined == hub.sockets[id].joined
            && (hub'.sockets[id].open ==> hub.sockets[id].open)
  {
  }

  lemma {:induction false} BeginKeepsAttending(w: World, call: Call, id: nat, sub: string, tenant: string, base: nat)
    requires InRange(w.hub) && Attends(w, id, sub, tenant, base) && w.hub.alive
    ensures Attends(Act(w, Begin(call)), id, sub, tenant, base)
  {
    if call.NewSession? {
      StepKeepsIdentity(w.hub, Publish(EventOf(call.user, call.ctx)), id);
    }
    var begun := Begun(call, Listening(w.hub));
    assert (w.journal.begun + [begun])[..base] == w.journal.begun[..base];
    assert w.hub.sockets[id].open ==> begun.heard;
  }

  lemma {:induction false} ActKeepsAttending(w: World, action: Action, id: nat, sub: string, tenant: string, base: nat)
    requires InRange(w.hub) && Attends(w, id, sub, tenant, base)
    ensures Attends(Act(w, action), id, sub, tenant, base)
  {
    match action
    case Begin(call) =>
      if w.hub.alive {
        BeginKeepsAttending(w, call, id, sub, tenant, base);
      }
    case Settle(_, _) =>
    case Move(step) =>
      if !step.Publish? {
        StepKeepsIdentity(w.hub, step, id);
      }
  }

  lemma {:induction false} PerformKeepsAttending(w: World, actions: seq<Action>, id: nat, sub: string, tenant: string,
                                                 base: nat)
    requires InRange(w.hub) && Attends(w, id, sub, tenant, base)
    ensures Attends(Perform(w, actions), id, sub, tenant, base)
    decreases |actions|
  {
    if actions != [] {
      ActKeepsAttending(w, actions[0], id, sub, tenant, base);
      PerformKeepsAttending(Act(w, actions[0]), actions[1..], id, sub, tenant, base);
    }
  }

  lemma {:induction false} PublishedSplits(a: seq<Begun>, b: seq<Begun>)
    ensures Published(a + b) == Published(a) + Published(b)
  {
    if b == [] {
      assert a + b == a;
    } else {
      var init, last := b[..|b| - 1], b[|b| - 1];
      PublishedSplits(a, init);
      assert a + b == (a + init) + [last] && b == init + [last];
      PublishedSnoc(a + init, last);
      PublishedSnoc(init, last);
      var event := if last.call.NewSession? && last.heard then [EventOf(last.call.user, last.call.ctx)] else [];
      assert (Published(a) + Published(init)) + event == Published(a) + (Published(init) + event);
    }
  }

  lemma {:induction false} AlertsSplit(a: seq<SessionEvent>, b: seq<SessionEvent>, sub: string, tenant: string)
    ensures Alerts(a + b, sub, tenant) == Alerts(a, sub, tenant) + Alerts(b, sub, tenant)
  {
    if b == [] {
      assert a + b == a;
    } else {
      var init, event := b[..|b| - 1], b[|b| - 1];
      AlertsSplit(a, init, sub, tenant);
      assert a + b == (a + init) + [event] && b == init + [event];
      AlertsSnoc(a + init, event, sub, tenant);
      AlertsSnoc(init, event, sub, tenant);
    }
  }

  /** What a socket has sent, followed by what it has still to read. */
  ghost function Told(hub: Hub, id: nat): seq<Alert>
    requires InRange(hub) && id in hub.sockets
  {
    var s := hub.sockets[id];
    s.frames + Alerts(hub.history[s.next..], s.sub, s.tenant)
  }

  /** A socket that never lagged tells its stretch of the history. */
  lemma {:induction false} FramesAhead(history: seq<SessionEvent>, s: Socket)
    requires SocketInvariant(history, s) && s.open && s.lags == []
    ensures s.frames + Alerts(history[s.next..], s.sub, s.tenant) == Alerts(history[s.joined..], s.sub, s.tenant)
  {
    assert history[s.joined..] == history[s.joined..s.next] + history[s.next..];
    AlertsSplit(history[s.joined..s.next], history[s.next..], s.sub, s.tenant);
  }

  /** A socket that attends tells what was published since it joined. */
  lemma {:induction false} AttendantTells(w: World, id: nat, sub: string, tenant: string, base: nat)
    requires InStep(w) && InRange(w.hub) && Attends(w, id, sub, tenant, base)
    requires w.hub.sockets[id].open && w.hub.sockets[id].lags == []
    ensures Told(w.hub, id) == Alerted(w.journal.begun[base..], sub, tenant)
  {
    var begun := w.journal.begun;
    FramesAhead(w.hub.history, w.hub.sockets[id]);
    PublishedSplits(begun[..base], begun[base..]);
    assert begun == begun[..base] + begun[base..];
    assert w.hub.history[w.hub.sockets[id].joined..] == Published(begun[base..]);
  }

  /** The world in which a run of actions is followed by a socket joining, and by another run. */
  ghost function Joined(before: seq<Action>, id: nat, sub: string, tenant: string, after: seq<Action>): (w: World)
    ensures InRange(w.hub)
  {
    Perform(Act(Perform(START, before), Move(Join(id, sub, tenant))), after)
  }

  lemma {:induction false} JoinerAttends(before: seq<Action>, id: nat, sub: string, tenant: string, after: seq<Action>)
    requires id !in Perform(START, before).hub.sockets
    ensures var w := Joined(before, id, sub, tenant, after);
            InStep(w) && Attends(w, id, sub, tenant, |Perform(START, before).journal.begun|)
  {
    var w0 := Perform(START, before);
    var w1 := Act(w0, Move(Join(id, sub, tenant)));
    PerformKeepsInStep(START, before);
    ActKeepsInStep(w0, Move(Join(id, sub, tenant)));
    assert w1.journal.begun[..|w0.journal.begun|] == w0.journal.begun;
    PerformKeepsInStep(w1, after);
    PerformKeepsAttending(w1, after, id, sub, tenant, |w0.journal.begun|);
  }

  // ---------------------------------------------------------------------------------------
  // The calls begun since a moment
  // ---------------------------------------------------------------------------------------

  /** The settlements of the calls from number `base` on, renumbered from there. */
  function SettledSince(settled: seq<Settlement>, base: nat): seq<Settlement> {
    if settled == [] then []
    else
      var last := settled[|settled| - 1];
      SettledSince(settled[..|settled| - 1], base)
      + if last.call >= base then [Settlement(last.call - base, last.insert)] else []
  }

  /** The journal of the calls from number `base` on; their rows are the log's, in its order. */
  function Since(j: Journal, base: nat): Journal {
    if base <= |j.begun| then Journal(j.begun[base..], SettledSince(j.settled, base)) else NO_CALLS
  }

  lemma {:induction false} SettledSinceSnoc(init: seq<Settlement>, last: Settlement, base: nat)
    ensures SettledSince(init + [last], base)
            == if last.call >= base then SettledSince(init, base) + [Settlement(last.call - base, last.insert)]
               else SettledSince(init, base)
  {
    assert (init + [last])[..|init|] == init;
  }

  lemma {:induction false} SettledSinceAre(settled: seq<Settlement>, base: nat) returns (at: seq<nat>)
    ensures Increasing(at) && (forall x :: x in at ==> x < |settled|)
    ensures |at| == |SettledSince(settled, base)|
    ensures forall k :: 0 <= k < |at| ==> at[k] < |settled| && settled[at[k]].call == SettledSince(settled, base)[k].call + base
  {
    at := [];
    if settled != [] {
      var init, last := settled[..|settled| - 1], settled[|settled| - 1];
      assert settled == init + [last];
      SettledSinceSnoc(init, last, base);
      var older := SettledSinceAre(init, base);
      IncreasingSnoc(older, |init|);
      at := if last.call >= base then older + [|init|] else older;
      assert forall k :: 0 <= k < |older| ==> settled[older[k]] == init[older[k]];
    }
  }

  lemma {:induction false} SinceIsWellFormed(j: Journal, base: nat)
    requires WellFormed(j) && base <= |j.begun|
    ensures WellFormed(Since(j, base))
  {
    var since := Since(j, base);
    var at := SettledSinceAre(j.settled, base);
    forall a | 0 <= a < |since.settled| ensures since.settled[a].call < |since.begun| {
      assert j.settled[at[a]].call < |j.begun|;
    }
    forall a, b | 0 <= a < b < |since.settled| ensures since.settled[a].call != since.settled[b].call {
      assert at[a] < at[b];
    }
  }

  /** The rows of those calls are rows of the log, in the log's order. */
  lemma {:induction false} SinceRows(j: Journal, base: nat)
    requires WellFormed(j) && base <= |j.begun|
    ensures WellFormed(Since(j, base))
    ensures IsSubsequence(Rows(Since(j, base).begun, Since(j, base).settled), Rows(j.begun, j.settled))
    decreases |j.settled|
  {
    SinceIsWellFormed(j, base);
    if j.settled != [] {
      var init, last := Journal(j.begun, j.settled[..|j.settled| - 1]), j.settled[|j.settled| - 1];
      assert j.settled == init.settled + [last];
      SinceRows(init, base);
      RowsSnoc(j.begun, init.settled, last);
      SinceRowsSnoc(j.begun, init.settled, last, base);
      var row := if last.insert.succeeds then [CallRow(j.begun[last.call].call, last.insert)] else [];
      SubsequenceGrows(Rows(Since(init, base).begun, Since(init, base).settled), Rows(j.begun, init.settled), row,
                       last.call >= base);
    }
  }

  lemma {:induction false} SinceRowsSnoc(begun: seq<Begun>, init: seq<Settlement>, last: Settlement, base: nat)
    requires base <= |begun| && last.call < |begun| && CallsInRange(|begun| - base, SettledSince(init, base))
    ensures CallsInRange(|begun| - base, SettledSince(init + [last], base))
    ensures Rows(begun[base..], SettledSince(init + [last], base))
            == Rows(begun[base..], SettledSince(init, base))
               + if last.call >= base && last.insert.succeeds then [CallRow(begun[last.call].call, last.insert)] else []
  {
    SettledSinceSnoc(init, last, base);
    if last.call >= base {
      var later, since, settlement := begun[base..], SettledSince(init, base), Settlement(last.call - base, last.insert);
      assert later[settlement.call] == begun[last.call];
      RowsSnoc(later, since, settlement);
    }
  }

  lemma {:induction false} SubsequenceGrows(part: seq<LogRow>, whole: seq<LogRow>, more: seq<LogRow>, kept: bool)
    requires IsSubsequence(part, whole) && |more| <= 1
    ensures IsSubsequence(part + if kept then more else [], whole + more)
  {
    if more == [] {
      assert part + [] == part && whole + more == whole;
    } else {
      assert part + [] == part;
      assert (whole + more)[..|whole|] == whole && (part + more)[..|part|] == part;
    }
  }

  /** The socket is still open and has never lagged. */
  ghost predicate JoinerHolds(before: seq<Action>, id: nat, sub: string, tenant: string, after: seq<Action>) {
    var w := Joined(before, id, sub, tenant, after);
    id in w.hub.sockets && w.hub.sockets[id].open && w.hub.sockets[id].lags == []
  }

  /** The calls begun since the socket joined. */
  ghost function SinceJoin(before: seq<Action>, id: nat, sub: string, tenant: string, after: seq<Action>): Journal {
    Since(Joined(before, id, sub, tenant, after).journal, |Perform(START, before).journal.begun|)
  }

  /**
   The page and the socket tell the same story. A socket joins at any moment of any run in
   which hooks begin, inserts settle and sockets move in any order. While it is open and has
   never lagged, what it tells and the user's rows of the sessions begun since it joined are
   the same alerts, each as often, if and only if none of those inserts has failed or is
   pending; and, for sessions from different addresses, they are so in the same order if and
   only if, besides, the inserts succeeded in the order the sessions were published.
   */
  lemma {:induction false} FramesAreStoredRows(before: seq<Action>, id: nat, sub: string, tenant: string, after: seq<Action>)
    requires id !in Perform(START, before).hub.sockets
    requires JoinerHolds(before, id, sub, tenant, after)
    requires AllIdentify(SinceJoin(before, id, sub, tenant, after).begun, sub)
    ensures var hub := Joined(before, id, sub, tenant, after).hub;
            var since := SinceJoin(before, id, sub, tenant, after);
            && id in hub.sockets && WellFormed(since) && AllHeard(since.begun, sub, tenant)
            && (multiset(Told(hub, id)) == multiset(Trail(since, sub, tenant)) <==> HeardAreStored(since, sub, tenant))
            && (DistinctAddresses(since.begun, sub, tenant) ==>
                  (Told(hub, id) == Trail(since, sub, tenant)
                   <==> HeardAreStored(since, sub, tenant) && StoredInOrder(since, sub, tenant)))
  {
    var w, base := Joined(before, id, sub, tenant, after), |Perform(START, before).journal.begun|;
    var since := SinceJoin(before, id, sub, tenant, after);
    JoinerAttends(before, id, sub, tenant, after);
    AttendantTells(w, id, sub, tenant, base);
    SinceIsWellFormed(w.journal, base);
    assert AllHeard(since.begun, sub, tenant);
    HeardTrail(since, sub, tenant);
    if DistinctAddresses(since.begun, sub, tenant) {
      TrailRecordsAlerts(since, sub, tenant);
    }
  }
}
