/**
 The realtime fan-out: the bounded broadcast channel that `on_new_session` publishes onto,
 and the per-socket loop that forwards a subject's own events.

 The channel keeps the last `CAPACITY` published events in a ring; every receiver has its own
 cursor, and one that fell further behind is told how many it missed and moved to the oldest
 event retained.
 */
module Fanout {
  import opened Numbers
  import opened Options

  const CAPACITY: nat := 256

  datatype SessionEvent = SessionEvent(sub: string, tenant: string, ip: string)

  /** The text frame `{ "event": "on_new_session", "ip": ... }`, determined by its ip. */
  datatype Alert = Alert(ip: string)

  function FrameFor(event: SessionEvent, sub: string, tenant: string): Option<Alert> {
    if event.sub != sub || event.tenant != tenant then None else Some(Alert(event.ip))
  }

  /** The alerts a run of events means to one subject in one tenant. */
  function Alerts(events: seq<SessionEvent>, sub: string, tenant: string): seq<Alert> {
    if events == [] then []
    else
      var init := Alerts(events[..|events| - 1], sub, tenant);
      match FrameFor(events[|events| - 1], sub, tenant)
      case None => init
      case Some(alert) => init + [alert]
  }

  function Oldest(published: nat): nat {
    if published > CAPACITY then published - CAPACITY else 0
  }

  datatype Reception = Event(event: SessionEvent) | Lagged(missed: nat) | Closed | Pending

  /** What a receiver whose cursor is `next` gets, given everything published so far. */
  ghost function Receive(history: seq<SessionEvent>, alive: bool, next: nat): Reception
    requires next <= |history|
  {
    if next == |history| then (if alive then Pending else Closed)
    else if next < Oldest(|history|) then Lagged(Oldest(|history|) - next)
    else Event(history[next])
  }

  /** The channel: a ring of `CAPACITY` slots, filled at `tail` modulo its size. */
  class Broadcast {
    const buffer: array<SessionEvent>
    var tail: nat
    var receivers: nat
    var alive: bool
    ghost var history: seq<SessionEvent>

    ghost predicate Valid()
      reads this, buffer
    {
      && buffer.Length == CAPACITY
      && tail == |history|
      && forall i :: Oldest(tail) <= i < tail ==> buffer[i % CAPACITY] == history[i]
    }

    constructor ()
      ensures Valid() && fresh(buffer)
      ensures history == [] && alive && receivers == 0
    {
      buffer := new SessionEvent[CAPACITY](_ => SessionEvent("", "", ""));
      tail, receivers, alive, history := 0, 0, true, [];
    }

    /** A new receiver starts at the tail: it sees nothing published before it subscribed. */
    method Subscribe() returns (next: nat)
      requires Valid()
      modifies this`receivers
      ensures Valid() && receivers == old(receivers) + 1 && next == |history|
    {
      receivers := receivers + 1;
      next := tail;
    }

    /** A receiver goes out of scope. */
    method Unsubscribe()
      requires receivers > 0
      modifies this`receivers
      ensures receivers == old(receivers) - 1
    {
      receivers := receivers - 1;
    }

    /** Sending without a live receiver stores nothing. */
    method Send(event: SessionEvent)
      requires Valid()
      modifies this`tail, this`history, buffer
      ensures Valid()
      ensures history == if receivers == 0 then old(history) else old(history) + [event]
    {
      if receivers > 0 {
        buffer[tail % CAPACITY] := event;
        history := history + [event];
        tail := tail + 1;
      }
    }

    method DropSenders()
      modifies this`alive
      ensures !alive
    {
      alive := false;
    }

    method Recv(next: nat) returns (reception: Reception, next': nat)
      requires Valid() && next <= |history|
      ensures reception == Receive(history, alive, next)
      ensures next' == match reception
                       case Event(_) => next + 1
                       case Lagged(missed) => next + missed
                       case _ => next
    {
      if next == tail {
        return if alive then Pending else Closed, next;
      }
      if tail > CAPACITY && next < tail - CAPACITY {
        var missed := tail - CAPACITY - next;
        return Lagged(missed), next + missed;
      }
      return Event(buffer[next % CAPACITY]), next + 1;
    }
  }

  // ---------------------------------------------------------------------------------------
  // Any number of sockets over one channel
  // ---------------------------------------------------------------------------------------

  /** A skipped stretch `[from, to)`, and how many events had been published when it was skipped. */
  datatype Lag = Lag(from: nat, to: nat, published: nat)

  /**
   One forwarding task. `joined`, `read`, `lags` and `failed` only record its past: where it
   subscribed, the positions of the events it handled, what it skipped, and whether it stopped
   because the send for the last event it received failed.
   */
  datatype Socket = Socket(
    sub: string,
    tenant: string,
    open: bool,
    next: nat,
    frames: seq<Alert>,
    joined: nat,
    read: seq<nat>,
    lags: seq<Lag>,
    failed: bool)

  datatype Hub = Hub(history: seq<SessionEvent>, alive: bool, sockets: map<nat, Socket>)

  datatype Step =
    | Publish(event: SessionEvent)
    | DropPublishers
    | Join(id: nat, sub: string, tenant: string)
    | Wake(id: nat, sendOk: bool)
    | PeerGone(id: nat)

  /** The socket once it has received the event at `next` and sent whatever frame it calls for. */
  ghost function AfterRead(history: seq<SessionEvent>, s: Socket): Socket
    requires s.next < |history|
  {
    var frame := FrameFor(history[s.next], s.sub, s.tenant);
    s.(next := s.next + 1, read := s.read + [s.next],
       frames := if frame.Some? then s.frames + [frame.value] else s.frames)
  }

  /** The socket once it was told how far it lags: it goes on at the oldest event retained. */
  ghost function AfterLag(history: seq<SessionEvent>, s: Socket): Socket {
    var oldest := Oldest(|history|);
    s.(next := oldest, lags := s.lags + [Lag(s.next, oldest, |history|)])
  }

  /** The socket once the send for the event at `next` failed. */
  ghost function AfterFailure(s: Socket): Socket {
    s.(open := false, next := s.next + 1, failed := true)
  }

  /** One turn of the forward loop in which the receive side of the select resolves. */
  ghost function Turn(history: seq<SessionEvent>, alive: bool, s: Socket, sendOk: bool): Socket
    requires s.next <= |history|
  {
    if !s.open then s
    else
      match Receive(history, alive, s.next)
      case Pending => s
      case Closed => s.(open := false)
      case Lagged(_) => AfterLag(history, s)
      case Event(event) =>
        var frame := FrameFor(event, s.sub, s.tenant);
        if frame.Some? && !sendOk then AfterFailure(s)
        else AfterRead(history, s)
  }

  ghost predicate Listening(h: Hub) {
    exists id :: id in h.sockets && h.sockets[id].open
  }

  ghost predicate InRange(h: Hub) {
    forall id :: id in h.sockets ==> h.sockets[id].next <= |h.history|
  }

  ghost function Next(h: Hub, step: Step): (h': Hub)
    requires InRange(h)
    ensures InRange(h')
    ensures h.history <= h'.history
  {
    match step
    case Publish(event) => if h.alive && Listening(h) then h.(history := h.history + [event]) else h
    case DropPublishers => h.(alive := false)
    case Join(id, sub, tenant) =>
      if id in h.sockets then h
      else h.(sockets := h.sockets[id := Socket(sub, tenant, true, |h.history|, [], |h.history|, [], [], false)])
    case Wake(id, sendOk) =>
      if id in h.sockets
      then h.(sockets := h.sockets[id := Turn(h.history, h.alive, h.sockets[id], sendOk)])
      else h
    case PeerGone(id) =>
      if id in h.sockets then h.(sockets := h.sockets[id := h.sockets[id].(open := false)]) else h
  }

  ghost function Run(h: Hub, steps: seq<Step>): (h': Hub)
    requires InRange(h)
    ensures InRange(h')
    decreases |steps|
  {
    if steps == [] then h else Run(Next(h, steps[0]), steps[1..])
  }

  const EMPTY_HUB := Hub([], true, map[])

  /** The events at the given positions. */
  ghost function At(history: seq<SessionEvent>, positions: seq<nat>): (r: seq<SessionEvent>)
    requires forall k :: 0 <= k < |positions| ==> positions[k] < |history|
  {
    seq(|positions|, k requires 0 <= k < |positions| => history[positions[k]])
  }

  ghost predicate Skipped(lags: seq<Lag>, i: nat) {
    exists k :: 0 <= k < |lags| && lags[k].from <= i < lags[k].to
  }

  /** Positions in increasing order, all in `[low, high)`. */
  ghost predicate IncreasingWithin(positions: seq<nat>, low: nat, high: nat) {
    && (forall k :: 0 <= k < |positions| ==> low <= positions[k] < high)
    && (forall j, k :: 0 <= j < k < |positions| ==> positions[j] < positions[k])
  }

  /** Every skip happened with `CAPACITY` newer events already published. */
  ghost predicate LagsJustified(lags: seq<Lag>, published: nat) {
    forall k :: 0 <= k < |lags| ==>
                  lags[k].from < lags[k].to && lags[k].to + CAPACITY == lags[k].published <= published
  }

  /** An event the socket's cursor passed was handled, or skipped, or the one whose send failed. */
  ghost predicate AllAccounted(s: Socket) {
    forall i :: s.joined <= i < s.next ==>
                  i in s.read || Skipped(s.lags, i) || (s.failed && i == s.next - 1)
  }

  /** Where the events the socket has dealt with end: before the one whose send failed, if any. */
  ghost function Handled(s: Socket): int {
    if s.failed then s.next - 1 else s.next
  }

  /** A failed send stops the socket at an event of its own. */
  ghost predicate FailedAt(history: seq<SessionEvent>, s: Socket)
    requires s.next <= |history|
  {
    s.failed ==> !s.open && s.joined < s.next && FrameFor(history[s.next - 1], s.sub, s.tenant).Some?
  }

  ghost predicate SocketInvariant(history: seq<SessionEvent>, s: Socket) {
    && s.joined <= s.next <= |history|
    && IncreasingWithin(s.read, s.joined, s.next)
    && s.frames == Alerts(At(history, s.read), s.sub, s.tenant)
    && LagsJustified(s.lags, |history|)
    && AllAccounted(s)
    && FailedAt(history, s)
    && (s.lags == [] ==> s.frames == Alerts(history[s.joined..Handled(s)], s.sub, s.tenant))
  }

  ghost predicate HubInvariant(h: Hub) {
    forall id :: id in h.sockets ==> SocketInvariant(h.history, h.sockets[id])
  }

  lemma {:induction false} PublishKeepsSocket(history: seq<SessionEvent>, event: SessionEvent, s: Socket)
    requires SocketInvariant(history, s)
    ensures SocketInvariant(history + [event], s)
  {
    assert At(history + [event], s.read) == At(history, s.read);
    assert (history + [event])[s.joined..Handled(s)] == history[s.joined..Handled(s)];
  }

  /** The four things a turn can do: nothing but perhaps stop, fail a send, handle an event, skip. */
  lemma {:induction false} TurnCases(history: seq<SessionEvent>, alive: bool, s: Socket, sendOk: bool)
    requires s.open && s.next <= |history|
    ensures var after := Turn(history, alive, s, sendOk);
            if s.next == |history| then after == s.(open := after.open)
            else if s.next < Oldest(|history|) then after == AfterLag(history, s)
            else if FrameFor(history[s.next], s.sub, s.tenant).Some? && !sendOk then after == AfterFailure(s)
            else after == AfterRead(history, s)
  {
  }

  lemma {:induction false} TurnKeepsSocket(history: seq<SessionEvent>, alive: bool, s: Socket, sendOk: bool)
    requires SocketInvariant(history, s)
    ensures SocketInvariant(history, Turn(history, alive, s, sendOk))
  {
    if s.open {
      TurnCases(history, alive, s, sendOk);
      if s.next == |history| {
        StopKeepsSocket(history, s, Turn(history, alive, s, sendOk).open);
      } else if s.next < Oldest(|history|) {
        LagKeepsSocket(history, s);
      } else if FrameFor(history[s.next], s.sub, s.tenant).Some? && !sendOk {
        FailedSendKeepsSocket(history, s);
      } else {
        ReadKeepsSocket(history, s);
      }
    }
  }

  lemma {:induction false} StopKeepsSocket(history: seq<SessionEvent>, s: Socket, open: bool)
    requires SocketInvariant(history, s) && s.open
    ensures SocketInvariant(history, s.(open := open))
  {
    assert AllAccounted(s.(open := open));
  }

  lemma {:induction false} LagKeepsSocket(history: seq<SessionEvent>, s: Socket)
    requires SocketInvariant(history, s) && s.open && s.next < Oldest(|history|)
    ensures SocketInvariant(history, AfterLag(history, s))
  {
    LagKeepsAccount(s, AfterLag(history, s));
  }

  lemma {:induction false} LagKeepsAccount(s: Socket, after: Socket)
    requires AllAccounted(s) && s.open && !s.failed && s.next < after.next
    requires exists published :: after == s.(next := after.next, lags := s.lags + [Lag(s.next, after.next, published)])
    ensures AllAccounted(after)
  {
    forall i | s.joined <= i < after.next ensures i in after.read || Skipped(after.lags, i) {
      if i >= s.next {
        assert after.lags[|s.lags|].from <= i < after.lags[|s.lags|].to;
      } else if Skipped(s.lags, i) {
        var k :| 0 <= k < |s.lags| && s.lags[k].from <= i < s.lags[k].to;
        assert after.lags[k] == s.lags[k];
      }
    }
  }

  lemma {:induction false} AlertsSnoc(events: seq<SessionEvent>, event: SessionEvent, sub: string, tenant: string)
    ensures var frame := FrameFor(event, sub, tenant);
            Alerts(events + [event], sub, tenant)
            == Alerts(events, sub, tenant) + if frame.Some? then [frame.value] else []
  {
    assert (events + [event])[..|events|] == events;
  }

  lemma {:induction false} ReadKeepsAccount(s: Socket, after: Socket)
    requires AllAccounted(s) && s.open && !s.failed
    requires after == s.(next := s.next + 1, read := s.read + [s.next], frames := after.frames)
    ensures AllAccounted(after)
  {
    assert after.read[|s.read|] == s.next;
    assert forall i :: i in s.read ==> i in after.read;
  }

  /** Frames that are the alerts of `events` stay so when the next event is read. */
  lemma {:induction false} ReadSends(history: seq<SessionEvent>, s: Socket, events: seq<SessionEvent>)
    requires s.next < |history| && s.frames == Alerts(events, s.sub, s.tenant)
    ensures AfterRead(history, s).frames == Alerts(events + [history[s.next]], s.sub, s.tenant)
  {
    AlertsSnoc(events, history[s.next], s.sub, s.tenant);
  }

  lemma {:induction false} AtSnoc(history: seq<SessionEvent>, read: seq<nat>, next: nat)
    requires (forall k :: 0 <= k < |read| ==> read[k] < |history|) && next < |history|
    ensures At(history, read + [next]) == At(history, read) + [history[next]]
  {
  }

  lemma {:induction false} SliceSnoc(history: seq<SessionEvent>, from: nat, next: nat)
    requires from <= next < |history|
    ensures history[from..next + 1] == history[from..next] + [history[next]]
  {
  }

  lemma {:induction false} ReadKeepsOrder(read: seq<nat>, low: nat, next: nat)
    requires IncreasingWithin(read, low, next) && low <= next
    ensures IncreasingWithin(read + [next], low, next + 1)
  {
  }

  lemma {:induction false} ReadKeepsSocket(history: seq<SessionEvent>, s: Socket)
    requires SocketInvariant(history, s) && s.open && s.next < |history|
    ensures SocketInvariant(history, AfterRead(history, s))
  {
    var after := AfterRead(history, s);
    assert !s.failed;
    ReadKeepsAccount(s, after);
    ReadKeepsOrder(s.read, s.joined, s.next);
    assert after.frames == Alerts(At(history, after.read), s.sub, s.tenant) by {
      ReadSends(history, s, At(history, s.read));
      AtSnoc(history, s.read, s.next);
    }
    assert s.lags == [] ==> after.frames == Alerts(history[s.joined..after.next], s.sub, s.tenant) by {
      if s.lags == [] {
        ReadSends(history, s, history[s.joined..s.next]);
        SliceSnoc(history, s.joined, s.next);
      }
    }
  }

  lemma {:induction false} FailedSendKeepsSocket(history: seq<SessionEvent>, s: Socket)
    requires SocketInvariant(history, s) && s.open && s.next < |history|
    requires FrameFor(history[s.next], s.sub, s.tenant).Some?
    ensures SocketInvariant(history, AfterFailure(s))
  {
    var after := AfterFailure(s);
    assert AllAccounted(after) by {
      assert after.read == s.read && after.lags == s.lags;
    }
  }

  /** The socket a step leaves at an id: a new one, one that had a turn or was stopped, or the same. */
  lemma {:induction false} StepKeepsSocket(h: Hub, step: Step, id: nat)
    requires InRange(h) && id in h.sockets && SocketInvariant(h.history, h.sockets[id])
    ensures id in Next(h, step).sockets && SocketInvariant(Next(h, step).history, Next(h, step).sockets[id])
  {
    var s := h.sockets[id];
    match step
    case Publish(event) => PublishKeepsSocket(h.history, event, s);
    case Wake(woken, sendOk) => TurnKeepsSocket(h.history, h.alive, s, sendOk);
    case PeerGone(gone) =>
      if s.open {
        StopKeepsSocket(h.history, s, false);
      }
    case _ =>
  }

  lemma {:induction false} JoinMakesSocket(h: Hub, id: nat, sub: string, tenant: string)
    requires InRange(h) && id !in h.sockets
    ensures SocketInvariant(h.history, Next(h, Join(id, sub, tenant)).sockets[id])
  {
    assert At(h.history, []) == [];
    assert h.history[|h.history|..|h.history|] == [];
  }

  lemma {:induction false} StepKeepsInvariant(h: Hub, step: Step)
    requires HubInvariant(h)
    ensures InRange(h) && HubInvariant(Next(h, step))
  {
    assert InRange(h);
    forall id | id in Next(h, step).sockets ensures SocketInvariant(Next(h, step).history, Next(h, step).sockets[id]) {
      if id in h.sockets {
        StepKeepsSocket(h, step, id);
      } else {
        JoinMakesSocket(h, id, step.sub, step.tenant);
      }
    }
  }

  /**
   In every reachable state of every schedule, for every socket: its frames are its own
   subject-and-tenant alerts, in order, each at most once; an event its cursor passed without
   handling it was skipped with 256 newer publishes in the ring, or failed to send; and a
   socket that never lagged has sent exactly its filtered stream.
   */
  lemma {:induction false} EverySocketIsFaithful(h: Hub, steps: seq<Step>)
    requires HubInvariant(h)
    ensures InRange(h) && HubInvariant(Run(h, steps))
    decreases |steps|
  {
    assert InRange(h);
    if steps != [] {
      StepKeepsInvariant(h, steps[0]);
      EverySocketIsFaithful(Next(h, steps[0]), steps[1..]);
    }
  }

  /**
   What the invariant means for one socket of any run from start-up. An event it did not
   handle was skipped by a lag that `CAPACITY` newer publishes had forced, or is the one whose
   send failed; a socket that never lagged, running or stopped, has sent its whole filtered
   stream up to there.
   */
  lemma {:induction false} FanoutDelivers(steps: seq<Step>, id: nat)
    requires id in Run(EMPTY_HUB, steps).sockets
    ensures var h := Run(EMPTY_HUB, steps);
            var s := h.sockets[id];
            && s.joined <= Handled(s) <= s.next <= |h.history|
            && IncreasingWithin(s.read, s.joined, s.next)
            && s.frames == Alerts(At(h.history, s.read), s.sub, s.tenant)
            && (s.lags == [] ==> s.frames == Alerts(h.history[s.joined..Handled(s)], s.sub, s.tenant))
            && (s.open ==> Handled(s) == s.next)
            && (forall i :: s.joined <= i < Handled(s) && i !in s.read ==>
                              exists k :: 0 <= k < |s.lags| && s.lags[k].from <= i < s.lags[k].to
                                          && s.lags[k].to + 256 == s.lags[k].published <= |h.history|)
  {
    EverySocketIsFaithful(EMPTY_HUB, steps);
    var h := Run(EMPTY_HUB, steps);
    var s := h.sockets[id];
    forall i | s.joined <= i < Handled(s) && i !in s.read
      ensures exists k :: 0 <= k < |s.lags| && s.lags[k].from <= i < s.lags[k].to
                          && s.lags[k].to + 256 == s.lags[k].published <= |h.history|
    {
      var k :| 0 <= k < |s.lags| && s.lags[k].from <= i < s.lags[k].to;
      assert s.lags[k].to + 256 == s.lags[k].published <= |h.history|;
    }
  }

  /** Once a socket has stopped, for whatever reason, it never sends or reads again. */
  lemma {:induction false} StoppedSocketIsSilent(h: Hub, id: nat, steps: seq<Step>)
    requires InRange(h) && id in h.sockets && !h.sockets[id].open
    ensures id in Run(h, steps).sockets && Run(h, steps).sockets[id] == h.sockets[id]
    decreases |steps|
  {
    if steps != [] {
      StoppedSocketIsSilent(Next(h, steps[0]), id, steps[1..]);
    }
  }

  /** What a socket has sent and, if it keeps up from here, still will: the retained events' alerts. */
  ghost function Owed(history: seq<SessionEvent>, s: Socket): seq<Alert>
    requires s.next <= |history|
  {
    s.frames + Alerts(history[Max(s.next, Oldest(|history|))..], s.sub, s.tenant)
  }

  /** The turns a socket needs to read to the end: one per retained event, one for a lag. */
  ghost function Backlog(history: seq<SessionEvent>, s: Socket): nat
    requires s.next <= |history|
  {
    if s.next < Oldest(|history|) then CAPACITY + 1 else |history| - s.next
  }

  lemma {:induction false} TurnConservesOwed(history: seq<SessionEvent>, s: Socket)
    requires s.open && s.next < |history|
    ensures var after := Turn(history, false, s, true);
            && after.open && after.sub == s.sub && after.tenant == s.tenant
            && Owed(history, after) == Owed(history, s)
            && Backlog(history, after) == Backlog(history, s) - 1
  {
    if s.next >= Oldest(|history|) {
      ReadConservesOwed(history, s);
    }
  }

  lemma {:induction false} ReadConservesOwed(history: seq<SessionEvent>, s: Socket)
    requires Oldest(|history|) <= s.next < |history|
    ensures Owed(history, AfterRead(history, s)) == Owed(history, s)
  {
    OwedAhead(history, s);
    OwedAhead(history, AfterRead(history, s));
    AlertsFromFront(history[s.next..], s.sub, s.tenant);
    assert history[s.next..][1..] == history[s.next + 1..];
    var frame, later := FrameFor(history[s.next], s.sub, s.tenant), Alerts(history[s.next + 1..], s.sub, s.tenant);
    assert frame.Some? ==> (s.frames + [frame.value]) + later == s.frames + ([frame.value] + later);
  }

  lemma {:induction false} OwedAhead(history: seq<SessionEvent>, s: Socket)
    requires Oldest(|history|) <= s.next <= |history|
    ensures Owed(history, s) == s.frames + Alerts(history[s.next..], s.sub, s.tenant)
  {
  }

  ghost function Turns(history: seq<SessionEvent>, s: Socket, count: nat): (r: Socket)
    requires s.next <= |history|
    ensures r.next <= |history|
    decreases count
  {
    if count == 0 then s else Turns(history, Turn(history, false, s, true), count - 1)
  }

  lemma {:induction false} StoppedTurns(history: seq<SessionEvent>, s: Socket, count: nat)
    requires !s.open && s.next <= |history|
    ensures Turns(history, s, count) == s
    decreases count
  {
    if count > 0 {
      StoppedTurns(history, s, count - 1);
    }
  }

  /** A socket with the peer up and no publisher left: after its backlog it has sent what it owes, and stops. */
  lemma {:induction false} SocketDrains(history: seq<SessionEvent>, s: Socket, count: nat)
    requires s.open && s.next <= |history|
    ensures var after := Turns(history, s, count);
            && (!after.open <==> count > Backlog(history, s))
            && (!after.open ==> after.frames == Owed(history, s))
    decreases count
  {
    if count > 0 {
      var after := Turn(history, false, s, true);
      if s.next == |history| {
        assert history[s.next..] == [];
        StoppedTurns(history, after, count - 1);
      } else {
        TurnConservesOwed(history, s);
        SocketDrains(history, after, count - 1);
      }
    }
  }

  lemma {:induction false} AlertsFromFront(events: seq<SessionEvent>, sub: string, tenant: string)
    requires events != []
    ensures var frame := FrameFor(events[0], sub, tenant);
            Alerts(events, sub, tenant)
            == (if frame.Some? then [frame.value] else []) + Alerts(events[1..], sub, tenant)
  {
    if |events| > 1 {
      var init := events[..|events| - 1];
      AlertsFromFront(init, sub, tenant);
      assert init[1..] == events[1..][..|events| - 2];
    }
  }

  /** How often the socket gets a turn. */
  function Wakes(steps: seq<Step>, id: nat): nat {
    if steps == [] then 0 else (if steps[0].Wake? && steps[0].id == id then 1 else 0) + Wakes(steps[1..], id)
  }

  /** The socket's peer stays and takes what it is sent. */
  predicate PeerStays(steps: seq<Step>, id: nat) {
    forall i :: 0 <= i < |steps| ==> steps[i] != PeerGone(id) && steps[i] != Wake(id, false)
  }

  /** Without publishers, whatever everyone else does, a socket is where its own turns took it. */
  lemma {:induction false} OnlyTurnsMatter(h: Hub, id: nat, steps: seq<Step>)
    requires InRange(h) && id in h.sockets && !h.alive && PeerStays(steps, id)
    ensures var after := Run(h, steps);
            && id in after.sockets && after.history == h.history
            && after.sockets[id] == Turns(h.history, h.sockets[id], Wakes(steps, id))
    decreases |steps|
  {
    if steps != [] {
      var next := Next(h, steps[0]);
      assert PeerStays(steps[1..], id);
      assert next.history == h.history && !next.alive && id in next.sockets;
      OnlyTurnsMatter(next, id, steps[1..]);
    }
  }

  /**
   With every publisher gone and the peer up, under every schedule, whatever the other
   sockets do: the loop has stopped exactly when it had a turn for each event of its backlog
   and one more, and it has then sent every retained matching event.
   */
  lemma {:induction false} LoopDrainsAndStops(h: Hub, id: nat, steps: seq<Step>)
    requires InRange(h) && id in h.sockets && h.sockets[id].open && !h.alive && PeerStays(steps, id)
    ensures var s := h.sockets[id];
            var after := Run(h, steps);
            && id in after.sockets
            && (!after.sockets[id].open <==> Wakes(steps, id) > Backlog(h.history, s))
            && (!after.sockets[id].open ==> after.sockets[id].frames == Owed(h.history, s))
  {
    OnlyTurnsMatter(h, id, steps);
    SocketDrains(h.history, h.sockets[id], Wakes(steps, id));
  }

  /** The same from the moment the publishers go: they stay gone, and the loop drains and stops. */
  lemma {:induction false} ShutdownDrains(h: Hub, id: nat, steps: seq<Step>)
    requires InRange(h) && id in h.sockets && h.sockets[id].open && PeerStays(steps, id)
    ensures var s := h.sockets[id];
            var after := Run(Next(h, DropPublishers), steps);
            && id in after.sockets && after.history == h.history
            && (!after.sockets[id].open <==> Wakes(steps, id) > Backlog(h.history, s))
            && (!after.sockets[id].open ==> after.sockets[id].frames == Owed(h.history, s))
  {
    OnlyTurnsMatter(Next(h, DropPublishers), id, steps);
    LoopDrainsAndStops(Next(h, DropPublishers), id, steps);
  }

  /**
   What a wake does to an open socket: with nothing to read it waits, or stops when the
   publishers are gone; fallen behind, it goes on at the 256th newest event; otherwise it
   passes one event, sending its address if it is the socket's own, and stopping if that send
   fails. Other sockets and the history are left alone.
   */
  lemma {:induction false} WakeReads(h: Hub, id: nat, sendOk: bool)
    requires InRange(h) && id in h.sockets && h.sockets[id].open
    ensures var s, after := h.sockets[id], Next(h, Wake(id, sendOk));
            var n := |h.history|;
            && id in after.sockets && after.history == h.history && after.alive == h.alive
            && (forall other :: other in h.sockets && other != id ==> other in after.sockets && after.sockets[other] == h.sockets[other])
            && var s' := after.sockets[id];
               if s.next == n then s'.next == n && s'.frames == s.frames && (s'.open <==> h.alive)
               else if s.next + 256 < n then s'.next + 256 == n && s'.frames == s.frames && s'.open
               else
                 var event := h.history[s.next];
                 var own := event.sub == s.sub && event.tenant == s.tenant;
                 && s'.next == s.next + 1 && (s'.open <==> !own || sendOk)
                 && s'.frames == s.frames + if own && sendOk then [Alert(event.ip)] else []
  {
  }

  /** What the other steps do: a peer that leaves stops its socket; an event needs a publisher and a listener. */
  lemma {:induction false} OtherStepsDo(h: Hub, id: nat, event: SessionEvent, sub: string, tenant: string)
    requires InRange(h)
    ensures id in h.sockets ==>
              var after := Next(h, PeerGone(id));
              id in after.sockets && !after.sockets[id].open && after.sockets[id].frames == h.sockets[id].frames
    ensures Next(h, Publish(event)).history
            == h.history + if h.alive && exists other :: other in h.sockets && h.sockets[other].open then [event] else []
    ensures Next(h, Publish(event)).sockets == h.sockets
    ensures id !in h.sockets ==>
              var after := Next(h, Join(id, sub, tenant));
              && id in after.sockets && after.sockets[id].open && after.sockets[id].sub == sub
              && after.sockets[id].tenant == tenant && after.sockets[id].next == |h.history| && after.sockets[id].frames == []
  {
    if Listening(h) {
      assert exists other :: other in h.sockets && h.sockets[other].open;
    }
  }

  lemma {:induction false} RunStep(h: Hub, steps: seq<Step>, i: nat)
    requires InRange(h) && i < |steps|
    ensures Run(h, steps[i..]) == Run(Next(h, steps[i]), steps[i + 1..])
  {
    assert steps[i..][1..] == steps[i + 1..];
  }

  /** What one step of the system means to a socket that is listening. */
  lemma {:induction false} StepSeenBy(h: Hub, step: Step, id: nat)
    requires InRange(h) && id in h.sockets && h.sockets[id].open
    ensures var h' := Next(h, step);
            && h'.history == (if step.Publish? && h.alive then h.history + [step.event] else h.history)
            && h'.alive == (h.alive && !step.DropPublishers?)
            && id in h'.sockets
            && h'.sockets[id] == (if step.Wake? && step.id == id then Turn(h.history, h.alive, h.sockets[id], step.sendOk)
                                  else h.sockets[id].(open := !(step.PeerGone? && step.id == id)))
  {
    assert Listening(h);
  }

  /** The loop's own variables are the socket's. */
  ghost predicate Tracks(s: Socket, sub: string, tenant: string, next: nat, frames: seq<Alert>, stopped: bool) {
    s.sub == sub && s.tenant == tenant && s.next == next && s.frames == frames && s.open == !stopped
  }

  /** One iteration of the loop in which the receive side of the select resolves. */
  method HandleReception(channel: Broadcast, sub: string, tenant: string, next: nat, frames: seq<Alert>, sendOk: bool,
                         ghost s: Socket)
      returns (next': nat, frames': seq<Alert>, stopped: bool)
    requires channel.Valid() && next <= |channel.history| && Tracks(s, sub, tenant, next, frames, false)
    ensures Tracks(Turn(channel.history, channel.alive, s, sendOk), sub, tenant, next', frames', stopped)
  {
    var reception;
    reception, next' := channel.Recv(next);
    frames', stopped := frames, false;
    match reception {
      case Event(event) =>
        var frame := FrameFor(event, sub, tenant);
        if frame.Some? {
          if sendOk {
            frames' := frames + [frame.value];
          } else {
            stopped := true;
          }
        }
      case Lagged(_) =>
      case Closed =>
        stopped := true;
      case Pending =>
    }
  }

  /**
   `forward_session_events` over the real ring. The schedule is what happens while the loop
   awaits: publishes, publishers dropping, and which side of the select resolves; steps of
   other sockets pass it by. The frames are those of this socket in the whole system's run,
   and a loop that has stopped leaves no subscription behind.
   */
  method ForwardSessionEvents(channel: Broadcast, id: nat, sub: string, tenant: string, schedule: seq<Step>, ghost h: Hub)
      returns (frames: seq<Alert>, stopped: bool)
    requires channel.Valid() && InRange(h)
    requires h.history == channel.history && h.alive == channel.alive && id !in h.sockets
    modifies channel, channel.buffer
    ensures var after := Run(Next(h, Join(id, sub, tenant)), schedule);
            id in after.sockets && frames == after.sockets[id].frames && stopped == !after.sockets[id].open
    ensures channel.receivers == old(channel.receivers) + if stopped then 0 else 1
  {
    var next := channel.Subscribe();
    frames, stopped := [], false;
    ghost var now := Next(h, Join(id, sub, tenant));
    var i := 0;
    while i < |schedule| && !stopped
      invariant 0 <= i <= |schedule| && InRange(now)
      invariant channel.Valid() && channel.receivers == old(channel.receivers) + 1
      invariant now.history == channel.history && now.alive == channel.alive
      invariant id in now.sockets && Tracks(now.sockets[id], sub, tenant, next, frames, stopped)
      invariant Run(now, schedule[i..]) == Run(Next(h, Join(id, sub, tenant)), schedule)
    {
      RunStep(now, schedule, i);
      StepSeenBy(now, schedule[i], id);
      ghost var before := now.sockets[id];
      now := Next(now, schedule[i]);
      match schedule[i] {
        case Publish(event) =>
          if channel.alive {
            channel.Send(event);
          }
        case DropPublishers =>
          channel.DropSenders();
        case Wake(woken, sendOk) =>
          if woken == id {
            next, frames, stopped := HandleReception(channel, sub, tenant, next, frames, sendOk, before);
          }
        case PeerGone(gone) =>
          stopped := gone == id;
        case Join(_, _, _) =>
      }
      i := i + 1;
    }
    if stopped {
      channel.Unsubscribe();
      StoppedSocketIsSilent(now, id, schedule[i..]);
    }
  }
}
