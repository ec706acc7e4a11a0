/**
 The resumable live tail: the server loop of `GET /audit/stream`, the browser's EventSource
 and hook, and the protocol they run over a connection that can drop at any moment.

 The wire is a server-sent event stream (section 9.2 of the WHATWG HTML Standard): the
 browser remembers the id of the last event it dispatched and repeats it when reconnecting.
 */
module AuditTail {
  import opened Numbers
  import opened Options
  import opened AuditLog
  import opened EventId
  import AuditPages

  const STREAM_BATCH: nat := 100

  /** One event on the wire; `data` is None when its payload does not parse. */
  datatype Frame = Frame(id: string, data: Option<WireRow>)

  function FrameOf(row: LogRow): Frame {
    Frame(PrintI64(row.id), Some(ToWire(row)))
  }

  function Frames(rows: seq<LogRow>): (r: seq<Frame>)
    ensures |r| == |rows|
    ensures forall i :: 0 <= i < |rows| ==> r[i] == FrameOf(rows[i])
  {
    seq(|rows|, i requires 0 <= i < |rows| => FrameOf(rows[i]))
  }

  /** The rows one successful poll fetches. */
  function Batch(log: seq<LogRow>, f: Filter, last: int): seq<LogRow> {
    Take(Where(log, f, Some(last), None), STREAM_BATCH)
  }

  /** The browser side: the EventSource's last event id and the hook's state. */
  datatype Tail = Tail(rows: seq<WireRow>, lastEventId: string, following: bool, pendingCount: nat)

  const INITIAL_TAIL := Tail([], "", true, 0)

  /** Dispatching an event records its id first; a malformed payload then changes nothing else. */
  function OnMessage(tail: Tail, frame: Frame): Tail {
    var noted := tail.(lastEventId := frame.id);
    match frame.data
    case None => noted
    case Some(row) =>
      noted.(rows := tail.rows + [row],
             pendingCount := if tail.following then tail.pendingCount else tail.pendingCount + 1)
  }

  function SetFollowing(tail: Tail, next: bool): Tail {
    tail.(following := next, pendingCount := if next then 0 else tail.pendingCount)
  }

  /** The header an EventSource sends: absent until an event id has been seen. */
  function LastEventIdHeader(tail: Tail): Option<string> {
    if tail.lastEventId == "" then None else Some(tail.lastEventId)
  }

  /** The id of the last row the browser received, 0 before the first. */
  function Received(tail: Tail): int {
    ResumeCursor(LastEventIdHeader(tail))
  }

  // ---------------------------------------------------------------------------------------
  // The protocol
  // ---------------------------------------------------------------------------------------

  /** One server loop: its cursor, the fetched rows it has yet to yield, and frames in flight. */
  datatype Connection = Connection(last: int, batch: seq<LogRow>, wire: seq<Frame>)

  datatype World = World(log: seq<LogRow>, filter: Filter, connection: Option<Connection>, tail: Tail)

  datatype Step =
    | Append(rows: seq<LogRow>)
    | PollReady
    | PollFails
    | Yield
    | Deliver
    | Disconnect
    | Connect
    | Follow(next: bool)

  /** Ids drawn from the table's BIGSERIAL key: from 1 upwards, increasing, within `i64`. */
  ghost predicate SerialIds(log: seq<LogRow>) {
    Ascending(log) && forall i :: 0 <= i < |log| ==> 1 <= log[i].id <= I64_MAX
  }

  /** The connection after a server step; a step the loop is not ready for changes nothing. */
  function ServerStep(log: seq<LogRow>, f: Filter, c: Connection, step: Step): Connection {
    if step.PollReady? && c.batch == [] then c.(batch := Batch(log, f, c.last))
    else if step.Yield? && c.batch != [] then
      c.(last := c.batch[0].id, batch := c.batch[1..], wire := c.wire + [FrameOf(c.batch[0])])
    else c
  }

  ghost function Next(w: World, step: Step): World {
    match step
    case Append(rows) => if SerialIds(w.log + rows) then w.(log := w.log + rows) else w
    case Follow(next) => w.(tail := SetFollowing(w.tail, next))
    case Disconnect => w.(connection := None)
    case Connect =>
      if w.connection.Some? then w else w.(connection := Some(Connection(Received(w.tail), [], [])))
    case Deliver =>
      if w.connection.Some? && w.connection.value.wire != [] then
        var c := w.connection.value;
        w.(connection := Some(c.(wire := c.wire[1..])), tail := OnMessage(w.tail, c.wire[0]))
      else w
    case _ =>
      if w.connection.Some? then
        w.(connection := Some(ServerStep(w.log, w.filter, w.connection.value, step)))
      else w
  }

  ghost function Run(w: World, steps: seq<Step>): World
    decreases |steps|
  {
    if steps == [] then w else Run(Next(w, steps[0]), steps[1..])
  }

  ghost function Init(log: seq<LogRow>, f: Filter): World {
    World(log, f, None, INITIAL_TAIL)
  }

  ghost function NewestId(log: seq<LogRow>): int {
    if log == [] then 0 else log[|log| - 1].id
  }

  /** A cursor that stands after the first `k` rows of the filtered log, now and after any append. */
  ghost predicate StandsAt(log: seq<LogRow>, f: Filter, cursor: int, k: nat) {
    0 <= cursor <= NewestId(log) && Splits(Filtered(log, f), cursor, k)
  }

  /** The rows received, in flight and fetched are three consecutive stretches of the filtered log. */
  ghost predicate Invariant(w: World) {
    var rows := Filtered(w.log, w.filter);
    var got := |w.tail.rows|;
    && SerialIds(w.log)
    && got <= |rows| && w.tail.rows == WireRows(rows[..got])
    && StandsAt(w.log, w.filter, Received(w.tail), got)
    && (w.tail.following ==> w.tail.pendingCount == 0)
    && (w.connection.Some? ==> InFlight(w.log, w.filter, w.connection.value, got))
  }

  ghost predicate InFlight(log: seq<LogRow>, f: Filter, c: Connection, got: nat) {
    var rows := Filtered(log, f);
    var sent := got + |c.wire|;
    && sent + |c.batch| <= |rows|
    && c.wire == Frames(rows[got..sent])
    && c.batch == rows[sent..sent + |c.batch|]
    && StandsAt(log, f, c.last, sent)
  }

  lemma {:induction false} FilteredIsSerial(log: seq<LogRow>, f: Filter)
    requires SerialIds(log)
    ensures SerialIds(Filtered(log, f))
    ensures forall i :: 0 <= i < |Filtered(log, f)| ==> Filtered(log, f)[i].id <= NewestId(log)
  {
    WhereIsSelection(log, f, None, None);
    var rows := Filtered(log, f);
    forall i | 0 <= i < |rows| ensures 1 <= rows[i].id <= I64_MAX && rows[i].id <= NewestId(log) {
      assert rows[i] in rows;
      assert rows[i] in log;
    }
  }

  /** Receiving or yielding row number `k` moves the cursor to just after it. */
  lemma {:induction false} StandsAfterRow(log: seq<LogRow>, f: Filter, k: nat)
    requires SerialIds(log) && k < |Filtered(log, f)|
    ensures StandsAt(log, f, Filtered(log, f)[k].id, k + 1)
  {
    FilteredIsSerial(log, f);
  }

  lemma {:induction false} FilteredAbove(rows: seq<LogRow>, f: Filter, bound: int)
    requires forall i :: 0 <= i < |rows| ==> rows[i].id > bound
    ensures forall i :: 0 <= i < |Filtered(rows, f)| ==> Filtered(rows, f)[i].id > bound
  {
    if rows != [] {
      FilteredAbove(rows[..|rows| - 1], f, bound);
      var init, row := Filtered(rows[..|rows| - 1], f), rows[|rows| - 1];
      assert Filtered(rows, f) == if Matches(f, row) then init + [row] else init;
    }
  }

  lemma {:induction false} AppendKeepsStanding(log: seq<LogRow>, rows: seq<LogRow>, f: Filter, cursor: int, k: nat)
    requires SerialIds(log + rows) && StandsAt(log, f, cursor, k)
    ensures StandsAt(log + rows, f, cursor, k)
  {
    var all := log + rows;
    forall j | 0 <= j < |rows| ensures rows[j].id > NewestId(log) {
      assert all[|log| + j].id >= 1;
      assert log != [] ==> all[|log| - 1].id < all[|log| + j].id;
    }
    FilteredAbove(rows, f, cursor);
    WhereAppend(log, rows, f, None, None);
    var older, newer := Filtered(log, f), Filtered(rows, f);
    assert Filtered(all, f) == older + newer;
    assert k == |older| < |older + newer| ==> (older + newer)[k] == newer[0];
  }

  lemma {:induction false} AppendKeepsInFlight(log: seq<LogRow>, rows: seq<LogRow>, f: Filter, c: Connection, got: nat)
    requires SerialIds(log + rows) && InFlight(log, f, c, got)
    ensures InFlight(log + rows, f, c, got)
  {
    AppendKeepsStanding(log, rows, f, c.last, got + |c.wire|);
    WhereAppend(log, rows, f, None, None);
    PrefixSlices(Filtered(log, f), Filtered(log + rows, f));
  }

  lemma {:induction false} PrefixSlices(a: seq<LogRow>, b: seq<LogRow>)
    requires a <= b
    ensures forall i, j :: 0 <= i <= j <= |a| ==> b[i..j] == a[i..j]
  {
  }

  lemma {:induction false} AppendKeepsInvariant(w: World, rows: seq<LogRow>)
    requires Invariant(w) && SerialIds(w.log + rows)
    ensures Invariant(w.(log := w.log + rows))
  {
    var got := |w.tail.rows|;
    AppendKeepsStanding(w.log, rows, w.filter, Received(w.tail), got);
    if w.connection.Some? {
      AppendKeepsInFlight(w.log, rows, w.filter, w.connection.value, got);
    }
    WhereAppend(w.log, rows, w.filter, None, None);
    PrefixSlices(Filtered(w.log, w.filter), Filtered(w.log + rows, w.filter));
    assert Filtered(w.log + rows, w.filter)[..got] == Filtered(w.log, w.filter)[..got];
  }

  lemma {:induction false} PollFetchesNext(log: seq<LogRow>, f: Filter, last: int, sent: nat)
    requires SerialIds(log) && StandsAt(log, f, last, sent)
    ensures Batch(log, f, last) == Take(Filtered(log, f)[sent..], STREAM_BATCH)
  {
    WhereIsSlice(log, f, Some(last), None, sent, |Filtered(log, f)|);
  }

  lemma {:induction false} PollKeepsInFlight(log: seq<LogRow>, f: Filter, c: Connection, got: nat)
    requires SerialIds(log) && InFlight(log, f, c, got) && c.batch == []
    ensures InFlight(log, f, c.(batch := Batch(log, f, c.last)), got)
  {
    var rows, sent := Filtered(log, f), got + |c.wire|;
    PollFetchesNext(log, f, c.last, sent);
    assert Take(rows[sent..], STREAM_BATCH) == rows[sent..sent + |Take(rows[sent..], STREAM_BATCH)|];
  }

  /** Moving the first fetched row onto the wire moves the boundary between the two stretches. */
  lemma {:induction false} BoundaryMoves(rows: seq<LogRow>, wire: seq<Frame>, batch: seq<LogRow>, got: nat, sent: nat)
    requires got <= sent && sent + |batch| <= |rows| && batch != []
    requires wire == Frames(rows[got..sent]) && batch == rows[sent..sent + |batch|]
    ensures batch[0] == rows[sent] && batch[1..] == rows[sent + 1..sent + |batch|]
    ensures wire + [FrameOf(batch[0])] == Frames(rows[got..sent + 1])
  {
    assert rows[got..sent + 1] == rows[got..sent] + [rows[sent]];
  }

  lemma {:induction false} YieldKeepsInFlight(log: seq<LogRow>, f: Filter, c: Connection, got: nat)
    requires SerialIds(log) && InFlight(log, f, c, got) && c.batch != []
    ensures InFlight(log, f, ServerStep(log, f, c, Yield), got)
  {
    var sent := got + |c.wire|;
    BoundaryMoves(Filtered(log, f), c.wire, c.batch, got, sent);
    StandsAfterRow(log, f, sent);
  }

  lemma {:induction false} ServerKeepsInFlight(log: seq<LogRow>, f: Filter, c: Connection, got: nat, step: Step)
    requires SerialIds(log) && InFlight(log, f, c, got)
    ensures InFlight(log, f, ServerStep(log, f, c, step), got)
  {
    if step.PollReady? && c.batch == [] {
      PollKeepsInFlight(log, f, c, got);
    } else if step.Yield? && c.batch != [] {
      YieldKeepsInFlight(log, f, c, got);
    }
  }

  /** Receiving a row's frame appends the row and makes its id the resume cursor. */
  lemma {:induction false} MessageReceivesRow(tail: Tail, row: LogRow)
    requires IsI64(row.id)
    ensures var after := OnMessage(tail, FrameOf(row));
            after.rows == tail.rows + [ToWire(row)] && Received(after) == row.id
  {
    EventIdRoundTrip(row.id);
  }

  lemma {:induction false} FramesFromFront(rows: seq<LogRow>, wire: seq<Frame>, got: nat, sent: nat)
    requires got < sent <= |rows| && wire == Frames(rows[got..sent])
    ensures wire[0] == FrameOf(rows[got]) && wire[1..] == Frames(rows[got + 1..sent])
  {
    assert rows[got..sent] == [rows[got]] + rows[got + 1..sent];
  }

  lemma {:induction false} WireAdvances(log: seq<LogRow>, f: Filter, c: Connection, got: nat)
    requires InFlight(log, f, c, got) && c.wire != []
    ensures InFlight(log, f, c.(wire := c.wire[1..]), got + 1)
    ensures got < |Filtered(log, f)| && c.wire[0] == FrameOf(Filtered(log, f)[got])
  {
    var sent := got + |c.wire|;
    FramesFromFront(Filtered(log, f), c.wire, got, sent);
    assert (got + 1) + |c.wire[1..]| == sent;
  }

  lemma {:induction false} DeliverKeepsInvariant(w: World)
    requires Invariant(w)
    ensures Invariant(Next(w, Deliver))
  {
    if w.connection.Some? && w.connection.value.wire != [] {
      var rows, got := Filtered(w.log, w.filter), |w.tail.rows|;
      WireAdvances(w.log, w.filter, w.connection.value, got);
      FilteredIsSerial(w.log, w.filter);
      MessageReceivesRow(w.tail, rows[got]);
      StandsAfterRow(w.log, w.filter, got);
      assert WireRows(rows[..got + 1]) == WireRows(rows[..got]) + [ToWire(rows[got])];
    }
  }

  lemma {:induction false} StepKeepsInvariant(w: World, step: Step)
    requires Invariant(w)
    ensures Invariant(Next(w, step))
  {
    match step
    case Append(rows) =>
      if SerialIds(w.log + rows) {
        AppendKeepsInvariant(w, rows);
      }
    case Deliver => DeliverKeepsInvariant(w);
    case Follow(next) => FollowKeepsInvariant(w, next);
    case Disconnect =>
    case Connect => ConnectKeepsInvariant(w);
    case _ =>
      if w.connection.Some? {
        ServerKeepsInFlight(w.log, w.filter, w.connection.value, |w.tail.rows|, step);
      }
  }

  lemma {:induction false} FollowKeepsInvariant(w: World, next: bool)
    requires Invariant(w)
    ensures Invariant(Next(w, Follow(next)))
  {
    assert Received(SetFollowing(w.tail, next)) == Received(w.tail);
  }

  lemma {:induction false} ConnectKeepsInvariant(w: World)
    requires Invariant(w)
    ensures Invariant(Next(w, Connect))
  {
    if w.connection.None? {
      assert InFlight(w.log, w.filter, Connection(Received(w.tail), [], []), |w.tail.rows|);
    }
  }

  lemma {:induction false} RunKeepsInvariant(w: World, steps: seq<Step>)
    requires Invariant(w)
    ensures Invariant(Run(w, steps))
    decreases |steps|
  {
    if steps != [] {
      StepKeepsInvariant(w, steps[0]);
      RunKeepsInvariant(Next(w, steps[0]), steps[1..]);
    }
  }

  lemma {:induction false} InitialInvariant(log: seq<LogRow>, f: Filter)
    requires SerialIds(log)
    ensures Invariant(Init(log, f))
  {
    assert StandsAt(log, f, 0, 0) by {
      FilteredIsSerial(log, f);
    }
    assert Received(INITIAL_TAIL) == 0;
    assert WireRows(Filtered(log, f)[..0]) == [];
  }

  /** The first `k` rows of the filtered log are those with an id up to a cursor standing there. */
  lemma {:induction false} StandsMeansWhere(log: seq<LogRow>, f: Filter, cursor: int, k: nat)
    requires SerialIds(log) && StandsAt(log, f, cursor, k)
    ensures Where(log, f, Some(0), Some(cursor + 1)) == Filtered(log, f)[..k]
  {
    FilteredIsSerial(log, f);
    WhereIsSlice(log, f, Some(0), Some(cursor + 1), 0, k);
  }

  /**
   Exactly-once delivery. After any interleaving of appends, polls, failed polls, yields,
   deliveries, disconnects that lose everything in flight, and reconnects, the browser holds
   exactly the matching rows with an id up to the last one it received, in id order.
   */
  lemma {:induction false} TailIsExactlyOnce(log: seq<LogRow>, f: Filter, steps: seq<Step>)
    requires SerialIds(log)
    ensures var w := Run(Init(log, f), steps);
            && w.tail.rows == WireRows(Where(w.log, w.filter, Some(0), Some(Received(w.tail) + 1)))
            && (w.tail.following ==> w.tail.pendingCount == 0)
  {
    InitialInvariant(log, f);
    RunKeepsInvariant(Init(log, f), steps);
    HoldsWhatItReceived(Run(Init(log, f), steps));
  }

  lemma {:induction false} HoldsWhatItReceived(w: World)
    requires Invariant(w)
    ensures w.tail.rows == WireRows(Where(w.log, w.filter, Some(0), Some(Received(w.tail) + 1)))
  {
    StandsMeansWhere(w.log, w.filter, Received(w.tail), |w.tail.rows|);
  }

  /**
   What the surroundings do: rows with later ids are appended, a disconnect takes the server
   loop and everything in flight with it, and a reconnect resumes after the last row received.
   */
  lemma {:induction false} SurroundingsDo(w: World, rows: seq<LogRow>)
    ensures SerialIds(w.log + rows) ==> Next(w, Append(rows)) == w.(log := w.log + rows)
    ensures Next(w, Disconnect).connection.None? && Next(w, Disconnect).tail == w.tail
    ensures var again := Next(Next(w, Disconnect), Connect);
            && again.log == w.log && again.tail == w.tail && again.connection.Some?
            && again.connection.value.wire == [] && again.connection.value.batch == []
            && again.connection.value.last == ResumeCursor(if w.tail.lastEventId == "" then None else Some(w.tail.lastEventId))
    ensures Next(w, PollFails) == w
  {
  }

  /** While the view stays paused the pending count grows by exactly the rows that arrive. */
  lemma {:induction false} PendingCountsMissedRows(w: World, steps: seq<Step>)
    requires !w.tail.following && Follow(true) !in steps
    ensures var after := Run(w, steps);
            && !after.tail.following
            && after.tail.pendingCount - w.tail.pendingCount == |after.tail.rows| - |w.tail.rows|
    decreases |steps|
  {
    if steps != [] {
      assert steps[0] != Follow(true);
      PendingCountsMissedRows(Next(w, steps[0]), steps[1..]);
    }
  }

  /** A payload that does not parse leaves the rows and the count alone, but is resumed after. */
  lemma {:induction false} MalformedIsSkipped(tail: Tail, id: int)
    requires IsI64(id)
    ensures var after := OnMessage(tail, Frame(PrintI64(id), None));
            && after.rows == tail.rows && after.pendingCount == tail.pendingCount && after.following == tail.following
            && Received(after) == id
  {
    EventIdRoundTrip(id);
  }

  /** How many of the steps are successful polls. */
  function Polls(steps: seq<Step>): nat {
    if steps == [] then 0 else (if steps[0].PollReady? then 1 else 0) + Polls(steps[1..])
  }

  /** The matching rows no poll of the current connection has fetched yet. */
  ghost function Unfetched(w: World): int
    requires w.connection.Some?
  {
    |Filtered(w.log, w.filter)| - |w.tail.rows| - |w.connection.value.wire| - |w.connection.value.batch|
  }

  /** The next thing a quiet protocol does: drain the batch, then the wire, then poll again. */
  ghost function QuietStep(c: Connection): Step {
    if c.batch != [] then Yield else if c.wire != [] then Deliver else PollReady
  }

  lemma {:induction false} PollTakesHundred(w: World)
    requires Invariant(w) && w.connection.Some?
    requires w.connection.value.batch == [] && w.connection.value.wire == []
    ensures Unfetched(Next(w, PollReady)) == Unfetched(w) - Min(STREAM_BATCH, Unfetched(w))
  {
    PollFetchesNext(w.log, w.filter, w.connection.value.last, |w.tail.rows|);
  }

  /** A quiet step keeps the log, and either fetches a batch or moves a fetched row along. */
  lemma {:induction false} QuietStepProgresses(w: World)
    requires Invariant(w) && w.connection.Some?
    ensures var step := QuietStep(w.connection.value);
            var next := Next(w, step);
            && Invariant(next) && next.connection.Some? && next.log == w.log && next.filter == w.filter
            && Unfetched(next) == Unfetched(w) - (if step.PollReady? then Min(STREAM_BATCH, Unfetched(w)) else 0)
            && (step.Yield? ==> |next.connection.value.batch| < |w.connection.value.batch|)
            && (step.Deliver? ==> next.connection.value.batch == []
                                  && |next.connection.value.wire| < |w.connection.value.wire|)
  {
    var step := QuietStep(w.connection.value);
    StepKeepsInvariant(w, step);
    if step.PollReady? {
      PollTakesHundred(w);
    }
  }

  /**
   From every connected state there is a schedule that completes the browser's copy with
   `n / 100` successful polls (rounded up) of the `n` rows still to be fetched.
   */
  lemma {:induction false} CatchUpSchedule(w: World) returns (steps: seq<Step>)
    requires Invariant(w) && w.connection.Some?
    ensures Run(w, steps).tail.rows == WireRows(Filtered(w.log, w.filter))
    ensures Polls(steps) == (Unfetched(w) + 99) / 100
    ensures forall step :: step in steps ==> step.PollReady? || step.Yield? || step.Deliver?
    decreases Unfetched(w), |w.connection.value.batch|, |w.connection.value.wire|
  {
    var c := w.connection.value;
    if c.batch == [] && c.wire == [] && Unfetched(w) == 0 {
      steps := [];
      NothingLeft(w);
    } else {
      var step := QuietStep(c);
      QuietStepProgresses(w);
      var next := Next(w, step);
      BatchesLeft(Unfetched(w));
      var rest := CatchUpSchedule(next);
      steps := [step] + rest;
      RunFirst(w, step, rest);
    }
  }

  lemma {:induction false} NothingLeft(w: World)
    requires Invariant(w) && w.connection.Some? && Unfetched(w) == 0
    requires w.connection.value.batch == [] && w.connection.value.wire == []
    ensures w.tail.rows == WireRows(Filtered(w.log, w.filter))
  {
    var rows := Filtered(w.log, w.filter);
    assert rows[..|w.tail.rows|] == rows;
  }

  lemma {:induction false} RunFirst(w: World, step: Step, rest: seq<Step>)
    ensures Run(w, [step] + rest) == Run(Next(w, step), rest)
    ensures Polls([step] + rest) == (if step.PollReady? then 1 else 0) + Polls(rest)
  {
    assert ([step] + rest)[1..] == rest;
  }

  /** A poll of `n` rows leaves one poll fewer to make. */
  lemma {:induction false} BatchesLeft(n: nat)
    ensures n > 0 ==>
              (n + STREAM_BATCH - 1) / STREAM_BATCH == 1 + (n - Min(STREAM_BATCH, n) + STREAM_BATCH - 1) / STREAM_BATCH
  {
  }

  /** The log does not grow and the connection holds. */
  ghost predicate IsQuiet(steps: seq<Step>) {
    forall i :: 0 <= i < |steps| ==> !steps[i].Append? && !steps[i].Disconnect?
  }

  /** How many of a run's steps are successful polls of a loop that is ready to poll. */
  ghost function Fetches(w: World, steps: seq<Step>): nat
    decreases |steps|
  {
    if steps == [] then 0
    else
      (if steps[0].PollReady? && w.connection.Some? && w.connection.value.batch == [] then 1 else 0)
      + Fetches(Next(w, steps[0]), steps[1..])
  }

  /** In a quiet run only a fetch changes what is left to fetch, by up to a whole batch. */
  lemma {:induction false} QuietStepFetches(w: World, step: Step)
    requires Invariant(w) && w.connection.Some? && !step.Append? && !step.Disconnect?
    ensures var next := Next(w, step);
            var fetches := step.PollReady? && w.connection.value.batch == [];
            && next.connection.Some? && next.log == w.log && next.filter == w.filter
            && Unfetched(next) == Unfetched(w) - (if fetches then Min(STREAM_BATCH, Unfetched(w)) else 0)
  {
    if step.PollReady? && w.connection.value.batch == [] {
      FetchTakesBatch(w);
    }
  }

  lemma {:induction false} FetchTakesBatch(w: World)
    requires Invariant(w) && w.connection.Some? && w.connection.value.batch == []
    ensures |Batch(w.log, w.filter, w.connection.value.last)| == Min(STREAM_BATCH, Unfetched(w))
  {
    PollFetchesNext(w.log, w.filter, w.connection.value.last, |w.tail.rows| + |w.connection.value.wire|);
  }

  lemma {:induction false} QuietRunFetches(w: World, steps: seq<Step>)
    requires Invariant(w) && w.connection.Some? && IsQuiet(steps)
    ensures var after := Run(w, steps);
            && Invariant(after) && after.connection.Some? && after.log == w.log && after.filter == w.filter
            && Unfetched(after) == Unfetched(w) - Min(STREAM_BATCH * Fetches(w, steps), Unfetched(w))
    decreases |steps|
  {
    if steps != [] {
      StepKeepsInvariant(w, steps[0]);
      QuietStepFetches(w, steps[0]);
      QuietRunFetches(Next(w, steps[0]), steps[1..]);
    }
  }

  /**
   Catching up, over every schedule. From any connected state, once the log stops growing and
   the connection holds, the browser's copy is complete if and only if the loop has made
   `n / 100` successful polls (rounded up) of the `n` rows still to be fetched and nothing
   fetched is left to be yielded or delivered.
   */
  lemma {:induction false} TailCatchesUp(w: World, steps: seq<Step>)
    requires Invariant(w) && w.connection.Some? && IsQuiet(steps)
    ensures var after := Run(w, steps);
            && after.connection.Some?
            && (after.tail.rows == WireRows(Filtered(w.log, w.filter))
                <==> && Fetches(w, steps) >= (Unfetched(w) + 99) / 100
                     && after.connection.value.batch == [] && after.connection.value.wire == [])
  {
    QuietRunFetches(w, steps);
    var after := Run(w, steps);
    var rows, got := Filtered(w.log, w.filter), |after.tail.rows|;
    CompleteWhenLong(rows, after.tail.rows, got);
    RoundedUp(Fetches(w, steps), Unfetched(w));
  }

  lemma {:induction false} CompleteWhenLong(rows: seq<LogRow>, received: seq<WireRow>, got: nat)
    requires got <= |rows| && received == WireRows(rows[..got])
    ensures received == WireRows(rows) <==> got == |rows|
  {
    assert |received| == got;
    assert rows[..|rows|] == rows;
  }

  lemma {:induction false} RoundedUp(fetches: nat, n: nat)
    ensures Min(STREAM_BATCH * fetches, n) == n <==> fetches >= (n + STREAM_BATCH - 1) / STREAM_BATCH
  {
  }

  // ---------------------------------------------------------------------------------------
  // The hook
  // ---------------------------------------------------------------------------------------

  /** `useAuditTail`: its React state, the ref its handler reads, and its EventSource's id. */
  class AuditTailHook {
    var rows: seq<WireRow>
    var following: bool
    var followingRef: bool
    var pendingCount: nat
    var lastEventId: string

    ghost predicate Valid()
      reads this
    {
      following == followingRef
    }

    ghost function State(): Tail
      reads this
    {
      Tail(rows, lastEventId, following, pendingCount)
    }

    constructor ()
      ensures Valid() && State() == INITIAL_TAIL
    {
      rows, following, followingRef, pendingCount, lastEventId := [], true, true, 0, "";
    }

    /** The `message` listener, entered once the EventSource has noted the event's id. */
    method HandleMessage(frame: Frame)
      requires Valid()
      modifies this
      ensures Valid() && State() == OnMessage(old(State()), frame)
    {
      lastEventId := frame.id;
      match frame.data {
        case None =>
        case Some(row) =>
          rows := rows + [row];
          if !followingRef {
            pendingCount := pendingCount + 1;
          }
      }
    }

    method ChangeFollowing(next: bool)
      requires Valid()
      modifies this
      ensures Valid() && State() == SetFollowing(old(State()), next)
    {
      followingRef := next;
      following := next;
      if next {
        pendingCount := 0;
      }
    }
  }

  // ---------------------------------------------------------------------------------------
  // The server loop
  // ---------------------------------------------------------------------------------------

  /** The outcome of one poll: a failed query, or the log it saw. */
  datatype Poll = Failed | Ready(log: seq<LogRow>)

  /** The connection once every fetched row has been yielded. */
  function Yielded(c: Connection): Connection {
    Connection(if c.batch == [] then c.last else c.batch[|c.batch| - 1].id, [], c.wire + Frames(c.batch))
  }

  function AfterPoll(c: Connection, f: Filter, poll: Poll): Connection {
    match poll
    case Failed => c
    case Ready(log) => Yielded(c.(batch := Batch(log, f, c.last)))
  }

  function AfterPolls(c: Connection, f: Filter, polls: seq<Poll>): Connection {
    if polls == [] then c else AfterPoll(AfterPolls(c, f, polls[..|polls| - 1]), f, polls[|polls| - 1])
  }

  /** The connection after `count` further yields. */
  function Yields(log: seq<LogRow>, f: Filter, c: Connection, count: nat): Connection
    decreases count
  {
    if count == 0 then c else Yields(log, f, ServerStep(log, f, c, Yield), count - 1)
  }

  /** A successful poll of the loop is the protocol's poll step and one yield step a fetched row. */
  lemma {:induction false} PollIsProtocolSteps(log: seq<LogRow>, f: Filter, c: Connection)
    requires c.batch == []
    ensures var polled := ServerStep(log, f, c, PollReady);
            AfterPoll(c, f, Ready(log)) == Yields(log, f, polled, |polled.batch|)
  {
    YieldsDrain(log, f, ServerStep(log, f, c, PollReady));
  }

  lemma {:induction false} YieldsDrain(log: seq<LogRow>, f: Filter, c: Connection)
    ensures Yields(log, f, c, |c.batch|) == Yielded(c)
    decreases |c.batch|
  {
    if c.batch == [] {
      assert c.wire + Frames([]) == c.wire;
    } else {
      var next := ServerStep(log, f, c, Yield);
      assert |next.batch| == |c.batch| - 1;
      YieldsDrain(log, f, next);
      YieldKeepsYielded(log, f, c);
    }
  }

  lemma {:induction false} YieldKeepsYielded(log: seq<LogRow>, f: Filter, c: Connection)
    requires c.batch != []
    ensures Yielded(ServerStep(log, f, c, Yield)) == Yielded(c)
  {
    assert c.wire + Frames(c.batch) == (c.wire + [FrameOf(c.batch[0])]) + Frames(c.batch[1..]);
  }

  /** The row loop of one successful poll: move the cursor onto each row, then emit its event. */
  method YieldRows(rows: seq<LogRow>, last: int, emitted: seq<Frame>) returns (last': int, emitted': seq<Frame>)
    ensures Connection(last', [], emitted') == Yielded(Connection(last, rows, emitted))
  {
    last', emitted' := last, emitted;
    for j := 0 to |rows|
      invariant last' == if j == 0 then last else rows[j - 1].id
      invariant emitted' == emitted + Frames(rows[..j])
    {
      assert Frames(rows[..j + 1]) == Frames(rows[..j]) + [FrameOf(rows[j])];
      last' := rows[j].id;
      emitted' := emitted' + [FrameOf(rows[j])];
    }
    assert rows[..|rows|] == rows;
  }

  /** `stream_logs`: resume from the header, then poll for ever; here, for the given polls. */
  method StreamLogs(header: Option<string>, f: Filter, polls: seq<Poll>) returns (last: int, emitted: seq<Frame>)
    ensures Connection(last, [], emitted) == AfterPolls(Connection(ResumeCursor(header), [], []), f, polls)
  {
    last, emitted := ResumeCursor(header), [];
    for i := 0 to |polls|
      invariant Connection(last, [], emitted) == AfterPolls(Connection(ResumeCursor(header), [], []), f, polls[..i])
    {
      assert polls[..i + 1][..i] == polls[..i];
      match polls[i] {
        case Failed =>
        case Ready(log) =>
          var rows := Batch(log, f, last);
          last, emitted := YieldRows(rows, last, emitted);
      }
    }
    assert polls[..|polls|] == polls;
  }

  /** Every successful poll saw some prefix of `final`. */
  ghost predicate Snapshots(polls: seq<Poll>, final: seq<LogRow>) {
    forall i :: 0 <= i < |polls| && polls[i].Ready? ==> polls[i].log <= final
  }

  /** A poll of any snapshot fetches the next rows of the final log's filtered sequence. */
  lemma {:induction false} SnapshotBatch(log: seq<LogRow>, final: seq<LogRow>, f: Filter, last: int, at: nat)
    requires Ascending(final) && log <= final && Splits(Filtered(final, f), last, at)
    ensures Batch(log, f, last) <= Filtered(final, f)[at..]
    ensures log == final ==> Batch(log, f, last) == Take(Filtered(final, f)[at..], STREAM_BATCH)
  {
    var rows := Filtered(final, f);
    WhereIsSlice(final, f, Some(last), None, at, |rows|);
    assert rows[at..|rows|] == rows[at..];
    assert final == log + final[|log|..];
    WhereAppend(log, final[|log|..], f, Some(last), None);
    assert Where(log, f, Some(last), None) <= rows[at..];
  }

  /** The emitted frames are one slice of `rows`, which ends where the cursor stands. */
  ghost predicate Emitted(rows: seq<LogRow>, c: Connection, start: nat, to: nat) {
    c.batch == [] && start <= to && Splits(rows, c.last, to) && c.wire == Frames(rows[start..to])
  }

  /** Yielding a next stretch of `rows` extends the slice and moves the cursor to its end. */
  lemma {:induction false} YieldExtends(rows: seq<LogRow>, c: Connection, batch: seq<LogRow>, start: nat, to: nat)
    requires Ascending(rows) && Emitted(rows, c, start, to) && batch <= rows[to..]
    ensures Emitted(rows, Yielded(c.(batch := batch)), start, to + |batch|)
  {
    var end := to + |batch|;
    assert batch == rows[to..end];
    JoinSlices(rows, start, to, end);
    if batch != [] {
      SplitsAfter(rows, end);
      assert batch[|batch| - 1] == rows[end - 1];
    }
  }

  lemma {:induction false} SplitsAfter(rows: seq<LogRow>, k: nat)
    requires Ascending(rows) && 0 < k <= |rows|
    ensures Splits(rows, rows[k - 1].id, k)
  {
  }

  lemma {:induction false} JoinSlices(rows: seq<LogRow>, a: nat, b: nat, c: nat)
    requires a <= b <= c <= |rows|
    ensures Frames(rows[a..b]) + Frames(rows[b..c]) == Frames(rows[a..c])
  {
  }

  /** One poll of a snapshot extends the slice; of the final log, by up to a whole batch. */
  lemma {:induction false} PollExtends(c: Connection, f: Filter, poll: Poll, final: seq<LogRow>, start: nat, to: nat) returns (to': nat)
    requires Ascending(final) && (poll.Ready? ==> poll.log <= final)
    requires Emitted(Filtered(final, f), c, start, to)
    ensures Emitted(Filtered(final, f), AfterPoll(c, f, poll), start, to')
    ensures poll == Ready(final) ==> to' == to + |Take(Filtered(final, f)[to..], STREAM_BATCH)|
  {
    to' := to;
    if poll.Ready? {
      var batch := Batch(poll.log, f, c.last);
      SnapshotBatch(poll.log, final, f, c.last, to);
      WhereAscends(final, f, None, None);
      YieldExtends(Filtered(final, f), c, batch, start, to);
      assert AfterPoll(c, f, poll) == Yielded(c.(batch := batch));
      to' := to + |batch|;
    }
  }

  /** Over any polls of a growing log, what is emitted is one slice of the filtered log. */
  lemma {:induction false} StreamExtends(c: Connection, f: Filter, polls: seq<Poll>, final: seq<LogRow>, start: nat)
      returns (to: nat)
    requires Ascending(final) && Snapshots(polls, final)
    requires c.batch == [] && c.wire == [] && Splits(Filtered(final, f), c.last, start)
    ensures Emitted(Filtered(final, f), AfterPolls(c, f, polls), start, to)
  {
    to := start;
    if polls != [] {
      var init := polls[..|polls| - 1];
      to := StreamExtends(c, f, init, final, start);
      to := PollExtends(AfterPolls(c, f, init), f, polls[|polls| - 1], final, start, to);
    }
  }

  /**
   From any resume header, over any successful and failed polls of a growing log, the loop
   emits exactly the matching rows between its first and its last cursor, in id order.
   */
  lemma {:induction false} StreamIsExactlyOnce(header: Option<string>, f: Filter, polls: seq<Poll>, final: seq<LogRow>)
    requires Ascending(final) && Snapshots(polls, final)
    ensures var after := AfterPolls(Connection(ResumeCursor(header), [], []), f, polls);
            after.wire == Frames(Where(final, f, Some(ResumeCursor(header)), Some(after.last + 1)))
  {
    var c := Connection(ResumeCursor(header), [], []);
    var start := FindSplit(Filtered(final, f), c.last);
    var to := StreamExtends(c, f, polls, final, start);
    WhereIsSlice(final, f, Some(c.last), Some(AfterPolls(c, f, polls).last + 1), start, to);
  }

  /** `count` successful polls between which nothing was appended. */
  function Quiet(log: seq<LogRow>, count: nat): (polls: seq<Poll>)
    ensures |polls| == count
  {
    if count == 0 then [] else Quiet(log, count - 1) + [Ready(log)]
  }

  /** On a quiet log each poll emits the next hundred rows, until none are left. */
  lemma {:induction false} QuietPolls(c: Connection, f: Filter, log: seq<LogRow>, count: nat, start: nat) returns (to: nat)
    requires Ascending(log) && c.batch == [] && c.wire == [] && Splits(Filtered(log, f), c.last, start)
    ensures Emitted(Filtered(log, f), AfterPolls(c, f, Quiet(log, count)), start, to)
    ensures to == start + Min(STREAM_BATCH * count, |Filtered(log, f)| - start)
  {
    to := start;
    if count > 0 {
      to := QuietPolls(c, f, log, count - 1, start);
      var polls := Quiet(log, count);
      assert polls[..count - 1] == Quiet(log, count - 1);
      to := PollExtends(AfterPolls(c, f, Quiet(log, count - 1)), f, Ready(log), log, start, to);
    }
  }

  /** The tail of a quiet log is complete after `n / 100` polls, rounded up, and not before. */
  lemma {:induction false} QuietStreamCompletes(header: Option<string>, f: Filter, log: seq<LogRow>, count: nat)
    requires Ascending(log)
    ensures var after := AfterPolls(Connection(ResumeCursor(header), [], []), f, Quiet(log, count));
            var wanted := Where(log, f, Some(ResumeCursor(header)), None);
            after.wire == Frames(wanted) <==> count >= (|wanted| + 99) / 100
  {
    var c := Connection(ResumeCursor(header), [], []);
    var start := FindSplit(Filtered(log, f), c.last);
    var to := QuietPolls(c, f, log, count, start);
    WhereIsSlice(log, f, Some(c.last), None, start, |Filtered(log, f)|);
  }

  /**
   Both readers enumerate one filtered log: what a complete tail emits from the start is a
   finished page walk reversed, whatever its limits.
   */
  lemma {:induction false} PagesAndTailAgree(log: seq<LogRow>, f: Filter, requests: seq<AuditPages.Request>, polls: nat)
    requires SerialIds(log) && requests != [] && requests[0].appended == []
    requires Ascending(AuditPages.LogAfter(log, requests))
    ensures var pages := AuditPages.Walk(log, f, None, requests);
            var rows := Reversed(AuditPages.Rows(pages));
            var wire := AfterPolls(Connection(ResumeCursor(None), [], []), f, Quiet(log, polls)).wire;
            AuditPages.Finished(pages) && polls >= (|rows| + 99) / 100 ==>
              |wire| == |rows| && forall i :: 0 <= i < |rows| ==> wire[i] == Frame(PrintI64(rows[i].id), Some(rows[i]))
  {
    AuditPages.WalkReadsTheFilteredLog(log, f, requests);
    assert log + [] == log;
    QuietStreamCompletes(None, f, log, polls);
    FromTheStart(log, f);
    FramesReadBackwards(Filtered(log, f));
  }

  lemma {:induction false} FramesReadBackwards(rows: seq<LogRow>)
    ensures var back := Reversed(WireRows(Reversed(rows)));
            |Frames(rows)| == |back| && forall i :: 0 <= i < |back| ==> Frames(rows)[i] == Frame(PrintI64(back[i].id), Some(back[i]))
  {
    assert Reversed(WireRows(Reversed(rows))) == WireRows(rows);
  }

  /** Every serial id is above the cursor a stream without a resume header starts at. */
  lemma {:induction false} FromTheStart(log: seq<LogRow>, f: Filter)
    requires SerialIds(log)
    ensures Where(log, f, Some(0), None) == Filtered(log, f)
  {
    FilteredIsSerial(log, f);
    WhereIsSlice(log, f, Some(0), None, 0, |Filtered(log, f)|);
  }
}
