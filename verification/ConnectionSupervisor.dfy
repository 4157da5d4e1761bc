/**
 The accept loop of Queue Ingress: active connections, their handler threads, the
 completion channel and the deadlines.

 `running`, `started` and `joined` are history: which handler threads have not sent their
 completion yet, how many connections were started, and which threads were joined.
 Times are milliseconds.
 */
module ConnectionSupervisor {
  import opened Wrappers

  const HANDLER_CANCELLATION_GRACE: int := 1000
  const ID_LIMIT := U64_LIMIT

  type ConnectionId = nat

  datatype ConnectionOutcome = Served | Panicked

  datatype Completion = Completion(id: ConnectionId, outcome: ConnectionOutcome)

  datatype Connection = Connection(expires: int, cancellationStarted: Option<int>)

  datatype Error =
    | CompletionChannelClosed
    | UnknownConnection
    | ConnectionCancellationTimedOut(id: ConnectionId)
    | ConnectionPanicked
    | AcceptFailed
    | StartFailed

  datatype Phase = Listening | Stopping(error: Option<Error>)

  datatype State = State(
    active: map<ConnectionId, Connection>,
    queue: seq<Completion>,
    next: ConnectionId,
    phase: Phase,
    running: set<ConnectionId>,
    started: nat,
    joined: seq<ConnectionId>
  )

  const INITIAL := State(map[], [], 0, Listening, {}, 0, [])

  /* ---------------- completions ---------------- */

  // Removing a connection joins its thread, even when the outcome is a panic.
  function Finish(s: State, completion: Completion): (r: (State, Option<Error>)) {
    if completion.id !in s.active then
      (s, Some(UnknownConnection))
    else
      (s.(active := s.active - {completion.id}, joined := s.joined + [completion.id]),
       if completion.outcome == Panicked then Some(ConnectionPanicked) else None)
  }

  // The listener keeps its own sender while it listens; afterwards only handlers hold one.
  predicate Disconnected(s: State) {
    s.queue == [] && !s.phase.Listening? && s.running == {}
  }

  function Drain(s: State): (State, Option<Error>)
    decreases |s.queue|
  {
    if s.queue == [] then
      (s, if Disconnected(s) && s.active != map[] then Some(CompletionChannelClosed) else None)
    else
      var (t, error) := Finish(s.(queue := s.queue[1..]), s.queue[0]);
      if error.Some? then (t, error) else Drain(t)
  }

  /* ---------------- deadlines ---------------- */

  function ExpireOne(c: Connection, now: int): Connection {
    if now >= c.expires && c.cancellationStarted.None? then c.(cancellationStarted := Some(now)) else c
  }

  function ExpireAll(active: map<ConnectionId, Connection>, now: int): map<ConnectionId, Connection> {
    map id | id in active :: ExpireOne(active[id], now)
  }

  // A cancelled handler that is still there after the grace period.
  predicate Overdue(c: Connection, now: int) {
    && now >= c.expires
    && c.cancellationStarted.Some?
    && now - c.cancellationStarted.value >= HANDLER_CANCELLATION_GRACE
  }

  /* ---------------- the loop ---------------- */

  datatype Accept = WouldBlock | Interrupted | AcceptError | Accepted(at: int, spawned: bool)

  datatype Settings = Settings(maximumConnections: nat, timeout: nat)

  function Stop(s: State, error: Option<Error>): State {
    s.(phase := Stopping(error))
  }

  // A fresh identifier with its handler thread.
  function WithConnection(s: State, id: ConnectionId, c: Connection): State {
    s.(active := s.active[id := c], running := s.running + {id}, started := s.started + 1)
  }

  // `wrapping_add`.
  function Following(id: ConnectionId): ConnectionId {
    if id + 1 == ID_LIMIT then 0 else id + 1
  }

  function AcceptStep(s: State, settings: Settings, accept: Accept): State {
    if |s.active| >= settings.maximumConnections then
      s
    else
      match accept
      case WouldBlock => s
      case Interrupted => s
      case AcceptError => Stop(s, Some(AcceptFailed))
      case Accepted(at, spawned) =>
        var id := s.next;
        var t := s.(next := Following(s.next));
        if !spawned then
          Stop(t, Some(StartFailed))
        else
          WithConnection(t, id, Connection(at + settings.timeout, None))
  }

  // One iteration. `stalled` is the connection that the hash map's order reports first.
  function Poll(s: State, settings: Settings, now: int, accept: Accept, stalled: ConnectionId): State {
    var (drained, error) := Drain(s);
    if error.Some? then
      Stop(drained, error)
    else
      var expired := drained.(active := ExpireAll(drained.active, now));
      if stalled in expired.active && Overdue(expired.active[stalled], now) then
        Stop(expired, Some(ConnectionCancellationTimedOut(stalled)))
      else
        AcceptStep(expired, settings, accept)
  }

  function KeepFirst(first: Option<Error>, second: Option<Error>): Option<Error> {
    if first.Some? then first else second
  }

  // One receive of the shutdown loop.
  function Receive(s: State): State
    requires s.phase.Stopping?
  {
    if s.active == map[] then
      s
    else if s.queue != [] then
      var (t, error) := Finish(s.(queue := s.queue[1..]), s.queue[0]);
      Stop(t, KeepFirst(s.phase.error, error))
    else if Disconnected(s) then
      Stop(s, KeepFirst(s.phase.error, Some(CompletionChannelClosed)))
    else
      s
  }

  /* ---------------- runs ---------------- */

  datatype Event =
    | HandlerSends(completion: Completion)
    | Iteration(now: int, accept: Accept, stalled: ConnectionId)
    | StopRequested
    | ShutdownReceive

  // The reported connection is overdue whenever one is.
  ghost predicate ReportsStalled(s: State, now: int, stalled: ConnectionId) {
    var active := Drain(s).0.active;
    (exists id :: id in active && Overdue(ExpireOne(active[id], now), now)) ==>
      stalled in active && Overdue(ExpireOne(active[stalled], now), now)
  }

  ghost predicate Enabled(s: State, settings: Settings, e: Event) {
    match e
    case HandlerSends(completion) => completion.id in s.running
    case Iteration(now, accept, stalled) =>
      && s.phase.Listening?
      && ReportsStalled(s, now, stalled)
      // the deadline starts after the iteration does
      && (accept.Accepted? ==> accept.at >= now)
      && (accept.Accepted? ==> s.started < ID_LIMIT)
    case StopRequested => s.phase.Listening?
    case ShutdownReceive => s.phase.Stopping?
  }

  function Apply(s: State, settings: Settings, e: Event): State {
    match e
    case HandlerSends(completion) =>
      s.(queue := s.queue + [completion], running := s.running - {completion.id})
    case Iteration(now, accept, stalled) => Poll(s, settings, now, accept, stalled)
    case StopRequested => Stop(s, None)
    case ShutdownReceive => if s.phase.Stopping? then Receive(s) else s
  }

  ghost predicate Legal(s: State, settings: Settings, es: seq<Event>)
    decreases |es|
  {
    es == [] || (Enabled(s, settings, es[0]) && Legal(Apply(s, settings, es[0]), settings, es[1..]))
  }

  function Execute(s: State, settings: Settings, es: seq<Event>): State
    decreases |es|
  {
    if es == [] then s else Execute(Apply(s, settings, es[0]), settings, es[1..])
  }

  /* ---------------- conservation ---------------- */

  predicate Queued(queue: seq<Completion>, id: ConnectionId) {
    exists i :: 0 <= i < |queue| && queue[i].id == id
  }

  ghost predicate QueueDistinct(queue: seq<Completion>) {
    forall i, j :: 0 <= i < j < |queue| ==> queue[i].id != queue[j].id
  }

  // Every active connection has exactly one completion to come: unsent or queued.
  ghost predicate HandlersMatch(s: State) {
    && QueueDistinct(s.queue)
    && (forall id :: id in s.active <==> id in s.running || Queued(s.queue, id))
    && (forall id :: id in s.running ==> !Queued(s.queue, id))
  }

  // Every started connection is either active or joined, and joined at most once.
  ghost predicate Conserved(s: State) {
    && Distinct(s.joined)
    && (forall id: nat :: id < s.started <==> id in s.active || id in s.joined)
    && (forall id :: id in s.active ==> id !in s.joined)
  }

  ghost predicate Invariant(s: State, settings: Settings) {
    && HandlersMatch(s)
    && Conserved(s)
    && |s.active| <= settings.maximumConnections
    && s.started <= ID_LIMIT
    && (s.phase.Listening? ==> s.next == if s.started == ID_LIMIT then 0 else s.started)
    && (s.phase.Stopping? ==>
          s.phase.error != Some(UnknownConnection) && s.phase.error != Some(CompletionChannelClosed))
  }

  lemma FinishKeeps(s: State, settings: Settings)
    requires Invariant(s, settings) && s.queue != []
    ensures var (t, error) := Finish(s.(queue := s.queue[1..]), s.queue[0]);
            Invariant(t, settings) && t.phase == s.phase && t.running == s.running
            && error != Some(UnknownConnection) && error != Some(CompletionChannelClosed)
  {
    var done, rest := s.queue[0], s.queue[1..];
    QueueTail(s.queue);
    assert Queued(s.queue, done.id);
    var t := Finish(s.(queue := rest), done).0;
    assert HandlersMatch(t);
    assert Conserved(t) by {
      JoinedStaysDistinct(s.joined, done.id);
    }
    assert t.active.Keys + {done.id} == s.active.Keys;
  }

  lemma QueueTail(queue: seq<Completion>)
    requires queue != [] && QueueDistinct(queue)
    ensures var done, rest := queue[0].id, queue[1..];
            && QueueDistinct(rest) && !Queued(rest, done)
            && (forall id :: Queued(queue, id) <==> id == done || Queued(rest, id))
  {
    var rest := queue[1..];
    forall id | Queued(queue, id) && id != queue[0].id ensures Queued(rest, id) {
      var i :| 0 <= i < |queue| && queue[i].id == id;
      assert rest[i - 1].id == id;
    }
    forall id | Queued(rest, id) ensures Queued(queue, id) {
      var i :| 0 <= i < |rest| && rest[i].id == id;
      assert queue[i + 1].id == id;
    }
  }

  lemma JoinedStaysDistinct(joined: seq<ConnectionId>, id: ConnectionId)
    requires Distinct(joined) && id !in joined
    ensures Distinct(joined + [id])
  {
  }

  lemma {:induction false} DrainKeeps(s: State, settings: Settings)
    requires Invariant(s, settings) && s.phase.Listening?
    ensures var (t, error) := Drain(s);
            Invariant(t, settings) && t.phase == s.phase && t.started == s.started
            && error != Some(UnknownConnection) && error != Some(CompletionChannelClosed)
    decreases |s.queue|
  {
    if s.queue == [] {
    } else {
      FinishKeeps(s, settings);
      var (t, error) := Finish(s.(queue := s.queue[1..]), s.queue[0]);
      if error.None? {
        DrainKeeps(t, settings);
      }
    }
  }

  lemma StartKeeps(s: State, c: Connection)
    requires HandlersMatch(s) && Conserved(s)
    ensures var t := WithConnection(s, s.started, c);
            HandlersMatch(t) && Conserved(t) && |t.active| == |s.active| + 1
  {
    var t := WithConnection(s, s.started, c);
    assert s.started !in s.active;
    assert t.active.Keys == s.active.Keys + {s.started};
  }

  lemma AcceptKeeps(s: State, settings: Settings, accept: Accept)
    requires Invariant(s, settings) && s.phase.Listening?
    requires accept.Accepted? ==> s.started < ID_LIMIT
    ensures Invariant(AcceptStep(s, settings, accept), settings)
  {
    if accept.Accepted? && accept.spawned && |s.active| < settings.maximumConnections {
      assert s.next == s.started;
      StartKeeps(s.(next := Following(s.next)), Connection(accept.at + settings.timeout, None));
    }
  }

  lemma QueueSends(queue: seq<Completion>, completion: Completion)
    ensures forall id :: Queued(queue + [completion], id) <==> Queued(queue, id) || id == completion.id
  {
    var sent := queue + [completion];
    forall id ensures Queued(sent, id) <==> Queued(queue, id) || id == completion.id {
      assert sent[|queue|].id == completion.id;
      if Queued(queue, id) {
        var i :| 0 <= i < |queue| && queue[i].id == id;
        assert sent[i].id == id;
      }
    }
  }

  lemma SendKeeps(s: State, settings: Settings, completion: Completion)
    requires Invariant(s, settings) && completion.id in s.running
    ensures Invariant(Apply(s, settings, HandlerSends(completion)), settings)
  {
    QueueSends(s.queue, completion);
  }

  lemma ExpireKeeps(s: State, settings: Settings, now: int)
    requires Invariant(s, settings)
    ensures Invariant(s.(active := ExpireAll(s.active, now)), settings)
  {
    assert ExpireAll(s.active, now).Keys == s.active.Keys;
  }

  lemma StopKeeps(s: State, settings: Settings, error: Option<Error>)
    requires Invariant(s, settings) && error != Some(UnknownConnection) && error != Some(CompletionChannelClosed)
    ensures Invariant(Stop(s, error), settings)
  {
  }

  lemma PollKeeps(s: State, settings: Settings, now: int, accept: Accept, stalled: ConnectionId)
    requires Invariant(s, settings) && s.phase.Listening?
    requires accept.Accepted? ==> s.started < ID_LIMIT
    ensures Invariant(Poll(s, settings, now, accept, stalled), settings)
  {
    DrainKeeps(s, settings);
    var (drained, error) := Drain(s);
    if error.Some? {
      StopKeeps(drained, settings, error);
    } else {
      var expired := drained.(active := ExpireAll(drained.active, now));
      ExpireKeeps(drained, settings, now);
      AcceptKeeps(expired, settings, accept);
      StopKeeps(expired, settings, Some(ConnectionCancellationTimedOut(stalled)));
    }
  }

  lemma ApplyKeeps(s: State, settings: Settings, e: Event)
    requires Invariant(s, settings) && Enabled(s, settings, e)
    ensures Invariant(Apply(s, settings, e), settings)
  {
    match e
    case HandlerSends(completion) => SendKeeps(s, settings, completion);
    case Iteration(now, accept, stalled) => PollKeeps(s, settings, now, accept, stalled);
    case StopRequested =>
    case ShutdownReceive =>
      if s.queue != [] {
        FinishKeeps(s, settings);
      }
  }

  lemma {:induction false} InvariantInEveryRun(s: State, settings: Settings, es: seq<Event>)
    requires Invariant(s, settings) && Legal(s, settings, es)
    ensures Invariant(Execute(s, settings, es), settings)
    decreases |es|
  {
    if es == [] {
    } else {
      ApplyKeeps(s, settings, es[0]);
      InvariantInEveryRun(Apply(s, settings, es[0]), settings, es[1..]);
    }
  }

  // In every run of at most 2^64 accepts, listening or stopping: never more connections than
  // the maximum, every started connection active or joined exactly once, and the listener
  // never meets an unknown connection or a closed channel.
  lemma ConnectionsConserved(settings: Settings, es: seq<Event>)
    requires Legal(INITIAL, settings, es)
    ensures var s := Execute(INITIAL, settings, es);
            && |s.active| <= settings.maximumConnections
            && Distinct(s.joined)
            && (forall id: nat :: id < s.started <==> (id in s.active) != (id in s.joined))
            && s.phase != Stopping(Some(UnknownConnection))
            && s.phase != Stopping(Some(CompletionChannelClosed))
            && !(Disconnected(s) && s.active != map[])
  {
    InvariantInEveryRun(INITIAL, settings, es);
    var s := Execute(INITIAL, settings, es);
    assert Invariant(s, settings);
    if Disconnected(s) {
      forall id ensures id !in s.active {
        assert !Queued(s.queue, id);
      }
      assert s.active == map[];
    }
  }

  /* ---------------- bounded overrun ---------------- */

  // After an iteration at `last` that did not stop, when iterations are at most `gap` apart.
  ghost predicate OnTime(c: Connection, last: int, gap: nat) {
    match c.cancellationStarted
    case None => last <= c.expires
    case Some(start) =>
      c.expires <= start <= c.expires + gap && start <= last < start + HANDLER_CANCELLATION_GRACE
  }

  ghost predicate AllOnTime(s: State, last: int, gap: nat) {
    forall id :: id in s.active ==> OnTime(s.active[id], last, gap)
  }

  lemma {:induction false} DrainOnlyRemoves(s: State)
    ensures var t := Drain(s).0;
            t.active.Keys <= s.active.Keys && (forall id :: id in t.active ==> t.active[id] == s.active[id])
            && t.phase == s.phase && t.next == s.next
    decreases |s.queue|
  {
    if s.queue == [] {
    } else {
      var (t, error) := Finish(s.(queue := s.queue[1..]), s.queue[0]);
      if error.None? {
        DrainOnlyRemoves(t);
      }
    }
  }

  // A non-stopping iteration within the gap keeps every deadline on time.
  lemma IterationOnTime(s: State, settings: Settings, e: Event, last: int, gap: nat)
    requires AllOnTime(s, last, gap) && e.Iteration? && Enabled(s, settings, e)
    requires last <= e.now <= last + gap
    ensures var t := Apply(s, settings, e);
            t.phase.Listening? ==> AllOnTime(t, e.now, gap)
  {
    DrainOnlyRemoves(s);
    var drained := Drain(s).0;
    var t := Apply(s, settings, e);
    if t.phase.Listening? {
      forall id | id in t.active ensures OnTime(t.active[id], e.now, gap) {
        if id in drained.active && t.active[id] == ExpireOne(drained.active[id], e.now) {
          assert OnTime(s.active[id], last, gap);
          assert !Overdue(ExpireOne(drained.active[id], e.now), e.now);
        }
      }
    }
  }

  // The times of the iterations of a run never go back and are at most `gap` apart.
  ghost predicate Paced(es: seq<Event>, last: int, gap: nat)
    decreases |es|
  {
    if es == [] then true
    else if es[0].Iteration? then last <= es[0].now <= last + gap && Paced(es[1..], es[0].now, gap)
    else Paced(es[1..], last, gap)
  }

  function LastIteration(es: seq<Event>, last: int): int
    decreases |es|
  {
    if es == [] then last
    else LastIteration(es[1..], if es[0].Iteration? then es[0].now else last)
  }

  lemma {:induction false} StoppingLasts(s: State, settings: Settings, es: seq<Event>)
    requires s.phase.Stopping? && Legal(s, settings, es)
    ensures Execute(s, settings, es).phase.Stopping?
    decreases |es|
  {
    if es == [] {
    } else {
      StoppingLasts(Apply(s, settings, es[0]), settings, es[1..]);
    }
  }

  lemma {:induction false} OnTimeInEveryRun(s: State, settings: Settings, es: seq<Event>, last: int, gap: nat)
    requires AllOnTime(s, last, gap) && Legal(s, settings, es) && Paced(es, last, gap)
    ensures var t := Execute(s, settings, es);
            t.phase.Listening? ==> AllOnTime(t, LastIteration(es, last), gap)
    decreases |es|
  {
    if es == [] {
    } else {
      var t := Apply(s, settings, es[0]);
      var now := if es[0].Iteration? then es[0].now else last;
      if t.phase.Listening? {
        if es[0].Iteration? {
          IterationOnTime(s, settings, es[0], last, gap);
        }
        OnTimeInEveryRun(t, settings, es[1..], now, gap);
      } else {
        StoppingLasts(t, settings, es[1..]);
      }
    }
  }

  // A listener that still listens has no connection past its expiry by more than the gap
  // between iterations plus the grace period.
  lemma OverrunBounded(settings: Settings, es: seq<Event>, first: int, gap: nat, id: ConnectionId)
    requires Legal(INITIAL, settings, es) && Paced(es, first, gap)
    ensures var s := Execute(INITIAL, settings, es);
            s.phase.Listening? && id in s.active ==>
              LastIteration(es, first) < s.active[id].expires + gap + HANDLER_CANCELLATION_GRACE
  {
    OnTimeInEveryRun(INITIAL, settings, es, first, gap);
  }

  // What stays fixed about a connection while it is active.
  ghost predicate Settled(before: State, after: State, id: ConnectionId)
    requires id in before.active
  {
    id in after.active ==>
      && after.active[id].expires == before.active[id].expires
      && (before.active[id].cancellationStarted.Some? ==>
            after.active[id].cancellationStarted == before.active[id].cancellationStarted)
  }

  lemma NextUnused(s: State, settings: Settings)
    requires Invariant(s, settings) && s.phase.Listening? && s.started < ID_LIMIT
    ensures s.next !in s.active
  {
  }

  lemma AcceptSettled(s: State, settings: Settings, accept: Accept, id: ConnectionId)
    requires id in s.active && (accept.Accepted? ==> s.next != id)
    ensures var t := AcceptStep(s, settings, accept); id in t.active && t.active[id] == s.active[id]
  {
  }

  lemma PollSettled(s: State, settings: Settings, e: Event, id: ConnectionId)
    requires e.Iteration? && id in s.active && (e.accept.Accepted? ==> s.next != id)
    ensures Settled(s, Apply(s, settings, e), id)
  {
    DrainOnlyRemoves(s);
    var drained := Drain(s).0;
    var expired := drained.(active := ExpireAll(drained.active, e.now));
    if id in expired.active {
      AcceptSettled(expired, settings, e.accept, id);
    }
  }

  lemma ApplySettled(s: State, settings: Settings, e: Event, id: ConnectionId)
    requires Invariant(s, settings) && Enabled(s, settings, e) && id in s.active
    ensures Settled(s, Apply(s, settings, e), id)
  {
    if e.Iteration? {
      if e.accept.Accepted? {
        NextUnused(s, settings);
      }
      PollSettled(s, settings, e, id);
    }
  }

  lemma ActiveOrJoined(s: State, settings: Settings, e: Event, id: ConnectionId)
    requires Invariant(s, settings) && Enabled(s, settings, e) && id in s.active
    ensures id in Apply(s, settings, e).active || id in Apply(s, settings, e).joined
  {
    ApplyKeeps(s, settings, e);
    StartedGrows(s, settings, e);
    assert id < s.started;
  }

  lemma StartedGrows(s: State, settings: Settings, e: Event)
    requires Invariant(s, settings) && Enabled(s, settings, e)
    ensures Apply(s, settings, e).started >= s.started
    ensures s.joined <= Apply(s, settings, e).joined
  {
    if e.Iteration? {
      PollGrows(s, settings, e.now, e.accept, e.stalled);
    }
  }

  lemma PollGrows(s: State, settings: Settings, now: int, accept: Accept, stalled: ConnectionId)
    ensures Poll(s, settings, now, accept, stalled).started >= s.started
    ensures s.joined <= Poll(s, settings, now, accept, stalled).joined
  {
    DrainJoins(s);
  }

  lemma {:induction false} DrainJoins(s: State)
    ensures s.joined <= Drain(s).0.joined && Drain(s).0.started == s.started
    decreases |s.queue|
  {
    if s.queue == [] {
    } else {
      var (t, error) := Finish(s.(queue := s.queue[1..]), s.queue[0]);
      if error.None? {
        DrainJoins(t);
      }
    }
  }

  // A deadline never moves, a cancellation start is set once, and a joined connection never
  // comes back.
  lemma {:induction false} CancellationStartsOnce(s: State, settings: Settings, es: seq<Event>, id: ConnectionId)
    requires Invariant(s, settings) && Legal(s, settings, es) && id in s.active
    ensures Settled(s, Execute(s, settings, es), id)
    decreases |es|
  {
    if es == [] {
    } else {
      var t := Apply(s, settings, es[0]);
      ApplyKeeps(s, settings, es[0]);
      ApplySettled(s, settings, es[0], id);
      ActiveOrJoined(s, settings, es[0], id);
      if id in t.active {
        CancellationStartsOnce(t, settings, es[1..], id);
      } else {
        JoinedForGood(t, settings, es[1..], id);
      }
    }
  }

  lemma {:induction false} JoinedForGood(s: State, settings: Settings, es: seq<Event>, id: ConnectionId)
    requires Invariant(s, settings) && Legal(s, settings, es) && id in s.joined
    ensures id !in Execute(s, settings, es).active && id in Execute(s, settings, es).joined
    decreases |es|
  {
    if es == [] {
    } else {
      ApplyKeeps(s, settings, es[0]);
      StartedGrows(s, settings, es[0]);
      JoinedForGood(Apply(s, settings, es[0]), settings, es[1..], id);
    }
  }
}
