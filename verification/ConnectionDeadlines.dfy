/**
 When connections start, expire and are given up, in terms of the times at which they were
 accepted, and which error a listener ends with.
 */
module ConnectionDeadlines {
  import opened Wrappers
  import opened ConnectionSupervisor

  /* ---------------- what a drain leaves ---------------- */

  ghost predicate AllServed(queue: seq<Completion>) {
    forall i :: 0 <= i < |queue| ==> queue[i].outcome == Served
  }

  // All queued completions are taken unless one of them is a panic, which is then reported.
  lemma {:induction false} DrainExact(s: State, settings: Settings)
    requires Invariant(s, settings) && s.phase.Listening?
    ensures var (t, error) := Drain(s);
            && error == (if AllServed(s.queue) then None else Some(ConnectionPanicked))
            && (AllServed(s.queue) ==>
                  && |t.active| == |s.active| - |s.queue|
                  && (forall id :: id in t.active <==> id in s.active && !Queued(s.queue, id)))
    decreases |s.queue|
  {
    if s.queue == [] {
    } else {
      var (t, error) := Finish(s.(queue := s.queue[1..]), s.queue[0]);
      FinishKeeps(s, settings);
      QueueTail(s.queue);
      assert Queued(s.queue, s.queue[0].id);
      assert s.active.Keys == t.active.Keys + {s.queue[0].id} && s.queue[0].id !in t.active;
      ServedTail(s.queue);
      if error.None? {
        DrainExact(t, settings);
      }
    }
  }

  lemma ServedTail(queue: seq<Completion>)
    requires queue != []
    ensures AllServed(queue) <==> queue[0].outcome == Served && AllServed(queue[1..])
  {
    forall i | 0 < i < |queue| ensures queue[i] == queue[1..][i - 1] {
    }
  }

  /* ---------------- one iteration ---------------- */

  // A cancelled connection whose handler has had its second and has not reported.
  predicate Stalled(s: State, now: int, id: ConnectionId) {
    && id in s.active && !Queued(s.queue, id) && now >= s.active[id].expires
    && s.active[id].cancellationStarted.Some? && now - s.active[id].cancellationStarted.value >= 1000
  }

  lemma StalledExact(s: State, settings: Settings, now: int, id: ConnectionId)
    requires Invariant(s, settings) && s.phase.Listening? && AllServed(s.queue)
    ensures var active := Drain(s).0.active;
            id in active && Overdue(ExpireOne(active[id], now), now) <==> Stalled(s, now, id)
  {
    DrainExact(s, settings);
    DrainOnlyRemoves(s);
  }

  // The outcome of an iteration: a panic that was reported stops the listener, then a stalled
  // handler; then at most one connection is started, exactly if one was accepted, its thread
  // started and fewer than the maximum are left.
  lemma IterationExact(s: State, settings: Settings, now: int, accept: Accept, stalled: ConnectionId)
    requires Invariant(s, settings) && Enabled(s, settings, Iteration(now, accept, stalled))
    ensures var t := Poll(s, settings, now, accept, stalled);
            var room := |s.active| - |s.queue| < settings.maximumConnections;
            if !AllServed(s.queue) then
              t.phase == Stopping(Some(ConnectionPanicked)) && t.started == s.started
            else if exists id :: Stalled(s, now, id) then
              && t.phase == Stopping(Some(ConnectionCancellationTimedOut(stalled))) && Stalled(s, now, stalled)
              && t.started == s.started
            else
              && t.phase == (if !room then Listening
                             else if accept.AcceptError? then Stopping(Some(AcceptFailed))
                             else if accept.Accepted? && !accept.spawned then Stopping(Some(StartFailed))
                             else Listening)
              && t.started == s.started + (if room && accept.Accepted? && accept.spawned then 1 else 0)
  {
    DrainExact(s, settings);
    DrainOnlyRemoves(s);
    DrainJoins(s);
    var drained := Drain(s).0;
    var expired := ExpireAll(drained.active, now);
    assert expired.Keys == drained.active.Keys;
    if AllServed(s.queue) {
      forall id ensures id in drained.active && Overdue(ExpireOne(drained.active[id], now), now) <==> Stalled(s, now, id) {
        StalledExact(s, settings, now, id);
      }
      assert |expired| == |drained.active|;
    }
  }

  /* ---------------- deadlines over whole runs ---------------- */

  // The time of the accept by which an event starts a connection.
  function Started(s: State, settings: Settings, e: Event): seq<int> {
    if e.Iteration? && e.accept.Accepted? && Apply(s, settings, e).started > s.started then [e.accept.at] else []
  }

  function AcceptTimes(s: State, settings: Settings, es: seq<Event>): seq<int>
    decreases |es|
  {
    if es == [] then [] else Started(s, settings, es[0]) + AcceptTimes(Apply(s, settings, es[0]), settings, es[1..])
  }

  // Connection `id` was accepted at `times[id]`.
  ghost predicate Dated(s: State, settings: Settings, times: seq<int>) {
    && |times| == s.started
    && (forall id :: id in s.active ==> id < |times| && OnDate(s.active[id], times[id], settings))
  }

  predicate OnDate(c: Connection, accepted: int, settings: Settings) {
    && c.expires == accepted + settings.timeout
    && (c.cancellationStarted.Some? ==> c.cancellationStarted.value >= accepted + settings.timeout)
  }

  lemma DatedAfterExpiry(s: State, settings: Settings, times: seq<int>, now: int)
    requires Dated(s, settings, times)
    ensures Dated(s.(active := ExpireAll(s.active, now)), settings, times)
  {
  }

  lemma DatedAfterAccept(s: State, settings: Settings, times: seq<int>, accept: Accept)
    requires Invariant(s, settings) && s.phase.Listening? && Dated(s, settings, times)
    requires accept.Accepted? ==> s.started < ID_LIMIT
    ensures var t := AcceptStep(s, settings, accept);
            && t.started <= s.started + 1 && (t.started > s.started ==> accept.Accepted?)
            && Dated(t, settings, times + if t.started > s.started then [accept.at] else [])
  {
    var t := AcceptStep(s, settings, accept);
    if t.started > s.started {
      var all := times + [accept.at];
      assert t.active == s.active[s.started := Connection(accept.at + settings.timeout, None)];
      assert forall id :: 0 <= id < |times| ==> all[id] == times[id];
    } else {
      assert times + [] == times;
    }
  }

  lemma DatedAfterDrain(s: State, settings: Settings, times: seq<int>)
    requires Dated(s, settings, times)
    ensures Dated(Drain(s).0, settings, times)
  {
    DrainOnlyRemoves(s);
    DrainJoins(s);
  }

  lemma DatedAfterPoll(s: State, settings: Settings, times: seq<int>, e: Event)
    requires Invariant(s, settings) && e.Iteration? && Enabled(s, settings, e) && Dated(s, settings, times)
    ensures Dated(Apply(s, settings, e), settings, times + Started(s, settings, e))
  {
    DatedAfterDrain(s, settings, times);
    DrainKeeps(s, settings);
    var (drained, error) := Drain(s);
    assert times + [] == times;
    if error.None? {
      DatedAfterExpiry(drained, settings, times, e.now);
      ExpireKeeps(drained, settings, e.now);
      DatedAfterAccept(drained.(active := ExpireAll(drained.active, e.now)), settings, times, e.accept);
    }
  }

  lemma DatedAfterFinish(s: State, settings: Settings, times: seq<int>, completion: Completion)
    requires Dated(s, settings, times)
    ensures Dated(Finish(s, completion).0, settings, times)
  {
  }

  lemma DatedStep(s: State, settings: Settings, times: seq<int>, e: Event)
    requires Invariant(s, settings) && Enabled(s, settings, e) && Dated(s, settings, times)
    ensures Dated(Apply(s, settings, e), settings, times + Started(s, settings, e))
  {
    if e.Iteration? {
      DatedAfterPoll(s, settings, times, e);
    } else {
      assert times + [] == times;
      if e.ShutdownReceive? && s.queue != [] {
        DatedAfterFinish(s.(queue := s.queue[1..]), settings, times, s.queue[0]);
      }
    }
  }

  lemma {:induction false} DatedInEveryRun(s: State, settings: Settings, times: seq<int>, es: seq<Event>)
    requires Invariant(s, settings) && Legal(s, settings, es) && Dated(s, settings, times)
    ensures Dated(Execute(s, settings, es), settings, times + AcceptTimes(s, settings, es))
    decreases |es|
  {
    if es == [] {
      assert times + [] == times;
    } else {
      var next, own := Apply(s, settings, es[0]), Started(s, settings, es[0]);
      ApplyKeeps(s, settings, es[0]);
      DatedStep(s, settings, times, es[0]);
      DatedInEveryRun(next, settings, times + own, es[1..]);
      Associative(times, own, AcceptTimes(next, settings, es[1..]));
    }
  }

  // In every run: one accept for each started connection; an active connection expires
  // exactly the configured time after its accept, and was not cancelled before.
  lemma DeadlinesExact(settings: Settings, es: seq<Event>, id: ConnectionId)
    requires Legal(INITIAL, settings, es)
    ensures var s, times := Execute(INITIAL, settings, es), AcceptTimes(INITIAL, settings, es);
            && |times| == s.started
            && (id in s.active ==>
                  && id < |times| && s.active[id].expires == times[id] + settings.timeout
                  && (s.active[id].cancellationStarted.Some? ==>
                        s.active[id].cancellationStarted.value >= times[id] + settings.timeout))
  {
    DatedInEveryRun(INITIAL, settings, [], es);
    assert [] + AcceptTimes(INITIAL, settings, es) == AcceptTimes(INITIAL, settings, es);
  }

  // So no listener gives a handler up before its connection has had all of its time and the
  // handler a second more.
  lemma NobodyGivenUpEarly(settings: Settings, es: seq<Event>, e: Event, id: ConnectionId)
    requires Legal(INITIAL, settings, es) && e.Iteration?
    requires var s := Execute(INITIAL, settings, es);
             && Enabled(s, settings, e)
             && Apply(s, settings, e).phase == Stopping(Some(ConnectionCancellationTimedOut(id)))
    ensures var times := AcceptTimes(INITIAL, settings, es);
            id < |times| && e.now >= times[id] + settings.timeout + 1000
  {
    var s := Execute(INITIAL, settings, es);
    InvariantInEveryRun(INITIAL, settings, es);
    DeadlinesExact(settings, es, id);
    IterationExact(s, settings, e.now, e.accept, e.stalled);
  }

  /* ---------------- errors ---------------- */

  // The shutdown loop keeps the first error, and reports a panic if there is none.
  lemma ReceiveExact(s: State, settings: Settings)
    requires Invariant(s, settings) && s.phase.Stopping? && s.queue != []
    ensures Apply(s, settings, ShutdownReceive).phase
         == Stopping(if s.phase.error.Some? then s.phase.error
                     else if s.queue[0].outcome == Panicked then Some(ConnectionPanicked) else None)
  {
    assert Queued(s.queue, s.queue[0].id);
    assert s.queue[0].id in s.active;
  }

  lemma {:induction false} FirstErrorKept(s: State, settings: Settings, es: seq<Event>)
    requires s.phase.Stopping? && s.phase.error.Some? && Legal(s, settings, es)
    ensures Execute(s, settings, es).phase == s.phase
    decreases |es|
  {
    if es == [] {
    } else {
      FirstErrorKept(Apply(s, settings, es[0]), settings, es[1..]);
    }
  }
}
