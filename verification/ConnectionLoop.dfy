/** The accept loop's methods on the mutable connection table, proved against the model. */
module ConnectionLoop {
  import opened Wrappers
  import opened ConnectionSupervisor

  class Supervisor {
    var active: map<ConnectionId, Connection>
    var queue: seq<Completion>
    var next: ConnectionId
    ghost var running: set<ConnectionId>
    ghost var started: nat
    ghost var joined: seq<ConnectionId>

    ghost function Model(phase: Phase): State
      reads this
    {
      State(active, queue, next, phase, running, started, joined)
    }

    constructor ()
      ensures Model(Listening) == INITIAL
    {
      active, queue, next := map[], [], 0;
      running, started, joined := {}, 0, [];
    }

    method FinishConnection(completion: Completion) returns (error: Option<Error>)
      modifies this`active, this`joined
      ensures (Model(Listening), error) == Finish(old(Model(Listening)), completion)
    {
      if completion.id !in active {
        return Some(UnknownConnection);
      }
      active := active - {completion.id};
      joined := joined + [completion.id];
      if completion.outcome == Panicked {
        return Some(ConnectionPanicked);
      }
      return None;
    }

    // Receives until the channel is empty or a completion reports an error.
    method DrainCompletions() returns (error: Option<Error>)
      modifies this`active, this`queue, this`joined
      ensures (Model(Listening), error) == Drain(old(Model(Listening)))
    {
      while queue != []
        invariant Drain(Model(Listening)) == Drain(old(Model(Listening)))
        invariant next == old(next) && running == old(running) && started == old(started)
        decreases |queue|
      {
        var completion := queue[0];
        queue := queue[1..];
        error := FinishConnection(completion);
        if error.Some? {
          return;
        }
      }
      return None;
    }

    // Cancels what is due and reports one connection whose grace period is over.
    method ExpireConnections(now: int) returns (stalled: Option<ConnectionId>)
      modifies this`active
      ensures active == ExpireAll(old(active), now)
      ensures stalled.Some? ==> stalled.value in active && Overdue(active[stalled.value], now)
      ensures stalled.None? ==> forall id :: id in active ==> !Overdue(active[id], now)
    {
      stalled := None;
      var todo := active.Keys;
      while todo != {}
        invariant todo <= active.Keys == old(active).Keys
        invariant forall id :: id in active ==>
                    active[id] == if id in todo then old(active)[id] else ExpireOne(old(active)[id], now)
        invariant stalled.Some? ==>
                    stalled.value in active && stalled.value !in todo && Overdue(active[stalled.value], now)
        invariant stalled.None? ==> forall id :: id in active && id !in todo ==> !Overdue(active[id], now)
        decreases |todo|
      {
        var id :| id in todo;
        var connection := active[id];
        if now >= connection.expires {
          if connection.cancellationStarted.None? {
            connection := connection.(cancellationStarted := Some(now));
          }
          active := active[id := connection];
          if now - connection.cancellationStarted.value >= HANDLER_CANCELLATION_GRACE && stalled.None? {
            stalled := Some(id);
          }
        }
        todo := todo - {id};
      }
    }

    method AcceptOne(settings: Settings, accept: Accept) returns (error: Option<Error>)
      modifies this`active, this`next, this`running, this`started
      ensures Model(if error.Some? then Stopping(error) else Listening)
           == AcceptStep(old(Model(Listening)), settings, accept)
    {
      if |active| >= settings.maximumConnections {
        return None;
      }
      match accept
      case WouldBlock => return None;
      case Interrupted => return None;
      case AcceptError => return Some(AcceptFailed);
      case Accepted(at, spawned) =>
        var id := next;
        next := Following(next);
        if !spawned {
          return Some(StartFailed);
        }
        active := active[id := Connection(at + settings.timeout, None)];
        running := running + {id};
        started := started + 1;
        return None;
    }

    // One receive of the shutdown loop; `closed` is what the channel reports when it is empty.
    method ReceiveOne(terminal: Option<Error>, closed: bool) returns (error: Option<Error>)
      requires closed == Disconnected(Model(Stopping(terminal)))
      modifies this`active, this`queue, this`joined
      ensures Model(Stopping(error)) == Receive(old(Model(Stopping(terminal))))
    {
      error := terminal;
      if active == map[] {
        return;
      }
      if queue != [] {
        var completion := queue[0];
        queue := queue[1..];
        var failed := FinishConnection(completion);
        if error.None? {
          error := failed;
        }
      } else if closed && error.None? {
        error := Some(CompletionChannelClosed);
      }
    }

    // One iteration of the loop; the result says whether the loop goes on.
    method Iterate(settings: Settings, now: int, accept: Accept) returns (error: Option<Error>)
      modifies this
      ensures exists stalled ::
        && Model(if error.Some? then Stopping(error) else Listening)
           == Poll(old(Model(Listening)), settings, now, accept, stalled)
        && ReportsStalled(old(Model(Listening)), now, stalled)
    {
      ghost var before := Model(Listening);
      error := DrainCompletions();
      ghost var drained := Model(Listening);
      if error.Some? {
        ghost var pick := SomeStalled(drained.active, now);
        assert Model(Stopping(error)) == Poll(before, settings, now, accept, pick);
        assert ReportsStalled(before, now, pick);
        return;
      }
      var stalled := ExpireConnections(now);
      if stalled.Some? {
        error := Some(ConnectionCancellationTimedOut(stalled.value));
        assert Model(Stopping(error)) == Poll(before, settings, now, accept, stalled.value);
        assert ReportsStalled(before, now, stalled.value);
        return;
      }
      ghost var expired := Model(Listening);
      assert expired == drained.(active := ExpireAll(drained.active, now));
      forall id | id in drained.active ensures !Overdue(ExpireOne(drained.active[id], now), now) {
        assert expired.active[id] == ExpireOne(drained.active[id], now);
      }
      assert ReportsStalled(before, now, 0);
      error := AcceptOne(settings, accept);
      assert Model(if error.Some? then Stopping(error) else Listening) == Poll(before, settings, now, accept, 0);
    }
  }

  // A connection to report, if one is overdue.
  ghost function SomeStalled(active: map<ConnectionId, Connection>, now: int): (id: ConnectionId)
    ensures (exists other :: other in active && Overdue(ExpireOne(active[other], now), now)) ==>
              id in active && Overdue(ExpireOne(active[id], now), now)
  {
    if exists other :: other in active && Overdue(ExpireOne(active[other], now), now) then
      var other :| other in active && Overdue(ExpireOne(active[other], now), now); other
    else
      0
  }
}
