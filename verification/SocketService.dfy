/**
 What a served bind leaves in the directory, what a stop and a failure take away again, and
 for which reason a bind is refused.
 */
module SocketService {
  import opened Wrappers
  import opened SocketStates
  import opened SocketPublication
  import opened SocketSafety
  import opened SocketRecovery

  /* ---------------- a bind that serves ---------------- */

  // Everything that was there, the record and a live socket of the listener under `public`.
  function Served(nodes: Directory, public: Name, identity: Identity): Directory {
    (nodes - {STATE_TEMPORARY_FILE})[STATE_FILE := Other][public := Socket(identity, true, Listener)]
  }

  lemma Step(w: World, v: World, hint: Hint)
    requires Remaining(w.phase) > 0 && Advance(w, hint) == Proceeded(v)
    ensures Finish(w, hint) == Finish(v, hint)
  {
  }

  lemma ClearedIsAnnounced(w: World, launch: Launch, hint: Hint)
    requires w.phase == Cleared(launch)
    ensures Finish(w, hint)
         == Finish(World((w.nodes - {STATE_TEMPORARY_FILE})[STATE_FILE := Other],
                         Preparing(launch.public, launch.temporary), Announced(launch)), hint)
  {
    var a := World(w.nodes[STATE_TEMPORARY_FILE := Other], w.record, Announcing(launch));
    var b := World((w.nodes - {STATE_TEMPORARY_FILE})[STATE_FILE := Other], Preparing(launch.public, launch.temporary),
                   Announced(launch));
    assert a.nodes - {STATE_TEMPORARY_FILE} == w.nodes - {STATE_TEMPORARY_FILE};
    Step(w, a, hint);
    Step(a, b, hint);
  }

  lemma AnnouncedIsHeld(w: World, launch: Launch, hint: Hint)
    requires w.phase == Announced(launch) && launch.temporary !in w.nodes
    ensures Finish(w, hint)
         == Finish(World(w.nodes[launch.temporary := Socket(hint.identity, true, Listener)], w.record,
                         Held(launch, hint.identity)), hint)
  {
    var a := World(w.nodes[launch.temporary := Socket(hint.identity, true, Listener)], w.record, Bound(launch));
    Step(w, a, hint);
    Step(a, a.(phase := Held(launch, hint.identity)), hint);
  }

  lemma HeldIsRecorded(w: World, launch: Launch, hint: Hint)
    requires w.phase == Held(launch, hint.identity) && STATE_TEMPORARY_FILE !in w.nodes
    requires STATE_FILE in w.nodes && w.nodes[STATE_FILE] == Other
    ensures Finish(w, hint)
         == Finish(World(w.nodes, Prepared(launch.public, launch.temporary, hint.identity), Recorded(launch, hint.identity)), hint)
  {
    var a := World(w.nodes[STATE_TEMPORARY_FILE := Other], w.record, Recording(launch, hint.identity));
    assert (a.nodes - {STATE_TEMPORARY_FILE})[STATE_FILE := Other] == w.nodes;
    Step(w, a, hint);
    Step(a, World(w.nodes, Prepared(launch.public, launch.temporary, hint.identity), Recorded(launch, hint.identity)), hint);
  }

  lemma ClearedIsRecorded(w: World, launch: Launch, hint: Hint)
    requires w.phase == Cleared(launch) && GoodLaunch(launch) && launch.temporary !in w.nodes
    ensures Finish(w, hint)
         == Finish(World(Served(w.nodes, launch.temporary, hint.identity),
                         Prepared(launch.public, launch.temporary, hint.identity), Recorded(launch, hint.identity)), hint)
  {
    var announced := World((w.nodes - {STATE_TEMPORARY_FILE})[STATE_FILE := Other],
                           Preparing(launch.public, launch.temporary), Announced(launch));
    ClearedIsAnnounced(w, launch, hint);
    AnnouncedIsHeld(announced, launch, hint);
    HeldIsRecorded(World(Served(w.nodes, launch.temporary, hint.identity), announced.record, Held(launch, hint.identity)),
                   launch, hint);
  }

  lemma RecordedIsServed(w: World, launch: Launch, identity: Identity, base: Directory, hint: Hint)
    requires GoodLaunch(launch) && launch.temporary !in base && launch.public !in base
    requires w.phase == Recorded(launch, identity) && w.nodes == Served(base, launch.temporary, identity)
    ensures Finish(w, hint)
         == Proceeded(World(Served(base, launch.public, identity), Owned(launch.public, identity), Serving(launch, identity)))
  {
    var served := Served(base, launch.public, identity);
    Renamed(base, launch.temporary, launch.public, identity);
    Step(w, World(served, w.record, Published(launch, identity)), hint);
    Step(World(served, w.record, Published(launch, identity)), World(served, w.record, Adopted(launch, identity)), hint);
    AdoptedIsServed(World(served, w.record, Adopted(launch, identity)), launch, identity, hint);
  }

  lemma Renamed(base: Directory, temporary: Name, public: Name, identity: Identity)
    requires temporary != public && !Reserved(temporary) && !Reserved(public) && temporary !in base && public !in base
    ensures var nodes, served := Served(base, temporary, identity), Served(base, public, identity);
            && (nodes - {temporary})[public := nodes[temporary]] == served
            && temporary !in served && public !in nodes
            && STATE_TEMPORARY_FILE !in served && STATE_FILE in served && served[STATE_FILE] == Other
  {
  }

  lemma AdoptedIsServed(w: World, launch: Launch, identity: Identity, hint: Hint)
    requires w.phase == Adopted(launch, identity) && STATE_TEMPORARY_FILE !in w.nodes
    requires STATE_FILE in w.nodes && w.nodes[STATE_FILE] == Other
    ensures Finish(w, hint) == Proceeded(World(w.nodes, Owned(launch.public, identity), Serving(launch, identity)))
  {
    var a := World(w.nodes[STATE_TEMPORARY_FILE := Other], w.record, Claiming(launch, identity));
    assert (a.nodes - {STATE_TEMPORARY_FILE})[STATE_FILE := Other] == w.nodes;
    Step(w, a, hint);
    Step(a, World(w.nodes, Owned(launch.public, identity), Serving(launch, identity)), hint);
  }

  lemma ClearedIsServed(w: World, launch: Launch, hint: Hint)
    requires w.phase == Cleared(launch) && GoodLaunch(launch) && launch.temporary !in w.nodes && launch.public !in w.nodes
    ensures Finish(w, hint)
         == Proceeded(World(Served(w.nodes, launch.public, hint.identity), Owned(launch.public, hint.identity),
                            Serving(launch, hint.identity)))
  {
    var recorded := World(Served(w.nodes, launch.temporary, hint.identity),
                          Prepared(launch.public, launch.temporary, hint.identity), Recorded(launch, hint.identity));
    ClearedIsRecorded(w, launch, hint);
    RecordedIsServed(recorded, launch, hint.identity, w.nodes, hint);
  }

  lemma ExaminedIsCleared(w: World, launch: Launch, hint: Hint)
    requires Invariant(w) && w.phase.Examined? && w.phase.launch == launch && !Alien(w.nodes, launch.public)
    ensures var cleared := World(Unmade(w.nodes), w.record, Cleared(launch));
            Invariant(cleared) && Finish(w, hint) == Finish(cleared, hint)
  {
    ReachesCleared(w, hint);
    RecoverNeverFails(w);
    var recovered := Advance(w, hint).world;
    RecoverKeeps(w);
    ClearExactly(recovered);
    Step(w, recovered, hint);
    Step(recovered, Advance(recovered, hint).world, hint);
  }

  // A bind that succeeds leaves exactly what was there before, without any socket of earlier
  // listeners and any draft, and with the lock, the record and one live socket.
  lemma BindLeavesExactly(w: World, launch: Launch, hint: Hint)
    requires Invariant(w) && w.phase == Down && FreshLaunch(w, launch) && Unobstructed(w, launch.public)
    requires Enumerates(hint.listing, WithLock(w.nodes)) && FreshIdentity(w.nodes, hint.identity)
    ensures Bind(w, launch, hint)
         == Proceeded(World(Served(Unmade(WithLock(w.nodes)), launch.public, hint.identity),
                            Owned(launch.public, hint.identity), Serving(launch, hint.identity)))
  {
    var locked := Start(w, launch).world;
    ApplyKeeps(w, Launching(launch));
    SettledUnderLock(w, launch.public);
    ExamineExactly(locked, launch, hint);
    AdvanceKeeps(locked, hint);
    var examined := Advance(locked, hint).world;
    Step(locked, examined, hint);
    ExaminedIsCleared(examined, launch, hint);
    ClearedIsServed(World(Unmade(examined.nodes), examined.record, Cleared(launch)), launch, hint);
  }

  /* ---------------- stops and failures ---------------- */

  // A clean stop takes away the listener's socket and nothing else.
  lemma StopRemovesSocket(w: World)
    requires Invariant(w) && w.phase.Serving?
    ensures var stopped := Apply(w, Stop);
            && stopped.phase == Down && stopped.record == w.record
            && NoneMade(stopped.nodes)
            && stopped.nodes == w.nodes - {w.phase.launch.public}
  {
    var public := w.phase.launch.public;
    assert Made(w.nodes, public);
    assert Silenced(w.nodes - {public}) == w.nodes - {public};
  }

  // A failure at any step after the public name was cleared leaves no socket behind, but for
  // two: a socket that was bound and not yet captured, and one that was renamed into place
  // and not yet captured there.
  lemma FailureLeavesNothing(w: World)
    requires Invariant(w) && w.phase != Down && Remaining(w.phase) <= 10
    ensures NoneMade(Apply(w, Fail).nodes) <==> !w.phase.Bound? && !w.phase.Published?
  {
    var after := Apply(w, Fail).nodes;
    if w.phase.Bound? {
      assert Made(after, w.phase.launch.temporary);
    } else if w.phase.Published? {
      assert Made(after, w.phase.launch.public);
    }
  }

  /* ---------------- refusals ---------------- */

  // The reason for which a bind is refused on a record of the current form, from what is in
  // the directory before.
  function Obstruction(w: World, public: Name): Option<Error> {
    if Reserved(public) then Some(ReservedSocketName)
    else if !ConfigurationAccepted(w.nodes, public, w.record) then Some(SocketConfigurationChanged)
    else if public !in w.nodes || Made(w.nodes, public) then None
    else if w.nodes[public].Other? then Some(InvalidSocketTarget)
    else if w.nodes[public].live then Some(AlreadyRunning)
    else Some(UnownedStaleSocket)
  }

  lemma RefusedFor(w: World, launch: Launch, hint: Hint)
    requires Invariant(w) && w.phase == Down && FreshLaunch(w, launch) && !w.record.Legacy()
    requires Enumerates(hint.listing, WithLock(w.nodes)) && FreshIdentity(w.nodes, hint.identity)
    ensures var r, reason := Bind(w, launch, hint), Obstruction(w, launch.public);
            if reason.None? then r.Proceeded? else r.Refused? && r.error == reason.value
  {
    if !Reserved(launch.public) {
      var locked := Start(w, launch).world;
      ApplyKeeps(w, Launching(launch));
      assert ConfigurationAccepted(locked.nodes, launch.public, w.record)
        <==> ConfigurationAccepted(w.nodes, launch.public, w.record);
      AdvanceKeeps(locked, hint);
      if ConfigurationAccepted(w.nodes, launch.public, w.record) {
        var examined := Advance(locked, hint).world;
        RecoverNeverFails(examined);
        RecoverKeeps(examined);
        var recovered := Advance(examined, hint).world;
        Step(locked, examined, hint);
        Step(examined, recovered, hint);
        assert FreshIdentity(examined.nodes, hint.identity);
        ExaminedFinishesExactly(examined, hint);
        if Alien(examined.nodes, launch.public) {
          AlienStays(examined, hint, launch.public);
          RefusedAtPublic(recovered, hint);
        }
      }
    }
  }

  lemma AlienStays(w: World, hint: Hint, n: Name)
    requires Invariant(w) && w.phase.Examined? && Advance(w, hint).Proceeded?
    ensures Alien(w.nodes, n) ==> Alien(Advance(w, hint).world.nodes, n) && Advance(w, hint).world.nodes[n] == w.nodes[n]
  {
    ClearingKeepsAliens(w, hint);
  }

  lemma RefusedAtPublic(w: World, hint: Hint)
    requires Invariant(w) && w.phase.Recovered? && Alien(w.nodes, w.phase.launch.public)
    ensures var r, node := Finish(w, hint), w.nodes[w.phase.launch.public];
            && r.Refused?
            && r.error == if node.Other? then InvalidSocketTarget else if node.live then AlreadyRunning else UnownedStaleSocket
  {
    assert w.nodes[w.phase.launch.public].Socket? ==>
        RecordedIdentity(w.phase.previous) != Some(w.nodes[w.phase.launch.public].identity);
  }
}
