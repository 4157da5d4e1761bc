/**
 What every run of the publication protocol keeps: each listener-made socket in the
 directory is accounted for by the durable record, and nobody else's node is touched.
 */
module SocketSafety {
  import opened Wrappers
  import opened SocketStates
  import opened SocketPublication

  // Where a record says that a listener-made socket may be. A legacy record names no
  // public file, only the identity of the socket.
  predicate RecordedAt(state: SocketState, name: Name, identity: Identity) {
    match state
    case Absent => false
    case LegacyPreparing(temporary) => name == temporary
    case LegacyPrepared(_, recorded) => identity == recorded
    case LegacyOwned(recorded) => identity == recorded
    case Preparing(_, temporary) => name == temporary
    case Prepared(public, temporary, recorded) => (name == public || name == temporary) && identity == recorded
    case Owned(public, recorded) => name == public && identity == recorded
  }

  ghost predicate Accounted(nodes: Directory, state: SocketState) {
    forall n | Made(nodes, n) :: RecordedAt(state, n, nodes[n].identity)
  }

  ghost predicate AllSilent(nodes: Directory) {
    forall n | Made(nodes, n) :: !nodes[n].live
  }

  ghost predicate OnlyMade(nodes: Directory, name: Name, identity: Identity) {
    && Made(nodes, name)
    && nodes[name].identity == identity
    && (forall n | Made(nodes, n) :: n == name)
  }

  ghost predicate NoneMade(nodes: Directory) {
    forall n :: !Made(nodes, n)
  }

  predicate GoodLaunch(launch: Launch) {
    launch.temporary != launch.public && !Reserved(launch.temporary) && !Reserved(launch.public)
  }

  // The part of the invariant that depends on how far the listener has come.
  ghost predicate PhaseInvariant(w: World) {
    match w.phase
    case Down => AllSilent(w.nodes)
    case Locked(launch) =>
      GoodLaunch(launch) && AllSilent(w.nodes) && launch.temporary !in w.nodes && LOCK_FILE in w.nodes
    case Examined(launch, previous) =>
      && GoodLaunch(launch) && AllSilent(w.nodes) && launch.temporary !in w.nodes
      && !previous.Legacy() && Accounted(w.nodes, previous) && Apart(w.nodes, previous)
      && ConfigurationAccepted(w.nodes, launch.public, previous)
    case Recovered(launch, previous) =>
      && GoodLaunch(launch) && AllSilent(w.nodes) && launch.temporary !in w.nodes
      && !previous.Legacy() && Accounted(w.nodes, previous) && Apart(w.nodes, previous)
      && ConfigurationAccepted(w.nodes, launch.public, previous)
      && (previous.TemporaryName().Some? ==> previous.TemporaryName().value.0 !in w.nodes)
    case Cleared(launch) =>
      GoodLaunch(launch) && NoneMade(w.nodes) && launch.temporary !in w.nodes && launch.public !in w.nodes
    case Announcing(launch) =>
      GoodLaunch(launch) && NoneMade(w.nodes) && launch.temporary !in w.nodes && launch.public !in w.nodes
    case Announced(launch) =>
      && GoodLaunch(launch) && NoneMade(w.nodes) && launch.temporary !in w.nodes && launch.public !in w.nodes
      && w.record == Preparing(launch.public, launch.temporary)
    case Bound(launch) =>
      && GoodLaunch(launch) && launch.public !in w.nodes
      && Made(w.nodes, launch.temporary)
      && OnlyMade(w.nodes, launch.temporary, w.nodes[launch.temporary].identity)
      && UniqueIdentity(w.nodes, launch.temporary)
      && w.record == Preparing(launch.public, launch.temporary)
    case Held(launch, identity) =>
      && GoodLaunch(launch) && launch.public !in w.nodes
      && OnlyMade(w.nodes, launch.temporary, identity)
      && UniqueIdentity(w.nodes, launch.temporary)
      && w.record == Preparing(launch.public, launch.temporary)
    case Recording(launch, identity) =>
      && GoodLaunch(launch) && launch.public !in w.nodes
      && OnlyMade(w.nodes, launch.temporary, identity)
      && UniqueIdentity(w.nodes, launch.temporary)
      && w.record == Preparing(launch.public, launch.temporary)
    case Recorded(launch, identity) =>
      && GoodLaunch(launch) && launch.public !in w.nodes
      && OnlyMade(w.nodes, launch.temporary, identity)
      && w.record == Prepared(launch.public, launch.temporary, identity)
    case Published(launch, identity) =>
      && GoodLaunch(launch) && launch.temporary !in w.nodes
      && OnlyMade(w.nodes, launch.public, identity)
      && w.record == Prepared(launch.public, launch.temporary, identity)
    case Adopted(launch, identity) =>
      && GoodLaunch(launch) && launch.temporary !in w.nodes
      && OnlyMade(w.nodes, launch.public, identity)
      && w.record == Prepared(launch.public, launch.temporary, identity)
    case Claiming(launch, identity) =>
      && GoodLaunch(launch) && launch.temporary !in w.nodes
      && OnlyMade(w.nodes, launch.public, identity)
      && w.record == Prepared(launch.public, launch.temporary, identity)
    case Serving(launch, identity) =>
      && GoodLaunch(launch)
      && OnlyMade(w.nodes, launch.public, identity)
      && w.record == Owned(launch.public, identity)
  }

  ghost predicate UniqueIdentity(nodes: Directory, name: Name)
    requires Made(nodes, name)
  {
    forall n <- nodes | n != name :: !Matches(nodes, n, nodes[name].identity)
  }

  ghost predicate Invariant(w: World) {
    && ReservedPlain(w.nodes)
    && Accounted(w.nodes, w.record)
    && Apart(w.nodes, w.record)
    && PhaseInvariant(w)
  }

  // Nobody holds the lock and the record accounts for every listener-made socket; an
  // untouched directory without a record is one instance, an upgraded one another.
  ghost predicate Initial(w: World) {
    w.phase == Down && Invariant(w)
  }

  /* ---------------- the legacy scan ---------------- */

  lemma {:induction false} LocateSound(
    nodes: Directory, listing: seq<Name>, identity: Identity, index: nat, located: Option<Name>
  )
    requires index <= |listing|
    requires Enumerates(listing, nodes)
    requires forall i :: 0 <= i < index ==>
               (Matches(nodes, listing[i], identity) <==> located == Some(listing[i]))
    requires located.Some? ==> Matches(nodes, located.value, identity)
    ensures var r := LocateFrom(nodes, listing, identity, index, located);
            r.Success? ==> forall n :: Matches(nodes, n, identity) <==> r.value == Some(n)
    decreases |listing| - index
  {
    if index < |listing| && index < MAXIMUM_DIRECTORY_ENTRIES {
      if !Matches(nodes, listing[index], identity) {
        LocateSound(nodes, listing, identity, index + 1, located);
      } else if located.None? {
        LocateSound(nodes, listing, identity, index + 1, Some(listing[index]));
      }
    } else if index == |listing| {
      forall n ensures Matches(nodes, n, identity) <==> located == Some(n) {
        if n in nodes {
          assert n in listing;
          var i :| 0 <= i < |listing| && listing[i] == n;
        }
      }
    }
  }

  lemma ResolveKeepsAccount(w: World, launch: Launch, hint: Hint)
    requires Invariant(w) && w.phase == Locked(launch) && Honest(w, hint)
    ensures var r := ResolveLegacy(w.nodes, hint.listing, launch.public, w.record);
            r.Success? ==> !r.value.Legacy() && Accounted(w.nodes, r.value) && Apart(w.nodes, r.value)
  {
    var identity := RecordedIdentity(w.record);
    if identity.Some? {
      LocateSound(w.nodes, hint.listing, identity.value, 0, None);
    }
    var r := ResolveLegacy(w.nodes, hint.listing, launch.public, w.record);
    if r.Success? {
      forall n | Made(w.nodes, n) ensures RecordedAt(r.value, n, w.nodes[n].identity) {
        assert RecordedAt(w.record, n, w.nodes[n].identity);
        assert identity.Some? && w.nodes[n].identity == identity.value ==> Matches(w.nodes, n, identity.value);
      }
    }
  }

  /* ---------------- one step ---------------- */

  // Losing the process, with or without its drop handlers, keeps the invariant.
  lemma KilledKeeps(w: World)
    requires ReservedPlain(w.nodes) && Accounted(w.nodes, w.record) && Apart(w.nodes, w.record)
    ensures Invariant(Killed(w))
  {
  }

  lemma RemovalKeeps(w: World, name: Name, identity: Identity)
    requires Invariant(w)
    ensures Invariant(Killed(World(RemoveIfOwned(w.nodes, name, identity), w.record, w.phase)))
  {
    var nodes := RemoveIfOwned(w.nodes, name, identity);
    assert forall n <- nodes :: n in w.nodes && nodes[n] == w.nodes[n];
    KilledKeeps(World(nodes, w.record, w.phase));
  }

  lemma AbandonedKeeps(w: World)
    requires Invariant(w)
    ensures Invariant(Abandoned(w))
  {
    match w.phase
    case Held(launch, identity) => RemovalKeeps(w, launch.temporary, identity);
    case Recording(launch, identity) => RemovalKeeps(w, launch.temporary, identity);
    case Recorded(launch, identity) => RemovalKeeps(w, launch.temporary, identity);
    case Published(launch, identity) => RemovalKeeps(w, launch.temporary, identity);
    case Adopted(launch, identity) => RemovalKeeps(w, launch.public, identity);
    case Claiming(launch, identity) => RemovalKeeps(w, launch.public, identity);
    case Serving(launch, identity) => RemovalKeeps(w, launch.public, identity);
    case _ => KilledKeeps(w);
  }

  lemma RecoverKeeps(w: World)
    requires Invariant(w) && w.phase.Examined?
    ensures var r := RecoverTemporary(w.nodes, w.phase.previous);
            r.Success? ==> Invariant(World(r.value, w.record, Recovered(w.phase.launch, w.phase.previous)))
  {
  }

  // The heart of the protocol: once the public name is clear, no socket is left to account for.
  lemma ClearKeeps(w: World)
    requires Invariant(w) && w.phase.Recovered?
    ensures var r := ClearPublic(w.nodes, w.phase.previous, w.phase.launch.public);
            r.Success? ==> Invariant(World(r.value, w.record, Cleared(w.phase.launch)))
  {
  }

  // From the cleared directory on, every step keeps exactly one socket, at the recorded place.
  lemma AnnouncingKeeps(w: World, hint: Hint)
    requires Invariant(w) && (w.phase.Cleared? || w.phase.Announcing?)
    ensures Invariant(Advance(w, hint).world)
  {
  }

  lemma BindingKeeps(w: World, hint: Hint)
    requires Invariant(w) && Honest(w, hint) && (w.phase.Announced? || w.phase.Bound?)
    ensures Invariant(Advance(w, hint).world)
  {
  }

  lemma RecordingKeeps(w: World, hint: Hint)
    requires Invariant(w) && (w.phase.Held? || w.phase.Recording?)
    ensures Invariant(Advance(w, hint).world)
  {
  }

  lemma RecordedKeeps(w: World, hint: Hint)
    requires Invariant(w) && w.phase.Recorded?
    ensures Invariant(Advance(w, hint).world)
  {
    AbandonedKeeps(w);
  }

  lemma AdoptedKeeps(w: World, hint: Hint)
    requires Invariant(w) && w.phase.Adopted?
    ensures Invariant(Advance(w, hint).world)
  {
  }

  lemma ClaimingKeeps(w: World, hint: Hint)
    requires Invariant(w) && w.phase.Claiming?
    ensures Invariant(Advance(w, hint).world)
  {
  }

  lemma PublishedKeeps(w: World, hint: Hint)
    requires Invariant(w) && w.phase.Published?
    ensures Invariant(Advance(w, hint).world)
  {
    assert RemoveIfOwned(w.nodes, w.phase.launch.temporary, w.phase.identity) == w.nodes;
  }

  lemma AdvanceKeeps(w: World, hint: Hint)
    requires Invariant(w) && Honest(w, hint)
    ensures Invariant(Advance(w, hint).world)
  {
    match w.phase
    case Down =>
    case Locked(launch) => ResolveKeepsAccount(w, launch, hint); AbandonedKeeps(w);
    case Examined(_, _) => RecoverKeeps(w); AbandonedKeeps(w);
    case Recovered(_, _) => ClearKeeps(w); AbandonedKeeps(w);
    case Cleared(_) => AnnouncingKeeps(w, hint);
    case Announcing(_) => AnnouncingKeeps(w, hint);
    case Announced(_) => BindingKeeps(w, hint);
    case Bound(_) => BindingKeeps(w, hint);
    case Held(_, _) => RecordingKeeps(w, hint);
    case Recording(_, _) => RecordingKeeps(w, hint);
    case Recorded(_, _) => RecordedKeeps(w, hint);
    case Published(_, _) => PublishedKeeps(w, hint);
    case Adopted(_, _) => AdoptedKeeps(w, hint);
    case Claiming(_, _) => ClaimingKeeps(w, hint);
    case Serving(_, _) =>
  }

  lemma ApplyKeeps(w: World, e: Event)
    requires Invariant(w) && Enabled(w, e)
    ensures Invariant(Apply(w, e))
  {
    match e
    case Advancing(hint) => AdvanceKeeps(w, hint);
    case Crash => KilledKeeps(w);
    case Fail => AbandonedKeeps(w);
    case Stop => AbandonedKeeps(w);
    case _ =>
  }

  /* ---------------- whole runs ---------------- */

  lemma {:induction false} InvariantInEveryRun(w: World, es: seq<Event>)
    requires Invariant(w) && Legal(w, es)
    ensures Invariant(Execute(w, es))
    decreases |es|
  {
    if es == [] {
    } else {
      ApplyKeeps(w, es[0]);
      InvariantInEveryRun(Apply(w, es[0]), es[1..]);
    }
  }

  // Under any sequence of configured names, crashes, failures and outside changes, every
  // listener-made socket sits where the record says, and is dead once no listener runs.
  lemma AccountingInEveryRun(w: World, es: seq<Event>)
    requires Initial(w) && Legal(w, es)
    ensures var v := Execute(w, es);
            && (forall n | Made(v.nodes, n) :: RecordedAt(v.record, n, v.nodes[n].identity))
            && (v.phase == Down ==> forall n | Made(v.nodes, n) :: !v.nodes[n].live)
  {
    InvariantInEveryRun(w, es);
  }

  // Nodes that the listener did not make survive unchanged.
  ghost predicate AliensKept(before: Directory, after: Directory) {
    forall n | Alien(before, n) :: n in after && after[n] == before[n]
  }

  lemma AbandonedKeepsAliens(w: World)
    requires Invariant(w)
    ensures AliensKept(w.nodes, Abandoned(w).nodes)
  {
  }

  lemma ClearingKeepsAliens(w: World, hint: Hint)
    requires Invariant(w)
    requires w.phase.Locked? || w.phase.Examined? || w.phase.Recovered? || w.phase.Cleared?
    ensures AliensKept(w.nodes, Advance(w, hint).world.nodes)
  {
    AbandonedKeepsAliens(w);
  }

  lemma BindingKeepsAliens(w: World, hint: Hint)
    requires Invariant(w) && (w.phase.Announcing? || w.phase.Announced? || w.phase.Bound?)
    ensures AliensKept(w.nodes, Advance(w, hint).world.nodes)
  {
  }

  lemma RecordingKeepsAliens(w: World, hint: Hint)
    requires Invariant(w) && (w.phase.Held? || w.phase.Recording? || w.phase.Recorded?)
    ensures AliensKept(w.nodes, Advance(w, hint).world.nodes)
  {
    AbandonedKeepsAliens(w);
  }

  lemma AdoptingKeepsAliens(w: World, hint: Hint)
    requires Invariant(w)
    requires w.phase.Down? || w.phase.Published? || w.phase.Adopted? || w.phase.Claiming? || w.phase.Serving?
    ensures AliensKept(w.nodes, Advance(w, hint).world.nodes)
  {
    AbandonedKeepsAliens(w);
  }

  lemma AdvanceKeepsAliens(w: World, hint: Hint)
    requires Invariant(w)
    ensures AliensKept(w.nodes, Advance(w, hint).world.nodes)
  {
    if w.phase.Locked? || w.phase.Examined? || w.phase.Recovered? || w.phase.Cleared? {
      ClearingKeepsAliens(w, hint);
    } else if w.phase.Announcing? || w.phase.Announced? || w.phase.Bound? {
      BindingKeepsAliens(w, hint);
    } else if w.phase.Held? || w.phase.Recording? || w.phase.Recorded? {
      RecordingKeepsAliens(w, hint);
    } else {
      AdoptingKeepsAliens(w, hint);
    }
  }

  lemma ApplyKeepsAliens(w: World, e: Event)
    requires Invariant(w) && Enabled(w, e) && !e.Outside?
    ensures AliensKept(w.nodes, Apply(w, e).nodes)
  {
    AbandonedKeepsAliens(w);
    if e.Advancing? {
      AdvanceKeepsAliens(w, e.hint);
    }
  }

  predicate NoOutside(es: seq<Event>) {
    forall e <- es :: !e.Outside?
  }

  // No run of listeners ever removes, replaces or moves anybody else's node.
  lemma {:induction false} AliensSurviveEveryRun(w: World, es: seq<Event>)
    requires Invariant(w) && Legal(w, es) && NoOutside(es)
    ensures AliensKept(w.nodes, Execute(w, es).nodes)
    decreases |es|
  {
    if es == [] {
    } else {
      ApplyKeeps(w, es[0]);
      ApplyKeepsAliens(w, es[0]);
      AliensSurviveEveryRun(Apply(w, es[0]), es[1..]);
    }
  }
}
