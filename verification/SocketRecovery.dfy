/**
 When a bind succeeds: the exact condition for any directory the protocol can reach, and
 the guarantee that runs under one configured name never meet a refusal.
 */
module SocketRecovery {
  import opened Wrappers
  import opened SocketStates
  import opened SocketPublication
  import opened SocketSafety

  // The directory as the listing of a locked listener shows it.
  function WithLock(nodes: Directory): Directory {
    nodes[LOCK_FILE := Other]
  }

  // The recorded socket of a legacy record is found: the directory is within the scan limit
  // and the identity occurs at most once, at one of the two names.
  ghost predicate LegacyLocatable(nodes: Directory, identity: Identity, names: set<Name>) {
    && |WithLock(nodes)| <= MAXIMUM_DIRECTORY_ENTRIES
    && (forall n | Matches(nodes, n, identity) :: n in names)
    && (forall n, m | Matches(nodes, n, identity) && Matches(nodes, m, identity) :: n == m)
  }

  ghost predicate NameSettled(nodes: Directory, record: SocketState, public: Name) {
    match record
    case LegacyPrepared(temporary, identity) => LegacyLocatable(nodes, identity, {temporary, public})
    case LegacyOwned(identity) => LegacyLocatable(nodes, identity, {public})
    case _ => ConfigurationAccepted(nodes, public, record)
  }

  // What a bind needs: an unreserved name, nobody else's node at it, and no earlier
  // publication under another name.
  ghost predicate Unobstructed(w: World, public: Name) {
    && !Reserved(public)
    && !Alien(w.nodes, public)
    && NameSettled(w.nodes, w.record, public)
  }

  /* ---------------- the legacy scan, exactly ---------------- */

  lemma {:induction false} ListingLength(listing: seq<Name>, names: set<Name>)
    requires forall n <- listing :: n in names
    requires forall n <- names :: n in listing
    requires forall i, j :: 0 <= i < j < |listing| ==> listing[i] != listing[j]
    ensures |listing| == |names|
    decreases |listing|
  {
    if listing == [] {
    } else {
      ListingLength(listing[1..], names - {listing[0]});
    }
  }

  lemma {:induction false} LocateComplete(
    nodes: Directory, listing: seq<Name>, identity: Identity, index: nat, located: Option<Name>
  )
    requires index <= |listing| <= MAXIMUM_DIRECTORY_ENTRIES
    requires Enumerates(listing, nodes)
    requires forall n, m | Matches(nodes, n, identity) && Matches(nodes, m, identity) :: n == m
    requires located.Some? ==> Matches(nodes, located.value, identity) && located.value in listing[..index]
    ensures LocateFrom(nodes, listing, identity, index, located).Success?
    decreases |listing| - index
  {
    if index >= |listing| {
    } else {
      var next := if Matches(nodes, listing[index], identity) then Some(listing[index]) else located;
      LocateComplete(nodes, listing, identity, index + 1, next);
    }
  }

  lemma {:induction false} LocateWithinLimit(
    nodes: Directory, listing: seq<Name>, identity: Identity, index: nat, located: Option<Name>
  )
    requires index <= |listing| && index <= MAXIMUM_DIRECTORY_ENTRIES
    requires LocateFrom(nodes, listing, identity, index, located).Success?
    ensures |listing| <= MAXIMUM_DIRECTORY_ENTRIES
    decreases |listing| - index
  {
    if index >= |listing| {
    } else {
      var next := if Matches(nodes, listing[index], identity) then Some(listing[index]) else located;
      LocateWithinLimit(nodes, listing, identity, index + 1, next);
    }
  }

  // The scan succeeds exactly on a small directory where the identity is unambiguous, and
  // then finds the socket wherever it is.
  lemma LocateExactly(nodes: Directory, listing: seq<Name>, identity: Identity)
    requires Enumerates(listing, nodes)
    ensures var r := LocateFrom(nodes, listing, identity, 0, None);
            && (r.Success? <==>
                && |nodes| <= MAXIMUM_DIRECTORY_ENTRIES
                && (forall n, m | Matches(nodes, n, identity) && Matches(nodes, m, identity) :: n == m))
            && (r.Success? ==> forall n :: Matches(nodes, n, identity) <==> r.value == Some(n))
  {
    ListingLength(listing, nodes.Keys);
    LocateSound(nodes, listing, identity, 0, None);
    if LocateFrom(nodes, listing, identity, 0, None).Success? {
      LocateWithinLimit(nodes, listing, identity, 0, None);
    } else if |listing| <= MAXIMUM_DIRECTORY_ENTRIES
      && (forall n, m | Matches(nodes, n, identity) && Matches(nodes, m, identity) :: n == m) {
      LocateComplete(nodes, listing, identity, 0, None);
    }
  }

  /* ---------------- the steps of one bind ---------------- */

  // On the named states the check is the configuration check; a legacy record reduces to it
  // through the located name.
  lemma ExamineLegacyExactly(w: World, launch: Launch, hint: Hint, identity: Identity)
    requires w.record.LegacyPrepared? || w.record.LegacyOwned?
    requires RecordedIdentity(w.record) == Some(identity)
    requires Enumerates(hint.listing, w.nodes) && LOCK_FILE in w.nodes && w.nodes[LOCK_FILE] == Other
    ensures var r := ResolveLegacy(w.nodes, hint.listing, launch.public, w.record);
            (r.Success? && ConfigurationAccepted(w.nodes, launch.public, r.value)) <==>
            NameSettled(w.nodes, w.record, launch.public)
  {
    assert WithLock(w.nodes) == w.nodes;
    LocateExactly(w.nodes, hint.listing, identity);
    var located := LocateFrom(w.nodes, hint.listing, identity, 0, None);
    if located.Success? && located.value.Some? {
      assert Matches(w.nodes, located.value.value, identity);
    }
  }

  lemma ExamineExactly(w: World, launch: Launch, hint: Hint)
    requires w.phase == Locked(launch)
    requires Enumerates(hint.listing, w.nodes) && LOCK_FILE in w.nodes && w.nodes[LOCK_FILE] == Other
    ensures Advance(w, hint).Proceeded? <==> NameSettled(w.nodes, w.record, launch.public)
  {
    if w.record.LegacyPrepared? || w.record.LegacyOwned? {
      ExamineLegacyExactly(w, launch, hint, w.record.identity);
    }
  }

  lemma RecoverNeverFails(w: World)
    requires Invariant(w) && w.phase.Examined?
    ensures RecoverTemporary(w.nodes, w.phase.previous).Success?
  {
    var recorded := w.phase.previous.TemporaryName();
    if recorded.Some? && recorded.value.0 in w.nodes {
      assert Made(w.nodes, recorded.value.0);
    }
  }

  lemma ClearExactly(w: World)
    requires Invariant(w) && w.phase.Recovered?
    ensures ClearPublic(w.nodes, w.phase.previous, w.phase.launch.public).Success? <==>
            !Alien(w.nodes, w.phase.launch.public)
  {
    var public := w.phase.launch.public;
    if Made(w.nodes, public) {
      assert RecordedAt(w.phase.previous, public, w.nodes[public].identity);
    }
  }

  // The identity of the socket that the launch publishes in the end.
  ghost function Eventual(w: World, hint: Hint): Identity
    requires Invariant(w)
  {
    match w.phase
    case Bound(launch) => w.nodes[launch.temporary].identity
    case Held(_, identity) => identity
    case Recording(_, identity) => identity
    case Recorded(_, identity) => identity
    case Published(_, identity) => identity
    case Adopted(_, identity) => identity
    case Claiming(_, identity) => identity
    case Serving(_, identity) => identity
    case _ => hint.identity
  }

  // Once the public name is clear nothing is refused any more.
  lemma {:induction false} ClearedFinishes(w: World, hint: Hint)
    requires Invariant(w) && w.phase != Down && Remaining(w.phase) <= 10
    requires w.phase.Cleared? || w.phase.Announcing? || w.phase.Announced? ==> FreshIdentity(w.nodes, hint.identity)
    ensures var r := Finish(w, hint);
            r.Proceeded? && Invariant(r.world) && r.world.phase == Serving(w.phase.launch, Eventual(w, hint))
    decreases Remaining(w.phase)
  {
    if w.phase.Serving? {
    } else {
      AdvanceKeeps(w, hint);
      ClearedFinishes(Advance(w, hint).world, hint);
    }
  }

  // A bind succeeds exactly on an unobstructed name, and then the new socket is published,
  // recorded and the only one the listener has.
  lemma BindSucceedsExactlyWhen(w: World, launch: Launch, hint: Hint)
    requires Invariant(w) && w.phase == Down && FreshLaunch(w, launch)
    requires Enumerates(hint.listing, WithLock(w.nodes)) && FreshIdentity(w.nodes, hint.identity)
    ensures var r := Bind(w, launch, hint);
            && (r.Proceeded? <==> Unobstructed(w, launch.public))
            && (r.Proceeded? ==> Invariant(r.world) && r.world.phase == Serving(launch, hint.identity))
  {
    var start := Start(w, launch);
    if start.Proceeded? {
      var locked := start.world;
      ApplyKeeps(w, Launching(launch));
      ExamineExactly(locked, launch, hint);
      SettledUnderLock(w, launch.public);
      AdvanceKeeps(locked, hint);
      var examined := Advance(locked, hint);
      if examined.Proceeded? {
        assert FreshIdentity(examined.world.nodes, hint.identity);
        ExaminedFinishesExactly(examined.world, hint);
      }
    }
  }

  lemma SettledUnderLock(w: World, public: Name)
    requires Invariant(w)
    ensures NameSettled(WithLock(w.nodes), w.record, public) <==> NameSettled(w.nodes, w.record, public)
    ensures !Reserved(public) ==> (Alien(WithLock(w.nodes), public) <==> Alien(w.nodes, public))
  {
    var nodes := WithLock(w.nodes);
    assert WithLock(nodes) == nodes;
    assert forall n, i :: Matches(nodes, n, i) <==> Matches(w.nodes, n, i);
  }

  lemma ExaminedFinishesExactly(w: World, hint: Hint)
    requires Invariant(w) && w.phase.Examined? && FreshIdentity(w.nodes, hint.identity)
    ensures var r := Finish(w, hint);
            && (r.Proceeded? <==> !Alien(w.nodes, w.phase.launch.public))
            && (r.Proceeded? ==>
                  Invariant(r.world) && r.world.phase == Serving(w.phase.launch, hint.identity))
  {
    RecoverNeverFails(w);
    RecoverKeeps(w);
    var recovered := Advance(w, hint).world;
    ClearExactly(recovered);
    ClearKeeps(recovered);
    var cleared := Advance(recovered, hint);
    if cleared.Proceeded? {
      ClearedFinishes(cleared.world, hint);
    }
  }

  // A refused change of the configured name leaves every entry and the record as they were.
  lemma RefusedNameChangeAltersNothing(w: World, launch: Launch, hint: Hint)
    requires Invariant(w) && w.phase == Down && FreshLaunch(w, launch)
    requires Enumerates(hint.listing, WithLock(w.nodes)) && FreshIdentity(w.nodes, hint.identity)
    requires !NameSettled(w.nodes, w.record, launch.public) && !Reserved(launch.public)
    ensures var r := Bind(w, launch, hint);
            r.Refused? && r.world.nodes == WithLock(w.nodes) && r.world.record == w.record
  {
    var locked := Start(w, launch).world;
    ApplyKeeps(w, Launching(launch));
    ExamineExactly(locked, launch, hint);
    SettledUnderLock(w, launch.public);
    assert Silenced(locked.nodes) == locked.nodes;
  }

  /* ---------------- runs under one configured name ---------------- */

  // The record has to be resolved by a scan.
  predicate Scans(record: SocketState) {
    record.LegacyPrepared? || record.LegacyOwned?
  }

  function Unmade(nodes: Directory): Directory {
    map n | n in nodes && !Made(nodes, n) :: nodes[n]
  }

  function WithDraft(nodes: Directory): Directory {
    WithLock(nodes)[STATE_TEMPORARY_FILE := Other]
  }

  // Without the listener's sockets the directory has room for the lock and for the draft of
  // a record, which a crash may leave behind.
  predicate Roomy(nodes: Directory) {
    |WithDraft(Unmade(nodes))| <= MAXIMUM_DIRECTORY_ENTRIES
  }

  // Every earlier publication used this name and nobody else occupies it.
  ghost predicate OneName(w: World, public: Name) {
    && Invariant(w)
    && !Reserved(public)
    && !Alien(w.nodes, public)
    && (w.record.PublicName().Some? ==> w.record.PublicName().value == public)
    && (w.record.Legacy() ==> NameSettled(w.nodes, w.record, public))
    && (Scans(w.record) ==> Roomy(w.nodes))
    && (w.phase != Down ==> w.phase.launch.public == public)
  }

  // Launches use the one name; outside actors leave it alone and do not flood the directory
  // while a legacy record still has to be resolved by a scan.
  ghost predicate UnderName(w: World, e: Event, public: Name) {
    match e
    case Launching(launch) => launch.public == public
    case Outside(nodes) =>
      && !Alien(nodes, public)
      && (Scans(w.record) ==> |WithLock(nodes)| <= MAXIMUM_DIRECTORY_ENTRIES && Roomy(nodes))
    case _ => true
  }

  lemma NothingRefused(w: World, hint: Hint, public: Name)
    requires OneName(w, public) && Honest(w, hint)
    ensures Advance(w, hint).Proceeded?
  {
    match w.phase
    case Locked(launch) => ExamineExactly(w, launch, hint);
    case Examined(_, _) => RecoverNeverFails(w);
    case Recovered(_, _) => ClearExactly(w);
    case _ =>
  }

  lemma SubsetCardinality(a: set<Name>, b: set<Name>)
    requires a <= b
    ensures |a| <= |b|
  {
    assert b == a + (b - a);
  }

  // Losing listener-made nodes keeps a legacy record resolvable.
  lemma FewerNodesStaySettled(before: Directory, after: Directory, record: SocketState, public: Name)
    requires record.Legacy() && NameSettled(before, record, public)
    requires after.Keys <= before.Keys
    requires forall n, i :: Matches(after, n, i) ==> Matches(before, n, i)
    ensures NameSettled(after, record, public)
  {
    SubsetCardinality(WithLock(after).Keys, WithLock(before).Keys);
  }

  lemma StaysRoomy(before: Directory, after: Directory)
    requires Roomy(before)
    requires forall n | n in after && !Made(after, n) :: n in {LOCK_FILE, STATE_TEMPORARY_FILE} || (n in before && !Made(before, n))
    ensures Roomy(after)
  {
    SubsetCardinality(WithDraft(Unmade(after)).Keys, WithDraft(Unmade(before)).Keys);
  }

  // Nodes are only lost, and none of the listener's becomes somebody else's.
  ghost predicate OnlyLoses(before: Directory, after: Directory) {
    && after.Keys <= before.Keys
    && (forall n, i :: Matches(after, n, i) ==> Matches(before, n, i))
    && (forall n | n in after :: Made(after, n) <==> Made(before, n))
  }

  lemma LosingKeepsLegacy(before: Directory, after: Directory, record: SocketState, public: Name)
    requires OnlyLoses(before, after)
    requires record.Legacy() ==> NameSettled(before, record, public)
    requires Scans(record) ==> Roomy(before)
    ensures record.Legacy() ==> NameSettled(after, record, public)
    ensures Scans(record) ==> Roomy(after)
  {
    if record.Legacy() {
      FewerNodesStaySettled(before, after, record, public);
    }
    if Scans(record) {
      StaysRoomy(before, after);
    }
  }

  lemma AbandonedKeepsName(w: World, public: Name)
    requires OneName(w, public)
    ensures OneName(Abandoned(w), public) && OneName(Killed(w), public)
  {
    AbandonedKeeps(w);
    KilledKeeps(w);
    AbandonedLoses(w);
    LosingKeepsLegacy(w.nodes, Abandoned(w).nodes, w.record, public);
    LosingKeepsLegacy(w.nodes, Killed(w).nodes, w.record, public);
  }

  lemma RemovalLoses(nodes: Directory, name: Name, identity: Identity)
    ensures OnlyLoses(nodes, Silenced(RemoveIfOwned(nodes, name, identity))) && OnlyLoses(nodes, Silenced(nodes))
  {
  }

  lemma AbandonedLoses(w: World)
    ensures OnlyLoses(w.nodes, Abandoned(w).nodes) && OnlyLoses(w.nodes, Killed(w).nodes)
    ensures Abandoned(w).record == w.record && Killed(w).record == w.record
  {
    if w.phase != Down {
      RemovalLoses(w.nodes, w.phase.launch.temporary, Identity(0, 0));
      if Remaining(w.phase) <= 6 {
        RemovalLoses(w.nodes, w.phase.launch.temporary, w.phase.identity);
        RemovalLoses(w.nodes, w.phase.launch.public, w.phase.identity);
      }
    } else {
      RemovalLoses(w.nodes, "", Identity(0, 0));
    }
  }

  lemma EarlyStepKeepsName(w: World, hint: Hint, public: Name)
    requires OneName(w, public) && Honest(w, hint)
    requires w.phase.Locked? || w.phase.Examined? || w.phase.Recovered?
    ensures OneName(Advance(w, hint).world, public)
  {
    AdvanceKeeps(w, hint);
    NothingRefused(w, hint, public);
    var after := Advance(w, hint).world;
    assert after.nodes.Keys <= w.nodes.Keys;
    assert OnlyLoses(w.nodes, after.nodes);
    LosingKeepsLegacy(w.nodes, after.nodes, w.record, public);
  }

  // The draft of the first record takes the room that was kept for it.
  lemma DraftKeepsName(w: World, hint: Hint, public: Name)
    requires OneName(w, public) && w.phase.Cleared?
    ensures OneName(Advance(w, hint).world, public)
  {
    AdvanceKeeps(w, hint);
    var after := Advance(w, hint).world.nodes;
    if Scans(w.record) {
      assert Unmade(w.nodes) == w.nodes;
      assert WithLock(after).Keys == WithDraft(w.nodes).Keys;
      SubsetCardinality(WithLock(after).Keys, WithDraft(w.nodes).Keys);
      StaysRoomy(w.nodes, after);
      assert forall n, i :: Matches(after, n, i) ==> Matches(w.nodes, n, i);
    }
  }

  lemma LateStepKeepsName(w: World, hint: Hint, public: Name)
    requires OneName(w, public) && Honest(w, hint) && Remaining(w.phase) <= 9
    ensures OneName(Advance(w, hint).world, public)
  {
    AdvanceKeeps(w, hint);
    NothingRefused(w, hint, public);
  }

  lemma AdvanceKeepsName(w: World, hint: Hint, public: Name)
    requires OneName(w, public) && Honest(w, hint)
    ensures OneName(Advance(w, hint).world, public)
  {
    if w.phase.Cleared? {
      DraftKeepsName(w, hint, public);
    } else if Remaining(w.phase) <= 9 {
      LateStepKeepsName(w, hint, public);
    } else {
      EarlyStepKeepsName(w, hint, public);
    }
  }

  lemma LaunchKeepsName(w: World, launch: Launch)
    requires OneName(w, launch.public) && FreshLaunch(w, launch)
    ensures OneName(Start(w, launch).world, launch.public)
  {
    ApplyKeeps(w, Launching(launch));
    SettledUnderLock(w, launch.public);
    if Scans(w.record) {
      StaysRoomy(w.nodes, WithLock(w.nodes));
    }
  }

  lemma OutsideKeepsName(w: World, nodes: Directory, public: Name)
    requires OneName(w, public) && Enabled(w, Outside(nodes)) && UnderName(w, Outside(nodes), public)
    ensures OneName(w.(nodes := nodes), public)
  {
    ApplyKeeps(w, Outside(nodes));
    var identity := RecordedIdentity(w.record);
    if w.record.Legacy() && identity.Some? {
      forall n | Matches(nodes, n, identity.value) ensures Matches(w.nodes, n, identity.value) {
        assert Made(nodes, n);
      }
    }
  }

  lemma ApplyKeepsName(w: World, e: Event, public: Name)
    requires OneName(w, public) && Enabled(w, e) && UnderName(w, e, public)
    ensures OneName(Apply(w, e), public)
  {
    match e
    case Launching(launch) => LaunchKeepsName(w, launch);
    case Advancing(hint) => AdvanceKeepsName(w, hint, public);
    case Outside(nodes) => OutsideKeepsName(w, nodes, public);
    case _ => AbandonedKeepsName(w, public);
  }

  ghost predicate AllUnderName(w: World, es: seq<Event>, public: Name)
    decreases |es|
  {
    es == [] || (UnderName(w, es[0], public) && AllUnderName(Apply(w, es[0]), es[1..], public))
  }

  lemma {:induction false} OneNameInEveryRun(w: World, es: seq<Event>, public: Name)
    requires OneName(w, public) && Legal(w, es) && AllUnderName(w, es, public)
    ensures OneName(Execute(w, es), public)
    decreases |es|
  {
    if es == [] {
    } else {
      ApplyKeepsName(w, es[0], public);
      OneNameInEveryRun(Apply(w, es[0]), es[1..], public);
    }
  }

  // Crash recovery: after any binds, clean stops, failures and crashes at any step under one
  // name, no step of the running bind is refused, and the next bind serves again.
  lemma RecoveryUnderOneName(w: World, es: seq<Event>, public: Name, launch: Launch, hint: Hint)
    requires Initial(w) && OneName(w, public) && Legal(w, es) && AllUnderName(w, es, public)
    requires launch.public == public
    ensures var v := Execute(w, es);
            && (Honest(v, hint) ==> Advance(v, hint).Proceeded?)
            && (v.phase == Down && FreshLaunch(v, launch) && Enumerates(hint.listing, WithLock(v.nodes))
                && FreshIdentity(v.nodes, hint.identity) ==>
                  var r := Bind(v, launch, hint);
                  r.Proceeded? && r.world.phase == Serving(launch, hint.identity)
                  && r.world.record == Owned(public, hint.identity))
  {
    OneNameInEveryRun(w, es, public);
    var v := Execute(w, es);
    if Honest(v, hint) {
      NothingRefused(v, hint, public);
    }
    if v.phase == Down && FreshLaunch(v, launch) && Enumerates(hint.listing, WithLock(v.nodes))
      && FreshIdentity(v.nodes, hint.identity) {
      BindSucceedsExactlyWhen(v, launch, hint);
    }
  }

  /* ---------------- the room for a draft is needed ---------------- */

  lemma {:induction false} LocateOverLimit(
    nodes: Directory, listing: seq<Name>, identity: Identity, index: nat
  )
    requires index <= MAXIMUM_DIRECTORY_ENTRIES < |listing|
    requires forall n :: !Matches(nodes, n, identity)
    ensures LocateFrom(nodes, listing, identity, index, None) == Failure(SocketDirectoryLimitExceeded)
    decreases MAXIMUM_DIRECTORY_ENTRIES - index
  {
    if index >= MAXIMUM_DIRECTORY_ENTRIES {
    } else {
      LocateOverLimit(nodes, listing, identity, index + 1);
    }
  }

  // What the steps up to the cleared name remove is the listener's own.
  lemma ClearingLeavesUnmade(w: World, hint: Hint)
    requires Invariant(w) && (w.phase.Examined? || w.phase.Recovered?) && Advance(w, hint).Proceeded?
    ensures Unmade(Advance(w, hint).world.nodes) == Unmade(w.nodes)
    ensures Advance(w, hint).world.record == w.record
  {
    ClearingKeepsAliens(w, hint);
    var after := Advance(w, hint).world.nodes;
    forall n | n in w.nodes && !Made(w.nodes, n) ensures n in after && after[n] == w.nodes[n] {
      if Reserved(n) {
        ReservedStays(w, hint, n);
      }
    }
  }

  lemma ReservedStays(w: World, hint: Hint, n: Name)
    requires Invariant(w) && (w.phase.Examined? || w.phase.Recovered?) && Reserved(n) && n in w.nodes
    requires Advance(w, hint).Proceeded?
    ensures n in Advance(w, hint).world.nodes
  {
  }

  // A bind that reaches the cleared name has left exactly what is not the listener's.
  lemma ReachesCleared(w: World, hint: Hint)
    requires Invariant(w) && w.phase.Examined? && !Alien(w.nodes, w.phase.launch.public)
    ensures var recovered := Advance(w, hint).world;
            var cleared := Advance(recovered, hint).world;
            && Invariant(cleared) && cleared.phase == Cleared(w.phase.launch)
            && cleared.nodes == Unmade(w.nodes) && cleared.record == w.record
            && recovered.phase.Recovered?
  {
    RecoverNeverFails(w);
    RecoverKeeps(w);
    ClearingLeavesUnmade(w, hint);
    var recovered := Advance(w, hint).world;
    RecoveredReachesCleared(recovered, hint);
  }

  lemma RecoveredReachesCleared(w: World, hint: Hint)
    requires Invariant(w) && w.phase.Recovered? && !Alien(w.nodes, w.phase.launch.public)
    ensures var cleared := Advance(w, hint).world;
            && Invariant(cleared) && cleared.phase == Cleared(w.phase.launch)
            && cleared.nodes == Unmade(w.nodes) && cleared.record == w.record
  {
    ClearExactly(w);
    ClearKeeps(w);
    ClearingLeavesUnmade(w, hint);
    var cleared := Advance(w, hint).world;
    assert Unmade(cleared.nodes) == cleared.nodes;
  }

  lemma RunCons(w: World, e: Event, es: seq<Event>, public: Name)
    requires Enabled(w, e) && UnderName(w, e, public)
    requires Legal(Apply(w, e), es) && AllUnderName(Apply(w, e), es, public)
    ensures Legal(w, [e] + es) && AllUnderName(w, [e] + es, public)
    ensures Execute(w, [e] + es) == Execute(Apply(w, e), es)
  {
    assert ([e] + es)[1..] == es;
  }

  // The run that is killed between the draft of its first record and the rename.
  function StoppedAtDraft(launch: Launch, hint: Hint): seq<Event> {
    [Launching(launch)] + ([Advancing(hint)] + FromExamined(hint))
  }

  function FromExamined(hint: Hint): seq<Event> {
    [Advancing(hint)] + ([Advancing(hint)] + ([Advancing(hint)] + ([Crash] + [])))
  }

  lemma DraftLeftBehind(w: World, hint: Hint, public: Name)
    requires Invariant(w) && w.phase.Examined? && !Alien(w.nodes, w.phase.launch.public)
    ensures Legal(w, FromExamined(hint)) && AllUnderName(w, FromExamined(hint), public)
    ensures var v := Execute(w, FromExamined(hint));
            v.phase == Down && v.record == w.record && v.nodes == Silenced(Unmade(w.nodes)[STATE_TEMPORARY_FILE := Other])
  {
    ReachesCleared(w, hint);
    var recovered := Apply(w, Advancing(hint));
    var cleared := Apply(recovered, Advancing(hint));
    var drafted := Apply(cleared, Advancing(hint));
    RunCons(drafted, Crash, [], public);
    RunCons(cleared, Advancing(hint), [Crash] + [], public);
    RunCons(recovered, Advancing(hint), [Advancing(hint)] + ([Crash] + []), public);
    RunCons(w, Advancing(hint), [Advancing(hint)] + ([Advancing(hint)] + ([Crash] + [])), public);
  }

  // With a record that needs a scan and no room for a draft, one crash is enough: the run up
  // to the draft is legal, and after it no launch under the same name gets past the scan.
  lemma RoomIsNeeded(w: World, launch: Launch, hint: Hint, later: Launch, laterHint: Hint)
    requires Initial(w) && Scans(w.record) && FreshLaunch(w, launch)
    requires Unobstructed(w, launch.public) && !Roomy(w.nodes)
    requires Enumerates(hint.listing, WithLock(w.nodes))
    ensures var es := StoppedAtDraft(launch, hint);
            var v := Execute(w, es);
            && Legal(w, es) && AllUnderName(w, es, launch.public) && v.phase == Down
            && (later.public == launch.public && Enumerates(laterHint.listing, WithLock(v.nodes)) ==>
                  var r := Bind(v, later, laterHint);
                  r.Refused? && r.error == SocketDirectoryLimitExceeded)
  {
    var locked := Apply(w, Launching(launch));
    ApplyKeeps(w, Launching(launch));
    SettledUnderLock(w, launch.public);
    ExamineExactly(locked, launch, hint);
    AdvanceKeeps(locked, hint);
    var examined := Apply(locked, Advancing(hint));
    DraftLeftBehind(examined, hint, launch.public);
    RunCons(locked, Advancing(hint), FromExamined(hint), launch.public);
    RunCons(w, Launching(launch), [Advancing(hint)] + FromExamined(hint), launch.public);
    var v := Execute(w, StoppedAtDraft(launch, hint));
    if later.public == launch.public && Enumerates(laterHint.listing, WithLock(v.nodes)) {
      LeftOverfull(v, w.nodes);
      OverfullRefuses(v, later, laterHint);
    }
  }

  // What the crash left: as many entries as the room would have needed, and none of them
  // with the recorded identity.
  lemma LeftOverfull(v: World, before: Directory)
    requires Scans(v.record) && ReservedPlain(before) && Apart(before, v.record) && !Roomy(before)
    requires v.nodes == Silenced(Unmade(WithLock(before))[STATE_TEMPORARY_FILE := Other])
    ensures |WithLock(v.nodes)| > MAXIMUM_DIRECTORY_ENTRIES
    ensures forall n :: !Matches(WithLock(v.nodes), n, RecordedIdentity(v.record).value)
  {
    var nodes := WithLock(v.nodes);
    assert nodes.Keys == WithDraft(Unmade(before)).Keys;
    forall n ensures !Matches(nodes, n, RecordedIdentity(v.record).value) {
      if n in before && !Reserved(n) && !Made(before, n) {
        assert Alien(before, n);
      }
    }
  }

  lemma OverfullRefuses(v: World, launch: Launch, hint: Hint)
    requires v.phase == Down && Scans(v.record) && !Reserved(launch.public)
    requires |WithLock(v.nodes)| > MAXIMUM_DIRECTORY_ENTRIES
    requires forall n :: !Matches(WithLock(v.nodes), n, RecordedIdentity(v.record).value)
    requires Enumerates(hint.listing, WithLock(v.nodes))
    ensures var r := Bind(v, launch, hint);
            r.Refused? && r.error == SocketDirectoryLimitExceeded
  {
    var locked := World(WithLock(v.nodes), v.record, Locked(launch));
    ListingLength(hint.listing, locked.nodes.Keys);
    LocateOverLimit(locked.nodes, hint.listing, RecordedIdentity(v.record).value, 0);
    assert Start(v, launch) == Proceeded(locked);
    assert Advance(locked, hint) == Refused(Abandoned(locked), SocketDirectoryLimitExceeded);
  }

  /* ---------------- an instance ---------------- */

  // `k` files of somebody else.
  function Crowd(k: nat): Directory {
    if k == 0 then map[] else Crowd(k - 1)[seq(k, _ => 'a') := Other]
  }

  lemma {:induction false} CrowdSize(k: nat)
    ensures |Crowd(k)| == k
    ensures forall n <- Crowd(k) :: 1 <= |n| <= k && n[0] == 'a' && Crowd(k)[n] == Other
  {
    if k == 0 {
    } else {
      CrowdSize(k - 1);
      assert seq(k, _ => 'a') !in Crowd(k - 1);
    }
  }

  lemma ReservedNames()
    ensures LOCK_FILE[0] == '.' && STATE_TEMPORARY_FILE[0] == '.' && STATE_FILE[0] == '.'
    ensures LOCK_FILE != STATE_TEMPORARY_FILE
  {
    assert |LOCK_FILE| != |STATE_TEMPORARY_FILE|;
  }

  lemma CrowdCounts(k: nat)
    ensures Unmade(Crowd(k)) == Crowd(k)
    ensures |WithLock(Crowd(k))| == k + 1 && |WithDraft(Crowd(k))| == k + 2
  {
    CrowdSize(k);
    ReservedNames();
    assert LOCK_FILE !in Crowd(k);
    assert STATE_TEMPORARY_FILE !in WithLock(Crowd(k));
  }

  lemma OthersAreInitial(nodes: Directory, identity: Identity)
    requires forall n <- nodes :: nodes[n] == Other
    ensures Initial(World(nodes, LegacyOwned(identity), Down))
    ensures forall n, i :: !Matches(nodes, n, i)
  {
  }

  // 1023 files of others and a record of the older form: with the lock the directory is at
  // the limit, the next bind succeeds, and a bind that is killed at its draft leaves a
  // directory on which none does.
  lemma FullDirectoryInstance(k: nat, identity: Identity, launch: Launch)
    requires k == 1023 && GoodLaunch(launch)
    requires "q" <= launch.public && "." <= launch.temporary
    ensures var w := World(Crowd(k), LegacyOwned(identity), Down);
            && Initial(w) && Scans(w.record) && Unobstructed(w, launch.public) && !Roomy(w.nodes)
            && |WithLock(w.nodes)| == MAXIMUM_DIRECTORY_ENTRIES
            && FreshLaunch(w, launch)
  {
    CrowdSize(k);
    CrowdCounts(k);
    OthersAreInitial(Crowd(k), identity);
    assert launch.public[0] == launch.public[..1][0] == 'q';
    assert launch.temporary[0] == launch.temporary[..1][0] == '.';
  }
}
