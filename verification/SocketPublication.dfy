/**
 The crash-recoverable socket publication of Queue Ingress as a step machine.

 A listener process takes an exclusive lock and then performs one durable effect at a
 time. Between any two effects it may be killed (`Crash`) or fail and run its drop
 handlers (`Fail`); while no listener holds the lock, outside actors may change the
 directory (`Outside`).

 `Node.maker` is ground truth for stating properties: no step of the listener reads it.
 */
module SocketPublication {
  import opened Wrappers
  import opened SocketStates

  const LOCK_FILE := ".agent-knowledge-queue-ingress.lock"
  const STATE_FILE := ".agent-knowledge-queue-ingress.socket-state"
  const STATE_TEMPORARY_FILE := ".agent-knowledge-queue-ingress.socket-state.tmp"
  const MAXIMUM_DIRECTORY_ENTRIES := 1024

  predicate Reserved(name: Name) {
    name == LOCK_FILE || name == STATE_FILE || name == STATE_TEMPORARY_FILE
  }

  datatype Maker = Listener | Foreign

  datatype Node = Socket(identity: Identity, live: bool, maker: Maker) | Other

  type Directory = map<Name, Node>

  datatype Error =
    | ReservedSocketName
    | AlreadyRunning
    | SocketDirectoryLimitExceeded
    | AmbiguousLegacySocketState
    | SocketConfigurationChanged
    | InvalidSocketTarget
    | SocketIdentityChanged
    | UnownedStaleSocket
    | BindFailed
    | SocketPublicationFailed
    | SocketInspectionFailed

  // The configured public name and the temporary name generated for one launch.
  datatype Launch = Launch(public: Name, temporary: Name)

  // How far a listener process has come; `Down` means that nobody holds the lock.
  datatype Phase =
    | Down
    | Locked(launch: Launch)
    | Examined(launch: Launch, previous: SocketState)
    | Recovered(launch: Launch, previous: SocketState)
    | Cleared(launch: Launch)
    | Announcing(launch: Launch)
    | Announced(launch: Launch)
    | Bound(launch: Launch)
    | Held(launch: Launch, identity: Identity)
    | Recording(launch: Launch, identity: Identity)
    | Recorded(launch: Launch, identity: Identity)
    | Published(launch: Launch, identity: Identity)
    | Adopted(launch: Launch, identity: Identity)
    | Claiming(launch: Launch, identity: Identity)
    | Serving(launch: Launch, identity: Identity)

  datatype World = World(nodes: Directory, record: SocketState, phase: Phase)

  datatype Outcome = Proceeded(world: World) | Refused(world: World, error: Error)

  // What the kernel supplies to a step: a directory listing and a new socket identity.
  datatype Hint = Hint(listing: seq<Name>, identity: Identity)

  /* ---------------- the functions of the source ---------------- */

  predicate Matches(nodes: Directory, name: Name, identity: Identity) {
    name in nodes && nodes[name].Socket? && nodes[name].identity == identity
  }

  // The scan of `locate_recorded_socket` from `index` on.
  function LocateFrom(
    nodes: Directory, listing: seq<Name>, identity: Identity, index: nat, located: Option<Name>
  ): Result<Option<Name>, Error>
    requires index <= |listing|
    decreases |listing| - index
  {
    if index == |listing| then
      Success(located)
    else if index >= MAXIMUM_DIRECTORY_ENTRIES then
      Failure(SocketDirectoryLimitExceeded)
    else if !Matches(nodes, listing[index], identity) then
      LocateFrom(nodes, listing, identity, index + 1, located)
    else if located.Some? then
      Failure(AmbiguousLegacySocketState)
    else
      LocateFrom(nodes, listing, identity, index + 1, Some(listing[index]))
  }

  function ResolveLegacy(
    nodes: Directory, listing: seq<Name>, configured: Name, state: SocketState
  ): Result<SocketState, Error> {
    match state
    case LegacyPreparing(temporary) =>
      Success(Preparing(configured, temporary))
    case LegacyPrepared(temporary, identity) =>
      var located :- LocateFrom(nodes, listing, identity, 0, None);
      var public := if located.Some? && located.value != temporary then located.value else configured;
      Success(Prepared(public, temporary, identity))
    case LegacyOwned(identity) =>
      var located :- LocateFrom(nodes, listing, identity, 0, None);
      Success(Owned(if located.Some? then located.value else configured, identity))
    case _ => Success(state)
  }

  predicate ConfigurationAccepted(nodes: Directory, configured: Name, state: SocketState) {
    var recorded := state.PublicName();
    var temporary := state.TemporaryName();
    || recorded.None?
    || recorded.value == configured
    || (recorded.value !in nodes && (temporary.None? || temporary.value.0 !in nodes))
  }

  function RecoverTemporary(nodes: Directory, state: SocketState): Result<Directory, Error> {
    match state.TemporaryName()
    case None => Success(nodes)
    case Some((temporary, expected)) =>
      if temporary !in nodes then
        Success(nodes)
      else if !nodes[temporary].Socket? then
        Failure(InvalidSocketTarget)
      else if expected.Some? && expected.value != nodes[temporary].identity then
        Failure(SocketIdentityChanged)
      else if nodes[temporary].live then
        Failure(AlreadyRunning)
      else
        Success(nodes - {temporary})
  }

  function ClearPublic(nodes: Directory, previous: SocketState, public: Name): Result<Directory, Error> {
    if public !in nodes then
      Success(nodes)
    else if !nodes[public].Socket? then
      Failure(InvalidSocketTarget)
    else if nodes[public].live then
      Failure(AlreadyRunning)
    else if !previous.OwnsPublic(public, nodes[public].identity) then
      Failure(UnownedStaleSocket)
    else
      Success(nodes - {public})
  }

  // `OwnedSocketNode::drop`.
  function RemoveIfOwned(nodes: Directory, name: Name, identity: Identity): Directory {
    if Matches(nodes, name, identity) then nodes - {name} else nodes
  }

  // The sockets of a process that is gone refuse connections.
  function Silenced(nodes: Directory): Directory {
    map n | n in nodes ::
      if nodes[n].Socket? && nodes[n].maker == Listener then nodes[n].(live := false) else nodes[n]
  }

  function Killed(w: World): World {
    World(Silenced(w.nodes), w.record, Down)
  }

  // An early return: the drop handlers in scope run, then the process is gone.
  function Abandoned(w: World): World {
    var nodes :=
      match w.phase
      case Held(launch, identity) => RemoveIfOwned(w.nodes, launch.temporary, identity)
      case Recording(launch, identity) => RemoveIfOwned(w.nodes, launch.temporary, identity)
      case Recorded(launch, identity) => RemoveIfOwned(w.nodes, launch.temporary, identity)
      case Published(launch, identity) => RemoveIfOwned(w.nodes, launch.temporary, identity)
      case Adopted(launch, identity) => RemoveIfOwned(w.nodes, launch.public, identity)
      case Claiming(launch, identity) => RemoveIfOwned(w.nodes, launch.public, identity)
      case Serving(launch, identity) => RemoveIfOwned(w.nodes, launch.public, identity)
      case _ => w.nodes;
    Killed(World(nodes, w.record, w.phase))
  }

  // The first half of `write_socket_state`: the new record is in the temporary file only.
  function WithRecordDraft(w: World, phase: Phase): World {
    World(w.nodes[STATE_TEMPORARY_FILE := Other], w.record, phase)
  }

  // The second half: the record changes by one rename onto the state file.
  function WithRecord(w: World, record: SocketState, phase: Phase): World {
    World((w.nodes - {STATE_TEMPORARY_FILE})[STATE_FILE := Other], record, phase)
  }

  function Start(w: World, launch: Launch): Outcome {
    if Reserved(launch.public) then
      Refused(w, ReservedSocketName)
    else if w.phase != Down then
      Refused(w, AlreadyRunning)
    else
      Proceeded(World(w.nodes[LOCK_FILE := Other], w.record, Locked(launch)))
  }

  // The next step of `PublishedSocket::bind`.
  function Advance(w: World, hint: Hint): Outcome {
    match w.phase
    case Down => Proceeded(w)
    case Locked(launch) => (
      match ResolveLegacy(w.nodes, hint.listing, launch.public, w.record)
      case Failure(error) => Refused(Abandoned(w), error)
      case Success(previous) =>
        if ConfigurationAccepted(w.nodes, launch.public, previous) then
          Proceeded(w.(phase := Examined(launch, previous)))
        else
          Refused(Abandoned(w), SocketConfigurationChanged)
    )
    case Examined(launch, previous) => (
      match RecoverTemporary(w.nodes, previous)
      case Failure(error) => Refused(Abandoned(w), error)
      case Success(nodes) => Proceeded(World(nodes, w.record, Recovered(launch, previous)))
    )
    case Recovered(launch, previous) => (
      match ClearPublic(w.nodes, previous, launch.public)
      case Failure(error) => Refused(Abandoned(w), error)
      case Success(nodes) => Proceeded(World(nodes, w.record, Cleared(launch)))
    )
    case Cleared(launch) => Proceeded(WithRecordDraft(w, Announcing(launch)))
    case Announcing(launch) =>
      Proceeded(WithRecord(w, Preparing(launch.public, launch.temporary), Announced(launch)))
    case Announced(launch) =>
      if launch.temporary in w.nodes then
        Refused(Abandoned(w), BindFailed)
      else
        var socket := Socket(hint.identity, true, Listener);
        Proceeded(World(w.nodes[launch.temporary := socket], w.record, Bound(launch)))
    case Bound(launch) =>
      if launch.temporary !in w.nodes then
        Refused(Abandoned(w), SocketInspectionFailed)
      else if !w.nodes[launch.temporary].Socket? then
        Refused(Abandoned(w), InvalidSocketTarget)
      else
        Proceeded(w.(phase := Held(launch, w.nodes[launch.temporary].identity)))
    case Held(launch, identity) => Proceeded(WithRecordDraft(w, Recording(launch, identity)))
    case Recording(launch, identity) =>
      Proceeded(WithRecord(w, Prepared(launch.public, launch.temporary, identity), Recorded(launch, identity)))
    case Recorded(launch, identity) =>
      if launch.temporary !in w.nodes || launch.public in w.nodes then
        Refused(Abandoned(w), SocketPublicationFailed)
      else
        var nodes := (w.nodes - {launch.temporary})[launch.public := w.nodes[launch.temporary]];
        Proceeded(World(nodes, w.record, Published(launch, identity)))
    case Published(launch, identity) =>
      var nodes := RemoveIfOwned(w.nodes, launch.temporary, identity);
      if launch.public !in nodes then
        Refused(Killed(World(nodes, w.record, w.phase)), SocketInspectionFailed)
      else if !nodes[launch.public].Socket? then
        Refused(Killed(World(nodes, w.record, w.phase)), InvalidSocketTarget)
      else
        Proceeded(World(nodes, w.record, Adopted(launch, nodes[launch.public].identity)))
    case Adopted(launch, identity) => Proceeded(WithRecordDraft(w, Claiming(launch, identity)))
    case Claiming(launch, identity) =>
      Proceeded(WithRecord(w, Owned(launch.public, identity), Serving(launch, identity)))
    case Serving(_, _) => Proceeded(w)
  }

  // How many further steps a bind takes when none is refused.
  function Remaining(phase: Phase): nat {
    match phase
    case Down => 0
    case Locked(_) => 13
    case Examined(_, _) => 12
    case Recovered(_, _) => 11
    case Cleared(_) => 10
    case Announcing(_) => 9
    case Announced(_) => 8
    case Bound(_) => 7
    case Held(_, _) => 6
    case Recording(_, _) => 5
    case Recorded(_, _) => 4
    case Published(_, _) => 3
    case Adopted(_, _) => 2
    case Claiming(_, _) => 1
    case Serving(_, _) => 0
  }

  // The rest of a bind that nothing interrupts.
  function Finish(w: World, hint: Hint): (r: Outcome)
    decreases Remaining(w.phase)
  {
    if Remaining(w.phase) == 0 then
      Proceeded(w)
    else
      var r := Advance(w, hint);
      if r.Refused? then r else Finish(r.world, hint)
  }

  // One whole call of `PublishedSocket::bind`.
  function Bind(w: World, launch: Launch, hint: Hint): Outcome {
    var r := Start(w, launch);
    if r.Refused? then r else Finish(r.world, hint)
  }

  /* ---------------- runs ---------------- */

  datatype Event =
    | Launching(launch: Launch)
    | Advancing(hint: Hint)
    | Crash
    | Fail
    | Stop
    | Outside(nodes: Directory)

  predicate Enumerates(listing: seq<Name>, nodes: Directory) {
    && (forall n <- listing :: n in nodes)
    && (forall n <- nodes :: n in listing)
    && (forall i, j :: 0 <= i < j < |listing| ==> listing[i] != listing[j])
  }

  // A generated temporary name is new and is no configured or reserved name.
  predicate FreshLaunch(w: World, launch: Launch) {
    && launch.temporary !in w.nodes
    && launch.temporary != launch.public
    && !Reserved(launch.temporary)
  }

  predicate FreshIdentity(nodes: Directory, identity: Identity) {
    forall n <- nodes :: !Matches(nodes, n, identity)
  }

  // A scan sees the directory exactly, and a socket is created with an unused identity.
  predicate Honest(w: World, hint: Hint) {
    && (w.phase.Locked? ==> Enumerates(hint.listing, w.nodes))
    && (w.phase.Announced? ==> FreshIdentity(w.nodes, hint.identity))
  }

  predicate Made(nodes: Directory, name: Name) {
    name in nodes && nodes[name].Socket? && nodes[name].maker == Listener
  }

  // A node of somebody else; the listener's own lock and state files do not count.
  predicate Alien(nodes: Directory, name: Name) {
    name in nodes && !Made(nodes, name) && !Reserved(name)
  }

  function RecordedIdentity(state: SocketState): Option<Identity> {
    match state
    case LegacyPrepared(_, identity) => Some(identity)
    case LegacyOwned(identity) => Some(identity)
    case Prepared(_, _, identity) => Some(identity)
    case Owned(_, identity) => Some(identity)
    case _ => None
  }

  function RecordedTemporary(state: SocketState): Option<Name> {
    match state
    case LegacyPreparing(temporary) => Some(temporary)
    case LegacyPrepared(temporary, _) => Some(temporary)
    case Preparing(_, temporary) => Some(temporary)
    case Prepared(_, temporary, _) => Some(temporary)
    case _ => None
  }

  // Nobody else's node sits at the recorded temporary name or carries the recorded identity.
  // No recorded name is reserved: a public one was configured, a temporary one generated.
  ghost predicate Apart(nodes: Directory, state: SocketState) {
    && (RecordedTemporary(state).Some? ==> !Reserved(RecordedTemporary(state).value))
    && (state.PublicName().Some? ==> !Reserved(state.PublicName().value))
    && (forall n | Alien(nodes, n) ::
          && RecordedTemporary(state) != Some(n)
          && (nodes[n].Socket? ==> RecordedIdentity(state) != Some(nodes[n].identity)))
  }

  ghost predicate ReservedPlain(nodes: Directory) {
    forall n <- nodes | Reserved(n) :: nodes[n].Other?
  }

  // What outside actors may do: anything to their own nodes, and remove the listener's;
  // they neither forge nor move listener sockets and never reuse a recorded identity.
  ghost predicate OutsideAllowed(w: World, nodes: Directory) {
    && (forall n | Made(nodes, n) :: n in w.nodes && w.nodes[n] == nodes[n])
    && Apart(nodes, w.record)
    && ReservedPlain(nodes)
  }

  ghost predicate Enabled(w: World, e: Event) {
    match e
    case Launching(launch) => FreshLaunch(w, launch)
    case Advancing(hint) => Honest(w, hint)
    case Crash => true
    case Fail => true
    case Stop => w.phase.Serving?
    case Outside(nodes) => w.phase == Down && OutsideAllowed(w, nodes)
  }

  function Apply(w: World, e: Event): World {
    match e
    case Launching(launch) => Start(w, launch).world
    case Advancing(hint) => Advance(w, hint).world
    case Crash => Killed(w)
    case Fail => Abandoned(w)
    case Stop => Abandoned(w)
    case Outside(nodes) => w.(nodes := nodes)
  }

  ghost predicate Legal(w: World, es: seq<Event>)
    decreases |es|
  {
    es == [] || (Enabled(w, es[0]) && Legal(Apply(w, es[0]), es[1..]))
  }

  function Execute(w: World, es: seq<Event>): World
    decreases |es|
  {
    if es == [] then w else Execute(Apply(w, es[0]), es[1..])
  }
}
