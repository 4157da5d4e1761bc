/**
 The role validators that Worker, Queue Ingress and Gateway each run at their own start,
 and the access matrix that only their agreement gives.
 */
module RuntimeIdentity {
  import opened Wrappers

  datatype Process = Process(uid: nat, primaryGid: nat, groups: set<nat>)

  datatype Place = Queue | Repository | Content | Work | Releases | SearchIndexes | Runtime

  datatype Directory = Directory(place: Place, uid: nat, gid: nat, mode: nat)

  // Modes 2770, 2750, 0750 and 0660 in octal.
  const QUEUE_MODE: nat := 0x5F8
  const READER_MODE: nat := 0x5E8
  const WORKER_PRIVATE_MODE: nat := 0x1E8
  const RUNTIME_MODE: nat := 0x5E8
  const SOCKET_MODE: nat := 0x1B0

  datatype Error =
    | BoundaryModeMismatch(place: Place, expected: nat, actual: nat)
    | UnsafeBoundaryIdentity(place: Place)
    | InconsistentBoundaryOwner(reference: Place, observed: Place)
    | InconsistentBoundaryGroup(reference: Place, observed: Place)
    | CollapsedBoundary
    | UnsafeProcessUser(uid: nat)
    | RootProcess
    | ProcessUserMismatch(expected: nat, actual: nat)
    | PrimaryGroupMismatch(expected: nat, actual: nat)
    | GroupSetMismatch(expectedGroups: set<nat>, actualGroups: set<nat>)

  // Everything the three roles look at.
  datatype Boundaries = Boundaries(
    queue: Directory,
    repository: Directory,
    content: Directory,
    work: Directory,
    releases: Directory,
    searchIndexes: Option<Directory>,
    runtime: Directory
  )

  /* ---------------- the checks ---------------- */

  function RequireMode(d: Directory, expected: nat): Result<(), Error> {
    if d.mode == expected then Success(()) else Failure(BoundaryModeMismatch(d.place, expected, d.mode))
  }

  function RequireOptionalMode(d: Option<Directory>, expected: nat): Result<(), Error> {
    match d
    case None => Success(())
    case Some(directory) => RequireMode(directory, expected)
  }

  function RequireMatchingOwner(expected: Directory, observed: seq<Directory>): (r: Result<(), Error>)
    ensures r.Success? <==>
            expected.uid != 0 && forall i :: 0 <= i < |observed| ==> observed[i].uid == expected.uid
  {
    if expected.uid == 0 then Failure(UnsafeBoundaryIdentity(expected.place))
    else if observed == [] then Success(())
    else if observed[0].uid != expected.uid then
      Failure(InconsistentBoundaryOwner(expected.place, observed[0].place))
    else
      RequireMatchingOwner(expected, observed[1..])
  }

  function RequireMatchingGroup(expected: Directory, observed: seq<Directory>): (r: Result<(), Error>)
    ensures r.Success? <==>
            expected.gid != 0 && forall i :: 0 <= i < |observed| ==> observed[i].gid == expected.gid
  {
    if expected.gid == 0 then Failure(UnsafeBoundaryIdentity(expected.place))
    else if observed == [] then Success(())
    else if observed[0].gid != expected.gid then
      Failure(InconsistentBoundaryGroup(expected.place, observed[0].place))
    else
      RequireMatchingGroup(expected, observed[1..])
  }

  function RequireDistinct(first: nat, second: nat): Result<(), Error> {
    if first == 0 || second == 0 || first == second then Failure(CollapsedBoundary) else Success(())
  }

  predicate HasDuplicate(values: seq<nat>) {
    exists i :: 0 <= i < |values| && values[i] in values[..i]
  }

  function RequireDistinctGroups(groups: seq<nat>): Result<(), Error> {
    if 0 in groups || HasDuplicate(groups) then Failure(CollapsedBoundary) else Success(())
  }

  function RequireProcess(p: Process, uid: nat, primary: nat, groups: set<nat>): Result<(), Error> {
    if uid == 0 || primary == 0 || 0 in groups then Failure(CollapsedBoundary)
    else if p.uid == 0 then Failure(RootProcess)
    else if p.uid != uid then Failure(ProcessUserMismatch(uid, p.uid))
    else if p.primaryGid != primary then Failure(PrimaryGroupMismatch(primary, p.primaryGid))
    else if p.groups != groups then Failure(GroupSetMismatch(groups, p.groups))
    else Success(())
  }

  function Optional(d: Option<Directory>): seq<Directory> {
    if d.Some? then [d.value] else []
  }

  /* ---------------- the validators ---------------- */

  function ValidateWorker(p: Process, b: Boundaries): Result<(), Error> {
    var _ :- RequireMode(b.queue, QUEUE_MODE);
    var _ :- RequireMode(b.repository, READER_MODE);
    var _ :- RequireMode(b.content, READER_MODE);
    var _ :- RequireMode(b.work, WORKER_PRIVATE_MODE);
    var _ :- RequireMode(b.releases, WORKER_PRIVATE_MODE);
    var _ :- RequireOptionalMode(b.searchIndexes, READER_MODE);
    var _ :- RequireMatchingOwner(b.repository, [b.content, b.work, b.releases] + Optional(b.searchIndexes));
    var _ :- RequireMatchingGroup(b.repository, [b.content] + Optional(b.searchIndexes));
    var _ :- RequireMatchingGroup(b.work, [b.releases]);
    var _ :- RequireDistinct(b.work.uid, b.queue.uid);
    var _ :- RequireDistinctGroups([b.work.gid, b.queue.gid, b.repository.gid]);
    RequireProcess(p, b.work.uid, b.work.gid, {b.work.gid, b.queue.gid})
  }

  function ValidateQueueIngress(p: Process, b: Boundaries): Result<(), Error> {
    var _ :- RequireMode(b.queue, QUEUE_MODE);
    var _ :- RequireMode(b.runtime, RUNTIME_MODE);
    var _ :- RequireMatchingOwner(b.queue, [b.runtime]);
    var _ :- RequireDistinct(b.queue.gid, b.runtime.gid);
    RequireProcess(p, b.queue.uid, b.queue.gid, {b.queue.gid})
  }

  function ValidateGateway(p: Process, expectedUid: nat, b: Boundaries): Result<(), Error> {
    var _ :- RequireMode(b.repository, READER_MODE);
    var _ :- RequireMode(b.content, READER_MODE);
    var _ :- RequireOptionalMode(b.searchIndexes, READER_MODE);
    var _ :- RequireMode(b.runtime, RUNTIME_MODE);
    var _ :- RequireMatchingOwner(b.repository, [b.content] + Optional(b.searchIndexes));
    var _ :- RequireMatchingGroup(b.repository, [b.content] + Optional(b.searchIndexes));
    var _ :- RequireDistinct(b.repository.uid, b.runtime.uid);
    var _ :- RequireDistinct(b.repository.gid, b.runtime.gid);
    if p.uid == b.repository.uid || p.uid == b.runtime.uid then
      Failure(UnsafeProcessUser(p.uid))
    else
      RequireProcess(p, expectedUid, b.repository.gid, {b.repository.gid, b.runtime.gid})
  }

  /* ---------------- what each acceptance means ---------------- */

  // The directories that both Worker and Gateway use share owner and group.
  predicate ReaderDirectories(b: Boundaries) {
    && b.repository.mode == b.content.mode == READER_MODE
    && b.content.uid == b.repository.uid && b.content.gid == b.repository.gid
    && (b.searchIndexes.Some? ==>
          && b.searchIndexes.value.mode == READER_MODE
          && b.searchIndexes.value.uid == b.repository.uid && b.searchIndexes.value.gid == b.repository.gid)
  }

  predicate WorkerLayout(b: Boundaries) {
    && ReaderDirectories(b)
    && b.queue.mode == QUEUE_MODE && b.work.mode == b.releases.mode == WORKER_PRIVATE_MODE
    && b.work.uid == b.releases.uid == b.repository.uid && b.work.gid == b.releases.gid
    && b.repository.uid != 0 && b.queue.uid != 0 && b.work.uid != b.queue.uid
    && b.work.gid != 0 && b.queue.gid != 0 && b.repository.gid != 0
    && b.work.gid != b.queue.gid && b.work.gid != b.repository.gid && b.queue.gid != b.repository.gid
  }

  predicate IngressLayout(b: Boundaries) {
    && b.queue.mode == QUEUE_MODE && b.runtime.mode == RUNTIME_MODE
    && b.queue.uid == b.runtime.uid && b.queue.uid != 0
    && b.queue.gid != 0 && b.runtime.gid != 0 && b.queue.gid != b.runtime.gid
  }

  predicate GatewayLayout(b: Boundaries) {
    && ReaderDirectories(b) && b.runtime.mode == RUNTIME_MODE
    && b.repository.uid != 0 && b.runtime.uid != 0 && b.repository.uid != b.runtime.uid
    && b.repository.gid != 0 && b.runtime.gid != 0 && b.repository.gid != b.runtime.gid
  }

  lemma DistinctThree(a: nat, b: nat, c: nat)
    ensures RequireDistinctGroups([a, b, c]).Success? <==>
            a != 0 && b != 0 && c != 0 && a != b && a != c && b != c
  {
    var s := [a, b, c];
    assert s[0] == a && s[1] == b && s[2] == c;
    assert s[..0] == [] && s[..1] == [a] && s[..2] == [a, b];
    if a == b {
      assert s[1] in s[..1];
    } else if a == c || b == c {
      assert s[2] in s[..2];
    }
  }

  lemma WorkerExact(p: Process, b: Boundaries)
    ensures ValidateWorker(p, b).Success? <==>
            WorkerLayout(b) && p == Process(b.work.uid, b.work.gid, {b.work.gid, b.queue.gid})
  {
    DistinctThree(b.work.gid, b.queue.gid, b.repository.gid);
    var owned, readable := [b.content, b.work, b.releases] + Optional(b.searchIndexes), [b.content] + Optional(b.searchIndexes);
    assert owned[0] == b.content && owned[1] == b.work && owned[2] == b.releases && readable[0] == b.content;
    if b.searchIndexes.Some? {
      assert owned[3] == b.searchIndexes.value && readable[1] == b.searchIndexes.value;
    }
    assert [b.releases][0] == b.releases;
  }

  lemma IngressExact(p: Process, b: Boundaries)
    ensures ValidateQueueIngress(p, b).Success? <==>
            IngressLayout(b) && p == Process(b.queue.uid, b.queue.gid, {b.queue.gid})
  {
    assert [b.runtime][0] == b.runtime;
  }

  lemma GatewayExact(p: Process, expectedUid: nat, b: Boundaries)
    ensures ValidateGateway(p, expectedUid, b).Success? <==>
            && GatewayLayout(b)
            && p == Process(expectedUid, b.repository.gid, {b.repository.gid, b.runtime.gid})
            && p.uid !in {0, b.repository.uid, b.runtime.uid}
  {
    var readable := [b.content] + Optional(b.searchIndexes);
    assert readable[0] == b.content;
    if b.searchIndexes.Some? {
      assert readable[1] == b.searchIndexes.value;
    }
  }

  /* ---------------- POSIX access ---------------- */

  // The one permission class that applies: owner, else group, else others; root may all.
  function Rights(p: Process, uid: nat, gid: nat, mode: nat): nat {
    if p.uid == 0 then 7
    else if p.uid == uid then (mode / 64) % 8
    else if gid == p.primaryGid || gid in p.groups then (mode / 8) % 8
    else mode % 8
  }

  function On(p: Process, d: Directory): nat {
    Rights(p, d.uid, d.gid, d.mode)
  }

  const NOTHING: nat := 0
  const READ: nat := 5
  const WRITE: nat := 7

  // The socket as `require_socket_identity` accepts it.
  predicate SocketAccepted(uid: nat, gid: nat, mode: nat, runtime: Directory) {
    uid == runtime.uid && gid == runtime.gid && mode == SOCKET_MODE
  }

  // Connecting needs search permission on the directory and write permission on the socket.
  predicate CanConnect(p: Process, runtime: Directory, uid: nat, gid: nat, mode: nat) {
    On(p, runtime) % 2 == 1 && (Rights(p, uid, gid, mode) / 2) % 2 == 1
  }

  datatype Roles = Roles(worker: Process, ingress: Process, gateway: Process, gatewayUid: nat)

  predicate AllAccept(r: Roles, b: Boundaries) {
    && ValidateWorker(r.worker, b).Success?
    && ValidateQueueIngress(r.ingress, b).Success?
    && ValidateGateway(r.gateway, r.gatewayUid, b).Success?
  }

  predicate OnAll(p: Process, b: Boundaries, rights: nat) {
    && On(p, b.repository) == On(p, b.content) == rights
    && (b.searchIndexes.Some? ==> On(p, b.searchIndexes.value) == rights)
  }

  // The whole matrix. Work and releases are closed to the Gateway, and the runtime directory
  // to the Worker, exactly when the ingress-client group is not the Worker's own.
  lemma AccessMatrix(r: Roles, b: Boundaries)
    requires AllAccept(r, b)
    ensures OnAll(r.worker, b, WRITE) && On(r.worker, b.work) == On(r.worker, b.releases) == WRITE
    ensures On(r.worker, b.queue) == WRITE
    ensures OnAll(r.ingress, b, NOTHING) && On(r.ingress, b.work) == On(r.ingress, b.releases) == NOTHING
    ensures On(r.ingress, b.queue) == On(r.ingress, b.runtime) == WRITE
    ensures OnAll(r.gateway, b, READ) && On(r.gateway, b.queue) == NOTHING && On(r.gateway, b.runtime) == READ
    ensures var leak := if b.runtime.gid == b.work.gid then READ else NOTHING;
            On(r.gateway, b.work) == On(r.gateway, b.releases) == On(r.worker, b.runtime) == leak
    ensures r.worker.uid != r.ingress.uid && r.worker.uid != r.gateway.uid && r.ingress.uid != r.gateway.uid
  {
    WorkerExact(r.worker, b);
    IngressExact(r.ingress, b);
    GatewayExact(r.gateway, r.gatewayUid, b);
  }

  lemma SocketReachable(r: Roles, b: Boundaries, uid: nat, gid: nat, mode: nat)
    requires AllAccept(r, b) && SocketAccepted(uid, gid, mode, b.runtime)
    ensures CanConnect(r.gateway, b.runtime, uid, gid, mode)
    ensures CanConnect(r.worker, b.runtime, uid, gid, mode) <==> b.runtime.gid == b.work.gid
  {
    WorkerExact(r.worker, b);
    IngressExact(r.ingress, b);
    GatewayExact(r.gateway, r.gatewayUid, b);
  }

  /* ---------------- each validator is needed ---------------- */

  function Layout(queueGid: nat, runtimeGid: nat): Boundaries {
    Boundaries(
      Directory(Queue, 2, queueGid, QUEUE_MODE),
      Directory(Repository, 1, 13, READER_MODE),
      Directory(Content, 1, 13, READER_MODE),
      Directory(Work, 1, 11, WORKER_PRIVATE_MODE),
      Directory(Releases, 1, 11, WORKER_PRIVATE_MODE),
      None,
      Directory(Runtime, 2, runtimeGid, RUNTIME_MODE))
  }

  // Without the Worker's check the queue may have the Gateway's reader group.
  lemma WorkerCheckNeeded()
    ensures var b := Layout(13, 14);
            var gateway := Process(3, 13, {13, 14});
            && ValidateQueueIngress(Process(2, 13, {13}), b).Success?
            && ValidateGateway(gateway, 3, b).Success?
            && On(gateway, b.queue) == WRITE && On(Process(2, 13, {13}), b.repository) == READ
  {
    IngressExact(Process(2, 13, {13}), Layout(13, 14));
    GatewayExact(Process(3, 13, {13, 14}), 3, Layout(13, 14));
  }

  // Without Queue Ingress's check the queue may have the ingress-client group.
  lemma IngressCheckNeeded()
    ensures var b := Layout(14, 14);
            var gateway := Process(3, 13, {13, 14});
            && ValidateWorker(Process(1, 11, {11, 14}), b).Success?
            && ValidateGateway(gateway, 3, b).Success?
            && On(gateway, b.queue) == WRITE
  {
    WorkerExact(Process(1, 11, {11, 14}), Layout(14, 14));
    GatewayExact(Process(3, 13, {13, 14}), 3, Layout(14, 14));
  }

  // Without the Gateway's check the runtime directory may have the reader group, and then a
  // process in the reader group alone reaches the socket.
  lemma GatewayCheckNeeded()
    ensures var b := Layout(12, 13);
            && ValidateWorker(Process(1, 11, {11, 12}), b).Success?
            && ValidateQueueIngress(Process(2, 12, {12}), b).Success?
            && CanConnect(Process(4, 13, {13}), b.runtime, 2, 13, SOCKET_MODE)
  {
    WorkerExact(Process(1, 11, {11, 12}), Layout(12, 13));
    IngressExact(Process(2, 12, {12}), Layout(12, 13));
  }

  // All three accept, and still the Gateway reads the Worker's private directories.
  lemma IngressGroupMayBeTheWorkers()
    ensures var b := Layout(12, 11);
            var r := Roles(Process(1, 11, {11, 12}), Process(2, 12, {12}), Process(3, 13, {13, 11}), 3);
            AllAccept(r, b) && On(r.gateway, b.work) == READ
  {
    WorkerExact(Process(1, 11, {11, 12}), Layout(12, 11));
    IngressExact(Process(2, 12, {12}), Layout(12, 11));
    GatewayExact(Process(3, 13, {13, 11}), 3, Layout(12, 11));
  }
}
