/**
 The identity checks of storage bootstrap, and why storage they accepted is storage on
 which the three role validators accept.
 */
module ServiceIdentities {
  import opened Wrappers
  import opened RuntimeIdentity

  datatype Identities = Identities(
    administrativeOwner: nat,
    administrativeGroup: nat,
    workerOwner: nat,
    workerGroup: nat,
    queueOwner: nat,
    queueGroup: nat,
    gatewayOwner: nat,
    gatewayGroup: nat,
    ingressGroup: nat
  )

  datatype Memberships = Memberships(
    workerPrimary: nat,
    workerGroups: seq<nat>,
    queuePrimary: nat,
    queueGroups: seq<nat>,
    gatewayPrimary: nat,
    gatewayGroups: seq<nat>
  )

  datatype Error = UnsafeServiceIdentities | UnsafeServiceMemberships

  function ValidateServiceIdentities(ids: Identities): Result<(), Error> {
    var uids := [ids.workerOwner, ids.queueOwner, ids.gatewayOwner];
    var groups := [ids.workerGroup, ids.queueGroup, ids.gatewayGroup, ids.ingressGroup];
    if 0 in uids || HasDuplicate(uids) || 0 in groups || HasDuplicate(groups) then
      Failure(UnsafeServiceIdentities)
    else
      Success(())
  }

  predicate HasExactGroups(actual: seq<nat>, expected: seq<nat>) {
    && (forall i :: 0 <= i < |expected| ==> expected[i] in actual)
    && (forall i :: 0 <= i < |actual| ==> actual[i] in expected)
  }

  function ValidateServiceMemberships(ids: Identities, m: Memberships): Result<(), Error> {
    if && m.workerPrimary == ids.workerGroup
       && m.queuePrimary == ids.queueGroup
       && m.gatewayPrimary == ids.gatewayGroup
       && HasExactGroups(m.workerGroups, [ids.workerGroup, ids.queueGroup])
       && HasExactGroups(m.queueGroups, [ids.queueGroup])
       && HasExactGroups(m.gatewayGroups, [ids.gatewayGroup, ids.ingressGroup])
    then Success(())
    else Failure(UnsafeServiceMemberships)
  }

  // What `validate_durable_permissions` and `validate_runtime_initialized` require of the
  // directories themselves.
  predicate PermissionsAccepted(ids: Identities, b: Boundaries) {
    && RequiredOf(b.queue, ids.queueOwner, ids.queueGroup, QUEUE_MODE)
    && RequiredOf(b.repository, ids.workerOwner, ids.gatewayGroup, READER_MODE)
    && RequiredOf(b.content, ids.workerOwner, ids.gatewayGroup, READER_MODE)
    && RequiredOf(b.work, ids.workerOwner, ids.workerGroup, RuntimeIdentity.WORKER_PRIVATE_MODE)
    && RequiredOf(b.releases, ids.workerOwner, ids.workerGroup, RuntimeIdentity.WORKER_PRIVATE_MODE)
    && (b.searchIndexes.Some? ==> RequiredOf(b.searchIndexes.value, ids.workerOwner, ids.gatewayGroup, READER_MODE))
    && RequiredOf(b.runtime, ids.queueOwner, ids.ingressGroup, RUNTIME_MODE)
  }

  predicate RequiredOf(d: Directory, uid: nat, gid: nat, mode: nat) {
    d.uid == uid && d.gid == gid && d.mode == mode
  }

  function SetOf(groups: seq<nat>): set<nat> {
    set i | 0 <= i < |groups| :: groups[i]
  }

  // A process of a user: the kernel adds the primary group to the set.
  function ProcessOf(uid: nat, primary: nat, groups: seq<nat>): Process {
    Process(uid, primary, SetOf(groups) + {primary})
  }

  function RolesOf(ids: Identities, m: Memberships): Roles {
    Roles(
      ProcessOf(ids.workerOwner, m.workerPrimary, m.workerGroups),
      ProcessOf(ids.queueOwner, m.queuePrimary, m.queueGroups),
      ProcessOf(ids.gatewayOwner, m.gatewayPrimary, m.gatewayGroups),
      ids.gatewayOwner)
  }

  // The group list of a user, as the group database gives it, holds the primary group.
  predicate ListsPrimary(m: Memberships) {
    m.workerPrimary in m.workerGroups && m.queuePrimary in m.queueGroups && m.gatewayPrimary in m.gatewayGroups
  }

  lemma ExactGroupsAsSets(actual: seq<nat>, expected: seq<nat>)
    ensures HasExactGroups(actual, expected) <==> SetOf(actual) == SetOf(expected)
  {
    assert forall g :: g in SetOf(actual) <==> g in actual;
    assert forall g :: g in SetOf(expected) <==> g in expected;
    if HasExactGroups(actual, expected) {
      forall g ensures g in SetOf(actual) <==> g in SetOf(expected) {
      }
    } else {
      assert (exists i :: 0 <= i < |expected| && expected[i] !in actual)
          || (exists i :: 0 <= i < |actual| && actual[i] !in expected);
    }
  }

  lemma DuplicateFree(s: seq<nat>)
    ensures HasDuplicate(s) <==> exists i, j :: 0 <= i < j < |s| && s[i] == s[j]
  {
    if HasDuplicate(s) {
      var j :| 0 <= j < |s| && s[j] in s[..j];
      var i :| 0 <= i < j && s[..j][i] == s[j];
      assert s[i] == s[j];
    }
    if exists i, j :: 0 <= i < j < |s| && s[i] == s[j] {
      var i, j :| 0 <= i < j < |s| && s[i] == s[j];
      assert s[..j][i] == s[j];
    }
  }

  lemma IdentitiesExact(ids: Identities)
    ensures ValidateServiceIdentities(ids).Success? <==>
            && ids.workerOwner != 0 && ids.queueOwner != 0 && ids.gatewayOwner != 0
            && ids.workerOwner != ids.queueOwner && ids.workerOwner != ids.gatewayOwner && ids.queueOwner != ids.gatewayOwner
            && ids.workerGroup != 0 && ids.queueGroup != 0 && ids.gatewayGroup != 0 && ids.ingressGroup != 0
            && ids.workerGroup != ids.queueGroup && ids.workerGroup != ids.gatewayGroup && ids.workerGroup != ids.ingressGroup
            && ids.queueGroup != ids.gatewayGroup && ids.queueGroup != ids.ingressGroup && ids.gatewayGroup != ids.ingressGroup
  {
    var u := [ids.workerOwner, ids.queueOwner, ids.gatewayOwner];
    var g := [ids.workerGroup, ids.queueGroup, ids.gatewayGroup, ids.ingressGroup];
    DuplicateFree(u);
    DuplicateFree(g);
    assert u[0] == ids.workerOwner && u[1] == ids.queueOwner && u[2] == ids.gatewayOwner;
    assert g[0] == ids.workerGroup && g[1] == ids.queueGroup && g[2] == ids.gatewayGroup && g[3] == ids.ingressGroup;
  }

  lemma MembershipsExact(ids: Identities, m: Memberships)
    ensures ValidateServiceMemberships(ids, m).Success? <==>
            && m.workerPrimary == ids.workerGroup && SetOf(m.workerGroups) == {ids.workerGroup, ids.queueGroup}
            && m.queuePrimary == ids.queueGroup && SetOf(m.queueGroups) == {ids.queueGroup}
            && m.gatewayPrimary == ids.gatewayGroup && SetOf(m.gatewayGroups) == {ids.gatewayGroup, ids.ingressGroup}
  {
    SetOfPair(ids.workerGroup, ids.queueGroup);
    SetOfPair(ids.gatewayGroup, ids.ingressGroup);
    SetOfOne(ids.queueGroup);
    ExactGroupsAsSets(m.workerGroups, [ids.workerGroup, ids.queueGroup]);
    ExactGroupsAsSets(m.queueGroups, [ids.queueGroup]);
    ExactGroupsAsSets(m.gatewayGroups, [ids.gatewayGroup, ids.ingressGroup]);
  }

  lemma SetOfPair(a: nat, b: nat)
    ensures SetOf([a, b]) == {a, b}
  {
    assert [a, b][0] == a && [a, b][1] == b;
  }

  lemma SetOfOne(a: nat)
    ensures SetOf([a]) == {a}
  {
    assert [a][0] == a;
  }

  lemma SetHoldsMember(groups: seq<nat>, g: nat)
    requires g in groups
    ensures SetOf(groups) + {g} == SetOf(groups)
  {
  }

  // On directories that bootstrap's permission checks accepted, bootstrap accepts the service
  // accounts exactly when all three role validators accept their processes and the
  // ingress-client group is not the Worker's: the one separation no role checks for itself.
  lemma BootstrapMeansRuntime(ids: Identities, m: Memberships, b: Boundaries)
    requires PermissionsAccepted(ids, b) && ListsPrimary(m)
    ensures ValidateServiceIdentities(ids).Success? && ValidateServiceMemberships(ids, m).Success? <==>
            AllAccept(RolesOf(ids, m), b) && ids.workerGroup != ids.ingressGroup
  {
    var r := RolesOf(ids, m);
    IdentitiesExact(ids);
    MembershipsExact(ids, m);
    SetHoldsMember(m.workerGroups, m.workerPrimary);
    SetHoldsMember(m.queueGroups, m.queuePrimary);
    SetHoldsMember(m.gatewayGroups, m.gatewayPrimary);
    WorkerExact(r.worker, b);
    IngressExact(r.ingress, b);
    GatewayExact(r.gateway, r.gatewayUid, b);
  }

  // So bootstrapped storage has the whole matrix, with nothing open between the roles.
  lemma BootstrapSeparates(ids: Identities, m: Memberships, b: Boundaries)
    requires PermissionsAccepted(ids, b) && ListsPrimary(m)
    requires ValidateServiceIdentities(ids).Success? && ValidateServiceMemberships(ids, m).Success?
    ensures var r := RolesOf(ids, m);
            && OnAll(r.worker, b, WRITE) && OnAll(r.ingress, b, NOTHING) && OnAll(r.gateway, b, READ)
            && On(r.worker, b.work) == On(r.worker, b.releases) == WRITE
            && On(r.ingress, b.work) == On(r.ingress, b.releases) == NOTHING
            && On(r.gateway, b.work) == On(r.gateway, b.releases) == NOTHING
            && On(r.worker, b.queue) == On(r.ingress, b.queue) == WRITE && On(r.gateway, b.queue) == NOTHING
            && On(r.worker, b.runtime) == NOTHING && On(r.ingress, b.runtime) == WRITE && On(r.gateway, b.runtime) == READ
  {
    BootstrapMeansRuntime(ids, m, b);
    AccessMatrix(RolesOf(ids, m), b);
  }
}
