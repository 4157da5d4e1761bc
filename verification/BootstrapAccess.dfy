/**
 What the metadata that bootstrap leaves means to the three services: the directories are
 those that their validators accept, and no service ever has more rights than in the end.
 */
module BootstrapAccess {
  import opened Wrappers
  import opened TreePolicy
  import opened StorageBootstrap
  import opened BootstrapSafety
  import RuntimeIdentity
  import ServiceIdentities

  /* ---------------- the directories of a volume ---------------- */

  function MetaOf(slot: Slot): Meta {
    if slot.Directory? then slot.meta else Meta(0, 0, 0)
  }

  function DirectoryOf(v: Volume, part: Part, place: RuntimeIdentity.Place): RuntimeIdentity.Directory {
    var meta := MetaOf(SlotOf(v, part));
    RuntimeIdentity.Directory(place, meta.uid, meta.gid, meta.mode)
  }

  function BoundariesOf(v: Volume, c: Configuration): RuntimeIdentity.Boundaries {
    RuntimeIdentity.Boundaries(
      DirectoryOf(v, Queue, RuntimeIdentity.Queue),
      DirectoryOf(v, Repository, RuntimeIdentity.Repository),
      DirectoryOf(v, Content, RuntimeIdentity.Content),
      DirectoryOf(v, Work, RuntimeIdentity.Work),
      DirectoryOf(v, Releases, RuntimeIdentity.Releases),
      if c.searchIndexes then Some(DirectoryOf(v, SearchIndexes, RuntimeIdentity.SearchIndexes)) else None,
      DirectoryOf(v, RuntimeDirectory, RuntimeIdentity.Runtime))
  }

  // The last validation of a run accepts exactly the permissions that the services require.
  lemma InitializedIsAccepted(v: Volume, c: Configuration)
    requires Initialized(v, c)
    ensures ServiceIdentities.PermissionsAccepted(c.ids, BoundariesOf(v, c))
    ensures MetaOf(SlotOf(v, StorageRoot)) == Meta(c.ids.administrativeOwner, c.ids.queueGroup, 0x1E9)
  {
    PartsAre(c);
    CoreIs();
    DurableParts(v, c);
    assert CORE[1] == Repository && CORE[2] == Content && CORE[3] == Work && CORE[4] == Releases;
    forall i | 0 <= i < |CORE| ensures MetaOf(SlotOf(v, CORE[i])) == TargetMeta(CORE[i], c.ids) {
    }
  }

  lemma FinishedIsInitialized(v: Volume, c: Configuration)
    requires Completes(v, c)
    ensures Initialized(Execute(v, PlanFor(v, c).value, c), c)
  {
    if v.marker.None? {
      UnmarkedRun(v, c);
    } else {
      CompletedIsInitialized(v, c);
    }
  }

  // The last check of a completed run on marked storage is that everything is initialised.
  lemma CompletedIsInitialized(v: Volume, c: Configuration)
    requires v.marker.Some? && Completes(v, c)
    ensures Initialized(Execute(v, MarkedPlan(v, c), c), c)
  {
    var plan := MarkedPlan(v, c);
    var n := |plan| - 1;
    assert plan[n] == Validate;
    assert Passes(Execute(v, plan[..n], c), plan[n], c);
  }

  /* ---------------- who may do what ---------------- */

  function RightsOn(p: RuntimeIdentity.Process, m: Meta): nat {
    RuntimeIdentity.Rights(p, m.uid, m.gid, m.mode)
  }

  predicate Accounts(c: Configuration, m: ServiceIdentities.Memberships) {
    && c.ids.administrativeOwner == 0 && c.ids.administrativeGroup == 0
    && ServiceIdentities.ListsPrimary(m)
    && ServiceIdentities.ValidateServiceIdentities(c.ids).Success?
    && ServiceIdentities.ValidateServiceMemberships(c.ids, m).Success?
  }

  const TRAVERSE: nat := 1

  // Storage on which a run of bootstrap completed, the first or a later one: all three
  // services start on it, each has its column of the matrix and nothing else, and on the
  // storage root the Gateway may only pass through.
  lemma BootstrapLeavesMatrix(v: Volume, c: Configuration, m: ServiceIdentities.Memberships)
    requires Completes(v, c) && Accounts(c, m)
    ensures var w := Execute(v, PlanFor(v, c).value, c);
            var b, r := BoundariesOf(w, c), ServiceIdentities.RolesOf(c.ids, m);
            var root := MetaOf(SlotOf(w, StorageRoot));
            && RuntimeIdentity.AllAccept(r, b)
            && RightsOn(r.worker, root) == RightsOn(r.ingress, root) == RuntimeIdentity.READ
            && RightsOn(r.gateway, root) == TRAVERSE
            && RuntimeIdentity.OnAll(r.worker, b, 7) && RuntimeIdentity.OnAll(r.ingress, b, 0)
            && RuntimeIdentity.OnAll(r.gateway, b, 5)
            && RuntimeIdentity.On(r.worker, b.work) == RuntimeIdentity.On(r.worker, b.releases) == 7
            && RuntimeIdentity.On(r.ingress, b.work) == RuntimeIdentity.On(r.ingress, b.releases) == 0
            && RuntimeIdentity.On(r.gateway, b.work) == RuntimeIdentity.On(r.gateway, b.releases) == 0
            && RuntimeIdentity.On(r.worker, b.queue) == RuntimeIdentity.On(r.ingress, b.queue) == 7
            && RuntimeIdentity.On(r.gateway, b.queue) == 0
            && RuntimeIdentity.On(r.worker, b.runtime) == 0 && RuntimeIdentity.On(r.ingress, b.runtime) == 7
            && RuntimeIdentity.On(r.gateway, b.runtime) == 5
  {
    var w := Execute(v, PlanFor(v, c).value, c);
    FinishedIsInitialized(v, c);
    InitializedIsAccepted(w, c);
    ServiceIdentities.BootstrapMeansRuntime(c.ids, m, BoundariesOf(w, c));
    ServiceIdentities.BootstrapSeparates(c.ids, m, BoundariesOf(w, c));
    RootRights(c, m);
  }

  lemma RootRights(c: Configuration, m: ServiceIdentities.Memberships)
    requires Accounts(c, m)
    ensures var r, root := ServiceIdentities.RolesOf(c.ids, m), Meta(c.ids.administrativeOwner, c.ids.queueGroup, 0x1E9);
            && RightsOn(r.worker, root) == RightsOn(r.ingress, root) == RuntimeIdentity.READ
            && RightsOn(r.gateway, root) == TRAVERSE
  {
    ServiceIdentities.IdentitiesExact(c.ids);
    ServiceIdentities.MembershipsExact(c.ids, m);
  }

  /* ---------------- before the end ---------------- */

  // The metadata of a part after `k` of the eight actions that make, fill and normalise it.
  predicate MetaStage(slot: Slot, p: Permits, k: nat) {
    if k == 0 then !slot.NotDirectory?
    else
      && slot.Directory?
      && (k == 2 ==> slot.meta.uid == p.first.uid && slot.meta.gid == p.first.gid)
      && (3 <= k <= 6 ==> slot.meta == p.first)
      && (k == 7 ==> slot.meta == Meta(p.target.uid, p.target.gid, p.first.mode))
      && (k >= 8 ==> slot.meta == p.target)
  }

  lemma StagedMeta(slot: Slot, p: Permits, k: nat)
    requires !slot.NotDirectory? && k <= |PROVISION|
    ensures MetaStage(ActAll(slot, PROVISION[..k], p), p, k)
  {
    var stage := (s: Slot, i: nat) => MetaStage(s, p, i);
    forall s, i: nat | i < |PROVISION| && stage(s, i) ensures stage(ActOn(s, PROVISION[i], p), i + 1) {
      assert PROVISION[i] == ProvisionAction(i);
    }
    Staged(slot, PROVISION, p, stage, k);
  }

  lemma ConcerningPrefix(part: Part, a: seq<Step>, b: seq<Step>, k: nat)
    requires |a| <= k <= |a + b|
    ensures Concerning(part, a) <= Concerning(part, (a + b)[..k]) <= Concerning(part, a + b)
  {
    var all := a + b;
    assert all[..k] == a + all[|a|..k] && all == all[..k] + all[k..];
    ConcerningAppend(part, a, all[|a|..k]);
    ConcerningAppend(part, all[..k], all[k..]);
  }

  // From the end of the preparation on, a part has the metadata of one of the last stages.
  lemma PartStage(v: Volume, c: Configuration, k: nat, i: nat) returns (m: nat)
    requires Ready(v, c) && |Preparation(c)| <= k <= |UnmarkedPlan(c)| && i < |PartsOf(c)|
    ensures 3 <= m <= 8
    ensures MetaStage(SlotOf(Execute(v, UnmarkedPlan(c)[..k], c), PartsOf(c)[i]), PermitsOf(PartsOf(c)[i], c.ids), m)
  {
    var part, plan := PartsOf(c)[i], UnmarkedPlan(c);
    var whole := Concerning(part, plan);
    var done := Concerning(part, plan[..k]);
    PlanConcerns(part, c);
    ConcerningPrefix(part, Preparation(c), Completion(c) + MARKING, k);
    Associative(Preparation(c), Completion(c), MARKING);
    m := |done|;
    assert done == PROVISION[..m];
    SlotAfter(v, plan[..k], part, c);
    StagedMeta(SlotOf(v, part), PermitsOf(part, c.ids), m);
  }

  lemma PlanConcerns(part: Part, c: Configuration)
    requires part in PartsOf(c)
    ensures Concerning(part, UnmarkedPlan(c)) == PROVISION
    ensures |Concerning(part, Preparation(c))| == 3
  {
    PlanOn(part, c);
    PartsDistinct(c);
    PreparationOn(part, PartsOf(c), MAKE, RESTRICT, MAKE + NORMALISE);
    NoConcern(part, MARKING);
    ConcerningAppend(part, Preparation(c) + Completion(c), MARKING);
    assert PROVISION == MAKE + RESTRICT + (FILL + NORMALISE);
    assert PROVISION + [] == PROVISION;
  }

  // Whatever step a first run stops at: a part that holds anything gives each service either
  // no rights or those that it has in the end.
  lemma NeverOpenedEarly(v: Volume, c: Configuration, m: ServiceIdentities.Memberships, k: nat, i: nat)
    requires v.marker.None? && Ready(v, c) && Accounts(c, m) && k <= |UnmarkedPlan(c)| && i < |PartsOf(c)|
    ensures var r, target := ServiceIdentities.RolesOf(c.ids, m), TargetMeta(PartsOf(c)[i], c.ids);
            var slot := SlotOf(Execute(v, UnmarkedPlan(c)[..k], c), PartsOf(c)[i]);
            || EmptyOrAbsent(slot)
            || (&& RightsOn(r.worker, MetaOf(slot)) in {0, RightsOn(r.worker, target)}
                && RightsOn(r.ingress, MetaOf(slot)) in {0, RightsOn(r.ingress, target)}
                && RightsOn(r.gateway, MetaOf(slot)) in {0, RightsOn(r.gateway, target)})
  {
    if k <= |Preparation(c)| {
      StoppedFirstRun(v, c, k);
    } else {
      var part, w := PartsOf(c)[i], Execute(v, UnmarkedPlan(c)[..k], c);
      var stage := PartStage(v, c, k, i);
      PartsDistinct(c);
      var r := ServiceIdentities.RolesOf(c.ids, m);
      ServiceIdentities.IdentitiesExact(c.ids);
      ServiceIdentities.MembershipsExact(c.ids, m);
      assert r.worker.uid != 0 && r.ingress.uid != 0 && r.gateway.uid != 0;
      StageRights(r.worker, SlotOf(w, part), part, c.ids, stage);
      StageRights(r.ingress, SlotOf(w, part), part, c.ids, stage);
      StageRights(r.gateway, SlotOf(w, part), part, c.ids, stage);
    }
  }

  lemma StageRights(p: RuntimeIdentity.Process, slot: Slot, part: Part, ids: ServiceIdentities.Identities, k: nat)
    requires p.uid != 0 && ids.administrativeOwner == 0
    requires part != StorageRoot && 3 <= k <= 8 && MetaStage(slot, PermitsOf(part, ids), k)
    ensures RightsOn(p, MetaOf(slot)) in {0, RightsOn(p, TargetMeta(part, ids))}
  {
  }

  /* ---------------- a directory that others cannot change ---------------- */

  predicate MayWrite(rights: nat) {
    (rights / 2) % 2 == 1
  }

  lemma SecondBit(n: nat)
    ensures MayWrite(n % 8) <==> (n / 2) % 2 == 1
  {
    Halved(n, n / 8, n % 8);
    Parity(2 * (n / 8), (n % 8) / 2);
  }

  lemma Halved(n: nat, a: nat, b: nat)
    requires n == 8 * a + b && b < 8
    ensures n / 2 == 2 * (2 * a) + b / 2
  {
  }

  lemma Parity(a: nat, h: nat)
    ensures (2 * a + h) % 2 == h % 2
  {
  }

  lemma WriteBits(mode: nat)
    ensures MayWrite((mode / 8) % 8) <==> (mode / 16) % 2 == 1
    ensures MayWrite(mode % 8) <==> (mode / 2) % 2 == 1
  {
    SecondBit(mode);
    SecondBit(mode / 8);
    assert mode / 16 == (mode / 8) / 2;
  }

  // The check on the storage root and on what it finds there means that nobody but root and
  // the owner can write to it.
  lemma NotWritableMeans(m: Meta)
    ensures NotWritableByOthers(m.mode) <==>
            forall p: RuntimeIdentity.Process :: p.uid != 0 && p.uid != m.uid ==> !MayWrite(RightsOn(p, m))
  {
    WriteBits(m.mode);
    var member := RuntimeIdentity.Process(m.uid + 1, m.gid, {});
    var stranger := RuntimeIdentity.Process(m.uid + 1, m.gid + 1, {});
    assert RightsOn(member, m) == (m.mode / 8) % 8 && RightsOn(stranger, m) == m.mode % 8;
  }
}
