/** Storage bootstrap as it runs: loops over the parts, one change of the volume at a time. */
module BootstrapRun {
  import opened Wrappers
  import opened StorageBootstrap
  import opened BootstrapSafety
  import opened BootstrapAccess
  import ServiceIdentities

  datatype Error = UnsafePath(part: Part) | PartialInitialization(part: Part) | MarkerMismatch | InvalidInitializedPath

  datatype Outcome = NewlyInitialized | AlreadyInitialized

  /* ---------------- refusals of unmarked storage ---------------- */

  // `require_absent_or_empty`.
  function ContentsRefusal(slot: Slot, part: Part): Option<Error> {
    if slot.NotDirectory? then Some(UnsafePath(part))
    else if slot.Directory? && slot.fill != Vacant then Some(PartialInitialization(part))
    else None
  }

  // `require_safe_empty_or_absent`: owner and mode are looked at before the contents.
  function PartRefusal(slot: Slot, part: Part, administrator: nat): Option<Error> {
    if slot.Directory? && !(slot.meta.uid == administrator && NotWritableByOthers(slot.meta.mode)) then
      Some(UnsafePath(part))
    else
      ContentsRefusal(slot, part)
  }

  function FirstRefusal(v: Volume, parts: seq<Part>, administrator: nat): Option<Error> {
    if parts == [] then None
    else
      var refusal := PartRefusal(SlotOf(v, parts[0]), parts[0], administrator);
      if refusal.Some? then refusal else FirstRefusal(v, parts[1..], administrator)
  }

  function Refusal(v: Volume, c: Configuration): Option<Error> {
    var runtime := ContentsRefusal(SlotOf(v, RuntimeDirectory), RuntimeDirectory);
    if runtime.Some? then runtime
    else if !RootAccepted(SlotOf(v, StorageRoot), c.ids.administrativeOwner) then Some(UnsafePath(StorageRoot))
    else if Unexpected(v, c) then Some(PartialInitialization(StorageRoot))
    else FirstRefusal(v, PartsOf(c), c.ids.administrativeOwner)
  }

  // The first reason for which a run on marked storage does not complete.
  function MarkedRefusal(v: Volume, c: Configuration): Option<Error> {
    var runtime := ContentsRefusal(SlotOf(v, RuntimeDirectory), RuntimeDirectory);
    var root := SlotOf(v, StorageRoot);
    if runtime.Some? then runtime
    else if !(root.Directory? && root.meta == TargetMeta(StorageRoot, c.ids)) then Some(InvalidInitializedPath)
    else if v.marker != Some(Marker(c.core, c.ids)) then Some(MarkerMismatch)
    else if ProvisioningOf(v, c) == Refuse then ContentsRefusal(SlotOf(v, SearchIndexes), SearchIndexes)
    else if !CoreCompleted(v, c) then Some(InvalidInitializedPath)
    else if ProvisioningOf(v, c) == Nothing && c.searchIndexes
         && !Completed(SlotOf(v, SearchIndexes), TargetMeta(SearchIndexes, c.ids)) then Some(InvalidInitializedPath)
    else None
  }

  lemma MarkedRefusalExact(v: Volume, c: Configuration)
    requires v.marker.Some?
    ensures MarkedRefusal(v, c).None? <==> Completes(v, c)
  {
    MarkedRunExactly(v, c);
  }

  lemma {:induction false} FirstRefusalExact(v: Volume, parts: seq<Part>, administrator: nat)
    ensures FirstRefusal(v, parts, administrator).None? <==>
            forall i :: 0 <= i < |parts| ==> SafeEmptyOrAbsent(SlotOf(v, parts[i]), administrator)
    ensures match FirstRefusal(v, parts, administrator)
            case Some(PartialInitialization(part)) =>
              && part in parts && SlotOf(v, part).Directory? && SlotOf(v, part).fill != Vacant
              && SlotOf(v, part).meta.uid == administrator && NotWritableByOthers(SlotOf(v, part).meta.mode)
            case Some(UnsafePath(part)) =>
              part in parts && (SlotOf(v, part).NotDirectory? || !RootAccepted(SlotOf(v, part), administrator))
            case Some(_) => false
            case None => true
  {
    if parts == [] {
    } else {
      FirstRefusalExact(v, parts[1..], administrator);
      assert forall i :: 1 <= i < |parts| ==> parts[i] == parts[1..][i - 1];
    }
  }

  // Storage is refused exactly if it is not ready; contents are the reason only where
  // nothing else is wrong with the part.
  lemma RefusalExact(v: Volume, c: Configuration)
    ensures Refusal(v, c).None? <==> Ready(v, c)
    ensures Refusal(v, c) != Some(MarkerMismatch) && Refusal(v, c) != Some(InvalidInitializedPath)
  {
    FirstRefusalExact(v, PartsOf(c), c.ids.administrativeOwner);
  }

  // A volume under one run; `done` is what the run has done to it since it started.
  class BootstrapVolume {
    const configuration: Configuration
    ghost const start: Volume
    var volume: Volume
    ghost var done: seq<Step>

    ghost predicate Valid()
      reads this
    {
      volume == Execute(start, done, configuration)
    }

    constructor (volume: Volume, configuration: Configuration)
      ensures Valid() && this.volume == volume == start && this.configuration == configuration && done == []
    {
      this.volume, this.start, this.configuration, this.done := volume, volume, configuration, [];
    }

    method Perform(step: Step)
      requires Valid()
      modifies this
      ensures Valid() && done == old(done) + [step]
      ensures volume == Apply(old(volume), step, configuration)
    {
      volume := Apply(volume, step, configuration);
      ExecuteStep(start, done, step, configuration);
      done := done + [step];
    }

    method OnPart(part: Part, actions: seq<Action>)
      requires Valid()
      modifies this
      ensures Valid() && done == old(done) + For(part, actions)
    {
      for i := 0 to |actions|
        invariant Valid() && done == old(done) + For(part, actions)[..i]
      {
        Perform(On(part, actions[i]));
        assert For(part, actions)[..i] + [On(part, actions[i])] == For(part, actions)[..i + 1];
      }
      assert For(part, actions)[..|actions|] == For(part, actions);
    }

    method OnEach(parts: seq<Part>, actions: seq<Action>)
      requires Valid()
      modifies this
      ensures Valid() && done == old(done) + Each(parts, actions)
    {
      for i := 0 to |parts|
        invariant Valid() && done == old(done) + Each(parts[..i], actions)
      {
        OnPart(parts[i], actions);
        assert parts[..i + 1][..i] == parts[..i];
      }
      assert parts[..|parts|] == parts;
    }

    // The checks on storage without a marker.
    method RequireReady() returns (r: Result<(), Error>)
      ensures r.Success? <==> Ready(volume, configuration)
      ensures r.Failure? ==> Refusal(volume, configuration) == Some(r.error)
    {
      RefusalExact(volume, configuration);
      var administrator := configuration.ids.administrativeOwner;
      var runtime := SlotOf(volume, RuntimeDirectory);
      if runtime.NotDirectory? {
        return Failure(UnsafePath(RuntimeDirectory));
      }
      if runtime.Directory? && runtime.fill != Vacant {
        return Failure(PartialInitialization(RuntimeDirectory));
      }
      if !RootAccepted(SlotOf(volume, StorageRoot), administrator) {
        return Failure(UnsafePath(StorageRoot));
      }
      if Unexpected(volume, configuration) {
        return Failure(PartialInitialization(StorageRoot));
      }
      var parts := PartsOf(configuration);
      for i := 0 to |parts|
        invariant FirstRefusal(volume, parts, administrator) == FirstRefusal(volume, parts[i..], administrator)
      {
        var slot := SlotOf(volume, parts[i]);
        assert parts[i..][0] == parts[i] && parts[i..][1..] == parts[i + 1..];
        if slot.NotDirectory? {
          return Failure(UnsafePath(parts[i]));
        }
        if slot.Directory? {
          if !(slot.meta.uid == administrator && NotWritableByOthers(slot.meta.mode)) {
            return Failure(UnsafePath(parts[i]));
          }
          if slot.fill != Vacant {
            return Failure(PartialInitialization(parts[i]));
          }
        }
      }
      return Success(());
    }

    method Prepare()
      requires Valid() && done == []
      modifies this
      ensures Valid() && done == Preparation(configuration)
    {
      var parts := PartsOf(configuration);
      OnPart(StorageRoot, MAKE);
      assert done == For(StorageRoot, MAKE);
      OnEach(parts, MAKE);
      OnPart(StorageRoot, RESTRICT);
      OnEach(parts, RESTRICT);
      OnPart(RuntimeDirectory, MAKE + NORMALISE);
    }

    method Complete()
      requires Valid() && done == Preparation(configuration)
      modifies this
      ensures Valid() && done == Preparation(configuration) + Completion(configuration)
    {
      ghost var parts := PartsOf(configuration);
      OnEach(PartsOf(configuration), FILL);
      OnEach(PartsOf(configuration), NORMALISE);
      Associative(Preparation(configuration), Each(parts, FILL), Each(parts, NORMALISE));
    }

    // The marker is written beside its place and renamed into it.
    method Mark()
      requires Valid() && done == Preparation(configuration) + Completion(configuration)
      modifies this
      ensures Valid() && done == UnmarkedPlan(configuration)
    {
      ghost var work := done;
      Perform(Validate);
      Perform(WriteTemporary);
      Perform(RenameMarker);
      Associative(work, [Validate], [WriteTemporary]);
      Associative(work, [Validate] + [WriteTemporary], [RenameMarker]);
      assert [Validate] + [WriteTemporary] + [RenameMarker] == MARKING;
    }

    // On storage without a marker: all or nothing, unless interrupted.
    method BootstrapUnmarked() returns (r: Result<Outcome, Error>)
      requires Valid() && done == [] && volume == start && volume.marker.None?
      modifies this
      ensures Valid()
      ensures r.Success? <==> Ready(start, configuration)
      ensures r.Success? ==> done == UnmarkedPlan(configuration)
      ensures r.Success? ==>
                Initialized(volume, configuration) && volume.marker == Some(MarkerOf(configuration)) && volume.certified
      ensures r.Failure? ==> done == [] && volume == start && Refusal(start, configuration) == Some(r.error)
    {
      var ready := RequireReady();
      if ready.Failure? {
        return Failure(ready.error);
      }
      Prepare();
      Complete();
      ReadyRunValidates(start, configuration);
      assert Initialized(volume, configuration);
      Mark();
      UnmarkedRun(start, configuration);
      return Success(NewlyInitialized);
    }

    // On marked storage: provisions the search index, migrates the binding of the queue, and
    // makes the runtime directory.
    method BootstrapMarked() returns (r: Result<Outcome, Error>)
      requires Valid() && done == [] && volume == start && volume.marker.Some?
      modifies this
      ensures Valid() && done <= MarkedPlan(start, configuration)
      ensures r.Success? <==> Completes(start, configuration)
      ensures r.Success? ==> done == MarkedPlan(start, configuration)
      ensures r.Failure? ==> MarkedRefusal(start, configuration) == Some(r.error)
    {
      MarkedRefusalExact(start, configuration);
      var runtime := SlotOf(volume, RuntimeDirectory);
      if !EmptyOrAbsent(runtime) {
        return Failure(if runtime.NotDirectory? then UnsafePath(RuntimeDirectory) else PartialInitialization(RuntimeDirectory));
      }
      var root := SlotOf(volume, StorageRoot);
      if !(root.Directory? && root.meta == TargetMeta(StorageRoot, configuration.ids)) {
        return Failure(InvalidInitializedPath);
      }
      if volume.marker.value != MarkerOf(configuration) {
        return Failure(MarkerMismatch);
      }
      var provisioning := ProvisioningOf(volume, configuration);
      if provisioning == Refuse {
        var index := SlotOf(volume, SearchIndexes);
        return Failure(if index.NotDirectory? then UnsafePath(SearchIndexes) else PartialInitialization(SearchIndexes));
      }
      MarkedChecks(start, configuration);
      ghost var first := ProvisionSteps(start, configuration);
      ghost var plan := MarkedPlan(start, configuration);
      assert first <= plan;
      if provisioning == Provision {
        OnPart(SearchIndexes, PROVISION);
      }
      assert done == first;
      Provisioned(start, configuration);
      if !DurableInitialized(volume, configuration) {
        return Failure(InvalidInitializedPath);
      }
      ProvisionSpares(start, configuration, Queue);
      Perform(ValidateDurable);
      var queue := SlotOf(volume, Queue);
      if queue.Directory? && queue.binding == Legacy {
        OnPart(Queue, REBIND);
      }
      assert done == first + [ValidateDurable] + RebindSteps(start);
      OnPart(RuntimeDirectory, MAKE + NORMALISE);
      Perform(Validate);
      return Success(AlreadyInitialized);
    }

    // A whole run: it completes exactly when nothing stands in its way, and a refusal on
    // unmarked storage leaves the volume as it was.
    method Bootstrap() returns (r: Result<Outcome, Error>)
      requires Valid() && done == [] && volume == start
      modifies this
      ensures Valid()
      ensures r.Success? <==> Completes(start, configuration)
      ensures r.Success? ==> Some(done) == PlanFor(start, configuration) && Initialized(volume, configuration)
      // What the services will require of the directories is what they find.
      ensures r.Success? ==> ServiceIdentities.PermissionsAccepted(configuration.ids, BoundariesOf(volume, configuration))
      ensures r.Failure? && start.marker.None? ==> volume == start && Refusal(start, configuration) == Some(r.error)
      ensures r.Failure? && start.marker.Some? ==> MarkedRefusal(start, configuration) == Some(r.error)
      ensures volume.marker.Some? && start.certified == start.marker.Some? ==> volume.certified
    {
      UnmarkedOrMarked(start, configuration);
      if volume.marker.Some? {
        r := BootstrapMarked();
        MarkedPrefixKeeps(start, configuration, done);
        if r.Success? {
          CompletedIsInitialized(start, configuration);
        }
      } else {
        r := BootstrapUnmarked();
      }
      if r.Success? {
        InitializedIsAccepted(volume, configuration);
      }
    }
  }

  lemma UnmarkedOrMarked(v: Volume, c: Configuration)
    ensures v.marker.None? ==> (Completes(v, c) <==> Ready(v, c))
  {
    if v.marker.None? {
      UnmarkedRun(v, c);
    }
  }

  lemma MarkedPrefixKeeps(v: Volume, c: Configuration, done: seq<Step>)
    requires done <= MarkedPlan(v, c)
    ensures Execute(v, done, c).marker == v.marker && Execute(v, done, c).certified == v.certified
  {
    assert done == MarkedPlan(v, c)[..|done|];
    MarkedRunKeeps(v, c, |done|, Queue);
  }
}
