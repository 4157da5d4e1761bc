/** What holds of storage bootstrap over all runs, crashes and reruns. */
module BootstrapSafety {
  import opened Wrappers
  import opened ServiceIdentities
  import opened StorageBootstrap

  /* ---------------- one part of a volume ---------------- */

  // The actions of a plan on one part.
  function Concerning(part: Part, steps: seq<Step>): seq<Action> {
    if steps == [] then
      []
    else
      var last := steps[|steps| - 1];
      Concerning(part, steps[..|steps| - 1]) + if last.On? && last.part == part then [last.action] else []
  }

  function ActAll(slot: Slot, actions: seq<Action>, p: Permits): Slot {
    if actions == [] then slot
    else ActOn(ActAll(slot, actions[..|actions| - 1], p), actions[|actions| - 1], p)
  }

  lemma ActStep(slot: Slot, actions: seq<Action>, action: Action, p: Permits)
    ensures ActAll(slot, actions + [action], p) == ActOn(ActAll(slot, actions, p), action, p)
  {
    var all := actions + [action];
    assert all[..|all| - 1] == actions;
  }

  lemma SlotStep(v: Volume, step: Step, part: Part, c: Configuration)
    ensures SlotOf(Apply(v, step, c), part)
         == if step.On? && step.part == part then
              ActOn(SlotOf(v, part), step.action, PermitsOf(part, c.ids))
            else SlotOf(v, part)
  {
  }

  // A plan acts on each part on its own.
  lemma {:induction false} SlotAfter(v: Volume, steps: seq<Step>, part: Part, c: Configuration)
    ensures SlotOf(Execute(v, steps, c), part)
         == ActAll(SlotOf(v, part), Concerning(part, steps), PermitsOf(part, c.ids))
  {
    if steps == [] {
    } else {
      var before, last := steps[..|steps| - 1], steps[|steps| - 1];
      SlotAfter(v, before, part, c);
      SlotStep(Execute(v, before, c), last, part, c);
      if last.On? && last.part == part {
        ActStep(SlotOf(v, part), Concerning(part, before), last.action, PermitsOf(part, c.ids));
      } else {
        assert Concerning(part, steps) == Concerning(part, before);
      }
    }
  }

  lemma {:induction false} ConcerningAppend(part: Part, a: seq<Step>, b: seq<Step>)
    ensures Concerning(part, a + b) == Concerning(part, a) + Concerning(part, b)
    decreases |b|
  {
    if b == [] {
      assert a + b == a;
    } else {
      var s := a + b;
      assert s[..|s| - 1] == a + b[..|b| - 1];
      ConcerningAppend(part, a, b[..|b| - 1]);
    }
  }

  lemma {:induction false} ConcerningFor(part: Part, q: Part, actions: seq<Action>)
    ensures Concerning(part, For(q, actions)) == if part == q then actions else []
  {
    if actions == [] {
    } else {
      var last := |actions| - 1;
      assert For(q, actions)[..last] == For(q, actions[..last]);
      ConcerningFor(part, q, actions[..last]);
      assert actions[..last] + [actions[last]] == actions;
    }
  }

  lemma DistinctPrefix(parts: seq<Part>, part: Part)
    requires parts != [] && Distinct(parts)
    ensures var last := |parts| - 1;
            && Distinct(parts[..last]) && parts[last] !in parts[..last]
            && (part in parts <==> part in parts[..last] || part == parts[last])
  {
    assert parts == parts[..|parts| - 1] + [parts[|parts| - 1]];
  }

  lemma {:induction false} ConcerningEach(part: Part, parts: seq<Part>, actions: seq<Action>)
    requires Distinct(parts)
    ensures Concerning(part, Each(parts, actions)) == if part in parts then actions else []
  {
    if parts == [] {
    } else {
      var last := |parts| - 1;
      var before, own := Each(parts[..last], actions), For(parts[last], actions);
      assert Each(parts, actions) == before + own;
      DistinctPrefix(parts, part);
      ConcerningEach(part, parts[..last], actions);
      ConcerningFor(part, parts[last], actions);
      ConcerningAppend(part, before, own);
    }
  }

  lemma PartsDistinct(c: Configuration)
    ensures Distinct(PartsOf(c)) && StorageRoot !in PartsOf(c) && RuntimeDirectory !in PartsOf(c)
    ensures PartsOf(c)[0] == Queue
  {
  }

  lemma {:induction false} ExecuteAppend(v: Volume, a: seq<Step>, b: seq<Step>, c: Configuration)
    ensures Execute(v, a + b, c) == Execute(Execute(v, a, c), b, c)
    decreases |b|
  {
    if b == [] {
      assert a + b == a;
    } else {
      var s := a + b;
      assert s[..|s| - 1] == a + b[..|b| - 1];
      ExecuteAppend(v, a, b[..|b| - 1], c);
    }
  }

  /* ---------------- an uninterrupted first run ---------------- */

  lemma FiveAppend(part: Part, a: seq<Step>, b: seq<Step>, d: seq<Step>, e: seq<Step>, f: seq<Step>)
    ensures Concerning(part, a + b + d + e + f)
         == Concerning(part, a) + Concerning(part, b) + Concerning(part, d) + Concerning(part, e) + Concerning(part, f)
  {
    ConcerningAppend(part, a, b);
    ConcerningAppend(part, a + b, d);
    ConcerningAppend(part, a + b + d, e);
    ConcerningAppend(part, a + b + d + e, f);
  }

  lemma PreparationOn(part: Part, parts: seq<Part>, make: seq<Action>, restrict: seq<Action>, runtime: seq<Action>)
    requires Distinct(parts) && StorageRoot !in parts && RuntimeDirectory !in parts
    ensures Concerning(part, For(StorageRoot, make) + Each(parts, make) + For(StorageRoot, restrict) + Each(parts, restrict)
                             + For(RuntimeDirectory, runtime))
         == if part == StorageRoot || part in parts then make + restrict
            else if part == RuntimeDirectory then runtime else []
  {
    ConcerningFor(part, StorageRoot, make);
    ConcerningFor(part, StorageRoot, restrict);
    ConcerningFor(part, RuntimeDirectory, runtime);
    ConcerningEach(part, parts, make);
    ConcerningEach(part, parts, restrict);
    FiveAppend(part, For(StorageRoot, make), Each(parts, make), For(StorageRoot, restrict), Each(parts, restrict),
               For(RuntimeDirectory, runtime));
    var none: seq<Action> := [];
    if part == StorageRoot {
      Blanks(make, none, restrict, none, none);
    } else if part in parts {
      Blanks(none, make, none, restrict, none);
    } else if part == RuntimeDirectory {
      Blanks(none, none, none, none, runtime);
    }
  }

  lemma Blanks(a: seq<Action>, b: seq<Action>, d: seq<Action>, e: seq<Action>, f: seq<Action>)
    ensures b == [] && e == [] && f == [] ==> a + b + d + e + f == a + d
    ensures a == [] && d == [] && f == [] ==> a + b + d + e + f == b + e
    ensures a == [] && b == [] && d == [] && e == [] ==> a + b + d + e + f == f
  {
  }

  lemma CompletionOn(part: Part, parts: seq<Part>, fill: seq<Action>, normalise: seq<Action>)
    requires Distinct(parts)
    ensures Concerning(part, Each(parts, fill) + Each(parts, normalise)) == if part in parts then fill + normalise else []
  {
    ConcerningEach(part, parts, fill);
    ConcerningEach(part, parts, normalise);
    ConcerningAppend(part, Each(parts, fill), Each(parts, normalise));
  }

  lemma WorkOn(
    part: Part, parts: seq<Part>, make: seq<Action>, restrict: seq<Action>, runtime: seq<Action>, fill: seq<Action>,
    normalise: seq<Action>
  )
    requires Distinct(parts) && StorageRoot !in parts && RuntimeDirectory !in parts
    ensures Concerning(part, (For(StorageRoot, make) + Each(parts, make) + For(StorageRoot, restrict) + Each(parts, restrict)
                              + For(RuntimeDirectory, runtime)) + (Each(parts, fill) + Each(parts, normalise)))
         == if part in parts then make + restrict + (fill + normalise)
            else if part == StorageRoot then make + restrict
            else if part == RuntimeDirectory then runtime else []
  {
    PreparationOn(part, parts, make, restrict, runtime);
    CompletionOn(part, parts, fill, normalise);
    ConcerningAppend(
      part,
      For(StorageRoot, make) + Each(parts, make) + For(StorageRoot, restrict) + Each(parts, restrict)
      + For(RuntimeDirectory, runtime),
      Each(parts, fill) + Each(parts, normalise));
  }

  lemma PlanOn(part: Part, c: Configuration)
    ensures part in PartsOf(c) ==> Concerning(part, Preparation(c) + Completion(c)) == MAKE + RESTRICT + (FILL + NORMALISE)
    ensures part == StorageRoot ==> Concerning(part, Preparation(c) + Completion(c)) == MAKE + RESTRICT
    ensures part == RuntimeDirectory ==> Concerning(part, Preparation(c) + Completion(c)) == MAKE + NORMALISE
    ensures part == SearchIndexes && !c.searchIndexes ==> Concerning(part, Preparation(c) + Completion(c)) == []
  {
    PartsDistinct(c);
    WorkOn(part, PartsOf(c), MAKE, RESTRICT, MAKE + NORMALISE, FILL, NORMALISE);
  }

  // The directory is made and restricted, filled, and its tree normalised.
  lemma FilledSlot(slot: Slot, p: Permits)
    requires EmptyOrAbsent(slot)
    ensures Completed(ActAll(slot, MAKE + RESTRICT + (FILL + NORMALISE), p), p.target)
  {
    RestrictedSlot(slot, p);
    var prepared := MAKE + RESTRICT;
    var done := prepared + [BeginFill];
    ActStep(slot, prepared, BeginFill, p);
    ActStep(slot, done, EndFill, p);
    done := done + [EndFill];
    ActStep(slot, done, BeginTree, p);
    done := done + [BeginTree];
    ActStep(slot, done, OwnTree, p);
    done := done + [OwnTree];
    ActStep(slot, done, EndTree, p);
    assert done + [EndTree] == MAKE + RESTRICT + (FILL + NORMALISE);
  }

  lemma RestrictedSlot(slot: Slot, p: Permits)
    ensures !slot.NotDirectory? ==>
              ActAll(slot, MAKE + RESTRICT, p).Directory?
              && ActAll(slot, MAKE + RESTRICT, p).meta == p.first
  {
    var none: seq<Action> := [];
    ActStep(slot, none, Make, p);
    ActStep(slot, none + [Make], Own, p);
    ActStep(slot, none + [Make] + [Own], Restrict, p);
    assert none + [Make] + [Own] + [Restrict] == MAKE + RESTRICT;
  }

  lemma NormalisedSlot(slot: Slot, p: Permits)
    ensures !slot.NotDirectory? ==>
              var after := ActAll(slot, MAKE + NORMALISE, p);
              after.Directory? && after.meta == p.target && after.normal
  {
    var none: seq<Action> := [];
    ActStep(slot, none, Make, p);
    ActStep(slot, none + [Make], BeginTree, p);
    ActStep(slot, none + [Make] + [BeginTree], OwnTree, p);
    ActStep(slot, none + [Make] + [BeginTree] + [OwnTree], EndTree, p);
    assert none + [Make] + [BeginTree] + [OwnTree] + [EndTree] == MAKE + NORMALISE;
  }

  // Nothing stands in the way of a run that passed its first checks.
  lemma ReadyRunValidates(v: Volume, c: Configuration)
    requires Ready(v, c)
    ensures Initialized(Execute(v, Preparation(c) + Completion(c), c), c)
  {
    var steps := Preparation(c) + Completion(c);
    var parts := PartsOf(c);
    forall i | 0 <= i < |parts|
      ensures Completed(SlotOf(Execute(v, steps, c), parts[i]), TargetMeta(parts[i], c.ids))
    {
      PlanOn(parts[i], c);
      SlotAfter(v, steps, parts[i], c);
      FilledSlot(SlotOf(v, parts[i]), PermitsOf(parts[i], c.ids));
    }
    PlanOn(StorageRoot, c);
    SlotAfter(v, steps, StorageRoot, c);
    RestrictedSlot(SlotOf(v, StorageRoot), PermitsOf(StorageRoot, c.ids));
    PlanOn(RuntimeDirectory, c);
    SlotAfter(v, steps, RuntimeDirectory, c);
    NormalisedSlot(SlotOf(v, RuntimeDirectory), PermitsOf(RuntimeDirectory, c.ids));
  }

  // No check of a plan fails.
  predicate PassesAll(v: Volume, plan: seq<Step>, c: Configuration) {
    forall k :: 0 <= k < |plan| ==> Passes(Execute(v, plan[..k], c), plan[k], c)
  }

  // A run started on `v` that nothing interrupts reaches its end.
  predicate Completes(v: Volume, c: Configuration) {
    PlanFor(v, c).Some? && PassesAll(v, PlanFor(v, c).value, c)
  }

  predicate ChecksNothing(steps: seq<Step>) {
    forall i :: 0 <= i < |steps| ==> steps[i].On?
  }

  lemma {:induction false} EachChecksNothing(parts: seq<Part>, actions: seq<Action>)
    ensures ChecksNothing(Each(parts, actions))
  {
    if parts == [] {
    } else {
      EachChecksNothing(parts[..|parts| - 1], actions);
    }
  }

  lemma WorkChecksNothing(c: Configuration)
    ensures ChecksNothing(Preparation(c)) && ChecksNothing(Completion(c))
  {
    EachChecksNothing(PartsOf(c), MAKE);
    EachChecksNothing(PartsOf(c), RESTRICT);
    EachChecksNothing(PartsOf(c), FILL);
    EachChecksNothing(PartsOf(c), NORMALISE);
  }

  // A run on storage without a marker either refuses and leaves the volume as it is, or
  // starts from empty roots, passes its validation and leaves a certified marker.
  lemma UnmarkedRun(v: Volume, c: Configuration)
    requires v.marker.None?
    ensures Completes(v, c) <==> Ready(v, c)
    ensures PlanFor(v, c).Some? <==> Ready(v, c)
    ensures Ready(v, c) ==>
              var final := Execute(v, UnmarkedPlan(c), c);
              && final.marker == Some(MarkerOf(c)) && final.certified && !final.stray
              && Initialized(final, c)
  {
    if Ready(v, c) {
      ReadyRunPasses(v, c);
      ReadyRunMarks(v, c);
    }
  }

  lemma ReadyRunPasses(v: Volume, c: Configuration)
    requires Ready(v, c)
    ensures PassesAll(v, UnmarkedPlan(c), c)
  {
    WorkChecksNothing(c);
    ReadyRunValidates(v, c);
    WorkPasses(v, Preparation(c) + Completion(c), c);
  }

  lemma WorkPasses(v: Volume, work: seq<Step>, c: Configuration)
    requires ChecksNothing(work) && Initialized(Execute(v, work, c), c)
    ensures PassesAll(v, work + MARKING, c)
  {
    var plan, n := work + MARKING, |work|;
    forall k | 0 <= k < |plan| ensures Passes(Execute(v, plan[..k], c), plan[k], c) {
      if k < n {
        assert plan[k] == work[k];
      } else {
        assert plan[k] == MARKING[k - n];
        if k == n {
          assert plan[..k] == work;
        }
      }
    }
  }

  lemma ReadyRunMarks(v: Volume, c: Configuration)
    requires Ready(v, c)
    ensures var final := Execute(v, UnmarkedPlan(c), c);
            && final.marker == Some(MarkerOf(c)) && final.certified && !final.stray
            && Initialized(final, c)
  {
    var work := Preparation(c) + Completion(c);
    ReadyRunValidates(v, c);
    ExecuteAppend(v, work, MARKING, c);
    MarkingSteps(Execute(v, work, c), c);
  }

  // Only the parts matter to a validation.
  lemma InitializedByParts(v: Volume, w: Volume, c: Configuration)
    requires v.parts == w.parts
    ensures Initialized(v, c) <==> Initialized(w, c)
  {
  }

  lemma MarkingSteps(v: Volume, c: Configuration)
    ensures var final := Execute(v, MARKING, c);
            && final == v.(stray := false, marker := Some(MarkerOf(c)), certified := Initialized(v, c))
            && (Initialized(final, c) <==> Initialized(v, c))
  {
    var none: seq<Step> := [];
    ExecuteStep(v, none, Validate, c);
    ExecuteStep(v, none + [Validate], WriteTemporary, c);
    ExecuteStep(v, none + [Validate] + [WriteTemporary], RenameMarker, c);
    assert none + [Validate] + [WriteTemporary] + [RenameMarker] == MARKING;
    InitializedByParts(v, v.(stray := true), c);
    InitializedByParts(v, Execute(v, MARKING, c), c);
  }

  lemma ExecuteStep(v: Volume, steps: seq<Step>, step: Step, c: Configuration)
    ensures Execute(v, steps + [step], c) == Apply(Execute(v, steps, c), step, c)
  {
    var all := steps + [step];
    assert all[..|all| - 1] == steps;
  }

  /* ---------------- a first run that stops early ---------------- */

  predicate Prepares(step: Step, c: Configuration) {
    && step.On?
    && (step.part == SearchIndexes ==> c.searchIndexes)
    && (step.part.RuntimeDirectory? || step.action in {Make, Own, Restrict})
    && !step.action.BeginFill? && !step.action.EndFill?
  }

  lemma {:induction false} EachPrepares(parts: seq<Part>, actions: seq<Action>, c: Configuration)
    requires forall i :: 0 <= i < |actions| ==> actions[i] in {Make, Own, Restrict}
    requires SearchIndexes in parts ==> c.searchIndexes
    ensures forall i :: 0 <= i < |Each(parts, actions)| ==> Prepares(Each(parts, actions)[i], c)
  {
    if parts == [] {
    } else {
      EachPrepares(parts[..|parts| - 1], actions, c);
    }
  }

  lemma PreparationPrepares(c: Configuration)
    ensures forall i :: 0 <= i < |Preparation(c)| ==> Prepares(Preparation(c)[i], c)
  {
    EachPrepares(PartsOf(c), MAKE, c);
    EachPrepares(PartsOf(c), RESTRICT, c);
    assert forall i :: 0 <= i < |RUNTIME| ==> Prepares(RUNTIME[i], c);
  }

  lemma PreparingKeepsReady(v: Volume, step: Step, c: Configuration)
    requires Ready(v, c) && Prepares(step, c)
    ensures Ready(Apply(v, step, c), c)
  {
    PartsDistinct(c);
  }

  lemma {:induction false} PreparedIsReady(v: Volume, steps: seq<Step>, c: Configuration)
    requires Ready(v, c) && forall i :: 0 <= i < |steps| ==> Prepares(steps[i], c)
    ensures Ready(Execute(v, steps, c), c)
  {
    if steps == [] {
    } else {
      PreparedIsReady(v, steps[..|steps| - 1], c);
      PreparingKeepsReady(Execute(v, steps[..|steps| - 1], c), steps[|steps| - 1], c);
    }
  }

  // What has been filled is never vacant again.
  lemma {:induction false} FilledActs(slot: Slot, actions: seq<Action>, p: Permits)
    requires slot.Directory? && slot.fill != Vacant
    ensures var after := ActAll(slot, actions, p);
            after.Directory? && after.fill != Vacant
  {
    if actions == [] {
    } else {
      FilledActs(slot, actions[..|actions| - 1], p);
    }
  }

  lemma FilledStays(v: Volume, steps: seq<Step>, part: Part, c: Configuration)
    requires SlotOf(v, part).Directory? && SlotOf(v, part).fill != Vacant
    ensures var slot := SlotOf(Execute(v, steps, c), part);
            slot.Directory? && slot.fill != Vacant
  {
    SlotAfter(v, steps, part, c);
    FilledActs(SlotOf(v, part), Concerning(part, steps), PermitsOf(part, c.ids));
  }

  lemma {:induction false} MarkerOnlyByRename(v: Volume, steps: seq<Step>, c: Configuration)
    requires forall i :: 0 <= i < |steps| ==> steps[i] != RenameMarker
    ensures Execute(v, steps, c).marker == v.marker && Execute(v, steps, c).certified == v.certified
  {
    if steps == [] {
    } else {
      MarkerOnlyByRename(v, steps[..|steps| - 1], c);
    }
  }

  lemma QueueFilledFirst(v: Volume, c: Configuration)
    requires Ready(v, c)
    ensures |Completion(c)| > 0 && Completion(c)[0] == On(Queue, BeginFill)
    ensures var slot := SlotOf(Execute(v, Preparation(c) + [On(Queue, BeginFill)], c), Queue);
            slot.Directory? && slot.fill != Vacant
  {
    PartsDistinct(c);
    EachStartsWith(PartsOf(c), FILL);
    PreparedQueue(v, c);
    ExecuteStep(v, Preparation(c), On(Queue, BeginFill), c);
  }

  lemma PreparedQueue(v: Volume, c: Configuration)
    requires Ready(v, c)
    ensures SlotOf(Execute(v, Preparation(c), c), Queue).Directory?
  {
    PartsDistinct(c);
    PreparationOn(Queue, PartsOf(c), MAKE, RESTRICT, MAKE + NORMALISE);
    SlotAfter(v, Preparation(c), Queue, c);
    RestrictedSlot(SlotOf(v, Queue), PermitsOf(Queue, c.ids));
  }

  lemma {:induction false} EachStartsWith(parts: seq<Part>, actions: seq<Action>)
    requires parts != [] && actions != []
    ensures |Each(parts, actions)| > 0 && Each(parts, actions)[0] == On(parts[0], actions[0])
  {
    var last := |parts| - 1;
    var before, own := Each(parts[..last], actions), For(parts[last], actions);
    assert Each(parts, actions) == before + own;
    if last == 0 {
      assert before == [] && own[0] == On(parts[0], actions[0]);
    } else {
      EachStartsWith(parts[..last], actions);
    }
  }

  lemma CutAfter(a: seq<Step>, b: seq<Step>, d: seq<Step>, k: nat)
    requires b != [] && |a| < k <= |a + b + d|
    ensures (a + b + d)[..k] == a + [b[0]] + (a + b + d)[|a| + 1..k]
  {
  }

  // Stopped after any number of steps: the marker is there only at the very end, and a rerun
  // completes exactly when nothing has been filled yet; later it refuses and changes nothing.
  lemma StoppedFirstRun(v: Volume, c: Configuration, k: nat)
    requires v.marker.None? && Ready(v, c) && k <= |UnmarkedPlan(c)|
    ensures var w := Execute(v, UnmarkedPlan(c)[..k], c);
            && (w.marker.Some? <==> k == |UnmarkedPlan(c)|)
            && (Ready(w, c) <==> k <= |Preparation(c)|)
            && (k < |UnmarkedPlan(c)| ==> (Completes(w, c) <==> k <= |Preparation(c)|))
  {
    var plan, n := UnmarkedPlan(c), |Preparation(c)|;
    var w := Execute(v, plan[..k], c);
    PreparationPrepares(c);
    if k <= n {
      assert plan[..k] == Preparation(c)[..k];
      PreparedIsReady(v, plan[..k], c);
    } else {
      QueueFilledFirst(v, c);
      var first := Preparation(c) + [On(Queue, BeginFill)];
      CutAfter(Preparation(c), Completion(c), MARKING, k);
      ExecuteAppend(v, first, plan[n + 1..k], c);
      FilledStays(Execute(v, first, c), plan[n + 1..k], Queue, c);
      PartsDistinct(c);
    }
    StoppedMarker(v, c, k);
    if k < |plan| {
      UnmarkedRun(w, c);
    }
  }

  lemma StoppedMarker(v: Volume, c: Configuration, k: nat)
    requires v.marker.None? && Ready(v, c) && k <= |UnmarkedPlan(c)|
    ensures Execute(v, UnmarkedPlan(c)[..k], c).marker.Some? <==> k == |UnmarkedPlan(c)|
  {
    var plan := UnmarkedPlan(c);
    if k == |plan| {
      assert plan[..k] == plan;
      UnmarkedRun(v, c);
    } else {
      WorkChecksNothing(c);
      var work := Preparation(c) + Completion(c);
      forall i | 0 <= i < k ensures plan[..k][i] != RenameMarker {
        if i < |work| {
          assert plan[i] == work[i];
        } else {
          assert plan[i] == MARKING[i - |work|];
        }
      }
      MarkerOnlyByRename(v, plan[..k], c);
    }
  }

  /* ---------------- a rerun with the search index switched on or off ---------------- */

  // A part is absent exactly if it was and nothing has made it.
  lemma {:induction false} AbsentAfter(slot: Slot, actions: seq<Action>, p: Permits)
    ensures ActAll(slot, actions, p).Absent? <==> slot.Absent? && Make !in actions
  {
    if actions == [] {
    } else {
      var last := |actions| - 1;
      AbsentAfter(slot, actions[..last], p);
      assert actions == actions[..last] + [actions[last]];
    }
  }

  lemma {:induction false} ConcerningHolds(part: Part, steps: seq<Step>, action: Action)
    ensures action in Concerning(part, steps) <==> On(part, action) in steps
  {
    if steps == [] {
    } else {
      var last := |steps| - 1;
      ConcerningHolds(part, steps[..last], action);
      assert steps == steps[..last] + [steps[last]];
    }
  }

  lemma {:induction false} EachMade(parts: seq<Part>, actions: seq<Action>, i: nat)
    requires |actions| == 1 && i < |parts|
    ensures |Each(parts, actions)| == |parts| && Each(parts, actions)[i] == On(parts[i], actions[0])
    decreases |parts|
  {
    var last := |parts| - 1;
    var before, own := Each(parts[..last], actions), For(parts[last], actions);
    assert Each(parts, actions) == before + own;
    if last == 0 {
      assert before == [];
    } else {
      EachMade(parts[..last], actions, if i < last then i else 0);
    }
  }

  // The search index is the last root to be made.
  lemma IndexMadeAt(c: Configuration, k: nat)
    requires c.searchIndexes && k <= |UnmarkedPlan(c)|
    ensures |CORE| + 1 < |Preparation(c)|
    ensures On(SearchIndexes, Make) in UnmarkedPlan(c)[..k] <==> k > |CORE| + 1
  {
    var plan, made := UnmarkedPlan(c), Each(PartsOf(c), MAKE);
    PartsAre(c);
    PlanStarts(c);
    EachMade(PartsOf(c), MAKE, |CORE|);
    forall i | 0 <= i <= |CORE| ensures plan[i] != On(SearchIndexes, Make) {
      if i > 0 {
        EachMade(PartsOf(c), MAKE, i - 1);
        assert plan[i] == made[i - 1] && CORE[i - 1] != SearchIndexes;
      }
    }
    FirstAt(plan, On(SearchIndexes, Make), |CORE| + 1, k);
  }

  lemma FirstAt<T>(s: seq<T>, x: T, at: nat, k: nat)
    requires at < |s| && s[at] == x && k <= |s| && forall i :: 0 <= i < at ==> s[i] != x
    ensures x in s[..k] <==> k > at
  {
    if k > at {
      assert s[..k][at] == x;
    }
  }

  lemma PlanStarts(c: Configuration)
    ensures var made := Each(PartsOf(c), MAKE);
            && |Preparation(c)| > |made| + 1 && |UnmarkedPlan(c)| > |made| + 1
            && UnmarkedPlan(c)[0] == On(StorageRoot, Make)
            && forall i :: 0 < i <= |made| ==> UnmarkedPlan(c)[i] == made[i - 1]
  {
    StartsBy(For(StorageRoot, MAKE), Each(PartsOf(c), MAKE), For(StorageRoot, RESTRICT), Each(PartsOf(c), RESTRICT),
             RUNTIME, Completion(c), MARKING);
  }

  lemma StartsBy<T>(a: seq<T>, b: seq<T>, d: seq<T>, e: seq<T>, f: seq<T>, g: seq<T>, h: seq<T>)
    requires |a| == 1
    ensures var all := a + b + d + e + f + g + h;
            all[0] == a[0] && forall i :: 0 < i <= |b| ==> all[i] == b[i - 1]
  {
  }

  // Of the first run with a search index, stopped after `k` steps, a rerun without one
  // completes exactly if the index root was not there and had not been made; from then on it
  // is an entry that the rerun does not expect.
  lemma StoppedThenSwitchedOff(v: Volume, c: Configuration, k: nat)
    requires v.marker.None? && Ready(v, c) && c.searchIndexes && k < |UnmarkedPlan(c)|
    ensures Completes(Execute(v, UnmarkedPlan(c)[..k], c), c.(searchIndexes := false)) <==>
            SlotOf(v, SearchIndexes).Absent? && k <= |CORE| + 1
  {
    var steps, off := UnmarkedPlan(c)[..k], c.(searchIndexes := false);
    var w := Execute(v, steps, c);
    StoppedFirstRun(v, c, k);
    SlotAfter(v, steps, SearchIndexes, c);
    AbsentAfter(SlotOf(v, SearchIndexes), Concerning(SearchIndexes, steps), PermitsOf(SearchIndexes, c.ids));
    ConcerningHolds(SearchIndexes, steps, Make);
    IndexMadeAt(c, k);
    UnmarkedRun(w, off);
    PartsAre(c);
  }

  // The other way round the search index is one more empty root to make.
  lemma StoppedThenSwitchedOn(v: Volume, c: Configuration, k: nat)
    requires v.marker.None? && Ready(v, c) && !c.searchIndexes && k < |UnmarkedPlan(c)|
    ensures Completes(Execute(v, UnmarkedPlan(c)[..k], c), c.(searchIndexes := true)) <==> k <= |Preparation(c)|
  {
    var steps, on := UnmarkedPlan(c)[..k], c.(searchIndexes := true);
    var w := Execute(v, steps, c);
    StoppedFirstRun(v, c, k);
    PartsDistinct(c);
    IndexUntouched(c, k);
    SlotAfter(v, steps, SearchIndexes, c);
    UnmarkedRun(w, on);
    PartsAre(on);
  }

  lemma IndexUntouched(c: Configuration, k: nat)
    requires !c.searchIndexes && k <= |UnmarkedPlan(c)|
    ensures Concerning(SearchIndexes, UnmarkedPlan(c)[..k]) == []
  {
    PlanOn(SearchIndexes, c);
    NoConcern(SearchIndexes, MARKING);
    UntouchedPrefix(SearchIndexes, Preparation(c) + Completion(c), MARKING, k);
  }

  lemma UntouchedPrefix(part: Part, a: seq<Step>, b: seq<Step>, k: nat)
    requires Concerning(part, a) == [] && Concerning(part, b) == [] && k <= |a + b|
    ensures Concerning(part, (a + b)[..k]) == []
  {
    var all := a + b;
    ConcerningAppend(part, a, b);
    ConcerningAppend(part, all[..k], all[k..]);
    assert all == all[..k] + all[k..];
  }

  /* ---------------- every run ---------------- */

  predicate EndsInMarking(steps: seq<Step>) {
    && |steps| >= 3
    && steps[|steps| - 3..] == MARKING
    && (forall i :: 0 <= i < |steps| - 3 ==> steps[i].On?)
  }

  predicate MarksNothing(steps: seq<Step>) {
    forall i :: 0 <= i < |steps| ==> steps[i] != RenameMarker
  }

  // The marker comes last, after the validation and a step that changes no part.
  predicate MarksLast(s: State) {
    || MarksNothing(s.remaining)
    || EndsInMarking(s.remaining)
    || (AboutToMark(s.remaining) && Initialized(s.volume, s.configuration))
  }

  predicate AboutToMark(steps: seq<Step>) {
    steps == [WriteTemporary, RenameMarker] || steps == [RenameMarker]
  }

  predicate Invariant(s: State) {
    (s.volume.marker.Some? ==> s.volume.certified) && MarksLast(s)
  }

  lemma LaunchKeeps(s: State, c: Configuration)
    requires Invariant(s) && s.remaining == []
    ensures Invariant(Next(s, Launch(c)))
  {
    if s.volume.marker.None? && Ready(s.volume, c) {
      WorkChecksNothing(c);
      WorkThenMarking(Preparation(c) + Completion(c));
    } else if s.volume.marker.Some? && Rerunnable(s.volume, c) {
      MarkedMarksNothing(s.volume, c);
    }
  }

  lemma WorkThenMarking(work: seq<Step>)
    requires ChecksNothing(work)
    ensures EndsInMarking(work + MARKING)
  {
  }

  lemma MarkedMarksNothing(v: Volume, c: Configuration)
    ensures MarksNothing(MarkedPlan(v, c))
  {
  }

  lemma MarkingTail(steps: seq<Step>)
    requires EndsInMarking(steps)
    ensures if |steps| > 3 then steps[0].On? && EndsInMarking(steps[1..])
            else steps[0] == Validate && steps[1..] == [WriteTemporary, RenameMarker]
  {
    var rest := steps[1..];
    if |steps| > 3 {
      assert rest[|rest| - 3..] == steps[|steps| - 3..];
    } else {
      assert steps == MARKING;
    }
  }

  lemma WorkingAdvances(s: State)
    requires Invariant(s) && |s.remaining| > 1 && s.remaining[0].On? && EndsInMarking(s.remaining[1..])
    ensures Invariant(Next(s, Advance))
  {
    assert Next(s, Advance).remaining == s.remaining[1..];
  }

  lemma ValidatingAdvances(s: State)
    requires Invariant(s) && |s.remaining| == 3 && s.remaining[0] == Validate
    requires s.remaining[1..] == [WriteTemporary, RenameMarker]
    ensures Invariant(Next(s, Advance))
  {
    if Initialized(s.volume, s.configuration) {
      assert Next(s, Advance) == State(s.volume, s.configuration, s.remaining[1..]);
    } else {
      assert Next(s, Advance).remaining == [];
    }
  }

  lemma MarkedAdvances(s: State)
    requires Invariant(s) && AboutToMark(s.remaining)
    requires Initialized(s.volume, s.configuration)
    ensures Invariant(Next(s, Advance))
  {
    InitializedByParts(s.volume, s.volume.(stray := true), s.configuration);
  }

  lemma AdvanceKeeps(s: State)
    requires Invariant(s) && s.remaining != []
    ensures Invariant(Next(s, Advance))
  {
    if EndsInMarking(s.remaining) {
      MarkingTail(s.remaining);
      if |s.remaining| > 3 {
        WorkingAdvances(s);
      } else {
        ValidatingAdvances(s);
      }
    } else if MarksNothing(s.remaining) {
      assert MarksNothing(s.remaining[1..]);
    } else {
      MarkedAdvances(s);
    }
  }

  // Over any sequence of runs, stopped anywhere, with anything but the marker changed in
  // between: a marker is there only if every part was complete and validated before it.
  lemma {:induction false} MarkerIsCertified(s: State, events: seq<Event>)
    requires Invariant(s) && Legal(s, events)
    ensures Run(s, events).volume.marker.Some? ==> Run(s, events).volume.certified
    ensures Invariant(Run(s, events))
    decreases |events|
  {
    if events == [] {
    } else {
      match events[0] {
        case Launch(c) => LaunchKeeps(s, c);
        case Advance => AdvanceKeeps(s);
        case Stop =>
        case Fail =>
        case Serve(_) =>
      }
      MarkerIsCertified(Next(s, events[0]), events[1..]);
    }
  }

  /* ---------------- runs on marked storage ---------------- */

  lemma {:induction false} NoConcern(part: Part, steps: seq<Step>)
    requires forall i :: 0 <= i < |steps| ==> !(steps[i].On? && steps[i].part == part)
    ensures Concerning(part, steps) == []
  {
    if steps == [] {
    } else {
      NoConcern(part, steps[..|steps| - 1]);
    }
  }

  predicate CoreCompleted(v: Volume, c: Configuration) {
    forall i :: 0 <= i < |CORE| ==> Completed(SlotOf(v, CORE[i]), TargetMeta(CORE[i], c.ids))
  }

  // The parts after provisioning.
  lemma Provisioned(v: Volume, c: Configuration)
    requires Rerunnable(v, c)
    ensures var w := Execute(v, ProvisionSteps(v, c), c);
            DurableInitialized(w, c) <==>
            CoreCompleted(v, c)
            && (ProvisioningOf(v, c) == Nothing && c.searchIndexes ==>
                  Completed(SlotOf(v, SearchIndexes), TargetMeta(SearchIndexes, c.ids)))
  {
    var w := Execute(v, ProvisionSteps(v, c), c);
    ProvisionSpares(v, c, StorageRoot);
    forall i | 0 <= i < |CORE| ensures SlotOf(w, CORE[i]) == SlotOf(v, CORE[i]) {
      ProvisionSpares(v, c, CORE[i]);
    }
    DurableParts(w, c);
    if ProvisioningOf(v, c) == Provision {
      ProvisionedIndex(v, c);
    }
  }

  lemma ProvisionSpares(v: Volume, c: Configuration, part: Part)
    requires part != SearchIndexes
    ensures SlotOf(Execute(v, ProvisionSteps(v, c), c), part) == SlotOf(v, part)
  {
    NoConcern(part, ProvisionSteps(v, c));
    SlotAfter(v, ProvisionSteps(v, c), part, c);
  }

  lemma ProvisionedIndex(v: Volume, c: Configuration)
    requires ProvisioningOf(v, c) == Provision
    ensures Completed(SlotOf(Execute(v, ProvisionSteps(v, c), c), SearchIndexes), TargetMeta(SearchIndexes, c.ids))
  {
    ConcerningFor(SearchIndexes, SearchIndexes, PROVISION);
    SlotAfter(v, ProvisionSteps(v, c), SearchIndexes, c);
    assert PROVISION == MAKE + RESTRICT + (FILL + NORMALISE);
    FilledSlot(SlotOf(v, SearchIndexes), PermitsOf(SearchIndexes, c.ids));
  }

  lemma DurableParts(w: Volume, c: Configuration)
    ensures DurableInitialized(w, c) <==>
            && SlotOf(w, StorageRoot).Directory? && SlotOf(w, StorageRoot).meta == TargetMeta(StorageRoot, c.ids)
            && CoreCompleted(w, c)
            && (c.searchIndexes ==> Completed(SlotOf(w, SearchIndexes), TargetMeta(SearchIndexes, c.ids)))
  {
    PartsAre(c);
  }

  lemma PartsAre(c: Configuration)
    ensures forall i :: 0 <= i < |CORE| ==> |PartsOf(c)| > i && PartsOf(c)[i] == CORE[i]
    ensures c.searchIndexes ==> |PartsOf(c)| == |CORE| + 1 && PartsOf(c)[|CORE|] == SearchIndexes
    ensures !c.searchIndexes ==> PartsOf(c) == CORE
  {
  }

  // How many of the `n` actions after the first `start` steps are among the first `k`.
  function Window(k: nat, start: nat, n: nat): nat {
    if k <= start then 0 else if k - start < n then k - start else n
  }

  predicate Avoids(steps: seq<Step>, part: Part) {
    forall i :: 0 <= i < |steps| ==> !(steps[i].On? && steps[i].part == part)
  }

  function Prefix<T>(s: seq<T>, k: nat): seq<T> {
    if k <= |s| then s[..k] else s
  }

  lemma WindowCut(a: seq<Step>, b: seq<Step>, d: seq<Step>, k: nat)
    requires k <= |a + b + d|
    ensures (a + b + d)[..k]
         == Prefix(a, k) + b[..Window(k, |a|, |b|)] + (if k <= |a| + |b| then [] else d[..k - |a| - |b|])
  {
  }

  lemma AroundConcerns(part: Part, x: seq<Step>, y: seq<Step>, z: seq<Step>)
    requires Avoids(x, part) && Avoids(z, part)
    ensures Concerning(part, x + y + z) == Concerning(part, y)
  {
    NoConcern(part, x);
    NoConcern(part, z);
    ConcerningAppend(part, x, y);
    ConcerningAppend(part, x + y, z);
    assert [] + Concerning(part, y) + [] == Concerning(part, y);
  }

  lemma ForPrefix(part: Part, actions: seq<Action>, m: nat)
    requires m <= |actions|
    ensures For(part, actions)[..m] == For(part, actions[..m])
  {
  }

  // A part whose steps are one block of the plan, after `k` steps.
  lemma SlotInWindow(v: Volume, c: Configuration, part: Part, a: seq<Step>, actions: seq<Action>, d: seq<Step>, k: nat)
    requires Avoids(a, part) && Avoids(d, part) && k <= |a + For(part, actions) + d|
    ensures SlotOf(Execute(v, (a + For(part, actions) + d)[..k], c), part)
         == ActAll(SlotOf(v, part), actions[..Window(k, |a|, |actions|)], PermitsOf(part, c.ids))
  {
    var m, block := Window(k, |a|, |actions|), For(part, actions);
    var x, z := Prefix(a, k), if k <= |a| + |block| then [] else d[..k - |a| - |block|];
    WindowCut(a, block, d, k);
    AroundConcerns(part, x, block[..m], z);
    ForPrefix(part, actions, m);
    ConcerningFor(part, part, actions[..m]);
    SlotAfter(v, (a + block + d)[..k], part, c);
  }

  /* ---------------- each slot after `k` steps on marked storage ---------------- */

  lemma PlanAvoids(v: Volume, c: Configuration)
    ensures forall part :: part !in {Queue, SearchIndexes, RuntimeDirectory} ==> Avoids(MarkedPlan(v, c), part)
    ensures Avoids(ProvisionSteps(v, c), Queue) && Avoids(ProvisionSteps(v, c), RuntimeDirectory)
    ensures Avoids(RebindSteps(v), SearchIndexes) && Avoids(RebindSteps(v), RuntimeDirectory)
    ensures Avoids(RUNTIME, Queue) && Avoids(RUNTIME, SearchIndexes)
  {
  }

  lemma OthersAfter(v: Volume, c: Configuration, k: nat, part: Part)
    requires k <= |MarkedPlan(v, c)| && part !in {Queue, SearchIndexes, RuntimeDirectory}
    ensures SlotOf(Execute(v, MarkedPlan(v, c)[..k], c), part) == SlotOf(v, part)
  {
    PlanAvoids(v, c);
    NoConcern(part, MarkedPlan(v, c)[..k]);
    SlotAfter(v, MarkedPlan(v, c)[..k], part, c);
  }

  lemma PlanShapes(v: Volume, c: Configuration)
    ensures MarkedPlan(v, c) == [] + ProvisionSteps(v, c) + ([ValidateDurable] + RebindSteps(v) + RUNTIME + [Validate])
    ensures MarkedPlan(v, c) == (ProvisionSteps(v, c) + [ValidateDurable]) + RebindSteps(v) + (RUNTIME + [Validate])
    ensures MarkedPlan(v, c) == (ProvisionSteps(v, c) + [ValidateDurable] + RebindSteps(v)) + RUNTIME + [Validate]
  {
    FiveShapes(ProvisionSteps(v, c), [ValidateDurable], RebindSteps(v), RUNTIME, [Validate]);
  }

  lemma FiveShapes(a: seq<Step>, b: seq<Step>, d: seq<Step>, e: seq<Step>, f: seq<Step>)
    ensures a + b + d + e + f == [] + a + (b + d + e + f)
    ensures a + b + d + e + f == (a + b) + d + (e + f)
  {
  }

  lemma IndexAfter(v: Volume, c: Configuration, k: nat)
    requires k <= |MarkedPlan(v, c)|
    ensures var slot := SlotOf(Execute(v, MarkedPlan(v, c)[..k], c), SearchIndexes);
            if ProvisioningOf(v, c) == Provision then Stage(slot, c.ids, Window(k, 0, 8)) else slot == SlotOf(v, SearchIndexes)
  {
    var steps := MarkedPlan(v, c)[..k];
    PlanAvoids(v, c);
    if ProvisioningOf(v, c) == Provision {
      PlanShapes(v, c);
      SlotInWindow(v, c, SearchIndexes, [], PROVISION, [ValidateDurable] + RebindSteps(v) + RUNTIME + [Validate], k);
      ProvisionedSlot(SlotOf(v, SearchIndexes), c.ids, Window(k, 0, 8));
    } else {
      NoConcern(SearchIndexes, steps);
      SlotAfter(v, steps, SearchIndexes, c);
    }
  }

  // The binding after `m` steps of its migration.
  function BindingAfter(m: nat): Binding {
    if m == 0 || m == 3 then Legacy else if m <= 2 then Replacing else Current
  }

  lemma {:induction false} ReboundSlot(slot: Slot, p: Permits, m: nat)
    requires m <= |REBIND| && slot.Directory? && slot.binding == Legacy
    ensures ActAll(slot, REBIND[..m], p) == slot.(binding := BindingAfter(m))
  {
    if m == 0 {
    } else {
      ReboundSlot(slot, p, m - 1);
      assert REBIND[..m] == REBIND[..m - 1] + [REBIND[m - 1]];
      ActStep(slot, REBIND[..m - 1], REBIND[m - 1], p);
    }
  }

  lemma QueueAfter(v: Volume, c: Configuration, k: nat)
    requires k <= |MarkedPlan(v, c)|
    ensures SlotOf(Execute(v, MarkedPlan(v, c)[..k], c), Queue)
         == if LegacyBound(v) then
              SlotOf(v, Queue).(binding := BindingAfter(Window(k, |ProvisionSteps(v, c)| + 1, |REBIND|)))
            else SlotOf(v, Queue)
  {
    var steps := MarkedPlan(v, c)[..k];
    PlanAvoids(v, c);
    if LegacyBound(v) {
      var a := ProvisionSteps(v, c) + [ValidateDurable];
      PlanShapes(v, c);
      SlotInWindow(v, c, Queue, a, REBIND, RUNTIME + [Validate], k);
      ReboundSlot(SlotOf(v, Queue), PermitsOf(Queue, c.ids), Window(k, |a|, |REBIND|));
    } else {
      NoConcern(Queue, steps);
      SlotAfter(v, steps, Queue, c);
    }
  }

  lemma {:induction false} EmptyStaysEmpty(slot: Slot, actions: seq<Action>, p: Permits)
    requires EmptyOrAbsent(slot) && forall i :: 0 <= i < |actions| ==> actions[i] != BeginFill && actions[i] != EndFill
    ensures EmptyOrAbsent(ActAll(slot, actions, p))
  {
    if actions == [] {
    } else {
      EmptyStaysEmpty(slot, actions[..|actions| - 1], p);
    }
  }

  lemma RuntimeAfter(v: Volume, c: Configuration, k: nat)
    requires k <= |MarkedPlan(v, c)| && EmptyOrAbsent(SlotOf(v, RuntimeDirectory))
    ensures var slot := SlotOf(Execute(v, MarkedPlan(v, c)[..k], c), RuntimeDirectory);
            && EmptyOrAbsent(slot)
            && (k >= |MarkedPlan(v, c)| - 1 ==>
                  slot.Directory? && slot.normal && slot.meta == TargetMeta(RuntimeDirectory, c.ids))
  {
    var a, actions := ProvisionSteps(v, c) + [ValidateDurable] + RebindSteps(v), MAKE + NORMALISE;
    PlanAvoids(v, c);
    PlanShapes(v, c);
    SlotInWindow(v, c, RuntimeDirectory, a, actions, [Validate], k);
    RuntimeSlot(SlotOf(v, RuntimeDirectory), PermitsOf(RuntimeDirectory, c.ids), Window(k, |a|, |actions|));
  }

  lemma RuntimeSlot(slot: Slot, p: Permits, m: nat)
    requires EmptyOrAbsent(slot) && m <= |MAKE + NORMALISE|
    ensures var after := ActAll(slot, (MAKE + NORMALISE)[..m], p);
            && EmptyOrAbsent(after)
            && (m == |MAKE + NORMALISE| ==> after.Directory? && after.normal && after.meta == p.target)
  {
    var actions := MAKE + NORMALISE;
    assert actions == [Make, BeginTree, OwnTree, EndTree];
    EmptyStaysEmpty(slot, actions[..m], p);
    if m == |actions| {
      assert actions[..m] == actions;
      NormalisedSlot(slot, p);
    }
  }

  // Whatever step a run on marked storage stops at, it has touched neither the marker nor the
  // storage root nor any part the marker speaks of but the queue; of the queue it has touched
  // at most the binding, and it leaves the queue alone throughout exactly if its binding is
  // not of the older format.
  lemma MarkedRunKeeps(v: Volume, c: Configuration, k: nat, part: Part)
    requires k <= |MarkedPlan(v, c)|
    ensures var w := Execute(v, MarkedPlan(v, c)[..k], c);
            && w.marker == v.marker && w.certified == v.certified
            && ((part in CORE && part != Queue) || part == StorageRoot ==> SlotOf(w, part) == SlotOf(v, part))
            && (SlotOf(v, Queue).Directory? ==>
                  SlotOf(w, Queue).Directory? && SlotOf(w, Queue).(binding := Current) == SlotOf(v, Queue).(binding := Current))
    ensures (forall j :: 0 <= j <= |MarkedPlan(v, c)| ==>
               SlotOf(Execute(v, MarkedPlan(v, c)[..j], c), Queue) == SlotOf(v, Queue)) <==> !LegacyBound(v)
  {
    MarkerOnlyByRename(v, MarkedPlan(v, c)[..k], c);
    if (part in CORE && part != Queue) || part == StorageRoot {
      OthersAfter(v, c, k, part);
    }
    QueueAfter(v, c, k);
    var n := |MarkedPlan(v, c)|;
    if LegacyBound(v) {
      QueueAfter(v, c, n);
      assert SlotOf(Execute(v, MarkedPlan(v, c)[..n], c), Queue) != SlotOf(v, Queue);
    } else {
      forall j | 0 <= j <= n ensures SlotOf(Execute(v, MarkedPlan(v, c)[..j], c), Queue) == SlotOf(v, Queue) {
        QueueAfter(v, c, j);
      }
    }
  }

  /* ---------------- which runs on marked storage complete ---------------- */

  // Once the durable check has passed, so does the last one.
  lemma LastCheckPasses(v: Volume, c: Configuration)
    requires Rerunnable(v, c) && DurableInitialized(Execute(v, ProvisionSteps(v, c), c), c)
    ensures var plan := MarkedPlan(v, c);
            Initialized(Execute(v, plan[..|plan| - 1], c), c)
  {
    var plan := MarkedPlan(v, c);
    var n, k := |ProvisionSteps(v, c)|, |plan| - 1;
    assert plan[..n] == ProvisionSteps(v, c);
    var checked, w := Execute(v, plan[..n], c), Execute(v, plan[..k], c);
    RuntimeAfter(v, c, k);
    forall part | part != RuntimeDirectory && (part == StorageRoot || part in PartsOf(c))
      ensures Completed(SlotOf(checked, part), TargetMeta(part, c.ids)) ==> Completed(SlotOf(w, part), TargetMeta(part, c.ids))
      ensures part == StorageRoot ==> SlotOf(w, part) == SlotOf(checked, part)
    {
      DurableAfter(v, c, n, k, part);
    }
    PartsDistinct(c);
  }

  lemma DurableAfter(v: Volume, c: Configuration, n: nat, k: nat, part: Part)
    requires n == |ProvisionSteps(v, c)| && k == |MarkedPlan(v, c)| - 1 && part != RuntimeDirectory
    ensures var checked, w := Execute(v, MarkedPlan(v, c)[..n], c), Execute(v, MarkedPlan(v, c)[..k], c);
            && (Completed(SlotOf(checked, part), TargetMeta(part, c.ids)) ==> Completed(SlotOf(w, part), TargetMeta(part, c.ids)))
            && (part == StorageRoot ==> SlotOf(w, part) == SlotOf(checked, part))
  {
    if part == Queue {
      QueueAfter(v, c, n);
      QueueAfter(v, c, k);
    } else if part == SearchIndexes {
      IndexAfter(v, c, n);
      IndexAfter(v, c, k);
    } else {
      OthersAfter(v, c, n, part);
      OthersAfter(v, c, k, part);
    }
  }

  // The checks of a run on marked storage pass exactly when the storage is complete after
  // provisioning.
  lemma MarkedChecks(v: Volume, c: Configuration)
    requires Rerunnable(v, c)
    ensures PassesAll(v, MarkedPlan(v, c), c) <==> DurableInitialized(Execute(v, ProvisionSteps(v, c), c), c)
  {
    var plan, n := MarkedPlan(v, c), |ProvisionSteps(v, c)|;
    assert plan[n] == ValidateDurable && plan[..n] == ProvisionSteps(v, c);
    if DurableInitialized(Execute(v, ProvisionSteps(v, c), c), c) {
      LastCheckPasses(v, c);
      forall k | 0 <= k < |plan| ensures Passes(Execute(v, plan[..k], c), plan[k], c) {
        if k != n && k != |plan| - 1 {
          WorksBetween(v, c, k);
        }
      }
    } else {
      assert !Passes(Execute(v, plan[..n], c), plan[n], c);
    }
  }

  lemma WorksBetween(v: Volume, c: Configuration, k: nat)
    requires k < |MarkedPlan(v, c)| - 1 && k != |ProvisionSteps(v, c)|
    ensures MarkedPlan(v, c)[k].On?
  {
    var a, b := ProvisionSteps(v, c), RebindSteps(v) + RUNTIME;
    assert MarkedPlan(v, c) == a + [ValidateDurable] + b + [Validate];
    if k < |a| {
      assert MarkedPlan(v, c)[k] == a[k];
    } else {
      assert MarkedPlan(v, c)[k] == b[k - |a| - 1];
    }
  }

  lemma MarkedRunExactly(v: Volume, c: Configuration)
    requires v.marker.Some?
    ensures Completes(v, c) <==>
            && Rerunnable(v, c) && CoreCompleted(v, c)
            && (ProvisioningOf(v, c) == Nothing && c.searchIndexes ==>
                  Completed(SlotOf(v, SearchIndexes), TargetMeta(SearchIndexes, c.ids)))
  {
    if Rerunnable(v, c) {
      MarkedChecks(v, c);
      Provisioned(v, c);
    }
  }

  predicate PrivateDirectory(slot: Slot, ids: Identities) {
    slot.Directory? && slot.meta.uid == ids.administrativeOwner && slot.meta.mode == PRIVATE
  }

  // The search index root after `k` steps of provisioning.
  predicate Stage(slot: Slot, ids: Identities, k: nat) {
    var target := TargetMeta(SearchIndexes, ids);
    if k == 0 then slot.Absent? || (PrivateDirectory(slot, ids) && slot.fill == Vacant)
    else if k <= 3 then PrivateDirectory(slot, ids) && slot.fill == Vacant
    else if k == 4 then PrivateDirectory(slot, ids) && slot.fill == Partial
    else if k <= 6 then PrivateDirectory(slot, ids) && slot.fill == Initialised && slot.binding == Current
    else if k == 7 then
      slot.Directory? && slot.meta == target.(mode := PRIVATE) && slot.fill == Initialised && slot.binding == Current
    else Completed(slot, target)
  }

  function ProvisionAction(k: nat): Action {
    if k == 0 then Make else if k == 1 then Own else if k == 2 then Restrict
    else if k == 3 then BeginFill else if k == 4 then EndFill
    else if k == 5 then BeginTree else if k == 6 then OwnTree else EndTree
  }

  lemma StageStep(slot: Slot, ids: Identities, k: nat)
    requires k < 8 && Stage(slot, ids, k)
    ensures Stage(ActOn(slot, ProvisionAction(k), PermitsOf(SearchIndexes, ids)), ids, k + 1)
  {
  }

  // What each action carries from one stage to the next holds after any number of them.
  lemma {:induction false} Staged(slot: Slot, actions: seq<Action>, p: Permits, stage: (Slot, nat) -> bool, k: nat)
    requires k <= |actions| && stage(slot, 0)
    requires forall s, i: nat :: i < |actions| && stage(s, i) ==> stage(ActOn(s, actions[i], p), i + 1)
    ensures stage(ActAll(slot, actions[..k], p), k)
    decreases k
  {
    if k == 0 {
    } else {
      var before := actions[..k - 1];
      Staged(slot, actions, p, stage, k - 1);
      assert actions[..k] == before + [actions[k - 1]];
      ActStep(slot, before, actions[k - 1], p);
    }
  }

  lemma ProvisionedSlot(slot: Slot, ids: Identities, k: nat)
    requires k <= |PROVISION| && Stage(slot, ids, 0)
    ensures Stage(ActAll(slot, PROVISION[..k], PermitsOf(SearchIndexes, ids)), ids, k)
  {
    var p, stage := PermitsOf(SearchIndexes, ids), (s: Slot, i: nat) => Stage(s, ids, i);
    forall s, i: nat | i < |PROVISION| && stage(s, i) ensures stage(ActOn(s, PROVISION[i], p), i + 1) {
      StageStep(s, ids, i);
    }
    Staged(slot, PROVISION, p, stage, k);
  }

  // What a rerun makes of a search index that was stopped.
  lemma StageJudged(w: Volume, c: Configuration, m: nat)
    requires c.searchIndexes && m <= 8 && Stage(SlotOf(w, SearchIndexes), c.ids, m)
    requires c.ids.workerOwner != c.ids.administrativeOwner
    ensures ProvisioningOf(w, c) != Refuse
            && (ProvisioningOf(w, c) == Nothing ==> Completed(SlotOf(w, SearchIndexes), TargetMeta(SearchIndexes, c.ids)))
            <==> !(4 <= m <= 7)
    ensures ProvisioningOf(w, c) == Nothing <==> m >= 7
  {
  }

  // How a run on `v` that was stopped after `k` steps leaves the volume.
  predicate StoppedAs(v: Volume, w: Volume, c: Configuration, k: nat) {
    var n := |ProvisionSteps(v, c)|;
    && w.marker == v.marker && EmptyOrAbsent(SlotOf(w, RuntimeDirectory))
    && SlotOf(w, StorageRoot) == SlotOf(v, StorageRoot)
    && (CoreCompleted(w, c) <==> !(LegacyBound(v) && n + 2 <= k <= n + 3))
    && (if ProvisioningOf(v, c) == Provision then Stage(SlotOf(w, SearchIndexes), c.ids, Window(k, 0, 8))
        else SlotOf(w, SearchIndexes) == SlotOf(v, SearchIndexes))
  }

  lemma StoppedJudged(v: Volume, w: Volume, c: Configuration, k: nat)
    requires v.marker.Some? && Completes(v, c) && c.ids.workerOwner != c.ids.administrativeOwner
    requires StoppedAs(v, w, c, k)
    ensures var n := |ProvisionSteps(v, c)|;
            Completes(w, c) <==>
            && !(ProvisioningOf(v, c) == Provision && 4 <= k <= 7)
            && !(LegacyBound(v) && n + 2 <= k <= n + 3)
  {
    MarkedRunExactly(v, c);
    MarkedRunExactly(w, c);
    if ProvisioningOf(v, c) == Provision {
      StageJudged(w, c, Window(k, 0, 8));
    }
  }

  // A run on marked storage stopped after `k` steps: a rerun completes exactly unless the
  // search index was begun and not finished, or the replacement of an older binding was
  // created and had not yet the queue's permissions.
  lemma StoppedMarkedRun(v: Volume, c: Configuration, k: nat)
    requires v.marker.Some? && Completes(v, c) && c.ids.workerOwner != c.ids.administrativeOwner
    requires k <= |MarkedPlan(v, c)|
    ensures var n := |ProvisionSteps(v, c)|;
            Completes(Execute(v, MarkedPlan(v, c)[..k], c), c) <==>
            && !(ProvisioningOf(v, c) == Provision && 4 <= k <= 7)
            && !(LegacyBound(v) && n + 2 <= k <= n + 3)
  {
    MarkedRunExactly(v, c);
    StoppedVolume(v, c, k);
    StoppedJudged(v, Execute(v, MarkedPlan(v, c)[..k], c), c, k);
  }

  lemma StoppedVolume(v: Volume, c: Configuration, k: nat)
    requires Rerunnable(v, c) && CoreCompleted(v, c) && k <= |MarkedPlan(v, c)|
    ensures StoppedAs(v, Execute(v, MarkedPlan(v, c)[..k], c), c, k)
  {
    MarkerOnlyByRename(v, MarkedPlan(v, c)[..k], c);
    RuntimeAfter(v, c, k);
    OthersAfter(v, c, k, StorageRoot);
    IndexAfter(v, c, k);
    CoreAfter(v, c, k);
  }

  lemma CoreAfter(v: Volume, c: Configuration, k: nat)
    requires Rerunnable(v, c) && CoreCompleted(v, c) && k <= |MarkedPlan(v, c)|
    ensures var n := |ProvisionSteps(v, c)|;
            CoreCompleted(Execute(v, MarkedPlan(v, c)[..k], c), c) <==> !(LegacyBound(v) && n + 2 <= k <= n + 3)
  {
    QueueAfter(v, c, k);
    CoreIs();
    forall i | 1 <= i < |CORE| ensures SlotOf(Execute(v, MarkedPlan(v, c)[..k], c), CORE[i]) == SlotOf(v, CORE[i]) {
      OthersAfter(v, c, k, CORE[i]);
    }
    CoreButQueue(v, Execute(v, MarkedPlan(v, c)[..k], c), c);
  }

  lemma CoreButQueue(v: Volume, w: Volume, c: Configuration)
    requires CoreCompleted(v, c)
    requires forall i :: 1 <= i < |CORE| ==> SlotOf(w, CORE[i]) == SlotOf(v, CORE[i])
    ensures CoreCompleted(w, c) <==> Completed(SlotOf(w, Queue), TargetMeta(Queue, c.ids))
  {
    CoreIs();
  }

  lemma CoreIs()
    ensures |CORE| == 5 && CORE[0] == Queue
    ensures forall i :: 1 <= i < |CORE| ==> CORE[i] !in {Queue, SearchIndexes, RuntimeDirectory}
  {
  }

  // Provisioning of the search index stopped after `k` of its eight steps: a rerun completes
  // exactly if the index was not begun or is done. From the first contents on it refuses, and
  // after the root's change of owner alone it takes the root as finished and then fails the
  // permission check.
  lemma StoppedProvisioning(v: Volume, c: Configuration, k: nat)
    requires v.marker.Some? && Completes(v, c) && c.searchIndexes && ProvisioningOf(v, c) == Provision
    requires c.ids.workerOwner != c.ids.administrativeOwner
    requires k <= |PROVISION|
    ensures var w := Execute(v, MarkedPlan(v, c)[..k], c);
            && (Completes(w, c) <==> k <= 3 || k == 8)
            && (ProvisioningOf(w, c) == Nothing <==> k >= 7)
  {
    MarkedRunExactly(v, c);
    StoppedMarkedRun(v, c, k);
    StoppedVolume(v, c, k);
    StageJudged(Execute(v, MarkedPlan(v, c)[..k], c), c, k);
  }

  // A step that fails instead of being cut off undoes the replacement, so that the binding
  // migration never stands in the way of a rerun.
  lemma FailedMarkedRun(v: Volume, c: Configuration, k: nat)
    requires v.marker.Some? && Completes(v, c) && c.ids.workerOwner != c.ids.administrativeOwner
    requires k <= |MarkedPlan(v, c)|
    ensures Completes(Undone(Execute(v, MarkedPlan(v, c)[..k], c), MarkedPlan(v, c)[k..]), c) <==>
            !(ProvisioningOf(v, c) == Provision && 4 <= k <= 7)
  {
    var n, w := |ProvisionSteps(v, c)|, Execute(v, MarkedPlan(v, c)[..k], c);
    var u := Undone(w, MarkedPlan(v, c)[k..]);
    MarkedRunExactly(v, c);
    StoppedMarkedRun(v, c, k);
    QueueAfter(v, c, k);
    CoreIs();
    if LegacyBound(v) && n + 2 <= k <= n + 3 {
      NextIsRebinding(v, c, k);
      StoppedVolume(v, c, k);
      UndoneCompletes(v, w, u, c, k);
    } else {
      assert Completed(SlotOf(v, CORE[0]), TargetMeta(CORE[0], c.ids));
      assert u == w;
    }
  }

  lemma NextIsRebinding(v: Volume, c: Configuration, k: nat)
    requires var n := |ProvisionSteps(v, c)|; LegacyBound(v) && n + 2 <= k <= n + 3
    ensures k < |MarkedPlan(v, c)|
    ensures MarkedPlan(v, c)[k] == On(Queue, if k == |ProvisionSteps(v, c)| + 2 then OwnBinding else PermitBinding)
  {
    var a := ProvisionSteps(v, c) + [ValidateDurable];
    PlanShapes(v, c);
    assert MarkedPlan(v, c)[k] == RebindSteps(v)[k - |a|];
  }

  lemma UndoneCompletes(v: Volume, w: Volume, u: Volume, c: Configuration, k: nat)
    requires v.marker.Some? && Completes(v, c) && c.ids.workerOwner != c.ids.administrativeOwner
    requires LegacyBound(v) && |ProvisionSteps(v, c)| + 2 <= k <= |MarkedPlan(v, c)|
    requires w == Execute(v, MarkedPlan(v, c)[..k], c)
    requires u == w.(parts := w.parts[Queue := SlotOf(v, Queue)])
    ensures Completes(u, c)
  {
    MarkedRunExactly(v, c);
    StoppedVolume(v, c, k);
    forall part | part in CORE ensures SlotOf(u, part) == SlotOf(v, part) {
      if part != Queue {
        OthersAfter(v, c, k, part);
      }
    }
    SameCoreCompletes(u, v, c);
  }

  lemma SameCoreCompletes(u: Volume, v: Volume, c: Configuration)
    requires v.marker.Some? && Completes(v, c) && u.marker == v.marker
    requires EmptyOrAbsent(SlotOf(u, RuntimeDirectory)) && SlotOf(u, StorageRoot) == SlotOf(v, StorageRoot)
    requires forall part :: part in CORE ==> SlotOf(u, part) == SlotOf(v, part)
    requires SlotOf(u, SearchIndexes) == SlotOf(v, SearchIndexes)
             || Completed(SlotOf(u, SearchIndexes), TargetMeta(SearchIndexes, c.ids))
    ensures Completes(u, c)
  {
    MarkedRunExactly(v, c);
    MarkedRunExactly(u, c);
    assert CoreCompleted(u, c);
  }

  /* ---------------- an instance ---------------- */

  function Finished(part: Part, ids: Identities, binding: Binding): Slot {
    Directory(TargetMeta(part, ids), Initialised, true, binding)
  }

  // Completed storage of an earlier version: the queue has a binding of the older format.
  function UpgradedVolume(c: Configuration): Volume {
    Volume(
      map[StorageRoot := Finished(StorageRoot, c.ids, Current), Queue := Finished(Queue, c.ids, Legacy),
          Repository := Finished(Repository, c.ids, Current), Content := Finished(Content, c.ids, Current),
          Work := Finished(Work, c.ids, Current), Releases := Finished(Releases, c.ids, Current)],
      false, Some(MarkerOf(c)), true)
  }

  // One run on it completes; one that is cut off after creating the replacement leaves
  // storage that every later run refuses.
  lemma UpgradeInstance(c: Configuration)
    requires !c.searchIndexes && c.ids.workerOwner != c.ids.administrativeOwner
    ensures var v := UpgradedVolume(c);
            && Completes(v, c) && MarkedPlan(v, c)[..2] == [ValidateDurable, On(Queue, CreateBinding)]
            && !Completes(Execute(v, MarkedPlan(v, c)[..2], c), c)
  {
    var v := UpgradedVolume(c);
    UpgradedIsComplete(c);
    MarkedRunExactly(v, c);
    StoppedMarkedRun(v, c, 2);
    assert MarkedPlan(v, c)[0] == ValidateDurable && MarkedPlan(v, c)[1] == On(Queue, CreateBinding);
  }

  lemma UpgradedIsComplete(c: Configuration)
    requires !c.searchIndexes
    ensures CoreCompleted(UpgradedVolume(c), c) && Rerunnable(UpgradedVolume(c), c) && LegacyBound(UpgradedVolume(c))
  {
  }
}
