/**
 Storage bootstrap as a sequence of single steps on a storage volume. A run may stop after
 any step; what a later run then does depends only on the volume it finds.
 */
module StorageBootstrap {
  import opened Wrappers
  import opened TreePolicy
  import opened ServiceIdentities

  // The storage root, the roots below it, and the runtime directory elsewhere.
  datatype Part = StorageRoot | Queue | Repository | Content | Work | Releases | SearchIndexes | RuntimeDirectory

  const CORE: seq<Part> := [Queue, Repository, Content, Work, Releases]

  // What the marker records; the search index root is not part of it.
  datatype CoreSettings = CoreSettings(roots: seq<string>, branch: string, authorName: string, authorEmail: string)

  datatype Configuration = Configuration(core: CoreSettings, searchIndexes: bool, ids: Identities)

  datatype Marker = Marker(core: CoreSettings, ids: Identities)

  function MarkerOf(c: Configuration): Marker {
    Marker(c.core, c.ids)
  }

  function PartsOf(c: Configuration): seq<Part> {
    if c.searchIndexes then CORE + [SearchIndexes] else CORE
  }

  // The contents of a root: nothing, some of an initialisation, or all of it.
  datatype Fill = Vacant | Partial | Initialised

  // How the queue root is bound to its place: by a file of the current format, by one of the
  // older format, or by one of the older format with a replacement beside it that does not
  // have the permissions of the queue yet. Elsewhere the binding is always current.
  datatype Binding = Current | Legacy | Replacing

  // One storage root. `normal`: everything below it has the permissions of its part; what
  // migration makes so, its validation accepts (`TreeCrashes.NormalisedIsAccepted`).
  datatype Slot = Absent | NotDirectory | Directory(meta: Meta, fill: Fill, normal: bool, binding: Binding)

  // `stray`: an entry of the storage root that is no part, such as an abandoned marker
  // temporary. A search index root is unexpected too where none is configured.
  // `certified`: when the marker was renamed into place every part had been completed.
  datatype Volume = Volume(
    parts: map<Part, Slot>,
    stray: bool,
    marker: Option<Marker>,
    certified: bool
  )

  datatype Action =
    | Make | Own | Restrict
    | BeginFill | EndFill
    | BeginTree | OwnTree | EndTree
    | CreateBinding | OwnBinding | PermitBinding | RenameBinding

  datatype Step =
    | On(part: Part, action: Action)
    | ValidateDurable
    | Validate
    | WriteTemporary
    | RenameMarker

  /* ---------------- permissions ---------------- */

  // Modes 0700, 0751, 2770, 2750 and 0750 in octal.
  const PRIVATE: nat := 0x1C0
  const ROOT_MODE: nat := 0x1E9

  // The metadata of a directory when it is new, before it has contents, and in the end.
  datatype Permits = Permits(made: Meta, first: Meta, target: Meta)

  function PermitsOf(part: Part, ids: Identities): Permits {
    var made := Meta(ids.administrativeOwner, ids.administrativeGroup, PRIVATE);
    Permits(made, if part.StorageRoot? then TargetMeta(part, ids) else made, TargetMeta(part, ids))
  }

  function TargetMeta(part: Part, ids: Identities): Meta {
    match part
    case StorageRoot => Meta(ids.administrativeOwner, ids.queueGroup, ROOT_MODE)
    case Queue => Meta(ids.queueOwner, ids.queueGroup, 0x5F8)
    case Repository | Content | SearchIndexes => Meta(ids.workerOwner, ids.gatewayGroup, 0x5E8)
    case Work | Releases => Meta(ids.workerOwner, ids.workerGroup, 0x1E8)
    case RuntimeDirectory => Meta(ids.queueOwner, ids.ingressGroup, 0x5E8)
  }

  // `mode & 0o022 == 0`.
  predicate NotWritableByOthers(mode: nat) {
    (mode / 16) % 2 == 0 && (mode / 2) % 2 == 0
  }

  /* ---------------- what a run does to one slot ---------------- */

  function ActOn(slot: Slot, action: Action, p: Permits): Slot {
    match slot
    case Absent => if action.Make? then Directory(p.made, Vacant, false, Current) else Absent
    case NotDirectory => NotDirectory
    case Directory(meta, fill, normal, binding) =>
      match action
      case Make => slot
      case Own => slot.(meta := Meta(p.first.uid, p.first.gid, meta.mode))
      case Restrict => slot.(meta := meta.(mode := p.first.mode))
      case BeginFill => slot.(fill := Partial)
      case EndFill => slot.(fill := Initialised, binding := Current)
      case BeginTree => slot.(normal := false)
      case OwnTree => slot.(meta := Meta(p.target.uid, p.target.gid, meta.mode))
      case EndTree => slot.(meta := meta.(mode := p.target.mode), normal := true)
      case CreateBinding => slot.(binding := if binding == Legacy then Replacing else binding)
      case OwnBinding => slot
      case PermitBinding => slot.(binding := if binding == Replacing then Legacy else binding)
      case RenameBinding => slot.(binding := Current)
  }

  predicate Completed(slot: Slot, target: Meta) {
    slot.Directory? && slot.meta == target && slot.fill == Initialised && slot.normal && slot.binding != Replacing
  }

  function SlotOf(v: Volume, part: Part): Slot {
    if part in v.parts then v.parts[part] else Absent
  }

  // `validate_durable_initialized`: the storage root and every configured root in it.
  predicate DurableInitialized(v: Volume, c: Configuration) {
    && SlotOf(v, StorageRoot).Directory? && SlotOf(v, StorageRoot).meta == TargetMeta(StorageRoot, c.ids)
    && (forall i :: 0 <= i < |PartsOf(c)| ==> Completed(SlotOf(v, PartsOf(c)[i]), TargetMeta(PartsOf(c)[i], c.ids)))
  }

  predicate RuntimeInitialized(v: Volume, c: Configuration) {
    var runtime := SlotOf(v, RuntimeDirectory);
    runtime.Directory? && runtime.normal && runtime.meta == TargetMeta(RuntimeDirectory, c.ids)
  }

  // `validate_initialized`.
  predicate Initialized(v: Volume, c: Configuration) {
    DurableInitialized(v, c) && RuntimeInitialized(v, c)
  }

  /* ---------------- steps ---------------- */

  predicate Passes(v: Volume, step: Step, c: Configuration) {
    && (step.ValidateDurable? ==> DurableInitialized(v, c))
    && (step.Validate? ==> Initialized(v, c))
  }

  function Apply(v: Volume, step: Step, c: Configuration): Volume {
    match step
    case On(part, action) =>
      v.(parts := v.parts[part := ActOn(SlotOf(v, part), action, PermitsOf(part, c.ids))])
    case ValidateDurable => v
    case Validate => v
    case WriteTemporary => v.(stray := true)
    case RenameMarker =>
      v.(stray := false, marker := Some(MarkerOf(c)), certified := Initialized(v, c))
  }

  function Execute(v: Volume, steps: seq<Step>, c: Configuration): Volume {
    if steps == [] then v else Apply(Execute(v, steps[..|steps| - 1], c), steps[|steps| - 1], c)
  }

  /* ---------------- plans ---------------- */

  function Each(parts: seq<Part>, actions: seq<Action>): seq<Step> {
    if parts == [] then []
    else Each(parts[..|parts| - 1], actions) + For(parts[|parts| - 1], actions)
  }

  function For(part: Part, actions: seq<Action>): (steps: seq<Step>)
    ensures |steps| == |actions|
  {
    seq(|actions|, i requires 0 <= i < |actions| => On(part, actions[i]))
  }

  const MAKE: seq<Action> := [Make]
  const RESTRICT: seq<Action> := [Own, Restrict]
  const FILL: seq<Action> := [BeginFill, EndFill]
  const NORMALISE: seq<Action> := [BeginTree, OwnTree, EndTree]

  // `initialize_runtime_directory`.
  const RUNTIME: seq<Step> := For(RuntimeDirectory, MAKE + NORMALISE)

  // Everything before the first contents.
  function Preparation(c: Configuration): seq<Step> {
    For(StorageRoot, MAKE) + Each(PartsOf(c), MAKE) + For(StorageRoot, RESTRICT) + Each(PartsOf(c), RESTRICT) + RUNTIME
  }

  function Completion(c: Configuration): seq<Step> {
    Each(PartsOf(c), FILL) + Each(PartsOf(c), NORMALISE)
  }

  const MARKING: seq<Step> := [Validate, WriteTemporary, RenameMarker]

  function UnmarkedPlan(c: Configuration): seq<Step> {
    Preparation(c) + Completion(c) + MARKING
  }

  // A directory that `require_safe_empty_or_absent` lets through.
  predicate SafeEmptyOrAbsent(slot: Slot, administrator: nat) {
    || slot.Absent?
    || (slot.Directory? && slot.fill == Vacant && slot.meta.uid == administrator && NotWritableByOthers(slot.meta.mode))
  }

  predicate EmptyOrAbsent(slot: Slot) {
    slot.Absent? || (slot.Directory? && slot.fill == Vacant)
  }

  // The storage root must be the administrator's; its contents are judged part by part.
  predicate RootAccepted(slot: Slot, administrator: nat) {
    slot.Absent? || (slot.Directory? && slot.meta.uid == administrator && NotWritableByOthers(slot.meta.mode))
  }

  // An entry of the storage root that is not among the configured roots.
  predicate Unexpected(v: Volume, c: Configuration) {
    v.stray || (!c.searchIndexes && !SlotOf(v, SearchIndexes).Absent?)
  }

  // The checks of a run on storage without a marker.
  predicate Ready(v: Volume, c: Configuration) {
    && EmptyOrAbsent(SlotOf(v, RuntimeDirectory))
    && RootAccepted(SlotOf(v, StorageRoot), c.ids.administrativeOwner)
    && !Unexpected(v, c)
    && (forall i :: 0 <= i < |PartsOf(c)| ==>
          SafeEmptyOrAbsent(SlotOf(v, PartsOf(c)[i]), c.ids.administrativeOwner))
  }

  datatype Provisioning = Nothing | Provision | Refuse

  // `provision_search_index_storage` on what it finds.
  function ProvisioningOf(v: Volume, c: Configuration): Provisioning {
    if !c.searchIndexes then
      Nothing
    else
      match SlotOf(v, SearchIndexes)
      case Absent => Provision
      case NotDirectory => Refuse
      case Directory(meta, fill, _, _) =>
        if meta.uid == c.ids.administrativeOwner && meta.mode == PRIVATE then
          if fill == Vacant then Provision else Refuse
        else
          Nothing
  }

  const PROVISION: seq<Action> := MAKE + RESTRICT + FILL + NORMALISE

  // The checks of a run on marked storage.
  predicate Rerunnable(v: Volume, c: Configuration) {
    && EmptyOrAbsent(SlotOf(v, RuntimeDirectory))
    && SlotOf(v, StorageRoot).Directory? && SlotOf(v, StorageRoot).meta == TargetMeta(StorageRoot, c.ids)
    && v.marker == Some(MarkerOf(c))
    && ProvisioningOf(v, c) != Refuse
  }

  function ProvisionSteps(v: Volume, c: Configuration): seq<Step> {
    if ProvisioningOf(v, c) == Provision then For(SearchIndexes, PROVISION) else []
  }

  // `migrate_legacy_queue_binding`: the replacement is created, given the owner and the mode
  // of the old file, and renamed into place.
  const REBIND: seq<Action> := [CreateBinding, OwnBinding, PermitBinding, RenameBinding]

  predicate LegacyBound(v: Volume) {
    SlotOf(v, Queue).Directory? && SlotOf(v, Queue).binding == Legacy
  }

  function RebindSteps(v: Volume): seq<Step> {
    if LegacyBound(v) then For(Queue, REBIND) else []
  }

  function MarkedPlan(v: Volume, c: Configuration): seq<Step> {
    ProvisionSteps(v, c) + [ValidateDurable] + RebindSteps(v) + RUNTIME + [Validate]
  }

  // None: refused before the first step.
  function PlanFor(v: Volume, c: Configuration): Option<seq<Step>> {
    if v.marker.Some? then
      if Rerunnable(v, c) then Some(MarkedPlan(v, c)) else None
    else
      if Ready(v, c) then Some(UnmarkedPlan(c)) else None
  }

  /* ---------------- runs ---------------- */

  // The volume and what the current run has left to do.
  datatype State = State(volume: Volume, configuration: Configuration, remaining: seq<Step>)

  datatype Event =
    | Launch(configuration: Configuration)
    | Advance
    | Stop
    | Fail
    | Serve(volume: Volume)

  // Outside a run anyone may change anything but the marker.
  predicate Enabled(s: State, e: Event) {
    match e
    case Launch(_) => s.remaining == []
    case Advance => s.remaining != []
    case Stop => true
    case Fail => true
    case Serve(v) => s.remaining == [] && v.marker == s.volume.marker && v.certified == s.volume.certified
  }

  // An error inside the binding migration removes the replacement; other errors undo nothing.
  function Undone(v: Volume, remaining: seq<Step>): Volume {
    var queue := SlotOf(v, Queue);
    if && remaining != [] && remaining[0].On? && remaining[0].part == Queue
       && (remaining[0].action == OwnBinding || remaining[0].action == PermitBinding)
       && queue.Directory? && queue.binding == Replacing
    then v.(parts := v.parts[Queue := queue.(binding := Legacy)])
    else v
  }

  function Next(s: State, e: Event): State
    requires Enabled(s, e)
  {
    match e
    case Launch(c) => State(s.volume, c, PlanFor(s.volume, c).GetOr([]))
    case Advance =>
      if Passes(s.volume, s.remaining[0], s.configuration) then
        State(Apply(s.volume, s.remaining[0], s.configuration), s.configuration, s.remaining[1..])
      else
        s.(remaining := [])
    case Stop => s.(remaining := [])
    case Fail => State(Undone(s.volume, s.remaining), s.configuration, [])
    case Serve(v) => s.(volume := v)
  }

  predicate Legal(s: State, events: seq<Event>)
    decreases |events|
  {
    events == [] || (Enabled(s, events[0]) && Legal(Next(s, events[0]), events[1..]))
  }

  function Run(s: State, events: seq<Event>): State
    requires Legal(s, events)
    decreases |events|
  {
    if events == [] then s else Run(Next(s, events[0]), events[1..])
  }
}
