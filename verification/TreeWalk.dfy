/**
 The four recursive walks of storage administration: preflight, migrate, validate and
 fingerprint. The tree does not change while a walk runs; metadata is what migrate writes.
 */
module TreeWalk {
  import opened Wrappers
  import opened ObjectTree
  import opened TreeFingerprint
  import opened TreePolicy
  import opened TreeVisits
  import HardLinks

  /* ---------------- counters ---------------- */

  // `record_migration_object`.
  function CountObject(entries: nat, pathBytes: nat, path: Path): Option<(nat, nat)> {
    var nextEntries, nextBytes := entries + 1, pathBytes + |Render(path)|;
    if Fits(nextEntries, nextBytes) then Some((nextEntries, nextBytes)) else None
  }

  class MigrationBudget {
    var entries: nat
    var pathBytes: nat

    constructor ()
      ensures entries == 0 && pathBytes == 0
    {
      entries, pathBytes := 0, 0;
    }

    method Record(path: Path) returns (r: Result<(), Error>)
      modifies this
      ensures r.Success? <==> Fits(old(entries) + 1, old(pathBytes) + |Render(path)|)
      ensures r.Success? ==> entries == old(entries) + 1 && pathBytes == old(pathBytes) + |Render(path)|
    {
      var next := CountObject(entries, pathBytes, path);
      if next.None? {
        return Failure(MigrationLimitExceeded(path));
      }
      entries, pathBytes := next.value.0, next.value.1;
      return Success(());
    }
  }

  // The digest is kept as the stream that was fed to it.
  class TreeFingerprintBuilder {
    var entries: nat
    var pathBytes: nat
    var stream: string
    ghost var records: seq<Record>

    ghost predicate Valid()
      reads this
    {
      stream == Stream(records)
    }

    // The progress of a walk that feeds this builder.
    ghost function View(links: HardLinks.Inventory, meta: Metadata, log: seq<Write>): Visit
      reads this
    {
      Visit(entries, pathBytes, records, links, meta, log)
    }

    constructor ()
      ensures Valid() && entries == 0 && pathBytes == 0 && records == []
    {
      entries, pathBytes, stream, records := 0, 0, "", [];
      assert Stream([]) == "";
    }

    method Record(path: Path, identity: Identity) returns (r: Result<(), Error>)
      requires Valid()
      modifies this
      ensures Valid()
      ensures Fits(old(entries) + 1, old(pathBytes) + |Render(path)|) ==>
                && r.Success?
                && entries == old(entries) + 1 && pathBytes == old(pathBytes) + |Render(path)|
                && records == old(records) + [TreeFingerprint.Record(path, identity)]
      ensures !Fits(old(entries) + 1, old(pathBytes) + |Render(path)|) ==>
                r == Failure(MigrationLimitExceeded(path))
    {
      var next := CountObject(entries, pathBytes, path);
      if next.None? {
        return Failure(MigrationLimitExceeded(path));
      }
      entries, pathBytes := next.value.0, next.value.1;
      var text := Render(path);
      ghost var own := [TreeFingerprint.Record(path, identity)];
      StreamAppend(records, own);
      StreamHead(own);
      stream := stream + (BigEndian(|text|, 8) + text + EncodeIdentity(identity));
      records := records + own;
      return Success(());
    }
  }

  // Two fingerprints are equal exactly when counters and streams are.
  datatype Fingerprint = Fingerprint(entries: nat, pathBytes: nat, digest: string)

  /* ---------------- entries ---------------- */

  // The sorted entries of a directory, refused beyond the limit.
  method DirectoryEntries(f: Forest, path: Path) returns (r: Result<Forest, Error>)
    requires WellFormedForest(f)
    ensures r.Success? <==> Length(f) <= MAXIMUM_ENTRIES
    ensures r.Success? ==> r.value == Sort(f)
    ensures r.Failure? ==> r.error == MigrationLimitExceeded(path)
  {
    var names, count, rest := Empty, 0, f;
    while rest.Entry?
      invariant WellFormedForest(rest) && Sorted(names)
      invariant count + Length(rest) == Length(f) && count <= MAXIMUM_ENTRIES
      invariant forall n :: Find(names, n).Some? ==> Find(rest, n).None?
      invariant forall n :: Find(f, n) == if Find(names, n).Some? then Find(names, n) else Find(rest, n)
      decreases rest
    {
      if count >= MAXIMUM_ENTRIES {
        return Failure(MigrationLimitExceeded(path));
      }
      assert Find(rest, rest.name).Some?;
      InsertSorted(rest.name, rest.node, names);
      forall n ensures Find(Insert(rest.name, rest.node, names), n)
                    == if n == rest.name then Some(rest.node) else Find(names, n) {
        FindInsert(rest.name, rest.node, names, n);
      }
      names, count, rest := Insert(rest.name, rest.node, names), count + 1, rest.rest;
    }
    SortCorrect(f);
    SortedExtensional(names, Sort(f));
    return Success(names);
  }

  /* ---------------- preflight ---------------- */

  // Walks in the order the kernel lists; fails exactly on an unacceptable tree.
  method PreflightDirectory(node: Node, depth: nat, path: Path, budget: MigrationBudget, policy: Policy)
    returns (r: Result<(), Error>)
    requires WellFormed(node) && node.IsDirectory()
    modifies budget
    ensures r.Success? <==>
            WalkPasses(node, depth, path, policy, old(budget.entries), old(budget.pathBytes)) && AclFree(node)
    ensures r.Success? ==>
              && budget.entries == old(budget.entries) + Count(node)
              && budget.pathBytes == old(budget.pathBytes) + PathBytes(node, path)
    decreases Size(node)
  {
    if depth > MAXIMUM_DEPTH {
      return Failure(UnsafeEntry(path));
    }
    if node.acl {
      return Failure(PosixAcl(path));
    }
    r := budget.Record(path);
    if r.Failure? {
      return;
    }
    var rest := node.entries;
    while rest.Entry?
      invariant ForestSize(rest) < Size(node) && WellFormedForest(rest)
      invariant Fits(budget.entries, budget.pathBytes)
      invariant ForestTraversable(node.entries, depth, policy) <==> ForestTraversable(rest, depth, policy)
      invariant ForestAclFree(node.entries) <==> ForestAclFree(rest)
      invariant budget.entries + ForestCount(rest) == old(budget.entries) + Count(node)
      invariant budget.pathBytes + ForestPathBytes(rest, path) == old(budget.pathBytes) + PathBytes(node, path)
      decreases ForestSize(rest)
    {
      var child, childPath := rest.node, path + [rest.name];
      if child.IsDirectory() {
        r := PreflightDirectory(child, depth + 1, childPath, budget, policy);
      } else if AcceptableLeaf(child.identity, policy) {
        assert child.entries == Empty && ForestAclFree(Empty);
        if child.IsRegular() && child.acl {
          return Failure(PosixAcl(childPath));
        }
        r := budget.Record(childPath);
      } else {
        return Failure(UnsafeEntry(childPath));
      }
      if r.Failure? {
        return;
      }
      rest := rest.rest;
    }
    return Success(());
  }

  /* ---------------- fingerprint ---------------- */

  // A walk returned what the visit says, and on success reached the state it says.
  ghost predicate Follows(r: Result<(), Error>, after: Visit, spec: Result<Visit, Error>) {
    match r
    case Success(_) => spec == Success(after)
    case Failure(error) => spec == Failure(error)
  }

  method FingerprintLeaf(
    node: Node, path: Path, builder: TreeFingerprintBuilder, policy: Policy, inventory: HardLinks.HardLinkInventory
  )
    returns (r: Result<(), Error>)
    requires builder.Valid()
    modifies builder, inventory
    ensures builder.Valid()
    ensures Follows(r, builder.View(inventory.files, map[], []),
                    VisitLeaf(old(builder.View(inventory.files, map[], [])), node, path, policy, Fingerprinting))
  {
    if !AcceptableLeaf(node.identity, policy) {
      return Failure(UnsafeEntry(path));
    }
    ghost var start := builder.View(inventory.files, map[], []);
    if node.IsRegular() && policy.hardLinks {
      var observed := inventory.Record(path, node.identity);
      if observed.Failure? {
        return Failure(HardLink(observed.error));
      }
    }
    ghost var counted := builder.View(inventory.files, map[], []);
    assert CountLinks(start, path, node, policy) == Success(counted);
    r := builder.Record(path, node.identity);
    assert Follows(r, builder.View(inventory.files, map[], []), Note(counted, path, node.identity));
  }

  method FingerprintEntry(
    node: Node, depth: nat, path: Path, builder: TreeFingerprintBuilder, policy: Policy,
    inventory: HardLinks.HardLinkInventory
  )
    returns (r: Result<(), Error>)
    requires WellFormed(node) && builder.Valid()
    modifies builder, inventory
    ensures builder.Valid()
    ensures Follows(r, builder.View(inventory.files, map[], []),
                    VisitNode(old(builder.View(inventory.files, map[], [])), node, depth, path, policy, Fingerprinting))
    decreases Size(node), 1
  {
    if node.IsDirectory() {
      r := FingerprintDirectory(node, depth, path, builder, policy, inventory);
    } else {
      r := FingerprintLeaf(node, path, builder, policy, inventory);
    }
  }

  method FingerprintEntries(
    entries: Forest, depth: nat, path: Path, builder: TreeFingerprintBuilder, policy: Policy,
    inventory: HardLinks.HardLinkInventory
  )
    returns (r: Result<(), Error>)
    requires WellFormedForest(entries) && builder.Valid()
    modifies builder, inventory
    ensures builder.Valid()
    ensures Follows(r, builder.View(inventory.files, map[], []),
                    VisitForest(old(builder.View(inventory.files, map[], [])), entries, depth, path, policy, Fingerprinting))
    decreases ForestSize(entries), 0
  {
    var rest := entries;
    while rest.Entry?
      invariant builder.Valid() && ForestSize(rest) <= ForestSize(entries) && WellFormedForest(rest)
      invariant VisitForest(old(builder.View(inventory.files, map[], [])), entries, depth, path, policy, Fingerprinting)
             == VisitForest(builder.View(inventory.files, map[], []), rest, depth, path, policy, Fingerprinting)
      decreases ForestSize(rest)
    {
      r := FingerprintEntry(rest.node, depth + 1, path + [rest.name], builder, policy, inventory);
      if r.Failure? {
        return;
      }
      rest := rest.rest;
    }
    return Success(());
  }

  // A directory itself, after its entries.
  method FingerprintOwn(
    node: Node, path: Path, builder: TreeFingerprintBuilder, ghost policy: Policy, ghost links: HardLinks.Inventory
  )
    returns (r: Result<(), Error>)
    requires node.IsDirectory() && builder.Valid()
    modifies builder
    ensures builder.Valid()
    ensures Follows(r, builder.View(links, map[], []),
                    VisitObject(old(builder.View(links, map[], [])), node, path, policy, Fingerprinting))
  {
    ghost var visited := builder.View(links, map[], []);
    assert VisitObject(visited, node, path, policy, Fingerprinting) == Note(visited, path, node.identity);
    r := builder.Record(path, node.identity);
  }

  // Walks in sorted order, step by step as the visit says.
  method FingerprintDirectory(
    node: Node, depth: nat, path: Path, builder: TreeFingerprintBuilder, policy: Policy,
    inventory: HardLinks.HardLinkInventory
  )
    returns (r: Result<(), Error>)
    requires WellFormed(node) && node.IsDirectory() && builder.Valid()
    modifies builder, inventory
    ensures builder.Valid()
    ensures Follows(r, builder.View(inventory.files, map[], []),
                    VisitDirectory(old(builder.View(inventory.files, map[], [])), node, depth, path, policy, Fingerprinting))
    decreases Size(node), 0
  {
    if depth > MAXIMUM_DEPTH {
      return Failure(UnsafeEntry(path));
    }
    SortCorrect(node.entries);
    var entries := DirectoryEntries(node.entries, path);
    if entries.Failure? {
      return Failure(entries.error);
    }
    r := FingerprintEntries(entries.value, depth, path, builder, policy, inventory);
    if r.Failure? {
      return;
    }
    r := FingerprintOwn(node, path, builder, policy, inventory.files);
  }

  /* ---------------- migrate ---------------- */

  // The metadata of the walked objects, and the writes that produced it.
  class Storage {
    var meta: Metadata
    ghost var log: seq<Write>

    constructor (meta: Metadata)
      ensures this.meta == meta && log == []
    {
      this.meta, log := meta, [];
    }

    // A change of ownership that would change nothing is skipped; the log has it anyway.
    method SetIdentityAndMode(path: Path, identity: Identity, p: Permissions, mode: nat)
      requires mode == ModeFor(identity, p)
      modifies this
      ensures meta == ApplyAll(old(meta), WritesFor(Record(path, identity), p))
      ensures log == old(log) + WritesFor(Record(path, identity), p)
    {
      ghost var chown, chmod := Chown(path, identity, p.owner, p.group), Chmod(path, identity, mode);
      ghost var before := meta;
      if identity in meta {
        var m := meta[identity];
        var owner := if p.owner.Some? && m.uid != p.owner.value then p.owner else None;
        var group := if m.gid != p.group then Some(p.group) else None;
        if owner.Some? || group.Some? {
          meta := meta[identity := Meta(owner.GetOr(m.uid), group.GetOr(m.gid), m.mode)];
        }
        assert meta == ApplyWrite(before, chown);
        meta := meta[identity := meta[identity].(mode := mode)];
      }
      assert meta == ApplyWrite(ApplyWrite(before, chown), chmod);
      log := log + [chown, chmod];
      TwoWrites(before, chown, chmod);
    }
  }

  method MigrateLeaf(node: Node, path: Path, builder: TreeFingerprintBuilder, storage: Storage, p: Permissions)
    returns (r: Result<(), Error>)
    requires !node.IsDirectory() && builder.Valid()
    modifies builder, storage
    ensures builder.Valid()
    ensures Follows(r, builder.View(map[], storage.meta, storage.log),
                    VisitLeaf(old(builder.View(map[], storage.meta, storage.log)), node, path, STRICT, Migrating(p)))
  {
    if !(node.IsRegular() && node.identity.links == 1) {
      return Failure(UnsafeEntry(path));
    }
    ghost var start := builder.View(map[], storage.meta, storage.log);
    storage.SetIdentityAndMode(path, node.identity, p, p.fileMode);
    ghost var acted := builder.View(map[], storage.meta, storage.log);
    assert Act(Migrating(p), start, path, node) == Success(acted);
    r := builder.Record(path, node.identity);
    assert Follows(r, builder.View(map[], storage.meta, storage.log), Note(acted, path, node.identity));
  }

  method MigrateEntry(
    node: Node, depth: nat, path: Path, builder: TreeFingerprintBuilder, storage: Storage, p: Permissions
  )
    returns (r: Result<(), Error>)
    requires WellFormed(node) && builder.Valid()
    modifies builder, storage
    ensures builder.Valid()
    ensures Follows(r, builder.View(map[], storage.meta, storage.log),
                    VisitNode(old(builder.View(map[], storage.meta, storage.log)), node, depth, path, STRICT, Migrating(p)))
    decreases Size(node), 1
  {
    if node.IsDirectory() {
      r := MigrateDirectory(node, depth, path, builder, storage, p);
    } else {
      r := MigrateLeaf(node, path, builder, storage, p);
    }
  }

  method MigrateEntries(
    entries: Forest, depth: nat, path: Path, builder: TreeFingerprintBuilder, storage: Storage, p: Permissions
  )
    returns (r: Result<(), Error>)
    requires WellFormedForest(entries) && builder.Valid()
    modifies builder, storage
    ensures builder.Valid()
    ensures Follows(r, builder.View(map[], storage.meta, storage.log),
                    VisitForest(old(builder.View(map[], storage.meta, storage.log)), entries, depth, path, STRICT, Migrating(p)))
    decreases ForestSize(entries), 0
  {
    var rest := entries;
    while rest.Entry?
      invariant builder.Valid() && ForestSize(rest) <= ForestSize(entries) && WellFormedForest(rest)
      invariant VisitForest(old(builder.View(map[], storage.meta, storage.log)), entries, depth, path, STRICT, Migrating(p))
             == VisitForest(builder.View(map[], storage.meta, storage.log), rest, depth, path, STRICT, Migrating(p))
      decreases ForestSize(rest)
    {
      r := MigrateEntry(rest.node, depth + 1, path + [rest.name], builder, storage, p);
      if r.Failure? {
        return;
      }
      rest := rest.rest;
    }
    return Success(());
  }

  // A directory itself, after its entries.
  method MigrateOwn(node: Node, path: Path, builder: TreeFingerprintBuilder, storage: Storage, p: Permissions)
    returns (r: Result<(), Error>)
    requires node.IsDirectory() && builder.Valid()
    modifies builder, storage
    ensures builder.Valid()
    ensures Follows(r, builder.View(map[], storage.meta, storage.log),
                    VisitObject(old(builder.View(map[], storage.meta, storage.log)), node, path, STRICT, Migrating(p)))
  {
    ghost var visited := builder.View(map[], storage.meta, storage.log);
    storage.SetIdentityAndMode(path, node.identity, p, p.directoryMode);
    ghost var acted := builder.View(map[], storage.meta, storage.log);
    assert Act(Migrating(p), visited, path, node) == Success(acted);
    r := builder.Record(path, node.identity);
    assert Follows(r, builder.View(map[], storage.meta, storage.log), Note(acted, path, node.identity));
  }

  method MigrateDirectory(
    node: Node, depth: nat, path: Path, builder: TreeFingerprintBuilder, storage: Storage, p: Permissions
  )
    returns (r: Result<(), Error>)
    requires WellFormed(node) && node.IsDirectory() && builder.Valid()
    modifies builder, storage
    ensures builder.Valid()
    ensures Follows(r, builder.View(map[], storage.meta, storage.log),
                    VisitDirectory(old(builder.View(map[], storage.meta, storage.log)), node, depth, path, STRICT, Migrating(p)))
    decreases Size(node), 0
  {
    if depth > MAXIMUM_DEPTH {
      return Failure(UnsafeEntry(path));
    }
    SortCorrect(node.entries);
    var entries := DirectoryEntries(node.entries, path);
    if entries.Failure? {
      return Failure(entries.error);
    }
    r := MigrateEntries(entries.value, depth, path, builder, storage, p);
    if r.Failure? {
      return;
    }
    r := MigrateOwn(node, path, builder, storage, p);
  }

  /* ---------------- validate ---------------- */

  method ValidateObject(node: Node, path: Path, storage: Storage, p: Permissions, validation: Validation)
    returns (r: Result<(), Error>)
    ensures forall v: Visit :: v.meta == storage.meta ==>
              Follows(r, v, Act(Validating(p, validation), v, path, node))
  {
    if (node.IsDirectory() || node.IsRegular()) && node.acl {
      return Failure(PosixAcl(path));
    }
    if node.identity !in storage.meta {
      return Failure(UnsafeEntry(path));
    }
    var m := storage.meta[node.identity];
    var accepted;
    if node.IsDirectory() {
      accepted := MetadataMatches(m, p.owner, p.group, p.directoryMode, false);
    } else if node.IsRegular() {
      accepted := FileMetadataAccepted(m, path, p, validation);
    } else {
      accepted := MetadataMatches(m, p.owner, p.group, 0x1FF, false);
    }
    return if accepted then Success(()) else Failure(UnsafeEntry(path));
  }

  method ValidateLeaf(
    node: Node, path: Path, builder: TreeFingerprintBuilder, inventory: HardLinks.HardLinkInventory,
    storage: Storage, p: Permissions, validation: Validation
  )
    returns (r: Result<(), Error>)
    requires builder.Valid()
    modifies builder, inventory
    ensures builder.Valid()
    ensures Follows(r, builder.View(inventory.files, storage.meta, storage.log),
                    VisitLeaf(old(builder.View(inventory.files, storage.meta, storage.log)), node, path,
                              validation.policy, Validating(p, validation)))
  {
    if !AcceptableLeaf(node.identity, validation.policy) {
      return Failure(UnsafeEntry(path));
    }
    ghost var start := builder.View(inventory.files, storage.meta, storage.log);
    r := ValidateObject(node, path, storage, p, validation);
    assert Follows(r, start, Act(Validating(p, validation), start, path, node));
    if r.Failure? {
      return;
    }
    r := CountAndRecord(node, path, builder, inventory, storage, validation.policy);
  }

  // A file is counted where hard links are, and recorded.
  method CountAndRecord(
    node: Node, path: Path, builder: TreeFingerprintBuilder, inventory: HardLinks.HardLinkInventory, storage: Storage,
    policy: Policy
  )
    returns (r: Result<(), Error>)
    requires builder.Valid()
    modifies builder, inventory
    ensures builder.Valid()
    ensures var counted := CountLinks(old(builder.View(inventory.files, storage.meta, storage.log)), path, node, policy);
            Follows(r, builder.View(inventory.files, storage.meta, storage.log),
                    if counted.Failure? then counted else Note(counted.value, path, node.identity))
  {
    ghost var start := builder.View(inventory.files, storage.meta, storage.log);
    if node.IsRegular() && policy.hardLinks {
      var observed := inventory.Record(path, node.identity);
      if observed.Failure? {
        return Failure(HardLink(observed.error));
      }
    }
    ghost var counted := builder.View(inventory.files, storage.meta, storage.log);
    assert CountLinks(start, path, node, policy) == Success(counted);
    r := builder.Record(path, node.identity);
  }

  method ValidateEntry(
    node: Node, depth: nat, path: Path, builder: TreeFingerprintBuilder, inventory: HardLinks.HardLinkInventory,
    storage: Storage, p: Permissions, validation: Validation
  )
    returns (r: Result<(), Error>)
    requires WellFormed(node) && builder.Valid()
    modifies builder, inventory
    ensures builder.Valid()
    ensures Follows(r, builder.View(inventory.files, storage.meta, storage.log),
                    VisitNode(old(builder.View(inventory.files, storage.meta, storage.log)), node, depth, path,
                              validation.policy, Validating(p, validation)))
    decreases Size(node), 1
  {
    if node.IsDirectory() {
      r := ValidateDirectory(node, depth, path, builder, inventory, storage, p, validation);
    } else {
      r := ValidateLeaf(node, path, builder, inventory, storage, p, validation);
    }
  }

  method ValidateEntries(
    entries: Forest, depth: nat, path: Path, builder: TreeFingerprintBuilder, inventory: HardLinks.HardLinkInventory,
    storage: Storage, p: Permissions, validation: Validation
  )
    returns (r: Result<(), Error>)
    requires WellFormedForest(entries) && builder.Valid()
    modifies builder, inventory
    ensures builder.Valid()
    ensures Follows(r, builder.View(inventory.files, storage.meta, storage.log),
                    VisitForest(old(builder.View(inventory.files, storage.meta, storage.log)), entries, depth, path,
                                validation.policy, Validating(p, validation)))
    decreases ForestSize(entries), 0
  {
    var rest := entries;
    ghost var policy, mode := validation.policy, Validating(p, validation);
    while rest.Entry?
      invariant builder.Valid() && ForestSize(rest) <= ForestSize(entries) && WellFormedForest(rest)
      invariant VisitForest(old(builder.View(inventory.files, storage.meta, storage.log)), entries, depth, path, policy, mode)
             == VisitForest(builder.View(inventory.files, storage.meta, storage.log), rest, depth, path, policy, mode)
      decreases ForestSize(rest)
    {
      r := ValidateEntry(rest.node, depth + 1, path + [rest.name], builder, inventory, storage, p, validation);
      if r.Failure? {
        return;
      }
      rest := rest.rest;
    }
    return Success(());
  }

  // A directory itself, after its entries.
  method ValidateOwn(
    node: Node, path: Path, builder: TreeFingerprintBuilder, ghost links: HardLinks.Inventory,
    storage: Storage, p: Permissions, validation: Validation
  )
    returns (r: Result<(), Error>)
    requires node.IsDirectory() && builder.Valid()
    modifies builder
    ensures builder.Valid()
    ensures Follows(r, builder.View(links, storage.meta, storage.log),
                    VisitObject(old(builder.View(links, storage.meta, storage.log)), node, path,
                                validation.policy, Validating(p, validation)))
  {
    ghost var visited := builder.View(links, storage.meta, storage.log);
    r := ValidateObject(node, path, storage, p, validation);
    assert Follows(r, visited, Act(Validating(p, validation), visited, path, node));
    if r.Failure? {
      return;
    }
    r := builder.Record(path, node.identity);
    assert Follows(r, builder.View(links, storage.meta, storage.log), Note(visited, path, node.identity));
  }

  method ValidateDirectory(
    node: Node, depth: nat, path: Path, builder: TreeFingerprintBuilder, inventory: HardLinks.HardLinkInventory,
    storage: Storage, p: Permissions, validation: Validation
  )
    returns (r: Result<(), Error>)
    requires WellFormed(node) && node.IsDirectory() && builder.Valid()
    modifies builder, inventory
    ensures builder.Valid()
    ensures Follows(r, builder.View(inventory.files, storage.meta, storage.log),
                    VisitDirectory(old(builder.View(inventory.files, storage.meta, storage.log)), node, depth, path,
                                   validation.policy, Validating(p, validation)))
    decreases Size(node), 0
  {
    if depth > MAXIMUM_DEPTH {
      return Failure(UnsafeEntry(path));
    }
    SortCorrect(node.entries);
    var entries := DirectoryEntries(node.entries, path);
    if entries.Failure? {
      return Failure(entries.error);
    }
    r := ValidateEntries(entries.value, depth, path, builder, inventory, storage, p, validation);
    if r.Failure? {
      return;
    }
    r := ValidateOwn(node, path, builder, inventory.files, storage, p, validation);
  }
}
