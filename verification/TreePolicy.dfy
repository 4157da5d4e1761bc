/** What the storage walkers accept: depth, object types, links, access lists, budgets. */
module TreePolicy {
  import opened Wrappers
  import opened ObjectTree
  import opened TreeFingerprint

  const MAXIMUM_DEPTH := 128
  const MAXIMUM_ENTRIES := 1_000_000
  const MAXIMUM_PATH_BYTES := 512 * 1024 * 1024

  // Which leaves beside singly linked regular files are allowed.
  datatype Policy = Policy(symlinks: bool, hardLinks: bool)

  const STRICT := Policy(false, false)

  predicate AcceptableLeaf(i: Identity, policy: Policy) {
    || (i.fileType == S_IFREG && (i.links == 1 || policy.hardLinks))
    || (policy.symlinks && i.fileType == S_IFLNK && i.links == 1)
  }

  predicate Traversable(node: Node, depth: nat, policy: Policy) {
    if node.IsDirectory() then
      depth <= MAXIMUM_DEPTH && ForestTraversable(node.entries, depth, policy)
    else
      AcceptableLeaf(node.identity, policy)
  }

  predicate ForestTraversable(f: Forest, depth: nat, policy: Policy) {
    match f
    case Empty => true
    case Entry(_, node, rest) =>
      Traversable(node, depth + 1, policy) && ForestTraversable(rest, depth, policy)
  }

  // No directory or regular file carries an access-control list.
  predicate AclFree(node: Node) {
    (node.IsDirectory() || node.IsRegular() ==> !node.acl) && ForestAclFree(node.entries)
  }

  predicate ForestAclFree(f: Forest) {
    match f
    case Empty => true
    case Entry(_, node, rest) => AclFree(node) && ForestAclFree(rest)
  }

  function Count(node: Node): nat {
    1 + ForestCount(node.entries)
  }

  function ForestCount(f: Forest): nat {
    match f
    case Empty => 0
    case Entry(_, node, rest) => Count(node) + ForestCount(rest)
  }

  function PathBytes(node: Node, path: Path): nat {
    |Render(path)| + ForestPathBytes(node.entries, path)
  }

  function ForestPathBytes(f: Forest, path: Path): nat {
    match f
    case Empty => 0
    case Entry(name, node, rest) => PathBytes(node, path + [name]) + ForestPathBytes(rest, path)
  }

  function Length(f: Forest): nat {
    if f.Empty? then 0 else 1 + Length(f.rest)
  }

  predicate Fits(entries: nat, pathBytes: nat) {
    entries <= MAXIMUM_ENTRIES && pathBytes <= MAXIMUM_PATH_BYTES
  }

  // The verdict of a preflight with an empty budget.
  predicate PreflightPasses(root: Node, policy: Policy) {
    Traversable(root, 0, policy) && AclFree(root) && Fits(Count(root), PathBytes(root, []))
  }

  // A walk that starts with `entries` and `bytes` on its counters.
  predicate WalkPasses(node: Node, depth: nat, path: Path, policy: Policy, entries: nat, bytes: nat) {
    Traversable(node, depth, policy) && Fits(entries + Count(node), bytes + PathBytes(node, path))
  }

  // What the strict policy traverses, every other traverses.
  lemma {:induction false} StrictTraversable(node: Node, depth: nat, policy: Policy)
    requires Traversable(node, depth, STRICT)
    ensures Traversable(node, depth, policy)
  {
    if node.IsDirectory() {
      StrictForestTraversable(node.entries, depth, policy);
    }
  }

  lemma {:induction false} StrictForestTraversable(f: Forest, depth: nat, policy: Policy)
    requires ForestTraversable(f, depth, STRICT)
    ensures ForestTraversable(f, depth, policy)
  {
    if f.Empty? {
    } else {
      StrictTraversable(f.node, depth + 1, policy);
      StrictForestTraversable(f.rest, depth, policy);
    }
  }

  /* ---------------- the order of entries does not matter ---------------- */

  lemma {:induction false} InsertKeeps(name: Name, node: Node, f: Forest, path: Path, depth: nat, policy: Policy)
    ensures var g := Insert(name, node, f);
            && (ForestTraversable(g, depth, policy) <==>
                Traversable(node, depth + 1, policy) && ForestTraversable(f, depth, policy))
            && ForestCount(g) == Count(node) + ForestCount(f)
            && ForestPathBytes(g, path) == PathBytes(node, path + [name]) + ForestPathBytes(f, path)
            && (ForestAclFree(g) <==> AclFree(node) && ForestAclFree(f))
  {
    if f.Empty? {
    } else {
      InsertKeeps(name, node, f.rest, path, depth, policy);
    }
  }

  lemma {:induction false} SortKeeps(f: Forest, path: Path, depth: nat, policy: Policy)
    ensures ForestTraversable(Sort(f), depth, policy) <==> ForestTraversable(f, depth, policy)
    ensures ForestCount(Sort(f)) == ForestCount(f)
    ensures ForestPathBytes(Sort(f), path) == ForestPathBytes(f, path)
    ensures ForestAclFree(Sort(f)) <==> ForestAclFree(f)
  {
    if f.Empty? {
    } else {
      SortKeeps(f.rest, path, depth, policy);
      InsertKeeps(f.name, f.node, Sort(f.rest), path, depth, policy);
    }
  }

  lemma {:induction false} LengthBound(f: Forest)
    ensures Length(f) <= ForestCount(f)
  {
    if f.Empty? {
    } else {
      LengthBound(f.rest);
    }
  }

  /* ---------------- metadata ---------------- */

  datatype Meta = Meta(uid: nat, gid: nat, mode: nat)

  datatype Permissions = Permissions(owner: Option<nat>, group: nat, directoryMode: nat, fileMode: nat)

  // The owner of the files that Worker keeps in the queue, and which names are request
  // identifiers and names of its temporary files.
  datatype WorkerFiles = WorkerFiles(owner: nat, isRequest: string -> bool, isTemporary: string -> bool)

  datatype Validation = Validation(
    policy: Policy,
    allowReadOnlyFiles: bool,
    allowTantivyReaderLock: bool,
    alternateFileMode: Option<nat>,
    workerFiles: Option<WorkerFiles>
  )

  const STRICT_VALIDATION := Validation(STRICT, false, false, None, None)
  const SEARCH_INDEX_VALIDATION := Validation(Policy(true, true), false, true, None, None)
  const REPOSITORY_VALIDATION := STRICT_VALIDATION.(allowReadOnlyFiles := true)
  const RELEASE_VALIDATION := Validation(Policy(true, false), true, false, Some(0x124), None)

  function QueueValidation(files: WorkerFiles): Validation {
    STRICT_VALIDATION.(workerFiles := Some(files))
  }

  // `mode & !0o200`.
  function WithoutOwnerWrite(mode: nat): nat {
    if (mode / 128) % 2 == 1 then mode - 128 else mode
  }

  predicate MetadataMatches(m: Meta, owner: Option<nat>, group: nat, mode: nat, allowOwnerWriteMissing: bool) {
    && (owner.None? || m.uid == owner.value)
    && m.gid == group
    && (m.mode == mode || (allowOwnerWriteMissing && m.mode == WithoutOwnerWrite(mode)))
  }

  predicate TantivyReaderLock(path: Path) {
    && |path| == 4
    && (path[0] == "by-id" || path[0] == ".staging")
    && path[2] == "tantivy"
    && path[3] == ".tantivy-meta.lock"
  }

  predicate WorkerOwned(path: Path, files: WorkerFiles) {
    || (|path| == 2 && path[0] == "worker-tmp" && files.isTemporary(path[1]))
    || (|path| == 3 && path[0] in ["pending", "processing", "completed", "failed"]
        && files.isRequest(path[1]) && path[2] in ["phase.json", "result.json"])
  }

  predicate FileMetadataAccepted(m: Meta, path: Path, p: Permissions, v: Validation) {
    || MetadataMatches(m, p.owner, p.group, p.fileMode, v.allowReadOnlyFiles)
    || (v.alternateFileMode.Some? && MetadataMatches(m, p.owner, p.group, v.alternateFileMode.value, false))
    || (v.allowTantivyReaderLock && TantivyReaderLock(path)
        && MetadataMatches(m, p.owner, p.group, 0x1B0, false))
    || (v.workerFiles.Some? && WorkerOwned(path, v.workerFiles.value)
        && MetadataMatches(m, Some(v.workerFiles.value.owner), p.group, 0x1A0, false))
  }

  predicate MetadataAccepted(m: Meta, r: Record, p: Permissions, v: Validation) {
    if r.identity.fileType == S_IFDIR then MetadataMatches(m, p.owner, p.group, p.directoryMode, false)
    else if r.identity.fileType == S_IFREG then FileMetadataAccepted(m, r.path, p, v)
    else MetadataMatches(m, p.owner, p.group, 0x1FF, false)
  }

  // Every validation only adds to what the strict one accepts.
  lemma StrictMetadata(m: Meta, r: Record, p: Permissions, v: Validation)
    requires MetadataAccepted(m, r, p, STRICT_VALIDATION)
    ensures MetadataAccepted(m, r, p, v)
  {
    var i := r.identity.fileType;
    if i == S_IFREG {
      assert MetadataMatches(m, p.owner, p.group, p.fileMode, false);
    }
  }

  // The metadata of every object that can be reached, keyed by its identity.
  type Metadata = map<Identity, Meta>

  predicate Covers(meta: Metadata, records: seq<Record>) {
    forall i :: 0 <= i < |records| ==> records[i].identity in meta
  }

  predicate AllAccepted(meta: Metadata, records: seq<Record>, p: Permissions, v: Validation)
    requires Covers(meta, records)
  {
    forall i :: 0 <= i < |records| ==> MetadataAccepted(meta[records[i].identity], records[i], p, v)
  }

  // The regular files of a listing, which the hard-link inventory sees.
  function RegularOf(records: seq<Record>): seq<Record> {
    if records == [] then
      []
    else
      var last := |records| - 1;
      RegularOf(records[..last])
      + if records[last].identity.fileType == S_IFREG then [records[last]] else []
  }

  lemma {:induction false} RegularOnly(records: seq<Record>)
    ensures forall k :: 0 <= k < |RegularOf(records)| ==>
              RegularOf(records)[k] in records && RegularOf(records)[k].identity.fileType == S_IFREG
  {
    if records == [] {
    } else {
      var last := |records| - 1;
      RegularOnly(records[..last]);
      assert forall r | r in records[..last] :: r in records;
    }
  }

  lemma {:induction false} RegularAppend(a: seq<Record>, b: seq<Record>)
    ensures RegularOf(a + b) == RegularOf(a) + RegularOf(b)
    decreases |b|
  {
    if b == [] {
      assert a + b == a;
    } else {
      var c := a + b;
      assert c[..|c| - 1] == a + b[..|b| - 1];
      RegularAppend(a, b[..|b| - 1]);
    }
  }
}
