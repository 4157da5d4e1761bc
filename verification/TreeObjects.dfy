/**
 What a validated tree is, object by object: every path below the root, the type, links and
 access list of what is there, and its owner, group and mode.
 */
module TreeObjects {
  import opened Wrappers
  import opened ObjectTree
  import opened TreeFingerprint
  import opened TreePolicy
  import opened TreeVisits
  import opened TreeAdministration
  import HardLinks

  /* ---------------- objects by path ---------------- */

  function At(node: Node, path: Path): Option<Node>
    decreases |path|
  {
    if path == [] then
      Some(node)
    else
      match Find(node.entries, path[0])
      case None => None
      case Some(child) => At(child, path[1..])
  }

  // `ok` holds of every object of a tree whose root is at `base`.
  ghost predicate Everywhere(node: Node, base: Path, ok: (Node, Path) -> bool) {
    forall path :: At(node, path).Some? ==> ok(At(node, path).value, base + path)
  }

  ghost predicate EverywhereIn(f: Forest, base: Path, ok: (Node, Path) -> bool) {
    forall n :: Find(f, n).Some? ==> Everywhere(Find(f, n).value, base + [n], ok)
  }

  lemma Deeper(base: Path, path: Path)
    requires path != []
    ensures base + path == base + [path[0]] + path[1..]
  {
  }

  lemma EverywhereUnfolds(node: Node, base: Path, ok: (Node, Path) -> bool)
    ensures Everywhere(node, base, ok) <==> ok(node, base) && EverywhereIn(node.entries, base, ok)
  {
    if Everywhere(node, base, ok) {
      assert At(node, []) == Some(node) && base + [] == base;
      forall n | Find(node.entries, n).Some? ensures Everywhere(Find(node.entries, n).value, base + [n], ok) {
        var child := Find(node.entries, n).value;
        forall path | At(child, path).Some? ensures ok(At(child, path).value, base + [n] + path) {
          assert ([n] + path)[1..] == path;
          assert At(node, [n] + path) == At(child, path);
          Deeper(base, [n] + path);
        }
      }
    }
    if ok(node, base) && EverywhereIn(node.entries, base, ok) {
      forall path | At(node, path).Some? ensures ok(At(node, path).value, base + path) {
        if path == [] {
          assert base + path == base;
        } else {
          var child := Find(node.entries, path[0]).value;
          assert Everywhere(child, base + [path[0]], ok) && At(child, path[1..]).Some?;
          Deeper(base, path);
        }
      }
    }
  }

  lemma EverywhereInUnfolds(f: Forest, base: Path, ok: (Node, Path) -> bool)
    requires f.Entry? && Find(f.rest, f.name).None?
    ensures EverywhereIn(f, base, ok) <==> Everywhere(f.node, base + [f.name], ok) && EverywhereIn(f.rest, base, ok)
  {
    assert Find(f, f.name) == Some(f.node);
    if EverywhereIn(f, base, ok) {
      forall n | Find(f.rest, n).Some? ensures Everywhere(Find(f.rest, n).value, base + [n], ok) {
        assert Find(f, n) == Find(f.rest, n);
      }
    }
  }

  /* ---------------- shape and access lists ---------------- */

  // What a preflight lets through, one object at a time.
  predicate Allowed(node: Node, depth: nat, policy: Policy) {
    if node.identity.fileType == S_IFDIR then depth <= 128
    else if node.identity.fileType == S_IFREG then node.identity.links == 1 || policy.hardLinks
    else node.identity.fileType == S_IFLNK && policy.symlinks && node.identity.links == 1
  }

  function AllowedBy(policy: Policy): (Node, Path) -> bool {
    (n: Node, path: Path) => Allowed(n, |path|, policy)
  }

  lemma {:induction false} TraversableExact(node: Node, base: Path, policy: Policy)
    requires WellFormed(node)
    ensures Traversable(node, |base|, policy) <==> Everywhere(node, base, AllowedBy(policy))
    decreases node, 1
  {
    EverywhereUnfolds(node, base, AllowedBy(policy));
    ForestTraversableExact(node.entries, base, policy);
  }

  lemma {:induction false} ForestTraversableExact(f: Forest, base: Path, policy: Policy)
    requires WellFormedForest(f)
    ensures ForestTraversable(f, |base|, policy) <==> EverywhereIn(f, base, AllowedBy(policy))
    decreases f, 0
  {
    if f.Empty? {
    } else {
      TraversableExact(f.node, base + [f.name], policy);
      ForestTraversableExact(f.rest, base, policy);
      EverywhereInUnfolds(f, base, AllowedBy(policy));
    }
  }

  predicate NoList(node: Node) {
    node.identity.fileType == S_IFDIR || node.identity.fileType == S_IFREG ==> !node.acl
  }

  function WithoutList(): (Node, Path) -> bool {
    (n: Node, path: Path) => NoList(n)
  }

  lemma {:induction false} AclFreeExact(node: Node, base: Path)
    requires WellFormed(node)
    ensures AclFree(node) <==> Everywhere(node, base, WithoutList())
    decreases node, 1
  {
    EverywhereUnfolds(node, base, WithoutList());
    ForestAclFreeExact(node.entries, base);
  }

  lemma {:induction false} ForestAclFreeExact(f: Forest, base: Path)
    requires WellFormedForest(f)
    ensures ForestAclFree(f) <==> EverywhereIn(f, base, WithoutList())
    decreases f, 0
  {
    if f.Empty? {
    } else {
      AclFreeExact(f.node, base + [f.name]);
      ForestAclFreeExact(f.rest, base);
      EverywhereInUnfolds(f, base, WithoutList());
    }
  }

  /* ---------------- the listing ---------------- */

  ghost predicate AllRecords(records: seq<Record>, ok: Record -> bool) {
    forall i :: 0 <= i < |records| ==> ok(records[i])
  }

  // The same of an object and its path.
  function OnRecord(ok: Record -> bool): (Node, Path) -> bool {
    (n: Node, p: Path) => ok(Record(p, n.identity))
  }

  lemma AllAppend(a: seq<Record>, b: seq<Record>, ok: Record -> bool)
    ensures AllRecords(a + b, ok) <==> AllRecords(a, ok) && AllRecords(b, ok)
  {
    var c := a + b;
    assert forall i :: 0 <= i < |a| ==> c[i] == a[i];
    assert forall i :: 0 <= i < |b| ==> c[|a| + i] == b[i];
  }

  // The listing of a tree has one record for each of its objects and no other.
  lemma {:induction false} ListedExactly(node: Node, base: Path, ok: Record -> bool)
    requires WellFormed(node)
    ensures AllRecords(Records(node, base), ok) <==> Everywhere(node, base, OnRecord(ok))
    decreases Size(node), 1
  {
    var all, own := OnRecord(ok), [Record(base, node.identity)];
    var sorted := Sort(node.entries);
    SortCorrect(node.entries);
    ForestListedExactly(sorted, base, ok);
    assert Records(node, base) == SubtreeRecords(sorted, base) + own;
    AllAppend(SubtreeRecords(sorted, base), own, ok);
    assert AllRecords(own, ok) <==> ok(own[0]);
    SameEntries(sorted, node.entries, base, all);
    EverywhereUnfolds(node, base, all);
  }

  lemma SameEntries(f: Forest, g: Forest, base: Path, ok: (Node, Path) -> bool)
    requires forall n :: Find(f, n) == Find(g, n)
    ensures EverywhereIn(f, base, ok) <==> EverywhereIn(g, base, ok)
  {
  }

  lemma {:induction false} ForestListedExactly(f: Forest, base: Path, ok: Record -> bool)
    requires WellFormedForest(f)
    ensures AllRecords(SubtreeRecords(f, base), ok) <==> EverywhereIn(f, base, OnRecord(ok))
    decreases ForestSize(f), 0
  {
    if f.Empty? {
      assert SubtreeRecords(f, base) == [];
    } else {
      ListedExactly(f.node, base + [f.name], ok);
      ForestListedExactly(f.rest, base, ok);
      assert SubtreeRecords(f, base) == Records(f.node, base + [f.name]) + SubtreeRecords(f.rest, base);
      AllAppend(Records(f.node, base + [f.name]), SubtreeRecords(f.rest, base), ok);
      EverywhereInUnfolds(f, base, OnRecord(ok));
    }
  }

  function PathTotal(records: seq<Record>): nat {
    if records == [] then 0 else PathTotal(records[..|records| - 1]) + |Render(records[|records| - 1].path)|
  }

  lemma PathTotalNext(records: seq<Record>, last: Record)
    ensures PathTotal(records + [last]) == PathTotal(records) + |Render(last.path)|
  {
    var all := records + [last];
    assert all[..|all| - 1] == records;
  }

  lemma {:induction false} PathTotalAppend(a: seq<Record>, b: seq<Record>)
    ensures PathTotal(a + b) == PathTotal(a) + PathTotal(b)
    decreases |b|
  {
    if b == [] {
      assert a + b == a;
    } else {
      var before, last := b[..|b| - 1], b[|b| - 1];
      PathTotalAppend(a, before);
      Associative(a, before, [last]);
      assert b == before + [last];
      PathTotalNext(a + before, last);
      PathTotalNext(before, last);
    }
  }

  // The budgets count objects and the bytes of their paths.
  lemma {:induction false} TotalsExact(node: Node, base: Path)
    ensures Count(node) == |Records(node, base)| && PathBytes(node, base) == PathTotal(Records(node, base))
    decreases Size(node), 1
  {
    var sorted, own := Sort(node.entries), [Record(base, node.identity)];
    SortKeeps(node.entries, base, 0, STRICT);
    ForestTotalsExact(sorted, base);
    assert Records(node, base) == SubtreeRecords(sorted, base) + own;
    PathTotalAppend(SubtreeRecords(sorted, base), own);
    assert own[..0] == [] && PathTotal(own) == |Render(base)|;
  }

  lemma {:induction false} ForestTotalsExact(f: Forest, base: Path)
    ensures ForestCount(f) == |SubtreeRecords(f, base)| && ForestPathBytes(f, base) == PathTotal(SubtreeRecords(f, base))
    decreases ForestSize(f), 0
  {
    if f.Empty? {
    } else {
      TotalsExact(f.node, base + [f.name]);
      ForestTotalsExact(f.rest, base);
      assert SubtreeRecords(f, base) == Records(f.node, base + [f.name]) + SubtreeRecords(f.rest, base);
      PathTotalAppend(Records(f.node, base + [f.name]), SubtreeRecords(f.rest, base));
    }
  }

  /* ---------------- whole trees ---------------- */

  predicate WithinBudget(root: Node) {
    |Records(root, [])| <= 1_000_000 && PathTotal(Records(root, [])) <= 536_870_912
  }

  // The metadata of an object, by its identity.
  predicate Accepted(n: Node, path: Path, meta: Metadata, p: Permissions, v: Validation) {
    n.identity in meta && MetadataAccepted(meta[n.identity], Record(path, n.identity), p, v)
  }

  function AcceptedBy(meta: Metadata, p: Permissions, v: Validation): (Node, Path) -> bool {
    (n: Node, path: Path) => Accepted(n, path, meta, p, v)
  }

  predicate ObjectValid(n: Node, path: Path, meta: Metadata, p: Permissions, v: Validation) {
    Allowed(n, |path|, v.policy) && NoList(n) && Accepted(n, path, meta, p, v)
  }

  // A validation accepts exactly if the tree is within the budgets, its links balance where
  // that is asked for, and every object by itself is of an allowed type at an allowed depth,
  // has no access list and has accepted metadata.
  lemma TreeValidExactly(root: Node, meta: Metadata, p: Permissions, v: Validation)
    requires WellFormed(root)
    ensures TreeValid(root, meta, p, v) <==>
            && WithinBudget(root)
            && (v.policy.hardLinks ==> HardLinks.InventoryPasses(RegularOf(Records(root, []))))
            && (forall path :: At(root, path).Some? ==> ObjectValid(At(root, path).value, path, meta, p, v))
  {
    PreflightExact(root, v.policy);
    RecordsAccepted(root, meta, p, v);
    ObjectsTogether(root, meta, p, v);
  }

  lemma PreflightExact(root: Node, policy: Policy)
    requires WellFormed(root)
    ensures PreflightPasses(root, policy) <==>
            WithinBudget(root) && Everywhere(root, [], AllowedBy(policy)) && Everywhere(root, [], WithoutList())
  {
    ShapeExact(root, [], policy);
    BudgetExact(root, []);
  }

  lemma ShapeExact(root: Node, base: Path, policy: Policy)
    requires WellFormed(root) && base == []
    ensures Traversable(root, 0, policy) <==> Everywhere(root, base, AllowedBy(policy))
    ensures AclFree(root) <==> Everywhere(root, base, WithoutList())
  {
    TraversableExact(root, base, policy);
    AclFreeExact(root, base);
  }

  lemma BudgetExact(root: Node, base: Path)
    requires base == []
    ensures Fits(Count(root), PathBytes(root, base)) <==>
            |Records(root, base)| <= 1_000_000 && PathTotal(Records(root, base)) <= 536_870_912
  {
    TotalsExact(root, base);
  }

  lemma ObjectsTogether(root: Node, meta: Metadata, p: Permissions, v: Validation)
    ensures (forall path :: At(root, path).Some? ==> ObjectValid(At(root, path).value, path, meta, p, v)) <==>
            && Everywhere(root, [], AllowedBy(v.policy)) && Everywhere(root, [], WithoutList())
            && Everywhere(root, [], AcceptedBy(meta, p, v))
  {
    FromRoot(root, AllowedBy(v.policy));
    FromRoot(root, WithoutList());
    FromRoot(root, AcceptedBy(meta, p, v));
  }

  lemma FromRoot(root: Node, ok: (Node, Path) -> bool)
    ensures Everywhere(root, [], ok) <==> forall path :: At(root, path).Some? ==> ok(At(root, path).value, path)
  {
    forall path: Path ensures [] + path == path {
    }
    if Everywhere(root, [], ok) {
      forall path | At(root, path).Some? ensures ok(At(root, path).value, path) {
        assert ok(At(root, path).value, [] + path);
      }
    } else {
      var path :| At(root, path).Some? && !ok(At(root, path).value, [] + path);
      assert !ok(At(root, path).value, path);
    }
  }

  lemma RecordsAccepted(root: Node, meta: Metadata, p: Permissions, v: Validation)
    requires WellFormed(root)
    ensures Covers(meta, Records(root, [])) && AllAccepted(meta, Records(root, []), p, v) <==>
            Everywhere(root, [], AcceptedBy(meta, p, v))
  {
    var records := Records(root, []);
    var ok := (r: Record) => r.identity in meta && MetadataAccepted(meta[r.identity], r, p, v);
    ListedExactly(root, [], ok);
    assert AllRecords(records, ok) <==> Covers(meta, records) && AllAccepted(meta, records, p, v);
    SameEverywhere(root, [], OnRecord(ok), AcceptedBy(meta, p, v));
  }

  lemma SameEverywhere(node: Node, base: Path, a: (Node, Path) -> bool, b: (Node, Path) -> bool)
    requires forall n, q :: a(n, q) <==> b(n, q)
    ensures Everywhere(node, base, a) <==> Everywhere(node, base, b)
  {
  }

  /* ---------------- the five validations, mode by mode ---------------- */

  // The three kinds of objects, with what is required of each whatever its metadata.
  predicate PlainDirectory(n: Node, path: Path) {
    n.identity.fileType == S_IFDIR && |path| <= 128 && !n.acl
  }

  predicate PlainFile(n: Node) {
    n.identity.fileType == S_IFREG && n.identity.links == 1 && !n.acl
  }

  predicate PlainLink(n: Node) {
    n.identity.fileType == S_IFLNK && n.identity.links == 1
  }

  // Content and work: exactly the required owner, group and modes.
  predicate StrictlyNormal(n: Node, path: Path, m: Meta, p: Permissions) {
    && (p.owner.Some? ==> m.uid == p.owner.value) && m.gid == p.group
    && ((PlainDirectory(n, path) && m.mode == p.directoryMode) || (PlainFile(n) && m.mode == p.fileMode))
  }

  // The repository, modes 2750 and 0640 in octal; Git makes its objects read-only, 0440.
  predicate RepositoryNormal(n: Node, path: Path, m: Meta, owner: nat, group: nat) {
    && m.uid == owner && m.gid == group
    && ((PlainDirectory(n, path) && m.mode == 0x5E8) || (PlainFile(n) && (m.mode == 0x1A0 || m.mode == 0x120)))
  }

  // Releases, modes 0750 and 0640; files may be read-only, 0440 or 0444, and links are allowed.
  predicate ReleaseNormal(n: Node, path: Path, m: Meta, owner: nat, group: nat) {
    && m.uid == owner && m.gid == group
    && (|| (PlainDirectory(n, path) && m.mode == 0x1E8)
        || (PlainFile(n) && (m.mode == 0x1A0 || m.mode == 0x120 || m.mode == 0x124))
        || (PlainLink(n) && m.mode == 0x1FF))
  }

  // The queue, modes 2770 and 0660; the files of Worker belong to Worker, 0640.
  predicate QueueNormal(n: Node, path: Path, m: Meta, owner: nat, group: nat, files: WorkerFiles) {
    && m.gid == group
    && (|| (PlainDirectory(n, path) && m.uid == owner && m.mode == 0x5F8)
        || (PlainFile(n) && m.uid == owner && m.mode == 0x1B0)
        || (PlainFile(n) && WorkerOwned(path, files) && m.uid == files.owner && m.mode == 0x1A0))
  }

  // The search index, modes 2750 and 0640; files may have more links, the reader lock may be
  // 0660, and symbolic links are allowed.
  predicate IndexNormal(n: Node, path: Path, m: Meta, owner: nat, group: nat) {
    && m.uid == owner && m.gid == group
    && (|| (PlainDirectory(n, path) && m.mode == 0x5E8)
        || (n.identity.fileType == S_IFREG && !n.acl
            && (m.mode == 0x1A0 || (TantivyReaderLock(path) && m.mode == 0x1B0)))
        || (PlainLink(n) && m.mode == 0x1FF))
  }

  // The two kinds of exceptional files, by their whole paths.
  lemma ReaderLockPath(path: Path)
    ensures TantivyReaderLock(path) <==>
            exists id :: path == ["by-id", id, "tantivy", ".tantivy-meta.lock"]
                         || path == [".staging", id, "tantivy", ".tantivy-meta.lock"]
  {
    if TantivyReaderLock(path) {
      assert path == [path[0], path[1], path[2], path[3]];
    }
  }

  lemma WorkerFilePath(path: Path, files: WorkerFiles)
    ensures WorkerOwned(path, files) <==>
            || (exists name :: path == ["worker-tmp", name] && files.isTemporary(name))
            || (exists state, id, name ::
                  && path == [state, id, name] && files.isRequest(id)
                  && (state == "pending" || state == "processing" || state == "completed" || state == "failed")
                  && (name == "phase.json" || name == "result.json"))
  {
    if |path| == 2 {
      assert path == [path[0], path[1]];
    } else if |path| == 3 {
      assert path == [path[0], path[1], path[2]];
    }
  }

  lemma StrictObjects(n: Node, path: Path, meta: Metadata, p: Permissions)
    ensures ObjectValid(n, path, meta, p, STRICT_VALIDATION) <==>
            n.identity in meta && StrictlyNormal(n, path, meta[n.identity], p)
  {
  }

  lemma RepositoryObjects(n: Node, path: Path, meta: Metadata, owner: nat, group: nat)
    ensures ObjectValid(n, path, meta, Permissions(Some(owner), group, 0x5E8, 0x1A0), REPOSITORY_VALIDATION) <==>
            n.identity in meta && RepositoryNormal(n, path, meta[n.identity], owner, group)
  {
  }

  lemma ReleaseObjects(n: Node, path: Path, meta: Metadata, owner: nat, group: nat)
    ensures ObjectValid(n, path, meta, Permissions(Some(owner), group, 0x1E8, 0x1A0), RELEASE_VALIDATION) <==>
            n.identity in meta && ReleaseNormal(n, path, meta[n.identity], owner, group)
  {
  }

  lemma QueueObjects(n: Node, path: Path, meta: Metadata, owner: nat, group: nat, files: WorkerFiles)
    ensures ObjectValid(n, path, meta, Permissions(Some(owner), group, 0x5F8, 0x1B0), QueueValidation(files)) <==>
            n.identity in meta && QueueNormal(n, path, meta[n.identity], owner, group, files)
  {
  }

  lemma IndexObjects(n: Node, path: Path, meta: Metadata, owner: nat, group: nat)
    ensures ObjectValid(n, path, meta, Permissions(Some(owner), group, 0x5E8, 0x1A0), SEARCH_INDEX_VALIDATION) <==>
            n.identity in meta && IndexNormal(n, path, meta[n.identity], owner, group)
  {
  }

  lemma StrictTree(root: Node, meta: Metadata, p: Permissions)
    requires WellFormed(root)
    ensures TreeValid(root, meta, p, STRICT_VALIDATION) <==>
            && WithinBudget(root)
            && (forall path :: At(root, path).Some? ==>
                  var n := At(root, path).value;
                  n.identity in meta && StrictlyNormal(n, path, meta[n.identity], p))
  {
    TreeValidExactly(root, meta, p, STRICT_VALIDATION);
    forall path | At(root, path).Some? {
      StrictObjects(At(root, path).value, path, meta, p);
    }
  }

  lemma RepositoryTree(root: Node, meta: Metadata, owner: nat, group: nat)
    requires WellFormed(root)
    ensures TreeValid(root, meta, Permissions(Some(owner), group, 0x5E8, 0x1A0), REPOSITORY_VALIDATION) <==>
            && WithinBudget(root)
            && (forall path :: At(root, path).Some? ==>
                  var n := At(root, path).value;
                  n.identity in meta && RepositoryNormal(n, path, meta[n.identity], owner, group))
  {
    TreeValidExactly(root, meta, Permissions(Some(owner), group, 0x5E8, 0x1A0), REPOSITORY_VALIDATION);
    forall path | At(root, path).Some? {
      RepositoryObjects(At(root, path).value, path, meta, owner, group);
    }
  }

  lemma ReleaseTree(root: Node, meta: Metadata, owner: nat, group: nat)
    requires WellFormed(root)
    ensures TreeValid(root, meta, Permissions(Some(owner), group, 0x1E8, 0x1A0), RELEASE_VALIDATION) <==>
            && WithinBudget(root)
            && (forall path :: At(root, path).Some? ==>
                  var n := At(root, path).value;
                  n.identity in meta && ReleaseNormal(n, path, meta[n.identity], owner, group))
  {
    TreeValidExactly(root, meta, Permissions(Some(owner), group, 0x1E8, 0x1A0), RELEASE_VALIDATION);
    forall path | At(root, path).Some? {
      ReleaseObjects(At(root, path).value, path, meta, owner, group);
    }
  }

  lemma QueueTree(root: Node, meta: Metadata, owner: nat, group: nat, files: WorkerFiles)
    requires WellFormed(root)
    ensures TreeValid(root, meta, Permissions(Some(owner), group, 0x5F8, 0x1B0), QueueValidation(files)) <==>
            && WithinBudget(root)
            && (forall path :: At(root, path).Some? ==>
                  var n := At(root, path).value;
                  n.identity in meta && QueueNormal(n, path, meta[n.identity], owner, group, files))
  {
    TreeValidExactly(root, meta, Permissions(Some(owner), group, 0x5F8, 0x1B0), QueueValidation(files));
    forall path | At(root, path).Some? {
      QueueObjects(At(root, path).value, path, meta, owner, group, files);
    }
  }

  lemma IndexTree(root: Node, meta: Metadata, owner: nat, group: nat)
    requires WellFormed(root)
    ensures TreeValid(root, meta, Permissions(Some(owner), group, 0x5E8, 0x1A0), SEARCH_INDEX_VALIDATION) <==>
            && WithinBudget(root)
            && HardLinks.InventoryPasses(RegularOf(Records(root, [])))
            && (forall path :: At(root, path).Some? ==>
                  var n := At(root, path).value;
                  n.identity in meta && IndexNormal(n, path, meta[n.identity], owner, group))
  {
    TreeValidExactly(root, meta, Permissions(Some(owner), group, 0x5E8, 0x1A0), SEARCH_INDEX_VALIDATION);
    forall path | At(root, path).Some? {
      IndexObjects(At(root, path).value, path, meta, owner, group);
    }
  }
}
