/**
 The sorted post-order visit that migrate, validate and fingerprint share, as a function:
 what each does to an object differs, what they traverse and record does not.
 */
module TreeVisits {
  import opened Wrappers
  import opened ObjectTree
  import opened TreeFingerprint
  import opened TreePolicy
  import HardLinks

  datatype Error =
    | PosixAcl(path: Path)
    | UnsafeEntry(path: Path)
    | MigrationLimitExceeded(path: Path)
    | TreeChanged(path: Path)
    | HardLink(error: HardLinks.Error)

  // One metadata system call.
  datatype Write =
    | Chown(path: Path, identity: Identity, owner: Option<nat>, group: nat)
    | Chmod(path: Path, identity: Identity, mode: nat)

  // What is done to each object on the way.
  datatype Mode =
    | Fingerprinting
    | Validating(required: Permissions, validation: Validation)
    | Migrating(target: Permissions)

  // The progress of a visit: counters, records so far, link inventory, metadata and the log
  // of writes that produced it.
  datatype Visit = Visit(
    entries: nat,
    pathBytes: nat,
    records: seq<Record>,
    links: HardLinks.Inventory,
    meta: Metadata,
    log: seq<Write>
  )

  function ModeFor(i: Identity, p: Permissions): nat {
    if i.fileType == S_IFDIR then p.directoryMode else p.fileMode
  }

  function ApplyWrite(meta: Metadata, w: Write): Metadata {
    if w.identity !in meta then meta
    else
      var m := meta[w.identity];
      match w
      case Chown(_, i, owner, group) =>
        meta[i := Meta(if owner.Some? then owner.value else m.uid, group, m.mode)]
      case Chmod(_, i, mode) => meta[i := m.(mode := mode)]
  }

  function ApplyAll(meta: Metadata, ws: seq<Write>): Metadata {
    if ws == [] then meta else ApplyWrite(ApplyAll(meta, ws[..|ws| - 1]), ws[|ws| - 1])
  }

  // `set_identity_and_mode` on one object.
  function WritesFor(r: Record, p: Permissions): seq<Write> {
    [Chown(r.path, r.identity, p.owner, p.group), Chmod(r.path, r.identity, ModeFor(r.identity, p))]
  }

  function AllWrites(records: seq<Record>, p: Permissions): (ws: seq<Write>)
    ensures |ws| == 2 * |records|
  {
    if records == [] then []
    else AllWrites(records[..|records| - 1], p) + WritesFor(records[|records| - 1], p)
  }

  function Act(mode: Mode, v: Visit, path: Path, node: Node): Result<Visit, Error> {
    match mode
    case Fingerprinting => Success(v)
    case Validating(required, validation) =>
      if (node.IsDirectory() || node.IsRegular()) && node.acl then
        Failure(PosixAcl(path))
      else if node.identity !in v.meta
        || !MetadataAccepted(v.meta[node.identity], Record(path, node.identity), required, validation) then
        Failure(UnsafeEntry(path))
      else
        Success(v)
    case Migrating(target) =>
      var ws := WritesFor(Record(path, node.identity), target);
      Success(v.(meta := ApplyAll(v.meta, ws), log := v.log + ws))
  }

  // `TreeFingerprintBuilder::record`.
  function Note(v: Visit, path: Path, identity: Identity): Result<Visit, Error> {
    var entries, pathBytes := v.entries + 1, v.pathBytes + |Render(path)|;
    if Fits(entries, pathBytes) then
      Success(v.(entries := entries, pathBytes := pathBytes, records := v.records + [Record(path, identity)]))
    else
      Failure(MigrationLimitExceeded(path))
  }

  // The inventory counts regular files when hard links are allowed.
  function CountLinks(v: Visit, path: Path, node: Node, policy: Policy): Result<Visit, Error> {
    if policy.hardLinks && node.IsRegular() then
      match HardLinks.Observe(v.links, Record(path, node.identity))
      case Failure(error) => Failure(HardLink(error))
      case Success(links) => Success(v.(links := links))
    else
      Success(v)
  }

  // One object: acted on, counted when it is a file, recorded.
  function VisitObject(v: Visit, node: Node, path: Path, policy: Policy, mode: Mode): Result<Visit, Error> {
    var acted := Act(mode, v, path, node);
    if acted.Failure? then
      acted
    else
      var counted := CountLinks(acted.value, path, node, policy);
      if counted.Failure? then counted else Note(counted.value, path, node.identity)
  }

  function VisitLeaf(v: Visit, node: Node, path: Path, policy: Policy, mode: Mode): Result<Visit, Error> {
    if AcceptableLeaf(node.identity, policy) then VisitObject(v, node, path, policy, mode)
    else Failure(UnsafeEntry(path))
  }

  function VisitNode(v: Visit, node: Node, depth: nat, path: Path, policy: Policy, mode: Mode): Result<Visit, Error>
    decreases Size(node), 1
  {
    if node.IsDirectory() then VisitDirectory(v, node, depth, path, policy, mode)
    else VisitLeaf(v, node, path, policy, mode)
  }

  function VisitDirectory(v: Visit, node: Node, depth: nat, path: Path, policy: Policy, mode: Mode): Result<Visit, Error>
    decreases Size(node), 0
  {
    if depth > MAXIMUM_DEPTH then
      Failure(UnsafeEntry(path))
    else if Length(node.entries) > MAXIMUM_ENTRIES then
      Failure(MigrationLimitExceeded(path))
    else
      var visited := VisitForest(v, Sort(node.entries), depth, path, policy, mode);
      if visited.Failure? then visited else VisitObject(visited.value, node, path, policy, mode)
  }

  function VisitForest(v: Visit, f: Forest, depth: nat, path: Path, policy: Policy, mode: Mode): Result<Visit, Error>
    decreases ForestSize(f), 0
  {
    match f
    case Empty => Success(v)
    case Entry(name, node, rest) =>
      var next := VisitNode(v, node, depth + 1, path + [name], policy, mode);
      if next.Failure? then next else VisitForest(next.value, rest, depth, path, policy, mode)
  }

  /* ---------------- what a visit achieves ---------------- */

  // How a successful visit that recorded `added` changes the progress.
  ghost predicate Advanced(before: Visit, after: Visit, added: seq<Record>, policy: Policy, mode: Mode) {
    && after.records == before.records + added
    && Counted(before.links, after.links, added, policy)
    && (match mode
        case Migrating(target) => Written(before, after, AllWrites(added, target))
        case _ => after.meta == before.meta && after.log == before.log)
  }

  ghost predicate Counted(before: HardLinks.Inventory, after: HardLinks.Inventory, added: seq<Record>, policy: Policy) {
    if policy.hardLinks then HardLinks.ObserveAll(before, RegularOf(added)) == Success(after) else after == before
  }

  ghost predicate Written(before: Visit, after: Visit, ws: seq<Write>) {
    after.meta == ApplyAll(before.meta, ws) && after.log == before.log + ws
  }

  lemma {:induction false} ApplyAppend(meta: Metadata, a: seq<Write>, b: seq<Write>)
    ensures ApplyAll(meta, a + b) == ApplyAll(ApplyAll(meta, a), b)
    decreases |b|
  {
    if b == [] {
      assert a + b == a;
    } else {
      var c := a + b;
      assert c[..|c| - 1] == a + b[..|b| - 1];
      ApplyAppend(meta, a, b[..|b| - 1]);
    }
  }

  lemma TwoWrites(meta: Metadata, a: Write, b: Write)
    ensures ApplyAll(meta, [a, b]) == ApplyWrite(ApplyWrite(meta, a), b)
  {
    assert [a, b][..1] == [a] && [a][..0] == [];
    assert ApplyAll(meta, [a]) == ApplyWrite(ApplyAll(meta, []), a);
  }

  lemma {:induction false} WritesAppend(a: seq<Record>, b: seq<Record>, p: Permissions)
    ensures AllWrites(a + b, p) == AllWrites(a, p) + AllWrites(b, p)
    decreases |b|
  {
    if b == [] {
      assert a + b == a;
    } else {
      var c := a + b;
      assert c[..|c| - 1] == a + b[..|b| - 1];
      WritesAppend(a, b[..|b| - 1], p);
    }
  }

  lemma CountedTransitive(
    a: HardLinks.Inventory, b: HardLinks.Inventory, c: HardLinks.Inventory, x: seq<Record>, y: seq<Record>, policy: Policy
  )
    requires Counted(a, b, x, policy) && Counted(b, c, y, policy)
    ensures Counted(a, c, x + y, policy)
  {
    RegularAppend(x, y);
    HardLinks.ObserveAppend(a, RegularOf(x), RegularOf(y));
  }

  lemma WrittenTransitive(a: Visit, b: Visit, c: Visit, x: seq<Write>, y: seq<Write>)
    requires Written(a, b, x) && Written(b, c, y)
    ensures Written(a, c, x + y)
  {
    ApplyAppend(a.meta, x, y);
    Associative(a.log, x, y);
  }

  lemma AdvancedTransitive(
    a: Visit, b: Visit, c: Visit, x: seq<Record>, y: seq<Record>, policy: Policy, mode: Mode
  )
    requires Advanced(a, b, x, policy, mode) && Advanced(b, c, y, policy, mode)
    ensures Advanced(a, c, x + y, policy, mode)
  {
    CountedTransitive(a.links, b.links, c.links, x, y, policy);
    Associative(a.records, x, y);
    if mode.Migrating? {
      WritesAppend(x, y, mode.target);
      WrittenTransitive(a, b, c, AllWrites(x, mode.target), AllWrites(y, mode.target));
    }
  }

  lemma SingleWrites(r: Record, p: Permissions)
    ensures AllWrites([r], p) == WritesFor(r, p)
  {
    assert [r][..0] == [];
    assert AllWrites([r], p) == AllWrites([], p) + WritesFor(r, p);
  }

  // What the records of a visit must satisfy beyond shape and budget.
  ghost predicate ListPasses(v: Visit, records: seq<Record>, policy: Policy, mode: Mode) {
    && (policy.hardLinks ==> HardLinks.ObserveAll(v.links, RegularOf(records)).Success?)
    && (mode.Validating? ==>
          Covers(v.meta, records) && AllAccepted(v.meta, records, mode.required, mode.validation))
  }

  lemma ListPassesPrefix(v: Visit, a: seq<Record>, b: seq<Record>, policy: Policy, mode: Mode)
    requires ListPasses(v, a + b, policy, mode)
    ensures ListPasses(v, a, policy, mode)
  {
    RegularAppend(a, b);
    HardLinks.ObserveAppend(v.links, RegularOf(a), RegularOf(b));
    forall i | 0 <= i < |a| ensures (a + b)[i] == a[i] {
    }
  }

  lemma ListPassesAppend(v: Visit, w: Visit, a: seq<Record>, b: seq<Record>, policy: Policy, mode: Mode)
    requires ListPasses(v, a, policy, mode) && Advanced(v, w, a, policy, mode)
    ensures ListPasses(v, a + b, policy, mode) <==> ListPasses(w, b, policy, mode)
  {
    RegularAppend(a, b);
    HardLinks.ObserveAppend(v.links, RegularOf(a), RegularOf(b));
    forall i | 0 <= i < |a| ensures (a + b)[i] == a[i] {
    }
    forall i | 0 <= i < |b| ensures (a + b)[|a| + i] == b[i] {
    }
  }

  lemma SingleObserved(links: HardLinks.Inventory, r: Record)
    ensures HardLinks.ObserveAll(links, RegularOf([r]))
         == if r.identity.fileType == S_IFREG then HardLinks.Observe(links, r) else Success(links)
  {
    assert [r][..0] == [];
    var regular := RegularOf([r]);
    assert regular == RegularOf([]) + if r.identity.fileType == S_IFREG then [r] else [];
    if r.identity.fileType == S_IFREG {
      assert regular[..0] == [];
      assert HardLinks.ObserveAll(links, []) == Success(links);
    }
  }

  lemma ListPassesSingle(v: Visit, r: Record, policy: Policy, mode: Mode)
    ensures ListPasses(v, [r], policy, mode) <==>
            && (policy.hardLinks && r.identity.fileType == S_IFREG ==> HardLinks.Observe(v.links, r).Success?)
            && (mode.Validating? ==>
                  r.identity in v.meta && MetadataAccepted(v.meta[r.identity], r, mode.required, mode.validation))
    ensures HardLinks.ObserveAll(v.links, RegularOf([r]))
         == if r.identity.fileType == S_IFREG then HardLinks.Observe(v.links, r) else Success(v.links)
  {
    SingleObserved(v.links, r);
    assert [r][0] == r;
  }

  // The steps of one object, without reference to lists.
  lemma ObjectSteps(v: Visit, node: Node, path: Path, policy: Policy, mode: Mode)
    ensures var r := Record(path, node.identity);
            var visited := VisitObject(v, node, path, policy, mode);
            var counted := if policy.hardLinks && node.IsRegular() then HardLinks.Observe(v.links, r) else Success(v.links);
            && (visited.Success? <==>
                && Fits(v.entries + 1, v.pathBytes + |Render(path)|)
                && (mode.Validating? && (node.IsDirectory() || node.IsRegular()) ==> !node.acl)
                && counted.Success?
                && (mode.Validating? ==>
                      r.identity in v.meta && MetadataAccepted(v.meta[r.identity], r, mode.required, mode.validation)))
            && (visited.Success? ==>
                && visited.value == Visit(
                     v.entries + 1, v.pathBytes + |Render(path)|, v.records + [r], counted.value,
                     if mode.Migrating? then ApplyAll(v.meta, WritesFor(r, mode.target)) else v.meta,
                     if mode.Migrating? then v.log + WritesFor(r, mode.target) else v.log))
  {
  }

  lemma AdvancedBySingle(v: Visit, w: Visit, r: Record, policy: Policy, mode: Mode)
    requires w.records == v.records + [r]
    requires if policy.hardLinks && r.identity.fileType == S_IFREG then HardLinks.Observe(v.links, r) == Success(w.links)
             else w.links == v.links
    requires if mode.Migrating? then
               w.meta == ApplyAll(v.meta, WritesFor(r, mode.target)) && w.log == v.log + WritesFor(r, mode.target)
             else
               w.meta == v.meta && w.log == v.log
    ensures Advanced(v, w, [r], policy, mode)
  {
    SingleObserved(v.links, r);
    if mode.Migrating? {
      SingleWrites(r, mode.target);
    }
  }

  lemma ObjectExact(v: Visit, node: Node, path: Path, policy: Policy, mode: Mode)
    ensures var r := Record(path, node.identity);
            var visited := VisitObject(v, node, path, policy, mode);
            && (visited.Success? <==>
                && Fits(v.entries + 1, v.pathBytes + |Render(path)|)
                && (mode.Validating? && (node.IsDirectory() || node.IsRegular()) ==> !node.acl)
                && ListPasses(v, [r], policy, mode))
            && (visited.Success? ==>
                && visited.value.entries == v.entries + 1
                && visited.value.pathBytes == v.pathBytes + |Render(path)|
                && Advanced(v, visited.value, [r], policy, mode))
  {
    var r := Record(path, node.identity);
    var visited := VisitObject(v, node, path, policy, mode);
    ObjectSteps(v, node, path, policy, mode);
    ListPassesSingle(v, r, policy, mode);
    if visited.Success? {
      AdvancedBySingle(v, visited.value, r, policy, mode);
    }
  }

  /* ---------------- exactness ---------------- */

  ghost predicate Passes(v: Visit, node: Node, depth: nat, path: Path, policy: Policy, mode: Mode) {
    && WalkPasses(node, depth, path, policy, v.entries, v.pathBytes)
    && (mode.Validating? ==> AclFree(node))
    && ListPasses(v, Records(node, path), policy, mode)
  }

  function SubtreeRecords(f: Forest, path: Path): seq<Record> {
    ForestListing(CanonicalForest(f), path)
  }

  ghost predicate ForestPasses(v: Visit, f: Forest, depth: nat, path: Path, policy: Policy, mode: Mode) {
    && ForestTraversable(f, depth, policy)
    && Fits(v.entries + ForestCount(f), v.pathBytes + ForestPathBytes(f, path))
    && (mode.Validating? ==> ForestAclFree(f))
    && ListPasses(v, SubtreeRecords(f, path), policy, mode)
  }

  // The result of a visit of `node`.
  ghost predicate Visited(v: Visit, w: Visit, node: Node, path: Path, policy: Policy, mode: Mode) {
    && w.entries == v.entries + Count(node)
    && w.pathBytes == v.pathBytes + PathBytes(node, path)
    && Advanced(v, w, Records(node, path), policy, mode)
  }

  ghost predicate ForestVisited(v: Visit, w: Visit, f: Forest, path: Path, policy: Policy, mode: Mode) {
    && w.entries == v.entries + ForestCount(f)
    && w.pathBytes == v.pathBytes + ForestPathBytes(f, path)
    && Advanced(v, w, SubtreeRecords(f, path), policy, mode)
  }

  lemma LeafExact(v: Visit, node: Node, depth: nat, path: Path, policy: Policy, mode: Mode)
    requires WellFormed(node) && !node.IsDirectory()
    ensures var r := VisitLeaf(v, node, path, policy, mode);
            && (r.Success? <==> Passes(v, node, depth, path, policy, mode))
            && (r.Success? ==> Visited(v, r.value, node, path, policy, mode))
  {
    ObjectExact(v, node, path, policy, mode);
    assert node.entries == Empty && Sort(Empty) == Empty && CanonicalForest(Empty) == Empty;
    assert Canonical(node).entries == Empty && ForestListing(Empty, path) == [];
    assert Records(node, path) == [Record(path, node.identity)];
    assert ForestCount(Empty) == 0 && ForestPathBytes(Empty, path) == 0 && ForestAclFree(Empty);
  }

  lemma DirectoryTotals(node: Node, path: Path, policy: Policy)
    ensures var sorted := Sort(node.entries);
            && Count(node) == ForestCount(sorted) + 1
            && PathBytes(node, path) == ForestPathBytes(sorted, path) + |Render(path)|
            && Records(node, path) == SubtreeRecords(sorted, path) + [Record(path, node.identity)]
  {
    SortKeeps(node.entries, path, 0, policy);
  }

  // A directory is recorded after the objects below it, by the same steps as a leaf.
  lemma DirectoryExact(
    v: Visit, w: Visit, node: Node, path: Path, policy: Policy, mode: Mode
  )
    requires node.IsDirectory() && ForestVisited(v, w, Sort(node.entries), path, policy, mode)
    requires ListPasses(v, SubtreeRecords(Sort(node.entries), path), policy, mode)
    ensures var r := VisitObject(w, node, path, policy, mode);
            && (r.Success? <==>
                && Fits(v.entries + Count(node), v.pathBytes + PathBytes(node, path))
                && (mode.Validating? ==> !node.acl)
                && ListPasses(v, Records(node, path), policy, mode))
            && (r.Success? ==> Visited(v, r.value, node, path, policy, mode))
  {
    var below, own := SubtreeRecords(Sort(node.entries), path), [Record(path, node.identity)];
    DirectoryTotals(node, path, policy);
    ObjectExact(w, node, path, policy, mode);
    ListPassesAppend(v, w, below, own, policy, mode);
    var r := VisitObject(w, node, path, policy, mode);
    if r.Success? {
      AdvancedTransitive(v, w, r.value, below, own, policy, mode);
    }
  }

  lemma PassesBelow(v: Visit, node: Node, depth: nat, path: Path, policy: Policy, mode: Mode)
    requires node.IsDirectory()
    ensures Passes(v, node, depth, path, policy, mode) ==>
              && depth <= MAXIMUM_DEPTH && Length(node.entries) <= MAXIMUM_ENTRIES
              && ForestPasses(v, Sort(node.entries), depth, path, policy, mode)
  {
    var below, own := SubtreeRecords(Sort(node.entries), path), [Record(path, node.identity)];
    LengthBound(node.entries);
    SortKeeps(node.entries, path, depth, policy);
    assert Records(node, path) == below + own;
    if Passes(v, node, depth, path, policy, mode) {
      ListPassesPrefix(v, below, own, policy, mode);
    }
  }

  lemma DirectoryFromEntries(v: Visit, node: Node, depth: nat, path: Path, policy: Policy, mode: Mode)
    requires node.IsDirectory()
    requires var r := VisitForest(v, Sort(node.entries), depth, path, policy, mode);
             && (r.Success? <==> ForestPasses(v, Sort(node.entries), depth, path, policy, mode))
             && (r.Success? ==> ForestVisited(v, r.value, Sort(node.entries), path, policy, mode))
    ensures var r := VisitDirectory(v, node, depth, path, policy, mode);
            && (r.Success? <==> Passes(v, node, depth, path, policy, mode))
            && (r.Success? ==> Visited(v, r.value, node, path, policy, mode))
  {
    var r := VisitForest(v, Sort(node.entries), depth, path, policy, mode);
    var whole := VisitDirectory(v, node, depth, path, policy, mode);
    PassesBelow(v, node, depth, path, policy, mode);
    if depth > MAXIMUM_DEPTH || Length(node.entries) > MAXIMUM_ENTRIES || r.Failure? {
      assert whole.Failure?;
    } else {
      assert whole == VisitObject(r.value, node, path, policy, mode);
      DirectoryExact(v, r.value, node, path, policy, mode);
      SortKeeps(node.entries, path, depth, policy);
      assert Traversable(node, depth, policy);
      assert AclFree(node) <==> !node.acl && ForestAclFree(node.entries);
    }
  }

  lemma {:induction false} VisitExact(v: Visit, node: Node, depth: nat, path: Path, policy: Policy, mode: Mode)
    requires WellFormed(node) && Fits(v.entries, v.pathBytes)
    ensures var r := VisitNode(v, node, depth, path, policy, mode);
            && (r.Success? <==> Passes(v, node, depth, path, policy, mode))
            && (r.Success? ==> Visited(v, r.value, node, path, policy, mode))
    decreases Size(node), 1
  {
    if !node.IsDirectory() {
      LeafExact(v, node, depth, path, policy, mode);
    } else {
      SortCorrect(node.entries);
      ForestExact(v, Sort(node.entries), depth, path, policy, mode);
      DirectoryFromEntries(v, node, depth, path, policy, mode);
    }
  }

  lemma {:induction false} ForestExact(v: Visit, f: Forest, depth: nat, path: Path, policy: Policy, mode: Mode)
    requires WellFormedForest(f) && Fits(v.entries, v.pathBytes)
    ensures var r := VisitForest(v, f, depth, path, policy, mode);
            && (r.Success? <==> ForestPasses(v, f, depth, path, policy, mode))
            && (r.Success? ==> ForestVisited(v, r.value, f, path, policy, mode))
    decreases ForestSize(f), 0
  {
    if f.Empty? {
      assert SubtreeRecords(f, path) == [] && RegularOf([]) == [];
    } else {
      var childPath := path + [f.name];
      var first, others := Records(f.node, childPath), SubtreeRecords(f.rest, path);
      assert SubtreeRecords(f, path) == first + others;
      VisitExact(v, f.node, depth + 1, childPath, policy, mode);
      if ForestPasses(v, f, depth, path, policy, mode) {
        ListPassesPrefix(v, first, others, policy, mode);
      }
      var next := VisitNode(v, f.node, depth + 1, childPath, policy, mode);
      if next.Success? {
        ForestExact(next.value, f.rest, depth, path, policy, mode);
        ListPassesAppend(v, next.value, first, others, policy, mode);
        var r := VisitForest(next.value, f.rest, depth, path, policy, mode);
        if r.Success? {
          AdvancedTransitive(v, next.value, r.value, first, others, policy, mode);
        }
      }
    }
  }

  // Whatever two walks do to the objects and whatever each allows, on one tree they record
  // the same stream with the same counters.
  lemma WalksAgree(v: Visit, w: Visit, root: Node, a: Policy, b: Policy, m: Mode, n: Mode)
    requires WellFormed(root) && v.entries == w.entries == 0 && v.pathBytes == w.pathBytes == 0 && v.records == w.records == []
    requires VisitNode(v, root, 0, [], a, m).Success? && VisitNode(w, root, 0, [], b, n).Success?
    ensures var x, y := VisitNode(v, root, 0, [], a, m).value, VisitNode(w, root, 0, [], b, n).value;
            && x.entries == y.entries == Count(root) && x.pathBytes == y.pathBytes == PathBytes(root, [])
            && Stream(x.records) == Stream(y.records) == Stream(Records(root, []))
  {
    VisitExact(v, root, 0, [], a, m);
    VisitExact(w, root, 0, [], b, n);
    assert [] + Records(root, []) == Records(root, []);
  }
}
