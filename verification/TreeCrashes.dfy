/**
 A migrate run as a sequence of single writes: what holds at every prefix, when all of it
 has been written, and how a rerun judges a search index root after a crash.
 */
module TreeCrashes {
  import opened Wrappers
  import opened ObjectTree
  import opened TreeFingerprint
  import opened TreePolicy
  import opened TreeVisits
  import opened TreeAdministration
  import HardLinks

  predicate Normal(m: Meta, i: Identity, p: Permissions) {
    (p.owner.None? || m.uid == p.owner.value) && m.gid == p.group && m.mode == ModeFor(i, p)
  }

  // The metadata after the first `k` writes of a run.
  function MetaAfter(meta: Metadata, records: seq<Record>, p: Permissions, k: nat): Metadata
    requires k <= 2 * |records|
  {
    ApplyAll(meta, AllWrites(records, p)[..k])
  }

  /* ---------------- single writes ---------------- */

  // A write towards the permissions `p`.
  predicate Towards(w: Write, p: Permissions) {
    match w
    case Chown(_, _, owner, group) => owner == p.owner && group == p.group
    case Chmod(_, i, mode) => mode == ModeFor(i, p)
  }

  lemma {:induction false} WritesTowards(records: seq<Record>, p: Permissions)
    ensures var ws := AllWrites(records, p);
            && (forall k :: 0 <= k < |ws| ==> Towards(ws[k], p))
            && (forall i :: 0 <= i < |records| ==>
                  && ws[2 * i] == WritesFor(records[i], p)[0] && ws[2 * i + 1] == WritesFor(records[i], p)[1])
  {
    if records == [] {
    } else {
      var last := |records| - 1;
      WritesTowards(records[..last], p);
      assert forall i :: 0 <= i < last ==> records[..last][i] == records[i];
    }
  }

  // A finished object stays finished, and no write touches another object.
  lemma WriteKeeps(meta: Metadata, w: Write, p: Permissions, i: Identity)
    requires Towards(w, p) && i in meta
    ensures ApplyWrite(meta, w).Keys == meta.Keys
    ensures Normal(meta[i], i, p) ==> Normal(ApplyWrite(meta, w)[i], i, p)
    ensures w.identity != i ==> ApplyWrite(meta, w)[i] == meta[i]
  {
  }

  lemma {:induction false} ApplyKeys(meta: Metadata, ws: seq<Write>)
    ensures ApplyAll(meta, ws).Keys == meta.Keys
  {
    if ws == [] {
    } else {
      ApplyKeys(meta, ws[..|ws| - 1]);
    }
  }

  lemma StepOf(meta: Metadata, records: seq<Record>, p: Permissions, k: nat)
    requires k < 2 * |records|
    ensures MetaAfter(meta, records, p, k + 1) == ApplyWrite(MetaAfter(meta, records, p, k), AllWrites(records, p)[k])
  {
    var ws := AllWrites(records, p);
    assert ws[..k + 1][..k] == ws[..k];
  }

  lemma JustFinished(meta: Metadata, records: seq<Record>, p: Permissions, i: nat)
    requires i < |records| && records[i].identity in meta
    ensures records[i].identity in MetaAfter(meta, records, p, 2 * i + 2)
    ensures Normal(MetaAfter(meta, records, p, 2 * i + 2)[records[i].identity], records[i].identity, p)
  {
    var before := MetaAfter(meta, records, p, 2 * i);
    ApplyKeys(meta, AllWrites(records, p)[..2 * i]);
    WritesTowards(records, p);
    StepOf(meta, records, p, 2 * i);
    StepOf(meta, records, p, 2 * i + 1);
    BothWrites(before, records[i], p);
  }

  lemma BothWrites(meta: Metadata, r: Record, p: Permissions)
    requires r.identity in meta
    ensures var after := ApplyWrite(ApplyWrite(meta, WritesFor(r, p)[0]), WritesFor(r, p)[1]);
            r.identity in after && Normal(after[r.identity], r.identity, p)
  {
  }

  // Both writes of an object done: it is normal from then on.
  lemma {:induction false} FinishedIsNormal(meta: Metadata, records: seq<Record>, p: Permissions, k: nat, i: nat)
    requires i < |records| && records[i].identity in meta && 2 * i + 2 <= k <= 2 * |records|
    ensures records[i].identity in MetaAfter(meta, records, p, k)
    ensures Normal(MetaAfter(meta, records, p, k)[records[i].identity], records[i].identity, p)
    decreases k
  {
    if k == 2 * i + 2 {
      JustFinished(meta, records, p, i);
    } else {
      FinishedIsNormal(meta, records, p, k - 1, i);
      WritesTowards(records, p);
      StepOf(meta, records, p, k - 1);
      WriteKeeps(MetaAfter(meta, records, p, k - 1), AllWrites(records, p)[k - 1], p, records[i].identity);
    }
  }

  // No write done to an object that occurs once: it is as it was.
  lemma {:induction false} UntouchedIsUnchanged(meta: Metadata, records: seq<Record>, p: Permissions, k: nat, i: nat)
    requires i < |records| && records[i].identity in meta && k <= 2 * i
    requires forall j :: 0 <= j < |records| && j != i ==> records[j].identity != records[i].identity
    ensures records[i].identity in MetaAfter(meta, records, p, k)
    ensures MetaAfter(meta, records, p, k)[records[i].identity] == meta[records[i].identity]
    decreases k
  {
    var ws := AllWrites(records, p);
    ApplyKeys(meta, ws[..k]);
    if k == 0 {
    } else {
      UntouchedIsUnchanged(meta, records, p, k - 1, i);
      StepOf(meta, records, p, k - 1);
      WritesTowards(records, p);
      var j := (k - 1) / 2;
      assert k - 1 == 2 * j || k - 1 == 2 * j + 1;
      assert ws[k - 1].identity == records[j].identity;
    }
  }

  /* ---------------- order of the walk ---------------- */

  predicate Below(path: Path, directory: Path) {
    |directory| < |path| && path[..|directory|] == directory
  }

  // Nothing below an object comes after it.
  predicate PostOrdered(records: seq<Record>) {
    forall i, j :: 0 <= i < j < |records| ==> !Below(records[j].path, records[i].path)
  }

  lemma {:induction false} ListingPostOrdered(node: Node, path: Path)
    requires WellFormed(node)
    ensures PostOrdered(Listing(node, path))
    decreases node, 1
  {
    ForestPostOrdered(node.entries, path);
    ListingExtends(node, path);
    var records := Listing(node, path);
    forall i, j | 0 <= i < j < |records| ensures !Below(records[j].path, records[i].path) {
      assert Extends(path, records[i]);
    }
  }

  lemma {:induction false} ForestPostOrdered(f: Forest, path: Path)
    requires WellFormedForest(f)
    ensures PostOrdered(ForestListing(f, path))
    decreases f, 0
  {
    if f.Empty? {
    } else {
      var first, others := Listing(f.node, path + [f.name]), ForestListing(f.rest, path);
      ListingPostOrdered(f.node, path + [f.name]);
      ForestPostOrdered(f.rest, path);
      SubtreeUnder(f.node, path, f.name);
      ForestNotUnder(f.rest, path, f.name);
      forall i, j | 0 <= i < |first| && 0 <= j < |others| ensures !Below(others[j].path, first[i].path) {
        if Below(others[j].path, first[i].path) {
          BelowIsUnder(path, f.name, first[i], others[j]);
        }
      }
    }
  }

  lemma BelowIsUnder(path: Path, name: Name, r: Record, s: Record)
    requires Under(path, name, r) && Below(s.path, r.path)
    ensures Under(path, name, s)
  {
    assert s.path[..|path|] == s.path[..|r.path|][..|path|];
    assert s.path[|path|] == s.path[..|r.path|][|path|];
  }

  lemma RecordsPostOrdered(node: Node, path: Path)
    requires WellFormed(node)
    ensures PostOrdered(Records(node, path))
  {
    CanonicalWellFormed(node);
    ListingPostOrdered(Canonical(node), path);
  }

  /* ---------------- the main results ---------------- */

  // At every prefix of a run, an object that the run has changed has only fully normalised
  // objects below it.
  lemma ChangedDirectoryIsComplete(root: Node, meta: Metadata, p: Permissions, k: nat, i: nat, j: nat)
    requires WellFormed(root) && Covers(meta, Records(root, []))
    requires k <= 2 * |Records(root, [])| && i < |Records(root, [])| && j < |Records(root, [])|
    requires var records := Records(root, []);
             && (forall n :: 0 <= n < |records| && n != i ==> records[n].identity != records[i].identity)
             && Below(records[j].path, records[i].path)
    requires var id := Records(root, [])[i].identity;
             id in MetaAfter(meta, Records(root, []), p, k) ==>
               MetaAfter(meta, Records(root, []), p, k)[id] != meta[id]
    ensures var id := Records(root, [])[j].identity;
            && id in MetaAfter(meta, Records(root, []), p, k)
            && Normal(MetaAfter(meta, Records(root, []), p, k)[id], id, p)
  {
    var records := Records(root, []);
    RecordsPostOrdered(root, []);
    assert j < i;
    if k <= 2 * i {
      UntouchedIsUnchanged(meta, records, p, k, i);
    }
    FinishedIsNormal(meta, records, p, k, j);
  }

  predicate StrictObject(i: Identity) {
    i.fileType == S_IFDIR || (i.fileType == S_IFREG && i.links == 1)
  }

  lemma {:induction false} StrictTypes(node: Node, depth: nat, path: Path)
    requires WellFormed(node) && Traversable(node, depth, STRICT)
    ensures forall i :: 0 <= i < |Records(node, path)| ==>
              StrictObject(Records(node, path)[i].identity)
    decreases Size(node), 1
  {
    SortCorrect(node.entries);
    if node.IsDirectory() {
      SortKeeps(node.entries, path, depth, STRICT);
      StrictForestTypes(Sort(node.entries), depth, path);
    } else {
      assert Sort(Empty) == Empty && CanonicalForest(Empty) == Empty && ForestListing(Empty, path) == [];
    }
    assert Records(node, path) == SubtreeRecords(Sort(node.entries), path) + [Record(path, node.identity)];
  }

  lemma {:induction false} StrictForestTypes(f: Forest, depth: nat, path: Path)
    requires WellFormedForest(f) && ForestTraversable(f, depth, STRICT)
    ensures forall i :: 0 <= i < |SubtreeRecords(f, path)| ==>
              StrictObject(SubtreeRecords(f, path)[i].identity)
    decreases ForestSize(f), 0
  {
    if f.Empty? {
    } else {
      StrictTypes(f.node, depth + 1, path + [f.name]);
      StrictForestTypes(f.rest, depth, path);
      assert SubtreeRecords(f, path) == Records(f.node, path + [f.name]) + SubtreeRecords(f.rest, path);
    }
  }

  // After a successful normalisation the strict validation accepts with the same arguments.
  lemma NormalisedValidates(root: Node, meta: Metadata, p: Permissions)
    requires WellFormed(root) && PreflightPasses(root, STRICT) && Covers(meta, Records(root, []))
    ensures TreeValid(root, ApplyAll(meta, AllWrites(Records(root, []), p)), p, STRICT_VALIDATION)
  {
    var records := Records(root, []);
    var ws := AllWrites(records, p);
    var after := ApplyAll(meta, ws);
    assert ws[..2 * |records|] == ws;
    StrictTypes(root, 0, []);
    forall i | 0 <= i < |records|
      ensures records[i].identity in after
      ensures MetadataAccepted(after[records[i].identity], records[i], p, STRICT_VALIDATION)
    {
      FinishedIsNormal(meta, records, p, 2 * |records|, i);
    }
  }

  // What the strict validation accepts, every other one accepts as well, but for the link
  // inventory: an inventory passes exactly if no file is met under two names.
  lemma StrictAcceptsAll(root: Node, meta: Metadata, p: Permissions, v: Validation)
    requires WellFormed(root) && TreeValid(root, meta, p, STRICT_VALIDATION)
    ensures TreeValid(root, meta, p, v) <==>
            (v.policy.hardLinks ==> HardLinks.DistinctKeys(RegularOf(Records(root, []))))
  {
    var records := Records(root, []);
    var regular := RegularOf(records);
    StrictTraversable(root, 0, v.policy);
    forall i | 0 <= i < |records| ensures MetadataAccepted(meta[records[i].identity], records[i], p, v) {
      StrictMetadata(meta[records[i].identity], records[i], p, v);
    }
    StrictTypes(root, 0, []);
    RegularOnly(records);
    forall k | 0 <= k < |regular| ensures regular[k].identity.links == 1 {
      var i :| 0 <= i < |records| && records[i] == regular[k];
      assert StrictObject(records[i].identity);
    }
    HardLinks.SingleLinks(regular);
  }

  // So the validation of a part accepts its tree after the normalisation of that part.
  lemma NormalisedIsAccepted(root: Node, meta: Metadata, p: Permissions, v: Validation)
    requires WellFormed(root) && PreflightPasses(root, STRICT) && Covers(meta, Records(root, []))
    ensures TreeValid(root, ApplyAll(meta, AllWrites(Records(root, []), p)), p, v) <==>
            (v.policy.hardLinks ==> HardLinks.DistinctKeys(RegularOf(Records(root, []))))
  {
    NormalisedValidates(root, meta, p);
    StrictAcceptsAll(root, ApplyAll(meta, AllWrites(Records(root, []), p)), p, v);
  }

  lemma NormalisedPartsAccepted(root: Node, meta: Metadata, p: Permissions, files: WorkerFiles)
    requires WellFormed(root) && PreflightPasses(root, STRICT) && Covers(meta, Records(root, []))
    ensures var after := ApplyAll(meta, AllWrites(Records(root, []), p));
            && TreeValid(root, after, p, QueueValidation(files))
            && TreeValid(root, after, p, REPOSITORY_VALIDATION) && TreeValid(root, after, p, RELEASE_VALIDATION)
            && (TreeValid(root, after, p, SEARCH_INDEX_VALIDATION) <==>
                HardLinks.DistinctKeys(RegularOf(Records(root, []))))
  {
    NormalisedIsAccepted(root, meta, p, QueueValidation(files));
    NormalisedIsAccepted(root, meta, p, REPOSITORY_VALIDATION);
    NormalisedIsAccepted(root, meta, p, RELEASE_VALIDATION);
    NormalisedIsAccepted(root, meta, p, SEARCH_INDEX_VALIDATION);
  }

  /* ---------------- the rerun's judgement of a search index root ---------------- */

  const PRIVATE_MODE: nat := 0x1C0
  const INDEX_MODE: nat := 0x5E8

  // A root that is not the private directory of the administrator counts as provisioned.
  predicate TakenAsFinished(root: Meta, administrator: nat) {
    !(root.uid == administrator && root.mode == PRIVATE_MODE)
  }

  // `require_directory_metadata` on the search index root.
  predicate IndexRootAccepted(root: Meta, worker: nat, gateway: nat) {
    root.uid == worker && root.gid == gateway && root.mode == INDEX_MODE
  }

  // The root is judged finished from its change of owner on, one write before the run is
  // done. In between, and only there, the judgement is wrong; everything below the root is
  // normal even then, and the permission check that follows refuses the root.
  lemma IndexJudgement(root: Node, meta: Metadata, p: Permissions, administrator: nat, k: nat)
    requires WellFormed(root) && root.IsDirectory() && Covers(meta, Records(root, []))
    requires var records := Records(root, []);
             && k <= 2 * |records|
             && (forall n :: 0 <= n < |records| - 1 ==> records[n].identity != root.identity)
    requires meta[root.identity].uid == administrator && meta[root.identity].mode == PRIVATE_MODE
    requires p.owner.Some? && p.owner.value != administrator && p.directoryMode == INDEX_MODE
    ensures var records := Records(root, []);
            var after := MetaAfter(meta, records, p, k);
            && after.Keys == meta.Keys
            && (TakenAsFinished(after[root.identity], administrator) <==> k >= 2 * |records| - 1)
            && (IndexRootAccepted(after[root.identity], p.owner.value, p.group) <==> k == 2 * |records|)
            && ((forall n :: 0 <= n < |records| ==> Normal(after[records[n].identity], records[n].identity, p))
                <==> k == 2 * |records|)
            && (TakenAsFinished(after[root.identity], administrator) ==>
                  forall n :: 0 <= n < |records| - 1 ==> Normal(after[records[n].identity], records[n].identity, p))
  {
    var records := Records(root, []);
    var last := |records| - 1;
    assert records[last] == Record([], root.identity);
    ApplyKeys(meta, AllWrites(records, p)[..k]);
    if k <= 2 * last {
      UntouchedIsUnchanged(meta, records, p, k, last);
    } else {
      UntouchedIsUnchanged(meta, records, p, 2 * last, last);
      StepOf(meta, records, p, 2 * last);
      WritesTowards(records, p);
      forall n | 0 <= n < last ensures Normal(MetaAfter(meta, records, p, k)[records[n].identity], records[n].identity, p) {
        FinishedIsNormal(meta, records, p, k, n);
      }
      if k == 2 * last + 2 {
        FinishedIsNormal(meta, records, p, k, last);
      }
    }
  }

  // An index that is only its root, after one write: judged finished, and not finished.
  lemma IndexJudgedTooEarly()
    ensures var id := Identity(1, 1, 2, S_IFDIR, 2);
            var records := Records(Node(id, false, Empty), []);
            var after := MetaAfter(map[id := Meta(0, 0, PRIVATE_MODE)], records, Permissions(Some(7), 8, INDEX_MODE, 0x1A0), 1);
            && |records| == 1 && id in after
            && TakenAsFinished(after[id], 0) && !IndexRootAccepted(after[id], 7, 8)
  {
    var id := Identity(1, 1, 2, S_IFDIR, 2);
    var root := Node(id, false, Empty);
    var records := Records(root, []);
    assert Sort(Empty) == Empty && CanonicalForest(Empty) == Empty && ForestListing(Empty, []) == [];
    assert records == [Record([], id)];
    assert WellFormed(root);
    IndexJudgement(root, map[id := Meta(0, 0, PRIVATE_MODE)], Permissions(Some(7), 8, INDEX_MODE, 0x1A0), 0, 1);
  }
}
