/**
 Normalising and validating a storage tree: all or nothing, and what a crash between two
 metadata writes can leave behind.
 */
module TreeAdministration {
  import opened Wrappers
  import opened ObjectTree
  import opened TreeFingerprint
  import opened TreePolicy
  import opened TreeVisits
  import opened TreeWalk
  import HardLinks

  /* ---------------- what the walks decide together ---------------- */

  // The verdict of `validate_storage_tree` and of the validations of the other parts.
  ghost predicate TreeValid(root: Node, meta: Metadata, p: Permissions, v: Validation) {
    var records := Records(root, []);
    && PreflightPasses(root, v.policy)
    && Covers(meta, records) && AllAccepted(meta, records, p, v)
    && (v.policy.hardLinks ==> HardLinks.InventoryPasses(RegularOf(records)))
  }

  function FingerprintOf(root: Node): Fingerprint {
    Fingerprint(Count(root), PathBytes(root, []), Stream(Records(root, [])))
  }

  // A second walk must find the fingerprint of the first.
  method VerifyFingerprint(root: Node, expected: Fingerprint, policy: Policy) returns (r: Result<(), Error>)
    requires WellFormed(root) && root.IsDirectory()
    ensures r.Success? <==>
            && WalkPasses(root, 0, [], policy, 0, 0)
            && (policy.hardLinks ==> HardLinks.InventoryPasses(RegularOf(Records(root, []))))
            && expected == FingerprintOf(root)
  {
    var observed := new TreeFingerprintBuilder();
    var inventory := new HardLinks.HardLinkInventory();
    ghost var start := observed.View(map[], map[], []);
    VisitExact(start, root, 0, [], policy, Fingerprinting);
    r := FingerprintDirectory(root, 0, [], observed, policy, inventory);
    if r.Failure? {
      return;
    }
    assert observed.records == Records(root, []);
    if policy.hardLinks {
      var balanced := inventory.Finish();
      if balanced.Failure? {
        return Failure(HardLink(balanced.error));
      }
    }
    if Fingerprint(observed.entries, observed.pathBytes, observed.stream) != expected {
      return Failure(TreeChanged([]));
    }
    return Success(());
  }

  // Every refusal precedes the first write, and what follows the preflight cannot fail.
  method NormalizeStorageTree(root: Node, storage: Storage, p: Permissions) returns (r: Result<(), Error>)
    requires WellFormed(root) && root.IsDirectory()
    modifies storage
    ensures r.Success? <==> PreflightPasses(root, STRICT)
    ensures r.Failure? ==> storage.meta == old(storage.meta) && storage.log == old(storage.log)
    ensures r.Success? ==>
              && storage.meta == ApplyAll(old(storage.meta), AllWrites(Records(root, []), p))
              && storage.log == old(storage.log) + AllWrites(Records(root, []), p)
  {
    var budget := new MigrationBudget();
    r := PreflightDirectory(root, 0, [], budget, STRICT);
    if r.Failure? {
      return;
    }
    var fingerprint := new TreeFingerprintBuilder();
    ghost var start := fingerprint.View(map[], storage.meta, storage.log);
    VisitExact(start, root, 0, [], STRICT, Migrating(p));
    r := MigrateDirectory(root, 0, [], fingerprint, storage, p);
    assert r.Success?;
    assert fingerprint.records == Records(root, []);
    r := VerifyFingerprint(root, Fingerprint(fingerprint.entries, fingerprint.pathBytes, fingerprint.stream), STRICT);
  }

  // The validating walk with its link inventory.
  method ValidateWalk(root: Node, storage: Storage, p: Permissions, v: Validation) returns (r: Result<Fingerprint, Error>)
    requires WellFormed(root) && root.IsDirectory()
    ensures r.Success? <==>
            var records := Records(root, []);
            && WalkPasses(root, 0, [], v.policy, 0, 0) && AclFree(root)
            && Covers(storage.meta, records) && AllAccepted(storage.meta, records, p, v)
            && (v.policy.hardLinks ==> HardLinks.InventoryPasses(RegularOf(records)))
    ensures r.Success? ==> r.value == FingerprintOf(root)
  {
    var fingerprint := new TreeFingerprintBuilder();
    var inventory := new HardLinks.HardLinkInventory();
    ghost var start := fingerprint.View(map[], storage.meta, storage.log);
    VisitExact(start, root, 0, [], v.policy, Validating(p, v));
    var walked := ValidateDirectory(root, 0, [], fingerprint, inventory, storage, p, v);
    if walked.Failure? {
      return Failure(walked.error);
    }
    assert fingerprint.records == Records(root, []);
    if v.policy.hardLinks {
      var balanced := inventory.Finish();
      if balanced.Failure? {
        return Failure(HardLink(balanced.error));
      }
    }
    return Success(Fingerprint(fingerprint.entries, fingerprint.pathBytes, fingerprint.stream));
  }

  // `validate_storage_tree` with the strict policy, the validations of the other parts with theirs.
  method ValidateTree(root: Node, storage: Storage, p: Permissions, v: Validation) returns (r: Result<(), Error>)
    requires WellFormed(root) && root.IsDirectory()
    ensures r.Success? <==> TreeValid(root, storage.meta, p, v)
  {
    var budget := new MigrationBudget();
    r := PreflightDirectory(root, 0, [], budget, v.policy);
    if r.Failure? {
      return;
    }
    var fingerprint := ValidateWalk(root, storage, p, v);
    if fingerprint.Failure? {
      return Failure(fingerprint.error);
    }
    r := VerifyFingerprint(root, fingerprint.value, v.policy);
  }
}
