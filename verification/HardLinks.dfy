/** The hard-link inventory: every link of a file must be met inside the walked tree. */
module HardLinks {
  import opened Wrappers
  import opened ObjectTree
  import opened TreeFingerprint

  // What names an inode.
  datatype Key = Key(mount: nat, device: nat, inode: nat)

  datatype LinkRecord = LinkRecord(expected: nat, observed: nat, firstPath: Path)

  datatype Error = TreeChanged(path: Path) | UnsafeEntry(path: Path)

  type Inventory = map<Key, LinkRecord>

  function KeyOf(i: Identity): Key {
    Key(i.mount, i.device, i.inode)
  }

  function Observe(files: Inventory, r: Record): Result<Inventory, Error> {
    var key := KeyOf(r.identity);
    var found := if key in files then files[key] else LinkRecord(r.identity.links, 0, r.path);
    if found.expected != r.identity.links then
      Failure(TreeChanged(r.path))
    else if found.observed + 1 >= U64_LIMIT || found.observed + 1 > found.expected then
      Failure(UnsafeEntry(r.path))
    else
      Success(files[key := found.(observed := found.observed + 1)])
  }

  // All files of a walk, in order.
  function ObserveAll(files: Inventory, records: seq<Record>): Result<Inventory, Error> {
    if records == [] then
      Success(files)
    else
      var before := ObserveAll(files, records[..|records| - 1]);
      if before.Failure? then before else Observe(before.value, records[|records| - 1])
  }

  predicate Balanced(files: Inventory) {
    forall key <- files :: files[key].observed == files[key].expected
  }

  class HardLinkInventory {
    var files: Inventory

    constructor ()
      ensures files == map[]
    {
      files := map[];
    }

    method Record(path: Path, identity: Identity) returns (r: Result<(), Error>)
      modifies this
      ensures var spec := Observe(old(files), TreeFingerprint.Record(path, identity));
              && r.Success? == spec.Success?
              && (r.Success? ==> files == spec.value)
              && (r.Failure? ==> r.error == spec.error)
    {
      var key := KeyOf(identity);
      if key !in files {
        files := files[key := LinkRecord(identity.links, 0, path)];
      }
      var found := files[key];
      if found.expected != identity.links {
        return Failure(TreeChanged(path));
      }
      if found.observed + 1 >= U64_LIMIT {
        return Failure(UnsafeEntry(path));
      }
      found := found.(observed := found.observed + 1);
      files := files[key := found];
      if found.observed > found.expected {
        return Failure(UnsafeEntry(path));
      }
      return Success(());
    }

    method Finish() returns (r: Result<(), Error>)
      ensures r.Success? <==> Balanced(files)
    {
      var todo := files.Keys;
      while todo != {}
        invariant todo <= files.Keys
        invariant forall key :: key in files && key !in todo ==> files[key].observed == files[key].expected
        decreases |todo|
      {
        var key :| key in todo;
        if files[key].observed != files[key].expected {
          return Failure(UnsafeEntry(files[key].firstPath));
        }
        todo := todo - {key};
      }
      return Success(());
    }
  }

  lemma {:induction false} ObserveAppend(files: Inventory, a: seq<Record>, b: seq<Record>)
    ensures ObserveAll(files, a + b) ==
            var first := ObserveAll(files, a);
            if first.Failure? then first else ObserveAll(first.value, b)
    decreases |b|
  {
    if b == [] {
      assert a + b == a;
    } else {
      var c := a + b;
      assert c[..|c| - 1] == a + b[..|b| - 1];
      ObserveAppend(files, a, b[..|b| - 1]);
    }
  }

  /* ---------------- what acceptance means ---------------- */

  function Occurrences(key: Key, records: seq<Record>): nat {
    if records == [] then
      0
    else
      var last := |records| - 1;
      Occurrences(key, records[..last]) + if KeyOf(records[last].identity) == key then 1 else 0
  }

  // The link counts of one inode agree and fit a 64-bit counter.
  predicate Agree(records: seq<Record>) {
    && (forall i :: 0 <= i < |records| ==> records[i].identity.links < U64_LIMIT)
    && (forall i, j | 0 <= i < |records| && 0 <= j < |records|
                      && KeyOf(records[i].identity) == KeyOf(records[j].identity) ::
          records[i].identity.links == records[j].identity.links)
  }

  // After any accepted prefix the inventory counts exactly what was met.
  ghost predicate Counts(files: Inventory, records: seq<Record>) {
    && (forall i :: 0 <= i < |records| ==>
          KeyOf(records[i].identity) in files && files[KeyOf(records[i].identity)].expected == records[i].identity.links)
    && (forall key <- files ::
          && files[key].observed == Occurrences(key, records) > 0
          && files[key].observed <= files[key].expected)
    && (forall key :: key !in files ==> Occurrences(key, records) == 0)
  }

  lemma CountsStep(files: Inventory, records: seq<Record>)
    requires records != [] && Counts(files, records[..|records| - 1])
    requires Observe(files, records[|records| - 1]).Success?
    ensures Counts(Observe(files, records[|records| - 1]).value, records)
  {
    var last := |records| - 1;
    forall i | 0 <= i < last ensures KeyOf(records[i].identity) in files {
      assert records[..last][i] == records[i];
    }
  }

  lemma {:induction false} ObserveCounts(records: seq<Record>)
    requires ObserveAll(map[], records).Success?
    ensures Counts(ObserveAll(map[], records).value, records)
  {
    if records == [] {
    } else {
      var last := |records| - 1;
      ObserveCounts(records[..last]);
      CountsStep(ObserveAll(map[], records[..last]).value, records);
    }
  }

  lemma {:induction false} ObserveSucceeds(records: seq<Record>)
    requires Agree(records)
    requires forall i :: 0 <= i < |records| ==>
               Occurrences(KeyOf(records[i].identity), records) <= records[i].identity.links
    ensures ObserveAll(map[], records).Success?
  {
    if records == [] {
    } else {
      var last := |records| - 1;
      var before := records[..last];
      forall i | 0 <= i < last
        ensures Occurrences(KeyOf(before[i].identity), before) <= before[i].identity.links
      {
        assert before[i] == records[i];
      }
      ObserveSucceeds(before);
      ObserveCounts(before);
      var files, key := ObserveAll(map[], before).value, KeyOf(records[last].identity);
      if key in files {
        OccurrenceWitness(key, before);
      }
    }
  }

  lemma {:induction false} OccurrenceWitness(key: Key, records: seq<Record>)
    requires Occurrences(key, records) > 0
    ensures exists i :: 0 <= i < |records| && KeyOf(records[i].identity) == key
  {
    var last := |records| - 1;
    if KeyOf(records[last].identity) == key {
    } else {
      OccurrenceWitness(key, records[..last]);
      var i :| 0 <= i < last && KeyOf(records[..last][i].identity) == key;
      assert KeyOf(records[i].identity) == key;
    }
  }

  lemma {:induction false} OccurrencePositive(records: seq<Record>, i: nat)
    requires i < |records|
    ensures Occurrences(KeyOf(records[i].identity), records) > 0
  {
    var last := |records| - 1;
    if i >= last {
    } else {
      OccurrencePositive(records[..last], i);
    }
  }

  predicate InventoryPasses(records: seq<Record>) {
    var r := ObserveAll(map[], records);
    r.Success? && Balanced(r.value)
  }

  // The inventory passes exactly when, for every inode met, the link counts agree and equal
  // the number of times it was met.
  lemma InventoryExact(records: seq<Record>)
    requires forall i :: 0 <= i < |records| ==> records[i].identity.links < U64_LIMIT
    ensures InventoryPasses(records) <==>
            forall i :: 0 <= i < |records| ==>
              Occurrences(KeyOf(records[i].identity), records) == records[i].identity.links
  {
    var r := ObserveAll(map[], records);
    if r.Success? {
      ObserveCounts(records);
      if forall i :: 0 <= i < |records| ==> Occurrences(KeyOf(records[i].identity), records) == records[i].identity.links {
        forall key <- r.value ensures r.value[key].observed == r.value[key].expected {
          OccurrenceWitness(key, records);
        }
      }
    } else if forall i :: 0 <= i < |records| ==> Occurrences(KeyOf(records[i].identity), records) == records[i].identity.links {
      ObserveSucceeds(records);
    }
  }

  lemma {:induction false} OccurrencesAppend(key: Key, a: seq<Record>, b: seq<Record>)
    ensures Occurrences(key, a + b) == Occurrences(key, a) + Occurrences(key, b)
    decreases |b|
  {
    if b == [] {
      assert a + b == a;
    } else {
      var c := a + b;
      assert c[..|c| - 1] == a + b[..|b| - 1];
      OccurrencesAppend(key, a, b[..|b| - 1]);
    }
  }

  // Same mount, device and inode.
  predicate OneFile(a: Identity, b: Identity) {
    a.mount == b.mount && a.device == b.device && a.inode == b.inode
  }

  predicate DistinctKeys(records: seq<Record>) {
    forall i, j :: 0 <= i < j < |records| ==> !OneFile(records[i].identity, records[j].identity)
  }

  lemma OccursTwice(records: seq<Record>, i: nat, j: nat)
    requires i < j < |records| && KeyOf(records[i].identity) == KeyOf(records[j].identity)
    ensures Occurrences(KeyOf(records[i].identity), records) > 1
  {
    assert records == records[..j] + records[j..];
    OccurrencesAppend(KeyOf(records[i].identity), records[..j], records[j..]);
    OccurrencePositive(records[..j], i);
    OccurrencePositive(records[j..], 0);
  }

  lemma {:induction false} OccursOnce(records: seq<Record>, i: nat)
    requires i < |records| && DistinctKeys(records)
    ensures Occurrences(KeyOf(records[i].identity), records) == 1
  {
    var last := |records| - 1;
    if i == last {
      OccursNowhere(KeyOf(records[i].identity), records[..last]);
    } else {
      OccursOnce(records[..last], i);
    }
  }

  lemma OccursNowhere(key: Key, records: seq<Record>)
    requires forall i :: 0 <= i < |records| ==> KeyOf(records[i].identity) != key
    ensures Occurrences(key, records) == 0
  {
    if Occurrences(key, records) > 0 {
      OccurrenceWitness(key, records);
    }
  }

  // The inventory of files with one link each passes exactly when no two are one file.
  lemma SingleLinks(records: seq<Record>)
    requires forall i :: 0 <= i < |records| ==> records[i].identity.links == 1
    ensures InventoryPasses(records) <==> DistinctKeys(records)
  {
    InventoryExact(records);
    if DistinctKeys(records) {
      forall i | 0 <= i < |records| ensures Occurrences(KeyOf(records[i].identity), records) == 1 {
        OccursOnce(records, i);
      }
    } else {
      var i, j :| 0 <= i < j < |records| && KeyOf(records[i].identity) == KeyOf(records[j].identity);
      OccursTwice(records, i, j);
    }
  }

  // If a link count is the number of entries in the whole file system, the inventory of a
  // tree passes exactly when none of its files has a link outside the tree.
  lemma LinksStayInside(inside: seq<Record>, outside: seq<Record>)
    requires forall i :: 0 <= i < |inside| ==>
               && inside[i].identity.links < U64_LIMIT
               && inside[i].identity.links == Occurrences(KeyOf(inside[i].identity), inside + outside)
    ensures InventoryPasses(inside) <==>
            forall i, j :: 0 <= i < |inside| && 0 <= j < |outside| ==>
              KeyOf(inside[i].identity) != KeyOf(outside[j].identity)
  {
    InventoryExact(inside);
    forall i | 0 <= i < |inside|
      ensures Occurrences(KeyOf(inside[i].identity), inside) == inside[i].identity.links <==>
              forall j :: 0 <= j < |outside| ==> KeyOf(inside[i].identity) != KeyOf(outside[j].identity)
    {
      var key := KeyOf(inside[i].identity);
      OccurrencesAppend(key, inside, outside);
      if Occurrences(key, outside) > 0 {
        OccurrenceWitness(key, outside);
      }
      forall j | 0 <= j < |outside| && KeyOf(outside[j].identity) == key ensures Occurrences(key, outside) > 0 {
        OccurrencePositive(outside, j);
      }
    }
  }
}
