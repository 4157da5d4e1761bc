/**
 Directory trees as the storage walkers meet them: every node has the identity that the
 kernel reports, and a directory lists its entries in no particular order.
 */
module ObjectTree {
  import opened Wrappers

  // The components of a path below the walked root.
  type Path = seq<Name>

  const S_IFDIR: nat := 0x4000
  const S_IFREG: nat := 0x8000
  const S_IFLNK: nat := 0xA000

  datatype Identity = Identity(mount: nat, device: nat, inode: nat, fileType: nat, links: nat)

  datatype Node = Node(identity: Identity, acl: bool, entries: Forest) {
    predicate IsDirectory() {
      identity.fileType == S_IFDIR
    }

    predicate IsRegular() {
      identity.fileType == S_IFREG
    }
  }

  datatype Forest = Empty | Entry(name: Name, node: Node, rest: Forest)

  function Size(node: Node): nat {
    1 + ForestSize(node.entries)
  }

  function ForestSize(f: Forest): nat {
    match f
    case Empty => 0
    case Entry(_, node, rest) => 1 + Size(node) + ForestSize(rest)
  }

  function Find(f: Forest, name: Name): (r: Option<Node>)
    ensures r.Some? ==> Size(r.value) < ForestSize(f)
  {
    match f
    case Empty => None
    case Entry(n, node, rest) => if n == name then Some(node) else Find(rest, name)
  }

  predicate ValidName(name: Name) {
    && name != "" && '/' !in name
    && (forall i :: 0 <= i < |name| ==> name[i] as int < 256)
  }

  // What any file system guarantees: names are valid and distinct, only directories have
  // entries.
  predicate WellFormed(node: Node) {
    && (node.entries.Entry? ==> node.IsDirectory())
    && WellFormedForest(node.entries)
  }

  predicate WellFormedForest(f: Forest) {
    match f
    case Empty => true
    case Entry(name, node, rest) =>
      ValidName(name) && WellFormed(node) && WellFormedForest(rest) && Find(rest, name).None?
  }

  /* ---------------- byte order and sorting ---------------- */

  predicate NameLess(a: Name, b: Name)
    decreases |a|
  {
    b != "" && (a == "" || a[0] < b[0] || (a[0] == b[0] && NameLess(a[1..], b[1..])))
  }

  lemma {:induction false} NameLessTotal(a: Name, b: Name)
    ensures NameLess(a, b) || NameLess(b, a) || a == b
    ensures !(NameLess(a, b) && NameLess(b, a))
    ensures a == b ==> !NameLess(a, b)
    decreases |a|
  {
    if a != "" && b != "" && a[0] == b[0] {
      NameLessTotal(a[1..], b[1..]);
      assert a == [a[0]] + a[1..] && b == [b[0]] + b[1..];
    }
  }

  lemma {:induction false} NameLessTransitive(a: Name, b: Name, c: Name)
    requires NameLess(a, b) && NameLess(b, c)
    ensures NameLess(a, c)
    decreases |a|
  {
    if a != "" && a[0] == b[0] && b[0] == c[0] {
      NameLessTransitive(a[1..], b[1..], c[1..]);
    }
  }

  // The order of bytes: at the first place where they differ the lesser name ends or has the
  // lesser byte.
  lemma {:induction false} NameLessExact(a: Name, b: Name)
    ensures NameLess(a, b) <==>
            exists k :: 0 <= k <= |a| && k < |b| && a[..k] == b[..k] && (k == |a| || a[k] < b[k])
    decreases |a|
  {
    if a == "" || b == "" || a[0] != b[0] {
      if a == "" && b != "" {
        assert a[..0] == b[..0];
      } else if a != "" && b != "" && a[0] < b[0] {
        assert a[..0] == b[..0] && a[0] < b[0];
      }
      forall k | 0 < k <= |a| && k < |b| ensures a[..k] != b[..k] {
        assert a[..k][0] == a[0] && b[..k][0] == b[0];
      }
    } else {
      NameLessExact(a[1..], b[1..]);
      if k :| 0 <= k <= |a[1..]| && k < |b[1..]| && a[1..][..k] == b[1..][..k] && (k == |a[1..]| || a[1..][k] < b[1..][k]) {
        assert a[..k + 1] == [a[0]] + a[1..][..k] && b[..k + 1] == [b[0]] + b[1..][..k];
        assert a[..k + 1] == b[..k + 1] && (k + 1 == |a| || a[k + 1] < b[k + 1]);
      }
      if k :| 0 <= k <= |a| && k < |b| && a[..k] == b[..k] && (k == |a| || a[k] < b[k]) {
        assert k > 0;
        assert a[1..][..k - 1] == a[..k][1..] && b[1..][..k - 1] == b[..k][1..];
        assert a[1..][..k - 1] == b[1..][..k - 1] && (k - 1 == |a[1..]| || a[1..][k - 1] < b[1..][k - 1]);
      }
    }
  }

  function Insert(name: Name, node: Node, f: Forest): (r: Forest)
    ensures ForestSize(r) == 1 + Size(node) + ForestSize(f)
  {
    match f
    case Empty => Entry(name, node, Empty)
    case Entry(n, child, rest) =>
      if NameLess(n, name) then Entry(n, child, Insert(name, node, rest)) else Entry(name, node, f)
  }

  // The entries of a directory in the order of `directory_entries`.
  function Sort(f: Forest): (r: Forest)
    ensures ForestSize(r) == ForestSize(f)
  {
    match f
    case Empty => Empty
    case Entry(name, node, rest) => Insert(name, node, Sort(rest))
  }

  predicate Sorted(f: Forest) {
    match f
    case Empty => true
    case Entry(name, _, rest) => (rest.Entry? ==> NameLess(name, rest.name)) && Sorted(rest)
  }

  lemma {:induction false} FindInsert(name: Name, node: Node, f: Forest, n: Name)
    requires Find(f, name).None?
    ensures Find(Insert(name, node, f), n) == if n == name then Some(node) else Find(f, n)
  {
    if f.Empty? {
    } else {
      FindInsert(name, node, f.rest, n);
    }
  }

  lemma {:induction false} InsertSorted(name: Name, node: Node, f: Forest)
    requires Sorted(f) && Find(f, name).None?
    ensures Sorted(Insert(name, node, f))
  {
    if f.Empty? {
    } else {
      NameLessTotal(f.name, name);
      InsertSorted(name, node, f.rest);
    }
  }

  lemma {:induction false} InsertWellFormed(name: Name, node: Node, f: Forest)
    requires WellFormedForest(f) && ValidName(name) && WellFormed(node) && Find(f, name).None?
    ensures WellFormedForest(Insert(name, node, f))
  {
    if f.Empty? {
    } else {
      InsertWellFormed(name, node, f.rest);
      FindInsert(name, node, f.rest, f.name);
    }
  }

  // Sorting keeps exactly the same entries and puts them in strictly ascending order.
  lemma {:induction false} SortCorrect(f: Forest)
    requires WellFormedForest(f)
    ensures WellFormedForest(Sort(f)) && Sorted(Sort(f))
    ensures forall n :: Find(Sort(f), n) == Find(f, n)
  {
    if f.Empty? {
    } else {
      SortCorrect(f.rest);
      var sorted := Sort(f.rest);
      InsertSorted(f.name, f.node, sorted);
      InsertWellFormed(f.name, f.node, sorted);
      forall n ensures Find(Sort(f), n) == Find(f, n) {
        FindInsert(f.name, f.node, sorted, n);
      }
    }
  }

  lemma {:induction false} SortedHeadIsLeast(f: Forest, n: Name)
    requires f.Entry? && Sorted(f) && Find(f, n).Some?
    ensures n == f.name || NameLess(f.name, n)
  {
    if n == f.name {
    } else {
      SortedHeadIsLeast(f.rest, n);
      if n != f.rest.name {
        NameLessTransitive(f.name, f.rest.name, n);
      }
    }
  }

  lemma SortedRestLacksHead(f: Forest)
    requires f.Entry? && Sorted(f)
    ensures Find(f.rest, f.name).None?
  {
    if Find(f.rest, f.name).Some? {
      SortedHeadIsLeast(f.rest, f.name);
      NameLessTotal(f.name, f.rest.name);
      assert false;
    }
  }

  // Two sorted directories with the same entries are the same sequence.
  lemma {:induction false} SortedExtensional(f: Forest, g: Forest)
    requires Sorted(f) && Sorted(g) && forall n :: Find(f, n) == Find(g, n)
    ensures f == g
  {
    assert g.Entry? ==> Find(g, g.name).Some?;
    if f.Empty? {
    } else {
      assert Find(g, f.name).Some?;
      SortedHeadIsLeast(g, f.name);
      assert Find(f, g.name).Some?;
      SortedHeadIsLeast(f, g.name);
      NameLessTotal(f.name, g.name);
      SortedRestLacksHead(f);
      SortedRestLacksHead(g);
      forall n ensures Find(f.rest, n) == Find(g.rest, n) {
        assert Find(f, n) == Find(g, n);
      }
      SortedExtensional(f.rest, g.rest);
    }
  }

  /* ---------------- trees up to the order of entries ---------------- */

  // Entries sorted at every level; access-control lists are not part of the shape.
  function Canonical(node: Node): (r: Node)
    decreases Size(node)
  {
    Node(node.identity, false, CanonicalForest(Sort(node.entries)))
  }

  function CanonicalForest(f: Forest): (r: Forest)
    decreases ForestSize(f)
  {
    match f
    case Empty => Empty
    case Entry(name, node, rest) => Entry(name, Canonical(node), CanonicalForest(rest))
  }

  // The same names, shape and identities, whatever the order of the entries.
  ghost predicate Same(a: Node, b: Node)
    decreases Size(a)
  {
    && a.identity == b.identity
    && (forall n :: Find(a.entries, n).Some? <==> Find(b.entries, n).Some?)
    && (forall n :: Find(a.entries, n).Some? && Find(b.entries, n).Some? ==>
          Same(Find(a.entries, n).value, Find(b.entries, n).value))
  }

  lemma {:induction false} FindCanonical(f: Forest, n: Name)
    ensures Find(CanonicalForest(f), n) ==
            if Find(f, n).Some? then Some(Canonical(Find(f, n).value)) else None
  {
    if f.Empty? {
    } else {
      FindCanonical(f.rest, n);
    }
  }

  lemma {:induction false} CanonicalSorted(f: Forest)
    requires Sorted(f)
    ensures Sorted(CanonicalForest(f))
  {
    if f.Empty? {
    } else {
      CanonicalSorted(f.rest);
    }
  }

  lemma {:induction false} FindWellFormed(f: Forest, n: Name)
    requires WellFormedForest(f) && Find(f, n).Some?
    ensures WellFormed(Find(f, n).value)
  {
    if n == f.name {
    } else {
      FindWellFormed(f.rest, n);
    }
  }

  lemma {:induction false} CanonicalExact(a: Node, b: Node)
    requires WellFormed(a) && WellFormed(b)
    ensures Canonical(a) == Canonical(b) <==> Same(a, b)
    decreases Size(a)
  {
    var f, g := CanonicalForest(Sort(a.entries)), CanonicalForest(Sort(b.entries));
    SortCorrect(a.entries);
    SortCorrect(b.entries);
    CanonicalSorted(Sort(a.entries));
    CanonicalSorted(Sort(b.entries));
    forall n
      ensures Find(f, n) == if Find(a.entries, n).Some? then Some(Canonical(Find(a.entries, n).value)) else None
      ensures Find(g, n) == if Find(b.entries, n).Some? then Some(Canonical(Find(b.entries, n).value)) else None
    {
      FindCanonical(Sort(a.entries), n);
      FindCanonical(Sort(b.entries), n);
    }
    forall n | Find(a.entries, n).Some? && Find(b.entries, n).Some?
      ensures Canonical(Find(a.entries, n).value) == Canonical(Find(b.entries, n).value) <==>
              Same(Find(a.entries, n).value, Find(b.entries, n).value)
    {
      FindWellFormed(a.entries, n);
      FindWellFormed(b.entries, n);
      CanonicalExact(Find(a.entries, n).value, Find(b.entries, n).value);
    }
    if Same(a, b) {
      SortedExtensional(f, g);
    }
  }
}
