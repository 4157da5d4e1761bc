/**
 The record stream that a tree fingerprint digests: a post-order listing of paths and
 identities, each record length-prefixed. SHA-256 is taken as injective, so the model's
 digest is the stream itself.
 */
module TreeFingerprint {
  import opened Wrappers
  import opened Text
  import opened ObjectTree

  datatype Record = Record(path: Path, identity: Identity)

  /* ---------------- the stream ---------------- */

  function Power256(k: nat): nat {
    if k == 0 then 1 else 256 * Power256(k - 1)
  }

  // `to_be_bytes` at a width in bytes.
  function BigEndian(n: nat, width: nat): (s: string)
    ensures |s| == width
  {
    if width == 0 then [] else BigEndian(n / 256, width - 1) + [(n % 256) as char]
  }

  lemma {:induction false} BigEndianInjective(n: nat, m: nat, width: nat)
    requires n < Power256(width) && m < Power256(width) && BigEndian(n, width) == BigEndian(m, width)
    ensures n == m
  {
    if width == 0 {
    } else {
      var a, b := BigEndian(n, width), BigEndian(m, width);
      assert a[..width - 1] == BigEndian(n / 256, width - 1) && b[..width - 1] == BigEndian(m / 256, width - 1);
      assert a[width - 1] == b[width - 1];
      BigEndianInjective(n / 256, m / 256, width - 1);
    }
  }

  // The bytes of a path: components joined by slashes, nothing for the root itself.
  function Render(path: Path): string {
    if path == [] then "" else Join(path, '/')
  }

  predicate ValidPath(path: Path) {
    forall i :: 0 <= i < |path| ==> ValidName(path[i])
  }

  lemma RenderInjective(p: Path, q: Path)
    requires ValidPath(p) && ValidPath(q) && Render(p) == Render(q)
    ensures p == q
  {
    if p != [] && q != [] {
      SplitJoin(p, '/');
      SplitJoin(q, '/');
    } else {
      RenderNonEmpty(p);
      RenderNonEmpty(q);
    }
  }

  lemma RenderNonEmpty(p: Path)
    requires ValidPath(p)
    ensures p != [] ==> Render(p) != ""
  {
    if p != [] {
      assert ValidName(p[0]);
    }
  }

  predicate U64(n: nat) {
    n < Power256(8)
  }

  predicate ValidIdentity(i: Identity) {
    U64(i.mount) && U64(i.device) && U64(i.inode) && i.fileType < Power256(4) && U64(i.links)
  }

  predicate ValidRecord(r: Record) {
    ValidPath(r.path) && U64(|Render(r.path)|) && ValidIdentity(r.identity)
  }

  // The fixed 36 bytes of an identity.
  function EncodeIdentity(i: Identity): (s: string)
    ensures |s| == 36
  {
    BigEndian(i.mount, 8) + BigEndian(i.device, 8) + BigEndian(i.inode, 8)
    + BigEndian(i.fileType, 4) + BigEndian(i.links, 8)
  }

  function EncodeRecord(r: Record): string {
    BigEndian(|Render(r.path)|, 8) + Render(r.path) + EncodeIdentity(r.identity)
  }

  ghost predicate AllValid(records: seq<Record>) {
    forall i :: 0 <= i < |records| ==> ValidRecord(records[i])
  }

  function Encodings(records: seq<Record>): seq<string> {
    seq(|records|, i requires 0 <= i < |records| => EncodeRecord(records[i]))
  }

  function Stream(records: seq<Record>): string {
    Flatten(Encodings(records))
  }

  lemma IdentityInjective(i: Identity, j: Identity)
    requires ValidIdentity(i) && ValidIdentity(j) && EncodeIdentity(i) == EncodeIdentity(j)
    ensures i == j
  {
    var a, b := EncodeIdentity(i), EncodeIdentity(j);
    assert a[0..8] == BigEndian(i.mount, 8) && b[0..8] == BigEndian(j.mount, 8);
    assert a[8..16] == BigEndian(i.device, 8) && b[8..16] == BigEndian(j.device, 8);
    assert a[16..24] == BigEndian(i.inode, 8) && b[16..24] == BigEndian(j.inode, 8);
    assert a[24..28] == BigEndian(i.fileType, 4) && b[24..28] == BigEndian(j.fileType, 4);
    assert a[28..36] == BigEndian(i.links, 8) && b[28..36] == BigEndian(j.links, 8);
    BigEndianInjective(i.mount, j.mount, 8);
    BigEndianInjective(i.device, j.device, 8);
    BigEndianInjective(i.inode, j.inode, 8);
    BigEndianInjective(i.fileType, j.fileType, 4);
    BigEndianInjective(i.links, j.links, 8);
  }

  // The first record of a stream can be told from what follows it.
  lemma RecordPrefixFree(r: Record, s: Record, x: string, y: string)
    requires ValidRecord(r) && ValidRecord(s) && EncodeRecord(r) + x == EncodeRecord(s) + y
    ensures r == s && x == y
  {
    var a, b := EncodeRecord(r) + x, EncodeRecord(s) + y;
    var p, q := Render(r.path), Render(s.path);
    assert a[..8] == BigEndian(|p|, 8) && b[..8] == BigEndian(|q|, 8);
    BigEndianInjective(|p|, |q|, 8);
    assert a[8..8 + |p|] == p && b[8..8 + |q|] == q;
    RenderInjective(r.path, s.path);
    var k := 8 + |p|;
    assert a[k..k + 36] == EncodeIdentity(r.identity) && b[k..k + 36] == EncodeIdentity(s.identity);
    IdentityInjective(r.identity, s.identity);
    assert a[k + 36..] == x && b[k + 36..] == y;
  }

  lemma StreamHead(a: seq<Record>)
    requires a != []
    ensures Stream(a) == EncodeRecord(a[0]) + Stream(a[1..]) && Stream(a) != ""
  {
    assert Encodings(a)[1..] == Encodings(a[1..]);
    assert |EncodeRecord(a[0])| >= 44;
  }

  // The stream is uniquely decodable.
  lemma {:induction false} StreamInjective(a: seq<Record>, b: seq<Record>)
    requires AllValid(a) && AllValid(b) && Stream(a) == Stream(b)
    ensures a == b
  {
    if a != [] {
      StreamHead(a);
    }
    if b != [] {
      StreamHead(b);
    }
    if a != [] && b != [] {
      RecordPrefixFree(a[0], b[0], Stream(a[1..]), Stream(b[1..]));
      StreamInjective(a[1..], b[1..]);
    }
  }

  lemma StreamAppend(a: seq<Record>, b: seq<Record>)
    ensures Stream(a + b) == Stream(a) + Stream(b)
  {
    assert Encodings(a + b) == Encodings(a) + Encodings(b);
    FlattenAppend(Encodings(a), Encodings(b));
  }

  /* ---------------- the walk ---------------- */

  // Post-order: the records of the entries in order, then the directory itself.
  function Listing(node: Node, path: Path): (r: seq<Record>)
    ensures |r| > 0 && r[|r| - 1] == Record(path, node.identity)
  {
    ForestListing(node.entries, path) + [Record(path, node.identity)]
  }

  function ForestListing(f: Forest, path: Path): seq<Record> {
    match f
    case Empty => []
    case Entry(name, node, rest) => Listing(node, path + [name]) + ForestListing(rest, path)
  }

  // What every walker of the tree records.
  function Records(node: Node, path: Path): seq<Record> {
    Listing(Canonical(node), path)
  }

  // Every record of a subtree is under its path.
  predicate Under(path: Path, name: Name, r: Record) {
    |r.path| > |path| && r.path[|path|] == name
  }

  predicate Extends(path: Path, r: Record) {
    |r.path| >= |path| && r.path[..|path|] == path
  }

  lemma {:induction false} ListingExtends(node: Node, path: Path)
    ensures forall i :: 0 <= i < |Listing(node, path)| ==> Extends(path, Listing(node, path)[i])
  {
    ForestListingExtends(node.entries, path);
  }

  lemma {:induction false} ForestListingExtends(f: Forest, path: Path)
    ensures forall i :: 0 <= i < |ForestListing(f, path)| ==> Extends(path, ForestListing(f, path)[i])
  {
    if f.Empty? {
    } else {
      ListingExtends(f.node, path + [f.name]);
      ForestListingExtends(f.rest, path);
      var records := ForestListing(f, path);
      forall i | 0 <= i < |records| ensures Extends(path, records[i]) {
        var head := Listing(f.node, path + [f.name]);
        if i < |head| {
          assert Extends(path + [f.name], head[i]);
          assert records[i].path[..|path|] == records[i].path[..|path| + 1][..|path|] == path;
        } else {
          assert records[i] == ForestListing(f.rest, path)[i - |head|];
        }
      }
    }
  }

  lemma SubtreeUnder(node: Node, path: Path, name: Name)
    ensures forall i :: 0 <= i < |Listing(node, path + [name])| ==> Under(path, name, Listing(node, path + [name])[i])
  {
    var records := Listing(node, path + [name]);
    ListingExtends(node, path + [name]);
    forall i | 0 <= i < |records| ensures Under(path, name, records[i]) {
      assert Extends(path + [name], records[i]);
      assert records[i].path[|path|] == records[i].path[..|path| + 1][|path|];
    }
  }

  // The records of the other entries are never under an absent name.
  lemma {:induction false} ForestNotUnder(f: Forest, path: Path, name: Name)
    requires Find(f, name).None?
    ensures forall i :: 0 <= i < |ForestListing(f, path)| ==> !Under(path, name, ForestListing(f, path)[i])
  {
    if f.Empty? {
    } else {
      SubtreeUnder(f.node, path, f.name);
      ForestNotUnder(f.rest, path, name);
    }
  }

  // A listing splits into its first subtree and the rest in one way only.
  lemma SplitUnique(path: Path, name: Name, a: seq<Record>, x: seq<Record>, b: seq<Record>, y: seq<Record>)
    requires a + x == b + y
    requires forall i :: 0 <= i < |a| ==> Under(path, name, a[i])
    requires forall i :: 0 <= i < |b| ==> Under(path, name, b[i])
    requires forall i :: 0 <= i < |x| ==> !Under(path, name, x[i])
    requires forall i :: 0 <= i < |y| ==> !Under(path, name, y[i])
    ensures a == b && x == y
  {
    var s, k := a + x, if |a| < |b| then |a| else |b|;
    if k < |s| {
      assert Under(path, name, s[k]) <==> k < |a|;
      assert s[k] == (b + y)[k] && (Under(path, name, s[k]) <==> k < |b|);
    }
    assert a == (a + x)[..|a|] && b == (b + y)[..|b|];
    assert x == (a + x)[|a|..] && y == (b + y)[|b|..];
  }

  // The post-order walk determines the tree.
  lemma {:induction false} ListingInjective(a: Node, b: Node, path: Path)
    requires WellFormed(a) && WellFormed(b) && Listing(a, path) == Listing(b, path)
    requires !a.acl && !b.acl && NoAcl(a.entries) && NoAcl(b.entries)
    ensures a == b
    decreases a, 1
  {
    var x, y := Listing(a, path), Listing(b, path);
    assert ForestListing(a.entries, path) == x[..|x| - 1];
    assert ForestListing(b.entries, path) == y[..|y| - 1];
    ForestListingInjective(a.entries, b.entries, path);
  }

  lemma {:induction false} ForestListingInjective(f: Forest, g: Forest, path: Path)
    requires WellFormedForest(f) && WellFormedForest(g) && NoAcl(f) && NoAcl(g)
    requires ForestListing(f, path) == ForestListing(g, path)
    ensures f == g
    decreases f, 0
  {
    if f.Entry? && g.Entry? {
      var a, x := Listing(f.node, path + [f.name]), ForestListing(f.rest, path);
      var b, y := Listing(g.node, path + [g.name]), ForestListing(g.rest, path);
      SubtreeUnder(f.node, path, f.name);
      SubtreeUnder(g.node, path, g.name);
      assert (a + x)[0] == a[0] && (b + y)[0] == b[0];
      assert f.name == g.name;
      ForestNotUnder(f.rest, path, f.name);
      ForestNotUnder(g.rest, path, g.name);
      SplitUnique(path, f.name, a, x, b, y);
      ListingInjective(f.node, g.node, path + [f.name]);
      ForestListingInjective(f.rest, g.rest, path);
    }
  }

  predicate NoAcl(f: Forest) {
    match f
    case Empty => true
    case Entry(_, node, rest) => !node.acl && NoAcl(node.entries) && NoAcl(rest)
  }

  lemma {:induction false} CanonicalWellFormed(node: Node)
    requires WellFormed(node)
    ensures WellFormed(Canonical(node)) && NoAcl(Canonical(node).entries)
    decreases Size(node)
  {
    SortCorrect(node.entries);
    CanonicalForestWellFormed(Sort(node.entries));
  }

  lemma {:induction false} CanonicalForestWellFormed(f: Forest)
    requires WellFormedForest(f)
    ensures WellFormedForest(CanonicalForest(f)) && NoAcl(CanonicalForest(f))
    decreases ForestSize(f)
  {
    if f.Empty? {
    } else {
      CanonicalWellFormed(f.node);
      CanonicalForestWellFormed(f.rest);
      FindCanonical(f.rest, f.name);
    }
  }

  // Soundness and completeness: two trees have one fingerprint exactly when they have the
  // same names, the same shape and the same identities.
  lemma FingerprintExact(a: Node, b: Node)
    requires WellFormed(a) && WellFormed(b)
    requires AllValid(Records(a, [])) && AllValid(Records(b, []))
    ensures Stream(Records(a, [])) == Stream(Records(b, [])) <==> Same(a, b)
  {
    CanonicalExact(a, b);
    if Stream(Records(a, [])) == Stream(Records(b, [])) {
      StreamInjective(Records(a, []), Records(b, []));
      CanonicalWellFormed(a);
      CanonicalWellFormed(b);
      ListingInjective(Canonical(a), Canonical(b), []);
    }
  }
}
