/**
 The export check of the client: what the server sent must be, byte for byte, what
 encoding its own entries gives, compared while it is being encoded.
 */
module CanonicalArchive {
  import opened Wrappers
  import opened Base64
  import opened Text
  import opened ObjectTree

  type Bytes = seq<byte>

  const MAXIMUM_TOTAL_BYTES := 64 * 1024 * 1024
  const MAXIMUM_FILE_BYTES := 32 * 1024 * 1024
  const MAXIMUM_FILE_COUNT := 256
  const INDEX := "index.md"

  // An entry as the tar reader delivers it; `size` is what its header says.
  datatype ArchiveEntry = ArchiveEntry(name: Name, regular: bool, single: bool, size: nat, content: Bytes)

  // The tar encoder, which writes an entry in some pieces and then a trailer, the names that
  // may be attached, and the document identifier in Markdown metadata.
  datatype Rules = Rules(
    pieces: ArchiveEntry -> seq<Bytes>,
    trailer: seq<Bytes>,
    attachment: Name -> bool,
    documentId: Bytes -> Option<nat>
  )

  datatype Error =
    | TooManyEntries | NonRegularEntry | InvalidOrDuplicatePath | FileLimit | ByteLimit | IndexMissing
    | UnsupportedAttachmentName | AttachmentOrder | NotCanonical | TruncatedIndex | InvalidMetadata
    | TrailingData | DocumentMismatch

  /* ---------------- streaming comparison ---------------- */

  class CanonicalArchiveWriter {
    const expected: Bytes
    var position: nat

    ghost predicate Valid()
      reads this
    {
      position <= |expected|
    }

    // What has been accepted so far.
    ghost function Written(): Bytes
      requires Valid()
      reads this
    {
      expected[..position]
    }

    constructor (expected: Bytes)
      ensures Valid() && this.expected == expected && Written() == []
    {
      this.expected, this.position := expected, 0;
    }

    method Write(buffer: Bytes) returns (accepted: bool)
      requires Valid()
      modifies this
      ensures Valid()
      ensures accepted <==> old(Written()) + buffer <= expected
      ensures Written() == if accepted then old(Written()) + buffer else old(Written())
    {
      var end := position + |buffer|;
      ghost var before := Written();
      if end > |expected| || expected[position..end] != buffer {
        if end <= |expected| {
          assert (before + buffer)[position..end] == buffer;
        }
        return false;
      }
      assert expected[..end] == before + buffer;
      position := end;
      return true;
    }

    // Any split into writes is as good as any other.
    method WriteAll(pieces: seq<Bytes>) returns (accepted: bool)
      requires Valid()
      modifies this
      ensures Valid()
      ensures accepted <==> old(Written()) + Flatten(pieces) <= expected
      ensures accepted ==> Written() == old(Written()) + Flatten(pieces)
    {
      ghost var before := Written();
      assert Flatten(pieces[..0]) == [];
      for i := 0 to |pieces|
        invariant Valid() && Written() == before + Flatten(pieces[..i])
      {
        FlattenNext(pieces, i);
        PiecesPrefix(pieces, i + 1);
        ghost var sent := before + Flatten(pieces[..i]) + pieces[i];
        assert sent == before + Flatten(pieces[..i + 1]);
        var ok := Write(pieces[i]);
        if !ok {
          PrefixThrough(sent, before + Flatten(pieces), expected);
          return false;
        }
      }
      assert pieces[..|pieces|] == pieces;
      return true;
    }

    function IsComplete(): bool
      reads this
    {
      position == |expected|
    }
  }

  lemma FlattenNext(pieces: seq<Bytes>, i: nat)
    requires i < |pieces|
    ensures Flatten(pieces[..i + 1]) == Flatten(pieces[..i]) + pieces[i]
  {
    assert pieces[..i + 1] == pieces[..i] + [pieces[i]];
    FlattenAppend(pieces[..i], [pieces[i]]);
    assert Flatten([pieces[i]]) == pieces[i] + Flatten([pieces[i]][1..]);
  }

  lemma PiecesPrefix(pieces: seq<Bytes>, i: nat)
    requires i <= |pieces|
    ensures Flatten(pieces[..i]) <= Flatten(pieces)
  {
    assert pieces == pieces[..i] + pieces[i..];
    FlattenAppend(pieces[..i], pieces[i..]);
  }

  lemma PrefixThrough(a: Bytes, b: Bytes, c: Bytes)
    requires a <= b
    ensures b <= c ==> a <= c
  {
  }

  // Accepted writes are complete exactly when they amount to the expected bytes, however
  // they were split.
  method Compare(expected: Bytes, pieces: seq<Bytes>) returns (same: bool)
    ensures same <==> Flatten(pieces) == expected
  {
    var writer := new CanonicalArchiveWriter(expected);
    var accepted := writer.WriteAll(pieces);
    assert [] + Flatten(pieces) == Flatten(pieces);
    same := accepted && writer.IsComplete();
  }

  /* ---------------- canonical exports ---------------- */

  function Total(entries: seq<ArchiveEntry>): nat {
    if entries == [] then 0 else Total(entries[..|entries| - 1]) + entries[|entries| - 1].size
  }

  function EncodeEntries(entries: seq<ArchiveEntry>, rules: Rules): Bytes {
    if entries == [] then []
    else EncodeEntries(entries[..|entries| - 1], rules) + Flatten(rules.pieces(entries[|entries| - 1]))
  }

  predicate EntryAccepted(e: ArchiveEntry) {
    e.regular && e.single && e.size <= MAXIMUM_FILE_BYTES
  }

  // The first `n` entries: an index and then attachments in strictly ascending order.
  predicate Ordered(entries: seq<ArchiveEntry>, n: nat, rules: Rules)
    requires n <= |entries|
  {
    && (forall i :: 0 <= i < n ==> EntryAccepted(entries[i]))
    && (forall i :: 0 <= i < n ==> (entries[i].name == INDEX <==> i == 0))
    && (forall i :: 1 <= i < n ==> rules.attachment(entries[i].name))
    && (forall i :: 2 <= i < n ==> NameLess(entries[i - 1].name, entries[i].name))
  }

  predicate IndexNames(e: ArchiveEntry, id: nat, rules: Rules) {
    |e.content| == e.size && rules.documentId(e.content) == Some(id)
  }

  predicate Canonical(archive: Bytes, entries: seq<ArchiveEntry>, id: nat, rules: Rules) {
    && 0 < |entries| <= MAXIMUM_FILE_COUNT
    && Ordered(entries, |entries|, rules)
    && Total(entries) <= MAXIMUM_TOTAL_BYTES
    && IndexNames(entries[0], id, rules)
    && archive == EncodeEntries(entries, rules) + Flatten(rules.trailer)
  }

  lemma {:induction false} TotalMonotone(entries: seq<ArchiveEntry>, n: nat)
    requires n <= |entries|
    ensures Total(entries[..n]) <= Total(entries)
    decreases |entries|
  {
    if n < |entries| {
      TotalMonotone(entries[..|entries| - 1], n);
      assert entries[..|entries| - 1][..n] == entries[..n];
    } else {
      assert entries[..n] == entries;
    }
  }

  lemma {:induction false} EncodingPrefix(entries: seq<ArchiveEntry>, n: nat, rules: Rules)
    requires n <= |entries|
    ensures EncodeEntries(entries[..n], rules) <= EncodeEntries(entries, rules)
    decreases |entries|
  {
    if n < |entries| {
      EncodingPrefix(entries[..|entries| - 1], n, rules);
      assert entries[..|entries| - 1][..n] == entries[..n];
    } else {
      assert entries[..n] == entries;
    }
  }

  // Strictly ascending attachments after the index have distinct names.
  lemma {:induction false} AscendingBelow(entries: seq<ArchiveEntry>, n: nat, rules: Rules, i: nat, j: nat)
    requires n <= |entries| && Ordered(entries, n, rules) && 1 <= i < j < n
    ensures NameLess(entries[i].name, entries[j].name)
    decreases j
  {
    if i >= j - 1 {
    } else {
      AscendingBelow(entries, n, rules, i, j - 1);
      NameLessTransitive(entries[i].name, entries[j - 1].name, entries[j].name);
    }
  }

  lemma OrderedDistinct(entries: seq<ArchiveEntry>, n: nat, rules: Rules)
    requires n <= |entries| && Ordered(entries, n, rules)
    ensures forall i, j :: 0 <= i < j < n ==> entries[i].name != entries[j].name
  {
    forall i, j | 0 <= i < j < n ensures entries[i].name != entries[j].name {
      if i > 0 {
        AscendingBelow(entries, n, rules, i, j);
        NameLessTotal(entries[i].name, entries[j].name);
      }
    }
  }

  /* ---------------- the check ---------------- */

  ghost predicate NamesOf(names: set<Name>, entries: seq<ArchiveEntry>, n: nat)
    requires n <= |entries|
  {
    && (forall i :: 0 <= i < n ==> entries[i].name in names)
    && (forall name <- names :: exists i :: 0 <= i < n && entries[i].name == name)
  }

  // The attachment before entry `i`.
  ghost function PreviousAttachment(entries: seq<ArchiveEntry>, i: nat): Option<Name>
    requires i <= |entries|
  {
    if i >= 2 then Some(entries[i - 1].name) else None
  }

  lemma NewName(entries: seq<ArchiveEntry>, i: nat, names: set<Name>, rules: Rules)
    requires i < |entries| && NamesOf(names, entries, i) && Ordered(entries, i + 1, rules)
    ensures entries[i].name !in names
  {
    OrderedDistinct(entries, i + 1, rules);
  }

  lemma OrderedNext(entries: seq<ArchiveEntry>, i: nat, rules: Rules)
    requires i < |entries| && Ordered(entries, i, rules)
    ensures Ordered(entries, i + 1, rules) <==>
            && EntryAccepted(entries[i]) && (entries[i].name == INDEX <==> i == 0)
            && (i >= 1 ==> rules.attachment(entries[i].name))
            && (i >= 2 ==> NameLess(entries[i - 1].name, entries[i].name))
  {
  }

  // Entry `i` and those before it leave the export acceptable.
  predicate EntryPasses(entries: seq<ArchiveEntry>, i: nat, rules: Rules)
    requires i < |entries|
  {
    && i < MAXIMUM_FILE_COUNT && Ordered(entries, i + 1, rules) && Total(entries[..i + 1]) <= MAXIMUM_TOTAL_BYTES
    && (i == 0 ==> |entries[0].content| == entries[0].size && rules.documentId(entries[0].content).Some?)
  }

  // The checks on one entry, in order, and the new byte total.
  method CheckEntry(
    entries: seq<ArchiveEntry>, i: nat, names: set<Name>, total: nat, previous: Option<Name>, rules: Rules
  )
    returns (r: Result<nat, Error>)
    requires i < |entries| && Ordered(entries, i, rules) && NamesOf(names, entries, i)
    requires total == Total(entries[..i]) && previous == PreviousAttachment(entries, i)
    ensures r.Success? <==> EntryPasses(entries, i, rules)
    ensures r.Success? ==> r.value == Total(entries[..i + 1])
  {
    var e := entries[i];
    assert entries[..i + 1][..i] == entries[..i];
    OrderedNext(entries, i, rules);
    assert i > 0 ==> entries[0].name == INDEX && entries[0].name in names;
    if i >= MAXIMUM_FILE_COUNT {
      return Failure(TooManyEntries);
    }
    if !e.regular {
      return Failure(NonRegularEntry);
    }
    if Ordered(entries, i + 1, rules) {
      NewName(entries, i, names, rules);
    }
    if !e.single || e.name in names {
      return Failure(InvalidOrDuplicatePath);
    }
    if e.size > MAXIMUM_FILE_BYTES {
      return Failure(FileLimit);
    }
    if total + e.size > MAXIMUM_TOTAL_BYTES {
      return Failure(ByteLimit);
    }
    if i == 0 && e.name != INDEX {
      return Failure(IndexMissing);
    }
    if e.name != INDEX {
      if !rules.attachment(e.name) {
        return Failure(UnsupportedAttachmentName);
      }
      if previous.Some? && !NameLess(previous.value, e.name) {
        return Failure(AttachmentOrder);
      }
    } else {
      if |e.content| != e.size {
        return Failure(TruncatedIndex);
      }
      if rules.documentId(e.content).None? {
        return Failure(InvalidMetadata);
      }
    }
    return Success(total + e.size);
  }

  lemma CanonicalPasses(archive: Bytes, entries: seq<ArchiveEntry>, i: nat, id: nat, rules: Rules)
    requires Canonical(archive, entries, id, rules) && i < |entries|
    ensures EntryPasses(entries, i, rules)
    ensures EncodeEntries(entries[..i + 1], rules) <= archive
  {
    TotalMonotone(entries, i + 1);
    EncodingPrefix(entries, i + 1, rules);
  }

  // All checks passed before entry `n`; the bookkeeping is up to date.
  ghost predicate Progress(
    entries: seq<ArchiveEntry>, n: nat, names: set<Name>, total: nat, previous: Option<Name>, documentId: Option<nat>,
    rules: Rules
  ) {
    && n <= |entries| && n <= MAXIMUM_FILE_COUNT
    && Ordered(entries, n, rules) && NamesOf(names, entries, n)
    && total == Total(entries[..n]) <= MAXIMUM_TOTAL_BYTES && previous == PreviousAttachment(entries, n)
    && (if n == 0 then documentId.None?
        else |entries[0].content| == entries[0].size && documentId.Some? && rules.documentId(entries[0].content) == documentId)
  }

  lemma ProgressNext(
    entries: seq<ArchiveEntry>, i: nat, names: set<Name>, total: nat, previous: Option<Name>, documentId: Option<nat>,
    rules: Rules
  )
    requires Progress(entries, i, names, total, previous, documentId, rules)
    requires i < |entries| && EntryPasses(entries, i, rules)
    ensures Progress(
              entries, i + 1, names + {entries[i].name}, Total(entries[..i + 1]),
              if entries[i].name != INDEX then Some(entries[i].name) else previous,
              if entries[i].name != INDEX then documentId else rules.documentId(entries[i].content), rules)
  {
    var after := names + {entries[i].name};
    forall name <- after ensures exists j :: 0 <= j < i + 1 && entries[j].name == name {
      if name == entries[i].name {
        assert 0 <= i < i + 1;
      } else {
        var j :| 0 <= j < i && entries[j].name == name;
      }
    }
  }

  // Accepts exactly the canonical encodings of an export of the document asked for.
  method ValidateExportArchive(archive: Bytes, entries: seq<ArchiveEntry>, id: nat, rules: Rules)
    returns (r: Result<(), Error>)
    ensures r.Success? <==> Canonical(archive, entries, id, rules)
  {
    var names: set<Name>, total, previous, documentId := {}, 0, None, None;
    var writer := new CanonicalArchiveWriter(archive);
    assert entries[..0] == [];
    for i := 0 to |entries|
      invariant writer.Valid() && writer.expected == archive
      invariant Progress(entries, i, names, total, previous, documentId, rules)
      invariant writer.Written() == EncodeEntries(entries[..i], rules)
    {
      if Canonical(archive, entries, id, rules) {
        CanonicalPasses(archive, entries, i, id, rules);
      }
      var checked := CheckEntry(entries, i, names, total, previous, rules);
      if checked.Failure? {
        return Failure(checked.error);
      }
      ProgressNext(entries, i, names, total, previous, documentId, rules);
      total := checked.value;
      if entries[i].name != INDEX {
        previous := Some(entries[i].name);
      } else {
        documentId := rules.documentId(entries[i].content);
      }
      names := names + {entries[i].name};
      EncodingNext(entries, i, rules);
      var accepted := writer.WriteAll(rules.pieces(entries[i]));
      if !accepted {
        return Failure(NotCanonical);
      }
    }
    assert entries[..|entries|] == entries;
    r := FinishExport(writer, entries, documentId, id, rules);
  }

  lemma EncodingNext(entries: seq<ArchiveEntry>, i: nat, rules: Rules)
    requires i < |entries|
    ensures EncodeEntries(entries[..i + 1], rules) == EncodeEntries(entries[..i], rules) + Flatten(rules.pieces(entries[i]))
  {
    assert entries[..i + 1][..i] == entries[..i];
  }

  // The trailer, and the comparison of what was asked for with what came.
  method FinishExport(
    writer: CanonicalArchiveWriter, entries: seq<ArchiveEntry>, documentId: Option<nat>, id: nat, rules: Rules
  )
    returns (r: Result<(), Error>)
    requires writer.Valid() && writer.Written() == EncodeEntries(entries, rules)
    requires documentId.Some? <==> entries != []
    requires entries != [] ==> |entries[0].content| == entries[0].size && rules.documentId(entries[0].content) == documentId
    modifies writer
    ensures r.Success? <==>
            && entries != [] && IndexNames(entries[0], id, rules)
            && writer.expected == EncodeEntries(entries, rules) + Flatten(rules.trailer)
  {
    var finished := writer.WriteAll(rules.trailer);
    if !finished {
      return Failure(NotCanonical);
    }
    if !writer.IsComplete() {
      return Failure(TrailingData);
    }
    if documentId != Some(id) {
      return Failure(DocumentMismatch);
    }
    return Success(());
  }

  // What an accepted export is: distinct names and a total that no 64-bit sum could overflow.
  lemma AcceptedExport(archive: Bytes, entries: seq<ArchiveEntry>, id: nat, rules: Rules)
    requires Canonical(archive, entries, id, rules)
    ensures forall i, j :: 0 <= i < j < |entries| ==> entries[i].name != entries[j].name
    ensures forall n :: 0 <= n <= |entries| ==> Total(entries[..n]) <= MAXIMUM_TOTAL_BYTES < U64_LIMIT
  {
    OrderedDistinct(entries, |entries|, rules);
    forall n | 0 <= n <= |entries| ensures Total(entries[..n]) <= MAXIMUM_TOTAL_BYTES < U64_LIMIT {
      TotalMonotone(entries, n);
    }
  }
}
