/** Which texts the reader of the ownership record accepts, and as what. */
module SocketTexts {
  import opened Wrappers
  import opened SocketStates
  import opened Text
  import opened SocketRecord

  /* ---------------- numbers ---------------- */

  predicate AllZeros(s: string) {
    forall i :: 0 <= i < |s| ==> s[i] == '0'
  }

  ghost predicate SpellsNumber(s: string, zeros: string, n: nat) {
    AllZeros(zeros) && s == zeros + Decimal(n)
  }

  lemma {:induction false} DigitsSpell(s: string) returns (zeros: string)
    requires AllDigits(s) && s != ""
    ensures SpellsNumber(s, zeros, DigitsValue(s))
  {
    var last := |s| - 1;
    var before, c := s[..last], s[last];
    assert s == before + [c];
    if before == "" {
      zeros := "";
      OneDigit(c);
      assert DigitsValue(s) == (c - '0') as nat;
    } else {
      zeros := DigitsSpell(before);
      zeros := OneMoreDigit(before, zeros, DigitsValue(before), c);
    }
  }

  lemma OneDigit(c: char)
    requires IsDigit(c)
    ensures Decimal((c - '0') as nat) == [c]
  {
  }

  lemma OneMoreDigit(before: string, zeros: string, n: nat, c: char) returns (all: string)
    requires SpellsNumber(before, zeros, n) && IsDigit(c)
    ensures SpellsNumber(before + [c], all, n * 10 + (c - '0') as nat)
  {
    if n == 0 {
      all := zeros + "0";
      OneDigit(c);
    } else {
      all := zeros;
      NextDigit(n, c);
      Associative(zeros, Decimal(n), [c]);
    }
  }

  lemma NextDigit(n: nat, c: char)
    requires n > 0 && IsDigit(c)
    ensures Decimal(n * 10 + (c - '0') as nat) == Decimal(n) + [c]
  {
    var m := n * 10 + (c - '0') as nat;
    assert m / 10 == n && m % 10 == (c - '0') as nat;
  }

  lemma {:induction false} ZerosValue(zeros: string, digits: string)
    requires AllZeros(zeros) && AllDigits(digits)
    ensures AllDigits(zeros + digits) && DigitsValue(zeros + digits) == DigitsValue(digits)
    decreases |zeros| + |digits|
  {
    var s := zeros + digits;
    if digits != "" {
      assert s[..|s| - 1] == zeros + digits[..|digits| - 1];
      ZerosValue(zeros, digits[..|digits| - 1]);
    } else if zeros != "" {
      assert s[..|s| - 1] == zeros[..|zeros| - 1] + digits;
      ZerosValue(zeros[..|zeros| - 1], digits);
    }
  }

  // A 64-bit number may have a plus sign and leading zeros, and nothing else.
  lemma NumberExact(s: string, n: nat)
    ensures ParseU64(s) == Some(n) <==>
            && n < U64_LIMIT
            && exists zeros :: AllZeros(zeros) && (s == zeros + Decimal(n) || s == "+" + (zeros + Decimal(n)))
  {
    if ParseU64(s) == Some(n) {
      var digits := if s[0] == '+' then s[1..] else s;
      var zeros := DigitsSpell(digits);
      assert s[0] == '+' ==> s == "+" + digits;
    }
    if zeros :| n < U64_LIMIT && AllZeros(zeros) && (s == zeros + Decimal(n) || s == "+" + (zeros + Decimal(n))) {
      var digits := zeros + Decimal(n);
      ZerosValue(zeros, Decimal(n));
      DecimalValue(n);
      assert IsDigit(digits[0]);
      assert ("+" + digits)[0] == '+' && ("+" + digits)[1..] == digits;
    }
  }

  /* ---------------- every text that is read ---------------- */

  // The fields that spell a state, in the current form and in the older one.
  predicate Spells(fields: seq<string>, state: SocketState) {
    match state
    case Absent => false
    case LegacyPreparing(temporary) =>
      fields == ["agent-knowledge-queue-ingress-v1", "preparing", temporary] && ValidTemporary(temporary)
    case LegacyPrepared(temporary, identity) =>
      && |fields| == 5 && fields[..3] == ["agent-knowledge-queue-ingress-v1", "prepared", temporary]
      && ValidTemporary(temporary) && SpellsIdentity(fields[3], fields[4], identity)
    case LegacyOwned(identity) =>
      && |fields| == 4 && fields[..2] == ["agent-knowledge-queue-ingress-v1", "owned"]
      && SpellsIdentity(fields[2], fields[3], identity)
    case Preparing(public, temporary) =>
      && |fields| == 4 && fields == ["agent-knowledge-queue-ingress-v2", "preparing", fields[2], temporary]
      && SpellsName(fields[2], public) && ValidTemporary(temporary)
    case Prepared(public, temporary, identity) =>
      && |fields| == 6 && fields[..4] == ["agent-knowledge-queue-ingress-v2", "prepared", fields[2], temporary]
      && SpellsName(fields[2], public) && ValidTemporary(temporary) && SpellsIdentity(fields[4], fields[5], identity)
    case Owned(public, identity) =>
      && |fields| == 5 && fields[..3] == ["agent-knowledge-queue-ingress-v2", "owned", fields[2]]
      && SpellsName(fields[2], public) && SpellsIdentity(fields[3], fields[4], identity)
  }

  predicate SpellsName(field: string, name: Name) {
    ValidName(name) && field == EncodeName(name)
  }

  // The device before the inode.
  predicate SpellsIdentity(first: string, second: string, identity: Identity) {
    ParseU64(first) == Some(identity.device) && ParseU64(second) == Some(identity.inode)
  }

  lemma NumberPlain(s: string)
    requires ParseU64(s).Some?
    ensures Plain(s)
  {
    var digits := if s[0] == '+' then s[1..] else s;
    forall i | 0 <= i < |s| ensures s[i] != ' ' && s[i] != '\n' && s[i] != '\r' {
      assert s[i] == '+' || IsDigit(s[i]) by {
        if s[0] == '+' {
          assert i > 0 ==> s[i] == digits[i - 1];
        }
      }
    }
  }

  lemma NamePlain(field: string, name: Name)
    requires SpellsName(field, name)
    ensures Plain(field)
  {
    EncodedPlain(name);
  }

  lemma WordsPlain()
    ensures Plain(FORMAT) && Plain(LEGACY_FORMAT) && Plain("preparing") && Plain("prepared") && Plain("owned")
  {
  }

  predicate AllPlain(fields: seq<string>) {
    forall i :: 0 <= i < |fields| ==> Plain(fields[i])
  }

  lemma LegacyPlain(fields: seq<string>, state: SocketState)
    requires Spells(fields, state) && state.Legacy()
    ensures AllPlain(fields)
  {
    WordsPlain();
    match state
    case LegacyPreparing(temporary) => TemporaryPlain(temporary);
    case LegacyPrepared(temporary, _) =>
      assert fields[0] == fields[..3][0] && fields[1] == fields[..3][1] && fields[2] == fields[..3][2];
      TemporaryPlain(temporary);
      NumberPlain(fields[3]);
      NumberPlain(fields[4]);
    case LegacyOwned(_) =>
      assert fields[0] == fields[..2][0] && fields[1] == fields[..2][1];
      NumberPlain(fields[2]);
      NumberPlain(fields[3]);
  }

  lemma NamedPlain(fields: seq<string>, state: SocketState)
    requires Spells(fields, state) && !state.Legacy()
    ensures AllPlain(fields)
  {
    WordsPlain();
    NamePlain(fields[2], state.public);
    match state
    case Preparing(_, temporary) => TemporaryPlain(temporary);
    case Prepared(_, temporary, _) =>
      assert fields[0] == fields[..4][0] && fields[1] == fields[..4][1] && fields[3] == fields[..4][3];
      TemporaryPlain(temporary);
      NumberPlain(fields[4]);
      NumberPlain(fields[5]);
    case Owned(_, _) =>
      assert fields[0] == fields[..3][0] && fields[1] == fields[..3][1];
      NumberPlain(fields[3]);
      NumberPlain(fields[4]);
  }

  // The two readers of fields are exact.
  lemma NamedReads(fields: seq<string>, state: SocketState)
    requires !state.Legacy() && Spells(fields, state)
    ensures fields[0] == FORMAT && ReadNamedFields(fields) == Some(state)
  {
    NameCodecBijection(fields[2], state.public);
  }

  lemma NamedOnly(fields: seq<string>)
    requires |fields| >= 2 && fields[0] == FORMAT && ReadNamedFields(fields).Some?
    ensures var state := ReadNamedFields(fields).value; !state.Legacy() && Spells(fields, state)
  {
    NameCodecBijection(fields[2], DecodeName(fields[2]).value);
  }

  lemma LegacyExact(fields: seq<string>, state: SocketState)
    requires |fields| >= 2
    ensures fields[0] == LEGACY_FORMAT && ReadLegacyFields(fields) == Some(state) <==> state.Legacy() && Spells(fields, state)
  {
  }

  lemma FormatsDiffer()
    ensures FORMAT != LEGACY_FORMAT
  {
    assert FORMAT[31] != LEGACY_FORMAT[31];
  }

  // What the reader makes of fields, whichever the form.
  function ReadFields(fields: seq<string>): Option<SocketState>
    requires |fields| >= 2
  {
    if fields[0] == FORMAT then ReadNamedFields(fields)
    else if fields[0] == LEGACY_FORMAT then ReadLegacyFields(fields)
    else None
  }

  lemma FieldsExact(fields: seq<string>, state: SocketState)
    requires |fields| >= 2
    ensures ReadFields(fields) == Some(state) <==> Spells(fields, state)
  {
    FormatsDiffer();
    LegacyExact(fields, state);
    if !state.Legacy() && Spells(fields, state) {
      NamedReads(fields, state);
    }
    if fields[0] == FORMAT && ReadNamedFields(fields).Some? {
      NamedOnly(fields);
    }
  }

  lemma SpelledPlain(fields: seq<string>, state: SocketState)
    requires Spells(fields, state)
    ensures AllPlain(fields) && |fields| >= 3
  {
    if state.Legacy() {
      LegacyPlain(fields, state);
    } else {
      NamedPlain(fields, state);
    }
  }

  /* ---------------- files ---------------- */

  predicate SpelledBy(text: string, fields: seq<string>, state: SocketState) {
    |fields| > 0 && text == Join(fields, ' ') + "\n" && Spells(fields, state)
  }

  // A file is read as a state exactly if it is one line within 512 bytes whose fields, parted
  // by single spaces, spell that state.
  lemma ReadExactly(text: string, state: SocketState)
    requires state != Absent
    ensures Read(Some(text)) == Success(state) <==> |text| <= 512 && exists fields :: SpelledBy(text, fields, state)
  {
    if Read(Some(text)) == Success(state) {
      var line := text[..|text| - 1];
      var fields := Split(line, ' ');
      JoinSplit(line, ' ');
      FieldsExact(fields, state);
      assert text == line + "\n";
      assert SpelledBy(text, fields, state);
    }
    if fields :| |text| <= 512 && SpelledBy(text, fields, state) {
      SpelledReads(text, fields, state);
    }
  }

  lemma SpelledReads(text: string, fields: seq<string>, state: SocketState)
    requires |text| <= 512 && SpelledBy(text, fields, state)
    ensures Read(Some(text)) == Success(state)
  {
    var line := Join(fields, ' ');
    SpelledPlain(fields, state);
    JoinPlain(fields);
    SplitJoin(fields, ' ');
    FieldsExact(fields, state);
    assert text[..|text| - 1] == line && text[|text| - 1] == '\n';
    NotTheMark(line, fields);
  }

  // The one text of the older form that stands for no record has two fields.
  lemma NotTheMark(line: string, fields: seq<string>)
    requires Split(line, ' ') == fields && |fields| >= 3
    ensures line + "\n" != LEGACY_FORMAT + " preparing\n"
  {
    MarkFields(LEGACY_FORMAT, "preparing");
    var mark := LEGACY_FORMAT + " " + "preparing";
    assert LEGACY_FORMAT + " preparing\n" == mark + "\n";
    var a, b := line + "\n", mark + "\n";
    assert a[..|a| - 1] == line && b[..|b| - 1] == mark;
  }

  lemma MarkFields(a: string, b: string)
    requires a == LEGACY_FORMAT && b == "preparing"
    ensures Split(a + " " + b, ' ') == [a, b]
  {
    WordsPlain();
    assert [a, b][1..] == [b];
    assert Join([a, b], ' ') == a + [' '] + b;
    SplitJoin([a, b], ' ');
  }

  lemma ReadOtherwise(text: string)
    ensures Read(None) == Success(Absent)
    ensures Read(Some(text)) == Success(Absent) <==> text == "agent-knowledge-queue-ingress-v1 preparing\n"
    ensures Read(Some(text)).Failure? ==>
              Read(Some(text)).error == if |text| > 512 then InvalidStateFile else InvalidStateContents
  {
    assert LEGACY_FORMAT + " preparing\n" == "agent-knowledge-queue-ingress-v1 preparing\n";
    if text != "" && |Split(text[..|text| - 1], ' ')| >= 2 {
      FieldsExact(Split(text[..|text| - 1], ' '), Absent);
    }
  }
}
