/** The text of the durable ownership record: printer, reader and the hex codec of names. */
module SocketRecord {
  import opened Wrappers
  import opened SocketStates
  import opened Text

  const FORMAT := "agent-knowledge-queue-ingress-v2"
  const LEGACY_FORMAT := "agent-knowledge-queue-ingress-v1"
  const TEMPORARY_PREFIX := ".ak-"
  const MAXIMUM_STATE_BYTES := 512
  // `sun_path` holds 108 bytes including the terminator.
  const MAXIMUM_SOCKET_PATH_BYTES := 107

  datatype Error = InvalidStateFile | InvalidStateContents

  /* ---------------- the hex codec of public names ---------------- */

  function HexDigit(value: nat): char
    requires value < 16
  {
    if value < 10 then '0' + value as char else 'a' + (value - 10) as char
  }

  function DecodeHexDigit(c: char): Option<nat> {
    if '0' <= c <= '9' then Some((c - '0') as nat)
    else if 'a' <= c <= 'f' then Some((c - 'a') as nat + 10)
    else None
  }

  function EncodeName(name: Name): (s: string)
    requires IsBytes(name)
    ensures |s| == 2 * |name|
  {
    if name == [] then []
    else [HexDigit(name[0] as int / 16), HexDigit(name[0] as int % 16)] + EncodeName(name[1..])
  }

  function DecodePairs(s: string): (r: Option<Name>)
    requires |s| % 2 == 0
  {
    if s == [] then
      Some([])
    else
      var high, low, rest := DecodeHexDigit(s[0]), DecodeHexDigit(s[1]), DecodePairs(s[2..]);
      if high.Some? && low.Some? && rest.Some? then
        Some([(high.value * 16 + low.value) as char] + rest.value)
      else
        None
  }

  // A usable file name.
  predicate ValidName(name: Name) {
    name != "" && IsBytes(name) && '\0' !in name && '/' !in name && name != "." && name != ".."
  }

  function DecodeName(s: string): Option<Name> {
    if s == "" || |s| % 2 != 0 then
      None
    else
      var decoded := DecodePairs(s);
      if decoded.Some? && ('\0' in decoded.value || '/' in decoded.value
                           || decoded.value == "." || decoded.value == "..") then None
      else decoded
  }

  lemma AppendPair(s: string, a: char, b: char, rest: string)
    ensures s + ([a, b] + rest) == (s + [a]) + [b] + rest
  {
  }

  method EncodePublicName(public: Name) returns (encoded: string)
    requires IsBytes(public)
    ensures encoded == EncodeName(public)
  {
    encoded := "";
    for i := 0 to |public|
      invariant EncodeName(public) == encoded + EncodeName(public[i..])
    {
      var high, low := HexDigit(public[i] as int / 16), HexDigit(public[i] as int % 16);
      assert public[i..][1..] == public[i + 1..];
      AppendPair(encoded, high, low, EncodeName(public[i + 1..]));
      encoded := encoded + [high];
      encoded := encoded + [low];
    }
  }

  method DecodePublicName(encoded: string) returns (r: Option<Name>)
    ensures r == DecodeName(encoded)
  {
    if encoded == "" || |encoded| % 2 != 0 {
      return None;
    }
    var decoded: Name := "";
    var i := 0;
    assert encoded[0..] == encoded && forall rest: Name :: decoded + rest == rest;
    while i < |encoded|
      invariant 0 <= i <= |encoded| && i % 2 == 0
      invariant var rest := DecodePairs(encoded[i..]);
                DecodePairs(encoded) == if rest.Some? then Some(decoded + rest.value) else None
    {
      var high, low := DecodeHexDigit(encoded[i]), DecodeHexDigit(encoded[i + 1]);
      assert encoded[i..][2..] == encoded[i + 2..];
      if high.None? || low.None? {
        return None;
      }
      var c := (high.value * 16 + low.value) as char;
      assert forall rest: Name :: decoded + ([c] + rest) == (decoded + [c]) + rest;
      decoded := decoded + [c];
      i := i + 2;
    }
    assert encoded[i..] == [] && decoded + [] == decoded;
    if '\0' in decoded || '/' in decoded || decoded == "." || decoded == ".." {
      return None;
    }
    return Some(decoded);
  }

  lemma {:induction false} DecodeEncoded(name: Name)
    requires IsBytes(name)
    ensures DecodePairs(EncodeName(name)) == Some(name)
  {
    if name == [] {
    } else {
      DecodeEncoded(name[1..]);
      assert EncodeName(name)[2..] == EncodeName(name[1..]);
      var value := name[0] as int;
      assert DecodeHexDigit(HexDigit(value / 16)) == Some(value / 16);
      assert DecodeHexDigit(HexDigit(value % 16)) == Some(value % 16);
      assert [name[0]] + name[1..] == name;
    }
  }

  lemma {:induction false} EncodeDecoded(s: string)
    requires |s| % 2 == 0 && DecodePairs(s).Some?
    ensures IsBytes(DecodePairs(s).value) && EncodeName(DecodePairs(s).value) == s
    ensures |DecodePairs(s).value| == |s| / 2
  {
    if s == [] {
    } else {
      var name := DecodePairs(s).value;
      EncodeDecoded(s[2..]);
      HexPair(s[0], s[1]);
      assert name[1..] == DecodePairs(s[2..]).value;
      assert s == [s[0], s[1]] + s[2..];
    }
  }

  lemma HexPair(a: char, b: char)
    requires DecodeHexDigit(a).Some? && DecodeHexDigit(b).Some?
    ensures var value := DecodeHexDigit(a).value * 16 + DecodeHexDigit(b).value;
            value < 256 && HexDigit(value / 16) == a && HexDigit(value % 16) == b
  {
  }

  // The codec is a bijection between usable names and the texts it accepts.
  lemma NameCodecBijection(s: string, name: Name)
    ensures DecodeName(s) == Some(name) <==> ValidName(name) && s == EncodeName(name)
  {
    if s != "" && |s| % 2 == 0 && DecodePairs(s).Some? {
      EncodeDecoded(s);
    }
    if ValidName(name) {
      DecodeEncoded(name);
    }
  }

  /* ---------------- the record ---------------- */

  // The 32 symbols and their lower-case forms that spell a ULID.
  predicate UlidSymbol(c: char) {
    || IsDigit(c)
    || ('A' <= c <= 'Z' && c !in "ILOU")
    || ('a' <= c <= 'z' && c !in "ilou")
  }

  predicate ValidTemporary(name: Name) {
    |name| == 30 && name[..4] == TEMPORARY_PREFIX && forall i :: 4 <= i < 30 ==> UlidSymbol(name[i])
  }

  predicate ValidIdentity(identity: Identity) {
    identity.device < U64_LIMIT && identity.inode < U64_LIMIT
  }

  // What the listener ever writes.
  predicate Writable(state: SocketState) {
    match state
    case Preparing(public, temporary) => ValidName(public) && ValidTemporary(temporary)
    case Prepared(public, temporary, identity) =>
      ValidName(public) && ValidTemporary(temporary) && ValidIdentity(identity)
    case Owned(public, identity) => ValidName(public) && ValidIdentity(identity)
    case _ => false
  }

  function Fields(state: SocketState): (fields: seq<string>)
    requires Writable(state)
    ensures |fields| > 0
  {
    match state
    case Preparing(public, temporary) =>
      [FORMAT, "preparing", EncodeName(public), temporary]
    case Prepared(public, temporary, identity) =>
      [FORMAT, "prepared", EncodeName(public), temporary, Decimal(identity.device), Decimal(identity.inode)]
    case Owned(public, identity) =>
      [FORMAT, "owned", EncodeName(public), Decimal(identity.device), Decimal(identity.inode)]
  }

  function Write(state: SocketState): string
    requires Writable(state)
  {
    Join(Fields(state), ' ') + "\n"
  }

  function ReadTemporary(fields: seq<string>, index: nat): Option<Name> {
    if index < |fields| && ValidTemporary(fields[index]) then Some(fields[index]) else None
  }

  function ReadIdentity(fields: seq<string>, index: nat): Option<Identity> {
    if index + 1 < |fields| && ParseU64(fields[index]).Some? && ParseU64(fields[index + 1]).Some? then
      Some(Identity(ParseU64(fields[index]).value, ParseU64(fields[index + 1]).value))
    else
      None
  }

  function ReadLegacyFields(fields: seq<string>): Option<SocketState>
    requires |fields| >= 2
  {
    if fields[1] == "preparing" then
      var temporary := ReadTemporary(fields, 2);
      if |fields| == 3 && temporary.Some? then Some(LegacyPreparing(temporary.value)) else None
    else if fields[1] == "prepared" then
      var temporary, identity := ReadTemporary(fields, 2), ReadIdentity(fields, 3);
      if |fields| == 5 && temporary.Some? && identity.Some? then
        Some(LegacyPrepared(temporary.value, identity.value))
      else None
    else if fields[1] == "owned" then
      var identity := ReadIdentity(fields, 2);
      if |fields| == 4 && identity.Some? then Some(LegacyOwned(identity.value)) else None
    else None
  }

  function ReadNamedFields(fields: seq<string>): Option<SocketState>
    requires |fields| >= 2
  {
    var public := if |fields| > 2 then DecodeName(fields[2]) else None;
    if public.None? then None
    else if fields[1] == "preparing" then
      var temporary := ReadTemporary(fields, 3);
      if |fields| == 4 && temporary.Some? then Some(Preparing(public.value, temporary.value)) else None
    else if fields[1] == "prepared" then
      var temporary, identity := ReadTemporary(fields, 3), ReadIdentity(fields, 4);
      if |fields| == 6 && temporary.Some? && identity.Some? then
        Some(Prepared(public.value, temporary.value, identity.value))
      else None
    else if fields[1] == "owned" then
      var identity := ReadIdentity(fields, 3);
      if |fields| == 5 && identity.Some? then Some(Owned(public.value, identity.value)) else None
    else None
  }

  // `read_socket_state`; no file is the absent state.
  function Read(file: Option<string>): Result<SocketState, Error> {
    if file.None? then
      Success(Absent)
    else
      var contents := file.value;
      if |contents| > MAXIMUM_STATE_BYTES then
        Failure(InvalidStateFile)
      else if contents == LEGACY_FORMAT + " preparing\n" then
        Success(Absent)
      else if contents == "" || contents[|contents| - 1] != '\n' then
        Failure(InvalidStateContents)
      else
        var line := contents[..|contents| - 1];
        var fields := Split(line, ' ');
        if '\n' in line || '\r' in line || |fields| < 2 then
          Failure(InvalidStateContents)
        else
          var state :=
            if fields[0] == FORMAT then ReadNamedFields(fields)
            else if fields[0] == LEGACY_FORMAT then ReadLegacyFields(fields)
            else None;
          if state.Some? then Success(state.value) else Failure(InvalidStateContents)
  }

  /* ---------------- round trip and size ---------------- */

  // Nothing that a plain field contains can be taken for the record's structure.
  predicate Plain(s: string) {
    forall i :: 0 <= i < |s| ==> s[i] != ' ' && s[i] != '\n' && s[i] != '\r'
  }

  lemma {:induction false} EncodedPlain(name: Name)
    requires IsBytes(name)
    ensures Plain(EncodeName(name))
  {
    if name == [] {
    } else {
      EncodedPlain(name[1..]);
    }
  }

  lemma DigitsPlain(s: string)
    requires AllDigits(s)
    ensures Plain(s)
  {
    forall i | 0 <= i < |s| ensures s[i] != ' ' && s[i] != '\n' && s[i] != '\r' {
      assert IsDigit(s[i]);
    }
  }

  lemma TemporaryPlain(name: Name)
    requires ValidTemporary(name)
    ensures Plain(name)
  {
    forall i | 0 <= i < |name| ensures name[i] != ' ' && name[i] != '\n' && name[i] != '\r' {
      if i < 4 {
        assert name[i] == TEMPORARY_PREFIX[i];
      } else {
        assert UlidSymbol(name[i]);
      }
    }
  }

  lemma FieldsPlain(state: SocketState)
    requires Writable(state)
    ensures forall i :: 0 <= i < |Fields(state)| ==> Plain(Fields(state)[i])
  {
    assert Plain(FORMAT);
    EncodedPlain(state.public);
    if !state.Owned? {
      TemporaryPlain(state.temporary);
    }
    if !state.Preparing? {
      DigitsPlain(Decimal(state.identity.device));
      DigitsPlain(Decimal(state.identity.inode));
    }
  }

  lemma {:induction false} JoinPlain(fields: seq<string>)
    requires |fields| > 0 && forall i :: 0 <= i < |fields| ==> Plain(fields[i])
    ensures '\n' !in Join(fields, ' ') && '\r' !in Join(fields, ' ')
  {
    if |fields| <= 1 {
    } else {
      JoinPlain(fields[1..]);
    }
  }

  lemma FieldsReadBack(state: SocketState)
    requires Writable(state)
    ensures ReadNamedFields(Fields(state)) == Some(state)
  {
    var fields := Fields(state);
    NameCodecBijection(EncodeName(state.public), state.public);
    assert DecodeName(fields[2]) == Some(state.public);
    if !state.Preparing? {
      ParseDecimal(state.identity.device);
      ParseDecimal(state.identity.inode);
      assert ReadIdentity(fields, if state.Owned? then 3 else 4) == Some(state.identity);
    }
  }

  // Within the size limit every written record reads back as itself; beyond it none does.
  lemma ReadWrite(state: SocketState)
    requires Writable(state)
    ensures Read(Some(Write(state))) == if |Write(state)| <= MAXIMUM_STATE_BYTES then Success(state)
                                        else Failure(InvalidStateFile)
  {
    FieldsPlain(state);
    FieldsReadBack(state);
    ReadJoined(Fields(state), state);
  }

  lemma ReadJoined(fields: seq<string>, state: SocketState)
    requires |fields| >= 2 && fields[0] == FORMAT && forall i :: 0 <= i < |fields| ==> Plain(fields[i])
    requires ReadNamedFields(fields) == Some(state)
    ensures var contents := Join(fields, ' ') + "\n";
            Read(Some(contents)) == if |contents| <= MAXIMUM_STATE_BYTES then Success(state) else Failure(InvalidStateFile)
  {
    var line := Join(fields, ' ');
    var contents := line + "\n";
    JoinPlain(fields);
    SplitJoin(fields, ' ');
    assert contents[..|contents| - 1] == line;
    JoinStarts(fields);
    NotLegacy(contents);
  }

  lemma JoinStarts(fields: seq<string>)
    requires |fields| > 0
    ensures fields[0] <= Join(fields, ' ')
  {
  }

  lemma NotLegacy(contents: string)
    requires FORMAT <= contents
    ensures contents != LEGACY_FORMAT + " preparing\n"
  {
    assert contents[31] == FORMAT[31] != LEGACY_FORMAT[31];
  }

  // Every name that fits a Unix socket path gives a record well within the read limit.
  lemma RecordFits(state: SocketState)
    requires Writable(state) && |state.public| <= MAXIMUM_SOCKET_PATH_BYTES
    ensures |Write(state)| <= 330 && Read(Some(Write(state))) == Success(state)
  {
    if !state.Preparing? {
      U64Length(state.identity.device);
      U64Length(state.identity.inode);
    }
    JoinLength(Fields(state));
    ReadWrite(state);
  }

  lemma JoinLength(fields: seq<string>)
    requires 4 <= |fields| <= 6
    ensures |Join(fields, ' ')| ==
            |fields[0]| + |fields[1]| + |fields[2]| + |fields[3]| + |fields| - 1
            + (if |fields| > 4 then |fields[4]| else 0) + (if |fields| > 5 then |fields[5]| else 0)
  {
    var f1 := fields[1..];
    var f2 := f1[1..];
    var f3 := f2[1..];
    assert |Join(fields, ' ')| == |fields[0]| + 1 + |f1[0]| + 1 + |Join(f2, ' ')|;
    assert |Join(f2, ' ')| == |f2[0]| + 1 + |Join(f3, ' ')|;
    if |fields| > 4 {
      var f4 := f3[1..];
      assert |Join(f3, ' ')| == |f3[0]| + 1 + |Join(f4, ' ')|;
    }
  }

  /* ---------------- the texts themselves ---------------- */

  // Each byte of a name is two digits of the hexadecimal system, the higher first.
  lemma {:induction false} HexText(name: Name, i: nat)
    requires IsBytes(name) && i < |name|
    ensures var high, low := EncodeName(name)[2 * i], EncodeName(name)[2 * i + 1];
            && HexValue(high) * 16 + HexValue(low) == name[i] as int
            && 0 <= HexValue(high) < 16 && 0 <= HexValue(low) < 16
    decreases i
  {
    if i == 0 {
    } else {
      HexText(name[1..], i - 1);
      assert EncodeName(name)[2..] == EncodeName(name[1..]);
    }
  }

  // The value of a digit by its ASCII code, with lower-case letters.
  function HexValue(c: char): int {
    var code := c as int;
    if 48 <= code <= 57 then code - 48 else if 97 <= code <= 102 then code - 87 else -1
  }
}
