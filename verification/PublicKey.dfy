/**
 Ed25519 public keys in OpenSSH form: the key blob of section 4 of RFC 8709 made of strings
 as in section 5 of RFC 4251, in base64, after the name of the algorithm. Text is ASCII.
 */
module PublicKey {
  import opened Wrappers
  import opened Base64

  const MAXIMUM_PUBLIC_KEY_BYTES := 16 * 1024
  const ALGORITHM := "ssh-ed25519"
  const ALGORITHM_BYTES: seq<byte> := [115, 115, 104, 45, 101, 100, 50, 53, 53, 49, 57]
  const KEY_BYTES := 32

  datatype NormalizedPublicKey = NormalizedPublicKey(openssh: string)

  datatype Error = TooLarge | InvalidFormat | InvalidEncoding | UnsupportedAlgorithm(algorithm: string)

  /* ---------------- white space ---------------- */

  // The white space between fields, and the wider one that trimming removes.
  predicate IsFieldSpace(c: char) {
    c == ' ' || c == '\t' || c == '\n' || c == '\r' || c == 0x0C as char
  }

  predicate IsSpace(c: char) {
    IsFieldSpace(c) || c == 0x0B as char
  }

  function TrimStart(s: string): (r: string)
    ensures |r| <= |s|
  {
    if s != "" && IsSpace(s[0]) then TrimStart(s[1..]) else s
  }

  function TrimEnd(s: string): (r: string)
    ensures |r| <= |s|
  {
    if s != "" && IsSpace(s[|s| - 1]) then TrimEnd(s[..|s| - 1]) else s
  }

  function Trim(s: string): string {
    TrimEnd(TrimStart(s))
  }

  // The length of the first run of field characters.
  function FieldLength(s: string): (n: nat)
    ensures n <= |s|
  {
    if s == "" || IsFieldSpace(s[0]) then 0 else 1 + FieldLength(s[1..])
  }

  // `split_ascii_whitespace`.
  function Fields(s: string): seq<string> {
    if s == "" then []
    else if IsFieldSpace(s[0]) then Fields(s[1..])
    else [s[..FieldLength(s)]] + Fields(s[FieldLength(s)..])
  }

  // The fields of a text: its maximal runs without white space.
  lemma FieldsExact(word: string, rest: string)
    requires word != "" && forall i :: 0 <= i < |word| ==> !IsFieldSpace(word[i])
    requires rest == "" || IsFieldSpace(rest[0])
    ensures Fields(word + rest) == [word] + Fields(rest)
    ensures rest != "" ==> Fields(rest) == Fields(rest[1..])
  {
    FieldLengthOf(word, rest);
    assert (word + rest)[0] == word[0] && (word + rest)[..|word|] == word && (word + rest)[|word|..] == rest;
  }

  // Trimming removes the white space at both ends and nothing else.
  lemma TrimExact(s: string) returns (start: nat, end: nat)
    ensures start <= end <= |s| && Trim(s) == s[start..end]
    ensures forall i :: 0 <= i < start || end <= i < |s| ==> IsSpace(s[i])
    ensures start < end ==> !IsSpace(s[start]) && !IsSpace(s[end - 1])
  {
    start := StartOf(s);
    end := EndOf(s[start..]);
    end := start + end;
    assert s[start..][..end - start] == s[start..end];
    forall i | end <= i < |s| ensures IsSpace(s[i]) {
      assert s[i] == s[start..][i - start];
    }
  }

  lemma {:induction false} StartOf(s: string) returns (k: nat)
    ensures k <= |s| && TrimStart(s) == s[k..] && (forall i :: 0 <= i < k ==> IsSpace(s[i]))
    ensures k < |s| ==> !IsSpace(s[k])
    decreases |s|
  {
    k := 0;
    if s != "" && IsSpace(s[0]) {
      var rest := StartOf(s[1..]);
      k := rest + 1;
      assert s[1..][rest..] == s[k..];
    }
  }

  lemma {:induction false} EndOf(s: string) returns (k: nat)
    ensures k <= |s| && TrimEnd(s) == s[..k] && (forall i :: k <= i < |s| ==> IsSpace(s[i]))
    ensures k > 0 ==> !IsSpace(s[k - 1])
    decreases |s|
  {
    k := |s|;
    if s != "" && IsSpace(s[|s| - 1]) {
      k := EndOf(s[..|s| - 1]);
    }
  }

  predicate FieldText(s: string) {
    s != "" && forall i :: 0 <= i < |s| ==> !IsSpace(s[i])
  }

  lemma {:induction false} FieldLengthOf(field: string, rest: string)
    requires forall i :: 0 <= i < |field| ==> !IsFieldSpace(field[i])
    requires rest == "" || IsFieldSpace(rest[0])
    ensures FieldLength(field + rest) == |field|
  {
    if field == "" {
      assert field + rest == rest;
    } else {
      assert (field + rest)[1..] == field[1..] + rest;
      FieldLengthOf(field[1..], rest);
    }
  }

  lemma TwoFields(a: string, b: string)
    requires FieldText(a) && FieldText(b)
    ensures Fields(a + " " + b) == [a, b]
    ensures Trim(a + " " + b) == a + " " + b
  {
    var s := a + " " + b;
    assert s == a + (" " + b);
    FieldLengthOf(a, " " + b);
    assert s[..|a|] == a && s[|a|..] == " " + b;
    assert (" " + b)[1..] == b;
    assert b + "" == b;
    FieldLengthOf(b, "");
    assert b[..|b|] == b && b[|b|..] == "";
    assert Fields(b) == [b] + Fields("");
    assert Fields(" " + b) == Fields(b);
    assert !IsSpace(s[0]) && s[|s| - 1] == b[|b| - 1];
  }

  /* ---------------- the key blob ---------------- */

  function U32(n: nat): seq<byte>
    requires n < 0x1_0000_0000
  {
    [n / 0x100_0000, n / 0x1_0000 % 256, n / 256 % 256, n % 256]
  }

  function FromBigEndian(a: int, b: int, c: int, d: int): int {
    a * 0x100_0000 + b * 0x1_0000 + c * 256 + d
  }

  // A length and as many bytes; the value and what follows it.
  function ReadSshString(input: seq<byte>): Option<(seq<byte>, seq<byte>)> {
    if |input| < 4 then
      None
    else
      var length := FromBigEndian(input[0], input[1], input[2], input[3]);
      if |input| < 4 + length then None else Some((input[4..4 + length], input[4 + length..]))
  }

  function ValidateEd25519Wire(wire: seq<byte>): Result<(), Error> {
    var first := ReadSshString(wire);
    if first.None? then
      Failure(InvalidEncoding)
    else
      var second := ReadSshString(first.value.1);
      if second.None? then Failure(InvalidEncoding)
      else if first.value.0 != ALGORITHM_BYTES || |second.value.0| != KEY_BYTES || second.value.1 != [] then
        Failure(InvalidEncoding)
      else
        Success(())
  }

  // The blob of a key.
  function Wire(key: seq<byte>): seq<byte> {
    U32(|ALGORITHM_BYTES|) + ALGORITHM_BYTES + U32(KEY_BYTES) + key
  }

  lemma ReadString(value: seq<byte>, rest: seq<byte>)
    requires |value| < 256
    ensures U32(|value|) == [0, 0, 0, |value|]
    ensures ReadSshString(U32(|value|) + value + rest) == Some((value, rest))
  {
    var input := U32(|value|) + value + rest;
    assert input[0] == 0 && input[1] == 0 && input[2] == 0 && input[3] == |value|;
    assert input[4..4 + |value|] == value && input[4 + |value|..] == rest;
  }

  lemma StringRead(input: seq<byte>)
    requires ReadSshString(input).Some? && |ReadSshString(input).value.0| < 256
    ensures var (value, rest) := ReadSshString(input).value;
            input == U32(|value|) + value + rest
  {
    var (value, rest) := ReadSshString(input).value;
    assert |value| == FromBigEndian(input[0], input[1], input[2], input[3]);
    assert input[0] == 0 && input[1] == 0 && input[2] == 0 && input[3] == |value|;
    ReadString(value, rest);
    assert input[..4] == [0, 0, 0, |value|];
    assert input == input[..4] + input[4..4 + |value|] + input[4 + |value|..];
  }

  // The accepted blobs are the blobs of the keys of 32 bytes.
  lemma WireExact(wire: seq<byte>)
    ensures ValidateEd25519Wire(wire).Success? <==>
            |wire| == 19 + KEY_BYTES && wire == Wire(wire[19..])
  {
    if |wire| == 19 + KEY_BYTES && wire == Wire(wire[19..]) {
      var key := wire[19..];
      var rest := U32(KEY_BYTES) + key;
      assert wire == U32(|ALGORITHM_BYTES|) + ALGORITHM_BYTES + rest;
      ReadString(ALGORITHM_BYTES, rest);
      assert rest == U32(|key|) + key + [];
      ReadString(key, []);
    }
    if ValidateEd25519Wire(wire).Success? {
      var (algorithm, rest) := ReadSshString(wire).value;
      var (key, nothing) := ReadSshString(rest).value;
      StringRead(wire);
      StringRead(rest);
      assert rest == U32(KEY_BYTES) + key;
      assert wire == Wire(key);
      assert wire[19..] == key;
    }
  }

  // Byte by byte: the length and the name of the algorithm, the length of the key, the key.
  lemma WireBytes(wire: seq<byte>)
    ensures ValidateEd25519Wire(wire).Success? <==>
            && |wire| == 51 && wire[..4] == [0, 0, 0, 11] && wire[4..15] == ALGORITHM_BYTES
            && wire[15..19] == [0, 0, 0, 32]
    ensures |ALGORITHM| == 11 && forall i :: 0 <= i < 11 ==> ALGORITHM_BYTES[i] == ALGORITHM[i] as int
  {
    WireExact(wire);
    if |wire| == 51 {
      Parts(wire, U32(11), ALGORITHM_BYTES, U32(32));
      assert U32(11) == [0, 0, 0, 11] && U32(32) == [0, 0, 0, 32];
    }
  }

  lemma Parts(wire: seq<byte>, a: seq<byte>, b: seq<byte>, c: seq<byte>)
    requires |a| == 4 && |b| == 11 && |c| == 4 && |wire| >= 19
    ensures wire == a + b + c + wire[19..] <==> wire[..4] == a && wire[4..15] == b && wire[15..19] == c
  {
    assert wire == wire[..4] + wire[4..15] + wire[15..19] + wire[19..];
    var whole := a + b + c + wire[19..];
    assert whole[..4] == a && whole[4..15] == b && whole[15..19] == c;
  }

  /* ---------------- parsing ---------------- */

  function Line(wire: seq<byte>): string {
    ALGORITHM + " " + Encode(wire)
  }

  function Parse(input: string): Result<NormalizedPublicKey, Error> {
    if |input| > MAXIMUM_PUBLIC_KEY_BYTES then
      Failure(TooLarge)
    else
      var trimmed := Trim(input);
      if trimmed == "" || '\n' in trimmed || '\r' in trimmed then
        Failure(InvalidFormat)
      else
        var fields := Fields(trimmed);
        if |fields| < 2 then
          Failure(InvalidFormat)
        else if fields[0] != ALGORITHM then
          Failure(UnsupportedAlgorithm(fields[0]))
        else
          var wire := Decode(fields[1]);
          if wire.None? || ValidateEd25519Wire(wire.value).Failure? then
            Failure(InvalidEncoding)
          else
            Success(NormalizedPublicKey(Line(wire.value)))
  }

  lemma SymbolIsText(v: sextet)
    ensures !IsSpace(Symbol(v))
  {
  }

  lemma EncodedText(bytes: seq<byte>)
    requires Encode(bytes) != ""
    ensures FieldText(Encode(bytes))
  {
    var s := Encode(bytes);
    EncodePlain(bytes);
    forall i | 0 <= i < |s| ensures !IsSpace(s[i]) {
      ValueSymbol(s[i]);
      if Value(s[i]).Some? {
        SymbolIsText(Value(s[i]).value);
      }
    }
  }

  lemma AlgorithmText()
    ensures FieldText(ALGORITHM) && |ALGORITHM| == 11
  {
  }

  // The canonical line of a valid blob is 80 characters and reads back as itself.
  lemma LineParses(wire: seq<byte>)
    requires ValidateEd25519Wire(wire).Success?
    ensures |Line(wire)| == 80
    ensures Parse(Line(wire)) == Success(NormalizedPublicKey(Line(wire)))
  {
    WireLength(wire);
    EncodedWire(wire);
    AlgorithmText();
    ParseOf(Encode(wire), wire);
  }

  lemma WireLength(wire: seq<byte>)
    requires ValidateEd25519Wire(wire).Success?
    ensures |wire| == 51
  {
    WireExact(wire);
  }

  lemma EncodedWire(wire: seq<byte>)
    requires |wire| == 51
    ensures |Encode(wire)| == 68 && Decode(Encode(wire)) == Some(wire) && FieldText(Encode(wire))
  {
    DecodeEncode(wire);
    EncodeLength(wire, 17);
    EncodedText(wire);
  }

  lemma ParseOf(encoded: string, wire: seq<byte>)
    requires FieldText(encoded) && |encoded| == 68
    requires Decode(encoded) == Some(wire) && ValidateEd25519Wire(wire).Success?
    ensures Parse(ALGORITHM + " " + encoded) == Success(NormalizedPublicKey(Line(wire)))
  {
    AlgorithmText();
    TwoFields(ALGORITHM, encoded);
    FieldsHaveNoBreaks(ALGORITHM, encoded);
    ParseFields(ALGORITHM + " " + encoded, ALGORITHM, encoded, wire);
  }

  lemma FieldsHaveNoBreaks(a: string, b: string)
    requires FieldText(a) && FieldText(b)
    ensures '\n' !in a + " " + b && '\r' !in a + " " + b
  {
  }

  lemma ParseFields(line: string, algorithm: string, encoded: string, wire: seq<byte>)
    requires 0 < |line| <= MAXIMUM_PUBLIC_KEY_BYTES && Trim(line) == line && '\n' !in line && '\r' !in line
    requires Fields(line) == [algorithm, encoded] && algorithm == ALGORITHM
    requires Decode(encoded) == Some(wire) && ValidateEd25519Wire(wire).Success?
    ensures Parse(line) == Success(NormalizedPublicKey(Line(wire)))
  {
  }

  // A key as the parser makes it.
  predicate IsNormalized(k: NormalizedPublicKey) {
    |k.openssh| > 12 && k.openssh[..12] == ALGORITHM + " "
    && var wire := Decode(k.openssh[12..]);
       wire.Some? && ValidateEd25519Wire(wire.value).Success?
  }

  lemma NormalizedLine(k: NormalizedPublicKey)
    requires IsNormalized(k)
    ensures k.openssh == Line(Decode(k.openssh[12..]).value)
  {
    EncodeDecode(k.openssh[12..]);
    assert k.openssh == k.openssh[..12] + k.openssh[12..];
  }

  // Parsing normalises: its results are exactly the keys that parse to themselves.
  lemma ParseNormalizes(input: string)
    requires Parse(input).Success?
    ensures IsNormalized(Parse(input).value)
  {
    var wire := Decode(Fields(Trim(input))[1]).value;
    var line := Line(wire);
    AlgorithmText();
    DecodeEncode(wire);
    assert line[..12] == ALGORITHM + " " && line[12..] == Encode(wire);
    LineParses(wire);
  }

  lemma NormalizedExactly(k: NormalizedPublicKey)
    ensures IsNormalized(k) <==> Parse(k.openssh) == Success(k)
  {
    if IsNormalized(k) {
      NormalizedLine(k);
      LineParses(Decode(k.openssh[12..]).value);
    }
    if Parse(k.openssh) == Success(k) {
      ParseNormalizes(k.openssh);
    }
  }

  // What the parser accepts and returns: the first two fields of one line as they stand, if
  // they are a normalised key; the encoding is strict, so nothing is rewritten.
  lemma ParseExactly(input: string, k: NormalizedPublicKey)
    ensures Parse(input) == Success(k) <==>
            && |input| <= MAXIMUM_PUBLIC_KEY_BYTES
            && '\n' !in Trim(input) && '\r' !in Trim(input)
            && |Fields(Trim(input))| >= 2
            && k.openssh == Fields(Trim(input))[0] + " " + Fields(Trim(input))[1]
            && Fields(Trim(input))[0] == ALGORITHM
            && IsNormalized(k)
  {
    var fields := Fields(Trim(input));
    AlgorithmText();
    if |fields| >= 2 && fields[0] == ALGORITHM {
      var line := fields[0] + " " + fields[1];
      assert line[..12] == ALGORITHM + " " && line[12..] == fields[1];
      if Decode(fields[1]).Some? {
        EncodeDecode(fields[1]);
      }
    }
    if Parse(input) == Success(k) {
      ParseNormalizes(input);
    }
  }
}
