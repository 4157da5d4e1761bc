/**
 What an `authorized_keys` file may hold, line by line, and what its import returns: the
 whole grammar of the importer and of the login shell, with every refusal.
 */
module KeysImport {
  import opened Wrappers
  import opened Text
  import opened PublicKey
  import opened AuthorizedKeys
  import opened KeysRoundTrip

  /* ---------------- commands ---------------- */

  // Lower-case letters, digits and the hyphen, by their ASCII codes.
  predicate IdCode(code: int) {
    97 <= code <= 122 || 48 <= code <= 57 || code == 45
  }

  // A client identifier: one to 63 lower-case letters, digits and hyphens, no hyphen at
  // either end; the first reason not to be one is the error.
  lemma ClientIdExact(s: string)
    ensures IsClientId(s) <==>
            && 1 <= |s| <= 63 && s[0] != '-' && s[|s| - 1] != '-'
            && forall i :: 0 <= i < |s| ==> IdCode(s[i] as int)
    ensures ParseClientId(s) == if IsClientId(s) then Success(s)
                                else Failure(if s == "" then Empty else if |s| > 63 then TooLong(|s|) else InvalidCharacter)
  {
    assert forall i :: 0 <= i < |s| ==> (IsIdCharacter(s[i]) <==> IdCode(s[i] as int));
  }

  // Letters, digits and `+`, `-`, `.`, `/`, `_`, by their ASCII codes.
  predicate PathCode(code: int) {
    || 97 <= code <= 122 || 65 <= code <= 90 || 48 <= code <= 57
    || code == 43 || code == 45 || code == 46 || code == 47 || code == 95
  }

  // A path that may stand in a command.
  lemma SafePathExact(path: string)
    ensures IsSafeDirectPath(path) <==>
            path != "" && path[0] as int == 47 && forall i :: 0 <= i < |path| ==> PathCode(path[i] as int)
  {
    assert forall i :: 0 <= i < |path| ==> (IsPathCharacter(path[i]) <==> PathCode(path[i] as int));
  }

  // The command of the current version, without anything around it.
  predicate CurrentCommand(command: string, config: string, id: string) {
    config != "" && config[0] == '/' && ' ' !in config && IsClientId(id) && command == "akg-v1 " + config + " " + id
  }

  lemma CommandIs(config: string, id: string)
    ensures Command(config, id) == "akg-v1 " + config + " " + id
  {
    assert COMMAND_VERSION + " " == "akg-v1 ";
  }

  // The login shell accepts exactly three arguments of which the last is such a command.
  lemma ShellExactly(arguments: seq<string>, config: string, id: string)
    ensures ParseInvocation(arguments) == Success(Invocation(config, id)) <==>
            |arguments| == 3 && arguments[1] == "-c" && CurrentCommand(arguments[2], config, id)
  {
    CommandIs(config, id);
    if ParseInvocation(arguments) == Success(Invocation(config, id)) {
      assert arguments == [arguments[0], "-c", arguments[2]];
      ShellReads(arguments[0], arguments[2]);
    }
    if |arguments| == 3 && arguments[1] == "-c" && CurrentCommand(arguments[2], config, id) {
      PlainIds(id);
      CommandFields(config, id);
    }
  }

  // The importer accepts these and the direct Gateway commands of the older form.
  lemma CommandExactly(command: string, id: string)
    ensures ParseForcedCommand(command) == Success(id) <==>
            && IsClientId(id)
            && ((exists config :: CurrentCommand(command, config, id))
                || exists program, config :: LegacyCommand(command, program, config, id))
  {
    if ParseForcedCommand(command) == Success(id) {
      CommandNamesClient(command);
      if Split(command, ' ')[0] == COMMAND_VERSION {
        ReadersAgree("", command);
        ShellReads("", command);
        CommandIs(ParseInvocation(["", "-c", command]).value.config, id);
        assert CurrentCommand(command, ParseInvocation(["", "-c", command]).value.config, id);
      } else {
        LegacyOnly(command);
        var program, config :| IsGatewayProgram(program) && IsSafeDirectPath(config)
                               && command == Join(LegacyFields(program, config, id), ' ');
        assert LegacyCommand(command, program, config, id);
      }
    }
    if config :| CurrentCommand(command, config, id) {
      CommandIs(config, id);
      PlainIds(id);
      CommandFields(config, id);
    }
    if program, config :| LegacyCommand(command, program, config, id) && IsClientId(id) {
      LegacyReads(program, config, id);
    }
  }

  predicate LegacyCommand(command: string, program: string, config: string, id: string) {
    IsGatewayProgram(program) && IsSafeDirectPath(config) && command == Join(LegacyFields(program, config, id), ' ')
  }

  // The last component of a path that is neither empty nor a dot, unless it leads upwards.
  lemma {:induction false} LastNameExact(components: seq<string>, name: string)
    ensures LastName(components) == Some(name) <==>
            && name !in ["", ".", ".."]
            && exists i :: 0 <= i < |components| && components[i] == name
                           && forall j :: i < j < |components| ==> components[j] in ["", "."]
  {
    if components == [] {
    } else {
      var last := |components| - 1;
      LastNameExact(components[..last], name);
      if components[last] in ["", "."] {
        if i :| 0 <= i < |components| && components[i] == name && name !in ["", ".", ".."]
                && forall j :: i < j < |components| ==> components[j] in ["", "."] {
          assert components[..last][i] == name;
        }
        if i :| 0 <= i < last && components[..last][i] == name
                && forall j :: i < j < last ==> components[..last][j] in ["", "."] {
          forall j | i < j < |components| ensures components[j] in ["", "."] {
            assert j < last ==> components[j] == components[..last][j];
          }
          assert components[i] == name;
        }
      }
    }
  }

  /* ---------------- lines ---------------- */

  predicate ImportableLine(line: string, command: string, text: string, client: ImportedClient) {
    && line == COMMAND_PREFIX + command + "\" " + text
    && '"' !in command && '\\' !in command && ParseForcedCommand(command) == Success(client.id)
    && "ssh-ed25519 " <= text && PublicKey.Parse(text) == Success(client.key)
  }

  // A line imports exactly if it is the restriction, a quoted command and a key that are each
  // accepted; no accepted command hides the place where the key begins.
  lemma LineExactly(line: string, client: ImportedClient)
    ensures ParseLine(line) == Success(client) <==>
            exists command, text :: ImportableLine(line, command, text, client)
  {
    if ParseLine(line) == Success(client) {
      ImportedHasShape(line, client);
    }
    if command, text :| ImportableLine(line, command, text, client) {
      ShapeImports(line, command, text, client);
    }
  }

  lemma ImportedHasShape(line: string, client: ImportedClient)
    requires ParseLine(line) == Success(client)
    ensures exists command, text :: ImportableLine(line, command, text, client)
  {
    LineParts(line);
    KeyUnquoted(line);
    var (options, text) := Cut(line).value;
    var command := QuotedCommand(options).value;
    CutRejoins(line);
    OptionsRejoin(options);
    QuoteThenSpace(COMMAND_PREFIX + command, text);
    assert ImportableLine(line, command, text, client);
  }

  lemma QuoteThenSpace(quoted: string, text: string)
    ensures quoted + "\"" + " " + text == quoted + "\" " + text
  {
    assert "\" " == "\"" + " ";
  }

  lemma ShapeImports(line: string, command: string, text: string, client: ImportedClient)
    requires ImportableLine(line, command, text, client)
    ensures ParseLine(line) == Success(client)
  {
    KeyIsLonger(text, client.key);
    CommandCuts(command, client.id, text);
    Quoted(command);
    PartsRead(Some(command), text, ParseForcedCommand, PublicKey.Parse);
    ParseOfCut(line, COMMAND_PREFIX + command + "\"", text);
  }

  lemma ParseOfCut(line: string, options: string, text: string)
    requires Cut(line) == Some((options, text))
    ensures ParseLine(line) == ReadParts(QuotedCommand(options), text, ParseForcedCommand, PublicKey.Parse)
  {
  }

  // A key is more than the name of its algorithm.
  lemma KeyIsLonger(text: string, key: NormalizedPublicKey)
    requires "ssh-ed25519 " <= text && PublicKey.Parse(text) == Success(key)
    ensures |text| > 12
  {
    if |text| <= 12 {
      assert text == ALGORITHM + " ";
      AlgorithmText();
      FieldsExact(ALGORITHM, "");
      assert ALGORITHM + "" == ALGORITHM && Fields("") == [];
      TrimmedTail(ALGORITHM);
    }
  }

  lemma TrimmedTail(word: string)
    requires word != "" && !IsSpace(word[0]) && !IsSpace(word[|word| - 1])
    ensures Trim(word + " ") == word
  {
    var s := word + " ";
    assert s[..|s| - 1] == word && s[|s| - 1] == ' ' && s[0] == word[0];
    assert TrimStart(s) == s && TrimEnd(word) == word;
  }

  lemma CutRejoins(line: string)
    requires Cut(line).Some?
    ensures var (options, text) := Cut(line).value; line == options + " " + text && "ssh-ed25519 " <= text
  {
    FindSound(line, KEY_MARKER, 0);
    MarkerFacts();
    assert KEY_MARKER[1..] == "ssh-ed25519 ";
    Rejoined(line, KEY_MARKER, Find(line, KEY_MARKER, 0).value);
  }

  lemma Rejoined(line: string, marker: string, start: nat)
    requires marker != "" && marker[0] == ' ' && start + |marker| <= |line| && line[start..start + |marker|] == marker
    ensures line == line[..start] + " " + line[start + 1..] && marker[1..] <= line[start + 1..]
  {
    assert line[start] == line[start..start + |marker|][0];
    forall i | 0 <= i < |marker| - 1 ensures line[start + 1..][i] == marker[1..][i] {
      assert line[start + 1 + i] == line[start..start + |marker|][i + 1];
    }
    assert line == line[..start] + [line[start]] + line[start + 1..];
  }

  lemma {:induction false} FindSound(s: string, pattern: string, from: nat)
    requires from <= |s| && Find(s, pattern, from).Some?
    ensures var at := Find(s, pattern, from).value; s[at..at + |pattern|] == pattern
    decreases |s| - from
  {
    if s[from..from + |pattern|] == pattern {
    } else {
      FindSound(s, pattern, from + 1);
    }
  }

  lemma OptionsRejoin(options: string)
    requires QuotedCommand(options).Some?
    ensures options == COMMAND_PREFIX + QuotedCommand(options).value + "\""
  {
    var n := |COMMAND_PREFIX|;
    assert options == options[..n] + options[n..|options| - 1] + [options[|options| - 1]];
  }

  lemma KeyUnquoted(line: string)
    requires ParseLine(line).Success?
    ensures Cut(line).Some? && QuotedCommand(Cut(line).value.0).Some? && Unquoted(QuotedCommand(Cut(line).value.0).value)
  {
    var (options, text) := Cut(line).value;
    PartsRead(QuotedCommand(options), text, ParseForcedCommand, PublicKey.Parse);
  }

  lemma CommandCuts(command: string, id: string, text: string)
    requires ParseForcedCommand(command) == Success(id) && "ssh-ed25519 " <= text && |text| > 12
    ensures Cut(COMMAND_PREFIX + command + "\" " + text) == Some((COMMAND_PREFIX + command + "\"", text))
  {
    CommandExactly(command, id);
    assert text[..12] == "ssh-ed25519 " == ALGORITHM + " ";
    if config :| CurrentCommand(command, config, id) {
      CommandIs(config, id);
      LineSplits(config, id, text);
    } else {
      var program, config :| LegacyCommand(command, program, config, id);
      LegacySplits(program, config, id, text);
    }
  }

  // White space of ASCII.
  predicate SpaceCode(code: int) {
    9 <= code <= 13 || code == 32
  }

  // A line is passed over exactly if nothing but white space is in it, or if the first other
  // character is a number sign.
  lemma IgnoredExact(line: string)
    ensures Ignored(line) <==>
            || (forall i :: 0 <= i < |line| ==> SpaceCode(line[i] as int))
            || exists i :: 0 <= i < |line| && line[i] == '#' && forall j :: 0 <= j < i ==> SpaceCode(line[j] as int)
  {
    assert forall i :: 0 <= i < |line| ==> (IsSpace(line[i]) <==> SpaceCode(line[i] as int));
    var start, end := TrimExact(line);
    if start < end {
      assert Trim(line)[0] == line[start];
    }
  }

  // The lines of a file: what ends with a line feed, without it and without one carriage
  // return before it, and what follows the last one unless it is empty.
  lemma LinesExact(line: string, rest: string)
    requires '\n' !in line
    ensures Lines("") == [] && (line != "" ==> Lines(line) == [line])
    ensures Lines(line + "\n" + rest) == [StripCarriageReturn(line)] + Lines(rest)
    ensures Lines(line + "\r\n" + rest) == [line] + Lines(rest)
  {
    SplitPlain(line, '\n');
    FedLine(line, rest);
    var returned := line + "\r";
    FedLine(returned, rest);
    assert returned + "\n" == line + "\r\n";
    assert returned[..|returned| - 1] == line;
  }

  lemma FedLine(line: string, rest: string)
    requires '\n' !in line
    ensures Lines(line + "\n" + rest) == [StripCarriageReturn(line)] + Lines(rest)
  {
    SplitAfterField(line, rest, '\n');
    PartsFed(line, Split(rest, '\n'));
  }

  lemma PartsFed(line: string, others: seq<string>)
    requires |others| > 0
    ensures LinesOfParts([line] + others) == [StripCarriageReturn(line)] + LinesOfParts(others)
  {
    var parts := [line] + others;
    assert forall i :: 0 <= i < |others| ==> parts[i + 1] == others[i];
  }

  /* ---------------- files ---------------- */

  // The lines that count, in order.
  function Kept(lines: seq<string>, ignored: string -> bool): seq<string> {
    if lines == [] then []
    else (if ignored(lines[0]) then [] else [lines[0]]) + Kept(lines[1..], ignored)
  }

  type Reader = string -> Result<ImportedClient, ImportError>

  // Line `i` counts and cannot be read, and no line before it is like that.
  ghost predicate FirstFailure(lines: seq<string>, i: nat, ignored: string -> bool, read: Reader) {
    && i < |lines| && !ignored(lines[i]) && read(lines[i]).Failure?
    && forall j :: 0 <= j < i && !ignored(lines[j]) ==> read(lines[j]).Success?
  }

  // The error of line `i`, with its number where the line itself is wrong.
  ghost predicate Reported(error: ImportError, lines: seq<string>, i: nat, index: nat, read: Reader) {
    && i < |lines| && read(lines[i]).Failure?
    && error == if read(lines[i]).error.InvalidLine? then InvalidLine(Some(index + i + 1)) else read(lines[i]).error
  }

  lemma {:induction false} ImportByAccepts(lines: seq<string>, index: nat, ignored: string -> bool, read: Reader)
    ensures var r, kept := ImportBy(lines, index, ignored, read), Kept(lines, ignored);
            && (r.Success? <==> forall i :: 0 <= i < |lines| && !ignored(lines[i]) ==> read(lines[i]).Success?)
            && (r.Success? ==>
                  |r.value| == |kept| && forall k :: 0 <= k < |kept| ==> read(kept[k]) == Success(r.value[k]))
    decreases |lines|
  {
    if lines == [] {
    } else {
      var rest := lines[1..];
      ImportByAccepts(rest, index + 1, ignored, read);
      assert forall i :: 0 < i < |lines| ==> lines[i] == rest[i - 1];
    }
  }

  lemma {:induction false} ImportByRefuses(lines: seq<string>, index: nat, ignored: string -> bool, read: Reader)
    ensures var r := ImportBy(lines, index, ignored, read);
            r.Failure? ==>
              exists i: nat :: FirstFailure(lines, i, ignored, read) && Reported(r.error, lines, i, index, read)
    decreases |lines|
  {
    if lines == [] {
    } else {
      var rest := lines[1..];
      ImportByRefuses(rest, index + 1, ignored, read);
      var r, others := ImportBy(lines, index, ignored, read), ImportBy(rest, index + 1, ignored, read);
      if !ignored(lines[0]) && read(lines[0]).Failure? {
        assert FirstFailure(lines, 0, ignored, read) && Reported(r.error, lines, 0, index, read);
      } else if others.Failure? {
        var i: nat :| FirstFailure(rest, i, ignored, read) && Reported(others.error, rest, i, index + 1, read);
        LaterFailure(lines, i, ignored, read);
        assert r == others && Reported(r.error, lines, i + 1, index, read);
      }
    }
  }

  lemma LaterFailure(lines: seq<string>, i: nat, ignored: string -> bool, read: Reader)
    requires lines != [] && FirstFailure(lines[1..], i, ignored, read)
    requires ignored(lines[0]) || read(lines[0]).Success?
    ensures FirstFailure(lines, i + 1, ignored, read)
  {
    assert forall j :: 0 < j < |lines| ==> lines[j] == lines[1..][j - 1];
  }

  // An import succeeds exactly if the file is within the limit and every line that counts
  // can be read; it returns their clients in order, or the error of the first that cannot.
  lemma ImportedFileExactly(input: string)
    ensures var r, lines := ParseAuthorizedKeys(input), Lines(input);
            var kept := Kept(lines, Ignored);
            && (r.Success? <==>
                && |input| <= 4_194_304
                && forall i :: 0 <= i < |lines| && !Ignored(lines[i]) ==> ReadLine(lines[i]).Success?)
            && (r.Success? ==>
                  |r.value| == |kept| && forall k :: 0 <= k < |kept| ==> ReadLine(kept[k]) == Success(r.value[k]))
            && (r.Failure? ==>
                  if |input| > 4_194_304 then r.error == ImportError.TooLarge
                  else exists i: nat :: FirstFailure(lines, i, Ignored, ReadLine) && Reported(r.error, lines, i, 0, ReadLine))
  {
    ImportByAccepts(Lines(input), 0, Ignored, ReadLine);
    ImportByRefuses(Lines(input), 0, Ignored, ReadLine);
  }
}
