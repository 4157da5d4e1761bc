/** Importing what was rendered, and logging in with it. */
module KeysRoundTrip {
  import opened Wrappers
  import opened Text
  import opened PublicKey
  import opened AuthorizedKeys

  /* ---------------- finding the key ---------------- */

  predicate Matches(s: string, pattern: string, at: nat) {
    at + |pattern| <= |s| && forall t :: 0 <= t < |pattern| ==> s[at + t] == pattern[t]
  }

  lemma MatchesSlice(s: string, pattern: string, at: nat)
    requires at + |pattern| <= |s|
    ensures Matches(s, pattern, at) <==> s[at..at + |pattern|] == pattern
  {
    var slice := s[at..at + |pattern|];
    assert forall t :: 0 <= t < |pattern| ==> slice[t] == s[at + t];
  }

  lemma {:induction false} FindFirst(s: string, pattern: string, from: nat, at: nat)
    requires from <= at && Matches(s, pattern, at)
    requires forall j :: from <= j < at ==> !Matches(s, pattern, j)
    ensures Find(s, pattern, from) == Some(at)
    decreases at - from
  {
    MatchesSlice(s, pattern, from);
    if from >= at {
    } else {
      FindFirst(s, pattern, from + 1, at);
    }
  }

  lemma MarkerFacts()
    ensures |KEY_MARKER| == 13 && KEY_MARKER[0] == ' ' && KEY_MARKER[1] == 's' && KEY_MARKER[12] == ' '
    ensures forall i :: 0 <= i < 13 ==> KEY_MARKER[i] != '"'
  {
  }

  // A space is followed by something other than the first letter of the algorithm.
  predicate GuardedAt(s: string, j: nat) {
    j < |s| && s[j] == ' ' ==> j + 1 < |s| && s[j + 1] != 's'
  }

  predicate Guarded(s: string) {
    forall j :: 0 <= j < |s| ==> GuardedAt(s, j)
  }

  lemma WordsAt(a: string, c: string, j: nat)
    requires j < |a + " " + c|
    ensures (a + " " + c)[j] == if j < |a| then a[j] else if j == |a| then ' ' else c[j - |a| - 1]
  {
  }

  // The marker does not occur before the key, whatever the client is called: it starts with
  // a space, no earlier field starts like an algorithm, and a quote follows the identifier.
  lemma NoEarlierMarker(a: string, c: string, s: string, j: nat)
    requires Guarded(a) && ' ' !in c && c != "" && c[|c| - 1] == '"'
    requires a + " " + c <= s && j < |a| + |c| + 1
    ensures !Matches(s, KEY_MARKER, j)
  {
    var last := if |c| <= 12 then |c| - 1 else 11;
    var t := if j < |a| && a[j] == ' ' then 1 else if j == |a| then 1 + last else 0;
    MarkerFacts();
    assert j < |a| ==> GuardedAt(a, j);
    WordsAt(a, c, j + t);
    assert s[j + t] == (a + " " + c)[j + t] != KEY_MARKER[t];
  }

  lemma MarkerAfter(options: string, k: string)
    requires |k| > 12 && k[..12] == ALGORITHM + " "
    ensures options <= options + " " + k && Matches(options + " " + k, KEY_MARKER, |options|)
  {
    var line, at := options + " " + k, |options|;
    MarkerFacts();
    assert line[at..] == " " + k;
    assert line[at..at + 13] == " " + k[..12];
    assert KEY_MARKER == " " + (ALGORITHM + " ");
    MatchesSlice(line, KEY_MARKER, at);
  }

  lemma MarkerFound(a: string, c: string, k: string)
    requires Guarded(a) && ' ' !in c && c != "" && c[|c| - 1] == '"'
    requires |k| > 12 && k[..12] == ALGORITHM + " "
    ensures Find(a + " " + c + " " + k, KEY_MARKER, 0) == Some(|a| + |c| + 1)
  {
    MarkerAfter(a + " " + c, k);
    FirstMarker(a, c, a + " " + c, a + " " + c + " " + k);
  }

  lemma FirstMarker(a: string, c: string, options: string, s: string)
    requires Guarded(a) && ' ' !in c && c != "" && c[|c| - 1] == '"'
    requires options == a + " " + c && options <= s && Matches(s, KEY_MARKER, |options|)
    ensures Find(s, KEY_MARKER, 0) == Some(|a| + |c| + 1)
  {
    forall j | 0 <= j < |a| + |c| + 1 ensures !Matches(s, KEY_MARKER, j) {
      NoEarlierMarker(a, c, s, j);
    }
    FindFirst(s, KEY_MARKER, 0, |a| + |c| + 1);
  }

  /* ---------------- one line ---------------- */

  predicate Registered(client: Client) {
    IsClientId(client.id) && IsNormalized(client.key)
  }

  // Letters that need no quoting.
  predicate IsPlain(c: char) {
    IsPathCharacter(c) || IsIdCharacter(c)
  }

  lemma PlainIds(id: string)
    requires IsClientId(id)
    ensures id != "" && forall i :: 0 <= i < |id| ==> IsPlain(id[i])
  {
  }

  lemma GuardedAppend(a: string, field: string)
    requires Guarded(a) && ' ' !in field && field != "" && field[0] != 's'
    ensures Guarded(a + " " + field)
  {
    var s := a + " " + field;
    forall j | 0 <= j < |s| ensures GuardedAt(s, j) {
      assert j < |a| ==> GuardedAt(a, j);
      WordsAt(a, field, j);
      if j + 1 < |s| {
        WordsAt(a, field, j + 1);
      }
    }
  }

  // Words of which none after the first starts like the algorithm.
  predicate PlainFields(fields: seq<string>) {
    && FreeOf(fields, ' ')
    && forall i :: 1 <= i < |fields| ==> fields[i] != "" && fields[i][0] != 's'
  }

  lemma {:induction false} GuardedJoin(prefix: string, fields: seq<string>)
    requires ' ' !in prefix && |fields| > 0 && PlainFields(fields)
    ensures Guarded(prefix + Join(fields, ' '))
  {
    var last := |fields| - 1;
    if last == 0 {
      NoSpaceAppend(prefix, fields[0]);
    } else {
      GuardedJoin(prefix, fields[..last]);
      JoinLast(fields, ' ');
      GuardedAppend(prefix + Join(fields[..last], ' '), fields[last]);
      Regroup(prefix, Join(fields[..last], ' '), " ", fields[last]);
    }
  }

  lemma NoSpaceAppend(a: string, b: string)
    requires ' ' !in a && ' ' !in b
    ensures ' ' !in a + b
  {
  }

  // The key of a line is found where it was put, behind any command whose fields are plain up
  // to the last, the client.
  lemma LineCut(prefix: string, fields: seq<string>, id: string, k: string, command: string)
    requires ' ' !in prefix && |fields| > 0 && PlainFields(fields) && ' ' !in id
    requires |k| > 12 && k[..12] == ALGORITHM + " "
    requires command == Join(fields, ' ') + " " + id
    ensures Cut(prefix + command + "\" " + k) == Some((prefix + command + "\"", k))
  {
    GuardedJoin(prefix, fields);
    WordsCut(prefix, Join(fields, ' '), id, k);
  }

  lemma WordsCut(prefix: string, words: string, id: string, k: string)
    requires Guarded(prefix + words) && ' ' !in id && |k| > 12 && k[..12] == ALGORITHM + " "
    ensures var command := words + " " + id;
            Cut(prefix + command + "\" " + k) == Some((prefix + command + "\"", k))
  {
    var command := words + " " + id;
    QuotedWord(id);
    MarkerFound(prefix + words, id + "\"", k);
    Shape(prefix, words, id, k);
    CutAt(prefix + command, k);
  }

  lemma QuotedWord(id: string)
    requires ' ' !in id
    ensures var c := id + "\""; ' ' !in c && |c| == |id| + 1 && c[|c| - 1] == '"'
  {
  }

  lemma Shape(prefix: string, words: string, id: string, k: string)
    ensures prefix + (words + " " + id) + "\" " + k == prefix + words + " " + (id + "\"") + " " + k
  {
    Regroup(prefix, words, " ", id);
    assert "\" " == "\"" + " ";
    assert prefix + words + " " + id + "\" " + k == prefix + words + " " + (id + "\"") + " " + k;
  }

  lemma CommandText()
    ensures ' ' !in COMMAND_PREFIX && ' ' !in COMMAND_VERSION
  {
  }

  lemma PlainText(config: string, id: string)
    requires IsSafeDirectPath(config) && IsClientId(id)
    ensures forall i :: 0 <= i < |Command(config, id)| ==> Command(config, id)[i] == ' ' || IsPlain(Command(config, id)[i])
    ensures ' ' !in config && ' ' !in id
  {
    PlainIds(id);
    assert forall i :: 0 <= i < |COMMAND_VERSION| ==> IsPlain(COMMAND_VERSION[i]);
  }

  lemma CommandReads(program: string, config: string, id: string)
    requires IsSafeDirectPath(config) && IsClientId(id)
    ensures ParseForcedCommand(Command(config, id)) == Success(id)
    ensures ParseInvocation([program, "-c", Command(config, id)]) == Success(Invocation(config, id))
  {
    PlainText(config, id);
    CommandFields(config, id);
  }

  lemma Quoted(command: string)
    ensures QuotedCommand(COMMAND_PREFIX + command + "\"") == Some(command)
  {
    var options, n := COMMAND_PREFIX + command + "\"", |COMMAND_PREFIX|;
    assert options[..n] == COMMAND_PREFIX && options[n..|options| - 1] == command;
  }

  // The options end with a quote and are followed by a space and the key.
  lemma CutAt(quoted: string, k: string)
    ensures var line, at := quoted + "\" " + k, |quoted| + 1;
            line[..at] == quoted + "\"" && line[at + 1..] == k
  {
    var line, at := quoted + "\" " + k, |quoted| + 1;
    assert "\" " == "\"" + " ";
    assert line == (quoted + "\"") + " " + k;
  }

  lemma LineSplits(config: string, id: string, k: string)
    requires IsAbsolute(config) && ' ' !in config && IsClientId(id) && |k| > 12 && k[..12] == ALGORITHM + " "
    ensures Cut(COMMAND_PREFIX + Command(config, id) + "\" " + k)
         == Some((COMMAND_PREFIX + Command(config, id) + "\"", k))
  {
    CommandText();
    PlainIds(id);
    TwoWords(COMMAND_VERSION, config);
    LineCut(COMMAND_PREFIX, [COMMAND_VERSION, config], id, k, Command(config, id));
  }

  lemma TwoWords(a: string, b: string)
    ensures Join([a, b], ' ') == a + " " + b
  {
    assert [a, b][1..] == [b];
  }

  lemma NothingToQuote(command: string)
    requires forall i :: 0 <= i < |command| ==> command[i] == ' ' || IsPlain(command[i])
    ensures '"' !in command && '\\' !in command
  {
  }

  lemma LineReads(config: string, client: Client)
    requires IsSafeDirectPath(config) && Registered(client)
    ensures ParseLine(RenderLine(config, client)) == Success(ImportedClient(client.id, client.key))
  {
    var command := Command(config, client.id);
    PlainText(config, client.id);
    NothingToQuote(command);
    CommandReads("", config, client.id);
    LineSplits(config, client.id, client.key.openssh);
    FoundLine(command, client.key, RenderLine(config, client));
  }

  /* ---------------- a line and the shell ---------------- */

  lemma PartsRead(
    command: Option<string>, text: string, readCommand: string -> Result<string, ImportError>,
    readKey: string -> Result<NormalizedPublicKey, PublicKey.Error>
  )
    ensures var r := ReadParts(command, text, readCommand, readKey);
            && (r.Success? <==>
                command.Some? && Unquoted(command.value) && readCommand(command.value).Success? && readKey(text).Success?)
            && (r.Success? ==> r.value == ImportedClient(readCommand(command.value).value, readKey(text).value))
  {
  }

  // The parts of an imported line.
  lemma LineParts(line: string)
    requires ParseLine(line).Success?
    ensures Cut(line).Some?
    ensures var (options, text) := Cut(line).value;
            var command, key := QuotedCommand(options), PublicKey.Parse(text);
            && command.Some? && ParseForcedCommand(command.value).Success? && key.Success?
            && ParseLine(line).value == ImportedClient(ParseForcedCommand(command.value).value, key.value)
  {
    var (options, text) := Cut(line).value;
    PartsRead(QuotedCommand(options), text, ParseForcedCommand, PublicKey.Parse);
  }

  function LineOf(command: string, key: NormalizedPublicKey): string {
    COMMAND_PREFIX + command + "\" " + key.openssh
  }

  predicate Unquoted(command: string) {
    '"' !in command && '\\' !in command
  }

  // On a line whose key is found where it was put.
  lemma FoundLine(command: string, key: NormalizedPublicKey, line: string)
    requires IsNormalized(key) && Cut(line) == Some((COMMAND_PREFIX + command + "\"", key.openssh))
    ensures ParseLine(line).Success? <==> Unquoted(command) && ParseForcedCommand(command).Success?
    ensures ParseLine(line).Success? ==> ParseLine(line).value == ImportedClient(ParseForcedCommand(command).value, key)
  {
    Quoted(command);
    NormalizedExactly(key);
    PartsRead(Some(command), key.openssh, ParseForcedCommand, PublicKey.Parse);
  }

  lemma {:induction false} FindNotAfter(s: string, pattern: string, from: nat, at: nat)
    requires from <= at && Matches(s, pattern, at)
    ensures Find(s, pattern, from).Some? && from <= Find(s, pattern, from).value <= at
    decreases at - from
  {
    MatchesSlice(s, pattern, from);
    if from == at {
    } else {
      FindNotAfter(s, pattern, from + 1, at);
    }
  }

  // Options that end with a quote, after a command without one, end with the command.
  lemma OptionsEnd(prefix: string, command: string, rest: string, start: nat)
    requires '"' !in command && rest != "" && |prefix| < start <= |prefix| + |command| + 1
    requires (prefix + command + rest)[start - 1] == '"'
    ensures start == |prefix| + |command| + 1
  {
    var line := prefix + command + rest;
    forall j | |prefix| <= j < |prefix| + |command| ensures line[j] != '"' {
      assert line[j] == command[j - |prefix|];
    }
  }

  // The key of an imported line whose command holds no quote is where it was put.
  lemma ImportedAt(prefix: string, command: string, k: string, line: string, start: nat)
    requires '"' !in command && |k| > 12 && k[..12] == ALGORITHM + " "
    requires line == prefix + command + "\" " + k && Find(line, KEY_MARKER, 0) == Some(start)
    requires start > |prefix| && line[start - 1] == '"'
    ensures start == |prefix| + |command| + 1
  {
    var quoted := prefix + command;
    assert "\" " == "\"" + " ";
    assert line == (quoted + "\"") + " " + k == quoted + ("\" " + k);
    MarkerAfter(quoted + "\"", k);
    FindNotAfter(line, KEY_MARKER, 0, |quoted| + 1);
    OptionsEnd(prefix, command, "\" " + k, start);
  }

  lemma ImportedLine(prefix: string, command: string, k: string, line: string)
    requires '"' !in command && |k| > 12 && k[..12] == ALGORITHM + " "
    requires line == prefix + command + "\" " + k && Cut(line).Some?
    requires var options := Cut(line).value.0; |options| > |prefix| && options[|options| - 1] == '"'
    ensures Cut(line) == Some((prefix + command + "\"", k))
  {
    var start := Find(line, KEY_MARKER, 0).value;
    assert line[start - 1] == '"';
    ImportedAt(prefix, command, k, line, start);
    CutAt(prefix + command, k);
  }

  lemma OptionsQuoted(options: string)
    requires QuotedCommand(options).Some?
    ensures |options| > |COMMAND_PREFIX| && options[|options| - 1] == '"'
  {
  }

  lemma ShellReads(program: string, command: string)
    requires ParseInvocation([program, "-c", command]).Success?
    ensures var r := ParseInvocation([program, "-c", command]).value;
            && IsAbsolute(r.config) && ' ' !in r.config && IsClientId(r.id)
            && command == Command(r.config, r.id) && ParseForcedCommand(command) == Success(r.id)
  {
    ReadersAgree(program, command);
    JoinSplit(command, ' ');
  }

  // A forced command in a line and at the shell: what the shell accepts is imported, for the
  // same client and with the key of the line, exactly if it holds no quote and no backslash;
  // without those, the two accept the same commands of the current version.
  lemma LineReadersAgree(program: string, command: string, key: NormalizedPublicKey)
    requires IsNormalized(key)
    ensures var shell := ParseInvocation([program, "-c", command]);
            var line := ParseLine(LineOf(command, key));
            && (shell.Success? ==> (line.Success? <==> Unquoted(command)))
            && (Unquoted(command) && Split(command, ' ')[0] == COMMAND_VERSION ==> (line.Success? <==> shell.Success?))
            && (shell.Success? && line.Success? ==> line.value == ImportedClient(shell.value.id, key))
  {
    var shell, line := ParseInvocation([program, "-c", command]), LineOf(command, key);
    if shell.Success? {
      ShellReads(program, command);
      LineSplits(shell.value.config, shell.value.id, key.openssh);
      FoundLine(command, key, line);
    } else if Unquoted(command) && Split(command, ' ')[0] == COMMAND_VERSION && ParseLine(line).Success? {
      LineParts(line);
      OptionsQuoted(Cut(line).value.0);
      ImportedLine(COMMAND_PREFIX, command, key.openssh, line);
      FoundLine(command, key, line);
      ReadersAgree(program, command);
    }
  }

  lemma KeyText(k: NormalizedPublicKey)
    requires IsNormalized(k)
    ensures |k.openssh| == 80
    ensures forall i :: 0 <= i < |k.openssh| ==> k.openssh[i] == ' ' || !IsSpace(k.openssh[i])
    ensures !IsSpace(k.openssh[|k.openssh| - 1])
  {
    NormalizedLine(k);
    var wire := Base64.Decode(k.openssh[12..]).value;
    LineParses(wire);
    AlgorithmText();
    EncodedText(wire);
    WordsText(ALGORITHM, Base64.Encode(wire));
  }

  lemma WordsText(a: string, b: string)
    requires FieldText(a) && FieldText(b)
    ensures var s := a + " " + b;
            && (forall i :: 0 <= i < |s| ==> s[i] == ' ' || !IsSpace(s[i]))
            && !IsSpace(s[|s| - 1])
  {
  }

  predicate OneLine(s: string) {
    forall i :: 0 <= i < |s| ==> s[i] != '\n' && s[i] != '\r'
  }

  lemma OneLineAppend(a: string, b: string)
    requires OneLine(a) && OneLine(b)
    ensures OneLine(a + b)
  {
  }

  lemma TrimmedAlready(s: string)
    requires s != "" && !IsSpace(s[0]) && !IsSpace(s[|s| - 1])
    ensures Trim(s) == s
  {
  }

  lemma FramedText(a: string, b: string, c: string, k: string)
    requires OneLine(a) && OneLine(b) && OneLine(c) && OneLine(k)
    requires a != "" && a[0] == 'r' && k != "" && !IsSpace(k[|k| - 1])
    ensures var line := a + b + c + k;
            OneLine(line) && line[0] == 'r' && Trim(line) == line
  {
    OneLineAppend(a, b);
    OneLineAppend(a + b, c);
    OneLineAppend(a + b + c, k);
    TrimmedAlready(a + b + c + k);
  }

  lemma PrefixText()
    ensures OneLine(COMMAND_PREFIX) && COMMAND_PREFIX != "" && COMMAND_PREFIX[0] == 'r' && OneLine("\" ")
  {
  }

  lemma LineText(config: string, client: Client)
    requires IsSafeDirectPath(config) && Registered(client)
    ensures var line := RenderLine(config, client);
            OneLine(line) && Trim(line) == line && !Ignored(line)
  {
    var command, k := Command(config, client.id), client.key.openssh;
    PlainText(config, client.id);
    KeyText(client.key);
    PrefixText();
    assert OneLine(command) && OneLine(k);
    FramedText(COMMAND_PREFIX, command, "\" ", k);
  }

  // A line that the importer takes as it is.
  predicate Reads(line: string, client: ImportedClient) {
    Trim(line) == line && !Ignored(line) && ParseLine(line) == Success(client)
  }

  lemma ImportCons(lines: seq<string>, index: nat, client: ImportedClient, others: seq<ImportedClient>)
    requires lines != [] && Reads(lines[0], client) && ImportLines(lines[1..], index + 1) == Success(others)
    ensures ImportLines(lines, index) == Success([client] + others)
  {
  }

  lemma {:induction false} ImportAll(lines: seq<string>, clients: seq<ImportedClient>, index: nat)
    requires |lines| == |clients| && forall i :: 0 <= i < |lines| ==> Reads(lines[i], clients[i])
    ensures ImportLines(lines, index) == Success(clients)
    decreases |lines|
  {
    if lines == [] {
    } else {
      ImportAll(lines[1..], clients[1..], index + 1);
      ImportCons(lines, index, clients[0], clients[1..]);
      assert [clients[0]] + clients[1..] == clients;
    }
  }

  /* ---------------- all lines ---------------- */

  function RenderedLines(config: string, clients: seq<Client>): seq<string> {
    seq(|clients|, i requires 0 <= i < |clients| => RenderLine(config, clients[i]))
  }

  function ImportedOf(clients: seq<Client>): seq<ImportedClient> {
    seq(|clients|, i requires 0 <= i < |clients| => ImportedClient(clients[i].id, clients[i].key))
  }

  ghost predicate AllRegistered(clients: seq<Client>) {
    forall i :: 0 <= i < |clients| ==> Registered(clients[i])
  }

  lemma {:induction false} ActiveRegistered(clients: seq<Client>)
    requires AllRegistered(clients)
    ensures AllRegistered(Active(clients))
  {
    if clients == [] {
    } else {
      ActiveRegistered(clients[1..]);
    }
  }

  // Lines, each with its line feed.
  function Fed(lines: seq<string>): string {
    if lines == [] then "" else lines[0] + ['\n'] + Fed(lines[1..])
  }

  lemma {:induction false} SplitFed(lines: seq<string>)
    requires forall i :: 0 <= i < |lines| ==> OneLine(lines[i])
    ensures Split(Fed(lines), '\n') == lines + [""]
  {
    if lines == [] {
    } else {
      SplitFed(lines[1..]);
      assert '\n' !in lines[0];
      SplitAfterField(lines[0], Fed(lines[1..]), '\n');
      assert [lines[0]] + (lines[1..] + [""]) == lines + [""];
    }
  }

  lemma {:induction false} RenderedIsFed(config: string, clients: seq<Client>)
    ensures Rendered(config, clients) == Fed(RenderedLines(config, Active(clients)))
  {
    if clients == [] {
    } else {
      RenderedIsFed(config, clients[1..]);
      var lines := RenderedLines(config, Active(clients));
      if clients[0].active {
        assert Active(clients)[1..] == Active(clients[1..]);
        assert lines[1..] == RenderedLines(config, Active(clients[1..]));
      } else {
        assert Active(clients) == Active(clients[1..]);
      }
    }
  }

  lemma LinesOf(config: string, clients: seq<Client>)
    requires IsSafeDirectPath(config) && AllRegistered(clients)
    ensures Lines(Rendered(config, clients)) == RenderedLines(config, Active(clients))
  {
    var active := Active(clients);
    var lines := RenderedLines(config, active);
    ActiveRegistered(clients);
    RenderedIsFed(config, clients);
    forall i | 0 <= i < |lines| ensures OneLine(lines[i]) && StripCarriageReturn(lines[i]) == lines[i] {
      LineText(config, active[i]);
    }
    SplitFed(lines);
    LinesOfSplit(Rendered(config, clients), lines);
  }

  lemma LinesOfSplit(s: string, lines: seq<string>)
    requires Split(s, '\n') == lines + [""]
    requires forall i :: 0 <= i < |lines| ==> StripCarriageReturn(lines[i]) == lines[i]
    ensures Lines(s) == lines
  {
    var parts := Split(s, '\n');
    assert |parts| - 1 == |lines| && parts[|lines|] == "";
    assert forall i :: 0 <= i < |lines| ==> parts[i] == lines[i];
  }

  lemma LinesImport(config: string, clients: seq<Client>)
    requires IsSafeDirectPath(config) && AllRegistered(clients)
    ensures ImportLines(RenderedLines(config, clients), 0) == Success(ImportedOf(clients))
  {
    var lines, imported := RenderedLines(config, clients), ImportedOf(clients);
    forall i | 0 <= i < |clients| ensures Reads(lines[i], imported[i]) {
      LineText(config, clients[i]);
      LineReads(config, clients[i]);
    }
    ImportAll(lines, imported, 0);
  }

  // Importing a rendered file gives back exactly the active clients with their keys, in
  // order, if and only if the file is within the limit; and the login shell reads the same
  // configuration path and client from each of their commands.
  lemma RenderedKeysReadBack(program: string, config: string, clients: seq<Client>)
    requires IsSafeDirectPath(config) && AllRegistered(clients)
    ensures ParseAuthorizedKeys(Rendered(config, clients))
         == if |Rendered(config, clients)| > MAXIMUM_AUTHORIZED_KEYS_BYTES then Failure(ImportError.TooLarge)
            else Success(ImportedOf(Active(clients)))
    ensures forall i :: 0 <= i < |clients| ==>
              ParseInvocation([program, "-c", Command(config, clients[i].id)])
              == Success(Invocation(config, clients[i].id))
  {
    LinesOf(config, clients);
    ActiveRegistered(clients);
    LinesImport(config, Active(clients));
    forall i | 0 <= i < |clients|
      ensures ParseInvocation([program, "-c", Command(config, clients[i].id)])
           == Success(Invocation(config, clients[i].id))
    {
      CommandReads(program, config, clients[i].id);
    }
  }

  /* ---------------- the older command form ---------------- */

  function LegacyFields(program: string, config: string, id: string): seq<string> {
    [program, "gateway", "--config", config, "--client-id", id]
  }

  predicate IsGatewayProgram(program: string) {
    IsSafeDirectPath(program) && FileName(program) == Some(GATEWAY_PROGRAM)
  }

  lemma LegacyMatches(fields: seq<string>)
    ensures FieldsMatch(fields, LEGACY_COMMAND) <==>
            && |fields| == 6 && fields == LegacyFields(fields[0], fields[3], fields[5])
            && IsGatewayProgram(fields[0]) && IsSafeDirectPath(fields[3])
  {
    assert LEGACY_COMMAND[0] == Program && LEGACY_COMMAND[1] == Word("gateway") && LEGACY_COMMAND[2] == Word("--config");
    assert LEGACY_COMMAND[3] == SafePath && LEGACY_COMMAND[4] == Word("--client-id") && LEGACY_COMMAND[5] == Anything;
    if |fields| == 6 {
      assert FieldsMatch(fields, LEGACY_COMMAND) <==>
          && FieldMatches(fields[0], LEGACY_COMMAND[0]) && FieldMatches(fields[1], LEGACY_COMMAND[1])
          && FieldMatches(fields[2], LEGACY_COMMAND[2]) && FieldMatches(fields[3], LEGACY_COMMAND[3])
          && FieldMatches(fields[4], LEGACY_COMMAND[4]) && FieldMatches(fields[5], LEGACY_COMMAND[5]);
    }
  }

  lemma LegacyFieldsApart(program: string, config: string, id: string)
    requires IsSafeDirectPath(program) && IsSafeDirectPath(config) && IsClientId(id)
    ensures FreeOf(LegacyFields(program, config, id), ' ')
  {
    PlainIds(id);
    var f := LegacyFields(program, config, id);
    assert ' ' !in f[0] && ' ' !in f[1] && ' ' !in f[2] && ' ' !in f[3] && ' ' !in f[4] && ' ' !in f[5];
  }

  // A direct Gateway command imports as its client.
  lemma LegacyReads(program: string, config: string, id: string)
    requires IsGatewayProgram(program) && IsSafeDirectPath(config) && IsClientId(id)
    ensures ParseForcedCommand(Join(LegacyFields(program, config, id), ' ')) == Success(id)
  {
    var fields := LegacyFields(program, config, id);
    LegacyFieldsApart(program, config, id);
    SplitJoin(fields, ' ');
    LegacyMatches(fields);
    assert program[0] == '/' && COMMAND_VERSION[0] == 'a';
  }

  lemma LegacyText(program: string, config: string, id: string)
    requires IsSafeDirectPath(program) && IsSafeDirectPath(config) && IsClientId(id)
    ensures var fields := LegacyFields(program, config, id);
            PlainFields(fields[..5]) && fields[5] == id && FreeOf(fields, ' ')
            && forall i :: 0 <= i < |fields| ==> Unquoted(fields[i])
  {
    var f := LegacyFields(program, config, id);
    LegacyFieldsApart(program, config, id);
    PlainIds(id);
    assert Unquoted(f[0]) && Unquoted(f[1]) && Unquoted(f[2]) && Unquoted(f[3]) && Unquoted(f[4]) && Unquoted(f[5]);
  }

  lemma {:induction false} UnquotedJoin(fields: seq<string>)
    requires |fields| > 0 && forall i :: 0 <= i < |fields| ==> Unquoted(fields[i])
    ensures Unquoted(Join(fields, ' '))
  {
    if |fields| == 1 {
    } else {
      UnquotedJoin(fields[1..]);
    }
  }

  lemma LegacySplits(program: string, config: string, id: string, k: string)
    requires IsGatewayProgram(program) && IsSafeDirectPath(config) && IsClientId(id)
    requires |k| > 12 && k[..12] == ALGORITHM + " "
    ensures var command := Join(LegacyFields(program, config, id), ' ');
            Cut(COMMAND_PREFIX + command + "\" " + k) == Some((COMMAND_PREFIX + command + "\"", k))
  {
    var fields := LegacyFields(program, config, id);
    LegacyText(program, config, id);
    JoinLast(fields, ' ');
    CommandText();
    PlainIds(id);
    LineCut(COMMAND_PREFIX, fields[..5], id, k, Join(fields, ' '));
  }

  // A line with such a command imports as its client and key.
  lemma LegacyLineReads(program: string, config: string, id: string, key: NormalizedPublicKey)
    requires IsGatewayProgram(program) && IsSafeDirectPath(config) && IsClientId(id) && IsNormalized(key)
    ensures ParseLine(LineOf(Join(LegacyFields(program, config, id), ' '), key)) == Success(ImportedClient(id, key))
  {
    var fields := LegacyFields(program, config, id);
    var command := Join(fields, ' ');
    LegacyText(program, config, id);
    UnquotedJoin(fields);
    LegacySplits(program, config, id, key.openssh);
    LegacyReads(program, config, id);
    FoundLine(command, key, LineOf(command, key));
  }

  // And nothing else of that kind does: every accepted command that is not of the current
  // version is a direct Gateway command for the client it imports as.
  lemma LegacyOnly(command: string)
    requires ParseForcedCommand(command).Success? && Split(command, ' ')[0] != COMMAND_VERSION
    ensures exists program, config ::
              && IsGatewayProgram(program) && IsSafeDirectPath(config)
              && command == Join(LegacyFields(program, config, ParseForcedCommand(command).value), ' ')
  {
    var fields := Split(command, ' ');
    LegacyMatches(fields);
    JoinSplit(command, ' ');
    assert fields[5] == ParseForcedCommand(command).value;
    assert command == Join(LegacyFields(fields[0], fields[3], ParseForcedCommand(command).value), ' ');
  }

  /* ---------------- whatever was imported ---------------- */

  lemma CommandNamesClient(command: string)
    requires ParseForcedCommand(command).Success?
    ensures IsClientId(ParseForcedCommand(command).value)
  {
  }

  lemma LineNamesClient(line: string)
    requires ParseLine(line).Success?
    ensures IsClientId(ParseLine(line).value.id) && IsNormalized(ParseLine(line).value.key)
  {
    LineParts(line);
    var (options, text) := Cut(line).value;
    CommandNamesClient(QuotedCommand(options).value);
    ParseNormalizes(text);
  }

  lemma {:induction false} ImportedAreRegistered(lines: seq<string>, index: nat)
    requires ImportLines(lines, index).Success?
    ensures forall i :: 0 <= i < |ImportLines(lines, index).value| ==>
              IsClientId(ImportLines(lines, index).value[i].id) && IsNormalized(ImportLines(lines, index).value[i].key)
    decreases |lines|
  {
    if lines == [] {
    } else {
      ImportedAreRegistered(lines[1..], index + 1);
      if !Ignored(lines[0]) {
        LineNamesClient(Trim(lines[0]));
      }
    }
  }

  function Registrations(imported: seq<ImportedClient>): seq<Client> {
    seq(|imported|, i requires 0 <= i < |imported| => Client(imported[i].id, imported[i].key, true))
  }

  lemma {:induction false} AllActive(clients: seq<Client>)
    requires forall i :: 0 <= i < |clients| ==> clients[i].active
    ensures Active(clients) == clients
  {
    if clients == [] {
    } else {
      AllActive(clients[1..]);
      assert [clients[0]] + clients[1..] == clients;
    }
  }

  // Any file the importer accepts, in whatever form, is migrated without loss: rendering the
  // imported clients and importing again gives the same clients in the same order.
  lemma MigrationIsStable(input: string, config: string)
    requires IsSafeDirectPath(config) && ParseAuthorizedKeys(input).Success?
    ensures var imported := ParseAuthorizedKeys(input).value;
            var again := Rendered(config, Registrations(imported));
            |again| <= MAXIMUM_AUTHORIZED_KEYS_BYTES ==> ParseAuthorizedKeys(again) == Success(imported)
  {
    var imported := ParseAuthorizedKeys(input).value;
    var clients := Registrations(imported);
    ImportedAreRegistered(Lines(input), 0);
    AllActive(clients);
    assert ImportedOf(clients) == imported;
    RenderedKeysReadBack("", config, clients);
  }
}
