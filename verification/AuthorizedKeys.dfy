/**
 The restricted `authorized_keys` format: its renderer, its importer, and the login shell
 that reads the same forced command.
 */
module AuthorizedKeys {
  import opened Wrappers
  import opened Text
  import opened PublicKey

  const MAXIMUM_AUTHORIZED_KEYS_BYTES := 4 * 1024 * 1024
  const MAXIMUM_CLIENT_ID_BYTES := 63
  const COMMAND_PREFIX := "restrict,command=\""
  const COMMAND_VERSION := "akg-v1"
  const KEY_MARKER := " ssh-ed25519 "
  const GATEWAY_PROGRAM := "agent-knowledge"

  datatype Client = Client(id: string, key: NormalizedPublicKey, active: bool)

  datatype ImportedClient = ImportedClient(id: string, key: NormalizedPublicKey)

  datatype ClientIdError = Empty | TooLong(actual: nat) | InvalidCharacter

  datatype ImportError =
    | TooLarge
    | InvalidLine(line: Option<nat>)
    | InvalidClientId(clientId: ClientIdError)
    | InvalidKey(key: PublicKey.Error)

  /* ---------------- client identifiers and paths ---------------- */

  predicate IsIdCharacter(c: char) {
    'a' <= c <= 'z' || IsDigit(c) || c == '-'
  }

  function ParseClientId(s: string): Result<string, ClientIdError> {
    if s == "" then Failure(Empty)
    else if |s| > MAXIMUM_CLIENT_ID_BYTES then Failure(TooLong(|s|))
    else if s[0] == '-' || s[|s| - 1] == '-' || exists i :: 0 <= i < |s| && !IsIdCharacter(s[i]) then
      Failure(InvalidCharacter)
    else
      Success(s)
  }

  predicate IsClientId(s: string) {
    ParseClientId(s) == Success(s)
  }

  predicate IsAbsolute(path: string) {
    path != "" && path[0] == '/'
  }

  predicate IsPathCharacter(c: char) {
    || 'a' <= c <= 'z' || 'A' <= c <= 'Z' || IsDigit(c)
    || c == '/' || c == '.' || c == '_' || c == '+' || c == '-'
  }

  predicate IsSafeDirectPath(path: string) {
    IsAbsolute(path) && forall i :: 0 <= i < |path| ==> IsPathCharacter(path[i])
  }

  // The last component of an absolute path, unless it leads upwards.
  function FileName(path: string): Option<string> {
    LastName(Split(path, '/'))
  }

  function LastName(components: seq<string>): Option<string> {
    if components == [] then None
    else
      var last := components[|components| - 1];
      if last == "" || last == "." then LastName(components[..|components| - 1])
      else if last == ".." then None
      else Some(last)
  }

  /* ---------------- rendering ---------------- */

  function Command(config: string, id: string): string {
    COMMAND_VERSION + " " + config + " " + id
  }

  function RenderLine(config: string, client: Client): string {
    COMMAND_PREFIX + Command(config, client.id) + "\" " + client.key.openssh
  }

  function RenderedOne(config: string, client: Client): string {
    if client.active then RenderLine(config, client) + "\n" else ""
  }

  function Rendered(config: string, clients: seq<Client>): string {
    if clients == [] then "" else RenderedOne(config, clients[0]) + Rendered(config, clients[1..])
  }

  function Active(clients: seq<Client>): seq<Client> {
    if clients == [] then []
    else (if clients[0].active then [clients[0]] else []) + Active(clients[1..])
  }

  lemma {:induction false} RenderedAppend(config: string, clients: seq<Client>, client: Client)
    ensures Rendered(config, clients + [client]) == Rendered(config, clients) + RenderedOne(config, client)
  {
    var all := clients + [client];
    if clients == [] {
      assert all[1..] == [];
      assert Rendered(config, all) == RenderedOne(config, client) + "";
    } else {
      assert all[0] == clients[0] && all[1..] == clients[1..] + [client];
      RenderedAppend(config, clients[1..], client);
      Associative(RenderedOne(config, clients[0]), Rendered(config, clients[1..]), RenderedOne(config, client));
    }
  }

  // `None`: the configuration path is not command-safe.
  method WriteAuthorizedKeys(snapshot: Option<seq<Client>>, config: string) returns (output: Option<string>)
    ensures output.Some? <==> IsSafeDirectPath(config)
    ensures output.Some? ==> output.value == Rendered(config, snapshot.GetOr([]))
  {
    if !IsSafeDirectPath(config) {
      return None;
    }
    if snapshot.None? {
      return Some("");
    }
    var clients, text := snapshot.value, "";
    for i := 0 to |clients|
      invariant text == Rendered(config, clients[..i])
    {
      RenderedAppend(config, clients[..i], clients[i]);
      assert clients[..i + 1] == clients[..i] + [clients[i]];
      if clients[i].active {
        Associative(text, RenderLine(config, clients[i]), "\n");
        text := text + RenderLine(config, clients[i]) + "\n";
      } else {
        assert text + "" == text;
      }
    }
    assert clients[..|clients|] == clients;
    return Some(text);
  }

  /* ---------------- importing ---------------- */

  function StripCarriageReturn(s: string): string {
    if s != "" && s[|s| - 1] == '\r' then s[..|s| - 1] else s
  }

  // All parts but the last ended with a line feed.
  function LinesOfParts(parts: seq<string>): seq<string>
    requires |parts| > 0
  {
    var n := |parts| - 1;
    seq(n, i requires 0 <= i < n => StripCarriageReturn(parts[i])) + if parts[n] == "" then [] else [parts[n]]
  }

  // `str::lines`.
  function Lines(s: string): seq<string> {
    LinesOfParts(Split(s, '\n'))
  }

  // The first place where `pattern` occurs at or after `from`.
  function Find(s: string, pattern: string, from: nat): (r: Option<nat>)
    requires from <= |s|
    ensures r.Some? ==> r.value + |pattern| <= |s|
    decreases |s| - from
  {
    if from + |pattern| > |s| then None
    else if s[from..from + |pattern|] == pattern then Some(from)
    else if from == |s| then None
    else Find(s, pattern, from + 1)
  }

  predicate Has(s: string, c: char) {
    c in s
  }

  // One field of the older command form.
  datatype Expected = Program | Word(text: string) | SafePath | Anything

  const LEGACY_COMMAND: seq<Expected> :=
    [Program, Word("gateway"), Word("--config"), SafePath, Word("--client-id"), Anything]

  predicate FieldMatches(field: string, e: Expected) {
    match e
    case Program => IsSafeDirectPath(field) && FileName(field) == Some(GATEWAY_PROGRAM)
    case Word(text) => field == text
    case SafePath => IsSafeDirectPath(field)
    case Anything => true
  }

  predicate FieldsMatch(fields: seq<string>, expected: seq<Expected>) {
    |fields| == |expected| && forall i :: 0 <= i < |fields| ==> FieldMatches(fields[i], expected[i])
  }

  function ParseForcedCommand(command: string): Result<string, ImportError> {
    var fields := Split(command, ' ');
    if fields[0] == COMMAND_VERSION then
      if |fields| != 3 || !IsAbsolute(fields[1]) then
        Failure(InvalidLine(None))
      else
        (match ParseClientId(fields[2])
         case Success(id) => Success(id)
         case Failure(error) => Failure(InvalidClientId(error)))
    else if FieldsMatch(fields, LEGACY_COMMAND) then
      (match ParseClientId(fields[5])
       case Success(id) => Success(id)
       case Failure(error) => Failure(InvalidClientId(error)))
    else
      Failure(InvalidLine(None))
  }

  // The command between the options' quotes.
  function QuotedCommand(options: string): Option<string> {
    var n := |COMMAND_PREFIX|;
    if |options| > n && options[..n] == COMMAND_PREFIX && options[|options| - 1] == '"' then
      Some(options[n..|options| - 1])
    else
      None
  }

  // The two parts of a line, given the readers of a command and of a key.
  function ReadParts(
    command: Option<string>, key: string, readCommand: string -> Result<string, ImportError>,
    readKey: string -> Result<NormalizedPublicKey, PublicKey.Error>
  ): Result<ImportedClient, ImportError> {
    if command.None? || Has(command.value, '"') || Has(command.value, '\\') then
      Failure(InvalidLine(None))
    else
      var id := readCommand(command.value);
      if id.Failure? then
        Failure(id.error)
      else
        match readKey(key)
        case Failure(error) => Failure(InvalidKey(error))
        case Success(k) => Success(ImportedClient(id.value, k))
  }

  // The options of a line and its key, parted by the first marker.
  function Cut(line: string): Option<(string, string)> {
    var start := Find(line, KEY_MARKER, 0);
    if start.None? then None else Some((line[..start.value], line[start.value + 1..]))
  }

  function ParseLine(line: string): Result<ImportedClient, ImportError> {
    match Cut(line)
    case None => Failure(InvalidLine(None))
    case Some((options, key)) => ReadParts(QuotedCommand(options), key, ParseForcedCommand, PublicKey.Parse)
  }

  function At(error: ImportError, line: nat): ImportError {
    if error.InvalidLine? then InvalidLine(Some(line)) else error
  }

  predicate Ignored(line: string) {
    Trim(line) == "" || Trim(line)[0] == '#'
  }

  // The lines from number `index` on, given which to pass over and how to read the others.
  function ImportBy(
    lines: seq<string>, index: nat, ignored: string -> bool, read: string -> Result<ImportedClient, ImportError>
  ): Result<seq<ImportedClient>, ImportError> {
    if lines == [] then
      Success([])
    else if ignored(lines[0]) then
      ImportBy(lines[1..], index + 1, ignored, read)
    else
      var first := read(lines[0]);
      if first.Failure? then
        Failure(At(first.error, index + 1))
      else
        var others := ImportBy(lines[1..], index + 1, ignored, read);
        if others.Failure? then others else Success([first.value] + others.value)
  }

  function ReadLine(line: string): Result<ImportedClient, ImportError> {
    ParseLine(Trim(line))
  }

  function ImportLines(lines: seq<string>, index: nat): Result<seq<ImportedClient>, ImportError> {
    ImportBy(lines, index, Ignored, ReadLine)
  }

  function ParseAuthorizedKeys(input: string): Result<seq<ImportedClient>, ImportError> {
    if |input| > MAXIMUM_AUTHORIZED_KEYS_BYTES then Failure(ImportError.TooLarge) else ImportLines(Lines(input), 0)
  }

  /* ---------------- the login shell ---------------- */

  datatype Invocation = Invocation(config: string, id: string)

  datatype ShellError =
    | InvalidInvocation | InvalidForcedCommand | RelativeConfigPath | ShellClientId(clientId: ClientIdError)

  function ParseInvocation(arguments: seq<string>): Result<Invocation, ShellError> {
    if |arguments| != 3 || arguments[1] != "-c" then
      Failure(InvalidInvocation)
    else
      var fields := Split(arguments[2], ' ');
      if fields[0] != COMMAND_VERSION || |fields| != 3 then Failure(InvalidForcedCommand)
      else if !IsAbsolute(fields[1]) then Failure(RelativeConfigPath)
      else
        match ParseClientId(fields[2])
        case Success(id) => Success(Invocation(fields[1], id))
        case Failure(error) => Failure(ShellClientId(error))
  }

  /* ---------------- the two readers agree ---------------- */

  // On every command of the current version the shell accepts what the importer accepts and
  // runs it for the client that was imported; older commands it refuses.
  lemma ReadersAgree(program: string, command: string)
    ensures var shell := ParseInvocation([program, "-c", command]);
            var importer := ParseForcedCommand(command);
            && (Split(command, ' ')[0] == COMMAND_VERSION ==>
                  && (shell.Success? <==> importer.Success?)
                  && (shell.Success? ==> shell.value.id == importer.value && command == Command(shell.value.config, importer.value)))
            && (Split(command, ' ')[0] != COMMAND_VERSION ==> shell.Failure?)
  {
    var fields := Split(command, ' ');
    if fields[0] == COMMAND_VERSION && |fields| == 3 {
      CommandOfFields(command);
    }
  }

  lemma CommandOfFields(command: string)
    requires |Split(command, ' ')| == 3
    ensures var f := Split(command, ' '); command == f[0] + " " + f[1] + " " + f[2]
  {
    var f := Split(command, ' ');
    JoinSplit(command, ' ');
    ThreeFields(f[0], f[1], f[2]);
    assert f == [f[0], f[1], f[2]];
  }

  lemma ThreeFields(a: string, b: string, c: string)
    ensures Join([a, b, c], ' ') == a + " " + b + " " + c
  {
    assert [a, b, c][1..] == [b, c] && [b, c][1..] == [c];
    assert Join([b, c], ' ') == b + [' '] + c;
    assert Join([a, b, c], ' ') == a + [' '] + (b + [' '] + c);
  }

  lemma CommandFields(config: string, id: string)
    requires ' ' !in config && ' ' !in id
    ensures Split(Command(config, id), ' ') == [COMMAND_VERSION, config, id]
  {
    var fields := [COMMAND_VERSION, config, id];
    assert FreeOf(fields, ' ');
    ThreeFields(COMMAND_VERSION, config, id);
    SplitJoin(fields, ' ');
  }
}
