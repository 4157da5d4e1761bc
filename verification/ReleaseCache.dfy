/**
 The release-check cache shared by any number of client processes: an attempt is reserved
 in the cache file before the network is used, under a lock that dies with its holder.
 */
module ReleaseCache {
  import opened Wrappers
  import opened Text

  const TTL_SECONDS: nat := 24 * 60 * 60
  const MAXIMUM_VERSION_BYTES := 128
  const MAXIMUM_CACHE_BYTES := 16 * 1024

  datatype CheckError =
    | Incomplete | Network | RateLimited | Http | NoStableRelease | InvalidResponse
    | CacheUnavailable | CacheInvalid | CacheBusy

  datatype Release = Release(version: string, url: string)

  datatype Cache = Cache(
    schemaVersion: nat,
    lastAttemptAt: nat,
    latest: Option<Release>,
    checkedAt: Option<nat>,
    lastError: Option<CheckError>,
    notifiedVersion: Option<string>
  )

  // What the cache file holds, as a reader sees it: nothing, bytes within the limit that
  // decode to a cache, or other bytes.
  datatype File = Missing | Holds(cache: Cache) | Garbage

  // The versions that parse as semantic versions without a pre-release part.
  type Grammar = string -> bool

  predicate Stable(version: string, grammar: Grammar) {
    |version| <= MAXIMUM_VERSION_BYTES && grammar(version)
  }

  predicate ReleaseValid(r: Release, grammar: Grammar) {
    var page := "https://github.com/neodymium6/agent-knowledge/releases/tag/";
    Stable(r.version, grammar) && (r.url == page + "v" + r.version || r.url == page + r.version)
  }

  // Subtraction of 64-bit unsigned numbers that stops at zero.
  function SaturatingSub(a: nat, b: nat): nat {
    if a < b then 0 else a - b
  }

  predicate Due(cache: Cache, now: nat) {
    SaturatingSub(now, cache.lastAttemptAt) >= TTL_SECONDS
  }

  datatype Health = Available | Unavailable | Unknown

  datatype Status = Status(
    health: Health, latest: Option<Release>, checkedAt: Option<nat>, lastAttemptAt: nat,
    cached: bool, stale: bool, error: Option<CheckError>)

  function StatusOf(cache: Cache, now: nat, cached: bool): Status {
    Status(
      if cache.lastError.Some? then Unavailable else if cache.latest.Some? then Available else Unknown,
      cache.latest, cache.checkedAt, cache.lastAttemptAt,
      cached && cache.latest.Some?,
      cache.latest.Some?
        && (cache.lastError.Some? || cache.checkedAt.None? || SaturatingSub(now, cache.checkedAt.value) >= TTL_SECONDS),
      cache.lastError)
  }

  // What `read_cache` accepts.
  predicate Readable(cache: Cache, grammar: Grammar) {
    && cache.schemaVersion == 1
    && (cache.latest.Some? ==> ReleaseValid(cache.latest.value, grammar))
    && (cache.latest.Some? <==> cache.checkedAt.Some?)
    && (cache.notifiedVersion.Some? ==> Stable(cache.notifiedVersion.value, grammar))
  }

  function ReadCache(file: File, grammar: Grammar): Result<Option<Cache>, CheckError> {
    match file
    case Missing => Success(None)
    case Garbage => Failure(CacheInvalid)
    case Holds(cache) => if Readable(cache, grammar) then Success(Some(cache)) else Failure(CacheInvalid)
  }

  /* ---------------- the size of a saved cache ---------------- */

  // What JSON writes for one byte of a string.
  function EscapedBytes(c: char): nat {
    if c == '\"' || c == '\\' || c == '\n' || c == '\r' || c == '\t' || c as int == 8 || c as int == 12 then 2
    else if c < ' ' then 6
    else 1
  }

  function QuotedBytes(s: string): nat {
    if s == "" then 2 else QuotedBytes(s[..|s| - 1]) + EscapedBytes(s[|s| - 1])
  }

  // The quoted name of an error, in snake case.
  function ErrorBytes(error: CheckError): nat {
    match error
    case Incomplete => 12
    case Network => 9
    case RateLimited => 14
    case Http => 6
    case NoStableRelease => 19
    case InvalidResponse => 18
    case CacheUnavailable => 19
    case CacheInvalid => 15
    case CacheBusy => 12
  }

  // Braces, colons, commas and the quoted names of the fields.
  const RELEASE_FRAME_BYTES := 19
  const CACHE_FRAME_BYTES := 96
  const NULL_BYTES := 4

  function ReleaseBytes(r: Release): nat {
    RELEASE_FRAME_BYTES + QuotedBytes(r.version) + QuotedBytes(r.url)
  }

  // The length of the object that `save_cache` writes.
  function CacheBytes(cache: Cache): nat {
    CACHE_FRAME_BYTES
    + |Decimal(cache.schemaVersion)| + |Decimal(cache.lastAttemptAt)|
    + (if cache.latest.Some? then ReleaseBytes(cache.latest.value) else NULL_BYTES)
    + (if cache.checkedAt.Some? then |Decimal(cache.checkedAt.value)| else NULL_BYTES)
    + (if cache.lastError.Some? then ErrorBytes(cache.lastError.value) else NULL_BYTES)
    + (if cache.notifiedVersion.Some? then QuotedBytes(cache.notifiedVersion.value) else NULL_BYTES)
  }

  function FileOf(cache: Cache): File {
    if CacheBytes(cache) <= MAXIMUM_CACHE_BYTES then Holds(cache) else Garbage
  }

  predicate Clocked(cache: Cache) {
    cache.lastAttemptAt < U64_LIMIT && (cache.checkedAt.Some? ==> cache.checkedAt.value < U64_LIMIT)
  }

  lemma {:induction false} QuotedAtMost(s: string)
    ensures QuotedBytes(s) <= 6 * |s| + 2
  {
    if s == "" {
    } else {
      QuotedAtMost(s[..|s| - 1]);
    }
  }

  lemma ReleaseSize(r: Release, grammar: Grammar)
    requires ReleaseValid(r, grammar)
    ensures ReleaseBytes(r) <= 4000
  {
    QuotedAtMost(r.version);
    QuotedAtMost(r.url);
    assert |r.url| <= 60 + |r.version|;
  }

  // What is readable but for its size is never too large once written.
  lemma ReadableFits(cache: Cache, grammar: Grammar)
    requires Readable(cache, grammar) && Clocked(cache)
    ensures FileOf(cache) == Holds(cache)
  {
    U64Length(cache.schemaVersion);
    U64Length(cache.lastAttemptAt);
    if cache.latest.Some? {
      ReleaseSize(cache.latest.value, grammar);
      U64Length(cache.checkedAt.value);
    }
    if cache.notifiedVersion.Some? {
      QuotedAtMost(cache.notifiedVersion.value);
    }
  }

  const EMPTY_CACHE := Cache(1, 0, None, None, None, None)

  function Reserved(previous: Option<Cache>, time: nat): Cache {
    previous.GetOr(EMPTY_CACHE).(lastAttemptAt := time, lastError := Some(Incomplete))
  }

  function Concluded(cache: Cache, time: nat, fetched: Result<Release, CheckError>, grammar: Grammar): Cache {
    match fetched
    case Success(release) =>
      if ReleaseValid(release, grammar) then
        cache.(latest := Some(release), checkedAt := Some(time), lastError := None)
      else
        cache.(lastError := Some(InvalidResponse))
    case Failure(error) => cache.(lastError := Some(error))
  }

  /* ---------------- processes ---------------- */

  // What a process that holds the lock is about to do.
  datatype Phase =
    | Reserving(cache: Cache, time: nat)
    | Fetching(cache: Cache, time: nat)
    | Concluding(cache: Cache)
    | Notifying(cache: Cache)

  // `fetches` are the clock readings of all upstream fetches so far, `saved` all caches that
  // were written.
  datatype State = State(
    file: File,
    lock: Option<nat>,
    processes: map<nat, Phase>,
    fetches: seq<nat>,
    saved: seq<Cache>
  )

  datatype Event =
    | Check(pid: nat, time: nat)
    | Notify(pid: nat, time: nat, newer: bool)
    | Reserve(pid: nat)
    | Fetch(pid: nat, fetched: Result<Release, CheckError>)
    | Conclude(pid: nat)
    | SaveNotified(pid: nat)
    | Crash(pid: nat)

  // Clock readings are unrelated to each other, and so are the processes.
  predicate Enabled(s: State, e: Event) {
    match e
    case Check(pid, time) => pid !in s.processes && time < U64_LIMIT
    case Notify(pid, _, _) => pid !in s.processes
    case Reserve(pid) => pid in s.processes && s.processes[pid].Reserving?
    case Fetch(pid, _) => pid in s.processes && s.processes[pid].Fetching?
    case Conclude(pid) => pid in s.processes && s.processes[pid].Concluding?
    case SaveNotified(pid) => pid in s.processes && s.processes[pid].Notifying?
    case Crash(pid) => pid in s.processes
  }

  function Enter(s: State, pid: nat, phase: Phase): State {
    s.(lock := Some(pid), processes := s.processes[pid := phase])
  }

  // The lock goes with the process, however it ends.
  function Leave(s: State, pid: nat): State {
    s.(lock := if s.lock == Some(pid) then None else s.lock, processes := s.processes - {pid})
  }

  function Save(s: State, cache: Cache): State {
    s.(file := FileOf(cache), saved := s.saved + [cache])
  }

  // Whether the cached release is to be announced.
  predicate Announces(cache: Cache, time: nat, newer: bool) {
    && !StatusOf(cache, time, true).stale && newer
    && cache.latest.Some? && cache.notifiedVersion != Some(cache.latest.value.version)
  }

  function Next(s: State, e: Event, grammar: Grammar): State
    requires Enabled(s, e)
  {
    match e
    case Check(pid, time) =>
      if s.lock.Some? then
        s
      else
        (match ReadCache(s.file, grammar)
         case Failure(_) => s
         case Success(previous) =>
           if previous.Some? && !Due(previous.value, time) then s
           else Enter(s, pid, Reserving(Reserved(previous, time), time)))
    case Notify(pid, time, newer) =>
      if s.lock.Some? then
        s
      else
        (match ReadCache(s.file, grammar)
         case Failure(_) => s
         case Success(previous) =>
           if previous.Some? && Announces(previous.value, time, newer) then
             Enter(s, pid, Notifying(previous.value.(notifiedVersion := Some(previous.value.latest.value.version))))
           else
             s)
    case Reserve(pid) =>
      var phase := s.processes[pid];
      Enter(Save(s, phase.cache), pid, Fetching(phase.cache, phase.time))
    case Fetch(pid, fetched) =>
      var phase := s.processes[pid];
      Enter(s.(fetches := s.fetches + [phase.time]), pid,
            Concluding(Concluded(phase.cache, phase.time, fetched, grammar)))
    case Conclude(pid) => Leave(Save(s, s.processes[pid].cache), pid)
    case SaveNotified(pid) => Leave(Save(s, s.processes[pid].cache), pid)
    case Crash(pid) => Leave(s, pid)
  }

  predicate Legal(s: State, events: seq<Event>, grammar: Grammar)
    decreases |events|
  {
    events == [] || (Enabled(s, events[0]) && Legal(Next(s, events[0], grammar), events[1..], grammar))
  }

  function Run(s: State, events: seq<Event>, grammar: Grammar): State
    requires Legal(s, events, grammar)
    decreases |events|
  {
    if events == [] then s else Run(Next(s, events[0], grammar), events[1..], grammar)
  }

  /* ---------------- the invariant ---------------- */

  // No error exactly after a check that succeeded.
  predicate Settled(cache: Cache) {
    cache.lastError.None? <==> cache.checkedAt == Some(cache.lastAttemptAt)
  }

  predicate Sound(cache: Cache, grammar: Grammar) {
    && Readable(cache, grammar) && Settled(cache) && Clocked(cache)
    && (cache.checkedAt.Some? ==> cache.checkedAt.value <= cache.lastAttemptAt)
  }

  predicate Spaced(times: seq<nat>) {
    forall i, j :: 0 <= i < j < |times| ==> times[i] + TTL_SECONDS <= times[j]
  }

  predicate AllBefore(times: seq<nat>, limit: int) {
    forall i :: 0 <= i < |times| ==> times[i] <= limit
  }

  predicate PhaseSound(s: State, phase: Phase, grammar: Grammar) {
    && Sound(phase.cache, grammar)
    && match phase
       case Reserving(cache, time) =>
         cache.lastAttemptAt == time && cache.lastError.Some? && AllBefore(s.fetches, time - TTL_SECONDS)
       case Fetching(cache, time) =>
         && cache.lastAttemptAt == time && cache.lastError.Some? && AllBefore(s.fetches, time - TTL_SECONDS)
         && s.file == Holds(cache)
       case Concluding(cache) => AllBefore(s.fetches, cache.lastAttemptAt)
       case Notifying(cache) => s.file.Holds? && cache.lastAttemptAt == s.file.cache.lastAttemptAt
  }

  predicate Invariant(s: State, grammar: Grammar) {
    && s.processes.Keys == (if s.lock.Some? then {s.lock.value} else {})
    && (forall pid <- s.processes :: PhaseSound(s, s.processes[pid], grammar))
    && Spaced(s.fetches)
    && (s.file.Missing? ==> s.fetches == [])
    && (s.file.Holds? ==> Sound(s.file.cache, grammar) && AllBefore(s.fetches, s.file.cache.lastAttemptAt))
    && (forall i :: 0 <= i < |s.saved| ==> Sound(s.saved[i], grammar))
  }

  // A cache that was never written, or was left by earlier runs.
  predicate Initial(s: State, grammar: Grammar) {
    && s.lock.None? && s.processes == map[] && s.fetches == [] && s.saved == []
    && (s.file.Holds? ==> Sound(s.file.cache, grammar))
  }

  lemma CheckKeeps(s: State, pid: nat, time: nat, grammar: Grammar)
    requires Invariant(s, grammar) && Enabled(s, Check(pid, time))
    ensures Invariant(Next(s, Check(pid, time), grammar), grammar)
  {
  }

  lemma NotifyKeeps(s: State, pid: nat, time: nat, newer: bool, grammar: Grammar)
    requires Invariant(s, grammar) && Enabled(s, Notify(pid, time, newer))
    ensures Invariant(Next(s, Notify(pid, time, newer), grammar), grammar)
  {
  }

  lemma SaveKeeps(s: State, e: Event, grammar: Grammar)
    requires Invariant(s, grammar) && Enabled(s, e) && (e.Reserve? || e.Conclude? || e.SaveNotified?)
    ensures Invariant(Next(s, e, grammar), grammar)
  {
    ReadableFits(s.processes[e.pid].cache, grammar);
  }

  lemma ConcludedSound(cache: Cache, time: nat, fetched: Result<Release, CheckError>, grammar: Grammar)
    requires Sound(cache, grammar) && cache.lastAttemptAt == time && cache.lastError.Some?
    ensures Sound(Concluded(cache, time, fetched, grammar), grammar)
    ensures Concluded(cache, time, fetched, grammar).lastAttemptAt == time
  {
    if fetched.Success? && ReleaseValid(fetched.value, grammar) {
      FoundSound(cache, time, fetched.value, grammar);
    } else {
      ErrorSound(cache, if fetched.Success? then InvalidResponse else fetched.error, grammar);
    }
  }

  lemma FoundSound(cache: Cache, time: nat, release: Release, grammar: Grammar)
    requires Sound(cache, grammar) && cache.lastAttemptAt == time && ReleaseValid(release, grammar)
    ensures Sound(cache.(latest := Some(release), checkedAt := Some(time), lastError := None), grammar)
  {
  }

  lemma ErrorSound(cache: Cache, error: CheckError, grammar: Grammar)
    requires Sound(cache, grammar) && cache.lastError.Some?
    ensures Sound(cache.(lastError := Some(error)), grammar)
  {
  }

  lemma FetchKeeps(s: State, e: Event, grammar: Grammar)
    requires Invariant(s, grammar) && Enabled(s, e) && e.Fetch?
    ensures Invariant(Next(s, e, grammar), grammar)
  {
    var phase, after := s.processes[e.pid], Next(s, e, grammar);
    ConcludedSound(phase.cache, phase.time, e.fetched, grammar);
    assert after.processes.Keys == {e.pid};
    assert Spaced(after.fetches) && AllBefore(after.fetches, phase.time);
    assert PhaseSound(after, after.processes[e.pid], grammar);
  }

  lemma CrashKeeps(s: State, e: Event, grammar: Grammar)
    requires Invariant(s, grammar) && Enabled(s, e) && e.Crash?
    ensures Invariant(Next(s, e, grammar), grammar)
  {
  }

  lemma {:induction false} InvariantInEveryRun(s: State, events: seq<Event>, grammar: Grammar)
    requires Invariant(s, grammar) && Legal(s, events, grammar)
    ensures Invariant(Run(s, events, grammar), grammar)
    decreases |events|
  {
    if events == [] {
    } else {
      var e := events[0];
      match e {
        case Check(pid, time) => CheckKeeps(s, pid, time, grammar);
        case Notify(pid, time, newer) => NotifyKeeps(s, pid, time, newer, grammar);
        case Fetch(_, _) => FetchKeeps(s, e, grammar);
        case Crash(_) => CrashKeeps(s, e, grammar);
        case _ => SaveKeeps(s, e, grammar);
      }
      InvariantInEveryRun(Next(s, e, grammar), events[1..], grammar);
    }
  }

  // A stable version and the page of that version, of at most 128 bytes.
  predicate Official(r: Release, grammar: Grammar) {
    && grammar(r.version) && |r.version| <= 128
    && (r.url == "https://github.com/neodymium6/agent-knowledge/releases/tag/" + r.version
        || r.url == "https://github.com/neodymium6/agent-knowledge/releases/tag/v" + r.version)
  }

  lemma ValidIsOfficial(r: Release, grammar: Grammar)
    ensures ReleaseValid(r, grammar) <==> Official(r, grammar)
  {
    var page := "https://github.com/neodymium6/agent-knowledge/releases/tag/";
    assert page + "v" == "https://github.com/neodymium6/agent-knowledge/releases/tag/v";
  }

  // For any interleaving, crashes and clock readings: fetches are a day apart in the order
  // they happen; every saved cache is read back, names at most an official release, and has
  // no error exactly when its last attempt was its last successful check.
  lemma FetchesAreSpaced(s: State, events: seq<Event>, grammar: Grammar)
    requires Initial(s, grammar) && Legal(s, events, grammar)
    ensures var end := Run(s, events, grammar);
            && (forall i, j :: 0 <= i < j < |end.fetches| ==> end.fetches[i] + TTL_SECONDS <= end.fetches[j])
            && (forall i :: 0 <= i < |end.saved| ==>
                  && ReadCache(FileOf(end.saved[i]), grammar) == Success(Some(end.saved[i]))
                  && (end.saved[i].latest.Some? ==> Official(end.saved[i].latest.value, grammar))
                  && (end.saved[i].lastError.None? <==> end.saved[i].checkedAt == Some(end.saved[i].lastAttemptAt)))
  {
    InvariantInEveryRun(s, events, grammar);
    var end := Run(s, events, grammar);
    forall i | 0 <= i < |end.saved|
      ensures FileOf(end.saved[i]) == Holds(end.saved[i])
      ensures end.saved[i].latest.Some? ==> Official(end.saved[i].latest.value, grammar)
    {
      ReadableFits(end.saved[i], grammar);
      if end.saved[i].latest.Some? {
        ValidIsOfficial(end.saved[i].latest.value, grammar);
      }
    }
  }

  // On every cache a process can leave, a release without error is stale exactly when the
  // next check is due.
  lemma StaleIsDue(cache: Cache, now: nat, grammar: Grammar)
    requires Sound(cache, grammar)
    ensures cache.latest.Some? && cache.lastError.None? ==>
              (StatusOf(cache, now, true).stale <==> Due(cache, now))
    ensures StatusOf(cache, now, true).health.Available? <==> cache.checkedAt == Some(cache.lastAttemptAt)
  {
  }
}
