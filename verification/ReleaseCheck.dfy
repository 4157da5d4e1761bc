/** One client process at the release cache, step by step. */
module ReleaseCheck {
  import opened Wrappers
  import opened ReleaseCache

  lemma {:induction false} RunStep(s: State, events: seq<Event>, e: Event, grammar: Grammar)
    requires Legal(s, events, grammar) && Enabled(Run(s, events, grammar), e)
    ensures Legal(s, events + [e], grammar)
    ensures Run(s, events + [e], grammar) == Next(Run(s, events, grammar), e, grammar)
    decreases |events|
  {
    var all := events + [e];
    if events == [] {
      assert all[1..] == [];
    } else {
      assert all[0] == events[0] && all[1..] == events[1..] + [e];
      RunStep(Next(s, events[0], grammar), events[1..], e, grammar);
    }
  }

  // What the network answered is a release to keep.
  predicate Fresh(fetched: Result<Release, CheckError>, grammar: Grammar) {
    fetched.Success? && ReleaseValid(fetched.value, grammar)
  }

  // What is kept of an earlier cache whatever happens: what was found, when, and what was
  // announced.
  predicate Remembers(after: Cache, before: Option<Cache>) {
    if before.None? then after.latest.None? && after.checkedAt.None? && after.notifiedVersion.None?
    else
      && after.latest == before.value.latest && after.checkedAt == before.value.checkedAt
      && after.notifiedVersion == before.value.notifiedVersion
  }

  // The cache after an attempt at `time`, field by field: reserved only, or concluded with a
  // valid release, an invalid one, or an error.
  predicate Attempted(
    after: Cache, before: Option<Cache>, time: nat, fetched: Result<Release, CheckError>, concluded: bool, grammar: Grammar
  ) {
    && after.schemaVersion == 1 && after.lastAttemptAt == time
    && (if !concluded then
          Remembers(after, before) && after.lastError == Some(Incomplete)
        else if Fresh(fetched, grammar) then
          && after.latest == Some(fetched.value) && after.checkedAt == Some(time) && after.lastError.None?
          && after.notifiedVersion == (if before.None? then None else before.value.notifiedVersion)
        else
          && Remembers(after, before)
          && after.lastError == Some(if fetched.Success? then InvalidResponse else fetched.error))
  }

  lemma AttemptedFields(
    before: Option<Cache>, time: nat, fetched: Result<Release, CheckError>, concluded: bool, grammar: Grammar
  )
    requires Sound(Reserved(before, time), grammar)
    ensures var reserved := Reserved(before, time);
            Attempted(if concluded then Concluded(reserved, time, fetched, grammar) else reserved, before, time, fetched,
                      concluded, grammar)
  {
  }

  // What a status says about a cache at `now`; `fetched`: its release was fetched just now.
  predicate Reports(status: Status, cache: Cache, now: nat, fetched: bool) {
    && status.latest == cache.latest && status.checkedAt == cache.checkedAt
    && status.lastAttemptAt == cache.lastAttemptAt && status.error == cache.lastError
    && (status.health.Unavailable? <==> cache.lastError.Some?)
    && (status.health.Available? <==> cache.lastError.None? && cache.latest.Some?)
    && (status.cached <==> cache.latest.Some? && !fetched)
    && (status.stale <==>
        cache.latest.Some?
        && (cache.lastError.Some? || cache.checkedAt.None? || now >= cache.checkedAt.value + 86_400))
  }

  // A release found less than a day ago, without a later error, and not announced yet.
  predicate Announceable(cache: Cache, time: nat) {
    && cache.latest.Some? && cache.lastError.None? && cache.checkedAt.Some? && time < cache.checkedAt.value + 86_400
    && cache.notifiedVersion != Some(cache.latest.value.version)
  }

  // The cache with what the network answered, and whether its release is an earlier one.
  method WithAnswer(reserved: Cache, time: nat, fetched: Result<Release, CheckError>, grammar: Grammar)
    returns (cache: Cache, cached: bool)
    ensures cache == Concluded(reserved, time, fetched, grammar) && (cached <==> !Fresh(fetched, grammar))
  {
    cache, cached := reserved, true;
    match fetched {
      case Success(release) =>
        if ReleaseValid(release, grammar) {
          cache := cache.(latest := Some(release), checkedAt := Some(time), lastError := None);
          cached := false;
        } else {
          cache := cache.(lastError := Some(InvalidResponse));
        }
      case Failure(error) =>
        cache := cache.(lastError := Some(error));
    }
  }

  // The cache directory; `world` is the machine it is part of, `events` what was done to it.
  class CacheDirectory {
    var file: File
    var locked: bool
    ghost const origin: State
    ghost const grammar: Grammar
    ghost var world: State
    ghost var events: seq<Event>

    ghost predicate Valid()
      reads this
    {
      && Legal(origin, events, grammar) && world == Run(origin, events, grammar)
      && world.file == file
    }

    // The process may start: it holds nothing, and the lock is taken exactly if others hold it.
    ghost predicate Ready(pid: nat)
      reads this
    {
      Valid() && Invariant(world, grammar) && locked == world.lock.Some? && pid !in world.processes
    }

    constructor (world: State, grammar: Grammar, locked: bool)
      ensures Valid() && this.world == world && this.grammar == grammar && this.locked == locked
    {
      this.file, this.world, this.origin, this.grammar, this.events := world.file, world, world, grammar, [];
      this.locked := locked;
    }

    ghost method Happens(e: Event)
      requires Valid() && Enabled(world, e) && Next(world, e, grammar).file == file
      modifies this`world, this`events
      ensures Valid() && world == Next(old(world), e, grammar) && events == old(events) + [e]
    {
      RunStep(origin, events, e, grammar);
      world, events := Next(world, e, grammar), events + [e];
    }

    // `save_cache`: the whole file is replaced, or nothing happens.
    method SaveCache(cache: Cache, works: bool, ghost e: Event) returns (r: Result<(), CheckError>)
      requires Valid() && Enabled(world, e) && Enabled(world, Crash(e.pid))
      requires Next(world, e, grammar).file == FileOf(cache)
      modifies this`file, this`world, this`events
      ensures Valid()
      ensures r == if works then Success(()) else Failure(CacheUnavailable)
      ensures world == Next(old(world), if works then e else Crash(e.pid), grammar)
      ensures file == if works then FileOf(cache) else old(file)
    {
      if !works {
        Happens(Crash(e.pid));
        return Failure(CacheUnavailable);
      }
      ghost var next := Next(world, e, grammar);
      RunStep(origin, events, e, grammar);
      file := FileOf(cache);
      world, events := next, events + [e];
      return Success(());
    }

    // The last save of a process, which leaves the lock whether it works or not.
    method EndWith(pid: nat, cache: Cache, works: bool, ghost e: Event, grammar: Grammar)
      returns (r: Result<(), CheckError>)
      requires Valid() && Invariant(world, grammar) && grammar == this.grammar && pid in world.processes
      requires e == Conclude(pid) || e == SaveNotified(pid)
      requires Enabled(world, e) && world.processes[pid].cache == cache && FileOf(cache) == Holds(cache)
      modifies this`file, this`world, this`events
      ensures Valid() && Invariant(world, grammar) && world.lock.None? && world.fetches == old(world.fetches)
      ensures r == if works then Success(()) else Failure(CacheUnavailable)
      ensures file == if works then Holds(cache) else old(file)
    {
      SaveKeeps(world, e, grammar);
      CrashKeeps(world, Crash(pid), grammar);
      r := SaveCache(cache, works, e);
    }

    // The second half of an attempt, with what the network answered.
    method ConcludeAttempt(
      pid: nat, time: nat, reserved: Cache, grammar: Grammar, fetched: Result<Release, CheckError>, concludes: bool
    )
      returns (r: Result<Status, CheckError>)
      requires Valid() && Invariant(world, grammar) && grammar == this.grammar && file == Holds(reserved)
      requires pid in world.processes && world.processes[pid] == Fetching(reserved, time)
      modifies this`file, this`world, this`events
      ensures Valid() && Invariant(world, grammar) && world.lock.None?
      ensures world.fetches == old(world.fetches) + [time]
      ensures file == if concludes then Holds(Concluded(reserved, time, fetched, grammar)) else Holds(reserved)
      ensures if concludes then r.Success? && Reports(r.value, file.cache, time, Fresh(fetched, grammar))
              else r == Failure(CacheUnavailable)
    {
      FetchKeeps(world, Fetch(pid, fetched), grammar);
      Happens(Fetch(pid, fetched));
      var cache, cached := WithAnswer(reserved, time, fetched, grammar);
      assert world.processes[pid] == Concluding(cache) && PhaseSound(world, world.processes[pid], grammar);
      ReadableFits(cache, grammar);
      var saved := EndWith(pid, cache, concludes, Conclude(pid), grammar);
      if saved.Failure? {
        return Failure(saved.error);
      }
      return Success(StatusOf(cache, time, cached));
    }

    // An attempt under the lock: reserve it, fetch, and conclude it.
    method Attempt(
      pid: nat, time: nat, previous: Option<Cache>, grammar: Grammar, fetched: Result<Release, CheckError>,
      reserves: bool, concludes: bool
    )
      returns (r: Result<Status, CheckError>)
      requires Valid() && Invariant(world, grammar) && grammar == this.grammar
      requires pid in world.processes && world.processes[pid] == Reserving(Reserved(previous, time), time)
      modifies this`file, this`world, this`events
      ensures Valid() && Invariant(world, grammar) && world.lock.None?
      ensures world.fetches == old(world.fetches) + (if reserves then [time] else [])
      ensures if reserves then file.Holds? && Attempted(file.cache, previous, time, fetched, concludes, grammar)
              else file == old(file)
      ensures if reserves && concludes then r.Success? && Reports(r.value, file.cache, time, Fresh(fetched, grammar))
              else r == Failure(CacheUnavailable)
    {
      var cache := previous.GetOr(EMPTY_CACHE);
      cache := cache.(lastAttemptAt := time, lastError := Some(Incomplete));
      SaveKeeps(world, Reserve(pid), grammar);
      CrashKeeps(world, Crash(pid), grammar);
      ReadableFits(cache, grammar);
      var saved := SaveCache(cache, reserves, Reserve(pid));
      if saved.Failure? {
        return Failure(saved.error);
      }
      AttemptedFields(previous, time, fetched, concludes, grammar);
      r := ConcludeAttempt(pid, time, cache, grammar, fetched, concludes);
    }

    // `fetched` is what the network would answer; a save that does not work ends the process
    // as a crash would. None: there is no cache yet.
    method CheckInner(
      pid: nat, time: nat, check: bool, grammar: Grammar, fetched: Result<Release, CheckError>, reserves: bool,
      concludes: bool
    )
      returns (r: Result<Option<Status>, CheckError>)
      requires Ready(pid) && grammar == this.grammar && time < U64_LIMIT
      modifies this
      ensures Ready(pid) && locked == old(locked)
      // The network is used exactly when an attempt was asked for, is due, and was reserved
      // under the lock.
      ensures var previous := ReadCache(old(file), grammar);
              var due := previous.Success?
                         && (previous.value.None? || time >= previous.value.value.lastAttemptAt + 86_400);
              var attempt := check && !old(locked) && due;
              && world.fetches == old(world.fetches) + (if attempt && reserves then [time] else [])
              && (!attempt ==> file == old(file))
              && (attempt && !reserves ==> file == old(file))
              && (attempt && reserves ==>
                    file.Holds? && Attempted(file.cache, previous.value, time, fetched, concludes, grammar))
              && (r.Success? <==> previous.Success? && (check ==> !old(locked)) && (attempt ==> reserves && concludes))
              && (r.Failure? ==>
                    r.error == if check && old(locked) then CacheBusy
                               else if previous.Failure? then previous.error
                               else CacheUnavailable)
              // What is reported is what the file now holds, and new only after a fetch of a
              // valid release.
              && (r.Success? ==>
                    if r.value.None? then file == Missing
                    else
                      && file.Holds?
                      && Reports(r.value.value, file.cache, time, attempt && Fresh(fetched, grammar)))
    {
      if !check {
        var observed := ReadCache(file, grammar);
        if observed.Failure? {
          return Failure(observed.error);
        }
        return Success(if observed.value.None? then None else Some(StatusOf(observed.value.value, time, true)));
      }
      if locked {
        return Failure(CacheBusy);
      }
      CheckKeeps(world, pid, time, grammar);
      Happens(Check(pid, time));
      var previous := ReadCache(file, grammar);
      if previous.Failure? {
        return Failure(previous.error);
      }
      if previous.value.Some? && !Due(previous.value.value, time) {
        return Success(Some(StatusOf(previous.value.value, time, true)));
      }
      locked := true;
      var attempted := Attempt(pid, time, previous.value, grammar, fetched, reserves, concludes);
      locked := false;
      if attempted.Failure? {
        return Failure(attempted.error);
      }
      return Success(Some(attempted.value));
    }

    // The announced version is saved before anything is written out.
    method Remember(pid: nat, cache: Cache, grammar: Grammar, saves: bool) returns (r: Result<(), CheckError>)
      requires Valid() && Invariant(world, grammar) && grammar == this.grammar
      requires pid in world.processes && world.processes[pid] == Notifying(cache)
      modifies this`file, this`world, this`events
      ensures Valid() && Invariant(world, grammar) && world.lock.None? && world.fetches == old(world.fetches)
      ensures r.Success? <==> saves
      ensures file == if saves then Holds(cache) else old(file)
    {
      assert PhaseSound(world, world.processes[pid], grammar);
      ReadableFits(cache, grammar);
      r := EndWith(pid, cache, saves, SaveNotified(pid), grammar);
    }

    // Announces a newer release at most once: what was announced is never announced again
    // until another release is fetched. `newer` is the comparison with the installed version.
    method NotifyInner(pid: nat, time: nat, grammar: Grammar, newer: bool, saves: bool)
      returns (r: Result<Option<Release>, CheckError>)
      requires Ready(pid) && grammar == this.grammar
      modifies this
      ensures Ready(pid) && locked == old(locked) && world.fetches == old(world.fetches)
      ensures var previous := ReadCache(old(file), grammar);
              var wanted := !old(locked) && previous.Success? && previous.value.Some? && newer
                            && Announceable(previous.value.value, time);
              && (r.Success? && r.value.Some? <==> wanted && saves)
              && (wanted && saves ==>
                    && r.value == previous.value.value.latest
                    && file == Holds(previous.value.value.(notifiedVersion := Some(r.value.value.version))))
              && (!(wanted && saves) ==> file == old(file))
      ensures r.Success? && r.value.Some? ==>
                file.Holds? && forall t: nat :: !Announceable(file.cache, t)
    {
      if locked {
        return Failure(CacheBusy);
      }
      NotifyKeeps(world, pid, time, newer, grammar);
      Happens(Notify(pid, time, newer));
      var previous := ReadCache(file, grammar);
      if previous.Failure? {
        return Failure(previous.error);
      }
      if previous.value.None? {
        return Success(None);
      }
      var cache := previous.value.value;
      if StatusOf(cache, time, true).stale || !newer || cache.latest.None? {
        return Success(None);
      }
      var release := cache.latest.value;
      if cache.notifiedVersion == Some(release.version) {
        return Success(None);
      }
      locked := true;
      cache := cache.(notifiedVersion := Some(release.version));
      var saved := Remember(pid, cache, grammar, saves);
      locked := false;
      if saved.Failure? {
        return Failure(saved.error);
      }
      return Success(Some(release));
    }
  }
}
