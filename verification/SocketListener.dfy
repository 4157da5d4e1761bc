/**
 The listener's calls on the runtime directory, statement by statement, each proved equal
 to the steps of the publication protocol. Between two statements a crash leaves one of the
 states that the protocol's runs pass through.
 */
module SocketListener {
  import opened Wrappers
  import opened SocketStates
  import opened SocketPublication

  class RuntimeDirectory {
    var nodes: Directory
    var record: SocketState

    ghost function Model(phase: Phase): World
      reads this
    {
      World(nodes, record, phase)
    }

    method LocateRecordedSocket(listing: seq<Name>, identity: Identity)
      returns (r: Result<Option<Name>, Error>)
      ensures r == LocateFrom(nodes, listing, identity, 0, None)
    {
      var located: Option<Name> := None;
      var index := 0;
      while index < |listing|
        invariant index <= |listing|
        invariant LocateFrom(nodes, listing, identity, 0, None)
               == LocateFrom(nodes, listing, identity, index, located)
      {
        if index >= MAXIMUM_DIRECTORY_ENTRIES {
          return Failure(SocketDirectoryLimitExceeded);
        }
        var name := listing[index];
        if name in nodes && nodes[name].Socket? && nodes[name].identity == identity {
          if located.Some? {
            return Failure(AmbiguousLegacySocketState);
          }
          located := Some(name);
        }
        index := index + 1;
      }
      return Success(located);
    }

    method ResolveLegacySocketState(listing: seq<Name>, configured: Name)
      returns (r: Result<SocketState, Error>)
      ensures r == ResolveLegacy(nodes, listing, configured, record)
    {
      match record
      case LegacyPreparing(temporary) =>
        return Success(Preparing(configured, temporary));
      case LegacyPrepared(temporary, identity) =>
        var located := LocateRecordedSocket(listing, identity);
        if located.Failure? {
          return Failure(located.error);
        }
        var public := configured;
        if located.value.Some? && located.value.value != temporary {
          public := located.value.value;
        }
        return Success(Prepared(public, temporary, identity));
      case LegacyOwned(identity) =>
        var located := LocateRecordedSocket(listing, identity);
        if located.Failure? {
          return Failure(located.error);
        }
        return Success(Owned(if located.value.Some? then located.value.value else configured, identity));
      case _ =>
        return Success(record);
    }

    // Removes what a crashed launch left at its temporary name.
    method RecoverRecordedTemporary(previous: SocketState) returns (r: Result<(), Error>)
      modifies this`nodes
      ensures var spec := RecoverTemporary(old(nodes), previous);
              && r.Success? == spec.Success?
              && nodes == (if spec.Success? then spec.value else old(nodes))
              && (r.Failure? ==> r.error == spec.error)
    {
      var recorded := previous.TemporaryName();
      if recorded.None? || recorded.value.0 !in nodes {
        return Success(());
      }
      var (temporary, expected) := recorded.value;
      if !nodes[temporary].Socket? {
        return Failure(InvalidSocketTarget);
      }
      var observed := nodes[temporary].identity;
      if expected.Some? && expected.value != observed {
        return Failure(SocketIdentityChanged);
      }
      if nodes[temporary].live {
        return Failure(AlreadyRunning);
      }
      nodes := nodes - {temporary};
      return Success(());
    }

    // Removes a stale socket from the public name if the record owns it.
    method ClearPublicName(previous: SocketState, public: Name) returns (r: Result<(), Error>)
      modifies this`nodes
      ensures var spec := ClearPublic(old(nodes), previous, public);
              && r.Success? == spec.Success?
              && nodes == (if spec.Success? then spec.value else old(nodes))
              && (r.Failure? ==> r.error == spec.error)
    {
      if public !in nodes {
        return Success(());
      }
      if !nodes[public].Socket? {
        return Failure(InvalidSocketTarget);
      }
      if nodes[public].live {
        return Failure(AlreadyRunning);
      }
      if !previous.OwnsPublic(public, nodes[public].identity) {
        return Failure(UnownedStaleSocket);
      }
      nodes := nodes - {public};
      return Success(());
    }

    // `write_socket_state` writes a temporary file and renames it.
    method DraftSocketState()
      modifies this`nodes
      ensures nodes == old(nodes)[STATE_TEMPORARY_FILE := Other]
    {
      nodes := nodes[STATE_TEMPORARY_FILE := Other];
    }

    method PublishSocketState(state: SocketState)
      modifies this
      ensures nodes == (old(nodes) - {STATE_TEMPORARY_FILE})[STATE_FILE := Other] && record == state
    {
      nodes := (nodes - {STATE_TEMPORARY_FILE})[STATE_FILE := Other];
      record := state;
    }

    method DropSocketNode(name: Name, identity: Identity)
      modifies this`nodes
      ensures nodes == RemoveIfOwned(old(nodes), name, identity)
    {
      if name in nodes && nodes[name].Socket? && nodes[name].identity == identity {
        nodes := nodes - {name};
      }
    }

    // The listener's descriptor closes with the process.
    method CloseListener()
      modifies this`nodes
      ensures nodes == Silenced(old(nodes))
    {
      nodes := Silenced(nodes);
    }

    // Lock to cleared public name.
    method Recover(launch: Launch, hint: Hint) returns (r: Result<(), Error>)
      modifies this`nodes
      ensures var spec := Finish(old(Model(Locked(launch))), hint);
              r.Failure? ==> spec == Refused(Model(Down), r.error)
      ensures var spec := Finish(old(Model(Locked(launch))), hint);
              r.Success? ==> spec == Finish(Model(Cleared(launch)), hint)
    {
      ghost var locked := Model(Locked(launch));
      var resolved := ResolveLegacySocketState(hint.listing, launch.public);
      if resolved.Failure? {
        CloseListener();
        return Failure(resolved.error);
      }
      var previous := resolved.value;
      if !ConfigurationAccepted(nodes, launch.public, previous) {
        CloseListener();
        return Failure(SocketConfigurationChanged);
      }
      ghost var examined := Model(Examined(launch, previous));
      assert Finish(locked, hint) == Finish(examined, hint);
      var cleaned := RecoverRecordedTemporary(previous);
      if cleaned.Failure? {
        CloseListener();
        return Failure(cleaned.error);
      }
      ghost var recovered := Model(Recovered(launch, previous));
      assert Finish(examined, hint) == Finish(recovered, hint);
      var cleared := ClearPublicName(previous, launch.public);
      if cleared.Failure? {
        CloseListener();
        return Failure(cleared.error);
      }
      return Success(());
    }

    method Announce(launch: Launch, ghost hint: Hint)
      modifies this
      ensures Finish(old(Model(Cleared(launch))), hint) == Finish(Model(Announced(launch)), hint)
    {
      ghost var cleared := Model(Cleared(launch));
      DraftSocketState();
      ghost var announcing := Model(Announcing(launch));
      assert Finish(cleared, hint) == Finish(announcing, hint);
      PublishSocketState(Preparing(launch.public, launch.temporary));
      assert Finish(announcing, hint) == Finish(Model(Announced(launch)), hint);
    }

    // Announce, bind the temporary socket and record its identity.
    method Prepare(launch: Launch, hint: Hint) returns (r: Result<Identity, Error>)
      modifies this
      ensures var spec := Finish(old(Model(Cleared(launch))), hint);
              r.Failure? ==> spec == Refused(Model(Down), r.error)
      ensures var spec := Finish(old(Model(Cleared(launch))), hint);
              r.Success? ==> spec == Finish(Model(Recorded(launch, r.value)), hint)
    {
      Announce(launch, hint);
      ghost var announced := Model(Announced(launch));
      if launch.temporary in nodes {
        CloseListener();
        return Failure(BindFailed);
      }
      nodes := nodes[launch.temporary := Socket(hint.identity, true, Listener)];
      ghost var bound := Model(Bound(launch));
      assert Finish(announced, hint) == Finish(bound, hint);
      var identity := nodes[launch.temporary].identity;
      ghost var held := Model(Held(launch, identity));
      assert Finish(bound, hint) == Finish(held, hint);
      DraftSocketState();
      ghost var recording := Model(Recording(launch, identity));
      assert Finish(held, hint) == Finish(recording, hint);
      PublishSocketState(Prepared(launch.public, launch.temporary, identity));
      return Success(identity);
    }

    // Rename into place without replacing anything and record ownership.
    method Publish(launch: Launch, identity: Identity, hint: Hint) returns (r: Result<Identity, Error>)
      modifies this
      ensures var spec := Finish(old(Model(Recorded(launch, identity))), hint);
              r.Failure? ==> spec == Refused(Model(Down), r.error)
      ensures var spec := Finish(old(Model(Recorded(launch, identity))), hint);
              r.Success? ==> spec == Proceeded(Model(Serving(launch, r.value)))
    {
      ghost var recorded := Model(Recorded(launch, identity));
      if launch.temporary !in nodes || launch.public in nodes {
        DropSocketNode(launch.temporary, identity);
        CloseListener();
        return Failure(SocketPublicationFailed);
      }
      nodes := (nodes - {launch.temporary})[launch.public := nodes[launch.temporary]];
      ghost var published := Model(Published(launch, identity));
      assert Finish(recorded, hint) == Finish(published, hint);
      DropSocketNode(launch.temporary, identity);
      assert launch.public in nodes;
      if !nodes[launch.public].Socket? {
        CloseListener();
        return Failure(InvalidSocketTarget);
      }
      var owned := nodes[launch.public].identity;
      ghost var adopted := Model(Adopted(launch, owned));
      assert Finish(published, hint) == Finish(adopted, hint);
      DraftSocketState();
      ghost var claiming := Model(Claiming(launch, owned));
      assert Finish(adopted, hint) == Finish(claiming, hint);
      PublishSocketState(Owned(launch.public, owned));
      ghost var serving := Model(Serving(launch, owned));
      assert Finish(claiming, hint) == Finish(serving, hint);
      return Success(owned);
    }

    // `PublishedSocket::bind`. `held`: another listener, in phase `other`, has the lock.
    method Bind(launch: Launch, hint: Hint, held: bool, ghost other: Phase) returns (r: Result<Identity, Error>)
      requires held <==> other != Down
      modifies this
      ensures var spec := SocketPublication.Bind(old(Model(other)), launch, hint);
              && spec.world == Model(if r.Success? then Serving(launch, r.value) else other)
              && r.Success? == spec.Proceeded?
              && (r.Failure? ==> spec.error == r.error)
    {
      if Reserved(launch.public) {
        return Failure(ReservedSocketName);
      }
      if held {
        return Failure(AlreadyRunning);
      }
      nodes := nodes[LOCK_FILE := Other];
      var recovered := Recover(launch, hint);
      if recovered.Failure? {
        return Failure(recovered.error);
      }
      var prepared := Prepare(launch, hint);
      if prepared.Failure? {
        return Failure(prepared.error);
      }
      r := Publish(launch, prepared.value, hint);
    }

    // A clean stop: the fields of the published socket drop in order.
    method Drop(launch: Launch, identity: Identity)
      modifies this`nodes
      ensures Model(Down) == Abandoned(old(Model(Serving(launch, identity))))
    {
      DropSocketNode(launch.public, identity);
      CloseListener();
    }
  }
}
