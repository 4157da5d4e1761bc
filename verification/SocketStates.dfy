/** The durable ownership record of the Queue Ingress listener. */
module SocketStates {
  import opened Wrappers

  datatype Identity = Identity(device: nat, inode: nat)

  datatype SocketState =
    | Absent
    | LegacyPreparing(temporary: Name)
    | LegacyPrepared(temporary: Name, identity: Identity)
    | LegacyOwned(identity: Identity)
    | Preparing(public: Name, temporary: Name)
    | Prepared(public: Name, temporary: Name, identity: Identity)
    | Owned(public: Name, identity: Identity)
  {
    predicate Legacy() {
      LegacyPreparing? || LegacyPrepared? || LegacyOwned?
    }

    predicate OwnsPublic(name: Name, observed: Identity) {
      match this
      case Prepared(owned, _, identity) => owned == name && identity == observed
      case Owned(owned, identity) => owned == name && identity == observed
      case _ => false
    }

    function PublicName(): Option<Name> {
      match this
      case Preparing(name, _) => Some(name)
      case Prepared(name, _, _) => Some(name)
      case Owned(name, _) => Some(name)
      case _ => None
    }

    function TemporaryName(): Option<(Name, Option<Identity>)> {
      match this
      case Preparing(_, name) => Some((name, None))
      case Prepared(_, name, identity) => Some((name, Some(identity)))
      case _ => None
    }
  }
}
