/**
 The records the desktop keeps on disk. Path-carrying records are generic in the
 representation of a path: `Codec` uses the UTF-8 text that is serialized, `Lifecycle`
 uses a directory and a file name.
 */
module Records {
  type Byte = b: int | 0 <= b < 256

  type Bytes = seq<Byte>

  datatype Option<+T> = None | Some(value: T)

  datatype Result<+T, +E> = Ok(value: T) | Err(error: E)
  {
    predicate IsFailure() {
      Err?
    }

    function PropagateFailure<U>(): Result<U, E>
      requires Err?
    {
      Err(error)
    }

    function Extract(): T
      requires Ok?
    {
      value
    }
  }

  /** A public identity stub: pairing material that contains no private key. */
  datatype PublicIdentityStub = PublicIdentityStub(
    desktopId: Bytes,
    identityId: Bytes,
    recipient: Bytes,
    desktopSigningKey: Bytes,
    desktopSelectionKey: Bytes,
    phoneSigningKey: Bytes,
    offerDigest: Bytes,
    fingerprint: Bytes)

  datatype RecipientType = Phone | Tag

  datatype TransportChoice = Auto | Adb | Ble | Wifi | Qr

  datatype PairingLocator<+P> = PairingLocator(
    desktopId: Bytes,
    identityId: Bytes,
    fingerprint: Bytes,
    desktopState: P,
    replayState: P,
    transport: TransportChoice)

  datatype SetupStage = Provisioning | Pairing | ResponseVerified | Confirmed

  datatype SetupJournal<+P> = SetupJournal(
    explicitPaths: bool,
    stage: SetupStage,
    setupCode: Bytes,
    desktopId: Bytes,
    desktopState: P,
    replayState: P,
    identityStub: P,
    transport: TransportChoice,
    candidate: Option<PublicIdentityStub>)
  {
    /** The journal records an attempt for exactly this pairing. */
    predicate Targets(stub: PublicIdentityStub) {
      candidate.Some?
      && candidate.value.desktopId == stub.desktopId
      && candidate.value.identityId == stub.identityId
      && candidate.value.fingerprint == stub.fingerprint
    }
  }

  datatype CleanupTarget<+P> =
    | Paired(stub: PublicIdentityStub, stubPath: P)
    | Orphan(desktopId: Bytes, identityId: Bytes, fingerprint: Bytes)

  datatype CleanupJournal<+P> = CleanupJournal(
    target: CleanupTarget<P>,
    locatorPath: P,
    desktopState: P,
    replayState: P)
  {
    function DesktopId(): Bytes {
      if target.Paired? then target.stub.desktopId else target.desktopId
    }

    function IdentityId(): Bytes {
      if target.Paired? then target.stub.identityId else target.identityId
    }

    function Fingerprint(): Bytes {
      if target.Paired? then target.stub.fingerprint else target.fingerprint
    }

    predicate Targets(stub: PublicIdentityStub) {
      DesktopId() == stub.desktopId
      && IdentityId() == stub.identityId
      && Fingerprint() == stub.fingerprint
    }
  }
}
