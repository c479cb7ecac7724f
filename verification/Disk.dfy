/**
 The private configuration root as a map from paths to decoded file contents, and every
 read the lifecycle operations make of it: the two journals, the exclusivity scan and the
 opening of a pairing locator.
 */
module Disk {
  import opened Records
  import opened Paths

  type Stub = PublicIdentityStub

  type Setup = SetupJournal<Path>

  type Cleanup = CleanupJournal<Path>

  type Locator = PairingLocator<Path>

  /** A response replay file belongs to one desktop and one identity. */
  datatype Scope = Scope(desktopId: Bytes, identityId: Bytes)

  /** `PartialKeys` is the reservation `pending`, or key metadata that no longer parses. */
  datatype Content =
    | PartialKeys
    | Keys(desktopId: Bytes, signing: Bytes, selection: Bytes)
    | Replay(scope: Scope, consumed: set<Bytes>)
    | LockFile
    | PendingMarker
    | LocatorFile(record: Locator)
    | StubText(stub: Stub, kind: RecipientType)
    | SetupFile(setup: Setup)
    | CleanupFile(cleanup: Cleanup)
    | OtherFile

  type Disk = map<Path, Content>

  predicate StubIdsSized(stub: Stub) {
    |stub.desktopId| == 16 && |stub.identityId| == 16
  }

  // ----- Journals -----

  predicate ExplicitName(name: string) {
    && name != ""
    && (forall i :: 0 <= i < |name| ==>
          'a' <= name[i] <= 'z' || '0' <= name[i] <= '9' || name[i] in {'.', '-', '_'})
    && Plain(name)
    && !(".replace-" <= name)
    && !(".state-" <= name)
  }

  function ManagedPaths(root: string, desktopId: Bytes): (Path, Path, Path) {
    (Path(root, "desktop-" + Hex(desktopId) + ".state"),
     Path(root, "replay-" + Hex(desktopId) + ".state"),
     Path(root, "identity-" + Hex(desktopId) + ".txt"))
  }

  /** `SetupJournal::validate_root`. */
  predicate ValidSetup(root: string, j: Setup) {
    if j.explicitPaths then
      && j.desktopState.dir == root
      && j.replayState.dir == root
      && ExplicitName(j.desktopState.name)
      && ExplicitName(j.replayState.name)
      && ExplicitName(j.identityStub.name)
      && j.desktopState.name != j.replayState.name
      && j.desktopState.name != j.identityStub.name
      && j.replayState.name != j.identityStub.name
    else
      (j.desktopState, j.replayState, j.identityStub) == ManagedPaths(root, j.desktopId)
  }

  /** The checks `SetupJournal::decode` makes beyond the byte format. */
  predicate DecodableSetup(j: Setup) {
    && |j.desktopId| == 16
    && (j.candidate.Some? <==> j.stage in {ResponseVerified, Confirmed})
    && (j.candidate.Some? ==> j.candidate.value.desktopId == j.desktopId && StubIdsSized(j.candidate.value))
  }

  /** `CleanupJournal::validate_macos_root`. */
  predicate ValidCleanup(root: string, c: Cleanup) {
    var reserved := {CleanupJournalPath(root), LifecycleLockPath(root), SetupJournalPath(root)};
    var private := {c.locatorPath, c.desktopState, c.replayState};
    var sidecars := {ReplayLockPath(c.replayState), ReplayPendingPath(c.replayState)};
    && (forall p :: p in private ==> p.dir == root && p.name != "" && p !in reserved)
    && c.desktopState != c.replayState
    && c.locatorPath != c.desktopState
    && c.locatorPath != c.replayState
    && |c.DesktopId()| == 16 && |c.IdentityId()| == 16
    && c.locatorPath in {LocatorPath(root, c.IdentityId(), c.DesktopId()), LegacyLocatorPath(root, c.IdentityId())}
    && c.desktopState !in sidecars
    && c.locatorPath !in sidecars
    && (c.target.Paired? ==> c.target.stubPath !in private + reserved + sidecars)
  }

  datatype ReadResult<T> = Missing | Invalid | Present(value: T)

  function ReadSetup(root: string, disk: Disk): ReadResult<Setup> {
    var p := SetupJournalPath(root);
    if p !in disk then Missing
    else if disk[p].SetupFile? && DecodableSetup(disk[p].setup) && ValidSetup(root, disk[p].setup)
    then Present(disk[p].setup)
    else Invalid
  }

  function ReadCleanup(root: string, disk: Disk): ReadResult<Cleanup> {
    var p := CleanupJournalPath(root);
    if p !in disk then Missing
    else if disk[p].CleanupFile? && ValidCleanup(root, disk[p].cleanup) then Present(disk[p].cleanup)
    else Invalid
  }

  // ----- Locators -----

  /** `validate_layout`. */
  predicate ValidLayout(root: string, rec: Locator) {
    && rec.desktopState.dir == root
    && rec.replayState.dir == root
    && rec.desktopState != rec.replayState
  }

  predicate SameIds(rec: Locator, stub: Stub) {
    && rec.desktopId == stub.desktopId
    && rec.identityId == stub.identityId
    && rec.fingerprint == stub.fingerprint
  }

  /** A readable locator stored under one of the two names its record may have. */
  predicate CanonicalLocator(root: string, disk: Disk, p: Path) {
    && p.dir == root
    && p in disk
    && disk[p].LocatorFile?
    && var rec := disk[p].record;
       |rec.desktopId| == 16 && |rec.identityId| == 16
       && ValidLayout(root, rec)
       && p in {LocatorPath(root, rec.identityId, rec.desktopId), LegacyLocatorPath(root, rec.identityId)}
  }

  /** `ensure_exclusive_cleanup_target`. */
  ghost predicate Exclusive(root: string, disk: Disk, own: Path, desktop: Path, replay: Path) {
    forall p :: p in disk && p.dir == root && LooksLikeLocator(p.name) && p != own ==>
                  && CanonicalLocator(root, disk, p)
                  && disk[p].record.desktopState != desktop
                  && disk[p].record.replayState != replay
  }

  datatype OpenResult =
    | Opened(path: Path, locator: Locator)
    | CleanupPending
    | SetupPending
    | LocatorMissing
    | LocatorInvalid

  function OpenLocatorAt(root: string, disk: Disk, stub: Stub, p: Path): OpenResult {
    if p !in disk then LocatorMissing
    else if disk[p].LocatorFile? && SameIds(disk[p].record, stub) && ValidLayout(root, disk[p].record)
    then Opened(p, disk[p].record)
    else LocatorInvalid
  }

  /** The two candidate names, newest first. */
  function FindLocator(root: string, disk: Disk, stub: Stub): OpenResult {
    match OpenLocatorAt(root, disk, stub, LocatorPath(root, stub.identityId, stub.desktopId))
    case LocatorMissing => OpenLocatorAt(root, disk, stub, LegacyLocatorPath(root, stub.identityId))
    case other => other
  }

  /** `open_pairing_locator`: refused while either journal targets the pairing. */
  function OpenLocator(root: string, disk: Disk, stub: Stub): OpenResult {
    match ReadCleanup(root, disk)
    case Invalid => LocatorInvalid
    case Present(c) =>
      if c.Targets(stub) then CleanupPending else OpenBeyondCleanup(root, disk, stub)
    case Missing => OpenBeyondCleanup(root, disk, stub)
  }

  function OpenBeyondCleanup(root: string, disk: Disk, stub: Stub): OpenResult {
    match ReadSetup(root, disk)
    case Invalid => SetupPending
    case Present(j) => if j.Targets(stub) then SetupPending else FindLocator(root, disk, stub)
    case Missing => FindLocator(root, disk, stub)
  }

  lemma OpenedIsCanonical(root: string, disk: Disk, stub: Stub)
    requires StubIdsSized(stub) && FindLocator(root, disk, stub).Opened?
    ensures CanonicalLocator(root, disk, FindLocator(root, disk, stub).path)
    ensures disk[FindLocator(root, disk, stub).path].record == FindLocator(root, disk, stub).locator
    ensures SameIds(FindLocator(root, disk, stub).locator, stub)
    ensures LooksLikeLocator(FindLocator(root, disk, stub).path.name)
  {
    LocatorNames(root, stub.identityId, stub.desktopId);
  }
}
