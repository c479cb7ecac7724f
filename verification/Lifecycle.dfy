/**
 Creating and deleting one desktop pairing, one file operation at a time. A process takes
 the lifecycle lock, checks the journals, and then runs a `Program`; it may die between any
 two file operations, which releases the lock and leaves the disk as it is.
 */
module Lifecycle {
  import opened Records
  import opened Paths
  import opened Disk

  /** What the holder of the lifecycle lock still has to do. */
  datatype Program =
    | Provision(setup: Setup, response: Stub, kind: RecipientType, pc: nat)
    | Commit(setup: Setup, kind: RecipientType, pc: nat)
    | CleanSetup(setup: Setup, pc: nat)
    | StartCleanup(cleanup: Cleanup)
    | CleanPairing(cleanup: Cleanup, pc: nat)

  datatype Step =
    | Next(disk: Disk, program: Program)
    | Finished(disk: Disk)
    | Refused(disk: Disk)

  function WithLockFile(disk: Disk, replay: Path): Disk {
    var lock := ReplayLockPath(replay);
    if lock in disk then disk else disk[lock := LockFile]
  }

  /** Taking the lifecycle lock creates its file, which nobody deletes. */
  function WithLifecycleLock(root: string, disk: Disk): Disk {
    var lock := LifecycleLockPath(root);
    if lock in disk then disk else disk[lock := LockFile]
  }

  /** The caller already holds the lifecycle lock, so a replay lock of that name cannot be taken. */
  predicate ReplayLockAvailable(root: string, replay: Path) {
    ReplayLockPath(replay) != LifecycleLockPath(root)
  }

  function LocatorOf(j: Setup, stub: Stub): Locator {
    PairingLocator(stub.desktopId, stub.identityId, stub.fingerprint, j.desktopState, j.replayState, j.transport)
  }

  // ----- New setup up to the confirmed journal -----

  function KeysOf(stub: Stub): Content {
    Keys(stub.desktopId, stub.desktopSigningKey, stub.desktopSelectionKey)
  }

  function WithJournal(root: string, disk: Disk, j: Setup): Disk {
    disk[SetupJournalPath(root) := SetupFile(j)]
  }

  function AdvanceProvision(root: string, disk: Disk, j: Setup, response: Stub, kind: RecipientType, pc: nat): Step {
    match pc
    case 0 =>
      if j.desktopState in disk then Refused(disk)
      else Next(disk[j.desktopState := PartialKeys], Provision(j, response, kind, 1))
    case 1 =>
      if j.desktopState !in disk then Refused(disk)
      else Next(disk[j.desktopState := KeysOf(response)], Provision(j, response, kind, 2))
    case 2 =>
      var j' := j.(stage := Pairing);
      Next(WithJournal(root, disk, j'), Provision(j', response, kind, 3))
    case 3 =>
      if response.desktopId != j.desktopId then Refused(disk)
      else
        var j' := j.(stage := ResponseVerified, candidate := Some(response));
        Next(WithJournal(root, disk, j'), Provision(j', response, kind, 4))
    case _ =>
      var j' := j.(stage := Confirmed);
      Next(WithJournal(root, disk, j'), Commit(j', kind, 0))
  }

  // ----- Commit of a confirmed setup -----

  /** The checks at the head of `commit_confirmed_for`. */
  predicate MayCommit(root: string, disk: Disk, j: Setup) {
    && ValidSetup(root, j)
    && j.stage == Confirmed
    && ReadSetup(root, disk) == Present(j)
    && j.candidate.Some?
    && j.desktopState in disk
    && disk[j.desktopState] == KeysOf(j.candidate.value)
  }

  function AdvanceCommit(root: string, disk: Disk, j: Setup, kind: RecipientType, pc: nat): Step {
    if pc == 0 then
      if !MayCommit(root, disk, j) || !ReplayLockAvailable(root, j.replayState) then Refused(disk)
      else Next(WithLockFile(disk, j.replayState), Commit(j, kind, 1))
    else if pc >= 4 then Finished(disk - {SetupJournalPath(root)})
    else
      match j.candidate
      case None => Refused(disk)
      case Some(stub) =>
        if pc == 1 then CommitReplay(disk, j, stub, kind)
        else if pc == 2 then CommitLocator(root, disk, j, stub, kind)
        else CommitStub(disk, j, stub, kind)
  }

  /** `FileReplayGuard::create`, or else `open`: existing consumption is kept. */
  function CommitReplay(disk: Disk, j: Setup, stub: Stub, kind: RecipientType): Step {
    var scope := Scope(stub.desktopId, stub.identityId);
    if ReplayPendingPath(j.replayState) in disk then Refused(disk)
    else if j.replayState !in disk then
      Next(disk[j.replayState := Replay(scope, {})], Commit(j, kind, 2))
    else if disk[j.replayState].Replay? && disk[j.replayState].scope == scope then
      Next(disk, Commit(j, kind, 2))
    else Refused(disk)
  }

  function CommitLocator(root: string, disk: Disk, j: Setup, stub: Stub, kind: RecipientType): Step {
    var path := LocatorPath(root, stub.identityId, stub.desktopId);
    var rec := LocatorOf(j, stub);
    var cleanup := ReadCleanup(root, disk);
    if cleanup.Invalid? || (cleanup.Present? && cleanup.value.Targets(stub)) then Refused(disk)
    else if j.desktopState !in disk || j.replayState !in disk || !ValidLayout(root, rec) then Refused(disk)
    else if path !in disk then Next(disk[path := LocatorFile(rec)], Commit(j, kind, 3))
    else
      match FindLocator(root, disk, stub)
      case Opened(_, found) =>
        if found.desktopState == j.desktopState && found.replayState == j.replayState
           && found.transport == j.transport
        then Next(disk, Commit(j, kind, 3)) else Refused(disk)
      case _ => Refused(disk)
  }

  /** An existing stub is never rewritten; its recipient comment must be of the same type. */
  function CommitStub(disk: Disk, j: Setup, stub: Stub, kind: RecipientType): Step {
    if j.identityStub !in disk then
      Next(disk[j.identityStub := StubText(stub, kind)], Commit(j, kind, 4))
    else if disk[j.identityStub] == StubText(stub, kind) then Next(disk, Commit(j, kind, 4))
    else Refused(disk)
  }

  // ----- Removals -----

  function SetupTargets(root: string, j: Setup): seq<Path> {
    [j.desktopState, j.replayState, ReplayPendingPath(j.replayState)]
    + (if j.candidate.Some?
       then [LocatorPath(root, j.candidate.value.identityId, j.candidate.value.desktopId)] else [])
    + [j.identityStub, ReplayLockPath(j.replayState)]
  }

  function CleanupTargets(c: Cleanup): seq<Path> {
    [c.replayState, ReplayPendingPath(c.replayState), c.desktopState, c.locatorPath, ReplayLockPath(c.replayState)]
    + (if c.target.Paired? then [c.target.stubPath] else [])
  }

  /** One program step: at most one file changes. */
  function Advance(root: string, disk: Disk, p: Program): Step {
    match p
    case Provision(j, response, kind, pc) => AdvanceProvision(root, disk, j, response, kind, pc)
    case Commit(j, kind, pc) => AdvanceCommit(root, disk, j, kind, pc)
    case CleanSetup(j, pc) =>
      var targets := SetupTargets(root, j);
      if pc < |targets| then Next(disk - {targets[pc]}, CleanSetup(j, pc + 1))
      else Finished(disk - {SetupJournalPath(root)})
    case StartCleanup(c) =>
      Next(disk[CleanupJournalPath(root) := CleanupFile(c)], CleanPairing(c, 0))
    case CleanPairing(c, pc) =>
      var targets := CleanupTargets(c);
      if pc < |targets| then Next(disk - {targets[pc]}, CleanPairing(c, pc + 1))
      else Finished(disk - {CleanupJournalPath(root)})
  }

  // ----- Commands -----

  datatype Command =
    | NewSetup(setup: Setup, response: Stub, kind: RecipientType)
    | ResumeSetup(entered: string, kind: RecipientType)
    | RemoveSetup(entered: string)
    | RemovePairing(stubPath: Path, entered: string)
    | RemoveOrphan(locatorPath: Path, entered: string)

  function ConfirmationText(j: Setup): string {
    if j.candidate.Some? then Hex(j.candidate.value.fingerprint) else Hex(j.setupCode)
  }

  /** No locator names this desktop: a freshly drawn identifier. */
  ghost predicate FreshDesktop(root: string, disk: Disk, desktopId: Bytes) {
    forall p :: CanonicalLocator(root, disk, p) ==> disk[p].record.desktopId != desktopId
  }

  ghost predicate MaySetup(root: string, disk: Disk, j: Setup, response: Stub) {
    && ReadCleanup(root, disk).Missing?
    && ReadSetup(root, disk).Missing?
    && ValidSetup(root, j)
    && j.stage == Provisioning && j.candidate == None && |j.desktopId| == 16
    && response.desktopId == j.desktopId && |response.identityId| == 16
    && FreshDesktop(root, disk, j.desktopId)
    && j.desktopState !in disk && j.replayState !in disk && j.identityStub !in disk
    && (j.explicitPaths ==>
          && ReplayLockPath(j.replayState) !in disk
          && ReplayPendingPath(j.replayState) !in disk
          && Exclusive(root, disk, SetupJournalPath(root), j.desktopState, j.replayState))
  }

  predicate ManagedState(root: string, desktopId: Bytes, desktop: Path, replay: Path) {
    desktop == ManagedPaths(root, desktopId).0 && replay == ManagedPaths(root, desktopId).1
  }

  /** `validate_macos_cleanup_state`; `keys` is present when the public stub is. */
  predicate RemovableState(root: string, disk: Disk, rec: Locator, keys: Option<(Bytes, Bytes)>) {
    var managed := ManagedState(root, rec.desktopId, rec.desktopState, rec.replayState);
    && ReplayLockAvailable(root, rec.replayState)
    && (if rec.desktopState in disk && disk[rec.desktopState].Keys? then
          var k := disk[rec.desktopState];
          k.desktopId == rec.desktopId && (keys.Some? ==> keys.value == (k.signing, k.selection))
        else
          managed && (rec.desktopState !in disk || disk[rec.desktopState].PartialKeys?))
    && (!managed ==>
          && ReplayPendingPath(rec.replayState) !in disk
          && rec.replayState in disk && disk[rec.replayState].Replay?
          && disk[rec.replayState].scope == Scope(rec.desktopId, rec.identityId))
  }

  function StubAt(disk: Disk, p: Path): Option<Stub> {
    if p in disk && disk[p].StubText? then Some(disk[p].stub) else None
  }

  /** The journal `start_cleanup` would write for the stub at this path. */
  function PairedJournal(root: string, disk: Disk, stubPath: Path): Option<Cleanup> {
    match StubAt(disk, stubPath)
    case None => None
    case Some(stub) =>
      match OpenLocator(root, disk, stub)
      case Opened(path, loc) =>
        Some(CleanupJournal(Paired(stub, stubPath), path, loc.desktopState, loc.replayState))
      case _ => None
  }

  function OrphanJournal(disk: Disk, path: Path): Cleanup
    requires path in disk && disk[path].LocatorFile?
  {
    var rec := disk[path].record;
    CleanupJournal(Orphan(rec.desktopId, rec.identityId, rec.fingerprint), path, rec.desktopState, rec.replayState)
  }

  /** `start_cleanup` succeeds and writes `c`. */
  ghost predicate MayStartPaired(root: string, disk: Disk, stubPath: Path, entered: string, c: Cleanup) {
    && PairedJournal(root, disk, stubPath) == Some(c)
    && StubIdsSized(c.target.stub)
    && Hex(c.target.stub.fingerprint) == entered
    && RemovableState(root, disk, disk[c.locatorPath].record,
                      Some((c.target.stub.desktopSigningKey, c.target.stub.desktopSelectionKey)))
    && Exclusive(root, disk, c.locatorPath, c.desktopState, c.replayState)
    && ValidCleanup(root, c)
  }

  /** `start_orphan_cleanup` succeeds and writes `c`. */
  ghost predicate MayStartOrphan(root: string, disk: Disk, path: Path, entered: string, c: Cleanup) {
    && CanonicalLocator(root, disk, path)
    && c == OrphanJournal(disk, path)
    && Hex(c.target.fingerprint) == entered
    && RemovableState(root, disk, disk[path].record, None)
    && Exclusive(root, disk, path, c.desktopState, c.replayState)
    && ValidCleanup(root, c)
  }

  /** A pending cleanup accepts this rerun: same stub path, same fingerprint, stub unchanged or gone. */
  predicate ResumesPaired(disk: Disk, c: Cleanup, stubPath: Path, entered: string) {
    && c.target.Paired?
    && c.target.stubPath == stubPath
    && (stubPath in disk ==> StubAt(disk, stubPath) == Some(c.target.stub))
    && Hex(c.Fingerprint()) == entered
  }

  predicate ResumesOrphan(c: Cleanup, path: Path, entered: string) {
    c.target.Orphan? && c.locatorPath == path && Hex(c.Fingerprint()) == entered
  }

  /** The checks of `execute_native_cleanup` before the first deletion. */
  ghost predicate MayExecute(root: string, disk: Disk, c: Cleanup) {
    && ReadCleanup(root, disk) == Present(c)
    && Exclusive(root, disk, c.locatorPath, c.desktopState, c.replayState)
    && ReplayLockAvailable(root, c.replayState)
  }

  function OwnLocator(root: string, j: Setup): Path {
    if j.candidate.Some?
    then LocatorPath(root, j.candidate.value.identityId, j.candidate.value.desktopId)
    else SetupJournalPath(root)
  }

  ghost predicate MayCleanSetup(root: string, disk: Disk, j: Setup, entered: string) {
    && ReadSetup(root, disk) == Present(j)
    && entered == ConfirmationText(j)
    && Exclusive(root, disk, OwnLocator(root, j), j.desktopState, j.replayState)
    && ReplayLockAvailable(root, j.replayState)
  }

  /** A command accepted under the lifecycle lock, with its first file operation done. */
  ghost predicate Begins(root: string, disk: Disk, command: Command, disk': Disk, p: Program) {
    match command
    case NewSetup(j, response, kind) =>
      && MaySetup(root, disk, j, response)
      && disk' == WithJournal(root, disk, j)
      && p == Provision(j, response, kind, 0)
    case ResumeSetup(entered, kind) =>
      && ReadCleanup(root, disk).Missing?
      && ReadSetup(root, disk).Present?
      && var j := ReadSetup(root, disk).value;
         j.stage == Confirmed && entered == ConfirmationText(j)
         && disk' == disk && p == Commit(j, kind, 0)
    case RemoveSetup(entered) =>
      && ReadCleanup(root, disk).Missing?
      && ReadSetup(root, disk).Present?
      && var j := ReadSetup(root, disk).value;
         MayCleanSetup(root, disk, j, entered)
         && disk' == WithLockFile(disk, j.replayState) && p == CleanSetup(j, 0)
    case RemovePairing(stubPath, entered) =>
      && ReadSetup(root, disk).Missing?
      && match ReadCleanup(root, disk) {
           case Invalid => false
           case Present(c) =>
             ResumesPaired(disk, c, stubPath, entered) && MayExecute(root, disk, c)
             && disk' == WithLockFile(disk, c.replayState) && p == CleanPairing(c, 0)
           case Missing =>
             && p.StartCleanup?
             && MayStartPaired(root, disk, stubPath, entered, p.cleanup)
             && disk' == WithLockFile(disk, p.cleanup.replayState)
         }
    case RemoveOrphan(path, entered) =>
      && ReadSetup(root, disk).Missing?
      && match ReadCleanup(root, disk) {
           case Invalid => false
           case Present(c) =>
             ResumesOrphan(c, path, entered) && MayExecute(root, disk, c)
             && disk' == WithLockFile(disk, c.replayState) && p == CleanPairing(c, 0)
           case Missing =>
             && p.StartCleanup?
             && MayStartOrphan(root, disk, path, entered, p.cleanup)
             && disk' == WithLockFile(disk, p.cleanup.replayState)
         }
  }

  // ----- The system -----

  datatype Holder = Holder(pid: nat, program: Program)

  /** Any number of processes; only the holder of the lifecycle lock can act on private files. */
  datatype System = System(disk: Disk, lock: Option<Holder>)

  datatype Event =
    | Acquire(pid: nat, command: Command)
    | Visit(pid: nat, touched: Option<Path>)
    | Continue(pid: nat)
    | Die(pid: nat)
    | Consume(replay: Path, digest: Bytes)
    | PublicFile(path: Path, content: Option<Content>)

  predicate HoldsReplay(p: Program, replay: Path) {
    match p
    case Provision(_, _, _, _) => false
    case Commit(j, _, pc) => pc == 1 && j.replayState == replay
    case CleanSetup(j, _) => j.replayState == replay
    case StartCleanup(c) => c.replayState == replay
    case CleanPairing(c, _) => c.replayState == replay
  }

  function AfterStep(s: System, pid: nat, step: Step): System {
    match step
    case Next(disk, p) => System(disk, Some(Holder(pid, p)))
    case Finished(disk) => System(disk, None)
    case Refused(disk) => System(disk, None)
  }

  ghost predicate Transition(root: string, s: System, e: Event, s': System) {
    match e
    case Acquire(pid, command) =>
      && s.lock == None
      && s'.lock.Some? && s'.lock.value.pid == pid
      && Begins(root, WithLifecycleLock(root, s.disk), command, s'.disk, s'.lock.value.program)
    case Visit(pid, touched) =>
      // A refused command leaves the lifecycle lock file, and at most the file of one replay lock.
      && s.lock == None
      && (touched.Some? ==> touched.value.dir == root && touched.value.name != "")
      && var disk := WithLifecycleLock(root, s.disk);
         s' == System(if touched.Some? then WithLockFile(disk, touched.value) else disk, None)
    case Continue(pid) =>
      && s.lock.Some? && s.lock.value.pid == pid
      && s' == AfterStep(s, pid, Advance(root, s.disk, s.lock.value.program))
    case Die(pid) =>
      && s.lock.Some? && s.lock.value.pid == pid
      && s' == System(s.disk, None)
    case Consume(replay, digest) =>
      // An unwrap consumes a response digest under the replay lock.
      && replay in s.disk && s.disk[replay].Replay?
      && (s.lock.Some? ==> !HoldsReplay(s.lock.value.program, replay))
      && s' == s.(disk := s.disk[replay := s.disk[replay].(consumed := s.disk[replay].consumed + {digest})])
    case PublicFile(path, content) =>
      // The user may change anything outside the private root and delete public stubs anywhere.
      && (path.dir != root || (content == None && StubAt(s.disk, path).Some?))
      && s' == s.(disk := if content == None then s.disk - {path} else s.disk[path := content.value])
  }

  /** Every state of a run is related to the next one by some event. */
  ghost predicate Run(root: string, states: seq<System>, events: seq<Event>) {
    && |states| == |events| + 1
    && forall i :: 0 <= i < |events| ==> Transition(root, states[i], events[i], states[i + 1])
  }
}
