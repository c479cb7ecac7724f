/**
 Whole pairing lives. A new setup passes through ten known disks; given up at any of them and
 removed it leaves the disk it started from, and so does a completed one that is cleaned up.
 */
module LifecycleRoundTrip {
  import opened Records
  import opened Paths
  import opened Disk
  import opened Lifecycle
  import opened LifecycleSafety
  import opened LifecycleRuns
  import opened LifecycleCommit
  import opened LifecycleOpen

  /** An accepted new setup whose names nobody has used; explicit names are checked, managed ones are drawn. */
  ghost predicate FreshFor(root: string, disk: Disk, j: Setup, response: Stub) {
    && LifecycleLockPath(root) in disk
    && MaySetup(root, disk, j, response)
    && Exclusive(root, disk, SetupJournalPath(root), j.desktopState, j.replayState)
    && ReplayLockPath(j.replayState) !in disk && ReplayPendingPath(j.replayState) !in disk
    && LocatorPath(root, response.identityId, response.desktopId) !in disk
  }

  // ----- The disks of a setup -----

  /** The setup journal after `n` file operations. */
  function JournalAt(j: Setup, response: Stub, n: nat): Setup {
    if n < 3 then j
    else if n == 3 then j.(stage := Pairing)
    else if n == 4 then j.(stage := ResponseVerified, candidate := Some(response))
    else j.(stage := Confirmed, candidate := Some(response))
  }

  /** The files the setup has made of its own after `n` file operations. */
  function OwnFile(root: string, j: Setup, response: Stub, kind: RecipientType, n: nat, p: Path): Option<Content> {
    if p == SetupJournalPath(root) then Some(SetupFile(JournalAt(j, response, n)))
    else if p == j.desktopState then
      if n == 0 then None
      else if n == 1 then Some(PartialKeys)
      else Some(Keys(response.desktopId, response.desktopSigningKey, response.desktopSelectionKey))
    else if p == ReplayLockPath(j.replayState) then if n >= 6 then Some(LockFile) else None
    else if p == j.replayState then
      if n >= 7 then Some(Replay(Scope(response.desktopId, response.identityId), {})) else None
    else if p == LocatorPath(root, response.identityId, response.desktopId) then
      if n >= 8 then Some(LocatorFile(PairingLocator(response.desktopId, response.identityId, response.fingerprint,
                                                     j.desktopState, j.replayState, j.transport)))
      else None
    else if p == j.identityStub then if n >= 9 then Some(StubText(response, kind)) else None
    else None
  }

  /** The disk is the initial one with exactly the setup's own files added. */
  ghost predicate SetupDisk(root: string, disk0: Disk, j: Setup, response: Stub, kind: RecipientType, n: nat, d: Disk) {
    forall p ::
      var own := OwnFile(root, j, response, kind, n, p);
      && (p in d <==> p in disk0 || own.Some?)
      && (p in d ==> d[p] == if own.Some? then own.value else disk0[p])
  }

  function ProgramAt(j: Setup, response: Stub, kind: RecipientType, n: nat): Program {
    if n < 5 then Provision(JournalAt(j, response, n), response, kind, n)
    else Commit(JournalAt(j, response, n), kind, n - 5)
  }

  /** The six names of a setup differ from each other and from the reserved ones. */
  predicate Separate(root: string, j: Setup, response: Stub) {
    var (desktop, replay, stub) := (j.desktopState, j.replayState, j.identityStub);
    var (lock, pending) := (ReplayLockPath(replay), ReplayPendingPath(replay));
    var (locator, journal) := (LocatorPath(root, response.identityId, response.desktopId), SetupJournalPath(root));
    && desktop.dir == root && replay.dir == root && replay.name != "" && desktop.name != ""
    && desktop != replay && desktop != stub && replay != stub
    && lock !in {desktop, replay, stub} && lock != locator && lock != journal && lock != pending
    && locator !in {desktop, replay, stub} && locator != journal
    && journal !in {desktop, replay, stub}
    && pending !in {desktop, replay, stub} && pending != locator && pending != journal
  }

  /** None of them is the cleanup journal or the lifecycle lock file. */
  predicate Unreserved(root: string, j: Setup, response: Stub) {
    var reserved := {CleanupJournalPath(root), LifecycleLockPath(root)};
    && j.desktopState !in reserved && j.replayState !in reserved && j.identityStub !in reserved
    && ReplayLockPath(j.replayState) != CleanupJournalPath(root)
    && ReplayPendingPath(j.replayState) !in reserved
    && LocatorPath(root, response.identityId, response.desktopId) !in reserved
    && SetupJournalPath(root) !in reserved
  }

  lemma Names(root: string, j: Setup, response: Stub)
    requires ValidSetup(root, j) && |response.desktopId| == 16 && |response.identityId| == 16
    ensures Separate(root, j, response) && Unreserved(root, j, response)
    ensures !LooksLikeLocator(j.desktopState.name) && !LooksLikeLocator(j.replayState.name)
    ensures !LooksLikeLocator(j.identityStub.name) && !LooksLikeLocator(ReplayLockPath(j.replayState).name)
    ensures !LooksLikeLocator(SetupJournalPath(root).name)
    ensures LooksLikeLocator(LocatorPath(root, response.identityId, response.desktopId).name)
  {
    hide ValidSetup, Extension, LooksLikeLocator;
    SetupNames(root, j);
    JournalExtensions(root);
    SidecarExtensions(j.replayState);
    LocatorNames(root, response.identityId, response.desktopId);
    LocatorExtension(LocatorPath(root, response.identityId, response.desktopId).name);
    forall name | LooksLikeLocator(name)
      ensures Extension(name) == Some("cbor")
    {
      LocatorExtension(name);
    }
  }

  // ----- Every step -----

  /** The file that operation `n` writes. */
  function Written(root: string, j: Setup, response: Stub, n: nat): Path {
    if n < 2 then j.desktopState
    else if n < 5 then SetupJournalPath(root)
    else if n == 5 then ReplayLockPath(j.replayState)
    else if n == 6 then j.replayState
    else if n == 7 then LocatorPath(root, response.identityId, response.desktopId)
    else j.identityStub
  }

  lemma OthersUnchanged(root: string, j: Setup, response: Stub, kind: RecipientType, n: nat, q: Path)
    requires n < 9 && q != Written(root, j, response, n)
    ensures OwnFile(root, j, response, kind, n + 1, q) == OwnFile(root, j, response, kind, n, q)
  {
    hide SetupJournalPath, LocatorPath, ReplayLockPath;
  }

  lemma WrittenIsOwn(root: string, j: Setup, response: Stub, kind: RecipientType, n: nat)
    requires Separate(root, j, response) && n < 9
    ensures OwnFile(root, j, response, kind, n + 1, Written(root, j, response, n)).Some?
  {
    hide SetupJournalPath, LocatorPath, ReplayLockPath, ReplayPendingPath;
  }

  lemma OneFileWritten(root: string, disk0: Disk, j: Setup, response: Stub, kind: RecipientType, n: nat, d: Disk)
    requires Separate(root, j, response) && SetupDisk(root, disk0, j, response, kind, n, d) && n < 9
    ensures var p := Written(root, j, response, n);
            OwnFile(root, j, response, kind, n + 1, p).Some?
            && SetupDisk(root, disk0, j, response, kind, n + 1,
                         d[p := OwnFile(root, j, response, kind, n + 1, p).value])
  {
    hide OwnFile, Written, Separate;
    WrittenIsOwn(root, j, response, kind, n);
    forall q | q != Written(root, j, response, n)
      ensures OwnFile(root, j, response, kind, n + 1, q) == OwnFile(root, j, response, kind, n, q)
    {
      OthersUnchanged(root, j, response, kind, n, q);
    }
  }

  lemma FileAt(root: string, disk0: Disk, j: Setup, response: Stub, kind: RecipientType, n: nat, d: Disk, p: Path)
    requires SetupDisk(root, disk0, j, response, kind, n, d) && p !in disk0
    ensures p in d <==> OwnFile(root, j, response, kind, n, p).Some?
    ensures p in d ==> Some(d[p]) == OwnFile(root, j, response, kind, n, p)
  {
  }

  lemma JournalRead(root: string, disk0: Disk, j: Setup, response: Stub, kind: RecipientType, n: nat, d: Disk)
    requires FreshFor(root, disk0, j, response) && SetupDisk(root, disk0, j, response, kind, n, d)
    ensures ReadSetup(root, d) == Present(JournalAt(j, response, n)) && ReadCleanup(root, d).Missing?
    ensures ValidSetup(root, JournalAt(j, response, n)) && DecodableSetup(JournalAt(j, response, n))
  {
    hide Extension, LocatorPath, ReplayLockPath, SetupDisk;
    Names(root, j, response);
    FileAt(root, disk0, j, response, kind, n, d, CleanupJournalPath(root));
    FileAt(root, disk0, j, response, kind, n, d, SetupJournalPath(root));
    StageValid(root, j, response, n);
  }

  lemma StageValid(root: string, j: Setup, response: Stub, n: nat)
    requires ValidSetup(root, j) && DecodableSetup(j) && j.stage == Provisioning
    requires StubIdsSized(response) && response.desktopId == j.desktopId
    ensures ValidSetup(root, JournalAt(j, response, n)) && DecodableSetup(JournalAt(j, response, n))
  {
    hide Extension, ExplicitName, ManagedPaths, Hex;
  }

  /** Provisioning: reservation, keys, and the journal's three stages. */
  lemma ProvisionStep(root: string, disk0: Disk, j: Setup, response: Stub, kind: RecipientType, n: nat, d: Disk)
    requires FreshFor(root, disk0, j, response) && SetupDisk(root, disk0, j, response, kind, n, d) && n < 5
    ensures var step := Advance(root, d, ProgramAt(j, response, kind, n));
            step.Next? && step.program == ProgramAt(j, response, kind, n + 1)
            && SetupDisk(root, disk0, j, response, kind, n + 1, step.disk)
  {
    hide ValidSetup, ValidCleanup, Extension, LocatorPath, ReplayLockPath, ReplayPendingPath, SetupDisk;
    Names(root, j, response);
    FileAt(root, disk0, j, response, kind, n, d, j.desktopState);
    OneFileWritten(root, disk0, j, response, kind, n, d);
  }

  lemma LockStep(root: string, disk0: Disk, j: Setup, response: Stub, kind: RecipientType, d: Disk)
    requires FreshFor(root, disk0, j, response) && SetupDisk(root, disk0, j, response, kind, 5, d)
    ensures Advance(root, d, ProgramAt(j, response, kind, 5))
         == Next(d[ReplayLockPath(j.replayState) := LockFile], ProgramAt(j, response, kind, 6))
  {
    hide ValidSetup, ValidCleanup, Extension, LocatorPath, ReplayLockPath, ReplayPendingPath, SetupDisk, ReadSetup;
    Names(root, j, response);
    JournalRead(root, disk0, j, response, kind, 5, d);
    FileAt(root, disk0, j, response, kind, 5, d, j.desktopState);
    FileAt(root, disk0, j, response, kind, 5, d, ReplayLockPath(j.replayState));
  }

  lemma CommitStep(root: string, disk0: Disk, j: Setup, response: Stub, kind: RecipientType, n: nat, d: Disk)
    requires FreshFor(root, disk0, j, response) && SetupDisk(root, disk0, j, response, kind, n, d) && 5 <= n < 9
    ensures var step := Advance(root, d, ProgramAt(j, response, kind, n));
            step.Next? && step.program == ProgramAt(j, response, kind, n + 1)
            && SetupDisk(root, disk0, j, response, kind, n + 1, step.disk)
  {
    hide ValidSetup, ValidCleanup, Extension, LocatorPath, ReplayLockPath, ReplayPendingPath, SetupDisk, MayCommit;
    Names(root, j, response);
    JournalRead(root, disk0, j, response, kind, n, d);
    OneFileWritten(root, disk0, j, response, kind, n, d);
    if n == 5 {
      LockStep(root, disk0, j, response, kind, d);
    } else if n == 6 {
      FileAt(root, disk0, j, response, kind, n, d, j.replayState);
      FileAt(root, disk0, j, response, kind, n, d, ReplayPendingPath(j.replayState));
    } else if n == 7 {
      FileAt(root, disk0, j, response, kind, n, d, j.desktopState);
      FileAt(root, disk0, j, response, kind, n, d, j.replayState);
      FileAt(root, disk0, j, response, kind, n, d, LocatorPath(root, response.identityId, response.desktopId));
    } else {
      FileAt(root, disk0, j, response, kind, n, d, j.identityStub);
    }
  }

  /** What a setup that lives for `n` file operations leaves. */
  lemma {:induction false} SetupFrom(root: string, disk0: Disk, j: Setup, response: Stub, kind: RecipientType,
                                     k: nat, d: Disk, fuel: nat)
    requires FreshFor(root, disk0, j, response) && SetupDisk(root, disk0, j, response, kind, k, d) && k <= 9
    ensures var (last, outcome) := Execute(root, d, ProgramAt(j, response, kind, k), fuel);
            if k + fuel <= 9 then outcome == Killed && SetupDisk(root, disk0, j, response, kind, k + fuel, last)
            else
              && outcome == Completed && SetupJournalPath(root) !in last
              && exists d9 :: SetupDisk(root, disk0, j, response, kind, 9, d9) && last == d9 - {SetupJournalPath(root)}
    decreases fuel
  {
    hide Advance, SetupDisk, FreshFor;
    if fuel > 0 && k < 9 {
      if k < 5 { ProvisionStep(root, disk0, j, response, kind, k, d); }
      else { CommitStep(root, disk0, j, response, kind, k, d); }
      var next := Advance(root, d, ProgramAt(j, response, kind, k));
      SetupFrom(root, disk0, j, response, kind, k + 1, next.disk, fuel - 1);
    } else if fuel > 0 {
      LastStep(root, j, response, kind, d);
    }
  }

  lemma LastStep(root: string, j: Setup, response: Stub, kind: RecipientType, d: Disk)
    ensures Advance(root, d, ProgramAt(j, response, kind, 9)) == Finished(d - {SetupJournalPath(root)})
  {
  }

  /**
   Main result. A setup killed after any number of file operations leaves exactly the initial disk
   and its own files so far; one that is not killed leaves a complete pairing and no journal.
   */
  lemma SetupProgress(root: string, disk0: Disk, j: Setup, response: Stub, kind: RecipientType, n: nat)
    requires FreshFor(root, disk0, j, response)
    ensures var (last, outcome) := Execute(root, WithJournal(root, disk0, j), Provision(j, response, kind, 0), n);
            if n <= 9 then outcome == Killed && SetupDisk(root, disk0, j, response, kind, n, last)
            else
              && outcome == Completed && SetupJournalPath(root) !in last
              && exists d9 :: SetupDisk(root, disk0, j, response, kind, 9, d9) && last == d9 - {SetupJournalPath(root)}
  {
    hide ValidSetup, Extension;
    SetupBegins(root, disk0, j, response, kind);
    SetupFrom(root, disk0, j, response, kind, 0, WithJournal(root, disk0, j), n);
  }

  lemma SetupBegins(root: string, disk0: Disk, j: Setup, response: Stub, kind: RecipientType)
    requires FreshFor(root, disk0, j, response)
    ensures SetupDisk(root, disk0, j, response, kind, 0, WithJournal(root, disk0, j))
  {
  }

  // ----- Giving up -----

  /** Of all files named like locators, the setup adds only its own. */
  lemma ScanKept(root: string, disk0: Disk, j: Setup, response: Stub, kind: RecipientType, n: nat, d: Disk, own: Path)
    requires FreshFor(root, disk0, j, response) && SetupDisk(root, disk0, j, response, kind, n, d)
    requires n < 8 || own == LocatorPath(root, response.identityId, response.desktopId)
    ensures Exclusive(root, d, own, j.desktopState, j.replayState)
    ensures Exclusive(root, d - {SetupJournalPath(root)}, own, j.desktopState, j.replayState)
  {
    hide ValidSetup, ValidCleanup, Extension, LocatorPath, LegacyLocatorPath, ReplayLockPath, LooksLikeLocator;
    Names(root, j, response);
    forall p | p in d && LooksLikeLocator(p.name) && p != own
      ensures p in disk0 && d[p] == disk0[p] && p != SetupJournalPath(root)
    {
    }
  }

  lemma NoneBefore(root: string, disk0: Disk, j: Setup, response: Stub)
    requires FreshFor(root, disk0, j, response)
    ensures Separate(root, j, response)
    ensures j.desktopState !in disk0 && j.replayState !in disk0 && j.identityStub !in disk0
    ensures ReplayLockPath(j.replayState) !in disk0 && ReplayPendingPath(j.replayState) !in disk0
    ensures LocatorPath(root, response.identityId, response.desktopId) !in disk0 && SetupJournalPath(root) !in disk0
  {
    hide ValidSetup, Extension, LocatorPath, ReplayLockPath, ReplayPendingPath, Exclusive, FreshDesktop;
    Names(root, j, response);
  }

  /** Taking away the setup's own names leaves the initial disk. */
  lemma OwnRemoved(root: string, disk0: Disk, j: Setup, response: Stub, kind: RecipientType, n: nat, d: Disk,
                   locators: set<Path>)
    requires FreshFor(root, disk0, j, response) && SetupDisk(root, disk0, j, response, kind, n, d)
    requires locators <= {LocatorPath(root, response.identityId, response.desktopId)}
    requires n < 8 || LocatorPath(root, response.identityId, response.desktopId) in locators
    ensures WithLockFile(d, j.replayState) - {j.desktopState, j.identityStub}
            - {j.replayState, ReplayPendingPath(j.replayState), ReplayLockPath(j.replayState)}
            - locators - {SetupJournalPath(root)} == disk0
  {
    hide FreshFor, ValidSetup, Extension, LocatorPath, ReplayLockPath, ReplayPendingPath, SetupJournalPath;
    NoneBefore(root, disk0, j, response);
    var gone := WithLockFile(d, j.replayState) - {j.desktopState, j.identityStub}
      - {j.replayState, ReplayPendingPath(j.replayState), ReplayLockPath(j.replayState)}
      - locators - {SetupJournalPath(root)};
    var locator := LocatorPath(root, response.identityId, response.desktopId);
    forall p
      ensures p in gone <==> p in disk0
      ensures p in gone ==> gone[p] == disk0[p]
    {
      if p == locator { assert n < 8 && locator !in locators ==> OwnFile(root, j, response, kind, n, p) == None; }
    }
    assert gone == disk0;
  }

  lemma SetupRemoved(root: string, j: Setup, d: Disk)
    ensures Execute(root, WithLockFile(d, j.replayState), CleanSetup(j, 0), 7)
         == (WithLockFile(d, j.replayState) - {j.desktopState, j.identityStub}
             - {j.replayState, ReplayPendingPath(j.replayState), ReplayLockPath(j.replayState)}
             - (if j.candidate.Some?
                then {LocatorPath(root, j.candidate.value.identityId, j.candidate.value.desktopId)} else {})
             - {SetupJournalPath(root)}, Completed)
  {
    var start := WithLockFile(d, j.replayState);
    hide SetupTargets, LocatorPath, WithLockFile, PathSet;
    CleanSetupRun(root, start, j, 0, 7);
    SetupTargetsAre(root, start, j);
    assert SetupTargets(root, j)[0..] == SetupTargets(root, j);
  }

  /**
   Main result. A setup killed after any number of file operations can be given up with the text
   shown to the user, and giving it up restores the initial disk.
   */
  lemma KilledSetupIsUndone(root: string, disk0: Disk, j: Setup, response: Stub, kind: RecipientType, n: nat)
    requires FreshFor(root, disk0, j, response) && n <= 9
    ensures var d := Execute(root, WithJournal(root, disk0, j), Provision(j, response, kind, 0), n).0;
            var start := WithLockFile(d, j.replayState);
            var pending := JournalAt(j, response, n);
            && Begins(root, d, RemoveSetup(if n < 4 then Hex(j.setupCode) else Hex(response.fingerprint)), start,
                      CleanSetup(pending, 0))
            && Execute(root, start, CleanSetup(pending, 0), 7) == (disk0, Completed)
  {
    hide ValidSetup, ValidCleanup, Extension, SetupDisk, OwnFile, Exclusive, Execute, WithLockFile, Hex;
    SetupProgress(root, disk0, j, response, kind, n);
    var d := Execute(root, WithJournal(root, disk0, j), Provision(j, response, kind, 0), n).0;
    var pending := JournalAt(j, response, n);
    JournalRead(root, disk0, j, response, kind, n, d);
    ScanKept(root, disk0, j, response, kind, n, d, OwnLocator(root, pending));
    ReplayLockIsFree(root, disk0, j);
    SetupRemoved(root, pending, d);
    OwnRemoved(root, disk0, j, response, kind, n, d,
      if n < 4 then {} else {LocatorPath(root, response.identityId, response.desktopId)});
  }

  lemma ReplayLockIsFree(root: string, disk: Disk, j: Setup)
    requires LifecycleLockPath(root) in disk && ReplayLockPath(j.replayState) !in disk
    ensures ReplayLockAvailable(root, j.replayState)
  {
  }

  // ----- A pairing made and removed -----

  /** What a cleanup of the new pairing records. */
  function PairingCleanup(root: string, j: Setup, response: Stub): Cleanup {
    CleanupJournal(Paired(response, j.identityStub), LocatorPath(root, response.identityId, response.desktopId),
                   j.desktopState, j.replayState)
  }

  lemma CleanupValid(root: string, j: Setup, response: Stub)
    requires Separate(root, j, response) && Unreserved(root, j, response) && StubIdsSized(response)
    requires j.desktopState.name != "" && j.replayState.name != ""
    ensures ValidCleanup(root, PairingCleanup(root, j, response))
  {
    hide LegacyLocatorPath, ReplayLockPath, ReplayPendingPath;
    LocatorNames(root, response.identityId, response.desktopId);
  }

  lemma PairingRemoved(root: string, c: Cleanup, d: Disk)
    requires CleanupJournalPath(root) !in WithLockFile(d, c.replayState)
    ensures Execute(root, WithLockFile(d, c.replayState), StartCleanup(c), 8)
         == (WithLockFile(d, c.replayState) - {c.desktopState, c.locatorPath}
             - {c.replayState, ReplayPendingPath(c.replayState), ReplayLockPath(c.replayState)}
             - (if c.target.Paired? then {c.target.stubPath} else {}), Completed)
  {
    var start := WithLockFile(d, c.replayState);
    var journaled := start[CleanupJournalPath(root) := CleanupFile(c)];
    hide CleanupTargets, WithLockFile, PathSet;
    ExecuteNext(root, start, StartCleanup(c), journaled, CleanPairing(c, 0), 8);
    CleanPairingRun(root, journaled, c, 0, 7);
    CleanupTargetsAre(journaled, c);
    CleanupTargetsAre(start, c);
    assert CleanupTargets(c)[0..] == CleanupTargets(c);
    assert journaled - PathSet(CleanupTargets(c)) - {CleanupJournalPath(root)} == start - PathSet(CleanupTargets(c));
  }

  lemma CompletedOpens(root: string, disk0: Disk, j: Setup, response: Stub, kind: RecipientType, d: Disk)
    requires FreshFor(root, disk0, j, response) && SetupDisk(root, disk0, j, response, kind, 9, d)
    ensures var end := d - {SetupJournalPath(root)};
            && ReadSetup(root, end).Missing? && ReadCleanup(root, end).Missing?
            && OpenLocator(root, end, response)
               == Opened(LocatorPath(root, response.identityId, response.desktopId),
                         PairingLocator(response.desktopId, response.identityId, response.fingerprint,
                                        j.desktopState, j.replayState, j.transport))
  {
    hide ValidSetup, ValidCleanup, Extension, LocatorPath, LegacyLocatorPath, OpenInterleaved, OpenLocator, SetupDisk;
    Names(root, j, response);
    var end := d - {SetupJournalPath(root)};
    var locator := LocatorPath(root, response.identityId, response.desktopId);
    JournalRead(root, disk0, j, response, kind, 9, d);
    FileAt(root, disk0, j, response, kind, 9, d, locator);
    UndisturbedOpen(root, response, end);
    OpensIff(root, response, end, end, end, end, locator,
      PairingLocator(response.desktopId, response.identityId, response.fingerprint,
                     j.desktopState, j.replayState, j.transport));
  }

  lemma CompletedRemovable(root: string, disk0: Disk, j: Setup, response: Stub, kind: RecipientType, d: Disk)
    requires FreshFor(root, disk0, j, response) && SetupDisk(root, disk0, j, response, kind, 9, d)
    ensures var end := d - {SetupJournalPath(root)};
            && RemovableState(root, end,
                              PairingLocator(response.desktopId, response.identityId, response.fingerprint,
                                             j.desktopState, j.replayState, j.transport),
                              Some((response.desktopSigningKey, response.desktopSelectionKey)))
            && j.identityStub in end && end[j.identityStub] == StubText(response, kind)
            && WithLockFile(end, j.replayState) == end
  {
    hide ValidSetup, ValidCleanup, Extension, LocatorPath, LegacyLocatorPath, SetupDisk, ManagedPaths;
    Names(root, j, response);
    ReplayLockIsFree(root, disk0, j);
    FileAt(root, disk0, j, response, kind, 9, d, j.desktopState);
    FileAt(root, disk0, j, response, kind, 9, d, j.replayState);
    FileAt(root, disk0, j, response, kind, 9, d, j.identityStub);
    FileAt(root, disk0, j, response, kind, 9, d, ReplayLockPath(j.replayState));
    FileAt(root, disk0, j, response, kind, 9, d, ReplayPendingPath(j.replayState));
  }

  /**
   Main result. A pairing that was set up and confirmed can be removed with its stub file and
   fingerprint, and then the disk is the initial one.
   */
  lemma SetupThenCleanup(root: string, disk0: Disk, j: Setup, response: Stub, kind: RecipientType)
    requires FreshFor(root, disk0, j, response)
    ensures var (end, outcome) := Execute(root, WithJournal(root, disk0, j), Provision(j, response, kind, 0), 10);
            var c := PairingCleanup(root, j, response);
            && outcome == Completed
            && Begins(root, end, RemovePairing(j.identityStub, Hex(response.fingerprint)), end, StartCleanup(c))
            && Execute(root, end, StartCleanup(c), 8) == (disk0, Completed)
  {
    hide ValidSetup, Extension, SetupDisk, OwnFile, Exclusive, Execute, WithLockFile, Hex, OpenLocator, RemovableState;
    SetupProgress(root, disk0, j, response, kind, 10);
    var end := Execute(root, WithJournal(root, disk0, j), Provision(j, response, kind, 0), 10).0;
    var d :| SetupDisk(root, disk0, j, response, kind, 9, d) && end == d - {SetupJournalPath(root)};
    var c := PairingCleanup(root, j, response);
    Names(root, j, response);
    CompletedOpens(root, disk0, j, response, kind, d);
    CompletedRemovable(root, disk0, j, response, kind, d);
    ScanKept(root, disk0, j, response, kind, 9, d, c.locatorPath);
    CleanupValid(root, j, response);
    CompletedStarts(root, end, j, response, kind);
    PairingRemoved(root, c, end);
    OwnRemoved(root, disk0, j, response, kind, 9, d, {c.locatorPath});
    Regrouped(root, d, j, c);
  }

  lemma CompletedStarts(root: string, end: Disk, j: Setup, response: Stub, kind: RecipientType)
    requires ReadSetup(root, end).Missing? && ReadCleanup(root, end).Missing? && StubIdsSized(response)
    requires j.identityStub in end && end[j.identityStub] == StubText(response, kind)
    requires var rec := PairingLocator(response.desktopId, response.identityId, response.fingerprint,
                                       j.desktopState, j.replayState, j.transport);
             && OpenLocator(root, end, response)
                == Opened(LocatorPath(root, response.identityId, response.desktopId), rec)
             && RemovableState(root, end, rec, Some((response.desktopSigningKey, response.desktopSelectionKey)))
    requires Exclusive(root, end, LocatorPath(root, response.identityId, response.desktopId),
                       j.desktopState, j.replayState)
    requires ValidCleanup(root, PairingCleanup(root, j, response)) && WithLockFile(end, j.replayState) == end
    ensures Begins(root, end, RemovePairing(j.identityStub, Hex(response.fingerprint)), end,
                   StartCleanup(PairingCleanup(root, j, response)))
  {
    hide ValidCleanup, Hex, RemovableState, Exclusive, WithLockFile, OpenLocator;
    UndisturbedOpen(root, response, end);
    var p := LocatorPath(root, response.identityId, response.desktopId);
    OpensIff(root, response, end, end, end, end, p, OpenLocator(root, end, response).locator);
  }

  lemma Regrouped(root: string, d: Disk, j: Setup, c: Cleanup)
    requires (c.desktopState, c.replayState) == (j.desktopState, j.replayState)
    requires c.target.Paired? && c.target.stubPath == j.identityStub
    requires WithLockFile(d - {SetupJournalPath(root)}, j.replayState) == d - {SetupJournalPath(root)}
    ensures d - {SetupJournalPath(root)} - {c.desktopState, c.locatorPath}
            - {c.replayState, ReplayPendingPath(c.replayState), ReplayLockPath(c.replayState)}
            - {c.target.stubPath}
         == WithLockFile(d, j.replayState) - {j.desktopState, j.identityStub}
            - {j.replayState, ReplayPendingPath(j.replayState), ReplayLockPath(j.replayState)}
            - {c.locatorPath} - {SetupJournalPath(root)}
  {
  }

  /** What an orphan cleanup of the new pairing records. */
  function OrphanCleanup(root: string, j: Setup, response: Stub): Cleanup {
    CleanupJournal(Orphan(response.desktopId, response.identityId, response.fingerprint),
                   LocatorPath(root, response.identityId, response.desktopId), j.desktopState, j.replayState)
  }

  lemma OrphanValid(root: string, j: Setup, response: Stub)
    requires Separate(root, j, response) && Unreserved(root, j, response) && StubIdsSized(response)
    ensures ValidCleanup(root, OrphanCleanup(root, j, response))
  {
    hide LegacyLocatorPath, ReplayLockPath, ReplayPendingPath;
    LocatorNames(root, response.identityId, response.desktopId);
  }

  /** The pairing's locator and state, once its public stub was deleted. */
  lemma OrphanStarts(root: string, disk0: Disk, j: Setup, response: Stub, kind: RecipientType, d: Disk)
    requires FreshFor(root, disk0, j, response) && SetupDisk(root, disk0, j, response, kind, 9, d)
    ensures var end := d - {SetupJournalPath(root)} - {j.identityStub};
            var p := LocatorPath(root, response.identityId, response.desktopId);
            && ReadSetup(root, end).Missing? && ReadCleanup(root, end).Missing?
            && CanonicalLocator(root, end, p)
            && OrphanJournal(end, p) == OrphanCleanup(root, j, response)
            && RemovableState(root, end, end[p].record, None)
            && WithLockFile(end, j.replayState) == end
  {
    hide ValidSetup, ValidCleanup, Extension, LegacyLocatorPath, SetupDisk, ManagedPaths, LooksLikeLocator;
    Names(root, j, response);
    ReplayLockIsFree(root, disk0, j);
    JournalRead(root, disk0, j, response, kind, 9, d);
    FileAt(root, disk0, j, response, kind, 9, d, j.desktopState);
    FileAt(root, disk0, j, response, kind, 9, d, j.replayState);
    FileAt(root, disk0, j, response, kind, 9, d, LocatorPath(root, response.identityId, response.desktopId));
    FileAt(root, disk0, j, response, kind, 9, d, ReplayLockPath(j.replayState));
    FileAt(root, disk0, j, response, kind, 9, d, ReplayPendingPath(j.replayState));
  }

  /** A pairing whose stub file was deleted can be removed by its locator and fingerprint. */
  lemma OrphanThenCleanup(root: string, disk0: Disk, j: Setup, response: Stub, kind: RecipientType)
    requires FreshFor(root, disk0, j, response)
    ensures var end := Execute(root, WithJournal(root, disk0, j), Provision(j, response, kind, 0), 10).0
                       - {j.identityStub};
            var c := OrphanCleanup(root, j, response);
            && Begins(root, end, RemoveOrphan(c.locatorPath, Hex(response.fingerprint)), end, StartCleanup(c))
            && Execute(root, end, StartCleanup(c), 8) == (disk0, Completed)
  {
    hide ValidSetup, ValidCleanup, Extension, SetupDisk, OwnFile, Exclusive, Execute, WithLockFile, Hex;
    hide RemovableState, LocatorPath, LegacyLocatorPath, FreshFor, CanonicalLocator;
    SetupProgress(root, disk0, j, response, kind, 10);
    var completed := Execute(root, WithJournal(root, disk0, j), Provision(j, response, kind, 0), 10).0;
    var d :| SetupDisk(root, disk0, j, response, kind, 9, d) && completed == d - {SetupJournalPath(root)};
    var end := completed - {j.identityStub};
    var c := OrphanCleanup(root, j, response);
    FreshIsValid(root, disk0, j, response);
    Names(root, j, response);
    OrphanStarts(root, disk0, j, response, kind, d);
    OrphanValid(root, j, response);
    ScanKept(root, disk0, j, response, kind, 9, d, c.locatorPath);
    ScanSmaller(root, completed, j.identityStub, c);
    PairingRemoved(root, c, end);
    OwnRemoved(root, disk0, j, response, kind, 9, d, {c.locatorPath});
    RegroupedOrphan(root, d, j, c);
  }

  lemma FreshIsValid(root: string, disk0: Disk, j: Setup, response: Stub)
    requires FreshFor(root, disk0, j, response)
    ensures ValidSetup(root, j) && StubIdsSized(response)
  {
  }

  lemma ScanSmaller(root: string, d: Disk, stub: Path, c: Cleanup)
    requires Exclusive(root, d, c.locatorPath, c.desktopState, c.replayState)
    ensures Exclusive(root, d - {stub}, c.locatorPath, c.desktopState, c.replayState)
  {
    hide LocatorPath, LegacyLocatorPath, LooksLikeLocator;
    forall p | p in d - {stub} && p.dir == root && LooksLikeLocator(p.name) && p != c.locatorPath
      ensures CanonicalLocator(root, d - {stub}, p)
    {
      assert CanonicalLocator(root, d, p);
    }
  }

  lemma RegroupedOrphan(root: string, d: Disk, j: Setup, c: Cleanup)
    requires (c.desktopState, c.replayState) == (j.desktopState, j.replayState) && c.target.Orphan?
    requires var end := d - {SetupJournalPath(root)} - {j.identityStub}; WithLockFile(end, j.replayState) == end
    ensures d - {SetupJournalPath(root)} - {j.identityStub} - {c.desktopState, c.locatorPath}
            - {c.replayState, ReplayPendingPath(c.replayState), ReplayLockPath(c.replayState)}
            - (if c.target.Paired? then {c.target.stubPath} else {})
         == WithLockFile(d, j.replayState) - {j.desktopState, j.identityStub}
            - {j.replayState, ReplayPendingPath(j.replayState), ReplayLockPath(j.replayState)}
            - {c.locatorPath} - {SetupJournalPath(root)}
  {
  }

  // ----- The assumptions can be met -----

  /** On a root that was never used, the setup with paths chosen by the program is accepted and fresh. */
  lemma FirstSetupIsFresh(root: string, code: Bytes, response: Stub, transport: TransportChoice)
    requires StubIdsSized(response)
    ensures var (desktop, replay, stub) := ManagedPaths(root, response.desktopId);
            FreshFor(root, map[LifecycleLockPath(root) := LockFile],
                     SetupJournal(false, Provisioning, code, response.desktopId, desktop, replay, stub, transport,
                                  None),
                     response)
  {
    var (desktop, replay, stub) := ManagedPaths(root, response.desktopId);
    var j := SetupJournal(false, Provisioning, code, response.desktopId, desktop, replay, stub, transport, None);
    assert ValidSetup(root, j);
    Names(root, j, response);
    var lock := LifecycleLockPath(root);
    JournalExtensions(root);
    ReplayLockIsLifecycleLock(root, replay);
    assert !LooksLikeLocator(lock.name) by {
      if LooksLikeLocator(lock.name) { LocatorExtension(lock.name); }
    }
    assert replay.name[0] == 'r';
  }
}
