/**
 What the lifecycle programs leave on the disk, file by file and field by field, and what the
 entered confirmation must be.
 */
module LifecycleEffects {
  import opened Records
  import opened Paths
  import opened Disk
  import opened Lifecycle
  import opened LifecycleSafety
  import opened LifecycleRuns
  import opened LifecycleCommit
  import opened LifecycleOpen

  // ----- Order of deletions -----

  lemma InFirst(targets: seq<Path>, n: nat, p: Path)
    requires n <= |targets|
    ensures p in PathSet(targets[0..n]) <==> exists k :: 0 <= k < n && targets[k] == p
  {
    assert forall k :: 0 <= k < n ==> targets[0..n][k] == targets[k];
  }

  /** A cleanup killed after `n` deletions: replay state, its marker, keys, locator, lock, stub. */
  lemma CleanupOrder(root: string, disk: Disk, c: Cleanup, n: nat, p: Path)
    requires n <= if c.target.Paired? then 6 else 5
    ensures var (last, outcome) := Execute(root, disk, CleanPairing(c, 0), n);
            && outcome == Killed
            && (p in last <==>
                  && p in disk
                  && (n >= 1 ==> p != c.replayState)
                  && (n >= 2 ==> p != ReplayPendingPath(c.replayState))
                  && (n >= 3 ==> p != c.desktopState)
                  && (n >= 4 ==> p != c.locatorPath)
                  && (n >= 5 ==> p != ReplayLockPath(c.replayState))
                  && (n >= 6 ==> p != c.target.stubPath))
            && (p in last ==> last[p] == disk[p])
  {
    var targets := CleanupTargets(c);
    CleanPairingRun(root, disk, c, 0, n);
    InFirst(targets, n, p);
    assert targets[0] == c.replayState && targets[1] == ReplayPendingPath(c.replayState);
    assert targets[2] == c.desktopState && targets[3] == c.locatorPath;
    assert targets[4] == ReplayLockPath(c.replayState);
  }

  /** A setup cleanup killed after `n` deletions: keys, replay state, its marker, own locator, stub, lock. */
  lemma SetupCleanupOrder(root: string, disk: Disk, j: Setup, n: nat, p: Path)
    requires n <= if j.candidate.Some? then 6 else 5
    ensures var (last, outcome) := Execute(root, disk, CleanSetup(j, 0), n);
            var paired := if j.candidate.Some? then 1 else 0;
            && outcome == Killed
            && (p in last <==>
                  && p in disk
                  && (n >= 1 ==> p != j.desktopState)
                  && (n >= 2 ==> p != j.replayState)
                  && (n >= 3 ==> p != ReplayPendingPath(j.replayState))
                  && (n >= 4 && paired == 1 ==>
                        p != LocatorPath(root, j.candidate.value.identityId, j.candidate.value.desktopId))
                  && (n >= 4 + paired ==> p != j.identityStub)
                  && (n >= 5 + paired ==> p != ReplayLockPath(j.replayState)))
            && (p in last ==> last[p] == disk[p])
  {
    var targets := SetupTargets(root, j);
    CleanSetupRun(root, disk, j, 0, n);
    InFirst(targets, n, p);
    assert targets[0] == j.desktopState && targets[1] == j.replayState;
    assert targets[2] == ReplayPendingPath(j.replayState);
    if j.candidate.Some? {
      assert targets[3] == LocatorPath(root, j.candidate.value.identityId, j.candidate.value.desktopId);
      assert targets[4] == j.identityStub && targets[5] == ReplayLockPath(j.replayState);
    } else {
      assert targets[3] == j.identityStub && targets[4] == ReplayLockPath(j.replayState);
    }
  }

  // ----- A completed commit -----

  /** The replay file is absent, or already belongs to this pairing, without a pending marker. */
  predicate ReplayUsable(disk: Disk, j: Setup, stub: Stub) {
    && ReplayPendingPath(j.replayState) !in disk
    && (j.replayState in disk ==>
          && disk[j.replayState].Replay?
          && disk[j.replayState].scope.desktopId == stub.desktopId
          && disk[j.replayState].scope.identityId == stub.identityId)
  }

  /** The file is absent or already holds this content. */
  predicate AbsentOr(disk: Disk, p: Path, content: Content) {
    p in disk ==> disk[p] == content
  }

  /** Everything a commit needs, on the disk it starts from. */
  predicate Committable(root: string, disk: Disk, j: Setup, stub: Stub, kind: RecipientType) {
    && j.stage == Confirmed
    && j.desktopState in disk
    && disk[j.desktopState] == Keys(stub.desktopId, stub.desktopSigningKey, stub.desktopSelectionKey)
    && ReplayLockPath(j.replayState) != LifecycleLockPath(root)
    && ReplayUsable(disk, j, stub)
    && NoCleanupOf(root, disk, stub)
    && AbsentOr(disk, LocatorPath(root, stub.identityId, stub.desktopId),
                LocatorFile(PairingLocator(stub.desktopId, stub.identityId, stub.fingerprint,
                                           j.desktopState, j.replayState, j.transport)))
    && AbsentOr(disk, j.identityStub, StubText(stub, kind))
  }

  lemma LocatorStepIff(root: string, disk: Disk, j: Setup, stub: Stub, kind: RecipientType)
    requires ValidSetup(root, j) && DecodableSetup(j) && j.candidate == Some(stub)
    requires j.desktopState in disk && j.replayState in disk
    ensures var path := LocatorPath(root, stub.identityId, stub.desktopId);
            var locator := LocatorFile(PairingLocator(stub.desktopId, stub.identityId, stub.fingerprint,
                                                      j.desktopState, j.replayState, j.transport));
            CommitLocator(root, disk, j, stub, kind)
            == if NoCleanupOf(root, disk, stub) && AbsentOr(disk, path, locator)
               then Next(disk[path := locator], Commit(j, kind, 3)) else Refused(disk)
  {
    hide ValidCleanup, ValidSetup, Extension, LocatorPath, LegacyLocatorPath;
    SetupNames(root, j);
    var path := LocatorPath(root, stub.identityId, stub.desktopId);
    if path in disk && disk[path].LocatorFile? {
      var rec := disk[path].record;
      assert rec == PairingLocator(rec.desktopId, rec.identityId, rec.fingerprint, rec.desktopState, rec.replayState,
                                   rec.transport);
      assert disk[path := disk[path]] == disk;
    }
  }

  /** The disk after the steps before the locator. */
  function Prepared(disk: Disk, j: Setup, stub: Stub): Disk {
    var lock := ReplayLockPath(j.replayState);
    var locked := if lock in disk then disk else disk[lock := LockFile];
    if j.replayState in locked then locked
    else locked[j.replayState := Replay(Scope(stub.desktopId, stub.identityId), {})]
  }

  lemma PreparedSteps(root: string, disk: Disk, j: Setup, stub: Stub, kind: RecipientType)
    requires ReadSetup(root, disk) == Present(j) && j.candidate == Some(stub)
    ensures var ready := && j.stage == Confirmed
                         && j.desktopState in disk
                         && disk[j.desktopState]
                            == Keys(stub.desktopId, stub.desktopSigningKey, stub.desktopSelectionKey)
                         && ReplayLockPath(j.replayState) != LifecycleLockPath(root)
                         && ReplayUsable(disk, j, stub);
            var run := Execute(root, disk, Commit(j, kind, 0), 5);
            if ready then run == Execute(root, Prepared(disk, j, stub), Commit(j, kind, 2), 3) else run.1 == Stopped
  {
    hide ValidCleanup, ValidSetup, Extension, CommitLocator, CommitStub;
    AddedNames(root, j);
    SetupNames(root, j);
    SidecarExtensions(j.replayState);
    var locked := WithLockFile(disk, j.replayState);
    if MayCommit(root, disk, j) && ReplayLockAvailable(root, j.replayState) {
      ExecuteNext(root, disk, Commit(j, kind, 0), locked, Commit(j, kind, 1), 5);
      assert AdvanceCommit(root, locked, j, kind, 1) == CommitReplay(locked, j, stub, kind);
      if ReplayUsable(disk, j, stub) {
        ExecuteNext(root, locked, Commit(j, kind, 1), Prepared(disk, j, stub), Commit(j, kind, 2), 4);
      }
    }
  }

  lemma PreparedFrame(root: string, disk: Disk, j: Setup, stub: Stub)
    requires ReadSetup(root, disk) == Present(j) && j.candidate == Some(stub)
    ensures var (d, path) := (Prepared(disk, j, stub), LocatorPath(root, stub.identityId, stub.desktopId));
            && ReadSetup(root, d) == Present(j) && ReadCleanup(root, d) == ReadCleanup(root, disk)
            && j.replayState in d
            && (path in d <==> path in disk) && (path in disk ==> d[path] == disk[path])
            && (j.identityStub in d <==> j.identityStub in disk)
            && (j.identityStub in disk ==> d[j.identityStub] == disk[j.identityStub])
            && path != j.identityStub && path != j.replayState
  {
    hide ValidCleanup, ValidSetup, Extension;
    SetupNames(root, j);
    OwnLocatorName(root, j);
    SidecarExtensions(j.replayState);
    JournalExtensions(root);
  }

  /** From the locator on: the last three steps and the conditions under which they happen. */
  lemma FinishingSteps(root: string, d: Disk, j: Setup, stub: Stub, kind: RecipientType)
    requires ValidSetup(root, j) && DecodableSetup(j) && j.candidate == Some(stub)
    requires j.desktopState in d && j.replayState in d
    requires LocatorPath(root, stub.identityId, stub.desktopId) != j.identityStub
    ensures var path := LocatorPath(root, stub.identityId, stub.desktopId);
            var locator := LocatorFile(PairingLocator(stub.desktopId, stub.identityId, stub.fingerprint,
                                                      j.desktopState, j.replayState, j.transport));
            var text := StubText(stub, kind);
            var run := Execute(root, d, Commit(j, kind, 2), 3);
            if NoCleanupOf(root, d, stub) && AbsentOr(d, path, locator) && AbsentOr(d, j.identityStub, text)
            then run == (d[path := locator][j.identityStub := text] - {SetupJournalPath(root)}, Completed)
            else run.1 == Stopped
  {
    hide ValidCleanup, ValidSetup, Extension, LocatorPath, CommitLocator, NoCleanupOf;
    var path := LocatorPath(root, stub.identityId, stub.desktopId);
    var locator := LocatorFile(PairingLocator(stub.desktopId, stub.identityId, stub.fingerprint,
                                              j.desktopState, j.replayState, j.transport));
    LocatorStepIff(root, d, j, stub, kind);
    if NoCleanupOf(root, d, stub) && AbsentOr(d, path, locator) {
      var d3 := d[path := locator];
      ExecuteNext(root, d, Commit(j, kind, 2), d3, Commit(j, kind, 3), 3);
      StubDecides(root, d3, j, kind);
      if AbsentOr(d, j.identityStub, StubText(stub, kind)) {
        var d4 := d3[j.identityStub := StubText(stub, kind)];
        assert j.identityStub in d3 ==> d4 == d3;
        ExecuteNext(root, d3, Commit(j, kind, 3), d4, Commit(j, kind, 4), 2);
      }
    }
  }

  /**
   Main result. A resumed or first commit completes exactly if everything it needs is in place and
   nothing it would write is there with another content; it then leaves the locator with all its
   fields from the journal, the stub of this recipient type and a replay file of this scope, keeps
   what was there, and removes only the journal.
   */
  lemma CommitCompletesIff(root: string, disk: Disk, j: Setup, stub: Stub, kind: RecipientType)
    requires ReadSetup(root, disk) == Present(j) && j.candidate == Some(stub)
    ensures var (end, outcome) := Execute(root, disk, Commit(j, kind, 0), 5);
            && outcome == (if Committable(root, disk, j, stub, kind) then Completed else Stopped)
            && (outcome == Completed ==> CommittedDisk(root, disk, j, stub, kind, end))
  {
    hide ValidCleanup, ValidSetup, Extension, LocatorPath, AdvanceCommit, NoCleanupOf, ReplayUsable;
    var d := Prepared(disk, j, stub);
    PreparedSteps(root, disk, j, stub, kind);
    PreparedFrame(root, disk, j, stub);
    SameCleanup(root, disk, d, stub);
    if j.desktopState in disk {
      FinishingSteps(root, d, j, stub, kind);
    }
    if Committable(root, disk, j, stub, kind) {
      EndIsCommitted(root, disk, j, stub, kind);
    }
  }

  lemma SameCleanup(root: string, disk: Disk, d: Disk, stub: Stub)
    requires ReadCleanup(root, d) == ReadCleanup(root, disk)
    ensures NoCleanupOf(root, d, stub) <==> NoCleanupOf(root, disk, stub)
  {
  }

  /** The files of a completed commit, each field written out. */
  ghost predicate CommittedDisk(root: string, disk: Disk, j: Setup, stub: Stub, kind: RecipientType, end: Disk) {
    var lock, path := ReplayLockPath(j.replayState), LocatorPath(root, stub.identityId, stub.desktopId);
    && (forall p :: p in end <==>
          && p != SetupJournalPath(root)
          && (p in disk || p == lock || p == j.replayState || p == path || p == j.identityStub))
    && (forall p :: p in disk && p in end ==> end[p] == disk[p])
    && path in end && j.identityStub in end
    && end[path] == LocatorFile(PairingLocator(stub.desktopId, stub.identityId, stub.fingerprint,
                                               j.desktopState, j.replayState, j.transport))
    && end[j.identityStub] == StubText(stub, kind)
    && (j.replayState !in disk ==>
          j.replayState in end && end[j.replayState] == Replay(Scope(stub.desktopId, stub.identityId), {}))
    && (lock !in disk ==> lock in end && end[lock] == LockFile)
  }

  lemma EndIsCommitted(root: string, disk: Disk, j: Setup, stub: Stub, kind: RecipientType)
    requires ReadSetup(root, disk) == Present(j) && j.candidate == Some(stub)
    requires Committable(root, disk, j, stub, kind)
    ensures var path := LocatorPath(root, stub.identityId, stub.desktopId);
            var locator := LocatorFile(PairingLocator(stub.desktopId, stub.identityId, stub.fingerprint,
                                                      j.desktopState, j.replayState, j.transport));
            CommittedDisk(root, disk, j, stub, kind,
                          Prepared(disk, j, stub)[path := locator][j.identityStub := StubText(stub, kind)]
                          - {SetupJournalPath(root)})
  {
    hide ValidCleanup, ValidSetup, Extension, NoCleanupOf;
    AddedNames(root, j);
    SetupNames(root, j);
    OwnLocatorName(root, j);
    SidecarExtensions(j.replayState);
  }

  lemma CommittedReads(root: string, disk: Disk, j: Setup, stub: Stub, kind: RecipientType, end: Disk)
    requires ReadSetup(root, disk) == Present(j) && j.candidate == Some(stub)
    requires CommittedDisk(root, disk, j, stub, kind, end)
    ensures ReadSetup(root, end).Missing? && ReadCleanup(root, end) == ReadCleanup(root, disk)
    ensures j.desktopState != SetupJournalPath(root)
    ensures j.desktopState.dir == root && j.replayState.dir == root && j.desktopState != j.replayState
  {
    hide ValidCleanup, ValidSetup, Extension;
    SetupNames(root, j);
    AddedNames(root, j);
    OwnLocatorName(root, j);
    JournalExtensions(root);
    assert CleanupJournalPath(root) in end <==> CleanupJournalPath(root) in disk;
  }

  /** After the commit the pairing opens, with the transport chosen at setup. */
  lemma CommittedPairingOpens(root: string, disk: Disk, j: Setup, stub: Stub, kind: RecipientType, end: Disk)
    requires ReadSetup(root, disk) == Present(j) && j.candidate == Some(stub)
    requires Execute(root, disk, Commit(j, kind, 0), 5) == (end, Completed)
    ensures OpenLocator(root, end, stub)
         == Opened(LocatorPath(root, stub.identityId, stub.desktopId),
                   PairingLocator(stub.desktopId, stub.identityId, stub.fingerprint,
                                  j.desktopState, j.replayState, j.transport))
    ensures j.desktopState in end
    ensures end[j.desktopState] == Keys(stub.desktopId, stub.desktopSigningKey, stub.desktopSelectionKey)
  {
    hide ValidCleanup, ValidSetup, Extension, AdvanceCommit, OpenInterleaved, OpenLocator, ReadSetup, ReadCleanup;
    var path := LocatorPath(root, stub.identityId, stub.desktopId);
    var rec := PairingLocator(stub.desktopId, stub.identityId, stub.fingerprint,
                              j.desktopState, j.replayState, j.transport);
    CommitCompletesIff(root, disk, j, stub, kind);
    CommittedReads(root, disk, j, stub, kind, end);
    UndisturbedOpen(root, stub, end);
    OpensIff(root, stub, end, end, end, end, path, rec);
    SameCleanup(root, disk, end, stub);
  }

  // ----- What was entered -----

  /** The text a command was given belongs to these bytes and to no others. */
  ghost predicate Names(entered: string, bytes: Bytes) {
    entered == Hex(bytes) && forall other: Bytes :: entered == Hex(other) ==> other == bytes
  }

  lemma HexNames(bytes: Bytes)
    ensures Names(Hex(bytes), bytes)
  {
    forall other: Bytes | Hex(bytes) == Hex(other)
      ensures other == bytes
    {
      HexInjective(other, bytes);
    }
  }

  /** A pending setup is resumed or removed only with the fingerprint, or before it is known the setup code. */
  lemma SetupNeedsConfirmation(root: string, disk: Disk, command: Command, disk': Disk, p: Program)
    requires Begins(root, disk, command, disk', p) && (command.ResumeSetup? || command.RemoveSetup?)
    ensures p.Commit? || p.CleanSetup?
    ensures ReadSetup(root, disk) == Present(p.setup)
    ensures p.setup.candidate.Some? ==> Names(command.entered, p.setup.candidate.value.fingerprint)
    ensures p.setup.candidate.None? ==> command.RemoveSetup? && Names(command.entered, p.setup.setupCode)
  {
    hide ValidCleanup, ValidSetup, Extension, Hex;
    var j := p.setup;
    HexNames(if j.candidate.Some? then j.candidate.value.fingerprint else j.setupCode);
  }

  /** A pairing is removed only with its own fingerprint, and only the one that was named. */
  lemma RemovalNeedsConfirmation(root: string, disk: Disk, command: Command, disk': Disk, p: Program)
    requires Begins(root, disk, command, disk', p) && (command.RemovePairing? || command.RemoveOrphan?)
    ensures p.StartCleanup? || p.CleanPairing?
    ensures match p.cleanup.target
            case Paired(stub, stubPath) =>
              && command.RemovePairing? && command.stubPath == stubPath && Names(command.entered, stub.fingerprint)
              && (stubPath in disk ==> disk[stubPath].StubText? && disk[stubPath].stub == stub)
            case Orphan(_, _, fingerprint) =>
              && command.RemoveOrphan? && command.locatorPath == p.cleanup.locatorPath
              && Names(command.entered, fingerprint)
  {
    hide ValidCleanup, ValidSetup, Extension, Hex, RemovableState, Exclusive, OpenLocator, CanonicalLocator;
    match p.cleanup.target
    case Paired(stub, _) => HexNames(stub.fingerprint);
    case Orphan(_, _, fingerprint) => HexNames(fingerprint);
  }

  /** Every other file named like a locator is a readable one and names neither of these files. */
  ghost predicate OthersApart(root: string, disk: Disk, own: Path, desktop: Path, replay: Path) {
    forall p :: p in disk && p.dir == root && LooksLikeLocator(p.name) && p != own ==>
                  && disk[p].LocatorFile?
                  && disk[p].record.desktopState.dir == root && disk[p].record.replayState.dir == root
                  && disk[p].record.desktopState != desktop && disk[p].record.replayState != replay
  }

  /** Every removal, also one that goes on, looks at all other locators before it deletes anything. */
  lemma RemovalsScan(root: string, disk: Disk, command: Command, disk': Disk, p: Program)
    requires Begins(root, disk, command, disk', p)
    ensures p.CleanSetup? ==>
              OthersApart(root, disk, if p.setup.candidate.Some?
                                      then LocatorPath(root, p.setup.candidate.value.identityId,
                                                       p.setup.candidate.value.desktopId)
                                      else SetupJournalPath(root), p.setup.desktopState, p.setup.replayState)
    ensures p.StartCleanup? || p.CleanPairing? ==>
              OthersApart(root, disk, p.cleanup.locatorPath, p.cleanup.desktopState, p.cleanup.replayState)
  {
    hide ValidCleanup, ValidSetup, Extension, Hex, RemovableState, OpenLocator, LocatorPath, LegacyLocatorPath;
    hide LooksLikeLocator;
  }

  /** The keys on disk, if they can be read, are those this pairing was made with. */
  predicate KeysAgree(disk: Disk, p: Path, desktopId: Bytes, keys: Option<(Bytes, Bytes)>) {
    p in disk && disk[p].Keys? ==>
      disk[p].desktopId == desktopId && (keys.Some? ==> keys.value == (disk[p].signing, disk[p].selection))
  }

  /** Without readable keys, or without its own replay state, only paths chosen by the program are removed. */
  predicate ChosenByProgram(root: string, c: Cleanup) {
    && c.desktopState == Path(root, "desktop-" + Hex(c.DesktopId()) + ".state")
    && c.replayState == Path(root, "replay-" + Hex(c.DesktopId()) + ".state")
  }

  predicate StateReadable(disk: Disk, c: Cleanup) {
    && c.desktopState in disk && disk[c.desktopState].Keys?
    && c.replayState in disk && disk[c.replayState].Replay?
    && disk[c.replayState].scope.desktopId == c.DesktopId()
    && disk[c.replayState].scope.identityId == c.IdentityId()
    && ReplayPendingPath(c.replayState) !in disk
  }

  /**
   A cleanup that starts records the files of exactly the locator it removes, whose state is that
   pairing's own, and no other locator names one of these files.
   */
  lemma StartedCleanupMeans(root: string, disk: Disk, command: Command, disk': Disk, c: Cleanup)
    requires Begins(root, disk, command, disk', StartCleanup(c))
    ensures c.locatorPath in disk && disk[c.locatorPath].LocatorFile?
    ensures var rec := disk[c.locatorPath].record;
            && (c.desktopState, c.replayState) == (rec.desktopState, rec.replayState)
            && match c.target {
                 case Paired(stub, stubPath) =>
                   && stubPath in disk && disk[stubPath].StubText? && disk[stubPath].stub == stub
                   && rec.desktopId == stub.desktopId && rec.identityId == stub.identityId
                   && rec.fingerprint == stub.fingerprint
                   && KeysAgree(disk, c.desktopState, stub.desktopId,
                                Some((stub.desktopSigningKey, stub.desktopSelectionKey)))
                 case Orphan(desktopId, identityId, fingerprint) =>
                   && rec.desktopId == desktopId && rec.identityId == identityId && rec.fingerprint == fingerprint
                   && KeysAgree(disk, c.desktopState, desktopId, None)
               }
    ensures StateReadable(disk, c) || ChosenByProgram(root, c)
    ensures forall p :: CanonicalLocator(root, disk, p) && p != c.locatorPath ==>
              disk[p].record.desktopState != c.desktopState && disk[p].record.replayState != c.replayState
  {
    hide ValidSetup, Extension, Hex;
    if c.target.Paired? { OpenedIsCanonical(root, disk, c.target.stub); }
    forall p | CanonicalLocator(root, disk, p)
      ensures LooksLikeLocator(p.name)
    {
      LocatorNames(root, disk[p].record.identityId, disk[p].record.desktopId);
    }
  }

  // ----- Names a user may choose -----

  predicate NameCharacters(s: string) {
    forall i :: 0 <= i < |s| ==>
      'a' <= s[i] <= 'z' || '0' <= s[i] <= '9' || s[i] == '.' || s[i] == '-' || s[i] == '_'
  }

  /** A visible name with an extension is accepted exactly if its extension is not a reserved one. */
  lemma ChosenNameIff(stem: string, ext: string)
    requires stem != "" && stem[0] != '.' && NameCharacters(stem) && '.' !in ext
    ensures ExplicitName(stem + "." + ext) <==> NameCharacters(ext) && ext !in {"cbor", "lock", "pending"}
  {
    var name := stem + "." + ext;
    ExtensionOf(stem, ext);
    assert name[0] == stem[0];
    if NameCharacters(ext) {
      assert NameCharacters(name);
    } else {
      var i :| 0 <= i < |ext|
               && !('a' <= ext[i] <= 'z' || '0' <= ext[i] <= '9' || ext[i] == '.' || ext[i] == '-' || ext[i] == '_');
      assert name[|stem| + 1 + i] == ext[i];
    }
  }
}
