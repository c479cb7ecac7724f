/**
 The lifecycle lock is itself a file of the private root. Because every command creates it before
 it looks at anything else, no journal and no locator ever names the one replay file whose lock
 it would be, so the replay lock of every pairing can be taken by the holder of the lifecycle lock.
 */
module LifecycleLock {
  import opened Records
  import opened Paths
  import opened Disk
  import opened Lifecycle
  import opened LifecycleSafety

  /** No record names the replay file whose lock is the lifecycle lock. */
  ghost predicate Clear(root: string, disk: Disk) {
    && (LifecycleLockPath(root) in disk ==> disk[LifecycleLockPath(root)].LockFile?)
    && (ReadSetup(root, disk).Present? ==> ReplayLockAvailable(root, ReadSetup(root, disk).value.replayState))
    && (ReadCleanup(root, disk).Present? ==> ReplayLockAvailable(root, ReadCleanup(root, disk).value.replayState))
    && forall p :: CanonicalLocator(root, disk, p) ==> ReplayLockAvailable(root, disk[p].record.replayState)
  }

  ghost predicate ClearSystem(root: string, s: System) {
    && Clear(root, s.disk)
    && (s.lock.Some? ==>
          && LifecycleLockPath(root) in s.disk
          && (s.lock.value.program.StartCleanup? ==>
                ReplayLockAvailable(root, s.lock.value.program.cleanup.replayState)))
  }

  // ----- New records -----

  /** A setup accepted under the lifecycle lock never claims that lock as its replay lock. */
  lemma AcceptedSetupIsClear(root: string, disk: Disk, j: Setup, response: Stub)
    requires LifecycleLockPath(root) in disk && MaySetup(root, disk, j, response)
    ensures ReplayLockAvailable(root, j.replayState) && j.replayState != Path(root, "desktop-cleanup")
  {
    ReplayLockIsLifecycleLock(root, j.replayState);
    if !j.explicitPaths { ManagedIsClear(root, j.desktopId); }
  }

  lemma ManagedIsClear(root: string, desktopId: Bytes)
    ensures ReplayLockAvailable(root, ManagedPaths(root, desktopId).1)
  {
    var name := ReplayLockPath(ManagedPaths(root, desktopId).1).name;
    assert name[0] == 'r' && LifecycleLockPath(root).name[0] == 'd';
  }

  // ----- Frames -----

  /** Locators of the new disk are old ones, or their replay lock can be taken. */
  lemma ClearKept(root: string, disk: Disk, disk': Disk)
    requires Clear(root, disk)
    requires LifecycleLockPath(root) in disk' ==> disk'[LifecycleLockPath(root)].LockFile?
    requires ReadSetup(root, disk').Present? ==> ReplayLockAvailable(root, ReadSetup(root, disk').value.replayState)
    requires ReadCleanup(root, disk').Present? ==> ReplayLockAvailable(root, ReadCleanup(root, disk').value.replayState)
    requires forall p :: p in disk' && disk'[p].LocatorFile? ==>
      (p in disk && disk[p] == disk'[p]) || ReplayLockAvailable(root, disk'[p].record.replayState)
    ensures Clear(root, disk')
  {
    forall p | CanonicalLocator(root, disk', p)
      ensures ReplayLockAvailable(root, disk'[p].record.replayState)
    {
      if p in disk && disk[p] == disk'[p] { assert CanonicalLocator(root, disk, p); }
    }
  }

  /** Writing anything but a locator or a journal elsewhere than over the lifecycle lock. */
  lemma ClearWrite(root: string, disk: Disk, q: Path, content: Content)
    requires Clear(root, disk) && !content.LocatorFile?
    requires q != SetupJournalPath(root) && q != CleanupJournalPath(root)
    requires q == LifecycleLockPath(root) ==> content.LockFile?
    ensures Clear(root, disk[q := content])
  {
    ClearKept(root, disk, disk[q := content]);
  }

  lemma ClearRemove(root: string, disk: Disk, q: Path)
    requires Clear(root, disk) && q != LifecycleLockPath(root)
    ensures Clear(root, disk - {q})
  {
    ClearKept(root, disk, disk - {q});
  }

  /** The lifecycle lock is no state, stub, journal, locator or pending file. */
  lemma LockName(root: string, q: Path)
    requires Plain(q.name) || Extension(q.name) == Some("cbor") || Extension(q.name) == Some("pending")
    ensures q != LifecycleLockPath(root)
  {
    JournalExtensions(root);
  }

  lemma LockFileClear(root: string, disk: Disk, replay: Path)
    requires Clear(root, disk) && replay.name != ""
    ensures Clear(root, WithLockFile(disk, replay))
    ensures LifecycleLockPath(root) in disk ==> LifecycleLockPath(root) in WithLockFile(disk, replay)
  {
    SidecarExtensions(replay);
    JournalExtensions(root);
    if ReplayLockPath(replay) !in disk { ClearWrite(root, disk, ReplayLockPath(replay), LockFile); }
  }

  lemma LifecycleLockClear(root: string, disk: Disk)
    requires Clear(root, disk)
    ensures Clear(root, WithLifecycleLock(root, disk)) && LifecycleLockPath(root) in WithLifecycleLock(root, disk)
  {
    JournalExtensions(root);
    if LifecycleLockPath(root) !in disk { ClearWrite(root, disk, LifecycleLockPath(root), LockFile); }
  }

  // ----- Program steps -----

  ghost predicate ClearStep(root: string, step: Step) {
    match step
    case Next(disk, p) =>
      && Clear(root, disk) && LifecycleLockPath(root) in disk
      && !p.StartCleanup?
    case Finished(disk) => Clear(root, disk)
    case Refused(disk) => Clear(root, disk)
  }

  lemma JournalClear(root: string, disk: Disk, j: Setup)
    requires Clear(root, disk) && ReplayLockAvailable(root, j.replayState)
    ensures Clear(root, WithJournal(root, disk, j))
  {
    JournalExtensions(root);
    assert SetupJournalPath(root) != LifecycleLockPath(root) && SetupJournalPath(root) != CleanupJournalPath(root);
    ClearKept(root, disk, WithJournal(root, disk, j));
  }

  lemma ProvisionClear(root: string, disk: Disk, j: Setup, response: Stub, kind: RecipientType, pc: nat)
    requires Clear(root, disk) && LifecycleLockPath(root) in disk
    requires ReadSetup(root, disk) == Present(j)
    ensures ClearStep(root, AdvanceProvision(root, disk, j, response, kind, pc))
  {
    hide Extension;
    SetupNames(root, j);
    JournalExtensions(root);
    LockName(root, j.desktopState);
    LockName(root, SetupJournalPath(root));
    if pc == 0 {
      ClearWrite(root, disk, j.desktopState, PartialKeys);
    } else if pc == 1 {
      ClearWrite(root, disk, j.desktopState, KeysOf(response));
    } else if pc == 2 {
      JournalClear(root, disk, j.(stage := Pairing));
    } else if pc == 3 {
      JournalClear(root, disk, j.(stage := ResponseVerified, candidate := Some(response)));
    } else {
      JournalClear(root, disk, j.(stage := Confirmed));
    }
  }

  lemma CommitClear(root: string, disk: Disk, j: Setup, kind: RecipientType, pc: nat)
    requires Clear(root, disk) && LifecycleLockPath(root) in disk
    requires ReadSetup(root, disk) == Present(j)
    ensures ClearStep(root, AdvanceCommit(root, disk, j, kind, pc))
  {
    hide Extension;
    SetupNames(root, j);
    JournalExtensions(root);
    LockName(root, j.replayState);
    LockName(root, j.identityStub);
    LockName(root, SetupJournalPath(root));
    if pc == 0 {
      LockFileClear(root, disk, j.replayState);
    } else if pc >= 4 {
      ClearRemove(root, disk, SetupJournalPath(root));
    } else if j.candidate.Some? {
      var stub := j.candidate.value;
      if pc == 1 {
        ClearWrite(root, disk, j.replayState, Replay(Scope(stub.desktopId, stub.identityId), {}));
      } else if pc == 2 {
        LocatorClear(root, disk, j, stub, kind);
      } else {
        ClearWrite(root, disk, j.identityStub, StubText(stub, kind));
      }
    }
  }

  lemma LocatorClear(root: string, disk: Disk, j: Setup, stub: Stub, kind: RecipientType)
    requires Clear(root, disk) && LifecycleLockPath(root) in disk
    requires ReadSetup(root, disk) == Present(j) && j.candidate == Some(stub)
    ensures ClearStep(root, CommitLocator(root, disk, j, stub, kind))
  {
    hide Extension;
    var path := LocatorPath(root, stub.identityId, stub.desktopId);
    LocatorNames(root, stub.identityId, stub.desktopId);
    LocatorExtension(path.name);
    LockName(root, path);
    JournalExtensions(root);
    if path !in disk { ClearKept(root, disk, disk[path := LocatorFile(LocatorOf(j, stub))]); }
  }

  lemma CleanSetupClear(root: string, disk: Disk, j: Setup, pc: nat)
    requires Clear(root, disk) && LifecycleLockPath(root) in disk
    requires ReadSetup(root, disk) == Present(j)
    ensures ClearStep(root, Advance(root, disk, CleanSetup(j, pc)))
  {
    hide Extension;
    var targets := SetupTargets(root, j);
    JournalExtensions(root);
    LockName(root, SetupJournalPath(root));
    if pc < |targets| {
      SetupTargetAt(root, j, pc);
      SetupTargetClear(root, j, targets[pc]);
      ClearRemove(root, disk, targets[pc]);
    } else {
      ClearRemove(root, disk, SetupJournalPath(root));
    }
  }

  lemma SetupTargetClear(root: string, j: Setup, q: Path)
    requires ValidSetup(root, j) && DecodableSetup(j) && ReplayLockAvailable(root, j.replayState)
    requires SetupTarget(root, j, q)
    ensures q != LifecycleLockPath(root)
  {
    SetupNames(root, j);
    SidecarExtensions(j.replayState);
    if j.candidate.Some? && q == OwnLocator(root, j) {
      LocatorNames(root, j.candidate.value.identityId, j.candidate.value.desktopId);
      LocatorExtension(q.name);
    }
    if q != ReplayLockPath(j.replayState) { LockName(root, q); }
  }

  lemma CleanPairingClear(root: string, disk: Disk, c: Cleanup, pc: nat)
    requires Clear(root, disk) && LifecycleLockPath(root) in disk
    requires ReadCleanup(root, disk) == Present(c)
    ensures ClearStep(root, Advance(root, disk, CleanPairing(c, pc)))
  {
    var targets := CleanupTargets(c);
    JournalExtensions(root);
    LockName(root, CleanupJournalPath(root));
    if pc < |targets| {
      CleanupTargetAt(c, pc);
      CleanupTargetClear(root, c, targets[pc]);
      ClearRemove(root, disk, targets[pc]);
    } else {
      ClearRemove(root, disk, CleanupJournalPath(root));
    }
  }

  lemma CleanupTargetClear(root: string, c: Cleanup, q: Path)
    requires ValidCleanup(root, c) && ReplayLockAvailable(root, c.replayState) && CleanupTargetPath(c, q)
    ensures q != LifecycleLockPath(root)
  {
    SidecarExtensions(c.replayState);
    if q == ReplayPendingPath(c.replayState) { LockName(root, q); }
  }

  lemma StartCleanupClear(root: string, disk: Disk, c: Cleanup)
    requires Clear(root, disk) && LifecycleLockPath(root) in disk && ReplayLockAvailable(root, c.replayState)
    ensures ClearStep(root, Advance(root, disk, StartCleanup(c)))
  {
    JournalExtensions(root);
    assert CleanupJournalPath(root) != LifecycleLockPath(root) && CleanupJournalPath(root) != SetupJournalPath(root);
    ClearKept(root, disk, disk[CleanupJournalPath(root) := CleanupFile(c)]);
  }

  lemma AdvanceClear(root: string, disk: Disk, p: Program)
    requires GoodDisk(root, disk) && GoodProgram(root, disk, p)
    requires Clear(root, disk) && LifecycleLockPath(root) in disk
    requires p.StartCleanup? ==> ReplayLockAvailable(root, p.cleanup.replayState)
    ensures ClearStep(root, Advance(root, disk, p))
  {
    match p
    case Provision(j, response, kind, pc) => ProvisionClear(root, disk, j, response, kind, pc);
    case Commit(j, kind, pc) => CommitClear(root, disk, j, kind, pc);
    case CleanSetup(j, pc) => CleanSetupClear(root, disk, j, pc);
    case StartCleanup(c) => StartCleanupClear(root, disk, c);
    case CleanPairing(c, pc) => CleanPairingClear(root, disk, c, pc);
  }

  // ----- Commands and the other events -----

  lemma BeginsClear(root: string, disk: Disk, command: Command, disk': Disk, p: Program)
    requires GoodDisk(root, disk) && Clear(root, disk) && LifecycleLockPath(root) in disk
    requires Begins(root, disk, command, disk', p)
    ensures Clear(root, disk') && LifecycleLockPath(root) in disk'
    ensures p.StartCleanup? ==> ReplayLockAvailable(root, p.cleanup.replayState)
  {
    hide Extension;
    match command
    case NewSetup(j, response, kind) =>
      AcceptedSetupIsClear(root, disk, j, response);
      JournalClear(root, disk, j);
    case ResumeSetup(entered, kind) =>
    case RemoveSetup(entered) =>
      var j := ReadSetup(root, disk).value;
      SetupNames(root, j);
      LockFileClear(root, disk, j.replayState);
    case RemovePairing(stubPath, entered) =>
      RemovalClear(root, disk, if ReadCleanup(root, disk).Missing? then p.cleanup else ReadCleanup(root, disk).value);
    case RemoveOrphan(path, entered) =>
      RemovalClear(root, disk, if ReadCleanup(root, disk).Missing? then p.cleanup else ReadCleanup(root, disk).value);
  }

  lemma RemovalClear(root: string, disk: Disk, c: Cleanup)
    requires Clear(root, disk) && LifecycleLockPath(root) in disk && ValidCleanup(root, c)
    ensures Clear(root, WithLockFile(disk, c.replayState))
    ensures LifecycleLockPath(root) in WithLockFile(disk, c.replayState)
  {
    LockFileClear(root, disk, c.replayState);
  }

  lemma TransitionClear(root: string, s: System, e: Event, s': System)
    requires Good(root, s) && ClearSystem(root, s) && Transition(root, s, e, s')
    ensures ClearSystem(root, s')
  {
    hide ValidSetup, ValidCleanup, Extension;
    JournalExtensions(root);
    match e
    case Acquire(pid, command) =>
      KeepLifecycleLock(root, s.disk);
      LifecycleLockClear(root, s.disk);
      BeginsClear(root, WithLifecycleLock(root, s.disk), command, s'.disk, s'.lock.value.program);
    case Visit(pid, replay) =>
      LifecycleLockClear(root, s.disk);
      if replay.Some? { LockFileClear(root, WithLifecycleLock(root, s.disk), replay.value); }
    case Continue(pid) =>
      AdvanceClear(root, s.disk, s.lock.value.program);
    case Die(pid) =>
    case Consume(replay, digest) =>
      ConsumeFrame(root, s, replay, digest, s');
      ClearWrite(root, s.disk, replay, s'.disk[replay]);
    case PublicFile(path, content) =>
      PublicClear(root, s, path, content, s');
  }

  lemma PublicClear(root: string, s: System, path: Path, content: Option<Content>, s': System)
    requires Good(root, s) && ClearSystem(root, s) && Transition(root, s, PublicFile(path, content), s')
    ensures ClearSystem(root, s')
  {
    hide ValidSetup, ValidCleanup, Extension;
    forall p | CanonicalLocator(root, s'.disk, p)
      ensures ReplayLockAvailable(root, s'.disk[p].record.replayState)
    {
      assert p != path && CanonicalLocator(root, s.disk, p);
    }
  }

  lemma {:induction false} EveryStateIsClear(root: string, states: seq<System>, events: seq<Event>)
    requires Run(root, states, events) && Good(root, states[0]) && ClearSystem(root, states[0])
    ensures forall s :: s in states ==> ClearSystem(root, s)
    decreases |events|
  {
    if events != [] {
      var n := |events| - 1;
      assert Run(root, states[..n + 1], events[..n]);
      EveryStateIsClear(root, states[..n + 1], events[..n]);
      EveryStateIsGood(root, states[..n + 1], events[..n]);
      assert states[n] in states[..n + 1];
      assert Transition(root, states[n], events[n], states[n + 1]);
      TransitionClear(root, states[n], events[n], states[n + 1]);
      assert states == states[..n + 1] + [states[n + 1]];
    }
  }

  lemma EmptyRootIsClear(root: string)
    ensures ClearSystem(root, System(map[], None))
  {
  }

  /**
   Main result. In every state reachable from an empty root, no setup journal, cleanup journal or
   locator names the replay file `desktop-cleanup`: none has the lifecycle lock as its replay lock.
   */
  lemma ReplayLocksNeverClash(root: string, states: seq<System>, events: seq<Event>, s: System)
    requires Run(root, states, events) && states[0] == System(map[], None) && s in states
    ensures ReadSetup(root, s.disk).Present? ==>
              ReadSetup(root, s.disk).value.replayState != Path(root, "desktop-cleanup")
    ensures ReadCleanup(root, s.disk).Present? ==>
              ReadCleanup(root, s.disk).value.replayState != Path(root, "desktop-cleanup")
    ensures forall p :: CanonicalLocator(root, s.disk, p) ==>
              s.disk[p].record.replayState != Path(root, "desktop-cleanup")
    ensures s.lock.Some? ==> LifecycleLockPath(root) in s.disk
  {
    EmptyRootIsGood(root);
    EveryStateIsClear(root, states, events);
    ReplayLockIsLifecycleLock(root, Path(root, "desktop-cleanup"));
  }
}
