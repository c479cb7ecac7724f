/**
 Interrupted operations: a program is killed after any number of file operations and the
 command is issued again. Removals converge to the initial disk without exactly the recorded
 targets; commits converge to the disk of one uninterrupted commit.
 */
module LifecycleRuns {
  import opened Records
  import opened Paths
  import opened Disk
  import opened Lifecycle
  import opened LifecycleSafety

  datatype Outcome = Completed | Stopped | Killed

  /** Runs a program for at most `fuel` file operations. */
  function Execute(root: string, disk: Disk, p: Program, fuel: nat): (Disk, Outcome)
    decreases fuel
  {
    if fuel == 0 then (disk, Killed)
    else
      match Advance(root, disk, p)
      case Next(disk', p') => Execute(root, disk', p', fuel - 1)
      case Finished(disk') => (disk', Completed)
      case Refused(disk') => (disk', Stopped)
  }

  function PathSet(paths: seq<Path>): set<Path> {
    set p | p in paths
  }

  /** How far a removal of `targets` and then `journal` gets, starting at target `pc`. */
  function RemoveRun(disk: Disk, targets: seq<Path>, journal: Path, pc: nat, fuel: nat): (Disk, Outcome)
    requires pc <= |targets|
  {
    if pc + fuel <= |targets| then (disk - PathSet(targets[pc..pc + fuel]), Killed)
    else (disk - PathSet(targets[pc..]) - {journal}, Completed)
  }

  lemma RemoveRunStep(disk: Disk, targets: seq<Path>, journal: Path, pc: nat, fuel: nat)
    requires pc < |targets| && fuel > 0
    ensures RemoveRun(disk, targets, journal, pc, fuel)
         == RemoveRun(disk - {targets[pc]}, targets, journal, pc + 1, fuel - 1)
  {
    var n := if pc + fuel <= |targets| then pc + fuel else |targets|;
    assert targets[pc..] == targets[pc..|targets|] && targets[pc + 1..] == targets[pc + 1..|targets|];
    assert targets[pc..n] == [targets[pc]] + targets[pc + 1..n];
    assert PathSet(targets[pc..n]) == {targets[pc]} + PathSet(targets[pc + 1..n]);
    assert disk - PathSet(targets[pc..n]) == disk - {targets[pc]} - PathSet(targets[pc + 1..n]);
  }

  lemma {:induction false} CleanPairingRun(root: string, disk: Disk, c: Cleanup, pc: nat, fuel: nat)
    requires pc <= |CleanupTargets(c)|
    ensures Execute(root, disk, CleanPairing(c, pc), fuel)
         == RemoveRun(disk, CleanupTargets(c), CleanupJournalPath(root), pc, fuel)
    decreases fuel
  {
    var targets := CleanupTargets(c);
    if fuel == 0 {
      assert disk - PathSet(targets[pc..pc]) == disk;
    } else if pc < |targets| {
      CleanPairingRun(root, disk - {targets[pc]}, c, pc + 1, fuel - 1);
      RemoveRunStep(disk, targets, CleanupJournalPath(root), pc, fuel);
    } else {
      assert disk - PathSet(targets[pc..]) == disk;
    }
  }

  lemma {:induction false} CleanSetupRun(root: string, disk: Disk, j: Setup, pc: nat, fuel: nat)
    requires pc <= |SetupTargets(root, j)|
    ensures Execute(root, disk, CleanSetup(j, pc), fuel)
         == RemoveRun(disk, SetupTargets(root, j), SetupJournalPath(root), pc, fuel)
    decreases fuel
  {
    var targets := SetupTargets(root, j);
    if fuel == 0 {
      assert disk - PathSet(targets[pc..pc]) == disk;
    } else if pc < |targets| {
      CleanSetupRun(root, disk - {targets[pc]}, j, pc + 1, fuel - 1);
      RemoveRunStep(disk, targets, SetupJournalPath(root), pc, fuel);
    } else {
      assert disk - PathSet(targets[pc..]) == disk;
    }
  }

  // ----- Removals resume and remove exactly their targets -----

  /** `disk` is `disk0` with some targets gone; the replay lock file may have been created again. */
  ghost predicate PartlyRemoved(disk0: Disk, disk: Disk, targets: seq<Path>, lock: Path) {
    forall p ::
      && (p !in targets ==> (p in disk <==> p in disk0) && (p in disk ==> disk[p] == disk0[p]))
      && (p in targets && p in disk && p != lock ==> p in disk0 && disk[p] == disk0[p])
  }

  lemma RemoveKeepsPartly(disk0: Disk, disk: Disk, targets: seq<Path>, lock: Path, n: nat)
    requires PartlyRemoved(disk0, disk, targets, lock) && n <= |targets|
    ensures PartlyRemoved(disk0, disk - PathSet(targets[0..n]), targets, lock)
  {
  }

  lemma RemoveAllIsExact(disk0: Disk, disk: Disk, targets: seq<Path>, lock: Path, journal: Path)
    requires PartlyRemoved(disk0, disk, targets, lock)
    ensures disk - PathSet(targets[0..]) - {journal} == disk0 - PathSet(targets) - {journal}
  {
    assert targets[0..] == targets;
  }

  /** How far a removal from the first target on got, relative to an earlier disk. */
  lemma RemoveRunResult(disk0: Disk, disk: Disk, targets: seq<Path>, lock: Path, journal: Path, fuel: nat)
    requires PartlyRemoved(disk0, disk, targets, lock)
    ensures var (last, outcome) := RemoveRun(disk, targets, journal, 0, fuel);
            if fuel <= |targets| then outcome == Killed && PartlyRemoved(disk0, last, targets, lock)
            else outcome == Completed && last == disk0 - PathSet(targets) - {journal}
  {
    hide PartlyRemoved, PathSet;
    if fuel <= |targets| {
      RemoveKeepsPartly(disk0, disk, targets, lock, fuel);
    } else {
      RemoveAllIsExact(disk0, disk, targets, lock, journal);
    }
  }

  /** Recording a removal and then running it. */
  lemma RecordedRemoval(disk: Disk, replay: Path, targets: seq<Path>, journal: Path, content: Content)
    requires ReplayLockPath(replay) in targets && journal !in disk
    ensures PartlyRemoved(disk[journal := content], WithLockFile(disk, replay)[journal := content],
                          targets, ReplayLockPath(replay))
    ensures disk[journal := content] - PathSet(targets) - {journal} == disk - PathSet(targets)
  {
  }

  lemma LockKeepsPartly(disk0: Disk, disk: Disk, targets: seq<Path>, replay: Path)
    requires PartlyRemoved(disk0, disk, targets, ReplayLockPath(replay)) && ReplayLockPath(replay) in targets
    ensures PartlyRemoved(disk0, WithLockFile(disk, replay), targets, ReplayLockPath(replay))
  {
  }

  /** Fewer files never make the exclusivity scan fail. */
  lemma ScanAfterRemoval(root: string, disk0: Disk, disk: Disk, targets: seq<Path>, replay: Path,
                         own: Path, desktop: Path)
    requires Exclusive(root, disk0, own, desktop, replay)
    requires PartlyRemoved(disk0, disk, targets, ReplayLockPath(replay)) && replay.name != ""
    ensures Exclusive(root, disk, own, desktop, replay)
  {
    SidecarExtensions(replay);
    forall p | p in disk && p.dir == root && LooksLikeLocator(p.name) && p != own
      ensures CanonicalLocator(root, disk, p)
      ensures disk[p].record.desktopState != desktop && disk[p].record.replayState != replay
    {
      LocatorExtension(p.name);
      assert p in disk0 && disk[p] == disk0[p];
      assert CanonicalLocator(root, disk0, p);
    }
  }

  predicate IsRemoval(command: Command) {
    command.RemovePairing? || command.RemoveOrphan?
  }

  /** A rerun of `command` is accepted and continues the pending cleanup `c`. */
  ghost predicate Resumable(root: string, disk: Disk, c: Cleanup, command: Command) {
    && IsRemoval(command)
    && ReadSetup(root, disk).Missing?
    && ReadCleanup(root, disk) == Present(c)
    && Begins(root, disk, command, WithLockFile(disk, c.replayState), CleanPairing(c, 0))
  }

  /** Attempt after attempt, each killed after the given number of deletions, until the journal is gone. */
  function CleanupAttempts(root: string, disk: Disk, c: Cleanup, fuels: seq<nat>): Disk
    decreases |fuels|
  {
    if fuels == [] || ReadCleanup(root, disk) != Present(c) then disk
    else
      var next := Execute(root, WithLockFile(disk, c.replayState), CleanPairing(c, 0), fuels[0]).0;
      CleanupAttempts(root, next, c, fuels[1..])
  }

  /** The targets are the pairing's five private files, and its public stub if that is known. */
  lemma CleanupTargetsAre(disk: Disk, c: Cleanup)
    ensures |CleanupTargets(c)| == if c.target.Paired? then 6 else 5
    ensures disk - PathSet(CleanupTargets(c))
         == disk - {c.desktopState, c.locatorPath}
            - {c.replayState, ReplayPendingPath(c.replayState), ReplayLockPath(c.replayState)}
            - (if c.target.Paired? then {c.target.stubPath} else {})
  {
    var targets := CleanupTargets(c);
    assert targets[0] == c.replayState && targets[2] == c.desktopState && targets[3] == c.locatorPath;
    assert targets[1] == ReplayPendingPath(c.replayState) && targets[4] == ReplayLockPath(c.replayState);
    assert c.target.Paired? ==> targets[5] == c.target.stubPath;
  }

  lemma StillResumable(root: string, disk0: Disk, disk: Disk, c: Cleanup, command: Command)
    requires Resumable(root, disk0, c, command)
    requires PartlyRemoved(disk0, disk, CleanupTargets(c), ReplayLockPath(c.replayState))
    ensures Resumable(root, disk, c, command)
  {
    var targets := CleanupTargets(c);
    CleanupTargetsNames(root, c);
    ScanAfterRemoval(root, disk0, disk, targets, c.replayState, c.locatorPath, c.desktopState);
    if c.target.Paired? {
      assert targets[5] == c.target.stubPath;
      assert c.target.stubPath != ReplayLockPath(c.replayState);
    }
  }

  lemma CleanupTargetsNames(root: string, c: Cleanup)
    requires ValidCleanup(root, c)
    ensures SetupJournalPath(root) !in CleanupTargets(c) && CleanupJournalPath(root) !in CleanupTargets(c)
    ensures ReplayLockPath(c.replayState) in CleanupTargets(c)
  {
    var targets := CleanupTargets(c);
    assert targets[4] == ReplayLockPath(c.replayState);
    forall q | q in targets
      ensures q != SetupJournalPath(root) && q != CleanupJournalPath(root)
    {
      var i :| 0 <= i < |targets| && targets[i] == q;
      CleanupTargetAt(c, i);
      CleanupTargetName(root, c, q);
    }
  }

  /**
   After any number of killed attempts, the same command is accepted again, the journal and
   everything outside the targets are untouched, and the first attempt that lives long enough
   leaves the initial disk without exactly the recorded targets and the journal.
   */
  lemma {:induction false} CleanupConverges(root: string, disk0: Disk, disk: Disk, c: Cleanup, command: Command,
                                            fuels: seq<nat>)
    requires Resumable(root, disk0, c, command)
    requires PartlyRemoved(disk0, disk, CleanupTargets(c), ReplayLockPath(c.replayState))
    ensures var last := CleanupAttempts(root, disk, c, fuels);
            if exists i :: 0 <= i < |fuels| && fuels[i] > (if c.target.Paired? then 6 else 5) then
              last == disk0 - {c.desktopState, c.locatorPath}
                    - {c.replayState, ReplayPendingPath(c.replayState), ReplayLockPath(c.replayState)}
                    - (if c.target.Paired? then {c.target.stubPath} else {})
                    - {CleanupJournalPath(root)}
            else
              Resumable(root, last, c, command)
              && PartlyRemoved(disk0, last, CleanupTargets(c), ReplayLockPath(c.replayState))
    decreases |fuels|
  {
    hide ValidCleanup, ValidSetup, Extension, CleanupTargets, RemoveRun, WithLockFile, PathSet, LocatorPath;
    var targets := CleanupTargets(c);
    var lock := ReplayLockPath(c.replayState);
    var journal := CleanupJournalPath(root);
    StillResumable(root, disk0, disk, c, command);
    CleanupTargetsNames(root, c);
    CleanupTargetsAre(disk0, c);
    if fuels != [] {
      var start := WithLockFile(disk, c.replayState);
      LockKeepsPartly(disk0, disk, targets, c.replayState);
      CleanPairingRun(root, start, c, 0, fuels[0]);
      RemoveRunResult(disk0, start, targets, lock, journal, fuels[0]);
      var next := Execute(root, start, CleanPairing(c, 0), fuels[0]).0;
      if fuels[0] <= |targets| {
        CleanupConverges(root, disk0, next, c, command, fuels[1..]);
        assert forall i :: 0 <= i < |fuels| - 1 ==> fuels[1..][i] == fuels[i + 1];
        assert (exists i :: 0 <= i < |fuels| && fuels[i] > |targets|)
          ==> (exists i :: 0 <= i < |fuels[1..]| && fuels[1..][i] > |targets|) by {
          if i :| 0 <= i < |fuels| && fuels[i] > |targets| {
            assert fuels[1..][i - 1] == fuels[i];
          }
        }
      } else {
        assert ReadCleanup(root, next) == Missing;
        assert CleanupAttempts(root, next, c, fuels[1..]) == next;
      }
    }
  }

  /** Either start of a cleanup succeeds and writes `c`. */
  ghost predicate MayStart(root: string, disk: Disk, command: Command, c: Cleanup) {
    match command
    case RemovePairing(stubPath, entered) => MayStartPaired(root, disk, stubPath, entered, c)
    case RemoveOrphan(path, entered) => MayStartOrphan(root, disk, path, entered, c)
    case _ => false
  }

  /**
   A start killed before its journal exists can be started again; later it can be resumed; and
   one that is never killed removes exactly the targets.
   */
  lemma StartConverges(root: string, disk: Disk, command: Command, c: Cleanup, fuel: nat)
    requires ReadSetup(root, disk).Missing? && ReadCleanup(root, disk).Missing?
    requires MayStart(root, disk, command, c)
    ensures var start := WithLockFile(disk, c.replayState);
            var (last, outcome) := Execute(root, start, StartCleanup(c), fuel);
            var journaled := disk[CleanupJournalPath(root) := CleanupFile(c)];
            if fuel == 0 then
              Begins(root, last, command, last, StartCleanup(c))
            else
              && Resumable(root, journaled, c, command)
              && (if fuel <= (if c.target.Paired? then 7 else 6) then
                    outcome == Killed
                    && PartlyRemoved(journaled, last, CleanupTargets(c), ReplayLockPath(c.replayState))
                  else
                    outcome == Completed
                    && last == disk - {c.desktopState, c.locatorPath}
                             - {c.replayState, ReplayPendingPath(c.replayState), ReplayLockPath(c.replayState)}
                             - (if c.target.Paired? then {c.target.stubPath} else {}))
  {
    if fuel == 0 {
      StartSurvivesLock(root, disk, command, c);
    } else {
      StartIsResumable(root, disk, command, c);
      hide CleanupTargets, PathSet, PartlyRemoved, WithLockFile, Resumable;
      CleanupTargetsAre(disk, c);
      StartedRun(root, disk, c, fuel);
    }
  }

  lemma StartedRun(root: string, disk: Disk, c: Cleanup, fuel: nat)
    requires ReadCleanup(root, disk).Missing? && ValidCleanup(root, c) && fuel > 0
    ensures var (last, outcome) := Execute(root, WithLockFile(disk, c.replayState), StartCleanup(c), fuel);
            var journaled := disk[CleanupJournalPath(root) := CleanupFile(c)];
            if fuel <= |CleanupTargets(c)| + 1 then
              outcome == Killed
              && PartlyRemoved(journaled, last, CleanupTargets(c), ReplayLockPath(c.replayState))
            else
              outcome == Completed && last == disk - PathSet(CleanupTargets(c))
  {
    hide ValidCleanup, ValidSetup, Extension, CleanupTargets, PartlyRemoved, RemoveRun, PathSet, WithLockFile;
    var targets := CleanupTargets(c);
    var lock := ReplayLockPath(c.replayState);
    var journal := CleanupJournalPath(root);
    CleanupTargetsNames(root, c);
    RecordedRemoval(disk, c.replayState, targets, journal, CleanupFile(c));
    var begun := WithLockFile(disk, c.replayState)[journal := CleanupFile(c)];
    CleanPairingRun(root, begun, c, 0, fuel - 1);
    RemoveRunResult(disk[journal := CleanupFile(c)], begun, targets, lock, journal, fuel - 1);
  }

  /** A file that is no locator does not enter the scan. */
  lemma ScanIgnores(root: string, disk: Disk, q: Path, content: Content, own: Path, desktop: Path, replay: Path)
    requires Exclusive(root, disk, own, desktop, replay) && !LooksLikeLocator(q.name)
    ensures Exclusive(root, disk[q := content], own, desktop, replay)
  {
    var disk' := disk[q := content];
    forall p | p in disk' && p.dir == root && LooksLikeLocator(p.name) && p != own
      ensures CanonicalLocator(root, disk', p)
      ensures disk'[p].record.desktopState != desktop && disk'[p].record.replayState != replay
    {
      assert CanonicalLocator(root, disk, p);
    }
  }

  lemma JournaledReads(root: string, disk: Disk, c: Cleanup)
    requires ReadSetup(root, disk).Missing? && ValidCleanup(root, c)
    ensures var journaled := disk[CleanupJournalPath(root) := CleanupFile(c)];
            ReadSetup(root, journaled).Missing? && ReadCleanup(root, journaled) == Present(c)
  {
    JournalExtensions(root);
  }

  lemma StartIsResumable(root: string, disk: Disk, command: Command, c: Cleanup)
    requires ReadSetup(root, disk).Missing? && ReadCleanup(root, disk).Missing?
    requires MayStart(root, disk, command, c)
    ensures Resumable(root, disk[CleanupJournalPath(root) := CleanupFile(c)], c, command)
  {
    var journaled := disk[CleanupJournalPath(root) := CleanupFile(c)];
    JournaledReads(root, disk, c);
    StartMayExecute(root, disk, command, c);
    if c.target.Paired? {
      assert command.RemovePairing? && c.target.stubPath != CleanupJournalPath(root);
      assert ResumesPaired(journaled, c, command.stubPath, command.entered);
    } else {
      assert command.RemoveOrphan? && ResumesOrphan(c, command.locatorPath, command.entered);
    }
  }

  lemma StartMayExecute(root: string, disk: Disk, command: Command, c: Cleanup)
    requires ReadSetup(root, disk).Missing? && ReadCleanup(root, disk).Missing?
    requires MayStart(root, disk, command, c)
    ensures MayExecute(root, disk[CleanupJournalPath(root) := CleanupFile(c)], c)
    ensures command.RemovePairing? <==> c.target.Paired?
  {
    JournaledReads(root, disk, c);
    JournalExtensions(root);
    ScanIgnores(root, disk, CleanupJournalPath(root), CleanupFile(c), c.locatorPath, c.desktopState, c.replayState);
    if c.target.Paired? { OpenedIsCanonical(root, disk, c.target.stub); }
  }

  /** The lock file a killed start leaves behind changes none of its checks. */
  lemma StartSurvivesLock(root: string, disk: Disk, command: Command, c: Cleanup)
    requires ReadSetup(root, disk).Missing? && ReadCleanup(root, disk).Missing?
    requires MayStart(root, disk, command, c)
    ensures var start := WithLockFile(disk, c.replayState);
            Begins(root, start, command, start, StartCleanup(c))
  {
    var start := WithLockFile(disk, c.replayState);
    var lock := ReplayLockPath(c.replayState);
    if lock !in disk {
      SidecarExtensions(c.replayState);
      JournalsWithLock(root, disk, lock);
      match command
      case RemovePairing(stubPath, entered) => StartWithLock(root, disk, stubPath, entered, c, lock);
      case RemoveOrphan(path, entered) => OrphanWithLock(root, disk, path, entered, c, lock);
    }
  }

  lemma OrphanWithLock(root: string, disk: Disk, path: Path, entered: string, c: Cleanup, lock: Path)
    requires MayStartOrphan(root, disk, path, entered, c)
    requires lock == ReplayLockPath(c.replayState) && lock !in disk && Extension(lock.name) == Some("lock")
    ensures MayStartOrphan(root, disk[lock := LockFile], path, entered, c)
  {
    assert !LooksLikeLocator(lock.name) by {
      if LooksLikeLocator(lock.name) { LocatorExtension(lock.name); }
    }
    ScanIgnores(root, disk, lock, LockFile, c.locatorPath, c.desktopState, c.replayState);
    assert c.desktopState != lock && c.locatorPath != lock && c.replayState != lock;
    StateWithLock(root, disk, disk[path].record, None, lock);
  }

  lemma StartWithLock(root: string, disk: Disk, stubPath: Path, entered: string, c: Cleanup, lock: Path)
    requires MayStartPaired(root, disk, stubPath, entered, c)
    requires lock == ReplayLockPath(c.replayState) && lock !in disk && Extension(lock.name) == Some("lock")
    ensures MayStartPaired(root, disk[lock := LockFile], stubPath, entered, c)
  {
    hide ValidCleanup;
    var start := disk[lock := LockFile];
    var stub := c.target.stub;
    assert !LooksLikeLocator(lock.name) by {
      if LooksLikeLocator(lock.name) { LocatorExtension(lock.name); }
    }
    ScanIgnores(root, disk, lock, LockFile, c.locatorPath, c.desktopState, c.replayState);
    OpenWithLock(root, disk, stub, lock);
    OpenedIsCanonical(root, disk, stub);
    assert stubPath != lock;
    assert PairedJournal(root, start, stubPath) == PairedJournal(root, disk, stubPath);
    assert c.desktopState != lock && c.locatorPath != lock && c.replayState != lock;
    StateWithLock(root, disk, disk[c.locatorPath].record,
      Some((stub.desktopSigningKey, stub.desktopSelectionKey)), lock);
  }

  lemma JournalsWithLock(root: string, disk: Disk, lock: Path)
    requires Extension(lock.name) == Some("lock")
    ensures ReadSetup(root, disk[lock := LockFile]) == ReadSetup(root, disk)
    ensures ReadCleanup(root, disk[lock := LockFile]) == ReadCleanup(root, disk)
  {
    JournalExtensions(root);
    assert lock != SetupJournalPath(root) && lock != CleanupJournalPath(root);
  }

  lemma FindWithLock(root: string, disk: Disk, stub: Stub, lock: Path)
    requires StubIdsSized(stub) && Extension(lock.name) == Some("lock")
    ensures FindLocator(root, disk[lock := LockFile], stub) == FindLocator(root, disk, stub)
  {
    var p, q := LocatorPath(root, stub.identityId, stub.desktopId), LegacyLocatorPath(root, stub.identityId);
    LocatorNames(root, stub.identityId, stub.desktopId);
    LocatorExtension(p.name);
    LocatorExtension(q.name);
    assert lock != p && lock != q;
  }

  /** An extra file that is no journal and no locator does not change what opens. */
  lemma OpenWithLock(root: string, disk: Disk, stub: Stub, lock: Path)
    requires StubIdsSized(stub) && Extension(lock.name) == Some("lock")
    ensures OpenLocator(root, disk[lock := LockFile], stub) == OpenLocator(root, disk, stub)
  {
    JournalsWithLock(root, disk, lock);
    FindWithLock(root, disk, stub, lock);
  }

  lemma StateWithLock(root: string, disk: Disk, rec: Locator, keys: Option<(Bytes, Bytes)>, lock: Path)
    requires RemovableState(root, disk, rec, keys)
    requires lock == ReplayLockPath(rec.replayState) && lock !in disk && rec.replayState.name != ""
    requires lock != rec.desktopState && lock != rec.replayState
    ensures RemovableState(root, disk[lock := LockFile], rec, keys)
  {
    SidecarExtensions(rec.replayState);
    assert ReplayPendingPath(rec.replayState) != lock;
  }

  // ----- Setup cleanup -----

  function SetupCleanupAttempts(root: string, disk: Disk, j: Setup, fuels: seq<nat>): Disk
    decreases |fuels|
  {
    if fuels == [] || ReadSetup(root, disk) != Present(j) then disk
    else
      var next := Execute(root, WithLockFile(disk, j.replayState), CleanSetup(j, 0), fuels[0]).0;
      SetupCleanupAttempts(root, next, j, fuels[1..])
  }

  ghost predicate SetupRemovable(root: string, disk: Disk, j: Setup, entered: string) {
    ReadCleanup(root, disk).Missing? && MayCleanSetup(root, disk, j, entered)
  }

  lemma SetupTargetsNames(root: string, j: Setup)
    requires ValidSetup(root, j) && DecodableSetup(j)
    ensures SetupJournalPath(root) !in SetupTargets(root, j) && CleanupJournalPath(root) !in SetupTargets(root, j)
    ensures ReplayLockPath(j.replayState) in SetupTargets(root, j)
  {
    var targets := SetupTargets(root, j);
    assert targets[|targets| - 1] == ReplayLockPath(j.replayState);
    forall q | q in targets
      ensures q != SetupJournalPath(root) && q != CleanupJournalPath(root)
    {
      var i :| 0 <= i < |targets| && targets[i] == q;
      SetupTargetAt(root, j, i);
      SetupTargetName(root, j, q);
    }
  }

  /** The targets are the setup's three files, both sidecars and, once paired, its own locator. */
  lemma SetupTargetsAre(root: string, disk: Disk, j: Setup)
    ensures |SetupTargets(root, j)| == if j.candidate.Some? then 6 else 5
    ensures disk - PathSet(SetupTargets(root, j))
         == disk - {j.desktopState, j.identityStub}
            - {j.replayState, ReplayPendingPath(j.replayState), ReplayLockPath(j.replayState)}
            - (if j.candidate.Some?
               then {LocatorPath(root, j.candidate.value.identityId, j.candidate.value.desktopId)} else {})
  {
    var targets := SetupTargets(root, j);
    var n := |targets|;
    assert targets[0] == j.desktopState && targets[1] == j.replayState;
    assert targets[2] == ReplayPendingPath(j.replayState);
    assert targets[n - 2] == j.identityStub && targets[n - 1] == ReplayLockPath(j.replayState);
    assert j.candidate.Some? ==>
        targets[3] == LocatorPath(root, j.candidate.value.identityId, j.candidate.value.desktopId);
  }

  /** An interrupted setup is removed completely, and nothing else is. */
  lemma {:induction false} SetupCleanupConverges(root: string, disk0: Disk, disk: Disk, j: Setup, entered: string,
                                                 fuels: seq<nat>)
    requires SetupRemovable(root, disk0, j, entered)
    requires PartlyRemoved(disk0, disk, SetupTargets(root, j), ReplayLockPath(j.replayState))
    ensures var last := SetupCleanupAttempts(root, disk, j, fuels);
            if exists i :: 0 <= i < |fuels| && fuels[i] > (if j.candidate.Some? then 6 else 5) then
              last == disk0 - {j.desktopState, j.identityStub}
                    - {j.replayState, ReplayPendingPath(j.replayState), ReplayLockPath(j.replayState)}
                    - (if j.candidate.Some?
                       then {LocatorPath(root, j.candidate.value.identityId, j.candidate.value.desktopId)} else {})
                    - {SetupJournalPath(root)}
            else
              SetupRemovable(root, last, j, entered)
              && PartlyRemoved(disk0, last, SetupTargets(root, j), ReplayLockPath(j.replayState))
    decreases |fuels|
  {
    hide ValidCleanup, ValidSetup, Extension, SetupTargets, RemoveRun, WithLockFile, PathSet, LocatorPath;
    var targets := SetupTargets(root, j);
    var lock := ReplayLockPath(j.replayState);
    SetupNames(root, j);
    SetupTargetsNames(root, j);
    SetupTargetsAre(root, disk0, j);
    ScanAfterRemoval(root, disk0, disk, targets, j.replayState, OwnLocator(root, j), j.desktopState);
    if fuels != [] {
      var start := WithLockFile(disk, j.replayState);
      LockKeepsPartly(disk0, disk, targets, j.replayState);
      CleanSetupRun(root, start, j, 0, fuels[0]);
      RemoveRunResult(disk0, start, targets, lock, SetupJournalPath(root), fuels[0]);
      var next := Execute(root, start, CleanSetup(j, 0), fuels[0]).0;
      if fuels[0] <= |targets| {
        SetupCleanupConverges(root, disk0, next, j, entered, fuels[1..]);
        assert (exists i :: 0 <= i < |fuels| && fuels[i] > |targets|)
          ==> (exists i :: 0 <= i < |fuels[1..]| && fuels[1..][i] > |targets|) by {
          if i :| 0 <= i < |fuels| && fuels[i] > |targets| {
            assert fuels[1..][i - 1] == fuels[i];
          }
        }
      } else {
        assert ReadSetup(root, next) == Missing;
      }
    }
  }
}
