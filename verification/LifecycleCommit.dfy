/**
 Committing a confirmed setup across crashes: every prefix of the commit can be run again
 from the start and the end result does not depend on where it was killed.
 */
module LifecycleCommit {
  import opened Records
  import opened Paths
  import opened Disk
  import opened Lifecycle
  import opened LifecycleSafety
  import opened LifecycleRuns

  const COMMIT_STEPS: nat := 5

  /** The files a commit may add. */
  predicate Added(root: string, j: Setup, p: Path) {
    p == ReplayLockPath(j.replayState) || p == j.replayState || p == OwnLocator(root, j) || p == j.identityStub
  }

  /** `disk` kept every file of `disk0`, and added at most files of this setup. */
  ghost predicate Extends(root: string, j: Setup, disk0: Disk, disk: Disk) {
    && (forall p :: p in disk0 ==> p in disk && disk[p] == disk0[p])
    && (forall p :: p in disk && p !in disk0 ==> Added(root, j, p))
  }

  lemma OwnLocatorName(root: string, j: Setup)
    requires DecodableSetup(j) && j.candidate.Some?
    ensures Extension(OwnLocator(root, j).name) == Some("cbor") && !Plain(OwnLocator(root, j).name)
    ensures OwnLocator(root, j) != SetupJournalPath(root) && OwnLocator(root, j) != CleanupJournalPath(root)
  {
    LocatorNames(root, j.candidate.value.identityId, j.candidate.value.desktopId);
    LocatorExtension(OwnLocator(root, j).name);
    JournalExtensions(root);
  }

  /** The names a commit adds are neither journals nor the uncertain-replay marker. */
  lemma AddedNames(root: string, j: Setup)
    requires ValidSetup(root, j) && DecodableSetup(j) && j.candidate.Some?
    ensures !Added(root, j, SetupJournalPath(root)) && !Added(root, j, CleanupJournalPath(root))
    ensures !Added(root, j, ReplayPendingPath(j.replayState)) && !Added(root, j, j.desktopState)
  {
    SetupNames(root, j);
    OwnLocatorName(root, j);
    AddedNamesOf(root, j);
  }

  lemma AddedNamesOf(root: string, j: Setup)
    requires Plain(j.desktopState.name) && Plain(j.replayState.name) && Plain(j.identityStub.name)
    requires j.desktopState != j.replayState && j.desktopState != j.identityStub
    requires Extension(OwnLocator(root, j).name) == Some("cbor")
    requires OwnLocator(root, j) != SetupJournalPath(root) && OwnLocator(root, j) != CleanupJournalPath(root)
    ensures !Added(root, j, SetupJournalPath(root)) && !Added(root, j, CleanupJournalPath(root))
    ensures !Added(root, j, ReplayPendingPath(j.replayState)) && !Added(root, j, j.desktopState)
  {
    JournalExtensions(root);
    SidecarExtensions(j.replayState);
    assert Extension(ReplayLockPath(j.replayState).name) != Extension(SetupJournalPath(root).name);
    assert Extension(ReplayLockPath(j.replayState).name) != Extension(ReplayPendingPath(j.replayState).name);
  }

  function CommitDisk(root: string, disk: Disk, j: Setup, kind: RecipientType, n: nat): Disk {
    Execute(root, disk, Commit(j, kind, 0), n).0
  }

  ghost predicate Commits(root: string, disk: Disk, j: Setup, kind: RecipientType, end: Disk) {
    Execute(root, disk, Commit(j, kind, 0), COMMIT_STEPS) == (end, Completed)
  }

  /** Steps already taken, found done on a disk that kept and extended their results. */
  lemma LockStepAgain(root: string, j: Setup, kind: RecipientType, disk0: Disk, disk: Disk)
    requires AdvanceCommit(root, disk0, j, kind, 0).Next?
    requires j.candidate.Some? && DecodableSetup(j)
    requires Extends(root, j, AdvanceCommit(root, disk0, j, kind, 0).disk, disk)
    requires ReadSetup(root, disk0) == Present(j)
    ensures AdvanceCommit(root, disk, j, kind, 0) == Next(disk, Commit(j, kind, 1))
  {
    var disk1 := AdvanceCommit(root, disk0, j, kind, 0).disk;
    AddedNames(root, j);
    assert SetupJournalPath(root) in disk1 && j.desktopState in disk1;
    assert ReadSetup(root, disk) == Present(j);
    assert MayCommit(root, disk, j);
  }

  lemma ReplayStepAgain(root: string, j: Setup, kind: RecipientType, disk0: Disk, disk: Disk)
    requires ValidSetup(root, j) && DecodableSetup(j) && j.candidate.Some?
    requires CommitReplay(disk0, j, j.candidate.value, kind).Next?
    requires Extends(root, j, CommitReplay(disk0, j, j.candidate.value, kind).disk, disk)
    ensures CommitReplay(disk, j, j.candidate.value, kind) == Next(disk, Commit(j, kind, 2))
  {
    AddedNames(root, j);
    var disk1 := CommitReplay(disk0, j, j.candidate.value, kind).disk;
    assert ReplayPendingPath(j.replayState) !in disk1;
    assert j.replayState in disk1;
  }

  lemma LocatorStepAgain(root: string, j: Setup, kind: RecipientType, disk0: Disk, disk: Disk)
    requires ValidSetup(root, j) && DecodableSetup(j) && j.candidate.Some?
    requires CommitLocator(root, disk0, j, j.candidate.value, kind).Next?
    requires Extends(root, j, CommitLocator(root, disk0, j, j.candidate.value, kind).disk, disk)
    ensures CommitLocator(root, disk, j, j.candidate.value, kind) == Next(disk, Commit(j, kind, 3))
  {
    AddedNames(root, j);
    var stub := j.candidate.value;
    var disk1 := CommitLocator(root, disk0, j, stub, kind).disk;
    var path := OwnLocator(root, j);
    assert path in disk1 && disk[path] == disk1[path];
    assert CleanupJournalPath(root) in disk <==> CleanupJournalPath(root) in disk0;
    assert ReadCleanup(root, disk) == ReadCleanup(root, disk0);
    assert OpenLocatorAt(root, disk, stub, path) == OpenLocatorAt(root, disk1, stub, path);
  }

  lemma StubStepAgain(root: string, j: Setup, kind: RecipientType, disk0: Disk, disk: Disk)
    requires j.candidate.Some?
    requires CommitStub(disk0, j, j.candidate.value, kind).Next?
    requires Extends(root, j, CommitStub(disk0, j, j.candidate.value, kind).disk, disk)
    ensures CommitStub(disk, j, j.candidate.value, kind) == Next(disk, Commit(j, kind, 4))
  {
    var disk1 := CommitStub(disk0, j, j.candidate.value, kind).disk;
    assert j.identityStub in disk1;
  }

  /** The disks of an uninterrupted commit, step by step. */
  lemma Unrolled(root: string, disk: Disk, j: Setup, kind: RecipientType, end: Disk)
    returns (d1: Disk, d2: Disk, d3: Disk, d4: Disk)
    requires j.candidate.Some? && Commits(root, disk, j, kind, end)
    ensures AdvanceCommit(root, disk, j, kind, 0) == Next(d1, Commit(j, kind, 1))
    ensures CommitReplay(d1, j, j.candidate.value, kind) == Next(d2, Commit(j, kind, 2))
    ensures CommitLocator(root, d2, j, j.candidate.value, kind) == Next(d3, Commit(j, kind, 3))
    ensures CommitStub(d3, j, j.candidate.value, kind) == Next(d4, Commit(j, kind, 4))
    ensures end == d4 - {SetupJournalPath(root)}
    ensures Extends(root, j, disk, d1) && Extends(root, j, d1, d2)
    ensures Extends(root, j, d2, d3) && Extends(root, j, d3, d4)
    ensures ReadSetup(root, disk) == Present(j)
  {
    var stub := j.candidate.value;
    d1 := NextDisk(root, disk, Commit(j, kind, 0), 5, end);
    d2 := NextDisk(root, d1, Commit(j, kind, 1), 4, end);
    d3 := NextDisk(root, d2, Commit(j, kind, 2), 3, end);
    d4 := NextDisk(root, d3, Commit(j, kind, 3), 2, end);
    CommitExtends(root, disk, j, kind, 0);
    CommitExtends(root, d1, j, kind, 1);
    CommitExtends(root, d2, j, kind, 2);
    CommitExtends(root, d3, j, kind, 3);
  }

  lemma NextDisk(root: string, disk: Disk, p: Program, fuel: nat, end: Disk) returns (disk': Disk)
    requires p.Commit? && p.pc < 4 && fuel > 0 && Execute(root, disk, p, fuel) == (end, Completed)
    ensures AdvanceCommit(root, disk, p.setup, p.kind, p.pc) == Next(disk', Commit(p.setup, p.kind, p.pc + 1))
    ensures Execute(root, disk', Commit(p.setup, p.kind, p.pc + 1), fuel - 1) == (end, Completed)
  {
    CommitStepShape(root, disk, p.setup, p.kind, p.pc);
    disk' := Advance(root, disk, p).disk;
  }

  lemma CommitStepShape(root: string, disk: Disk, j: Setup, kind: RecipientType, pc: nat)
    requires pc < 4
    ensures var step := AdvanceCommit(root, disk, j, kind, pc);
            step.Refused? || (step.Next? && step.program == Commit(j, kind, pc + 1))
  {
  }

  lemma CommitExtends(root: string, disk: Disk, j: Setup, kind: RecipientType, pc: nat)
    requires pc < 4 && AdvanceCommit(root, disk, j, kind, pc).Next?
    ensures Extends(root, j, disk, AdvanceCommit(root, disk, j, kind, pc).disk)
  {
    if pc == 2 {
      CommitLocatorExtends(root, disk, j, j.candidate.value, kind);
    }
  }

  lemma CommitLocatorExtends(root: string, disk: Disk, j: Setup, stub: Stub, kind: RecipientType)
    requires j.candidate == Some(stub) && CommitLocator(root, disk, j, stub, kind).Next?
    ensures Extends(root, j, disk, CommitLocator(root, disk, j, stub, kind).disk)
  {
  }

  /** The disk after `n` steps, for every place a crash can happen. */
  lemma KilledDisk(root: string, disk: Disk, j: Setup, kind: RecipientType, end: Disk, n: nat,
                   d1: Disk, d2: Disk, d3: Disk, d4: Disk)
    requires AdvanceCommit(root, disk, j, kind, 0) == Next(d1, Commit(j, kind, 1))
    requires j.candidate.Some? && CommitReplay(d1, j, j.candidate.value, kind) == Next(d2, Commit(j, kind, 2))
    requires CommitLocator(root, d2, j, j.candidate.value, kind) == Next(d3, Commit(j, kind, 3))
    requires CommitStub(d3, j, j.candidate.value, kind) == Next(d4, Commit(j, kind, 4))
    requires n < COMMIT_STEPS
    ensures Execute(root, disk, Commit(j, kind, 0), n) == ([disk, d1, d2, d3, d4][n], Killed)
  {
    if n >= 1 {
      assert Execute(root, disk, Commit(j, kind, 0), n) == Execute(root, d1, Commit(j, kind, 1), n - 1);
    }
    if n >= 2 {
      assert Execute(root, d1, Commit(j, kind, 1), n - 1) == Execute(root, d2, Commit(j, kind, 2), n - 2);
    }
    if n >= 3 {
      assert Execute(root, d2, Commit(j, kind, 2), n - 2) == Execute(root, d3, Commit(j, kind, 3), n - 3);
    }
  }

  /** The disk between two steps of a rerun: steps before the crash leave the disk as found. */
  function Redone(n: nat, step: nat, found: Disk, first: Disk): Disk {
    if n >= step then found else first
  }

  /** On the disk a crash after `n` steps left, the steps up to the stub are found done or done now. */
  lemma StepsAgain(root: string, j: Setup, kind: RecipientType, n: nat, d: Disk,
                   d0: Disk, d1: Disk, d2: Disk, d3: Disk, d4: Disk)
    requires j.candidate.Some? && ReadSetup(root, d0) == Present(j)
    requires AdvanceCommit(root, d0, j, kind, 0) == Next(d1, Commit(j, kind, 1))
    requires CommitReplay(d1, j, j.candidate.value, kind) == Next(d2, Commit(j, kind, 2))
    requires CommitLocator(root, d2, j, j.candidate.value, kind) == Next(d3, Commit(j, kind, 3))
    requires Extends(root, j, d1, d2) && Extends(root, j, d2, d3) && Extends(root, j, d3, d4)
    requires n < COMMIT_STEPS && d == [d0, d1, d2, d3, d4][n]
    ensures AdvanceCommit(root, d, j, kind, 0) == Next(Redone(n, 1, d, d1), Commit(j, kind, 1))
    ensures CommitReplay(Redone(n, 1, d, d1), j, j.candidate.value, kind)
         == Next(Redone(n, 2, d, d2), Commit(j, kind, 2))
    ensures CommitLocator(root, Redone(n, 2, d, d2), j, j.candidate.value, kind)
         == Next(Redone(n, 3, d, d3), Commit(j, kind, 3))
  {
    hide ValidCleanup, ValidSetup, Extension, CommitReplay, CommitLocator, AdvanceCommit;
    if n >= 1 { LockStepAgain(root, j, kind, d0, d); }
    if n >= 2 { ReplayStepAgain(root, j, kind, d1, d); }
    if n >= 3 { LocatorStepAgain(root, j, kind, d2, d); }
  }

  /** A commit adds no journal and does not touch the setup's own. */
  lemma ExtendsReads(root: string, j: Setup, disk: Disk, d: Disk)
    requires ReadSetup(root, disk) == Present(j) && j.candidate.Some? && Extends(root, j, disk, d)
    ensures ReadSetup(root, d) == Present(j) && ReadCleanup(root, d) == ReadCleanup(root, disk)
  {
    hide ValidCleanup, ValidSetup, Extension;
    AddedNames(root, j);
    assert CleanupJournalPath(root) in d <==> CleanupJournalPath(root) in disk;
  }

  /** After any crash, the commit resumed with the same recipient type ends in the same files. */
  lemma KilledCommitResumes(root: string, disk: Disk, j: Setup, kind: RecipientType, end: Disk, n: nat)
    requires j.candidate.Some? && Commits(root, disk, j, kind, end) && n < COMMIT_STEPS
    ensures Commits(root, CommitDisk(root, disk, j, kind, n), j, kind, end)
    ensures ReadSetup(root, CommitDisk(root, disk, j, kind, n)) == Present(j)
    ensures ReadCleanup(root, CommitDisk(root, disk, j, kind, n)) == ReadCleanup(root, disk)
  {
    hide ValidCleanup, ValidSetup, Extension, CommitReplay, CommitLocator, CommitStub, AdvanceCommit;
    var d1, d2, d3, d4 := Unrolled(root, disk, j, kind, end);
    KilledDisk(root, disk, j, kind, end, n, d1, d2, d3, d4);
    var d := CommitDisk(root, disk, j, kind, n);
    StepsAgain(root, j, kind, n, d, disk, d1, d2, d3, d4);
    if n >= 4 { StubStepAgain(root, j, kind, d3, d); }
    CommitFrom(root, j, kind, d, Redone(n, 1, d, d1), Redone(n, 2, d, d2), Redone(n, 3, d, d3), Redone(n, 4, d, d4));
    ExtendsReads(root, j, disk, d);
  }

  lemma CommitFrom(root: string, j: Setup, kind: RecipientType, d0: Disk, d1: Disk, d2: Disk, d3: Disk, d4: Disk)
    requires AdvanceCommit(root, d0, j, kind, 0) == Next(d1, Commit(j, kind, 1))
    requires j.candidate.Some? && CommitReplay(d1, j, j.candidate.value, kind) == Next(d2, Commit(j, kind, 2))
    requires CommitLocator(root, d2, j, j.candidate.value, kind) == Next(d3, Commit(j, kind, 3))
    requires CommitStub(d3, j, j.candidate.value, kind) == Next(d4, Commit(j, kind, 4))
    ensures Commits(root, d0, j, kind, d4 - {SetupJournalPath(root)})
  {
    var end := d4 - {SetupJournalPath(root)};
    assert Execute(root, d4, Commit(j, kind, 4), 1) == (end, Completed);
    assert Execute(root, d3, Commit(j, kind, 3), 2) == (end, Completed);
    assert Execute(root, d2, Commit(j, kind, 2), 3) == (end, Completed);
    assert Execute(root, d1, Commit(j, kind, 1), 4) == (end, Completed);
  }

  /** One commit attempt after another, while the setup journal is still there. */
  function CommitAttempts(root: string, disk: Disk, j: Setup, kind: RecipientType, fuels: seq<nat>): Disk
    decreases |fuels|
  {
    if fuels == [] || ReadSetup(root, disk) != Present(j) then disk
    else CommitAttempts(root, CommitDisk(root, disk, j, kind, fuels[0]), j, kind, fuels[1..])
  }

  lemma {:induction false} EnoughFuel(root: string, disk: Disk, p: Program, n: nat, m: nat)
    requires n <= m && Execute(root, disk, p, n).1 != Killed
    ensures Execute(root, disk, p, m) == Execute(root, disk, p, n)
    decreases n
  {
    hide Advance;
    match Advance(root, disk, p)
    case Next(disk', p') => EnoughFuel(root, disk', p', n - 1, m - 1);
    case _ =>
  }

  lemma EnoughCommitFuel(root: string, disk: Disk, j: Setup, kind: RecipientType, end: Disk, fuel: nat)
    requires Commits(root, disk, j, kind, end) && fuel >= COMMIT_STEPS
    ensures CommitDisk(root, disk, j, kind, fuel) == end
  {
    EnoughFuel(root, disk, Commit(j, kind, 0), COMMIT_STEPS, fuel);
  }

  lemma CommittedIsConfirmed(root: string, disk: Disk, j: Setup, kind: RecipientType, end: Disk)
    requires j.candidate.Some? && Commits(root, disk, j, kind, end)
    ensures j.stage == Confirmed && ReadSetup(root, end) == Missing
  {
    hide ValidCleanup, ValidSetup, Extension;
    var d1, d2, d3, d4 := Unrolled(root, disk, j, kind, end);
    assert MayCommit(root, disk, j);
  }

  /**
   Main result. However often and wherever the commit of a confirmed setup is killed, resuming
   it is accepted until it completes, and it completes in the files of one uninterrupted commit.
   */
  lemma {:induction false} CommitConverges(root: string, disk: Disk, j: Setup, kind: RecipientType, end: Disk,
                                           fuels: seq<nat>)
    requires j.candidate.Some? && Commits(root, disk, j, kind, end) && ReadCleanup(root, disk).Missing?
    requires ReadSetup(root, disk) == Present(j)
    ensures var last := CommitAttempts(root, disk, j, kind, fuels);
            if exists i :: 0 <= i < |fuels| && fuels[i] >= COMMIT_STEPS then last == end
            else
              Commits(root, last, j, kind, end)
              && Begins(root, last, ResumeSetup(ConfirmationText(j), kind), last, Commit(j, kind, 0))
    decreases |fuels|
  {
    CommittedIsConfirmed(root, disk, j, kind, end);
    hide Commits, CommitDisk, ReadSetup, ConfirmationText;
    if fuels != [] {
      var next := CommitDisk(root, disk, j, kind, fuels[0]);
      if fuels[0] < COMMIT_STEPS {
        KilledCommitResumes(root, disk, j, kind, end, fuels[0]);
        CommitConverges(root, next, j, kind, end, fuels[1..]);
        assert (exists i :: 0 <= i < |fuels| && fuels[i] >= COMMIT_STEPS)
          ==> (exists i :: 0 <= i < |fuels[1..]| && fuels[1..][i] >= COMMIT_STEPS) by {
          if i :| 0 <= i < |fuels| && fuels[i] >= COMMIT_STEPS {
            assert fuels[1..][i - 1] == fuels[i];
          }
        }
      } else {
        EnoughCommitFuel(root, disk, j, kind, end, fuels[0]);
      }
    }
  }

  /** Before the stub, the recipient type is only carried along. */
  lemma KindOnlyLabels(root: string, disk: Disk, j: Setup, kind: RecipientType, other: RecipientType,
                       pc: nat, disk': Disk)
    requires pc < 3 && AdvanceCommit(root, disk, j, kind, pc) == Next(disk', Commit(j, kind, pc + 1))
    ensures AdvanceCommit(root, disk, j, other, pc) == Next(disk', Commit(j, other, pc + 1))
  {
    if pc == 2 { LocatorKindOnlyLabels(root, disk, j, j.candidate.value, kind, other); }
  }

  lemma LocatorKindOnlyLabels(root: string, disk: Disk, j: Setup, stub: Stub, kind: RecipientType, other: RecipientType)
    requires CommitLocator(root, disk, j, stub, kind).Next?
    ensures CommitLocator(root, disk, j, stub, other)
         == Next(CommitLocator(root, disk, j, stub, kind).disk, Commit(j, other, 3))
  {
  }

  /** Three steps taken with one recipient type are the same three steps with the other. */
  lemma OtherTypeReachesStub(root: string, j: Setup, kind: RecipientType, other: RecipientType,
                             d: Disk, e1: Disk, e2: Disk, e3: Disk)
    requires AdvanceCommit(root, d, j, kind, 0) == Next(e1, Commit(j, kind, 1))
    requires AdvanceCommit(root, e1, j, kind, 1) == Next(e2, Commit(j, kind, 2))
    requires AdvanceCommit(root, e2, j, kind, 2) == Next(e3, Commit(j, kind, 3))
    ensures Execute(root, d, Commit(j, other, 0), 5) == Execute(root, e3, Commit(j, other, 3), 2)
  {
    KindOnlyLabels(root, d, j, kind, other, 0, e1);
    KindOnlyLabels(root, e1, j, kind, other, 1, e2);
    KindOnlyLabels(root, e2, j, kind, other, 2, e3);
    ExecuteNext(root, d, Commit(j, other, 0), e1, Commit(j, other, 1), 5);
    ExecuteNext(root, e1, Commit(j, other, 1), e2, Commit(j, other, 2), 4);
    ExecuteNext(root, e2, Commit(j, other, 2), e3, Commit(j, other, 3), 3);
  }

  lemma ExecuteNext(root: string, disk: Disk, p: Program, disk': Disk, p': Program, fuel: nat)
    requires fuel > 0 && Advance(root, disk, p) == Next(disk', p')
    ensures Execute(root, disk, p, fuel) == Execute(root, disk', p', fuel - 1)
  {
  }

  /** The last two steps with another recipient type than an existing stub's are refused. */
  lemma StubDecides(root: string, disk: Disk, j: Setup, kind: RecipientType)
    requires j.candidate.Some?
    ensures var (last, outcome) := Execute(root, disk, Commit(j, kind, 3), 2);
            var writable := j.identityStub !in disk || disk[j.identityStub] == StubText(j.candidate.value, kind);
            (outcome == Completed <==> writable)
            && (outcome != Completed ==> outcome == Stopped && last == disk)
  {
    var step := CommitStub(disk, j, j.candidate.value, kind);
    if step.Next? {
      assert Execute(root, step.disk, Commit(j, kind, 4), 1).1 == Completed;
    }
  }

  lemma StubNotAdded(root: string, j: Setup, disk: Disk, disk': Disk, kind: RecipientType)
    requires ValidSetup(root, j) && DecodableSetup(j) && j.candidate.Some?
    requires j.identityStub !in disk
    requires || AdvanceCommit(root, disk, j, kind, 0) == Next(disk', Commit(j, kind, 1))
             || CommitReplay(disk, j, j.candidate.value, kind) == Next(disk', Commit(j, kind, 2))
             || CommitLocator(root, disk, j, j.candidate.value, kind) == Next(disk', Commit(j, kind, 3))
    ensures j.identityStub !in disk'
  {
    hide ValidCleanup, ValidSetup, Extension;
    SetupNames(root, j);
    OwnLocatorName(root, j);
    SidecarExtensions(j.replayState);
  }

  /**
   Resuming with the other recipient type completes exactly when the crash came before the
   stub was written; after that it is refused and nothing changes.
   */
  lemma OtherTypeAfterCrash(root: string, disk: Disk, j: Setup, kind: RecipientType, other: RecipientType,
                            end: Disk, n: nat)
    requires j.candidate.Some? && Commits(root, disk, j, kind, end) && n < COMMIT_STEPS
    requires other != kind && j.identityStub !in disk
    ensures var killed := CommitDisk(root, disk, j, kind, n);
            var (last, outcome) := Execute(root, killed, Commit(j, other, 0), COMMIT_STEPS);
            (outcome == Completed <==> n < 4)
            && (n == 4 ==> outcome == Stopped && last == killed)
  {
    hide ValidCleanup, ValidSetup, Extension, CommitReplay, CommitLocator;
    var d1, d2, d3, d4 := Unrolled(root, disk, j, kind, end);
    KilledDisk(root, disk, j, kind, end, n, d1, d2, d3, d4);
    var d := CommitDisk(root, disk, j, kind, n);
    StepsAgain(root, j, kind, n, d, disk, d1, d2, d3, d4);
    OtherTypeReachesStub(root, j, kind, other, d, Redone(n, 1, d, d1), Redone(n, 2, d, d2), Redone(n, 3, d, d3));
    StubNotAdded(root, j, disk, d1, kind);
    StubNotAdded(root, j, d1, d2, kind);
    StubNotAdded(root, j, d2, d3, kind);
    StubDecides(root, if n == 4 then d4 else d3, j, other);
  }
}
