/**
 The invariant of the pairing lifecycle and what it gives in every reachable state: never two
 journals, and a locator that opens always leads to its own keys and replay state.
 */
module LifecycleSafety {
  import opened Records
  import opened Paths
  import opened Disk
  import opened Lifecycle

  // ----- The invariant -----

  predicate GoodLocator(disk: Disk, rec: Locator) {
    && Plain(rec.desktopState.name) && Plain(rec.replayState.name)
    && rec.desktopState in disk && disk[rec.desktopState].Keys?
    && disk[rec.desktopState].desktopId == rec.desktopId
    && rec.replayState in disk && disk[rec.replayState].Replay?
    && disk[rec.replayState].scope == Scope(rec.desktopId, rec.identityId)
  }

  /** Neither file of this locator is `q`. */
  predicate Apart(rec: Locator, q: Path) {
    rec.desktopState != q && rec.replayState != q
  }

  predicate RecordIds(rec: Locator, desktopId: Bytes, identityId: Bytes, fingerprint: Bytes) {
    rec.desktopId == desktopId && rec.identityId == identityId && rec.fingerprint == fingerprint
  }

  /** What holds of the locator at `p` while this setup is pending. */
  predicate SetupLocator(root: string, disk: Disk, j: Setup, p: Path)
    requires CanonicalLocator(root, disk, p)
  {
    var rec := disk[p].record;
    if rec.desktopId == j.desktopId then
      j.candidate.Some? && p == OwnLocator(root, j) && SameIds(rec, j.candidate.value)
    else
      p != OwnLocator(root, j) && GoodLocator(disk, rec)
      && Apart(rec, j.desktopState) && Apart(rec, j.replayState) && Apart(rec, j.identityStub)
  }

  /** What holds of the locator at `p` while this cleanup is pending. */
  predicate CleanupLocator(root: string, disk: Disk, c: Cleanup, p: Path)
    requires CanonicalLocator(root, disk, p)
  {
    var rec := disk[p].record;
    if p == c.locatorPath then RecordIds(rec, c.DesktopId(), c.IdentityId(), c.Fingerprint())
    else
      GoodLocator(disk, rec)
      && Apart(rec, c.desktopState) && Apart(rec, c.replayState)
      && (c.target.Paired? ==> Apart(rec, c.target.stubPath))
  }

  predicate GoodAt(root: string, disk: Disk, p: Path)
    requires CanonicalLocator(root, disk, p)
  {
    match (ReadSetup(root, disk), ReadCleanup(root, disk))
    case (Missing, Missing) => GoodLocator(disk, disk[p].record)
    case (Present(j), Missing) => SetupLocator(root, disk, j, p)
    case (Missing, Present(c)) => CleanupLocator(root, disk, c, p)
    case _ => false
  }

  ghost predicate GoodDisk(root: string, disk: Disk) {
    && !ReadSetup(root, disk).Invalid?
    && !ReadCleanup(root, disk).Invalid?
    && (ReadSetup(root, disk).Missing? || ReadCleanup(root, disk).Missing?)
    && forall p :: CanonicalLocator(root, disk, p) ==> GoodAt(root, disk, p)
  }

  predicate RemovedBefore(root: string, disk: Disk, targets: seq<Path>, pc: nat) {
    forall i :: 0 <= i < pc && i < |targets| && targets[i].dir == root ==> targets[i] !in disk
  }

  /** What the running program has already established. */
  ghost predicate GoodProgram(root: string, disk: Disk, p: Program) {
    match p
    case Provision(j, response, _, pc) =>
      && ReadSetup(root, disk) == Present(j)
      && |response.identityId| == 16 && response.desktopId == j.desktopId
      && (pc <= 3 ==> j.candidate == None)
      && (pc >= 4 ==> j.candidate == Some(response))
    case Commit(j, _, pc) =>
      && ReadSetup(root, disk) == Present(j)
      && j.candidate.Some?
      && (pc >= 1 ==>
            && j.desktopState in disk && disk[j.desktopState] == KeysOf(j.candidate.value))
      && (pc >= 2 ==>
            && j.replayState in disk && disk[j.replayState].Replay?
            && disk[j.replayState].scope == Scope(j.desktopId, j.candidate.value.identityId))
      && (pc >= 3 ==>
            forall p :: CanonicalLocator(root, disk, p) && p == OwnLocator(root, j) ==>
              && disk[p].record.desktopState == j.desktopState
              && disk[p].record.replayState == j.replayState)
    case CleanSetup(j, pc) =>
      && ReadSetup(root, disk) == Present(j)
      && RemovedBefore(root, disk, SetupTargets(root, j), pc)
    case StartCleanup(c) =>
      && ReadSetup(root, disk).Missing? && ReadCleanup(root, disk).Missing?
      && ValidCleanup(root, c)
      && forall p :: CanonicalLocator(root, disk, p) ==> CleanupLocator(root, disk, c, p)
    case CleanPairing(c, pc) =>
      && ReadCleanup(root, disk) == Present(c)
      && RemovedBefore(root, disk, CleanupTargets(c), pc)
  }

  ghost predicate Good(root: string, s: System) {
    && GoodDisk(root, s.disk)
    && (s.lock.Some? ==> GoodProgram(root, s.disk, s.lock.value.program))
  }

  // ----- Names the programs touch -----

  lemma ManagedPlain(root: string, desktopId: Bytes)
    ensures var (d, r, s) := ManagedPaths(root, desktopId);
            Plain(d.name) && Plain(r.name) && Plain(s.name) && d != r && d != s && r != s
  {
    var h := Hex(desktopId);
    assert "desktop-" + h + ".state" == ("desktop-" + h) + "." + "state";
    ExtensionOf("desktop-" + h, "state");
    assert "replay-" + h + ".state" == ("replay-" + h) + "." + "state";
    ExtensionOf("replay-" + h, "state");
    assert "identity-" + h + ".txt" == ("identity-" + h) + "." + "txt";
    ExtensionOf("identity-" + h, "txt");
    assert ("desktop-" + h + ".state")[0] == 'd';
    assert ("replay-" + h + ".state")[0] == 'r';
    assert ("identity-" + h + ".txt")[0] == 'i';
  }

  /** State and stub paths of a setup are plain names, so they are no journal, locator or sidecar. */
  lemma SetupNames(root: string, j: Setup)
    requires ValidSetup(root, j)
    ensures j.desktopState.dir == root && j.replayState.dir == root
    ensures Plain(j.desktopState.name) && Plain(j.replayState.name) && Plain(j.identityStub.name)
    ensures j.desktopState != j.replayState
    ensures j.desktopState != j.identityStub && j.replayState != j.identityStub
  {
    if !j.explicitPaths { ManagedPlain(root, j.desktopId); }
  }

  lemma CanonicalName(root: string, disk: Disk, p: Path)
    requires CanonicalLocator(root, disk, p)
    ensures LooksLikeLocator(p.name) && !Plain(p.name)
    ensures p != SetupJournalPath(root) && p != CleanupJournalPath(root)
  {
    LocatorNames(root, disk[p].record.identityId, disk[p].record.desktopId);
    LocatorExtension(p.name);
    JournalExtensions(root);
  }

  // ----- Frames -----

  /** The disks agree on every path but `q`. */
  ghost predicate OnlyAt(disk: Disk, disk': Disk, q: Path) {
    forall p :: p != q ==> (p in disk <==> p in disk') && (p in disk ==> disk[p] == disk'[p])
  }

  /** Changing a file that is no journal, no locator and no state of a good locator. */
  lemma HarmlessChange(root: string, disk: Disk, disk': Disk, q: Path)
    requires GoodDisk(root, disk) && OnlyAt(disk, disk', q)
    requires q != SetupJournalPath(root) && q != CleanupJournalPath(root)
    requires q in disk' && disk'[q].LocatorFile? ==> !CanonicalLocator(root, disk', q)
    requires forall p :: CanonicalLocator(root, disk, p) && GoodLocator(disk, disk[p].record) ==>
                           Apart(disk[p].record, q)
    ensures GoodDisk(root, disk')
  {
    forall p | CanonicalLocator(root, disk', p)
      ensures GoodAt(root, disk', p)
    {
      assert p != q;
      assert CanonicalLocator(root, disk, p) && disk'[p] == disk[p];
      assert GoodAt(root, disk, p);
      var rec := disk[p].record;
      assert GoodLocator(disk, rec) ==> GoodLocator(disk', rec) by {
        if GoodLocator(disk, rec) { assert Apart(rec, q); }
      }
    }
  }

  // ----- One program step keeps the invariant -----

  ghost predicate GoodStep(root: string, step: Step) {
    match step
    case Next(disk, p) => GoodDisk(root, disk) && GoodProgram(root, disk, p)
    case Finished(disk) => GoodDisk(root, disk)
    case Refused(disk) => GoodDisk(root, disk)
  }

  lemma OwnLocatorIsFresh(root: string, disk: Disk, p: Path, stub: Stub)
    requires CanonicalLocator(root, disk, p) && StubIdsSized(stub)
    requires p == LocatorPath(root, stub.identityId, stub.desktopId)
    ensures disk[p].record.desktopId == stub.desktopId && disk[p].record.identityId == stub.identityId
  {
    var rec := disk[p].record;
    LocatorNames(root, rec.identityId, rec.desktopId);
    LocatorNames(root, stub.identityId, stub.desktopId);
    if p == LegacyLocatorPath(root, rec.identityId) {
      assert false;
    }
    LocatorPathInjective(root, rec.identityId, rec.desktopId, stub.identityId, stub.desktopId);
  }

  /** Rewriting the setup journal for the same attempt. */
  lemma KeepJournal(root: string, disk: Disk, j: Setup, j': Setup)
    requires GoodDisk(root, disk) && ReadSetup(root, disk) == Present(j)
    requires j' == j.(stage := j'.stage, candidate := j'.candidate)
    requires j.candidate == None || j'.candidate == j.candidate
    requires DecodableSetup(j')
    ensures GoodDisk(root, WithJournal(root, disk, j'))
    ensures ReadSetup(root, WithJournal(root, disk, j')) == Present(j')
  {
    hide ValidCleanup, Hex, Extension;
    var disk' := WithJournal(root, disk, j');
    SetupNames(root, j);
    assert ValidSetup(root, j');
    JournalExtensions(root);
    forall p | CanonicalLocator(root, disk', p)
      ensures GoodAt(root, disk', p)
    {
      CanonicalName(root, disk', p);
      assert CanonicalLocator(root, disk, p) && GoodAt(root, disk, p);
      var rec := disk[p].record;
      if rec.desktopId != j.desktopId {
        assert SetupJournalPath(root) != rec.desktopState && SetupJournalPath(root) != rec.replayState;
        assert GoodLocator(disk', rec);
        if j'.candidate.Some? {
          if p == OwnLocator(root, j') { OwnLocatorIsFresh(root, disk', p, j'.candidate.value); }
        }
      }
    }
  }

  lemma KeepProvision(root: string, disk: Disk, j: Setup, response: Stub, kind: RecipientType, pc: nat)
    requires GoodDisk(root, disk) && GoodProgram(root, disk, Provision(j, response, kind, pc))
    ensures GoodStep(root, Advance(root, disk, Provision(j, response, kind, pc)))
  {
    SetupNames(root, j);
    JournalExtensions(root);
    if pc == 0 {
      if j.desktopState !in disk {
        HarmlessChange(root, disk, disk[j.desktopState := PartialKeys], j.desktopState);
      }
    } else if pc == 1 {
      if j.desktopState in disk {
        forall p | CanonicalLocator(root, disk, p) && GoodLocator(disk, disk[p].record)
          ensures Apart(disk[p].record, j.desktopState)
        {
          assert GoodAt(root, disk, p);
        }
        HarmlessChange(root, disk, disk[j.desktopState := KeysOf(response)], j.desktopState);
      }
    } else if pc == 2 {
      KeepJournal(root, disk, j, j.(stage := Pairing));
    } else if pc == 3 {
      KeepJournal(root, disk, j, j.(stage := ResponseVerified, candidate := Some(response)));
    } else {
      KeepJournal(root, disk, j, j.(stage := Confirmed));
    }
  }

  predicate SetupTarget(root: string, j: Setup, q: Path) {
    || q in {j.desktopState, j.replayState, j.identityStub}
    || q in {ReplayLockPath(j.replayState), ReplayPendingPath(j.replayState)}
    || (j.candidate.Some? && q == OwnLocator(root, j))
  }

  lemma SetupTargetAt(root: string, j: Setup, i: nat)
    requires i < |SetupTargets(root, j)|
    ensures SetupTarget(root, j, SetupTargets(root, j)[i])
  {
  }

  lemma SetupTargetName(root: string, j: Setup, q: Path)
    requires ValidSetup(root, j) && DecodableSetup(j) && SetupTarget(root, j, q)
    ensures Plain(q.name) ==> q in {j.desktopState, j.replayState, j.identityStub}
    ensures q != SetupJournalPath(root) && q != CleanupJournalPath(root)
  {
    SetupNames(root, j);
    JournalExtensions(root);
    SidecarExtensions(j.replayState);
    if j.candidate.Some? && q == OwnLocator(root, j) {
      LocatorNames(root, j.candidate.value.identityId, j.candidate.value.desktopId);
      LocatorExtension(q.name);
    }
  }

  /** Changing a target of the pending setup other than creating its locator. */
  lemma SetupChange(root: string, disk: Disk, disk': Disk, j: Setup, q: Path)
    requires GoodDisk(root, disk) && ReadSetup(root, disk) == Present(j)
    requires SetupTarget(root, j, q) && OnlyAt(disk, disk', q)
    requires q in disk' ==> !disk'[q].LocatorFile?
    ensures GoodDisk(root, disk')
    ensures ReadSetup(root, disk') == Present(j)
  {
    SetupTargetName(root, j, q);
    forall p | CanonicalLocator(root, disk', p)
      ensures GoodAt(root, disk', p)
    {
      assert p != q && CanonicalLocator(root, disk, p) && GoodAt(root, disk, p);
      var rec := disk[p].record;
      if rec.desktopId != j.desktopId {
        assert Apart(rec, q);
        assert GoodLocator(disk', rec);
      }
    }
  }

  lemma KeepCommit(root: string, disk: Disk, j: Setup, kind: RecipientType, pc: nat)
    requires GoodDisk(root, disk) && GoodProgram(root, disk, Commit(j, kind, pc))
    ensures GoodStep(root, Advance(root, disk, Commit(j, kind, pc)))
  {
    hide ValidCleanup, ValidSetup, Extension;
    SetupNames(root, j);
    if pc == 0 {
      KeepCommitLock(root, disk, j, kind);
    } else if pc == 1 {
      KeepCommitReplay(root, disk, j, kind);
    } else if pc == 2 {
      KeepCommitLocator(root, disk, j, kind);
    } else if pc == 3 {
      if j.identityStub !in disk {
        SetupChange(root, disk, disk[j.identityStub := StubText(j.candidate.value, kind)], j, j.identityStub);
      }
    } else {
      KeepCommitEnd(root, disk, j);
    }
  }

  lemma KeepCommitLock(root: string, disk: Disk, j: Setup, kind: RecipientType)
    requires GoodDisk(root, disk) && GoodProgram(root, disk, Commit(j, kind, 0))
    ensures GoodStep(root, AdvanceCommit(root, disk, j, kind, 0))
  {
    var lock := ReplayLockPath(j.replayState);
    SetupNames(root, j);
    SidecarExtensions(j.replayState);
    if MayCommit(root, disk, j) && ReplayLockAvailable(root, j.replayState) && lock !in disk {
      SetupChange(root, disk, WithLockFile(disk, j.replayState), j, lock);
    }
  }

  lemma KeepCommitReplay(root: string, disk: Disk, j: Setup, kind: RecipientType)
    requires GoodDisk(root, disk) && GoodProgram(root, disk, Commit(j, kind, 1))
    ensures GoodStep(root, CommitReplay(disk, j, j.candidate.value, kind))
  {
    var stub := j.candidate.value;
    SetupNames(root, j);
    if j.replayState !in disk && ReplayPendingPath(j.replayState) !in disk {
      var created := Replay(Scope(stub.desktopId, stub.identityId), {});
      SetupChange(root, disk, disk[j.replayState := created], j, j.replayState);
    }
  }

  lemma KeepCommitLocator(root: string, disk: Disk, j: Setup, kind: RecipientType)
    requires GoodDisk(root, disk) && GoodProgram(root, disk, Commit(j, kind, 2))
    ensures GoodStep(root, Advance(root, disk, Commit(j, kind, 2)))
  {
    hide ValidSetup, Extension;
    SetupNames(root, j);
    var stub := j.candidate.value;
    var path := OwnLocator(root, j);
    LocatorNames(root, stub.identityId, stub.desktopId);
    var step := CommitLocator(root, disk, j, stub, kind);
    if step.Next? && path !in disk {
      var disk' := disk[path := LocatorFile(LocatorOf(j, stub))];
      LocatorExtension(path.name);
      JournalExtensions(root);
      forall p | CanonicalLocator(root, disk', p)
        ensures GoodAt(root, disk', p)
      {
        if p != path {
          assert CanonicalLocator(root, disk, p) && GoodAt(root, disk, p);
          assert GoodLocator(disk', disk[p].record);
        }
      }
    } else if step.Next? {
      OpenedIsCanonical(root, disk, stub);
    }
  }

  /** Removing the setup journal publishes the locator: its keys and replay state are in place. */
  lemma KeepCommitEnd(root: string, disk: Disk, j: Setup)
    requires GoodDisk(root, disk) && GoodProgram(root, disk, Commit(j, Phone, 4))
    ensures GoodDisk(root, disk - {SetupJournalPath(root)})
  {
    SetupNames(root, j);
    JournalExtensions(root);
    var disk' := disk - {SetupJournalPath(root)};
    forall p | CanonicalLocator(root, disk', p)
      ensures GoodAt(root, disk', p)
    {
      assert CanonicalLocator(root, disk, p) && GoodAt(root, disk, p);
      var rec := disk[p].record;
      assert GoodLocator(disk, rec);
      assert GoodLocator(disk', rec);
    }
  }

  lemma KeepCleanSetup(root: string, disk: Disk, j: Setup, pc: nat)
    requires GoodDisk(root, disk) && GoodProgram(root, disk, CleanSetup(j, pc))
    ensures GoodStep(root, Advance(root, disk, CleanSetup(j, pc)))
  {
    hide ValidCleanup, ValidSetup, Extension;
    var targets := SetupTargets(root, j);
    if pc < |targets| {
      SetupTargetAt(root, j, pc);
      SetupChange(root, disk, disk - {targets[pc]}, j, targets[pc]);
    } else {
      KeepCleanSetupEnd(root, disk, j, pc);
    }
  }

  lemma KeepCleanSetupEnd(root: string, disk: Disk, j: Setup, pc: nat)
    requires GoodDisk(root, disk) && GoodProgram(root, disk, CleanSetup(j, pc))
    requires pc >= |SetupTargets(root, j)|
    ensures GoodDisk(root, disk - {SetupJournalPath(root)})
  {
    JournalExtensions(root);
    var targets := SetupTargets(root, j);
    assert j.candidate.Some? ==> targets[3] == OwnLocator(root, j);
    var disk' := disk - {SetupJournalPath(root)};
    forall p | CanonicalLocator(root, disk', p)
      ensures GoodAt(root, disk', p)
    {
      assert CanonicalLocator(root, disk, p) && GoodAt(root, disk, p);
      assert p != OwnLocator(root, j) || j.candidate.None?;
      assert GoodLocator(disk', disk[p].record);
    }
  }

  lemma KeepStartCleanup(root: string, disk: Disk, c: Cleanup)
    requires GoodDisk(root, disk) && GoodProgram(root, disk, StartCleanup(c))
    ensures GoodStep(root, Advance(root, disk, StartCleanup(c)))
  {
    JournalExtensions(root);
    var disk' := disk[CleanupJournalPath(root) := CleanupFile(c)];
    forall p | CanonicalLocator(root, disk', p)
      ensures GoodAt(root, disk', p)
    {
      CanonicalName(root, disk', p);
      assert CanonicalLocator(root, disk, p);
      assert CleanupLocator(root, disk, c, p);
      if p != c.locatorPath { assert GoodLocator(disk', disk[p].record); }
    }
  }

  predicate CleanupTargetPath(c: Cleanup, q: Path) {
    || q in {c.desktopState, c.replayState, c.locatorPath}
    || q in {ReplayLockPath(c.replayState), ReplayPendingPath(c.replayState)}
    || (c.target.Paired? && q == c.target.stubPath)
  }

  lemma CleanupTargetAt(c: Cleanup, i: nat)
    requires i < |CleanupTargets(c)|
    ensures CleanupTargetPath(c, CleanupTargets(c)[i])
  {
  }

  lemma CleanupTargetName(root: string, c: Cleanup, q: Path)
    requires ValidCleanup(root, c) && CleanupTargetPath(c, q)
    ensures Plain(q.name) ==> q in {c.desktopState, c.replayState} || (c.target.Paired? && q == c.target.stubPath)
    ensures q != SetupJournalPath(root) && q != CleanupJournalPath(root)
  {
    JournalExtensions(root);
    SidecarExtensions(c.replayState);
    if q == c.locatorPath {
      LocatorNames(root, c.IdentityId(), c.DesktopId());
      LocatorExtension(q.name);
    }
  }

  lemma KeepCleanPairing(root: string, disk: Disk, c: Cleanup, pc: nat)
    requires GoodDisk(root, disk) && GoodProgram(root, disk, CleanPairing(c, pc))
    ensures GoodStep(root, Advance(root, disk, CleanPairing(c, pc)))
  {
    var targets := CleanupTargets(c);
    if pc < |targets| {
      CleanupTargetAt(c, pc);
      KeepCleanupRemoval(root, disk, c, targets[pc]);
    } else {
      KeepCleanupEnd(root, disk, c, pc);
    }
  }

  lemma KeepCleanupRemoval(root: string, disk: Disk, c: Cleanup, q: Path)
    requires GoodDisk(root, disk) && ReadCleanup(root, disk) == Present(c)
    requires CleanupTargetPath(c, q)
    ensures GoodDisk(root, disk - {q}) && ReadCleanup(root, disk - {q}) == Present(c)
  {
    var disk' := disk - {q};
    CleanupTargetName(root, c, q);
    forall p | CanonicalLocator(root, disk', p)
      ensures GoodAt(root, disk', p)
    {
      assert CanonicalLocator(root, disk, p) && GoodAt(root, disk, p);
      if p != c.locatorPath {
        assert Apart(disk[p].record, q);
        assert GoodLocator(disk', disk[p].record);
      }
    }
  }

  lemma KeepCleanupEnd(root: string, disk: Disk, c: Cleanup, pc: nat)
    requires GoodDisk(root, disk) && GoodProgram(root, disk, CleanPairing(c, pc))
    requires pc >= |CleanupTargets(c)|
    ensures GoodDisk(root, disk - {CleanupJournalPath(root)})
  {
    JournalExtensions(root);
    var targets := CleanupTargets(c);
    assert targets[3] == c.locatorPath;
    var disk' := disk - {CleanupJournalPath(root)};
    forall p | CanonicalLocator(root, disk', p)
      ensures GoodAt(root, disk', p)
    {
      assert CanonicalLocator(root, disk, p) && GoodAt(root, disk, p);
      assert p != c.locatorPath;
      assert GoodLocator(disk', disk[p].record);
    }
  }

  lemma KeepAdvance(root: string, disk: Disk, p: Program)
    requires GoodDisk(root, disk) && GoodProgram(root, disk, p)
    ensures GoodStep(root, Advance(root, disk, p))
  {
    match p
    case Provision(j, response, kind, pc) => KeepProvision(root, disk, j, response, kind, pc);
    case Commit(j, kind, pc) => KeepCommit(root, disk, j, kind, pc);
    case CleanSetup(j, pc) => KeepCleanSetup(root, disk, j, pc);
    case StartCleanup(c) => KeepStartCleanup(root, disk, c);
    case CleanPairing(c, pc) => KeepCleanPairing(root, disk, c, pc);
  }

  // ----- Accepting a command keeps the invariant -----

  lemma KeepNewSetup(root: string, disk: Disk, j: Setup, response: Stub)
    requires GoodDisk(root, disk) && MaySetup(root, disk, j, response)
    ensures GoodDisk(root, WithJournal(root, disk, j))
    ensures ReadSetup(root, WithJournal(root, disk, j)) == Present(j)
  {
    var disk' := WithJournal(root, disk, j);
    JournalExtensions(root);
    forall p | CanonicalLocator(root, disk', p)
      ensures GoodAt(root, disk', p)
    {
      CanonicalName(root, disk', p);
      assert CanonicalLocator(root, disk, p) && GoodAt(root, disk, p);
      assert GoodLocator(disk', disk[p].record);
    }
  }

  /** Creating a replay lock file changes nothing the invariant looks at. */
  lemma KeepLockFile(root: string, disk: Disk, replay: Path)
    requires GoodDisk(root, disk) && replay.dir == root && replay.name != ""
    ensures GoodDisk(root, WithLockFile(disk, replay))
    ensures ReadSetup(root, WithLockFile(disk, replay)) == ReadSetup(root, disk)
    ensures ReadCleanup(root, WithLockFile(disk, replay)) == ReadCleanup(root, disk)
    ensures forall p :: CanonicalLocator(root, WithLockFile(disk, replay), p) ==>
                          CanonicalLocator(root, disk, p) && WithLockFile(disk, replay)[p] == disk[p]
  {
    var lock := ReplayLockPath(replay);
    SidecarExtensions(replay);
    JournalExtensions(root);
    HarmlessChange(root, disk, WithLockFile(disk, replay), lock);
  }

  /** So does creating the lifecycle lock file. */
  lemma KeepLifecycleLock(root: string, disk: Disk)
    requires GoodDisk(root, disk)
    ensures GoodDisk(root, WithLifecycleLock(root, disk))
  {
    JournalExtensions(root);
    HarmlessChange(root, disk, WithLifecycleLock(root, disk), LifecycleLockPath(root));
  }

  /** The exclusivity scan leaves no other locator of the same files. */
  lemma ScanSeparates(root: string, disk: Disk, c: Cleanup)
    requires GoodDisk(root, disk)
    requires ReadSetup(root, disk).Missing? && ReadCleanup(root, disk).Missing?
    requires CanonicalLocator(root, disk, c.locatorPath)
    requires RecordIds(disk[c.locatorPath].record, c.DesktopId(), c.IdentityId(), c.Fingerprint())
    requires c.desktopState == disk[c.locatorPath].record.desktopState
    requires c.replayState == disk[c.locatorPath].record.replayState
    requires c.target.Paired? ==> StubAt(disk, c.target.stubPath).Some?
    requires Exclusive(root, disk, c.locatorPath, c.desktopState, c.replayState)
    ensures forall p :: CanonicalLocator(root, disk, p) ==> CleanupLocator(root, disk, c, p)
  {
    assert GoodAt(root, disk, c.locatorPath);
    forall p | CanonicalLocator(root, disk, p)
      ensures CleanupLocator(root, disk, c, p)
    {
      CanonicalName(root, disk, p);
      assert GoodAt(root, disk, p);
    }
  }

  lemma KeepBegins(root: string, disk: Disk, command: Command, disk': Disk, p: Program)
    requires GoodDisk(root, disk) && Begins(root, disk, command, disk', p)
    ensures GoodDisk(root, disk') && GoodProgram(root, disk', p)
  {
    match command
    case NewSetup(j, response, kind) =>
      KeepNewSetup(root, disk, j, response);
    case ResumeSetup(entered, kind) =>
    case RemoveSetup(entered) =>
      var j := ReadSetup(root, disk).value;
      SetupNames(root, j);
      KeepLockFile(root, disk, j.replayState);
    case RemovePairing(stubPath, entered) =>
      if ReadCleanup(root, disk).Missing? {
        KeepBeginsPaired(root, disk, stubPath, entered, p.cleanup);
      } else {
        KeepLockFile(root, disk, ReadCleanup(root, disk).value.replayState);
      }
    case RemoveOrphan(path, entered) =>
      if ReadCleanup(root, disk).Missing? {
        KeepBeginsOrphan(root, disk, path, entered, p.cleanup);
      } else {
        KeepLockFile(root, disk, ReadCleanup(root, disk).value.replayState);
      }
  }

  lemma KeepStarting(root: string, disk: Disk, c: Cleanup)
    requires GoodDisk(root, disk) && ReadSetup(root, disk).Missing? && ReadCleanup(root, disk).Missing?
    requires ValidCleanup(root, c)
    requires forall p :: CanonicalLocator(root, disk, p) ==> CleanupLocator(root, disk, c, p)
    ensures GoodDisk(root, WithLockFile(disk, c.replayState))
    ensures GoodProgram(root, WithLockFile(disk, c.replayState), StartCleanup(c))
  {
    var disk' := WithLockFile(disk, c.replayState);
    KeepLockFile(root, disk, c.replayState);
    SidecarExtensions(c.replayState);
    forall p | CanonicalLocator(root, disk', p)
      ensures CleanupLocator(root, disk', c, p)
    {
      assert CanonicalLocator(root, disk, p) && CleanupLocator(root, disk, c, p);
    }
  }

  lemma KeepBeginsPaired(root: string, disk: Disk, stubPath: Path, entered: string, c: Cleanup)
    requires GoodDisk(root, disk) && ReadSetup(root, disk).Missing? && ReadCleanup(root, disk).Missing?
    requires MayStartPaired(root, disk, stubPath, entered, c)
    ensures GoodDisk(root, WithLockFile(disk, c.replayState))
    ensures GoodProgram(root, WithLockFile(disk, c.replayState), StartCleanup(c))
  {
    OpenedIsCanonical(root, disk, c.target.stub);
    ScanSeparates(root, disk, c);
    KeepStarting(root, disk, c);
  }

  lemma KeepBeginsOrphan(root: string, disk: Disk, path: Path, entered: string, c: Cleanup)
    requires GoodDisk(root, disk) && ReadSetup(root, disk).Missing? && ReadCleanup(root, disk).Missing?
    requires MayStartOrphan(root, disk, path, entered, c)
    ensures GoodDisk(root, WithLockFile(disk, c.replayState))
    ensures GoodProgram(root, WithLockFile(disk, c.replayState), StartCleanup(c))
  {
    ScanSeparates(root, disk, c);
    KeepStarting(root, disk, c);
  }

  // ----- Every event keeps the invariant -----

  /** Consuming a response is seen by no locator and by no journal. */
  lemma ConsumeFrame(root: string, s: System, replay: Path, digest: Bytes, s': System)
    requires Good(root, s) && Transition(root, s, Consume(replay, digest), s')
    ensures ReadSetup(root, s'.disk) == ReadSetup(root, s.disk)
    ensures ReadCleanup(root, s'.disk) == ReadCleanup(root, s.disk)
    ensures forall p :: CanonicalLocator(root, s'.disk, p) ==>
              CanonicalLocator(root, s.disk, p) && s'.disk[p] == s.disk[p] && GoodAt(root, s'.disk, p)
  {
    hide ValidSetup, Extension;
    forall p | CanonicalLocator(root, s'.disk, p)
      ensures CanonicalLocator(root, s.disk, p) && s'.disk[p] == s.disk[p] && GoodAt(root, s'.disk, p)
    {
      assert p != replay && CanonicalLocator(root, s.disk, p) && GoodAt(root, s.disk, p);
      assert GoodLocator(s.disk, s.disk[p].record) ==> GoodLocator(s'.disk, s.disk[p].record);
    }
  }

  lemma KeepConsume(root: string, s: System, replay: Path, digest: Bytes, s': System)
    requires Good(root, s) && Transition(root, s, Consume(replay, digest), s')
    ensures Good(root, s')
  {
    hide ValidSetup, Extension;
    ConsumeFrame(root, s, replay, digest, s');
    if s.lock.Some? && s.lock.value.program.StartCleanup? {
      var c := s.lock.value.program.cleanup;
      forall p | CanonicalLocator(root, s'.disk, p)
        ensures CleanupLocator(root, s'.disk, c, p)
      {
        assert CleanupLocator(root, s.disk, c, p);
      }
    }
  }

  lemma KeepPublic(root: string, s: System, path: Path, content: Option<Content>, s': System)
    requires Good(root, s) && Transition(root, s, PublicFile(path, content), s')
    ensures Good(root, s')
  {
    hide ValidCleanup, ValidSetup, Extension;
    forall p | CanonicalLocator(root, s'.disk, p)
      ensures CanonicalLocator(root, s.disk, p) && s'.disk[p] == s.disk[p] && GoodAt(root, s'.disk, p)
    {
      assert p != path && CanonicalLocator(root, s.disk, p) && GoodAt(root, s.disk, p);
      var rec := s.disk[p].record;
      assert GoodLocator(s.disk, rec) ==> GoodLocator(s'.disk, rec);
    }
    if s.lock.Some? { KeepPublicProgram(root, s, path, content, s'); }
  }

  lemma KeepPublicProgram(root: string, s: System, path: Path, content: Option<Content>, s': System)
    requires Good(root, s) && s.lock.Some? && Transition(root, s, PublicFile(path, content), s')
    requires forall p :: CanonicalLocator(root, s'.disk, p) ==>
                           CanonicalLocator(root, s.disk, p) && s'.disk[p] == s.disk[p]
    ensures GoodProgram(root, s'.disk, s.lock.value.program)
  {
    hide ValidCleanup, ValidSetup, Extension;
    var program := s.lock.value.program;
    if program.StartCleanup? {
      var c := program.cleanup;
      forall p | CanonicalLocator(root, s'.disk, p)
        ensures CleanupLocator(root, s'.disk, c, p)
      {
        assert CleanupLocator(root, s.disk, c, p);
      }
    } else if program.Commit? {
      SetupNames(root, program.setup);
    }
  }

  /** Whatever happens next, the invariant survives it. */
  lemma KeepTransition(root: string, s: System, e: Event, s': System)
    requires Good(root, s) && Transition(root, s, e, s')
    ensures Good(root, s')
  {
    match e
    case Acquire(pid, command) =>
      KeepLifecycleLock(root, s.disk);
      KeepBegins(root, WithLifecycleLock(root, s.disk), command, s'.disk, s'.lock.value.program);
    case Visit(pid, replay) =>
      KeepLifecycleLock(root, s.disk);
      if replay.Some? { KeepLockFile(root, WithLifecycleLock(root, s.disk), replay.value); }
    case Continue(pid) =>
      KeepAdvance(root, s.disk, s.lock.value.program);
    case Die(pid) =>
    case Consume(replay, digest) => KeepConsume(root, s, replay, digest, s');
    case PublicFile(path, content) => KeepPublic(root, s, path, content, s');
  }

  lemma {:induction false} EveryStateIsGood(root: string, states: seq<System>, events: seq<Event>)
    requires Run(root, states, events) && Good(root, states[0])
    ensures forall s :: s in states ==> Good(root, s)
    decreases |events|
  {
    if events != [] {
      var n := |events| - 1;
      assert Run(root, states[..n + 1], events[..n]);
      EveryStateIsGood(root, states[..n + 1], events[..n]);
      assert states[n] in states[..n + 1];
      assert Transition(root, states[n], events[n], states[n + 1]);
      KeepTransition(root, states[n], events[n], states[n + 1]);
      assert states == states[..n + 1] + [states[n + 1]];
    }
  }

  // ----- What the invariant gives -----

  /**
   Main result. Over any run of any number of processes, dying anywhere: a locator that opens
   belongs to a pairing no journal targets, and its own keys and replay state are on disk.
   */
  lemma OpenedPairingIsComplete(root: string, states: seq<System>, events: seq<Event>, s: System, stub: Stub)
    requires Run(root, states, events) && Good(root, states[0]) && s in states
    requires StubIdsSized(stub) && OpenLocator(root, s.disk, stub).Opened?
    ensures var loc := OpenLocator(root, s.disk, stub).locator;
            && SameIds(loc, stub)
            && loc.desktopState in s.disk && s.disk[loc.desktopState].Keys?
            && s.disk[loc.desktopState].desktopId == stub.desktopId
            && loc.replayState in s.disk && s.disk[loc.replayState].Replay?
            && s.disk[loc.replayState].scope == Scope(stub.desktopId, stub.identityId)
    ensures ReadSetup(root, s.disk).Present? ==> !ReadSetup(root, s.disk).value.Targets(stub)
    ensures ReadCleanup(root, s.disk).Present? ==> !ReadCleanup(root, s.disk).value.Targets(stub)
  {
    EveryStateIsGood(root, states, events);
    OpenedIsCanonical(root, s.disk, stub);
    assert GoodAt(root, s.disk, OpenLocator(root, s.disk, stub).path);
  }

  /** The two journals never exist together. */
  lemma NeverTwoJournals(root: string, states: seq<System>, events: seq<Event>, s: System)
    requires Run(root, states, events) && Good(root, states[0]) && s in states
    ensures !(SetupJournalPath(root) in s.disk && CleanupJournalPath(root) in s.disk)
  {
    EveryStateIsGood(root, states, events);
  }

  /** Runs may start from an empty root. */
  lemma EmptyRootIsGood(root: string)
    ensures Good(root, System(map[], None))
  {
  }

  /** While its replay file stays on disk, a pairing never forgets a consumed response. */
  lemma ConsumedStep(root: string, s: System, e: Event, s': System, replay: Path)
    requires Good(root, s) && Transition(root, s, e, s') && replay.dir == root && Plain(replay.name)
    requires replay in s.disk && s.disk[replay].Replay?
    requires replay in s'.disk && s'.disk[replay].Replay?
    ensures s.disk[replay].scope == s'.disk[replay].scope
    ensures s.disk[replay].consumed <= s'.disk[replay].consumed
  {
    if e.Continue? {
      ConsumedAdvance(root, s.disk, s.lock.value.program, replay);
    } else if e.Acquire? {
      JournalExtensions(root);
      KeepLifecycleLock(root, s.disk);
      ConsumedAcquire(root, WithLifecycleLock(root, s.disk), e.command, s'.disk, s'.lock.value.program, replay);
    }
  }

  function DiskAfter(step: Step): Disk {
    match step
    case Next(disk, _) => disk
    case Finished(disk) => disk
    case Refused(disk) => disk
  }

  /** A program step keeps a replay file as it is, or removes it. */
  lemma ConsumedAdvance(root: string, disk: Disk, p: Program, replay: Path)
    requires GoodDisk(root, disk) && GoodProgram(root, disk, p)
    requires replay.dir == root && Plain(replay.name) && replay in disk && disk[replay].Replay?
    requires replay in DiskAfter(Advance(root, disk, p)) && DiskAfter(Advance(root, disk, p))[replay].Replay?
    ensures DiskAfter(Advance(root, disk, p))[replay] == disk[replay]
  {
    JournalExtensions(root);
    if p.Commit? {
      ConsumedCommit(root, disk, p.setup, p.kind, p.pc, replay);
    } else if p.Provision? && p.pc == 1 {
      assert DiskAfter(Advance(root, disk, p)) == if p.setup.desktopState in disk
        then disk[p.setup.desktopState := KeysOf(p.response)] else disk;
    }
  }

  /** A commit only adds files, until it removes the journal. */
  lemma ConsumedCommit(root: string, disk: Disk, j: Setup, kind: RecipientType, pc: nat, replay: Path)
    requires replay in disk && replay != SetupJournalPath(root)
    ensures replay in DiskAfter(AdvanceCommit(root, disk, j, kind, pc))
    ensures DiskAfter(AdvanceCommit(root, disk, j, kind, pc))[replay] == disk[replay]
  {
    if 1 <= pc < 4 && j.candidate.Some? {
      var stub := j.candidate.value;
      CommitStubAdds(disk, j, stub, kind, replay);
      CommitLocatorAdds(root, disk, j, stub, kind, replay);
    }
  }

  lemma CommitLocatorAdds(root: string, disk: Disk, j: Setup, stub: Stub, kind: RecipientType, replay: Path)
    requires replay in disk
    ensures replay in DiskAfter(CommitLocator(root, disk, j, stub, kind))
    ensures DiskAfter(CommitLocator(root, disk, j, stub, kind))[replay] == disk[replay]
  {
  }

  lemma CommitStubAdds(disk: Disk, j: Setup, stub: Stub, kind: RecipientType, replay: Path)
    requires replay in disk
    ensures replay in DiskAfter(CommitStub(disk, j, stub, kind))
    ensures DiskAfter(CommitStub(disk, j, stub, kind))[replay] == disk[replay]
  {
  }

  lemma ConsumedAcquire(root: string, disk: Disk, command: Command, disk': Disk, p: Program, replay: Path)
    requires GoodDisk(root, disk) && Begins(root, disk, command, disk', p)
    requires replay.dir == root && Plain(replay.name) && replay in disk
    ensures replay in disk' && disk'[replay] == disk[replay]
  {
    hide ValidCleanup, ValidSetup, Extension;
    JournalExtensions(root);
  }

  lemma {:induction false} ConsumedNeverShrinks(root: string, states: seq<System>, events: seq<Event>, replay: Path)
    requires Run(root, states, events) && Good(root, states[0]) && replay.dir == root && Plain(replay.name)
    requires forall s :: s in states ==> replay in s.disk && s.disk[replay].Replay?
    ensures states[0].disk[replay].consumed <= states[|events|].disk[replay].consumed
    decreases |events|
  {
    if events != [] {
      var n := |events| - 1;
      assert Run(root, states[..n + 1], events[..n]);
      EveryStateIsGood(root, states[..n + 1], events[..n]);
      assert states[n] in states[..n + 1];
      ConsumedNeverShrinks(root, states[..n + 1], events[..n], replay);
      assert Transition(root, states[n], events[n], states[n + 1]);
      ConsumedStep(root, states[n], events[n], states[n + 1], replay);
    }
  }
}
