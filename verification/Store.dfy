/**
 The file-changing operations in their imperative form: a private root whose files change in
 place and a process that is killed when its budget of file operations runs out. Each method
 is proved to do exactly what the step machine of `Lifecycle` does.
 */
module Store {
  import opened Records
  import opened Paths
  import opened Disk
  import opened Lifecycle
  import opened LifecycleSafety
  import opened LifecycleRuns
  import opened LifecycleCommit

  class PrivateRoot {
    const root: string
    var files: Disk
    var budget: nat

    constructor (root: string, files: Disk, budget: nat)
      ensures this.root == root && this.files == files && this.budget == budget
    {
      this.root := root;
      this.files := files;
      this.budget := budget;
    }

    /** Rewrites the setup journal, one file operation. */
    method SaveJournal(j: Setup) returns (alive: bool)
      modifies this
      ensures alive == (old(budget) > 0)
      ensures files == if alive then WithJournal(root, old(files), j) else old(files)
      ensures budget == if alive then old(budget) - 1 else old(budget)
    {
      if budget == 0 { return false; }
      files, budget := WithJournal(root, files, j), budget - 1;
      return true;
    }

    /** `run_setup_impl` once its journal exists: keys, the journal stage by stage, the commit. */
    method RunSetup(journal: Setup, response: Stub, kind: RecipientType) returns (outcome: Outcome)
      modifies this
      ensures (files, outcome) == Execute(root, old(files), Provision(journal, response, kind, 0), old(budget))
    {
      var j := journal;
      if budget == 0 { return Killed; }
      if j.desktopState in files { return Stopped; }
      ghost var files0, fuel := files, budget;
      files, budget := files[j.desktopState := PartialKeys], budget - 1;
      ExecuteNext(root, files0, Provision(j, response, kind, 0), files, Provision(j, response, kind, 1), fuel);
      if budget == 0 { return Killed; }
      ghost var files1 := files;
      files, budget := files[j.desktopState := KeysOf(response)], budget - 1;
      ExecuteNext(root, files1, Provision(j, response, kind, 1), files, Provision(j, response, kind, 2), fuel - 1);
      outcome := RunPairing(j, response, kind);
    }

    /** From existing keys on: pairing, verified response, confirmation. */
    method RunPairing(journal: Setup, response: Stub, kind: RecipientType) returns (outcome: Outcome)
      modifies this
      ensures (files, outcome) == Execute(root, old(files), Provision(journal, response, kind, 2), old(budget))
    {
      ghost var files2, fuel := files, budget;
      var j := journal.(stage := Pairing);
      var alive := SaveJournal(j);
      if !alive { return Killed; }
      ExecuteNext(root, files2, Provision(journal, response, kind, 2), files, Provision(j, response, kind, 3), fuel);
      if budget == 0 { return Killed; }
      if response.desktopId != j.desktopId { return Stopped; }
      ghost var files3, paired := files, j;
      j := j.(stage := ResponseVerified, candidate := Some(response));
      alive := SaveJournal(j);
      ExecuteNext(root, files3, Provision(paired, response, kind, 3), files, Provision(j, response, kind, 4), fuel - 1);
      ghost var files4, verified := files, j;
      j := j.(stage := Confirmed);
      alive := SaveJournal(j);
      if !alive { return Killed; }
      ExecuteNext(root, files4, Provision(verified, response, kind, 4), files, Commit(j, kind, 0), fuel - 2);
      outcome := CommitConfirmed(j, kind);
    }

    /** `commit_confirmed_for`: replay state, locator, stub, and last the removal of the journal. */
    method CommitConfirmed(j: Setup, kind: RecipientType) returns (outcome: Outcome)
      modifies this
      ensures (files, outcome) == Execute(root, old(files), Commit(j, kind, 0), old(budget))
    {
      ghost var fuel := budget;
      ghost var files0 := files;
      if budget == 0 { return Killed; }
      if !MayCommit(root, files, j) || !ReplayLockAvailable(root, j.replayState) { return Stopped; }
      var stub := j.candidate.value;
      files := WithLockFile(files, j.replayState);
      budget := budget - 1;
      assert (files, Killed) == Execute(root, files, Commit(j, kind, 1), 0);
      assert forall m: nat ::
          Execute(root, files0, Commit(j, kind, 0), m + 1) == Execute(root, files, Commit(j, kind, 1), m);
      outcome := CommitPublic(j, kind, stub);
    }

    method CommitPublic(j: Setup, kind: RecipientType, stub: Stub) returns (outcome: Outcome)
      requires j.candidate == Some(stub)
      modifies this
      ensures (files, outcome) == Execute(root, old(files), Commit(j, kind, 1), old(budget))
    {
      if budget == 0 { return Killed; }
      var scope := Scope(stub.desktopId, stub.identityId);
      if ReplayPendingPath(j.replayState) in files { return Stopped; }
      if j.replayState !in files {
        files := files[j.replayState := Replay(scope, {})];
      } else if !(files[j.replayState].Replay? && files[j.replayState].scope == scope) {
        return Stopped;
      }
      budget := budget - 1;
      outcome := CommitLocatorAndStub(j, kind, stub);
    }

    method CommitLocatorAndStub(j: Setup, kind: RecipientType, stub: Stub) returns (outcome: Outcome)
      requires j.candidate == Some(stub)
      modifies this
      ensures (files, outcome) == Execute(root, old(files), Commit(j, kind, 2), old(budget))
    {
      hide ValidSetup, Extension, Hex;
      if budget == 0 { return Killed; }
      var cleanup := ReadCleanup(root, files);
      if cleanup.Invalid? || (cleanup.Present? && cleanup.value.Targets(stub)) { return Stopped; }
      var path, rec := LocatorPath(root, stub.identityId, stub.desktopId), LocatorOf(j, stub);
      if j.desktopState !in files || j.replayState !in files || !ValidLayout(root, rec) { return Stopped; }
      if path !in files {
        files := files[path := LocatorFile(rec)];
      } else {
        var found := FindLocator(root, files, stub);
        if !found.Opened? { return Stopped; }
        if found.locator.desktopState != j.desktopState || found.locator.replayState != j.replayState
           || found.locator.transport != j.transport {
          return Stopped;
        }
      }
      budget := budget - 1;
      outcome := CommitStubAndJournal(j, kind, stub);
    }

    method CommitStubAndJournal(j: Setup, kind: RecipientType, stub: Stub) returns (outcome: Outcome)
      requires j.candidate == Some(stub)
      modifies this
      ensures (files, outcome) == Execute(root, old(files), Commit(j, kind, 3), old(budget))
    {
      if budget == 0 { return Killed; }
      if j.identityStub !in files {
        files := files[j.identityStub := StubText(stub, kind)];
      } else if files[j.identityStub] != StubText(stub, kind) {
        return Stopped;
      }
      budget := budget - 1;
      if budget == 0 { return Killed; }
      files := files - {SetupJournalPath(root)};
      budget := budget - 1;
      return Completed;
    }
  }

  datatype Removal = Removed | Dead | Busy

  /** `CheckedMacosCleanupOperations`: every deletion first checks that the replay lock is still ours. */
  class CleanupOperations {
    const root: string
    const lockPath: Path
    var files: Disk
    var budget: nat
    var lockRemoved: bool

    constructor (root: string, files: Disk, replay: Path, budget: nat)
      ensures this.root == root && lockPath == ReplayLockPath(replay)
      ensures this.files == WithLockFile(files, replay) && this.budget == budget && !lockRemoved
    {
      this.root := root;
      this.lockPath := ReplayLockPath(replay);
      this.files := WithLockFile(files, replay);
      this.budget := budget;
      this.lockRemoved := false;
    }

    method Remove(path: Path) returns (r: Removal)
      modifies this
      ensures r == if old(budget) == 0 then Dead
                   else if !old(lockRemoved) && lockPath !in old(files) then Busy else Removed
      ensures files == if r == Removed then old(files) - {path} else old(files)
      ensures budget == if r == Removed then old(budget) - 1 else old(budget)
      ensures lockRemoved == (old(lockRemoved) || (r == Removed && path == lockPath))
    {
      if budget == 0 { return Dead; }
      if !lockRemoved && lockPath !in files { return Busy; }
      files := files - {path};
      budget := budget - 1;
      if path == lockPath { lockRemoved := true; }
      return Removed;
    }

    /**
     `execute_cleanup`: the replay lock file is deleted before the public stub and the journal,
     and the flag keeps the remaining deletions from failing on it.
     */
    method ExecuteCleanup(c: Cleanup) returns (outcome: Outcome)
      requires ValidCleanup(root, c) && lockPath == ReplayLockPath(c.replayState)
      requires lockPath in files && !lockRemoved
      modifies this
      ensures (files, outcome) == Execute(root, old(files), CleanPairing(c, 0), old(budget))
    {
      hide ValidCleanup, Extension, Advance;
      ghost var files0, fuel := files, budget;
      DistinctFromLock(root, c);
      var r := Remove(c.replayState);
      if r != Removed { return Interrupted(r); }
      Continues(root, c, files0, files, 0, fuel);
      ghost var files1 := files;
      r := Remove(ReplayPendingPath(c.replayState));
      if r != Removed { return Interrupted(r); }
      Continues(root, c, files1, files, 1, fuel - 1);
      ghost var files2 := files;
      r := Remove(c.desktopState);
      if r != Removed { return Interrupted(r); }
      Continues(root, c, files2, files, 2, fuel - 2);
      ghost var files3 := files;
      r := Remove(c.locatorPath);
      if r != Removed { return Interrupted(r); }
      Continues(root, c, files3, files, 3, fuel - 3);
      outcome := FinishCleanup(c);
    }

    method FinishCleanup(c: Cleanup) returns (outcome: Outcome)
      requires ValidCleanup(root, c) && lockPath == ReplayLockPath(c.replayState)
      requires lockPath in files && !lockRemoved
      modifies this
      ensures (files, outcome) == Execute(root, old(files), CleanPairing(c, 4), old(budget))
    {
      hide ValidCleanup, Extension;
      ghost var files0, fuel := files, budget;
      DistinctFromLock(root, c);
      var r := Remove(ReplayLockPath(c.replayState));
      if r != Removed { return Interrupted(r); }
      Continues(root, c, files0, files, 4, fuel);
      if c.target.Paired? {
        ghost var files1 := files;
        r := Remove(c.target.stubPath);
        if r != Removed { return Interrupted(r); }
        Continues(root, c, files1, files, 5, fuel - 1);
      }
      r := Remove(CleanupJournalPath(root));
      if r != Removed { return Interrupted(r); }
      return Completed;
    }

    /** `cleanup_owned`: the lock file goes last but one, the journal last. */
    method CleanupOwned(j: Setup) returns (outcome: Outcome)
      requires ValidSetup(root, j) && DecodableSetup(j) && lockPath == ReplayLockPath(j.replayState)
      requires lockPath in files && !lockRemoved
      modifies this
      ensures (files, outcome) == Execute(root, old(files), CleanSetup(j, 0), old(budget))
    {
      hide ValidSetup, DecodableSetup, Extension, Advance;
      ghost var files0, fuel := files, budget;
      SetupDistinctFromLock(root, j);
      var r := Remove(j.desktopState);
      if r != Removed { return Interrupted(r); }
      ContinuesSetup(root, j, files0, files, 0, fuel);
      ghost var files1 := files;
      r := Remove(j.replayState);
      if r != Removed { return Interrupted(r); }
      ContinuesSetup(root, j, files1, files, 1, fuel - 1);
      ghost var files2 := files;
      r := Remove(ReplayPendingPath(j.replayState));
      if r != Removed { return Interrupted(r); }
      ContinuesSetup(root, j, files2, files, 2, fuel - 2);
      ghost var files3 := files;
      if j.candidate.Some? {
        r := Remove(LocatorPath(root, j.candidate.value.identityId, j.candidate.value.desktopId));
        if r != Removed { return Interrupted(r); }
        ContinuesSetup(root, j, files3, files, 3, fuel - 3);
      }
      outcome := CleanupOutputs(j, if j.candidate.Some? then 4 else 3);
    }

    method CleanupOutputs(j: Setup, ghost pc: nat) returns (outcome: Outcome)
      requires ValidSetup(root, j) && DecodableSetup(j) && lockPath == ReplayLockPath(j.replayState)
      requires lockPath in files && !lockRemoved && pc == if j.candidate.Some? then 4 else 3
      modifies this
      ensures (files, outcome) == Execute(root, old(files), CleanSetup(j, pc), old(budget))
    {
      ghost var files0, fuel := files, budget;
      SetupDistinctFromLock(root, j);
      var r := Remove(j.identityStub);
      if r != Removed { return Interrupted(r); }
      ContinuesSetup(root, j, files0, files, pc, fuel);
      ghost var files1 := files;
      r := Remove(ReplayLockPath(j.replayState));
      if r != Removed { return Interrupted(r); }
      ContinuesSetup(root, j, files1, files, pc + 1, fuel - 1);
      r := Remove(SetupJournalPath(root));
      if r != Removed { return Interrupted(r); }
      return Completed;
    }
  }

  function Interrupted(r: Removal): Outcome
    requires r != Removed
  {
    if r == Dead then Killed else Stopped
  }

  /** One deletion is one step of the program. */
  lemma Continues(root: string, c: Cleanup, files: Disk, files': Disk, pc: nat, fuel: nat)
    requires fuel > 0 && pc < |CleanupTargets(c)| && files' == files - {CleanupTargets(c)[pc]}
    ensures Execute(root, files, CleanPairing(c, pc), fuel) == Execute(root, files', CleanPairing(c, pc + 1), fuel - 1)
  {
  }

  /** No target but the fifth is the replay lock file. */
  lemma DistinctFromLock(root: string, c: Cleanup)
    requires ValidCleanup(root, c)
    ensures var lock := ReplayLockPath(c.replayState);
            && lock != c.replayState && lock != ReplayPendingPath(c.replayState)
            && lock != c.desktopState && lock != c.locatorPath && lock != CleanupJournalPath(root)
            && (c.target.Paired? ==> lock != c.target.stubPath)
  {
    var lock := ReplayLockPath(c.replayState);
    SidecarExtensions(c.replayState);
    JournalExtensions(root);
    assert |lock.name| != |c.replayState.name|;
    assert |lock.name| != |ReplayPendingPath(c.replayState).name|;
  }

  lemma ContinuesSetup(root: string, j: Setup, files: Disk, files': Disk, pc: nat, fuel: nat)
    requires fuel > 0 && pc < |SetupTargets(root, j)| && files' == files - {SetupTargets(root, j)[pc]}
    ensures Execute(root, files, CleanSetup(j, pc), fuel) == Execute(root, files', CleanSetup(j, pc + 1), fuel - 1)
  {
  }

  /** No target of a setup before the last is the replay lock file. */
  lemma SetupDistinctFromLock(root: string, j: Setup)
    requires ValidSetup(root, j) && DecodableSetup(j)
    ensures var lock := ReplayLockPath(j.replayState);
            && lock != j.desktopState && lock != j.replayState && lock != j.identityStub
            && lock != ReplayPendingPath(j.replayState)
            && (j.candidate.Some? ==>
                  lock != LocatorPath(root, j.candidate.value.identityId, j.candidate.value.desktopId))
  {
    hide ValidSetup, Extension;
    SetupNames(root, j);
    SidecarExtensions(j.replayState);
    if j.candidate.Some? {
      var stub := j.candidate.value;
      LocatorNames(root, stub.identityId, stub.desktopId);
      LocatorExtension(LocatorPath(root, stub.identityId, stub.desktopId).name);
    }
  }
}
