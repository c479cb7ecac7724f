/**
 Opening a pairing reads the cleanup journal, the setup journal and the locator one after the
 other and without the lifecycle lock, so other processes may act between any two of the reads.
 */
module LifecycleOpen {
  import opened Records
  import opened Paths
  import opened Disk
  import opened Lifecycle
  import opened LifecycleSafety

  predicate CleanupTargeted(root: string, disk: Disk, stub: Stub) {
    ReadCleanup(root, disk).Present? && ReadCleanup(root, disk).value.Targets(stub)
  }

  predicate SetupTargeted(root: string, disk: Disk, stub: Stub) {
    ReadSetup(root, disk).Present? && ReadSetup(root, disk).value.Targets(stub)
  }

  /** `open_pairing_locator`, with the disk that each of its reads finds. */
  function OpenInterleaved(root: string, stub: Stub, cleanup: Disk, setup: Disk, newer: Disk, legacy: Disk)
    : OpenResult
  {
    if ReadCleanup(root, cleanup).Invalid? then LocatorInvalid
    else if CleanupTargeted(root, cleanup, stub) then CleanupPending
    else if ReadSetup(root, setup).Invalid? || SetupTargeted(root, setup, stub) then SetupPending
    else
      match OpenLocatorAt(root, newer, stub, LocatorPath(root, stub.identityId, stub.desktopId))
      case LocatorMissing => OpenLocatorAt(root, legacy, stub, LegacyLocatorPath(root, stub.identityId))
      case other => other
  }

  /** On a disk that nobody changes meanwhile, it is the opening in one state. */
  lemma UndisturbedOpen(root: string, stub: Stub, disk: Disk)
    ensures OpenInterleaved(root, stub, disk, disk, disk, disk) == OpenLocator(root, disk, stub)
  {
  }

  /** The step that writes the journal of a cleanup of this pairing. */
  predicate CleanupStarts(s: System, e: Event, stub: Stub) {
    e.Continue? && s.lock.Some? && s.lock.value.program.StartCleanup? && s.lock.value.program.cleanup.Targets(stub)
  }

  /** The step that records the phone's response of this very pairing in the setup journal. */
  predicate SetupRecords(s: System, e: Event, stub: Stub) {
    && e.Continue? && s.lock.Some? && s.lock.value.program.Provision? && s.lock.value.program.pc == 3
    && var response := s.lock.value.program.response;
       (response.desktopId, response.identityId, response.fingerprint)
       == (stub.desktopId, stub.identityId, stub.fingerprint)
  }

  // ----- Exactly when a pairing opens -----

  predicate SameThree(desktopId: Bytes, identityId: Bytes, fingerprint: Bytes, stub: Stub) {
    desktopId == stub.desktopId && identityId == stub.identityId && fingerprint == stub.fingerprint
  }

  /** The cleanup journal on this disk records the stub's three identifiers. */
  predicate RecordsCleanup(root: string, disk: Disk, stub: Stub) {
    match ReadCleanup(root, disk)
    case Present(CleanupJournal(Paired(s, _), _, _, _)) => SameThree(s.desktopId, s.identityId, s.fingerprint, stub)
    case Present(CleanupJournal(Orphan(d, i, f), _, _, _)) => SameThree(d, i, f, stub)
    case _ => false
  }

  predicate RecordsSetup(root: string, disk: Disk, stub: Stub) {
    match ReadSetup(root, disk)
    case Present(j) =>
      j.candidate.Some?
      && SameThree(j.candidate.value.desktopId, j.candidate.value.identityId, j.candidate.value.fingerprint, stub)
    case _ => false
  }

  predicate NoCleanupOf(root: string, disk: Disk, stub: Stub) {
    !ReadCleanup(root, disk).Invalid? && !RecordsCleanup(root, disk, stub)
  }

  predicate NoSetupOf(root: string, disk: Disk, stub: Stub) {
    !ReadSetup(root, disk).Invalid? && !RecordsSetup(root, disk, stub)
  }

  /** The file is a locator of the stub's identifiers whose two states are different files of the root. */
  predicate HoldsLocator(root: string, disk: Disk, stub: Stub, p: Path, rec: Locator) {
    && p in disk && disk[p] == LocatorFile(rec)
    && SameThree(rec.desktopId, rec.identityId, rec.fingerprint, stub)
    && rec.desktopState.dir == root && rec.replayState.dir == root && rec.desktopState != rec.replayState
  }

  /**
   Main result. A pairing opens exactly if the journals are missing or readable and record other
   pairings only, and the first existing one of its two locator files is in order; each refusal
   has its own condition. A pending cleanup or setup of another pairing never gets in the way.
   */
  lemma OpensIff(root: string, stub: Stub, cleanup: Disk, setup: Disk, newer: Disk, legacy: Disk, p: Path, rec: Locator)
    ensures var r := OpenInterleaved(root, stub, cleanup, setup, newer, legacy);
            var (first, second) := (LocatorPath(root, stub.identityId, stub.desktopId),
                                    LegacyLocatorPath(root, stub.identityId));
            var free := NoCleanupOf(root, cleanup, stub) && NoSetupOf(root, setup, stub);
            && (r == Opened(p, rec) <==>
                  free && (if first in newer then p == first && HoldsLocator(root, newer, stub, first, rec)
                           else p == second && HoldsLocator(root, legacy, stub, second, rec)))
            && (r == CleanupPending <==> RecordsCleanup(root, cleanup, stub))
            && (r == SetupPending <==>
                  NoCleanupOf(root, cleanup, stub)
                  && (ReadSetup(root, setup).Invalid? || RecordsSetup(root, setup, stub)))
            && (r == LocatorMissing <==> free && first !in newer && second !in legacy)
  {
    hide ValidCleanup, ValidSetup, LocatorPath, LegacyLocatorPath;
    RecordsAreTargets(root, cleanup, stub);
    RecordsAreTargets(root, setup, stub);
    OpenAtIff(root, newer, stub, LocatorPath(root, stub.identityId, stub.desktopId), rec);
    OpenAtIff(root, legacy, stub, LegacyLocatorPath(root, stub.identityId), rec);
  }

  lemma RecordsAreTargets(root: string, disk: Disk, stub: Stub)
    ensures CleanupTargeted(root, disk, stub) <==> RecordsCleanup(root, disk, stub)
    ensures SetupTargeted(root, disk, stub) <==> RecordsSetup(root, disk, stub)
  {
    hide ValidCleanup, ValidSetup;
    if ReadCleanup(root, disk).Present? {
      var c := ReadCleanup(root, disk).value;
      match c.target
      case Paired(s, _) => assert c.DesktopId() == s.desktopId;
      case Orphan(d, i, f) => assert c.DesktopId() == d;
    }
  }

  lemma OpenAtIff(root: string, disk: Disk, stub: Stub, p: Path, rec: Locator)
    ensures OpenLocatorAt(root, disk, stub, p).Opened? ==> OpenLocatorAt(root, disk, stub, p).path == p
    ensures OpenLocatorAt(root, disk, stub, p) == Opened(p, rec) <==> HoldsLocator(root, disk, stub, p, rec)
    ensures OpenLocatorAt(root, disk, stub, p) == LocatorMissing <==> p !in disk
    ensures OpenLocatorAt(root, disk, stub, p) !in {CleanupPending, SetupPending}
  {
  }

  // ----- Only these two steps make a journal target a pairing -----

  lemma CommandTargetsNothing(root: string, disk: Disk, command: Command, disk': Disk, p: Program, stub: Stub)
    requires Begins(root, disk, command, disk', p)
    ensures CleanupTargeted(root, disk', stub) ==> CleanupTargeted(root, disk, stub)
    ensures SetupTargeted(root, disk', stub) ==> SetupTargeted(root, disk, stub)
  {
    hide ValidCleanup, ValidSetup, Extension;
  }

  lemma CommitTargetsNothing(root: string, disk: Disk, j: Setup, kind: RecipientType, pc: nat, stub: Stub)
    ensures var disk' := DiskAfter(AdvanceCommit(root, disk, j, kind, pc));
            && (CleanupTargeted(root, disk', stub) ==> CleanupTargeted(root, disk, stub))
            && (SetupTargeted(root, disk', stub) ==> SetupTargeted(root, disk, stub))
  {
    hide ValidCleanup, ValidSetup, Extension;
  }

  lemma ProgramTargets(root: string, disk: Disk, p: Program, stub: Stub)
    requires GoodDisk(root, disk) && GoodProgram(root, disk, p)
    ensures var disk' := DiskAfter(Advance(root, disk, p));
            && (CleanupTargeted(root, disk', stub) && !CleanupTargeted(root, disk, stub) ==>
                  p.StartCleanup? && p.cleanup.Targets(stub))
            && (SetupTargeted(root, disk', stub) && !SetupTargeted(root, disk, stub) ==>
                  p.Provision? && p.pc == 3 && p.setup.(candidate := Some(p.response)).Targets(stub))
  {
    hide ValidCleanup, ValidSetup, Extension, AdvanceCommit;
    if p.Commit? { CommitTargetsNothing(root, disk, p.setup, p.kind, p.pc, stub); }
  }

  lemma JournalBegins(root: string, s: System, e: Event, s': System, stub: Stub)
    requires Good(root, s) && Transition(root, s, e, s')
    ensures CleanupTargeted(root, s'.disk, stub) && !CleanupTargeted(root, s.disk, stub) ==> CleanupStarts(s, e, stub)
    ensures SetupTargeted(root, s'.disk, stub) && !SetupTargeted(root, s.disk, stub) ==> SetupRecords(s, e, stub)
  {
    hide ValidCleanup, ValidSetup, Extension, Begins, Advance;
    if e.Acquire? {
      CommandTargetsNothing(root, WithLifecycleLock(root, s.disk), e.command, s'.disk, s'.lock.value.program, stub);
    } else if e.Continue? {
      ProgramTargets(root, s.disk, s.lock.value.program, stub);
    }
  }

  lemma {:induction false} CleanupBeganBetween(root: string, states: seq<System>, events: seq<Event>, stub: Stub,
                                               i: nat, t: nat)
    requires Run(root, states, events) && (forall s :: s in states ==> Good(root, s)) && i <= t < |states|
    requires !CleanupTargeted(root, states[i].disk, stub) && CleanupTargeted(root, states[t].disk, stub)
    ensures exists m :: i <= m < t && CleanupStarts(states[m], events[m], stub)
    decreases t
  {
    assert Transition(root, states[t - 1], events[t - 1], states[t]);
    if CleanupTargeted(root, states[t - 1].disk, stub) {
      CleanupBeganBetween(root, states, events, stub, i, t - 1);
    } else {
      JournalBegins(root, states[t - 1], events[t - 1], states[t], stub);
    }
  }

  lemma {:induction false} SetupBeganBetween(root: string, states: seq<System>, events: seq<Event>, stub: Stub,
                                             i: nat, t: nat)
    requires Run(root, states, events) && (forall s :: s in states ==> Good(root, s)) && i <= t < |states|
    requires !SetupTargeted(root, states[i].disk, stub) && SetupTargeted(root, states[t].disk, stub)
    ensures exists m :: i <= m < t && SetupRecords(states[m], events[m], stub)
    decreases t
  {
    assert Transition(root, states[t - 1], events[t - 1], states[t]);
    if SetupTargeted(root, states[t - 1].disk, stub) {
      SetupBeganBetween(root, states, events, stub, i, t - 1);
    } else {
      JournalBegins(root, states[t - 1], events[t - 1], states[t], stub);
    }
  }

  // ----- What opens -----

  /** The locator leads to its own keys and its own replay state. */
  predicate Complete(disk: Disk, rec: Locator, stub: Stub) {
    && rec.desktopState in disk && disk[rec.desktopState].Keys?
    && disk[rec.desktopState].desktopId == stub.desktopId
    && rec.replayState in disk && disk[rec.replayState].Replay?
    && disk[rec.replayState].scope == Scope(stub.desktopId, stub.identityId)
  }

  lemma UntargetedIsComplete(root: string, disk: Disk, stub: Stub, p: Path)
    requires GoodDisk(root, disk) && StubIdsSized(stub)
    requires p in {LocatorPath(root, stub.identityId, stub.desktopId), LegacyLocatorPath(root, stub.identityId)}
    requires OpenLocatorAt(root, disk, stub, p).Opened?
    requires !CleanupTargeted(root, disk, stub) && !SetupTargeted(root, disk, stub)
    ensures Complete(disk, disk[p].record, stub)
  {
    assert CanonicalLocator(root, disk, p);
    assert GoodAt(root, disk, p);
  }

  lemma FoundAt(root: string, stub: Stub, cleanup: Disk, setup: Disk, newer: Disk, legacy: Disk)
    requires OpenInterleaved(root, stub, cleanup, setup, newer, legacy).Opened?
    ensures !CleanupTargeted(root, cleanup, stub) && !SetupTargeted(root, setup, stub)
    ensures var found := OpenInterleaved(root, stub, cleanup, setup, newer, legacy);
            var path := LocatorPath(root, stub.identityId, stub.desktopId);
            && found.path in {path, LegacyLocatorPath(root, stub.identityId)}
            && OpenLocatorAt(root, if found.path == path then newer else legacy, stub, found.path) == found
            && SameIds(found.locator, stub)
  {
    hide ReadCleanup, ReadSetup;
  }

  /** What the read at `t` found, given that neither journal targeted the pairing when it was read. */
  lemma DecidedAt(root: string, states: seq<System>, events: seq<Event>, stub: Stub, i: nat, j: nat, t: nat, p: Path)
    requires Run(root, states, events) && (forall s :: s in states ==> Good(root, s)) && StubIdsSized(stub)
    requires i <= t && j <= t && t < |states|
    requires !CleanupTargeted(root, states[i].disk, stub) && !SetupTargeted(root, states[j].disk, stub)
    requires p in {LocatorPath(root, stub.identityId, stub.desktopId), LegacyLocatorPath(root, stub.identityId)}
    requires OpenLocatorAt(root, states[t].disk, stub, p).Opened?
    ensures || Complete(states[t].disk, OpenLocatorAt(root, states[t].disk, stub, p).locator, stub)
            || (exists m :: i <= m < t && CleanupStarts(states[m], events[m], stub))
            || (exists m :: j <= m < t && SetupRecords(states[m], events[m], stub))
  {
    hide LocatorPath, LegacyLocatorPath, CleanupTargeted, SetupTargeted, GoodDisk, Transition;
    if CleanupTargeted(root, states[t].disk, stub) {
      CleanupBeganBetween(root, states, events, stub, i, t);
    } else if SetupTargeted(root, states[t].disk, stub) {
      SetupBeganBetween(root, states, events, stub, j, t);
    } else {
      assert Good(root, states[t]);
      UntargetedIsComplete(root, states[t].disk, stub, p);
    }
  }

  /**
   Main result. Whatever other processes do between the reads, what opens has the stub's
   identifiers, and at the read that found it its keys and replay state are in place, unless after
   the journals were read a cleanup of this pairing was started or its own setup recorded it.
   */
  lemma InterleavedOpenIsComplete(root: string, states: seq<System>, events: seq<Event>, stub: Stub,
                                  i: nat, j: nat, k: nat, l: nat)
    requires Run(root, states, events) && Good(root, states[0]) && StubIdsSized(stub)
    requires i <= j <= k <= l < |states|
    requires OpenInterleaved(root, stub, states[i].disk, states[j].disk, states[k].disk, states[l].disk).Opened?
    ensures var found := OpenInterleaved(root, stub, states[i].disk, states[j].disk, states[k].disk, states[l].disk);
            var t := if found.path == LocatorPath(root, stub.identityId, stub.desktopId) then k else l;
            && SameIds(found.locator, stub)
            && (|| Complete(states[t].disk, found.locator, stub)
                || (exists m :: i <= m < t && CleanupStarts(states[m], events[m], stub))
                || (exists m :: j <= m < t && SetupRecords(states[m], events[m], stub)))
  {
    hide OpenInterleaved, OpenLocatorAt, CleanupTargeted, SetupTargeted, Complete, CleanupStarts, SetupRecords;
    EveryStateIsGood(root, states, events);
    FoundAt(root, stub, states[i].disk, states[j].disk, states[k].disk, states[l].disk);
    var found := OpenInterleaved(root, stub, states[i].disk, states[j].disk, states[k].disk, states[l].disk);
    var t := if found.path == LocatorPath(root, stub.identityId, stub.desktopId) then k else l;
    DecidedAt(root, states, events, stub, i, j, t, found.path);
  }
}
