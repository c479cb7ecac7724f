/**
 Serial publication of the crates. Every operation is its ordered list of durable effects; a
 crash keeps a prefix of that list. `Release` is the imperative form of the two operations.
 */
module Release {
  import opened Records

  /** Position of a package in the publication order: storage, core, keys, plugin. */
  type Package = n: nat | n < 4

  datatype Upload =
    | NotAttempted | Armed | Attempted | Uncertain | VerifiedAfterError | Accepted | ReusedVerified

  datatype DryRun = DryRunPending | Running | Passed

  /** What a package archive is identified by: its digest and the digest of every file in it. */
  datatype Archive = Archive(sha256: nat, files: map<string, nat>)

  datatype PackageState = PackageState(dryRun: DryRun, upload: Upload, verified: bool, archive: Option<Archive>)

  type Packages = f: seq<PackageState> | |f| == 4
    witness seq(4, i => PackageState(DryRunPending, NotAttempted, false, None))

  /** The persisted `result.json`; `ci` is set once the candidate gates have passed. */
  datatype State = State(sha: string, publishMode: bool, ci: bool, packages: Packages, previous: seq<Packages>)

  /** A version as the registry reports it, and the archive it serves. */
  datatype Version = Version(checksum: nat, blobDigest: nat, inventory: map<string, nat>)

  datatype Effect =
    | Persist(state: State)
    | Publish(package: Package)
    | Observe(package: Package, version: Version)

  datatype Lookup = Absent | Found(version: Version) | LookupFails

  /** Answers of the outside world during one operation; none of them is trusted. */
  datatype Answers = Answers(
    lookup: Lookup,
    dryRun: Option<Archive>,
    archiveUnchanged: bool,
    published: bool,
    archiveStillUnchanged: bool,
    waited: Option<Version>)

  const FRESH := PackageState(DryRunPending, NotAttempted, false, None)

  predicate Attempting(p: PackageState) {
    p.upload != NotAttempted
  }

  predicate HasUpload(f: Packages) {
    exists i :: 0 <= i < 4 && Attempting(f[i])
  }

  function With(s: State, n: Package, p: PackageState): State {
    s.(packages := s.packages[n := p])
  }

  /** `check_order`: everything before `n` is visible and verified. */
  predicate InOrder(s: State, n: Package) {
    forall i :: 0 <= i < n ==> s.packages[i].verified
  }

  function PriorFrom(previous: seq<Packages>, n: Package): seq<PackageState> {
    if previous == [] then []
    else (if Attempting(previous[0][n]) then [previous[0][n]] else []) + PriorFrom(previous[1..], n)
  }

  /** Evidence of earlier upload attempts of this package. */
  function Prior(s: State, n: Package): seq<PackageState> {
    PriorFrom(s.previous, n)
  }

  predicate SameArchive(prior: seq<PackageState>, a: Archive) {
    forall i :: 0 <= i < |prior| ==> prior[i].archive == Some(a)
  }

  /** `verify`: checksum, downloaded archive and file inventory all equal the recorded ones. */
  predicate Verifies(v: Version, a: Archive) {
    v.checksum == a.sha256 && v.blobDigest == a.sha256 && v.inventory == a.files
  }

  /** The version `wait` returned with, if it verified. */
  function Waited(answers: Answers, a: Archive): Option<Version> {
    if answers.waited.Some? && Verifies(answers.waited.value, a) then answers.waited else None
  }

  /** `prepare`, followed by the final save of the command line driver. */
  function PrepareEffects(s: State, n: Package, answers: Answers): seq<Effect> {
    var p := s.packages[n];
    if !s.ci || !s.publishMode || !InOrder(s, n) || p.upload != NotAttempted || answers.lookup == LookupFails then
      [Persist(s)]
    else if answers.lookup == Absent && Prior(s, n) != [] then
      [Persist(s)]
    else
      var running := With(s, n, p.(dryRun := Running));
      match answers.dryRun
      case None => [Persist(running), Persist(running)]
      case Some(a) =>
        var passed := p.(dryRun := Passed, archive := Some(a));
        [Persist(running)] +
        if answers.lookup == Absent then
          var armed := With(s, n, passed.(upload := Armed));
          [Persist(armed), Persist(armed)]
        else if Prior(s, n) == [] || !SameArchive(Prior(s, n), a) || !Verifies(answers.lookup.version, a)
                || Waited(answers, a) == None then
          [Persist(With(s, n, passed))]
        else
          var reused := With(s, n, passed.(upload := ReusedVerified, verified := true));
          [Observe(n, answers.waited.value), Persist(reused), Persist(reused)]
  }

  /** `upload`, followed by the final save: the intent is durable before the one publish call. */
  function UploadEffects(s: State, n: Package, answers: Answers): seq<Effect> {
    var p := s.packages[n];
    if !s.ci || !s.publishMode || !InOrder(s, n) || p.upload != Armed || p.dryRun != Passed || p.archive == None
       || answers.lookup != Absent || !answers.archiveUnchanged then
      [Persist(s)]
    else
      var a := p.archive.value;
      var attempted := With(s, n, p.(upload := Attempted));
      [Persist(attempted), Publish(n)] +
      if !answers.published then
        var uncertain := With(s, n, p.(upload := Uncertain));
        [Persist(uncertain)] +
        (match Waited(answers, a)
         case None => [Persist(uncertain)]
         case Some(v) =>
           var reconciled := With(s, n, p.(upload := VerifiedAfterError, verified := true));
           [Observe(n, v), Persist(reconciled), Persist(reconciled)])
      else if !answers.archiveStillUnchanged then
        [Persist(attempted)]
      else
        var accepted := With(s, n, p.(upload := Accepted));
        [Persist(accepted)] +
        (match Waited(answers, a)
         case None => [Persist(accepted)]
         case Some(v) =>
           var visible := With(s, n, p.(upload := Accepted, verified := true));
           [Observe(n, v), Persist(visible), Persist(visible)])
  }

  datatype Operation = Prepare(package: Package) | Upload(package: Package)

  function Effects(s: State, op: Operation, answers: Answers): seq<Effect> {
    match op
    case Prepare(n) => PrepareEffects(s, n, answers)
    case Upload(n) => UploadEffects(s, n, answers)
  }

  /** The state on disk after some effects. */
  function Saved(s: State, effects: seq<Effect>): State {
    if effects == [] then s
    else if effects[|effects| - 1].Persist? then effects[|effects| - 1].state
    else Saved(s, effects[..|effects| - 1])
  }

  // ----- The imperative form -----

  class Session {
    var s: State
    var effects: seq<Effect>

    constructor (saved: State)
      ensures s == saved && effects == []
    {
      s := saved;
      effects := [];
    }

    method Save()
      modifies this
      ensures s == old(s) && effects == old(effects) + [Persist(s)]
    {
      effects := effects + [Persist(s)];
    }

    method SetPackage(n: Package, p: PackageState)
      modifies this
      ensures s == With(old(s), n, p) && effects == old(effects)
      ensures forall s0, q :: old(s) == With(s0, n, q) ==> s == With(s0, n, p)
    {
      ghost var before := s;
      s := s.(packages := s.packages[n := p]);
      forall s0, q | before == With(s0, n, q)
        ensures s == With(s0, n, p)
      {
        assert s0.packages[n := q][n := p] == s0.packages[n := p];
      }
    }

    /** `check_order` as the scan over the earlier packages. */
    method CheckOrder(n: Package) returns (ok: bool)
      ensures ok == InOrder(s, n)
    {
      ok := true;
      for i := 0 to n
        invariant ok == forall j :: 0 <= j < i ==> s.packages[j].verified
      {
        if !s.packages[i].verified { ok := false; }
      }
    }

    /** Records a version that verified; anything else stops the operation. */
    method Wait(n: Package, answers: Answers, a: Archive) returns (ok: bool)
      modifies this
      ensures ok == Waited(answers, a).Some? && s == old(s)
      ensures effects == old(effects) + if ok then [Observe(n, answers.waited.value)] else []
    {
      ok := answers.waited.Some? && Verifies(answers.waited.value, a);
      if ok { effects := effects + [Observe(n, answers.waited.value)]; }
    }

    method PriorEvidence(n: Package) returns (prior: seq<PackageState>)
      ensures prior == Prior(s, n)
    {
      prior := [];
      var i := |s.previous|;
      while i > 0
        invariant 0 <= i <= |s.previous| && prior == PriorFrom(s.previous[i..], n)
      {
        i := i - 1;
        assert s.previous[i..][1..] == s.previous[i + 1..];
        if Attempting(s.previous[i][n]) { prior := [s.previous[i][n]] + prior; }
      }
      assert s.previous[0..] == s.previous;
    }

    method PreparePackage(n: Package, answers: Answers)
      requires effects == []
      modifies this
      ensures effects == PrepareEffects(old(s), n, answers)
    {
      PrepareSteps(n, answers);
      Save();
    }

    /** `Release.prepare` up to its return or its `Stop`. */
    method PrepareSteps(n: Package, answers: Answers)
      requires effects == []
      modifies this
      ensures effects + [Persist(s)] == PrepareEffects(old(s), n, answers)
    {
      if !s.ci || !s.publishMode { return; }
      var ordered := CheckOrder(n);
      if !ordered { return; }
      var p := s.packages[n];
      if p.upload != NotAttempted { return; }
      if answers.lookup == LookupFails { return; }
      var prior := PriorEvidence(n);
      if answers.lookup == Absent && prior != [] { return; }
      SetPackage(n, p.(dryRun := Running));
      Save();
      if answers.dryRun == None { return; }
      var a := answers.dryRun.value;
      p := p.(dryRun := Passed, archive := Some(a));
      SetPackage(n, p);
      if answers.lookup != Absent {
        if prior == [] || !SameArchive(prior, a) || !Verifies(answers.lookup.version, a) { return; }
        var ok := Wait(n, answers, a);
        if !ok { return; }
        SetPackage(n, p.(upload := ReusedVerified, verified := true));
      } else {
        SetPackage(n, p.(upload := Armed));
      }
      Save();
    }

    method UploadPackage(n: Package, answers: Answers)
      requires effects == []
      modifies this
      ensures effects == UploadEffects(old(s), n, answers)
    {
      UploadSteps(n, answers);
      Save();
    }

    /** `Release.upload`: never a second publish call, whatever the first one answered. */
    method UploadSteps(n: Package, answers: Answers)
      requires effects == []
      modifies this
      ensures effects + [Persist(s)] == UploadEffects(old(s), n, answers)
    {
      if !s.ci || !s.publishMode { return; }
      var ordered := CheckOrder(n);
      if !ordered { return; }
      var p := s.packages[n];
      if p.upload != Armed || p.dryRun != Passed || p.archive == None { return; }
      if answers.lookup != Absent || !answers.archiveUnchanged { return; }
      var a := p.archive.value;
      SetPackage(n, p.(upload := Attempted));
      Save();
      effects := effects + [Publish(n)];
      if !answers.published {
        SetPackage(n, p.(upload := Uncertain));
        Save();
        var ok := Wait(n, answers, a);
        if !ok { return; }
        SetPackage(n, p.(upload := VerifiedAfterError, verified := true));
        Save();
        return;
      }
      if !answers.archiveStillUnchanged { return; }
      SetPackage(n, p.(upload := Accepted));
      Save();
      var ok := Wait(n, answers, a);
      if !ok { return; }
      SetPackage(n, p.(upload := Accepted, verified := true));
      Save();
    }
  }
}
