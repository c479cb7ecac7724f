/**
 When preparing arms a package or adopts an existing version, and when uploading publishes: each
 exactly, over the recorded runs and the answers of the registry.
 */
module ReleaseMeans {
  import opened Records
  import opened Release
  import opened ReleaseHistory

  /** Some earlier run went beyond not attempting this package. */
  ghost predicate TriedBefore(s: State, n: Package) {
    exists i :: 0 <= i < |s.previous| && s.previous[i][n].upload != NotAttempted
  }

  /** Every earlier attempt of this package was made with exactly this archive. */
  ghost predicate AlwaysWith(s: State, n: Package, a: Archive) {
    forall i :: 0 <= i < |s.previous| && s.previous[i][n].upload != NotAttempted ==>
      s.previous[i][n].archive.Some?
      && s.previous[i][n].archive.value.sha256 == a.sha256
      && s.previous[i][n].archive.value.files == a.files
  }

  /** A publishing run past its gates, with everything before this package verified. */
  ghost predicate MayTouch(s: State, n: Package) {
    s.ci && s.publishMode && forall i :: 0 <= i < n ==> s.packages[i].verified
  }

  lemma {:induction false} PriorMeans(previous: seq<Packages>, n: Package, a: Archive)
    ensures PriorFrom(previous, n) == [] <==>
            forall i :: 0 <= i < |previous| ==> previous[i][n].upload == NotAttempted
    ensures SameArchive(PriorFrom(previous, n), a) <==>
            forall i :: 0 <= i < |previous| && previous[i][n].upload != NotAttempted ==>
                          previous[i][n].archive == Some(a)
    decreases |previous|
  {
    if previous != [] {
      var (rest, first) := (PriorFrom(previous[1..], n), previous[0][n]);
      PriorMeans(previous[1..], n, a);
      assert previous == [previous[0]] + previous[1..];
      if Attempting(first) {
        assert PriorFrom(previous, n) == [first] + rest;
        assert PriorFrom(previous, n)[0] == first;
        assert forall k :: 0 <= k < |rest| ==> PriorFrom(previous, n)[k + 1] == rest[k];
      } else {
        assert PriorFrom(previous, n) == rest;
      }
    }
  }

  /** A package not yet attempted is armed. */
  ghost predicate Arms(s: State, n: Package, answers: Answers) {
    && MayTouch(s, n) && s.packages[n].upload == NotAttempted
    && answers.lookup.Absent? && answers.dryRun.Some?
    && !TriedBefore(s, n)
  }

  /** A version that is already in the registry is taken as this package's. */
  ghost predicate Adopts(s: State, n: Package, answers: Answers) {
    && MayTouch(s, n) && s.packages[n].upload == NotAttempted
    && answers.lookup.Found? && answers.dryRun.Some?
    && TriedBefore(s, n) && AlwaysWith(s, n, answers.dryRun.value)
    && Equal(answers.lookup.version, answers.dryRun.value)
    && answers.waited.Some? && Equal(answers.waited.value, answers.dryRun.value)
  }

  /**
   Main result: preparing arms exactly an absent version that no earlier run attempted, and adopts
   an existing one exactly on evidence of an attempt with this very archive, seen twice.
   */
  lemma PrepareIff(s: State, n: Package, answers: Answers)
    ensures var p := Saved(s, PrepareEffects(s, n, answers)).packages[n];
            if Arms(s, n, answers) then
              p == PackageState(Passed, Armed, s.packages[n].verified, answers.dryRun)
            else if Adopts(s, n, answers) then
              p == PackageState(Passed, ReusedVerified, true, answers.dryRun)
            else
              p.upload == s.packages[n].upload && p.verified == s.packages[n].verified
  {
    PriorOf(s, n, answers);
    ShortSaved(s, PrepareEffects(s, n, answers));
  }

  lemma PriorOf(s: State, n: Package, answers: Answers)
    ensures Prior(s, n) == [] <==> !TriedBefore(s, n)
    ensures answers.dryRun.Some? ==> (SameArchive(Prior(s, n), answers.dryRun.value) <==>
                                      AlwaysWith(s, n, answers.dryRun.value))
  {
    PriorMeans(s.previous, n, if answers.dryRun.Some? then answers.dryRun.value else Archive(0, map[]));
    if answers.dryRun.Some? {
      var a := answers.dryRun.value;
      assert forall b: Archive :: b == a <==> b.sha256 == a.sha256 && b.files == a.files;
    }
  }

  /** Every list of effects ends with a save, which is what stays. */
  lemma ShortSaved(s: State, effects: seq<Effect>)
    requires effects != [] && effects[|effects| - 1].Persist?
    ensures Saved(s, effects) == effects[|effects| - 1].state
  {
  }

  /** At no point before its end does preparing save more than its result, and it publishes nothing. */
  lemma PrepareSaves(s: State, n: Package, answers: Answers, k: nat)
    requires k < |PrepareEffects(s, n, answers)|
    ensures var e := PrepareEffects(s, n, answers)[k];
            && !e.Publish?
            && (e.Persist? && e.state.packages[n].upload == ReusedVerified && s.packages[n].upload != ReusedVerified ==>
                  Adopts(s, n, answers))
            && (e.Persist? && e.state.packages[n].upload == Armed && s.packages[n].upload != Armed ==>
                  Arms(s, n, answers))
            && (e.Persist? ==> e.state == s.(packages := s.packages[n := e.state.packages[n]]))
  {
    PriorOf(s, n, answers);
    assert s.packages[n := s.packages[n]] == s.packages;
  }

  /** An armed package whose archive is as recorded and whose version is still absent. */
  ghost predicate Sends(s: State, n: Package, answers: Answers) {
    var p := s.packages[n];
    && MayTouch(s, n) && p.upload == Armed && p.dryRun == Passed && p.archive.Some?
    && answers.lookup.Absent? && answers.archiveUnchanged
  }

  /**
   Main result: uploading publishes exactly an armed package of a publishing run, and what it ends
   with follows from the publish command's answer and what the registry shows afterwards.
   */
  lemma UploadIff(s: State, n: Package, answers: Answers)
    ensures var effects := UploadEffects(s, n, answers);
            var (p, q) := (s.packages[n], Saved(s, effects).packages[n]);
            var seen := Sends(s, n, answers) && answers.waited.Some? && Equal(answers.waited.value, p.archive.value);
            && (Publish(n) in effects <==> Sends(s, n, answers))
            && q == (if !Sends(s, n, answers) then p
                     else if !answers.published then
                       PackageState(Passed, if seen then VerifiedAfterError else Uncertain, seen || p.verified,
                                    p.archive)
                     else if !answers.archiveStillUnchanged then
                       PackageState(Passed, Attempted, p.verified, p.archive)
                     else PackageState(Passed, Accepted, seen || p.verified, p.archive))
  {
    var effects := UploadEffects(s, n, answers);
    ShortSaved(s, effects);
    if Sends(s, n, answers) { assert effects[1] == Publish(n); }
  }

  ghost predicate TriedSomething(e: State) {
    exists i :: 0 <= i < 4 && e.packages[i].upload != NotAttempted
  }

  lemma {:induction false} AttemptsAre(evidence: seq<State>, f: Packages)
    ensures f in Attempts(evidence) <==>
            exists i :: 0 <= i < |evidence| && TriedSomething(evidence[i]) && evidence[i].packages == f
    decreases |evidence|
  {
    if evidence != [] {
      AttemptsAre(evidence[1..], f);
      assert evidence == [evidence[0]] + evidence[1..];
      assert HasUpload(evidence[0].packages) <==> TriedSomething(evidence[0]);
    }
  }

  /**
   A run passes its gates exactly if the candidate's checks did and, when it publishes, all evidence
   of attempts is of this candidate; it then keeps exactly that evidence, and attempts nothing yet.
   */
  lemma StartedMeans(sha: string, publishMode: bool, evidence: seq<State>, gated: bool, f: Packages)
    ensures var s := StartedState(sha, publishMode, evidence, gated);
            && (s.sha, s.publishMode) == (sha, publishMode)
            && (s.ci <==> gated && (publishMode ==>
                  forall i :: 0 <= i < |evidence| && TriedSomething(evidence[i]) ==> evidence[i].sha == sha))
            && (f in s.previous <==> s.ci && publishMode && exists i ::
                  0 <= i < |evidence| && TriedSomething(evidence[i]) && evidence[i].packages == f)
            && forall n: Package :: s.packages[n] == PackageState(DryRunPending, NotAttempted, false, None)
  {
    AttemptsAre(evidence, f);
    assert forall i :: 0 <= i < |evidence| ==> (HasUpload(evidence[i].packages) <==> TriedSomething(evidence[i]));
  }
}
