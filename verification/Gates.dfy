/**
 What feeds the history of release runs: the paged listing, the evidence of one earlier run and
 the scan over all matching runs. Either every attempt is retrieved or the release stops.
 */
module Gates {
  import opened Records
  import opened Release
  import opened ReleaseHistory

  const PAGE_SIZE := 100
  const MAX_PAGES := 100

  datatype Artifact = Artifact(isEvidence: bool, expired: bool, digestMatches: bool, results: seq<State>)

  /** `genuine` stands for the workflow, repository, event and branch comparisons of the run. */
  datatype WorkflowRun = WorkflowRun(id: nat, title: string, genuine: bool, completed: bool, artifacts: seq<Artifact>)

  // ----- Paging -----

  function Least(a: nat, b: nat): nat {
    if a < b then a else b
  }

  /** What the server answers for one page of a listing; pages count from 1. */
  function Page<T>(listing: seq<T>, page: nat): seq<T>
    requires page > 0
  {
    listing[Least(PAGE_SIZE * (page - 1), |listing|)..Least(PAGE_SIZE * page, |listing|)]
  }

  /** `pages`: the whole listing, or nothing once a hundred pages were full. */
  method Pages<T>(listing: seq<T>) returns (r: Result<seq<T>, string>)
    ensures r == if |listing| < 10_000 then Ok(listing) else Err("github-pagination-limit")
  {
    var result := [];
    for page := 1 to MAX_PAGES + 1
      invariant PAGE_SIZE * (page - 1) <= |listing|
      invariant result == listing[..PAGE_SIZE * (page - 1)]
    {
      var data := Page(listing, page);
      result := result + data;
      if |data| < PAGE_SIZE {
        assert result == listing;
        return Ok(result);
      }
      assert result == listing[..PAGE_SIZE * page];
    }
    return Err("github-pagination-limit");
  }

  // ----- One earlier run -----

  function Evidence(artifacts: seq<Artifact>): seq<State> {
    if artifacts == [] then []
    else Evidence(artifacts[..|artifacts| - 1])
         + (if artifacts[|artifacts| - 1].isEvidence then artifacts[|artifacts| - 1].results else [])
  }

  lemma {:induction false} EvidenceIff(artifacts: seq<Artifact>)
    ensures Evidence(artifacts) != [] <==>
            exists i :: 0 <= i < |artifacts| && artifacts[i].isEvidence && artifacts[i].results != []
    decreases |artifacts|
  {
    if artifacts != [] {
      var last := |artifacts| - 1;
      EvidenceIff(artifacts[..last]);
      assert artifacts == artifacts[..last] + [artifacts[last]];
    }
  }

  /** No evidence of the run is expired or altered, and there is some. */
  predicate Recoverable(run: WorkflowRun) {
    && run.genuine && run.completed
    && |run.artifacts| < PAGE_SIZE * MAX_PAGES
    && (forall i :: 0 <= i < |run.artifacts| && run.artifacts[i].isEvidence ==>
          !run.artifacts[i].expired && run.artifacts[i].digestMatches)
    && Evidence(run.artifacts) != []
  }

  method Recovery(run: WorkflowRun) returns (r: Result<seq<State>, string>)
    ensures r.Ok? <==> Recoverable(run)
    ensures r.Ok? <==> && run.genuine && run.completed && |run.artifacts| < 10_000
                       && (forall i :: 0 <= i < |run.artifacts| && run.artifacts[i].isEvidence ==>
                             !run.artifacts[i].expired && run.artifacts[i].digestMatches)
                       && (exists i :: 0 <= i < |run.artifacts| && run.artifacts[i].isEvidence
                                       && run.artifacts[i].results != [])
    ensures r.Ok? ==> r.value == Evidence(run.artifacts)
  {
    if !run.genuine { return Err("run-source"); }
    if !run.completed { return Err("recovery-run-incomplete"); }
    var listed := Pages(run.artifacts);
    if listed.Err? { return Err(listed.error); }
    var artifacts := listed.value;
    var evidence := [];
    for i := 0 to |artifacts|
      invariant evidence == Evidence(artifacts[..i])
      invariant forall j :: 0 <= j < i && artifacts[j].isEvidence ==>
                  !artifacts[j].expired && artifacts[j].digestMatches
    {
      assert artifacts[..i + 1][..i] == artifacts[..i];
      if !artifacts[i].isEvidence { continue; }
      if artifacts[i].expired { return Err("recovery-evidence-expired"); }
      if !artifacts[i].digestMatches { return Err("recovery-artifact-digest"); }
      evidence := evidence + artifacts[i].results;
    }
    assert artifacts[..|artifacts|] == artifacts;
    EvidenceIff(artifacts);
    if evidence == [] { return Err("recovery-evidence-missing"); }
    return Ok(evidence);
  }

  // ----- Every matching run -----

  /** The scan's selection: other runs titled as a publication of this version, or the named one. */
  predicate Selected(run: WorkflowRun, title: string, own: nat, named: Option<nat>) {
    run.id != own && (run.title == title || named == Some(run.id))
  }

  function Collected(runs: seq<WorkflowRun>, title: string, own: nat, named: Option<nat>): seq<State> {
    if runs == [] then []
    else Collected(runs[..|runs| - 1], title, own, named)
         + (if Selected(runs[|runs| - 1], title, own, named) then Evidence(runs[|runs| - 1].artifacts) else [])
  }

  /** A run of this publication, or the one named for recovery. */
  predicate Wanted(run: WorkflowRun, title: string, named: Option<nat>) {
    run.title == title || named == Some(run.id)
  }

  method PriorPublications(runs: seq<WorkflowRun>, title: string, own: nat, named: Option<nat>)
    returns (r: Result<seq<State>, string>)
    ensures r.Ok? <==> && |runs| < 10_000
                       && (forall i ::
                             0 <= i < |runs| && runs[i].id != own && Wanted(runs[i], title, named) ==>
                             Recoverable(runs[i]))
                       && (named.Some? ==>
                             exists i :: 0 <= i < |runs| && runs[i].id == named.value && named.value != own)
    ensures r.Ok? ==> r.value == Collected(runs, title, own, named)
  {
    var listed := Pages(runs);
    if listed.Err? { return Err(listed.error); }
    var previous, found := [], named.None?;
    for i := 0 to |runs|
      invariant previous == Collected(runs[..i], title, own, named)
      invariant found <==> named.None? || exists j :: 0 <= j < i && runs[j].id == named.value && named.value != own
      invariant forall j :: 0 <= j < i && Selected(runs[j], title, own, named) ==> Recoverable(runs[j])
    {
      assert runs[..i + 1][..i] == runs[..i];
      if runs[i].id == own { continue; }
      if runs[i].title != title && named != Some(runs[i].id) { continue; }
      found := found || named == Some(runs[i].id);
      var more := Recovery(runs[i]);
      if more.Err? { return Err(more.error); }
      previous := previous + more.value;
    }
    assert runs[..|runs|] == runs;
    if !found { return Err("recovery-run-not-found"); }
    return Ok(previous);
  }

  lemma {:induction false} EvidenceAre(artifacts: seq<Artifact>, s: State)
    ensures s in Evidence(artifacts) <==>
            exists j :: 0 <= j < |artifacts| && artifacts[j].isEvidence && s in artifacts[j].results
    decreases |artifacts|
  {
    if artifacts != [] {
      var last := |artifacts| - 1;
      EvidenceAre(artifacts[..last], s);
      assert artifacts == artifacts[..last] + [artifacts[last]];
    }
  }

  /** The evidence of a run of this publication, or of the one named for recovery, other than this very run. */
  ghost predicate EvidenceOf(run: WorkflowRun, title: string, own: nat, named: Option<nat>, s: State) {
    && run.id != own && Wanted(run, title, named)
    && exists j :: 0 <= j < |run.artifacts| && run.artifacts[j].isEvidence && s in run.artifacts[j].results
  }

  /** The scan collects nothing else, and all of it. */
  lemma {:induction false} CollectedAre(runs: seq<WorkflowRun>, title: string, own: nat, named: Option<nat>, s: State)
    ensures s in Collected(runs, title, own, named) <==>
            exists i :: 0 <= i < |runs| && EvidenceOf(runs[i], title, own, named, s)
    decreases |runs|
  {
    if runs != [] {
      var last := |runs| - 1;
      CollectedAre(runs[..last], title, own, named, s);
      EvidenceAre(runs[last].artifacts, s);
      assert runs == runs[..last] + [runs[last]];
    }
  }

  /** Evidence `s` lies in an artifact of another run of this publication. */
  ghost predicate Archived(runs: seq<WorkflowRun>, title: string, own: nat, s: State, i: nat, j: nat) {
    && i < |runs| && runs[i].id != own && runs[i].title == title
    && j < |runs[i].artifacts| && runs[i].artifacts[j].isEvidence && s in runs[i].artifacts[j].results
  }

  /** A run that may have sent the package left at least its intent, archived before anything is sent. */
  ghost predicate IntentArchived(runs: seq<WorkflowRun>, title: string, own: nat, n: Package) {
    exists s, i, j :: Archived(runs, title, own, s, i, j) && Attempting(s.packages[n])
  }

  lemma {:induction false} EvidenceHas(artifacts: seq<Artifact>, j: nat, s: State)
    requires j < |artifacts| && artifacts[j].isEvidence && s in artifacts[j].results
    ensures s in Evidence(artifacts)
    decreases |artifacts|
  {
    if j < |artifacts| - 1 { EvidenceHas(artifacts[..|artifacts| - 1], j, s); }
  }

  lemma {:induction false} CollectedHas(runs: seq<WorkflowRun>, title: string, own: nat, named: Option<nat>,
                                        s: State, i: nat, j: nat)
    requires Archived(runs, title, own, s, i, j)
    ensures s in Collected(runs, title, own, named)
    decreases |runs|
  {
    if i < |runs| - 1 {
      assert Archived(runs[..|runs| - 1], title, own, s, i, j);
      CollectedHas(runs[..|runs| - 1], title, own, named, s, i, j);
    } else {
      EvidenceHas(runs[i].artifacts, j, s);
    }
  }

  /**
   Whatever is named for recovery, the scan hands a new run evidence of every package that an
   earlier run may have sent: exactly what the history of runs relies on.
   */
  lemma ScanCovers(runs: seq<WorkflowRun>, title: string, own: nat, named: Option<nat>, finished: seq<State>)
    requires forall s, n: Package :: s in finished && Sent(s.packages[n]) ==> IntentArchived(runs, title, own, n)
    ensures Covers(Collected(runs, title, own, named), finished)
  {
    var evidence := Collected(runs, title, own, named);
    forall s, n: Package | s in finished && Sent(s.packages[n])
      ensures Evidenced(evidence, n)
    {
      assert IntentArchived(runs, title, own, n);
      var e, i, j :| Archived(runs, title, own, e, i, j) && Attempting(e.packages[n]);
      CollectedHas(runs, title, own, named, e, i, j);
      var k :| 0 <= k < |evidence| && evidence[k] == e;
    }
  }
}
