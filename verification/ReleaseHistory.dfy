/**
 A history of release runs, each killed anywhere, against a registry that may answer anything.
 A package version is published at most once, only after its intent was durable and all
 earlier packages were verified; a verified mark always has a matching observation.
 */
module ReleaseHistory {
  import opened Records
  import opened Release

  /**
   `log` holds every effect that ever happened; `start` is where the current run's part begins.
   `finished` are the last saved states of the earlier runs.
   */
  datatype World = World(finished: seq<State>, current: State, log: seq<Effect>, start: nat)

  datatype Event =
    | NewRun(sha: string, publishMode: bool, evidence: seq<State>, gated: bool)
    | Operate(op: Operation, answers: Answers, survived: nat)

  function InitialPackages(): Packages {
    [FRESH, FRESH, FRESH, FRESH]
  }

  /** `initial`: keep the evidence that attempted something; it must be of this candidate. */
  function Attempts(evidence: seq<State>): seq<Packages> {
    if evidence == [] then []
    else (if HasUpload(evidence[0].packages) then [evidence[0].packages] else []) + Attempts(evidence[1..])
  }

  predicate SameCandidate(evidence: seq<State>, sha: string) {
    forall i :: 0 <= i < |evidence| && HasUpload(evidence[i].packages) ==> evidence[i].sha == sha
  }

  /**
   A run first saves an ungated state; passing the gates needs the evidence of every earlier
   run that may have published, for the same candidate.
   */
  function StartedState(sha: string, publishMode: bool, evidence: seq<State>, gated: bool): State {
    if gated && (publishMode ==> SameCandidate(evidence, sha)) then
      State(sha, publishMode, true, InitialPackages(), if publishMode then Attempts(evidence) else [])
    else State(sha, publishMode, false, InitialPackages(), [])
  }

  /** Some evidence shows an attempt of this package; the armed intent of a killed upload is one. */
  ghost predicate Evidenced(evidence: seq<State>, n: Package) {
    exists i :: 0 <= i < |evidence| && Attempting(evidence[i].packages[n])
  }

  predicate Sent(p: PackageState) {
    p.upload !in {NotAttempted, Armed}
  }

  /** Every package a finished run may have sent has evidence, if only the intent archived before. */
  ghost predicate Covers(evidence: seq<State>, finished: seq<State>) {
    forall s, n: Package :: s in finished && Sent(s.packages[n]) ==> Evidenced(evidence, n)
  }

  function Survived(effects: seq<Effect>, survived: nat): seq<Effect> {
    if survived < |effects| then effects[..survived] else effects
  }

  ghost predicate Happens(w: World, e: Event, w': World) {
    match e
    case NewRun(sha, publishMode, evidence, gated) =>
      && Covers(evidence, w.finished + [w.current])
      && w' == World(w.finished + [w.current], StartedState(sha, publishMode, evidence, gated),
                     w.log + [Persist(StartedState(sha, publishMode, evidence, gated))], |w.log|)
    case Operate(op, answers, survived) =>
      var done := Survived(Effects(w.current, op, answers), survived);
      w' == w.(current := Saved(w.current, done), log := w.log + done)
  }

  ghost predicate History(worlds: seq<World>, events: seq<Event>) {
    && |worlds| == |events| + 1
    && worlds[0] == World([], StartedState("", false, [], false), [], 0)
    && forall i :: 0 <= i < |events| ==> Happens(worlds[i], events[i], worlds[i + 1])
  }

  function Publications(log: seq<Effect>, n: Package): nat {
    if log == [] then 0
    else Publications(log[..|log| - 1], n) + (if log[|log| - 1] == Publish(n) then 1 else 0)
  }

  lemma {:induction false} PublicationsAdd(a: seq<Effect>, b: seq<Effect>, n: Package)
    ensures Publications(a + b, n) == Publications(a, n) + Publications(b, n)
    decreases |b|
  {
    if b == [] {
      assert a + b == a;
    } else {
      assert (a + b)[..|a + b| - 1] == a + b[..|b| - 1];
      PublicationsAdd(a, b[..|b| - 1], n);
    }
  }

  // ----- One operation -----

  /** How a package's saved state may move during one operation. */
  predicate Advances(p: PackageState, q: PackageState) {
    && (Attempting(p) ==> Attempting(q))
    && (Sent(p) ==> Sent(q))
  }

  /** What an operation's effects are, for every package, as far as they survived. */
  ghost predicate Disciplined(s: State, done: seq<Effect>, n: Package) {
    var s' := Saved(s, done);
    && Publications(done, n) <= 1
    && (Publications(done, n) == 1 ==> s.ci && s.packages[n].upload == Armed && Sent(s'.packages[n]))
    && (s'.ci, s'.previous) == (s.ci, s.previous)
    && Advances(s.packages[n], s'.packages[n])
    && (s'.packages[n].upload == Armed && s.packages[n].upload != Armed ==>
          s.ci && s.publishMode && Prior(s, n) == [])
    && (Attempting(s'.packages[n]) && !Attempting(s.packages[n]) ==> s.ci)
  }

  /** The saved state and the publications after every prefix of a list of at most seven effects. */
  lemma Prefixes(s: State, effects: seq<Effect>, k: nat, n: Package)
    requires 0 < k <= |effects|
    ensures Saved(s, effects[..k])
         == if effects[k - 1].Persist? then effects[k - 1].state else Saved(s, effects[..k - 1])
    ensures Publications(effects[..k], n)
         == Publications(effects[..k - 1], n) + (if effects[k - 1] == Publish(n) then 1 else 0)
  {
    assert effects[..k][..k - 1] == effects[..k - 1];
  }

  lemma {:induction false} PrepareDiscipline(s: State, m: Package, answers: Answers, k: nat, n: Package)
    requires k <= |PrepareEffects(s, m, answers)|
    ensures Disciplined(s, PrepareEffects(s, m, answers)[..k], n)
    ensures Publications(PrepareEffects(s, m, answers)[..k], n) == 0
    decreases k
  {
    var effects := PrepareEffects(s, m, answers);
    if k > 0 {
      PrepareDiscipline(s, m, answers, k - 1, n);
      Prefixes(s, effects, k, n);
    }
  }

  lemma {:induction false} UploadDiscipline(s: State, m: Package, answers: Answers, k: nat, n: Package)
    requires k <= |UploadEffects(s, m, answers)|
    ensures Disciplined(s, UploadEffects(s, m, answers)[..k], n)
    ensures k <= 1 || n != m ==> Publications(UploadEffects(s, m, answers)[..k], n) == 0
    ensures k >= 1 && |UploadEffects(s, m, answers)| > 1 ==>
              Sent(Saved(s, UploadEffects(s, m, answers)[..k]).packages[m])
    decreases k
  {
    var effects := UploadEffects(s, m, answers);
    if k > 0 {
      UploadDiscipline(s, m, answers, k - 1, n);
      Prefixes(s, effects, k, n);
    }
  }

  lemma OperationDiscipline(s: State, op: Operation, answers: Answers, survived: nat, n: Package)
    ensures Disciplined(s, Survived(Effects(s, op, answers), survived), n)
  {
    var effects := Effects(s, op, answers);
    var k := if survived < |effects| then survived else |effects|;
    assert Survived(effects, survived) == effects[..k];
    match op
    case Prepare(m) => PrepareDiscipline(s, m, answers, k, n);
    case Upload(m) => UploadDiscipline(s, m, answers, k, n);
  }

  // ----- At most once -----

  ghost predicate SentEarlier(finished: seq<State>, n: Package) {
    exists i :: 0 <= i < |finished| && Sent(finished[i].packages[n])
  }

  /** Publications of earlier runs and of this one, against what is recorded about them. */
  ghost predicate Once(earlier: nat, now: nat, sent: bool, s: State, n: Package) {
    && earlier + now <= 1
    && (earlier > 0 ==> sent)
    && (now > 0 ==> Sent(s.packages[n]))
    && (s.packages[n].upload == Armed ==> !sent)
    && (s.ci && s.publishMode && Prior(s, n) == [] ==> !sent)
  }

  ghost predicate OnceInv(w: World, n: Package) {
    && w.start <= |w.log|
    && Once(Publications(w.log[..w.start], n), Publications(w.log[w.start..], n),
            SentEarlier(w.finished, n), w.current, n)
  }

  lemma LogSplits(w: World, n: Package)
    requires w.start <= |w.log|
    ensures Publications(w.log, n) == Publications(w.log[..w.start], n) + Publications(w.log[w.start..], n)
  {
    assert w.log == w.log[..w.start] + w.log[w.start..];
    PublicationsAdd(w.log[..w.start], w.log[w.start..], n);
  }

  lemma {:induction false} PriorOfAttempts(evidence: seq<State>, n: Package, i: nat)
    requires i < |evidence| && Attempting(evidence[i].packages[n])
    ensures PriorFrom(Attempts(evidence), n) != []
    decreases |evidence|
  {
    assert HasUpload(evidence[i].packages);
    if i == 0 {
      assert Attempts(evidence) == [evidence[0].packages] + Attempts(evidence[1..]);
    } else {
      PriorOfAttempts(evidence[1..], n, i - 1);
      if HasUpload(evidence[0].packages) {
        assert Attempts(evidence)[1..] == Attempts(evidence[1..]);
      } else {
        assert Attempts(evidence) == Attempts(evidence[1..]);
      }
    }
  }

  lemma OnceNewRun(w: World, e: Event, w': World, n: Package)
    requires OnceInv(w, n) && e.NewRun? && Happens(w, e, w')
    ensures OnceInv(w', n)
  {
    LogSplits(w, n);
    assert w'.log[..w'.start] == w.log;
    assert w'.log[w'.start..] == [Persist(w'.current)];
    assert Publications([Persist(w'.current)], n) == 0 by {
      assert [Persist(w'.current)][..0] == [];
    }
    if Publications(w.log, n) > 0 {
      if Publications(w.log[..w.start], n) > 0 {
        var i :| 0 <= i < |w.finished| && Sent(w.finished[i].packages[n]);
        assert Sent(w'.finished[i].packages[n]);
      } else {
        assert Sent(w'.finished[|w.finished|].packages[n]);
      }
    }
    if w'.current.ci && w'.current.publishMode && SentEarlier(w'.finished, n) {
      var i :| 0 <= i < |w'.finished| && Sent(w'.finished[i].packages[n]);
      assert w'.finished[i] in w'.finished;
      assert Evidenced(e.evidence, n);
      var j :| 0 <= j < |e.evidence| && Attempting(e.evidence[j].packages[n]);
      PriorOfAttempts(e.evidence, n, j);
    }
  }

  lemma OnceOperate(w: World, e: Event, w': World, n: Package)
    requires OnceInv(w, n) && e.Operate? && Happens(w, e, w')
    ensures OnceInv(w', n)
  {
    var done := Survived(Effects(w.current, e.op, e.answers), e.survived);
    assert w'.log[..w'.start] == w.log[..w.start];
    assert w'.log[w'.start..] == w.log[w.start..] + done;
    PublicationsAdd(w.log[w.start..], done, n);
    OperationDiscipline(w.current, e.op, e.answers, e.survived, n);
    ModeKept(w.current, e.op, e.answers, e.survived);
    OnceStep(Publications(w.log[..w.start], n), Publications(w.log[w.start..], n),
             SentEarlier(w.finished, n), w.current, done, n);
  }

  lemma OnceStep(earlier: nat, now: nat, sent: bool, s: State, done: seq<Effect>, n: Package)
    requires Once(earlier, now, sent, s, n) && Disciplined(s, done, n)
    requires Saved(s, done).publishMode == s.publishMode
    ensures Once(earlier, now + Publications(done, n), sent, Saved(s, done), n)
  {
  }

  /** Nothing changes what the run was started as, and only a publishing run arms an upload. */
  lemma ModeKept(s: State, op: Operation, answers: Answers, survived: nat)
    ensures var s' := Saved(s, Survived(Effects(s, op, answers), survived));
            (s'.sha, s'.publishMode) == (s.sha, s.publishMode)
            && (!s.publishMode ==> s'.packages == s.packages)
  {
    var effects := Effects(s, op, answers);
    var k := if survived < |effects| then survived else |effects|;
    assert Survived(effects, survived) == effects[..k];
    ModeOfPrefix(s, op, answers, k);
  }

  lemma {:induction false} ModeOfPrefix(s: State, op: Operation, answers: Answers, k: nat)
    requires k <= |Effects(s, op, answers)|
    ensures var s' := Saved(s, Effects(s, op, answers)[..k]);
            (s'.sha, s'.publishMode) == (s.sha, s.publishMode)
            && (!s.publishMode ==> s'.packages == s.packages)
    decreases k
  {
    if k > 0 {
      ModeOfPrefix(s, op, answers, k - 1);
      Prefixes(s, Effects(s, op, answers), k, 0);
    }
  }

  lemma {:induction false} OnceThroughout(worlds: seq<World>, events: seq<Event>, n: Package)
    requires History(worlds, events)
    ensures forall i :: 0 <= i < |worlds| ==> OnceInv(worlds[i], n)
    decreases |events|
  {
    if events != [] {
      var k := |events| - 1;
      assert History(worlds[..k + 1], events[..k]);
      OnceThroughout(worlds[..k + 1], events[..k], n);
      assert worlds[..k + 1][k] == worlds[k];
      assert Happens(worlds[k], events[k], worlds[k + 1]);
      match events[k]
      case NewRun(_, _, _, _) => OnceNewRun(worlds[k], events[k], worlds[k + 1], n);
      case Operate(_, _, _) => OnceOperate(worlds[k], events[k], worlds[k + 1], n);
    }
  }

  /** Main result: no history of killed runs publishes a package version twice. */
  lemma PublishedAtMostOnce(worlds: seq<World>, events: seq<Event>, n: Package)
    requires History(worlds, events)
    ensures Publications(worlds[|events|].log, n) <= 1
  {
    OnceThroughout(worlds, events, n);
    LogSplits(worlds[|events|], n);
  }

  // ----- Serial order and evidence of visibility -----

  /** Since `from`, the registry served a version of `n` equal to the archive `a` in every respect. */
  ghost predicate Seen(log: seq<Effect>, from: nat, n: Package, a: Archive) {
    exists j :: from <= j < |log| && log[j].Observe? && log[j].package == n && Equal(log[j].version, a)
  }

  /** The registry's checksum, the archive it serves and that archive's files are those recorded. */
  predicate Equal(v: Version, a: Archive) {
    v.checksum == a.sha256 && v.blobDigest == a.sha256 && v.inventory == a.files
  }

  ghost predicate Visible(s: State, log: seq<Effect>, from: nat, n: Package) {
    && s.packages[n].verified
    && Sent(s.packages[n])
    && s.packages[n].archive.Some?
    && Seen(log, from, n, s.packages[n].archive.value)
  }

  /** The verified packages are a prefix of the order, and each was seen by this very run. */
  ghost predicate Confirmed(s: State, log: seq<Effect>, from: nat) {
    && (forall m: Package, n: Package :: m <= n && s.packages[n].verified ==> s.packages[m].verified)
    && (forall n: Package :: s.packages[n].verified ==> Visible(s, log, from, n))
  }

  /** The effect just before a publication is its durable intent, made when all before it was visible. */
  ghost predicate Justified(log: seq<Effect>, i: nat)
    requires i < |log| && log[i].Publish?
  {
    && i > 0 && log[i - 1].Persist?
    && var (s, n) := (log[i - 1].state, log[i].package);
       && s.ci && s.publishMode && s.packages[n].upload == Attempted
       && forall m: Package :: m < n ==> Visible(s, log[..i], 0, m)
  }

  lemma SeenMore(log: seq<Effect>, more: seq<Effect>, from: nat, n: Package, a: Archive)
    requires Seen(log, from, n, a)
    ensures Seen(log + more, from, n, a)
  {
    var j :| from <= j < |log| && log[j].Observe? && log[j].package == n && Equal(log[j].version, a);
    assert (log + more)[j] == log[j];
  }

  lemma ConfirmedMore(s: State, log: seq<Effect>, more: seq<Effect>, from: nat)
    requires Confirmed(s, log, from)
    ensures Confirmed(s, log + more, from)
  {
    forall n: Package | s.packages[n].verified
      ensures Visible(s, log + more, from, n)
    {
      assert Visible(s, log, from, n);
      SeenMore(log, more, from, n, s.packages[n].archive.value);
    }
  }

  /** What an operation may save about its package, given what it has done before saving. */
  ghost predicate Permitted(s: State, n: Package, before: seq<Effect>, s': State) {
    || s' == s
    || (!Sent(s.packages[n]) && InOrder(s, n) && s' == With(s, n, s'.packages[n])
        && (s'.packages[n].verified ==> Sent(s'.packages[n]) && s'.packages[n].archive.Some?
                                        && Seen(before, 0, n, s'.packages[n].archive.value)))
  }

  lemma EffectsPermitted(s: State, op: Operation, answers: Answers, k: nat)
    requires s.packages[op.package].verified ==> Sent(s.packages[op.package])
    requires k < |Effects(s, op, answers)| && Effects(s, op, answers)[k].Persist?
    ensures Permitted(s, op.package, Effects(s, op, answers)[..k], Effects(s, op, answers)[k].state)
  {
    var (effects, n) := (Effects(s, op, answers), op.package);
    var s' := effects[k].state;
    if s'.packages[n].verified && s' != s {
      var j := if op.Prepare? then 1 else 3;
      assert effects[..k][j] == effects[j];
    }
  }

  lemma {:induction false} SavedPermitted(s: State, op: Operation, answers: Answers, k: nat)
    requires s.packages[op.package].verified ==> Sent(s.packages[op.package])
    requires k <= |Effects(s, op, answers)|
    ensures var done := Effects(s, op, answers)[..k]; Permitted(s, op.package, done, Saved(s, done))
    decreases k
  {
    var effects := Effects(s, op, answers);
    if k > 0 {
      SavedPermitted(s, op, answers, k - 1);
      Prefixes(s, effects, k, 0);
      assert effects[..k] == effects[..k - 1] + [effects[k - 1]];
      var s' := Saved(s, effects[..k]);
      if effects[k - 1].Persist? { EffectsPermitted(s, op, answers, k - 1); }
      if s' != s && s'.packages[op.package].verified {
        SeenMore(effects[..k - 1], [effects[k - 1]], 0, op.package, s'.packages[op.package].archive.value);
      }
    }
  }

  lemma ConfirmedStep(s: State, log: seq<Effect>, from: nat, n: Package, done: seq<Effect>, s': State)
    requires from <= |log|
    requires Confirmed(s, log, from) && Permitted(s, n, done, s')
    ensures Confirmed(s', log + done, from)
  {
    ConfirmedMore(s, log, done, from);
    if s' != s {
      forall m: Package | s'.packages[m].verified
        ensures Visible(s', log + done, from, m)
      {
        if m == n {
          var a := s'.packages[n].archive.value;
          var j :| 0 <= j < |done| && done[j].Observe? && done[j].package == n && Equal(done[j].version, a);
          assert (log + done)[|log| + j] == done[j];
        } else {
          assert Visible(s, log + done, from, m);
        }
      }
    }
  }

  lemma PublishJustified(s: State, log: seq<Effect>, from: nat, op: Operation, answers: Answers, i: nat)
    requires Confirmed(s, log, from)
    requires i < |Effects(s, op, answers)| && Effects(s, op, answers)[i].Publish?
    ensures Justified(log + Effects(s, op, answers), |log| + i)
  {
    var effects := Effects(s, op, answers);
    var all := log + effects;
    assert i == 1 && op.Upload? && effects[i].package == op.package;
    var s' := effects[0].state;
    assert all[|log| + i - 1] == effects[0] && all[|log| + i] == effects[i];
    assert all[..|log| + i] == log + effects[..i];
    forall m: Package {:trigger s.packages[m]} | m < op.package
      ensures Visible(s', all[..|log| + i], 0, m)
    {
      assert Visible(s, log, from, m);
      SeenMore(log, effects[..i], from, m, s.packages[m].archive.value);
    }
  }

  lemma JustifiedMore(log: seq<Effect>, more: seq<Effect>, i: nat)
    requires i < |log| && log[i].Publish? && Justified(log, i)
    ensures (log + more)[i] == log[i] && Justified(log + more, i)
  {
    assert (log + more)[..i] == log[..i];
  }

  ghost predicate SerialInv(w: World) {
    && w.start <= |w.log|
    && Confirmed(w.current, w.log, w.start)
    && forall i :: 0 <= i < |w.log| && w.log[i].Publish? ==> Justified(w.log, i)
  }

  lemma JustifiedPrefix(log: seq<Effect>, i: nat, k: nat)
    requires i < k <= |log| && log[i].Publish? && Justified(log, i)
    ensures log[..k][i].Publish? && Justified(log[..k], i)
  {
    assert log[..k][..i] == log[..i];
  }

  /** Everything sent during one operation is justified, however much of it survives. */
  lemma OperationJustified(s: State, log: seq<Effect>, from: nat, op: Operation, answers: Answers, k: nat, i: nat)
    requires Confirmed(s, log, from) && k <= |Effects(s, op, answers)|
    requires i < k && Effects(s, op, answers)[i].Publish?
    ensures var now := log + Effects(s, op, answers)[..k];
            now[|log| + i].Publish? && Justified(now, |log| + i)
  {
    var full := log + Effects(s, op, answers);
    PublishJustified(s, log, from, op, answers, i);
    JustifiedPrefix(full, |log| + i, |log| + k);
    assert full[..|log| + k] == log + Effects(s, op, answers)[..k];
  }

  lemma OperationConfirmed(s: State, log: seq<Effect>, from: nat, op: Operation, answers: Answers, k: nat)
    requires from <= |log| && Confirmed(s, log, from) && k <= |Effects(s, op, answers)|
    ensures var done := Effects(s, op, answers)[..k]; Confirmed(Saved(s, done), log + done, from)
  {
    if s.packages[op.package].verified { assert Visible(s, log, from, op.package); }
    var done := Effects(s, op, answers)[..k];
    SavedPermitted(s, op, answers, k);
    ConfirmedStep(s, log, from, op.package, done, Saved(s, done));
  }

  lemma SerialOperate(w: World, op: Operation, answers: Answers, k: nat, w': World)
    requires SerialInv(w) && k <= |Effects(w.current, op, answers)|
    requires var done := Effects(w.current, op, answers)[..k];
             w' == w.(current := Saved(w.current, done), log := w.log + done)
    ensures SerialInv(w')
  {
    var done := Effects(w.current, op, answers)[..k];
    OperationConfirmed(w.current, w.log, w.start, op, answers, k);
    forall i | 0 <= i < |w'.log| && w'.log[i].Publish?
      ensures Justified(w'.log, i)
    {
      if i < |w.log| {
        JustifiedMore(w.log, done, i);
      } else {
        OperationJustified(w.current, w.log, w.start, op, answers, k, i - |w.log|);
      }
    }
  }

  lemma SerialStep(w: World, e: Event, w': World)
    requires SerialInv(w) && Happens(w, e, w')
    ensures SerialInv(w')
  {
    match e
    case NewRun(_, _, _, _) =>
      var added := [Persist(w'.current)];
      forall i | 0 <= i < |w'.log| && w'.log[i].Publish?
        ensures Justified(w'.log, i)
      {
        JustifiedMore(w.log, added, i);
      }
    case Operate(op, answers, survived) =>
      var effects := Effects(w.current, op, answers);
      SerialOperate(w, op, answers, if survived < |effects| then survived else |effects|, w');
  }

  /**
   Main result: in every history the verified packages are a prefix of the order, each seen in
   the registry with the recorded checksum and inventory, and every publication directly follows
   its durable intent with all earlier packages visible.
   */
  lemma {:induction false} SerialThroughout(worlds: seq<World>, events: seq<Event>)
    requires History(worlds, events)
    ensures SerialInv(worlds[|events|])
    decreases |events|
  {
    if events != [] {
      var k := |events| - 1;
      assert History(worlds[..k + 1], events[..k]);
      SerialThroughout(worlds[..k + 1], events[..k]);
      assert worlds[..k + 1][k] == worlds[k];
      assert Happens(worlds[k], events[k], worlds[k + 1]);
      SerialStep(worlds[k], events[k], worlds[k + 1]);
    }
  }
}
