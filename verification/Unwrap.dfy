/**
 Which stanza and identity an unwrap commits to, and what one invocation answers. Everything
 outside (files, keys, phone) is an `Environment`; this is the specification the loops meet.
 */
module Unwrap {
  import opened Records

  datatype Kind = V1 | V2 | TagKind | Foreign

  /** `wellFormed` is the verdict of the stanza parser; `body` identifies the rest. */
  datatype Stanza = Stanza(kind: Kind, wellFormed: bool, body: nat)

  datatype Candidate = Candidate(index: nat, stanza: Stanza)

  datatype Match = Matches | Differs | MatchFails

  datatype Exchange = InputFails | Cancelled | Disconnected | Garbled | Response(body: nat)

  datatype Message =
    | MalformedStanza | AmbiguousTag | RootUnavailable | NoIdentity | AnonymousStanza | PairingUnavailable
    | KeysUnavailable | IdentityMalformed | SelectionFailed | NotPrepared | ReplayUnavailable | NoRequest
    | UserCancelled | NotConnected | NoResponse | Rejected

  datatype Error = StanzaError(file: nat, stanza: nat, message: Message)
                 | IdentityError(identity: nat, message: Message)
                 | InternalError(message: Message)

  type FileKey = nat

  /** Answers of the outside, by position of the identity and by file where they may change. */
  datatype Environment = Environment(
    key: nat -> nat,
    tagMatches: (nat, Stanza) -> bool,
    privateMatch: (nat, Stanza) -> Match,
    root: nat -> bool,
    locatorOpens: (nat, nat) -> bool,
    keysOpen: (nat, nat) -> bool,
    recipientParses: nat -> bool,
    prepares: (nat, nat) -> bool,
    replayOpens: (nat, nat) -> bool,
    clock: nat -> bool,
    requests: (nat, nat, Candidate) -> bool,
    exchange: (nat, nat, Candidate) -> Exchange,
    receives: (nat, nat, nat) -> Option<FileKey>)

  // ----- Candidates -----

  predicate Relevant(s: Stanza) {
    s.kind != Foreign
  }

  function Malformed(file: nat, stanzas: seq<Stanza>): seq<Error> {
    if stanzas == [] then []
    else
      var k := |stanzas| - 1;
      Malformed(file, stanzas[..k])
      + (if Relevant(stanzas[k]) && !stanzas[k].wellFormed then [StanzaError(file, k, MalformedStanza)] else [])
  }

  function Candidates(stanzas: seq<Stanza>): (c: seq<Candidate>)
    ensures forall i :: 0 <= i < |c| ==> c[i].index < |stanzas| && stanzas[c[i].index] == c[i].stanza
                                         && Relevant(c[i].stanza) && c[i].stanza.wellFormed
    ensures forall i, j :: 0 <= i < j < |c| ==> c[i].index < c[j].index
  {
    if stanzas == [] then []
    else
      var k := |stanzas| - 1;
      Candidates(stanzas[..k])
      + (if Relevant(stanzas[k]) && stanzas[k].wellFormed then [Candidate(k, stanzas[k])] else [])
  }

  // ----- Public matches of tag stanzas -----

  /** The first of the first `n` identities whose public key the tag stanza names. */
  function FirstMatch(env: Environment, s: Stanza, n: nat): (r: Option<nat>)
    ensures r.Some? <==> exists i :: 0 <= i < n && env.tagMatches(i, s)
    ensures r.Some? ==>
              r.value < n && env.tagMatches(r.value, s) && forall i :: 0 <= i < r.value ==> !env.tagMatches(i, s)
  {
    if n == 0 then None
    else
      var r := FirstMatch(env, s, n - 1);
      if r.Some? then r else if env.tagMatches(n - 1, s) then Some(n - 1) else None
  }

  /** How often the stanza names a key other than the one it named first. */
  function Conflicts(env: Environment, s: Stanza, n: nat): nat {
    if n == 0 then 0
    else
      var first := FirstMatch(env, s, n - 1);
      Conflicts(env, s, n - 1)
      + (if env.tagMatches(n - 1, s) && first.Some? && env.key(first.value) != env.key(n - 1) then 1 else 0)
  }

  function AllConflicts(env: Environment, candidates: seq<Candidate>, n: nat): nat {
    if candidates == [] then 0
    else
      var k := |candidates| - 1;
      AllConflicts(env, candidates[..k], n)
      + (if candidates[k].stanza.kind == TagKind then Conflicts(env, candidates[k].stanza, n) else 0)
  }

  /** Identity and position of the first tag candidate that names one of the first `n` identities. */
  function PublicMatch(env: Environment, candidates: seq<Candidate>, n: nat): Option<(nat, nat)> {
    if candidates == [] then None
    else
      var k := |candidates| - 1;
      var earlier := PublicMatch(env, candidates[..k], n);
      if earlier.Some? then earlier
      else if candidates[k].stanza.kind == TagKind && FirstMatch(env, candidates[k].stanza, n).Some?
      then Some((FirstMatch(env, candidates[k].stanza, n).value, k))
      else None
  }

  function WithoutTags(candidates: seq<Candidate>): seq<Candidate> {
    if candidates == [] then []
    else
      var k := |candidates| - 1;
      WithoutTags(candidates[..k]) + (if candidates[k].stanza.kind == TagKind then [] else [candidates[k]])
  }

  // ----- Private selection -----

  datatype Selection = Chosen(position: nat, candidate: Candidate) | Miss | Refused(errors: seq<Error>)

  predicate Opens(env: Environment, file: nat, position: nat) {
    env.locatorOpens(file, position) && env.keysOpen(file, position) && env.recipientParses(position)
  }

  function OpenError(env: Environment, file: nat, position: nat, identity: nat): Error {
    IdentityError(identity, if !env.locatorOpens(file, position) then PairingUnavailable
                            else if !env.keysOpen(file, position) then KeysUnavailable else IdentityMalformed)
  }

  /** Positions of the identities that open. */
  function Opened(env: Environment, file: nat, identities: seq<nat>): (o: seq<nat>)
    ensures forall i :: 0 <= i < |o| ==> o[i] < |identities| && Opens(env, file, o[i])
    ensures forall i, j :: 0 <= i < j < |o| ==> o[i] < o[j]
  {
    if identities == [] then []
    else
      var k := |identities| - 1;
      Opened(env, file, identities[..k]) + (if Opens(env, file, k) then [k] else [])
  }

  function OpenErrors(env: Environment, file: nat, identities: seq<nat>): seq<Error> {
    if identities == [] then []
    else
      var k := |identities| - 1;
      OpenErrors(env, file, identities[..k])
      + (if Opens(env, file, k) then [] else [OpenError(env, file, k, identities[k])])
  }

  /** The first candidate about which the identity does not say that it differs. */
  function FirstDecisive(env: Environment, position: nat, candidates: seq<Candidate>): (r: Option<nat>)
    ensures r.Some? ==> && r.value < |candidates| && env.privateMatch(position, candidates[r.value].stanza) != Differs
                        && forall i :: 0 <= i < r.value ==> env.privateMatch(position, candidates[i].stanza) == Differs
    ensures r.None? ==>
              forall i :: 0 <= i < |candidates| ==> env.privateMatch(position, candidates[i].stanza) == Differs
  {
    if candidates == [] then None
    else
      var k := |candidates| - 1;
      var r := FirstDecisive(env, position, candidates[..k]);
      if r.Some? then r else if env.privateMatch(position, candidates[k].stanza) != Differs then Some(k) else None
  }

  /** The first decisive pair in the order of identities, then of candidates. */
  function Decisive(env: Environment, ready: seq<nat>, candidates: seq<Candidate>): (r: Option<(nat, nat)>)
    ensures r.Some? ==>
              && r.value.0 < |ready| && FirstDecisive(env, ready[r.value.0], candidates) == Some(r.value.1)
              && forall i :: 0 <= i < r.value.0 ==> FirstDecisive(env, ready[i], candidates) == None
    ensures r.None? ==> forall i :: 0 <= i < |ready| ==> FirstDecisive(env, ready[i], candidates) == None
  {
    if ready == [] then None
    else
      var k := |ready| - 1;
      var r := Decisive(env, ready[..k], candidates);
      if r.Some? then r
      else
        var d := FirstDecisive(env, ready[k], candidates);
        if d.Some? then Some((k, d.value)) else None
  }

  function AnonymousErrors(file: nat, candidates: seq<Candidate>): seq<Error> {
    seq(|candidates|, i requires 0 <= i < |candidates| => StanzaError(file, candidates[i].index, AnonymousStanza))
  }

  predicate HasAnonymous(candidates: seq<Candidate>) {
    exists i :: 0 <= i < |candidates| && candidates[i].stanza.kind != V2
  }

  /** A sole identity and a sole candidate need no private match. */
  function SelectSole(env: Environment, file: nat, position: nat, identity: nat, candidate: Candidate): Selection {
    if !env.locatorOpens(file, position) then Refused([IdentityError(identity, PairingUnavailable)])
    else if !env.keysOpen(file, position) then Refused([IdentityError(identity, KeysUnavailable)])
    else Chosen(position, candidate)
  }

  function SelectPrivate(env: Environment, file: nat, identities: seq<nat>, candidates: seq<Candidate>): Selection {
    var ready := Opened(env, file, identities);
    match Decisive(env, ready, candidates)
    case Some(pair) =>
      FirstIsWithin(env, ready[pair.0], candidates);
      if env.privateMatch(ready[pair.0], candidates[pair.1].stanza) == Matches
      then Chosen(ready[pair.0], candidates[pair.1]) else Refused([InternalError(SelectionFailed)])
    case None =>
      if OpenErrors(env, file, identities) == [] then Miss else Refused(OpenErrors(env, file, identities))
  }

  lemma FirstIsWithin(env: Environment, position: nat, candidates: seq<Candidate>)
    ensures var r := FirstDecisive(env, position, candidates); r.Some? ==> r.value < |candidates|
  {
  }

  function Select(env: Environment, file: nat, identities: seq<nat>, candidates: seq<Candidate>): Selection {
    if identities == [] then Refused([InternalError(NoIdentity)])
    else if HasAnonymous(candidates) then
      if |identities| != 1 || |candidates| != 1 then Refused(AnonymousErrors(file, candidates))
      else SelectSole(env, file, 0, identities[0], candidates[0])
    else SelectPrivate(env, file, identities, candidates)
  }

  // ----- One file -----

  datatype Outcome = Key(key: FileKey) | Failed(errors: seq<Error>)

  datatype Ending = Goes | CancelledHere | InputFailed

  /** What one file adds: a result or none, at most one exchange, and whether the run ends here. */
  datatype Verdict = Verdict(result: Option<Outcome>, exchanged: Option<(nat, Candidate)>, ending: Ending)

  function Says(errors: seq<Error>): Verdict {
    Verdict(Some(Failed(errors)), None, Goes)
  }

  const SILENT := Verdict(None, None, Goes)

  function AfterExchange(env: Environment, file: nat, position: nat, identity: nat, c: Candidate): Verdict {
    var sent := Some((position, c));
    match env.exchange(file, position, c)
    case InputFails => Verdict(None, sent, InputFailed)
    case Cancelled => Verdict(Some(Failed([IdentityError(identity, UserCancelled)])), sent, CancelledHere)
    case Disconnected => Verdict(Some(Failed([StanzaError(file, c.index, NotConnected)])), sent, Goes)
    case Garbled => Verdict(Some(Failed([StanzaError(file, c.index, NoResponse)])), sent, Goes)
    case Response(body) =>
      match env.receives(file, position, body)
      case Some(key) => Verdict(Some(Key(key)), sent, Goes)
      case None => Verdict(Some(Failed([StanzaError(file, c.index, Rejected)])), sent, Goes)
  }

  function AfterSelection(env: Environment, file: nat, position: nat, identity: nat, c: Candidate): Verdict {
    if !env.prepares(file, position) then Says([InternalError(NotPrepared)])
    else if !env.replayOpens(file, position) then Says([IdentityError(identity, ReplayUnavailable)])
    else if !env.clock(file) then Verdict(None, None, InputFailed)
    else if !env.requests(file, position, c) then Says([StanzaError(file, c.index, NoRequest)])
    else AfterExchange(env, file, position, identity, c)
  }

  /** The selection for a file whose stanzas are all well-formed and unambiguous. */
  function FileSelection(env: Environment, file: nat, identities: seq<nat>, candidates: seq<Candidate>): (r: Selection)
    ensures r.Chosen? ==> r.position < |identities|
  {
    match PublicMatch(env, candidates, |identities|)
    case Some(pair) =>
      PublicMatchWithin(env, candidates, |identities|);
      SelectSole(env, file, pair.0, identities[pair.0], candidates[pair.1])
    case None => Select(env, file, identities, WithoutTags(candidates))
  }

  lemma {:induction false} PublicMatchWithin(env: Environment, candidates: seq<Candidate>, n: nat)
    ensures var r := PublicMatch(env, candidates, n);
            && (r.Some? ==> && r.value.1 < |candidates| && candidates[r.value.1].stanza.kind == TagKind
                            && FirstMatch(env, candidates[r.value.1].stanza, n) == Some(r.value.0)
                            && forall i :: 0 <= i < r.value.1 && candidates[i].stanza.kind == TagKind ==>
                                 FirstMatch(env, candidates[i].stanza, n) == None)
            && (r.None? ==> forall i :: 0 <= i < |candidates| && candidates[i].stanza.kind == TagKind ==>
                              FirstMatch(env, candidates[i].stanza, n) == None)
  {
    if candidates != [] { PublicMatchWithin(env, candidates[..|candidates| - 1], n); }
  }

  /** A file whose stanzas are well-formed and unambiguous. */
  function ScreenedVerdict(env: Environment, identities: seq<nat>, file: nat, candidates: seq<Candidate>): Verdict {
    if PublicMatch(env, candidates, |identities|).None? && WithoutTags(candidates) == [] then SILENT
    else if !env.root(file) then Says([InternalError(RootUnavailable)])
    else
      match FileSelection(env, file, identities, candidates)
      case Miss => SILENT
      case Refused(errors) => Says(errors)
      case Chosen(position, c) => AfterSelection(env, file, position, identities[position], c)
  }

  function FileVerdict(env: Environment, identities: seq<nat>, file: nat, stanzas: seq<Stanza>): Verdict {
    var (malformed, candidates) := (Malformed(file, stanzas), Candidates(stanzas));
    var conflicts := AllConflicts(env, candidates, |identities|);
    if malformed != [] then Says(malformed)
    else if candidates == [] then SILENT
    else if conflicts > 0 then Says(seq(conflicts, _ => InternalError(AmbiguousTag)))
    else ScreenedVerdict(env, identities, file, candidates)
  }

  // ----- All files -----

  datatype Report = Report(results: map<nat, Outcome>, exchanges: seq<(nat, nat, Candidate)>, ending: Ending)

  function Add(r: Report, file: nat, v: Verdict): Report {
    Report(if v.result.Some? then r.results[file := v.result.value] else r.results,
           if v.exchanged.Some? then r.exchanges + [(file, v.exchanged.value.0, v.exchanged.value.1)] else r.exchanges,
           v.ending)
  }

  /** Files in order, up to and including the first that ends the run. */
  function Fold(verdicts: seq<Verdict>): Report {
    if verdicts == [] then Report(map[], [], Goes)
    else
      var k := |verdicts| - 1;
      var r := Fold(verdicts[..k]);
      if r.ending != Goes then r else Add(r, k, verdicts[k])
  }

  function Verdicts(env: Environment, identities: seq<nat>, files: seq<seq<Stanza>>): seq<Verdict> {
    seq(|files|, f requires 0 <= f < |files| => FileVerdict(env, identities, f, files[f]))
  }

  function Run(env: Environment, identities: seq<nat>, files: seq<seq<Stanza>>): Report {
    Fold(Verdicts(env, identities, files))
  }

  // ----- What the specification means -----

  /** No file before this one ended the run. */
  ghost predicate Reached(verdicts: seq<Verdict>, file: nat) {
    file < |verdicts| && forall g :: 0 <= g < file ==> verdicts[g].ending == Goes
  }

  lemma ReachedPrefix(verdicts: seq<Verdict>, k: nat, file: nat)
    requires file < k <= |verdicts|
    ensures Reached(verdicts[..k], file) <==> Reached(verdicts, file)
  {
    assert forall g :: 0 <= g < k ==> verdicts[..k][g] == verdicts[g];
  }

  lemma {:induction false} FoldEnds(verdicts: seq<Verdict>)
    ensures Fold(verdicts).ending == Goes <==> forall g :: 0 <= g < |verdicts| ==> verdicts[g].ending == Goes
    decreases |verdicts|
  {
    if verdicts != [] {
      var k := |verdicts| - 1;
      FoldEnds(verdicts[..k]);
      assert forall g :: 0 <= g < k ==> verdicts[..k][g] == verdicts[g];
    }
  }

  /** The answer is the union of the files' own results, cut just after the first file that ended it. */
  lemma {:induction false} FoldIsCut(verdicts: seq<Verdict>, file: nat)
    ensures var r := Fold(verdicts).results;
            && (file in r <==> Reached(verdicts, file) && verdicts[file].result.Some?)
            && (file in r ==> Some(r[file]) == verdicts[file].result)
    decreases |verdicts|
  {
    if verdicts != [] {
      var k := |verdicts| - 1;
      FoldIsCut(verdicts[..k], file);
      FoldEnds(verdicts[..k]);
      if file < k { ReachedPrefix(verdicts, k, file); }
      assert forall g :: 0 <= g < k ==> verdicts[..k][g] == verdicts[g];
    }
  }

  /** The exchanges are those of the reached files, in order, one each at most. */
  lemma {:induction false} FoldExchanges(verdicts: seq<Verdict>)
    ensures var e := Fold(verdicts).exchanges;
            && (forall i :: 0 <= i < |e| ==>
                  Reached(verdicts, e[i].0) && verdicts[e[i].0].exchanged == Some((e[i].1, e[i].2)))
            && (forall i, j :: 0 <= i < j < |e| ==> e[i].0 < e[j].0)
    decreases |verdicts|
  {
    if verdicts != [] {
      var k := |verdicts| - 1;
      FoldExchanges(verdicts[..k]);
      FoldEnds(verdicts[..k]);
      var e := Fold(verdicts[..k]).exchanges;
      forall i | 0 <= i < |e|
        ensures Reached(verdicts, e[i].0) && verdicts[e[i].0].exchanged == Some((e[i].1, e[i].2))
      {
        ReachedPrefix(verdicts, k, e[i].0);
        assert verdicts[..k][e[i].0] == verdicts[e[i].0];
      }
      assert forall g :: 0 <= g < k ==> verdicts[..k][g] == verdicts[g];
    }
  }

  lemma FoldExchangeAt(verdicts: seq<Verdict>, i: nat)
    requires i < |Fold(verdicts).exchanges|
    ensures var e := Fold(verdicts).exchanges;
            && Reached(verdicts, e[i].0) && verdicts[e[i].0].exchanged == Some((e[i].1, e[i].2))
            && forall j :: i < j < |e| ==> e[i].0 < e[j].0
  {
    FoldExchanges(verdicts);
  }

  lemma VerdictAt(env: Environment, identities: seq<nat>, files: seq<seq<Stanza>>, file: nat)
    requires file < |files|
    ensures Verdicts(env, identities, files)[file] == FileVerdict(env, identities, file, files[file])
  {
  }

  /** Every file answers for itself, whatever the others do, until the first one that ends the run. */
  lemma RunIsCutFold(env: Environment, identities: seq<nat>, files: seq<seq<Stanza>>, file: nat)
    ensures var r := Run(env, identities, files).results;
            && (file in r <==>
                  file < |files| && FileVerdict(env, identities, file, files[file]).result.Some?
                  && forall g :: 0 <= g < file ==> FileVerdict(env, identities, g, files[g]).ending == Goes)
            && (file in r ==> Some(r[file]) == FileVerdict(env, identities, file, files[file]).result)
  {
    var v := Verdicts(env, identities, files);
    FoldIsCut(v, file);
    assert forall g :: 0 <= g < |files| ==> v[g] == FileVerdict(env, identities, g, files[g]);
  }

  /** What makes a file reach no exchange at all. */
  ghost predicate Unusable(env: Environment, identities: seq<nat>, file: nat, stanzas: seq<Stanza>) {
    || (exists i :: 0 <= i < |stanzas| && stanzas[i].kind != Foreign && !stanzas[i].wellFormed)
    || (exists k: nat, i: nat, j: nat :: Ambiguous(env, stanzas, k, i, j) && i < |identities| && j < |identities|)
  }

  /** A tag stanza names two identities with different keys. */
  ghost predicate Ambiguous(env: Environment, stanzas: seq<Stanza>, k: nat, i: nat, j: nat) {
    && k < |stanzas| && stanzas[k].kind == TagKind && stanzas[k].wellFormed
    && env.tagMatches(i, stanzas[k]) && env.tagMatches(j, stanzas[k]) && env.key(i) != env.key(j)
  }

  lemma {:induction false} MalformedIff(file: nat, stanzas: seq<Stanza>)
    ensures Malformed(file, stanzas) != [] <==>
            exists i :: 0 <= i < |stanzas| && Relevant(stanzas[i]) && !stanzas[i].wellFormed
    decreases |stanzas|
  {
    if stanzas != [] {
      var k := |stanzas| - 1;
      MalformedIff(file, stanzas[..k]);
      if exists i :: 0 <= i < |stanzas| && Relevant(stanzas[i]) && !stanzas[i].wellFormed {
        var i :| 0 <= i < |stanzas| && Relevant(stanzas[i]) && !stanzas[i].wellFormed;
        if i < k { assert stanzas[..k][i] == stanzas[i]; }
      }
      if exists i :: 0 <= i < k && Relevant(stanzas[..k][i]) && !stanzas[..k][i].wellFormed {
        var i :| 0 <= i < k && Relevant(stanzas[..k][i]) && !stanzas[..k][i].wellFormed;
        assert stanzas[..k][i] == stanzas[i];
      }
    }
  }

  lemma {:induction false} ConflictsFound(env: Environment, s: Stanza, n: nat, i: nat, j: nat)
    requires i < n && j < n && env.tagMatches(i, s) && env.tagMatches(j, s) && env.key(i) != env.key(j)
    ensures Conflicts(env, s, n) > 0
  {
    if i < n - 1 && j < n - 1 {
      ConflictsFound(env, s, n - 1, i, j);
    } else {
      var other := if i == n - 1 then j else i;
      var first := FirstMatch(env, s, n - 1);
      assert first.Some? && env.tagMatches(other, s);
      if env.key(first.value) == env.key(n - 1) { ConflictsFound(env, s, n - 1, first.value, other); }
    }
  }

  lemma {:induction false} ConflictsMean(env: Environment, s: Stanza, n: nat) returns (i: nat, j: nat)
    requires Conflicts(env, s, n) > 0
    ensures i < n && j < n && env.tagMatches(i, s) && env.tagMatches(j, s) && env.key(i) != env.key(j)
  {
    var first := FirstMatch(env, s, n - 1);
    if env.tagMatches(n - 1, s) && first.Some? && env.key(first.value) != env.key(n - 1) {
      i, j := first.value, n - 1;
    } else {
      i, j := ConflictsMean(env, s, n - 1);
    }
  }

  lemma {:induction false} AllConflictsIff(env: Environment, candidates: seq<Candidate>, n: nat)
    ensures AllConflicts(env, candidates, n) > 0 <==>
            exists k :: 0 <= k < |candidates| && candidates[k].stanza.kind == TagKind
                        && Conflicts(env, candidates[k].stanza, n) > 0
    decreases |candidates|
  {
    if candidates != [] {
      var last := |candidates| - 1;
      AllConflictsIff(env, candidates[..last], n);
      if exists k :: 0 <= k < |candidates| && candidates[k].stanza.kind == TagKind
                     && Conflicts(env, candidates[k].stanza, n) > 0 {
        var k :| 0 <= k < |candidates| && candidates[k].stanza.kind == TagKind
                 && Conflicts(env, candidates[k].stanza, n) > 0;
        if k < last { assert candidates[..last][k] == candidates[k]; }
      }
      if exists k :: 0 <= k < last && candidates[..last][k].stanza.kind == TagKind
                     && Conflicts(env, candidates[..last][k].stanza, n) > 0 {
        var k :| 0 <= k < last && candidates[..last][k].stanza.kind == TagKind
                 && Conflicts(env, candidates[..last][k].stanza, n) > 0;
        assert candidates[..last][k] == candidates[k];
      }
    }
  }

  lemma {:induction false} IsCandidate(stanzas: seq<Stanza>, k: nat) returns (p: nat)
    requires k < |stanzas| && Relevant(stanzas[k]) && stanzas[k].wellFormed
    ensures p < |Candidates(stanzas)| && Candidates(stanzas)[p] == Candidate(k, stanzas[k])
    decreases |stanzas|
  {
    var last := |stanzas| - 1;
    if k == last {
      p := |Candidates(stanzas)| - 1;
    } else {
      p := IsCandidate(stanzas[..last], k);
    }
  }

  lemma {:induction false} WithoutTagsWithin(candidates: seq<Candidate>)
    ensures forall c :: c in WithoutTags(candidates) <==> c in candidates && c.stanza.kind != TagKind
    decreases |candidates|
  {
    if candidates != [] {
      var k := |candidates| - 1;
      WithoutTagsWithin(candidates[..k]);
      assert candidates == candidates[..k] + [candidates[k]];
    }
  }

  lemma AmbiguousConflicts(env: Environment, stanzas: seq<Stanza>, n: nat, k: nat, i: nat, j: nat)
    requires Malformed(0, stanzas) == [] && Ambiguous(env, stanzas, k, i, j) && i < n && j < n
    ensures AllConflicts(env, Candidates(stanzas), n) > 0
  {
    MalformedIff(0, stanzas);
    AllConflictsIff(env, Candidates(stanzas), n);
    var p := IsCandidate(stanzas, k);
    ConflictsFound(env, stanzas[k], n, i, j);
  }

  lemma ConflictsAreAmbiguous(env: Environment, stanzas: seq<Stanza>, n: nat) returns (k: nat, i: nat, j: nat)
    requires AllConflicts(env, Candidates(stanzas), n) > 0
    ensures Ambiguous(env, stanzas, k, i, j) && i < n && j < n
  {
    var candidates := Candidates(stanzas);
    AllConflictsIff(env, candidates, n);
    var p :| 0 <= p < |candidates| && candidates[p].stanza.kind == TagKind
             && Conflicts(env, candidates[p].stanza, n) > 0;
    i, j := ConflictsMean(env, candidates[p].stanza, n);
    k := candidates[p].index;
  }

  /** The loops' two lists of errors are empty exactly for the usable files. */
  lemma UnusableIff(env: Environment, identities: seq<nat>, file: nat, stanzas: seq<Stanza>)
    ensures Unusable(env, identities, file, stanzas) <==>
            Malformed(file, stanzas) != [] || AllConflicts(env, Candidates(stanzas), |identities|) > 0
  {
    MalformedIff(file, stanzas);
    MalformedIff(0, stanzas);
    if Malformed(file, stanzas) == [] && Unusable(env, identities, file, stanzas) {
      var k: nat, i: nat, j: nat :| Ambiguous(env, stanzas, k, i, j) && i < |identities| && j < |identities|;
      AmbiguousConflicts(env, stanzas, |identities|, k, i, j);
    }
    if AllConflicts(env, Candidates(stanzas), |identities|) > 0 {
      var k, i, j := ConflictsAreAmbiguous(env, stanzas, |identities|);
    }
  }

  lemma ScreenedExchange(env: Environment, identities: seq<nat>, file: nat, candidates: seq<Candidate>)
    requires ScreenedVerdict(env, identities, file, candidates).exchanged.Some?
    ensures var pair := ScreenedVerdict(env, identities, file, candidates).exchanged.value;
            FileSelection(env, file, identities, candidates) == Chosen(pair.0, pair.1)
  {
    hide FileSelection, PublicMatch, WithoutTags;
  }

  /** The exchanged pair is the file's selection, and the file is usable. */
  lemma ExchangedIsSelected(env: Environment, identities: seq<nat>, file: nat, stanzas: seq<Stanza>)
    requires FileVerdict(env, identities, file, stanzas).exchanged.Some?
    ensures !Unusable(env, identities, file, stanzas)
    ensures var pair := FileVerdict(env, identities, file, stanzas).exchanged.value;
            FileSelection(env, file, identities, Candidates(stanzas)) == Chosen(pair.0, pair.1)
  {
    assert Malformed(file, stanzas) == [] && AllConflicts(env, Candidates(stanzas), |identities|) == 0;
    UnusableIff(env, identities, file, stanzas);
    ScreenedExchange(env, identities, file, Candidates(stanzas));
  }

  /** Main result: at most one exchange a file, none for an unusable file, none after the run ended. */
  lemma ExchangeDiscipline(env: Environment, identities: seq<nat>, files: seq<seq<Stanza>>, i: nat)
    requires i < |Run(env, identities, files).exchanges|
    ensures var e := Run(env, identities, files).exchanges;
            && e[i].0 < |files|
            && (forall j :: i < j < |e| ==> e[i].0 < e[j].0)
            && Reached(Verdicts(env, identities, files), e[i].0)
            && !Unusable(env, identities, e[i].0, files[e[i].0])
            && FileSelection(env, e[i].0, identities, Candidates(files[e[i].0])) == Chosen(e[i].1, e[i].2)
  {
    var v := Verdicts(env, identities, files);
    FoldExchangeAt(v, i);
    var e := Fold(v).exchanges[i];
    VerdictAt(env, identities, files, e.0);
    ExchangedIsSelected(env, identities, e.0, files[e.0]);
  }

  /**
   A file commits to its first matching tag stanza and that stanza's first matching identity;
   nothing else is ever tried for it.
   */
  lemma TagCommits(env: Environment, file: nat, identities: seq<nat>, candidates: seq<Candidate>, p: nat, i: nat)
    requires p < |candidates| && candidates[p].stanza.kind == TagKind
    requires i < |identities| && env.tagMatches(i, candidates[p].stanza)
    requires forall q, j :: 0 <= q < p && candidates[q].stanza.kind == TagKind && 0 <= j < |identities| ==>
               !env.tagMatches(j, candidates[q].stanza)
    requires forall j :: 0 <= j < i ==> !env.tagMatches(j, candidates[p].stanza)
    ensures FileSelection(env, file, identities, candidates)
         == if env.locatorOpens(file, i) && env.keysOpen(file, i) then Chosen(i, candidates[p])
            else
              var reason := if env.locatorOpens(file, i) then KeysUnavailable else PairingUnavailable;
              Refused([IdentityError(identities[i], reason)])
  {
    PublicMatchWithin(env, candidates, |identities|);
    var r := PublicMatch(env, candidates, |identities|);
    assert FirstMatch(env, candidates[p].stanza, |identities|) == Some(i);
  }

  /** The pair comes before another in the order of identities, then of candidates. */
  predicate Before(i: nat, p: nat, j: nat, q: nat) {
    i < j || (i == j && p < q)
  }

  /**
   Without a public match, a choice among private stanzas is the first pair of an identity that
   opens and a stanza that is not known to differ, and that pair matches.
   */
  lemma PrivateSelectionIsFirst(env: Environment, file: nat, identities: seq<nat>, candidates: seq<Candidate>,
                                i: nat, p: nat)
    requires identities != [] && !HasAnonymous(candidates)
    requires i < |identities| && Opens(env, file, i) && p < |candidates|
    requires env.privateMatch(i, candidates[p].stanza) != Differs
    requires forall j, q ::
               0 <= j < |identities| && 0 <= q < |candidates| && Before(j, q, i, p) && Opens(env, file, j) ==>
               env.privateMatch(j, candidates[q].stanza) == Differs
    ensures Select(env, file, identities, candidates)
         == if env.privateMatch(i, candidates[p].stanza) == Matches then Chosen(i, candidates[p])
            else Refused([InternalError(SelectionFailed)])
  {
    var ready := Opened(env, file, identities);
    var k := PositionIn(env, file, identities, i);
    var d := Decisive(env, ready, candidates);
    var f := FirstDecisive(env, i, candidates);
    forall q | 0 <= q < p
      ensures env.privateMatch(i, candidates[q].stanza) == Differs
    {
      assert Before(i, q, i, p);
    }
    assert f == Some(p);
    assert d.Some? && d.value.0 <= k;
    if d.value.0 < k {
      var j := ready[d.value.0];
      assert Before(j, d.value.1, i, p);
      assert false;
    }
  }

  lemma {:induction false} PositionIn(env: Environment, file: nat, identities: seq<nat>, i: nat) returns (k: nat)
    requires i < |identities| && Opens(env, file, i)
    ensures k < |Opened(env, file, identities)| && Opened(env, file, identities)[k] == i
    decreases |identities|
  {
    var last := |identities| - 1;
    if i == last {
      k := |Opened(env, file, identities)| - 1;
    } else {
      k := PositionIn(env, file, identities[..last], i);
    }
  }

  /** An anonymous stanza is exchanged only with a sole identity and no other stanza. */
  lemma AnonymousNeedsSole(env: Environment, file: nat, identities: seq<nat>, candidates: seq<Candidate>)
    requires HasAnonymous(candidates) && Select(env, file, identities, candidates).Chosen?
    ensures |identities| == 1 && |candidates| == 1
    ensures Select(env, file, identities, candidates) == Chosen(0, candidates[0])
  {
  }

  /** A file with only misses answers nothing, which lets the caller go on to other plugins. */
  lemma MissIffNothingDecides(env: Environment, file: nat, identities: seq<nat>, candidates: seq<Candidate>)
    requires identities != [] && !HasAnonymous(candidates)
    ensures Select(env, file, identities, candidates) == Miss <==>
            forall i :: 0 <= i < |identities| ==> DecidesNothing(env, file, i, candidates)
  {
    var ready := Opened(env, file, identities);
    AllOpenIff(env, file, identities);
    if Select(env, file, identities, candidates) == Miss {
      forall i | 0 <= i < |identities|
        ensures DecidesNothing(env, file, i, candidates)
      {
        var k := PositionIn(env, file, identities, i);
        assert FirstDecisive(env, ready[k], candidates) == None;
      }
    } else if forall i :: 0 <= i < |identities| ==> DecidesNothing(env, file, i, candidates) {
      forall i | 0 <= i < |identities|
        ensures Opens(env, file, i)
      {
        assert DecidesNothing(env, file, i, candidates);
      }
      forall k | 0 <= k < |ready|
        ensures FirstDecisive(env, ready[k], candidates) == None
      {
        assert DecidesNothing(env, file, ready[k], candidates);
      }
    }
  }

  ghost predicate DecidesNothing(env: Environment, file: nat, i: nat, candidates: seq<Candidate>) {
    Opens(env, file, i) && forall p :: 0 <= p < |candidates| ==> env.privateMatch(i, candidates[p].stanza) == Differs
  }

  lemma {:induction false} AllOpenIff(env: Environment, file: nat, identities: seq<nat>)
    ensures OpenErrors(env, file, identities) == [] <==> forall i :: 0 <= i < |identities| ==> Opens(env, file, i)
    decreases |identities|
  {
    if identities != [] { AllOpenIff(env, file, identities[..|identities| - 1]); }
  }
}
